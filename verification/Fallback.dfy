/** The supervisor's own playlist, served while the worker cannot be reached: it is written anew from the
    segment URIs on disk, with dates from one clock anchor per encoder. */
module Fallback {
  import opened Text
  import opened PlaylistLines
  import opened BreakState
  import opened DateRange
  import opened Playlist
  import opened PlaylistMedia
  import opened PlaylistShape
  import opened PlaylistTheorems
  import opened PlaylistIdempotence
  import opened PlaylistServer
  import opened PlaylistText

  // ---------- what is read ----------

  predicate IsAac(l: string) { KindOf(l) == Uri && FindLast(l, ".aac", |l| - 4) >= 0 }

  function AacUris(lines: seq<string>): seq<string> {
    if lines == [] then [] else (if IsAac(lines[0]) then [lines[0]] else []) + AacUris(lines[1..])
  }

  /** The number of the last MEDIA-SEQUENCE line, -1 when there is none or it cannot be read. */
  function MediaSeqOf(lines: seq<string>): int {
    var m := LastOf(lines, MediaSequence);
    if m < 0 then -1 else SeqNumber(lines[m])
  }

  function SeqNumber(l: string): int {
    if StartsWith(l, MEDIA_SEQUENCE) then
      match Stoi(l[|MEDIA_SEQUENCE|..]) case None => -1 case Some(n) => n
    else -1
  }

  /** The MEDIA-SEQUENCE printed, and the number the dates are counted from. */
  function PrintedSeq(lines: seq<string>): int
    requires AacUris(lines) != []
  {
    var n := SegmentNumber(AacUris(lines)[0]);
    if MediaSeqOf(lines) >= 0 then MediaSeqOf(lines) else if n >= 0 then n else 0
  }

  function FirstSeq(lines: seq<string>): int
    requires AacUris(lines) != []
  {
    var n := SegmentNumber(AacUris(lines)[0]);
    if n >= 0 then n else PrintedSeq(lines)
  }

  lemma {:induction false} AacUrisConcat(a: seq<string>, b: seq<string>)
    ensures AacUris(a + b) == AacUris(a) + AacUris(b)
  {
    hide IsAac;
    if a == [] {
      assert a + b == b;
    } else {
      assert (a + b)[1..] == a[1..] + b;
      AacUrisConcat(a[1..], b);
      Regroup(if IsAac(a[0]) then [a[0]] else [], AacUris(a[1..]), AacUris(b));
    }
  }

  method ReadListing(lines: seq<string>) returns (mediaSeq: int, uris: seq<string>, numbers: seq<int>)
    ensures uris == AacUris(lines) && mediaSeq == MediaSeqOf(lines)
    ensures |numbers| == |uris| && forall k | 0 <= k < |uris| :: numbers[k] == SegmentNumber(uris[k])
  {
    hide KindOf, SegmentNumber, SeqNumber, FindLast;
    mediaSeq, uris, numbers := -1, [], [];
    for i := 0 to |lines|
      invariant uris == AacUris(lines[..i])
      invariant var m := LastBelow(lines, MediaSequence, i); mediaSeq == if m < 0 then -1 else SeqNumber(lines[m])
      invariant |numbers| == |uris| && forall k | 0 <= k < |uris| :: numbers[k] == SegmentNumber(uris[k])
    {
      var ln := lines[i];
      KindIff(ln);
      assert lines[..i + 1] == lines[..i] + [ln];
      AacUrisConcat(lines[..i], [ln]);
      AacUrisOne(ln);
      if StartsWith(ln, MEDIA_SEQUENCE) {
        mediaSeq := SeqNumber(ln);
      } else if ln != "" && ln[0] != '#' && FindLast(ln, ".aac", |ln| - 4) >= 0 {
        uris, numbers := uris + [ln], numbers + [SegmentNumber(ln)];
      }
    }
    assert lines[..|lines|] == lines;
  }

  lemma AacUrisOne(l: string)
    ensures AacUris([l]) == if IsAac(l) then [l] else []
  {
  }

  // ---------- what is written ----------

  function FallbackHeader(cfg: Settings, mediaSeq: int): seq<string> {
    ["#EXTM3U", VERSION + "6", TARGET + IntToString(cfg.segSecs), MEDIA_SEQUENCE + IntToString(mediaSeq),
     INDEPENDENT, StartLine(cfg)]
  }

  function Entry(uri: string, ms: int, cfg: Settings, cal: Calendar): Segment {
    Segment(InfLine(cfg), DateLine(cal.format(ms)), Before, uri, [])
  }

  function Entries(uris: seq<string>, firstMs: int, cfg: Settings, cal: Calendar): (r: seq<Segment>)
    ensures |r| == |uris|
  {
    seq(|uris|, k requires 0 <= k < |uris| => Entry(uris[k], firstMs + k * StepMs(cfg), cfg, cal))
  }

  function Generated(lines: seq<string>, firstMs: int, cfg: Settings, cal: Calendar): seq<string>
    requires AacUris(lines) != []
  {
    FallbackHeader(cfg, PrintedSeq(lines)) + MediaLines(Entries(AacUris(lines), firstMs, cfg, cal))
  }

  /** The text is written, read back into lines, given its break line and written again. */
  function FallbackLines(lines: seq<string>, firstMs: int, cfg: Settings, cal: Calendar, s: Range): seq<string>
    requires AacUris(lines) != []
  {
    NonBlank(Injected(SplitLines(JoinLines(Generated(lines, firstMs, cfg, cal))), s, cal.parse))
  }

  lemma EntriesAppend(uris: seq<string>, i: nat, firstMs: int, cfg: Settings, cal: Calendar)
    requires i < |uris|
    ensures Entries(uris[..i + 1], firstMs, cfg, cal) ==
            Entries(uris[..i], firstMs, cfg, cal) + [Entry(uris[i], firstMs + i * StepMs(cfg), cfg, cal)]
  {
    hide Entry, StepMs;
  }

  /** A date, an EXTINF and a URI, without tags. */
  predicate IsPlain(e: Segment) { e.place == Before && e.tags == [] }

  ghost predicate AllPlain(es: seq<Segment>) { forall e | e in es :: IsPlain(e) }

  lemma PlainLine(e: Segment)
    requires IsPlain(e)
    ensures MediaLines([e]) == [e.date, e.inf, e.uri]
  {
    assert [e][1..] == [];
  }

  lemma PlainLines(es: seq<Segment>)
    requires es != [] && IsPlain(es[0])
    ensures MediaLines(es) == [es[0].date, es[0].inf, es[0].uri] + MediaLines(es[1..])
  {
  }

  method WritePlaylist(uris: seq<string>, mediaSeq: int, firstMs: int, cfg: Settings, cal: Calendar)
    returns (data: string)
    ensures data == JoinLines(FallbackHeader(cfg, mediaSeq) + MediaLines(Entries(uris, firstMs, cfg, cal)))
  {
    hide JoinLines, MediaLines, Entries, InfLine, DateLine, FallbackHeader, StepMs;
    var header := FallbackHeader(cfg, mediaSeq);
    data := WriteAll(header);
    NoEntries(firstMs, cfg, cal);
    var curMs := firstMs;
    assert header + [] == header && uris[..0] == [];
    for i := 0 to |uris|
      invariant curMs == firstMs + i * StepMs(cfg)
      invariant data == JoinLines(header + MediaLines(Entries(uris[..i], firstMs, cfg, cal)))
    {
      var e := Entry(uris[i], curMs, cfg, cal);
      var entry := WriteAll([e.date, e.inf, e.uri]);
      EntriesAppend(uris, i, firstMs, cfg, cal);
      var before := Entries(uris[..i], firstMs, cfg, cal);
      MediaConcat(before, [e]);
      PlainLine(e);
      JoinConcat(header + MediaLines(before), MediaLines([e]));
      assert header + (MediaLines(before) + MediaLines([e])) == header + MediaLines(before) + MediaLines([e]);
      data := data + entry;
      curMs := curMs + StepMs(cfg);
      NextProduct(i, StepMs(cfg));
    }
    assert uris[..|uris|] == uris;
  }

  lemma NextProduct(i: int, step: int)
    ensures i * step + step == (i + 1) * step
  {
  }

  lemma NoEntries(firstMs: int, cfg: Settings, cal: Calendar)
    ensures MediaLines(Entries([], firstMs, cfg, cal)) == []
  {
  }

  method WriteAll(lines: seq<string>) returns (data: string)
    ensures data == JoinLines(lines)
  {
    data := "";
    for i := 0 to |lines|
      invariant data + JoinLines(lines[i..]) == JoinLines(lines)
    {
      assert lines[i..][1..] == lines[i + 1..];
      assert data + (lines[i] + "\n" + JoinLines(lines[i + 1..])) ==
             data + (lines[i] + "\n") + JoinLines(lines[i + 1..]);
      data := data + (lines[i] + "\n");
    }
  }

  // ---------- the shape of the answer ----------

  lemma {:induction false} AacUrisAreUris(lines: seq<string>)
    ensures forall u | u in AacUris(lines) :: KindOf(u) == Uri && u in lines
  {
    hide KindOf, FindLast;
    if lines != [] {
      AacUrisAreUris(lines[1..]);
      assert lines == [lines[0]] + lines[1..];
    }
  }

  lemma FallbackHeaderOk(cfg: Settings, mediaSeq: int)
    ensures HeaderOk(FallbackHeader(cfg, mediaSeq)) && "" !in FallbackHeader(cfg, mediaSeq)
  {
    hide KindOf, IntToString;
    var h := FallbackHeader(cfg, mediaSeq);
    MadeLineKinds(cfg, "");
    forall l | l in h ensures l != "" && !IsMediaKind(KindOf(l)) {
      KindIff(l);
      if l == "#EXTM3U" { assert l[4] == 'M'; }
      else if l == VERSION + "6" { assert StartsWith(l, VERSION); }
      else if l == TARGET + IntToString(cfg.segSecs) { assert StartsWith(l, TARGET); }
      else if l == MEDIA_SEQUENCE + IntToString(mediaSeq) { assert StartsWith(l, MEDIA_SEQUENCE); }
    }
  }

  lemma EntriesOk(uris: seq<string>, firstMs: int, cfg: Settings, cal: Calendar)
    requires forall u | u in uris :: KindOf(u) == Uri
    ensures var es := Entries(uris, firstMs, cfg, cal); AllOk(es) && AllBefore(es) && AllPlain(es)
  {
    hide KindOf, Entry, StepMs, SegmentOk;
    var es := Entries(uris, firstMs, cfg, cal);
    forall e | e in es ensures SegmentOk(e) && IsPlain(e) {
      var k :| 0 <= k < |es| && es[k] == e;
      assert uris[k] in uris;
      EntryOk(uris[k], firstMs + k * StepMs(cfg), cfg, cal);
    }
  }

  lemma EntryOk(uri: string, ms: int, cfg: Settings, cal: Calendar)
    requires KindOf(uri) == Uri
    ensures var e := Entry(uri, ms, cfg, cal); SegmentOk(e) && IsPlain(e)
  {
    hide KindOf, InfLine, DateLine;
    MadeLineKinds(cfg, cal.format(ms));
  }

  lemma FallbackHeaderClean(cfg: Settings, mediaSeq: int)
    requires Clean(cfg.payload)
    ensures AllClean(FallbackHeader(cfg, mediaSeq))
  {
    hide Clean, IntToString, StartLine;
    MadeLinesClean(cfg);
    HeaderTagsClean(mediaSeq);
  }

  /** All but the URIs is clean, and no URI holds a line feed. */
  lemma EntriesFree(uris: seq<string>, firstMs: int, cfg: Settings, cal: Calendar)
    requires NoFeeds(uris) && Clean(cfg.payload) && CalendarOk(cal)
    ensures NoFeeds(MediaLines(Entries(uris, firstMs, cfg, cal)))
    ensures forall e | e in Entries(uris, firstMs, cfg, cal) :: IsPlain(e) && Clean(e.inf) && Clean(e.date)
  {
    hide Clean, MediaLines, StepMs, Entry, CalendarOk;
    var es := Entries(uris, firstMs, cfg, cal);
    forall e | e in es ensures IsPlain(e) && Clean(e.inf) && Clean(e.date) && '\n' !in e.uri {
      var k :| 0 <= k < |es| && es[k] == e;
      assert uris[k] in uris;
      EntryClean(uris[k], firstMs + k * StepMs(cfg), cfg, cal);
    }
    MediaFree(es);
  }

  lemma EntryClean(uri: string, ms: int, cfg: Settings, cal: Calendar)
    requires Clean(cfg.payload) && CalendarOk(cal)
    ensures var e := Entry(uri, ms, cfg, cal); IsPlain(e) && Clean(e.inf) && Clean(e.date) && e.uri == uri
  {
    hide Clean, InfLine, DateLine;
    MadeLinesClean(cfg);
    DateTextClean(cal.format(ms));
  }

  lemma {:induction false} MediaFree(es: seq<Segment>)
    requires forall e | e in es :: IsPlain(e) && Clean(e.inf) && Clean(e.date) && '\n' !in e.uri
    ensures NoFeeds(MediaLines(es))
  {
    if es != [] {
      assert es[0] in es && forall e | e in es[1..] :: e in es;
      MediaFree(es[1..]);
    }
  }

  lemma HeaderTagsClean(mediaSeq: int)
    ensures Clean("#EXTM3U") && Clean(MEDIA_SEQUENCE + IntToString(mediaSeq))
  {
    hide IntToString, Clean;
    CleanNumber(mediaSeq);
    assert Clean("#EXTM3U") && Clean(MEDIA_SEQUENCE) by { TwoTagsClean(); }
    CleanConcat(MEDIA_SEQUENCE, IntToString(mediaSeq));
  }

  lemma TwoTagsClean()
    ensures Clean("#EXTM3U") && Clean(MEDIA_SEQUENCE)
  {
  }

  // ---------- written, and read back ----------

  /** The lines read back: each URI without one carriage return at its end. */
  function ReadAgain(lines: seq<string>, firstMs: int, cfg: Settings, cal: Calendar): seq<string>
    requires AacUris(lines) != []
  {
    FallbackHeader(cfg, PrintedSeq(lines)) + MediaLines(Entries(Stripped(AacUris(lines)), firstMs, cfg, cal))
  }

  function StripSegments(es: seq<Segment>): (r: seq<Segment>)
    ensures |r| == |es|
  {
    seq(|es|, i requires 0 <= i < |es| => es[i].(uri := StripCr(es[i].uri)))
  }

  lemma CleanLineStays(l: string)
    requires Clean(l)
    ensures StripCr(l) == l
  {
    if l != "" { assert l[|l| - 1] in l; }
  }

  lemma {:induction false} StrippedMedia(es: seq<Segment>)
    requires forall e | e in es :: IsPlain(e) && Clean(e.inf) && Clean(e.date)
    ensures Stripped(MediaLines(es)) == MediaLines(StripSegments(es))
  {
    hide StripCr, Clean, Stripped;
    if es == [] {
      StrippedConcat([], []);
    } else {
      var e := es[0];
      assert e in es && forall x | x in es[1..] :: x in es;
      StrippedMedia(es[1..]);
      CleanLineStays(e.inf);
      CleanLineStays(e.date);
      assert StripSegments(es)[1..] == StripSegments(es[1..]);
      PlainLines(es);
      StrippedConcat([e.date, e.inf, e.uri], MediaLines(es[1..]));
      StrippedThree(e.date, e.inf, e.uri);
    }
  }

  lemma StrippedConcat(a: seq<string>, b: seq<string>)
    ensures Stripped(a + b) == Stripped(a) + Stripped(b) && Stripped([]) == []
  {
    hide StripCr;
  }

  lemma StrippedThree(a: string, b: string, c: string)
    ensures Stripped([a, b, c]) == [StripCr(a), StripCr(b), StripCr(c)]
  {
    hide StripCr;
  }

  lemma ReadBack(lines: seq<string>, firstMs: int, cfg: Settings, cal: Calendar)
    requires AacUris(lines) != [] && NoFeeds(lines) && Clean(cfg.payload) && CalendarOk(cal)
    ensures SplitLines(JoinLines(Generated(lines, firstMs, cfg, cal))) == ReadAgain(lines, firstMs, cfg, cal)
  {
    hide SplitLines, JoinLines, AacUris, PrintedSeq, FallbackHeader, Clean, MediaLines, KindOf, StripCr;
    var h, es := FallbackHeader(cfg, PrintedSeq(lines)), Entries(AacUris(lines), firstMs, cfg, cal);
    AacUrisAreUris(lines);
    EntriesFree(AacUris(lines), firstMs, cfg, cal);
    FallbackHeaderClean(cfg, PrintedSeq(lines));
    CleanStays(h);
    SplitJoinConcat(h, MediaLines(es));
    SplitJoinFree(h);
    SplitJoinFree(MediaLines(es));
    StrippedMedia(es);
    StripEntries(AacUris(lines), firstMs, cfg, cal);
  }

  lemma StripEntries(uris: seq<string>, firstMs: int, cfg: Settings, cal: Calendar)
    ensures StripSegments(Entries(uris, firstMs, cfg, cal)) == Entries(Stripped(uris), firstMs, cfg, cal)
  {
    hide StripCr, InfLine, DateLine, StepMs;
  }

  /** What is read back is what was written if and only if no .aac URI ends in a carriage return. */
  lemma ReadBackIff(lines: seq<string>, firstMs: int, cfg: Settings, cal: Calendar)
    requires AacUris(lines) != [] && NoFeeds(lines) && Clean(cfg.payload) && CalendarOk(cal)
    ensures var g := Generated(lines, firstMs, cfg, cal);
            SplitLines(JoinLines(g)) == g <==> NoneEndsInCr(AacUris(lines))
  {
    hide SplitLines, JoinLines, AacUris, PrintedSeq, FallbackHeader, Clean, MediaLines, KindOf, StripCr, Entries;
    hide NoneEndsInCr;
    ReadBack(lines, firstMs, cfg, cal);
    GeneratedUris(lines, firstMs, cfg, cal);
    SameUrisIff(AacUris(lines));
  }

  lemma SameUrisIff(uris: seq<string>)
    ensures Stripped(uris) == uris <==> NoneEndsInCr(uris)
  {
    hide StripCr;
    StrippedIff(uris, [], []);
    assert uris + [] == uris && Stripped(uris) + [] + Stripped([]) == Stripped(uris);
  }

  /** The URIs of both line sequences. */
  lemma GeneratedUris(lines: seq<string>, firstMs: int, cfg: Settings, cal: Calendar)
    requires AacUris(lines) != []
    ensures Uris(Generated(lines, firstMs, cfg, cal)) == AacUris(lines)
    ensures Uris(ReadAgain(lines, firstMs, cfg, cal)) == Stripped(AacUris(lines))
  {
    hide AacUris, PrintedSeq, FallbackHeader, MediaLines, KindOf, StripCr, Entries, OfKind;
    AacUrisAreUris(lines);
    StrippedAacUris(lines);
    EntryUris(AacUris(lines), firstMs, cfg, cal, PrintedSeq(lines));
    EntryUris(Stripped(AacUris(lines)), firstMs, cfg, cal, PrintedSeq(lines));
  }

  lemma EntryUris(uris: seq<string>, firstMs: int, cfg: Settings, cal: Calendar, mediaSeq: int)
    requires forall u | u in uris :: KindOf(u) == Uri
    ensures Uris(FallbackHeader(cfg, mediaSeq) + MediaLines(Entries(uris, firstMs, cfg, cal))) == uris
  {
    hide FallbackHeader, MediaLines, KindOf, OfKind, InfLine, DateLine, StepMs;
    var h, es := FallbackHeader(cfg, mediaSeq), Entries(uris, firstMs, cfg, cal);
    FallbackHeaderOk(cfg, mediaSeq);
    EntriesOk(uris, firstMs, cfg, cal);
    OfKindConcat(h, MediaLines(es), Uri);
    OfKindNone(h, Uri);
    MediaUris(es);
    assert Uris(MediaLines(es)) == uris;
  }

  /** An .aac URI without its last carriage return is still a URI. */
  lemma {:induction false} StrippedAacUris(lines: seq<string>)
    ensures forall u | u in AacUris(lines) :: |u| >= 4
    ensures forall u | u in Stripped(AacUris(lines)) :: KindOf(u) == Uri && u != "\r" && u != ""
  {
    hide KindOf, StripCr;
    if lines != [] {
      StrippedAacUris(lines[1..]);
      if IsAac(lines[0]) { StripAac(lines[0]); }
    }
    forall u | u in Stripped(AacUris(lines)) ensures KindOf(u) == Uri && u != "\r" && u != "" {
      var i :| 0 <= i < |AacUris(lines)| && u == StripCr(AacUris(lines)[i]);
      assert AacUris(lines)[i] in AacUris(lines);
      AacUrisAreUris(lines);
      StripLong(AacUris(lines)[i]);
    }
  }

  lemma StripAac(l: string)
    requires IsAac(l)
    ensures |l| >= 4
  {
    hide KindOf;
  }

  lemma StripLong(l: string)
    requires |l| >= 4 && KindOf(l) == Uri
    ensures KindOf(StripCr(l)) == Uri && |StripCr(l)| > 1
  {
    hide KindOf;
    KindIff(l);
    KindIff(StripCr(l));
  }

  /** Whatever lines are read, the supervisor answers with a header and, for every .aac URI in order, its date, its
      EXTINF and the URI as it was read back, one segment length apart, with at most one break line, right before
      a date. */
  lemma FallbackShape(lines: seq<string>, firstMs: int, cfg: Settings, cal: Calendar, s: Range)
    requires AacUris(lines) != [] && NoFeeds(lines) && Clean(cfg.payload) && CalendarOk(cal)
    ensures IsResponse(FallbackLines(lines, firstMs, cfg, cal, s), FallbackHeader(cfg, PrintedSeq(lines)),
                       Entries(Stripped(AacUris(lines)), firstMs, cfg, cal), s)
  {
    hide Injected, NonBlank, SplitLines, JoinLines, AacUris, PrintedSeq, FallbackHeader, Entries, NoFeeds;
    hide AllOk, AllBefore, HeaderOk, IsResponse, MediaLines, KindOf, StripCr;
    var uris := Stripped(AacUris(lines));
    var h, es := FallbackHeader(cfg, PrintedSeq(lines)), Entries(uris, firstMs, cfg, cal);
    ReadBack(lines, firstMs, cfg, cal);
    FallbackHeaderOk(cfg, PrintedSeq(lines));
    StrippedAacUris(lines);
    EntriesOk(uris, firstMs, cfg, cal);
    InjectedShape(h, es, s, cal.parse);
    NonBlankResponse(Injected(h + MediaLines(es), s, cal.parse), h, es, s);
    NonBlankId(h);
  }

  lemma {:induction false} MediaUris(es: seq<Segment>)
    requires AllOk(es) && AllPlain(es)
    ensures |Uris(MediaLines(es))| == |es| && forall k | 0 <= k < |es| :: Uris(MediaLines(es))[k] == es[k].uri
  {
    hide KindOf;
    if es != [] {
      var e := es[0];
      assert e in es;
      MediaUris(es[1..]);
      PlainLines(es);
      OfKindConcat([e.date, e.inf, e.uri], MediaLines(es[1..]), Uri);
      UrisOfEntry(e);
    }
  }

  lemma UrisOfEntry(e: Segment)
    requires SegmentOk(e) && e.place == Before
    ensures Uris([e.date, e.inf, e.uri]) == [e.uri]
  {
    hide KindOf;
    hide OfKind;
    assert [e.date, e.inf, e.uri] == [e.date] + [e.inf] + [e.uri];
    OfKindConcat([e.date] + [e.inf], [e.uri], Uri);
    OfKindConcat([e.date], [e.inf], Uri);
    OfKindOne(e.date, Uri);
    OfKindOne(e.inf, Uri);
    OfKindOne(e.uri, Uri);
  }

  /** The lines of the answer keep every .aac URI, in order and with none added, if and only if none of them ends in
      a carriage return. */
  lemma FallbackKeepsUrisIff(lines: seq<string>, firstMs: int, cfg: Settings, cal: Calendar, s: Range)
    requires AacUris(lines) != [] && NoFeeds(lines) && Clean(cfg.payload) && CalendarOk(cal)
    ensures Uris(FallbackLines(lines, firstMs, cfg, cal, s)) == Stripped(AacUris(lines))
    ensures Uris(FallbackLines(lines, firstMs, cfg, cal, s)) == AacUris(lines) <==> NoneEndsInCr(AacUris(lines))
  {
    hide Injected, NonBlank, SplitLines, JoinLines, AacUris, PrintedSeq, FallbackHeader, NoFeeds, ReadAgain;
    hide MediaLines, KindOf, OfKind, Generated, StripCr, NoneEndsInCr;
    var a := ReadAgain(lines, firstMs, cfg, cal);
    ReadBack(lines, firstMs, cfg, cal);
    OfKindInjected(a, s, cal.parse, Uri);
    OfKindNonBlank(Injected(a, s, cal.parse), Uri);
    GeneratedUris(lines, firstMs, cfg, cal);
    SameUrisIff(AacUris(lines));
  }

  // ---------- the same format as the worker's ----------

  lemma FallbackHeaderKinds(cfg: Settings, mediaSeq: int)
    ensures var h := FallbackHeader(cfg, mediaSeq);
            |h| == 6 && KindOf(h[0]) == Other && KindOf(h[1]) == Version && KindOf(h[2]) == Target &&
            KindOf(h[3]) == MediaSequence && KindOf(h[4]) == Independent && KindOf(h[5]) == Start
  {
    hide KindOf, IntToString, StartLine;
    var h := FallbackHeader(cfg, mediaSeq);
    MadeLineKinds(cfg, "");
    HeadKind();
    KindIff(h[1]);
    KindIff(h[2]);
    KindIff(h[3]);
  }

  lemma HeadKind()
    ensures KindOf("#EXTM3U") == Other
  {
    KindIff("#EXTM3U");
    var l := "#EXTM3U";
    assert l[4] == 'M';
  }

  /** A header written under `cfg`, rewritten by a worker whose settings are `w`: only the segment length changes. */
  lemma FallbackHeaderAgain(cfg: Settings, w: Settings, mediaSeq: int)
    ensures var h, r := FallbackHeader(cfg, mediaSeq), FallbackHeader(cfg.(segSecs := w.segSecs), mediaSeq);
            ResponseHeader(h, w) == r && !EndsInVersion(h)
  {
    hide KindOf, IntToString, StartLine, FallbackHeader, NonBlank, Reordered, LastOf, HasKind, Upgraded, Inserted;
    var c := cfg.(segSecs := w.segSecs);
    var h, r := FallbackHeader(cfg, mediaSeq), FallbackHeader(c, mediaSeq);
    FallbackHeaderOk(c, mediaSeq);
    FallbackUpgraded(cfg, w, mediaSeq);
    FallbackInsertStays(c, w, mediaSeq);
    FallbackReorderStays(cfg, mediaSeq);
    FallbackReorderStays(c, mediaSeq);
    FullHeaderIs(h, w);
    NonBlankId(r);
    ResponseHeaderIs(h, w);
  }

  lemma FallbackUpgraded(cfg: Settings, w: Settings, mediaSeq: int)
    ensures Upgraded(FallbackHeader(cfg, mediaSeq), w) == FallbackHeader(cfg.(segSecs := w.segSecs), mediaSeq)
  {
    hide KindOf, IntToString, StartLine;
    FallbackHeaderKinds(cfg, mediaSeq);
    SameStartLine(cfg, cfg.(segSecs := w.segSecs));
  }

  lemma SameStartLine(a: Settings, b: Settings)
    requires a.startOffset == b.startOffset
    ensures StartLine(a) == StartLine(b)
  {
    hide IntToString;
  }

  lemma FallbackInsertStays(cfg: Settings, w: Settings, mediaSeq: int)
    ensures Inserted(FallbackHeader(cfg, mediaSeq), w) == FallbackHeader(cfg, mediaSeq)
  {
    hide KindOf, IntToString, StartLine, FallbackHeader, LastOf;
    var h := FallbackHeader(cfg, mediaSeq);
    FallbackHeaderKinds(cfg, mediaSeq);
    HasKindIn(h, h[4], Independent);
    HasKindIn(h, h[5], Start);
    var m := LastOf(h, MediaSequence);
    if m >= 0 { assert h[..m + 1] + [] + h[m + 1..] == h; }
  }

  lemma FallbackReorderStays(cfg: Settings, mediaSeq: int)
    ensures Reordered(FallbackHeader(cfg, mediaSeq)) == FallbackHeader(cfg, mediaSeq)
    ensures !EndsInVersion(FallbackHeader(cfg, mediaSeq))
  {
    hide KindOf, IntToString, StartLine, LastOf, HasKind, Reordered;
    var h := FallbackHeader(cfg, mediaSeq);
    FallbackHeaderKinds(cfg, mediaSeq);
    assert h == h[..1] + [h[1], h[2]] + h[3..];
    ReorderedPair(h[..1], h[1], h[2], h[3..]);
  }

  /** The answers of supervisor and worker have the same form: what the supervisor writes under `cfg` while no
      break is set, a worker with settings `w` leaves as it is if and only if the two agree on the segment length
      and on the metadata text. */
  lemma WorkerKeepsFallbackIff(lines: seq<string>, firstMs: int, cfg: Settings, w: Settings, cal: Calendar, s: Range,
                               again: int)
    requires AacUris(lines) != [] && NoFeeds(lines) && Clean(cfg.payload) && CalendarOk(cal) && !HasLine(s)
    ensures var f := FallbackLines(lines, firstMs, cfg, cal, s);
            RewriteLines(f, w, cal, again, s) == f <==> w.segSecs == cfg.segSecs && w.payload == cfg.payload
  {
    hide Injected, NonBlank, SplitLines, JoinLines, AacUris, PrintedSeq, FallbackHeader, Entries, NoFeeds, Clean;
    hide StripCr;
    hide AllOk, AllBefore, HeaderOk, MediaLines, KindOf, RewriteLines, HasLine, CalendarOk, OutSegments, ResponseHeader;
    hide EndsInVersion, PlaylistOk;
    var uris := Stripped(AacUris(lines));
    var h, es := FallbackHeader(cfg, PrintedSeq(lines)), Entries(uris, firstMs, cfg, cal);
    FallbackIs(lines, firstMs, cfg, cal, s);
    StrippedAacUris(lines);
    EntriesOk(uris, firstMs, cfg, cal);
    FallbackHeaderOk(cfg, PrintedSeq(lines));
    EntriesPlaylist(h, es);
    FallbackHeaderAgain(cfg, w, PrintedSeq(lines));
    PlainResponse(h, es, w, cal, again, s);
    EntriesAgain(h, uris, firstMs, cfg, w, cal, again);
    SettingsShow(uris, firstMs, cfg, w, cal, PrintedSeq(lines), OutSegments(es, w, cal, again));
  }

  /** Without a break the answer is the generated playlist, as it was read back. */
  lemma FallbackIs(lines: seq<string>, firstMs: int, cfg: Settings, cal: Calendar, s: Range)
    requires AacUris(lines) != [] && NoFeeds(lines) && Clean(cfg.payload) && CalendarOk(cal) && !HasLine(s)
    ensures FallbackLines(lines, firstMs, cfg, cal, s) == ReadAgain(lines, firstMs, cfg, cal)
  {
    hide Injected, NonBlank, SplitLines, JoinLines, AacUris, PrintedSeq, FallbackHeader, Entries, NoFeeds, Clean;
    hide StripCr;
    hide AllOk, AllBefore, HeaderOk, MediaLines, KindOf, HasLine, CalendarOk;
    var g := ReadAgain(lines, firstMs, cfg, cal);
    var es := Entries(Stripped(AacUris(lines)), firstMs, cfg, cal);
    ReadBack(lines, firstMs, cfg, cal);
    NothingInjected(g, s, cal.parse);
    FallbackHeaderOk(cfg, PrintedSeq(lines));
    StrippedAacUris(lines);
    EntriesOk(Stripped(AacUris(lines)), firstMs, cfg, cal);
    MediaNonBlank(es);
    NonBlankId(g);
  }

  lemma EntriesPlaylist(h: seq<string>, es: seq<Segment>)
    requires HeaderOk(h) && AllOk(es) && AllBefore(es)
    ensures PlaylistOk(h, es)
  {
    hide SegmentOk, KindOf;
  }

  /** A worker with settings `w` keeps dates and URIs of the entries and puts its own EXTINF. */
  lemma EntriesAgain(h: seq<string>, uris: seq<string>, firstMs: int, cfg: Settings, w: Settings, cal: Calendar,
                     again: int)
    requires CalendarOk(cal) && PlaylistOk(h, Entries(uris, firstMs, cfg, cal))
    ensures var es := Entries(uris, firstMs, cfg, cal);
            var out := OutSegments(es, w, cal, again);
            forall i | 0 <= i < |es| :: out[i] == es[i].(inf := InfLine(w))
  {
    hide KindOf, OutSegments, DateLine, DateText, InfLine, PlaylistOk;
    var es := Entries(uris, firstMs, cfg, cal);
    var out := OutSegments(es, w, cal, again);
    forall i | 0 <= i < |es| ensures out[i] == es[i].(inf := InfLine(w)) {
      OutSegmentAt(h, es, w, cal, again, i);
      MadeLineKinds(cfg, cal.format(firstMs + i * StepMs(cfg)));
    }
  }

  /** Both settings can be read off the lines. */
  lemma SettingsShow(uris: seq<string>, firstMs: int, cfg: Settings, w: Settings, cal: Calendar, mediaSeq: int,
                     out: seq<Segment>)
    requires uris != [] && |out| == |uris|
    requires var es := Entries(uris, firstMs, cfg, cal); forall i | 0 <= i < |es| :: out[i] == es[i].(inf := InfLine(w))
    ensures var es := Entries(uris, firstMs, cfg, cal);
            FallbackHeader(cfg.(segSecs := w.segSecs), mediaSeq) + MediaLines(out) ==
              FallbackHeader(cfg, mediaSeq) + MediaLines(es) <==>
            w.segSecs == cfg.segSecs && w.payload == cfg.payload
  {
    hide InfLine, DateLine, StepMs, FallbackHeader, MediaLines;
    var es := Entries(uris, firstMs, cfg, cal);
    var h, r := FallbackHeader(cfg, mediaSeq), FallbackHeader(cfg.(segSecs := w.segSecs), mediaSeq);
    SameHeaderIff(cfg, w, mediaSeq);
    if w.segSecs == cfg.segSecs { SameInfLine(cfg, w); }
    if r + MediaLines(out) == h + MediaLines(es) {
      SameParts(r, MediaLines(out), h, MediaLines(es));
      FirstInf(out);
      FirstInf(es);
    }
    if w.segSecs == cfg.segSecs && w.payload == cfg.payload { assert out == es; }
  }

  lemma SameHeaderIff(cfg: Settings, w: Settings, mediaSeq: int)
    ensures var h, r := FallbackHeader(cfg, mediaSeq), FallbackHeader(cfg.(segSecs := w.segSecs), mediaSeq);
            |r| == |h| && (r == h <==> w.segSecs == cfg.segSecs)
  {
    hide IntToString, StartLine;
    var h, r := FallbackHeader(cfg, mediaSeq), FallbackHeader(cfg.(segSecs := w.segSecs), mediaSeq);
    SameNumber(w.segSecs, cfg.segSecs, TARGET);
    SameStartLine(cfg, cfg.(segSecs := w.segSecs));
    assert r[2] == TARGET + IntToString(w.segSecs) && h[2] == TARGET + IntToString(cfg.segSecs);
  }

  lemma SameParts(a: seq<string>, x: seq<string>, b: seq<string>, y: seq<string>)
    requires |a| == |b| && a + x == b + y
    ensures a == b && x == y
  {
    assert (a + x)[..|a|] == a && (b + y)[..|b|] == b;
    assert (a + x)[|a|..] == x && (b + y)[|b|..] == y;
  }

  lemma FirstInf(es: seq<Segment>)
    requires es != [] && es[0].place == Before
    ensures |MediaLines(es)| > 1 && MediaLines(es)[1] == es[0].inf
  {
    assert MediaLines(es) == [es[0].date, es[0].inf] + ([es[0].uri] + es[0].tags + MediaLines(es[1..]));
  }

  lemma SameNumber(a: int, b: int, tag: string)
    ensures tag + IntToString(a) == tag + IntToString(b) <==> a == b
  {
    hide IntToString, ParseInt;
    if tag + IntToString(a) == tag + IntToString(b) {
      assert (tag + IntToString(a))[|tag|..] == IntToString(a) && (tag + IntToString(b))[|tag|..] == IntToString(b);
      var lo, hi := if a < b then a else b, if a < b then b else a;
      ParseIntOfIntToString(a, lo, hi);
      ParseIntOfIntToString(b, lo, hi);
    }
  }

  lemma SameInfLine(a: Settings, b: Settings)
    requires a.segSecs == b.segSecs
    ensures InfLine(a) == InfLine(b) <==> a.payload == b.payload
  {
    hide IntToString;
    var n := EXTINF + (IntToString(a.segSecs) + ".000,");
    assert InfLine(a) == n + a.payload && InfLine(b) == n + b.payload;
    if InfLine(a) == InfLine(b) {
      assert (n + a.payload)[|n|..] == a.payload && (n + b.payload)[|n|..] == b.payload;
    }
  }

  // ---------- one anchor per encoder ----------

  datatype Mark = Mark(seqNo: int, epochMs: int)

  const RESET_BEHIND := 50

  ghost predicate MarkResets(m: Option<Mark>, first: int) { m.None? || first < m.value.seqNo - RESET_BEHIND }

  /** The mark after a request whose first segment is `first`; its time is that segment's date. */
  ghost function NextMark(m: Option<Mark>, first: int, segSecs: int, nowMs: int): Mark {
    if MarkResets(m, first) then Mark(first, nowMs - 500 * segSecs)
    else if first > m.value.seqNo then Mark(first, m.value.epochMs + (first - m.value.seqNo) * (1000 * segSecs))
    else m.value
  }

  ghost function MarkBase(m: Mark, segSecs: int): int { m.epochMs - m.seqNo * (1000 * segSecs) }

  /** Without a reset the date continues the encoder's mapping exactly when the first number has not gone back. */
  lemma MarkFollowsIff(m: Mark, first: int, segSecs: int, nowMs: int)
    requires segSecs > 0 && !MarkResets(Some(m), first)
    ensures var d := NextMark(Some(m), first, segSecs, nowMs);
            d.epochMs == MarkBase(m, segSecs) + first * (1000 * segSecs) <==> first >= m.seqNo
    ensures first >= m.seqNo ==>
              var d := NextMark(Some(m), first, segSecs, nowMs);
              d.seqNo == first && MarkBase(d, segSecs) == MarkBase(m, segSecs)
  {
    var step := 1000 * segSecs;
    assert (first - m.seqNo) * step == first * step - m.seqNo * step;
    if first < m.seqNo {
      assert (m.seqNo - first) * step > 0;
      assert (m.seqNo - first) * step == m.seqNo * step - first * step;
    }
  }

  /** The first answer, and one whose first number is more than fifty behind, is dated half a segment before the
      clock. */
  lemma MarkAfterReset(m: Option<Mark>, first: int, segSecs: int, nowMs: int)
    ensures MarkResets(m, first) <==> m.None? || m.value.seqNo - first > 50
    ensures MarkResets(m, first) ==>
              var d := NextMark(m, first, segSecs, nowMs);
              d.seqNo == first && 2 * d.epochMs == 2 * nowMs - 1000 * segSecs
  {
  }

  function Lookup<T>(m: map<int, T>, k: int): Option<T> { if k in m then Some(m[k]) else None }

  /** The two maps behind the lock: number and time of every encoder's anchor. */
  class FallbackClock {
    var seqBy: map<int, int>
    var epochBy: map<int, int>

    ghost function Value(): map<int, Mark>
      reads this
    {
      map e | e in seqBy && e in epochBy :: Mark(seqBy[e], epochBy[e])
    }

    constructor ()
      ensures Value() == map[]
    {
      seqBy, epochBy := map[], map[];
    }

    method Advance(encoder: int, first: int, segSecs: int, nowMs: int) returns (firstMs: int)
      modifies this
      ensures Value() == old(Value())[encoder := NextMark(Lookup(old(Value()), encoder), first, segSecs, nowMs)]
      ensures firstMs == Value()[encoder].epochMs
    {
      if encoder !in seqBy || encoder !in epochBy || first < seqBy[encoder] - RESET_BEHIND {
        seqBy := seqBy[encoder := first];
        epochBy := epochBy[encoder := nowMs - 500 * segSecs];
      } else if first > seqBy[encoder] {
        epochBy := epochBy[encoder := epochBy[encoder] + (first - seqBy[encoder]) * (1000 * segSecs)];
        seqBy := seqBy[encoder := first];
      }
      firstMs := epochBy[encoder];
    }
  }

  /** A missing or non-positive segment length counts as six seconds. */
  function Effective(cfg: Settings): (r: Settings)
    ensures r.segSecs > 0 && (cfg.segSecs > 0 ==> r == cfg) && (cfg.segSecs <= 0 ==> r == cfg.(segSecs := 6))
  {
    if cfg.segSecs <= 0 then cfg.(segSecs := 6) else cfg
  }

  method ServeFallback(clock: FallbackClock, encoder: int, data: string, hls: Settings, cal: Calendar, s: Range,
                       nowMs: int) returns (out: string)
    modifies clock
    ensures var lines, cfg := SplitLines(data), Effective(hls);
            if AacUris(lines) == [] then out == data && clock.Value() == old(clock.Value())
            else
              var mark := NextMark(Lookup(old(clock.Value()), encoder), FirstSeq(lines), cfg.segSecs, nowMs);
              clock.Value() == old(clock.Value())[encoder := mark] &&
              out == JoinLines(FallbackLines(lines, mark.epochMs, cfg, cal, s))
  {
    hide SplitLines, JoinLines, AacUris, MediaSeqOf, SegmentNumber, FallbackHeader, MediaLines, Entries, NextMark;
    hide Injected, NonBlank;
    var cfg := Effective(hls);
    var lines := ReadLines(data);
    var mediaSeq, uris, numbers := ReadListing(lines);
    if uris == [] { return data; }
    if mediaSeq < 0 { mediaSeq := if numbers[0] >= 0 then numbers[0] else 0; }
    var first := if numbers[0] >= 0 then numbers[0] else mediaSeq;
    var firstMs := clock.Advance(encoder, first, cfg.segSecs, nowMs);
    var text := WritePlaylist(uris, mediaSeq, firstMs, cfg, cal);
    var rebuilt := ReadLines(text);
    rebuilt := InjectDateRange(rebuilt, s, cal.parse);
    out := WriteLines(rebuilt);
  }

  // ---------- runs over many encoders ----------

  /** A request for some encoder's playlist. */
  datatype Visit = Visit(encoder: int, lines: seq<string>, segSecs: int, nowMs: int)

  ghost predicate Of(v: Visit, encoder: int) { v.encoder == encoder && AacUris(v.lines) != [] }

  ghost function AfterVisit(marks: map<int, Mark>, v: Visit): map<int, Mark> {
    if AacUris(v.lines) == [] then marks
    else marks[v.encoder := NextMark(Lookup(marks, v.encoder), FirstSeq(v.lines), v.segSecs, v.nowMs)]
  }

  ghost predicate IsMarkRun(marks: seq<map<int, Mark>>, vs: seq<Visit>) {
    |marks| == |vs| + 1 && marks[0] == map[] && forall i | 0 <= i < |vs| :: marks[i + 1] == AfterVisit(marks[i], vs[i])
  }

  /** The requests for one encoder: a fixed segment length, and a first number that never goes back. Nothing is
      asked of the other encoders' requests. */
  ghost predicate Steady(vs: seq<Visit>, encoder: int, segSecs: int) {
    (forall i | 0 <= i < |vs| && Of(vs[i], encoder) :: vs[i].segSecs == segSecs) &&
    (forall i, j | 0 <= i < j < |vs| && Of(vs[i], encoder) && Of(vs[j], encoder) ::
       FirstSeq(vs[i].lines) <= FirstSeq(vs[j].lines))
  }

  /** The mark is at the first number of the encoder's last request. */
  lemma {:induction false} MarkIsFromVisit(marks: seq<map<int, Mark>>, vs: seq<Visit>, encoder: int, segSecs: int,
                                           i: nat)
    requires IsMarkRun(marks, vs) && Steady(vs, encoder, segSecs) && i <= |vs| && segSecs > 0
    ensures encoder in marks[i] ==>
              exists t | 0 <= t < i :: Of(vs[t], encoder) && FirstSeq(vs[t].lines) == marks[i][encoder].seqNo
  {
    hide AacUris, FirstSeq;
    if i > 0 {
      var v := vs[i - 1];
      MarkIsFromVisit(marks, vs, encoder, segSecs, i - 1);
      if Of(v, encoder) {
        if encoder in marks[i - 1] && !MarkResets(Some(marks[i - 1][encoder]), FirstSeq(v.lines)) {
          MarkFollowsIff(marks[i - 1][encoder], FirstSeq(v.lines), v.segSecs, v.nowMs);
        }
        assert Of(vs[i - 1], encoder) && FirstSeq(vs[i - 1].lines) == marks[i][encoder].seqNo;
      }
    }
  }

  /** From the encoder's first request on, its mapping from numbers to dates stays the same. */
  lemma {:induction false} MarkKeepsBase(marks: seq<map<int, Mark>>, vs: seq<Visit>, encoder: int, segSecs: int,
                                         i: nat, j: nat)
    requires IsMarkRun(marks, vs) && Steady(vs, encoder, segSecs) && segSecs > 0
    requires i <= j <= |vs| && encoder in marks[i]
    ensures encoder in marks[j] && MarkBase(marks[j][encoder], segSecs) == MarkBase(marks[i][encoder], segSecs)
    decreases j
  {
    hide AacUris, FirstSeq, MarkBase;
    if i < j {
      MarkKeepsBase(marks, vs, encoder, segSecs, i, j - 1);
      var v := vs[j - 1];
      if Of(v, encoder) {
        MarkIsFromVisit(marks, vs, encoder, segSecs, j - 1);
        MarkFollowsIff(marks[j - 1][encoder], FirstSeq(v.lines), segSecs, v.nowMs);
      }
    }
  }

  lemma MarkAtVisit(marks: seq<map<int, Mark>>, vs: seq<Visit>, encoder: int, segSecs: int, i: nat)
    requires IsMarkRun(marks, vs) && Steady(vs, encoder, segSecs) && segSecs > 0
    requires i < |vs| && Of(vs[i], encoder)
    ensures encoder in marks[i + 1]
    ensures var m := marks[i + 1][encoder];
            m.epochMs == MarkBase(m, segSecs) + FirstSeq(vs[i].lines) * (1000 * segSecs)
  {
    hide AacUris, FirstSeq;
    MarkIsFromVisit(marks, vs, encoder, segSecs, i);
    if encoder in marks[i] {
      MarkFollowsIff(marks[i][encoder], FirstSeq(vs[i].lines), segSecs, vs[i].nowMs);
    }
  }

  ghost predicate Consecutive(lines: seq<string>) {
    var uris := AacUris(lines);
    forall k | 0 <= k < |uris| :: SegmentNumber(uris[k]) == SegmentNumber(uris[0]) + k >= 0
  }

  /** The date of the `k`-th segment of an answer. */
  ghost function DateOf(marks: seq<map<int, Mark>>, vs: seq<Visit>, i: nat, k: nat): int
    requires i < |vs| && |marks| == |vs| + 1 && vs[i].encoder in marks[i + 1]
  {
    marks[i + 1][vs[i].encoder].epochMs + k * (1000 * vs[i].segSecs)
  }

  /** Whatever is asked of other encoders in between, a segment number of an encoder has one date in all the
      supervisor's answers. */
  lemma SameNumberSameFallbackDate(marks: seq<map<int, Mark>>, vs: seq<Visit>, encoder: int, segSecs: int,
                                   i: nat, k: nat, j: nat, l: nat)
    requires IsMarkRun(marks, vs) && Steady(vs, encoder, segSecs) && segSecs > 0
    requires i < |vs| && Of(vs[i], encoder) && Consecutive(vs[i].lines) && k < |AacUris(vs[i].lines)|
    requires j < |vs| && Of(vs[j], encoder) && Consecutive(vs[j].lines) && l < |AacUris(vs[j].lines)|
    requires SegmentNumber(AacUris(vs[i].lines)[k]) == SegmentNumber(AacUris(vs[j].lines)[l])
    ensures encoder in marks[i + 1] && encoder in marks[j + 1] && DateOf(marks, vs, i, k) == DateOf(marks, vs, j, l)
  {
    hide AacUris, SegmentNumber, MarkBase;
    MarkAtVisit(marks, vs, encoder, segSecs, i);
    MarkAtVisit(marks, vs, encoder, segSecs, j);
    if i <= j {
      MarkKeepsBase(marks, vs, encoder, segSecs, i + 1, j + 1);
    } else {
      MarkKeepsBase(marks, vs, encoder, segSecs, j + 1, i + 1);
    }
    var step, a, b := 1000 * segSecs, FirstSeq(vs[i].lines), FirstSeq(vs[j].lines);
    assert a * step + k * step == (a + k) * step;
    assert b * step + l * step == (b + l) * step;
  }
}
