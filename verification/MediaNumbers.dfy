/** The numbers that a client reads in the responses: version, target duration, EXTINF, offset and media sequence. */
module MediaNumbers {
  import opened Text
  import opened PlaylistLines
  import opened BreakState
  import opened DateRange
  import opened DateRangeClient
  import opened Playlist
  import opened PlaylistMedia
  import opened PlaylistShape
  import opened PlaylistText
  import opened SegmentNames
  import opened Fallback
  import opened ServedText

  // ---------- a number behind a tag ----------

  lemma TagReads(tag: string, n: int)
    requires INT32_MIN <= n <= INT32_MAX
    ensures Stoi((tag + IntToString(n))[|tag|..]) == Some(n)
  {
    hide IntToString, ParseInt;
    ParseIntOfIntToString(n, INT32_MIN, INT32_MAX);
    assert (tag + IntToString(n))[|tag|..] == IntToString(n);
  }

  // ---------- the duration and the title of EXTINF ----------

  function UpToComma(s: string): string { if s == "" || s[0] == ',' then "" else [s[0]] + UpToComma(s[1..]) }

  lemma {:induction false} UpToCommaOf(a: string, b: string)
    requires ',' !in a
    ensures UpToComma(a + "," + b) == a
  {
    if a == "" {
      assert a + "," + b == "," + b;
    } else {
      assert (a + "," + b)[1..] == a[1..] + "," + b && a == [a[0]] + a[1..];
      UpToCommaOf(a[1..], b);
    }
  }

  /** Seconds with three decimals up to the first comma, and the title behind it (RFC 8216, section 4.3.2.1). */
  function DurationMs(l: string): int { if StartsWith(l, EXTINF) then Millis(UpToComma(l[|EXTINF|..])) else -1 }

  function TitleOf(l: string): string {
    if StartsWith(l, EXTINF) && |UpToComma(l[|EXTINF|..])| < |l[|EXTINF|..]| then
      l[|EXTINF|..][|UpToComma(l[|EXTINF|..])| + 1..]
    else ""
  }

  /** The EXTINF of a response reads as the segment length and the metadata text. */
  lemma InfReads(cfg: Settings)
    requires cfg.segSecs >= 0
    ensures DurationMs(InfLine(cfg)) == 1000 * cfg.segSecs && TitleOf(InfLine(cfg)) == cfg.payload
  {
    hide IntToString, Millis, UpToComma;
    var n := IntToString(cfg.segSecs) + ".000";
    var body := InfLine(cfg)[|EXTINF|..];
    assert body == n + "," + cfg.payload;
    NoCommaIn(cfg.segSecs);
    UpToCommaOf(n, cfg.payload);
    WholeSeconds(cfg.segSecs);
    assert (n + "," + cfg.payload)[|n| + 1..] == cfg.payload;
  }

  lemma NoCommaIn(n: nat)
    ensures ',' !in IntToString(n) + ".000"
  {
    hide Digits;
    assert forall c | c in IntToString(n) :: IsDigit(c) || c == '-';
  }

  lemma WholeSeconds(n: nat)
    ensures Millis(IntToString(n) + ".000") == 1000 * n
  {
    hide IntToString, Millis;
    MillisOfSeconds(1000 * n);
    assert 1000 * n / 1000 == n && 1000 * n % 1000 == 0;
    assert [DigitChar(0), DigitChar(0), DigitChar(0)] == "000";
    assert Seconds(1000 * n) == IntToString(n) + "." + "000";
    assert IntToString(n) + "." + "000" == IntToString(n) + ".000";
  }

  // ---------- the offset ----------

  function StartAttrs(cfg: Settings): seq<AttributeList.Attr> {
    [AttributeList.Attr("TIME-OFFSET", AttributeList.Bare(IntToString(cfg.startOffset))),
     AttributeList.Attr("PRECISE", AttributeList.Bare("YES"))]
  }

  /** EXT-X-START reads as the offset and PRECISE (RFC 8216, section 4.3.5.2). */
  lemma StartReads(cfg: Settings)
    ensures StartsWith(StartLine(cfg), START)
    ensures AttributeList.ReadAttrs(StartLine(cfg)[|START|..], AttributeList.Standard) == StartAttrs(cfg)
    ensures INT32_MIN <= cfg.startOffset <= INT32_MAX ==> Stoi(StartAttrs(cfg)[0].value.text) == Some(cfg.startOffset)
  {
    hide IntToString, ParseInt, AttributeList.ReadAttrs;
    var a := StartAttrs(cfg);
    if INT32_MIN <= cfg.startOffset <= INT32_MAX { ParseIntOfIntToString(cfg.startOffset, INT32_MIN, INT32_MAX); }
    StartPrintable(cfg);
    AttributeList.ReadsBackIff(a, AttributeList.Standard);
    assert a[1..] == [a[1]];
    assert AttributeList.AttrsText(a) == StartLine(cfg)[|START|..];
  }

  lemma StartPrintable(cfg: Settings)
    ensures AttributeList.AllPrintable(StartAttrs(cfg))
  {
    hide Digits;
    assert forall c | c in IntToString(cfg.startOffset) :: IsDigit(c) || c == '-';
  }

  // ---------- every line of the worker's response ----------

  lemma {:induction false} SwappedInfs(lines: seq<string>, cfg: Settings)
    ensures forall l | l in Swapped(lines, cfg) && KindOf(l) == Inf :: l == InfLine(cfg)
    decreases |lines|
  {
    hide KindOf, InfLine;
    if lines != [] {
      SwappedInfs(lines[1..], cfg);
      if |lines| > 1 { SwappedInfs(lines[2..], cfg); }
    }
  }

  lemma ResponseMember(lines: seq<string>, cfg: Settings, cal: Calendar, firstMs: int, s: Range, l: string)
    requires l in RewriteLines(lines, cfg, cal, firstMs, s) && KindOf(l) != Kind.DateRange
    ensures l in Arranged(lines, cfg, cal, firstMs)
  {
    hide KindOf, Arranged, DateRangeLine, TimesOf, InsertIndex, NonBlank, HasLine;
    var a := Arranged(lines, cfg, cal, firstMs);
    NonBlankMember(Injected(a, s, cal.parse));
    if HasLine(s) { DateRangeLineKind(s); }
  }

  /** For every line vector: every VERSION of the response says 6, every TARGETDURATION the segment length, every EXTINF
      the same length, so that none exceeds the target duration (RFC 8216, section 4.3.3.1), and the metadata text; and
      EXT-X-ALLOW-CACHE:YES is gone. */
  lemma ResponseLinesOk(lines: seq<string>, cfg: Settings, cal: Calendar, firstMs: int, s: Range, l: string)
    requires l in RewriteLines(lines, cfg, cal, firstMs, s) && cfg.segSecs >= 0
    ensures KindOf(l) == Version ==> StartsWith(l, VERSION) && Stoi(l[|VERSION|..]) == Some(6)
    ensures KindOf(l) == Target && cfg.segSecs <= INT32_MAX ==>
              StartsWith(l, TARGET) && Stoi(l[|TARGET|..]) == Some(cfg.segSecs)
    ensures KindOf(l) == Inf ==> DurationMs(l) == 1000 * cfg.segSecs && TitleOf(l) == cfg.payload
    ensures KindOf(l) != CacheYes
  {
    hide KindOf, Arranged, RewriteLines, IntToString, ParseInt, InfLine, DateLine, StartLine, DurationMs, TitleOf;
    hide Comes;
    KindIff(l);
    if KindOf(l) != Kind.DateRange {
      ResponseMember(lines, cfg, cal, firstMs, s, l);
      ArrangedMembers(lines, cfg, cal, firstMs);
      LineComes(l, lines, cfg, cal);
      InfReads(cfg);
      if KindOf(l) == Inf { InfComes(lines, cfg, cal, firstMs, l); }
    }
  }

  lemma InfComes(lines: seq<string>, cfg: Settings, cal: Calendar, firstMs: int, l: string)
    requires l in Arranged(lines, cfg, cal, firstMs) && KindOf(l) == Inf
    ensures l == InfLine(cfg)
  {
    hide KindOf, InfLine, Swapped, Prepared, Stamped, Reordered, HasKind;
    var p := Prepared(lines, cfg, cal);
    var d := if HasKind(p, Date) then p else Stamped(p, firstMs, cfg, cal);
    SwappedInfs(d, cfg);
    ReorderedMembers(Swapped(d, cfg));
  }

  lemma LineComes(l: string, lines: seq<string>, cfg: Settings, cal: Calendar)
    requires Comes(l, lines, cfg, cal)
    ensures KindOf(l) == Version ==> l == VERSION + "6" && Stoi(l[|VERSION|..]) == Some(6)
    ensures KindOf(l) == Target ==> l == TARGET + IntToString(cfg.segSecs)
    ensures KindOf(l) == Target && 0 <= cfg.segSecs <= INT32_MAX ==> Stoi(l[|TARGET|..]) == Some(cfg.segSecs)
    ensures KindOf(l) != CacheYes
  {
    hide KindOf, IntToString, ParseInt, InfLine, DateLine, StartLine, NormalizeLine;
    MadeLineKinds(cfg, "");
    SixReads();
    if 0 <= cfg.segSecs <= INT32_MAX { TagReads(TARGET, cfg.segSecs); }
    if o :| o in lines && l == NormalizeLine(UpgradeLine(o, cfg), cal) {
      NormalizeLineKind(UpgradeLine(o, cfg), cal);
      UpgradeLineKind(o, cfg);
    } else if ms :| l == DateLine(cal.format(ms)) {
      MadeLineKinds(cfg, cal.format(ms));
    }
  }

  lemma SixReads()
    ensures Stoi((VERSION + "6")[|VERSION|..]) == Some(6)
  {
    hide ParseInt;
    TagReads(VERSION, 6);
    assert IntToString(6) == "6";
  }

  /** A file with a MEDIA-SEQUENCE gets the two tags that may be missing. */
  lemma TagsArePresent(lines: seq<string>, cfg: Settings, cal: Calendar, firstMs: int, s: Range)
    requires HasKind(lines, MediaSequence)
    ensures HasKind(RewriteLines(lines, cfg, cal, firstMs, s), Independent)
    ensures HasKind(RewriteLines(lines, cfg, cal, firstMs, s), Start)
  {
    hide KindOf, HasKind, RewriteLines;
    InsertedTags(lines, cfg);
    TagStays(lines, cfg, cal, firstMs, s, Independent);
    TagStays(lines, cfg, cal, firstMs, s, Start);
  }

  lemma KindIsThere(lines: seq<string>, k: Kind)
    ensures HasKind(lines, k) <==> OfKind(lines, k) != []
  {
    hide KindOf, OfKind, LastOf;
    LastOfKind(lines, k);
    assert LastOf(lines, k) >= 0 <==> HasKind(lines, k);
  }

  lemma TagStays(lines: seq<string>, cfg: Settings, cal: Calendar, firstMs: int, s: Range, k: Kind)
    requires HasKind(Inserted(Upgraded(lines, cfg), cfg), k) && (k == Independent || k == Start)
    ensures HasKind(RewriteLines(lines, cfg, cal, firstMs, s), k)
  {
    hide KindOf, OfKind, HasKind, Upgraded, Inserted, Normalized, Stamped, Swapped, Reordered, Injected, NonBlank;
    var f, p := Inserted(Upgraded(lines, cfg), cfg), Prepared(lines, cfg, cal);
    var d := if HasKind(p, Date) then p else Stamped(p, firstMs, cfg, cal);
    var a := Arranged(lines, cfg, cal, firstMs);
    OfKindNormalized(f, cal, k);
    OfKindStamped(p, firstMs, cfg, cal, k);
    OfKindSwapped(d, cfg, k);
    OfKindReordered(Swapped(d, cfg), k);
    OfKindInjected(a, s, cal.parse, k);
    OfKindNonBlank(Injected(a, s, cal.parse), k);
    KindIsThere(f, k);
    KindIsThere(RewriteLines(lines, cfg, cal, firstMs, s), k);
  }

  lemma InsertedTags(lines: seq<string>, cfg: Settings)
    requires HasKind(lines, MediaSequence)
    ensures HasKind(Inserted(Upgraded(lines, cfg), cfg), Independent)
    ensures HasKind(Inserted(Upgraded(lines, cfg), cfg), Start)
  {
    hide KindOf, UpgradeLine, StartLine, LastOf, HasKind, OfKind;
    var u := Upgraded(lines, cfg);
    KindIsThere(lines, MediaSequence);
    OfKindUpgraded(lines, cfg, MediaSequence);
    KindIsThere(u, MediaSequence);
    MadeLineKinds(cfg, "");
    var m := LastOf(u, MediaSequence);
    var ins := MissingTags(u, cfg);
    InsertedHas(u, m + 1, ins, Independent, INDEPENDENT);
    InsertedHas(u, m + 1, ins, Start, StartLine(cfg));
  }

  lemma InsertedHas(u: seq<string>, at: nat, ins: seq<string>, k: Kind, l: string)
    requires at <= |u| && KindOf(l) == k && (HasKind(u, k) || l in ins)
    ensures HasKind(u[..at] + ins + u[at..], k)
  {
    hide KindOf, OfKind, HasKind;
    var r := u[..at] + ins + u[at..];
    KindIsThere(u, k);
    KindIsThere(r, k);
    OfKindMember(u, k);
    OfKindMember(r, k);
    assert u == u[..at] + u[at..];
    if HasKind(u, k) { assert OfKind(u, k)[0] in u && OfKind(u, k)[0] in r; } else { assert l in r; }
  }

  // ---------- the media sequence ----------

  /** What is read of a playlist is the number of its last MEDIA-SEQUENCE. */
  lemma MediaSeqReads(a: seq<string>, sp: string, z: nat, n: nat, rest: string, b: seq<string>)
    requires All(sp, IsSpace) && (rest != "" ==> !IsDigit(rest[0])) && !HasKind(b, MediaSequence)
    ensures var l := MEDIA_SEQUENCE + (sp + ("" + (Zeros(z) + Digits(n) + rest)));
            MediaSeqOf(a + [l] + b) == if n <= INT32_MAX then n else -1
  {
    hide KindOf, ParseInt, LastOf, Digits, Zeros, OfKind, HasKind;
    var text := sp + ("" + (Zeros(z) + Digits(n) + rest));
    var l := MEDIA_SEQUENCE + text;
    KindIff(l);
    ParseIntReads(sp, "", z, n, rest, INT32_MIN, INT32_MAX);
    assert l[|MEDIA_SEQUENCE|..] == text;
    LastOfKind(a + [l] + b, MediaSequence);
    OfKindConcat(a + [l], b, MediaSequence);
    OfKindConcat(a, [l], MediaSequence);
    OfKindOne(l, MediaSequence);
    KindIsThere(b, MediaSequence);
    LastIs(OfKind(a, MediaSequence), l);
  }

  lemma LastIs(a: seq<string>, l: string)
    ensures var s := a + [l] + []; s != [] && s[|s| - 1] == l
  {
  }

  lemma SameMediaSeq(a: seq<string>, b: seq<string>)
    requires OfKind(a, MediaSequence) == OfKind(b, MediaSequence)
    ensures MediaSeqOf(a) == MediaSeqOf(b)
  {
    hide KindOf, LastOf, OfKind, SeqNumber;
    SameLast(a, b, MediaSequence);
  }

  /** The worker's response has the media sequence of the file. */
  lemma WorkerKeepsSequence(lines: seq<string>, cfg: Settings, cal: Calendar, firstMs: int, s: Range)
    ensures MediaSeqOf(RewriteLines(lines, cfg, cal, firstMs, s)) == MediaSeqOf(lines)
  {
    hide OfKind, RewriteLines, MediaSeqOf;
    RewriteKeeps(lines, cfg, cal, firstMs, s, MediaSequence);
    SameMediaSeq(RewriteLines(lines, cfg, cal, firstMs, s), lines);
  }

  /** The supervisor's answer has the media sequence of the listing; without a readable one, the number of the first
      segment, or 0 when that has none. The dates count from the first segment's own number, or else from that one. */
  lemma AnswerSequence(lines: seq<string>, firstMs: int, cfg: Settings, cal: Calendar, s: Range)
    requires AacUris(lines) != [] && NoFeeds(lines) && Clean(cfg.payload) && CalendarOk(cal)
    ensures var first := SegmentNumber(AacUris(lines)[0]);
            MediaSeqOf(FallbackLines(lines, firstMs, cfg, cal, s)) ==
              if MediaSeqOf(lines) >= 0 then MediaSeqOf(lines) else if first >= 0 then first else 0
    ensures FirstSeq(lines) ==
            if SegmentNumber(AacUris(lines)[0]) >= 0 then SegmentNumber(AacUris(lines)[0])
            else MediaSeqOf(FallbackLines(lines, firstMs, cfg, cal, s))
  {
    hide KindOf, OfKind, LastOf, Injected, NonBlank, SplitLines, JoinLines, AacUris, SegmentNumber, NoFeeds, Clean;
    hide CalendarOk, MediaLines, FallbackHeader, SeqNumber, StripCr, Entries, Stripped, AllOk;
    var uris := Stripped(AacUris(lines));
    var h, es := FallbackHeader(cfg, PrintedSeq(lines)), Entries(uris, firstMs, cfg, cal);
    var out := FallbackLines(lines, firstMs, cfg, cal, s);
    ReadBack(lines, firstMs, cfg, cal);
    StrippedAacUris(lines);
    EntriesOk(uris, firstMs, cfg, cal);
    OfKindInjected(h + MediaLines(es), s, cal.parse, MediaSequence);
    OfKindNonBlank(Injected(h + MediaLines(es), s, cal.parse), MediaSequence);
    OfKindConcat(h, MediaLines(es), MediaSequence);
    MediaKinds(es);
    OfKindNone(MediaLines(es), MediaSequence);
    HeaderSequence(cfg, PrintedSeq(lines));
    OneMediaSeq(out, MEDIA_SEQUENCE + IntToString(PrintedSeq(lines)));
    PrintedInRange(lines);
    SeqReads(PrintedSeq(lines));
  }

  lemma HeaderSequence(cfg: Settings, n: int)
    ensures OfKind(FallbackHeader(cfg, n), MediaSequence) == [MEDIA_SEQUENCE + IntToString(n)]
  {
    hide KindOf, OfKind, IntToString, StartLine;
    var h := FallbackHeader(cfg, n);
    FallbackHeaderKinds(cfg, n);
    assert h == h[..3] + [h[3]] + h[4..];
    OfKindConcat(h[..3] + [h[3]], h[4..], MediaSequence);
    OfKindConcat(h[..3], [h[3]], MediaSequence);
    OfKindNone(h[..3], MediaSequence);
    OfKindNone(h[4..], MediaSequence);
    OfKindOne(h[3], MediaSequence);
  }

  lemma OneMediaSeq(lines: seq<string>, l: string)
    requires OfKind(lines, MediaSequence) == [l]
    ensures MediaSeqOf(lines) == SeqNumber(l)
  {
    hide KindOf, OfKind, LastOf, SeqNumber;
    LastOfKind(lines, MediaSequence);
  }

  lemma SeqReads(n: int)
    requires INT32_MIN <= n <= INT32_MAX
    ensures SeqNumber(MEDIA_SEQUENCE + IntToString(n)) == n
  {
    hide IntToString, ParseInt;
    TagReads(MEDIA_SEQUENCE, n);
  }

  lemma PrintedInRange(lines: seq<string>)
    requires AacUris(lines) != []
    ensures 0 <= PrintedSeq(lines) <= INT32_MAX
  {
    hide AacUris, FindLast, LastOf, DigitRun, TrimLeft, DigitsValue;
  }

  /** Where the names are numbered one after the other, from the listing's number on if it has one, the answer counts
      them as RFC 8216, section 6.2.2, asks: the k-th segment's own number is the media sequence plus k. */
  lemma SequenceCountsSegments(lines: seq<string>, firstMs: int, cfg: Settings, cal: Calendar, s: Range, k: nat)
    requires AacUris(lines) != [] && NoFeeds(lines) && Clean(cfg.payload) && CalendarOk(cal)
    requires Consecutive(lines) && k < |AacUris(lines)|
    requires MediaSeqOf(lines) < 0 || MediaSeqOf(lines) == SegmentNumber(AacUris(lines)[0])
    ensures MediaSeqOf(FallbackLines(lines, firstMs, cfg, cal, s)) + k == SegmentNumber(AacUris(lines)[k])
  {
    hide AacUris, SegmentNumber, MediaSeqOf, FallbackLines, NoFeeds, Clean, CalendarOk;
    AnswerSequence(lines, firstMs, cfg, cal, s);
  }

  /** What counts as a segment of the listing: any line but a tag that holds ".aac". */
  lemma IsAacIff(l: string)
    ensures IsAac(l) <==> l != "" && l[0] != '#' && Occurs(l, ".aac")
  {
    hide KindOf, FindLast;
    KindIff(l);
    if |l| >= 4 { FindLastIff(l, ".aac", |l| - 4, 0); }
  }

  // ---------- the missing tags, and the entries of the answer ----------

  /** Missing tags come right behind the last MEDIA-SEQUENCE; without them the lines are the old ones. */
  lemma InsertedPlace(lines: seq<string>, cfg: Settings) returns (a: seq<string>, ins: seq<string>, b: seq<string>)
    ensures lines == a + b && Inserted(lines, cfg) == a + ins + b
    ensures ins != [] ==> a != [] && KindOf(a[|a| - 1]) == MediaSequence && !HasKind(b, MediaSequence)
    ensures forall l | l in ins :: (l == INDEPENDENT && !HasKind(lines, Independent)) ||
                                   (l == StartLine(cfg) && !HasKind(lines, Start))
    ensures |ins| <= 2
  {
    hide KindOf, StartLine;
    var m := LastOf(lines, MediaSequence);
    if m < 0 {
      a, ins, b := lines, [], [];
    } else {
      a, ins, b := lines[..m + 1], MissingTags(lines, cfg), lines[m + 1..];
    }
    assert lines == a + b && Inserted(lines, cfg) == a + ins + b;
  }

  /** The k-th entry of the answer: its own URI, the segment length and metadata text, and a date one segment length
      later than the entry before. */
  lemma AnswerEntry(uris: seq<string>, firstMs: int, cfg: Settings, cal: Calendar, k: nat)
    requires k < |uris| && cfg.segSecs >= 0
    ensures var e := Entries(uris, firstMs, cfg, cal)[k];
            e.uri == uris[k] && IsPlain(e) && KindOf(e.date) == Date &&
            DateText(e.date) == cal.format(firstMs + k * (1000 * cfg.segSecs)) &&
            DurationMs(e.inf) == 1000 * cfg.segSecs && TitleOf(e.inf) == cfg.payload
  {
    hide KindOf, InfLine, DurationMs, TitleOf, DateLine, DateText;
    InfReads(cfg);
    MadeLineKinds(cfg, cal.format(firstMs + k * (1000 * cfg.segSecs)));
  }

  /** Over every interleaving, two answers that show the same segment number of an encoder date it alike: the date lines
      themselves are the same. */
  lemma SameNumberSameLine(marks: seq<map<int, Mark>>, vs: seq<Visit>, encoder: int, segSecs: int, cal: Calendar,
                           i: nat, k: nat, j: nat, l: nat, a: Settings, b: Settings)
    requires IsMarkRun(marks, vs) && Steady(vs, encoder, segSecs) && segSecs > 0
    requires i < |vs| && Of(vs[i], encoder) && Consecutive(vs[i].lines) && k < |AacUris(vs[i].lines)|
    requires j < |vs| && Of(vs[j], encoder) && Consecutive(vs[j].lines) && l < |AacUris(vs[j].lines)|
    requires SegmentNumber(AacUris(vs[i].lines)[k]) == SegmentNumber(AacUris(vs[j].lines)[l])
    requires a.segSecs == segSecs == b.segSecs
    ensures |marks| == |vs| + 1 && encoder in marks[i + 1] && encoder in marks[j + 1]
    ensures Entries(AacUris(vs[i].lines), marks[i + 1][encoder].epochMs, a, cal)[k].date
         == Entries(AacUris(vs[j].lines), marks[j + 1][encoder].epochMs, b, cal)[l].date
  {
    hide AacUris, SegmentNumber, InfLine, DateLine, FirstSeq, IsMarkRun, Steady, Consecutive;
    MarkCount(marks, vs);
    MarkAtVisit(marks, vs, encoder, segSecs, i);
    MarkAtVisit(marks, vs, encoder, segSecs, j);
    SameNumberSameFallbackDate(marks, vs, encoder, segSecs, i, k, j, l);
    SteadyLength(vs, encoder, segSecs, i);
    SteadyLength(vs, encoder, segSecs, j);
  }

  lemma MarkCount(marks: seq<map<int, Mark>>, vs: seq<Visit>)
    requires IsMarkRun(marks, vs)
    ensures |marks| == |vs| + 1
  {
  }

  lemma SteadyLength(vs: seq<Visit>, encoder: int, segSecs: int, i: nat)
    requires Steady(vs, encoder, segSecs) && i < |vs| && Of(vs[i], encoder)
    ensures vs[i].segSecs == segSecs && vs[i].encoder == encoder
  {
  }
}
