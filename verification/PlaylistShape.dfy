/** The exact result of the rewrite on a playlist made of a header and media segments. */
module PlaylistShape {
  import opened Text
  import opened PlaylistLines
  import opened Playlist

  /** Where a segment carries its date: not at all, before EXTINF (as RFC 8216 players expect), or between
      EXTINF and the URI (as FFmpeg writes it). */
  datatype Place = NoDate | Before | After

  /** A segment, with the tags that stand between its URI and the next segment. */
  datatype Segment = Segment(inf: string, date: string, place: Place, uri: string, tags: seq<string>)

  /** Tags the rewrite knows nothing of, such as EXT-X-DISCONTINUITY or a closing EXT-X-ENDLIST. */
  predicate IsOtherKind(k: Kind) { k == Other || k == Kind.DateRange }

  ghost predicate SegmentOk(e: Segment) {
    KindOf(e.inf) == Inf && KindOf(e.uri) == Uri && (e.place != NoDate ==> KindOf(e.date) == Date) &&
    forall l | l in e.tags :: IsOtherKind(KindOf(l))
  }

  ghost predicate AllOk(es: seq<Segment>) { forall e | e in es :: SegmentOk(e) }

  function EntryLines(e: Segment): seq<string> {
    match e.place
    case NoDate => [e.inf, e.uri]
    case Before => [e.date, e.inf, e.uri]
    case After => [e.inf, e.date, e.uri]
  }

  function SegmentLines(e: Segment): seq<string> { EntryLines(e) + e.tags }

  function MediaLines(es: seq<Segment>): seq<string> {
    if es == [] then [] else SegmentLines(es[0]) + MediaLines(es[1..])
  }

  ghost predicate AllDated(es: seq<Segment>) { forall e | e in es :: e.place != NoDate }
  ghost predicate NoneDated(es: seq<Segment>) { forall e | e in es :: e.place == NoDate }

  predicate IsMediaKind(k: Kind) { k == Inf || k == Date || k == Uri }

  predicate IsSegmentKind(k: Kind) { IsMediaKind(k) || IsOtherKind(k) }

  /** Header lines: no EXTINF, no date, no URI. */
  ghost predicate HeaderOk(h: seq<string>) { forall l | l in h :: !IsMediaKind(KindOf(l)) }

  // ---------- the media lines through each step ----------

  lemma {:induction false} MediaKinds(es: seq<Segment>)
    requires AllOk(es)
    ensures forall l | l in MediaLines(es) :: IsSegmentKind(KindOf(l))
  {
    hide KindOf;
    if es != [] {
      assert es[0] in es;
      assert forall e | e in es[1..] :: e in es;
      MediaKinds(es[1..]);
    }
  }

  lemma UpgradedDoc(h: seq<string>, m: seq<string>, cfg: Settings)
    requires forall l | l in m :: IsSegmentKind(KindOf(l))
    ensures Upgraded(h + m, cfg) == Upgraded(h, cfg) + m
  {
    hide KindOf, IntToString;
    forall i | 0 <= i < |m| ensures UpgradeLine(m[i], cfg) == m[i] {
      assert m[i] in m;
    }
  }

  lemma HasKindConcat(a: seq<string>, b: seq<string>, k: Kind)
    ensures HasKind(a + b, k) <==> HasKind(a, k) || HasKind(b, k)
  {
    hide KindOf;
    if HasKind(a, k) {
      var i :| 0 <= i < |a| && KindOf(a[i]) == k;
      assert (a + b)[i] == a[i];
    }
    if HasKind(b, k) {
      var i :| 0 <= i < |b| && KindOf(b[i]) == k;
      assert (a + b)[|a| + i] == b[i];
    }
  }

  lemma LastOfDoc(h: seq<string>, m: seq<string>, k: Kind)
    requires !IsSegmentKind(k) && forall l | l in m :: IsSegmentKind(KindOf(l))
    ensures LastOf(h + m, k) == LastOf(h, k) && (HasKind(h + m, k) <==> HasKind(h, k))
  {
    hide KindOf;
    var r, s := LastOf(h + m, k), LastOf(h, k);
    HasKindConcat(h, m, k);
    assert forall i | |h| <= i < |h| + |m| :: (h + m)[i] == m[i - |h|] && m[i - |h|] in m;
    if s >= 0 { assert (h + m)[s] == h[s]; }
  }

  lemma InsertedDoc(h: seq<string>, m: seq<string>, cfg: Settings)
    requires forall l | l in m :: IsSegmentKind(KindOf(l))
    ensures Inserted(h + m, cfg) == Inserted(h, cfg) + m
  {
    hide KindOf, StartLine, LastOf, HasKind;
    LastOfDoc(h, m, MediaSequence);
    LastOfDoc(h, m, Independent);
    LastOfDoc(h, m, Start);
  }

  lemma NormalizedDoc(h: seq<string>, m: seq<string>, cal: Calendar)
    requires forall l | l in h :: KindOf(l) != Date
    ensures Normalized(h + m, cal) == h + Normalized(m, cal)
  {
    hide KindOf, NormalizeLine;
    forall i | 0 <= i < |h| ensures NormalizeLine(h[i], cal) == h[i] {
      assert h[i] in h;
      NormalizeLineKind(h[i], cal);
    }
  }

  function NormalSegment(e: Segment, cal: Calendar): Segment {
    if e.place == NoDate then e else e.(date := NormalizeLine(e.date, cal))
  }

  function NormalSegments(es: seq<Segment>, cal: Calendar): (r: seq<Segment>)
    ensures |r| == |es|
  {
    if es == [] then [] else [NormalSegment(es[0], cal)] + NormalSegments(es[1..], cal)
  }

  lemma NormalizedSegment(e: Segment, cal: Calendar)
    requires SegmentOk(e)
    ensures Normalized(SegmentLines(e), cal) == SegmentLines(NormalSegment(e, cal))
    ensures SegmentOk(NormalSegment(e, cal))
  {
    hide KindOf, NormalizeLine;
    NormalizeLineKind(e.inf, cal);
    NormalizeLineKind(e.uri, cal);
    NormalizeLineKind(e.date, cal);
    NormalizedDoc(e.tags, [], cal);
    assert e.tags + [] == e.tags && Normalized([], cal) == [];
    NormalizedConcat(EntryLines(e), e.tags, cal);
  }

  lemma NormalizedConcat(a: seq<string>, b: seq<string>, cal: Calendar)
    ensures Normalized(a + b, cal) == Normalized(a, cal) + Normalized(b, cal)
  {
    hide NormalizeLine;
  }

  lemma {:induction false} NormalizedMedia(es: seq<Segment>, cal: Calendar)
    requires AllOk(es)
    ensures Normalized(MediaLines(es), cal) == MediaLines(NormalSegments(es, cal))
    ensures AllOk(NormalSegments(es, cal))
    ensures AllDated(es) ==> AllDated(NormalSegments(es, cal))
    ensures NoneDated(es) ==> NormalSegments(es, cal) == es
  {
    hide KindOf, NormalizeLine, Normalized, SegmentLines, SegmentOk;
    if es == [] {
      NormalizedNothing(cal);
    } else {
      var e, rest := es[0], es[1..];
      assert e in es && forall x | x in rest :: x in es;
      NormalizedMedia(rest, cal);
      NormalizedSegment(e, cal);
      NormalizedConcat(SegmentLines(e), MediaLines(rest), cal);
      assert NormalSegments(es, cal)[1..] == NormalSegments(rest, cal);
    }
  }

  lemma NormalizedNothing(cal: Calendar)
    ensures Normalized([], cal) == []
  {
  }

  lemma DocHasDate(h: seq<string>, es: seq<Segment>)
    requires HeaderOk(h) && AllOk(es) && (AllDated(es) || NoneDated(es))
    ensures HasKind(h + MediaLines(es), Date) <==> es != [] && AllDated(es)
  {
    hide KindOf;
    HasKindConcat(h, MediaLines(es), Date);
    if es != [] && AllDated(es) {
      var e := es[0];
      assert e in es;
      var at := if e.place == Before then 0 else 1;
      assert MediaLines(es)[at] == e.date;
    } else {
      NoDateLine(es);
    }
  }

  lemma {:induction false} NoDateLine(es: seq<Segment>)
    requires AllOk(es) && NoneDated(es)
    ensures !HasKind(MediaLines(es), Date)
  {
    hide KindOf;
    if es != [] {
      assert es[0] in es && forall x | x in es[1..] :: x in es;
      NoDateLine(es[1..]);
      HasKindConcat(SegmentLines(es[0]), MediaLines(es[1..]), Date);
    }
  }

  /** Segments with a date each, one segment length apart. */
  function StampSegments(es: seq<Segment>, ms: int, cfg: Settings, cal: Calendar): (r: seq<Segment>)
    ensures |r| == |es|
  {
    if es == [] then []
    else [StampSegment(es[0], ms, cal)] + StampSegments(es[1..], ms + StepMs(cfg), cfg, cal)
  }

  lemma StampedPlain(l: string, rest: seq<string>, ms: int, cfg: Settings, cal: Calendar)
    requires KindOf(l) != Inf
    ensures Stamped([l] + rest, ms, cfg, cal) == [l] + Stamped(rest, ms, cfg, cal)
  {
    hide KindOf, DateLine;
    assert ([l] + rest)[1..] == rest;
  }

  lemma {:induction false} StampedSkip(a: seq<string>, b: seq<string>, ms: int, cfg: Settings, cal: Calendar)
    requires forall l | l in a :: KindOf(l) != Inf
    ensures Stamped(a + b, ms, cfg, cal) == a + Stamped(b, ms, cfg, cal)
  {
    hide KindOf, Stamped;
    if a == [] {
      assert a + b == b;
    } else {
      assert a[0] in a && forall l | l in a[1..] :: l in a;
      StampedPlain(a[0], a[1..] + b, ms, cfg, cal);
      assert a + b == [a[0]] + (a[1..] + b);
      StampedSkip(a[1..], b, ms, cfg, cal);
      assert [a[0]] + (a[1..] + Stamped(b, ms, cfg, cal)) == a + Stamped(b, ms, cfg, cal);
    }
  }

  function StampSegment(e: Segment, ms: int, cal: Calendar): Segment {
    e.(date := DateLine(cal.format(ms)), place := Before)
  }

  lemma StampedSegment(e: Segment, rest: seq<string>, ms: int, cfg: Settings, cal: Calendar)
    requires SegmentOk(e) && e.place == NoDate
    ensures Stamped(SegmentLines(e) + rest, ms, cfg, cal)
         == SegmentLines(StampSegment(e, ms, cal)) + Stamped(rest, ms + StepMs(cfg), cfg, cal)
    ensures SegmentOk(StampSegment(e, ms, cal))
  {
    hide KindOf, DateLine;
    MadeLineKinds(cfg, cal.format(ms));
    assert (SegmentLines(e) + rest)[1..] == ([e.uri] + e.tags) + rest;
    StampedSkip([e.uri] + e.tags, rest, ms + StepMs(cfg), cfg, cal);
  }

  lemma {:induction false} StampedMedia(es: seq<Segment>, ms: int, cfg: Settings, cal: Calendar)
    requires AllOk(es) && NoneDated(es)
    ensures Stamped(MediaLines(es), ms, cfg, cal) == MediaLines(StampSegments(es, ms, cfg, cal))
    ensures AllOk(StampSegments(es, ms, cfg, cal)) && AllDated(StampSegments(es, ms, cfg, cal))
  {
    hide KindOf, DateLine, SegmentLines, SegmentOk, StepMs;
    if es == [] {
      StampedNothing(ms, cfg, cal);
    } else {
      hide Stamped;
      var e, rest := es[0], es[1..];
      assert e in es && forall x | x in rest :: x in es;
      StampedMedia(rest, ms + StepMs(cfg), cfg, cal);
      StampedSegment(e, MediaLines(rest), ms, cfg, cal);
      assert StampSegments(es, ms, cfg, cal)[1..] == StampSegments(rest, ms + StepMs(cfg), cfg, cal);
    }
  }

  lemma StampedNothing(ms: int, cfg: Settings, cal: Calendar)
    ensures Stamped([], ms, cfg, cal) == []
  {
  }

  /** Segments in the order players expect, with the rewritten EXTINF. */
  function OrderSegments(es: seq<Segment>, cfg: Settings): (r: seq<Segment>)
    ensures |r| == |es|
  {
    if es == [] then []
    else [es[0].(inf := InfLine(cfg), place := Before)] + OrderSegments(es[1..], cfg)
  }

  lemma {:induction false} SwappedSkip(a: seq<string>, b: seq<string>, cfg: Settings)
    requires forall l | l in a :: KindOf(l) != Inf
    ensures Swapped(a + b, cfg) == a + Swapped(b, cfg)
  {
    hide KindOf, InfLine;
    if a == [] {
      assert a + b == b;
    } else {
      assert a[0] in a && forall l | l in a[1..] :: l in a;
      assert (a + b)[1..] == a[1..] + b;
      SwappedSkip(a[1..], b, cfg);
    }
  }

  lemma SwappedInf(inf: string, rest: seq<string>, cfg: Settings)
    requires KindOf(inf) == Inf && (rest != [] ==> KindOf(rest[0]) != Date)
    ensures Swapped([inf] + rest, cfg) == [InfLine(cfg)] + Swapped(rest, cfg)
  {
    hide KindOf, InfLine;
    assert ([inf] + rest)[1..] == rest;
  }

  lemma SwappedInfDate(inf: string, date: string, rest: seq<string>, cfg: Settings)
    requires KindOf(inf) == Inf && KindOf(date) == Date
    ensures Swapped([inf, date] + rest, cfg) == [date, InfLine(cfg)] + Swapped(rest, cfg)
  {
    hide KindOf, InfLine;
    assert ([inf, date] + rest)[2..] == rest;
  }

  lemma SwappedSegment(e: Segment, rest: seq<string>, cfg: Settings)
    requires SegmentOk(e) && e.place != NoDate
    ensures Swapped(SegmentLines(e) + rest, cfg) == [e.date, InfLine(cfg), e.uri] + e.tags + Swapped(rest, cfg)
  {
    hide KindOf, InfLine, Swapped;
    var behind := [e.uri] + e.tags;
    SwappedSkip(behind, rest, cfg);
    if e.place == Before {
      var tail := [e.inf] + (behind + rest);
      assert SegmentLines(e) + rest == [e.date] + tail;
      SwappedSkip([e.date], tail, cfg);
      SwappedInf(e.inf, behind + rest, cfg);
    } else {
      assert SegmentLines(e) + rest == [e.inf, e.date] + (behind + rest);
      SwappedInfDate(e.inf, e.date, behind + rest, cfg);
    }
  }

  lemma {:induction false} SwappedMedia(es: seq<Segment>, cfg: Settings)
    requires AllOk(es) && AllDated(es)
    ensures Swapped(MediaLines(es), cfg) == MediaLines(OrderSegments(es, cfg))
    ensures AllOk(OrderSegments(es, cfg))
  {
    hide KindOf, InfLine;
    MadeLineKinds(cfg, "");
    if es != [] {
      var e, rest := es[0], es[1..];
      assert e in es && forall x | x in rest :: x in es;
      SwappedMedia(rest, cfg);
      SwappedSegment(e, MediaLines(rest), cfg);
      assert OrderSegments(es, cfg)[1..] == OrderSegments(rest, cfg);
    }
  }

  // ---------- the header through each step ----------

  lemma UpgradedHeader(h: seq<string>, cfg: Settings)
    ensures forall i | 0 <= i < |h| ::
              KindOf(Upgraded(h, cfg)[i]) == if KindOf(h[i]).CacheYes? then Blank else KindOf(h[i])
  {
    hide KindOf, UpgradeLine;
    forall i | 0 <= i < |h|
      ensures KindOf(Upgraded(h, cfg)[i]) == if KindOf(h[i]).CacheYes? then Blank else KindOf(h[i])
    {
      UpgradeLineKind(h[i], cfg);
    }
  }

  /** The header lines after upgrade and insertion. */
  function FullHeader(h: seq<string>, cfg: Settings): seq<string> { Inserted(Upgraded(h, cfg), cfg) }

  lemma UpgradedHeaderOk(h: seq<string>, cfg: Settings)
    requires HeaderOk(h)
    ensures HeaderOk(Upgraded(h, cfg))
  {
    hide KindOf, Upgraded;
    UpgradedHeader(h, cfg);
    var u := Upgraded(h, cfg);
    forall l | l in u ensures !IsMediaKind(KindOf(l)) {
      var i :| 0 <= i < |u| && u[i] == l;
      assert h[i] in h;
    }
  }

  lemma FullHeaderOk(h: seq<string>, cfg: Settings)
    requires HeaderOk(h)
    ensures HeaderOk(FullHeader(h, cfg))
  {
    hide KindOf, Upgraded, StartLine, MissingTags, LastOf;
    var u := Upgraded(h, cfg);
    UpgradedHeaderOk(h, cfg);
    MissingKinds(u, cfg, Version);
    var m := LastOf(u, MediaSequence);
    if m >= 0 {
      var a, ins, b := u[..m + 1], MissingTags(u, cfg), u[m + 1..];
      assert FullHeader(h, cfg) == a + ins + b;
      forall l | l in a + ins + b ensures !IsMediaKind(KindOf(l)) {
        assert l in a ==> l in u;
        assert l in b ==> l in u;
      }
    }
  }

  lemma HasKindSplit(u: seq<string>, at: nat, ins: seq<string>, k: Kind)
    requires at <= |u|
    ensures HasKind(u[..at] + ins + u[at..], k) <==> HasKind(u, k) || HasKind(ins, k)
  {
    hide HasKind;
    var a, b := u[..at], u[at..];
    HasKindConcat(a + ins, b, k);
    HasKindConcat(a, ins, k);
    HasKindConcat(a, b, k);
    assert a + b == u;
  }

  lemma HasKindInserted(u: seq<string>, cfg: Settings, k: Kind)
    requires k != Independent && k != Start
    ensures HasKind(Inserted(u, cfg), k) <==> HasKind(u, k)
  {
    hide KindOf, StartLine, HasKind, LastOf, MissingTags;
    var m := LastOf(u, MediaSequence);
    if m >= 0 {
      MissingKinds(u, cfg, k);
      HasKindSplit(u, m + 1, MissingTags(u, cfg), k);
    }
  }

  lemma MissingKinds(u: seq<string>, cfg: Settings, k: Kind)
    requires k != Independent && k != Start
    ensures !HasKind(MissingTags(u, cfg), k)
    ensures forall l | l in MissingTags(u, cfg) :: KindOf(l) == Independent || KindOf(l) == Start
  {
    hide KindOf, StartLine, LastOf;
    MadeLineKinds(cfg, "");
  }

  lemma HasKindUpgraded(h: seq<string>, cfg: Settings, k: Kind)
    requires k != CacheYes && k != Blank
    ensures HasKind(Upgraded(h, cfg), k) <==> HasKind(h, k)
  {
    hide KindOf, UpgradeLine;
    UpgradedHeader(h, cfg);
    if HasKind(h, k) {
      var i :| 0 <= i < |h| && KindOf(h[i]) == k;
      assert KindOf(Upgraded(h, cfg)[i]) == k;
    }
  }

  lemma FullHeaderKinds(h: seq<string>, cfg: Settings, k: Kind)
    requires k == Version || k == Target || k == MediaSequence
    ensures HasKind(FullHeader(h, cfg), k) <==> HasKind(h, k)
  {
    hide *;
    HasKindUpgraded(h, cfg, k);
    HasKindInserted(Upgraded(h, cfg), cfg, k);
    FullHeaderIs(h, cfg);
  }

  lemma FullHeaderIs(h: seq<string>, cfg: Settings)
    ensures FullHeader(h, cfg) == Inserted(Upgraded(h, cfg), cfg)
  {
  }

  lemma EndsInVersionIff(h: seq<string>, cfg: Settings)
    ensures EndsInVersion(FullHeader(h, cfg)) <==> EndsInVersion(h)
  {
    hide KindOf, UpgradeLine, StartLine, HasKind, MissingTags;
    var u := Upgraded(h, cfg);
    UpgradedHeader(h, cfg);
    FullHeaderKinds(h, cfg, Target);
    FullHeaderKinds(h, cfg, MediaSequence);
    MissingKinds(u, cfg, Version);
    HasKindUpgraded(h, cfg, MediaSequence);
    var m := LastOf(u, MediaSequence);
    var f := FullHeader(h, cfg);
    if m >= 0 && m + 1 == |u| && MissingTags(u, cfg) != [] {
      assert f[|f| - 1] in MissingTags(u, cfg);
    }
  }

  lemma MovedDoc(h: seq<string>, m: seq<string>, from: nat, to: nat)
    requires from < |h| && to < |h|
    ensures Moved(h + m, from, to) == Moved(h, from, to) + m
  {
    var e := h[..from] + h[from + 1..];
    assert (h + m)[..from] + (h + m)[from + 1..] == e + m;
    assert (e + m)[..to] == e[..to] && (e + m)[to..] == e[to..] + m;
  }

  lemma ReorderedDoc(h: seq<string>, m: seq<string>)
    requires forall l | l in m :: IsSegmentKind(KindOf(l))
    requires !EndsInVersion(h)
    ensures Reordered(h + m) == Reordered(h) + m
  {
    hide KindOf, LastOf, HasKind, Moved;
    LastOfDoc(h, m, Version);
    LastOfDoc(h, m, Target);
    LastOfDoc(h, m, MediaSequence);
    var v, t := LastOf(h, Version), LastOf(h, Target);
    if HasAllThree(h) {
      assert v != |h| - 1;
      MovedDoc(h, m, t, v + 1);
    }
  }

  lemma MovedBehind(h: seq<string>, m: seq<string>, from: nat)
    requires from < |h| && m != []
    ensures Moved(h + m, from, |h|) == h[..from] + h[from + 1..] + [m[0], h[from]] + m[1..]
  {
    var e := h[..from] + h[from + 1..];
    assert (h + m)[..from] + (h + m)[from + 1..] == e + m;
    assert (e + m)[..|h|] == e + [m[0]];
    assert (e + m)[|h|..] == m[1..];
  }

  /** With VERSION at the end of the header, TARGETDURATION lands behind the first media line. */
  lemma ReorderedBehindMedia(h: seq<string>, m: seq<string>)
    requires forall l | l in m :: IsSegmentKind(KindOf(l))
    requires EndsInVersion(h) && m != []
    ensures exists x, td :: Reordered(h + m) == x + [m[0], td] + m[1..] && KindOf(td) == Target
  {
    hide KindOf, LastOf, HasKind, Moved;
    LastOfDoc(h, m, Version);
    LastOfDoc(h, m, Target);
    LastOfDoc(h, m, MediaSequence);
    LastIsVersion(h);
    MovedBehind(h, m, LastOf(h, Target));
  }

  lemma LastIsVersion(h: seq<string>)
    requires EndsInVersion(h)
    ensures LastOf(h, Version) == |h| - 1 && HasKind(h, Version) && 0 <= LastOf(h, Target) < |h| - 1
  {
    hide KindOf;
  }

  // ---------- the whole rewrite of a well-formed playlist ----------

  ghost predicate PlaylistOk(h: seq<string>, es: seq<Segment>) {
    HeaderOk(h) && AllOk(es) && (AllDated(es) || NoneDated(es))
  }

  function DatedSegments(es: seq<Segment>, cfg: Settings, cal: Calendar, firstMs: int): (r: seq<Segment>)
    ensures |r| == |es|
  {
    if es != [] && es[0].place != NoDate then NormalSegments(es, cal) else StampSegments(es, firstMs, cfg, cal)
  }

  /** The segments of the response: own date if they had one, in UTC; otherwise one counted from `firstMs`. */
  function OutSegments(es: seq<Segment>, cfg: Settings, cal: Calendar, firstMs: int): (r: seq<Segment>)
    ensures |r| == |es|
  {
    OrderSegments(DatedSegments(es, cfg, cal, firstMs), cfg)
  }

  lemma PreparedDoc(h: seq<string>, es: seq<Segment>, cfg: Settings, cal: Calendar)
    requires PlaylistOk(h, es)
    ensures Prepared(h + MediaLines(es), cfg, cal) == FullHeader(h, cfg) + MediaLines(NormalSegments(es, cal))
  {
    hide KindOf, Upgraded, Inserted, Normalized;
    var m := MediaLines(es);
    MediaKinds(es);
    UpgradedDoc(h, m, cfg);
    InsertedDoc(Upgraded(h, cfg), m, cfg);
    FullHeaderIs(h, cfg);
    FullHeaderOk(h, cfg);
    NormalizedDoc(FullHeader(h, cfg), m, cal);
    NormalizedMedia(es, cal);
  }

  lemma ArrangedDoc(h: seq<string>, es: seq<Segment>, cfg: Settings, cal: Calendar, firstMs: int)
    requires PlaylistOk(h, es)
    ensures Arranged(h + MediaLines(es), cfg, cal, firstMs)
         == Reordered(FullHeader(h, cfg) + MediaLines(OutSegments(es, cfg, cal, firstMs)))
    ensures AllOk(OutSegments(es, cfg, cal, firstMs))
  {
    hide KindOf, Upgraded, Inserted, Normalized, Reordered, Swapped;
    hide Stamped, MediaLines, SegmentOk, FullHeader, Prepared;
    var f := FullHeader(h, cfg);
    var ns := NormalSegments(es, cal);
    PreparedDoc(h, es, cfg, cal);
    FullHeaderOk(h, cfg);
    NormalizedMedia(es, cal);
    DocHasDate(f, ns);
    var ds := DatedSegments(es, cfg, cal, firstMs);
    if es != [] { assert es[0] in es; }
    if !(es != [] && AllDated(es)) {
      StampedMedia(es, firstMs, cfg, cal);
      StampedSkip(f, MediaLines(es), firstMs, cfg, cal);
    }
    SwappedMedia(ds, cfg);
    SwappedSkip(f, MediaLines(ds), cfg);
  }

  function OutHeader(h: seq<string>, cfg: Settings): seq<string> { Reordered(FullHeader(h, cfg)) }

  /** The rewritten lines before the break line goes in. */
  lemma ArrangedShape(h: seq<string>, es: seq<Segment>, cfg: Settings, cal: Calendar, firstMs: int)
    requires PlaylistOk(h, es) && !EndsInVersion(h)
    ensures Arranged(h + MediaLines(es), cfg, cal, firstMs)
         == OutHeader(h, cfg) + MediaLines(OutSegments(es, cfg, cal, firstMs))
    ensures HeaderOk(OutHeader(h, cfg)) && AllOk(OutSegments(es, cfg, cal, firstMs))
  {
    hide KindOf, Arranged, Reordered, MediaLines, OutSegments, EndsInVersion, FullHeader;
    ArrangedDoc(h, es, cfg, cal, firstMs);
    EndsInVersionIff(h, cfg);
    FullHeaderOk(h, cfg);
    MediaKinds(OutSegments(es, cfg, cal, firstMs));
    ReorderedDoc(FullHeader(h, cfg), MediaLines(OutSegments(es, cfg, cal, firstMs)));
    ReorderedMembers(FullHeader(h, cfg));
  }

  lemma MovedMembers(lines: seq<string>, from: nat, to: nat)
    requires from < |lines| && to < |lines|
    ensures forall l :: l in Moved(lines, from, to) <==> l in lines
  {
    var a, x, b := lines[..from], lines[from], lines[from + 1..];
    var c, d := (a + b)[..to], (a + b)[to..];
    assert lines == a + [x] + b;
    assert a + b == c + d;
    forall l ensures l in Moved(lines, from, to) <==> l in lines {
      assert l in lines <==> l in a + b || l == x;
      assert l in c + [x] + d <==> l in c + d || l == x;
    }
  }

  lemma ReorderedMembers(lines: seq<string>)
    ensures forall l :: l in Reordered(lines) <==> l in lines
  {
    hide KindOf, HasKind, LastOf, Moved;
    var v, t := LastOf(lines, Version), LastOf(lines, Target);
    if HasAllThree(lines) && v + 1 < |lines| { MovedMembers(lines, t, v + 1); }
  }
}
