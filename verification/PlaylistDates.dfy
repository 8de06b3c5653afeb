/** Playlists with dates on some of their segments only: the rewrite adds no date to the others, so it cannot bring them
    into order. Shown by counting: no step loses or adds an EXTINF, nor a date where the playlist has one. */
module PlaylistDates {
  import opened PlaylistLines
  import opened BreakState
  import opened DateRange
  import opened PdtAnchor
  import opened Playlist
  import opened PlaylistShape
  import opened PlaylistOrder
  import opened PlaylistText

  // ---------- counting lines ----------

  function Count(lines: seq<string>, k: Kind): nat {
    if lines == [] then 0 else (if KindOf(lines[0]) == k then 1 else 0) + Count(lines[1..], k)
  }

  lemma {:induction false} CountConcat(a: seq<string>, b: seq<string>, k: Kind)
    ensures Count(a + b, k) == Count(a, k) + Count(b, k)
  {
    hide KindOf;
    if a == [] {
      assert a + b == b;
    } else {
      assert (a + b)[1..] == a[1..] + b;
      CountConcat(a[1..], b, k);
    }
  }

  lemma {:induction false} CountIff(lines: seq<string>, k: Kind)
    ensures Count(lines, k) > 0 <==> HasKind(lines, k)
  {
    hide KindOf;
    if lines != [] {
      CountIff(lines[1..], k);
      if HasKind(lines[1..], k) {
        var i :| 0 <= i < |lines| - 1 && KindOf(lines[1..][i]) == k;
        assert KindOf(lines[i + 1]) == k;
      }
      if i :| 0 <= i < |lines| && KindOf(lines[i]) == k {
        if i > 0 { assert KindOf(lines[1..][i - 1]) == k; }
      }
    }
  }

  lemma {:induction false} CountPointwise(a: seq<string>, b: seq<string>, k: Kind)
    requires |a| == |b| && forall i | 0 <= i < |a| :: KindOf(a[i]) == k <==> KindOf(b[i]) == k
    ensures Count(a, k) == Count(b, k)
  {
    hide KindOf;
    if a != [] {
      forall i | 0 <= i < |a| - 1 ensures a[1..][i] == a[i + 1] && b[1..][i] == b[i + 1] {}
      CountPointwise(a[1..], b[1..], k);
    }
  }

  lemma CountAround(lines: seq<string>, at: nat, ins: seq<string>, k: Kind)
    requires at <= |lines|
    ensures Count(lines[..at] + ins + lines[at..], k) == Count(lines, k) + Count(ins, k)
  {
    hide KindOf, Count;
    CountConcat(lines[..at] + ins, lines[at..], k);
    CountConcat(lines[..at], ins, k);
    assert lines == lines[..at] + lines[at..];
    CountConcat(lines[..at], lines[at..], k);
  }

  // ---------- through the steps ----------

  predicate IsTimed(k: Kind) { k == Inf || k == Date }

  lemma CountUpgraded(lines: seq<string>, cfg: Settings, k: Kind)
    requires IsTimed(k)
    ensures Count(Upgraded(lines, cfg), k) == Count(lines, k)
  {
    hide KindOf, UpgradeLine;
    forall i | 0 <= i < |lines| ensures KindOf(Upgraded(lines, cfg)[i]) == k <==> KindOf(lines[i]) == k {
      UpgradeLineKind(lines[i], cfg);
    }
    CountPointwise(Upgraded(lines, cfg), lines, k);
  }

  lemma CountNormalized(lines: seq<string>, cal: Calendar, k: Kind)
    ensures Count(Normalized(lines, cal), k) == Count(lines, k)
  {
    hide KindOf, NormalizeLine;
    forall i | 0 <= i < |lines| ensures KindOf(Normalized(lines, cal)[i]) == KindOf(lines[i]) {
      NormalizeLineKind(lines[i], cal);
    }
    CountPointwise(Normalized(lines, cal), lines, k);
  }

  lemma CountInserted(lines: seq<string>, cfg: Settings, k: Kind)
    requires IsTimed(k)
    ensures Count(Inserted(lines, cfg), k) == Count(lines, k)
  {
    hide KindOf, HasKind, LastOf, StartLine;
    MadeLineKinds(cfg, "");
    var m := LastOf(lines, MediaSequence);
    var ins := MissingTags(lines, cfg);
    CountIff(ins, k);
    assert !HasKind(ins, k) by { MissingAreNotTimed(lines, cfg, k); }
    if m >= 0 { CountAround(lines, m + 1, ins, k); }
  }

  lemma MissingAreNotTimed(lines: seq<string>, cfg: Settings, k: Kind)
    requires IsTimed(k)
    ensures !HasKind(MissingTags(lines, cfg), k)
  {
    hide KindOf, StartLine;
    MadeLineKinds(cfg, "");
  }

  lemma CountPrepared(lines: seq<string>, cfg: Settings, cal: Calendar, k: Kind)
    requires IsTimed(k)
    ensures Count(Prepared(lines, cfg, cal), k) == Count(lines, k)
  {
    hide Upgraded, Inserted, Normalized, Count;
    var u := Upgraded(lines, cfg);
    CountUpgraded(lines, cfg, k);
    CountInserted(u, cfg, k);
    CountNormalized(Inserted(u, cfg), cal, k);
  }

  lemma {:induction false} CountSwapped(lines: seq<string>, cfg: Settings, k: Kind)
    ensures Count(Swapped(lines, cfg), k) == Count(lines, k)
    decreases |lines|
  {
    hide KindOf, InfLine, Swapped, Count;
    MadeLineKinds(cfg, "");
    SwappedTurn(lines, cfg);
    if lines == [] {
    } else if KindOf(lines[0]) == Inf && |lines| > 1 && KindOf(lines[1]) == Date {
      CountSwapped(lines[2..], cfg, k);
      CountTwo(lines[0], lines[1], lines[2..], k);
      CountTwo(lines[1], InfLine(cfg), Swapped(lines[2..], cfg), k);
      assert lines == [lines[0], lines[1]] + lines[2..];
    } else {
      CountSwapped(lines[1..], cfg, k);
      CountFirst(lines[0], lines[1..], k);
      CountFirst(Swapped(lines, cfg)[0], Swapped(lines[1..], cfg), k);
      assert lines == [lines[0]] + lines[1..];
    }
  }

  lemma SwappedTurn(lines: seq<string>, cfg: Settings)
    ensures lines == [] ==> Swapped(lines, cfg) == []
    ensures lines != [] ==>
              if KindOf(lines[0]) == Inf && |lines| > 1 && KindOf(lines[1]) == Date then
                Swapped(lines, cfg) == [lines[1], InfLine(cfg)] + Swapped(lines[2..], cfg)
              else Swapped(lines, cfg) == [if KindOf(lines[0]) == Inf then InfLine(cfg) else lines[0]] +
                                          Swapped(lines[1..], cfg)
  {
    hide KindOf, InfLine;
  }

  lemma CountFirst(l: string, rest: seq<string>, k: Kind)
    ensures Count([l] + rest, k) == (if KindOf(l) == k then 1 else 0) + Count(rest, k)
  {
    hide KindOf;
    assert ([l] + rest)[1..] == rest;
  }

  lemma CountTwo(a: string, b: string, rest: seq<string>, k: Kind)
    ensures Count([a, b] + rest, k) ==
            (if KindOf(a) == k then 1 else 0) + (if KindOf(b) == k then 1 else 0) + Count(rest, k)
  {
    hide KindOf, Count;
    CountFirst(b, rest, k);
    CountFirst(a, [b] + rest, k);
    assert [a, b] + rest == [a] + ([b] + rest);
  }

  lemma CountReordered(lines: seq<string>, k: Kind)
    ensures Count(Reordered(lines), k) == Count(lines, k)
  {
    hide KindOf, Count, LastOf, HasKind;
    var v, t := LastOf(lines, Version), LastOf(lines, Target);
    if HasAllThree(lines) && v + 1 < |lines| {
      var erased := lines[..t] + lines[t + 1..];
      CountAround(erased, v + 1, [lines[t]], k);
      CountAround(erased, t, [lines[t]], k);
      assert erased[..t] + [lines[t]] + erased[t..] == lines;
    }
  }

  lemma {:induction false} CountNonBlank(lines: seq<string>, k: Kind)
    requires k != Blank
    ensures Count(NonBlank(lines), k) == Count(lines, k)
  {
    hide KindOf;
    KindIff("");
    if lines != [] { CountNonBlank(lines[1..], k); }
  }

  /** For every line vector with a date: the rewrite keeps the number of dates, and of EXTINFs. */
  lemma RewriteKeepsCounts(lines: seq<string>, cfg: Settings, cal: Calendar, firstMs: int, k: Kind)
    requires HasKind(lines, Date) && IsTimed(k)
    ensures Count(NonBlank(Arranged(lines, cfg, cal, firstMs)), k) == Count(lines, k)
  {
    hide KindOf, HasKind, Prepared, Swapped, Reordered, Count, NonBlank;
    var p := Prepared(lines, cfg, cal);
    CountPrepared(lines, cfg, cal, k);
    CountPrepared(lines, cfg, cal, Date);
    CountIff(lines, Date);
    CountIff(p, Date);
    CountSwapped(p, cfg, k);
    CountReordered(Swapped(p, cfg), k);
    CountNonBlank(Reordered(Swapped(p, cfg)), k);
  }

  // ---------- fewer dates than segments ----------

  ghost predicate EvenlyDated(es: seq<Segment>) { AllDated(es) || NoneDated(es) }

  lemma {:induction false} MediaCounts(es: seq<Segment>)
    requires AllOk(es)
    ensures Count(MediaLines(es), Inf) == |es| && Count(MediaLines(es), Date) <= |es|
    ensures AllDated(es) <==> Count(MediaLines(es), Date) == |es|
    ensures NoneDated(es) <==> Count(MediaLines(es), Date) == 0
  {
    hide KindOf, Count;
    if es == [] {
      NothingCounted();
    } else {
      var e, rest := es[0], es[1..];
      assert e in es && es == [e] + rest;
      MediaCounts(rest);
      SegmentCounts(e);
      CountConcat(SegmentLines(e), MediaLines(rest), Inf);
      CountConcat(SegmentLines(e), MediaLines(rest), Date);
    }
  }

  lemma NothingCounted()
    ensures forall k :: Count([], k) == 0
  {
  }

  lemma SegmentCounts(e: Segment)
    requires SegmentOk(e)
    ensures Count(SegmentLines(e), Inf) == 1
    ensures Count(SegmentLines(e), Date) == if e.place == NoDate then 0 else 1
  {
    hide KindOf, Count;
    forall l, rest, k ensures Count([l] + rest, k) == (if KindOf(l) == k then 1 else 0) + Count(rest, k) {
      CountFirst(l, rest, k);
    }
    NoneCounted(e.tags, Inf);
    NoneCounted(e.tags, Date);
    match e.place
    case NoDate => assert SegmentLines(e) == [e.inf] + ([e.uri] + e.tags);
    case Before => assert SegmentLines(e) == [e.date] + ([e.inf] + ([e.uri] + e.tags));
    case After => assert SegmentLines(e) == [e.inf] + ([e.date] + ([e.uri] + e.tags));
  }

  lemma NoneCounted(lines: seq<string>, k: Kind)
    requires forall l | l in lines :: KindOf(l) != k
    ensures Count(lines, k) == 0
  {
    hide KindOf, Count;
    CountIff(lines, k);
  }

  /** Some EXTINF has no date directly before it. */
  ghost predicate HasBare(lines: seq<string>) {
    exists i :: KindAt(lines, i, Inf) && !KindAt(lines, i - 1, Date)
  }

  /** Without one there are at least as many dates; `led` says that a date stands in front. */
  lemma {:induction false} DatesCoverInfs(lines: seq<string>, led: bool)
    requires forall i | KindAt(lines, i, Inf) :: KindAt(lines, i - 1, Date) || (i == 0 && led)
    ensures Count(lines, Inf) <= Count(lines, Date) + if led then 1 else 0
  {
    hide KindOf;
    if lines != [] {
      var rest, dated := lines[1..], KindOf(lines[0]) == Date;
      forall i | KindAt(rest, i, Inf) ensures KindAt(rest, i - 1, Date) || (i == 0 && dated) {
        assert KindAt(lines, i + 1, Inf);
      }
      DatesCoverInfs(rest, dated);
      if KindOf(lines[0]) == Inf { assert KindAt(lines, 0, Inf); }
    }
  }

  lemma FewerDatesGiveBare(lines: seq<string>)
    requires Count(lines, Date) < Count(lines, Inf)
    ensures HasBare(lines)
  {
    hide KindOf, Count;
    if !HasBare(lines) { DatesCoverInfs(lines, false); }
  }

  lemma BareStays(x: seq<string>, p: seq<string>, y: seq<string>)
    requires HasBare(x + y) && y != [] && KindOf(y[0]) == Date
    ensures HasBare(x + p + y)
  {
    hide KindOf;
    var i :| KindAt(x + y, i, Inf) && !KindAt(x + y, i - 1, Date);
    var all, n := x + p + y, |x|;
    assert (x + y)[n] == y[0];
    var k := if i < n then i else i + |p|;
    assert all[k] == (x + y)[i];
    assert i > 0 && i != n ==> all[k - 1] == (x + y)[i - 1];
    assert KindAt(all, k, Inf) && !KindAt(all, k - 1, Date);
  }

  lemma BareIsNotInOrder(lines: seq<string>)
    requires HasBare(lines)
    ensures !InOrder(lines)
  {
    hide KindOf;
    var i :| KindAt(lines, i, Inf) && !KindAt(lines, i - 1, Date);
    assert !InOrderAt(lines, i);
  }

  lemma UnevenGivesBare(h: seq<string>, es: seq<Segment>, cfg: Settings, cal: Calendar, firstMs: int)
    requires HeaderOk(h) && AllOk(es) && !EvenlyDated(es)
    ensures HasBare(NonBlank(Arranged(h + MediaLines(es), cfg, cal, firstMs)))
  {
    hide KindOf, Count, Arranged, NonBlank, MediaLines, HasKind, SegmentOk, HasBare;
    var m := MediaLines(es);
    MediaCounts(es);
    HeaderCounts(h);
    CountConcat(h, m, Inf);
    CountConcat(h, m, Date);
    CountIff(h + m, Date);
    RewriteKeepsCounts(h + m, cfg, cal, firstMs, Inf);
    RewriteKeepsCounts(h + m, cfg, cal, firstMs, Date);
    FewerDatesGiveBare(NonBlank(Arranged(h + m, cfg, cal, firstMs)));
  }

  lemma HeaderCounts(h: seq<string>)
    requires HeaderOk(h)
    ensures Count(h, Inf) == 0 && Count(h, Date) == 0
  {
    hide KindOf, Count;
    CountIff(h, Inf);
    CountIff(h, Date);
  }

  // ---------- the exact condition ----------

  lemma RewriteIsWritten(lines: seq<string>, cfg: Settings, cal: Calendar, firstMs: int, s: Range)
    ensures RewriteLines(lines, cfg, cal, firstMs, s) == Written(Arranged(lines, cfg, cal, firstMs), s, cal.parse)
  {
    hide Arranged, Injected, NonBlank;
  }

  lemma BareIsWritten(lines: seq<string>, s: Range, parseUtc: string -> int)
    requires HasBare(NonBlank(lines))
    ensures HasBare(Written(lines, s, parseUtc))
  {
    hide KindOf, HasBare, NonBlank, Written, Placed, DateRangeLine, HasLine;
    if Placed(lines, s, parseUtc) {
      var x, y := WrittenParts(lines, s, parseUtc);
      BareStays(x, [DateRangeLine(s)], y);
    } else {
      WrittenPlain(lines, s, parseUtc);
    }
  }

  /** For every playlist with at least one segment, whatever its metadata and the break: the media lines of the response
      are in order exactly when dates stand on all segments or on none, and the header does not end in VERSION behind
      the other two tags. */
  lemma RewriteInOrderIff(h: seq<string>, es: seq<Segment>, cfg: Settings, cal: Calendar, firstMs: int, s: Range)
    requires HeaderOk(h) && AllOk(es) && es != []
    ensures InOrder(RewriteLines(h + MediaLines(es), cfg, cal, firstMs, s)) <==> EvenlyDated(es) && !EndsInVersion(h)
  {
    hide KindOf, RewriteLines, EndsInVersion, InOrder, MediaLines, AllOk, HeaderOk, HasBare, NonBlank, Arranged;
    if EvenlyDated(es) {
      EvenlyDatedInOrderIff(h, es, cfg, cal, firstMs, s);
    } else {
      UnevenGivesBare(h, es, cfg, cal, firstMs);
      BareIsWritten(Arranged(h + MediaLines(es), cfg, cal, firstMs), s, cal.parse);
      RewriteIsWritten(h + MediaLines(es), cfg, cal, firstMs, s);
      BareIsNotInOrder(RewriteLines(h + MediaLines(es), cfg, cal, firstMs, s));
    }
  }

  lemma BareStripped(lines: seq<string>)
    requires HasBare(lines)
    ensures HasBare(Stripped(lines))
  {
    hide KindOf, StripCr;
    var i :| KindAt(lines, i, Inf) && !KindAt(lines, i - 1, Date);
    StripAt(lines, i, Inf);
    StripAt(lines, i - 1, Date);
  }

  /** So it is for the lines a client finds. */
  lemma BareIsFound(lines: seq<string>, s: Range, parseUtc: string -> int)
    requires NoFeeds(lines) && HasBare(NonBlank(lines))
    ensures !InOrder(ClientLines(lines, s, parseUtc))
  {
    hide StripCr, NonBlank, Placed, Written, ClientLines, HasLine, DateRangeLine, KindOf, Pieces, InOrder, HasBare;
    var x, y := ClientParts(lines, s, parseUtc);
    BareStripped(x + y);
    assert Stripped(x) + Stripped(y) == Stripped(x + y);
    if Placed(lines, s, parseUtc) {
      StripTagKind(y[0], Date);
      BareStays(Stripped(x), Pieces(s), Stripped(y));
    } else {
      assert x + y == y;
    }
    BareIsNotInOrder(ClientLines(lines, s, parseUtc));
  }

  /** The clock anchor is consulted, and moves, exactly for files that have segments and no date at all. */
  lemma AnchorMovesIff(a: Anchor, lines: seq<string>, cfg: Settings, cal: Calendar, nowMs: int)
    ensures NeedsAnchor(lines, cfg, cal) <==> HasKind(lines, Inf) && !HasKind(lines, Date)
    ensures !(HasKind(lines, Inf) && !HasKind(lines, Date)) ==> AnchorAfter(a, lines, cfg, cal, nowMs) == a
  {
    hide KindOf, HasKind, Prepared, Count;
    CountPrepared(lines, cfg, cal, Inf);
    CountPrepared(lines, cfg, cal, Date);
    CountIff(lines, Inf);
    CountIff(lines, Date);
    CountIff(Prepared(lines, cfg, cal), Inf);
    CountIff(Prepared(lines, cfg, cal), Date);
  }
}
