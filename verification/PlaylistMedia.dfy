/** What the rewrite keeps: the media lines of every playlist, and the shape of every well-formed one. */
module PlaylistMedia {
  import opened PlaylistLines
  import opened BreakState
  import opened DateRange
  import opened Playlist

  // ---------- the lines of a kind in any playlist ----------

  function OfKind(lines: seq<string>, k: Kind): seq<string> {
    if lines == [] then [] else (if KindOf(lines[0]) == k then [lines[0]] else []) + OfKind(lines[1..], k)
  }

  function Uris(lines: seq<string>): seq<string> { OfKind(lines, Uri) }

  /** Kinds that the rewrite neither changes nor adds: URIs, MEDIA-SEQUENCE, DATERANGE and tags it does not know. */
  predicate IsKept(k: Kind) { k == Uri || k == MediaSequence || k == Kind.DateRange || k == Other }

  /** Kinds that no step behind the upgrade touches. */
  predicate IsStill(k: Kind) { k != Inf && k != Date && k != Target }

  lemma {:induction false} OfKindConcat(a: seq<string>, b: seq<string>, k: Kind)
    ensures OfKind(a + b, k) == OfKind(a, k) + OfKind(b, k)
  {
    hide KindOf;
    if a == [] {
      assert a + b == b;
    } else {
      assert (a + b)[1..] == a[1..] + b;
      OfKindConcat(a[1..], b, k);
    }
  }

  lemma {:induction false} OfKindNone(a: seq<string>, k: Kind)
    requires forall l | l in a :: KindOf(l) != k
    ensures OfKind(a, k) == []
  {
    hide KindOf;
    if a != [] {
      assert forall l | l in a[1..] :: l in a;
      assert a[0] in a;
      OfKindNone(a[1..], k);
    }
  }

  lemma {:induction false} OfKindMember(lines: seq<string>, k: Kind)
    ensures forall l :: l in OfKind(lines, k) <==> l in lines && KindOf(l) == k
  {
    hide KindOf;
    if lines != [] {
      OfKindMember(lines[1..], k);
      assert lines == [lines[0]] + lines[1..];
    }
  }

  /** A line put in that is of another kind does not show. */
  lemma OfKindInsert(lines: seq<string>, at: nat, ins: seq<string>, k: Kind)
    requires at <= |lines| && forall l | l in ins :: KindOf(l) != k
    ensures OfKind(lines[..at] + ins + lines[at..], k) == OfKind(lines, k)
  {
    hide KindOf, OfKind;
    OfKindConcat(lines[..at] + ins, lines[at..], k);
    OfKindConcat(lines[..at], ins, k);
    OfKindNone(ins, k);
    assert lines == lines[..at] + lines[at..];
    OfKindConcat(lines[..at], lines[at..], k);
  }

  /** Lines replaced one by one by lines that are of the kind exactly where the old ones were, and the same. */
  lemma {:induction false} OfKindPointwise(a: seq<string>, b: seq<string>, k: Kind)
    requires |a| == |b|
    requires forall i | 0 <= i < |a| :: (KindOf(a[i]) == k <==> KindOf(b[i]) == k) &&
                                        (KindOf(a[i]) == k ==> a[i] == b[i])
    ensures OfKind(a, k) == OfKind(b, k)
  {
    hide KindOf;
    if a != [] {
      forall i | 0 <= i < |a| - 1 ensures a[1..][i] == a[i + 1] && b[1..][i] == b[i + 1] {}
      OfKindPointwise(a[1..], b[1..], k);
    }
  }

  lemma {:induction false} OfKindStamped(lines: seq<string>, ms: int, cfg: Settings, cal: Calendar, k: Kind)
    requires IsStill(k)
    ensures OfKind(Stamped(lines, ms, cfg, cal), k) == OfKind(lines, k)
  {
    hide KindOf, DateLine;
    if lines != [] {
      var rest := Stamped(lines[1..], ms + (if KindOf(lines[0]) == Inf then StepMs(cfg) else 0), cfg, cal);
      OfKindStamped(lines[1..], ms + (if KindOf(lines[0]) == Inf then StepMs(cfg) else 0), cfg, cal, k);
      MadeLineKinds(cfg, cal.format(ms));
      if KindOf(lines[0]) == Inf {
        OfKindConcat([DateLine(cal.format(ms)), lines[0]], rest, k);
        OfKindNone([DateLine(cal.format(ms)), lines[0]], k);
      } else {
        assert ([lines[0]] + rest)[1..] == rest;
      }
    }
  }

  lemma {:induction false} OfKindSwapped(lines: seq<string>, cfg: Settings, k: Kind)
    requires IsStill(k)
    ensures OfKind(Swapped(lines, cfg), k) == OfKind(lines, k)
    decreases |lines|
  {
    hide KindOf, InfLine;
    MadeLineKinds(cfg, "");
    if lines != [] {
      if KindOf(lines[0]) != Inf {
        OfKindSwapped(lines[1..], cfg, k);
        assert ([lines[0]] + Swapped(lines[1..], cfg))[1..] == Swapped(lines[1..], cfg);
      } else if |lines| > 1 && KindOf(lines[1]) == Date {
        OfKindSwapped(lines[2..], cfg, k);
        OfKindConcat([lines[1], InfLine(cfg)], Swapped(lines[2..], cfg), k);
        OfKindNone([lines[1], InfLine(cfg)], k);
        assert lines == [lines[0], lines[1]] + lines[2..];
        OfKindConcat([lines[0], lines[1]], lines[2..], k);
        OfKindNone([lines[0], lines[1]], k);
      } else {
        OfKindSwapped(lines[1..], cfg, k);
        OfKindConcat([InfLine(cfg)], Swapped(lines[1..], cfg), k);
        OfKindNone([InfLine(cfg)], k);
      }
    }
  }

  lemma OfKindMoved(lines: seq<string>, from: nat, to: nat, k: Kind)
    requires from < |lines| && to < |lines| && KindOf(lines[from]) != k
    ensures OfKind(Moved(lines, from, to), k) == OfKind(lines, k)
  {
    hide KindOf, OfKind;
    var erased := lines[..from] + lines[from + 1..];
    OfKindInsert(erased, to, [lines[from]], k);
    OfKindInsert(erased, from, [lines[from]], k);
    assert erased[..from] + [lines[from]] + erased[from..] == lines;
  }

  lemma OfKindReordered(lines: seq<string>, k: Kind)
    requires IsStill(k)
    ensures OfKind(Reordered(lines), k) == OfKind(lines, k)
  {
    hide KindOf, OfKind, Moved, LastOf, HasKind;
    var v, t := LastOf(lines, Version), LastOf(lines, Target);
    if HasAllThree(lines) && v + 1 < |lines| { OfKindMoved(lines, t, v + 1, k); }
  }

  lemma {:induction false} OfKindNonBlank(lines: seq<string>, k: Kind)
    requires k != Blank
    ensures OfKind(NonBlank(lines), k) == OfKind(lines, k)
  {
    hide KindOf;
    KindIff("");
    if lines != [] { OfKindNonBlank(lines[1..], k); }
  }

  lemma DateRangeLineKind(s: Range)
    requires HasLine(s)
    ensures KindOf(DateRangeLine(s)) == Kind.DateRange && DateRangeLine(s) != ""
  {
    hide AttributeList.AttrsText, Attrs, KindOf;
    KindIff(DateRangeLine(s));
  }

  lemma OfKindInjected(lines: seq<string>, s: Range, parseUtc: string -> int, k: Kind)
    requires k != Kind.DateRange
    ensures OfKind(Injected(lines, s, parseUtc), k) == OfKind(lines, k)
  {
    hide KindOf, OfKind, DateRangeLine, InsertIndex, TimesOf;
    if HasLine(s) && InsertIndex(TimesOf(lines, parseUtc), s).Some? {
      var at := InsertIndex(TimesOf(lines, parseUtc), s).value;
      DateRangeLineKind(s);
      if at <= |lines| { OfKindInsert(lines, at, [DateRangeLine(s)], k); }
    }
  }

  lemma OfKindUpgraded(lines: seq<string>, cfg: Settings, k: Kind)
    requires IsKept(k)
    ensures OfKind(Upgraded(lines, cfg), k) == OfKind(lines, k)
  {
    hide KindOf, OfKind;
    forall i | 0 <= i < |lines|
      ensures KindOf(Upgraded(lines, cfg)[i]) == k <==> KindOf(lines[i]) == k
      ensures KindOf(lines[i]) == k ==> Upgraded(lines, cfg)[i] == lines[i]
    {
      UpgradeLineKind(lines[i], cfg);
    }
    OfKindPointwise(lines, Upgraded(lines, cfg), k);
  }

  lemma OfKindInserted(lines: seq<string>, cfg: Settings, k: Kind)
    requires k != Independent && k != Start
    ensures OfKind(Inserted(lines, cfg), k) == OfKind(lines, k)
  {
    hide KindOf, OfKind, StartLine, HasKind, LastOf;
    MadeLineKinds(cfg, "");
    var m := LastOf(lines, MediaSequence);
    if m >= 0 { OfKindInsert(lines, m + 1, MissingTags(lines, cfg), k); }
  }

  lemma OfKindNormalized(lines: seq<string>, cal: Calendar, k: Kind)
    requires IsStill(k)
    ensures OfKind(Normalized(lines, cal), k) == OfKind(lines, k)
  {
    hide KindOf, OfKind, NormalizeLine;
    forall i | 0 <= i < |lines|
      ensures KindOf(Normalized(lines, cal)[i]) == KindOf(lines[i])
      ensures KindOf(lines[i]) == k ==> Normalized(lines, cal)[i] == lines[i]
    {
      NormalizeLineKind(lines[i], cal);
    }
    OfKindPointwise(lines, Normalized(lines, cal), k);
  }

  /** Whatever the playlist, well-formed or not, the rewrite keeps its URI, MEDIA-SEQUENCE and DATERANGE lines and the
      tags it does not know: same lines, same order. */
  lemma ArrangedKeeps(lines: seq<string>, cfg: Settings, cal: Calendar, firstMs: int, k: Kind)
    requires IsKept(k)
    ensures OfKind(Arranged(lines, cfg, cal, firstMs), k) == OfKind(lines, k)
  {
    hide KindOf, OfKind, Upgraded, Inserted, Normalized, Stamped, Swapped, Reordered, HasKind;
    var p := Prepared(lines, cfg, cal);
    OfKindUpgraded(lines, cfg, k);
    OfKindInserted(Upgraded(lines, cfg), cfg, k);
    OfKindNormalized(Inserted(Upgraded(lines, cfg), cfg), cal, k);
    OfKindStamped(p, firstMs, cfg, cal, k);
    var d := if HasKind(p, Date) then p else Stamped(p, firstMs, cfg, cal);
    OfKindSwapped(d, cfg, k);
    OfKindReordered(Swapped(d, cfg), k);
  }

  /** And so does the whole response, but for the break line. */
  lemma RewriteKeeps(lines: seq<string>, cfg: Settings, cal: Calendar, firstMs: int, s: Range, k: Kind)
    requires IsKept(k) && k != Kind.DateRange
    ensures OfKind(RewriteLines(lines, cfg, cal, firstMs, s), k) == OfKind(lines, k)
  {
    hide OfKind, Arranged, Injected, NonBlank;
    var a := Arranged(lines, cfg, cal, firstMs);
    ArrangedKeeps(lines, cfg, cal, firstMs, k);
    OfKindInjected(a, s, cal.parse, k);
    OfKindNonBlank(Injected(a, s, cal.parse), k);
  }

  lemma RewriteKeepsUris(lines: seq<string>, cfg: Settings, cal: Calendar, firstMs: int, s: Range)
    ensures Uris(RewriteLines(lines, cfg, cal, firstMs, s)) == Uris(lines)
  {
    hide OfKind, RewriteLines;
    RewriteKeeps(lines, cfg, cal, firstMs, s, Uri);
  }

  /** The last of the kept lines of a kind is the same. */
  lemma SameLast(a: seq<string>, b: seq<string>, k: Kind)
    requires OfKind(a, k) == OfKind(b, k)
    ensures LastOf(a, k) < 0 <==> LastOf(b, k) < 0
    ensures LastOf(a, k) >= 0 && LastOf(b, k) >= 0 ==> a[LastOf(a, k)] == b[LastOf(b, k)]
  {
    hide KindOf, LastOf, HasKind;
    LastOfKind(a, k);
    LastOfKind(b, k);
  }

  lemma LastOfKind(lines: seq<string>, k: Kind)
    ensures LastOf(lines, k) < 0 <==> OfKind(lines, k) == []
    ensures var m, o := LastOf(lines, k), OfKind(lines, k); m >= 0 && o != [] ==> lines[m] == o[|o| - 1]
  {
    hide KindOf, OfKind, LastOf, HasKind;
    var m := LastOf(lines, k);
    if m < 0 {
      NoKind(lines, k);
      OfKindNone(lines, k);
    } else {
      var a, b := lines[..m], lines[m + 1..];
      assert lines == a + [lines[m]] + b;
      OfKindConcat(a + [lines[m]], b, k);
      OfKindConcat(a, [lines[m]], k);
      forall l | l in b ensures KindOf(l) != k {
        var i :| 0 <= i < |b| && b[i] == l;
        assert lines[m + 1 + i] == l;
      }
      OfKindNone(b, k);
      OfKindOne(lines[m], k);
    }
  }

  lemma NoKind(lines: seq<string>, k: Kind)
    requires LastOf(lines, k) < 0
    ensures forall l | l in lines :: KindOf(l) != k
  {
    hide KindOf;
  }

  lemma OfKindOne(l: string, k: Kind)
    ensures OfKind([l], k) == if KindOf(l) == k then [l] else []
  {
    hide KindOf;
  }
}
