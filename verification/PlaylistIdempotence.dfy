/** Rewriting a rewritten playlist changes nothing. */
module PlaylistIdempotence {
  import opened PlaylistLines
  import opened BreakState
  import opened DateRange
  import opened Playlist
  import opened PlaylistShape
  import opened PlaylistTheorems

  /** At most one TARGETDURATION, and VERSION only before it. */
  ghost predicate VersionFirst(lines: seq<string>) {
    (forall i, j | 0 <= i < |lines| && 0 <= j < |lines| && KindOf(lines[i]) == Target && KindOf(lines[j]) == Target ::
       i == j) &&
    (forall i, j | 0 <= i < |lines| && 0 <= j < |lines| && KindOf(lines[i]) == Version && KindOf(lines[j]) == Target ::
       i < j)
  }

  ghost predicate TagsOrdered(h: seq<string>) { HasAllThree(h) ==> VersionFirst(h) }

  // ---------- the tag order ----------

  lemma VersionFirstUpgraded(h: seq<string>, cfg: Settings)
    requires VersionFirst(h)
    ensures VersionFirst(Upgraded(h, cfg))
  {
    hide KindOf, Upgraded;
    UpgradedHeader(h, cfg);
  }

  lemma VersionFirstInsert(u: seq<string>, at: nat, ins: seq<string>)
    requires VersionFirst(u) && at <= |u|
    requires forall l | l in ins :: KindOf(l) != Version && KindOf(l) != Target
    ensures VersionFirst(u[..at] + ins + u[at..])
  {
    hide KindOf;
    var w := u[..at] + ins + u[at..];
    assert forall i | 0 <= i < at :: w[i] == u[i];
    assert forall i | at <= i < at + |ins| :: w[i] == ins[i - at] && ins[i - at] in ins;
    assert forall i | at + |ins| <= i < |w| :: w[i] == u[i - |ins|];
  }

  lemma VersionFirstFull(h: seq<string>, cfg: Settings)
    requires VersionFirst(h)
    ensures VersionFirst(FullHeader(h, cfg))
  {
    hide KindOf, Upgraded, VersionFirst, MissingTags, LastOf;
    var u := Upgraded(h, cfg);
    VersionFirstUpgraded(h, cfg);
    MissingKinds(u, cfg, Version);
    var m := LastOf(u, MediaSequence);
    if m >= 0 { VersionFirstInsert(u, m + 1, MissingTags(u, cfg)); }
  }

  /** The two tags next to each other, with no further ones behind them. */
  lemma ReorderedPair(a: seq<string>, v: string, t: string, b: seq<string>)
    requires KindOf(v) == Version && KindOf(t) == Target
    requires forall l | l in b :: KindOf(l) != Version && KindOf(l) != Target
    ensures Reordered(a + [v, t] + b) == a + [v, t] + b
  {
    hide KindOf, HasKind;
    var lines := a + [v, t] + b;
    assert forall i | |a| + 2 <= i < |lines| :: lines[i] == b[i - |a| - 2] && b[i - |a| - 2] in b;
    assert LastOf(lines, Version) == |a| by { LastOfUnique(lines, Version, |a|); }
    assert LastOf(lines, Target) == |a| + 1 by { LastOfUnique(lines, Target, |a| + 1); }
    var erased := lines[..|a| + 1] + lines[|a| + 2..];
    assert Moved(lines, |a| + 1, |a| + 1) == lines;
  }

  lemma MovedForward(f: seq<string>, v: nat, t: nat)
    requires v < t < |f|
    ensures Moved(f, t, v + 1) == f[..v] + [f[v], f[t]] + (f[v + 1..t] + f[t + 1..])
  {
    var erased := f[..t] + f[t + 1..];
    assert erased[..v + 1] == f[..v] + [f[v]];
    assert erased[v + 1..] == f[v + 1..t] + f[t + 1..];
  }

  /** After the move, the two tags are next to each other. */
  lemma MovedNextToVersion(f: seq<string>)
    requires HasAllThree(f) && LastOf(f, Version) < LastOf(f, Target)
    requires forall i | 0 <= i < |f| && KindOf(f[i]) == Target :: i == LastOf(f, Target)
    ensures var v, t := LastOf(f, Version), LastOf(f, Target);
            0 <= v &&
            var rest := f[v + 1..t] + f[t + 1..];
            Reordered(f) == f[..v] + [f[v], f[t]] + rest &&
            KindOf(f[v]) == Version && KindOf(f[t]) == Target &&
            forall l | l in rest :: KindOf(l) != Version && KindOf(l) != Target
  {
    hide KindOf, HasKind, Moved;
    var v, t := LastOf(f, Version), LastOf(f, Target);
    MovedForward(f, v, t);
  }

  lemma VersionFirstLast(f: seq<string>)
    requires VersionFirst(f) && HasAllThree(f)
    ensures LastOf(f, Version) < LastOf(f, Target)
    ensures forall i | 0 <= i < |f| && KindOf(f[i]) == Target :: i == LastOf(f, Target)
  {
    hide KindOf, HasKind;
  }

  lemma HasKindMembers(a: seq<string>, b: seq<string>, k: Kind)
    requires forall l | l in a :: l in b
    ensures HasKind(a, k) ==> HasKind(b, k)
  {
    hide KindOf;
    if HasKind(a, k) {
      var i :| 0 <= i < |a| && KindOf(a[i]) == k;
      assert a[i] in b;
    }
  }

  /** The header of a response: reordered and without blank lines. */
  function ResponseHeader(h: seq<string>, cfg: Settings): seq<string> { NonBlank(OutHeader(h, cfg)) }

  lemma ResponseHeaderMembers(h: seq<string>, cfg: Settings)
    ensures forall l :: l in ResponseHeader(h, cfg) <==> l in FullHeader(h, cfg) && l != ""
  {
    hide FullHeader, Reordered, NonBlank;
    ReorderedMembers(FullHeader(h, cfg));
    NonBlankMember(OutHeader(h, cfg));
  }

  lemma HasAllThreeOf(f: seq<string>, r: seq<string>)
    requires forall l | l in r :: l in f
    requires HasAllThree(r)
    ensures HasAllThree(f)
  {
    hide HasKind;
    HasKindMembers(r, f, Version);
    HasKindMembers(r, f, Target);
    HasKindMembers(r, f, MediaSequence);
  }

  /** In a response header with all three tags, TARGETDURATION stands right behind VERSION. */
  lemma ResponsePair(h: seq<string>, cfg: Settings)
    returns (a: seq<string>, v: string, t: string, b: seq<string>)
    requires TagsOrdered(h) && HasAllThree(ResponseHeader(h, cfg))
    ensures ResponseHeader(h, cfg) == a + [v, t] + b && KindOf(v) == Version && KindOf(t) == Target
    ensures forall l | l in b :: KindOf(l) != Version && KindOf(l) != Target
  {
    hide KindOf, FullHeader, NonBlank, VersionFirst, HasKind, LastOf;
    var f, r := FullHeader(h, cfg), ResponseHeader(h, cfg);
    ResponseHeaderMembers(h, cfg);
    HasAllThreeOf(f, r);
    FullHeaderKinds(h, cfg, Version);
    FullHeaderKinds(h, cfg, Target);
    FullHeaderKinds(h, cfg, MediaSequence);
    VersionFirstFull(h, cfg);
    VersionFirstLast(f);
    MovedNextToVersion(f);
    var i, j := LastOf(f, Version), LastOf(f, Target);
    var pair, rest := [f[i], f[j]], f[i + 1..j] + f[j + 1..];
    KindIff("");
    NonBlankConcat(f[..i] + pair, rest);
    NonBlankConcat(f[..i], pair);
    NonBlankId(pair);
    NonBlankMember(rest);
    a, v, t, b := NonBlank(f[..i]), f[i], f[j], NonBlank(rest);
  }

  lemma ReorderStays(h: seq<string>, cfg: Settings)
    requires TagsOrdered(h)
    ensures Reordered(ResponseHeader(h, cfg)) == ResponseHeader(h, cfg)
  {
    hide KindOf, ResponseHeader, HasKind, LastOf, TagsOrdered;
    var r := ResponseHeader(h, cfg);
    if HasAllThree(r) {
      var a, v, t, b := ResponsePair(h, cfg);
      ReorderedPair(a, v, t, b);
    }
  }

  lemma LastOfKind(f: seq<string>, k: Kind)
    requires LastOf(f, k) >= 0
    ensures KindOf(f[LastOf(f, k)]) == k
  {
  }

  // ---------- upgrade and insertion ----------

  lemma FullHeaderUpgraded(h: seq<string>, cfg: Settings, l: string)
    requires l in FullHeader(h, cfg)
    ensures UpgradeLine(l, cfg) == l
  {
    hide KindOf, LastOf, MissingTags;
    var u := Upgraded(h, cfg);
    MissingKinds(u, cfg, Version);
    if l in MissingTags(u, cfg) {
    } else {
      assert l in u;
      var i :| 0 <= i < |u| && u[i] == l;
      UpgradeLineKind(h[i], cfg);
    }
  }

  lemma UpgradeStays(h: seq<string>, cfg: Settings)
    ensures Upgraded(ResponseHeader(h, cfg), cfg) == ResponseHeader(h, cfg)
  {
    hide KindOf, FullHeader, ResponseHeader, UpgradeLine;
    var r := ResponseHeader(h, cfg);
    ResponseHeaderMembers(h, cfg);
    forall i | 0 <= i < |r| ensures UpgradeLine(r[i], cfg) == r[i] {
      assert r[i] in r;
      FullHeaderUpgraded(h, cfg, r[i]);
    }
  }

  lemma InsertedHas(u: seq<string>, cfg: Settings, k: Kind)
    requires k == Independent || k == Start
    requires HasKind(u, MediaSequence)
    ensures HasKind(Inserted(u, cfg), k)
  {
    hide KindOf, HasKind, StartLine;
    MadeLineKinds(cfg, "");
    var m := LastOf(u, MediaSequence);
    HasKindSplit(u, m + 1, MissingTags(u, cfg), k);
    HasKindConcat(if HasKind(u, Independent) then [] else [INDEPENDENT],
                  if HasKind(u, Start) then [] else [StartLine(cfg)], k);
    HasKindOne(INDEPENDENT, Independent);
    HasKindOne(StartLine(cfg), Start);
  }

  lemma HasKindOne(l: string, k: Kind)
    requires KindOf(l) == k
    ensures HasKind([l], k)
  {
    hide KindOf;
    assert KindOf([l][0]) == k;
  }

  lemma HasKindIn(lines: seq<string>, l: string, k: Kind)
    requires l in lines && KindOf(l) == k
    ensures HasKind(lines, k)
  {
    hide KindOf;
    var i :| 0 <= i < |lines| && lines[i] == l;
  }

  lemma HasKindMember(lines: seq<string>, k: Kind) returns (l: string)
    requires HasKind(lines, k)
    ensures l in lines && KindOf(l) == k
  {
    hide KindOf;
    var i :| 0 <= i < |lines| && KindOf(lines[i]) == k;
    l := lines[i];
  }

  lemma ResponseHas(h: seq<string>, cfg: Settings, k: Kind)
    requires (k == Independent || k == Start) && HasKind(ResponseHeader(h, cfg), MediaSequence)
    ensures HasKind(ResponseHeader(h, cfg), k)
  {
    hide KindOf, HasKind, FullHeader, ResponseHeader, Inserted, Upgraded;
    ResponseHeaderMembers(h, cfg);
    FullHeaderIs(h, cfg);
    HasKindMembers(ResponseHeader(h, cfg), FullHeader(h, cfg), MediaSequence);
    HasKindInserted(Upgraded(h, cfg), cfg, MediaSequence);
    InsertedHas(Upgraded(h, cfg), cfg, k);
    var l := HasKindMember(FullHeader(h, cfg), k);
    KindIff("");
    HasKindIn(ResponseHeader(h, cfg), l, k);
  }

  lemma InsertStays(h: seq<string>, cfg: Settings)
    ensures Inserted(ResponseHeader(h, cfg), cfg) == ResponseHeader(h, cfg)
  {
    hide KindOf, HasKind, FullHeader, ResponseHeader, StartLine;
    var r := ResponseHeader(h, cfg);
    if HasKind(r, MediaSequence) {
      ResponseHas(h, cfg, Independent);
      ResponseHas(h, cfg, Start);
      assert MissingTags(r, cfg) == [];
      var m := LastOf(r, MediaSequence);
      assert r[..m + 1] + [] + r[m + 1..] == r;
    }
  }

  lemma HeaderStays(h: seq<string>, cfg: Settings)
    requires TagsOrdered(h)
    ensures OutHeader(ResponseHeader(h, cfg), cfg) == ResponseHeader(h, cfg)
    ensures NonBlank(ResponseHeader(h, cfg)) == ResponseHeader(h, cfg)
  {
    hide ResponseHeader, Upgraded, Inserted, Reordered, NonBlank, HasKind;
    UpgradeStays(h, cfg);
    InsertStays(h, cfg);
    ReorderStays(h, cfg);
    ResponseHeaderMembers(h, cfg);
    NonBlankId(ResponseHeader(h, cfg));
  }

  // ---------- the segments ----------

  lemma SegmentsStay(h: seq<string>, es: seq<Segment>, cfg: Settings, cal: Calendar, firstMs: int, again: int)
    requires PlaylistOk(h, es) && CalendarOk(cal)
    ensures var out := OutSegments(es, cfg, cal, firstMs);
            AllOk(out) ==> OutSegments(out, cfg, cal, again) == out
  {
    hide KindOf, OutSegments, DateLine, DateText, InfLine, SegmentOk;
    var out := OutSegments(es, cfg, cal, firstMs);
    if AllOk(out) {
      OutBefore(h, es, cfg, cal, firstMs);
      var twice := OutSegments(out, cfg, cal, again);
      forall i | 0 <= i < |es| ensures twice[i] == out[i] {
        OutSegmentAt(h, es, cfg, cal, firstMs, i);
        OutSegmentAt([], out, cfg, cal, again, i);
        var text := if es[i].place == NoDate then cal.format(firstMs + i * StepMs(cfg))
                    else cal.toUtcZ(DateText(es[i].date));
        MadeLineKinds(cfg, text);
        assert cal.toUtcZ(text) == text;
      }
    }
  }

  lemma OutBefore(h: seq<string>, es: seq<Segment>, cfg: Settings, cal: Calendar, firstMs: int)
    requires PlaylistOk(h, es)
    ensures AllDated(OutSegments(es, cfg, cal, firstMs))
  {
    hide OutSegments;
    var out := OutSegments(es, cfg, cal, firstMs);
    forall e | e in out ensures e.place != NoDate {
      var i :| 0 <= i < |out| && out[i] == e;
      OutSegmentAt(h, es, cfg, cal, firstMs, i);
    }
  }

  // ---------- the whole playlist ----------

  lemma NothingInjected(lines: seq<string>, s: Range, parseUtc: string -> int)
    requires !HasLine(s)
    ensures Injected(lines, s, parseUtc) == lines
  {
  }

  /** The response when no break is set. */
  lemma PlainResponse(h: seq<string>, es: seq<Segment>, cfg: Settings, cal: Calendar, firstMs: int, s: Range)
    requires PlaylistOk(h, es) && !EndsInVersion(h) && !HasLine(s)
    ensures RewriteLines(h + MediaLines(es), cfg, cal, firstMs, s)
         == ResponseHeader(h, cfg) + MediaLines(OutSegments(es, cfg, cal, firstMs))
    ensures AllOk(OutSegments(es, cfg, cal, firstMs)) && HeaderOk(ResponseHeader(h, cfg))
  {
    hide KindOf, Arranged, MediaLines, OutHeader, OutSegments, NonBlank, Injected, EndsInVersion, SegmentOk, HasLine;
    ArrangedShape(h, es, cfg, cal, firstMs);
    NothingInjected(Arranged(h + MediaLines(es), cfg, cal, firstMs), s, cal.parse);
    MediaNonBlank(OutSegments(es, cfg, cal, firstMs));
    NonBlankId(MediaLines(OutSegments(es, cfg, cal, firstMs)));
    NonBlankConcat(OutHeader(h, cfg), MediaLines(OutSegments(es, cfg, cal, firstMs)));
    NonBlankMember(OutHeader(h, cfg));
  }

  lemma OrderedDoesNotClose(h: seq<string>)
    requires TagsOrdered(h)
    ensures !EndsInVersion(h)
  {
    hide KindOf;
    if EndsInVersion(h) {
      LastIsVersion(h);
      var t := LastOf(h, Target);
      LastOfKind(h, Target);
    }
  }

  lemma ReorderedTagsOrdered(h: seq<string>)
    requires OutHeaderFixed(h)
    ensures !EndsInVersion(h)
  {
    hide KindOf, HasKind;
    if EndsInVersion(h) {
      LastIsVersion(h);
    }
  }

  ghost predicate OutHeaderFixed(h: seq<string>) {
    HasAllThree(h) ==> LastOf(h, Version) < LastOf(h, Target)
  }

  lemma ResponseDoesNotClose(h: seq<string>, cfg: Settings)
    requires TagsOrdered(h)
    ensures !EndsInVersion(ResponseHeader(h, cfg))
  {
    hide KindOf, ResponseHeader, HasKind, LastOf, TagsOrdered, EndsInVersion;
    var r := ResponseHeader(h, cfg);
    if HasAllThree(r) {
      var a, v, t, b := ResponsePair(h, cfg);
      PairOrder(a, v, t, b);
    }
    ReorderedTagsOrdered(r);
  }

  lemma PairOrder(a: seq<string>, v: string, t: string, b: seq<string>)
    requires KindOf(v) == Version && KindOf(t) == Target
    requires forall l | l in b :: KindOf(l) != Version && KindOf(l) != Target
    ensures LastOf(a + [v, t] + b, Version) < LastOf(a + [v, t] + b, Target)
  {
    hide KindOf, HasKind;
    var lines := a + [v, t] + b;
    assert forall i | |a| + 2 <= i < |lines| :: lines[i] == b[i - |a| - 2] && b[i - |a| - 2] in b;
    LastOfUnique(lines, Version, |a|);
    LastOfUnique(lines, Target, |a| + 1);
  }

  /** With no break set and fixed settings, rewriting a rewritten playlist changes nothing, whatever the
      clock says the second time. */
  lemma RewriteIdempotent(h: seq<string>, es: seq<Segment>, cfg: Settings, cal: Calendar,
                          firstMs: int, again: int, s: Range)
    requires PlaylistOk(h, es) && TagsOrdered(h) && CalendarOk(cal) && !HasLine(s)
    ensures var once := RewriteLines(h + MediaLines(es), cfg, cal, firstMs, s);
            RewriteLines(once, cfg, cal, again, s) == once
  {
    hide KindOf, RewriteLines, ResponseHeader, OutSegments, EndsInVersion;
    hide TagsOrdered, CalendarOk, HasLine, MediaLines, SegmentOk;
    var out, r := OutSegments(es, cfg, cal, firstMs), ResponseHeader(h, cfg);
    OrderedDoesNotClose(h);
    PlainResponse(h, es, cfg, cal, firstMs, s);
    ResponseDoesNotClose(h, cfg);
    OutBefore(h, es, cfg, cal, firstMs);
    PlainResponse(r, out, cfg, cal, again, s);
    SegmentsStay(h, es, cfg, cal, firstMs, again);
    HeaderStays(h, cfg);
    ResponseHeaderIs(r, cfg);
  }

  lemma ResponseHeaderIs(h: seq<string>, cfg: Settings)
    ensures ResponseHeader(h, cfg) == NonBlank(OutHeader(h, cfg))
  {
  }

  /** The order of the two tags is needed: when TARGETDURATION comes first, the two reorderings differ. */
  lemma ReorderTwiceIff(lines: seq<string>)
    requires HasAllThree(lines) && LastOf(lines, Version) + 1 < |lines|
    requires forall i | 0 <= i < |lines| && KindOf(lines[i]) == Target :: i == LastOf(lines, Target)
    ensures Reordered(Reordered(lines)) == Reordered(lines) <==> LastOf(lines, Version) < LastOf(lines, Target)
  {
    hide KindOf, HasKind, Reordered, Moved;
    var v, t := LastOf(lines, Version), LastOf(lines, Target);
    if v < t {
      MovedNextToVersion(lines);
      ReorderedPair(lines[..v], lines[v], lines[t], lines[v + 1..t] + lines[t + 1..]);
    } else {
      TargetBehindOne(lines, v, t);
    }
  }

  lemma MovedBackward(f: seq<string>, v: nat, t: nat)
    requires t < v && v + 1 < |f|
    ensures Moved(f, t, v + 1) == (f[..t] + f[t + 1..v]) + [f[v], f[v + 1], f[t]] + f[v + 2..]
  {
    var a := f[..t] + f[t + 1..v];
    assert f[..t] + f[t + 1..] == a + [f[v], f[v + 1]] + f[v + 2..];
    assert (a + [f[v], f[v + 1]] + f[v + 2..])[..v + 1] == a + [f[v], f[v + 1]];
    assert (a + [f[v], f[v + 1]] + f[v + 2..])[v + 1..] == f[v + 2..];
  }

  lemma TargetBehindOne(lines: seq<string>, v: int, t: int)
    requires HasAllThree(lines) && v == LastOf(lines, Version) && t == LastOf(lines, Target)
    requires 0 <= t < v && v + 1 < |lines|
    requires forall i | 0 <= i < |lines| && KindOf(lines[i]) == Target :: i == t
    ensures Reordered(Reordered(lines)) != Reordered(lines)
  {
    hide KindOf, HasKind, Moved, LastOf;
    var x, b := lines[v + 1], lines[v + 2..];
    var once := Reordered(lines);
    MovedBackward(lines, v, t);
    MovedMembers(lines, t, v + 1);
    HasKindMembers(lines, once, Version);
    HasKindMembers(lines, once, Target);
    HasKindMembers(lines, once, MediaSequence);
    forall i | v + 2 <= i < |once| ensures once[i] == lines[i] { assert once[i] == b[i - v - 2]; }
    assert once[v - 1] == lines[v] && once[v] == x && once[v + 1] == lines[t];
    LastOfUnique(once, Version, v - 1);
    LastOfUnique(once, Target, v + 1);
    MovedForward(once, v - 1, v + 1);
    assert Reordered(once)[v] == lines[t];
  }
}
