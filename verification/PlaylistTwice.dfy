/** Exactly when a second rewrite of a playlist changes nothing. */
module PlaylistTwice {
  import opened PlaylistLines
  import opened BreakState
  import opened DateRange
  import opened Playlist
  import opened PlaylistShape
  import opened PlaylistTheorems
  import opened PlaylistIdempotence
  import PlaylistOrder

  ghost predicate OneTarget(lines: seq<string>) {
    forall i, j | 0 <= i < |lines| && 0 <= j < |lines| ::
      KindOf(lines[i]) == Target && KindOf(lines[j]) == Target ==> i == j
  }

  /** With all three tags: VERSION comes before TARGETDURATION, or the line behind the last VERSION is one that
      the rewrite drops. */
  ghost predicate Settles(h: seq<string>) {
    var v := LastOf(h, Version);
    HasAllThree(h) ==>
      v < LastOf(h, Target) || (0 <= v && v + 1 < |h| && (h[v + 1] == "" || h[v + 1] == CACHE_YES))
  }

  // ---------- the full header settles when the header does ----------

  /** The same on the header after upgrade and insertion, where a dropped line is blank already. */
  ghost predicate SettlesFull(f: seq<string>) {
    var v := LastOf(f, Version);
    HasAllThree(f) ==> v < LastOf(f, Target) || (0 <= v && v + 1 < |f| && f[v + 1] == "")
  }

  lemma UpgradeBlankIff(l: string, cfg: Settings)
    ensures UpgradeLine(l, cfg) == "" <==> l == "" || l == CACHE_YES
  {
    hide KindOf;
    KindIff(l);
  }

  lemma LastOfSame(a: seq<string>, b: seq<string>, k: Kind)
    requires |a| == |b| && forall i | 0 <= i < |a| :: KindOf(a[i]) == k <==> KindOf(b[i]) == k
    ensures LastOf(a, k) == LastOf(b, k)
  {
    hide KindOf;
    var i := LastOf(a, k);
    if i >= 0 { LastOfUnique(b, k, i); }
  }

  function Shifted(i: int, at: nat, count: nat): int { if i < at then i else i + count }

  lemma LastOfInsert(u: seq<string>, at: nat, ins: seq<string>, k: Kind)
    requires at <= |u| && forall l | l in ins :: KindOf(l) != k
    ensures LastOf(u[..at] + ins + u[at..], k) == Shifted(LastOf(u, k), at, |ins|)
  {
    hide KindOf, HasKind, LastOf;
    var i := LastOf(u, k);
    if i >= at {
      LastOfConcat(u[..at] + ins, u[at..], k, i - at);
    } else if i >= 0 {
      LastOfConcat([], u[..at], k, i);
      assert [] + u[..at] == u[..at];
      LastOfBefore(u[..at], ins + u[at..], k);
      assert u[..at] + ins + u[at..] == u[..at] + (ins + u[at..]);
    } else {
      NoLast(u[..at] + ins + u[at..], k);
    }
  }

  lemma LastOfConcat(a: seq<string>, b: seq<string>, k: Kind, i: nat)
    requires i < |b| && KindOf(b[i]) == k && forall j | i < j < |b| :: KindOf(b[j]) != k
    ensures LastOf(a + b, k) == |a| + i
  {
    hide KindOf, HasKind, LastOf;
    assert forall j | |a| <= j < |a + b| :: (a + b)[j] == b[j - |a|];
    LastOfUnique(a + b, k, |a| + i);
  }

  lemma LastOfBefore(a: seq<string>, b: seq<string>, k: Kind)
    requires forall l | l in b :: KindOf(l) != k
    ensures LastOf(a + b, k) == LastOf(a, k)
  {
    hide KindOf, HasKind, LastOf;
    assert forall j | |a| <= j < |a + b| :: (a + b)[j] == b[j - |a|] && b[j - |a|] in b;
    var i := LastOf(a, k);
    if i >= 0 { LastOfUnique(a + b, k, i); } else { NoLast(a + b, k); }
  }

  lemma NoLast(lines: seq<string>, k: Kind)
    requires forall l | l in lines :: KindOf(l) != k
    ensures LastOf(lines, k) == -1
  {
    hide KindOf;
  }

  lemma UpgradedLast(h: seq<string>, cfg: Settings, k: Kind)
    requires k != CacheYes && k != Blank
    ensures LastOf(Upgraded(h, cfg), k) == LastOf(h, k)
  {
    hide KindOf, UpgradeLine, LastOf;
    UpgradedHeader(h, cfg);
    LastOfSame(h, Upgraded(h, cfg), k);
  }

  /** Where the missing tags go in, and how many lines. */
  function InsertPoint(h: seq<string>, cfg: Settings): int { LastOf(Upgraded(h, cfg), MediaSequence) + 1 }

  function Missing(h: seq<string>, cfg: Settings): seq<string> { MissingTags(Upgraded(h, cfg), cfg) }

  lemma FullHeaderParts(h: seq<string>, cfg: Settings)
    requires HasKind(h, MediaSequence)
    ensures var u, at := Upgraded(h, cfg), InsertPoint(h, cfg);
            1 <= at <= |u| && |u| == |h| && KindOf(u[at - 1]) == MediaSequence &&
            FullHeader(h, cfg) == u[..at] + Missing(h, cfg) + u[at..]
    ensures forall l | l in Missing(h, cfg) :: KindOf(l) != Version && KindOf(l) != Target
  {
    hide KindOf, UpgradeLine, MissingTags, HasKind;
    HasKindUpgraded(h, cfg, MediaSequence);
    MissingKinds(Upgraded(h, cfg), cfg, Version);
    NoneOf(Missing(h, cfg));
  }

  lemma FullLast(h: seq<string>, cfg: Settings, k: Kind)
    requires HasKind(h, MediaSequence) && (k == Version || k == Target)
    ensures LastOf(FullHeader(h, cfg), k) == Shifted(LastOf(h, k), InsertPoint(h, cfg), |Missing(h, cfg)|)
  {
    hide KindOf, Upgraded, LastOf, HasKind, Missing, FullHeader, InsertPoint;
    FullHeaderParts(h, cfg);
    UpgradedLast(h, cfg, k);
    LastOfInsert(Upgraded(h, cfg), InsertPoint(h, cfg), Missing(h, cfg), k);
  }

  /** Where the two tags are after upgrade and insertion, and what stands behind VERSION. */
  lemma FullPositions(h: seq<string>, cfg: Settings)
    requires HasAllThree(h)
    ensures var f, v, t := FullHeader(h, cfg), LastOf(h, Version), LastOf(h, Target);
            var v', t' := LastOf(f, Version), LastOf(f, Target);
            0 <= v < |h| && 0 <= t < |h| && 0 <= v' < |f| && (v < t <==> v' < t') &&
            (v' + 1 < |f| && f[v' + 1] == "" <==> v + 1 < |h| && (h[v + 1] == "" || h[v + 1] == CACHE_YES))
  {
    hide KindOf, UpgradeLine, LastOf, HasKind, Missing, FullHeader, InsertPoint;
    FullLast(h, cfg, Version);
    FullLast(h, cfg, Target);
    FullHeaderParts(h, cfg);
    UpgradedLast(h, cfg, Version);
    var u, v := Upgraded(h, cfg), LastOf(h, Version);
    LineBehind(u, InsertPoint(h, cfg), Missing(h, cfg), v);
    if v + 1 < |h| { UpgradeBlankIff(h[v + 1], cfg); }
  }

  lemma NoneOf(ins: seq<string>)
    requires forall l | l in ins :: KindOf(l) == Independent || KindOf(l) == Start
    ensures forall l | l in ins :: KindOf(l) != Version && KindOf(l) != Target
  {
    hide KindOf;
  }

  lemma SettlesFullIff(h: seq<string>, cfg: Settings)
    ensures SettlesFull(FullHeader(h, cfg)) <==> Settles(h)
  {
    hide KindOf, FullHeader, LastOf, HasKind;
    FullHeaderKinds(h, cfg, Version);
    FullHeaderKinds(h, cfg, Target);
    FullHeaderKinds(h, cfg, MediaSequence);
    if HasAllThree(h) { FullPositions(h, cfg); }
  }

  /** The line behind VERSION stays behind it, because nothing is inserted right there. */
  lemma LineBehind(u: seq<string>, at: nat, ins: seq<string>, v: int)
    requires 1 <= at <= |u| && 0 <= v < |u| && KindOf(u[at - 1]) != KindOf(u[v])
    ensures var w, i := u[..at] + ins + u[at..], Shifted(v, at, |ins|);
            0 <= i && (i + 1 < |w| <==> v + 1 < |u|) &&
            (v + 1 < |u| ==> w[i + 1] == u[v + 1])
  {
    hide KindOf;
  }

  // ---------- the header of the response ----------

  lemma OneTargetFull(h: seq<string>, cfg: Settings)
    requires OneTarget(h)
    ensures OneTarget(FullHeader(h, cfg))
  {
    hide KindOf, UpgradeLine, MissingTags, LastOf;
    var u := Upgraded(h, cfg);
    UpgradedHeader(h, cfg);
    MissingKinds(u, cfg, Target);
    var m := LastOf(u, MediaSequence);
    if m >= 0 {
      var ins, w := MissingTags(u, cfg), FullHeader(h, cfg);
      assert forall i | 0 <= i < m + 1 :: w[i] == u[i];
      assert forall i | m + 1 <= i < m + 1 + |ins| :: w[i] == ins[i - m - 1] && ins[i - m - 1] in ins;
      assert forall i | m + 1 + |ins| <= i < |w| :: w[i] == u[i - |ins|];
    }
  }

  lemma OrderedTags(h: seq<string>)
    requires OneTarget(h) && (HasAllThree(h) ==> LastOf(h, Version) < LastOf(h, Target))
    ensures TagsOrdered(h)
  {
    hide KindOf, HasKind;
  }

  lemma FullOrder(h: seq<string>, cfg: Settings)
    requires var f := FullHeader(h, cfg); HasAllThree(f) ==> LastOf(f, Version) < LastOf(f, Target)
    ensures HasAllThree(h) ==> LastOf(h, Version) < LastOf(h, Target)
  {
    hide KindOf, FullHeader, LastOf, HasKind;
    FullHeaderKinds(h, cfg, Version);
    FullHeaderKinds(h, cfg, Target);
    FullHeaderKinds(h, cfg, MediaSequence);
    if HasAllThree(h) { FullPositions(h, cfg); }
  }

  /** With TARGETDURATION in front, the response has VERSION, then the line that was behind it unless it was
      blank, then TARGETDURATION. */
  lemma BackwardResponse(h: seq<string>, cfg: Settings)
    returns (a: seq<string>, v: string, x: string, t: string, b: seq<string>)
    requires OneTarget(h)
    requires var f := FullHeader(h, cfg);
             HasAllThree(f) && LastOf(f, Target) < LastOf(f, Version) && LastOf(f, Version) + 1 < |f|
    ensures var f := FullHeader(h, cfg); x == f[LastOf(f, Version) + 1]
    ensures ResponseHeader(h, cfg) == a + [v] + NonBlank([x]) + [t] + b
    ensures KindOf(v) == Version && KindOf(t) == Target && KindOf(x) != Version && KindOf(x) != Target
    ensures forall l | l in b :: KindOf(l) != Version && KindOf(l) != Target
    ensures HasAllThree(ResponseHeader(h, cfg))
  {
    hide KindOf, FullHeader, HasKind, LastOf, Moved, NonBlank;
    var f := FullHeader(h, cfg);
    OneTargetFull(h, cfg);
    var i, j := LastOf(f, Version), LastOf(f, Target);
    MovedBackward(f, i, j);
    v, x, t := f[i], f[i + 1], f[j];
    var a0, b0 := f[..j] + f[j + 1..i], f[i + 2..];
    assert a0 + [v, x, t] + b0 == a0 + [v] + [x] + [t] + b0;
    NonBlankConcat(a0 + [v] + [x] + [t], b0);
    NonBlankConcat(a0 + [v] + [x], [t]);
    NonBlankConcat(a0 + [v], [x]);
    NonBlankConcat(a0, [v]);
    KindIff("");
    NonBlankId([v]);
    NonBlankId([t]);
    NonBlankMember(b0);
    a, b := NonBlank(a0), NonBlank(b0);
    BehindLast(f, i, j);
    ResponseHasAllThree(h, cfg);
  }

  lemma BehindLast(f: seq<string>, v: int, t: int)
    requires OneTarget(f) && v == LastOf(f, Version) && t == LastOf(f, Target) && 0 <= t < v && v + 1 < |f|
    ensures forall i | v < i < |f| :: KindOf(f[i]) != Version && KindOf(f[i]) != Target
  {
    hide KindOf, HasKind;
  }

  lemma ResponseHasAllThree(h: seq<string>, cfg: Settings)
    requires HasAllThree(FullHeader(h, cfg))
    ensures HasAllThree(ResponseHeader(h, cfg))
  {
    hide KindOf, FullHeader, ResponseHeader, HasKind;
    ResponseHeaderMembers(h, cfg);
    KindIff("");
    var v := HasKindMember(FullHeader(h, cfg), Version);
    var t := HasKindMember(FullHeader(h, cfg), Target);
    var m := HasKindMember(FullHeader(h, cfg), MediaSequence);
    HasKindIn(ResponseHeader(h, cfg), v, Version);
    HasKindIn(ResponseHeader(h, cfg), t, Target);
    HasKindIn(ResponseHeader(h, cfg), m, MediaSequence);
  }

  /** One line between the two tags is enough for the next reordering to change something. */
  lemma ReorderedApart(a: seq<string>, v: string, x: string, t: string, b: seq<string>)
    requires KindOf(v) == Version && KindOf(t) == Target && KindOf(x) != Version && KindOf(x) != Target
    requires forall l | l in b :: KindOf(l) != Version && KindOf(l) != Target
    requires HasAllThree(a + [v, x, t] + b)
    ensures Reordered(a + [v, x, t] + b) != a + [v, x, t] + b
    ensures LastOf(a + [v, x, t] + b, Version) < LastOf(a + [v, x, t] + b, Target)
  {
    hide KindOf, HasKind, Moved;
    var lines := a + [v, x, t] + b;
    assert forall i | |a| + 3 <= i < |lines| :: lines[i] == b[i - |a| - 3] && b[i - |a| - 3] in b;
    LastOfUnique(lines, Version, |a|);
    LastOfUnique(lines, Target, |a| + 2);
    MovedForward(lines, |a|, |a| + 2);
    assert Reordered(lines)[|a| + 1] == t && lines[|a| + 1] == x;
  }

  /** The header of a response is a fixed point of the next one's reordering if and only if it settles. */
  lemma HeaderSettlesIff(h: seq<string>, cfg: Settings)
    requires OneTarget(h) && !EndsInVersion(h)
    ensures Reordered(ResponseHeader(h, cfg)) == ResponseHeader(h, cfg) <==> SettlesFull(FullHeader(h, cfg))
    ensures !EndsInVersion(ResponseHeader(h, cfg))
  {
    hide KindOf, FullHeader, ResponseHeader, HasKind, LastOf, EndsInVersion, Reordered, TagsOrdered;
    var f, r := FullHeader(h, cfg), ResponseHeader(h, cfg);
    EndsInVersionIff(h, cfg);
    if HasAllThree(f) && LastOf(f, Target) < LastOf(f, Version) {
      NotAtEnd(f);
      var a, v, x, t, b := BackwardResponse(h, cfg);
      if x == "" {
        assert r == a + [v, t] + b;
        ReorderedPair(a, v, t, b);
        PairOrder(a, v, t, b);
      } else {
        NonBlankId([x]);
        assert r == a + [v, x, t] + b;
        ReorderedApart(a, v, x, t, b);
      }
      ReorderedTagsOrdered(r);
    } else {
      if HasAllThree(f) { NotSame(f); }
      FullOrder(h, cfg);
      OrderedTags(h);
      ReorderStays(h, cfg);
      ResponseDoesNotClose(h, cfg);
    }
  }

  lemma NotAtEnd(f: seq<string>)
    requires !EndsInVersion(f) && HasAllThree(f)
    ensures LastOf(f, Version) + 1 < |f|
  {
    hide KindOf, HasKind;
  }

  lemma NotSame(f: seq<string>)
    requires HasAllThree(f)
    ensures LastOf(f, Version) != LastOf(f, Target)
  {
    hide KindOf, HasKind;
  }

  // ---------- VERSION at the end of the header ----------

  lemma {:induction false} SwappedTags(lines: seq<string>, cfg: Settings, k: Kind)
    requires !IsMediaKind(k)
    ensures |Swapped(lines, cfg)| == |lines|
    ensures forall i | 0 <= i < |lines| :: KindOf(Swapped(lines, cfg)[i]) == k <==> KindOf(lines[i]) == k
    decreases |lines|
  {
    hide KindOf, InfLine;
    MadeLineKinds(cfg, "");
    if lines != [] {
      if KindOf(lines[0]) == Inf && |lines| > 1 && KindOf(lines[1]) == Date {
        SwappedTags(lines[2..], cfg, k);
      } else {
        SwappedTags(lines[1..], cfg, k);
      }
    }
  }

  ghost predicate SameTags(a: seq<string>, b: seq<string>, k: Kind) {
    |a| == |b| && forall i | 0 <= i < |a| :: KindOf(a[i]) == k <==> KindOf(b[i]) == k
  }

  lemma SameTagsKeep(a: seq<string>, b: seq<string>)
    requires SameTags(a, b, Version) && SameTags(a, b, Target) && SameTags(a, b, MediaSequence)
    ensures VersionFirst(a) ==> VersionFirst(b)
    ensures HasAllThree(a) ==> HasAllThree(b)
  {
    hide KindOf;
    if HasAllThree(a) {
      var i :| 0 <= i < |a| && KindOf(a[i]) == Version;
      var j :| 0 <= j < |a| && KindOf(a[j]) == Target;
      var k :| 0 <= k < |a| && KindOf(a[k]) == MediaSequence;
      assert KindOf(b[i]) == Version && KindOf(b[j]) == Target && KindOf(b[k]) == MediaSequence;
    }
  }

  lemma NormalizedTags(lines: seq<string>, cal: Calendar, k: Kind)
    ensures SameTags(lines, Normalized(lines, cal), k)
  {
    hide KindOf, NormalizeLine;
    forall i | 0 <= i < |lines| ensures KindOf(Normalized(lines, cal)[i]) == KindOf(lines[i]) {
      NormalizeLineKind(lines[i], cal);
    }
  }

  /** The lines before the reordering keep the order of the two tags, whatever else they are. */
  lemma OrderReachesReorder(lines: seq<string>, cfg: Settings, cal: Calendar)
    requires VersionFirst(lines) && HasAllThree(lines)
    ensures var z := Swapped(Prepared(lines, cfg, cal), cfg); VersionFirst(z) && HasAllThree(z)
  {
    hide KindOf, Upgraded, Inserted, Normalized, Swapped, VersionFirst, HasKind, SameTags;
    var f, p := FullHeader(lines, cfg), Prepared(lines, cfg, cal);
    VersionFirstFull(lines, cfg);
    FullHeaderKinds(lines, cfg, Version);
    FullHeaderKinds(lines, cfg, Target);
    FullHeaderKinds(lines, cfg, MediaSequence);
    NormalizedTags(f, cal, Version);
    NormalizedTags(f, cal, Target);
    NormalizedTags(f, cal, MediaSequence);
    SameTagsKeep(f, p);
    SwappedSameTags(p, cfg, Version);
    SwappedSameTags(p, cfg, Target);
    SwappedSameTags(p, cfg, MediaSequence);
    SameTagsKeep(p, Swapped(p, cfg));
  }

  lemma SwappedSameTags(lines: seq<string>, cfg: Settings, k: Kind)
    requires !IsMediaKind(k)
    ensures SameTags(lines, Swapped(lines, cfg), k)
  {
    hide KindOf;
    SwappedTags(lines, cfg, k);
  }

  /** TARGETDURATION right behind a VERSION. */
  ghost predicate HasPair(lines: seq<string>) {
    exists i :: PlaylistOrder.KindAt(lines, i, Version) && PlaylistOrder.KindAt(lines, i + 1, Target)
  }

  lemma RewriteMakesPair(lines: seq<string>, cfg: Settings, cal: Calendar, firstMs: int, s: Range)
    requires VersionFirst(lines) && HasAllThree(lines) && HasKind(lines, Date) && !HasLine(s)
    ensures HasPair(RewriteLines(lines, cfg, cal, firstMs, s))
  {
    hide KindOf, Swapped, VersionFirst, Reordered, NonBlank, HasLine, Injected, HasAllThree, HasPair, LastOf, Prepared;
    DateReachesReorder(lines, cfg, cal);
    OrderReachesReorder(lines, cfg, cal);
    var z := Swapped(Prepared(lines, cfg, cal), cfg);
    NothingInjected(Reordered(z), s, cal.parse);
    PairStays(z);
  }

  lemma DateReachesReorder(lines: seq<string>, cfg: Settings, cal: Calendar)
    requires HasKind(lines, Date)
    ensures HasKind(Prepared(lines, cfg, cal), Date)
  {
    hide KindOf, Upgraded, Inserted, Normalized;
    HasKindUpgraded(lines, cfg, Date);
    HasKindInserted(Upgraded(lines, cfg), cfg, Date);
    var f := Inserted(Upgraded(lines, cfg), cfg);
    NormalizedTags(f, cal, Date);
    var i :| 0 <= i < |f| && KindOf(f[i]) == Date;
    assert KindOf(Normalized(f, cal)[i]) == Date;
  }

  lemma PairStays(z: seq<string>)
    requires VersionFirst(z) && HasAllThree(z)
    ensures HasPair(NonBlank(Reordered(z)))
  {
    hide KindOf, HasKind, VersionFirst, Reordered, NonBlank, LastOf;
    VersionFirstLast(z);
    MovedNextToVersion(z);
    var v, t := LastOf(z, Version), LastOf(z, Target);
    var pair, rest := [z[v], z[t]], z[v + 1..t] + z[t + 1..];
    KindIff("");
    NonBlankConcat(z[..v] + pair, rest);
    NonBlankConcat(z[..v], pair);
    NonBlankId(pair);
    var a, r := NonBlank(z[..v]), NonBlank(Reordered(z));
    assert r[|a|] == z[v] && r[|a| + 1] == z[t];
    assert PlaylistOrder.KindAt(r, |a|, Version) && PlaylistOrder.KindAt(r, |a| + 1, Target);
  }

  /** What a header that ends in VERSION makes of a playlist: the one TARGETDURATION stands behind a date. */
  lemma ClosedOnce(h: seq<string>, es: seq<Segment>, cfg: Settings, cal: Calendar, firstMs: int, s: Range)
    returns (x: seq<string>, date: string, t: string, b: seq<string>)
    requires PlaylistOk(h, es) && es != [] && EndsInVersion(h) && OneTarget(h) && !HasLine(s)
    ensures RewriteLines(h + MediaLines(es), cfg, cal, firstMs, s) == x + [date, t] + b
    ensures KindOf(date) == Date && KindOf(t) == Target
    ensures forall l | l in x :: KindOf(l) != Target
    ensures forall l | l in b :: KindOf(l) != Target && KindOf(l) != Version
    ensures HasAllThree(x + [date, t] + b)
  {
    hide KindOf, Arranged, Reordered, MediaLines, OutSegments, FullHeader;
    hide NonBlank, AllOk, AllBefore, HasLine, Injected;
    hide EndsInVersion, OneTarget, LastOf, HasKind;
    var out := OutSegments(es, cfg, cal, firstMs);
    var f, m := FullHeader(h, cfg), MediaLines(out);
    ArrangedDoc(h, es, cfg, cal, firstMs);
    NothingInjected(Arranged(h + MediaLines(es), cfg, cal, firstMs), s, cal.parse);
    EndsInVersionIff(h, cfg);
    OneTargetFull(h, cfg);
    PlaylistOrder.OutBefore(es, cfg, cal, firstMs);
    StartsWithDate(out);
    MediaKinds(out);
    var y := ClosedReorder(f, m);
    var td := f[LastOf(f, Target)];
    x, date, t, b := NonBlank(y), m[0], td, m[1..];
    KindIff("");
    NonBlankConcat(y + [m[0], td], m[1..]);
    NonBlankConcat(y, [m[0], td]);
    NonBlankId([m[0], td]);
    NonBlankMember(y);
    MediaNonBlank(out);
    NonBlankId(m[1..]);
    HasKindIn([date, t] + b, t, Target);
    ClosedHasAllThree(f, y, x, [date, t] + b);
    assert x + [date, t] + b == x + ([date, t] + b);
  }

  lemma StartsWithDate(es: seq<Segment>)
    requires es != [] && AllOk(es) && AllBefore(es)
    ensures MediaLines(es) != [] && KindOf(MediaLines(es)[0]) == Date
  {
    hide KindOf;
    assert es[0] in es;
  }

  lemma ClosedReorder(f: seq<string>, m: seq<string>) returns (y: seq<string>)
    requires EndsInVersion(f) && OneTarget(f) && m != [] && forall l | l in m :: IsSegmentKind(KindOf(l))
    ensures 0 <= LastOf(f, Target) < |f| && KindOf(f[LastOf(f, Target)]) == Target
    ensures Reordered(f + m) == y + [m[0], f[LastOf(f, Target)]] + m[1..]
    ensures forall l | l in y :: l in f && KindOf(l) != Target
    ensures forall l | l in f && KindOf(l) != Target :: l in y
  {
    hide KindOf, LastOf, HasKind, Moved;
    LastOfDoc(f, m, Version);
    LastOfDoc(f, m, Target);
    LastOfDoc(f, m, MediaSequence);
    LastIsVersion(f);
    var t := LastOf(f, Target);
    MovedBehind(f, m, t);
    y := f[..t] + f[t + 1..];
    OneTargetRest(f, t);
  }

  lemma OneTargetRest(f: seq<string>, t: nat)
    requires OneTarget(f) && t < |f| && KindOf(f[t]) == Target
    ensures forall l | l in f[..t] + f[t + 1..] :: l in f && KindOf(l) != Target
    ensures forall l | l in f && KindOf(l) != Target :: l in f[..t] + f[t + 1..]
  {
    hide KindOf;
    assert f == f[..t] + [f[t]] + f[t + 1..];
  }

  lemma ClosedHasAllThree(f: seq<string>, y: seq<string>, x: seq<string>, b: seq<string>)
    requires EndsInVersion(f)
    requires forall l | l in f && KindOf(l) != Target :: l in y
    requires forall l :: l in x <==> l in y && l != ""
    requires HasKind(b, Target)
    ensures HasAllThree(x + b)
  {
    hide KindOf, HasKind;
    LastIsVersion(f);
    KindIff("");
    var v := HasKindMember(f, Version);
    var m := HasKindMember(f, MediaSequence);
    HasKindIn(x, v, Version);
    HasKindIn(x, m, MediaSequence);
    HasKindConcat(x, b, Version);
    HasKindConcat(x, b, Target);
    HasKindConcat(x, b, MediaSequence);
  }

  lemma ClosedVersionFirst(x: seq<string>, date: string, t: string, b: seq<string>)
    requires KindOf(date) == Date && KindOf(t) == Target
    requires forall l | l in x :: KindOf(l) != Target
    requires forall l | l in b :: KindOf(l) != Target && KindOf(l) != Version
    ensures VersionFirst(x + [date, t] + b) && !HasPair(x + [date, t] + b) && HasKind(x + [date, t] + b, Date)
  {
    hide KindOf;
    var lines := x + [date, t] + b;
    assert forall i | 0 <= i < |x| :: lines[i] in x;
    assert forall i | |x| + 2 <= i < |lines| :: lines[i] in b;
    assert lines[|x|] == date && lines[|x| + 1] == t;
  }

  /** Such a playlist never settles: the second rewrite puts TARGETDURATION behind VERSION. */
  lemma ClosedChanges(h: seq<string>, es: seq<Segment>, cfg: Settings, cal: Calendar,
                      firstMs: int, again: int, s: Range)
    requires PlaylistOk(h, es) && es != [] && EndsInVersion(h) && OneTarget(h) && !HasLine(s)
    ensures var once := RewriteLines(h + MediaLines(es), cfg, cal, firstMs, s);
            RewriteLines(once, cfg, cal, again, s) != once
    ensures !Settles(h)
  {
    hide KindOf, RewriteLines, VersionFirst, HasAllThree, HasKind, HasPair, MediaLines, PlaylistOk, OneTarget, HasLine;
    var x, date, t, b := ClosedOnce(h, es, cfg, cal, firstMs, s);
    ClosedVersionFirst(x, date, t, b);
    RewriteMakesPair(x + [date, t] + b, cfg, cal, again, s);
    ClosedNotSettled(h);
  }

  lemma ClosedNotSettled(h: seq<string>)
    requires EndsInVersion(h)
    ensures !Settles(h)
  {
    hide KindOf, HasKind, LastOf;
    LastIsVersion(h);
  }

  // ---------- the whole playlist ----------

  lemma SameHead(a: seq<string>, b: seq<string>, m: seq<string>)
    ensures a + m == b + m <==> a == b
  {
    if a + m == b + m {
      assert |a| == |b|;
      assert (a + m)[..|a|] == a && (b + m)[..|b|] == b;
    }
  }

  lemma HeaderAgain(h: seq<string>, cfg: Settings)
    ensures ResponseHeader(ResponseHeader(h, cfg), cfg) == Reordered(ResponseHeader(h, cfg))
  {
    hide KindOf, ResponseHeader, Upgraded, Inserted, Reordered, NonBlank, FullHeader;
    var r := ResponseHeader(h, cfg);
    UpgradeStays(h, cfg);
    InsertStays(h, cfg);
    FullHeaderIs(r, cfg);
    ResponseHeaderIs(r, cfg);
    ResponseHeaderMembers(h, cfg);
    ReorderedMembers(r);
    NonBlankId(Reordered(r));
  }

  /** For every playlist with at most one TARGETDURATION, while no break is set: a second rewrite changes nothing,
      whatever the clock says, if and only if VERSION comes before TARGETDURATION, or the line behind the last
      VERSION is one that the rewrite drops, or a tag is missing. */
  lemma RewriteTwiceIff(h: seq<string>, es: seq<Segment>, cfg: Settings, cal: Calendar,
                        firstMs: int, again: int, s: Range)
    requires PlaylistOk(h, es) && OneTarget(h) && CalendarOk(cal) && !HasLine(s)
    requires es != [] || !EndsInVersion(h)
    ensures var once := RewriteLines(h + MediaLines(es), cfg, cal, firstMs, s);
            RewriteLines(once, cfg, cal, again, s) == once <==> Settles(h)
  {
    hide KindOf, RewriteLines, ResponseHeader, OutSegments, EndsInVersion, OneTarget, CalendarOk, HasLine, MediaLines;
    hide SegmentOk, Settles, SettlesFull, Reordered, FullHeader;
    if EndsInVersion(h) {
      ClosedChanges(h, es, cfg, cal, firstMs, again, s);
    } else {
      var out, r := OutSegments(es, cfg, cal, firstMs), ResponseHeader(h, cfg);
      HeaderSettlesIff(h, cfg);
      SettlesFullIff(h, cfg);
      PlainResponse(h, es, cfg, cal, firstMs, s);
      PlaylistIdempotence.OutBefore(h, es, cfg, cal, firstMs);
      PlainResponse(r, out, cfg, cal, again, s);
      SegmentsStay(h, es, cfg, cal, firstMs, again);
      HeaderAgain(h, cfg);
      SameHead(Reordered(r), r, MediaLines(out));
    }
  }
}
