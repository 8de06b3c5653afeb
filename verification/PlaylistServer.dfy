/** The rewrite as the server runs it: a line vector edited in place by insert, swap and erase, and the
    anchor that survives from request to request. */
module PlaylistServer {
  import opened Text
  import opened PlaylistLines
  import opened PdtAnchor
  import opened BreakState
  import opened DateRange
  import opened Playlist
  import opened PlaylistShape
  import opened PlaylistIdempotence

  // ---------- header ----------

  lemma LastBelowStep(lines: seq<string>, k: Kind, i: nat)
    requires i < |lines|
    ensures LastBelow(lines, k, i + 1) == if KindOf(lines[i]) == k then i else LastBelow(lines, k, i)
  {
  }

  lemma HasKindStep(lines: seq<string>, k: Kind, i: nat)
    requires i < |lines|
    ensures HasKind(lines[..i + 1], k) <==> HasKind(lines[..i], k) || KindOf(lines[i]) == k
  {
    hide KindOf;
    assert lines[..i + 1] == lines[..i] + [lines[i]];
    HasKindConcat(lines[..i], [lines[i]], k);
    if HasKind([lines[i]], k) { assert KindOf([lines[i]][0]) == k; }
    if KindOf(lines[i]) == k { HasKindOne(lines[i], k); }
  }

  method RewriteTag(line: string, cfg: Settings) returns (l: string)
    ensures l == UpgradeLine(line, cfg)
  {
    hide KindOf, StartsWith, UpgradeLine, IntToString;
    UpgradeTests(line, cfg);
    l := line;
    if StartsWith(l, VERSION) { l := VERSION + "6"; }
    if StartsWith(l, TARGET) { l := TARGET + IntToString(cfg.segSecs); }
    if l == CACHE_YES { l := ""; }
  }

  method UpgradeHeader(lines: seq<string>, cfg: Settings)
    returns (plines: seq<string>, hasIndep: bool, hasStart: bool, mediaSeqIdx: int)
    ensures plines == Upgraded(lines, cfg)
    ensures hasIndep == HasKind(plines, Independent) && hasStart == HasKind(plines, Start)
    ensures mediaSeqIdx == LastOf(plines, MediaSequence)
  {
    hide KindOf, StartsWith, UpgradeLine, HasKind, LastBelow, LastOf;
    plines, hasIndep, hasStart, mediaSeqIdx := lines, false, false, -1;
    ghost var up := Upgraded(lines, cfg);
    NothingYet(up);
    for i := 0 to |lines|
      invariant plines == up[..i] + lines[i..]
      invariant hasIndep == HasKind(up[..i], Independent) && hasStart == HasKind(up[..i], Start)
      invariant mediaSeqIdx == LastBelow(up, MediaSequence, i)
    {
      assert plines[i] == lines[i];
      var l := RewriteTag(plines[i], cfg);
      plines := plines[i := l];
      KindIff(l);
      HasKindStep(up, Independent, i);
      HasKindStep(up, Start, i);
      LastBelowStep(up, MediaSequence, i);
      if l == INDEPENDENT { hasIndep := true; }
      if StartsWith(l, START) { hasStart := true; }
      if StartsWith(l, MEDIA_SEQUENCE) { mediaSeqIdx := i; }
      assert plines == up[..i + 1] + lines[i + 1..];
    }
    assert up[..|lines|] == up;
    LastOfIs(up, MediaSequence);
  }

  lemma NothingYet(up: seq<string>)
    ensures !HasKind(up[..0], Independent) && !HasKind(up[..0], Start) && LastBelow(up, MediaSequence, 0) == -1
  {
  }

  lemma LastOfIs(lines: seq<string>, k: Kind)
    ensures LastOf(lines, k) == LastBelow(lines, k, |lines|)
  {
  }

  /** The three rewriting tests of the source, one after the other, amount to UpgradeLine. */
  lemma UpgradeTests(l: string, cfg: Settings)
    ensures var a := if StartsWith(l, VERSION) then VERSION + "6" else l;
            var b := if StartsWith(a, TARGET) then TARGET + IntToString(cfg.segSecs) else a;
            var c := if b == CACHE_YES then "" else b;
            c == UpgradeLine(l, cfg)
  {
    hide KindOf, IntToString;
    KindIff(l);
    KindIff(VERSION + "6");
    KindIff(TARGET + IntToString(cfg.segSecs));
  }

  method InsertTags(lines: seq<string>, hasIndep: bool, hasStart: bool, mediaSeqIdx: int, cfg: Settings)
    returns (plines: seq<string>)
    requires hasIndep == HasKind(lines, Independent) && hasStart == HasKind(lines, Start)
    requires mediaSeqIdx == LastOf(lines, MediaSequence)
    ensures plines == Inserted(lines, cfg)
  {
    hide KindOf, HasKind, StartLine;
    plines := lines;
    if mediaSeqIdx >= 0 {
      var ins: seq<string> := [];
      if !hasIndep { ins := ins + [INDEPENDENT]; }
      if !hasStart { ins := ins + [StartLine(cfg)]; }
      assert ins == MissingTags(lines, cfg);
      plines := plines[..mediaSeqIdx + 1] + ins + plines[mediaSeqIdx + 1..];
    }
  }

  // ---------- dates ----------

  method NormalizeDates(lines: seq<string>, cal: Calendar) returns (plines: seq<string>, hasAnyPdt: bool)
    ensures plines == Normalized(lines, cal) && hasAnyPdt == HasKind(plines, Date)
  {
    hide KindOf, StartsWith, DateText, DateLine, NormalizeLine, HasKind;
    plines, hasAnyPdt := lines, false;
    ghost var nl := Normalized(lines, cal);
    NoDateYet(nl);
    for i := 0 to |lines|
      invariant plines == nl[..i] + lines[i..]
      invariant hasAnyPdt == HasKind(nl[..i], Date)
    {
      var ln := plines[i];
      assert ln == lines[i];
      KindIff(ln);
      NormalizeLineKind(ln, cal);
      HasKindStep(nl, Date, i);
      if StartsWith(ln, DATE) {
        hasAnyPdt := true;
        plines := plines[i := DateLine(cal.toUtcZ(DateText(ln)))];
      }
      assert plines == nl[..i + 1] + lines[i + 1..];
    }
    assert nl[..|lines|] == nl;
  }

  lemma NoDateYet(nl: seq<string>)
    ensures !HasKind(nl[..0], Date)
  {
  }

  /** The indices of the EXTINF lines and the numbers found behind them. */
  method CollectSegments(lines: seq<string>) returns (extIdx: seq<nat>, extSeq: seq<int>)
    ensures extIdx == InfFrom(lines, 0) && |extSeq| == |extIdx|
    ensures extIdx != [] ==> extSeq[0] == FirstNumber(lines)
  {
    hide KindOf, StartsWith, SegmentNumber;
    extIdx, extSeq := [], [];
    for i := 0 to |lines|
      invariant extIdx + InfFrom(lines, i) == InfFrom(lines, 0)
      invariant |extSeq| == |extIdx|
      invariant forall k | 0 <= k < |extIdx| ::
                  extSeq[k] == if extIdx[k] + 1 < |lines| then SegmentNumber(lines[extIdx[k] + 1]) else -1
    {
      KindIff(lines[i]);
      if StartsWith(lines[i], EXTINF) {
        assert extIdx + ([i] + InfFrom(lines, i + 1)) == extIdx + [i] + InfFrom(lines, i + 1);
        extIdx := extIdx + [i];
        extSeq := extSeq + [if i + 1 < |lines| then SegmentNumber(lines[i + 1]) else -1];
      } else {
        assert [] + InfFrom(lines, i + 1) == InfFrom(lines, i + 1);
      }
    }
  }

  lemma InfFromStep(lines: seq<string>, pos: nat)
    requires pos <= |lines|
    ensures InfFrom(lines, pos) ==
            if pos == |lines| then []
            else if KindOf(lines[pos]) == Inf then [pos] + InfFrom(lines, pos + 1)
            else InfFrom(lines, pos + 1)
  {
    hide KindOf;
  }

  /** The next EXTINF line from `pos` on. */
  lemma {:induction false} InfFromHead(lines: seq<string>, pos: nat)
    requires pos <= |lines|
    ensures var r := InfFrom(lines, pos);
            if r == [] then forall i | pos <= i < |lines| :: KindOf(lines[i]) != Inf
            else pos <= r[0] < |lines| && KindOf(lines[r[0]]) == Inf && r[1..] == InfFrom(lines, r[0] + 1) &&
                 forall i | pos <= i < r[0] :: KindOf(lines[i]) != Inf
    decreases |lines| - pos
  {
    hide KindOf, InfFrom;
    InfFromStep(lines, pos);
    if pos < |lines| {
      if KindOf(lines[pos]) == Inf {
        assert ([pos] + InfFrom(lines, pos + 1))[1..] == InfFrom(lines, pos + 1);
      } else {
        InfFromHead(lines, pos + 1);
      }
    }
  }

  /** One insertion: the lines up to the next EXTINF are copied, then come its date and the line itself. */
  lemma StampedNext(lines: seq<string>, pos: nat, e: nat, ms: int, cfg: Settings, cal: Calendar)
    requires pos <= e < |lines| && KindOf(lines[e]) == Inf
    requires forall i | pos <= i < e :: KindOf(lines[i]) != Inf
    ensures Stamped(lines[pos..], ms, cfg, cal)
         == lines[pos..e] + [DateLine(cal.format(ms)), lines[e]] + Stamped(lines[e + 1..], ms + StepMs(cfg), cfg, cal)
  {
    hide KindOf, DateLine, StepMs;
    assert lines[pos..] == lines[pos..e] + lines[e..];
    forall l | l in lines[pos..e] ensures KindOf(l) != Inf {
    }
    StampedSkip(lines[pos..e], lines[e..], ms, cfg, cal);
    assert lines[e..][1..] == lines[e + 1..];
  }

  lemma Assoc(a: seq<string>, b: seq<string>, c: seq<string>)
    ensures a + (b + c) == a + b + c
  {
  }

  lemma InsertedBefore(done: seq<string>, lines: seq<string>, pos: nat, e: nat, d: string)
    requires pos <= e < |lines|
    ensures var w, at := done + lines[pos..], |done| + (e - pos);
            w[..at] + [d] + w[at..] == done + (lines[pos..e] + [d, lines[e]]) + lines[e + 1..]
  {
    var w, at := done + lines[pos..], |done| + (e - pos);
    assert w[..at] == done + lines[pos..e];
    assert w[at..] == [lines[e]] + lines[e + 1..];
  }

  ghost predicate IsNextInf(lines: seq<string>, pos: nat, e: nat) {
    pos <= e < |lines| && KindOf(lines[e]) == Inf && forall i | pos <= i < e :: KindOf(lines[i]) != Inf
  }

  lemma NextInf(lines: seq<string>, extIdx: seq<nat>, pos: nat, k: nat)
    requires pos <= |lines| && k < |extIdx| && InfFrom(lines, pos) == extIdx[k..]
    ensures var e := extIdx[k];
            pos <= e < |lines| && IsNextInf(lines, pos, e) && InfFrom(lines, e + 1) == extIdx[k + 1..]
  {
    hide KindOf, InfFrom;
    InfFromHead(lines, pos);
    assert extIdx[k..][0] == extIdx[k] && extIdx[k..][1..] == extIdx[k + 1..];
  }

  lemma StampStep(done: seq<string>, lines: seq<string>, pos: nat, e: nat, ms: int, cfg: Settings, cal: Calendar)
    requires pos <= e < |lines| && IsNextInf(lines, pos, e)
    ensures var w, at, date := done + lines[pos..], |done| + (e - pos), DateLine(cal.format(ms));
            var more := done + (lines[pos..e] + [date, lines[e]]);
            |more| == at + 2 && w[..at] + [date] + w[at..] == more + lines[e + 1..] &&
            done + Stamped(lines[pos..], ms, cfg, cal) == more + Stamped(lines[e + 1..], ms + StepMs(cfg), cfg, cal)
  {
    hide KindOf, DateLine, StepMs, Stamped;
    var date := DateLine(cal.format(ms));
    StampedNext(lines, pos, e, ms, cfg, cal);
    InsertedBefore(done, lines, pos, e, date);
    Assoc(done, lines[pos..e] + [date, lines[e]], Stamped(lines[e + 1..], ms + StepMs(cfg), cfg, cal));
  }

  /** The vector so far: `filled` lines done, the rest of `lines` from `pos` on still to stamp, `idx` its EXTINFs. */
  ghost predicate Halfway(plines: seq<string>, filled: nat, lines: seq<string>, pos: nat, idx: seq<nat>, cur: int,
                          all: seq<string>, cfg: Settings, cal: Calendar) {
    filled <= |plines| && pos <= |lines| && plines[filled..] == lines[pos..] && idx == InfFrom(lines, pos) &&
    plines[..filled] + Stamped(lines[pos..], cur, cfg, cal) == all
  }

  lemma HalfwayStart(lines: seq<string>, firstMs: int, cfg: Settings, cal: Calendar)
    ensures Halfway(lines, 0, lines, 0, InfFrom(lines, 0), firstMs, Stamped(lines, firstMs, cfg, cal), cfg, cal)
  {
    hide Stamped, InfFrom;
    assert lines[0..] == lines && lines[..0] + Stamped(lines, firstMs, cfg, cal) == Stamped(lines, firstMs, cfg, cal);
  }

  lemma HalfwayStep(plines: seq<string>, filled: nat, lines: seq<string>, pos: nat, idx: seq<nat>, cur: int,
                    all: seq<string>, cfg: Settings, cal: Calendar)
    requires Halfway(plines, filled, lines, pos, idx, cur, all, cfg, cal) && idx != []
    ensures pos <= idx[0] < |lines| && filled + (idx[0] - pos) <= |plines|
    ensures var at := filled + (idx[0] - pos);
            Halfway(plines[..at] + [DateLine(cal.format(cur))] + plines[at..], at + 2, lines, idx[0] + 1, idx[1..],
                    cur + StepMs(cfg), all, cfg, cal)
  {
    hide KindOf, DateLine, StepMs, Stamped, InfFrom, IsNextInf;
    assert idx[0..] == idx;
    NextInf(lines, idx, pos, 0);
    var done := plines[..filled];
    assert plines == done + lines[pos..];
    StampStep(done, lines, pos, idx[0], cur, cfg, cal);
  }

  method SynthesizeDates(lines: seq<string>, extIdx: seq<nat>, firstMs: int, cfg: Settings, cal: Calendar)
    returns (plines: seq<string>)
    requires extIdx == InfFrom(lines, 0)
    ensures plines == Stamped(lines, firstMs, cfg, cal)
  {
    hide *;
    plines := lines;
    var inserted := 0;
    var cur := firstMs;
    ghost var all, pos := Stamped(lines, firstMs, cfg, cal), 0;
    HalfwayStart(lines, firstMs, cfg, cal);
    assert extIdx[0..] == extIdx;
    for k := 0 to |extIdx|
      invariant inserted == k && Halfway(plines, pos + inserted, lines, pos, extIdx[k..], cur, all, cfg, cal)
    {
      HalfwayStep(plines, pos + inserted, lines, pos, extIdx[k..], cur, all, cfg, cal);
      assert extIdx[k..][0] == extIdx[k] && extIdx[k..][1..] == extIdx[k + 1..];
      var at := extIdx[k] + inserted;
      plines := plines[..at] + [DateLine(cal.format(cur))] + plines[at..];
      inserted := inserted + 1;
      cur := cur + StepMs(cfg);
      pos := extIdx[k] + 1;
    }
    HalfwayEnd(plines, pos + inserted, lines, pos, extIdx[|extIdx|..], cur, all, cfg, cal);
  }

  lemma HalfwayEnd(plines: seq<string>, filled: nat, lines: seq<string>, pos: nat, idx: seq<nat>, cur: int,
                   all: seq<string>, cfg: Settings, cal: Calendar)
    requires Halfway(plines, filled, lines, pos, idx, cur, all, cfg, cal) && idx == []
    ensures plines == all
  {
    hide Stamped, InfFrom;
    NothingToStamp(lines, pos, cur, cfg, cal);
    assert plines == plines[..filled] + plines[filled..];
  }

  lemma NothingToStamp(lines: seq<string>, pos: nat, ms: int, cfg: Settings, cal: Calendar)
    requires pos <= |lines| && InfFrom(lines, pos) == []
    ensures Stamped(lines[pos..], ms, cfg, cal) == lines[pos..]
  {
    hide KindOf, Stamped, InfFrom;
    InfFromHead(lines, pos);
    NoInfNoStamp(lines[pos..], ms, cfg, cal);
  }

  lemma NoInfNoStamp(rest: seq<string>, ms: int, cfg: Settings, cal: Calendar)
    requires forall i | 0 <= i < |rest| :: KindOf(rest[i]) != Inf
    ensures Stamped(rest, ms, cfg, cal) == rest
  {
    hide KindOf, DateLine, Stamped;
    assert rest + [] == rest;
    StampedSkip(rest, [], ms, cfg, cal);
    StampedNothing(ms, cfg, cal);
  }

  // ---------- order ----------

  lemma SwappedAt(plines: seq<string>, i: nat, cfg: Settings)
    requires i < |plines|
    ensures Swapped(plines[i..], cfg) ==
            if KindOf(plines[i]) != Inf then [plines[i]] + Swapped(plines[i + 1..], cfg)
            else if i + 1 < |plines| && KindOf(plines[i + 1]) == Date
            then [plines[i + 1], InfLine(cfg)] + Swapped(plines[i + 2..], cfg)
            else [InfLine(cfg)] + Swapped(plines[i + 1..], cfg)
  {
    hide KindOf, InfLine;
    var r := plines[i..];
    assert r[1..] == plines[i + 1..];
    if i + 1 < |plines| { assert r[2..] == plines[i + 2..]; }
  }

  method SwapDates(lines: seq<string>, cfg: Settings) returns (plines: seq<string>)
    ensures plines == Swapped(lines, cfg)
  {
    hide KindOf, StartsWith, InfLine, Swapped;
    plines := lines;
    var i := 0;
    while i < |plines|
      invariant i <= |plines| && |plines| == |lines|
      invariant forall k | i <= k < |lines| :: plines[k] == lines[k]
      invariant plines[..i] + Swapped(lines[i..], cfg) == Swapped(lines, cfg)
    {
      SwappedAt(lines, i, cfg);
      KindIff(plines[i]);
      ghost var before, start := plines, i;
      ghost var step := [lines[i]];
      if StartsWith(plines[i], EXTINF) {
        step := [InfLine(cfg)];
        if i + 1 < |plines| { KindIff(plines[i + 1]); }
        if i + 1 < |plines| && StartsWith(plines[i + 1], DATE) {
          step := [lines[i + 1], InfLine(cfg)];
          plines := plines[i := plines[i + 1]][i + 1 := plines[i]];
          i := i + 1;
        }
        plines := plines[i := InfLine(cfg)];
      }
      i := i + 1;
      assert plines[start..i] == step;
      assert plines[..i] == before[..start] + plines[start..i];
      Assoc(before[..start], step, Swapped(lines[i..], cfg));
    }
    SwappedNothing(cfg);
    assert lines[i..] == [];
  }

  lemma SwappedNothing(cfg: Settings)
    ensures Swapped([], cfg) == []
  {
  }

  /** The last line of each of the three tags. */
  method LastTags(lines: seq<string>) returns (idxVer: int, idxTd: int, idxMs: int)
    ensures idxVer == LastOf(lines, Version) && idxTd == LastOf(lines, Target) && idxMs == LastOf(lines, MediaSequence)
  {
    hide KindOf, StartsWith, LastBelow, LastOf;
    idxVer, idxTd, idxMs := -1, -1, -1;
    FirstIndices(lines);
    for i := 0 to |lines|
      invariant idxVer == LastBelow(lines, Version, i) && idxTd == LastBelow(lines, Target, i)
      invariant idxMs == LastBelow(lines, MediaSequence, i)
    {
      KindIff(lines[i]);
      LastBelowStep(lines, Version, i);
      LastBelowStep(lines, Target, i);
      LastBelowStep(lines, MediaSequence, i);
      if StartsWith(lines[i], VERSION) { idxVer := i; }
      else if StartsWith(lines[i], TARGET) { idxTd := i; }
      else if StartsWith(lines[i], MEDIA_SEQUENCE) { idxMs := i; }
    }
    LastOfIs(lines, Version);
    LastOfIs(lines, Target);
    LastOfIs(lines, MediaSequence);
  }

  method ReorderHeader(lines: seq<string>) returns (plines: seq<string>)
    requires !EndsInVersion(lines)
    ensures plines == Reordered(lines)
  {
    hide KindOf, HasKind, LastOf, Reordered, EndsInVersion;
    plines := lines;
    var idxVer, idxTd, idxMs := LastTags(plines);
    ReorderIs(lines);
    if idxVer >= 0 && idxTd >= 0 && idxMs >= 0 {
      var tdLine := plines[idxTd];
      plines := plines[..idxTd] + plines[idxTd + 1..];
      if idxTd < idxMs { idxMs := idxMs - 1; }
      plines := plines[..idxVer + 1] + [tdLine] + plines[idxVer + 1..];
    }
  }

  lemma ReorderIs(lines: seq<string>)
    requires !EndsInVersion(lines)
    ensures var v, t, m := LastOf(lines, Version), LastOf(lines, Target), LastOf(lines, MediaSequence);
            if v >= 0 && t >= 0 && m >= 0 then v + 1 < |lines| && Reordered(lines) == Moved(lines, t, v + 1)
            else Reordered(lines) == lines
  {
    hide KindOf, HasKind, LastBelow, Moved;
  }

  lemma FirstIndices(lines: seq<string>)
    ensures LastBelow(lines, Version, 0) == -1 && LastBelow(lines, Target, 0) == -1
    ensures LastBelow(lines, MediaSequence, 0) == -1
  {
  }

  // ---------- VERSION last ----------

  /** Nothing before the tag reordering moves VERSION to the end. */
  lemma NormalizedEnd(lines: seq<string>, cal: Calendar)
    ensures EndsInVersion(Normalized(lines, cal)) ==> EndsInVersion(lines)
  {
    hide KindOf, NormalizeLine;
    var n := Normalized(lines, cal);
    forall i | 0 <= i < |lines| ensures KindOf(n[i]) == KindOf(lines[i]) { NormalizeLineKind(lines[i], cal); }
  }

  lemma EndsFrom(a: seq<string>, b: seq<string>)
    requires EndsInVersion(a) && b != [] && a[|a| - 1] == b[|b| - 1]
    requires forall l | l in a && (KindOf(l) == Target || KindOf(l) == MediaSequence) :: l in b
    ensures EndsInVersion(b)
  {
    hide KindOf, HasKind;
    var t := HasKindMember(a, Target);
    var m := HasKindMember(a, MediaSequence);
    HasKindIn(b, t, Target);
    HasKindIn(b, m, MediaSequence);
  }

  lemma {:induction false} StampedEnd(lines: seq<string>, ms: int, cfg: Settings, cal: Calendar)
    ensures var r := Stamped(lines, ms, cfg, cal);
            (forall l | l in r :: l in lines || KindOf(l) == Date) &&
            (lines == [] ==> r == []) &&
            (lines != [] ==> r != [] && r[|r| - 1] == lines[|lines| - 1])
  {
    hide KindOf, DateLine, StepMs;
    if lines != [] {
      MadeLineKinds(cfg, cal.format(ms));
      StampedEnd(lines[1..], ms, cfg, cal);
      StampedEnd(lines[1..], ms + StepMs(cfg), cfg, cal);
    }
  }

  lemma {:induction false} SwappedEnd(lines: seq<string>, cfg: Settings)
    ensures var r := Swapped(lines, cfg);
            (forall l | l in r :: l in lines || KindOf(l) == Inf) &&
            (lines == [] ==> r == []) &&
            (lines != [] ==> r != [] && (r[|r| - 1] == lines[|lines| - 1] || KindOf(r[|r| - 1]) == Inf))
    decreases |lines|
  {
    hide KindOf, InfLine, Swapped;
    MadeLineKinds(cfg, "");
    if lines == [] {
      SwappedNothing(cfg);
    } else {
      SwappedAt(lines, 0, cfg);
      assert lines[0..] == lines;
      SwappedEnd(lines[1..], cfg);
      if |lines| > 1 { SwappedEnd(lines[2..], cfg); }
    }
  }

  lemma ReorderIsInRange(lines: seq<string>, cfg: Settings, cal: Calendar, ms: int)
    requires !EndsInVersion(lines)
    ensures var p := Prepared(lines, cfg, cal);
            !EndsInVersion(Swapped(p, cfg)) && !EndsInVersion(Swapped(Stamped(p, ms, cfg, cal), cfg))
  {
    hide KindOf, HasKind, Swapped, Stamped, Normalized, Upgraded, Inserted;
    EndsInVersionIff(lines, cfg);
    var p := Prepared(lines, cfg, cal);
    NormalizedEnd(Inserted(Upgraded(lines, cfg), cfg), cal);
    FullHeaderIs(lines, cfg);
    var d := Stamped(p, ms, cfg, cal);
    StampedEnd(p, ms, cfg, cal);
    SwappedEnd(p, cfg);
    SwappedEnd(d, cfg);
    if EndsInVersion(Swapped(p, cfg)) { EndsFrom(Swapped(p, cfg), p); }
    if EndsInVersion(Swapped(d, cfg)) {
      EndsFrom(Swapped(d, cfg), d);
      EndsFrom(d, p);
    }
  }

  // ---------- one request ----------

  lemma InfFromHas(lines: seq<string>)
    ensures InfFrom(lines, 0) != [] <==> HasKind(lines, Inf)
  {
    hide KindOf;
    InfFromHead(lines, 0);
  }

  /** The playlist text the server sends for a playlist file. The anchor moves only when the file has
      segments and none of them is dated. */
  method Serve(anchor: PdtAnchorCell, data: string, cfg: Settings, cal: Calendar, s: Range, nowMs: int, laterMs: int)
    returns (response: string)
    requires !EndsInVersion(SplitLines(data))
    modifies anchor
    ensures var lines := SplitLines(data);
            anchor.Value() == AnchorAfter(old(anchor.Value()), lines, cfg, cal, nowMs) &&
            response == JoinLines(RewriteLines(lines, cfg, cal, FirstMsOf(anchor.Value(), lines, cfg, cal, laterMs), s))
  {
    hide KindOf, HasKind, Upgraded, Inserted, Normalized, Stamped, Swapped, Reordered, Injected, NonBlank, JoinLines;
    hide InfFrom, Next, FirstStamp, SegmentNumber, FirstNumber, LastOf, SplitLines, EndsInVersion;
    var plines := ReadLines(data);
    ghost var lines := plines;
    var hasIndep, hasStart, mediaSeqIdx, hasAnyPdt;
    plines, hasIndep, hasStart, mediaSeqIdx := UpgradeHeader(plines, cfg);
    plines := InsertTags(plines, hasIndep, hasStart, mediaSeqIdx, cfg);
    plines, hasAnyPdt := NormalizeDates(plines, cal);
    ghost var p := plines;
    ghost var firstMs := FirstMsOf(anchor.Value(), lines, cfg, cal, laterMs);
    if !hasAnyPdt {
      InfFromHas(plines);
      var extIdx, extSeq := CollectSegments(plines);
      if extIdx != [] {
        var first := anchor.Advance(extSeq[0], cfg.segSecs, nowMs, laterMs);
        firstMs := first;
        plines := SynthesizeDates(plines, extIdx, first, cfg, cal);
      } else {
        StampedWithout(plines, firstMs, cfg, cal);
      }
    }
    plines := SwapDates(plines, cfg);
    ReorderIsInRange(lines, cfg, cal, firstMs);
    plines := ReorderHeader(plines);
    plines := InjectDateRange(plines, s, cal.parse);
    response := WriteLines(plines);
  }

  lemma StampedWithout(lines: seq<string>, ms: int, cfg: Settings, cal: Calendar)
    requires !HasKind(lines, Inf)
    ensures Stamped(lines, ms, cfg, cal) == lines
  {
    hide KindOf, Stamped;
    NoInfNoStamp(lines, ms, cfg, cal);
  }

  // ---------- the same, as text ----------

  function RewriteText(data: string, cfg: Settings, cal: Calendar, firstMs: int, s: Range): string {
    JoinLines(RewriteLines(SplitLines(data), cfg, cal, firstMs, s))
  }

  lemma CleanNumber(n: int)
    ensures Clean(IntToString(n))
  {
    assert forall c | c in IntToString(n) :: c == '-' || IsDigit(c);
  }

  lemma CleanConcat(a: string, b: string)
    requires Clean(a) && Clean(b)
    ensures Clean(a + b)
  {
  }

  lemma PartsClean()
    ensures Clean(".000,") && Clean("TIME-OFFSET=") && Clean(",PRECISE=YES") && Clean(EXTINF) && Clean(START)
  {
  }

  lemma TagsClean()
    ensures Clean(INDEPENDENT) && Clean(TARGET)
  {
  }

  lemma VersionClean()
    ensures Clean(VERSION + "6")
  {
  }

  lemma MadeLinesClean(cfg: Settings)
    requires Clean(cfg.payload)
    ensures Clean(InfLine(cfg)) && Clean(StartLine(cfg)) && Clean(INDEPENDENT)
    ensures Clean(TARGET + IntToString(cfg.segSecs)) && Clean(VERSION + "6")
  {
    hide IntToString, Clean;
    PartsClean();
    TagsClean();
    VersionClean();
    CleanNumber(cfg.segSecs);
    CleanNumber(cfg.startOffset);
    var n, o := IntToString(cfg.segSecs), IntToString(cfg.startOffset);
    CleanConcat(n, ".000,");
    CleanConcat(n + ".000,", cfg.payload);
    CleanConcat(EXTINF, n + ".000," + cfg.payload);
    CleanConcat("TIME-OFFSET=", o);
    CleanConcat("TIME-OFFSET=" + o, ",PRECISE=YES");
    CleanConcat(START, "TIME-OFFSET=" + o + ",PRECISE=YES");
    CleanConcat(TARGET, n);
  }

  lemma EmptyClean()
    ensures Clean("")
  {
  }

  lemma DateTextClean(l: string)
    requires Clean(l)
    ensures Clean(DateText(l)) && Clean(DateLine(l))
  {
  }
}
