/** The worker's cue gate: a rate limit over a sliding window and a replay filter per cue, decided in one
    critical section. Times are milliseconds. */
module CueGate {

  datatype Limits = Limits(rateCount: int, windowMs: int, dedupeMs: int)

  function Clamp(v: int, lo: int, hi: int): int { if v < lo then lo else if v > hi then hi else v }

  /** The configured numbers, forced into range. */
  function LimitsOf(rateCount: int, rateWindowSec: int, dedupeSec: int): (lim: Limits)
    ensures LimitsOk(lim)
  {
    Limits(Clamp(rateCount, 1, 10000), 1000 * Clamp(rateWindowSec, 1, 3600), 1000 * Clamp(dedupeSec, 0, 86400))
  }

  function Distance(a: int, b: int): nat { if a < b then b - a else a - b }

  /** Each setting is used as it is if it is in its range, and otherwise the nearest one that is. */
  lemma LimitsAreNearest(rateCount: int, rateWindowSec: int, dedupeSec: int)
    ensures var lim := LimitsOf(rateCount, rateWindowSec, dedupeSec);
            1 <= lim.rateCount <= 10000 && 1000 <= lim.windowMs <= 3600000 && 0 <= lim.dedupeMs <= 86400000 &&
            (forall v | 1 <= v <= 10000 :: Distance(lim.rateCount, rateCount) <= Distance(v, rateCount)) &&
            (forall v | 1 <= v <= 3600 ::
               Distance(lim.windowMs, 1000 * rateWindowSec) <= 1000 * Distance(v, rateWindowSec)) &&
            (forall v | 0 <= v <= 86400 :: Distance(lim.dedupeMs, 1000 * dedupeSec) <= 1000 * Distance(v, dedupeSec))
  {
  }

  predicate LimitsOk(lim: Limits) { lim.rateCount >= 1 && lim.windowMs > 0 && lim.dedupeMs >= 0 }

  datatype Verdict = Pass | RateLimited | Duplicate

  datatype Gate = Gate(recent: seq<int>, byCue: map<string, int>)

  const EMPTY := Gate([], map[])

  function Prune(recent: seq<int>, floor: int): seq<int> {
    if recent != [] && recent[0] < floor then Prune(recent[1..], floor) else recent
  }

  function Step(g: Gate, lim: Limits, cue: string, now: int): (Gate, Verdict) {
    var r := Prune(g.recent, now - lim.windowMs);
    if |r| >= lim.rateCount then (Gate(r, g.byCue), RateLimited)
    else if cue in g.byCue && lim.dedupeMs > 0 && now - g.byCue[cue] < lim.dedupeMs then (Gate(r, g.byCue), Duplicate)
    else (Gate(r + [now], g.byCue[cue := now]), Pass)
  }

  class CueGateCell {
    var recentTimes: seq<int>
    var byCue: map<string, int>

    constructor ()
      ensures Value() == EMPTY
    {
      recentTimes, byCue := [], map[];
    }

    function Value(): Gate
      reads this
    {
      Gate(recentTimes, byCue)
    }

    method Admit(lim: Limits, cue: string, now: int) returns (v: Verdict)
      modifies this
      ensures (Value(), v) == Step(old(Value()), lim, cue, now)
    {
      var floor := now - lim.windowMs;
      while recentTimes != [] && recentTimes[0] < floor
        invariant Prune(recentTimes, floor) == Prune(old(recentTimes), floor) && byCue == old(byCue)
        decreases |recentTimes|
      {
        recentTimes := recentTimes[1..];
      }
      if |recentTimes| >= lim.rateCount { return RateLimited; }
      if cue in byCue && lim.dedupeMs > 0 && now - byCue[cue] < lim.dedupeMs { return Duplicate; }
      recentTimes := recentTimes + [now];
      byCue := byCue[cue := now];
      return Pass;
    }
  }

  // ---------- the ideal gate, over the whole history of passes ----------

  datatype Passage = Passage(cue: string, time: int)

  /** Times of the passages not earlier than `floor`, in order. */
  function Since(h: seq<Passage>, floor: int): seq<int> {
    if h == [] then []
    else Since(h[..|h| - 1], floor) + if h[|h| - 1].time >= floor then [h[|h| - 1].time] else []
  }

  ghost predicate SeenWithin(h: seq<Passage>, cue: string, now: int, ms: int) {
    exists p :: p in h && p.cue == cue && now - p.time < ms
  }

  /** What the settings ask for, said over everything that ever passed. */
  ghost function Ideal(h: seq<Passage>, lim: Limits, cue: string, now: int): Verdict {
    if |Since(h, now - lim.windowMs)| >= lim.rateCount then RateLimited
    else if lim.dedupeMs > 0 && SeenWithin(h, cue, now, lim.dedupeMs) then Duplicate
    else Pass
  }

  ghost predicate Sorted(h: seq<Passage>) {
    forall i, j | 0 <= i < j < |h| :: h[i].time <= h[j].time
  }

  ghost predicate NotAfter(h: seq<Passage>, now: int) { forall p | p in h :: p.time <= now }

  /** The last time each cue passed. */
  ghost predicate RemembersLast(byCue: map<string, int>, h: seq<Passage>) {
    (forall p | p in h :: p.cue in byCue && p.time <= byCue[p.cue]) &&
    (forall cue | cue in byCue :: Passage(cue, byCue[cue]) in h)
  }

  /** The gate holds exactly the recent part of the history, as of its last decision at `last`. */
  ghost predicate Represents(g: Gate, h: seq<Passage>, lim: Limits, last: int) {
    Sorted(h) && NotAfter(h, last) && g.recent == Since(h, last - lim.windowMs) && RemembersLast(g.byCue, h)
  }

  lemma {:induction false} PruneSince(h: seq<Passage>, old_: int, floor: int)
    requires Sorted(h) && old_ <= floor
    ensures Prune(Since(h, old_), floor) == Since(h, floor)
  {
    if h != [] {
      var init, last := h[..|h| - 1], h[|h| - 1];
      PruneSince(init, old_, floor);
      if last.time >= floor {
        PruneAppend(Since(init, old_), last.time, floor);
      } else {
        forall i | 0 <= i < |init| ensures init[i].time < floor { assert init[i] == h[i]; }
        AllOld(init, floor);
        PruneDrops(Since(h, old_), floor);
        SinceMembers(h, old_);
      }
    }
  }

  lemma {:induction false} PruneAppend(s: seq<int>, t: int, floor: int)
    requires t >= floor
    ensures Prune(s + [t], floor) == Prune(s, floor) + [t]
  {
    if s != [] && s[0] < floor {
      assert (s + [t])[1..] == s[1..] + [t];
      PruneAppend(s[1..], t, floor);
    }
  }

  lemma {:induction false} AllOld(h: seq<Passage>, floor: int)
    requires forall i | 0 <= i < |h| :: h[i].time < floor
    ensures Since(h, floor) == []
  {
    if h != [] { AllOld(h[..|h| - 1], floor); }
  }

  lemma {:induction false} SinceMembers(h: seq<Passage>, floor: int)
    ensures forall t | t in Since(h, floor) :: exists i | 0 <= i < |h| :: h[i].time == t
  {
    if h != [] {
      SinceMembers(h[..|h| - 1], floor);
      forall t | t in Since(h, floor) ensures exists i | 0 <= i < |h| :: h[i].time == t {
        if t in Since(h[..|h| - 1], floor) {
          var i :| 0 <= i < |h| - 1 && h[..|h| - 1][i].time == t;
          assert h[i].time == t;
        } else {
          assert h[|h| - 1].time == t;
        }
      }
    }
  }

  lemma {:induction false} PruneDrops(s: seq<int>, floor: int)
    ensures (forall t | t in s :: t < floor) ==> Prune(s, floor) == []
  {
    if s != [] && forall t | t in s :: t < floor {
      assert s[0] in s && forall t | t in s[1..] :: t in s;
      PruneDrops(s[1..], floor);
    }
  }

  function History(h: seq<Passage>, cue: string, now: int, v: Verdict): seq<Passage> {
    if v == Pass then h + [Passage(cue, now)] else h
  }

  lemma SeenIff(g: Gate, h: seq<Passage>, cue: string, now: int, ms: int)
    requires RemembersLast(g.byCue, h)
    ensures SeenWithin(h, cue, now, ms) <==> cue in g.byCue && now - g.byCue[cue] < ms
  {
    if cue in g.byCue { assert Passage(cue, g.byCue[cue]) in h; }
  }

  /** One decision: the gate decides as the ideal one, and still holds exactly the window. */
  lemma StepIsIdeal(g: Gate, h: seq<Passage>, lim: Limits, last: int, cue: string, now: int)
    requires Represents(g, h, lim, last) && last <= now && LimitsOk(lim)
    ensures var (g', v) := Step(g, lim, cue, now);
            v == Ideal(h, lim, cue, now) && Represents(g', History(h, cue, now, v), lim, now)
  {
    hide Since, Prune, SeenWithin;
    PruneSince(h, last - lim.windowMs, now - lim.windowMs);
    SeenIff(g, h, cue, now, lim.dedupeMs);
    SinceAppend(h, Passage(cue, now), now - lim.windowMs);
  }

  lemma SinceAppend(h: seq<Passage>, p: Passage, floor: int)
    ensures Since(h + [p], floor) == Since(h, floor) + if p.time >= floor then [p.time] else []
  {
    assert (h + [p])[..|h|] == h;
  }

  // ---------- runs ----------

  datatype Request = Request(cue: string, now: int)

  ghost predicate Monotone(rs: seq<Request>, from: int) {
    (forall i | 0 <= i < |rs| :: from <= rs[i].now) &&
    forall i, j | 0 <= i < j < |rs| :: rs[i].now <= rs[j].now
  }

  /** Gate and history after a run of requests. */
  function RunGate(g: Gate, lim: Limits, rs: seq<Request>): Gate {
    if rs == [] then g else Step(RunGate(g, lim, rs[..|rs| - 1]), lim, rs[|rs| - 1].cue, rs[|rs| - 1].now).0
  }

  function Passed(lim: Limits, rs: seq<Request>): seq<Passage> {
    if rs == [] then []
    else
      var r := rs[|rs| - 1];
      History(Passed(lim, rs[..|rs| - 1]), r.cue, r.now, Step(RunGate(EMPTY, lim, rs[..|rs| - 1]), lim, r.cue, r.now).1)
  }

  function LastTime(rs: seq<Request>, from: int): int { if rs == [] then from else rs[|rs| - 1].now }

  /** Over every run, the gate's deque is the history of passes restricted to the window, and every verdict
      is the one the settings ask for. */
  lemma {:induction false} RunRepresents(lim: Limits, rs: seq<Request>, from: int)
    requires LimitsOk(lim) && Monotone(rs, from)
    ensures Represents(RunGate(EMPTY, lim, rs), Passed(lim, rs), lim, LastTime(rs, from))
    ensures rs != [] ==>
              var before, r := rs[..|rs| - 1], rs[|rs| - 1];
              Step(RunGate(EMPTY, lim, before), lim, r.cue, r.now).1 == Ideal(Passed(lim, before), lim, r.cue, r.now)
  {
    hide Represents, Step, Ideal;
    if rs == [] {
      EmptyRepresents(lim, from);
    } else {
      var before, r := rs[..|rs| - 1], rs[|rs| - 1];
      RunRepresents(lim, before, from);
      StepIsIdeal(RunGate(EMPTY, lim, before), Passed(lim, before), lim, LastTime(before, from), r.cue, r.now);
    }
  }

  lemma EmptyRepresents(lim: Limits, from: int)
    ensures Represents(EMPTY, [], lim, from)
  {
  }

  /** How many passages fall in a closed interval. */
  function CountIn(h: seq<Passage>, a: int, b: int): nat {
    if h == [] then 0
    else CountIn(h[..|h| - 1], a, b) + if a <= h[|h| - 1].time <= b then 1 else 0
  }

  lemma {:induction false} CountAtMostSince(h: seq<Passage>, a: int, b: int, floor: int)
    requires floor <= a
    ensures CountIn(h, a, b) <= |Since(h, floor)|
  {
    if h != [] { CountAtMostSince(h[..|h| - 1], a, b, floor); }
  }

  /** With fixed settings and a clock that never goes back, no closed window of the configured length holds
      more passes than allowed. */
  lemma {:induction false} WindowBound(lim: Limits, rs: seq<Request>, from: int, a: int)
    requires LimitsOk(lim) && Monotone(rs, from)
    ensures CountIn(Passed(lim, rs), a, a + lim.windowMs) <= lim.rateCount
  {
    hide Step, Represents, RunGate, Since;
    if rs != [] {
      var before, r := rs[..|rs| - 1], rs[|rs| - 1];
      var h := Passed(lim, before);
      WindowBound(lim, before, from, a);
      RunRepresents(lim, rs, from);
      if Passed(lim, rs) != h {
        var p := Passage(r.cue, r.now);
        assert Passed(lim, rs) == h + [p];
        assert (h + [p])[..|h|] == h;
        if a <= r.now <= a + lim.windowMs { CountAtMostSince(h, a, a + lim.windowMs, r.now - lim.windowMs); }
      }
    }
  }

  lemma {:induction false} CountOfStretch(h: seq<Passage>, i: nat, j: nat, a: int, b: int)
    requires i <= j <= |h| && forall k | i <= k < j :: a <= h[k].time <= b
    ensures CountIn(h, a, b) >= j - i
  {
    if i < j { CountOfStretch(h[..|h| - 1], i, if j < |h| then j else j - 1, a, b); }
  }

  lemma {:induction false} PassedInOrder(lim: Limits, rs: seq<Request>, from: int)
    requires Monotone(rs, from)
    ensures forall i, j | 0 <= i <= j < |Passed(lim, rs)| :: Passed(lim, rs)[i].time <= Passed(lim, rs)[j].time
    ensures forall i | 0 <= i < |Passed(lim, rs)| :: Passed(lim, rs)[i].time <= LastTime(rs, from)
  {
    hide Step, RunGate;
    if rs != [] { PassedInOrder(lim, rs[..|rs| - 1], from); }
  }

  /** In other words: any pass is more than the window behind the one that many before it. */
  lemma PassesAreSpread(lim: Limits, rs: seq<Request>, from: int, i: nat)
    requires LimitsOk(lim) && Monotone(rs, from) && i + lim.rateCount < |Passed(lim, rs)|
    ensures Passed(lim, rs)[i + lim.rateCount].time - Passed(lim, rs)[i].time > lim.windowMs
  {
    hide Step, RunGate, CountIn;
    var h, j := Passed(lim, rs), i + lim.rateCount;
    PassedInOrder(lim, rs, from);
    if h[j].time <= h[i].time + lim.windowMs {
      CountOfStretch(h, i, j + 1, h[i].time, h[i].time + lim.windowMs);
      WindowBound(lim, rs, from, h[i].time);
    }
  }

  /** Two passes of the same cue are at least the configured time apart. */
  lemma {:induction false} ReplayGap(lim: Limits, rs: seq<Request>, from: int, i: nat, j: nat)
    requires LimitsOk(lim) && Monotone(rs, from)
    requires i < j < |Passed(lim, rs)| && Passed(lim, rs)[i].cue == Passed(lim, rs)[j].cue
    ensures Passed(lim, rs)[j].time - Passed(lim, rs)[i].time >= lim.dedupeMs
  {
    hide Step, RunGate, Since;
    var before, r := rs[..|rs| - 1], rs[|rs| - 1];
    var h := Passed(lim, before);
    RunRepresents(lim, rs, from);
    if j < |h| {
      ReplayGap(lim, before, from, i, j);
    } else {
      assert Passed(lim, rs) == h + [Passage(r.cue, r.now)];
      assert h[i] in h;
      RunRepresents(lim, before, from);
    }
  }
}
