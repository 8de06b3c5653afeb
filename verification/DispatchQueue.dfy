/** The worker's outbound queue: one deque for two kinds of task, with a depth and a drop counter each. */
module DispatchQueue {
  import opened Text

  datatype Kind = IcecastMetadata | ScteSidecar

  /** A task; `body` stands for its address and payload. */
  datatype Task = Task(kind: Kind, body: string, retries: nat)

  datatype Queue = Queue(tasks: seq<Task>, metadataDepth: int, sidecarDepth: int,
                         metadataDropped: int, sidecarDropped: int, stop: bool)

  const EMPTY := Queue([], 0, 0, 0, 0, false)

  function Depth(q: Queue, k: Kind): int { if k == IcecastMetadata then q.metadataDepth else q.sidecarDepth }
  function Dropped(q: Queue, k: Kind): int { if k == IcecastMetadata then q.metadataDropped else q.sidecarDropped }

  function EffectiveCapacity(capacity: int): int { if capacity < 1 then 1 else capacity }

  function Count(ts: seq<Task>, k: Kind): nat {
    if ts == [] then 0 else (if ts[0].kind == k then 1 else 0) + Count(ts[1..], k)
  }

  // ---------- the steps ----------

  datatype Event = Enqueue(task: Task, capacity: int) | Stop | Take

  /** The queue after an event; a take waits while it is not allowed, so it leaves the queue alone. */
  function Step(q: Queue, e: Event): Queue {
    match e
    case Stop => q.(stop := true)
    case Take =>
      if q.tasks == [] then q
      else if q.tasks[0].kind == IcecastMetadata then
        q.(tasks := q.tasks[1..], metadataDepth := if q.metadataDepth > 0 then q.metadataDepth - 1 else q.metadataDepth)
      else
        q.(tasks := q.tasks[1..], sidecarDepth := if q.sidecarDepth > 0 then q.sidecarDepth - 1 else q.sidecarDepth)
    case Enqueue(t, capacity) =>
      if Depth(q, t.kind) >= EffectiveCapacity(capacity) then
        if t.kind == IcecastMetadata then q.(metadataDropped := q.metadataDropped + 1)
        else q.(sidecarDropped := q.sidecarDropped + 1)
      else if t.kind == IcecastMetadata then q.(tasks := q.tasks + [t], metadataDepth := q.metadataDepth + 1)
      else q.(tasks := q.tasks + [t], sidecarDepth := q.sidecarDepth + 1)
  }

  class DispatchQueueCell {
    var tasks: seq<Task>
    var metadataDepth: int
    var sidecarDepth: int
    var metadataDropped: int
    var sidecarDropped: int
    var stop: bool

    function Value(): Queue
      reads this
    {
      Queue(tasks, metadataDepth, sidecarDepth, metadataDropped, sidecarDropped, stop)
    }

    constructor ()
      ensures Value() == EMPTY
    {
      tasks, metadataDepth, sidecarDepth := [], 0, 0;
      metadataDropped, sidecarDropped, stop := 0, 0, false;
    }

    method EnqueueTask(task: Task, queueCapacity: int) returns (queued: bool)
      modifies this
      ensures Value() == Step(old(Value()), Enqueue(task, queueCapacity))
      ensures queued <==> Depth(old(Value()), task.kind) < EffectiveCapacity(queueCapacity)
    {
      var capacity := queueCapacity;
      if capacity < 1 { capacity := 1; }
      queued := false;
      var metadataTask := task.kind == IcecastMetadata;
      var depth := if metadataTask then metadataDepth else sidecarDepth;
      if depth >= capacity {
        if metadataTask { metadataDropped := metadataDropped + 1; } else { sidecarDropped := sidecarDropped + 1; }
      } else {
        tasks := tasks + [task];
        if metadataTask { metadataDepth := metadataDepth + 1; } else { sidecarDepth := sidecarDepth + 1; }
        queued := true;
      }
    }

    method RequestStop()
      modifies this
      ensures Value() == Step(old(Value()), Stop)
    {
      stop := true;
    }

    /** One turn of the dispatch loop, once the wait is over; None ends the loop. */
    method TakeNext() returns (task: Option<Task>)
      requires stop || tasks != []
      modifies this
      ensures Value() == Step(old(Value()), Take)
      ensures task == if old(tasks) == [] then None else Some(old(tasks)[0])
    {
      if stop && tasks == [] { return None; }
      var t := tasks[0];
      tasks := tasks[1..];
      if t.kind == IcecastMetadata {
        if metadataDepth > 0 { metadataDepth := metadataDepth - 1; }
      } else {
        if sidecarDepth > 0 { sidecarDepth := sidecarDepth - 1; }
      }
      return Some(t);
    }

    /** The loop after a stop with nobody adding tasks: it hands over everything that is left. */
    method Drain() returns (handed: seq<Task>)
      requires stop
      modifies this
      ensures handed == old(tasks) && tasks == [] && stop
    {
      handed := [];
      while true
        invariant stop && handed + tasks == old(tasks)
        decreases |tasks|
      {
        ghost var before := tasks;
        var t := TakeNext();
        if t.None? { break; }
        assert before == [before[0]] + before[1..];
        handed := handed + [t.value];
      }
    }
  }

  // ---------- runs ----------

  function Run(events: seq<Event>): Queue {
    if events == [] then EMPTY else Step(Run(events[..|events| - 1]), events[|events| - 1])
  }

  /** Tasks handed in, accepted, turned away and handed over during a run, in order. */
  function Submitted(events: seq<Event>): seq<Task> {
    if events == [] then []
    else
      var e := events[|events| - 1];
      Submitted(events[..|events| - 1]) + if e.Enqueue? then [e.task] else []
  }

  predicate Accepts(q: Queue, e: Event) {
    e.Enqueue? && Depth(q, e.task.kind) < EffectiveCapacity(e.capacity)
  }

  function Accepted(events: seq<Event>): seq<Task> {
    if events == [] then []
    else
      var init, e := events[..|events| - 1], events[|events| - 1];
      Accepted(init) + if Accepts(Run(init), e) then [e.task] else []
  }

  function HandedOver(events: seq<Event>): seq<Task> {
    if events == [] then []
    else
      var init, e := events[..|events| - 1], events[|events| - 1];
      HandedOver(init) + if e == Take && Run(init).tasks != [] then [Run(init).tasks[0]] else []
  }

  lemma {:induction false} CountConcat(a: seq<Task>, b: seq<Task>, k: Kind)
    ensures Count(a + b, k) == Count(a, k) + Count(b, k)
  {
    if a == [] {
      assert a + b == b;
    } else {
      assert (a + b)[1..] == a[1..] + b;
      CountConcat(a[1..], b, k);
    }
  }

  lemma CountOne(t: Task, k: Kind)
    ensures Count([t], k) == if t.kind == k then 1 else 0
  {
    assert [t][1..] == [];
  }

  ghost predicate CountersExact(q: Queue) {
    forall k: Kind :: Depth(q, k) == Count(q.tasks, k)
  }

  lemma StepCounters(q: Queue, e: Event)
    requires CountersExact(q)
    ensures CountersExact(Step(q, e))
    ensures e == Take && q.tasks != [] ==> Depth(q, q.tasks[0].kind) > 0
  {
    match e
    case Stop =>
    case Take =>
      if q.tasks != [] {
        var head := q.tasks[0].kind;
        assert Depth(q, head) == Count(q.tasks, head);
        forall k: Kind ensures Depth(Step(q, e), k) == Count(q.tasks[1..], k) {
          assert Depth(q, k) == Count(q.tasks, k);
        }
      }
    case Enqueue(t, capacity) =>
      forall k: Kind ensures Count(q.tasks + [t], k) == Count(q.tasks, k) + if t.kind == k then 1 else 0 {
        CountConcat(q.tasks, [t], k);
        CountOne(t, k);
      }
  }

  /** In every run each depth counter is the number of queued tasks of its kind. */
  lemma {:induction false} DepthIsCount(events: seq<Event>)
    ensures CountersExact(Run(events))
  {
    hide Step, CountersExact;
    if events == [] {
      NothingQueued();
    } else {
      DepthIsCount(events[..|events| - 1]);
      StepCounters(Run(events[..|events| - 1]), events[|events| - 1]);
    }
  }

  lemma NothingQueued()
    ensures CountersExact(EMPTY)
  {
  }

  /** The `> 0` guards in the take never decide anything: the counter of the taken kind is positive. */
  lemma GuardsNeverNeeded(events: seq<Event>)
    ensures var q := Run(events); q.tasks != [] ==> Depth(q, q.tasks[0].kind) > 0
  {
    hide Step, CountersExact;
    DepthIsCount(events);
    StepCounters(Run(events), Take);
  }

  /** No depth exceeds the capacities its tasks were offered with. */
  lemma {:induction false} DepthWithinCapacity(events: seq<Event>, k: Kind, limit: int)
    requires limit >= 1
    requires forall e | e in events && e.Enqueue? && e.task.kind == k :: e.capacity <= limit
    ensures 0 <= Depth(Run(events), k) <= limit
  {
    DepthIsCount(events);
    if events != [] {
      var init, e := events[..|events| - 1], events[|events| - 1];
      assert e in events && forall x | x in init :: x in events;
      DepthWithinCapacity(init, k, limit);
    }
  }

  /** Hand-over is first in, first out, across both kinds: what was handed over and what is still queued,
      in that order, is exactly what was accepted. */
  lemma {:induction false} FirstInFirstOut(events: seq<Event>)
    ensures HandedOver(events) + Run(events).tasks == Accepted(events)
  {
    if events != [] {
      var init, e := events[..|events| - 1], events[|events| - 1];
      FirstInFirstOut(init);
      var q := Run(init);
      match e
      case Stop =>
      case Take => if q.tasks != [] { assert q.tasks == [q.tasks[0]] + q.tasks[1..]; }
      case Enqueue(t, capacity) =>
    }
  }

  /** Submitted = accepted + dropped, kind by kind. */
  lemma {:induction false} SubmittedSplits(events: seq<Event>, k: Kind)
    ensures Count(Submitted(events), k) == Count(Accepted(events), k) + Dropped(Run(events), k)
  {
    if events != [] {
      var init, e := events[..|events| - 1], events[|events| - 1];
      SubmittedSplits(init, k);
      if e.Enqueue? {
        CountOne(e.task, k);
        CountConcat(Submitted(init), [e.task], k);
        CountConcat(Accepted(init), [e.task], k);
      }
      CountConcat(Submitted(init), [], k);
      CountConcat(Accepted(init), [], k);
    }
  }

  /** Conservation: every task submitted was handed over, is queued, or was dropped, kind by kind. */
  lemma NothingIsLost(events: seq<Event>, k: Kind)
    ensures Count(Submitted(events), k)
         == Count(HandedOver(events), k) + Depth(Run(events), k) + Dropped(Run(events), k)
  {
    hide Run, Accepted, Submitted, HandedOver, Count;
    SubmittedSplits(events, k);
    FirstInFirstOut(events);
    CountConcat(HandedOver(events), Run(events).tasks, k);
    DepthIsCount(events);
  }

  /** The loop ends only when it was told to stop and nothing is queued: everything accepted has then been
      handed over, in order. */
  lemma LoopEndsDrained(events: seq<Event>)
    requires Run(events).stop && Run(events).tasks == []
    ensures HandedOver(events) == Accepted(events)
    ensures forall k: Kind :: Depth(Run(events), k) == 0
  {
    hide Run, Accepted, HandedOver;
    FirstInFirstOut(events);
    DepthIsCount(events);
    assert HandedOver(events) + [] == HandedOver(events);
  }

  // ---------- delivery of one task ----------

  /** How many POSTs a sidecar task makes and whether one succeeded, given the outcome of each. */
  method Deliver(task: Task, outcome: nat -> bool) returns (delivered: bool, posts: nat)
    ensures 1 <= posts <= task.retries + 1
    ensures delivered <==> exists i | 0 <= i <= task.retries :: outcome(i)
    ensures forall i | 0 <= i < posts - 1 :: !outcome(i)
    ensures if delivered then outcome(posts - 1) else posts == task.retries + 1
  {
    delivered, posts := false, 0;
    while posts <= task.retries
      invariant posts <= task.retries + 1 && !delivered
      invariant forall i | 0 <= i < posts :: !outcome(i)
    {
      posts := posts + 1;
      if outcome(posts - 1) {
        delivered := true;
        break;
      }
    }
  }
}
