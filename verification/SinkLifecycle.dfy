/** Start, stop and supervision of the worker's four sinks, each an external process with a handle, a
    running flag and a state. Every step is taken whole. */
module SinkLifecycle {

  datatype Kind = Aac | Mp3 | Hls | Srt

  datatype Life = Stopped | Starting | Running | Stopping | Failed

  /** Process ids are positive; 0 is the null handle. */
  datatype Sink = Sink(running: bool, proc: nat, state: Life)

  datatype Sinks = Sinks(aac: Sink, mp3: Sink, hls: Sink, srt: Sink) {
    function Get(k: Kind): Sink {
      match k
      case Aac => aac
      case Mp3 => mp3
      case Hls => hls
      case Srt => srt
    }

    function With(k: Kind, s: Sink): Sinks {
      match k
      case Aac => this.(aac := s)
      case Mp3 => this.(mp3 := s)
      case Hls => this.(hls := s)
      case Srt => this.(srt := s)
    }
  }

  /** The sinks, and the processes seen from outside: whom each was launched for, which are alive, which the
      worker killed and which it saw to have exited. */
  datatype Bank = Bank(sinks: Sinks, owner: map<nat, Kind>, alive: set<nat>, killed: set<nat>, seen: set<nat>)

  const IDLE := Sink(false, 0, Stopped)
  const INITIAL := Bank(Sinks(IDLE, IDLE, IDLE, IDLE), map[], {}, {}, {})

  // ---------- the steps ----------

  /** Start a sink; `pid` is what launching would return, 0 for a failure. */
  function Start(b: Bank, k: Kind, configured: bool, pid: nat): Bank {
    var s := b.sinks.Get(k);
    if s.running || s.proc != 0 then b.(sinks := b.sinks.With(k, s.(state := Running)))
    else if !configured then b.(sinks := b.sinks.With(k, s.(state := Failed)))
    else if pid == 0 then b.(sinks := b.sinks.With(k, Sink(s.running, 0, Failed)))
    else b.(sinks := b.sinks.With(k, Sink(true, pid, Running)), owner := b.owner[pid := k], alive := b.alive + {pid})
  }

  function Kill(b: Bank, pid: nat): Bank {
    if pid == 0 then b else b.(alive := b.alive - {pid}, killed := b.killed + {pid})
  }

  function Stop(b: Bank, k: Kind): Bank {
    var c := Kill(b, b.sinks.Get(k).proc);
    c.(sinks := c.sinks.With(k, Sink(false, 0, Stopped)))
  }

  /** The operating system lets a process end. */
  function Exit(b: Bank, pid: nat): Bank { b.(alive := b.alive - {pid}) }

  function PollOne(b: Bank, k: Kind): Bank {
    var s := b.sinks.Get(k);
    if s.running && s.proc !in b.alive then
      b.(sinks := b.sinks.With(k, Sink(false, 0, Failed)), seen := b.seen + {s.proc})
    else b
  }

  function Poll(b: Bank): Bank { PollOne(PollOne(PollOne(PollOne(b, Aac), Mp3), Hls), Srt) }

  function RestartOne(b: Bank, k: Kind, configured: bool, pid: nat): Bank {
    if b.sinks.Get(k).running then Start(Stop(b, k), k, configured, pid) else b
  }

  // ---------- the invariant ----------

  ghost predicate Held(b: Bank, pid: nat) { pid != 0 && exists k :: b.sinks.Get(k).proc == pid }

  ghost predicate SinkOk(s: Sink) {
    (s.running <==> s.proc != 0) && (s.running <==> s.state == Running) &&
    (!s.running ==> s.state == Stopped || s.state == Failed)
  }

  /** A handle belongs to the sink it was launched for. */
  ghost predicate Owns(b: Bank, k: Kind) {
    var p := b.sinks.Get(k).proc;
    SinkOk(b.sinks.Get(k)) && (p != 0 ==> p in b.owner && b.owner[p] == k)
  }

  ghost predicate HeldByOwner(b: Bank, p: nat)
    requires p in b.owner
  {
    b.sinks.Get(b.owner[p]).proc == p
  }

  /** A process is alive only while its sink holds it; otherwise it is held, killed or seen to have exited. */
  ghost predicate Accounted(b: Bank, p: nat) {
    (p in b.alive || p in b.killed || p in b.seen ==> p in b.owner) &&
    (p in b.owner ==> p != 0 && (p in b.alive ==> HeldByOwner(b, p)) &&
                      (HeldByOwner(b, p) || p in b.killed || p in b.seen)) &&
    (p in b.alive ==> p !in b.killed && p !in b.seen)
  }

  ghost predicate Inv(b: Bank) {
    (forall k :: Owns(b, k)) && (forall p :: Accounted(b, p))
  }

  lemma InitialInv()
    ensures Inv(INITIAL)
  {
  }

  /** The sinks other than `k` are untouched, and `k` is now `s`. */
  ghost predicate OnlySink(b: Bank, r: Bank, k: Kind, s: Sink) {
    forall o: Kind :: r.sinks.Get(o) == if o == k then s else b.sinks.Get(o)
  }

  lemma WithOnly(b: Bank, r: Bank, k: Kind, s: Sink)
    requires r.sinks == b.sinks.With(k, s)
    ensures OnlySink(b, r, k, s)
  {
  }

  lemma StartInv(b: Bank, k: Kind, configured: bool, pid: nat)
    requires Inv(b) && pid !in b.owner
    ensures Inv(Start(b, k, configured, pid))
  {
    hide Sinks.Get, Sinks.With;
    var r := Start(b, k, configured, pid);
    var s := b.sinks.Get(k);
    assert Owns(b, k);
    var s' := if s.running || s.proc != 0 then s.(state := Running)
              else if !configured then s.(state := Failed)
              else if pid == 0 then Sink(s.running, 0, Failed)
              else Sink(true, pid, Running);
    WithOnly(b, r, k, s');
    forall o ensures Owns(r, o) { assert Owns(b, o); }
    forall p ensures Accounted(r, p) { assert Accounted(b, p); }
  }

  lemma StopInv(b: Bank, k: Kind)
    requires Inv(b)
    ensures Inv(Stop(b, k)) && Stop(b, k).owner == b.owner
  {
    hide Sinks.Get, Sinks.With;
    var r := Stop(b, k);
    assert Owns(b, k);
    WithOnly(b, r, k, Sink(false, 0, Stopped));
    forall o ensures Owns(r, o) { assert Owns(b, o); }
    forall p ensures Accounted(r, p) { assert Accounted(b, p); }
  }

  lemma ExitInv(b: Bank, pid: nat)
    requires Inv(b)
    ensures Inv(Exit(b, pid))
  {
    var r := Exit(b, pid);
    forall o ensures Owns(r, o) { assert Owns(b, o); }
    forall p ensures Accounted(r, p) { assert Accounted(b, p); }
  }

  /** What a poll makes of one sink. */
  function Polled(b: Bank, k: Kind): Sink {
    var s := b.sinks.Get(k);
    if s.running && s.proc !in b.alive then Sink(false, 0, Failed) else s
  }

  lemma PollOneInv(b: Bank, k: Kind)
    requires Inv(b)
    ensures var r := PollOne(b, k);
            Inv(r) && OnlySink(b, r, k, Polled(b, k)) && r.alive == b.alive
  {
    hide Sinks.Get, Sinks.With;
    var r := PollOne(b, k);
    assert Owns(b, k);
    var s := b.sinks.Get(k);
    if s.running && s.proc !in b.alive { WithOnly(b, r, k, Sink(false, 0, Failed)); }
    forall o ensures Owns(r, o) { assert Owns(b, o); }
    forall p ensures Accounted(r, p) { assert Accounted(b, p); }
  }

  /** After a poll, every sink whose process has exited has failed and the others are as before: a sink is
      marked running only if its process was alive. */
  lemma PollTellsTheTruth(b: Bank)
    requires Inv(b)
    ensures Inv(Poll(b)) && forall k :: Poll(b).sinks.Get(k) == Polled(b, k)
  {
    hide Sinks.Get, PollOne, Inv;
    var b1 := PollOne(b, Aac);
    var b2 := PollOne(b1, Mp3);
    var b3 := PollOne(b2, Hls);
    PollOneInv(b, Aac);
    PollOneInv(b1, Mp3);
    PollOneInv(b2, Hls);
    PollOneInv(b3, Srt);
  }

  // ---------- a poll that is interrupted ----------

  predicate SeesExit(b: Bank, k: Kind) { b.sinks.Get(k).running && b.sinks.Get(k).proc !in b.alive }

  /** The poll holds no lock: first it asks for the process, which is then seen to have exited ... */
  function Check(b: Bank, k: Kind): Bank { b.(seen := b.seen + {b.sinks.Get(k).proc}) }

  /** ... and then it clears the sink, whatever it holds by now. */
  function Clear(b: Bank, k: Kind): Bank { b.(sinks := b.sinks.With(k, Sink(false, 0, Failed))) }

  /** Without an interruption the two halves are the poll. */
  lemma PollIsCheckThenClear(b: Bank, k: Kind)
    ensures PollOne(b, k) == if SeesExit(b, k) then Clear(Check(b, k), k) else b
  {
  }

  /** Clearing keeps the invariant if and only if the sink holds no process by then, or one already seen or
      killed: after a restart in between it holds another. */
  lemma ClearKeepsInvIff(b: Bank, k: Kind)
    requires Inv(b)
    ensures var p := b.sinks.Get(k).proc; Inv(Clear(b, k)) <==> p == 0 || p in b.killed || p in b.seen
  {
    hide Sinks.Get, Sinks.With;
    var r, p := Clear(b, k), b.sinks.Get(k).proc;
    assert Owns(b, k) && Accounted(b, p);
    WithOnly(b, r, k, Sink(false, 0, Failed));
    if p == 0 || p in b.killed || p in b.seen {
      forall o ensures Owns(r, o) { assert Owns(b, o); }
      forall q ensures Accounted(r, q) { assert Accounted(b, q); }
    } else {
      assert !Accounted(r, p);
    }
  }

  /** A stop and a start between the halves: the new process runs, and no one holds it, killed it or saw it end. */
  lemma InterruptedPollForgets(k: Kind, p: nat, q: nat)
    requires p > 0 && q > 0 && p != q
    ensures var b := Exit(Start(INITIAL, k, true, p), p);
            SeesExit(b, k) &&
            var r := Clear(Start(Stop(Check(b, k), k), k, true, q), k);
            q in r.alive && !Held(r, q) && q !in r.killed && q !in r.seen
  {
  }

  lemma RestartInv(b: Bank, k: Kind, configured: bool, pid: nat)
    requires Inv(b) && pid !in b.owner
    ensures Inv(RestartOne(b, k, configured, pid))
  {
    hide Inv, Start, Stop;
    StopInv(b, k);
    StartInv(Stop(b, k), k, configured, pid);
  }

  // ---------- what a start, a stop and a restart do ----------

  /** The sinks other than `k` are untouched, and what the worker saw to have exited is the same. */
  ghost predicate OthersSame(b: Bank, r: Bank, k: Kind) {
    (forall o: Kind | o != k :: r.sinks.Get(o) == b.sinks.Get(o)) && r.seen == b.seen
  }

  /** A sink that runs stays as it is. Any other is running afterwards, with the new process, if it is configured and
      the process was launched; otherwise it has failed and nothing was launched. */
  lemma StartOutcome(b: Bank, k: Kind, configured: bool, pid: nat)
    requires Inv(b)
    ensures var r, s := Start(b, k, configured, pid), b.sinks.Get(k);
            OthersSame(b, r, k) && r.killed == b.killed &&
            if s.running then r == b
            else if configured && pid > 0 then
              r.sinks.Get(k) == Sink(true, pid, Running) && r.alive == b.alive + {pid} && r.owner == b.owner[pid := k]
            else r.sinks.Get(k) == Sink(false, 0, Failed) && r.alive == b.alive && r.owner == b.owner
  {
    assert Owns(b, k);
  }

  /** A stop leaves the sink stopped without a process, and the one it had is killed. */
  lemma StopOutcome(b: Bank, k: Kind)
    requires Inv(b)
    ensures var r, p := Stop(b, k), b.sinks.Get(k).proc;
            OthersSame(b, r, k) && r.owner == b.owner && r.sinks.Get(k) == Sink(false, 0, Stopped) &&
            r.alive == b.alive - {p} && r.killed == b.killed + (if p == 0 then {} else {p})
  {
    assert Accounted(b, 0);
  }

  /** A restart for a gain change: a sink that runs is running afterwards with a new process, and the old one is killed;
      only if it can no longer be launched has it failed. A sink that does not run is left alone. */
  lemma RestartOutcome(b: Bank, k: Kind, configured: bool, pid: nat)
    requires Inv(b) && pid !in b.owner
    ensures var r, p := RestartOne(b, k, configured, pid), b.sinks.Get(k).proc;
            OthersSame(b, r, k) &&
            if !b.sinks.Get(k).running then r == b
            else if configured && pid > 0 then
              r.sinks.Get(k) == Sink(true, pid, Running) && r.alive == b.alive - {p} + {pid} &&
              r.owner == b.owner[pid := k] && p in r.killed && p !in r.alive
            else
              r.sinks.Get(k) == Sink(false, 0, Failed) && r.alive == b.alive - {p} && r.owner == b.owner &&
              p in r.killed
  {
    hide Inv, Start, Stop, Sinks.Get, Sinks.With;
    StopInv(b, k);
    StopOutcome(b, k);
    StartOutcome(Stop(b, k), k, configured, pid);
    if b.sinks.Get(k).running { RunningHolds(b, k); }
  }

  lemma RunningHolds(b: Bank, k: Kind)
    requires Inv(b) && b.sinks.Get(k).running
    ensures b.sinks.Get(k).proc != 0 && b.sinks.Get(k).proc in b.owner
  {
    assert Owns(b, k);
  }

  // ---------- runs ----------

  datatype Event = StartEvent(k: Kind, configured: bool, pid: nat) | StopEvent(k: Kind) | ExitEvent(pid: nat)
                 | PollEvent | RestartEvent(k: Kind, configured: bool, pid: nat)

  function Step(b: Bank, e: Event): Bank {
    match e
    case StartEvent(k, configured, pid) => Start(b, k, configured, pid)
    case StopEvent(k) => Stop(b, k)
    case ExitEvent(pid) => Exit(b, pid)
    case PollEvent => Poll(b)
    case RestartEvent(k, configured, pid) => RestartOne(b, k, configured, pid)
  }

  /** A new process gets an id that was not used before. */
  predicate Fresh(b: Bank, e: Event) {
    match e
    case StartEvent(_, _, pid) => pid !in b.owner
    case RestartEvent(_, _, pid) => pid !in b.owner
    case _ => true
  }

  function Run(events: seq<Event>): Bank {
    if events == [] then INITIAL else Step(Run(events[..|events| - 1]), events[|events| - 1])
  }

  ghost predicate RunOk(events: seq<Event>) {
    forall i | 0 <= i < |events| :: Fresh(Run(events[..i]), events[i])
  }

  lemma {:induction false} RunInv(events: seq<Event>)
    requires RunOk(events)
    ensures Inv(Run(events))
  {
    hide Inv, Start, Stop, Exit, Poll, RestartOne, Fresh;
    if events == [] {
      InitialInv();
    } else {
      var init, e := events[..|events| - 1], events[|events| - 1];
      forall i | 0 <= i < |init| ensures Fresh(Run(init[..i]), init[i]) {
        assert events[..i] == init[..i];
        assert Fresh(Run(events[..i]), events[i]);
      }
      RunInv(init);
      assert Fresh(Run(events[..|events| - 1]), events[|events| - 1]);
      StepInv(Run(init), e);
    }
  }

  lemma StepInv(b: Bank, e: Event)
    requires Inv(b) && Fresh(b, e)
    ensures Inv(Step(b, e))
  {
    hide Inv, Start, Stop, Exit, Poll, RestartOne;
    match e
    case StartEvent(k, configured, pid) => StartInv(b, k, configured, pid);
    case StopEvent(k) => StopInv(b, k);
    case ExitEvent(pid) => ExitInv(b, pid);
    case PollEvent => PollTellsTheTruth(b);
    case RestartEvent(k, configured, pid) => RestartInv(b, k, configured, pid);
  }

  /** What the last event of a run decides: a sink started runs if it can be launched or did already, one stopped does
      not, a poll leaves those with a live process, and a restart starts no sink that did not run. */
  lemma LastEventDecides(events: seq<Event>, e: Event, k: Kind)
    requires RunOk(events + [e])
    ensures var before, after := Run(events), Run(events + [e]);
            var earlier, later := before.sinks.Get(k), after.sinks.Get(k);
            match e
            case StartEvent(j, configured, pid) =>
              j == k ==> (later.running <==> earlier.running || (configured && pid > 0))
            case StopEvent(j) => j == k ==> !later.running && later.state == Stopped
            case ExitEvent(pid) => pid !in after.alive && later == earlier
            case PollEvent => later.running <==> earlier.running && earlier.proc in before.alive
            case RestartEvent(j, configured, pid) =>
              j == k ==> (later.running <==> earlier.running && configured && pid > 0)
  {
    hide Inv, Start, Stop, Poll, RestartOne, Sinks.Get, Sinks.With, RunOk;
    RunPrefix(events, e);
    RunInv(events);
    var b := Run(events);
    match e
    case StartEvent(j, configured, pid) => StartOutcome(b, j, configured, pid);
    case StopEvent(j) => StopOutcome(b, j);
    case ExitEvent(pid) =>
    case PollEvent => PollTellsTheTruth(b);
    case RestartEvent(j, configured, pid) => RestartOutcome(b, j, configured, pid);
  }

  lemma RunPrefix(events: seq<Event>, e: Event)
    requires RunOk(events + [e])
    ensures RunOk(events) && Fresh(Run(events), e) && Run(events + [e]) == Step(Run(events), e)
  {
    hide Step, Fresh;
    var all := events + [e];
    assert all[..|events|] == events && all[|events|] == e;
    forall i | 0 <= i < |events| ensures Fresh(Run(events[..i]), events[i]) {
      assert all[..i] == events[..i] && all[i] == events[i];
    }
  }

  /** Over every run: flag, handle and state agree; a sink never has two live processes; no process is
      forgotten. */
  lemma SinksAgree(events: seq<Event>, k: Kind)
    requires RunOk(events)
    ensures var b := Run(events);
            var s := b.sinks.Get(k);
            (s.running <==> s.proc != 0) && (s.running <==> s.state == Running) &&
            (!s.running ==> s.state == Stopped || s.state == Failed) &&
            (forall p | p in b.owner :: Held(b, p) || p in b.killed || p in b.seen) &&
            (forall p | p in b.alive :: p in b.owner && Held(b, p) && p !in b.killed && p !in b.seen) &&
            (forall p, q | p in b.alive && q in b.alive && b.owner[p] == k && b.owner[q] == k :: p == q)
  {
    hide Sinks.Get, Run, RunOk;
    RunInv(events);
    var b := Run(events);
    assert Owns(b, k);
    forall p | p in b.owner || p in b.alive ensures p in b.owner && Accounted(b, p) {
      assert Accounted(b, p);
    }
  }

  // ---------- shutdown ----------

  /** The destructor kills the processes of three sinks and leaves the fourth. */
  function Destroy(b: Bank): Bank {
    Kill(Kill(Kill(b, b.sinks.Get(Aac).proc), b.sinks.Get(Mp3).proc), b.sinks.Get(Hls).proc)
  }

  /** What the destructor leaves alive is the SRT sink's process, if that one is alive: no process outlives
      the worker exactly when it is not. */
  lemma NothingOutlivesIff(events: seq<Event>)
    requires RunOk(events)
    ensures var b := Run(events);
            Destroy(b).alive == b.alive * {b.sinks.Get(Srt).proc} &&
            (Destroy(b).alive == {} <==> b.sinks.Get(Srt).proc !in b.alive)
  {
    hide Run, RunOk;
    RunInv(events);
    var b := Run(events);
    forall p | p in b.alive ensures p in Destroy(b).alive <==> p == b.sinks.Get(Srt).proc {
      assert Accounted(b, p) && Owns(b, Aac) && Owns(b, Mp3) && Owns(b, Hls) && Owns(b, Srt);
    }
  }

  /** It happens: one successful start of the SRT sink, and its process outlives the worker. */
  lemma SrtProcessOutlives(pid: nat)
    requires pid > 0
    ensures var events := [StartEvent(Srt, true, pid)]; RunOk(events) && Destroy(Run(events)).alive == {pid}
  {
    var events := [StartEvent(Srt, true, pid)];
    assert events[..0] == [];
    assert Run(events) == Step(Run([]), events[0]);
  }

  // ---------- the worker's fields, updated in place ----------

  class SinkBank {
    var sinks: Sinks
    ghost var owner: map<nat, Kind>
    var alive: set<nat>   // the operating system's view
    ghost var killed: set<nat>
    ghost var seen: set<nat>

    ghost function Value(): Bank
      reads this
    {
      Bank(sinks, owner, alive, killed, seen)
    }

    constructor ()
      ensures Value() == INITIAL
    {
      sinks := Sinks(IDLE, IDLE, IDLE, IDLE);
      owner, alive, killed, seen := map[], {}, {}, {};
    }

    method SetState(k: Kind, state: Life)
      modifies this`sinks
      ensures sinks == old(sinks).With(k, old(sinks).Get(k).(state := state))
    {
      sinks := sinks.With(k, sinks.Get(k).(state := state));
    }

    method SetHandle(k: Kind, proc: nat)
      modifies this`sinks
      ensures sinks == old(sinks).With(k, old(sinks).Get(k).(proc := proc))
    {
      sinks := sinks.With(k, sinks.Get(k).(proc := proc));
    }

    method SetRunning(k: Kind, running: bool)
      modifies this`sinks
      ensures sinks == old(sinks).With(k, old(sinks).Get(k).(running := running))
    {
      sinks := sinks.With(k, sinks.Get(k).(running := running));
    }

    /** Launching an external process: it fails, or a process with a new id runs. */
    method Launch(k: Kind, pid: nat) returns (h: nat)
      modifies this`owner, this`alive
      ensures h == pid
      ensures owner == if pid == 0 then old(owner) else old(owner)[pid := k]
      ensures alive == if pid == 0 then old(alive) else old(alive) + {pid}
    {
      h := pid;
      if pid != 0 {
        owner := owner[pid := k];
        alive := alive + {pid};
      }
    }

    method StartSink(k: Kind, configured: bool, pid: nat)
      modifies this
      ensures Value() == Start(old(Value()), k, configured, pid)
    {
      if sinks.Get(k).running || sinks.Get(k).proc != 0 {
        SetState(k, Running);
        return;
      }
      SetState(k, Starting);
      if !configured {
        SetState(k, Failed);
        return;
      }
      var h := Launch(k, pid);
      SetHandle(k, h);
      if h == 0 {
        SetState(k, Failed);
        return;
      }
      SetRunning(k, true);
      SetState(k, Running);
    }

    method KillProc(k: Kind)
      modifies this`sinks, this`alive, this`killed
      ensures sinks == old(sinks).With(k, old(sinks).Get(k).(proc := 0))
      ensures alive == Kill(old(Value()), old(sinks).Get(k).proc).alive
      ensures killed == Kill(old(Value()), old(sinks).Get(k).proc).killed
    {
      var pid := sinks.Get(k).proc;
      if pid > 0 {
        alive := alive - {pid};
        killed := killed + {pid};
      }
      SetHandle(k, 0);
    }

    method StopSink(k: Kind)
      modifies this
      ensures Value() == Stop(old(Value()), k)
    {
      SetState(k, Stopping);
      KillProc(k);
      SetRunning(k, false);
      SetState(k, Stopped);
    }

    method PollSink(k: Kind)
      modifies this`sinks, this`seen
      ensures Value() == PollOne(old(Value()), k)
    {
      var s := sinks.Get(k);
      if s.running && s.proc !in alive {
        seen := seen + {s.proc};
        SetHandle(k, 0);
        SetRunning(k, false);
        SetState(k, Failed);
      }
    }

    method PollSinkProcesses()
      modifies this`sinks, this`seen
      ensures Value() == Poll(old(Value()))
    {
      PollSink(Aac);
      PollSink(Mp3);
      PollSink(Hls);
      PollSink(Srt);
    }

    /** A gain change restarts a sink that is running. */
    method RestartForGain(k: Kind, configured: bool, pid: nat)
      modifies this
      ensures Value() == RestartOne(old(Value()), k, configured, pid)
    {
      if sinks.Get(k).running {
        StopSink(k);
        StartSink(k, configured, pid);
      }
    }
  }
}
