/** One supervisor cue request against the worker, over the shared metadata_runtime.json.

    The supervisor (another process) reads and replaces the file without a lock. Inside the worker the control
    thread, the dispatch thread and the metadata listener update it under one lock, each update being a read and
    a write that the supervisor may come between. */
module CueExchange {
  import opened Text
  import opened Json
  import opened BreakState

  datatype SupervisorPc = Start | HasCopy | Waiting | Answered | Ready | Finished
  datatype ControlPc = Idle | Storing | Stored | Counting | Counted | Acked
  datatype Owner = Free | Control | Other

  datatype Sys = Sys(
    file: string,
    memory: Range,
    sup: SupervisorPc, supCopy: Values, sent: bool,
    ctl: ControlPc, ctlCopy: Values,
    otherCopy: Values,
    lock: Owner,
    stored: Option<Values>)   // history: what the control thread wrote for this cue

  datatype Job = Job(encoder: int, c: Cue, parseUtc: string -> int)

  const METRICS := {"dispatchQueueDepth", "metadataDispatchQueueDepth", "sidecarDispatchQueueDepth",
                    "metadataDispatchDropped", "sidecarDispatchDropped"}

  /** What the metadata listener stores for every piece of metadata it receives. */
  const LISTENER := {"eventCount", "lastPayloadUtc", "lastRawXml",
                     "lastFormattedAAC", "lastFormattedMP3", "lastFormattedHLS", "lastFormattedSRT"}

  /** updateDispatchRuntimeMetrics: only the five counters change. */
  ghost predicate CountersUpdated(m: Values, m': Values) {
    Storable(m') && forall k | k !in METRICS :: (k in m' <==> k in m) && (k in m ==> m'[k] == m[k])
  }

  /** The break fields of two objects are the same. */
  ghost predicate SameBreak(a: Values, b: Values) {
    forall f: Field :: (KeyOf(f) in a <==> KeyOf(f) in b) && (KeyOf(f) in a ==> a[KeyOf(f)] == b[KeyOf(f)])
  }

  /** An update by another worker thread: any keys but those of the break. */
  ghost predicate OthersUpdated(m: Values, m': Values) { Storable(m') && SameBreak(m', m) }

  // ---------- steps ----------

  predicate Init(s: Sys) {
    s.sup == Start && !s.sent && s.ctl == Idle && s.lock == Free && s.stored == None &&
    s.supCopy == map[] && s.ctlCopy == map[] && s.otherCopy == map[]
  }

  predicate SupervisorReads(s: Sys, s': Sys, cue: string) {
    s.sup == Start && s' == s.(sup := HasCopy, supCopy := WithString(ReadFile(s.file), "lastScteReceived", cue))
  }

  predicate SupervisorSends(s: Sys, s': Sys) {
    s.sup == HasCopy && s' == s.(sup := Waiting)
  }

  predicate SupervisorGetsOk(s: Sys, s': Sys) {
    s.sup == Waiting && s.ctl == Acked && s' == s.(sup := Answered, sent := true)
  }

  /** Connection refused, no answer in time, or an answer that is not OK. */
  predicate SupervisorGivesUp(s: Sys, s': Sys) {
    (s.sup == HasCopy || s.sup == Waiting) && s' == s.(sup := Ready)
  }

  predicate SupervisorRereads(s: Sys, s': Sys) {
    s.sup == Answered && s' == s.(sup := Ready, supCopy := ReadFile(s.file))
  }

  ghost predicate SupervisorWrites(s: Sys, s': Sys, note: string) {
    s.sup == Ready &&
    s' == s.(sup := Finished,
             file := Serialized(WithString(s.supCopy, if s.sent then "lastScteSent" else "lastScteRejected", note)))
  }

  predicate ControlReads(s: Sys, s': Sys) {
    s.sup != Start && s.sup != HasCopy && s.ctl == Idle && s.lock == Free &&
    s' == s.(ctl := Storing, lock := Control, ctlCopy := ReadFile(s.file))
  }

  ghost predicate ControlStores(s: Sys, s': Sys, job: Job, m': Values, memory': Range) {
    s.ctl == Storing && Updates(s.ctlCopy, s.memory, job.encoder, job.c, job.parseUtc, m', memory') &&
    s' == s.(ctl := Stored, lock := Free, file := Serialized(m'), memory := memory', stored := Some(m'))
  }

  /** The sidecar task was queued: its counters are written before the answer. */
  predicate ControlReadsAgain(s: Sys, s': Sys) {
    s.ctl == Stored && s.lock == Free && s' == s.(ctl := Counting, lock := Control, ctlCopy := ReadFile(s.file))
  }

  ghost predicate ControlCounts(s: Sys, s': Sys, m': Values) {
    s.ctl == Counting && CountersUpdated(s.ctlCopy, m') &&
    s' == s.(ctl := Counted, lock := Free, file := Serialized(m'))
  }

  predicate ControlAnswers(s: Sys, s': Sys) {
    (s.ctl == Stored || s.ctl == Counted) && s' == s.(ctl := Acked)
  }

  predicate OtherReads(s: Sys, s': Sys) {
    s.lock == Free && s' == s.(lock := Other, otherCopy := ReadFile(s.file))
  }

  ghost predicate OtherWrites(s: Sys, s': Sys, m': Values) {
    s.lock == Other && OthersUpdated(s.otherCopy, m') && s' == s.(lock := Free, file := Serialized(m'))
  }

  datatype Action = SupRead(cue: string) | SupSend | SupOk | SupGiveUp | SupReread | SupWrite(note: string)
                  | CtlRead | CtlStore(m: Values, memory: Range) | CtlReadAgain | CtlCount(m: Values) | CtlAnswer
                  | OtherRead | OtherWrite(m: Values)

  ghost predicate Next(s: Sys, s': Sys, job: Job, a: Action) {
    match a
    case SupRead(cue) => SupervisorReads(s, s', cue)
    case SupSend => SupervisorSends(s, s')
    case SupOk => SupervisorGetsOk(s, s')
    case SupGiveUp => SupervisorGivesUp(s, s')
    case SupReread => SupervisorRereads(s, s')
    case SupWrite(note) => SupervisorWrites(s, s', note)
    case CtlRead => ControlReads(s, s')
    case CtlStore(m, memory) => ControlStores(s, s', job, m, memory)
    case CtlReadAgain => ControlReadsAgain(s, s')
    case CtlCount(m) => ControlCounts(s, s', m)
    case CtlAnswer => ControlAnswers(s, s')
    case OtherRead => OtherReads(s, s')
    case OtherWrite(m) => OtherWrites(s, s', m)
  }

  // ---------- the invariant ----------

  ghost predicate CopiesStorable(s: Sys) {
    Storable(ReadFile(s.file)) && Storable(s.supCopy) && Storable(s.ctlCopy) && Storable(s.otherCopy) &&
    (s.stored.Some? ==> Storable(s.stored.value))
  }

  ghost predicate Order(s: Sys) {
    (s.lock == Control <==> s.ctl == Storing || s.ctl == Counting) &&
    (s.stored.Some? <==> s.ctl !in {Idle, Storing}) &&
    (s.sent ==> s.ctl == Acked && s.sup in {Answered, Ready, Finished}) &&
    (s.sup == Answered ==> s.sent)
  }

  /** No stale copy has been written back. */
  predicate NoStaleWrite(s: Sys) { s.sup == Finished ==> s.sent }

  /** Since the control thread stored the break, the file and every copy that can still be written hold
      the stored break fields. */
  ghost predicate BreakKept(s: Sys) {
    s.stored.Some? && NoStaleWrite(s) ==>
      SameBreak(ReadFile(s.file), s.stored.value) &&
      (s.lock == Other ==> SameBreak(s.otherCopy, s.stored.value)) &&
      (s.ctl == Counting ==> SameBreak(s.ctlCopy, s.stored.value)) &&
      (s.sup == Ready && s.sent ==> SameBreak(s.supCopy, s.stored.value))
  }

  ghost predicate Inv(s: Sys) { CopiesStorable(s) && Order(s) && BreakKept(s) }

  lemma SameBreakTrans(a: Values, b: Values, c: Values)
    requires SameBreak(a, b) && SameBreak(b, c)
    ensures SameBreak(a, c)
  {
    hide KeyOf;
  }

  lemma NotABreakKey(f: Field)
    ensures KeyOf(f) !in METRICS && KeyOf(f) !in LISTENER
    ensures KeyOf(f) != "lastScteReceived" && KeyOf(f) != "lastScteSent" && KeyOf(f) != "lastScteRejected"
  {
    assert KeyOf(f)[0] == 'h';
  }

  lemma CountersKeepBreak(m: Values, m': Values)
    requires CountersUpdated(m, m')
    ensures SameBreak(m', m)
  {
    hide KeyOf, Storable;
    forall f: Field ensures KeyOf(f) !in METRICS { NotABreakKey(f); }
  }

  /** The two other threads that update the file do only what the other updates may: the dispatch thread writes
      counters, the metadata listener its seven keys. */
  lemma OtherThreadsKeepBreak(m: Values, m': Values)
    requires Storable(m')
    requires (forall k | k !in METRICS :: (k in m' <==> k in m) && (k in m ==> m'[k] == m[k])) ||
             (forall k | k !in LISTENER :: (k in m' <==> k in m) && (k in m ==> m'[k] == m[k]))
    ensures OthersUpdated(m, m')
  {
    hide KeyOf, Storable;
    forall f: Field ensures KeyOf(f) !in METRICS && KeyOf(f) !in LISTENER { NotABreakKey(f); }
  }

  lemma NoteKeepsBreak(m: Values, key: string, note: string)
    requires key == "lastScteReceived" || key == "lastScteSent" || key == "lastScteRejected"
    ensures SameBreak(WithString(m, key, note), m)
  {
    hide KeyOf;
    forall f: Field ensures KeyOf(f) != key { NotABreakKey(f); }
  }

  lemma NoteStorable(m: Values, key: string, note: string)
    requires Storable(m)
    ensures Storable(WithString(m, key, note))
  {
    hide SelfDelimiting;
  }

  ghost predicate JobOk(job: Job) { ParsesInRange(job.parseUtc) && ValidCue(job.c) }

  ghost predicate InitOk(s: Sys, job: Job) {
    Init(s) && Coherent(s.file, s.memory, job.parseUtc)
  }

  lemma InitInv(s: Sys, job: Job)
    requires InitOk(s, job)
    ensures Inv(s)
  {
    hide ReadFile;
  }

  lemma UpdatesStorable(m: Values, memory: Range, job: Job, m': Values, memory': Range)
    requires JobOk(job) && Storable(m)
    requires Updates(m, memory, job.encoder, job.c, job.parseUtc, m', memory')
    ensures Storable(m')
  {
    hide Storable, Effect, Recall, ParsesInRange, ValidCue, Stores;
    if IsBreakAction(job.c.action) {
      StoredIsStorable(m, m', memory', job.c.nowIso);
    }
  }

  lemma NextInv(s: Sys, s': Sys, job: Job, a: Action)
    requires JobOk(job) && Inv(s) && Next(s, s', job, a)
    ensures Inv(s')
  {
    hide ReadFile, Serialized, Storable, SameBreak, Updates, CountersUpdated, OthersUpdated, JobOk, WithString;
    SameBreakIsReflexive(ReadFile(s.file));
    match a
    case SupRead(cue) => NoteStorable(ReadFile(s.file), "lastScteReceived", cue);
    case SupSend =>
    case SupOk =>
    case SupGiveUp =>
    case SupReread =>
    case SupWrite(note) =>
      var key := if s.sent then "lastScteSent" else "lastScteRejected";
      var m := WithString(s.supCopy, key, note);
      NoteStorable(s.supCopy, key, note);
      ReadSerialized(m);
      NoteKeepsBreak(s.supCopy, key, note);
      if s.stored.Some? && s.sent { SameBreakTrans(m, s.supCopy, s.stored.value); }
    case CtlRead =>
    case CtlStore(m, memory) =>
      UpdatesStorable(s.ctlCopy, s.memory, job, m, memory);
      ReadSerialized(m);
      SameBreakIsReflexive(m);
    case CtlReadAgain =>
    case CtlCount(m) =>
      CountersAreOthers(s.ctlCopy, m);
      OthersWritten(s, s.ctlCopy, m);
    case CtlAnswer =>
    case OtherRead =>
    case OtherWrite(m) => OthersWritten(s, s.otherCopy, m);
  }

  lemma SameBreakIsReflexive(m: Values)
    ensures SameBreak(m, m)
  {
    hide KeyOf;
  }

  lemma OthersWritten(s: Sys, copy: Values, m: Values)
    requires OthersUpdated(copy, m)
    ensures ReadFile(Serialized(m)) == m && Storable(m)
    ensures s.stored.Some? && SameBreak(copy, s.stored.value) ==> SameBreak(m, s.stored.value)
  {
    hide ReadFile, Serialized, SameBreak, Storable;
    ReadSerialized(m);
    if s.stored.Some? && SameBreak(copy, s.stored.value) { SameBreakTrans(m, copy, s.stored.value); }
  }

  lemma CountersAreOthers(copy: Values, m: Values)
    requires CountersUpdated(copy, m)
    ensures OthersUpdated(copy, m)
  {
    hide SameBreak, Storable;
    CountersKeepBreak(copy, m);
    CountersStorable(copy, m);
  }

  lemma CountersStorable(copy: Values, m: Values)
    requires CountersUpdated(copy, m)
    ensures Storable(m)
  {
  }

  // ---------- runs ----------

  ghost predicate IsRun(states: seq<Sys>, actions: seq<Action>, job: Job) {
    |states| == |actions| + 1 && InitOk(states[0], job) &&
    forall i | 0 <= i < |actions| :: Next(states[i], states[i + 1], job, actions[i])
  }

  lemma {:induction false} RunInv(states: seq<Sys>, actions: seq<Action>, job: Job, i: nat)
    requires JobOk(job) && IsRun(states, actions, job) && i <= |actions|
    ensures Inv(states[i])
  {
    hide Inv, Next, InitOk, JobOk;
    if i == 0 {
      InitInv(states[0], job);
    } else {
      RunInv(states, actions, job, i - 1);
      NextInv(states[i - 1], states[i], job, actions[i - 1]);
    }
  }

  lemma SameFieldSameText(a: Values, b: Values, f: Field)
    requires SameBreak(a, b)
    ensures TextField(a, f) == TextField(b, f) && GetBool(a, KeyOf(f), false) == GetBool(b, KeyOf(f), false)
  {
    hide KeyOf, Trim;
  }

  lemma SameFieldSameEpoch(a: Values, b: Values, f: Field, date: string, parseUtc: string -> int)
    requires SameBreak(a, b)
    ensures EpochField(a, f, date, parseUtc) == EpochField(b, f, date, parseUtc)
  {
    hide KeyOf, TrimBy, ParseInt;
  }

  /** The break fields stand for the break record. */
  lemma SameBreakSameRange(a: Values, b: Values, parseUtc: string -> int)
    requires SameBreak(a, b)
    ensures ReadRange(a, parseUtc) == ReadRange(b, parseUtc)
  {
    hide SameBreak, KeyOf, TextField, EpochField, GetBool;
    forall f: Field
      ensures TextField(a, f) == TextField(b, f) && GetBool(a, KeyOf(f), false) == GetBool(b, KeyOf(f), false)
    {
      SameFieldSameText(a, b, f);
    }
    SameFieldSameEpoch(a, b, StartEpochMs, TextField(a, StartDate), parseUtc);
    SameFieldSameEpoch(a, b, EndEpochMs, TextField(a, EndDate), parseUtc);
  }

  /** For every interleaving: once the worker has answered OK, nothing the supervisor or any thread of the worker
      writes later takes the break away that was stored for the cue. */
  lemma AnsweredBreakIsKept(states: seq<Sys>, actions: seq<Action>, job: Job, i: nat)
    requires JobOk(job) && IsRun(states, actions, job) && i <= |actions| && states[i].sent
    ensures states[i].stored.Some? && SameBreak(ReadFile(states[i].file), states[i].stored.value)
    ensures ReadRange(ReadFile(states[i].file), job.parseUtc) == ReadRange(states[i].stored.value, job.parseUtc)
  {
    hide SameBreak, ReadRange, ReadFile, CopiesStorable, Next, InitOk, JobOk;
    RunInv(states, actions, job, i);
    SameBreakSameRange(ReadFile(states[i].file), states[i].stored.value, job.parseUtc);
  }

  // ---------- what was stored is the effect of the cue ----------

  /** While the control thread has not stored yet, no one changes the break. */
  ghost predicate Untouched(s: Sys, first: Sys) {
    s.stored.None? ==>
      s.memory == first.memory && !s.sent &&
      SameBreak(ReadFile(s.file), ReadFile(first.file)) &&
      (s.sup != Start ==> SameBreak(s.supCopy, ReadFile(first.file))) &&
      (s.lock == Other ==> SameBreak(s.otherCopy, ReadFile(first.file))) &&
      (s.ctl == Storing ==> SameBreak(s.ctlCopy, ReadFile(first.file)))
  }

  ghost predicate StoresEffect(s: Sys, first: Sys, job: Job) {
    s.stored.Some? ==>
      ReadRange(s.stored.value, job.parseUtc)
      == Effect(Effective(first.file, first.memory, job.parseUtc), job.encoder, job.c)
  }

  lemma EffectStored(s: Sys, first: Sys, job: Job, m: Values, memory: Range)
    requires JobOk(job) && InitOk(first, job) && Storable(s.ctlCopy)
    requires s.memory == first.memory && SameBreak(s.ctlCopy, ReadFile(first.file))
    requires Updates(s.ctlCopy, s.memory, job.encoder, job.c, job.parseUtc, m, memory)
    ensures ReadRange(m, job.parseUtc) == Effect(Effective(first.file, first.memory, job.parseUtc), job.encoder, job.c)
  {
    hide ReadFile, ReadRange, SameBreak, Storable, Effect, Updates, ParsesInRange, ValidCue, IsBreakKey;
    SameBreakSameRange(s.ctlCopy, ReadFile(first.file), job.parseUtc);
    UpdateStep(s.ctlCopy, s.memory, job.encoder, job.c, job.parseUtc, m, memory);
  }

  lemma NextUntouched(s: Sys, s': Sys, first: Sys, job: Job, a: Action)
    requires JobOk(job) && InitOk(first, job) && Inv(s) && Next(s, s', job, a)
    requires Untouched(s, first) && StoresEffect(s, first, job)
    ensures Untouched(s', first) && StoresEffect(s', first, job)
  {
    hide ReadFile, Serialized, Storable, SameBreak, Updates, CountersUpdated;
    hide JobOk, InitOk, BreakKept, WithString, ReadRange, Effect, Effective;
    var f := ReadFile(first.file);
    SameBreakIsReflexive(f);
    match a
    case SupRead(cue) =>
      NoteKeepsBreak(ReadFile(s.file), "lastScteReceived", cue);
      if s.stored.None? { SameBreakTrans(s'.supCopy, ReadFile(s.file), f); }
    case SupSend =>
    case SupOk =>
    case SupGiveUp =>
    case SupReread =>
    case SupWrite(note) =>
      var key := if s.sent then "lastScteSent" else "lastScteRejected";
      NoteStorable(s.supCopy, key, note);
      ReadSerialized(WithString(s.supCopy, key, note));
      NoteKeepsBreak(s.supCopy, key, note);
      if s.stored.None? { SameBreakTrans(WithString(s.supCopy, key, note), s.supCopy, f); }
    case CtlRead =>
    case CtlStore(m, memory) => EffectStored(s, first, job, m, memory);
    case CtlReadAgain =>
    case CtlCount(m) =>
    case CtlAnswer =>
    case OtherRead =>
    case OtherWrite(m) =>
      ReadSerialized(m);
      if s.stored.None? { SameBreakTrans(m, s.otherCopy, f); }
  }

  lemma {:induction false} RunStoresEffect(states: seq<Sys>, actions: seq<Action>, job: Job, i: nat)
    requires JobOk(job) && IsRun(states, actions, job) && i <= |actions|
    ensures Untouched(states[i], states[0]) && StoresEffect(states[i], states[0], job)
  {
    hide Inv, Next, InitOk, JobOk, SameBreak, ReadFile, StoresEffect, Untouched;
    if i == 0 {
      FirstUntouched(states[0], job);
    } else {
      RunStoresEffect(states, actions, job, i - 1);
      RunInv(states, actions, job, i - 1);
      NextUntouched(states[i - 1], states[i], states[0], job, actions[i - 1]);
    }
  }

  lemma FirstUntouched(s: Sys, job: Job)
    requires InitOk(s, job)
    ensures Untouched(s, s) && StoresEffect(s, s, job)
  {
    hide ReadFile, SameBreak, ReadRange;
    SameBreakIsReflexive(ReadFile(s.file));
  }

  /** Together: after OK, the break in the file is the effect of this cue on the break before the request,
      at every later point of every interleaving. */
  lemma AnsweredCueTookEffect(states: seq<Sys>, actions: seq<Action>, job: Job, i: nat)
    requires JobOk(job) && IsRun(states, actions, job) && i <= |actions| && states[i].sent
    ensures ReadRange(ReadFile(states[i].file), job.parseUtc)
         == Effect(Effective(states[0].file, states[0].memory, job.parseUtc), job.encoder, job.c)
  {
    hide ReadFile, ReadRange, Effect, Effective, Next, InitOk, JobOk, SameBreak, Untouched;
    AnsweredBreakIsKept(states, actions, job, i);
    RunStoresEffect(states, actions, job, i);
  }

  // ---------- without the answer ----------

  /** As long as the supervisor has no answer, the copy it may write back holds the break of before the request. */
  ghost predicate OldCopy(s: Sys, first: Sys) {
    (s.sup == Start ==> s.ctl == Idle) &&
    (s.sup != Start && !s.sent ==> SameBreak(s.supCopy, ReadFile(first.file)))
  }

  lemma NextOldCopy(s: Sys, s': Sys, first: Sys, job: Job, a: Action)
    requires Inv(s) && Next(s, s', job, a) && Untouched(s, first) && OldCopy(s, first)
    ensures OldCopy(s', first)
  {
    hide ReadFile, Serialized, Storable, SameBreak, Updates, CountersUpdated, OthersUpdated, BreakKept, WithString;
    match a
    case SupRead(cue) =>
      NoteKeepsBreak(ReadFile(s.file), "lastScteReceived", cue);
      SameBreakTrans(s'.supCopy, ReadFile(s.file), ReadFile(first.file));
    case SupSend =>
    case SupOk =>
    case SupGiveUp =>
    case SupReread =>
    case SupWrite(note) =>
    case CtlRead =>
    case CtlStore(m, memory) =>
    case CtlReadAgain =>
    case CtlCount(m) =>
    case CtlAnswer =>
    case OtherRead =>
    case OtherWrite(m) =>
  }

  lemma {:induction false} RunOldCopy(states: seq<Sys>, actions: seq<Action>, job: Job, i: nat)
    requires JobOk(job) && IsRun(states, actions, job) && i <= |actions|
    ensures OldCopy(states[i], states[0])
  {
    hide Inv, Next, InitOk, JobOk, SameBreak, ReadFile, StoresEffect, Untouched, OldCopy;
    if i == 0 {
      FirstOldCopy(states[0], job);
    } else {
      RunOldCopy(states, actions, job, i - 1);
      RunInv(states, actions, job, i - 1);
      RunStoresEffect(states, actions, job, i - 1);
      NextOldCopy(states[i - 1], states[i], states[0], job, actions[i - 1]);
    }
  }

  lemma FirstOldCopy(s: Sys, job: Job)
    requires InitOk(s, job)
    ensures OldCopy(s, s)
  {
    hide ReadFile, SameBreak;
  }

  lemma SameBreakSym(a: Values, b: Values)
    requires SameBreak(a, b)
    ensures SameBreak(b, a)
  {
    hide KeyOf;
  }

  /** For every run: the supervisor's final write leaves the break that was stored for the cue if and only if it
      had the worker's answer, or the break of before the request was the same one anyway. */
  lemma FinalWriteKeepsBreakIff(states: seq<Sys>, actions: seq<Action>, job: Job, i: nat)
    requires JobOk(job) && IsRun(states, actions, job) && i < |actions|
    requires actions[i].SupWrite? && states[i].stored.Some?
    ensures SameBreak(ReadFile(states[i + 1].file), states[i].stored.value) <==>
            states[i].sent || SameBreak(ReadFile(states[0].file), states[i].stored.value)
  {
    hide SameBreak, ReadFile, Serialized, Storable, InitOk, JobOk, WithString;
    var s, f := states[i], ReadFile(states[0].file);
    RunInv(states, actions, job, i);
    RunOldCopy(states, actions, job, i);
    assert Next(s, states[i + 1], job, actions[i]);
    var key := if s.sent then "lastScteSent" else "lastScteRejected";
    var m := WithString(s.supCopy, key, actions[i].note);
    NoteStorable(s.supCopy, key, actions[i].note);
    ReadSerialized(m);
    NoteKeepsBreak(s.supCopy, key, actions[i].note);
    if s.sent {
      SameBreakTrans(m, s.supCopy, s.stored.value);
    } else {
      SameBreakTrans(m, s.supCopy, f);
      SameBreakSym(m, f);
      if SameBreak(f, s.stored.value) { SameBreakTrans(m, f, s.stored.value); }
      if SameBreak(m, s.stored.value) { SameBreakTrans(f, m, s.stored.value); }
    }
  }

  /** The beginning of a request: the supervisor's copy, its command sent, and the break stored by the worker. */
  lemma StoreSteps(s: Sys, job: Job, m: Values, memory: Range, cue: string)
    returns (copied: Sys, sent: Sys, locked: Sys, stored: Sys)
    requires JobOk(job) && InitOk(s, job)
    requires Updates(ReadFile(s.file), s.memory, job.encoder, job.c, job.parseUtc, m, memory)
    ensures Next(s, copied, job, SupRead(cue)) && Next(copied, sent, job, SupSend)
    ensures Next(sent, locked, job, CtlRead) && Next(locked, stored, job, CtlStore(m, memory))
    ensures stored.sup == Waiting && stored.ctl == Stored && stored.lock == Free && stored.stored == Some(m)
    ensures stored.file == Serialized(m) && Storable(m) && !stored.sent
    ensures stored.supCopy == WithString(ReadFile(s.file), "lastScteReceived", cue) && Storable(ReadFile(s.file))
  {
    hide ReadFile, Serialized, Storable, Updates, JobOk, WithString, Coherent;
    var f := ReadFile(s.file);
    InitInv(s, job);
    InitStorable(s, job);
    UpdatesStorable(f, s.memory, job, m, memory);
    copied := s.(sup := HasCopy, supCopy := WithString(f, "lastScteReceived", cue));
    sent := copied.(sup := Waiting);
    locked := sent.(ctl := Storing, lock := Control, ctlCopy := f);
    stored := locked.(ctl := Stored, lock := Free, file := Serialized(m), memory := memory, stored := Some(m));
  }

  /** The losing case occurs: from every starting point there is a run in which the worker stores the break, its
      answer comes too late, and the supervisor's copy from before puts the old break fields back. */
  lemma LostAnswerLosesBreak(s0: Sys, job: Job, m: Values, memory: Range, cue: string, note: string)
    returns (states: seq<Sys>, actions: seq<Action>)
    requires JobOk(job) && InitOk(s0, job)
    requires Updates(ReadFile(s0.file), s0.memory, job.encoder, job.c, job.parseUtc, m, memory)
    ensures IsRun(states, actions, job) && states[0] == s0
    ensures var last := states[|actions|];
            last.sup == Finished && !last.sent && last.stored == Some(m) &&
            SameBreak(ReadFile(last.file), ReadFile(s0.file))
  {
    hide ReadFile, Serialized, Storable, Updates, SameBreak, JobOk, WithString, Coherent;
    var f := ReadFile(s0.file);
    var s1, s2, s3, s4 := StoreSteps(s0, job, m, memory, cue);
    var s5 := s4.(sup := Ready);
    var stale := WithString(s4.supCopy, "lastScteRejected", note);
    var s6 := s5.(sup := Finished, file := Serialized(stale));
    states := [s0, s1, s2, s3, s4, s5, s6];
    actions := [SupRead(cue), SupSend, CtlRead, CtlStore(m, memory), SupGiveUp, SupWrite(note)];
    assert Next(s0, s1, job, actions[0]) && Next(s1, s2, job, actions[1]) && Next(s2, s3, job, actions[2]);
    assert Next(s3, s4, job, actions[3]) && Next(s4, s5, job, actions[4]) && Next(s5, s6, job, actions[5]);
    NoteStorable(f, "lastScteReceived", cue);
    NoteStorable(s4.supCopy, "lastScteRejected", note);
    ReadSerialized(stale);
    NoteKeepsBreak(f, "lastScteReceived", cue);
    NoteKeepsBreak(s4.supCopy, "lastScteRejected", note);
    SameBreakTrans(stale, s4.supCopy, f);
  }

  /** From the worker's last write to the supervisor's: the answer, its arrival, the file read again and the note. */
  lemma AnswerSteps(s: Sys, job: Job, c: Values, note: string)
    returns (acked: Sys, answered: Sys, reread: Sys, last: Sys)
    requires s.sup == Waiting && (s.ctl == Stored || s.ctl == Counted) && s.file == Serialized(c) && Storable(c)
    ensures Next(s, acked, job, CtlAnswer) && Next(acked, answered, job, SupOk)
    ensures Next(answered, reread, job, SupReread) && Next(reread, last, job, SupWrite(note))
    ensures last.sup == Finished && last.sent && last.ctl == Acked && last.lock == s.lock && last.stored == s.stored
    ensures ReadFile(last.file) == WithString(c, "lastScteSent", note) && SameBreak(ReadFile(last.file), c)
  {
    hide ReadFile, Serialized, Storable, SameBreak, WithString;
    ReadSerialized(c);
    acked := s.(ctl := Acked);
    answered := acked.(sup := Answered, sent := true);
    reread := answered.(sup := Ready, supCopy := c);
    var noted := WithString(c, "lastScteSent", note);
    last := reread.(sup := Finished, file := Serialized(noted));
    NoteStorable(c, "lastScteSent", note);
    ReadSerialized(noted);
    NoteKeepsBreak(c, "lastScteSent", note);
  }

  /** With the answer in time, the same request keeps it: from every starting point a run goes through to the
      supervisor's final write, and the file then holds the stored break and the note of the command sent. */
  lemma AnsweredRunKeepsBreak(s0: Sys, job: Job, m: Values, memory: Range, cue: string, note: string)
    returns (states: seq<Sys>, actions: seq<Action>)
    requires JobOk(job) && InitOk(s0, job)
    requires Updates(ReadFile(s0.file), s0.memory, job.encoder, job.c, job.parseUtc, m, memory)
    ensures IsRun(states, actions, job) && states[0] == s0
    ensures var last := states[|actions|];
            last.sup == Finished && last.sent && last.stored == Some(m) &&
            SameBreak(ReadFile(last.file), m) && ReadFile(last.file) == WithString(m, "lastScteSent", note)
  {
    hide ReadFile, Serialized, Storable, Updates, SameBreak, JobOk, WithString, Coherent;
    var s1, s2, s3, s4 := StoreSteps(s0, job, m, memory, cue);
    var s5, s6, s7, s8 := AnswerSteps(s4, job, m, note);
    states := [s0, s1, s2, s3, s4, s5, s6, s7, s8];
    actions := [SupRead(cue), SupSend, CtlRead, CtlStore(m, memory), CtlAnswer, SupOk, SupReread, SupWrite(note)];
    assert Next(s0, s1, job, actions[0]) && Next(s1, s2, job, actions[1]) && Next(s2, s3, job, actions[2]);
    assert Next(s3, s4, job, actions[3]) && Next(s4, s5, job, actions[4]) && Next(s5, s6, job, actions[5]);
    assert Next(s6, s7, job, actions[6]) && Next(s7, s8, job, actions[7]);
  }

  /** Between the break and the answer: another thread's update, and the worker's count of the work it queued. */
  lemma CountingSteps(s: Sys, job: Job, m: Values, o: Values, c: Values)
    returns (read: Sys, written: Sys, again: Sys, counted: Sys)
    requires s.ctl == Stored && s.lock == Free && s.file == Serialized(m) && Storable(m)
    requires OthersUpdated(m, o) && CountersUpdated(o, c)
    ensures Next(s, read, job, OtherRead) && Next(read, written, job, OtherWrite(o))
    ensures Next(written, again, job, CtlReadAgain) && Next(again, counted, job, CtlCount(c))
    ensures counted == s.(ctl := Counted, otherCopy := m, ctlCopy := o, file := Serialized(c))
  {
    hide ReadFile, Serialized, Storable, SameBreak;
    ReadSerialized(m);
    ReadSerialized(o);
    read := s.(lock := Other, otherCopy := m);
    written := read.(lock := Free, file := Serialized(o));
    again := written.(ctl := Counting, lock := Control, ctlCopy := o);
    counted := again.(ctl := Counted, lock := Free, file := Serialized(c));
  }

  /** The same with everything in between: another thread updates the file between the break and the answer, and
      the worker counts the work it queued. The file then holds the counted object and the note, break kept. */
  lemma CountedRunKeepsBreak(s0: Sys, job: Job, m: Values, memory: Range, o: Values, c: Values,
                             cue: string, note: string) returns (states: seq<Sys>, actions: seq<Action>)
    requires JobOk(job) && InitOk(s0, job)
    requires Updates(ReadFile(s0.file), s0.memory, job.encoder, job.c, job.parseUtc, m, memory)
    requires OthersUpdated(m, o) && CountersUpdated(o, c)
    ensures IsRun(states, actions, job) && states[0] == s0 && CtlReadAgain in actions && OtherRead in actions
    ensures var last := states[|actions|];
            last.sup == Finished && last.sent && last.ctl == Acked && last.lock == Free && last.stored == Some(m) &&
            SameBreak(ReadFile(last.file), m) && ReadFile(last.file) == WithString(c, "lastScteSent", note)
  {
    hide ReadFile, Serialized, Storable, Updates, SameBreak, JobOk, WithString, Coherent;
    var s1, s2, s3, s4 := StoreSteps(s0, job, m, memory, cue);
    var s5, s6, s7, s8 := CountingSteps(s4, job, m, o, c);
    var s9, s10, s11, s12 := AnswerSteps(s8, job, c, note);
    states := [s0, s1, s2, s3, s4, s5, s6, s7, s8, s9, s10, s11, s12];
    actions := [SupRead(cue), SupSend, CtlRead, CtlStore(m, memory), OtherRead, OtherWrite(o), CtlReadAgain,
                CtlCount(c), CtlAnswer, SupOk, SupReread, SupWrite(note)];
    assert actions[6] == CtlReadAgain && actions[4] == OtherRead;
    assert Next(s0, s1, job, actions[0]) && Next(s1, s2, job, actions[1]) && Next(s2, s3, job, actions[2]);
    assert Next(s3, s4, job, actions[3]) && Next(s8, s9, job, actions[8]);
    assert Next(s9, s10, job, actions[9]) && Next(s10, s11, job, actions[10]) && Next(s11, s12, job, actions[11]);
    CountersKeepBreak(o, c);
    SameBreakTrans(c, o, m);
    SameBreakTrans(ReadFile(s12.file), c, m);
  }

  lemma InitStorable(s: Sys, job: Job)
    requires InitOk(s, job)
    ensures Storable(ReadFile(s.file))
  {
  }

  // ---------- what the worker still holds ----------

  /** Once the break is stored, the worker's copy in memory is the effect of the cue, whatever happens to the file. */
  ghost predicate MemoryHolds(s: Sys, first: Sys, job: Job) {
    s.stored.Some? && IsBreakAction(job.c.action) ==>
      s.memory == Effect(Effective(first.file, first.memory, job.parseUtc), job.encoder, job.c)
  }

  lemma NextMemoryHolds(s: Sys, s': Sys, first: Sys, job: Job, a: Action)
    requires Inv(s) && Next(s, s', job, a) && Untouched(s, first) && MemoryHolds(s, first, job)
    ensures MemoryHolds(s', first, job)
  {
    hide ReadFile, Serialized, Storable, SameBreak, CountersUpdated, OthersUpdated, BreakKept, WithString, ReadRange;
    hide Effect, Stores;
    match a
    case SupRead(cue) =>
    case SupSend =>
    case SupOk =>
    case SupGiveUp =>
    case SupReread =>
    case SupWrite(note) =>
    case CtlRead =>
    case CtlStore(m, memory) => SameBreakSameRange(s.ctlCopy, ReadFile(first.file), job.parseUtc);
    case CtlReadAgain =>
    case CtlCount(m) =>
    case CtlAnswer =>
    case OtherRead =>
    case OtherWrite(m) =>
  }

  lemma {:induction false} RunMemoryHolds(states: seq<Sys>, actions: seq<Action>, job: Job, i: nat)
    requires JobOk(job) && IsRun(states, actions, job) && i <= |actions|
    ensures MemoryHolds(states[i], states[0], job)
  {
    hide Inv, Next, InitOk, JobOk, SameBreak, ReadFile, StoresEffect, Untouched, MemoryHolds;
    if i == 0 {
      FirstMemoryHolds(states[0], job);
    } else {
      RunMemoryHolds(states, actions, job, i - 1);
      RunInv(states, actions, job, i - 1);
      RunStoresEffect(states, actions, job, i - 1);
      NextMemoryHolds(states[i - 1], states[i], states[0], job, actions[i - 1]);
    }
  }

  lemma FirstMemoryHolds(s: Sys, job: Job)
    requires InitOk(s, job)
    ensures MemoryHolds(s, s, job)
  {
    hide ReadFile, Effect, Effective;
  }

  lemma EffectHasId(s: Range, encoder: int, c: Cue)
    requires IsBreakAction(c.action)
    ensures Effect(s, encoder, c).id != ""
  {
    hide IntToString;
  }

  lemma EffectiveIsNormal(s: Sys, job: Job)
    requires JobOk(job) && InitOk(s, job)
    ensures Normal(Effective(s.file, s.memory, job.parseUtc), job.parseUtc)
  {
    hide ReadFile, ReadRange, Normal, Storable;
    ReadIsNormal(ReadFile(s.file), job.parseUtc);
  }

  /** At every later moment of every run, answered or not: the next break action starts from memory, so its record is
      the effect of both cues and the file reads back as that record again, even where the supervisor's last write
      had brought the old break back. */
  lemma NextBreakActionRestores(states: seq<Sys>, actions: seq<Action>, job: Job, i: nat,
                                c: Cue, m: Values, memory: Range)
    requires JobOk(job) && IsRun(states, actions, job) && i <= |actions| && states[i].stored.Some?
    requires IsBreakAction(job.c.action) && IsBreakAction(c.action) && ValidCue(c)
    requires Updates(ReadFile(states[i].file), states[i].memory, job.encoder, c, job.parseUtc, m, memory)
    ensures var was := Effective(states[0].file, states[0].memory, job.parseUtc);
            memory == Effect(Effect(was, job.encoder, job.c), job.encoder, c) && ReadRange(m, job.parseUtc) == memory
  {
    hide ReadFile, ReadRange, Effect, Effective, Next, InitOk, Stores, Normal, ValidCue, IsBreakAction, ParsesInRange;
    var was := Effective(states[0].file, states[0].memory, job.parseUtc);
    RunMemoryHolds(states, actions, job, i);
    EffectiveIsNormal(states[0], job);
    EffectHasId(was, job.encoder, job.c);
    EffectIsNormal(was, job.encoder, job.c, job.parseUtc);
    EffectIsNormal(states[i].memory, job.encoder, c, job.parseUtc);
    ReadStored(ReadFile(states[i].file), m, memory, c.nowIso, job.parseUtc);
  }

  // ---------- the counters ----------

  function WithCounters(m: Values, metadataDepth: int, sidecarDepth: int, metadataDropped: int, sidecarDropped: int):
    Values
  {
    var a := WithInt(m, "dispatchQueueDepth", metadataDepth + sidecarDepth);
    var b := WithInt(a, "metadataDispatchQueueDepth", metadataDepth);
    var c := WithInt(b, "sidecarDispatchQueueDepth", sidecarDepth);
    WithInt(WithInt(c, "metadataDispatchDropped", metadataDropped), "sidecarDispatchDropped", sidecarDropped)
  }

  lemma MetricNamesDiffer()
    ensures |METRICS| == 5
  {
    assert |"dispatchQueueDepth"| == 18 && |"metadataDispatchQueueDepth"| == 26 && |"sidecarDispatchQueueDepth"| == 25;
    assert |"metadataDispatchDropped"| == 23 && |"sidecarDispatchDropped"| == 22;
  }

  lemma IntStorable(m: Values, key: string, n: int)
    requires Storable(m)
    ensures Storable(WithInt(m, key, n))
  {
    hide SelfDelimiting, IntToString;
    NumberIsSelfDelimiting(n);
  }

  /** Storing the counters changes nothing but the five counters, each of which holds its own number. */
  lemma CountersHold(m: Values, metadataDepth: int, sidecarDepth: int, metadataDropped: int, sidecarDropped: int)
    requires Storable(m)
    ensures var r := WithCounters(m, metadataDepth, sidecarDepth, metadataDropped, sidecarDropped);
            CountersUpdated(m, r) && METRICS <= r.Keys &&
            r["dispatchQueueDepth"].raw == IntToString(metadataDepth + sidecarDepth) &&
            r["metadataDispatchQueueDepth"].raw == IntToString(metadataDepth) &&
            r["sidecarDispatchQueueDepth"].raw == IntToString(sidecarDepth) &&
            r["metadataDispatchDropped"].raw == IntToString(metadataDropped) &&
            r["sidecarDispatchDropped"].raw == IntToString(sidecarDropped)
  {
    hide Storable, IntToString;
    MetricNamesDiffer();
    var a := WithInt(m, "dispatchQueueDepth", metadataDepth + sidecarDepth);
    var b := WithInt(a, "metadataDispatchQueueDepth", metadataDepth);
    var c := WithInt(b, "sidecarDispatchQueueDepth", sidecarDepth);
    var d := WithInt(c, "metadataDispatchDropped", metadataDropped);
    IntStorable(m, "dispatchQueueDepth", metadataDepth + sidecarDepth);
    IntStorable(a, "metadataDispatchQueueDepth", metadataDepth);
    IntStorable(b, "sidecarDispatchQueueDepth", sidecarDepth);
    IntStorable(c, "metadataDispatchDropped", metadataDropped);
    IntStorable(d, "sidecarDispatchDropped", sidecarDropped);
  }

  /** The update of the file, as the control and the dispatch thread make it. */
  method UpdateDispatchMetrics(file: string, metadataDepth: int, sidecarDepth: int,
                               metadataDropped: int, sidecarDropped: int) returns (written: string)
    ensures written ==
            Serialized(WithCounters(ReadFile(file), metadataDepth, sidecarDepth, metadataDropped, sidecarDropped))
  {
    hide Serialized, ParseObject, IntToString;
    var rt := new JsonObject();
    if file != "" { var _ := rt.Parse(file); }
    assert rt.values == ReadFile(file);
    rt.SetInt("dispatchQueueDepth", metadataDepth + sidecarDepth);
    rt.SetInt("metadataDispatchQueueDepth", metadataDepth);
    rt.SetInt("sidecarDispatchQueueDepth", sidecarDepth);
    rt.SetInt("metadataDispatchDropped", metadataDropped);
    rt.SetInt("sidecarDispatchDropped", sidecarDropped);
    written := rt.Serialize();
  }
}
