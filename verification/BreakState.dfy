/** The ad-break record kept in memory and in metadata_runtime.json, and the cue actions that change it. */
module BreakState {
  import opened Text
  import opened Json

  datatype Range = Range(
    active: bool, id: string, eventId: string, actionOut: string, actionIn: string,
    cueOut: string, cueIn: string, startDate: string, endDate: string, startMs: int, endMs: int)

  const BLANK := Range(false, "", "", "", "", "", "", "", "", 0, 0)

  datatype Field = Active | Id | EventId | ActionOut | ActionIn | CueOut | CueIn
                 | StartDate | EndDate | StartEpochMs | EndEpochMs | UpdatedUtc

  function KeyOf(f: Field): string {
    "hlsScte" + match f
                case Active => "Active"
                case Id => "Id"
                case EventId => "EventId"
                case ActionOut => "ActionOut"
                case ActionIn => "ActionIn"
                case CueOut => "CueOut"
                case CueIn => "CueIn"
                case StartDate => "StartDate"
                case EndDate => "EndDate"
                case StartEpochMs => "StartEpochMs"
                case EndEpochMs => "EndEpochMs"
                case UpdatedUtc => "UpdatedUtc"
  }

  /** The lengths and a few letters tell the twelve keys apart. */
  lemma KeysDistinct(f: Field, g: Field)
    requires f != g
    ensures KeyOf(f) != KeyOf(g)
  {
    var a, b := KeyOf(f), KeyOf(g);
    if |a| == |b| {
      assert a[7] != b[7] || a[8] != b[8] || a[|a| - 1] != b[|b| - 1];
    }
  }

  /** The names under which both processes keep the record. */
  lemma KeyNames()
    ensures KeyOf(Active) == "hlsScteActive" && KeyOf(Id) == "hlsScteId" && KeyOf(EventId) == "hlsScteEventId"
    ensures KeyOf(ActionOut) == "hlsScteActionOut" && KeyOf(ActionIn) == "hlsScteActionIn"
    ensures KeyOf(CueOut) == "hlsScteCueOut" && KeyOf(CueIn) == "hlsScteCueIn"
    ensures KeyOf(StartDate) == "hlsScteStartDate" && KeyOf(EndDate) == "hlsScteEndDate"
    ensures KeyOf(StartEpochMs) == "hlsScteStartEpochMs" && KeyOf(EndEpochMs) == "hlsScteEndEpochMs"
    ensures KeyOf(UpdatedUtc) == "hlsScteUpdatedUtc"
  {
  }

  ghost predicate IsBreakKey(key: string) { exists f :: KeyOf(f) == key }

  // ---------- reading and writing the record ----------

  function TextField(m: Values, f: Field): string {
    TrimCopy(GetString(m, KeyOf(f), ""))
  }

  function EpochField(m: Values, f: Field, date: string, parseUtc: string -> int): int {
    var stored := match Stoll(TrimCopy(GetString(m, KeyOf(f), "0"))) case None => 0 case Some(n) => n;
    if stored <= 0 && date != "" then parseUtc(date) else stored
  }

  function ReadRange(m: Values, parseUtc: string -> int): Range {
    var start, end := TextField(m, StartDate), TextField(m, EndDate);
    Range(GetBool(m, KeyOf(Active), false), TextField(m, Id), TextField(m, EventId),
          TextField(m, ActionOut), TextField(m, ActionIn), TextField(m, CueOut), TextField(m, CueIn),
          start, end,
          EpochField(m, StartEpochMs, start, parseUtc), EpochField(m, EndEpochMs, end, parseUtc))
  }

  /** What is stored under a key of the record. */
  function StoredEntry(s: Range, f: Field, nowIso: string): Entry {
    match f
    case Active => Entry(BoolText(s.active), false)
    case Id => Entry(s.id, true)
    case EventId => Entry(s.eventId, true)
    case ActionOut => Entry(s.actionOut, true)
    case ActionIn => Entry(s.actionIn, true)
    case CueOut => Entry(s.cueOut, true)
    case CueIn => Entry(s.cueIn, true)
    case StartDate => Entry(s.startDate, true)
    case EndDate => Entry(s.endDate, true)
    case StartEpochMs => Entry(IntToString(s.startMs), true)
    case EndEpochMs => Entry(IntToString(s.endMs), true)
    case UpdatedUtc => Entry(nowIso, true)
  }

  /** The object after some fields of the record were stored in it: exactly their keys have changed. */
  ghost predicate StoresFields(m: Values, m': Values, s: Range, nowIso: string, done: set<Field>) {
    (forall f | f in done :: KeyOf(f) in m' && m'[KeyOf(f)] == StoredEntry(s, f, nowIso)) &&
    (forall k | (forall f | f in done :: KeyOf(f) != k) :: (k in m' <==> k in m) && (k in m ==> m'[k] == m[k]))
  }

  const LABELS: set<Field> := {Active, Id, EventId, ActionOut, ActionIn}

  const ALL_FIELDS := {Active, Id, EventId, ActionOut, ActionIn, CueOut, CueIn,
                       StartDate, EndDate, StartEpochMs, EndEpochMs, UpdatedUtc}

  ghost predicate Stores(m: Values, m': Values, s: Range, nowIso: string) {
    StoresFields(m, m', s, nowIso, ALL_FIELDS)
  }

  lemma AllFields(f: Field)
    ensures f in ALL_FIELDS
  {
  }

  lemma StoresEntry(m: Values, m': Values, s: Range, nowIso: string, f: Field)
    requires Stores(m, m', s, nowIso)
    ensures KeyOf(f) in m' && m'[KeyOf(f)] == StoredEntry(s, f, nowIso)
  {
    hide KeyOf, StoredEntry;
    AllFields(f);
  }

  ghost predicate InRange(n: int) { INT64_MIN <= n <= INT64_MAX }

  ghost predicate Tidy(t: string) { Trimmed(t, IsBlank) }

  /** Records that reading can produce: trimmed texts, and a missing time is the one its date gives. */
  ghost predicate Normal(s: Range, parseUtc: string -> int) {
    Tidy(s.id) && Tidy(s.eventId) && Tidy(s.actionOut) && Tidy(s.actionIn) && Tidy(s.cueOut) &&
    Tidy(s.cueIn) && Tidy(s.startDate) && Tidy(s.endDate) &&
    NormalTime(s.startMs, s.startDate, parseUtc) && NormalTime(s.endMs, s.endDate, parseUtc)
  }

  ghost predicate NormalTime(ms: int, date: string, parseUtc: string -> int) {
    InRange(ms) && (ms <= 0 && date != "" ==> ms == parseUtc(date))
  }

  ghost predicate ParsesInRange(parseUtc: string -> int) {
    forall t :: InRange(parseUtc(t))
  }

  lemma EpochIsNormal(m: Values, f: Field, date: string, parseUtc: string -> int)
    requires ParsesInRange(parseUtc)
    ensures NormalTime(EpochField(m, f, date, parseUtc), date, parseUtc)
  {
    hide KeyOf, TrimBy, ParseInt;
    StollInRange(TrimCopy(GetString(m, KeyOf(f), "0")));
  }

  lemma TextIsTidy(m: Values, f: Field)
    ensures Tidy(TextField(m, f))
  {
    hide KeyOf;
  }

  lemma ReadIsNormal(m: Values, parseUtc: string -> int)
    requires ParsesInRange(parseUtc)
    ensures Normal(ReadRange(m, parseUtc), parseUtc)
  {
    hide KeyOf, TextField, EpochField, NormalTime, Tidy;
    forall f ensures Tidy(TextField(m, f)) { TextIsTidy(m, f); }
    EpochIsNormal(m, StartEpochMs, TextField(m, StartDate), parseUtc);
    EpochIsNormal(m, EndEpochMs, TextField(m, EndDate), parseUtc);
  }

  lemma StollInRange(s: string)
    ensures Stoll(s).Some? ==> InRange(Stoll(s).value)
  {
  }

  lemma TextStored(m: Values, m': Values, s: Range, nowIso: string, f: Field, t: string)
    requires Stores(m, m', s, nowIso) && StoredEntry(s, f, nowIso) == Entry(t, true) && Tidy(t)
    ensures TextField(m', f) == t
  {
    hide KeyOf, Stores, StoredEntry;
    StoresEntry(m, m', s, nowIso, f);
    TrimTrimmed(t, IsBlank);
  }

  lemma EpochStored(m: Values, m': Values, s: Range, nowIso: string, f: Field,
                    ms: int, date: string, parseUtc: string -> int)
    requires Stores(m, m', s, nowIso) && StoredEntry(s, f, nowIso) == Entry(IntToString(ms), true)
    requires NormalTime(ms, date, parseUtc)
    ensures EpochField(m', f, date, parseUtc) == ms
  {
    hide KeyOf, TrimBy, ParseInt, IntToString, Stores, StoredEntry;
    StoresEntry(m, m', s, nowIso, f);
    StoredNumber(ms);
  }

  lemma ActiveStored(m: Values, m': Values, s: Range, nowIso: string)
    requires Stores(m, m', s, nowIso)
    ensures GetBool(m', KeyOf(Active), false) == s.active
  {
    hide KeyOf, Stores;
    StoresEntry(m, m', s, nowIso, Active);
    TrimKeeps(BoolText(s.active));
  }

  /** A normal record is read back exactly as it was stored. */
  lemma ReadStored(m: Values, m': Values, s: Range, nowIso: string, parseUtc: string -> int)
    requires Normal(s, parseUtc) && Stores(m, m', s, nowIso)
    ensures ReadRange(m', parseUtc) == s
  {
    hide KeyOf, TextField, EpochField, Stores, Tidy, NormalTime, IntToString, GetBool, BoolText;
    TextStored(m, m', s, nowIso, Id, s.id);
    TextStored(m, m', s, nowIso, EventId, s.eventId);
    TextStored(m, m', s, nowIso, ActionOut, s.actionOut);
    TextStored(m, m', s, nowIso, ActionIn, s.actionIn);
    TextStored(m, m', s, nowIso, CueOut, s.cueOut);
    TextStored(m, m', s, nowIso, CueIn, s.cueIn);
    TextStored(m, m', s, nowIso, StartDate, s.startDate);
    TextStored(m, m', s, nowIso, EndDate, s.endDate);
    EpochStored(m, m', s, nowIso, StartEpochMs, s.startMs, s.startDate, parseUtc);
    EpochStored(m, m', s, nowIso, EndEpochMs, s.endMs, s.endDate, parseUtc);
    ActiveStored(m, m', s, nowIso);
  }

  lemma StoredNumber(n: int)
    requires InRange(n)
    ensures Stoll(TrimCopy(IntToString(n))) == Some(n)
  {
    hide IntToString, ParseInt;
    TrimTrimmed(IntToString(n), IsBlank);
    ParseIntOfIntToString(n, INT64_MIN, INT64_MAX);
  }

  lemma StoredIsStorable(m: Values, m': Values, s: Range, nowIso: string)
    requires Storable(m) && Stores(m, m', s, nowIso)
    ensures Storable(m')
  {
    hide KeyOf, SelfDelimiting, Stores;
    BoolIsSelfDelimiting();
    forall k | k in m' && !m'[k].quoted ensures SelfDelimiting(m'[k].raw) {
      if IsBreakKey(k) {
        var f :| KeyOf(f) == k;
        StoresEntry(m, m', s, nowIso, f);
      } else {
        StoresFrame(m, m', s, nowIso);
      }
    }
  }

  // ---------- the cue actions ----------

  datatype Cue = Cue(action: string, eventId: string, cue: string, nowMs: int, nowIso: string)

  predicate IsEnd(action: string) { action == "END_BREAK" || action == "END_BREAK_NOW" }

  function FreshId(encoder: int, eventId: string): string {
    "scte-enc" + IntToString(encoder) + "-" + eventId
  }

  /** The pure effect of a cue on the break: the specification of a run. */
  function Effect(s: Range, encoder: int, c: Cue): Range {
    if c.action == "START_BREAK" then
      Range(true, FreshId(encoder, c.eventId), c.eventId, c.action, "", c.cue, "", c.nowIso, "", c.nowMs, 0)
    else if IsEnd(c.action) then
      s.(id := if s.id == "" then FreshId(encoder, c.eventId) else s.id,
         startDate := if s.startDate == "" then c.nowIso else s.startDate,
         startMs := if s.startDate == "" then c.nowMs else s.startMs,
         eventId := if s.eventId == "" then c.eventId else s.eventId,
         actionOut := if s.actionOut == "" then "START_BREAK" else s.actionOut,
         active := false,
         actionIn := c.action,
         cueIn := if c.cue != "" then c.cue else s.cueIn,
         endDate := c.nowIso,
         endMs := c.nowMs)
    else s
  }

  function Fold(s: Range, encoder: int, cues: seq<Cue>): Range
    decreases |cues|
  {
    if cues == [] then s else Fold(Effect(s, encoder, cues[0]), encoder, cues[1..])
  }

  /** What executeControlCommand hands over: a resolved event id, a trimmed cue, a clock after 1970. */
  ghost predicate ValidCue(c: Cue) {
    c.eventId != "" && Tidy(c.eventId) && Tidy(c.cue) &&
    c.nowIso != "" && Tidy(c.nowIso) && 0 < c.nowMs <= INT64_MAX
  }

  function ResolveEventId(eventId: string, encoder: int, nowMs: int): (r: string)
    ensures r != "" && Tidy(r)
  {
    var t := TrimCopy(eventId);
    if t != "" then t
    else
      var ms := IntToString(nowMs);
      var r := "enc" + IntToString(encoder) + "-" + ms;
      assert r[|r| - 1] == ms[|ms| - 1];
      r
  }

  /** An event id that is not blank is kept, trimmed. */
  lemma GivenIdIsKept(a: string, id: string, b: string, encoder: int, nowMs: int)
    requires All(a, IsBlank) && All(b, IsBlank) && Tidy(id) && id != ""
    ensures ResolveEventId(a + id + b, encoder, nowMs) == id
  {
    hide TrimBy, IntToString;
    TrimBetween(a, id, b, IsBlank);
  }

  /** A blank one is replaced by one that tells encoder and moment: no two of either share it. */
  lemma MadeIdTells(a: string, encoder: nat, nowMs: nat, b: string, other: nat, laterMs: nat)
    requires All(a, IsBlank) && All(b, IsBlank)
    ensures ResolveEventId(a, encoder, nowMs) == ResolveEventId(b, other, laterMs) <==>
            encoder == other && nowMs == laterMs
  {
    hide TrimBy, Digits;
    TrimBetween(a, "", "", IsBlank);
    TrimBetween(b, "", "", IsBlank);
    assert a + "" + "" == a && b + "" + "" == b;
    var x, y := IntToString(nowMs), IntToString(laterMs);
    assert ResolveEventId(a, encoder, nowMs) == "enc" + (IntToString(encoder) + ("-" + x));
    assert ResolveEventId(b, other, laterMs) == "enc" + (IntToString(other) + ("-" + y));
    NumberedIff("enc", encoder, x, other, y);
    SameNumber(nowMs, laterMs);
  }

  lemma SameNumber(m: nat, n: nat)
    ensures Digits(m) == Digits(n) <==> m == n
  {
    hide Digits, DigitsValue;
    DigitsValueOfDigits(m);
    DigitsValueOfDigits(n);
  }

  /** A number with a dash behind it can be told from what follows. */
  lemma NumberedIff(tag: string, m: nat, x: string, n: nat, y: string)
    ensures tag + (Digits(m) + ("-" + x)) == tag + (Digits(n) + ("-" + y)) <==> m == n && x == y
  {
    hide Digits, DigitsValue, DigitRun;
    var s, t := Digits(m) + ("-" + x), Digits(n) + ("-" + y);
    assert (tag + s)[|tag|..] == s && (tag + t)[|tag|..] == t;
    DigitRunOf(Digits(m), "-" + x);
    DigitRunOf(Digits(n), "-" + y);
    SameNumber(m, n);
    assert s[..|Digits(m)|] == Digits(m) && t[..|Digits(n)|] == Digits(n);
    assert s[|Digits(m)| + 1..] == x && t[|Digits(n)| + 1..] == y;
  }

  /** The id of a break tells its encoder and its event. */
  lemma FreshIdTells(encoder: nat, eventId: string, other: nat, otherId: string)
    ensures FreshId(encoder, eventId) == FreshId(other, otherId) <==> encoder == other && eventId == otherId
  {
    hide Digits;
    assert FreshId(encoder, eventId) == "scte-enc" + (Digits(encoder) + ("-" + eventId));
    assert FreshId(other, otherId) == "scte-enc" + (Digits(other) + ("-" + otherId));
    NumberedIff("scte-enc", encoder, eventId, other, otherId);
  }

  /** An end on a break that has ended moves its end; the closing cue is replaced only by another. */
  lemma EndAgain(s: Range, encoder: int, c: Cue)
    requires c.action in {"END_BREAK", "END_BREAK_NOW"} && s.id != "" && s.eventId != "" && s.actionOut != ""
    requires s.startDate != ""
    ensures Effect(s, encoder, c) ==
            s.(active := false, actionIn := c.action, endDate := c.nowIso, endMs := c.nowMs,
               cueIn := if c.cue == "" then s.cueIn else c.cue)
  {
  }

  lemma TidyLiterals()
    ensures Tidy("") && Tidy("START_BREAK") && Tidy("END_BREAK") && Tidy("END_BREAK_NOW")
  {
  }

  lemma FreshIdIsTidy(encoder: int, eventId: string)
    requires eventId != "" && Tidy(eventId)
    ensures Tidy(FreshId(encoder, eventId))
  {
    hide IntToString;
    var id := FreshId(encoder, eventId);
    assert id[0] == 's' && id[|id| - 1] == eventId[|eventId| - 1];
  }

  lemma EffectIsNormal(s: Range, encoder: int, c: Cue, parseUtc: string -> int)
    requires Normal(s, parseUtc) && ValidCue(c)
    ensures Normal(Effect(s, encoder, c), parseUtc)
  {
    hide Tidy, FreshId;
    TidyLiterals();
    FreshIdIsTidy(encoder, c.eventId);
  }

  /** A break that is still open has no end. Every action keeps this. */
  ghost predicate OpenHasNoEnd(s: Range) {
    s.active ==> s.endDate == "" && s.endMs == 0
  }

  lemma {:induction false} FoldKeepsOpenHasNoEnd(s: Range, encoder: int, cues: seq<Cue>)
    requires OpenHasNoEnd(s)
    ensures OpenHasNoEnd(Fold(s, encoder, cues))
    decreases |cues|
  {
    if cues != [] { FoldKeepsOpenHasNoEnd(Effect(s, encoder, cues[0]), encoder, cues[1..]); }
  }

  // ---------- memory and file together ----------

  function ReadFile(file: string): Values {
    if file == "" then map[] else ParseObject(file).1
  }

  /** The break a cue starts from: the copy in memory if it has an id, otherwise what the file says. */
  function Recall(m: Values, memory: Range, parseUtc: string -> int): Range {
    if memory.id != "" then memory else ReadRange(m, parseUtc)
  }

  function Effective(file: string, memory: Range, parseUtc: string -> int): Range {
    Recall(ReadFile(file), memory, parseUtc)
  }

  ghost predicate Coherent(file: string, memory: Range, parseUtc: string -> int) {
    Storable(ReadFile(file)) &&
    (memory.id != "" ==> memory == ReadRange(ReadFile(file), parseUtc))
  }

  predicate IsBreakAction(action: string) { action == "START_BREAK" || IsEnd(action) }

  /** The mutation a cue makes to the object read from the file, and the new copy in memory. */
  ghost predicate Updates(m: Values, memory: Range, encoder: int, c: Cue, parseUtc: string -> int,
                          m': Values, memory': Range) {
    if IsBreakAction(c.action) then
      memory' == Effect(Recall(m, memory, parseUtc), encoder, c) && Stores(m, m', memory', c.nowIso)
    else
      memory' == BLANK && m' == m
  }

  /** One call of persistHlsScteRangeState: the new file and the new copy in memory. */
  ghost predicate Persists(file: string, memory: Range, encoder: int, c: Cue, parseUtc: string -> int,
                           file': string, memory': Range) {
    exists m' :: Updates(ReadFile(file), memory, encoder, c, parseUtc, m', memory') && file' == Serialized(m')
  }

  lemma ReadSerialized(m: Values)
    requires Storable(m)
    ensures ReadFile(Serialized(m)) == m
  {
    hide ParseObject;
    RoundTrip(m);
    assert |Serialized(m)| >= 2;
  }

  /** What the mutation leaves: a storable object that reads back as the new break, other keys untouched. */
  lemma UpdateStep(m: Values, memory: Range, encoder: int, c: Cue, parseUtc: string -> int,
                   m': Values, memory': Range)
    requires ParsesInRange(parseUtc) && ValidCue(c) && Storable(m)
    requires memory.id != "" ==> memory == ReadRange(m, parseUtc)
    requires Updates(m, memory, encoder, c, parseUtc, m', memory')
    ensures Storable(m')
    ensures ReadRange(m', parseUtc) == Effect(Recall(m, memory, parseUtc), encoder, c)
    ensures IsBreakAction(c.action) ==> memory' == ReadRange(m', parseUtc)
    ensures forall k | !IsBreakKey(k) :: (k in m' <==> k in m) && (k in m ==> m'[k] == m[k])
  {
    hide ReadRange, KeyOf, Normal, Storable, Stores;
    ReadIsNormal(m, parseUtc);
    if IsBreakAction(c.action) {
      EffectIsNormal(Recall(m, memory, parseUtc), encoder, c, parseUtc);
      StoredIsStorable(m, m', memory', c.nowIso);
      ReadStored(m, m', memory', c.nowIso, parseUtc);
      StoresFrame(m, m', memory', c.nowIso);
    }
  }

  /** One action: memory and file still agree, and the break changed as the action says. */
  lemma PersistStep(file: string, memory: Range, encoder: int, c: Cue, parseUtc: string -> int,
                    file': string, memory': Range)
    requires ParsesInRange(parseUtc) && ValidCue(c) && Coherent(file, memory, parseUtc)
    requires Persists(file, memory, encoder, c, parseUtc, file', memory')
    ensures Coherent(file', memory', parseUtc)
    ensures Effective(file', memory', parseUtc) == Effect(Effective(file, memory, parseUtc), encoder, c)
    ensures ReadRange(ReadFile(file'), parseUtc) == Effective(file', memory', parseUtc)
    ensures forall k | !IsBreakKey(k) ::
              (k in ReadFile(file') <==> k in ReadFile(file)) &&
              (k in ReadFile(file) ==> ReadFile(file')[k] == ReadFile(file)[k])
  {
    hide ReadFile, ReadRange, Effect, Serialized, Storable, Stores, IsBreakKey;
    var m := ReadFile(file);
    var m' :| Updates(m, memory, encoder, c, parseUtc, m', memory') && file' == Serialized(m');
    UpdateStep(m, memory, encoder, c, parseUtc, m', memory');
    ReadSerialized(m');
  }

  lemma StoresFrame(m: Values, m': Values, s: Range, nowIso: string)
    requires Stores(m, m', s, nowIso)
    ensures forall k | !IsBreakKey(k) :: (k in m' <==> k in m) && (k in m ==> m'[k] == m[k])
  {
    hide KeyOf, StoredEntry;
  }

  /** A run of cue actions, as the states between them. */
  ghost predicate IsRun(files: seq<string>, memories: seq<Range>, encoder: int, cues: seq<Cue>,
                        parseUtc: string -> int) {
    |files| == |memories| == |cues| + 1 &&
    (forall c | c in cues :: ValidCue(c)) &&
    forall i | 0 <= i < |cues| ::
      Persists(files[i], memories[i], encoder, cues[i], parseUtc, files[i + 1], memories[i + 1])
  }

  /** Over every run, the break in effect is the pure fold of the actions, and the copy in memory never
      disagrees with what the file reads back as. */
  lemma {:induction false} RunFollowsFold(files: seq<string>, memories: seq<Range>, encoder: int,
                                          cues: seq<Cue>, parseUtc: string -> int)
    requires ParsesInRange(parseUtc) && IsRun(files, memories, encoder, cues, parseUtc)
    requires Coherent(files[0], memories[0], parseUtc)
    ensures Coherent(files[|cues|], memories[|cues|], parseUtc)
    ensures Effective(files[|cues|], memories[|cues|], parseUtc)
         == Fold(Effective(files[0], memories[0], parseUtc), encoder, cues)
    ensures ReadRange(ReadFile(files[|cues|]), parseUtc) == Effective(files[|cues|], memories[|cues|], parseUtc)
    decreases |cues|
  {
    hide ReadFile, ReadRange, Persists, Effect, ParsesInRange, Storable;
    if cues != [] {
      assert cues[0] in cues;
      PersistStep(files[0], memories[0], encoder, cues[0], parseUtc, files[1], memories[1]);
      assert forall c | c in cues[1..] :: c in cues;
      RunFollowsFold(files[1..], memories[1..], encoder, cues[1..], parseUtc);
    }
  }

  /** Starting from an empty store, no reachable open break has an end date or an end time. */
  lemma ReachableOpenHasNoEnd(files: seq<string>, memories: seq<Range>, encoder: int,
                              cues: seq<Cue>, parseUtc: string -> int)
    requires ParsesInRange(parseUtc) && IsRun(files, memories, encoder, cues, parseUtc)
    requires files[0] == "" && memories[0] == BLANK
    ensures OpenHasNoEnd(ReadRange(ReadFile(files[|cues|]), parseUtc))
  {
    RunFollowsFold(files, memories, encoder, cues, parseUtc);
    FoldKeepsOpenHasNoEnd(ReadRange(map[], parseUtc), encoder, cues);
  }

  lemma NothingStored(m: Values, s: Range, nowIso: string)
    ensures StoresFields(m, m, s, nowIso, {})
  {
  }

  // ---------- the store, updated in place ----------

  class BreakStore {
    var file: string
    var memory: Range

    constructor (file: string)
      ensures this.file == file && memory == BLANK
    {
      this.file := file;
      memory := BLANK;
    }

    /** One setter call of the source; `before` and `done` say what was there and what is already stored. */
    static method StoreField(rt: JsonObject, f: Field, s: Range, nowIso: string,
                             ghost before: Values, ghost done: set<Field>)
      requires StoresFields(before, rt.values, s, nowIso, done)
      modifies rt
      ensures StoresFields(before, rt.values, s, nowIso, done + {f})
    {
      hide KeyOf;
      var e := StoredEntry(s, f, nowIso);
      if f == Active {
        rt.SetBool(KeyOf(f), s.active);
      } else {
        rt.SetString(KeyOf(f), e.raw);
      }
      forall g: Field | g != f ensures KeyOf(f) != KeyOf(g) { KeysDistinct(f, g); }
    }

    static method StoreLabels(rt: JsonObject, s: Range, nowIso: string)
      modifies rt
      ensures StoresFields(old(rt.values), rt.values, s, nowIso, LABELS)
    {
      hide KeyOf, StoredEntry, StoresFields;
      ghost var m := rt.values;
      NothingStored(m, s, nowIso);
      StoreField(rt, Active, s, nowIso, m, {});
      StoreField(rt, Id, s, nowIso, m, {} + {Active});
      StoreField(rt, EventId, s, nowIso, m, {} + {Active} + {Id});
      ghost var done := {} + {Active} + {Id} + {EventId};
      StoreField(rt, ActionOut, s, nowIso, m, done);
      StoreField(rt, ActionIn, s, nowIso, m, done + {ActionOut});
      assert done + {ActionOut} + {ActionIn} == LABELS;
    }

    static method StoreRecord(rt: JsonObject, s: Range, nowIso: string)
      modifies rt
      ensures Stores(old(rt.values), rt.values, s, nowIso)
    {
      hide KeyOf, StoredEntry, StoresFields;
      ghost var m := rt.values;
      StoreLabels(rt, s, nowIso);
      StoreField(rt, CueOut, s, nowIso, m, LABELS);
      StoreField(rt, CueIn, s, nowIso, m, LABELS + {CueOut});
      StoreField(rt, StartDate, s, nowIso, m, LABELS + {CueOut} + {CueIn});
      ghost var done := LABELS + {CueOut} + {CueIn} + {StartDate};
      StoreField(rt, EndDate, s, nowIso, m, done);
      StoreField(rt, StartEpochMs, s, nowIso, m, done + {EndDate});
      StoreField(rt, EndEpochMs, s, nowIso, m, done + {EndDate} + {StartEpochMs});
      done := done + {EndDate} + {StartEpochMs} + {EndEpochMs};
      StoreField(rt, UpdatedUtc, s, nowIso, m, done);
      assert done + {UpdatedUtc} == ALL_FIELDS;
    }

    /** The record the source builds field by field. */
    static method NextRecord(from: Range, encoder: int, c: Cue) returns (s: Range)
      ensures s == Effect(from, encoder, c)
    {
      s := from;
      if c.action == "START_BREAK" {
        s := s.(active := true, id := FreshId(encoder, c.eventId), eventId := c.eventId);
        s := s.(actionOut := c.action, actionIn := "", cueOut := c.cue, cueIn := "");
        s := s.(startDate := c.nowIso, endDate := "", startMs := c.nowMs, endMs := 0);
      } else if IsEnd(c.action) {
        if s.id == "" { s := s.(id := FreshId(encoder, c.eventId)); }
        if s.startDate == "" { s := s.(startDate := c.nowIso, startMs := c.nowMs); }
        if s.eventId == "" { s := s.(eventId := c.eventId); }
        if s.actionOut == "" { s := s.(actionOut := "START_BREAK"); }
        s := s.(active := false, actionIn := c.action);
        if c.cue != "" { s := s.(cueIn := c.cue); }
        s := s.(endDate := c.nowIso, endMs := c.nowMs);
      }
    }

    method Persist(encoder: int, c: Cue, parseUtc: string -> int)
      modifies this
      ensures Persists(old(file), old(memory), encoder, c, parseUtc, file, memory)
    {
      hide KeyOf, ParseObject, Serialized, ReadRange, Effect, Stores;
      var rt := new JsonObject();
      if file != "" { var _ := rt.Parse(file); }
      ghost var before := rt.values;
      var state := ReadRange(rt.values, parseUtc);
      if memory.id != "" { state := memory; }
      var next := BLANK;
      if IsBreakAction(c.action) {
        next := NextRecord(state, encoder, c);
        StoreRecord(rt, next, c.nowIso);
      }
      assert Updates(before, memory, encoder, c, parseUtc, rt.values, next);
      file := rt.Serialize();
      memory := next;
    }
  }
}
