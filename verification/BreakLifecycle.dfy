/** One whole break, from the cues that open and close it to the attributes a client reads. */
module BreakLifecycle {
  import opened AttributeList
  import opened BreakState
  import opened BreakTexts
  import opened DateRange

  lemma {:induction false} FoldConcat(s: Range, encoder: int, a: seq<Cue>, b: seq<Cue>)
    ensures Fold(s, encoder, a + b) == Fold(Fold(s, encoder, a), encoder, b)
    decreases |a|
  {
    hide Effect;
    if a == [] {
      assert a + b == b;
    } else {
      assert (a + b)[1..] == a[1..] + b;
      FoldConcat(Effect(s, encoder, a[0]), encoder, a[1..], b);
    }
  }

  ghost predicate NoBreakIn(cues: seq<Cue>) { forall c | c in cues :: !IsBreakAction(c.action) }

  lemma {:induction false} OthersChangeNothing(s: Range, encoder: int, cues: seq<Cue>)
    requires NoBreakIn(cues)
    ensures Fold(s, encoder, cues) == s
    decreases |cues|
  {
    if cues != [] {
      assert cues[0] in cues;
      OthersChangeNothing(s, encoder, cues[1..]);
    }
  }

  lemma FoldOne(s: Range, encoder: int, c: Cue)
    ensures Fold(s, encoder, [c]) == Effect(s, encoder, c)
  {
  }

  /** The record of a break that `start` opened, while it is open. */
  function OpenBreak(encoder: int, start: Cue): Range {
    Range(true, FreshId(encoder, start.eventId), start.eventId, "START_BREAK", "", start.cue, "",
          start.nowIso, "", start.nowMs, 0)
  }

  /** The record of a break that `start` opened and `end` closed. */
  function ClosedBreak(encoder: int, start: Cue, end: Cue): Range {
    Range(false, FreshId(encoder, start.eventId), start.eventId, "START_BREAK", end.action, start.cue, end.cue,
          start.nowIso, end.nowIso, start.nowMs, end.nowMs)
  }

  /** Whatever was there before and whatever other actions come in between: a start opens a new break, and the
      end that follows closes that one, keeping its id, its opening cue and its start. */
  lemma StartThenEnd(s: Range, encoder: int, before: seq<Cue>, start: Cue, between: seq<Cue>, end: Cue)
    requires start.action == "START_BREAK" && IsEnd(end.action) && NoBreakIn(between)
    requires start.eventId != "" && start.nowIso != ""
    ensures Fold(s, encoder, before + [start] + between) == OpenBreak(encoder, start)
    ensures Fold(s, encoder, before + [start] + between + [end]) == ClosedBreak(encoder, start, end)
  {
    hide FreshId, Fold, IsBreakAction;
    FreshIdIsThere(encoder, start.eventId);
    StartOpens(s, encoder, before, start, between);
    FoldConcat(s, encoder, before + [start] + between, [end]);
    FoldOne(OpenBreak(encoder, start), encoder, end);
  }

  lemma StartOpens(s: Range, encoder: int, before: seq<Cue>, start: Cue, between: seq<Cue>)
    requires start.action == "START_BREAK" && NoBreakIn(between)
    ensures Fold(s, encoder, before + [start] + between) == OpenBreak(encoder, start)
  {
    hide FreshId, Fold, NoBreakIn;
    FoldConcat(s, encoder, before, [start]);
    FoldOne(Fold(s, encoder, before), encoder, start);
    FoldConcat(s, encoder, before + [start], between);
    OthersChangeNothing(OpenBreak(encoder, start), encoder, between);
  }

  lemma FreshIdIsThere(encoder: int, eventId: string)
    ensures FreshId(encoder, eventId) != ""
  {
  }

  // ---------- what a client reads of it ----------

  /** The texts that a start and its end bring to the record. */
  predicate PairTexts(start: Cue, end: Cue, p: string -> bool) {
    CueTexts(start, p) && p(end.cue) && p(end.nowIso)
  }

  lemma OpenBreakTexts(encoder: int, start: Cue, p: string -> bool)
    requires Fits(p, encoder)
    ensures Texts(OpenBreak(encoder, start), p) <==> CueTexts(start, p)
  {
    hide FreshId;
  }

  lemma ClosedBreakTexts(encoder: int, start: Cue, end: Cue, p: string -> bool)
    requires Fits(p, encoder) && IsEnd(end.action)
    ensures Texts(ClosedBreak(encoder, start, end), p) <==> PairTexts(start, end, p)
  {
    hide FreshId;
  }

  predicate CueLegibleTo(start: Cue, client: Client) { client.Standard? ==> CueTexts(start, Plain) }

  predicate PairLegibleTo(start: Cue, end: Cue, client: Client) { client.Standard? ==> PairTexts(start, end, Plain) }

  predicate PairInPlaceFor(start: Cue, end: Cue, client: Client) {
    client.Standard? ==> PairTexts(start, end, PairedText)
  }

  lemma ClosedBreakLegible(encoder: int, start: Cue, end: Cue, client: Client)
    requires IsEnd(end.action)
    ensures LegibleTo(ClosedBreak(encoder, start, end), client) <==> PairLegibleTo(start, end, client)
    ensures InPlaceFor(ClosedBreak(encoder, start, end), client) <==> PairInPlaceFor(start, end, client)
  {
    hide Texts, PairTexts, Fits, ClosedBreak, Plain, PairedText;
    PlainFits(encoder);
    PairedFits(encoder);
    ClosedBreakTexts(encoder, start, end, Plain);
    ClosedBreakTexts(encoder, start, end, PairedText);
  }

  lemma OpenBreakLegible(encoder: int, start: Cue, client: Client)
    ensures LegibleTo(OpenBreak(encoder, start), client) <==> CueLegibleTo(start, client)
  {
    hide Texts, CueTexts, Fits, OpenBreak, Plain;
    PlainFits(encoder);
    OpenBreakTexts(encoder, start, Plain);
  }

  /** END-DATE, no END-ON-NEXT, and DURATION exactly when the end is later than the start. */
  ghost predicate AnnouncedClosed(attrs: seq<Attr>, startMs: int, endMs: int) {
    !HasAttr(attrs, "END-ON-NEXT") && HasAttr(attrs, "END-DATE") && (HasAttr(attrs, "DURATION") <==> endMs > startMs)
  }

  /** A client for which the texts stay in place reads which timing attributes the record has. */
  lemma ReadsTiming(s: Range, client: Client)
    requires HasLine(s) && InPlaceFor(s, client) && !s.active && s.endDate != "" && s.startMs > 0
    ensures AnnouncedClosed(ClientAttrs(DateRangeLine(s), client), s.startMs, s.endMs)
  {
    hide ClientAttrs, DateRangeLine, Attrs, HasAttr, HasLine, InPlaceFor, LegibleTo, AllAsWritten;
    ClientReadsIff(s, client);
    TimingAttrs(s);
    WrittenNames(Attrs(s), client, "END-ON-NEXT");
    WrittenNames(Attrs(s), client, "END-DATE");
    WrittenNames(Attrs(s), client, "DURATION");
  }

  /** Over the store: after any run that ends with such a break the file reads back as that record. A standard client
      reads the record from its line if and only if no text of the two cues holds a double quote or a backslash, one
      that resolves backslashes always; and the break is announced as closed where the quotes in the texts pair up. */
  lemma StoredBreakIsAnnounced(files: seq<string>, memories: seq<Range>, encoder: int, parseUtc: string -> int,
                               before: seq<Cue>, start: Cue, between: seq<Cue>, end: Cue, client: Client)
    requires ParsesInRange(parseUtc)
    requires IsRun(files, memories, encoder, before + [start] + between + [end], parseUtc)
    requires Coherent(files[0], memories[0], parseUtc)
    requires start.action == "START_BREAK" && IsEnd(end.action) && NoBreakIn(between)
    requires ValidCue(start) && ValidCue(end)
    ensures var s := ReadRange(ReadFile(files[|files| - 1]), parseUtc);
            s == ClosedBreak(encoder, start, end) && HasLine(s) &&
            var attrs := ClientAttrs(DateRangeLine(s), client);
            (attrs == Attrs(s) <==> PairLegibleTo(start, end, client)) &&
            (PairInPlaceFor(start, end, client) ==> AnnouncedClosed(attrs, start.nowMs, end.nowMs))
  {
    hide FreshId, Fold, IsBreakAction, ReadRange, ReadFile, Persists, ClientAttrs, DateRangeLine, Attrs, Coherent;
    hide ParsesInRange, LegibleTo, InPlaceFor, PairLegibleTo, PairInPlaceFor, AnnouncedClosed, AllAsWritten, IsEnd;
    var cues := before + [start] + between + [end];
    RunFollowsFold(files, memories, encoder, cues, parseUtc);
    StartThenEnd(Effective(files[0], memories[0], parseUtc), encoder, before, start, between, end);
    var s := ClosedBreak(encoder, start, end);
    FreshIdIsThere(encoder, start.eventId);
    ClosedBreakLegible(encoder, start, end, client);
    ClientReadsIff(s, client);
    if InPlaceFor(s, client) { ReadsTiming(s, client); }
  }

  /** While it is open: after any run that ends with a start and any other actions, the file reads back as the open
      break. */
  lemma StoredBreakIsOpen(files: seq<string>, memories: seq<Range>, encoder: int, parseUtc: string -> int,
                          before: seq<Cue>, start: Cue, between: seq<Cue>)
    requires ParsesInRange(parseUtc)
    requires IsRun(files, memories, encoder, before + [start] + between, parseUtc)
    requires Coherent(files[0], memories[0], parseUtc)
    requires start.action == "START_BREAK" && NoBreakIn(between) && ValidCue(start)
    ensures var s := ReadRange(ReadFile(files[|files| - 1]), parseUtc);
            s == OpenBreak(encoder, start) && HasLine(s)
  {
    hide FreshId, Fold, IsBreakAction, ReadRange, ReadFile, Persists, Coherent, ParsesInRange, NoBreakIn;
    RunFollowsFold(files, memories, encoder, before + [start] + between, parseUtc);
    StartOpens(Effective(files[0], memories[0], parseUtc), encoder, before, start, between);
    FreshIdIsThere(encoder, start.eventId);
  }

  /** An end without any break before it makes a break of no length: start and end are the same moment, so a client
      for which the texts stay in place reads no DURATION. */
  lemma EndAlone(encoder: int, end: Cue, client: Client)
    requires IsEnd(end.action) && ValidCue(end)
    ensures var s := Effect(BLANK, encoder, end);
            s.startDate == s.endDate == end.nowIso && s.startMs == s.endMs == end.nowMs && !s.active &&
            s.id == FreshId(encoder, end.eventId) && s.actionOut == "START_BREAK" && s.actionIn == end.action &&
            HasLine(s) &&
            (client.Resolving? || CueTexts(end, PairedText) ==>
               !HasAttr(ClientAttrs(DateRangeLine(s), client), "DURATION"))
  {
    hide FreshId, ClientAttrs, DateRangeLine, HasAttr, PairedText;
    var s := Effect(BLANK, encoder, end);
    FreshIdIsThere(encoder, end.eventId);
    PairedFits(encoder);
    if client.Resolving? || CueTexts(end, PairedText) { ReadsTiming(s, client); }
  }
}
