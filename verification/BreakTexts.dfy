/** The texts of a break and of the cues that make it: what holds of every text of the cues holds of the record. */
module BreakTexts {
  import opened Text
  import opened BreakState
  import opened AttributeList

  predicate Texts(s: Range, p: string -> bool) {
    p(s.id) && p(s.eventId) && p(s.actionOut) && p(s.actionIn) && p(s.cueOut) && p(s.cueIn) &&
    p(s.startDate) && p(s.endDate)
  }

  predicate CueTexts(c: Cue, p: string -> bool) { p(c.eventId) && p(c.cue) && p(c.nowIso) }

  /** What the source adds of its own does not matter to `p`. */
  ghost predicate Fits(p: string -> bool, encoder: int) {
    p("") && p("START_BREAK") && p("END_BREAK") && p("END_BREAK_NOW") && p("com.apple.hls.scte35") &&
    forall eventId :: p(FreshId(encoder, eventId)) <==> p(eventId)
  }

  lemma {:induction false} FoldTexts(s: Range, encoder: int, cues: seq<Cue>, p: string -> bool)
    requires Fits(p, encoder) && Texts(s, p) && forall c | c in cues :: CueTexts(c, p)
    ensures Texts(Fold(s, encoder, cues), p)
    decreases |cues|
  {
    hide FreshId;
    if cues != [] {
      assert cues[0] in cues && forall c | c in cues[1..] :: c in cues;
      FoldTexts(Effect(s, encoder, cues[0]), encoder, cues[1..], p);
    }
  }

  /** So it is with what any run from an empty store leaves in the file. */
  lemma ReachableTexts(files: seq<string>, memories: seq<Range>, encoder: int, cues: seq<Cue>,
                       parseUtc: string -> int, p: string -> bool)
    requires ParsesInRange(parseUtc) && IsRun(files, memories, encoder, cues, parseUtc)
    requires files[0] == "" && memories[0] == BLANK
    requires Fits(p, encoder) && forall c | c in cues :: CueTexts(c, p)
    ensures Texts(ReadRange(ReadFile(files[|cues|]), parseUtc), p)
  {
    hide Persists, ParsesInRange, Fits, CueTexts, ValidCue, Fold, Texts, ReadFile, ReadRange, Effective, Coherent;
    StartsEmpty(files, memories, parseUtc);
    RunFollowsFold(files, memories, encoder, cues, parseUtc);
    BlankTexts(p, encoder, parseUtc);
    FoldTexts(ReadRange(map[], parseUtc), encoder, cues, p);
  }

  lemma StartsEmpty(files: seq<string>, memories: seq<Range>, parseUtc: string -> int)
    requires files != [] && memories != [] && files[0] == "" && memories[0] == BLANK
    ensures Coherent(files[0], memories[0], parseUtc)
    ensures Effective(files[0], memories[0], parseUtc) == ReadRange(map[], parseUtc)
  {
    hide ReadRange;
  }

  lemma BlankTexts(p: string -> bool, encoder: int, parseUtc: string -> int)
    requires Fits(p, encoder)
    ensures Texts(ReadRange(map[], parseUtc), p)
  {
    hide FreshId, KeyOf, EpochField;
    assert forall f :: TextField(map[], f) == "";
  }

  // ---------- the three properties of texts that matter ----------

  lemma PrefixIsPlain(encoder: int, eventId: string)
    ensures exists t :: FreshId(encoder, eventId) == t + eventId && Plain(t) && OneLine(t)
  {
    hide IntToString;
    var t := "scte-enc" + IntToString(encoder) + "-";
    NumberIsPlain(encoder);
    assert FreshId(encoder, eventId) == t + eventId;
  }

  lemma NumberIsPlain(n: int)
    ensures Plain(IntToString(n)) && OneLine(IntToString(n))
  {
    hide Digits;
    assert forall c | c in IntToString(n) :: IsDigit(c) || c == '-';
  }

  lemma {:induction false} PairedBehind(t: string, v: string)
    requires Plain(t)
    ensures PairedText(t + v) == PairedText(v)
  {
    if t == "" {
      assert t + v == v;
    } else {
      assert (t + v)[1..] == t[1..] + v && t == [t[0]] + t[1..];
      PairedBehind(t[1..], v);
    }
  }

  lemma LiteralsArePlain()
    ensures Plain("START_BREAK") && Plain("END_BREAK") && Plain("END_BREAK_NOW") && Plain("com.apple.hls.scte35")
  {
  }

  lemma LiteralsAreLines()
    ensures OneLine("START_BREAK") && OneLine("END_BREAK") && OneLine("END_BREAK_NOW")
    ensures OneLine("com.apple.hls.scte35")
  {
  }

  lemma PlainFits(encoder: int)
    ensures Fits(Plain, encoder) && Fits(OneLine, encoder)
  {
    hide FreshId, Plain, OneLine;
    forall eventId ensures Plain(FreshId(encoder, eventId)) <==> Plain(eventId)
                   ensures OneLine(FreshId(encoder, eventId)) <==> OneLine(eventId)
    {
      PrefixIsPlain(encoder, eventId);
      var t :| FreshId(encoder, eventId) == t + eventId && Plain(t) && OneLine(t);
      PlainConcat(t, eventId);
    }
    LiteralsArePlain();
    LiteralsAreLines();
    PlainConcat("", "");
  }

  lemma PlainConcat(a: string, b: string)
    ensures Plain(a + b) <==> Plain(a) && Plain(b)
    ensures OneLine(a + b) <==> OneLine(a) && OneLine(b)
    ensures Plain("") && OneLine("")
  {
  }

  lemma PairedFits(encoder: int)
    ensures Fits(PairedText, encoder)
  {
    hide FreshId, PairedText, Plain, OneLine;
    forall eventId ensures PairedText(FreshId(encoder, eventId)) <==> PairedText(eventId) {
      PrefixIsPlain(encoder, eventId);
      var t :| FreshId(encoder, eventId) == t + eventId && Plain(t) && OneLine(t);
      PairedBehind(t, eventId);
    }
    LiteralsArePlain();
    PlainConcat("", "");
    forall t | Plain(t) ensures PairedText(t) { PlainIsPaired(t); }
  }
}
