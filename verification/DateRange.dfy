/** The EXT-X-DATERANGE line of an ad break and its place in the playlist (RFC 8216, section 4.3.2.7). */
module DateRange {
  import opened Text
  import opened AttributeList
  import opened BreakState
  import opened BreakTexts
  import opened PlaylistLines

  // ---------- the line ----------

  function QuotedAttr(name: string, text: string): Attr { Attr(name, Quoted(text)) }

  function Optional(name: string, v: string): seq<Attr> {
    if v == "" then [] else [QuotedAttr(name, v)]
  }

  predicate IsHex(c: char) { IsDigit(c) || 'a' <= c <= 'f' || 'A' <= c <= 'F' }

  predicate IsBase64Char(c: char) {
    IsDigit(c) || 'a' <= c <= 'z' || 'A' <= c <= 'Z' || c in "+/=-_"
  }

  /** Whether a cue text is worth repeating as an SCTE-35 payload. */
  predicate LooksLikeScte35(raw: string) {
    var s := TrimCopy(raw);
    if |s| < 16 then false
    else if "0x" <= s || "0X" <= s then forall c | c in s[2..] :: IsHex(c)
    else if (forall c | c in s :: IsHex(c)) && |s| % 2 == 0 then true
    else (forall c | c in s :: IsBase64Char(c)) && exists c | c in s :: c in "+/="
  }

  function CueAttrs(standard: string, own: string, cue: string): seq<Attr> {
    if cue == "" then []
    else (if LooksLikeScte35(cue) then [QuotedAttr(standard, cue)] else []) + [QuotedAttr(own, cue)]
  }

  /** Milliseconds as seconds with three decimals. */
  function Seconds(ms: nat): string {
    var f := ms % 1000;
    IntToString(ms / 1000) + "." + [DigitChar(f / 100), DigitChar(f / 10 % 10), DigitChar(f % 10)]
  }

  function HeadAttrs(s: Range): seq<Attr> {
    [QuotedAttr("ID", s.id), QuotedAttr("CLASS", "com.apple.hls.scte35"), QuotedAttr("START-DATE", s.startDate)]
  }

  function DurationAttrs(s: Range): seq<Attr> {
    if s.startMs > 0 && s.endMs > s.startMs then [Attr("DURATION", Bare(Seconds(s.endMs - s.startMs)))] else []
  }

  function LabelAttrs(s: Range): seq<Attr> {
    Optional("X-MULTICODER-EVENT-ID", s.eventId) +
    Optional("X-MULTICODER-OUT", s.actionOut) +
    Optional("X-MULTICODER-IN", s.actionIn) +
    CueAttrs("SCTE35-OUT", "X-MULTICODER-CUE-OUT", s.cueOut) +
    CueAttrs("SCTE35-IN", "X-MULTICODER-CUE-IN", s.cueIn)
  }

  function OpenAttrs(s: Range): seq<Attr> {
    if s.active then [Attr("END-ON-NEXT", Bare("YES"))] else []
  }

  function Attrs(s: Range): seq<Attr> {
    HeadAttrs(s) + Optional("END-DATE", s.endDate) + DurationAttrs(s) + LabelAttrs(s) + OpenAttrs(s)
  }

  predicate HasLine(s: Range) { s.id != "" && s.startDate != "" }

  function DateRangeLine(s: Range): string
    requires HasLine(s)
  {
    DATERANGE + AttrsText(Attrs(s))
  }

  // ---------- what the attributes hold ----------

  lemma DurationPrintable(ms: nat)
    ensures Printable(Attr("DURATION", Bare(Seconds(ms))))
  {
    hide Digits, DigitChar;
    var v := Seconds(ms);
    forall c | c in v ensures c != '"' && c != ',' && !IsBlank(c) {
      assert IsDigit(c) || c == '.' || c == '-';
    }
  }

  lemma CuePrintable(standard: string, own: string, cue: string)
    requires '=' !in standard && '=' !in own && '\n' !in standard && '\n' !in own
    ensures AllPrintable(CueAttrs(standard, own, cue))
  {
    hide LooksLikeScte35, PlainValue;
  }

  lemma OptionalPrintable(name: string, text: string)
    requires '=' !in name && '\n' !in name
    ensures AllPrintable(Optional(name, text))
  {
    hide PlainValue;
  }

  lemma HeadPrintable(s: Range)
    ensures AllPrintable(HeadAttrs(s))
  {
    hide PlainValue;
  }

  lemma LabelsPrintable(s: Range)
    ensures AllPrintable(LabelAttrs(s))
  {
    hide Printable, CueAttrs, Optional;
    OptionalPrintable("X-MULTICODER-EVENT-ID", s.eventId);
    OptionalPrintable("X-MULTICODER-OUT", s.actionOut);
    OptionalPrintable("X-MULTICODER-IN", s.actionIn);
    CuePrintable("SCTE35-OUT", "X-MULTICODER-CUE-OUT", s.cueOut);
    CuePrintable("SCTE35-IN", "X-MULTICODER-CUE-IN", s.cueIn);
  }

  /** Names and unquoted values are fixed, so every list can be printed. */
  lemma AttrsPrintable(s: Range)
    ensures AllPrintable(Attrs(s))
  {
    hide Printable, HeadAttrs, LabelAttrs, Optional, Seconds;
    HeadPrintable(s);
    OptionalPrintable("END-DATE", s.endDate);
    if s.startMs > 0 && s.endMs > s.startMs { DurationPrintable(s.endMs - s.startMs); }
    LabelsPrintable(s);
    YesPrintable();
  }

  lemma YesPrintable()
    ensures Printable(Attr("END-ON-NEXT", Bare("YES")))
  {
  }

  lemma TextsConcat(a: seq<Attr>, b: seq<Attr>, p: string -> bool)
    ensures AllTexts(a + b, p) <==> AllTexts(a, p) && AllTexts(b, p)
  {
    if AllTexts(a + b, p) {
      assert forall x | x in a :: x in a + b;
      assert forall x | x in b :: x in a + b;
    }
  }

  lemma OneText(name: string, text: string, p: string -> bool)
    ensures AllTexts([QuotedAttr(name, text)], p) <==> p(text)
  {
    assert QuotedAttr(name, text) in [QuotedAttr(name, text)];
  }

  lemma OptionalText(name: string, text: string, p: string -> bool)
    requires p("")
    ensures AllTexts(Optional(name, text), p) <==> p(text)
  {
    OneText(name, text, p);
  }

  lemma CueText(standard: string, own: string, cue: string, p: string -> bool)
    requires p("")
    ensures AllTexts(CueAttrs(standard, own, cue), p) <==> p(cue)
  {
    hide LooksLikeScte35, AllTexts, QuotedAttr;
    NoTexts(p);
    OneText(standard, cue, p);
    OneText(own, cue, p);
    TextsConcat([QuotedAttr(standard, cue)], [QuotedAttr(own, cue)], p);
    TextsConcat([], [QuotedAttr(own, cue)], p);
  }

  lemma NoTexts(p: string -> bool)
    ensures AllTexts([], p)
  {
  }

  lemma HeadTexts(s: Range, p: string -> bool)
    requires p("com.apple.hls.scte35")
    ensures AllTexts(HeadAttrs(s), p) <==> p(s.id) && p(s.startDate)
  {
    hide AllTexts, QuotedAttr;
    var a, b := QuotedAttr("ID", s.id), QuotedAttr("CLASS", "com.apple.hls.scte35");
    var c := QuotedAttr("START-DATE", s.startDate);
    OneText("ID", s.id, p);
    OneText("CLASS", "com.apple.hls.scte35", p);
    OneText("START-DATE", s.startDate, p);
    TextsConcat([a], [b], p);
    TextsConcat([a] + [b], [c], p);
    assert HeadAttrs(s) == [a] + [b] + [c];
  }

  lemma LabelTexts(s: Range, p: string -> bool)
    requires p("")
    ensures AllTexts(LabelAttrs(s), p) <==>
            p(s.eventId) && p(s.actionOut) && p(s.actionIn) && p(s.cueOut) && p(s.cueIn)
  {
    hide AllTexts, Optional, CueAttrs;
    var a, b := Optional("X-MULTICODER-EVENT-ID", s.eventId), Optional("X-MULTICODER-OUT", s.actionOut);
    var c := Optional("X-MULTICODER-IN", s.actionIn);
    var d := CueAttrs("SCTE35-OUT", "X-MULTICODER-CUE-OUT", s.cueOut);
    var e := CueAttrs("SCTE35-IN", "X-MULTICODER-CUE-IN", s.cueIn);
    OptionalText("X-MULTICODER-EVENT-ID", s.eventId, p);
    OptionalText("X-MULTICODER-OUT", s.actionOut, p);
    OptionalText("X-MULTICODER-IN", s.actionIn, p);
    CueText("SCTE35-OUT", "X-MULTICODER-CUE-OUT", s.cueOut, p);
    CueText("SCTE35-IN", "X-MULTICODER-CUE-IN", s.cueIn, p);
    TextsConcat(a + b + c + d, e, p);
    TextsConcat(a + b + c, d, p);
    TextsConcat(a + b, c, p);
    TextsConcat(a, b, p);
  }

  /** The texts in the list are the texts of the record. */
  lemma AttrTexts(s: Range, p: string -> bool, encoder: int)
    requires Fits(p, encoder)
    ensures AllTexts(Attrs(s), p) <==> Texts(s, p)
  {
    hide AllTexts, HeadAttrs, Optional, DurationAttrs, LabelAttrs, OpenAttrs;
    var h, e, d, l, o := HeadAttrs(s), Optional("END-DATE", s.endDate), DurationAttrs(s), LabelAttrs(s), OpenAttrs(s);
    HeadTexts(s, p);
    OptionalText("END-DATE", s.endDate, p);
    TimesHaveNoTexts(s, p);
    LabelTexts(s, p);
    TextsConcat(h + e + d + l, o, p);
    TextsConcat(h + e + d, l, p);
    TextsConcat(h + e, d, p);
    TextsConcat(h, e, p);
  }

  lemma TimesHaveNoTexts(s: Range, p: string -> bool)
    ensures AllTexts(DurationAttrs(s), p) && AllTexts(OpenAttrs(s), p)
  {
    hide Seconds;
  }

  // ---------- what a client finds in the line ----------

  /** The attributes a client reads from the line. */
  function ClientAttrs(line: string, client: Client): seq<Attr>
    requires DATERANGE <= line
  {
    ReadAttrs(line[|DATERANGE|..], client)
  }

  /** The texts of the record are such that the client reads them as they are. */
  predicate LegibleTo(s: Range, client: Client) { client.Standard? ==> Texts(s, Plain) }

  /** The texts of the record are such that the client reads each in its place. */
  predicate InPlaceFor(s: Range, client: Client) { client.Standard? ==> Texts(s, PairedText) }

  lemma LegibleAttrsIff(s: Range, client: Client)
    ensures (forall a | a in Attrs(s) :: Legible(a, client)) <==> LegibleTo(s, client)
    ensures (forall a | a in Attrs(s) :: StaysInPlace(a, client)) <==> InPlaceFor(s, client)
  {
    hide Attrs, Plain, PairedText, Texts;
    PlainFits(0);
    PairedFits(0);
    AttrTexts(s, Plain, 0);
    AttrTexts(s, PairedText, 0);
  }

  /** A client reads the record from the line if and only if it resolves backslashes, or no text of the record holds a
      double quote or a backslash. It reads what stands in the line, one attribute for each of the record, if and only
      if it resolves backslashes, or the double quotes in every text pair up with no comma in between. */
  lemma ClientReadsIff(s: Range, client: Client)
    requires HasLine(s)
    ensures ClientAttrs(DateRangeLine(s), client) == Attrs(s) <==> LegibleTo(s, client)
    ensures ClientAttrs(DateRangeLine(s), client) == AllAsWritten(Attrs(s), client) <==> InPlaceFor(s, client)
  {
    hide ReadAttrs, AttrsText, Attrs, AllPrintable, Legible, StaysInPlace, LegibleTo, InPlaceFor, AllAsWritten;
    AttrsPrintable(s);
    LegibleAttrsIff(s, client);
    ReadsBackIff(Attrs(s), client);
    ReadsAsWrittenIff(Attrs(s), client);
    assert DateRangeLine(s)[|DATERANGE|..] == AttrsText(Attrs(s));
  }

  ghost predicate HasAttr(attrs: seq<Attr>, name: string) {
    exists a :: a in attrs && a.name == name
  }

  lemma WrittenNames(attrs: seq<Attr>, client: Client, name: string)
    ensures HasAttr(AllAsWritten(attrs, client), name) <==> HasAttr(attrs, name)
  {
    hide AsWritten;
    var w := AllAsWritten(attrs, client);
    forall i | 0 <= i < |attrs| ensures w[i].name == attrs[i].name { NameWritten(attrs[i], client); }
    if HasAttr(attrs, name) {
      var i :| 0 <= i < |attrs| && attrs[i].name == name;
      assert w[i] in w;
    }
  }

  predicate IsTimingName(n: string) { n == "END-ON-NEXT" || n == "END-DATE" || n == "DURATION" }

  ghost predicate NoTiming(attrs: seq<Attr>) { forall a | a in attrs :: !IsTimingName(a.name) }

  lemma HeadHasNoTiming(s: Range)
    ensures NoTiming(HeadAttrs(s))
  {
  }

  lemma CueHasNoTiming(standard: string, own: string, cue: string)
    requires !IsTimingName(standard) && !IsTimingName(own)
    ensures NoTiming(CueAttrs(standard, own, cue))
  {
    hide LooksLikeScte35, IsTimingName;
  }

  lemma LabelsHaveNoTiming(s: Range)
    ensures NoTiming(LabelAttrs(s))
  {
    hide LooksLikeScte35, CueAttrs;
    CueHasNoTiming("SCTE35-OUT", "X-MULTICODER-CUE-OUT", s.cueOut);
    CueHasNoTiming("SCTE35-IN", "X-MULTICODER-CUE-IN", s.cueIn);
  }

  lemma HasAttrConcat(a: seq<Attr>, b: seq<Attr>, n: string)
    ensures HasAttr(a + b, n) <==> HasAttr(a, n) || HasAttr(b, n)
  {
    if HasAttr(a, n) {
      var x :| x in a && x.name == n;
      assert x in a + b;
    }
    if HasAttr(b, n) {
      var x :| x in b && x.name == n;
      assert x in a + b;
    }
  }

  lemma TimingAttr(s: Range, n: string)
    requires IsTimingName(n)
    ensures HasAttr(Attrs(s), n) <==>
            HasAttr(Optional("END-DATE", s.endDate), n) || HasAttr(DurationAttrs(s), n) || HasAttr(OpenAttrs(s), n)
  {
    hide HeadAttrs, LabelAttrs, Optional, DurationAttrs, OpenAttrs, IsTimingName;
    var h, e, d, l, o := HeadAttrs(s), Optional("END-DATE", s.endDate), DurationAttrs(s), LabelAttrs(s), OpenAttrs(s);
    HeadHasNoTiming(s);
    LabelsHaveNoTiming(s);
    HasAttrConcat(h + e + d + l, o, n);
    HasAttrConcat(h + e + d, l, n);
    HasAttrConcat(h + e, d, n);
    HasAttrConcat(h, e, n);
  }

  /** Which timing attributes the line has, for any text in any field. */
  lemma TimingAttrs(s: Range)
    ensures HasAttr(Attrs(s), "END-ON-NEXT") <==> s.active
    ensures HasAttr(Attrs(s), "END-DATE") <==> s.endDate != ""
    ensures HasAttr(Attrs(s), "DURATION") <==> s.startMs > 0 && s.endMs > s.startMs
  {
    hide Seconds, Attrs;
    TimingAttr(s, "END-ON-NEXT");
    TimingAttr(s, "END-DATE");
    TimingAttr(s, "DURATION");
    if s.active { assert OpenAttrs(s)[0].name == "END-ON-NEXT"; }
    if s.endDate != "" { assert Optional("END-DATE", s.endDate)[0].name == "END-DATE"; }
    if s.startMs > 0 && s.endMs > s.startMs { assert DurationAttrs(s)[0].name == "DURATION"; }
  }

  /** An open break is announced with END-ON-NEXT and neither of the attributes that exclude it (RFC 8216, section
      4.3.2.7); a closed one never with END-ON-NEXT. */
  ghost predicate EndOnNextAlone(attrs: seq<Attr>, s: Range) {
    (HasAttr(attrs, "END-ON-NEXT") <==> s.active) &&
    (HasAttr(attrs, "END-ON-NEXT") ==> !HasAttr(attrs, "END-DATE") && !HasAttr(attrs, "DURATION"))
  }

  /** So it is for a client that resolves backslashes, whatever the texts; for a standard one if the double quotes in
      every text pair up with no comma in between. */
  lemma EndOnNextStandsAlone(s: Range, client: Client)
    requires HasLine(s) && OpenHasNoEnd(s)
    ensures InPlaceFor(s, client) ==> EndOnNextAlone(ClientAttrs(DateRangeLine(s), client), s)
  {
    hide ClientAttrs, DateRangeLine, Attrs, HasAttr, InPlaceFor, LegibleTo, AllAsWritten;
    ClientReadsIff(s, client);
    TimingAttrs(s);
    WrittenNames(Attrs(s), client, "END-ON-NEXT");
    WrittenNames(Attrs(s), client, "END-DATE");
    WrittenNames(Attrs(s), client, "DURATION");
  }

  /** The same for every break a run of cues can leave in the file, starting from an empty store, with the condition
      on the texts of the cues. */
  lemma ReachableEndOnNextStandsAlone(files: seq<string>, memories: seq<Range>, encoder: int, cues: seq<Cue>,
                                      parseUtc: string -> int, client: Client)
    requires ParsesInRange(parseUtc) && IsRun(files, memories, encoder, cues, parseUtc)
    requires files[0] == "" && memories[0] == BLANK
    ensures var s := ReadRange(ReadFile(files[|cues|]), parseUtc);
            HasLine(s) && (client.Resolving? || forall c | c in cues :: CueTexts(c, PairedText)) ==>
              EndOnNextAlone(ClientAttrs(DateRangeLine(s), client), s)
  {
    hide ReadRange, ReadFile, ClientAttrs, DateRangeLine, EndOnNextAlone, ParsesInRange, OpenHasNoEnd, Persists;
    hide ValidCue, CueTexts, Texts, PairedText, Fits;
    ReachableOpenHasNoEnd(files, memories, encoder, cues, parseUtc);
    var s := ReadRange(ReadFile(files[|cues|]), parseUtc);
    if HasLine(s) {
      EndOnNextStandsAlone(s, client);
      if forall c | c in cues :: CueTexts(c, PairedText) {
        PairedFits(encoder);
        ReachableTexts(files, memories, encoder, cues, parseUtc, PairedText);
      }
    }
  }

  // ---------- where the line goes ----------

  /** The time of a date line, 0 when it has none that can be read. */
  function TimeOf(line: string, parseUtc: string -> int): int {
    if StartsWith(line, DATE) then parseUtc(line[|DATE|..]) else 0
  }

  function TimesOf(lines: seq<string>, parseUtc: string -> int): (t: seq<int>)
    ensures |t| == |lines|
  {
    seq(|lines|, i requires 0 <= i < |lines| => TimeOf(lines[i], parseUtc))
  }

  /** The lines with a readable time from `i` on: their index and time. */
  function DatedFrom(times: seq<int>, i: nat): seq<(nat, int)>
    requires i <= |times|
    decreases |times| - i
  {
    if i == |times| then []
    else (if times[i] > 0 then [(i, times[i])] else []) + DatedFrom(times, i + 1)
  }

  /** The first entry not earlier than the start of the break. */
  function PickFrom(dated: seq<(nat, int)>, startMs: int, fallback: nat): nat {
    if dated == [] then fallback
    else if startMs <= 0 || dated[0].1 >= startMs then dated[0].0
    else PickFrom(dated[1..], startMs, fallback)
  }

  /** Index at which the line is inserted, or None where the source leaves the playlist alone. */
  function InsertIndex(times: seq<int>, s: Range): Option<nat> {
    var dated := DatedFrom(times, 0);
    if dated == [] || !HasLine(s) then None
    else
      var firstMs, lastMs := dated[0].1, dated[|dated| - 1].1;
      if !s.active && s.endMs > 0 && s.endMs < firstMs then None
      else if s.startMs > lastMs then None
      else Some(PickFrom(dated, s.startMs, dated[0].0))
  }

  function Injected(lines: seq<string>, s: Range, parseUtc: string -> int): seq<string> {
    match InsertIndex(TimesOf(lines, parseUtc), s)
    case None => lines
    case Some(at) => InsertAt(lines, at, s)
  }

  function InsertAt(lines: seq<string>, at: nat, s: Range): seq<string> {
    if HasLine(s) && at <= |lines| then lines[..at] + [DateRangeLine(s)] + lines[at..] else lines
  }

  ghost predicate IsDated(times: seq<int>, i: int) { 0 <= i < |times| && times[i] > 0 }

  /** The date line the break belongs to: the first one not earlier than its start, or the first one of
      all when the start is not known. */
  ghost predicate IsBreakPlace(times: seq<int>, startMs: int, at: int) {
    IsDated(times, at) && (startMs > 0 ==> times[at] >= startMs) &&
    forall i | 0 <= i < at && IsDated(times, i) :: startMs > 0 && times[i] < startMs
  }

  ghost predicate IsFirstDated(times: seq<int>, i: int) {
    IsDated(times, i) && forall k | 0 <= k < i :: !IsDated(times, k)
  }

  ghost predicate IsLastDated(times: seq<int>, i: int) {
    IsDated(times, i) && forall k | i < k < |times| :: !IsDated(times, k)
  }

  ghost predicate EndsAreDated(times: seq<int>, i: nat, d: seq<(nat, int)>) {
    if d == [] then forall k | i <= k < |times| :: !IsDated(times, k)
    else
      var a, b := d[0].0, d[|d| - 1].0;
      i <= a && IsDated(times, a) && d[0].1 == times[a] && (forall k | i <= k < a :: !IsDated(times, k)) &&
      i <= b && IsLastDated(times, b) && d[|d| - 1].1 == times[b]
  }

  lemma {:induction false} DatedEnds(times: seq<int>, i: nat)
    requires i <= |times|
    ensures EndsAreDated(times, i, DatedFrom(times, i))
    decreases |times| - i
  {
    if i < |times| {
      var d, rest := DatedFrom(times, i), DatedFrom(times, i + 1);
      DatedEnds(times, i + 1);
      if times[i] > 0 {
        assert d[0] == (i, times[i]) && d[1..] == rest;
        if rest != [] { assert d[|d| - 1] == rest[|rest| - 1]; }
      } else {
        assert d == rest;
      }
    }
  }

  lemma PickStep(times: seq<int>, i: nat, startMs: int, fallback: nat)
    requires i < |times|
    ensures PickFrom(DatedFrom(times, i), startMs, fallback) ==
            if times[i] > 0 && (startMs <= 0 || times[i] >= startMs) then i
            else PickFrom(DatedFrom(times, i + 1), startMs, fallback)
  {
    var d, rest := DatedFrom(times, i), DatedFrom(times, i + 1);
    if times[i] > 0 { assert d[0] == (i, times[i]) && d[1..] == rest; } else { assert d == rest; }
  }

  /** Picking finds the first line late enough, as long as the last one is. */
  lemma {:induction false} PickIsFirstLateEnough(times: seq<int>, i: nat, startMs: int, fallback: nat)
    requires i <= |times|
    requires exists k | i <= k < |times| :: IsDated(times, k) && (startMs > 0 ==> times[k] >= startMs)
    ensures var at := PickFrom(DatedFrom(times, i), startMs, fallback);
            i <= at < |times| && IsDated(times, at) && (startMs > 0 ==> times[at] >= startMs) &&
            forall k | i <= k < at && IsDated(times, k) :: startMs > 0 && times[k] < startMs
    decreases |times| - i
  {
    hide DatedFrom, PickFrom;
    if i < |times| {
      PickStep(times, i, startMs, fallback);
      if !(times[i] > 0 && (startMs <= 0 || times[i] >= startMs)) {
        assert exists k | i + 1 <= k < |times| :: IsDated(times, k) && (startMs > 0 ==> times[k] >= startMs);
        PickIsFirstLateEnough(times, i + 1, startMs, fallback);
      }
    }
  }

  /** The break ended before the first date shown, or starts after the last one. */
  ghost predicate OutsideWindow(times: seq<int>, s: Range) {
    exists i, j :: IsFirstDated(times, i) && IsLastDated(times, j) &&
      ((!s.active && s.endMs > 0 && s.endMs < times[i]) || s.startMs > times[j])
  }

  lemma OutsideWindowAt(times: seq<int>, s: Range, a: int, b: int)
    requires IsFirstDated(times, a) && IsLastDated(times, b)
    ensures OutsideWindow(times, s) <==>
            (!s.active && s.endMs > 0 && s.endMs < times[a]) || s.startMs > times[b]
  {
    assert forall i | IsFirstDated(times, i) :: i == a;
    assert forall i | IsLastDated(times, i) :: i == b;
  }

  /** The line is inserted exactly when the break has one, some date can be read and the break is not
      outside the window; and then right at the break's own date line. */
  lemma InsertIndexIff(times: seq<int>, s: Range)
    ensures InsertIndex(times, s).Some? <==>
            HasLine(s) && (exists i :: IsDated(times, i)) && !OutsideWindow(times, s)
    ensures InsertIndex(times, s).Some? ==> IsBreakPlace(times, s.startMs, InsertIndex(times, s).value)
  {
    hide HasLine, DatedFrom, PickFrom, OutsideWindow;
    var d := DatedFrom(times, 0);
    DatedEnds(times, 0);
    if d != [] {
      var a, b := d[0].0, d[|d| - 1].0;
      OutsideWindowAt(times, s, a, b);
      if s.startMs <= times[b] { PickIsFirstLateEnough(times, 0, s.startMs, a); }
    }
  }

  /** What injection does: nothing, or one line right before the break's own date line; taking that line
      out again restores the playlist. */
  lemma InjectPlacement(lines: seq<string>, s: Range, parseUtc: string -> int)
    ensures var times, out := TimesOf(lines, parseUtc), Injected(lines, s, parseUtc);
            if s.id != "" && s.startDate != "" && (exists i :: IsDated(times, i)) && !OutsideWindow(times, s) then
              exists at | 0 <= at < |lines| ::
                IsBreakPlace(times, s.startMs, at) &&
                |out| == |lines| + 1 && out[at] == DateRangeLine(s) && out[at + 1] == lines[at] &&
                out[..at] + out[at + 1..] == lines
            else out == lines
  {
    hide TimesOf, InsertIndex, IsBreakPlace, DateRangeLine, OutsideWindow;
    var times := TimesOf(lines, parseUtc);
    InsertIndexIff(times, s);
    if InsertIndex(times, s).Some? {
      var at := InsertIndex(times, s).value;
      BreakPlaceInRange(times, s.startMs, at);
      var out := Injected(lines, s, parseUtc);
      assert out[..at] + out[at + 1..] == lines;
    }
  }

  lemma BreakPlaceInRange(times: seq<int>, startMs: int, at: int)
    requires IsBreakPlace(times, startMs, at)
    ensures 0 <= at < |times|
  {
  }

  method CollectDated(lines: seq<string>, parseUtc: string -> int) returns (dated: seq<(nat, int)>)
    ensures dated == DatedFrom(TimesOf(lines, parseUtc), 0)
  {
    hide TimeOf;
    ghost var times := TimesOf(lines, parseUtc);
    dated := [];
    for i := 0 to |lines|
      invariant dated + DatedFrom(times, i) == DatedFrom(times, 0)
    {
      var ms := TimeOf(lines[i], parseUtc);
      ghost var rest := DatedFrom(times, i + 1);
      if ms > 0 {
        assert dated + ([(i, ms)] + rest) == dated + [(i, ms)] + rest;
        dated := dated + [(i, ms)];
      } else {
        assert [] + rest == rest;
      }
    }
  }

  method InjectDateRange(lines: seq<string>, s: Range, parseUtc: string -> int) returns (out: seq<string>)
    ensures out == Injected(lines, s, parseUtc)
  {
    hide TimesOf, DateRangeLine, DatedFrom;
    out := lines;
    var dated := CollectDated(lines, parseUtc);
    if !HasLine(s) || dated == [] { return; }
    var firstMs, lastMs := dated[0].1, dated[|dated| - 1].1;
    if !s.active && s.endMs > 0 && s.endMs < firstMs { return; }
    if s.startMs > lastMs { return; }
    var insertAt := dated[0].0;
    var k := 0;
    while k < |dated|
      invariant 0 <= k <= |dated| && insertAt == dated[0].0
      invariant PickFrom(dated[k..], s.startMs, insertAt) == PickFrom(dated, s.startMs, dated[0].0)
    {
      if s.startMs <= 0 || dated[k].1 >= s.startMs {
        insertAt := dated[k].0;
        break;
      }
      assert dated[k..][1..] == dated[k + 1..];
      k := k + 1;
    }
    InsertIndexIff(TimesOf(lines, parseUtc), s);
    out := lines[..insertAt] + [DateRangeLine(s)] + lines[insertAt..];
  }
}
