/** What a client finds under each attribute name of the break line. */
module DateRangeClient {
  import opened Text
  import opened AttributeList
  import opened BreakState
  import opened BreakTexts
  import opened DateRange
  import opened BreakLifecycle
  import opened PlaylistLines

  // ---------- every name at most once ----------

  /** A number that tells the thirteen attribute names of the source apart. */
  function Tag(name: string): int {
    2 * |name| + if |name| > 1 && (name[1] == 'T' || name[1] == 'U') then 1 else 0
  }

  function Tags(attrs: seq<Attr>): set<int> { set a | a in attrs :: Tag(a.name) }

  ghost predicate Distinct(attrs: seq<Attr>) {
    forall i, j | 0 <= i < j < |attrs| :: Tag(attrs[i].name) != Tag(attrs[j].name)
  }

  lemma DistinctConcat(a: seq<Attr>, b: seq<Attr>)
    requires Distinct(a) && Distinct(b) && Tags(a) !! Tags(b)
    ensures Distinct(a + b) && Tags(a + b) == Tags(a) + Tags(b)
  {
    hide Tag;
    var c := a + b;
    forall i, j | 0 <= i < j < |c| ensures Tag(c[i].name) != Tag(c[j].name) {
      assert i < |a| ==> Tag(c[i].name) in Tags(a);
      assert j >= |a| ==> Tag(c[j].name) in Tags(b);
    }
    forall t ensures t in Tags(c) <==> t in Tags(a) + Tags(b) {
      if t in Tags(a) {
        var x :| x in a && Tag(x.name) == t;
        assert x in c;
      }
      if t in Tags(b) {
        var x :| x in b && Tag(x.name) == t;
        assert x in c;
      }
    }
  }

  lemma StandardTags()
    ensures Tag("ID") == 4 && Tag("CLASS") == 10 && Tag("START-DATE") == 21 && Tag("END-DATE") == 16
    ensures Tag("DURATION") == 17 && Tag("END-ON-NEXT") == 22 && Tag("SCTE35-OUT") == 20 && Tag("SCTE35-IN") == 18
  {
  }

  lemma OwnTags()
    ensures Tag("X-MULTICODER-EVENT-ID") == 42 && Tag("X-MULTICODER-OUT") == 32 && Tag("X-MULTICODER-IN") == 30
    ensures Tag("X-MULTICODER-CUE-OUT") == 40 && Tag("X-MULTICODER-CUE-IN") == 38
  {
  }

  lemma OneTag(a: Attr)
    ensures Distinct([a]) && Tags([a]) == {Tag(a.name)}
  {
  }

  lemma NoTag()
    ensures Distinct([]) && Tags([]) == {}
  {
  }

  lemma OptionalTags(name: string, v: string)
    ensures Distinct(Optional(name, v)) && Tags(Optional(name, v)) == if v == "" then {} else {Tag(name)}
  {
    hide Tag, Distinct, Tags;
    OneTag(QuotedAttr(name, v));
    NoTag();
  }

  function CueTagSet(standard: string, own: string, cue: string): set<int> {
    if cue == "" then {} else (if LooksLikeScte35(cue) then {Tag(standard)} else {}) + {Tag(own)}
  }

  lemma CueTags(standard: string, own: string, cue: string)
    requires Tag(standard) != Tag(own)
    ensures Distinct(CueAttrs(standard, own, cue)) && Tags(CueAttrs(standard, own, cue)) ==
        CueTagSet(standard, own, cue)
  {
    hide Tag, Distinct, Tags, LooksLikeScte35;
    NoTag();
    OneTag(QuotedAttr(own, cue));
    if LooksLikeScte35(cue) {
      OneTag(QuotedAttr(standard, cue));
      DistinctConcat([QuotedAttr(standard, cue)], [QuotedAttr(own, cue)]);
    } else {
      assert [] + [QuotedAttr(own, cue)] == [QuotedAttr(own, cue)];
    }
  }

  lemma HeadTags(s: Range)
    ensures Distinct(HeadAttrs(s)) && Tags(HeadAttrs(s)) == {4, 10, 21}
  {
    hide Tag, Distinct, Tags;
    StandardTags();
    var a, b, c := QuotedAttr("ID", s.id), QuotedAttr("CLASS", "com.apple.hls.scte35"),
                   QuotedAttr("START-DATE", s.startDate);
    OneTag(a);
    OneTag(b);
    OneTag(c);
    DistinctConcat([a], [b]);
    DistinctConcat([a] + [b], [c]);
    assert HeadAttrs(s) == [a] + [b] + [c];
  }

  lemma LabelTags(s: Range)
    ensures Distinct(LabelAttrs(s)) && Tags(LabelAttrs(s)) <= {42, 32, 30, 20, 40, 18, 38}
  {
    hide Tag, Distinct, Tags, Optional, CueAttrs, LooksLikeScte35;
    StandardTags();
    OwnTags();
    var a, b, c := Optional("X-MULTICODER-EVENT-ID", s.eventId), Optional("X-MULTICODER-OUT", s.actionOut),
                   Optional("X-MULTICODER-IN", s.actionIn);
    var d, e := CueAttrs("SCTE35-OUT", "X-MULTICODER-CUE-OUT", s.cueOut),
                CueAttrs("SCTE35-IN", "X-MULTICODER-CUE-IN", s.cueIn);
    OptionalTags("X-MULTICODER-EVENT-ID", s.eventId);
    OptionalTags("X-MULTICODER-OUT", s.actionOut);
    OptionalTags("X-MULTICODER-IN", s.actionIn);
    CueTags("SCTE35-OUT", "X-MULTICODER-CUE-OUT", s.cueOut);
    CueTags("SCTE35-IN", "X-MULTICODER-CUE-IN", s.cueIn);
    DistinctConcat(a, b);
    DistinctConcat(a + b, c);
    DistinctConcat(a + b + c, d);
    DistinctConcat(a + b + c + d, e);
  }

  lemma DurationTags(s: Range)
    ensures Distinct(DurationAttrs(s)) && Tags(DurationAttrs(s)) <= {17}
    ensures Distinct(OpenAttrs(s)) && Tags(OpenAttrs(s)) <= {22}
  {
    hide Seconds, Tag, Distinct, Tags;
    StandardTags();
    NoTag();
    if s.startMs > 0 && s.endMs > s.startMs { OneTag(Attr("DURATION", Bare(Seconds(s.endMs - s.startMs)))); }
    OneTag(Attr("END-ON-NEXT", Bare("YES")));
  }

  lemma AttrsDistinct(s: Range)
    ensures Distinct(Attrs(s))
  {
    hide Tag, Distinct, Tags, Optional, HeadAttrs, DurationAttrs, LabelAttrs, OpenAttrs;
    StandardTags();
    var h, e, d, l, o := HeadAttrs(s), Optional("END-DATE", s.endDate), DurationAttrs(s), LabelAttrs(s), OpenAttrs(s);
    HeadTags(s);
    OptionalTags("END-DATE", s.endDate);
    DurationTags(s);
    LabelTags(s);
    DistinctConcat(h, e);
    DistinctConcat(h + e, d);
    DistinctConcat(h + e + d, l);
    DistinctConcat(h + e + d + l, o);
  }

  lemma AttrsDiffer(s: Range)
    ensures NamesDiffer(Attrs(s))
  {
    hide Tag, Attrs;
    AttrsDistinct(s);
  }

  lemma WrittenDiffer(attrs: seq<Attr>, client: Client)
    requires NamesDiffer(attrs)
    ensures NamesDiffer(AllAsWritten(attrs, client))
  {
    hide AsWritten;
    forall i | 0 <= i < |attrs| ensures AllAsWritten(attrs, client)[i].name == attrs[i].name {
      NameWritten(attrs[i], client);
    }
  }

  /** No attribute name comes twice in the line (RFC 8216, section 4.2): for a client that resolves backslashes whatever
      the texts, for a standard one if the double quotes in every text pair up with no comma in between. */
  lemma NamesAreDistinct(s: Range, client: Client)
    requires HasLine(s)
    ensures InPlaceFor(s, client) ==> NamesDiffer(ClientAttrs(DateRangeLine(s), client))
  {
    hide NamesDiffer, AllAsWritten, ClientAttrs, DateRangeLine, Attrs, InPlaceFor, LegibleTo;
    ClientReadsIff(s, client);
    AttrsDiffer(s);
    WrittenDiffer(Attrs(s), client);
  }

  // ---------- the value under a name ----------

  function Either<T>(a: Option<T>, b: Option<T>): Option<T> { if a.Some? then a else b }

  lemma {:induction false} LookupConcat(a: seq<Attr>, b: seq<Attr>, name: string)
    ensures Lookup(a + b, name) == Either(Lookup(a, name), Lookup(b, name))
  {
    if a == [] {
      assert a + b == b;
    } else {
      assert (a + b)[1..] == a[1..] + b;
      LookupConcat(a[1..], b, name);
    }
  }

  lemma {:induction false} LookupMiss(attrs: seq<Attr>, name: string)
    requires Tag(name) !in Tags(attrs)
    ensures Lookup(attrs, name) == None
  {
    hide Tag;
    if attrs != [] {
      assert attrs[0] in attrs;
      assert forall a | a in attrs[1..] :: a in attrs;
      LookupMiss(attrs[1..], name);
    }
  }

  lemma LookupParts(s: Range, name: string)
    ensures Lookup(Attrs(s), name) ==
            Either(Lookup(HeadAttrs(s), name), Either(Lookup(Optional("END-DATE", s.endDate), name),
              Either(Lookup(DurationAttrs(s), name), Either(Lookup(LabelAttrs(s), name), Lookup(OpenAttrs(s), name)))))
  {
    hide Lookup, Optional, HeadAttrs, DurationAttrs, LabelAttrs, OpenAttrs;
    var h, e, d, l, o := HeadAttrs(s), Optional("END-DATE", s.endDate), DurationAttrs(s), LabelAttrs(s), OpenAttrs(s);
    LookupConcat(h + e + d + l, o, name);
    LookupConcat(h + e + d, l, name);
    LookupConcat(h + e, d, name);
    LookupConcat(h, e, name);
  }

  lemma LookupLabels(s: Range, name: string)
    ensures Lookup(LabelAttrs(s), name) ==
            Either(Lookup(Optional("X-MULTICODER-EVENT-ID", s.eventId), name),
              Either(Lookup(Optional("X-MULTICODER-OUT", s.actionOut), name),
                Either(Lookup(Optional("X-MULTICODER-IN", s.actionIn), name),
                  Either(Lookup(CueAttrs("SCTE35-OUT", "X-MULTICODER-CUE-OUT", s.cueOut), name),
                         Lookup(CueAttrs("SCTE35-IN", "X-MULTICODER-CUE-IN", s.cueIn), name)))))
  {
    hide Lookup, Optional, CueAttrs;
    var a, b, c := Optional("X-MULTICODER-EVENT-ID", s.eventId), Optional("X-MULTICODER-OUT", s.actionOut),
                   Optional("X-MULTICODER-IN", s.actionIn);
    var d, e := CueAttrs("SCTE35-OUT", "X-MULTICODER-CUE-OUT", s.cueOut),
                CueAttrs("SCTE35-IN", "X-MULTICODER-CUE-IN", s.cueIn);
    LookupConcat(a + b + c + d, e, name);
    LookupConcat(a + b + c, d, name);
    LookupConcat(a + b, c, name);
    LookupConcat(a, b, name);
  }

  lemma LookupOptional(own: string, v: string, name: string)
    requires own == name || Tag(own) != Tag(name)
    ensures Lookup(Optional(own, v), name) ==
            if own == name then Shown(v) else None
  {
    hide Tag;
  }

  lemma LookupCue(standard: string, own: string, cue: string, name: string)
    requires Tag(standard) != Tag(own)
    requires (standard == name || Tag(standard) != Tag(name)) && (own == name || Tag(own) != Tag(name))
    ensures Lookup(CueAttrs(standard, own, cue), name) ==
            if cue != "" && (own == name || (standard == name && LooksLikeScte35(cue))) then
                Some(Quoted(cue))
            else None
  {
    hide Tag, LooksLikeScte35, Lookup;
    LookupNothing(name);
    if cue != "" {
      var a, b := QuotedAttr(standard, cue), QuotedAttr(own, cue);
      LookupOne(a, name);
      LookupOne(b, name);
      LookupConcat([a], [b], name);
      assert [] + [b] == [b];
    }
  }

  lemma LookupOne(a: Attr, name: string)
    ensures Lookup([a], name) == if a.name == name then Some(a.value) else None
  {
  }

  lemma LookupNothing(name: string)
    ensures Lookup([], name) == None
  {
  }

  /** An optional text is under its name exactly when it is not empty. */
  function Shown(v: string): Option<Value> { if v == "" then None else Some(Quoted(v)) }

  function ShownIf(v: string, c: bool): Option<Value> { if c then Shown(v) else None }

  /** What the record says about the id, the fixed class, the dates, the length and whether the break is open. */
  ghost predicate TellsTimes(attrs: seq<Attr>, s: Range) {
    Lookup(attrs, "ID") == Some(Quoted(s.id)) && Lookup(attrs, "CLASS") == Some(Quoted("com.apple.hls.scte35")) &&
    Lookup(attrs, "START-DATE") == Some(Quoted(s.startDate)) &&
    Lookup(attrs, "END-DATE") == Shown(s.endDate) &&
    Lookup(attrs, "DURATION") ==
      (if s.startMs > 0 && s.endMs > s.startMs then Some(Bare(Seconds(s.endMs - s.startMs))) else None) &&
    Lookup(attrs, "END-ON-NEXT") == (if s.active then Some(Bare("YES")) else None)
  }

  /** And about the event, the actions and the cue texts, each under its own name; the SCTE-35 names only for texts
      that look like SCTE-35. */
  ghost predicate TellsLabels(attrs: seq<Attr>, s: Range) {
    Lookup(attrs, "X-MULTICODER-EVENT-ID") == Shown(s.eventId) &&
    Lookup(attrs, "X-MULTICODER-OUT") == Shown(s.actionOut) && Lookup(attrs, "X-MULTICODER-IN") == Shown(s.actionIn) &&
    Lookup(attrs, "X-MULTICODER-CUE-OUT") == Shown(s.cueOut) &&
    Lookup(attrs, "X-MULTICODER-CUE-IN") == Shown(s.cueIn) &&
    Lookup(attrs, "SCTE35-OUT") == ShownIf(s.cueOut, LooksLikeScte35(s.cueOut)) &&
    Lookup(attrs, "SCTE35-IN") == ShownIf(s.cueIn, LooksLikeScte35(s.cueIn))
  }

  ghost predicate Tells(attrs: seq<Attr>, s: Range) { TellsTimes(attrs, s) && TellsLabels(attrs, s) }

  lemma TimesAreTold(s: Range)
    ensures TellsTimes(Attrs(s), s)
  {
    hide Attrs, Tag, Tags, HeadAttrs, LabelAttrs, OpenAttrs, Lookup, Seconds, Optional, DurationAttrs;
    StandardTags();
    HeadTags(s);
    LabelTags(s);
    DurationTags(s);
    StartInHead(s);
    TimesAlone(s);
    LookupParts(s, "ID");
    LookupParts(s, "START-DATE");
    LookupParts(s, "CLASS");
    LookupParts(s, "END-DATE");
    LookupMiss(HeadAttrs(s), "END-DATE");
    LookupMiss(DurationAttrs(s), "END-DATE");
    LookupMiss(LabelAttrs(s), "END-DATE");
    LookupMiss(OpenAttrs(s), "END-DATE");
    LookupOptional("END-DATE", s.endDate, "END-DATE");
    LookupParts(s, "DURATION");
    LookupMiss(HeadAttrs(s), "DURATION");
    LookupMiss(LabelAttrs(s), "DURATION");
    LookupMiss(OpenAttrs(s), "DURATION");
    LookupOptional("END-DATE", s.endDate, "DURATION");
    OpenIsTold(s);
  }

  lemma OpenIsTold(s: Range)
    ensures Lookup(Attrs(s), "END-ON-NEXT") == Lookup(OpenAttrs(s), "END-ON-NEXT")
  {
    hide Attrs, Tag, Tags, HeadAttrs, LabelAttrs, OpenAttrs, Lookup, Optional, DurationAttrs;
    StandardTags();
    HeadTags(s);
    LabelTags(s);
    DurationTags(s);
    LookupParts(s, "END-ON-NEXT");
    LookupMiss(HeadAttrs(s), "END-ON-NEXT");
    LookupMiss(DurationAttrs(s), "END-ON-NEXT");
    LookupMiss(LabelAttrs(s), "END-ON-NEXT");
    LookupOptional("END-DATE", s.endDate, "END-ON-NEXT");
  }

  lemma StartInHead(s: Range)
    ensures Lookup(HeadAttrs(s), "START-DATE") == Some(Quoted(s.startDate))
    ensures Lookup(HeadAttrs(s), "ID") == Some(Quoted(s.id))
    ensures Lookup(HeadAttrs(s), "CLASS") == Some(Quoted("com.apple.hls.scte35"))
  {
    hide Lookup, Tag;
    StandardTags();
    var a, b := QuotedAttr("ID", s.id), QuotedAttr("CLASS", "com.apple.hls.scte35");
    var c := QuotedAttr("START-DATE", s.startDate);
    assert HeadAttrs(s) == [a] + [b] + [c];
    forall name ensures Lookup(HeadAttrs(s), name) ==
                        if a.name == name then Some(a.value) else if b.name == name then Some(b.value)
                        else if c.name == name then Some(c.value) else None
    {
      LookupOne(a, name);
      LookupOne(b, name);
      LookupOne(c, name);
      LookupConcat([a] + [b], [c], name);
      LookupConcat([a], [b], name);
    }
  }

  lemma TimesAlone(s: Range)
    ensures Lookup(DurationAttrs(s), "DURATION") ==
            if s.startMs > 0 && s.endMs > s.startMs then Some(Bare(Seconds(s.endMs - s.startMs))) else None
    ensures Lookup(OpenAttrs(s), "END-ON-NEXT") == if s.active then Some(Bare("YES")) else None
  {
    hide Seconds;
  }

  ghost predicate IsLabel(name: string) {
    name in ["X-MULTICODER-EVENT-ID", "X-MULTICODER-OUT", "X-MULTICODER-IN",
             "SCTE35-OUT", "X-MULTICODER-CUE-OUT", "SCTE35-IN", "X-MULTICODER-CUE-IN"]
  }

  lemma LabelUnder(s: Range, name: string)
    requires Tag(name) in {42, 32, 30, 20, 40, 18, 38}
    ensures Lookup(Attrs(s), name) == Lookup(LabelAttrs(s), name)
  {
    hide Attrs, Tag, Tags, HeadAttrs, LabelAttrs, OpenAttrs, Lookup, Optional, DurationAttrs;
    StandardTags();
    HeadTags(s);
    DurationTags(s);
    OptionalTags("END-DATE", s.endDate);
    LookupParts(s, name);
    LookupMiss(HeadAttrs(s), name);
    LookupMiss(DurationAttrs(s), name);
    LookupMiss(OpenAttrs(s), name);
    LookupMiss(Optional("END-DATE", s.endDate), name);
  }

  /** One name among the labels: exactly one of the five parts can hold it. */
  lemma LabelValue(s: Range, name: string)
    requires IsLabel(name)
    ensures Lookup(Attrs(s), name) == LabelText(s, name)
  {
    hide Attrs, LabelAttrs, Lookup, Optional, CueAttrs, LooksLikeScte35, Tag;
    StandardTags();
    OwnTags();
    LabelUnder(s, name);
    LookupLabels(s, name);
    LookupOptional("X-MULTICODER-EVENT-ID", s.eventId, name);
    LookupOptional("X-MULTICODER-OUT", s.actionOut, name);
    LookupOptional("X-MULTICODER-IN", s.actionIn, name);
    LookupCue("SCTE35-OUT", "X-MULTICODER-CUE-OUT", s.cueOut, name);
    LookupCue("SCTE35-IN", "X-MULTICODER-CUE-IN", s.cueIn, name);
  }

  function LabelText(s: Range, name: string): Option<Value> {
    if Tag(name) == 42 then Shown(s.eventId)
    else if Tag(name) == 32 then Shown(s.actionOut)
    else if Tag(name) == 30 then Shown(s.actionIn)
    else if Tag(name) == 20 then ShownIf(s.cueOut, LooksLikeScte35(s.cueOut))
    else if Tag(name) == 40 then Shown(s.cueOut)
    else if Tag(name) == 18 then ShownIf(s.cueIn, LooksLikeScte35(s.cueIn))
    else Shown(s.cueIn)
  }

  /** The attributes of a record tell it. */
  lemma RecordIsTold(s: Range)
    ensures Tells(Attrs(s), s)
  {
    hide Attrs, Lookup, LooksLikeScte35, Tag, TellsTimes;
    OwnTags();
    StandardTags();
    TimesAreTold(s);
    LabelValue(s, "X-MULTICODER-EVENT-ID");
    LabelValue(s, "X-MULTICODER-OUT");
    LabelValue(s, "X-MULTICODER-IN");
    LabelValue(s, "X-MULTICODER-CUE-OUT");
    LabelValue(s, "X-MULTICODER-CUE-IN");
    LabelValue(s, "SCTE35-OUT");
    LabelValue(s, "SCTE35-IN");
  }

  // ---------- when a client is told ----------

  /** Whoever is told the record finds each of its texts under its name. */
  lemma ToldHead(read: seq<Attr>, s: Range, a: Attr)
    requires Tells(read, s) && (a in HeadAttrs(s) || a in Optional("END-DATE", s.endDate) || a in OpenAttrs(s))
    ensures Found(read, a)
  {
    hide Lookup, TellsLabels, Seconds;
  }

  lemma ToldLabel(read: seq<Attr>, s: Range, a: Attr)
    requires Tells(read, s) && a in LabelAttrs(s)
    ensures Found(read, a)
  {
    hide Lookup, TellsTimes, LooksLikeScte35, Optional, CueAttrs, Found, Shown, ShownIf;
    OptionalFound(read, "X-MULTICODER-EVENT-ID", s.eventId);
    OptionalFound(read, "X-MULTICODER-OUT", s.actionOut);
    OptionalFound(read, "X-MULTICODER-IN", s.actionIn);
    CueFound(read, "SCTE35-OUT", "X-MULTICODER-CUE-OUT", s.cueOut);
    CueFound(read, "SCTE35-IN", "X-MULTICODER-CUE-IN", s.cueIn);
  }

  lemma OptionalFound(read: seq<Attr>, name: string, v: string)
    requires Lookup(read, name) == Shown(v)
    ensures forall a | a in Optional(name, v) :: Found(read, a)
  {
    hide Lookup;
  }

  lemma CueFound(read: seq<Attr>, standard: string, own: string, cue: string)
    requires Lookup(read, own) == Shown(cue) && Lookup(read, standard) == ShownIf(cue, LooksLikeScte35(cue))
    ensures forall a | a in CueAttrs(standard, own, cue) :: Found(read, a)
  {
    hide Lookup, LooksLikeScte35;
  }

  lemma ToldAttr(read: seq<Attr>, s: Range, a: Attr, client: Client)
    requires Tells(read, s) && a in Attrs(s)
    ensures Legible(a, client) || Found(read, a)
  {
    hide Tells, Seconds, HeadAttrs, LabelAttrs, OpenAttrs, Optional, Found, Plain;
    if a in LabelAttrs(s) {
      ToldLabel(read, s, a);
    } else if a !in DurationAttrs(s) {
      ToldHead(read, s, a);
    }
  }

  /** A client is told the record by its line, every text under its own name, if and only if it resolves backslashes or
      no text holds a double quote or a backslash. */
  lemma ClientIsToldIff(s: Range, client: Client)
    requires HasLine(s)
    ensures Tells(ClientAttrs(DateRangeLine(s), client), s) <==> LegibleTo(s, client)
  {
    hide ReadAttrs, AttrsText, Attrs, Tells, LegibleTo, Legible, Found, AllPrintable, NamesDiffer, InPlaceFor;
    hide AllAsWritten;
    ClientReadsIff(s, client);
    RecordIsTold(s);
    var read := ClientAttrs(DateRangeLine(s), client);
    if Tells(read, s) {
      assert DateRangeLine(s)[|DATERANGE|..] == AttrsText(Attrs(s));
      forall a | a in Attrs(s) ensures Legible(a, client) || Found(read, a) { ToldAttr(read, s, a, client); }
      AttrsPrintable(s);
      AttrsDiffer(s);
      NoneIsLost(Attrs(s), client);
      LegibleAttrsIff(s, client);
    }
  }

  lemma {:induction false} FoundFree(read: seq<Attr>, name: string)
    requires forall a | a in read :: OneLine(a.value.text)
    ensures Lookup(read, name).Some? ==> OneLine(Lookup(read, name).value.text)
  {
    hide OneLine;
    if read != [] {
      assert read[0] in read && forall a | a in read[1..] :: a in read;
      FoundFree(read[1..], name);
    }
  }

  /** No text without a line feed tells of a record that has one, to any client. */
  lemma FeedIsNotTold(line: string, s: Range, client: Client)
    requires DATERANGE <= line && '\n' !in line && !Texts(s, OneLine)
    ensures !Tells(ClientAttrs(line, client), s)
  {
    hide ReadAttrs, Lookup, LooksLikeScte35, Seconds;
    var read := ClientAttrs(line, client);
    ReadIsFree(line[|DATERANGE|..], client);
    forall name ensures Lookup(read, name).Some? ==> OneLine(Lookup(read, name).value.text) { FoundFree(read, name); }
  }

  /** From the cues to the client: after any run that ends with a start, any other actions and an end, the line tells a
      client of exactly this start and end if and only if it resolves backslashes or no text of the two cues holds a
      double quote or a backslash. */
  lemma ClientSeesTheBreakIff(files: seq<string>, memories: seq<Range>, encoder: int, parseUtc: string -> int,
                              before: seq<Cue>, start: Cue, between: seq<Cue>, end: Cue, client: Client)
    requires ParsesInRange(parseUtc)
    requires IsRun(files, memories, encoder, before + [start] + between + [end], parseUtc)
    requires Coherent(files[0], memories[0], parseUtc)
    requires start.action == "START_BREAK" && IsEnd(end.action) && NoBreakIn(between)
    requires ValidCue(start) && ValidCue(end)
    ensures var s := ReadRange(ReadFile(files[|files| - 1]), parseUtc);
            HasLine(s) &&
            (Tells(ClientAttrs(DateRangeLine(s), client), ClosedBreak(encoder, start, end)) <==>
             PairLegibleTo(start, end, client))
  {
    hide ClientAttrs, DateRangeLine, Tells, ReadRange, ReadFile, LegibleTo, PairLegibleTo, Attrs, AnnouncedClosed;
    hide Coherent, NoBreakIn, IsEnd, Tidy, ParsesInRange, Persists, InPlaceFor, PairInPlaceFor;
    StoredBreakIsAnnounced(files, memories, encoder, parseUtc, before, start, between, end, client);
    ClosedBreakLegible(encoder, start, end, client);
    ClientIsToldIff(ClosedBreak(encoder, start, end), client);
  }

  // ---------- do the dates and the length agree? ----------

  /** Seconds with three decimals, read as milliseconds. */
  function Millis(t: string): int {
    if |t| > 4 && AllDigits(t[..|t| - 4]) && AllDigits(t[|t| - 3..])
    then DigitsValue(t[..|t| - 4]) * 1000 + DigitsValue(t[|t| - 3..])
    else 0
  }

  predicate AllDigits(t: string) { forall c | c in t :: IsDigit(c) }

  lemma MillisOfSeconds(ms: nat)
    ensures Millis(Seconds(ms)) == ms
  {
    hide Digits, DigitsValue;
    var n, f := ms / 1000, ms % 1000;
    var t, d := Seconds(ms), [DigitChar(f / 100), DigitChar(f / 10 % 10), DigitChar(f % 10)];
    assert IntToString(n) == Digits(n);
    assert t == Digits(n) + "." + d;
    assert t[..|t| - 4] == Digits(n) && t[|t| - 3..] == d;
    DigitsValueOfDigits(n);
    ThreeDigits(f);
  }

  lemma ThreeDigits(f: nat)
    requires f < 1000
    ensures DigitsValue([DigitChar(f / 100), DigitChar(f / 10 % 10), DigitChar(f % 10)]) == f
  {
    var a, b, c := DigitChar(f / 100), DigitChar(f / 10 % 10), DigitChar(f % 10);
    assert [a, b, c][..2] == [a, b] && [a, b][..1] == [a] && [a][..0] == [];
    assert DigitsValue([a]) == f / 100;
    assert DigitsValue([a, b]) == f / 100 * 10 + f / 10 % 10;
  }

  /** RFC 8216, section 4.3.2.7, asks that END-DATE be START-DATE plus DURATION. Dates and times come from two looks
      at the clock: what a client is told agrees if and only if the two dates of the cues are as far apart as their
      times. */
  lemma DatesAgreeIff(attrs: seq<Attr>, encoder: int, start: Cue, end: Cue, parseUtc: string -> int)
    requires Tells(attrs, ClosedBreak(encoder, start, end)) && end.nowMs > start.nowMs > 0 && end.nowIso != ""
    ensures Lookup(attrs, "DURATION").Some?
    ensures Lookup(attrs, "START-DATE").Some? && Lookup(attrs, "END-DATE").Some?
    ensures var from, to := Lookup(attrs, "START-DATE").value.text, Lookup(attrs, "END-DATE").value.text;
            parseUtc(to) == parseUtc(from) + Millis(Lookup(attrs, "DURATION").value.text) <==>
            parseUtc(end.nowIso) - parseUtc(start.nowIso) == end.nowMs - start.nowMs
  {
    hide Lookup, Seconds, Millis, TellsLabels;
    MillisOfSeconds(end.nowMs - start.nowMs);
  }
}
