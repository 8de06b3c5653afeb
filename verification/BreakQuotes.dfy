/** A cue whose event id holds double quotes: what a standard client reads of its break. */
module BreakQuotes {
  import opened AttributeList
  import opened BreakState
  import opened BreakTexts
  import opened DateRange
  import opened BreakLifecycle
  import opened PlaylistLines

  const MIDDLE := ",END-ON-NEXT=YES,Y="
  const INSERT := "\"" + MIDDLE + "\""
  const QUOTING := Cue("START_BREAK", "x" + INSERT, "", 1000, "2024-01-01T00:00:00Z")
  const QUOTED_END := Cue("END_BREAK", "x" + INSERT, "", 31000, "2024-01-01T00:00:30Z")

  lemma QuotingIsValid()
    ensures ValidCue(QUOTING) && ValidCue(QUOTED_END)
  {
    var id := QUOTING.eventId;
    assert id[0] == 'x' && id[|id| - 1] == '"';
  }

  // ---------- reading such a text ----------

  lemma {:induction false} EscapeConcat(a: string, b: string)
    ensures EscapeQuotes(a + b) == EscapeQuotes(a) + EscapeQuotes(b)
  {
    if a == "" {
      assert a + b == b;
    } else {
      assert (a + b)[1..] == a[1..] + b;
      EscapeConcat(a[1..], b);
    }
  }

  lemma {:induction false} ClosesEarly(q: string, rest: string)
    requires '"' !in q && (rest != "" ==> rest[0] == ',')
    ensures ValueLen(q + ("\"" + rest), true, Standard) == |q| + 1
  {
    var t := q + ("\"" + rest);
    if q == "" {
      assert t[1..] == rest;
    } else {
      assert t[1..] == q[1..] + ("\"" + rest) && q == [q[0]] + q[1..];
      ClosesEarly(q[1..], rest);
    }
  }

  lemma InsertEscaped()
    ensures EscapeQuotes(INSERT) == "\\\"" + MIDDLE + "\\\""
  {
    hide EscapeQuotes;
    MiddleIsPlain();
    PlainIsPaired(MIDDLE);
    EscapeConcat("\"", MIDDLE);
    EscapeConcat("\"" + MIDDLE, "\"");
    QuoteEscaped();
  }

  lemma QuoteEscaped()
    ensures EscapeQuotes("\"") == "\\\""
  {
  }

  lemma MiddleIsPlain()
    ensures Plain(MIDDLE) && MIDDLE == "," + ("END-ON-NEXT=" + ("YES," + "Y="))
  {
  }

  const YES := Attr("END-ON-NEXT", Bare("YES"))

  function InsertedAttrs(name: string, text: string): seq<Attr> {
    [Attr(name, Quoted(text + "\\")), YES, Attr("Y", Bare("\\\"\""))]
  }

  /** The text ends at its first double quote; behind it a standard client reads an attribute that the record has
      not. */
  lemma InsertIsRead(name: string, text: string, rest: string)
    requires '=' !in name && Plain(text) && rest != "" && rest[0] == ','
    ensures ReadAttrs(AttrText(QuotedAttr(name, text + INSERT)) + rest, Standard) ==
            InsertedAttrs(name, text) + ReadAttrs(rest[1..], Standard)
  {
    hide *;
    var q, tail := "\"" + text + "\\" + "\"", "\\\"\"";
    var y := "Y=" + (tail + rest);
    var on := "END-ON-NEXT=" + ("YES," + y);
    TextOfInsert(name, text, rest);
    FirstPart(name, text, on);
    OnPart(y);
    LastPart(rest);
    InsertedParts(name, text, ReadAttrs(rest[1..], Standard));
  }

  lemma InsertedParts(name: string, text: string, more: seq<Attr>)
    ensures [Attr(name, Quoted(text + "\\"))] + ([YES] + ([Attr("Y", Bare("\\\"\""))] + more)) ==
            InsertedAttrs(name, text) + more
  {
  }

  lemma TextOfInsert(name: string, text: string, rest: string)
    requires Plain(text)
    ensures AttrText(QuotedAttr(name, text + INSERT)) + rest ==
            name + "=" + ("\"" + text + "\\" + "\"" + "," +
                          ("END-ON-NEXT=" + ("YES," + ("Y=" + ("\\\"\"" + rest)))))
  {
    hide EscapeQuotes, Plain, MIDDLE, INSERT;
    EscapeConcat(text, INSERT);
    PlainIsPaired(text);
    InsertEscaped();
    MiddleIsPlain();
    SlashQuote();
    Regroup(name, "=", "\"", text, "\\", ",", "END-ON-NEXT=", "YES,", "Y=", rest);
  }

  lemma SlashQuote()
    ensures "\\\"" == "\\" + "\"" && "\\\"\"" == "\\" + "\"" + "\""
  {
  }

  lemma Regroup(n: string, e: string, q: string, t: string, s: string, k: string, b: string, c: string, d: string,
                r: string)
    ensures n + e + (q + (t + ((s + q) + (k + (b + (c + d))) + (s + q))) + q) + r ==
            n + e + (q + t + s + q + k + (b + (c + (d + (s + q + q + r)))))
  {
  }

  lemma FirstPart(name: string, text: string, on: string)
    requires '=' !in name && Plain(text)
    ensures var q := "\"" + text + "\\" + "\"";
            ReadAttrs(name + "=" + (q + "," + on), Standard) ==
            [Attr(name, Quoted(text + "\\"))] + ReadAttrs(on, Standard)
  {
    hide ReadAttrs;
    var q := "\"" + text + "\\" + "\"";
    var v := q + "," + on;
    ClosesEarly(text + "\\", "," + on);
    assert v[1..] == text + "\\" + ("\"" + ("," + on));
    ReadFirst(name, v, Standard);
    assert q[1..|q| - 1] == text + "\\";
    assert v[..|q|] == q && v[|q| + 1..] == on;
  }

  lemma OnPart(y: string)
    ensures ReadAttrs("END-ON-NEXT=" + ("YES," + y), Standard) == [YES] + ReadAttrs(y, Standard)
  {
    hide ReadAttrs, ValueLen;
    var v := "YES," + y;
    LenOfPlain("YES", "," + y, Standard);
    assert v == "YES" + ("," + y);
    ReadFirst("END-ON-NEXT", v, Standard);
    assert v[..3] == "YES" && v[4..] == y;
    assert "END-ON-NEXT=" + v == "END-ON-NEXT" + "=" + v;
  }

  lemma LastPart(rest: string)
    requires rest != "" && rest[0] == ','
    ensures ReadAttrs("Y=" + ("\\\"\"" + rest), Standard) ==
            [Attr("Y", Bare("\\\"\""))] + ReadAttrs(rest[1..], Standard)
  {
    hide ReadAttrs, ValueLen;
    var v := "\\\"\"" + rest;
    LastLen(rest);
    ReadFirst("Y", v, Standard);
    assert v[..3] == "\\\"\"" && v[3 + 1..] == rest[1..];
    assert "Y=" + v == "Y" + "=" + v;
  }

  lemma LastLen(rest: string)
    requires rest != "" && rest[0] == ','
    ensures ValueLen("\\\"\"" + rest, false, Standard) == 3
  {
    var v, w := "\\\"\"" + rest, "\"" + ("\"" + rest);
    assert v[1..] == w && w[1..] == "\"" + rest;
    ClosesEarly("", rest);
    assert "" + ("\"" + rest) == "\"" + rest;
    assert ValueLen(w, false, Standard) == 2;
  }

  /** Attributes that stay in place are read one by one up to the one behind them. */
  lemma {:induction false} InPlaceRun(a: seq<Attr>, b: seq<Attr>)
    requires AllPrintable(a + b) && b != [] && forall x | x in a :: StaysInPlace(x, Standard)
    ensures ReadAttrs(AttrsText(a + b), Standard) == AllAsWritten(a, Standard) + ReadAttrs(AttrsText(b), Standard)
  {
    hide ReadAttrs, AttrsText, AttrText, Printable, StaysInPlace, AsWritten;
    if a == [] {
      assert a + b == b;
      assert AllAsWritten(a, Standard) + ReadAttrs(AttrsText(b), Standard) == ReadAttrs(AttrsText(b), Standard);
    } else {
      var all := a + b;
      var rest := Behind(all);
      assert all[1..] == a[1..] + b && a[0] in a && all[0] == a[0];
      ReadInPlace(a[0], rest, Standard);
      InPlaceRun(a[1..], b);
      assert AllAsWritten(a, Standard) == [AsWritten(a[0], Standard)] + AllAsWritten(a[1..], Standard);
    }
  }

  lemma InsertFirst(attrs: seq<Attr>, name: string, text: string)
    requires AllPrintable(attrs) && |attrs| > 1 && attrs[0] == QuotedAttr(name, text + INSERT) && Plain(text)
    ensures ReadAttrs(AttrsText(attrs), Standard) ==
            InsertedAttrs(name, text) + ReadAttrs(AttrsText(attrs[1..]), Standard)
  {
    hide ReadAttrs, AttrsText, AttrText, Plain, INSERT, InsertedAttrs;
    var rest := Behind(attrs);
    InsertIsRead(name, text, rest);
  }

  // ---------- the break ----------

  /** The attributes between the id and the event id. */
  function MiddleAttrs(s: Range): seq<Attr> { HeadAttrs(s)[1..] + Optional("END-DATE", s.endDate) + DurationAttrs(s) }

  lemma AttrsSplit(s: Range) returns (more: seq<Attr>)
    requires s.eventId != "" && s.actionOut != ""
    ensures more != []
    ensures Attrs(s) == [QuotedAttr("ID", s.id)] + (MiddleAttrs(s) +
                         ([QuotedAttr("X-MULTICODER-EVENT-ID", s.eventId)] + more))
  {
    hide CueAttrs, DurationAttrs, OpenAttrs;
    var labels := LabelAttrs(s);
    assert labels[0] == QuotedAttr("X-MULTICODER-EVENT-ID", s.eventId);
    more := labels[1..] + OpenAttrs(s);
    assert HeadAttrs(s) == [QuotedAttr("ID", s.id)] + HeadAttrs(s)[1..];
  }

  lemma MiddleStays(s: Range)
    requires Plain(s.startDate) && Plain(s.endDate)
    ensures forall a | a in MiddleAttrs(s) :: StaysInPlace(a, Standard)
  {
    hide Plain, PairedText, Seconds;
    LiteralsArePlain();
    forall t | Plain(t) ensures PairedText(t) { PlainIsPaired(t); }
  }

  lemma PrintableParts(s: Range, a: seq<Attr>, b: seq<Attr>)
    requires Attrs(s) == a + b
    ensures AllPrintable(a) && AllPrintable(b) && AllPrintable(Attrs(s))
  {
    hide Attrs, Printable;
    AttrsPrintable(s);
    assert forall x | x in a || x in b :: x in a + b;
  }

  /** What a standard client reads of a break whose id and event id both end so. */
  lemma InsertedTwice(s: Range, id: string, event: string) returns (more: seq<Attr>)
    requires HasLine(s) && s.id == id + INSERT && s.eventId == event + INSERT && s.actionOut != ""
    requires Plain(id) && Plain(event) && Plain(s.startDate) && Plain(s.endDate)
    ensures ClientAttrs(DateRangeLine(s), Standard) ==
            InsertedAttrs("ID", id) + (AllAsWritten(MiddleAttrs(s), Standard) +
              (InsertedAttrs("X-MULTICODER-EVENT-ID", event) + more))
  {
    hide ReadAttrs, AttrsText, Attrs, Plain, MIDDLE, InsertedAttrs, MiddleAttrs, AllPrintable, QuotedAttr, AllAsWritten;
    hide StaysInPlace;
    InsertIsText(event);
    var tail := AttrsSplit(s);
    var m, l := MiddleAttrs(s), [QuotedAttr("X-MULTICODER-EVENT-ID", s.eventId)] + tail;
    PrintableParts(s, [QuotedAttr("ID", s.id)], m + l);
    PrintableParts(s, [QuotedAttr("ID", s.id)] + m, l) by {
      assert [QuotedAttr("ID", s.id)] + m + l == [QuotedAttr("ID", s.id)] + (m + l);
    }
    assert Attrs(s)[1..] == m + l && l[1..] == tail;
    InsertFirst(Attrs(s), "ID", id);
    MiddleStays(s);
    InPlaceRun(m, l);
    InsertFirst(l, "X-MULTICODER-EVENT-ID", event);
    more := ReadAttrs(AttrsText(tail), Standard);
    assert DateRangeLine(s)[|DATERANGE|..] == AttrsText(Attrs(s));
  }

  lemma InsertIsText(text: string)
    ensures text + INSERT != ""
  {
  }

  lemma QuotingRecord(encoder: int) returns (id: string)
    ensures var s := ClosedBreak(encoder, QUOTING, QUOTED_END);
            HasLine(s) && s.id == id + INSERT && s.eventId == "x" + INSERT && s.actionOut != "" && Plain(id) &&
            Plain("x") && Plain(s.startDate) && Plain(s.endDate) && s.endDate != "" && !s.active
  {
    hide INSERT, Plain, FreshId, OneLine;
    FreshIdIsThere(encoder, "x" + INSERT);
    id := QuotingId(encoder);
    DatesArePlain();
  }

  lemma QuotingId(encoder: int) returns (id: string)
    ensures FreshId(encoder, "x" + INSERT) == id + INSERT && Plain(id)
  {
    hide INSERT, Plain, FreshId, OneLine;
    PrefixIsPlain(encoder, "x" + INSERT);
    var t :| FreshId(encoder, "x" + INSERT) == t + ("x" + INSERT) && Plain(t) && OneLine(t);
    id := t + "x";
    DatesArePlain();
    PlainConcat(t, "x");
    assert t + ("x" + INSERT) == t + "x" + INSERT;
  }

  lemma DatesArePlain()
    ensures Plain("2024-01-01T00:00:00Z") && Plain("2024-01-01T00:00:30Z") && Plain("x")
  {
  }

  /** The break of these two cues is closed, with an end date and no END-ON-NEXT. From its line a standard client reads
      END-ON-NEXT, twice, together with END-DATE, which RFC 8216 excludes in sections 4.2 and 4.3.2.7. */
  lemma QuotesBringEndOnNext(encoder: int)
    ensures ValidCue(QUOTING) && ValidCue(QUOTED_END)
    ensures var s := ClosedBreak(encoder, QUOTING, QUOTED_END);
            HasLine(s) && !s.active &&
            var attrs := ClientAttrs(DateRangeLine(s), Standard);
            HasAttr(attrs, "END-ON-NEXT") && HasAttr(attrs, "END-DATE") && !NamesDiffer(attrs)
  {
    hide INSERT, Plain, ClosedBreak, ClientAttrs, ValidCue, Seconds, Attrs, AttrsText;
    QuotingIsValid();
    var s := ClosedBreak(encoder, QUOTING, QUOTED_END);
    var id := QuotingRecord(encoder);
    var more := InsertedTwice(s, id, "x");
    var attrs, m := ClientAttrs(DateRangeLine(s), Standard), MiddleAttrs(s);
    var i := 3 + |m| + 1;
    assert attrs[1] == YES && attrs[i] == YES;
    assert m[2].name == "END-DATE";
    NameWritten(m[2], Standard);
    assert attrs[3 + 2] == AsWritten(m[2], Standard);
    assert YES in attrs && attrs[5] in attrs;
  }
}
