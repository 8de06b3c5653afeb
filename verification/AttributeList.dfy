/** Attribute lists (RFC 8216, section 4.2): how the source prints them, and what two kinds of client read. */
module AttributeList {
  import opened Text

  /** A quoted string, by the text it stands for, or any other value. */
  datatype Value = Quoted(text: string) | Bare(text: string)

  datatype Attr = Attr(name: string, value: Value)

  function EscapeQuotes(v: string): string {
    if v == "" then ""
    else (if v[0] == '\\' || v[0] == '"' then ['\\', v[0]] else [v[0]]) + EscapeQuotes(v[1..])
  }

  function ValueText(v: Value): string {
    match v
    case Quoted(text) => "\"" + EscapeQuotes(text) + "\""
    case Bare(text) => text
  }

  function AttrText(a: Attr): string { a.name + "=" + ValueText(a.value) }

  function AttrsText(attrs: seq<Attr>): string {
    if attrs == [] then ""
    else if |attrs| == 1 then AttrText(attrs[0])
    else AttrText(attrs[0]) + "," + AttrsText(attrs[1..])
  }

  // ---------- reading ----------

  /** For a standard client a quoted string ends at the next double quote, as section 4.2 says. For a resolving one a
      backslash in it protects the character behind it and is dropped, which no standard asks for. */
  datatype Client = Standard | Resolving

  function NameLen(t: string): (n: nat)
    ensures n <= |t| && '=' !in t[..n] && (n < |t| ==> t[n] == '=')
  {
    if t == "" || t[0] == '=' then 0
    else
      var n := 1 + NameLen(t[1..]);
      assert t[..n] == [t[0]] + t[1..][..n - 1];
      n
  }

  /** Length of an attribute value: up to the next comma outside quotes; one more than there is when the quotes
      are not closed. */
  function ValueLen(t: string, inQuotes: bool, client: Client): (n: nat)
    ensures n <= |t| + 1
  {
    if t == "" then (if inQuotes then 1 else 0)
    else if client.Resolving? && inQuotes && t[0] == '\\' && |t| > 1 then 2 + ValueLen(t[2..], true, client)
    else if t[0] == '"' then 1 + ValueLen(t[1..], !inQuotes, client)
    else if t[0] == ',' && !inQuotes then 0
    else 1 + ValueLen(t[1..], inQuotes, client)
  }

  function Unslashed(v: string): string {
    if v == "" then "" else if v[0] == '\\' && |v| > 1 then [v[1]] + Unslashed(v[2..]) else [v[0]] + Unslashed(v[1..])
  }

  function ReadValue(v: string, client: Client): Value {
    if |v| > 1 && v[0] == '"' && v[|v| - 1] == '"' then
      Quoted(if client.Resolving? then Unslashed(v[1..|v| - 1]) else v[1..|v| - 1])
    else Bare(v)
  }

  /** The attributes a client finds in an attribute list. */
  function ReadAttrs(t: string, client: Client): seq<Attr>
    decreases |t|
  {
    var n := NameLen(t);
    if n >= |t| then []
    else
      var v := t[n + 1..];
      var m := ValueLen(v, false, client);
      if m > |v| then []
      else [Attr(t[..n], ReadValue(v[..m], client))] + if m < |v| then ReadAttrs(v[m + 1..], client) else []
  }

  // ---------- texts that are read as they were meant ----------

  predicate Plain(t: string) { '"' !in t && '\\' !in t }

  /** Inside quotes: the double quotes of the text pair up, and no comma stands within such a pair. */
  predicate Paired(t: string, inQuotes: bool) {
    if t == "" then inQuotes
    else if t[0] == '"' then Paired(t[1..], !inQuotes)
    else (inQuotes || t[0] != ',') && Paired(t[1..], inQuotes)
  }

  predicate PairedText(t: string) { Paired(t, true) }

  predicate Legible(a: Attr, client: Client) { client.Standard? && a.value.Quoted? ==> Plain(a.value.text) }

  predicate StaysInPlace(a: Attr, client: Client) {
    client.Standard? && a.value.Quoted? ==> PairedText(a.value.text)
  }

  predicate PlainValue(v: string) { forall c | c in v :: c != '"' && c != ',' && !IsBlank(c) }

  /** A name, and a value without quotes, as section 4.2 wants them: no comma, quote or white space. */
  ghost predicate Printable(a: Attr) {
    '=' !in a.name && '\n' !in a.name && (a.value.Bare? ==> a.value.text != "" && PlainValue(a.value.text))
  }

  ghost predicate AllTexts(attrs: seq<Attr>, p: string -> bool) {
    forall a | a in attrs && a.value.Quoted? :: p(a.value.text)
  }

  ghost predicate AllPrintable(attrs: seq<Attr>) { forall a | a in attrs :: Printable(a) }

  /** The attribute as its text stands in the list, which is what a standard client takes it for. */
  function AsWritten(a: Attr, client: Client): Attr {
    if client.Standard? && a.value.Quoted? then Attr(a.name, Quoted(EscapeQuotes(a.value.text))) else a
  }

  function AllAsWritten(attrs: seq<Attr>, client: Client): (r: seq<Attr>)
    ensures |r| == |attrs|
  {
    seq(|attrs|, i requires 0 <= i < |attrs| => AsWritten(attrs[i], client))
  }

  lemma {:induction false} UnslashedEscape(v: string)
    ensures Unslashed(EscapeQuotes(v)) == v
  {
    if v != "" {
      UnslashedEscape(v[1..]);
      var e := EscapeQuotes(v);
      if v[0] == '\\' || v[0] == '"' {
        assert e[2..] == EscapeQuotes(v[1..]);
      } else {
        assert e[1..] == EscapeQuotes(v[1..]);
      }
    }
  }

  lemma {:induction false} PlainIsPaired(t: string)
    requires Plain(t)
    ensures PairedText(t) && EscapeQuotes(t) == t
  {
    if t != "" {
      assert t == [t[0]] + t[1..];
      PlainIsPaired(t[1..]);
    }
  }

  // ---------- the length of a printed value ----------

  lemma {:induction false} LenOfPlain(v: string, rest: string, client: Client)
    requires PlainValue(v) && (rest != "" ==> rest[0] == ',')
    ensures ValueLen(v + rest, false, client) == |v|
  {
    if v == "" {
      assert v + rest == rest;
    } else {
      assert v[0] in v && forall c | c in v[1..] :: c in v;
      assert (v + rest)[1..] == v[1..] + rest;
      LenOfPlain(v[1..], rest, client);
    }
  }

  lemma {:induction false} LenResolving(v: string, rest: string)
    requires rest != "" ==> rest[0] == ','
    ensures ValueLen(EscapeQuotes(v) + ("\"" + rest), true, Resolving) == |EscapeQuotes(v)| + 1
  {
    var tail := "\"" + rest;
    var t := EscapeQuotes(v) + tail;
    if v == "" {
      assert t == tail;
      assert tail[1..] == rest;
    } else {
      LenResolving(v[1..], rest);
      var more := EscapeQuotes(v[1..]) + tail;
      if v[0] == '\\' || v[0] == '"' {
        assert t[2..] == more;
      } else {
        assert t[1..] == more;
      }
    }
  }

  /** A standard client finds the closing quote where it is exactly when the quotes before it pair up. */
  lemma {:induction false} LenStandardIff(v: string, inQuotes: bool, rest: string)
    requires rest != "" ==> rest[0] == ','
    ensures ValueLen(EscapeQuotes(v) + ("\"" + rest), inQuotes, Standard) == |EscapeQuotes(v)| + 1 <==>
            Paired(v, inQuotes)
  {
    var tail := "\"" + rest;
    var t := EscapeQuotes(v) + tail;
    if v == "" {
      assert t == tail;
      assert tail[1..] == rest;
    } else {
      var more := EscapeQuotes(v[1..]) + tail;
      LenStandardIff(v[1..], if v[0] == '"' then !inQuotes else inQuotes, rest);
      if v[0] == '\\' || v[0] == '"' {
        assert t[0] == '\\' && t[1..][0] == v[0] && t[1..][1..] == more;
      } else {
        assert t[1..] == more;
      }
    }
  }

  lemma LenIff(a: Attr, rest: string, client: Client)
    requires Printable(a) && (rest != "" ==> rest[0] == ',')
    ensures ValueLen(ValueText(a.value) + rest, false, client) == |ValueText(a.value)| <==> StaysInPlace(a, client)
  {
    hide EscapeQuotes, Paired;
    match a.value {
      case Bare(t) => LenOfPlain(t, rest, client);
      case Quoted(t) =>
        if client.Standard? { LenStandardIff(t, true, rest); } else { LenResolving(t, rest); }
        var v := ValueText(a.value) + rest;
        assert v[1..] == EscapeQuotes(t) + ("\"" + rest);
    }
  }

  lemma ReadWritten(a: Attr, client: Client)
    requires Printable(a)
    ensures ReadValue(ValueText(a.value), client) == AsWritten(a, client).value
    ensures Legible(a, client) ==> StaysInPlace(a, client) && AsWritten(a, client) == a
  {
    hide EscapeQuotes, Unslashed, Paired;
    match a.value {
      case Bare(t) => BareRead(t, client);
      case Quoted(t) =>
        var v := ValueText(a.value);
        assert v[1..|v| - 1] == EscapeQuotes(t);
        UnslashedEscape(t);
        if Plain(t) { PlainIsPaired(t); }
    }
  }

  lemma BareRead(t: string, client: Client)
    requires PlainValue(t)
    ensures ReadValue(t, client) == Bare(t)
  {
    if t != "" { assert t[0] in t; }
  }

  // ---------- the first attribute of a list ----------

  lemma {:induction false} NameLenOf(name: string, rest: string)
    requires '=' !in name && rest != "" && rest[0] == '='
    ensures NameLen(name + rest) == |name|
  {
    if name == "" {
      assert name + rest == rest;
    } else {
      assert (name + rest)[1..] == name[1..] + rest;
      NameLenOf(name[1..], rest);
    }
  }

  /** One turn of reading. */
  function ReadOn(name: string, v: string, m: nat, client: Client): seq<Attr> {
    if m > |v| then []
    else [Attr(name, ReadValue(v[..m], client))] + if m < |v| then ReadAttrs(v[m + 1..], client) else []
  }

  lemma ReadFirst(name: string, v: string, client: Client)
    requires '=' !in name
    ensures ReadAttrs(name + "=" + v, client) == ReadOn(name, v, ValueLen(v, false, client), client)
  {
    hide NameLen, ValueLen, ReadValue;
    var t := name + "=" + v;
    assert t == name + ("=" + v);
    NameLenOf(name, "=" + v);
    assert t[..|name|] == name && t[|name| + 1..] == v;
  }

  /** An attribute that stays in place is read as it is written, and reading goes on behind it. */
  lemma ReadInPlace(a: Attr, rest: string, client: Client)
    requires Printable(a) && StaysInPlace(a, client) && (rest != "" ==> rest[0] == ',')
    ensures ReadAttrs(AttrText(a) + rest, client) ==
            [AsWritten(a, client)] + if rest == "" then [] else ReadAttrs(rest[1..], client)
  {
    hide ValueLen, ReadValue, ReadAttrs, ValueText, StaysInPlace, AsWritten;
    var w := ValueText(a.value);
    var v := w + rest;
    assert AttrText(a) + rest == a.name + "=" + v;
    ReadFirst(a.name, v, client);
    LenIff(a, rest, client);
    ReadWritten(a, client);
    assert v[..|w|] == w;
    NameWritten(a, client);
    if rest != "" { assert v[|w| + 1..] == rest[1..]; }
  }

  lemma NameWritten(a: Attr, client: Client)
    ensures AsWritten(a, client).name == a.name
  {
  }

  /** One that does not is not read as it is written. */
  lemma ReadOutOfPlace(a: Attr, rest: string, client: Client)
    requires Printable(a) && !StaysInPlace(a, client) && (rest != "" ==> rest[0] == ',')
    ensures var r := ReadAttrs(AttrText(a) + rest, client); r == [] || r[0] != AsWritten(a, client)
  {
    hide ValueLen, ReadAttrs, EscapeQuotes, PairedText;
    var w := ValueText(a.value);
    var v := w + rest;
    assert AttrText(a) + rest == a.name + "=" + v;
    ReadFirst(a.name, v, client);
    LenIff(a, rest, client);
    var m := ValueLen(v, false, client);
    assert m <= |v| ==> |v[..m]| == m;
  }

  // ---------- what a client reads of a printed list ----------

  lemma {:induction false} QuotedElsewhere(n: nat, v: string, rest: string)
    requires n > 0
    ensures !(v + "\"" <= Slashes(n) + (EscapeQuotes(v) + rest))
    decreases |v|
  {
    var raw, written := v + "\"", Slashes(n) + (EscapeQuotes(v) + rest);
    assert written[0] == '\\';
    if v == "" {
      assert raw[0] == '"';
    } else if v[0] == '\\' {
      QuotedElsewhere(n + 1, v[1..], rest);
      assert raw[1..] == v[1..] + "\"";
      assert written == Slashes(n) + (['\\', '\\'] + EscapeQuotes(v[1..]) + rest);
      SlashesMove(n);
      assert written[1..] == Slashes(n + 1) + (EscapeQuotes(v[1..]) + rest);
      PrefixTail(raw, written);
    } else {
      assert raw[0] == v[0];
    }
  }

  function Slashes(n: nat): (r: string)
    ensures |r| == n && forall c | c in r :: c == '\\'
  {
    seq(n, _ => '\\')
  }

  lemma SlashesMove(n: nat)
    requires n > 0
    ensures Slashes(n) + ['\\', '\\'] == ['\\'] + Slashes(n + 1)
  {
  }

  lemma PrefixTail(a: string, b: string)
    requires a != "" && b != ""
    ensures a <= b ==> a[0] == b[0] && a[1..] <= b[1..]
  {
  }

  /** A text with a double quote or a backslash, with a quote behind it, does not begin the text that is printed
      for it. */
  lemma {:induction false} SpecialElsewhere(v: string, rest: string)
    requires !Plain(v)
    ensures !(v + "\"" <= EscapeQuotes(v) + rest)
    decreases |v|
  {
    var raw, written := v + "\"", EscapeQuotes(v) + rest;
    assert v == [v[0]] + v[1..];
    assert raw[0] == v[0] && raw[1..] == v[1..] + "\"";
    if v[0] == '\\' {
      assert written[1..] == Slashes(1) + (EscapeQuotes(v[1..]) + rest);
      QuotedElsewhere(1, v[1..], rest);
    } else if v[0] != '"' {
      assert written[1..] == EscapeQuotes(v[1..]) + rest;
      SpecialElsewhere(v[1..], rest);
    }
    PrefixTail(raw, written);
  }

  /** An attribute whose text a client cannot read is not the first one it finds. */
  lemma ReadIllegible(a: Attr, rest: string, client: Client)
    requires Printable(a) && !Legible(a, client)
    ensures var r := ReadAttrs(AttrText(a) + rest, client); r == [] || (r[0].name == a.name && r[0] != a)
  {
    hide ValueLen, ReadAttrs, EscapeQuotes, Plain;
    var v := ValueText(a.value) + rest;
    assert AttrText(a) + rest == a.name + "=" + v;
    ReadFirst(a.name, v, client);
    var m, t := ValueLen(v, false, client), a.value.text;
    assert v[1..] == EscapeQuotes(t) + ("\"" + rest);
    SpecialElsewhere(t, "\"" + rest);
    PrefixTail("\"" + t + "\"", v);
    assert ("\"" + t + "\"")[1..] == t + "\"";
    assert m <= |v| ==> v[..m] <= v;
  }

  lemma Behind(attrs: seq<Attr>) returns (rest: string)
    requires attrs != [] && AllPrintable(attrs)
    ensures AttrsText(attrs) == AttrText(attrs[0]) + rest && (rest != "" ==> rest[0] == ',')
    ensures Printable(attrs[0]) && AllPrintable(attrs[1..])
    ensures if |attrs| == 1 then rest == "" else rest != "" && rest[1..] == AttrsText(attrs[1..])
  {
    hide AttrText, Printable;
    assert attrs[0] in attrs && forall a | a in attrs[1..] :: a in attrs;
    rest := if |attrs| == 1 then "" else "," + AttrsText(attrs[1..]);
  }

  lemma NothingToRead(client: Client)
    ensures ReadAttrs(AttrsText([]), client) == []
  {
  }

  /** A client reads the attributes that were printed if and only if every text is legible to it: always when it
      resolves backslashes; for a standard client, when no text holds a double quote or a backslash. */
  lemma {:induction false} ReadsBackIff(attrs: seq<Attr>, client: Client)
    requires AllPrintable(attrs)
    ensures ReadAttrs(AttrsText(attrs), client) == attrs <==> forall a | a in attrs :: Legible(a, client)
  {
    hide ReadAttrs, AttrsText, AttrText, Printable, Legible, StaysInPlace, AsWritten;
    if attrs == [] {
      NothingToRead(client);
    } else {
      var a := attrs[0];
      var rest := Behind(attrs);
      assert attrs == [a] + attrs[1..] && a in attrs;
      if Legible(a, client) {
        ReadWritten(a, client);
        ReadInPlace(a, rest, client);
        if |attrs| > 1 { ReadsBackIff(attrs[1..], client); } else { assert attrs[1..] == []; }
      } else {
        ReadIllegible(a, rest, client);
      }
    }
  }

  /** And it reads them as they are written, backslashes and all, if and only if the quotes in every text pair up. */
  lemma {:induction false} ReadsAsWrittenIff(attrs: seq<Attr>, client: Client)
    requires AllPrintable(attrs)
    ensures ReadAttrs(AttrsText(attrs), client) == AllAsWritten(attrs, client) <==>
            forall a | a in attrs :: StaysInPlace(a, client)
  {
    hide ReadAttrs, AttrsText, AttrText, Printable, StaysInPlace, AsWritten;
    if attrs == [] {
      NothingToRead(client);
    } else {
      var a := attrs[0];
      var rest := Behind(attrs);
      var w := AllAsWritten(attrs, client);
      assert attrs == [a] + attrs[1..] && a in attrs;
      assert w == [AsWritten(a, client)] + AllAsWritten(attrs[1..], client);
      assert w[0] == AsWritten(a, client) && w[1..] == AllAsWritten(attrs[1..], client);
      if StaysInPlace(a, client) {
        ReadInPlace(a, rest, client);
        if |attrs| > 1 { ReadsAsWrittenIff(attrs[1..], client); } else { assert attrs[1..] == []; }
      } else {
        ReadOutOfPlace(a, rest, client);
      }
    }
  }

  // ---------- the value under a name ----------

  function Lookup(attrs: seq<Attr>, name: string): Option<Value> {
    if attrs == [] then None else if attrs[0].name == name then Some(attrs[0].value) else Lookup(attrs[1..], name)
  }

  ghost predicate NamesDiffer(attrs: seq<Attr>) {
    forall i, j | 0 <= i < j < |attrs| :: attrs[i].name != attrs[j].name
  }

  ghost predicate Found(read: seq<Attr>, a: Attr) { Lookup(read, a.name) == Some(a.value) }

  /** Among attributes of different names, the first text that is not legible is lost: under its name the client finds
      something else. So a client that finds them all under their names has none before it that is not legible. */
  lemma {:induction false} NoneIsLost(attrs: seq<Attr>, client: Client)
    requires AllPrintable(attrs) && NamesDiffer(attrs)
    requires forall a | a in attrs :: Legible(a, client) || Found(ReadAttrs(AttrsText(attrs), client), a)
    ensures forall a | a in attrs :: Legible(a, client)
  {
    hide ReadAttrs, AttrsText, AttrText, Printable, Legible, StaysInPlace, AsWritten;
    if attrs != [] {
      var a := attrs[0];
      var rest := Behind(attrs);
      assert attrs == [a] + attrs[1..] && a in attrs;
      var read := ReadAttrs(AttrText(a) + rest, client);
      if Legible(a, client) {
        ReadWritten(a, client);
        ReadInPlace(a, rest, client);
        forall b | b in attrs[1..] ensures Legible(b, client) || Found(ReadAttrs(AttrsText(attrs[1..]), client), b) {
          assert b in attrs;
          var i :| 0 <= i < |attrs[1..]| && attrs[1..][i] == b;
          assert attrs[0].name != attrs[i + 1].name;
        }
        NoneIsLost(attrs[1..], client);
      } else {
        ReadIllegible(a, rest, client);
      }
    }
  }

  // ---------- line feeds ----------

  predicate OneLine(t: string) { '\n' !in t }

  lemma {:induction false} EscapeKeepsFeed(v: string)
    ensures '\n' in EscapeQuotes(v) <==> '\n' in v
  {
    if v != "" {
      EscapeKeepsFeed(v[1..]);
      assert v == [v[0]] + v[1..];
    }
  }

  lemma AttrFeed(a: Attr)
    requires Printable(a)
    ensures '\n' in AttrText(a) <==> a.value.Quoted? && !OneLine(a.value.text)
  {
    hide EscapeQuotes;
    if a.value.Quoted? { EscapeKeepsFeed(a.value.text); }
  }

  /** Quoting leaves line feeds as they are: the list holds one exactly when a text does. */
  lemma {:induction false} ListFeedIff(attrs: seq<Attr>)
    requires AllPrintable(attrs)
    ensures '\n' in AttrsText(attrs) <==> !AllTexts(attrs, OneLine)
  {
    hide AttrText, Printable, OneLine;
    if attrs != [] {
      var rest := Behind(attrs);
      assert attrs == [attrs[0]] + attrs[1..];
      AttrFeed(attrs[0]);
      if |attrs| > 1 {
        ListFeedIff(attrs[1..]);
        assert AttrsText(attrs) == AttrText(attrs[0]) + "," + AttrsText(attrs[1..]);
      }
    }
  }

  predicate EndsWell(t: string) { t != "" && t[|t| - 1] != '\r' && t[|t| - 1] != '\n' }

  lemma AttrEndsWell(a: Attr)
    requires Printable(a)
    ensures EndsWell(AttrText(a))
  {
    hide EscapeQuotes;
    var t := ValueText(a.value);
    if a.value.Bare? { assert t[|t| - 1] in t; }
    assert AttrText(a)[|AttrText(a)| - 1] == t[|t| - 1];
  }

  lemma {:induction false} ListEndsWell(attrs: seq<Attr>)
    requires AllPrintable(attrs) && attrs != []
    ensures EndsWell(AttrsText(attrs))
  {
    hide AttrText, Printable;
    var rest := Behind(attrs);
    AttrEndsWell(attrs[0]);
    if |attrs| > 1 { ListEndsWell(attrs[1..]); }
  }

  lemma {:induction false} UnslashedFree(v: string)
    requires '\n' !in v
    ensures '\n' !in Unslashed(v)
    decreases |v|
  {
    if v != "" {
      if v[0] == '\\' && |v| > 1 { UnslashedFree(v[2..]); } else { UnslashedFree(v[1..]); }
    }
  }

  lemma ReadValueFree(v: string, client: Client)
    requires '\n' !in v
    ensures '\n' !in ReadValue(v, client).text
  {
    hide Unslashed;
    if |v| > 1 { UnslashedFree(v[1..|v| - 1]); }
  }

  /** From a text without a line feed no client reads one. */
  lemma {:induction false} ReadIsFree(t: string, client: Client)
    requires '\n' !in t
    ensures forall a | a in ReadAttrs(t, client) :: '\n' !in a.value.text
    decreases |t|
  {
    hide NameLen, ValueLen, ReadValue;
    var n := NameLen(t);
    if n < |t| {
      var v := t[n + 1..];
      var m := ValueLen(v, false, client);
      if m <= |v| { ReadValueFree(v[..m], client); }
      if m < |v| { ReadIsFree(v[m + 1..], client); }
    }
  }
}
