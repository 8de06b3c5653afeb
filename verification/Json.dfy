/** The flat JSON object every persisted state goes through (src/common/SimpleJson.cpp).

    The pure functions describe the parser on the text that is still unread; the class holds the map that
    the setters and the parser update in place, and its methods walk indices as the source does. */
module Json {
  import opened Text

  datatype Entry = Entry(raw: string, quoted: bool)

  type Values = map<string, Entry>

  function Trim(s: string): (r: string)
    ensures r != [] ==> !IsSpace(r[0]) && !IsSpace(r[|r| - 1])
    ensures |r| <= |s|
  {
    TrimBy(s, IsSpace)
  }

  // ---------- escapes ----------

  function EscapeChar(c: char): (e: string)
    ensures 1 <= |e| <= 2
  {
    match c
    case '"' => "\\\""
    case '\\' => "\\\\"
    case '\n' => "\\n"
    case '\r' => "\\r"
    case '\t' => "\\t"
    case _ => [c]
  }

  function UnescapeChar(c: char): char {
    match c
    case 'n' => '\n'
    case 'r' => '\r'
    case 't' => '\t'
    case _ => c
  }

  function Escaped(s: string): string {
    if s == [] then [] else EscapeChar(s[0]) + Escaped(s[1..])
  }

  /** The text with escapes resolved; `esc` says that a backslash has just been read. */
  function UnescapedFrom(s: string, esc: bool): string {
    if s == [] then []
    else if esc then [UnescapeChar(s[0])] + UnescapedFrom(s[1..], false)
    else if s[0] == '\\' then UnescapedFrom(s[1..], true)
    else [s[0]] + UnescapedFrom(s[1..], false)
  }

  function Unescaped(s: string): string { UnescapedFrom(s, false) }

  lemma UnescapeOne(c: char, rest: string)
    ensures UnescapedFrom(EscapeChar(c) + rest, false) == [c] + UnescapedFrom(rest, false)
  {
    var e := EscapeChar(c) + rest;
    if |EscapeChar(c)| == 2 {
      assert e[1..][1..] == rest;
    } else {
      assert e[1..] == rest;
    }
  }

  /** Escaping loses nothing, whatever the characters. */
  lemma {:induction false} UnescapeEscape(s: string)
    ensures Unescaped(Escaped(s)) == s
  {
    if s != [] {
      UnescapeEscape(s[1..]);
      UnescapeOne(s[0], Escaped(s[1..]));
    }
  }

  method Escape(s: string) returns (out: string)
    ensures out == Escaped(s)
  {
    out := "";
    for i := 0 to |s|
      invariant out + Escaped(s[i..]) == Escaped(s)
    {
      assert s[i..][1..] == s[i + 1..];
      out := out + EscapeChar(s[i]);
    }
  }

  method Unescape(s: string) returns (out: string)
    ensures out == Unescaped(s)
  {
    hide UnescapeChar;
    out := "";
    var esc := false;
    for i := 0 to |s|
      invariant out + UnescapedFrom(s[i..], esc) == Unescaped(s)
    {
      ghost var rest := s[i + 1..];
      assert s[i..][1..] == rest;
      if esc {
        assert out + ([UnescapeChar(s[i])] + UnescapedFrom(rest, false))
            == out + [UnescapeChar(s[i])] + UnescapedFrom(rest, false);
        out := out + [UnescapeChar(s[i])];
        esc := false;
      } else if s[i] == '\\' {
        esc := true;
      } else {
        assert out + ([s[i]] + UnescapedFrom(rest, false)) == out + [s[i]] + UnescapedFrom(rest, false);
        out := out + [s[i]];
      }
    }
  }

  // ---------- the parser, on the unread text ----------

  /** How much of the unread text belongs to a string body: up to the closing quote, or all of it. */
  function StringLen(r: string): (n: nat)
    ensures n <= |r| && (n < |r| ==> r[n] == '"')
  {
    if r == [] || r[0] == '"' then 0
    else if r[0] == '\\' && |r| > 1 then 2 + StringLen(r[2..])
    else 1 + StringLen(r[1..])
  }

  /** State of the scan over an unquoted value. */
  datatype Scan = Scan(afterBackslash: bool, depth: nat, inString: bool)

  const SCAN_START := Scan(false, 0, false)

  /** One character of an unquoted value; None ends the value before that character. */
  function ScanStep(st: Scan, c: char): Option<Scan> {
    var bs := c == '\\';
    if c == '"' && !st.afterBackslash then Some(Scan(bs, st.depth, !st.inString))
    else if st.inString then Some(Scan(bs, st.depth, true))
    else if c == '{' || c == '[' then Some(Scan(bs, st.depth + 1, false))
    else if c == '}' || c == ']' then
      if st.depth == 0 then None else Some(Scan(bs, st.depth - 1, false))
    else if c == ',' && st.depth == 0 then None
    else Some(Scan(bs, st.depth, false))
  }

  /** How much of the unread text belongs to an unquoted value. The last character of the text, the
      object's own closing brace, is never consumed. */
  function RawLen(r: string, st: Scan): (n: nat)
    ensures n <= |r| && (r != [] ==> n < |r|)
  {
    if |r| <= 1 then 0
    else
      match ScanStep(st, r[0])
      case None => 0
      case Some(st') => 1 + RawLen(r[1..], st')
  }

  function SkipSeparators(r: string): (s: string)
    ensures |s| <= |r| && (|s| > 1 ==> !IsSpace(s[0]) && s[0] != ',')
  {
    if |r| > 1 && (IsSpace(r[0]) || r[0] == ',') then SkipSeparators(r[1..]) else r
  }

  function SkipSpaces(r: string): (s: string)
    ensures |s| <= |r| && (s != [] ==> !IsSpace(s[0]))
  {
    TrimLeft(r, IsSpace)
  }

  /** A value and the text after it; None when a string is not closed. */
  function ParseValue(r: string): (v: Option<(Entry, string)>)
    requires r != []
    ensures v.Some? ==> |v.value.1| <= |r|
  {
    if r[0] == '"' then
      var n := StringLen(r[1..]);
      if n >= |r| - 1 then None
      else Some((Entry(Unescaped(r[1..][..n]), true), r[1..][n + 1..]))
    else
      var n := RawLen(r, SCAN_START);
      Some((Entry(Trim(r[..n]), false), r[n..]))
  }

  /** A key, its colon and its value, from the opening quote of the key. */
  function ParseMember(r: string): (v: Option<(string, Entry, string)>)
    requires r != []
    ensures v.Some? ==> |v.value.2| < |r|
  {
    if r[0] != '"' then None
    else
      var n := StringLen(r[1..]);
      if n >= |r| - 1 then None
      else
        var key := Unescaped(r[1..][..n]);
        var c := SkipSpaces(r[1..][n + 1..]);
        if c == [] || c[0] != ':' then None
        else
          var w := SkipSpaces(c[1..]);
          if w == [] then None
          else
            match ParseValue(w)
            case None => None
            case Some((e, rest)) => Some((key, e, rest))
  }

  /** The members in the unread text, added to what was read before. A failed parse keeps that part. */
  function ParseMembers(r: string, m: Values): (bool, Values)
    decreases |r|
  {
    var s := SkipSeparators(r);
    if |s| <= 1 then (true, m)
    else
      match ParseMember(s)
      case None => (false, m)
      case Some((key, e, rest)) => ParseMembers(rest, m[key := e])
  }

  function ParseObject(text: string): (bool, Values) {
    var t := Trim(text);
    if |t| < 2 || t[0] != '{' || t[|t| - 1] != '}' then (false, map[])
    else ParseMembers(t[1..], map[])
  }

  // ---------- the printer ----------

  predicate LexLe(a: string, b: string) {
    a == [] || (b != [] && (a[0] < b[0] || (a[0] == b[0] && LexLe(a[1..], b[1..]))))
  }

  lemma {:induction false} LexTotal(a: string, b: string)
    ensures LexLe(a, b) || LexLe(b, a)
    ensures LexLe(a, b) && LexLe(b, a) ==> a == b
  {
    if a != [] && b != [] { LexTotal(a[1..], b[1..]); }
  }

  lemma {:induction false} LexTransitive(a: string, b: string, c: string)
    requires LexLe(a, b) && LexLe(b, c)
    ensures LexLe(a, c)
  {
    if a != [] && a[0] == b[0] == c[0] { LexTransitive(a[1..], b[1..], c[1..]); }
  }

  predicate IsLeast(k: string, ks: set<string>) {
    k in ks && forall o | o in ks :: LexLe(k, o)
  }

  lemma {:induction false} LeastExists(ks: set<string>)
    requires ks != {}
    ensures exists k :: IsLeast(k, ks)
    decreases |ks|
  {
    var x :| x in ks;
    LexTotal(x, x);
    if ks == {x} {
      assert IsLeast(x, ks);
    } else {
      assert ks - {x} != {};
      LeastExists(ks - {x});
      var y :| IsLeast(y, ks - {x});
      LexTotal(x, y);
      if LexLe(y, x) {
        assert IsLeast(y, ks);
      } else {
        forall o | o in ks ensures LexLe(x, o) {
          if o != x { LexTransitive(x, y, o); }
        }
        assert IsLeast(x, ks);
      }
    }
  }

  /** The keys in the order in which `std::map` walks them. */
  ghost function SortedKeys(ks: set<string>): (s: seq<string>)
    ensures forall k :: k in s <==> k in ks
    ensures forall i, j | 0 <= i < j < |s| :: s[i] != s[j]
    decreases |ks|
  {
    if ks == {} then []
    else
      LeastExists(ks);
      var k :| IsLeast(k, ks);
      [k] + SortedKeys(ks - {k})
  }

  function Quoted(s: string): string {
    "\"" + Escaped(s) + "\""
  }

  function ValueText(e: Entry): string {
    if e.quoted then Quoted(e.raw) else e.raw
  }

  function MemberText(key: string, e: Entry): string {
    Quoted(key) + ":" + ValueText(e)
  }

  /** The members of `ks`, each after a comma. */
  function MembersText(ks: seq<string>, m: Values): string
    requires forall k | k in ks :: k in m
  {
    if ks == [] then "" else "," + MemberText(ks[0], m[ks[0]]) + MembersText(ks[1..], m)
  }

  ghost function SerializedBody(ks: seq<string>, m: Values): string
    requires forall k | k in ks :: k in m
  {
    if ks == [] then "" else MembersText(ks, m)[1..]
  }

  /** The members still to print; only the very first goes without a comma. */
  ghost function Unprinted(first: bool, ks: seq<string>, m: Values): string
    requires forall k | k in ks :: k in m
  {
    if first then SerializedBody(ks, m) else MembersText(ks, m)
  }

  ghost function Serialized(m: Values): string {
    "{" + SerializedBody(SortedKeys(m.Keys), m) + "}"
  }

  // ---------- which raw values survive ----------

  /** The scan over the whole value, or None if it would end inside the value. */
  function ScanAll(v: string, st: Scan): Option<Scan> {
    if v == [] then Some(st)
    else
      match ScanStep(st, v[0])
      case None => None
      case Some(st') => ScanAll(v[1..], st')
  }

  /** Trimmed, not starting with a quote, and never ended early by the parser's own scan. */
  ghost predicate Scannable(v: string) {
    Trimmed(v, IsSpace) && (v != [] ==> v[0] != '"') && ScanAll(v, SCAN_START).Some?
  }

  /** Scannable, and at depth 0 outside any string when it ends: the values that are safe anywhere. */
  ghost predicate SelfDelimiting(v: string) {
    Scannable(v) && ScanAll(v, SCAN_START).value.depth == 0 && !ScanAll(v, SCAN_START).value.inString
  }

  ghost predicate Storable(m: Values) {
    forall k | k in m && !m[k].quoted :: SelfDelimiting(m[k].raw)
  }

  ghost predicate RoundTrips(m: Values) {
    ParseObject(Serialized(m)) == (true, m)
  }

  // ---------- round trip ----------

  lemma StringLenOne(c: char, tail: string)
    ensures StringLen(EscapeChar(c) + tail) == |EscapeChar(c)| + StringLen(tail)
  {
    var r := EscapeChar(c) + tail;
    if |EscapeChar(c)| == 2 {
      assert r[2..] == tail;
    } else {
      assert r[1..] == tail;
    }
  }

  lemma {:induction false} StringLenOfEscaped(s: string, rest: string)
    requires rest != [] && rest[0] == '"'
    ensures StringLen(Escaped(s) + rest) == |Escaped(s)|
  {
    hide EscapeChar;
    if s == [] {
      assert Escaped(s) + rest == rest;
    } else {
      StringLenOfEscaped(s[1..], rest);
      StringLenOne(s[0], Escaped(s[1..]) + rest);
      assert Escaped(s) + rest == EscapeChar(s[0]) + (Escaped(s[1..]) + rest);
    }
  }

  /** Reading a printed string: its body, and what is left after the closing quote. */
  lemma ReadQuoted(s: string, rest: string)
    ensures var r := Quoted(s) + rest;
            r[0] == '"' &&
            var body := r[1..];
            var n := StringLen(body);
            n < |body| && Unescaped(body[..n]) == s && body[n + 1..] == rest
  {
    var e := Escaped(s);
    var close := ['"'] + rest;
    StringLenOfEscaped(s, close);
    UnescapeEscape(s);
    assert (Quoted(s) + rest)[1..] == e + close;
    assert (e + close)[..|e|] == e;
    assert (e + close)[|e| + 1..] == rest;
  }

  lemma {:induction false} RawLenOfScan(v: string, rest: string, st: Scan)
    requires rest != [] && ScanAll(v, st).Some?
    ensures RawLen(v + rest, st) == |v| + RawLen(rest, ScanAll(v, st).value)
  {
    if v == [] {
      assert v + rest == rest;
    } else {
      assert (v + rest)[1..] == v[1..] + rest;
      RawLenOfScan(v[1..], rest, ScanStep(st, v[0]).value);
    }
  }

  /** What may follow a printed value: the next member's comma, or the closing brace alone. */
  ghost predicate IsFollower(rest: string) {
    rest == "}" || (|rest| > 1 && rest[0] == ',')
  }

  lemma ParseQuotedValue(s: string, rest: string)
    ensures Quoted(s) + rest != []
    ensures ParseValue(Quoted(s) + rest) == Some((Entry(s, true), rest))
  {
    ReadQuoted(s, rest);
  }

  lemma ParseRawValue(v: string, rest: string)
    requires SelfDelimiting(v) && IsFollower(rest)
    ensures var r := v + rest; !IsSpace(r[0]) && ParseValue(r) == Some((Entry(v, false), rest))
  {
    var r := v + rest;
    assert r[0] == if v == [] then rest[0] else v[0];
    assert RawLen(rest, ScanAll(v, SCAN_START).value) == 0;
    RawLenOfScan(v, rest, SCAN_START);
    assert r[..|v|] == v && r[|v|..] == rest;
    TrimTrimmed(v, IsSpace);
  }

  lemma ParsePrintedValue(e: Entry, rest: string)
    requires !e.quoted ==> SelfDelimiting(e.raw)
    requires IsFollower(rest)
    ensures var r := ValueText(e) + rest; r != [] && !IsSpace(r[0]) && ParseValue(r) == Some((e, rest))
  {
    if e.quoted {
      ParseQuotedValue(e.raw, rest);
      assert (Quoted(e.raw) + rest)[0] == '"';
    } else {
      ParseRawValue(e.raw, rest);
    }
  }

  lemma ParseAfterKey(key: string, w: string)
    requires w != [] && !IsSpace(w[0])
    ensures Quoted(key) + (":" + w) != []
    ensures ParseMember(Quoted(key) + (":" + w)) ==
            match ParseValue(w) case None => None case Some((e, rest)) => Some((key, e, rest))
  {
    hide Quoted, StringLen, UnescapedFrom, TrimLeft, ParseValue;
    ReadQuoted(key, ":" + w);
    var c := ":" + w;
    TrimLeftStays(c);
    TrimLeftStays(w);
    assert c[1..] == w;
  }

  lemma ParsePrintedMember(key: string, e: Entry, rest: string)
    requires !e.quoted ==> SelfDelimiting(e.raw)
    requires IsFollower(rest)
    ensures MemberText(key, e) + rest != []
    ensures ParseMember(MemberText(key, e) + rest) == Some((key, e, rest))
  {
    hide ParseMember, ParseValue, Escaped, IsFollower;
    var w := ValueText(e) + rest;
    ParsePrintedValue(e, rest);
    ParseAfterKey(key, w);
    assert MemberText(key, e) + rest == Quoted(key) + (":" + w);
  }

  /** The entries of the listed keys, as a map. */
  ghost function Restricted(ks: seq<string>, m: Values): Values
    requires forall k | k in ks :: k in m
  {
    map k | k in ks :: m[k]
  }

  lemma ParseMembersStep(k: string, e: Entry, rest: string, acc: Values)
    requires !e.quoted ==> SelfDelimiting(e.raw)
    requires IsFollower(rest)
    ensures ParseMembers(MemberText(k, e) + rest, acc) == ParseMembers(rest, acc[k := e])
  {
    var item := MemberText(k, e) + rest;
    assert item[0] == '"';
    assert SkipSeparators(item) == item;
    ParsePrintedMember(k, e, rest);
  }

  lemma ParseMembersComma(r: string, acc: Values)
    requires |r| > 0
    ensures ParseMembers("," + r, acc) == ParseMembers(r, acc)
  {
    assert ("," + r)[1..] == r;
    assert SkipSeparators("," + r) == SkipSeparators(r);
  }

  lemma FollowsMembers(ks: seq<string>, m: Values)
    requires forall k | k in ks :: k in m
    ensures IsFollower(MembersText(ks, m) + "}")
  {
    hide MemberText;
  }

  lemma StorableEntry(m: Values, k: string)
    requires Storable(m) && k in m
    ensures !m[k].quoted ==> SelfDelimiting(m[k].raw)
  {
    hide SelfDelimiting;
  }

  lemma ParseMembersEnd(acc: Values)
    ensures ParseMembers("}", acc) == (true, acc)
  {
  }

  lemma {:induction false} ParsePrintedMembers(ks: seq<string>, m: Values, acc: Values)
    requires forall k | k in ks :: k in m
    requires Storable(m)
    ensures ParseMembers(MembersText(ks, m) + "}", acc) == (true, acc + Restricted(ks, m))
  {
    hide ParseMembers, MemberText, SelfDelimiting, Storable;
    if ks == [] {
      assert MembersText(ks, m) + "}" == "}";
      assert acc + Restricted(ks, m) == acc;
      ParseMembersEnd(acc);
    } else {
      var k := ks[0];
      var rest := MembersText(ks[1..], m) + "}";
      FollowsMembers(ks[1..], m);
      StorableEntry(m, k);
      var item := MemberText(k, m[k]) + rest;
      assert MembersText(ks, m) + "}" == "," + item;
      ParseMembersComma(item, acc);
      ParseMembersStep(k, m[k], rest, acc);
      ParsePrintedMembers(ks[1..], m, acc[k := m[k]]);
      assert acc[k := m[k]] + Restricted(ks[1..], m) == acc + Restricted(ks, m);
    }
  }

  lemma TrimKeeps(s: string)
    requires s != [] && !IsSpace(s[0]) && !IsSpace(s[|s| - 1])
    ensures Trim(s) == s
  {
    TrimTrimmed(s, IsSpace);
  }

  lemma ParseBraced(body: string)
    requires body != [] && body[|body| - 1] == '}'
    ensures ParseObject("{" + body) == ParseMembers(body, map[])
  {
    hide ParseMembers, Trim;
    var t := "{" + body;
    TrimKeeps(t);
    assert t[1..] == body;
  }

  lemma MembersTextBody(ks: seq<string>, m: Values)
    requires ks != [] && forall k | k in ks :: k in m
    ensures MembersText(ks, m) == "," + SerializedBody(ks, m)
  {
    hide MemberText;
  }

  lemma ParseSerializedBody(m: Values)
    ensures ParseObject(Serialized(m)) ==
            ParseMembers(MembersText(SortedKeys(m.Keys), m) + "}", map[])
  {
    hide *;
    hide ParseMembers;
    var ks := SortedKeys(m.Keys);
    var b := SerializedBody(ks, m);
    var body := b + "}";
    NoKeys(m);
    assert Serialized(m) == "{" + body;
    ParseBraced(body);
    if m.Keys == {} {
      assert body == "}";
      assert MembersText(ks, m) + "}" == body;
    } else {
      var k :| k in m.Keys;
      assert k in ks;
      MembersTextBody(ks, m);
      assert MembersText(ks, m) + "}" == "," + body;
      ParseMembersComma(body, map[]);
    }
  }

  /** Reading back what was printed gives the same object: keys, values and quoted flags. */
  lemma RoundTrip(m: Values)
    requires Storable(m)
    ensures RoundTrips(m)
  {
    hide ParseMembers, MembersText, Serialized, SelfDelimiting, ParseObject, SortedKeys;
    var ks := SortedKeys(m.Keys);
    ParseSerializedBody(m);
    ParsePrintedMembers(ks, m, map[]);
    assert map[] + Restricted(ks, m) == m;
  }

  // ---------- exactly which raw values are safe ----------

  ghost predicate AllScannable(m: Values) {
    forall k | k in m && !m[k].quoted :: Scannable(m[k].raw)
  }

  lemma {:induction false} ScanOfConsumed(r: string, st: Scan)
    ensures ScanAll(r[..RawLen(r, st)], st).Some?
  {
    var n := RawLen(r, st);
    if n > 0 {
      ScanOfConsumed(r[1..], ScanStep(st, r[0]).value);
      assert r[..n][1..] == r[1..][..n - 1];
    }
  }

  lemma {:induction false} ScanOfPrefix(p: string, v: string, st: Scan)
    requires p <= v && ScanAll(v, st).Some?
    ensures ScanAll(p, st).Some?
  {
    if p != [] { ScanOfPrefix(p[1..], v[1..], ScanStep(st, p[0]).value); }
  }

  lemma ParsedRawIsScannable(r: string)
    requires r != [] && !IsSpace(r[0]) && r[0] != '"'
    ensures Scannable(Trim(r[..RawLen(r, SCAN_START)]))
  {
    var x := r[..RawLen(r, SCAN_START)];
    ScanOfConsumed(r, SCAN_START);
    assert x != [] ==> x[0] == r[0];
    assert Trim(x) == TrimRight(x, IsSpace);
    ScanOfPrefix(Trim(x), x, SCAN_START);
  }

  lemma ParsedValueIsScannable(w: string)
    requires w != [] && !IsSpace(w[0]) && ParseValue(w).Some?
    ensures var e := ParseValue(w).value.0; !e.quoted ==> Scannable(e.raw)
  {
    hide Trim, Scannable, RawLen, StringLen, UnescapedFrom;
    if w[0] != '"' { ParsedRawIsScannable(w); }
  }

  lemma ParsedMemberIsScannable(r: string)
    requires r != [] && ParseMember(r).Some?
    ensures var e := ParseMember(r).value.1; !e.quoted ==> Scannable(e.raw)
  {
    hide ParseValue, Scannable, StringLen, UnescapedFrom, SkipSpaces;
    var n := StringLen(r[1..]);
    var w := SkipSpaces(SkipSpaces(r[1..][n + 1..])[1..]);
    ParsedValueIsScannable(w);
  }

  /** Whatever the text, the parser only ever stores unquoted values that its own scan can cross. */
  lemma {:induction false} ParsedIsScannable(r: string, m: Values)
    requires AllScannable(m)
    ensures AllScannable(ParseMembers(r, m).1)
    decreases |r|
  {
    hide Scannable, ParseMember, SkipSeparators;
    var s := SkipSeparators(r);
    if |s| > 1 && ParseMember(s).Some? {
      var (key, e, rest) := ParseMember(s).value;
      ParsedMemberIsScannable(s);
      ParsedIsScannable(rest, m[key := e]);
    }
  }

  /** An object with the unquoted value `v` under a key that is not the last one. */
  ghost function Witness(v: string): Values {
    map["a" := Entry(v, false), "b" := Entry("1", false)]
  }

  lemma WitnessKeys()
    ensures SortedKeys({"a", "b"}) == ["a", "b"]
  {
    assert LexLe("a", "b") && !LexLe("b", "a") && LexLe("b", "b") && LexLe("a", "a");
    assert IsLeast("a", {"a", "b"}) && !IsLeast("b", {"a", "b"});
    assert {"a", "b"} - {"a"} == {"b"};
    assert {"b"} - {"b"} == {};
    assert SortedKeys({"b"}) == ["b"] + SortedKeys({});
    assert SortedKeys({"a", "b"}) == ["a"] + SortedKeys({"b"});
  }

  lemma WitnessText(v: string)
    ensures ParseObject(Serialized(Witness(v))) ==
            ParseMembers(Quoted("a") + (":" + (v + (",\"b\":1}"))), map[])
  {
    hide ParseMembers, ParseObject, SortedKeys, Quoted;
    var m := Witness(v);
    assert m.Keys == {"a", "b"};
    WitnessKeys();
    ParseSerializedBody(m);
    var tail := ",\"b\":1";
    WitnessTail(m);
    var item := Quoted("a") + (":" + (v + (tail + "}")));
    assert ["a", "b"][1..] == ["b"];
    assert MembersText(["a", "b"], m) + "}" == "," + item;
    ParseMembersComma(item, map[]);
    assert tail + "}" == ",\"b\":1}";
  }

  lemma WitnessTail(m: Values)
    requires "b" in m && m["b"] == Entry("1", false)
    ensures MembersText(["b"], m) == ",\"b\":1"
  {
    assert Escaped("b") == "b";
    assert ["b"][1..] == [];
  }

  lemma ScanCons(c: char, t: string, st: Scan)
    requires ScanStep(st, c).Some?
    ensures ScanAll([c] + t, st) == ScanAll(t, ScanStep(st, c).value)
  {
    assert ([c] + t)[1..] == t;
  }

  /** An unbalanced value swallows the member after it. */
  lemma UnbalancedSwallows(st: Scan)
    requires st.depth > 0 || st.inString
    ensures ScanAll(",\"b\":1", st).Some?
  {
    hide ScanAll;
    var s1 := ScanStep(st, ',').value;
    var s2 := ScanStep(s1, '"').value;
    var s3 := ScanStep(s2, 'b').value;
    var s4 := ScanStep(s3, '"').value;
    var s5 := ScanStep(s4, ':').value;
    ScanCons('1', [], s5);
    ScanCons(':', ['1'], s4);
    ScanCons('"', [':', '1'], s3);
    ScanCons('b', ['"', ':', '1'], s2);
    ScanCons('"', ['b', '"', ':', '1'], s1);
    ScanCons(',', ['"', 'b', '"', ':', '1'], st);
    assert [','] + ['"', 'b', '"', ':', '1'] == ",\"b\":1";
    assert ['"'] + ['b', '"', ':', '1'] == ['"', 'b', '"', ':', '1'];
    assert ['b'] + ['"', ':', '1'] == ['b', '"', ':', '1'];
    assert ['"'] + [':', '1'] == ['"', ':', '1'];
    assert [':'] + ['1'] == [':', '1'];
    assert ['1'] + [] == ['1'];
    ScanNothing(ScanStep(s5, '1').value);
  }

  lemma ScanNothing(st: Scan)
    ensures ScanAll([], st) == Some(st)
  {
  }

  lemma {:induction false} ScanConcat(v: string, w: string, st: Scan)
    requires ScanAll(v, st).Some?
    ensures ScanAll(v + w, st) == ScanAll(w, ScanAll(v, st).value)
  {
    if v == [] {
      assert v + w == w;
    } else {
      assert (v + w)[1..] == v[1..] + w;
      ScanConcat(v[1..], w, ScanStep(st, v[0]).value);
    }
  }

  lemma UnbalancedValue(v: string, tail: string)
    requires Scannable(v) && v != [] && tail != [] && !IsSpace(tail[|tail| - 1])
    requires ScanAll(tail, ScanAll(v, SCAN_START).value).Some?
    ensures ParseValue(v + tail + "}") == Some((Entry(v + tail, false), "}"))
  {
    hide ScanStep, StringLen, RawLen, ScanAll, Trim;
    var w := v + tail + "}";
    ScanConcat(v, tail, SCAN_START);
    RawLenOfScan(v + tail, "}", SCAN_START);
    RawLenOfLast(ScanAll(v + tail, SCAN_START).value);
    assert w[..|v + tail|] == v + tail && w[|v + tail|..] == "}";
    TrimKeeps(v + tail);
  }

  lemma RawLenOfLast(st: Scan)
    ensures RawLen("}", st) == 0
  {
  }

  /** Where it swallows the next member, the object comes back with one key too few. */
  lemma SwallowedMember(v: string, w: string, e: Entry)
    requires w != [] && !IsSpace(w[0]) && ParseValue(w) == Some((e, "}"))
    ensures ParseMembers(Quoted("a") + (":" + w), map[]) == (true, map["a" := e])
  {
    hide *;
    QuotedHead("a", ":" + w);
    ParseAfterKey("a", w);
    ParseMembersFrom(Quoted("a") + (":" + w), "a", e, "}", map[]);
    ParseMembersEnd(map["a" := e]);
  }

  lemma UnbalancedWitness(v: string)
    requires Scannable(v) && !SelfDelimiting(v)
    ensures !RoundTrips(Witness(v))
  {
    hide ScanStep, ScanAll, Quoted, ParseMembers, ParseObject, Serialized, ParseValue;
    var tail := ",\"b\":1";
    var w := v + tail + "}";
    WitnessText(v);
    assert v + (",\"b\":1}") == w;
    UnbalancedIsNonempty(v);
    UnbalancedSwallows(ScanAll(v, SCAN_START).value);
    UnbalancedValue(v, tail);
    var e := Entry(v + tail, false);
    SwallowedMember(v, w, e);
    assert "b" in Witness(v) && "b" !in map["a" := e];
  }

  lemma UnbalancedIsNonempty(v: string)
    requires Scannable(v) && !SelfDelimiting(v)
    ensures v != []
  {
  }

  lemma QuotedHead(s: string, rest: string)
    ensures |Quoted(s) + rest| > 1 && (Quoted(s) + rest)[0] == '"'
  {
  }

  lemma ParseMembersFrom(r: string, key: string, e: Entry, rest: string, acc: Values)
    requires |r| > 1 && r[0] == '"' && ParseMember(r) == Some((key, e, rest))
    ensures ParseMembers(r, acc) == ParseMembers(rest, acc[key := e])
  {
    hide ParseMember;
    assert SkipSeparators(r) == r;
  }

  /** An unquoted value survives in every object whose other values are safe exactly when it is
      self-delimiting. */
  ghost predicate SafeEverywhere(v: string) {
    forall key: string, m: Values | Storable(m) :: RoundTripsWith(m, key, v)
  }

  ghost predicate RoundTripsWith(m: Values, key: string, v: string) {
    RoundTrips(m[key := Entry(v, false)])
  }

  lemma SafeEverywhereIff(v: string)
    ensures SafeEverywhere(v) <==> SelfDelimiting(v)
  {
    hide RoundTrips, SelfDelimiting;
    if SelfDelimiting(v) {
      forall key: string, m: Values | Storable(m) ensures RoundTripsWith(m, key, v) {
        RoundTrip(m[key := Entry(v, false)]);
      }
    } else {
      NotSelfDelimitingWitness(v);
      var m := map["b" := Entry("1", false)];
      NumberIsSelfDelimiting(1);
      assert IntToString(1) == "1";
      assert Storable(m);
      assert m["a" := Entry(v, false)] == Witness(v);
      assert !RoundTripsWith(m, "a", v);
    }
  }

  lemma NotSelfDelimitingWitness(v: string)
    requires !SelfDelimiting(v)
    ensures !RoundTrips(Witness(v))
  {
    hide ParseMembers, Scannable;
    if Scannable(v) {
      UnbalancedWitness(v);
    } else {
      var t := Trim(Serialized(Witness(v)));
      if t != [] { ParsedIsScannable(t[1..], map[]); }
      assert Witness(v)["a"] == Entry(v, false);
    }
  }

  // ---------- what the setters store ----------

  lemma {:induction false} ScanOfPlain(v: string, st: Scan)
    requires st.depth == 0 && !st.inString
    requires forall c | c in v :: c !in "\"{}[],"
    ensures ScanAll(v, st).Some? && ScanAll(v, st).value.depth == 0 && !ScanAll(v, st).value.inString
  {
    if v != [] {
      assert v[0] in v;
      ScanOfPlain(v[1..], ScanStep(st, v[0]).value);
    }
  }

  lemma NumberIsSelfDelimiting(n: int)
    ensures SelfDelimiting(IntToString(n))
  {
    var v := IntToString(n);
    assert forall c | c in v :: c == '-' || IsDigit(c);
    ScanOfPlain(v, SCAN_START);
  }

  lemma BoolIsSelfDelimiting()
    ensures SelfDelimiting("true") && SelfDelimiting("false")
  {
    ScanOfPlain("true", SCAN_START);
    ScanOfPlain("false", SCAN_START);
  }

  function BoolText(b: bool): string { if b then "true" else "false" }

  function WithString(m: Values, key: string, value: string): Values { m[key := Entry(value, true)] }
  function WithInt(m: Values, key: string, value: int): Values { m[key := Entry(IntToString(value), false)] }
  function WithBool(m: Values, key: string, value: bool): Values { m[key := Entry(BoolText(value), false)] }

  // ---------- getters ----------

  function GetString(m: Values, key: string, fallback: string): string {
    if key in m && m[key].quoted then m[key].raw else fallback
  }

  function GetInt(m: Values, key: string, fallback: int): int {
    if key !in m then fallback
    else
      match Stoi(if m[key].quoted then m[key].raw else Trim(m[key].raw))
      case None => fallback
      case Some(n) => n
  }

  function GetBool(m: Values, key: string, fallback: bool): bool {
    if key !in m then fallback
    else
      var v := if m[key].quoted then m[key].raw else Trim(m[key].raw);
      if v == "true" || v == "1" || v == "yes" then true
      else if v == "false" || v == "0" || v == "no" then false
      else fallback
  }

  /** What each typed setter stores is there, unchanged, after the object went through its text. */
  lemma StringSurvives(m: Values, key: string, s: string, fallback: string)
    requires Storable(m)
    ensures Storable(WithString(m, key, s))
    ensures GetString(ParseObject(Serialized(WithString(m, key, s))).1, key, fallback) == s
  {
    hide SelfDelimiting, ParseObject, Serialized;
    RoundTrip(WithString(m, key, s));
  }

  lemma IntSurvives(m: Values, key: string, n: int, fallback: int)
    requires Storable(m) && INT32_MIN <= n <= INT32_MAX
    ensures Storable(WithInt(m, key, n))
    ensures GetInt(ParseObject(Serialized(WithInt(m, key, n))).1, key, fallback) == n
  {
    hide SelfDelimiting, ParseObject, Serialized, IntToString, ParseInt, Trim;
    NumberIsSelfDelimiting(n);
    RoundTrip(WithInt(m, key, n));
    ParseIntOfIntToString(n, INT32_MIN, INT32_MAX);
    TrimKeepsNumber(n);
  }

  lemma BoolSurvives(m: Values, key: string, b: bool, fallback: bool)
    requires Storable(m)
    ensures Storable(WithBool(m, key, b))
    ensures GetBool(ParseObject(Serialized(WithBool(m, key, b))).1, key, fallback) == b
  {
    hide SelfDelimiting, ParseObject, Serialized, Trim;
    BoolIsSelfDelimiting();
    RoundTrip(WithBool(m, key, b));
    TrimKeeps(BoolText(b));
  }

  lemma TrimKeepsNumber(n: int)
    ensures Trim(IntToString(n)) == IntToString(n)
  {
    TrimKeeps(IntToString(n));
  }

  lemma StringLenAt(t: string, i: nat)
    requires i <= |t|
    ensures StringLen(t[i..]) == if i == |t| || t[i] == '"' then 0
                                 else if t[i] == '\\' && i + 1 < |t| then 2 + StringLen(t[i + 2..])
                                 else 1 + StringLen(t[i + 1..])
  {
    var r := t[i..];
    if i < |t| { assert r[1..] == t[i + 1..]; }
    if i + 1 < |t| { assert r[2..] == t[i + 2..]; }
  }

  // ---------- the object, updated in place ----------

  method SkipLeft(s: string) returns (b: nat)
    ensures b <= |s| && TrimLeft(s, IsSpace) == s[b..]
  {
    b := 0;
    while b < |s| && IsSpace(s[b])
      invariant b <= |s| && TrimLeft(s[b..], IsSpace) == TrimLeft(s, IsSpace)
    {
      assert s[b..][1..] == s[b + 1..];
      b := b + 1;
    }
  }

  method SkipRight(s: string, b: nat) returns (e: nat)
    requires b <= |s|
    ensures b <= e <= |s| && TrimRight(s[b..], IsSpace) == s[b..e]
  {
    e := |s|;
    assert s[b..e] == s[b..];
    while e > b && IsSpace(s[e - 1])
      invariant b <= e <= |s| && TrimRight(s[b..e], IsSpace) == TrimRight(s[b..], IsSpace)
    {
      assert s[b..e][..e - b - 1] == s[b..e - 1];
      e := e - 1;
    }
  }

  method TrimText(s: string) returns (r: string)
    ensures r == Trim(s)
  {
    hide TrimLeft, TrimRight;
    var b := SkipLeft(s);
    var e := SkipRight(s, b);
    r := s[b..e];
  }

  class JsonObject {
    var values: Values

    constructor ()
      ensures values == map[]
    {
      values := map[];
    }

    method SetString(key: string, value: string)
      modifies this
      ensures values == WithString(old(values), key, value)
    {
      values := values[key := Entry(value, true)];
    }

    method SetInt(key: string, value: int)
      modifies this
      ensures values == WithInt(old(values), key, value)
    {
      values := values[key := Entry(IntToString(value), false)];
    }

    method SetBool(key: string, value: bool)
      modifies this
      ensures values == WithBool(old(values), key, value)
    {
      values := values[key := Entry(BoolText(value), false)];
    }

    method SetRaw(key: string, rawJsonValue: string)
      modifies this
      ensures values == old(values)[key := Entry(Trim(rawJsonValue), false)]
    {
      var raw := TrimText(rawJsonValue);
      values := values[key := Entry(raw, false)];
    }

    /** The index just after the string body that starts at `start`: its closing quote, or the end. */
    static method StringEnd(t: string, start: nat) returns (i: nat)
      requires start <= |t|
      ensures start <= i <= |t| && i - start == StringLen(t[start..])
    {
      hide StringLen;
      i := start;
      while i < |t| && t[i] != '"'
        invariant start <= i <= |t| && i - start + StringLen(t[i..]) == StringLen(t[start..])
      {
        StringLenAt(t, i);
        if t[i] == '\\' && i + 1 < |t| {
          i := i + 2;
        } else {
          i := i + 1;
        }
      }
      StringLenAt(t, i);
    }

    static method SpacesEnd(t: string, start: nat) returns (i: nat)
      requires start <= |t|
      ensures start <= i <= |t| && t[i..] == SkipSpaces(t[start..])
    {
      i := start;
      while i < |t| && IsSpace(t[i])
        invariant start <= i <= |t| && SkipSpaces(t[i..]) == SkipSpaces(t[start..])
      {
        assert t[i..][1..] == t[i + 1..];
        i := i + 1;
      }
    }

    static method RawEnd(t: string, start: nat) returns (i: nat)
      requires start < |t|
      ensures start <= i < |t| && i - start == RawLen(t[start..], SCAN_START)
    {
      i := start;
      var depth: nat := 0;
      var inString := false;
      ghost var st := SCAN_START;
      while i < |t| - 1
        invariant start <= i <= |t| - 1
        invariant st == Scan(i > start && t[i - 1] == '\\', depth, inString)
        invariant i - start + RawLen(t[i..], st) == RawLen(t[start..], SCAN_START)
      {
        var c := t[i];
        assert t[i..][1..] == t[i + 1..];
        if c == '"' && (i == start || t[i - 1] != '\\') {
          inString := !inString;
        } else if !inString {
          if c == '{' || c == '[' {
            depth := depth + 1;
          } else if c == '}' || c == ']' {
            if depth == 0 { break; }
            depth := depth - 1;
          } else if c == ',' && depth == 0 {
            break;
          }
        }
        st := Scan(c == '\\', depth, inString);
        i := i + 1;
      }
    }

    /** Reads one member at `start`; `ok` is false where the source gives up. */
    static method ReadMember(t: string, start: nat)
      returns (ok: bool, key: string, entry: Entry, next: nat)
      requires start < |t| - 1
      ensures ok ==> start < next <= |t| && ParseMember(t[start..]) == Some((key, entry, t[next..]))
      ensures !ok ==> ParseMember(t[start..]) == None
    {
      hide StringLen, RawLen, UnescapedFrom, Trim, SkipSpaces;
      ok, key, entry, next := false, "", Entry("", false), start;
      if t[start] != '"' { return; }
      var i := StringEnd(t, start + 1);
      ghost var body := t[start..][1..];
      assert body == t[start + 1..];
      if i >= |t| { return; }
      key := Unescape(t[start + 1..i]);
      assert body[..i - start - 1] == t[start + 1..i];
      assert body[i - start - 1 + 1..] == t[i + 1..];
      var j := SpacesEnd(t, i + 1);
      if j >= |t| || t[j] != ':' { return; }
      assert t[j..][1..] == t[j + 1..];
      j := SpacesEnd(t, j + 1);
      if j >= |t| { return; }
      ok, entry, next := ReadValue(t, j);
    }

    static method ReadValue(t: string, start: nat) returns (ok: bool, entry: Entry, next: nat)
      requires start < |t|
      ensures ok ==> start <= next <= |t| && ParseValue(t[start..]) == Some((entry, t[next..]))
      ensures !ok ==> ParseValue(t[start..]) == None
    {
      hide StringLen, RawLen, UnescapedFrom, Trim;
      ok, entry, next := false, Entry("", false), start;
      ghost var body := t[start..][1..];
      assert body == t[start + 1..];
      if t[start] == '"' {
        var i := StringEnd(t, start + 1);
        if i >= |t| { return; }
        var raw := Unescape(t[start + 1..i]);
        assert body[..i - start - 1] == t[start + 1..i];
        assert body[i - start - 1 + 1..] == t[i + 1..];
        ok, entry, next := true, Entry(raw, true), i + 1;
      } else {
        var i := RawEnd(t, start);
        var raw := TrimText(t[start..i]);
        assert t[start..][..i - start] == t[start..i];
        assert t[start..][i - start..] == t[i..];
        ok, entry, next := true, Entry(raw, false), i;
      }
    }

    method Parse(jsonText: string) returns (ok: bool)
      modifies this
      ensures (ok, values) == ParseObject(jsonText)
    {
      hide ParseMember;
      values := map[];
      var t := TrimText(jsonText);
      if |t| < 2 || t[0] != '{' || t[|t| - 1] != '}' { return false; }
      var i := 1;
      while i < |t| - 1
        invariant 1 <= i <= |t|
        invariant ParseMembers(t[i..], values) == ParseMembers(t[1..], map[])
        decreases |t| - i
      {
        var start := i;
        while i < |t| - 1 && (IsSpace(t[i]) || t[i] == ',')
          invariant start <= i <= |t| - 1
          invariant SkipSeparators(t[i..]) == SkipSeparators(t[start..])
        {
          assert t[i..][1..] == t[i + 1..];
          i := i + 1;
        }
        if i >= |t| - 1 { break; }
        assert SkipSeparators(t[start..]) == t[i..];
        var good, key, entry, next := ReadMember(t, i);
        if !good { return false; }
        values := values[key := entry];
        i := next;
      }
      assert |SkipSeparators(t[i..])| <= 1;
      return true;
    }

    method PrintMember(key: string) returns (s: string)
      requires key in values
      ensures s == MemberText(key, values[key])
    {
      var k := Escape(key);
      s := "\"" + k + "\"" + ":";
      if values[key].quoted {
        var v := Escape(values[key].raw);
        s := s + ("\"" + v + "\"");
      } else {
        s := s + values[key].raw;
      }
    }

    static method NextKey(todo: set<string>) returns (key: string)
      requires todo != {}
      ensures key in todo && IsLeast(key, todo)
    {
      LeastExists(todo);
      key :| IsLeast(key, todo);
    }

    /** One more member printed after `s`; `first` says that none has been printed yet. */
    method PrintNext(s: string, first: bool, key: string) returns (out: string)
      requires key in values
      ensures out == s + (if first then "" else ",") + MemberText(key, values[key])
    {
      hide MemberText;
      var item := PrintMember(key);
      out := if first then s else s + ",";
      out := out + item;
    }

    method Serialize() returns (s: string)
      ensures s == Serialized(values)
    {
      hide *;
      s := "{";
      var first := true;
      var todo := values.Keys;
      UnprintedEnds(values);
      while todo != {}
        invariant todo <= values.Keys
        invariant Serialized(values) == s + Unprinted(first, SortedKeys(todo), values) + "}"
        decreases |todo|
      {
        var key := NextKey(todo);
        UnprintedStep(values, s, first, todo, key);
        s := PrintNext(s, first, key);
        first := false;
        todo := todo - {key};
      }
      s := s + "}";
    }
  }

  lemma UnprintedEnds(m: Values)
    ensures Serialized(m) == "{" + Unprinted(true, SortedKeys(m.Keys), m) + "}"
    ensures forall first, s: string {:trigger s + Unprinted(first, SortedKeys({}), m)} ::
              s + Unprinted(first, SortedKeys({}), m) == s
  {
    hide SerializedBody, MembersText;
    NoKeys(m);
  }

  lemma UnprintedStep(m: Values, s: string, first: bool, todo: set<string>, key: string)
    requires todo <= m.Keys && key in todo && IsLeast(key, todo)
    ensures s + Unprinted(first, SortedKeys(todo), m)
         == s + (if first then "" else ",") + MemberText(key, m[key]) + Unprinted(false, SortedKeys(todo - {key}), m)
  {
    hide MemberText, SortedKeys, SerializedBody, MembersText, LexLe, IsLeast;
    PrintedHead(m, todo, key);
    var item, rest := MemberText(key, m[key]), MembersText(SortedKeys(todo - {key}), m);
    assert s + (item + rest) == s + "" + item + rest;
    assert s + ("," + item + rest) == s + "," + item + rest;
  }

  lemma NoKeys(m: Values)
    ensures MembersText(SortedKeys({}), m) == "" && SerializedBody(SortedKeys({}), m) == ""
    ensures m.Keys == {} ==> SerializedBody(SortedKeys(m.Keys), m) == ""
    ensures Serialized(m) == "{" + SerializedBody(SortedKeys(m.Keys), m) + "}"
  {
  }

  lemma PrintedHead(m: Values, todo: set<string>, key: string)
    requires todo <= m.Keys && IsLeast(key, todo)
    ensures var all, rest := MembersText(SortedKeys(todo), m), MembersText(SortedKeys(todo - {key}), m);
            all == "," + MemberText(key, m[key]) + rest &&
            SerializedBody(SortedKeys(todo), m) == MemberText(key, m[key]) + rest &&
            SortedKeys(todo) != []
  {
    hide *;
    var rest := SortedKeys(todo - {key});
    SortedKeysHead(todo, key);
    assert key in [key] + rest;
    assert forall k | k in rest :: k in [key] + rest;
    MembersTextCons(key, rest, m);
  }

  lemma MembersTextCons(key: string, rest: seq<string>, m: Values)
    requires key in m && forall k | k in rest :: k in m
    ensures forall k | k in [key] + rest :: k in m
    ensures MembersText([key] + rest, m) == "," + MemberText(key, m[key]) + MembersText(rest, m)
    ensures SerializedBody([key] + rest, m) == MemberText(key, m[key]) + MembersText(rest, m)
  {
    hide MemberText;
    assert ([key] + rest)[1..] == rest;
  }

  lemma SortedKeysHead(ks: set<string>, key: string)
    requires IsLeast(key, ks)
    ensures SortedKeys(ks) == [key] + SortedKeys(ks - {key})
  {
    var s := SortedKeys(ks);
    LeastExists(ks);
    var k := s[0];
    LexTotal(k, key);
  }
}
