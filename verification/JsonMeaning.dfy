/** The text of stored objects against RFC 8259: escapes, the order of the keys, and nested values. */
module JsonMeaning {
  import opened Text
  import opened Json

  // ---------- escapes ----------

  /** Control characters for which there is a short escape never stand in a printed string. */
  lemma {:induction false} EscapedHasNoBreaks(s: string)
    ensures forall c | c in Escaped(s) :: c as int != 9 && c as int != 10 && c as int != 13
  {
    if s != "" { EscapedHasNoBreaks(s[1..]); }
  }

  /** The character that a two-character escape stands for (RFC 8259, section 7), by its code. */
  function StandardEscape(c: char): Option<int> {
    match c
    case '"' => Some(34)
    case '\\' => Some(92)
    case '/' => Some(47)
    case 'b' => Some(8)
    case 'f' => Some(12)
    case 'n' => Some(10)
    case 'r' => Some(13)
    case 't' => Some(9)
    case _ => None
  }

  /** A standard two-character escape is read as the standard says if and only if it is not that of backspace or form
      feed; those, and the four digits of a `\u`, are read as they stand, without the backslash. */
  lemma EscapeReadIff(c: char)
    requires StandardEscape(c).Some?
    ensures |Unescaped(['\\', c])| == 1
    ensures Unescaped(['\\', c])[0] as int == StandardEscape(c).value <==> c != 'b' && c != 'f'
  {
    var s := ['\\', c];
    assert s[1..] == [c] && [c][1..] == "";
    assert UnescapedFrom([c], true) == [UnescapeChar(c)] + UnescapedFrom("", false);
  }

  lemma UnicodeEscapeIsNotRead(d: string)
    requires forall c | c in d :: c != '\\'
    ensures Unescaped("\\u" + d) == "u" + d
  {
    var s := "\\u" + d;
    assert s[1..] == "u" + d && ("u" + d)[1..] == d;
    assert UnescapedFrom("u" + d, true) == ['u'] + UnescapedFrom(d, false);
    PlainIsKept(d);
  }

  lemma {:induction false} PlainIsKept(d: string)
    requires forall c | c in d :: c != '\\'
    ensures Unescaped(d) == d
  {
    if d != "" {
      assert d[0] in d && forall c | c in d[1..] :: c in d;
      PlainIsKept(d[1..]);
    }
  }

  // ---------- the order of the keys ----------

  /** One key is before another when it is a beginning of it, or smaller at the first character where they differ. */
  ghost predicate Before(a: string, b: string) {
    a <= b || exists i: nat :: FirstDifference(a, b, i) && a[i] < b[i]
  }

  ghost predicate FirstDifference(a: string, b: string, i: nat) {
    i < |a| && i < |b| && a[..i] == b[..i] && a[i] != b[i]
  }

  lemma {:induction false} LexLeIff(a: string, b: string)
    ensures LexLe(a, b) <==> Before(a, b)
  {
    if a != "" && b != "" {
      LexLeIff(a[1..], b[1..]);
      assert a == [a[0]] + a[1..] && b == [b[0]] + b[1..];
      if a[0] == b[0] {
        assert a <= b <==> a[1..] <= b[1..];
        forall i: nat ensures FirstDifference(a, b, i + 1) <==> FirstDifference(a[1..], b[1..], i) {
          if i < |a| - 1 && i < |b| - 1 {
            assert a[..i + 1] == [a[0]] + a[1..][..i] && b[..i + 1] == [b[0]] + b[1..][..i];
          }
        }
        if i: nat :| FirstDifference(a, b, i) && a[i] < b[i] {
          assert i > 0;
          assert FirstDifference(a[1..], b[1..], i - 1) && a[1..][i - 1] < b[1..][i - 1];
        }
        if i: nat :| FirstDifference(a[1..], b[1..], i) && a[1..][i] < b[1..][i] {
          assert FirstDifference(a, b, i + 1) && a[i + 1] < b[i + 1];
        }
      } else {
        assert FirstDifference(a, b, 0);
        forall i: nat ensures FirstDifference(a, b, i) ==> i == 0 { DifferAtOnce(a, b, i); }
      }
    }
  }

  lemma DifferAtOnce(a: string, b: string, i: nat)
    requires a != "" && b != "" && a[0] != b[0]
    ensures FirstDifference(a, b, i) ==> i == 0
  {
    if 0 < i <= |a| && i <= |b| { assert a[..i][0] == a[0] && b[..i][0] == b[0]; }
  }

  /** The keys are printed in that order. */
  lemma {:induction false} KeysAreSorted(ks: set<string>)
    ensures var s := SortedKeys(ks); forall i, j | 0 <= i < j < |s| :: Before(s[i], s[j])
    decreases |ks|
  {
    hide LexLe, Before, SortedKeys;
    NoKeysSorted();
    if ks != {} {
      var k := LeastKey(ks);
      SortedKeysHead(ks, k);
      KeysAreSorted(ks - {k});
      var t := SortedKeys(ks - {k});
      forall o | o in t ensures Before(k, o) {
        assert o in ks;
        LexLeIff(k, o);
      }
      SortedCons(k, t);
    }
  }

  lemma LeastKey(ks: set<string>) returns (k: string)
    requires ks != {}
    ensures IsLeast(k, ks)
  {
    LeastExists(ks);
    k :| IsLeast(k, ks);
  }

  lemma NoKeysSorted()
    ensures SortedKeys({}) == []
  {
  }

  lemma SortedCons(k: string, t: seq<string>)
    requires forall o | o in t :: Before(k, o)
    requires forall i, j | 0 <= i < j < |t| :: Before(t[i], t[j])
    ensures var s := [k] + t; forall i, j | 0 <= i < j < |s| :: Before(s[i], s[j])
  {
    hide Before;
    var s := [k] + t;
    forall i, j | 0 <= i < j < |s| ensures Before(s[i], s[j]) {
      assert s[j] == t[j - 1];
      if i > 0 { assert s[i] == t[i - 1]; }
    }
  }

  // ---------- nested values ----------

  /** A JSON value; an object is its keys and its values, in order. */
  datatype Value = Word(text: string) | Text(text: string) | Items(items: seq<Value>)
                 | Members(keys: seq<string>, values: seq<Value>)

  /** null, true, false and numbers hold none of the characters that matter to the scan; no string ends in a
      backslash. */
  ghost predicate ValueOk(v: Value) {
    match v
    case Word(t) => forall c | c in t :: c !in "\"{}[],\\" && !IsSpace(c)
    case Text(t) => TextOk(t)
    case Items(vs) => forall x | x in vs :: ValueOk(x)
    case Members(ks, vs) => |ks| == |vs| && (forall k | k in ks :: TextOk(k)) && forall x | x in vs :: ValueOk(x)
  }

  predicate TextOk(t: string) { t != "" ==> t[|t| - 1] != '\\' }

  function Print(v: Value): string {
    match v
    case Word(t) => t
    case Text(t) => Quoted(t)
    case Items(vs) => "[" + PrintItems(vs) + "]"
    case Members(ks, vs) => if |ks| == |vs| then "{" + PrintMembers(ks, vs) + "}" else "{}"
  }

  function PrintItems(vs: seq<Value>): string {
    if vs == [] then "" else Print(vs[0]) + (if |vs| == 1 then "" else ",") + PrintItems(vs[1..])
  }

  function PrintMembers(ks: seq<string>, vs: seq<Value>): string
    requires |ks| == |vs|
    decreases vs
  {
    if vs == [] then ""
    else Quoted(ks[0]) + ":" + Print(vs[0]) + (if |vs| == 1 then "" else ",") + PrintMembers(ks[1..], vs[1..])
  }

  /** Across the text the scan neither stops nor changes depth, and ends outside strings, not behind a backslash. */
  ghost predicate Crosses(t: string, depth: nat) {
    ScanAll(t, Scan(false, depth, false)) == Some(Scan(false, depth, false))
  }

  lemma CrossesNothing(depth: nat)
    ensures Crosses("", depth)
  {
  }

  lemma CrossesConcat(a: string, b: string, depth: nat)
    requires Crosses(a, depth) && Crosses(b, depth)
    ensures Crosses(a + b, depth)
  {
    hide ScanAll;
    ScanConcat(a, b, Scan(false, depth, false));
  }

  lemma CrossesOne(c: char, depth: nat)
    requires c == ':' || (c == ',' && depth > 0)
    ensures Crosses([c], depth)
  {
    assert [c][1..] == "";
  }

  /** Inside a string nothing but an unprotected quote matters. */
  lemma {:induction false} ScanInString(s: string, bs: bool, depth: nat)
    requires s != "" || !bs
    ensures exists b :: ScanAll(Escaped(s), Scan(bs, depth, true)) == Some(Scan(b, depth, true)) &&
                        (b ==> s != "" && s[|s| - 1] == '\\')
  {
    if s == "" {
      assert ScanAll(Escaped(s), Scan(bs, depth, true)) == Some(Scan(bs, depth, true));
    } else {
      var e, rest := EscapeChar(s[0]), Escaped(s[1..]);
      var b0 := s[0] == '\\';
      EscapedCharScanned(s[0], bs, depth);
      ScanConcat(e, rest, Scan(bs, depth, true));
      if |s| == 1 {
        assert s[1..] == "" && rest == "";
      } else {
        ScanInString(s[1..], b0, depth);
      }
    }
  }

  lemma EscapedCharScanned(c: char, bs: bool, depth: nat)
    ensures ScanAll(EscapeChar(c), Scan(bs, depth, true)) == Some(Scan(c == '\\', depth, true))
  {
    var e := EscapeChar(c);
    if |e| == 2 {
      ScanCons(e[0], [e[1]], Scan(bs, depth, true));
      ScanCons(e[1], "", Scan(true, depth, true));
      assert [e[0]] + [e[1]] == e && [e[1]] + "" == [e[1]];
    } else {
      ScanCons(e[0], "", Scan(bs, depth, true));
      assert [e[0]] + "" == e;
    }
  }

  lemma CrossesQuoted(s: string, depth: nat)
    requires TextOk(s)
    ensures Crosses(Quoted(s), depth)
  {
    hide ScanAll;
    var e := Escaped(s);
    ScanInString(s, false, depth);
    ScanCons('"', e + "\"", Scan(false, depth, false));
    ScanConcat(e, "\"", Scan(false, depth, true));
    ScanCons('"', "", Scan(false, depth, true));
    ScanNothing(Scan(false, depth, false));
    assert Quoted(s) == ['"'] + (e + "\"") && ['"'] + "" == "\"";
  }

  lemma {:induction false} CrossesWord(t: string, depth: nat)
    requires forall c | c in t :: c !in "\"{}[],\\"
    ensures Crosses(t, depth)
  {
    if t == "" {
      CrossesNothing(depth);
    } else {
      assert t[0] in t && forall c | c in t[1..] :: c in t;
      CrossesWord(t[1..], depth);
    }
  }

  lemma CrossesWrapped(open: char, body: string, close: char, depth: nat)
    requires (open == '[' && close == ']') || (open == '{' && close == '}')
    requires Crosses(body, depth + 1)
    ensures Crosses([open] + body + [close], depth)
  {
    hide ScanAll;
    ScanCons(open, body + [close], Scan(false, depth, false));
    ScanConcat(body, [close], Scan(false, depth + 1, false));
    ScanCons(close, "", Scan(false, depth + 1, false));
    ScanNothing(Scan(false, depth, false));
    assert [open] + body + [close] == [open] + (body + [close]) && [close] + "" == [close];
  }

  lemma {:induction false} CrossesValue(v: Value, depth: nat)
    requires ValueOk(v)
    ensures Crosses(Print(v), depth)
    decreases v, 1
  {
    hide Crosses, Quoted;
    match v {
      case Word(t) => CrossesWord(t, depth);
      case Text(t) => CrossesQuoted(t, depth);
      case Items(vs) =>
        CrossesItems(v, vs, depth + 1);
        CrossesWrapped('[', PrintItems(vs), ']', depth);
      case Members(ks, vs) =>
        CrossesMembers(v, ks, vs, depth + 1);
        CrossesWrapped('{', PrintMembers(ks, vs), '}', depth);
    }
  }

  lemma {:induction false} CrossesItems(v: Value, vs: seq<Value>, depth: nat)
    requires (forall x | x in vs :: x < v && ValueOk(x)) && depth > 0
    ensures Crosses(PrintItems(vs), depth)
    decreases v, 0, |vs|
  {
    hide Crosses, Print, ValueOk;
    if vs == [] {
      CrossesNothing(depth);
    } else {
      assert vs[0] in vs && forall x | x in vs[1..] :: x in vs;
      CrossesValue(vs[0], depth);
      CrossesItems(v, vs[1..], depth);
      CommaOr(|vs| == 1, depth);
      CrossesConcat(Print(vs[0]), if |vs| == 1 then "" else ",", depth);
      CrossesConcat(Print(vs[0]) + (if |vs| == 1 then "" else ","), PrintItems(vs[1..]), depth);
    }
  }

  lemma CommaOr(last: bool, depth: nat)
    requires depth > 0
    ensures Crosses(if last then "" else ",", depth) && Crosses(":", depth)
  {
    hide ScanAll;
    CrossesNothing(depth);
    CrossesOne(',', depth);
    CrossesOne(':', depth);
  }

  lemma {:induction false} CrossesMembers(v: Value, ks: seq<string>, vs: seq<Value>, depth: nat)
    requires |ks| == |vs| && (forall k | k in ks :: TextOk(k)) && (forall x | x in vs :: x < v && ValueOk(x))
    requires depth > 0
    ensures Crosses(PrintMembers(ks, vs), depth)
    decreases v, 0, |vs|
  {
    hide Crosses, Print, Quoted, ValueOk;
    if vs == [] {
      CrossesNothing(depth);
    } else {
      assert vs[0] in vs && ks[0] in ks;
      assert (forall x | x in vs[1..] :: x in vs) && forall k | k in ks[1..] :: k in ks;
      CrossesQuoted(ks[0], depth);
      CrossesValue(vs[0], depth);
      CrossesMembers(v, ks[1..], vs[1..], depth);
      CommaOr(|vs| == 1, depth);
      var a := Quoted(ks[0]) + ":" + Print(vs[0]);
      CrossesConcat(Quoted(ks[0]), ":", depth);
      CrossesConcat(Quoted(ks[0]) + ":", Print(vs[0]), depth);
      CrossesConcat(a, if |vs| == 1 then "" else ",", depth);
      CrossesConcat(a + (if |vs| == 1 then "" else ","), PrintMembers(ks[1..], vs[1..]), depth);
    }
  }

  lemma PrintTrimmed(v: Value)
    requires ValueOk(v) && !v.Text?
    ensures Trimmed(Print(v), IsSpace) && (Print(v) != "" ==> Print(v)[0] != '"')
  {
    match v {
      case Word(t) => if t != "" { assert t[0] in t && t[|t| - 1] in t; }
      case Items(vs) => EndsOf("[", PrintItems(vs), "]");
      case Members(ks, vs) => EndsOf("{", PrintMembers(ks, vs), "}");
    }
  }

  lemma EndsOf(a: string, b: string, c: string)
    requires |a| == 1 && |c| == 1
    ensures (a + b + c)[0] == a[0] && (a + b + c)[|a + b + c| - 1] == c[0]
  {
  }

  /** Whatever is nested in it, a value printed as JSON can be stored unquoted, as long as no string in it ends in a
      backslash. */
  lemma NestedIsSelfDelimiting(v: Value)
    requires ValueOk(v) && !v.Text?
    ensures SelfDelimiting(Print(v))
  {
    hide ScanAll, Print, ValueOk;
    CrossesValue(v, 0);
    PrintTrimmed(v);
  }

  /** One string that does end so, and the value swallows what follows. */
  lemma BackslashAtEndIsNot()
    ensures !SelfDelimiting(Print(Items([Text("\\")])))
  {
    var t := Print(Items([Text("\\")]));
    assert t == "[\"\\\\\"]" by { PrintOfBackslash(); }
    hide Print;
    ScanCons('[', "\"\\\\\"]", SCAN_START);
    ScanCons('"', "\\\\\"]", Scan(false, 1, false));
    ScanCons('\\', "\\\"]", Scan(false, 1, true));
    ScanCons('\\', "\"]", Scan(true, 1, true));
    ScanCons('"', "]", Scan(true, 1, true));
    ScanCons(']', "", Scan(false, 1, false));
    assert ['['] + "\"\\\\\"]" == t && ['"'] + "\\\\\"]" == "\"\\\\\"]" && ['\\'] + "\\\"]" == "\\\\\"]";
    assert ['\\'] + "\"]" == "\\\"]" && ['"'] + "]" == "\"]" && [']'] + "" == "]";
  }

  lemma PrintOfBackslash()
    ensures Print(Items([Text("\\")])) == "[\"\\\\\"]"
  {
    assert Escaped("\\") == "\\\\" by { assert "\\"[1..] == ""; }
    assert [Text("\\")][1..] == [];
  }

  // ---------- what the getters give ----------

  /** Without the key, the fallback. */
  lemma MissingKey(m: Values, key: string, text: string, n: int, b: bool)
    requires key !in m
    ensures GetString(m, key, text) == text && GetInt(m, key, n) == n && GetBool(m, key, b) == b
  {
  }

  /** A text must be quoted; a number may be, with white space in front, a sign, leading zeros and anything but a digit
      behind it, and counts if it fits into 32 bits. */
  lemma GetIntReads(m: Values, key: string, sp: string, sign: string, z: nat, n: nat, rest: string, fallback: int)
    requires key in m && m[key].quoted && m[key].raw == sp + (sign + (Zeros(z) + Digits(n) + rest))
    requires All(sp, IsSpace) && IsSign(sign) && (rest != "" ==> !IsDigit(rest[0]))
    ensures var v := if sign == "-" then -(n as int) else n;
            GetInt(m, key, fallback) == if INT32_MIN <= v <= INT32_MAX then v else fallback
  {
    hide ParseInt, Zeros, Digits;
    ParseIntReads(sp, sign, z, n, rest, INT32_MIN, INT32_MAX);
  }

  lemma UnquotedIsNoText(m: Values, key: string, fallback: string)
    requires key in m && !m[key].quoted
    ensures GetString(m, key, fallback) == fallback
  {
  }

  /** Three words for each truth value, quoted or not; any other text gives the fallback. */
  lemma GetBoolReads(m: Values, key: string, fallback: bool)
    requires key in m && Trimmed(m[key].raw, IsSpace)
    ensures GetBool(m, key, fallback) ==
            if m[key].raw in {"true", "1", "yes"} then true
            else if m[key].raw in {"false", "0", "no"} then false else fallback
  {
    hide TrimBy;
    TrimTrimmed(m[key].raw, IsSpace);
  }
}
