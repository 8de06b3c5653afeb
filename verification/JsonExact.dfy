/** Exactly which objects survive being printed and parsed again. */
module JsonExact {
  import opened Text
  import opened Json

  // ---------- weights ----------

  /** What a character counts: nothing for a comma, and for a control character as much as its escape. */
  function CharWeight(c: char): nat {
    if c == ',' then 0 else if c == '\n' || c == '\r' || c == '\t' then 2 else 1
  }

  function Weight(s: string): nat { if s == [] then 0 else CharWeight(s[0]) + Weight(s[1..]) }

  lemma {:induction false} WeightConcat(a: string, b: string)
    ensures Weight(a + b) == Weight(a) + Weight(b)
  {
    if a == [] {
      assert a + b == b;
    } else {
      assert (a + b)[1..] == a[1..] + b;
      WeightConcat(a[1..], b);
    }
  }

  lemma WeightSplit(s: string, n: nat)
    requires n <= |s|
    ensures Weight(s) == Weight(s[..n]) + Weight(s[n..])
  {
    WeightConcat(s[..n], s[n..]);
    assert s == s[..n] + s[n..];
  }

  lemma WeightOne(c: char)
    ensures Weight([c]) == CharWeight(c)
  {
    assert [c][1..] == [];
  }

  lemma WeightOfEscape(c: char)
    ensures c != '"' && c != '\\' ==> Weight(EscapeChar(c)) <= CharWeight(c)
    ensures Weight(EscapeChar(UnescapeChar(c))) <= 1 + CharWeight(c)
  {
    EscapeWeights(c);
    EscapeWeights(UnescapeChar(c));
  }

  lemma EscapeWeights(c: char)
    ensures Weight(EscapeChar(c)) ==
            if c == '"' || c == '\\' || c == '\n' || c == '\r' || c == '\t' then 2 else CharWeight(c)
  {
    var e := EscapeChar(c);
    if |e| == 2 {
      assert e == [e[0]] + [e[1]];
      WeightConcat([e[0]], [e[1]]);
      WeightOne(e[0]);
      WeightOne(e[1]);
    } else {
      WeightOne(c);
    }
  }

  /** A text without a closing quote weighs at least as much as what it stands for, printed. */
  lemma {:induction false} WeightOfBody(b: string)
    requires StringLen(b) == |b|
    ensures Weight(b) >= Weight(Escaped(Unescaped(b)))
    decreases |b|
  {
    hide EscapeChar, UnescapeChar, CharWeight;
    if b == "\\" {
      LoneBackslash();
    } else if b != [] && b[0] == '\\' {
      BodyPair(b);
      WeightOfBody(b[2..]);
      var c := UnescapeChar(b[1]);
      WeightConcat(EscapeChar(c), Escaped(Unescaped(b[2..])));
      WeightOfEscape(b[1]);
    } else if b != [] {
      WeightOfBody(b[1..]);
      assert Unescaped(b) == [b[0]] + Unescaped(b[1..]);
      WeightConcat(EscapeChar(b[0]), Escaped(Unescaped(b[1..])));
      WeightOfEscape(b[0]);
    }
  }

  lemma LoneBackslash()
    ensures Escaped(Unescaped("\\")) == ""
  {
    assert "\\"[1..] == "";
  }

  lemma BodyPair(b: string)
    requires |b| > 1 && b[0] == '\\' && StringLen(b) == |b|
    ensures StringLen(b[2..]) == |b| - 2 && Weight(b) == 1 + CharWeight(b[1]) + Weight(b[2..])
    ensures Escaped(Unescaped(b)) == EscapeChar(UnescapeChar(b[1])) + Escaped(Unescaped(b[2..]))
  {
    hide EscapeChar, UnescapeChar, UnescapedFrom, Escaped;
    assert b[1..][1..] == b[2..];
    UnescapePair(b);
    EscapedCons(UnescapeChar(b[1]), Unescaped(b[2..]));
  }

  lemma UnescapePair(b: string)
    requires |b| > 1 && b[0] == '\\'
    ensures Unescaped(b) == [UnescapeChar(b[1])] + Unescaped(b[2..])
  {
    hide UnescapeChar;
    var t := b[1..];
    assert t[0] == b[1] && t[1..] == b[2..];
    assert UnescapedFrom(t, true) == [UnescapeChar(t[0])] + UnescapedFrom(t[1..], false);
  }

  lemma EscapedCons(c: char, t: string)
    ensures Escaped([c] + t) == EscapeChar(c) + Escaped(t)
  {
    hide EscapeChar;
    assert ([c] + t)[1..] == t;
  }

  lemma {:induction false} StringLenOfBody(r: string)
    ensures StringLen(r[..StringLen(r)]) == StringLen(r)
    decreases |r|
  {
    var n := StringLen(r);
    if r != [] && r[0] != '"' {
      if r[0] == '\\' && |r| > 1 {
        StringLenOfBody(r[2..]);
        assert r[..n][2..] == r[2..][..n - 2];
      } else {
        StringLenOfBody(r[1..]);
        assert r[..n][1..] == r[1..][..n - 1];
      }
    }
  }

  /** Reading a quoted text: opening quote, body and closing quote weigh at least the text printed. */
  lemma WeightOfQuoted(r: string)
    requires r != [] && r[0] == '"' && StringLen(r[1..]) < |r| - 1
    ensures var n := StringLen(r[1..]);
            Weight(r) >= Weight(Quoted(Unescaped(r[1..][..n]))) + Weight(r[1..][n + 1..])
  {
    hide StringLen, UnescapedFrom, Weight, Escaped, Quoted;
    var n, t := StringLen(r[1..]), r[1..];
    StringLenOfBody(t);
    WeightOfBody(t[..n]);
    WeightSplit(r, 1);
    WeightSplit(t, n);
    WeightSplit(t[n..], 1);
    assert t[n..][1..] == t[n + 1..] && t[n..][..1] == "\"" && r[..1] == "\"";
    WeightOne('"');
    QuotedWeight(Unescaped(t[..n]));
  }

  lemma QuotedWeight(s: string)
    ensures Weight(Quoted(s)) == 2 + Weight(Escaped(s))
  {
    hide Escaped;
    WeightConcat("\"" + Escaped(s), "\"");
    WeightConcat("\"", Escaped(s));
    WeightOne('"');
  }

  lemma {:induction false} WeightOfTrimLeft(s: string)
    ensures Weight(s) >= Weight(TrimLeft(s, IsSpace))
  {
    if s != [] && IsSpace(s[0]) { WeightOfTrimLeft(s[1..]); }
  }

  lemma {:induction false} WeightOfTrimRight(s: string)
    ensures Weight(s) >= Weight(TrimRight(s, IsSpace))
    ensures TrimRight(s, IsSpace) <= s
    ensures forall i | |TrimRight(s, IsSpace)| <= i < |s| :: IsSpace(s[i])
  {
    if s != [] && IsSpace(s[|s| - 1]) {
      WeightOfTrimRight(s[..|s| - 1]);
      WeightSplit(s, |s| - 1);
    }
  }

  lemma {:induction false} WeightOfSkip(r: string)
    ensures Weight(r) >= Weight(SkipSeparators(r))
  {
    if |r| > 1 && (IsSpace(r[0]) || r[0] == ',') { WeightOfSkip(r[1..]); }
  }

  lemma WeightOfValue(w: string)
    requires w != [] && ParseValue(w).Some?
    ensures var (e, rest) := ParseValue(w).value; Weight(w) >= Weight(ValueText(e)) + Weight(rest)
  {
    hide Weight, StringLen, UnescapedFrom, RawLen, Quoted, TrimLeft, TrimRight;
    if w[0] == '"' {
      WeightOfQuoted(w);
    } else {
      var n := RawLen(w, SCAN_START);
      WeightSplit(w, n);
      WeightOfTrimLeft(w[..n]);
      WeightOfTrimRight(TrimLeft(w[..n], IsSpace));
    }
  }

  /** Every member read weighs at least what printing it would. */
  lemma WeightOfMember(r: string)
    requires r != [] && ParseMember(r).Some?
    ensures var (key, e, rest) := ParseMember(r).value; Weight(r) >= Weight(MemberText(key, e)) + Weight(rest)
  {
    hide Weight, StringLen, UnescapedFrom, ParseValue, Quoted, ValueText, SkipSpaces;
    var n := StringLen(r[1..]);
    var t := r[1..][n + 1..];
    var w := SkipSpaces(SkipSpaces(t)[1..]);
    var (key, e, rest) := ParseMember(r).value;
    WeightOfQuoted(r);
    WeightOfColon(t);
    WeightOfValue(w);
    WeightConcat(Quoted(key) + ":", ValueText(e));
    WeightConcat(Quoted(key), ":");
  }

  lemma WeightOfColon(t: string)
    requires var c := SkipSpaces(t); c != [] && c[0] == ':'
    ensures Weight(t) >= Weight(":") + Weight(SkipSpaces(SkipSpaces(t)[1..]))
  {
    hide Weight, TrimLeft;
    var c := SkipSpaces(t);
    WeightOfTrimLeft(t);
    WeightSplit(c, 1);
    assert c[..1] == ":";
    WeightOfTrimLeft(c[1..]);
  }

  // ---------- every entry needs its own part of the text ----------

  function CostOf(ks: seq<string>, m: Values): nat
    requires forall k | k in ks :: k in m
  {
    if ks == [] then 0 else Weight(MemberText(ks[0], m[ks[0]])) + CostOf(ks[1..], m)
  }

  lemma {:induction false} CostConcat(a: seq<string>, b: seq<string>, m: Values)
    requires (forall k | k in a :: k in m) && (forall k | k in b :: k in m)
    ensures forall k | k in a + b :: k in m
    ensures CostOf(a + b, m) == CostOf(a, m) + CostOf(b, m)
  {
    hide Weight, MemberText;
    if a == [] {
      assert a + b == b;
    } else {
      assert (a + b)[1..] == a[1..] + b;
      CostConcat(a[1..], b, m);
    }
  }

  lemma CostWithout(ks: seq<string>, i: nat, m: Values)
    requires i < |ks| && forall k | k in ks :: k in m
    ensures forall k | k in ks[..i] + ks[i + 1..] :: k in m
    ensures CostOf(ks, m) == Weight(MemberText(ks[i], m[ks[i]])) + CostOf(ks[..i] + ks[i + 1..], m)
  {
    hide Weight, MemberText;
    assert ks == ks[..i] + ([ks[i]] + ks[i + 1..]);
    CostConcat(ks[..i], [ks[i]] + ks[i + 1..], m);
    CostConcat(ks[..i], ks[i + 1..], m);
    assert ([ks[i]] + ks[i + 1..])[1..] == ks[i + 1..];
  }

  ghost predicate Different(ks: seq<string>) { forall i, j | 0 <= i < j < |ks| :: ks[i] != ks[j] }

  /** The listed keys are in the result, and not with the entry they have now. */
  ghost predicate ToCome(ks: seq<string>, acc: Values, m: Values) {
    Different(ks) && forall k | k in ks :: k in m && (k !in acc || acc[k] != m[k])
  }

  /** Text that brings the listed entries weighs at least as much as they do printed. */
  lemma {:induction false} TextCoversEntries(r: string, acc: Values, ks: seq<string>)
    requires ToCome(ks, acc, ParseMembers(r, acc).1)
    ensures Weight(r) >= CostOf(ks, ParseMembers(r, acc).1)
    decreases |r|
  {
    hide Weight, MemberText, ParseMember, SkipSeparators;
    var s, m := SkipSeparators(r), ParseMembers(r, acc).1;
    WeightOfSkip(r);
    if |s| <= 1 || ParseMember(s).None? {
      NothingToCome(ks, acc);
    } else {
      var (key, e, rest) := ParseMember(s).value;
      WeightOfMember(s);
      if key in ks && m[key] == e {
        var i :| 0 <= i < |ks| && ks[i] == key;
        CostWithout(ks, i, m);
        StillToCome(ks, i, acc, e, m);
        TextCoversEntries(rest, acc[key := e], ks[..i] + ks[i + 1..]);
      } else {
        TextCoversEntries(rest, acc[key := e], ks);
      }
    }
  }

  lemma NothingToCome(ks: seq<string>, acc: Values)
    requires ToCome(ks, acc, acc)
    ensures ks == []
  {
    if ks != [] { HasMember(ks); }
  }

  lemma HasMember(ks: seq<string>)
    requires ks != []
    ensures exists k :: k in ks
  {
    assert ks[0] in ks;
  }

  lemma StillToCome(ks: seq<string>, i: nat, acc: Values, e: Entry, m: Values)
    requires i < |ks| && ToCome(ks, acc, m)
    ensures ToCome(ks[..i] + ks[i + 1..], acc[ks[i] := e], m)
  {
    var others := ks[..i] + ks[i + 1..];
    forall k | k in others ensures k in ks && k != ks[i] {
      var j :| 0 <= j < |others| && others[j] == k;
      assert k == if j < i then ks[j] else ks[j + 1];
    }
    forall a, b | 0 <= a < b < |others| ensures others[a] != others[b] {
      assert others[a] == ks[if a < i then a else a + 1] && others[b] == ks[if b < i then b else b + 1];
    }
  }

  lemma {:induction false} WeightOfMembers(ks: seq<string>, m: Values)
    requires forall k | k in ks :: k in m
    ensures Weight(MembersText(ks, m)) == CostOf(ks, m)
  {
    hide MemberText;
    if ks != [] {
      WeightOfMembers(ks[1..], m);
      var item := MemberText(ks[0], m[ks[0]]);
      WeightConcat("," + item, MembersText(ks[1..], m));
      WeightConcat(",", item);
      WeightOne(',');
    }
  }

  // ---------- the greatest key ----------

  ghost predicate IsGreatest(k: string, ks: set<string>) { k in ks && forall o | o in ks :: LexLe(o, k) }

  lemma {:induction false} LastIsGreatest(ks: set<string>)
    requires ks != {}
    ensures var s := SortedKeys(ks); s != [] && IsGreatest(s[|s| - 1], ks)
    decreases |ks|
  {
    hide SortedKeys, LexLe;
    LeastExists(ks);
    var k :| IsLeast(k, ks);
    SortedKeysHead(ks, k);
    var t := SortedKeys(ks - {k});
    LexTotal(k, k);
    if t == [] {
      assert forall o | o in ks && o != k :: o in t;
    } else {
      assert t[0] in t;
      LastIsGreatest(ks - {k});
      assert t[|t| - 1] in t;
    }
  }

  lemma GreatestIsLast(k: string, ks: set<string>)
    requires k in ks
    ensures var s := SortedKeys(ks); s != [] && (IsGreatest(k, ks) <==> k == s[|s| - 1])
  {
    hide LexLe;
    LastIsGreatest(ks);
    var s := SortedKeys(ks);
    LexTotal(k, s[|s| - 1]);
  }

  // ---------- exactly which objects survive ----------

  /** Every unquoted value can be crossed by the parser's scan, and all but that of the greatest key are
      self-delimiting. */
  ghost predicate SafeTogether(m: Values) {
    forall k | k in m && !m[k].quoted :: Scannable(m[k].raw) && (SelfDelimiting(m[k].raw) || IsGreatest(k, m.Keys))
  }

  ghost predicate SafeFirst(ks: seq<string>, m: Values) {
    forall k | k in ks :: k in m && (!m[k].quoted ==> SelfDelimiting(m[k].raw))
  }

  /** Members with self-delimiting values are read as they were printed, whatever members follow. */
  lemma {:induction false} ParseSafeFirst(a: seq<string>, b: seq<string>, m: Values, acc: Values)
    requires SafeFirst(a, m) && forall k | k in b :: k in m
    ensures forall k | k in a + b :: k in m
    ensures ParseMembers(MembersText(a + b, m) + "}", acc) ==
            ParseMembers(MembersText(b, m) + "}", acc + Restricted(a, m))
    decreases |a|
  {
    hide ParseMembers, MemberText, SelfDelimiting;
    if a == [] {
      assert a + b == b && acc + Restricted(a, m) == acc;
    } else {
      var k, ks := a[0], a[1..] + b;
      assert k in a && (a + b)[1..] == ks;
      assert forall o | o in ks :: o in m;
      var rest := MembersText(ks, m) + "}";
      FollowsMembers(ks, m);
      var item := MemberText(k, m[k]) + rest;
      assert MembersText(a + b, m) + "}" == "," + item;
      ParseMembersComma(item, acc);
      ParseMembersStep(k, m[k], rest, acc);
      ParseSafeFirst(a[1..], b, m, acc[k := m[k]]);
      assert acc[k := m[k]] + Restricted(a[1..], m) == acc + Restricted(a, m);
    }
  }

  /** The last member is read as it was printed already when its value can be crossed. */
  lemma ParseLastMember(k: string, m: Values, acc: Values)
    requires k in m && (!m[k].quoted ==> Scannable(m[k].raw))
    ensures ParseMembers(MembersText([k], m) + "}", acc) == (true, acc[k := m[k]])
  {
    hide ParseMembers, ParseMember, ParseValue, Quoted, Scannable, TrimLeft;
    var e := m[k];
    var w := ValueText(e) + "}";
    LastValue(e);
    ParseAfterKey(k, w);
    var item := Quoted(k) + (":" + w);
    assert [k][1..] == [];
    assert MembersText([k], m) + "}" == "," + item;
    ParseMembersComma(item, acc);
    QuotedHead(k, ":" + w);
    ParseMembersFrom(item, k, e, "}", acc);
    ParseMembersEnd(acc[k := e]);
  }

  lemma LastValue(e: Entry)
    requires !e.quoted ==> Scannable(e.raw)
    ensures var w := ValueText(e) + "}"; w != [] && !IsSpace(w[0]) && ParseValue(w) == Some((e, "}"))
  {
    hide RawLen, StringLen, ScanAll, UnescapedFrom, Escaped;
    if e.quoted {
      ParseQuotedValue(e.raw, "}");
      assert (Quoted(e.raw) + "}")[0] == '"';
    } else {
      var v := e.raw;
      var w := v + "}";
      RawLenOfScan(v, "}", SCAN_START);
      RawLenOfLast(ScanAll(v, SCAN_START).value);
      assert w[0] == if v == [] then '}' else v[0];
      assert w[..|v|] == v && w[|v|..] == "}";
      TrimTrimmed(v, IsSpace);
    }
  }

  lemma SafeTogetherSurvives(m: Values)
    requires SafeTogether(m)
    ensures RoundTrips(m)
  {
    hide ParseMembers, MembersText, Serialized, SelfDelimiting, ParseObject;
    hide SortedKeys, Scannable, IsGreatest, SafeFirst;
    var ks := SortedKeys(m.Keys);
    ParseSerializedBody(m);
    if ks == [] {
      NoKeysNoEntries(m);
      ParsePrintedMembers(ks, m, map[]);
      assert map[] + Restricted(ks, m) == m;
    } else {
      var a, k := ks[..|ks| - 1], ks[|ks| - 1];
      assert ks == a + [k] && k in ks;
      BeforeLast(a, k, m);
      ParseSafeFirst(a, [k], m, map[]);
      ParseLastMember(k, m, map[] + Restricted(a, m));
      assert (map[] + Restricted(a, m))[k := m[k]] == m;
    }
  }

  lemma BeforeLast(a: seq<string>, k: string, m: Values)
    requires SafeTogether(m) && SortedKeys(m.Keys) == a + [k]
    ensures SafeFirst(a, m)
  {
    hide SortedKeys, SelfDelimiting, Scannable, IsGreatest;
    var ks := SortedKeys(m.Keys);
    forall o | o in a ensures o in m && (!m[o].quoted ==> SelfDelimiting(m[o].raw)) {
      var i :| 0 <= i < |a| && a[i] == o;
      assert ks[i] == o && ks[|a|] == k && o in ks;
      GreatestIsLast(o, m.Keys);
    }
  }

  lemma NoKeysNoEntries(m: Values)
    requires SortedKeys(m.Keys) == []
    ensures m == map[]
  {
    hide SortedKeys;
    assert forall k | k in m :: k in SortedKeys(m.Keys);
  }

  // ---------- nothing else survives ----------

  /** A value that leaves the scan inside brackets or a string takes the next comma and quote with it. */
  lemma ScanGoesOn(st: Scan, rest: string)
    requires (st.depth > 0 || st.inString) && |rest| > 2 && rest[0] == ',' && rest[1] == '"'
    ensures RawLen(rest, st) >= 2
  {
    var s1 := ScanStep(st, ',').value;
    assert rest[1..][0] == '"';
  }

  /** So another value is read, and less text is left. */
  lemma UnbalancedIsReadLonger(v: string, rest: string)
    requires Scannable(v) && !SelfDelimiting(v) && |rest| > 2 && rest[0] == ',' && rest[1] == '"'
    ensures var w := v + rest;
            !IsSpace(w[0]) && ParseValue(w).Some? && ParseValue(w).value.0 != Entry(v, false) &&
            Weight(ParseValue(w).value.1) < Weight(rest)
  {
    hide ScanAll, RawLen, Weight, Trim, StringLen, UnescapedFrom, ScanStep;
    UnbalancedIsNonempty(v);
    var w, st := v + rest, ScanAll(v, SCAN_START).value;
    RawLenOfScan(v, rest, SCAN_START);
    ScanGoesOn(st, rest);
    var n := RawLen(rest, st);
    assert w[..|v| + n] == v + rest[..n] && w[|v| + n..] == rest[n..];
    assert w[0] == v[0];
    LongerThan(v, rest[..n]);
    WeightSplit(rest, n);
    WeightOfStart(rest[..n]);
  }

  lemma LongerThan(v: string, more: string)
    requires v != [] && !IsSpace(v[0]) && more != [] && !IsSpace(more[0])
    ensures Trim(v + more) != v
  {
    var x := v + more;
    assert x[0] == v[0] && x[|v|] == more[0];
    assert TrimLeft(x, IsSpace) == x;
    WeightOfTrimRight(x);
  }

  lemma WeightOfStart(t: string)
    requires |t| >= 2 && t[0] == ',' && t[1] == '"'
    ensures Weight(t) > 0
  {
    assert t[1..][0] == '"';
  }

  lemma WeightOfEnd(ks: seq<string>, m: Values)
    requires forall k | k in ks :: k in m
    ensures Weight(MembersText(ks, m) + "}") == CostOf(ks, m) + 1
  {
    hide MembersText, MemberText;
    WeightOfMembers(ks, m);
    WeightConcat(MembersText(ks, m), "}");
    WeightOne('}');
  }

  /** From the first value that is not self-delimiting on, the text is too short for all the members it has to
      bring. */
  lemma UnbalancedLosesMember(a: seq<string>, k: string, b: seq<string>, m: Values)
    requires SafeFirst(a, m) && Different(a + [k] + b) && b != []
    requires forall o :: o in a + [k] + b <==> o in m
    requires !m[k].quoted && Scannable(m[k].raw) && !SelfDelimiting(m[k].raw)
    ensures ParseMembers(MembersText(a + [k] + b, m) + "}", map[]).1 != m
  {
    hide ParseMembers, MembersText, MemberText, Scannable, SelfDelimiting, ParseMember, ParseValue, Weight, SafeFirst;
    var ks := [k] + b;
    assert a + [k] + b == a + ks;
    ParseSafeFirst(a, ks, m, map[]);
    var acc := map[] + Restricted(a, m);
    var rest := MembersText(b, m) + "}";
    TextStarts(b, m);
    UnbalancedMember(k, m[k].raw, rest, m, acc);
    var (e, left) := ParseValue(m[k].raw + rest).value;
    MembersHead(k, b, m);
    assert MembersText(ks, m) + "}" == "," + (MemberText(k, m[k]) + rest);
    MemberWeighs(k, m[k]);
    assert ks[1..] == b;
    if ParseMembers(left, acc[k := e]).1 == m {
      AfterFirst(a, k, b, m, e);
      TextCoversEntries(left, acc[k := e], ks);
      WeightOfEnd(b, m);
    }
  }

  lemma MemberWeighs(k: string, e: Entry)
    ensures Weight(MemberText(k, e)) > 0
  {
    hide Escaped, ValueText;
    assert MemberText(k, e)[0] == '"';
  }

  lemma MembersHead(k: string, b: seq<string>, m: Values)
    requires k in m && forall o | o in b :: o in m
    ensures MembersText([k] + b, m) == "," + MemberText(k, m[k]) + MembersText(b, m)
  {
    hide MemberText;
    assert ([k] + b)[1..] == b;
  }

  lemma TextStarts(b: seq<string>, m: Values)
    requires b != [] && forall o | o in b :: o in m
    ensures var rest := MembersText(b, m) + "}"; |rest| > 2 && rest[0] == ',' && rest[1] == '"'
  {
    hide Escaped;
  }

  lemma UnbalancedMember(k: string, v: string, rest: string, m: Values, acc: Values)
    requires k in m && m[k] == Entry(v, false)
    requires Scannable(v) && !SelfDelimiting(v) && |rest| > 2 && rest[0] == ',' && rest[1] == '"'
    ensures v + rest != [] && ParseValue(v + rest).Some?
    ensures var (e, left) := ParseValue(v + rest).value;
            e != m[k] && Weight(left) < Weight(rest) &&
            ParseMembers("," + (MemberText(k, m[k]) + rest), acc) == ParseMembers(left, acc[k := e])
  {
    hide ParseMembers, ParseMember, ParseValue, Quoted, Scannable, SelfDelimiting, Weight;
    var w := v + rest;
    UnbalancedIsReadLonger(v, rest);
    var (e, left) := ParseValue(w).value;
    ParseAfterKey(k, w);
    var item := Quoted(k) + (":" + w);
    assert MemberText(k, m[k]) + rest == item;
    ParseMembersComma(item, acc);
    QuotedHead(k, ":" + w);
    ParseMembersFrom(item, k, e, left, acc);
  }

  lemma AfterFirst(a: seq<string>, k: string, b: seq<string>, m: Values, e: Entry)
    requires Different(a + [k] + b) && (forall o :: o in a + [k] + b <==> o in m) && e != m[k]
    requires forall o | o in a :: o in m
    ensures ToCome([k] + b, (map[] + Restricted(a, m))[k := e], m)
  {
    var ks, all := [k] + b, a + [k] + b;
    forall i, j | 0 <= i < j < |ks| ensures ks[i] != ks[j] {
      assert all[|a| + i] == ks[i] && all[|a| + j] == ks[j];
    }
    assert all == a + ks;
    DifferentParts(a, ks);
    forall o | o in ks ensures o in m {
      assert o in all;
    }
  }

  lemma DifferentParts(a: seq<string>, ks: seq<string>)
    requires Different(a + ks)
    ensures forall o | o in ks :: o !in a
  {
    forall i, j | 0 <= i < |a| && 0 <= j < |ks| ensures a[i] != ks[j] {
      assert (a + ks)[i] == a[i] && (a + ks)[|a| + j] == ks[j];
    }
  }

  lemma SurvivorsAreSafe(m: Values)
    requires RoundTrips(m)
    ensures SafeTogether(m)
  {
    hide ParseMembers, MembersText, Serialized, SelfDelimiting, ParseObject, SortedKeys, Scannable, IsGreatest;
    var ks := SortedKeys(m.Keys);
    ParseSerializedBody(m);
    ParsedIsScannable(MembersText(ks, m) + "}", map[]);
    FirstUnsafe(ks, m, 0);
  }

  lemma FirstUnsafe(ks: seq<string>, m: Values, i: nat)
    requires ks == SortedKeys(m.Keys) && i <= |ks| && SafeFirst(ks[..i], m) && AllScannable(m)
    requires ParseMembers(MembersText(ks, m) + "}", map[]).1 == m
    ensures SafeTogether(m)
    decreases |ks| - i
  {
    hide ParseMembers, MembersText, SelfDelimiting, SortedKeys, Scannable, IsGreatest;
    if i + 1 < |ks| {
      var a, k, b := ks[..i], ks[i], ks[i + 1..];
      assert ks == a + [k] + b && k in ks;
      if !m[k].quoted && !SelfDelimiting(m[k].raw) {
        UnbalancedLosesMember(a, k, b, m);
      } else {
        assert ks[..i + 1] == a + [k];
        FirstUnsafe(ks, m, i + 1);
      }
    } else {
      forall k | k in m && !m[k].quoted
        ensures Scannable(m[k].raw) && (SelfDelimiting(m[k].raw) || IsGreatest(k, m.Keys))
      {
        assert k in ks;
        GreatestIsLast(k, m.Keys);
        var j :| 0 <= j < |ks| && ks[j] == k;
        if j < i { assert k in ks[..i]; }
      }
    }
  }

  /** For every object: it survives being printed and parsed if and only if the scan can cross each of its unquoted
      values and all of them but that of the greatest key are self-delimiting. */
  lemma RoundTripsIff(m: Values)
    ensures RoundTrips(m) <==> SafeTogether(m)
  {
    hide RoundTrips, SafeTogether;
    if RoundTrips(m) { SurvivorsAreSafe(m); }
    if SafeTogether(m) { SafeTogetherSurvives(m); }
  }
}
