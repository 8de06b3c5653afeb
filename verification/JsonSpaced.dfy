/** JSON text with white space between its tokens, as files edited by hand have it. */
module JsonSpaced {
  import opened Text
  import opened Json

  // ---------- a printer that takes the white space ----------

  /** The runs of white space round the tokens of a member. */
  datatype Gaps = Gaps(beforeKey: string, afterKey: string, afterColon: string, afterValue: string)

  ghost predicate IsGap(s: string) { All(s, IsSpace) }

  ghost predicate GapsOk(g: Gaps) {
    IsGap(g.beforeKey) && IsGap(g.afterKey) && IsGap(g.afterColon) && IsGap(g.afterValue)
  }

  function SpacedMember(g: Gaps, key: string, e: Entry): string {
    g.beforeKey + (Quoted(key) + (g.afterKey + (":" + (g.afterColon + (ValueText(e) + g.afterValue)))))
  }

  function SpacedMembers(ks: seq<string>, m: Values, gs: seq<Gaps>): string
    requires |gs| == |ks| && forall k | k in ks :: k in m
  {
    if ks == [] then ""
    else SpacedMember(gs[0], ks[0], m[ks[0]]) + if |ks| == 1 then "" else "," + SpacedMembers(ks[1..], m, gs[1..])
  }

  /** The object with its members in the order of `ks`, white space at both ends and behind the opening brace. */
  function Spaced(lead: string, inner: string, ks: seq<string>, m: Values, gs: seq<Gaps>, trail: string): string
    requires |gs| == |ks| && forall k | k in ks :: k in m
  {
    lead + ("{" + (inner + (SpacedMembers(ks, m, gs) + "}"))) + trail
  }

  // ---------- reading it ----------

  lemma {:induction false} SkipGap(sep: string, r: string, acc: Values)
    requires IsGap(sep) && r != ""
    ensures ParseMembers(sep + r, acc) == ParseMembers(r, acc)
    ensures SkipSeparators(sep + r) == SkipSeparators(r)
  {
    hide ParseMember, IsSpace;
    if sep == "" {
      assert sep + r == r;
    } else {
      assert sep[0] in sep && forall c | c in sep[1..] :: c in sep;
      assert (sep + r)[1..] == sep[1..] + r;
      SkipGap(sep[1..], r, acc);
    }
  }

  lemma {:induction false} RawLenOfGap(sp: string, rest: string)
    requires IsGap(sp) && IsFollower(rest)
    ensures forall bs :: RawLen(sp + rest, Scan(bs, 0, false)) == |sp|
  {
    if sp == "" {
      assert sp + rest == rest;
    } else {
      assert sp[0] in sp && forall c | c in sp[1..] :: c in sp;
      assert (sp + rest)[1..] == sp[1..] + rest;
      RawLenOfGap(sp[1..], rest);
    }
  }

  lemma RawBeforeGap(v: string, sp: string, rest: string)
    requires SelfDelimiting(v) && v != "" && IsGap(sp) && IsFollower(rest)
    ensures var w := v + (sp + rest); w[0] == v[0] && w[0] != '"' && ParseValue(w) == Some((Entry(v, false), rest))
  {
    hide RawLen, ScanAll, Trim, ScanStep, UnescapedFrom, StringLen;
    var w := v + (sp + rest);
    RawLenOfScan(v, sp + rest, SCAN_START);
    RawLenOfGap(sp, rest);
    var x := v + sp;
    assert w[..|x|] == x && w[|x|..] == rest;
    TrimGap(v, sp);
  }

  lemma TrimGap(v: string, sp: string)
    requires Trimmed(v, IsSpace) && IsGap(sp)
    ensures Trim(v + sp) == v
  {
    hide TrimBy;
    TrimBetween("", v, sp, IsSpace);
    assert "" + v + sp == v + sp;
  }

  lemma EmptyBeforeFollower(rest: string)
    requires IsFollower(rest)
    ensures !IsSpace(rest[0]) && ParseValue(rest) == Some((Entry("", false), rest))
  {
    assert rest[..0] == "" && rest[0..] == rest;
  }

  lemma SkipTo(sp: string, r: string)
    requires IsGap(sp) && r != "" && !IsSpace(r[0])
    ensures SkipSpaces(sp + r) == r
  {
    hide TrimLeft;
    TrimLeftOf(sp, r, IsSpace);
    TrimLeftStays(r);
  }

  /** Behind the key: white space, a colon, white space, and what is read as the value. */
  lemma MemberBehindKey(key: string, g1: string, g2: string, w: string)
    requires IsGap(g1) && IsGap(g2) && w != "" && !IsSpace(w[0])
    ensures var r := Quoted(key) + (g1 + (":" + (g2 + w)));
            |r| > 1 && r[0] == '"' &&
            ParseMember(r) == match ParseValue(w) case None => None case Some((e, rest)) => Some((key, e, rest))
  {
    hide Quoted, StringLen, UnescapedFrom, TrimLeft, ParseValue, SkipSpaces;
    var behind := g1 + (":" + (g2 + w));
    ReadQuoted(key, behind);
    QuotedHead(key, behind);
    SkipTo(g1, ":" + (g2 + w));
    SkipTo(g2, w);
    assert (":" + (g2 + w))[1..] == g2 + w;
  }

  /** One member, from its white space in front to the comma or brace behind it. */
  lemma SpacedStep(g: Gaps, key: string, e: Entry, rest: string, acc: Values)
    requires GapsOk(g) && IsFollower(rest) && (!e.quoted ==> SelfDelimiting(e.raw))
    ensures ParseMembers(SpacedMember(g, key, e) + rest, acc) == ParseMembers(rest, acc[key := e])
  {
    hide ParseMember, ParseMembers, ParseValue, Quoted, SelfDelimiting, SkipSeparators;
    var behind := ValueText(e) + (g.afterValue + rest);
    var r := Quoted(key) + (g.afterKey + (":" + (g.afterColon + behind)));
    QuotedHead(key, g.afterKey + (":" + (g.afterColon + behind)));
    SkipGap(g.beforeKey, r, acc);
    assert SpacedMember(g, key, e) + rest == g.beforeKey + r;
    if e.quoted {
      ParseQuotedValue(e.raw, g.afterValue + rest);
      QuotedHead(e.raw, g.afterValue + rest);
      MemberBehindKey(key, g.afterKey, g.afterColon, behind);
      ParseMembersFrom(r, key, e, g.afterValue + rest, acc);
      SkipGap(g.afterValue, rest, acc[key := e]);
    } else if e.raw != "" {
      RawBeforeGap(e.raw, g.afterValue, rest);
      RawStart(e.raw);
      MemberBehindKey(key, g.afterKey, g.afterColon, behind);
      ParseMembersFrom(r, key, e, rest, acc);
    } else {
      EmptyBeforeFollower(rest);
      GapConcat(g.afterColon, g.afterValue);
      assert g.afterColon + behind == (g.afterColon + g.afterValue) + rest;
      MemberBehindKey(key, g.afterKey, g.afterColon + g.afterValue, rest);
      ParseMembersFrom(r, key, e, rest, acc);
    }
  }

  lemma RawStart(v: string)
    requires SelfDelimiting(v) && v != ""
    ensures !IsSpace(v[0])
  {
    hide ScanAll;
  }

  lemma GapConcat(a: string, b: string)
    requires IsGap(a) && IsGap(b)
    ensures IsGap(a + b)
  {
    hide IsSpace;
  }

  lemma {:induction false} SpacedMembersParse(ks: seq<string>, m: Values, gs: seq<Gaps>, acc: Values)
    requires |gs| == |ks| && (forall k | k in ks :: k in m) && Storable(m) && forall g | g in gs :: GapsOk(g)
    ensures ParseMembers(SpacedMembers(ks, m, gs) + "}", acc) == (true, acc + Restricted(ks, m))
    decreases |ks|
  {
    hide ParseMembers, SpacedMember, SelfDelimiting, Storable, GapsOk;
    if ks == [] {
      assert SpacedMembers(ks, m, gs) + "}" == "}";
      assert acc + Restricted(ks, m) == acc;
      ParseMembersEnd(acc);
    } else {
      var k := ks[0];
      assert gs[0] in gs && forall g | g in gs[1..] :: g in gs;
      StorableEntry(m, k);
      var next := SpacedMembers(ks[1..], m, gs[1..]) + "}";
      SpacedMembersParse(ks[1..], m, gs[1..], acc[k := m[k]]);
      assert acc[k := m[k]] + Restricted(ks[1..], m) == acc + Restricted(ks, m);
      var rest := if |ks| == 1 then "}" else "," + next;
      SpacedHead(ks, m, gs);
      SpacedStep(gs[0], k, m[k], rest, acc);
      if |ks| > 1 { ParseMembersComma(next, acc[k := m[k]]); }
    }
  }

  lemma SpacedHead(ks: seq<string>, m: Values, gs: seq<Gaps>)
    requires ks != [] && |gs| == |ks| && forall k | k in ks :: k in m
    ensures var next := SpacedMembers(ks[1..], m, gs[1..]) + "}";
            (|ks| == 1 ==> next == "}") &&
            SpacedMembers(ks, m, gs) + "}" ==
              SpacedMember(gs[0], ks[0], m[ks[0]]) + if |ks| == 1 then "}" else "," + next
  {
    hide SpacedMember;
  }

  lemma BracedSpaced(lead: string, body: string, trail: string)
    requires IsGap(lead) && IsGap(trail) && body != "" && body[|body| - 1] == '}'
    ensures ParseObject(lead + ("{" + body) + trail) == ParseMembers(body, map[])
  {
    hide ParseMembers, TrimBy;
    var t := "{" + body;
    TrimBetween(lead, t, trail, IsSpace);
    assert t[1..] == body;
  }

  /** Whatever white space stands between the tokens, and in whatever order the members come: the text parses to the
      object. */
  lemma SpacedParses(lead: string, inner: string, ks: seq<string>, m: Values, gs: seq<Gaps>, trail: string)
    requires |gs| == |ks| && (forall k :: k in ks <==> k in m) && Storable(m)
    requires IsGap(lead) && IsGap(inner) && IsGap(trail) && forall g | g in gs :: GapsOk(g)
    ensures ParseObject(Spaced(lead, inner, ks, m, gs, trail)) == (true, m)
  {
    hide ParseMembers, SpacedMembers, Storable, GapsOk, ParseObject;
    var body := SpacedMembers(ks, m, gs) + "}";
    BracedSpaced(lead, inner + body, trail);
    SkipGap(inner, body, map[]);
    SpacedMembersParse(ks, m, gs, map[]);
    assert map[] + Restricted(ks, m) == m;
  }

  const NO_GAPS := Gaps("", "", "", "")

  /** What the printer prints is that text without any white space, the members in the order of their keys. */
  lemma {:induction false} BareMembers(ks: seq<string>, m: Values)
    requires forall k | k in ks :: k in m
    ensures ks != [] ==> MembersText(ks, m) == "," + SpacedMembers(ks, m, seq(|ks|, _ => NO_GAPS))
    ensures ks == [] ==> MembersText(ks, m) == "" && SpacedMembers(ks, m, seq(|ks|, _ => NO_GAPS)) == ""
  {
    hide MemberText, SpacedMember;
    if ks != [] {
      BareMembers(ks[1..], m);
      assert seq(|ks|, _ => NO_GAPS)[1..] == seq(|ks| - 1, _ => NO_GAPS);
      BareMember(ks[0], m[ks[0]]);
    }
  }

  lemma BareMember(key: string, e: Entry)
    ensures SpacedMember(NO_GAPS, key, e) == MemberText(key, e)
  {
    hide ValueText, Quoted;
  }

  lemma SerializedIsSpaced(m: Values)
    ensures var ks := SortedKeys(m.Keys);
            Serialized(m) == Spaced("", "", ks, m, seq(|ks|, _ => NO_GAPS), "")
  {
    hide MembersText, SpacedMembers, SortedKeys;
    var ks := SortedKeys(m.Keys);
    BareMembers(ks, m);
  }

  // ---------- nothing else is read ----------

  /** The text of a value that was read, quotes included. */
  ghost predicate IsValueText(v: string, e: Entry) {
    if e.quoted then
      |v| > 1 && v[0] == '"' && v[|v| - 1] == '"' && e.raw == Unescaped(v[1..|v| - 1]) &&
      StringLen(v[1..]) == |v| - 2
    else e.raw == Trim(v)
  }

  /** A quoted key, white space, a colon, white space and a value. */
  ghost predicate IsMemberText(r: string, key: string, e: Entry, rest: string) {
    exists body, g1, g2, v ::
      r == "\"" + body + "\"" + (g1 + (":" + (g2 + (v + rest)))) && key == Unescaped(body) &&
      IsGap(g1) && IsGap(g2) && IsValueText(v, e)
  }

  lemma {:induction false} SkippedIsGap(r: string) returns (g: string)
    ensures IsGap(g) && r == g + SkipSpaces(r)
  {
    if r != "" && IsSpace(r[0]) {
      var h := SkippedIsGap(r[1..]);
      g := [r[0]] + h;
      assert r == [r[0]] + r[1..];
    } else {
      g := "";
    }
  }

  lemma ParsedValueText(w: string) returns (v: string)
    requires w != "" && ParseValue(w).Some?
    ensures w == v + ParseValue(w).value.1 && IsValueText(v, ParseValue(w).value.0)
  {
    hide UnescapedFrom, RawLen, Trim;
    if w[0] == '"' {
      var n := StringLen(w[1..]);
      v := w[..n + 2];
      assert w == v + w[1..][n + 1..];
      assert v[1..|v| - 1] == w[1..][..n] && v[|v| - 1] == w[1..][n];
      assert v[1..] == w[1..][..n + 1];
      StringLenOfPart(w[1..], n + 1);
    } else {
      v := w[..RawLen(w, SCAN_START)];
      assert w == v + w[RawLen(w, SCAN_START)..];
    }
  }

  lemma {:induction false} StringLenOfPart(r: string, k: nat)
    requires StringLen(r) < k <= |r|
    ensures StringLen(r[..k]) == StringLen(r)
    decreases |r|
  {
    if r[0] != '"' {
      if r[0] == '\\' && |r| > 1 {
        assert r[..k][2..] == r[2..][..k - 2];
        StringLenOfPart(r[2..], k - 2);
      } else {
        assert r[..k][1..] == r[1..][..k - 1];
        StringLenOfPart(r[1..], k - 1);
      }
    }
  }

  /** Whatever is read as a member is one: a quoted key, a colon and a value, with nothing but white space between. */
  lemma ParsedIsMember(r: string)
    requires r != "" && ParseMember(r).Some?
    ensures var (key, e, rest) := ParseMember(r).value; IsMemberText(r, key, e, rest)
  {
    hide UnescapedFrom, ParseValue, StringLen, SkipSpaces, IsValueText;
    var n := StringLen(r[1..]);
    var body, behind := r[1..][..n], r[1..][n + 1..];
    var g1 := SkippedIsGap(behind);
    var c := SkipSpaces(behind);
    var g2 := SkippedIsGap(c[1..]);
    var w := SkipSpaces(c[1..]);
    var v := ParsedValueText(w);
    var (key, e, rest) := ParseMember(r).value;
    assert c == ":" + c[1..];
    assert r == "\"" + body + "\"" + behind;
    assert r == "\"" + body + "\"" + (g1 + (":" + (g2 + (v + rest)))) && key == Unescaped(body);
  }

  lemma {:induction false} TrimmedBetween(s: string) returns (a: string, b: string)
    ensures IsGap(a) && IsGap(b) && s == a + Trim(s) + b
  {
    hide IsSpace;
    a := SkippedIsGap(s);
    b := TrimmedRight(TrimLeft(s, IsSpace));
  }

  lemma {:induction false} TrimmedRight(s: string) returns (b: string)
    ensures IsGap(b) && s == TrimRight(s, IsSpace) + b
  {
    if s != "" && IsSpace(s[|s| - 1]) {
      var c := TrimmedRight(s[..|s| - 1]);
      b := c + [s[|s| - 1]];
      assert s == s[..|s| - 1] + [s[|s| - 1]];
    } else {
      b := "";
    }
  }

  /** Text without an opening brace in front or a closing one behind, but for white space, is refused and leaves an
      empty object. */
  lemma ParsedIsBraced(text: string)
    ensures ParseObject(text).0 ==>
              exists a, body, b :: IsGap(a) && IsGap(b) && text == a + ("{" + body + "}") + b
    ensures (forall a, body, b | IsGap(a) && IsGap(b) :: text != a + ("{" + body + "}") + b) ==>
              ParseObject(text) == (false, map[])
  {
    hide ParseMembers, Trim, IsSpace;
    var t := Trim(text);
    var a, b := TrimmedBetween(text);
    if |t| >= 2 && t[0] == '{' && t[|t| - 1] == '}' {
      var body := t[1..|t| - 1];
      assert t == "{" + body + "}";
      assert IsGap(a) && IsGap(b) && text == a + ("{" + body + "}") + b;
    }
  }

  /** Where something else than a quoted key follows a comma, the parse fails and keeps what came before. */
  lemma JunkEndsParse(ks: seq<string>, m: Values, gs: seq<Gaps>, junk: string)
    requires |gs| == |ks| > 0 && (forall k | k in ks :: k in m) && Storable(m) && forall g | g in gs :: GapsOk(g)
    requires |junk| > 1 && junk[|junk| - 1] == '}' && junk[0] != '"' && junk[0] != ',' && !IsSpace(junk[0])
    ensures ParseObject("{" + (SpacedMembers(ks, m, gs) + ("," + junk))) == (false, Restricted(ks, m))
  {
    hide ParseMembers, SpacedMembers, Storable, GapsOk, ParseObject, IsSpace;
    var body := SpacedMembers(ks, m, gs) + ("," + junk);
    BracedSpaced("", body, "");
    assert "" + ("{" + body) + "" == "{" + body;
    JunkBehind(ks, m, gs, junk, map[]);
    assert map[] + Restricted(ks, m) == Restricted(ks, m);
  }

  lemma {:induction false} JunkBehind(ks: seq<string>, m: Values, gs: seq<Gaps>, junk: string, acc: Values)
    requires |gs| == |ks| > 0 && (forall k | k in ks :: k in m) && Storable(m) && forall g | g in gs :: GapsOk(g)
    requires |junk| > 1 && junk[0] != '"' && junk[0] != ',' && !IsSpace(junk[0])
    ensures ParseMembers(SpacedMembers(ks, m, gs) + ("," + junk), acc) == (false, acc + Restricted(ks, m))
    decreases |ks|
  {
    hide ParseMembers, SpacedMember, SelfDelimiting, Storable, GapsOk, IsSpace;
    var k := ks[0];
    assert gs[0] in gs && forall g | g in gs[1..] :: g in gs;
    StorableEntry(m, k);
    var next := if |ks| == 1 then junk else SpacedMembers(ks[1..], m, gs[1..]) + ("," + junk);
    JunkHead(ks, m, gs, junk);
    SpacedStep(gs[0], k, m[k], "," + next, acc);
    ParseMembersComma(next, acc[k := m[k]]);
    if |ks| == 1 {
      NotAMember(junk, acc[k := m[k]]);
      assert acc[k := m[k]] == acc + Restricted(ks, m);
    } else {
      JunkBehind(ks[1..], m, gs[1..], junk, acc[k := m[k]]);
      assert acc[k := m[k]] + Restricted(ks[1..], m) == acc + Restricted(ks, m);
    }
  }

  lemma JunkHead(ks: seq<string>, m: Values, gs: seq<Gaps>, junk: string)
    requires |gs| == |ks| > 0 && (forall k | k in ks :: k in m) && junk != ""
    ensures var next := if |ks| == 1 then junk else SpacedMembers(ks[1..], m, gs[1..]) + ("," + junk);
            next != "" &&
            SpacedMembers(ks, m, gs) + ("," + junk) == SpacedMember(gs[0], ks[0], m[ks[0]]) + ("," + next)
  {
    hide SpacedMember;
  }

  lemma NotAMember(junk: string, acc: Values)
    requires |junk| > 1 && junk[0] != '"' && junk[0] != ',' && !IsSpace(junk[0])
    ensures ParseMembers(junk, acc) == (false, acc)
  {
  }
}
