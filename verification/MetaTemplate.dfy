/** Expansion of `{field}` tokens in a metadata template. */
module MetaTemplate {
  import opened Text

  /** Where field values come from: an XML block, if there is one, and the four fields known without it. */
  datatype Fields = Fields(artist: string, title: string, duration: string, stationId: string,
                           xml: Option<string -> string>)

  function Value(f: Fields, key: string): string {
    var fromXml := if f.xml.Some? then f.xml.value(key) else "";
    if fromXml != "" then fromXml
    else if key == "artist" then f.artist
    else if key == "title" then f.title
    else if key == "duration" then f.duration
    else if key == "stationId" then f.stationId
    else ""
  }

  /** The first position of `c` at or after `from`. */
  function Find(s: string, c: char, from: nat): (r: Option<nat>)
    ensures r.Some? ==> from <= r.value < |s| && s[r.value] == c
    ensures forall k | from <= k < (if r.Some? then r.value else |s|) :: s[k] != c
    decreases |s| - from
  {
    if from >= |s| then None else if s[from] == c then Some(from) else Find(s, c, from + 1)
  }

  lemma {:induction false} FindIff(s: string, c: char, from: nat, i: nat)
    ensures Find(s, c, from) == Some(i) <==>
            from <= i < |s| && s[i] == c && forall k | from <= k < i :: s[k] != c
  {
    var r := Find(s, c, from);
    if from <= i < |s| && s[i] == c && forall k | from <= k < i :: s[k] != c {
      assert r.Some? && r.value == i;
    }
  }

  // ---------- templates as pieces ----------

  /** Plain text holds no opening brace, a key no closing one. */
  datatype Piece = Plain(text: string) | Token(key: string)

  /** What may stand after the last token: no opening brace is followed by a closing one. */
  ghost predicate TailOk(s: string) {
    var open := Find(s, '{', 0);
    open.None? || Find(s, '}', open.value + 1).None?
  }

  ghost predicate PieceOk(p: Piece) {
    if p.Plain? then '{' !in p.text else '}' !in p.key
  }

  ghost predicate PiecesOk(ps: seq<Piece>) { forall p | p in ps :: PieceOk(p) }

  function Written(p: Piece): string { if p.Plain? then p.text else "{" + p.key + "}" }

  function Unparse(ps: seq<Piece>, tail: string): string {
    if ps == [] then tail else Written(ps[0]) + Unparse(ps[1..], tail)
  }

  /** A token with a value becomes the value; one without stays as it is written, and so does plain text. */
  function Rendered(p: Piece, f: Fields): string {
    if p.Plain? || p.key == "" || Value(f, p.key) == "" then Written(p) else Value(f, p.key)
  }

  function Render(ps: seq<Piece>, tail: string, f: Fields): string {
    if ps == [] then tail else Rendered(ps[0], f) + Render(ps[1..], tail, f)
  }

  // ---------- one pass ----------

  function Expand(t: string, f: Fields): string
    decreases |t|
  {
    var open := Find(t, '{', 0);
    if open.None? then t
    else
      var close := Find(t, '}', open.value + 1);
      if close.None? then t
      else
        t[..open.value] + Rendered(Token(t[open.value + 1..close.value]), f) + Expand(t[close.value + 1..], f)
  }

  lemma ExpandTail(t: string, f: Fields)
    requires TailOk(t)
    ensures Expand(t, f) == t
  {
  }

  function Moved(r: Option<nat>, n: nat): Option<nat> { if r.Some? then Some(r.value + n) else None }

  lemma {:induction false} FindMoved(text: string, t: string, c: char, from: nat)
    ensures Find(text + t, c, |text| + from) == Moved(Find(t, c, from), |text|)
    decreases |t| - from
  {
    if from < |t| {
      assert (text + t)[|text| + from] == t[from];
      if t[from] != c { FindMoved(text, t, c, from + 1); }
    }
  }

  lemma {:induction false} FindSkips(s: string, c: char, from: nat, to: nat)
    requires from <= to <= |s| && forall k | from <= k < to :: s[k] != c
    ensures Find(s, c, from) == Find(s, c, to)
    decreases |s| - from
  {
    if from < to { FindSkips(s, c, from + 1, to); }
  }

  lemma SlicesMoved(text: string, t: string, open: nat, close: nat)
    requires open < close < |t|
    ensures var s, n := text + t, |text|;
            s[..n + open] == text + t[..open] && s[n + open + 1..n + close] == t[open + 1..close] &&
            s[n + close + 1..] == t[close + 1..]
  {
  }

  /** Plain text in front moves every position and changes nothing else. */
  lemma ExpandPlain(text: string, t: string, f: Fields)
    requires '{' !in text
    ensures Expand(text + t, f) == text + Expand(t, f)
  {
    hide Rendered, Find, Expand;
    var s, n := text + t, |text|;
    SkipText(text, t);
    FindMoved(text, t, '{', 0);
    var open := Find(t, '{', 0);
    if open.Some? { FindMoved(text, t, '}', open.value + 1); }
    if TailOk(t) {
      ExpandTail(t, f);
      ExpandTail(s, f);
    } else {
      var close := Find(t, '}', open.value + 1);
      SlicesMoved(text, t, open.value, close.value);
      ExpandHere(s, n + open.value, n + close.value, f);
      ExpandHere(t, open.value, close.value, f);
      var token, rest := Rendered(Token(t[open.value + 1..close.value]), f), Expand(t[close.value + 1..], f);
      Regroup(text, t[..open.value], token, rest);
    }
  }

  lemma SkipText(text: string, t: string)
    requires '{' !in text
    ensures Find(text + t, '{', 0) == Find(text + t, '{', |text|)
  {
    forall k | 0 <= k < |text| ensures (text + t)[k] != '{' {
      assert (text + t)[k] == text[k];
    }
    FindSkips(text + t, '{', 0, |text|);
  }

  lemma Regroup(a: string, b: string, c: string, d: string)
    ensures a + b + c + d == a + (b + c + d) && a + (b + (c + d)) == a + b + c + d
  {
  }

  lemma ExpandHere(t: string, open: nat, close: nat, f: Fields)
    requires Find(t, '{', 0) == Some(open) && Find(t, '}', open + 1) == Some(close)
    ensures Expand(t, f) == t[..open] + Rendered(Token(t[open + 1..close]), f) + Expand(t[close + 1..], f)
  {
    hide Rendered, Find;
  }

  lemma ExpandToken(key: string, t: string, f: Fields)
    requires '}' !in key
    ensures Expand("{" + key + "}" + t, f) == Rendered(Token(key), f) + Expand(t, f)
  {
    hide Rendered;
    var s, n := "{" + key + "}" + t, |key| + 1;
    FindIff(s, '{', 0, 0);
    FindIff(s, '}', 1, n);
    assert s[1..n] == key && s[n + 1..] == t;
    assert s[..0] + Rendered(Token(key), f) == Rendered(Token(key), f);
  }

  /** One pass over the pieces of the original template: values are put in and never looked at again,
      braces in them included. */
  lemma {:induction false} ExpandIsRender(ps: seq<Piece>, tail: string, f: Fields)
    requires PiecesOk(ps) && TailOk(tail)
    ensures Expand(Unparse(ps, tail), f) == Render(ps, tail, f)
  {
    hide Expand, TailOk, Rendered, PieceOk;
    if ps == [] {
      ExpandTail(tail, f);
    } else {
      var p, rest := ps[0], Unparse(ps[1..], tail);
      assert PieceOk(p);
      ExpandIsRender(ps[1..], tail, f);
      PieceMeaning(p);
      match p {
        case Plain(text) =>
          ExpandPlain(text, rest, f);
          PlainRendered(text, f);
        case Token(key) =>
          ExpandToken(key, rest, f);
      }
    }
  }

  lemma PieceMeaning(p: Piece)
    ensures PieceOk(p) <==> if p.Plain? then '{' !in p.text else '}' !in p.key
  {
  }

  lemma PlainRendered(text: string, f: Fields)
    ensures Rendered(Plain(text), f) == text
  {
  }

  // ---------- every template has its pieces ----------

  function Parse(t: string): (seq<Piece>, string)
    decreases |t|
  {
    var open := Find(t, '{', 0);
    if open.None? then ([], t)
    else
      var close := Find(t, '}', open.value + 1);
      if close.None? then ([], t)
      else
        var (ps, tail) := Parse(t[close.value + 1..]);
        ([Plain(t[..open.value]), Token(t[open.value + 1..close.value])] + ps, tail)
  }

  lemma UnparseTwo(a: Piece, b: Piece, ps: seq<Piece>, tail: string)
    ensures Unparse([a, b] + ps, tail) == Written(a) + Written(b) + Unparse(ps, tail)
  {
    hide Written;
    assert ([a, b] + ps)[1..] == [b] + ps;
    assert ([b] + ps)[1..] == ps;
    assert Written(a) + (Written(b) + Unparse(ps, tail)) == Written(a) + Written(b) + Unparse(ps, tail);
  }

  lemma {:induction false} ParseOk(t: string)
    ensures var (ps, tail) := Parse(t);
            PiecesOk(ps) && TailOk(tail) && Unparse(ps, tail) == t
    decreases |t|
  {
    hide Unparse, Find, PieceOk;
    var open := Find(t, '{', 0);
    if open.None? {
      UnparseNothing(t);
    } else {
      var close := Find(t, '}', open.value + 1);
      if close.None? {
        UnparseNothing(t);
      } else {
        var rest := t[close.value + 1..];
        ParseOk(rest);
        var a, b := Plain(t[..open.value]), Token(t[open.value + 1..close.value]);
        PieceMeaning(a);
        PieceMeaning(b);
        UnparseTwo(a, b, Parse(rest).0, Parse(rest).1);
        Braced(t, open.value, close.value);
      }
    }
  }

  lemma UnparseNothing(t: string)
    ensures Unparse([], t) == t
  {
  }

  lemma Braced(t: string, open: nat, close: nat)
    requires open < close < |t| && t[open] == '{' && t[close] == '}'
    ensures t[..open] + ("{" + t[open + 1..close] + "}") + t[close + 1..] == t
  {
  }

  /** So the expansion of any template is the rendering of its own pieces. */
  lemma ExpandMeaning(t: string, f: Fields)
    ensures var (ps, tail) := Parse(t); Expand(t, f) == Render(ps, tail, f)
  {
    hide Expand, Parse, Render, Unparse;
    ParseOk(t);
    ExpandIsRender(Parse(t).0, Parse(t).1, f);
  }

  // ---------- consequences ----------

  /** Tokens without a value stay literal; with none known the template comes back unchanged. */
  lemma {:induction false} UnknownStaysLiteral(ps: seq<Piece>, tail: string, f: Fields)
    requires forall p | p in ps && p.Token? :: p.key == "" || Value(f, p.key) == ""
    ensures Render(ps, tail, f) == Unparse(ps, tail)
  {
    hide Value;
    if ps != [] {
      assert ps[0] in ps;
      UnknownStaysLiteral(ps[1..], tail, f);
    }
  }

  /** The pieces of the result: values have become plain text. */
  function Settled(p: Piece, f: Fields): Piece {
    if p.Plain? || p.key == "" || Value(f, p.key) == "" then p else Plain(Value(f, p.key))
  }

  function SettledAll(ps: seq<Piece>, f: Fields): seq<Piece> {
    if ps == [] then [] else [Settled(ps[0], f)] + SettledAll(ps[1..], f)
  }

  lemma {:induction false} SettledRenders(ps: seq<Piece>, tail: string, f: Fields)
    requires PiecesOk(ps) && forall p | p in ps && p.Token? :: '{' !in Value(f, p.key)
    ensures var qs := SettledAll(ps, f);
            PiecesOk(qs) && Unparse(qs, tail) == Render(ps, tail, f) && Render(qs, tail, f) == Render(ps, tail, f)
  {
    hide Value;
    if ps != [] {
      assert ps[0] in ps;
      SettledRenders(ps[1..], tail, f);
      var qs := SettledAll(ps, f);
      assert qs[1..] == SettledAll(ps[1..], f);
    }
  }

  /** Expanding twice is expanding once, provided no value in use holds an opening brace. */
  lemma ExpandTwice(t: string, f: Fields)
    requires forall p | p in Parse(t).0 && p.Token? :: '{' !in Value(f, p.key)
    ensures Expand(Expand(t, f), f) == Expand(t, f)
  {
    hide Expand, Parse, Render, Unparse, Value, SettledAll;
    var ps, tail := Parse(t).0, Parse(t).1;
    ParseOk(t);
    ExpandMeaning(t, f);
    SettledRenders(ps, tail, f);
    ExpandIsRender(SettledAll(ps, f), tail, f);
  }

  // ---------- the in-place loop ----------

  lemma ExpandNext(s: string, pos: nat, open: nat, close: nat, f: Fields)
    requires pos <= |s| && Find(s, '{', pos) == Some(open) && Find(s, '}', open + 1) == Some(close)
    ensures var token := Rendered(Token(s[open + 1..close]), f);
            s[..pos] + Expand(s[pos..], f) == s[..open] + token + Expand(s[close + 1..], f)
  {
    hide Expand, Rendered, Find;
    var text, key, rest := s[pos..open], s[open + 1..close], s[close + 1..];
    ExpandToken(key, rest, f);
    ExpandPlain(text, "{" + key + "}" + rest, f);
    BracedSuffix(s, pos, open, close);
    Regroup(s[..pos], text, Rendered(Token(key), f), Expand(rest, f));
  }

  lemma BracedSuffix(s: string, pos: nat, open: nat, close: nat)
    requires pos <= open < close < |s| && s[open] == '{' && s[close] == '}'
    ensures s[pos..open] + ("{" + s[open + 1..close] + "}" + s[close + 1..]) == s[pos..]
    ensures s[..pos] + s[pos..open] == s[..open]
  {
  }

  lemma ExpandNoMore(s: string, pos: nat, f: Fields)
    requires pos <= |s|
    requires var open := Find(s, '{', pos); open.None? || Find(s, '}', open.value + 1).None?
    ensures s[..pos] + Expand(s[pos..], f) == s
  {
    var t := s[pos..];
    var open := Find(t, '{', 0);
    if open.Some? {
      FindIff(s, '{', pos, pos + open.value);
      assert forall k | open.value + 1 <= k < |t| :: t[k] == s[pos + k];
      assert Find(t, '}', open.value + 1).None?;
    }
    ExpandTail(t, f);
  }

  /** The string is edited in place; the suffix from `pos` is the part of the template not looked at yet. */
  method ApplyMetaTemplate(tmpl: string, f: Fields) returns (out: string)
    ensures out == Expand(tmpl, f)
  {
    hide Value, Expand, Find;
    out := tmpl;
    var pos := 0;
    assert out[0..] == tmpl && out[..0] + Expand(tmpl, f) == Expand(tmpl, f);
    while pos < |out|
      invariant 0 <= pos <= |out|
      invariant out[..pos] + Expand(out[pos..], f) == Expand(tmpl, f)
      decreases |out| - pos
    {
      ghost var expanded := Expand(tmpl, f);
      var open := Find(out, '{', pos);
      if open.None? { break; }
      var close := Find(out, '}', open.value + 1);
      if close.None? { break; }
      var key := out[open.value + 1..close.value];
      ExpandNext(out, pos, open.value, close.value, f);
      ghost var head, rest := out[..open.value], out[close.value + 1..];
      var val := if key == "" then "" else Value(f, key);
      if val != "" {
        out, pos := out[..open.value] + val + out[close.value + 1..], open.value + |val|;
        Replaced(head, val, rest);
      } else {
        KeptToken(out, open.value, close.value);
        pos := close.value + 1;
      }
    }
    if pos == |out| {
      ExpandDone(out, f);
    } else {
      ExpandNoMore(out, pos, f);
    }
  }

  lemma Replaced(head: string, val: string, rest: string)
    ensures var s, n := head + val + rest, |head| + |val|; s[..n] == head + val && s[n..] == rest
  {
  }

  lemma KeptToken(s: string, open: nat, close: nat)
    requires open < close < |s| && s[open] == '{' && s[close] == '}'
    ensures s[..close + 1] == s[..open] + ("{" + s[open + 1..close] + "}")
  {
  }

  lemma ExpandDone(s: string, f: Fields)
    ensures s[..|s|] + Expand(s[|s|..], f) == s
  {
  }

  /** What stands for each of the four names: the XML block's value where it has one, and the known field otherwise. */
  lemma FieldsShow(f: Fields, key: string, before: string)
    requires key in {"artist", "title", "duration", "stationId"} && '{' !in before
    ensures var known := map["artist" := f.artist, "title" := f.title, "duration" := f.duration,
                             "stationId" := f.stationId][key];
            var fromXml := if f.xml.Some? then f.xml.value(key) else "";
            Expand(before + ("{" + key + "}"), f) ==
              before + if fromXml != "" then fromXml else if known != "" then known else "{" + key + "}"
  {
    hide Expand;
    ExpandPlain(before, "{" + key + "}" + "", f);
    assert "{" + key + "}" + "" == "{" + key + "}";
    ExpandToken(key, "", f);
    NothingExpands(f);
  }

  lemma NothingExpands(f: Fields)
    ensures Expand("", f) == ""
  {
  }

  /** Any other name has the XML block's value or none. */
  lemma OtherNames(f: Fields, key: string)
    requires key !in {"artist", "title", "duration", "stationId"}
    ensures Value(f, key) == if f.xml.Some? then f.xml.value(key) else ""
  {
  }
}
