/** The Base64 encoder of the Icecast metadata request, against section 4 of RFC 4648. */
module Base64 {
  import opened Bytes
  import opened Text

  type sextet = v: int | 0 <= v < 64

  // ---------- the standard ----------

  /** The table of letters: A to Z, a to z, 0 to 9, plus and slash. */
  function Letter(v: sextet): char {
    if v < 26 then ('A' as int + v) as char
    else if v < 52 then ('a' as int + v - 26) as char
    else if v < 62 then ('0' as int + v - 52) as char
    else if v == 62 then '+' else '/'
  }

  function ValueOf(c: char): Option<sextet> {
    if 'A' <= c <= 'Z' then Some(c as int - 'A' as int)
    else if 'a' <= c <= 'z' then Some(c as int - 'a' as int + 26)
    else if '0' <= c <= '9' then Some(c as int - '0' as int + 52)
    else if c == '+' then Some(62) else if c == '/' then Some(63) else None
  }

  lemma LetterIff(c: char, v: sextet)
    ensures Letter(v) == c <==> ValueOf(c) == Some(v)
    ensures c == '=' ==> ValueOf(c).None?
  {
  }

  // The four sextets of three bytes, and the three bytes of four sextets.

  function S0(x: byte): sextet { var a: int := x; a / 4 }
  function S1(x: byte, y: byte): sextet { var a: int, b: int := x, y; a % 4 * 16 + b / 16 }
  function S2(y: byte, z: byte): sextet { var b: int, c: int := y, z; b % 16 * 4 + c / 64 }
  function S3(z: byte): sextet { var c: int := z; c % 64 }

  function B0(p: sextet, q: sextet): byte { var a: int, b: int := p, q; a * 4 + b / 16 }
  function B1(q: sextet, r: sextet): byte { var b: int, c: int := q, r; b % 16 * 16 + c / 4 }
  function B2(r: sextet, t: sextet): byte { var c: int, d: int := r, t; c % 4 * 64 + d }

  lemma SextetsIff(x: byte, y: byte, z: byte, p: sextet, q: sextet, r: sextet, t: sextet)
    ensures p == S0(x) && q == S1(x, y) && r == S2(y, z) && t == S3(z) <==>
            x == B0(p, q) && y == B1(q, r) && z == B2(r, t)
  {
  }

  /** Three bytes to four letters; one or two last bytes padded to four. */
  function Encode(b: seq<byte>): string {
    if b == [] then ""
    else if |b| == 1 then [Letter(S0(b[0])), Letter(S1(b[0], 0)), '=', '=']
    else if |b| == 2 then [Letter(S0(b[0])), Letter(S1(b[0], b[1])), Letter(S2(b[1], 0)), '=']
    else Group(b[0], b[1], b[2]) + Encode(b[3..])
  }

  function Group(x: byte, y: byte, z: byte): (r: string)
    ensures |r| == 4
  {
    [Letter(S0(x)), Letter(S1(x, y)), Letter(S2(y, z)), Letter(S3(z))]
  }

  /** The strict decoder: groups of four, padding only in the last, bits without a byte zero. */
  function Decode(s: string): Option<seq<byte>> {
    if s == "" then Some([])
    else if |s| < 4 then None
    else if |s| == 4 && s[3] == '=' then DecodeLast(s[0], s[1], s[2])
    else
      var p, q, r, t, rest := ValueOf(s[0]), ValueOf(s[1]), ValueOf(s[2]), ValueOf(s[3]), Decode(s[4..]);
      if p.None? || q.None? || r.None? || t.None? || rest.None? then None
      else Some([B0(p.value, q.value), B1(q.value, r.value), B2(r.value, t.value)] + rest.value)
  }

  function DecodeLast(c0: char, c1: char, c2: char): Option<seq<byte>> {
    var p, q, r := ValueOf(c0), ValueOf(c1), ValueOf(c2);
    if p.None? || q.None? then None
    else if c2 == '=' then (if B1(q.value, 0) == 0 then Some([B0(p.value, q.value)]) else None)
    else if r.None? || B2(r.value, 0) != 0 then None
    else Some([B0(p.value, q.value), B1(q.value, r.value)])
  }

  lemma {:induction false} EncodedLength(b: seq<byte>)
    ensures |Encode(b)| == 4 * ((|b| + 2) / 3)
  {
    hide Letter, S0, S1, S2, S3;
    if |b| >= 3 { EncodedLength(b[3..]); }
  }

  lemma GroupIff(x: byte, y: byte, z: byte, c0: char, c1: char, c2: char, c3: char)
    ensures Group(x, y, z) == [c0, c1, c2, c3] <==>
            ValueOf(c0).Some? && ValueOf(c1).Some? && ValueOf(c2).Some? && ValueOf(c3).Some? &&
            x == B0(ValueOf(c0).value, ValueOf(c1).value) && y == B1(ValueOf(c1).value, ValueOf(c2).value) &&
            z == B2(ValueOf(c2).value, ValueOf(c3).value)
  {
    hide Letter, ValueOf, S0, S1, S2, S3, B0, B1, B2;
    var g := Group(x, y, z);
    assert g == [c0, c1, c2, c3] <==> g[0] == c0 && g[1] == c1 && g[2] == c2 && g[3] == c3;
    LetterIff(c0, S0(x));
    LetterIff(c1, S1(x, y));
    LetterIff(c2, S2(y, z));
    LetterIff(c3, S3(z));
    if ValueOf(c0).Some? && ValueOf(c1).Some? && ValueOf(c2).Some? && ValueOf(c3).Some? {
      SextetsIff(x, y, z, ValueOf(c0).value, ValueOf(c1).value, ValueOf(c2).value, ValueOf(c3).value);
    }
  }

  lemma OneLeftIff(x: byte, c0: char, c1: char)
    ensures Encode([x]) == [c0, c1, '=', '='] <==> DecodeLast(c0, c1, '=') == Some([x])
  {
    hide Letter, ValueOf, S0, S1, S2, S3, B0, B1, B2;
    LetterIff(c0, S0(x));
    LetterIff(c1, S1(x, 0));
    var e := Encode([x]);
    assert e == [c0, c1, '=', '='] <==> e[0] == c0 && e[1] == c1;
    if ValueOf(c0).Some? && ValueOf(c1).Some? {
      OneByteIff(x, ValueOf(c0).value, ValueOf(c1).value);
    }
  }

  lemma OneByteIff(x: byte, p: sextet, q: sextet)
    ensures p == S0(x) && q == S1(x, 0) <==> B1(q, 0) == 0 && x == B0(p, q)
  {
  }

  lemma TwoLeftIff(x: byte, y: byte, c0: char, c1: char, c2: char)
    requires c2 != '='
    ensures Encode([x, y]) == [c0, c1, c2, '='] <==> DecodeLast(c0, c1, c2) == Some([x, y])
  {
    hide Letter, ValueOf, S0, S1, S2, S3, B0, B1, B2;
    LetterIff(c0, S0(x));
    LetterIff(c1, S1(x, y));
    LetterIff(c2, S2(y, 0));
    var e := Encode([x, y]);
    assert e == [c0, c1, c2, '='] <==> e[0] == c0 && e[1] == c1 && e[2] == c2;
    if ValueOf(c0).Some? && ValueOf(c1).Some? && ValueOf(c2).Some? {
      TwoBytesIff(x, y, ValueOf(c0).value, ValueOf(c1).value, ValueOf(c2).value);
    }
  }

  lemma TwoBytesIff(x: byte, y: byte, p: sextet, q: sextet, r: sextet)
    ensures p == S0(x) && q == S1(x, y) && r == S2(y, 0) <==>
            B2(r, 0) == 0 && x == B0(p, q) && y == B1(q, r)
  {
  }

  lemma NeverPadding(v: sextet)
    ensures Letter(v) != '='
  {
  }

  lemma EncodeGroup(b: seq<byte>)
    requires |b| >= 3
    ensures var e := Encode(b);
            |e| >= 4 && e[..4] == Group(b[0], b[1], b[2]) && e[4..] == Encode(b[3..]) && e[3] != '='
  {
    hide Letter;
    NeverPadding(S3(b[2]));
  }

  /** The standard decoder returns the bytes that were encoded. */
  lemma {:induction false} DecodeEncode(b: seq<byte>)
    ensures Decode(Encode(b)) == Some(b)
  {
    hide Letter, ValueOf, S0, S1, S2, S3, B0, B1, B2, Group, DecodeLast;
    var e := Encode(b);
    if |b| == 1 {
      assert b == [b[0]];
      OneLeftIff(b[0], e[0], e[1]);
    } else if |b| == 2 {
      assert b == [b[0], b[1]];
      NeverPadding(S2(b[1], 0));
      TwoLeftIff(b[0], b[1], e[0], e[1], e[2]);
    } else if |b| >= 3 {
      EncodeGroup(b);
      assert e[..4] == [e[0], e[1], e[2], e[3]];
      GroupIff(b[0], b[1], b[2], e[0], e[1], e[2], e[3]);
      DecodeEncode(b[3..]);
      assert b == [b[0], b[1], b[2]] + b[3..];
    }
  }

  /** Only the encoding itself decodes to the bytes. */
  lemma {:induction false} EncodeDecode(s: string)
    requires Decode(s).Some?
    ensures Encode(Decode(s).value) == s
  {
    hide Letter, ValueOf, S0, S1, S2, S3, B0, B1, B2, Group;
    if s != "" {
      var b := Decode(s).value;
      if |s| == 4 && s[3] == '=' {
        assert s == [s[0], s[1], s[2], '='];
        if s[2] == '=' { OneLeftIff(b[0], s[0], s[1]); } else { TwoLeftIff(b[0], b[1], s[0], s[1], s[2]); }
      } else {
        EncodeDecode(s[4..]);
        GroupIff(b[0], b[1], b[2], s[0], s[1], s[2], s[3]);
        assert b[3..] == Decode(s[4..]).value;
        assert s == [s[0], s[1], s[2], s[3]] + s[4..];
      }
    }
  }

  /** Encoding and strict decoding are inverse to each other. */
  lemma DecodesIff(s: string, b: seq<byte>)
    ensures Decode(s) == Some(b) <==> s == Encode(b)
  {
    hide Encode, Decode;
    DecodeEncode(b);
    if Decode(s).Some? { EncodeDecode(s); }
  }

  // ---------- the streaming loop ----------

  /** The `int` accumulator: it takes a byte in at the low end and wraps at 32 bits. */
  function Wrap32(v: int): int { (v + 0x8000_0000) % 0x1_0000_0000 - 0x8000_0000 }

  function Shifted(val: int, c: byte): int { Wrap32(val * 256 + c) }

  function Pow2(n: nat): (r: int)
    ensures r > 0
  {
    if n == 0 then 1 else 2 * Pow2(n - 1)
  }

  /** `(val >> shift) & 0x3F` with the arithmetic shift. */
  function Sextet(val: int, shift: nat): sextet { val / Pow2(shift) % 64 }

  /** What the inner loop appends for one byte: a letter for every six bits that are there. */
  function Emitted(val: int, valb: int): string
    decreases valb + 6
  {
    if valb < 0 then "" else [Letter(Sextet(val, valb))] + Emitted(val, valb - 6)
  }

  lemma WrapKeepsLowBits(v: int)
    ensures Wrap32(v) % 4096 == v % 4096
  {
    var w := v + 0x8000_0000;
    assert w == w / 0x1_0000_0000 * 0x1_0000_0000 + w % 0x1_0000_0000;
    var q := w / 0x1_0000_0000;
    assert v == Wrap32(v) + 4096 * (q * 0x10_0000);
    SameLowBits(Wrap32(v), q * 0x10_0000);
  }

  lemma SameLowBits(a: int, k: int)
    ensures (a + 4096 * k) % 4096 == a % 4096
  {
  }

  lemma LowBits(val: int, c: byte)
    ensures Shifted(val, c) % 4096 == val % 16 * 256 + c
  {
    hide Wrap32;
    var n: int := c;
    var q, r := val / 16, val % 16;
    WrapKeepsLowBits(val * 256 + c);
    assert val * 256 + n == r * 256 + n + 4096 * q;
    SameLowBits(r * 256 + n, q);
  }

  lemma SameLowSextet(a: int, k: int)
    ensures (a + 64 * k) % 64 == a % 64
  {
  }

  lemma SextetOfLowBits(val: int, q: int, r: nat)
    requires val == 4096 * q + r && r < 4096
    ensures Sextet(val, 0) == r % 64 && Sextet(val, 2) == r / 4 % 64
    ensures Sextet(val, 4) == r / 16 % 64 && Sextet(val, 6) == r / 64 % 64
  {
    assert Pow2(2) == 4;
    assert Pow2(4) == 16;
    assert Pow2(6) == 64;
    assert val / 4 == r / 4 + 64 * (16 * q);
    assert val / 16 == r / 16 + 64 * (4 * q);
    assert val / 64 == r / 64 + 64 * q;
    assert val == r + 64 * (64 * q);
    SameLowSextet(r / 4, 16 * q);
    SameLowSextet(r / 16, 4 * q);
    SameLowSextet(r / 64, q);
    SameLowSextet(r, 64 * q);
  }

  lemma SameLowNibble(a: int, k: int)
    ensures (a + 16 * k) % 16 == a % 16
  {
  }

  /** Twelve bits: four of the byte before, and a byte. */
  lemma TwelveBits(low: nat, n: nat)
    requires low < 16 && n < 256
    ensures var r := low * 256 + n; r % 64 == n % 64 && r % 16 == n % 16 && r / 4 % 64 == n / 4
  {
    assert (low * 256 + n) / 4 == low * 64 + n / 4;
    SameLowSextet(n, 4 * low);
    SameLowSextet(n / 4, low);
    SameLowNibble(n, 16 * low);
  }

  lemma TwelveBitsAbove(low: nat, n: nat)
    requires low < 16 && n < 256
    ensures var r := low * 256 + n; r / 16 % 64 == low % 4 * 16 + n / 16 && r / 64 % 64 == low * 4 + n / 64
  {
    assert (low * 256 + n) / 16 == low * 16 + n / 16;
    assert (low * 256 + n) / 64 == low * 4 + n / 64;
    assert low * 16 + n / 16 == low % 4 * 16 + n / 16 + 64 * (low / 4);
    SameLowSextet(low % 4 * 16 + n / 16, low / 4);
  }

  /** The accumulator still holds the low four bits of the byte taken last. */
  predicate Agrees(val: int, b: byte) {
    var n: int := b;
    val % 16 == n % 16
  }

  lemma SomeByteAgrees(val: int) returns (b: byte)
    ensures Agrees(val, b)
  {
    b := val % 16;
  }

  /** The sextets the loop reads from its accumulator, whose low four bits are those of the byte before. */
  lemma AccumulatorSextets(val: int, before: byte, c: byte)
    requires Agrees(val, before)
    ensures var v := Shifted(val, c);
            Sextet(v, 2) == S0(c) && Sextet(v, 4) == S1(before, c) && Sextet(v, 6) == S2(before, c) &&
            Sextet(v, 0) == S3(c) && Agrees(v, c)
  {
    hide Sextet, Shifted;
    var v, n: int, b: int := Shifted(val, c), c, before;
    LowBits(val, c);
    var q, r := v / 4096, v % 4096;
    SextetOfLowBits(v, q, r);
    TwelveBits(b % 16, n);
    TwelveBitsAbove(b % 16, n);
    NibbleHalf(b);
    SameLowNibble(r, 256 * q);
  }

  lemma NibbleHalf(b: nat)
    ensures b % 16 % 4 == b % 4
  {
  }

  /** Only the low four bits of the accumulator matter, so nothing lost above them, by wrapping or otherwise,
      can reach the output. */
  lemma OnlyLowBitsMatter(a: int, b: int, c: byte, shift: nat)
    requires a % 16 == b % 16 && shift in {0, 2, 4, 6}
    ensures Sextet(Shifted(a, c), shift) == Sextet(Shifted(b, c), shift)
    ensures Shifted(a, c) % 16 == Shifted(b, c) % 16
  {
    hide Sextet, Shifted;
    var low: byte := a % 16;
    AccumulatorSextets(a, low, c);
    AccumulatorSextets(b, low, c);
    if shift == 2 { assert Sextet(Shifted(a, c), 2) == Sextet(Shifted(b, c), 2); }
  }

  /** The letters out for an incomplete group, before it is padded. */
  function Open(b: seq<byte>): string
    requires |b| < 3
  {
    if |b| == 0 then "" else if |b| == 1 then [Letter(S0(b[0]))] else [Letter(S0(b[0])), Letter(S1(b[0], b[1]))]
  }

  lemma {:induction false} EncodeConcat(a: seq<byte>, b: seq<byte>)
    requires |a| % 3 == 0
    ensures Encode(a + b) == Encode(a) + Encode(b)
    decreases |a|
  {
    hide Letter, S0, S1, S2, S3, Group;
    if a == [] {
      assert a + b == b;
    } else {
      assert (a + b)[3..] == a[3..] + b;
      EncodeConcat(a[3..], b);
      assert Group(a[0], a[1], a[2]) + (Encode(a[3..]) + Encode(b)) ==
             Group(a[0], a[1], a[2]) + Encode(a[3..]) + Encode(b);
    }
  }

  /** What one byte appends, and how the open group goes on. */
  lemma NextByte(val: int, open: seq<byte>, c: byte)
    requires |open| < 3 && (open != [] ==> Agrees(val, open[|open| - 1]))
    ensures var out := Open(open) + Emitted(Shifted(val, c), 2 + 2 * |open|);
            if |open| < 2 then out == Open(open + [c])
            else out == Group(open[0], open[1], c)
    ensures Agrees(Shifted(val, c), c)
  {
    hide *;
    var before := SomeByteAgrees(val);
    if open != [] { before := open[|open| - 1]; }
    AccumulatorSextets(val, before, c);
    var v := Shifted(val, c);
    EmittedLetters(v);
    OpenLetters(open, c);
    assert open == [] ==> "" + Emitted(v, 2) == Emitted(v, 2);
  }

  lemma OpenLetters(open: seq<byte>, c: byte)
    requires |open| < 3
    ensures if |open| == 0 then Open(open) == "" && Open(open + [c]) == [Letter(S0(c))]
            else if |open| == 1 then Open(open + [c]) == Open(open) + [Letter(S1(open[0], c))]
            else Group(open[0], open[1], c) == Open(open) + [Letter(S2(open[1], c)), Letter(S3(c))]
  {
    hide Letter, S0, S1, S2, S3;
  }

  lemma EmittedLetters(v: int)
    ensures Emitted(v, 2) == [Letter(Sextet(v, 2))]
    ensures Emitted(v, 4) == [Letter(Sextet(v, 4))]
    ensures Emitted(v, 6) == [Letter(Sextet(v, 6)), Letter(Sextet(v, 0))]
  {
    hide Letter, Sextet;
  }

  /** The inner loop: a letter for every six bits that are there. */
  method EmitLetters(before: string, val: int, top: nat) returns (out: string, valb: int)
    requires top in {2, 4, 6}
    ensures out == before + Emitted(val, top)
    ensures valb == if top == 6 then -6 else top - 6
  {
    hide Letter, Sextet, Emitted;
    out, valb := before, top;
    while valb >= 0
      invariant valb == top || valb == top - 6 || (valb == top - 12 && top == 6)
      invariant out + Emitted(val, valb) == before + Emitted(val, top)
    {
      EmitOne(out, val, valb);
      out := out + [Letter(Sextet(val, valb))];
      valb := valb - 6;
    }
    EmitNone(out, val, valb);
  }

  method PadToFour(unpadded: string) returns (out: string)
    ensures out == unpadded + Padding((4 - |unpadded| % 4) % 4)
  {
    out := unpadded;
    while |out| % 4 != 0
      invariant |unpadded| <= |out| <= |unpadded| + (4 - |unpadded| % 4) % 4
      invariant out == unpadded + Padding(|out| - |unpadded|)
      decreases |unpadded| + 4 - |out|
    {
      assert Padding(|out| - |unpadded|) + "=" == Padding(|out| - |unpadded| + 1);
      out := out + "=";
    }
  }

  method EncodeCredentials(creds: seq<byte>) returns (out: string)
    ensures out == Encode(creds)
    ensures Decode(out) == Some(creds)
  {
    hide Letter, Sextet, S0, S1, S2, S3, Group, Decode, Encode, Shifted, Open, Agrees, Emitted;
    var val, valb := 0, -6;
    out := "";
    ghost var whole, open: seq<byte> := [], [];
    OpenNothing();
    var i := 0;
    while i < |creds|
      invariant 0 <= i <= |creds| && whole + open == creds[..i]
      invariant |open| < 3 && |whole| % 3 == 0 && valb == 2 * |open| - 6
      invariant out == Encode(whole) + Open(open)
      invariant open != [] ==> Agrees(val, open[|open| - 1])
    {
      ghost var before, c, letters := out, creds[i], Emitted(Shifted(val, creds[i]), 2 + 2 * |open|);
      NextByte(val, open, c);
      val, valb := Shifted(val, creds[i]), valb + 8;
      out, valb := EmitLetters(out, val, valb);
      Appended(Encode(whole), Open(open), letters);
      assert creds[..i + 1] == creds[..i] + [c];
      if |open| < 2 {
        assert whole + (open + [c]) == whole + open + [c];
        open := open + [c];
      } else {
        var group := [open[0], open[1], c];
        EncodeConcat(whole, group);
        EncodeThree(open[0], open[1], c);
        assert whole + group == whole + open + [c];
        OpenNothing();
        Appended(Encode(whole + group), "", "");
        whole, open := whole + group, [];
      }
      i := i + 1;
    }
    assert creds[..i] == creds;
    EncodeConcat(whole, open);
    EncodedLength(whole);
    LastGroup(val, open);
    if valb > -6 {
      out := out + [Letter(Sextet(Shifted(val, 0), valb + 8))];
    }
    out := PadToFour(out);
    DecodeEncode(creds);
  }

  lemma EmitOne(out: string, val: int, valb: nat)
    ensures out + [Letter(Sextet(val, valb))] + Emitted(val, valb - 6) == out + Emitted(val, valb)
  {
    hide Letter, Sextet;
    assert out + ([Letter(Sextet(val, valb))] + Emitted(val, valb - 6)) ==
           out + [Letter(Sextet(val, valb))] + Emitted(val, valb - 6);
  }

  lemma EmitNone(out: string, val: int, valb: int)
    requires valb < 0
    ensures out + Emitted(val, valb) == out
  {
  }

  lemma Appended(a: string, b: string, c: string)
    ensures a + b + c == a + (b + c) && a + "" == a
  {
    assert a + b + c == a + (b + c);
  }

  function Padding(n: nat): string { seq(n, _ => '=') }

  lemma OpenNothing()
    ensures Open([]) == "" && Encode([]) == ""
  {
  }

  lemma EncodeThree(x: byte, y: byte, z: byte)
    ensures Encode([x, y, z]) == Group(x, y, z)
  {
    hide Group;
    assert [x, y, z][3..] == [];
  }

  lemma LastGroup(val: int, open: seq<byte>)
    requires |open| < 3
    requires open != [] ==> Agrees(val, open[|open| - 1])
    ensures |Open(open)| == |open|
    ensures open != [] ==>
              Encode(open) == Open(open) + [Letter(Sextet(Shifted(val, 0), 2 + 2 * |open|))] + Padding(3 - |open|)
  {
    hide Letter, Sextet, Shifted, S0, S1, S2, S3, Agrees;
    if open != [] {
      AccumulatorSextets(val, open[|open| - 1], 0);
      if |open| == 1 { assert Padding(2) == ['=', '=']; } else { assert Padding(1) == ['=']; }
    }
  }
}
