/** Which cue texts are announced as SCTE-35: printed bytes, in hexadecimal or in Base64. */
module ScteCues {
  import opened Text
  import opened Bytes
  import Base64
  import opened AttributeList
  import opened BreakState
  import opened DateRange
  import opened DateRangeClient
  import opened BreakLifecycle

  // ---------- bytes in hexadecimal ----------

  function HexChar(v: nat, upper: bool): char
    requires v < 16
  {
    if v < 10 then (48 + v) as char else if upper then (55 + v) as char else (87 + v) as char
  }

  function HexValue(c: char): Option<nat>
    ensures HexValue(c).Some? ==> HexValue(c).value < 16
  {
    var v := c as int;
    if 48 <= v < 58 then Some(v - 48) else if 65 <= v < 71 then Some(v - 55)
    else if 97 <= v < 103 then Some(v - 87) else None
  }

  /** Two digits a byte. */
  function HexText(b: seq<byte>, upper: bool): (s: string)
    ensures |s| == 2 * |b|
  {
    if b == [] then ""
    else
      var v: int := b[0];
      [HexChar(v / 16, upper), HexChar(v % 16, upper)] + HexText(b[1..], upper)
  }

  function DecodeHex(s: string): Option<seq<byte>> {
    if s == "" then Some([])
    else if |s| == 1 then None
    else
      var x, y, rest := HexValue(s[0]), HexValue(s[1]), DecodeHex(s[2..]);
      if x.None? || y.None? || rest.None? then None
      else
        var v: int := 16 * x.value + y.value;
        Some([v] + rest.value)
  }

  lemma HexCharValue(v: nat, upper: bool)
    requires v < 16
    ensures HexValue(HexChar(v, upper)) == Some(v) && !IsBlank(HexChar(v, upper)) && HexChar(v, upper) != 'x'
    ensures HexChar(v, upper) != 'X'
  {
  }

  lemma {:induction false} DecodeHexText(b: seq<byte>, upper: bool)
    ensures DecodeHex(HexText(b, upper)) == Some(b)
  {
    hide HexChar, HexValue;
    if b != [] {
      var v: int := b[0];
      DecodeHexText(b[1..], upper);
      HexCharValue(v / 16, upper);
      HexCharValue(v % 16, upper);
      var s := HexText(b, upper);
      assert s[0] == HexChar(v / 16, upper) && s[1] == HexChar(v % 16, upper) && s[2..] == HexText(b[1..], upper);
      assert 16 * (v / 16) + v % 16 == v;
      assert [b[0]] + b[1..] == b;
    }
  }

  lemma {:induction false} HexHasNoBlank(b: seq<byte>, upper: bool)
    ensures forall c | c in HexText(b, upper) :: !IsBlank(c) && c != 'x' && c != 'X' && HexValue(c).Some?
  {
    hide HexChar, HexValue, IsBlank;
    if b != [] {
      var v: int := b[0];
      HexHasNoBlank(b[1..], upper);
      HexCharValue(v / 16, upper);
      HexCharValue(v % 16, upper);
    }
  }

  predicate AllHex(s: string) { forall c | c in s :: HexValue(c).Some? }

  lemma {:induction false} DecodesHexIff(s: string)
    ensures DecodeHex(s).Some? <==> |s| % 2 == 0 && AllHex(s)
  {
    hide HexValue;
    if |s| >= 2 {
      DecodesHexIff(s[2..]);
      assert s == [s[0], s[1]] + s[2..];
    }
  }

  // ---------- what looks like SCTE-35 ----------

  /** The letters of Base64 in either alphabet (RFC 4648, sections 4 and 5) and the padding. */
  predicate AllBase64(s: string) { forall c | c in s :: Base64.ValueOf(c).Some? || c in "=-_" }

  predicate HasPrefix(s: string) { |s| > 1 && s[0] == '0' && (s[1] == 'x' || s[1] == 'X') }

  /** After trimming, sixteen characters or more: behind "0x" hexadecimal digits alone; otherwise whole bytes in
      hexadecimal, or Base64 letters with a plus, a slash or a padding sign among them. */
  lemma LooksLikeScte35Iff(raw: string)
    ensures var s := TrimCopy(raw);
            LooksLikeScte35(raw) <==>
            |s| >= 16 &&
            if HasPrefix(s) then AllHex(s[2..])
            else DecodeHex(s).Some? || (AllBase64(s) && ('+' in s || '/' in s || '=' in s))
  {
    hide TrimCopy, DecodeHex;
    var s := TrimCopy(raw);
    DecodesHexIff(s);
    assert forall c :: IsHex(c) <==> HexValue(c).Some?;
    assert forall c :: IsBase64Char(c) <==> Base64.ValueOf(c).Some? || c in "=-_";
    assert ("0x" <= s || "0X" <= s) <==> HasPrefix(s);
  }

  lemma NoBlankStays(s: string)
    requires forall c | c in s :: !IsBlank(c)
    ensures TrimCopy(s) == s
  {
    hide IsBlank, TrimBy;
    TrimTrimmed(s, IsBlank);
  }

  /** Eight bytes or more in hexadecimal do, of either case. */
  lemma HexIsAccepted(b: seq<byte>, upper: bool)
    requires |b| >= 8
    ensures LooksLikeScte35(HexText(b, upper))
  {
    hide HexValue, HexText, TrimCopy, LooksLikeScte35;
    var s := HexText(b, upper);
    HexHasNoBlank(b, upper);
    NoBlankStays(s);
    DecodeHexText(b, upper);
    LooksLikeScte35Iff(s);
  }

  /** With "0x" in front seven bytes are enough, and the digits need not come in pairs. */
  lemma PrefixedIsAccepted(h: string)
    requires |h| >= 14 && AllHex(h)
    ensures LooksLikeScte35("0x" + h) && LooksLikeScte35("0X" + h)
  {
    hide TrimCopy, LooksLikeScte35;
    NoBlankStays("0x" + h);
    NoBlankStays("0X" + h);
    LooksLikeScte35Iff("0x" + h);
    LooksLikeScte35Iff("0X" + h);
    assert ("0x" + h)[2..] == h && ("0X" + h)[2..] == h;
  }

  lemma LetterIsBase64(v: Base64.sextet)
    ensures Base64.ValueOf(Base64.Letter(v)).Some? && !IsBlank(Base64.Letter(v))
  {
  }

  lemma PaddingIsNoBlank()
    ensures !IsBlank('=')
  {
  }

  lemma {:induction false} EncodedIsBase64(b: seq<byte>)
    ensures forall c | c in Base64.Encode(b) :: (Base64.ValueOf(c).Some? || c == '=') && !IsBlank(c)
  {
    hide Base64.Letter, Base64.ValueOf, IsBlank;
    forall v: Base64.sextet ensures Base64.ValueOf(Base64.Letter(v)).Some? && !IsBlank(Base64.Letter(v)) {
      LetterIsBase64(v);
    }
    PaddingIsNoBlank();
    if |b| >= 3 { EncodedIsBase64(b[3..]); }
  }

  /** Bytes in Base64 do if there are ten or more, a plus, slash or padding sign comes up, and the text does not by
      chance begin like a hexadecimal one. */
  lemma Base64IsAccepted(b: seq<byte>)
    requires |b| >= 10
    ensures var s := Base64.Encode(b);
            !HasPrefix(s) && ('+' in s || '/' in s || '=' in s) ==> LooksLikeScte35(s)
  {
    hide Base64.Encode, Base64.ValueOf, TrimCopy, LooksLikeScte35, DecodeHex;
    var s := Base64.Encode(b);
    Base64.EncodedLength(b);
    EncodedIsBase64(b);
    NoBlankStays(s);
    LooksLikeScte35Iff(s);
  }

  // ---------- splice sections ----------

  /** A splice information section: its first byte is the table id of SCTE 35. */
  ghost predicate IsSection(b: seq<byte>) { |b| >= 10 && b[0] == 0xFC }

  lemma SectionStartsWithSlash(b: seq<byte>)
    requires IsSection(b)
    ensures |Base64.Encode(b)| > 0 && Base64.Encode(b)[0] == '/'
  {
  }

  /** Printed in hexadecimal, in either case and with "0x" or without, or in Base64. */
  ghost predicate Prints(cue: string, b: seq<byte>) {
    cue == Base64.Encode(b) ||
    exists upper :: cue == HexText(b, upper) || cue == "0x" + HexText(b, upper) || cue == "0X" + HexText(b, upper)
  }

  /** Every section is recognised, however it is printed. */
  lemma SectionIsAccepted(b: seq<byte>, cue: string)
    requires IsSection(b) && Prints(cue, b)
    ensures LooksLikeScte35(cue) && cue != ""
  {
    hide LooksLikeScte35, HexText, Base64.Encode, HexValue;
    if cue == Base64.Encode(b) {
      SectionStartsWithSlash(b);
      Base64IsAccepted(b);
    } else {
      var upper :| cue == HexText(b, upper) || cue == "0x" + HexText(b, upper) || cue == "0X" + HexText(b, upper);
      HexIsAccepted(b, upper);
      HexHasNoBlank(b, upper);
      PrefixedIsAccepted(HexText(b, upper));
    }
  }

  /** So a break that such a cue opens is announced with SCTE35-OUT, the text as it came; and one that such a cue closes
      with SCTE35-IN. */
  lemma SectionIsAnnounced(encoder: int, start: Cue, end: Cue, b: seq<byte>)
    requires IsSection(b)
    ensures Prints(start.cue, b) ==>
              Lookup(Attrs(OpenBreak(encoder, start)), "SCTE35-OUT") == Some(Quoted(start.cue)) &&
              Lookup(Attrs(ClosedBreak(encoder, start, end)), "SCTE35-OUT") == Some(Quoted(start.cue))
    ensures Prints(end.cue, b) ==>
              Lookup(Attrs(ClosedBreak(encoder, start, end)), "SCTE35-IN") == Some(Quoted(end.cue))
  {
    hide Prints, LooksLikeScte35, Lookup, Attrs, FreshId, TellsTimes;
    if Prints(start.cue, b) { SectionIsAccepted(b, start.cue); }
    if Prints(end.cue, b) { SectionIsAccepted(b, end.cue); }
    RecordIsTold(OpenBreak(encoder, start));
    RecordIsTold(ClosedBreak(encoder, start, end));
  }
}
