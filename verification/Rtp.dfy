/** The RTP reader behind the input meter: header walk, payload, big-endian stereo samples and their energy. */
module Rtp {
  import opened Bytes
  import opened Text

  // ---------- big-endian numbers ----------

  type u16 = v: int | 0 <= v < 0x1_0000
  type u32 = v: int | 0 <= v < 0x1_0000_0000

  function Be16(v: u16): (r: seq<byte>)
    ensures |r| == 2
  {
    [v / 256, v % 256]
  }

  function Be32(v: u32): (r: seq<byte>)
    ensures |r| == 4
  {
    Be16(v / 0x1_0000) + Be16(v % 0x1_0000)
  }

  function From16(b: seq<byte>): u16
    requires |b| == 2
  {
    var hi: int, lo: int := b[0], b[1];
    hi * 256 + lo
  }

  function From32(b: seq<byte>): u32
    requires |b| == 4
  {
    From16(b[..2]) * 0x1_0000 + From16(b[2..])
  }

  lemma Be16RoundTrip(v: u16, b: seq<byte>)
    requires |b| == 2
    ensures From16(Be16(v)) == v && Be16(From16(b)) == b
  {
  }

  lemma Be32RoundTrip(v: u32, b: seq<byte>)
    requires |b| == 4
    ensures From32(Be32(v)) == v && Be32(From32(b)) == b
  {
    hide Be16, From16;
    assert Be32(v)[..2] == Be16(v / 0x1_0000) && Be32(v)[2..] == Be16(v % 0x1_0000);
    Be16RoundTrip(v / 0x1_0000, b[..2]);
    Be16RoundTrip(v % 0x1_0000, b[2..]);
  }

  // ---------- samples ----------

  datatype Depth = L16 | L24

  function Width(d: Depth): nat { if d == L24 then 3 else 2 }

  function FrameBytes(d: Depth): nat { Width(d) * 2 }

  predicate InRange(v: int, d: Depth) {
    if d == L24 then -0x80_0000 <= v < 0x80_0000 else -0x8000 <= v < 0x8000
  }

  /** Two's complement at the given depth, most significant byte first. */
  function EncodeSample(v: int, d: Depth): (r: seq<byte>)
    requires InRange(v, d)
    ensures |r| == Width(d)
  {
    if d == L24 then
      var u := if v < 0 then v + 0x100_0000 else v;
      [u / 0x1_0000] + Be16(u % 0x1_0000)
    else
      var u := if v < 0 then v + 0x1_0000 else v;
      Be16(u)
  }

  function Signed16(p0: byte, p1: byte): int {
    var hi: int, lo: int := p0, p1;
    var u := hi * 256 + lo;
    if u / 0x8000 % 2 == 1 then u - 0x1_0000 else u
  }

  /** Sign extension by setting the upper byte of a 32-bit word. */
  function Signed24(p0: byte, p1: byte, p2: byte): int {
    var hi: int, mid: int, lo: int := p0, p1, p2;
    var u := hi * 0x1_0000 + mid * 256 + lo;
    if u / 0x80_0000 % 2 == 1 then u + 0xFF00_0000 - 0x1_0000_0000 else u
  }

  function DecodeSample(b: seq<byte>, d: Depth): int
    requires |b| == Width(d)
  {
    if d == L24 then Signed24(b[0], b[1], b[2]) else Signed16(b[0], b[1])
  }

  /** Every byte pattern is exactly one sample, and every sample in range one pattern. */
  lemma SampleRoundTrip(v: int, b: seq<byte>, d: Depth)
    requires |b| == Width(d)
    ensures InRange(v, d) ==> DecodeSample(EncodeSample(v, d), d) == v
    ensures InRange(DecodeSample(b, d), d) && EncodeSample(DecodeSample(b, d), d) == b
  {
    hide EncodeSample, DecodeSample;
    if d == L24 {
      if InRange(v, d) { Encoded24(v); }
      Decoded24(b);
    } else {
      if InRange(v, d) { Encoded16(v); }
      Decoded16(b);
    }
  }

  lemma Encoded16(v: int)
    requires InRange(v, L16)
    ensures DecodeSample(EncodeSample(v, L16), L16) == v
  {
    var u := if v < 0 then v + 0x1_0000 else v;
    assert (u / 256) * 256 + u % 256 == u;
  }

  lemma Decoded16(b: seq<byte>)
    requires |b| == 2
    ensures InRange(DecodeSample(b, L16), L16) && EncodeSample(DecodeSample(b, L16), L16) == b
  {
    hide Be16;
    Be16RoundTrip(0, b);
    var hi: int, lo: int := b[0], b[1];
    var u := hi * 256 + lo;
    assert u / 0x8000 % 2 == 1 <==> u >= 0x8000;
    assert From16(b) == u;
  }

  lemma Encoded24(v: int)
    requires InRange(v, L24)
    ensures DecodeSample(EncodeSample(v, L24), L24) == v
  {
    hide Be16;
    var u := if v < 0 then v + 0x100_0000 else v;
    var e := EncodeSample(v, L24);
    assert e[1..] == Be16(u % 0x1_0000);
    Be16RoundTrip(u % 0x1_0000, e[1..]);
    Signed24Value(e[0], e[1], e[2], u);
  }

  lemma Signed24Value(p0: byte, p1: byte, p2: byte, u: nat)
    requires From16([p1, p2]) == u % 0x1_0000 && p0 == u / 0x1_0000 && u < 0x100_0000
    ensures Signed24(p0, p1, p2) == if u >= 0x80_0000 then u - 0x100_0000 else u
  {
    var hi: int, mid: int, lo: int := p0, p1, p2;
    assert mid * 256 + lo == u % 0x1_0000;
    assert hi * 0x1_0000 + mid * 256 + lo == u;
    assert u / 0x80_0000 % 2 == 1 <==> u >= 0x80_0000;
  }

  lemma Decoded24(b: seq<byte>)
    requires |b| == 3
    ensures InRange(DecodeSample(b, L24), L24) && EncodeSample(DecodeSample(b, L24), L24) == b
  {
    hide Be16;
    var hi: int := b[0];
    var u := hi * 0x1_0000 + From16(b[1..]);
    assert b[1..] == [b[1], b[2]];
    assert u / 0x1_0000 == hi && u % 0x1_0000 == From16(b[1..]);
    Signed24Value(b[0], b[1], b[2], u);
    Be16RoundTrip(0, b[1..]);
    assert b == [b[0]] + b[1..];
  }

  datatype Stereo = Stereo(left: int, right: int)

  predicate StereoOk(s: Stereo, d: Depth) { InRange(s.left, d) && InRange(s.right, d) }

  function EncodeFrame(s: Stereo, d: Depth): (r: seq<byte>)
    requires StereoOk(s, d)
    ensures |r| == FrameBytes(d)
  {
    EncodeSample(s.left, d) + EncodeSample(s.right, d)
  }

  function EncodeFrames(frames: seq<Stereo>, d: Depth): seq<byte>
    requires forall s | s in frames :: StereoOk(s, d)
  {
    if frames == [] then [] else EncodeFrame(frames[0], d) + EncodeFrames(frames[1..], d)
  }

  function DecodeFrame(b: seq<byte>, d: Depth): Stereo
    requires |b| == FrameBytes(d)
  {
    Stereo(DecodeSample(b[..Width(d)], d), DecodeSample(b[Width(d)..], d))
  }

  /** Whole frames only: a rest shorter than a frame is not looked at. */
  function Frames(payload: seq<byte>, d: Depth): seq<Stereo>
    decreases |payload|
  {
    if |payload| < FrameBytes(d) then []
    else [DecodeFrame(payload[..FrameBytes(d)], d)] + Frames(payload[FrameBytes(d)..], d)
  }

  lemma FrameRoundTrip(s: Stereo, d: Depth)
    requires StereoOk(s, d)
    ensures DecodeFrame(EncodeFrame(s, d), d) == s
  {
    hide EncodeSample, DecodeSample;
    var l, r := EncodeSample(s.left, d), EncodeSample(s.right, d);
    assert (l + r)[..Width(d)] == l && (l + r)[Width(d)..] == r;
    SampleRoundTrip(s.left, l, d);
    SampleRoundTrip(s.right, r, d);
  }

  /** The samples that were encoded come back, whatever incomplete frame follows them. */
  lemma {:induction false} FramesRoundTrip(frames: seq<Stereo>, partial: seq<byte>, d: Depth)
    requires (forall s | s in frames :: StereoOk(s, d)) && |partial| < FrameBytes(d)
    ensures Frames(EncodeFrames(frames, d) + partial, d) == frames
  {
    hide EncodeFrame, DecodeFrame;
    if frames == [] {
      assert [] + partial == partial;
    } else {
      var f, rest := EncodeFrame(frames[0], d), EncodeFrames(frames[1..], d) + partial;
      assert EncodeFrames(frames, d) + partial == f + rest;
      assert (f + rest)[..FrameBytes(d)] == f && (f + rest)[FrameBytes(d)..] == rest;
      FrameRoundTrip(frames[0], d);
      FramesRoundTrip(frames[1..], partial, d);
    }
  }

  // ---------- packets ----------

  datatype Extension = Extension(profile: u16, data: seq<byte>)

  /** An RTP packet of payload type 96 by its fields (RFC 3550 sections 5.1 and 5.3.1); `filler` is the padding
      without its final count byte. */
  datatype Packet = Packet(marker: bool, sequence: u16, timestamp: u32, ssrc: u32, csrcs: seq<u32>,
                           extension: Option<Extension>, payload: seq<byte>, filler: Option<seq<byte>>)

  ghost predicate PacketOk(p: Packet) {
    |p.csrcs| <= 15 &&
    (p.extension.Some? ==> |p.extension.value.data| % 4 == 0 && |p.extension.value.data| / 4 < 0x1_0000) &&
    (p.filler.Some? ==> |p.filler.value| < 255)
  }

  function Words(ws: seq<u32>): (r: seq<byte>)
    ensures |r| == 4 * |ws|
  {
    if ws == [] then [] else Be32(ws[0]) + Words(ws[1..])
  }

  function FromWords(b: seq<byte>): (r: seq<u32>)
    requires |b| % 4 == 0
    ensures |r| == |b| / 4
  {
    if b == [] then [] else [From32(b[..4])] + FromWords(b[4..])
  }

  lemma {:induction false} WordsOfFromWords(b: seq<byte>)
    requires |b| % 4 == 0
    ensures Words(FromWords(b)) == b
    decreases |b|
  {
    hide Be32, From32;
    if b != [] {
      WordsOfFromWords(b[4..]);
      Be32RoundTrip(0, b[..4]);
      assert b == b[..4] + b[4..];
      assert FromWords(b)[1..] == FromWords(b[4..]);
    }
  }

  function Flag(on: bool, weight: nat): nat { if on then weight else 0 }

  function FirstByte(p: Packet): nat { 128 + Flag(p.filler.Some?, 32) + Flag(p.extension.Some?, 16) + |p.csrcs| }

  lemma FirstByteFits(p: Packet)
    requires PacketOk(p)
    ensures FirstByte(p) < 256
    ensures var b := FirstByte(p);
            b / 64 == 2 && (p.filler.Some? <==> b / 32 % 2 == 1) && (p.extension.Some? <==> b / 16 % 2 == 1) &&
            b % 16 == |p.csrcs|
  {
  }

  ghost function Fixed(p: Packet): (r: seq<byte>)
    requires PacketOk(p)
    ensures |r| == 12
  {
    FirstByteFits(p);
    [FirstByte(p), Flag(p.marker, 128) + 96] + Be16(p.sequence) + Be32(p.timestamp) + Be32(p.ssrc)
  }

  ghost function ExtensionBytes(e: Option<Extension>): (r: seq<byte>)
    requires e.Some? ==> |e.value.data| % 4 == 0 && |e.value.data| / 4 < 0x1_0000
    ensures |r| == if e.Some? then 4 + |e.value.data| else 0
  {
    if e.None? then [] else Be16(e.value.profile) + Be16(|e.value.data| / 4) + e.value.data
  }

  ghost function PaddingBytes(f: Option<seq<byte>>): (r: seq<byte>)
    requires f.Some? ==> |f.value| < 255
    ensures |r| == if f.Some? then |f.value| + 1 else 0
  {
    if f.None? then [] else f.value + [|f.value| + 1]
  }

  ghost function Head(p: Packet): (r: seq<byte>)
    requires PacketOk(p)
    ensures |r| == 12 + 4 * |p.csrcs| + |ExtensionBytes(p.extension)|
  {
    Fixed(p) + Words(p.csrcs) + ExtensionBytes(p.extension)
  }

  ghost function Build(p: Packet): seq<byte>
    requires PacketOk(p)
  {
    Head(p) + p.payload + PaddingBytes(p.filler)
  }

  // ---------- the header walk ----------

  datatype Span = Span(start: nat, length: nat)

  /** Where the payload lies, without a minimum for it. */
  function Locate(b: seq<byte>): (r: Option<Span>)
    ensures r.Some? ==> 12 <= r.value.start <= r.value.start + r.value.length <= |b|
  {
    if |b| < 16 then None
    else
      var b0: int, b1: int := b[0], b[1];
      if b0 / 64 != 2 || b1 % 128 != 96 then None
      else
        var fixed := 12 + b0 % 16 * 4;
        if |b| <= fixed then None
        else if b0 / 16 % 2 == 0 then Unpad(b, fixed, b0 / 32 % 2 == 1)
        else if |b| < fixed + 4 then None
        else
          var hi: int, lo: int := b[fixed + 2], b[fixed + 3];
          var head := fixed + 4 + (hi * 256 + lo) * 4;
          if |b| <= head then None else Unpad(b, head, b0 / 32 % 2 == 1)
  }

  function Unpad(b: seq<byte>, head: nat, padded: bool): (r: Option<Span>)
    requires head < |b|
    ensures r.Some? ==> r.value.start == head && head + r.value.length <= |b|
  {
    if !padded then Some(Span(head, |b| - head))
    else
      var pad: int := b[|b| - 1];
      if pad == 0 || pad > |b| - head then None else Some(Span(head, |b| - head - pad))
  }

  /** A packet of at least 16 bytes with something after its header is located, and located correctly. */
  lemma LocateBuild(p: Packet)
    requires PacketOk(p)
    ensures Locate(Build(p)) ==
            if |Build(p)| < 16 || |Build(p)| == |Head(p)| then None else Some(Span(|Head(p)|, |p.payload|))
    ensures Build(p)[|Head(p)|..|Head(p)| + |p.payload|] == p.payload
  {
    hide FirstByte, Fixed, Words, ExtensionBytes, Unpad;
    var b := Build(p);
    FirstByteFits(p);
    assert b[..12] == Fixed(p);
    FixedStart(p);
    assert b[0] == Fixed(p)[0] && b[1] == Fixed(p)[1];
    var fixed := 12 + 4 * |p.csrcs|;
    if p.extension.Some? {
      assert b[fixed..fixed + |ExtensionBytes(p.extension)|] == ExtensionBytes(p.extension);
      ExtensionLength(p.extension.value, b, fixed);
    }
    if |b| > |Head(p)| { UnpadBuild(p); }
  }

  lemma FixedStart(p: Packet)
    requires PacketOk(p)
    ensures Fixed(p)[0] == FirstByte(p) && Fixed(p)[1] == Flag(p.marker, 128) + 96
  {
    hide FirstByte, Be16, Be32;
  }

  lemma UnpadBuild(p: Packet)
    requires PacketOk(p) && |Build(p)| > |Head(p)|
    ensures Unpad(Build(p), |Head(p)|, p.filler.Some?) == Some(Span(|Head(p)|, |p.payload|))
  {
    hide Head;
    var b := Build(p);
    if p.filler.Some? {
      assert b[|b| - 1] == |p.filler.value| + 1;
    }
  }

  lemma ExtensionLength(e: Extension, b: seq<byte>, at: nat)
    requires |e.data| % 4 == 0 && |e.data| / 4 < 0x1_0000 && at + 4 + |e.data| <= |b|
    requires b[at..at + 4 + |e.data|] == ExtensionBytes(Some(e))
    ensures var hi: int, lo: int := b[at + 2], b[at + 3]; (hi * 256 + lo) * 4 == |e.data|
  {
    var x := ExtensionBytes(Some(e));
    assert b[at + 2] == x[2] && b[at + 3] == x[3];
    assert x[2..4] == Be16(|e.data| / 4);
  }

  // ---------- only packets are accepted ----------

  ghost function ReadExtension(b: seq<byte>, at: nat): Option<Extension>
    requires |b| >= at + 4
  {
    var hi: int, lo: int := b[at + 2], b[at + 3];
    if |b| < at + 4 + (hi * 256 + lo) * 4 then None
    else Some(Extension(From16(b[at..at + 2]), b[at + 4..at + 4 + (hi * 256 + lo) * 4]))
  }

  ghost function ReadPacket(b: seq<byte>): Packet
    requires Locate(b).Some?
  {
    var span := Locate(b).value;
    var b0: int, b1: int := b[0], b[1];
    var fixed := 12 + b0 % 16 * 4;
    Packet(b1 >= 128, From16(b[2..4]), From32(b[4..8]), From32(b[8..12]), FromWords(b[12..fixed]),
           if b0 / 16 % 2 == 1 then ReadExtension(b, fixed) else None,
           b[span.start..span.start + span.length],
           if b0 / 32 % 2 == 1 then Some(b[span.start + span.length..|b| - 1]) else None)
  }

  lemma ReadExtensionBytes(b: seq<byte>, at: nat)
    requires |b| >= at + 4 && ReadExtension(b, at).Some?
    ensures var e := ReadExtension(b, at);
            |e.value.data| % 4 == 0 && |e.value.data| / 4 < 0x1_0000 &&
            ExtensionBytes(e) == b[at..at + 4 + |e.value.data|]
  {
    var hi: int, lo: int := b[at + 2], b[at + 3];
    var n := (hi * 256 + lo) * 4;
    Be16RoundTrip(0, b[at..at + 2]);
    Be16RoundTrip(0, b[at + 2..at + 4]);
    assert From16(b[at + 2..at + 4]) == n / 4;
    assert b[at..at + 4 + n] == b[at..at + 2] + b[at + 2..at + 4] + b[at + 4..at + 4 + n];
  }

  lemma ReadFixed(b: seq<byte>)
    requires Locate(b).Some?
    ensures PacketOk(ReadPacket(b)) && Fixed(ReadPacket(b)) == b[..12]
    ensures var b0: int := b[0]; Words(ReadPacket(b).csrcs) == b[12..12 + b0 % 16 * 4]
  {
    hide Be16, Be32, From16, From32, Words, FromWords;
    var p := ReadPacket(b);
    var b0: int, b1: int := b[0], b[1];
    var fixed := 12 + b0 % 16 * 4;
    if b0 / 16 % 2 == 1 { ReadExtensionBytes(b, fixed); }
    WordsOfFromWords(b[12..fixed]);
    Be16RoundTrip(0, b[2..4]);
    Be32RoundTrip(0, b[4..8]);
    Be32RoundTrip(0, b[8..12]);
    assert FirstByte(p) == b0;
    assert Flag(p.marker, 128) + 96 == b1;
    assert b[..12] == [b0, b1] + b[2..4] + b[4..8] + b[8..12];
  }

  lemma ReadPadding(b: seq<byte>)
    requires Locate(b).Some? && PacketOk(ReadPacket(b))
    ensures var span := Locate(b).value;
            PaddingBytes(ReadPacket(b).filler) == b[span.start + span.length..]
  {
    hide Words, FromWords, From32, ReadExtension;
    var span := Locate(b).value;
    var b0: int := b[0];
    if b0 / 32 % 2 == 1 {
      assert b[span.start + span.length..] == b[span.start + span.length..|b| - 1] + [b[|b| - 1]];
    }
  }

  lemma ReadHead(b: seq<byte>)
    requires Locate(b).Some?
    ensures PacketOk(ReadPacket(b)) && Head(ReadPacket(b)) == b[..Locate(b).value.start]
  {
    hide Fixed, Words, FromWords, From32, From16, PaddingBytes, ExtensionBytes;
    var p, span := ReadPacket(b), Locate(b).value;
    var b0: int := b[0];
    var fixed := 12 + b0 % 16 * 4;
    ReadFixed(b);
    if b0 / 16 % 2 == 1 {
      ReadExtensionBytes(b, fixed);
      assert ExtensionBytes(p.extension) == b[fixed..span.start];
    } else {
      NoExtension();
      assert b[fixed..span.start] == [];
    }
    assert Head(p) == b[..12] + b[12..fixed] + b[fixed..span.start];
  }

  /** Whatever is located is a packet: rebuilding it from the fields read gives the same bytes. */
  lemma LocatedIsPacket(b: seq<byte>)
    requires Locate(b).Some?
    ensures var p, span := ReadPacket(b), Locate(b).value;
            PacketOk(p) && Build(p) == b && p.payload == b[span.start..span.start + span.length]
  {
    hide PacketOk, Head, PaddingBytes, FromWords, From32, From16, ReadExtension;
    var p, span := ReadPacket(b), Locate(b).value;
    ReadHead(b);
    ReadPadding(b);
    assert b == b[..span.start] + p.payload + b[span.start + span.length..];
  }

  lemma NoExtension()
    ensures ExtensionBytes(None) == []
  {
  }

  // ---------- the meter ----------

  predicate Accepts(b: seq<byte>, d: Depth) { Locate(b).Some? && Locate(b).value.length >= FrameBytes(d) }

  /** Accepted are exactly the packets of type 96 that carry at least one frame. */
  lemma AcceptsIff(b: seq<byte>, d: Depth)
    ensures Accepts(b, d) <==> exists p :: PacketOk(p) && Build(p) == b && |p.payload| >= FrameBytes(d)
  {
    hide Locate, Build, Head;
    if Accepts(b, d) { LocatedIsPacket(b); }
    forall p | PacketOk(p) && Build(p) == b && |p.payload| >= FrameBytes(d) ensures Accepts(b, d) {
      LocateBuild(p);
      BuildLength(p);
    }
  }

  lemma BuildLength(p: Packet)
    requires PacketOk(p)
    ensures |Build(p)| >= |Head(p)| + |p.payload| && |Head(p)| >= 12
  {
    hide Fixed, Words, ExtensionBytes, PaddingBytes;
  }

  function Energy(values: seq<int>): int {
    if values == [] then 0 else Energy(values[..|values| - 1]) + values[|values| - 1] * values[|values| - 1]
  }

  function Lefts(frames: seq<Stereo>): seq<int> { seq(|frames|, i requires 0 <= i < |frames| => frames[i].left) }

  function Rights(frames: seq<Stereo>): seq<int> { seq(|frames|, i requires 0 <= i < |frames| => frames[i].right) }

  lemma EnergyAppend(frames: seq<Stereo>, s: Stereo)
    ensures Energy(Lefts(frames + [s])) == Energy(Lefts(frames)) + s.left * s.left
    ensures Energy(Rights(frames + [s])) == Energy(Rights(frames)) + s.right * s.right
  {
    assert Lefts(frames + [s])[..|frames|] == Lefts(frames);
    assert Rights(frames + [s])[..|frames|] == Rights(frames);
  }

  lemma {:induction false} FrameAt(payload: seq<byte>, d: Depth, i: nat)
    requires (i + 1) * FrameBytes(d) <= |payload|
    ensures i < |Frames(payload, d)| && |Frames(payload, d)| == |payload| / FrameBytes(d)
    ensures Frames(payload, d)[i] == DecodeFrame(payload[i * FrameBytes(d)..(i + 1) * FrameBytes(d)], d)
    decreases |payload|
  {
    hide DecodeFrame;
    var n := FrameBytes(d);
    FramesCount(payload, d);
    if i > 0 {
      SliceBehind(payload, n, i);
      FrameAt(payload[n..], d, i - 1);
    }
  }

  lemma SliceBehind(payload: seq<byte>, n: nat, i: nat)
    requires i > 0 && (i + 1) * n <= |payload|
    ensures n <= (i + 1) * n && 0 <= (i - 1) * n <= i * n == (i - 1) * n + n && i * n <= (i + 1) * n
    ensures i * n <= |payload| - n && payload[n..][(i - 1) * n..i * n] == payload[i * n..(i + 1) * n]
  {
    var a := (i - 1) * n;
    assert i * n == a + n && (i + 1) * n == a + n + n;
    assert payload[n..][a..a + n] == payload[a + n..a + n + n];
  }

  lemma {:induction false} FramesCount(payload: seq<byte>, d: Depth)
    ensures |Frames(payload, d)| == |payload| / FrameBytes(d)
    decreases |payload|
  {
    hide DecodeFrame;
    if |payload| >= FrameBytes(d) { FramesCount(payload[FrameBytes(d)..], d); }
  }

  lemma FrameBytesPositive(d: Depth)
    ensures FrameBytes(d) > 0
  {
  }

  lemma Advance(i: nat, frames: nat, d: Depth, length: nat)
    requires i < frames == length / FrameBytes(d)
    ensures 0 <= i * FrameBytes(d) && (i + 1) * FrameBytes(d) == i * FrameBytes(d) + FrameBytes(d) <= length
  {
  }

  lemma SliceOfSlice(b: seq<byte>, start: nat, length: nat, i: nat, n: nat)
    requires start + length <= |b| && i + n <= length
    ensures b[start..start + length][i..i + n] == b[start + i..start + i + n]
  {
    var inner, outer := b[start..start + length][i..i + n], b[start + i..start + i + n];
    forall k | 0 <= k < n ensures inner[k] == outer[k] {
      assert inner[k] == b[start..start + length][i + k] == b[start + (i + k)];
    }
    assert inner == outer;
  }

  method StereoAt(data: seq<byte>, at: nat, d: Depth) returns (l: int, r: int)
    requires at + FrameBytes(d) <= |data|
    ensures DecodeFrame(data[at..at + FrameBytes(d)], d) == Stereo(l, r)
  {
    if d == L24 {
      l := Signed24(data[at], data[at + 1], data[at + 2]);
      r := Signed24(data[at + 3], data[at + 4], data[at + 5]);
    } else {
      l := Signed16(data[at], data[at + 1]);
      r := Signed16(data[at + 2], data[at + 3]);
    }
  }

  /** The samples of a payload that lies in the packet. */
  function PayloadFrames(data: seq<byte>, span: Span, d: Depth): seq<Stereo>
    requires span.start + span.length <= |data|
  {
    Frames(data[span.start..span.start + span.length], d)
  }

  lemma PayloadFrameAt(data: seq<byte>, span: Span, d: Depth, i: nat)
    requires span.start + span.length <= |data| && i < span.length / FrameBytes(d)
    ensures var fs, at := PayloadFrames(data, span, d), span.start + i * FrameBytes(d);
            |fs| == span.length / FrameBytes(d) && 0 <= at && at + FrameBytes(d) <= |data| &&
            fs[i] == DecodeFrame(data[at..at + FrameBytes(d)], d) && fs[..i + 1] == fs[..i] + [fs[i]]
  {
    hide Frames, DecodeFrame, FrameBytes;
    FrameBytesPositive(d);
    Advance(i, span.length / FrameBytes(d), d, span.length);
    FrameAt(data[span.start..span.start + span.length], d, i);
    SliceOfSlice(data, span.start, span.length, i * FrameBytes(d), FrameBytes(d));
  }

  /** The loop over the whole frames of the payload. */
  method SumFrames(data: seq<byte>, span: Span, d: Depth, frames: nat) returns (lsum: int, rsum: int)
    requires span.start + span.length <= |data| && frames == |PayloadFrames(data, span, d)|
    ensures var fs := PayloadFrames(data, span, d); lsum == Energy(Lefts(fs)) && rsum == Energy(Rights(fs))
  {
    hide PayloadFrames, Energy, Lefts, Rights, DecodeFrame, FrameBytes;
    ghost var fs := PayloadFrames(data, span, d);
    PayloadCount(data, span, d);
    NoEnergy();
    assert fs[..0] == [];
    lsum, rsum := 0, 0;
    for i := 0 to frames
      invariant lsum == Energy(Lefts(fs[..i])) && rsum == Energy(Rights(fs[..i]))
    {
      PayloadFrameAt(data, span, d, i);
      var l, r := StereoAt(data, span.start + i * FrameBytes(d), d);
      lsum, rsum := lsum + l * l, rsum + r * r;
      EnergyAppend(fs[..i], fs[i]);
    }
    assert fs[..frames] == fs;
  }

  lemma PayloadCount(data: seq<byte>, span: Span, d: Depth)
    requires span.start + span.length <= |data|
    ensures FrameBytes(d) > 0 && |PayloadFrames(data, span, d)| == span.length / FrameBytes(d)
  {
    hide Frames;
    FramesCount(data[span.start..span.start + span.length], d);
  }

  /** The sums of squares of the left and right samples of every whole frame in the payload. */
  method ParseRtpStereoLevels(data: seq<byte>, d: Depth) returns (ok: bool, frames: nat, lsum: int, rsum: int)
    ensures ok <==> Accepts(data, d)
    ensures ok ==> var fs := PayloadFrames(data, Locate(data).value, d);
                   frames == |fs| > 0 && lsum == Energy(Lefts(fs)) && rsum == Energy(Rights(fs))
  {
    hide Locate, PayloadFrames, Energy, Lefts, Rights, FrameBytes;
    frames, lsum, rsum := 0, 0, 0;
    var located := Locate(data);
    if located.None? { return false, 0, 0, 0; }
    PayloadCount(data, located.value, d);
    frames := located.value.length / FrameBytes(d);
    EnoughForOne(located.value.length, d);
    if frames < 1 { return false, 0, 0, 0; }
    lsum, rsum := SumFrames(data, located.value, d, frames);
    ok := true;
  }

  lemma EnoughForOne(length: nat, d: Depth)
    ensures FrameBytes(d) > 0 && (length / FrameBytes(d) < 1 <==> length < FrameBytes(d))
  {
  }

  lemma NoEnergy()
    ensures Energy(Lefts([])) == 0 && Energy(Rights([])) == 0
  {
  }

  /** What a sender encodes is what the meter measures: any packet round the samples, at the depth they are in. */
  lemma MeterHearsTheSender(p: Packet, sent: seq<Stereo>, partial: seq<byte>, d: Depth)
    requires PacketOk(p) && sent != [] && (forall s | s in sent :: StereoOk(s, d)) && |partial| < FrameBytes(d)
    requires p.payload == EncodeFrames(sent, d) + partial
    ensures Accepts(Build(p), d)
    ensures PayloadFrames(Build(p), Locate(Build(p)).value, d) == sent
  {
    hide Locate, Build, Head, EncodeFrame;
    LocateBuild(p);
    BuildLength(p);
    FramesRoundTrip(sent, partial, d);
  }

  // ---------- trying the other depth ----------

  function Candidates(configured: int): seq<Depth> { if configured == 16 then [L16, L24] else [L24, L16] }

  function Bits(d: Depth): int { if d == L24 then 24 else 16 }

  method ParseWithFallback(data: seq<byte>, configured: int) returns (ok: bool, detected: int, lsum: int, rsum: int)
    ensures var found := Detected(data, configured);
            (ok <==> found.Some?) && detected == (if found.Some? then Bits(found.value) else configured)
    ensures ok ==> var fs := PayloadFrames(data, Locate(data).value, Detected(data, configured).value);
                   lsum == Energy(Lefts(fs)) && rsum == Energy(Rights(fs))
  {
    hide Locate, PayloadFrames, Energy, Lefts, Rights, Accepts;
    var depths := Candidates(configured);
    var i := 0;
    ok, lsum, rsum := false, 0, 0;
    while i < |depths|
      invariant 0 <= i <= |depths|
      invariant forall j | 0 <= j < i :: !Accepts(data, depths[j])
    {
      var frames;
      ok, frames, lsum, rsum := ParseRtpStereoLevels(data, depths[i]);
      if ok {
        AcceptedIsLocated(data, depths[i]);
        return ok, Bits(depths[i]), lsum, rsum;
      }
      i := i + 1;
    }
    assert !Accepts(data, depths[0]) && !Accepts(data, depths[1]);
    return false, configured, 0, 0;
  }

  lemma AcceptedIsLocated(data: seq<byte>, d: Depth)
    requires Accepts(data, d)
    ensures Locate(data).Some?
  {
  }

  function Detected(data: seq<byte>, configured: int): Option<Depth> {
    var depths := Candidates(configured);
    if Accepts(data, depths[0]) then Some(depths[0])
    else if Accepts(data, depths[1]) then Some(depths[1])
    else None
  }

  /** The depth changes only for a payload of four or five bytes. */
  lemma DepthChangesIff(data: seq<byte>, configured: int)
    ensures var first := Candidates(configured)[0];
            (Detected(data, configured).Some? && Detected(data, configured).value != first) <==>
            (first == L24 && Locate(data).Some? && 4 <= Locate(data).value.length <= 5)
  {
    hide Locate;
  }

  /** A packet is always heard, but at the depth of its sender if and only if that is the depth tried first, or the
      sender used 16 bits and the payload is too short for a frame of 24: a wrong configuration is otherwise not
      noticed. */
  lemma SenderDepthHeardIff(p: Packet, sent: seq<Stereo>, partial: seq<byte>, d: Depth, configured: int)
    requires PacketOk(p) && sent != [] && (forall s | s in sent :: StereoOk(s, d)) && |partial| < FrameBytes(d)
    requires p.payload == EncodeFrames(sent, d) + partial
    ensures Detected(Build(p), configured).Some?
    ensures Detected(Build(p), configured) == Some(d) <==>
            Candidates(configured)[0] == d || (d == L16 && |p.payload| < 6)
  {
    hide Locate, Build, Head, EncodeFrame;
    LocateBuild(p);
    BuildLength(p);
    assert |EncodeFrames(sent, d)| >= FrameBytes(d);
  }

  // ---------- what is metered, and what is tried first ----------

  /** The energy of a channel is the sum of its squares, however it is cut. */
  lemma {:induction false} EnergyAdds(a: seq<int>, b: seq<int>)
    ensures Energy(a + b) == Energy(a) + Energy(b)
    ensures forall x :: Energy([x]) == x * x
  {
    if b == [] {
      assert a + b == a;
    } else {
      var n := |b| - 1;
      assert (a + b)[..|a| + n] == a + b[..n];
      EnergyAdds(a, b[..n]);
    }
  }

  lemma ChannelsOfOne(l: int, r: int)
    ensures Energy(Lefts([Stereo(l, r)])) == l * l && Energy(Rights([Stereo(l, r)])) == r * r
  {
    EnergyAdds([], []);
    assert Lefts([Stereo(l, r)]) == [l] && Rights([Stereo(l, r)]) == [r];
  }

  /** The configured depth is tried first, and the other one next. */
  lemma ConfiguredFirst(configured: int)
    requires configured == 16 || configured == 24
    ensures var c := Candidates(configured);
            |c| == 2 && Bits(c[0]) == configured && Bits(c[1]) == 40 - configured
  {
  }
}
