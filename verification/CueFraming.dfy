/** Framing of cue messages on a TCP stream: newline-delimited, or a 4-byte big-endian length and payload.
    Messages are cut from whatever has arrived; the rest waits in the buffer. */
module CueFraming {
  import opened Text
  import opened Bytes

  datatype Framing = Newline | LengthPrefixed

  const NL: byte := 10
  const MAX_LENGTH := 1024 * 1024

  predicate BlankByte(b: byte) { b == 32 || b == 9 || b == 13 || b == 10 }

  function TrimBytes(s: seq<byte>): seq<byte> { TrimBy(s, BlankByte) }

  /** The message a payload stands for: none when it is blank. */
  function Message(payload: seq<byte>): seq<seq<byte>> {
    var t := TrimBytes(payload);
    if t == [] then [] else [t]
  }

  /** Messages cut from a buffer, and what stays in it. */
  datatype Cut = Cut(msgs: seq<seq<byte>>, rest: seq<byte>)

  function Prepend(m: seq<seq<byte>>, c: Cut): Cut { Cut(m + c.msgs, c.rest) }

  // ---------- newline framing ----------

  function LineLen(buf: seq<byte>): (n: nat)
    ensures n <= |buf| && NL !in buf[..n] && (n < |buf| ==> buf[n] == NL)
  {
    if buf == [] || buf[0] == NL then 0
    else
      var n := 1 + LineLen(buf[1..]);
      assert buf[..n] == [buf[0]] + buf[1..][..n - 1];
      n
  }

  function CutLines(buf: seq<byte>): Cut
    decreases |buf|
  {
    var n := LineLen(buf);
    if n == |buf| then Cut([], buf) else Prepend(Message(buf[..n]), CutLines(buf[n + 1..]))
  }

  // ---------- length-prefixed framing ----------

  function Length(buf: seq<byte>): nat
    requires |buf| >= 4
  {
    var b0: int, b1: int, b2: int, b3: int := buf[0], buf[1], buf[2], buf[3];
    b0 * 0x100_0000 + b1 * 0x1_0000 + b2 * 0x100 + b3
  }

  /** A length over 1 MiB empties the buffer. */
  function CutFrames(buf: seq<byte>): Cut
    decreases |buf|
  {
    if |buf| < 4 then Cut([], buf)
    else
      var len := Length(buf);
      if len > MAX_LENGTH then Cut([], [])
      else if |buf| < 4 + len then Cut([], buf)
      else Prepend(Message(buf[4..4 + len]), CutFrames(buf[4 + len..]))
  }

  function CutAll(framing: Framing, buf: seq<byte>): Cut {
    match framing
    case Newline => CutLines(buf)
    case LengthPrefixed => CutFrames(buf)
  }

  // ---------- the buffer, updated in place ----------

  class CueBuffer {
    var buf: seq<byte>

    constructor ()
      ensures buf == []
    {
      buf := [];
    }

    method ParseLines() returns (out: seq<seq<byte>>)
      modifies this
      ensures Cut(out, buf) == CutLines(old(buf))
    {
      hide CutLines, TrimBytes, LineLen;
      out := [];
      var pos := 0;
      assert buf[0..] == buf;
      while true
        invariant pos <= |buf| && buf == old(buf)
        invariant Prepend(out, CutLines(buf[pos..])) == CutLines(buf)
        decreases |buf| - pos
      {
        var nl := NextNewline(buf, pos);
        if nl == |buf| { break; }
        CutLinesAt(buf, pos, nl);
        var line := TrimBytes(buf[pos..nl]);
        PrependPrepend(out, Message(buf[pos..nl]), CutLines(buf[nl + 1..]));
        if line != [] { out := out + [line]; }
        pos := nl + 1;
      }
      LastLine(buf, pos);
      if pos > 0 { buf := buf[pos..]; }
    }

    method ParseFrames() returns (out: seq<seq<byte>>)
      modifies this
      ensures Cut(out, buf) == CutFrames(old(buf))
    {
      hide CutFrames, TrimBytes, Length;
      out := [];
      var offset := 0;
      assert buf[0..] == buf;
      while |buf| - offset >= 4
        invariant offset <= |buf| && buf == old(buf)
        invariant Prepend(out, CutFrames(buf[offset..])) == CutFrames(buf)
        decreases |buf| - offset
      {
        CutFramesAt(buf, offset);
        var len := Length(buf[offset..]);
        if len > MAX_LENGTH {
          buf := [];
          return;
        }
        if |buf| - offset < 4 + len { break; }
        var payload := TrimBytes(buf[offset + 4..offset + 4 + len]);
        PrependPrepend(out, Message(buf[offset + 4..offset + 4 + len]), CutFrames(buf[offset + 4 + len..]));
        if payload != [] { out := out + [payload]; }
        offset := offset + 4 + len;
      }
      if |buf| - offset < 4 { ShortRest(buf, offset); }
      if offset > 0 { buf := buf[offset..]; }
    }

    method ParseFramedMessages(framing: Framing) returns (out: seq<seq<byte>>)
      modifies this
      ensures Cut(out, buf) == CutAll(framing, old(buf))
    {
      if framing == Newline { out := ParseLines(); } else { out := ParseFrames(); }
    }

    static method NextNewline(s: seq<byte>, pos: nat) returns (nl: nat)
      requires pos <= |s|
      ensures pos <= nl <= |s| && nl - pos == LineLen(s[pos..])
    {
      nl := pos;
      while nl < |s| && s[nl] != NL
        invariant pos <= nl <= |s| && nl - pos + LineLen(s[nl..]) == LineLen(s[pos..])
      {
        assert s[nl..][1..] == s[nl + 1..];
        nl := nl + 1;
      }
    }

    /** One read from the socket. */
    method Receive(framing: Framing, chunk: seq<byte>) returns (out: seq<seq<byte>>)
      modifies this
      ensures Cut(out, buf) == CutAll(framing, old(buf) + chunk)
    {
      buf := buf + chunk;
      out := ParseFramedMessages(framing);
    }
  }

  lemma PrependPrepend(a: seq<seq<byte>>, b: seq<seq<byte>>, c: Cut)
    ensures Prepend(a, Prepend(b, c)) == Prepend(a + b, c)
  {
    assert a + (b + c.msgs) == a + b + c.msgs;
  }

  lemma CutFramesAt(buf: seq<byte>, offset: nat)
    requires |buf| - offset >= 4
    ensures var len := Length(buf[offset..]);
            CutFrames(buf[offset..]) ==
            if len > MAX_LENGTH then Cut([], [])
            else if |buf| - offset < 4 + len then Cut([], buf[offset..])
            else Prepend(Message(buf[offset + 4..offset + 4 + len]), CutFrames(buf[offset + 4 + len..]))
  {
    hide Length, Message;
    var t := buf[offset..];
    var len := Length(t);
    if |t| >= 4 + len {
      assert t[4..4 + len] == buf[offset + 4..offset + 4 + len];
      assert t[4 + len..] == buf[offset + 4 + len..];
    }
  }

  lemma ShortRest(buf: seq<byte>, offset: nat)
    requires offset <= |buf| && |buf| - offset < 4
    ensures CutFrames(buf[offset..]) == Cut([], buf[offset..])
  {
  }

  lemma CutLinesAt(buf: seq<byte>, pos: nat, nl: nat)
    requires pos <= nl < |buf| && nl - pos == LineLen(buf[pos..])
    ensures CutLines(buf[pos..]) == Prepend(Message(buf[pos..nl]), CutLines(buf[nl + 1..]))
  {
    var t := buf[pos..];
    assert t[..nl - pos] == buf[pos..nl];
    assert t[nl - pos + 1..] == buf[nl + 1..];
  }

  lemma LastLine(buf: seq<byte>, pos: nat)
    requires pos <= |buf| && LineLen(buf[pos..]) == |buf| - pos
    ensures CutLines(buf[pos..]) == Cut([], buf[pos..])
  {
  }

  // ---------- chunking does not matter ----------

  lemma {:induction false} LineLenExtend(a: seq<byte>, b: seq<byte>)
    requires LineLen(a) < |a|
    ensures LineLen(a + b) == LineLen(a)
  {
    if a[0] != NL {
      assert (a + b)[1..] == a[1..] + b;
      LineLenExtend(a[1..], b);
    }
  }

  lemma CutLinesStep(buf: seq<byte>)
    ensures var n := LineLen(buf);
            CutLines(buf) == if n == |buf| then Cut([], buf) else Prepend(Message(buf[..n]), CutLines(buf[n + 1..]))
  {
    hide Message, LineLen;
  }

  /** Cutting what has arrived and going on later gives the same as cutting everything at once. */
  lemma {:induction false} CutLinesResume(a: seq<byte>, b: seq<byte>)
    ensures CutLines(a + b) == Prepend(CutLines(a).msgs, CutLines(CutLines(a).rest + b))
    decreases |a|
  {
    hide Message, LineLen, CutLines;
    var n := LineLen(a);
    CutLinesStep(a);
    if n < |a| {
      LineLenExtend(a, b);
      CutLinesStep(a + b);
      assert (a + b)[..n] == a[..n];
      assert (a + b)[n + 1..] == a[n + 1..] + b;
      CutLinesResume(a[n + 1..], b);
    }
  }

  /** No length field over the limit is ever reached in the stream. */
  ghost predicate LengthsOk(buf: seq<byte>)
    decreases |buf|
  {
    |buf| >= 4 ==>
      Length(buf) <= MAX_LENGTH &&
      (|buf| >= 4 + Length(buf) ==> LengthsOk(buf[4 + Length(buf)..]))
  }

  lemma LengthExtend(a: seq<byte>, b: seq<byte>)
    requires |a| >= 4
    ensures Length(a + b) == Length(a)
  {
  }

  lemma {:induction false} CutFramesResume(a: seq<byte>, b: seq<byte>)
    requires LengthsOk(a + b)
    ensures CutFrames(a + b) == Prepend(CutFrames(a).msgs, CutFrames(CutFrames(a).rest + b))
    ensures LengthsOk(CutFrames(a).rest + b)
    decreases |a|
  {
    hide Message, Length;
    if |a| >= 4 {
      var len := Length(a);
      LengthExtend(a, b);
      if |a| >= 4 + len {
        var m, rest := Message(a[4..4 + len]), a[4 + len..];
        assert (a + b)[4..4 + len] == a[4..4 + len];
        assert (a + b)[4 + len..] == rest + b;
        CutFramesResume(rest, b);
        var c := CutFrames(rest);
        assert CutFrames(a) == Prepend(m, c);
        PrependPrepend(m, c.msgs, CutFrames(c.rest + b));
      }
    }
  }

  /** The messages of a connection that delivers these chunks, from a given buffer. */
  function FeedAll(framing: Framing, buf: seq<byte>, chunks: seq<seq<byte>>): Cut
    decreases |chunks|
  {
    if chunks == [] then Cut([], buf)
    else
      var c := CutAll(framing, buf + chunks[0]);
      Prepend(c.msgs, FeedAll(framing, c.rest, chunks[1..]))
  }

  ghost predicate StreamOk(framing: Framing, stream: seq<byte>) {
    framing == LengthPrefixed ==> LengthsOk(stream)
  }

  lemma CutResume(framing: Framing, a: seq<byte>, b: seq<byte>)
    requires StreamOk(framing, a + b)
    ensures CutAll(framing, a + b) == Prepend(CutAll(framing, a).msgs, CutAll(framing, CutAll(framing, a).rest + b))
    ensures StreamOk(framing, CutAll(framing, a).rest + b)
  {
    if framing == Newline { CutLinesResume(a, b); } else { CutFramesResume(a, b); }
  }

  /** A buffer that has been cut already holds no complete message. */
  ghost predicate Waiting(framing: Framing, buf: seq<byte>) { CutAll(framing, buf) == Cut([], buf) }

  lemma {:induction false} RestWaits(framing: Framing, buf: seq<byte>)
    ensures Waiting(framing, CutAll(framing, buf).rest)
    decreases |buf|
  {
    hide Message, LineLen;
    if framing == Newline {
      var n := LineLen(buf);
      if n < |buf| { RestWaits(framing, buf[n + 1..]); }
    } else if |buf| >= 4 && Length(buf) <= MAX_LENGTH && |buf| >= 4 + Length(buf) {
      RestWaits(framing, buf[4 + Length(buf)..]);
    }
  }

  /** However a stream is split on arrival, the messages and the left-over bytes are those of the stream
      fed at once. */
  lemma {:induction false} ChunkingIsInvisible(framing: Framing, buf: seq<byte>, chunks: seq<seq<byte>>)
    requires Waiting(framing, buf) && StreamOk(framing, buf + Concat(chunks))
    ensures FeedAll(framing, buf, chunks) == CutAll(framing, buf + Concat(chunks))
    decreases |chunks|
  {
    hide CutAll, StreamOk;
    if chunks == [] {
      assert buf + Concat(chunks) == buf;
    } else {
      var a, b := buf + chunks[0], Concat(chunks[1..]);
      assert buf + Concat(chunks) == a + b;
      CutResume(framing, a, b);
      RestWaits(framing, a);
      ChunkingIsInvisible(framing, CutAll(framing, a).rest, chunks[1..]);
      var c := CutAll(framing, a);
      assert Prepend(c.msgs, CutAll(framing, c.rest + b)) == CutAll(framing, a + b);
    }
  }

  lemma EmptyWaits(framing: Framing)
    ensures Waiting(framing, [])
  {
  }

  // ---------- an over-long length ----------

  /** Where a length field over the limit stands: before it, complete frames. */
  ghost predicate OversizedAfter(prefix: seq<byte>, header: seq<byte>) {
    |header| == 4 && Length(header) > MAX_LENGTH && LengthsOk(prefix) && CutFrames(prefix).rest == []
  }

  /** A length field over the limit is reached, and the stream ends with it. */
  ghost predicate EndsOversized(stream: seq<byte>)
    decreases |stream|
  {
    |stream| >= 4 &&
    if Length(stream) > MAX_LENGTH then |stream| == 4
    else |stream| >= 4 + Length(stream) && EndsOversized(stream[4 + Length(stream)..])
  }

  lemma {:induction false} EndsOversizedCut(stream: seq<byte>)
    requires EndsOversized(stream)
    ensures CutFrames(stream).rest == []
    decreases |stream|
  {
    hide Message, Length;
    if Length(stream) <= MAX_LENGTH { EndsOversizedCut(stream[4 + Length(stream)..]); }
  }

  /** Before its last byte such a stream can be cut anywhere. */
  lemma {:induction false} EndsOversizedResume(a: seq<byte>, b: seq<byte>)
    requires EndsOversized(a + b) && b != []
    ensures CutFrames(a + b) == Prepend(CutFrames(a).msgs, CutFrames(CutFrames(a).rest + b))
    ensures EndsOversized(CutFrames(a).rest + b)
    decreases |a|
  {
    hide Message, Length;
    if |a| >= 4 {
      var len := Length(a);
      LengthExtend(a, b);
      if |a| >= 4 + len {
        var m, rest := Message(a[4..4 + len]), a[4 + len..];
        assert (a + b)[4..4 + len] == a[4..4 + len];
        assert (a + b)[4 + len..] == rest + b;
        EndsOversizedResume(rest, b);
        var c := CutFrames(rest);
        assert CutFrames(a) == Prepend(m, c);
        PrependPrepend(m, c.msgs, CutFrames(c.rest + b));
      }
    }
  }

  lemma {:induction false} FeedNothing(chunks: seq<seq<byte>>)
    requires Concat(chunks) == []
    ensures FeedAll(LengthPrefixed, [], chunks) == Cut([], [])
    decreases |chunks|
  {
    if chunks != [] {
      assert chunks[0] == [] && Concat(chunks[1..]) == [];
      FeedNothing(chunks[1..]);
      assert [] + chunks[0] == [];
    }
  }

  lemma {:induction false} FeedEndsOversized(buf: seq<byte>, chunks: seq<seq<byte>>)
    requires Waiting(LengthPrefixed, buf) && EndsOversized(buf + Concat(chunks))
    ensures FeedAll(LengthPrefixed, buf, chunks) == CutFrames(buf + Concat(chunks))
    decreases |chunks|
  {
    hide CutFrames, EndsOversized;
    if chunks == [] {
      assert buf + Concat(chunks) == buf;
      EndsOversizedCut(buf);
      NothingEndsOversized(buf);
    } else {
      var a, b := buf + chunks[0], Concat(chunks[1..]);
      assert buf + Concat(chunks) == a + b;
      var c := CutFrames(a);
      if b == [] {
        assert a + b == a;
        EndsOversizedCut(a);
        FeedNothing(chunks[1..]);
        assert c.msgs + [] == c.msgs;
      } else {
        EndsOversizedResume(a, b);
        RestWaits(LengthPrefixed, a);
        FeedEndsOversized(c.rest, chunks[1..]);
      }
    }
  }

  lemma NothingEndsOversized(stream: seq<byte>)
    requires EndsOversized(stream)
    ensures stream != []
  {
  }

  /** Behind a length field over the limit everything is lost: fed at once nothing is left over, not even when
      the last byte is still to come. */
  lemma {:induction false} OversizedLosesRest(stream: seq<byte>)
    requires !LengthsOk(stream) && !EndsOversized(stream)
    ensures stream != [] && CutFrames(stream).rest == [] && CutFrames(stream[..|stream| - 1]).rest == []
    decreases |stream|
  {
    hide Message;
    var n := |stream| - 1;
    if Length(stream) > MAX_LENGTH {
      assert Length(stream[..n]) == Length(stream);
    } else {
      var len := Length(stream);
      OversizedLosesRest(stream[4 + len..]);
      assert Length(stream[..n]) == len;
      assert stream[..n][4 + len..] == stream[4 + len..][..n - 4 - len];
    }
  }

  /** All ways of splitting a stream on arrival give what it gives at once. */
  ghost predicate ArrivalIsInvisible(stream: seq<byte>) {
    forall chunks: seq<seq<byte>> ::
      Concat(chunks) == stream ==> FeedAll(LengthPrefixed, [], chunks) == CutFrames(stream)
  }

  /** For every length-prefixed stream: how it is split on arrival makes no difference if and only if no length
      field over the limit is reached in it, or one is and the stream ends right there. */
  lemma ArrivalIsInvisibleIff(stream: seq<byte>)
    ensures ArrivalIsInvisible(stream) <==> LengthsOk(stream) || EndsOversized(stream)
  {
    hide CutFrames, LengthsOk, EndsOversized, FeedAll;
    if LengthsOk(stream) || EndsOversized(stream) {
      forall chunks: seq<seq<byte>> | Concat(chunks) == stream
        ensures FeedAll(LengthPrefixed, [], chunks) == CutFrames(stream)
      {
        assert [] + Concat(chunks) == stream;
        EmptyWaits(LengthPrefixed);
        if LengthsOk(stream) {
          ChunkingIsInvisible(LengthPrefixed, [], chunks);
        } else {
          FeedEndsOversized([], chunks);
        }
      }
    } else {
      OversizedLosesRest(stream);
      var n := |stream| - 1;
      LastByteLate(stream[..n], stream[n..]);
      assert stream[..n] + stream[n..] == stream;
    }
  }

  /** Cut before its last byte, such a stream leaves that byte over. */
  lemma LastByteLate(a: seq<byte>, last: seq<byte>)
    requires CutFrames(a).rest == [] && |last| == 1
    ensures Concat([a, last]) == a + last && FeedAll(LengthPrefixed, [], [a, last]).rest == last
  {
    hide CutFrames;
    assert [a, last][1..] == [last] && [last][1..] == [];
    assert [] + a == a && [] + last == last;
    ConcatOne(last);
    ShortRest(last, 0);
    assert last[0..] == last;
    assert FeedAll(LengthPrefixed, last, []) == Cut([], last);
    assert FeedAll(LengthPrefixed, [], [last]) == Prepend([], Cut([], last));
  }

  /** A first length field over the limit, complete frames before it and `rest` behind it: fed at once, `rest` is
      lost; cut right behind the length, `rest` is read as new frames; all splits agree if and only if there is
      no `rest`. */
  lemma OversizedLengthSplits(prefix: seq<byte>, header: seq<byte>, rest: seq<byte>)
    requires OversizedAfter(prefix, header)
    ensures CutFrames(prefix + header + rest) == Cut(CutFrames(prefix).msgs, [])
    ensures FeedAll(LengthPrefixed, [], [prefix + header, rest]) == Prepend(CutFrames(prefix).msgs, CutFrames(rest))
    ensures ArrivalIsInvisible(prefix + header + rest) <==> rest == []
  {
    hide CutFrames, LengthsOk, EndsOversized, ArrivalIsInvisible;
    CutThenOversized(prefix, header, rest);
    CutThenOversized(prefix, header, []);
    assert prefix + header + [] == prefix + header;
    assert [] + (prefix + header) == prefix + header && [] + rest == rest;
    assert [prefix + header, rest][1..] == [rest] && [rest][1..] == [];
    var c := CutFrames(rest);
    assert FeedAll(LengthPrefixed, c.rest, []) == Cut([], c.rest);
    assert FeedAll(LengthPrefixed, [], [rest]) == Prepend(c.msgs, Cut([], c.rest));
    assert c.msgs + [] == c.msgs;
    ArrivalIsInvisibleIff(prefix + header + rest);
    OversizedIsReached(prefix, header, rest);
  }

  lemma {:induction false} OversizedIsReached(prefix: seq<byte>, header: seq<byte>, rest: seq<byte>)
    requires OversizedAfter(prefix, header)
    ensures !LengthsOk(prefix + header + rest)
    ensures EndsOversized(prefix + header + rest) <==> rest == []
    decreases |prefix|
  {
    hide Length, CutFrames, OversizedAfter;
    var all := prefix + header + rest;
    AfterFrame(prefix, header);
    if prefix == [] {
      assert all == header + rest;
      LengthExtend(header, rest);
    } else {
      var len := Length(prefix);
      assert all == prefix + (header + rest);
      LengthExtend(prefix, header + rest);
      assert all[4 + len..] == prefix[4 + len..] + header + rest;
      OversizedIsReached(prefix[4 + len..], header, rest);
    }
  }

  /** Frame by frame to the length field over the limit. */
  lemma AfterFrame(prefix: seq<byte>, header: seq<byte>)
    requires OversizedAfter(prefix, header)
    ensures |header| == 4 && Length(header) > MAX_LENGTH
    ensures prefix != [] ==>
              |prefix| >= 4 && Length(prefix) <= MAX_LENGTH && |prefix| >= 4 + Length(prefix) &&
              OversizedAfter(prefix[4 + Length(prefix)..], header)
  {
    hide Message, Length;
  }

  lemma {:induction false} CutThenOversized(prefix: seq<byte>, header: seq<byte>, rest: seq<byte>)
    requires OversizedAfter(prefix, header)
    ensures CutFrames(prefix + header + rest) == Cut(CutFrames(prefix).msgs, [])
    decreases |prefix|
  {
    hide Message;
    var all := prefix + header + rest;
    if prefix == [] {
      assert Length(all) == Length(header);
    } else {
      assert |prefix| >= 4;
      var len := Length(prefix);
      assert Length(all) == len;
      assert all[4..4 + len] == prefix[4..4 + len];
      assert all[4 + len..] == prefix[4 + len..] + header + rest;
      CutThenOversized(prefix[4 + len..], header, rest);
    }
  }

  // ---------- encoding and decoding ----------

  function LengthBytes(n: nat): seq<byte>
    requires n <= MAX_LENGTH
  {
    [n / 0x100_0000, n / 0x1_0000 % 0x100, n / 0x100 % 0x100, n % 0x100]
  }

  function EncodeLines(msgs: seq<seq<byte>>): seq<byte> {
    if msgs == [] then [] else msgs[0] + [NL] + EncodeLines(msgs[1..])
  }

  function EncodeFrames(msgs: seq<seq<byte>>): seq<byte>
    requires forall m | m in msgs :: |m| <= MAX_LENGTH
  {
    if msgs == [] then [] else LengthBytes(|msgs[0]|) + msgs[0] + EncodeFrames(msgs[1..])
  }

  /** The trimmed non-blank messages, in order. */
  function Delivered(msgs: seq<seq<byte>>): seq<seq<byte>> {
    if msgs == [] then [] else Message(msgs[0]) + Delivered(msgs[1..])
  }

  /** The blanks of a message are the worker's own, the line ends among them. */
  lemma BlankByteIff(b: byte)
    ensures BlankByte(b) <==> b < 128 && IsBlank(b as char)
  {
  }

  /** A message is handed on without the blanks round it, and not at all if there is nothing else. */
  lemma MessageReads(a: seq<byte>, m: seq<byte>, b: seq<byte>)
    requires All(a, BlankByte) && All(b, BlankByte) && Trimmed(m, BlankByte)
    ensures Message(a + m + b) == if m == [] then [] else [m]
  {
    hide TrimBy;
    TrimBetween(a, m, b, BlankByte);
  }

  lemma {:induction false} LineLenOf(m: seq<byte>, rest: seq<byte>)
    requires NL !in m
    ensures LineLen(m + [NL] + rest) == |m|
  {
    var s := m + [NL] + rest;
    if m != [] {
      assert s[1..] == m[1..] + [NL] + rest;
      LineLenOf(m[1..], rest);
    }
  }

  lemma {:induction false} DecodeLines(msgs: seq<seq<byte>>)
    requires forall m | m in msgs :: NL !in m
    ensures CutLines(EncodeLines(msgs)) == Cut(Delivered(msgs), [])
  {
    hide Message, LineLen;
    if msgs == [] {
      EmptyWaits(Newline);
    } else {
      var m, rest := msgs[0], EncodeLines(msgs[1..]);
      assert m in msgs && forall x | x in msgs[1..] :: x in msgs;
      LineLenOf(m, rest);
      var s := EncodeLines(msgs);
      assert s[..|m|] == m && s[|m| + 1..] == rest;
      DecodeLines(msgs[1..]);
    }
  }

  lemma LengthOfBytes(n: nat, rest: seq<byte>)
    requires n <= MAX_LENGTH
    ensures Length(LengthBytes(n) + rest) == n
  {
  }

  lemma {:induction false} DecodeFrames(msgs: seq<seq<byte>>)
    requires forall m | m in msgs :: |m| <= MAX_LENGTH
    ensures CutFrames(EncodeFrames(msgs)) == Cut(Delivered(msgs), [])
    ensures LengthsOk(EncodeFrames(msgs))
  {
    hide Message, Length, LengthBytes;
    if msgs != [] {
      var m, rest := msgs[0], EncodeFrames(msgs[1..]);
      assert m in msgs && forall x | x in msgs[1..] :: x in msgs;
      var s := EncodeFrames(msgs);
      assert s == LengthBytes(|m|) + (m + rest);
      LengthOfBytes(|m|, m + rest);
      FourBytes(|m|);
      assert s[4..4 + |m|] == m && s[4 + |m|..] == rest;
      DecodeFrames(msgs[1..]);
    }
  }

  lemma FourBytes(n: nat)
    requires n <= MAX_LENGTH
    ensures |LengthBytes(n)| == 4
  {
  }

  function Encode(framing: Framing, msgs: seq<seq<byte>>): seq<byte>
    requires framing == LengthPrefixed ==> forall m | m in msgs :: |m| <= MAX_LENGTH
  {
    if framing == Newline then EncodeLines(msgs) else EncodeFrames(msgs)
  }

  /** Any list of messages, sent in any pieces, arrives as its trimmed non-blank messages in order, and
      nothing is left over. */
  lemma SentIsDelivered(framing: Framing, msgs: seq<seq<byte>>, chunks: seq<seq<byte>>)
    requires if framing == Newline then forall m | m in msgs :: NL !in m
             else forall m | m in msgs :: |m| <= MAX_LENGTH
    requires Concat(chunks) == Encode(framing, msgs)
    ensures FeedAll(framing, [], chunks) == Cut(Delivered(msgs), [])
  {
    hide EncodeLines, EncodeFrames, CutLines, CutFrames, FeedAll, Delivered, Concat, LengthsOk;
    if framing == Newline { DecodeLines(msgs); } else { DecodeFrames(msgs); }
    EmptyWaits(framing);
    assert [] + Concat(chunks) == Concat(chunks);
    ChunkingIsInvisible(framing, [], chunks);
  }

  // ---------- a whole connection ----------

  /** Everything a connection hands on until it is closed: an unfinished last line still counts. */
  function Session(framing: Framing, chunks: seq<seq<byte>>): seq<seq<byte>> {
    var c := FeedAll(framing, [], chunks);
    c.msgs + if framing == Newline then Message(c.rest) else []
  }

  lemma SessionOfStream(framing: Framing, chunks: seq<seq<byte>>)
    requires StreamOk(framing, Concat(chunks))
    ensures var c := CutAll(framing, Concat(chunks));
            Session(framing, chunks) == c.msgs + if framing == Newline then Message(c.rest) else []
  {
    hide CutAll, Message, FeedAll, StreamOk;
    EmptyWaits(framing);
    assert [] + Concat(chunks) == Concat(chunks);
    ChunkingIsInvisible(framing, [], chunks);
  }

  /** Two connections with the same bytes hand on the same messages. */
  lemma SessionsAgree(framing: Framing, a: seq<seq<byte>>, b: seq<seq<byte>>)
    requires Concat(a) == Concat(b) && StreamOk(framing, Concat(a))
    ensures Session(framing, a) == Session(framing, b)
  {
    hide Session, CutAll, Message, StreamOk;
    SessionOfStream(framing, a);
    SessionOfStream(framing, b);
  }

  lemma {:induction false} NoNewline(last: seq<byte>)
    requires NL !in last
    ensures LineLen(last) == |last|
  {
    if last != [] { NoNewline(last[1..]); }
  }

  lemma {:induction false} DeliveredConcat(a: seq<seq<byte>>, b: seq<seq<byte>>)
    ensures Delivered(a + b) == Delivered(a) + Delivered(b)
  {
    hide Message;
    if a == [] {
      assert a + b == b;
    } else {
      assert (a + b)[1..] == a[1..] + b;
      DeliveredConcat(a[1..], b);
    }
  }

  /** The last line of a connection needs no newline. */
  lemma UnfinishedLineIsDelivered(msgs: seq<seq<byte>>, last: seq<byte>, chunks: seq<seq<byte>>)
    requires NL !in last && forall m | m in msgs :: NL !in m
    requires Concat(chunks) == EncodeLines(msgs) + last
    ensures Session(Newline, chunks) == Delivered(msgs + [last])
  {
    hide CutLines, Message, EncodeLines, LineLen;
    SessionOfStream(Newline, chunks);
    DecodeLines(msgs);
    CutLinesResume(EncodeLines(msgs), last);
    assert [] + last == last;
    NoNewline(last);
    LastLine(last, 0);
    assert last[0..] == last;
    DeliveredConcat(msgs, [last]);
    assert [last][1..] == [];
    assert Delivered(msgs) + [] == Delivered(msgs);
  }
}
