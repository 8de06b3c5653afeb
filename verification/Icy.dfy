/** ICY metadata interleaving of the reference encoder's Icecast writers: after every `interval` audio bytes
    one length byte L and 16*L bytes of metadata. */
module Icy {
  import opened Bytes

  // ---------- one metadata block ----------

  function BytesOf(s: string): (r: seq<byte>)
    requires forall i | 0 <= i < |s| :: s[i] as int < 256
    ensures |r| == |s|
  {
    seq<byte>(|s|, i requires 0 <= i < |s| && s[i] as int < 256 => s[i] as int)
  }

  const TITLE: string := "StreamTitle='"
  const TAIL: string := "';StreamUrl='';"

  lemma AsciiParts()
    ensures forall i | 0 <= i < |TITLE| :: TITLE[i] as int < 256
    ensures forall i | 0 <= i < |TAIL| :: TAIL[i] as int < 256
    ensures |TITLE| == 13 && |TAIL| == 15
  {
  }

  function Safe(meta: seq<byte>): seq<byte> { if |meta| > 255 then meta[..255] else meta }

  function Payload(meta: seq<byte>): (p: seq<byte>)
    ensures |p| == 28 + |Safe(meta)|
  {
    AsciiParts();
    BytesOf(TITLE) + Safe(meta) + BytesOf(TAIL)
  }

  function Min(a: int, b: int): int { if a < b then a else b }

  /** Length byte and what it announces. */
  function BlockLength(first: byte): nat {
    var units: int := first;
    1 + 16 * units
  }

  function Zeros(n: nat): seq<byte> { seq(n, _ => 0) }

  /** The block as the source builds it, with its cap of 255 sixteen-byte units. */
  function Block(meta: seq<byte>): seq<byte> {
    var p := Payload(meta);
    var blocks := Min((|p| + 15) / 16, 255);
    var kept := Min(|p|, blocks * 16);
    [blocks] + p[..kept] + Zeros(blocks * 16 - kept)
  }

  /** The cap is never reached: the block holds the whole payload, padded with zeros to its length byte. */
  lemma BlockIsComplete(meta: seq<byte>)
    ensures var b, p := Block(meta), Payload(meta);
            |b| == BlockLength(b[0]) && 1 <= b[0] <= 18 && |p| < |b| &&
            b[1..1 + |p|] == p && forall i | |p| < i < |b| :: b[i] == 0
  {
    hide BytesOf;
    var p := Payload(meta);
    assert p[..|p|] == p;
  }

  /** The block determines the title: two different titles of at most 255 bytes give different payloads. */
  lemma PayloadDeterminesTitle(a: seq<byte>, b: seq<byte>)
    requires Payload(a) == Payload(b)
    ensures Safe(a) == Safe(b)
  {
    hide BytesOf;
    AsciiParts();
    var p := Payload(a);
    assert p[13..13 + |Safe(a)|] == Safe(a);
    assert Payload(b)[13..13 + |Safe(b)|] == Safe(b);
  }

  method BuildIcyMetadata(meta: seq<byte>) returns (out: seq<byte>)
    ensures out == Block(meta)
  {
    hide Payload;
    var p := Payload(meta);
    var blocks := Min((|p| + 15) / 16, 255);
    var kept := Min(|p|, blocks * 16);
    out := [blocks] + p[..kept];
    while |out| - 1 < blocks * 16
      invariant kept <= |out| - 1 <= blocks * 16
      invariant out == [blocks] + p[..kept] + Zeros(|out| - 1 - kept)
    {
      assert Zeros(|out| - 1 - kept) + [0] == Zeros(|out| - kept);
      out := out + [0];
    }
  }

  // ---------- what goes on the wire ----------

  /** What the writer finds at a metadata point: whether metadata is on, and the current title. */
  datatype Sample = Sample(enabled: bool, meta: seq<byte>)

  /** Audio bytes since the last point, the last title sent, and how many points have passed. */
  datatype Writer = Writer(count: nat, last: seq<byte>, points: nat)

  const FRESH := Writer(0, [], 0)

  /** The announced interval, 0 for none, and what each point will find. */
  datatype Plan = Plan(interval: nat, samples: nat -> Sample)

  ghost predicate WriterOk(w: Writer, plan: Plan) { plan.interval == 0 || w.count < plan.interval }

  function PointBlock(w: Writer, plan: Plan): seq<byte> {
    var s := plan.samples(w.points);
    if s.enabled && s.meta != w.last then Block(s.meta) else [0]
  }

  function AfterPoint(w: Writer, plan: Plan): Writer {
    var s := plan.samples(w.points);
    Writer(0, if s.enabled then s.meta else w.last, w.points + 1)
  }

  /** One audio byte, and the block that is due after it. */
  function PutByte(w: Writer, plan: Plan, b: byte): (seq<byte>, Writer) {
    if w.count + 1 == plan.interval then ([b] + PointBlock(w, plan), AfterPoint(w, plan))
    else ([b], w.(count := w.count + 1))
  }

  function Mux(w: Writer, plan: Plan, audio: seq<byte>): seq<byte>
    decreases |audio|
  {
    if audio == [] then []
    else
      var (out, w') := PutByte(w, plan, audio[0]);
      out + Mux(w', plan, audio[1..])
  }

  function MuxEnd(w: Writer, plan: Plan, audio: seq<byte>): Writer
    decreases |audio|
  {
    if audio == [] then w else MuxEnd(PutByte(w, plan, audio[0]).1, plan, audio[1..])
  }

  lemma {:induction false} MuxEndOk(w: Writer, plan: Plan, audio: seq<byte>)
    requires WriterOk(w, plan)
    ensures WriterOk(MuxEnd(w, plan, audio), plan)
    decreases |audio|
  {
    if audio != [] { MuxEndOk(PutByte(w, plan, audio[0]).1, plan, audio[1..]); }
  }

  /** Where the audio is split into frames or chunks makes no difference on the wire. */
  lemma {:induction false} MuxConcat(w: Writer, plan: Plan, a: seq<byte>, b: seq<byte>)
    ensures Mux(w, plan, a + b) == Mux(w, plan, a) + Mux(MuxEnd(w, plan, a), plan, b)
    ensures MuxEnd(w, plan, a + b) == MuxEnd(MuxEnd(w, plan, a), plan, b)
    decreases |a|
  {
    hide PointBlock, AfterPoint;
    if a == [] {
      assert a + b == b;
    } else {
      assert (a + b)[1..] == a[1..] + b;
      MuxConcat(PutByte(w, plan, a[0]).1, plan, a[1..], b);
    }
  }

  /** A chunk that stays short of the next point goes out as it is; one that reaches it is followed by the block. */
  lemma {:induction false} MuxChunk(w: Writer, plan: Plan, chunk: seq<byte>)
    requires WriterOk(w, plan) && 0 < |chunk| && (plan.interval == 0 || |chunk| <= plan.interval - w.count)
    ensures if plan.interval == 0 || w.count + |chunk| < plan.interval
            then Mux(w, plan, chunk) == chunk && MuxEnd(w, plan, chunk) == w.(count := w.count + |chunk|)
            else Mux(w, plan, chunk) == chunk + PointBlock(w, plan) && MuxEnd(w, plan, chunk) == AfterPoint(w, plan)
    decreases |chunk|
  {
    hide Block;
    if |chunk| == 1 {
      assert chunk == [chunk[0]] && chunk[1..] == [];
    } else {
      MuxChunk(w.(count := w.count + 1), plan, chunk[1..]);
      assert chunk == [chunk[0]] + chunk[1..];
    }
  }

  // ---------- the client ----------

  /** The audio a client recovers: `n` bytes up to the next length byte, then 16*L bytes skipped, and so on. */
  function Demux(stream: seq<byte>, n: nat, interval: nat): seq<byte>
    decreases |stream|
  {
    if stream == [] then []
    else if n > 0 then [stream[0]] + Demux(stream[1..], n - 1, interval)
    else Demux(stream[Min(BlockLength(stream[0]), |stream|)..], interval, interval)
  }

  /** The metadata blocks the client reads, length bytes included. */
  function ClientBlocks(stream: seq<byte>, n: nat, interval: nat): seq<seq<byte>>
    decreases |stream|
  {
    if stream == [] then []
    else if n > 0 then ClientBlocks(stream[1..], n - 1, interval)
    else
      var m := Min(BlockLength(stream[0]), |stream|);
      [stream[..m]] + ClientBlocks(stream[m..], interval, interval)
  }

  /** The blocks the writer sends. */
  function SentBlocks(w: Writer, plan: Plan, audio: seq<byte>): seq<seq<byte>>
    decreases |audio|
  {
    if audio == [] then []
    else
      (if w.count + 1 == plan.interval then [PointBlock(w, plan)] else []) +
      SentBlocks(PutByte(w, plan, audio[0]).1, plan, audio[1..])
  }

  lemma PointBlockLength(w: Writer, plan: Plan)
    ensures var b := PointBlock(w, plan); b != [] && |b| == BlockLength(b[0])
  {
    hide Block;
    var s := plan.samples(w.points);
    BlockIsComplete(s.meta);
  }

  lemma ClientReadsBlock(b: seq<byte>, rest: seq<byte>, interval: nat)
    requires b != [] && |b| == BlockLength(b[0])
    ensures Demux(b + rest, 0, interval) == Demux(rest, interval, interval)
    ensures ClientBlocks(b + rest, 0, interval) == [b] + ClientBlocks(rest, interval, interval)
  {
    assert (b + rest)[..|b|] == b && (b + rest)[|b|..] == rest;
  }

  /** The client recovers exactly the audio bytes and exactly the blocks, whatever the titles do. */
  lemma {:induction false} ClientRecovers(w: Writer, plan: Plan, audio: seq<byte>)
    requires WriterOk(w, plan) && plan.interval > 0
    ensures var stream := Mux(w, plan, audio);
            Demux(stream, plan.interval - w.count, plan.interval) == audio &&
            ClientBlocks(stream, plan.interval - w.count, plan.interval) == SentBlocks(w, plan, audio)
    decreases |audio|
  {
    hide PointBlock, AfterPoint;
    if audio != [] {
      var (out, w') := PutByte(w, plan, audio[0]);
      var rest := Mux(w', plan, audio[1..]);
      assert WriterOk(w', plan) by { NextWriterOk(w, plan, audio[0]); }
      ClientRecovers(w', plan, audio[1..]);
      var stream := Mux(w, plan, audio);
      if w.count + 1 == plan.interval {
        PointBlockLength(w, plan);
        AfterPointResets(w, plan);
        assert stream[1..] == PointBlock(w, plan) + rest;
        ClientReadsBlock(PointBlock(w, plan), rest, plan.interval);
      } else {
        assert stream[1..] == rest;
      }
      assert audio == [audio[0]] + audio[1..];
    }
  }

  lemma NextWriterOk(w: Writer, plan: Plan, b: byte)
    requires WriterOk(w, plan)
    ensures WriterOk(PutByte(w, plan, b).1, plan)
  {
    hide PointBlock;
  }

  lemma AfterPointResets(w: Writer, plan: Plan)
    ensures AfterPoint(w, plan).count == 0
  {
  }

  /** The whole stream of a connection: any frames in, the same audio out. */
  lemma FramesArrive(plan: Plan, frames: seq<seq<byte>>)
    requires plan.interval > 0
    ensures Demux(Mux(FRESH, plan, Concat(frames)), plan.interval, plan.interval) == Concat(frames)
  {
    hide Mux, Demux;
    ClientRecovers(FRESH, plan, Concat(frames));
  }

  /** A connection that broke off still delivered a prefix of the audio. */
  lemma {:induction false} DemuxPrefix(a: seq<byte>, b: seq<byte>, n: nat, interval: nat)
    requires a <= b
    ensures Demux(a, n, interval) <= Demux(b, n, interval)
    decreases |a|
  {
    if a != [] {
      if n > 0 {
        assert a[1..] <= b[1..];
        DemuxPrefix(a[1..], b[1..], n - 1, interval);
      } else {
        var m := Min(BlockLength(a[0]), |a|);
        if m == |a| {
          assert a[m..] == [];
        } else {
          assert a[m..] <= b[m..];
          DemuxPrefix(a[m..], b[m..], interval, interval);
        }
      }
    }
  }

  // ---------- titles ----------

  /** The title in force after `k` points: the one at the last point where metadata was on. */
  function LatestTitle(plan: Plan, k: nat): seq<byte> {
    if k == 0 then [] else if plan.samples(k - 1).enabled then plan.samples(k - 1).meta else LatestTitle(plan, k - 1)
  }

  /** The last block with content, as a client would display it. */
  function Shown(blocks: seq<seq<byte>>): seq<byte> {
    if blocks == [] then []
    else if |blocks[|blocks| - 1]| > 1 then blocks[|blocks| - 1]
    else Shown(blocks[..|blocks| - 1])
  }

  lemma {:induction false} ShownAppend(shown: seq<byte>, blocks: seq<seq<byte>>, b: seq<byte>)
    ensures Shown(blocks + [b]) == if |b| > 1 then b else Shown(blocks)
  {
    assert (blocks + [b])[..|blocks|] == blocks;
  }

  /** The client shows the title in force: nothing while it is still empty, its block otherwise. */
  ghost predicate Shows(shown: seq<byte>, title: seq<byte>) {
    shown == Block(title) || (shown == [] && title == [])
  }

  /** One metadata point: the block just sent, if it has content, shows the new title. */
  lemma PointShowsTitle(w: Writer, plan: Plan, before: seq<seq<byte>>)
    requires w.last == LatestTitle(plan, w.points) && Shows(Shown(before), w.last)
    ensures var next := AfterPoint(w, plan);
            next.last == LatestTitle(plan, next.points) && Shows(Shown(before + [PointBlock(w, plan)]), next.last)
  {
    hide Block, Shown;
    ShownAppend([], before, PointBlock(w, plan));
    BlockIsComplete(plan.samples(w.points).meta);
  }

  lemma {:induction false} TitleInForce(w: Writer, plan: Plan, audio: seq<byte>, before: seq<seq<byte>>)
    requires WriterOk(w, plan) && w.last == LatestTitle(plan, w.points) && Shows(Shown(before), w.last)
    ensures var e := MuxEnd(w, plan, audio);
            e.last == LatestTitle(plan, e.points) && Shows(Shown(before + SentBlocks(w, plan, audio)), e.last)
    decreases |audio|
  {
    hide Shown, Shows, LatestTitle, PointBlock, AfterPoint, WriterOk;
    if audio == [] {
      assert before + [] == before;
    } else {
      var w' := PutByte(w, plan, audio[0]).1;
      NextWriterOk(w, plan, audio[0]);
      var rest := SentBlocks(w', plan, audio[1..]);
      if w.count + 1 == plan.interval {
        var b := PointBlock(w, plan);
        PointShowsTitle(w, plan, before);
        TitleInForce(w', plan, audio[1..], before + [b]);
        assert before + ([b] + rest) == before + [b] + rest;
      } else {
        TitleInForce(w', plan, audio[1..], before);
        assert [] + rest == rest;
      }
    }
  }

  /** At every moment of a connection the last block with content that the client holds is that of the title of the
      last point with metadata on. */
  lemma ClientShowsTitle(plan: Plan, audio: seq<byte>)
    requires plan.interval > 0
    ensures var stream := Mux(FRESH, plan, audio);
            Shows(Shown(ClientBlocks(stream, plan.interval, plan.interval)),
                  LatestTitle(plan, MuxEnd(FRESH, plan, audio).points))
  {
    hide Mux, MuxEnd, ClientBlocks, SentBlocks, Block;
    ClientRecovers(FRESH, plan, audio);
    TitleInForce(FRESH, plan, audio, []);
    assert [] + SentBlocks(FRESH, plan, audio) == SentBlocks(FRESH, plan, audio);
  }

  /** What stands in front of the first quote with a semicolon behind it. */
  function UpToClose(b: seq<byte>): seq<byte> {
    if |b| < 2 then b else if b[0] == 39 && b[1] == 59 then [] else [b[0]] + UpToClose(b[1..])
  }

  /** The title that a client reads in a block: what follows `StreamTitle='` up to the first `';`. */
  function TitleIn(block: seq<byte>): seq<byte> {
    AsciiParts();
    if block != [] && BytesOf(TITLE) <= block[1..] then UpToClose(block[1..][13..]) else []
  }

  /** No quote with a semicolon behind it. */
  predicate NoClose(t: seq<byte>) { forall i | 0 <= i < |t| - 1 :: !(t[i] == 39 && t[i + 1] == 59) }

  lemma {:induction false} UpToCloseIff(t: seq<byte>, rest: seq<byte>)
    requires |rest| > 1 && rest[0] == 39 && rest[1] == 59
    ensures UpToClose(t + rest) == t <==> NoClose(t)
    ensures |UpToClose(t + rest)| <= |t|
  {
    if t == [] {
      assert t + rest == rest;
    } else {
      assert (t + rest)[1..] == t[1..] + rest;
      UpToCloseIff(t[1..], rest);
      assert t == [t[0]] + t[1..];
      NoCloseStep(t);
    }
  }

  lemma NoCloseStep(t: seq<byte>)
    requires t != []
    ensures NoClose(t) <==> NoClose(t[1..]) && !(|t| > 1 && t[0] == 39 && t[1] == 59)
  {
    if NoClose(t[1..]) && !(|t| > 1 && t[0] == 39 && t[1] == 59) {
      forall i | 0 <= i < |t| - 1 ensures !(t[i] == 39 && t[i + 1] == 59) {
        if i > 0 { assert t[i] == t[1..][i - 1] && t[i + 1] == t[1..][i]; }
      }
    }
  }

  lemma TailCloses()
    ensures var t := (AsciiParts(); BytesOf(TAIL)); t[0] == 39 && t[1] == 59
  {
  }

  /** From the block of a title a client reads that title if and only if it has at most 255 bytes and no quote with a
      semicolon behind it. */
  lemma TitleInIff(meta: seq<byte>)
    ensures TitleIn(Block(meta)) == meta <==> |meta| <= 255 && NoClose(meta)
  {
    hide BytesOf, UpToClose, NoClose, Block;
    AsciiParts();
    BlockIsComplete(meta);
    TailCloses();
    var b, p := Block(meta)[1..], Payload(meta);
    var rest := BytesOf(TAIL) + b[|p|..];
    assert b == p + b[|p|..] by { assert b[..|p|] == p; }
    assert b[13..] == Safe(meta) + rest && b[..13] == BytesOf(TITLE);
    UpToCloseIff(Safe(meta), rest);
  }

  /** At every moment of a connection a client reads the title of the last point with metadata on if and only if that
      title has at most 255 bytes and no quote with a semicolon behind it. */
  lemma ClientReadsTitleIff(plan: Plan, audio: seq<byte>)
    requires plan.interval > 0
    ensures var blocks := ClientBlocks(Mux(FRESH, plan, audio), plan.interval, plan.interval);
            var title := LatestTitle(plan, MuxEnd(FRESH, plan, audio).points);
            TitleIn(Shown(blocks)) == title <==> |title| <= 255 && NoClose(title)
  {
    hide Mux, MuxEnd, ClientBlocks, Block, Shown, LatestTitle;
    ClientShowsTitle(plan, audio);
    TitleInIff(LatestTitle(plan, MuxEnd(FRESH, plan, audio).points));
  }

  // ---------- the writers ----------

  /** A connected stream socket: `wire` is what the peer will read. A send fails or takes at least one byte. */
  class Socket {
    var wire: seq<byte>

    method Send(data: seq<byte>) returns (rc: int)
      requires data != []
      modifies this
      ensures rc == -1 || 1 <= rc <= |data|
      ensures wire == old(wire) + if rc < 0 then [] else data[..rc]
    {
      rc := *;
      if rc < 1 || rc > |data| { rc := -1; }
      if rc > 0 { wire := wire + data[..rc]; }
    }

    /** The MP3 writer's loop round partial sends. */
    method SendAll(data: seq<byte>) returns (ok: bool)
      modifies this
      ensures ok ==> wire == old(wire) + data
      ensures !ok ==> old(wire) <= wire < old(wire) + data
    {
      var off := 0;
      while off < |data|
        invariant 0 <= off <= |data| && wire == old(wire) + data[..off]
      {
        var rc := Send(data[off..]);
        if rc < 0 { return false; }
        assert data[..off] + data[off..][..rc] == data[..off + rc];
        off := off + rc;
      }
      ok := true;
    }
  }

  /** The wire grew by `sent` with `lost` bytes missing from it; with none missing it holds `sent` exactly. */
  ghost predicate Carries(before: seq<byte>, after: seq<byte>, sent: seq<byte>, lost: nat) {
    before <= after && |after| + lost == |before| + |sent| && (lost == 0 ==> after == before + sent)
  }

  lemma CarriesOn(a: seq<byte>, b: seq<byte>, c: seq<byte>, x: seq<byte>, y: seq<byte>, m: nat, n: nat)
    requires Carries(a, b, x, m) && Carries(b, c, y, n)
    ensures Carries(a, c, x + y, m + n)
  {
    assert a + x + y == a + (x + y);
  }

  /** The first `sent` bytes of a frame are out; what the next chunk adds, and what it leaves for the rest. */
  lemma NextChunk(w0: Writer, plan: Plan, frame: seq<byte>, sent: nat, chunk: nat)
    requires WriterOk(w0, plan) && 0 < chunk && sent + chunk <= |frame|
    requires var w := MuxEnd(w0, plan, frame[..sent]); plan.interval == 0 || chunk <= plan.interval - w.count
    ensures var w, part := MuxEnd(w0, plan, frame[..sent]), frame[sent..sent + chunk];
            var due := plan.interval > 0 && w.count + chunk == plan.interval;
            Mux(w0, plan, frame[..sent + chunk]) ==
              Mux(w0, plan, frame[..sent]) + (part + if due then PointBlock(w, plan) else []) &&
            MuxEnd(w0, plan, frame[..sent + chunk]) ==
              (if due then AfterPoint(w, plan) else w.(count := w.count + chunk)) &&
            Mux(w0, plan, frame[..sent + chunk]) <= Mux(w0, plan, frame)
  {
    hide Mux, MuxEnd, PointBlock, AfterPoint;
    var w, part := MuxEnd(w0, plan, frame[..sent]), frame[sent..sent + chunk];
    MuxEndOk(w0, plan, frame[..sent]);
    assert frame[..sent + chunk] == frame[..sent] + part;
    MuxConcat(w0, plan, frame[..sent], part);
    MuxChunk(w, plan, part);
    assert part + [] == part;
    assert frame == frame[..sent + chunk] + frame[sent + chunk..];
    MuxConcat(w0, plan, frame[..sent + chunk], frame[sent + chunk..]);
  }

  /** The AAC writer at a metadata point: short sends go unnoticed, and so does a failed zero byte. */
  method AacPoint(sock: Socket, plan: Plan, w: Writer) returns (ok: bool, next: Writer, ghost lost: nat)
    modifies sock
    ensures ok ==> next == AfterPoint(w, plan) && Carries(old(sock.wire), sock.wire, PointBlock(w, plan), lost)
    ensures !ok ==> sock.wire == old(sock.wire)
  {
    hide Block;
    var s := plan.samples(w.points);
    lost := 0;
    var last := w.last;
    if s.enabled && s.meta != last {
      BlockIsComplete(s.meta);
      var block := BuildIcyMetadata(s.meta);
      var rc := sock.Send(block);
      if rc < 0 { return false, w, 0; }
      lost := |block| - rc;
      assert lost == 0 ==> block[..rc] == block;
      last := s.meta;
    } else {
      var rc := sock.Send([0]);
      lost := if rc < 0 then 1 else 0;
    }
    ok, next := true, Writer(0, last, w.points + 1);
  }

  /** Audio count and position after one turn of the AAC loop on a frame of `size` bytes, for any interval. */
  function AacTurn(interval: int, count: nat, sent: nat, size: nat): (r: (nat, nat))
    requires sent < size
    ensures sent <= r.1 <= size
  {
    var chunk := Min(interval - count, size - sent);
    var moved := if chunk > 0 then chunk else 0;
    (if count + moved >= interval then 0 else count + moved, sent + moved)
  }

  /** One turn of the AAC loop, whatever the interval: a chunk of audio if there is room for one, and a block if
      it is due. After a failed send the chunk may be out or not. */
  method AacStep(sock: Socket, plan: Plan, interval: int, w: Writer, frame: seq<byte>, sent: nat)
    returns (ok: bool, next: Writer, now: nat, ghost lost: nat)
    requires sent < |frame|
    modifies sock
    ensures sent <= now <= |frame|
    ensures ok ==> (next.count, now) == AacTurn(interval, w.count, sent, |frame|)
    ensures ok ==> var due := w.count + (now - sent) >= interval;
                   next == (if due then AfterPoint(w, plan) else w.(count := w.count + (now - sent))) &&
                   Carries(old(sock.wire), sock.wire,
                           frame[sent..now] + if due then PointBlock(w, plan) else [], lost)
    ensures !ok ==> now == sent || now == AacTurn(interval, w.count, sent, |frame|).1
    ensures !ok && lost == 0 ==> sock.wire == old(sock.wire) + frame[sent..now]
  {
    hide PointBlock, AfterPoint;
    now, next, lost := sent, w, 0;
    var chunk := Min(interval - w.count, |frame| - sent);
    if chunk > 0 {
      var rc := sock.Send(frame[sent..sent + chunk]);
      if rc < 0 {
        return false, w, sent, 0;
      }
      lost := chunk - rc;
      assert lost == 0 ==> frame[sent..sent + chunk][..rc] == frame[sent..sent + chunk];
      now := sent + chunk;
      next := w.(count := w.count + chunk);
    }
    assert frame[sent..now] + [] == frame[sent..now];
    if next.count >= interval {
      ghost var wire1 := sock.wire;
      var met, after, missing := AacPoint(sock, plan, next);
      SamePoint(w, next, plan);
      if !met { return false, w, now, lost; }
      CarriesOn(old(sock.wire), wire1, sock.wire, frame[sent..now], PointBlock(w, plan), lost, missing);
      lost := lost + missing;
      next := after;
      AfterPointResets(w, plan);
    }
    ok := true;
  }

  /** The inner loop of the AAC writer on one frame; `turns` counts its turns. */
  method AacFrame(sock: Socket, plan: Plan, w0: Writer, frame: seq<byte>)
    returns (running: bool, w: Writer, ghost lost: nat, ghost turns: nat)
    requires WriterOk(w0, plan) && plan.interval > 0
    modifies sock
    ensures running ==> w == MuxEnd(w0, plan, frame) && Carries(old(sock.wire), sock.wire, Mux(w0, plan, frame), lost)
    ensures !running && lost == 0 ==> old(sock.wire) <= sock.wire <= old(sock.wire) + Mux(w0, plan, frame)
    ensures running ==> AacTurns(plan.interval, w0.count, |frame|, turns) == (w.count, |frame|)
  {
    hide Mux, MuxEnd, PointBlock, AfterPoint, AacTurn;
    var sent := 0;
    w, lost, turns := w0, 0, 0;
    MuxNothing(w0, plan);
    assert frame[..0] == [];
    while sent < |frame|
      invariant 0 <= sent <= |frame|
      invariant WriterOk(w, plan) && w == MuxEnd(w0, plan, frame[..sent])
      invariant Carries(old(sock.wire), sock.wire, Mux(w0, plan, frame[..sent]), lost)
      invariant AacTurns(plan.interval, w0.count, |frame|, turns) == (w.count, sent)
    {
      ghost var wire0, w1, out0 := sock.wire, w, Mux(w0, plan, frame[..sent]);
      TurnMoves(plan.interval, w.count, sent, |frame|);
      ghost var chunk := Min(plan.interval - w.count, |frame| - sent);
      NextChunk(w0, plan, frame, sent, chunk);
      var ok, next, now, missing := AacStep(sock, plan, plan.interval, w, frame, sent);
      if !ok {
        ghost var whole := lost + missing;
        if whole == 0 { FailedStep(old(sock.wire), out0, frame[sent..now], Mux(w0, plan, frame)); }
        return false, w, whole, turns;
      }
      ghost var part := frame[sent..now] + if w.count + chunk >= plan.interval then PointBlock(w, plan) else [];
      CarriesOn(old(sock.wire), wire0, sock.wire, out0, part, lost, missing);
      lost, turns := lost + missing, turns + 1;
      sent, w := now, next;
      AfterPointResets(w1, plan);
    }
    assert frame[..sent] == frame;
    running := true;
  }

  lemma TurnMoves(interval: int, count: nat, sent: nat, size: nat)
    requires sent < size && count < interval
    ensures var chunk := Min(interval - count, size - sent);
            chunk > 0 && AacTurn(interval, count, sent, size) ==
                         (if count + chunk >= interval then 0 else count + chunk, sent + chunk)
  {
  }

  lemma FailedStep(before: seq<byte>, out: seq<byte>, part: seq<byte>, all: seq<byte>)
    requires out + part <= all
    ensures before <= before + out + part <= before + all
  {
    assert before + out + part == before + (out + part);
  }

  /** Audio count and position after `k` turns on a frame when every send succeeds. */
  function AacTurns(interval: int, start: nat, size: nat, k: nat): (nat, nat) {
    if k == 0 then (start, 0)
    else
      var (count, sent) := AacTurns(interval, start, size, k - 1);
      if sent < size then AacTurn(interval, count, sent, size) else (count, sent)
  }

  lemma {:induction false} AacTurnsAdvance(interval: int, start: nat, size: nat, k: nat)
    requires interval > 0 ==> start < interval
    ensures var (count, sent) := AacTurns(interval, start, size, k);
            sent <= size && if interval > 0 then count < interval && (sent >= k || sent == size) else sent == 0
  {
    if k > 0 { AacTurnsAdvance(interval, start, size, k - 1); }
  }

  /** From every count a frame can start with, the AAC loop gets through the frame if and only if the interval is
      positive; the MP3 loop always does. */
  lemma AacLoopEndsIff(interval: int, start: nat, size: nat)
    requires size > 0 && (interval > 0 ==> start < interval)
    ensures (exists k: nat :: AacTurns(interval, start, size, k).1 == size) <==> interval > 0
  {
    AacTurnsAdvance(interval, start, size, size);
    forall k: nat | AacTurns(interval, start, size, k).1 == size ensures interval > 0 {
      AacTurnsAdvance(interval, start, size, k);
    }
    assert interval > 0 ==> AacTurns(interval, start, size, size).1 == size;
  }

  lemma MuxNothing(w: Writer, plan: Plan)
    ensures Mux(w, plan, []) == [] && MuxEnd(w, plan, []) == w
  {
  }

  lemma SamePoint(a: Writer, b: Writer, plan: Plan)
    requires a.last == b.last && a.points == b.points
    ensures PointBlock(a, plan) == PointBlock(b, plan) && AfterPoint(a, plan) == AfterPoint(b, plan)
  {
  }

  /** The AAC writer over the frames it takes from the queue, until they end or a send fails. With no byte lost
      the wire holds the interleaved stream, or a beginning of it after a failure; any lost byte shortens it. */
  method AacWriterLoop(sock: Socket, plan: Plan, frames: seq<seq<byte>>) returns (running: bool, ghost lost: nat)
    requires plan.interval > 0 && sock.wire == []
    modifies sock
    ensures running ==> (lost == 0 <==> sock.wire == Mux(FRESH, plan, Concat(frames)))
    ensures running ==> |sock.wire| + lost == |Mux(FRESH, plan, Concat(frames))|
    ensures lost == 0 ==> sock.wire <= Mux(FRESH, plan, Concat(frames))
  {
    hide Mux, MuxEnd, WriterOk;
    var w := FRESH;
    running, lost := true, 0;
    MuxNothing(FRESH, plan);
    FreshOk(plan);
    var i := 0;
    assert frames[..0] == [];
    while i < |frames|
      invariant 0 <= i <= |frames|
      invariant WriterOk(w, plan) && w == MuxEnd(FRESH, plan, Concat(frames[..i]))
      invariant Carries([], sock.wire, Mux(FRESH, plan, Concat(frames[..i])), lost)
    {
      FramesSoFar(plan, frames, i);
      ghost var wire0 := sock.wire;
      ghost var missing;
      MuxEndOk(w, plan, frames[i]);
      ghost var w1 := w;
      ghost var turns;
      running, w, missing, turns := AacFrame(sock, plan, w, frames[i]);
      if !running {
        return false, lost + missing;
      }
      CarriesOn([], wire0, sock.wire, Mux(FRESH, plan, Concat(frames[..i])), Mux(w1, plan, frames[i]), lost, missing);
      lost := lost + missing;
      i := i + 1;
    }
    assert frames[..i] == frames;
  }

  lemma FreshOk(plan: Plan)
    ensures WriterOk(FRESH, plan)
  {
  }

  lemma FramesSoFar(plan: Plan, frames: seq<seq<byte>>, i: nat)
    requires i < |frames|
    ensures var w := MuxEnd(FRESH, plan, Concat(frames[..i]));
            var out := Mux(FRESH, plan, Concat(frames[..i]));
            Mux(FRESH, plan, Concat(frames[..i + 1])) == out + Mux(w, plan, frames[i]) &&
            MuxEnd(FRESH, plan, Concat(frames[..i + 1])) == MuxEnd(w, plan, frames[i]) &&
            out + Mux(w, plan, frames[i]) <= Mux(FRESH, plan, Concat(frames))
  {
    hide Mux, MuxEnd, Concat;
    assert frames[..i + 1] == frames[..i] + [frames[i]];
    ConcatAppend(frames[..i], [frames[i]]);
    ConcatOne(frames[i]);
    MuxConcat(FRESH, plan, Concat(frames[..i]), frames[i]);
    assert frames == frames[..i + 1] + frames[i + 1..];
    ConcatAppend(frames[..i + 1], frames[i + 1..]);
    MuxConcat(FRESH, plan, Concat(frames[..i + 1]), Concat(frames[i + 1..]));
  }

  /** The MP3 writer at a metadata point. */
  method Mp3Point(sock: Socket, plan: Plan, w: Writer) returns (ok: bool, next: Writer)
    modifies sock
    ensures ok ==> next == AfterPoint(w, plan) && sock.wire == old(sock.wire) + PointBlock(w, plan)
    ensures !ok ==> old(sock.wire) <= sock.wire <= old(sock.wire) + PointBlock(w, plan)
  {
    hide Block;
    var s := plan.samples(w.points);
    var last := w.last;
    if s.enabled && s.meta != last {
      var block := BuildIcyMetadata(s.meta);
      ok := sock.SendAll(block);
      last := s.meta;
    } else {
      ok := sock.SendAll([0]);
    }
    next := if ok then Writer(0, last, w.points + 1) else w;
  }

  method Mp3Frame(sock: Socket, plan: Plan, w0: Writer, frame: seq<byte>) returns (running: bool, w: Writer)
    requires WriterOk(w0, plan)
    modifies sock
    ensures running ==> w == MuxEnd(w0, plan, frame) && sock.wire == old(sock.wire) + Mux(w0, plan, frame)
    ensures old(sock.wire) <= sock.wire <= old(sock.wire) + Mux(w0, plan, frame)
  {
    hide Mux, MuxEnd, PointBlock, AfterPoint;
    var sent := 0;
    w := w0;
    MuxNothing(w0, plan);
    assert frame[..0] == [];
    while sent < |frame|
      invariant 0 <= sent <= |frame|
      invariant WriterOk(w, plan) && w == MuxEnd(w0, plan, frame[..sent])
      invariant sock.wire == old(sock.wire) + Mux(w0, plan, frame[..sent])
    {
      ghost var w1, out0 := w, Mux(w0, plan, frame[..sent]);
      var chunk := Min(if plan.interval > 0 then plan.interval - w.count else |frame|, |frame| - sent);
      NextChunk(w0, plan, frame, sent, chunk);
      var ok := sock.SendAll(frame[sent..sent + chunk]);
      if !ok {
        return false, w;
      }
      sent := sent + chunk;
      w := w.(count := w.count + chunk);
      if plan.interval > 0 && w.count >= plan.interval {
        ok, w := Mp3Point(sock, plan, w);
        SamePoint(w1, w1.(count := w1.count + chunk), plan);
        if !ok { return false, w; }
        AfterPointResets(w1, plan);
      }
    }
    assert frame[..sent] == frame;
    running := true;
  }

  /** The MP3 writer repeats partial sends, so the wire is always a beginning of the interleaved stream,
      and all of it when no send failed. */
  method Mp3WriterLoop(sock: Socket, plan: Plan, frames: seq<seq<byte>>) returns (running: bool)
    requires sock.wire == []
    modifies sock
    ensures running ==> sock.wire == Mux(FRESH, plan, Concat(frames))
    ensures sock.wire <= Mux(FRESH, plan, Concat(frames))
  {
    hide Mux, MuxEnd, WriterOk;
    var w := FRESH;
    running := true;
    MuxNothing(FRESH, plan);
    FreshOk(plan);
    var i := 0;
    assert frames[..0] == [];
    while i < |frames|
      invariant 0 <= i <= |frames|
      invariant WriterOk(w, plan) && w == MuxEnd(FRESH, plan, Concat(frames[..i]))
      invariant sock.wire == Mux(FRESH, plan, Concat(frames[..i]))
    {
      FramesSoFar(plan, frames, i);
      MuxEndOk(w, plan, frames[i]);
      running, w := Mp3Frame(sock, plan, w, frames[i]);
      if !running { return; }
      i := i + 1;
    }
    assert frames[..i] == frames;
  }
}
