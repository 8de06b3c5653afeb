/** HLS segment cutting of the reference encoder: ADTS frames are found in the bytes received so far and
    gathered into numbered segments. */
module Adts {
  import opened Bytes

  // ---------- frames ----------

  /** Bits 30 to 42 of an ADTS header that starts at `i`: the frame length, header included. */
  function LengthAt(b: seq<byte>, i: nat): nat
    requires i + 5 < |b|
  {
    var b3: int, b4: int, b5: int := b[i + 3], b[i + 4], b[i + 5];
    (b3 % 4) * 2048 + b4 * 8 + b5 / 32
  }

  /** The twelve sync bits, with a length that is not zero. */
  predicate HeaderAt(b: seq<byte>, i: nat)
    requires i + 7 < |b|
  {
    var b1: int := b[i + 1];
    b[i] == 255 && b1 / 16 == 15 && LengthAt(b, i) != 0
  }

  /** An ADTS frame as ISO/IEC 14496-3 Annex 1.A lays it out: at least the 7 header bytes, and a length field
      that counts all of it. */
  ghost predicate IsFrame(f: seq<byte>) {
    |f| >= 7 && f[0] == 255 && (var b1: int := f[1]; b1 / 16 == 15) && LengthAt(f, 0) == |f|
  }

  datatype Found = NotYet | Frame(offset: nat, length: nat)

  function Find(b: seq<byte>, i: nat): Found
    decreases |b| - i
  {
    if i + 7 >= |b| then NotYet
    else if HeaderAt(b, i) then (if i + LengthAt(b, i) > |b| then NotYet else Frame(i, LengthAt(b, i)))
    else Find(b, i + 1)
  }

  ghost predicate FirstHeader(b: seq<byte>, i: nat, j: nat) {
    i <= j && j + 7 < |b| && HeaderAt(b, j) && forall k: nat | i <= k < j :: !HeaderAt(b, k)
  }

  /** A frame is found exactly when the first header is followed by all its bytes; a first header that still
      lacks some blocks the search, even where later bytes look like a whole frame. */
  lemma {:induction false} FindIff(b: seq<byte>, i: nat, j: nat, n: nat)
    ensures Find(b, i) == Frame(j, n) <==> FirstHeader(b, i, j) && n == LengthAt(b, j) && j + n <= |b|
    decreases |b| - i
  {
    hide LengthAt;
    if i + 7 < |b| && !HeaderAt(b, i) {
      FindIff(b, i + 1, j, n);
      assert FirstHeader(b, i, j) <==> FirstHeader(b, i + 1, j);
    }
  }

  method FindAdtsFrame(b: seq<byte>, start: nat) returns (found: bool, offset: nat, length: nat)
    ensures Find(b, start) == if found then Frame(offset, length) else NotYet
  {
    hide LengthAt;
    offset, length := 0, 0;
    var i := start;
    while i + 7 < |b|
      invariant Find(b, start) == Find(b, i)
    {
      var b1: int := b[i + 1];
      if b[i] == 255 && b1 / 16 == 15 {
        var len := LengthAt(b, i);
        if len != 0 {
          if i + len > |b| { return false, 0, 0; }
          return true, i, len;
        }
      }
      i := i + 1;
    }
    found := false;
  }

  // ---------- the writer's state ----------

  datatype File = File(number: int, data: seq<byte>)

  /** Bytes not yet searched, the open segment with its sample count, the next segment number, the files. */
  datatype Cutter = Cutter(buffer: seq<byte>, segment: seq<byte>, samples: int, number: int, files: seq<File>)

  datatype Event = Arrive(encoded: seq<byte>) | Turn

  const SAMPLES_PER_FRAME := 1024

  function TargetSamples(segmentSeconds: int, sampleRate: int): int {
    (if segmentSeconds > 2 then segmentSeconds else 2) * sampleRate
  }

  function Started(number: int): Cutter { Cutter([], [], 0, if number < 0 then 0 else number, []) }

  function Flush(c: Cutter): Cutter {
    Cutter(c.buffer, [], 0, c.number + 1, c.files + [File(c.number, c.segment)])
  }

  function Step(c: Cutter, e: Event, target: int): Cutter {
    match e
    case Arrive(encoded) => c.(buffer := c.buffer + encoded)
    case Turn =>
      match Find(c.buffer, 0)
      case NotYet => c
      case Frame(o, n) =>
        FindIff(c.buffer, 0, o, n);
        var d := c.(segment := c.segment + c.buffer[o..o + n], buffer := c.buffer[o + n..],
                    samples := c.samples + SAMPLES_PER_FRAME);
        if d.samples >= target then Flush(d) else d
  }

  function Stopped(c: Cutter): Cutter { if c.segment != [] then Flush(c) else c }

  function Run(c: Cutter, events: seq<Event>, target: int): Cutter
    decreases |events|
  {
    if events == [] then c
    else Step(Run(c, events[..|events| - 1], target), events[|events| - 1], target)
  }

  function Pushed(events: seq<Event>): seq<byte>
    decreases |events|
  {
    if events == [] then []
    else
      Pushed(events[..|events| - 1]) +
      match events[|events| - 1] case Arrive(encoded) => encoded case Turn => []
  }

  /** The writer thread's locals and the shared buffer, sequence number and files it works on. */
  class HlsThread {
    var buffer: seq<byte>
    var segment: seq<byte>
    var segmentSamples: int
    var seqNumber: int
    var files: seq<File>
    const targetSamples: int

    ghost function Value(): Cutter
      reads this
    {
      Cutter(buffer, segment, segmentSamples, seqNumber, files)
    }

    constructor (number: int, segmentSeconds: int, sampleRate: int)
      ensures Value() == Started(number) && targetSamples == TargetSamples(segmentSeconds, sampleRate)
    {
      buffer, segment, segmentSamples, files := [], [], 0, [];
      seqNumber := if number < 0 then 0 else number;
      targetSamples := TargetSamples(segmentSeconds, sampleRate);
    }

    method OnEncodedFrame(encoded: seq<byte>)
      modifies this
      ensures Value() == Step(old(Value()), Arrive(encoded), targetSamples)
    {
      if encoded == [] {
        assert buffer + encoded == buffer;
        return;
      }
      buffer := buffer + encoded;
    }

    method WriteSegment()
      modifies this
      ensures Value() == Flush(old(Value()))
    {
      var number := seqNumber;
      seqNumber := seqNumber + 1;
      files := files + [File(number, segment)];
      segment, segmentSamples := [], 0;
    }

    method Poll()
      modifies this
      ensures Value() == Step(old(Value()), Turn, targetSamples)
    {
      var found, offset, length := FindAdtsFrame(buffer, 0);
      if found {
        FindIff(buffer, 0, offset, length);
        segment := segment + buffer[offset..offset + length];
        segmentSamples := segmentSamples + SAMPLES_PER_FRAME;
        buffer := buffer[offset + length..];
        if segmentSamples >= targetSamples {
          WriteSegment();
        }
      }
    }

    method Finish()
      modifies this
      ensures Value() == Stopped(old(Value()))
    {
      if segment != [] { WriteSegment(); }
    }
  }

  // ---------- frames in, whole frames out ----------

  /** The least number of frames, at least one, whose samples reach the target. */
  ghost function PerSegment(target: int): (n: nat)
    ensures n >= 1 && n * SAMPLES_PER_FRAME >= target && (n == 1 || (n - 1) * SAMPLES_PER_FRAME < target)
  {
    if target <= SAMPLES_PER_FRAME then 1 else (target + SAMPLES_PER_FRAME - 1) / SAMPLES_PER_FRAME
  }

  /** A length printed into its three bytes, whatever the other bits of them are, is read back. */
  lemma LengthReads(b: seq<byte>, i: nat, n: nat, hi: nat, lo: nat)
    requires i + 5 < |b| && n < 8192 && hi < 64 && lo < 32
    requires b[i + 3] == hi * 4 + n / 2048 && b[i + 4] == n / 8 % 256 && b[i + 5] == n % 8 * 32 + lo
    ensures LengthAt(b, i) == n
  {
  }

  /** A file holds at least two seconds, or the segment length if that is more, and less than one frame beyond. */
  lemma FileSeconds(segmentSeconds: int, sampleRate: nat)
    ensures var n := PerSegment(TargetSamples(segmentSeconds, sampleRate)) * SAMPLES_PER_FRAME;
            n >= 2 * sampleRate && n >= segmentSeconds * sampleRate &&
            (n > SAMPLES_PER_FRAME ==>
               n - SAMPLES_PER_FRAME < 2 * sampleRate || n - SAMPLES_PER_FRAME < segmentSeconds * sampleRate)
  {
    if segmentSeconds <= 2 { assert segmentSeconds * sampleRate <= 2 * sampleRate; }
    else { assert segmentSeconds * sampleRate >= 2 * sampleRate; }
  }

  /** Files are numbered from the number given, from 0 if that is negative. */
  lemma FirstFileNumber(number: int)
    ensures Flush(Started(number)).files[0].number >= 0
    ensures number >= 0 ==> Flush(Started(number)).files[0].number == number
    ensures number < 0 ==> Flush(Started(number)).files[0].number == 0
  {
  }

  /** How far a run is: the frames of each segment written, of the open one, and those not taken yet. */
  datatype Progress = Progress(cuts: seq<seq<seq<byte>>>, open: seq<seq<byte>>, rest: seq<seq<byte>>)

  function Flatten(cuts: seq<seq<seq<byte>>>): seq<seq<byte>> {
    if cuts == [] then [] else Flatten(cuts[..|cuts| - 1]) + cuts[|cuts| - 1]
  }

  ghost function Taken(p: Progress): seq<seq<byte>> { Flatten(p.cuts) + p.open }

  /** Every file is a run of whole frames, of the same least number reaching the target, numbered in order; the
      open segment is the next frames, fewer than that; the buffer is what has arrived of the rest. */
  ghost predicate Represents(c: Cutter, p: Progress, first: int, target: int) {
    var n := PerSegment(target);
    |c.files| == |p.cuts| &&
    (forall j | 0 <= j < |p.cuts| :: |p.cuts[j]| == n && c.files[j] == File(first + j, Concat(p.cuts[j]))) &&
    c.number == first + |p.cuts| &&
    c.segment == Concat(p.open) && c.samples == SAMPLES_PER_FRAME * |p.open| && |p.open| < n &&
    c.buffer <= Concat(p.rest)
  }

  ghost predicate AllFrames(frames: seq<seq<byte>>) { forall f | f in frames :: IsFrame(f) }

  /** At a frame boundary the search finds exactly the next frame, as soon as it and 8 bytes are there. */
  lemma NextFrameIsFound(b: seq<byte>, rest: seq<seq<byte>>)
    requires AllFrames(rest) && b <= Concat(rest)
    ensures Find(b, 0) ==
            if |b| >= 8 && |b| >= |rest[0]| then Frame(0, |rest[0]|) else NotYet
    ensures |b| >= 8 ==> rest != []
    ensures |b| >= 8 && |b| >= |rest[0]| ==>
              b[..|rest[0]|] == rest[0] && b[|rest[0]|..] <= Concat(rest[1..])
  {
    if |b| >= 8 {
      var f, tail := rest[0], Concat(rest[1..]);
      assert f in rest;
      assert Concat(rest) == f + tail;
      assert forall k | 0 <= k < 6 :: b[k] == f[k];
      if |b| >= |f| {
        assert Concat(rest)[|f|..] == tail;
      }
    }
  }

  lemma FlattenAppend(cuts: seq<seq<seq<byte>>>, s: seq<seq<byte>>)
    ensures Flatten(cuts + [s]) == Flatten(cuts) + s
  {
    assert (cuts + [s])[..|cuts|] == cuts;
  }

  /** One frame moves from the rest to the open segment, which closes when it is full. */
  ghost function Advance(p: Progress, n: nat): Progress
    requires p.rest != []
  {
    if |p.open| + 1 >= n then Progress(p.cuts + [p.open + [p.rest[0]]], [], p.rest[1..])
    else Progress(p.cuts, p.open + [p.rest[0]], p.rest[1..])
  }

  lemma AdvanceKeepsFrames(p: Progress, n: nat)
    requires p.rest != []
    ensures Taken(Advance(p, n)) == Taken(p) + [p.rest[0]]
    ensures Taken(Advance(p, n)) + Advance(p, n).rest == Taken(p) + p.rest
    ensures Advance(p, n).rest == p.rest[1..]
  {
    FlattenAppend(p.cuts, p.open + [p.rest[0]]);
    assert Flatten(p.cuts) + (p.open + [p.rest[0]]) == Flatten(p.cuts) + p.open + [p.rest[0]];
    assert [p.rest[0]] + p.rest[1..] == p.rest;
  }

  lemma AppendFrame(fs: seq<seq<byte>>, f: seq<byte>)
    ensures Concat(fs + [f]) == Concat(fs) + f
  {
    ConcatAppend(fs, [f]);
    ConcatOne(f);
  }

  lemma TurnAdvances(c: Cutter, p: Progress, first: int, target: int)
    requires AllFrames(p.rest) && Represents(c, p, first, target)
    ensures var d := Step(c, Turn, target);
            if |c.buffer| >= 8 && |c.buffer| >= |p.rest[0]|
            then Represents(d, Advance(p, PerSegment(target)), first, target) && c.buffer == p.rest[0] + d.buffer
            else d == c
    ensures |c.buffer| >= 8 ==> p.rest != []
  {
    hide Find, Concat, IsFrame;
    NextFrameIsFound(c.buffer, p.rest);
    if |c.buffer| >= 8 && |c.buffer| >= |p.rest[0]| {
      var f := p.rest[0];
      AppendFrame(p.open, f);
      ConcatNothing();
      assert c.buffer == c.buffer[..|f|] + c.buffer[|f|..];
      assert c.buffer[0..0 + |f|] == f;
    }
  }

  lemma ConcatNothing()
    ensures Concat([]) == []
  {
  }

  lemma SuffixAllFrames(a: seq<seq<byte>>, b: seq<seq<byte>>)
    requires AllFrames(a + b)
    ensures AllFrames(b)
  {
    hide IsFrame;
    forall f | f in b ensures IsFrame(f) {
      assert f in a + b;
    }
  }

  /** A frame of seven bytes at the end of the stream: a header alone, which the search needs one more byte to see. */
  function Left(rest: seq<seq<byte>>): seq<seq<byte>> {
    if rest != [] && |rest[|rest| - 1]| < 8 then rest[|rest| - 1..] else []
  }

  lemma LeftStays(b: seq<byte>, rest: seq<seq<byte>>)
    requires rest != [] && |b| >= 8 && b <= Concat(rest)
    ensures Left(rest[1..]) == Left(rest)
  {
    if |rest| == 1 {
      ConcatOne(rest[0]);
      assert rest == [rest[0]];
    }
  }

  lemma BufferOf(c: Cutter, p: Progress, first: int, target: int)
    requires Represents(c, p, first, target)
    ensures c.buffer <= Concat(p.rest)
  {
  }

  /** However the bytes of a stream of frames arrive and however often the thread looks, each file and the open
      segment consist of whole frames in order, and with the buffer they are exactly the bytes that arrived. */
  lemma {:induction false} WholeFrames(frames: seq<seq<byte>>, events: seq<Event>, number: int, target: int)
    returns (p: Progress)
    requires AllFrames(frames) && Pushed(events) <= Concat(frames)
    ensures var c := Run(Started(number), events, target);
            Taken(p) + p.rest == frames && Represents(c, p, Started(number).number, target) &&
            Concat(Taken(p)) + c.buffer == Pushed(events) && Left(p.rest) == Left(frames)
    decreases |events|
  {
    hide Find, Represents, IsFrame, Concat, Left, Taken;
    if events == [] {
      p := Progress([], [], frames);
      StartRepresents(frames, number, target);
    } else {
      var before, e := events[..|events| - 1], events[|events| - 1];
      assert Pushed(before) <= Pushed(events);
      var q := WholeFrames(frames, before, number, target);
      var c := Run(Started(number), before, target);
      SuffixAllFrames(Taken(q), q.rest);
      match e {
        case Arrive(encoded) =>
          ArriveKeeps(c, q, encoded, Started(number).number, target);
          p := q;
        case Turn =>
          p := TurnKeeps(c, q, Started(number).number, target);
      }
    }
  }

  /** One turn: the next frame is taken, or nothing changes. */
  lemma TurnKeeps(c: Cutter, q: Progress, first: int, target: int) returns (p: Progress)
    requires AllFrames(q.rest) && Represents(c, q, first, target)
    ensures Represents(Step(c, Turn, target), p, first, target)
    ensures Taken(p) + p.rest == Taken(q) + q.rest && Left(p.rest) == Left(q.rest)
    ensures Concat(Taken(p)) + Step(c, Turn, target).buffer == Concat(Taken(q)) + c.buffer
  {
    hide Find, Represents, IsFrame, Concat, Left, Taken, Advance, Step;
    p := q;
    TurnAdvances(c, q, first, target);
    if |c.buffer| >= 8 && |c.buffer| >= |q.rest[0]| {
      p := Advance(q, PerSegment(target));
      AdvanceKeepsFrames(q, PerSegment(target));
      AppendFrame(Taken(q), q.rest[0]);
      BufferOf(c, q, first, target);
      LeftStays(c.buffer, q.rest);
    }
  }

  lemma StartRepresents(frames: seq<seq<byte>>, number: int, target: int)
    ensures var p := Progress([], [], frames);
            Taken(p) + p.rest == frames && Concat(Taken(p)) == [] &&
            Represents(Started(number), p, Started(number).number, target)
  {
  }

  lemma ArriveKeeps(c: Cutter, p: Progress, encoded: seq<byte>, first: int, target: int)
    requires Represents(c, p, first, target)
    requires Concat(Taken(p)) + c.buffer + encoded <= Concat(Taken(p) + p.rest)
    ensures Represents(Step(c, Arrive(encoded), target), p, first, target)
    ensures Concat(Taken(p)) + c.buffer + encoded == Concat(Taken(p)) + (c.buffer + encoded)
  {
    hide Concat, Taken;
    var done := Concat(Taken(p));
    ConcatAppend(Taken(p), p.rest);
    var now, all := done + c.buffer + encoded, done + Concat(p.rest);
    assert now[|done|..] == c.buffer + encoded;
    assert all[|done|..] == Concat(p.rest);
  }

  // ---------- nothing is lost ----------

  function Joined(files: seq<File>): seq<byte> {
    if files == [] then [] else Joined(files[..|files| - 1]) + files[|files| - 1].data
  }

  lemma JoinedAppend(files: seq<File>, f: File)
    ensures Joined(files + [f]) == Joined(files) + f.data
  {
    assert (files + [f])[..|files|] == files;
  }

  lemma {:induction false} JoinedIsTaken(files: seq<File>, cuts: seq<seq<seq<byte>>>)
    requires |files| == |cuts| && forall j | 0 <= j < |cuts| :: files[j].data == Concat(cuts[j])
    ensures Joined(files) == Concat(Flatten(cuts))
    decreases |files|
  {
    hide Concat;
    if files == [] {
      ConcatNothing();
    } else {
      var n := |files| - 1;
      JoinedIsTaken(files[..n], cuts[..n]);
      ConcatAppend(Flatten(cuts[..n]), cuts[n]);
    }
  }

  /** Conservation: at every moment files, open segment and buffer are the bytes that arrived. */
  lemma NothingIsLost(frames: seq<seq<byte>>, events: seq<Event>, number: int, target: int)
    requires AllFrames(frames) && Pushed(events) <= Concat(frames)
    ensures var c := Run(Started(number), events, target);
            Joined(c.files) + c.segment + c.buffer == Pushed(events)
  {
    hide Run, Pushed, Concat, Find, IsFrame;
    var p := WholeFrames(frames, events, number, target);
    JoinedIsTaken(Run(Started(number), events, target).files, p.cuts);
    ConcatAppend(Flatten(p.cuts), p.open);
  }

  lemma TurnTakes(c: Cutter, p: Progress, first: int, target: int)
    requires AllFrames(p.rest) && Represents(c, p, first, target) && c.buffer == Concat(p.rest)
    requires p.rest != Left(p.rest)
    ensures p.rest != []
    ensures var d, q := Step(c, Turn, target), Advance(p, PerSegment(target));
            Represents(d, q, first, target) && d.buffer == Concat(q.rest) && AllFrames(q.rest) &&
            |q.rest| == |p.rest| - 1 && Left(q.rest) == Left(p.rest) && Taken(q) + q.rest == Taken(p) + p.rest
  {
    hide Represents, IsFrame, Find, Concat, Left, Taken, Step;
    BufferHasFrame(p.rest);
    TurnAdvances(c, p, first, target);
    AdvanceKeepsFrames(p, PerSegment(target));
    var f := p.rest[0];
    ConcatSplits(p.rest);
    assert p.rest == [f] + p.rest[1..];
    SuffixAllFrames([f], p.rest[1..]);
    SameTail(f, Step(c, Turn, target).buffer, Concat(p.rest[1..]));
    LeftStays(c.buffer, p.rest);
  }

  /** Turns that follow the last arrival take every frame but such a last one. */
  lemma {:induction false} TurnsDrain(c: Cutter, p: Progress, turns: nat, first: int, target: int)
    returns (q: Progress)
    requires AllFrames(p.rest) && Represents(c, p, first, target) && c.buffer == Concat(p.rest)
    requires turns + |Left(p.rest)| >= |p.rest|
    ensures Represents(Run(c, seq(turns, _ => Turn), target), q, first, target)
    ensures q.rest == Left(p.rest) && Taken(q) + q.rest == Taken(p) + p.rest
    ensures Run(c, seq(turns, _ => Turn), target).buffer == Concat(q.rest)
    decreases turns
  {
    hide Represents, IsFrame, Find, Concat, Run, Left, Taken, Advance, Step;
    if turns == 0 {
      assert seq(0, _ => Turn) == [];
      q := p;
      RunNothing(c, target);
      LeftIsSuffix(p.rest);
    } else {
      RunFirst(c, Turn, seq(turns - 1, _ => Turn), target);
      assert seq(turns, _ => Turn) == [Turn] + seq(turns - 1, _ => Turn);
      var d := Step(c, Turn, target);
      if p.rest == Left(p.rest) {
        BufferOfLeft(c.buffer, p.rest);
        TurnAdvances(c, p, first, target);
        q := TurnsDrain(c, p, turns - 1, first, target);
      } else {
        TurnTakes(c, p, first, target);
        q := TurnsDrain(d, Advance(p, PerSegment(target)), turns - 1, first, target);
      }
    }
  }

  lemma LeftIsSuffix(rest: seq<seq<byte>>)
    ensures |Left(rest)| >= |rest| ==> Left(rest) == rest
  {
  }

  lemma BufferOfLeft(b: seq<byte>, rest: seq<seq<byte>>)
    requires rest == Left(rest) && b == Concat(rest)
    ensures |b| < 8 && |Left(rest)| <= |rest|
  {
    if rest != [] {
      ConcatOne(rest[0]);
      assert rest == [rest[0]];
    }
  }

  lemma BufferHasFrame(rest: seq<seq<byte>>)
    requires AllFrames(rest) && rest != Left(rest)
    ensures rest != [] && |Concat(rest)| >= 8 && |Concat(rest)| >= |rest[0]|
  {
    assert rest[0] in rest && Concat(rest) == rest[0] + Concat(rest[1..]);
    if |rest| > 1 { assert rest[1] in rest && Concat(rest[1..]) == rest[1] + Concat(rest[2..]); }
  }

  lemma ConcatSplits(fs: seq<seq<byte>>)
    requires fs != []
    ensures Concat(fs) == fs[0] + Concat(fs[1..])
  {
  }

  lemma RunNothing(c: Cutter, target: int)
    ensures Run(c, [], target) == c
  {
  }

  lemma {:induction false} RunFirst(c: Cutter, e: Event, events: seq<Event>, target: int)
    ensures Run(c, [e] + events, target) == Run(Step(c, e, target), events, target)
    decreases |events|
  {
    hide Step;
    if events == [] {
      assert ([e] + events)[..0] == [] && [e] + events == [e];
    } else {
      var n := |events| - 1;
      RunFirst(c, e, events[..n], target);
      assert ([e] + events)[..n + 1] == [e] + events[..n];
    }
  }

  lemma {:induction false} RunConcat(c: Cutter, a: seq<Event>, b: seq<Event>, target: int)
    ensures Run(c, a + b, target) == Run(Run(c, a, target), b, target)
    decreases |b|
  {
    hide Step;
    if b == [] {
      assert a + b == a;
    } else {
      var n := |b| - 1;
      RunConcat(c, a, b[..n], target);
      assert (a + b)[..|a| + n] == a + b[..n];
    }
  }

  /** A whole stream, in any pieces, with enough turns after the last: once the thread has stopped the files together
      are the stream if and only if its last frame has more than the seven header bytes; otherwise just that frame is
      missing. Only the last file can be short of the common number of frames. */
  lemma StreamIsFiledIff(frames: seq<seq<byte>>, events: seq<Event>, turns: nat, number: int, target: int)
    returns (p: Progress)
    requires AllFrames(frames) && Pushed(events) == Concat(frames) && turns >= |frames|
    ensures var c := Run(Started(number), events + seq(turns, _ => Turn), target);
            p.rest == Left(frames) && Taken(p) + p.rest == frames && Represents(c, p, Started(number).number, target) &&
            Joined(Stopped(c).files) + Concat(Left(frames)) == Concat(frames) &&
            (Joined(Stopped(c).files) == Concat(frames) <==> frames == [] || |frames[|frames| - 1]| >= 8)
  {
    hide IsFrame, Find, Concat, Run, Pushed;
    var first, tail := Started(number).number, seq(turns, _ => Turn);
    var q := WholeFrames(frames, events, number, target);
    var d := Run(Started(number), events, target);
    ConcatAppend(Taken(q), q.rest);
    assert d.buffer == Concat(q.rest) by { SameTail(Concat(Taken(q)), d.buffer, Concat(q.rest)); }
    SuffixAllFrames(Taken(q), q.rest);
    assert |q.rest| <= |Taken(q) + q.rest|;
    p := TurnsDrain(d, q, turns, first, target);
    RunConcat(Started(number), events, tail, target);
    StoppedFiles(Run(Started(number), events + tail, target), p, first, target);
    ConcatAppend(Taken(p), p.rest);
    LeftIsShort(frames);
  }

  lemma StoppedFiles(c: Cutter, p: Progress, first: int, target: int)
    requires Represents(c, p, first, target)
    ensures Joined(Stopped(c).files) == Concat(Taken(p))
  {
    hide Concat;
    JoinedIsTaken(c.files, p.cuts);
    ConcatAppend(Flatten(p.cuts), p.open);
    JoinedAppend(c.files, File(c.number, c.segment));
    assert Joined(c.files) + [] == Joined(c.files);
  }

  lemma LeftIsShort(frames: seq<seq<byte>>)
    requires AllFrames(frames)
    ensures Concat(Left(frames)) == [] <==> frames == [] || |frames[|frames| - 1]| >= 8
  {
    if Left(frames) != [] {
      var f := frames[|frames| - 1];
      assert f in frames && Left(frames) == [f];
      ConcatOne(f);
    }
  }

  lemma SameTail(a: seq<byte>, b: seq<byte>, c: seq<byte>)
    requires a + b == a + c
    ensures b == c
  {
    assert (a + b)[|a|..] == b && (a + c)[|a|..] == c;
  }
}
