/** The clock anchor that lives across playlist requests and gives segment numbers their date.
    Times are milliseconds; a segment lasts a whole number of seconds. */
module PdtAnchor {

  datatype Anchor = Anchor(init: bool, seqNo: int, epochMs: int, stepMs: int)

  const UNSET := Anchor(false, 0, 0, 6000)

  /** How far the first number may fall behind the anchor before it counts as a stream reset. */
  const RESET_DISTANCE := 50

  predicate Resets(a: Anchor, firstSeq: int) {
    !a.init || firstSeq < 0 || firstSeq < a.seqNo - RESET_DISTANCE
  }

  /** The anchor after a request whose first segment is `firstSeq` (negative when it has no number). */
  function Next(a: Anchor, firstSeq: int, segSecs: int, nowMs: int): Anchor {
    if Resets(a, firstSeq) then
      Anchor(true, if firstSeq >= 0 then firstSeq else 0, nowMs - 500 * segSecs, 1000 * segSecs)
    else if firstSeq > a.seqNo then
      Anchor(true, firstSeq, a.epochMs + (firstSeq - a.seqNo) * a.stepMs, 1000 * segSecs)
    else
      a.(stepMs := 1000 * segSecs)
  }

  /** The date of the first segment of the response. */
  function FirstStamp(a: Anchor, firstSeq: int, segSecs: int, laterMs: int): int {
    if firstSeq >= 0 then a.epochMs else laterMs - 500 * segSecs
  }

  /** The date that the anchor gives to segment 0; every other segment follows from it. */
  function Base(a: Anchor): int { a.epochMs - a.seqNo * a.stepMs }

  /** While the stream is not reset, the anchor moves but the mapping from numbers to dates does not. */
  lemma NextKeepsBase(a: Anchor, firstSeq: int, segSecs: int, nowMs: int)
    requires a.stepMs == 1000 * segSecs && !Resets(a, firstSeq)
    ensures var b := Next(a, firstSeq, segSecs, nowMs);
            b.init && b.stepMs == a.stepMs && Base(b) == Base(a) && b.seqNo >= a.seqNo
  {
    assert (firstSeq - a.seqNo) * a.stepMs == firstSeq * a.stepMs - a.seqNo * a.stepMs;
  }

  /** Without a reset, the response is stamped by the anchor's mapping exactly when its first number has
      not gone back. */
  lemma StampFollowsBaseIff(a: Anchor, firstSeq: int, segSecs: int, nowMs: int, laterMs: int)
    requires segSecs > 0 && a.stepMs == 1000 * segSecs && !Resets(a, firstSeq)
    ensures FirstStamp(Next(a, firstSeq, segSecs, nowMs), firstSeq, segSecs, laterMs)
              == Base(a) + firstSeq * (1000 * segSecs)
            <==> firstSeq >= a.seqNo
  {
    var step := a.stepMs;
    assert (firstSeq - a.seqNo) * step == firstSeq * step - a.seqNo * step;
    if firstSeq < a.seqNo { Products(a.seqNo - firstSeq, step); }
  }

  lemma Products(n: int, step: int)
    requires n > 0 && step > 0
    ensures n * step > 0
  {
  }

  /** A number up to fifty behind the anchor is no reset, one further behind is. */
  lemma ResetsIff(a: Anchor, firstSeq: int)
    requires a.init && firstSeq >= 0
    ensures Resets(a, firstSeq) <==> a.seqNo - firstSeq > 50
  {
  }

  /** After a reset the first segment is dated half a segment before the clock, and any number of the stream one segment
      length from its neighbour; without a number, it is the second look at the clock that counts. */
  lemma ResetDates(a: Anchor, firstSeq: int, segSecs: int, nowMs: int, laterMs: int, n: int)
    requires Resets(a, firstSeq)
    ensures var b := Next(a, firstSeq, segSecs, nowMs);
            2 * FirstStamp(b, firstSeq, segSecs, laterMs) ==
              2 * (if firstSeq >= 0 then nowMs else laterMs) - 1000 * segSecs &&
            b.init && b.stepMs == 1000 * segSecs && Base(b) + n * b.stepMs == b.epochMs + (n - b.seqNo) * b.stepMs &&
            b.seqNo == if firstSeq >= 0 then firstSeq else 0
  {
    var b := Next(a, firstSeq, segSecs, nowMs);
    assert (n - b.seqNo) * b.stepMs == n * b.stepMs - b.seqNo * b.stepMs;
  }

  class PdtAnchorCell {
    var init: bool
    var seqNo: int
    var epochMs: int
    var stepMs: int

    function Value(): Anchor
      reads this
    {
      Anchor(init, seqNo, epochMs, stepMs)
    }

    constructor ()
      ensures Value() == UNSET
    {
      init, seqNo, epochMs, stepMs := false, 0, 0, 6000;
    }

    method Advance(firstSeq: int, segSecs: int, nowMs: int, laterMs: int) returns (firstMs: int)
      modifies this
      ensures Value() == Next(old(Value()), firstSeq, segSecs, nowMs)
      ensures firstMs == FirstStamp(Value(), firstSeq, segSecs, laterMs)
    {
      if !init || firstSeq < 0 || firstSeq < seqNo - RESET_DISTANCE {
        seqNo := if firstSeq >= 0 then firstSeq else 0;
        stepMs := 1000 * segSecs;
        epochMs := nowMs - 500 * segSecs;
        init := true;
      } else if firstSeq >= 0 {
        if firstSeq > seqNo {
          epochMs := epochMs + (firstSeq - seqNo) * stepMs;
          seqNo := firstSeq;
        }
        stepMs := 1000 * segSecs;
      }
      firstMs := if firstSeq >= 0 then epochMs else laterMs - 500 * segSecs;
    }
  }
}
