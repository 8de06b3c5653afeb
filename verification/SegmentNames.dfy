/** Which number is read from the name of a segment, and what that makes of a run of requests. */
module SegmentNames {
  import opened Text
  import opened PdtAnchor
  import opened Playlist
  import opened PlaylistShape
  import opened PlaylistRuns

  const SEGMENT := "segment-"

  // ---------- the last occurrence ----------

  ghost predicate OccursAt(s: string, pat: string, k: int) { 0 <= k && k + |pat| <= |s| && s[k..k + |pat|] == pat }

  ghost predicate Occurs(s: string, pat: string) { exists k :: OccursAt(s, pat, k) }

  /** The search from `k` downwards finds the last occurrence that starts at `k` or before. */
  lemma {:induction false} FindLastIff(s: string, pat: string, k: int, r: int)
    requires k + |pat| <= |s|
    ensures FindLast(s, pat, k) == r && r >= 0 <==>
            r <= k && OccursAt(s, pat, r) && forall j | r < j <= k :: !OccursAt(s, pat, j)
    ensures FindLast(s, pat, k) < 0 <==> forall j | 0 <= j <= k :: !OccursAt(s, pat, j)
    decreases k + 1
  {
    if k >= 0 && s[k..k + |pat|] != pat {
      FindLastIff(s, pat, k - 1, r);
      assert !OccursAt(s, pat, k);
    } else if k >= 0 {
      assert OccursAt(s, pat, k);
    }
  }

  // ---------- the number ----------

  lemma NoLaterSegment(pre: string, d: string, post: string)
    requires (forall c | c in d :: IsDigit(c)) && !Occurs(post, SEGMENT)
    ensures var u := pre + SEGMENT + (d + post);
            OccursAt(u, SEGMENT, |pre|) && forall j | |pre| < j :: !OccursAt(u, SEGMENT, j)
  {
    var u, n := pre + SEGMENT + (d + post), |pre| + 8;
    assert u[|pre|..n] == SEGMENT;
    assert SEGMENT[0] == 's';
    forall j | |pre| < j ensures !OccursAt(u, SEGMENT, j) {
      if j + 8 <= |u| {
        if j < n {
          assert u[j] == SEGMENT[j - |pre|];
        } else if j < n + |d| {
          assert u[j] == (d + post)[j - n] == d[j - n] && d[j - n] in d;
        } else {
          assert u[n + |d|..] == post;
          assert u[j..j + 8] == u[n + |d|..][j - n - |d|..j - n - |d| + 8];
          assert !OccursAt(post, SEGMENT, j - n - |d|);
        }
      }
    }
  }

  lemma NumberPlace(pre: string, d: string, post: string)
    requires (forall c | c in d :: IsDigit(c)) && !Occurs(post, SEGMENT)
    ensures |SEGMENT| == 8
    ensures var u := pre + SEGMENT + (d + post);
            FindLast(u, SEGMENT, |u| - 8) == |pre| && |u| >= |pre| + 8 && u[|pre| + 8..] == d + post
  {
    hide FindLast, Occurs;
    var u := pre + SEGMENT + (d + post);
    NoLaterSegment(pre, d, post);
    FindLastIff(u, SEGMENT, |u| - 8, |pre|);
  }

  /** The number read is the whole run of digits behind the last "segment-", leading zeros or not, if it fits into 32
      bits; otherwise there is none. */
  lemma SegmentNumberReads(pre: string, z: nat, n: nat, post: string)
    requires (post != "" ==> !IsDigit(post[0])) && !Occurs(post, SEGMENT)
    ensures SegmentNumber(pre + SEGMENT + (Zeros(z) + Digits(n) + post)) == if n <= INT32_MAX then n else -1
  {
    hide Digits, ParseInt, DigitRun, FindLast, OccursAt, Occurs, Zeros;
    var d := Zeros(z) + Digits(n);
    var u := pre + SEGMENT + (d + post);
    NumberPlace(pre, d, post);
    DigitRunOf(d, post);
    assert (d + post)[..|d|] == d;
    ParseIntReads("", "", z, n, "", INT32_MIN, INT32_MAX);
    assert "" + ("" + (d + "")) == d;
  }

  /** Without "segment-" there is no number. */
  lemma NoSegmentNumber(uri: string)
    requires !Occurs(uri, SEGMENT)
    ensures SegmentNumber(uri) == -1
  {
    hide ParseInt, DigitRun;
    if |uri| >= 8 { FindLastIff(uri, SEGMENT, |uri| - 8, 0); }
  }

  /** Nor without a digit behind the last one. */
  lemma NoDigitNoNumber(pre: string, post: string)
    requires (post != "" ==> !IsDigit(post[0])) && !Occurs(post, SEGMENT)
    ensures SegmentNumber(pre + SEGMENT + post) == -1
  {
    hide ParseInt, FindLast, Occurs;
    assert "" + post == post;
    NumberPlace(pre, "", post);
  }

  // ---------- runs of requests for named segments ----------

  /** A name as the encoders write it: "segment-", the number, and something that neither goes on with a digit nor holds
      "segment-" again. */
  function Name(pre: string, n: int, post: string): string { pre + SEGMENT + (IntToString(n) + post) }

  ghost predicate TailOk(post: string) { (post != "" ==> !IsDigit(post[0])) && !Occurs(post, SEGMENT) }

  lemma NameNumber(pre: string, n: int, post: string)
    requires TailOk(post) && 0 <= n <= INT32_MAX
    ensures SegmentNumber(Name(pre, n, post)) == n
  {
    hide SegmentNumber, Digits;
    SegmentNumberReads(pre, 0, n, post);
    assert Zeros(0) + Digits(n) == Digits(n);
  }

  /** The segments are numbered from `first` on, by their names. */
  ghost predicate Named(es: seq<Segment>, pre: string, first: int, post: string) {
    forall k | 0 <= k < |es| :: es[k].uri == Name(pre, first + k, post)
  }

  /** So a playlist without dates whose segments are named one after the other is one of those whose dates are
      stable. */
  lemma NamedRequestOk(r: Request, pre: string, first: int, post: string)
    requires PlaylistOk(r.header, r.es) && !EndsInVersion(r.header) && NoneDated(r.es) && r.es != []
    requires Named(r.es, pre, first, post) && TailOk(post) && 0 <= first && first + |r.es| - 1 <= INT32_MAX
    ensures RequestOk(r) && FirstOf(r) == first
  {
    hide SegmentNumber, PlaylistOk, EndsInVersion, Name, TailOk, SegmentOk;
    forall k | 0 <= k < |r.es| ensures SegmentNumber(r.es[k].uri) == first + k {
      NameNumber(pre, first + k, post);
    }
  }

  /** In every response of a run the segment named `n` is dated by its number alone: one date for number 0, and one
      segment length more for each number, whatever stands in front of the number and behind it. */
  lemma NameGivesDate(anchors: seq<Anchor>, rs: seq<Request>, segSecs: int, cal: Calendar, i: nat, k: nat,
                      pre: string, n: int, post: string)
    requires IsAnchorRun(anchors, rs, cal) && RunOk(rs, segSecs) && i < |rs| && k < |rs[i].es|
    requires rs[i].es[k].uri == Name(pre, n, post) && TailOk(post) && 0 <= n <= INT32_MAX
    ensures |anchors| == |rs| + 1
    ensures OutSegments(rs[i].es, rs[i].cfg, cal, FirstMsIn(anchors, rs, cal, i))[k].date
         == DateLine(cal.format(Base(anchors[1]) + n * (1000 * segSecs)))
  {
    hide OutSegments, RunOk, RequestOk, IsAnchorRun, Base, FirstMsIn, SegmentNumber, DateLine, Name, TailOk;
    AnchorCount(anchors, rs, cal);
    DatesAreStable(anchors, rs, segSecs, cal, i);
    RunMember(rs, segSecs, i);
    NameNumber(pre, n, post);
  }
}
