/** Runs of playlist requests: the anchor keeps the date of every segment number the same. */
module PlaylistRuns {
  import opened PlaylistLines
  import opened PdtAnchor
  import opened BreakState
  import opened Playlist
  import opened PlaylistShape
  import opened PlaylistTheorems

  /** A request and what it reads: the settings, metadata text included, may be others every time. */
  datatype Request = Request(header: seq<string>, es: seq<Segment>, cfg: Settings, nowMs: int, laterMs: int)

  function LinesOf(r: Request): seq<string> { r.header + MediaLines(r.es) }

  /** A playlist without dates whose segments are numbered consecutively. */
  ghost predicate RequestOk(r: Request) {
    PlaylistOk(r.header, r.es) && !EndsInVersion(r.header) && NoneDated(r.es) && r.es != [] &&
    SegmentNumber(r.es[0].uri) >= 0 &&
    forall k | 0 <= k < |r.es| :: SegmentNumber(r.es[k].uri) == SegmentNumber(r.es[0].uri) + k
  }

  function FirstOf(r: Request): int
    requires r.es != []
  {
    SegmentNumber(r.es[0].uri)
  }

  // ---------- what the rewrite sees of a request ----------

  lemma {:induction false} InfFromSkip(a: seq<string>, b: seq<string>, i: nat)
    requires i <= |a| && b != [] && KindOf(b[0]) == Inf
    requires forall l | l in a :: KindOf(l) != Inf
    ensures InfFrom(a + b, i) != [] && InfFrom(a + b, i)[0] == |a|
    decreases |a| - i
  {
    hide KindOf;
    if i < |a| {
      assert (a + b)[i] == a[i] && a[i] in a;
      InfFromSkip(a, b, i + 1);
    }
  }

  lemma PreparedRequest(r: Request, cal: Calendar)
    requires RequestOk(r)
    ensures var p := Prepared(LinesOf(r), r.cfg, cal);
            p == FullHeader(r.header, r.cfg) + MediaLines(r.es) &&
            FirstNumber(p) == FirstOf(r) && NeedsAnchor(LinesOf(r), r.cfg, cal)
  {
    hide KindOf, Prepared, FullHeader, SegmentNumber, HasKind;
    PreparedDoc(r.header, r.es, r.cfg, cal);
    NormalizedMedia(r.es, cal);
    FullHeaderOk(r.header, r.cfg);
    var f, m, e := FullHeader(r.header, r.cfg), MediaLines(r.es), r.es[0];
    assert e in r.es;
    assert m == [e.inf, e.uri] + (e.tags + MediaLines(r.es[1..]));
    InfFromSkip(f, m, 0);
    assert (f + m)[|f| + 1] == e.uri;
    DocHasDate(f, r.es);
    HasInf(f, m);
  }

  lemma HasInf(f: seq<string>, m: seq<string>)
    requires m != [] && KindOf(m[0]) == Inf
    ensures HasKind(f + m, Inf)
  {
    hide KindOf;
    assert (f + m)[|f|] == m[0];
  }

  // ---------- runs ----------

  /** The anchor before each request and after the last one. */
  ghost predicate IsAnchorRun(anchors: seq<Anchor>, rs: seq<Request>, cal: Calendar) {
    |anchors| == |rs| + 1 && anchors[0] == UNSET &&
    forall i | 0 <= i < |rs| :: anchors[i + 1] == AnchorAfter(anchors[i], LinesOf(rs[i]), rs[i].cfg, cal, rs[i].nowMs)
  }

  /** A fixed segment length, and a first number that never goes back. */
  ghost predicate RunOk(rs: seq<Request>, segSecs: int) {
    (forall r | r in rs :: RequestOk(r) && r.cfg.segSecs == segSecs) &&
    forall i, j | 0 <= i < j < |rs| ::
      rs[i].es != [] && rs[j].es != [] && FirstOf(rs[i]) <= FirstOf(rs[j])
  }

  lemma {:induction false} AnchorKeepsBase(anchors: seq<Anchor>, rs: seq<Request>, segSecs: int, cal: Calendar, i: nat)
    requires IsAnchorRun(anchors, rs, cal) && RunOk(rs, segSecs) && i < |rs|
    ensures var a := anchors[i + 1];
            a.init && a.stepMs == 1000 * segSecs && Base(a) == Base(anchors[1]) &&
            rs[i].es != [] && a.seqNo == FirstOf(rs[i]) && FirstOf(rs[i]) >= 0
  {
    hide RequestOk, Prepared, NeedsAnchor, SegmentNumber, FirstNumber, LinesOf;
    var r := rs[i];
    assert r in rs;
    PreparedRequest(r, cal);
    RequestHasFirst(r);
    if i > 0 {
      AnchorKeepsBase(anchors, rs, segSecs, cal, i - 1);
      var a := anchors[i];
      assert !Resets(a, FirstOf(r));
      NextKeepsBase(a, FirstOf(r), segSecs, r.nowMs);
    }
  }

  lemma RequestHasFirst(r: Request)
    requires RequestOk(r)
    ensures r.es != [] && FirstOf(r) >= 0
  {
    hide SegmentNumber;
  }

  /** Segments whose date depends on their number alone. */
  function DatedByNumber(es: seq<Segment>, base: int, cfg: Settings, cal: Calendar): (r: seq<Segment>)
    ensures |r| == |es|
  {
    seq(|es|, k requires 0 <= k < |es| =>
      es[k].(inf := InfLine(cfg), date := DateLine(cal.format(base + SegmentNumber(es[k].uri) * StepMs(cfg))),
             place := Before))
  }

  function FirstMsIn(anchors: seq<Anchor>, rs: seq<Request>, cal: Calendar, i: nat): int
    requires i < |rs| && |anchors| == |rs| + 1
  {
    FirstMsOf(anchors[i + 1], LinesOf(rs[i]), rs[i].cfg, cal, rs[i].laterMs)
  }

  lemma DateByNumber(r: Request, cal: Calendar, firstMs: int, base: int, k: nat)
    requires RequestOk(r) && k < |r.es| && firstMs == base + FirstOf(r) * StepMs(r.cfg)
    ensures OutSegments(r.es, r.cfg, cal, firstMs)[k] == DatedByNumber(r.es, base, r.cfg, cal)[k]
  {
    hide PlaylistOk, EndsInVersion, SegmentNumber, OutSegments, InfLine, DateLine, StepMs;
    OutSegmentAt(r.header, r.es, r.cfg, cal, firstMs, k);
    assert r.es[k] in r.es;
    assert (FirstOf(r) + k) * StepMs(r.cfg) == FirstOf(r) * StepMs(r.cfg) + k * StepMs(r.cfg);
  }

  /** Over every run of requests with a fixed segment length, consecutive numbers and a first number that
      never goes back, whatever else changes between them, one mapping from segment numbers to dates serves every
      response. */
  lemma DatesAreStable(anchors: seq<Anchor>, rs: seq<Request>, segSecs: int, cal: Calendar, i: nat)
    requires IsAnchorRun(anchors, rs, cal) && RunOk(rs, segSecs) && i < |rs|
    ensures OutSegments(rs[i].es, rs[i].cfg, cal, FirstMsIn(anchors, rs, cal, i))
         == DatedByNumber(rs[i].es, Base(anchors[1]), rs[i].cfg, cal)
  {
    hide RequestOk, Prepared, SegmentNumber, FirstNumber, OutSegments, LinesOf, DatedByNumber;
    hide AnchorAfter, RunOk, Base;
    var r := rs[i];
    RunMember(rs, segSecs, i);
    PreparedRequest(r, cal);
    AnchorKeepsBase(anchors, rs, segSecs, cal, i);
    var firstMs, base := FirstMsIn(anchors, rs, cal, i), Base(anchors[1]);
    BaseOf(anchors[i + 1]);
    forall k | 0 <= k < |r.es|
      ensures OutSegments(r.es, r.cfg, cal, firstMs)[k] == DatedByNumber(r.es, base, r.cfg, cal)[k]
    {
      DateByNumber(r, cal, firstMs, base, k);
    }
  }

  lemma BaseOf(a: Anchor)
    ensures a.epochMs == Base(a) + a.seqNo * a.stepMs
  {
  }

  lemma RunMember(rs: seq<Request>, segSecs: int, i: nat)
    requires RunOk(rs, segSecs) && i < |rs|
    ensures RequestOk(rs[i]) && rs[i].cfg.segSecs == segSecs
  {
    hide RequestOk;
    assert rs[i] in rs;
  }

  /** Inside a response the dates rise by exactly the segment length. */
  lemma DatesRiseByStep(r: Request, cal: Calendar, firstMs: int, k: nat)
    requires RequestOk(r) && k < |r.es|
    ensures OutSegments(r.es, r.cfg, cal, firstMs)[k].date == DateLine(cal.format(firstMs + k * (1000 * r.cfg.segSecs)))
  {
    hide EndsInVersion, SegmentNumber, OutSegments, InfLine, DateLine, SegmentOk;
    OutSegmentAt(r.header, r.es, r.cfg, cal, firstMs, k);
    assert r.es[k] in r.es;
  }

  /** The same segment number has the same date line in every two responses. */
  lemma SameNumberSameDate(anchors: seq<Anchor>, rs: seq<Request>, segSecs: int, cal: Calendar,
                           i: nat, k: nat, j: nat, l: nat)
    requires IsAnchorRun(anchors, rs, cal) && RunOk(rs, segSecs)
    requires i < |rs| && k < |rs[i].es| && j < |rs| && l < |rs[j].es|
    requires SegmentNumber(rs[i].es[k].uri) == SegmentNumber(rs[j].es[l].uri)
    ensures OutSegments(rs[i].es, rs[i].cfg, cal, FirstMsIn(anchors, rs, cal, i))[k].date
         == OutSegments(rs[j].es, rs[j].cfg, cal, FirstMsIn(anchors, rs, cal, j))[l].date
  {
    hide OutSegments, RunOk, RequestOk, IsAnchorRun, Base, FirstMsIn, SegmentNumber, DateLine;
    AnchorCount(anchors, rs, cal);
    DatesAreStable(anchors, rs, segSecs, cal, i);
    DatesAreStable(anchors, rs, segSecs, cal, j);
    RunMember(rs, segSecs, i);
    RunMember(rs, segSecs, j);
  }

  lemma AnchorCount(anchors: seq<Anchor>, rs: seq<Request>, cal: Calendar)
    requires IsAnchorRun(anchors, rs, cal)
    ensures |anchors| == |rs| + 1
  {
  }

  /** The response to each request of such a run, as lines. */
  lemma ResponsesDatedByNumber(anchors: seq<Anchor>, rs: seq<Request>, segSecs: int, cal: Calendar, i: nat, s: Range)
    requires IsAnchorRun(anchors, rs, cal) && RunOk(rs, segSecs) && i < |rs|
    ensures IsResponse(RewriteLines(LinesOf(rs[i]), rs[i].cfg, cal, FirstMsIn(anchors, rs, cal, i), s),
                       NonBlank(OutHeader(rs[i].header, rs[i].cfg)),
                       DatedByNumber(rs[i].es, Base(anchors[1]), rs[i].cfg, cal), s)
  {
    hide OutSegments, DatedByNumber, RewriteLines, IsResponse, PlaylistOk, EndsInVersion, FirstMsIn;
    RunMember(rs, segSecs, i);
    DatesAreStable(anchors, rs, segSecs, cal, i);
    RewriteShape(rs[i].header, rs[i].es, rs[i].cfg, cal, FirstMsIn(anchors, rs, cal, i), s);
  }
}
