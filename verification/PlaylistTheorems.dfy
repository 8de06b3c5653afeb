/** The guarantees of the playlist rewrite: order of the media lines, idempotence, and dates that stay the
    same over every run of requests. */
module PlaylistTheorems {
  import opened PlaylistLines
  import opened BreakState
  import opened DateRange
  import opened Playlist
  import opened PlaylistMedia
  import opened PlaylistShape

  // ---------- the response ----------

  /** The response: header, segments, and at most one break line right before a segment. */
  ghost predicate IsResponse(out: seq<string>, header: seq<string>, es: seq<Segment>, s: Range) {
    out == header + MediaLines(es) ||
    exists j | 0 <= j <= |es| ::
      HasLine(s) && out == BrokenAt(header, es, s, j)
  }

  function BrokenAt(header: seq<string>, es: seq<Segment>, s: Range, j: nat): seq<string>
    requires j <= |es| && HasLine(s)
  {
    header + MediaLines(es[..j]) + [DateRangeLine(s)] + MediaLines(es[j..])
  }

  lemma {:induction false} MediaConcat(a: seq<Segment>, b: seq<Segment>)
    ensures MediaLines(a + b) == MediaLines(a) + MediaLines(b)
  {
    if a == [] {
      assert a + b == b;
    } else {
      assert (a + b)[1..] == a[1..] + b;
      MediaConcat(a[1..], b);
    }
  }

  ghost predicate AllBefore(es: seq<Segment>) { forall e | e in es :: e.place == Before }

  lemma {:induction false} OrderedBefore(es: seq<Segment>, cfg: Settings)
    ensures AllBefore(OrderSegments(es, cfg))
  {
    if es != [] { OrderedBefore(es[1..], cfg); }
  }

  /** In the response, date lines stand exactly at the front of the segments. */
  lemma {:induction false} DateAt(es: seq<Segment>, i: nat)
    requires AllBefore(es) && AllOk(es) && i < |MediaLines(es)| && KindOf(MediaLines(es)[i]) == Date
    ensures exists j | 0 <= j < |es| :: i == |MediaLines(es[..j])|
  {
    hide KindOf;
    assert es[0] in es && forall e | e in es[1..] :: e in es;
    if i == 0 {
      assert MediaLines(es[..0]) == [];
    } else {
      var n := |SegmentLines(es[0])|;
      OneDate(es[0], i, MediaLines(es[1..]));
      DateAt(es[1..], i - n);
      var j :| 0 <= j < |es| - 1 && i - n == |MediaLines(es[1..][..j])|;
      assert es[..j + 1] == [es[0]] + es[1..][..j];
      MediaConcat([es[0]], es[1..][..j]);
      assert i == |MediaLines(es[..j + 1])|;
    }
  }

  lemma OneDate(e: Segment, i: nat, rest: seq<string>)
    requires SegmentOk(e) && e.place == Before
    requires 0 < i < |SegmentLines(e) + rest| && KindOf((SegmentLines(e) + rest)[i]) == Date
    ensures i >= |SegmentLines(e)| && (SegmentLines(e) + rest)[i] == rest[i - |SegmentLines(e)|]
  {
    hide KindOf;
    var behind := [e.inf, e.uri] + e.tags;
    assert SegmentLines(e) == [e.date] + behind;
    forall k | 0 < k < |SegmentLines(e)| ensures KindOf((SegmentLines(e) + rest)[k]) != Date {
      assert (SegmentLines(e) + rest)[k] == behind[k - 1] && behind[k - 1] in behind;
    }
  }

  lemma SplitAtSegment(header: seq<string>, es: seq<Segment>, s: Range, j: nat)
    requires j <= |es| && HasLine(s)
    ensures var lines, at := header + MediaLines(es), |header| + |MediaLines(es[..j])|;
            at <= |lines| && InsertAt(lines, at, s) == BrokenAt(header, es, s, j)
  {
    hide MediaLines, DateRangeLine, HasLine;
    var a, b := MediaLines(es[..j]), MediaLines(es[j..]);
    MediaConcat(es[..j], es[j..]);
    assert es == es[..j] + es[j..];
    assert header + MediaLines(es) == header + a + b;
  }

  lemma BrokenIsResponse(header: seq<string>, es: seq<Segment>, s: Range, j: nat)
    requires j <= |es| && HasLine(s)
    ensures IsResponse(BrokenAt(header, es, s, j), header, es, s)
  {
    hide BrokenAt, HasLine;
  }

  lemma DateInResponse(header: seq<string>, es: seq<Segment>, at: nat)
    requires HeaderOk(header) && AllOk(es) && AllBefore(es)
    requires at < |header + MediaLines(es)| && KindOf((header + MediaLines(es))[at]) == Date
    ensures exists j | 0 <= j < |es| :: at == |header| + |MediaLines(es[..j])|
  {
    hide KindOf, MediaLines, SegmentOk;
    assert forall i | 0 <= i < |header| :: header[i] in header;
    DateAt(es, at - |header|);
    var j :| 0 <= j < |es| && at - |header| == |MediaLines(es[..j])|;
  }

  lemma InjectedShape(header: seq<string>, es: seq<Segment>, s: Range, parseUtc: string -> int)
    requires HeaderOk(header) && AllOk(es) && AllBefore(es)
    ensures IsResponse(Injected(header + MediaLines(es), s, parseUtc), header, es, s)
  {
    hide KindOf, MediaLines, AllOk, AllBefore, HeaderOk, TimesOf, HasLine, InsertIndex, BrokenAt, InsertAt;
    hide IsBreakPlace, OutsideWindow, IsDated;
    var lines := header + MediaLines(es);
    var times := TimesOf(lines, parseUtc);
    InsertIndexIff(times, s);
    if InsertIndex(times, s).None? {
      assert Injected(lines, s, parseUtc) == lines;
    } else {
      hide IsResponse;
      var at := InsertIndex(times, s).value;
      BreakPlaceIsDate(lines, s, parseUtc, at);
      DateInResponse(header, es, at);
      var j :| 0 <= j < |es| && at == |header| + |MediaLines(es[..j])|;
      SplitAtSegment(header, es, s, j);
      BrokenIsResponse(header, es, s, j);
    }
  }

  lemma BreakPlaceIsDate(lines: seq<string>, s: Range, parseUtc: string -> int, at: int)
    requires IsBreakPlace(TimesOf(lines, parseUtc), s.startMs, at)
    ensures 0 <= at < |lines| && KindOf(lines[at]) == Date
  {
    hide KindOf;
    KindIff(lines[at]);
  }

  lemma {:induction false} MediaNonBlank(es: seq<Segment>)
    requires AllOk(es)
    ensures "" !in MediaLines(es)
  {
    hide KindOf;
    KindIff("");
    if es != [] {
      assert es[0] in es && forall e | e in es[1..] :: e in es;
      MediaNonBlank(es[1..]);
    }
  }

  lemma NonBlankBroken(header: seq<string>, es: seq<Segment>, s: Range, j: nat)
    requires AllOk(es) && j <= |es| && HasLine(s)
    ensures NonBlank(BrokenAt(header, es, s, j)) == BrokenAt(NonBlank(header), es, s, j)
  {
    hide KindOf, MediaLines, NonBlank, DateRangeLine, SegmentOk, HasLine;
    var a, d, b := MediaLines(es[..j]), [DateRangeLine(s)], MediaLines(es[j..]);
    assert forall e | e in es[..j] || e in es[j..] :: e in es;
    MediaNonBlank(es[..j]);
    MediaNonBlank(es[j..]);
    DateRangeLineKind(s);
    NonBlankId(a + d + b);
    NonBlankConcat(header, a + d + b);
    assert BrokenAt(header, es, s, j) == header + (a + d + b);
    assert BrokenAt(NonBlank(header), es, s, j) == NonBlank(header) + (a + d + b);
  }

  lemma NonBlankResponse(out: seq<string>, header: seq<string>, es: seq<Segment>, s: Range)
    requires IsResponse(out, header, es, s) && AllOk(es)
    ensures IsResponse(NonBlank(out), NonBlank(header), es, s)
    ensures out == header + MediaLines(es) ==> NonBlank(out) == NonBlank(header) + MediaLines(es)
  {
    hide MediaLines, NonBlank, AllOk, HasLine, BrokenAt;
    if out == header + MediaLines(es) {
      MediaNonBlank(es);
      NonBlankId(MediaLines(es));
      NonBlankConcat(header, MediaLines(es));
    } else {
      var j :| 0 <= j <= |es| && HasLine(s) && out == BrokenAt(header, es, s, j);
      NonBlankBroken(header, es, s, j);
    }
  }

  /** The whole rewrite of a well-formed playlist: the header without blank lines, then for every segment
      its date, the EXTINF line and its URI, in the old order, with at most one break line before one of the
      dates. */
  lemma RewriteShape(h: seq<string>, es: seq<Segment>, cfg: Settings, cal: Calendar, firstMs: int, s: Range)
    requires PlaylistOk(h, es) && !EndsInVersion(h)
    ensures IsResponse(RewriteLines(h + MediaLines(es), cfg, cal, firstMs, s),
                       NonBlank(OutHeader(h, cfg)), OutSegments(es, cfg, cal, firstMs), s)
  {
    hide KindOf, MediaLines, NonBlank, Arranged, OutHeader, EndsInVersion, Injected, SegmentOk;
    var out := OutSegments(es, cfg, cal, firstMs);
    ArrangedShape(h, es, cfg, cal, firstMs);
    OrderedBefore(DatedSegments(es, cfg, cal, firstMs), cfg);
    InjectedShape(OutHeader(h, cfg), out, s, cal.parse);
    NonBlankResponse(Injected(OutHeader(h, cfg) + MediaLines(out), s, cal.parse), OutHeader(h, cfg), out, s);
  }

  /** The segments of the response are the segments of the file: same URIs in the same order, each with
      the one EXTINF line of the response and one date. */
  lemma {:induction false} OrderedKeepsUris(es: seq<Segment>, cfg: Settings, i: nat)
    requires i < |es|
    ensures var o := OrderSegments(es, cfg)[i];
            o.uri == es[i].uri && o.tags == es[i].tags && o.date == es[i].date && o.inf == InfLine(cfg) &&
            o.place == Before
  {
    hide InfLine;
    if i > 0 { OrderedKeepsUris(es[1..], cfg, i - 1); }
  }

  lemma {:induction false} StampedAt(es: seq<Segment>, ms: int, cfg: Settings, cal: Calendar, i: nat)
    requires i < |es|
    ensures var o := StampSegments(es, ms, cfg, cal)[i];
            o.uri == es[i].uri && o.tags == es[i].tags && o.date == DateLine(cal.format(ms + i * StepMs(cfg)))
  {
    hide DateLine, StepMs;
    if i > 0 {
      StampedAt(es[1..], ms + StepMs(cfg), cfg, cal, i - 1);
      assert (i - 1) * StepMs(cfg) + StepMs(cfg) == i * StepMs(cfg);
    }
  }

  lemma {:induction false} NormalAt(es: seq<Segment>, cal: Calendar, i: nat)
    requires i < |es| && AllOk(es) && AllDated(es)
    ensures var o := NormalSegments(es, cal)[i];
            o.uri == es[i].uri && o.tags == es[i].tags && o.date == DateLine(cal.toUtcZ(DateText(es[i].date)))
  {
    hide DateLine, KindOf, DateText, NormalizeLine;
    assert es[0] in es && forall e | e in es[1..] :: e in es;
    if i > 0 {
      NormalAt(es[1..], cal, i - 1);
    } else {
      NormalizeLineKind(es[0].date, cal);
    }
  }

  /** Segment by segment: the URI is kept, and the date is its own in UTC, or else counted from the first. */
  lemma OutSegmentAt(h: seq<string>, es: seq<Segment>, cfg: Settings, cal: Calendar, firstMs: int, i: nat)
    requires PlaylistOk(h, es) && i < |es|
    ensures var o := OutSegments(es, cfg, cal, firstMs)[i];
            o.uri == es[i].uri && o.tags == es[i].tags && o.inf == InfLine(cfg) && o.place == Before &&
            o.date == if es[i].place == NoDate then DateLine(cal.format(firstMs + i * StepMs(cfg)))
                      else DateLine(cal.toUtcZ(DateText(es[i].date)))
  {
    hide KindOf, DateLine, DateText, InfLine, StepMs, NormalSegments, StampSegments, OrderSegments;
    OrderedKeepsUris(DatedSegments(es, cfg, cal, firstMs), cfg, i);
    assert es[0] in es && es[i] in es;
    if es[i].place == NoDate {
      StampedAt(es, firstMs, cfg, cal, i);
    } else {
      NormalAt(es, cal, i);
    }
  }
}
