/** Every URI directly behind its EXTINF, every EXTINF directly behind one date: for which playlists the
    rewrite achieves it. */
module PlaylistOrder {
  import opened PlaylistLines
  import opened BreakState
  import opened DateRange
  import opened Playlist
  import opened PlaylistMedia
  import opened PlaylistShape
  import opened PlaylistTheorems

  predicate KindAt(lines: seq<string>, i: int, k: Kind) { 0 <= i < |lines| && KindOf(lines[i]) == k }

  ghost predicate InOrderAt(lines: seq<string>, i: int) {
    (KindAt(lines, i, Uri) ==> KindAt(lines, i - 1, Inf)) &&
    (KindAt(lines, i, Inf) ==> KindAt(lines, i - 1, Date) && KindAt(lines, i + 1, Uri)) &&
    (KindAt(lines, i, Date) ==> KindAt(lines, i + 1, Inf))
  }

  /** RFC 8216, sections 4.3.2.1 and 4.3.2.6: EXTINF directly before its URI, and exactly one date directly
      before EXTINF. */
  ghost predicate InOrder(lines: seq<string>) {
    forall i :: InOrderAt(lines, i)
  }

  lemma InOrderConcat(a: seq<string>, b: seq<string>)
    requires InOrder(a) && InOrder(b)
    ensures InOrder(a + b)
  {
    hide KindOf;
    forall i ensures InOrderAt(a + b, i) {
      assert InOrderAt(a, i) && InOrderAt(b, i - |a|);
    }
  }

  // ---------- the same as a grammar ----------

  /** What must come next: nothing in particular, an EXTINF behind a date, or a URI behind an EXTINF. */
  datatype Due = Free | InfDue | UriDue

  predicate Allows(due: Due, k: Kind) {
    match due
    case Free => k != Inf && k != Uri
    case InfDue => k == Inf
    case UriDue => k == Uri
  }

  function After(due: Due, k: Kind): Due {
    match due
    case Free => if k == Date then InfDue else Free
    case InfDue => UriDue
    case UriDue => Free
  }

  /** The lines are date, EXTINF and URI in threes, and other lines between the threes. */
  predicate Accepts(lines: seq<string>, due: Due) {
    if lines == [] then due == Free
    else Allows(due, KindOf(lines[0])) && Accepts(lines[1..], After(due, KindOf(lines[0])))
  }

  function Lead(due: Due): Kind { match due case Free => Blank case InfDue => Date case UriDue => Inf }

  /** The order rule at one line, where what is due tells the kind of the line in front of the first. */
  ghost predicate OrderBehind(lines: seq<string>, i: int, due: Due) {
    var before := if i == 0 then Lead(due) else if 0 < i <= |lines| then KindOf(lines[i - 1]) else Blank;
    (KindAt(lines, i, Uri) ==> before == Inf) && (KindAt(lines, i, Inf) ==> before == Date) &&
    (0 <= i <= |lines| && before == Date ==> KindAt(lines, i, Inf)) &&
    (0 <= i <= |lines| && before == Inf ==> KindAt(lines, i, Uri))
  }

  lemma {:induction false} AcceptsBehind(lines: seq<string>, due: Due)
    ensures Accepts(lines, due) <==> forall i | 0 <= i <= |lines| :: OrderBehind(lines, i, due)
  {
    hide KindOf;
    if lines == [] {
      assert OrderBehind(lines, 0, due) <==> due == Free;
    } else {
      var k, rest := KindOf(lines[0]), lines[1..];
      AcceptsBehind(rest, After(due, k));
      assert OrderBehind(lines, 0, due) <==> Allows(due, k);
      if Allows(due, k) {
        forall i | 0 <= i <= |rest| ensures OrderBehind(rest, i, After(due, k)) <==> OrderBehind(lines, i + 1, due) {
        }
        if forall i | 0 <= i <= |rest| :: OrderBehind(rest, i, After(due, k)) {
          forall i | 0 <= i <= |lines| ensures OrderBehind(lines, i, due) {
            if i > 0 { assert OrderBehind(rest, i - 1, After(due, k)); }
          }
        }
      }
    }
  }

  /** The rule at every line and the grammar are the same. */
  lemma InOrderIff(lines: seq<string>)
    ensures InOrder(lines) <==> Accepts(lines, Free)
  {
    hide KindOf, Accepts;
    AcceptsBehind(lines, Free);
    if InOrder(lines) {
      forall i | 0 <= i <= |lines| ensures OrderBehind(lines, i, Free) {
        assert InOrderAt(lines, i) && InOrderAt(lines, i - 1);
      }
    }
    if Accepts(lines, Free) {
      forall i ensures InOrderAt(lines, i) {
        if 0 <= i < |lines| { assert OrderBehind(lines, i, Free) && OrderBehind(lines, i + 1, Free); }
      }
    }
  }

  lemma NoMediaInOrder(lines: seq<string>)
    requires HeaderOk(lines)
    ensures InOrder(lines)
  {
    hide KindOf;
  }

  lemma {:induction false} MediaInOrder(es: seq<Segment>)
    requires AllOk(es) && AllBefore(es)
    ensures InOrder(MediaLines(es))
  {
    hide KindOf, InOrder;
    if es == [] {
      NoMediaInOrder([]);
    } else {
      assert es[0] in es && forall e | e in es[1..] :: e in es;
      SegmentInOrder(es[0]);
      MediaInOrder(es[1..]);
      InOrderConcat(SegmentLines(es[0]), MediaLines(es[1..]));
    }
  }

  lemma SegmentInOrder(e: Segment)
    requires SegmentOk(e) && e.place == Before
    ensures InOrder(SegmentLines(e))
  {
    hide KindOf;
  }

  lemma ResponseInOrder(out: seq<string>, header: seq<string>, es: seq<Segment>, s: Range)
    requires HeaderOk(header) && AllOk(es) && AllBefore(es) && IsResponse(out, header, es, s)
    ensures InOrder(out)
  {
    hide KindOf, InOrder, MediaLines, SegmentOk, HasLine, DateRangeLine;
    NoMediaInOrder(header);
    if out == header + MediaLines(es) {
      MediaInOrder(es);
      InOrderConcat(header, MediaLines(es));
    } else {
      var j :| 0 <= j <= |es| && HasLine(s) && out == BrokenAt(header, es, s, j);
      DateRangeLineKind(s);
      MediaInOrder(es[..j]);
      MediaInOrder(es[j..]);
      NoMediaInOrder([DateRangeLine(s)]);
      InOrderConcat(header, MediaLines(es[..j]));
      InOrderConcat(header + MediaLines(es[..j]), [DateRangeLine(s)]);
      InOrderConcat(header + MediaLines(es[..j]) + [DateRangeLine(s)], MediaLines(es[j..]));
    }
  }

  // ---------- where it goes wrong ----------

  /** TARGETDURATION directly before an EXTINF. */
  ghost predicate HasStray(lines: seq<string>) {
    exists i :: KindAt(lines, i, Target) && KindAt(lines, i + 1, Inf)
  }

  lemma StrayIsNotInOrder(lines: seq<string>)
    requires HasStray(lines)
    ensures !InOrder(lines)
  {
    hide KindOf;
    var i :| KindAt(lines, i, Target) && KindAt(lines, i + 1, Inf);
    assert !InOrderAt(lines, i + 1);
  }

  lemma StraySurvivesInsert(lines: seq<string>, at: nat, s: Range)
    requires HasStray(lines) && KindAt(lines, at, Date)
    ensures HasStray(InsertAt(lines, at, s))
  {
    hide KindOf, DateRangeLine, HasLine;
    var i :| KindAt(lines, i, Target) && KindAt(lines, i + 1, Inf);
    var out := InsertAt(lines, at, s);
    if HasLine(s) {
      assert at != i + 1;
      var k := if at <= i then i + 1 else i;
      assert out[k] == lines[i] && out[k + 1] == lines[i + 1];
      assert KindAt(out, k, Target) && KindAt(out, k + 1, Inf);
    }
  }

  lemma StraySurvivesInjection(lines: seq<string>, s: Range, parseUtc: string -> int)
    requires HasStray(lines)
    ensures HasStray(Injected(lines, s, parseUtc))
  {
    hide HasStray, TimesOf, InsertIndex, InsertAt, IsBreakPlace, OutsideWindow, IsDated, HasLine, KindOf;
    var times := TimesOf(lines, parseUtc);
    InsertIndexIff(times, s);
    if InsertIndex(times, s).Some? {
      var at := InsertIndex(times, s).value;
      BreakPlaceIsDate(lines, s, parseUtc, at);
      StraySurvivesInsert(lines, at, s);
    }
  }

  lemma StraySurvivesNonBlank(lines: seq<string>)
    requires HasStray(lines)
    ensures HasStray(NonBlank(lines))
  {
    hide KindOf, NonBlank;
    var i :| KindAt(lines, i, Target) && KindAt(lines, i + 1, Inf);
    var a, pair, b := lines[..i], [lines[i], lines[i + 1]], lines[i + 2..];
    assert lines == a + pair + b;
    KindIff("");
    NonBlankConcat(a + pair, b);
    NonBlankConcat(a, pair);
    NonBlankId(pair);
    var k := |NonBlank(a)|;
    assert KindAt(NonBlank(lines), k, Target) && KindAt(NonBlank(lines), k + 1, Inf);
  }

  lemma MediaStartsWithDate(es: seq<Segment>)
    requires es != [] && AllOk(es) && AllBefore(es)
    ensures var m := MediaLines(es); |m| >= 2 && KindOf(m[1]) == Inf
  {
    hide KindOf;
    assert es[0] in es;
  }

  lemma ClosingVersionGivesStray(h: seq<string>, es: seq<Segment>, cfg: Settings, cal: Calendar, firstMs: int, s: Range)
    requires PlaylistOk(h, es) && es != [] && EndsInVersion(h)
    ensures HasStray(RewriteLines(h + MediaLines(es), cfg, cal, firstMs, s))
  {
    hide KindOf, Arranged, Reordered, MediaLines, OutSegments, EndsInVersion;
    hide FullHeader, Injected, NonBlank, AllOk, AllBefore;
    var out := OutSegments(es, cfg, cal, firstMs);
    var f, m := FullHeader(h, cfg), MediaLines(out);
    ArrangedDoc(h, es, cfg, cal, firstMs);
    EndsInVersionIff(h, cfg);
    OutBefore(es, cfg, cal, firstMs);
    MediaStartsWithDate(out);
    MediaKinds(out);
    ReorderedBehindMedia(f, m);
    var x, td :| Reordered(f + m) == x + [m[0], td] + m[1..] && KindOf(td) == Target;
    var a := x + [m[0], td] + m[1..];
    assert a[|x| + 1] == td && a[|x| + 2] == m[1];
    assert KindAt(a, |x| + 1, Target) && KindAt(a, |x| + 2, Inf);
    StraySurvivesInjection(a, s, cal.parse);
    StraySurvivesNonBlank(Injected(a, s, cal.parse));
  }

  lemma OutBefore(es: seq<Segment>, cfg: Settings, cal: Calendar, firstMs: int)
    ensures AllBefore(OutSegments(es, cfg, cal, firstMs))
  {
    hide OrderSegments, DatedSegments;
    OrderedBefore(DatedSegments(es, cfg, cal, firstMs), cfg);
  }

  lemma NonBlankHeaderOk(h: seq<string>)
    requires HeaderOk(h)
    ensures HeaderOk(NonBlank(h))
  {
    hide KindOf, NonBlank;
    NonBlankMember(h);
  }

  /** For every playlist with at least one segment, whatever its dates, its metadata and the break: the
      media lines of the response are in order exactly when the header does not end in VERSION behind the
      other two tags. */
  lemma EvenlyDatedInOrderIff(h: seq<string>, es: seq<Segment>, cfg: Settings, cal: Calendar, firstMs: int, s: Range)
    requires PlaylistOk(h, es) && es != []
    ensures InOrder(RewriteLines(h + MediaLines(es), cfg, cal, firstMs, s)) <==> !EndsInVersion(h)
  {
    hide KindOf, RewriteLines, EndsInVersion, InOrder, OutSegments, OutHeader, NonBlank;
    hide MediaLines, IsResponse, AllBefore, AllOk, HeaderOk, HasStray;
    var rewritten := RewriteLines(h + MediaLines(es), cfg, cal, firstMs, s);
    if EndsInVersion(h) {
      ClosingVersionGivesStray(h, es, cfg, cal, firstMs, s);
      StrayIsNotInOrder(rewritten);
    } else {
      RewriteShape(h, es, cfg, cal, firstMs, s);
      ArrangedShape(h, es, cfg, cal, firstMs);
      NonBlankHeaderOk(OutHeader(h, cfg));
      OutBefore(es, cfg, cal, firstMs);
      ResponseInOrder(rewritten, NonBlank(OutHeader(h, cfg)), OutSegments(es, cfg, cal, firstMs), s);
    }
  }
}
