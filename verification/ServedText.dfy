/** What a client finds in the playlist texts that worker and supervisor serve. */
module ServedText {
  import opened Text
  import opened PlaylistLines
  import opened AttributeList
  import opened BreakState
  import opened BreakTexts
  import opened DateRange
  import opened BreakLine
  import opened BreakLifecycle
  import opened DateRangeClient
  import opened Playlist
  import opened PlaylistMedia
  import opened PlaylistShape
  import opened PlaylistOrder
  import opened PlaylistServer
  import opened PlaylistText
  import opened PlaylistDates
  import Fallback

  // ---------- where the lines of the worker's response come from ----------

  /** A line of the file, upgraded and its date in UTC; or one the worker makes. */
  ghost predicate Comes(l: string, lines: seq<string>, cfg: Settings, cal: Calendar) {
    (exists o | o in lines :: l == NormalizeLine(UpgradeLine(o, cfg), cal)) ||
    l == INDEPENDENT || l == StartLine(cfg) || l == InfLine(cfg) || (exists ms :: l == DateLine(cal.format(ms)))
  }

  lemma {:induction false} SwappedMembers(lines: seq<string>, cfg: Settings)
    ensures forall l | l in Swapped(lines, cfg) :: l in lines || l == InfLine(cfg)
    decreases |lines|
  {
    hide KindOf, InfLine;
    if lines != [] {
      assert forall l | l in lines[1..] :: l in lines;
      SwappedMembers(lines[1..], cfg);
      if |lines| > 1 {
        assert forall l | l in lines[2..] :: l in lines;
        SwappedMembers(lines[2..], cfg);
      }
    }
  }

  lemma {:induction false} StampedMembers(lines: seq<string>, ms: int, cfg: Settings, cal: Calendar)
    ensures forall l | l in Stamped(lines, ms, cfg, cal) :: l in lines || exists t :: l == DateLine(cal.format(t))
  {
    hide KindOf, DateLine, StepMs;
    if lines != [] {
      assert forall l | l in lines[1..] :: l in lines;
      StampedMembers(lines[1..], ms, cfg, cal);
      StampedMembers(lines[1..], ms + StepMs(cfg), cfg, cal);
    }
  }

  lemma PreparedMembers(lines: seq<string>, cfg: Settings, cal: Calendar)
    ensures forall l | l in Prepared(lines, cfg, cal) :: Comes(l, lines, cfg, cal)
  {
    hide KindOf, UpgradeLine, NormalizeLine, StartLine, InfLine, DateLine, HasKind, LastOf;
    var u, p := Upgraded(lines, cfg), Prepared(lines, cfg, cal);
    var f := Inserted(u, cfg);
    MadeLineKinds(cfg, "");
    NormalizeLineKind(INDEPENDENT, cal);
    NormalizeLineKind(StartLine(cfg), cal);
    forall l | l in p ensures Comes(l, lines, cfg, cal) {
      var i :| 0 <= i < |p| && p[i] == l;
      assert l == NormalizeLine(f[i], cal) && f[i] in f;
      if f[i] in u {
        var j :| 0 <= j < |u| && u[j] == f[i];
        assert lines[j] in lines && l == NormalizeLine(UpgradeLine(lines[j], cfg), cal);
      }
    }
  }

  lemma ArrangedMembers(lines: seq<string>, cfg: Settings, cal: Calendar, firstMs: int)
    ensures forall l | l in Arranged(lines, cfg, cal, firstMs) :: Comes(l, lines, cfg, cal)
  {
    hide KindOf, Comes, Prepared, Stamped, Swapped, Reordered, HasKind, InfLine, DateLine;
    var p := Prepared(lines, cfg, cal);
    var d := if HasKind(p, Date) then p else Stamped(p, firstMs, cfg, cal);
    PreparedMembers(lines, cfg, cal);
    StampedMembers(p, firstMs, cfg, cal);
    SwappedMembers(d, cfg);
    ReorderedMembers(Swapped(d, cfg));
    forall l | l in Arranged(lines, cfg, cal, firstMs) ensures Comes(l, lines, cfg, cal) {
      if l !in p { MadeComes(l, lines, cfg, cal); }
    }
  }

  lemma MadeComes(l: string, lines: seq<string>, cfg: Settings, cal: Calendar)
    requires l == InfLine(cfg) || exists t :: l == DateLine(cal.format(t))
    ensures Comes(l, lines, cfg, cal)
  {
    hide InfLine, DateLine, NormalizeLine, UpgradeLine, StartLine;
  }

  lemma RewrittenLine(o: string, cfg: Settings, cal: Calendar)
    requires CalendarOk(cal) && Clean(cfg.payload)
    ensures var l := NormalizeLine(UpgradeLine(o, cfg), cal);
            ('\n' !in o ==> '\n' !in l) && (l == "\r" ==> o == "\r")
  {
    hide KindOf, IntToString, Clean;
    var u := UpgradeLine(o, cfg);
    UpgradeLineKind(o, cfg);
    NormalizeLineKind(u, cal);
    MadeLinesClean(cfg);
    EmptyClean();
    CleanIsFree(TARGET + IntToString(cfg.segSecs));
    CleanIsFree(VERSION + "6");
    DateTextFree(u, cal);
    if Clean(u) { DateTextClean(u); DateTextClean(cal.toUtcZ(DateText(u))); }
  }

  lemma CleanIsFree(l: string)
    ensures Clean(l) ==> '\n' !in l && l != "\r"
  {
    if l == "\r" { assert l[0] in l; }
  }

  lemma DateTextFree(l: string, cal: Calendar)
    requires CalendarOk(cal)
    ensures '\n' !in l ==> '\n' !in DateText(l) && '\n' !in DateLine(cal.toUtcZ(DateText(l)))
    ensures DateLine(cal.toUtcZ(DateText(l))) != "\r"
  {
    assert '\n' !in DATE;
    assert DateLine(cal.toUtcZ(DateText(l)))[0] == '#';
  }

  /** The lines before the break goes in: without line feeds, and without a lone carriage return, if the file is. */
  lemma ArrangedLines(lines: seq<string>, cfg: Settings, cal: Calendar, firstMs: int)
    requires CalendarOk(cal) && Clean(cfg.payload)
    ensures var a := Arranged(lines, cfg, cal, firstMs);
            (NoFeeds(lines) ==> NoFeeds(a)) && ("\r" !in lines ==> "\r" !in a)
  {
    hide KindOf, Clean, Arranged, UpgradeLine, NormalizeLine, InfLine, StartLine, DateLine, CalendarOk;
    var a := Arranged(lines, cfg, cal, firstMs);
    ArrangedMembers(lines, cfg, cal, firstMs);
    forall l | l in a
      ensures NoFeeds(lines) ==> '\n' !in l
      ensures "\r" !in lines ==> l != "\r"
    {
      CleanIsFree(l);
      if o :| o in lines && l == NormalizeLine(UpgradeLine(o, cfg), cal) {
        RewrittenLine(o, cfg, cal);
      } else {
        MadeLine(l, cfg, cal);
      }
    }
  }

  lemma MadeLine(l: string, cfg: Settings, cal: Calendar)
    requires CalendarOk(cal) && Clean(cfg.payload)
    requires l == INDEPENDENT || l == StartLine(cfg) || l == InfLine(cfg) || exists ms :: l == DateLine(cal.format(ms))
    ensures Clean(l)
  {
    hide KindOf, Clean, InfLine, StartLine, DateLine;
    MadeLinesClean(cfg);
    if ms :| l == DateLine(cal.format(ms)) {
      DateTextClean(cal.format(ms));
      MadeLineKinds(cfg, cal.format(ms));
    } else {
      MadeLineKinds(cfg, "");
    }
  }

  // ---------- the worker's response ----------

  ghost predicate BreakPlaced(lines: seq<string>, cfg: Settings, cal: Calendar, firstMs: int, s: Range) {
    Placed(Arranged(lines, cfg, cal, firstMs), s, cal.parse)
  }

  /** The lines a client finds in the text that is served. */
  function Served(lines: seq<string>, cfg: Settings, cal: Calendar, firstMs: int, s: Range): seq<string> {
    SplitLines(JoinLines(RewriteLines(lines, cfg, cal, firstMs, s)))
  }

  lemma ServedIs(lines: seq<string>, cfg: Settings, cal: Calendar, firstMs: int, s: Range)
    ensures Served(lines, cfg, cal, firstMs, s) == ClientLines(Arranged(lines, cfg, cal, firstMs), s, cal.parse)
    ensures RewriteLines(lines, cfg, cal, firstMs, s) == Written(Arranged(lines, cfg, cal, firstMs), s, cal.parse)
  {
    hide Arranged, Injected, NonBlank, SplitLines, JoinLines;
  }

  /** For every file, split at its line feeds: the client finds the lines that the worker wrote if and only if none of
      those it writes without a break ends in a carriage return, and no break line was placed or no text of the break
      holds a line feed. */
  lemma ServedLinesIff(lines: seq<string>, cfg: Settings, cal: Calendar, firstMs: int, s: Range)
    requires NoFeeds(lines) && Clean(cfg.payload) && CalendarOk(cal)
    ensures Served(lines, cfg, cal, firstMs, s) == RewriteLines(lines, cfg, cal, firstMs, s) <==>
            NoneEndsInCr(RewriteLines(lines, cfg, cal, firstMs, BLANK)) &&
            !(BreakPlaced(lines, cfg, cal, firstMs, s) && HasFeed(s))
  {
    hide Clean, Arranged, Placed, HasFeed, Written, ClientLines, Served, RewriteLines, CalendarOk, NoneEndsInCr;
    hide NoFeeds;
    ServedIs(lines, cfg, cal, firstMs, s);
    ArrangedLines(lines, cfg, cal, firstMs);
    PlainRewrite(lines, cfg, cal, firstMs);
    ClientLinesIff(Arranged(lines, cfg, cal, firstMs), s, cal.parse);
  }

  lemma ArrangedUris(lines: seq<string>, cfg: Settings, cal: Calendar, firstMs: int)
    ensures Uris(Arranged(lines, cfg, cal, firstMs)) == Uris(lines)
  {
    hide Arranged, OfKind;
    ArrangedKeeps(lines, cfg, cal, firstMs, Uri);
  }

  lemma PlainRewrite(lines: seq<string>, cfg: Settings, cal: Calendar, firstMs: int)
    ensures RewriteLines(lines, cfg, cal, firstMs, BLANK) == NonBlank(Arranged(lines, cfg, cal, firstMs))
  {
    hide Arranged, NonBlank, TimesOf, DateRangeLine;
  }

  /** A placed break line brings a URI of its own. */
  ghost predicate BreakBringsUri(lines: seq<string>, cfg: Settings, cal: Calendar, firstMs: int, s: Range) {
    BreakPlaced(lines, cfg, cal, firstMs, s) && HasLine(s) && UriSomewhere(DateRangeLine(s) + "\n")
  }

  /** For every file, split at its line feeds: the client finds the URIs that it finds in the file, in order and with
      none added, if and only if no placed break line brings one. They are the URIs the worker read if and only if in
      addition none of these ends in a carriage return. */
  lemma ServedUrisIff(lines: seq<string>, cfg: Settings, cal: Calendar, firstMs: int, s: Range)
    requires NoFeeds(lines) && Clean(cfg.payload) && CalendarOk(cal)
    ensures Uris(Served(lines, cfg, cal, firstMs, s)) == Uris(Stripped(lines)) <==>
            !BreakBringsUri(lines, cfg, cal, firstMs, s)
    ensures "\r" !in lines ==>
              (Uris(Served(lines, cfg, cal, firstMs, s)) == Uris(lines) <==>
               NoneEndsInCr(Uris(lines)) && !BreakBringsUri(lines, cfg, cal, firstMs, s))
    ensures "\r" !in lines && BreakPlaced(lines, cfg, cal, firstMs, s) ==>
              HasLine(s) &&
              |Uris(Served(lines, cfg, cal, firstMs, s))| == |Uris(lines)| + |Uris(Pieces(s))|
  {
    hide Clean, Arranged, Placed, HasLine, ClientLines, Served, RewriteLines, CalendarOk, OfKind, Pieces, NoneEndsInCr;
    hide NoFeeds, DateRangeLine, UriSomewhere, Stripped;
    var a := Arranged(lines, cfg, cal, firstMs);
    ServedIs(lines, cfg, cal, firstMs, s);
    ArrangedLines(lines, cfg, cal, firstMs);
    ArrangedUris(lines, cfg, cal, firstMs);
    UrisOfStripped(lines);
    UrisOfStripped(a);
    ClientStrippedUrisIff(a, s, cal.parse);
    if "\r" !in lines { ClientUrisIff(a, s, cal.parse); }
    if HasLine(s) { PiecesHaveUriIff(s); }
  }

  lemma ArrangedOrder(h: seq<string>, es: seq<Segment>, cfg: Settings, cal: Calendar, firstMs: int)
    requires PlaylistOk(h, es) && es != []
    ensures var a := NonBlank(Arranged(h + MediaLines(es), cfg, cal, firstMs));
            (!EndsInVersion(h) ==> InOrder(a)) && (EndsInVersion(h) ==> HasStray(a))
  {
    hide KindOf, Arranged, NonBlank, InOrder, HasStray, EndsInVersion, MediaLines, RewriteLines, PlaylistOk;
    PlainRewrite(h + MediaLines(es), cfg, cal, firstMs);
    EvenlyDatedInOrderIff(h, es, cfg, cal, firstMs, BLANK);
    if EndsInVersion(h) { ClosingVersionGivesStray(h, es, cfg, cal, firstMs, BLANK); }
  }

  lemma LoneCrIsUri(lines: seq<string>)
    ensures "\r" in lines <==> "\r" in Uris(lines)
  {
    hide KindOf, OfKind;
    KindIff("\r");
    OfKindMember(lines, Uri);
  }

  lemma LoneCrStays(lines: seq<string>, cfg: Settings, cal: Calendar, firstMs: int)
    ensures "\r" in Arranged(lines, cfg, cal, firstMs) <==> "\r" in lines
  {
    hide Arranged, OfKind;
    ArrangedUris(lines, cfg, cal, firstMs);
    LoneCrIsUri(lines);
    LoneCrIsUri(Arranged(lines, cfg, cal, firstMs));
  }

  /** For every playlist, split at its line feeds: the client finds every URI right behind its EXTINF and that right
      behind one date if and only if no line is a lone carriage return, dates stand on all segments or on none, the
      header does not end in VERSION, and a placed break line, cut at its line feeds, is in the grammar of the order
      rule, as it is when no text of the break holds a line feed. */
  lemma ServedOrderIff(h: seq<string>, es: seq<Segment>, cfg: Settings, cal: Calendar, firstMs: int, s: Range)
    requires HeaderOk(h) && AllOk(es) && es != []
    requires NoFeeds(h + MediaLines(es)) && Clean(cfg.payload) && CalendarOk(cal)
    ensures InOrder(Served(h + MediaLines(es), cfg, cal, firstMs, s)) <==>
            "\r" !in h + MediaLines(es) && EvenlyDated(es) && !EndsInVersion(h) &&
            (BreakPlaced(h + MediaLines(es), cfg, cal, firstMs, s) && HasLine(s) ==> BreakAccepted(s))
    ensures HasLine(s) && !HasFeed(s) ==> BreakAccepted(s)
  {
    hide Clean, Arranged, Placed, HasLine, ClientLines, Served, RewriteLines, CalendarOk, Pieces, InOrder, HasStray;
    hide NonBlank, EndsInVersion, MediaLines, HeaderOk, AllOk, AllDated, NoneDated, HasFeed, HasBare;
    var a := Arranged(h + MediaLines(es), cfg, cal, firstMs);
    ServedIs(h + MediaLines(es), cfg, cal, firstMs, s);
    ArrangedLines(h + MediaLines(es), cfg, cal, firstMs);
    LoneCrStays(h + MediaLines(es), cfg, cal, firstMs);
    if !EvenlyDated(es) {
      UnevenGivesBare(h, es, cfg, cal, firstMs);
      BareIsFound(a, s, cal.parse);
    } else {
      ArrangedOrder(h, es, cfg, cal, firstMs);
      if EndsInVersion(h) { ClientStray(a, s, cal.parse); } else { ClientOrderIff(a, s, cal.parse); }
    }
    if HasLine(s) {
      PiecesInOrder(s);
      if !HasFeed(s) { OnePieceInOrder(s); }
    }
  }

  /** Without line feeds in the break its line is one piece, in order by itself. */
  lemma OnePieceInOrder(s: Range)
    requires HasLine(s) && !HasFeed(s)
    ensures InOrder(Pieces(s))
  {
    hide KindOf, HasFeed, DateRangeLine, HasLine, Pieces;
    PieceIff(s);
    DateRangeLineKind(s);
  }

  /** The rewrite keeps every DATERANGE line of the file and makes none. */
  lemma DateRangesStay(lines: seq<string>, cfg: Settings, cal: Calendar, firstMs: int, l: string)
    requires KindOf(l) == Kind.DateRange
    ensures l in Arranged(lines, cfg, cal, firstMs) <==> l in lines
  {
    hide KindOf, Arranged, OfKind;
    ArrangedKeeps(lines, cfg, cal, firstMs, Kind.DateRange);
    OfKindMember(lines, Kind.DateRange);
    OfKindMember(Arranged(lines, cfg, cal, firstMs), Kind.DateRange);
  }

  /** For every file: some line tells the client of the break, every text under its own name, if and only if a line of
      the file does so already, or the break line was placed, no text of the break holds a line feed, and the client
      resolves backslashes or no text holds a double quote or a backslash. */
  lemma ServedBreakIff(lines: seq<string>, cfg: Settings, cal: Calendar, firstMs: int, s: Range, client: Client)
    requires NoFeeds(lines) && Clean(cfg.payload) && CalendarOk(cal)
    ensures Reads(Served(lines, cfg, cal, firstMs, s), s, client) <==>
            Reads(Stripped(lines), s, client) ||
            (BreakPlaced(lines, cfg, cal, firstMs, s) && !HasFeed(s) && LegibleTo(s, client))
  {
    hide KindOf, Clean, Arranged, Placed, HasFeed, ClientLines, Served, RewriteLines, CalendarOk, Reads, LegibleTo;
    hide Stripped;
    var a := Arranged(lines, cfg, cal, firstMs);
    ServedIs(lines, cfg, cal, firstMs, s);
    ArrangedLines(lines, cfg, cal, firstMs);
    ClientReadsBreakIff(a, s, cal.parse, client);
    forall l | KindOf(l) == Kind.DateRange ensures l in a <==> l in lines {
      DateRangesStay(lines, cfg, cal, firstMs, l);
    }
    SameTagsTell(a, lines, s, client);
    SameTagsTell(lines, a, s, client);
  }

  // ---------- the supervisor's response ----------

  /** For every directory listing: the client finds the .aac URIs, in order and with none added, if and only if none
      of them ends in a carriage return and no placed break line brings one. */
  lemma FallbackUrisIff(lines: seq<string>, firstMs: int, cfg: Settings, cal: Calendar, s: Range)
    requires Fallback.AacUris(lines) != [] && NoFeeds(lines) && Clean(cfg.payload) && CalendarOk(cal)
    ensures var uris, a := Fallback.AacUris(lines), Fallback.ReadAgain(lines, firstMs, cfg, cal);
            Uris(SplitLines(JoinLines(Fallback.FallbackLines(lines, firstMs, cfg, cal, s)))) == uris <==>
            NoneEndsInCr(uris) &&
            !(Placed(a, s, cal.parse) && HasLine(s) && UriSomewhere(DateRangeLine(s) + "\n"))
  {
    hide Clean, Placed, HasLine, ClientLines, CalendarOk, OfKind, Pieces, NoneEndsInCr, StripCr, Injected, NonBlank;
    hide NoFeeds, DateRangeLine, UriSomewhere, SplitLines, JoinLines, Fallback.ReadAgain, Fallback.AacUris;
    hide Fallback.Generated;
    var uris, a := Fallback.AacUris(lines), Fallback.ReadAgain(lines, firstMs, cfg, cal);
    Fallback.ReadBack(lines, firstMs, cfg, cal);
    FallbackFree(lines, firstMs, cfg, cal);
    Fallback.GeneratedUris(lines, firstMs, cfg, cal);
    Fallback.SameUrisIff(uris);
    ClientIs(a, s, cal.parse);
    ClientUrisIff(a, s, cal.parse);
    StripTwice(uris);
    if HasLine(s) { PiecesHaveUriIff(s); }
  }

  lemma ClientIs(a: seq<string>, s: Range, parseUtc: string -> int)
    ensures ClientLines(a, s, parseUtc) == SplitLines(JoinLines(NonBlank(Injected(a, s, parseUtc))))
  {
    hide SplitLines, JoinLines, NonBlank, Injected;
  }

  /** The lines read back hold no line feed and no lone carriage return. */
  lemma FallbackFree(lines: seq<string>, firstMs: int, cfg: Settings, cal: Calendar)
    requires Fallback.AacUris(lines) != [] && NoFeeds(lines) && Clean(cfg.payload) && CalendarOk(cal)
    ensures var a := Fallback.ReadAgain(lines, firstMs, cfg, cal); NoFeeds(a) && "\r" !in a
  {
    hide Clean, StripCr, MediaLines, KindOf, CalendarOk, Fallback.AacUris, Fallback.FallbackHeader, Fallback.Entries;
    hide Fallback.PrintedSeq;
    var uris := Stripped(Fallback.AacUris(lines));
    var h, es := Fallback.FallbackHeader(cfg, Fallback.PrintedSeq(lines)), Fallback.Entries(uris, firstMs, cfg, cal);
    Fallback.AacUrisAreUris(lines);
    Fallback.StrippedAacUris(lines);
    forall u | u in uris ensures '\n' !in u {
      var i :| 0 <= i < |uris| && uris[i] == u;
      assert Fallback.AacUris(lines)[i] in lines;
      StripFree(Fallback.AacUris(lines)[i]);
    }
    Fallback.FallbackHeaderClean(cfg, Fallback.PrintedSeq(lines));
    Fallback.EntriesFree(uris, firstMs, cfg, cal);
    Fallback.EntriesOk(uris, firstMs, cfg, cal);
    CleanStays(h);
    NoLoneCr(es);
    forall l | l in h ensures l != "\r" { CleanIsFree(l); }
    EntryUriNotCr(uris, firstMs, cfg, cal);
  }

  lemma EntryUriNotCr(uris: seq<string>, firstMs: int, cfg: Settings, cal: Calendar)
    requires "\r" !in uris && forall u | u in uris :: KindOf(u) == Uri
    ensures "\r" !in MediaLines(Fallback.Entries(uris, firstMs, cfg, cal))
  {
    hide KindOf, MediaLines, InfLine, DateLine, StepMs;
    var es := Fallback.Entries(uris, firstMs, cfg, cal);
    Fallback.EntriesOk(uris, firstMs, cfg, cal);
    forall e | e in es ensures e.uri != "\r" {
      var i :| 0 <= i < |es| && es[i] == e;
      assert uris[i] in uris;
    }
    NoLoneCr(es);
  }

  lemma {:induction false} NoLoneCr(es: seq<Segment>)
    requires AllOk(es)
    ensures (forall e | e in es :: e.uri != "\r") ==> "\r" !in MediaLines(es)
  {
    hide KindOf, SegmentLines, SegmentOk;
    if es != [] {
      var e := es[0];
      assert e in es && forall x | x in es[1..] :: x in es;
      NoLoneCr(es[1..]);
      SegmentNoCr(e);
    }
  }

  lemma SegmentNoCr(e: Segment)
    requires SegmentOk(e)
    ensures e.uri != "\r" ==> "\r" !in SegmentLines(e)
  {
    hide KindOf;
    KindIff(e.inf);
    KindIff(e.date);
    KindIff("\r");
    assert EXTINF[0] == '#' && DATE[0] == '#';
  }

  lemma StripFree(l: string)
    requires '\n' !in l
    ensures '\n' !in StripCr(l)
  {
  }

  lemma StripTwice(uris: seq<string>)
    ensures Stripped(Stripped(uris)) == uris <==> Stripped(uris) == uris
  {
    if Stripped(Stripped(uris)) == uris {
      forall i | 0 <= i < |uris| ensures Stripped(uris)[i] == uris[i] {
        assert Stripped(Stripped(uris))[i] == StripCr(StripCr(uris[i]));
      }
    }
  }

  ghost predicate NoDateRange(lines: seq<string>) { forall l | l in lines :: KindOf(l) != Kind.DateRange }

  /** The lines read back are in order and have no DATERANGE tag. */
  lemma FallbackInOrder(lines: seq<string>, firstMs: int, cfg: Settings, cal: Calendar)
    requires Fallback.AacUris(lines) != []
    ensures var a := Fallback.ReadAgain(lines, firstMs, cfg, cal); InOrder(NonBlank(a)) && NoDateRange(a)
  {
    hide MediaLines, KindOf, Fallback.AacUris, Fallback.FallbackHeader, Fallback.Entries, Fallback.PrintedSeq;
    hide InOrder, AllOk, Stripped;
    var uris := Stripped(Fallback.AacUris(lines));
    var h, es := Fallback.FallbackHeader(cfg, Fallback.PrintedSeq(lines)), Fallback.Entries(uris, firstMs, cfg, cal);
    Fallback.StrippedAacUris(lines);
    Fallback.EntriesOk(uris, firstMs, cfg, cal);
    Fallback.FallbackHeaderOk(cfg, Fallback.PrintedSeq(lines));
    HeaderNonBlank(cfg, Fallback.PrintedSeq(lines));
    NoMediaInOrder(h);
    MediaInOrder(es);
    InOrderConcat(h, MediaLines(es));
    PlaylistTheorems.MediaNonBlank(es);
    NonBlankId(h + MediaLines(es));
    EntriesNoDateRange(es);
    HeaderNoDateRange(cfg, Fallback.PrintedSeq(lines));
  }

  lemma HeaderNonBlank(cfg: Settings, mediaSeq: int)
    ensures "" !in Fallback.FallbackHeader(cfg, mediaSeq)
  {
    hide KindOf, Fallback.FallbackHeader;
    Fallback.FallbackHeaderKinds(cfg, mediaSeq);
    KindIff("");
  }

  lemma {:induction false} EntriesNoDateRange(es: seq<Segment>)
    requires AllOk(es) && Fallback.AllPlain(es)
    ensures NoDateRange(MediaLines(es))
  {
    hide KindOf;
    if es != [] {
      assert es[0] in es && forall e | e in es[1..] :: e in es;
      EntriesNoDateRange(es[1..]);
      Fallback.PlainLines(es);
    }
  }

  lemma HeaderNoDateRange(cfg: Settings, mediaSeq: int)
    ensures NoDateRange(Fallback.FallbackHeader(cfg, mediaSeq))
  {
    hide KindOf, Fallback.FallbackHeader;
    Fallback.FallbackHeaderKinds(cfg, mediaSeq);
  }

  /** For every listing: the client finds the supervisor's lines in order if and only if no break line
      was placed or it is in the grammar of the order rule, and some line tells it of the break if and only if the line
      was placed, no text of the break holds a line feed, and the client can read them all. */
  lemma FallbackOrderIff(lines: seq<string>, firstMs: int, cfg: Settings, cal: Calendar, s: Range, client: Client)
    requires Fallback.AacUris(lines) != [] && NoFeeds(lines)
    requires Clean(cfg.payload) && CalendarOk(cal)
    ensures var a := Fallback.ReadAgain(lines, firstMs, cfg, cal);
            var t := SplitLines(JoinLines(Fallback.FallbackLines(lines, firstMs, cfg, cal, s)));
            (InOrder(t) <==> (Placed(a, s, cal.parse) && HasLine(s) ==> BreakAccepted(s))) &&
            (Reads(t, s, client) <==> Placed(a, s, cal.parse) && !HasFeed(s) && LegibleTo(s, client))
  {
    hide Clean, Placed, HasLine, ClientLines, CalendarOk, Pieces, StripCr, Injected, NonBlank, InOrder, Reads, HasFeed;
    hide NoFeeds, SplitLines, JoinLines, Fallback.ReadAgain, Fallback.AacUris, Fallback.Generated, AllClean, KindOf;
    hide LegibleTo;
    var a := Fallback.ReadAgain(lines, firstMs, cfg, cal);
    Fallback.ReadBack(lines, firstMs, cfg, cal);
    FallbackFree(lines, firstMs, cfg, cal);
    FallbackInOrder(lines, firstMs, cfg, cal);
    ClientIs(a, s, cal.parse);
    ClientOrderIff(a, s, cal.parse);
    if HasLine(s) { PiecesInOrder(s); }
    ClientReadsBreakIff(a, s, cal.parse, client);
    NothingTold(s, client);
    SameTagsTell(a, [], s, client);
  }

  lemma NothingTold(s: Range, client: Client)
    ensures !Reads(Stripped([]), s, client)
  {
  }

  // ---------- from the cues to the client ----------

  /** What any run that ends with a start, any other actions and an end makes of the served text, for any file:
      some line tells the client of exactly this start and end if and only if a line of the file does, or the break line
      was placed, no text of the two cues holds a line feed, and the client resolves backslashes or none holds a double
      quote or a backslash. */
  lemma ServedBreakTells(files: seq<string>, memories: seq<Range>, encoder: int, before: seq<Cue>, start: Cue,
                         between: seq<Cue>, end: Cue, lines: seq<string>, cfg: Settings, cal: Calendar, firstMs: int,
                         client: Client)
    requires ParsesInRange(cal.parse)
    requires BreakState.IsRun(files, memories, encoder, before + [start] + between + [end], cal.parse)
    requires Coherent(files[0], memories[0], cal.parse)
    requires start.action == "START_BREAK" && IsEnd(end.action) && NoBreakIn(between)
    requires ValidCue(start) && ValidCue(end)
    requires NoFeeds(lines) && Clean(cfg.payload) && CalendarOk(cal)
    ensures var s := ReadRange(ReadFile(files[|files| - 1]), cal.parse);
            Reads(Served(lines, cfg, cal, firstMs, s), ClosedBreak(encoder, start, end), client) <==>
            Reads(Stripped(lines), ClosedBreak(encoder, start, end), client) ||
            (BreakPlaced(lines, cfg, cal, firstMs, s) && PairTexts(start, end, OneLine) &&
             PairLegibleTo(start, end, client))
  {
    hide KindOf, Clean, Served, BreakPlaced, CalendarOk, Reads, ClientAttrs, Attrs, ReadRange, ReadFile, Fits, OneLine;
    hide Coherent, NoBreakIn, IsEnd, Tidy, ParsesInRange, Persists, DateRangeLine, LegibleTo, PairLegibleTo, PairTexts;
    hide AnnouncedClosed, InPlaceFor, PairInPlaceFor, Texts;
    StoredBreakIsAnnounced(files, memories, encoder, cal.parse, before, start, between, end, client);
    PlainFits(encoder);
    ClosedBreakTexts(encoder, start, end, OneLine);
    ClosedBreakLegible(encoder, start, end, client);
    ServedBreakIff(lines, cfg, cal, firstMs, ClosedBreak(encoder, start, end), client);
  }

  /** And what a run makes of it that ends with a start and any other actions: the same of the open break, with
      END-ON-NEXT and neither an end date nor a length. */
  lemma ServedOpenBreakTells(files: seq<string>, memories: seq<Range>, encoder: int, before: seq<Cue>, start: Cue,
                             between: seq<Cue>, lines: seq<string>, cfg: Settings, cal: Calendar, firstMs: int,
                             client: Client)
    requires ParsesInRange(cal.parse)
    requires BreakState.IsRun(files, memories, encoder, before + [start] + between, cal.parse)
    requires Coherent(files[0], memories[0], cal.parse)
    requires start.action == "START_BREAK" && NoBreakIn(between) && ValidCue(start)
    requires NoFeeds(lines) && Clean(cfg.payload) && CalendarOk(cal)
    ensures var s := ReadRange(ReadFile(files[|files| - 1]), cal.parse);
            Reads(Served(lines, cfg, cal, firstMs, s), OpenBreak(encoder, start), client) <==>
            Reads(Stripped(lines), OpenBreak(encoder, start), client) ||
            (BreakPlaced(lines, cfg, cal, firstMs, s) && CueTexts(start, OneLine) && CueLegibleTo(start, client))
    ensures forall attrs | Tells(attrs, OpenBreak(encoder, start)) ::
              Lookup(attrs, "END-ON-NEXT") == Some(Bare("YES")) &&
              Lookup(attrs, "END-DATE") == None && Lookup(attrs, "DURATION") == None
  {
    hide KindOf, Clean, Served, BreakPlaced, CalendarOk, Reads, ClientAttrs, Attrs, ReadRange, ReadFile, Fits, OneLine;
    hide Coherent, NoBreakIn, Tidy, ParsesInRange, Persists, DateRangeLine, LegibleTo, CueLegibleTo, CueTexts;
    hide Texts, Seconds, LooksLikeScte35, Lookup, TellsLabels;
    StoredBreakIsOpen(files, memories, encoder, cal.parse, before, start, between);
    PlainFits(encoder);
    OpenBreakTexts(encoder, start, OneLine);
    OpenBreakLegible(encoder, start, client);
    ServedBreakIff(lines, cfg, cal, firstMs, OpenBreak(encoder, start), client);
  }

  // ---------- when the line of an open break is placed ----------

  /** The last date that can be read is the last date line. */
  lemma LastDate(lines: seq<string>, x: seq<string>, date: string, r: seq<string>, parseUtc: string -> int)
    requires lines == x + [date] + r && KindOf(date) == Date && forall l | l in r :: KindOf(l) != Date
    requires parseUtc(DateText(date)) > 0
    ensures var times := TimesOf(lines, parseUtc);
            IsLastDated(times, |x|) && times[|x|] == parseUtc(DateText(date))
  {
    hide KindOf;
    KindIff(date);
    assert lines[|x|] == date;
    forall k | |x| < k < |lines| ensures !StartsWith(lines[k], DATE) {
      assert lines[k] == r[k - |x| - 1] && lines[k] in r;
      KindIff(lines[k]);
    }
  }

  lemma LastEntry(es: seq<Segment>)
    requires es != []
    ensures MediaLines(es) == MediaLines(es[..|es| - 1]) + SegmentLines(es[|es| - 1])
  {
    hide MediaLines, SegmentLines;
    var n := |es| - 1;
    PlaylistTheorems.MediaConcat(es[..n], [es[n]]);
    assert es[..n] + [es[n]] == es;
    OneEntry(es[n]);
  }

  lemma OneEntry(e: Segment)
    ensures MediaLines([e]) == SegmentLines(e)
  {
    assert MediaLines([e]) == SegmentLines(e) + [];
  }

  lemma OnlyDate(e: Segment)
    requires SegmentOk(e) && e.place == Before
    ensures SegmentLines(e) == [e.date] + SegmentLines(e)[1..] && KindOf(e.date) == Date
    ensures forall l | l in SegmentLines(e)[1..] :: KindOf(l) != Date
  {
    hide KindOf;
    assert SegmentLines(e)[1..] == [e.inf, e.uri] + e.tags;
  }

  /** Wherever TARGETDURATION is put, the last date of the playlist stays the last one. */
  lemma LastDateStays(f: seq<string>, m: seq<string>, date: string, r: seq<string>)
    returns (x: seq<string>, y: seq<string>)
    requires KindOf(date) == Date && (forall l | l in r :: KindOf(l) != Date)
    requires forall l | l in m + ([date] + r) :: IsSegmentKind(KindOf(l))
    ensures Reordered(f + (m + ([date] + r))) == x + [date] + y && forall l | l in y :: KindOf(l) != Date
  {
    hide KindOf, Reordered, EndsInVersion;
    var all := m + ([date] + r);
    if EndsInVersion(f) {
      ReorderedBehindMedia(f, all);
      var x0, td :| Reordered(f + all) == x0 + [all[0], td] + all[1..] && KindOf(td) == Target;
      if m == [] {
        x, y := x0, [td] + r;
        assert all[0] == date && all[1..] == r;
      } else {
        x, y := x0 + [m[0], td] + m[1..], r;
        assert all[1..] == m[1..] + ([date] + r);
      }
    } else {
      ReorderedDoc(f, all);
      x, y := Reordered(f) + m, r;
    }
  }

  lemma PlacedByLastDate(lines: seq<string>, s: Range, parseUtc: string -> int, last: nat)
    requires IsLastDated(TimesOf(lines, parseUtc), last) && s.active
    ensures Placed(lines, s, parseUtc) <==> HasLine(s) && s.startMs <= TimesOf(lines, parseUtc)[last]
  {
    hide HasLine, TimesOf, IsBreakPlace, InsertIndex;
    var times := TimesOf(lines, parseUtc);
    InsertIndexIff(times, s);
    assert IsDated(times, last);
    var first := FirstDated(times, last);
    OutsideWindowAt(times, s, first, last);
  }

  lemma {:induction false} FirstDated(times: seq<int>, i: nat) returns (first: nat)
    requires IsDated(times, i)
    ensures IsFirstDated(times, first)
    decreases i
  {
    if k: nat :| k < i && IsDated(times, k) { first := FirstDated(times, k); } else { first := i; }
  }

  /** In a playlist whose last segment has a date that can be read, the line of an open break is placed if and only if
      that date is not earlier than the start. */
  lemma OpenBreakPlacedIff(h: seq<string>, es: seq<Segment>, cfg: Settings, cal: Calendar, firstMs: int, s: Range)
    requires PlaylistOk(h, es) && es != [] && s.active && HasLine(s)
    requires cal.parse(DateText(OutSegments(es, cfg, cal, firstMs)[|es| - 1].date)) > 0
    ensures BreakPlaced(h + MediaLines(es), cfg, cal, firstMs, s) <==>
            s.startMs <= cal.parse(DateText(OutSegments(es, cfg, cal, firstMs)[|es| - 1].date))
  {
    hide KindOf, Arranged, MediaLines, HasLine, OutSegments, Reordered, DateText, PlaylistOk, Placed, SegmentLines;
    hide TimesOf, FullHeader;
    var out, n := OutSegments(es, cfg, cal, firstMs), |es| - 1;
    ArrangedDoc(h, es, cfg, cal, firstMs);
    OutBefore(es, cfg, cal, firstMs);
    LastEntry(out);
    OnlyDate(out[n]) by { assert out[n] in out; }
    MediaKinds(out);
    var m, e := MediaLines(out[..n]), SegmentLines(out[n]);
    var x, y := LastDateStays(FullHeader(h, cfg), m, out[n].date, e[1..]);
    var a := Arranged(h + MediaLines(es), cfg, cal, firstMs);
    LastDate(a, x, out[n].date, y, cal.parse);
    PlacedByLastDate(a, s, cal.parse, |x|);
  }
}
