/** A cue whose event id has two lines: what a client finds of its break in the text that is served. */
module BreakFeeds {
  import opened AttributeList
  import opened BreakState
  import opened BreakTexts
  import opened DateRange
  import opened BreakLine
  import opened BreakLifecycle
  import BreakQuotes
  import opened Playlist
  import opened PlaylistLines
  import opened PlaylistMedia
  import opened PlaylistOrder
  import opened PlaylistServer
  import opened PlaylistShape
  import opened PlaylistText
  import opened ServedText

  /** A cue with an event id of two lines, as a JSON cue can carry it. */
  const TWO_LINES := Cue("START_BREAK", "x\nsegment-9.aac", "BREAK", 1000, "2024-01-01T00:00:00Z")

  lemma TwoLinesIsValid()
    ensures ValidCue(TWO_LINES) && '\n' in TWO_LINES.eventId
  {
    assert TWO_LINES.eventId[1] == '\n';
  }

  /** An id with a line feed in front of plain text makes the break line bring a URI. */
  lemma IdOfTwoLines(s: Range, a: string, b: string)
    requires HasLine(s) && s.id == a + "\n" + b && b != "" && b[0] !in "#\n\r\\\""
    ensures UriSomewhere(DateRangeLine(s) + "\n")
  {
    hide DateRangeLine, EscapeQuotes, UriSomewhere;
    LineStartsWithId(s);
    BreakQuotes.EscapeConcat(a + "\n", b);
    BreakQuotes.EscapeConcat(a, "\n");
    EscapeStart(b);
    var head := DATERANGE + "ID=\"" + EscapeQuotes(a);
    assert DATERANGE + "ID=\"" + EscapeQuotes(s.id) == head + "\n" + EscapeQuotes(b);
    FeedBringsUri(head, EscapeQuotes(b), DateRangeLine(s));
  }

  lemma EscapeStart(b: string)
    requires b != "" && b[0] != '\\' && b[0] != '"'
    ensures EscapeQuotes(b) != "" && EscapeQuotes(b)[0] == b[0] && EscapeQuotes("\n") == "\n"
  {
    assert "\n"[1..] == "";
  }

  lemma FeedBringsUri(a: string, b: string, d: string)
    requires a + "\n" + b <= d && b != "" && b[0] !in "#\n\r"
    ensures UriSomewhere(d + "\n")
  {
    var t, i := d + "\n", |a|;
    assert (a + "\n" + b)[i] == '\n' && (a + "\n" + b)[i + 1] == b[0];
    assert t[i] == '\n' && t[i + 1] == b[0];
    assert UriAt(t, i);
  }

  lemma LineStartsWithId(s: Range)
    requires HasLine(s)
    ensures DATERANGE + "ID=\"" + EscapeQuotes(s.id) <= DateRangeLine(s)
  {
    hide EscapeQuotes, Attrs, QuotedAttr, AttrText;
    var a := Attrs(s);
    IdIsFirst(s);
    IdText(s.id);
    assert AttrText(a[0]) <= AttrsText(a);
    assert DATERANGE + AttrText(a[0]) <= DateRangeLine(s);
  }

  lemma IdIsFirst(s: Range)
    ensures |Attrs(s)| > 1 && Attrs(s)[0] == QuotedAttr("ID", s.id)
  {
    hide LabelAttrs, DurationAttrs, OpenAttrs, Optional;
  }

  lemma IdText(id: string)
    ensures DATERANGE + "ID=\"" + EscapeQuotes(id) <= DATERANGE + AttrText(QuotedAttr("ID", id))
  {
    hide EscapeQuotes, DATERANGE;
    assert AttrText(QuotedAttr("ID", id)) == "ID=\"" + EscapeQuotes(id) + "\"";
  }

  /** If it is the first, the line after it is a URI without EXTINF. */
  lemma SecondPieceIsUri(s: Range, a: string, b: string)
    requires HasLine(s) && s.id == a + "\n" + b && '\n' !in a && b != "" && b[0] !in "#\n\r\\\""
    ensures !InOrder(Pieces(s))
  {
    hide DateRangeLine, EscapeQuotes, KindOf, SplitLines, InOrder;
    LineStartsWithId(s);
    BreakQuotes.EscapeConcat(a + "\n", b);
    BreakQuotes.EscapeConcat(a, "\n");
    EscapeStart(b);
    EscapeKeepsFeed(a);
    var head, d := DATERANGE + "ID=\"" + EscapeQuotes(a), DateRangeLine(s);
    assert '\n' !in DATERANGE;
    assert DATERANGE + "ID=\"" + EscapeQuotes(s.id) == head + "\n" + EscapeQuotes(b);
    var rest := d[|head| + 1..] + "\n";
    StartAt(d, head, EscapeQuotes(b));
    LineLenOfLine(head, rest);
    assert (head + "\n" + rest)[|head| + 1..] == rest && (head + "\n" + rest)[..|head|] == head;
    SplitStep(d + "\n");
    FirstIsUri(rest);
    assert Pieces(s) == [StripCr(head)] + SplitLines(rest);
    FirstPiece(s);
    UriAfterTag(Pieces(s));
  }

  lemma StartAt(d: string, head: string, b: string)
    requires head + "\n" + b <= d && b != ""
    ensures |d| > |head| + 1 && d == head + "\n" + d[|head| + 1..] && d[|head| + 1] == b[0]
    ensures d + "\n" == head + "\n" + (d[|head| + 1..] + "\n")
  {
    assert (head + "\n" + b)[|head| + 1] == b[0] && d[..|head| + 1] == head + "\n";
  }

  lemma FirstIsUri(t: string)
    requires t != "" && Closed(t) && t[0] !in "#\n\r"
    ensures SplitLines(t) != [] && KindOf(SplitLines(t)[0]) == Uri
  {
    hide KindOf, LineLen, StripCr, SplitLines, UriNext;
    ClosedHasFeed(t);
    SplitStep(t);
    PlainStart(t);
    var n := LineLen(t);
    assert t == t[..n] + "\n" + t[n + 1..];
    UriLine(t[..n], t[n + 1..]);
  }

  lemma PlainStart(t: string)
    requires t != "" && t[0] !in "#\n\r"
    ensures UriNext(t)
  {
  }

  lemma UriAfterTag(p: seq<string>)
    requires |p| > 1 && KindOf(p[0]) == Kind.DateRange && KindOf(p[1]) == Uri
    ensures !InOrder(p)
  {
    hide KindOf;
    assert !InOrderAt(p, 1);
  }

  /** The break that this cue opens is announced over two lines, the second of which is a URI: wherever the line is
      placed, the client finds more URIs than the file has, and in no playlist are they in order. */
  lemma TwoLinesBringUri(encoder: int, lines: seq<string>, cfg: Settings, cal: Calendar, firstMs: int)
    requires NoFeeds(lines) && "\r" !in lines && Clean(cfg.payload) && CalendarOk(cal)
    ensures var s := OpenBreak(encoder, TWO_LINES);
            HasFeed(s) && HasLine(s) &&
            (BreakPlaced(lines, cfg, cal, firstMs, s) ==>
               |Uris(Served(lines, cfg, cal, firstMs, s))| > |Uris(lines)|) &&
            !InOrder(Pieces(s))
  {
    hide *;
    var s := OpenBreak(encoder, TWO_LINES);
    var a, b := TwoLinesRecord(encoder);
    IdOfTwoLines(s, a, b);
    SecondPieceIsUri(s, a, b);
    ServedUrisIff(lines, cfg, cal, firstMs, s);
    PiecesHaveUriIff(s);
  }

  lemma TwoLinesRecord(encoder: int) returns (a: string, b: string)
    ensures var s := OpenBreak(encoder, TWO_LINES);
            HasFeed(s) && HasLine(s) && s.id == a + "\n" + b && '\n' !in a && b != "" && b[0] !in "#\n\r\\\""
  {
    hide FreshId, Tidy, Plain, TWO_LINES;
    PrefixIsPlain(encoder, TWO_LINES.eventId);
    var t :| FreshId(encoder, TWO_LINES.eventId) == t + TWO_LINES.eventId && Plain(t) && OneLine(t);
    a, b := t + "x", "segment-9.aac";
    FreshIdIsThere(encoder, TWO_LINES.eventId);
    TwoLinesIsValid();
    TwoLinesSplits();
    PlainConcat(t, "x");
    assert t + ("x" + "\n" + b) == t + "x" + "\n" + b;
  }

  lemma TwoLinesSplits()
    ensures TWO_LINES.eventId == "x" + "\n" + "segment-9.aac" && TWO_LINES.nowIso != ""
    ensures "segment-9.aac"[0] == 's' && OneLine("x")
  {
  }

  // ---------- a playlist in which it happens ----------

  const AT := "2024-01-01T00:00:10Z"
  const SETTINGS := Settings(10, 0, "")
  const SEGMENT := Segment(InfLine(SETTINGS), DateLine(AT), After, "segment-1.aac", ["#EXT-X-ENDLIST"])
  const CALENDAR := Calendar(t => t, _ => "1970-01-01T00:00:00Z", t => if t == AT then 10000 else 0)

  lemma UriIsOk()
    ensures KindOf("segment-1.aac") == Uri && Clean("segment-1.aac") && Clean(AT) && EndsInZ(AT)
  {
    hide KindOf;
    KindIff("segment-1.aac");
  }

  lemma SegmentIsOk()
    ensures PlaylistOk([], [SEGMENT]) && HeaderOk([]) && AllOk([SEGMENT]) && !EndsInVersion([])
    ensures AllClean([] + MediaLines([SEGMENT]))
    ensures DateText(SEGMENT.date) == AT && EndsInZ(AT)
  {
    hide KindOf, Clean, InfLine, DateLine, AT, EndsInZ;
    UriIsOk();
    MadeLineKinds(SETTINGS, AT);
    CalendarIsOk();
    MadeLinesClean(SETTINGS);
    DateTextClean(AT);
    EndListIsOk();
    OneEntry(SEGMENT);
    assert SegmentLines(SEGMENT) == [SEGMENT.inf, SEGMENT.date, SEGMENT.uri, "#EXT-X-ENDLIST"];
  }

  lemma EndListIsOk()
    ensures KindOf("#EXT-X-ENDLIST") == Other && Clean("#EXT-X-ENDLIST")
  {
    var t := "#EXT-X-ENDLIST";
    assert t[4] == '-' && t[7] == 'E';
  }

  lemma CalendarIsOk()
    ensures CalendarOk(CALENDAR) && Clean(SETTINGS.payload)
  {
    assert EndsInZ("1970-01-01T00:00:00Z") && Clean("1970-01-01T00:00:00Z");
  }

  /** In the playlist with this one segment, dated behind the start of the break, the client finds a URI that is not in
      the file, and the lines out of order. */
  lemma TwoLinesHappens(encoder: int)
    ensures var s, lines := OpenBreak(encoder, TWO_LINES), MediaLines([SEGMENT]);
            BreakPlaced(lines, SETTINGS, CALENDAR, 0, s) &&
            |Uris(Served(lines, SETTINGS, CALENDAR, 0, s))| > |Uris(lines)| &&
            !InOrder(Served(lines, SETTINGS, CALENDAR, 0, s))
  {
    hide *;
    var s, lines := OpenBreak(encoder, TWO_LINES), MediaLines([SEGMENT]);
    SegmentIsOk();
    CalendarIsOk();
    assert [] + lines == lines;
    CleanStays(lines);
    NoLoneCrIn(lines);
    TwoLinesBringUri(encoder, lines, SETTINGS, CALENDAR, 0);
    SegmentDate();
    OpenBreakStart(encoder);
    OpenBreakPlacedIff([], [SEGMENT], SETTINGS, CALENDAR, 0, s);
    PiecesInOrder(s);
    ServedOrderIff([], [SEGMENT], SETTINGS, CALENDAR, 0, s);
  }

  lemma NoLoneCrIn(lines: seq<string>)
    requires AllClean(lines)
    ensures "\r" !in lines
  {
    assert "\r"[0] == '\r';
  }

  lemma SegmentDate()
    ensures CALENDAR.parse(DateText(OutSegments([SEGMENT], SETTINGS, CALENDAR, 0)[0].date)) == 10000
  {
    hide KindOf, OutSegments, DateText, PlaylistOk, EndsInZ;
    SegmentIsOk();
    CalendarIsOk();
    PlaylistTheorems.OutSegmentAt([], [SEGMENT], SETTINGS, CALENDAR, 0, 0);
    MadeLineKinds(SETTINGS, AT);
  }

  lemma OpenBreakStart(encoder: int)
    ensures OpenBreak(encoder, TWO_LINES).active && OpenBreak(encoder, TWO_LINES).startMs == 1000
  {
  }
}
