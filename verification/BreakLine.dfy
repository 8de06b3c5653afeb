/** Line feeds in the texts of a break: the line is written as it is, so each of them ends a line of the playlist. */
module BreakLine {
  import opened AttributeList
  import opened BreakState
  import opened BreakTexts
  import opened DateRange
  import opened PlaylistLines

  /** Some text of the record holds a line feed. */
  predicate HasFeed(s: Range) { !Texts(s, OneLine) }

  /** The break line holds a line feed if and only if a text of the record does. */
  lemma LineFeedIff(s: Range)
    requires HasLine(s)
    ensures '\n' in DateRangeLine(s) <==> HasFeed(s)
  {
    hide AttrsText, Attrs, AllTexts, Texts, AllPrintable, OneLine;
    PlainFits(0);
    AttrTexts(s, OneLine, 0);
    AttrsPrintable(s);
    ListFeedIff(Attrs(s));
    assert '\n' !in DATERANGE;
  }

  lemma LineEndsWell(s: Range)
    requires HasLine(s)
    ensures EndsWell(DateRangeLine(s))
  {
    hide AttrsText, AllPrintable, HeadAttrs, LabelAttrs, Optional, DurationAttrs, OpenAttrs;
    AttrsPrintable(s);
    HeadIsThere(s);
    ListEndsWell(Attrs(s));
  }

  lemma HeadIsThere(s: Range)
    ensures HeadAttrs(s) != []
  {
  }
}
