/** The lines of a served text, as a client splits it, against the lines that were written: the break line is the one
    line whose texts come from outside and are not made safe for a line. */
module PlaylistText {
  import opened PlaylistLines
  import opened AttributeList
  import opened BreakState
  import opened BreakTexts
  import opened DateRange
  import opened DateRangeClient
  import opened BreakLine
  import opened PlaylistMedia
  import opened PlaylistTheorems
  import opened PlaylistOrder

  ghost predicate NoFeeds(lines: seq<string>) { forall l | l in lines :: '\n' !in l }

  function Stripped(lines: seq<string>): (r: seq<string>)
    ensures |r| == |lines|
  {
    seq(|lines|, i requires 0 <= i < |lines| => StripCr(lines[i]))
  }

  // ---------- splitting a text that was joined ----------

  predicate Closed(text: string) { text == "" || text[|text| - 1] == '\n' }

  lemma {:induction false} LineLenExtend(a: string, b: string)
    requires LineLen(a) < |a|
    ensures LineLen(a + b) == LineLen(a)
  {
    if a[0] != '\n' {
      assert (a + b)[1..] == a[1..] + b;
      LineLenExtend(a[1..], b);
    }
  }

  lemma {:induction false} ClosedHasFeed(text: string)
    requires Closed(text) && text != ""
    ensures LineLen(text) < |text|
  {
    if text[0] != '\n' { ClosedHasFeed(text[1..]); }
  }

  lemma {:induction false} SplitConcat(a: string, b: string)
    requires Closed(a)
    ensures SplitLines(a + b) == SplitLines(a) + SplitLines(b)
    decreases |a|
  {
    hide StripCr, LineLen, SplitLines, Closed;
    if a == "" {
      assert a + b == b;
      NothingSplit();
    } else {
      var n := LineLen(a);
      ClosedHasFeed(a);
      LineLenExtend(a, b);
      SplitStep(a);
      SplitStep(a + b);
      CutAfter(a, b, n);
      SplitConcat(a[n + 1..], b);
      Regroup([StripCr(a[..n])], SplitLines(a[n + 1..]), SplitLines(b));
    }
  }

  lemma NothingSplit()
    ensures SplitLines("") == []
  {
  }

  lemma CutAfter(a: string, b: string, n: nat)
    requires n < |a| && Closed(a)
    ensures (a + b)[..n] == a[..n] && (a + b)[n + 1..] == a[n + 1..] + b && Closed(a[n + 1..])
  {
    var rest := a[n + 1..];
    if rest != "" { assert rest[|rest| - 1] == a[|a| - 1]; }
  }

  lemma Regroup(a: seq<string>, b: seq<string>, c: seq<string>)
    ensures a + (b + c) == a + b + c
  {
  }

  lemma SplitStep(text: string)
    requires LineLen(text) < |text|
    ensures var n := LineLen(text); SplitLines(text) == [StripCr(text[..n])] + SplitLines(text[n + 1..])
  {
    hide StripCr, LineLen;
  }

  lemma {:induction false} JoinedIsClosed(lines: seq<string>)
    ensures Closed(JoinLines(lines))
  {
    if lines != [] { JoinedIsClosed(lines[1..]); }
  }

  lemma SplitJoinConcat(a: seq<string>, b: seq<string>)
    ensures SplitLines(JoinLines(a + b)) == SplitLines(JoinLines(a)) + SplitLines(JoinLines(b))
  {
    hide SplitLines, JoinLines, Closed;
    JoinConcat(a, b);
    JoinedIsClosed(a);
    SplitConcat(JoinLines(a), JoinLines(b));
  }

  lemma JoinOne(l: string)
    ensures JoinLines([l]) == l + "\n"
  {
    assert [l][1..] == [];
    assert l + "\n" + "" == l + "\n";
  }

  lemma SplitOne(l: string)
    requires '\n' !in l
    ensures SplitLines(l + "\n") == [StripCr(l)]
  {
    hide StripCr;
    LineLenOfLine(l, "");
    var text := l + "\n";
    assert l + "\n" + "" == text;
    assert text[..|l|] == l && text[|l| + 1..] == "";
    SplitStep(text);
  }

  /** Lines without a line feed come back, each without one carriage return at its end. */
  lemma {:induction false} SplitJoinFree(lines: seq<string>)
    requires NoFeeds(lines)
    ensures SplitLines(JoinLines(lines)) == Stripped(lines)
  {
    hide SplitLines, StripCr;
    if lines == [] {
      NothingToSplit();
    } else {
      assert lines[0] in lines && forall l | l in lines[1..] :: l in lines;
      assert lines == [lines[0]] + lines[1..];
      SplitJoinConcat([lines[0]], lines[1..]);
      JoinOne(lines[0]);
      SplitOne(lines[0]);
      SplitJoinFree(lines[1..]);
      assert Stripped(lines) == [StripCr(lines[0])] + Stripped(lines[1..]);
    }
  }

  lemma NothingToSplit()
    ensures SplitLines(JoinLines([])) == []
  {
  }

  // ---------- the parts of a response ----------

  /** Whether the break line goes into these lines. */
  predicate Placed(lines: seq<string>, s: Range, parseUtc: string -> int) {
    InsertIndex(TimesOf(lines, parseUtc), s).Some?
  }

  function Written(lines: seq<string>, s: Range, parseUtc: string -> int): seq<string> {
    NonBlank(Injected(lines, s, parseUtc))
  }

  /** The lines a client finds in the text. */
  function ClientLines(lines: seq<string>, s: Range, parseUtc: string -> int): seq<string> {
    SplitLines(JoinLines(Written(lines, s, parseUtc)))
  }

  /** The lines a client finds in place of the break line. */
  function Pieces(s: Range): seq<string>
    requires HasLine(s)
  {
    SplitLines(DateRangeLine(s) + "\n")
  }

  lemma PlacedHasLine(lines: seq<string>, s: Range, parseUtc: string -> int)
    requires Placed(lines, s, parseUtc)
    ensures HasLine(s)
  {
    hide HasLine, IsBreakPlace, OutsideWindow, DatedFrom;
    InsertIndexIff(TimesOf(lines, parseUtc), s);
  }

  /** A placed break line stands between two parts of the response, the second beginning with a date. */
  lemma WrittenParts(lines: seq<string>, s: Range, parseUtc: string -> int) returns (x: seq<string>, y: seq<string>)
    requires Placed(lines, s, parseUtc)
    ensures HasLine(s) && Written(lines, s, parseUtc) == x + [DateRangeLine(s)] + y && NonBlank(lines) == x + y
    ensures y != [] && KindOf(y[0]) == Date
  {
    hide KindOf, HasLine, DateRangeLine, NonBlank, TimesOf, InsertIndex, IsBreakPlace;
    PlacedHasLine(lines, s, parseUtc);
    var at := InsertIndex(TimesOf(lines, parseUtc), s).value;
    InsertIndexIff(TimesOf(lines, parseUtc), s);
    BreakPlaceIsDate(lines, s, parseUtc, at);
    DateRangeLineKind(s);
    KindIff("");
    x, y := NonBlank(lines[..at]), NonBlank(lines[at..]);
    NonBlankAround(lines, at, DateRangeLine(s));
    NonBlankFirst(lines[at..]);
  }

  lemma NonBlankAround(lines: seq<string>, at: nat, l: string)
    requires at <= |lines| && l != ""
    ensures NonBlank(lines[..at] + [l] + lines[at..]) == NonBlank(lines[..at]) + [l] + NonBlank(lines[at..])
    ensures NonBlank(lines) == NonBlank(lines[..at]) + NonBlank(lines[at..])
  {
    hide NonBlank;
    NonBlankConcat(lines[..at] + [l], lines[at..]);
    NonBlankConcat(lines[..at], [l]);
    NonBlankId([l]);
    NonBlankConcat(lines[..at], lines[at..]);
    assert lines == lines[..at] + lines[at..];
  }

  lemma NonBlankFirst(lines: seq<string>)
    requires lines != [] && lines[0] != ""
    ensures NonBlank(lines) != [] && NonBlank(lines)[0] == lines[0]
  {
  }

  lemma WrittenPlain(lines: seq<string>, s: Range, parseUtc: string -> int)
    requires !Placed(lines, s, parseUtc)
    ensures Written(lines, s, parseUtc) == NonBlank(lines)
  {
    hide NonBlank, TimesOf;
  }

  /** What a client finds: the lines around the break line, and its pieces between them. */
  lemma ClientParts(lines: seq<string>, s: Range, parseUtc: string -> int) returns (x: seq<string>, y: seq<string>)
    requires NoFeeds(lines)
    ensures NonBlank(lines) == x + y
    ensures if Placed(lines, s, parseUtc) then
              HasLine(s) && y != [] && KindOf(y[0]) == Date &&
              ClientLines(lines, s, parseUtc) == Stripped(x) + Pieces(s) + Stripped(y) &&
              Written(lines, s, parseUtc) == x + [DateRangeLine(s)] + y
            else
              x == [] && ClientLines(lines, s, parseUtc) == Stripped(y) && Written(lines, s, parseUtc) == y
    ensures NoFeeds(x) && NoFeeds(y)
  {
    hide KindOf, HasLine, DateRangeLine, NonBlank, Placed, Written, SplitLines, JoinLines, StripCr;
    NonBlankMember(lines);
    if Placed(lines, s, parseUtc) {
      x, y := WrittenParts(lines, s, parseUtc);
      assert (forall l | l in x :: l in x + y) && forall l | l in y :: l in x + y;
      var d := DateRangeLine(s);
      SplitJoinConcat(x + [d], y);
      SplitJoinConcat(x, [d]);
      JoinOne(d);
      SplitJoinFree(x);
      SplitJoinFree(y);
    } else {
      WrittenPlain(lines, s, parseUtc);
      x, y := [], NonBlank(lines);
      assert x + y == y;
      SplitJoinFree(y);
    }
  }

  // ---------- the same lines, or not ----------

  lemma PieceIff(s: Range)
    requires HasLine(s)
    ensures Pieces(s) == [DateRangeLine(s)] <==> !HasFeed(s)
    ensures HasFeed(s) ==> |Pieces(s)| > 1
  {
    hide DateRangeLine, HasFeed, HasLine;
    var d := DateRangeLine(s);
    LineFeedIff(s);
    LineEndsWell(s);
    if '\n' in d { SplitMore(d); } else { SplitOne(d); }
  }

  lemma SplitMore(l: string)
    requires '\n' in l
    ensures |SplitLines(l + "\n")| > 1
  {
    hide StripCr, LineLen;
    var text := l + "\n";
    var n := LineLen(text);
    FirstFeedEarly(l);
    SplitStep(text);
    var rest := text[n + 1..];
    assert rest != "" && Closed(rest);
    ClosedHasFeed(rest);
    SplitStep(rest);
  }

  lemma {:induction false} FirstFeedEarly(l: string)
    requires '\n' in l
    ensures LineLen(l + "\n") < |l|
  {
    if l[0] != '\n' {
      assert (l + "\n")[1..] == l[1..] + "\n" && l == [l[0]] + l[1..];
      FirstFeedEarly(l[1..]);
    }
  }

  lemma CleanStays(lines: seq<string>)
    requires AllClean(lines)
    ensures Stripped(lines) == lines && NoFeeds(lines)
  {
    forall l | l in lines ensures StripCr(l) == l {
      assert Clean(l);
      if l != "" { assert l[|l| - 1] in l; }
    }
  }

  ghost predicate NoneEndsInCr(lines: seq<string>) { forall l | l in lines :: StripCr(l) == l }

  lemma StrippedIff(a: seq<string>, b: seq<string>, p: seq<string>)
    ensures Stripped(a) + p + Stripped(b) == a + b <==> NoneEndsInCr(a + b) && p == []
  {
    hide StripCr;
    if Stripped(a) + p + Stripped(b) == a + b {
      assert |p| == 0;
      assert Stripped(a) + Stripped(b) == Stripped(a + b);
      forall l | l in a + b ensures StripCr(l) == l {
        var i :| 0 <= i < |a + b| && (a + b)[i] == l;
        assert Stripped(a + b)[i] == StripCr(l);
      }
    }
    if NoneEndsInCr(a + b) && p == [] {
      assert forall l | l in a || l in b :: l in a + b;
      assert Stripped(a) == a && Stripped(b) == b;
    }
  }

  lemma StrippedRoundIff(x: seq<string>, d: string, y: seq<string>)
    ensures Stripped(x) + [d] + Stripped(y) == x + [d] + y <==> NoneEndsInCr(x + y)
  {
    hide NoneEndsInCr;
    StrippedIff(x, y, []);
    var a, b := Stripped(x) + [d] + Stripped(y), x + [d] + y;
    assert Stripped(x) + [] + Stripped(y) == Stripped(x) + Stripped(y);
    assert a[..|x|] == Stripped(x) && a[|x| + 1..] == Stripped(y) && b[..|x|] == x && b[|x| + 1..] == y;
    var c, e := Stripped(x) + Stripped(y), x + y;
    assert c[..|x|] == Stripped(x) && c[|x|..] == Stripped(y) && e[..|x|] == x && e[|x|..] == y;
  }

  /** A client finds the lines that were written if and only if none of the others ends in a carriage return, and no
      break line was placed or no text of the break holds a line feed. */
  lemma ClientLinesIff(lines: seq<string>, s: Range, parseUtc: string -> int)
    requires NoFeeds(lines)
    ensures ClientLines(lines, s, parseUtc) == Written(lines, s, parseUtc) <==>
            NoneEndsInCr(NonBlank(lines)) && !(Placed(lines, s, parseUtc) && HasFeed(s))
  {
    hide StripCr, NonBlank, Placed, Written, ClientLines, HasFeed, HasLine, DateRangeLine, KindOf, Pieces, NoneEndsInCr;
    var x, y := ClientParts(lines, s, parseUtc);
    if Placed(lines, s, parseUtc) {
      PieceIff(s);
      StrippedRoundIff(x, DateRangeLine(s), y);
    } else {
      StrippedIff([], y, []);
      assert Stripped([]) + [] + Stripped(y) == Stripped(y) && [] + y == y;
    }
  }

  // ---------- the URIs a client finds ----------

  lemma StripKind(l: string)
    requires l != "\r"
    ensures KindOf(StripCr(l)) == Uri <==> KindOf(l) == Uri
  {
    hide KindOf;
    KindIff(l);
    KindIff(StripCr(l));
  }

  lemma {:induction false} UrisStripped(lines: seq<string>)
    requires "\r" !in lines
    ensures Uris(Stripped(lines)) == Stripped(Uris(lines))
  {
    hide KindOf, StripCr;
    if lines != [] {
      UrisStripped(lines[1..]);
      StripKind(lines[0]);
      assert Stripped(lines)[1..] == Stripped(lines[1..]);
      var u, rest := if KindOf(lines[0]) == Uri then [lines[0]] else [], Uris(lines[1..]);
      assert Stripped(u + rest) == Stripped(u) + Stripped(rest);
    }
  }

  /** A client finds the same URIs if and only if none of them ends in a carriage return and no piece of a placed
      break line is one. */
  lemma ClientUrisIff(lines: seq<string>, s: Range, parseUtc: string -> int)
    requires NoFeeds(lines) && "\r" !in lines
    ensures Uris(ClientLines(lines, s, parseUtc)) == Uris(lines) <==>
            NoneEndsInCr(Uris(lines)) && !(Placed(lines, s, parseUtc) && HasLine(s) && Uris(Pieces(s)) != [])
    ensures Placed(lines, s, parseUtc) ==>
              HasLine(s) && |Uris(ClientLines(lines, s, parseUtc))| == |Uris(lines)| + |Uris(Pieces(s))|
    ensures !(Placed(lines, s, parseUtc) && HasLine(s) && Uris(Pieces(s)) != []) ==>
              Uris(ClientLines(lines, s, parseUtc)) == Stripped(Uris(lines))
  {
    hide StripCr, NonBlank, Placed, Written, ClientLines, HasLine, DateRangeLine, KindOf, Pieces, OfKind, NoneEndsInCr;
    var x, y := ClientParts(lines, s, parseUtc);
    OfKindNonBlank(lines, Uri);
    NonBlankMember(lines);
    OfKindConcat(x, y, Uri);
    assert forall l | l in x || l in y :: l in x + y;
    UrisStripped(x);
    UrisStripped(y);
    if Placed(lines, s, parseUtc) {
      OfKindConcat(Stripped(x) + Pieces(s), Stripped(y), Uri);
      OfKindConcat(Stripped(x), Pieces(s), Uri);
      StrippedIff(Uris(x), Uris(y), Uris(Pieces(s)));
      assert Stripped(Uris(x)) + [] + Stripped(Uris(y)) == Stripped(Uris(x) + Uris(y));
    } else {
      NoUris();
      StrippedIff([], Uris(y), []);
      assert Stripped([]) + [] + Stripped(Uris(y)) == Stripped(Uris(y)) && [] + Uris(y) == Uris(y);
    }
  }

  lemma {:induction false} UrisOfStripped(lines: seq<string>)
    ensures Uris(Stripped(lines)) == Uris(Stripped(Uris(lines)))
  {
    hide KindOf, StripCr;
    if lines != [] {
      UrisOfStripped(lines[1..]);
      var l, rest := StripCr(lines[0]), Uris(lines[1..]);
      assert Stripped(lines)[1..] == Stripped(lines[1..]);
      if KindOf(lines[0]) == Uri {
        assert Stripped([lines[0]] + rest) == [l] + Stripped(rest);
        assert ([l] + Stripped(rest))[1..] == Stripped(rest);
      } else {
        NoUriStripped(lines[0]);
        assert Uris(lines) == rest;
      }
    }
  }

  lemma NoUriStripped(l: string)
    requires KindOf(l) != Uri
    ensures KindOf(StripCr(l)) != Uri
  {
    hide KindOf;
    KindIff(l);
    KindIff(StripCr(l));
  }

  /** Whatever the lines, a client finds their URIs, each without one carriage return at its end and dropped if nothing
      is left, if and only if no piece of a placed break line is one. */
  lemma ClientStrippedUrisIff(lines: seq<string>, s: Range, parseUtc: string -> int)
    requires NoFeeds(lines)
    ensures Uris(ClientLines(lines, s, parseUtc)) == Uris(Stripped(lines)) <==>
            !(Placed(lines, s, parseUtc) && HasLine(s) && Uris(Pieces(s)) != [])
  {
    hide StripCr, NonBlank, Placed, Written, ClientLines, HasLine, DateRangeLine, KindOf, Pieces, OfKind, Stripped;
    var x, y := ClientParts(lines, s, parseUtc);
    OfKindNonBlank(lines, Uri);
    UrisOfStripped(lines);
    UrisOfStripped(x + y);
    StrippedParts(x, y);
    OfKindConcat(Stripped(x), Stripped(y), Uri);
    if Placed(lines, s, parseUtc) {
      OfKindConcat(Stripped(x) + Pieces(s), Stripped(y), Uri);
      OfKindConcat(Stripped(x), Pieces(s), Uri);
      SameAroundIff(Uris(Stripped(x)), Uris(Pieces(s)), Uris(Stripped(y)));
    } else {
      assert x + y == y;
    }
  }

  lemma StrippedParts(x: seq<string>, y: seq<string>)
    ensures Stripped(x + y) == Stripped(x) + Stripped(y)
  {
    hide StripCr;
  }

  lemma SameAroundIff(a: seq<string>, p: seq<string>, b: seq<string>)
    ensures a + p + b == a + b <==> p == []
  {
    assert |a + p + b| == |a + b| + |p|;
    assert a + [] + b == a + b;
  }

  lemma NoUris()
    ensures Uris([]) == []
  {
  }

  // ---------- when a piece is a URI ----------

  /** The text goes on with a line that is not blank and no tag. */
  predicate UriNext(t: string) {
    t != "" && t[0] != '#' && t[0] != '\n' && !(t[0] == '\r' && (|t| == 1 || t[1] == '\n'))
  }

  predicate UriAt(t: string, i: nat) { i < |t| && t[i] == '\n' && UriNext(t[i + 1..]) }

  ghost predicate UriSomewhere(t: string) { exists i :: UriAt(t, i) }

  lemma UriLine(l: string, rest: string)
    requires '\n' !in l
    ensures KindOf(StripCr(l)) == Uri <==> UriNext(l + "\n" + rest)
  {
    hide KindOf;
    KindIff(StripCr(l));
    var t := l + "\n" + rest;
    if l != "" { assert t[0] == l[0] && l[0] in l; }
    if |l| > 1 { assert t[1] == l[1] && l[1] in l && StripCr(l)[0] == l[0]; }
  }

  lemma {:induction false} UriAfterFeedIff(t: string)
    requires Closed(t)
    ensures Uris(SplitLines(t)) != [] <==> UriNext(t) || UriSomewhere(t)
    decreases |t|
  {
    hide *;
    if t == "" {
      NothingNext(t);
      NoUriIn(t);
    } else {
      ClosedHasFeed(t);
      CutAfter(t, "", LineLen(t));
      UriStep(t);
      UriAfterFeedIff(t[LineLen(t) + 1..]);
      FeedsInRest(t, LineLen(t));
    }
  }

  lemma UriStep(t: string)
    requires LineLen(t) < |t|
    ensures Uris(SplitLines(t)) != [] <==> UriNext(t) || Uris(SplitLines(t[LineLen(t) + 1..])) != []
  {
    hide KindOf, StripCr, LineLen, UriNext, SplitLines, OfKind;
    var n := LineLen(t);
    var l, rest := t[..n], t[n + 1..];
    SplitStep(t);
    assert t == l + "\n" + rest;
    UriLine(l, rest);
    OfKindConcat([StripCr(l)], SplitLines(rest), Uri);
    OfKindOne(StripCr(l), Uri);
  }

  lemma NothingNext(t: string)
    requires t == ""
    ensures !UriNext(t) && Uris(SplitLines(t)) == []
  {
  }

  lemma NoUriIn(t: string)
    requires t == ""
    ensures !UriSomewhere(t)
  {
  }

  lemma FeedsInRest(t: string, n: nat)
    requires n < |t| && t[n] == '\n' && '\n' !in t[..n]
    ensures UriSomewhere(t) <==> UriNext(t[n + 1..]) || UriSomewhere(t[n + 1..])
  {
    hide UriNext;
    var rest := t[n + 1..];
    forall k | 0 <= k < n ensures t[k] != '\n' { assert t[k] in t[..n]; }
    forall i: nat | UriAt(t, i) ensures UriNext(rest) || UriSomewhere(rest) {
      if i > n {
        assert rest[i - n - 1..][1..] == t[i + 1..];
        assert UriAt(rest, i - n - 1);
      }
    }
    if UriNext(rest) { assert UriAt(t, n); }
    forall j: nat | UriAt(rest, j) ensures UriSomewhere(t) {
      assert rest[j + 1..] == t[n + 1 + j + 1..];
      assert UriAt(t, n + 1 + j);
    }
  }

  /** The break line brings a URI of its own if and only if one of its line feeds is followed by a line that is not
      blank and no tag. */
  lemma PiecesHaveUriIff(s: Range)
    requires HasLine(s)
    ensures Uris(Pieces(s)) != [] <==> UriSomewhere(DateRangeLine(s) + "\n")
  {
    hide KindOf, UriNext, SplitLines, DateRangeLine, UriSomewhere;
    UriAfterFeedIff(DateRangeLine(s) + "\n");
    LineIsTag(s);
  }

  lemma LineIsTag(s: Range)
    requires HasLine(s)
    ensures !UriNext(DateRangeLine(s) + "\n")
  {
    hide AttrsText, Attrs;
    assert DateRangeLine(s)[0] == '#';
  }

  // ---------- the order a client finds ----------

  lemma {:induction false} InOrderMiddle(x: seq<string>, p: seq<string>, y: seq<string>)
    requires InOrder(x + p + y) && p != [] && y != []
    requires KindOf(p[0]) == Kind.DateRange && KindOf(y[0]) == Date
    ensures InOrder(p)
  {
    hide KindOf;
    var all, n := x + p + y, |x|;
    forall i ensures InOrderAt(p, i) {
      assert InOrderAt(all, n + i);
      if 0 <= i < |p| {
        assert all[n + i] == p[i];
        assert i > 0 ==> all[n + i - 1] == p[i - 1];
        assert all[n + i + 1] == if i + 1 < |p| then p[i + 1] else y[0];
        assert KindAt(p, 0, Kind.DateRange);
      }
    }
  }

  lemma InOrderSplit(x: seq<string>, y: seq<string>)
    requires InOrder(x + y) && y != [] && KindOf(y[0]) == Date
    ensures InOrder(x) && InOrder(y)
  {
    hide KindOf;
    var all := x + y;
    forall i ensures InOrderAt(x, i) {
      assert InOrderAt(all, i);
      if 0 <= i < |x| { assert all[i] == x[i] && all[i + 1] == if i + 1 < |x| then x[i + 1] else y[0]; }
      if 0 < i < |x| { assert all[i - 1] == x[i - 1]; }
    }
    forall i ensures InOrderAt(y, i) {
      assert InOrderAt(all, |x| + i);
      if 0 <= i < |y| { assert all[|x| + i] == y[i]; }
      if 0 <= i && i + 1 < |y| { assert all[|x| + i + 1] == y[i + 1]; }
      if 0 < i < |y| { assert all[|x| + i - 1] == y[i - 1]; }
    }
  }

  lemma FirstPiece(s: Range)
    requires HasLine(s)
    ensures Pieces(s) != [] && KindOf(Pieces(s)[0]) == Kind.DateRange
  {
    hide KindOf, AttrsText, Attrs, LineLen, StripCr;
    var t := DateRangeLine(s) + "\n";
    assert Closed(t);
    ClosedHasFeed(t);
    SplitStep(t);
    var n := LineLen(t);
    assert DATERANGE <= t;
    TagInFirst(t, n);
    KindIff(StripCr(t[..n]));
  }

  lemma TagInFirst(t: string, n: nat)
    requires DATERANGE <= t && n < |t| && t[n] == '\n' && '\n' !in t[..n]
    ensures StartsWith(StripCr(t[..n]), DATERANGE)
  {
    assert '\n' !in DATERANGE;
    forall k | 0 <= k < |DATERANGE| ensures t[k] != '\n' { assert t[k] == DATERANGE[k] && DATERANGE[k] in DATERANGE; }
    assert t[..n][..|DATERANGE|] == DATERANGE;
    assert DATERANGE[|DATERANGE| - 1] == ':';
  }

  // ---------- the order of lines that end in carriage returns ----------

  lemma StripPrefix(l: string, tag: string)
    requires tag != "" && tag[|tag| - 1] != '\r'
    ensures StartsWith(StripCr(l), tag) <==> StartsWith(l, tag)
  {
    if StartsWith(l, tag) { assert l[|tag| - 1] == tag[|tag| - 1]; }
  }

  /** Kinds given by a prefix stay. */
  predicate IsPrefixKind(k: Kind) { k == Inf || k == Date || k == Target || k == Kind.DateRange }

  lemma StripTagKind(l: string, k: Kind)
    requires IsPrefixKind(k)
    ensures KindOf(StripCr(l)) == k <==> KindOf(l) == k
  {
    hide KindOf, StripCr;
    KindIff(l);
    KindIff(StripCr(l));
    StripPrefix(l, EXTINF);
    StripPrefix(l, DATE);
    StripPrefix(l, TARGET);
    StripPrefix(l, DATERANGE);
  }

  lemma StripAt(lines: seq<string>, i: int, k: Kind)
    requires IsPrefixKind(k) || (k == Uri && "\r" !in lines)
    ensures KindAt(Stripped(lines), i, k) <==> KindAt(lines, i, k)
  {
    hide KindOf, StripCr;
    if 0 <= i < |lines| {
      if k == Uri { StripKind(lines[i]); } else { StripTagKind(lines[i], k); }
    }
  }

  lemma OrderStripped(lines: seq<string>)
    requires "\r" !in lines
    ensures InOrder(Stripped(lines)) <==> InOrder(lines)
  {
    hide KindOf, StripCr;
    forall i ensures InOrderAt(Stripped(lines), i) <==> InOrderAt(lines, i) {
      forall j, k | k == Inf || k == Date || k == Uri ensures KindAt(Stripped(lines), j, k) <==> KindAt(lines, j, k) {
        StripAt(lines, j, k);
      }
    }
  }

  /** An EXTINF with a lone carriage return behind it, which a client takes for a blank line. */
  lemma LoneCrIsLost(x: seq<string>, p: seq<string>, y: seq<string>)
    requires InOrder(x + y) && "\r" in x + y && y != [] && (p == [] || KindOf(y[0]) == Date)
    ensures !InOrder(Stripped(x) + p + Stripped(y))
  {
    hide KindOf, StripCr;
    var z, n := x + y, |x|;
    var i :| 0 <= i < |z| && z[i] == "\r";
    KindIff("\r");
    assert InOrderAt(z, i) && KindAt(z, i, Uri);
    assert z[n] == y[0];
    var all, k := Stripped(x) + p + Stripped(y), if i < n then i else i + |p|;
    assert p == [] || i != n;
    BlankAt(z[i]);
    StripTagKind(z[i - 1], Inf);
    assert all[k] == "" && all[k - 1] == StripCr(z[i - 1]);
    KindIff("");
    assert !InOrderAt(all, k - 1);
  }

  lemma BlankAt(l: string)
    requires l == "\r"
    ensures StripCr(l) == ""
  {
  }

  /** From lines in order: a client finds them in order if and only if none is a lone carriage return, and no break line
      was placed or its pieces are in order by themselves. */
  lemma ClientOrderIff(lines: seq<string>, s: Range, parseUtc: string -> int)
    requires NoFeeds(lines) && InOrder(NonBlank(lines))
    ensures Placed(lines, s, parseUtc) ==> HasLine(s)
    ensures InOrder(ClientLines(lines, s, parseUtc)) <==>
            "\r" !in lines && (Placed(lines, s, parseUtc) && HasLine(s) ==> InOrder(Pieces(s)))
  {
    hide StripCr, NonBlank, Placed, Written, ClientLines, HasLine, DateRangeLine, KindOf, Pieces, InOrder;
    var x, y := ClientParts(lines, s, parseUtc);
    NonBlankMember(lines);
    assert "\r" in lines <==> "\r" in x + y;
    if Placed(lines, s, parseUtc) {
      if "\r" in lines { LoneCrIsLost(x, Pieces(s), y); } else { PiecesInOrderIff(x, s, y); }
    } else {
      assert x + y == y && Stripped([]) + [] + Stripped(y) == Stripped(y) && [] + y == y;
      if "\r" in lines { LoneCrIsLost([], [], y); } else { OrderStripped(y); }
    }
  }

  lemma PiecesInOrderIff(x: seq<string>, s: Range, y: seq<string>)
    requires HasLine(s) && InOrder(x + y) && "\r" !in x + y && y != [] && KindOf(y[0]) == Date
    ensures InOrder(Stripped(x) + Pieces(s) + Stripped(y)) <==> InOrder(Pieces(s))
  {
    hide StripCr, KindOf, Pieces, InOrder, HasLine;
    assert forall l | l in x || l in y :: l in x + y;
    FirstPiece(s);
    InOrderSplit(x, y);
    OrderStripped(x);
    OrderStripped(y);
    StripTagKind(y[0], Date);
    if InOrder(Pieces(s)) {
      InOrderConcat(Stripped(x), Pieces(s));
      InOrderConcat(Stripped(x) + Pieces(s), Stripped(y));
    }
    if InOrder(Stripped(x) + Pieces(s) + Stripped(y)) { InOrderMiddle(Stripped(x), Pieces(s), Stripped(y)); }
  }

  /** A TARGETDURATION in front of an EXTINF stays there. */
  lemma ClientStray(lines: seq<string>, s: Range, parseUtc: string -> int)
    requires NoFeeds(lines) && HasStray(NonBlank(lines))
    ensures !InOrder(ClientLines(lines, s, parseUtc))
  {
    hide StripCr, NonBlank, Placed, Written, ClientLines, HasLine, DateRangeLine, KindOf, Pieces, InOrder, HasStray;
    var x, y := ClientParts(lines, s, parseUtc);
    StrayStripped(x + y);
    assert Stripped(x) + Stripped(y) == Stripped(x + y);
    if Placed(lines, s, parseUtc) {
      StripTagKind(y[0], Date);
      StraySurvivesPieces(Stripped(x), Pieces(s), Stripped(y));
    } else {
      assert x + y == y;
    }
    StrayIsNotInOrder(ClientLines(lines, s, parseUtc));
  }

  lemma StrayStripped(lines: seq<string>)
    requires HasStray(lines)
    ensures HasStray(Stripped(lines))
  {
    hide KindOf, StripCr;
    var i :| KindAt(lines, i, Target) && KindAt(lines, i + 1, Inf);
    StripAt(lines, i, Target);
    StripAt(lines, i + 1, Inf);
  }

  lemma StraySurvivesPieces(x: seq<string>, p: seq<string>, y: seq<string>)
    requires HasStray(x + y) && y != [] && KindOf(y[0]) == Date
    ensures HasStray(x + p + y)
  {
    hide KindOf;
    var i :| KindAt(x + y, i, Target) && KindAt(x + y, i + 1, Inf);
    var all, n := x + p + y, |x|;
    assert (x + y)[n] == y[0];
    if i + 1 < n {
      assert all[i] == (x + y)[i] && all[i + 1] == (x + y)[i + 1];
      assert KindAt(all, i, Target) && KindAt(all, i + 1, Inf);
    } else {
      var k := i + |p|;
      assert all[k] == (x + y)[i] && all[k + 1] == (x + y)[i + 1];
      assert KindAt(all, k, Target) && KindAt(all, k + 1, Inf);
    }
  }

  /** The text, line by line, is in the grammar of the order rule. */
  predicate TextAccepts(t: string, due: Due)
    decreases |t|
  {
    if t == "" then due == Free
    else
      var n := LineLen(t);
      var k := KindOf(StripCr(t[..n]));
      Allows(due, k) && if n < |t| then TextAccepts(t[n + 1..], After(due, k)) else After(due, k) == Free
  }

  lemma {:induction false} TextAcceptsIff(t: string, due: Due)
    ensures TextAccepts(t, due) <==> Accepts(SplitLines(t), due)
    decreases |t|
  {
    hide KindOf, LineLen, StripCr, Allows, After;
    if t != "" {
      var n := LineLen(t);
      var rest := if n < |t| then SplitLines(t[n + 1..]) else [];
      assert SplitLines(t) == [StripCr(t[..n])] + rest && SplitLines(t)[1..] == rest;
      if n < |t| { TextAcceptsIff(t[n + 1..], After(due, KindOf(StripCr(t[..n])))); }
    }
  }

  predicate BreakAccepted(s: Range)
    requires HasLine(s)
  {
    TextAccepts(DateRangeLine(s) + "\n", Free)
  }

  /** The lines into which a break line is cut are in order if and only if its text is in the grammar. */
  lemma PiecesInOrder(s: Range)
    requires HasLine(s)
    ensures InOrder(Pieces(s)) <==> BreakAccepted(s)
  {
    hide HasLine, DateRangeLine, InOrder, SplitLines, TextAccepts, Accepts;
    InOrderIff(Pieces(s));
    TextAcceptsIff(DateRangeLine(s) + "\n", Free);
  }

  // ---------- the break a client finds ----------

  /** Some line tells the client of the break. */
  ghost predicate Reads(lines: seq<string>, s: Range, client: Client) {
    exists l | l in lines :: StartsWith(l, DATERANGE) && Tells(ClientAttrs(l, client), s)
  }

  /** No line that is found by splitting holds a line feed. */
  lemma {:induction false} SplitIsFree(t: string)
    ensures forall l | l in SplitLines(t) :: '\n' !in l
    decreases |t|
  {
    hide LineLen;
    if t != "" {
      var n := LineLen(t);
      if n < |t| { SplitIsFree(t[n + 1..]); }
    }
  }

  lemma ReadsConcat(a: seq<string>, b: seq<string>, s: Range, client: Client)
    ensures Reads(a + b, s, client) <==> Reads(a, s, client) || Reads(b, s, client)
  {
    hide ClientAttrs, Tells;
    if l :| l in a && StartsWith(l, DATERANGE) && Tells(ClientAttrs(l, client), s) { assert l in a + b; }
    if l :| l in b && StartsWith(l, DATERANGE) && Tells(ClientAttrs(l, client), s) { assert l in a + b; }
  }

  /** From a file that has the same DATERANGE lines the client is told the same. */
  lemma SameTagsTell(a: seq<string>, b: seq<string>, s: Range, client: Client)
    requires forall l | l in a && KindOf(l) == Kind.DateRange :: l in b
    ensures Reads(Stripped(a), s, client) ==> Reads(Stripped(b), s, client)
  {
    hide ClientAttrs, Tells, KindOf, StripCr;
    if l :| l in Stripped(a) && StartsWith(l, DATERANGE) && Tells(ClientAttrs(l, client), s) {
      var i :| 0 <= i < |a| && l == StripCr(a[i]);
      KindIff(l);
      StripTagKind(a[i], Kind.DateRange);
      assert a[i] in b;
      var j :| 0 <= j < |b| && b[j] == a[i];
      assert Stripped(b)[j] == l;
    }
  }

  /** The pieces of a break line tell the client of the break if and only if there is just one, and the client can read
      all its texts. */
  lemma PiecesTellIff(s: Range, client: Client)
    requires HasLine(s)
    ensures Reads(Pieces(s), s, client) <==> !HasFeed(s) && LegibleTo(s, client)
  {
    hide HasLine, DateRangeLine, KindOf, Texts, ClientAttrs, Attrs, Tells, SplitLines, LegibleTo;
    var d := DateRangeLine(s);
    PieceIff(s);
    if HasFeed(s) {
      SplitIsFree(d + "\n");
      forall l | l in Pieces(s) && StartsWith(l, DATERANGE) ensures !Tells(ClientAttrs(l, client), s) {
        FeedIsNotTold(l, s, client);
      }
    } else {
      ClientIsToldIff(s, client);
      DateRangeLineKind(s);
      KindIff(d);
      assert d in Pieces(s);
    }
  }

  /** Some line tells the client of the break if and only if another line did so already, or the break line was placed,
      no text of the break holds a line feed, and the client can read them all. */
  lemma ClientReadsBreakIff(lines: seq<string>, s: Range, parseUtc: string -> int, client: Client)
    requires NoFeeds(lines)
    ensures Reads(ClientLines(lines, s, parseUtc), s, client) <==>
            Reads(Stripped(lines), s, client) ||
            (Placed(lines, s, parseUtc) && !HasFeed(s) && LegibleTo(s, client))
  {
    hide StripCr, NonBlank, Placed, Written, ClientLines, HasLine, HasFeed, KindOf, Reads, Pieces, LegibleTo, Stripped;
    var x, y := ClientParts(lines, s, parseUtc);
    NonBlankMember(lines);
    KindIff("");
    SameTagsTell(lines, x + y, s, client);
    SameTagsTell(x + y, lines, s, client);
    StrippedParts(x, y);
    ReadsConcat(Stripped(x), Stripped(y), s, client);
    if Placed(lines, s, parseUtc) {
      ReadsConcat(Stripped(x) + Pieces(s), Stripped(y), s, client);
      ReadsConcat(Stripped(x), Pieces(s), s, client);
      PiecesTellIff(s, client);
    } else {
      assert x + y == y;
    }
  }
}
