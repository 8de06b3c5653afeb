/** Lines of an HLS media playlist (RFC 8216, section 4.1): which tag a line carries, and how a playlist
    text is split into lines and put together again. */
module PlaylistLines {

  const EXTINF := "#EXTINF:"
  const DATE := "#EXT-X-PROGRAM-DATE-TIME:"
  const VERSION := "#EXT-X-VERSION:"
  const TARGET := "#EXT-X-TARGETDURATION:"
  const MEDIA_SEQUENCE := "#EXT-X-MEDIA-SEQUENCE:"
  const START := "#EXT-X-START:"
  const DATERANGE := "#EXT-X-DATERANGE:"
  const INDEPENDENT := "#EXT-X-INDEPENDENT-SEGMENTS"
  const CACHE_YES := "#EXT-X-ALLOW-CACHE:YES"

  datatype Kind = Inf | Date | Version | Target | MediaSequence | Start | DateRange
                | Independent | CacheYes | Blank | Uri | Other

  predicate StartsWith(line: string, prefix: string) { prefix <= line }

  function KindOf(line: string): Kind {
    if line == "" then Blank
    else if line[0] != '#' then Uri
    else if EXTINF <= line then Inf
    else if DATE <= line then Date
    else if VERSION <= line then Version
    else if TARGET <= line then Target
    else if MEDIA_SEQUENCE <= line then MediaSequence
    else if START <= line then Start
    else if DATERANGE <= line then DateRange
    else if line == INDEPENDENT then Independent
    else if line == CACHE_YES then CacheYes
    else Other
  }

  /** The tags are pairwise incompatible, so the order of the tests does not matter: each kind stands for
      one test of the source. */
  lemma KindIff(line: string)
    ensures var k := KindOf(line);
            (k.Inf? <==> StartsWith(line, EXTINF)) && (k.Date? <==> StartsWith(line, DATE)) &&
            (k.Version? <==> StartsWith(line, VERSION)) && (k.Target? <==> StartsWith(line, TARGET)) &&
            (k.MediaSequence? <==> StartsWith(line, MEDIA_SEQUENCE)) && (k.Start? <==> StartsWith(line, START)) &&
            (k.DateRange? <==> StartsWith(line, DATERANGE)) &&
            (k.Independent? <==> line == INDEPENDENT) && (k.CacheYes? <==> line == CACHE_YES) &&
            (k.Blank? <==> line == "") && (k.Uri? <==> line != "" && line[0] != '#')
  {
    if EXTINF <= line { assert line[4] == 'I'; }
    if DATE <= line { assert line[4] == '-' && line[7] == 'P'; }
    if VERSION <= line { assert line[4] == '-' && line[7] == 'V'; }
    if TARGET <= line { assert line[4] == '-' && line[7] == 'T'; }
    if MEDIA_SEQUENCE <= line { assert line[4] == '-' && line[7] == 'M'; }
    if START <= line { assert line[4] == '-' && line[7] == 'S'; }
    if DATERANGE <= line { assert line[4] == '-' && line[7] == 'D'; }
    if line == INDEPENDENT { assert line[4] == '-' && line[7] == 'I'; }
    if line == CACHE_YES { assert line[4] == '-' && line[7] == 'A'; }
  }

  predicate HasKind(lines: seq<string>, k: Kind) {
    exists i | 0 <= i < |lines| :: KindOf(lines[i]) == k
  }

  /** Index of the last line of a kind among the first `n`, or -1. */
  function LastBelow(lines: seq<string>, k: Kind, n: nat): (r: int)
    requires n <= |lines|
    ensures -1 <= r < n
    ensures r >= 0 ==> KindOf(lines[r]) == k
    ensures forall i | r < i < n :: KindOf(lines[i]) != k
  {
    if n == 0 then -1
    else if KindOf(lines[n - 1]) == k then n - 1
    else LastBelow(lines, k, n - 1)
  }

  function LastOf(lines: seq<string>, k: Kind): (r: int)
    ensures -1 <= r < |lines|
    ensures r >= 0 ==> KindOf(lines[r]) == k
    ensures forall i | r < i < |lines| :: KindOf(lines[i]) != k
    ensures r == -1 <==> !HasKind(lines, k)
  {
    LastBelow(lines, k, |lines|)
  }

  lemma LastOfUnique(lines: seq<string>, k: Kind, i: nat)
    requires i < |lines| && KindOf(lines[i]) == k
    requires forall j | i < j < |lines| :: KindOf(lines[j]) != k
    ensures LastOf(lines, k) == i
  {
  }

  // ---------- text and lines ----------

  function StripCr(line: string): string {
    if line != "" && line[|line| - 1] == '\r' then line[..|line| - 1] else line
  }

  /** Length of the text up to the first newline. */
  function LineLen(text: string): (n: nat)
    ensures n <= |text| && '\n' !in text[..n] && (n < |text| ==> text[n] == '\n')
  {
    if text == "" || text[0] == '\n' then 0
    else
      var n := 1 + LineLen(text[1..]);
      assert text[..n] == [text[0]] + text[1..][..n - 1];
      n
  }

  /** `std::getline` until the end, each line without one trailing carriage return. */
  function SplitLines(text: string): seq<string> {
    if text == "" then []
    else
      var n := LineLen(text);
      [StripCr(text[..n])] + if n < |text| then SplitLines(text[n + 1..]) else []
  }

  function JoinLines(lines: seq<string>): string {
    if lines == [] then "" else lines[0] + "\n" + JoinLines(lines[1..])
  }

  lemma {:induction false} JoinConcat(a: seq<string>, b: seq<string>)
    ensures JoinLines(a + b) == JoinLines(a) + JoinLines(b)
  {
    if a == [] {
      assert a + b == b;
    } else {
      assert (a + b)[1..] == a[1..] + b;
      JoinConcat(a[1..], b);
      assert a[0] + "\n" + (JoinLines(a[1..]) + JoinLines(b)) == a[0] + "\n" + JoinLines(a[1..]) + JoinLines(b);
    }
  }

  function NonBlank(lines: seq<string>): seq<string> {
    if lines == [] then []
    else if lines[0] == "" then NonBlank(lines[1..])
    else [lines[0]] + NonBlank(lines[1..])
  }

  ghost predicate Clean(line: string) { '\n' !in line && '\r' !in line }

  ghost predicate AllClean(lines: seq<string>) { forall l | l in lines :: Clean(l) }

  lemma {:induction false} SplitJoin(lines: seq<string>)
    requires forall l | l in lines :: l != "" && Clean(l)
    ensures SplitLines(JoinLines(lines)) == lines
  {
    if lines != [] {
      var l, rest := lines[0], JoinLines(lines[1..]);
      assert l in lines;
      var text := JoinLines(lines);
      LineLenOfLine(l, rest);
      assert text == l + "\n" + rest;
      assert text[..|l|] == l && text[|l| + 1..] == rest;
      assert l[|l| - 1] in l;
      assert forall x | x in lines[1..] :: x in lines;
      SplitJoin(lines[1..]);
    }
  }

  /** The lines each with its own end, a newline with a carriage return in front or without; nothing behind the last
      one if `open`. */
  function JoinWith(lines: seq<string>, cr: seq<bool>, open: bool): string
    requires |cr| == |lines|
  {
    if lines == [] then ""
    else if |lines| == 1 && open then lines[0]
    else lines[0] + (if cr[0] then "\r" else "") + "\n" + JoinWith(lines[1..], cr[1..], open)
  }

  /** Clean lines, blank ones too, come back whichever way each of them ends. */
  lemma {:induction false} SplitMixed(lines: seq<string>, cr: seq<bool>, open: bool)
    requires |cr| == |lines| && (forall l | l in lines :: Clean(l))
    requires open && lines != [] ==> lines[|lines| - 1] != ""
    ensures SplitLines(JoinWith(lines, cr, open)) == lines
  {
    hide StripCr, LineLen, Clean;
    if lines != [] {
      var l := lines[0];
      assert l in lines && forall x | x in lines[1..] :: x in lines;
      if |lines| == 1 && open {
        OpenLine(l);
      } else {
        SplitMixed(lines[1..], cr[1..], open);
        EndedLine(l, cr[0], JoinWith(lines[1..], cr[1..], open));
      }
    }
  }

  lemma OpenLine(l: string)
    requires Clean(l) && l != ""
    ensures SplitLines(l) == [l]
  {
    assert LineLen(l) == |l| && l[..|l|] == l;
    assert l[|l| - 1] in l;
  }

  lemma EndedLine(l: string, cr: bool, rest: string)
    requires Clean(l)
    ensures SplitLines(l + (if cr then "\r" else "") + "\n" + rest) == [l] + SplitLines(rest)
  {
    hide SplitLines, StripCr;
    var k := l + if cr then "\r" else "";
    WithoutCr(l, cr);
    SplitEnd(k, rest);
  }

  lemma WithoutCr(l: string, cr: bool)
    requires Clean(l)
    ensures var k := l + if cr then "\r" else ""; StripCr(k) == l && '\n' !in k
  {
    if cr { assert (l + "\r")[..|l|] == l; } else if l != "" { assert l[|l| - 1] in l && l + "" == l; }
  }

  lemma SplitEnd(k: string, rest: string)
    requires '\n' !in k
    ensures SplitLines(k + "\n" + rest) == [StripCr(k)] + SplitLines(rest)
  {
    hide LineLen, StripCr;
    var text := k + "\n" + rest;
    LineLenOfLine(k, rest);
    assert text[..|k|] == k && text[|k| + 1..] == rest;
  }

  lemma {:induction false} LineLenOfLine(l: string, rest: string)
    requires '\n' !in l
    ensures LineLen(l + "\n" + rest) == |l|
  {
    var text := l + "\n" + rest;
    if l == "" {
      assert text[0] == '\n';
    } else {
      assert text[1..] == l[1..] + "\n" + rest;
      LineLenOfLine(l[1..], rest);
    }
  }

  lemma {:induction false} NonBlankConcat(a: seq<string>, b: seq<string>)
    ensures NonBlank(a + b) == NonBlank(a) + NonBlank(b)
  {
    if a == [] {
      assert a + b == b;
    } else {
      assert (a + b)[1..] == a[1..] + b;
      NonBlankConcat(a[1..], b);
    }
  }

  lemma {:induction false} NonBlankId(a: seq<string>)
    requires "" !in a
    ensures NonBlank(a) == a
  {
    if a != [] { NonBlankId(a[1..]); }
  }

  lemma {:induction false} NonBlankMember(a: seq<string>)
    ensures forall l :: l in NonBlank(a) <==> l in a && l != ""
  {
    if a != [] {
      NonBlankMember(a[1..]);
      assert a == [a[0]] + a[1..];
    }
  }

  /** The index of the next newline, or the end of the text. */
  method LineEnd(data: string, pos: nat) returns (nl: nat)
    requires pos <= |data|
    ensures pos <= nl <= |data| && nl - pos == LineLen(data[pos..])
  {
    nl := pos;
    while nl < |data| && data[nl] != '\n'
      invariant pos <= nl <= |data| && nl - pos + LineLen(data[nl..]) == LineLen(data[pos..])
    {
      assert data[nl..][1..] == data[nl + 1..];
      nl := nl + 1;
    }
  }

  lemma SplitLinesAt(data: string, pos: nat, nl: nat)
    requires pos < |data| && pos <= nl <= |data| && nl - pos == LineLen(data[pos..])
    ensures SplitLines(data[pos..]) ==
            [StripCr(data[pos..nl])] + if nl < |data| then SplitLines(data[nl + 1..]) else []
  {
    var text := data[pos..];
    assert text[..nl - pos] == data[pos..nl];
    if nl < |data| { assert text[nl - pos + 1..] == data[nl + 1..]; }
  }

  method ReadLines(data: string) returns (plines: seq<string>)
    ensures plines == SplitLines(data)
  {
    hide StripCr, LineLen;
    plines := [];
    var pos := 0;
    while pos < |data|
      invariant pos <= |data| && plines + SplitLines(data[pos..]) == SplitLines(data)
      decreases |data| - pos
    {
      var nl := LineEnd(data, pos);
      SplitLinesAt(data, pos, nl);
      ghost var rest := if nl < |data| then SplitLines(data[nl + 1..]) else [];
      var ln := StripCr(data[pos..nl]);
      assert plines + ([ln] + rest) == plines + [ln] + rest;
      plines := plines + [ln];
      pos := if nl < |data| then nl + 1 else nl;
    }
  }

  method WriteLines(plines: seq<string>) returns (data: string)
    ensures data == JoinLines(NonBlank(plines))
  {
    data := "";
    for i := 0 to |plines|
      invariant data + JoinLines(NonBlank(plines[i..])) == JoinLines(NonBlank(plines))
    {
      var ln := plines[i];
      ghost var rest := NonBlank(plines[i + 1..]);
      assert plines[i..][1..] == plines[i + 1..];
      if ln == "" { continue; }
      assert ([ln] + rest)[1..] == rest;
      assert data + (ln + "\n" + JoinLines(rest)) == data + (ln + "\n") + JoinLines(rest);
      data := data + (ln + "\n");
    }
  }
}
