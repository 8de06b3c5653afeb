/** The playlist rewrite of the worker's HLS server: header upgrade, dates before every EXTINF, metadata on
    every EXTINF, header order, and the break line. The spec functions work on line sequences; the
    methods edit a line vector by insert, swap and erase, as the source does. */
module Playlist {
  import opened Text
  import opened PlaylistLines
  import opened PdtAnchor
  import opened BreakState
  import opened DateRange

  /** hls.json and the metadata payload (already made safe for one line). */
  datatype Settings = Settings(segSecs: int, startOffset: int, payload: string)

  /** Date conversion, kept abstract. */
  datatype Calendar = Calendar(toUtcZ: string -> string, format: int -> string, parse: string -> int)

  ghost predicate EndsInZ(s: string) { s != "" && s[|s| - 1] == 'Z' }

  /** What is known of isoToUtcZ and formatUtcIso8601: text ending in Z is left alone, unreadable text is
      returned unchanged, everything else ends in Z; no conversion adds a line break. */
  ghost predicate CalendarOk(cal: Calendar) {
    (forall s :: cal.toUtcZ(s) == s || EndsInZ(cal.toUtcZ(s))) &&
    (forall s :: EndsInZ(s) ==> cal.toUtcZ(s) == s) &&
    (forall s :: Clean(s) ==> Clean(cal.toUtcZ(s))) &&
    (forall s :: '\n' !in s ==> '\n' !in cal.toUtcZ(s)) &&
    (forall ms :: EndsInZ(cal.format(ms)) && Clean(cal.format(ms)))
  }

  // ---------- the steps, on line sequences ----------

  function UpgradeLine(l: string, cfg: Settings): string {
    match KindOf(l)
    case Version => VERSION + "6"
    case Target => TARGET + IntToString(cfg.segSecs)
    case CacheYes => ""
    case _ => l
  }

  lemma UpgradeLineKind(l: string, cfg: Settings)
    ensures KindOf(UpgradeLine(l, cfg)) == if KindOf(l).CacheYes? then Blank else KindOf(l)
    ensures UpgradeLine(UpgradeLine(l, cfg), cfg) == UpgradeLine(l, cfg)
  {
    hide KindOf, IntToString;
    KindIff(l);
    KindIff(UpgradeLine(l, cfg));
    KindIff("");
  }

  function Upgraded(lines: seq<string>, cfg: Settings): (r: seq<string>)
    ensures |r| == |lines|
  {
    seq(|lines|, i requires 0 <= i < |lines| => UpgradeLine(lines[i], cfg))
  }

  function StartLine(cfg: Settings): string {
    START + ("TIME-OFFSET=" + IntToString(cfg.startOffset) + ",PRECISE=YES")
  }

  function MissingTags(lines: seq<string>, cfg: Settings): seq<string> {
    (if HasKind(lines, Independent) then [] else [INDEPENDENT]) +
    (if HasKind(lines, Start) then [] else [StartLine(cfg)])
  }

  function Inserted(lines: seq<string>, cfg: Settings): seq<string> {
    var m := LastOf(lines, MediaSequence);
    if m < 0 then lines else lines[..m + 1] + MissingTags(lines, cfg) + lines[m + 1..]
  }

  function DateLine(text: string): string { DATE + text }

  /** The date text of a date line. */
  function DateText(l: string): string { if StartsWith(l, DATE) then l[|DATE|..] else "" }

  function NormalizeLine(l: string, cal: Calendar): string {
    if StartsWith(l, DATE) then DateLine(cal.toUtcZ(DateText(l))) else l
  }

  lemma NormalizeLineKind(l: string, cal: Calendar)
    ensures KindOf(NormalizeLine(l, cal)) == KindOf(l)
    ensures KindOf(l) != Date ==> NormalizeLine(l, cal) == l
    ensures KindOf(l) == Date ==> NormalizeLine(l, cal) == DateLine(cal.toUtcZ(DateText(l)))
  {
    hide KindOf;
    KindIff(l);
    KindIff(NormalizeLine(l, cal));
  }

  function Normalized(lines: seq<string>, cal: Calendar): (r: seq<string>)
    ensures |r| == |lines|
  {
    seq(|lines|, i requires 0 <= i < |lines| => NormalizeLine(lines[i], cal))
  }

  function StepMs(cfg: Settings): int { 1000 * cfg.segSecs }

  /** A date line before every EXTINF, one segment apart. */
  function Stamped(lines: seq<string>, ms: int, cfg: Settings, cal: Calendar): seq<string> {
    if lines == [] then []
    else if KindOf(lines[0]) == Inf then
      [DateLine(cal.format(ms)), lines[0]] + Stamped(lines[1..], ms + StepMs(cfg), cfg, cal)
    else [lines[0]] + Stamped(lines[1..], ms, cfg, cal)
  }

  function InfLine(cfg: Settings): string {
    EXTINF + (IntToString(cfg.segSecs) + ".000," + cfg.payload)
  }

  lemma MadeLineKinds(cfg: Settings, text: string)
    ensures KindOf(StartLine(cfg)) == Start && KindOf(INDEPENDENT) == Independent
    ensures KindOf(DateLine(text)) == Date && DateText(DateLine(text)) == text
    ensures KindOf(InfLine(cfg)) == Inf
  {
    hide KindOf, IntToString;
    KindIff(StartLine(cfg));
    KindIff(INDEPENDENT);
    KindIff(DateLine(text));
    KindIff(InfLine(cfg));
  }

  /** EXTINF lines rewritten, each behind the date line that followed it. */
  function Swapped(lines: seq<string>, cfg: Settings): seq<string>
    decreases |lines|
  {
    if lines == [] then []
    else if KindOf(lines[0]) != Inf then [lines[0]] + Swapped(lines[1..], cfg)
    else if |lines| > 1 && KindOf(lines[1]) == Date then [lines[1], InfLine(cfg)] + Swapped(lines[2..], cfg)
    else [InfLine(cfg)] + Swapped(lines[1..], cfg)
  }

  predicate HasAllThree(lines: seq<string>) {
    HasKind(lines, Version) && HasKind(lines, Target) && HasKind(lines, MediaSequence)
  }

  /** VERSION is the very last line, behind the other two tags. In a header this makes the tag order go
      wrong; in a playlist without segments the source would insert past the end of its vector. */
  ghost predicate EndsInVersion(lines: seq<string>) {
    lines != [] && KindOf(lines[|lines| - 1]) == Version && HasKind(lines, Target) && HasKind(lines, MediaSequence)
  }

  /** The line at `from` erased and put back in at index `to` of what is left. */
  function Moved(lines: seq<string>, from: nat, to: nat): seq<string>
    requires from < |lines| && to < |lines|
  {
    var erased := lines[..from] + lines[from + 1..];
    erased[..to] + [lines[from]] + erased[to..]
  }

  /** TARGETDURATION moved to the place after VERSION. */
  function Reordered(lines: seq<string>): seq<string> {
    var v, t := LastOf(lines, Version), LastOf(lines, Target);
    if HasAllThree(lines) && v + 1 < |lines| then Moved(lines, t, v + 1) else lines
  }

  /** Number in the last "segment-<digits>" of a URI, or -1. */
  function FindLast(s: string, pat: string, k: int): (r: int)
    requires k + |pat| <= |s|
    ensures r >= 0 ==> r + |pat| <= |s|
    decreases k + 1
  {
    if k < 0 then -1 else if s[k..k + |pat|] == pat then k else FindLast(s, pat, k - 1)
  }

  function SegmentNumber(uri: string): int {
    var p := FindLast(uri, "segment-", |uri| - 8);
    if p < 0 then -1
    else
      var tail := uri[p + 8..];
      var q := DigitRun(tail);
      if q == 0 then -1 else match Stoi(tail[..q]) case None => -1 case Some(n) => n
  }

  /** Indices of the EXTINF lines from `i` on. */
  function InfFrom(lines: seq<string>, i: nat): seq<nat>
    requires i <= |lines|
    decreases |lines| - i
  {
    if i == |lines| then []
    else (if KindOf(lines[i]) == Inf then [i] else []) + InfFrom(lines, i + 1)
  }

  /** Number of the first segment, from the line after the first EXTINF. */
  function FirstNumber(lines: seq<string>): int {
    var inf := InfFrom(lines, 0);
    if inf != [] && inf[0] + 1 < |lines| then SegmentNumber(lines[inf[0] + 1]) else -1
  }

  function Prepared(lines: seq<string>, cfg: Settings, cal: Calendar): seq<string> {
    Normalized(Inserted(Upgraded(lines, cfg), cfg), cal)
  }

  /** The rewritten lines before the break line goes in; `firstMs` is the date of the first segment, used
      only where the playlist has no date of its own. */
  function Arranged(lines: seq<string>, cfg: Settings, cal: Calendar, firstMs: int): seq<string> {
    var p := Prepared(lines, cfg, cal);
    var d := if HasKind(p, Date) then p else Stamped(p, firstMs, cfg, cal);
    Reordered(Swapped(d, cfg))
  }

  function RewriteLines(lines: seq<string>, cfg: Settings, cal: Calendar, firstMs: int, s: Range): seq<string> {
    NonBlank(Injected(Arranged(lines, cfg, cal, firstMs), s, cal.parse))
  }

  /** Whether the request consults the anchor: no dates, and at least one segment. */
  function NeedsAnchor(lines: seq<string>, cfg: Settings, cal: Calendar): bool {
    var p := Prepared(lines, cfg, cal);
    !HasKind(p, Date) && HasKind(p, Inf)
  }

  function AnchorAfter(a: Anchor, lines: seq<string>, cfg: Settings, cal: Calendar, nowMs: int): Anchor {
    if NeedsAnchor(lines, cfg, cal)
    then Next(a, FirstNumber(Prepared(lines, cfg, cal)), cfg.segSecs, nowMs) else a
  }

  function FirstMsOf(a: Anchor, lines: seq<string>, cfg: Settings, cal: Calendar, laterMs: int): int {
    FirstStamp(a, FirstNumber(Prepared(lines, cfg, cal)), cfg.segSecs, laterMs)
  }
}
