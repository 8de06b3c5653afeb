/** The response text read again as a playlist and rewritten again: exactly when it stays the same text. */
module TextTwice {
  import opened Text
  import opened PlaylistLines
  import opened BreakState
  import opened DateRange
  import opened Playlist
  import opened PlaylistServer
  import opened PlaylistShape
  import opened PlaylistText
  import opened PlaylistIdempotence
  import opened PlaylistTwice
  import opened ServedText

  lemma {:induction false} JoinInjective(a: seq<string>, b: seq<string>)
    requires NoFeeds(a) && NoFeeds(b) && JoinLines(a) == JoinLines(b)
    ensures a == b
  {
    hide LineLen;
    if a != [] && b != [] {
      assert a[0] in a && b[0] in b;
      LineLenOfLine(a[0], JoinLines(a[1..]));
      LineLenOfLine(b[0], JoinLines(b[1..]));
      var t := JoinLines(a);
      assert a[0] == t[..|a[0]|] && b[0] == t[..|b[0]|];
      assert JoinLines(a[1..]) == t[|a[0]| + 1..] && JoinLines(b[1..]) == t[|b[0]| + 1..];
      assert (forall l | l in a[1..] :: l in a) && forall l | l in b[1..] :: l in b;
      JoinInjective(a[1..], b[1..]);
    }
  }

  // ---------- carriage returns at the end of a line ----------

  function Crs(l: string): nat {
    if l == "" || l[|l| - 1] != '\r' then 0 else 1 + Crs(l[..|l| - 1])
  }

  ghost predicate CrsUpTo(lines: seq<string>, n: nat) { forall l | l in lines :: Crs(l) <= n }

  lemma CrsStripped(l: string)
    ensures Crs(StripCr(l)) == if Crs(l) == 0 then 0 else Crs(l) - 1
    ensures StripCr(l) == l <==> Crs(l) == 0
  {
  }

  lemma CrsClean(l: string)
    requires Clean(l)
    ensures Crs(l) == 0
  {
    if l != "" { assert l[|l| - 1] in l; }
  }

  lemma {:induction false} CrsBehind(p: string, t: string)
    requires p != "" && p[|p| - 1] != '\r'
    ensures Crs(p + t) == Crs(t)
    decreases |t|
  {
    if t == "" {
      assert p + t == p;
    } else {
      var n := |t| - 1;
      assert (p + t)[|p + t| - 1] == t[n] && (p + t)[..|p + t| - 1] == p + t[..n];
      CrsBehind(p, t[..n]);
    }
  }

  lemma CrsNormalized(l: string, cal: Calendar)
    requires CalendarOk(cal)
    ensures Crs(NormalizeLine(l, cal)) <= Crs(l)
  {
    hide Crs;
    if StartsWith(l, DATE) {
      var t := DateText(l);
      assert l == DATE + t;
      CrsBehind(DATE, t);
      CrsBehind(DATE, cal.toUtcZ(t));
      if EndsInZ(cal.toUtcZ(t)) { CrsOfZ(cal.toUtcZ(t)); }
    }
  }

  lemma CrsOfZ(t: string)
    requires EndsInZ(t)
    ensures Crs(t) == 0
  {
  }

  lemma CrsUpgraded(l: string, cfg: Settings)
    requires Clean(cfg.payload)
    ensures Crs(UpgradeLine(l, cfg)) <= Crs(l)
  {
    hide KindOf, IntToString, Clean, Crs;
    MadeLinesClean(cfg);
    EmptyClean();
    CrsClean(TARGET + IntToString(cfg.segSecs));
    CrsClean(VERSION + "6");
    CrsClean("");
  }

  /** The rewrite adds no carriage return to the end of any line. */
  lemma RewriteAddsNoCr(lines: seq<string>, cfg: Settings, cal: Calendar, firstMs: int, n: nat)
    requires CrsUpTo(lines, n) && CalendarOk(cal) && Clean(cfg.payload)
    ensures CrsUpTo(NonBlank(Arranged(lines, cfg, cal, firstMs)), n)
  {
    hide Arranged, NonBlank, UpgradeLine, NormalizeLine, InfLine, StartLine, DateLine, CalendarOk, Clean, Crs;
    var a := Arranged(lines, cfg, cal, firstMs);
    ArrangedMembers(lines, cfg, cal, firstMs);
    NonBlankMember(a);
    forall l | l in NonBlank(a) ensures Crs(l) <= n {
      if o :| o in lines && l == NormalizeLine(UpgradeLine(o, cfg), cal) {
        CrsUpgraded(o, cfg);
        CrsNormalized(UpgradeLine(o, cfg), cal);
      } else {
        MadeLine(l, cfg, cal);
        CrsClean(l);
      }
    }
  }

  lemma {:induction false} MostCrs(lines: seq<string>) returns (l: string)
    requires lines != []
    ensures l in lines && CrsUpTo(lines, Crs(l))
  {
    hide Crs;
    l := lines[0];
    if |lines| > 1 {
      var m := MostCrs(lines[1..]);
      if Crs(m) > Crs(l) { l := m; }
    }
    assert lines == [lines[0]] + lines[1..];
  }

  /** Read once more, the longest run of carriage returns is one shorter, and stays so: the lines differ. */
  lemma CrsGetFewer(once: seq<string>, cfg: Settings, cal: Calendar, again: int)
    requires !NoneEndsInCr(once) && CalendarOk(cal) && Clean(cfg.payload)
    ensures NonBlank(Arranged(Stripped(once), cfg, cal, again)) != once
  {
    hide Arranged, NonBlank, CalendarOk, Clean, Crs, StripCr;
    var o :| o in once && StripCr(o) != o;
    CrsStripped(o);
    var m := MostCrs(once);
    forall l | l in Stripped(once) ensures Crs(l) <= Crs(m) - 1 {
      var i :| 0 <= i < |once| && l == StripCr(once[i]);
      CrsStripped(once[i]);
      assert once[i] in once;
    }
    RewriteAddsNoCr(Stripped(once), cfg, cal, again, Crs(m) - 1);
    assert m in once;
  }

  // ---------- the text, twice ----------

  lemma NoBreakWritten(lines: seq<string>, cfg: Settings, cal: Calendar, firstMs: int, s: Range)
    requires !HasLine(s)
    ensures RewriteLines(lines, cfg, cal, firstMs, s) == NonBlank(Arranged(lines, cfg, cal, firstMs))
  {
    hide Arranged, NonBlank, HasLine, TimesOf;
  }

  lemma RewrittenFree(lines: seq<string>, cfg: Settings, cal: Calendar, firstMs: int, s: Range)
    requires NoFeeds(lines) && CalendarOk(cal) && Clean(cfg.payload) && !HasLine(s)
    ensures NoFeeds(RewriteLines(lines, cfg, cal, firstMs, s))
  {
    hide Arranged, NonBlank, HasLine, CalendarOk, Clean, RewriteLines;
    NoBreakWritten(lines, cfg, cal, firstMs, s);
    ArrangedLines(lines, cfg, cal, firstMs);
    NonBlankMember(Arranged(lines, cfg, cal, firstMs));
  }

  lemma StrippedSame(lines: seq<string>)
    ensures NoneEndsInCr(lines) ==> Stripped(lines) == lines
  {
    hide StripCr;
    if NoneEndsInCr(lines) { assert forall i | 0 <= i < |lines| :: lines[i] in lines; }
  }

  lemma StrippedFree(lines: seq<string>)
    requires NoFeeds(lines)
    ensures NoFeeds(Stripped(lines))
  {
    hide StripCr;
    forall l | l in Stripped(lines) ensures '\n' !in l {
      var i :| 0 <= i < |lines| && l == StripCr(lines[i]);
      StripFree(lines[i]);
    }
  }

  /** The texts are the same exactly when no line ends in a carriage return and the lines are. */
  lemma SameTextIff(once: seq<string>, cfg: Settings, cal: Calendar, again: int, s: Range)
    requires NoFeeds(once) && CalendarOk(cal) && Clean(cfg.payload) && !HasLine(s)
    ensures RewriteText(JoinLines(once), cfg, cal, again, s) == JoinLines(once) <==>
            NoneEndsInCr(once) && RewriteLines(once, cfg, cal, again, s) == once
  {
    hide RewriteLines, SplitLines, JoinLines, CalendarOk, Clean, HasLine, NoneEndsInCr, StripCr, Arranged, NonBlank;
    hide Stripped, NoFeeds;
    SplitJoinFree(once);
    StrippedSame(once);
    StrippedFree(once);
    var twice := RewriteLines(Stripped(once), cfg, cal, again, s);
    RewrittenFree(Stripped(once), cfg, cal, again, s);
    if JoinLines(twice) == JoinLines(once) { JoinInjective(twice, once); }
    if !NoneEndsInCr(once) {
      CrsGetFewer(once, cfg, cal, again);
      NoBreakWritten(Stripped(once), cfg, cal, again, s);
    }
  }

  /** For every file that is a playlist with at most one TARGETDURATION, while no break is set: its response, read and
      rewritten again, is the same text, whatever the clock says, if and only if the header settles and no line of the
      response ends in a carriage return. */
  lemma TextTwiceIff(data: string, h: seq<string>, es: seq<Segment>, cfg: Settings, cal: Calendar,
                     firstMs: int, again: int, s: Range)
    requires SplitLines(data) == h + MediaLines(es)
    requires PlaylistOk(h, es) && OneTarget(h) && CalendarOk(cal) && !HasLine(s) && Clean(cfg.payload)
    requires es != [] || !EndsInVersion(h)
    ensures var once := RewriteText(data, cfg, cal, firstMs, s);
            RewriteText(once, cfg, cal, again, s) == once <==>
            Settles(h) && NoneEndsInCr(RewriteLines(h + MediaLines(es), cfg, cal, firstMs, s))
  {
    hide RewriteLines, SplitLines, JoinLines, CalendarOk, Clean, HasLine, NoneEndsInCr, KindOf, PlaylistOk, OneTarget;
    hide EndsInVersion, Settles, MediaLines;
    SplitIsFree(data);
    RewrittenFree(h + MediaLines(es), cfg, cal, firstMs, s);
    SameTextIff(RewriteLines(h + MediaLines(es), cfg, cal, firstMs, s), cfg, cal, again, s);
    RewriteTwiceIff(h, es, cfg, cal, firstMs, again, s);
  }

  /** With the tags in FFmpeg's order, and any number of them, the carriage returns alone decide. */
  lemma TextRewriteIdempotentIff(data: string, h: seq<string>, es: seq<Segment>, cfg: Settings, cal: Calendar,
                                 firstMs: int, again: int, s: Range)
    requires SplitLines(data) == h + MediaLines(es)
    requires PlaylistOk(h, es) && TagsOrdered(h) && CalendarOk(cal) && !HasLine(s) && Clean(cfg.payload)
    ensures var once := RewriteText(data, cfg, cal, firstMs, s);
            RewriteText(once, cfg, cal, again, s) == once <==>
            NoneEndsInCr(RewriteLines(h + MediaLines(es), cfg, cal, firstMs, s))
  {
    hide RewriteLines, SplitLines, JoinLines, CalendarOk, Clean, HasLine, NoneEndsInCr, KindOf, PlaylistOk;
    hide MediaLines, TagsOrdered;
    SplitIsFree(data);
    RewrittenFree(h + MediaLines(es), cfg, cal, firstMs, s);
    SameTextIff(RewriteLines(h + MediaLines(es), cfg, cal, firstMs, s), cfg, cal, again, s);
    RewriteIdempotent(h, es, cfg, cal, firstMs, again, s);
  }
}
