/** When the tag reordering stays inside its line vector. */
module PlaylistRange {
  import opened PlaylistLines
  import opened Playlist
  import opened PlaylistShape
  import opened PlaylistServer
  import opened PlaylistTwice

  /** The lines as they are when the tags are reordered. */
  function BeforeReorder(lines: seq<string>, cfg: Settings, cal: Calendar, firstMs: int): seq<string> {
    var p := Prepared(lines, cfg, cal);
    Swapped(if HasKind(p, Date) then p else Stamped(p, firstMs, cfg, cal), cfg)
  }

  lemma EndIff(z: seq<string>)
    ensures (HasAllThree(z) ==> LastOf(z, Version) + 1 < |z|) <==> !EndsInVersion(z)
  {
    hide KindOf;
    if EndsInVersion(z) { LastIsVersion(z); }
  }

  lemma SameEnd(a: seq<string>, b: seq<string>)
    requires SameTags(a, b, Version) && SameTags(a, b, Target) && SameTags(a, b, MediaSequence) && EndsInVersion(a)
    ensures EndsInVersion(b)
  {
    hide KindOf;
    LastIsVersion(a);
    SameTagsKeep(a, b);
  }

  lemma {:induction false} StampedKeeps(lines: seq<string>, ms: int, cfg: Settings, cal: Calendar)
    ensures forall l | l in lines :: l in Stamped(lines, ms, cfg, cal)
  {
    hide KindOf, DateLine, StepMs;
    if lines != [] {
      assert lines == [lines[0]] + lines[1..];
      StampedKeeps(lines[1..], ms, cfg, cal);
      StampedKeeps(lines[1..], ms + StepMs(cfg), cfg, cal);
    }
  }

  lemma PreparedEnds(lines: seq<string>, cfg: Settings, cal: Calendar)
    requires EndsInVersion(lines)
    ensures EndsInVersion(Prepared(lines, cfg, cal))
  {
    hide KindOf, EndsInVersion, Normalized, Upgraded, Inserted, SameTags;
    EndsInVersionIff(lines, cfg);
    FullHeaderIs(lines, cfg);
    var f := FullHeader(lines, cfg);
    NormalizedTags(f, cal, Version);
    NormalizedTags(f, cal, Target);
    NormalizedTags(f, cal, MediaSequence);
    SameEnd(f, Normalized(f, cal));
  }

  lemma SwappedEnds(d: seq<string>, cfg: Settings)
    requires EndsInVersion(d)
    ensures EndsInVersion(Swapped(d, cfg))
  {
    hide EndsInVersion, Swapped, SameTags;
    SwappedSameTags(d, cfg, Version);
    SwappedSameTags(d, cfg, Target);
    SwappedSameTags(d, cfg, MediaSequence);
    SameEnd(d, Swapped(d, cfg));
  }

  lemma StampedEnds(p: seq<string>, ms: int, cfg: Settings, cal: Calendar)
    requires EndsInVersion(p)
    ensures EndsInVersion(Stamped(p, ms, cfg, cal))
  {
    hide KindOf, EndsInVersion, Stamped;
    NotEmpty(p);
    StampedEnd(p, ms, cfg, cal);
    StampedKeeps(p, ms, cfg, cal);
    EndsFrom(p, Stamped(p, ms, cfg, cal));
  }

  lemma NotEmpty(p: seq<string>)
    requires EndsInVersion(p)
    ensures p != []
  {
  }

  /** For every playlist: the place where TARGETDURATION is put back is inside the vector if and only if the playlist
      does not end in VERSION behind the other two tags. */
  lemma ReorderInRangeIff(lines: seq<string>, cfg: Settings, cal: Calendar, firstMs: int)
    ensures var z := BeforeReorder(lines, cfg, cal, firstMs);
            (HasAllThree(z) ==> LastOf(z, Version) + 1 < |z|) <==> !EndsInVersion(lines)
  {
    hide KindOf, EndsInVersion, Prepared, Stamped, Swapped, HasAllThree, LastOf, HasKind;
    EndIff(BeforeReorder(lines, cfg, cal, firstMs));
    if EndsInVersion(lines) {
      var p := Prepared(lines, cfg, cal);
      PreparedEnds(lines, cfg, cal);
      StampedEnds(p, firstMs, cfg, cal);
      SwappedEnds(if HasKind(p, Date) then p else Stamped(p, firstMs, cfg, cal), cfg);
    } else {
      ReorderIsInRange(lines, cfg, cal, firstMs);
    }
  }
}
