// What finalizing the slice table promises.
module SliceFinalize {
  import opened FreeSpace
  import opened FreeSpaceFacts
  import opened Slices
  import opened SliceFacts
  import opened SliceRuns

  // ---------------------------------------------------------------------
  // The slices to be written.
  // ---------------------------------------------------------------------

  // Preserved, new or reserved: not dropped when some slice is preserved.
  ghost predicate Stays(st: State, e: SliceInfo)
    requires |st.edits| == NDKMAP
  {
    e.id < NDKMAP && (Reserved(e.id) || st.edits[e.id].preserve || st.edits[e.id].create)
  }

  // Number `id` names no slice that is dropped, or dropping it leads to `next`.
  ghost predicate DropStep(st: State, next: State, id: nat)
    requires |st.edits| == NDKMAP && |next.edits| == NDKMAP && id < NDKMAP
  {
    && (forall e :: e in LiveSet(next.slices) <==> e in LiveSet(st.slices) && (e.id != id || Stays(st, e)))
    && (forall i :: 0 <= i < NDKMAP ==> next.edits[i].preserve == st.edits[i].preserve)
    && (forall i :: 0 <= i < NDKMAP && i != id ==> next.edits[i].create == st.edits[i].create)
    && (next.whole <==> st.whole && (Reserved(id) || LiveFrom(st.slices, id, 0).None? || !st.edits[id].preserve))
  }

  lemma {:induction false} KeptStep(st: State, id: nat) returns (next: State)
    requires Sane(st) && id < NDKMAP
    ensures Sane(next) && Kept(st, id) == Kept(next, id + 1) && DropStep(st, next, id)
  {
    if Reserved(id) || LiveFrom(st.slices, id, 0).None? {
      next := st;
    } else if st.edits[id].preserve {
      next := st.(whole := false);
    } else if st.edits[id].create {
      next := st;
    } else {
      RemovedSane(st, id, BLANK);
      next := RemovedState(st, id);
    }
  }

  // Dropping the slices from number `id` on.
  lemma {:induction false} KeptLive(st: State, id: nat, e: SliceInfo)
    requires Sane(st) && id <= NDKMAP
    ensures e in LiveSet(Kept(st, id).slices) <==> e in LiveSet(st.slices) && (e.id < id || Stays(st, e))
    decreases NDKMAP - id
  {
    if id < NDKMAP {
      var next := KeptStep(st, id);
      KeptLive(next, id + 1, e);
    }
  }

  ghost predicate NonePreserved(st: State, id: nat)
    requires |st.edits| == NDKMAP
  {
    forall e :: e in LiveSet(st.slices) && id <= e.id < NDKMAP ==> Reserved(e.id) || !st.edits[e.id].preserve
  }

  lemma {:induction false} PreservedStep(st: State, next: State, id: nat)
    requires Sane(st) && |next.edits| == NDKMAP && id < NDKMAP && DropStep(st, next, id)
    ensures st.whole && NonePreserved(st, id) <==> next.whole && NonePreserved(next, id + 1)
  {
    var k := LiveFrom(st.slices, id, 0);
    if k.Some? {
      assert st.slices[k.value] in LiveSet(st.slices);
    }
    assert forall e :: e in LiveSet(st.slices) && e.id == id ==> k.Some?;
  }

  lemma {:induction false} KeptFlags(st: State, id: nat, i: nat)
    requires Sane(st) && id <= NDKMAP && i < NDKMAP
    ensures Kept(st, id).edits[i].preserve == st.edits[i].preserve
    ensures Kept(st, id).whole <==> st.whole && NonePreserved(st, id)
    decreases NDKMAP - id
  {
    if id < NDKMAP {
      var next := KeptStep(st, id);
      KeptFlags(next, id + 1, i);
      PreservedStep(st, next, id);
    }
  }

  // The slices finalizing leaves before it makes an install slice.
  ghost function ToWrite(st0: State): set<SliceInfo>
    requires |st0.edits| == NDKMAP
  {
    var st := Refreshed(st0);
    set e | e in LiveSet(st.slices) && (AnyPreserved(st) ==> Stays(st, e))
  }

  // The install slice is number 0 and is understood to take everything.
  ghost predicate TakesAll(st0: State, install: nat)
    requires |st0.edits| == NDKMAP
  {
    st0.whole && install == 0 && NonePreserved(Refreshed(st0), 0)
  }

  lemma {:induction false} ReadiedIs(st0: State, g: Geometry, install: nat)
    requires Sane(st0)
    ensures var st := Readied(st0, install);
      && Sane(st) && LiveSet(st.slices) == ToWrite(st0)
      && (st.whole <==> TakesAll(st0, install))
      && (install < NDKMAP ==> st.edits[install].preserve == st0.edits[install].preserve)
      && PartitionSize(st.slices, g) == PartitionSize(Refreshed(st0).slices, g)
  {
    var st := Refreshed(st0);
    RefreshedSane(st0);
    ReadiedSane(st0, install, BLANK);
    forall e
      ensures e in LiveSet(Kept(st, 0).slices) <==> e in LiveSet(st.slices) && Stays(st, e)
    {
      KeptLive(st, 0, e);
    }
    KeptFlags(st, 0, if install < NDKMAP then install else 0);
    SameSize(st.slices, Readied(st0, install).slices, g);
  }

  // ---------------------------------------------------------------------
  // Properties of a set of slices.
  // ---------------------------------------------------------------------

  ghost predicate AllWithin(live: set<SliceInfo>, max: nat)
  {
    forall e :: e in live && e.Counted() ==> e.offset + e.size <= max
  }

  ghost predicate AllApart(live: set<SliceInfo>)
  {
    forall e, f :: e in live && f in live && e.Counted() && f.Counted() && e != f ==> Apart(e.Sectors(), f.Sectors())
  }

  ghost predicate UnusedRun(live: set<SliceInfo>, max: nat, o: nat, n: nat)
  {
    o + n <= max && forall e :: e in live && e.Counted() ==> Apart(Region(o, n), e.Sectors())
  }

  // Entry that holds a live slice.
  lemma {:induction false} EntryOf(s: seq<SliceInfo>, e: SliceInfo) returns (i: nat)
    requires e in LiveSet(s) && e.Counted()
    ensures CountedAt(s, i) && s[i] == e
  {
    i :| 0 <= i < |s| && s[i].Live() && s[i] == e;
  }

  lemma {:induction false} WithinIff(s: seq<SliceInfo>, max: nat)
    ensures WithinDisk(s, max) <==> AllWithin(LiveSet(s), max)
  {
    assert forall i :: CountedAt(s, i) ==> s[i] in LiveSet(s);
    forall e | e in LiveSet(s) && e.Counted()
      ensures exists i :: CountedAt(s, i) && s[i] == e
    {
      var i := EntryOf(s, e);
    }
  }

  lemma {:induction false} ApartIff(s: seq<SliceInfo>)
    requires Tidy(s)
    ensures NoOverlap(s) <==> AllApart(LiveSet(s))
  {
    if NoOverlap(s) {
      forall e, f | e in LiveSet(s) && f in LiveSet(s) && e.Counted() && f.Counted() && e != f
        ensures Apart(e.Sectors(), f.Sectors())
      {
        var i := EntryOf(s, e);
        var j := EntryOf(s, f);
        assert i != j;
      }
    }
    if AllApart(LiveSet(s)) {
      forall i, j | CountedAt(s, i) && CountedAt(s, j) && i < j
        ensures Apart(s[i].Sectors(), s[j].Sectors())
      {
        assert s[i] in LiveSet(s) && s[j] in LiveSet(s);
      }
    }
  }

  lemma {:induction false} UnusedIff(s: seq<SliceInfo>, max: nat, o: nat, n: nat)
    ensures Free(s, max, o, n) <==> UnusedRun(LiveSet(s), max, o, n)
  {
    assert forall i :: CountedAt(s, i) ==> s[i] in LiveSet(s);
    forall e | e in LiveSet(s) && e.Counted()
      ensures exists i :: CountedAt(s, i) && s[i] == e
    {
      var i := EntryOf(s, e);
    }
  }

  // ---------------------------------------------------------------------
  // The verdict on a table.
  // ---------------------------------------------------------------------

  // Slices that end at a number of sectors pass exactly when none overlap;
  // if some do, what the table recorded before that ends at one as well.
  lemma {:induction false} VerdictIffApart(s: seq<SliceInfo>, g: Geometry)
    requires Tidy(s) && 0 < PartitionSize(s, g) < WORD && WithinDisk(s, WORD - 1)
    ensures FreeSpaceOf(s, g).0 <==> NoOverlap(s)
    ensures !NoOverlap(s) ==> Inside(FreeSpaceOf(s, g).1, WORD - 1)
  {
    var max, u := PartitionSize(s, g), UsedSpace(s);
    assert s[..|s|] == s;
    WithinIsInside(s, WORD - 1, |s|);
    UsedSpaceFitsTable(s);
    OrderlyIsSound(s, WORD - 1, |s|);
    SortSoundIff(u, WORD - 1);
    InsideSort(u, WORD - 1);
    SortSorts(u);
    SortKeepsAll(u);
    TableTrueIffDisjoint(Sort(u), max, NDKMAP);
    if !NoOverlap(s) {
      StoppedScanInside(Sort(u), 0, max, NDKMAP, FirstGap(Sort(u), 0, false, NDKMAP));
    }
  }

  lemma {:induction false} UsedSpaceOffsets(s: seq<SliceInfo>, n: nat)
    requires n <= |s| && forall i :: CountedAt(s, i) ==> s[i].offset < WORD
    ensures forall r :: r in UsedSpace(s[..n]) ==> r.offset < WORD
  {
    if n == 0 {
      assert s[..0] == [];
    } else {
      UsedSpaceNext(s, n - 1);
      UsedSpaceOffsets(s, n - 1);
      assert s[n - 1].Counted() ==> CountedAt(s, n - 1);
    }
  }

  // Slices that do not overlap pass, wherever the last of them ends.
  lemma {:induction false} ApartPasses(s: seq<SliceInfo>, g: Geometry, to: nat)
    requires Tidy(s) && Orderly(s, to) && forall i :: CountedAt(s, i) ==> s[i].offset < WORD
    ensures FreeSpaceOf(s, g).0
  {
    var u, t := UsedSpace(s), Sort(UsedSpace(s));
    assert s[..|s|] == s;
    OrderlyIsSound(s, to, |s|);
    SoundSort(u, to);
    SortSorts(u);
    NextApartIsDisjoint(t, to);
    SortKeepsAll(u);
    UsedSpaceOffsets(s, |s|);
    assert forall j :: 0 <= j < |t| ==> t[j] in multiset(t);
    if t != [] {
      ScanTrue(t, 0, PartitionSize(s, g), NDKMAP, FirstGap(t, 0, false, NDKMAP));
    }
  }

  // ---------------------------------------------------------------------
  // Finalizing.
  // ---------------------------------------------------------------------

  // An install slice among slices that do not overlap overlaps none and
  // starts at a number of sectors.
  lemma {:induction false} InstallSlicePasses(st: State, g: Geometry, install: nat)
    requires Usable(g) && Sane(st) && Grantable(st, install, Error)
    requires PartitionSize(st.slices, g) < WORD && Measured(st.slices)
    ensures var max, (ok, after) := PartitionSize(st.slices, g), Created(st, g, install, MAX_SIZE, Root, Error);
      && (ok <==> RoomFor(st.slices, Extent(st.slices, max), 1))
      && (ok ==> FreeSpaceOf(after.slices, g).0 && NoOverlap(after.slices))
      && (ok && WithinDisk(st.slices, max) ==> InOrder(after.slices, g))
  {
    var (ok, after) := Created(st, g, install, MAX_SIZE, Root, Error);
    var to := Extent(st.slices, PartitionSize(st.slices, g));
    OverwrittenUnchanged(st, install, 0);
    var slice, run := CreateOutcome(st, g, install, MAX_SIZE, Root, Error);
    var added := GrantedAdds(st, g, install, MAX_SIZE, Root, Error);
    if ok {
      SameSize(st.slices, after.slices, g);
      if slice.offset >= WORD {
        BeyondIsFree(st.slices, to, slice.offset - 1);
      }
      assert Free(st.slices, to, slice.offset, slice.size);
      AddedPlaces(st.slices, after.slices, to, slice);
      ApartPasses(after.slices, g, to);
    }
  }

  lemma {:induction false} BeyondIsFree(s: seq<SliceInfo>, to: nat, o: nat)
    requires WithinDisk(s, WORD - 1) && WORD - 1 <= o < to
    ensures Free(s, to, o, 1)
  {
  }

  lemma {:induction false} AddedPlaces(s: seq<SliceInfo>, t: seq<SliceInfo>, to: nat, e: SliceInfo)
    requires LiveSet(t) == LiveSet(s) + {e} && Measured(s) && WithinDisk(s, to)
    requires NoOverlap(t) && e.offset < WORD && e.offset + e.size <= to
    ensures Orderly(t, to) && forall i :: CountedAt(t, i) ==> t[i].offset < WORD
  {
    forall i | CountedAt(t, i)
      ensures t[i].offset + t[i].size <= to && t[i].offset < WORD
    {
      assert t[i] in LiveSet(t);
      if t[i] != e {
        var k := EntryOf(s, t[i]);
      }
    }
  }

  // One more slice does not make an overlap go away.
  lemma {:induction false} OverlapStays(st: State, g: Geometry, install: nat)
    requires Usable(g) && Sane(st) && Grantable(st, install, Error)
    requires PartitionSize(st.slices, g) < WORD && WithinDisk(st.slices, WORD - 1) && !NoOverlap(st.slices)
    ensures var (ok, after) := Created(st, g, install, MAX_SIZE, Root, Error);
      ok ==> !FreeSpaceOf(after.slices, g).0
  {
    var (ok, after) := Created(st, g, install, MAX_SIZE, Root, Error);
    OverwrittenUnchanged(st, install, 0);
    var k := GrantedResult(st, g, install, MAX_SIZE, Root, Error);
    var added := GrantedAdds(st, g, install, MAX_SIZE, Root, Error);
    if ok {
      var e := after.slices[k];
      VerdictIffApart(st.slices, g);
      assert Region(e.offset, e.size) in FreeSpaceOf(st.slices, g).1;
      SameSize(st.slices, after.slices, g);
      FillNoOverlapIff(st.slices, k, e);
      FillWithinIff(st.slices, WORD - 1, k, e);
      VerdictIffApart(after.slices, g);
    }
  }

  // What is left to be created for the install slice can be created.  Past
  // the end of the partition there always seems to be room.
  ghost predicate InstallSlicePossible(st0: State, g: Geometry, install: nat)
    requires |st0.edits| == NDKMAP && install < NDKMAP
  {
    var live, max := ToWrite(st0), PartitionSize(Refreshed(st0).slices, g);
    || (exists e :: e in live && e.id == install)
    || TakesAll(st0, install)
    || (!Reserved(install) && !st0.edits[install].preserve
        && (!AllWithin(live, max) || exists o: nat :: UnusedRun(live, max, o, 1)))
  }

  lemma {:induction false} RoomIff(st: State, live: set<SliceInfo>, max: nat)
    requires live == LiveSet(st.slices) && WithinDisk(st.slices, WORD - 1) && max > 0
    ensures RoomFor(st.slices, Extent(st.slices, max), 1)
      <==> !AllWithin(live, max) || exists o: nat :: UnusedRun(live, max, o, 1)
  {
    WithinIff(st.slices, max);
    if AllWithin(live, max) {
      forall o: nat
        ensures Free(st.slices, max, o, 1) <==> UnusedRun(live, max, o, 1)
      {
        UnusedIff(st.slices, max, o, 1);
      }
    } else {
      assert Free(st.slices, WORD + max, WORD + max - 1, 1);
    }
  }

  lemma {:induction false} SizePositive(s: seq<SliceInfo>, g: Geometry)
    requires g.sectors > 0
    ensures PartitionSize(s, g) > 0
  {
  }

  lemma {:induction false} LiveIff(s: seq<SliceInfo>, id: nat)
    ensures LiveFrom(s, id, 0).Some? <==> exists e :: e in LiveSet(s) && e.id == id
  {
    var k := LiveFrom(s, id, 0);
    if k.Some? {
      assert s[k.value] in LiveSet(s);
    }
  }

  // When finalizing makes an install slice.
  lemma {:induction false} MadeVerdict(st: State, g: Geometry, install: nat)
    requires Usable(g) && Sane(st) && install < NDKMAP && !st.invalid && LiveFrom(st.slices, install, 0).None?
    requires PartitionSize(st.slices, g) < WORD
    ensures var max, (made, after) := PartitionSize(st.slices, g), Created(st, g, install, MAX_SIZE, Root, Error);
      var ok := made && FreeSpaceOf(after.slices, g).0;
      && (WithinDisk(st.slices, WORD - 1) ==>
            (ok <==> NoOverlap(st.slices) && !Reserved(install) && !st.edits[install].preserve
                     && RoomFor(st.slices, Extent(st.slices, max), 1)))
      && (ok && WithinDisk(after.slices, WORD - 1) ==> NoOverlap(after.slices))
      && (ok ==> (InOrder(after.slices, g) <==> WithinDisk(st.slices, max)))
  {
    var (made, after) := Created(st, g, install, MAX_SIZE, Root, Error);
    if Grantable(st, install, Error) {
      OverwrittenUnchanged(st, install, 0);
      var added := GrantedAdds(st, g, install, MAX_SIZE, Root, Error);
      SameSize(st.slices, after.slices, g);
      if WithinDisk(st.slices, WORD - 1) {
        if NoOverlap(st.slices) {
          InstallSlicePasses(st, g, install);
        } else {
          OverlapStays(st, g, install);
        }
      }
      if made && WithinDisk(after.slices, WORD - 1) {
        VerdictIffApart(after.slices, g);
      }
      if made && Orderly(after.slices, PartitionSize(st.slices, g)) {
        FewerSlicesOrderly(after.slices, st.slices, PartitionSize(st.slices, g));
      }
    }
  }

  lemma {:induction false} ConcludedVerdict(st: State, g: Geometry, install: nat)
    requires Usable(g) && Sane(st) && install < NDKMAP && !st.invalid && PartitionSize(st.slices, g) < WORD
    ensures var max, (ok, after) := PartitionSize(st.slices, g), Concluded(st, g, install);
      && (WithinDisk(st.slices, WORD - 1) ==>
            (ok <==> NoOverlap(st.slices)
                     && (LiveFrom(st.slices, install, 0).Some? || st.whole
                         || (!Reserved(install) && !st.edits[install].preserve
                             && RoomFor(st.slices, Extent(st.slices, max), 1)))))
      && (ok && WithinDisk(after.slices, WORD - 1) ==> NoOverlap(after.slices))
      && (ok ==> (InOrder(after.slices, g) <==> WithinDisk(st.slices, max)))
  {
    if LiveFrom(st.slices, install, 0).None? && !st.whole {
      MadeVerdict(st, g, install);
    } else if WithinDisk(st.slices, WORD - 1) {
      VerdictIffApart(st.slices, g);
    }
  }

  // Finalizing, said of the slices to be written.  If they end at a number of
  // sectors, it succeeds exactly when they do not overlap and the install
  // slice is there or can be made.  Success means that nothing in the result
  // that ends at a number of sectors overlaps; that it lies within the
  // partition is not looked at: it does exactly when the slices to be written
  // do.
  lemma {:induction false} FinalizeTrueIff(st0: State, g: Geometry, install: nat)
    requires Usable(g) && Sane(st0) && PartitionSize(Refreshed(st0).slices, g) < WORD
    ensures var (ok, after) := Finalized(st0, g, install);
      && (AllWithin(ToWrite(st0), WORD - 1) ==>
            (ok <==> install < NDKMAP && AllApart(ToWrite(st0)) && InstallSlicePossible(st0, g, install)))
      && (ok && WithinDisk(after.slices, WORD - 1) ==> NoOverlap(after.slices))
      && (ok ==> (InOrder(after.slices, g) <==> AllWithin(ToWrite(st0), PartitionSize(Refreshed(st0).slices, g))))
  {
    var st, max := Readied(st0, install), PartitionSize(Refreshed(st0).slices, g);
    ReadiedIs(st0, g, install);
    WithinIff(st.slices, WORD - 1);
    WithinIff(st.slices, max);
    ApartIff(st.slices);
    if install < NDKMAP {
      ConcludedVerdict(st, g, install);
      LiveIff(st.slices, install);
      if AllWithin(ToWrite(st0), WORD - 1) {
        SizePositive(st.slices, g);
        RoomIff(st, ToWrite(st0), max);
      }
    }
  }
}
