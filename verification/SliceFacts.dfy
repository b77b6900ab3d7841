// What runs of the slice editor keep.
module SliceFacts {
  import opened Wrappers
  import opened FreeSpace
  import opened FreeSpaceFacts
  import opened Slices

  // Live entries come first, and no two have the same id.
  ghost predicate Tidy(s: seq<SliceInfo>)
  {
    && |s| == NDKMAP
    && (forall i, j :: 0 <= i < j < |s| && s[j].Live() ==> s[i].Live())
    && (forall i, j :: 0 <= i < j < |s| && s[j].Live() ==> s[i].id != s[j].id)
    && (forall i :: 0 <= i < |s| && s[i].Live() ==> s[i].id < NDKMAP)
  }

  ghost function LiveSet(s: seq<SliceInfo>): set<SliceInfo>
  {
    set i | 0 <= i < |s| && s[i].Live() :: s[i]
  }

  ghost function Others(live: set<SliceInfo>, id: nat): set<SliceInfo>
  {
    set e | e in live && e.id != id
  }

  // ---------------------------------------------------------------------
  // Removing and adding entries.
  // ---------------------------------------------------------------------

  // A removal meets the live entry first, if there is one.
  lemma {:induction false} LiveEntryFirst(s: seq<SliceInfo>, id: nat)
    requires Tidy(s) && LiveFrom(s, id, 0).Some?
    ensures EntryFrom(s, id, 0) == LiveFrom(s, id, 0)
  {
    var k, m := EntryFrom(s, id, 0).value, LiveFrom(s, id, 0).value;
    assert k <= m;
    assert s[k].Live();
  }

  // t is s with entry k taken out.
  ghost predicate Shifted(s: seq<SliceInfo>, t: seq<SliceInfo>, k: nat)
  {
    && k < |s| == |t|
    && (forall i :: 0 <= i < k ==> t[i] == s[i])
    && (forall i :: k <= i < |s| - 1 ==> t[i] == s[i + 1])
    && t[|s| - 1] == BLANK
  }

  lemma {:induction false} ShiftedKeepsTidy(s: seq<SliceInfo>, t: seq<SliceInfo>, k: nat)
    requires Tidy(s) && Shifted(s, t, k)
    ensures Tidy(t)
  {
    forall i, j | 0 <= i < j < |t| && t[j].Live()
      ensures t[i].Live() && t[i].id != t[j].id
    {
      var a, b := if i < k then i else i + 1, if j < k then j else j + 1;
      assert t[i] == s[a] && t[j] == s[b];
    }
    forall j | 0 <= j < |t| && t[j].Live()
      ensures t[j].id < NDKMAP
    {
      assert t[j] == s[if j < k then j else j + 1];
    }
  }

  lemma {:induction false} ShiftedSet(s: seq<SliceInfo>, t: seq<SliceInfo>, id: nat, k: nat)
    requires Tidy(s) && Shifted(s, t, k) && EntryFrom(s, id, 0) == Some(k)
    ensures LiveSet(t) == Others(LiveSet(s), id)
  {
    forall e | e in Others(LiveSet(s), id)
      ensures e in LiveSet(t)
    {
      var i :| 0 <= i < |s| && s[i].Live() && s[i] == e;
      if i < k {
        assert t[i] == e;
      } else {
        assert t[i - 1] == s[i - 1 + 1];
      }
    }
    forall e | e in LiveSet(t)
      ensures e in Others(LiveSet(s), id)
    {
      var i :| 0 <= i < |t| && t[i].Live() && t[i] == e;
      if i < k {
        assert s[i] == e;
      } else {
        assert s[i + 1] == e && s[k].Live();
      }
    }
  }

  lemma {:induction false} WithoutShifts(s: seq<SliceInfo>, id: nat)
    requires EntryFrom(s, id, 0).Some?
    ensures Shifted(s, Without(s, id), EntryFrom(s, id, 0).value)
  {
  }

  lemma {:induction false} WithoutKeepsTidy(s: seq<SliceInfo>, id: nat)
    requires Tidy(s)
    ensures Tidy(Without(s, id))
    ensures LiveSet(Without(s, id)) == Others(LiveSet(s), id)
  {
    if EntryFrom(s, id, 0).Some? {
      var k := EntryFrom(s, id, 0).value;
      WithoutShifts(s, id);
      ShiftedKeepsTidy(s, Without(s, id), k);
      ShiftedSet(s, Without(s, id), id, k);
    }
  }

  // Overwriting removes the slice once.
  lemma {:induction false} OverwrittenIsRemoved(st: State, id: nat, i: nat)
    requires Tidy(st.slices) && id < |st.edits| == NDKMAP && i <= NDKMAP
    requires LiveFrom(st.slices, id, 0) == LiveFrom(st.slices, id, i)
    ensures Overwritten(st, id, i)
      == if LiveFrom(st.slices, id, 0).Some? then RemovedState(st, id) else st
    decreases NDKMAP - i
  {
    OverwrittenUnchanged(st, id, i);
    if i < NDKMAP && LiveFrom(st.slices, id, 0).Some? {
      if st.slices[i].id == id && st.slices[i].Live() {
        LiveEntryFirst(st.slices, id);
        var rest := RemovedState(st, id);
        WithoutKeepsTidy(st.slices, id);
        forall j | 0 <= j < NDKMAP && rest.slices[j].Live()
          ensures rest.slices[j].id != id
        {
          assert rest.slices[j] in LiveSet(rest.slices);
        }
        OverwrittenUnchanged(rest, id, i + 1);
      } else {
        OverwrittenIsRemoved(st, id, i + 1);
      }
    }
  }

  lemma {:induction false} OverwrittenKeepsTidy(st: State, id: nat)
    requires Tidy(st.slices) && id < |st.edits| == NDKMAP
    ensures var rest := Overwritten(st, id, 0);
      Tidy(rest.slices) && LiveSet(rest.slices) == Others(LiveSet(st.slices), id)
  {
    OverwrittenIsRemoved(st, id, 0);
    WithoutKeepsTidy(st.slices, id);
    if LiveFrom(st.slices, id, 0).None? {
      assert LiveSet(st.slices) == Others(LiveSet(st.slices), id);
    }
  }

  lemma {:induction false} FillKeepsTidy(s: seq<SliceInfo>, k: nat, e: SliceInfo)
    requires Tidy(s) && EmptyFrom(s, 0) == Some(k) && e.Live() && e.id < NDKMAP
    requires forall x :: x in LiveSet(s) ==> x.id != e.id
    ensures Tidy(s[k := e]) && LiveSet(s[k := e]) == LiveSet(s) + {e}
  {
    var t := s[k := e];
    assert forall i :: 0 <= i < |s| && s[i].Live() ==> s[i] in LiveSet(s);
    forall x | x in LiveSet(s) + {e}
      ensures x in LiveSet(t)
    {
      if x in LiveSet(s) {
        var i :| 0 <= i < |s| && s[i].Live() && s[i] == x;
        assert t[i] == x;
      } else {
        assert t[k] == x;
      }
    }
    forall x | x in LiveSet(t)
      ensures x in LiveSet(s) + {e}
    {
      var i :| 0 <= i < |t| && t[i].Live() && t[i] == x;
      assert i == k || s[i] == x;
    }
  }

  // ---------------------------------------------------------------------
  // There are only so many ids.
  // ---------------------------------------------------------------------

  // Ids of the live entries among the first n; without the reserved ones if
  // `counted`.
  ghost function Ids(s: seq<SliceInfo>, n: nat, counted: bool): set<nat>
    requires n <= |s|
  {
    if n == 0 then {}
    else if s[n - 1].Live() && (counted ==> !Reserved(s[n - 1].id)) then Ids(s, n - 1, counted) + {s[n - 1].id}
    else Ids(s, n - 1, counted)
  }

  lemma {:induction false} IdHasEntry(s: seq<SliceInfo>, n: nat, counted: bool, x: nat) returns (i: nat)
    requires n <= |s| && x in Ids(s, n, counted)
    ensures i < n && s[i].Live() && s[i].id == x && (counted ==> !Reserved(x))
  {
    if s[n - 1].Live() && s[n - 1].id == x && (counted ==> !Reserved(x)) {
      i := n - 1;
    } else {
      i := IdHasEntry(s, n - 1, counted, x);
    }
  }

  lemma {:induction false} NewId(s: seq<SliceInfo>, n: nat, counted: bool)
    requires Tidy(s) && n < |s|
    ensures s[n].Live() ==> s[n].id !in Ids(s, n, counted)
  {
    if s[n].Live() && s[n].id in Ids(s, n, counted) {
      var i := IdHasEntry(s, n, counted, s[n].id);
      assert false;
    }
  }

  ghost function Below(n: nat): (ids: set<nat>)
    ensures forall i: nat :: i in ids <==> i < n
    ensures |ids| == n
  {
    if n == 0 then {} else Below(n - 1) + {n - 1}
  }

  lemma {:induction false} SubsetSize(a: set<nat>, b: set<nat>)
    requires a <= b
    ensures |a| <= |b|
  {
    assert b == a + (b - a);
  }

  lemma {:induction false} IdsBelow(ids: set<nat>, n: nat)
    requires forall x :: x in ids ==> x < n
    ensures |ids| <= n
  {
    SubsetSize(ids, Below(n));
  }

  lemma {:induction false} IdsBelowWithout(ids: set<nat>, n: nat, x: nat)
    requires x < n && x !in ids && forall y :: y in ids ==> y < n
    ensures |ids| < n
  {
    IdsBelow(ids + {x}, n);
  }

  lemma {:induction false} CountedIdsBelow(ids: set<nat>, n: nat)
    requires n > 9 && forall x :: x in ids ==> x < n && !Reserved(x)
    ensures |ids| <= n - 3
  {
    IdsBelowWithout(ids + {2} + {8}, n, 9);
    assert 8 !in ids + {2} && 2 !in ids;
  }

  // Every counted entry has its own id.
  lemma {:induction false} UsedSpaceCountsIds(s: seq<SliceInfo>, n: nat)
    requires Tidy(s) && n <= |s|
    ensures |UsedSpace(s[..n])| == |Ids(s, n, true)|
  {
    if n == 0 {
      assert s[..0] == [];
    } else {
      UsedSpaceNext(s, n - 1);
      UsedSpaceCountsIds(s, n - 1);
      NewId(s, n - 1, true);
    }
  }

  // At most 13 slices take part in the accounting, so the free table, of 16
  // entries, never drops a region.
  lemma {:induction false} UsedSpaceFitsTable(s: seq<SliceInfo>)
    requires Tidy(s)
    ensures |UsedSpace(s)| <= NDKMAP - 3
  {
    assert s[..|s|] == s;
    UsedSpaceCountsIds(s, |s|);
    forall x | x in Ids(s, |s|, true)
      ensures x < |s| && !Reserved(x)
    {
      var i := IdHasEntry(s, |s|, true, x);
    }
    CountedIdsBelow(Ids(s, |s|, true), |s|);
  }

  lemma {:induction false} LiveCountsIds(s: seq<SliceInfo>, n: nat)
    requires Tidy(s) && n <= |s| && forall i :: 0 <= i < n ==> s[i].Live()
    ensures |Ids(s, n, false)| == n
  {
    if n > 0 {
      LiveCountsIds(s, n - 1);
      NewId(s, n - 1, false);
    }
  }

  // As long as some id is not in use there is an empty entry.
  lemma {:induction false} UnusedIdLeavesEntry(s: seq<SliceInfo>, id: nat)
    requires Tidy(s) && id < NDKMAP && LiveFrom(s, id, 0).None?
    ensures EmptyFrom(s, 0).Some?
  {
    if EmptyFrom(s, 0).None? {
      LiveCountsIds(s, |s|);
      forall x | x in Ids(s, |s|, false)
        ensures x < |s| && x != id
      {
        var i := IdHasEntry(s, |s|, false, x);
      }
      IdsBelowWithout(Ids(s, |s|, false), |s|, id);
      assert false;
    }
  }

  // ---------------------------------------------------------------------
  // Where slices lie.
  // ---------------------------------------------------------------------

  ghost predicate CountedAt(s: seq<SliceInfo>, i: int)
  {
    0 <= i < |s| && s[i].Counted()
  }

  // Slices that are not reserved end within the first `max` sectors.
  ghost predicate WithinDisk(s: seq<SliceInfo>, max: nat)
  {
    forall i :: CountedAt(s, i) ==> s[i].offset + s[i].size <= max
  }

  ghost predicate NoOverlap(s: seq<SliceInfo>)
  {
    forall i, j :: CountedAt(s, i) && CountedAt(s, j) && i < j ==> Apart(s[i].Sectors(), s[j].Sectors())
  }

  ghost predicate Orderly(s: seq<SliceInfo>, max: nat)
  {
    WithinDisk(s, max) && NoOverlap(s)
  }

  // All that is asked of the slices below: they do not overlap, and where
  // they end is a number of sectors.
  ghost predicate Measured(s: seq<SliceInfo>)
  {
    Orderly(s, WORD - 1)
  }

  // Where the free table takes the partition of `max` sectors to end.
  ghost function Extent(s: seq<SliceInfo>, max: nat): nat
  {
    if WithinDisk(s, max) then max else WORD + max
  }

  ghost predicate ApartFromSlices(x: Region, s: seq<SliceInfo>, n: nat)
  {
    forall i :: CountedAt(s, i) && i < n ==> Apart(x, s[i].Sectors())
  }

  // n sectors from o on are inside and in no slice.
  ghost predicate Free(s: seq<SliceInfo>, max: nat, o: nat, n: nat)
  {
    o + n <= max && ApartFromSlices(Region(o, n), s, |s|)
  }

  lemma {:induction false} ApartUsedSpace(x: Region, s: seq<SliceInfo>, n: nat)
    requires n <= |s|
    ensures ApartFromAll(x, UsedSpace(s[..n])) <==> ApartFromSlices(x, s, n)
  {
    if n == 0 {
      assert s[..0] == [];
    } else {
      ApartUsedSpace(x, s, n - 1);
      UsedSpaceNext(s, n - 1);
      ApartSnoc(x, UsedSpace(s[..n - 1]), s[n - 1].Sectors());
    }
  }

  lemma {:induction false} OrderlyIsSound(s: seq<SliceInfo>, max: nat, n: nat)
    requires n <= |s|
    ensures Sound(UsedSpace(s[..n]), max) <==> Orderly(s[..n], max)
  {
    if n == 0 {
      assert s[..0] == [];
    } else {
      OrderlyIsSound(s, max, n - 1);
      UsedSpaceNext(s, n - 1);
      ApartUsedSpace(s[n - 1].Sectors(), s, n - 1);
      SoundSnoc(UsedSpace(s[..n - 1]), s[n - 1].Sectors(), max);
      OrderlySnoc(s, max, n - 1);
    }
  }

  lemma {:induction false} WithinIsInside(s: seq<SliceInfo>, max: nat, n: nat)
    requires n <= |s|
    ensures Inside(UsedSpace(s[..n]), max) <==> WithinDisk(s[..n], max)
  {
    if n == 0 {
      assert s[..0] == [];
    } else {
      WithinIsInside(s, max, n - 1);
      UsedSpaceNext(s, n - 1);
      WithinSnoc(s, max, n - 1);
      InsideSnoc(UsedSpace(s[..n - 1]), s[n - 1].Sectors(), max);
    }
  }

  lemma {:induction false} InsideSnoc(u: seq<Region>, r: Region, max: nat)
    ensures Inside(u + [r], max) <==> Inside(u, max) && r.size > 0 && r.offset + r.size <= max
  {
    assert (u + [r])[|u|] == r;
    assert forall i :: 0 <= i < |u| ==> (u + [r])[i] == u[i];
  }

  lemma {:induction false} WithinSnoc(s: seq<SliceInfo>, max: nat, n: nat)
    requires n < |s|
    ensures WithinDisk(s[..n + 1], max) <==>
      WithinDisk(s[..n], max) && (s[n].Counted() ==> s[n].offset + s[n].size <= max)
  {
    var p, q := s[..n], s[..n + 1];
    assert forall i :: CountedAt(p, i) <==> CountedAt(q, i) && i < n;
    assert s[n].Counted() ==> CountedAt(q, n);
  }

  lemma {:induction false} OrderlySnoc(s: seq<SliceInfo>, max: nat, n: nat)
    requires n < |s|
    ensures Orderly(s[..n + 1], max) <==>
      && Orderly(s[..n], max)
      && (s[n].Counted() ==> s[n].offset + s[n].size <= max && ApartFromSlices(s[n].Sectors(), s, n))
  {
    var p, q := s[..n], s[..n + 1];
    assert forall i :: CountedAt(p, i) <==> CountedAt(q, i) && i < n;
    assert forall i :: CountedAt(p, i) <==> CountedAt(s, i) && i < n;
    if Orderly(q, max) && s[n].Counted() {
      assert CountedAt(q, n);
      forall i | CountedAt(s, i) && i < n
        ensures Apart(s[n].Sectors(), s[i].Sectors())
      {
        assert Apart(q[i].Sectors(), q[n].Sectors());
      }
    }
  }

  // ---------------------------------------------------------------------
  // Creating a slice.
  // ---------------------------------------------------------------------

  // The free table of slices that do not overlap.
  lemma {:induction false} MeasuredFreeSpace(s: seq<SliceInfo>, g: Geometry) returns (u: seq<Region>, free: seq<Region>)
    requires Tidy(s) && 0 < PartitionSize(s, g) < WORD && Measured(s)
    ensures u == Sort(UsedSpace(s)) && FreeSpaceOf(s, g) == (true, free)
    ensures var to := Extent(s, PartitionSize(s, g)); Inside(u, to) && IsComplement(free, u, to)
  {
    var max := PartitionSize(s, g);
    assert s[..|s|] == s;
    OrderlyIsSound(s, WORD - 1, |s|);
    WithinIsInside(s, max, |s|);
    UsedSpaceFitsTable(s);
    u, free := SoundFreeTable(UsedSpace(s), max, NDKMAP);
  }

  lemma {:induction false} VacantIsFree(s: seq<SliceInfo>, max: nat, o: nat, n: nat)
    ensures Vacant(Sort(UsedSpace(s)), max, o, n) <==> Free(s, max, o, n)
  {
    var x, u := Region(o, n), UsedSpace(s);
    assert s[..|s|] == s;
    ApartSort(x, u);
    ApartUsedSpace(x, s, |s|);
    assert ApartFromAll(x, Sort(u)) <==> forall i :: 0 <= i < |Sort(u)| ==> Apart(Region(o, n), Sort(u)[i]);
  }

  // The end of a free region is not free: a run that starts in the region and
  // goes past its end overlaps a used region or the end of the disk.
  lemma {:induction false} PastEndNotVacant(free: seq<Region>, u: seq<Region>, max: nat, k: nat, n: nat)
    requires IsComplement(free, u, max) && Inside(u, max) && k < |free| && n > 0
    ensures Vacant(u, max, free[k].offset, n) <==> n <= free[k].size
  {
    if n <= free[k].size {
      FreeIsVacant(free, u, max, k, n);
    } else if Vacant(u, max, free[k].offset, n) {
      var m := VacantRunInRegion(free, u, max, free[k].offset, n);
      if m < k {
        SeparatedOrder(free, m, k);
      } else if k < m {
        SeparatedOrder(free, k, m);
      }
    }
  }

  // Storing a slice in the first empty entry.
  lemma {:induction false} FillNoOverlapIff(s: seq<SliceInfo>, k: nat, e: SliceInfo)
    requires Tidy(s) && EmptyFrom(s, 0) == Some(k) && e.Counted()
    ensures NoOverlap(s[k := e]) <==> NoOverlap(s) && ApartFromSlices(e.Sectors(), s, |s|)
  {
    var t := s[k := e];
    assert forall i :: CountedAt(s, i) ==> i < k && CountedAt(t, i) && t[i] == s[i];
    assert forall i :: CountedAt(t, i) && i != k ==> CountedAt(s, i);
    assert CountedAt(t, k);
    if NoOverlap(t) {
      forall i | CountedAt(s, i)
        ensures Apart(e.Sectors(), s[i].Sectors())
      {
        assert Apart(t[i].Sectors(), t[k].Sectors());
      }
    }
  }

  lemma {:induction false} FillWithinIff(s: seq<SliceInfo>, max: nat, k: nat, e: SliceInfo)
    requires EmptyFrom(s, 0) == Some(k) && e.Counted()
    ensures WithinDisk(s[k := e], max) <==> WithinDisk(s, max) && e.offset + e.size <= max
  {
    var t := s[k := e];
    assert forall i :: CountedAt(t, i) && i != k <==> CountedAt(s, i);
    assert CountedAt(t, k) && t[k] == e;
    assert forall i :: CountedAt(s, i) ==> t[i] == s[i];
  }

  // The request can be granted as far as the slice itself is concerned.
  ghost predicate Grantable(st: State, id: nat, on: OnExisting)
    requires |st.edits| == NDKMAP
  {
    && !st.invalid && id < NDKMAP && !Reserved(id) && !st.edits[id].preserve
    && (LiveFrom(st.slices, id, 0).Some? ==> on == Overwrite)
  }

  // Sectors needed: the whole request, or with the cylinder of leniency.
  ghost function Needed(size: nat, g: Geometry): nat
  {
    if size == MAX_SIZE then 1 else Lenient(size, g)
  }

  ghost predicate RoomFor(s: seq<SliceInfo>, max: nat, n: nat)
  {
    exists o: nat :: Free(s, max, o, n)
  }

  lemma {:induction false} ChosenIffRoom(s: seq<SliceInfo>, g: Geometry, size: nat, to: nat)
    requires Tidy(s) && 0 < PartitionSize(s, g) < WORD && Measured(s)
    requires g.cylinder > 0 && to == Extent(s, PartitionSize(s, g))
    ensures Chosen(s, g, size).Some? <==> RoomFor(s, to, Needed(size, g))
    ensures match Chosen(s, g, size)
      case None => true
      case Some(r) =>
        && r.size > 0 && r.size >= Needed(size, g)
        && (forall n: nat :: n > 0 ==> (Free(s, to, r.offset, n) <==> n <= r.size))
        && (r.offset > 0 ==> !Free(s, to, r.offset - 1, 1))
  {
    var n := Needed(size, g);
    var u, free := MeasuredFreeSpace(s, g);
    RegionIffVacantRun(free, u, to, n);
    LargestIsLargest(free);
    if o: nat :| Vacant(u, to, o, n) {
      VacantIsFree(s, to, o, n);
    }
    if o: nat :| Free(s, to, o, n) {
      VacantIsFree(s, to, o, n);
    }
    if Chosen(s, g, size).Some? {
      var k := (if size == MAX_SIZE then Largest(free) else BestFit(free, Lenient(size, g))).value;
      forall m: nat | m > 0
        ensures Free(s, to, free[k].offset, m) <==> m <= free[k].size
      {
        PastEndNotVacant(free, u, to, k, m);
        VacantIsFree(s, to, free[k].offset, m);
      }
      if free[k].offset > 0 {
        StartNotVacant(free, u, to, k, 1);
        VacantIsFree(s, to, free[k].offset - 1, 1);
      }
    }
  }

  // Slice 2 decides the size, and only slice 2.
  lemma {:induction false} SameSize(s: seq<SliceInfo>, t: seq<SliceInfo>, g: Geometry)
    requires Tidy(s) && Tidy(t)
    requires forall e: SliceInfo :: e.id == 2 ==> (e in LiveSet(s) <==> e in LiveSet(t))
    ensures PartitionSize(s, g) == PartitionSize(t, g)
  {
    var a, b := LiveFrom(s, 2, 0), LiveFrom(t, 2, 0);
    if a.Some? {
      assert s[a.value] in LiveSet(s);
    }
    if b.Some? {
      assert t[b.value] in LiveSet(t);
    }
  }

  // Fewer slices overlap no more.
  lemma {:induction false} FewerSlicesOrderly(s: seq<SliceInfo>, t: seq<SliceInfo>, max: nat)
    requires Tidy(s) && Tidy(t) && LiveSet(t) <= LiveSet(s) && Orderly(s, max)
    ensures Orderly(t, max)
  {
    forall i | CountedAt(t, i)
      ensures exists a :: CountedAt(s, a) && s[a] == t[i]
    {
      assert t[i] in LiveSet(t);
      var a :| 0 <= a < |s| && s[a].Live() && s[a] == t[i];
      assert CountedAt(s, a);
    }
    forall i, j | CountedAt(t, i) && CountedAt(t, j) && i < j
      ensures Apart(t[i].Sectors(), t[j].Sectors())
    {
      var a :| CountedAt(s, a) && s[a] == t[i];
      var b :| CountedAt(s, b) && s[b] == t[j];
      assert a != b;
    }
  }

  // The slices left once an existing slice with this id is out of the way.
  ghost function Rest(st: State, id: nat): seq<SliceInfo>
    requires id < |st.edits|
  {
    Overwritten(st, id, 0).slices
  }

  // Whatever the slices are: either the new one is added to the others, or
  // only the slice to be overwritten is gone.
  lemma {:induction false} GrantedAdds(st: State, g: Geometry, id: nat, size: nat, tag: Tag, on: OnExisting)
    returns (slice: SliceInfo)
    requires |st.edits| == NDKMAP && Tidy(st.slices) && Grantable(st, id, on) && g.sectors > 0
    ensures var rest, (ok, after) := Overwritten(st, id, 0), Created(st, g, id, size, tag, on);
      && Tidy(after.slices)
      && (!ok ==> after == rest)
      && (ok ==> slice.id == id && slice.Counted() && LiveSet(after.slices) == LiveSet(rest.slices) + {slice})
  {
    var rest := Overwritten(st, id, 0);
    OverwrittenKeepsTidy(st, id);
    var k := GrantedResult(st, g, id, size, tag, on);
    var c := Chosen(rest.slices, g, size);
    slice := BLANK;
    if c.Some? {
      TablePositive(Sort(UsedSpace(rest.slices)), PartitionSize(rest.slices, g), NDKMAP);
      slice := Filled(rest, id, size, tag, k, c.value).slices[k];
      GoneAfterOverwrite(st, id);
      FillKeepsTidy(rest.slices, k, slice);
    }
  }

  // A slice in the run of a region that ends where no more sectors are free.
  lemma {:induction false} FillOutcome(s: seq<SliceInfo>, max: nat, k: nat, e: SliceInfo, run: nat)
    requires Tidy(s) && EmptyFrom(s, 0) == Some(k) && e.Counted() && Measured(s) && max < WORD
    requires Free(s, Extent(s, max), e.offset, e.size) <==> e.size <= run
    ensures e.size <= run ==> NoOverlap(s[k := e])
    ensures Orderly(s[k := e], max) <==> WithinDisk(s, max) && e.size <= run
  {
    FillNoOverlapIff(s, k, e);
    FillWithinIff(s, max, k, e);
    assert e.Sectors() == Region(e.offset, e.size);
  }

  // With the slice out of the way there is an empty entry to put the new one.
  lemma {:induction false} GrantedResult(st: State, g: Geometry, id: nat, size: nat, tag: Tag, on: OnExisting)
    returns (k: nat)
    requires |st.edits| == NDKMAP && Tidy(st.slices) && Grantable(st, id, on)
    ensures var rest := Overwritten(st, id, 0);
      && EmptyFrom(rest.slices, 0) == Some(k)
      && Created(st, g, id, size, tag, on)
        == match Chosen(rest.slices, g, size)
           case None => (false, rest)
           case Some(r) => (true, Filled(rest, id, size, tag, k, r))
  {
    OverwrittenKeepsTidy(st, id);
    GoneAfterOverwrite(st, id);
    UnusedIdLeavesEntry(Rest(st, id), id);
    k := EmptyFrom(Rest(st, id), 0).value;
  }

  // What creating a slice among slices that do not overlap does.  It succeeds
  // exactly when a free run of the needed length exists before the end the
  // free table assumes: a free entry is always found.  On success the new
  // slice starts at the start of a maximal free run and goes past its end by
  // at most one cylinder.  All slices are in order after that exactly when it
  // does not and the other slices end within the partition.  On failure the
  // slice that was to be overwritten is gone.
  lemma {:induction false} CreateOutcome(st: State, g: Geometry, id: nat, size: nat, tag: Tag, on: OnExisting)
    returns (slice: SliceInfo, run: nat)
    requires |st.edits| == NDKMAP && Tidy(st.slices) && Grantable(st, id, on) && g.cylinder > 0
    requires 0 < PartitionSize(st.slices, g) < WORD && Measured(Rest(st, id))
    ensures var max, (ok, after) := PartitionSize(st.slices, g), Created(st, g, id, size, tag, on);
      var to := Extent(Rest(st, id), max);
      && Tidy(after.slices)
      && (ok <==> RoomFor(Rest(st, id), to, Needed(size, g)))
      && (!ok ==> LiveSet(after.slices) == Others(LiveSet(st.slices), id))
      && (ok ==>
            && LiveSet(after.slices) == Others(LiveSet(st.slices), id) + {slice}
            && Chosen(Rest(st, id), g, size) == Some(Region(slice.offset, run))
            && slice.id == id && slice.size == (if size == MAX_SIZE then run else size) <= run + g.cylinder
            && (slice.offset > 0 ==> !Free(Rest(st, id), to, slice.offset - 1, 1))
            && (forall n: nat :: n > 0 ==> (Free(Rest(st, id), to, slice.offset, n) <==> n <= run))
            && (slice.size <= run ==> NoOverlap(after.slices))
            && (Orderly(after.slices, max) <==> WithinDisk(Rest(st, id), max) && slice.size <= run))
  {
    var rest, max := Overwritten(st, id, 0), PartitionSize(st.slices, g);
    OverwrittenKeepsTidy(st, id);
    SameSize(st.slices, rest.slices, g);
    var k := GrantedResult(st, g, id, size, tag, on);
    ChosenIffRoom(rest.slices, g, size, Extent(rest.slices, max));
    var c := Chosen(rest.slices, g, size);
    slice, run := BLANK, 0;
    if c.Some? {
      run := c.value.size;
      slice := Filled(rest, id, size, tag, k, c.value).slices[k];
      GoneAfterOverwrite(st, id);
      FillKeepsTidy(rest.slices, k, slice);
      FillOutcome(rest.slices, max, k, slice, run);
    }
  }

  lemma {:induction false} GoneAfterOverwrite(st: State, id: nat)
    requires |st.edits| == NDKMAP && Tidy(st.slices) && id < NDKMAP
    ensures LiveFrom(Rest(st, id), id, 0).None?
  {
    OverwrittenKeepsTidy(st, id);
    var rest := Rest(st, id);
    assert forall i :: 0 <= i < |rest| && rest[i].Live() ==> rest[i] in LiveSet(rest);
  }
}
