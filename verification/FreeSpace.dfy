// Used and free regions of a disk or partition: the sorted table of used
// regions, the table of free regions made from it, and the two searches.
// The partition and the slice editor each keep such a pair of tables.
module FreeSpace {
  import opened Wrappers

  // uint64_t arithmetic.
  const WORD := 0x1_0000_0000_0000_0000

  function Wrap(x: int): (w: nat)
    ensures w < WORD
    ensures 0 <= x < WORD ==> w == x
  {
    x % WORD
  }

  // Sectors left unused before a logical partition.
  const LOGICAL_PARTITION_PAD := 63

  datatype Region = Region(offset: nat, size: nat)
  {
    // First sector after the region, as computed.
    function End(): nat
    {
      Wrap(offset + size)
    }
  }

  // ---------------------------------------------------------------------
  // The sorted table of used regions.
  // ---------------------------------------------------------------------

  ghost predicate Sorted(s: seq<Region>)
  {
    forall i, j :: 0 <= i < j < |s| ==> s[i].offset <= s[j].offset
  }

  // Index of the first region that starts after `offset`.
  function Place(s: seq<Region>, offset: nat): (k: nat)
    ensures k <= |s|
    ensures forall j :: 0 <= j < k ==> s[j].offset <= offset
    ensures k < |s| ==> s[k].offset > offset
  {
    if s == [] || s[0].offset > offset then 0 else 1 + Place(s[1..], offset)
  }

  function Insert(s: seq<Region>, r: Region): seq<Region>
  {
    var k := Place(s, r.offset);
    s[..k] + [r] + s[k..]
  }

  // Insertion sort.
  function Sort(used: seq<Region>): seq<Region>
  {
    if used == [] then [] else Insert(Sort(used[..|used| - 1]), used[|used| - 1])
  }

  lemma {:induction false} SortNext(used: seq<Region>, r: Region)
    ensures Sort(used + [r]) == Insert(Sort(used), r)
  {
    assert (used + [r])[..|used|] == used;
  }

  lemma {:induction false} InsertSorts(s: seq<Region>, r: Region)
    requires Sorted(s)
    ensures Sorted(Insert(s, r))
  {
    var k, t := Place(s, r.offset), Insert(s, r);
    forall i, j | 0 <= i < j < |t|
      ensures t[i].offset <= t[j].offset
    {
      var a := if i < k then s[i] else if i == k then r else s[i - 1];
      var b := if j < k then s[j] else if j == k then r else s[j - 1];
      assert t[i] == a && t[j] == b;
      assert k < |s| && k < j ==> s[k].offset <= s[j - 1].offset;
    }
  }

  lemma {:induction false} InsertAdds(s: seq<Region>, r: Region)
    ensures multiset(Insert(s, r)) == multiset(s) + multiset{r}
  {
    var k := Place(s, r.offset);
    assert s == s[..k] + s[k..];
  }

  lemma {:induction false} SortSorts(used: seq<Region>)
    ensures Sorted(Sort(used))
  {
    if used != [] {
      SortSorts(used[..|used| - 1]);
      InsertSorts(Sort(used[..|used| - 1]), used[|used| - 1]);
    }
  }

  lemma {:induction false} SortKeepsAll(used: seq<Region>)
    ensures |Sort(used)| == |used| && multiset(Sort(used)) == multiset(used)
  {
    if used != [] {
      var p, r := used[..|used| - 1], used[|used| - 1];
      SortKeepsAll(p);
      InsertAdds(Sort(p), r);
      assert used == p + [r];
    }
  }

  // ---------------------------------------------------------------------
  // The table of free regions.
  // ---------------------------------------------------------------------

  // A region is dropped without notice when the table is full.
  function Appended(free: seq<Region>, r: Region, capacity: nat): seq<Region>
  {
    if |free| >= capacity then free else free + [r]
  }

  // A free region is recorded unless its computed size is 0.
  function AppendedGap(free: seq<Region>, offset: nat, size: nat, capacity: nat): seq<Region>
  {
    if size > 0 then Appended(free, Region(offset, size), capacity) else free
  }

  function FirstGap(s: seq<Region>, start: nat, logical: bool, capacity: nat): seq<Region>
    requires s != []
  {
    if s[0].offset > (if logical then Wrap(start + LOGICAL_PARTITION_PAD) else start)
    then Appended([], Region(start, s[0].offset), capacity)
    else []
  }

  // From used region i on: whether no region overlaps the next one, and the
  // free regions recorded until then.
  function Scan(s: seq<Region>, i: nat, max: nat, capacity: nat, free: seq<Region>): (bool, seq<Region>)
    requires i < |s|
    decreases |s| - i
  {
    if i == |s| - 1 then
      (true, AppendedGap(free, s[i].End(), Wrap(max - s[i].End()), capacity))
    else if s[i].End() > s[i + 1].offset then
      (false, free)
    else
      Scan(s, i + 1, max, capacity,
           AppendedGap(free, s[i].End(), Wrap(s[i + 1].offset - s[i].End()), capacity))
  }

  function Table(s: seq<Region>, start: nat, max: nat, logical: bool, capacity: nat): (bool, seq<Region>)
  {
    if s == [] then (true, Appended([], Region(start, max), capacity))
    else Scan(s, 0, max, capacity, FirstGap(s, start, logical, capacity))
  }

  // First fit, replaced by any smaller region that is larger than the request.
  function BestFit(free: seq<Region>, size: nat): (best: Option<nat>)
    ensures best.Some? ==> best.value < |free| && free[best.value].size >= size
    ensures best.None? ==> forall j :: 0 <= j < |free| ==> free[j].size < size
  {
    if free == [] then None
    else
      var n := |free| - 1;
      match BestFit(free[..n], size)
      case None => if free[n].size >= size then Some(n) else None
      case Some(b) =>
        if free[n].size > size && free[n].size < free[b].size then Some(n) else Some(b)
  }

  // The first of the largest regions.
  function Largest(free: seq<Region>): (largest: Option<nat>)
    ensures largest.Some? ==> largest.value < |free|
    ensures largest.None? ==> free == []
  {
    if free == [] then None
    else
      var n := |free| - 1;
      match Largest(free[..n])
      case None => Some(n)
      case Some(k) => if free[n].size > free[k].size then Some(n) else Some(k)
  }

  class FreeSpaceTables {
    // sorted[..nSorted] and free[..nFragments] are in use.
    const sorted: array<Region>
    var nSorted: nat
    const free: array<Region>
    var nFragments: nat

    ghost predicate Valid()
      reads this
    {
      sorted != free && nSorted <= sorted.Length && nFragments <= free.Length
    }

    constructor (capacity: nat, freeCapacity: nat)
      ensures Valid() && fresh(sorted) && fresh(free)
      ensures sorted.Length == capacity && free.Length == freeCapacity && nSorted == 0 && nFragments == 0
    {
      sorted := new Region[capacity](_ => Region(0, 0));
      free := new Region[freeCapacity](_ => Region(0, 0));
      nSorted, nFragments := 0, 0;
    }

    // Sorted insertion of a used region, shifting the later ones up.
    method InsertUsed(r: Region)
      requires Valid() && nSorted < sorted.Length
      modifies this`nSorted, sorted
      ensures Valid() && nSorted == old(nSorted) + 1
      ensures sorted[..nSorted] == Insert(old(sorted[..nSorted]), r)
    {
      ghost var was := sorted[..nSorted];
      var isl := 0;
      while isl < nSorted && sorted[isl].offset <= r.offset
        invariant isl <= nSorted
        invariant forall j :: 0 <= j < isl ==> was[j].offset <= r.offset
      {
        isl := isl + 1;
      }
      PlaceUnique(was, r.offset, isl);
      forall k | isl <= k < nSorted {
        sorted[k + 1] := sorted[k];
      }
      sorted[isl] := r;
      nSorted := nSorted + 1;
      assert forall j :: 0 <= j < isl ==> sorted[j] == was[j];
      assert forall j :: isl < j < nSorted ==> sorted[j] == was[j - 1];
      ThreeParts(sorted[..nSorted], was, r, isl);
    }

    method AppendFree(offset: nat, size: nat)
      requires Valid()
      modifies this`nFragments, free
      ensures Valid()
      ensures free[..nFragments] == Appended(old(free[..nFragments]), Region(offset, size), free.Length)
    {
      if nFragments >= free.Length {
        return;
      }
      free[nFragments] := Region(offset, size);
      nFragments := nFragments + 1;
    }

    // Makes the free table from the sorted one.  False when two used regions
    // overlap; the table then holds the free regions found before that.
    method BuildFree(start: nat, max: nat, logical: bool) returns (ok: bool)
      requires Valid()
      modifies this`nFragments, free
      ensures Valid()
      ensures (ok, free[..nFragments]) == Table(sorted[..nSorted], start, max, logical, free.Length)
    {
      ghost var s, capacity := sorted[..nSorted], free.Length;
      nFragments := 0;
      if nSorted == 0 {
        AppendFree(start, max);
        return true;
      }
      if logical {
        if sorted[0].offset > Wrap(start + LOGICAL_PARTITION_PAD) {
          AppendFree(start, sorted[0].offset);
        }
      } else if sorted[0].offset > start {
        AppendFree(start, sorted[0].offset);
      }
      assert free[..nFragments] == FirstGap(s, start, logical, capacity);
      ok := ScanFree(max);
    }

    method ScanFree(max: nat) returns (ok: bool)
      requires Valid() && nSorted > 0
      modifies this`nFragments, free
      ensures Valid()
      ensures (ok, free[..nFragments]) == Scan(sorted[..nSorted], 0, max, free.Length, old(free[..nFragments]))
    {
      ghost var s, capacity := sorted[..nSorted], free.Length;
      for isl := 0 to nSorted - 1
        invariant Valid() && sorted[..nSorted] == s
        invariant Scan(s, isl, max, capacity, free[..nFragments]) == Scan(s, 0, max, capacity, old(free[..nFragments]))
      {
        if sorted[isl].End() > sorted[isl + 1].offset {
          return false;
        }
        var freeSize := Wrap(sorted[isl + 1].offset - sorted[isl].End());
        if freeSize > 0 {
          AppendFree(sorted[isl].End(), freeSize);
        }
      }
      var freeSize := Wrap(max - sorted[nSorted - 1].End());
      if freeSize > 0 {
        AppendFree(sorted[nSorted - 1].End(), freeSize);
      }
      ok := true;
    }

    method FindBestFit(size: nat) returns (best: Option<nat>)
      requires Valid()
      ensures best == BestFit(free[..nFragments], size)
    {
      best := None;
      for ireg := 0 to nFragments
        invariant best == BestFit(free[..ireg], size)
        invariant best.Some? ==> best.value < ireg
      {
        assert free[..ireg + 1][..ireg] == free[..ireg];
        match best {
          case None =>
            if free[ireg].size >= size {
              best := Some(ireg);
            }
          case Some(b) =>
            if free[ireg].size > size && free[ireg].size < free[b].size {
              best := Some(ireg);
            }
        }
      }
    }

    method FindLargest() returns (largest: Option<nat>)
      requires Valid()
      ensures largest == Largest(free[..nFragments])
    {
      largest := None;
      for ireg := 0 to nFragments
        invariant largest == Largest(free[..ireg])
      {
        assert free[..ireg + 1][..ireg] == free[..ireg];
        if largest == None || free[ireg].size > free[largest.value].size {
          largest := Some(ireg);
        }
      }
    }
  }

  // What shifting the later entries up and storing one comes to.
  lemma {:induction false} ThreeParts(t: seq<Region>, s: seq<Region>, r: Region, k: nat)
    requires k <= |s| && |t| == |s| + 1 && t[k] == r
    requires forall j :: 0 <= j < k ==> t[j] == s[j]
    requires forall j :: k < j < |t| ==> t[j] == s[j - 1]
    ensures t == s[..k] + [r] + s[k..]
  {
    assert t[..k] == s[..k] && t[k + 1..] == s[k..];
    assert t == t[..k] + [t[k]] + t[k + 1..];
  }

  lemma {:induction false} PlaceUnique(s: seq<Region>, offset: nat, k: nat)
    requires k <= |s|
    requires forall j :: 0 <= j < k ==> s[j].offset <= offset
    requires k < |s| ==> s[k].offset > offset
    ensures Place(s, offset) == k
  {
  }
}
