// What one call of the partition editor does to the table, entry by entry.
module PartitionContents {
  import opened Wrappers
  import opened FreeSpace
  import opened FreeSpaceFacts
  import opened Partitions
  import opened PartitionFacts

  // ---------------------------------------------------------------------
  // Deleting.
  // ---------------------------------------------------------------------

  // Entry k is cleared, with an extended partition every logical one too, and
  // the others are as before.
  ghost predicate OnlyCleared(p: seq<Part>, q: seq<Part>, k: nat)
  {
    && k < |p| == |q|
    && forall i :: 0 <= i < |p| ==>
         q[i] == if i == k || (p[k].kind.Extended? && p[i].id > FD_NUMPART) then Part(0, Unused, 0, 0, 0) else p[i]
  }

  lemma {:induction false} RemovedClears(p: seq<Part>, k: nat)
    requires k < |p|
    ensures OnlyCleared(p, Removed(p, k), k)
  {
  }

  // By number: the call always succeeds, and the partition with this number,
  // if it is in use, is the one that is cleared.
  lemma {:induction false} DeleteByNumber(p: seq<Part>, id: nat, offset: nat, size: nat)
    requires Shape(p) && id != 0
    ensures var (ok, q) := Deleted(p, id, offset, size);
      ok && if id <= |p| && p[id - 1].Used() then OnlyCleared(p, q, id - 1) else q == p
  {
    match IndexById(p, id, 0)
    case None =>
    case Some(k) => RemovedClears(p, k);
  }

  ghost predicate FirstAt(p: seq<Part>, offset: nat, size: nat, k: nat)
  {
    && k < |p| && p[k].offset == offset && (size != 0 ==> p[k].size == size)
    && forall i :: 0 <= i < k ==> p[i].offset != offset || (size != 0 && p[i].size != size)
  }

  // By location: the first entry there is the one that is cleared; size 0
  // stands for any size.  Without such an entry the call fails and nothing
  // changes.
  lemma {:induction false} DeleteByLocation(p: seq<Part>, offset: nat, size: nat)
    ensures var (ok, q) := Deleted(p, 0, offset, size);
      && (ok <==> exists k :: FirstAt(p, offset, size, k))
      && (!ok ==> q == p)
      && forall k :: FirstAt(p, offset, size, k) ==> OnlyCleared(p, q, k)
  {
    FirstIndexAt(p, offset, size, 0);
    match IndexByLocation(p, offset, size, 0)
    case None =>
    case Some(k) =>
      assert FirstAt(p, offset, size, k);
      RemovedClears(p, k);
  }

  lemma {:induction false} FirstIndexAt(p: seq<Part>, offset: nat, size: nat, lo: nat)
    ensures var k := IndexByLocation(p, offset, size, lo);
      k.Some? ==> forall i :: lo <= i < k.value ==> !AtLocation(p[i], offset, size)
    decreases |p| - lo
  {
    if lo < |p| && !AtLocation(p[lo], offset, size) {
      FirstIndexAt(p, offset, size, lo + 1);
    }
  }

  // ---------------------------------------------------------------------
  // Creating.
  // ---------------------------------------------------------------------

  // The entry a new partition goes into.
  ghost predicate FirstUnused(p: seq<Part>, logical: bool, k: nat)
    requires |p| == OM_NUMPART
  {
    var lo, hi := if logical then FD_NUMPART else 0, if logical then OM_NUMPART else FD_NUMPART;
    lo <= k < hi && !p[k].Used() && forall i :: lo <= i < k ==> p[i].Used()
  }

  // The place of a partition that is not placed automatically.
  ghost predicate PlacedAt(p: seq<Part>, disk: Disk, q: Request, r: Region)
  {
    var whole := disk.mb * BLOCKS_TO_MB % WORD;
    var offset, size := if q.entire then 0 else q.offset, if q.entire then whole else q.size;
    if size != 0 then r == Region(offset, size)
    else if !q.logical then r == Region(offset, whole)
    else exists e :: 0 <= e < |p| && p[e].kind.Extended? && r == Region(offset, p[e].mb * BLOCKS_TO_MB % WORD)
  }

  // A created partition is in the first unused entry, with its number, kind
  // and size, and at the place asked for; everything else is as before.
  ghost predicate OnlyAdded(p: seq<Part>, disk: Disk, q: Request, after: seq<Part>, k: nat, r: Region)
    requires |p| == OM_NUMPART
  {
    && |after| == |p| && FirstUnused(p, q.logical, k)
    && after[k] == Part(k + 1, q.kind, r.size / BLOCKS_TO_MB % HALF_WORD, r.offset, r.size)
    && (forall i :: 0 <= i < |p| && i != k ==> after[i] == p[i])
    && (q.entire || q.offset != ANYWHERE ==> PlacedAt(p, disk, q, r))
  }

  // Whether it succeeds or not, a call touches no entry that is in use, and
  // it never succeeds for an offset that is taken, a kind fdisk does not
  // know, a second extended partition, or a table that is full.
  lemma {:induction false} CreateAdds(p: seq<Part>, disk: Disk, q: Request)
    requires Shape(p)
    ensures var (ok, after) := Created(p, disk, q);
      && (ok ==> exists k, r :: OnlyAdded(p, disk, q, after, k, r))
      && (ok ==> q.kind.Supported() && !OffsetTaken(p, q.offset))
      && (ok && q.kind.Extended? ==> forall i :: 0 <= i < |p| ==> !p[i].kind.Extended?)
      && |after| == |p|
      && (forall i :: 0 <= i < |p| && p[i].Used() ==> after[i] == p[i])
      && (!ok ==> forall i :: 0 <= i < |p| ==> after[i] == p[i].(offset := after[i].offset))
  {
    var k := SlotFor(p, q.logical);
    if !Clashes(p, q.offset) && k.Some? && Target(p, disk, q).Some? && Created(p, disk, q).0 {
      var r := Target(p, disk, q).value;
      TargetIs(p, disk, q);
      assert FirstUnused(p, q.logical, k.value);
      assert OnlyAdded(p, disk, q, Created(p, disk, q).1, k.value, r);
    }
  }

  lemma {:induction false} TargetIs(p: seq<Part>, disk: Disk, q: Request)
    ensures Target(p, disk, q).Some? && (q.entire || q.offset != ANYWHERE) ==>
      PlacedAt(p, disk, q, Target(p, disk, q).value)
  {
  }

  // A refused kind leaves its offset behind in the unused entry.
  lemma {:induction false} RefusedLeavesOffset(p: seq<Part>, disk: Disk, q: Request, k: nat)
    requires Shape(p) && FirstUnused(p, q.logical, k) && !OffsetTaken(p, q.offset) && !q.kind.Supported()
    requires !q.logical && (q.entire || q.offset != ANYWHERE)
    ensures Created(p, disk, q) == (false, p[k := p[k].(offset := if q.entire then 0 else q.offset)])
  {
    assert SlotFor(p, q.logical) == Some(k);
  }

  // ---------------------------------------------------------------------
  // Which free sectors automatic placement takes.
  // ---------------------------------------------------------------------

  // Free sectors with none before and none after them.
  ghost predicate FreeRun(p: seq<Part>, disk: Disk, o: nat, n: nat)
  {
    n > 0 && Free(p, disk, o, n) && !Free(p, disk, o, n + 1) && (o > 0 ==> !Free(p, disk, o - 1, n + 1))
  }

  // A run of free sectors is a region of the table.
  lemma {:induction false} RunIsRegion(p: seq<Part>, disk: Disk, o: nat, n: nat) returns (k: nat)
    requires Layout(p, disk) && FreeRun(p, disk, o, n)
    ensures var free := FreeSpaceOf(p, disk, false).1; k < |free| && free[k] == Region(o, n)
  {
    var s, free := LayoutFreeSpace(p, disk);
    VacantIsFree(p, disk, o, n);
    k := VacantRunInRegion(free, s, disk.Size(), o, n);
    FreeIsVacant(free, s, disk.Size(), k, free[k].size);
    VacantIsFree(p, disk, free[k].offset, free[k].size);
    PartFree(p, disk, free[k].offset, free[k].size, o, n + 1);
    if o > 0 {
      PartFree(p, disk, free[k].offset, free[k].size, o - 1, n + 1);
    }
  }

  lemma {:induction false} PartFree(p: seq<Part>, disk: Disk, o: nat, n: nat, o': nat, n': nat)
    requires Free(p, disk, o, n) && n' > 0
    ensures o <= o' && o' + n' <= o + n ==> Free(p, disk, o', n')
  {
  }

  // The largest size gets the largest run of free sectors; n sectors go to
  // the beginning of free ones of which no run of more than n is shorter.
  lemma {:induction false} PlacedTightly(p: seq<Part>, disk: Disk, n: nat)
    requires Layout(p, disk) && Chosen(p, disk, n, false).Some?
    ensures var r := Chosen(p, disk, n, false).value;
      && Placement(p, disk, ANYWHERE, n, false) == Some(Region(r.offset, if n == MAX_SIZE then r.size else n))
      && r.size >= n && Free(p, disk, r.offset, r.size)
      && forall o: nat, m: nat :: FreeRun(p, disk, o, m) ==>
           if n == MAX_SIZE then m <= r.size else m > n ==> r.size <= m
  {
    var s, free := LayoutFreeSpace(p, disk);
    var r := Chosen(p, disk, n, false).value;
    var k := Searched(free, n, false).value;
    LargestIsLargest(free);
    BestFitIsTight(free, n);
    FreeIsVacant(free, s, disk.Size(), k, free[k].size);
    VacantIsFree(p, disk, free[k].offset, free[k].size);
    forall o: nat, m: nat | FreeRun(p, disk, o, m)
      ensures if n == MAX_SIZE then m <= r.size else m > n ==> r.size <= m
    {
      var j := RunIsRegion(p, disk, o, m);
    }
  }
}
