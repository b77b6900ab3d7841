// What runs of the partition editor keep.
module PartitionFacts {
  import opened Wrappers
  import opened FreeSpace
  import opened FreeSpaceFacts
  import opened Partitions

  datatype Op = Create(q: Request) | Delete(id: nat, offset: nat, size: nat)

  function Applied(p: seq<Part>, disk: Disk, op: Op): seq<Part>
    requires |p| == OM_NUMPART
  {
    match op
    case Create(q) => Created(p, disk, q).1
    case Delete(id, offset, size) => Deleted(p, id, offset, size).1
  }

  // The table after each call of a run.
  ghost predicate IsRun(disk: Disk, tables: seq<seq<Part>>, ops: seq<Op>)
  {
    && |tables| == |ops| + 1
    && (forall i :: 0 <= i < |tables| ==> |tables[i]| == OM_NUMPART)
    && forall i :: 0 <= i < |ops| ==> Follows(disk, tables, ops, i)
  }

  ghost predicate Follows(disk: Disk, tables: seq<seq<Part>>, ops: seq<Op>, i: nat)
    requires i < |ops| < |tables| && forall j :: 0 <= j < |tables| ==> |tables[j]| == OM_NUMPART
  {
    tables[i + 1] == Applied(tables[i], disk, ops[i])
  }

  ghost predicate NothingUsed(p: seq<Part>)
  {
    forall i :: 0 <= i < |p| ==> !p[i].Used() && p[i].mb == 0 && p[i].size == 0
  }

  // ---------------------------------------------------------------------
  // Identities, whatever is created or deleted.
  // ---------------------------------------------------------------------

  ghost predicate Shape(p: seq<Part>)
  {
    && |p| == OM_NUMPART
    && (forall i :: 0 <= i < |p| && p[i].Used() ==> p[i].id == i + 1)
    && (forall i :: 0 <= i < |p| && p[i].kind.Extended? ==> i < FD_NUMPART)
    && (forall i, j :: 0 <= i < j < |p| ==> !(p[i].kind.Extended? && p[j].kind.Extended?))
    && ((exists i :: FD_NUMPART <= i < |p| && p[i].Used()) ==> exists j :: 0 <= j < |p| && p[j].kind.Extended?)
  }

  lemma {:induction false} SetOffsetKeepsShape(p: seq<Part>, k: nat, o: nat)
    requires Shape(p) && k < |p|
    ensures Shape(p[k := p[k].(offset := o)])
  {
    var q := p[k := p[k].(offset := o)];
    assert forall i :: 0 <= i < |p| ==> q[i].id == p[i].id && q[i].kind == p[i].kind && q[i].Used() == p[i].Used();
    if i :| FD_NUMPART <= i < |q| && q[i].Used() {
      assert p[i].Used();
      var j :| 0 <= j < |p| && p[j].kind.Extended?;
      assert q[j].kind.Extended?;
    }
  }

  lemma {:induction false} FillKeepsShape(p: seq<Part>, k: nat, kind: Kind, r: Region)
    requires Shape(p) && k < |p| && !p[k].Used() && kind.Supported()
    requires kind.Extended? ==> k < FD_NUMPART && forall j :: 0 <= j < |p| ==> !p[j].kind.Extended?
    requires k >= FD_NUMPART ==> exists j :: 0 <= j < |p| && p[j].kind.Extended?
    ensures Shape(p[k := Filled(k, kind, r)])
  {
    var q := p[k := Filled(k, kind, r)];
    if j :| 0 <= j < |p| && p[j].kind.Extended? {
      assert q[j].kind.Extended?;
    } else {
      assert k < FD_NUMPART;
      assert forall i :: FD_NUMPART <= i < |p| ==> q[i] == p[i];
    }
  }

  lemma {:induction false} CreateKeepsShape(p: seq<Part>, disk: Disk, q: Request)
    requires Shape(p)
    ensures Shape(Created(p, disk, q).1)
  {
    if !Clashes(p, q.offset) && SlotFor(p, q.logical).Some? {
      var k := SlotFor(p, q.logical).value;
      var offset := if q.entire then 0 else q.offset;
      var size := if q.entire then Wrap(disk.mb * BLOCKS_TO_MB) else q.size;
      if !(q.kind.Extended? && ExtendedFrom(p, 0).Some?) && Placement(p, disk, offset, size, q.logical).Some? {
        var r := Placement(p, disk, offset, size, q.logical).value;
        var moved := p[k := p[k].(offset := r.offset)];
        SetOffsetKeepsShape(p, k, r.offset);
        if q.kind.Supported() && FreeSpaceOf(moved, disk, q.logical).0 {
          if q.logical {
            var e := ExtendedFrom(moved, 0).value;
            assert moved[e].kind.Extended? && p[e].kind.Extended?;
          }
          FillKeepsShape(moved, k, q.kind, r);
        }
      }
    }
  }

  lemma {:induction false} RemoveKeepsShape(p: seq<Part>, k: nat)
    requires Shape(p) && k < |p|
    ensures Shape(Removed(p, k))
  {
    var q := Removed(p, k);
    assert forall i :: 0 <= i < |p| ==> q[i] == p[i] || q[i] == CLEARED;
    if i :| FD_NUMPART <= i < |q| && q[i].Used() {
      assert p[i].Used() && p[i].Logical() && !p[k].kind.Extended?;
      var j :| 0 <= j < |p| && p[j].kind.Extended?;
      assert q[j].kind.Extended?;
    }
  }

  // Over every run from a table like this (one with nothing used, for
  // instance): every used entry at index i has number i + 1, at most one
  // partition is extended and it is a primary one, and logical partitions
  // exist only while it does.
  lemma {:induction false} RunKeepsShape(disk: Disk, tables: seq<seq<Part>>, ops: seq<Op>, n: nat)
    requires IsRun(disk, tables, ops) && Shape(tables[0]) && n < |tables|
    ensures Shape(tables[n])
  {
    if n > 0 {
      RunKeepsShape(disk, tables, ops, n - 1);
      var p := tables[n - 1];
      assert Follows(disk, tables, ops, n - 1);
      match ops[n - 1]
      case Create(q) => CreateKeepsShape(p, disk, q);
      case Delete(id, offset, size) =>
        if id != 0 && IndexById(p, id, 0).Some? {
          RemoveKeepsShape(p, IndexById(p, id, 0).value);
        } else if id == 0 && IndexByLocation(p, offset, size, 0).Some? {
          RemoveKeepsShape(p, IndexByLocation(p, offset, size, 0).value);
        }
    }
  }

  // ---------------------------------------------------------------------
  // Primary partitions stay apart and inside the disk.
  // ---------------------------------------------------------------------

  ghost predicate Primary(p: seq<Part>, i: int)
  {
    0 <= i < FD_NUMPART <= |p| && p[i].Used()
  }

  // The megabyte count an entry is given; an entry with a count of 0 is
  // overlooked when the free-space table is made.
  function Megabytes(size: nat): nat
  {
    (size / BLOCKS_TO_MB) % HALF_WORD
  }

  // On disks of fewer than 2^32 megabytes that is anything below a megabyte.
  lemma {:induction false} OverlookedBelowMegabyte(size: nat)
    requires size < HALF_WORD * BLOCKS_TO_MB
    ensures Megabytes(size) != 0 <==> size >= BLOCKS_TO_MB
  {
  }

  // Sectors of the disk: as reported, or by the megabyte count when that is
  // blank.
  function SectorsOf(disk: Disk): nat
  {
    if disk.sectors != 0 then disk.sectors else disk.mb * BLOCKS_TO_MB % WORD
  }

  // The entry is within the disk and not overlooked.
  ghost predicate Proper(e: Part, disk: Disk)
  {
    e.mb != 0 && e.size > 0 && e.offset + e.size <= SectorsOf(disk)
  }

  ghost predicate PrimariesApart(p: seq<Part>)
  {
    forall i, j :: Primary(p, i) && Primary(p, j) && i < j ==> Apart(p[i].Sectors(), p[j].Sectors())
  }

  ghost predicate Layout(p: seq<Part>, disk: Disk)
  {
    && Shape(p)
    && 0 < SectorsOf(disk) < WORD
    && (forall i :: 0 <= i < |p| && !p[i].Used() ==> p[i].mb == 0)
    && (forall i :: Primary(p, i) ==> Proper(p[i], disk))
    && PrimariesApart(p)
  }

  lemma {:induction false} NothingUsedIsLayout(p: seq<Part>, disk: Disk)
    requires |p| == OM_NUMPART && NothingUsed(p) && 0 < disk.Size() < WORD
    ensures Layout(p, disk)
  {
  }

  // n sectors from o on are on the disk and in no primary partition.
  ghost predicate Free(p: seq<Part>, disk: Disk, o: nat, n: nat)
  {
    o + n <= SectorsOf(disk) && forall i :: Primary(p, i) ==> Apart(Region(o, n), p[i].Sectors())
  }

  // n contiguous free sectors exist somewhere.
  ghost predicate RoomFor(p: seq<Part>, disk: Disk, n: nat)
  {
    exists o: nat :: Free(p, disk, o, n)
  }

  lemma {:induction false} CountedIsPrimary(p: seq<Part>, disk: Disk, i: nat)
    requires Layout(p, disk) && i < |p|
    ensures Counted(p[i], false) <==> Primary(p, i)
  {
  }

  ghost predicate ApartFromPrimaries(x: Region, p: seq<Part>, n: nat)
  {
    forall i :: Primary(p, i) && i < n ==> Apart(x, p[i].Sectors())
  }

  lemma {:induction false} ApartUsedSpace(x: Region, p: seq<Part>, disk: Disk, n: nat)
    requires Layout(p, disk) && n <= |p|
    ensures ApartFromAll(x, UsedSpace(p[..n], false)) <==> ApartFromPrimaries(x, p, n)
  {
    if n == 0 {
      assert p[..0] == [];
    } else {
      ApartUsedSpace(x, p, disk, n - 1);
      UsedSpaceNext(p, n - 1, false);
      CountedIsPrimary(p, disk, n - 1);
      ApartSnoc(x, UsedSpace(p[..n - 1], false), p[n - 1].Sectors());
    }
  }

  lemma {:induction false} UsedSpaceSound(p: seq<Part>, disk: Disk, n: nat)
    requires Layout(p, disk) && n <= |p|
    ensures Sound(UsedSpace(p[..n], false), disk.Size()) && |UsedSpace(p[..n], false)| <= n
  {
    if n == 0 {
      assert p[..0] == [];
    } else {
      UsedSpaceSound(p, disk, n - 1);
      UsedSpaceNext(p, n - 1, false);
      CountedIsPrimary(p, disk, n - 1);
      if Primary(p, n - 1) {
        OnePrimary(p, disk, n - 1);
        ApartUsedSpace(p[n - 1].Sectors(), p, disk, n - 1);
        SoundSnoc(UsedSpace(p[..n - 1], false), p[n - 1].Sectors(), disk.Size());
      }
    }
  }

  lemma {:induction false} OnePrimary(p: seq<Part>, disk: Disk, i: nat)
    requires Layout(p, disk) && Primary(p, i)
    ensures ApartFromPrimaries(p[i].Sectors(), p, i)
    ensures var r := p[i].Sectors(); r.size > 0 && r.offset + r.size <= disk.Size()
  {
    assert Proper(p[i], disk);
  }

  lemma {:induction false} VacantIsFree(p: seq<Part>, disk: Disk, o: nat, n: nat)
    requires Layout(p, disk)
    ensures Vacant(Sort(UsedSpace(p, false)), disk.Size(), o, n) <==> Free(p, disk, o, n)
  {
    var x, u := Region(o, n), UsedSpace(p, false);
    assert p[..|p|] == p;
    ApartSort(x, u);
    ApartUsedSpace(x, p, disk, |p|);
    assert ApartFromPrimaries(x, p, |p|) <==> forall i :: Primary(p, i) ==> Apart(x, p[i].Sectors());
    assert ApartFromAll(x, Sort(u)) <==> forall i :: 0 <= i < |Sort(u)| ==> Apart(Region(o, n), Sort(u)[i]);
  }

  // The free-space table of the primary partitions.
  lemma {:induction false} LayoutFreeSpace(p: seq<Part>, disk: Disk) returns (s: seq<Region>, free: seq<Region>)
    requires Layout(p, disk)
    ensures s == Sort(UsedSpace(p, false)) && FreeSpaceOf(p, disk, false) == (true, free)
    ensures Inside(s, disk.Size()) && IsComplement(free, s, disk.Size())
  {
    var u := UsedSpace(p, false);
    assert p[..|p|] == p;
    UsedSpaceSound(p, disk, |p|);
    assert Sound(u, disk.Size()) && Reach(u, disk.Size()) == disk.Size();
    s, free := SoundFreeTable(u, disk.Size(), OM_NUMPART + 1);
  }

  // Automatic placement of n sectors, or of the largest region when n is 0,
  // finds room exactly when that many contiguous sectors are free, and then
  // the new partition is free space.
  lemma {:induction false} ChosenIsFree(p: seq<Part>, disk: Disk, n: nat)
    requires Layout(p, disk)
    ensures Chosen(p, disk, n, false).Some? <==> RoomFor(p, disk, if n == 0 then 1 else n)
    ensures var c := Placement(p, disk, ANYWHERE, n, false);
      c.Some? ==> c.value.size > 0 && Free(p, disk, c.value.offset, c.value.size)
  {
    var s, free := LayoutFreeSpace(p, disk);
    var m := if n == 0 then 1 else n;
    RegionIffVacantRun(free, s, disk.Size(), m);
    LargestIsLargest(free);
    if o: nat :| Vacant(s, disk.Size(), o, m) {
      VacantIsFree(p, disk, o, m);
    }
    if o: nat :| Free(p, disk, o, m) {
      VacantIsFree(p, disk, o, m);
    }
    assert Chosen(p, disk, n, false).Some? <==> exists k :: 0 <= k < |free| && free[k].size >= m;
    if Chosen(p, disk, n, false).Some? {
      var k := Searched(free, n, false).value;
      var size := if n == 0 then free[k].size else n;
      FreeIsVacant(free, s, disk.Size(), k, size);
      VacantIsFree(p, disk, free[k].offset, size);
    }
  }

  // Moving an unused entry changes nothing that counts.
  lemma {:induction false} SetOffsetKeepsLayout(p: seq<Part>, disk: Disk, k: nat, o: nat)
    requires Layout(p, disk) && k < |p| && !p[k].Used()
    ensures Layout(p[k := p[k].(offset := o)], disk)
  {
    var q := p[k := p[k].(offset := o)];
    SetOffsetKeepsShape(p, k, o);
    assert forall i :: 0 <= i < |p| && i != k ==> q[i] == p[i];
    assert forall i :: Primary(q, i) <==> Primary(p, i);
  }

  // A new primary partition keeps the layout exactly when it lies in free
  // space and is not overlooked.
  lemma {:induction false} FillKeepsLayoutIff(p: seq<Part>, disk: Disk, k: nat, kind: Kind, r: Region)
    requires Layout(p, disk) && k < FD_NUMPART && !p[k].Used() && kind.Supported()
    requires kind.Extended? ==> forall j :: 0 <= j < |p| ==> !p[j].kind.Extended?
    ensures Layout(p[k := Filled(k, kind, r)], disk)
      <==> Megabytes(r.size) != 0 && Free(p, disk, r.offset, r.size)
  {
    var q := p[k := Filled(k, kind, r)];
    FillKeepsShape(p, k, kind, r);
    assert q[k].Sectors() == r && Primary(q, k) && q[k].mb == Megabytes(r.size);
    assert forall i :: 0 <= i < |p| && i != k ==> q[i] == p[i];
    if Layout(q, disk) {
      assert Proper(q[k], disk);
      forall i | Primary(p, i)
        ensures Apart(r, p[i].Sectors())
      {
        assert Primary(q, i) && i != k;
        assert if i < k then Apart(q[i].Sectors(), q[k].Sectors()) else Apart(q[k].Sectors(), q[i].Sectors());
      }
    }
  }

  // Offset and size a request asks for, and the region it is to get.
  ghost function Target(p: seq<Part>, disk: Disk, q: Request): Option<Region>
  {
    Placement(p, disk, if q.entire then 0 else q.offset, if q.entire then Wrap(disk.mb * BLOCKS_TO_MB) else q.size,
              q.logical)
  }

  // An entry is at the offset asked for.
  ghost predicate OffsetTaken(p: seq<Part>, offset: nat)
  {
    offset != 0 && exists i :: 0 <= i < |p| && p[i].offset == offset && p[i].size != 0
  }

  // The request asks for a new primary partition that the table can hold.
  ghost predicate Eligible(p: seq<Part>, q: Request)
    requires |p| == OM_NUMPART
  {
    && !q.logical && q.kind.Supported() && !OffsetTaken(p, q.offset)
    && (exists i :: 0 <= i < FD_NUMPART && !p[i].Used())
    && (q.kind.Extended? ==> forall i :: 0 <= i < |p| ==> !p[i].kind.Extended?)
  }

  // An entry that is not in use takes no room wherever it points.
  lemma {:induction false} MovedFree(p: seq<Part>, disk: Disk, k: nat, to: nat, o: nat, n: nat)
    requires k < |p| && !Primary(p, k) && !Primary(p[k := p[k].(offset := to)], k)
    ensures Free(p[k := p[k].(offset := to)], disk, o, n) <==> Free(p, disk, o, n)
  {
    var moved := p[k := p[k].(offset := to)];
    assert forall i :: Primary(moved, i) <==> Primary(p, i);
    assert forall i :: Primary(p, i) ==> moved[i] == p[i];
  }

  lemma {:induction false} RemoveKeepsLayout(p: seq<Part>, disk: Disk, k: nat)
    requires Layout(p, disk) && k < |p|
    ensures Layout(Removed(p, k), disk)
  {
    var q := Removed(p, k);
    RemoveKeepsShape(p, k);
    assert forall i :: 0 <= i < |p| ==> q[i] == p[i] || q[i] == CLEARED;
    assert forall i :: Primary(q, i) ==> Primary(p, i) && q[i] == p[i];
  }

  // A request for a primary partition is granted exactly when the table can
  // hold it and a place is found.  Nothing checks the place: the layout is
  // kept exactly when it is free space and the partition is not overlooked.
  lemma {:induction false} CreateKeepsLayoutIff(p: seq<Part>, disk: Disk, q: Request)
    requires Layout(p, disk) && !q.logical
    ensures var (ok, after) := Created(p, disk, q);
      && (ok <==> Eligible(p, q) && Target(p, disk, q).Some?)
      && (ok ==> after[SlotFor(p, false).value].Sectors() == Target(p, disk, q).value)
      && (Layout(after, disk) <==>
            (ok ==> var r := Target(p, disk, q).value;
                    Megabytes(r.size) != 0 && Free(p, disk, r.offset, r.size)))
  {
    if !Clashes(p, q.offset) && SlotFor(p, false).Some? && Target(p, disk, q).Some? {
      var k, r := SlotFor(p, false).value, Target(p, disk, q).value;
      SetOffsetKeepsLayout(p, disk, k, r.offset);
      var moved := p[k := p[k].(offset := r.offset)];
      var s, free := LayoutFreeSpace(moved, disk);
      if Eligible(p, q) {
        FillKeepsLayoutIff(moved, disk, k, q.kind, r);
        MovedFree(p, disk, k, r.offset, r.offset, r.size);
      }
    }
  }

  // Automatic placement of a primary partition of any size, or of the largest
  // when none is given, succeeds exactly when as many contiguous free sectors
  // exist as are asked for, and is always in free space.  The layout is kept
  // exactly when the partition is not overlooked.
  lemma {:induction false} CreateAnywhere(p: seq<Part>, disk: Disk, q: Request)
    requires Layout(p, disk) && Eligible(p, q) && !q.entire && q.offset == ANYWHERE
    ensures var (ok, after) := Created(p, disk, q);
      && (ok <==> RoomFor(p, disk, if q.size == MAX_SIZE then 1 else q.size))
      && (!ok ==> after == p)
      && (ok ==> var e := after[SlotFor(p, false).value];
            && Free(p, disk, e.offset, e.size)
            && (q.size == MAX_SIZE || e.size == q.size)
            && (Layout(after, disk) <==> Megabytes(e.size) != 0))
  {
    ChosenIsFree(p, disk, q.size);
    CreateKeepsLayoutIff(p, disk, q);
  }

  // Placement at a given offset is not checked against the partitions that
  // exist: the layout is kept exactly when the caller chose free space, and
  // enough of it.
  lemma {:induction false} CreateAtKeepsLayoutIff(p: seq<Part>, disk: Disk, q: Request)
    requires Layout(p, disk) && Eligible(p, q) && !q.entire && q.offset != ANYWHERE
    ensures var (ok, after) := Created(p, disk, q);
      var size := if q.size == MAX_SIZE then Wrap(disk.mb * BLOCKS_TO_MB) else q.size;
      ok && (Layout(after, disk) <==> Megabytes(size) != 0 && Free(p, disk, q.offset, size))
  {
    CreateKeepsLayoutIff(p, disk, q);
  }

  // Logical partitions leave the primary ones alone.
  lemma {:induction false} LogicalKeepsLayout(p: seq<Part>, disk: Disk, q: Request)
    requires Layout(p, disk) && q.logical
    ensures Layout(Created(p, disk, q).1, disk)
  {
    var after := Created(p, disk, q).1;
    CreateKeepsShape(p, disk, q);
    assert forall i :: 0 <= i < FD_NUMPART ==> after[i] == p[i];
    assert forall i :: Primary(after, i) <==> Primary(p, i);
  }

  // A primary partition is created only where there is free space and only so
  // large that it is not overlooked.
  ghost predicate Prudent(p: seq<Part>, disk: Disk, op: Op)
    requires |p| == OM_NUMPART
  {
    op.Create? && Eligible(p, op.q) && Target(p, disk, op.q).Some? ==>
      var r := Target(p, disk, op.q).value;
      Megabytes(r.size) != 0 && Free(p, disk, r.offset, r.size)
  }

  lemma {:induction false} StepKeepsLayoutIff(p: seq<Part>, disk: Disk, op: Op)
    requires Layout(p, disk)
    ensures Layout(Applied(p, disk, op), disk) <==> Prudent(p, disk, op)
  {
    match op
    case Create(q) =>
      if q.logical {
        LogicalKeepsLayout(p, disk, q);
      } else {
        CreateKeepsLayoutIff(p, disk, q);
      }
    case Delete(id, offset, size) =>
      if id != 0 && IndexById(p, id, 0).Some? {
        RemoveKeepsLayout(p, disk, IndexById(p, id, 0).value);
      } else if id == 0 && IndexByLocation(p, offset, size, 0).Some? {
        RemoveKeepsLayout(p, disk, IndexByLocation(p, offset, size, 0).value);
      }
  }

  ghost predicate AllLaidOut(disk: Disk, tables: seq<seq<Part>>, n: nat)
    requires n <= |tables|
  {
    forall i :: 0 <= i < n ==> Layout(tables[i], disk)
  }

  ghost predicate AllPrudent(disk: Disk, tables: seq<seq<Part>>, ops: seq<Op>, n: nat)
    requires n <= |ops| <= |tables| && forall i :: 0 <= i < |tables| ==> |tables[i]| == OM_NUMPART
  {
    forall i :: 0 <= i < n ==> Prudent(tables[i], disk, ops[i])
  }

  lemma {:induction false} RunStepIff(disk: Disk, tables: seq<seq<Part>>, ops: seq<Op>, i: nat)
    requires IsRun(disk, tables, ops) && i < |ops| && Layout(tables[i], disk)
    ensures Layout(tables[i + 1], disk) <==> Prudent(tables[i], disk, ops[i])
  {
    assert Follows(disk, tables, ops, i);
    StepKeepsLayoutIff(tables[i], disk, ops[i]);
  }

  // Over every run of creations and deletions of any kind, on a disk with or
  // without partitions: primary partitions are pairwise apart, inside the
  // disk and not overlooked at every step exactly when every new one is put
  // where there is free space and is not too small.
  lemma {:induction false} RunKeepsLayoutIff(disk: Disk, tables: seq<seq<Part>>, ops: seq<Op>, n: nat)
    requires IsRun(disk, tables, ops) && Layout(tables[0], disk) && n < |tables|
    ensures AllLaidOut(disk, tables, n + 1) <==> AllPrudent(disk, tables, ops, n)
  {
    if n > 0 {
      RunKeepsLayoutIff(disk, tables, ops, n - 1);
      if Layout(tables[n - 1], disk) {
        RunStepIff(disk, tables, ops, n - 1);
      }
    }
  }

  // The automated installer asks for primary partitions placed automatically.
  ghost predicate Automatic(op: Op)
  {
    op.Create? ==> !op.q.logical && !op.q.entire && op.q.offset == ANYWHERE
  }

  // The region granted in this step, if any, is of at least one megabyte.
  ghost predicate LargeEnough(p: seq<Part>, disk: Disk, op: Op)
    requires |p| == OM_NUMPART
  {
    op.Create? && Created(p, disk, op.q).0 ==>
      Target(p, disk, op.q).Some? && Target(p, disk, op.q).value.size >= BLOCKS_TO_MB
  }

  lemma {:induction false} AutomaticPrudentIff(p: seq<Part>, disk: Disk, op: Op)
    requires Layout(p, disk) && Automatic(op) && disk.Size() < HALF_WORD * BLOCKS_TO_MB
    ensures Prudent(p, disk, op) <==> LargeEnough(p, disk, op)
  {
    if op.Create? {
      CreateKeepsLayoutIff(p, disk, op.q);
      ChosenIsFree(p, disk, op.q.size);
      var r := Target(p, disk, op.q);
      if r.Some? {
        OverlookedBelowMegabyte(r.value.size);
      }
    }
  }

  ghost predicate AllLargeEnough(disk: Disk, tables: seq<seq<Part>>, ops: seq<Op>, n: nat)
    requires n <= |ops| <= |tables| && forall i :: 0 <= i < |tables| ==> |tables[i]| == OM_NUMPART
  {
    forall i :: 0 <= i < n ==> LargeEnough(tables[i], disk, ops[i])
  }

  lemma {:induction false} AutomaticStepIff(disk: Disk, tables: seq<seq<Part>>, ops: seq<Op>, i: nat)
    requires IsRun(disk, tables, ops) && i < |ops| && Layout(tables[i], disk)
    requires Automatic(ops[i]) && disk.Size() < HALF_WORD * BLOCKS_TO_MB
    ensures Layout(tables[i + 1], disk) <==> LargeEnough(tables[i], disk, ops[i])
  {
    RunStepIff(disk, tables, ops, i);
    AutomaticPrudentIff(tables[i], disk, ops[i]);
  }

  // Over every run of automatic creations of any size and of deletions, on a
  // disk of fewer than 2^32 megabytes: the same holds at every step exactly
  // when no partition granted is smaller than one megabyte.
  lemma {:induction false} AutomaticRunKeepsLayoutIff(disk: Disk, tables: seq<seq<Part>>, ops: seq<Op>, n: nat)
    requires IsRun(disk, tables, ops) && Layout(tables[0], disk) && n < |tables|
    requires disk.Size() < HALF_WORD * BLOCKS_TO_MB && forall i :: 0 <= i < |ops| ==> Automatic(ops[i])
    ensures AllLaidOut(disk, tables, n + 1) <==> AllLargeEnough(disk, tables, ops, n)
  {
    if n > 0 {
      AutomaticRunKeepsLayoutIff(disk, tables, ops, n - 1);
      if Layout(tables[n - 1], disk) {
        AutomaticStepIff(disk, tables, ops, n - 1);
      }
    }
  }

  // ---------------------------------------------------------------------
  // What an overlooked partition leads to.
  // ---------------------------------------------------------------------

  // An entry that is not counted may be exchanged for another such entry.
  lemma {:induction false} OverlookedTakesNoRoom(p: seq<Part>, k: nat, e: Part, n: nat)
    requires k < |p| && n <= |p| && !Counted(p[k], false) && !Counted(e, false)
    ensures UsedSpace(p[k := e][..n], false) == UsedSpace(p[..n], false)
  {
    if n > 0 {
      OverlookedTakesNoRoom(p, k, e, n - 1);
      UsedSpaceNext(p, n - 1, false);
      UsedSpaceNext(p[k := e], n - 1, false);
    } else {
      assert p[..0] == [] && p[k := e][..0] == [];
    }
  }

  // What an automatic request leaves, and where.
  lemma {:induction false} Granted(p: seq<Part>, disk: Disk, q: Request) returns (k: nat, r: Region, after: seq<Part>)
    requires Layout(p, disk) && Eligible(p, q) && !q.entire && q.offset == ANYWHERE
    requires q.size > 0 && RoomFor(p, disk, q.size)
    ensures SlotFor(p, false) == Some(k) && r.size == q.size && r.offset < ANYWHERE
    ensures Chosen(p, disk, q.size, false).Some? && Chosen(p, disk, q.size, false).value.offset == r.offset
    ensures Created(p, disk, q) == (true, after) && after == p[k := Filled(k, q.kind, r)]
  {
    CreateAnywhere(p, disk, q);
    CreateKeepsLayoutIff(p, disk, q);
    k, r := SlotFor(p, false).value, Target(p, disk, q).value;
    after := Created(p, disk, q).1;
    assert p[k := p[k].(offset := r.offset)][k := Filled(k, q.kind, r)] == p[k := Filled(k, q.kind, r)];
  }

  lemma {:induction false} NextSlot(p: seq<Part>, k: nat, e: Part, lo: nat, hi: nat)
    requires lo <= k < hi <= |p| && Slot(p, lo, hi) == Some(k) && e.Used()
    ensures Slot(p[k := e], lo, hi) == Slot(p, k + 1, hi)
    decreases k - lo
  {
    if lo < k {
      NextSlot(p, k, e, lo + 1, hi);
    } else {
      SameSlots(p, k, e, k + 1, hi);
    }
  }

  lemma {:induction false} SameSlots(p: seq<Part>, k: nat, e: Part, lo: nat, hi: nat)
    requires k < lo && hi <= |p| && k < |p|
    ensures Slot(p[k := e], lo, hi) == Slot(p, lo, hi)
    decreases hi - lo
  {
    if lo < hi {
      SameSlots(p, k, e, lo + 1, hi);
    }
  }

  // The table with an overlooked partition in it: automatic placement finds
  // the same place again.
  lemma {:induction false} FoundAgain(p: seq<Part>, disk: Disk, k: nat, kind: Kind, r: Region, size: nat)
    requires Layout(p, disk) && SlotFor(p, false) == Some(k) && Megabytes(r.size) == 0
    ensures Chosen(p[k := Filled(k, kind, r)], disk, size, false) == Chosen(p, disk, size, false)
    ensures FreeSpaceOf(p[k := Filled(k, kind, r)], disk, false) == FreeSpaceOf(p, disk, false)
  {
    var one := p[k := Filled(k, kind, r)];
    OverlookedTakesNoRoom(p, k, Filled(k, kind, r), |p|);
    assert one[..|p|] == one && p[..|p|] == p;
  }

  // Another entry's offset changes nothing either.
  lemma {:induction false} MovedFreeSpace(p: seq<Part>, disk: Disk, j: nat, o: nat)
    requires j < |p| && p[j].mb == 0
    ensures FreeSpaceOf(p[j := p[j].(offset := o)], disk, false) == FreeSpaceOf(p, disk, false)
  {
    var moved := p[j := p[j].(offset := o)];
    OverlookedTakesNoRoom(p, j, moved[j], |p|);
    assert moved[..|p|] == moved && p[..|p|] == p;
  }

  // A second request for the place just granted.
  lemma {:induction false} GrantedAgain(p: seq<Part>, disk: Disk, q: Request, k: nat, r: Region, j: nat)
    requires Layout(p, disk) && Eligible(p, q) && !q.entire && q.offset == ANYWHERE && !q.kind.Extended?
    requires SlotFor(p, false) == Some(k) && r.size == q.size > 0 && Megabytes(q.size) == 0 && r.offset < ANYWHERE
    requires Chosen(p, disk, q.size, false).Some? && Chosen(p, disk, q.size, false).value.offset == r.offset
    requires Slot(p, k + 1, FD_NUMPART) == Some(j)
    ensures var one := p[k := Filled(k, q.kind, r)];
      Created(one, disk, q) == (true, one[j := Filled(j, q.kind, r)])
  {
    var one := p[k := Filled(k, q.kind, r)];
    NextSlot(p, k, Filled(k, q.kind, r), 0, FD_NUMPART);
    FoundAgain(p, disk, k, q.kind, r, q.size);
    assert one[j] == p[j];
    MovedFreeSpace(one, disk, j, r.offset);
    NoClashAfter(p, k, Filled(k, q.kind, r));
    var s, free := LayoutFreeSpace(p, disk);
    PlacedIn(one, disk, q, j, r);
  }

  lemma {:induction false} NoClashAfter(p: seq<Part>, k: nat, e: Part)
    requires k < |p| && !Clashes(p, ANYWHERE) && e.offset != ANYWHERE
    ensures !Clashes(p[k := e], ANYWHERE)
  {
  }

  // An automatic request for which everything is in order.
  lemma {:induction false} PlacedIn(p: seq<Part>, disk: Disk, q: Request, j: nat, r: Region)
    requires |p| == OM_NUMPART && !Clashes(p, ANYWHERE) && SlotFor(p, false) == Some(j)
    requires !q.logical && !q.entire && q.offset == ANYWHERE && q.kind.Supported() && !q.kind.Extended?
    requires r.size == q.size > 0
    requires Chosen(p, disk, q.size, false).Some? && Chosen(p, disk, q.size, false).value.offset == r.offset
    requires FreeSpaceOf(p[j := p[j].(offset := r.offset)], disk, false).0
    ensures Created(p, disk, q) == (true, p[j := Filled(j, q.kind, r)])
  {
    assert p[j := p[j].(offset := r.offset)][j := Filled(j, q.kind, r)] == p[j := Filled(j, q.kind, r)];
  }

  // The same request, made twice, for fewer sectors than are counted: both
  // partitions get the same sectors.
  lemma {:induction false} RepeatedRequestOverlaps(p: seq<Part>, disk: Disk, q: Request)
    returns (one: seq<Part>, two: seq<Part>)
    requires Layout(p, disk) && Eligible(p, q) && !q.entire && q.offset == ANYWHERE && !q.kind.Extended?
    requires q.size > 0 && Megabytes(q.size) == 0 && RoomFor(p, disk, q.size)
    requires Slot(p, SlotFor(p, false).value + 1, FD_NUMPART).Some?
    ensures Created(p, disk, q) == (true, one) && Created(one, disk, q) == (true, two)
    ensures var i, j := SlotFor(p, false).value, Slot(p, SlotFor(p, false).value + 1, FD_NUMPART).value;
      Primary(two, i) && Primary(two, j) && two[i].Sectors() == two[j].Sectors() && two[i].size == q.size
    ensures !PrimariesApart(two)
  {
    var k, r;
    k, r, one := Granted(p, disk, q);
    var j := Slot(p, k + 1, FD_NUMPART).value;
    GrantedAgain(p, disk, q, k, r, j);
    two := one[j := Filled(j, q.kind, r)];
    assert two[k].Sectors() == two[j].Sectors() == r;
  }
}
