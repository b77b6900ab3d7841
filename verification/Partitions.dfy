// The fdisk partition editor: creating and deleting partitions.
module Partitions {
  import opened Wrappers
  import opened FreeSpace

  const BLOCKS_TO_MB := 2048
  const FD_NUMPART := 4
  const OM_NUMPART := 36

  // Size 0 asks for the largest size; offset -1 for automatic placement.
  const MAX_SIZE := 0
  const ANYWHERE := WORD - 1

  // uint32_t.
  const HALF_WORD := 0x1_0000_0000

  // Partition types, grouped by what the editor does with them.
  datatype Kind =
    | Zero
    | Unused
    | Solaris2
    | Extended(code: nat)
    | Other(code: nat)
    | Unsupported(code: nat)
  {
    predicate Supported()
    {
      Solaris2? || Extended? || Other?
    }
  }

  // `mb` is the size in megabytes, `offset` and `size` are in sectors.
  datatype Part = Part(id: nat, kind: Kind, mb: nat, offset: nat, size: nat)
  {
    predicate Used()
    {
      kind != Zero && kind != Unused
    }

    predicate Logical()
    {
      id > FD_NUMPART
    }

    function Sectors(): Region
    {
      Region(offset, size)
    }
  }

  const BLANK := Part(0, Zero, 0, 0, 0)
  const CLEARED := Part(0, Unused, 0, 0, 0)

  datatype Disk = Disk(sectors: nat, mb: nat)
  {
    // The sector count, or the megabyte count when that is blank.
    function Size(): nat
    {
      if sectors == 0 then Wrap(mb * BLOCKS_TO_MB) else sectors
    }
  }

  datatype Request = Request(kind: Kind, offset: nat, size: nat, entire: bool, logical: bool)

  // ---------------------------------------------------------------------
  // What the operations compute.
  // ---------------------------------------------------------------------

  predicate Clashes(p: seq<Part>, offset: nat)
  {
    offset != 0 && exists i :: 0 <= i < |p| && p[i].offset == offset && p[i].size != 0
  }

  // First unused entry from lo to hi-1.
  function Slot(p: seq<Part>, lo: nat, hi: nat): (k: Option<nat>)
    requires hi <= |p|
    ensures k.Some? ==> lo <= k.value < hi && !p[k.value].Used()
    ensures k.Some? ==> forall j :: lo <= j < k.value ==> p[j].Used()
    ensures k.None? ==> forall j :: lo <= j < hi ==> p[j].Used()
    decreases hi - lo
  {
    if lo >= hi then None else if !p[lo].Used() then Some(lo) else Slot(p, lo + 1, hi)
  }

  function SlotFor(p: seq<Part>, logical: bool): Option<nat>
    requires |p| == OM_NUMPART
  {
    if logical then Slot(p, FD_NUMPART, OM_NUMPART) else Slot(p, 0, FD_NUMPART)
  }

  // First used extended partition from entry `lo` on.
  function ExtendedFrom(p: seq<Part>, lo: nat): (k: Option<nat>)
    ensures k.Some? ==> lo <= k.value < |p| && p[k.value].kind.Extended?
    ensures k.None? ==> forall j :: lo <= j < |p| ==> !p[j].kind.Extended?
    decreases |p| - lo
  {
    if lo >= |p| then None
    else if p[lo].Used() && p[lo].kind.Extended? then Some(lo)
    else ExtendedFrom(p, lo + 1)
  }

  // An entry whose megabyte size is 0 does not count as used space.
  predicate Counted(e: Part, logical: bool)
  {
    e.mb != 0 && e.Logical() == logical
  }

  function UsedSpace(p: seq<Part>, logical: bool): seq<Region>
  {
    if p == [] then []
    else
      var before, e := UsedSpace(p[..|p| - 1], logical), p[|p| - 1];
      if Counted(e, logical) then before + [e.Sectors()] else before
  }

  lemma {:induction false} UsedSpaceNext(p: seq<Part>, i: nat, logical: bool)
    requires i < |p|
    ensures UsedSpace(p[..i + 1], logical)
      == if Counted(p[i], logical) then UsedSpace(p[..i], logical) + [p[i].Sectors()] else UsedSpace(p[..i], logical)
  {
    assert p[..i + 1][..i] == p[..i];
  }

  // The free-space table, and whether it could be made.
  function FreeSpaceOf(p: seq<Part>, disk: Disk, logical: bool): (bool, seq<Region>)
  {
    if logical then
      match ExtendedFrom(p, 0)
      case None => (false, [])
      case Some(k) => Table(Sort(UsedSpace(p, true)), p[k].offset, p[k].size, true, OM_NUMPART + 1)
    else if disk.Size() == 0 then (false, [])
    else Table(Sort(UsedSpace(p, false)), 0, disk.Size(), false, OM_NUMPART + 1)
  }

  // The padding before a logical partition is taken off the region found.
  function Padded(r: Region, logical: bool): Region
  {
    if logical then Region(Wrap(r.offset + LOGICAL_PARTITION_PAD), Wrap(r.size - LOGICAL_PARTITION_PAD)) else r
  }

  function Searched(free: seq<Region>, size: nat, logical: bool): (k: Option<nat>)
    ensures k.Some? ==> k.value < |free|
  {
    if size == MAX_SIZE then Largest(free)
    else BestFit(free, if logical then Wrap(size + LOGICAL_PARTITION_PAD) else size)
  }

  // The region chosen by automatic placement.
  function Chosen(p: seq<Part>, disk: Disk, size: nat, logical: bool): Option<Region>
  {
    var (ok, free) := FreeSpaceOf(p, disk, logical);
    if !ok then None
    else
      match Searched(free, size, logical)
      case None => None
      case Some(k) => Some(Padded(free[k], logical))
  }

  // Offset and size the new partition is to have.
  function Placement(p: seq<Part>, disk: Disk, offset: nat, size: nat, logical: bool): Option<Region>
  {
    if offset == ANYWHERE then
      match Chosen(p, disk, size, logical)
      case None => None
      case Some(r) => Some(Region(r.offset, if size == MAX_SIZE then r.size else size))
    else if size != MAX_SIZE then Some(Region(offset, size))
    else if logical then
      match ExtendedFrom(p, 0)
      case None => None
      case Some(k) => Some(Region(offset, Wrap(p[k].mb * BLOCKS_TO_MB)))
    else Some(Region(offset, Wrap(disk.mb * BLOCKS_TO_MB)))
  }

  function Filled(k: nat, kind: Kind, r: Region): Part
  {
    Part(k + 1, kind, (r.size / BLOCKS_TO_MB) % HALF_WORD, r.offset, r.size)
  }

  // Success, and the table after the call.
  function Created(p: seq<Part>, disk: Disk, q: Request): (bool, seq<Part>)
    requires |p| == OM_NUMPART
  {
    if Clashes(p, q.offset) then (false, p)
    else
      match SlotFor(p, q.logical)
      case None => (false, p)
      case Some(k) =>
        if q.kind.Extended? && ExtendedFrom(p, 0).Some? then (false, p)
        else
          var offset := if q.entire then 0 else q.offset;
          var size := if q.entire then Wrap(disk.mb * BLOCKS_TO_MB) else q.size;
          match Placement(p, disk, offset, size, q.logical)
          case None => (false, p)
          case Some(r) =>
            var moved := p[k := p[k].(offset := r.offset)];
            if !q.kind.Supported() || !FreeSpaceOf(moved, disk, q.logical).0 then (false, moved)
            else (true, moved[k := Filled(k, q.kind, r)])
  }

  function IndexById(p: seq<Part>, id: nat, lo: nat): (k: Option<nat>)
    ensures k.Some? ==> lo <= k.value < |p| && p[k.value].id == id && p[k.value].Used()
    ensures k.None? ==> forall j :: lo <= j < |p| ==> p[j].id != id || !p[j].Used()
    decreases |p| - lo
  {
    if lo >= |p| then None
    else if p[lo].id == id && p[lo].Used() then Some(lo)
    else IndexById(p, id, lo + 1)
  }

  predicate AtLocation(e: Part, offset: nat, size: nat)
  {
    offset == e.offset && (size == 0 || size == e.size)
  }

  function IndexByLocation(p: seq<Part>, offset: nat, size: nat, lo: nat): (k: Option<nat>)
    ensures k.Some? ==> lo <= k.value < |p| && AtLocation(p[k.value], offset, size)
    ensures k.None? ==> forall j :: lo <= j < |p| ==> !AtLocation(p[j], offset, size)
    decreases |p| - lo
  {
    if lo >= |p| then None
    else if AtLocation(p[lo], offset, size) then Some(lo)
    else IndexByLocation(p, offset, size, lo + 1)
  }

  function WithoutLogical(p: seq<Part>): (q: seq<Part>)
    ensures |q| == |p|
    ensures forall i :: 0 <= i < |p| ==> q[i] == if p[i].Logical() then CLEARED else p[i]
  {
    seq(|p|, i requires 0 <= i < |p| => if p[i].Logical() then CLEARED else p[i])
  }

  // Removes entry k, and with an extended partition all logical ones.
  function Removed(p: seq<Part>, k: nat): seq<Part>
    requires k < |p|
  {
    (if p[k].kind.Extended? then WithoutLogical(p) else p)[k := CLEARED]
  }

  // A Solaris partition is not there any more.
  ghost predicate SolarisGone(p: seq<Part>, q: seq<Part>)
    requires |p| == |q|
  {
    exists i :: 0 <= i < |p| && p[i].kind == Solaris2 && q[i].kind != Solaris2
  }

  function Deleted(p: seq<Part>, id: nat, offset: nat, size: nat): (bool, seq<Part>)
  {
    if id != 0 then
      match IndexById(p, id, 0)
      case None => (true, p)
      case Some(k) => (true, Removed(p, k))
    else
      match IndexByLocation(p, offset, size, 0)
      case None => (false, p)
      case Some(k) => (true, Removed(p, k))
  }

  // ---------------------------------------------------------------------
  // The editor itself.
  // ---------------------------------------------------------------------

  class PartitionEditor {
    const disk: Disk
    const pinfo: array<Part>
    const tables: FreeSpaceTables
    // Set when a Solaris partition is deleted.
    var sliceInfoInvalid: bool

    ghost predicate Valid()
      reads this, tables
    {
      && pinfo.Length == OM_NUMPART
      && tables.Valid()
      && tables.sorted.Length == OM_NUMPART
      && tables.free.Length == OM_NUMPART + 1
    }

    constructor (d: Disk)
      ensures Valid() && disk == d && !sliceInfoInvalid
      ensures fresh(pinfo) && fresh(tables) && fresh(tables.sorted) && fresh(tables.free)
      ensures pinfo[..] == seq(OM_NUMPART, _ => BLANK)
    {
      disk := d;
      pinfo := new Part[OM_NUMPART](_ => BLANK);
      var t := new FreeSpaceTables(OM_NUMPART, OM_NUMPART + 1);
      tables := t;
      sliceInfoInvalid := false;
    }

    method PartitionExistsAt(offset: nat) returns (found: bool)
      requires Valid()
      ensures found <==> Clashes(pinfo[..], offset)
    {
      found := false;
      for ipart := 0 to OM_NUMPART
        invariant forall j :: 0 <= j < ipart ==> offset == 0 || pinfo[j].offset != offset || pinfo[j].size == 0
      {
        if offset != 0 && offset == pinfo[ipart].offset && pinfo[ipart].size != 0 {
          assert pinfo[..][ipart].offset == offset;
          return true;
        }
      }
    }

    method FindSlot(lo: nat, hi: nat) returns (k: Option<nat>)
      requires Valid() && lo <= hi <= OM_NUMPART
      ensures k == Slot(pinfo[..], lo, hi)
    {
      for ipart := lo to hi
        invariant Slot(pinfo[..], lo, hi) == Slot(pinfo[..], ipart, hi)
      {
        if !pinfo[ipart].Used() {
          return Some(ipart);
        }
      }
      k := None;
    }

    method GetExtendedPartition() returns (k: Option<nat>)
      requires Valid()
      ensures k == ExtendedFrom(pinfo[..], 0)
    {
      for ipar := 0 to OM_NUMPART
        invariant ExtendedFrom(pinfo[..], 0) == ExtendedFrom(pinfo[..], ipar)
      {
        if pinfo[ipar].Used() && pinfo[ipar].kind.Extended? {
          return Some(ipar);
        }
      }
      k := None;
    }

    method SortUsedRegions(logical: bool)
      requires Valid()
      modifies tables`nSorted, tables.sorted
      ensures Valid()
      ensures tables.sorted[..tables.nSorted] == Sort(UsedSpace(pinfo[..], logical))
    {
      tables.nSorted := 0;
      ghost var p := pinfo[..];
      for isl := 0 to OM_NUMPART
        invariant Valid() && tables.nSorted <= isl
        invariant tables.sorted[..tables.nSorted] == Sort(UsedSpace(p[..isl], logical))
      {
        UsedSpaceNext(p, isl, logical);
        if Counted(pinfo[isl], logical) {
          SortNext(UsedSpace(p[..isl], logical), p[isl].Sectors());
          tables.InsertUsed(pinfo[isl].Sectors());
        }
      }
      assert p[..OM_NUMPART] == p;
    }

    method BuildFreeSpaceTable(logical: bool) returns (ok: bool)
      requires Valid()
      modifies tables, tables.sorted, tables.free
      ensures Valid()
      ensures ok == FreeSpaceOf(pinfo[..], disk, logical).0
      ensures ok ==> tables.free[..tables.nFragments] == FreeSpaceOf(pinfo[..], disk, logical).1
    {
      var start, max := 0, 0;
      if logical {
        var ext := GetExtendedPartition();
        if ext.None? {
          return false;
        }
        start, max := pinfo[ext.value].offset, pinfo[ext.value].size;
      } else {
        max := disk.Size();
        if max == 0 {
          return false;
        }
      }
      SortUsedRegions(logical);
      ok := tables.BuildFree(start, max, logical);
    }

    method FindUnusedRegionOfSize(size: nat, logical: bool) returns (r: Option<Region>)
      requires Valid()
      modifies tables, tables.sorted, tables.free
      ensures Valid()
      ensures r == Chosen(pinfo[..], disk, size, logical)
    {
      var ok := BuildFreeSpaceTable(logical);
      if !ok {
        return None;
      }
      var k: Option<nat>;
      if size == MAX_SIZE {
        k := tables.FindLargest();
      } else {
        k := tables.FindBestFit(if logical then Wrap(size + LOGICAL_PARTITION_PAD) else size);
      }
      if k.None? {
        return None;
      }
      tables.free[k.value] := Padded(tables.free[k.value], logical);
      r := Some(tables.free[k.value]);
    }

    method Place(offset: nat, size: nat, logical: bool) returns (r: Option<Region>)
      requires Valid()
      modifies tables, tables.sorted, tables.free
      ensures Valid()
      ensures r == Placement(pinfo[..], disk, offset, size, logical)
    {
      if offset == ANYWHERE {
        var region := FindUnusedRegionOfSize(size, logical);
        if region.None? {
          return None;
        }
        return Some(Region(region.value.offset, if size == MAX_SIZE then region.value.size else size));
      }
      if size != MAX_SIZE {
        return Some(Region(offset, size));
      }
      if logical {
        var ext := GetExtendedPartition();
        if ext.None? {
          return None;
        }
        return Some(Region(offset, Wrap(pinfo[ext.value].mb * BLOCKS_TO_MB)));
      }
      r := Some(Region(offset, Wrap(disk.mb * BLOCKS_TO_MB)));
    }

    method CreatePartition(q: Request) returns (ok: bool)
      requires Valid()
      modifies pinfo, tables, tables.sorted, tables.free
      ensures Valid()
      ensures (ok, pinfo[..]) == Created(old(pinfo[..]), disk, q)
    {
      var clash := PartitionExistsAt(q.offset);
      if clash {
        return false;
      }
      var slot: Option<nat>;
      if q.logical {
        slot := FindSlot(FD_NUMPART, OM_NUMPART);
      } else {
        slot := FindSlot(0, FD_NUMPART);
      }
      if slot.None? {
        return false;
      }
      var ext := GetExtendedPartition();
      if q.kind.Extended? && ext.Some? {
        return false;
      }
      var offset := if q.entire then 0 else q.offset;
      var size := if q.entire then Wrap(disk.mb * BLOCKS_TO_MB) else q.size;
      var region := Place(offset, size, q.logical);
      if region.None? {
        return false;
      }
      var k, r := slot.value, region.value;
      pinfo[k] := pinfo[k].(offset := r.offset);
      if !q.kind.Supported() {
        return false;
      }
      var free := BuildFreeSpaceTable(q.logical);
      if !free {
        return false;
      }
      pinfo[k] := Filled(k, q.kind, r);
      ok := true;
    }

    method PartitionIndexById(id: nat) returns (k: Option<nat>)
      requires Valid()
      ensures k == IndexById(pinfo[..], id, 0)
    {
      for ipart := 0 to OM_NUMPART
        invariant IndexById(pinfo[..], id, 0) == IndexById(pinfo[..], id, ipart)
      {
        if pinfo[ipart].id == id && pinfo[ipart].Used() {
          return Some(ipart);
        }
      }
      k := None;
    }

    method MarkForDeletionByIndex(k: nat)
      requires Valid() && k < OM_NUMPART
      modifies this`sliceInfoInvalid, pinfo
      ensures Valid()
      ensures pinfo[..] == old(pinfo[..])[k := CLEARED]
      ensures sliceInfoInvalid == (old(sliceInfoInvalid) || old(pinfo[k]).kind == Solaris2)
    {
      if pinfo[k].kind == Solaris2 {
        sliceInfoInvalid := true;
      }
      pinfo[k] := CLEARED;
    }

    method DeleteAllLogicalPartitions()
      requires Valid()
      modifies this`sliceInfoInvalid, pinfo
      ensures Valid()
      ensures pinfo[..] == WithoutLogical(old(pinfo[..]))
      ensures sliceInfoInvalid == (old(sliceInfoInvalid)
        || exists i :: 0 <= i < OM_NUMPART && old(pinfo[..])[i].Logical() && old(pinfo[..])[i].kind == Solaris2)
    {
      ghost var p := pinfo[..];
      for ipart := 0 to OM_NUMPART
        invariant forall j :: 0 <= j < ipart ==> pinfo[j] == WithoutLogical(p)[j]
        invariant forall j :: ipart <= j < OM_NUMPART ==> pinfo[j] == p[j]
        invariant sliceInfoInvalid == (old(sliceInfoInvalid)
          || exists i :: 0 <= i < ipart && p[i].Logical() && p[i].kind == Solaris2)
      {
        if pinfo[ipart].Logical() {
          MarkForDeletionByIndex(ipart);
        }
      }
    }

    method RemoveAt(k: nat)
      requires Valid() && k < OM_NUMPART
      modifies this`sliceInfoInvalid, pinfo
      ensures Valid()
      ensures pinfo[..] == Removed(old(pinfo[..]), k)
      ensures sliceInfoInvalid == (old(sliceInfoInvalid) || SolarisGone(old(pinfo[..]), pinfo[..]))
    {
      if pinfo[k].kind.Extended? {
        DeleteAllLogicalPartitions();
      }
      MarkForDeletionByIndex(k);
    }

    method DeletePartition(id: nat, offset: nat, size: nat) returns (ok: bool)
      requires Valid()
      modifies this`sliceInfoInvalid, pinfo
      ensures Valid()
      ensures (ok, pinfo[..]) == Deleted(old(pinfo[..]), id, offset, size)
      ensures sliceInfoInvalid == (old(sliceInfoInvalid) || SolarisGone(old(pinfo[..]), pinfo[..]))
    {
      if id != 0 {
        var k := PartitionIndexById(id);
        if k.Some? {
          RemoveAt(k.value);
        }
        return true;
      }
      for ipart := 0 to OM_NUMPART
        invariant pinfo[..] == old(pinfo[..])
        invariant IndexByLocation(pinfo[..], offset, size, 0) == IndexByLocation(pinfo[..], offset, size, ipart)
      {
        if AtLocation(pinfo[ipart], offset, size) {
          RemoveAt(ipart);
          return true;
        }
      }
      ok := false;
    }
  }
}
