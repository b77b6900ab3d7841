// The VTOC slice editor: creating, deleting, preserving and finalizing slices.
module Slices {
  import opened Wrappers
  import opened FreeSpace

  // Slices of a disk, and sizes of the tables that hold them.
  const NDKMAP := 16
  const MAX_SIZE := 0

  datatype Tag = Unassigned | Root | Swap | OtherTag(code: nat)

  datatype SliceInfo = SliceInfo(id: nat, size: nat, offset: nat, tag: Tag)
  {
    predicate Live()
    {
      size != 0
    }

    // Takes part in the free-space accounting.
    predicate Counted()
    {
      size != 0 && !Reserved(id)
    }

    function Sectors(): Region
    {
      Region(offset, size)
    }
  }

  const BLANK := SliceInfo(0, 0, 0, Unassigned)

  predicate Reserved(id: nat)
  {
    id == 2 || id == 8 || id == 9
  }

  datatype Edit = Edit(preserve: bool, delete: bool, create: bool, install: bool, createSize: nat)

  const NO_EDIT := Edit(false, false, false, false, 0)

  datatype OnExisting = Overwrite | Error | Unrecognized

  // The whole partition or disk the slices are cut from.
  datatype Geometry = Geometry(cylinder: nat, sectors: nat)

  // The tables and flags of the editor.
  datatype State = State(slices: seq<SliceInfo>, edits: seq<Edit>, whole: bool, invalid: bool)

  // ---------------------------------------------------------------------
  // What the operations compute.
  // ---------------------------------------------------------------------

  function ClearedSlices(s: seq<SliceInfo>): (t: seq<SliceInfo>)
    ensures |t| == |s|
    ensures forall i :: 0 <= i < |s| ==> t[i] == s[i].(size := 0)
  {
    seq(|s|, i requires 0 <= i < |s| => s[i].(size := 0))
  }

  function Refreshed(st: State): State
  {
    if st.invalid then st.(slices := ClearedSlices(st.slices), invalid := false) else st
  }

  // First live entry with this id, from entry `lo` on.
  function LiveFrom(s: seq<SliceInfo>, id: nat, lo: nat): (k: Option<nat>)
    ensures k.Some? ==> lo <= k.value < |s| && s[k.value].id == id && s[k.value].Live()
    ensures k.None? ==> forall i :: lo <= i < |s| ==> s[i].id != id || !s[i].Live()
    decreases |s| - lo
  {
    if lo >= |s| then None else if s[lo].id == id && s[lo].Live() then Some(lo) else LiveFrom(s, id, lo + 1)
  }

  // First entry with this id, live or not.
  function EntryFrom(s: seq<SliceInfo>, id: nat, lo: nat): (k: Option<nat>)
    ensures k.Some? ==> lo <= k.value < |s| && s[k.value].id == id
    ensures k.Some? ==> forall i :: lo <= i < k.value ==> s[i].id != id
    ensures k.None? ==> forall i :: lo <= i < |s| ==> s[i].id != id
    decreases |s| - lo
  {
    if lo >= |s| then None else if s[lo].id == id then Some(lo) else EntryFrom(s, id, lo + 1)
  }

  function EmptyFrom(s: seq<SliceInfo>, lo: nat): (k: Option<nat>)
    ensures k.Some? ==> lo <= k.value < |s| && !s[k.value].Live()
    ensures k.Some? ==> forall i :: lo <= i < k.value ==> s[i].Live()
    ensures k.None? ==> forall i :: lo <= i < |s| ==> s[i].Live()
    decreases |s| - lo
  {
    if lo >= |s| then None else if !s[lo].Live() then Some(lo) else EmptyFrom(s, lo + 1)
  }

  // Slice 2 gives the size when it is in use.
  function PartitionSize(s: seq<SliceInfo>, g: Geometry): nat
  {
    match LiveFrom(s, 2, 0)
    case Some(k) => s[k].size
    case None => g.sectors
  }

  function UsedSpace(s: seq<SliceInfo>): seq<Region>
  {
    if s == [] then []
    else
      var before, e := UsedSpace(s[..|s| - 1]), s[|s| - 1];
      if e.Counted() then before + [e.Sectors()] else before
  }

  lemma {:induction false} UsedSpaceNext(s: seq<SliceInfo>, i: nat)
    requires i < |s|
    ensures UsedSpace(s[..i + 1])
      == if s[i].Counted() then UsedSpace(s[..i]) + [s[i].Sectors()] else UsedSpace(s[..i])
  {
    assert s[..i + 1][..i] == s[..i];
  }

  function FreeSpaceOf(s: seq<SliceInfo>, g: Geometry): (bool, seq<Region>)
  {
    Table(Sort(UsedSpace(s)), 0, PartitionSize(s, g), false, NDKMAP)
  }

  // A region up to one cylinder smaller than asked for is accepted.
  function Lenient(size: nat, g: Geometry): nat
  {
    if size > g.cylinder then size - g.cylinder else size
  }

  // The search goes on even when the used slices overlap.
  function Chosen(s: seq<SliceInfo>, g: Geometry, size: nat): Option<Region>
  {
    var free := FreeSpaceOf(s, g).1;
    match if size == MAX_SIZE then Largest(free) else BestFit(free, Lenient(size, g))
    case None => None
    case Some(k) => Some(free[k])
  }

  // The entries after the first one with this id move down.
  function Without(s: seq<SliceInfo>, id: nat): (t: seq<SliceInfo>)
    ensures |t| == |s|
  {
    match EntryFrom(s, id, 0)
    case None => s
    case Some(k) => s[..k] + s[k + 1..] + [BLANK]
  }

  function RemovedState(st: State, id: nat): State
    requires id < |st.edits|
  {
    if EntryFrom(st.slices, id, 0).None? then st
    else st.(slices := Without(st.slices, id), edits := st.edits[id := st.edits[id].(delete := true)])
  }

  // Going through the table and removing the slice wherever it is met.
  function Overwritten(st: State, id: nat, i: nat): (r: State)
    requires id < |st.edits|
    ensures |r.slices| == |st.slices| && |r.edits| == |st.edits| && r.invalid == st.invalid
    decreases |st.slices| - i
  {
    if i >= |st.slices| then st
    else
      var e := st.slices[i];
      Overwritten(if e.id == id && e.Live() then RemovedState(st, id) else st, id, i + 1)
  }

  function Filled(st: State, id: nat, size: nat, tag: Tag, k: nat, r: Region): State
    requires k < |st.slices| && id < |st.edits|
  {
    var n := if size == MAX_SIZE then r.size else size;
    State(st.slices[k := SliceInfo(id, n, r.offset, if tag.Root? || tag.Swap? then tag else Unassigned)],
          st.edits[id := st.edits[id].(create := true, createSize := n, install := tag.Root? || st.edits[id].install)],
          st.whole && size == MAX_SIZE && r.offset == 0, st.invalid)
  }

  function Created(st0: State, g: Geometry, id: nat, size: nat, tag: Tag, on: OnExisting): (r: (bool, State))
    requires |st0.slices| == |st0.edits| == NDKMAP
    ensures |r.1.slices| == |r.1.edits| == NDKMAP && !r.1.invalid
  {
    var st := Refreshed(st0);
    if id >= NDKMAP || Reserved(id) || st.edits[id].preserve then (false, st)
    else if LiveFrom(st.slices, id, 0).Some? && on != Overwrite then (false, st)
    else
      var rest := Overwritten(st, id, 0);
      match EmptyFrom(rest.slices, 0)
      case None => (false, rest)
      case Some(k) =>
        match Chosen(rest.slices, g, size)
        case None => (false, rest)
        case Some(r) => (true, Filled(rest, id, size, tag, k, r))
  }

  function Deleted(st0: State, id: nat): (bool, State)
    requires |st0.slices| == |st0.edits| == NDKMAP && id < NDKMAP
  {
    var st := Refreshed(st0);
    if Reserved(id) || st.edits[id].preserve then (false, st) else (true, RemovedState(st, id))
  }

  function Preserved(st: State, id: nat): (bool, State)
    requires |st.edits| == NDKMAP
  {
    if id >= NDKMAP then (false, st)
    else (true, st.(edits := st.edits[id := st.edits[id].(preserve := true)]))
  }

  predicate AnyPreserved(st: State)
  {
    exists i :: 0 <= i < |st.edits| && st.edits[i].preserve
  }

  // From slice id `id` on, drops what is neither reserved, preserved nor new.
  function Kept(st: State, id: nat): (r: State)
    requires |st.edits| == NDKMAP
    ensures |r.slices| == |st.slices| && |r.edits| == NDKMAP && r.invalid == st.invalid
    decreases NDKMAP - id
  {
    if id >= NDKMAP then st
    else if Reserved(id) || LiveFrom(st.slices, id, 0).None? then Kept(st, id + 1)
    else if st.edits[id].preserve then Kept(st.(whole := false), id + 1)
    else if st.edits[id].create then Kept(st, id + 1)
    else Kept(RemovedState(st, id), id + 1)
  }

  // The state before the install slice is created.
  function Readied(st0: State, install: nat): (st: State)
    requires |st0.slices| == |st0.edits| == NDKMAP
    ensures |st.slices| == |st.edits| == NDKMAP && !st.invalid
  {
    var st := Refreshed(st0);
    var kept := if AnyPreserved(st) then Kept(st, 0) else st;
    if install == 0 then kept
    else
      var own := kept.(whole := false);
      if install >= NDKMAP then own else own.(edits := own.edits[install := own.edits[install].(install := true)])
  }

  function Finalized(st0: State, g: Geometry, install: nat): (bool, State)
    requires |st0.slices| == |st0.edits| == NDKMAP
  {
    Concluded(Readied(st0, install), g, install)
  }

  // The install slice is created if need be, and the table is checked.
  function Concluded(st: State, g: Geometry, install: nat): (bool, State)
    requires |st.slices| == |st.edits| == NDKMAP
  {
    if install >= NDKMAP then (false, st)
    else if LiveFrom(st.slices, install, 0).None? && !st.whole then
      var (ok, made) := Created(st, g, install, MAX_SIZE, Root, Error);
      if !ok then (false, made) else (FreeSpaceOf(made.slices, g).0, made)
    else (FreeSpaceOf(st.slices, g).0, st)
  }

  // ---------------------------------------------------------------------
  // The editor itself.
  // ---------------------------------------------------------------------

  class SliceEditor {
    const geometry: Geometry
    const sinfo: array<SliceInfo>
    const edits: array<Edit>
    const tables: FreeSpaceTables
    var whole: bool
    var invalid: bool

    ghost predicate Valid()
      reads this, tables
    {
      && sinfo.Length == NDKMAP && edits.Length == NDKMAP
      && tables.Valid()
      && tables.sorted.Length == NDKMAP && tables.free.Length == NDKMAP
    }

    ghost function Now(): (st: State)
      requires Valid()
      reads this, tables, sinfo, edits
      ensures |st.slices| == |st.edits| == NDKMAP
    {
      State(sinfo[..], edits[..], whole, invalid)
    }

    constructor (g: Geometry)
      ensures Valid() && geometry == g
      ensures fresh(sinfo) && fresh(edits) && fresh(tables) && fresh(tables.sorted) && fresh(tables.free)
      ensures Now() == State(seq(NDKMAP, _ => BLANK), seq(NDKMAP, _ => NO_EDIT), true, false)
    {
      geometry := g;
      sinfo := new SliceInfo[NDKMAP](_ => BLANK);
      edits := new Edit[NDKMAP](_ => NO_EDIT);
      var t := new FreeSpaceTables(NDKMAP, NDKMAP);
      tables := t;
      whole, invalid := true, false;
    }

    method PreserveSlice(id: nat) returns (ok: bool)
      requires Valid()
      modifies edits
      ensures Valid() && (ok, Now()) == Preserved(old(Now()), id)
    {
      if id >= NDKMAP {
        return false;
      }
      edits[id] := edits[id].(preserve := true);
      ok := true;
    }

    method InvalidateSliceInfo()
      requires Valid()
      modifies this`invalid
      ensures Valid() && Now() == old(Now()).(invalid := true)
    {
      invalid := true;
    }

    method ClearSliceInfoIfInvalidated()
      requires Valid()
      modifies this`invalid, sinfo
      ensures Valid() && Now() == Refreshed(old(Now()))
    {
      if invalid {
        forall isl | 0 <= isl < NDKMAP {
          sinfo[isl] := sinfo[isl].(size := 0);
        }
        invalid := false;
      }
    }

    method FindLive(id: nat) returns (k: Option<nat>)
      requires Valid()
      ensures k == LiveFrom(sinfo[..], id, 0)
    {
      for isl := 0 to NDKMAP
        invariant LiveFrom(sinfo[..], id, 0) == LiveFrom(sinfo[..], id, isl)
      {
        if sinfo[isl].id == id && sinfo[isl].Live() {
          return Some(isl);
        }
      }
      k := None;
    }

    method FindEmpty() returns (k: Option<nat>)
      requires Valid()
      ensures k == EmptyFrom(sinfo[..], 0)
    {
      for isl := 0 to NDKMAP
        invariant EmptyFrom(sinfo[..], 0) == EmptyFrom(sinfo[..], isl)
      {
        if !sinfo[isl].Live() {
          return Some(isl);
        }
      }
      k := None;
    }

    // Shifts the entries after the first one with this id down by one.
    method RemoveSliceFromTable(id: nat) returns (found: bool)
      requires Valid() && id < NDKMAP
      modifies sinfo, edits
      ensures Valid() && Now() == RemovedState(old(Now()), id)
      ensures found <==> EntryFrom(old(sinfo[..]), id, 0).Some?
    {
      ghost var s := sinfo[..];
      for isl := 0 to NDKMAP
        invariant sinfo[..] == s && edits[..] == old(edits[..])
        invariant EntryFrom(s, id, 0) == EntryFrom(s, id, isl)
      {
        if sinfo[isl].id == id {
          forall k | isl <= k < NDKMAP - 1 {
            sinfo[k] := sinfo[k + 1];
          }
          sinfo[NDKMAP - 1] := BLANK;
          assert sinfo[..] == s[..isl] + s[isl + 1..] + [BLANK];
          edits[id] := edits[id].(delete := true);
          return true;
        }
      }
      found := false;
    }

    method SortUsedRegions()
      requires Valid()
      modifies tables`nSorted, tables.sorted
      ensures Valid()
      ensures tables.sorted[..tables.nSorted] == Sort(UsedSpace(sinfo[..]))
    {
      tables.nSorted := 0;
      ghost var s := sinfo[..];
      for isl := 0 to NDKMAP
        invariant Valid() && tables.nSorted <= isl
        invariant tables.sorted[..tables.nSorted] == Sort(UsedSpace(s[..isl]))
      {
        UsedSpaceNext(s, isl);
        if sinfo[isl].Counted() {
          SortNext(UsedSpace(s[..isl]), s[isl].Sectors());
          tables.InsertUsed(sinfo[isl].Sectors());
        }
      }
      assert s[..NDKMAP] == s;
    }

    method FindPartitionSize() returns (size: nat)
      requires Valid()
      modifies this`invalid, sinfo
      ensures Valid() && Now() == Refreshed(old(Now()))
      ensures size == PartitionSize(Now().slices, geometry)
    {
      ghost var was := Now();
      if invalid {
        ClearSliceInfoIfInvalidated();
        assert LiveFrom(sinfo[..], 2, 0) == None;
        return geometry.sectors;
      }
      var k := FindLive(2);
      size := if k.Some? then sinfo[k.value].size else geometry.sectors;
    }

    method BuildFreeSpaceTable() returns (ok: bool)
      requires Valid()
      modifies this`invalid, sinfo, tables, tables.sorted, tables.free
      ensures Valid() && Now() == Refreshed(old(Now()))
      ensures (ok, tables.free[..tables.nFragments]) == FreeSpaceOf(Now().slices, geometry)
    {
      var size := FindPartitionSize();
      SortUsedRegions();
      ok := tables.BuildFree(0, size, false);
    }

    method FindUnusedRegionOfSize(size: nat) returns (r: Option<Region>)
      requires Valid() && !invalid
      modifies this`invalid, sinfo, tables, tables.sorted, tables.free
      ensures Valid() && Now() == old(Now())
      ensures r == Chosen(Now().slices, geometry, size)
    {
      var _ := BuildFreeSpaceTable();
      var k: Option<nat>;
      if size == MAX_SIZE {
        k := tables.FindLargest();
      } else {
        k := tables.FindBestFit(Lenient(size, geometry));
      }
      r := if k.Some? then Some(tables.free[k.value]) else None;
    }

    // Deals with a slice that is in the table already.  False when it must
    // not be overwritten.
    method ClearForCreate(id: nat, on: OnExisting) returns (ok: bool)
      requires Valid() && id < NDKMAP
      modifies sinfo, edits
      ensures Valid()
      ensures ok <==> LiveFrom(old(sinfo[..]), id, 0).None? || on == Overwrite
      ensures Now() == if ok then Overwritten(old(Now()), id, 0) else old(Now())
    {
      ghost var was := Now();
      for isl := 0 to NDKMAP
        invariant Valid()
        invariant on != Overwrite ==> Now() == was && LiveFrom(was.slices, id, 0) == LiveFrom(was.slices, id, isl)
        invariant Overwritten(Now(), id, isl) == Overwritten(was, id, 0)
      {
        if sinfo[isl].id == id && sinfo[isl].Live() {
          if on == Overwrite {
            var _ := RemoveSliceFromTable(id);
          } else {
            return false;
          }
        }
      }
      ok := true;
    }

    method CreateSlice(id: nat, size: nat, tag: Tag, on: OnExisting) returns (ok: bool)
      requires Valid()
      modifies this, sinfo, edits, tables, tables.sorted, tables.free
      ensures Valid()
      ensures (ok, Now()) == Created(old(Now()), geometry, id, size, tag, on)
    {
      ClearSliceInfoIfInvalidated();
      if id >= NDKMAP {
        return false;
      }
      if Reserved(id) || edits[id].preserve {
        return false;
      }
      ghost var st := Now();
      var clear := ClearForCreate(id, on);
      if !clear {
        return false;
      }
      OverwrittenUnchanged(st, id, 0);
      var k := FindEmpty();
      if k.None? {
        return false;
      }
      var r := FindUnusedRegionOfSize(size);
      if r.None? {
        return false;
      }
      StoreSlice(k.value, id, size, tag, r.value);
      ok := true;
    }

    method StoreSlice(k: nat, id: nat, size: nat, tag: Tag, r: Region)
      requires Valid() && k < NDKMAP && id < NDKMAP
      modifies this`whole, sinfo, edits
      ensures Valid() && Now() == Filled(old(Now()), id, size, tag, k, r)
    {
      if size != MAX_SIZE || r.offset != 0 {
        whole := false;
      }
      var n := if size == MAX_SIZE then r.size else size;
      sinfo[k] := SliceInfo(id, n, r.offset, if tag.Root? || tag.Swap? then tag else Unassigned);
      edits[id] := edits[id].(create := true, createSize := n);
      if tag.Root? {
        edits[id] := edits[id].(install := true);
      }
    }

    method DeleteSlice(id: nat) returns (ok: bool)
      requires Valid() && id < NDKMAP
      modifies this`invalid, sinfo, edits
      ensures Valid() && (ok, Now()) == Deleted(old(Now()), id)
    {
      ClearSliceInfoIfInvalidated();
      if Reserved(id) || edits[id].preserve {
        return false;
      }
      var _ := RemoveSliceFromTable(id);
      ok := true;
    }

    method AreSlicesPreserved() returns (any: bool)
      requires Valid()
      ensures any <==> AnyPreserved(Now())
    {
      for id := 0 to NDKMAP
        invariant forall i :: 0 <= i < id ==> !edits[i].preserve
      {
        if edits[id].preserve {
          assert Now().edits[id].preserve;
          return true;
        }
      }
      any := false;
    }

    // Drops the slices that are neither preserved nor newly created.
    method DropOtherSlices()
      requires Valid()
      modifies this`whole, sinfo, edits
      ensures Valid() && Now() == Kept(old(Now()), 0)
    {
      ghost var was := Now();
      for id := 0 to NDKMAP
        invariant Valid() && Kept(Now(), id) == Kept(was, 0)
      {
        DropUnlessKept(id);
      }
    }

    // One round of that loop.
    method DropUnlessKept(id: nat)
      requires Valid() && id < NDKMAP
      modifies this`whole, sinfo, edits
      ensures Valid() && Kept(Now(), id + 1) == Kept(old(Now()), id)
    {
      if Reserved(id) {
        return;
      }
      var k := FindLive(id);
      if k.None? {
        return;
      }
      if edits[id].preserve {
        whole := false;
        return;
      }
      if edits[id].create {
        return;
      }
      var _ := RemoveSliceFromTable(id);
    }

    method Ready(install: nat) returns (ok: bool)
      requires Valid()
      modifies this, sinfo, edits, tables, tables.sorted, tables.free
      ensures Valid() && Now() == Readied(old(Now()), install)
      ensures ok <==> install < NDKMAP
    {
      var _ := BuildFreeSpaceTable();
      var any := AreSlicesPreserved();
      if any {
        DropOtherSlices();
      }
      if install != 0 {
        whole := false;
        if install >= NDKMAP {
          return false;
        }
        edits[install] := edits[install].(install := true);
      }
      ok := true;
    }

    method FinalizeVtoc(install: nat) returns (ok: bool)
      requires Valid()
      modifies this, sinfo, edits, tables, tables.sorted, tables.free
      ensures Valid() && (ok, Now()) == Finalized(old(Now()), geometry, install)
    {
      var ready := Ready(install);
      if !ready {
        return false;
      }
      var live := FindLive(install);
      if live.None? && !whole {
        var made := CreateSlice(install, MAX_SIZE, Root, Error);
        if !made {
          return false;
        }
      }
      ok := BuildFreeSpaceTable();
    }
  }

  // Nothing to overwrite: nothing happens.
  lemma {:induction false} OverwrittenUnchanged(st: State, id: nat, i: nat)
    requires id < |st.edits|
    ensures LiveFrom(st.slices, id, i).None? ==> Overwritten(st, id, i) == st
    decreases |st.slices| - i
  {
    if i < |st.slices| {
      OverwrittenUnchanged(st, id, i + 1);
    }
  }
}
