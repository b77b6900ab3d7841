// What single calls of the slice editor record, and which slices last.
module SliceContents {
  import opened Wrappers
  import opened FreeSpace
  import opened FreeSpaceFacts
  import opened Slices
  import opened SliceFacts
  import opened SliceRuns

  // ---------------------------------------------------------------------
  // Single calls.
  // ---------------------------------------------------------------------

  // All that changes in the editing flags is those of slice `id`.
  ghost predicate OnlyEdit(edits: seq<Edit>, id: nat, after: seq<Edit>)
  {
    |edits| == |after| == NDKMAP && forall i :: 0 <= i < NDKMAP && i != id ==> after[i] == edits[i]
  }

  // Once slice information has been invalidated, the next call finds no
  // slice; flags stay.
  lemma {:induction false} RefreshedIs(st: State)
    ensures var r := Refreshed(st);
      && LiveSet(r.slices) == (if st.invalid then {} else LiveSet(st.slices))
      && r.edits == st.edits && r.whole == st.whole && !r.invalid
  {
  }

  // Slice 2 stands for the whole partition.
  lemma {:induction false} PartitionSizeIs(s: seq<SliceInfo>, g: Geometry, e: SliceInfo)
    requires Tidy(s)
    ensures e in LiveSet(s) && e.id == 2 ==> PartitionSize(s, g) == e.size
    ensures (forall x :: x in LiveSet(s) ==> x.id != 2) ==> PartitionSize(s, g) == g.sectors
  {
    if LiveFrom(s, 2, 0).Some? {
      assert s[LiveFrom(s, 2, 0).value] in LiveSet(s);
    }
  }

  // A creation that may not go ahead changes nothing.
  lemma {:induction false} CreateRefused(st: State, g: Geometry, id: nat, size: nat, tag: Tag, on: OnExisting)
    requires |st.slices| == |st.edits| == NDKMAP && !Grantable(Refreshed(st), id, on)
    ensures Created(st, g, id, size, tag, on) == (false, Refreshed(st))
  {
  }

  // A successful one adds the slice, which replaces one of the same number,
  // with the tag asked for if it is Root or Swap, and records it as new; one
  // that finds no room still takes the replaced slice away.
  lemma {:induction false} CreateRecords(st: State, g: Geometry, id: nat, size: nat, tag: Tag, on: OnExisting)
    returns (e: SliceInfo)
    requires Sane(st) && Grantable(st, id, on) && g.sectors > 0
    ensures var (ok, after) := Created(st, g, id, size, tag, on);
      var was, replaced := st.edits[id], exists x :: x in LiveSet(st.slices) && x.id == id;
      && OnlyEdit(st.edits, id, after.edits) && !after.invalid
      && (ok ==>
            && LiveSet(after.slices) == Others(LiveSet(st.slices), id) + {e}
            && e.id == id && (size != MAX_SIZE ==> e.size == size)
            && e.tag == (if tag == Root || tag == Swap then tag else Unassigned)
            && after.edits[id] == Edit(was.preserve, was.delete || replaced, true, was.install || tag == Root, e.size)
            && (after.whole <==> st.whole && size == MAX_SIZE && e.offset == 0))
      && (!ok ==>
            && LiveSet(after.slices) == Others(LiveSet(st.slices), id)
            && after.edits[id] == was.(delete := was.delete || replaced) && after.whole == st.whole)
  {
    var rest := Overwritten(st, id, 0);
    OverwrittenKeepsTidy(st, id);
    ReplacedRecords(st, id);
    var k := GrantedResult(st, g, id, size, tag, on);
    var c := Chosen(rest.slices, g, size);
    e := GrantedAdds(st, g, id, size, tag, on);
    if c.Some? {
      e := Filled(rest, id, size, tag, k, c.value).slices[k];
      FilledIs(rest, g, id, size, tag, k, c.value);
    }
  }

  lemma {:induction false} ReplacedRecords(st: State, id: nat)
    requires Sane(st) && id < NDKMAP
    ensures var rest, replaced := Overwritten(st, id, 0), exists x :: x in LiveSet(st.slices) && x.id == id;
      rest.edits == (if replaced then st.edits[id := st.edits[id].(delete := true)] else st.edits)
      && rest.whole == st.whole && rest.invalid == st.invalid
  {
    OverwrittenIsRemoved(st, id, 0);
    var k := LiveFrom(st.slices, id, 0);
    if k.Some? {
      assert st.slices[k.value] in LiveSet(st.slices);
      LiveEntryFirst(st.slices, id);
    }
  }

  lemma {:induction false} FilledIs(st: State, g: Geometry, id: nat, size: nat, tag: Tag, k: nat, r: Region)
    requires Sane(st) && EmptyFrom(st.slices, 0) == Some(k) && id < NDKMAP && Chosen(st.slices, g, size) == Some(r)
    requires (forall x :: x in LiveSet(st.slices) ==> x.id != id) && g.sectors > 0
    ensures var e := Filled(st, id, size, tag, k, r).slices[k];
      LiveSet(Filled(st, id, size, tag, k, r).slices) == LiveSet(st.slices) + {e}
  {
    var free := FreeSpaceOf(st.slices, g).1;
    SizeNotZero(st.slices, g);
    TablePositive(Sort(UsedSpace(st.slices)), PartitionSize(st.slices, g), NDKMAP);
    FillKeepsTidy(st.slices, k, Filled(st, id, size, tag, k, r).slices[k]);
  }

  lemma {:induction false} SizeNotZero(s: seq<SliceInfo>, g: Geometry)
    requires g.sectors > 0
    ensures PartitionSize(s, g) > 0
  {
  }

  // Taking a slice away, if there is one.
  lemma {:induction false} RemovedRecords(st: State, id: nat)
    requires Sane(st) && id < NDKMAP
    ensures var after := RemovedState(st, id);
      && LiveSet(after.slices) == Others(LiveSet(st.slices), id) && OnlyEdit(st.edits, id, after.edits)
      && after.whole == st.whole && after.invalid == st.invalid
  {
    WithoutKeepsTidy(st.slices, id);
    if EntryFrom(st.slices, id, 0).None? {
      assert LiveSet(st.slices) == Others(LiveSet(st.slices), id);
    }
  }

  lemma {:induction false} RemovedFlag(st: State, id: nat)
    requires Sane(st) && id < NDKMAP
    ensures var was, flag := st.edits[id], RemovedState(st, id).edits[id];
      && flag == was.(delete := flag.delete) && (was.delete ==> flag.delete)
      && ((exists x :: x in LiveSet(st.slices) && x.id == id) ==> flag.delete)
  {
    if x :| x in LiveSet(st.slices) && x.id == id {
      assert EntryFrom(st.slices, id, 0).Some?;
    }
  }

  // Deleting fails for reserved and preserved slices, and otherwise takes the
  // slice away, if there is one, and records that.
  lemma {:induction false} DeleteRecords(st: State, id: nat)
    requires Sane(st) && id < NDKMAP
    ensures var was, (ok, after) := Refreshed(st), Deleted(st, id);
      && (ok <==> !(id == 2 || id == 8 || id == 9) && !st.edits[id].preserve)
      && (!ok ==> after == was)
      && (ok ==>
            && LiveSet(after.slices) == Others(LiveSet(was.slices), id) && OnlyEdit(st.edits, id, after.edits)
            && after.edits[id] == st.edits[id].(delete := after.edits[id].delete)
            && (st.edits[id].delete ==> after.edits[id].delete)
            && ((exists x :: x in LiveSet(was.slices) && x.id == id) ==> after.edits[id].delete)
            && after.whole == st.whole && !after.invalid)
  {
    RefreshedSane(st);
    RemovedRecords(Refreshed(st), id);
    RemovedFlag(Refreshed(st), id);
  }

  // Preserving sets that flag, for a valid number, and nothing else.
  lemma {:induction false} PreserveRecords(st: State, id: nat)
    requires |st.edits| == NDKMAP
    ensures var (ok, after) := Preserved(st, id);
      && (ok <==> id < NDKMAP)
      && after == st.(edits := after.edits) && OnlyEdit(st.edits, id, after.edits)
      && (ok ==> after.edits[id] == st.edits[id].(preserve := true))
  {
  }

  // ---------------------------------------------------------------------
  // Slices that last.
  // ---------------------------------------------------------------------

  // A slice that a call has preserved lasts, as it is, until slice
  // information is invalidated.
  lemma {:induction false} PreservedSliceSurvives(g: Geometry, states: seq<State>, ops: seq<Op>, m: nat, n: nat,
      e: SliceInfo)
    requires IsRun(g, states, ops) && g.sectors > 0 && Tidy(states[0].slices) && m < n < |states|
    requires ops[m] == Preserve(e.id) && e.id < NDKMAP && !states[m].invalid && e in LiveSet(states[m].slices)
    requires forall i :: m < i < n ==> ops[i] != Invalidate
    ensures !states[n].invalid && e in LiveSet(states[n].slices)
  {
    assert Follows(g, states, ops, m);
    PreserveRecords(states[m], e.id);
    ProtectedSliceSurvives(g, states, ops, m + 1, n, e);
  }

  // A slice recorded as new.
  ghost predicate New(st: State, e: SliceInfo)
    requires |st.edits| == NDKMAP
  {
    !st.invalid && e in LiveSet(st.slices) && e.id < NDKMAP && st.edits[e.id].create
  }

  // The calls that may take it away.
  ghost predicate Undoes(op: Op, id: nat)
  {
    op == Invalidate || op == Delete(id) || (op.Create? && op.id == id && op.on == Overwrite)
  }

  lemma {:induction false} CreateKeepsNew(st: State, g: Geometry, id: nat, size: nat, tag: Tag, on: OnExisting,
      e: SliceInfo)
    requires Sane(st) && New(st, e) && g.sectors > 0 && (id == e.id ==> on != Overwrite)
    ensures New(Created(st, g, id, size, tag, on).1, e)
  {
    assert id == e.id ==> LiveFrom(st.slices, id, 0).Some?;
    if Grantable(st, id, on) {
      var x := CreateRecords(st, g, id, size, tag, on);
    } else {
      CreateRefused(st, g, id, size, tag, on);
    }
  }

  lemma {:induction false} RemovedKeepsNew(st: State, id: nat, e: SliceInfo)
    requires Sane(st) && New(st, e) && id < NDKMAP && !st.edits[id].create
    ensures Sane(RemovedState(st, id)) && New(RemovedState(st, id), e)
  {
    RemovedSane(st, id, BLANK);
  }

  // One round of the loop that drops slices.
  lemma {:induction false} KeptNextNew(st: State, id: nat, e: SliceInfo) returns (next: State)
    requires Sane(st) && New(st, e) && id < NDKMAP
    ensures Sane(next) && New(next, e) && Kept(st, id) == Kept(next, id + 1)
  {
    next := KeptNext(st, id);
    if next == RemovedState(st, id) && next != st && next != st.(whole := false) {
      RemovedKeepsNew(st, id, e);
    }
  }

  lemma {:induction false} KeptKeepsNew(st: State, id: nat, e: SliceInfo)
    requires Sane(st) && New(st, e) && id <= NDKMAP
    ensures Sane(Kept(st, id)) && New(Kept(st, id), e)
    decreases NDKMAP - id
  {
    if id < NDKMAP {
      var next := KeptNextNew(st, id, e);
      KeptKeepsNew(next, id + 1, e);
    }
  }

  lemma {:induction false} FinalizeKeepsNew(st: State, g: Geometry, install: nat, e: SliceInfo)
    requires Sane(st) && New(st, e) && g.sectors > 0
    ensures New(Finalized(st, g, install).1, e)
  {
    KeptKeepsNew(st, 0, e);
    var ready := Readied(st, install);
    assert Sane(ready) && New(ready, e);
    CreateKeepsNew(ready, g, install, MAX_SIZE, Root, Error, e);
  }

  lemma {:induction false} StepKeepsNew(st: State, g: Geometry, op: Op, e: SliceInfo)
    requires Sane(st) && Callable(op) && g.sectors > 0 && New(st, e) && !Undoes(op, e.id)
    ensures New(Applied(st, g, op), e)
  {
    match op
    case Create(id, size, tag, on) => CreateKeepsNew(st, g, id, size, tag, on, e);
    case Delete(id) => DeleteRecords(st, id);
    case Preserve(id) => PreserveRecords(st, id);
    case Finalize(install) => FinalizeKeepsNew(st, g, install, e);
    case Invalidate =>
  }

  // A slice that has been created lasts, as it is, through every call,
  // finalizing with preserved slices beside it included, until it is deleted
  // or overwritten itself or slice information is invalidated.
  lemma {:induction false} NewSliceSurvives(g: Geometry, states: seq<State>, ops: seq<Op>, m: nat, n: nat, e: SliceInfo)
    requires IsRun(g, states, ops) && g.sectors > 0 && Tidy(states[0].slices) && m <= n < |states|
    requires New(states[m], e) && forall i :: m <= i < n ==> !Undoes(ops[i], e.id)
    ensures New(states[n], e)
    decreases n
  {
    if m < n {
      NewSliceSurvives(g, states, ops, m, n - 1, e);
      RunKeepsTidy(g, states, ops, n - 1);
      assert Follows(g, states, ops, n - 1);
      StepKeepsNew(states[n - 1], g, ops[n - 1], e);
    }
  }

  // ---------------------------------------------------------------------
  // Finalizing.
  // ---------------------------------------------------------------------

  lemma {:induction false} KeptRecords(st: State, id: nat, i: nat)
    requires Sane(st) && id <= NDKMAP && i < NDKMAP
    ensures Kept(st, id).edits[i] == st.edits[i].(delete := Kept(st, id).edits[i].delete)
    decreases NDKMAP - id
  {
    if id < NDKMAP {
      var next := KeptNext(st, id);
      RemovedSane(st, id, BLANK);
      KeptRecords(next, id + 1, i);
    }
  }

  lemma {:induction false} ReadiedRecords(st: State, install: nat, i: nat)
    requires Sane(st) && i < NDKMAP
    ensures var r := Readied(st, install);
      && Sane(r) && !r.invalid
      && r.edits[i] == st.edits[i].(delete := r.edits[i].delete, install := st.edits[i].install || i == install != 0)
  {
    RefreshedSane(st);
    KeptRecords(Refreshed(st), 0, i);
    ReadiedSane(st, install, BLANK);
  }

  // The install slice may be created.
  lemma {:induction false} InstallRecords(st: State, g: Geometry, install: nat, i: nat)
    requires Sane(st) && !st.invalid && g.sectors > 0 && i < NDKMAP && install < NDKMAP
    ensures var after := Created(st, g, install, MAX_SIZE, Root, Error).1;
      && !after.invalid && after.edits[i].preserve == st.edits[i].preserve
      && (st.edits[i].install ==> after.edits[i].install)
      && (i != install ==> after.edits[i] == st.edits[i])
  {
    if Grantable(st, install, Error) {
      var e := CreateRecords(st, g, install, MAX_SIZE, Root, Error);
    } else {
      CreateRefused(st, g, install, MAX_SIZE, Root, Error);
    }
  }

  // Finalizing marks the install slice that is named, changes no other flag
  // of other slices but that of deletion, and ends with valid information; a
  // number out of range is refused.
  lemma {:induction false} FinalizeRecords(st: State, g: Geometry, install: nat, i: nat)
    requires Sane(st) && g.sectors > 0 && i < NDKMAP
    ensures var (ok, after) := Finalized(st, g, install);
      && !after.invalid && (install >= NDKMAP ==> !ok)
      && (i == install != 0 ==> after.edits[i].install)
      && after.edits[i].preserve == st.edits[i].preserve
      && (i != install ==> after.edits[i] == st.edits[i].(delete := after.edits[i].delete))
  {
    ReadiedRecords(st, install, i);
    if install < NDKMAP {
      InstallRecords(Readied(st, install), g, install, i);
    }
  }
}
