// Whole runs of the slice editor, and what finalizing promises.
module SliceRuns {
  import opened FreeSpace
  import opened FreeSpaceFacts
  import opened Slices
  import opened SliceFacts

  // ---------------------------------------------------------------------
  // When the leniency of the search does harm.
  // ---------------------------------------------------------------------

  // Some free region is too small for the request and larger than the lenient
  // size, or the first that fits the lenient size has exactly that size.
  ghost predicate Misled(free: seq<Region>, size: nat, g: Geometry)
  {
    exists j :: 0 <= j < |free| && TooSmallButTaken(free, j, size, g)
  }

  ghost predicate TooSmallButTaken(free: seq<Region>, j: nat, size: nat, g: Geometry)
    requires j < |free|
  {
    && Lenient(size, g) <= free[j].size < size
    && (free[j].size > Lenient(size, g) || forall i :: 0 <= i < j ==> free[i].size < Lenient(size, g))
  }

  // A region smaller than the request is taken exactly then, however large
  // the other free regions are.
  lemma {:induction false} ShortRegionIffMisled(free: seq<Region>, size: nat, g: Geometry)
    requires BestFit(free, Lenient(size, g)).Some?
    ensures free[BestFit(free, Lenient(size, g)).value].size < size <==> Misled(free, size, g)
  {
    var lenient := Lenient(size, g);
    var b := BestFit(free, lenient).value;
    BestFitIsTight(free, lenient);
    if free[b].size < size {
      if free[b].size == lenient {
        var j :| 0 <= j < |free| && free[j].size == lenient && forall i :: 0 <= i < j ==> free[i].size < lenient;
        assert TooSmallButTaken(free, j, size, g);
      } else {
        assert TooSmallButTaken(free, b, size, g);
      }
    }
  }

  // The free regions a request is matched against.
  ghost function FreeFor(st: State, g: Geometry, id: nat): seq<Region>
    requires id < |st.edits|
  {
    FreeSpaceOf(Rest(st, id), g).1
  }

  // After a successful creation all slices are in order exactly when the
  // others were and the search was not misled.
  lemma {:induction false} CreateKeepsOrderIff(st: State, g: Geometry, id: nat, size: nat, tag: Tag, on: OnExisting)
    requires |st.edits| == NDKMAP && Tidy(st.slices) && Grantable(st, id, on) && g.cylinder > 0
    requires 0 < PartitionSize(st.slices, g) < WORD && g.sectors > 0
    requires Created(st, g, id, size, tag, on).0
    ensures var max := PartitionSize(st.slices, g);
      Orderly(Created(st, g, id, size, tag, on).1.slices, max)
      <==> Orderly(Rest(st, id), max) && (size == MAX_SIZE || !Misled(FreeFor(st, g, id), size, g))
  {
    var max := PartitionSize(st.slices, g);
    if Orderly(Rest(st, id), max) {
      var slice, run := CreateOutcome(st, g, id, size, tag, on);
      if size != MAX_SIZE {
        ShortRegionIffMisled(FreeFor(st, g, id), size, g);
      }
    } else {
      OverwrittenKeepsTidy(st, id);
      var slice := GrantedAdds(st, g, id, size, tag, on);
      var after := Created(st, g, id, size, tag, on).1.slices;
      if Orderly(after, max) {
        FewerSlicesOrderly(after, Rest(st, id), max);
      }
    }
  }

  // ---------------------------------------------------------------------
  // Runs.
  // ---------------------------------------------------------------------

  datatype Op =
    | Create(id: nat, size: nat, tag: Tag, on: OnExisting)
    | Delete(id: nat)
    | Preserve(id: nat)
    | Finalize(install: nat)
    | Invalidate

  function Applied(st: State, g: Geometry, op: Op): State
    requires |st.slices| == |st.edits| == NDKMAP && Callable(op)
  {
    match op
    case Create(id, size, tag, on) => Created(st, g, id, size, tag, on).1
    case Delete(id) => Deleted(st, id).1
    case Preserve(id) => Preserved(st, id).1
    case Finalize(install) => Finalized(st, g, install).1
    case Invalidate => st.(invalid := true)
  }

  // Deletion asserts that the slice number is in range.
  ghost predicate Callable(op: Op)
  {
    op.Delete? ==> op.id < NDKMAP
  }

  ghost predicate Sane(st: State)
  {
    Tidy(st.slices) && |st.edits| == NDKMAP
  }

  // The state after each call of a run.
  ghost predicate IsRun(g: Geometry, states: seq<State>, ops: seq<Op>)
  {
    && |states| == |ops| + 1
    && (forall i :: 0 <= i < |states| ==> |states[i].slices| == |states[i].edits| == NDKMAP)
    && (forall i :: 0 <= i < |ops| ==> Follows(g, states, ops, i))
  }

  ghost predicate Follows(g: Geometry, states: seq<State>, ops: seq<Op>, i: nat)
    requires i < |ops| < |states|
    requires forall i :: 0 <= i < |states| ==> |states[i].slices| == |states[i].edits| == NDKMAP
  {
    Callable(ops[i]) && states[i + 1] == Applied(states[i], g, ops[i])
  }

  // A slice that no call but an invalidation may take away.
  ghost predicate Protected(st: State, e: SliceInfo)
    requires |st.edits| == NDKMAP
  {
    && !st.invalid && e in LiveSet(st.slices)
    && e.id < NDKMAP && (Reserved(e.id) || st.edits[e.id].preserve)
  }

  lemma {:induction false} RefreshedSane(st: State)
    requires Sane(st)
    ensures Sane(Refreshed(st))
  {
  }

  lemma {:induction false} OverwrittenSane(st: State, id: nat, e: SliceInfo)
    requires Sane(st) && id < NDKMAP
    ensures Sane(Overwritten(st, id, 0))
    ensures LiveSet(Rest(st, id)) == Others(LiveSet(st.slices), id)
    ensures Protected(st, e) && e.id != id ==> Protected(Overwritten(st, id, 0), e)
  {
    OverwrittenKeepsTidy(st, id);
    OverwrittenIsRemoved(st, id, 0);
  }

  lemma {:induction false} GrantedSane(st: State, g: Geometry, id: nat, size: nat, tag: Tag, on: OnExisting,
      e: SliceInfo)
    requires Sane(st) && g.sectors > 0 && Grantable(st, id, on)
    ensures Sane(Created(st, g, id, size, tag, on).1)
    ensures Protected(st, e) ==> Protected(Created(st, g, id, size, tag, on).1, e)
  {
    OverwrittenSane(st, id, e);
    var slice := GrantedAdds(st, g, id, size, tag, on);
  }

  lemma {:induction false} CreatedSane(st0: State, g: Geometry, id: nat, size: nat, tag: Tag, on: OnExisting,
      e: SliceInfo)
    requires Sane(st0) && g.sectors > 0
    ensures Sane(Created(st0, g, id, size, tag, on).1)
    ensures Protected(st0, e) ==> Protected(Created(st0, g, id, size, tag, on).1, e)
  {
    var st := Refreshed(st0);
    RefreshedSane(st0);
    assert Created(st0, g, id, size, tag, on) == Created(st, g, id, size, tag, on);
    if Grantable(st, id, on) {
      GrantedSane(st, g, id, size, tag, on, e);
    } else {
      assert Created(st, g, id, size, tag, on).1 == st;
    }
  }

  lemma {:induction false} RemovedSane(st: State, id: nat, e: SliceInfo)
    requires Sane(st) && id < NDKMAP
    ensures Sane(RemovedState(st, id))
    ensures LiveSet(RemovedState(st, id).slices) == Others(LiveSet(st.slices), id)
    ensures Protected(st, e) && e.id != id ==> Protected(RemovedState(st, id), e)
  {
    WithoutKeepsTidy(st.slices, id);
  }

  // One round of the loop that drops slices.
  lemma {:induction false} KeptNext(st: State, id: nat) returns (next: State)
    requires |st.edits| == NDKMAP && id < NDKMAP
    ensures |next.edits| == NDKMAP && Kept(st, id) == Kept(next, id + 1)
    ensures || next == st
            || next == st.(whole := false)
            || (next == RemovedState(st, id) && !Reserved(id) && !st.edits[id].preserve && !st.edits[id].create)
  {
    if Reserved(id) || LiveFrom(st.slices, id, 0).None? {
      next := st;
    } else if st.edits[id].preserve {
      next := st.(whole := false);
    } else if st.edits[id].create {
      next := st;
    } else {
      next := RemovedState(st, id);
    }
  }

  lemma {:induction false} KeptSane(st: State, id: nat, e: SliceInfo)
    requires Sane(st) && id <= NDKMAP
    ensures Sane(Kept(st, id))
    ensures Protected(st, e) ==> Protected(Kept(st, id), e)
    decreases NDKMAP - id
  {
    if id < NDKMAP {
      var next := KeptNext(st, id);
      RemovedSane(st, id, e);
      KeptSane(next, id + 1, e);
    }
  }

  lemma {:induction false} ReadiedSane(st0: State, install: nat, e: SliceInfo)
    requires Sane(st0)
    ensures Sane(Readied(st0, install))
    ensures Protected(st0, e) ==> Protected(Readied(st0, install), e)
  {
    RefreshedSane(st0);
    KeptSane(Refreshed(st0), 0, e);
  }

  lemma {:induction false} StepSane(st: State, g: Geometry, op: Op, e: SliceInfo)
    requires Sane(st) && Callable(op) && g.sectors > 0
    ensures Sane(Applied(st, g, op))
    ensures Protected(st, e) && op != Invalidate ==> Protected(Applied(st, g, op), e)
  {
    match op
    case Create(id, size, tag, on) => CreatedSane(st, g, id, size, tag, on, e);
    case Delete(id) =>
      RefreshedSane(st);
      if Deleted(st, id).0 {
        RemovedSane(Refreshed(st), id, e);
      }
    case Preserve(id) =>
    case Finalize(install) =>
      ReadiedSane(st, install, e);
      CreatedSane(Readied(st, install), g, install, MAX_SIZE, Root, Error, e);
    case Invalidate =>
  }

  lemma {:induction false} RunStep(g: Geometry, states: seq<State>, ops: seq<Op>, i: nat, e: SliceInfo)
    requires IsRun(g, states, ops) && g.sectors > 0 && i < |ops| && Sane(states[i])
    ensures Sane(states[i + 1])
    ensures Protected(states[i], e) && ops[i] != Invalidate ==> Protected(states[i + 1], e)
  {
    assert Follows(g, states, ops, i);
    StepSane(states[i], g, ops[i], e);
  }

  // Over every run from a tidy table (one with nothing live, for instance),
  // live slices come first and no two have the same number, so a removal
  // always hits the live slice.
  lemma {:induction false} RunKeepsTidy(g: Geometry, states: seq<State>, ops: seq<Op>, n: nat)
    requires IsRun(g, states, ops) && g.sectors > 0 && Tidy(states[0].slices) && n < |states|
    ensures Sane(states[n])
  {
    if n > 0 {
      RunKeepsTidy(g, states, ops, n - 1);
      RunStep(g, states, ops, n - 1, BLANK);
    }
  }

  // A preserved or reserved slice keeps number, offset, size and tag, and the
  // preservation itself, through every call until slice information is
  // invalidated.
  lemma {:induction false} ProtectedSliceSurvives(g: Geometry, states: seq<State>, ops: seq<Op>, m: nat, n: nat,
      e: SliceInfo)
    requires IsRun(g, states, ops) && g.sectors > 0 && Tidy(states[0].slices) && m <= n < |states|
    requires Protected(states[m], e) && forall i :: m <= i < n ==> ops[i] != Invalidate
    ensures Protected(states[n], e)
  {
    if m < n {
      ProtectedSliceSurvives(g, states, ops, m, n - 1, e);
      RunKeepsTidy(g, states, ops, n - 1);
      RunStep(g, states, ops, n - 1, e);
    }
  }

  // ---------------------------------------------------------------------
  // Slices stay in order.
  // ---------------------------------------------------------------------

  ghost predicate Usable(g: Geometry)
  {
    0 < g.sectors < WORD && 0 < g.cylinder
  }

  ghost predicate InOrder(s: seq<SliceInfo>, g: Geometry)
  {
    Tidy(s) && PartitionSize(s, g) < WORD && Orderly(s, PartitionSize(s, g))
  }

  // Slices are in order, or all about to be dropped.
  ghost predicate Settled(st: State, g: Geometry)
  {
    Sane(st) && InOrder(Refreshed(st).slices, g)
  }

  lemma {:induction false} SameSlicesInOrder(s: seq<SliceInfo>, t: seq<SliceInfo>, g: Geometry, id: nat)
    requires InOrder(s, g) && Tidy(t) && !Reserved(id) && LiveSet(t) == Others(LiveSet(s), id)
    ensures InOrder(t, g) && PartitionSize(t, g) == PartitionSize(s, g)
  {
    SameSize(s, t, g);
    FewerSlicesOrderly(s, t, PartitionSize(s, g));
  }

  lemma {:induction false} GrantedInOrder(st: State, g: Geometry, id: nat, size: nat, tag: Tag, on: OnExisting)
    requires Usable(g) && Sane(st) && InOrder(st.slices, g) && Grantable(st, id, on)
    requires size == MAX_SIZE || !Misled(FreeFor(st, g, id), size, g)
    ensures InOrder(Created(st, g, id, size, tag, on).1.slices, g)
  {
    var (ok, after) := Created(st, g, id, size, tag, on);
    OverwrittenSane(st, id, BLANK);
    SameSlicesInOrder(st.slices, Rest(st, id), g, id);
    var slice, run := CreateOutcome(st, g, id, size, tag, on);
    if ok {
      CreateKeepsOrderIff(st, g, id, size, tag, on);
      SameSize(st.slices, after.slices, g);
    } else {
      SameSlicesInOrder(st.slices, after.slices, g, id);
    }
  }

  lemma {:induction false} KeptInOrder(st: State, g: Geometry, id: nat)
    requires Sane(st) && InOrder(st.slices, g) && id <= NDKMAP
    ensures InOrder(Kept(st, id).slices, g)
    decreases NDKMAP - id
  {
    if id < NDKMAP {
      var next := KeptNext(st, id);
      RemovedSane(st, id, BLANK);
      if !Reserved(id) {
        SameSlicesInOrder(st.slices, RemovedState(st, id).slices, g, id);
      }
      KeptInOrder(next, g, id + 1);
    }
  }

  // The search is not misled by its leniency in this call.
  ghost predicate NotMisled(st: State, g: Geometry, op: Op)
    requires |st.edits| == NDKMAP
  {
    op.Create? && op.size != MAX_SIZE && Grantable(Refreshed(st), op.id, op.on) ==>
      !Misled(FreeFor(Refreshed(st), g, op.id), op.size, g)
  }

  lemma {:induction false} CreateStaysSettled(st0: State, g: Geometry, id: nat, size: nat, tag: Tag, on: OnExisting)
    requires Usable(g) && Settled(st0, g) && NotMisled(st0, g, Create(id, size, tag, on))
    ensures Settled(Created(st0, g, id, size, tag, on).1, g)
  {
    var st := Refreshed(st0);
    CreatedSane(st0, g, id, size, tag, on, BLANK);
    assert Created(st0, g, id, size, tag, on) == Created(st, g, id, size, tag, on);
    if Grantable(st, id, on) {
      GrantedInOrder(st, g, id, size, tag, on);
    } else {
      assert Created(st, g, id, size, tag, on).1 == st;
    }
  }

  lemma {:induction false} InvalidateStaysSettled(st: State, g: Geometry)
    requires Usable(g) && Settled(st, g)
    ensures Settled(st.(invalid := true), g)
  {
    var s := ClearedSlices(st.slices);
    assert forall i :: 0 <= i < |s| ==> !s[i].Live();
    assert LiveFrom(s, 2, 0).None?;
  }

  lemma {:induction false} FinalizeStaysSettled(st0: State, g: Geometry, install: nat)
    requires Usable(g) && Settled(st0, g)
    ensures Settled(Finalized(st0, g, install).1, g)
  {
    var st := Readied(st0, install);
    RefreshedSane(st0);
    KeptInOrder(Refreshed(st0), g, 0);
    ReadiedSane(st0, install, BLANK);
    CreateStaysSettled(st, g, install, MAX_SIZE, Root, Error);
  }

  lemma {:induction false} StepStaysSettled(st: State, g: Geometry, op: Op)
    requires Usable(g) && Settled(st, g) && Callable(op) && NotMisled(st, g, op)
    ensures Settled(Applied(st, g, op), g)
  {
    match op
    case Create(id, size, tag, on) => CreateStaysSettled(st, g, id, size, tag, on);
    case Delete(id) =>
      if Deleted(st, id).0 {
        RefreshedSane(st);
        RemovedSane(Refreshed(st), id, BLANK);
        SameSlicesInOrder(Refreshed(st).slices, Deleted(st, id).1.slices, g, id);
      }
    case Preserve(id) =>
    case Finalize(install) => FinalizeStaysSettled(st, g, install);
    case Invalidate => InvalidateStaysSettled(st, g);
  }

  // A misled search succeeds and leaves the slices out of order.
  lemma {:induction false} MisledUnsettles(st0: State, g: Geometry, op: Op)
    requires Usable(g) && Settled(st0, g) && !NotMisled(st0, g, op)
    ensures !Settled(Applied(st0, g, op), g)
  {
    var st := Refreshed(st0);
    RefreshedSane(st0);
    MisledDisorders(st, g, op.id, op.size, op.tag, op.on);
    assert Applied(st0, g, op) == Created(st, g, op.id, op.size, op.tag, op.on).1;
  }

  lemma {:induction false} MisledDisorders(st: State, g: Geometry, id: nat, size: nat, tag: Tag, on: OnExisting)
    requires Usable(g) && Sane(st) && PartitionSize(st.slices, g) < WORD && Grantable(st, id, on)
    requires size != MAX_SIZE && Misled(FreeFor(st, g, id), size, g)
    ensures !InOrder(Created(st, g, id, size, tag, on).1.slices, g)
  {
    var free, after := FreeFor(st, g, id), Created(st, g, id, size, tag, on).1;
    var j :| 0 <= j < |free| && TooSmallButTaken(free, j, size, g);
    var k := GrantedResult(st, g, id, size, tag, on);
    CreateKeepsOrderIff(st, g, id, size, tag, on);
    OverwrittenSane(st, id, BLANK);
    var slice := GrantedAdds(st, g, id, size, tag, on);
    SameSize(st.slices, after.slices, g);
  }

  lemma {:induction false} StepSettledIff(st: State, g: Geometry, op: Op)
    requires Usable(g) && Settled(st, g) && Callable(op)
    ensures Settled(Applied(st, g, op), g) <==> NotMisled(st, g, op)
  {
    if NotMisled(st, g, op) {
      StepStaysSettled(st, g, op);
    } else {
      MisledUnsettles(st, g, op);
    }
  }

  lemma {:induction false} RunStepSettledIff(g: Geometry, states: seq<State>, ops: seq<Op>, i: nat)
    requires IsRun(g, states, ops) && Usable(g) && i < |ops| && Settled(states[i], g)
    ensures Settled(states[i + 1], g) <==> NotMisled(states[i], g, ops[i])
  {
    assert Follows(g, states, ops, i);
    StepSettledIff(states[i], g, ops[i]);
  }

  ghost predicate AllSettled(g: Geometry, states: seq<State>, n: nat)
    requires n <= |states|
  {
    forall i :: 0 <= i < n ==> Settled(states[i], g)
  }

  ghost predicate NeverMisled(g: Geometry, states: seq<State>, ops: seq<Op>, n: nat)
    requires n <= |states| && n <= |ops| && forall i :: 0 <= i < n ==> |states[i].edits| == NDKMAP
  {
    forall i :: 0 <= i < n ==> NotMisled(states[i], g, ops[i])
  }

  // Over every run, the slices stay inside the partition and apart at every
  // step exactly when no search is misled by its leniency.
  lemma {:induction false} RunKeepsOrderIff(g: Geometry, states: seq<State>, ops: seq<Op>, n: nat)
    requires IsRun(g, states, ops) && Usable(g) && Settled(states[0], g) && n < |states|
    ensures AllSettled(g, states, n + 1) <==> NeverMisled(g, states, ops, n)
  {
    if n > 0 {
      RunKeepsOrderIff(g, states, ops, n - 1);
      if Settled(states[n - 1], g) {
        RunStepSettledIff(g, states, ops, n - 1);
      }
    }
  }
}
