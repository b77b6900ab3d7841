// What a few calls on an empty slice table lead to once a request is met with
// a region smaller than itself.
module SliceOverruns {
  import opened Wrappers
  import opened FreeSpace
  import opened FreeSpaceFacts
  import opened Slices
  import opened SliceFacts
  import opened SliceRuns
  import opened SliceFinalize

  // A table of these slices followed by empty entries.
  function Listed(es: seq<SliceInfo>): (s: seq<SliceInfo>)
    requires |es| <= NDKMAP
    ensures |s| == NDKMAP && s[..|es|] == es && forall i :: |es| <= i < NDKMAP ==> s[i] == BLANK
  {
    es + seq(NDKMAP - |es|, _ => BLANK)
  }

  lemma {:induction false} BlanksUseNothing(s: seq<SliceInfo>, n: nat, m: nat)
    requires n <= m <= |s| && forall i :: n <= i < m ==> s[i] == BLANK
    ensures UsedSpace(s[..m]) == UsedSpace(s[..n])
    decreases m - n
  {
    if n < m {
      BlanksUseNothing(s, n, m - 1);
      UsedSpaceNext(s, m - 1);
    }
  }

  // Slices that can be told apart; none of them is number 2.
  ghost predicate Plain(es: seq<SliceInfo>)
  {
    |es| < NDKMAP && forall i :: 0 <= i < |es| ==> es[i].Counted()
  }

  // The free table depends on the slices listed only.
  lemma {:induction false} ListedFreeSpace(es: seq<SliceInfo>, g: Geometry)
    requires Plain(es)
    ensures PartitionSize(Listed(es), g) == g.sectors
    ensures FreeSpaceOf(Listed(es), g) == Table(Sort(UsedSpace(es)), 0, g.sectors, false, NDKMAP)
  {
    var s := Listed(es);
    BlanksUseNothing(s, |es|, NDKMAP);
    assert s[..NDKMAP] == s;
    assert forall i :: 0 <= i < |es| ==> s[i] == es[i];
  }

  lemma {:induction false} ListedEntries(es: seq<SliceInfo>, id: nat)
    requires Plain(es) && forall i :: 0 <= i < |es| ==> es[i].id != id
    ensures LiveFrom(Listed(es), id, 0).None? && EmptyFrom(Listed(es), 0) == Some(|es|)
  {
    var s := Listed(es);
    assert forall i :: 0 <= i < |es| ==> s[i] == es[i];
    assert !s[|es|].Live();
  }

  lemma {:induction false} ListedNext(es: seq<SliceInfo>, e: SliceInfo)
    requires |es| < NDKMAP
    ensures Listed(es)[|es| := e] == Listed(es + [e])
  {
  }

  // A table of these slices and no others, none of them preserved.
  ghost predicate Holds(st: State, es: seq<SliceInfo>)
  {
    && |es| <= NDKMAP && st.slices == Listed(es)
    && |st.edits| == NDKMAP && !st.invalid
    && forall i :: 0 <= i < NDKMAP ==> !st.edits[i].preserve
  }

  // The editor starts with an empty table.
  lemma {:induction false} EditorStartsEmpty()
    ensures Holds(State(seq(NDKMAP, _ => BLANK), seq(NDKMAP, _ => NO_EDIT), true, false), [])
  {
    assert [] + seq(NDKMAP, _ => BLANK) == seq(NDKMAP, _ => BLANK);
  }

  lemma {:induction false} CreatedInEmpty(st: State, g: Geometry, id: nat, size: nat, tag: Tag, k: nat, r: Region)
    requires |st.slices| == |st.edits| == NDKMAP && Grantable(st, id, Error) && LiveFrom(st.slices, id, 0).None?
    requires EmptyFrom(st.slices, 0) == Some(k) && Chosen(st.slices, g, size) == Some(r)
    ensures Created(st, g, id, size, tag, Error) == (true, Filled(st, id, size, tag, k, r))
  {
    OverwrittenUnchanged(st, id, 0);
  }

  // A new slice goes behind those listed.
  lemma {:induction false} CreateListed(st: State, es: seq<SliceInfo>, g: Geometry, id: nat, size: nat, tag: Tag,
      r: Region) returns (after: State)
    requires Plain(es) && Holds(st, es)
    requires id < NDKMAP && !Reserved(id) && forall i :: 0 <= i < |es| ==> es[i].id != id
    requires Chosen(Listed(es), g, size) == Some(r) && (tag.Root? || tag.Unassigned?)
    ensures Created(st, g, id, size, tag, Error) == (true, after) && (size != MAX_SIZE ==> !after.whole)
    ensures Holds(after, es + [SliceInfo(id, if size == MAX_SIZE then r.size else size, r.offset, tag)])
  {
    ListedEntries(es, id);
    CreatedInEmpty(st, g, id, size, tag, |es|, r);
    after := Filled(st, id, size, tag, |es|, r);
    ListedNext(es, SliceInfo(id, if size == MAX_SIZE then r.size else size, r.offset, tag));
  }

  lemma {:induction false} OneUsed(e: SliceInfo)
    requires e.Counted()
    ensures UsedSpace([e]) == [e.Sectors()] && Sort(UsedSpace([e])) == [e.Sectors()]
  {
    var r := e.Sectors();
    assert [e][..0] == [] && [r][..0] == [];
    assert UsedSpace([]) == [] && Sort([]) == [];
    assert UsedSpace([e]) == [] + [r] == [r];
    assert Insert([], r) == [r];
  }

  // The free regions around a single slice.
  lemma {:induction false} OneSliceFree(e: SliceInfo, g: Geometry, to: nat)
    requires e.Counted() && e.offset + e.size < WORD && 0 < g.sectors < WORD
    requires to == if e.offset + e.size <= g.sectors then g.sectors else WORD + g.sectors
    ensures FreeSpaceOf(Listed([e]), g) == (true, Between(0, e.offset) + Between(e.offset + e.size, to))
  {
    ListedFreeSpace([e], g);
    OneUsed(e);
    OneGap(Sort(UsedSpace([e])), e.Sectors(), g.sectors, to);
  }

  lemma {:induction false} OneGap(used: seq<Region>, r: Region, max: nat, to: nat)
    requires used == [r] && r.size > 0 && r.offset + r.size < WORD && 0 < max < WORD
    requires to == if r.offset + r.size <= max then max else WORD + max
    ensures Table(used, 0, max, false, NDKMAP) == (true, Between(0, r.offset) + Between(r.offset + r.size, to))
  {
    LastReaches(used, max);
    TableIsGaps(used, max, NDKMAP, to);
    GapsFirst(used, 0, to);
    GapsFirst(used[1..], r.offset + r.size, to);
  }

  lemma {:induction false} NothingFree(g: Geometry)
    requires 0 < g.sectors < WORD
    ensures FreeSpaceOf(Listed([]), g) == (true, [Region(0, g.sectors)])
  {
    ListedFreeSpace([], g);
    assert Sort(UsedSpace([])) == [];
    assert Appended([], Region(0, g.sectors), NDKMAP) == [Region(0, g.sectors)];
  }

  lemma {:induction false} OnlyFit(r: Region, size: nat)
    requires r.size >= size
    ensures BestFit([r], size) == Some(0) && Largest([r]) == Some(0)
  {
    assert [r][..0] == [];
  }

  // Asking, as slice `id`, for a whole partition and up to a cylinder more.
  ghost predicate Overrun(st: State, g: Geometry, id: nat, size: nat)
  {
    && Holds(st, []) && Usable(g) && id < NDKMAP && !Reserved(id)
    && g.sectors < size <= g.sectors + g.cylinder && g.cylinder < size < WORD
  }

  // It is granted.
  lemma {:induction false} AfterOverrun(st: State, g: Geometry, id: nat, size: nat) returns (one: State)
    requires Overrun(st, g, id, size)
    ensures Created(st, g, id, size, Unassigned, Error) == (true, one)
    ensures Holds(one, [SliceInfo(id, size, 0, Unassigned)]) && !one.whole
  {
    NothingFree(g);
    OnlyFit(Region(0, g.sectors), size - g.cylinder);
    one := CreateListed(st, [], g, id, size, Unassigned, Region(0, g.sectors));
    assert [] + [SliceInfo(id, size, 0, Unassigned)] == [SliceInfo(id, size, 0, Unassigned)];
  }

  // The sectors left are counted from past the end.
  lemma {:induction false} FreeAfterOverrun(g: Geometry, e: SliceInfo)
    requires Usable(g) && e.Counted() && e.id < NDKMAP && e.offset == 0 && g.sectors < e.size < WORD
    ensures FreeSpaceOf(Listed([e]), g) == (true, [Region(e.size, WORD + g.sectors - e.size)])
    ensures Tidy(Listed([e])) && PartitionSize(Listed([e]), g) == g.sectors
    ensures Measured(Listed([e])) && !WithinDisk(Listed([e]), g.sectors)
  {
    var s := Listed([e]);
    OneSliceFree(e, g, WORD + g.sectors);
    assert Between(0, 0) + Between(e.size, WORD + g.sectors) == [Region(e.size, WORD + g.sectors - e.size)];
    ListedFreeSpace([e], g);
    assert s[0] == e && CountedAt(s, 0);
    assert forall i :: 1 <= i < NDKMAP ==> s[i] == BLANK;
  }

  // Nothing notices that the slice ends past the partition (asked for with
  // 1000 of 995 sectors and cylinders of 10, say).  As many sectors as an
  // unsigned number holds are granted after it ...
  lemma {:induction false} OverrunGoesUnnoticed(st: State, g: Geometry, id: nat, size: nat, next: nat, more: nat)
    returns (one: State, two: State)
    requires Overrun(st, g, id, size) && next < NDKMAP && !Reserved(next) && next != id
    requires more > 0 && Lenient(more, g) <= WORD + g.sectors - size
    ensures Created(st, g, id, size, Unassigned, Error) == (true, one) && !InOrder(one.slices, g)
    ensures Created(one, g, next, more, Unassigned, Error) == (true, two)
    ensures Holds(two, [SliceInfo(id, size, 0, Unassigned), SliceInfo(next, more, size, Unassigned)])
  {
    var e := SliceInfo(id, size, 0, Unassigned);
    one := AfterOverrun(st, g, id, size);
    FreeAfterOverrun(g, e);
    OnlyFit(Region(size, WORD + g.sectors - size), Lenient(more, g));
    two := CreateListed(one, [e], g, next, more, Unassigned, Region(size, WORD + g.sectors - size));
    assert [e] + [SliceInfo(next, more, size, Unassigned)] == [e, SliceInfo(next, more, size, Unassigned)];
  }

  // ... and finalizing succeeds, with an install slice of almost 2^64 sectors.
  lemma {:induction false} OverrunIsFinalized(st: State, g: Geometry, id: nat, size: nat, install: nat)
    returns (one: State, written: State)
    requires Overrun(st, g, id, size) && install < NDKMAP && !Reserved(install) && install != id
    ensures Created(st, g, id, size, Unassigned, Error) == (true, one)
    ensures Finalized(one, g, install) == (true, written)
    ensures written.slices[1] == SliceInfo(install, WORD + g.sectors - size, size, Root)
  {
    one := AfterOverrun(st, g, id, size);
    var ready := Readied(one, install);
    written := InstallAfterOverrun(ready, g, SliceInfo(id, size, 0, Unassigned), install);
  }

  lemma {:induction false} InstallAfterOverrun(st: State, g: Geometry, e: SliceInfo, install: nat)
    returns (written: State)
    requires Holds(st, [e]) && !st.whole && install < NDKMAP && !Reserved(install) && install != e.id
    requires Usable(g) && e.Counted() && e.id < NDKMAP && e.offset == 0 && g.sectors < e.size < WORD
    ensures Created(st, g, install, MAX_SIZE, Root, Error) == (true, written)
    ensures LiveFrom(st.slices, install, 0).None? && FreeSpaceOf(written.slices, g).0
    ensures written.slices[1] == SliceInfo(install, WORD + g.sectors - e.size, e.size, Root)
  {
    var r := Region(e.size, WORD + g.sectors - e.size);
    FreeAfterOverrun(g, e);
    OnlyFit(r, 0);
    ListedEntries([e], install);
    written := CreateListed(st, [e], g, install, MAX_SIZE, Root, r);
    InstallSlicePasses(st, g, install);
  }

  // ---------------------------------------------------------------------
  // An end past the unsigned range.
  // ---------------------------------------------------------------------

  lemma {:induction false} TwoUsed(a: SliceInfo, b: SliceInfo)
    requires a.Counted() && b.Counted() && a.offset <= b.offset
    ensures Sort(UsedSpace([a, b])) == [a.Sectors(), b.Sectors()]
  {
    assert [a, b][..1] == [a];
    OneUsed(a);
    UsedSpaceNext([a, b], 1);
    assert [a, b][..2] == [a, b];
    SortNext([a.Sectors()], b.Sectors());
    assert Insert([a.Sectors()], b.Sectors()) == [a.Sectors(), b.Sectors()];
  }

  // A slice from 0 on and one behind it whose end wraps around: the sectors
  // from the wrapped end on count as free.
  lemma {:induction false} FreeAfterWrap(g: Geometry, a: SliceInfo, b: SliceInfo)
    requires a.Counted() && b.Counted() && a.offset == 0 && a.size == b.offset < WORD && b.size < WORD
    requires WORD <= b.offset + b.size < WORD + g.sectors && g.sectors < WORD
    ensures var end := b.offset + b.size - WORD;
      FreeSpaceOf(Listed([a, b]), g) == (true, [Region(end, g.sectors - end)])
  {
    var s, end := [a.Sectors(), b.Sectors()], b.offset + b.size - WORD;
    ListedFreeSpace([a, b], g);
    TwoUsed(a, b);
    assert s[1].End() == end && Wrap(g.sectors - end) == g.sectors - end;
    assert FirstGap(s, 0, false, NDKMAP) == [];
    assert Scan(s, 0, g.sectors, NDKMAP, []) == Scan(s, 1, g.sectors, NDKMAP, []);
    assert AppendedGap([], end, g.sectors - end, NDKMAP) == [Region(end, g.sectors - end)];
  }

  // Once a second request takes the end past the unsigned range, a third is
  // granted sectors of the first slice.
  lemma {:induction false} WrappedEndOverlaps(st: State, g: Geometry, id: nat, size: nat, next: nat, more: nat,
      third: nat, want: nat) returns (one: State, two: State, three: State)
    requires Overrun(st, g, id, size) && next < NDKMAP && !Reserved(next) && next != id
    requires more < WORD && Lenient(more, g) <= WORD + g.sectors - size && WORD <= size + more < WORD + g.sectors
    requires third < NDKMAP && !Reserved(third) && third != id && third != next
    requires want > 0 && Lenient(want, g) <= WORD + g.sectors - (size + more)
    ensures Created(st, g, id, size, Unassigned, Error) == (true, one)
    ensures Created(one, g, next, more, Unassigned, Error) == (true, two)
    ensures Created(two, g, third, want, Unassigned, Error) == (true, three)
    ensures NoOverlap(two.slices) && !NoOverlap(three.slices)
  {
    var a, b := SliceInfo(id, size, 0, Unassigned), SliceInfo(next, more, size, Unassigned);
    one, two := OverrunGoesUnnoticed(st, g, id, size, next, more);
    three := ThirdOverlaps(two, g, a, b, third, want, size + more - WORD);
  }

  lemma {:induction false} ThirdOverlaps(two: State, g: Geometry, a: SliceInfo, b: SliceInfo, id: nat, want: nat,
      end: nat) returns (three: State)
    requires Holds(two, [a, b]) && a.Counted() && b.Counted() && a.offset == 0 && a.size == b.offset < WORD
    requires b.size < WORD && b.offset + b.size == WORD + end && end < g.sectors < WORD && g.sectors < a.size
    requires id < NDKMAP && !Reserved(id) && id != a.id && id != b.id
    requires want > 0 && Lenient(want, g) <= g.sectors - end
    ensures Created(two, g, id, want, Unassigned, Error) == (true, three)
    ensures NoOverlap(two.slices) && !NoOverlap(three.slices)
  {
    var r := Region(end, g.sectors - end);
    FreeAfterWrap(g, a, b);
    OnlyFit(r, Lenient(want, g));
    three := CreateListed(two, [a, b], g, id, want, Unassigned, r);
    WhoOverlaps(two.slices, three.slices, a, b, SliceInfo(id, want, end, Unassigned));
  }

  lemma {:induction false} WhoOverlaps(two: seq<SliceInfo>, three: seq<SliceInfo>, a: SliceInfo, b: SliceInfo,
      c: SliceInfo)
    requires two == Listed([a, b]) && three == Listed([a, b] + [c])
    requires a.Counted() && b.Counted() && c.Counted()
    requires Apart(a.Sectors(), b.Sectors()) && !Apart(a.Sectors(), c.Sectors())
    ensures NoOverlap(two) && !NoOverlap(three)
  {
    assert two[..2] == [a, b] && forall i :: 2 <= i < NDKMAP ==> two[i] == BLANK;
    assert two[0] == a && two[1] == b;
    assert three[..3] == [a, b] + [c];
    assert three[0] == three[..3][0] == a && three[2] == three[..3][2] == c;
    assert CountedAt(three, 0) && CountedAt(three, 2);
  }

  // ---------------------------------------------------------------------
  // A fitting region passed over.
  // ---------------------------------------------------------------------

  // Two slices are created from 0 on and the first is deleted: `gap` sectors
  // are free before the other one.
  lemma {:induction false} GapBefore(st: State, g: Geometry, first: nat, gap: nat, id: nat, n: nat)
    returns (one: State, two: State, three: State)
    requires Holds(st, []) && Usable(g) && first < NDKMAP && !Reserved(first)
    requires id < NDKMAP && !Reserved(id) && id != first && 0 < gap && 0 < n && gap + n <= g.sectors
    ensures Created(st, g, first, gap, Unassigned, Error) == (true, one)
    ensures Created(one, g, id, n, Unassigned, Error) == (true, two)
    ensures Deleted(two, first) == (true, three) && Holds(three, [SliceInfo(id, n, gap, Unassigned)])
  {
    var a, b := SliceInfo(first, gap, 0, Unassigned), SliceInfo(id, n, gap, Unassigned);
    NothingFree(g);
    OnlyFit(Region(0, g.sectors), Lenient(gap, g));
    one := CreateListed(st, [], g, first, gap, Unassigned, Region(0, g.sectors));
    assert [] + [a] == [a];
    two := CreateBehind(one, g, a, id, n);
    three := DeleteFirst(two, a, b);
  }

  lemma {:induction false} CreateBehind(st: State, g: Geometry, a: SliceInfo, id: nat, n: nat) returns (after: State)
    requires Holds(st, [a]) && Usable(g) && a.Counted() && a.offset == 0
    requires id < NDKMAP && !Reserved(id) && id != a.id && n > 0 && a.size + n <= g.sectors
    ensures Created(st, g, id, n, Unassigned, Error) == (true, after)
    ensures Holds(after, [a, SliceInfo(id, n, a.size, Unassigned)])
  {
    var r := Region(a.size, g.sectors - a.size);
    OneSliceFree(a, g, g.sectors);
    assert Between(0, 0) + Between(a.size, g.sectors) == [r];
    OnlyFit(r, Lenient(n, g));
    after := CreateListed(st, [a], g, id, n, Unassigned, r);
    assert [a] + [SliceInfo(id, n, a.size, Unassigned)] == [a, SliceInfo(id, n, a.size, Unassigned)];
  }

  lemma {:induction false} DeleteFirst(st: State, a: SliceInfo, b: SliceInfo) returns (after: State)
    requires Holds(st, [a, b]) && a.Counted() && a.id < NDKMAP
    ensures Deleted(st, a.id) == (true, after) && Holds(after, [b])
  {
    var s := st.slices;
    assert s[..2] == [a, b] && s[0] == s[..2][0];
    assert EntryFrom(s, a.id, 0) == Some(0);
    assert s[..0] + s[1..] + [BLANK] == Listed([b]);
    after := Deleted(st, a.id).1;
  }

  // The free regions before and behind that slice: the first is taken for a
  // request of up to a cylinder more although the second has room for all of
  // it.
  lemma {:induction false} LenientSearchOverruns(st: State, g: Geometry, e: SliceInfo, id: nat, size: nat)
    returns (after: State)
    requires Holds(st, [e]) && Usable(g) && e.Counted() && e.id < NDKMAP && e.offset > 0
    requires id < NDKMAP && !Reserved(id) && id != e.id
    requires Lenient(size, g) <= e.offset < size && e.offset + e.size + size <= g.sectors
    ensures InOrder(st.slices, g) && Free(st.slices, g.sectors, e.offset + e.size, size)
    ensures Created(st, g, id, size, Unassigned, Error) == (true, after)
    ensures after.slices[1] == SliceInfo(id, size, 0, Unassigned) && !NoOverlap(after.slices)
  {
    var end := e.offset + e.size;
    var free := [Region(0, e.offset), Region(end, g.sectors - end)];
    OneSliceFree(e, g, g.sectors);
    OneSliceInOrder(e, g, size);
    assert Between(0, e.offset) + Between(end, g.sectors) == free;
    assert free[..1] == [free[0]];
    OnlyFit(free[0], Lenient(size, g));
    after := CreateListed(st, [e], g, id, size, Unassigned, Region(0, e.offset));
    var c := SliceInfo(id, size, 0, Unassigned);
    assert after.slices[..2] == [e] + [c];
    assert after.slices[0] == after.slices[..2][0] == e && after.slices[1] == after.slices[..2][1] == c;
    assert CountedAt(after.slices, 0) && CountedAt(after.slices, 1);
  }

  lemma {:induction false} OneSliceInOrder(e: SliceInfo, g: Geometry, n: nat)
    requires e.Counted() && e.id < NDKMAP && e.offset + e.size + n <= g.sectors < WORD
    ensures InOrder(Listed([e]), g) && Free(Listed([e]), g.sectors, e.offset + e.size, n)
  {
    var s := Listed([e]);
    ListedFreeSpace([e], g);
    assert s[0] == e && forall i :: 1 <= i < NDKMAP ==> s[i] == BLANK;
  }
}
