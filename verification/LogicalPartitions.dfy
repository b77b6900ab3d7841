// Automatic placement of logical partitions in the extended one.
module LogicalPartitions {
  import opened Wrappers
  import opened FreeSpace
  import opened FreeSpaceFacts
  import opened Partitions
  import opened PartitionFacts
  import opened PartitionContents

  // Entry e is the extended partition, and this is a request for a logical
  // one, placed automatically, that the table can hold.
  ghost predicate LogicalRequest(p: seq<Part>, e: nat, q: Request)
  {
    && Shape(p) && e < |p| && p[e].kind.Extended? && p[e].offset + p[e].size + LOGICAL_PARTITION_PAD < WORD
    && q.logical && !q.entire && q.offset == ANYWHERE && q.kind.Supported() && !q.kind.Extended?
    && !OffsetTaken(p, ANYWHERE) && q.size + LOGICAL_PARTITION_PAD < WORD
    && (exists i :: FD_NUMPART <= i < |p| && !p[i].Used())
    && forall i :: 0 <= i < |p| && !p[i].Used() ==> p[i].mb == 0
  }

  // The logical partitions that count as used.
  ghost predicate CountedLogical(p: seq<Part>, i: nat)
  {
    i < |p| && p[i].mb != 0 && p[i].id > FD_NUMPART
  }

  lemma {:induction false} TheExtended(p: seq<Part>, e: nat, lo: nat)
    requires Shape(p) && lo <= e < |p| && p[e].kind.Extended?
    ensures ExtendedFrom(p, lo) == Some(e)
    decreases |p| - lo
  {
    if lo < e {
      assert !p[lo].kind.Extended?;
      TheExtended(p, e, lo + 1);
    }
  }

  lemma {:induction false} NoneCounted(p: seq<Part>, n: nat)
    requires n <= |p| && forall i: nat :: i < n ==> !CountedLogical(p, i)
    ensures UsedSpace(p[..n], true) == []
  {
    if n == 0 {
      assert p[..0] == [];
    } else {
      NoneCounted(p, n - 1);
      UsedSpaceNext(p, n - 1, true);
      assert !CountedLogical(p, n - 1);
    }
  }

  lemma {:induction false} OneCounted(p: seq<Part>, j: nat, n: nat)
    requires j < n <= |p| && CountedLogical(p, j)
    requires forall i: nat :: i < n && i != j ==> !CountedLogical(p, i)
    ensures UsedSpace(p[..n], true) == [p[j].Sectors()]
  {
    UsedSpaceNext(p, n - 1, true);
    if n - 1 == j {
      NoneCounted(p, j);
    } else {
      assert !CountedLogical(p, n - 1);
      OneCounted(p, j, n - 1);
    }
  }

  // The first unused entry, and the table when it has been given an offset.
  lemma {:induction false} Entry(p: seq<Part>, e: nat, q: Request, o: nat) returns (k: nat, moved: seq<Part>)
    requires LogicalRequest(p, e, q)
    ensures SlotFor(p, true) == Some(k) && FirstUnused(p, true, k)
    ensures moved == p[k := p[k].(offset := o)] && |moved| == |p| && ExtendedFrom(moved, 0) == Some(e)
    ensures moved[e] == p[e] && forall i :: CountedLogical(moved, i) <==> CountedLogical(p, i)
    ensures forall i: nat :: CountedLogical(p, i) ==> moved[i] == p[i]
  {
    var i :| FD_NUMPART <= i < |p| && !p[i].Used();
    k := SlotFor(p, true).value;
    moved := p[k := p[k].(offset := o)];
    SetOffsetKeepsShape(p, k, o);
    assert p[e].Used();
    TheExtended(moved, e, 0);
  }

  // ---------------------------------------------------------------------
  // The first logical partition.
  // ---------------------------------------------------------------------

  // With no other one there, a request for n sectors is granted exactly when
  // they fit behind the padding, and the largest size always; it is placed
  // right behind the padding, and the largest size ends with the extended
  // partition exactly when that is no smaller than the padding.
  lemma {:induction false} FirstLogical(p: seq<Part>, disk: Disk, q: Request, e: nat) returns (k: nat)
    requires LogicalRequest(p, e, q) && forall i: nat :: !CountedLogical(p, i)
    ensures FirstUnused(p, true, k)
    ensures var (ok, after) := Created(p, disk, q);
      && (ok <==> q.size == MAX_SIZE || LOGICAL_PARTITION_PAD + q.size <= p[e].size)
      && (ok ==> after[k].offset == p[e].offset + LOGICAL_PARTITION_PAD)
      && (ok && q.size != MAX_SIZE ==> after[k].size == q.size)
      && (ok && q.size == MAX_SIZE ==>
            (after[k].offset + after[k].size == p[e].offset + p[e].size <==> p[e].size >= LOGICAL_PARTITION_PAD))
  {
    NoneCounted(p, |p|);
    assert p[..|p|] == p;
    LogicalTable([], p[e].offset, p[e].size, OM_NUMPART + 1);
    k := OneRegionLeft(p, disk, q, e, [], p[e].Sectors());
  }

  lemma {:induction false} ChosenLeft(p: seq<Part>, disk: Disk, size: nat, e: nat, r: Region)
    requires ExtendedFrom(p, 0) == Some(e) && size + LOGICAL_PARTITION_PAD < WORD
    requires Table(Sort(UsedSpace(p, true)), p[e].offset, p[e].size, true, OM_NUMPART + 1) == (true, [r])
    requires r.offset + LOGICAL_PARTITION_PAD < WORD
    ensures FreeSpaceOf(p, disk, true).0
    ensures Chosen(p, disk, size, true)
      == if size == MAX_SIZE || LOGICAL_PARTITION_PAD + size <= r.size
         then Some(Region(r.offset + LOGICAL_PARTITION_PAD, Wrap(r.size - LOGICAL_PARTITION_PAD))) else None
  {
    OneRegion(r, size + LOGICAL_PARTITION_PAD);
  }

  // When a single region is left, that is where the partition goes.
  lemma {:induction false} OneRegionLeft(p: seq<Part>, disk: Disk, q: Request, e: nat, used: seq<Region>, r: Region)
    returns (k: nat)
    requires LogicalRequest(p, e, q) && UsedSpace(p, true) == used
    requires Table(Sort(used), p[e].offset, p[e].size, true, OM_NUMPART + 1) == (true, [r])
    requires r.offset + LOGICAL_PARTITION_PAD < WORD
    ensures FirstUnused(p, true, k)
    ensures var (ok, after) := Created(p, disk, q);
      && (ok <==> q.size == MAX_SIZE || LOGICAL_PARTITION_PAD + q.size <= r.size)
      && (ok ==> after[k].offset == r.offset + LOGICAL_PARTITION_PAD)
      && (ok ==> after[k].size == if q.size == MAX_SIZE then Wrap(r.size - LOGICAL_PARTITION_PAD) else q.size)
  {
    TheExtended(p, e, 0);
    ChosenLeft(p, disk, q.size, e, r);
    var moved: seq<Part>;
    k, moved := Entry(p, e, q, r.offset + LOGICAL_PARTITION_PAD);
    SameUsed(p, moved, |p|);
    assert p[..|p|] == p && moved[..|p|] == moved;
    ChosenLeft(moved, disk, q.size, e, r);
  }

  lemma {:induction false} SameUsed(p: seq<Part>, moved: seq<Part>, n: nat)
    requires n <= |p| == |moved| && forall i: nat :: CountedLogical(moved, i) <==> CountedLogical(p, i)
    requires forall i: nat :: CountedLogical(p, i) ==> moved[i] == p[i]
    ensures UsedSpace(moved[..n], true) == UsedSpace(p[..n], true)
  {
    if n == 0 {
      assert p[..0] == [] && moved[..0] == [];
    } else {
      SameUsed(p, moved, n - 1);
      UsedSpaceNext(p, n - 1, true);
      UsedSpaceNext(moved, n - 1, true);
      assert CountedLogical(moved, n - 1) <==> CountedLogical(p, n - 1);
    }
  }

  // Searching a single region.
  lemma {:induction false} OneRegion(r: Region, size: nat)
    ensures Largest([r]) == Some(0)
    ensures BestFit([r], size) == if r.size >= size then Some(0) else None
  {
    assert [r][..0] == [];
  }

  // ---------------------------------------------------------------------
  // The second logical partition.
  // ---------------------------------------------------------------------

  // Sectors the free-space table counts after the first logical partition,
  // which ends at sector `end`.
  ghost function CountedAfter(end: nat, size: nat): nat
    requires end < WORD
  {
    if end <= size then size - end else WORD + size - end
  }

  // There is one logical partition, right behind the padding, within the
  // extended one.
  ghost predicate OneLogical(p: seq<Part>, e: nat, j: nat)
  {
    && CountedLogical(p, j) && e < |p| && (forall i: nat :: i != j ==> !CountedLogical(p, i))
    && p[j].offset == p[e].offset + LOGICAL_PARTITION_PAD && p[j].size > 0
    && p[j].offset + p[j].size <= p[e].offset + p[e].size
  }

  // A second request goes behind the first logical partition, but whether it
  // is granted is decided by comparing its size with the sectors that are
  // counted there, not with those that are left.
  lemma {:induction false} SecondLogical(p: seq<Part>, disk: Disk, q: Request, e: nat, j: nat) returns (k: nat)
    requires LogicalRequest(p, e, q) && OneLogical(p, e, j) && p[j].offset + p[j].size != p[e].size
    ensures FirstUnused(p, true, k)
    ensures var (ok, after) := Created(p, disk, q);
      var end := p[j].offset + p[j].size;
      && (ok <==> q.size == MAX_SIZE || LOGICAL_PARTITION_PAD + q.size <= CountedAfter(end, p[e].size))
      && (ok ==> after[k].offset == end + LOGICAL_PARTITION_PAD)
      && (ok && q.size != MAX_SIZE ==> after[k].size == q.size)
  {
    var end := p[j].offset + p[j].size;
    OneLogicalTable(p, e, j);
    k := OneRegionLeft(p, disk, q, e, [p[j].Sectors()], Region(end, CountedAfter(end, p[e].size)));
  }

  lemma {:induction false} OneLogicalTable(p: seq<Part>, e: nat, j: nat)
    requires OneLogical(p, e, j) && p[e].offset + p[e].size + LOGICAL_PARTITION_PAD < WORD
    requires p[j].offset + p[j].size != p[e].size
    ensures var end := p[j].offset + p[j].size;
      && UsedSpace(p, true) == [p[j].Sectors()]
      && Table(Sort([p[j].Sectors()]), p[e].offset, p[e].size, true, OM_NUMPART + 1)
         == (true, [Region(end, CountedAfter(end, p[e].size))])
  {
    OneCounted(p, j, |p|);
    assert p[..|p|] == p;
    SortOne(p[j].Sectors());
    OneUsedTable(p[j].Sectors(), p[e].offset, p[e].size);
  }

  lemma {:induction false} OneUsedTable(r: Region, start: nat, max: nat)
    requires r.offset == start + LOGICAL_PARTITION_PAD < WORD && max < WORD
    requires r.offset + r.size < WORD && r.offset + r.size != max
    ensures Table([r], start, max, true, OM_NUMPART + 1)
      == (true, [Region(r.offset + r.size, CountedAfter(r.offset + r.size, max))])
  {
    var end := r.offset + r.size;
    assert Wrap(max - end) == CountedAfter(end, max);
    assert [] + [Region(end, CountedAfter(end, max))] == [Region(end, CountedAfter(end, max))];
  }

  lemma {:induction false} SortOne(r: Region)
    ensures Sort([r]) == [r]
  {
    assert [r][..0] == [];
  }

  // What is left behind the first logical partition.
  ghost predicate Left(p: seq<Part>, e: nat, j: nat, n: nat)
    requires e < |p| && j < |p|
  {
    p[j].offset + p[j].size + LOGICAL_PARTITION_PAD + n <= p[e].offset + p[e].size
  }

  // A second request of n sectors is granted.
  ghost predicate Grants(p: seq<Part>, disk: Disk, q: Request, n: nat)
    requires |p| == OM_NUMPART
  {
    Created(p, disk, q.(size := n)).0
  }

  // For every size asked for it is granted exactly when it fits, if and only
  // if the extended partition starts at sector 0; or the first one ends
  // before the sector whose number is the size of the extended one, and there
  // is no room for another one anyway.
  lemma {:induction false} SecondLogicalRightIff(p: seq<Part>, disk: Disk, q: Request, e: nat, j: nat)
    requires LogicalRequest(p, e, q) && OneLogical(p, e, j) && p[j].offset + p[j].size != p[e].size
    ensures (forall n: nat :: 0 < n < WORD - LOGICAL_PARTITION_PAD ==> (Grants(p, disk, q, n) <==> Left(p, e, j, n)))
      <==> p[j].offset + p[j].size <= p[e].size && (p[e].offset == 0 || !Left(p, e, j, 1))
  {
    var end, s, x := p[j].offset + p[j].size, p[e].offset, p[e].size;
    forall n: nat | 0 < n < WORD - LOGICAL_PARTITION_PAD
      ensures Grants(p, disk, q, n) <==> LOGICAL_PARTITION_PAD + n <= CountedAfter(end, x)
    {
      var k := SecondLogical(p, disk, q.(size := n), e, j);
    }
    var n := if end <= x then x - end + s - LOGICAL_PARTITION_PAD else s + x - end + 1;
    if n > 0 {
      assert Grants(p, disk, q, n) <==> LOGICAL_PARTITION_PAD + n <= CountedAfter(end, x);
    }
  }
}
