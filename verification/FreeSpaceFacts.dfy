// What the free-space tables mean.
module FreeSpaceFacts {
  import opened FreeSpace

  ghost predicate In(x: int, r: Region)
  {
    r.offset <= x < r.offset + r.size
  }

  // Sector x belongs to one of the regions.
  ghost predicate Covered(s: seq<Region>, x: int)
  {
    exists i :: 0 <= i < |s| && In(x, s[i])
  }

  ghost predicate Apart(a: Region, b: Region)
  {
    a.offset + a.size <= b.offset || b.offset + b.size <= a.offset
  }

  ghost predicate Disjoint(s: seq<Region>)
  {
    forall i, j :: 0 <= i < j < |s| ==> Apart(s[i], s[j])
  }

  // Every region is non-empty and ends within the first `max` sectors.
  ghost predicate Inside(s: seq<Region>, max: nat)
  {
    forall i :: 0 <= i < |s| ==> s[i].size > 0 && s[i].offset + s[i].size <= max
  }

  ghost predicate NextApart(s: seq<Region>)
  {
    forall i :: 0 <= i < |s| - 1 ==> s[i].offset + s[i].size <= s[i + 1].offset
  }

  // In sorted order, no overlap between neighbours means no overlap at all.
  lemma {:induction false} NeighboursSuffice(s: seq<Region>, i: nat, j: nat)
    requires NextApart(s) && i < j < |s|
    ensures s[i].offset + s[i].size <= s[j].offset
    decreases j - i
  {
    if i + 1 < j {
      NeighboursSuffice(s, i, j - 1);
      assert s[j - 1].offset + s[j - 1].size <= s[j - 1 + 1].offset;
    }
  }

  lemma {:induction false} NextApartIsDisjoint(s: seq<Region>, max: nat)
    requires Sorted(s) && Inside(s, max)
    ensures NextApart(s) <==> Disjoint(s)
  {
    if NextApart(s) {
      forall i, j | 0 <= i < j < |s|
        ensures Apart(s[i], s[j])
      {
        NeighboursSuffice(s, i, j);
      }
    }
    if Disjoint(s) {
      forall i | 0 <= i < |s| - 1
        ensures s[i].offset + s[i].size <= s[i + 1].offset
      {
        assert Apart(s[i], s[i + 1]);
      }
    }
  }

  // Where the free table takes the disk to end.  Once a used region reaches
  // past the end, the subtraction after the last one wraps around.
  ghost function Reach(s: seq<Region>, max: nat): (end: nat)
    ensures Inside(s, WORD - 1) && max < WORD ==> Inside(s, end)
  {
    if Inside(s, max) then max else WORD + max
  }

  // In sorted order the last region decides whether all are inside.
  lemma {:induction false} LastReaches(s: seq<Region>, max: nat)
    requires s != [] && NextApart(s) && Inside(s, WORD - 1)
    ensures Inside(s, max) <==> s[|s| - 1].offset + s[|s| - 1].size <= max
  {
    forall i | 0 <= i < |s| - 1
      ensures s[i].offset + s[i].size <= s[|s| - 1].offset
    {
      NeighboursSuffice(s, i, |s| - 1);
    }
  }

  // The free regions from `pos` on, by plain subtraction.
  ghost function Gaps(s: seq<Region>, pos: nat, max: nat): (free: seq<Region>)
    ensures |free| <= |s| + 1
  {
    if s == [] then Between(pos, max)
    else Between(pos, s[0].offset) + Gaps(s[1..], s[0].offset + s[0].size, max)
  }

  ghost function Between(lo: nat, hi: nat): seq<Region>
  {
    if lo < hi then [Region(lo, hi - lo)] else []
  }

  lemma {:induction false} GapsFirst(s: seq<Region>, pos: nat, max: nat)
    ensures s == [] ==> Gaps(s, pos, max) == Between(pos, max)
    ensures s != [] ==> Gaps(s, pos, max) == Between(pos, s[0].offset) + Gaps(s[1..], s[0].offset + s[0].size, max)
  {
  }

  lemma {:induction false} GapsNext(s: seq<Region>, i: nat, pos: nat, max: nat, free: seq<Region>)
    requires i < |s|
    ensures free + Gaps(s[i..], pos, max)
      == (free + Between(pos, s[i].offset)) + Gaps(s[i + 1..], s[i].offset + s[i].size, max)
  {
    assert s[i..][1..] == s[i + 1..];
  }

  lemma {:induction false} ScanNext(s: seq<Region>, i: nat, max: nat, capacity: nat, free: seq<Region>)
    requires i < |s| - 1 && Inside(s, WORD - 1) && NextApart(s) && |free| < capacity
    ensures Scan(s, i, max, capacity, free)
      == Scan(s, i + 1, max, capacity, free + Between(s[i].offset + s[i].size, s[i + 1].offset))
  {
    var end := s[i].offset + s[i].size;
    assert s[i + 1].offset < WORD;
    assert AppendedGap(free, end, s[i + 1].offset - end, capacity) == free + Between(end, s[i + 1].offset);
  }

  lemma {:induction false} ScanLast(s: seq<Region>, max: nat, capacity: nat, free: seq<Region>)
    requires s != [] && Inside(s, WORD - 1) && max < WORD && NextApart(s) && |free| < capacity
    ensures Scan(s, |s| - 1, max, capacity, free)
      == (true, free + Between(s[|s| - 1].offset + s[|s| - 1].size, Reach(s, max)))
  {
    var end, to := s[|s| - 1].offset + s[|s| - 1].size, Reach(s, max);
    LastReaches(s, max);
    assert Wrap(max - end) == to - end;
    assert AppendedGap(free, end, to - end, capacity) == free + Between(end, to);
  }

  // The scan from region i on gives the gaps after it.
  ghost predicate GivesGaps(s: seq<Region>, i: nat, max: nat, capacity: nat, free: seq<Region>, to: nat)
    requires i < |s|
  {
    Scan(s, i, max, capacity, free) == (true, free + Gaps(s[i + 1..], s[i].offset + s[i].size, to))
  }

  lemma {:induction false} LastGivesGaps(s: seq<Region>, max: nat, capacity: nat, free: seq<Region>)
    requires s != [] && Inside(s, WORD - 1) && max < WORD && NextApart(s) && |free| < capacity
    ensures GivesGaps(s, |s| - 1, max, capacity, free, Reach(s, max))
  {
    var last := |s| - 1;
    assert s[last + 1..] == [];
    ScanLast(s, max, capacity, free);
    GapsFirst(s[last + 1..], s[last].offset + s[last].size, Reach(s, max));
  }

  lemma {:induction false} NextGivesGaps(s: seq<Region>, i: nat, max: nat, capacity: nat, free: seq<Region>, to: nat)
    requires i + 1 < |s| && Inside(s, WORD - 1) && NextApart(s) && |free| < capacity
    requires GivesGaps(s, i + 1, max, capacity, free + Between(s[i].offset + s[i].size, s[i + 1].offset), to)
    ensures GivesGaps(s, i, max, capacity, free, to)
  {
    ScanNext(s, i, max, capacity, free);
    GapsNext(s, i + 1, s[i].offset + s[i].size, to, free);
  }

  // Without overlap, the scan computes the gaps.
  lemma {:induction false} ScanIsGaps(s: seq<Region>, i: nat, max: nat, capacity: nat, free: seq<Region>, to: nat)
    requires i < |s| && Inside(s, WORD - 1) && max < WORD && NextApart(s) && to == Reach(s, max)
    requires |free| + |s| - i <= capacity
    ensures GivesGaps(s, i, max, capacity, free, to)
    decreases |s| - i
  {
    if i == |s| - 1 {
      LastGivesGaps(s, max, capacity, free);
    } else {
      ScanIsGaps(s, i + 1, max, capacity, free + Between(s[i].offset + s[i].size, s[i + 1].offset), to);
      NextGivesGaps(s, i, max, capacity, free, to);
    }
  }

  // An overlap with the next region is noticed.
  lemma {:induction false} ScanNoticesOverlap(s: seq<Region>, i: nat, max: nat, capacity: nat, free: seq<Region>,
      k: nat)
    requires Inside(s, WORD - 1)
    requires i <= k < |s| - 1 && s[k].offset + s[k].size > s[k + 1].offset
    ensures !Scan(s, i, max, capacity, free).0
    decreases |s| - i
  {
    if i < k && s[i].End() <= s[i + 1].offset {
      ScanNoticesOverlap(s, i + 1, max, capacity,
        AppendedGap(free, s[i].End(), Wrap(s[i + 1].offset - s[i].End()), capacity), k);
    }
  }

  lemma {:induction false} TableIsScan(s: seq<Region>, max: nat, capacity: nat)
    requires s != [] && capacity > 0
    ensures Table(s, 0, max, false, capacity) == Scan(s, 0, max, capacity, Between(0, s[0].offset))
  {
    assert FirstGap(s, 0, false, capacity) == Between(0, s[0].offset);
  }

  lemma {:induction false} TableIsGaps(s: seq<Region>, max: nat, capacity: nat, to: nat)
    requires Inside(s, WORD - 1) && 0 < max < WORD && |s| < capacity && NextApart(s) && to == Reach(s, max)
    ensures Table(s, 0, max, false, capacity) == (true, Gaps(s, 0, to))
  {
    GapsFirst(s, 0, to);
    if s == [] {
      assert Appended([], Region(0, max), capacity) == Between(0, max);
    } else {
      TableIsScan(s, max, capacity);
      ScanIsGaps(s, 0, max, capacity, Between(0, s[0].offset), to);
    }
  }

  // The table is made without complaint exactly when no two used regions overlap.
  lemma {:induction false} TableTrueIffDisjoint(s: seq<Region>, max: nat, capacity: nat)
    requires Sorted(s) && Inside(s, WORD - 1) && 0 < max < WORD && |s| < capacity
    ensures Table(s, 0, max, false, capacity).0 <==> Disjoint(s)
  {
    NextApartIsDisjoint(s, WORD - 1);
    if NextApart(s) {
      TableIsGaps(s, max, capacity, Reach(s, max));
    } else {
      var k :| 0 <= k < |s| - 1 && s[k].offset + s[k].size > s[k + 1].offset;
      ScanNoticesOverlap(s, 0, max, capacity, FirstGap(s, 0, false, capacity), k);
    }
  }

  // ---------------------------------------------------------------------
  // The gaps are the complement of the used regions.
  // ---------------------------------------------------------------------

  ghost predicate StartsAfter(s: seq<Region>, pos: nat)
  {
    forall i :: 0 <= i < |s| ==> pos <= s[i].offset
  }

  lemma {:induction false} CoveredSplit(p: seq<Region>, q: seq<Region>, x: int)
    ensures Covered(p + q, x) <==> Covered(p, x) || Covered(q, x)
  {
    var s := p + q;
    if Covered(p, x) {
      var i :| 0 <= i < |p| && In(x, p[i]);
      assert In(x, s[i]);
    }
    if Covered(q, x) {
      var i :| 0 <= i < |q| && In(x, q[i]);
      assert In(x, s[|p| + i]);
    }
    if Covered(s, x) {
      var i :| 0 <= i < |s| && In(x, s[i]);
      assert if i < |p| then In(x, p[i]) else In(x, q[i - |p|]);
    }
  }

  lemma {:induction false} TailOf(s: seq<Region>, max: nat)
    requires s != [] && Inside(s, max) && NextApart(s)
    ensures Inside(s[1..], max) && NextApart(s[1..]) && StartsAfter(s[1..], s[0].offset + s[0].size)
  {
    forall i | 0 <= i < |s[1..]|
      ensures s[0].offset + s[0].size <= s[1..][i].offset
    {
      NeighboursSuffice(s, 0, i + 1);
    }
    forall i | 0 <= i < |s[1..]| - 1
      ensures s[1..][i].offset + s[1..][i].size <= s[1..][i + 1].offset
    {
      assert s[i + 1].offset + s[i + 1].size <= s[i + 1 + 1].offset;
    }
  }

  lemma {:induction false} BetweenCovers(lo: nat, hi: nat, x: int)
    ensures Covered(Between(lo, hi), x) <==> lo <= x < hi
  {
    if lo <= x < hi {
      assert In(x, Between(lo, hi)[0]);
    }
  }

  lemma {:induction false} CoveredHead(s: seq<Region>, x: int)
    requires s != []
    ensures Covered(s, x) <==> In(x, s[0]) || Covered(s[1..], x)
  {
    CoveredSplit([s[0]], s[1..], x);
    assert s == [s[0]] + s[1..];
    if In(x, s[0]) {
      assert In(x, [s[0]][0]);
    }
  }

  // A sector from `pos` on is in a gap exactly when it is in no used region;
  // sectors before `pos` or beyond the end are in none.
  lemma {:induction false} GapsAreComplement(s: seq<Region>, pos: nat, max: nat, x: int)
    requires Inside(s, max) && NextApart(s) && StartsAfter(s, pos) && pos <= max
    ensures Covered(Gaps(s, pos, max), x) <==> pos <= x < max && !Covered(s, x)
  {
    if s == [] {
      BetweenCovers(pos, max, x);
    } else {
      var end := s[0].offset + s[0].size;
      TailOf(s, max);
      GapsAreComplement(s[1..], end, max, x);
      GapsHead(s, pos, max, x);
    }
  }

  lemma {:induction false} GapsHead(s: seq<Region>, pos: nat, max: nat, x: int)
    requires s != [] && pos <= s[0].offset && s[0].size > 0 && s[0].offset + s[0].size <= max
    requires var end := s[0].offset + s[0].size;
      StartsAfter(s[1..], end) && (Covered(Gaps(s[1..], end, max), x) <==> end <= x < max && !Covered(s[1..], x))
    ensures Covered(Gaps(s, pos, max), x) <==> pos <= x < max && !Covered(s, x)
  {
    var end := s[0].offset + s[0].size;
    CoveredSplit(Between(pos, s[0].offset), Gaps(s[1..], end, max), x);
    BetweenCovers(pos, s[0].offset, x);
    CoveredHead(s, x);
    assert Covered(s[1..], x) ==> end <= x;
  }

  // Sorted, and with at least one used sector between neighbours: no two free
  // regions could be joined.
  ghost predicate Separated(free: seq<Region>)
  {
    forall i :: 0 <= i < |free| - 1 ==> free[i].offset + free[i].size < free[i + 1].offset
  }

  lemma {:induction false} SeparatedJoin(p: seq<Region>, q: seq<Region>, pos: nat, lo: nat, end: nat, max: nat)
    requires p == Between(pos, lo) && pos <= lo < end <= max
    requires Inside(q, max) && Separated(q) && StartsAfter(q, end)
    ensures Inside(p + q, max) && Separated(p + q) && StartsAfter(p + q, pos)
  {
    var s := p + q;
    forall i | 0 <= i < |s| - 1
      ensures s[i].offset + s[i].size < s[i + 1].offset
    {
      if i >= |p| {
        assert q[i - |p|].offset + q[i - |p|].size < q[i - |p| + 1].offset;
      }
    }
  }

  lemma {:induction false} GapsSeparated(s: seq<Region>, pos: nat, max: nat)
    requires Inside(s, max) && NextApart(s) && StartsAfter(s, pos) && pos <= max
    ensures var free := Gaps(s, pos, max);
      && Inside(free, max) && Separated(free)
      && StartsAfter(free, pos)
  {
    if s != [] {
      var end := s[0].offset + s[0].size;
      TailOf(s, max);
      GapsSeparated(s[1..], end, max);
      SeparatedJoin(Between(pos, s[0].offset), Gaps(s[1..], end, max), pos, s[0].offset, end, max);
    }
  }

  ghost function Total(s: seq<Region>): nat
  {
    if s == [] then 0 else s[0].size + Total(s[1..])
  }

  lemma {:induction false} TotalBetween(lo: nat, hi: nat, q: seq<Region>)
    requires lo <= hi
    ensures Total(Between(lo, hi) + q) == hi - lo + Total(q)
  {
    var p := Between(lo, hi);
    if p == [] {
      assert p + q == q;
    } else {
      assert (p + q)[1..] == q;
    }
  }

  lemma {:induction false} ConserveFirst(s: seq<Region>, pos: nat, max: nat)
    requires s != [] && pos <= s[0].offset
    requires var end := s[0].offset + s[0].size; Total(s[1..]) + Total(Gaps(s[1..], end, max)) == max - end
    ensures Total(s) + Total(Gaps(s, pos, max)) == max - pos
  {
    GapsFirst(s, pos, max);
    TotalBetween(pos, s[0].offset, Gaps(s[1..], s[0].offset + s[0].size, max));
  }

  // Used and free sectors add up to all sectors.
  lemma {:induction false} GapsConserve(s: seq<Region>, pos: nat, max: nat)
    requires Inside(s, max) && NextApart(s) && StartsAfter(s, pos) && pos <= max
    ensures Total(s) + Total(Gaps(s, pos, max)) == max - pos
  {
    if s == [] {
      TotalBetween(pos, max, []);
      assert Between(pos, max) + [] == Between(pos, max);
    } else {
      TailOf(s, max);
      GapsConserve(s[1..], s[0].offset + s[0].size, max);
      ConserveFirst(s, pos, max);
    }
  }

  // Everything the free table promises.
  ghost predicate IsComplement(free: seq<Region>, s: seq<Region>, max: nat)
  {
    && (forall x :: Covered(free, x) <==> 0 <= x < max && !Covered(s, x))
    && Inside(free, max)
    && Separated(free)
    && Total(s) + Total(free) == max
  }

  // The table is the complement up to where it takes the disk to end.
  lemma {:induction false} FreeTableIsComplement(s: seq<Region>, max: nat, capacity: nat)
    requires Sorted(s) && Inside(s, WORD - 1) && 0 < max < WORD && |s| < capacity && Disjoint(s)
    ensures Table(s, 0, max, false, capacity).0
    ensures IsComplement(Table(s, 0, max, false, capacity).1, s, Reach(s, max))
  {
    var to := Reach(s, max);
    NextApartIsDisjoint(s, to);
    TableIsGaps(s, max, capacity, to);
    var free := Gaps(s, 0, to);
    GapsSeparated(s, 0, to);
    GapsConserve(s, 0, to);
    forall x
      ensures Covered(free, x) <==> 0 <= x < to && !Covered(s, x)
    {
      GapsAreComplement(s, 0, to, x);
    }
  }

  // A free region starts at sector 0 or right after a used sector.
  lemma {:induction false} StartNotVacant(free: seq<Region>, s: seq<Region>, max: nat, k: nat, n: nat)
    requires IsComplement(free, s, max) && Inside(s, max) && k < |free| && free[k].offset > 0 && n > 0
    ensures !Vacant(s, max, free[k].offset - 1, n)
  {
    var x := free[k].offset - 1;
    if Vacant(s, max, x, n) {
      VacantUncovered(s, max, x, n, x);
      assert Covered(free, x);
      var m :| 0 <= m < |free| && In(x, free[m]);
      if m < k {
        SeparatedOrder(free, m, k);
      } else if k < m {
        SeparatedOrder(free, k, m);
      }
      assert false;
    }
  }

  // n sectors from o on are inside and overlap no used region.
  ghost predicate Vacant(s: seq<Region>, max: nat, o: nat, n: nat)
  {
    o + n <= max && forall i :: 0 <= i < |s| ==> Apart(Region(o, n), s[i])
  }

  lemma {:induction false} SeparatedOrder(free: seq<Region>, i: nat, j: nat)
    requires Separated(free) && i < j < |free|
    ensures free[i].offset + free[i].size < free[j].offset
    decreases j - i
  {
    if i + 1 < j {
      SeparatedOrder(free, i, j - 1);
      assert free[j - 1].offset + free[j - 1].size < free[j - 1 + 1].offset;
    } else {
      assert free[i].offset + free[i].size < free[i + 1].offset;
    }
  }

  lemma {:induction false} VacantUncovered(s: seq<Region>, max: nat, o: nat, n: nat, x: int)
    requires Vacant(s, max, o, n) && o <= x < o + n
    ensures !Covered(s, x)
  {
    forall i | 0 <= i < |s|
      ensures !In(x, s[i])
    {
      assert Apart(Region(o, n), s[i]);
    }
  }

  // A vacant run of n sectors lies within one free region.
  lemma {:induction false} VacantRunInRegion(free: seq<Region>, s: seq<Region>, max: nat, o: nat, n: nat)
    returns (k: nat)
    requires IsComplement(free, s, max) && Inside(s, max) && n > 0 && Vacant(s, max, o, n)
    ensures k < |free| && free[k].offset <= o && o + n <= free[k].offset + free[k].size
  {
    VacantUncovered(s, max, o, n, o);
    assert Covered(free, o);
    k :| 0 <= k < |free| && In(o, free[k]);
    var end := free[k].offset + free[k].size;
    if end < o + n {
      VacantUncovered(s, max, o, n, end);
      assert Covered(free, end);
      var m :| 0 <= m < |free| && In(end, free[m]);
      if k < m {
        SeparatedOrder(free, k, m);
      } else if m < k {
        SeparatedOrder(free, m, k);
      }
      assert false;
    }
  }

  // Free regions overlap no used region.
  lemma {:induction false} FreeIsVacant(free: seq<Region>, s: seq<Region>, max: nat, k: nat, n: nat)
    requires IsComplement(free, s, max) && Inside(s, max) && k < |free| && n <= free[k].size
    ensures Vacant(s, max, free[k].offset, n)
  {
    var r := free[k];
    forall i | 0 <= i < |s|
      ensures Apart(Region(r.offset, n), s[i])
    {
      if !Apart(Region(r.offset, n), s[i]) {
        var x := if r.offset <= s[i].offset then s[i].offset else r.offset;
        assert In(x, r) && In(x, s[i]);
        assert Covered(free, x) && Covered(s, x);
        assert false;
      }
    }
  }

  // A region of at least n sectors is in the table exactly when n contiguous
  // sectors are free somewhere.
  lemma {:induction false} RegionIffVacantRun(free: seq<Region>, s: seq<Region>, max: nat, n: nat)
    requires IsComplement(free, s, max) && Inside(s, max) && n > 0
    ensures (exists k :: 0 <= k < |free| && free[k].size >= n) <==> (exists o: nat :: Vacant(s, max, o, n))
  {
    if o: nat :| Vacant(s, max, o, n) {
      var k := VacantRunInRegion(free, s, max, o, n);
      assert free[k].size >= n;
    }
    if k :| 0 <= k < |free| && free[k].size >= n {
      FreeIsVacant(free, s, max, k, n);
    }
  }

  // The region found is the smallest that fits, except that one of exactly
  // the requested size is overlooked unless it is the first that fits.
  lemma {:induction false} BestFitIsTight(free: seq<Region>, size: nat)
    ensures match BestFit(free, size)
      case None => true
      case Some(b) =>
        && (forall j :: 0 <= j < |free| && free[j].size > size ==> free[b].size <= free[j].size)
        && (free[b].size == size <==>
              exists j :: 0 <= j < |free| && free[j].size == size && forall i :: 0 <= i < j ==> free[i].size < size)
  {
    if free != [] {
      var n := |free| - 1;
      var p := free[..n];
      BestFitIsTight(p, size);
      if BestFit(p, size).Some? {
        assert forall j :: 0 <= j < n ==> p[j] == free[j];
        var b := BestFit(p, size).value;
        if free[b].size == size {
          var j :| 0 <= j < |p| && p[j].size == size && forall i :: 0 <= i < j ==> p[i].size < size;
          assert free[j].size == size;
        }
        if j :| 0 <= j < |free| && free[j].size == size && forall i :: 0 <= i < j ==> free[i].size < size {
          if j < n {
            assert p[j].size == size;
          }
        }
      }
    }
  }

  // The region found is the first of the largest.
  lemma {:induction false} LargestIsLargest(free: seq<Region>)
    ensures match Largest(free)
      case None => free == []
      case Some(k) =>
        && (forall j :: 0 <= j < |free| ==> free[j].size <= free[k].size)
        && (forall j :: 0 <= j < k ==> free[j].size < free[k].size)
  {
    if free != [] {
      var p := free[..|free| - 1];
      LargestIsLargest(p);
      assert forall j :: 0 <= j < |p| ==> p[j] == free[j];
    }
  }

  // ---------------------------------------------------------------------
  // Sorting the used regions.
  // ---------------------------------------------------------------------

  ghost predicate ApartFromAll(r: Region, s: seq<Region>)
  {
    forall i :: 0 <= i < |s| ==> Apart(r, s[i])
  }

  lemma {:induction false} ApartSnoc(x: Region, u: seq<Region>, r: Region)
    ensures ApartFromAll(x, u + [r]) <==> ApartFromAll(x, u) && Apart(x, r)
  {
    var v := u + [r];
    if ApartFromAll(x, v) {
      assert Apart(x, v[|u|]);
      assert forall i :: 0 <= i < |u| ==> v[i] == u[i];
    }
  }

  lemma {:induction false} ApartInsert(x: Region, s: seq<Region>, r: Region)
    ensures ApartFromAll(x, Insert(s, r)) <==> ApartFromAll(x, s) && Apart(x, r)
  {
    var k, t := Place(s, r.offset), Insert(s, r);
    if ApartFromAll(x, t) {
      assert Apart(x, t[k]);
      forall i | 0 <= i < |s|
        ensures Apart(x, s[i])
      {
        assert Apart(x, t[if i < k then i else i + 1]);
      }
    }
  }

  lemma {:induction false} ApartSort(x: Region, u: seq<Region>)
    ensures ApartFromAll(x, Sort(u)) <==> ApartFromAll(x, u)
  {
    if u != [] {
      var v, r := u[..|u| - 1], u[|u| - 1];
      assert u == v + [r];
      ApartSort(x, v);
      ApartSnoc(x, v, r);
      ApartInsert(x, Sort(v), r);
    }
  }

  // The regions are non-empty, on the disk, and apart.
  ghost predicate Sound(s: seq<Region>, max: nat)
  {
    Inside(s, max) && Disjoint(s)
  }

  lemma {:induction false} SoundSnoc(u: seq<Region>, r: Region, max: nat)
    ensures Sound(u + [r], max) <==>
      Sound(u, max) && ApartFromAll(r, u) && r.size > 0 && r.offset + r.size <= max
  {
    var v := u + [r];
    assert forall i :: 0 <= i < |u| ==> v[i] == u[i];
    assert v[|u|] == r;
    if Sound(v, max) {
      forall i | 0 <= i < |u|
        ensures Apart(r, u[i])
      {
        assert Apart(v[i], v[|u|]);
      }
    }
  }

  lemma {:induction false} DisjointInsert(s: seq<Region>, r: Region)
    requires Disjoint(s) && ApartFromAll(r, s)
    ensures Disjoint(Insert(s, r))
  {
    var k, t := Place(s, r.offset), Insert(s, r);
    forall i, j | 0 <= i < j < |t|
      ensures Apart(t[i], t[j])
    {
      var a := if i < k then s[i] else if i == k then r else s[i - 1];
      var b := if j < k then s[j] else if j == k then r else s[j - 1];
      assert t[i] == a && t[j] == b;
    }
  }

  lemma {:induction false} SoundInsert(s: seq<Region>, r: Region, max: nat)
    requires Sound(s, max) && ApartFromAll(r, s) && r.size > 0 && r.offset + r.size <= max
    ensures Sound(Insert(s, r), max)
  {
    InsideInsert(s, r, max);
    DisjointInsert(s, r);
  }

  lemma {:induction false} SoundSort(u: seq<Region>, max: nat)
    requires Sound(u, max)
    ensures Sound(Sort(u), max)
  {
    if u != [] {
      var v, r := u[..|u| - 1], u[|u| - 1];
      assert u == v + [r];
      SoundSnoc(v, r, max);
      SoundSort(v, max);
      ApartSort(r, v);
      SoundInsert(Sort(v), r, max);
    }
  }

  lemma {:induction false} InsideInsert(s: seq<Region>, r: Region, max: nat)
    ensures Inside(Insert(s, r), max) <==> Inside(s, max) && r.size > 0 && r.offset + r.size <= max
  {
    var k, t := Place(s, r.offset), Insert(s, r);
    assert t[k] == r;
    assert forall i :: 0 <= i < |s| ==> s[i] == t[if i < k then i else i + 1];
  }

  // Where entry i of s stands after the insertion.
  ghost function Moved(s: seq<Region>, r: Region, i: nat): (j: nat)
    requires i < |s|
    ensures j < |Insert(s, r)| && j != Place(s, r.offset) && Insert(s, r)[j] == s[i]
  {
    if i < Place(s, r.offset) then i else i + 1
  }

  lemma {:induction false} InsertedDisjoint(s: seq<Region>, r: Region)
    requires Disjoint(Insert(s, r))
    ensures Disjoint(s) && ApartFromAll(r, s)
  {
    var k, t := Place(s, r.offset), Insert(s, r);
    assert t[k] == r;
    forall i | 0 <= i < |s|
      ensures Apart(r, s[i])
    {
      var a := Moved(s, r, i);
      assert if a < k then Apart(t[a], t[k]) else Apart(t[k], t[a]);
    }
    forall i, j | 0 <= i < j < |s|
      ensures Apart(s[i], s[j])
    {
      assert Apart(t[Moved(s, r, i)], t[Moved(s, r, j)]);
    }
  }

  lemma {:induction false} InsertedSound(s: seq<Region>, r: Region, max: nat)
    requires Sound(Insert(s, r), max)
    ensures Sound(s, max) && ApartFromAll(r, s) && r.size > 0 && r.offset + r.size <= max
  {
    InsideInsert(s, r, max);
    InsertedDisjoint(s, r);
  }

  // Sorting neither hides nor makes an overlap.
  lemma {:induction false} SortSoundIff(u: seq<Region>, max: nat)
    ensures Sound(Sort(u), max) <==> Sound(u, max)
  {
    if Sound(u, max) {
      SoundSort(u, max);
    } else if u != [] && Sound(Sort(u), max) {
      var v, r := u[..|u| - 1], u[|u| - 1];
      assert u == v + [r];
      InsertedSound(Sort(v), r, max);
      SortSoundIff(v, max);
      ApartSort(r, v);
      SoundSnoc(v, r, max);
      assert false;
    }
  }

  lemma {:induction false} InsideSort(u: seq<Region>, max: nat)
    ensures Inside(Sort(u), max) <==> Inside(u, max)
  {
    if u != [] {
      var v, r := u[..|u| - 1], u[|u| - 1];
      assert u == v + [r];
      InsideSort(v, max);
      InsideInsert(Sort(v), r, max);
    }
  }

  // When the scan stops at an overlap, what it recorded ends before that.
  lemma {:induction false} StoppedScanInside(s: seq<Region>, i: nat, max: nat, capacity: nat, free: seq<Region>)
    requires i < |s| && Inside(s, WORD - 1) && Inside(free, WORD - 1)
    requires !Scan(s, i, max, capacity, free).0
    ensures Inside(Scan(s, i, max, capacity, free).1, WORD - 1)
    decreases |s| - i
  {
    if i < |s| - 1 && s[i].End() <= s[i + 1].offset {
      StoppedScanInside(s, i + 1, max, capacity,
        AppendedGap(free, s[i].End(), Wrap(s[i + 1].offset - s[i].End()), capacity));
    }
  }

  // Nothing is noticed when nothing overlaps, even if the last region ends
  // beyond the unsigned range.
  lemma {:induction false} ScanTrue(s: seq<Region>, i: nat, max: nat, capacity: nat, free: seq<Region>)
    requires i < |s| && NextApart(s) && forall j :: 0 <= j < |s| ==> s[j].offset < WORD
    ensures Scan(s, i, max, capacity, free).0
    decreases |s| - i
  {
    if i < |s| - 1 {
      ScanTrue(s, i + 1, max, capacity,
        AppendedGap(free, s[i].End(), Wrap(s[i + 1].offset - s[i].End()), capacity));
    }
  }

  ghost predicate Positive(s: seq<Region>)
  {
    forall i :: 0 <= i < |s| ==> s[i].size > 0
  }

  lemma {:induction false} ScanPositive(s: seq<Region>, i: nat, max: nat, capacity: nat, free: seq<Region>)
    requires i < |s| && Positive(free)
    ensures Positive(Scan(s, i, max, capacity, free).1)
    decreases |s| - i
  {
    if i < |s| - 1 && s[i].End() <= s[i + 1].offset {
      ScanPositive(s, i + 1, max, capacity,
        AppendedGap(free, s[i].End(), Wrap(s[i + 1].offset - s[i].End()), capacity));
    }
  }

  // No free region is empty, whatever the used regions.
  lemma {:induction false} TablePositive(s: seq<Region>, max: nat, capacity: nat)
    requires max > 0
    ensures Positive(Table(s, 0, max, false, capacity).1)
  {
    if s != [] {
      ScanPositive(s, 0, max, capacity, FirstGap(s, 0, false, capacity));
    }
  }

  // The free table of sound used regions.
  lemma {:induction false} SoundFreeTable(u: seq<Region>, max: nat, capacity: nat)
    returns (s: seq<Region>, free: seq<Region>)
    requires Sound(u, WORD - 1) && 0 < max < WORD && |u| < capacity
    ensures s == Sort(u) && Table(s, 0, max, false, capacity) == (true, free)
    ensures Inside(s, Reach(u, max)) && IsComplement(free, s, Reach(u, max))
  {
    SortSorts(u);
    SortKeepsAll(u);
    SoundSort(u, WORD - 1);
    InsideSort(u, max);
    s := Sort(u);
    FreeTableIsComplement(s, max, capacity);
    free := Table(s, 0, max, false, capacity).1;
  }

  // ---------------------------------------------------------------------
  // Where the unsigned arithmetic goes wrong.
  // ---------------------------------------------------------------------

  // The last region recorded is what remains, modulo 2^64, after the last
  // used region.
  lemma {:induction false} ScanTail(s: seq<Region>, i: nat, max: nat, capacity: nat, free: seq<Region>)
    requires i < |s| && NextApart(s) && Inside(s, WORD - 1)
    requires |free| + |s| - i <= capacity
    ensures var (ok, t) := Scan(s, i, max, capacity, free);
      var end := s[|s| - 1].End();
      ok && (Wrap(max - end) > 0 ==> t != [] && t[|t| - 1] == Region(end, Wrap(max - end)))
    decreases |s| - i
  {
    if i < |s| - 1 {
      ScanTail(s, i + 1, max, capacity,
        AppendedGap(free, s[i].End(), Wrap(s[i + 1].offset - s[i].End()), capacity));
    }
  }

  // The free table stays within the disk exactly when the used regions do;
  // beyond that, the last subtraction wraps around.
  lemma {:induction false} FreeTableInsideIffUsedInside(s: seq<Region>, max: nat, capacity: nat)
    requires Sorted(s) && NextApart(s) && Inside(s, WORD - 1)
    requires 0 < max < WORD && |s| < capacity
    ensures Table(s, 0, max, false, capacity).0
    ensures Inside(Table(s, 0, max, false, capacity).1, max) <==> Inside(s, max)
  {
    NextApartIsDisjoint(s, WORD - 1);
    FreeTableIsComplement(s, max, capacity);
    if !Inside(s, max) {
      ScanTail(s, 0, max, capacity, FirstGap(s, 0, false, capacity));
      LastReaches(s, max);
    }
  }

  // The table of an extended partition of `max` sectors from `start` on, with
  // the logical partitions s: the gap before the first one counts only beyond
  // the padding, and then with its end for its size; the others are right,
  // but go on to sector `max` and not to the end of the partition.
  lemma {:induction false} LogicalTable(s: seq<Region>, start: nat, max: nat, capacity: nat)
    requires NextApart(s) && Inside(s, WORD - 1) && |s| < capacity && max < WORD
    requires start + LOGICAL_PARTITION_PAD < WORD
    ensures s == [] ==> Table(s, start, max, true, capacity) == (true, [Region(start, max)])
    ensures s != [] ==>
      var first := if s[0].offset > start + LOGICAL_PARTITION_PAD then [Region(start, s[0].offset)] else [];
      Table(s, start, max, true, capacity)
      == (true, first + Gaps(s[1..], s[0].offset + s[0].size, Reach(s, max)))
  {
    if s == [] {
      assert Appended([], Region(start, max), capacity) == [Region(start, max)];
    } else {
      assert Appended([], Region(start, s[0].offset), capacity) == [Region(start, s[0].offset)];
      ScanIsGaps(s, 0, max, capacity, FirstGap(s, start, true, capacity), Reach(s, max));
    }
  }

  lemma {:induction false} TailCount(last: nat, start: nat, max: nat)
    requires last < start + max < WORD
    ensures Wrap(max - last) == start + max - last <==> start == 0
  {
  }

  // For logical partitions the size of the extended partition is taken for
  // its end: the sectors the table counts after the last logical partition
  // are those that are there exactly when the extended partition starts at
  // sector 0.
  lemma {:induction false} LogicalTailRightIffAtZero(s: seq<Region>, start: nat, max: nat, capacity: nat)
    requires s != [] && NextApart(s) && Inside(s, WORD - 1) && |s| < capacity
    requires start + max < WORD
    requires s[|s| - 1].offset + s[|s| - 1].size < start + max
    ensures var (ok, free) := Table(s, start, max, true, capacity);
      var last := s[|s| - 1].offset + s[|s| - 1].size;
      var counted := Wrap(max - last);
      && ok
      && (counted > 0 ==> free != [] && free[|free| - 1] == Region(last, counted))
      && (counted == start + max - last <==> start == 0)
  {
    TailCount(s[|s| - 1].offset + s[|s| - 1].size, start, max);
    ScanTail(s, 0, max, capacity, FirstGap(s, start, true, capacity));
  }
}
