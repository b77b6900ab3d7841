// Removing duplicate finds of a node, in place and backwards.
module Duplicates {
  import opened Tree
  import opened TreeSearch

  // Equality of tree nodes: the same element, and both element or both
  // attribute.
  predicate Same(a: Node, b: Node)
  {
    a.at == b.at && a.attribute.Some? == b.attribute.Some?
  }

  function CountSame(s: seq<Node>, x: Node): nat
  {
    if s == [] then 0 else (if Same(s[0], x) then 1 else 0) + CountSame(s[1..], x)
  }

  // list.remove().
  function RemoveFirst(s: seq<Node>, x: Node): seq<Node>
  {
    if s == [] then [] else if Same(s[0], x) then s[1..] else [s[0]] + RemoveFirst(s[1..], x)
  }

  function Without(s: seq<Node>, x: Node): seq<Node>
  {
    if s == [] then [] else if Same(s[0], x) then Without(s[1..], x) else [s[0]] + Without(s[1..], x)
  }

  // The last find of each node.
  function KeepLast(s: seq<Node>): seq<Node>
  {
    if s == [] then []
    else if CountSame(s[1..], s[0]) > 0 then KeepLast(s[1..])
    else [s[0]] + KeepLast(s[1..])
  }

  lemma {:induction false} CountConcat(s: seq<Node>, t: seq<Node>, x: Node)
    ensures CountSame(s + t, x) == CountSame(s, x) + CountSame(t, x)
  {
    if s == [] {
      assert s + t == t;
    } else {
      CountConcat(s[1..], t, x);
      assert (s + t)[1..] == s[1..] + t;
    }
  }

  lemma {:induction false} RemoveFirstOf(s: seq<Node>, t: seq<Node>, x: Node)
    requires CountSame(s, x) > 0
    ensures RemoveFirst(s + t, x) == RemoveFirst(s, x) + t
    ensures |RemoveFirst(s, x)| == |s| - 1
    ensures CountSame(RemoveFirst(s, x), x) == CountSame(s, x) - 1
    ensures Without(RemoveFirst(s, x), x) == Without(s, x)
  {
    assert (s + t)[1..] == s[1..] + t;
    if !Same(s[0], x) {
      RemoveFirstOf(s[1..], t, x);
      assert [s[0]] + (RemoveFirst(s[1..], x) + t) == [s[0]] + RemoveFirst(s[1..], x) + t;
    }
  }

  lemma {:induction false} NothingToRemove(s: seq<Node>, x: Node)
    requires CountSame(s, x) == 0
    ensures Without(s, x) == s
  {
    if s != [] {
      NothingToRemove(s[1..], x);
    }
  }

  lemma {:induction false} CountWithout(s: seq<Node>, x: Node, y: Node)
    ensures CountSame(Without(s, x), y) == if Same(x, y) then 0 else CountSame(s, y)
    ensures |Without(s, x)| == |s| - CountSame(s, x)
  {
    if s != [] {
      CountWithout(s[1..], x, y);
    }
  }

  // The last node stays and takes its duplicates out of those before it.
  lemma {:induction false} KeepLastSnoc(s: seq<Node>, x: Node)
    ensures KeepLast(s + [x]) == KeepLast(Without(s, x)) + [x]
  {
    if s == [] {
      assert s + [x] == [x] && [x][1..] == [];
    } else {
      var a, rest := s[0], s[1..];
      assert (s + [x])[1..] == rest + [x];
      KeepLastSnoc(rest, x);
      CountConcat(rest, [x], a);
      CountWithout(rest, x, a);
      assert [x][1..] == [];
    }
  }

  // None of the nodes of s is in t.
  ghost predicate NoneIn(s: seq<Node>, t: seq<Node>)
  {
    forall i :: 0 <= i < |s| ==> CountSame(t, s[i]) == 0
  }

  lemma {:induction false} WithoutNoneIn(s: seq<Node>, x: Node, t: seq<Node>)
    requires NoneIn(s, t)
    ensures NoneIn(Without(s, x), [x] + t)
  {
    if s != [] {
      var rest := s[1..];
      assert forall i :: 0 <= i < |rest| ==> rest[i] == s[i + 1];
      WithoutNoneIn(rest, x, t);
      assert ([x] + t)[1..] == t;
    }
  }

  lemma {:induction false} KeepLastSingle(s: seq<Node>)
    requires |s| <= 1
    ensures KeepLast(s) == s
  {
  }

  // Takes the duplicates of list[i] out of what precedes it.  The nodes after
  // it have been dealt with.
  method RemoveDuplicatesOf(list: NodeList, i: nat, ghost front: seq<Node>, ghost back: seq<Node>) returns (count: nat)
    requires i == |front| < |list.nodes| && list.nodes == front + [list.nodes[i]] + back
    requires CountSame(back, list.nodes[i]) == 0
    modifies list
    ensures var x := old(list.nodes)[i];
      list.nodes == Without(front, x) + [x] + back && count == |front| - |Without(front, x)| + 1 > 0
  {
    var x := list.nodes[i];
    ghost var tail := [x] + back;
    assert list.nodes == front + tail;
    count := CountSame(list.nodes, x);
    CountConcat(front, tail, x);
    assert tail[1..] == back;
    CountWithout(front, x, x);
    ghost var p := front;
    for j := 1 to count
      invariant list.nodes == p + tail && CountSame(p, x) == count - j
      invariant Without(p, x) == Without(front, x)
    {
      RemoveFirstOf(p, tail, x);
      list.nodes := RemoveFirst(list.nodes, x);
      p := RemoveFirst(p, x);
    }
    NothingToRemove(p, x);
    assert list.nodes == Without(front, x) + [x] + back;
  }

  method RemoveDuplicates(list: NodeList)
    modifies list
    ensures list.nodes == KeepLast(old(list.nodes))
  {
    var i := |list.nodes| - 1;
    ghost var front, back := list.nodes, [];
    while i > 0
      invariant i == |front| - 1 && list.nodes == front + back
      invariant NoneIn(front, back) && KeepLast(front) + back == KeepLast(old(list.nodes))
      decreases i
    {
      ghost var x, before := front[i], front[..i];
      assert front == before + [x] && list.nodes[i] == x;
      KeepLastSnoc(before, x);
      WithoutNoneIn(before, x, back);
      var count := RemoveDuplicatesOf(list, i, before, back);
      assert KeepLast(Without(before, x)) + [x] + back == KeepLast(Without(before, x)) + ([x] + back);
      front, back := Without(before, x), [x] + back;
      assert list.nodes == front + back;
      i := i - count;
    }
    KeepLastSingle(front);
  }

  // ---------------------------------------------------------------------
  // What is left.
  // ---------------------------------------------------------------------

  function LastIndex(s: seq<Node>, x: Node): (i: nat)
    requires CountSame(s, x) > 0
    ensures i < |s| && Same(s[i], x)
  {
    if CountSame(s[1..], x) > 0 then 1 + LastIndex(s[1..], x) else 0
  }

  // Each node that was found is left once.
  lemma {:induction false} KeepLastOnce(s: seq<Node>, x: Node)
    ensures CountSame(KeepLast(s), x) == if CountSame(s, x) > 0 then 1 else 0
  {
    if s != [] {
      KeepLastOnce(s[1..], x);
      if CountSame(s[1..], s[0]) > 0 && Same(s[0], x) {
        SameCount(s[1..], s[0], x);
      } else if Same(s[0], x) {
        SameCount(s[1..], s[0], x);
        assert ([s[0]] + KeepLast(s[1..]))[1..] == KeepLast(s[1..]);
      }
    }
  }

  lemma {:induction false} SameCount(s: seq<Node>, a: Node, b: Node)
    requires Same(a, b)
    ensures CountSame(s, a) == CountSame(s, b)
  {
    if s != [] {
      SameCount(s[1..], a, b);
    }
  }

  // What is left are the last finds, in the order of these.
  lemma {:induction false} KeepLastInOrder(s: seq<Node>, m: nat)
    requires m < |KeepLast(s)|
    ensures var r := KeepLast(s);
      && CountSame(s, r[m]) > 0 && s[LastIndex(s, r[m])] == r[m]
      && (m > 0 ==> CountSame(s, r[m - 1]) > 0 && LastIndex(s, r[m - 1]) < LastIndex(s, r[m]))
  {
    var rest := s[1..];
    if CountSame(rest, s[0]) > 0 {
      KeepLastInOrder(rest, m);
    } else if m > 0 {
      KeepLastInOrder(rest, m - 1);
    }
  }
}
