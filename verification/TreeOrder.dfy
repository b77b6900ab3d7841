// What exhaustive searches return: once, and in document order.
module TreeOrder {
  import opened Wrappers
  import opened NodePath
  import opened Tree
  import opened TreeSearch
  import opened Duplicates
  import opened TreeFind

  ghost function Onto(found: seq<Node>, r: Found): Found
  {
    match r
    case Ok(nodes) => Ok(found + nodes)
    case Err(e) => Err(e)
  }

  // ---------------------------------------------------------------------
  // What was found before does not matter.
  // ---------------------------------------------------------------------

  lemma {:induction false} SearchAppends(root: Element, at: Position, kind: Kind, tokens: seq<Token>, found: seq<Node>)
    requires Within(root, at) && Searchable(tokens)
    ensures Search(root, at, kind, tokens, found, None) == Onto(found, Search(root, at, kind, tokens, [], None))
    decreases |tokens|, 0, 0
  {
    assert found + [] == found;
    if |tokens| > 1 && kind == ElementKind {
      DescendAppends(root, at, tokens[1..], found);
    } else if tokens != [] && Matches(root, at, kind, tokens[0]) == Ok(true) {
      var n := if kind == ElementKind then Node(at, None) else Node(at, Some(tokens[0].name));
      assert [] + [n] == [n];
    }
  }

  lemma {:induction false} DescendAppends(root: Element, at: Position, tokens: seq<Token>, found: seq<Node>)
    requires Within(root, at) && Searchable(tokens)
    ensures Descend(root, at, tokens, found, None) == Onto(found, Descend(root, at, tokens, [], None))
    decreases |tokens|, 3, 0
  {
    DotsFit(root, tokens, at);
    var (rest, up) := Dots(tokens, at);
    if rest == [] {
      assert [] + [Node(up, None)] == [Node(up, None)];
    } else {
      BelowAppends(root, up, rest, found);
    }
  }

  lemma {:induction false} BelowAppends(root: Element, at: Position, tokens: seq<Token>, found: seq<Node>)
    requires Within(root, at) && Searchable(tokens)
    ensures Below(root, at, tokens, found, None) == Onto(found, Below(root, at, tokens, [], None))
    decreases |tokens|, 2, 0
  {
    ChildrenAppend(root, at, 0, tokens, found);
    SearchAppends(root, at, AttributeKind, tokens, found);
    assert found + [] == found;
  }

  lemma {:induction false} ChildrenAppend(root: Element, at: Position, i: nat, tokens: seq<Token>, found: seq<Node>)
    requires Within(root, at) && Searchable(tokens)
    ensures SearchChildren(root, at, i, tokens, found, None)
      == Onto(found, SearchChildren(root, at, i, tokens, [], None))
    decreases |tokens|, 1, |At(root, at).children| - i
  {
    assert found + [] == found;
    if i < |At(root, at).children| {
      ChildWithin(root, at, i);
      SearchAppends(root, at + [i], ElementKind, tokens, found);
      var first := Search(root, at + [i], ElementKind, tokens, [], None);
      if first.Ok? {
        ChildrenAppend(root, at, i + 1, tokens, found + first.value);
        ChildrenAppend(root, at, i + 1, tokens, first.value);
        var more := SearchChildren(root, at, i + 1, tokens, [], None);
        assert more.Ok? ==> found + first.value + more.value == found + (first.value + more.value);
      }
    }
  }

  // What child i gives, then what the later ones give.
  lemma {:induction false} ChildrenSplit(root: Element, at: Position, i: nat, tokens: seq<Token>)
    returns (first: seq<Node>, more: seq<Node>)
    requires Within(root, at) && Searchable(tokens) && i < |At(root, at).children| && Within(root, at + [i])
    requires SearchChildren(root, at, i, tokens, [], None).Ok?
    ensures Search(root, at + [i], ElementKind, tokens, [], None) == Ok(first)
    ensures SearchChildren(root, at, i + 1, tokens, [], None) == Ok(more)
    ensures SearchChildren(root, at, i, tokens, [], None) == Ok(first + more)
  {
    first := Search(root, at + [i], ElementKind, tokens, [], None).value;
    ChildrenAppend(root, at, i + 1, tokens, first);
    more := SearchChildren(root, at, i + 1, tokens, [], None).value;
  }

  // ---------------------------------------------------------------------
  // Document order.
  // ---------------------------------------------------------------------

  // Earlier in the document: an ancestor, or to the left of one.
  ghost predicate Before(a: Position, b: Position)
  {
    b != [] && (a == [] || a[0] < b[0] || (a[0] == b[0] && Before(a[1..], b[1..])))
  }

  lemma {:induction false} DivergeBefore(at: Position, a: Position, b: Position)
    requires at < a && at < b && a[|at|] < b[|at|]
    ensures Before(a, b)
  {
    if at != [] {
      assert at[0] == a[0] == b[0];
      DivergeBefore(at[1..], a[1..], b[1..]);
    }
  }

  ghost predicate InOrder(nodes: seq<Node>)
  {
    forall m, n :: 0 <= m < n < |nodes| ==> Before(nodes[m].at, nodes[n].at)
  }

  // All nodes are below `at`, in child i or a later one.
  ghost predicate FromChild(nodes: seq<Node>, at: Position, i: nat)
  {
    forall m :: 0 <= m < |nodes| ==> at < nodes[m].at && nodes[m].at[|at|] >= i
  }

  ghost predicate FromHere(nodes: seq<Node>, at: Position)
  {
    forall m :: 0 <= m < |nodes| ==> at <= nodes[m].at
  }

  ghost predicate Dotless(tokens: seq<Token>)
  {
    forall i :: 0 <= i < |tokens| ==> tokens[i].name != ".."
  }

  lemma {:induction false} JoinInOrder(at: Position, i: nat, first: seq<Node>, more: seq<Node>)
    requires InOrder(first) && FromHere(first, at + [i]) && InOrder(more) && FromChild(more, at, i + 1)
    ensures InOrder(first + more) && FromChild(first + more, at, i)
  {
    var all := first + more;
    forall m | 0 <= m < |first|
      ensures at < first[m].at && first[m].at[|at|] == i
    {
      assert at + [i] <= first[m].at;
      assert (at + [i])[..|at|] == at;
    }
    forall m, n | 0 <= m < n < |all|
      ensures Before(all[m].at, all[n].at)
    {
      if m < |first| <= n {
        DivergeBefore(at, first[m].at, more[n - |first|].at);
      }
    }
  }

  ghost predicate OrderedHere(r: Found, at: Position)
  {
    r.Ok? ==> InOrder(r.value) && FromHere(r.value, at)
  }

  ghost predicate OrderedFrom(r: Found, at: Position, i: nat)
  {
    r.Ok? ==> InOrder(r.value) && FromChild(r.value, at, i)
  }

  lemma {:induction false} SearchInOrder(root: Element, at: Position, kind: Kind, tokens: seq<Token>)
    requires Within(root, at) && Searchable(tokens) && Dotless(tokens)
    ensures OrderedHere(Search(root, at, kind, tokens, [], None), at)
    decreases |tokens|, 0, 0
  {
    if |tokens| > 1 && kind == ElementKind {
      BelowInOrder(root, at, tokens[1..]);
    }
  }

  lemma {:induction false} BelowInOrder(root: Element, at: Position, tokens: seq<Token>)
    requires Within(root, at) && Searchable(tokens) && Dotless(tokens) && tokens != []
    ensures Descend(root, at, tokens, [], None) == Below(root, at, tokens, [], None)
    ensures OrderedHere(Below(root, at, tokens, [], None), at)
    decreases |tokens|, 2, 0
  {
    ChildrenInOrder(root, at, 0, tokens);
    SearchInOrder(root, at, AttributeKind, tokens);
  }

  lemma {:induction false} ChildrenInOrder(root: Element, at: Position, i: nat, tokens: seq<Token>)
    requires Within(root, at) && Searchable(tokens) && Dotless(tokens)
    ensures OrderedFrom(SearchChildren(root, at, i, tokens, [], None), at, i)
    decreases |tokens|, 1, |At(root, at).children| - i
  {
    if i < |At(root, at).children| && SearchChildren(root, at, i, tokens, [], None).Ok? {
      ChildWithin(root, at, i);
      var first, more := ChildrenSplit(root, at, i, tokens);
      SearchInOrder(root, at + [i], ElementKind, tokens);
      ChildrenInOrder(root, at, i + 1, tokens);
      JoinInOrder(at, i, first, more);
    }
  }

  // ---------------------------------------------------------------------
  // No node is returned twice.
  // ---------------------------------------------------------------------

  lemma {:induction false} NotBeforeItself(a: Position)
    ensures !Before(a, a)
  {
    if a != [] {
      NotBeforeItself(a[1..]);
    }
  }

  lemma {:induction false} InOrderOnce(nodes: seq<Node>, x: Node)
    requires InOrder(nodes)
    ensures CountSame(nodes, x) <= 1
  {
    if nodes != [] {
      var rest := nodes[1..];
      assert forall m :: 0 <= m < |rest| ==> rest[m] == nodes[m + 1];
      InOrderOnce(rest, x);
      if CountSame(rest, x) > 0 {
        var i := LastIndex(rest, x);
        NotBeforeItself(x.at);
        assert Before(nodes[0].at, nodes[i + 1].at);
      }
    }
  }

  // Whatever the path and the starting node, no node is returned twice.
  lemma {:induction false} FindsOnce(root: Element, path: string, start: Option<Node>, x: Node)
    requires start.Some? ==> IsNode(root, start.value)
    requires Find(root, path, start).Ok?
    ensures CountSame(Find(root, path, start).value, x) <= 1
  {
    var tokens := Parse(path).value;
    ParsedSearchable(path);
    match start
    case None =>
      RootedSearchable(root, tokens);
      var all := Rooted(root, tokens);
      if HasDots(all) {
        KeepLastOnce(Search(root, [], ElementKind, all, [], None).value, x);
      } else {
        SearchInOrder(root, [], ElementKind, all);
        InOrderOnce(Search(root, [], ElementKind, all, [], None).value, x);
      }
    case Some(n) =>
      DotsFit(root, tokens, n.at);
      var (rest, up) := Dots(tokens, n.at);
      if rest != [] {
        if HasDots(rest) {
          KeepLastOnce(Below(root, up, rest, [], None).value, x);
        } else {
          BelowInOrder(root, up, rest);
          InOrderOnce(Below(root, up, rest, [], None).value, x);
        }
      }
  }
}
