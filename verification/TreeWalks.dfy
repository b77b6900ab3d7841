// Exactly which nodes an exhaustive search finds, wherever ".." stand in the
// path, and from where.
module TreeWalks {
  import opened Wrappers
  import opened NodePath
  import opened NodePathTheory
  import opened Tree
  import opened TreeSearch
  import opened Duplicates
  import opened TreeFind
  import opened TreeOrder
  import opened TreePredicates

  ghost predicate NoChildFits(root: Element, at: Position, token: Token)
  {
    forall i: nat :: !Fits(root, at + [i], ElementKind, token)
  }

  // The tokens lead from the element to the node: ".." to the element above,
  // any other token to a child that fits it, and the last one, when no child
  // does, to an attribute that fits it.
  ghost predicate Leads(root: Element, at: Position, tokens: seq<Token>, n: Node)
    decreases |tokens|
  {
    if tokens == [] then n == Node(at, None)
    else if tokens[0].name == ".." then Leads(root, Parent(at), tokens[1..], n)
    else
      || (exists i: nat :: Fits(root, at + [i], ElementKind, tokens[0]) && Leads(root, at + [i], tokens[1..], n))
      || LeadsToOwn(root, at, tokens, n)
  }

  ghost predicate LeadsToOwn(root: Element, at: Position, tokens: seq<Token>, n: Node)
  {
    && |tokens| == 1 && n == Node(at, Some(tokens[0].name))
    && Fits(root, at, AttributeKind, tokens[0]) && NoChildFits(root, at, tokens[0])
  }

  ghost predicate Via(root: Element, at: Position, i: nat, tokens: seq<Token>, n: Node)
    requires tokens != []
  {
    Fits(root, at + [i], ElementKind, tokens[0]) && Leads(root, at + [i], tokens[1..], n)
  }

  ghost predicate ViaFrom(root: Element, at: Position, i: nat, tokens: seq<Token>, n: Node)
    requires tokens != []
  {
    exists j :: j >= i && Via(root, at, j, tokens, n)
  }

  lemma {:induction false} LeadsFirst(root: Element, at: Position, tokens: seq<Token>, n: Node)
    requires tokens != [] && tokens[0].name != ".."
    ensures Leads(root, at, tokens, n) <==> ViaFrom(root, at, 0, tokens, n) || LeadsToOwn(root, at, tokens, n)
  {
    if Leads(root, at, tokens, n) && !LeadsToOwn(root, at, tokens, n) {
      var i: nat :| Fits(root, at + [i], ElementKind, tokens[0]) && Leads(root, at + [i], tokens[1..], n);
      assert Via(root, at, i, tokens, n);
    }
    if ViaFrom(root, at, 0, tokens, n) {
      var j :| j >= 0 && Via(root, at, j, tokens, n);
      assert Fits(root, at + [j], ElementKind, tokens[0]);
    }
  }

  // ---------------------------------------------------------------------
  // The search finds exactly these.
  // ---------------------------------------------------------------------

  lemma {:induction false} DescendFinds(root: Element, at: Position, tokens: seq<Token>, n: Node)
    requires Within(root, at) && Searchable(tokens) && Descend(root, at, tokens, [], None).Ok?
    ensures n in Descend(root, at, tokens, [], None).value <==> Leads(root, at, tokens, n)
    decreases |tokens|, 3, 0
  {
    DescendFirst(root, at, tokens, None);
    if tokens != [] && tokens[0].name == ".." {
      DescendFinds(root, Parent(at), tokens[1..], n);
    } else if tokens != [] {
      BelowFinds(root, at, tokens, n);
    }
  }

  lemma {:induction false} BelowFinds(root: Element, at: Position, tokens: seq<Token>, n: Node)
    requires Within(root, at) && Searchable(tokens) && tokens != [] && tokens[0].name != ".."
    requires Below(root, at, tokens, [], None).Ok?
    ensures n in Below(root, at, tokens, [], None).value <==> Leads(root, at, tokens, n)
    decreases |tokens|, 2, 0
  {
    LeadsFirst(root, at, tokens, n);
    ChildrenFind(root, at, 0, tokens, n);
    if |tokens| == 1 {
      var children := SearchChildren(root, at, 0, tokens, [], None).value;
      NoChildFound(root, at, tokens, children);
      if children == [] {
        AttributeFound(root, at, tokens, n);
      }
    }
  }

  lemma {:induction false} AttributeFound(root: Element, at: Position, tokens: seq<Token>, n: Node)
    requires Within(root, at) && Searchable(tokens) && |tokens| == 1
    requires Search(root, at, AttributeKind, tokens, [], None).Ok?
    ensures n in Search(root, at, AttributeKind, tokens, [], None).value
      <==> n == Node(at, Some(tokens[0].name)) && Fits(root, at, AttributeKind, tokens[0])
  {
    MatchesIff(root, at, AttributeKind, tokens[0]);
    assert [] + [Node(at, Some(tokens[0].name))] == [Node(at, Some(tokens[0].name))];
  }

  // A single token finds no child exactly when none fits it.
  lemma {:induction false} NoChildFound(root: Element, at: Position, tokens: seq<Token>, children: seq<Node>)
    requires Within(root, at) && Searchable(tokens) && |tokens| == 1
    requires SearchChildren(root, at, 0, tokens, [], None) == Ok(children)
    ensures children == [] <==> NoChildFits(root, at, tokens[0])
    decreases |tokens|, 1, |At(root, at).children| + 1
  {
    if children != [] {
      ChildrenFind(root, at, 0, tokens, children[0]);
      var j :| j >= 0 && Via(root, at, j, tokens, children[0]);
      assert Fits(root, at + [j], ElementKind, tokens[0]);
    } else {
      forall i: nat
        ensures !Fits(root, at + [i], ElementKind, tokens[0])
      {
        ChildrenFind(root, at, 0, tokens, Node(at + [i], None));
        assert Via(root, at, i, tokens, Node(at + [i], None)) <==> Fits(root, at + [i], ElementKind, tokens[0]);
      }
    }
  }

  lemma {:induction false} ChildrenFind(root: Element, at: Position, i: nat, tokens: seq<Token>, n: Node)
    requires Within(root, at) && Searchable(tokens) && tokens != []
    requires SearchChildren(root, at, i, tokens, [], None).Ok?
    ensures n in SearchChildren(root, at, i, tokens, [], None).value <==> ViaFrom(root, at, i, tokens, n)
    decreases |tokens|, 1, |At(root, at).children| - i
  {
    if i < |At(root, at).children| {
      ChildWithin(root, at, i);
      var first, more := ChildrenSplit(root, at, i, tokens);
      ChildFinds(root, at, i, tokens, n);
      ChildrenFind(root, at, i + 1, tokens, n);
      assert n in first + more <==> n in first || n in more;
      ViaNext(root, at, i, tokens, n);
    } else if ViaFrom(root, at, i, tokens, n) {
      var j :| j >= i && Via(root, at, j, tokens, n);
      ChildWithin(root, at, j);
    }
  }

  lemma {:induction false} ViaNext(root: Element, at: Position, i: nat, tokens: seq<Token>, n: Node)
    requires tokens != []
    ensures ViaFrom(root, at, i, tokens, n) <==> Via(root, at, i, tokens, n) || ViaFrom(root, at, i + 1, tokens, n)
  {
    if ViaFrom(root, at, i, tokens, n) {
      var j :| j >= i && Via(root, at, j, tokens, n);
      assert j != i ==> j >= i + 1;
    }
  }

  lemma {:induction false} ChildFinds(root: Element, at: Position, i: nat, tokens: seq<Token>, n: Node)
    requires Searchable(tokens) && tokens != [] && Within(root, at + [i])
    requires Search(root, at + [i], ElementKind, tokens, [], None).Ok?
    ensures n in Search(root, at + [i], ElementKind, tokens, [], None).value <==> Via(root, at, i, tokens, n)
    decreases |tokens|, 0, 0
  {
    SearchDescends(root, at + [i], tokens, None);
    MatchesIff(root, at + [i], ElementKind, tokens[0]);
    if Fits(root, at + [i], ElementKind, tokens[0]) {
      DescendFinds(root, at + [i], tokens[1..], n);
    }
  }

  // ---------------------------------------------------------------------
  // Searching for a first match instead.
  // ---------------------------------------------------------------------

  lemma {:induction false} LeadsByName(root: Element, at: Position, tokens: seq<Token>, n: Node)
    requires Within(root, at) && Leads(root, at, tokens, n)
    ensures LeadsBelow(root, at, tokens, n) && IsNode(root, n)
    decreases |tokens|
  {
    if tokens != [] && tokens[0].name == ".." {
      ParentWithin(root, at);
      LeadsByName(root, Parent(at), tokens[1..], n);
    } else if tokens != [] && !LeadsToOwn(root, at, tokens, n) {
      var i: nat :| Fits(root, at + [i], ElementKind, tokens[0]) && Leads(root, at + [i], tokens[1..], n);
      LeadsByName(root, at + [i], tokens[1..], n);
      assert ChildNamed(root, at + [i], tokens[0].name);
    }
  }

  // Stopping at the first match loses nothing: if an exhaustive search from
  // the same node finds a node with the value, so does the search for it.
  lemma {:induction false} FirstMatchSucceeds(root: Element, at: Position, tokens: seq<Token>, value: string, n: Node)
    requires Within(root, at) && AllBare(tokens) && Searchable(tokens)
    requires Descend(root, at, tokens, [], None).Ok? && n in Descend(root, at, tokens, [], None).value
    requires IsNode(root, n) ==> ValueOf(root, n) == value
    ensures var r := Descend(root, at, tokens, [], Some(value));
      r.Ok? && |r.value| == 1 && HasValue(root, r.value[0], value)
  {
    DescendFinds(root, at, tokens, n);
    LeadsByName(root, at, tokens, n);
    FirstBelow(root, at, tokens, value, n);
  }

  // ---------------------------------------------------------------------
  // Finding from the root and from a node.
  // ---------------------------------------------------------------------

  // Without a starting node the first token must fit the root, unless it has
  // another name: then the root is implied.  With one, the tokens lead from
  // there; no token at all leads to the node itself.
  ghost predicate Wanted(root: Element, start: Option<Node>, tokens: seq<Token>, n: Node)
  {
    match start
    case None =>
      if tokens == [] || tokens[0].name != root.name then Leads(root, [], tokens, n)
      else Fits(root, [], ElementKind, tokens[0]) && Leads(root, [], tokens[1..], n)
    case Some(s) => if tokens == [] then n == s else Leads(root, s.at, tokens, n)
  }

  // All attributes a path leads to have the name of its last token.
  lemma {:induction false} LeadsToName(root: Element, at: Position, tokens: seq<Token>, n: Node)
    requires Leads(root, at, tokens, n) && n.attribute.Some?
    ensures tokens != [] && n.attribute == Some(tokens[|tokens| - 1].name)
    decreases |tokens|
  {
    if tokens[0].name == ".." {
      LeadsToName(root, Parent(at), tokens[1..], n);
    } else if !LeadsToOwn(root, at, tokens, n) {
      var i: nat :| Fits(root, at + [i], ElementKind, tokens[0]) && Leads(root, at + [i], tokens[1..], n);
      LeadsToName(root, at + [i], tokens[1..], n);
    }
  }

  // Removing duplicates loses no node of such a list.
  lemma {:induction false} KeepLastKeeps(nodes: seq<Node>, n: Node)
    requires forall x, y :: x in nodes && y in nodes && Same(x, y) ==> x == y
    ensures n in KeepLast(nodes) <==> n in nodes
    decreases |nodes|
  {
    if nodes != [] {
      var rest := nodes[1..];
      assert forall x :: x in rest ==> x in nodes;
      KeepLastKeeps(rest, n);
      if CountSame(rest, nodes[0]) > 0 {
        var i := LastIndex(rest, nodes[0]);
        assert rest[i] in nodes && nodes[0] in nodes;
      }
    }
  }

  lemma {:induction false} DeduplicatedFinds(root: Element, at: Position, tokens: seq<Token>, found: Found, dots: bool,
      n: Node)
    requires found.Ok? && forall x :: x in found.value <==> Leads(root, at, tokens, x)
    ensures n in Deduplicated(found, dots).value <==> Leads(root, at, tokens, n)
  {
    forall x, y | x in found.value && y in found.value && Same(x, y)
      ensures x == y
    {
      if x.attribute.Some? {
        LeadsToName(root, at, tokens, x);
        LeadsToName(root, at, tokens, y);
      }
    }
    KeepLastKeeps(found.value, n);
  }

  // Whatever path and starting node: unless the search ends in an error it
  // finds exactly the nodes that are wanted.
  lemma {:induction false} FindsExactly(root: Element, path: string, start: Option<Node>, tokens: seq<Token>, n: Node)
    requires Parse(path) == Ok(tokens) && (start.Some? ==> IsNode(root, start.value))
    requires Find(root, path, start).Ok?
    ensures n in Find(root, path, start).value <==> Wanted(root, start, tokens, n)
  {
    ParsedSearchable(path);
    match start
    case None => FromRootFinds(root, tokens, n);
    case Some(s) => FromNodeFinds(root, s, tokens, n);
  }

  lemma {:induction false} FromRootFinds(root: Element, tokens: seq<Token>, n: Node)
    requires Searchable(tokens) && FromRoot(root, tokens).Ok?
    ensures n in FromRoot(root, tokens).value <==> Wanted(root, None, tokens, n)
  {
    RootedSearchable(root, tokens);
    var all := Rooted(root, tokens);
    var found := Search(root, [], ElementKind, all, [], None);
    SearchDescends(root, [], all, None);
    MatchesIff(root, [], ElementKind, all[0]);
    assert all[1..] == if tokens == [] || tokens[0].name != root.name then tokens else tokens[1..];
    if Fits(root, [], ElementKind, all[0]) {
      forall x
        ensures x in found.value <==> Leads(root, [], all[1..], x)
      {
        DescendFinds(root, [], all[1..], x);
      }
      DeduplicatedFinds(root, [], all[1..], found, HasDots(all), n);
    }
  }

  lemma {:induction false} FromNodeFinds(root: Element, s: Node, tokens: seq<Token>, n: Node)
    requires Searchable(tokens) && IsNode(root, s) && FromNode(root, s, tokens).Ok?
    ensures n in FromNode(root, s, tokens).value <==> Wanted(root, Some(s), tokens, n)
  {
    DotsFit(root, tokens, s.at);
    var (rest, up) := Dots(tokens, s.at);
    if tokens != [] {
      assert [] + [Node(up, None)] == [Node(up, None)];
      DescendFinds(root, s.at, tokens, n);
      if rest != [] {
        var found := Below(root, up, rest, [], None);
        forall x
          ensures x in found.value <==> Leads(root, s.at, tokens, x)
        {
          DescendFinds(root, s.at, tokens, x);
        }
        DeduplicatedFinds(root, s.at, tokens, found, HasDots(rest), n);
      }
    }
  }
}
