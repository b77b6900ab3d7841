// Paths without ".." after their beginning: the nodes they find, said by
// position, and their order.
module TreeTokens {
  import opened Wrappers
  import opened NodePath
  import opened Tree
  import opened TreeSearch
  import opened TreeFind
  import opened TreeOrder
  import opened TreePredicates
  import opened TreeWalks

  // The first n elements on the way from `at` to `to` fit the first n tokens.
  ghost predicate Way(fits: (Position, Token) -> bool, at: Position, tokens: seq<Token>, to: Position, n: nat)
    requires n <= |tokens|
  {
    at <= to && |at| + n <= |to| && forall k :: 0 <= k < n ==> fits(to[..|at| + k + 1], tokens[k])
  }

  ghost function Fitting(root: Element): (Position, Token) -> bool
  {
    (p, t) => Fits(root, p, ElementKind, t)
  }

  ghost predicate WayFits(root: Element, at: Position, tokens: seq<Token>, to: Position, n: nat)
    requires n <= |tokens|
  {
    Way(Fitting(root), at, tokens, to, n)
  }

  // The node is an element below `at`, one level for each token, and every
  // element on the way fits its token; or an attribute that fits the last
  // token, of an element found like that for the tokens before it, none of
  // whose children fits the last one.
  ghost predicate Denoted(root: Element, at: Position, tokens: seq<Token>, n: Node)
    requires tokens != []
  {
    var last := |tokens| - 1;
    match n.attribute
    case None => |n.at| == |at| + |tokens| && WayFits(root, at, tokens, n.at, |tokens|)
    case Some(a) =>
      && a == tokens[last].name && |n.at| == |at| + last && WayFits(root, at, tokens, n.at, last)
      && Fits(root, n.at, AttributeKind, tokens[last]) && NoChildFits(root, n.at, tokens[last])
  }

  // As Denoted, one level at a time.
  ghost predicate DenotedVia(root: Element, at: Position, tokens: seq<Token>, n: Node)
    requires tokens != []
  {
    && at < n.at && Fits(root, n.at[..|at| + 1], ElementKind, tokens[0])
    && if |tokens| == 1 then n == Node(n.at[..|at| + 1], None)
       else Denoted(root, n.at[..|at| + 1], tokens[1..], n)
  }

  // One token and one level off the way.
  lemma {:induction false} WayStep(fits: (Position, Token) -> bool, at: Position, tokens: seq<Token>, to: Position,
      n: nat)
    requires 0 < n <= |tokens| && at < to
    ensures Way(fits, at, tokens, to, n)
      <==> fits(to[..|at| + 1], tokens[0]) && Way(fits, to[..|at| + 1], tokens[1..], to, n - 1)
  {
    var child := to[..|at| + 1];
    if Way(fits, at, tokens, to, n) {
      assert fits(to[..|at| + 0 + 1], tokens[0]);
      forall k | 0 <= k < n - 1
        ensures fits(to[..|child| + k + 1], tokens[1..][k])
      {
        assert fits(to[..|at| + (k + 1) + 1], tokens[k + 1]);
      }
    }
    if fits(child, tokens[0]) && Way(fits, child, tokens[1..], to, n - 1) {
      forall k | 0 <= k < n
        ensures fits(to[..|at| + k + 1], tokens[k])
      {
        if k > 0 {
          assert fits(to[..|child| + (k - 1) + 1], tokens[1..][k - 1]);
        }
      }
    }
  }

  lemma {:induction false} DenotedElement(root: Element, at: Position, tokens: seq<Token>, n: Node)
    requires tokens != [] && at < n.at && n.attribute.None?
    ensures Denoted(root, at, tokens, n) <==> DenotedVia(root, at, tokens, n)
  {
    WayStep(Fitting(root), at, tokens, n.at, |tokens|);
    assert |n.at| == |at| + 1 ==> n.at[..|at| + 1] == n.at;
  }

  lemma {:induction false} DenotedAttribute(root: Element, at: Position, tokens: seq<Token>, n: Node)
    requires tokens != [] && at < n.at && n.attribute.Some?
    ensures Denoted(root, at, tokens, n) <==> DenotedVia(root, at, tokens, n)
  {
    if |tokens| > 1 {
      WayStep(Fitting(root), at, tokens, n.at, |tokens| - 1);
      assert tokens[1..][|tokens| - 2] == tokens[|tokens| - 1];
    }
  }

  lemma {:induction false} DenotedStep(root: Element, at: Position, tokens: seq<Token>, n: Node)
    requires tokens != [] && at <= n.at
    ensures Denoted(root, at, tokens, n) <==> DenotedVia(root, at, tokens, n) || LeadsToOwn(root, at, tokens, n)
  {
    if at < n.at && n.attribute.None? {
      DenotedElement(root, at, tokens, n);
    } else if at < n.at {
      DenotedAttribute(root, at, tokens, n);
    } else {
      assert n.at == at;
    }
  }

  // These are the nodes the tokens lead to.
  lemma {:induction false} DenotedIsLed(root: Element, at: Position, tokens: seq<Token>, n: Node)
    requires tokens != [] && Dotless(tokens)
    ensures Leads(root, at, tokens, n) <==> at <= n.at && Denoted(root, at, tokens, n)
    decreases |tokens|
  {
    LeadsFirst(root, at, tokens, n);
    if at <= n.at {
      DenotedStep(root, at, tokens, n);
    }
    if ViaFrom(root, at, 0, tokens, n) {
      var j :| j >= 0 && Via(root, at, j, tokens, n);
      ViaIsDenoted(root, at, j, tokens, n);
    }
    if at <= n.at && DenotedVia(root, at, tokens, n) {
      assert n.at[..|at| + 1] == at + [n.at[|at|]];
      ViaIsDenoted(root, at, n.at[|at|], tokens, n);
    }
  }

  lemma {:induction false} ViaIsDenoted(root: Element, at: Position, j: nat, tokens: seq<Token>, n: Node)
    requires tokens != [] && Dotless(tokens)
    ensures Via(root, at, j, tokens, n) <==> at + [j] <= n.at && DenotedVia(root, at, tokens, n)
    decreases |tokens|, 0
  {
    var child := at + [j];
    assert child <= n.at ==> n.at[..|at| + 1] == child;
    if |tokens| > 1 {
      assert Dotless(tokens[1..]);
      DenotedIsLed(root, child, tokens[1..], n);
    }
  }

  // ---------------------------------------------------------------------
  // Finding from the root.
  // ---------------------------------------------------------------------

  // The root's own token, written or implied, must fit the root; the others
  // lead down from there.
  ghost predicate DenotedFromRoot(root: Element, all: seq<Token>, n: Node)
    requires all != []
  {
    && Fits(root, [], ElementKind, all[0])
    && if |all| == 1 then n == Node([], None) else Denoted(root, [], all[1..], n)
  }

  // A path without "..", whatever values and predicates it has, finds exactly
  // the nodes it denotes, in document order, unless a predicate's path cannot
  // be read.
  lemma {:induction false} FindByTokens(root: Element, path: string, tokens: seq<Token>, n: Node)
    requires Parse(path) == Ok(tokens) && Dotless(Rooted(root, tokens)) && Find(root, path, None).Ok?
    ensures InOrder(Find(root, path, None).value)
    ensures n in Find(root, path, None).value <==> DenotedFromRoot(root, Rooted(root, tokens), n)
  {
    var all := Rooted(root, tokens);
    ParsedSearchable(path);
    RootedSearchable(root, tokens);
    SearchInOrder(root, [], ElementKind, all);
    FindsExactly(root, path, None, tokens, n);
    RootFits(root);
    if |all| > 1 {
      assert Dotless(all[1..]);
      DenotedIsLed(root, [], all[1..], n);
    }
    assert all[1..] == if tokens == [] || tokens[0].name != root.name then tokens else tokens[1..];
  }

  lemma {:induction false} RootFits(root: Element)
    ensures Fits(root, [], ElementKind, Token(root.name, [], []))
  {
  }

  // ---------------------------------------------------------------------
  // Finding from a node.
  // ---------------------------------------------------------------------

  // The path is k times ".." and then goes on without.
  ghost predicate GoesUp(tokens: seq<Token>, k: nat)
  {
    k <= |tokens| && (forall j :: 0 <= j < k ==> tokens[j].name == "..") && Dotless(tokens[k..])
  }

  // No token at all gives the node itself, and only ".." the element so many
  // levels up, the root at most.
  lemma {:induction false} FindAbove(root: Element, path: string, s: Node, tokens: seq<Token>)
    requires Parse(path) == Ok(tokens) && IsNode(root, s) && GoesUp(tokens, |tokens|)
    ensures var up := if |tokens| <= |s.at| then s.at[..|s.at| - |tokens|] else [];
      Find(root, path, Some(s)) == Ok([if tokens == [] then s else Node(up, None)])
  {
    ParsedSearchable(path);
    FromNodeBelow(root, s, tokens, |tokens|);
  }

  // What follows leads down from that element, and the nodes come in document
  // order.
  lemma {:induction false} FindFromNode(root: Element, path: string, s: Node, tokens: seq<Token>, k: nat, n: Node)
    requires Parse(path) == Ok(tokens) && IsNode(root, s) && Find(root, path, Some(s)).Ok?
    requires GoesUp(tokens, k) && k < |tokens|
    ensures var up := if k <= |s.at| then s.at[..|s.at| - k] else [];
      && InOrder(Find(root, path, Some(s)).value)
      && (n in Find(root, path, Some(s)).value <==> up <= n.at && Denoted(root, up, tokens[k..], n))
  {
    var up := Above(s.at, k);
    FindIsBelow(root, path, s, tokens, k);
    BelowInOrderFinds(root, up, tokens[k..], n);
  }

  lemma {:induction false} FindIsBelow(root: Element, path: string, s: Node, tokens: seq<Token>, k: nat)
    requires Parse(path) == Ok(tokens) && IsNode(root, s) && GoesUp(tokens, k) && k < |tokens|
    ensures Within(root, Above(s.at, k)) && Searchable(tokens[k..])
    ensures Find(root, path, Some(s)) == Below(root, Above(s.at, k), tokens[k..], [], None)
  {
    ParsedSearchable(path);
    FromNodeBelow(root, s, tokens, k);
  }

  lemma {:induction false} FromNodeBelow(root: Element, s: Node, tokens: seq<Token>, k: nat)
    requires Searchable(tokens) && IsNode(root, s) && GoesUp(tokens, k)
    ensures Within(root, Above(s.at, k)) && Searchable(tokens[k..])
    ensures FromNode(root, s, tokens)
      == if tokens == [] then Ok([s])
         else if k == |tokens| then Ok([Node(Above(s.at, k), None)])
         else Below(root, Above(s.at, k), tokens[k..], [], None)
  {
    DotsFit(root, tokens, s.at);
    DotsClimb(tokens, s.at);
    assert k < |tokens| ==> tokens[k] == tokens[k..][0];
    assert LeadingDots(tokens) == k;
    DotlessHasNoDots(tokens[k..]);
  }

  lemma {:induction false} BelowInOrderFinds(root: Element, at: Position, tokens: seq<Token>, n: Node)
    requires Within(root, at) && Searchable(tokens) && Dotless(tokens) && tokens != []
    requires Below(root, at, tokens, [], None).Ok?
    ensures InOrder(Below(root, at, tokens, [], None).value)
    ensures n in Below(root, at, tokens, [], None).value <==> at <= n.at && Denoted(root, at, tokens, n)
  {
    BelowInOrder(root, at, tokens);
    DescendFinds(root, at, tokens, n);
    DenotedIsLed(root, at, tokens, n);
  }

  lemma {:induction false} DotlessHasNoDots(tokens: seq<Token>)
    requires Dotless(tokens)
    ensures !HasDots(tokens)
  {
  }
}
