// Searching for a first match, and the predicates that use it.
module TreePredicates {
  import opened Wrappers
  import opened NodePath
  import opened NamePaths
  import opened NodePathTheory
  import opened Tree
  import opened TreeSearch

  ghost predicate HasValue(root: Element, n: Node, value: string)
  {
    IsNode(root, n) && ValueOf(root, n) == value
  }

  // ---------------------------------------------------------------------
  // Where the names of a path may lead, children or not in the way of an
  // attribute.
  // ---------------------------------------------------------------------

  ghost predicate LeadsBelow(root: Element, at: Position, tokens: seq<Token>, n: Node)
    decreases |tokens|
  {
    if tokens == [] then n == Node(at, None)
    else if tokens[0].name == ".." then LeadsBelow(root, Parent(at), tokens[1..], n)
    else
      || (exists i: nat :: ChildNamed(root, at + [i], tokens[0].name) && LeadsBelow(root, at + [i], tokens[1..], n))
      || LeadsToAttribute(root, at, tokens, n)
  }

  ghost predicate ChildNamed(root: Element, child: Position, name: string)
  {
    Within(root, child) && At(root, child).name == name
  }

  ghost predicate LeadsToChild(root: Element, at: Position, i: nat, tokens: seq<Token>, n: Node)
    requires tokens != []
  {
    ChildNamed(root, at + [i], tokens[0].name) && LeadsBelow(root, at + [i], tokens[1..], n)
  }

  ghost predicate LeadsToAttribute(root: Element, at: Position, tokens: seq<Token>, n: Node)
  {
    |tokens| == 1 && n == Node(at, Some(tokens[0].name)) && IsNode(root, n)
  }

  // ---------------------------------------------------------------------
  // A first match is found exactly when there is one.
  // ---------------------------------------------------------------------

  ghost predicate AtMostOne(r: Found, root: Element, value: string)
  {
    r.Ok? && |r.value| <= 1 && (r.value != [] ==> HasValue(root, r.value[0], value))
  }

  lemma {:induction false} TailBare(tokens: seq<Token>)
    requires AllBare(tokens) && tokens != []
    ensures AllBare(tokens[1..])
  {
    assert forall i :: 0 <= i < |tokens[1..]| ==> tokens[1..][i] == tokens[i + 1];
  }

  lemma {:induction false} MatchesBare(root: Element, at: Position, kind: Kind, token: Token)
    requires Within(root, at) && Bare(token) && SearchableToken(token)
    ensures Matches(root, at, kind, token) == Ok(Named(At(root, at), kind, token.name))
  {
  }

  lemma {:induction false} FirstBelow(root: Element, at: Position, tokens: seq<Token>, value: string, n: Node)
    requires Within(root, at) && AllBare(tokens) && Searchable(tokens)
    ensures var r := Descend(root, at, tokens, [], Some(value));
      && AtMostOne(r, root, value)
      && (r.value != [] ==> LeadsBelow(root, at, tokens, r.value[0]))
      && (LeadsBelow(root, at, tokens, n) && HasValue(root, n, value) ==> r.value != [])
    decreases |tokens|, 2, 0
  {
    DescendFirst(root, at, tokens, Some(value));
    if tokens != [] && tokens[0].name == ".." {
      TailBare(tokens);
      FirstBelow(root, Parent(at), tokens[1..], value, n);
    } else if tokens != [] {
      var k := ChildLed(root, at, tokens, n);
      var j := FirstChild(root, at, 0, tokens, value, n, k);
      FirstAttribute(root, at, tokens, value);
      EitherFirst(root, at, tokens, value);
    }
  }

  lemma {:induction false} ChildLed(root: Element, at: Position, tokens: seq<Token>, n: Node) returns (k: nat)
    requires tokens != [] && tokens[0].name != ".."
    ensures LeadsBelow(root, at, tokens, n) ==>
      LeadsToChild(root, at, k, tokens, n) || LeadsToAttribute(root, at, tokens, n)
  {
    k := 0;
    if LeadsBelow(root, at, tokens, n) && !LeadsToAttribute(root, at, tokens, n) {
      k :| ChildNamed(root, at + [k], tokens[0].name) && LeadsBelow(root, at + [k], tokens[1..], n);
    }
  }

  // The children are searched first.
  lemma {:induction false} EitherFirst(root: Element, at: Position, tokens: seq<Token>, value: string)
    requires Within(root, at) && Searchable(tokens) && tokens != []
    requires SearchChildren(root, at, 0, tokens, [], Some(value)).Ok?
    ensures var children := SearchChildren(root, at, 0, tokens, [], Some(value));
      Below(root, at, tokens, [], Some(value))
      == if children == Ok([]) && |tokens| == 1 then Search(root, at, AttributeKind, tokens, [], Some(value))
         else children
  {
    assert |SearchChildren(root, at, 0, tokens, [], Some(value)).value| == 0 ==>
      SearchChildren(root, at, 0, tokens, [], Some(value)).value == [];
  }

  lemma {:induction false} FirstAttribute(root: Element, at: Position, tokens: seq<Token>, value: string)
    requires Within(root, at) && AllBare(tokens) && Searchable(tokens) && tokens != []
    ensures var n := Node(at, Some(tokens[0].name));
      |tokens| == 1 ==>
        Search(root, at, AttributeKind, tokens, [], Some(value)) == Ok(if HasValue(root, n, value) then [n] else [])
  {
    MatchesBare(root, at, AttributeKind, tokens[0]);
    var n := Node(at, Some(tokens[0].name));
    if IsNode(root, n) {
      assert [] + Taken(root, n, Some(value)) == Taken(root, n, Some(value));
    }
  }

  // What is found came from child j; what child k leads to is not missed.
  lemma {:induction false} FirstChild(root: Element, at: Position, i: nat, tokens: seq<Token>, value: string, n: Node,
      k: nat) returns (j: nat)
    requires Within(root, at) && AllBare(tokens) && Searchable(tokens) && tokens != []
    ensures var r := SearchChildren(root, at, i, tokens, [], Some(value));
      && AtMostOne(r, root, value)
      && (r.value != [] ==> LeadsToChild(root, at, j, tokens, r.value[0]))
      && (k >= i && LeadsToChild(root, at, k, tokens, n) && HasValue(root, n, value) ==> r.value != [])
    decreases |tokens|, 1, |At(root, at).children| - i
  {
    j := i;
    ChildWithin(root, at, k);
    if i < |At(root, at).children| {
      ChildWithin(root, at, i);
      FirstFrom(root, at, i, tokens, value, n);
      if Search(root, at + [i], ElementKind, tokens, [], Some(value)) == Ok([]) {
        j := FirstChild(root, at, i + 1, tokens, value, n, k);
      }
    }
  }

  lemma {:induction false} FirstFrom(root: Element, at: Position, i: nat, tokens: seq<Token>, value: string, n: Node)
    requires AllBare(tokens) && Searchable(tokens) && tokens != [] && Within(root, at + [i])
    ensures var r := Search(root, at + [i], ElementKind, tokens, [], Some(value));
      && AtMostOne(r, root, value)
      && (r.value != [] ==> LeadsToChild(root, at, i, tokens, r.value[0]))
      && (LeadsToChild(root, at, i, tokens, n) && HasValue(root, n, value) ==> r.value != [])
    decreases |tokens|, 0, 0
  {
    TailBare(tokens);
    MatchesBare(root, at + [i], ElementKind, tokens[0]);
    SearchDescends(root, at + [i], tokens, Some(value));
    FirstBelow(root, at + [i], tokens[1..], value, n);
  }

  // ---------------------------------------------------------------------
  // Predicates.
  // ---------------------------------------------------------------------

  // The valpath leads from `at` to a node with the value.
  ghost predicate Holds(root: Element, at: Position, valpath: string, value: string)
  {
    Parse(valpath).Ok? && exists n :: LeadsToValue(root, at, Parse(valpath).value, value, n)
  }

  ghost predicate LeadsToValue(root: Element, at: Position, tokens: seq<Token>, value: string, n: Node)
  {
    LeadsBelow(root, at, tokens, n) && HasValue(root, n, value)
  }

  // Where the leading ".." of a valpath lead: as many levels up.
  ghost function Raised(at: Position, valpath: string): Position
  {
    if Parse(valpath).Ok? then Above(at, LeadingDots(Parse(valpath).value)) else at
  }

  // Every valpath from the i-th on holds where the ones before it led.
  ghost predicate AllHold(root: Element, at: Position, valpaths: seq<string>, values: seq<string>, i: nat)
    requires i <= |valpaths| <= |values|
    decreases |valpaths| - i
  {
    || i == |valpaths|
    || (Holds(root, at, valpaths[i], values[i]) && AllHold(root, Raised(at, valpaths[i]), valpaths, values, i + 1))
  }

  lemma {:induction false} OneHolds(root: Element, at: Position, tokens: seq<Token>, value: string)
    requires Within(root, at) && AllBare(tokens) && Searchable(tokens)
    ensures var r := Descend(root, at, tokens, [], Some(value));
      r.Ok? && (r.value != [] <==> exists n :: LeadsToValue(root, at, tokens, value, n))
  {
    var r := Descend(root, at, tokens, [], Some(value));
    FirstBelow(root, at, tokens, value, Node(at, None));
    if r.value != [] {
      assert LeadsToValue(root, at, tokens, value, r.value[0]);
    }
    if n :| LeadsToValue(root, at, tokens, value, n) {
      FirstBelow(root, at, tokens, value, n);
    }
  }

  // A node satisfies its predicates exactly when each valpath leads to a node
  // with its value, from where the leading ".." of the earlier ones led.
  lemma {:induction false} BracketMatchIff(root: Element, at: Position, valpaths: seq<string>, values: seq<string>,
      i: nat)
    requires Within(root, at) && i <= |valpaths| <= |values|
    requires forall j :: 0 <= j < |valpaths| ==> BareIfParsed(valpaths[j])
    ensures BracketMatch(root, at, valpaths, values, i) == Ok(true) <==> AllHold(root, at, valpaths, values, i)
    decreases |valpaths| - i
  {
    if i < |valpaths| && Parse(valpaths[i]).Ok? {
      var tokens := Parse(valpaths[i]).value;
      assert BareIfParsed(valpaths[i]);
      BareSearchable(tokens);
      DotsFit(root, tokens, at);
      DotsClimb(tokens, at);
      OneHolds(root, at, tokens, values[i]);
      BracketMatchIff(root, Raised(at, valpaths[i]), valpaths, values, i + 1);
    }
  }

  // The node has the name of the token, and either no value is asked for, or
  // it has the one asked for, or every valpath leads to its value.
  ghost predicate Fits(root: Element, at: Position, kind: Kind, token: Token)
  {
    var n := Node(at, if kind.ElementKind? then None else Some(token.name));
    && SearchableToken(token) && IsNode(root, n) && (kind.ElementKind? ==> At(root, at).name == token.name)
    && (|| token.values == []
        || (token.valpaths == [] && ValueOf(root, n) == token.values[0])
        || (token.valpaths != [] && AllHold(root, at, token.valpaths, token.values, 0)))
  }

  // The search takes a node for a token exactly when it fits.
  lemma {:induction false} MatchesIff(root: Element, at: Position, kind: Kind, token: Token)
    requires Within(root, at) && SearchableToken(token)
    ensures Matches(root, at, kind, token) == Ok(true) <==> Fits(root, at, kind, token)
  {
    BracketMatchIff(root, at, token.valpaths, token.values, 0);
  }

  ghost predicate StartsWithDots(valpath: string)
  {
    Parse(valpath).Ok? && Parse(valpath).value != [] && Parse(valpath).value[0].name == ".."
  }

  ghost predicate Level(valpaths: seq<string>)
  {
    forall j :: 0 <= j < |valpaths| ==> BareIfParsed(valpaths[j]) && !StartsWithDots(valpaths[j])
  }

  // Each valpath from the i-th on holds at the node itself.
  ghost predicate EachHolds(root: Element, at: Position, valpaths: seq<string>, values: seq<string>, i: nat)
    requires Within(root, at) && |valpaths| <= |values| && Level(valpaths)
  {
    forall j :: i <= j < |valpaths| ==> Holds(root, at, valpaths[j], values[j])
  }

  lemma {:induction false} NotRaised(at: Position, valpath: string)
    requires !StartsWithDots(valpath)
    ensures Raised(at, valpath) == at
  {
  }

  lemma {:induction false} EachHoldsStep(root: Element, at: Position, valpaths: seq<string>, values: seq<string>,
      i: nat)
    requires Within(root, at) && i < |valpaths| <= |values| && Level(valpaths)
    ensures EachHolds(root, at, valpaths, values, i)
      <==> Holds(root, at, valpaths[i], values[i]) && EachHolds(root, at, valpaths, values, i + 1)
  {
  }

  lemma {:induction false} AllHoldIff(root: Element, at: Position, valpaths: seq<string>, values: seq<string>, i: nat)
    requires Within(root, at) && i <= |valpaths| <= |values| && Level(valpaths)
    ensures AllHold(root, at, valpaths, values, i) <==> EachHolds(root, at, valpaths, values, i)
    decreases |valpaths| - i
  {
    if i < |valpaths| {
      NotRaised(at, valpaths[i]);
      EachHoldsStep(root, at, valpaths, values, i);
      AllHoldIff(root, at, valpaths, values, i + 1);
    }
  }

  // Without a leading "..", predicates do not affect one another: the node
  // fits exactly when each of them holds at the node itself, so their order
  // does not matter.
  lemma {:induction false} PredicatesIndependent(root: Element, at: Position, valpaths: seq<string>,
      values: seq<string>)
    requires Within(root, at) && |valpaths| <= |values| && Level(valpaths)
    ensures BracketMatch(root, at, valpaths, values, 0) == Ok(true) <==> EachHolds(root, at, valpaths, values, 0)
  {
    BracketMatchIff(root, at, valpaths, values, 0);
    AllHoldIff(root, at, valpaths, values, 0);
  }

  // With one, they do: below a node with children b (of value "x") and c,
  // c[../b="x":b="x"] fits and c[b="x":../b="x"] does not.
  const LEAF: map<string, string> := map[]
  const CHILD_B := Element("b", "x", LEAF, [])
  const CHILD_C := Element("c", "", LEAF, [])
  const PARENT := Element("a", "", LEAF, [CHILD_B, CHILD_C])
  const PATH_B := "b"
  const PATH_UP_B := "../b"
  const UP := Token("..", [], [])
  const B := Token("b", [], [])

  lemma {:induction false} ParentNodes()
    ensures Within(PARENT, [0]) && At(PARENT, [0]) == CHILD_B
    ensures Within(PARENT, [1]) && At(PARENT, [1]) == CHILD_C
  {
    assert [0][1..] == [] && [1][1..] == [];
  }

  lemma {:induction false} ParsedValpaths()
    ensures Parse(PATH_B) == Ok([B]) && Parse(PATH_UP_B) == Ok([UP, B])
  {
    ShortPathsParse("b", "b");
    ShortPathsParse("..", "b");
    assert ".." + "/" + "b" == PATH_UP_B;
  }

  lemma {:induction false} BLeads()
    ensures LeadsToValue(PARENT, [], [B], "x", Node([0], None))
  {
    ParentNodes();
    assert [] + [0] == [0];
    assert [B][1..] == [];
    assert LeadsToChild(PARENT, [], 0, [B], Node([0], None));
  }

  lemma {:induction false} UpBLeads()
    ensures Within(PARENT, [1]) && LeadsToValue(PARENT, [1], [UP, B], "x", Node([0], None))
    ensures Above([1], LeadingDots([UP, B])) == []
  {
    BLeads();
    ParentNodes();
    assert [UP, B][1..] == [B] && Parent([1]) == [];
    assert LeadingDots([B]) == 0;
  }

  lemma {:induction false} BLeadsNowhere(n: Node)
    ensures Within(PARENT, [1]) && !LeadsBelow(PARENT, [1], [B], n)
  {
    ParentNodes();
    forall i: nat
      ensures !ChildNamed(PARENT, [1] + [i], "b")
    {
      ChildWithin(PARENT, [1], i);
    }
  }

  // Two predicates, in this order.
  lemma {:induction false} PairMatches(root: Element, at: Position, p: string, q: string, v: string, w: string)
    requires Within(root, at) && BareIfParsed(p) && BareIfParsed(q)
    ensures BracketMatch(root, at, [p, q], [v, w], 0) == Ok(true)
      <==> Holds(root, at, p, v) && Holds(root, Raised(at, p), q, w)
  {
    var valpaths, values := [p, q], [v, w];
    var up := Raised(at, p);
    BracketMatchIff(root, at, valpaths, values, 0);
    assert AllHold(root, Raised(up, q), valpaths, values, 2);
    assert AllHold(root, up, valpaths, values, 1) == Holds(root, up, q, w);
  }

  lemma {:induction false} HoldsBy(root: Element, at: Position, valpath: string, tokens: seq<Token>, value: string,
      n: Node)
    requires Parse(valpath) == Ok(tokens) && LeadsToValue(root, at, tokens, value, n)
    ensures Holds(root, at, valpath, value) && Raised(at, valpath) == Above(at, LeadingDots(tokens))
  {
  }

  lemma {:induction false} BHolds()
    ensures BareIfParsed(PATH_B) && Holds(PARENT, [], PATH_B, "x")
  {
    ParsedValpaths();
    BLeads();
    HoldsBy(PARENT, [], PATH_B, [B], "x", Node([0], None));
  }

  lemma {:induction false} UpBHolds()
    ensures Within(PARENT, [1]) && BareIfParsed(PATH_UP_B)
    ensures Holds(PARENT, [1], PATH_UP_B, "x") && Raised([1], PATH_UP_B) == []
  {
    ParsedValpaths();
    UpBLeads();
    HoldsBy(PARENT, [1], PATH_UP_B, [UP, B], "x", Node([0], None));
  }

  lemma {:induction false} BFails()
    ensures Within(PARENT, [1]) && BareIfParsed(PATH_B) && !Holds(PARENT, [1], PATH_B, "x")
  {
    ParsedValpaths();
    ParentNodes();
    forall n
      ensures !LeadsToValue(PARENT, [1], [B], "x", n)
    {
      BLeadsNowhere(n);
    }
  }

  lemma {:induction false} PredicateOrderMatters()
    ensures Within(PARENT, [1]) && BareIfParsed(PATH_B) && BareIfParsed(PATH_UP_B)
    ensures BracketMatch(PARENT, [1], [PATH_UP_B, PATH_B], ["x", "x"], 0) == Ok(true)
    ensures BracketMatch(PARENT, [1], [PATH_B, PATH_UP_B], ["x", "x"], 0) != Ok(true)
  {
    BHolds();
    UpBHolds();
    BFails();
    PairMatches(PARENT, [1], PATH_UP_B, PATH_B, "x", "x");
    PairMatches(PARENT, [1], PATH_B, PATH_UP_B, "x", "x");
  }
}
