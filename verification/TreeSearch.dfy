// Finding nodes of a tree by path.
module TreeSearch {
  import opened Wrappers
  import opened NodePath
  import opened NodePathTheory
  import opened Tree

  datatype Kind = ElementKind | AttributeKind

  type Found = Result<seq<Node>, ParserError>

  // Predicates can be looked up: a value for each valpath, and no predicates
  // within them.
  ghost predicate Searchable(tokens: seq<Token>)
  {
    forall i :: 0 <= i < |tokens| ==> SearchableToken(tokens[i])
  }

  ghost predicate SearchableToken(t: Token)
  {
    && |t.valpaths| <= |t.values|
    && forall j :: 0 <= j < |t.valpaths| ==> BareIfParsed(t.valpaths[j])
  }

  ghost predicate BareIfParsed(valpath: string)
  {
    Parse(valpath).Ok? ==> AllBare(Parse(valpath).value)
  }

  ghost function Depth(tokens: seq<Token>): nat
  {
    if AllBare(tokens) then 0 else 1
  }

  // Pops leading "..", moving up as often.
  function Dots(tokens: seq<Token>, at: Position): (r: (seq<Token>, Position))
    ensures |r.0| <= |tokens|
    decreases |tokens|
  {
    if tokens != [] && tokens[0].name == ".." then Dots(tokens[1..], Parent(at)) else (tokens, at)
  }

  lemma {:induction false} DotsFit(root: Element, tokens: seq<Token>, at: Position)
    requires Within(root, at) && Searchable(tokens)
    ensures var (rest, up) := Dots(tokens, at);
      && Within(root, up) && Searchable(rest) && Depth(rest) <= Depth(tokens)
    decreases |tokens|
  {
    if tokens != [] && tokens[0].name == ".." {
      ParentWithin(root, at);
      DotsFit(root, tokens[1..], Parent(at));
    }
  }

  // How many ".." come first.
  ghost function LeadingDots(tokens: seq<Token>): (k: nat)
    ensures k <= |tokens| && forall j :: 0 <= j < k ==> tokens[j].name == ".."
    ensures k < |tokens| ==> tokens[k].name != ".."
  {
    if tokens != [] && tokens[0].name == ".." then 1 + LeadingDots(tokens[1..]) else 0
  }

  // The element k levels up, the root at most.
  ghost function Above(at: Position, k: nat): Position
  {
    if k <= |at| then at[..|at| - k] else []
  }

  lemma {:induction false} AboveNext(at: Position, k: nat)
    ensures Above(Parent(at), k) == Above(at, k + 1)
  {
    if k + 1 <= |at| {
      assert at[..|at| - 1][..|at| - 1 - k] == at[..|at| - (k + 1)];
    }
  }

  lemma {:induction false} DotsClimb(tokens: seq<Token>, at: Position)
    ensures Dots(tokens, at) == (tokens[LeadingDots(tokens)..], Above(at, LeadingDots(tokens)))
    decreases |tokens|
  {
    if tokens != [] && tokens[0].name == ".." {
      DotsClimb(tokens[1..], Parent(at));
      AboveNext(at, LeadingDots(tokens) - 1);
      assert tokens[1..][LeadingDots(tokens) - 1..] == tokens[LeadingDots(tokens)..];
    } else {
      assert tokens[0..] == tokens && at[..|at|] == at;
    }
  }

  // The node is taken if any value will do or it has the wanted one.
  function Taken(root: Element, n: Node, wanted: Option<string>): seq<Node>
    requires IsNode(root, n)
  {
    if wanted.None? || wanted.value == ValueOf(root, n) then [n] else []
  }

  // ---------------------------------------------------------------------
  // What the search finds.
  // ---------------------------------------------------------------------

  // Nodes found from the node at `at` on, after those in `found`.
  function Search(root: Element, at: Position, kind: Kind, tokens: seq<Token>, found: seq<Node>,
      wanted: Option<string>): Found
    requires Within(root, at) && Searchable(tokens)
    decreases Depth(tokens), |tokens|, 1, 0
  {
    if tokens == [] || (wanted.Some? && found != []) then Ok(found)
    else
      match Matches(root, at, kind, tokens[0])
      case Err(e) => Err(e)
      case Ok(false) => Ok(found)
      case Ok(true) =>
        if |tokens| > 1 && kind == ElementKind then Descend(root, at, tokens[1..], found, wanted)
        else if kind == ElementKind then Ok(found + Taken(root, Node(at, None), wanted))
        else Ok(found + Taken(root, Node(at, Some(tokens[0].name)), wanted))
  }

  // The path continues below the node at `at`.
  function Descend(root: Element, at: Position, tokens: seq<Token>, found: seq<Node>, wanted: Option<string>): Found
    requires Within(root, at) && Searchable(tokens)
    decreases Depth(tokens), |tokens|, 4, 0
  {
    DotsFit(root, tokens, at);
    var (rest, up) := Dots(tokens, at);
    if rest == [] then Ok(found + Taken(root, Node(up, None), wanted)) else Below(root, up, rest, found, wanted)
  }

  // Below the node at `at`: the children, and failing them an attribute.
  function Below(root: Element, at: Position, tokens: seq<Token>, found: seq<Node>, wanted: Option<string>): Found
    requires Within(root, at) && Searchable(tokens)
    decreases Depth(tokens), |tokens|, 3, 0
  {
    match SearchChildren(root, at, 0, tokens, found, wanted)
    case Err(e) => Err(e)
    case Ok(after) =>
      if |after| == |found| && |tokens| == 1 then Search(root, at, AttributeKind, tokens, after, wanted) else Ok(after)
  }

  // Children i, i + 1, ... of the element at `at`, until the wanted value is
  // found.
  function SearchChildren(root: Element, at: Position, i: nat, tokens: seq<Token>, found: seq<Node>,
      wanted: Option<string>): Found
    requires Within(root, at) && Searchable(tokens)
    decreases Depth(tokens), |tokens|, 2, |At(root, at).children| - i
  {
    if i >= |At(root, at).children| then Ok(found)
    else
      ChildWithin(root, at, i);
      match Search(root, at + [i], ElementKind, tokens, found, wanted)
      case Err(e) => Err(e)
      case Ok(after) =>
        if wanted.Some? && after != [] then Ok(after) else SearchChildren(root, at, i + 1, tokens, after, wanted)
  }

  // An element that fits the first token: on with the others.
  lemma {:induction false} SearchDescends(root: Element, at: Position, tokens: seq<Token>, wanted: Option<string>)
    requires Within(root, at) && Searchable(tokens) && tokens != []
    ensures Searchable(tokens[1..])
    ensures Search(root, at, ElementKind, tokens, [], wanted) ==
      match Matches(root, at, ElementKind, tokens[0])
      case Err(e) => Err(e)
      case Ok(b) => if b then Descend(root, at, tokens[1..], [], wanted) else Ok([])
  {
    assert forall i :: 0 <= i < |tokens[1..]| ==> tokens[1..][i] == tokens[i + 1];
  }

  // A path goes up, down, or nowhere.
  lemma {:induction false} DescendFirst(root: Element, at: Position, tokens: seq<Token>, wanted: Option<string>)
    requires Within(root, at) && Searchable(tokens)
    ensures tokens == [] ==> Descend(root, at, tokens, [], wanted) == Ok(Taken(root, Node(at, None), wanted))
    ensures tokens != [] && tokens[0].name == ".." ==>
      && Within(root, Parent(at)) && Searchable(tokens[1..])
      && Descend(root, at, tokens, [], wanted) == Descend(root, Parent(at), tokens[1..], [], wanted)
    ensures tokens != [] && tokens[0].name != ".." ==>
      Descend(root, at, tokens, [], wanted) == Below(root, at, tokens, [], wanted)
  {
    ParentWithin(root, at);
    assert [] + Taken(root, Node(at, None), wanted) == Taken(root, Node(at, None), wanted);
    assert tokens != [] ==> forall i :: 0 <= i < |tokens[1..]| ==> tokens[1..][i] == tokens[i + 1];
  }

  predicate Named(e: Element, kind: Kind, name: string)
  {
    match kind
    case ElementKind => e.name == name
    case AttributeKind => name in e.attributes
  }

  function NamedValue(e: Element, kind: Kind, name: string): string
    requires Named(e, kind, name)
  {
    match kind
    case ElementKind => e.value
    case AttributeKind => e.attributes[name]
  }

  // Whether the node fits a token: its name, and the values asked for.
  function Matches(root: Element, at: Position, kind: Kind, token: Token): (r: Result<bool, ParserError>)
    requires Within(root, at) && SearchableToken(token)
    ensures r == Ok(true) && kind == AttributeKind ==> token.name in At(root, at).attributes
    decreases Depth([token]), 0, |token.valpaths| + 1, 0
  {
    var here := At(root, at);
    if !Named(here, kind, token.name) then Ok(false)
    else if token.values == [] then Ok(true)
    else if token.valpaths == [] then Ok(token.values[0] == NamedValue(here, kind, token.name))
    else
      assert !Bare([token][0]);
      BracketMatch(root, at, token.valpaths, token.values, 0)
  }

  // Every valpath from the i-th on leads to a node with its value.  Where one
  // starts with "..", the next ones start from where that led.
  function BracketMatch(root: Element, at: Position, valpaths: seq<string>, values: seq<string>, i: nat):
      Result<bool, ParserError>
    requires Within(root, at) && i <= |valpaths| <= |values|
    requires forall j :: 0 <= j < |valpaths| ==> BareIfParsed(valpaths[j])
    decreases 1, 0, |valpaths| - i, 0
  {
    if i == |valpaths| then Ok(true)
    else
      match Parse(valpaths[i])
      case Err(e) => Err(e)
      case Ok(tokens) =>
        assert BareIfParsed(valpaths[i]);
        BareSearchable(tokens);
        DotsFit(root, tokens, at);
        match Descend(root, at, tokens, [], Some(values[i]))
        case Err(e) => Err(e)
        case Ok(hits) =>
          if hits == [] then Ok(false) else BracketMatch(root, Dots(tokens, at).1, valpaths, values, i + 1)
  }

  lemma {:induction false} BareSearchable(tokens: seq<Token>)
    requires AllBare(tokens)
    ensures Searchable(tokens) && Depth(tokens) == 0
  {
    assert forall i :: 0 <= i < |tokens| ==> Bare(tokens[i]) ==> SearchableToken(tokens[i]);
  }

  // ---------------------------------------------------------------------
  // The finder itself.
  // ---------------------------------------------------------------------

  // A list of nodes that a search adds to.
  class NodeList {
    var nodes: seq<Node>

    constructor ()
      ensures nodes == []
    {
      nodes := [];
    }
  }

  // The result of a search that may raise an error.
  ghost predicate Reports(expected: Found, raised: Option<ParserError>, nodes: seq<Node>)
  {
    match expected
    case Ok(found) => raised.None? && nodes == found
    case Err(e) => raised == Some(e)
  }

  // r says whether the valpath leads to the value, or why it cannot be read;
  // `up` is where its leading ".." lead.
  ghost predicate Tried(root: Element, at: Position, valpath: string, value: string, r: Result<bool, ParserError>,
      up: Position)
    requires Within(root, at) && BareIfParsed(valpath)
  {
    match Parse(valpath)
    case Err(e) => r == Err(e)
    case Ok(tokens) =>
      BareSearchable(tokens);
      && Within(root, up) && up == Dots(tokens, at).1
      && match Descend(root, at, tokens, [], Some(value))
         case Err(e) => r == Err(e)
         case Ok(hits) => r == Ok(hits != [])
  }

  class TreeAcc {
    const root: Element

    constructor (e: Element)
      ensures root == e
    {
      root := e;
    }

    method Save(n: Node, found: NodeList, wanted: Option<string>)
      requires IsNode(root, n)
      modifies found
      ensures found.nodes == old(found.nodes) + Taken(root, n, wanted)
    {
      if wanted == None || wanted.value == ValueOf(root, n) {
        found.nodes := found.nodes + [n];
      }
    }

    method SearchNode(at: Position, kind: Kind, tokens: seq<Token>, found: NodeList, wanted: Option<string>)
      returns (raised: Option<ParserError>)
      requires Within(root, at) && Searchable(tokens)
      modifies found
      ensures Reports(Search(root, at, kind, tokens, old(found.nodes), wanted), raised, found.nodes)
      decreases Depth(tokens), |tokens|, 1, 0
    {
      if |tokens| == 0 {
        return None;
      }
      if wanted.Some? && found.nodes != [] {
        return None;
      }
      var matched := MatchNode(at, kind, tokens[0]);
      if matched.Err? {
        return Some(matched.error);
      }
      if !matched.value {
        return None;
      }
      if |tokens| > 1 && kind == ElementKind {
        raised := DescendFrom(at, tokens[1..], found, wanted);
      } else if kind == ElementKind {
        Save(Node(at, None), found, wanted);
        raised := None;
      } else {
        Save(Node(at, Some(tokens[0].name)), found, wanted);
        raised := None;
      }
    }

    method DescendFrom(at: Position, tokens: seq<Token>, found: NodeList, wanted: Option<string>)
      returns (raised: Option<ParserError>)
      requires Within(root, at) && Searchable(tokens)
      modifies found
      ensures Reports(Descend(root, at, tokens, old(found.nodes), wanted), raised, found.nodes)
      decreases Depth(tokens), |tokens|, 4, 0
    {
      DotsFit(root, tokens, at);
      var rest, up := DoDots(tokens, at, found, wanted);
      if |rest| == 0 {
        return None;
      }
      raised := ChildrenOrAttribute(up, rest, found, wanted);
    }

    method ChildrenOrAttribute(at: Position, tokens: seq<Token>, found: NodeList, wanted: Option<string>)
      returns (raised: Option<ParserError>)
      requires Within(root, at) && Searchable(tokens)
      modifies found
      ensures Reports(Below(root, at, tokens, old(found.nodes), wanted), raised, found.nodes)
      decreases Depth(tokens), |tokens|, 3, 0
    {
      var atStart := |found.nodes|;
      raised := SearchBelow(at, tokens, found, wanted);
      if raised == None && |found.nodes| == atStart && |tokens| == 1 {
        raised := SearchNode(at, AttributeKind, tokens, found, wanted);
      }
    }

    method SearchBelow(at: Position, tokens: seq<Token>, found: NodeList, wanted: Option<string>)
      returns (raised: Option<ParserError>)
      requires Within(root, at) && Searchable(tokens)
      modifies found
      ensures Reports(SearchChildren(root, at, 0, tokens, old(found.nodes), wanted), raised, found.nodes)
      decreases Depth(tokens), |tokens|, 2, 0
    {
      for i := 0 to |At(root, at).children|
        invariant SearchChildren(root, at, 0, tokens, old(found.nodes), wanted)
          == SearchChildren(root, at, i, tokens, found.nodes, wanted)
      {
        ChildWithin(root, at, i);
        raised := SearchNode(at + [i], ElementKind, tokens, found, wanted);
        if raised.Some? {
          return;
        }
        if wanted.Some? && found.nodes != [] {
          return;
        }
      }
      raised := None;
    }

    method DoDots(tokens: seq<Token>, at: Position, found: NodeList, wanted: Option<string>)
      returns (rest: seq<Token>, up: Position)
      requires Within(root, at)
      modifies found
      ensures (rest, up) == Dots(tokens, at) && Within(root, up)
      ensures found.nodes
        == if rest == [] then old(found.nodes) + Taken(root, Node(up, None), wanted) else old(found.nodes)
    {
      rest, up := PopDots(tokens, at);
      if |rest| == 0 {
        Save(Node(up, None), found, wanted);
      }
    }

    method PopDots(tokens: seq<Token>, at: Position) returns (rest: seq<Token>, up: Position)
      requires Within(root, at)
      ensures (rest, up) == Dots(tokens, at) && Within(root, up)
    {
      rest, up := tokens, at;
      while |rest| > 0 && rest[0].name == ".."
        invariant Within(root, up) && Dots(rest, up) == Dots(tokens, at)
      {
        ParentWithin(root, up);
        rest, up := rest[1..], Parent(up);
      }
    }

    method MatchNode(at: Position, kind: Kind, token: Token) returns (r: Result<bool, ParserError>)
      requires Within(root, at) && SearchableToken(token)
      ensures r == Matches(root, at, kind, token)
      decreases Depth([token]), 0, |token.valpaths| + 1, 0
    {
      var here := At(root, at);
      if !Named(here, kind, token.name) {
        return Ok(false);
      }
      if |token.values| != 0 {
        if |token.valpaths| == 0 {
          return Ok(token.values[0] == NamedValue(here, kind, token.name));
        }
        assert !Bare([token][0]);
        r := IsBracketMatch(at, token.valpaths, token.values);
        return;
      }
      r := Ok(true);
    }

    // Whether the valpath leads to a node with the value, and where its
    // leading ".." lead.
    method TryValpath(at: Position, valpath: string, value: string) returns (r: Result<bool, ParserError>, up: Position)
      requires Within(root, at) && BareIfParsed(valpath)
      ensures Tried(root, at, valpath, value, r, up)
      decreases 1, 0, 0, 0
    {
      var vpMatches := new NodeList();
      up := at;
      var parsed := ParseNodepath(valpath);
      if parsed.Err? {
        return Err(parsed.error), at;
      }
      BareSearchable(parsed.value);
      DotsFit(root, parsed.value, at);
      var rest, above := DoDots(parsed.value, at, vpMatches, Some(value));
      up := above;
      if |vpMatches.nodes| > 0 {
        return Ok(true), up;
      }
      if |rest| == 0 {
        return Ok(false), up;
      }
      var raised := ChildrenOrAttribute(up, rest, vpMatches, Some(value));
      r := if raised.Some? then Err(raised.value) else Ok(|vpMatches.nodes| > 0);
    }

    method IsBracketMatch(start: Position, valpaths: seq<string>, values: seq<string>)
      returns (r: Result<bool, ParserError>)
      requires Within(root, start) && |valpaths| <= |values|
      requires forall j :: 0 <= j < |valpaths| ==> BareIfParsed(valpaths[j])
      ensures r == BracketMatch(root, start, valpaths, values, 0)
      decreases 1, 0, |valpaths|, 0
    {
      var at := start;
      for i := 0 to |valpaths|
        invariant Within(root, at)
        invariant BracketMatch(root, start, valpaths, values, 0) == BracketMatch(root, at, valpaths, values, i)
      {
        assert BareIfParsed(valpaths[i]);
        var matched, up := TryValpath(at, valpaths[i], values[i]);
        if matched != Ok(true) {
          return matched;
        }
        at := up;
      }
      r := Ok(true);
    }
  }
}
