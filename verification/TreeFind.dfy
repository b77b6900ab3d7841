// Entry points: finding nodes by path, and the path of a node.
module TreeFind {
  import opened Wrappers
  import opened NodePath
  import opened NodePathTheory
  import opened Tree
  import opened TreeSearch
  import opened Duplicates

  // The name of the root is implied.
  function Rooted(root: Element, tokens: seq<Token>): seq<Token>
  {
    if tokens == [] || tokens[0].name != root.name then [Token(root.name, [], [])] + tokens else tokens
  }

  predicate HasDots(tokens: seq<Token>)
  {
    exists i :: 0 <= i < |tokens| && tokens[i].name == ".."
  }

  function Deduplicated(found: Found, dots: bool): Found
  {
    if found.Ok? && dots then Ok(KeepLast(found.value)) else found
  }

  lemma {:induction false} ParsedSearchable(path: string)
    requires Parse(path).Ok?
    ensures Searchable(Parse(path).value)
  {
    var tokens := Parse(path).value;
    AcceptedRegular(path);
    forall i, j | 0 <= i < |tokens| && 0 <= j < |tokens[i].valpaths|
      ensures BareIfParsed(tokens[i].valpaths[j])
    {
      ValpathReparses(path, i, j);
    }
    forall i | 0 <= i < |tokens|
      ensures |tokens[i].valpaths| <= |tokens[i].values|
    {
      assert Regular(tokens[i]);
    }
  }

  lemma {:induction false} RootedSearchable(root: Element, tokens: seq<Token>)
    requires Searchable(tokens)
    ensures Searchable(Rooted(root, tokens))
  {
    assert SearchableToken(Token(root.name, [], []));
  }

  function FromRoot(root: Element, tokens: seq<Token>): Found
    requires Searchable(tokens)
  {
    RootedSearchable(root, tokens);
    var all := Rooted(root, tokens);
    Deduplicated(Search(root, [], ElementKind, all, [], None), HasDots(all))
  }

  function FromNode(root: Element, start: Node, tokens: seq<Token>): Found
    requires Searchable(tokens) && IsNode(root, start)
  {
    DotsFit(root, tokens, start.at);
    var (rest, up) := Dots(tokens, start.at);
    if tokens == [] then Ok([start])
    else if rest == [] then Ok([Node(up, None)])
    else Deduplicated(Below(root, up, rest, [], None), HasDots(rest))
  }

  function Find(root: Element, path: string, start: Option<Node>): Found
    requires start.Some? ==> IsNode(root, start.value)
  {
    match Parse(path)
    case Err(e) => Err(e)
    case Ok(tokens) =>
      ParsedSearchable(path);
      match start
      case None => FromRoot(root, tokens)
      case Some(n) => FromNode(root, n, tokens)
  }

  method PathlistHasDots(tokens: seq<Token>) returns (dots: bool)
    ensures dots == HasDots(tokens)
  {
    for i := 0 to |tokens|
      invariant forall j :: 0 <= j < i ==> tokens[j].name != ".."
    {
      if tokens[i].name == ".." {
        return true;
      }
    }
    dots := false;
  }

  method Finish(tokens: seq<Token>, found: NodeList, raised: Option<ParserError>) returns (r: Found)
    modifies found
    ensures r == Deduplicated(if raised.Some? then Err(raised.value) else Ok(old(found.nodes)), HasDots(tokens))
  {
    if raised.Some? {
      return Err(raised.value);
    }
    var dots := PathlistHasDots(tokens);
    if dots {
      RemoveDuplicates(found);
    }
    r := Ok(found.nodes);
  }

  // The children with the name of the first token, and failing them an
  // attribute.
  method SearchFromMiddle(acc: TreeAcc, at: Position, tokens: seq<Token>, found: NodeList)
    returns (raised: Option<ParserError>)
    requires Within(acc.root, at) && Searchable(tokens) && tokens != []
    modifies found
    ensures Reports(Below(acc.root, at, tokens, old(found.nodes), None), raised, found.nodes)
  {
    var root := acc.root;
    var numFoundNodes := |found.nodes|;
    for i := 0 to |At(root, at).children|
      invariant SearchChildren(root, at, 0, tokens, old(found.nodes), None)
        == SearchChildren(root, at, i, tokens, found.nodes, None)
    {
      ChildWithin(root, at, i);
      if At(root, at).children[i].name == tokens[0].name {
        raised := acc.SearchNode(at + [i], ElementKind, tokens, found, None);
        if raised.Some? {
          return;
        }
      } else {
        OtherName(root, at + [i], tokens, found.nodes);
      }
    }
    raised := None;
    if numFoundNodes == |found.nodes| && |tokens| == 1 {
      raised := acc.SearchNode(at, AttributeKind, tokens, found, None);
    }
  }

  lemma {:induction false} OtherName(root: Element, at: Position, tokens: seq<Token>, found: seq<Node>)
    requires Within(root, at) && Searchable(tokens) && tokens != [] && At(root, at).name != tokens[0].name
    ensures Search(root, at, ElementKind, tokens, found, None) == Ok(found)
  {
    assert Matches(root, at, ElementKind, tokens[0]) == Ok(false);
  }

  method FindFromRoot(acc: TreeAcc, tokens: seq<Token>) returns (r: Found)
    requires Searchable(tokens)
    ensures r == FromRoot(acc.root, tokens)
  {
    var found := new NodeList();
    RootedSearchable(acc.root, tokens);
    var all := Rooted(acc.root, tokens);
    var raised := acc.SearchNode([], ElementKind, all, found, None);
    r := Finish(all, found, raised);
  }

  method FindFromNode(acc: TreeAcc, start: Node, tokens: seq<Token>) returns (r: Found)
    requires Searchable(tokens) && IsNode(acc.root, start)
    ensures r == FromNode(acc.root, start, tokens)
  {
    if |tokens| == 0 {
      return Ok([start]);
    }
    var found := new NodeList();
    DotsFit(acc.root, tokens, start.at);
    var rest, up := acc.DoDots(tokens, start.at, found, None);
    if |rest| == 0 {
      assert found.nodes == [Node(up, None)];
      return Ok(found.nodes);
    }
    var raised := SearchFromMiddle(acc, up, rest, found);
    r := Finish(rest, found, raised);
  }

  method FindNode(acc: TreeAcc, path: string, start: Option<Node>) returns (r: Found)
    requires start.Some? ==> IsNode(acc.root, start.value)
    ensures r == Find(acc.root, path, start)
  {
    var parsed := ParseNodepath(path);
    if parsed.Err? {
      return Err(parsed.error);
    }
    ParsedSearchable(path);
    match start {
      case None =>
        r := FindFromRoot(acc, parsed.value);
      case Some(n) =>
        r := FindFromNode(acc, n, parsed.value);
    }
  }

  // ---------------------------------------------------------------------
  // The path of a node.
  // ---------------------------------------------------------------------

  function Prepended(name: string, path: string): string
  {
    if path != "" then name + "/" + path else name
  }

  function PathUp(root: Element, at: Position, path: string): string
    requires Within(root, at)
    decreases |at|
  {
    if at == [] then path
    else
      ParentWithin(root, at);
      PathUp(root, Parent(at), Prepended(At(root, at).name, path))
  }

  function PathOf(root: Element, n: Node): string
    requires IsNode(root, n)
  {
    var path := PathUp(root, n.at, "");
    match n.attribute
    case None => path
    case Some(name) => if path != "" then path + "/" + name else name
  }

  method PathToParent(root: Element, n: Node) returns (path: string)
    requires IsNode(root, n)
    ensures path == PathOf(root, n)
  {
    path := "";
    var at := n.at;
    while at != []
      invariant Within(root, at) && PathUp(root, at, path) == PathUp(root, n.at, "")
      decreases |at|
    {
      ParentWithin(root, at);
      path := Prepended(At(root, at).name, path);
      at := Parent(at);
    }
    if n.attribute.Some? {
      if path != "" {
        path := path + "/";
      }
      path := path + n.attribute.value;
    }
  }
}
