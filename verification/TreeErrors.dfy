// When an exhaustive search ends in a parser error: a node it comes to has a
// predicate whose path cannot be read, although the ones before it hold.
module TreeErrors {
  import opened Wrappers
  import opened Text
  import opened NodePath
  import opened NodePathTheory
  import opened Tree
  import opened TreeSearch
  import opened TreeFind
  import opened TreeOrder
  import opened TreePredicates
  import opened TreeWalks

  // ---------------------------------------------------------------------
  // One node.
  // ---------------------------------------------------------------------

  // Starts with a slash, white space aside.
  predicate Slashed(valpath: string)
  {
    Strip(valpath) != "" && Strip(valpath)[0] == '/'
  }

  // One of the valpaths from the i-th on starts with a slash, and those
  // before it hold, each from where the ones before it led.
  ghost predicate Stuck(root: Element, at: Position, valpaths: seq<string>, values: seq<string>, i: nat)
    requires i <= |valpaths| <= |values|
    decreases |valpaths| - i
  {
    && i < |valpaths|
    && (|| Slashed(valpaths[i])
        || (Holds(root, at, valpaths[i], values[i]) && Stuck(root, Raised(at, valpaths[i]), valpaths, values, i + 1)))
  }

  // A valpath cannot be read exactly when it starts with a slash.
  ghost predicate SlashesOnly(token: Token)
  {
    forall j :: 0 <= j < |token.valpaths| ==> (Parse(token.valpaths[j]).Err? <==> Slashed(token.valpaths[j]))
  }

  ghost predicate AllSlashesOnly(tokens: seq<Token>)
  {
    forall i :: 0 <= i < |tokens| ==> SlashesOnly(tokens[i])
  }

  lemma {:induction false} StuckIff(root: Element, at: Position, token: Token, i: nat)
    requires Within(root, at) && SearchableToken(token) && SlashesOnly(token) && i <= |token.valpaths|
    ensures BracketMatch(root, at, token.valpaths, token.values, i).Err?
      <==> Stuck(root, at, token.valpaths, token.values, i)
    decreases |token.valpaths| - i
  {
    if i < |token.valpaths| && Parse(token.valpaths[i]).Ok? {
      var valpath, tokens := token.valpaths[i], Parse(token.valpaths[i]).value;
      assert BareIfParsed(valpath);
      BareSearchable(tokens);
      DotsFit(root, tokens, at);
      DotsClimb(tokens, at);
      OneHolds(root, at, tokens, token.values[i]);
      StuckIff(root, Raised(at, valpath), token, i + 1);
    }
  }

  // The node has the name of the token, and cannot be asked all its
  // predicates.
  ghost predicate Refuses(root: Element, at: Position, kind: Kind, token: Token)
  {
    var n := Node(at, if kind.ElementKind? then None else Some(token.name));
    && |token.valpaths| <= |token.values|
    && IsNode(root, n) && (kind.ElementKind? ==> At(root, at).name == token.name)
    && Stuck(root, at, token.valpaths, token.values, 0)
  }

  lemma {:induction false} RefusesIff(root: Element, at: Position, kind: Kind, token: Token)
    requires Within(root, at) && SearchableToken(token) && SlashesOnly(token)
    ensures Matches(root, at, kind, token).Err? <==> Refuses(root, at, kind, token)
  {
    StuckIff(root, at, token, 0);
  }

  // ---------------------------------------------------------------------
  // The nodes the search comes to.
  // ---------------------------------------------------------------------

  // The search comes to a node that refuses the token it is to be asked,
  // every element on the way fitting its own; to an attribute, when no child
  // fits the last token.
  ghost predicate Blocked(root: Element, at: Position, tokens: seq<Token>)
    decreases |tokens|
  {
    if tokens == [] then false
    else if tokens[0].name == ".." then Blocked(root, Parent(at), tokens[1..])
    else
      || (exists i: nat :: Refuses(root, at + [i], ElementKind, tokens[0]))
      || (exists i: nat :: Fits(root, at + [i], ElementKind, tokens[0]) && Blocked(root, at + [i], tokens[1..]))
      || BlockedAtOwn(root, at, tokens)
  }

  ghost predicate BlockedAtOwn(root: Element, at: Position, tokens: seq<Token>)
  {
    |tokens| == 1 && NoChildFits(root, at, tokens[0]) && Refuses(root, at, AttributeKind, tokens[0])
  }

  ghost predicate BlockedVia(root: Element, at: Position, i: nat, tokens: seq<Token>)
    requires tokens != []
  {
    || Refuses(root, at + [i], ElementKind, tokens[0])
    || (Fits(root, at + [i], ElementKind, tokens[0]) && Blocked(root, at + [i], tokens[1..]))
  }

  ghost predicate BlockedFrom(root: Element, at: Position, i: nat, tokens: seq<Token>)
    requires tokens != []
  {
    exists j :: j >= i && BlockedVia(root, at, j, tokens)
  }

  lemma {:induction false} BlockedFirst(root: Element, at: Position, tokens: seq<Token>)
    requires tokens != [] && tokens[0].name != ".."
    ensures Blocked(root, at, tokens) <==> BlockedFrom(root, at, 0, tokens) || BlockedAtOwn(root, at, tokens)
  {
    if i: nat :| Refuses(root, at + [i], ElementKind, tokens[0]) {
      assert BlockedVia(root, at, i, tokens);
    } else if Blocked(root, at, tokens) && !BlockedAtOwn(root, at, tokens) {
      var i: nat :| Fits(root, at + [i], ElementKind, tokens[0]) && Blocked(root, at + [i], tokens[1..]);
      assert BlockedVia(root, at, i, tokens);
    }
    if BlockedFrom(root, at, 0, tokens) {
      var j :| j >= 0 && BlockedVia(root, at, j, tokens);
      if !Refuses(root, at + [j], ElementKind, tokens[0]) {
        assert Fits(root, at + [j], ElementKind, tokens[0]);
      }
    }
  }

  lemma {:induction false} TailSlashesOnly(tokens: seq<Token>)
    requires AllSlashesOnly(tokens) && tokens != []
    ensures AllSlashesOnly(tokens[1..])
  {
    assert forall i :: 0 <= i < |tokens[1..]| ==> tokens[1..][i] == tokens[i + 1];
  }

  // ---------------------------------------------------------------------
  // The search fails exactly when it comes to such a node.
  // ---------------------------------------------------------------------

  lemma {:induction false} DescendFailsIff(root: Element, at: Position, tokens: seq<Token>)
    requires Within(root, at) && Searchable(tokens) && AllSlashesOnly(tokens)
    ensures Descend(root, at, tokens, [], None).Err? <==> Blocked(root, at, tokens)
    decreases |tokens|, 3, 0
  {
    DescendFirst(root, at, tokens, None);
    if tokens != [] && tokens[0].name == ".." {
      TailSlashesOnly(tokens);
      DescendFailsIff(root, Parent(at), tokens[1..]);
    } else if tokens != [] {
      BelowFailsIff(root, at, tokens);
    }
  }

  lemma {:induction false} BelowFailsIff(root: Element, at: Position, tokens: seq<Token>)
    requires Within(root, at) && Searchable(tokens) && AllSlashesOnly(tokens)
    requires tokens != [] && tokens[0].name != ".."
    ensures Below(root, at, tokens, [], None).Err? <==> Blocked(root, at, tokens)
    decreases |tokens|, 2, 0
  {
    BlockedFirst(root, at, tokens);
    ChildrenFailIff(root, at, 0, tokens);
    var children := SearchChildren(root, at, 0, tokens, [], None);
    if children.Ok? && |tokens| == 1 {
      NoChildFound(root, at, tokens, children.value);
      AttributeFailsIff(root, at, tokens);
      assert |children.value| == 0 <==> children.value == [];
    }
  }

  lemma {:induction false} AttributeFailsIff(root: Element, at: Position, tokens: seq<Token>)
    requires Within(root, at) && Searchable(tokens) && AllSlashesOnly(tokens) && |tokens| == 1
    ensures Search(root, at, AttributeKind, tokens, [], None).Err? <==> Refuses(root, at, AttributeKind, tokens[0])
  {
    RefusesIff(root, at, AttributeKind, tokens[0]);
  }

  lemma {:induction false} ChildrenFailIff(root: Element, at: Position, i: nat, tokens: seq<Token>)
    requires Within(root, at) && Searchable(tokens) && AllSlashesOnly(tokens) && tokens != []
    ensures SearchChildren(root, at, i, tokens, [], None).Err? <==> BlockedFrom(root, at, i, tokens)
    decreases |tokens|, 1, |At(root, at).children| - i
  {
    if i < |At(root, at).children| {
      ChildWithin(root, at, i);
      ChildFailsIff(root, at, i, tokens);
      ChildrenFailIff(root, at, i + 1, tokens);
      BlockedNext(root, at, i, tokens);
      FailureNext(root, at, i, tokens);
    } else if BlockedFrom(root, at, i, tokens) {
      var j :| j >= i && BlockedVia(root, at, j, tokens);
      ChildWithin(root, at, j);
    }
  }

  lemma {:induction false} FailureNext(root: Element, at: Position, i: nat, tokens: seq<Token>)
    requires Within(root, at) && Searchable(tokens) && tokens != []
    requires i < |At(root, at).children| && Within(root, at + [i])
    ensures SearchChildren(root, at, i, tokens, [], None).Err?
      <==> (Search(root, at + [i], ElementKind, tokens, [], None).Err?
        || SearchChildren(root, at, i + 1, tokens, [], None).Err?)
  {
    var first := Search(root, at + [i], ElementKind, tokens, [], None);
    if first.Ok? {
      ChildrenAppend(root, at, i + 1, tokens, first.value);
    }
  }

  lemma {:induction false} BlockedNext(root: Element, at: Position, i: nat, tokens: seq<Token>)
    requires tokens != []
    ensures BlockedFrom(root, at, i, tokens)
      <==> BlockedVia(root, at, i, tokens) || BlockedFrom(root, at, i + 1, tokens)
  {
    if BlockedFrom(root, at, i, tokens) {
      var j :| j >= i && BlockedVia(root, at, j, tokens);
      assert j != i ==> j >= i + 1;
    }
  }

  lemma {:induction false} ChildFailsIff(root: Element, at: Position, i: nat, tokens: seq<Token>)
    requires Searchable(tokens) && AllSlashesOnly(tokens) && tokens != [] && Within(root, at + [i])
    ensures Search(root, at + [i], ElementKind, tokens, [], None).Err? <==> BlockedVia(root, at, i, tokens)
    decreases |tokens|, 0, 0
  {
    SearchDescends(root, at + [i], tokens, None);
    MatchesIff(root, at + [i], ElementKind, tokens[0]);
    RefusesIff(root, at + [i], ElementKind, tokens[0]);
    TailSlashesOnly(tokens);
    DescendFailsIff(root, at + [i], tokens[1..]);
  }

  // ---------------------------------------------------------------------
  // Finding from the root and from a node.
  // ---------------------------------------------------------------------

  // As for Wanted: the root is asked the first token if it has its name.
  ghost predicate Hindered(root: Element, start: Option<Node>, tokens: seq<Token>)
  {
    match start
    case None =>
      if tokens == [] || tokens[0].name != root.name then Blocked(root, [], tokens)
      else
        || Refuses(root, [], ElementKind, tokens[0])
        || (Fits(root, [], ElementKind, tokens[0]) && Blocked(root, [], tokens[1..]))
    case Some(s) => Blocked(root, s.at, tokens)
  }

  lemma {:induction false} ParsedSlashesOnly(path: string)
    requires Parse(path).Ok?
    ensures AllSlashesOnly(Parse(path).value)
  {
    var tokens := Parse(path).value;
    forall i, j | 0 <= i < |tokens| && 0 <= j < |tokens[i].valpaths|
      ensures Parse(tokens[i].valpaths[j]).Err? <==> Slashed(tokens[i].valpaths[j])
    {
      ValpathReparses(path, i, j);
    }
    assert forall i :: 0 <= i < |tokens| ==> SlashesOnly(tokens[i]);
  }

  // Finding ends in an error exactly when the path cannot be read or, on a way
  // whose elements fit, there is a node with the name of the next token one
  // of whose predicates has a path that starts with a slash, the predicates
  // before it holding.
  lemma {:induction false} FindFailsIff(root: Element, path: string, start: Option<Node>)
    requires start.Some? ==> IsNode(root, start.value)
    ensures Find(root, path, start).Err? <==> Parse(path).Err? || Hindered(root, start, Parse(path).value)
  {
    if Parse(path).Ok? {
      ParsedSearchable(path);
      ParsedSlashesOnly(path);
      match start
      case None => FromRootFailsIff(root, Parse(path).value);
      case Some(s) => FromNodeFailsIff(root, s, Parse(path).value);
    }
  }

  lemma {:induction false} FromRootFailsIff(root: Element, tokens: seq<Token>)
    requires Searchable(tokens) && AllSlashesOnly(tokens)
    ensures FromRoot(root, tokens).Err? <==> Hindered(root, None, tokens)
  {
    RootedSearchable(root, tokens);
    var all := Rooted(root, tokens);
    assert SlashesOnly(Token(root.name, [], []));
    SearchDescends(root, [], all, None);
    MatchesIff(root, [], ElementKind, all[0]);
    RefusesIff(root, [], ElementKind, all[0]);
    TailSlashesOnly(all);
    DescendFailsIff(root, [], all[1..]);
    assert all[1..] == if tokens == [] || tokens[0].name != root.name then tokens else tokens[1..];
  }

  lemma {:induction false} FromNodeFailsIff(root: Element, s: Node, tokens: seq<Token>)
    requires Searchable(tokens) && AllSlashesOnly(tokens) && IsNode(root, s)
    ensures FromNode(root, s, tokens).Err? <==> Hindered(root, Some(s), tokens)
  {
    DotsFit(root, tokens, s.at);
    DescendFailsIff(root, s.at, tokens);
  }

  // So a path without predicates never does.
  lemma {:induction false} BareNeverFails(root: Element, path: string, start: Option<Node>)
    requires start.Some? ==> IsNode(root, start.value)
    requires Parse(path).Ok? && AllBare(Parse(path).value)
    ensures Find(root, path, start).Ok?
  {
    var tokens := Parse(path).value;
    FindFailsIff(root, path, start);
    match start
    case None =>
      BareNotBlocked(root, [], tokens);
      if tokens != [] {
        TailBare(tokens);
        assert Bare(tokens[0]);
        BareNotBlocked(root, [], tokens[1..]);
      }
    case Some(s) => BareNotBlocked(root, s.at, tokens);
  }

  lemma {:induction false} BareNotBlocked(root: Element, at: Position, tokens: seq<Token>)
    requires AllBare(tokens)
    ensures !Blocked(root, at, tokens)
    decreases |tokens|
  {
    if tokens != [] {
      TailBare(tokens);
      assert Bare(tokens[0]);
      BareNotBlocked(root, Parent(at), tokens[1..]);
      forall i: nat
        ensures !Blocked(root, at + [i], tokens[1..])
      {
        BareNotBlocked(root, at + [i], tokens[1..]);
      }
    }
  }
}
