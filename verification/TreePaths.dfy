// Paths of names: exactly which nodes they find, and the round trip from a
// node to its path and back.
module TreePaths {
  import opened Wrappers
  import opened Text
  import opened NodePath
  import opened NodePathFacts
  import opened NodePathTheory
  import opened NamePaths
  import opened Tree
  import opened TreeSearch
  import opened TreeFind
  import opened TreeOrder
  import opened TreePredicates
  import opened TreeWalks
  import opened TreeTokens
  import opened TreeErrors

  ghost predicate NoDots(names: seq<string>)
  {
    forall i :: 0 <= i < |names| ==> names[i] != ".."
  }

  lemma {:induction false} NamedTokensFit(names: seq<string>)
    ensures Searchable(NamedTokens(names)) && AllBare(NamedTokens(names))
    ensures NoDots(names) ==> Dotless(NamedTokens(names))
    ensures names != [] ==> NamedTokens(names)[1..] == NamedTokens(names[1..])
  {
    var tokens := NamedTokens(names);
    assert forall i :: 0 <= i < |tokens| ==> SearchableToken(tokens[i]);
  }

  ghost predicate NoChildNamed(e: Element, name: string)
  {
    forall i :: 0 <= i < |e.children| ==> e.children[i].name != name
  }

  // ---------------------------------------------------------------------
  // Which nodes a list of names stands for.
  // ---------------------------------------------------------------------

  ghost function NamesDown(e: Element, d: Position): seq<string>
    requires Within(e, d)
    decreases |d|
  {
    if d == [] then [] else [e.children[d[0]].name] + NamesDown(e.children[d[0]], d[1..])
  }

  // Names from the root, the root's own left out, to this node.
  ghost function NodeNames(root: Element, n: Node): seq<string>
    requires IsNode(root, n)
  {
    if n.attribute.Some? then NamesDown(root, n.at) + [n.attribute.value] else NamesDown(root, n.at)
  }

  // Nothing hides the node: an attribute has no child of its name beside it.
  ghost predicate Visible(root: Element, n: Node)
    requires IsNode(root, n)
  {
    n.attribute.Some? ==> NoChildNamed(At(root, n.at), n.attribute.value)
  }

  // The names lead to the node, and nothing hides it.
  ghost predicate Shown(root: Element, names: seq<string>, n: Node)
  {
    IsNode(root, n) && NodeNames(root, n) == names && Visible(root, n)
  }

  lemma {:induction false} NamesDownAt(e: Element, d: Position, k: nat)
    requires Within(e, d) && k < |d|
    ensures |NamesDown(e, d)| == |d| && Within(e, d[..k + 1]) && NamesDown(e, d)[k] == At(e, d[..k + 1]).name
    decreases |d|
  {
    var child, rest := e.children[d[0]], d[1..];
    assert d[..k + 1][0] == d[0] && d[..k + 1][1..] == rest[..k];
    if rest != [] {
      NamesDownAt(child, rest, if k > 0 then k - 1 else 0);
    }
  }

  lemma {:induction false} NameFits(root: Element, at: Position, kind: Kind, name: string)
    ensures Fits(root, at, kind, NamedToken(name)) <==> Within(root, at) && Named(At(root, at), kind, name)
  {
  }

  lemma {:induction false} NoChildNameFits(root: Element, at: Position, name: string)
    requires Within(root, at)
    ensures NoChildFits(root, at, NamedToken(name)) <==> NoChildNamed(At(root, at), name)
  {
    forall i: nat
      ensures Fits(root, at + [i], ElementKind, NamedToken(name))
        <==> i < |At(root, at).children| && At(root, at).children[i].name == name
    {
      ChildWithin(root, at, i);
      NameFits(root, at + [i], ElementKind, name);
    }
  }

  lemma {:induction false} FitsByName(root: Element, names: seq<string>, to: Position, k: nat)
    requires Within(root, to) && k < |to| <= |names|
    ensures |NamesDown(root, to)| == |to|
    ensures Fits(root, to[..k + 1], ElementKind, NamedTokens(names)[k]) <==> NamesDown(root, to)[k] == names[k]
  {
    NamesDownAt(root, to, k);
    NameFits(root, to[..k + 1], ElementKind, names[k]);
  }

  lemma {:induction false} WayGivesNames(root: Element, names: seq<string>, to: Position)
    requires |to| <= |names| && WayFits(root, [], NamedTokens(names), to, |to|)
    ensures Within(root, to) && NamesDown(root, to) == names[..|to|]
  {
    if to != [] {
      assert Fits(root, to[..0 + (|to| - 1) + 1], ElementKind, NamedTokens(names)[|to| - 1]);
      assert to[..|to|] == to;
      forall k | 0 <= k < |to|
        ensures |NamesDown(root, to)| == |to| && NamesDown(root, to)[k] == names[k]
      {
        assert Fits(root, to[..0 + k + 1], ElementKind, NamedTokens(names)[k]);
        FitsByName(root, names, to, k);
      }
    }
  }

  lemma {:induction false} NamesGiveWay(root: Element, names: seq<string>, to: Position)
    requires |to| <= |names|
    requires Within(root, to) && NamesDown(root, to) == names[..|to|]
    ensures WayFits(root, [], NamedTokens(names), to, |to|)
  {
    forall k | 0 <= k < |to|
      ensures Fits(root, to[..0 + k + 1], ElementKind, NamedTokens(names)[k])
    {
      FitsByName(root, names, to, k);
      assert NamesDown(root, to)[k] == names[..|to|][k];
    }
  }

  lemma {:induction false} WayOfNames(root: Element, names: seq<string>, to: Position)
    requires |to| <= |names|
    ensures WayFits(root, [], NamedTokens(names), to, |to|)
      <==> Within(root, to) && NamesDown(root, to) == names[..|to|]
  {
    if WayFits(root, [], NamedTokens(names), to, |to|) {
      WayGivesNames(root, names, to);
    } else if Within(root, to) && NamesDown(root, to) == names[..|to|] {
      NamesGiveWay(root, names, to);
    }
  }

  // What names denote as tokens.
  lemma {:induction false} NamesDenote(root: Element, names: seq<string>, n: Node)
    requires names != []
    ensures Denoted(root, [], NamedTokens(names), n) <==> Shown(root, names, n)
  {
    var last := |names| - 1;
    if |n.at| <= |names| {
      WayOfNames(root, names, n.at);
    }
    assert names[..|names|] == names && names == names[..last] + [names[last]];
    if Within(root, n.at) {
      NamesDownLength(root, n.at);
      NameFits(root, n.at, AttributeKind, names[last]);
      NoChildNameFits(root, n.at, names[last]);
    }
  }

  lemma {:induction false} NamesDownLength(e: Element, d: Position)
    requires Within(e, d)
    ensures |NamesDown(e, d)| == |d|
  {
    if d != [] {
      NamesDownAt(e, d, 0);
    }
  }

  // ---------------------------------------------------------------------
  // Printing the names of a node and finding it again.
  // ---------------------------------------------------------------------

  // A name that stands for itself in a path.
  ghost predicate GoodName(name: string)
  {
    Plain(name) && Trimmed(name) && name != ".."
  }

  ghost predicate GoodNames(names: seq<string>)
  {
    forall i :: 0 <= i < |names| ==> GoodName(names[i])
  }

  lemma {:induction false} GoodReadable(names: seq<string>)
    requires GoodNames(names)
    ensures Readable(names)
  {
    assert forall i :: 0 <= i < |names| ==> GoodName(names[i]);
  }

  lemma {:induction false} NamesDownLast(e: Element, at: Position)
    requires Within(e, at) && at != []
    ensures Within(e, Parent(at))
    ensures NamesDown(e, at) == NamesDown(e, Parent(at)) + [At(e, at).name]
    decreases |at|
  {
    ParentWithin(e, at);
    if |at| > 1 {
      var child := e.children[at[0]];
      NamesDownLast(child, at[1..]);
      assert Parent(at)[0] == at[0] && Parent(at)[1..] == Parent(at[1..]);
      var up, last := NamesDown(child, Parent(at[1..])), [At(e, at).name];
      assert [child.name] + (up + last) == [child.name] + up + last;
    }
  }

  lemma {:induction false} ConsTake(name: string, names: seq<string>)
    requires names != []
    ensures ([name] + names)[..|names|] == [name] + names[..|names| - 1]
    ensures ([name] + names)[|names|] == names[|names| - 1]
  {
  }

  lemma {:induction false} ConsShift(up: seq<string>, name: string, names: seq<string>)
    ensures up + ([name] + names) == up + [name] + names
  {
  }

  lemma {:induction false} PrependBefore(name: string, front: string, last: string)
    requires front != ""
    ensures Prepended(name, front + "/" + last) == Prepended(name, front) + "/" + last
  {
    assert name + "/" + (front + "/" + last) == name + "/" + front + "/" + last;
  }

  lemma {:induction false} PrependName(name: string, names: seq<string>)
    requires GoodName(name) && GoodNames(names)
    ensures PathString([name] + names) == Prepended(name, PathString(names))
    decreases |names|
  {
    var n := |names| - 1;
    if names != [] {
      GoodReadable(names);
      PathStringTrimmed(names);
      ConsTake(name, names);
      if n == 0 {
        assert [name] + names[..0] == [name];
      } else {
        PrependName(name, names[..n]);
        GoodReadable(names[..n]);
        PathStringTrimmed(names[..n]);
        PrependBefore(name, PathString(names[..n]), names[n]);
      }
    }
  }

  lemma {:induction false} PathUpNames(root: Element, at: Position, names: seq<string>)
    requires Within(root, at) && GoodNames(NamesDown(root, at)) && GoodNames(names)
    ensures PathUp(root, at, PathString(names)) == PathString(NamesDown(root, at) + names)
    decreases |at|
  {
    if at == [] {
      assert [] + names == names;
    } else {
      NamesDownLast(root, at);
      var up, name := NamesDown(root, Parent(at)), At(root, at).name;
      assert GoodName((up + [name])[|up|]);
      assert forall i :: 0 <= i < |up| ==> up[i] == (up + [name])[i];
      PrependName(name, names);
      PathUpNames(root, Parent(at), [name] + names);
      ConsShift(up, name, names);
    }
  }

  lemma {:induction false} NodePathIsNames(root: Element, n: Node)
    requires IsNode(root, n) && GoodNames(NodeNames(root, n))
    ensures PathOf(root, n) == PathString(NodeNames(root, n))
  {
    var down, names := NamesDown(root, n.at), NodeNames(root, n);
    assert forall i :: 0 <= i < |down| ==> down[i] == names[i];
    PathUpNames(root, n.at, []);
    assert down + [] == down;
    if down != [] {
      GoodReadable(down);
      PathStringTrimmed(down);
    }
    if n.attribute.Some? && down != [] {
      assert names[..|down|] == down;
    }
  }

  // ---------------------------------------------------------------------
  // Finding by names from the root.
  // ---------------------------------------------------------------------

  // A path of names that stands for the root and these names.
  lemma {:induction false} FindNames(root: Element, path: string, tokens: seq<Token>, names: seq<string>, n: Node)
    requires Parse(path) == Ok(tokens) && AllBare(tokens) && NoDots(names) && root.name != ".."
    requires Rooted(root, tokens) == [NamedToken(root.name)] + NamedTokens(names)
    ensures var r := Find(root, path, None);
      r.Ok? && InOrder(r.value) && (n in r.value <==> Shown(root, names, n))
  {
    var all := Rooted(root, tokens);
    NamedTokensFit(names);
    assert all[1..] == NamedTokens(names);
    BareNeverFails(root, path, None);
    FindByTokens(root, path, tokens, n);
    NameFits(root, [], ElementKind, root.name);
    if names != [] {
      NamesDenote(root, names, n);
    }
  }

  // A path of names that does not start with the root's own name finds
  // exactly the nodes with these names, in document order.
  lemma {:induction false} FindByNames(root: Element, names: seq<string>, n: Node)
    requires GoodNames(names) && root.name != ".."
    requires names != [] ==> names[0] != root.name
    ensures var r := Find(root, PathString(names), None);
      && r.Ok? && InOrder(r.value)
      && (n in r.value <==> IsNode(root, n) && NodeNames(root, n) == names && Visible(root, n))
  {
    GoodReadable(names);
    PathStringParses(names);
    NamedTokensFit(names);
    FindNames(root, PathString(names), NamedTokens(names), names, n);
  }

  // When the first name is the root's own, it is taken for the root and the
  // search is for the rest.
  lemma {:induction false} RootNameTaken(root: Element, names: seq<string>, n: Node)
    requires GoodNames(names) && names != [] && names[0] == root.name
    ensures var r := Find(root, PathString(names), None);
      r.Ok? && InOrder(r.value) && (n in r.value <==> Shown(root, names[1..], n))
  {
    GoodReadable(names);
    PathStringParses(names);
    NamedTokensFit(names);
    assert GoodName(names[0]);
    FindNames(root, PathString(names), NamedTokens(names), names[1..], n);
  }

  // Searching for the path of a node finds the node exactly when the path
  // does not start with the root's own name and no child hides the
  // attribute.
  lemma {:induction false} PathRoundTrip(root: Element, n: Node)
    requires IsNode(root, n) && GoodNames(NodeNames(root, n)) && root.name != ".."
    ensures var r, names := Find(root, PathOf(root, n), None), NodeNames(root, n);
      && r.Ok?
      && (n in r.value <==> (names == [] || names[0] != root.name) && Visible(root, n))
  {
    var names := NodeNames(root, n);
    NodePathIsNames(root, n);
    if names != [] && names[0] == root.name {
      RootNameTaken(root, names, n);
    } else {
      FindByNames(root, names, n);
    }
  }
}
