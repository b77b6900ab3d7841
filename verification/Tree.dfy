// A tree of named elements with attributes, as the manifest reader sees it.
module Tree {
  import opened Wrappers

  datatype Element = Element(name: string, value: string, attributes: map<string, string>, children: seq<Element>)

  // Which child to take at each level, from the root.
  type Position = seq<nat>

  // An element, or an attribute of an element.
  datatype Node = Node(at: Position, attribute: Option<string>)

  predicate Within(e: Element, at: Position)
    decreases |at|
  {
    at == [] || (at[0] < |e.children| && Within(e.children[at[0]], at[1..]))
  }

  function At(e: Element, at: Position): Element
    requires Within(e, at)
    decreases |at|
  {
    if at == [] then e else At(e.children[at[0]], at[1..])
  }

  lemma {:induction false} ChildWithin(e: Element, at: Position, i: nat)
    requires Within(e, at)
    ensures Within(e, at + [i]) <==> i < |At(e, at).children|
    ensures i < |At(e, at).children| ==> At(e, at + [i]) == At(e, at).children[i]
    decreases |at|
  {
    var next := at + [i];
    if at == [] {
      assert next == [i] && next[1..] == [];
    } else {
      ChildWithin(e.children[at[0]], at[1..], i);
      assert next[0] == at[0] && next[1..] == at[1..] + [i];
    }
  }

  lemma {:induction false} PrefixWithin(e: Element, at: Position, n: nat)
    requires Within(e, at) && n <= |at|
    ensures Within(e, at[..n])
    decreases n
  {
    if n > 0 {
      PrefixWithin(e.children[at[0]], at[1..], n - 1);
      assert at[..n][0] == at[0] && at[..n][1..] == at[1..][..n - 1];
    }
  }

  // The element above; the root is its own.
  function Parent(at: Position): Position
  {
    if at == [] then at else at[..|at| - 1]
  }

  lemma {:induction false} ParentWithin(e: Element, at: Position)
    requires Within(e, at)
    ensures Within(e, Parent(at))
  {
    if at != [] {
      PrefixWithin(e, at, |at| - 1);
    }
  }

  predicate IsNode(root: Element, n: Node)
  {
    Within(root, n.at) && (n.attribute.Some? ==> n.attribute.value in At(root, n.at).attributes)
  }

  function ValueOf(root: Element, n: Node): string
    requires IsNode(root, n)
  {
    match n.attribute
    case None => At(root, n.at).value
    case Some(name) => At(root, n.at).attributes[name]
  }
}
