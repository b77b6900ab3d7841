// Paths of names only: names joined by slashes, and reading them.
module NamePaths {
  import opened Wrappers
  import opened Text
  import opened NodePath
  import opened NodePathFacts
  import NodePathForms
  import NodePathBlanks

  function NamedToken(name: string): Token
  {
    Token(name, [], [])
  }

  function NamedTokens(names: seq<string>): (tokens: seq<Token>)
    ensures |tokens| == |names| && forall i :: 0 <= i < |names| ==> tokens[i] == NamedToken(names[i])
  {
    seq(|names|, i requires 0 <= i < |names| => NamedToken(names[i]))
  }

  ghost predicate Readable(names: seq<string>)
  {
    forall i :: 0 <= i < |names| ==> Plain(names[i]) && Trimmed(names[i])
  }

  // The names joined by slashes.
  ghost function PathString(names: seq<string>): string
  {
    if names == [] then ""
    else if |names| == 1 then names[0]
    else PathString(names[..|names| - 1]) + "/" + names[|names| - 1]
  }

  lemma {:induction false} PathStringTrimmed(names: seq<string>)
    requires Readable(names)
    ensures Trimmed(PathString(names)) && (names != [] ==> PathString(names) != "")
    decreases |names|
  {
    if names != [] {
      PathStringTrimmed(names[..|names| - 1]);
      assert Trimmed(names[|names| - 1]) && Plain(names[|names| - 1]);
    }
  }

  // These forms are how the names are written, with `last` slashes at the end.
  ghost predicate Writes(forms: seq<NodePathForms.Form>, names: seq<string>, last: nat)
  {
    && NodePathForms.Valid(forms) && !NodePathForms.QuoteOpen(forms) && !NodePathForms.BracketOpen(forms)
    && NodePathForms.Tokens(forms) == NamedTokens(names)
    && NodePathForms.Spelled(forms) == (if names == [] then "" else PathString(names) + Slashes(last))
    && (forms != [] ==> forms[|forms| - 1].slashes == last)
  }

  lemma {:induction false} OneMoreName(names: seq<string>, last: nat)
    requires names != []
    ensures var n := |names| - 1;
      && NamedTokens(names) == NamedTokens(names[..n]) + [Token(names[n], [], [])]
      && PathString(names) + Slashes(last)
         == (if names[..n] == [] then "" else PathString(names[..n]) + Slashes(1)) + (names[n] + Slashes(last))
  {
    SlashesNext(0);
    assert Slashes(1) == "/";
  }

  lemma {:induction false} WritesNext(forms: seq<NodePathForms.Form>, names: seq<string>, last: nat)
    requires names != [] && Plain(names[|names| - 1]) && Writes(forms, names[..|names| - 1], 1)
    ensures Writes(forms + [NodePathForms.NameForm(names[|names| - 1], last)], names, last)
  {
    var n := |names| - 1;
    OneMoreName(names, last);
    AddNameTo(forms, names[n], last);
  }

  lemma {:induction false} AddNameTo(forms: seq<NodePathForms.Form>, name: string, last: nat)
    requires NodePathForms.Valid(forms) && !NodePathForms.BracketOpen(forms) && Plain(name)
    requires forms != [] ==> forms[|forms| - 1].slashes == 1
    ensures var f := NodePathForms.NameForm(name, last);
      var longer := forms + [f];
      && NodePathForms.Valid(longer) && !NodePathForms.BracketOpen(longer) && !NodePathForms.QuoteOpen(longer)
      && NodePathForms.Tokens(longer) == NodePathForms.Tokens(forms) + [Token(name, [], [])]
      && NodePathForms.Spelled(longer) == NodePathForms.Spelled(forms) + (name + Slashes(last))
      && longer[|longer| - 1].slashes == last
  {
    NodePathForms.AddName(forms, name, last);
  }

  lemma {:induction false} FormsWrite(names: seq<string>, last: nat) returns (forms: seq<NodePathForms.Form>)
    requires Readable(names)
    ensures Writes(forms, names, last)
    decreases |names|
  {
    forms := [];
    if names != [] {
      var front := FormsWrite(names[..|names| - 1], 1);
      WritesNext(front, names, last);
      forms := front + [NodePathForms.NameForm(names[|names| - 1], last)];
    }
  }

  // Reading a path of names.
  lemma {:induction false} PathStringParses(names: seq<string>)
    requires Readable(names)
    ensures Parse(PathString(names)) == Ok(NamedTokens(names))
  {
    var forms := FormsWrite(names, 0);
    SlashesNext(0);
    assert PathString(names) + "" == PathString(names);
    PathStringTrimmed(names);
    NodePathBlanks.SpelledParsesIff(forms);
  }

  // One name and two.
  lemma {:induction false} ShortPathsParse(first: string, second: string)
    requires Plain(first) && Trimmed(first) && Plain(second) && Trimmed(second)
    ensures Parse(first) == Ok([NamedToken(first)])
    ensures Parse(first + "/" + second) == Ok([NamedToken(first), NamedToken(second)])
  {
    PathStringParses([first]);
    PathStringParses([first, second]);
    assert [first, second][..1] == [first];
    assert NamedTokens([first]) == [NamedToken(first)];
    assert NamedTokens([first, second]) == [NamedToken(first), NamedToken(second)];
  }
}
