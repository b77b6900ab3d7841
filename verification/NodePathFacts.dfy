// What the nodepath parser accepts and returns.
module NodePathFacts {
  import opened Wrappers
  import opened NodePath

  lemma {:induction false} RunSplit(p: Progress, a: string, b: string)
    requires p.Fits()
    ensures Run(p, a + b) == match Run(p, a) case Err(e) => Err(e) case Ok(q) => Run(q, b)
    decreases |a|
  {
    if a == "" {
      assert a + b == b;
    } else {
      assert (a + b)[0] == a[0] && (a + b)[1..] == a[1..] + b;
      var r := Stepped(p, a[0]);
      if r.Ok? {
        RunSplit(r.value, a[1..], b);
      }
    }
  }

  // Reading s takes the parser from p to q.
  ghost predicate Reads(p: Progress, s: string, q: Progress)
  {
    p.Fits() && Run(p, s) == Ok(q)
  }

  lemma {:induction false} ReadsThen(p: Progress, a: string, q: Progress, b: string, r: Progress)
    requires Reads(p, a, q) && Reads(q, b, r)
    ensures Reads(p, a + b, r)
  {
    RunSplit(p, a, b);
  }

  lemma {:induction false} ReadsChar(p: Progress, c: char, q: Progress)
    requires p.Fits() && Stepped(p, c) == Ok(q)
    ensures Reads(p, [c], q)
  {
    assert [c][1..] == "" && Run(q, "") == Ok(q);
  }

  lemma {:induction false} ReadsFirst(p: Progress, s: string, q: Progress, r: Progress)
    requires s != "" && p.Fits() && Stepped(p, s[0]) == Ok(q) && Reads(q, s[1..], r)
    ensures Reads(p, s, r)
  {
  }

  // ---------------------------------------------------------------------
  // Names and the paths of predicates.
  // ---------------------------------------------------------------------

  predicate Plain(s: string)
  {
    s != "" && forall i :: 0 <= i < |s| ==> !Special(s[i])
  }

  // A path of names.
  predicate Pathlike(s: string)
  {
    && s != "" && s[0] != '/'
    && forall i :: 0 <= i < |s| ==> !Special(s[i]) || s[i] == '/'
  }

  // Ready for the first character of a token.
  predicate AtBoundary(p: Progress)
  {
    (p.state == Start || p.state == TCmpl || p.state == ExSl) && !p.doubleQuote && !p.singleQuote && !p.bracket
  }

  function Slashes(n: nat): string
  {
    seq(n, _ => '/')
  }

  lemma {:induction false} SlashesNext(n: nat)
    ensures Slashes(0) == "" && Slashes(n + 1) == Slashes(n) + "/" && Slashes(n + 1) == "/" + Slashes(n)
  {
  }
}
