// Accepted nodepaths: the shape of their tokens, and joining them.
module NodePathTheory {
  import opened Wrappers
  import opened Text
  import opened NodePath
  import opened NodePathFacts

  // ---------------------------------------------------------------------
  // Shape.
  // ---------------------------------------------------------------------

  ghost predicate AllPathlike(valpaths: seq<string>, n: int)
  {
    forall i :: 0 <= i < n <= |valpaths| ==> Pathlike(valpaths[i])
  }

  // A value for every valpath, and at most one more.
  ghost predicate Regular(t: Token)
  {
    Plain(t.name) && AllPathlike(t.valpaths, |t.valpaths|) && |t.valpaths| <= |t.values| <= |t.valpaths| + 1
  }

  ghost predicate AllRegular(ts: seq<Token>)
  {
    forall i :: 0 <= i < |ts| ==> Regular(ts[i])
  }

  // What holds in each state, about the token being read.
  ghost predicate InState(p: Progress)
  {
    match p.state
    case Start | TCmpl | ExSl => !p.inProgress
    case N0 | N => p.inProgress && Plain(p.name) && p.valpaths == [] && p.values == []
    case P0 =>
      && p.inProgress && p.bracket && Plain(p.name) && |p.values| <= |p.valpaths| <= |p.values| + 1
      && p.valpaths != [] && p.valpaths[|p.valpaths| - 1] == "" && AllPathlike(p.valpaths, |p.valpaths| - 1)
    case P =>
      && p.inProgress && p.bracket && Plain(p.name) && |p.values| <= |p.valpaths| <= |p.values| + 1
      && p.valpaths != [] && AllPathlike(p.valpaths, |p.valpaths|)
    case V0 | V | DqOn | DqOff | SqOn | SqOff | CBkt =>
      && p.inProgress && Plain(p.name) && AllPathlike(p.valpaths, |p.valpaths|)
      && |p.valpaths| <= |p.values| <= |p.valpaths| + 1 && p.values != []
    case StSl | Error => false
  }

  // Quotes are on only while a value is read, and never both kinds.
  ghost predicate QuotesFit(p: Progress)
  {
    && !(p.doubleQuote && p.singleQuote)
    && (p.doubleQuote ==> p.state == DqOn || p.state == V)
    && (p.singleQuote ==> p.state == SqOn || p.state == V)
    && (p.state == DqOn ==> p.doubleQuote)
    && (p.state == SqOn ==> p.singleQuote)
  }

  ghost predicate Sound(p: Progress)
  {
    p.Fits() && InState(p) && QuotesFit(p) && AllRegular(p.tokens)
  }

  lemma {:induction false} StepFitsQuotes(p: Progress, c: char)
    requires p.Fits() && QuotesFit(p) && Stepped(p, c).Ok?
    ensures QuotesFit(Stepped(p, c).value)
  {
  }

  lemma {:induction false} ValpathGrows(valpaths: seq<string>, c: char)
    requires valpaths != [] && (!Special(c) || (c == '/' && valpaths[|valpaths| - 1] != ""))
    requires AllPathlike(valpaths, if valpaths[|valpaths| - 1] == "" then |valpaths| - 1 else |valpaths|)
    ensures AllPathlike(Extended(valpaths, c), |valpaths|)
  {
    var last := |valpaths| - 1;
    var s, t := valpaths[last], Extended(valpaths, c)[last];
    assert s != "" ==> Pathlike(valpaths[last]);
    assert forall i :: 0 <= i < |s| ==> t[i] == s[i];
    assert Pathlike(t);
  }

  // Where a state can be reached from, and by which characters.
  ghost predicate Reachable(from: State, c: char, to: State)
  {
    match to
    case N0 => !Special(c)
    case N => (from == N0 || from == N) && !Special(c)
    case P0 => from == N0 || from == N || from == V || from == DqOff || from == SqOff
    case P => (from == P0 && !Special(c)) || (from == P && (!Special(c) || c == '/'))
    case V0 => from == N0 || from == N || from == P
    case V => from == V0 || from == V || from == DqOn || from == SqOn
    case DqOn | SqOn => from == V0
    case DqOff | SqOff => from == V || from == DqOn || from == SqOn
    case CBkt => from == V || from == DqOff || from == SqOff
    case TCmpl => from == N0 || from == N || from == V || from == DqOff || from == SqOff || from == CBkt
    case ExSl => from == TCmpl || from == ExSl
    case Start => false
    case StSl | Error => true
  }

  lemma {:induction false} NextReachable(state: State, c: char, doubleQuote: bool, singleQuote: bool)
    ensures Reachable(state, c, NextState(state, c, doubleQuote, singleQuote))
  {
  }

  lemma {:induction false} EnterName(p: Progress, state: State, c: char)
    requires InState(p) && Reachable(p.state, c, state) && p.Fits()
    requires state == N0 || state == N
    ensures InState(Entered(p, state, c).value)
  {
    var q := Entered(p, state, c).value;
    if state == N {
      assert forall i :: 0 <= i < |p.name| ==> q.name[i] == p.name[i];
    }
  }

  lemma {:induction false} EnterPath(p: Progress, state: State, c: char)
    requires InState(p) && Reachable(p.state, c, state) && p.Fits()
    requires state == P0 || state == P
    ensures InState(Entered(p, state, c).value)
  {
    var q := Entered(p, state, c).value;
    if state == P {
      if p.state == P {
        assert Pathlike(p.valpaths[|p.valpaths| - 1]);
      }
      ValpathGrows(p.valpaths, c);
    } else {
      assert forall i :: 0 <= i < |p.valpaths| ==> q.valpaths[i] == p.valpaths[i];
    }
  }

  lemma {:induction false} EnterOther(p: Progress, state: State, c: char)
    requires InState(p) && Reachable(p.state, c, state) && p.Fits() && AllRegular(p.tokens)
    requires state != N0 && state != N && state != P0 && state != P && state != StSl && state != Error
    requires state == CBkt ==> p.bracket
    ensures InState(Entered(p, state, c).value) && AllRegular(Entered(p, state, c).value.tokens)
  {
  }

  lemma {:induction false} StepInState(p: Progress, c: char)
    requires Sound(p) && Stepped(p, c).Ok?
    ensures InState(Stepped(p, c).value) && AllRegular(Stepped(p, c).value.tokens)
  {
    var state := NextState(p.state, c, p.doubleQuote, p.singleQuote);
    NextReachable(p.state, c, p.doubleQuote, p.singleQuote);
    if state == N0 || state == N {
      EnterName(p, state, c);
    } else if state == P0 || state == P {
      EnterPath(p, state, c);
    } else {
      EnterOther(p, state, c);
    }
  }

  lemma {:induction false} StepSound(p: Progress, c: char)
    requires Sound(p) && Stepped(p, c).Ok?
    ensures Sound(Stepped(p, c).value)
  {
    StepFitsQuotes(p, c);
    StepInState(p, c);
  }

  lemma {:induction false} RunSound(p: Progress, s: string)
    requires Sound(p) && Run(p, s).Ok?
    ensures Sound(Run(p, s).value)
    decreases |s|
  {
    if s != "" {
      StepSound(p, s[0]);
      RunSound(Stepped(p, s[0]).value, s[1..]);
    }
  }

  // Every accepted token has a value for each valpath and at most one more,
  // so looking up the value of a valpath never fails.
  lemma {:induction false} AcceptedRegular(nodepath: string)
    requires Parse(nodepath).Ok?
    ensures AllRegular(Parse(nodepath).value)
  {
    RunSound(INITIAL, Strip(nodepath));
  }

  // ---------------------------------------------------------------------
  // Parsing a valpath again.
  // ---------------------------------------------------------------------

  ghost predicate Bare(t: Token)
  {
    t.valpaths == [] && t.values == []
  }

  ghost predicate AllBare(ts: seq<Token>)
  {
    forall i :: 0 <= i < |ts| ==> Bare(ts[i])
  }

  ghost predicate NamesAndSlashes(s: string)
  {
    forall i :: 0 <= i < |s| ==> !Special(s[i]) || s[i] == '/'
  }

  ghost predicate OnlyNames(p: Progress)
  {
    && (p.state == Start || p.state == N0 || p.state == N || p.state == TCmpl || p.state == ExSl)
    && !p.doubleQuote && !p.singleQuote && !p.bracket
    && p.values == [] && p.valpaths == [] && AllBare(p.tokens)
  }

  lemma {:induction false} RunOnlyNames(p: Progress, s: string)
    requires OnlyNames(p) && NamesAndSlashes(s) && (p.state == Start && s != "" ==> s[0] != '/')
    ensures Run(p, s).Ok? && OnlyNames(Run(p, s).value)
    decreases |s|
  {
    if s != "" {
      var q := Stepped(p, s[0]).value;
      assert OnlyNames(q) && q.state != Start;
      RunOnlyNames(q, s[1..]);
    }
  }

  lemma {:induction false} StripKeepsNames(s: string)
    requires NamesAndSlashes(s)
    ensures NamesAndSlashes(Strip(s))
  {
    var n := LStripSpaces(s);
    assert NamesAndSlashes(LStrip(s));
    RStripEnds(LStrip(s));
    forall i | 0 <= i < |Strip(s)|
      ensures Strip(s)[i] == LStrip(s)[i]
    {
    }
  }

  // A valpath of an accepted token, parsed in its turn, gives only names, so
  // predicates do not nest; it is refused exactly when, white space aside, it
  // starts with a slash.
  lemma {:induction false} ValpathReparses(nodepath: string, i: nat, j: nat)
    requires Parse(nodepath).Ok? && i < |Parse(nodepath).value| && j < |Parse(nodepath).value[i].valpaths|
    ensures var s := Parse(nodepath).value[i].valpaths[j];
      && (Parse(s).Ok? <==> Strip(s) == "" || Strip(s)[0] != '/')
      && (Parse(s).Ok? ==> AllBare(Parse(s).value))
  {
    AcceptedRegular(nodepath);
    var token := Parse(nodepath).value[i];
    assert Regular(token);
    PathlikeReparses(token.valpaths[j]);
  }

  lemma {:induction false} PathlikeReparses(s: string)
    requires Pathlike(s)
    ensures Parse(s).Ok? <==> Strip(s) == "" || Strip(s)[0] != '/'
    ensures Parse(s).Ok? ==> AllBare(Parse(s).value)
  {
    StripKeepsNames(s);
    if Strip(s) == "" || Strip(s)[0] != '/' {
      RunOnlyNames(INITIAL, Strip(s));
    }
  }

  // ---------------------------------------------------------------------
  // Joining two paths.
  // ---------------------------------------------------------------------

  // Tokens read before do not matter.
  ghost function After(before: seq<Token>, p: Progress): Progress
  {
    p.(tokens := before + p.tokens)
  }

  lemma {:induction false} EnterAfter(before: seq<Token>, p: Progress, state: State, c: char)
    requires state == P ==> p.valpaths != []
    requires state == V || state == DqOn || state == SqOn ==> p.values != []
    requires p.state == P0 || p.state == P ==> p.valpaths != []
    ensures Entered(After(before, p), state, c)
      == match Entered(p, state, c) case Err(e) => Err(e) case Ok(q) => Ok(After(before, q))
  {
    var t := Token(p.name, p.valpaths, p.values);
    assert before + (p.tokens + [t]) == before + p.tokens + [t];
  }

  lemma {:induction false} StepAfter(before: seq<Token>, p: Progress, c: char)
    requires p.Fits()
    ensures Stepped(After(before, p), c)
      == match Stepped(p, c) case Err(e) => Err(e) case Ok(q) => Ok(After(before, q))
  {
    EnterAfter(before, p, NextState(p.state, c, p.doubleQuote, p.singleQuote), c);
  }

  lemma {:induction false} RunAfter(before: seq<Token>, p: Progress, s: string)
    requires p.Fits()
    ensures After(before, p).Fits()
    ensures Run(After(before, p), s)
      == match Run(p, s) case Err(e) => Err(e) case Ok(q) => Ok(After(before, q))
    decreases |s|
  {
    if s != "" {
      StepAfter(before, p, s[0]);
      if Stepped(p, s[0]).Ok? {
        RunAfter(before, Stepped(p, s[0]).value, s[1..]);
      }
    }
  }

  lemma {:induction false} ReadsSlashes(p: Progress, n: nat)
    requires (p.state == TCmpl || p.state == ExSl) && !p.doubleQuote && !p.singleQuote
    ensures Reads(p, Slashes(n), p.(state := if n == 0 then p.state else ExSl))
    decreases n
  {
    if n > 0 {
      var q := p.(state := ExSl);
      assert Stepped(p, '/') == Ok(q);
      ReadsSlashes(q, n - 1);
      assert Slashes(n)[0] == '/' && Slashes(n)[1..] == Slashes(n - 1);
      ReadsFirst(p, Slashes(n), q, q);
    }
  }

  // Reading a path after a separator is like reading it at the start.
  lemma {:induction false} ReadsSecond(p: Progress, s: string, q: Progress)
    requires AtBoundary(p) && p.state != Start && !p.inProgress && s != "" && Reads(INITIAL, s, q)
    ensures Reads(p, s, After(p.tokens, q))
  {
    var first := Stepped(INITIAL, s[0]).value;
    assert p.tokens + [] == p.tokens;
    assert Stepped(p, s[0]) == Ok(After(p.tokens, first));
    RunAfter(p.tokens, first, s[1..]);
    ReadsFirst(p, s, After(p.tokens, first), After(p.tokens, q));
  }

  // An accepted path ends in an equals sign exactly when it ends where a
  // value should start.
  lemma {:induction false} EndsInEquals(s: string, q: Progress)
    requires s != "" && Reads(INITIAL, s, q) && Finished(q).Ok?
    ensures q.state == V0 <==> s[|s| - 1] == '='
    ensures Sound(q)
  {
    var a, c := s[..|s| - 1], s[|s| - 1];
    assert a + [c] == s;
    RunSplit(INITIAL, a, [c]);
    RunSound(INITIAL, a);
    RunSound(INITIAL, s);
    var r := Run(INITIAL, a).value;
    assert [c][1..] == "" && Run(Stepped(r, c).value, "") == Ok(q);
    assert Stepped(r, c) == Ok(q);
    EqualsSign(r, c, q);
  }

  lemma {:induction false} EqualsSign(r: Progress, c: char, q: Progress)
    requires r.Fits() && QuotesFit(r) && Stepped(r, c) == Ok(q) && Finished(q).Ok?
    ensures q.state == V0 <==> c == '='
  {
  }

  // The slash after an accepted path completes its last token.
  lemma {:induction false} ReadsSlash(q: Progress) returns (r: Progress)
    requires Sound(q) && Finished(q).Ok? && q.state != V0 && q.state != Start
    ensures Stepped(q, '/') == Ok(r) && AtBoundary(r) && r.state != Start && !r.inProgress
    ensures Ok(r.tokens) == Finished(q)
  {
    r := Stepped(q, '/').value;
  }

  lemma {:induction false} ReadsJoined(first: string, q: Progress, second: string, q2: Progress, n: nat)
    returns (before: seq<Token>)
    requires first != "" && second != "" && n > 0 && q.state != V0
    requires Reads(INITIAL, first, q) && Reads(INITIAL, second, q2) && Sound(q) && Finished(q).Ok?
    ensures Reads(INITIAL, first + "/" + Slashes(n - 1) + second, After(before, q2)) && Finished(q) == Ok(before)
  {
    NotAtStart(first, q);
    var r := ReadsSlash(q);
    var boundary := r.(state := if n == 1 then r.state else ExSl);
    before := r.tokens;
    ReadsChar(q, '/', r);
    ReadsThen(INITIAL, first, q, "/", r);
    ReadsSlashes(r, n - 1);
    ReadsThen(INITIAL, first + "/", r, Slashes(n - 1), boundary);
    ReadsSecond(boundary, second, q2);
    ReadsThen(INITIAL, first + "/" + Slashes(n - 1), boundary, second, After(before, q2));
  }

  lemma {:induction false} RefusesJoined(first: string, q: Progress, rest: string)
    requires Reads(INITIAL, first, q) && q.state == V0 && !q.doubleQuote && !q.singleQuote
    ensures Run(INITIAL, first + "/" + rest) == Err(Malformed)
  {
    var s := "/" + rest;
    RunSplit(INITIAL, first, s);
    assert first + s == first + "/" + rest;
    assert s[0] == '/' && Stepped(q, '/') == Err(Malformed);
  }

  lemma {:induction false} ParseTrimmed(s: string)
    requires Trimmed(s)
    ensures Parse(s) == FinishedRun(Run(INITIAL, s))
  {
    StripTrims(s);
  }

  lemma {:induction false} JoinedForms(first: string, second: string, n: nat) returns (s: string)
    requires first != "" && second != "" && Trimmed(first) && Trimmed(second) && n > 0
    ensures s == first + Slashes(n) + second && Trimmed(s)
    ensures s == first + "/" + (Slashes(n - 1) + second)
    ensures s == first + "/" + Slashes(n - 1) + second
  {
    s := first + Slashes(n) + second;
    assert s[0] == first[0] && s[|s| - 1] == second[|second| - 1];
    assert Slashes(n) == "/" + Slashes(n - 1);
  }

  // Parsing two accepted paths joined by slashes gives their tokens one after
  // the other, unless the first ends in an equals sign: then the slash is
  // taken for the start of a value, which is refused.
  lemma {:induction false} Concatenation(first: string, second: string, n: nat)
    requires first != "" && second != "" && Trimmed(first) && Trimmed(second) && n > 0
    requires Parse(first).Ok? && Parse(second).Ok?
    ensures Parse(first + Slashes(n) + second)
      == if first[|first| - 1] == '=' then Err(Malformed) else Ok(Parse(first).value + Parse(second).value)
  {
    var s := JoinedForms(first, second, n);
    ParseTrimmed(first);
    ParseTrimmed(second);
    ParseTrimmed(s);
    var q, q2 := Run(INITIAL, first).value, Run(INITIAL, second).value;
    EndsInEquals(first, q);
    if q.state == V0 {
      RefusesJoined(first, q, Slashes(n - 1) + second);
    } else {
      var before := ReadsJoined(first, q, second, q2, n);
      FinishedAfter(before, q2);
    }
  }

  lemma {:induction false} FinishedAfter(before: seq<Token>, q: Progress)
    requires Finished(q).Ok?
    ensures Finished(After(before, q)) == Ok(before + Finished(q).value)
  {
    var t := Token(q.name, q.valpaths, q.values);
    assert before + (q.tokens + [t]) == before + q.tokens + [t];
  }

  lemma {:induction false} LeavesStart(p: Progress, s: string, q: Progress)
    requires Reads(p, s, q) && (p.state != Start || s != "")
    ensures q.state != Start
    decreases |s|
  {
    if s != "" {
      LeavesStart(Stepped(p, s[0]).value, s[1..], q);
    }
  }

  lemma {:induction false} NotAtStart(s: string, q: Progress)
    requires s != "" && Reads(INITIAL, s, q)
    ensures q.state != Start
  {
    LeavesStart(INITIAL, s, q);
  }
}
