// Blanks in nodepaths: parsing strips the path, so a printed path is read
// back exactly when there is nothing to strip.
module NodePathBlanks {
  import opened Wrappers
  import opened Text
  import opened NodePath
  import opened NodePathFacts
  import opened NodePathForms

  // Number of white-space characters.
  ghost function Blanks(s: string): nat
  {
    if s == "" then 0 else Blanks(s[..|s| - 1]) + Blank(s[|s| - 1])
  }

  ghost function Blank(c: char): nat
  {
    if IsSpace(c) then 1 else 0
  }

  ghost function BlanksIn(strings: seq<string>): nat
  {
    if strings == [] then 0 else BlanksIn(strings[..|strings| - 1]) + Blanks(strings[|strings| - 1])
  }

  ghost function TokenBlanks(t: Token): nat
  {
    Blanks(t.name) + BlanksIn(t.valpaths) + BlanksIn(t.values)
  }

  ghost function TokensBlanks(ts: seq<Token>): nat
  {
    if ts == [] then 0 else TokensBlanks(ts[..|ts| - 1]) + TokenBlanks(ts[|ts| - 1])
  }

  lemma {:induction false} BlanksNext(s: string, c: char)
    ensures Blanks(s + [c]) == Blanks(s) + Blank(c)
  {
    assert (s + [c])[..|s|] == s;
  }

  lemma {:induction false} BlanksJoin(a: string, b: string)
    ensures Blanks(a + b) == Blanks(a) + Blanks(b)
  {
    if b == "" {
      assert a + b == a;
    } else {
      BlanksJoin(a, b[..|b| - 1]);
      assert a + b == a + b[..|b| - 1] + [b[|b| - 1]];
      BlanksNext(a + b[..|b| - 1], b[|b| - 1]);
    }
  }

  lemma {:induction false} OneBlank(c: char)
    ensures Blanks([c]) == Blank(c)
  {
    assert [c][..0] == "";
  }

  lemma {:induction false} FirstBlank(s: string)
    requires s != ""
    ensures Blanks(s) == Blank(s[0]) + Blanks(s[1..])
  {
    assert s == [s[0]] + s[1..];
    BlanksJoin([s[0]], s[1..]);
    OneBlank(s[0]);
  }

  lemma {:induction false} BlanksInNext(strings: seq<string>, s: string)
    ensures BlanksIn(strings + [s]) == BlanksIn(strings) + Blanks(s)
  {
    assert (strings + [s])[..|strings|] == strings;
  }

  lemma {:induction false} ExtendedBlanks(strings: seq<string>, c: char)
    requires strings != []
    ensures BlanksIn(Extended(strings, c)) == BlanksIn(strings) + Blank(c)
  {
    var n := |strings| - 1;
    assert Extended(strings, c) == strings[..n] + [strings[n] + [c]];
    BlanksInNext(strings[..n], strings[n] + [c]);
    BlanksNext(strings[n], c);
  }

  lemma {:induction false} TokensNext(ts: seq<Token>, t: Token)
    ensures TokensBlanks(ts + [t]) == TokensBlanks(ts) + TokenBlanks(t)
  {
    assert (ts + [t])[..|ts|] == ts;
  }

  // ---------------------------------------------------------------------
  // The parser makes no blanks.
  // ---------------------------------------------------------------------

  ghost predicate Busy(p: Progress)
  {
    p.inProgress <==> p.state != Start && p.state != TCmpl && p.state != ExSl
  }

  ghost function Unfinished(p: Progress): nat
  {
    if p.inProgress then TokenBlanks(Token(p.name, p.valpaths, p.values)) else 0
  }

  lemma {:induction false} StepBlanks(p: Progress, c: char)
    requires p.Fits() && Busy(p) && Stepped(p, c).Ok?
    ensures var q := Stepped(p, c).value;
      Busy(q) && TokensBlanks(q.tokens) + Unfinished(q) <= TokensBlanks(p.tokens) + Unfinished(p) + Blank(c)
  {
    var state := NextState(p.state, c, p.doubleQuote, p.singleQuote);
    if state == TCmpl {
      TokensNext(p.tokens, Token(p.name, p.valpaths, p.values));
    } else {
      WithinToken(p, state, c);
    }
  }

  lemma {:induction false} WithinToken(p: Progress, state: State, c: char)
    requires state == P ==> p.valpaths != []
    requires state == V || state == DqOn || state == SqOn ==> p.values != []
    requires state != TCmpl && Entered(p, state, c).Ok? && (state == N0 || state == ExSl || p.inProgress)
    ensures Unfinished(Entered(p, state, c).value) <= Unfinished(p) + Blank(c)
  {
    match state
    case N0 => OneBlank(c);
    case N => BlanksNext(p.name, c);
    case P0 => BlanksInNext(p.valpaths, "");
    case P => ExtendedBlanks(p.valpaths, c);
    case V0 => BlanksInNext(p.values, "");
    case V => ExtendedBlanks(p.values, c);
    case _ =>
  }

  lemma {:induction false} RunBlanks(p: Progress, s: string)
    requires p.Fits() && Busy(p) && Run(p, s).Ok?
    ensures var q := Run(p, s).value;
      TokensBlanks(q.tokens) + Unfinished(q) <= TokensBlanks(p.tokens) + Unfinished(p) + Blanks(s)
    decreases |s|
  {
    if s != "" {
      StepBlanks(p, s[0]);
      RunBlanks(Stepped(p, s[0]).value, s[1..]);
      FirstBlank(s);
    }
  }

  lemma {:induction false} ParseBlanks(s: string)
    requires Parse(s).Ok?
    ensures TokensBlanks(Parse(s).value) <= Blanks(Strip(s))
  {
    RunBlanks(INITIAL, Strip(s));
    var p := Run(INITIAL, Strip(s)).value;
    TokensNext(p.tokens, Token(p.name, p.valpaths, p.values));
  }

  // ---------------------------------------------------------------------
  // Writing makes none either.
  // ---------------------------------------------------------------------

  lemma {:induction false} ValueBlanks(v: Value)
    ensures Blanks(v.Written()) == Blanks(v.text)
  {
    OneBlank('"');
    OneBlank('\'');
    BlanksJoin("\"" + v.text, "\"");
    BlanksJoin("'" + v.text, "'");
    BlanksJoin("\"", v.text);
    BlanksJoin("'", v.text);
    BlanksJoin(v.text, "\"");
    BlanksJoin(v.text, "'");
  }

  lemma {:induction false} OwnBlanks(own: Option<Value>)
    ensures Blanks(OwnWritten(own)) == if own.Some? then Blanks(own.value.text) else 0
  {
    if own.Some? {
      ValueBlanks(own.value);
      OneBlank('=');
      BlanksJoin("=", own.value.Written());
    }
  }

  lemma {:induction false} ClauseBlanks(cl: Clause)
    ensures Blanks(cl.Written()) == Blanks(cl.path) + if cl.value.Some? then Blanks(cl.value.value.text) else 0
  {
    if cl.value.Some? {
      OwnBlanks(cl.value);
      BlanksJoin(cl.path, OwnWritten(cl.value));
      assert cl.Written() == cl.path + OwnWritten(cl.value);
    }
  }

  lemma {:induction false} ClausesBlanks(bare: bool, clauses: seq<Clause>)
    ensures Blanks(ClausesWritten(bare, clauses)) == BlanksIn(Paths(clauses)) + BlanksIn(Values(clauses))
    decreases |clauses|
  {
    if clauses != [] {
      var n := |clauses| - 1;
      var front, cl, mark := clauses[..n], clauses[n], [Mark(bare, n)];
      ClausesBlanks(bare, front);
      ClauseBlanks(cl);
      OneBlank(Mark(bare, n));
      BlanksJoin(ClausesWritten(bare, front) + mark, cl.Written());
      BlanksJoin(ClausesWritten(bare, front), mark);
      BlanksInNext(Paths(front), cl.path);
      if cl.value.Some? {
        BlanksInNext(Values(front), cl.value.value.text);
      } else {
        assert Values(front) + [] == Values(front);
      }
    }
  }

  lemma {:induction false} BlanksInBefore(s: string, strings: seq<string>)
    ensures BlanksIn([s] + strings) == Blanks(s) + BlanksIn(strings)
    decreases |strings|
  {
    if strings == [] {
      assert [s] + [] == [] + [s];
      BlanksInNext([], s);
    } else {
      var n := |strings| - 1;
      BlanksInBefore(s, strings[..n]);
      assert [s] + strings == [s] + strings[..n] + [strings[n]];
      BlanksInNext([s] + strings[..n], strings[n]);
    }
  }

  lemma {:induction false} SlashesBlanks(n: nat)
    ensures Blanks(Slashes(n)) == 0
  {
    SlashesNext(n);
    if n > 0 {
      SlashesNext(n - 1);
      SlashesBlanks(n - 1);
      BlanksNext(Slashes(n - 1), '/');
    }
  }

  lemma {:induction false} HeadBlanks(f: Form)
    ensures Blanks(f.Head()) == TokenBlanks(f.Meaning())
  {
    BlanksJoin(f.name + OwnWritten(f.own), ClausesWritten(f.own.None?, f.clauses));
    BlanksJoin(f.name, OwnWritten(f.own));
    OwnBlanks(f.own);
    ClausesBlanks(f.own.None?, f.clauses);
    if f.own.Some? {
      BlanksInBefore(f.own.value.text, Values(f.clauses));
    } else {
      assert [] + Values(f.clauses) == Values(f.clauses);
    }
  }

  lemma {:induction false} FormBlanks(f: Form)
    ensures Blanks(f.Written()) == Blanks(f.Head())
  {
    var closing := if f.closed then "]" else "";
    OneBlank(']');
    SlashesBlanks(f.slashes);
    BlanksJoin(f.Head() + closing, Slashes(f.slashes));
    BlanksJoin(f.Head(), closing);
  }

  lemma {:induction false} SpelledBlanks(forms: seq<Form>)
    ensures Blanks(Spelled(forms)) == TokensBlanks(Tokens(forms))
    decreases |forms|
  {
    if forms != [] {
      var n := |forms| - 1;
      SpelledBlanks(forms[..n]);
      FormBlanks(forms[n]);
      HeadBlanks(forms[n]);
      BlanksJoin(Spelled(forms[..n]), forms[n].Written());
      TokensNext(Tokens(forms[..n]), forms[n].Meaning());
    }
  }

  // ---------------------------------------------------------------------
  // Stripping takes some away.
  // ---------------------------------------------------------------------

  lemma {:induction false} LStripBlanks(s: string)
    ensures Blanks(LStrip(s)) <= Blanks(s)
    ensures s != "" && IsSpace(s[0]) ==> Blanks(LStrip(s)) < Blanks(s)
  {
    if s != "" && IsSpace(s[0]) {
      LStripBlanks(s[1..]);
      FirstBlank(s);
    }
  }

  lemma {:induction false} RStripBlanks(s: string)
    ensures Blanks(RStrip(s)) <= Blanks(s)
    ensures s != "" && IsSpace(s[|s| - 1]) ==> Blanks(RStrip(s)) < Blanks(s)
  {
    if s != "" && IsSpace(s[|s| - 1]) {
      RStripBlanks(s[..|s| - 1]);
    }
  }

  lemma {:induction false} StripBlanks(s: string)
    requires !Trimmed(s)
    ensures Blanks(Strip(s)) < Blanks(s)
  {
    LStripBlanks(s);
    RStripBlanks(LStrip(s));
  }

  // Tokens written in any of the ways there are, with everything closed, are
  // read back exactly when the text has no white space at its ends.
  lemma {:induction false} SpelledParsesIff(forms: seq<Form>)
    requires Valid(forms) && !QuoteOpen(forms) && !BracketOpen(forms)
    ensures Parse(Spelled(forms)) == Ok(Tokens(forms)) <==> Trimmed(Spelled(forms))
  {
    var s := Spelled(forms);
    if Trimmed(s) {
      TrimmedParses(forms);
    } else {
      StripBlanks(s);
      SpelledBlanks(forms);
      if Parse(s).Ok? {
        ParseBlanks(s);
      }
    }
  }

  lemma {:induction false} TrimmedParses(forms: seq<Form>)
    requires Valid(forms) && !QuoteOpen(forms) && !BracketOpen(forms) && Trimmed(Spelled(forms))
    ensures Parse(Spelled(forms)) == Ok(Tokens(forms))
  {
    StripTrims(Spelled(forms));
    SpelledReaches(forms);
    FinishedReached(forms);
  }
}
