// The language of nodepaths, said without the state table: how tokens may be
// written, and that the parser accepts exactly what is written like that.
module NodePathForms {
  import opened Wrappers
  import Text
  import opened NodePath
  import opened NodePathFacts

  // A value may be quoted, or stand as it is, even with a quote after it,
  // which is dropped.  Missing and the open ones are not finished yet.
  datatype Quoting = Missing | Unquoted | Double | Single | StrayDouble | StraySingle | OpenDouble | OpenSingle

  datatype Value = Value(text: string, quoting: Quoting)
  {
    function Written(): string
    {
      match quoting
      case Missing | Unquoted => text
      case Double => "\"" + text + "\""
      case Single => "'" + text + "'"
      case StrayDouble => text + "\""
      case StraySingle => text + "'"
      case OpenDouble => "\"" + text
      case OpenSingle => "'" + text
    }

    predicate Finished()
    {
      quoting != Missing && quoting != OpenDouble && quoting != OpenSingle
    }

    // What may stand between quotes, and what without.
    predicate Valid()
    {
      match quoting
      case Missing => text == ""
      case Unquoted | StrayDouble | StraySingle => Plain(text)
      case Double | OpenDouble => '"' !in text
      case Single | OpenSingle => '\'' !in text
    }
  }

  // path=value, or only the beginning of the path.
  datatype Clause = Clause(path: string, value: Option<Value>)
  {
    function Written(): string
    {
      if value.Some? then path + "=" + value.value.Written() else path
    }

    predicate Finished()
    {
      value.Some? && value.value.Finished()
    }

    predicate Valid()
    {
      if value.Some? then Pathlike(path) && value.value.Valid() else path == "" || Pathlike(path)
    }
  }

  // A name, perhaps with a value of its own, clauses, a closing bracket, and
  // slashes.
  datatype Form = Form(name: string, own: Option<Value>, clauses: seq<Clause>, closed: bool, slashes: nat)
  {
    function Head(): string
    {
      name + OwnWritten(own) + ClausesWritten(own.None?, clauses)
    }

    function Written(): string
    {
      Head() + (if closed then "]" else "") + Slashes(slashes)
    }

    // The value in last place, if there is one.
    function Last(): Option<Value>
    {
      if clauses != [] then clauses[|clauses| - 1].value else own
    }

    predicate Ends()
    {
      Last().Some? && Last().value.Finished()
    }

    // Nothing stands half-written before something else.
    predicate Valid()
    {
      && Plain(name)
      && (own.Some? ==> own.value.Valid() && (clauses != [] ==> own.value.Finished()))
      && ClausesValid(clauses)
      && (closed ==> Ends())
      && (slashes > 0 && (own.Some? || clauses != []) ==> Ends())
    }

    function Meaning(): Token
    {
      Token(name, Paths(clauses), (if own.Some? then [own.value.text] else []) + Values(clauses))
    }
  }

  // Only the last of the clauses may be unfinished.
  predicate ClausesValid(clauses: seq<Clause>)
  {
    && (forall i :: 0 <= i < |clauses| ==> clauses[i].Valid())
    && (forall i :: 0 <= i < |clauses| - 1 ==> clauses[i].Finished())
  }

  function OwnWritten(own: Option<Value>): string
  {
    if own.Some? then "=" + own.value.Written() else ""
  }

  // The first clause opens a bracket unless a value is before it.
  function Mark(bare: bool, i: nat): char
  {
    if i == 0 && bare then '[' else ':'
  }

  function ClausesWritten(bare: bool, clauses: seq<Clause>): string
  {
    if clauses == [] then ""
    else
      var n := |clauses| - 1;
      ClausesWritten(bare, clauses[..n]) + [Mark(bare, n)] + clauses[n].Written()
  }

  function Paths(clauses: seq<Clause>): seq<string>
  {
    if clauses == [] then [] else Paths(clauses[..|clauses| - 1]) + [clauses[|clauses| - 1].path]
  }

  function Values(clauses: seq<Clause>): seq<string>
  {
    if clauses == [] then []
    else
      var v := clauses[|clauses| - 1].value;
      Values(clauses[..|clauses| - 1]) + (if v.Some? then [v.value.text] else [])
  }

  function Spelled(forms: seq<Form>): string
  {
    if forms == [] then "" else Spelled(forms[..|forms| - 1]) + forms[|forms| - 1].Written()
  }

  function Tokens(forms: seq<Form>): seq<Token>
  {
    if forms == [] then [] else Tokens(forms[..|forms| - 1]) + [forms[|forms| - 1].Meaning()]
  }

  // A bracket has been opened and not closed, perhaps by an earlier token.
  predicate BracketOpen(forms: seq<Form>)
  {
    forms != [] && OpenAfter(BracketOpen(forms[..|forms| - 1]), forms[|forms| - 1])
  }

  predicate OpenAfter(open: bool, f: Form)
  {
    !f.closed && (f.clauses != [] || open)
  }

  predicate QuoteOpen(forms: seq<Form>)
  {
    forms != [] && (HasQuoting(forms[|forms| - 1], OpenDouble) || HasQuoting(forms[|forms| - 1], OpenSingle))
  }

  predicate HasQuoting(f: Form, q: Quoting)
  {
    f.Last().Some? && f.Last().value.quoting == q
  }

  // All tokens but the last end in slashes, and every closing bracket closes
  // one.
  predicate Valid(forms: seq<Form>)
  {
    || forms == []
    || (var before, f := forms[..|forms| - 1], forms[|forms| - 1];
        && f.Valid() && Valid(before) && (f.closed ==> f.clauses != [] || BracketOpen(before))
        && (before != [] ==> before[|before| - 1].slashes > 0))
  }

  // ---------------------------------------------------------------------
  // Where the parser is after reading them.
  // ---------------------------------------------------------------------

  function ValueState(v: Value): State
  {
    match v.quoting
    case Missing => V0
    case Unquoted => V
    case Double | StrayDouble => DqOff
    case Single | StraySingle => SqOff
    case OpenDouble => if v.text == "" then DqOn else V
    case OpenSingle => if v.text == "" then SqOn else V
  }

  function FormState(f: Form): State
  {
    if f.slashes == 1 then TCmpl
    else if f.slashes > 1 then ExSl
    else if f.closed then CBkt
    else if f.Last().Some? then ValueState(f.Last().value)
    else if f.clauses != [] then (if f.clauses[|f.clauses| - 1].path == "" then P0 else P)
    else if |f.name| == 1 then N0 else N
  }

  // After these tokens and this form.
  function After(before: seq<Token>, open: bool, f: Form): Progress
  {
    var t := f.Meaning();
    Progress(FormState(f), HasQuoting(f, OpenDouble), HasQuoting(f, OpenSingle), OpenAfter(open, f),
             t.name, t.valpaths, t.values, f.slashes == 0, if f.slashes == 0 then before else before + [t])
  }

  function Reached(forms: seq<Form>): Progress
  {
    if forms == [] then INITIAL
    else After(Tokens(forms[..|forms| - 1]), BracketOpen(forms[..|forms| - 1]), forms[|forms| - 1])
  }

  // The parser goes from p to q.
  ghost predicate Goes(p: Progress, c: char, q: Progress)
  {
    p.Fits() && Stepped(p, c) == Ok(q)
  }

  // ---------------------------------------------------------------------
  // One character less.
  // ---------------------------------------------------------------------

  function Front(s: string): string
    requires s != ""
  {
    s[..|s| - 1]
  }

  // The value before its last character, and that character.
  function ShorterValue(v: Value): (r: (Value, char))
    requires v.Valid() && v.quoting != Missing
    ensures r.0.Valid() && v.Written() == r.0.Written() + [r.1]
  {
    if v.text != "" then
      var front, c := Front(v.text), v.text[|v.text| - 1];
      assert v.text == front + [c];
      match v.quoting
      case Unquoted => (if front == "" then Value("", Missing) else Value(front, Unquoted), c)
      case Double => (Value(v.text, OpenDouble), '"')
      case Single => (Value(v.text, OpenSingle), '\'')
      case StrayDouble => (Value(v.text, Unquoted), '"')
      case StraySingle => (Value(v.text, Unquoted), '\'')
      case OpenDouble => (Value(front, OpenDouble), c)
      case OpenSingle => (Value(front, OpenSingle), c)
    else
      match v.quoting
      case Double => (Value("", OpenDouble), '"')
      case Single => (Value("", OpenSingle), '\'')
      case OpenDouble => (Value("", Missing), '"')
      case OpenSingle => (Value("", Missing), '\'')
  }

  // The same for an optional value with its equals sign ...
  function ShorterOwn(own: Option<Value>): (r: (Option<Value>, char))
    requires own.Some? && own.value.Valid()
    ensures r.0.Some? ==> r.0.value.Valid()
    ensures OwnWritten(own) == OwnWritten(r.0) + [r.1]
  {
    if own.value.quoting == Missing then (None, '=')
    else
      var (v, c) := ShorterValue(own.value);
      assert "=" + (v.Written() + [c]) == "=" + v.Written() + [c];
      (Some(v), c)
  }

  // ... and for a clause.
  function ShorterClause(cl: Clause): (r: (Clause, char))
    requires cl.Valid() && !(cl.value.None? && cl.path == "")
    ensures r.0.Valid() && cl.Written() == r.0.Written() + [r.1]
  {
    if cl.value.Some? then
      var (v, c) := ShorterOwn(cl.value);
      assert cl.Written() == cl.path + OwnWritten(cl.value);
      assert cl.path + (OwnWritten(v) + [c]) == cl.path + OwnWritten(v) + [c];
      (Clause(cl.path, v), c)
    else
      assert cl.path == Front(cl.path) + [cl.path[|cl.path| - 1]];
      (Clause(Front(cl.path), None), cl.path[|cl.path| - 1])
  }

  // A form of one character.
  predicate Smallest(f: Form)
  {
    |f.name| == 1 && f.own.None? && f.clauses == [] && !f.closed && f.slashes == 0
  }

  // A clause of which only the mark is there.
  predicate OnlyMark(cl: Clause)
  {
    cl.value.None? && cl.path == ""
  }

  // A form before its last character, and that character.
  function ShorterForm(f: Form): (Form, char)
    requires f.Valid() && !Smallest(f)
  {
    if f.slashes > 0 then (f.(slashes := f.slashes - 1), '/')
    else if f.closed then (f.(closed := false), ']')
    else if f.clauses != [] then
      var n := |f.clauses| - 1;
      if OnlyMark(f.clauses[n]) then (f.(clauses := f.clauses[..n]), Mark(f.own.None?, n))
      else
        var (cl, c) := ShorterClause(f.clauses[n]);
        (f.(clauses := f.clauses[..n] + [cl]), c)
    else if f.own.Some? then
      var (own, c) := ShorterOwn(f.own);
      (f.(own := own), c)
    else (f.(name := Front(f.name)), f.name[|f.name| - 1])
  }

  lemma {:induction false} ClausesNext(bare: bool, clauses: seq<Clause>, cl: Clause)
    ensures ClausesWritten(bare, clauses + [cl])
      == ClausesWritten(bare, clauses) + [Mark(bare, |clauses|)] + cl.Written()
    ensures Paths(clauses + [cl]) == Paths(clauses) + [cl.path]
    ensures Values(clauses + [cl]) == Values(clauses) + (if cl.value.Some? then [cl.value.value.text] else [])
  {
    assert (clauses + [cl])[..|clauses|] == clauses;
  }

  lemma {:induction false} Regroup(a: string, b: string, c: string, d: string)
    ensures a + (b + c + d) == a + (b + c) + d && a + (b + (c + d)) == a + (b + c) + d
  {
  }

  lemma {:induction false} JustHead(f: Form)
    requires f.slashes == 0 && !f.closed
    ensures f.Written() == f.Head()
  {
    SlashesNext(0);
    assert f.Head() + "" + "" == f.Head();
  }

  // The shorter form is written with one character less.
  lemma {:induction false} ShorterWritten(f: Form)
    requires f.Valid() && !Smallest(f)
    ensures f.Written() == ShorterForm(f).0.Written() + [ShorterForm(f).1]
  {
    var g := ShorterForm(f).0;
    if f.slashes > 0 {
      var closing := if f.closed then "]" else "";
      SlashesNext(f.slashes - 1);
      assert f.Head() + closing + (Slashes(f.slashes - 1) + "/") == f.Head() + closing + Slashes(f.slashes - 1) + "/";
    } else if f.closed {
      SlashesNext(0);
      assert f.Head() + "]" + "" == f.Head() + "]";
      JustHead(g);
    } else {
      JustHead(f);
      JustHead(g);
      ShorterHead(f);
    }
  }

  lemma {:induction false} ShorterHead(f: Form)
    requires f.Valid() && !Smallest(f) && f.slashes == 0 && !f.closed
    ensures f.Head() == ShorterForm(f).0.Head() + [ShorterForm(f).1]
  {
    var (g, c) := ShorterForm(f);
    if f.clauses != [] {
      ShorterClauses(f);
      LongerTail(f.name + OwnWritten(f.own), ClausesWritten(f.own.None?, g.clauses), c);
    } else if f.own.Some? {
      LongerTail(f.name, OwnWritten(g.own), c);
    } else {
      assert f.name == g.name + [c];
    }
  }

  lemma {:induction false} LongerTail(a: string, b: string, c: char)
    ensures a + (b + [c]) == a + b + [c] && a + (b + [c]) + "" == a + b + "" + [c]
  {
  }

  lemma {:induction false} ShorterClauses(f: Form)
    requires f.Valid() && f.slashes == 0 && !f.closed && f.clauses != []
    ensures var (g, c) := ShorterForm(f);
      ClausesWritten(f.own.None?, f.clauses) == ClausesWritten(f.own.None?, g.clauses) + [c]
  {
    var n := |f.clauses| - 1;
    var front, cl, bare := f.clauses[..n], f.clauses[n], f.own.None?;
    assert f.clauses == front + [cl];
    ClausesNext(bare, front, cl);
    if OnlyMark(cl) {
      assert cl.Written() == "";
    } else {
      var (d, c) := ShorterClause(cl);
      ClausesNext(bare, front, d);
      LongerTail(ClausesWritten(bare, front) + [Mark(bare, n)], d.Written(), c);
    }
  }

  lemma {:induction false} ShorterClausesValid(clauses: seq<Clause>, cl: Clause)
    requires ClausesValid(clauses) && clauses != [] && cl.Valid()
    ensures ClausesValid(clauses[..|clauses| - 1]) && ClausesValid(clauses[..|clauses| - 1] + [cl])
  {
  }

  lemma {:induction false} ShorterValid(f: Form)
    requires f.Valid() && !Smallest(f)
    ensures var g := ShorterForm(f).0; g.Valid() && (g.closed ==> f.closed)
  {
    if f.slashes == 0 && !f.closed && f.clauses != [] {
      var n := |f.clauses| - 1;
      ShorterClausesValid(f.clauses, if OnlyMark(f.clauses[n]) then f.clauses[n] else ShorterClause(f.clauses[n]).0);
    }
  }

  // ---------------------------------------------------------------------
  // The last character takes the parser from the shorter form to the form.
  // ---------------------------------------------------------------------

  // At a value: `others` are the values before it.
  function AtValue(p: Progress, others: seq<string>, v: Value): Progress
  {
    p.(state := ValueState(v), doubleQuote := v.quoting == OpenDouble, singleQuote := v.quoting == OpenSingle,
       values := others + [v.text])
  }

  lemma {:induction false} Lengthened(others: seq<string>, text: string, c: char)
    ensures Extended(others + [text], c) == others + [text + [c]]
  {
  }

  // A character of the text.
  lemma {:induction false} TextStep(p: Progress, others: seq<string>, v: Value, w: Value, c: char)
    requires v.text == w.text + [c] && ValueState(v) == V
    requires v.quoting == w.quoting || (v.quoting == Unquoted && w == Value("", Missing))
    requires v.quoting == Unquoted ==> !Special(c)
    requires v.quoting == OpenDouble ==> c != '"'
    requires v.quoting == OpenSingle ==> c != '\''
    ensures Goes(AtValue(p, others, w), c, AtValue(p, others, v))
  {
    var q := AtValue(p, others, w);
    Lengthened(others, w.text, c);
    assert NextState(q.state, c, q.doubleQuote, q.singleQuote) == V;
  }

  // A quote.
  lemma {:induction false} QuoteStep(p: Progress, others: seq<string>, v: Value, w: Value, c: char)
    requires v.text == w.text && ValueState(w) != CBkt
    requires NextState(ValueState(w), c, w.quoting == OpenDouble, w.quoting == OpenSingle) == ValueState(v)
    requires ValueState(v) == DqOn || ValueState(v) == SqOn || ValueState(v) == DqOff || ValueState(v) == SqOff
    requires ValueState(v) == DqOn ==> v.quoting == OpenDouble && w.quoting == Missing
    requires ValueState(v) == SqOn ==> v.quoting == OpenSingle && w.quoting == Missing
    requires ValueState(v) == DqOff ==> v.quoting != OpenSingle && w.quoting != OpenSingle
    requires ValueState(v) == SqOff ==> v.quoting != OpenDouble && w.quoting != OpenDouble
    ensures Goes(AtValue(p, others, w), c, AtValue(p, others, v))
  {
  }

  lemma {:induction false} ValueStep(p: Progress, others: seq<string>, v: Value)
    requires v.Valid() && v.quoting != Missing
    ensures var (w, c) := ShorterValue(v); Goes(AtValue(p, others, w), c, AtValue(p, others, v))
  {
    var (w, c) := ShorterValue(v);
    if v.text != "" && ValueState(v) == V {
      TextStep(p, others, v, w, c);
    } else {
      QuoteStep(p, others, v, w, c);
    }
  }

  // A token being read.
  function Reading(state: State, before: seq<Token>, open: bool, name: string, paths: seq<string>,
      values: seq<string>): Progress
  {
    Progress(state, false, false, open, name, paths, values, true, before)
  }

  predicate Unclosed(f: Form)
  {
    f.slashes == 0 && !f.closed
  }

  function OwnText(f: Form): seq<string>
  {
    if f.own.Some? then [f.own.value.text] else []
  }

  lemma {:induction false} AfterName(before: seq<Token>, open: bool, f: Form)
    requires Unclosed(f) && f.own.None? && f.clauses == []
    ensures After(before, open, f) == Reading(if |f.name| == 1 then N0 else N, before, open, f.name, [], [])
  {
    assert [] + Values([]) == [];
  }

  lemma {:induction false} AfterOwn(before: seq<Token>, open: bool, f: Form, v: Value)
    requires Unclosed(f) && f.own == Some(v) && f.clauses == []
    ensures After(before, open, f) == AtValue(Reading(V0, before, open, f.name, [], []), [], v)
  {
    assert [v.text] + Values([]) == [] + [v.text];
  }

  lemma {:induction false} AfterPath(before: seq<Token>, open: bool, f: Form, front: seq<Clause>, path: string)
    requires Unclosed(f) && f.clauses == front + [Clause(path, None)]
    ensures After(before, open, f)
      == Reading(if path == "" then P0 else P, before, true, f.name, Paths(front) + [path], OwnText(f) + Values(front))
  {
    ClausesNext(true, front, Clause(path, None));
    assert Values(front) + [] == Values(front);
  }

  lemma {:induction false} AfterClause(before: seq<Token>, open: bool, f: Form, front: seq<Clause>, path: string,
      v: Value)
    requires Unclosed(f) && f.clauses == front + [Clause(path, Some(v))]
    ensures After(before, open, f)
      == AtValue(Reading(V0, before, true, f.name, Paths(front) + [path], []), OwnText(f) + Values(front), v)
  {
    ClausesNext(true, front, Clause(path, Some(v)));
    assert OwnText(f) + (Values(front) + [v.text]) == OwnText(f) + Values(front) + [v.text];
  }

  lemma {:induction false} StepName(before: seq<Token>, open: bool, f: Form)
    requires f.Valid() && Unclosed(f) && f.clauses == [] && f.own.None? && |f.name| > 1
    ensures var (g, c) := ShorterForm(f); Goes(After(before, open, g), c, After(before, open, f))
  {
    var (g, c) := ShorterForm(f);
    AfterName(before, open, f);
    AfterName(before, open, g);
    assert g.name + [c] == f.name;
  }

  lemma {:induction false} StepOwn(before: seq<Token>, open: bool, f: Form, v: Value)
    requires f.Valid() && Unclosed(f) && f.clauses == [] && f.own == Some(v)
    ensures var (g, c) := ShorterForm(f); Goes(After(before, open, g), c, After(before, open, f))
  {
    var (g, c) := ShorterForm(f);
    AfterOwn(before, open, f, v);
    if v.quoting == Missing {
      AfterName(before, open, g);
    } else {
      AfterOwn(before, open, g, ShorterValue(v).0);
      ValueStep(Reading(V0, before, open, f.name, [], []), [], v);
    }
  }

  lemma {:induction false} StepPath(before: seq<Token>, open: bool, f: Form, front: seq<Clause>, path: string)
    requires f.Valid() && Unclosed(f) && f.clauses == front + [Clause(path, None)] && path != ""
    ensures var (g, c) := ShorterForm(f); Goes(After(before, open, g), c, After(before, open, f))
  {
    var (g, c) := ShorterForm(f);
    assert f.clauses[|front|] == Clause(path, None) && f.clauses[..|front|] == front;
    AfterPath(before, open, f, front, path);
    AfterPath(before, open, g, front, Front(path));
    PathStep(Reading(P0, before, true, f.name, [], OwnText(f) + Values(front)), Paths(front), path);
  }

  lemma {:induction false} PathStep(p: Progress, others: seq<string>, path: string)
    requires Pathlike(path) && !p.doubleQuote && !p.singleQuote
    ensures Goes(p.(state := if Front(path) == "" then P0 else P, valpaths := others + [Front(path)]),
                 path[|path| - 1], p.(state := P, valpaths := others + [path]))
  {
    Lengthened(others, Front(path), path[|path| - 1]);
    assert Front(path) + [path[|path| - 1]] == path;
  }

  lemma {:induction false} StepClauseValue(before: seq<Token>, open: bool, f: Form, g: Form, front: seq<Clause>,
      path: string, v: Value)
    requires Unclosed(f) && f.clauses == front + [Clause(path, Some(v))] && v.Valid() && v.quoting != Missing
    requires g == f.(clauses := front + [Clause(path, Some(ShorterValue(v).0))])
    ensures Goes(After(before, open, g), ShorterValue(v).1, After(before, open, f))
  {
    AfterClause(before, open, f, front, path, v);
    AfterClause(before, open, g, front, path, ShorterValue(v).0);
    ValueStep(Reading(V0, before, true, f.name, Paths(front) + [path], []), OwnText(f) + Values(front), v);
  }

  lemma {:induction false} StepEquals(before: seq<Token>, open: bool, f: Form, g: Form, front: seq<Clause>,
      path: string)
    requires Unclosed(f) && f.clauses == front + [Clause(path, Some(Value("", Missing)))] && path != ""
    requires g == f.(clauses := front + [Clause(path, None)])
    ensures Goes(After(before, open, g), '=', After(before, open, f))
  {
    AfterClause(before, open, f, front, path, Value("", Missing));
    AfterPath(before, open, g, front, path);
    EqualsStep(Reading(P, before, true, f.name, Paths(front) + [path], []), OwnText(f) + Values(front));
  }

  lemma {:induction false} EqualsStep(p: Progress, values: seq<string>)
    requires p.state == P && p.valpaths != [] && !p.doubleQuote && !p.singleQuote
    ensures Goes(p.(values := values), '=', AtValue(p, values, Value("", Missing)))
  {
  }

  // The states in which a token can end.
  lemma {:induction false} EndState(before: seq<Token>, open: bool, f: Form)
    requires f.slashes == 0 && f.name != "" && (f.own.Some? || f.clauses != [] ==> f.Ends())
    ensures var p := After(before, open, f);
      && !p.doubleQuote && !p.singleQuote
      && if f.closed then p.state == CBkt
         else if f.own.None? && f.clauses == [] then p.state == N0 || p.state == N
         else p.state == V || p.state == DqOff || p.state == SqOff
  {
  }

  lemma {:induction false} StepSlash(before: seq<Token>, open: bool, f: Form, g: Form)
    requires f.slashes > 0 && g == f.(slashes := f.slashes - 1) && f.name != ""
    requires f.own.Some? || f.clauses != [] ==> f.Ends()
    ensures Goes(After(before, open, g), '/', After(before, open, f))
  {
    if f.slashes == 1 {
      EndState(before, open, g);
      FirstSlash(before, open, f, g);
    } else {
      NextSlash(before, open, f, g);
    }
  }

  lemma {:induction false} FirstSlash(before: seq<Token>, open: bool, f: Form, g: Form)
    requires f.slashes == 1 && g == f.(slashes := 0)
    requires var q := After(before, open, g);
      && !q.doubleQuote && !q.singleQuote
      && (q.state == CBkt || q.state == N0 || q.state == N || q.state == V || q.state == DqOff || q.state == SqOff)
    ensures Goes(After(before, open, g), '/', After(before, open, f))
  {
    var p, q := After(before, open, f), After(before, open, g);
    assert NextState(q.state, '/', q.doubleQuote, q.singleQuote) == TCmpl;
    assert q.Fits();
    assert Token(q.name, q.valpaths, q.values) == f.Meaning();
  }

  lemma {:induction false} NextSlash(before: seq<Token>, open: bool, f: Form, g: Form)
    requires f.slashes > 1 && g == f.(slashes := f.slashes - 1)
    ensures Goes(After(before, open, g), '/', After(before, open, f))
  {
    var p, q := After(before, open, f), After(before, open, g);
    assert f.Meaning() == g.Meaning() && f.Last() == g.Last();
    assert p == q.(state := ExSl);
  }

  lemma {:induction false} StepClosed(before: seq<Token>, open: bool, f: Form, g: Form)
    requires f.slashes == 0 && f.closed && g == f.(closed := false) && f.Ends() && (f.clauses != [] || open)
    requires f.name != ""
    ensures Goes(After(before, open, g), ']', After(before, open, f))
  {
    var p, q := After(before, open, f), After(before, open, g);
    EndState(before, open, g);
    assert NextState(q.state, ']', q.doubleQuote, q.singleQuote) == CBkt;
    assert p == q.(state := CBkt, bracket := false);
  }

  // A clause begins.
  lemma {:induction false} StepMark(before: seq<Token>, open: bool, f: Form, g: Form)
    requires Unclosed(f) && f.clauses == g.clauses + [Clause("", None)] && g == f.(clauses := g.clauses)
    requires f.own.Some? || g.clauses != [] ==> g.Ends()
    ensures Goes(After(before, open, g), Mark(f.own.None?, |g.clauses|), After(before, open, f))
  {
    AfterPath(before, open, f, g.clauses, "");
    var q := After(before, open, g);
    assert NextState(q.state, Mark(f.own.None?, |g.clauses|), q.doubleQuote, q.singleQuote) == P0;
  }

  lemma {:induction false} ShorterStep(before: seq<Token>, open: bool, f: Form)
    requires f.Valid() && !Smallest(f) && (f.closed ==> f.clauses != [] || open)
    ensures var (g, c) := ShorterForm(f); Goes(After(before, open, g), c, After(before, open, f))
  {
    var (g, c) := ShorterForm(f);
    if f.slashes > 0 {
      StepSlash(before, open, f, g);
    } else if f.closed {
      StepClosed(before, open, f, g);
    } else if f.clauses != [] {
      ShorterClauseStep(before, open, f);
    } else if f.own.Some? {
      StepOwn(before, open, f, f.own.value);
    } else {
      StepName(before, open, f);
    }
  }

  lemma {:induction false} ShorterClauseStep(before: seq<Token>, open: bool, f: Form)
    requires f.Valid() && Unclosed(f) && f.clauses != []
    ensures var (g, c) := ShorterForm(f); Goes(After(before, open, g), c, After(before, open, f))
  {
    var (g, c) := ShorterForm(f);
    var n := |f.clauses| - 1;
    var front, cl := f.clauses[..n], f.clauses[n];
    assert f.clauses == front + [cl];
    if OnlyMark(cl) {
      MarkEnds(f);
      StepMark(before, open, f, g);
    } else if cl.value.None? {
      StepPath(before, open, f, front, cl.path);
    } else if cl.value.value.quoting == Missing {
      StepEquals(before, open, f, g, front, cl.path);
    } else {
      StepClauseValue(before, open, f, g, front, cl.path, cl.value.value);
    }
  }

  lemma {:induction false} MarkEnds(f: Form)
    requires f.Valid() && Unclosed(f) && f.clauses != [] && OnlyMark(f.clauses[|f.clauses| - 1])
    ensures var g := ShorterForm(f).0; g.own.Some? || g.clauses != [] ==> g.Ends()
  {
    var n := |f.clauses| - 1;
    if n > 0 {
      assert f.clauses[n - 1].Finished();
    }
  }

  // ---------------------------------------------------------------------
  // Reading what is written.
  // ---------------------------------------------------------------------

  // The forms before the last character, and that character.
  function Shorter(forms: seq<Form>): (seq<Form>, char)
    requires Valid(forms) && forms != []
  {
    var n := |forms| - 1;
    if Smallest(forms[n]) then (forms[..n], forms[n].name[0])
    else
      var (g, c) := ShorterForm(forms[n]);
      (forms[..n] + [g], c)
  }

  lemma {:induction false} FormsNext(forms: seq<Form>, f: Form)
    ensures Spelled(forms + [f]) == Spelled(forms) + f.Written()
    ensures Tokens(forms + [f]) == Tokens(forms) + [f.Meaning()]
    ensures BracketOpen(forms + [f]) <==> OpenAfter(BracketOpen(forms), f)
    ensures Reached(forms + [f]) == After(Tokens(forms), BracketOpen(forms), f)
    ensures QuoteOpen(forms + [f]) <==> HasQuoting(f, OpenDouble) || HasQuoting(f, OpenSingle)
    ensures Valid(forms + [f])
      <==> f.Valid() && Valid(forms) && (f.closed ==> f.clauses != [] || BracketOpen(forms))
           && (forms != [] ==> forms[|forms| - 1].slashes > 0)
  {
    assert (forms + [f])[..|forms|] == forms;
  }

  // Taking the last character off: what is left is valid, and the character
  // leads from there to where the parser is after all of it.
  lemma {:induction false} ShorterReached(forms: seq<Form>)
    requires Valid(forms) && forms != []
    ensures var (shorter, c) := Shorter(forms);
      && Valid(shorter) && Spelled(forms) == Spelled(shorter) + [c] && Goes(Reached(shorter), c, Reached(forms))
  {
    var n := |forms| - 1;
    var before, f := forms[..n], forms[n];
    assert forms == before + [f];
    FormsNext(before, f);
    if Smallest(f) {
      FirstOfName(before, f);
    } else {
      WithinForm(before, f);
    }
  }

  lemma {:induction false} WithinForm(before: seq<Form>, f: Form)
    requires Valid(before + [f]) && f.Valid() && !Smallest(f)
    ensures var (g, c) := ShorterForm(f);
      && Valid(before + [g]) && Spelled(before + [f]) == Spelled(before + [g]) + [c]
      && Goes(Reached(before + [g]), c, Reached(before + [f]))
  {
    var (g, c) := ShorterForm(f);
    FormsNext(before, f);
    FormsNext(before, g);
    ShorterWritten(f);
    LongerTail(Spelled(before), g.Written(), c);
    ShorterStep(Tokens(before), BracketOpen(before), f);
    ShorterFits(before, f);
  }

  lemma {:induction false} ShorterFits(before: seq<Form>, f: Form)
    requires Valid(before + [f]) && f.Valid() && !Smallest(f)
    ensures Valid(before + [ShorterForm(f).0])
  {
    FormsNext(before, f);
    FormsNext(before, ShorterForm(f).0);
    ShorterValid(f);
    ClosedShorter(f);
  }

  lemma {:induction false} ClosedShorter(f: Form)
    requires f.Valid() && !Smallest(f)
    ensures var g := ShorterForm(f).0; g.closed ==> f.closed && g.clauses == f.clauses
  {
  }

  // Where a token begins.
  lemma {:induction false} AtBeginning(before: seq<Form>)
    requires Valid(before) && (before != [] ==> before[|before| - 1].slashes > 0)
    ensures var q := Reached(before);
      && (q.state == Start || q.state == TCmpl || q.state == ExSl) && !q.doubleQuote && !q.singleQuote
      && q.tokens == Tokens(before) && q.bracket == BracketOpen(before)
  {
    if before != [] {
      var n := |before| - 1;
      assert before == before[..n] + [before[n]];
      FormsNext(before[..n], before[n]);
      EndsUnquoted(before[n]);
    }
  }

  lemma {:induction false} EndsUnquoted(f: Form)
    requires f.own.Some? || f.clauses != [] ==> f.Ends()
    ensures !HasQuoting(f, OpenDouble) && !HasQuoting(f, OpenSingle)
  {
  }

  lemma {:induction false} FirstOfName(before: seq<Form>, f: Form)
    requires Valid(before) && f.Valid() && Smallest(f) && (before != [] ==> before[|before| - 1].slashes > 0)
    ensures f.Written() == [f.name[0]]
    ensures Goes(Reached(before), f.name[0], After(Tokens(before), BracketOpen(before), f))
  {
    JustHead(f);
    AfterName(Tokens(before), BracketOpen(before), f);
    AtBeginning(before);
    assert f.name == [f.name[0]];
    FirstStep(Reached(before), f.name[0]);
  }

  lemma {:induction false} FirstStep(q: Progress, c: char)
    requires q.state == Start || q.state == TCmpl || q.state == ExSl
    requires !Special(c) && !q.doubleQuote && !q.singleQuote
    ensures Goes(q, c, Reading(N0, q.tokens, q.bracket, [c], [], []))
  {
    assert NextState(q.state, c, q.doubleQuote, q.singleQuote) == N0;
  }

  lemma {:induction false} SpelledReaches(forms: seq<Form>)
    requires Valid(forms)
    ensures Reads(INITIAL, Spelled(forms), Reached(forms))
    decreases |Spelled(forms)|
  {
    if forms != [] {
      var (shorter, c) := Shorter(forms);
      ShorterReached(forms);
      SpelledReaches(shorter);
      ReadsChar(Reached(shorter), c, Reached(forms));
      ReadsThen(INITIAL, Spelled(shorter), Reached(shorter), [c], Reached(forms));
    }
  }

  // ---------------------------------------------------------------------
  // One character more.
  // ---------------------------------------------------------------------

  // A character that can follow within the value.
  predicate Continues(v: Value, c: char)
  {
    match v.quoting
    case Missing | Unquoted => c == '"' || c == '\'' || !Special(c)
    case OpenDouble | OpenSingle => true
    case _ => false
  }

  lemma {:induction false} LongerValue(v: Value, c: char) returns (w: Value)
    requires v.Valid() && Continues(v, c)
    ensures w.Valid() && w.quoting != Missing && ShorterValue(w) == (v, c)
  {
    var quote := c == '"' || c == '\'';
    assert Front(v.text + [c]) == v.text && Front([c]) == "";
    match v.quoting
    case Missing =>
      w := if c == '"' then Value("", OpenDouble)
           else if c == '\'' then Value("", OpenSingle)
           else Value([c], Unquoted);
    case Unquoted =>
      w := if c == '"' then Value(v.text, StrayDouble) else if c == '\'' then Value(v.text, StraySingle)
           else Value(v.text + [c], Unquoted);
    case OpenDouble => w := if c == '"' then Value(v.text, Double) else Value(v.text + [c], OpenDouble);
    case OpenSingle => w := if c == '\'' then Value(v.text, Single) else Value(v.text + [c], OpenSingle);
    case _ =>
  }

  // h is f with c after it.
  ghost predicate Lengthens(open: bool, f: Form, c: char, h: Form)
  {
    && h.Valid() && !Smallest(h) && ShorterForm(h) == (f, c)
    && (h.closed ==> h.clauses != [] || open)
  }

  lemma {:induction false} LongerLastValue(open: bool, f: Form, c: char) returns (h: Form)
    requires f.Valid() && Unclosed(f) && f.Last().Some? && Continues(f.Last().value, c)
    ensures Lengthens(open, f, c, h)
  {
    var w := LongerValue(f.Last().value, c);
    if f.clauses == [] {
      h := f.(own := Some(w));
    } else {
      var n := |f.clauses| - 1;
      var cl := Clause(f.clauses[n].path, Some(w));
      h := f.(clauses := f.clauses[..n] + [cl]);
      LastClause(f.clauses, cl);
      assert f.clauses[n].Valid();
      ShorterClausesValid(f.clauses, cl);
      assert ShorterClause(cl) == (f.clauses[n], c);
    }
  }

  lemma {:induction false} LastClause(clauses: seq<Clause>, cl: Clause)
    requires clauses != []
    ensures var n, all := |clauses| - 1, clauses[..|clauses| - 1] + [cl];
      all[n] == cl && all[..n] == clauses[..n] && clauses[..n] + [clauses[n]] == clauses
  {
  }

  lemma {:induction false} LongerPath(open: bool, f: Form, c: char) returns (h: Form)
    requires f.Valid() && Unclosed(f) && f.clauses != [] && f.Last().None?
    requires var path := f.clauses[|f.clauses| - 1].path; !Special(c) || (path != "" && (c == '/' || c == '='))
    ensures Lengthens(open, f, c, h)
  {
    var n := |f.clauses| - 1;
    var path := f.clauses[n].path;
    assert f.clauses[n].Valid();
    var cl := if c == '=' then Clause(path, Some(Value("", Missing))) else Clause(path + [c], None);
    h := f.(clauses := f.clauses[..n] + [cl]);
    LastClause(f.clauses, cl);
    assert Front(path + [c]) == path;
    ShorterClausesValid(f.clauses, cl);
    assert ShorterClause(cl) == (f.clauses[n], c);
  }

  lemma {:induction false} LongerMark(open: bool, f: Form) returns (h: Form)
    requires f.Valid() && Unclosed(f) && (f.own.Some? || f.clauses != [] ==> f.Ends())
    ensures Lengthens(open, f, Mark(f.own.None?, |f.clauses|), h)
  {
    h := f.(clauses := f.clauses + [Clause("", None)]);
    assert h.clauses[..|f.clauses|] == f.clauses;
    MoreClausesValid(f.clauses);
  }

  lemma {:induction false} MoreClausesValid(clauses: seq<Clause>)
    requires ClausesValid(clauses) && (clauses != [] ==> clauses[|clauses| - 1].Finished())
    ensures ClausesValid(clauses + [Clause("", None)])
  {
  }

  lemma {:induction false} LongerName(open: bool, f: Form, c: char) returns (h: Form)
    requires f.Valid() && Unclosed(f) && f.own.None? && f.clauses == [] && (!Special(c) || c == '=')
    ensures Lengthens(open, f, c, h)
  {
    if c == '=' {
      h := f.(own := Some(Value("", Missing)));
    } else {
      h := f.(name := f.name + [c]);
      assert Front(h.name) == f.name;
    }
  }

  lemma {:induction false} LongerEnd(open: bool, f: Form, c: char) returns (h: Form)
    requires f.Valid() && (f.own.Some? || f.clauses != [] ==> f.Ends())
    requires c == '/' || (c == ']' && Unclosed(f) && f.Ends() && (f.clauses != [] || open))
    requires f.closed ==> f.clauses != [] || open
    ensures Lengthens(open, f, c, h)
  {
    h := if c == '/' then f.(slashes := f.slashes + 1) else f.(closed := true);
  }

  // Whatever the parser accepts in the middle of a token can be written.
  lemma {:induction false} LongerForm(before: seq<Token>, open: bool, f: Form, c: char) returns (h: Form)
    requires f.Valid() && (f.closed ==> f.clauses != [] || open) && (f.slashes > 0 ==> c == '/')
    requires After(before, open, f).Fits() && Stepped(After(before, open, f), c).Ok?
    ensures Lengthens(open, f, c, h)
  {
    var p := After(before, open, f);
    var next := NextState(p.state, c, p.doubleQuote, p.singleQuote);
    assert next != Error && next != StSl && (next == CBkt ==> p.bracket);
    if f.slashes > 0 || f.closed {
      h := LongerEnd(open, f, c);
    } else if f.Last().Some? {
      h := LongerAtValue(before, open, f, c);
    } else if f.clauses != [] {
      h := LongerPath(open, f, c);
    } else if c == '[' {
      h := LongerMark(open, f);
    } else if c == '/' {
      h := LongerEnd(open, f, c);
    } else {
      h := LongerName(open, f, c);
    }
  }

  lemma {:induction false} LongerAtValue(before: seq<Token>, open: bool, f: Form, c: char) returns (h: Form)
    requires f.Valid() && Unclosed(f) && f.Last().Some? && Stepped(After(before, open, f), c).Ok?
    requires After(before, open, f).Fits()
    ensures Lengthens(open, f, c, h)
  {
    var p := After(before, open, f);
    var next := NextState(p.state, c, p.doubleQuote, p.singleQuote);
    assert next != Error && (next == CBkt ==> p.bracket);
    if Continues(f.Last().value, c) {
      h := LongerLastValue(open, f, c);
    } else if c == ':' {
      h := LongerMark(open, f);
    } else {
      h := LongerEnd(open, f, c);
    }
  }

  lemma {:induction false} LongerForms(forms: seq<Form>, c: char) returns (longer: seq<Form>)
    requires Valid(forms) && Reached(forms).Fits() && Stepped(Reached(forms), c).Ok?
    ensures Valid(longer) && Spelled(longer) == Spelled(forms) + [c]
  {
    if forms == [] || (forms[|forms| - 1].slashes > 0 && c != '/') {
      longer := NewForm(forms, c);
    } else {
      var n := |forms| - 1;
      var before, f := forms[..n], forms[n];
      assert forms == before + [f];
      FormsNext(before, f);
      var h := LongerForm(Tokens(before), BracketOpen(before), f, c);
      longer := before + [h];
      FormsNext(before, h);
      ShorterWritten(h);
      LongerTail(Spelled(before), f.Written(), c);
    }
  }

  lemma {:induction false} NewForm(forms: seq<Form>, c: char) returns (longer: seq<Form>)
    requires Valid(forms) && (forms != [] ==> forms[|forms| - 1].slashes > 0 && c != '/')
    requires Reached(forms).Fits() && Stepped(Reached(forms), c).Ok?
    ensures Valid(longer) && Spelled(longer) == Spelled(forms) + [c]
  {
    AtBeginning(forms);
    NamesBegin(Reached(forms), c);
    longer := forms + [Form([c], None, [], false, 0)];
    FormsNext(forms, Form([c], None, [], false, 0));
    ShortWritten(c);
  }

  lemma {:induction false} NamesBegin(p: Progress, c: char)
    requires p.state == Start || ((p.state == TCmpl || p.state == ExSl) && c != '/')
    requires !p.doubleQuote && !p.singleQuote && Stepped(p, c).Ok?
    ensures !Special(c)
  {
    var next := NextState(p.state, c, p.doubleQuote, p.singleQuote);
    assert next != StSl && next != Error;
  }

  lemma {:induction false} ShortWritten(c: char)
    requires !Special(c)
    ensures Form([c], None, [], false, 0).Valid() && Form([c], None, [], false, 0).Written() == [c]
  {
    JustHead(Form([c], None, [], false, 0));
  }

  // Whatever the parser has read without an error is written like that.
  lemma {:induction false} ReadIsSpelled(s: string) returns (forms: seq<Form>)
    requires Run(INITIAL, s).Ok?
    ensures Valid(forms) && Spelled(forms) == s
    decreases |s|
  {
    if s == "" {
      forms := [];
    } else {
      var a, c := Front(s), s[|s| - 1];
      assert a + [c] == s;
      RunSplit(INITIAL, a, [c]);
      var shorter := ReadIsSpelled(a);
      SpelledReaches(shorter);
      assert [c][1..] == "" && [c][0] == c;
      assert Run(Reached(shorter), [c]) == Run(INITIAL, s);
      forms := LongerForms(shorter, c);
    }
  }

  // ---------------------------------------------------------------------
  // The whole language.
  // ---------------------------------------------------------------------

  // s is written with these forms, everything that was opened is closed, and
  // these are the tokens.
  ghost predicate Spells(s: string, forms: seq<Form>, tokens: seq<Token>)
  {
    Valid(forms) && Spelled(forms) == s && !QuoteOpen(forms) && !BracketOpen(forms) && Tokens(forms) == tokens
  }

  lemma {:induction false} FinishedReached(forms: seq<Form>)
    requires Valid(forms)
    ensures Finished(Reached(forms))
      == if QuoteOpen(forms) then Err(QuoteMismatch) else if BracketOpen(forms) then Err(BracketMismatch)
         else Ok(Tokens(forms))
  {
    if forms != [] {
      var n := |forms| - 1;
      assert forms == forms[..n] + [forms[n]];
      FormsNext(forms[..n], forms[n]);
    }
  }

  // A path is accepted, with these tokens, exactly when it can be written
  // like that, white space at its ends aside.
  lemma {:induction false} ParsesIff(s: string, tokens: seq<Token>)
    ensures Parse(s) == Ok(tokens) <==> exists forms :: Spells(Text.Strip(s), forms, tokens)
  {
    var t := Text.Strip(s);
    if Parse(s) == Ok(tokens) {
      var forms := ReadIsSpelled(t);
      SpelledReaches(forms);
      FinishedReached(forms);
      assert Spells(t, forms, tokens);
    }
    if forms :| Spells(t, forms, tokens) {
      SpelledReaches(forms);
      FinishedReached(forms);
    }
  }

  // What is read at the end with a quote or a bracket open is refused for
  // that.
  lemma {:induction false} MismatchIff(s: string)
    ensures Parse(s) == Err(QuoteMismatch)
      <==> exists forms :: Valid(forms) && Spelled(forms) == Text.Strip(s) && QuoteOpen(forms)
    ensures Parse(s) == Err(BracketMismatch)
      <==> exists forms :: Valid(forms) && Spelled(forms) == Text.Strip(s) && !QuoteOpen(forms) && BracketOpen(forms)
  {
    var t := Text.Strip(s);
    if Run(INITIAL, t).Ok? {
      var forms := ReadIsSpelled(t);
      SpelledReaches(forms);
      FinishedReached(forms);
    }
    forall forms | Valid(forms) && Spelled(forms) == t
      ensures Run(INITIAL, t) == Ok(Reached(forms))
      ensures QuoteOpen(forms) <==> Parse(s) == Err(QuoteMismatch)
      ensures !QuoteOpen(forms) && BracketOpen(forms) <==> Parse(s) == Err(BracketMismatch)
    {
      SpelledReaches(forms);
      FinishedReached(forms);
    }
    RunErrors(INITIAL, t);
  }

  // An error while reading is never about an open quote or bracket.
  lemma {:induction false} RunErrors(p: Progress, s: string)
    requires p.Fits()
    ensures Run(p, s).Err? ==> Run(p, s).error != QuoteMismatch && Run(p, s).error != BracketMismatch
    decreases |s|
  {
    if s != "" && Stepped(p, s[0]).Ok? {
      RunErrors(Stepped(p, s[0]).value, s[1..]);
    }
  }

  // A finished value comes last, with nothing after it.
  ghost predicate AtValueEnd(forms: seq<Form>)
  {
    forms != [] && Unclosed(forms[|forms| - 1]) && forms[|forms| - 1].Ends()
  }

  // The parser refuses a slash at the beginning and a bracket that closes
  // none.
  lemma {:induction false} RefusedAt(forms: seq<Form>, c: char)
    requires Valid(forms)
    ensures var p := Reached(forms);
      && p.Fits()
      && (Stepped(p, c) == Err(StartingSlash) <==> forms == [] && c == '/')
      && (Stepped(p, c) == Err(BracketOrder) <==> AtValueEnd(forms) && !BracketOpen(forms) && c == ']')
  {
    SpelledReaches(forms);
    ErrorStates(Reached(forms), c);
    if forms != [] {
      RefusedWithin(forms, c);
    }
  }

  lemma {:induction false} RefusedWithin(forms: seq<Form>, c: char)
    requires Valid(forms) && forms != []
    ensures var p := Reached(forms);
      && p.state != Start && (p.bracket <==> BracketOpen(forms))
      && (NextState(p.state, c, p.doubleQuote, p.singleQuote) == CBkt <==> AtValueEnd(forms) && c == ']')
  {
    var n := |forms| - 1;
    assert forms == forms[..n] + [forms[n]];
    FormsNext(forms[..n], forms[n]);
    ClosesIff(Tokens(forms[..n]), BracketOpen(forms[..n]), forms[n], c);
  }

  lemma {:induction false} ErrorStates(p: Progress, c: char)
    requires p.Fits()
    ensures Stepped(p, c) == Err(StartingSlash) <==> p.state == Start && c == '/'
    ensures Stepped(p, c) == Err(BracketOrder)
      <==> NextState(p.state, c, p.doubleQuote, p.singleQuote) == CBkt && !p.bracket
  {
  }

  lemma {:induction false} ClosesIff(before: seq<Token>, open: bool, f: Form, c: char)
    requires f.Valid()
    ensures After(before, open, f).state != Start
    ensures var p := After(before, open, f);
      NextState(p.state, c, p.doubleQuote, p.singleQuote) == CBkt <==> Unclosed(f) && f.Ends() && c == ']'
  {
  }

  // Where the first error is.
  lemma {:induction false} FirstError(p: Progress, s: string) returns (a: string, c: char, rest: string)
    requires p.Fits() && Run(p, s).Err?
    ensures s == a + [c] + rest && Run(p, a).Ok? && Stepped(Run(p, a).value, c) == Err(Run(p, s).error)
    decreases |s|
  {
    if Stepped(p, s[0]).Err? {
      a, c, rest := "", s[0], s[1..];
    } else {
      a, c, rest := FirstError(Stepped(p, s[0]).value, s[1..]);
      a := [s[0]] + a;
      assert a[1..] + [c] + rest == s[1..] && a[0] == s[0];
    }
  }

  lemma {:induction false} ErrorAt(forms: seq<Form>, c: char, rest: string, e: ParserError)
    requires Valid(forms) && Reached(forms).Fits() && Stepped(Reached(forms), c) == Err(e)
    ensures Run(INITIAL, Spelled(forms) + [c] + rest) == Err(e)
  {
    SpelledReaches(forms);
    RunSplit(INITIAL, Spelled(forms), [c] + rest);
    assert Spelled(forms) + [c] + rest == Spelled(forms) + ([c] + rest);
  }

  // s goes on with c after what these forms spell.
  ghost predicate GoesOn(s: string, forms: seq<Form>, c: char, rest: string)
  {
    Valid(forms) && s == Spelled(forms) + [c] + rest
  }

  lemma {:induction false} RefusedIff(s: string)
    ensures Parse(s) == Err(StartingSlash) <==> exists rest :: GoesOn(Text.Strip(s), [], '/', rest)
    ensures Parse(s) == Err(BracketOrder) <==>
      exists forms, rest :: GoesOn(Text.Strip(s), forms, ']', rest) && AtValueEnd(forms) && !BracketOpen(forms)
  {
    var t := Text.Strip(s);
    if Run(INITIAL, t).Err? {
      var a, c, rest := FirstError(INITIAL, t);
      var forms := ReadIsSpelled(a);
      SpelledReaches(forms);
      RefusedAt(forms, c);
      assert GoesOn(t, forms, c, rest);
    }
    forall rest | GoesOn(t, [], '/', rest)
      ensures Parse(s) == Err(StartingSlash)
    {
      RefusedAt([], '/');
      ErrorAt([], '/', rest, StartingSlash);
    }
    forall forms, rest | GoesOn(t, forms, ']', rest) && AtValueEnd(forms) && !BracketOpen(forms)
      ensures Parse(s) == Err(BracketOrder)
    {
      RefusedAt(forms, ']');
      ErrorAt(forms, ']', rest, BracketOrder);
    }
  }

  // ---------------------------------------------------------------------
  // Names alone.
  // ---------------------------------------------------------------------

  function NameForm(name: string, slashes: nat): Form
  {
    Form(name, None, [], false, slashes)
  }

  lemma {:induction false} NameFormSays(name: string, n: nat)
    requires Plain(name)
    ensures var f := NameForm(name, n);
      f.Valid() && f.Meaning() == Token(name, [], []) && f.Written() == name + Slashes(n) && f.Last().None?
  {
    assert name + "" + "" + "" == name;
  }

  lemma {:induction false} AddName(forms: seq<Form>, name: string, n: nat)
    requires Valid(forms) && !BracketOpen(forms) && Plain(name) && (forms != [] ==> forms[|forms| - 1].slashes > 0)
    ensures var longer := forms + [NameForm(name, n)];
      && Valid(longer) && !BracketOpen(longer) && !QuoteOpen(longer)
      && Tokens(longer) == Tokens(forms) + [Token(name, [], [])]
      && Spelled(longer) == Spelled(forms) + (name + Slashes(n))
  {
    NameFormSays(name, n);
    FormsNext(forms, NameForm(name, n));
  }
}
