// What every input string is read as: unquoted and quoted text in turn, each
// quoted part ending a word together with the unquoted text before it.
module QuotedInput {
  import opened Wrappers
  import opened Text
  import opened SpaceParse

  // A character by itself, or after a backslash.
  datatype Unit = Plain(c: char) | Escape(c: char)

  // As it stands in the input, and as it is read: a backslash goes only
  // before a quote.
  function Typed(u: Unit): string
  {
    match u
    case Plain(c) => [c]
    case Escape(c) => [BACKSLASH, c]
  }

  function ReadAs(u: Unit): string
  {
    match u
    case Plain(c) => [c]
    case Escape(c) => if IsQuote(c) then [c] else [BACKSLASH, c]
  }

  function TypedAll(units: seq<Unit>): string
  {
    if units == [] then "" else Typed(units[0]) + TypedAll(units[1..])
  }

  function ReadAll(units: seq<Unit>): string
  {
    if units == [] then "" else ReadAs(units[0]) + ReadAll(units[1..])
  }

  // Outside quotes a quote needs a backslash; inside, only the kind of quote
  // that is open does.
  predicate Ends(c: char, open: Option<Quote>)
  {
    match open
    case None => IsQuote(c)
    case Some(q) => c == q
  }

  ghost predicate Fits(units: seq<Unit>, open: Option<Quote>)
  {
    forall u :: u in units && u.Plain? ==> u.c != BACKSLASH && !Ends(u.c, open)
  }

  // Text up to the end of the input, where a single backslash may stand; a
  // quote that is never closed; or text, something in quotes, and more.
  datatype Input =
    | Last(text: seq<Unit>, hanging: bool)
    | Unclosed(text: seq<Unit>, quote: Quote, inside: seq<Unit>, hanging: bool)
    | Word(text: seq<Unit>, quote: Quote, inside: seq<Unit>, rest: Input)

  function Hanging(hanging: bool): string
  {
    if hanging then [BACKSLASH] else ""
  }

  ghost predicate Valid(i: Input)
  {
    match i
    case Last(text, _) => Fits(text, None)
    case Unclosed(text, q, inside, _) => Fits(text, None) && Fits(inside, Some(q))
    case Word(text, q, inside, rest) => Fits(text, None) && Fits(inside, Some(q)) && Valid(rest)
  }

  function Spelled(i: Input): string
  {
    match i
    case Last(text, hanging) => TypedAll(text) + Hanging(hanging)
    case Unclosed(text, q, inside, hanging) => TypedAll(text) + ([q] + (TypedAll(inside) + Hanging(hanging)))
    case Word(text, q, inside, rest) => TypedAll(text) + ([q] + (TypedAll(inside) + ([q] + Spelled(rest))))
  }

  predicate Closed(i: Input)
  {
    match i
    case Last(_, _) => true
    case Unclosed(_, _, _, _) => false
    case Word(_, _, _, rest) => Closed(rest)
  }

  // A word without white space at its ends; nothing read is no word, but
  // white space or quotes around it is an empty one.
  function One(word: string): seq<string>
  {
    if word == "" then [] else [Strip(word)]
  }

  function Words(i: Input): seq<string>
  {
    match i
    case Last(text, hanging) => One(ReadAll(text) + Hanging(hanging))
    case Unclosed(_, _, _, _) => []
    case Word(text, _, inside, rest) => One(ReadAll(text) + ReadAll(inside)) + Words(rest)
  }

  // ---------------------------------------------------------------------
  // What is spelled is read.
  // ---------------------------------------------------------------------

  // Reading outside quotes, or inside the ones that are open.
  ghost predicate At(p: Progress, open: Option<Quote>)
  {
    match open
    case None => p.state != Esc && !p.squote && !p.dquote
    case Some(q) => InWord(p, q)
  }

  lemma {:induction false} RunUnit(p: Progress, u: Unit, s: string, open: Option<Quote>) returns (last: State)
    requires At(p, open) && (u.Plain? ==> u.c != BACKSLASH && !Ends(u.c, open))
    ensures last != Esc && Run(p, Typed(u) + s) == Run(p.(state := last, word := p.word + ReadAs(u)), s)
  {
    match u
    case Plain(c) =>
      last := NextState(p.state, c);
      RunFirst(p, c, s);
    case Escape(c) =>
      last := Char;
      assert [BACKSLASH, c] + s == [BACKSLASH] + ([c] + s);
      RunFirst(p, BACKSLASH, [c] + s);
      RunFirst(p.(state := Esc), c, s);
      assert p.word + [BACKSLASH] + [c] == p.word + [BACKSLASH, c];
  }

  lemma {:induction false} Regroup(a: string, b: string, c: string)
    ensures a + (b + c) == a + b + c
  {
  }

  lemma {:induction false} RunUnits(p: Progress, units: seq<Unit>, s: string, open: Option<Quote>) returns (last: State)
    requires At(p, open) && Fits(units, open)
    ensures last != Esc && Run(p, TypedAll(units) + s) == Run(p.(state := last, word := p.word + ReadAll(units)), s)
    decreases |units|
  {
    if units == [] {
      last := p.state;
      assert TypedAll(units) + s == s && p.word + ReadAll(units) == p.word;
    } else {
      var u, more := units[0], TypedAll(units[1..]) + s;
      Regroup(Typed(u), TypedAll(units[1..]), s);
      var next := RunUnit(p, u, more, open);
      var q := p.(state := next, word := p.word + ReadAs(u));
      last := RunUnits(q, units[1..], s, open);
      Regroup(p.word, ReadAs(u), ReadAll(units[1..]));
    }
  }

  // To the end of the input.
  lemma {:induction false} RunToEnd(p: Progress, units: seq<Unit>, hanging: bool, open: Option<Quote>)
    requires At(p, open) && Fits(units, open)
    ensures var q := Run(p, TypedAll(units) + Hanging(hanging));
      Pending(q) == p.word + ReadAll(units) + Hanging(hanging)
      && q.words == p.words && q.squote == p.squote && q.dquote == p.dquote
  {
    var last := RunUnits(p, units, Hanging(hanging), open);
    var q := p.(state := last, word := p.word + ReadAll(units));
    if hanging {
      RunFirst(q, BACKSLASH, "");
      assert Hanging(hanging) == [BACKSLASH] + "";
    }
  }

  // Into quotes.
  lemma {:induction false} RunOpening(p: Progress, text: seq<Unit>, q: Quote, s: string) returns (after: Progress)
    requires At(p, None) && Fits(text, None)
    ensures At(after, Some(q)) && after.words == p.words && after.word == p.word + ReadAll(text)
    ensures Run(p, TypedAll(text) + ([q] + s)) == Run(after, s)
  {
    var last := RunUnits(p, text, [q] + s, None);
    var before := p.(state := last, word := p.word + ReadAll(text));
    RunFirst(before, q, s);
    after := Opened(before, q);
  }

  lemma {:induction false} RunClosing(p: Progress, inside: seq<Unit>, q: Quote, s: string) returns (after: Progress)
    requires At(p, Some(q)) && Fits(inside, Some(q))
    ensures At(after, None) && after.words == p.words + One(p.word + ReadAll(inside)) && after.word == ""
    ensures Run(p, TypedAll(inside) + ([q] + s)) == Run(after, s)
  {
    var last := RunUnits(p, inside, [q] + s, Some(q));
    var before := p.(state := last, word := p.word + ReadAll(inside));
    RunFirst(before, q, s);
    after := Stepped(before, q);
  }

  // A word in quotes, with what stands before it.
  lemma {:induction false} RunWord(p: Progress, i: Input) returns (after: Progress)
    requires At(p, None) && p.word == "" && Valid(i) && i.Word?
    ensures At(after, None) && after.word == ""
    ensures after.words == p.words + One(ReadAll(i.text) + ReadAll(i.inside))
    ensures Run(p, Spelled(i)) == Run(after, Spelled(i.rest))
  {
    var on := RunOpening(p, i.text, i.quote, TypedAll(i.inside) + ([i.quote] + Spelled(i.rest)));
    assert on.word == ReadAll(i.text);
    after := RunClosing(on, i.inside, i.quote, Spelled(i.rest));
  }

  lemma {:induction false} RunLast(p: Progress, text: seq<Unit>, hanging: bool, input: string)
    requires At(p, None) && p.word == "" && Fits(text, None)
    ensures Finished(Run(p, TypedAll(text) + Hanging(hanging)), input)
      == Ok(p.words + One(ReadAll(text) + Hanging(hanging)))
  {
    RunToEnd(p, text, hanging, None);
    assert p.word + ReadAll(text) == ReadAll(text);
    assert p.words + [] == p.words;
  }

  lemma {:induction false} RunUnclosed(p: Progress, text: seq<Unit>, q: Quote, inside: seq<Unit>, hanging: bool,
      input: string)
    requires At(p, None) && Fits(text, None) && Fits(inside, Some(q))
    ensures Finished(Run(p, TypedAll(text) + ([q] + (TypedAll(inside) + Hanging(hanging)))), input)
      == Err(UnexpectedQuote(input))
  {
    var on := RunOpening(p, text, q, TypedAll(inside) + Hanging(hanging));
    RunToEnd(on, inside, hanging, Some(q));
  }

  lemma {:induction false} Joined(a: seq<string>, b: seq<string>, c: seq<string>)
    ensures a + b + c == a + (b + c)
  {
  }

  lemma {:induction false} RunInput(p: Progress, i: Input, input: string)
    requires At(p, None) && p.word == "" && Valid(i)
    ensures Finished(Run(p, Spelled(i)), input)
      == if Closed(i) then Ok(p.words + Words(i)) else Err(UnexpectedQuote(input))
    decreases i
  {
    match i
    case Last(text, hanging) =>
      RunLast(p, text, hanging, input);
    case Unclosed(text, q, inside, hanging) =>
      RunUnclosed(p, text, q, inside, hanging, input);
    case Word(text, _, inside, rest) =>
      var after := RunWord(p, i);
      RunInput(after, rest, input);
      Joined(p.words, One(ReadAll(text) + ReadAll(inside)), Words(rest));
  }

  // ---------------------------------------------------------------------
  // Every input is spelled in one of these ways.
  // ---------------------------------------------------------------------

  // Nothing follows, or a backslash alone.
  predicate AtEnd(rest: string)
  {
    rest == "" || rest == [BACKSLASH]
  }

  lemma {:induction false} FindUnits(s: string, open: Option<Quote>) returns (units: seq<Unit>, rest: string)
    ensures s == TypedAll(units) + rest && Fits(units, open)
    ensures AtEnd(rest) || Ends(rest[0], open)
    decreases |s|
  {
    if AtEnd(s) || Ends(s[0], open) {
      units, rest := [], s;
    } else {
      var u := if s[0] == BACKSLASH then Escape(s[1]) else Plain(s[0]);
      var n := |Typed(u)|;
      var more;
      more, rest := FindUnits(s[n..], open);
      units := [u] + more;
      assert units[1..] == more;
      assert s == Typed(u) + s[n..];
    }
  }

  lemma {:induction false} FindInput(s: string) returns (i: Input)
    ensures Valid(i) && Spelled(i) == s
    decreases |s|
  {
    var text, rest := FindUnits(s, None);
    if AtEnd(rest) {
      i := Last(text, rest != "");
    } else {
      var q: Quote := rest[0];
      var inside, more := FindUnits(rest[1..], Some(q));
      assert rest == [q] + rest[1..];
      if AtEnd(more) {
        i := Unclosed(text, q, inside, more != "");
      } else {
        var next := FindInput(more[1..]);
        assert more == [q] + more[1..];
        i := Word(text, q, inside, next);
      }
    }
  }

  // ---------------------------------------------------------------------
  // The parser.
  // ---------------------------------------------------------------------

  // The input without white space at its ends is spelled by i.
  ghost predicate Means(s: string, i: Input)
  {
    Valid(i) && Spelled(i) == Strip(s)
  }

  lemma {:induction false} MeansRead(s: string, i: Input)
    requires Means(s, i)
    ensures Parse(s) == if Closed(i) then Ok(Words(i)) else Err(UnexpectedQuote(Strip(s)))
  {
    RunInput(INITIAL, i, Strip(s));
    assert [] + Words(i) == Words(i);
  }

  // For every input: the words are those of unquoted and quoted text in turn,
  // with either kind of quote.
  lemma {:induction false} ParsesIff(s: string, words: seq<string>)
    ensures Parse(s) == Ok(words) <==> exists i :: Means(s, i) && Closed(i) && Words(i) == words
  {
    var found := FindInput(Strip(s));
    MeansRead(s, found);
    assert Means(s, found);
    forall i | Means(s, i)
      ensures Closed(i) ==> Parse(s) == Ok(Words(i))
    {
      MeansRead(s, i);
    }
  }

  // It is refused exactly when a quote is never closed.
  lemma {:induction false} RefusedIff(s: string)
    ensures Parse(s) == Err(UnexpectedQuote(Strip(s))) <==> exists i :: Means(s, i) && !Closed(i)
  {
    var found := FindInput(Strip(s));
    MeansRead(s, found);
    assert Means(s, found);
    forall i | Means(s, i)
      ensures !Closed(i) ==> Parse(s) == Err(UnexpectedQuote(Strip(s)))
    {
      MeansRead(s, i);
    }
  }
}
