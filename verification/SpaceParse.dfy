// Splitting an input string into quoted words.
module SpaceParse {
  import opened Wrappers
  import opened Text

  datatype State = Start | Char | Esc | Sqt | Dqt

  datatype QuoteError = UnexpectedQuote(input: string)

  const BACKSLASH: char := '\\'
  const DQUOTE: char := '"'
  const SQUOTE: char := '\''

  predicate IsQuote(c: char)
  {
    c == DQUOTE || c == SQUOTE
  }

  // An escape makes the next character an ordinary one.
  function NextState(state: State, c: char): State
  {
    if state == Esc then Char
    else if c == DQUOTE then Dqt
    else if c == SQUOTE then Sqt
    else if c == BACKSLASH then Esc
    else Char
  }

  datatype Progress = Progress(state: State, word: string, words: seq<string>, squote: bool, dquote: bool)

  const INITIAL := Progress(Start, "", [], false, false)

  // The words with the current one, if it is not empty.
  function Flushed(words: seq<string>, word: string): seq<string>
  {
    if |word| != 0 then words + [Strip(word)] else words
  }

  function Stepped(p: Progress, c: char): Progress
  {
    var next := NextState(p.state, c);
    var word := if p.state == Esc && !IsQuote(c) then p.word + [BACKSLASH] else p.word;
    match next
    case Char => p.(state := next, word := word + [c])
    case Sqt =>
      if p.dquote then p.(state := next, word := word + [c])
      else if p.squote then p.(state := next, squote := false, words := Flushed(p.words, word), word := "")
      else p.(state := next, squote := true)
    case Dqt =>
      if p.squote then p.(state := next, word := word + [c])
      else if p.dquote then p.(state := next, dquote := false, words := Flushed(p.words, word), word := "")
      else p.(state := next, dquote := true)
    case Esc | Start => p.(state := next)
  }

  function Run(p: Progress, s: string): Progress
    decreases |s|
  {
    if s == "" then p else Run(Stepped(p, s[0]), s[1..])
  }

  function Finished(p: Progress, input: string): Result<seq<string>, QuoteError>
  {
    if p.squote || p.dquote then Err(UnexpectedQuote(input))
    else Ok(Flushed(p.words, if p.state == Esc then p.word + [BACKSLASH] else p.word))
  }

  function Parse(input: string): Result<seq<string>, QuoteError>
  {
    Finished(Run(INITIAL, Strip(input)), Strip(input))
  }

  method ParseWords(input: string) returns (r: Result<seq<string>, QuoteError>)
    ensures r == Parse(input)
  {
    var state, word, outlist: seq<string> := Start, "", [];
    var squoteon, dquoteon := false, false;
    var s := Strip(input);
    for i := 0 to |s|
      invariant Run(Progress(state, word, outlist, squoteon, dquoteon), s[i..]) == Run(INITIAL, s)
    {
      var c := s[i];
      assert s[i..][1..] == s[i + 1..];
      var nextState := NextState(state, c);
      if state == Esc && !IsQuote(c) {
        word := word + [BACKSLASH];
      }
      if nextState == Char {
        word := word + [c];
      } else if nextState == Sqt {
        if dquoteon {
          word := word + [c];
        } else {
          squoteon := !squoteon;
          if !squoteon {
            if |word| != 0 {
              outlist := outlist + [Strip(word)];
              word := "";
            }
          }
        }
      } else if nextState == Dqt {
        if squoteon {
          word := word + [c];
        } else {
          dquoteon := !dquoteon;
          if !dquoteon {
            if |word| != 0 {
              outlist := outlist + [Strip(word)];
              word := "";
            }
          }
        }
      }
      state := nextState;
    }
    if squoteon || dquoteon {
      return Err(UnexpectedQuote(s));
    }
    if state == Esc {
      word := word + [BACKSLASH];
    }
    if |word| != 0 {
      outlist := outlist + [Strip(word)];
    }
    r := Ok(outlist);
  }

  lemma {:induction false} RunSplit(p: Progress, a: string, b: string)
    ensures Run(p, a + b) == Run(Run(p, a), b)
    decreases |a|
  {
    if a == "" {
      assert a + b == b;
    } else {
      assert (a + b)[0] == a[0] && (a + b)[1..] == a[1..] + b;
      RunSplit(Stepped(p, a[0]), a[1..], b);
    }
  }

  // At no point are both kinds of quotes on.
  lemma {:induction false} NeverBothQuotes(p: Progress, s: string)
    requires !(p.squote && p.dquote)
    ensures !(Run(p, s).squote && Run(p, s).dquote)
    decreases |s|
  {
    if s != "" {
      NeverBothQuotes(Stepped(p, s[0]), s[1..]);
    }
  }

  // ---------------------------------------------------------------------
  // Without quotes there is one word.
  // ---------------------------------------------------------------------

  ghost predicate NoQuotes(s: string)
  {
    forall i :: 0 <= i < |s| ==> !IsQuote(s[i])
  }

  // The word so far, a backslash just read included.
  ghost function Pending(p: Progress): string
  {
    if p.state == Esc then p.word + [BACKSLASH] else p.word
  }

  lemma {:induction false} RunNoQuotes(p: Progress, s: string)
    requires NoQuotes(s)
    ensures var q := Run(p, s);
      Pending(q) == Pending(p) + s && q.words == p.words && q.squote == p.squote && q.dquote == p.dquote
    decreases |s|
  {
    if s == "" {
      assert Pending(p) + s == Pending(p);
    } else {
      RunNoQuotes(Stepped(p, s[0]), s[1..]);
      assert Pending(p) + [s[0]] + s[1..] == Pending(p) + s;
    }
  }

  lemma {:induction false} StripKeepsNoQuotes(s: string)
    requires NoQuotes(s)
    ensures NoQuotes(Strip(s)) && Strip(Strip(s)) == Strip(s)
  {
    var n := LStripSpaces(s);
    assert NoQuotes(LStrip(s));
    RStripEnds(LStrip(s));
    forall i | 0 <= i < |Strip(s)|
      ensures Strip(s)[i] == LStrip(s)[i]
    {
    }
    StripTrims(s);
    StripTrims(Strip(s));
  }

  // A string without quotes is one word, white space inside or not; blanks
  // alone do not separate words.
  lemma {:induction false} UnquotedIsOneWord(s: string)
    requires NoQuotes(s)
    ensures Parse(s) == Ok(if Strip(s) == "" then [] else [Strip(s)])
  {
    StripKeepsNoQuotes(s);
    RunNoQuotes(INITIAL, Strip(s));
    assert "" + Strip(s) == Strip(s);
    assert [] + [Strip(s)] == [Strip(s)];
  }

  // ---------------------------------------------------------------------
  // Quoting words and reading them back.
  // ---------------------------------------------------------------------

  type Quote = c: char | IsQuote(c) witness DQUOTE

  function OtherQuote(q: Quote): Quote
  {
    if q == DQUOTE then SQUOTE else DQUOTE
  }

  // The quote the word is put in gets a backslash.
  function Escaped(w: string, q: Quote): string
  {
    if w == "" then ""
    else if w[0] == q then [BACKSLASH, q] + Escaped(w[1..], q)
    else [w[0]] + Escaped(w[1..], q)
  }

  function Quoted(w: string, q: Quote): string
  {
    [q] + Escaped(w, q) + [q]
  }

  // The words, each in the quotes chosen for it, with a separator between
  // each and the next.
  function Line(words: seq<string>, quotes: seq<Quote>, seps: seq<string>): string
    requires |quotes| == |words| <= |seps| + 1
  {
    if words == [] then ""
    else if |words| == 1 then Quoted(words[0], quotes[0])
    else Quoted(words[0], quotes[0]) + (seps[0] + Line(words[1..], quotes[1..], seps[1..]))
  }

  // What comes after the first word.
  function After(words: seq<string>, quotes: seq<Quote>, seps: seq<string>): string
    requires 0 < |quotes| == |words| <= |seps| + 1
  {
    if |words| == 1 then "" else seps[0] + Line(words[1..], quotes[1..], seps[1..])
  }

  // Backslashes come in pairs wherever a quote or the end of the word
  // follows.
  predicate Faithful(w: string)
  {
    if w == "" then true
    else if w[0] != BACKSLASH then Faithful(w[1..])
    else |w| > 1 && !IsQuote(w[1]) && Faithful(w[2..])
  }

  ghost predicate Blank(s: string)
  {
    forall i :: 0 <= i < |s| ==> IsSpace(s[i])
  }

  // Between words: only white space since the last one.
  ghost predicate Between(p: Progress)
  {
    p.state != Esc && !p.squote && !p.dquote && Blank(p.word)
  }

  ghost predicate InWord(p: Progress, q: Quote)
  {
    p.state != Esc && p.squote == (q == SQUOTE) && p.dquote == (q == DQUOTE)
  }

  function QuoteState(q: Quote): State
  {
    if q == DQUOTE then Dqt else Sqt
  }

  // Just after the opening quote.
  ghost function Opened(p: Progress, q: Quote): Progress
  {
    p.(state := QuoteState(q), squote := q == SQUOTE, dquote := q == DQUOTE)
  }

  lemma {:induction false} RunBlank(p: Progress, sep: string)
    requires Between(p) && Blank(sep)
    ensures var q := Run(p, sep); Between(q) && q == p.(state := q.state, word := p.word + sep)
    decreases |sep|
  {
    if sep == "" {
      assert p.word + sep == p.word;
    } else {
      RunBlank(Stepped(p, sep[0]), sep[1..]);
      assert p.word + [sep[0]] + sep[1..] == p.word + sep;
    }
  }

  lemma {:induction false} RunFirst(p: Progress, c: char, s: string)
    ensures Run(p, [c] + s) == Run(Stepped(p, c), s)
  {
    assert ([c] + s)[1..] == s;
  }

  // Two characters of which the first is a backslash.
  lemma {:induction false} RunEscape(p: Progress, c: char, s: string, q: Quote)
    requires InWord(p, q)
    ensures var word := if IsQuote(c) then p.word + [c] else p.word + [BACKSLASH, c];
      Run(p, [BACKSLASH, c] + s) == Run(p.(state := Char, word := word), s)
  {
    assert [BACKSLASH, c] + s == [BACKSLASH] + ([c] + s);
    RunFirst(p, BACKSLASH, [c] + s);
    RunFirst(p.(state := Esc), c, s);
    assert p.word + [BACKSLASH] + [c] == p.word + [BACKSLASH, c];
  }

  // In quotes, a word all of whose backslashes are harmless is read as it is.
  lemma {:induction false} RunFaithful(p: Progress, w: string, s: string, q: Quote) returns (last: State)
    requires InWord(p, q) && Faithful(w)
    ensures last != Esc
    ensures Run(p, Escaped(w, q) + s) == Run(p.(state := last, word := p.word + w), s)
    decreases |w|
  {
    if w == "" {
      last := p.state;
      assert Escaped(w, q) + s == s && p.word + w == p.word;
    } else if w[0] == BACKSLASH {
      var rest := Escaped(w[2..], q) + s;
      EscapedPair(w, s, q);
      RunEscape(p, w[1], rest, q);
      var after := p.(state := Char, word := p.word + [BACKSLASH, w[1]]);
      last := RunFaithful(after, w[2..], s, q);
      assert after.word + w[2..] == p.word + w;
    } else {
      var next := RunOneChar(p, w, s, q);
      var after := p.(state := next, word := p.word + [w[0]]);
      last := RunFaithful(after, w[1..], s, q);
      assert after.word + w[1..] == p.word + w;
    }
  }

  // The next character of the word, escaped or not.
  lemma {:induction false} RunOneChar(p: Progress, w: string, s: string, q: Quote) returns (next: State)
    requires InWord(p, q) && w != "" && w[0] != BACKSLASH
    ensures next != Esc
    ensures Run(p, Escaped(w, q) + s) == Run(p.(state := next, word := p.word + [w[0]]), Escaped(w[1..], q) + s)
  {
    var rest := Escaped(w[1..], q);
    if w[0] == q {
      next := Char;
      assert [BACKSLASH, q] + rest + s == [BACKSLASH, q] + (rest + s);
      RunEscape(p, q, rest + s, q);
    } else {
      next := NextState(p.state, w[0]);
      assert [w[0]] + rest + s == [w[0]] + (rest + s);
      RunFirst(p, w[0], rest + s);
    }
  }

  lemma {:induction false} Regroup(a: char, b: char, rest: string, s: string)
    ensures [a] + ([b] + rest) + s == [a, b] + (rest + s)
  {
  }

  lemma {:induction false} EscapedPair(w: string, s: string, q: Quote)
    requires |w| > 1 && w[0] == BACKSLASH && w[1] != q
    ensures Escaped(w, q) + s == [BACKSLASH, w[1]] + (Escaped(w[2..], q) + s)
  {
    var tail := w[1..];
    assert tail[0] == w[1] && tail[1..] == w[2..];
    assert Escaped(tail, q) == [w[1]] + Escaped(w[2..], q);
    Regroup(w[0], w[1], Escaped(w[2..], q), s);
  }

  lemma {:induction false} StripBlankBefore(sep: string, w: string)
    requires Blank(sep)
    ensures LStrip(sep + w) == LStrip(w)
    decreases |sep|
  {
    if sep == "" {
      assert sep + w == w;
    } else {
      assert (sep + w)[1..] == sep[1..] + w;
      StripBlankBefore(sep[1..], w);
    }
  }

  lemma {:induction false} QuotedBefore(w: string, s: string, q: Quote)
    ensures Quoted(w, q) + s == [q] + (Escaped(w, q) + ([q] + s))
  {
  }

  // A quoted word between others: an empty one counts only after a
  // separator.
  lemma {:induction false} RunQuoted(p: Progress, w: string, s: string, q: Quote)
    requires Between(p) && Trimmed(w) && Faithful(w) && (w == "" ==> p.word != "")
    ensures Run(p, Quoted(w, q) + s) == Run(Progress(QuoteState(q), "", p.words + [w], false, false), s)
  {
    var on := Opened(p, q);
    QuotedBefore(w, s, q);
    RunFirst(p, q, Escaped(w, q) + ([q] + s));
    var last := RunFaithful(on, w, [q] + s, q);
    RunFirst(on.(state := last, word := p.word + w), q, s);
    StripBlankBefore(p.word, w);
    StripTrims(w);
  }

  // ---------------------------------------------------------------------
  // A word with an odd run of backslashes is never read back.
  // ---------------------------------------------------------------------

  // x can no longer become w: it has another character where w has one, or
  // goes on where w ends.
  ghost predicate Differs(x: string, w: string, k: nat)
  {
    k < |x| && !IsSpace(x[k]) && (k >= |w| || x[k] != w[k])
  }

  // Word number i will not be w.
  ghost predicate Doomed(p: Progress, i: nat, w: string)
  {
    || (|p.words| > i && p.words[i] != w)
    || (|p.words| == i && exists k: nat :: Differs(LStrip(p.word), w, k))
  }

  lemma {:induction false} LStripGrows(s: string, t: string)
    requires LStrip(s) != ""
    ensures LStrip(s + t) == LStrip(s) + t
    decreases |s|
  {
    if IsSpace(s[0]) {
      assert (s + t)[1..] == s[1..] + t;
      LStripGrows(s[1..], t);
    }
  }

  lemma {:induction false} RStripKeeps(x: string, w: string, k: nat)
    requires Differs(x, w, k)
    ensures Differs(RStrip(x), w, k)
    decreases |x|
  {
    if IsSpace(x[|x| - 1]) {
      RStripKeeps(x[..|x| - 1], w, k);
    }
  }

  lemma {:induction false} FlushedDoomed(words: seq<string>, word: string, i: nat, w: string, k: nat)
    requires |words| == i && Differs(LStrip(word), w, k)
    ensures |Flushed(words, word)| > i && Flushed(words, word)[i] != w
  {
    LStripEnd(word);
    RStripKeeps(LStrip(word), w, k);
  }

  lemma {:induction false} GrowthDoomed(word: string, more: string, w: string, k: nat)
    requires Differs(LStrip(word), w, k)
    ensures Differs(LStrip(word + more), w, k)
  {
    LStripGrows(word, more);
  }

  lemma {:induction false} StepDoomed(p: Progress, c: char, i: nat, w: string)
    requires Doomed(p, i, w)
    ensures Doomed(Stepped(p, c), i, w)
  {
    if |p.words| == i {
      var k: nat :| Differs(LStrip(p.word), w, k);
      FlushedDoomed(p.words, p.word, i, w, k);
      GrowthDoomed(p.word, [c], w, k);
      GrowthDoomed(p.word, [BACKSLASH], w, k);
      GrowthDoomed(p.word + [BACKSLASH], [c], w, k);
    }
  }

  lemma {:induction false} RunDoomed(p: Progress, s: string, i: nat, w: string)
    requires Doomed(p, i, w)
    ensures Doomed(Run(p, s), i, w)
    decreases |s|
  {
    if s != "" {
      StepDoomed(p, s[0], i, w);
      RunDoomed(Stepped(p, s[0]), s[1..], i, w);
    }
  }

  lemma {:induction false} DoomedNotRead(p: Progress, input: string, words: seq<string>, i: nat)
    requires i < |words| && Doomed(p, i, words[i])
    ensures Finished(p, input) != Ok(words)
  {
    if |p.words| == i {
      var k: nat :| Differs(LStrip(p.word), words[i], k);
      GrowthDoomed(p.word, [BACKSLASH], words[i], k);
      FlushedDoomed(p.words, Pending(p), i, words[i], k);
    }
  }

  // Reading the word has come to a backslash that pairs with none: it takes
  // the closing quote with it, ...
  lemma {:induction false} BreaksAtEnd(p: Progress, sep: string, done: string, w: string, v: string, s: string,
      q: Quote)
    requires InWord(p, q) && Blank(sep) && p.word == sep + done && w == done + v && Trimmed(w)
    requires |v| == 1 && v[0] == BACKSLASH
    ensures Doomed(Run(p, Escaped(v, q) + ([q] + s)), |p.words|, w)
  {
    assert Escaped(v, q) + ([q] + s) == [BACKSLASH, q] + s;
    RunEscape(p, q, s, q);
    WordDiffers(sep, done, w, q);
    RunDoomed(p.(state := Char, word := p.word + [q]), s, |p.words|, w);
  }

  // ... or is lost before a quote of the other kind, ...
  lemma {:induction false} BreaksAtOther(p: Progress, sep: string, done: string, w: string, v: string, s: string,
      q: Quote)
    requires InWord(p, q) && Blank(sep) && p.word == sep + done && w == done + v && Trimmed(w)
    requires |v| > 1 && v[0] == BACKSLASH && v[1] == OtherQuote(q)
    ensures Doomed(Run(p, Escaped(v, q) + ([q] + s)), |p.words|, w)
  {
    var rest := Escaped(v[2..], q) + ([q] + s);
    EscapedPair(v, [q] + s, q);
    RunEscape(p, OtherQuote(q), rest, q);
    WordDiffers(sep, done, w, OtherQuote(q));
    RunDoomed(p.(state := Char, word := p.word + [OtherQuote(q)]), rest, |p.words|, w);
  }

  // ... or takes the escape of a quote of the same kind, which then ends
  // the word.
  lemma {:induction false} BreaksAtSame(p: Progress, sep: string, done: string, w: string, v: string, s: string,
      q: Quote)
    requires InWord(p, q) && Blank(sep) && p.word == sep + done && w == done + v && Trimmed(w)
    requires |v| > 1 && v[0] == BACKSLASH && v[1] == q
    ensures Doomed(Run(p, Escaped(v, q) + ([q] + s)), |p.words|, w)
  {
    var rest := Escaped(v[2..], q) + ([q] + s);
    var word := p.word + [BACKSLASH, BACKSLASH];
    EscapedQuote(v, [q] + s, q);
    RunEscape(p, BACKSLASH, [q] + rest, q);
    RunFirst(p.(state := Char, word := word), q, rest);
    BackslashDiffers(sep, done, w, q);
    FlushedDoomed(p.words, word, |p.words|, w, |done| + 1);
    RunDoomed(Progress(QuoteState(q), "", Flushed(p.words, word), false, false), rest, |p.words|, w);
  }

  lemma {:induction false} EscapedQuote(v: string, s: string, q: Quote)
    requires |v| > 1 && v[0] == BACKSLASH && v[1] == q
    ensures Escaped(v, q) + s == [BACKSLASH, BACKSLASH] + ([q] + (Escaped(v[2..], q) + s))
  {
    var tail := v[1..];
    assert tail[0] == q && tail[1..] == v[2..];
    assert Escaped(tail, q) == [BACKSLASH, q] + Escaped(v[2..], q);
    assert Escaped(v, q) == [BACKSLASH] + Escaped(tail, q);
    RegroupQuote(Escaped(v[2..], q), s, q);
  }

  lemma {:induction false} RegroupQuote(rest: string, s: string, q: Quote)
    ensures [BACKSLASH] + ([BACKSLASH, q] + rest) + s == [BACKSLASH, BACKSLASH] + ([q] + (rest + s))
  {
  }

  lemma {:induction false} WordDiffers(sep: string, done: string, w: string, c: char)
    requires Blank(sep) && done < w && w[|done|] == BACKSLASH && Trimmed(w) && IsQuote(c)
    ensures Differs(LStrip(sep + done + [c]), w, |done|)
  {
    assert sep + done + [c] == sep + (done + [c]);
    StripBlankBefore(sep, done + [c]);
    assert (done + [c])[0] == if done == "" then c else w[0];
  }

  lemma {:induction false} BackslashDiffers(sep: string, done: string, w: string, q: Quote)
    requires Blank(sep) && Trimmed(w) && done < w && w[|done|] == BACKSLASH
    requires |w| > |done| + 1 && w[|done| + 1] == q
    ensures Differs(LStrip(sep + done + [BACKSLASH, BACKSLASH]), w, |done| + 1)
  {
    var x := done + [BACKSLASH, BACKSLASH];
    assert sep + done + [BACKSLASH, BACKSLASH] == sep + x;
    StripBlankBefore(sep, x);
    assert x[0] == if done == "" then BACKSLASH else w[0];
  }

  lemma {:induction false} MovedOn(sep: string, done: string, more: string, v: string, n: nat)
    requires n <= |v| && more == v[..n]
    ensures done + more + v[n..] == done + v && sep + (done + more) == sep + done + more
  {
    assert v[..n] + v[n..] == v;
  }

  lemma {:induction false} RunUnfaithful(p: Progress, sep: string, done: string, w: string, v: string, s: string,
      q: Quote)
    requires InWord(p, q) && Blank(sep) && p.word == sep + done && w == done + v && Trimmed(w) && !Faithful(v)
    ensures Doomed(Run(p, Escaped(v, q) + ([q] + s)), |p.words|, w)
    decreases |v|, 1
  {
    if v[0] != BACKSLASH {
      PlainUnfaithful(p, sep, done, w, v, s, q);
    } else if |v| == 1 {
      BreaksAtEnd(p, sep, done, w, v, s, q);
    } else if v[1] == OtherQuote(q) {
      BreaksAtOther(p, sep, done, w, v, s, q);
    } else if v[1] == q {
      BreaksAtSame(p, sep, done, w, v, s, q);
    } else {
      var pair := [BACKSLASH, v[1]];
      EscapedPair(v, [q] + s, q);
      RunEscape(p, v[1], Escaped(v[2..], q) + ([q] + s), q);
      MovedOn(sep, done, pair, v, 2);
      RunUnfaithful(p.(state := Char, word := p.word + pair), sep, done + pair, w, v[2..], s, q);
    }
  }

  lemma {:induction false} PlainUnfaithful(p: Progress, sep: string, done: string, w: string, v: string, s: string,
      q: Quote)
    requires InWord(p, q) && Blank(sep) && p.word == sep + done && w == done + v && Trimmed(w) && !Faithful(v)
    requires v[0] != BACKSLASH
    ensures Doomed(Run(p, Escaped(v, q) + ([q] + s)), |p.words|, w)
    decreases |v|, 0
  {
    var next := RunOneChar(p, v, [q] + s, q);
    MovedOn(sep, done, [v[0]], v, 1);
    RunUnfaithful(p.(state := next, word := p.word + [v[0]]), sep, done + [v[0]], w, v[1..], s, q);
  }

  // ---------------------------------------------------------------------
  // A word with white space at its ends is never read back.
  // ---------------------------------------------------------------------

  ghost predicate AllTrimmed(words: seq<string>)
  {
    forall i :: 0 <= i < |words| ==> Trimmed(words[i])
  }

  lemma {:induction false} WordsReadTrimmed(p: Progress, s: string, input: string)
    requires AllTrimmed(p.words)
    ensures var r := Finished(Run(p, s), input); r.Ok? ==> AllTrimmed(r.value)
    decreases |s|
  {
    if s == "" {
      StripTrims(Pending(p));
    } else {
      StripTrims(p.word);
      StripTrims(p.word + [BACKSLASH]);
      WordsReadTrimmed(Stepped(p, s[0]), s[1..], input);
    }
  }

  // ---------------------------------------------------------------------
  // An empty word with nothing before it is left out.
  // ---------------------------------------------------------------------

  lemma {:induction false} RunSkipped(p: Progress, s: string, q: Quote)
    requires Between(p) && p.word == ""
    ensures Run(p, Quoted("", q) + s) == Run(p.(state := QuoteState(q)), s)
  {
    var on := Opened(p, q);
    QuotedBefore("", s, q);
    assert Escaped("", q) + ([q] + s) == [q] + s;
    RunFirst(p, q, [q] + s);
    RunFirst(on, q, s);
  }

  // The first character of a word comes in with no white space before it.
  lemma {:induction false} RunFirstOfWord(p: Progress, w: string, s: string, q: Quote)
    returns (after: Progress, x: string, rest: string)
    requires InWord(p, q) && w != "" && Trimmed(w)
    ensures Run(p, Escaped(w, q) + ([q] + s)) == Run(after, rest)
    ensures after.words == p.words && after.word == p.word + x && x != "" && !IsSpace(x[0])
  {
    if w[0] != BACKSLASH {
      var next := RunOneChar(p, w, [q] + s, q);
      x, rest := [w[0]], Escaped(w[1..], q) + ([q] + s);
      after := p.(state := next, word := p.word + x);
    } else if |w| == 1 {
      assert Escaped(w, q) + ([q] + s) == [BACKSLASH, q] + s;
      RunEscape(p, q, s, q);
      x, rest := [q], s;
      after := p.(state := Char, word := p.word + x);
    } else if w[1] == q {
      rest := [q] + (Escaped(w[2..], q) + ([q] + s));
      EscapedQuote(w, [q] + s, q);
      RunEscape(p, BACKSLASH, rest, q);
      x := [BACKSLASH, BACKSLASH];
      after := p.(state := Char, word := p.word + x);
    } else {
      rest := Escaped(w[2..], q) + ([q] + s);
      EscapedPair(w, [q] + s, q);
      RunEscape(p, w[1], rest, q);
      x := if w[1] == OtherQuote(q) then [OtherQuote(q)] else [BACKSLASH, w[1]];
      after := p.(state := Char, word := p.word + x);
    }
  }

  // A word that is not empty will not be read as an empty one.
  lemma {:induction false} RunNotEmpty(p: Progress, w: string, s: string, q: Quote)
    requires Between(p) && w != "" && Trimmed(w)
    ensures Doomed(Run(p, Quoted(w, q) + s), |p.words|, "")
  {
    var on := Opened(p, q);
    QuotedBefore(w, s, q);
    RunFirst(p, q, Escaped(w, q) + ([q] + s));
    var after, x, rest := RunFirstOfWord(on, w, s, q);
    StripBlankBefore(p.word, x);
    assert Differs(LStrip(after.word), "", 0);
    RunDoomed(after, rest, |p.words|, "");
  }

  // The words still to come are `late`: they follow d empty words, d more
  // than there are now.
  ghost predicate Late(before: seq<string>, d: nat, words: seq<string>, more: seq<string>)
  {
    && d > 0 && |words| == |before| + d + |more| && words[|before| + d..] == more
    && forall i :: |before| <= i < |before| + d ==> words[i] == ""
  }

  lemma {:induction false} LateStep(before: seq<string>, d: nat, words: seq<string>, more: seq<string>)
    requires Late(before, d, words, more) && more != [] && more[0] == ""
    ensures Late(before, d + 1, words, more[1..]) && Late(before + [""], d, words, more[1..])
  {
    assert words[|before| + d] == more[0];
    assert words[|before| + d + 1..] == more[1..];
  }

  lemma {:induction false} LineFirst(words: seq<string>, quotes: seq<Quote>, seps: seq<string>)
    requires 0 < |quotes| == |words| <= |seps| + 1
    ensures Line(words, quotes, seps) == Quoted(words[0], quotes[0]) + After(words, quotes, seps)
  {
  }

  // After a word has been left out the list cannot be completed.
  lemma {:induction false} RunLate(p: Progress, d: nat, words: seq<string>, more: seq<string>, quotes: seq<Quote>,
      seps: seq<string>, input: string)
    requires Between(p) && Late(p.words, d, words, more) && AllTrimmed(more)
    requires more == [] ==> p.word == ""
    requires AllBlank(seps) && |quotes| == |more| <= |seps| + 1
    ensures Finished(Run(p, Line(more, quotes, seps)), input) != Ok(words)
    decreases |more|, 1
  {
    if more != [] {
      var s := After(more, quotes, seps);
      LineFirst(more, quotes, seps);
      if more[0] != "" {
        RunNotEmpty(p, more[0], s, quotes[0]);
        DoomedNotRead(Run(p, Line(more, quotes, seps)), input, words, |p.words|);
      } else {
        LateStep(p.words, d, words, more);
        var after, e := EmptyRead(p, d, s, quotes[0]);
        RunLateRest(after, e, words, more, quotes, seps, s, input);
      }
    }
  }

  // An empty word is read or left out.
  lemma {:induction false} EmptyRead(p: Progress, d: nat, s: string, q: Quote) returns (after: Progress, e: nat)
    requires Between(p)
    ensures Run(p, Quoted("", q) + s) == Run(after, s) && Between(after) && after.word == ""
    ensures (after.words == p.words && e == d + 1) || (after.words == p.words + [""] && e == d)
  {
    if p.word == "" {
      RunSkipped(p, s, q);
      after, e := p.(state := QuoteState(q)), d + 1;
    } else {
      RunQuoted(p, "", s, q);
      after, e := Progress(QuoteState(q), "", p.words + [""], false, false), d;
    }
  }

  lemma {:induction false} RunLateRest(after: Progress, d: nat, words: seq<string>, more: seq<string>,
      quotes: seq<Quote>, seps: seq<string>, s: string, input: string)
    requires Between(after) && after.word == ""
    requires more != [] && Late(after.words, d, words, more[1..]) && AllTrimmed(more)
    requires AllBlank(seps) && |quotes| == |more| <= |seps| + 1
    requires s == After(more, quotes, seps)
    ensures Finished(Run(after, s), input) != Ok(words)
    decreases |more|, 0
  {
    if |more| == 1 {
      RunLate(after, d, words, [], [], [], input);
    } else {
      RunSplit(after, seps[0], Line(more[1..], quotes[1..], seps[1..]));
      RunBlank(after, seps[0]);
      RunLate(Run(after, seps[0]), d, words, more[1..], quotes[1..], seps[1..], input);
    }
  }

  // ---------------------------------------------------------------------
  // Lists of words.
  // ---------------------------------------------------------------------

  ghost predicate AllFaithful(words: seq<string>)
  {
    forall i :: 0 <= i < |words| ==> Faithful(words[i])
  }

  ghost predicate AllBlank(seps: seq<string>)
  {
    forall i :: 0 <= i < |seps| ==> Blank(seps[i])
  }

  // Every empty word comes after a separator that is not empty; `gap` is what
  // is before the first word.
  ghost predicate EmptyOnesSeparated(gap: string, words: seq<string>, seps: seq<string>)
    requires |seps| + 1 >= |words|
  {
    forall i :: 0 <= i < |words| && words[i] == "" ==> (if i == 0 then gap else seps[i - 1]) != ""
  }

  lemma {:induction false} RunBadWord(p: Progress, w: string, s: string, q: Quote)
    requires Between(p) && w != "" && Trimmed(w) && !Faithful(w)
    ensures Doomed(Run(p, Quoted(w, q) + s), |p.words|, w)
  {
    var on := Opened(p, q);
    QuotedBefore(w, s, q);
    RunFirst(p, q, Escaped(w, q) + ([q] + s));
    assert p.word + "" == p.word && "" + w == w;
    RunUnfaithful(on, p.word, "", w, w, s, q);
  }

  lemma {:induction false} RunLine(p: Progress, words: seq<string>, quotes: seq<Quote>, seps: seq<string>,
      input: string)
    requires words == [] ==> p.word == ""
    requires Between(p) && AllTrimmed(words) && AllBlank(seps) && |quotes| == |words| <= |seps| + 1
    ensures Finished(Run(p, Line(words, quotes, seps)), input) == Ok(p.words + words)
      <==> AllFaithful(words) && EmptyOnesSeparated(p.word, words, seps)
    decreases |words|, 1
  {
    if words == [] {
      assert p.words + words == p.words;
    } else {
      var w, s := words[0], After(words, quotes, seps);
      LineFirst(words, quotes, seps);
      FirstWord(p.words, words);
      AllFaithfulStep(words);
      if !Faithful(w) {
        RunBadWord(p, w, s, quotes[0]);
        assert (p.words + words)[|p.words|] == w;
        DoomedNotRead(Run(p, Line(words, quotes, seps)), input, p.words + words, |p.words|);
      } else if w == "" && p.word == "" {
        RunSkipped(p, s, quotes[0]);
        assert Late(p.words, 1, p.words + words, words[1..]);
        RunLateRest(p.(state := QuoteState(quotes[0])), 1, p.words + words, words, quotes, seps, s, input);
      } else {
        RunQuoted(p, w, s, quotes[0]);
        RunLineRest(Progress(QuoteState(quotes[0]), "", p.words + [w], false, false), words, quotes, seps, s, input);
        SeparatedStep(p.word, words, seps);
      }
    }
  }

  lemma {:induction false} RunLineRest(after: Progress, words: seq<string>, quotes: seq<Quote>, seps: seq<string>,
      s: string, input: string)
    requires words != [] && Between(after) && after.word == ""
    requires AllTrimmed(words) && AllBlank(seps) && |quotes| == |words| <= |seps| + 1
    requires s == After(words, quotes, seps)
    ensures Finished(Run(after, s), input) == Ok(after.words + words[1..])
      <==> AllFaithful(words[1..]) && (|words| > 1 ==> EmptyOnesSeparated(seps[0], words[1..], seps[1..]))
    decreases |words|, 0
  {
    if |words| == 1 {
      RunLine(after, [], [], [], input);
    } else {
      RunSplit(after, seps[0], Line(words[1..], quotes[1..], seps[1..]));
      RunBlank(after, seps[0]);
      RunLine(Run(after, seps[0]), words[1..], quotes[1..], seps[1..], input);
      assert "" + seps[0] == seps[0];
    }
  }

  lemma {:induction false} SeparatedStep(gap: string, words: seq<string>, seps: seq<string>)
    requires words != [] && |words| <= |seps| + 1
    ensures EmptyOnesSeparated(gap, words, seps)
      <==> (words[0] == "" ==> gap != "") && (|words| > 1 ==> EmptyOnesSeparated(seps[0], words[1..], seps[1..]))
  {
    if |words| > 1 {
      assert forall i :: 0 < i < |words| ==> words[i] == words[1..][i - 1];
      assert forall i :: 0 < i < |seps| ==> seps[i] == seps[1..][i - 1];
    }
  }

  lemma {:induction false} FirstWord(before: seq<string>, words: seq<string>)
    requires words != []
    ensures before + words == before + [words[0]] + words[1..]
  {
  }

  lemma {:induction false} AllFaithfulStep(words: seq<string>)
    requires words != []
    ensures AllFaithful(words) <==> Faithful(words[0]) && AllFaithful(words[1..])
  {
    assert forall i :: 0 < i < |words| ==> words[i] == words[1..][i - 1];
  }

  lemma {:induction false} LineTrimmed(words: seq<string>, quotes: seq<Quote>, seps: seq<string>)
    requires |quotes| == |words| <= |seps| + 1
    ensures Trimmed(Line(words, quotes, seps))
    ensures words != [] ==> Line(words, quotes, seps) != ""
    decreases |words|
  {
    if |words| > 1 {
      LineTrimmed(words[1..], quotes[1..], seps[1..]);
    }
  }

  // Words in quotes, single or double ones for each, whatever white space is
  // put between them, are read back exactly when none has white space at its
  // ends, every empty one comes after white space, and in each of them
  // backslashes come in pairs before a quote and at the end.
  lemma {:induction false} QuotedRoundTripIff(words: seq<string>, quotes: seq<Quote>, seps: seq<string>)
    requires AllBlank(seps) && |quotes| == |words| <= |seps| + 1
    ensures Parse(Line(words, quotes, seps)) == Ok(words)
      <==> AllTrimmed(words) && AllFaithful(words) && EmptyOnesSeparated("", words, seps)
  {
    var s := Line(words, quotes, seps);
    LineTrimmed(words, quotes, seps);
    StripTrims(s);
    WordsReadTrimmed(INITIAL, s, s);
    if AllTrimmed(words) {
      RunLine(INITIAL, words, quotes, seps, s);
      assert [] + words == words;
    }
  }

  // Words without backslashes always are.
  lemma {:induction false} NoBackslashFaithful(w: string)
    requires BACKSLASH !in w
    ensures Faithful(w)
  {
    if w != "" {
      NoBackslashFaithful(w[1..]);
    }
  }
}
