// The enhanced nodepath parser: a state table, and the loop driven by it.
module NodePath {
  import opened Wrappers
  import opened Text

  // name=value, name[valpath=value:...], or only a name.
  datatype Token = Token(name: string, valpaths: seq<string>, values: seq<string>)

  datatype ParserError = BracketMismatch | BracketOrder | StartingSlash | QuoteMismatch | Malformed

  datatype State =
    | Start | StSl | N0 | N | P0 | P | V0 | V | DqOn | DqOff | SqOn | SqOff | CBkt | TCmpl | ExSl | Error

  predicate Special(c: char)
  {
    c == '[' || c == ']' || c == '=' || c == ':' || c == '/' || c == '"' || c == '\''
  }

  // The state table, row by row: special characters that are not listed lead
  // to the error state.
  function TableEntry(state: State, c: char): State
  {
    match state
    case Start => if c == '/' then StSl else if Special(c) then Error else N0
    case StSl => Error
    case N0 | N =>
      if c == '[' then P0 else if c == '=' then V0 else if c == '/' then TCmpl else if Special(c) then Error else N
    case P0 => if Special(c) then Error else P
    case P => if c == '=' then V0 else if c == '/' then P else if Special(c) then Error else P
    case V0 => if c == '"' then DqOn else if c == '\'' then SqOn else if Special(c) then Error else V
    case V =>
      if c == ']' then CBkt else if c == ':' then P0 else if c == '/' then TCmpl
      else if c == '"' then DqOff else if c == '\'' then SqOff else if Special(c) then Error else V
    case DqOn => if c == '"' then DqOff else V
    case SqOn => if c == '\'' then SqOff else V
    case DqOff | SqOff => if c == ']' then CBkt else if c == ':' then P0 else if c == '/' then TCmpl else Error
    case CBkt => if c == '/' then TCmpl else Error
    case TCmpl | ExSl => if c == '/' then ExSl else if Special(c) then Error else N0
    case Error => Error
  }

  function NextState(state: State, c: char, doubleQuote: bool, singleQuote: bool): (next: State)
    ensures next == P ==> state == P0 || state == P
    ensures next == DqOn || next == SqOn ==> state == V0
    ensures next == V ==> state == V0 || state == V || state == DqOn || state == SqOn
  {
    if state == V && ((doubleQuote && c != '"') || (singleQuote && c != '\'')) then V
    else TableEntry(state, c)
  }

  // Everything the loop updates.
  datatype Progress = Progress(
    state: State,
    doubleQuote: bool,
    singleQuote: bool,
    bracket: bool,
    name: string,
    valpaths: seq<string>,
    values: seq<string>,
    inProgress: bool,
    tokens: seq<Token>)
  {
    // There is a string to append to.
    predicate Fits()
    {
      && state != Error && state != StSl
      && (state == P0 || state == P ==> valpaths != [])
      && (state == V0 || state == V || state == DqOn || state == SqOn ==> values != [])
    }
  }

  const INITIAL := Progress(Start, false, false, false, "", [], [], false, [])

  // Appends a character to the last string.
  function Extended(strings: seq<string>, c: char): (r: seq<string>)
    requires strings != []
    ensures |r| == |strings|
  {
    strings[|strings| - 1 := strings[|strings| - 1] + [c]]
  }

  // What a round does on going to a state.
  function Entered(p: Progress, state: State, c: char): (r: Result<Progress, ParserError>)
    requires state == P ==> p.valpaths != []
    requires state == V ==> p.values != []
    requires state == DqOn || state == SqOn ==> p.values != []
    ensures r.Ok? ==> r.value.Fits()
  {
    match state
    case N0 => Ok(p.(state := state, name := [c], values := [], valpaths := [], inProgress := true))
    case N => Ok(p.(state := state, name := p.name + [c]))
    case P0 => Ok(p.(state := state, bracket := true, valpaths := p.valpaths + [""]))
    case P => Ok(p.(state := state, valpaths := Extended(p.valpaths, c)))
    case V0 => Ok(p.(state := state, values := p.values + [""]))
    case V => Ok(p.(state := state, values := Extended(p.values, c)))
    case DqOn => Ok(p.(state := state, doubleQuote := true))
    case DqOff => Ok(p.(state := state, doubleQuote := false))
    case SqOn => Ok(p.(state := state, singleQuote := true))
    case SqOff => Ok(p.(state := state, singleQuote := false))
    case CBkt => if p.bracket then Ok(p.(state := state, bracket := false)) else Err(BracketOrder)
    case TCmpl =>
      Ok(p.(state := state, tokens := p.tokens + [Token(p.name, p.valpaths, p.values)], inProgress := false))
    case ExSl => Ok(p.(state := state))
    case StSl => Err(StartingSlash)
    case Start | Error => Err(Malformed)
  }

  // One round of the loop.
  function Stepped(p: Progress, c: char): (r: Result<Progress, ParserError>)
    requires p.Fits()
    ensures r.Ok? ==> r.value.Fits()
  {
    Entered(p, NextState(p.state, c, p.doubleQuote, p.singleQuote), c)
  }

  function Run(p: Progress, s: string): (r: Result<Progress, ParserError>)
    requires p.Fits()
    ensures r.Ok? ==> r.value.Fits()
    decreases |s|
  {
    if s == "" then Ok(p)
    else
      match Stepped(p, s[0])
      case Err(e) => Err(e)
      case Ok(q) => Run(q, s[1..])
  }

  // The checks after the loop.
  function Finished(p: Progress): Result<seq<Token>, ParserError>
  {
    if p.doubleQuote || p.singleQuote then Err(QuoteMismatch)
    else if p.bracket then Err(BracketMismatch)
    else if p.inProgress then Ok(p.tokens + [Token(p.name, p.valpaths, p.values)])
    else Ok(p.tokens)
  }

  function FinishedRun(r: Result<Progress, ParserError>): Result<seq<Token>, ParserError>
  {
    match r
    case Err(e) => Err(e)
    case Ok(p) => Finished(p)
  }

  function Parse(nodepath: string): Result<seq<Token>, ParserError>
  {
    FinishedRun(Run(INITIAL, Strip(nodepath)))
  }

  lemma {:induction false} RunNext(p: Progress, path: string, i: nat)
    requires p.Fits() && i < |path|
    ensures Run(p, path[i..]) == match Stepped(p, path[i]) case Err(e) => Err(e) case Ok(q) => Run(q, path[i + 1..])
  {
    assert path[i..][1..] == path[i + 1..];
  }

  method ParseNodepath(nodepath: string) returns (r: Result<seq<Token>, ParserError>)
    ensures r == Parse(nodepath)
  {
    var parsedTokens: seq<Token> := [];
    var currState := Start;
    var doubleQuoteActive, singleQuoteActive, bracketActive := false, false, false;
    var name: string, values: seq<string>, valpaths: seq<string> := "", [], [];
    var tokenInProgress := false;
    var path := Strip(nodepath);
    if |path| == 0 {
      return Ok([]);
    }
    ghost var p := INITIAL;
    for i := 0 to |path|
      invariant p == Progress(currState, doubleQuoteActive, singleQuoteActive, bracketActive, name, valpaths, values,
                              tokenInProgress, parsedTokens)
      invariant p.Fits() && Run(p, path[i..]) == Run(INITIAL, path)
    {
      var c := path[i];
      RunNext(p, path, i);
      var newState := NextState(currState, c, doubleQuoteActive, singleQuoteActive);
      match newState {
        case N0 =>
          name, values, valpaths, tokenInProgress := [c], [], [], true;
        case N =>
          name := name + [c];
        case P0 =>
          bracketActive, valpaths := true, valpaths + [""];
        case P =>
          valpaths := Extended(valpaths, c);
        case V0 =>
          values := values + [""];
        case V =>
          values := Extended(values, c);
        case DqOn =>
          doubleQuoteActive := true;
        case DqOff =>
          doubleQuoteActive := false;
        case SqOn =>
          singleQuoteActive := true;
        case SqOff =>
          singleQuoteActive := false;
        case CBkt =>
          if !bracketActive {
            return Err(BracketOrder);
          }
          bracketActive := false;
        case TCmpl =>
          parsedTokens, tokenInProgress := parsedTokens + [Token(name, valpaths, values)], false;
        case ExSl =>
        case StSl =>
          return Err(StartingSlash);
        case Start | Error =>
          return Err(Malformed);
      }
      currState := newState;
      p := Stepped(p, c).value;
    }
    if doubleQuoteActive || singleQuoteActive {
      return Err(QuoteMismatch);
    }
    if bracketActive {
      return Err(BracketMismatch);
    }
    if tokenInProgress {
      parsedTokens := parsedTokens + [Token(name, valpaths, values)];
    }
    r := Ok(parsedTokens);
  }
}
