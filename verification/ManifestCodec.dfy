// The messages of the manifest socket protocol.
module ManifestCodec {
  import opened Wrappers
  import opened Decimal

  const PRE_REQ_SIZE := 8
  const PRE_REQ_ACK: char := 1 as char
  const REQ_COMPLETE: char := 2 as char
  const EMPTY_STR: char := 3 as char
  const RECV_PARAMS_RECVD: char := 4 as char
  const TERM_LINK: char := 5 as char
  const STRING_SEP: char := 0 as char

  // ---------------------------------------------------------------------
  // Splitting.
  // ---------------------------------------------------------------------

  // str.split() at one character.
  function Split(s: string, sep: char): (pieces: seq<string>)
    ensures pieces != []
  {
    if s == "" then [""]
    else
      var rest := Split(s[1..], sep);
      if s[0] == sep then [""] + rest else [[s[0]] + rest[0]] + rest[1..]
  }

  lemma {:induction false} PiecesLackSeparator(s: string, sep: char, i: nat)
    requires i < |Split(s, sep)|
    ensures sep !in Split(s, sep)[i]
  {
    if s != "" {
      var rest := Split(s[1..], sep);
      if s[0] == sep {
        if i > 0 {
          PiecesLackSeparator(s[1..], sep, i - 1);
        }
      } else {
        PiecesLackSeparator(s[1..], sep, i);
        assert i > 0 ==> Split(s, sep)[i] == rest[1..][i - 1];
      }
    }
  }

  // A piece without the separator, the separator, and the rest.
  lemma {:induction false} SplitFirst(piece: string, rest: string, sep: char)
    requires sep !in piece
    ensures Split(piece + [sep] + rest, sep) == [piece] + Split(rest, sep)
  {
    var s := piece + [sep] + rest;
    if piece == "" {
      assert s[0] == sep && s[1..] == rest;
    } else {
      var tail := piece[1..] + [sep] + rest;
      assert s[0] == piece[0] && s[1..] == tail;
      SplitFirst(piece[1..], rest, sep);
      assert ([piece[1..]] + Split(rest, sep))[1..] == Split(rest, sep);
      assert [piece[0]] + piece[1..] == piece;
    }
  }

  lemma {:induction false} SplitLast(piece: string, sep: char)
    requires sep !in piece
    ensures Split(piece, sep) == [piece]
  {
    if piece != "" {
      SplitLast(piece[1..], sep);
      assert [piece[0]] + piece[1..] == piece;
    }
  }

  // ---------------------------------------------------------------------
  // Results.
  // ---------------------------------------------------------------------

  function OnWire(value: string): string
  {
    if value == "" then [EMPTY_STR] else value
  }

  // Each value with a separator after it.
  function Joined(values: seq<string>): string
  {
    if values == [] then "" else Joined(values[..|values| - 1]) + (OnWire(values[|values| - 1]) + [STRING_SEP])
  }

  function Encode(values: seq<string>): string
  {
    Joined(values) + [REQ_COMPLETE]
  }

  datatype DecodeError = IndexError

  // The first n pieces as values.  Looking at the first character of an
  // empty piece fails.
  function Pieces(pieces: seq<string>, n: nat): Result<seq<string>, DecodeError>
  {
    if n == 0 then Ok([])
    else
      match Pieces(pieces, n - 1)
      case Err(e) => Err(e)
      case Ok(values) =>
        if n > |pieces| || pieces[n - 1] == "" then Err(IndexError)
        else if pieces[n - 1][0] == EMPTY_STR then Ok(values + [""])
        else Ok(values + [pieces[n - 1]])
  }

  // The last piece, the completion mark, must be there but is otherwise
  // ignored.
  function Decode(count: nat, results: string): Result<seq<string>, DecodeError>
  {
    var pieces := Split(results, STRING_SEP);
    match Pieces(pieces, count)
    case Err(e) => Err(e)
    case Ok(values) => if count >= |pieces| then Err(IndexError) else Ok(values)
  }

  method EncodeResults(values: seq<string>) returns (results: string)
    ensures results == Encode(values)
  {
    results := "";
    for i := 0 to |values|
      invariant results == Joined(values[..i])
    {
      var value := values[i];
      if value == "" {
        value := [EMPTY_STR];
      }
      assert values[..i + 1][..i] == values[..i];
      results := results + (value + [STRING_SEP]);
    }
    assert values[..|values|] == values;
    results := results + [REQ_COMPLETE];
  }

  method DecodeResults(count: nat, results: string) returns (r: Result<seq<string>, DecodeError>)
    ensures r == Decode(count, results)
  {
    var pieces := Split(results, STRING_SEP);
    var resultsList: seq<string> := [];
    for i := 0 to count
      invariant Pieces(pieces, i) == Ok(resultsList)
    {
      if i >= |pieces| || pieces[i] == "" {
        PiecesFail(pieces, i + 1, count);
        return Err(IndexError);
      }
      if pieces[i][0] != EMPTY_STR {
        resultsList := resultsList + [pieces[i]];
      } else {
        resultsList := resultsList + [""];
      }
    }
    if count >= |pieces| {
      return Err(IndexError);
    }
    r := Ok(resultsList);
  }

  lemma {:induction false} PiecesFail(pieces: seq<string>, m: nat, n: nat)
    requires m <= n && Pieces(pieces, m).Err?
    ensures Pieces(pieces, n) == Pieces(pieces, m)
  {
    if m < n {
      PiecesFail(pieces, m, n - 1);
    }
  }

  // A piece as the client takes it.
  ghost predicate IsRead(piece: string, value: string)
  {
    piece != "" && value == if piece[0] == EMPTY_STR then "" else piece
  }

  ghost predicate AllRead(pieces: seq<string>, values: seq<string>)
  {
    |values| <= |pieces| && forall i :: 0 <= i < |values| ==> IsRead(pieces[i], values[i])
  }

  lemma {:induction false} PiecesAreRead(pieces: seq<string>, n: nat)
    requires Pieces(pieces, n).Ok?
    ensures |Pieces(pieces, n).value| == n && AllRead(pieces, Pieces(pieces, n).value)
  {
    if n > 0 {
      PiecesAreRead(pieces, n - 1);
    }
  }

  lemma {:induction false} ReadIsPieces(pieces: seq<string>, values: seq<string>)
    requires AllRead(pieces, values)
    ensures Pieces(pieces, |values|) == Ok(values)
  {
    if values != [] {
      var n := |values| - 1;
      ReadIsPieces(pieces, values[..n]);
      assert IsRead(pieces[n], values[n]);
      assert values[..n] + [values[n]] == values;
    }
  }

  // For every count and text: decoding succeeds exactly when there are more
  // pieces than values to take and none of those taken is empty, and gives
  // the pieces with marked ones as empty values.
  lemma {:induction false} DecodeIff(count: nat, results: string, values: seq<string>)
    ensures Decode(count, results) == Ok(values)
      <==> count == |values| < |Split(results, STRING_SEP)| && AllRead(Split(results, STRING_SEP), values)
  {
    var pieces := Split(results, STRING_SEP);
    if Pieces(pieces, count).Ok? {
      PiecesAreRead(pieces, count);
    }
    if AllRead(pieces, values) {
      ReadIsPieces(pieces, values);
    }
  }

  ghost predicate NotMarked(value: string)
  {
    value != "" ==> value[0] != EMPTY_STR
  }

  // A value the protocol can carry.
  ghost predicate Carried(value: string)
  {
    STRING_SEP !in value && NotMarked(value)
  }

  ghost predicate AllLackSeparator(values: seq<string>)
  {
    forall i :: 0 <= i < |values| ==> STRING_SEP !in values[i]
  }

  ghost function OnWireAll(values: seq<string>): (r: seq<string>)
    ensures |r| == |values| && forall i :: 0 <= i < |r| ==> r[i] == OnWire(values[i])
  {
    seq(|values|, i requires 0 <= i < |values| => OnWire(values[i]))
  }

  lemma {:induction false} OnWireLast(values: seq<string>)
    requires values != []
    ensures OnWireAll(values) == OnWireAll(values[..|values| - 1]) + [OnWire(values[|values| - 1])]
  {
  }

  lemma {:induction false} JoinedLast(values: seq<string>, rest: string)
    requires values != []
    ensures Joined(values) + rest
      == Joined(values[..|values| - 1]) + (OnWire(values[|values| - 1]) + [STRING_SEP] + rest)
  {
    var front, last := Joined(values[..|values| - 1]), OnWire(values[|values| - 1]) + [STRING_SEP];
    assert front + last + rest == front + (last + rest);
  }

  lemma {:induction false} Regroup<T>(a: seq<T>, b: seq<T>, c: seq<T>)
    ensures a + (b + c) == a + b + c
  {
  }

  lemma {:induction false} SplitJoined(values: seq<string>, rest: string)
    requires AllLackSeparator(values)
    ensures Split(Joined(values) + rest, STRING_SEP) == OnWireAll(values) + Split(rest, STRING_SEP)
  {
    if values == [] {
      assert Joined(values) + rest == rest;
    } else {
      var n := |values| - 1;
      var front, last := values[..n], OnWire(values[n]);
      JoinedLast(values, rest);
      SplitJoined(front, last + [STRING_SEP] + rest);
      SplitFirst(last, rest, STRING_SEP);
      OnWireLast(values);
      Regroup(OnWireAll(front), [last], Split(rest, STRING_SEP));
    }
  }

  // What an encoded list splits into.
  lemma {:induction false} EncodedPieces(values: seq<string>)
    requires AllLackSeparator(values)
    ensures Split(Encode(values), STRING_SEP) == OnWireAll(values) + [[REQ_COMPLETE]]
  {
    SplitJoined(values, [REQ_COMPLETE]);
    SplitLast([REQ_COMPLETE], STRING_SEP);
  }

  // The client gets the server's list back exactly when no value contains
  // the separator or starts with the mark for empty values.
  lemma {:induction false} DecodeEncodeIff(values: seq<string>)
    ensures Decode(|values|, Encode(values)) == Ok(values) <==> forall i :: 0 <= i < |values| ==> Carried(values[i])
  {
    var pieces := Split(Encode(values), STRING_SEP);
    DecodeIff(|values|, Encode(values), values);
    if AllLackSeparator(values) {
      EncodedPieces(values);
      assert forall i :: 0 <= i < |values| ==> (IsRead(pieces[i], values[i]) <==> Carried(values[i]));
    } else if AllRead(pieces, values) {
      var i :| 0 <= i < |values| && STRING_SEP in values[i];
      assert IsRead(pieces[i], values[i]);
      PiecesLackSeparator(Encode(values), STRING_SEP, i);
      assert false;
    }
  }

  // ---------------------------------------------------------------------
  // Requests.
  // ---------------------------------------------------------------------

  datatype Request = Request(isKey: bool, text: string)

  function Zeros(n: nat): string
  {
    seq(n, _ => '0')
  }

  // "%6.6d".
  function Padded(n: nat): string
  {
    var s := Numeral(n);
    if |s| < 6 then Zeros(6 - |s|) + s else s
  }

  function PreRequest(q: Request): string
  {
    (if q.isKey then "1" else "0") + " " + Padded(|q.text|)
  }

  datatype ProtocolError = BadKey | BadSize

  // What the server makes of the bytes of a pre-request.
  function ReadPreRequest(bytes: string): Result<(bool, nat), ProtocolError>
    requires bytes != ""
  {
    if bytes[0] != '0' && bytes[0] != '1' then Err(BadKey)
    else if |bytes| <= 2 || !AllDigits(bytes[2..]) then Err(BadSize)
    else Ok((bytes[0] == '1', Value(bytes[2..])))
  }

  // What the first recv() gets of a stream.
  function FirstRead(stream: string, n: nat): string
  {
    if |stream| <= n then stream else stream[..n]
  }

  lemma {:induction false} PaddedValue(zeros: nat, s: string)
    requires AllDigits(s)
    ensures AllDigits(Zeros(zeros) + s) && Value(Zeros(zeros) + s) == Value(s)
    decreases |s|, zeros
  {
    var t := Zeros(zeros) + s;
    if s == "" {
      if zeros > 0 {
        assert t[..|t| - 1] == Zeros(zeros - 1) + "";
        PaddedValue(zeros - 1, "");
      }
    } else {
      assert t[..|t| - 1] == Zeros(zeros) + s[..|s| - 1];
      PaddedValue(zeros, s[..|s| - 1]);
    }
  }

  // Numbers of at most k digits are those below 10^k.
  function Power(k: nat): nat
  {
    if k == 0 then 1 else 10 * Power(k - 1)
  }

  lemma {:induction false} NumeralLength(n: nat, k: nat)
    requires k > 0
    ensures |Numeral(n)| <= k <==> n < Power(k)
    decreases k
  {
    if n >= 10 {
      if k > 1 {
        NumeralLength(n / 10, k - 1);
      } else {
        NumeralValue(n / 10);
      }
    } else {
      PowerPositive(k - 1);
    }
  }

  lemma {:induction false} PowerPositive(k: nat)
    ensures Power(k) >= 1
  {
    if k > 0 {
      PowerPositive(k - 1);
    }
  }

  // The size gets across exactly when it has at most six digits; otherwise
  // the server reads a truncated size.
  lemma {:induction false} PreRequestIff(q: Request)
    ensures ReadPreRequest(FirstRead(PreRequest(q), PRE_REQ_SIZE)) == Ok((q.isKey, |q.text|)) <==> |q.text| <= 999999
    ensures |PreRequest(q)| == PRE_REQ_SIZE <==> |q.text| <= 999999
  {
    var n := |q.text|;
    NumeralValue(n);
    NumeralLength(n, 6);
    assert Power(6) == 1000000;
    if n <= 999999 {
      SixDigits(q);
    } else {
      MoreDigits(q);
    }
  }

  lemma {:induction false} SixDigits(q: Request)
    requires |Numeral(|q.text|)| <= 6
    ensures |PreRequest(q)| == PRE_REQ_SIZE && ReadPreRequest(PreRequest(q)) == Ok((q.isKey, |q.text|))
  {
    var n, p := |q.text|, PreRequest(q);
    NumeralValue(n);
    PaddedValue(6 - |Numeral(n)|, Numeral(n));
    assert Padded(n) == Zeros(6 - |Numeral(n)|) + Numeral(n);
    assert p[2..] == Padded(n);
  }

  lemma {:induction false} MoreDigits(q: Request)
    requires |Numeral(|q.text|)| > 6 && |q.text| >= Power(6)
    ensures |PreRequest(q)| > PRE_REQ_SIZE
    ensures ReadPreRequest(FirstRead(PreRequest(q), PRE_REQ_SIZE)) != Ok((q.isKey, |q.text|))
  {
    var n, p := |q.text|, PreRequest(q);
    NumeralValue(n);
    assert p[2..] == Numeral(n);
    assert p[..8][2..] == Numeral(n)[..6];
    TruncatedValue(Numeral(n), 6);
  }

  lemma {:induction false} ValueBelow(s: string)
    requires AllDigits(s)
    ensures Value(s) < Power(|s|)
  {
    if s != "" {
      ValueBelow(s[..|s| - 1]);
    }
  }

  lemma {:induction false} TruncatedValue(s: string, k: nat)
    requires AllDigits(s) && k < |s| && Value(s) >= Power(k)
    ensures AllDigits(s[..k]) && Value(s[..k]) != Value(s)
  {
    ValueBelow(s[..k]);
  }

  // ---------------------------------------------------------------------
  // Count and size.
  // ---------------------------------------------------------------------

  function Params(count: nat, size: nat): string
  {
    Numeral(count) + [','] + Numeral(size)
  }

  function ReadParams(s: string): Option<(nat, nat)>
  {
    var fields := Split(s, ',');
    if |fields| < 2 || !AllDigits(fields[0]) || !AllDigits(fields[1]) || fields[0] == "" || fields[1] == "" then None
    else Some((Value(fields[0]), Value(fields[1])))
  }

  lemma {:induction false} ParamsRoundTrip(count: nat, size: nat)
    ensures Params(count, size) != "" && ReadParams(Params(count, size)) == Some((count, size))
  {
    NumeralValue(count);
    NumeralValue(size);
    assert forall c :: c in Numeral(count) ==> IsDigit(c);
    assert forall c :: c in Numeral(size) ==> IsDigit(c);
    SplitFirst(Numeral(count), Numeral(size), ',');
    SplitLast(Numeral(size), ',');
  }
}
