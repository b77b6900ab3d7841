// Client and server of the manifest socket protocol, and the link between
// them.
module ManifestLink {
  import opened Wrappers
  import opened Text
  import opened ManifestCodec

  // ---------------------------------------------------------------------
  // Reassembling a reply.
  // ---------------------------------------------------------------------

  // What is still to be read of a stream.
  class Stream {
    var pending: string

    constructor (s: string)
      ensures pending == s
    {
      pending := s;
    }

    // Some of what is there, at most n characters.
    method Recv(n: nat) returns (s: string)
      requires n > 0 && pending != ""
      modifies this
      ensures s != "" && |s| <= n && old(pending) == s + pending
    {
      var k :| 0 < k <= n && k <= |pending|;
      s := pending[..k];
      pending := pending[k..];
    }
  }

  // However the reply is split.
  method ReceiveResults(stream: Stream, size: nat) returns (results: string)
    requires size <= |stream.pending|
    modifies stream
    ensures results == old(stream.pending)[..size] && stream.pending == old(stream.pending)[size..]
  {
    results := "";
    var sizeToRecv := size;
    while sizeToRecv > 0
      invariant sizeToRecv == size - |results| && |results| <= size
      invariant results + stream.pending == old(stream.pending)
    {
      var chunk := stream.Recv(sizeToRecv);
      results := results + chunk;
      sizeToRecv := size - |results|;
    }
  }

  // Receiving and decoding a reply gives the server's list exactly when the
  // protocol can carry its values.
  method ReceiveReply(stream: Stream, values: seq<string>) returns (r: Result<seq<string>, DecodeError>)
    requires Encode(values) <= stream.pending
    modifies stream
    ensures r == Ok(values) <==> forall i :: 0 <= i < |values| ==> Carried(values[i])
    ensures old(stream.pending) == Encode(values) + stream.pending
  {
    var results := ReceiveResults(stream, |Encode(values)|);
    assert results == Encode(values);
    r := DecodeResults(|values|, results);
    DecodeEncodeIff(values);
  }

  // ---------------------------------------------------------------------
  // The two parties and what is on its way between them.
  // ---------------------------------------------------------------------

  type Lookup = (bool, string) -> seq<string>

  datatype Client =
    | Ready
    | AwaitAck(q: Request)
    | AwaitParams(q: Request)
    | Collecting(q: Request, count: nat, size: nat, got: string)
    | Done
    | Crashed(q: Request)

  datatype Server =
    | AwaitPre
    | AwaitRequest(isKey: bool, size: nat)
    | AwaitGo(values: seq<string>)
    | Closed
    | Failed

  datatype System = System(
    todo: seq<Request>,
    client: Client,
    server: Server,
    up: string,
    down: string,
    replies: seq<seq<string>>)

  function Initial(requests: seq<Request>): System
  {
    System(requests, Ready, AwaitPre, "", "", [])
  }

  const MAX_PARAMS := 1024

  function AfterRead(stream: string, n: nat): string
  {
    if |stream| <= n then "" else stream[n..]
  }

  // At least one character, at most what is there and what is missing.
  function ChunkSize(k: nat, missing: nat, there: nat): (n: nat)
    requires missing > 0 && there > 0
    ensures 0 < n <= missing && n <= there
  {
    var m := if missing <= there then missing else there;
    if k == 0 then 1 else if k <= m then k else m
  }

  // What one send or read takes of a request.
  function Portion(text: string, k: nat): string
  {
    if text == "" then "" else text[..ChunkSize(k, |text|, |text|)]
  }

  // What the client does up to its next read; None while it waits.  k is the
  // length of the next chunk it gets of a reply, or that it gets sent of a
  // request: the rest of a request is not sent later.
  function ClientStep(s: System, k: nat): Option<System>
  {
    match s.client
    case Ready =>
      if s.todo == [] then Some(s.(client := Done, up := s.up + [TERM_LINK]))
      else Some(s.(client := AwaitAck(s.todo[0]), todo := s.todo[1..], up := s.up + PreRequest(s.todo[0])))
    case AwaitAck(q) =>
      if s.down == "" then None
      else if s.down[0] != PRE_REQ_ACK then Some(s.(client := Crashed(q), down := s.down[1..]))
      else Some(s.(client := AwaitParams(q), down := s.down[1..], up := s.up + Portion(q.text, k)))
    case AwaitParams(q) =>
      if s.down == "" then None
      else
        var t := s.(down := AfterRead(s.down, MAX_PARAMS));
        (match ReadParams(FirstRead(s.down, MAX_PARAMS))
         case None => Some(t.(client := Crashed(q)))
         case Some((count, size)) =>
           var go := t.(up := s.up + [RECV_PARAMS_RECVD]);
           if count == 0 then Some(go.(client := Ready, replies := s.replies + [[]]))
           else Some(go.(client := Collecting(q, count, size, ""))))
    case Collecting(q, count, size, got) =>
      if |got| < size then
        if s.down == "" then None
        else
          var n := ChunkSize(k, size - |got|, |s.down|);
          Some(s.(client := Collecting(q, count, size, got + s.down[..n]), down := s.down[n..]))
      else
        (match Decode(count, got)
         case Err(_) => Some(s.(client := Crashed(q)))
         case Ok(values) => Some(s.(client := Ready, replies := s.replies + [values])))
    case Done | Crashed(_) => None
  }

  function ParamsFor(values: seq<string>): string
  {
    if values == [] then "0,0" else Params(|values|, |Encode(values)|)
  }

  // Number of characters a read of a request of this size returns.
  function RequestRead(k: nat, size: nat, there: nat): (n: nat)
    requires there > 0 || size == 0
    ensures n <= there
  {
    if size == 0 then 0 else ChunkSize(k, size, there)
  }

  // What the server does up to its next read; None while it waits.  k is the
  // number of characters it gets of a request: it reads only once.
  function ServerStep(s: System, lookup: Lookup, k: nat): Option<System>
  {
    match s.server
    case AwaitPre =>
      if s.up == "" then None
      else
        var t := s.(up := AfterRead(s.up, PRE_REQ_SIZE));
        if s.up[0] == TERM_LINK then Some(t.(server := Closed))
        else
          (match ReadPreRequest(FirstRead(s.up, PRE_REQ_SIZE))
           case Err(_) => Some(t.(server := Failed))
           case Ok((isKey, size)) => Some(t.(server := AwaitRequest(isKey, size), down := s.down + [PRE_REQ_ACK])))
    case AwaitRequest(isKey, size) =>
      if s.up == "" && size > 0 then None
      else
        var n := RequestRead(k, size, |s.up|);
        var values := lookup(isKey, Strip(s.up[..n]));
        Some(s.(server := AwaitGo(values), up := s.up[n..], down := s.down + ParamsFor(values)))
    case AwaitGo(values) =>
      if s.up == "" then None
      else if s.up[0] != RECV_PARAMS_RECVD then Some(s.(server := Failed, up := s.up[1..]))
      else
        Some(s.(server := AwaitPre, up := s.up[1..], down := if values == [] then s.down else s.down + Encode(values)))
    case Closed | Failed => None
  }

  datatype Event = ClientMoves(k: nat) | ServerMoves(k: nat)

  function Next(s: System, lookup: Lookup, e: Event): Option<System>
  {
    match e
    case ClientMoves(k) => ClientStep(s, k)
    case ServerMoves(k) => ServerStep(s, lookup, k)
  }
}
