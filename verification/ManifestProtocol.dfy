// Client and server stay in step over any number of requests.
module ManifestProtocol {
  import opened Wrappers
  import opened Text
  import opened ManifestCodec
  import opened ManifestLink

  ghost function Values(lookup: Lookup, q: Request): seq<string>
  {
    lookup(q.isKey, Strip(q.text))
  }

  ghost function ReplySize(lookup: Lookup, q: Request): nat
  {
    |Encode(Values(lookup, q))|
  }

  // A request of 1 to 999999 characters whose count and size message fits
  // the client's buffer.
  ghost predicate Serviceable(lookup: Lookup, q: Request)
  {
    0 < |q.text| <= 999999 && |ParamsFor(Values(lookup, q))| <= MAX_PARAMS
  }

  ghost predicate AllServiceable(lookup: Lookup, requests: seq<Request>)
  {
    forall i :: 0 <= i < |requests| ==> Serviceable(lookup, requests[i])
  }

  // What the client makes of the server's values.
  ghost function Outcome(lookup: Lookup, q: Request): Result<seq<string>, DecodeError>
  {
    Decode(|Values(lookup, q)|, Encode(Values(lookup, q)))
  }

  ghost predicate Answered(lookup: Lookup, requests: seq<Request>, replies: seq<seq<string>>)
  {
    |replies| <= |requests| && forall i :: 0 <= i < |replies| ==> Outcome(lookup, requests[i]) == Ok(replies[i])
  }

  // The request in hand.
  ghost function InHand(c: Client): seq<Request>
  {
    match c
    case Ready | Done => []
    case AwaitAck(q) => [q]
    case AwaitParams(q) => [q]
    case Collecting(q, _, _, _) => [q]
    case Crashed(q) => [q]
  }

  // What the client has sent that the server has not read, while the server
  // waits for a pre-request.
  ghost function Opening(c: Client): string
  {
    match c
    case AwaitAck(q) => PreRequest(q)
    case Done => [TERM_LINK]
    case _ => ""
  }

  // The states of the two parties that go together, and what is then on its
  // way.
  ghost predicate InStep(lookup: Lookup, c: Client, server: Server, up: string, down: string)
  {
    match server
    case AwaitPre =>
      (match c
       case Ready | AwaitAck(_) | Done | Crashed(_) => up == Opening(c) && down == ""
       case Collecting(q, count, size, got) =>
         && up == "" && Encode(Values(lookup, q)) == got + down
         && count == |Values(lookup, q)| && size == ReplySize(lookup, q)
       case AwaitParams(_) => false)
    case AwaitRequest(isKey, size) =>
      (match c
       case AwaitAck(q) => up == "" && down == [PRE_REQ_ACK] && isKey == q.isKey && size == |q.text|
       case AwaitParams(q) => up == q.text && down == "" && isKey == q.isKey && size == |q.text|
       case _ => false)
    case AwaitGo(values) =>
      (match c
       case AwaitParams(q) => up == "" && down == ParamsFor(values) && values == Values(lookup, q)
       case Collecting(q, count, size, got) =>
         && up == [RECV_PARAMS_RECVD] && down == "" && got == ""
         && values == Values(lookup, q) != [] && count == |values| && size == |Encode(values)|
       case Ready | AwaitAck(_) | Done => values == [] && up == [RECV_PARAMS_RECVD] + Opening(c) && down == ""
       case Crashed(_) => false)
    case Closed => c == Done && up == "" && down == ""
    case Failed => false
  }

  ghost predicate Paired(lookup: Lookup, s: System)
  {
    InStep(lookup, s.client, s.server, s.up, s.down)
  }

  // What has been asked and answered, and what is still to be asked.
  ghost predicate Booked(lookup: Lookup, requests: seq<Request>, s: System)
  {
    && AllServiceable(lookup, requests)
    && Answered(lookup, requests, s.replies)
    && requests[|s.replies|..] == InHand(s.client) + s.todo
    && (s.client == Done ==> s.todo == [])
    && (s.client.Crashed? ==> Outcome(lookup, s.client.q).Err?)
  }

  ghost predicate Inv(lookup: Lookup, requests: seq<Request>, s: System)
  {
    Booked(lookup, requests, s) && Paired(lookup, s)
  }

  // Unless a request is sent or read in part only.
  ghost predicate Whole(s: System, e: Event)
  {
    match e
    case ClientMoves(k) => s.client.AwaitAck? && s.down != "" ==> Portion(s.client.q.text, k) == s.client.q.text
    case ServerMoves(k) =>
      s.server.AwaitRequest? && s.up != "" ==> RequestRead(k, s.server.size, |s.up|) == s.server.size
  }

  // ---------------------------------------------------------------------
  // Every step keeps the parties in step.
  // ---------------------------------------------------------------------

  lemma {:induction false} HandServiceable(lookup: Lookup, requests: seq<Request>, s: System)
    requires Booked(lookup, requests, s) && InHand(s.client) != []
    ensures Serviceable(lookup, InHand(s.client)[0])
  {
    var q := InHand(s.client)[0];
    assert requests[|s.replies|] == requests[|s.replies|..][0] == (InHand(s.client) + s.todo)[0] == q;
  }

  // The same, when there may be none in hand.
  ghost predicate HandIsServiceable(lookup: Lookup, s: System)
  {
    InHand(s.client) != [] ==> Serviceable(lookup, InHand(s.client)[0])
  }

  lemma {:induction false} AnsweredNext(lookup: Lookup, requests: seq<Request>, replies: seq<seq<string>>, q: Request,
      todo: seq<Request>, reply: seq<string>)
    requires Answered(lookup, requests, replies) && requests[|replies|..] == [q] + todo
    requires Outcome(lookup, q) == Ok(reply)
    ensures Answered(lookup, requests, replies + [reply]) && requests[|replies| + 1..] == todo
  {
    assert requests[|replies|] == ([q] + todo)[0];
    assert requests[|replies| + 1..] == requests[|replies|..][1..];
  }

  lemma {:induction false} NoValues(lookup: Lookup, q: Request)
    requires Values(lookup, q) == []
    ensures Outcome(lookup, q) == Ok([])
  {
    SplitLast([REQ_COMPLETE], STRING_SEP);
  }

  lemma {:induction false} ParamsRead(values: seq<string>)
    ensures ParamsFor(values) != ""
    ensures ReadParams(ParamsFor(values)).Some?
    ensures ReadParams(ParamsFor(values)).value.0 == |values|
    ensures values != [] ==> ReadParams(ParamsFor(values)).value.1 == |Encode(values)|
  {
    if values == [] {
      SplitFirst("0", "0", ',');
      SplitLast("0", ',');
      assert "0,0" == "0" + [','] + "0";
    } else {
      ParamsRoundTrip(|values|, |Encode(values)|);
    }
  }

  lemma {:induction false} PreRequestFits(q: Request)
    requires |q.text| <= 999999
    ensures |PreRequest(q)| == PRE_REQ_SIZE && PreRequest(q)[0] != TERM_LINK
    ensures ReadPreRequest(PreRequest(q)) == Ok((q.isKey, |q.text|))
  {
    PreRequestIff(q);
  }

  // What each step does to the pairing.
  // A client about to begin has read everything, and the server at most its
  // last acknowledgement not yet.
  lemma {:induction false} ReadyClient(lookup: Lookup, s: System)
    requires Paired(lookup, s) && s.client.Ready?
    ensures s.down == ""
    ensures (s.server == AwaitPre && s.up == "") || (s.server == AwaitGo([]) && s.up == [RECV_PARAMS_RECVD])
  {
    assert [RECV_PARAMS_RECVD] + "" == [RECV_PARAMS_RECVD];
  }

  lemma {:induction false} ClientReady(lookup: Lookup, s: System, k: nat)
    requires Paired(lookup, s) && s.client.Ready?
    ensures ClientStep(s, k).Some? && Paired(lookup, ClientStep(s, k).value)
  {
    ReadyClient(lookup, s);
    var t := ClientStep(s, k).value;
    BeginsPaired(lookup, t, s.up);
  }

  lemma {:induction false} BeginsPaired(lookup: Lookup, t: System, was: string)
    requires (t.client.AwaitAck? || t.client == Done) && t.down == "" && t.up == was + Opening(t.client)
    requires (t.server == AwaitPre && was == "") || (t.server == AwaitGo([]) && was == [RECV_PARAMS_RECVD])
    ensures Paired(lookup, t)
  {
    assert "" + Opening(t.client) == Opening(t.client);
  }

  lemma {:induction false} ClientGetsAck(lookup: Lookup, s: System, k: nat)
    requires Paired(lookup, s) && HandIsServiceable(lookup, s) && s.client.AwaitAck? && ClientStep(s, k).Some?
    ensures ClientStep(s, k).value.client == AwaitParams(s.client.q)
    ensures Paired(lookup, ClientStep(s, k).value) <==> Whole(s, ClientMoves(k))
  {
    var q := s.client.q;
    assert [PRE_REQ_ACK][1..] == "" && "" + Portion(q.text, k) == Portion(q.text, k);
  }

  lemma {:induction false} ClientGetsParams(lookup: Lookup, s: System, k: nat)
    requires Paired(lookup, s) && HandIsServiceable(lookup, s) && s.client.AwaitParams? && ClientStep(s, k).Some?
    ensures Paired(lookup, ClientStep(s, k).value)
    ensures var q, t := s.client.q, ClientStep(s, k).value;
      if Values(lookup, q) == [] then t.client == Ready && t.replies == s.replies + [[]]
      else t.client == Collecting(q, |Values(lookup, q)|, ReplySize(lookup, q), "") && t.replies == s.replies
  {
    ParamsRead(Values(lookup, s.client.q));
    assert FirstRead(s.down, MAX_PARAMS) == s.down && AfterRead(s.down, MAX_PARAMS) == "";
  }

  lemma {:induction false} ClientCollects(lookup: Lookup, s: System, k: nat)
    requires Paired(lookup, s) && s.client.Collecting? && ClientStep(s, k).Some? && |s.client.got| < s.client.size
    ensures Paired(lookup, ClientStep(s, k).value)
    ensures var c := ClientStep(s, k).value.client; c.Collecting? && c.q == s.client.q
  {
    var n := ChunkSize(k, s.client.size - |s.client.got|, |s.down|);
    assert s.client.got + s.down == s.client.got + s.down[..n] + s.down[n..];
  }

  lemma {:induction false} ClientHasAll(lookup: Lookup, s: System, k: nat)
    requires Paired(lookup, s) && s.client.Collecting? && ClientStep(s, k).Some? && |s.client.got| >= s.client.size
    ensures Paired(lookup, ClientStep(s, k).value)
    ensures var q, t := s.client.q, ClientStep(s, k).value;
      if Outcome(lookup, q).Ok? then t.client == Ready && t.replies == s.replies + [Outcome(lookup, q).value]
      else t.client == Crashed(q) && t.replies == s.replies
  {
    assert s.client.got == Encode(Values(lookup, s.client.q));
  }

  lemma {:induction false} ServerGetsPre(lookup: Lookup, s: System, k: nat)
    requires Paired(lookup, s) && HandIsServiceable(lookup, s) && s.server.AwaitPre? && ServerStep(s, lookup, k).Some?
    ensures Paired(lookup, ServerStep(s, lookup, k).value)
  {
    if s.client.AwaitAck? {
      PreRequestFits(s.client.q);
      assert "" + [PRE_REQ_ACK] == [PRE_REQ_ACK];
    }
  }

  // A server that can read a request has all of it before it.
  lemma {:induction false} RequestThere(lookup: Lookup, s: System, k: nat)
    requires Paired(lookup, s) && HandIsServiceable(lookup, s)
    requires s.server.AwaitRequest? && ServerStep(s, lookup, k).Some?
    ensures s.client.AwaitParams? && s.up == s.client.q.text != "" && s.down == ""
    ensures s.server == AwaitRequest(s.client.q.isKey, |s.client.q.text|)
  {
  }

  // What it does with the n characters it gets.
  lemma {:induction false} RequestAnswered(lookup: Lookup, s: System, k: nat) returns (n: nat)
    requires s.client.AwaitParams? && s.up == s.client.q.text != "" && s.down == ""
    requires s.server == AwaitRequest(s.client.q.isKey, |s.client.q.text|)
    ensures n == RequestRead(k, s.server.size, |s.up|)
    ensures var values := lookup(s.client.q.isKey, Strip(s.up[..n]));
      ServerStep(s, lookup, k) == Some(s.(server := AwaitGo(values), up := s.up[n..], down := ParamsFor(values)))
  {
    n := RequestRead(k, s.server.size, |s.up|);
    var params := ParamsFor(lookup(s.client.q.isKey, Strip(s.up[..n])));
    assert "" + params == params;
  }

  lemma {:induction false} ServerGetsRequest(lookup: Lookup, s: System, k: nat)
    requires s.client.AwaitParams? && s.up == s.client.q.text != "" && s.down == ""
    requires s.server == AwaitRequest(s.client.q.isKey, |s.client.q.text|)
    ensures ServerStep(s, lookup, k).Some?
    ensures Paired(lookup, ServerStep(s, lookup, k).value) <==> Whole(s, ServerMoves(k))
  {
    var n := RequestAnswered(lookup, s, k);
    if n == |s.up| {
      assert s.up[..n] == s.up;
    } else {
      assert |s.up[n..]| > 0;
    }
  }

  lemma {:induction false} ServerGetsGo(lookup: Lookup, s: System, k: nat)
    requires Paired(lookup, s) && HandIsServiceable(lookup, s) && s.server.AwaitGo? && ServerStep(s, lookup, k).Some?
    ensures Paired(lookup, ServerStep(s, lookup, k).value)
  {
    assert ([RECV_PARAMS_RECVD] + Opening(s.client))[1..] == Opening(s.client);
    assert [RECV_PARAMS_RECVD][1..] == "";
    if s.client.Collecting? {
      assert "" + Encode(s.server.values) == Encode(s.server.values);
    }
  }

  // What each step does to the books.
  lemma {:induction false} BookRequest(lookup: Lookup, requests: seq<Request>, s: System, k: nat)
    requires Booked(lookup, requests, s) && s.client.Ready?
    ensures Booked(lookup, requests, ClientStep(s, k).value)
  {
    if s.todo != [] {
      assert [] + s.todo == [s.todo[0]] + s.todo[1..];
    }
  }

  lemma {:induction false} BookReply(lookup: Lookup, requests: seq<Request>, s: System, t: System, reply: seq<string>)
    requires Booked(lookup, requests, s) && InHand(s.client) != [] && t.client == Ready && t.todo == s.todo
    requires Outcome(lookup, InHand(s.client)[0]) == Ok(reply) && t.replies == s.replies + [reply]
    ensures Booked(lookup, requests, t)
  {
    AnsweredNext(lookup, requests, s.replies, InHand(s.client)[0], s.todo, reply);
    assert [] + t.todo == t.todo;
  }

  lemma {:induction false} BookSame(lookup: Lookup, requests: seq<Request>, s: System, t: System)
    requires Booked(lookup, requests, s) && InHand(t.client) == InHand(s.client)
    requires t.todo == s.todo && t.replies == s.replies && (t.client == Done ==> s.client == Done)
    requires t.client.Crashed? && !s.client.Crashed? ==> Outcome(lookup, t.client.q).Err?
    requires t.client.Crashed? && s.client.Crashed? ==> t.client == s.client
    ensures Booked(lookup, requests, t)
  {
  }

  lemma {:induction false} ClientBooks(lookup: Lookup, requests: seq<Request>, s: System, k: nat)
    requires Inv(lookup, requests, s) && HandIsServiceable(lookup, s) && ClientStep(s, k).Some?
    ensures Booked(lookup, requests, ClientStep(s, k).value)
  {
    var t := ClientStep(s, k).value;
    match s.client
    case Ready => BookRequest(lookup, requests, s, k);
    case AwaitAck(_) =>
      ClientGetsAck(lookup, s, k);
      BookSame(lookup, requests, s, t);
    case AwaitParams(q) =>
      ClientGetsParams(lookup, s, k);
      if Values(lookup, q) == [] {
        NoValues(lookup, q);
        BookReply(lookup, requests, s, t, []);
      } else {
        BookSame(lookup, requests, s, t);
      }
    case Collecting(q, _, _, _) =>
      if |s.client.got| < s.client.size {
        ClientCollects(lookup, s, k);
        BookSame(lookup, requests, s, t);
      } else {
        ClientHasAll(lookup, s, k);
        if Outcome(lookup, q).Ok? {
          BookReply(lookup, requests, s, t, Outcome(lookup, q).value);
        } else {
          BookSame(lookup, requests, s, t);
        }
      }
    case Done | Crashed(_) =>
  }

  lemma {:induction false} StepPairs(lookup: Lookup, s: System, e: Event)
    requires Paired(lookup, s) && HandIsServiceable(lookup, s) && Next(s, lookup, e).Some?
    ensures Paired(lookup, Next(s, lookup, e).value) <==> Whole(s, e)
  {
    match e
    case ClientMoves(k) =>
      match s.client {
        case Ready => ClientReady(lookup, s, k);
        case AwaitAck(_) => ClientGetsAck(lookup, s, k);
        case AwaitParams(_) => ClientGetsParams(lookup, s, k);
        case Collecting(_, _, size, got) =>
          if |got| < size {
            ClientCollects(lookup, s, k);
          } else {
            ClientHasAll(lookup, s, k);
          }
        case Done | Crashed(_) =>
      }
    case ServerMoves(k) =>
      match s.server {
        case AwaitPre => ServerGetsPre(lookup, s, k);
        case AwaitRequest(_, _) =>
          RequestThere(lookup, s, k);
          ServerGetsRequest(lookup, s, k);
        case AwaitGo(_) => ServerGetsGo(lookup, s, k);
        case Closed | Failed =>
      }
  }

  // Client and server stay in step exactly when no request is sent or read in
  // part only.
  lemma {:induction false} StepKeepsInvIff(lookup: Lookup, requests: seq<Request>, s: System, e: Event)
    requires Inv(lookup, requests, s) && Next(s, lookup, e).Some?
    ensures Inv(lookup, requests, Next(s, lookup, e).value) <==> Whole(s, e)
  {
    if InHand(s.client) != [] {
      HandServiceable(lookup, requests, s);
    }
    StepPairs(lookup, s, e);
    match e
    case ClientMoves(k) => ClientBooks(lookup, requests, s, k);
    case ServerMoves(k) => BookSame(lookup, requests, s, Next(s, lookup, e).value);
  }

  // ---------------------------------------------------------------------
  // Whose turn it is.
  // ---------------------------------------------------------------------

  ghost predicate ClientCanMove(s: System)
  {
    ClientStep(s, 0).Some?
  }

  ghost predicate ServerCanMove(s: System, lookup: Lookup)
  {
    ServerStep(s, lookup, 0).Some?
  }

  // The client has ended the link and the server knows, or the client could
  // not decode a reply.
  ghost predicate Ended(s: System)
  {
    (s.client == Done && s.server == Closed) || s.client.Crashed?
  }

  // Until the link has ended one of the two can move.  Both can only right
  // after an empty reply: the client does not wait for anything more then.
  lemma {:induction false} Turns(lookup: Lookup, requests: seq<Request>, s: System)
    requires Inv(lookup, requests, s)
    ensures !ClientCanMove(s) && !ServerCanMove(s, lookup) <==> Ended(s)
    ensures ClientCanMove(s) && ServerCanMove(s, lookup) <==> s.client == Ready && s.server == AwaitGo([])
  {
    if InHand(s.client) != [] {
      HandServiceable(lookup, requests, s);
    }
    PairTurns(lookup, s);
  }

  lemma {:induction false} PairTurns(lookup: Lookup, s: System)
    requires Paired(lookup, s) && HandIsServiceable(lookup, s)
    ensures !ClientCanMove(s) && !ServerCanMove(s, lookup) <==> Ended(s)
    ensures ClientCanMove(s) && ServerCanMove(s, lookup) <==> s.client == Ready && s.server == AwaitGo([])
  {
    match s.client
    case Ready => ReadyClient(lookup, s);
    case AwaitAck(q) => PreRequestFits(q);
    case AwaitParams(q) => ParamsRead(Values(lookup, q));
    case Collecting(q, count, size, got) => CollectingTurns(lookup, s);
    case Done | Crashed(_) =>
  }

  lemma {:induction false} CollectingTurns(lookup: Lookup, s: System)
    requires Paired(lookup, s) && s.client.Collecting?
    ensures ClientCanMove(s) <==> s.server == AwaitPre
    ensures ServerCanMove(s, lookup) <==> s.server.AwaitGo?
  {
    assert s.server == AwaitPre ==> |s.client.got| + |s.down| == s.client.size;
  }

  // ---------------------------------------------------------------------
  // Every run ends.
  // ---------------------------------------------------------------------

  // Steps the client still takes, and characters it still sends, for a
  // request it has not begun.
  ghost function RequestWork(lookup: Lookup, q: Request): nat
  {
    5 + ReplySize(lookup, q) + |PreRequest(q)| + |q.text|
  }

  ghost function TodoWork(lookup: Lookup, todo: seq<Request>): nat
  {
    if todo == [] then 0 else RequestWork(lookup, todo[0]) + TodoWork(lookup, todo[1..])
  }

  ghost function HandWork(lookup: Lookup, c: Client): nat
  {
    match c
    case Ready => 2
    case AwaitAck(q) => 6 + ReplySize(lookup, q) + |q.text|
    case AwaitParams(q) => 5 + ReplySize(lookup, q)
    case Collecting(_, _, size, got) => if |got| < size then 3 + size - |got| else 3
    case Done | Crashed(_) => 0
  }

  // Bounds the number of steps to come.
  ghost function Work(lookup: Lookup, s: System): nat
  {
    TodoWork(lookup, s.todo) + HandWork(lookup, s.client) + |s.up|
  }

  lemma {:induction false} BeginningWorks(lookup: Lookup, s: System, k: nat)
    requires Paired(lookup, s) && (s.client.Ready? || s.client.AwaitAck?) && ClientStep(s, k).Some?
    requires Whole(s, ClientMoves(k))
    ensures Work(lookup, ClientStep(s, k).value) < Work(lookup, s)
  {
  }

  lemma {:induction false} ParamsWork(lookup: Lookup, s: System, k: nat)
    requires Paired(lookup, s) && HandIsServiceable(lookup, s) && s.client.AwaitParams? && ClientStep(s, k).Some?
    ensures Work(lookup, ClientStep(s, k).value) < Work(lookup, s)
  {
    ClientGetsParams(lookup, s, k);
    assert |ClientStep(s, k).value.up| == |s.up| + 1;
  }

  lemma {:induction false} CollectingWorks(lookup: Lookup, s: System, k: nat)
    requires Paired(lookup, s) && s.client.Collecting? && ClientStep(s, k).Some?
    ensures Work(lookup, ClientStep(s, k).value) < Work(lookup, s)
  {
    if |s.client.got| < s.client.size {
      var n := ChunkSize(k, s.client.size - |s.client.got|, |s.down|);
    } else {
      ClientHasAll(lookup, s, k);
    }
  }

  lemma {:induction false} ClientWorks(lookup: Lookup, s: System, k: nat)
    requires Paired(lookup, s) && HandIsServiceable(lookup, s) && ClientStep(s, k).Some?
    requires Whole(s, ClientMoves(k))
    ensures Work(lookup, ClientStep(s, k).value) < Work(lookup, s)
  {
    match s.client
    case Ready | AwaitAck(_) => BeginningWorks(lookup, s, k);
    case AwaitParams(_) => ParamsWork(lookup, s, k);
    case Collecting(_, _, _, _) => CollectingWorks(lookup, s, k);
    case Done | Crashed(_) =>
  }

  // The server reads at least one character.
  lemma {:induction false} ServerWorks(lookup: Lookup, s: System, k: nat)
    requires Paired(lookup, s) && HandIsServiceable(lookup, s) && ServerStep(s, lookup, k).Some?
    ensures Work(lookup, ServerStep(s, lookup, k).value) < Work(lookup, s)
  {
    if s.server.AwaitRequest? {
      RequestThere(lookup, s, k);
    }
    assert |ServerStep(s, lookup, k).value.up| < |s.up|;
  }

  lemma {:induction false} StepKeepsAll(lookup: Lookup, requests: seq<Request>, s: System, e: Event)
    requires Inv(lookup, requests, s) && Next(s, lookup, e).Some? && Whole(s, e)
    ensures Inv(lookup, requests, Next(s, lookup, e).value)
    ensures Work(lookup, Next(s, lookup, e).value) < Work(lookup, s)
  {
    StepKeepsInvIff(lookup, requests, s, e);
    if InHand(s.client) != [] {
      HandServiceable(lookup, requests, s);
    }
    match e
    case ClientMoves(k) => ClientWorks(lookup, s, k);
    case ServerMoves(k) => ServerWorks(lookup, s, k);
  }

  // A run from the start: the states and what led from each to the next.
  ghost predicate IsRun(lookup: Lookup, requests: seq<Request>, states: seq<System>, events: seq<Event>)
  {
    IsTrace(lookup, states, events) && states[0] == Initial(requests)
  }

  ghost predicate IsTrace(lookup: Lookup, states: seq<System>, events: seq<Event>)
  {
    |states| == |events| + 1 && forall i :: 0 <= i < |events| ==> Follows(lookup, states, events, i)
  }

  ghost predicate Follows(lookup: Lookup, states: seq<System>, events: seq<Event>, i: int)
  {
    0 <= i < |events| < |states| && Next(states[i], lookup, events[i]) == Some(states[i + 1])
  }

  ghost predicate WholeAt(states: seq<System>, events: seq<Event>, i: int)
  {
    0 <= i < |events| < |states| && Whole(states[i], events[i])
  }

  // Every request sent and read before state n is sent and read in one piece.
  ghost predicate AllWhole(states: seq<System>, events: seq<Event>, n: nat)
  {
    forall i :: 0 <= i < n ==> WholeAt(states, events, i)
  }

  lemma {:induction false} InitialInv(lookup: Lookup, requests: seq<Request>)
    requires AllServiceable(lookup, requests)
    ensures Inv(lookup, requests, Initial(requests))
  {
    assert requests[0..] == [] + requests;
  }

  ghost predicate InvAt(lookup: Lookup, requests: seq<Request>, states: seq<System>, n: nat)
  {
    n < |states| && Inv(lookup, requests, states[n])
  }

  lemma {:induction false} RunStepIff(lookup: Lookup, requests: seq<Request>, states: seq<System>, events: seq<Event>,
      i: nat)
    requires IsTrace(lookup, states, events) && i < |events| && InvAt(lookup, requests, states, i)
    ensures InvAt(lookup, requests, states, i + 1) <==> WholeAt(states, events, i)
    ensures WholeAt(states, events, i) ==> Work(lookup, states[i + 1]) < Work(lookup, states[i])
  {
    assert Follows(lookup, states, events, i);
    StepKeepsInvIff(lookup, requests, states[i], events[i]);
    if Whole(states[i], events[i]) {
      StepKeepsAll(lookup, requests, states[i], events[i]);
    }
  }

  ghost predicate InvUpTo(lookup: Lookup, requests: seq<Request>, states: seq<System>, n: nat)
  {
    forall i :: 0 <= i <= n ==> InvAt(lookup, requests, states, i)
  }

  ghost function InvFlags(lookup: Lookup, requests: seq<Request>, states: seq<System>): (h: seq<bool>)
    ensures |h| == |states|
    ensures forall i :: 0 <= i < |h| ==> h[i] == InvAt(lookup, requests, states, i)
  {
    seq(|states|, i requires 0 <= i < |states| => InvAt(lookup, requests, states, i))
  }

  ghost function WholeFlags(states: seq<System>, events: seq<Event>): (w: seq<bool>)
    ensures |w| == |events|
    ensures forall i :: 0 <= i < |w| ==> w[i] == WholeAt(states, events, i)
  {
    seq(|events|, i requires 0 <= i < |events| => WholeAt(states, events, i))
  }

  lemma {:induction false} KeptIff(h: seq<bool>, w: seq<bool>, n: nat)
    requires |h| == |w| + 1 && h[0] && n <= |w|
    requires forall i :: 0 <= i < |w| ==> h[i] ==> (h[i + 1] <==> w[i])
    ensures (forall i :: 0 <= i <= n ==> h[i]) <==> forall i :: 0 <= i < n ==> w[i]
  {
    if n > 0 {
      KeptIff(h, w, n - 1);
      assert h[n - 1] ==> (h[n - 1 + 1] <==> w[n - 1]);
    }
  }

  lemma {:induction false} TraceInvIff(lookup: Lookup, requests: seq<Request>, states: seq<System>, events: seq<Event>,
      n: nat)
    requires IsTrace(lookup, states, events) && InvAt(lookup, requests, states, 0) && n < |states|
    ensures InvUpTo(lookup, requests, states, n) <==> AllWhole(states, events, n)
  {
    var h, w := InvFlags(lookup, requests, states), WholeFlags(states, events);
    forall i | 0 <= i < |w| && h[i]
      ensures h[i + 1] <==> w[i]
    {
      RunStepIff(lookup, requests, states, events, i);
    }
    KeptIff(h, w, n);
    FlagsSay(lookup, requests, states, events, n, h, w);
  }

  lemma {:induction false} FlagsSay(lookup: Lookup, requests: seq<Request>, states: seq<System>, events: seq<Event>,
      n: nat, h: seq<bool>, w: seq<bool>)
    requires h == InvFlags(lookup, requests, states) && w == WholeFlags(states, events)
    requires n < |states| == |events| + 1
    ensures InvUpTo(lookup, requests, states, n) <==> forall i :: 0 <= i <= n ==> h[i]
    ensures AllWhole(states, events, n) <==> forall i :: 0 <= i < n ==> w[i]
  {
    assert forall i :: 0 <= i <= n ==> h[i] == InvAt(lookup, requests, states, i);
    assert forall i :: 0 <= i < n ==> w[i] == WholeAt(states, events, i);
  }

  // Over every run: client and server are in step throughout exactly when no
  // request is sent or read in part only.
  lemma {:induction false} InStepIffWhole(lookup: Lookup, requests: seq<Request>, states: seq<System>,
      events: seq<Event>, n: nat)
    requires AllServiceable(lookup, requests) && IsRun(lookup, requests, states, events) && n < |states|
    ensures InvUpTo(lookup, requests, states, n) <==> AllWhole(states, events, n)
  {
    InitialInv(lookup, requests);
    TraceInvIff(lookup, requests, states, events, n);
  }

  lemma {:induction false} TraceKeepsInv(lookup: Lookup, requests: seq<Request>, states: seq<System>,
      events: seq<Event>, n: nat)
    requires IsTrace(lookup, states, events) && InvAt(lookup, requests, states, 0) && n < |states|
    requires AllWhole(states, events, n)
    ensures InvAt(lookup, requests, states, n)
  {
    TraceInvIff(lookup, requests, states, events, n);
  }

  lemma {:induction false} Descends(w: seq<nat>, n: nat)
    requires n < |w| && forall i :: 0 <= i < |w| - 1 ==> w[i] > w[i + 1]
    ensures w[n] + n <= w[0]
  {
    if n > 0 {
      Descends(w, n - 1);
      assert w[n - 1] > w[n - 1 + 1];
    }
  }

  ghost function WorkOf(lookup: Lookup, states: seq<System>): (w: seq<nat>)
    ensures |w| == |states|
    ensures forall i :: 0 <= i < |w| ==> w[i] == Work(lookup, states[i])
  {
    seq(|states|, i requires 0 <= i < |states| => Work(lookup, states[i]))
  }

  lemma {:induction false} WorkDrops(lookup: Lookup, requests: seq<Request>, states: seq<System>, events: seq<Event>,
      i: nat)
    requires IsTrace(lookup, states, events) && InvAt(lookup, requests, states, 0) && i < |events|
    requires AllWhole(states, events, |events|)
    ensures WorkOf(lookup, states)[i] > WorkOf(lookup, states)[i + 1]
  {
    TraceKeepsInv(lookup, requests, states, events, i);
    assert WholeAt(states, events, i);
    RunStepIff(lookup, requests, states, events, i);
  }

  lemma {:induction false} TraceWorks(lookup: Lookup, requests: seq<Request>, states: seq<System>, events: seq<Event>)
    requires IsTrace(lookup, states, events) && InvAt(lookup, requests, states, 0)
    requires AllWhole(states, events, |events|)
    ensures |events| <= Work(lookup, states[0])
  {
    forall i | 0 <= i < |events|
      ensures WorkOf(lookup, states)[i] > WorkOf(lookup, states)[i + 1]
    {
      WorkDrops(lookup, requests, states, events, i);
    }
    Descends(WorkOf(lookup, states), |events|);
  }

  lemma {:induction false} RunKeepsInv(lookup: Lookup, requests: seq<Request>, states: seq<System>, events: seq<Event>,
      n: nat)
    requires AllServiceable(lookup, requests) && IsRun(lookup, requests, states, events) && n < |states|
    requires AllWhole(states, events, n)
    ensures Inv(lookup, requests, states[n])
  {
    InitialInv(lookup, requests);
    TraceKeepsInv(lookup, requests, states, events, n);
  }

  // Over every run in which requests are sent and read in one piece: it ends
  // after a bounded number of steps, it does not end before client and server
  // are through, and the replies are what the client makes of the server's
  // values, in the order of the requests.
  lemma {:induction false} RunsComplete(lookup: Lookup, requests: seq<Request>, states: seq<System>, events: seq<Event>)
    requires AllServiceable(lookup, requests) && IsRun(lookup, requests, states, events)
    requires AllWhole(states, events, |events|)
    ensures |events| <= Work(lookup, Initial(requests))
    ensures var s := states[|events|];
      && Answered(lookup, requests, s.replies)
      && (!ClientCanMove(s) && !ServerCanMove(s, lookup) <==> Ended(s))
      && (s.client == Done ==> |s.replies| == |requests|)
  {
    var s := states[|events|];
    RunKeepsInv(lookup, requests, states, events, |events|);
    InitialInv(lookup, requests);
    TraceWorks(lookup, requests, states, events);
    Turns(lookup, requests, s);
    if s.client == Done {
      assert requests[|s.replies|..] == [];
    }
  }

  ghost predicate AllCarried(values: seq<string>)
  {
    forall i :: 0 <= i < |values| ==> Carried(values[i])
  }

  // When the protocol can carry all values, the client gets exactly the
  // server's lists.
  lemma {:induction false} RepliesExact(lookup: Lookup, requests: seq<Request>, states: seq<System>, events: seq<Event>)
    requires AllServiceable(lookup, requests) && IsRun(lookup, requests, states, events)
    requires AllWhole(states, events, |events|)
    requires forall i :: 0 <= i < |requests| ==> AllCarried(Values(lookup, requests[i]))
    ensures var s := states[|events|];
      && !s.client.Crashed?
      && |s.replies| <= |requests|
      && (forall i :: 0 <= i < |s.replies| ==> s.replies[i] == Values(lookup, requests[i]))
  {
    var s := states[|events|];
    RunKeepsInv(lookup, requests, states, events, |events|);
    forall i | 0 <= i < |s.replies|
      ensures s.replies[i] == Values(lookup, requests[i])
    {
      DecodeEncodeIff(Values(lookup, requests[i]));
    }
    if s.client.Crashed? {
      assert requests[|s.replies|] == (InHand(s.client) + s.todo)[0];
      DecodeEncodeIff(Values(lookup, s.client.q));
    }
  }
}
