// What happens when a request is sent or read in part only.
module ManifestShortReads {
  import opened Wrappers
  import opened ManifestCodec
  import opened ManifestLink
  import opened ManifestProtocol

  // The server has acknowledged the size of request q, in step with the
  // client.
  ghost predicate AtRequest(lookup: Lookup, requests: seq<Request>, s: System, q: Request)
  {
    && Inv(lookup, requests, s) && s.client == AwaitAck(q) && s.server.AwaitRequest?
  }

  // The request with only its first k characters.
  function Cut(q: Request, k: nat): Request
    requires k <= |q.text|
  {
    q.(text := q.text[..k])
  }

  // The client sends only the first k characters, and the server reads them
  // all: it goes on as if it had been asked the shorter request.
  ghost function AfterShortSend(s: System, lookup: Lookup, q: Request, k: nat): (t: System)
    requires s.client == AwaitAck(q) && s.server.AwaitRequest? && 0 < k <= |q.text|
  {
    s.(client := AwaitParams(q), server := AwaitGo(Values(lookup, Cut(q, k))), up := "",
       down := ParamsFor(Values(lookup, Cut(q, k))))
  }

  // What that comes to on the link.
  ghost predicate Acknowledged(s: System, q: Request)
  {
    && s.client == AwaitAck(q) && s.server == AwaitRequest(q.isKey, |q.text|)
    && s.up == "" && s.down == [PRE_REQ_ACK] && q.text != ""
  }

  lemma {:induction false} IsAcknowledged(lookup: Lookup, requests: seq<Request>, s: System, q: Request)
    requires AtRequest(lookup, requests, s, q)
    ensures Acknowledged(s, q)
  {
    HandServiceable(lookup, requests, s);
  }

  lemma {:induction false} ShortSendMoves(s: System, lookup: Lookup, q: Request, k: nat) returns (t: System)
    requires Acknowledged(s, q) && 0 < k <= |q.text|
    ensures ClientStep(s, k) == Some(t) && t.client == AwaitParams(q) && t.server == s.server
    ensures t.up == q.text[..k] && t.down == "" && t.replies == s.replies
    ensures ServerStep(t, lookup, k) == Some(AfterShortSend(s, lookup, q, k))
  {
    t := ClientStep(s, k).value;
    assert t.up == q.text[..k] && t.down == "";
    assert t.up[..k] == t.up && t.up[k..] == "";
    assert "" + ParamsFor(Values(lookup, Cut(q, k))) == ParamsFor(Values(lookup, Cut(q, k)));
  }

  // From then on client and server are in step, for the list of requests in
  // which the shorter request stands for the one the client made: a run goes
  // on to its end, and the client takes the values of the shorter request for
  // those it asked for.
  lemma {:induction false} ShortSendAsksAnother(lookup: Lookup, requests: seq<Request>, s: System, q: Request, k: nat)
    returns (t: System, u: System)
    requires AtRequest(lookup, requests, s, q) && 0 < k < |q.text| && Serviceable(lookup, Cut(q, k))
    ensures ClientStep(s, k) == Some(t) && ServerStep(t, lookup, k) == Some(u)
    ensures |s.replies| < |requests| && requests[|s.replies|] == q
    ensures Inv(lookup, requests[|s.replies| := Cut(q, k)], u.(client := AwaitParams(Cut(q, k))))
  {
    IsAcknowledged(lookup, requests, s, q);
    t := ShortSendMoves(s, lookup, q, k);
    u := AfterShortSend(s, lookup, q, k);
    BookCut(lookup, requests, s, u.(client := AwaitParams(Cut(q, k))), q, Cut(q, k));
  }

  lemma {:induction false} BookCut(lookup: Lookup, requests: seq<Request>, s: System, u: System, q: Request, r: Request)
    requires Booked(lookup, requests, s) && InHand(s.client) == [q] && Serviceable(lookup, r)
    requires u.client == AwaitParams(r) && u.todo == s.todo && u.replies == s.replies
    ensures |s.replies| < |requests| && requests[|s.replies|] == q
    ensures Booked(lookup, requests[|s.replies| := r], u)
  {
    var n := |s.replies|;
    Exchanged(requests, n, q, r, s.todo);
    StillAnswered(lookup, requests, s.replies, r);
  }

  lemma {:induction false} Exchanged(requests: seq<Request>, n: nat, q: Request, r: Request, todo: seq<Request>)
    requires n <= |requests| && requests[n..] == [q] + todo
    ensures n < |requests| && requests[n] == q && requests[n := r][n..] == [r] + todo
  {
    assert requests[n..][0] == q;
  }

  lemma {:induction false} StillAnswered(lookup: Lookup, requests: seq<Request>, replies: seq<seq<string>>, r: Request)
    requires AllServiceable(lookup, requests) && Serviceable(lookup, r) && Answered(lookup, requests, replies)
    requires |replies| < |requests|
    ensures AllServiceable(lookup, requests[|replies| := r]) && Answered(lookup, requests[|replies| := r], replies)
  {
  }

  // The client sends the whole request and the server reads only the first k
  // characters: the next one is taken for the client's acknowledgement, and
  // unless it happens to be that the server gives up.
  lemma {:induction false} PartialRead(s: System, lookup: Lookup, q: Request, k: nat)
    returns (t: System, u: System, v: System)
    requires Acknowledged(s, q) && 0 < k < |q.text|
    ensures ClientStep(s, |q.text|) == Some(t) && ServerStep(t, lookup, k) == Some(u)
    ensures Whole(s, ClientMoves(|q.text|)) && !Whole(t, ServerMoves(k)) && u.server.AwaitGo?
    ensures ServerStep(u, lookup, 0) == Some(v) && v.replies == s.replies
    ensures v.server == Failed <==> q.text[k] != RECV_PARAMS_RECVD
  {
    t := ShortSendMoves(s, lookup, q, |q.text|);
    assert q.text[..|q.text|] == q.text;
    u, v := RestIsAcknowledgement(t, lookup, q, k);
  }

  lemma {:induction false} RestIsAcknowledgement(t: System, lookup: Lookup, q: Request, k: nat)
    returns (u: System, v: System)
    requires t.client == AwaitParams(q) && t.server == AwaitRequest(q.isKey, |q.text|) && t.up == q.text
    requires 0 < k < |q.text|
    ensures ServerStep(t, lookup, k) == Some(u) && u.server.AwaitGo? && u.replies == t.replies
    ensures ServerStep(u, lookup, 0) == Some(v) && v.replies == t.replies
    ensures v.server == Failed <==> q.text[k] != RECV_PARAMS_RECVD
  {
    u := ServerStep(t, lookup, k).value;
    assert u.up == q.text[k..] && u.up[0] == q.text[k];
    v := ServerStep(u, lookup, 0).value;
  }

  // The first request's size is announced and acknowledged.
  lemma {:induction false} FirstRequestReached(lookup: Lookup, requests: seq<Request>) returns (s1: System, s2: System)
    requires AllServiceable(lookup, requests) && requests != []
    ensures var s0 := Initial(requests);
      && Next(s0, lookup, ClientMoves(0)) == Some(s1) && Next(s1, lookup, ServerMoves(0)) == Some(s2)
      && Whole(s0, ClientMoves(0)) && Whole(s1, ServerMoves(0))
    ensures Acknowledged(s2, requests[0]) && s2.replies == []
  {
    InitialInv(lookup, requests);
    s1 := ClientStep(Initial(requests), 0).value;
    StepKeepsInvIff(lookup, requests, Initial(requests), ClientMoves(0));
    PreRequestFits(requests[0]);
    s2 := ServerStep(s1, lookup, 0).value;
    StepKeepsInvIff(lookup, requests, s1, ServerMoves(0));
    IsAcknowledged(lookup, requests, s2, requests[0]);
  }

  // One more step of a run; whether the steps before it were whole stays as
  // it was.
  ghost predicate Extends(lookup: Lookup, states: seq<System>, events: seq<Event>, whole: seq<bool>)
  {
    && IsTrace(lookup, states, events) && |whole| == |events|
    && forall i :: 0 <= i < |events| ==> WholeAt(states, events, i) == whole[i]
  }

  lemma {:induction false} OneMore(lookup: Lookup, states: seq<System>, events: seq<Event>, whole: seq<bool>, e: Event,
      next: System)
    requires Extends(lookup, states, events, whole) && Next(states[|events|], lookup, e) == Some(next)
    ensures Extends(lookup, states + [next], events + [e], whole + [Whole(states[|events|], e)])
  {
    var s, v := states + [next], events + [e];
    forall i | 0 <= i < |v|
      ensures Follows(lookup, s, v, i)
      ensures WholeAt(s, v, i) == (whole + [Whole(states[|events|], e)])[i]
    {
      if i < |events| {
        assert Follows(lookup, states, events, i);
        assert WholeAt(states, events, i) == whole[i];
      }
    }
  }

  // A run from the start that ends like this, for every first request of at
  // least two characters.  Only the fourth step is not whole.
  lemma {:induction false} FailingRun(lookup: Lookup, requests: seq<Request>, k: nat)
    returns (states: seq<System>, events: seq<Event>, whole: seq<bool>)
    requires AllServiceable(lookup, requests) && requests != []
    requires 0 < k < |requests[0].text| && requests[0].text[k] != RECV_PARAMS_RECVD
    ensures IsRun(lookup, requests, states, events) && |events| == 5
    ensures states[5].server == Failed && states[5].replies == []
    ensures Extends(lookup, states, events, whole) && whole == [true, true, true, false, true]
  {
    var q, s0 := requests[0], Initial(requests);
    var s1, s2 := FirstRequestReached(lookup, requests);
    var t, u, v := PartialRead(s2, lookup, q, k);
    OneMore(lookup, [s0], [], [], ClientMoves(0), s1);
    OneMore(lookup, [s0] + [s1], [] + [ClientMoves(0)], [] + [true], ServerMoves(0), s2);
    states, events, whole := [s0] + [s1] + [s2], [] + [ClientMoves(0)] + [ServerMoves(0)], [] + [true] + [true];
    states, events, whole := LastThree(lookup, states, events, whole, t, u, v, |q.text|, k);
  }

  lemma {:induction false} LastThree(lookup: Lookup, states: seq<System>, events: seq<Event>, whole: seq<bool>,
      t: System, u: System, v: System, n: nat, k: nat) returns (s: seq<System>, e: seq<Event>, w: seq<bool>)
    requires Extends(lookup, states, events, whole)
    requires Next(states[|events|], lookup, ClientMoves(n)) == Some(t) && Whole(states[|events|], ClientMoves(n))
    requires Next(t, lookup, ServerMoves(k)) == Some(u) && !Whole(t, ServerMoves(k))
    requires Next(u, lookup, ServerMoves(0)) == Some(v) && u.server.AwaitGo?
    ensures Extends(lookup, s, e, w) && |e| == |events| + 3 && s[0] == states[0] && s[|e|] == v
    ensures w == whole + [true, false, true]
  {
    s, e, w := states + [t], events + [ClientMoves(n)], whole + [true];
    OneMore(lookup, states, events, whole, ClientMoves(n), t);
    OneMore(lookup, s, e, w, ServerMoves(k), u);
    s, e, w := s + [u], e + [ServerMoves(k)], w + [false];
    OneMore(lookup, s, e, w, ServerMoves(0), v);
    s, e, w := s + [v], e + [ServerMoves(0)], w + [true];
  }

  // ---------------------------------------------------------------------
  // Which lists of requests are safe in every run.
  // ---------------------------------------------------------------------

  // Whatever is sent and read at a time.
  ghost predicate AlwaysInStep(lookup: Lookup, requests: seq<Request>)
  {
    forall states, events :: IsRun(lookup, requests, states, events) ==> InvUpTo(lookup, requests, states, |events|)
  }

  // The client comes to this request: it can decode all replies before.
  ghost predicate Asked(lookup: Lookup, requests: seq<Request>, i: nat)
  {
    i < |requests| && forall j :: 0 <= j < i ==> Outcome(lookup, requests[j]).Ok?
  }

  ghost predicate OneCharacter(lookup: Lookup, requests: seq<Request>)
  {
    forall i: nat :: Asked(lookup, requests, i) ==> |requests[i].text| == 1
  }

  lemma {:induction false} HandAsked(lookup: Lookup, requests: seq<Request>, s: System)
    requires Booked(lookup, requests, s) && InHand(s.client) != []
    ensures Asked(lookup, requests, |s.replies|) && requests[|s.replies|] == InHand(s.client)[0]
  {
    assert requests[|s.replies|..][0] == (InHand(s.client) + s.todo)[0];
    forall j | 0 <= j < |s.replies|
      ensures Outcome(lookup, requests[j]).Ok?
    {
      assert Outcome(lookup, requests[j]) == Ok(s.replies[j]);
    }
  }

  lemma {:induction false} OneCharacterWhole(lookup: Lookup, requests: seq<Request>, s: System, e: Event)
    requires Inv(lookup, requests, s) && Next(s, lookup, e).Some? && OneCharacter(lookup, requests)
    ensures Whole(s, e)
  {
    if InHand(s.client) != [] {
      HandServiceable(lookup, requests, s);
      HandAsked(lookup, requests, s);
    }
    if e.ServerMoves? && s.server.AwaitRequest? {
      RequestThere(lookup, s, e.k);
    }
  }

  lemma {:induction false} OneCharacterStep(lookup: Lookup, requests: seq<Request>, states: seq<System>,
      events: seq<Event>, n: nat)
    requires OneCharacter(lookup, requests) && IsTrace(lookup, states, events)
    requires n < |events| && InvAt(lookup, requests, states, n)
    ensures InvAt(lookup, requests, states, n + 1)
  {
    assert Follows(lookup, states, events, n);
    OneCharacterWhole(lookup, requests, states[n], events[n]);
    StepKeepsInvIff(lookup, requests, states[n], events[n]);
  }

  lemma {:induction false} OneCharacterInStep(lookup: Lookup, requests: seq<Request>, states: seq<System>,
      events: seq<Event>, n: nat)
    requires OneCharacter(lookup, requests) && IsTrace(lookup, states, events)
    requires n < |states| && InvAt(lookup, requests, states, 0)
    ensures InvAt(lookup, requests, states, n)
    decreases n
  {
    if n > 0 {
      OneCharacterInStep(lookup, requests, states, events, n - 1);
      OneCharacterStep(lookup, requests, states, events, n - 1);
    }
  }

  // On the way to request i.
  ghost predicate Approaching(lookup: Lookup, requests: seq<Request>, s: System, i: nat)
  {
    && Inv(lookup, requests, s) && |s.replies| <= i
    && (|s.replies| == i ==> s.client.Ready? || s.client.AwaitAck?)
  }

  // It can be sent now.
  ghost predicate Arrived(s: System, i: nat)
  {
    |s.replies| == i && s.client.AwaitAck? && s.down != ""
  }

  lemma {:induction false} NotEnded(lookup: Lookup, requests: seq<Request>, s: System, i: nat)
    requires Approaching(lookup, requests, s, i) && Asked(lookup, requests, i)
    ensures ClientCanMove(s) || ServerCanMove(s, lookup)
  {
    Turns(lookup, requests, s);
    if s.client.Crashed? {
      HandAsked(lookup, requests, s);
    }
  }

  // A step that sends or reads all there is.
  lemma {:induction false} WholeMove(lookup: Lookup, requests: seq<Request>, s: System) returns (e: Event)
    requires Inv(lookup, requests, s) && (ClientCanMove(s) || ServerCanMove(s, lookup))
    ensures Next(s, lookup, e).Some? && Whole(s, e)
    ensures e.ClientMoves? <==> ClientCanMove(s)
  {
    if InHand(s.client) != [] {
      HandServiceable(lookup, requests, s);
    }
    e := if ClientCanMove(s) then ClientMoves(999999) else ServerMoves(999999);
    if e.ServerMoves? && s.server.AwaitRequest? {
      RequestThere(lookup, s, 999999);
    }
  }

  lemma {:induction false} RepliesStep(s: System, lookup: Lookup, e: Event, t: System)
    requires Next(s, lookup, e) == Some(t)
    ensures t.replies == s.replies || (|t.replies| == |s.replies| + 1 && t.client == Ready && !s.client.Ready?)
    ensures |t.replies| > |s.replies| ==> s.client.AwaitParams? || s.client.Collecting?
    ensures e.ServerMoves? ==> t.client == s.client
    ensures e.ClientMoves? && s.client.Ready? ==> if s.todo == [] then t.client == Done else t.client.AwaitAck?
  {
  }

  lemma {:induction false} StillApproaching(lookup: Lookup, requests: seq<Request>, s: System, i: nat, e: Event,
      t: System)
    requires Approaching(lookup, requests, s, i) && Asked(lookup, requests, i) && !Arrived(s, i)
    requires Next(s, lookup, e) == Some(t) && Whole(s, e)
    ensures Approaching(lookup, requests, t, i) && Work(lookup, t) < Work(lookup, s)
  {
    StepKeepsAll(lookup, requests, s, e);
    RepliesStep(s, lookup, e, t);
    if |s.replies| == i && s.client.Ready? {
      assert requests[i..] == [] + s.todo && requests[i..] != [];
    }
  }

  lemma {:induction false} RunGrows(lookup: Lookup, requests: seq<Request>, states: seq<System>, events: seq<Event>,
      e: Event, t: System)
    requires IsRun(lookup, requests, states, events) && Next(states[|events|], lookup, e) == Some(t)
    ensures IsRun(lookup, requests, states + [t], events + [e])
  {
    forall j | 0 <= j < |events| + 1
      ensures Follows(lookup, states + [t], events + [e], j)
    {
      assert j < |events| ==> Follows(lookup, states, events, j);
    }
  }

  // A run on the way to a request of more than one character can go on to
  // where only part of it is sent.
  lemma {:induction false} GoesOutOfStep(lookup: Lookup, requests: seq<Request>, i: nat, states: seq<System>,
      events: seq<Event>) returns (s: seq<System>, v: seq<Event>)
    requires IsRun(lookup, requests, states, events) && Approaching(lookup, requests, states[|events|], i)
    requires Asked(lookup, requests, i) && |requests[i].text| > 1
    ensures IsRun(lookup, requests, s, v) && !InvAt(lookup, requests, s, |v|)
    decreases Work(lookup, states[|events|])
  {
    var last := states[|events|];
    if Arrived(last, i) {
      var t := PartSent(lookup, requests, last, i);
      s, v := states + [t], events + [ClientMoves(1)];
      RunGrows(lookup, requests, states, events, ClientMoves(1), t);
    } else {
      NotEnded(lookup, requests, last, i);
      var e := WholeMove(lookup, requests, last);
      var t := Next(last, lookup, e).value;
      StillApproaching(lookup, requests, last, i, e, t);
      RunGrows(lookup, requests, states, events, e, t);
      s, v := GoesOutOfStep(lookup, requests, i, states + [t], events + [e]);
    }
  }

  lemma {:induction false} PartSent(lookup: Lookup, requests: seq<Request>, s: System, i: nat) returns (t: System)
    requires Approaching(lookup, requests, s, i) && Arrived(s, i) && i < |requests| && |requests[i].text| > 1
    ensures Next(s, lookup, ClientMoves(1)) == Some(t) && !Inv(lookup, requests, t)
  {
    HandAsked(lookup, requests, s);
    t := ClientStep(s, 1).value;
    StepKeepsInvIff(lookup, requests, s, ClientMoves(1));
  }

  // Client and server stay in step in every run exactly when every request
  // the client comes to is a single character.
  lemma {:induction false} AlwaysInStepIff(lookup: Lookup, requests: seq<Request>)
    requires AllServiceable(lookup, requests)
    ensures AlwaysInStep(lookup, requests) <==> OneCharacter(lookup, requests)
  {
    if OneCharacter(lookup, requests) {
      forall states, events | IsRun(lookup, requests, states, events)
        ensures InvUpTo(lookup, requests, states, |events|)
      {
        InitialInv(lookup, requests);
        forall n | 0 <= n <= |events|
          ensures InvAt(lookup, requests, states, n)
        {
          OneCharacterInStep(lookup, requests, states, events, n);
        }
      }
    } else {
      var i: nat :| Asked(lookup, requests, i) && |requests[i].text| != 1;
      assert Serviceable(lookup, requests[i]);
      InitialInv(lookup, requests);
      var states, events := GoesOutOfStep(lookup, requests, i, [Initial(requests)], []);
      assert !InvUpTo(lookup, requests, states, |events|);
    }
  }
}
