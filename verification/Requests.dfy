/** The requests of ClientContext: a request is answered once, by its response, a send error, a
  * timeout, a lost connection or the close of the client, whichever comes first. */
module Requests {
  import opened Numbers
  import opened Results

  /** A handler that is not empty; every registration has its own. */
  type Handler = nat

  datatype Outcome = Returned | Failed(error: Error)

  datatype Invocation = Invocation(handler: Handler, outcome: Outcome)

  function Handlers(s: seq<Invocation>): (h: seq<Handler>)
    ensures |h| == |s| && forall i | 0 <= i < |s| :: h[i] == s[i].handler
  {
    if s == [] then [] else [s[0].handler] + Handlers(s[1..])
  }

  /** What can happen to a client. */
  datatype Event =
    | Request(handler: Handler, sendThrows: bool)
    | Response(id: uint32, remoteError: bool)
    | SendError(id: uint32)
    | Timeout(id: uint32, stopped: bool)
    | ConnectionTest(lost: Option<Error>)   // what CheckConnection throws
    | CloseDone

  /** The outcome with which an event ends a request that waits under the id, if it does. */
  function EndsWith(e: Event, id: uint32): Option<Outcome>
  {
    match e
    case Request(_, _) => None
    case Response(i, remoteError) =>
      if i != id then None else Some(if remoteError then Failed(RemoteError) else Returned)
    case SendError(i) => if i == id then Some(Failed(ConnectionError)) else None
    case Timeout(i, stopped) => if i == id && !stopped then Some(Failed(RequestTimeout)) else None
    case ConnectionTest(lost) => if lost.Some? then Some(Failed(lost.value)) else None
    case CloseDone => Some(Failed(ConnectionError))
  }

  predicate Distinct(s: seq<Handler>) { forall i, j | 0 <= i < j < |s| :: s[i] != s[j] }

  function Without(o: map<uint32, Handler>, id: uint32): map<uint32, Handler> { o - {id} }

  ghost predicate Waits(outstanding: map<uint32, Handler>, h: Handler)
  {
    exists id :: id in outstanding && outstanding[id] == h
  }

  /** Every registered handler waits under one id or has been called once, and not both. */
  ghost predicate Accounted(outstanding: map<uint32, Handler>, called: seq<Handler>, registered: set<Handler>)
  {
    && (forall h :: h in registered <==> Waits(outstanding, h) || h in called)
    && (forall id | id in outstanding :: outstanding[id] !in called)
    && (forall i, j | i in outstanding && j in outstanding && i != j :: outstanding[i] != outstanding[j])
    && Distinct(called)
  }

  /** What an event does to the requests: those it ends are gone and their handlers called, with the
    * outcome of the event; the others wait on; and no other handler is called. */
  ghost predicate Ended(e: Event, before: map<uint32, Handler>, after: map<uint32, Handler>, was: seq<Invocation>,
                        now: seq<Invocation>)
  {
    && was <= now
    && (forall id | id in before && EndsWith(e, id).None? :: id in after && after[id] == before[id])
    && (forall id | id in before && EndsWith(e, id).Some? ::
          id !in after && Invocation(before[id], EndsWith(e, id).value) in now[|was|..])
    && forall i | |was| <= i < |now| :: CalledFor(e, before, now[i])
  }

  ghost predicate CalledFor(e: Event, before: map<uint32, Handler>, x: Invocation)
  {
    exists id :: id in before && before[id] == x.handler && EndsWith(e, id) == Some(x.outcome)
  }

  lemma OneEnded(e: Event, before: map<uint32, Handler>, id: uint32, outcome: Outcome, was: seq<Invocation>)
    requires forall j :: EndsWith(e, j) == if j == id then Some(outcome) else None
    ensures Ended(e, before, Without(before, id), was,
                  was + if id in before then [Invocation(before[id], outcome)] else [])
  {
    hide EndsWith;
    if id in before {
      var x := Invocation(before[id], outcome);
      assert (was + [x])[|was|..] == [x];
      assert CalledFor(e, before, x) by { assert EndsWith(e, id) == Some(outcome); }
    } else {
      assert was + [] == was;
    }
  }

  lemma NoneEnded(e: Event, before: map<uint32, Handler>, after: map<uint32, Handler>, was: seq<Invocation>)
    requires forall j :: EndsWith(e, j) == None
    requires forall id | id in before :: id in after && after[id] == before[id]
    ensures Ended(e, before, after, was, was)
  {
    hide EndsWith;
  }

  ghost predicate FailedOne(before: map<uint32, Handler>, x: Invocation, error: Error)
  {
    x.outcome == Failed(error) && exists id :: id in before && before[id] == x.handler
  }

  /** All of the requests have been failed in any order. */
  ghost predicate AllFailed(before: map<uint32, Handler>, was: seq<Invocation>, now: seq<Invocation>, error: Error)
  {
    && was <= now
    && (forall id | id in before :: Invocation(before[id], Failed(error)) in now[|was|..])
    && forall i | |was| <= i < |now| :: FailedOne(before, now[i], error)
  }

  lemma AllEnded(e: Event, before: map<uint32, Handler>, was: seq<Invocation>, now: seq<Invocation>, error: Error)
    requires AllFailed(before, was, now, error) && forall j :: EndsWith(e, j) == Some(Failed(error))
    ensures was <= now && Ended(e, before, map[], was, now)
  {
    hide EndsWith;
    forall i | |was| <= i < |now| ensures CalledFor(e, before, now[i]) {
      assert FailedOne(before, now[i], error);
      var id :| id in before && before[id] == now[i].handler;
      assert EndsWith(e, id) == Some(Failed(error));
    }
  }

  /** Some have been failed and the others still wait. */
  ghost predicate Failing(before: map<uint32, Handler>, after: map<uint32, Handler>, was: seq<Invocation>,
                          now: seq<Invocation>, error: Error)
  {
    && was <= now
    && (forall id | id in after :: id in before && before[id] == after[id])
    && (forall id | id in before && id !in after :: Invocation(before[id], Failed(error)) in now[|was|..])
    && forall i | |was| <= i < |now| :: FailedOne(before, now[i], error)
  }

  lemma FailsOneMore(before: map<uint32, Handler>, after: map<uint32, Handler>, was: seq<Invocation>,
                     now: seq<Invocation>, error: Error, id: uint32)
    requires Failing(before, after, was, now, error) && id in after
    ensures Failing(before, Without(after, id), was, now + [Invocation(after[id], Failed(error))], error)
  {
    var x := Invocation(after[id], Failed(error));
    assert (now + [x])[|was|..] == now[|was|..] + [x];
  }

  lemma FailsBegin(before: map<uint32, Handler>, was: seq<Invocation>, error: Error)
    ensures Failing(before, before, was, was, error)
  {
  }

  lemma FailsEnd(before: map<uint32, Handler>, was: seq<Invocation>, now: seq<Invocation>, error: Error)
    requires Failing(before, map[], was, now, error)
    ensures AllFailed(before, was, now, error)
  {
  }

  /** Every registered handler has an id, and those that wait do so under it. */
  ghost predicate Numbered(outstanding: map<uint32, Handler>, idOf: map<Handler, uint32>, registered: set<Handler>)
  {
    && idOf.Keys == registered
    && forall id | id in outstanding :: outstanding[id] in idOf && idOf[outstanding[id]] == id
  }

  lemma NumberedRequest(o: map<uint32, Handler>, idOf: map<Handler, uint32>, registered: set<Handler>, id: uint32,
                        h: Handler)
    requires Numbered(o, idOf, registered) && id !in o && h !in registered
    ensures Numbered(o[id := h], idOf[h := id], registered + {h})
  {
  }

  lemma NumberedWithout(o: map<uint32, Handler>, idOf: map<Handler, uint32>, registered: set<Handler>, id: uint32)
    requires Numbered(o, idOf, registered)
    ensures Numbered(Without(o, id), idOf, registered)
  {
  }

  lemma AccountedRequest(o: map<uint32, Handler>, called: seq<Handler>, registered: set<Handler>, id: uint32,
                         h: Handler)
    requires Accounted(o, called, registered) && id !in o && h !in registered
    ensures Accounted(o[id := h], called, registered + {h})
  {
    var o' := o[id := h];
    forall g ensures Waits(o', g) <==> Waits(o, g) || g == h {
      if Waits(o, g) {
        var k :| k in o && o[k] == g;
        assert k in o' && o'[k] == g;
      }
      assert id in o' && o'[id] == h;
    }
    forall k | k in o ensures o[k] in registered { assert Waits(o, o[k]); }
  }

  lemma AccountedCall(o: map<uint32, Handler>, called: seq<Handler>, registered: set<Handler>, id: uint32)
    requires Accounted(o, called, registered) && id in o
    ensures Accounted(Without(o, id), called + [o[id]], registered)
  {
    var o', h := Without(o, id), o[id];
    forall g ensures Waits(o, g) <==> Waits(o', g) || g == h {
      if Waits(o, g) && g != h {
        var k :| k in o && o[k] == g;
        assert k in o' && o'[k] == g;
      }
    }
  }

  lemma AllCalled(called: seq<Handler>, registered: set<Handler>)
    requires Accounted(map[], called, registered)
    ensures (forall h :: h in registered <==> h in called) && Distinct(called)
  {
  }

  class ClientContext {
    var connected: bool
    var requestNumber: uint32
    var outstanding: map<uint32, Handler>
    var connectionTestTimer: bool
    var invoked: seq<Invocation>
    ghost var registered: set<Handler>
    ghost var idOf: map<Handler, uint32>   // under which every registered handler waits or has waited

    /** The registered handlers are those that wait, each under an id of its own, and those that
      * have been called, each once. */
    ghost predicate Valid()
      reads this
    {
      && requestNumber < UINT32_MAX
      && (forall id | id in outstanding :: id < UINT32_MAX)
      && Accounted(outstanding, Handlers(invoked), registered)
      && Numbered(outstanding, idOf, registered)
      // while something waits the connection is tested
      && (outstanding != map[] ==> connectionTestTimer)
    }

    constructor (seed: uint32)
      requires seed < UINT32_MAX
      ensures Valid() && connected && outstanding == map[] && registered == {}
    {
      connected, requestNumber, outstanding, connectionTestTimer := true, seed, map[], false;
      invoked, registered, idOf := [], {}, map[];
    }

    /** The search for a free id: it ends because one exists. */
    method NextId() returns (id: uint32)
      requires Valid() && |outstanding| < UINT32_MAX
      modifies `requestNumber
      ensures Valid() && id == requestNumber < UINT32_MAX && id !in outstanding
    {
      hide Accounted, Numbered;
      ghost var free := FreeId(outstanding.Keys);
      id := Bump(requestNumber);
      requestNumber := id;
      while id in outstanding
        invariant Valid() && id == requestNumber
        decreases Away(requestNumber, free)
      {
        id := Bump(requestNumber);
        requestNumber := id;
      }
    }

    /** AsyncProcessRequest: the handler waits even when sending throws. */
    method AsyncProcessRequest(handler: Handler, sendThrows: bool) returns (r: Result<uint32>)
      requires Valid() && handler !in registered && (connected ==> |outstanding| < UINT32_MAX)
      modifies `requestNumber, `outstanding, `connectionTestTimer, `registered, `idOf
      ensures Valid()
      ensures r.Err? <==> !connected || sendThrows
      ensures !connected ==> outstanding == old(outstanding) && registered == old(registered) && idOf == old(idOf)
      ensures |outstanding| <= old(|outstanding|) + 1
      ensures connected ==>
                && registered == old(registered) + {handler}
                && exists id: uint32 :: id !in old(outstanding) && id < UINT32_MAX
                    && outstanding == old(outstanding)[id := handler] && idOf == old(idOf)[handler := id]
                    && (r.Ok? ==> r.value == id)
    {
      hide Accounted, Numbered;
      if !connected { return Err(ConnectionError); }
      var id := NextId();
      AccountedRequest(outstanding, Handlers(invoked), registered, id, handler);
      NumberedRequest(outstanding, idOf, registered, id, handler);
      OneMoreWaits(outstanding, id, handler);
      outstanding := outstanding[id := handler];
      registered := registered + {handler};
      idOf := idOf[handler := id];
      if !connectionTestTimer { connectionTestTimer := true; }
      if sendThrows { return Err(ConnectionError); }
      return Ok(id);
    }

    /** Takes the request with this id, if it waits, and calls its handler. */
    method Finish(id: uint32, outcome: Outcome)
      requires Valid()
      modifies `outstanding, `invoked
      ensures Valid()
      ensures outstanding == Without(old(outstanding), id) && |outstanding| <= old(|outstanding|)
      ensures invoked == old(invoked) + if id in old(outstanding) then [Invocation(old(outstanding)[id], outcome)]
                else []
    {
      hide Accounted, Numbered, Without;
      Smaller(outstanding, id);
      Kept(outstanding, id);
      if id !in outstanding {
        return;
      }
      var h := outstanding[id];
      AccountedCall(outstanding, Handlers(invoked), registered, id);
      NumberedWithout(outstanding, idOf, registered, id);
      HandlersAppend(invoked, Invocation(h, outcome));
      outstanding := Without(outstanding, id);
      invoked := invoked + [Invocation(h, outcome)];
    }

    /** The response branch of MessageEntryReceived; the connection is no longer tested when
      * nothing waits. */
    method ResponseReceived(id: uint32, remoteError: bool)
      requires Valid()
      modifies `outstanding, `invoked, `connectionTestTimer
      ensures Valid() && outstanding == Without(old(outstanding), id) && |outstanding| <= old(|outstanding|)
      ensures invoked == old(invoked) + if id in old(outstanding)
                                        then [Invocation(old(outstanding)[id], if remoteError then Failed(RemoteError)
                                                         else Returned)]
                                        else []
    {
      Finish(id, if remoteError then Failed(RemoteError) else Returned);
      if outstanding == map[] { connectionTestTimer := false; }
    }

    method AsyncProcessRequest_err(id: uint32)
      requires Valid()
      modifies `outstanding, `invoked
      ensures invoked == old(invoked)
                + if id in old(outstanding) then [Invocation(old(outstanding)[id], Failed(ConnectionError))] else []
      ensures Valid() && outstanding == Without(old(outstanding), id) && |outstanding| <= old(|outstanding|)
    {
      Finish(id, Failed(ConnectionError));
    }

    method AsyncProcessRequest_timeout(id: uint32, stopped: bool)
      requires Valid()
      modifies `outstanding, `invoked
      ensures invoked == old(invoked) + if !stopped && id in old(outstanding)
                                        then [Invocation(old(outstanding)[id], Failed(RequestTimeout))]
                                        else []
      ensures Valid() && |outstanding| <= old(|outstanding|)
      ensures outstanding == if stopped then old(outstanding) else Without(old(outstanding), id)
    {
      if !stopped {
        Finish(id, Failed(RequestTimeout));
      } else {
        assert invoked + [] == invoked;
      }
    }

    /** Every request that waits fails; each handler is called once, in any order. */
    method FailAll(error: Error)
      requires Valid()
      modifies `outstanding, `invoked
      ensures Valid() && outstanding == map[]
      ensures forall h | h in registered :: h in Handlers(invoked)
      ensures AllFailed(old(outstanding), old(invoked), invoked, error)
    {
      hide Accounted, Numbered, Failing, AllFailed, Without;
      FailsBegin(outstanding, invoked, error);
      while outstanding != map[]
        invariant Valid() && registered == old(registered)
        invariant Failing(old(outstanding), outstanding, old(invoked), invoked, error)
        decreases |outstanding|
      {
        var id :| id in outstanding;
        Smaller(outstanding, id);
        FailsOneMore(old(outstanding), outstanding, old(invoked), invoked, error, id);
        Finish(id, Failed(error));
      }
      FailsEnd(old(outstanding), old(invoked), invoked, error);
      AllCalled(Handlers(invoked), registered);
    }

    /** connection_test: nothing, unless the connection is lost; then every handler that waits is
      * called with what CheckConnection has thrown. */
    method TestConnection(lost: Option<Error>)
      requires Valid()
      modifies `outstanding, `invoked, `connectionTestTimer
      ensures Valid()
      ensures lost.None? ==>
                && outstanding == old(outstanding) && invoked == old(invoked)
                && connectionTestTimer == old(connectionTestTimer)
      ensures lost.Some? ==>
                && outstanding == map[] && !connectionTestTimer
                && (forall h | h in registered :: h in Handlers(invoked))
                && AllFailed(old(outstanding), old(invoked), invoked, lost.value)
    {
      hide AllFailed;
      if lost.Some? {
        FailAll(lost.value);
        connectionTestTimer := false;
      }
    }

    /** AsyncClose1: afterwards nothing waits, and every handler that waited has been called. */
    method AsyncClose1()
      requires Valid()
      modifies `connected, `outstanding, `invoked, `connectionTestTimer
      ensures Valid() && !connected && outstanding == map[] && !connectionTestTimer
      ensures forall h | h in registered :: h in Handlers(invoked)
      ensures AllFailed(old(outstanding), old(invoked), invoked, ConnectionError)
    {
      hide AllFailed;
      connected := false;
      FailAll(ConnectionError);
      connectionTestTimer := false;
    }

    method Accept(handler: Handler, sendThrows: bool)
      requires Valid() && handler !in registered && (connected ==> |outstanding| < UINT32_MAX)
      modifies `requestNumber, `outstanding, `connectionTestTimer, `registered, `idOf
      ensures Valid() && (!connected ==> |outstanding| == old(|outstanding|))
      ensures registered == if connected then old(registered) + {handler} else old(registered)
      ensures forall id | id in old(outstanding) :: id in outstanding && outstanding[id] == old(outstanding)[id]
      ensures forall h | h in old(idOf) :: h in idOf && idOf[h] == old(idOf)[h]
    {
      hide ClientContext.Valid;
      Numbers();
      var _ := AsyncProcessRequest(handler, sendThrows);
    }

    lemma Numbers()
      requires Valid()
      ensures Numbered(outstanding, idOf, registered)
    {
    }

    method Handle(e: Event)
      requires Valid() && (e.Request? ==> e.handler !in registered && (connected ==> |outstanding| < UINT32_MAX))
      modifies this
      ensures Valid() && old(invoked) <= invoked
      ensures Ended(e, old(outstanding), outstanding, old(invoked), invoked)
      ensures forall h | h in old(idOf) :: h in idOf && idOf[h] == old(idOf)[h]
      ensures connected == (old(connected) && e != CloseDone)
      ensures e == CloseDone || old(!connected && |outstanding| == 0) ==> |outstanding| == 0
      ensures registered == if e.Request? && old(connected) then old(registered) + {e.handler} else old(registered)
    {
      hide Accounted, Numbered, Handlers, Without, ClientContext.Valid, AllFailed, Ended;
      ghost var o, was := outstanding, invoked;
      match e {
        case Request(handler, sendThrows) =>
          Accept(handler, sendThrows);
          NoneEnded(e, o, outstanding, was);
        case Response(id, remoteError) =>
          OneEnded(e, o, id, if remoteError then Failed(RemoteError) else Returned, was);
          ResponseReceived(id, remoteError);
        case SendError(id) =>
          OneEnded(e, o, id, Failed(ConnectionError), was);
          AsyncProcessRequest_err(id);
        case Timeout(id, stopped) =>
          if stopped { NoneEnded(e, o, o, was); } else { OneEnded(e, o, id, Failed(RequestTimeout), was); }
          AsyncProcessRequest_timeout(id, stopped);
          assert was + [] == was;
        case ConnectionTest(lost) =>
          TestConnection(lost);
          if lost.Some? { AllEnded(e, o, was, invoked, lost.value); } else { NoneEnded(e, o, o, was); }
        case CloseDone =>
          AsyncClose1();
          AllEnded(e, o, was, invoked, ConnectionError);
      }
    }

    /** Whatever happens to a client and in whatever order: the handlers it has accepted are those of
      * the requests before the first close; each of them waits or has been called, exactly once; and
      * once the client has been closed none waits. It comes to the end of the events unless a request
      * finds no free id. */
    method Run(events: seq<Event>) returns (n: nat)
      requires Valid()
      requires NewHandlers(events, 0, registered) && OwnHandlers(events)
      modifies this
      ensures Valid() && n <= |events| && old(invoked) <= invoked
      ensures n < |events| ==> events[n].Request? && connected && |outstanding| >= UINT32_MAX
      ensures connected == OpenAfter(old(connected), events[..n])
      ensures registered == old(registered) + Accepted(old(connected), events[..n])
      ensures forall h :: h in registered <==> Waits(outstanding, h) || h in Handlers(invoked)
      ensures Distinct(Handlers(invoked)) && forall h | h in Handlers(invoked) :: !Waits(outstanding, h)
      ensures CloseDone in events[..n] ==> outstanding == map[]
      // every call is due to an event that ends the request, and has the outcome of that event
      ensures forall i | |old(invoked)| <= i < |invoked| :: Caused(events, n, idOf, invoked[i])
    {
      hide Accounted, Handlers, ClientContext.Valid, Accepted, Waits, EndsWith, AllCaused, Caused;
      n := HandleAll(events);
      Once();
      assert Comes(events, n, old(connected), connected, old(registered), registered, |outstanding|);
      Causes(events, n, idOf, |old(invoked)|, invoked);
    }

    method HandleAll(events: seq<Event>) returns (n: nat)
      requires Valid()
      requires NewHandlers(events, 0, registered) && OwnHandlers(events)
      modifies this
      ensures Valid() && n <= |events| && old(invoked) <= invoked
      ensures n < |events| ==> events[n].Request? && connected && |outstanding| >= UINT32_MAX
      ensures Comes(events, n, old(connected), connected, old(registered), registered, |outstanding|)
      ensures AllCaused(events, n, idOf, invoked[|old(invoked)|..])
    {
      hide Accounted, Handlers, ClientContext.Valid, Accepted, Waits, Ended, EndsWith, AllCaused, Numbered, Comes,
           NewHandlers, OwnHandlers;
      n := 0;
      NoEvents(events, connected, registered, |outstanding|);
      NothingCaused(events, idOf, invoked);
      while n < |events| && !(events[n].Request? && connected && |outstanding| >= UINT32_MAX)
        invariant n <= |events| && Valid() && old(invoked) <= invoked
        invariant Comes(events, n, old(connected), connected, old(registered), registered, |outstanding|)
        invariant AllCaused(events, n, idOf, invoked[|old(invoked)|..])
        invariant NewHandlers(events, n, registered)
        decreases |events| - n
      {
        ghost var open, waiting := connected, |outstanding|;
        ghost var o, was, ids, known := outstanding, invoked, idOf, registered;
        Numbers();
        HandlerIsNew(events, n, registered);
        Handle(events[n]);
        OneMoreEvent(events, n, old(connected), open, connected, old(registered), known, registered, waiting,
                     |outstanding|);
        MoreCaused(events, n, ids, idOf, o, outstanding, known, |old(invoked)|, was, invoked);
        n := n + 1;
      }
    }

    lemma Once()
      requires Valid()
      ensures forall h :: h in registered <==> Waits(outstanding, h) || h in Handlers(invoked)
      ensures Distinct(Handlers(invoked)) && forall h | h in Handlers(invoked) :: !Waits(outstanding, h)
    {
    }
  }

  /** The requests from the n-th event on come with handlers that have not been registered. */
  ghost predicate NewHandlers(events: seq<Event>, n: nat, registered: set<Handler>)
  {
    forall i | n <= i < |events| && events[i].Request? :: events[i].handler !in registered
  }

  /** Every request comes with a handler of its own. */
  ghost predicate OwnHandlers(events: seq<Event>)
  {
    forall i, j | 0 <= i < j < |events| && events[i].Request? && events[j].Request? ::
      events[i].handler != events[j].handler
  }

  lemma HandlerIsNew(events: seq<Event>, n: nat, registered: set<Handler>)
    requires NewHandlers(events, n, registered) && OwnHandlers(events) && n < |events|
    ensures events[n].Request? ==>
              events[n].handler !in registered && NewHandlers(events, n + 1, registered + {events[n].handler})
    ensures NewHandlers(events, n + 1, registered)
  {
  }

  /** Each of the calls is due to one of the first n events. */
  ghost predicate AllCaused(events: seq<Event>, n: nat, idOf: map<Handler, uint32>, calls: seq<Invocation>)
    requires n <= |events|
  {
    forall i | 0 <= i < |calls| :: Caused(events, n, idOf, calls[i])
  }

  ghost predicate Caused(events: seq<Event>, n: nat, idOf: map<Handler, uint32>, x: Invocation)
    requires n <= |events|
  {
    x.handler in idOf && exists k :: 0 <= k < n && EndsWith(events[k], idOf[x.handler]) == Some(x.outcome)
  }

  lemma NothingCaused(events: seq<Event>, idOf: map<Handler, uint32>, calls: seq<Invocation>)
    ensures AllCaused(events, 0, idOf, calls[|calls|..])
  {
  }

  lemma MoreCaused(events: seq<Event>, n: nat, ids: map<Handler, uint32>, idOf: map<Handler, uint32>,
                   before: map<uint32, Handler>, after: map<uint32, Handler>, registered: set<Handler>,
                   first: nat, was: seq<Invocation>, now: seq<Invocation>)
    requires n < |events| && first <= |was| && AllCaused(events, n, ids, was[first..])
    requires Ended(events[n], before, after, was, now) && Numbered(before, ids, registered)
    requires forall h | h in ids :: h in idOf && idOf[h] == ids[h]
    ensures AllCaused(events, n + 1, idOf, now[first..])
  {
    hide EndsWith;
    forall i | first <= i < |now| ensures Caused(events, n + 1, idOf, now[i]) {
      if i < |was| {
        assert was[first..][i - first] == now[i];
      } else {
        assert CalledFor(events[n], before, now[i]);
      }
    }
  }

  lemma Causes(events: seq<Event>, n: nat, idOf: map<Handler, uint32>, first: nat, now: seq<Invocation>)
    requires n <= |events| && first <= |now| && AllCaused(events, n, idOf, now[first..])
    ensures forall i | first <= i < |now| :: Caused(events, n, idOf, now[i])
  {
    hide Caused;
    forall i | first <= i < |now| ensures Caused(events, n, idOf, now[i]) {
      assert now[first..][i - first] == now[i];
    }
  }

  predicate OpenAfter(open: bool, events: seq<Event>) { open && CloseDone !in events }

  /** The handlers of the requests made while the client is open. */
  function Accepted(open: bool, events: seq<Event>): set<Handler>
    decreases |events|
  {
    if events == [] then {}
    else
      var front, last := events[..|events| - 1], events[|events| - 1];
      Accepted(open, front) + if last.Request? && OpenAfter(open, front) then {last.handler} else {}
  }

  /** How a client stands after the first n events, as far as they alone decide. */
  ghost predicate Comes(events: seq<Event>, n: nat, open: bool, connected: bool, before: set<Handler>,
                        registered: set<Handler>, waiting: nat)
    requires n <= |events|
  {
    && connected == OpenAfter(open, events[..n])
    && registered == before + Accepted(open, events[..n])
    && (CloseDone in events[..n] ==> !connected && waiting == 0)
  }

  lemma NoEvents(events: seq<Event>, open: bool, registered: set<Handler>, waiting: nat)
    ensures Comes(events, 0, open, open, registered, registered, waiting)
  {
  }

  lemma OneMoreEvent(events: seq<Event>, n: nat, open: bool, was: bool, connected: bool, before: set<Handler>,
                     known: set<Handler>, registered: set<Handler>, waited: nat, waiting: nat)
    requires n < |events| && Comes(events, n, open, was, before, known, waited)
    requires connected == (was && events[n] != CloseDone)
    requires events[n] == CloseDone || (!was && waited == 0) ==> waiting == 0
    requires registered == if events[n].Request? && was then known + {events[n].handler} else known
    ensures Comes(events, n + 1, open, connected, before, registered, waiting)
  {
    assert events[..n + 1] == events[..n] + [events[n]];
    assert events[..n + 1][..n] == events[..n];
  }

  function Bump(n: uint32): uint32
    requires n < UINT32_MAX
  {
    if n + 1 >= UINT32_MAX then 0 else n + 1
  }

  /** How many steps of the counter it takes from n to the id f. */
  function Away(n: uint32, f: uint32): nat
    requires n < UINT32_MAX && f < UINT32_MAX
  {
    if f >= n then f - n else f + UINT32_MAX - n
  }

  lemma RangeSize(n: nat, s: set<uint32>)
    requires n <= UINT32_MAX && forall x: uint32 | x < n :: x in s
    ensures |s| >= n
  {
    if n > 0 {
      var last: uint32 := n - 1;
      RangeSize(n - 1, s - {last});
    }
  }

  ghost function FreeId(used: set<uint32>): (f: uint32)
    requires |used| < UINT32_MAX
    ensures f < UINT32_MAX && f !in used
  {
    FreeIdExists(used);
    var f: uint32 :| f < UINT32_MAX && f !in used;
    f
  }

  lemma FreeIdExists(used: set<uint32>)
    requires |used| < UINT32_MAX
    ensures exists f: uint32 :: f < UINT32_MAX && f !in used
  {
    if forall f: uint32 | f < UINT32_MAX :: f in used {
      RangeSize(UINT32_MAX, used);
    }
  }

  lemma HandlersAppend(s: seq<Invocation>, x: Invocation)
    ensures Handlers(s + [x]) == Handlers(s) + [x.handler]
  {
  }

  lemma Kept(m: map<uint32, Handler>, id: uint32)
    ensures forall k | k in Without(m, id) :: k in m
    ensures m == map[] ==> Without(m, id) == map[]
  {
  }

  lemma OneMoreWaits(m: map<uint32, Handler>, id: uint32, h: Handler)
    ensures |m[id := h]| <= |m| + 1
  {
    assert m[id := h].Keys == m.Keys + {id};
  }

  lemma Smaller(m: map<uint32, Handler>, id: uint32)
    ensures if id in m then |Without(m, id)| < |m| else Without(m, id) == m
  {
    assert (m - {id}).Keys == m.Keys - {id};
    assert |m| == |m.Keys| && |m - {id}| == |(m - {id}).Keys|;
  }
}
