/**
  The client side of one open remote context: its lifecycle state, its table
  of in-flight requests, the routing of inbound protocol events to those
  requests, its one-shot teardown, and the user-facing handle that issues
  requests through it.

  The session is external: each answer it gives (an identifier or a failure
  from `openRequest`, a failure from `sendRequest`, the boolean of
  `sendCancelRequest`) is a parameter, and each call made into it is recorded
  in the ghost log `trace`. The hold on the `Up` state becomes a plain check of
  `state == Up`; its release does nothing.
 */
module CoreOutboundContext {
  import opened RemotingTrace

  /** `Down` is declared by the source but never entered. */
  datatype State = Up | Stopping | Down

  /** `ConcurrentMap.remove(key, value)`: the entry goes only when `id` maps to
      that very object; no other entry changes. */
  function RemoveIfMapped(m: map<RequestId, OutboundRequest>, id: RequestId, r: OutboundRequest)
    : (m': map<RequestId, OutboundRequest>)
    ensures forall k :: k in m' <==> k in m && !(k == id && m[k] == r)
    ensures forall k :: k in m' ==> m'[k] == m[k]
  {
    if id in m && m[id] == r then m - {id} else m
  }

  /** The request objects a snapshot of the table holds: each value once. */
  predicate IsSnapshot(s: seq<OutboundRequest>, m: map<RequestId, OutboundRequest>) {
    && Distinct(s)
    && (forall i :: 0 <= i < |s| ==> s[i] in m.Values)
    && (forall k :: k in m ==> m[k] in s)
  }

  class OutboundContext<I, O> {
    const contextId: ContextId
    var state: State
    var requests: map<RequestId, OutboundRequest>
    /** Every session call, table registration and request notification, in order. */
    ghost var trace: seq<Event<I, O>>

    /** No request object sits under two identifiers. */
    ghost predicate TableInjective()
      reads this
    {
      forall a, b :: a in requests && b in requests && requests[a] == requests[b] ==> a == b
    }

    ghost predicate Valid()
      reads this
    {
      && state != Down
      && TableInjective()
      && (forall id :: id in requests ==> id in RegisteredIds(trace) && requests[id] in RegisteredRequests(trace))
      && WellOrdered(trace)
      && RemoveCount(trace) == (if state == Up then 0 else 1)
    }

    constructor (contextId: ContextId)
      ensures Valid()
      ensures this.contextId == contextId && state == Up && requests == map[] && trace == []
    {
      this.contextId := contextId;
      state := Up;
      requests := map[];
      trace := [];
    }

    /** Forget request `r` under `id`, unless `id` has since been given to
        another request. */
    method DropRequest(id: RequestId, r: OutboundRequest)
      requires Valid()
      modifies this
      ensures Valid()
      ensures requests == RemoveIfMapped(old(requests), id, r)
      ensures state == old(state) && trace == old(trace)
    {
      requests := RemoveIfMapped(requests, id, r);
    }

    /** Ask the session to cancel request `id`; refused unless `Up`.
        `sessionAnswer` is what the session returns when asked. */
    method SendCancelRequest(id: RequestId, mayInterrupt: bool, sessionAnswer: bool) returns (sent: bool)
      requires Valid()
      modifies this
      ensures Valid() && state == old(state) && requests == old(requests)
      ensures old(state) != Up ==> !sent && trace == old(trace)
      ensures old(state) == Up ==>
        sent == sessionAnswer && trace == old(trace) + [Call(SendCancelCall(contextId, id, mayInterrupt))]
    {
      if state == Up {
        Extend(trace, Call(SendCancelCall(contextId, id, mayInterrupt)));
        trace := trace + [Call(SendCancelCall(contextId, id, mayInterrupt))];
        sent := sessionAnswer;
      } else {
        sent := false;
      }
    }

    /** Hand request `id` to the session for transmission. Only ever called
        for an identifier already in the table. */
    method SendRequest(id: RequestId, request: I, executor: Executor, sessionAnswer: Outcome<RemotingException>)
      returns (outcome: Outcome<RemotingException>)
      requires Valid() && id in requests
      modifies this
      ensures Valid() && state == old(state) && requests == old(requests)
      ensures outcome == sessionAnswer
      ensures trace == old(trace) + [Call(SendRequestCall(contextId, id, request, executor))]
    {
      Extend(trace, Call(SendRequestCall(contextId, id, request, executor)));
      trace := trace + [Call(SendRequestCall(contextId, id, request, executor))];
      outcome := sessionAnswer;
    }

    /** Ask the session for a fresh request identifier. */
    method OpenRequest(sessionAnswer: Result<RequestId, RemotingException>)
      returns (idAnswer: Result<RequestId, RemotingException>)
      requires Valid()
      modifies this
      ensures Valid() && state == old(state) && requests == old(requests)
      ensures idAnswer == sessionAnswer
      ensures trace == old(trace) + [Call(OpenRequestCall(contextId))]
    {
      Extend(trace, Call(OpenRequestCall(contextId)));
      trace := trace + [Call(OpenRequestCall(contextId))];
      idAnswer := sessionAnswer;
    }

    /** `requests.values().toArray()`: the table's request objects, each once,
        in an order the model leaves open. */
    method SnapshotRequests() returns (snapshot: seq<OutboundRequest>)
      ensures forall r :: r in snapshot <==> r in requests.Values
      ensures TableInjective() ==> Distinct(snapshot)
    {
      snapshot := [];
      ghost var taken: seq<RequestId> := [];
      var pending := requests.Keys;
      while pending != {}
        invariant pending <= requests.Keys
        invariant |taken| == |snapshot|
        invariant forall i :: 0 <= i < |taken| ==> taken[i] in requests && snapshot[i] == requests[taken[i]]
        invariant forall i, j :: 0 <= i < j < |taken| ==> taken[i] != taken[j]
        invariant forall k :: k in requests ==> (k in pending <==> k !in taken)
        decreases pending
      {
        var k :| k in pending;
        snapshot := snapshot + [requests[k]];
        taken := taken + [k];
        pending := pending - {k};
      }
      forall r | r in requests.Values ensures r in snapshot {
        var k :| k in requests && requests[k] == r;
        var i :| 0 <= i < |taken| && taken[i] == k;
        assert snapshot[i] == r;
      }
    }

    /** The remote side closed this context (also the local `close`). Only
        the caller that moves the state from `Up` to `Stopping` tears down:
        it notifies every request of a snapshot of the table, then detaches
        the context from the session. */
    method ReceiveCloseContext()
      requires Valid()
      modifies this
      ensures Valid() && requests == old(requests)
      ensures old(state) != Up ==> state == old(state) && trace == old(trace)
      ensures old(state) == Up ==> state == Stopping
      ensures old(state) == Up ==>
        exists snapshot :: IsSnapshot(snapshot, old(requests)) &&
          trace == old(trace) + CloseNotices(snapshot) + [Call(RemoveContextCall(contextId))]
      ensures old(state) == Up ==>
        forall r :: CloseCount(trace, r) == CloseCount(old(trace), r) + (if r in old(requests).Values then 1 else 0)
    {
      if state != Up {
        return;
      }
      state := Stopping;
      var requestArray := SnapshotRequests();
      for i := 0 to |requestArray|
        invariant trace == old(trace) + CloseNotices(requestArray[..i])
        invariant state == Stopping && requests == old(requests)
      {
        assert requestArray[..i + 1][..i] == requestArray[..i];
        trace := trace + [Notify(requestArray[i], CloseNotice)];
      }
      assert requestArray[..|requestArray|] == requestArray;
      ghost var closed := trace;
      forall x | x in requestArray ensures x in RegisteredRequests(old(trace)) {
        var k :| k in old(requests) && old(requests)[k] == x;
      }
      AppendCloseNotices(old(trace), requestArray);
      Extend(closed, Call(RemoveContextCall(contextId)));
      trace := trace + [Call(RemoveContextCall(contextId))];
      assert IsSnapshot(requestArray, old(requests));
      forall r ensures CloseCount(trace, r) == CloseCount(old(trace), r) + (if r in old(requests).Values then 1 else 0) {
        CloseNoticesCount(old(trace), requestArray, r);
      }
    }

    /** The peer acknowledged a cancel for `id`: passed on to the request
        under `id`, if any. */
    method ReceiveCancelAcknowledge(id: RequestId)
      requires Valid()
      modifies this
      ensures Valid() && state == old(state) && requests == old(requests)
      ensures id !in requests ==> trace == old(trace)
      ensures id in requests ==> trace == old(trace) + [Notify(requests[id], CancelAckNotice)]
    {
      if id in requests {
        var request := requests[id];
        Extend(trace, Notify(request, CancelAckNotice));
        trace := trace + [Notify(request, CancelAckNotice)];
      }
    }

    /** A reply for `id`: passed on to the request under `id`, if any. */
    method ReceiveReply(id: RequestId, reply: O)
      requires Valid()
      modifies this
      ensures Valid() && state == old(state) && requests == old(requests)
      ensures id !in requests ==> trace == old(trace)
      ensures id in requests ==> trace == old(trace) + [Notify(requests[id], ReplyNotice(reply))]
    {
      if id in requests {
        var request := requests[id];
        Extend(trace, Notify(request, ReplyNotice(reply)));
        trace := trace + [Notify(request, ReplyNotice(reply))];
      }
    }

    /** A remote exception for `id`: passed on to the request under `id`, if
        any (otherwise only traced in the source). */
    method ReceiveException(id: RequestId, exception: RemoteExecutionException)
      requires Valid()
      modifies this
      ensures Valid() && state == old(state) && requests == old(requests)
      ensures id !in requests ==> trace == old(trace)
      ensures id in requests ==> trace == old(trace) + [Notify(requests[id], ExceptionNotice(exception))]
    {
      if id in requests {
        var request := requests[id];
        Extend(trace, Notify(request, ExceptionNotice(exception)));
        trace := trace + [Notify(request, ExceptionNotice(exception))];
      }
    }
  }

  /** The user-facing handle bound to one outbound context. */
  class UserContext<I, O> {
    const context: OutboundContext<I, O>

    constructor (context: OutboundContext<I, O>)
      ensures this.context == context
    {
      this.context := context;
    }

    /** What one pass of open-register-send did, given the session's answers
        `idAnswer` and `sendAnswer`: the `openRequest` call is always made; on an
        identifier, a fresh request is put in the table under it (replacing
        any earlier entry) before `sendRequest` is made for it, and stays
        there whether or not sending fails. */
    twostate predicate SendPath(request: I, new executor: Executor,
                                idAnswer: Result<RequestId, RemotingException>,
                                sendAnswer: Outcome<RemotingException>,
                                new r: Result<OutboundRequest, Failure>)
      reads context
    {
      && context.state == old(context.state)
      && (idAnswer.Err? ==>
            && r == Err(Remoting(idAnswer.error))
            && context.requests == old(context.requests)
            && context.trace == old(context.trace) + [Call(OpenRequestCall(context.contextId))])
      && (idAnswer.Ok? ==>
            var id := idAnswer.value;
            && id in context.requests
            && fresh(context.requests[id])
            && context.requests[id].id == id
            && context.requests == old(context.requests)[id := context.requests[id]]
            && context.trace == old(context.trace) + [Call(OpenRequestCall(context.contextId)),
                                                      Register(id, context.requests[id]),
                                                      Call(SendRequestCall(context.contextId, id, request, executor))]
            && r == (if sendAnswer.Pass? then Ok(context.requests[id]) else Err(Remoting(sendAnswer.error))))
    }

    /** Close the context locally: the same one-shot teardown. */
    method Close()
      requires context.Valid()
      modifies context
      ensures context.Valid() && context.requests == old(context.requests)
      ensures old(context.state) != Up ==> context.state == old(context.state) && context.trace == old(context.trace)
      ensures old(context.state) == Up ==> context.state == Stopping
      ensures old(context.state) == Up ==>
        exists snapshot :: IsSnapshot(snapshot, old(context.requests)) &&
          context.trace == old(context.trace) + CloseNotices(snapshot) + [Call(RemoveContextCall(context.contextId))]
      ensures old(context.state) == Up ==>
        forall r :: CloseCount(context.trace, r) ==
                    CloseCount(old(context.trace), r) + (if r in old(context.requests).Values then 1 else 0)
    {
      context.ReceiveCloseContext();
    }

    /** Open an identifier, register a fresh request under it, then send. */
    method DoSend(request: I, executor: Executor,
                  idAnswer: Result<RequestId, RemotingException>, sendAnswer: Outcome<RemotingException>)
      returns (r: Result<OutboundRequest, Failure>)
      requires context.Valid()
      modifies context
      ensures context.Valid()
      ensures SendPath(request, executor, idAnswer, sendAnswer, r)
    {
      var requestIdentifier := context.OpenRequest(idAnswer);
      if requestIdentifier.Err? {
        return Err(Remoting(requestIdentifier.error));
      }
      var id := requestIdentifier.value;
      var outboundRequest := new OutboundRequest(id);
      Extend(context.trace, Register(id, outboundRequest));
      context.requests := context.requests[id := outboundRequest];
      context.trace := context.trace + [Register(id, outboundRequest)];
      // the request is sent only after its identifier is in the table
      var outcome := context.SendRequest(id, request, executor, sendAnswer);
      if outcome.Fail? {
        return Err(Remoting(outcome.error));
      }
      r := Ok(outboundRequest);
    }

    /** Blocking invocation, up to the point where the request has been sent
        on a fresh per-call queue; the result is the pending request. */
    method Invoke(request: I, idAnswer: Result<RequestId, RemotingException>, sendAnswer: Outcome<RemotingException>)
      returns (r: Result<OutboundRequest, Failure>)
      requires context.Valid()
      modifies context
      ensures context.Valid()
      ensures old(context.state) != Up ==> r == Err(IllegalState) && unchanged(context)
      ensures old(context.state) == Up ==>
        exists queue: QueueExecutor :: fresh(queue) && SendPath(request, CallerQueue(queue), idAnswer, sendAnswer, r)
    {
      if context.state != Up {
        return Err(IllegalState);
      }
      var queueExecutor := new QueueExecutor();
      r := DoSend(request, CallerQueue(queueExecutor), idAnswer, sendAnswer);
    }

    /** Interruptible blocking invocation; up to the end of sending it is the
        same as `Invoke`. */
    method InvokeInterruptibly(request: I, idAnswer: Result<RequestId, RemotingException>, sendAnswer: Outcome<RemotingException>)
      returns (r: Result<OutboundRequest, Failure>)
      requires context.Valid()
      modifies context
      ensures context.Valid()
      ensures old(context.state) != Up ==> r == Err(IllegalState) && unchanged(context)
      ensures old(context.state) == Up ==>
        exists queue: QueueExecutor :: fresh(queue) && SendPath(request, CallerQueue(queue), idAnswer, sendAnswer, r)
    {
      if context.state != Up {
        return Err(IllegalState);
      }
      var queueExecutor := new QueueExecutor();
      r := DoSend(request, CallerQueue(queueExecutor), idAnswer, sendAnswer);
    }

    /** Non-blocking invocation on the endpoint's executor; the result is the
        request whose future the caller receives. */
    method Send(request: I, idAnswer: Result<RequestId, RemotingException>, sendAnswer: Outcome<RemotingException>)
      returns (r: Result<OutboundRequest, Failure>)
      requires context.Valid()
      modifies context
      ensures context.Valid()
      ensures old(context.state) != Up ==> r == Err(IllegalState) && unchanged(context)
      ensures old(context.state) == Up ==> SendPath(request, EndpointExecutor, idAnswer, sendAnswer, r)
    {
      if context.state != Up {
        return Err(IllegalState);
      }
      r := DoSend(request, EndpointExecutor, idAnswer, sendAnswer);
    }
  }
}
