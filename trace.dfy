/**
  The vocabulary the outbound context is observed in: identifiers, the
  failures it reports, the opaque objects it creates (requests and per-call
  queues), and one log that records, in order, every call the context makes
  into its session, every entry it registers in its request table and every
  notification it delivers to a request.

  The log functions below are defined by recursion on the LAST event, so
  that appending one event (which is all a method ever does) unfolds them
  once.
 */
module RemotingTrace {

  /** Identifiers are allocated by the session; the model only compares them. */
  type ContextId = nat
  type RequestId = nat

  /** The failure the session raises when it cannot allocate or send. */
  datatype RemotingException = RemotingException(message: string)

  /** What a user-facing operation can fail with: the hold on `Up` refused,
      or a remoting failure passed on from the session. */
  datatype Failure = IllegalState | Remoting(cause: RemotingException)

  datatype Result<T, E> = Ok(value: T) | Err(error: E)

  /** The outcome of a call that returns nothing on success. */
  datatype Outcome<E> = Pass | Fail(error: E)

  /** The remote failure a reply-exception carries. */
  datatype RemoteExecutionException = RemoteExecutionException(message: string)

  /** An in-flight request. Its own behaviour is not modelled: it is an
      object identity that remembers the identifier it was created for. */
  class OutboundRequest {
    const id: RequestId

    constructor (id: RequestId)
      ensures this.id == id
    {
      this.id := id;
    }
  }

  /** The per-call task queue of a blocking invocation, as an identity. */
  class QueueExecutor {
    constructor ()
    {
    }
  }

  /** The executor a request's completion is dispatched on: the endpoint's
      shared one, or the private queue of one blocking call. */
  datatype Executor = EndpointExecutor | CallerQueue(queue: QueueExecutor)

  /** The calls the context makes into its session. */
  datatype SessionCall<I> =
    | OpenRequestCall(context: ContextId)
    | SendRequestCall(context: ContextId, id: RequestId, request: I, executor: Executor)
    | SendCancelCall(context: ContextId, id: RequestId, mayInterrupt: bool)
    | RemoveContextCall(context: ContextId)

  /** The notifications the context delivers to a request. */
  datatype Notice<O> =
    | CloseNotice
    | ReplyNotice(reply: O)
    | ExceptionNotice(exception: RemoteExecutionException)
    | CancelAckNotice

  datatype Event<I, O> =
    | Call(call: SessionCall<I>)
    | Register(id: RequestId, request: OutboundRequest)
    | Notify(target: OutboundRequest, notice: Notice<O>)

  predicate IsRemoval<I, O>(e: Event<I, O>) {
    e.Call? && e.call.RemoveContextCall?
  }

  predicate IsCloseOf<I, O>(e: Event<I, O>, r: OutboundRequest) {
    e.Notify? && e.target == r && e.notice.CloseNotice?
  }

  /** The identifiers registered in the table somewhere in `t`. */
  function RegisteredIds<I, O>(t: seq<Event<I, O>>): set<RequestId>
  {
    if t == [] then {}
    else
      var e := t[|t| - 1];
      RegisteredIds(t[..|t| - 1]) + (if e.Register? then {e.id} else {})
  }

  /** The request objects registered in the table somewhere in `t`. */
  function RegisteredRequests<I, O>(t: seq<Event<I, O>>): set<OutboundRequest>
  {
    if t == [] then {}
    else
      var e := t[|t| - 1];
      RegisteredRequests(t[..|t| - 1]) + (if e.Register? then {e.request} else {})
  }

  /** Whether `e` may follow the events `past`: a request is transmitted only
      under an identifier registered before it, and notifications go only to
      request objects registered before them. */
  predicate Allowed<I, O>(past: seq<Event<I, O>>, e: Event<I, O>)
  {
    match e
    case Call(SendRequestCall(_, id, _, _)) => id in RegisteredIds(past)
    case Notify(r, _) => r in RegisteredRequests(past)
    case _ => true
  }

  /** Every event of `t` is allowed after the events before it. */
  predicate WellOrdered<I, O>(t: seq<Event<I, O>>)
  {
    t == [] || (WellOrdered(t[..|t| - 1]) && Allowed(t[..|t| - 1], t[|t| - 1]))
  }

  /** How many times `t` detaches a context from the session. */
  function RemoveCount<I, O>(t: seq<Event<I, O>>): nat
  {
    if t == [] then 0
    else RemoveCount(t[..|t| - 1]) + (if IsRemoval(t[|t| - 1]) then 1 else 0)
  }

  /** How many close notifications `t` delivers to `r`. */
  function CloseCount<I, O>(t: seq<Event<I, O>>, r: OutboundRequest): nat
  {
    if t == [] then 0
    else CloseCount(t[..|t| - 1], r) + (if IsCloseOf(t[|t| - 1], r) then 1 else 0)
  }

  /** The notifications of a teardown loop over `s`, in order. */
  function CloseNotices<I, O>(s: seq<OutboundRequest>): seq<Event<I, O>>
  {
    if s == [] then []
    else CloseNotices(s[..|s| - 1]) + [Notify(s[|s| - 1], CloseNotice)]
  }

  predicate Distinct(s: seq<OutboundRequest>) {
    forall i, j :: 0 <= i < j < |s| ==> s[i] != s[j]
  }

  /** Appending one event unfolds each log function once. */
  lemma Extend<I, O>(t: seq<Event<I, O>>, e: Event<I, O>)
    ensures WellOrdered(t + [e]) <==> WellOrdered(t) && Allowed(t, e)
    ensures RegisteredIds(t + [e]) == RegisteredIds(t) + (if e.Register? then {e.id} else {})
    ensures RegisteredRequests(t + [e]) == RegisteredRequests(t) + (if e.Register? then {e.request} else {})
    ensures RemoveCount(t + [e]) == RemoveCount(t) + (if IsRemoval(e) then 1 else 0)
    ensures forall r :: CloseCount(t + [e], r) == CloseCount(t, r) + (if IsCloseOf(e, r) then 1 else 0)
  {
  }

  /** `RegisteredIds` is exactly the set of identifiers of the log's
      registration events. */
  lemma {:induction false} RegisteredIdsAt<I, O>(t: seq<Event<I, O>>, id: RequestId)
    ensures id in RegisteredIds(t) <==> exists i :: 0 <= i < |t| && t[i].Register? && t[i].id == id
  {
    if t != [] {
      var p := t[..|t| - 1];
      RegisteredIdsAt(p, id);
      if id in RegisteredIds(p) {
        var i :| 0 <= i < |p| && p[i].Register? && p[i].id == id;
        assert t[i] == p[i];
      }
      if exists i :: 0 <= i < |t| && t[i].Register? && t[i].id == id {
        var i :| 0 <= i < |t| && t[i].Register? && t[i].id == id;
        if i < |p| {
          assert p[i] == t[i];
        }
      }
    }
  }

  /** `RegisteredRequests` is exactly the set of request objects of the log's
      registration events. */
  lemma {:induction false} RegisteredRequestsAt<I, O>(t: seq<Event<I, O>>, r: OutboundRequest)
    ensures r in RegisteredRequests(t) <==> exists i :: 0 <= i < |t| && t[i].Register? && t[i].request == r
  {
    if t != [] {
      var p := t[..|t| - 1];
      RegisteredRequestsAt(p, r);
      if r in RegisteredRequests(p) {
        var i :| 0 <= i < |p| && p[i].Register? && p[i].request == r;
        assert t[i] == p[i];
      }
      if exists i :: 0 <= i < |t| && t[i].Register? && t[i].request == r {
        var i :| 0 <= i < |t| && t[i].Register? && t[i].request == r;
        if i < |p| {
          assert p[i] == t[i];
        }
      }
    }
  }

  /** In a well-ordered log, every transmission of a request is preceded by a
      registration of its identifier. */
  lemma {:induction false} SendFollowsRegistration<I, O>(t: seq<Event<I, O>>, j: nat)
    requires WellOrdered(t) && j < |t|
    requires t[j].Call? && t[j].call.SendRequestCall?
    ensures exists i :: 0 <= i < j && t[i].Register? && t[i].id == t[j].call.id
  {
    var p := t[..|t| - 1];
    if j == |t| - 1 {
      RegisteredIdsAt(p, t[j].call.id);
      var i :| 0 <= i < |p| && p[i].Register? && p[i].id == t[j].call.id;
      assert t[i] == p[i];
    } else {
      assert p[j] == t[j];
      SendFollowsRegistration(p, j);
      var i :| 0 <= i < j && p[i].Register? && p[i].id == p[j].call.id;
      assert t[i] == p[i];
    }
  }

  /** In a well-ordered log, every notification goes to a request object that
      was registered before it. */
  lemma {:induction false} NotifyFollowsRegistration<I, O>(t: seq<Event<I, O>>, j: nat)
    requires WellOrdered(t) && j < |t| && t[j].Notify?
    ensures exists i :: 0 <= i < j && t[i].Register? && t[i].request == t[j].target
  {
    var p := t[..|t| - 1];
    if j == |t| - 1 {
      RegisteredRequestsAt(p, t[j].target);
      var i :| 0 <= i < |p| && p[i].Register? && p[i].request == t[j].target;
      assert t[i] == p[i];
    } else {
      assert p[j] == t[j];
      NotifyFollowsRegistration(p, j);
      var i :| 0 <= i < j && p[i].Register? && p[i].request == p[j].target;
      assert t[i] == p[i];
    }
  }

  /** A log that holds a removal event counts at least one. */
  lemma {:induction false} RemovalCounted<I, O>(t: seq<Event<I, O>>, i: nat)
    requires i < |t| && IsRemoval(t[i])
    ensures RemoveCount(t) >= 1
  {
    var p := t[..|t| - 1];
    if i < |p| {
      assert p[i] == t[i];
      RemovalCounted(p, i);
    }
  }

  /** A log that counts at most one removal holds at most one removal event. */
  lemma {:induction false} AtMostOneRemoval<I, O>(t: seq<Event<I, O>>, i: nat, j: nat)
    requires RemoveCount(t) <= 1
    requires i < |t| && j < |t| && IsRemoval(t[i]) && IsRemoval(t[j])
    ensures i == j
  {
    var p := t[..|t| - 1];
    if i < |p| && j < |p| {
      assert p[i] == t[i] && p[j] == t[j];
      AtMostOneRemoval(p, i, j);
    } else if i < |p| {
      assert p[i] == t[i];
      RemovalCounted(p, i);
    } else if j < |p| {
      assert p[j] == t[j];
      RemovalCounted(p, j);
    }
  }

  /** The teardown notifications for `s` are one close per element, in the
      order of `s`. */
  lemma {:induction false} CloseNoticesAt<I, O>(s: seq<OutboundRequest>, k: nat)
    requires k < |s|
    ensures |CloseNotices<I, O>(s)| == |s|
    ensures CloseNotices<I, O>(s)[k] == Notify(s[k], CloseNotice)
  {
    var p := s[..|s| - 1];
    if k < |p| {
      CloseNoticesAt<I, O>(p, k);
      assert p[k] == s[k];
    } else if p != [] {
      CloseNoticesAt<I, O>(p, 0);
    }
  }

  /** Appending the teardown notifications for registered requests keeps the
      log well ordered and registers, transmits and detaches nothing. */
  lemma {:induction false} AppendCloseNotices<I, O>(t: seq<Event<I, O>>, s: seq<OutboundRequest>)
    requires WellOrdered(t)
    requires forall x :: x in s ==> x in RegisteredRequests(t)
    ensures WellOrdered(t + CloseNotices<I, O>(s))
    ensures RegisteredIds(t + CloseNotices<I, O>(s)) == RegisteredIds(t)
    ensures RegisteredRequests(t + CloseNotices<I, O>(s)) == RegisteredRequests(t)
    ensures RemoveCount(t + CloseNotices<I, O>(s)) == RemoveCount(t)
  {
    if s != [] {
      var p := s[..|s| - 1];
      var x := s[|s| - 1];
      forall y | y in p ensures y in RegisteredRequests(t) {
        assert y in s;
      }
      AppendCloseNotices(t, p);
      var u := t + CloseNotices<I, O>(p);
      assert t + CloseNotices<I, O>(s) == u + [Notify(x, CloseNotice)];
      Extend(u, Notify(x, CloseNotice));
    } else {
      assert t + CloseNotices<I, O>(s) == t;
    }
  }

  /** Teardown over a snapshot without repetitions delivers exactly one close
      to each request of the snapshot, and none to anything else. */
  lemma {:induction false} CloseNoticesCount<I, O>(t: seq<Event<I, O>>, s: seq<OutboundRequest>, r: OutboundRequest)
    requires Distinct(s)
    ensures CloseCount(t + CloseNotices<I, O>(s), r) == CloseCount(t, r) + (if r in s then 1 else 0)
  {
    if s != [] {
      var p := s[..|s| - 1];
      var x := s[|s| - 1];
      CloseNoticesCount(t, p, r);
      var u := t + CloseNotices<I, O>(p);
      assert t + CloseNotices<I, O>(s) == u + [Notify(x, CloseNotice)];
      Extend(u, Notify(x, CloseNotice));
      assert r in s <==> r in p || r == x;
      assert r == x ==> r !in p;
    } else {
      assert t + CloseNotices<I, O>(s) == t;
    }
  }
}
