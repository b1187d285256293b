# Outbound context of the remoting core, modelled in Dafny

This project models `CoreOutboundContext`, the client-side half of one open
remote context in the JBoss remoting core. The context has a lifecycle state
(`UP`, then `STOPPING`). It keeps a table from request identifier to in-flight
request. It makes calls into its session: `openRequest`, `sendRequest`,
`sendCancelRequest` and `removeContext`. It also routes inbound replies,
exceptions and cancel acknowledgements to the request registered under their
identifier. The user-facing handle (`UserContext`) issues requests through the
context and closes it.

The model is imperative, like the source:

- `OutboundContext` is a class. Its fields are the `state`, the `requests`
  map, the constant `contextId`, and a ghost log `trace`.
- `trace` records, in order, every session call, every table registration
  (`put`) and every notification delivered to a request. Keeping one log
  makes orderings across these kinds statable: registration before
  transmission, and every close before `removeContext`.
- `UserContext` is a class that holds its context.
- Requests (`OutboundRequest`) and per-call queues (`QueueExecutor`) are
  identity-only objects. Their own behaviour belongs to classes that are not
  part of this model.
- The session's answers are parameters of the methods that call it. These
  are the identifier or failure from `openRequest`, the failure from
  `sendRequest`, and the boolean from `sendCancelRequest`.
- The hold on `UP` is a plain check `state == Up`, and its release does
  nothing.
- The object invariant `Valid()` states what every operation preserves:
  - the state is never `Down`;
  - no request object sits under two identifiers;
  - every table entry was registered in the log;
  - the log is well ordered: every `sendRequest` follows a registration of
    its identifier, and every notification follows a registration of its
    target;
  - the log holds no `removeContext` while `Up`, and exactly one afterwards.
    So teardown happens at most once and the state never returns to `Up`.

Files: `trace.dfy` (module `RemotingTrace`: the log vocabulary, the recursive
log functions and the lemmas about them) and `outbound_context.dfy` (module
`CoreOutboundContext`: the two classes).

Points about the code that the model makes explicit:

- The code declares the states `UP`, `STOPPING` and `DOWN`, but nothing ever
  enters `DOWN`; `Valid()` rules `Down` out.
- Nothing in the code clears the table on close (lines 69-79). Whether the
  table empties depends on the requests removing themselves, and request
  behaviour is outside the model. So in the model the table, and the
  notifications it still routes, survive teardown.
- The hold refusal and the session's failures are kept apart, as in the code:
  the session answers with a `RemotingException`; a user-facing operation fails
  with `IllegalState` when the hold on `Up` is refused, or with
  `Remoting(cause)` carrying the session's exception.

## Model

| member | source | states |
|---|---|---|
| `CoreOutboundContext.OutboundContext.constructor` | core/src/main/java/org/jboss/cx/remoting/core/CoreOutboundContext.java:28-36 | A new context is `Up` with an empty table and an empty log, and satisfies the invariant. |
| `CoreOutboundContext.RemoveIfMapped` | core/src/main/java/org/jboss/cx/remoting/core/CoreOutboundContext.java:47 | Two-argument `remove`: a key leaves only when it is `id` and maps to that very object; every other entry keeps its key and value. |
| `CoreOutboundContext.OutboundContext.DropRequest` | core/src/main/java/org/jboss/cx/remoting/core/CoreOutboundContext.java:46-48 | The table becomes that conditional removal of the old table; state and log are unchanged; the invariant is kept. |
| `CoreOutboundContext.OutboundContext.SendCancelRequest` | core/src/main/java/org/jboss/cx/remoting/core/CoreOutboundContext.java:52-60 | When not `Up`: returns false and records no session call. When `Up`: records exactly one `sendCancelRequest(contextId, id, mayInterrupt)` and returns the session's answer. |
| `CoreOutboundContext.OutboundContext.SendRequest` | core/src/main/java/org/jboss/cx/remoting/core/CoreOutboundContext.java:62-64 | Records one `sendRequest(contextId, id, request, executor)` and returns the session's outcome; table and state are unchanged. |
| `CoreOutboundContext.OutboundContext.OpenRequest` | core/src/main/java/org/jboss/cx/remoting/core/CoreOutboundContext.java:106-108 | Records one `openRequest(contextId)` and returns the session's identifier or failure. |
| `CoreOutboundContext.OutboundContext.SnapshotRequests` | core/src/main/java/org/jboss/cx/remoting/core/CoreOutboundContext.java:74 | The snapshot holds exactly the table's request objects, with no repetition while the table is injective. |
| `CoreOutboundContext.OutboundContext.ReceiveCloseContext` | core/src/main/java/org/jboss/cx/remoting/core/CoreOutboundContext.java:69-79 | When not `Up`: changes nothing. When `Up`: the state becomes `Stopping`. The log gains one close for each request of a snapshot of the table, in snapshot order, then exactly one `removeContext(contextId)`. Every request in the table receives exactly one more close, and no other object receives one. |
| `CoreOutboundContext.OutboundContext.ReceiveCancelAcknowledge` | core/src/main/java/org/jboss/cx/remoting/core/CoreOutboundContext.java:81-86 | Absent id: the log is unchanged. Present id: exactly one cancel-acknowledge notice to the request under it. The table and state never change. |
| `CoreOutboundContext.OutboundContext.ReceiveReply` | core/src/main/java/org/jboss/cx/remoting/core/CoreOutboundContext.java:88-93 | Absent id: the log is unchanged. Present id: exactly one reply notice carrying the reply, to the request under it. The table and state never change. |
| `CoreOutboundContext.OutboundContext.ReceiveException` | core/src/main/java/org/jboss/cx/remoting/core/CoreOutboundContext.java:95-102 | Absent id: the log is unchanged. Present id: exactly one exception notice carrying the exception, to the request under it. The table and state never change. |
| `CoreOutboundContext.UserContext.Close` | core/src/main/java/org/jboss/cx/remoting/core/CoreOutboundContext.java:132-134 | The same one-shot teardown as `ReceiveCloseContext`, so a second close changes nothing. |
| `CoreOutboundContext.UserContext.DoSend` | core/src/main/java/org/jboss/cx/remoting/core/CoreOutboundContext.java:140-146 | `openRequest` is always recorded. If it fails, the table is unchanged, no `sendRequest` is recorded, and the session's exception is returned as `Remoting(cause)`. Otherwise a fresh request is put under the returned id (overwriting any earlier entry), the registration is logged before that id's `sendRequest`, and the entry stays registered even when sending fails. |
| `CoreOutboundContext.UserContext.InvokeInterruptibly` | core/src/main/java/org/jboss/cx/remoting/core/CoreOutboundContext.java:156-160 | When not `Up`: fails with an illegal-state error and changes nothing. When `Up`: the `DoSend` path on a fresh per-call queue. |
| `CoreOutboundContext.UserContext.Invoke` | core/src/main/java/org/jboss/cx/remoting/core/CoreOutboundContext.java:169-173 | When not `Up`: fails with an illegal-state error and changes nothing. When `Up`: the `DoSend` path on a fresh per-call queue. |
| `CoreOutboundContext.UserContext.Send` | core/src/main/java/org/jboss/cx/remoting/core/CoreOutboundContext.java:181-194 | When not `Up`: fails without calling `openRequest` or touching the table. When `Up`: the open-register-send path on the endpoint's executor, returning the registered request (the owner of the future). |
| `RemotingTrace.SendFollowsRegistration` | core/src/main/java/org/jboss/cx/remoting/core/CoreOutboundContext.java:144-146 | In a well-ordered log (which every context keeps), every `sendRequest` for an id comes after a registration of that id. |
| `RemotingTrace.NotifyFollowsRegistration` | core/src/main/java/org/jboss/cx/remoting/core/CoreOutboundContext.java:82-98 | In a well-ordered log, every notification goes to a request object registered earlier in the log. |
| `RemotingTrace.AtMostOneRemoval` | core/src/main/java/org/jboss/cx/remoting/core/CoreOutboundContext.java:71-78 | A log counting at most one `removeContext` (the invariant) holds at most one such event, so teardown happens at most once. |
| `RemotingTrace.CloseNoticesAt` | core/src/main/java/org/jboss/cx/remoting/core/CoreOutboundContext.java:75-77 | The teardown loop's notifications are one `receiveClose` per snapshot element, in snapshot order. |
| `RemotingTrace.AppendCloseNotices` | core/src/main/java/org/jboss/cx/remoting/core/CoreOutboundContext.java:74-77 | Closing registered requests keeps the log well ordered, and registers, transmits and detaches nothing. |
| `RemotingTrace.CloseNoticesCount` | core/src/main/java/org/jboss/cx/remoting/core/CoreOutboundContext.java:74-77 | Over a snapshot without repetition, each snapshot member gets exactly one close and every other object gets none. |
| `RemotingTrace.RegisteredIdsAt` | core/src/main/java/org/jboss/cx/remoting/core/CoreOutboundContext.java:144 | An id is in the log's registered ids exactly when some registration event in the log carries it. |
| `RemotingTrace.RegisteredRequestsAt` | core/src/main/java/org/jboss/cx/remoting/core/CoreOutboundContext.java:187 | A request object is in the log's registered requests exactly when some registration event in the log carries it. |

## Left out

- `QueueExecutor` pumping (`runQueue`, and the completion notifier that shuts the queue down): this is per-thread task draining whose point is blocking, and the queue's class is not part of this model.
- `CoreOutboundContext.UserContext.Invoke`: returns the pending request instead of the reply. Running the queue and reading the future (`get`) are outside the model.
- `CoreOutboundContext.UserContext.InvokeInterruptibly`: returns the pending request instead of the reply, for the same reason. Interruption is not modelled. Up to the end of sending it is identical to `Invoke`.
- `CoreOutboundContext.UserContext.Send`: modelled as the same open-register-send step as `doSend`, on the endpoint's executor. The code repeats those lines inline at 184-189. The one thing `doSend` adds, the completion notifier, belongs to the queue and is left out.
- `CoreOutboundContext.OutboundContext.SendRequest`: requires that the id is already in the table. The source states this only as a comment on its callers (lines 145 and 188), and both callers meet it.
- Hold and release of the atomic state machine: a concurrency guard whose class is not part of this model. The hold is a check of `state == Up`, and release does nothing. Concurrent interleavings are not modelled; every operation runs to completion on its own.
- Request behaviour (`receiveClose`, `receiveReply`, future completion, a request dropping itself): the request class is not part of this model. Notifications are logged against opaque request objects, and no request is assumed to call `dropRequest`.
- The session, the endpoint and its executor: external collaborators. Their answers are parameters, their calls are log entries, and the endpoint's executor is the tag `EndpointExecutor`.
- Identifier uniqueness: the session decides it. `put` overwrites an existing entry, and the model keeps that.
- `finalize` leak detection: garbage-collector triggered.
- Trace logging of unknown-id exceptions (line 100).
- `addCloseHandler`, `getService`, `hasService`: stubs with no behaviour.
- `getAttributes` and its attribute map: a plain passthrough of a concurrent map.
- `getUserContext`: a getter. In the model a `UserContext` is constructed on its context.
- `ServiceNotFoundException` (src/main/java/org/jboss/remoting3/ServiceNotFoundException.java): only constructors delegating to the superclass, with no logic.
