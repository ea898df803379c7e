/**
 The tracker's lifecycle connection: one loop that answers requests, replays and pushes events, and
 keeps the heartbeat. Every inbound frame, timer tick and broadcast is one atomic input.
 */
module Lifecycle {
  import opened Prelude
  import opened EventRing

  const DUPLICATE_REQUEST: int := -32600
  const METHOD_NOT_FOUND: int := -32601
  const BUSY: int := -33005
  const REPLAY_GAP: int := -33007
  const HEARTBEAT_MISS_COUNT: nat := 3

  // ---- Wire values ----

  /**
   A request's method. What the database answers, the numbers drawn from the shared sequence
   counter, and the event built from them come with the input.
   */
  datatype Method =
    | Subscribe(sinceSequence: u64, subscriptionId: string)
    | Unsubscribe
    | Cancel
    | Action(outcome: string, mutation: Option<EventEnvelope>)
    | Query(document: string)
    | Unknown(name: string)

  datatype Input =
    | Request(id: string, call: Method)
    | HeartbeatFrame(now: nat)
    | ShutdownFrame
    | RefreshEvent(event: EventEnvelope)
    | IgnoredFrame
    | ZeroLengthFrame
    | StreamClosed
    | StreamError
    | HeartbeatDue(now: nat)
    | MutationReceived(event: EventEnvelope)
    | MutationLost

  datatype Payload =
    | Subscription(subscriptionId: string, events: seq<EventEnvelope>, nextSequence: u64)
    | Document(text: string)

  datatype ErrorObject = ErrorObject(code: int, gap: Option<ReplayGap>)

  datatype Outbound =
    | Response(id: string, result: Option<Payload>, error: Option<ErrorObject>)
    | Event(event: EventEnvelope)
    | Heartbeat

  function Success(id: string, payload: Payload): Outbound { Response(id, Some(payload), None) }

  function Failure(id: string, code: int, gap: Option<ReplayGap>): Outbound {
    Response(id, None, Some(ErrorObject(code, gap)))
  }

  // ---- The connection, with the whole push history in place of the ring ----

  datatype Connection = Connection(
    open: bool, seenIds: set<string>, history: seq<EventEnvelope>, activeSub: Option<string>, lastHeartbeat: nat)

  function Push(c: Connection, e: EventEnvelope): Connection {
    c.(history := c.history + [e])
  }

  /** What a push sends while a subscription is active. */
  function Live(c: Connection, e: EventEnvelope): seq<Outbound> {
    if c.activeSub.Some? then [Event(e)] else []
  }

  ghost function Handle(c: Connection, id: string, m: Method): (Connection, seq<Outbound>) {
    match m
    case Subscribe(since, subId) =>
      if c.activeSub.Some? then (c, [Failure(id, BUSY, None)])
      else (match Replay(c.history, since)
            case Err(gap) => (c, [Failure(id, REPLAY_GAP, Some(gap))])
            case Ok(events) =>
              (c.(activeSub := Some(subId)), [Success(id, Subscription(subId, events, NextSequence(c.history)))]))
    case Unsubscribe => (c.(activeSub := None), [Success(id, Document("ok"))])
    case Cancel => (c, [Success(id, Document("ok, already complete"))])
    case Action(outcome, mutation) =>
      if mutation.None? then (c, [Success(id, Document(outcome))])
      else (Push(c, mutation.value), [Success(id, Document(outcome))] + Live(c, mutation.value))
    case Query(document) => (c, [Success(id, Document(document))])
    case Unknown(_) => (c, [Failure(id, METHOD_NOT_FOUND, None)])
  }

  /** One pass of the loop. A closed connection takes no further input. */
  ghost function Step(c: Connection, interval: nat, input: Input): (Connection, seq<Outbound>) {
    if !c.open then (c, []) else
      match input
      case Request(id, m) =>
        if id in c.seenIds then (c, [Failure(id, DUPLICATE_REQUEST, None)])
        else Handle(c.(seenIds := c.seenIds + {id}), id, m)
      case HeartbeatFrame(now) => (c.(lastHeartbeat := now), [Heartbeat])
      case ShutdownFrame => (c.(open := false), [])
      case RefreshEvent(e) => (Push(c, e), Live(c, e))
      case IgnoredFrame => (c, [])
      case ZeroLengthFrame => (c, [])
      case StreamClosed => (c.(open := false), [])
      case StreamError => (c.(open := false), [])
      case HeartbeatDue(now) =>
        if now - c.lastHeartbeat >= HEARTBEAT_MISS_COUNT * interval then (c.(open := false), []) else (c, [Heartbeat])
      case MutationReceived(e) => (Push(c, e), Live(c, e))
      case MutationLost => (c, [])
  }

  ghost function Final(c: Connection, interval: nat, inputs: seq<Input>): Connection {
    if inputs == [] then c
    else Step(Final(c, interval, inputs[..|inputs| - 1]), interval, inputs[|inputs| - 1]).0
  }

  ghost function Sent(c: Connection, interval: nat, inputs: seq<Input>): seq<Outbound> {
    if inputs == [] then []
    else Sent(c, interval, inputs[..|inputs| - 1])
         + Step(Final(c, interval, inputs[..|inputs| - 1]), interval, inputs[|inputs| - 1]).1
  }

  function Fresh(now: nat): Connection {
    Connection(true, {}, [], None, now)
  }

  // ---- The loop itself ----

  /** Runs the connection on a script of inputs, with the bounded ring, and returns the frames written. */
  method RunLifecycle(inputs: seq<Input>, interval: nat, start: nat) returns (sent: seq<Outbound>)
    ensures sent == Sent(Fresh(start), interval, inputs)
  {
    var lastHeartbeat := start;
    var seenIds: set<string> := {};
    var ring := new EventRing();
    var activeSub: Option<string> := None;
    var open := true;
    sent := [];
    hide Retained, Evictions, MaxSequence, NextSequence, Replay, Handle;
    for i := 0 to |inputs|
      invariant ring.Valid() && fresh(ring)
      invariant Final(Fresh(start), interval, inputs[..i])
                == Connection(open, seenIds, ring.history, activeSub, lastHeartbeat)
      invariant sent == Sent(Fresh(start), interval, inputs[..i])
    {
      ghost var c := Final(Fresh(start), interval, inputs[..i]);
      assert inputs[..i + 1][..i] == inputs[..i];
      if !open {
        assert Step(c, interval, inputs[i]) == (c, []);
        continue;
      }
      match inputs[i] {
        case Request(id, m) =>
          if id in seenIds {
            sent := sent + [Failure(id, DUPLICATE_REQUEST, None)];
            continue;
          }
          seenIds := seenIds + {id};
          var out;
          activeSub, out := HandleRequest(ring, activeSub, id, m, c.(seenIds := seenIds));
          sent := sent + out;
        case HeartbeatFrame(now) =>
          lastHeartbeat := now;
          sent := sent + [Heartbeat];
        case ShutdownFrame => open := false;
        case RefreshEvent(e) =>
          ring.Push(e);
          if activeSub.Some? { sent := sent + [Event(e)]; }
        case IgnoredFrame =>
        case ZeroLengthFrame =>
        case StreamClosed => open := false;
        case StreamError => open := false;
        case HeartbeatDue(now) =>
          if now - lastHeartbeat >= HEARTBEAT_MISS_COUNT * interval {
            open := false;
          } else {
            sent := sent + [Heartbeat];
          }
        case MutationReceived(e) =>
          ring.Push(e);
          if activeSub.Some? { sent := sent + [Event(e)]; }
        case MutationLost =>
      }
    }
    assert inputs[..|inputs|] == inputs;
  }

  /** Executes one fresh request against the ring. */
  method HandleRequest(ring: EventRing, sub: Option<string>, id: string, m: Method, ghost c: Connection)
    returns (activeSub: Option<string>, out: seq<Outbound>)
    requires ring.Valid() && c.history == ring.history && c.activeSub == sub
    modifies ring
    ensures ring.Valid()
    ensures Handle(c, id, m) == (c.(history := ring.history, activeSub := activeSub), out)
  {
    hide Retained, Evictions, MaxSequence, NextSequence, Replay;
    activeSub := sub;
    match m {
      case Subscribe(since, subId) =>
        if activeSub.Some? {
          return activeSub, [Failure(id, BUSY, None)];
        }
        var replay := ring.Subscribe(since);
        match replay {
          case Err(gap) =>
            out := [Failure(id, REPLAY_GAP, Some(gap))];
          case Ok(events) =>
            activeSub := Some(subId);
            out := [Success(id, Subscription(subId, events, ring.nextSequence))];
        }
      case Unsubscribe =>
        activeSub := None;
        out := [Success(id, Document("ok"))];
      case Cancel =>
        out := [Success(id, Document("ok, already complete"))];
      case Action(outcome, mutation) =>
        out := [Success(id, Document(outcome))];
        if mutation.Some? {
          ring.Push(mutation.value);
          assert out + [] == out;
          if activeSub.Some? { out := out + [Event(mutation.value)]; }
        }
      case Query(document) =>
        out := [Success(id, Document(document))];
      case Unknown(_) =>
        out := [Failure(id, METHOD_NOT_FOUND, None)];
    }
  }
}
