/** What holds of every run of the lifecycle connection. */
module LifecycleRuns {
  import opened Prelude
  import opened EventRing
  import opened Lifecycle
  import Framing

  // ---- Reading what was sent ----

  /** The events a frame brings to the subscriber: a replay, or one live push. */
  function EventsOf(frame: Outbound): seq<EventEnvelope> {
    match frame
    case Response(_, Some(Subscription(_, events, _)), _) => events
    case Event(e) => [e]
    case _ => []
  }

  function Delivered(sent: seq<Outbound>): seq<EventEnvelope> {
    if sent == [] then [] else Delivered(sent[..|sent| - 1]) + EventsOf(sent[|sent| - 1])
  }

  function ResponseIds(sent: seq<Outbound>): seq<string> {
    if sent == [] then [] else
      ResponseIds(sent[..|sent| - 1]) + (if sent[|sent| - 1].Response? then [sent[|sent| - 1].id] else [])
  }

  /** Answers to `id` other than the refusal of a repeated id. */
  function Executions(sent: seq<Outbound>, id: string): nat {
    if sent == [] then 0 else
      var last := sent[|sent| - 1];
      Executions(sent[..|sent| - 1], id)
      + (if last.Response? && last.id == id && !(last.error.Some? && last.error.value.code == DUPLICATE_REQUEST)
         then 1 else 0)
  }

  /** Ids of the requests taken while the connection was open, in order. */
  ghost function RequestIds(c: Connection, interval: nat, inputs: seq<Input>): seq<string> {
    if inputs == [] then [] else
      var front, last := inputs[..|inputs| - 1], inputs[|inputs| - 1];
      RequestIds(c, interval, front)
      + (if Final(c, interval, front).open && last.Request? then [last.id] else [])
  }

  lemma {:induction false} DeliveredSplit(a: seq<Outbound>, b: seq<Outbound>)
    ensures Delivered(a + b) == Delivered(a) + Delivered(b)
  {
    if b == [] {
      assert a + b == a;
    } else {
      var init, last := b[..|b| - 1], b[|b| - 1];
      assert b == init + [last];
      hide Delivered, EventsOf;
      Associate(a, init, [last]);
      DeliveredNext(a + init, last);
      DeliveredNext(init, last);
      DeliveredSplit(a, init);
      Associate(Delivered(a), Delivered(init), EventsOf(last));
    }
  }

  lemma DeliveredNext(sent: seq<Outbound>, f: Outbound)
    ensures Delivered(sent + [f]) == Delivered(sent) + EventsOf(f)
  {
    assert (sent + [f])[..|sent|] == sent;
  }

  lemma {:induction false} ResponseIdsSplit(a: seq<Outbound>, b: seq<Outbound>)
    ensures ResponseIds(a + b) == ResponseIds(a) + ResponseIds(b)
  {
    if b == [] {
      assert a + b == a;
    } else {
      assert (a + b)[..|a + b| - 1] == a + b[..|b| - 1];
      ResponseIdsSplit(a, b[..|b| - 1]);
    }
  }

  lemma {:induction false} ExecutionsSplit(a: seq<Outbound>, b: seq<Outbound>, id: string)
    ensures Executions(a + b, id) == Executions(a, id) + Executions(b, id)
  {
    if b == [] {
      assert a + b == a;
    } else {
      assert (a + b)[..|a + b| - 1] == a + b[..|b| - 1];
      ExecutionsSplit(a, b[..|b| - 1], id);
    }
  }

  lemma OneFrame(frame: Outbound, id: string)
    ensures Delivered([frame]) == EventsOf(frame)
    ensures ResponseIds([frame]) == if frame.Response? then [frame.id] else []
    ensures Executions([frame], id)
         == if frame.Response? && frame.id == id && !(frame.error.Some? && frame.error.value.code == DUPLICATE_REQUEST)
            then 1 else 0
  {
    assert [frame][..0] == [];
  }

  lemma TwoFrames(a: Outbound, b: Outbound, id: string)
    ensures Delivered([a, b]) == EventsOf(a) + EventsOf(b)
    ensures ResponseIds([a, b]) == ResponseIds([a]) + ResponseIds([b])
    ensures Executions([a, b], id) == Executions([a], id) + Executions([b], id)
  {
    assert [a, b] == [a] + [b];
    DeliveredSplit([a], [b]);
    ResponseIdsSplit([a], [b]);
    ExecutionsSplit([a], [b], id);
    OneFrame(a, id);
    OneFrame(b, id);
  }

  // ---- One step ----

  lemma StepGrows(c: Connection, interval: nat, input: Input)
    ensures var (c', sent) := Step(c, interval, input);
            && c.history <= c'.history && c.seenIds <= c'.seenIds && |sent| <= 2
            && forall f :: f in sent && f.Response? ==> (f.result.Some? <==> f.error.None?)
  {
    hide Replay, NextSequence;
  }

  /** A method's frames: its one answer, which is no refusal of a repeated id, and perhaps a pushed event. */
  lemma HandleAnswers(c: Connection, id: string, m: Method)
    ensures var (c', sent) := Handle(c, id, m);
            && c'.seenIds == c.seenIds && 1 <= |sent| <= 2 && (|sent| == 2 ==> sent[1].Event?)
            && sent[0].Response? && sent[0].id == id
            && (sent[0].error.Some? ==> sent[0].error.value.code != DUPLICATE_REQUEST)
  {
    hide Replay, NextSequence;
  }

  lemma StepAnswers(c: Connection, interval: nat, input: Input, id: string)
    ensures var (c', sent) := Step(c, interval, input);
            && ResponseIds(sent) == (if c.open && input.Request? then [input.id] else [])
            && Executions(sent, id) == (if id in c'.seenIds && id !in c.seenIds then 1 else 0)
  {
    assert ResponseIds([]) == [] && Executions([], id) == 0;
    hide Handle, Delivered, EventsOf, ResponseIds, Executions;
    var (_, sent) := Step(c, interval, input);
    if c.open && input.Request? && input.id !in c.seenIds {
      HandleAnswers(c.(seenIds := c.seenIds + {input.id}), input.id, input.call);
    }
    assert sent == [] || sent == [sent[0]] || sent == [sent[0], sent[1]];
    if |sent| == 1 { OneFrame(sent[0], id); }
    if |sent| == 2 {
      TwoFrames(sent[0], sent[1], id);
      OneFrame(sent[0], id);
      OneFrame(sent[1], id);
    }
  }

  /** The facts about a step that the run properties are built from. */
  lemma StepFacts(c: Connection, interval: nat, input: Input, id: string)
    ensures var (c', sent) := Step(c, interval, input);
            && c.history <= c'.history
            && ResponseIds(sent) == (if c.open && input.Request? then [input.id] else [])
            && (forall f :: f in sent && f.Response? ==> (f.result.Some? <==> f.error.None?))
            && c.seenIds <= c'.seenIds
            && Executions(sent, id) == (if id in c'.seenIds && id !in c.seenIds then 1 else 0)
  {
    hide Step;
    StepGrows(c, interval, input);
    StepAnswers(c, interval, input, id);
  }

  /** While a subscription is active and stays so, a step sends exactly the events it pushes. */
  lemma StepPushesLive(c: Connection, interval: nat, input: Input)
    requires c.activeSub.Some? && Step(c, interval, input).0.activeSub.Some?
    ensures var (c', sent) := Step(c, interval, input);
            && Delivered(sent) == c'.history[|c.history|..]
            && forall f :: f in sent ==> !(f.Response? && f.result.Some? && f.result.value.Subscription?)
  {
    assert Delivered([]) == [];
    hide Replay, NextSequence, Delivered, ResponseIds, Executions;
    var (c', sent) := Step(c, interval, input);
    assert sent == [] || sent == [sent[0]] || sent == [sent[0], sent[1]];
    if |sent| == 1 { OneFrame(sent[0], ""); }
    if |sent| == 2 { TwoFrames(sent[0], sent[1], ""); }
  }

  lemma {:induction false} RunSplit(c: Connection, interval: nat, a: seq<Input>, b: seq<Input>)
    ensures Final(c, interval, a + b) == Final(Final(c, interval, a), interval, b)
    ensures Sent(c, interval, a + b) == Sent(c, interval, a) + Sent(Final(c, interval, a), interval, b)
  {
    hide Step;
    if b == [] {
      assert a + b == a;
    } else {
      assert (a + b)[..|a + b| - 1] == a + b[..|b| - 1];
      RunSplit(c, interval, a, b[..|b| - 1]);
    }
  }

  /** Every request handled is answered once, in order, with a result or an error but not both. */
  lemma {:induction false} OneResponseEach(c: Connection, interval: nat, inputs: seq<Input>)
    ensures ResponseIds(Sent(c, interval, inputs)) == RequestIds(c, interval, inputs)
    ensures forall f :: f in Sent(c, interval, inputs) && f.Response? ==> (f.result.Some? <==> f.error.None?)
  {
    hide Step;
    if inputs != [] {
      var front, last := inputs[..|inputs| - 1], inputs[|inputs| - 1];
      OneResponseEach(c, interval, front);
      StepFacts(Final(c, interval, front), interval, last, "");
      ResponseIdsSplit(Sent(c, interval, front), Step(Final(c, interval, front), interval, last).1);
    }
  }

  /** However often an id is sent, its method runs once: when the id is first seen. */
  lemma {:induction false} ExecutedOnce(c: Connection, interval: nat, inputs: seq<Input>, id: string)
    ensures c.seenIds <= Final(c, interval, inputs).seenIds
    ensures Executions(Sent(c, interval, inputs), id)
         == if id in Final(c, interval, inputs).seenIds && id !in c.seenIds then 1 else 0
  {
    hide Step;
    if inputs != [] {
      var front, last := inputs[..|inputs| - 1], inputs[|inputs| - 1];
      ExecutedOnce(c, interval, front, id);
      StepFacts(Final(c, interval, front), interval, last, id);
      ExecutionsSplit(Sent(c, interval, front), Step(Final(c, interval, front), interval, last).1, id);
    }
  }

  lemma {:induction false} HistoryGrows(c: Connection, interval: nat, inputs: seq<Input>)
    ensures c.history <= Final(c, interval, inputs).history
  {
    hide Step;
    if inputs != [] {
      var front, last := inputs[..|inputs| - 1], inputs[|inputs| - 1];
      HistoryGrows(c, interval, front);
      StepFacts(Final(c, interval, front), interval, last, "");
    }
  }

  // ---- Liveness of the peer ----

  function LatestHeartbeat(start: nat, inputs: seq<Input>): nat {
    if inputs == [] then start
    else match inputs[|inputs| - 1]
      case HeartbeatFrame(now) => now
      case _ => LatestHeartbeat(start, inputs[..|inputs| - 1])
  }

  lemma {:induction false} HeartbeatTracked(c: Connection, interval: nat, inputs: seq<Input>)
    requires Final(c, interval, inputs).open
    ensures Final(c, interval, inputs).lastHeartbeat == LatestHeartbeat(c.lastHeartbeat, inputs)
  {
    hide Replay, NextSequence;
    if inputs != [] {
      HeartbeatTracked(c, interval, inputs[..|inputs| - 1]);
    }
  }

  lemma TickCloses(d: Connection, interval: nat, now: nat)
    requires d.open
    ensures Step(d, interval, HeartbeatDue(now)).0.open <==> now - d.lastHeartbeat < HEARTBEAT_MISS_COUNT * interval
  {
    hide Handle;
  }

  /** In any run, a tick ends an open connection exactly when the peer's latest heartbeat is three intervals old. */
  lemma SilenceCloses(c: Connection, interval: nat, inputs: seq<Input>, now: nat)
    requires Final(c, interval, inputs).open
    ensures Final(c, interval, inputs + [HeartbeatDue(now)]).open
            <==> now - LatestHeartbeat(c.lastHeartbeat, inputs) < HEARTBEAT_MISS_COUNT * interval
  {
    HeartbeatTracked(c, interval, inputs);
    var d, tick := Final(c, interval, inputs), HeartbeatDue(now);
    assert (inputs + [tick])[..|inputs|] == inputs;
    assert Final(c, interval, inputs + [tick]) == Step(d, interval, tick).0;
    TickCloses(d, interval, now);
  }

  /** The subscription is active now and after every input of the run. */
  ghost predicate Subscribed(c: Connection, interval: nat, inputs: seq<Input>) {
    forall k :: 0 <= k <= |inputs| ==> Final(c, interval, inputs[..k]).activeSub.Some?
  }

  /** As long as a subscription lasts, exactly the later pushes arrive, and no second subscription is granted. */
  lemma {:induction false} LivePushIsComplete(c: Connection, interval: nat, inputs: seq<Input>)
    requires Subscribed(c, interval, inputs)
    ensures c.history <= Final(c, interval, inputs).history
    ensures Delivered(Sent(c, interval, inputs)) == Final(c, interval, inputs).history[|c.history|..]
    ensures forall f :: f in Sent(c, interval, inputs) ==>
              !(f.Response? && f.result.Some? && f.result.value.Subscription?)
  {
    hide Step, Delivered;
    if inputs == [] {
      assert inputs[..0] == [];
      NothingDelivered();
    } else {
      var n := |inputs| - 1;
      var front, last := inputs[..n], inputs[n];
      var d := Final(c, interval, front);
      assert Subscribed(c, interval, front) by {
        forall k | 0 <= k <= n
          ensures Final(c, interval, front[..k]).activeSub.Some? { assert front[..k] == inputs[..k]; }
      }
      assert inputs[..n + 1] == inputs;
      LivePushIsComplete(c, interval, front);
      StepPushesLive(d, interval, last);
      StepFacts(d, interval, last, "");
      DeliveredSplit(Sent(c, interval, front), Step(d, interval, last).1);
      TailSplit(c.history, d.history, Step(d, interval, last).0.history);
    }
  }

  lemma NothingDelivered()
    ensures Delivered([]) == []
  {
  }

  // ---- Streams ----

  /** One subscription: its request, and the inputs up to some later moment. */
  datatype Stint = Stint(id: string, since: u64, subId: string, rest: seq<Input>) {
    function Opening(): Input { Request(id, Subscribe(since, subId)) }

    function Inputs(): seq<Input> { [Opening()] + rest }
  }

  /** The request is granted and the subscription still active at the end. */
  ghost predicate Session(c: Connection, interval: nat, stint: Stint) {
    && c.open && stint.id !in c.seenIds && c.activeSub.None? && Replay(c.history, stint.since).Ok?
    && Subscribed(Step(c, interval, stint.Opening()).0, interval, stint.rest)
  }

  /** What a granted request replays. */
  ghost function Replayed(h: seq<EventEnvelope>, since: u64): seq<EventEnvelope> {
    if since == 0 then Retained(h) else FromSequence(h, since)
  }

  ghost function Heard(c: Connection, interval: nat, stint: Stint): seq<EventEnvelope> {
    Delivered(Sent(c, interval, stint.Inputs()))
  }

  ghost function After(c: Connection, interval: nat, stint: Stint): Connection {
    Final(c, interval, stint.Inputs())
  }

  lemma GrantedStep(c: Connection, interval: nat, stint: Stint)
    requires Session(c, interval, stint)
    ensures var (c', sent) := Step(c, interval, stint.Opening());
            c'.history == c.history && Delivered(sent) == Replayed(c.history, stint.since)
  {
    var (_, sent) := Step(c, interval, stint.Opening());
    OneFrame(sent[0], "");
    hide Delivered;
  }

  /** Replay followed by live push loses nothing and repeats nothing. */
  lemma StreamIsComplete(c: Connection, interval: nat, stint: Stint)
    requires Session(c, interval, stint)
    ensures var h, after := c.history, After(c, interval, stint).history;
            h <= after && Heard(c, interval, stint) == Replayed(h, stint.since) + after[|h|..]
  {
    hide Step, Replayed, Replay;
    var request := stint.Opening();
    var c' := Step(c, interval, request).0;
    GrantedStep(c, interval, stint);
    assert [request][..0] == [];
    assert Final(c, interval, [request]) == c' && Sent(c, interval, [request]) == Step(c, interval, request).1;
    RunSplit(c, interval, [request], stint.rest);
    LivePushIsComplete(c', interval, stint.rest);
    DeliveredSplit(Sent(c, interval, [request]), Sent(c', interval, stint.rest));
  }

  lemma {:induction false} FromSequenceQualify(es: seq<EventEnvelope>, since: u64)
    ensures forall e :: e in FromSequence(es, since) ==> AtLeast(e, since)
  {
    if es != [] {
      FromSequenceQualify(es[1..], since);
      FromSequenceQualify(es[..|es| - 1], since);
    }
  }

  /**
   Live push does not look at the cursor. So the subscription delivers what a never-evicted log
   would serve from its cursor exactly when every event pushed meanwhile lies at or after it.
   */
  lemma StreamIsLogExactly(c: Connection, interval: nat, stint: Stint)
    requires Session(c, interval, stint) && stint.since > 0
    ensures var h, after := c.history, After(c, interval, stint).history;
            && h <= after
            && (Heard(c, interval, stint) == FromSequence(after, stint.since)
                <==> forall e :: e in after[|h|..] ==> AtLeast(e, stint.since))
  {
    var h, after, since := c.history, After(c, interval, stint).history, stint.since;
    StreamIsComplete(c, interval, stint);
    var later := after[|h|..];
    assert after == h + later;
    FromSequenceSplit(h, later, since);
    FromSequenceQualify(later, since);
    hide FromSequence, Session, After, Heard;
    var mine := FromSequence(h, since);
    if forall e :: e in later ==> AtLeast(e, since) {
      FromSequenceAll(later, since);
    } else if mine + later == mine + FromSequence(later, since) {
      SameTail(mine, later, FromSequence(later, since));
    }
  }

  lemma SameTail<T>(a: seq<T>, x: seq<T>, y: seq<T>)
    requires a + x == a + y
    ensures x == y
  {
    assert x == (a + x)[|a|..] && y == (a + y)[|a|..];
  }

  /** With increasing sequences, everything pushed later lies at or after a cursor that is not in the future. */
  lemma LaterEventsQualify(before: seq<EventEnvelope>, after: seq<EventEnvelope>, since: u64)
    requires Increasing(after) && before <= after && since <= NextSequence(before)
    requires !CarriesMax(before)
    ensures forall e :: e in after[|before|..] ==> AtLeast(e, since)
  {
    var later := after[|before|..];
    NextIsMaxPlusOne(before);
    MaxSequenceBounds(before);
    forall i | 0 <= i < |later| ensures AtLeast(later[i], since) {
      assert later[i] == after[|before| + i];
      if MaxSequence(before).Some? {
        var j :| 0 <= j < |before| && before[j].sequence == MaxSequence(before);
        assert after[j] == before[j];
      }
    }
  }

  /** So, with increasing sequences, a subscription that does not start in the future is such a log. */
  lemma StreamIsLog(c: Connection, interval: nat, stint: Stint)
    requires Session(c, interval, stint) && 0 < stint.since <= NextSequence(c.history) && !CarriesMax(c.history)
    requires Increasing(After(c, interval, stint).history)
    ensures Heard(c, interval, stint) == FromSequence(After(c, interval, stint).history, stint.since)
  {
    StreamIsLogExactly(c, interval, stint);
    LaterEventsQualify(c.history, After(c, interval, stint).history, stint.since);
  }

  /** What follows the last event seen is exactly what was pushed after it. */
  lemma FromLastSeen(seen: seq<EventEnvelope>, after: seq<EventEnvelope>)
    requires Increasing(after) && seen != [] && seen <= after && seen[|seen| - 1].sequence.Some?
    requires seen[|seen| - 1].sequence.value + 1 < U64_SIZE
    ensures FromSequence(after, seen[|seen| - 1].sequence.value + 1) == after[|seen|..]
  {
    hide FromSequence;
    var cursor, later := seen[|seen| - 1].sequence.value + 1, after[|seen|..];
    forall i | 0 <= i < |seen| ensures !AtLeast(seen[i], cursor) {
      assert seen[i] == after[i] && seen[|seen| - 1] == after[|seen| - 1];
    }
    forall i | 0 <= i < |later| ensures AtLeast(later[i], cursor) {
      assert later[i] == after[|seen| + i] && seen[|seen| - 1] == after[|seen| - 1];
    }
    FromSequenceNone(seen, cursor);
    FromSequenceAll(later, cursor);
    FromSequenceSplit(seen, later, cursor);
    assert after == seen + later;
  }

  /** Resuming after the last event seen fails exactly when one of the events missed has been evicted. */
  lemma ResumeGapExactly(seen: seq<EventEnvelope>, now: seq<EventEnvelope>)
    requires Increasing(now) && seen != [] && seen <= now && seen[|seen| - 1].sequence.Some?
    requires seen[|seen| - 1].sequence.value + 1 < U64_SIZE
    ensures Replay(now, seen[|seen| - 1].sequence.value + 1)
         == if Evictions(now) > |seen|
            then Err(ReplayGap(now[Evictions(now)].sequence.value, seen[|seen| - 1].sequence.value + 1))
            else Ok(now[|seen|..])
  {
    var n, cursor, k := |seen|, seen[|seen| - 1].sequence.value + 1, Evictions(now);
    hide Evictions, FromSequence, MaxSequence;
    FromLastSeen(seen, now);
    assert now[n - 1] == seen[n - 1];
    if k > n {
      assert AtLeast(now[n], cursor);
      MaxSequenceBounds(now[..k]);
      assert Retained(now)[0] == now[k];
    }
  }

  /** The second subscription asks for what follows the last event the first one delivered. */
  ghost predicate Resumes(heard: seq<EventEnvelope>, since: u64) {
    heard != [] && heard[|heard| - 1].sequence.Some? && since == heard[|heard| - 1].sequence.value + 1
  }

  /**
   Unsubscribing and resubscribing just after the last event seen continues the stream, whatever
   the first cursor and whatever happens in between: the two deliveries together are the first
   replay and everything pushed since, with no gap and no repetition.
   */
  lemma ResumeContinues(c1: Connection, interval: nat, first: Stint, between: seq<Input>, second: Stint)
    requires Session(c1, interval, first) && Resumes(Heard(c1, interval, first), second.since)
    requires Session(Final(After(c1, interval, first), interval, between), interval, second)
    requires Increasing(After(Final(After(c1, interval, first), interval, between), interval, second).history)
    ensures var c2 := Final(After(c1, interval, first), interval, between);
            var after := After(c2, interval, second).history;
            && c1.history <= after
            && Heard(c1, interval, first) + Heard(c2, interval, second)
               == Replayed(c1.history, first.since) + after[|c1.history|..]
  {
    var d1 := After(c1, interval, first);
    var c2 := Final(d1, interval, between);
    var d2 := After(c2, interval, second);
    HistoryGrows(c1, interval, first.Inputs());
    HistoryGrows(d1, interval, between);
    HistoryGrows(c2, interval, second.Inputs());
    hide Session, After, Heard, Final, Replayed;
    StreamIsComplete(c1, interval, first);
    StreamIsComplete(c2, interval, second);
    SecondHalf(c1.history, d1.history, c2.history, d2.history, first.since, second.since);
  }

  /**
   Between two subscriptions the ring may have let go of events. Asking for what follows the last
   event heard is answered with a gap exactly when an event pushed since the first subscription
   ended has been evicted, and otherwise with all of those events.
   */
  lemma ResumeAnswer(c1: Connection, interval: nat, first: Stint, between: seq<Input>, since: u64)
    requires Session(c1, interval, first) && Resumes(Heard(c1, interval, first), since)
    requires Increasing(Final(After(c1, interval, first), interval, between).history)
    ensures var seen, now := After(c1, interval, first).history,
                            Final(After(c1, interval, first), interval, between).history;
            && seen <= now
            && Replay(now, since)
               == if Evictions(now) > |seen| then Err(ReplayGap(now[Evictions(now)].sequence.value, since))
                  else Ok(now[|seen|..])
  {
    var d1 := After(c1, interval, first);
    var c2 := Final(d1, interval, between);
    HistoryGrows(c1, interval, first.Inputs());
    HistoryGrows(d1, interval, between);
    hide Session, After, Heard, Final, Replayed, Replay, Evictions;
    StreamIsComplete(c1, interval, first);
    IncreasingPrefix(d1.history, c2.history);
    LastHeard(c1.history, d1.history, first.since);
    ResumeGapExactly(d1.history, c2.history);
  }

  lemma IncreasingPrefix(a: seq<EventEnvelope>, b: seq<EventEnvelope>)
    requires Increasing(b) && a <= b
    ensures Increasing(a)
  {
    assert forall i :: 0 <= i < |a| ==> a[i] == b[i];
  }

  lemma {:induction false} LastFromSequence(h: seq<EventEnvelope>, since: u64)
    requires Increasing(h) && FromSequence(h, since) != []
    ensures h != [] && FromSequence(h, since)[|FromSequence(h, since)| - 1] == h[|h| - 1]
  {
    var n := |h| - 1;
    if !AtLeast(h[n], since) {
      forall i | 0 <= i < |h| ensures !AtLeast(h[i], since) {}
      FromSequenceNone(h, since);
    }
  }

  /** The last event heard is the last one pushed. */
  lemma LastHeard(h0: seq<EventEnvelope>, h1: seq<EventEnvelope>, since: u64)
    requires Increasing(h1) && h0 <= h1 && Replayed(h0, since) + h1[|h0|..] != []
    ensures var heard := Replayed(h0, since) + h1[|h0|..];
            h1 != [] && heard[|heard| - 1] == h1[|h1| - 1]
  {
    if |h0| == |h1| {
      assert h0 == h1;
      if since != 0 {
        LastFromSequence(h0, since);
      }
    }
  }

  /** `h0 <= h1 <= h2 <= h3`: resuming on `h2` and running to `h3` completes the stream that began on `h0`. */
  lemma SecondHalf(h0: seq<EventEnvelope>, h1: seq<EventEnvelope>, h2: seq<EventEnvelope>,
                   h3: seq<EventEnvelope>, since: u64,
                   cursor: u64)
    requires Increasing(h3) && h0 <= h1 <= h2 <= h3 && Resumes(Replayed(h0, since) + h1[|h0|..], cursor)
    ensures Replayed(h0, since) + h1[|h0|..] + (Replayed(h2, cursor) + h3[|h2|..]) == Replayed(h0, since) + h3[|h0|..]
  {
    hide FromSequence, Increasing;
    IncreasingPrefix(h1, h3);
    IncreasingPrefix(h2, h3);
    LastHeard(h0, h1, since);
    FromLastSeen(h1, h2);
    assert Replayed(h2, cursor) == h2[|h1|..];
    hide Replayed;
    TailsJoin(h0, h1, h2, h3);
    Associate(Replayed(h0, since), h1[|h0|..], h2[|h1|..] + h3[|h2|..]);
  }

  /** The tail of a longest history is the tail of a shorter one and what came since. */
  lemma TailSplit(a: seq<EventEnvelope>, b: seq<EventEnvelope>, c: seq<EventEnvelope>)
    requires a <= b <= c
    ensures a <= c && c[|a|..] == b[|a|..] + c[|b|..]
  {
    assert c == b + c[|b|..];
  }

  lemma TailsJoin(h0: seq<EventEnvelope>, h1: seq<EventEnvelope>, h2: seq<EventEnvelope>, h3: seq<EventEnvelope>)
    requires h0 <= h1 <= h2 <= h3
    ensures h3[|h0|..] == h1[|h0|..] + (h2[|h1|..] + h3[|h2|..])
  {
    TailSplit(h0, h1, h3);
    TailSplit(h1, h2, h3);
  }

  // ---- Replay responses fit a frame ----

  /** Length of the events as a JSON array: brackets, and commas between them. */
  function ArrayBytes(es: seq<EventEnvelope>): nat {
    2 + Bytes(es) + (if es == [] then 0 else |es| - 1)
  }

  lemma {:induction false} FilteredFits(es: seq<EventEnvelope>, since: u64)
    ensures Bytes(FromSequence(es, since)) <= Bytes(es) && |FromSequence(es, since)| <= |es|
  {
    if es != [] {
      var n := |es| - 1;
      FilteredFits(es[..n], since);
      assert es == es[..n] + [es[n]];
      BytesSplit(es[..n], [es[n]]);
      BytesSplit(FromSequence(es[..n], since), [es[n]]);
      assert FromSequence(es[..n], since) + [] == FromSequence(es[..n], since);
    }
  }

  /** The room a response needs besides its events: far more than the ids and numbers around them. */
  const ROOM: nat := 520_000

  /**
   All retained events fit one frame, with room for the rest of the response, exactly unless the
   last event is too large for a frame by itself.
   */
  lemma RetainedFitFrame(h: seq<EventEnvelope>, rest: nat)
    requires rest <= ROOM
    ensures ArrayBytes(Retained(h)) + rest <= Framing.MAX_FRAME_SIZE
            <==> (h != [] ==> 2 + h[|h| - 1].encodedSize + rest <= Framing.MAX_FRAME_SIZE)
  {
    if h != [] {
      var es, n := Retained(h), |Retained(h)| - 1;
      RetainedIsLongest(h);
      assert es[n] == h[|h| - 1] && es == es[..n] + [es[n]];
      BytesSplit(es[..n], [es[n]]);
      assert Bytes([es[n]]) == es[n].encodedSize + Bytes([es[n]][1..]);
      hide Retained, FirstFit, Evictions;
    }
  }

  /** So every replay that is granted fits, unless the last event by itself does not. */
  lemma ReplayFitsFrame(h: seq<EventEnvelope>, since: u64, rest: nat)
    requires rest <= ROOM && Replay(h, since).Ok?
    requires h != [] ==> 2 + h[|h| - 1].encodedSize + rest <= Framing.MAX_FRAME_SIZE
    ensures ArrayBytes(Replay(h, since).value) + rest <= Framing.MAX_FRAME_SIZE
  {
    RetainedFitFrame(h, rest);
    hide Retained, FromSequence, LostSince;
    if since > 0 {
      ReplayFromRing(h, since);
      FilteredFits(Retained(h), since);
    }
  }
}
