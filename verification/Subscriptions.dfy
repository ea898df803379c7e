/** When a lifecycle connection is open, subscribed and heard, told from its inputs and the frames it sent. */
module Subscriptions {
  import opened Prelude
  import opened EventRing
  import opened Lifecycle
  import opened LifecycleRuns

  // ---- One more input ----

  lemma RunNext(c: Connection, interval: nat, inputs: seq<Input>, x: Input)
    ensures Final(c, interval, inputs + [x]) == Step(Final(c, interval, inputs), interval, x).0
    ensures Sent(c, interval, inputs + [x])
         == Sent(c, interval, inputs) + Step(Final(c, interval, inputs), interval, x).1
  {
    assert (inputs + [x])[..|inputs|] == inputs;
    hide Step;
  }

  /** The request is handled: the connection is open and the id was not seen before. */
  ghost predicate Accepts(c: Connection, interval: nat, inputs: seq<Input>, id: string) {
    Final(c, interval, inputs).open && id !in Final(c, interval, inputs).seenIds
  }

  /** On that input a subscription was granted: the one frame sent is a successful subscription. */
  ghost predicate Grants(c: Connection, interval: nat, inputs: seq<Input>, x: Input) {
    exists id, subId, events, next ::
      Sent(c, interval, inputs + [x])
      == Sent(c, interval, inputs) + [Response(id, Some(Subscription(subId, events, next)), None)]
  }

  /** That input is an unsubscribe request that is handled. */
  ghost predicate Cancels(c: Connection, interval: nat, inputs: seq<Input>, x: Input) {
    x.Request? && x.call == Unsubscribe && Accepts(c, interval, inputs, x.id)
  }

  ghost predicate GrantedAt(c: Connection, interval: nat, inputs: seq<Input>, k: nat)
    requires k < |inputs|
  {
    Grants(c, interval, inputs[..k], inputs[k])
  }

  ghost predicate CancelledAt(c: Connection, interval: nat, inputs: seq<Input>, k: nat)
    requires k < |inputs|
  {
    Cancels(c, interval, inputs[..k], inputs[k])
  }

  predicate IsGrant(frame: Outbound) {
    frame.Response? && frame.error.None? && frame.result.Some? && frame.result.value.Subscription?
  }

  lemma GrantsIsStep(c: Connection, interval: nat, inputs: seq<Input>, x: Input)
    ensures var sent := Step(Final(c, interval, inputs), interval, x).1;
            Grants(c, interval, inputs, x) <==> |sent| == 1 && IsGrant(sent[0])
  {
    hide Step;
    RunNext(c, interval, inputs, x);
    var before, sent := Sent(c, interval, inputs), Step(Final(c, interval, inputs), interval, x).1;
    hide Sent, Final;
    if Grants(c, interval, inputs, x) {
      var id, subId, events, next :| Sent(c, interval, inputs + [x])
        == before + [Response(id, Some(Subscription(subId, events, next)), None)];
      SameTail(before, sent, [Response(id, Some(Subscription(subId, events, next)), None)]);
    }
    if |sent| == 1 && IsGrant(sent[0]) {
      var f := sent[0];
      assert sent == [Response(f.id, Some(Subscription(f.result.value.subscriptionId, f.result.value.events,
                                                       f.result.value.nextSequence)), None)];
    }
  }

  /** A step ends with a subscription exactly when it grants one, or one was active and the step cancels none. */
  lemma StepActive(d: Connection, interval: nat, x: Input)
    ensures var (d', sent) := Step(d, interval, x);
            && (d'.activeSub.Some? <==>
                  (|sent| == 1 && IsGrant(sent[0]))
                  || (d.activeSub.Some? && !(d.open && x.Request? && x.call == Unsubscribe && x.id !in d.seenIds)))
            && (|sent| == 1 && IsGrant(sent[0]) ==>
                  d.activeSub.None? && d'.activeSub == Some(sent[0].result.value.subscriptionId))
            && (d.activeSub.Some? && d'.activeSub.Some? ==> d'.activeSub == d.activeSub)
            && (d.open && x.Request? && x.call == Unsubscribe && x.id !in d.seenIds ==> d'.activeSub.None?)
            && (d.activeSub.None? && d'.activeSub.None? ==> forall f :: f in sent ==> !f.Event? && !IsGrant(f))
  {
    hide Replay, NextSequence;
  }

  lemma ActiveNext(c: Connection, interval: nat, inputs: seq<Input>, x: Input)
    ensures Final(c, interval, inputs + [x]).activeSub.Some?
            <==> Grants(c, interval, inputs, x)
                 || (Final(c, interval, inputs).activeSub.Some? && !Cancels(c, interval, inputs, x))
  {
    hide Step, Sent, Final;
    RunNext(c, interval, inputs, x);
    GrantsIsStep(c, interval, inputs, x);
    StepActive(Final(c, interval, inputs), interval, x);
    hide Grants, IsGrant;
  }

  /** A subscription was granted and no unsubscribe request was handled since. */
  ghost predicate Current(c: Connection, interval: nat, inputs: seq<Input>) {
    exists g :: 0 <= g < |inputs| && GrantedAt(c, interval, inputs, g)
                && forall k :: g < k < |inputs| ==> !CancelledAt(c, interval, inputs, k)
  }

  lemma CurrentNext(c: Connection, interval: nat, inputs: seq<Input>, x: Input)
    ensures Current(c, interval, inputs + [x])
            <==> Grants(c, interval, inputs, x) || (Current(c, interval, inputs) && !Cancels(c, interval, inputs, x))
  {
    hide Grants, Cancels;
    var n, longer := |inputs|, inputs + [x];
    assert longer[..n] == inputs;
    forall k | 0 <= k < n
      ensures GrantedAt(c, interval, longer, k) <==> GrantedAt(c, interval, inputs, k)
      ensures CancelledAt(c, interval, longer, k) <==> CancelledAt(c, interval, inputs, k)
    {
      assert longer[..k] == inputs[..k];
    }
    assert GrantedAt(c, interval, longer, n) <==> Grants(c, interval, inputs, x);
    assert CancelledAt(c, interval, longer, n) <==> Cancels(c, interval, inputs, x);
    hide GrantedAt, CancelledAt;
    if Current(c, interval, inputs) && !Cancels(c, interval, inputs, x) {
      var g :| 0 <= g < n && GrantedAt(c, interval, inputs, g)
        && forall k :: g < k < n ==> !CancelledAt(c, interval, inputs, k);
      assert GrantedAt(c, interval, longer, g);
    }
    if Current(c, interval, longer) && !Grants(c, interval, inputs, x) {
      var g :| 0 <= g < n + 1 && GrantedAt(c, interval, longer, g)
        && forall k :: g < k < n + 1 ==> !CancelledAt(c, interval, longer, k);
      assert g < n && GrantedAt(c, interval, inputs, g);
    }
  }

  /** A subscription is active exactly when the last grant comes after the last unsubscribe request handled. */
  lemma {:induction false} ActiveExactly(c: Connection, interval: nat, inputs: seq<Input>)
    requires c.activeSub.None?
    ensures Final(c, interval, inputs).activeSub.Some? <==> Current(c, interval, inputs)
  {
    hide Step, Grants, Cancels;
    if inputs != [] {
      var front, x := inputs[..|inputs| - 1], inputs[|inputs| - 1];
      assert inputs == front + [x];
      hide Final, Current;
      ActiveExactly(c, interval, front);
      ActiveNext(c, interval, front, x);
      CurrentNext(c, interval, front, x);
    }
  }

  lemma CancelNext(c: Connection, interval: nat, inputs: seq<Input>, x: Input)
    requires Cancels(c, interval, inputs, x)
    ensures Final(c, interval, inputs + [x]).activeSub.None?
  {
    hide Step, Sent, Final;
    RunNext(c, interval, inputs, x);
    StepActive(Final(c, interval, inputs), interval, x);
  }

  /** After an unsubscribe request, and until a subscription is granted, nothing is pushed. */
  lemma {:induction false} SilentAfterCancel(c: Connection, interval: nat, inputs: seq<Input>, u: nat)
    requires u < |inputs| && CancelledAt(c, interval, inputs, u)
    requires forall k :: u < k < |inputs| ==> !GrantedAt(c, interval, inputs, k)
    ensures Final(c, interval, inputs).activeSub.None?
    ensures Sent(c, interval, inputs[..u + 1]) <= Sent(c, interval, inputs)
    ensures forall i :: |Sent(c, interval, inputs[..u + 1])| <= i < |Sent(c, interval, inputs)| ==>
              !Sent(c, interval, inputs)[i].Event?
  {
    hide Step, Grants, Cancels, Final, Sent;
    var front, x := inputs[..|inputs| - 1], inputs[|inputs| - 1];
    assert inputs == front + [x] && inputs[..|inputs|] == inputs;
    if |front| == u {
      CancelNext(c, interval, front, x);
    } else {
      assert front[..u] == inputs[..u] && front[..u + 1] == inputs[..u + 1];
      forall k | u < k < |front| ensures !GrantedAt(c, interval, front, k) {
        assert front[..k] == inputs[..k] && !GrantedAt(c, interval, inputs, k);
      }
      SilentAfterCancel(c, interval, front, u);
      assert !GrantedAt(c, interval, inputs, |front|);
      ActiveNext(c, interval, front, x);
      RunNext(c, interval, front, x);
      StepActive(Final(c, interval, front), interval, x);
    }
  }

  // ---- Answers ----

  /** On that input exactly these frames are sent. */
  ghost predicate Sends(c: Connection, interval: nat, inputs: seq<Input>, x: Input, frames: seq<Outbound>) {
    Sent(c, interval, inputs + [x]) == Sent(c, interval, inputs) + frames
  }

  /**
   A subscription that is asked for while one is active is refused as busy; any other is answered with
   the replay and the next sequence, or with the gap.
   */
  lemma SubscribeAnswer(c: Connection, interval: nat, inputs: seq<Input>, id: string, since: u64, subId: string)
    requires c.activeSub.None? && Accepts(c, interval, inputs, id)
    ensures Current(c, interval, inputs) ==>
              Sends(c, interval, inputs, Request(id, Subscribe(since, subId)),
                    [Response(id, None, Some(ErrorObject(-33005, None)))])
    ensures var replay := Replay(Final(c, interval, inputs).history, since);
            !Current(c, interval, inputs) && replay.Err? ==>
              Sends(c, interval, inputs, Request(id, Subscribe(since, subId)),
                    [Response(id, None, Some(ErrorObject(-33007, Some(replay.error))))])
    ensures var history := Final(c, interval, inputs).history;
            !Current(c, interval, inputs) && Replay(history, since).Ok? ==>
              Sends(c, interval, inputs, Request(id, Subscribe(since, subId)),
                    [Response(id, Some(Subscription(subId, Replay(history, since).value, NextSequence(history))),
                              None)])
  {
    ActiveExactly(c, interval, inputs);
    RunNext(c, interval, inputs, Request(id, Subscribe(since, subId)));
    hide Replay, NextSequence, Current;
  }

  /** The answers to all other requests: a repeated id and an unknown method are refused, the rest succeeds. */
  lemma OtherAnswers(c: Connection, interval: nat, inputs: seq<Input>, id: string, m: Method)
    requires Final(c, interval, inputs).open
    ensures id in Final(c, interval, inputs).seenIds ==>
              Sends(c, interval, inputs, Request(id, m), [Response(id, None, Some(ErrorObject(-32600, None)))])
    ensures id !in Final(c, interval, inputs).seenIds && m.Unknown? ==>
              Sends(c, interval, inputs, Request(id, m), [Response(id, None, Some(ErrorObject(-32601, None)))])
    ensures id !in Final(c, interval, inputs).seenIds && m.Unsubscribe? ==>
              Sends(c, interval, inputs, Request(id, m), [Response(id, Some(Document("ok")), None)])
    ensures id !in Final(c, interval, inputs).seenIds && m.Cancel? ==>
              Sends(c, interval, inputs, Request(id, m), [Response(id, Some(Document("ok, already complete")), None)])
    ensures id !in Final(c, interval, inputs).seenIds && m.Query? ==>
              Sends(c, interval, inputs, Request(id, m), [Response(id, Some(Document(m.document)), None)])
    ensures id !in Final(c, interval, inputs).seenIds && m.Action? && c.activeSub.None? ==>
              Sends(c, interval, inputs, Request(id, m),
                    [Response(id, Some(Document(m.outcome)), None)]
                    + (if m.mutation.Some? && Current(c, interval, inputs) then [Event(m.mutation.value)] else []))
  {
    if c.activeSub.None? { ActiveExactly(c, interval, inputs); }
    RunNext(c, interval, inputs, Request(id, m));
    hide Replay, NextSequence, Current;
  }

  /** A heartbeat is answered, a tick that does not end the connection sends one, and the rest is silent. */
  lemma Heartbeats(c: Connection, interval: nat, inputs: seq<Input>, x: Input)
    requires c.open && Final(c, interval, inputs).open
    ensures x.HeartbeatFrame? ==> Sends(c, interval, inputs, x, [Heartbeat])
    ensures x.HeartbeatDue? && x.now - LatestHeartbeat(c.lastHeartbeat, inputs) < 3 * interval ==>
              Sends(c, interval, inputs, x, [Heartbeat])
    ensures x.IgnoredFrame? || x.ZeroLengthFrame? || x.MutationLost? || !Final(c, interval, inputs + [x]).open ==>
              Sends(c, interval, inputs, x, [])
  {
    HeartbeatTracked(c, interval, inputs);
    RunNext(c, interval, inputs, x);
    hide Handle;
    if x.Request? && x.id !in Final(c, interval, inputs).seenIds {
      var d := Final(c, interval, inputs);
      assert Handle(d.(seenIds := d.seenIds + {x.id}), x.id, x.call).0.open by {
        StaysOpen(d.(seenIds := d.seenIds + {x.id}), x.id, x.call);
      }
    }
  }

  lemma StaysOpen(c: Connection, id: string, m: Method)
    ensures Handle(c, id, m).0.open == c.open
  {
    hide Replay, NextSequence;
  }

  // ---- Open, seen and pushed ----

  /** The input ends the connection: shutdown, end or failure of the stream, or a tick after three silent intervals. */
  predicate Ends(start: nat, interval: nat, inputs: seq<Input>, x: Input) {
    x == ShutdownFrame || x == StreamClosed || x == StreamError
    || (x.HeartbeatDue? && x.now - LatestHeartbeat(start, inputs) >= 3 * interval)
  }

  lemma {:induction false} OpenExactly(c: Connection, interval: nat, inputs: seq<Input>)
    requires c.open
    ensures Final(c, interval, inputs).open
            <==> forall k :: 0 <= k < |inputs| ==> !Ends(c.lastHeartbeat, interval, inputs[..k], inputs[k])
  {
    if inputs != [] {
      var n := |inputs| - 1;
      var front, x := inputs[..n], inputs[n];
      assert inputs == front + [x];
      OpenExactly(c, interval, front);
      RunNext(c, interval, front, x);
      if Final(c, interval, front).open { HeartbeatTracked(c, interval, front); }
      hide Handle, Final, LatestHeartbeat;
      forall k | 0 <= k < n
        ensures Ends(c.lastHeartbeat, interval, inputs[..k], inputs[k])
                <==> Ends(c.lastHeartbeat, interval, front[..k], front[k])
      {
        assert inputs[..k] == front[..k];
      }
      assert Final(c, interval, inputs).open
        <==> Final(c, interval, front).open && !Ends(c.lastHeartbeat, interval, front, x);
    }
  }

  /** Input `k` is a request with that id, and the connection was open. */
  ghost predicate AskedAt(c: Connection, interval: nat, inputs: seq<Input>, k: nat, id: string)
    requires k < |inputs|
  {
    inputs[k].Request? && inputs[k].id == id && Final(c, interval, inputs[..k]).open
  }

  lemma StepSees(d: Connection, interval: nat, x: Input, id: string)
    ensures id in Step(d, interval, x).0.seenIds <==> id in d.seenIds || (d.open && x.Request? && x.id == id)
  {
    hide Replay, NextSequence;
  }

  /** The ids that count as seen are those requested while the connection was open. */
  lemma {:induction false} SeenExactly(c: Connection, interval: nat, inputs: seq<Input>, id: string)
    ensures id in Final(c, interval, inputs).seenIds
            <==> id in c.seenIds || exists k :: 0 <= k < |inputs| && AskedAt(c, interval, inputs, k, id)
  {
    hide Step;
    if inputs != [] {
      var n := |inputs| - 1;
      var front, x := inputs[..n], inputs[n];
      assert inputs == front + [x];
      SeenExactly(c, interval, front, id);
      RunNext(c, interval, front, x);
      StepSees(Final(c, interval, front), interval, x, id);
      hide Final;
      forall k | 0 <= k < n ensures AskedAt(c, interval, inputs, k, id) <==> AskedAt(c, interval, front, k, id) {
        assert inputs[..k] == front[..k];
      }
      assert AskedAt(c, interval, inputs, n, id) <==> Final(c, interval, front).open && x.Request? && x.id == id;
      hide AskedAt;
      if k :| 0 <= k < n && AskedAt(c, interval, front, k, id) { assert AskedAt(c, interval, inputs, k, id); }
    }
  }

  /** The event an input brings, if any. */
  function Brings(x: Input): Option<EventEnvelope> {
    match x
    case RefreshEvent(e) => Some(e)
    case MutationReceived(e) => Some(e)
    case Request(_, Action(_, mutation)) => mutation
    case _ => None
  }

  ghost predicate Takes(c: Connection, interval: nat, inputs: seq<Input>, x: Input) {
    Brings(x).Some? && Final(c, interval, inputs).open && (x.Request? ==> Accepts(c, interval, inputs, x.id))
  }

  ghost function Pushed(c: Connection, interval: nat, inputs: seq<Input>): seq<EventEnvelope> {
    if inputs == [] then [] else
      var front, x := inputs[..|inputs| - 1], inputs[|inputs| - 1];
      Pushed(c, interval, front) + (if Takes(c, interval, front, x) then [Brings(x).value] else [])
  }

  /** The events brought while a subscription was current. */
  ghost function PushedLive(c: Connection, interval: nat, inputs: seq<Input>): seq<EventEnvelope> {
    if inputs == [] then [] else
      var front, x := inputs[..|inputs| - 1], inputs[|inputs| - 1];
      PushedLive(c, interval, front)
      + (if Takes(c, interval, front, x) && Current(c, interval, front) then [Brings(x).value] else [])
  }

  /** The events of the frames that push one. */
  function LiveEvents(sent: seq<Outbound>): seq<EventEnvelope> {
    if sent == [] then [] else
      LiveEvents(sent[..|sent| - 1]) + (if sent[|sent| - 1].Event? then [sent[|sent| - 1].event] else [])
  }

  lemma {:induction false} LiveEventsSplit(a: seq<Outbound>, b: seq<Outbound>)
    ensures LiveEvents(a + b) == LiveEvents(a) + LiveEvents(b)
  {
    if b == [] {
      assert a + b == a;
    } else {
      assert (a + b)[..|a + b| - 1] == a + b[..|b| - 1];
      LiveEventsSplit(a, b[..|b| - 1]);
    }
  }

  lemma LiveFew(a: Outbound, b: Outbound)
    ensures LiveEvents([]) == []
    ensures LiveEvents([a]) == if a.Event? then [a.event] else []
    ensures LiveEvents([a, b]) == LiveEvents([a]) + if b.Event? then [b.event] else []
  {
    assert [a][..0] == [] && [a, b][..1] == [a];
  }

  lemma StepPushes(d: Connection, interval: nat, x: Input)
    ensures var (d', sent) := Step(d, interval, x);
            var brought := if Brings(x).Some? && d.open && (x.Request? ==> x.id !in d.seenIds)
                           then [Brings(x).value] else [];
            d'.history == d.history + brought && LiveEvents(sent) == if d.activeSub.Some? then brought else []
  {
    hide Replay, NextSequence, LiveEvents;
    var sent := Step(d, interval, x).1;
    LiveFew(Heartbeat, Heartbeat);
    if |sent| == 1 { LiveFew(sent[0], sent[0]); }
    if |sent| == 2 { LiveFew(sent[0], sent[1]); }
    assert sent == [] || sent == [sent[0]] || sent == [sent[0], sent[1]];
  }

  /** The ring holds what the inputs brought, and exactly what came while subscribed was pushed, both in order. */
  lemma {:induction false} PushesExactly(c: Connection, interval: nat, inputs: seq<Input>)
    requires c.activeSub.None?
    ensures Final(c, interval, inputs).history == c.history + Pushed(c, interval, inputs)
    ensures LiveEvents(Sent(c, interval, inputs)) == PushedLive(c, interval, inputs)
  {
    if inputs != [] {
      var front, x := inputs[..|inputs| - 1], inputs[|inputs| - 1];
      assert inputs == front + [x];
      PushesExactly(c, interval, front);
      hide Step, Current;
      RunNext(c, interval, front, x);
      ActiveExactly(c, interval, front);
      StepPushes(Final(c, interval, front), interval, x);
      hide Final, Sent;
      LiveEventsSplit(Sent(c, interval, front), Step(Final(c, interval, front), interval, x).1);
    }
  }

  // ---- Subscribing again ----

  /** A subscription lasts exactly until an unsubscribe request is handled. */
  lemma {:induction false} LastsUntilCancelled(c: Connection, interval: nat, inputs: seq<Input>)
    requires c.activeSub.Some?
    ensures Subscribed(c, interval, inputs) <==> forall k :: 0 <= k < |inputs| ==> !CancelledAt(c, interval, inputs, k)
  {
    hide Step, Cancels;
    if inputs == [] {
      assert inputs[..0] == [];
    } else {
      var n := |inputs| - 1;
      var front, x := inputs[..n], inputs[n];
      assert inputs == front + [x] && inputs[..n + 1] == inputs && front[..n] == front;
      hide Final;
      LastsUntilCancelled(c, interval, front);
      forall k | 0 <= k <= n ensures inputs[..k] == front[..k] {}
      assert Subscribed(c, interval, inputs)
          <==> Subscribed(c, interval, front) && Final(c, interval, inputs).activeSub.Some?;
      forall k | 0 <= k < n ensures CancelledAt(c, interval, inputs, k) <==> CancelledAt(c, interval, front, k) {}
      assert CancelledAt(c, interval, inputs, n) <==> Cancels(c, interval, front, x);
      assert Subscribed(c, interval, front) ==> Final(c, interval, front).activeSub.Some?;
      hide Subscribed, CancelledAt;
      if Final(c, interval, front).activeSub.Some? { StaysActive(c, interval, front, x); }
    }
  }

  lemma StaysActive(c: Connection, interval: nat, inputs: seq<Input>, x: Input)
    requires Final(c, interval, inputs).activeSub.Some?
    ensures Final(c, interval, inputs + [x]).activeSub.Some? <==> !Cancels(c, interval, inputs, x)
  {
    ActiveNext(c, interval, inputs, x);
    if Cancels(c, interval, inputs, x) { CancelNext(c, interval, inputs, x); }
  }

  /**
   After an unsubscribe request, a new one whose cursor can be replayed opens a second session, which lasts
   until it is cancelled in turn: the case in which `ResumeContinues` joins the two.
   */
  lemma SecondSession(c: Connection, interval: nat, between: seq<Input>, u: nat, second: Stint)
    requires u < |between| && CancelledAt(c, interval, between, u)
    requires forall k :: u < k < |between| ==> !GrantedAt(c, interval, between, k)
    requires Accepts(c, interval, between, second.id)
    requires Replay(Final(c, interval, between).history, second.since).Ok?
    ensures var d := Final(c, interval, between + [second.Opening()]);
            Session(Final(c, interval, between), interval, second)
            <==> forall k :: 0 <= k < |second.rest| ==> !CancelledAt(d, interval, second.rest, k)
  {
    SilentAfterCancel(c, interval, between, u);
    RunNext(c, interval, between, second.Opening());
    hide Replay, NextSequence, CancelledAt, GrantedAt, Final;
    LastsUntilCancelled(Step(Final(c, interval, between), interval, second.Opening()).0, interval, second.rest);
  }
}
