/**
 Correlating interrupts with their answers. Any number of callers share the map of pending requests
 with the one goroutine that reads the subprocess's output; all of their steps interleave freely.
 A request is named by its place in the order in which ids were drawn.
 */
module InterruptCalls {
  import opened Prelude

  /** A control response; an id nobody drew stands for any string that names no request. */
  datatype Response = Response(requestId: nat, subtype: string, error: string)

  datatype Ending = Answered(response: Response) | WriteFailed | TimedOut | Cancelled | SessionClosed

  /** Between leaving the wait and returning, the deferred removal from the map is still to come. */
  datatype Stage = Drawn | Writing | Waiting | Leaving(ending: Ending) | Returned(ending: Ending)

  /** `since` counts the responses read before registration; `channel` has room for one response. */
  datatype Caller = Caller(stage: Stage, since: nat, channel: Option<Response>)

  /** `held` is a response the reader has looked up and not yet offered to its channel. */
  datatype State = State(callers: seq<Caller>, pending: set<nat>, held: Option<Response>, read: seq<Response>)

  const INITIAL := State([], {}, None, [])

  datatype Action =
    | DrawId
    | Register(id: nat)
    | WriteEnds(id: nat, failure: Option<Ending>)
    | TakeAnswer(id: nat)
    | GiveUp(id: nat, ending: Ending)
    | Unregister(id: nat)
    | Read(response: Response)
    | Offer

  function With(s: State, id: nat, c: Caller): State
    requires id < |s.callers|
  {
    s.(callers := s.callers[id := c])
  }

  /** One step; a party that cannot take it leaves the state as it is. */
  function Step(s: State, a: Action): State {
    match a
    case DrawId => s.(callers := s.callers + [Caller(Drawn, 0, None)])
    case Register(id) =>
      if id < |s.callers| && s.callers[id].stage == Drawn then
        With(s, id, Caller(Writing, |s.read|, None)).(pending := s.pending + {id})
      else s
    case WriteEnds(id, failure) =>
      if id < |s.callers| && s.callers[id].stage == Writing && !(failure.Some? && failure.value.Answered?) then
        With(s, id, s.callers[id].(stage := if failure.None? then Waiting else Leaving(failure.value)))
      else s
    case TakeAnswer(id) =>
      if id < |s.callers| && s.callers[id].stage == Waiting && s.callers[id].channel.Some? then
        With(s, id, s.callers[id].(stage := Leaving(Answered(s.callers[id].channel.value)), channel := None))
      else s
    case GiveUp(id, ending) =>
      if id < |s.callers| && s.callers[id].stage == Waiting && !ending.Answered? then
        With(s, id, s.callers[id].(stage := Leaving(ending)))
      else s
    case Unregister(id) =>
      if id < |s.callers| && s.callers[id].stage.Leaving? then
        With(s, id, s.callers[id].(stage := Returned(s.callers[id].stage.ending))).(pending := s.pending - {id})
      else s
    case Read(response) =>
      if s.held.Some? then s
      else s.(read := s.read + [response], held := if response.requestId in s.pending then Some(response) else None)
    case Offer =>
      if s.held.None? || s.held.value.requestId >= |s.callers| then s
      else
        var c := s.callers[s.held.value.requestId];
        With(s, s.held.value.requestId, if c.channel.None? then c.(channel := s.held) else c).(held := None)
  }

  function Run(actions: seq<Action>): State {
    if actions == [] then INITIAL else Step(Run(actions[..|actions| - 1]), actions[|actions| - 1])
  }

  // ---- The specification ----

  /** The first response that bears the id. */
  function FirstFor(rs: seq<Response>, id: nat): Option<Response> {
    if rs == [] then None
    else
      var earlier := FirstFor(rs[..|rs| - 1], id);
      if earlier.Some? then earlier
      else if rs[|rs| - 1].requestId == id then Some(rs[|rs| - 1]) else None
  }

  predicate Registered(stage: Stage) {
    stage == Writing || stage == Waiting || stage.Leaving?
  }

  predicate EndedWith(stage: Stage, ending: Ending) {
    stage == Leaving(ending) || stage == Returned(ending)
  }

  predicate HeldFor(held: Option<Response>, id: nat) {
    held.Some? && held.value.requestId == id
  }

  /** Where the first answer to a caller is: not read yet, held by the reader, in the channel, or taken. */
  ghost predicate CallerFits(c: Caller, id: nat, held: Option<Response>, read: seq<Response>) {
    && c.since <= |read|
    && var first := FirstFor(read[c.since..], id);
       match c.stage
       case Drawn => c.channel.None? && !HeldFor(held, id)
       case Leaving(Answered(r)) => first == Some(r)
       case Returned(Answered(r)) => first == Some(r)
       case Leaving(_) => true
       case Returned(_) => true
       case _ =>
         if first.None? then c.channel.None? && !HeldFor(held, id)
         else c.channel == first || (c.channel.None? && held == first)
  }

  ghost predicate Inv(s: State) {
    && (forall id: nat :: id in s.pending <==> id < |s.callers| && Registered(s.callers[id].stage))
    && (s.held.Some? ==> s.held.value.requestId < |s.callers|)
    && forall id: nat :: id < |s.callers| ==> CallerFits(s.callers[id], id, s.held, s.read)
  }

  lemma FirstForNext(rs: seq<Response>, since: nat, r: Response, id: nat)
    requires since <= |rs|
    ensures FirstFor((rs + [r])[since..], id)
            == (if FirstFor(rs[since..], id).Some? then FirstFor(rs[since..], id)
                else if r.requestId == id then Some(r) else None)
  {
    var longer := (rs + [r])[since..];
    assert longer == rs[since..] + [r];
    assert longer[..|longer| - 1] == rs[since..];
  }

  lemma {:induction false} FirstForBears(rs: seq<Response>, id: nat)
    ensures FirstFor(rs, id).Some? ==> FirstFor(rs, id).value.requestId == id && FirstFor(rs, id).value in rs
  {
    if rs != [] {
      FirstForBears(rs[..|rs| - 1], id);
    }
  }

  lemma ReadKeepsCaller(s: State, response: Response, id: nat)
    requires Inv(s) && s.held.None? && id < |s.callers|
    ensures var t := Step(s, Read(response)); CallerFits(t.callers[id], id, t.held, t.read)
  {
    FirstForNext(s.read, s.callers[id].since, response, id);
    hide FirstFor;
  }

  lemma OfferKeepsCaller(s: State, id: nat)
    requires Inv(s) && s.held.Some? && id < |s.callers|
    ensures var t := Step(s, Offer); CallerFits(t.callers[id], id, t.held, t.read)
  {
    FirstForBears(s.read[s.callers[id].since..], id);
    hide FirstFor;
  }

  /** A step of a caller changes nothing but that caller and its place in the map. */
  lemma CallerStepKeepsInv(s: State, a: Action)
    requires Inv(s) && !a.Read? && !a.Offer?
    ensures Inv(Step(s, a))
  {
    assert s.read[|s.read|..] == [];
    assert forall id :: FirstFor([], id) == None;
    hide FirstFor;
  }

  lemma StepKeepsInv(s: State, a: Action)
    requires Inv(s)
    ensures Inv(Step(s, a))
  {
    var t := Step(s, a);
    hide CallerFits;
    match a
    case Read(response) =>
      forall id: nat | id < |t.callers| ensures CallerFits(t.callers[id], id, t.held, t.read) {
        if s.held.None? {
          ReadKeepsCaller(s, response, id);
        }
      }
    case Offer =>
      forall id: nat | id < |t.callers| ensures CallerFits(t.callers[id], id, t.held, t.read) {
        if s.held.Some? {
          OfferKeepsCaller(s, id);
        }
      }
    case _ => CallerStepKeepsInv(s, a);
  }

  lemma {:induction false} RunKeepsInv(actions: seq<Action>)
    ensures Inv(Run(actions))
  {
    if actions != [] {
      RunKeepsInv(actions[..|actions| - 1]);
      StepKeepsInv(Run(actions[..|actions| - 1]), actions[|actions| - 1]);
    }
  }

  /**
   In every interleaving an interrupt that ends with an answer ends with the first response bearing
   its own id that was read after it registered; later responses never replace it.
   */
  lemma AnswerIsFirst(actions: seq<Action>, id: nat, r: Response)
    requires id < |Run(actions).callers| && EndedWith(Run(actions).callers[id].stage, Answered(r))
    ensures var s := Run(actions); var since := s.callers[id].since;
            && since <= |s.read|
            && FirstFor(s.read[since..], id) == Some(r)
            && r.requestId == id && r in s.read[since..]
  {
    RunKeepsInv(actions);
    FirstForBears(Run(actions).read[Run(actions).callers[id].since..], id);
  }

  /** The map holds exactly the registered requests, so every request that has returned is gone from it. */
  lemma NothingLeaks(actions: seq<Action>)
    ensures var s := Run(actions);
            forall id: nat :: id in s.pending <==> id < |s.callers| && Registered(s.callers[id].stage)
  {
    RunKeepsInv(actions);
  }

  /** A caller still waiting has its answer ahead as soon as one was read: in its channel, or one step away. */
  lemma AnswerArrives(actions: seq<Action>, id: nat)
    requires id < |Run(actions).callers| && Run(actions).callers[id].stage == Waiting
    requires var s := Run(actions); s.callers[id].since <= |s.read| && FirstFor(s.read[s.callers[id].since..], id).Some?
    ensures var s := Run(actions); var first := FirstFor(s.read[s.callers[id].since..], id);
            s.callers[id].channel == first || Step(s, Offer).callers[id].channel == first
    ensures var s := Run(actions); var first := FirstFor(s.read[s.callers[id].since..], id);
            var t := Run(actions + [Offer, TakeAnswer(id), Unregister(id)]);
            id < |t.callers| && t.callers[id].stage == Returned(Answered(first.value)) && id !in t.pending
  {
    RunKeepsInv(actions);
    var s := Run(actions);
    FirstForBears(s.read[s.callers[id].since..], id);
    assert CallerFits(s.callers[id], id, s.held, s.read);
    RunThree(actions, Offer, TakeAnswer(id), Unregister(id));
    hide FirstFor, Run, Step;
    AnswerTaken(s, id, FirstFor(s.read[s.callers[id].since..], id).value);
  }

  lemma RunNext(actions: seq<Action>, a: Action)
    ensures Run(actions + [a]) == Step(Run(actions), a)
  {
    assert (actions + [a])[..|actions|] == actions;
    hide Step;
  }

  lemma RunThree(actions: seq<Action>, a: Action, b: Action, c: Action)
    ensures Run(actions + [a, b, c]) == Step(Step(Step(Run(actions), a), b), c)
  {
    assert actions + [a, b, c] == actions + [a] + [b] + [c];
    hide Step, Run;
    RunNext(actions, a);
    RunNext(actions + [a], b);
    RunNext(actions + [a] + [b], c);
  }

  lemma AnswerTaken(s: State, id: nat, first: Response)
    requires id < |s.callers| && s.callers[id].stage == Waiting && first.requestId == id
    requires s.callers[id].channel == Some(first) || (s.callers[id].channel == None && s.held == Some(first))
    ensures s.callers[id].channel == Some(first) || Step(s, Offer).callers[id].channel == Some(first)
    ensures var t := Step(Step(Step(s, Offer), TakeAnswer(id)), Unregister(id));
            id < |t.callers| && t.callers[id].stage == Returned(Answered(first)) && id !in t.pending
  {
    var o := Step(s, Offer);
    assert |o.callers| == |s.callers| && o.callers[id].stage == Waiting && o.callers[id].channel == Some(first);
    var k := Step(o, TakeAnswer(id));
    assert |k.callers| == |s.callers| && k.callers[id].stage == Leaving(Answered(first));
  }

  /** A new interrupt that is written becomes a waiting entry of the map, with everything read so far behind it. */
  lemma InterruptStarts(actions: seq<Action>)
    ensures var s := Run(actions); var id := |s.callers|;
            var t := Run(actions + [DrawId, Register(id), WriteEnds(id, None)]);
            && t.callers == s.callers + [Caller(Waiting, |s.read|, None)]
            && t.pending == s.pending + {id} && t.read == s.read
  {
    var s := Run(actions);
    RunThree(actions, DrawId, Register(|s.callers|), WriteEnds(|s.callers|, None));
    hide Run;
  }

  /** A failed write ends the call, giving up ends the wait, and returning leaves nothing in the map. */
  lemma CallEnds(actions: seq<Action>, id: nat, ending: Ending)
    requires id < |Run(actions).callers| && !ending.Answered?
    ensures var t := Run(actions + [WriteEnds(id, Some(ending)), Unregister(id)]);
            Run(actions).callers[id].stage == Writing ==>
              |t.callers| == |Run(actions).callers| && t.callers[id].stage == Returned(ending) && id !in t.pending
    ensures var t := Run(actions + [GiveUp(id, ending), Unregister(id)]);
            Run(actions).callers[id].stage == Waiting ==>
              |t.callers| == |Run(actions).callers| && t.callers[id].stage == Returned(ending) && id !in t.pending
  {
    RunTwo(actions, WriteEnds(id, Some(ending)), Unregister(id));
    RunTwo(actions, GiveUp(id, ending), Unregister(id));
    hide Run;
  }

  lemma RunTwo(actions: seq<Action>, a: Action, b: Action)
    ensures Run(actions + [a, b]) == Step(Step(Run(actions), a), b)
  {
    assert actions + [a, b] == actions + [a] + [b];
    hide Step, Run;
    RunNext(actions, a);
    RunNext(actions + [a], b);
  }
}
