/**
 Tearing down a subprocess session on Unix. Several goroutines and the process group itself take
 steps in any order; the only ordering is what once-guards, channels and the kernel impose.
 */
module SessionTeardown {
  datatype Signal = Term | Kill

  /** What the retiring goroutine asks of the kernel, and what it learns. */
  datatype KernelCall = Probe(extinct: bool) | Send(signal: Signal)

  /** The body of `Close`, run by whichever caller wins the once-guard. */
  datatype CloserAt = CloseNotCalled | ClosingDone | ClosingStdin | StartingRetirement | CloseReturned

  /** The goroutine that reaps the root process and finally closes the public barrier. */
  datatype ReaperAt =
    | WaitingForRoot | ReaperClosesStdin | ReaperStartsRetirement | WaitingForGroup | WaitingForReaders | ReaperFinished

  /** The goroutine that retires the process group. */
  datatype RetirerAt =
    | NotStarted | FirstProbe | FriendlyGrace | SendingTerm | TermGrace
    | SendingKill | KillGrace | ClosingGroup | Retired

  datatype State = State(
    rootRunning: bool, rootReaped: bool, others: nat,
    pumpEnded: bool, drainEnded: bool, readersDone: nat,
    closer: CloserAt, reaper: ReaperAt, retirer: RetirerAt,
    done: nat, groupDone: nat, processDone: nat, stdinCloses: nat,
    calls: seq<KernelCall>)

  /** The channels count how often they have been closed: a second close would panic. */
  const INITIAL := State(true, false, 0, false, false, 0, CloseNotCalled, WaitingForRoot, NotStarted, 0, 0, 0, 0, [])

  /**
   One step of one party. `seen` is what a probe reports: it may miss that the group is extinct, but
   it never claims it wrongly. `expired` says that the grace period is over.
   */
  datatype Action =
    | RootExits
    | MemberForks
    | MemberExits
    | PumpEnds
    | DrainEnds
    | ReadersWaited
    | CallClose
    | CloserSteps
    | ReaperSteps
    | RetirerProbes(seen: bool, expired: bool)
    | RetirerSends
    | RetirerCloses

  /** No process is left in the group; an unreaped root still counts as a member. */
  predicate Extinct(s: State) {
    s.rootReaped && s.others == 0
  }

  /** Starts the retiring goroutine unless it has been started before. */
  function BeginRetirement(s: State): State {
    if s.retirer == NotStarted then s.(retirer := FirstProbe) else s
  }

  function CloserStep(s: State): State {
    match s.closer
    case ClosingDone => s.(done := s.done + 1, closer := ClosingStdin)
    case ClosingStdin => s.(stdinCloses := s.stdinCloses + 1, closer := StartingRetirement)
    case StartingRetirement => BeginRetirement(s).(closer := CloseReturned)
    case _ => s
  }

  function ReaperStep(s: State): State {
    match s.reaper
    case WaitingForRoot => if s.rootRunning then s else s.(rootReaped := true, reaper := ReaperClosesStdin)
    case ReaperClosesStdin => s.(stdinCloses := s.stdinCloses + 1, reaper := ReaperStartsRetirement)
    case ReaperStartsRetirement => BeginRetirement(s).(reaper := WaitingForGroup)
    case WaitingForGroup => if s.groupDone == 0 then s else s.(reaper := WaitingForReaders)
    case WaitingForReaders =>
      if s.readersDone == 0 then s else s.(processDone := s.processDone + 1, reaper := ReaperFinished)
    case ReaperFinished => s
  }

  predicate Probing(at: RetirerAt) {
    at == FirstProbe || at == FriendlyGrace || at == TermGrace || at == KillGrace
  }

  /** Where an unsuccessful probe leads once the grace period is over; the first probe has none. */
  function AfterGrace(at: RetirerAt, expired: bool): RetirerAt {
    match at
    case FirstProbe => FriendlyGrace
    case FriendlyGrace => if expired then SendingTerm else at
    case TermGrace => if expired then SendingKill else at
    case KillGrace => if expired then SendingKill else at
    case _ => at
  }

  function RetirerProbe(s: State, seen: bool, expired: bool): State {
    if !Probing(s.retirer) then s
    else if seen && Extinct(s) then s.(calls := s.calls + [Probe(true)], retirer := ClosingGroup)
    else s.(calls := s.calls + [Probe(false)], retirer := AfterGrace(s.retirer, expired))
  }

  function RetirerSend(s: State): State {
    match s.retirer
    case SendingTerm => s.(calls := s.calls + [Send(Term)], retirer := TermGrace)
    case SendingKill => s.(calls := s.calls + [Send(Kill)], retirer := KillGrace)
    case _ => s
  }

  function RetirerClose(s: State): State {
    if s.retirer == ClosingGroup then s.(groupDone := s.groupDone + 1, retirer := Retired) else s
  }

  function Step(s: State, a: Action): State {
    match a
    case RootExits => s.(rootRunning := false)
    case MemberForks => if s.rootRunning || s.others > 0 then s.(others := s.others + 1) else s
    case MemberExits => if s.others > 0 then s.(others := s.others - 1) else s
    case PumpEnds => s.(pumpEnded := true)
    case DrainEnds => s.(drainEnded := true)
    case ReadersWaited => if s.pumpEnded && s.drainEnded && s.readersDone == 0 then s.(readersDone := 1) else s
    case CallClose => if s.closer == CloseNotCalled then s.(closer := ClosingDone) else s
    case CloserSteps => CloserStep(s)
    case ReaperSteps => ReaperStep(s)
    case RetirerProbes(seen, expired) => RetirerProbe(s, seen, expired)
    case RetirerSends => RetirerSend(s)
    case RetirerCloses => RetirerClose(s)
  }

  function Run(s: State, actions: seq<Action>): State {
    if actions == [] then s else Step(Run(s, actions[..|actions| - 1]), actions[|actions| - 1])
  }

  // ---- The invariant ----

  /** SIGTERM is sent at most once, and before any SIGKILL. */
  ghost predicate TermBeforeKill(calls: seq<KernelCall>) {
    && (forall i, j :: 0 <= i < j < |calls| && calls[i] == Send(Term) ==> calls[j] != Send(Term))
    && forall i :: 0 <= i < |calls| && calls[i] == Send(Kill) ==> exists j :: 0 <= j < i && calls[j] == Send(Term)
  }

  /** An extinct probe is the last call of all. */
  ghost predicate NothingAfterExtinct(calls: seq<KernelCall>) {
    forall i :: 0 <= i < |calls| - 1 ==> calls[i] != Probe(true)
  }

  ghost predicate Disciplined(calls: seq<KernelCall>) {
    TermBeforeKill(calls) && NothingAfterExtinct(calls)
  }

  predicate BeforeTerm(at: RetirerAt) {
    at == NotStarted || at == FirstProbe || at == FriendlyGrace || at == SendingTerm
  }

  predicate AfterTerm(at: RetirerAt) {
    at == TermGrace || at == SendingKill || at == KillGrace
  }

  ghost predicate CallsFit(at: RetirerAt, calls: seq<KernelCall>) {
    && Disciplined(calls)
    && (at == NotStarted ==> calls == [])
    && (BeforeTerm(at) ==> Send(Term) !in calls && Send(Kill) !in calls)
    && (AfterTerm(at) ==> Send(Term) in calls)
    && (BeforeTerm(at) || AfterTerm(at) <==> Probe(true) !in calls)
  }

  ghost predicate Inv(s: State) {
    && (s.rootReaped <==> s.reaper != WaitingForRoot)
    && (s.rootReaped ==> !s.rootRunning)
    && s.readersDone <= 1 && (s.readersDone == 1 ==> s.pumpEnded && s.drainEnded)
    && s.done == (if s.closer == CloseNotCalled || s.closer == ClosingDone then 0 else 1)
    && s.groupDone == (if s.retirer == Retired then 1 else 0)
    && s.processDone == (if s.reaper == ReaperFinished then 1 else 0)
    && (s.retirer == ClosingGroup || s.retirer == Retired ==> Extinct(s))
    && (s.closer == CloseReturned || s.reaper == WaitingForGroup
        || s.reaper == WaitingForReaders || s.reaper == ReaperFinished ==>
          s.retirer != NotStarted)
    && (s.reaper == WaitingForReaders || s.reaper == ReaperFinished ==> s.retirer == Retired)
    && (s.reaper == ReaperFinished ==> s.readersDone == 1)
    && CallsFit(s.retirer, s.calls)
  }

  lemma AppendCall(calls: seq<KernelCall>, c: KernelCall)
    requires Disciplined(calls) && Probe(true) !in calls
    requires c == Send(Term) ==> Send(Term) !in calls
    requires c == Send(Kill) ==> Send(Term) in calls
    ensures Disciplined(calls + [c])
    ensures forall d :: d in calls + [c] <==> d in calls || d == c
  {
    var longer := calls + [c];
    assert forall i :: 0 <= i < |calls| ==> longer[i] == calls[i];
    forall i | 0 <= i < |longer| && longer[i] == Send(Kill)
      ensures exists j :: 0 <= j < i && longer[j] == Send(Term)
    {
      var j :| 0 <= j < (if i < |calls| then i else |calls|) && calls[j] == Send(Term);
      assert longer[j] == Send(Term);
    }
  }

  lemma ProbeKeepsInv(s: State, seen: bool, expired: bool)
    requires Inv(s)
    ensures Inv(RetirerProbe(s, seen, expired))
  {
    hide Disciplined;
    if Probing(s.retirer) {
      var extinct := seen && Extinct(s);
      var at := if extinct then ClosingGroup else AfterGrace(s.retirer, expired);
      AppendCall(s.calls, Probe(extinct));
      assert CallsFit(at, s.calls + [Probe(extinct)]);
    }
  }

  lemma SendKeepsInv(s: State)
    requires Inv(s)
    ensures Inv(RetirerSend(s))
  {
    hide Disciplined;
    if s.retirer == SendingTerm || s.retirer == SendingKill {
      AppendCall(s.calls, Send(if s.retirer == SendingTerm then Term else Kill));
    }
  }

  lemma CallsFitFrame(at: RetirerAt, next: RetirerAt, calls: seq<KernelCall>)
    requires CallsFit(at, calls)
    requires (at == NotStarted && next == FirstProbe) || (at == ClosingGroup && next == Retired)
    ensures CallsFit(next, calls)
  {
  }

  lemma BeginKeepsCalls(s: State)
    requires CallsFit(s.retirer, s.calls)
    ensures CallsFit(BeginRetirement(s).retirer, BeginRetirement(s).calls)
  {
    if s.retirer == NotStarted {
      CallsFitFrame(NotStarted, FirstProbe, s.calls);
    }
  }

  lemma CloserKeepsInv(s: State)
    requires Inv(s)
    ensures Inv(CloserStep(s))
  {
    BeginKeepsCalls(s);
    hide CallsFit;
  }

  lemma ReaperKeepsInv(s: State)
    requires Inv(s)
    ensures Inv(ReaperStep(s))
  {
    BeginKeepsCalls(s);
    hide CallsFit;
  }

  lemma RetirerKeepsInv(s: State)
    requires Inv(s)
    ensures Inv(RetirerClose(s))
  {
    if s.retirer == ClosingGroup {
      CallsFitFrame(ClosingGroup, Retired, s.calls);
    }
    hide CallsFit;
  }

  /** Every step of every party keeps the invariant. */
  lemma StepKeepsInv(s: State, a: Action)
    requires Inv(s)
    ensures Inv(Step(s, a))
  {
    hide CallsFit, CloserStep, ReaperStep, RetirerProbe, RetirerSend, RetirerClose;
    match a
    case RetirerProbes(seen, expired) => ProbeKeepsInv(s, seen, expired);
    case RetirerSends => SendKeepsInv(s);
    case CloserSteps => CloserKeepsInv(s);
    case ReaperSteps => ReaperKeepsInv(s);
    case RetirerCloses => RetirerKeepsInv(s);
    case _ =>
  }

  lemma {:induction false} RunKeepsInv(actions: seq<Action>)
    ensures Inv(Run(INITIAL, actions))
  {
    if actions != [] {
      RunKeepsInv(actions[..|actions| - 1]);
      StepKeepsInv(Run(INITIAL, actions[..|actions| - 1]), actions[|actions| - 1]);
    }
  }

  /**
   In every interleaving: the barrier is closed only when the root has been reaped, a probe has
   found the group extinct, which it still is, and both readers have ended; no channel is closed
   twice; SIGTERM comes before SIGKILL; and no signal follows an extinct probe.
   */
  lemma TeardownIsSafe(actions: seq<Action>)
    ensures var s := Run(INITIAL, actions);
            && (s.processDone > 0 ==>
                  s.rootReaped && Probe(true) in s.calls && Extinct(s) && s.pumpEnded && s.drainEnded)
            && s.done <= 1 && s.groupDone <= 1 && s.processDone <= 1 && s.readersDone <= 1
            && TermBeforeKill(s.calls)
            && NothingAfterExtinct(s.calls)
  {
    RunKeepsInv(actions);
  }

  // ---- Escalation ----

  /** How often SIGKILL has been sent. */
  function Kills(calls: seq<KernelCall>): nat {
    if calls == [] then 0
    else Kills(calls[..|calls| - 1]) + (if calls[|calls| - 1] == Send(Kill) then 1 else 0)
  }

  /**
   Turns of the retirer: a probe after the end of a grace period, later followed by a chance to send.
   The second component says that such a probe has come and the chance has not.
   */
  function Turns(actions: seq<Action>): (nat, bool) {
    if actions == [] then (0, false) else
      var (n, probed) := Turns(actions[..|actions| - 1]);
      match actions[|actions| - 1]
      case RetirerProbes(_, expired) => (n, probed || expired)
      case RetirerSends => if probed then (n + 1, false) else (n, false)
      case _ => (n, probed)
  }

  /** Moves from here to the next SIGKILL. */
  function Ahead(at: RetirerAt): nat {
    match at
    case FirstProbe => 5 case FriendlyGrace => 4 case SendingTerm => 3 case TermGrace => 2
    case SendingKill => 1 case KillGrace => 2 case _ => 0
  }

  predicate Escalating(at: RetirerAt) {
    at == FirstProbe || at == FriendlyGrace || at == SendingTerm || AfterTerm(at)
  }

  /** Every turn has brought the retirer one move on, a probe that waits for its chance to send included. */
  ghost predicate MovedOn(s: State, t: State, turns: nat, probed: bool) {
    var moves := 2 * (Kills(t.calls) - Kills(s.calls)) + Ahead(s.retirer) - Ahead(t.retirer);
    turns <= moves && (probed ==> turns < moves || t.retirer == SendingTerm || t.retirer == SendingKill)
  }

  lemma KillsNext(calls: seq<KernelCall>, c: KernelCall)
    ensures Kills(calls + [c]) == Kills(calls) + (if c == Send(Kill) then 1 else 0)
  {
    assert (calls + [c])[..|calls|] == calls;
  }

  lemma CloserKeepsRetirer(s: State)
    requires s.retirer != NotStarted
    ensures CloserStep(s).retirer == s.retirer && CloserStep(s).calls == s.calls
  {
  }

  lemma ReaperKeepsRetirer(s: State)
    requires s.retirer != NotStarted
    ensures ReaperStep(s).retirer == s.retirer && ReaperStep(s).calls == s.calls
  {
  }

  /** Where the retirer is after a step, and what it has asked: only its own steps matter once it has started. */
  lemma RetirerAfter(s: State, a: Action)
    requires s.retirer != NotStarted
    ensures var t := match a case RetirerProbes(seen, expired) => RetirerProbe(s, seen, expired)
                             case RetirerSends => RetirerSend(s)
                             case RetirerCloses => RetirerClose(s)
                             case _ => s;
            Step(s, a).retirer == t.retirer && Step(s, a).calls == t.calls
  {
    CloserKeepsRetirer(s);
    ReaperKeepsRetirer(s);
    hide CloserStep, ReaperStep, RetirerProbe, RetirerSend, RetirerClose;
  }

  lemma OwnStepGoesOn(s: State, seen: bool, expired: bool)
    requires s.retirer != NotStarted
    ensures s.calls <= RetirerProbe(s, seen, expired).calls && RetirerProbe(s, seen, expired).retirer != NotStarted
    ensures s.calls <= RetirerSend(s).calls && RetirerSend(s).retirer != NotStarted
    ensures s.calls <= RetirerClose(s).calls && RetirerClose(s).retirer != NotStarted
  {
  }

  lemma StepKeepsCalls(s: State, a: Action)
    requires s.retirer != NotStarted
    ensures s.calls <= Step(s, a).calls && Step(s, a).retirer != NotStarted
  {
    RetirerAfter(s, a);
    OwnStepGoesOn(s, a.RetirerProbes? && a.seen, a.RetirerProbes? && a.expired);
    hide Step, RetirerProbe, RetirerSend, RetirerClose;
  }

  /** Once started and until a probe finds the group extinct, the retirer is on its way to the next signal. */
  lemma StillEscalating(s: State)
    requires Inv(s) && s.retirer != NotStarted && Probe(true) !in s.calls
    ensures Escalating(s.retirer)
  {
    hide Disciplined;
  }

  lemma ProbeMovesOn(s: State, t: State, seen: bool, expired: bool, turns: nat, probed: bool)
    requires Escalating(t.retirer) && Escalating(RetirerProbe(t, seen, expired).retirer)
    requires MovedOn(s, t, turns, probed)
    ensures MovedOn(s, RetirerProbe(t, seen, expired), turns, probed || expired)
  {
    KillsNext(t.calls, Probe(false));
    hide Kills;
  }

  lemma SendMovesOn(s: State, t: State, turns: nat, probed: bool)
    requires Escalating(t.retirer) && MovedOn(s, t, turns, probed)
    ensures MovedOn(s, RetirerSend(t), if probed then turns + 1 else turns, false)
  {
    KillsNext(t.calls, Send(Term));
    KillsNext(t.calls, Send(Kill));
    hide Kills;
  }

  lemma TurnMovesOn(s: State, t: State, a: Action, turns: nat, probed: bool)
    requires Escalating(t.retirer) && Escalating(Step(t, a).retirer)
    requires MovedOn(s, t, turns, probed)
    ensures var (n, p) := match a case RetirerProbes(_, expired) => (turns, probed || expired)
                                case RetirerSends => if probed then (turns + 1, false) else (turns, false)
                                case _ => (turns, probed);
            MovedOn(s, Step(t, a), n, p)
  {
    RetirerAfter(t, a);
    assert a.RetirerCloses? ==> RetirerClose(t) == t;
    hide Kills, Ahead, Step, RetirerProbe, RetirerSend, RetirerClose;
    match a
    case RetirerProbes(seen, expired) => ProbeMovesOn(s, t, seen, expired, turns, probed);
    case RetirerSends => SendMovesOn(s, t, turns, probed);
    case _ =>
  }

  lemma {:induction false} StartedRun(s: State, actions: seq<Action>)
    requires s.retirer != NotStarted
    ensures Run(s, actions).retirer != NotStarted
  {
    hide Step;
    if actions != [] {
      StartedRun(s, actions[..|actions| - 1]);
      StepKeepsCalls(Run(s, actions[..|actions| - 1]), actions[|actions| - 1]);
    }
  }

  lemma {:induction false} RunMovesOn(s: State, more: seq<Action>)
    requires Inv(s) && s.retirer != NotStarted && Probe(true) !in Run(s, more).calls
    ensures Inv(Run(s, more)) && Escalating(Run(s, more).retirer) && s.calls <= Run(s, more).calls
    ensures MovedOn(s, Run(s, more), Turns(more).0, Turns(more).1)
  {
    hide Inv, Step, Escalating;
    if more == [] {
      StillEscalating(s);
    } else {
      var front, a := more[..|more| - 1], more[|more| - 1];
      var t := Run(s, front);
      StartedRun(s, front);
      StepKeepsCalls(t, a);
      RunMovesOn(s, front);
      StepKeepsInv(t, a);
      StillEscalating(Step(t, a));
      TurnMovesOn(s, t, a, Turns(front).0, Turns(front).1);
    }
  }

  /**
   Once retirement has started and as long as no probe finds the group extinct, whatever else happens:
   five turns put a SIGKILL among the calls, and after the first one every second turn brings another.
   */
  lemma EscalationProceeds(s: State, more: seq<Action>)
    requires Inv(s) && s.retirer != NotStarted && Probe(true) !in Run(s, more).calls
    ensures s.calls <= Run(s, more).calls
    ensures Turns(more).0 <= 2 * (Kills(Run(s, more).calls) - Kills(s.calls)) + 4
    ensures Turns(more).0 >= 5 ==> Send(Kill) in Run(s, more).calls
    ensures Send(Kill) in s.calls ==> Turns(more).0 <= 2 * (Kills(Run(s, more).calls) - Kills(s.calls)) + 1
  {
    RunMovesOn(s, more);
    StillEscalating(s);
    KillsAreCalls(Run(s, more).calls);
    hide Run, Turns, Kills, Disciplined;
  }

  lemma {:induction false} KillsAreCalls(calls: seq<KernelCall>)
    ensures Kills(calls) > 0 <==> Send(Kill) in calls
  {
    if calls != [] {
      var front, last := calls[..|calls| - 1], calls[|calls| - 1];
      assert calls == front + [last];
      KillsAreCalls(front);
    }
  }

  /** Each signal follows an unsuccessful probe at once, and there are two before the first. */
  ghost predicate Patient(calls: seq<KernelCall>) {
    forall i :: 0 <= i < |calls| && calls[i].Send? ==> i >= 2 && calls[i - 1] == Probe(false)
  }

  ghost predicate Waited(at: RetirerAt, calls: seq<KernelCall>) {
    && Patient(calls)
    && (at == NotStarted ==> calls == [])
    && (at == FriendlyGrace ==> |calls| >= 1)
    && (at == SendingTerm || at == SendingKill ==> |calls| >= 2 && calls[|calls| - 1] == Probe(false))
    && (at == TermGrace || at == KillGrace ==> |calls| >= 2)
  }

  predicate StdinFirst(s: State) {
    && (s.closer == StartingRetirement || s.closer == CloseReturned ==> s.stdinCloses > 0)
    && (s.reaper != WaitingForRoot && s.reaper != ReaperClosesStdin ==> s.stdinCloses > 0)
    && (s.retirer != NotStarted ==> s.stdinCloses > 0)
  }

  lemma StdinStaysFirst(s: State, a: Action)
    requires StdinFirst(s)
    ensures StdinFirst(Step(s, a))
  {
    if s.retirer != NotStarted { RetirerAfter(s, a); }
  }

  lemma PatientNext(calls: seq<KernelCall>, c: KernelCall)
    requires Patient(calls) && (c.Send? ==> |calls| >= 2 && calls[|calls| - 1] == Probe(false))
    ensures Patient(calls + [c])
  {
  }

  lemma ProbeWaits(s: State, seen: bool, expired: bool)
    requires Waited(s.retirer, s.calls)
    ensures Waited(RetirerProbe(s, seen, expired).retirer, RetirerProbe(s, seen, expired).calls)
  {
    PatientNext(s.calls, Probe(true));
    PatientNext(s.calls, Probe(false));
    hide Patient;
  }

  lemma SendWaits(s: State)
    requires Waited(s.retirer, s.calls)
    ensures Waited(RetirerSend(s).retirer, RetirerSend(s).calls)
    ensures Waited(RetirerClose(s).retirer, RetirerClose(s).calls)
  {
    if s.retirer == SendingTerm { PatientNext(s.calls, Send(Term)); }
    if s.retirer == SendingKill { PatientNext(s.calls, Send(Kill)); }
    hide Patient;
  }

  lemma StepWaits(s: State, a: Action)
    requires Waited(s.retirer, s.calls)
    ensures Waited(Step(s, a).retirer, Step(s, a).calls)
  {
    hide RetirerProbe, RetirerSend, RetirerClose;
    if s.retirer != NotStarted {
      RetirerAfter(s, a);
      ProbeWaits(s, a.RetirerProbes? && a.seen, a.RetirerProbes? && a.expired);
      SendWaits(s);
      hide Step, Waited;
    } else {
      NotYetStarted(s, a);
    }
  }

  lemma CloserMayStart(s: State)
    ensures CloserStep(s).calls == s.calls
    ensures CloserStep(s).retirer == s.retirer || CloserStep(s).retirer == FirstProbe
  {
  }

  lemma ReaperMayStart(s: State)
    ensures ReaperStep(s).calls == s.calls
    ensures ReaperStep(s).retirer == s.retirer || ReaperStep(s).retirer == FirstProbe
  {
  }

  lemma NotYetStarted(s: State, a: Action)
    requires s.retirer == NotStarted
    ensures Step(s, a).calls == s.calls && (Step(s, a).retirer == NotStarted || Step(s, a).retirer == FirstProbe)
  {
    CloserMayStart(s);
    ReaperMayStart(s);
    hide CloserStep, ReaperStep;
  }

  /** In every interleaving stdin is closed before the group is even probed, and no signal comes without waiting. */
  lemma FriendlyFirst(actions: seq<Action>)
    ensures var s := Run(INITIAL, actions);
            (s.calls != [] ==> s.stdinCloses > 0) && Patient(s.calls)
  {
    FriendlyRun(actions);
  }

  lemma {:induction false} FriendlyRun(actions: seq<Action>)
    ensures var s := Run(INITIAL, actions);
            StdinFirst(s) && Waited(s.retirer, s.calls)
  {
    hide Step;
    if actions != [] {
      var front, a := actions[..|actions| - 1], actions[|actions| - 1];
      FriendlyRun(front);
      hide Waited, StdinFirst;
      StdinStaysFirst(Run(INITIAL, front), a);
      StepWaits(Run(INITIAL, front), a);
    }
  }

  function CloserTurns(actions: seq<Action>): nat {
    if actions == [] then 0
    else CloserTurns(actions[..|actions| - 1]) + (if actions[|actions| - 1].CloserSteps? then 1 else 0)
  }

  function CloserLeft(at: CloserAt): nat {
    match at
    case CloseNotCalled => 4 case ClosingDone => 3 case ClosingStdin => 2 case StartingRetirement => 1
    case CloseReturned => 0
  }

  lemma CloserStepCloses(s: State)
    requires s.closer != CloseNotCalled
    ensures CloserStep(s).closer != CloseNotCalled
    ensures CloserLeft(CloserStep(s).closer) == if s.closer == CloseReturned then 0 else CloserLeft(s.closer) - 1
  {
  }

  lemma OthersKeepCloser(s: State, a: Action)
    requires s.closer != CloseNotCalled && !a.CloserSteps?
    ensures Step(s, a).closer == s.closer
  {
  }

  lemma {:induction false} CloserGoesOn(s: State, more: seq<Action>)
    requires Inv(s) && s.closer != CloseNotCalled
    ensures Inv(Run(s, more)) && Run(s, more).closer != CloseNotCalled
    ensures CloserLeft(Run(s, more).closer) + CloserTurns(more) <= 3 || Run(s, more).closer == CloseReturned
  {
    if more != [] {
      var front, a := more[..|more| - 1], more[|more| - 1];
      CloserGoesOn(s, front);
      hide Inv, CloserStep;
      StepKeepsInv(Run(s, front), a);
      if a.CloserSteps? { CloserStepCloses(Run(s, front)); } else { OthersKeepCloser(Run(s, front), a); }
      hide Step;
    }
  }

  /** Three steps of the caller of `Close`, whatever else happens, and the session is done and in retirement. */
  lemma CloseStartsRetirement(s: State, more: seq<Action>)
    requires Inv(s) && s.closer != CloseNotCalled && CloserTurns(more) >= 3
    ensures Run(s, more).done == 1 && Run(s, more).retirer != NotStarted
  {
    CloserGoesOn(s, more);
    hide CallsFit;
  }

  // ---- The barrier can always be reached ----

  /** Steps still to take before the barrier closes, once no process and no reader holds it up. */
  function Remaining(s: State): nat {
    (match s.reaper
     case WaitingForRoot => 5 case ReaperClosesStdin => 4 case ReaperStartsRetirement => 3
     case WaitingForGroup => 2 case WaitingForReaders => 1 case ReaperFinished => 0)
    + (match s.retirer
       case NotStarted => 3 case FirstProbe => 2 case FriendlyGrace => 2 case SendingTerm => 3 case TermGrace => 2
       case SendingKill => 3 case KillGrace => 2 case ClosingGroup => 1 case Retired => 0)
    + (1 - if s.readersDone == 0 then 0 else 1)
  }

  /** The next step toward the barrier. */
  function NextStep(s: State): Action {
    if s.reaper == WaitingForRoot || s.reaper == ReaperClosesStdin || s.reaper == ReaperStartsRetirement
      then ReaperSteps
    else if Probing(s.retirer) then RetirerProbes(true, false)
    else if s.retirer == SendingTerm || s.retirer == SendingKill then RetirerSends
    else if s.retirer == ClosingGroup then RetirerCloses
    else if s.readersDone == 0 then ReadersWaited
    else ReaperSteps
  }

  lemma NextStepProgresses(s: State)
    requires Inv(s) && s.reaper != ReaperFinished
    requires !s.rootRunning && s.others == 0 && s.pumpEnded && s.drainEnded
    ensures var t := Step(s, NextStep(s));
            Remaining(t) < Remaining(s) && !t.rootRunning && t.others == 0 && t.pumpEnded && t.drainEnded
  {
    hide CallsFit;
  }

  /**
   Once the root and all other members have exited and both readers have ended, no reachable state
   is stuck: a bounded number of steps of the teardown goroutines closes the barrier.
   */
  lemma {:induction false} BarrierReachable(s: State) returns (actions: seq<Action>)
    requires Inv(s) && !s.rootRunning && s.others == 0 && s.pumpEnded && s.drainEnded
    ensures Run(s, actions).processDone == 1 && |actions| <= Remaining(s)
    decreases Remaining(s)
  {
    assert s.processDone == (if s.reaper == ReaperFinished then 1 else 0);
    hide Inv, Step, Remaining, NextStep;
    if s.reaper == ReaperFinished {
      actions := [];
    } else {
      var a := NextStep(s);
      StepKeepsInv(s, a);
      NextStepProgresses(s);
      var rest := BarrierReachable(Step(s, a));
      actions := [a] + rest;
      RunCons(s, a, rest);
    }
  }

  lemma {:induction false} RunCons(s: State, a: Action, rest: seq<Action>)
    ensures Run(s, [a] + rest) == Run(Step(s, a), rest)
  {
    hide Step;
    var all := [a] + rest;
    if rest == [] {
      assert all[..0] == [];
    } else {
      assert all[..|all| - 1] == [a] + rest[..|rest| - 1];
      RunCons(s, a, rest[..|rest| - 1]);
    }
  }
}
