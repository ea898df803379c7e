/**
 The evaluation runner's worker pool: a sender, any number of workers, a goroutine that closes the
 result channel once all workers have returned, and the collecting loop. Their steps interleave in
 any order; tests are named by their position in the configuration.
 */
module EvalPool {
  import opened Prelude

  datatype TestCase = TestCase(description: string, skip: bool)

  datatype TestResult = TestResult(
    description: string, passed: bool, output: string, inputTokens: int, outputTokens: int, costUSD: real)

  datatype EvalResults = EvalResults(
    tests: seq<TestResult>, total: nat, passed: nat, failed: nat,
    inputTokens: int, outputTokens: int, costUSD: real, failedTests: seq<string>)

  const EMPTY := EvalResults([], 0, 0, 0, 0, 0, 0.0, [])

  /**
   A run is asked for some concurrency. What each test would yield is chosen beforehand, by any
   `outcome`: a model's answers cannot be predicted, but no test is run twice.
   */
  datatype Setup = Setup(tests: seq<TestCase>, outcome: nat -> TestResult, concurrency: int)

  /** A result carries its test's description; a skipped test passes without having run. */
  predicate Answers(r: TestResult, tc: TestCase) {
    && r.description == tc.description
    && (tc.skip ==> r == TestResult(tc.description, true, "(skipped)", 0, 0, 0.0))
  }

  predicate Valid(setup: Setup) {
    forall i :: 0 <= i < |setup.tests| ==> Answers(setup.outcome(i), setup.tests[i])
  }

  // ---- Tallying ----

  function Record(results: EvalResults, r: TestResult): EvalResults {
    var counted := results.(
      tests := results.tests + [r], inputTokens := results.inputTokens + r.inputTokens,
      outputTokens := results.outputTokens + r.outputTokens, costUSD := results.costUSD + r.costUSD);
    if r.passed then counted.(passed := counted.passed + 1)
    else counted.(failed := counted.failed + 1, failedTests := counted.failedTests + [r.description])
  }

  function RecordAll(rs: seq<TestResult>): EvalResults {
    if rs == [] then EMPTY else Record(RecordAll(rs[..|rs| - 1]), rs[|rs| - 1])
  }

  lemma RecordNext(rs: seq<TestResult>, i: nat)
    requires i < |rs|
    ensures RecordAll(rs[..i + 1]) == Record(RecordAll(rs[..i]), rs[i])
    ensures rs[..i + 1] == rs[..i] + [rs[i]]
  {
    assert rs[..i + 1][..i] == rs[..i];
  }

  /** The collecting loop over everything the result channel yields before it closes. */
  method Collect(received: seq<TestResult>) returns (results: EvalResults)
    ensures results == RecordAll(received).(total := |received|)
  {
    var tests, passed, failed, failedTests := [], 0, 0, [];
    var inputTokens, outputTokens, costUSD := 0, 0, 0.0;
    for i := 0 to |received|
      invariant RecordAll(received[..i])
                == EvalResults(tests, 0, passed, failed, inputTokens, outputTokens, costUSD, failedTests)
      invariant tests == received[..i]
    {
      hide RecordAll;
      var r := received[i];
      RecordNext(received, i);
      tests := tests + [r];
      inputTokens := inputTokens + r.inputTokens;
      outputTokens := outputTokens + r.outputTokens;
      costUSD := costUSD + r.costUSD;
      if r.passed {
        passed := passed + 1;
      } else {
        failed := failed + 1;
        failedTests := failedTests + [r.description];
      }
    }
    assert received[..|received|] == received;
    results := EvalResults(tests, |tests|, passed, failed, inputTokens, outputTokens, costUSD, failedTests);
  }

  /** The numbers in a tally, which can be added in any order. */
  datatype Totals = Totals(passed: int, failed: int, inputTokens: int, outputTokens: int, costUSD: real) {
    function Plus(that: Totals): Totals {
      Totals(passed + that.passed, failed + that.failed, inputTokens + that.inputTokens,
             outputTokens + that.outputTokens, costUSD + that.costUSD)
    }
  }

  const ZERO := Totals(0, 0, 0, 0, 0.0)

  function TotalsOf(r: TestResult): Totals {
    Totals(if r.passed then 1 else 0, if r.passed then 0 else 1, r.inputTokens, r.outputTokens, r.costUSD)
  }

  function Sum(outcome: nat -> TestResult, ids: seq<nat>): Totals {
    if ids == [] then ZERO else TotalsOf(outcome(ids[0])).Plus(Sum(outcome, ids[1..]))
  }

  function ResultsOf(outcome: nat -> TestResult, ids: seq<nat>): (rs: seq<TestResult>)
    ensures |rs| == |ids| && forall k :: 0 <= k < |ids| ==> rs[k] == outcome(ids[k])
  {
    seq(|ids|, k requires 0 <= k < |ids| => outcome(ids[k]))
  }

  function FailedOf(rs: seq<TestResult>): seq<string> {
    if rs == [] then []
    else FailedOf(rs[..|rs| - 1]) + (if rs[|rs| - 1].passed then [] else [rs[|rs| - 1].description])
  }

  lemma {:induction false} SumSnoc(outcome: nat -> TestResult, ids: seq<nat>, id: nat)
    ensures Sum(outcome, ids + [id]) == Sum(outcome, ids).Plus(TotalsOf(outcome(id)))
  {
    if ids == [] {
      assert Sum(outcome, [id]) == TotalsOf(outcome(id)).Plus(Sum(outcome, [id][1..]));
    } else {
      SumSnoc(outcome, ids[1..], id);
      assert (ids + [id])[1..] == ids[1..] + [id];
    }
  }

  lemma {:induction false} SumWithout(outcome: nat -> TestResult, ids: seq<nat>, k: nat)
    requires k < |ids|
    ensures Sum(outcome, ids) == TotalsOf(outcome(ids[k])).Plus(Sum(outcome, ids[..k] + ids[k + 1..]))
  {
    if k == 0 {
      assert ids[..0] + ids[1..] == ids[1..];
    } else {
      SumWithout(outcome, ids[1..], k - 1);
      assert (ids[..k] + ids[k + 1..])[1..] == ids[1..][..k - 1] + ids[1..][k..];
    }
  }

  /** A sum does not depend on the order of the tests. */
  lemma {:induction false} SumPermutes(outcome: nat -> TestResult, ids: seq<nat>, others: seq<nat>)
    requires multiset(ids) == multiset(others)
    ensures Sum(outcome, ids) == Sum(outcome, others)
  {
    if ids == [] {
      assert |multiset(others)| == 0;
    } else {
      assert ids[0] in multiset(others);
      var k :| 0 <= k < |others| && others[k] == ids[0];
      var rest := others[..k] + others[k + 1..];
      assert ids == [ids[0]] + ids[1..];
      assert others == others[..k] + [others[k]] + others[k + 1..];
      assert multiset(rest) == multiset(others) - multiset{ids[0]};
      SumPermutes(outcome, ids[1..], rest);
      SumWithout(outcome, others, k);
    }
  }

  /** What a tally holds: every result in order, sums of their numbers, and the names of the failed. */
  ghost predicate Holds(t: EvalResults, rs: seq<TestResult>, sum: Totals) {
    && t.tests == rs && t.total == 0
    && Totals(t.passed, t.failed, t.inputTokens, t.outputTokens, t.costUSD) == sum
    && t.failedTests == FailedOf(rs)
    && t.passed + t.failed == |rs| && |t.failedTests| == t.failed
  }

  lemma RecordHolds(t: EvalResults, rs: seq<TestResult>, sum: Totals, r: TestResult)
    requires Holds(t, rs, sum)
    ensures Holds(Record(t, r), rs + [r], sum.Plus(TotalsOf(r)))
  {
    assert (rs + [r])[..|rs|] == rs;
  }

  lemma {:induction false} TallyIsSum(outcome: nat -> TestResult, ids: seq<nat>)
    ensures Holds(RecordAll(ResultsOf(outcome, ids)), ResultsOf(outcome, ids), Sum(outcome, ids))
  {
    if ids != [] {
      var rs, n := ResultsOf(outcome, ids), |ids| - 1;
      RecordNext(rs, n);
      assert ids == ids[..n] + [ids[n]];
      assert rs[..n + 1] == rs && rs[..n] == ResultsOf(outcome, ids[..n]);
      hide Holds, Sum, Record, RecordAll, ResultsOf, FailedOf;
      TallyIsSum(outcome, ids[..n]);
      SumSnoc(outcome, ids[..n], ids[n]);
      RecordHolds(RecordAll(rs[..n]), rs[..n], Sum(outcome, ids[..n]), rs[n]);
    }
  }

  // ---- The goroutines ----

  datatype Worker = Idle | Busy(test: nat) | Exited

  /** Work and results travel as test positions; the flag records a send or close that would panic. */
  datatype State = State(
    sent: nat, senderDone: bool, workChan: seq<nat>, workClosed: bool, workers: seq<Worker>,
    resultChan: seq<nat>, closerDone: bool, resultClosed: bool,
    collected: seq<nat>, results: EvalResults, finished: bool, panicked: bool)

  datatype Action =
    | SendWork
    | CloseWork
    | Receive(worker: nat)
    | Exit(worker: nat)
    | Deliver(worker: nat)
    | CloseResults
    | CollectOne
    | Finish

  /** A concurrency below one is raised to one. */
  function Initial(setup: Setup): State {
    var n := if setup.concurrency <= 0 then 1 else setup.concurrency;
    State(0, false, [], false, seq(n, _ => Idle), [], false, false, [], EMPTY, false, false)
  }

  /** Whether a party can take this step now, or would block. Both channels have room for every test. */
  predicate Enabled(s: State, a: Action, room: nat) {
    match a
    case SendWork => s.sent < room && (s.workClosed || |s.workChan| < room)
    case CloseWork => s.sent == room && !s.senderDone
    case Receive(w) => w < |s.workers| && s.workers[w] == Idle && s.workChan != []
    case Exit(w) => w < |s.workers| && s.workers[w] == Idle && s.workChan == [] && s.workClosed
    case Deliver(w) => w < |s.workers| && s.workers[w].Busy? && (s.resultClosed || |s.resultChan| < room)
    case CloseResults => !s.closerDone && forall w :: 0 <= w < |s.workers| ==> s.workers[w] == Exited
    case CollectOne => !s.finished && s.resultChan != []
    case Finish => !s.finished && s.resultChan == [] && s.resultClosed
  }

  function Step(s: State, a: Action, setup: Setup): State
    requires Enabled(s, a, |setup.tests|)
  {
    match a
    case SendWork =>
      if s.workClosed then s.(panicked := true) else s.(sent := s.sent + 1, workChan := s.workChan + [s.sent])
    case CloseWork =>
      s.(senderDone := true, workClosed := true, panicked := s.panicked || s.workClosed)
    case Receive(w) =>
      s.(workers := s.workers[w := Busy(s.workChan[0])], workChan := s.workChan[1..])
    case Exit(w) =>
      s.(workers := s.workers[w := Exited])
    case Deliver(w) =>
      if s.resultClosed then s.(panicked := true)
      else s.(workers := s.workers[w := Idle], resultChan := s.resultChan + [s.workers[w].test])
    case CloseResults =>
      s.(closerDone := true, resultClosed := true, panicked := s.panicked || s.resultClosed)
    case CollectOne =>
      s.(resultChan := s.resultChan[1..], collected := s.collected + [s.resultChan[0]],
        results := Record(s.results, setup.outcome(s.resultChan[0])))
    case Finish =>
      s.(finished := true, results := s.results.(total := |s.results.tests|))
  }

  /** The state after the given steps, if each of them is enabled when its turn comes. */
  function Run(setup: Setup, actions: seq<Action>): Option<State> {
    if actions == [] then Some(Initial(setup))
    else
      match Run(setup, actions[..|actions| - 1])
      case None => None
      case Some(s) =>
        var a := actions[|actions| - 1];
        if Enabled(s, a, |setup.tests|) then Some(Step(s, a, setup)) else None
  }

  // ---- Every test is in exactly one place ----

  /** The positions `0 .. n-1` in order. */
  function First(n: nat): (ids: seq<nat>)
    ensures |ids| == n
  {
    if n == 0 then [] else First(n - 1) + [n - 1]
  }

  function InHand(w: Worker): multiset<nat> {
    if w.Busy? then multiset{w.test} else multiset{}
  }

  function AllInHand(workers: seq<Worker>): multiset<nat> {
    if workers == [] then multiset{} else InHand(workers[0]) + AllInHand(workers[1..])
  }

  function Placed(s: State): multiset<nat> {
    multiset(s.workChan) + AllInHand(s.workers) + multiset(s.resultChan) + multiset(s.collected)
  }

  lemma AddBoth(h: multiset<nat>, a: multiset<nat>, b: multiset<nat>, c: multiset<nat>, d: multiset<nat>)
    requires a + b == c + d
    ensures h + a + b == h + c + d
  {
    assert h + a + b == h + (a + b);
    assert h + c + d == h + (c + d);
  }

  lemma {:induction false} HandChanges(workers: seq<Worker>, w: nat, next: Worker)
    requires w < |workers|
    ensures AllInHand(workers[w := next]) + InHand(workers[w]) == AllInHand(workers) + InHand(next)
  {
    var changed := workers[w := next];
    if w == 0 {
      var rest := AllInHand(workers[1..]);
      assert changed[1..] == workers[1..];
      assert InHand(next) + rest + InHand(workers[0]) == InHand(workers[0]) + rest + InHand(next);
    } else {
      HandChanges(workers[1..], w - 1, next);
      assert changed[1..] == workers[1..][w - 1 := next];
      AddBoth(InHand(workers[0]), AllInHand(changed[1..]), InHand(workers[w]), AllInHand(workers[1..]), InHand(next));
    }
  }

  /** Taking up a test adds it, handing in its result removes it, and returning changes nothing. */
  lemma HandMoves(workers: seq<Worker>, w: nat, test: nat)
    requires w < |workers|
    ensures workers[w] == Idle ==> AllInHand(workers[w := Busy(test)]) == AllInHand(workers) + multiset{test}
    ensures workers[w] == Idle ==> AllInHand(workers[w := Exited]) == AllInHand(workers)
    ensures workers[w] == Busy(test) ==> AllInHand(workers) == AllInHand(workers[w := Idle]) + multiset{test}
  {
    hide AllInHand;
    HandChanges(workers, w, Busy(test));
    HandChanges(workers, w, Exited);
    HandChanges(workers, w, Idle);
    PlusNothing(AllInHand(workers));
    PlusNothing(AllInHand(workers[w := Busy(test)]));
    PlusNothing(AllInHand(workers[w := Exited]));
    PlusNothing(AllInHand(workers[w := Idle]));
  }

  lemma PlusNothing(m: multiset<nat>)
    ensures m + multiset{} == m
  {
  }

  lemma {:induction false} HeldIsInHand(workers: seq<Worker>, w: nat)
    requires w < |workers| && workers[w].Busy?
    ensures workers[w].test in AllInHand(workers)
  {
    if w > 0 {
      HeldIsInHand(workers[1..], w - 1);
    }
  }

  lemma {:induction false} NoneInHand(workers: seq<Worker>)
    requires forall w :: 0 <= w < |workers| ==> !workers[w].Busy?
    ensures AllInHand(workers) == multiset{}
  {
    if workers != [] {
      NoneInHand(workers[1..]);
    }
  }

  // ---- The invariant ----

  ghost predicate SomeExited(workers: seq<Worker>) {
    exists w :: 0 <= w < |workers| && workers[w] == Exited
  }

  ghost predicate AllExited(workers: seq<Worker>) {
    forall w :: 0 <= w < |workers| ==> workers[w] == Exited
  }

  /** The order in which the channels are closed. */
  ghost predicate Ordered(s: State, room: nat) {
    && |s.workers| > 0 && s.sent <= room && !s.panicked
    && s.workClosed == s.senderDone && (s.senderDone ==> s.sent == room)
    && (SomeExited(s.workers) ==> s.workClosed && s.workChan == [])
    && s.resultClosed == s.closerDone && (s.closerDone ==> AllExited(s.workers))
    && (s.finished ==> s.resultClosed && s.resultChan == [])
  }

  ghost predicate Conserved(s: State) {
    Placed(s) == multiset(First(s.sent))
  }

  ghost predicate Tallied(s: State, setup: Setup) {
    var tally := RecordAll(ResultsOf(setup.outcome, s.collected));
    s.results == (if s.finished then tally.(total := |s.collected|) else tally)
  }

  ghost predicate Inv(s: State, setup: Setup) {
    Ordered(s, |setup.tests|) && Conserved(s) && Tallied(s, setup)
  }

  lemma StepKeepsOrder(s: State, a: Action, setup: Setup)
    requires Ordered(s, |setup.tests|) && Enabled(s, a, |setup.tests|)
    ensures Ordered(Step(s, a, setup), |setup.tests|)
  {
    hide Record;
    var t := Step(s, a, setup);
    if t.workers != s.workers {
      var w := a.worker;
      assert forall v :: 0 <= v < |s.workers| && v != w ==> t.workers[v] == s.workers[v];
    }
  }

  /** Moving an item from one place to the next changes nothing in the total. */
  lemma Moved(before: multiset<nat>, from: multiset<nat>, item: multiset<nat>, to: multiset<nat>, after: multiset<nat>)
    ensures before + (from + item) + to + after == before + from + (to + item) + after
  {
  }

  lemma TakenUp(from: multiset<nat>, item: multiset<nat>, to: multiset<nat>, x: multiset<nat>, y: multiset<nat>)
    ensures item + from + to + x + y == from + (to + item) + x + y
  {
  }

  lemma SamePlaces(s: State, t: State)
    requires s.workChan == t.workChan && s.workers == t.workers
    requires s.resultChan == t.resultChan && s.collected == t.collected
    ensures Placed(s) == Placed(t)
  {
  }

  lemma SendConserves(s: State, t: State)
    requires Conserved(s) && t.sent == s.sent + 1 && t.workChan == s.workChan + [s.sent]
    requires t.workers == s.workers && t.resultChan == s.resultChan && t.collected == s.collected
    ensures Conserved(t)
  {
    hide AllInHand;
    Moved(multiset{}, multiset{}, multiset{s.sent}, multiset(s.workChan),
          AllInHand(s.workers) + multiset(s.resultChan) + multiset(s.collected));
    assert First(s.sent + 1) == First(s.sent) + [s.sent];
  }

  lemma ReceiveConserves(s: State, t: State, w: nat)
    requires w < |s.workers| && s.workers[w] == Idle && s.workChan != []
    requires t.workers == s.workers[w := Busy(s.workChan[0])] && t.workChan == s.workChan[1..]
    requires t.resultChan == s.resultChan && t.collected == s.collected
    ensures Placed(t) == Placed(s)
  {
    var id := s.workChan[0];
    HandMoves(s.workers, w, id);
    hide AllInHand;
    assert s.workChan == [id] + t.workChan;
    assert multiset(s.workChan) == multiset{id} + multiset(t.workChan);
    TakenUp(multiset(t.workChan), multiset{id}, AllInHand(s.workers), multiset(s.resultChan), multiset(s.collected));
  }

  lemma ExitConserves(s: State, t: State, w: nat)
    requires w < |s.workers| && s.workers[w] == Idle && t.workers == s.workers[w := Exited]
    requires t.workChan == s.workChan && t.resultChan == s.resultChan && t.collected == s.collected
    ensures Placed(t) == Placed(s)
  {
    HandMoves(s.workers, w, 0);
    hide AllInHand;
  }

  lemma DeliverConserves(s: State, t: State, w: nat)
    requires w < |s.workers| && s.workers[w].Busy? && t.workers == s.workers[w := Idle]
    requires t.resultChan == s.resultChan + [s.workers[w].test]
    requires t.workChan == s.workChan && t.collected == s.collected
    ensures Placed(t) == Placed(s)
  {
    var id := s.workers[w].test;
    HandMoves(s.workers, w, id);
    hide AllInHand;
    Moved(multiset(s.workChan), AllInHand(t.workers), multiset{id}, multiset(s.resultChan), multiset(s.collected));
  }

  lemma CollectConserves(s: State, t: State)
    requires s.resultChan != [] && t.resultChan == s.resultChan[1..]
    requires t.collected == s.collected + [s.resultChan[0]]
    requires t.workChan == s.workChan && t.workers == s.workers
    ensures Placed(t) == Placed(s)
  {
    hide AllInHand;
    var id := s.resultChan[0];
    assert s.resultChan == [id] + s.resultChan[1..];
    Moved(multiset(s.workChan) + AllInHand(s.workers), multiset(t.resultChan), multiset{id},
          multiset(s.collected), multiset{});
  }

  lemma StepConserves(s: State, a: Action, setup: Setup)
    requires Ordered(s, |setup.tests|) && Conserved(s) && Enabled(s, a, |setup.tests|)
    ensures Conserved(Step(s, a, setup))
  {
    assert a == SendWork ==> !s.workClosed;
    assert a.Deliver? ==> !s.resultClosed;
    hide Record, Ordered, First, Placed;
    var t := Step(s, a, setup);
    match a
    case SendWork => SendConserves(s, t);
    case Receive(w) => ReceiveConserves(s, t, w);
    case Exit(w) => ExitConserves(s, t, w);
    case Deliver(w) => DeliverConserves(s, t, w);
    case CollectOne => CollectConserves(s, t);
    case _ => SamePlaces(s, t);
  }

  lemma StepTallies(s: State, a: Action, setup: Setup)
    requires Ordered(s, |setup.tests|) && Tallied(s, setup) && Enabled(s, a, |setup.tests|)
    ensures Tallied(Step(s, a, setup), setup)
  {
    hide Record;
    match a
    case CollectOne =>
      var rs := ResultsOf(setup.outcome, s.collected + [s.resultChan[0]]);
      assert rs[..|s.collected|] == ResultsOf(setup.outcome, s.collected);
    case Finish =>
      TallyIsSum(setup.outcome, s.collected);
    case _ =>
  }

  lemma SameWorkers(s: State, a: Action, setup: Setup)
    requires Enabled(s, a, |setup.tests|)
    ensures |Step(s, a, setup).workers| == |s.workers|
  {
    hide Record;
  }

  lemma {:induction false} ReachedKeepsInv(setup: Setup, actions: seq<Action>, s: State)
    requires Run(setup, actions) == Some(s)
    ensures Inv(s, setup) && |s.workers| == if setup.concurrency <= 0 then 1 else setup.concurrency
  {
    if actions == [] {
      NoneInHand(s.workers);
      assert ResultsOf(setup.outcome, []) == [];
    } else {
      var a := actions[|actions| - 1];
      var before := Run(setup, actions[..|actions| - 1]).value;
      SameWorkers(before, a, setup);
      hide Enabled, Step, Ordered, Conserved, Tallied;
      ReachedKeepsInv(setup, actions[..|actions| - 1], before);
      StepKeepsOrder(before, a, setup);
      StepConserves(before, a, setup);
      StepTallies(before, a, setup);
    }
  }

  /** No interleaving sends on a closed channel or closes a channel twice. */
  lemma NeverPanics(setup: Setup, actions: seq<Action>, s: State)
    requires Run(setup, actions) == Some(s)
    ensures !s.panicked
  {
    ReachedKeepsInv(setup, actions, s);
  }

  /** The passed tests are counted. */
  lemma {:induction false} SumCountsPassed(outcome: nat -> TestResult, n: nat)
    ensures Sum(outcome, First(n)).passed == |set k: nat | k < n && outcome(k).passed|
  {
    if n > 0 {
      SumCountsPassed(outcome, n - 1);
      SumSnoc(outcome, First(n - 1), n - 1);
      var fewer, all := set k: nat | k < n - 1 && outcome(k).passed, set k: nat | k < n && outcome(k).passed;
      assert all == if outcome(n - 1).passed then fewer + {n - 1} else fewer;
    }
  }

  /**
   A finished run, whatever the number of workers and the interleaving: every configured test has
   been collected exactly once with its own result, and every number equals the sum over the tests
   in the order of the configuration.
   */
  lemma FinishedRunIsComplete(setup: Setup, actions: seq<Action>, s: State)
    requires Run(setup, actions) == Some(s) && s.finished
    ensures multiset(s.collected) == multiset(First(|setup.tests|))
    ensures s.results.tests == ResultsOf(setup.outcome, s.collected)
    ensures s.results == RecordAll(s.results.tests).(total := |s.collected|)
    ensures var r, n := s.results, |setup.tests|;
            && Totals(r.passed, r.failed, r.inputTokens, r.outputTokens, r.costUSD) == Sum(setup.outcome, First(n))
            && r.passed + r.failed == r.total == n
            && |r.failedTests| == r.failed && r.failedTests == FailedOf(r.tests)
            && r.passed == |set k: nat | k < n && setup.outcome(k).passed|
  {
    SumCountsPassed(setup.outcome, |setup.tests|);
    ReachedKeepsInv(setup, actions, s);
    NoneInHand(s.workers);
    assert SomeExited(s.workers) by {
      assert s.workers[0] == Exited;
    }
    assert multiset(s.collected) == Placed(s);
    TallyIsSum(setup.outcome, s.collected);
    SumPermutes(setup.outcome, s.collected, First(|setup.tests|));
    assert |multiset(s.collected)| == |multiset(First(|setup.tests|))|;
  }

  lemma {:induction false} FirstBelow(n: nat)
    ensures forall id :: id in First(n) ==> id < n
  {
    if n > 0 {
      FirstBelow(n - 1);
    }
  }

  /** Each collected result answers the test it stands for; skipped tests are reported as passed. */
  lemma ResultsAnswerTests(setup: Setup, actions: seq<Action>, s: State, k: nat)
    requires Valid(setup) && Run(setup, actions) == Some(s) && s.finished && k < |setup.tests|
    ensures |s.results.tests| == |s.collected| == |setup.tests| && s.collected[k] < |setup.tests|
    ensures Answers(s.results.tests[k], setup.tests[s.collected[k]])
  {
    FinishedRunIsComplete(setup, actions, s);
    FirstBelow(|setup.tests|);
    var id := s.collected[k];
    assert id in multiset(s.collected);
    assert id in First(|setup.tests|);
  }

  // ---- Every run ends ----

  function Pending(w: Worker): nat {
    match w case Idle => 1 case Busy(_) => 3 case Exited => 0
  }

  function AllPending(workers: seq<Worker>): nat {
    if workers == [] then 0 else Pending(workers[0]) + AllPending(workers[1..])
  }

  /** Steps still to be taken by all parties together. */
  function Remaining(s: State, room: nat): int {
    4 * (room - s.sent) + 3 * |s.workChan| + AllPending(s.workers) + |s.resultChan|
    + (if s.senderDone then 0 else 1) + (if s.closerDone then 0 else 1) + (if s.finished then 0 else 1)
  }

  lemma {:induction false} PendingChanges(workers: seq<Worker>, w: nat, next: Worker)
    requires w < |workers|
    ensures AllPending(workers[w := next]) + Pending(workers[w]) == AllPending(workers) + Pending(next)
  {
    var changed := workers[w := next];
    if w == 0 {
      assert changed[1..] == workers[1..];
    } else {
      PendingChanges(workers[1..], w - 1, next);
      assert changed[1..] == workers[1..][w - 1 := next];
    }
  }

  lemma {:induction false} PendingIdle(n: nat)
    ensures AllPending(seq(n, _ => Idle)) == n
  {
    var all := seq(n, _ => Idle);
    if n > 0 {
      assert all[1..] == seq(n - 1, _ => Idle);
      PendingIdle(n - 1);
    }
  }

  lemma StepUsesOne(s: State, a: Action, setup: Setup)
    requires Ordered(s, |setup.tests|) && Enabled(s, a, |setup.tests|)
    ensures Remaining(Step(s, a, setup), |setup.tests|) <= Remaining(s, |setup.tests|) - 1
  {
    hide Record, AllPending;
    match a
    case Receive(w) =>
      PendingChanges(s.workers, w, Busy(s.workChan[0]));
    case Exit(w) =>
      PendingChanges(s.workers, w, Exited);
    case Deliver(w) =>
      PendingChanges(s.workers, w, Idle);
    case _ =>
  }

  lemma {:induction false} RunUsesSteps(setup: Setup, actions: seq<Action>, s: State)
    requires Run(setup, actions) == Some(s)
    ensures |actions| + Remaining(s, |setup.tests|) <= Remaining(Initial(setup), |setup.tests|)
  {
    if actions != [] {
      var a := actions[|actions| - 1];
      var before := Run(setup, actions[..|actions| - 1]).value;
      hide Enabled, Step, Remaining, Initial, Conserved, Tallied;
      RunUsesSteps(setup, actions[..|actions| - 1], before);
      ReachedKeepsInv(setup, actions[..|actions| - 1], before);
      StepUsesOne(before, a, setup);
    }
  }

  /** The channels always have room, so the only waits are for work, for workers and for results. */
  lemma SomeoneCanStep(s: State, setup: Setup) returns (a: Action)
    requires Inv(s, setup) && !s.finished
    ensures Enabled(s, a, |setup.tests|)
  {
    var room := |setup.tests|;
    assert |Placed(s)| == |multiset(First(s.sent))| == s.sent;
    if s.sent < room {
      a := SendWork;
    } else if !s.senderDone {
      a := CloseWork;
    } else if w :| 0 <= w < |s.workers| && s.workers[w].Busy? {
      HeldIsInHand(s.workers, w);
      assert |AllInHand(s.workers)| > 0;
      a := Deliver(w);
    } else if w :| 0 <= w < |s.workers| && s.workers[w] == Idle {
      a := if s.workChan == [] then Exit(w) else Receive(w);
    } else if !s.closerDone {
      a := CloseResults;
    } else {
      a := if s.resultChan == [] then Finish else CollectOne;
    }
  }

  /** No run deadlocks: it has boundedly many steps, and it can always be extended until it is finished. */
  lemma EveryRunFinishes(setup: Setup, actions: seq<Action>, s: State)
    requires Run(setup, actions) == Some(s)
    ensures |s.workers| == if setup.concurrency <= 0 then 1 else setup.concurrency
    ensures |actions| <= 4 * |setup.tests| + |s.workers| + 3
    ensures !s.finished ==> exists a :: Enabled(s, a, |setup.tests|)
  {
    ReachedKeepsInv(setup, actions, s);
    RunUsesSteps(setup, actions, s);
    var n := |Initial(setup).workers|;
    assert Initial(setup).workers == seq(n, _ => Idle);
    PendingIdle(n);
    if !s.finished {
      var a := SomeoneCanStep(s, setup);
    }
  }
}
