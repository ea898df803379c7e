/** What a run of additions and trust signals amounts to, told from the operations themselves. */
module MemoryRuns {
  import opened Prelude
  import opened Ordering
  import opened Text
  import opened MemoryModel
  import opened MemoryStore

  /** Operation `i` gave the signal of that name to entry `id`, which existed by then. */
  ghost predicate GivenAt(u: Unicode, ops: seq<Operation>, i: nat, id: nat, name: string)
    requires i < |ops|
  {
    ops[i].TrustOp? && ops[i].id == id && ops[i].signal == name && 1 <= id <= |LogAfter(u, ops[..i])|
  }

  ghost predicate Given(u: Unicode, ops: seq<Operation>, id: nat, name: string) {
    exists i :: 0 <= i < |ops| && GivenAt(u, ops, i, id, name)
  }

  lemma GivenSnoc(u: Unicode, front: seq<Operation>, op: Operation, id: nat, name: string)
    ensures Given(u, front + [op], id, name)
            <==> Given(u, front, id, name)
                 || (op.TrustOp? && op.id == id && op.signal == name && 1 <= id <= |LogAfter(u, front)|)
  {
    hide LogAfter;
    var ops := front + [op];
    assert ops[..|front|] == front;
    forall i | 0 <= i < |front| ensures GivenAt(u, ops, i, id, name) <==> GivenAt(u, front, i, id, name) {
      assert ops[..i] == front[..i];
    }
    if Given(u, front, id, name) {
      var i :| 0 <= i < |front| && GivenAt(u, front, i, id, name);
      assert GivenAt(u, ops, i, id, name);
    }
    assert GivenAt(u, ops, |front|, id, name)
           <==> op.TrustOp? && op.id == id && op.signal == name && 1 <= id <= |LogAfter(u, front)|;
  }

  lemma SeenSnoc(log: seq<Entry>, e: Entry, id: nat, s: Signal)
    ensures SignalSeen(log + [e], id, s)
            <==> SignalSeen(log, id, s) || (IsSignal(e) && e.refId == id && e.signal == Some(s))
  {
    var longer := log + [e];
    if SignalSeen(log, id, s) {
      var i :| 0 <= i < |log| && SignalAt(log, i, id, s);
      assert SignalAt(longer, i, id, s);
    }
    if SignalSeen(longer, id, s) {
      var i :| 0 <= i < |longer| && SignalAt(longer, i, id, s);
      assert i < |log| ==> SignalAt(log, i, id, s);
    }
    assert SignalAt(longer, |log|, id, s) <==> IsSignal(e) && e.refId == id && e.signal == Some(s);
  }

  /** The signal an operation adds to the log is the one its name stands for. */
  lemma StepSignal(u: Unicode, log: seq<Entry>, op: Operation, id: nat)
    ensures var log' := LogStep(u, log, op);
            var accepted := op.TrustOp? && op.id == id && 1 <= id <= |log|;
            && (SignalSeen(log', id, Helpful) <==> SignalSeen(log, id, Helpful) || (accepted && op.signal == "helpful"))
            && (SignalSeen(log', id, Unhelpful)
                <==> SignalSeen(log, id, Unhelpful) || (accepted && op.signal == "unhelpful"))
  {
    hide SignalSeen, SyntheticText, TermsOf, TrimSpace, TermSet;
    var r := Outcome(u, log, op);
    if r.Ok? {
      SeenSnoc(log, r.value, id, Helpful);
      SeenSnoc(log, r.value, id, Unhelpful);
    }
  }

  /** The signals in the log of a run are exactly those given by name to entries that existed. */
  lemma {:induction false} SeenIsGiven(u: Unicode, ops: seq<Operation>, id: nat)
    ensures SignalSeen(LogAfter(u, ops), id, Helpful) <==> Given(u, ops, id, "helpful")
    ensures SignalSeen(LogAfter(u, ops), id, Unhelpful) <==> Given(u, ops, id, "unhelpful")
  {
    if ops != [] {
      var front, op := ops[..|ops| - 1], ops[|ops| - 1];
      assert ops == front + [op];
      assert LogAfter(u, ops) == LogStep(u, LogAfter(u, front), op);
      hide LogAfter, LogStep, SignalSeen, Given;
      SeenIsGiven(u, front, id);
      StepSignal(u, LogAfter(u, front), op, id);
      GivenSnoc(u, front, op, id, "helpful");
      GivenSnoc(u, front, op, id, "unhelpful");
    }
  }

  /**
   After any run, the trust of an entry is told by the names of the signals that were given to it, and
   nothing is stored for an entry that was given none.
   */
  lemma TrustByName(u: Unicode, ops: seq<Operation>, id: nat)
    requires 1 <= id <= |LogAfter(u, ops)|
    ensures var stored := Compile(u, LogAfter(u, ops)).entries[id].trust;
            var helpful, unhelpful := Given(u, ops, id, "helpful"), Given(u, ops, id, "unhelpful");
            && EffectiveTrust(stored) == 1.0 + (if helpful then 0.05 else 0.0) - (if unhelpful then 0.10 else 0.0)
            && (!helpful && !unhelpful ==> stored == 0.0)
  {
    hide LogAfter, SignalSeen, Given, PostingsOf, StatesOf, TrustOf;
    var log := LogAfter(u, ops);
    SeenIsGiven(u, ops, id);
    SignalsAreSeen(log, id);
    var signals := Signals(log, id);
    if signals != [] {
      assert signals[0] in signals && (signals[0] == Helpful || signals[0] == Unhelpful);
    }
  }

  // ---- What the state of an entity reports ----

  /** Entry `i` is the first one about the entity. */
  ghost predicate FirstAbout(u: Unicode, log: seq<Entry>, key: string, i: nat) {
    i < |log| && About(u, log[i], key) && forall j :: 0 <= j < i ==> !About(u, log[j], key)
  }

  /** Entry `i` is the last one about the entity. */
  ghost predicate LastAbout(u: Unicode, log: seq<Entry>, key: string, i: nat) {
    i < |log| && About(u, log[i], key) && forall j :: i < j < |log| ==> !About(u, log[j], key)
  }

  lemma StateNext(u: Unicode, log: seq<Entry>, e: Entry, key: string)
    requires key != ""
    ensures var before, after := StateOf(u, log, key), StateOf(u, log + [e], key);
            if !About(u, e, key) then after == before
            else && after.Some? && after.value.updatedAt == e.createdAt
                 && after.value.entity == if before.Some? then before.value.entity else e.entity
  {
    assert (log + [e])[..|log|] == log;
    hide SlotWrites, EntityKey, Overwrite, IsSignal;
  }

  lemma {:induction false} NoState(u: Unicode, log: seq<Entry>, key: string)
    requires key != ""
    ensures StateOf(u, log, key) == None <==> forall i :: 0 <= i < |log| ==> !About(u, log[i], key)
  {
    if log != [] {
      var front, e := log[..|log| - 1], log[|log| - 1];
      assert log == front + [e];
      hide StateOf, About;
      NoState(u, front, key);
      StateNext(u, front, e, key);
    }
  }

  lemma {:induction false} FirstNames(u: Unicode, log: seq<Entry>, key: string, i: nat)
    requires key != "" && FirstAbout(u, log, key, i)
    ensures StateOf(u, log, key).Some? && StateOf(u, log, key).value.entity == log[i].entity
  {
    var n := |log| - 1;
    var front, e := log[..n], log[n];
    assert log == front + [e];
    hide StateOf, About;
    StateNext(u, front, e, key);
    if i == n {
      NoState(u, front, key);
    } else {
      FirstNames(u, front, key, i);
    }
  }

  lemma {:induction false} LastDates(u: Unicode, log: seq<Entry>, key: string, i: nat)
    requires key != "" && LastAbout(u, log, key, i)
    ensures StateOf(u, log, key).Some? && StateOf(u, log, key).value.updatedAt == log[i].createdAt
  {
    var n := |log| - 1;
    var front, e := log[..n], log[n];
    assert log == front + [e];
    hide StateOf, About;
    StateNext(u, front, e, key);
    if i < n { LastDates(u, front, key, i); }
  }

  /** The entity is named as its first entry names it and dated by its last; without entries there is no state. */
  lemma StateReports(u: Unicode, log: seq<Entry>, key: string)
    requires key != ""
    ensures StateOf(u, log, key) == None <==> forall i :: 0 <= i < |log| ==> !About(u, log[i], key)
    ensures forall i: nat :: FirstAbout(u, log, key, i) ==>
              StateOf(u, log, key).Some? && StateOf(u, log, key).value.entity == log[i].entity
    ensures forall i: nat :: LastAbout(u, log, key, i) ==>
              StateOf(u, log, key).Some? && StateOf(u, log, key).value.updatedAt == log[i].createdAt
  {
    hide StateOf, About;
    NoState(u, log, key);
    forall i: nat | FirstAbout(u, log, key, i)
      ensures StateOf(u, log, key).Some? && StateOf(u, log, key).value.entity == log[i].entity
    {
      FirstNames(u, log, key, i);
    }
    forall i: nat | LastAbout(u, log, key, i)
      ensures StateOf(u, log, key).Some? && StateOf(u, log, key).value.updatedAt == log[i].createdAt
    {
      LastDates(u, log, key, i);
    }
  }

  /** The key `raw` of the table sets slot `k`. */
  predicate Sets(u: Unicode, slots: map<string, string>, raw: string, k: string) {
    raw in slots && NormalizePhrase(u, raw) == k && TrimSpace(u, slots[raw]) != ""
  }

  lemma WrittenSnoc(writes: seq<(string, string)>, w: (string, string), k: string)
    ensures WrittenValue(writes + [w], k) == if w.0 == k then Some(w.1) else WrittenValue(writes, k)
    ensures writes + [] == writes
  {
    assert (writes + [w])[..|writes|] == writes;
  }

  lemma WrittenNext(u: Unicode, slots: map<string, string>, front: seq<string>, raw: string, k: string)
    requires k != "" && raw in slots && forall other :: other in front ==> other in slots
    ensures WrittenValue(Writes(u, slots, front + [raw]), k)
         == if Sets(u, slots, raw, k) then Some(TrimSpace(u, slots[raw])) else WrittenValue(Writes(u, slots, front), k)
  {
    var keys, key, value := front + [raw], NormalizePhrase(u, raw), TrimSpace(u, slots[raw]);
    assert keys[..|keys| - 1] == front && keys[|keys| - 1] == raw;
    var writes := Writes(u, slots, front);
    assert Writes(u, slots, keys) == writes + (if key == "" || value == "" then [] else [(key, value)]);
    hide Writes, NormalizePhrase, TrimSpace;
    WrittenSnoc(writes, (key, value), k);
    hide WrittenValue;
  }

  lemma {:induction false} WrittenByKey(u: Unicode, slots: map<string, string>, keys: seq<string>, i: nat, k: string)
    requires k != "" && forall raw :: raw in keys ==> raw in slots
    requires i <= |keys| && forall j :: i < j < |keys| ==> !Sets(u, slots, keys[j], k)
    requires i < |keys| ==> Sets(u, slots, keys[i], k)
    requires i == |keys| ==> forall j :: 0 <= j < |keys| ==> !Sets(u, slots, keys[j], k)
    ensures WrittenValue(Writes(u, slots, keys), k)
         == if i < |keys| then Some(TrimSpace(u, slots[keys[i]])) else None
  {
    if keys != [] {
      var front, raw := keys[..|keys| - 1], keys[|keys| - 1];
      assert keys == front + [raw];
      WrittenNext(u, slots, front, raw, k);
      hide Writes, NormalizePhrase, TrimSpace, WrittenValue, Sets;
      if i != |front| { WrittenByKey(u, slots, front, if i < |front| then i else |front|, k); }
    }
  }

  /** Of all keys that normalise to the slot and hold a value, the largest one sets it. */
  lemma SlotValue(u: Unicode, e: Entry, k: string, raw: string)
    requires k != "" && Sets(u, e.slots, raw, k)
    requires forall other :: Sets(u, e.slots, other, k) ==> LexLe(other, raw)
    ensures WrittenValue(SlotWrites(u, e), k) == Some(TrimSpace(u, e.slots[raw]))
  {
    var keys := SortedKeys(e.slots);
    hide LexLe, NormalizePhrase, TrimSpace, Writes, WrittenValue;
    var i :| 0 <= i < |keys| && keys[i] == raw;
    forall j | i < j < |keys| ensures !Sets(u, e.slots, keys[j], k) {
      LexTotal(keys[i], keys[j]);
      assert LexLe(keys[i], keys[j]) && keys[i] != keys[j];
    }
    WrittenByKey(u, e.slots, keys, i, k);
  }

  /** A slot no key sets is not written. */
  lemma SlotUnset(u: Unicode, e: Entry, k: string)
    requires k != "" && forall raw :: !Sets(u, e.slots, raw, k)
    ensures WrittenValue(SlotWrites(u, e), k) == None
  {
    WrittenByKey(u, e.slots, SortedKeys(e.slots), |SortedKeys(e.slots)|, k);
  }

  /** The snapshot is dated by the newest entry. */
  lemma {:induction false} LatestIsNewest(log: seq<Entry>)
    ensures forall i :: 0 <= i < |log| ==> log[i].createdAt <= Latest(log)
    ensures Latest(log) == ZERO_TIME || exists i :: 0 <= i < |log| && log[i].createdAt == Latest(log)
  {
    if log != [] {
      var front := log[..|log| - 1];
      LatestIsNewest(front);
      assert forall i :: 0 <= i < |front| ==> front[i] == log[i];
    }
  }

  // ---- The text made up for an entry without one ----

  lemma {:induction false} PartsAre(u: Unicode, slots: map<string, string>, keys: seq<string>, p: string)
    requires forall k :: k in keys ==> k in slots
    ensures p in SlotParts(u, slots, keys)
            <==> exists k :: k in keys && TrimSpace(u, slots[k]) != "" && p == k + "=" + TrimSpace(u, slots[k])
  {
    hide TrimSpace;
    if keys != [] {
      var front, last := keys[..|keys| - 1], keys[|keys| - 1];
      assert keys == front + [last];
      PartsAre(u, slots, front, p);
    }
  }

  /** A record without a text gets one: the entity, and `key=value` for every slot with a value. */
  lemma SyntheticReads(u: Unicode, log: seq<Entry>, input: AddInput, now: int)
    requires now != ZERO_TIME && TrimSpace(u, input.text) == "" && Outcome(u, log, AddOp(input, now)).Ok?
    ensures exists parts ::
              && Outcome(u, log, AddOp(input, now)).value.text
                 == TrimSpace(u, TrimSpace(u, input.entity) + " " + Join(parts, " "))
              && forall p :: p in parts <==>
                   exists k :: k in input.slots && TrimSpace(u, input.slots[k]) != ""
                               && p == k + "=" + TrimSpace(u, input.slots[k])
  {
    var keys := SortedKeys(input.slots);
    var parts := SlotParts(u, input.slots, keys);
    assert TrimSpace(u, "") == "";
    TrimmedOnce(u, input.entity);
    TrimFixpoint(u, TrimSpace(u, input.entity));
    hide TrimSpace, TermsOf, SlotParts, LexLe, Join;
    forall p ensures p in parts <==>
                exists k :: k in input.slots && TrimSpace(u, input.slots[k]) != ""
                            && p == k + "=" + TrimSpace(u, input.slots[k])
    {
      PartsAre(u, input.slots, keys, p);
    }
    assert Outcome(u, log, AddOp(input, now)).value.text
        == TrimSpace(u, TrimSpace(u, input.entity) + " " + Join(parts, " "));
  }

  // ---- The terms an entry is found by ----

  /** `t` is a token of the key, the value or both joined by a blank, for some key of the table. */
  ghost predicate InPair(u: Unicode, m: map<string, string>, t: string) {
    exists k :: k in m && (t in Tokens(u, k) || t in Tokens(u, m[k]) || t in Tokens(u, k + " " + m[k]))
  }

  lemma PairTokensAre(u: Unicode, m: map<string, string>, t: string)
    ensures t in PairTokens(u, m) <==> InPair(u, m, t)
  {
    hide Tokens;
    assert t in PairTokens(u, m) <==> exists k :: k in m && t in KeyTokens(u, m, k);
    forall k | k in m
      ensures t in KeyTokens(u, m, k)
              <==> t in Tokens(u, k) || t in Tokens(u, m[k]) || t in Tokens(u, k + " " + m[k]) {}
  }

  lemma NormalTerms(u: Unicode, e: Entry)
    requires IsNormal(u, e)
    ensures forall t :: t in e.terms <==> t in TermSet(u, e)
  {
    hide TrimSpace, SyntheticText, TokenSet, PairTokens, LexLe;
    var n := Normalize(u, e, e.createdAt).(terms := e.terms);
    assert TermSet(u, n) == TermSet(u, e);
    assert Normalize(u, e, e.createdAt).terms == e.terms;
  }

  /** A normal entry is found by the tokens of all its parts, and by nothing else. */
  lemma TermsAreTokens(u: Unicode, e: Entry, t: string)
    requires IsNormal(u, e)
    ensures t in e.terms <==>
            t in Tokens(u, e.text) || t in Tokens(u, e.entity) || t in Tokens(u, e.source)
            || InPair(u, e.slots, t) || InPair(u, e.tags, t)
  {
    NormalTerms(u, e);
    PairTokensAre(u, e.slots, t);
    PairTokensAre(u, e.tags, t);
    hide Tokens, PairTokens, InPair, LexLe, IsNormal;
  }
}
