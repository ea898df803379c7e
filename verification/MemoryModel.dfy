/**
 What the compiled memory snapshot must contain, stated directly on the append-only log:
 postings by scanning the log, entity slots by last writer, trust by the set of signals seen.
 */
module MemoryModel {
  import opened Prelude
  import opened Ordering
  import opened Text
  import opened CivilDate
  import Timestamp

  const NANOS_PER_DAY: int := 86_400_000_000_000

  /** Go's zero time, 1 January of year 1, in nanoseconds since the Unix epoch. */
  const ZERO_TIME: int := -719_162 * NANOS_PER_DAY

  /** The signal names the engine accepts; `None` in an entry stands for the empty name. */
  datatype Signal = Helpful | Unhelpful

  datatype Entry = Entry(
    id: nat, createdAt: int, text: string, entity: string, source: string,
    slots: map<string, string>, tags: map<string, string>, terms: seq<string>,
    trust: real, signal: Option<Signal>, refId: nat)

  datatype EntityState = EntityState(entity: string, slots: map<string, string>, updatedAt: int, evidence: seq<nat>)

  type Postings = map<string, seq<nat>>

  datatype Snapshot = Snapshot(
    nextId: nat, updatedAt: int, entries: map<nat, Entry>, entryOrder: seq<nat>,
    tokenIndex: Postings, entityIndex: Postings, facetIndex: Postings,
    states: map<string, EntityState>, trustIndex: map<nat, seq<Signal>>)

  // ---- Normal entries ----

  ghost function SortedKeys(m: map<string, string>): (keys: seq<string>)
    ensures IsRanking(keys, m.Keys, LexLe)
  {
    LexTotalOrder(m.Keys);
    Ranking(m.Keys, LexLe)
  }

  /** `key=value` for every key with a non-blank value. */
  ghost function SlotParts(u: Unicode, slots: map<string, string>, keys: seq<string>): seq<string>
    requires forall k :: k in keys ==> k in slots
  {
    if keys == [] then [] else
      var k := keys[|keys| - 1];
      var v := TrimSpace(u, slots[k]);
      SlotParts(u, slots, keys[..|keys| - 1]) + (if v == "" then [] else [k + "=" + v])
  }

  ghost function SyntheticText(u: Unicode, entity: string, slots: map<string, string>): string {
    TrimSpace(u, entity + " " + Join(SlotParts(u, slots, SortedKeys(slots)), " "))
  }

  function KeyTokens(u: Unicode, m: map<string, string>, k: string): set<string>
    requires k in m
  {
    TokenSet(u, k) + TokenSet(u, m[k]) + TokenSet(u, k + " " + m[k])
  }

  ghost function TokensOfKeys(u: Unicode, m: map<string, string>, keys: set<string>): set<string>
    requires keys <= m.Keys
  {
    set k, t | k in keys && t in KeyTokens(u, m, k) :: t
  }

  ghost function PairTokens(u: Unicode, m: map<string, string>): set<string> {
    TokensOfKeys(u, m, m.Keys)
  }

  ghost function TermSet(u: Unicode, e: Entry): set<string> {
    TokenSet(u, e.text) + TokenSet(u, e.entity) + TokenSet(u, e.source) + PairTokens(u, e.slots) + PairTokens(u, e.tags)
  }

  ghost function TermsOf(u: Unicode, e: Entry): (terms: seq<string>)
    ensures IsRanking(terms, TermSet(u, e), LexLe)
  {
    LexTotalOrder(TermSet(u, e));
    Ranking(TermSet(u, e), LexLe)
  }

  /** The entry as `normalizeEntry` leaves it when the clock reads `now`. */
  ghost function Normalize(u: Unicode, e: Entry, now: int): Entry {
    var text, entity := TrimSpace(u, e.text), TrimSpace(u, e.entity);
    var e' := e.(text := if text == "" && entity != "" && e.slots != map[]
                    then SyntheticText(u, entity, e.slots) else text,
                 entity := entity,
                 source := TrimSpace(u, e.source),
                 createdAt := if e.createdAt == ZERO_TIME then now else e.createdAt);
    e'.(terms := TermsOf(u, e'))
  }

  /** Normalising a logged entry again, at any later time, changes nothing. */
  lemma NormalizeIdempotent(u: Unicode, e: Entry, now: int, later: int)
    requires now != ZERO_TIME
    ensures Normalize(u, Normalize(u, e, now), later) == Normalize(u, e, now)
  {
    var n := Normalize(u, e, now);
    TrimmedOnce(u, e.text);
    TrimmedOnce(u, e.entity);
    TrimmedOnce(u, e.source);
    TrimmedOnce(u, n.entity + " " + Join(SlotParts(u, n.slots, SortedKeys(n.slots)), " "));
    TrimFixpoint(u, n.text);
    TrimFixpoint(u, n.entity);
    TrimFixpoint(u, n.source);
    assert TermSet(u, n.(terms := [])) == TermSet(u, n);
  }

  // ---- Index keys ----

  /** The slots an entry writes, in key order: normalised key and trimmed value, blank ones skipped. */
  ghost function Writes(u: Unicode, slots: map<string, string>, keys: seq<string>): seq<(string, string)>
    requires forall k :: k in keys ==> k in slots
  {
    if keys == [] then [] else
      var k := keys[|keys| - 1];
      var key, value := NormalizePhrase(u, k), TrimSpace(u, slots[k]);
      Writes(u, slots, keys[..|keys| - 1]) + (if key == "" || value == "" then [] else [(key, value)])
  }

  ghost function SlotWrites(u: Unicode, e: Entry): seq<(string, string)> {
    Writes(u, e.slots, SortedKeys(e.slots))
  }

  function WriteFacets(u: Unicode, writes: seq<(string, string)>): seq<string> {
    if writes == [] then [] else
      var w := writes[|writes| - 1];
      WriteFacets(u, writes[..|writes| - 1])
      + ["slot." + w.0 + "=" + NormalizePhrase(u, w.1), w.0 + "=" + NormalizePhrase(u, w.1)]
  }

  function TagFacets(u: Unicode, tags: map<string, string>, keys: seq<string>): seq<string>
    requires forall k :: k in keys ==> k in tags
  {
    if keys == [] then [] else
      var k := keys[|keys| - 1];
      var key, value := NormalizePhrase(u, k), NormalizePhrase(u, tags[k]);
      TagFacets(u, tags, keys[..|keys| - 1])
      + (if key == "" || value == "" then [] else ["tag." + key + "=" + value, key + "=" + value])
  }

  function DayFacet(createdAt: int): string {
    CivilRoundTrip(createdAt / NANOS_PER_DAY);
    "day=" + Timestamp.DateString(CivilFromDays(createdAt / NANOS_PER_DAY))
  }

  function EntityKey(u: Unicode, e: Entry): string {
    NormalizePhrase(u, e.entity)
  }

  /** Every facet string stored for an entry. Slots count only on entries about an entity. */
  ghost function FacetList(u: Unicode, e: Entry): seq<string> {
    (if EntityKey(u, e) == "" then [] else ["entity=" + EntityKey(u, e)] + WriteFacets(u, SlotWrites(u, e)))
    + TagFacets(u, e.tags, SortedKeys(e.tags))
    + [DayFacet(e.createdAt)]
  }

  datatype Kind = Token | Entity | Facet

  ghost function KeysOf(u: Unicode, kind: Kind, e: Entry): set<string> {
    match kind
    case Token => Elements(e.terms)
    case Entity => if EntityKey(u, e) == "" then {} else {EntityKey(u, e)}
    case Facet => Elements(FacetList(u, e))
  }

  predicate IsSignal(e: Entry) {
    e.signal.Some? && e.refId != 0
  }

  // ---- Scans of the log ----

  /** Ids of the content entries of the log that carry `key`, in log order. */
  ghost function Scan(u: Unicode, kind: Kind, log: seq<Entry>, key: string): seq<nat> {
    if log == [] then [] else
      var e := log[|log| - 1];
      Scan(u, kind, log[..|log| - 1], key) + (if !IsSignal(e) && key in KeysOf(u, kind, e) then [e.id] else [])
  }

  /** The distinct signals recorded for entry `id`, in order of first appearance. */
  ghost function Signals(log: seq<Entry>, id: nat): seq<Signal> {
    if log == [] then [] else
      var e := log[|log| - 1];
      var before := Signals(log[..|log| - 1], id);
      if IsSignal(e) && e.refId == id && e.signal.value !in before then before + [e.signal.value] else before
  }

  /** The trust stored after those signals; 0 stands for a field that was never written. */
  function StoredTrust(signals: seq<Signal>): real {
    if signals == [] then 0.0
    else 1.0 + (if Helpful in signals then 0.05 else 0.0) - (if Unhelpful in signals then 0.10 else 0.0)
  }

  function EffectiveTrust(t: real): real {
    if t == 0.0 then 1.0 else t
  }

  /** The slot table of one entity after the whole log. */
  ghost function StateOf(u: Unicode, log: seq<Entry>, key: string): Option<EntityState> {
    if log == [] then None else
      var e := log[|log| - 1];
      var before := StateOf(u, log[..|log| - 1], key);
      if IsSignal(e) || key == "" || EntityKey(u, e) != key then before
      else Some(ExtendState(u, before, e))
  }

  ghost function ExtendState(u: Unicode, before: Option<EntityState>, e: Entry): EntityState {
    var prior := if before.Some? then before.value else EntityState(e.entity, map[], ZERO_TIME, []);
    EntityState(prior.entity, Overwrite(prior.slots, SlotWrites(u, e)), e.createdAt, prior.evidence + [e.id])
  }

  function Overwrite(slots: map<string, string>, writes: seq<(string, string)>): map<string, string> {
    if writes == [] then slots
    else Overwrite(slots, writes[..|writes| - 1])[writes[|writes| - 1].0 := writes[|writes| - 1].1]
  }

  ghost function Latest(log: seq<Entry>): int {
    if log == [] then ZERO_TIME else
      var before := Latest(log[..|log| - 1]);
      if log[|log| - 1].createdAt > before then log[|log| - 1].createdAt else before
  }

  function WithTrust(e: Entry, t: real): Entry {
    e.(trust := t)
  }

  /** Entry `id` of the log with the trust it has earned by the end of the log. */
  ghost function Rated(log: seq<Entry>, id: nat): Entry
    requires 1 <= id <= |log|
  {
    WithTrust(log[id - 1], StoredTrust(Signals(log, id)))
  }

  // ---- Reachable logs and the snapshot compiled from one ----

  ghost predicate SoundAt(log: seq<Entry>, i: nat)
    requires i < |log|
  {
    var e := log[i];
    && e.id == i + 1
    && e.trust == 0.0
    && (e.signal.None? <==> e.refId == 0)
    && e.refId <= i
  }

  /** One writer without crashes: ids 1..n, and signals only about earlier entries. */
  ghost predicate Sound(log: seq<Entry>) {
    forall i :: 0 <= i < |log| ==> SoundAt(log, i)
  }

  ghost predicate IsNormal(u: Unicode, e: Entry) {
    e.createdAt != ZERO_TIME && Normalize(u, e, e.createdAt) == e
  }

  /** What `Add` and `Trust` write: a sound log of normal entries. */
  ghost predicate WellFormed(u: Unicode, log: seq<Entry>) {
    Sound(log) && forall i :: 0 <= i < |log| ==> IsNormal(u, log[i])
  }

  function Lookup(m: Postings, key: string): seq<nat> {
    if key in m then m[key] else []
  }

  ghost predicate IndexIs(u: Unicode, kind: Kind, m: Postings, log: seq<Entry>) {
    forall key :: Lookup(m, key) == Scan(u, kind, log, key) && (key in m <==> Lookup(m, key) != [])
  }

  ghost predicate StatesAre(u: Unicode, states: map<string, EntityState>, log: seq<Entry>) {
    forall key :: (if key in states then Some(states[key]) else None) == StateOf(u, log, key)
  }

  ghost predicate TrustIs(trustIndex: map<nat, seq<Signal>>, log: seq<Entry>) {
    forall id: nat :: (if id in trustIndex then trustIndex[id] else []) == Signals(log, id)
                      && (id in trustIndex ==> trustIndex[id] != [])
  }

  ghost predicate EntriesAre(entries: map<nat, Entry>, log: seq<Entry>) {
    && (forall id: nat :: id in entries <==> 1 <= id <= |log|)
    && (forall id: nat :: id in entries ==> entries[id] == Rated(log, id))
  }

  // ---- The compiled snapshot ----

  ghost function KeysIn(u: Unicode, kind: Kind, log: seq<Entry>): set<string> {
    set i, key | 0 <= i < |log| && !IsSignal(log[i]) && key in KeysOf(u, kind, log[i]) :: key
  }

  ghost function PostingsOf(u: Unicode, kind: Kind, log: seq<Entry>): Postings {
    map key | key in KeysIn(u, kind, log) :: Scan(u, kind, log, key)
  }

  ghost function StatesOf(u: Unicode, log: seq<Entry>): map<string, EntityState> {
    map key | key in KeysIn(u, Entity, log) && StateOf(u, log, key).Some? :: StateOf(u, log, key).value
  }

  ghost function TrustOf(log: seq<Entry>): map<nat, seq<Signal>> {
    map id: nat | 0 <= id <= |log| && Signals(log, id) != [] :: Signals(log, id)
  }

  ghost function EntriesOf(log: seq<Entry>): map<nat, Entry> {
    map id: nat | 1 <= id <= |log| :: Rated(log, id)
  }

  function OrderOf(log: seq<Entry>): seq<nat> {
    seq(|log|, i => i + 1)
  }

  /** The snapshot of a log, every field by scanning the log: no field is built from an earlier snapshot. */
  ghost function Compile(u: Unicode, log: seq<Entry>): Snapshot {
    Snapshot(|log|, Latest(log), EntriesOf(log), OrderOf(log), PostingsOf(u, Token, log), PostingsOf(u, Entity, log),
             PostingsOf(u, Facet, log), StatesOf(u, log), TrustOf(log))
  }

  lemma {:induction false} ScanNonempty(u: Unicode, kind: Kind, log: seq<Entry>, key: string)
    ensures Scan(u, kind, log, key) != [] <==> key in KeysIn(u, kind, log)
  {
    hide KeysOf, IsSignal;
    if log != [] {
      var front, e := log[..|log| - 1], log[|log| - 1];
      ScanNonempty(u, kind, front, key);
      if i :| 0 <= i < |log| && !IsSignal(log[i]) && key in KeysOf(u, kind, log[i]) {
        assert i < |front| ==> front[i] == log[i];
      }
      if i :| 0 <= i < |front| && !IsSignal(front[i]) && key in KeysOf(u, kind, front[i]) {
        assert front[i] == log[i];
      }
    }
  }

  lemma IndexIsPostings(u: Unicode, kind: Kind, m: Postings, log: seq<Entry>)
    ensures IndexIs(u, kind, m, log) <==> m == PostingsOf(u, kind, log)
  {
    hide Scan, KeysIn;
    var n := PostingsOf(u, kind, log);
    forall key ensures Lookup(n, key) == Scan(u, kind, log, key) && (key in n <==> Lookup(n, key) != []) {
      ScanNonempty(u, kind, log, key);
    }
    if IndexIs(u, kind, m, log) {
      IndexUnique(u, kind, m, n, log);
    }
  }

  lemma IndexUnique(u: Unicode, kind: Kind, m: Postings, n: Postings, log: seq<Entry>)
    requires IndexIs(u, kind, m, log) && IndexIs(u, kind, n, log)
    ensures m == n
  {
    forall key ensures key in m <==> key in n
               ensures key in m ==> m[key] == n[key]
    {
      assert Lookup(m, key) == Lookup(n, key);
    }
    assert m.Keys == n.Keys;
  }

  lemma {:induction false} StateNonempty(u: Unicode, log: seq<Entry>, key: string)
    ensures StateOf(u, log, key).Some? ==> key in KeysIn(u, Entity, log)
  {
    if log != [] {
      var front := log[..|log| - 1];
      StateNonempty(u, front, key);
      if key in KeysIn(u, Entity, front) {
        var i :| 0 <= i < |front| && !IsSignal(front[i]) && key in KeysOf(u, Entity, front[i]);
        assert front[i] == log[i];
      }
      var e := log[|log| - 1];
      assert !IsSignal(e) && key in KeysOf(u, Entity, e) ==> key in KeysIn(u, Entity, log);
    }
  }

  lemma StatesAreStates(u: Unicode, states: map<string, EntityState>, log: seq<Entry>)
    ensures StatesAre(u, states, log) <==> states == StatesOf(u, log)
  {
    var t := StatesOf(u, log);
    forall key ensures (if key in t then Some(t[key]) else None) == StateOf(u, log, key) {
      StateNonempty(u, log, key);
    }
    if StatesAre(u, states, log) {
      forall key ensures key in states <==> key in t
                 ensures key in states ==> states[key] == t[key]
      {
        assert (if key in states then Some(states[key]) else None) == StateOf(u, log, key);
      }
      assert states.Keys == t.Keys;
    }
  }

  lemma {:induction false} SignalsCiteTheLog(log: seq<Entry>, id: nat)
    requires Sound(log) && id > |log|
    ensures Signals(log, id) == []
  {
    if log != [] {
      assert SoundAt(log, |log| - 1);
      var front := log[..|log| - 1];
      assert Sound(front) by {
        forall i | 0 <= i < |front| ensures SoundAt(front, i) { assert SoundAt(log, i); }
      }
      SignalsCiteTheLog(front, id);
    }
  }

  lemma TrustIsTrust(trustIndex: map<nat, seq<Signal>>, log: seq<Entry>)
    requires Sound(log)
    ensures TrustIs(trustIndex, log) <==> trustIndex == TrustOf(log)
  {
    var t := TrustOf(log);
    forall id: nat ensures (if id in t then t[id] else []) == Signals(log, id) {
      if id > |log| { SignalsCiteTheLog(log, id); }
    }
    if TrustIs(trustIndex, log) {
      forall id: nat ensures id in trustIndex <==> id in t
                     ensures id in trustIndex ==> trustIndex[id] == t[id]
      {
        assert (if id in trustIndex then trustIndex[id] else []) == Signals(log, id);
      }
      assert trustIndex.Keys == t.Keys;
    }
  }

  lemma EntriesAreEntries(entries: map<nat, Entry>, log: seq<Entry>)
    ensures EntriesAre(entries, log) <==> entries == EntriesOf(log)
  {
    if EntriesAre(entries, log) {
      assert entries.Keys == EntriesOf(log).Keys;
    }
  }

  // ---- Facts about scans ----

  /** The entry with this id is content and has the key. */
  ghost predicate HasKey(u: Unicode, kind: Kind, log: seq<Entry>, id: nat, key: string) {
    1 <= id <= |log| && !IsSignal(log[id - 1]) && key in KeysOf(u, kind, log[id - 1])
  }

  lemma HasKeySnoc(u: Unicode, kind: Kind, log: seq<Entry>, e: Entry, id: nat, key: string)
    ensures HasKey(u, kind, log + [e], id, key)
            <==> HasKey(u, kind, log, id, key) || (id == |log| + 1 && !IsSignal(e) && key in KeysOf(u, kind, e))
  {
    hide KeysOf, IsSignal;
  }

  lemma AscendingSnoc(ids: seq<nat>, id: nat)
    requires Ascending(ids) && forall i :: 0 <= i < |ids| ==> ids[i] < id
    ensures Ascending(ids + [id])
  {
  }

  lemma {:induction false} ScanHasKeys(u: Unicode, kind: Kind, log: seq<Entry>, key: string)
    requires forall i :: 0 <= i < |log| ==> log[i].id == i + 1
    ensures forall id :: id in Scan(u, kind, log, key) <==> HasKey(u, kind, log, id, key)
    ensures forall i :: 0 <= i < |Scan(u, kind, log, key)| ==> Scan(u, kind, log, key)[i] <= |log|
    ensures Ascending(Scan(u, kind, log, key))
  {
    if log != [] {
      var front, last := log[..|log| - 1], log[|log| - 1];
      var ids, keep := Scan(u, kind, front, key), !IsSignal(last) && key in KeysOf(u, kind, last);
      assert Scan(u, kind, log, key) == ids + (if keep then [last.id] else []);
      assert log == front + [last];
      hide KeysOf, IsSignal, Scan, HasKey;
      ScanHasKeys(u, kind, front, key);
      forall id: nat { HasKeySnoc(u, kind, front, last, id, key); }
      hide Ascending;
      if keep { AscendingSnoc(ids, last.id); }
    }
  }

  lemma ScanMembers(u: Unicode, kind: Kind, log: seq<Entry>, key: string)
    requires forall i :: 0 <= i < |log| ==> log[i].id == i + 1
    ensures forall id :: id in Scan(u, kind, log, key) <==>
              1 <= id <= |log| && !IsSignal(log[id - 1]) && key in KeysOf(u, kind, log[id - 1])
    ensures Ascending(Scan(u, kind, log, key))
  {
    hide KeysOf, IsSignal, Scan;
    ScanHasKeys(u, kind, log, key);
  }

  predicate Ascending(ids: seq<nat>) {
    forall i, j :: 0 <= i < j < |ids| ==> ids[i] < ids[j]
  }

  /** The record of an entry lists, once each, exactly the signals the log holds for it. */
  lemma {:induction false} SignalsAreSeen(log: seq<Entry>, id: nat)
    ensures forall i, j :: 0 <= i < j < |Signals(log, id)| ==> Signals(log, id)[i] != Signals(log, id)[j]
    ensures forall s :: s in Signals(log, id) <==> SignalSeen(log, id, s)
  {
    if log != [] {
      var front := log[..|log| - 1];
      SignalsAreSeen(front, id);
      forall s ensures SignalSeen(log, id, s) <==> SignalSeen(front, id, s) || SignalAt(log, |log| - 1, id, s) {
        if i :| 0 <= i < |front| && SignalAt(front, i, id, s) { assert SignalAt(log, i, id, s); }
        if i :| 0 <= i < |log| && SignalAt(log, i, id, s) { assert i < |front| ==> SignalAt(front, i, id, s); }
      }
    }
  }

  predicate SignalAt(log: seq<Entry>, i: nat, id: nat, s: Signal)
    requires i < |log|
  {
    IsSignal(log[i]) && log[i].refId == id && log[i].signal == Some(s)
  }

  ghost predicate SignalSeen(log: seq<Entry>, id: nat, s: Signal) {
    exists i :: 0 <= i < |log| && SignalAt(log, i, id, s)
  }
}
