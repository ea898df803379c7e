/** The memory engine: an append-only log and the snapshot compiled from it, entry by entry. */
module MemoryStore {
  import opened Prelude
  import opened Ordering
  import opened Text
  import opened MemoryModel
  import Timestamp

  function AppendId(ids: seq<nat>, id: nat): seq<nat> {
    if |ids| > 0 && ids[|ids| - 1] == id then ids else ids + [id]
  }

  function Post(m: Postings, key: string, id: nat): Postings {
    m[key := AppendId(Lookup(m, key), id)]
  }

  // ---- Computing normal entries ----

  method KeysInOrder(m: map<string, string>) returns (keys: seq<string>)
    ensures keys == SortedKeys(m)
  {
    keys := SortedStrings(m.Keys);
    LexTotalOrder(m.Keys);
    RankingUnique(keys, SortedKeys(m), m.Keys, LexLe);
  }

  lemma SlotPartsSnoc(u: Unicode, slots: map<string, string>, keys: seq<string>, i: nat)
    requires i < |keys| && forall k :: k in keys ==> k in slots
    ensures SlotParts(u, slots, keys[..i + 1])
         == SlotParts(u, slots, keys[..i])
            + (if TrimSpace(u, slots[keys[i]]) == "" then [] else [keys[i] + "=" + TrimSpace(u, slots[keys[i]])])
  {
    assert keys[..i + 1][..i] == keys[..i];
  }

  method ComputeSyntheticText(u: Unicode, entity: string, slots: map<string, string>) returns (text: string)
    ensures text == SyntheticText(u, entity, slots)
  {
    var keys := KeysInOrder(slots);
    var parts := [];
    assert SlotParts(u, slots, keys[..0]) == [];
    hide TrimSpace, SlotParts;
    for i := 0 to |keys|
      invariant forall k :: k in keys ==> k in slots
      invariant parts == SlotParts(u, slots, keys[..i])
    {
      SlotPartsSnoc(u, slots, keys, i);
      var value := TrimSpace(u, slots[keys[i]]);
      if value == "" { continue; }
      parts := parts + [keys[i] + "=" + value];
    }
    assert keys[..|keys|] == keys;
    text := TrimSpace(u, entity + " " + Join(parts, " "));
  }

  lemma TokensOfKeysSnoc(u: Unicode, m: map<string, string>, keys: set<string>, k: string)
    requires keys <= m.Keys && k in m
    ensures TokensOfKeys(u, m, keys + {k}) == TokensOfKeys(u, m, keys) + KeyTokens(u, m, k)
  {
    forall t ensures t in TokensOfKeys(u, m, keys + {k}) <==> t in TokensOfKeys(u, m, keys) + KeyTokens(u, m, k) {
      if t in TokensOfKeys(u, m, keys + {k}) {
        var k' :| k' in keys + {k} && t in KeyTokens(u, m, k');
        assert k' == k || k' in keys;
      }
      if t in KeyTokens(u, m, k) { assert k in keys + {k}; }
    }
  }

  method CollectPairTokens(u: Unicode, m: map<string, string>) returns (tokens: set<string>)
    ensures tokens == PairTokens(u, m)
  {
    var keys := KeysInOrder(m);
    tokens := {};
    ghost var done := {};
    for i := 0 to |keys|
      invariant done == Elements(keys[..i]) && done <= m.Keys
      invariant tokens == TokensOfKeys(u, m, done)
    {
      var k := keys[i];
      assert keys[..i + 1] == keys[..i] + [k];
      ElementsSnoc(keys[..i], k);
      TokensOfKeysSnoc(u, m, done, k);
      var a := Tokenize(u, k);
      var b := Tokenize(u, m[k]);
      var c := Tokenize(u, k + " " + m[k]);
      tokens := tokens + (Elements(a) + Elements(b) + Elements(c));
      done := done + {k};
    }
    assert keys[..|keys|] == keys;
    assert done == m.Keys;
  }

  method CollectTerms(u: Unicode, e: Entry) returns (terms: seq<string>)
    ensures terms == TermsOf(u, e)
  {
    var a := Tokenize(u, e.text);
    var b := Tokenize(u, e.entity);
    var c := Tokenize(u, e.source);
    var slotTokens := CollectPairTokens(u, e.slots);
    var tagTokens := CollectPairTokens(u, e.tags);
    var tokens := Elements(a) + Elements(b) + Elements(c) + slotTokens + tagTokens;
    assert tokens == TermSet(u, e);
    terms := SortedStrings(tokens);
    LexTotalOrder(tokens);
    RankingUnique(terms, TermsOf(u, e), tokens, LexLe);
  }

  method NormalizeEntry(u: Unicode, entry: Entry, now: int) returns (e: Entry)
    ensures e == Normalize(u, entry, now)
  {
    e := entry.(text := TrimSpace(u, entry.text), entity := TrimSpace(u, entry.entity),
                source := TrimSpace(u, entry.source));
    if e.createdAt == ZERO_TIME {
      e := e.(createdAt := now);
    }
    if e.text == "" && e.entity != "" && |e.slots| > 0 {
      var text := ComputeSyntheticText(u, e.entity, e.slots);
      e := e.(text := text);
    }
    var terms := CollectTerms(u, e);
    e := e.(terms := terms);
  }

  // ---- One more log entry ----

  lemma ScanSnoc(u: Unicode, kind: Kind, log: seq<Entry>, e: Entry, key: string)
    ensures Scan(u, kind, log + [e], key)
         == Scan(u, kind, log, key) + (if !IsSignal(e) && key in KeysOf(u, kind, e) then [e.id] else [])
  {
    hide KeysOf, IsSignal;
    assert (log + [e])[..|log|] == log;
  }

  /** The postings while entry `id` is being indexed: the keys in `done` have it, the others do not. */
  ghost predicate Partial(u: Unicode, kind: Kind, m: Postings, log: seq<Entry>, id: nat, done: set<string>) {
    forall key :: Lookup(m, key) == Scan(u, kind, log, key) + (if key in done then [id] else [])
                  && (key in m <==> Lookup(m, key) != [])
  }

  lemma NotScannedYet(u: Unicode, kind: Kind, log: seq<Entry>, id: nat, key: string)
    requires id > |log| && forall i :: 0 <= i < |log| ==> log[i].id == i + 1
    ensures var ids := Scan(u, kind, log, key); ids != [] ==> ids[|ids| - 1] != id
  {
    hide KeysOf, Scan;
    ScanMembers(u, kind, log, key);
    var ids := Scan(u, kind, log, key);
    if ids != [] { assert ids[|ids| - 1] in ids; }
  }

  lemma AppendOnce(ids: seq<nat>, id: nat, posted: bool)
    requires ids != [] ==> ids[|ids| - 1] != id
    ensures AppendId(ids + (if posted then [id] else []), id) == ids + [id]
  {
    assert ids + [] == ids;
  }

  lemma PostedSoFar(u: Unicode, kind: Kind, m: Postings, log: seq<Entry>, id: nat, done: set<string>, key: string)
    requires Partial(u, kind, m, log, id, done)
    ensures Lookup(m, key) == Scan(u, kind, log, key) + (if key in done then [id] else [])
  {
    hide KeysOf, Scan, Lookup;
  }

  lemma PostedOnce(u: Unicode, kind: Kind, m: Postings, log: seq<Entry>, id: nat, done: set<string>, key: string)
    requires Partial(u, kind, m, log, id, done)
    requires id > |log| && forall i :: 0 <= i < |log| ==> log[i].id == i + 1
    ensures AppendId(Lookup(m, key), id) == Scan(u, kind, log, key) + [id]
  {
    hide KeysOf, Partial, Scan, Lookup, AppendId;
    PostedSoFar(u, kind, m, log, id, done, key);
    NotScannedYet(u, kind, log, id, key);
    AppendOnce(Scan(u, kind, log, key), id, key in done);
  }

  lemma PostLookup(m: Postings, key: string, id: nat, k: string)
    ensures Lookup(Post(m, key, id), k) == if k == key then AppendId(Lookup(m, key), id) else Lookup(m, k)
    ensures k in Post(m, key, id) <==> k == key || k in m
  {
    hide AppendId;
  }

  /** Posting a key, for the first time or again, adds the id exactly once. */
  lemma PostStep(u: Unicode, kind: Kind, m: Postings, log: seq<Entry>, id: nat, done: set<string>, key: string)
    requires Partial(u, kind, m, log, id, done)
    requires id > |log| && forall i :: 0 <= i < |log| ==> log[i].id == i + 1
    ensures Partial(u, kind, Post(m, key, id), log, id, done + {key})
  {
    var after := Post(m, key, id);
    hide KeysOf, Scan, AppendId, Lookup, Post;
    PostedOnce(u, kind, m, log, id, done, key);
    forall k
      ensures Lookup(after, k) == Scan(u, kind, log, k) + (if k in done + {key} then [id] else [])
      ensures k in after <==> Lookup(after, k) != []
    {
      PostLookup(m, key, id, k);
    }
  }

  lemma PartialBegin(u: Unicode, kind: Kind, m: Postings, log: seq<Entry>, id: nat)
    requires IndexIs(u, kind, m, log)
    ensures Partial(u, kind, m, log, id, {})
  {
    forall key ensures Lookup(m, key) == Scan(u, kind, log, key) + [] {}
  }

  lemma PartialEnd(u: Unicode, kind: Kind, m: Postings, log: seq<Entry>, e: Entry)
    requires !IsSignal(e) && Partial(u, kind, m, log, e.id, KeysOf(u, kind, e))
    ensures IndexIs(u, kind, m, log + [e])
  {
    hide KeysOf;
    forall key ensures Lookup(m, key) == Scan(u, kind, log + [e], key) {
      ScanSnoc(u, kind, log, e, key);
    }
  }

  lemma SignalKeepsIndex(u: Unicode, kind: Kind, log: seq<Entry>, e: Entry)
    requires IsSignal(e)
    ensures PostingsOf(u, kind, log + [e]) == PostingsOf(u, kind, log)
  {
    hide KeysOf;
    var m := PostingsOf(u, kind, log);
    IndexIsPostings(u, kind, m, log);
    forall key ensures Lookup(m, key) == Scan(u, kind, log + [e], key) {
      ScanSnoc(u, kind, log, e, key);
    }
    IndexIsPostings(u, kind, m, log + [e]);
  }

  lemma SignalsSnoc(log: seq<Entry>, e: Entry, id: nat)
    ensures Signals(log + [e], id)
         == if IsSignal(e) && e.refId == id && e.signal.value !in Signals(log, id)
            then Signals(log, id) + [e.signal.value] else Signals(log, id)
  {
    assert (log + [e])[..|log|] == log;
  }

  lemma StateSnoc(u: Unicode, log: seq<Entry>, e: Entry, key: string)
    ensures StateOf(u, log + [e], key)
         == if IsSignal(e) || key == "" || EntityKey(u, e) != key then StateOf(u, log, key)
            else Some(ExtendState(u, StateOf(u, log, key), e))
  {
    assert (log + [e])[..|log|] == log;
  }

  lemma SoundPrefix(log: seq<Entry>, e: Entry)
    requires Sound(log + [e])
    ensures Sound(log) && SoundAt(log + [e], |log|)
    ensures forall i :: 0 <= i < |log| ==> log[i].id == i + 1 && (log + [e])[i] == log[i]
  {
    forall i | 0 <= i < |log| ensures SoundAt(log, i) {
      assert SoundAt(log + [e], i);
    }
    assert SoundAt(log + [e], |log|);
    assert forall i :: 0 <= i < |log| ==> (log + [e])[i] == log[i] && SoundAt(log, i);
  }

  lemma {:induction false} NoSignalsYet(log: seq<Entry>, id: nat)
    requires forall i :: 0 <= i < |log| ==> log[i].refId != id
    ensures Signals(log, id) == []
  {
    if log != [] { NoSignalsYet(log[..|log| - 1], id); }
  }

  /** Posts a list of keys for one entry, first to last. */
  function PostAll(m: Postings, keys: seq<string>, id: nat): Postings {
    if keys == [] then m else Post(PostAll(m, keys[..|keys| - 1], id), keys[|keys| - 1], id)
  }

  lemma {:induction false} PostAllSplit(m: Postings, a: seq<string>, b: seq<string>, id: nat)
    ensures PostAll(m, a + b, id) == PostAll(PostAll(m, a, id), b, id)
  {
    if b == [] {
      assert a + b == a;
    } else {
      assert (a + b)[..|a + b| - 1] == a + b[..|b| - 1];
      PostAllSplit(m, a, b[..|b| - 1], id);
    }
  }

  lemma PostPair(m: Postings, keys: seq<string>, x: string, y: string, id: nat)
    ensures PostAll(m, keys + [x, y], id) == Post(Post(PostAll(m, keys, id), x, id), y, id)
  {
    var n := PostAll(m, keys, id);
    PostAllSplit(m, keys, [x, y], id);
    assert [x, y][..1] == [x] && [x][..0] == [];
    assert PostAll(n, [x], id) == Post(n, x, id);
  }

  /** Posting a list, repetitions included, adds the id to exactly the postings of its members. */
  lemma {:induction false} PostAllPartial(u: Unicode, kind: Kind, m: Postings, log: seq<Entry>, id: nat,
                                         keys: seq<string>)
    requires Partial(u, kind, m, log, id, {})
    requires id > |log| && forall i :: 0 <= i < |log| ==> log[i].id == i + 1
    ensures Partial(u, kind, PostAll(m, keys, id), log, id, Elements(keys))
  {
    if keys == [] {
      assert Elements(keys) == {};
    } else {
      var front, last := keys[..|keys| - 1], keys[|keys| - 1];
      PostAllPartial(u, kind, m, log, id, front);
      assert Elements(keys) == Elements(front) + {last} by {
        ElementsSnoc(front, last);
        assert keys == front + [last];
      }
      PostStep(u, kind, PostAll(m, front, id), log, id, Elements(front), last);
    }
  }

  /** Posting the keys of one more content entry gives the index of the longer log. */
  lemma IndexExtended(u: Unicode, kind: Kind, log: seq<Entry>, e: Entry, keys: seq<string>)
    requires Sound(log + [e]) && !IsSignal(e) && Elements(keys) == KeysOf(u, kind, e)
    ensures PostAll(PostingsOf(u, kind, log), keys, e.id) == PostingsOf(u, kind, log + [e])
  {
    hide KeysOf;
    var m := PostingsOf(u, kind, log);
    var n := PostAll(m, keys, e.id);
    NewEntryUnrated(log, e);
    IndexIsPostings(u, kind, m, log);
    PartialBegin(u, kind, m, log, e.id);
    PostAllPartial(u, kind, m, log, e.id, keys);
    PartialEnd(u, kind, n, log, e);
    IndexIsPostings(u, kind, n, log + [e]);
  }

  lemma WriteFacetsSnoc(u: Unicode, writes: seq<(string, string)>, w: (string, string))
    ensures WriteFacets(u, writes + [w])
         == WriteFacets(u, writes)
            + ["slot." + w.0 + "=" + NormalizePhrase(u, w.1), w.0 + "=" + NormalizePhrase(u, w.1)]
  {
    assert (writes + [w])[..|writes|] == writes;
  }

  lemma TagFacetsSnoc(u: Unicode, tags: map<string, string>, keys: seq<string>, i: nat)
    requires i < |keys| && forall k :: k in keys ==> k in tags
    ensures TagFacets(u, tags, keys[..i + 1])
         == var key, value := NormalizePhrase(u, keys[i]), NormalizePhrase(u, tags[keys[i]]);
            TagFacets(u, tags, keys[..i])
            + (if key == "" || value == "" then [] else ["tag." + key + "=" + value, key + "=" + value])
  {
    assert keys[..i + 1][..i] == keys[..i];
  }

  /** What the tag loop does to the index for one more key. */
  lemma TagPosted(u: Unicode, tags: map<string, string>, keys: seq<string>, i: nat, m: Postings, id: nat)
    requires i < |keys| && forall k :: k in keys ==> k in tags
    ensures var key, value := NormalizePhrase(u, keys[i]), NormalizePhrase(u, tags[keys[i]]);
            var before := PostAll(m, TagFacets(u, tags, keys[..i]), id);
            PostAll(m, TagFacets(u, tags, keys[..i + 1]), id)
            == if key == "" || value == "" then before
               else Post(Post(before, "tag." + key + "=" + value, id), key + "=" + value, id)
  {
    var key, value := NormalizePhrase(u, keys[i]), NormalizePhrase(u, tags[keys[i]]);
    TagFacetsSnoc(u, tags, keys, i);
    hide PostAll, Post, TagFacets, NormalizePhrase;
    var posted := TagFacets(u, tags, keys[..i]);
    assert posted + [] == posted;
    PostPair(m, posted, "tag." + key + "=" + value, key + "=" + value, id);
  }

  lemma OverwriteSnoc(slots: map<string, string>, writes: seq<(string, string)>, w: (string, string))
    ensures Overwrite(slots, writes + [w]) == Overwrite(slots, writes)[w.0 := w.1]
  {
    assert (writes + [w])[..|writes|] == writes;
  }

  lemma WritesSnoc(u: Unicode, slots: map<string, string>, keys: seq<string>, i: nat)
    requires i < |keys| && forall k :: k in keys ==> k in slots
    ensures Writes(u, slots, keys[..i + 1])
         == var key, value := NormalizePhrase(u, keys[i]), TrimSpace(u, slots[keys[i]]);
            Writes(u, slots, keys[..i]) + (if key == "" || value == "" then [] else [(key, value)])
  {
    assert keys[..i + 1][..i] == keys[..i];
  }

  /** The state of an entity cites exactly the content entries about it. */
  lemma {:induction false} EvidenceIsScan(u: Unicode, log: seq<Entry>, key: string)
    requires key != ""
    ensures Scan(u, Entity, log, key) == match StateOf(u, log, key) case None => [] case Some(s) => s.evidence
  {
    hide SlotWrites;
    if log != [] { EvidenceIsScan(u, log[..|log| - 1], key); }
  }

  ghost function WithEntity(u: Unicode, states: map<string, EntityState>, e: Entry): map<string, EntityState> {
    var key := EntityKey(u, e);
    var prior := if key in states then states[key] else EntityState(e.entity, map[], ZERO_TIME, []);
    states[key := EntityState(prior.entity, Overwrite(prior.slots, SlotWrites(u, e)),
                              e.createdAt, AppendId(prior.evidence, e.id))]
  }

  /** Writing one entity's state gives the states of the longer log. */
  lemma StateWritten(u: Unicode, log: seq<Entry>, e: Entry)
    requires Sound(log + [e]) && !IsSignal(e)
    ensures StatesOf(u, log + [e])
         == if EntityKey(u, e) == "" then StatesOf(u, log) else WithEntity(u, StatesOf(u, log), e)
  {
    var states := StatesOf(u, log);
    NewEntryUnrated(log, e);
    StatesAreStates(u, states, log);
    StateWrittenIn(u, states, log, e);
    StatesAreStates(u, if EntityKey(u, e) == "" then states else WithEntity(u, states, e), log + [e]);
  }

  lemma StateWrittenIn(u: Unicode, states: map<string, EntityState>, log: seq<Entry>, e: Entry)
    requires !IsSignal(e) && StatesAre(u, states, log)
    requires e.id > |log| && forall i :: 0 <= i < |log| ==> log[i].id == i + 1
    ensures StatesAre(u, if EntityKey(u, e) == "" then states else WithEntity(u, states, e), log + [e])
  {
    hide EntityKey, SlotWrites, Overwrite, KeysOf, IsSignal, Scan, StateOf;
    var key := EntityKey(u, e);
    var before := StateOf(u, log, key);
    assert (if key in states then Some(states[key]) else None) == before;
    if key != "" && before.Some? {
      EvidenceIsScan(u, log, key);
      ScanMembers(u, Entity, log, key);
      var ids := before.value.evidence;
      assert ids != [] ==> ids[|ids| - 1] in ids;
    }
    forall k ensures StateOf(u, log + [e], k)
                  == if key == "" || key != k then StateOf(u, log, k) else Some(ExtendState(u, before, e)) {
      StateSnoc(u, log, e, k);
    }
  }

  lemma SignalKeepsStates(u: Unicode, log: seq<Entry>, e: Entry)
    requires IsSignal(e)
    ensures StatesOf(u, log + [e]) == StatesOf(u, log)
  {
    var states := StatesOf(u, log);
    StatesAreStates(u, states, log);
    forall k ensures StateOf(u, log + [e], k) == StateOf(u, log, k) {
      StateSnoc(u, log, e, k);
    }
    StatesAreStates(u, states, log + [e]);
  }

  function MaxId(a: nat, b: nat): nat {
    if a > b then a else b
  }

  /** An entry with the id and time that indexing fills in when they are missing. */
  function Defaulted(e: Entry, nextId: nat, now: int): Entry {
    e.(id := if e.id == 0 then nextId + 1 else e.id, createdAt := if e.createdAt == ZERO_TIME then now else e.createdAt)
  }

  /** Content entries leave every trust record as it was. */
  lemma ContentKeepsTrust(log: seq<Entry>, e: Entry)
    requires Sound(log + [e]) && !IsSignal(e)
    ensures TrustOf(log + [e]) == TrustOf(log) && EntriesOf(log + [e]) == EntriesOf(log)[e.id := e]
  {
    forall id: nat ensures Signals(log + [e], id) == Signals(log, id) {
      SignalsSnoc(log, e, id);
    }
    SameRecords(log, e);
  }

  lemma SameRecords(log: seq<Entry>, e: Entry)
    requires Sound(log + [e]) && forall id: nat :: Signals(log + [e], id) == Signals(log, id)
    ensures TrustOf(log + [e]) == TrustOf(log) && EntriesOf(log + [e]) == EntriesOf(log)[e.id := e]
  {
    NewEntryUnrated(log, e);
    SoundPrefix(log, e);
    TrustIsTrust(TrustOf(log), log);
    TrustIsTrust(TrustOf(log), log + [e]);
    EntriesAreEntries(EntriesOf(log)[e.id := e], log + [e]);
  }

  lemma NewEntryUnrated(log: seq<Entry>, e: Entry)
    requires Sound(log + [e])
    ensures e.id == |log| + 1 && e.trust == 0.0 && e.refId < e.id
    ensures Signals(log + [e], e.id) == []
    ensures Rated(log + [e], |log| + 1) == e
    ensures forall i :: 0 <= i < |log| ==> log[i].id == i + 1 && (log + [e])[i] == log[i]
  {
    SoundPrefix(log, e);
    assert (log + [e])[|log|] == e;
    forall i | 0 <= i < |log| ensures log[i].refId != e.id { assert SoundAt(log, i); }
    NoSignalsYet(log, e.id);
    SignalsSnoc(log, e, e.id);
  }

  /** One step of the running trust score. */
  function Adjust(t: real, signal: Signal): real {
    match signal
    case Helpful => t + 0.05
    case Unhelpful => if t - 0.10 < 0.0 then 0.0 else t - 0.10
  }

  /** The running score never meets its floor, so it depends only on which signals were seen. */
  lemma AdjustIsStoredTrust(signals: seq<Signal>, signal: Signal)
    requires signal !in signals
    ensures EffectiveTrust(StoredTrust(signals)) - 0.10 > 0.0
    ensures Adjust(EffectiveTrust(StoredTrust(signals)), signal) == StoredTrust(signals + [signal])
  {
    assert signals != [] ==> signals[0] in signals;
    assert forall s :: s in signals + [signal] <==> s in signals || s == signal;
  }

  function Rescored(ref: Entry, signal: Signal): Entry {
    WithTrust(ref, Adjust(EffectiveTrust(ref.trust), signal))
  }

  method Rescore(entry: Entry, signal: Signal) returns (ref: Entry)
    ensures ref == Rescored(entry, signal)
  {
    ref := entry;
    var t := EffectiveTrust(ref.trust);
    match signal {
      case Helpful =>
        t := t + 0.05;
      case Unhelpful =>
        t := t - 0.10;
        if t < 0.0 { t := 0.0; }
    }
    ref := ref.(trust := t);
  }

  /** The first signal of its kind extends one record and rescores the entry it is about, which is already there. */
  lemma NewSignal(log: seq<Entry>, e: Entry)
    requires Sound(log + [e]) && IsSignal(e) && e.signal.value !in Signals(log, e.refId)
    ensures TrustOf(log + [e]) == TrustOf(log)[e.refId := Signals(log, e.refId) + [e.signal.value]]
    ensures e.refId in EntriesOf(log)
    ensures EntriesOf(log + [e])
         == EntriesOf(log)[e.id := e][e.refId := Rescored(EntriesOf(log)[e.refId], e.signal.value)]
  {
    NewSignalRecord(TrustOf(log), log, e);
    NewSignalEntry(log, e);
  }

  lemma NewSignalRecord(trustIndex: map<nat, seq<Signal>>, log: seq<Entry>, e: Entry)
    requires Sound(log + [e]) && IsSignal(e) && e.signal.value !in Signals(log, e.refId) && trustIndex == TrustOf(log)
    ensures TrustOf(log + [e]) == trustIndex[e.refId := Signals(log, e.refId) + [e.signal.value]]
    ensures forall id: nat ::
              Signals(log + [e], id) == Signals(log, id) + (if id == e.refId then [e.signal.value] else [])
  {
    forall id: nat
      ensures Signals(log + [e], id) == Signals(log, id) + (if id == e.refId then [e.signal.value] else []) {
      SignalsSnoc(log, e, id);
    }
    SoundPrefix(log, e);
    TrustIsTrust(trustIndex, log);
    RecordExtends(trustIndex, log, log + [e], e.refId, e.signal.value);
    TrustIsTrust(trustIndex[e.refId := Signals(log, e.refId) + [e.signal.value]], log + [e]);
  }

  lemma RecordExtends(trustIndex: map<nat, seq<Signal>>, log: seq<Entry>, log': seq<Entry>, ref: nat, signal: Signal)
    requires TrustIs(trustIndex, log)
    requires forall id: nat :: Signals(log', id) == Signals(log, id) + (if id == ref then [signal] else [])
    ensures TrustIs(trustIndex[ref := Signals(log, ref) + [signal]], log')
  {
  }

  lemma NewSignalEntry(log: seq<Entry>, e: Entry)
    requires Sound(log + [e]) && IsSignal(e) && e.signal.value !in Signals(log, e.refId)
    requires forall id: nat ::
               Signals(log + [e], id) == Signals(log, id) + (if id == e.refId then [e.signal.value] else [])
    ensures e.refId in EntriesOf(log)
    ensures EntriesOf(log + [e])
         == EntriesOf(log)[e.id := e][e.refId := Rescored(EntriesOf(log)[e.refId], e.signal.value)]
  {
    NewEntryUnrated(log, e);
    RescoredIsRated(log, e);
    var log' := log + [e];
    forall id: nat | 1 <= id <= |log| && id != e.refId ensures Rated(log', id) == Rated(log, id) {
      assert log'[id - 1] == log[id - 1];
      assert Signals(log', id) == Signals(log, id) + [];
    }
    TwoEntriesChange(log, log', e, e.refId, Rescored(EntriesOf(log)[e.refId], e.signal.value));
  }

  lemma TwoEntriesChange(log: seq<Entry>, log': seq<Entry>, e: Entry, ref: nat, rescored: Entry)
    requires |log'| == |log| + 1 && e.id == |log'| && 1 <= ref <= |log|
    requires Rated(log', e.id) == e && Rated(log', ref) == rescored
    requires forall id: nat :: 1 <= id <= |log| && id != ref ==> Rated(log', id) == Rated(log, id)
    ensures EntriesOf(log') == EntriesOf(log)[e.id := e][ref := rescored]
  {
    var entries := EntriesOf(log);
    EntriesAreEntries(entries, log);
    hide Rated, EntriesOf;
    var changed := entries[e.id := e][ref := rescored];
    assert EntriesAre(changed, log') by {
      forall id: nat ensures id in changed <==> 1 <= id <= |log'| {}
      forall id: nat | id in changed ensures changed[id] == Rated(log', id) {
        if id != e.id && id != ref { assert changed[id] == entries[id]; }
      }
    }
    hide EntriesAre;
    EntriesAreEntries(changed, log');
  }

  lemma RescoredIsRated(log: seq<Entry>, e: Entry)
    requires Sound(log + [e]) && IsSignal(e) && e.signal.value !in Signals(log, e.refId)
    requires Signals(log + [e], e.refId) == Signals(log, e.refId) + [e.signal.value]
    ensures 1 <= e.refId <= |log|
    ensures Rescored(Rated(log, e.refId), e.signal.value) == Rated(log + [e], e.refId)
  {
    SoundPrefix(log, e);
    assert (log + [e])[|log|] == e;
    AdjustIsStoredTrust(Signals(log, e.refId), e.signal.value);
  }

  function RecordOf(trustIndex: map<nat, seq<Signal>>, id: nat): seq<Signal> {
    if id in trustIndex then trustIndex[id] else []
  }

  function AfterSignal(trustIndex: map<nat, seq<Signal>>, e: Entry): map<nat, seq<Signal>>
    requires IsSignal(e)
  {
    var signals := RecordOf(trustIndex, e.refId);
    if e.signal.value in signals then trustIndex else trustIndex[e.refId := signals + [e.signal.value]]
  }

  function RescoredEntries(trustIndex: map<nat, seq<Signal>>, entries: map<nat, Entry>, e: Entry): map<nat, Entry>
    requires IsSignal(e)
  {
    if e.signal.value in RecordOf(trustIndex, e.refId) || e.refId !in entries then entries
    else entries[e.refId := Rescored(entries[e.refId], e.signal.value)]
  }

  /** Applying a signal, first of its kind or not, gives the records and ratings of the longer log. */
  lemma SignalApplied(log: seq<Entry>, e: Entry)
    requires Sound(log + [e]) && IsSignal(e)
    ensures AfterSignal(TrustOf(log), e) == TrustOf(log + [e])
    ensures RescoredEntries(TrustOf(log), EntriesOf(log)[e.id := e], e) == EntriesOf(log + [e])
  {
    SoundPrefix(log, e);
    NewEntryUnrated(log, e);
    TrustIsTrust(TrustOf(log), log);
    assert RecordOf(TrustOf(log), e.refId) == Signals(log, e.refId);
    if e.signal.value in Signals(log, e.refId) {
      forall id: nat ensures Signals(log + [e], id) == Signals(log, id) {
        SignalsSnoc(log, e, id);
      }
      SameRecords(log, e);
    } else {
      NewSignal(log, e);
    }
  }

  /** The fields every new entry changes. */
  function Registered(s: Snapshot, e: Entry): Snapshot {
    s.(nextId := MaxId(s.nextId, e.id), updatedAt := if e.createdAt > s.updatedAt then e.createdAt else s.updatedAt,
       entries := s.entries[e.id := e], entryOrder := s.entryOrder + [e.id])
  }

  ghost function WithSignal(s: Snapshot, e: Entry): Snapshot
    requires IsSignal(e)
  {
    s.(trustIndex := AfterSignal(s.trustIndex, e), entries := RescoredEntries(s.trustIndex, s.entries, e))
  }

  ghost function WithContent(u: Unicode, s: Snapshot, e: Entry): Snapshot {
    s.(tokenIndex := PostAll(s.tokenIndex, e.terms, e.id),
       entityIndex := if EntityKey(u, e) == "" then s.entityIndex else Post(s.entityIndex, EntityKey(u, e), e.id),
       facetIndex := PostAll(s.facetIndex, FacetList(u, e), e.id),
       states := if EntityKey(u, e) == "" then s.states else WithEntity(u, s.states, e))
  }

  lemma SignalCompiled(u: Unicode, log: seq<Entry>, e: Entry)
    requires Sound(log + [e]) && IsSignal(e)
    ensures Compile(u, log + [e]) == WithSignal(Registered(Compile(u, log), e), e)
  {
    hide PostingsOf, StatesOf, TrustOf, EntriesOf, AfterSignal, RescoredEntries;
    NewEntryUnrated(log, e);
    LatestSnoc(log, e);
    SignalApplied(log, e);
    SignalKeepsIndex(u, Token, log, e);
    SignalKeepsIndex(u, Entity, log, e);
    SignalKeepsIndex(u, Facet, log, e);
    SignalKeepsStates(u, log, e);
  }

  lemma EntityIndexExtended(u: Unicode, log: seq<Entry>, e: Entry)
    requires Sound(log + [e]) && !IsSignal(e)
    ensures var m, key := PostingsOf(u, Entity, log), EntityKey(u, e);
            PostingsOf(u, Entity, log + [e]) == (if key == "" then m else Post(m, key, e.id))
  {
    var m, key := PostingsOf(u, Entity, log), EntityKey(u, e);
    IndexExtended(u, Entity, log, e, if key == "" then [] else [key]);
    assert PostAll(m, [key][..0], e.id) == m;
  }

  lemma TokenIndexExtended(u: Unicode, log: seq<Entry>, e: Entry)
    requires Sound(log + [e]) && !IsSignal(e)
    ensures PostingsOf(u, Token, log + [e]) == PostAll(PostingsOf(u, Token, log), e.terms, e.id)
  {
    hide PostingsOf, PostAll, Sound;
    IndexExtended(u, Token, log, e, e.terms);
  }

  lemma FacetIndexExtended(u: Unicode, log: seq<Entry>, e: Entry)
    requires Sound(log + [e]) && !IsSignal(e)
    ensures PostingsOf(u, Facet, log + [e]) == PostAll(PostingsOf(u, Facet, log), FacetList(u, e), e.id)
  {
    hide PostingsOf, PostAll, Sound, FacetList;
    IndexExtended(u, Facet, log, e, FacetList(u, e));
  }

  lemma NextId(log: seq<Entry>, e: Entry)
    requires Sound(log + [e])
    ensures e.id == |log| + 1 && OrderOf(log + [e]) == OrderOf(log) + [e.id]
  {
    assert SoundAt(log + [e], |log|);
  }

  lemma ContentCompiled(u: Unicode, log: seq<Entry>, e: Entry)
    requires Sound(log + [e]) && !IsSignal(e)
    ensures Compile(u, log + [e]) == WithContent(u, Registered(Compile(u, log), e), e)
  {
    hide PostingsOf, StatesOf, TrustOf, EntriesOf, PostAll, WithEntity, FacetList, Post, Sound, EntityKey, KeysOf,
      IsSignal, Signals, Rated, Latest, OrderOf;
    NextId(log, e);
    LatestSnoc(log, e);
    ContentKeepsTrust(log, e);
    TokenIndexExtended(u, log, e);
    EntityIndexExtended(u, log, e);
    FacetIndexExtended(u, log, e);
    StateWritten(u, log, e);
  }

  // ---- The operations, as steps of the log ----

  datatype AddInput = AddInput(
    text: string, entity: string, source: string, slots: map<string, string>, tags: map<string, string>)

  datatype StoreError = SlotsNeedEntity | EmptyEntry | UnknownEntry | UnknownSignal

  datatype Operation = AddOp(input: AddInput, now: int) | TrustOp(id: nat, signal: string, now: int)

  function SignalNamed(name: string): Option<Signal> {
    if name == "helpful" then Some(Helpful) else if name == "unhelpful" then Some(Unhelpful) else None
  }

  /** The entry an operation logs, or why it logs none. */
  ghost function Outcome(u: Unicode, log: seq<Entry>, op: Operation): Result<Entry, StoreError> {
    match op
    case AddOp(input, now) =>
      var text, entity := TrimSpace(u, input.text), TrimSpace(u, input.entity);
      if entity == "" && input.slots != map[] then Err(SlotsNeedEntity)
      else if text == "" && input.slots == map[] then Err(EmptyEntry)
      else Ok(Normalize(u, Entry(|log| + 1, now, text, entity, TrimSpace(u, input.source), input.slots, input.tags, [],
                                 0.0, None, 0), now))
    case TrustOp(id, name, now) =>
      if !(1 <= id <= |log|) then Err(UnknownEntry)
      else if SignalNamed(name).None? then Err(UnknownSignal)
      else Ok(Normalize(u, TrustEntry(|log| + 1, now, id, name), now))
  }

  function TrustEntry(newId: nat, now: int, id: nat, name: string): Entry {
    Entry(newId, now, "trust signal " + name + " for entry " + Timestamp.Decimal(id), "", "", map[], map[], [], 0.0,
          SignalNamed(name), id)
  }

  /** What an addition is refused for, and what an accepted one logs. */
  lemma AddOutcome(u: Unicode, log: seq<Entry>, input: AddInput, now: int)
    requires now != ZERO_TIME
    ensures var r := Outcome(u, log, AddOp(input, now));
            var text, entity := TrimSpace(u, input.text), TrimSpace(u, input.entity);
            && (entity == "" && input.slots != map[] ==> r == Err(SlotsNeedEntity))
            && (text == "" && input.slots == map[] ==> r == Err(EmptyEntry))
            && (!(entity == "" && input.slots != map[]) && !(text == "" && input.slots == map[]) ==>
                  r == Ok(Normalize(u, Entry(|log| + 1, now, text, entity, TrimSpace(u, input.source), input.slots,
                                             input.tags, [], 0.0, None, 0), now)))
  {
    hide TrimSpace, Normalize;
  }

  /** What an accepted addition logs, field by field; the text is synthetic only where there is none. */
  lemma AddedEntry(u: Unicode, log: seq<Entry>, input: AddInput, now: int)
    requires now != ZERO_TIME && Outcome(u, log, AddOp(input, now)).Ok?
    ensures var e := Outcome(u, log, AddOp(input, now)).value;
            && e.id == |log| + 1 && e.createdAt == now && e.entity == TrimSpace(u, input.entity)
            && e.source == TrimSpace(u, input.source) && e.slots == input.slots && e.tags == input.tags
            && e.signal == None && e.refId == 0 && e.trust == 0.0
            && (TrimSpace(u, input.text) != "" ==> e.text == TrimSpace(u, input.text))
  {
    TrimmedOnce(u, input.text);
    TrimmedOnce(u, input.entity);
    TrimmedOnce(u, input.source);
    TrimFixpoint(u, TrimSpace(u, input.text));
    TrimFixpoint(u, TrimSpace(u, input.entity));
    TrimFixpoint(u, TrimSpace(u, input.source));
    hide TrimSpace, SyntheticText, TermsOf;
  }

  lemma TrustedEntry(u: Unicode, log: seq<Entry>, id: nat, name: string, now: int)
    requires now != ZERO_TIME && Outcome(u, log, TrustOp(id, name, now)).Ok?
    ensures var e := Outcome(u, log, TrustOp(id, name, now)).value;
            && e.id == |log| + 1 && e.createdAt == now && e.refId == id && e.entity == ""
            && e.slots == map[] == e.tags && e.signal == Some(if name == "helpful" then Helpful else Unhelpful)
  {
    assert TrimSpace(u, "") == "";
    hide TrimSpace, SyntheticText, TermsOf;
  }

  ghost function LogStep(u: Unicode, log: seq<Entry>, op: Operation): seq<Entry> {
    var r := Outcome(u, log, op);
    if r.Ok? then log + [r.value] else log
  }

  ghost function LogAfter(u: Unicode, ops: seq<Operation>): seq<Entry> {
    if ops == [] then [] else LogStep(u, LogAfter(u, ops[..|ops| - 1]), ops[|ops| - 1])
  }

  /** The clock never reads the zero time. */
  predicate ClockRuns(op: Operation) {
    op.now != ZERO_TIME
  }

  lemma NormalizedIsNormal(u: Unicode, e: Entry, now: int)
    requires now != ZERO_TIME
    ensures IsNormal(u, Normalize(u, e, now))
  {
    NormalizeIdempotent(u, e, now, Normalize(u, e, now).createdAt);
    hide SyntheticText, TermsOf, TrimSpace;
  }

  lemma OutcomeIsNormal(u: Unicode, log: seq<Entry>, op: Operation)
    requires ClockRuns(op) && Outcome(u, log, op).Ok?
    ensures IsNormal(u, Outcome(u, log, op).value)
  {
    hide Normalize, IsNormal;
    match op {
      case AddOp(input, now) =>
        NormalizedIsNormal(u, Entry(|log| + 1, now, TrimSpace(u, input.text), TrimSpace(u, input.entity),
                                    TrimSpace(u, input.source), input.slots, input.tags, [], 0.0, None, 0), now);
      case TrustOp(id, name, now) =>
        NormalizedIsNormal(u, TrustEntry(|log| + 1, now, id, name), now);
    }
  }

  lemma OutcomeIsSound(u: Unicode, log: seq<Entry>, op: Operation)
    requires Outcome(u, log, op).Ok?
    ensures SoundAt(log + [Outcome(u, log, op).value], |log|)
  {
    hide SyntheticText, TermsOf, TrimSpace;
  }

  lemma StepWellFormed(u: Unicode, log: seq<Entry>, op: Operation)
    requires WellFormed(u, log) && ClockRuns(op)
    ensures WellFormed(u, LogStep(u, log, op))
  {
    var r := Outcome(u, log, op);
    if r.Ok? {
      var log' := log + [r.value];
      OutcomeIsNormal(u, log, op);
      OutcomeIsSound(u, log, op);
      hide Outcome, IsNormal;
      forall i | 0 <= i < |log'| ensures SoundAt(log', i) && IsNormal(u, log'[i]) {
        if i < |log| { assert SoundAt(log, i) && log'[i] == log[i]; }
      }
    }
  }

  /** Every run of adds and trust signals, accepted or refused, leaves a well-formed log. */
  lemma {:induction false} RunWellFormed(u: Unicode, ops: seq<Operation>)
    requires forall op :: op in ops ==> ClockRuns(op)
    ensures WellFormed(u, LogAfter(u, ops))
  {
    if ops != [] {
      RunWellFormed(u, ops[..|ops| - 1]);
      StepWellFormed(u, LogAfter(u, ops[..|ops| - 1]), ops[|ops| - 1]);
    }
  }

  /** After any run, an entry's trust depends only on which signals it was ever given. */
  lemma TrustAfterRun(u: Unicode, ops: seq<Operation>, id: nat)
    requires forall op :: op in ops ==> ClockRuns(op)
    requires 1 <= id <= |LogAfter(u, ops)|
    ensures var log := LogAfter(u, ops);
            && id in Compile(u, log).entries
            && EffectiveTrust(Compile(u, log).entries[id].trust)
            == 1.0 + (if SignalSeen(log, id, Helpful) then 0.05 else 0.0)
               - (if SignalSeen(log, id, Unhelpful) then 0.10 else 0.0)
  {
    hide LogAfter, SignalSeen, PostingsOf, StatesOf, TrustOf;
    var log := LogAfter(u, ops);
    SignalsAreSeen(log, id);
    var signals := Signals(log, id);
    assert signals != [] ==> signals[0] in signals;
  }

  // ---- Last writer wins ----

  ghost predicate About(u: Unicode, e: Entry, key: string) {
    !IsSignal(e) && EntityKey(u, e) == key
  }

  /** The value the last write of slot `k` in the list leaves. */
  function WrittenValue(writes: seq<(string, string)>, k: string): Option<string> {
    if writes == [] then None
    else if writes[|writes| - 1].0 == k then Some(writes[|writes| - 1].1)
    else WrittenValue(writes[..|writes| - 1], k)
  }

  lemma {:induction false} OverwriteValue(slots: map<string, string>, writes: seq<(string, string)>, k: string)
    ensures var after := Overwrite(slots, writes);
            match WrittenValue(writes, k)
            case Some(v) => k in after && after[k] == v
            case None => (k in after <==> k in slots) && (k in slots ==> after[k] == slots[k])
  {
    if writes != [] { OverwriteValue(slots, writes[..|writes| - 1], k); }
  }

  /** Entry `i` is the latest one about the entity that writes slot `k`. */
  ghost predicate LatestWriter(u: Unicode, log: seq<Entry>, key: string, k: string, i: nat) {
    && i < |log| && About(u, log[i], key) && WrittenValue(SlotWrites(u, log[i]), k).Some?
    && forall j :: i < j < |log| && About(u, log[j], key) ==> WrittenValue(SlotWrites(u, log[j]), k).None?
  }

  /** A slot holds what the latest entry writing it wrote, and is absent only if no entry ever wrote it. */
  lemma {:induction false} LastWriterWins(u: Unicode, log: seq<Entry>, key: string, k: string)
    requires key != ""
    ensures forall i: nat :: LatestWriter(u, log, key, k, i) ==>
              && StateOf(u, log, key).Some? && k in StateOf(u, log, key).value.slots
              && Some(StateOf(u, log, key).value.slots[k]) == WrittenValue(SlotWrites(u, log[i]), k)
    ensures StateOf(u, log, key).Some? && k in StateOf(u, log, key).value.slots ==>
              exists i: nat :: LatestWriter(u, log, key, k, i)
  {
    hide SlotWrites, EntityKey;
    if log != [] {
      var n := |log| - 1;
      var front, e := log[..n], log[n];
      LastWriterWins(u, front, key, k);
      var before := StateOf(u, front, key);
      if About(u, e, key) {
        OverwriteValue(if before.Some? then before.value.slots else map[], SlotWrites(u, e), k);
      }
      forall i: nat | LatestWriter(u, log, key, k, i) && i < n ensures LatestWriter(u, front, key, k, i) {
        assert forall j :: 0 <= j < n ==> front[j] == log[j];
      }
      if About(u, e, key) && WrittenValue(SlotWrites(u, e), k).Some? {
        assert LatestWriter(u, log, key, k, n);
      } else if i: nat :| LatestWriter(u, front, key, k, i) {
        assert forall j :: 0 <= j < n ==> front[j] == log[j];
        assert LatestWriter(u, log, key, k, i);
      }
    }
  }

  class Engine {
    const u: Unicode
    /** The append-only log file. */
    var log: seq<Entry>
    var nextId: nat
    var updatedAt: int
    var entries: map<nat, Entry>
    var entryOrder: seq<nat>
    var tokenIndex: Postings
    var entityIndex: Postings
    var facetIndex: Postings
    var states: map<string, EntityState>
    var trustIndex: map<nat, seq<Signal>>

    ghost function View(): Snapshot
      reads this
    {
      Snapshot(nextId, updatedAt, entries, entryOrder, tokenIndex, entityIndex, facetIndex, states, trustIndex)
    }

    /** The log is one that `Add` and `Trust` write, and the snapshot is the one compiled from it. */
    ghost predicate Valid()
      reads this
    {
      WellFormed(u, log) && View() == Compile(u, log)
    }

    constructor (u: Unicode)
      ensures Valid() && log == [] && this.u == u
    {
      this.u := u;
      log, nextId, updatedAt, entries, entryOrder := [], 0, ZERO_TIME, map[], [];
      tokenIndex, entityIndex, facetIndex, states, trustIndex := map[], map[], map[], map[], map[];
    }

    method ApplySignal(e: Entry)
      requires IsSignal(e)
      modifies `trustIndex, `entries
      ensures View() == WithSignal(old(View()), e)
    {
      var signals := if e.refId in trustIndex then trustIndex[e.refId] else [];
      if e.signal.value in signals { return; }
      trustIndex := trustIndex[e.refId := signals + [e.signal.value]];
      if e.refId in entries {
        var ref := Rescore(entries[e.refId], e.signal.value);
        entries := entries[e.refId := ref];
      }
    }

    method PostTerms(e: Entry)
      modifies `tokenIndex
      ensures tokenIndex == PostAll(old(tokenIndex), e.terms, e.id)
    {
      for i := 0 to |e.terms|
        invariant tokenIndex == PostAll(old(tokenIndex), e.terms[..i], e.id)
      {
        assert e.terms[..i + 1][..i] == e.terms[..i];
        tokenIndex := Post(tokenIndex, e.terms[i], e.id);
      }
      assert e.terms[..|e.terms|] == e.terms;
    }

    /** Writes the slots of `e` over `slots0`, posting both facets of each write. */
    method PostSlots(e: Entry, slots0: map<string, string>) returns (slots: map<string, string>)
      modifies `facetIndex
      ensures slots == Overwrite(slots0, SlotWrites(u, e))
      ensures facetIndex == PostAll(old(facetIndex), WriteFacets(u, SlotWrites(u, e)), e.id)
    {
      slots := slots0;
      var keys := KeysInOrder(e.slots);
      ghost var writes := [];
      for i := 0 to |keys|
        invariant forall k :: k in keys ==> k in e.slots
        invariant writes == Writes(u, e.slots, keys[..i]) && slots == Overwrite(slots0, writes)
        invariant facetIndex == PostAll(old(facetIndex), WriteFacets(u, writes), e.id)
      {
        WritesSnoc(u, e.slots, keys, i);
        var key := NormalizePhrase(u, keys[i]);
        var value := TrimSpace(u, e.slots[keys[i]]);
        if key == "" || value == "" { continue; }
        OverwriteSnoc(slots0, writes, (key, value));
        WriteFacetsSnoc(u, writes, (key, value));
        slots := slots[key := value];
        var slotFacet := "slot." + key + "=" + NormalizePhrase(u, value);
        var facet := key + "=" + NormalizePhrase(u, value);
        PostPair(old(facetIndex), WriteFacets(u, writes), slotFacet, facet, e.id);
        facetIndex := Post(facetIndex, slotFacet, e.id);
        facetIndex := Post(facetIndex, facet, e.id);
        writes := writes + [(key, value)];
      }
      assert keys[..|keys|] == keys;
    }

    /** Indexes the entity of `e` and brings its slot table up to date. */
    method PostEntity(e: Entry)
      requires EntityKey(u, e) != ""
      modifies `entityIndex, `facetIndex, `states
      ensures entityIndex == Post(old(entityIndex), EntityKey(u, e), e.id)
      ensures facetIndex
              == PostAll(old(facetIndex), ["entity=" + EntityKey(u, e)] + WriteFacets(u, SlotWrites(u, e)), e.id)
      ensures states == WithEntity(u, old(states), e)
    {
      var key := NormalizePhrase(u, e.entity);
      entityIndex := Post(entityIndex, key, e.id);
      PostAllSplit(facetIndex, ["entity=" + key], WriteFacets(u, SlotWrites(u, e)), e.id);
      assert PostAll(facetIndex, ["entity=" + key][..0], e.id) == facetIndex;
      hide SlotWrites, WriteFacets, Overwrite, NormalizePhrase;
      facetIndex := Post(facetIndex, "entity=" + key, e.id);
      var state := if key in states then states[key] else EntityState(e.entity, map[], ZERO_TIME, []);
      var slots := PostSlots(e, state.slots);
      state := state.(slots := slots, updatedAt := e.createdAt, evidence := AppendId(state.evidence, e.id));
      states := states[key := state];
    }

    /** Posts the tag facets and the day facet. */
    method PostTags(e: Entry)
      modifies `facetIndex
      ensures facetIndex
           == Post(PostAll(old(facetIndex), TagFacets(u, e.tags, SortedKeys(e.tags)), e.id),
                   DayFacet(e.createdAt), e.id)
    {
      var keys := KeysInOrder(e.tags);
      assert TagFacets(u, e.tags, keys[..0]) == [] && PostAll(facetIndex, [], e.id) == facetIndex;
      hide DayFacet, TagFacets, PostAll, Post, NormalizePhrase;
      for i := 0 to |keys|
        invariant forall k :: k in keys ==> k in e.tags
        invariant facetIndex == PostAll(old(facetIndex), TagFacets(u, e.tags, keys[..i]), e.id)
      {
        TagPosted(u, e.tags, keys, i, old(facetIndex), e.id);
        var key := NormalizePhrase(u, keys[i]);
        var value := NormalizePhrase(u, e.tags[keys[i]]);
        if key == "" || value == "" { continue; }
        var tagFacet := "tag." + key + "=" + value;
        var facet := key + "=" + value;
        facetIndex := Post(facetIndex, tagFacet, e.id);
        facetIndex := Post(facetIndex, facet, e.id);
      }
      assert keys[..|keys|] == keys;
      facetIndex := Post(facetIndex, DayFacet(e.createdAt), e.id);
    }

    /**
     Adds one entry to the snapshot compiled from `prefix`. An entry whose id is already present is
     ignored; any other one extends the log the snapshot stands for.
     */
    method AddEntry(entry: Entry, now: int, ghost prefix: seq<Entry>)
      requires View() == Compile(u, prefix)
      requires entry.id <= nextId + 1
      requires entry.id == 0 || entry.id == nextId + 1 ==> Sound(prefix + [Defaulted(entry, nextId, now)])
      modifies this
      ensures log == old(log)
      ensures View()
           == Compile(u, if 1 <= entry.id <= |prefix| then prefix else prefix + [Defaulted(entry, old(nextId), now)])
    {
      var e := entry;
      if e.id == 0 { e := e.(id := nextId + 1); }
      if e.createdAt == ZERO_TIME { e := e.(createdAt := now); }
      assert e.id in entries <==> 1 <= e.id <= |prefix|;
      if e.id in entries { return; }
      AddNew(e, prefix);
    }

    /** The part of `AddEntry` for an entry whose id is new. */
    method AddNew(e: Entry, ghost prefix: seq<Entry>)
      requires View() == Compile(u, prefix) && Sound(prefix + [e])
      modifies this
      ensures log == old(log)
      ensures View() == Compile(u, prefix + [e])
    {
      hide Compile, Sound, WithSignal, WithContent, Registered;
      Register(e);
      if e.signal.Some? && e.refId != 0 {
        SignalCompiled(u, prefix, e);
        ApplySignal(e);
        return;
      }
      ContentCompiled(u, prefix, e);
      PostContent(e);
    }

    method Register(e: Entry)
      modifies `nextId, `updatedAt, `entries, `entryOrder
      ensures View() == Registered(old(View()), e)
    {
      nextId := MaxId(nextId, e.id);
      if e.createdAt > updatedAt { updatedAt := e.createdAt; }
      entries := entries[e.id := e];
      entryOrder := entryOrder + [e.id];
    }

    method PostContent(e: Entry)
      modifies `tokenIndex, `entityIndex, `facetIndex, `states
      ensures View() == WithContent(u, old(View()), e)
    {
      hide PostAll, WithEntity, FacetList, Post, WriteFacets, TagFacets;
      PostTerms(e);
      FacetListPosted(u, facetIndex, e);
      if NormalizePhrase(u, e.entity) != "" {
        PostEntity(e);
      }
      PostTags(e);
    }

    /** Adds a record: logs it, indexes it, and reports the state of its entity. */
    method Add(input: AddInput, now: int) returns (r: Result<Entry, StoreError>, state: Option<EntityState>)
      requires Valid() && now != ZERO_TIME
      modifies this
      ensures Valid()
      ensures r == Outcome(u, old(log), AddOp(input, now)) && log == LogStep(u, old(log), AddOp(input, now))
      ensures r.Err? ==> View() == old(View())
      ensures state == if r.Ok? && r.value.entity != "" then StateOf(u, log, EntityKey(u, r.value)) else None
      ensures r == Err(SlotsNeedEntity) <==> TrimSpace(u, input.entity) == "" && input.slots != map[]
      ensures r == Err(EmptyEntry) <==> TrimSpace(u, input.text) == "" && input.slots == map[]
      ensures r.Err? ==> r.error in {SlotsNeedEntity, EmptyEntry} && log == old(log)
      ensures r.Ok? ==>
                && log == old(log) + [r.value] && r.value.id == |old(log)| + 1 && r.value.createdAt == now
                && r.value.entity == TrimSpace(u, input.entity) && r.value.source == TrimSpace(u, input.source)
                && r.value.slots == input.slots && r.value.tags == input.tags
                && r.value.signal == None && r.value.refId == 0 && r.value.trust == 0.0
                && (TrimSpace(u, input.text) != "" ==> r.value.text == TrimSpace(u, input.text))
    {
      assert nextId == |log|;
      AddOutcome(u, log, input, now);
      hide Compile, WellFormed, TrimSpace, Normalize, NormalizePhrase, StateOf, Outcome;
      var text, entity, source := TrimSpace(u, input.text), TrimSpace(u, input.entity), TrimSpace(u, input.source);
      if entity == "" && input.slots != map[] { return Err(SlotsNeedEntity), None; }
      if text == "" && input.slots == map[] { return Err(EmptyEntry), None; }
      var entry := NormalizeEntry(u, Entry(nextId + 1, now, text, entity, source,
                                           input.slots, input.tags, [], 0.0, None, 0), now);
      hide LogStep;
      AddedEntry(u, log, input, now);
      Append(entry, AddOp(input, now));
      state := None;
      if entry.entity != "" { state := State(entry.entity); }
      r := Ok(entry);
    }

    /** Records a trust signal for an existing entry. */
    method Trust(id: nat, signal: string, now: int) returns (r: Result<Entry, StoreError>)
      requires Valid() && now != ZERO_TIME
      modifies this
      ensures Valid()
      ensures r == Outcome(u, old(log), TrustOp(id, signal, now))
              && log == LogStep(u, old(log), TrustOp(id, signal, now))
      ensures r.Err? ==> View() == old(View())
      ensures r == Err(UnknownEntry) <==> !(1 <= id <= |old(log)|)
      ensures r == Err(UnknownSignal) <==> 1 <= id <= |old(log)| && signal != "helpful" && signal != "unhelpful"
      ensures r.Err? ==> r.error in {UnknownEntry, UnknownSignal} && log == old(log)
      ensures r.Ok? ==>
                && log == old(log) + [r.value] && r.value.id == |old(log)| + 1 && r.value.createdAt == now
                && r.value.refId == id && r.value.entity == "" && r.value.slots == map[] == r.value.tags
                && r.value.signal == Some(if signal == "helpful" then Helpful else Unhelpful)
    {
      assert id in entries <==> 1 <= id <= |log|;
      if id !in entries { return Err(UnknownEntry); }
      if signal != "helpful" && signal != "unhelpful" { return Err(UnknownSignal); }
      var entry := NormalizeEntry(u, TrustEntry(nextId + 1, now, id, signal), now);
      assert Outcome(u, log, TrustOp(id, signal, now)) == Ok(entry);
      hide Outcome, LogStep, Compile, WellFormed;
      TrustedEntry(u, log, id, signal, now);
      Append(entry, TrustOp(id, signal, now));
      r := Ok(entry);
    }

    /** Appends a new entry to the log file and then to the snapshot. */
    method Append(entry: Entry, ghost op: Operation)
      requires Valid() && ClockRuns(op) && Outcome(u, log, op) == Ok(entry)
      modifies this
      ensures Valid() && log == LogStep(u, old(log), op) == old(log) + [entry]
    {
      StepWellFormed(u, log, op);
      ghost var prefix := log;
      log := log + [entry];
      assert SoundAt(log, |prefix|) && IsNormal(u, log[|prefix|]);
      AddEntry(entry, entry.createdAt, prefix);
    }

    method State(entity: string) returns (state: Option<EntityState>)
      requires Valid()
      ensures state == StateOf(u, log, NormalizePhrase(u, entity))
    {
      var key := NormalizePhrase(u, entity);
      StatesAreStates(u, states, log);
      assert (if key in states then Some(states[key]) else None) == StateOf(u, log, key);
      state := if key in states then Some(states[key]) else None;
    }

    /** Compiles a new snapshot by replaying the log; it equals the one maintained step by step. */
    method Rebuild(now: int) returns (rebuilt: Engine)
      requires Valid() && now != ZERO_TIME
      ensures fresh(rebuilt) && rebuilt.Valid() && rebuilt.u == u && rebuilt.log == log
      ensures rebuilt.View() == View()
    {
      hide PostingsOf, StatesOf, TrustOf, EntriesOf, Latest, Normalize, IsNormal, Sound;
      rebuilt := new Engine(u);
      for i := 0 to |log|
        invariant fresh(rebuilt) && rebuilt.u == u && rebuilt.log == []
        invariant rebuilt.View() == Compile(u, log[..i])
      {
        LogEntry(u, log, i);
        var entry := NormalizeEntry(u, log[i], now);
        assert log[..i + 1] == log[..i] + [log[i]];
        rebuilt.AddEntry(entry, now, log[..i]);
      }
      assert log[..|log|] == log;
      rebuilt.log := log;
    }
  }

  lemma LogEntry(u: Unicode, log: seq<Entry>, i: nat)
    requires WellFormed(u, log) && i < |log|
    ensures log[i].id == i + 1 && log[i].createdAt != ZERO_TIME && Sound(log[..i + 1])
    ensures forall now :: Normalize(u, log[i], now) == log[i]
  {
    assert SoundAt(log, i) && IsNormal(u, log[i]);
    var front := log[..i + 1];
    forall j | 0 <= j < |front| ensures SoundAt(front, j) { assert SoundAt(log, j); }
    forall now ensures Normalize(u, log[i], now) == Normalize(u, log[i], log[i].createdAt) {}
  }

  lemma FacetListPosted(u: Unicode, m: Postings, e: Entry)
    ensures var slotted := if EntityKey(u, e) == "" then m
                           else PostAll(m, ["entity=" + EntityKey(u, e)] + WriteFacets(u, SlotWrites(u, e)), e.id);
            var tagged := PostAll(slotted, TagFacets(u, e.tags, SortedKeys(e.tags)), e.id);
            PostAll(m, FacetList(u, e), e.id) == Post(tagged, DayFacet(e.createdAt), e.id)
  {
    var a := if EntityKey(u, e) == "" then [] else ["entity=" + EntityKey(u, e)] + WriteFacets(u, SlotWrites(u, e));
    var b := TagFacets(u, e.tags, SortedKeys(e.tags));
    var c := [DayFacet(e.createdAt)];
    PostAllSplit(m, a + b, c, e.id);
    PostAllSplit(m, a, b, e.id);
    assert c[..0] == [];
  }

  lemma LatestSnoc(log: seq<Entry>, e: Entry)
    ensures Latest(log + [e]) == if e.createdAt > Latest(log) then e.createdAt else Latest(log)
  {
    assert (log + [e])[..|log|] == log;
  }
}
