/**
 The event replay ring: bounded by count and by bytes, and specified by the whole, never-evicted
 history of pushes.
 */
module EventRing {
  import opened Prelude

  const MAX_RING_EVENTS: nat := 1000
  const MAX_RING_BYTES: nat := 512 * 1024

  datatype EventKind = DataUpdated | OtherKind(name: string)

  /** `encodedSize` is the length of the event's JSON encoding, or 0 when it cannot be encoded. */
  datatype EventEnvelope = EventEnvelope(
    id: string, kind: EventKind, ts: string, sequence: Option<u64>, data: string, encodedSize: nat)

  datatype ReplayGap = ReplayGap(oldestAvailable: u64, requested: u64)

  // ---- What the ring holds, as a function of everything ever pushed ----

  function Bytes(es: seq<EventEnvelope>): nat {
    if es == [] then 0 else es[0].encodedSize + Bytes(es[1..])
  }

  predicate Fits(es: seq<EventEnvelope>) {
    |es| <= MAX_RING_EVENTS && Bytes(es) <= MAX_RING_BYTES
  }

  /** The first position from `k` on whose suffix fits, or else the last position. */
  function FirstFit(h: seq<EventEnvelope>, k: nat): (n: nat)
    requires k < |h|
    ensures k <= n < |h|
    ensures n == |h| - 1 || Fits(h[n..])
    ensures forall j :: k <= j < n ==> !Fits(h[j..])
    decreases |h| - k
  {
    if k == |h| - 1 || Fits(h[k..]) then k else FirstFit(h, k + 1)
  }

  /** How many events of the history have been evicted. */
  function Evictions(h: seq<EventEnvelope>): (n: nat)
    ensures n <= |h| && (h != [] ==> n < |h|)
  {
    if h == [] then 0 else FirstFit(h, 0)
  }

  function Retained(h: seq<EventEnvelope>): seq<EventEnvelope> {
    h[Evictions(h)..]
  }

  function MaxSequence(es: seq<EventEnvelope>): Option<u64> {
    if es == [] then None else
      var before, last := MaxSequence(es[..|es| - 1]), es[|es| - 1].sequence;
      if last.None? || (before.Some? && before.value >= last.value) then before else last
  }

  /** The sequence number the next push is expected to carry, in 64-bit arithmetic. */
  function NextSequence(h: seq<EventEnvelope>): u64 {
    if h == [] then 1 else
      var next, last := NextSequence(h[..|h| - 1]), h[|h| - 1].sequence;
      if last.Some? && last.value >= next then WrappingSucc(last.value) else next
  }

  predicate AtLeast(e: EventEnvelope, since: u64) {
    e.sequence.Some? && e.sequence.value >= since
  }

  function FromSequence(es: seq<EventEnvelope>, since: u64): seq<EventEnvelope> {
    if es == [] then [] else
      FromSequence(es[..|es| - 1], since) + (if AtLeast(es[|es| - 1], since) then [es[|es| - 1]] else [])
  }

  predicate LostSince(h: seq<EventEnvelope>, since: u64) {
    exists i :: 0 <= i < Evictions(h) && AtLeast(h[i], since)
  }

  function OldestAvailable(h: seq<EventEnvelope>): u64
    requires MaxSequence(h[..Evictions(h)]).Some?
  {
    var front := Retained(h)[0].sequence;
    if front.Some? then front.value else WrappingSucc(MaxSequence(h[..Evictions(h)]).value)
  }

  /**
   The answer to a subscription: everything retained for cursor 0; a gap when an event at or after
   the cursor has been evicted; otherwise every event ever pushed at or after the cursor.
   */
  ghost function Replay(h: seq<EventEnvelope>, since: u64): Result<seq<EventEnvelope>, ReplayGap> {
    if since == 0 then Ok(Retained(h))
    else if LostSince(h, since) then
      MaxSequenceBounds(h[..Evictions(h)]);
      Err(ReplayGap(OldestAvailable(h), since))
    else Ok(FromSequence(h, since))
  }

  // ---- Arithmetic of the definitions ----

  lemma {:induction false} BytesSplit(a: seq<EventEnvelope>, b: seq<EventEnvelope>)
    ensures Bytes(a + b) == Bytes(a) + Bytes(b)
  {
    if a == [] {
      assert a + b == b;
    } else {
      assert (a + b)[1..] == a[1..] + b;
      BytesSplit(a[1..], b);
    }
  }

  lemma {:induction false} MaxSequenceBounds(es: seq<EventEnvelope>)
    ensures forall i :: 0 <= i < |es| && es[i].sequence.Some? ==>
              MaxSequence(es).Some? && es[i].sequence.value <= MaxSequence(es).value
    ensures MaxSequence(es).Some? ==> exists i :: 0 <= i < |es| && es[i].sequence == MaxSequence(es)
  {
    if es != [] {
      var front := es[..|es| - 1];
      MaxSequenceBounds(front);
      if MaxSequence(front).Some? {
        var i :| 0 <= i < |front| && front[i].sequence == MaxSequence(front);
        assert es[i] == front[i];
      }
      assert es[|es| - 1].sequence == MaxSequence(es) || MaxSequence(es) == MaxSequence(front);
      assert forall i :: 0 <= i < |front| ==> es[i] == front[i];
    }
  }

  lemma {:induction false} FromSequenceSplit(a: seq<EventEnvelope>, b: seq<EventEnvelope>, since: u64)
    ensures FromSequence(a + b, since) == FromSequence(a, since) + FromSequence(b, since)
  {
    if b == [] {
      assert a + b == a;
    } else {
      assert (a + b)[..|a + b| - 1] == a + b[..|b| - 1];
      FromSequenceSplit(a, b[..|b| - 1], since);
    }
  }

  lemma {:induction false} FromSequenceNone(es: seq<EventEnvelope>, since: u64)
    requires forall i :: 0 <= i < |es| ==> !AtLeast(es[i], since)
    ensures FromSequence(es, since) == []
  {
    if es != [] { FromSequenceNone(es[..|es| - 1], since); }
  }

  lemma {:induction false} FromSequenceAll(es: seq<EventEnvelope>, since: u64)
    requires forall i :: 0 <= i < |es| ==> AtLeast(es[i], since)
    ensures FromSequence(es, since) == es
  {
    if es != [] { FromSequenceAll(es[..|es| - 1], since); }
  }

  /** A suffix that no longer fits cannot fit again after more pushes. */
  lemma FitsShrinks(h: seq<EventEnvelope>, e: EventEnvelope, j: nat)
    requires j <= |h| && Fits((h + [e])[j..])
    ensures Fits(h[j..])
  {
    assert (h + [e])[j..] == h[j..] + [e];
    BytesSplit(h[j..], [e]);
  }

  /** The ring holds the longest suffix of at most 1000 events and 512 KiB, or the last event alone. */
  lemma RetainedIsLongest(h: seq<EventEnvelope>)
    requires h != []
    ensures (|Retained(h)| <= 1000 && Bytes(Retained(h)) <= 524_288) || |Retained(h)| == 1
    ensures forall k :: 0 <= k < Evictions(h) ==> |h| - k > 1000 || Bytes(h[k..]) > 524_288
  {
    forall k | 0 <= k < Evictions(h) ensures |h| - k > 1000 || Bytes(h[k..]) > 524_288 {
      assert !Fits(h[k..]);
    }
  }

  /** Exactly one length satisfies that description. */
  lemma RetainedUnique(h: seq<EventEnvelope>, n: nat)
    requires n < |h| && (Fits(h[n..]) || n == |h| - 1) && forall k :: 0 <= k < n ==> !Fits(h[k..])
    ensures n == Evictions(h)
  {
  }

  lemma StillTooLong(h: seq<EventEnvelope>, e: EventEnvelope)
    ensures forall j :: 0 <= j < Evictions(h) ==> !Fits((h + [e])[j..])
  {
    forall j | 0 <= j < Evictions(h) ensures !Fits((h + [e])[j..]) {
      if Fits((h + [e])[j..]) { FitsShrinks(h, e, j); }
    }
  }

  lemma SuffixBytes(h: seq<EventEnvelope>, e: EventEnvelope, k: nat)
    requires k <= |h|
    ensures (h + [e])[k..] == h[k..] + [e] && (h + [e])[..k] == h[..k]
    ensures Bytes((h + [e])[k..]) == Bytes(h[k..]) + e.encodedSize
  {
    BytesSplit(h[k..], [e]);
    assert (h + [e])[k..] == h[k..] + [e];
  }

  lemma NextSnoc(h: seq<EventEnvelope>, e: EventEnvelope)
    ensures NextSequence(h + [e])
         == if e.sequence.Some? && e.sequence.value >= NextSequence(h) then WrappingSucc(e.sequence.value)
            else NextSequence(h)
  {
    assert (h + [e])[..|h|] == h;
  }

  class EventRing {
    var events: seq<EventEnvelope>
    var totalSerializedBytes: nat
    var evictedThrough: Option<u64>
    var nextSequence: u64
    /** Every event ever pushed. */
    ghost var history: seq<EventEnvelope>

    ghost predicate Valid()
      reads this
    {
      && events == Retained(history)
      && totalSerializedBytes == Bytes(events)
      && evictedThrough == MaxSequence(history[..Evictions(history)])
      && nextSequence == NextSequence(history)
    }

    constructor ()
      ensures Valid() && history == []
    {
      events, totalSerializedBytes, evictedThrough, nextSequence, history := [], 0, None, 1, [];
    }

    /** The mark after one more eviction. */
    lemma MarkMoves(h: seq<EventEnvelope>, k: nat)
      requires k < |h|
      ensures var before, s := MaxSequence(h[..k]), h[k].sequence;
              MaxSequence(h[..k + 1])
              == if s.None? then before
                 else Some(if before.Some? && before.value > s.value then before.value else s.value)
    {
      assert h[..k + 1][..k] == h[..k];
    }

    method Push(event: EventEnvelope)
      requires Valid()
      modifies this
      ensures Valid() && history == old(history) + [event]
    {
      var size := event.encodedSize;
      ghost var h := history + [event];
      ghost var k: nat := Evictions(history);
      StillTooLong(history, event);
      hide Evictions, FirstFit, NextSequence, MaxSequence;
      while events != [] && (|events| >= MAX_RING_EVENTS || totalSerializedBytes + size > MAX_RING_BYTES)
        invariant history == old(history) && nextSequence == old(nextSequence)
        invariant k <= |history| && events == history[k..] && totalSerializedBytes == Bytes(events)
        invariant evictedThrough == MaxSequence(history[..k])
        invariant forall j :: 0 <= j < k ==> !Fits(h[j..])
        decreases |events|
      {
        SuffixBytes(history, event, k);
        var evicted := events[0];
        MarkMoves(history, k);
        events := events[1..];
        totalSerializedBytes := SaturatingSub(totalSerializedBytes, evicted.encodedSize);
        if evicted.sequence.Some? {
          var s := evicted.sequence.value;
          evictedThrough := Some(if evictedThrough.Some? && evictedThrough.value > s then evictedThrough.value else s);
        }
        k := k + 1;
      }
      SuffixBytes(history, event, k);
      RetainedUnique(h, k);
      NextSnoc(history, event);
      if event.sequence.Some? && event.sequence.value >= nextSequence {
        nextSequence := WrappingSucc(event.sequence.value);
      }
      totalSerializedBytes := totalSerializedBytes + size;
      events := events + [event];
      history := h;
    }

    method Subscribe(sinceSequence: u64) returns (r: Result<seq<EventEnvelope>, ReplayGap>)
      requires Valid()
      ensures r == Replay(history, sinceSequence)
    {
      if sinceSequence == 0 { return Ok(events); }
      ReplayFromRing(history, sinceSequence);
      if evictedThrough.Some? && sinceSequence <= evictedThrough.value {
        var oldest := if events[0].sequence.Some? then events[0].sequence.value else WrappingSucc(evictedThrough.value);
        return Err(ReplayGap(oldest, sinceSequence));
      }
      r := Ok(FromSequence(events, sinceSequence));
    }
  }

  /** The highest evicted sequence decides whether anything at or after the cursor is gone. */
  lemma ReplayFromRing(h: seq<EventEnvelope>, since: u64)
    ensures var through := MaxSequence(h[..Evictions(h)]);
            LostSince(h, since) <==> through.Some? && since <= through.value
    ensures !LostSince(h, since) ==> FromSequence(h, since) == FromSequence(Retained(h), since)
  {
    var k := Evictions(h);
    var evicted, kept := h[..k], h[k..];
    hide Evictions, FromSequence, MaxSequence;
    MaxSequenceBounds(evicted);
    if LostSince(h, since) {
      var i :| 0 <= i < k && AtLeast(h[i], since);
      assert evicted[i] == h[i];
    } else {
      forall i | 0 <= i < |evicted| ensures !AtLeast(evicted[i], since) {
        assert evicted[i] == h[i];
      }
      FromSequenceNone(evicted, since);
      FromSequenceSplit(evicted, kept, since);
      assert h == evicted + kept;
    }
  }

  function SaturatingSub(a: nat, b: nat): nat {
    if a < b then 0 else a - b
  }

  // ---- Consequences ----

  /** Sequence numbers as one writer assigns them: present, from 1, strictly increasing. */
  ghost predicate Increasing(h: seq<EventEnvelope>) {
    && (forall i :: 0 <= i < |h| ==> h[i].sequence.Some? && h[i].sequence.value >= 1)
    && (forall i, j :: 0 <= i < j < |h| ==> h[i].sequence.value < h[j].sequence.value)
  }

  /** Everything from the first event of a suffix on is that suffix. */
  lemma FromSuffixStart(h: seq<EventEnvelope>, k: nat)
    requires Increasing(h) && k < |h|
    ensures FromSequence(h, h[k].sequence.value) == h[k..]
  {
    hide FromSequence;
    var since, a, b := h[k].sequence.value, h[..k], h[k..];
    forall i | 0 <= i < |a| ensures !AtLeast(a[i], since) {
      assert a[i] == h[i] && h[i].sequence.value < h[k].sequence.value;
    }
    forall i | 0 <= i < |b| ensures AtLeast(b[i], since) {
      assert b[i] == h[k + i];
    }
    FromSequenceNone(a, since);
    FromSequenceAll(b, since);
    FromSequenceSplit(a, b, since);
    assert h == a + b;
  }

  /** A subscriber told of a gap can start again at the oldest event offered, and gets all that is retained. */
  lemma OldestIsAvailable(h: seq<EventEnvelope>, since: u64)
    requires Increasing(h) && Replay(h, since).Err?
    ensures Replay(h, Replay(h, since).error.oldestAvailable) == Ok(Retained(h))
  {
    var k := Evictions(h);
    hide Evictions, FirstFit, MaxSequence;
    MaxSequenceBounds(h[..k]);
    assert Retained(h)[0] == h[k];
    FromSuffixStart(h, k);
    assert !LostSince(h, h[k].sequence.value);
  }

  /** Without a sequence on the oldest event, the cursor offered is one above the highest evicted sequence. */
  lemma OfferWithoutSequence(h: seq<EventEnvelope>, since: u64)
    requires Replay(h, since).Err? && h[Evictions(h)].sequence.None? && !CarriesMax(h)
    ensures var offered := Replay(h, since).error.oldestAvailable;
            && Replay(h, since).error.requested == since
            && (forall i :: 0 <= i < Evictions(h) && h[i].sequence.Some? ==> h[i].sequence.value < offered)
            && (exists i :: 0 <= i < Evictions(h) && h[i].sequence.Some? && h[i].sequence.value + 1 == offered)
            && Replay(h, offered).Ok?
  {
    var k := Evictions(h);
    hide Evictions, FirstFit, MaxSequence, FromSequence;
    var evicted := h[..k];
    MaxSequenceBounds(evicted);
    assert Retained(h)[0] == h[k];
    var i :| 0 <= i < |evicted| && evicted[i].sequence == MaxSequence(evicted);
    assert h[i] == evicted[i] && h[i].sequence != Some(U64_SIZE - 1);
    assert forall j :: 0 <= j < k ==> evicted[j] == h[j];
  }

  predicate CarriesMax(h: seq<EventEnvelope>) {
    exists i :: 0 <= i < |h| && h[i].sequence == Some(U64_SIZE - 1)
  }

  lemma {:induction false} NextIsMaxPlusOne(h: seq<EventEnvelope>)
    requires !CarriesMax(h)
    ensures NextSequence(h) == match MaxSequence(h) case None => 1 case Some(m) => m + 1
  {
    if h != [] {
      var front := h[..|h| - 1];
      assert !CarriesMax(front) by {
        forall i | 0 <= i < |front| ensures front[i].sequence != Some(U64_SIZE - 1) { assert front[i] == h[i]; }
      }
      NextIsMaxPlusOne(front);
      assert h[|h| - 1].sequence != Some(U64_SIZE - 1);
    }
  }

  /** The announced next sequence is above every sequence pushed, unless the counter has reached its 64-bit end. */
  lemma NextExceedsAll(h: seq<EventEnvelope>)
    ensures (forall i :: 0 <= i < |h| && h[i].sequence.Some? ==> h[i].sequence.value < NextSequence(h))
            <==> !CarriesMax(h)
  {
    if CarriesMax(h) {
      var i :| 0 <= i < |h| && h[i].sequence == Some(U64_SIZE - 1);
      assert !(h[i].sequence.value < NextSequence(h));
    } else {
      NextIsMaxPlusOne(h);
      MaxSequenceBounds(h);
    }
  }
}
