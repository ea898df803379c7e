/** Wire framing: a 4-byte big-endian length and a JSON payload, read back across arbitrary short reads. */
module Framing {
  import opened Prelude
  import opened Redaction

  const MAX_FRAME_SIZE: nat := 0x0010_0000

  const VALID_KINDS := ["request", "response", "event", "heartbeat", "shutdown"]

  datatype FrameError =
    | Oversized(length: nat)
    | Truncated(received: nat, expected: nat)
    | Utf8Error
    | MalformedJson
    | NonObject
    | MissingKind
    | UnknownKind(kind: string)
    | ReadTimeout
    | WriteTimeout
    | Io

  type FrameResult = Result<Option<map<string, Json>>, FrameError>

  // ---- The JSON library, as a pair that undoes itself ----

  datatype Codec = Codec(serialise: Json -> seq<byte>, isUtf8: seq<byte> -> bool, parse: seq<byte> -> Option<Json>)
  {
    /** Serialised values are UTF-8 and parse back to themselves; the empty text is not JSON. */
    ghost predicate Lawful() {
      && parse([]) == None
      && forall v :: isUtf8(serialise(v)) && parse(serialise(v)) == Some(v)
    }
  }

  // ---- Frames as byte sequences ----

  function BigEndian(n: nat): seq<byte>
    requires n < 0x1_0000_0000
  {
    [n / 0x100_0000, n / 0x1_0000 % 0x100, n / 0x100 % 0x100, n % 0x100]
  }

  function FromBigEndian(b: seq<byte>): nat
    requires |b| == 4
  {
    (b[0] as nat) * 0x100_0000 + (b[1] as nat) * 0x1_0000 + (b[2] as nat) * 0x100 + b[3] as nat
  }

  lemma BigEndianRoundTrip(n: nat)
    requires n < 0x1_0000_0000
    ensures FromBigEndian(BigEndian(n)) == n
    ensures var b := BigEndian(n);
            n == b[0] as int * 16_777_216 + b[1] as int * 65_536 + b[2] as int * 256 + b[3] as int
  {
    assert n / 0x100 % 0x100 == n / 0x100 - 0x100 * (n / 0x1_0000);
    assert n / 0x1_0000 % 0x100 == n / 0x1_0000 - 0x100 * (n / 0x100_0000);
  }

  function Frame(payload: seq<byte>): seq<byte>
    requires |payload| <= MAX_FRAME_SIZE
  {
    BigEndian(|payload|) + payload
  }

  /** Checks a complete payload: UTF-8, JSON, object, `kind`, known kind, in this order. */
  function Validate(codec: Codec, payload: seq<byte>): FrameResult {
    if !codec.isUtf8(payload) then Err(Utf8Error) else
      match codec.parse(payload)
      case None => Err(MalformedJson)
      case Some(Object(fields)) =>
        if !("kind" in fields && fields["kind"].Str?) then Err(MissingKind)
        else if fields["kind"].s !in VALID_KINDS then Err(UnknownKind(fields["kind"].s))
        else Ok(Some(fields))
      case Some(_) => Err(NonObject)
  }

  /** What one frame at the head of a finished stream means, and how many bytes it takes. */
  function ReadOne(codec: Codec, b: seq<byte>): (r: (FrameResult, nat))
    ensures r.1 <= |b|
  {
    if |b| < 4 then (Ok(None), |b|) else
      var length := FromBigEndian(b[..4]);
      if length == 0 then (Ok(None), 4)
      else if length > MAX_FRAME_SIZE then (Err(Oversized(length)), 4)
      else if |b| < 4 + length then (Err(Truncated(|b| - 4, length)), |b|)
      else (Validate(codec, b[4..4 + length]), 4 + length)
  }

  // ---- Streams that deliver as little as they like ----

  datatype ReadOutcome = Got(bytes: seq<byte>) | TimedOut | Failed

  class ByteSource {
    /** A reliable source never fails a read, however little it delivers. */
    const reliable: bool
    /** Bytes not yet delivered; the stream ends after them. */
    var rest: seq<byte>
    /** Whether a read has failed, and whether the failure was a timeout. */
    var faulted: bool
    var timedOut: bool

    constructor (bytes: seq<byte>, reliable: bool)
      ensures rest == bytes && !faulted && this.reliable == reliable
    {
      rest, faulted, timedOut, this.reliable := bytes, false, false, reliable;
    }

    /** Delivers between one byte and `room`, nothing only at the end of the stream, or fails. */
    method Read(room: nat) returns (r: ReadOutcome)
      requires room > 0
      modifies this
      ensures faulted == (old(faulted) || !r.Got?)
      ensures r.Got? ==> |r.bytes| <= room && old(rest) == r.bytes + rest && (r.bytes == [] ==> rest == [])
      ensures !r.Got? ==> rest == old(rest) && timedOut == r.TimedOut?
      ensures reliable ==> r.Got?
    {
      if !reliable {
        if * { faulted, timedOut := true, true; return TimedOut; }
        if * { faulted, timedOut := true, false; return Failed; }
      }
      if rest == [] { return Got([]); }
      var n :| 0 < n <= |rest| && n <= room;
      r := Got(rest[..n]);
      rest := rest[n..];
    }
  }

  /** The result and the rest of the stream are those of reading one frame. */
  ghost predicate ReadsAs(codec: Codec, all: seq<byte>, r: FrameResult, rest: seq<byte>) {
    r == ReadOne(codec, all).0 && rest == all[ReadOne(codec, all).1..]
  }

  lemma PrefixDecides(codec: Codec, prefix: seq<byte>, body: seq<byte>)
    requires |prefix| <= 4
    ensures |prefix| < 4 ==> ReadsAs(codec, prefix, Ok(None), [])
    ensures |prefix| == 4 && FromBigEndian(prefix) == 0 ==> ReadsAs(codec, prefix + body, Ok(None), body)
    ensures |prefix| == 4 && FromBigEndian(prefix) > MAX_FRAME_SIZE ==>
              ReadsAs(codec, prefix + body, Err(Oversized(FromBigEndian(prefix))), body)
  {
    hide FromBigEndian, Validate;
    assert |prefix| == 4 ==> (prefix + body)[..4] == prefix && (prefix + body)[4..] == body;
  }

  lemma PayloadDecides(codec: Codec, prefix: seq<byte>, payload: seq<byte>, rest: seq<byte>)
    requires |prefix| == 4 && |payload| <= FromBigEndian(prefix) && 0 < FromBigEndian(prefix) <= MAX_FRAME_SIZE
    ensures var length := FromBigEndian(prefix);
            if |payload| < length then
              ReadsAs(codec, prefix + payload, Err(Truncated(|payload|, length)), [])
            else ReadsAs(codec, prefix + (payload + rest), Validate(codec, payload), rest)
  {
    hide FromBigEndian, Validate;
    assert (prefix + payload)[..4] == prefix;
    var all := prefix + (payload + rest);
    assert all[..4] == prefix && all[4..4 + |payload|] == payload && all[4 + |payload|..] == rest;
  }

  /**
   Reads one frame. However the source splits its bytes, the result and the bytes consumed are
   those of `ReadOne`; only a failing read can change the result.
   */
  method ReadFrame(codec: Codec, source: ByteSource) returns (r: FrameResult)
    requires !source.faulted
    modifies source
    ensures !source.faulted ==> r == ReadOne(codec, old(source.rest)).0
                                && source.rest == old(source.rest)[ReadOne(codec, old(source.rest)).1..]
    ensures source.faulted ==> !source.reliable && r == Err(if source.timedOut then ReadTimeout else Io)
  {
    hide Validate, FromBigEndian, ReadOne;
    ghost var all := source.rest;
    var prefix: seq<byte> := [];
    while |prefix| < 4
      invariant |prefix| <= 4 && all == prefix + source.rest && !source.faulted
      decreases 4 - |prefix|
    {
      var got := source.Read(4 - |prefix|);
      match got {
        case Got(bytes) =>
          if bytes == [] {
            PrefixDecides(codec, prefix, []);
            assert all == prefix;
            return Ok(None);
          }
          prefix := prefix + bytes;
        case TimedOut => return Err(ReadTimeout);
        case Failed => return Err(Io);
      }
    }
    ghost var body := source.rest;
    PrefixDecides(codec, prefix, body);
    var length := FromBigEndian(prefix);
    if length == 0 { return Ok(None); }
    if length > MAX_FRAME_SIZE { return Err(Oversized(length)); }
    var payload: seq<byte> := [];
    while |payload| < length
      invariant |payload| <= length && body == payload + source.rest && !source.faulted
      decreases length - |payload|
    {
      var got := source.Read(length - |payload|);
      match got {
        case Got(bytes) =>
          if bytes == [] {
            PayloadDecides(codec, prefix, payload, []);
            assert body == payload;
            return Err(Truncated(|payload|, length));
          }
          payload := payload + bytes;
        case TimedOut => return Err(ReadTimeout);
        case Failed => return Err(Io);
      }
    }
    PayloadDecides(codec, prefix, payload, source.rest);
    r := Validate(codec, payload);
  }

  datatype WriteOutcome = Wrote | WriteTimedOut | WriteFailed

  class ByteSink {
    /** A reliable sink takes everything it is given. */
    const reliable: bool
    var written: seq<byte>
    /** Whether the last failure was a timeout. */
    var timedOut: bool

    constructor (reliable: bool)
      ensures written == [] && this.reliable == reliable
    {
      written, timedOut, this.reliable := [], false, reliable;
    }

    /** Writes all the bytes, or some of them and fails. */
    method WriteAll(bytes: seq<byte>) returns (r: WriteOutcome)
      modifies this
      ensures r == Wrote ==> written == old(written) + bytes
      ensures exists n: nat :: n <= |bytes| && written == old(written) + bytes[..n]
      ensures r != Wrote ==> timedOut == r.WriteTimedOut?
      ensures reliable ==> r == Wrote
    {
      ghost var before := written;
      var n :| 0 <= n <= |bytes|;
      if n < |bytes| && !reliable {
        written := written + bytes[..n];
        if * { timedOut := true; return WriteTimedOut; }
        timedOut := false;
        return WriteFailed;
      }
      assert bytes[..|bytes|] == bytes;
      written := written + bytes;
      r := Wrote;
    }

    /** May fail even when everything has been taken. */
    method Flush() returns (r: WriteOutcome)
      modifies `timedOut
      ensures r != Wrote ==> timedOut == r.WriteTimedOut?
      ensures reliable ==> r == Wrote
    {
      if !reliable {
        if * { timedOut := true; return WriteTimedOut; }
        if * { timedOut := false; return WriteFailed; }
      }
      r := Wrote;
    }
  }

  /** Writes one frame: the sink grows by exactly that frame, or nothing is written and the message is too large. */
  method WriteFrame(codec: Codec, sink: ByteSink, message: Json) returns (r: Result<(), FrameError>)
    modifies sink
    ensures r.Ok? ==> |codec.serialise(message)| <= MAX_FRAME_SIZE
                      && sink.written == old(sink.written) + Frame(codec.serialise(message))
    ensures |codec.serialise(message)| > 1_048_576 <==> r.Err? && r.error.Oversized?
    ensures r.Err? && r.error.Oversized? ==>
              && sink.written == old(sink.written)
              && r.error.length == if |codec.serialise(message)| <= 4_294_967_295 then |codec.serialise(message)|
                                   else 4_294_967_295
    ensures r.Err? && !r.error.Oversized? ==>
              !sink.reliable && r.error == if sink.timedOut then WriteTimeout else Io
  {
    var payload := codec.serialise(message);
    if |payload| > MAX_FRAME_SIZE {
      return Err(Oversized(if |payload| < 0xFFFF_FFFF then |payload| else 0xFFFF_FFFF));
    }
    var outcome := sink.WriteAll(BigEndian(|payload|));
    if outcome == WriteTimedOut { return Err(WriteTimeout); }
    if outcome == WriteFailed { return Err(Io); }
    outcome := sink.WriteAll(payload);
    if outcome == WriteTimedOut { return Err(WriteTimeout); }
    if outcome == WriteFailed { return Err(Io); }
    outcome := sink.Flush();
    if outcome == WriteTimedOut { return Err(WriteTimeout); }
    if outcome == WriteFailed { return Err(Io); }
    r := Ok(());
  }

  // ---- Round trips ----

  /** A message the protocol knows, small enough for one frame. */
  ghost predicate Sendable(codec: Codec, fields: map<string, Json>) {
    && "kind" in fields && fields["kind"].Str? && fields["kind"].s in VALID_KINDS
    && |codec.serialise(Object(fields))| <= MAX_FRAME_SIZE
  }

  ghost function Encoded(codec: Codec, fields: map<string, Json>): seq<byte>
    requires Sendable(codec, fields)
  {
    Frame(codec.serialise(Object(fields)))
  }

  lemma FrameLength(payload: seq<byte>)
    requires |payload| <= MAX_FRAME_SIZE
    ensures |Frame(payload)| == 4 + |payload|
    ensures forall after :: FromBigEndian((Frame(payload) + after)[..4]) == |payload|
    ensures forall after :: (Frame(payload) + after)[4..4 + |payload|] == payload
  {
    BigEndianRoundTrip(|payload|);
    forall after ensures (Frame(payload) + after)[..4] == BigEndian(|payload|) {}
  }

  /** A frame followed by anything reads back as its message, taking exactly its own bytes. */
  lemma FrameRoundTrip(codec: Codec, fields: map<string, Json>, after: seq<byte>)
    requires codec.Lawful() && Sendable(codec, fields)
    ensures ReadOne(codec, Encoded(codec, fields) + after) == (Ok(Some(fields)), |Encoded(codec, fields)|)
  {
    hide FromBigEndian, BigEndian;
    var payload := codec.serialise(Object(fields));
    FrameLength(payload);
    assert codec.parse(payload) == Some(Object(fields));
    assert payload != [];
  }

  /** A frame cut anywhere short of its end never yields a message; a cut payload reports both counts. */
  lemma CutFrame(codec: Codec, fields: map<string, Json>, n: nat)
    requires codec.Lawful() && Sendable(codec, fields) && n < |Encoded(codec, fields)|
    ensures ReadOne(codec, Encoded(codec, fields)[..n]).0
         == if n < 4 then Ok(None) else Err(Truncated(n - 4, |codec.serialise(Object(fields))|))
  {
    hide FromBigEndian, BigEndian;
    var payload := codec.serialise(Object(fields));
    FrameLength(payload);
    var frame := Encoded(codec, fields);
    assert codec.parse(payload) == Some(Object(fields));
    assert payload != [];
    if n >= 4 { assert frame[..n][..4] == (frame + [])[..4]; }
  }

  /** What a length alone decides: an empty frame is no message, and one above 1 MiB is refused unread. */
  lemma HeaderDecides(codec: Codec, length: nat, after: seq<byte>)
    requires length < 0x1_0000_0000
    ensures length == 0 ==> ReadOne(codec, BigEndian(length) + after) == (Ok(None), 4)
    ensures length > 1_048_576 ==> ReadOne(codec, BigEndian(length) + after) == (Err(Oversized(length)), 4)
  {
    BigEndianRoundTrip(length);
    assert (BigEndian(length) + after)[..4] == BigEndian(length);
  }

  /**
   Which error a complete frame is refused with, and when it is accepted: the first of the five checks
   that its payload fails decides.
   */
  lemma FrameDecides(codec: Codec, payload: seq<byte>, after: seq<byte>)
    requires 0 < |payload| <= 1_048_576
    ensures ReadOne(codec, Frame(payload) + after).1 == 4 + |payload|
    ensures var r, parsed := ReadOne(codec, Frame(payload) + after).0, codec.parse(payload);
            var isObject := codec.isUtf8(payload) && parsed.Some? && parsed.value.Object?;
            && (r == Err(Utf8Error) <==> !codec.isUtf8(payload))
            && (r == Err(MalformedJson) <==> codec.isUtf8(payload) && parsed.None?)
            && (r == Err(NonObject) <==> codec.isUtf8(payload) && parsed.Some? && !parsed.value.Object?)
            && (r == Err(MissingKind) <==>
                  isObject && !("kind" in parsed.value.fields && parsed.value.fields["kind"].Str?))
            && (forall kind :: r == Err(UnknownKind(kind)) <==>
                  isObject && "kind" in parsed.value.fields && parsed.value.fields["kind"] == Str(kind)
                  && kind !in {"request", "response", "event", "heartbeat", "shutdown"})
            && (forall fields :: r == Ok(Some(fields)) <==>
                  isObject && fields == parsed.value.fields && "kind" in fields
                  && fields["kind"] in {Str("request"), Str("response"), Str("event"), Str("heartbeat"),
                                        Str("shutdown")})
  {
    FrameLength(payload);
    hide FromBigEndian, BigEndian;
    assert (Frame(payload) + after)[..4] == BigEndian(|payload|);
    assert ReadOne(codec, Frame(payload) + after).0 == Validate(codec, payload);
    hide ReadOne, Frame;
    KindsAre();
    hide VALID_KINDS;
  }

  lemma KindsAre()
    ensures forall kind :: kind in VALID_KINDS <==> kind in {"request", "response", "event", "heartbeat", "shutdown"}
  {
  }

  ghost function Stream(codec: Codec, messages: seq<map<string, Json>>): seq<byte>
    requires forall m :: m in messages ==> Sendable(codec, m)
  {
    if messages == [] then [] else Encoded(codec, messages[0]) + Stream(codec, messages[1..])
  }

  /** Reads frames from bytes until `count` messages have been taken. */
  ghost function ReadMany(codec: Codec, b: seq<byte>, count: nat): (seq<FrameResult>, seq<byte>) {
    if count == 0 then ([], b) else
      var (r, n) := ReadOne(codec, b);
      var (rs, after) := ReadMany(codec, b[n..], count - 1);
      ([r] + rs, after)
  }

  function EachReceived(messages: seq<map<string, Json>>): seq<FrameResult> {
    if messages == [] then [] else [Ok(Some(messages[0]))] + EachReceived(messages[1..])
  }

  /** A stream of messages reads back as exactly those messages, leaving exactly what follows them. */
  lemma {:induction false} StreamRoundTrip(codec: Codec, messages: seq<map<string, Json>>, after: seq<byte>)
    requires codec.Lawful() && forall m :: m in messages ==> Sendable(codec, m)
    ensures ReadMany(codec, Stream(codec, messages) + after, |messages|)
         == (EachReceived(messages), after)
  {
    hide Encoded, ReadOne;
    if messages == [] {
      assert [] + after == after;
    } else {
      var head, tail := Encoded(codec, messages[0]), Stream(codec, messages[1..]);
      assert Stream(codec, messages) + after == head + (tail + after);
      FrameRoundTrip(codec, messages[0], tail + after);
      assert (head + (tail + after))[|head|..] == tail + after;
      StreamRoundTrip(codec, messages[1..], after);
    }
  }

  /**
   Writes all the messages to a sink and reads the bytes back from a source that may split them in
   any way. Unless an operation fails, the messages come back unchanged and nothing is left over;
   over reliable streams no operation fails.
   */
  method Exchange(codec: Codec, messages: seq<map<string, Json>>, sinkReliable: bool, sourceReliable: bool)
    returns (received: seq<FrameResult>, leftover: seq<byte>, failed: bool)
    requires codec.Lawful() && forall m :: m in messages ==> Sendable(codec, m)
    ensures sinkReliable && sourceReliable ==> !failed
    ensures !failed ==> leftover == [] && |received| == |messages|
                        && forall i :: 0 <= i < |messages| ==> received[i] == Ok(Some(messages[i]))
  {
    received, leftover, failed := [], [], false;
    var sink := new ByteSink(sinkReliable);
    for i := 0 to |messages|
      invariant fresh(sink) && sink.reliable == sinkReliable && sink.written == Stream(codec, messages[..i])
    {
      hide Encoded;
      StreamSnoc(codec, messages, i);
      assert Sendable(codec, messages[i]);
      var r := WriteFrame(codec, sink, Object(messages[i]));
      if r.Err? { return [], [], true; }
    }
    assert messages[..|messages|] == messages;
    var source := new ByteSource(sink.written, sourceReliable);
    for i := 0 to |messages|
      invariant fresh(source) && !source.faulted && source.reliable == sourceReliable
      invariant source.rest == Stream(codec, messages[i..])
      invariant |received| == i && forall k :: 0 <= k < i ==> received[k] == Ok(Some(messages[k]))
    {
      hide Encoded, ReadOne;
      FrameRoundTrip(codec, messages[i], Stream(codec, messages[i..][1..]));
      assert messages[i..][1..] == messages[i + 1..];
      var r := ReadFrame(codec, source);
      if source.faulted { return [], [], true; }
      received := received + [r];
    }
    leftover := source.rest;
  }

  lemma {:induction false} StreamSnoc(codec: Codec, messages: seq<map<string, Json>>, i: nat)
    requires i < |messages| && forall m :: m in messages ==> Sendable(codec, m)
    ensures Stream(codec, messages[..i + 1]) == Stream(codec, messages[..i]) + Encoded(codec, messages[i])
    decreases i
  {
    hide Encoded;
    if i == 0 {
      assert messages[..1][1..] == [];
    } else {
      var rest := messages[1..];
      StreamSnoc(codec, rest, i - 1);
      assert messages[..i + 1][1..] == rest[..i] && messages[..i][1..] == rest[..i - 1];
    }
  }
}
