/**
 The observability writer: senders feed a bounded channel, and one background loop batches,
 flushes and rotates. Every method below is one atomic step; sends may fall between any two steps
 of the loop. Disk operations succeed and rotated names do not collide.
 */
module LogWriter {
  import opened Prelude
  import opened Text
  import opened Redaction
  import Timestamp

  const CHANNEL_CAP: nat := 10_000
  const BATCH_MAX_BYTES: nat := 4 * 1024

  /** An envelope is a heartbeat or anything else, given by its JSON value. */
  datatype Envelope = HeartbeatEnvelope | DataEnvelope(value: Json)

  datatype WriteRequest = WriteRequest(envelope: Envelope, logRedact: seq<string>, pluginId: string)

  datatype Line = EventLine(bytes: seq<byte>) | OverflowLine(dropped: nat, bytes: seq<byte>)

  type Encoder = Json -> seq<byte>

  const NEWLINE: byte := 10

  // ---- Preparing a line ----

  function Child(value: Json, name: string): Json {
    if value.Object? && name in value.fields then value.fields[name] else Null
  }

  predicate LogRedactAllSet(value: Json) {
    Child(Child(Child(value, "data"), "meta"), "log_redact_all") == Bool(true)
  }

  /** The line written for a request, or nothing for heartbeats and suppressed messages. */
  function PrepareLine(u: Unicode, encode: Encoder, req: WriteRequest): Option<Line> {
    if req.envelope.HeartbeatEnvelope? || LogRedactAllSet(req.envelope.value) then None else
      var value := req.envelope.value;
      var redacted := if value.Object? && "data" in value.fields
                      then Object(value.fields["data" := RedactAll(u, value.fields["data"], req.logRedact)])
                      else value;
      var owned := if redacted.Object? then Object(redacted.fields["plugin_id" := Str(req.pluginId)]) else redacted;
      Some(EventLine(encode(owned) + [NEWLINE]))
  }

  function OverflowRecord(encode: Encoder, count: nat, ts: string): Line {
    OverflowLine(count, encode(Object(map["kind" := Str("meta"), "type" := Str("log_overflow"), "ts" := Str(ts),
                                          "dropped" := Number(Timestamp.Decimal(count))])) + [NEWLINE])
  }

  // ---- What a logged line shows ----

  /** Heartbeats and messages that set `data.meta.log_redact_all` are not logged. */
  predicate Suppressed(req: WriteRequest) {
    req.envelope.HeartbeatEnvelope?
    || At(req.envelope.value, [Key("data"), Key("meta"), Key("log_redact_all")]) == Some(Bool(true))
  }

  /** The tree names the plugin, shows the data only as far as the rules allow, and the rest of the envelope as is. */
  ghost predicate Shows(u: Unicode, req: WriteRequest, tree: Json)
    requires req.envelope.DataEnvelope?
  {
    var value, data, name := req.envelope.value, [Key("data")], [Key("plugin_id")];
    if !value.Object? then tree == value
    else
      && At(tree, name) == Some(Str(req.pluginId))
      && (forall loc :: loc != [] && [loc[0]] != data && [loc[0]] != name ==> At(tree, loc) == At(value, loc))
      && (At(tree, data).Some? <==> At(value, data).Some?)
      && (At(value, data).Some? ==> Cleared(u, req.logRedact, At(value, data).value, At(tree, data).value))
  }

  /** The line is the encoding of such a tree and a line feed. */
  ghost predicate LogsAs(u: Unicode, encode: Encoder, req: WriteRequest, line: Line) {
    req.envelope.DataEnvelope? && exists tree :: Shows(u, req, tree) && line == EventLine(encode(tree) + [10])
  }

  /** The lines are those of the requests that are not suppressed, one each, in order. */
  ghost predicate LogOf(u: Unicode, encode: Encoder, reqs: seq<WriteRequest>, lines: seq<Line>) {
    if reqs == [] then lines == []
    else
      var front, last := reqs[..|reqs| - 1], reqs[|reqs| - 1];
      if Suppressed(last) then LogOf(u, encode, front, lines)
      else lines != [] && LogsAs(u, encode, last, lines[|lines| - 1])
           && LogOf(u, encode, front, lines[..|lines| - 1])
  }

  lemma SuppressedIsSet(value: Json)
    ensures LogRedactAllSet(value) <==> At(value, [Key("data"), Key("meta"), Key("log_redact_all")]) == Some(Bool(true))
  {
    var loc := [Key("data"), Key("meta"), Key("log_redact_all")];
    var data := Child(value, "data");
    assert loc[1..] == [Key("meta"), Key("log_redact_all")] && loc[1..][1..] == [Key("log_redact_all")];
    assert loc[1..][1..][1..] == [];
  }

  lemma FieldKept(fields: map<string, Json>, other: map<string, Json>, loc: seq<Redaction.Step>)
    requires loc != [] && (loc[0].Key? ==> (loc[0].name in fields <==> loc[0].name in other))
    requires loc[0].Key? && loc[0].name in fields ==> fields[loc[0].name] == other[loc[0].name]
    ensures At(Object(fields), loc) == At(Object(other), loc)
  {
  }

  lemma TopField(fields: map<string, Json>, name: string)
    ensures At(Object(fields), [Key(name)]) == if name in fields then Some(fields[name]) else None
  {
    assert [Key(name)][1..] == [];
  }

  /** The line prepared for a request is redacted, and there is none exactly when the request is suppressed. */
  lemma LineIsRedacted(u: Unicode, encode: Encoder, req: WriteRequest)
    ensures PrepareLine(u, encode, req) == None <==> Suppressed(req)
    ensures PrepareLine(u, encode, req).Some? ==> LogsAs(u, encode, req, PrepareLine(u, encode, req).value)
  {
    if req.envelope.DataEnvelope? {
      SuppressedIsSet(req.envelope.value);
      if !LogRedactAllSet(req.envelope.value) { LineShows(u, encode, req); }
    }
  }

  /** The fields of the line for an envelope that is an object. */
  function OwnedFields(u: Unicode, fields: map<string, Json>, rules: seq<string>, pluginId: string): map<string, Json> {
    (if "data" in fields then fields["data" := RedactAll(u, fields["data"], rules)] else fields)
      ["plugin_id" := Str(pluginId)]
  }

  lemma OwnedShows(u: Unicode, req: WriteRequest)
    requires req.envelope.DataEnvelope? && req.envelope.value.Object?
    ensures Shows(u, req, Object(OwnedFields(u, req.envelope.value.fields, req.logRedact, req.pluginId)))
  {
    var fields := req.envelope.value.fields;
    var owned := OwnedFields(u, fields, req.logRedact, req.pluginId);
    hide RedactAll, Cleared, At;
    if "data" in fields { RulesClear(u, fields["data"], req.logRedact); }
    TopField(fields, "data");
    TopField(owned, "data");
    TopField(owned, "plugin_id");
    forall loc: seq<Redaction.Step> | loc != [] && [loc[0]] != [Key("data")] && [loc[0]] != [Key("plugin_id")]
      ensures At(Object(owned), loc) == At(Object(fields), loc)
    {
      FieldKept(owned, fields, loc);
    }
  }

  lemma OwnedIsPrepared(u: Unicode, encode: Encoder, req: WriteRequest)
    requires PrepareLine(u, encode, req).Some?
    ensures var value := req.envelope.value;
            PrepareLine(u, encode, req).value
            == EventLine(encode(if value.Object? then Object(OwnedFields(u, value.fields, req.logRedact, req.pluginId))
                                else value) + [10])
  {
    hide RedactAll, LogRedactAllSet;
  }

  lemma LineShows(u: Unicode, encode: Encoder, req: WriteRequest)
    requires PrepareLine(u, encode, req).Some?
    ensures LogsAs(u, encode, req, PrepareLine(u, encode, req).value)
  {
    var value := req.envelope.value;
    assert req.envelope.DataEnvelope?;
    OwnedIsPrepared(u, encode, req);
    hide PrepareLine, OwnedFields;
    if value.Object? {
      hide Shows;
      OwnedShows(u, req);
    } else {
      assert Shows(u, req, value);
    }
  }

  // ---- What the log should hold ----

  function Prepared(u: Unicode, encode: Encoder, reqs: seq<WriteRequest>): seq<Line> {
    if reqs == [] then [] else
      var line := PrepareLine(u, encode, reqs[|reqs| - 1]);
      Prepared(u, encode, reqs[..|reqs| - 1]) + (if line.Some? then [line.value] else [])
  }

  lemma {:induction false} PreparedIsLog(u: Unicode, encode: Encoder, reqs: seq<WriteRequest>)
    ensures LogOf(u, encode, reqs, Prepared(u, encode, reqs))
  {
    hide PrepareLine, LogsAs, Suppressed;
    if reqs != [] {
      var front, last := reqs[..|reqs| - 1], reqs[|reqs| - 1];
      PreparedIsLog(u, encode, front);
      LineIsRedacted(u, encode, last);
      var before, line := Prepared(u, encode, front), PrepareLine(u, encode, last);
      assert before + [] == before;
      assert line.Some? ==> (before + [line.value])[..|before|] == before;
    }
  }

  function Events(lines: seq<Line>): seq<Line> {
    if lines == [] then [] else
      Events(lines[..|lines| - 1]) + (if lines[|lines| - 1].EventLine? then [lines[|lines| - 1]] else [])
  }

  /** Total of the drops reported by overflow records. */
  function Reported(lines: seq<Line>): nat {
    if lines == [] then 0 else
      Reported(lines[..|lines| - 1]) + (if lines[|lines| - 1].OverflowLine? then lines[|lines| - 1].dropped else 0)
  }

  function Size(lines: seq<Line>): nat {
    if lines == [] then 0 else Size(lines[..|lines| - 1]) + |lines[|lines| - 1].bytes|
  }

  function Flatten(files: seq<seq<Line>>): seq<Line> {
    if files == [] then [] else Flatten(files[..|files| - 1]) + files[|files| - 1]
  }

  /** The requests whose send succeeded, in order. */
  function Taken(offered: seq<WriteRequest>, fate: seq<bool>): seq<WriteRequest>
    requires |fate| == |offered|
  {
    if offered == [] then [] else
      var n := |offered| - 1;
      Taken(offered[..n], fate[..n]) + (if fate[n] then [offered[n]] else [])
  }

  function Refused(fate: seq<bool>): nat {
    if fate == [] then 0 else Refused(fate[..|fate| - 1]) + (if fate[|fate| - 1] then 0 else 1)
  }

  lemma EventsSnoc(lines: seq<Line>, l: Line)
    ensures Events(lines + [l]) == Events(lines) + (if l.EventLine? then [l] else [])
    ensures Reported(lines + [l]) == Reported(lines) + (if l.OverflowLine? then l.dropped else 0)
    ensures Size(lines + [l]) == Size(lines) + |l.bytes|
  {
    assert (lines + [l])[..|lines|] == lines;
  }

  lemma FlattenSnoc(files: seq<seq<Line>>, file: seq<Line>)
    ensures Flatten(files + [file]) == Flatten(files) + file
  {
    assert (files + [file])[..|files|] == files;
  }

  lemma {:induction false} SizeSplit(a: seq<Line>, b: seq<Line>)
    ensures Size(a + b) == Size(a) + Size(b)
  {
    if b == [] {
      assert a + b == a;
    } else {
      assert (a + b)[..|a + b| - 1] == a + b[..|b| - 1];
      SizeSplit(a, b[..|b| - 1]);
    }
  }

  lemma {:induction false} PreparedSplit(u: Unicode, encode: Encoder, a: seq<WriteRequest>, b: seq<WriteRequest>)
    ensures Prepared(u, encode, a + b) == Prepared(u, encode, a) + Prepared(u, encode, b)
  {
    hide PrepareLine;
    if b == [] {
      assert a + b == a;
    } else {
      assert (a + b)[..|a + b| - 1] == a + b[..|b| - 1];
      PreparedSplit(u, encode, a, b[..|b| - 1]);
    }
  }

  lemma PreparedOne(u: Unicode, encode: Encoder, req: WriteRequest)
    ensures Prepared(u, encode, [req]) == match PrepareLine(u, encode, req) case Some(l) => [l] case None => []
  {
    hide PrepareLine;
    assert [req][..0] == [];
  }

  lemma TakenSnoc(offered: seq<WriteRequest>, fate: seq<bool>, req: WriteRequest, ok: bool)
    requires |fate| == |offered|
    ensures Taken(offered + [req], fate + [ok]) == Taken(offered, fate) + (if ok then [req] else [])
    ensures Refused(fate + [ok]) == Refused(fate) + (if ok then 0 else 1)
  {
    assert (offered + [req])[..|offered|] == offered && (fate + [ok])[..|fate|] == fate;
  }

  /**
   The books balance: the event lines so far and the ones the channel will still yield are exactly
   the prepared lines of the accepted sends, in order; the drops reported and the drops still
   counted are the refused ones.
   */
  ghost predicate Accounted(u: Unicode, encode: Encoder, logged: seq<Line>, channel: seq<WriteRequest>, overflow: nat,
                            offered: seq<WriteRequest>, fate: seq<bool>) {
    && |fate| == |offered|
    && Events(logged) + Prepared(u, encode, channel) == Prepared(u, encode, Taken(offered, fate))
    && Reported(logged) + overflow == Refused(fate)
  }

  lemma SendAccounted(u: Unicode, encode: Encoder, logged: seq<Line>, channel: seq<WriteRequest>, overflow: nat,
                      offered: seq<WriteRequest>, fate: seq<bool>, req: WriteRequest)
    requires Accounted(u, encode, logged, channel, overflow, offered, fate)
    ensures Accounted(u, encode, logged, channel + [req], overflow, offered + [req], fate + [true])
    ensures Accounted(u, encode, logged, channel, overflow + 1, offered + [req], fate + [false])
  {
    hide Prepared, Taken, Events, Reported, Refused;
    TakenSnoc(offered, fate, req, true);
    TakenSnoc(offered, fate, req, false);
    PreparedSplit(u, encode, channel, [req]);
    PreparedSplit(u, encode, Taken(offered, fate), [req]);
    Associate(Events(logged), Prepared(u, encode, channel), Prepared(u, encode, [req]));
    assert Taken(offered, fate) + [] == Taken(offered, fate);
  }

  lemma ReceiveAccounted(u: Unicode, encode: Encoder, logged: seq<Line>, channel: seq<WriteRequest>, overflow: nat,
                         offered: seq<WriteRequest>, fate: seq<bool>)
    requires channel != [] && Accounted(u, encode, logged, channel, overflow, offered, fate)
    ensures var line := PrepareLine(u, encode, channel[0]);
            Accounted(u, encode, if line.Some? then logged + [line.value] else logged,
                      channel[1..], overflow, offered, fate)
  {
    var req, rest := channel[0], channel[1..];
    var line := PrepareLine(u, encode, req);
    assert line.Some? ==> line.value.EventLine?;
    hide Prepared, Taken, Events, Reported, Refused, PrepareLine;
    assert channel == [req] + rest;
    PreparedSplit(u, encode, [req], rest);
    PreparedOne(u, encode, req);
    if line.Some? {
      assert Prepared(u, encode, channel) == [line.value] + Prepared(u, encode, rest);
      EventsSnoc(logged, line.value);
      Associate(Events(logged), [line.value], Prepared(u, encode, rest));
    } else {
      assert [] + Prepared(u, encode, rest) == Prepared(u, encode, rest);
    }
  }

  lemma ReportAccounted(u: Unicode, encode: Encoder, logged: seq<Line>, channel: seq<WriteRequest>, overflow: nat,
                        offered: seq<WriteRequest>, fate: seq<bool>, ts: string)
    requires Accounted(u, encode, logged, channel, overflow, offered, fate)
    ensures Accounted(u, encode, logged + [OverflowRecord(encode, overflow, ts)], channel, 0, offered, fate)
  {
    var record := OverflowRecord(encode, overflow, ts);
    assert record.OverflowLine? && record.dropped == overflow;
    hide Prepared, Taken, OverflowRecord;
    EventsSnoc(logged, record);
    assert Events(logged) + [] == Events(logged);
  }

  /** Where the lines are does not matter: moving the batch to the file, rotated or not, leaves the log as it was. */
  lemma FlushKeepsLog(rotated: seq<seq<Line>>, current: seq<Line>, batch: seq<Line>)
    ensures Flatten(rotated) + (current + batch) + [] == Flatten(rotated) + current + batch
    ensures Flatten(rotated + [current]) + batch + [] == Flatten(rotated) + current + batch
    ensures Size(current + batch) == Size(current) + Size(batch) && Size([]) == 0
  {
    FlattenSnoc(rotated, current);
    SizeSplit(current, batch);
    Associate(Flatten(rotated), current, batch);
  }

  // ---- The writer, step by step ----

  datatype Setup = Setup(u: Unicode, encode: Encoder, rotateMaxBytes: nat, existingBytes: nat)

  /** Where the background loop is: at its select, between appending and flushing, or finished. */
  datatype Phase = LoopHead | Flushing | FinalFlush | Stopped

  datatype State = State(
    channel: seq<WriteRequest>, sendersGone: bool, overflow: nat, phase: Phase,
    batch: seq<Line>, current: seq<Line>, bytesWritten: nat, rotated: seq<seq<Line>>)
  {
    /** Everything on disk, in order. */
    function Written(): seq<Line> { Flatten(rotated) + current }

    /** Everything logged or about to be. */
    function Logged(): seq<Line> { Flatten(rotated) + current + batch }
  }

  function Initial(setup: Setup): State {
    State([], false, 0, LoopHead, [], [], setup.existingBytes, [])
  }

  function Sent(s: State, req: WriteRequest): State {
    if req.envelope.HeartbeatEnvelope? then s
    else if |s.channel| < CHANNEL_CAP then s.(channel := s.channel + [req])
    else s.(overflow := s.overflow + 1)
  }

  function Reporting(setup: Setup, s: State, ts: string): State {
    if s.overflow == 0 then s
    else s.(overflow := 0, batch := s.batch + [OverflowRecord(setup.encode, s.overflow, ts)])
  }

  function Ticked(setup: Setup, s: State, ts: string): State {
    var r := Reporting(setup, s, ts);
    if r.batch == [] then r else r.(phase := Flushing)
  }

  function Received(setup: Setup, s: State, ts: string): State
    requires s.channel != []
  {
    var line := PrepareLine(setup.u, setup.encode, s.channel[0]);
    var taken := s.(channel := s.channel[1..]);
    if line.None? then taken else
      var batched := taken.(batch := s.batch + [line.value]);
      if Size(batched.batch) < BATCH_MAX_BYTES then batched
      else Reporting(setup, batched, ts).(phase := Flushing)
  }

  function Closed(setup: Setup, s: State, ts: string): State {
    var r := Reporting(setup, s, ts);
    r.(phase := if r.batch == [] then Stopped else FinalFlush)
  }

  function Emptied(setup: Setup, s: State, tooOld: bool): State {
    var target := if s.bytesWritten >= setup.rotateMaxBytes || tooOld
                  then s.(rotated := s.rotated + [s.current], current := [], bytesWritten := 0) else s;
    target.(current := target.current + s.batch, bytesWritten := target.bytesWritten + Size(s.batch), batch := [],
            phase := if s.phase == Flushing then LoopHead else Stopped)
  }

  /** A scheduler's choice. */
  datatype Action =
    | SendAction(req: WriteRequest)
    | DropSendersAction
    | TickAction(ts: string)
    | ReceiveAction(ts: string)
    | FlushAction(tooOld: bool)

  /** Whether the action is possible at the moment: sends need a sender, the others the loop to be there. */
  predicate Possible(s: State, a: Action) {
    match a
    case SendAction(_) => !s.sendersGone
    case DropSendersAction => !s.sendersGone
    case TickAction(_) => s.phase == LoopHead
    case ReceiveAction(_) => s.phase == LoopHead && (s.channel != [] || s.sendersGone)
    case FlushAction(_) => s.phase == Flushing || s.phase == FinalFlush
  }

  /** An action that is not possible at the moment is passed over. */
  function Next(setup: Setup, s: State, a: Action): State {
    if !Possible(s, a) then s
    else
      match a
      case SendAction(req) => Sent(s, req)
      case DropSendersAction => s.(sendersGone := true)
      case TickAction(ts) => Ticked(setup, s, ts)
      case ReceiveAction(ts) => if s.channel != [] then Received(setup, s, ts) else Closed(setup, s, ts)
      case FlushAction(tooOld) => Emptied(setup, s, tooOld)
  }

  function From(setup: Setup, s: State, actions: seq<Action>): State {
    if actions == [] then s
    else Next(setup, From(setup, s, actions[..|actions| - 1]), actions[|actions| - 1])
  }

  function After(setup: Setup, actions: seq<Action>): State {
    From(setup, Initial(setup), actions)
  }

  class Writer {
    const setup: Setup

    var channel: seq<WriteRequest>
    var sendersGone: bool
    var overflow: nat

    var phase: Phase
    var batch: seq<Line>
    var current: seq<Line>
    var bytesWritten: nat
    var rotated: seq<seq<Line>>

    ghost function View(): State
      reads this
    {
      State(channel, sendersGone, overflow, phase, batch, current, bytesWritten, rotated)
    }

    constructor (setup: Setup)
      ensures this.setup == setup && View() == Initial(setup)
    {
      this.setup := setup;
      channel, sendersGone, overflow, phase, batch, current, rotated := [], false, 0, LoopHead, [], [], [];
      bytesWritten := setup.existingBytes;
    }

    /** A sender's step, at any time while a sender exists. */
    method Send(req: WriteRequest)
      modifies `channel, `overflow
      ensures View() == Sent(old(View()), req)
    {
      if req.envelope.HeartbeatEnvelope? { return; }
      if |channel| < CHANNEL_CAP {
        channel := channel + [req];
      } else {
        overflow := overflow + 1;
      }
    }

    /** Drains the overflow counter into a meta record. */
    method ReportOverflow(ts: string)
      modifies `overflow, `batch
      ensures View() == Reporting(setup, old(View()), ts)
    {
      hide OverflowRecord;
      var n := overflow;
      overflow := 0;
      if n > 0 { batch := batch + [OverflowRecord(setup.encode, n, ts)]; }
    }

    /** The timer branch: report overflow, then flush whatever is buffered. */
    method Tick(ts: string)
      requires phase == LoopHead
      modifies `overflow, `batch, `phase
      ensures View() == Ticked(setup, old(View()), ts)
      ensures overflow == 0
    {
      hide OverflowRecord;
      ReportOverflow(ts);
      if batch != [] { phase := Flushing; }
    }

    /** The receive branch: one message, and a flush once the batch has reached its bound. */
    method Receive(ts: string)
      requires phase == LoopHead && channel != []
      modifies `channel, `overflow, `batch, `phase
      ensures View() == Received(setup, old(View()), ts)
    {
      hide PrepareLine, OverflowRecord, Size;
      var req := channel[0];
      channel := channel[1..];
      var line := PrepareLine(setup.u, setup.encode, req);
      if line.Some? {
        batch := batch + [line.value];
        if Size(batch) >= BATCH_MAX_BYTES {
          ReportOverflow(ts);
          phase := Flushing;
        }
      }
    }

    /** The receive branch once every sender is gone and the channel is drained: leave the loop. */
    method ReceiveClosed(ts: string)
      requires phase == LoopHead && sendersGone && channel == []
      modifies `overflow, `batch, `phase
      ensures View() == Closed(setup, old(View()), ts)
      ensures overflow == 0
    {
      hide OverflowRecord;
      ReportOverflow(ts);
      phase := if batch == [] then Stopped else FinalFlush;
    }

    /** Rotates when the file is too large or too old, then writes the whole batch. */
    method Flush(tooOld: bool)
      requires phase == Flushing || phase == FinalFlush
      modifies `rotated, `current, `bytesWritten, `batch, `phase
      ensures View() == Emptied(setup, old(View()), tooOld)
    {
      hide Size;
      if bytesWritten >= setup.rotateMaxBytes || tooOld {
        rotated := rotated + [current];
        current, bytesWritten := [], 0;
      }
      bytesWritten := bytesWritten + Size(batch);
      current := current + batch;
      batch := [];
      phase := if phase == Flushing then LoopHead else Stopped;
    }

    method Perform(a: Action)
      modifies this
      ensures View() == Next(setup, old(View()), a)
    {
      hide Sent, Ticked, Received, Closed, Emptied;
      match a {
        case SendAction(req) =>
          if !sendersGone { Send(req); }
        case DropSendersAction =>
          sendersGone := true;
        case TickAction(ts) =>
          if phase == LoopHead { Tick(ts); }
        case ReceiveAction(ts) =>
          if phase == LoopHead && channel != [] {
            Receive(ts);
          } else if phase == LoopHead && sendersGone {
            ReceiveClosed(ts);
          }
        case FlushAction(tooOld) =>
          if phase == Flushing || phase == FinalFlush { Flush(tooOld); }
      }
    }
  }

  // ---- Which sends are accepted ----

  /** The sends that reach the channel: heartbeats are dropped before it, and none follows the last sender. */
  function Offer(s: State, a: Action): seq<WriteRequest> {
    if a.SendAction? && !s.sendersGone && !a.req.envelope.HeartbeatEnvelope? then [a.req] else []
  }

  /** A send that reaches the channel is refused exactly when the channel holds 10 000 requests at that moment. */
  function Fate(s: State, a: Action): seq<bool> {
    if Offer(s, a) == [] then [] else [|s.channel| != 10_000]
  }

  function OfferedBy(setup: Setup, actions: seq<Action>): seq<WriteRequest> {
    if actions == [] then []
    else
      var front := actions[..|actions| - 1];
      OfferedBy(setup, front) + Offer(After(setup, front), actions[|actions| - 1])
  }

  function FateOf(setup: Setup, actions: seq<Action>): (fate: seq<bool>)
    ensures |fate| == |OfferedBy(setup, actions)|
  {
    if actions == [] then []
    else
      var front := actions[..|actions| - 1];
      FateOf(setup, front) + Fate(After(setup, front), actions[|actions| - 1])
  }

  /** The sends that can be offered: those that are no heartbeats, before the last sender is dropped. */
  function SendsBeforeDrop(actions: seq<Action>): seq<WriteRequest> {
    if actions == [] || actions[0] == DropSendersAction then []
    else
      var rest := SendsBeforeDrop(actions[1..]);
      if actions[0].SendAction? && !actions[0].req.envelope.HeartbeatEnvelope? then [actions[0].req] + rest else rest
  }

  lemma {:induction false} SendsSnoc(actions: seq<Action>, a: Action)
    ensures SendsBeforeDrop(actions + [a])
            == SendsBeforeDrop(actions)
               + (if DropSendersAction in actions || !a.SendAction? || a.req.envelope.HeartbeatEnvelope? then []
                  else [a.req])
  {
    if actions == [] {
      assert (actions + [a])[1..] == [];
    } else {
      assert (actions + [a])[1..] == actions[1..] + [a];
      SendsSnoc(actions[1..], a);
    }
  }

  lemma {:induction false} SendersGoneWhenDropped(setup: Setup, actions: seq<Action>)
    ensures After(setup, actions).sendersGone <==> DropSendersAction in actions
  {
    if actions != [] {
      var front, last := actions[..|actions| - 1], actions[|actions| - 1];
      SendersGoneWhenDropped(setup, front);
      assert actions == front + [last];
      hide PrepareLine, OverflowRecord, Size;
    }
  }

  /** What reaches the channel can be read off the actions alone. */
  lemma {:induction false} OfferedAreSends(setup: Setup, actions: seq<Action>)
    ensures OfferedBy(setup, actions) == SendsBeforeDrop(actions)
  {
    if actions != [] {
      var front, last := actions[..|actions| - 1], actions[|actions| - 1];
      assert actions == front + [last];
      hide After, SendsBeforeDrop;
      OfferedAreSends(setup, front);
      SendsSnoc(front, last);
      SendersGoneWhenDropped(setup, front);
    }
  }

  // ---- The books balance in every run ----

  /** Nothing is accepted, logged or reported that the account does not show. */
  ghost predicate Balanced(setup: Setup, s: State, offered: seq<WriteRequest>, fate: seq<bool>) {
    && |s.channel| <= CHANNEL_CAP
    && Accounted(setup.u, setup.encode, s.Logged(), s.channel, s.overflow, offered, fate)
    && s.bytesWritten == Size(s.current) + (if s.rotated == [] then setup.existingBytes else 0)
    && (s.phase == LoopHead ==> Size(s.batch) < BATCH_MAX_BYTES)
    && (s.phase == Stopped ==> s.batch == [])
    && (s.phase == FinalFlush || s.phase == Stopped ==> s.sendersGone && s.channel == [] && s.overflow == 0)
  }

  lemma SendBalanced(setup: Setup, s: State, req: WriteRequest, offered: seq<WriteRequest>, fate: seq<bool>)
    requires Balanced(setup, s, offered, fate) && !s.sendersGone
    ensures var a := SendAction(req);
            Balanced(setup, Sent(s, req), offered + Offer(s, a), fate + Fate(s, a))
  {
    hide Accounted, Flatten, Size;
    SendAccounted(setup.u, setup.encode, s.Logged(), s.channel, s.overflow, offered, fate, req);
    assert offered + [] == offered && fate + [] == fate;
  }

  lemma ReportBalanced(setup: Setup, s: State, ts: string, offered: seq<WriteRequest>, fate: seq<bool>)
    requires Accounted(setup.u, setup.encode, s.Logged(), s.channel, s.overflow, offered, fate)
    ensures var r := Reporting(setup, s, ts);
            && r.overflow == 0 && r.channel == s.channel && r.sendersGone == s.sendersGone && r.phase == s.phase
            && r.current == s.current && r.bytesWritten == s.bytesWritten && r.rotated == s.rotated
            && (r.batch == [] ==> s.batch == [])
            && Accounted(setup.u, setup.encode, r.Logged(), r.channel, 0, offered, fate)
  {
    hide Accounted, OverflowRecord, Flatten;
    ReportAccounted(setup.u, setup.encode, s.Logged(), s.channel, s.overflow, offered, fate, ts);
    Associate(Flatten(s.rotated) + s.current, s.batch, [OverflowRecord(setup.encode, s.overflow, ts)]);
  }

  lemma ReceiveBalanced(setup: Setup, s: State, ts: string, offered: seq<WriteRequest>, fate: seq<bool>)
    requires Balanced(setup, s, offered, fate) && s.phase == LoopHead && s.channel != []
    ensures Balanced(setup, Received(setup, s, ts), offered, fate)
  {
    hide Accounted, PrepareLine, OverflowRecord, Flatten, Size;
    var line := PrepareLine(setup.u, setup.encode, s.channel[0]);
    ReceiveAccounted(setup.u, setup.encode, s.Logged(), s.channel, s.overflow, offered, fate);
    if line.Some? {
      Associate(Flatten(s.rotated) + s.current, s.batch, [line.value]);
      ReportBalanced(setup, s.(channel := s.channel[1..], batch := s.batch + [line.value]), ts, offered, fate);
    }
  }

  lemma TickBalanced(setup: Setup, s: State, ts: string, offered: seq<WriteRequest>, fate: seq<bool>)
    requires Balanced(setup, s, offered, fate) && s.phase == LoopHead
    ensures Balanced(setup, Ticked(setup, s, ts), offered, fate)
  {
    hide Accounted, Reporting, Flatten, Size;
    ReportBalanced(setup, s, ts, offered, fate);
    assert Ticked(setup, s, ts).Logged() == Reporting(setup, s, ts).Logged();
  }

  lemma CloseBalanced(setup: Setup, s: State, ts: string, offered: seq<WriteRequest>, fate: seq<bool>)
    requires Balanced(setup, s, offered, fate) && s.phase == LoopHead && s.sendersGone && s.channel == []
    ensures Balanced(setup, Closed(setup, s, ts), offered, fate)
  {
    hide Accounted, Reporting, Flatten, Size;
    ReportBalanced(setup, s, ts, offered, fate);
  }

  lemma FlushBalanced(setup: Setup, s: State, tooOld: bool, offered: seq<WriteRequest>, fate: seq<bool>)
    requires Balanced(setup, s, offered, fate) && (s.phase == Flushing || s.phase == FinalFlush)
    ensures Balanced(setup, Emptied(setup, s, tooOld), offered, fate)
    ensures Emptied(setup, s, tooOld).Written() == s.Logged()
  {
    hide Accounted, Flatten, Size;
    FlushKeepsLog(s.rotated, s.current, s.batch);
    assert [] + s.batch == s.batch;
  }

  lemma StepBalanced(setup: Setup, s: State, a: Action, offered: seq<WriteRequest>, fate: seq<bool>)
    requires Balanced(setup, s, offered, fate)
    ensures Balanced(setup, Next(setup, s, a), offered + Offer(s, a), fate + Fate(s, a))
  {
    assert offered + [] == offered && fate + [] == fate;
    if a == DropSendersAction {
      hide Accounted, Flatten, Size;
    } else if Possible(s, a) {
      hide Balanced, Sent, Ticked, Received, Closed, Emptied;
      match a {
        case SendAction(req) => SendBalanced(setup, s, req, offered, fate);
        case TickAction(ts) => TickBalanced(setup, s, ts, offered, fate);
        case ReceiveAction(ts) =>
          if s.channel != [] { ReceiveBalanced(setup, s, ts, offered, fate); }
          else { CloseBalanced(setup, s, ts, offered, fate); }
        case FlushAction(tooOld) => FlushBalanced(setup, s, tooOld, offered, fate);
      }
    }
  }

  /**
   In every interleaving, the event lines in the rotated files, the current file and the batch,
   followed by what the channel holds, are the prepared lines of the accepted sends in order, and
   every refused send is reported or still counted, where a send is refused exactly when it meets a
   full channel and the sends are those before the last sender is dropped, heartbeats apart.
   */
  lemma {:induction false} RunBalanced(setup: Setup, actions: seq<Action>)
    ensures OfferedBy(setup, actions) == SendsBeforeDrop(actions)
    ensures Balanced(setup, After(setup, actions), OfferedBy(setup, actions), FateOf(setup, actions))
    ensures After(setup, actions).phase == LoopHead ==> Size(After(setup, actions).batch) < 4096
  {
    OfferedAreSends(setup, actions);
    if actions != [] {
      var front, last := actions[..|actions| - 1], actions[|actions| - 1];
      hide Next, Balanced, Offer, Fate, Initial, SendsBeforeDrop;
      RunBalanced(setup, front);
      StepBalanced(setup, After(setup, front), last, OfferedBy(setup, front), FateOf(setup, front));
    }
  }

  /** Once the writer has stopped, everything accepted is on disk in order and every refusal is reported there. */
  lemma ShutdownLosesNothing(setup: Setup, actions: seq<Action>)
    requires After(setup, actions).phase == Stopped
    ensures var s, offered, fate := After(setup, actions), OfferedBy(setup, actions), FateOf(setup, actions);
            && Events(s.Written()) == Prepared(setup.u, setup.encode, Taken(offered, fate))
            && LogOf(setup.u, setup.encode, Taken(offered, fate), Events(s.Written()))
            && Reported(s.Written()) == Refused(fate)
  {
    var s := After(setup, actions);
    PreparedIsLog(setup.u, setup.encode, Taken(OfferedBy(setup, actions), FateOf(setup, actions)));
    assert Prepared(setup.u, setup.encode, []) == [];
    hide After, OfferedBy, FateOf, Events, Taken, Reported, Refused, Prepared;
    RunBalanced(setup, actions);
    assert s.Written() + [] == s.Written();
    assert Events(s.Written()) + [] == Events(s.Written());
  }

  /** What is logged, with the lines the channel will still yield, shows the accepted sends redacted and in order. */
  lemma LoggedSoFar(setup: Setup, actions: seq<Action>)
    ensures var s := After(setup, actions);
            exists pending ::
              && LogOf(setup.u, setup.encode, s.channel, pending)
              && LogOf(setup.u, setup.encode, Taken(OfferedBy(setup, actions), FateOf(setup, actions)),
                       Events(s.Logged()) + pending)
  {
    var s := After(setup, actions);
    RunBalanced(setup, actions);
    PreparedIsLog(setup.u, setup.encode, s.channel);
    PreparedIsLog(setup.u, setup.encode, Taken(OfferedBy(setup, actions), FateOf(setup, actions)));
    hide After, OfferedBy, FateOf, Events, Taken, Prepared, LogOf;
  }

  /** Runs the writer on a script of actions. */
  method Run(setup: Setup, actions: seq<Action>) returns (end: State)
    ensures end == After(setup, actions)
    ensures Balanced(setup, end, OfferedBy(setup, actions), FateOf(setup, actions))
    ensures end.phase == Stopped ==>
              && Events(end.Written())
                 == Prepared(setup.u, setup.encode, Taken(OfferedBy(setup, actions), FateOf(setup, actions)))
              && LogOf(setup.u, setup.encode, Taken(OfferedBy(setup, actions), FateOf(setup, actions)),
                       Events(end.Written()))
              && Reported(end.Written()) == Refused(FateOf(setup, actions))
    ensures exists pending ::
              && LogOf(setup.u, setup.encode, end.channel, pending)
              && LogOf(setup.u, setup.encode, Taken(OfferedBy(setup, actions), FateOf(setup, actions)),
                       Events(end.Logged()) + pending)
  {
    hide Next, Balanced, OfferedBy, FateOf;
    var w := new Writer(setup);
    for i := 0 to |actions|
      invariant fresh(w) && w.setup == setup && w.View() == After(setup, actions[..i])
    {
      assert actions[..i + 1][..i] == actions[..i];
      w.Perform(actions[i]);
    }
    assert actions[..|actions|] == actions;
    end := State(w.channel, w.sendersGone, w.overflow, w.phase, w.batch, w.current, w.bytesWritten, w.rotated);
    RunBalanced(setup, actions);
    LoggedSoFar(setup, actions);
    if end.phase == Stopped { ShutdownLosesNothing(setup, actions); }
  }

  // ---- When lines are written ----

  lemma AfterNext(setup: Setup, actions: seq<Action>, a: Action)
    ensures After(setup, actions + [a]) == Next(setup, After(setup, actions), a)
  {
    assert (actions + [a])[..|actions|] == actions;
    hide Next;
  }

  lemma ReportingLogged(setup: Setup, s: State, ts: string)
    ensures var r := Reporting(setup, s, ts);
            && r == s.(overflow := 0, batch := r.batch)
            && Events(r.Logged()) == Events(s.Logged()) && Reported(r.Logged()) == Reported(s.Logged()) + s.overflow
  {
    var record := OverflowRecord(setup.encode, s.overflow, ts);
    assert record.OverflowLine? && record.dropped == s.overflow;
    hide OverflowRecord, Flatten, Events, Reported;
    EventsSnoc(s.Logged(), record);
    Associate(Flatten(s.rotated) + s.current, s.batch, [record]);
    assert Events(s.Logged()) + [] == Events(s.Logged());
  }

  lemma FlushWrites(setup: Setup, s: State, tooOld: bool)
    ensures var t := Emptied(setup, s, tooOld);
            && t.Written() == t.Logged() == s.Logged() && t.batch == [] && t.overflow == s.overflow
            && t.channel == s.channel && t.phase == if s.phase == Flushing then LoopHead else Stopped
  {
    FlushKeepsLog(s.rotated, s.current, s.batch);
    assert [] + s.batch == s.batch;
    var t := Emptied(setup, s, tooOld);
    assert t.Written() + [] == t.Written();
    hide Flatten, Size;
  }

  lemma TickReports(setup: Setup, s: State, ts: string)
    requires s.phase == LoopHead
    ensures var r := Ticked(setup, s, ts);
            && r.overflow == 0 && r.channel == s.channel && r.phase == (if r.batch == [] then LoopHead else Flushing)
            && Events(r.Logged()) == Events(s.Logged()) && Reported(r.Logged()) == Reported(s.Logged()) + s.overflow
  {
    ReportingLogged(setup, s, ts);
    hide Reporting, Flatten, Events, Reported;
  }

  lemma TickThenFlush(setup: Setup, s: State, ts: string, tooOld: bool)
    requires s.phase == LoopHead
    ensures var t := Next(setup, Next(setup, s, TickAction(ts)), FlushAction(tooOld));
            && t.batch == [] && t.overflow == 0 && t.phase == LoopHead && t.channel == s.channel
            && Events(t.Written()) == Events(s.Logged())
            && Reported(t.Written()) == Reported(s.Logged()) + s.overflow
  {
    hide Ticked, Emptied, Flatten, Events, Reported, Sent, Received, Closed;
    var r := Ticked(setup, s, ts);
    TickReports(setup, s, ts);
    FlushWrites(setup, r, tooOld);
    assert r.Written() + [] == r.Written();
  }

  /** A tick and the flush it leads to write everything batched and report every refusal counted. */
  lemma TickWritesAll(setup: Setup, actions: seq<Action>, ts: string, tooOld: bool)
    requires After(setup, actions).phase == LoopHead
    ensures var s, t := After(setup, actions), After(setup, actions + [TickAction(ts), FlushAction(tooOld)]);
            && t.batch == [] && t.overflow == 0 && t.phase == LoopHead && t.channel == s.channel
            && Events(t.Written()) == Events(s.Logged())
            && Reported(t.Written()) == Reported(s.Logged()) + s.overflow
  {
    var tick, flush := TickAction(ts), FlushAction(tooOld);
    assert actions + [tick] + [flush] == actions + [tick, flush];
    hide After, Next;
    AfterNext(setup, actions, tick);
    AfterNext(setup, actions + [tick], flush);
    TickThenFlush(setup, After(setup, actions), ts, tooOld);
    hide Events, Reported, Flatten;
  }

  lemma ReceivedFull(setup: Setup, s: State, ts: string)
    requires s.phase == LoopHead && s.channel != [] && Size(s.batch) < 4096
    ensures var t := Received(setup, s, ts);
            && (t.phase == LoopHead ==> Size(t.batch) < 4096)
            && (t.phase != LoopHead ==> t.phase == Flushing && Size(t.batch) >= 4096 && t.overflow == 0)
  {
    var line := PrepareLine(setup.u, setup.encode, s.channel[0]);
    if line.Some? && s.overflow > 0 {
      EventsSnoc(s.batch + [line.value], OverflowRecord(setup.encode, s.overflow, ts));
    }
    hide PrepareLine, OverflowRecord, Size, Events, Reported;
  }

  /** At 4 KiB the batch is to be flushed, and the refusals so far are in it. */
  lemma FullBatchFlushes(setup: Setup, actions: seq<Action>, ts: string)
    requires After(setup, actions).phase == LoopHead && After(setup, actions).channel != []
    ensures var t := After(setup, actions + [ReceiveAction(ts)]);
            && (t.phase == LoopHead ==> Size(t.batch) < 4096)
            && (t.phase != LoopHead ==> t.phase == Flushing && Size(t.batch) >= 4096 && t.overflow == 0)
  {
    hide Balanced, OfferedBy, FateOf, SendsBeforeDrop;
    RunBalanced(setup, actions);
    AfterNext(setup, actions, ReceiveAction(ts));
    hide After, Received;
    ReceivedFull(setup, After(setup, actions), ts);
    hide Size;
  }

  /** A flush starts a new file exactly when the current one has reached the limit on disk or is too old. */
  lemma RotatesExactly(setup: Setup, actions: seq<Action>, tooOld: bool)
    requires After(setup, actions).phase == Flushing || After(setup, actions).phase == FinalFlush
    ensures var s, t := After(setup, actions), After(setup, actions + [FlushAction(tooOld)]);
            var onDisk := Size(s.current) + (if s.rotated == [] then setup.existingBytes else 0);
            if onDisk >= setup.rotateMaxBytes || tooOld
            then t.rotated == s.rotated + [s.current] && t.current == s.batch
            else t.rotated == s.rotated && t.current == s.current + s.batch
  {
    RunBalanced(setup, actions);
    AfterNext(setup, actions, FlushAction(tooOld));
    hide After, Size, Accounted, OfferedBy, FateOf;
    assert [] + After(setup, actions).batch == After(setup, actions).batch;
  }

  /** An overflow record says how many sends were refused. */
  ghost predicate Honest(encode: Encoder, line: Line) {
    line.OverflowLine? ==>
      line.dropped > 0
      && exists ts ::
           line.bytes == encode(Object(map["kind" := Str("meta"), "type" := Str("log_overflow"), "ts" := Str(ts),
                                           "dropped" := Number(Timestamp.Decimal(line.dropped))])) + [10]
  }

  lemma RecordIsHonest(encode: Encoder, count: nat, ts: string)
    requires count > 0
    ensures Honest(encode, OverflowRecord(encode, count, ts))
  {
  }

  lemma ReportsHonestly(setup: Setup, s: State, ts: string)
    ensures forall l :: l in Reporting(setup, s, ts).batch ==> l in s.batch || Honest(setup.encode, l)
  {
    if s.overflow > 0 { RecordIsHonest(setup.encode, s.overflow, ts); }
    hide Honest, OverflowRecord;
  }

  lemma NextHonest(setup: Setup, s: State, a: Action)
    requires forall l :: l in s.Logged() ==> Honest(setup.encode, l)
    ensures forall l :: l in Next(setup, s, a).Logged() ==> Honest(setup.encode, l)
  {
    hide Honest, PrepareLine, OverflowRecord, Size, Flatten, Reporting;
    if Possible(s, a) {
      match a {
        case SendAction(_) =>
        case DropSendersAction =>
        case TickAction(ts) =>
          ReportsHonestly(setup, s, ts);
          ReportBatchOnly(setup, s, ts);
        case ReceiveAction(ts) =>
          if s.channel == [] {
            ReportsHonestly(setup, s, ts);
            ReportBatchOnly(setup, s, ts);
          } else {
            ReceiveHonest(setup, s, ts);
          }
        case FlushAction(tooOld) =>
          FlushWrites(setup, s, tooOld);
      }
    }
  }

  lemma ReportBatchOnly(setup: Setup, s: State, ts: string)
    ensures Reporting(setup, s, ts).rotated == s.rotated && Reporting(setup, s, ts).current == s.current
  {
    hide OverflowRecord;
  }

  lemma ReceiveHonest(setup: Setup, s: State, ts: string)
    requires s.channel != [] && forall l :: l in s.Logged() ==> Honest(setup.encode, l)
    ensures forall l :: l in Received(setup, s, ts).Logged() ==> Honest(setup.encode, l)
  {
    var line := PrepareLine(setup.u, setup.encode, s.channel[0]);
    assert line.Some? ==> Honest(setup.encode, line.value);
    hide Honest, PrepareLine, OverflowRecord, Size, Flatten, Reporting;
    if line.Some? {
      var batched := s.(channel := s.channel[1..], batch := s.batch + [line.value]);
      ReportsHonestly(setup, batched, ts);
      ReportBatchOnly(setup, batched, ts);
    }
  }

  /** Every overflow record logged in a run tells its number of refused sends, which is not 0. */
  lemma {:induction false} ReportsAreHonest(setup: Setup, actions: seq<Action>)
    ensures forall l :: l in After(setup, actions).Logged() ==> Honest(setup.encode, l)
  {
    if actions != [] {
      ReportsAreHonest(setup, actions[..|actions| - 1]);
      NextHonest(setup, After(setup, actions[..|actions| - 1]), actions[|actions| - 1]);
      hide Next, Honest;
    }
  }

  // ---- Stopping ----

  /** Receive and flush steps still to come once no sender is left. */
  function Remaining(s: State): nat {
    match s.phase
    case LoopHead => 2 * |s.channel| + 2
    case Flushing => 2 * |s.channel| + 3
    case FinalFlush => 1
    case Stopped => 0
  }

  /** Every action is possible when its turn comes. */
  predicate AllPossible(setup: Setup, s: State, actions: seq<Action>) {
    actions == []
    || (var front := actions[..|actions| - 1];
        AllPossible(setup, s, front) && Possible(From(setup, s, front), actions[|actions| - 1]))
  }

  function Ticks(actions: seq<Action>): nat {
    if actions == [] then 0 else Ticks(actions[..|actions| - 1]) + (if actions[|actions| - 1].TickAction? then 1 else 0)
  }

  lemma StepShortens(setup: Setup, s: State, a: Action)
    requires s.sendersGone && Possible(s, a)
    ensures Next(setup, s, a).sendersGone
    ensures Remaining(Next(setup, s, a)) + 1 <= Remaining(s) + (if a.TickAction? then 2 else 0)
  {
    hide PrepareLine, OverflowRecord, Size;
  }

  /**
   Once the senders are gone the loop ends: apart from timer ticks it takes at most
   `Remaining` steps, however they are scheduled, and until it has stopped a step is possible.
   */
  lemma {:induction false} WriterStops(setup: Setup, s: State, more: seq<Action>)
    requires s.sendersGone && AllPossible(setup, s, more)
    ensures var t := From(setup, s, more);
            && t.sendersGone
            && |more| + Remaining(t) <= Remaining(s) + 2 * Ticks(more)
            && (t.phase != Stopped ==> Possible(t, ReceiveAction("")) || Possible(t, FlushAction(false)))
  {
    if more != [] {
      var front, last := more[..|more| - 1], more[|more| - 1];
      assert more == front + [last];
      hide Next, Remaining;
      WriterStops(setup, s, front);
      StepShortens(setup, From(setup, s, front), last);
    }
  }
}
