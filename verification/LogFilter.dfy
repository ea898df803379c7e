/** Reading the log back: the records of one plugin, optionally from some moment on. */
module LogFilter {
  import opened Prelude
  import opened Timestamp
  import opened Redaction

  /** One line of the log as the JSON parser sees it. */
  datatype LogLine = BlankLine | MalformedLine | Record(value: Json)

  function TextField(value: Json, name: string): Option<string> {
    if value.Object? && name in value.fields && value.fields[name].Str? then Some(value.fields[name].s) else None
  }

  predicate Belongs(line: LogLine, pluginId: string) {
    line.Record? && TextField(line.value, "plugin_id") == Some(pluginId)
  }

  /** Keeps the plugin's records whose `ts`, or "" without one, is not below `since` as a string. */
  function FilterLogs(lines: seq<LogLine>, pluginId: string, since: Option<string>): seq<Json> {
    if lines == [] then [] else
      var line := lines[|lines| - 1];
      var ts := if line.Record? then TextField(line.value, "ts") else None;
      FilterLogs(lines[..|lines| - 1], pluginId, since)
      + (if !Belongs(line, pluginId) then []
         else if since.Some? && LexLess(if ts.Some? then ts.value else "", since.value) then []
         else [line.value])
  }

  /** The line is a record whose `plugin_id` is that text. */
  predicate NamesPlugin(line: LogLine, pluginId: string) {
    line.Record? && line.value.Object? && "plugin_id" in line.value.fields
    && line.value.fields["plugin_id"] == Str(pluginId)
  }

  /** The record's `ts`, or the empty text where there is none. */
  function StampOf(line: LogLine): string {
    if line.Record? && line.value.Object? && "ts" in line.value.fields && line.value.fields["ts"].Str?
    then line.value.fields["ts"].s else ""
  }

  lemma FilterNext(front: seq<LogLine>, line: LogLine, pluginId: string, since: Option<string>)
    ensures FilterLogs(front + [line], pluginId, since)
            == FilterLogs(front, pluginId, since)
               + (if NamesPlugin(line, pluginId) && (since.None? || !LexLess(StampOf(line), since.value))
                  then [line.value] else [])
  {
    assert (front + [line])[..|front|] == front;
    hide LexLess;
  }

  /**
   What remains are the lines at certain positions, in order: without `since` all records of the plugin,
   and with it those whose stamp is not below it as text.
   */
  lemma {:induction false} FilterPicks(lines: seq<LogLine>, pluginId: string, since: Option<string>)
    returns (picked: seq<nat>)
    ensures |picked| == |FilterLogs(lines, pluginId, since)|
    ensures forall i, j :: 0 <= i < j < |picked| ==> picked[i] < picked[j]
    ensures forall i :: 0 <= i < |picked| ==>
              picked[i] < |lines| && NamesPlugin(lines[picked[i]], pluginId)
              && FilterLogs(lines, pluginId, since)[i] == lines[picked[i]].value
    ensures since == None ==> forall k :: 0 <= k < |lines| && NamesPlugin(lines[k], pluginId) ==> k in picked
    ensures since.Some? ==> forall k :: 0 <= k < |lines| && NamesPlugin(lines[k], pluginId) ==>
              (k in picked <==> !LexLess(StampOf(lines[k]), since.value))
  {
    picked := [];
    if lines != [] {
      var n := |lines| - 1;
      var front, line := lines[..n], lines[n];
      assert lines == front + [line];
      picked := FilterPicks(front, pluginId, since);
      FilterNext(front, line, pluginId, since);
      hide FilterLogs, NamesPlugin, StampOf, LexLess;
      if NamesPlugin(line, pluginId) && (since.None? || !LexLess(StampOf(line), since.value)) {
        picked := picked + [n];
      }
    }
  }

  /** The plugin's records not earlier than `start`, each line having the given instant. */
  function NotEarlier(lines: seq<LogLine>, pluginId: string, at: seq<Instant>, start: Instant): seq<Json>
    requires |at| == |lines|
  {
    if lines == [] then [] else
      var n := |lines| - 1;
      NotEarlier(lines[..n], pluginId, at[..n], start)
      + (if Belongs(lines[n], pluginId) && !Earlier(at[n], start) then [lines[n].value] else [])
  }

  /** The plugin's records carry the timestamps of the given instants, all in four-digit years. */
  ghost predicate Stamped(lines: seq<LogLine>, pluginId: string, at: seq<Instant>) {
    |at| == |lines| && forall i :: 0 <= i < |lines| && Belongs(lines[i], pluginId) ==>
      FourDigitYear(at[i]) && TextField(lines[i].value, "ts") == Some(UtcString(at[i]))
  }

  /** Filtering by a timestamp string keeps exactly the records not earlier than its instant, in order. */
  lemma {:induction false} FilterIsByTime(lines: seq<LogLine>, pluginId: string, at: seq<Instant>, start: Instant)
    requires Stamped(lines, pluginId, at) && FourDigitYear(start)
    ensures FilterLogs(lines, pluginId, Some(UtcString(start))) == NotEarlier(lines, pluginId, at, start)
  {
    hide UtcString, LexLess, Earlier, FourDigitYear;
    if lines != [] {
      var n := |lines| - 1;
      FilterIsByTime(lines[..n], pluginId, at[..n], start);
      if Belongs(lines[n], pluginId) { TimestampOrder(at[n], start); }
    }
  }

  /** The plugin's records of the given second. */
  function CountAt(lines: seq<LogLine>, pluginId: string, at: seq<Instant>, secs: nat): nat
    requires |at| == |lines|
  {
    if lines == [] then 0 else
      var n := |lines| - 1;
      CountAt(lines[..n], pluginId, at[..n], secs)
      + (if Belongs(lines[n], pluginId) && at[n].secs == secs then 1 else 0)
  }

  /** A timestamp to the second is as good as the next one: it drops every record of its own second. */
  lemma {:induction false} SecondsFilter(lines: seq<LogLine>, pluginId: string, at: seq<Instant>, secs: nat)
    requires Stamped(lines, pluginId, at) && secs < 253_402_300_800
    ensures FilterLogs(lines, pluginId, Some(SecondsString(secs)))
            == NotEarlier(lines, pluginId, at, Instant(secs + 1, 0))
  {
    hide UtcString, SecondsString, LexLess, FourDigitYear;
    if lines != [] {
      var n := |lines| - 1;
      SecondsFilter(lines[..n], pluginId, at[..n], secs);
      if Belongs(lines[n], pluginId) { SecondsOrder(at[n], secs); }
    }
  }

  lemma {:induction false} NotEarlierByOne(lines: seq<LogLine>, pluginId: string, at: seq<Instant>, secs: nat)
    requires |at| == |lines|
    ensures var now, next := Instant(secs, 0), Instant(secs + 1, 0);
            && |NotEarlier(lines, pluginId, at, now)|
               == |NotEarlier(lines, pluginId, at, next)| + CountAt(lines, pluginId, at, secs)
            && (CountAt(lines, pluginId, at, secs) == 0 ==>
                  NotEarlier(lines, pluginId, at, now) == NotEarlier(lines, pluginId, at, next))
  {
    if lines != [] {
      var n := |lines| - 1;
      NotEarlierByOne(lines[..n], pluginId, at[..n], secs);
    }
  }

  /** So it keeps what it should, everything not earlier than that second, exactly when no record falls into it. */
  lemma SecondsFilterExactly(lines: seq<LogLine>, pluginId: string, at: seq<Instant>, secs: nat)
    requires Stamped(lines, pluginId, at) && secs < 253_402_300_800
    ensures FilterLogs(lines, pluginId, Some(SecondsString(secs))) == NotEarlier(lines, pluginId, at, Instant(secs, 0))
            <==> CountAt(lines, pluginId, at, secs) == 0
  {
    SecondsFilter(lines, pluginId, at, secs);
    NotEarlierByOne(lines, pluginId, at, secs);
  }

  /** With an offset from UTC: a record an hour after `since`, which is 09:00 UTC, that is dropped. */
  lemma OffsetDropsLater(value: Json)
    requires TextField(value, "plugin_id") == Some("p") && TextField(value, "ts") == Some("2026-04-12T10:00:00.000Z")
    ensures FilterLogs([Record(value)], "p", Some("2026-04-12T11:00:00.000+02:00")) == []
  {
    var head := "2026-04-12T1";
    assert "2026-04-12T10:00:00.000Z" == head + "0:00:00.000Z";
    assert "2026-04-12T11:00:00.000+02:00" == head + "1:00:00.000+02:00";
    LexAppend(head, head, "0:00:00.000Z", "1:00:00.000+02:00");
    hide LexLess;
    assert [Record(value)][..0] == [];
  }

  /** A record half a second after `since` that is dropped. */
  lemma LaterRecordDropped(value: Json)
    requires TextField(value, "plugin_id") == Some("p") && TextField(value, "ts") == Some("2026-04-12T09:00:00.500Z")
    ensures FilterLogs([Record(value)], "p", Some("2026-04-12T09:00:00Z")) == []
  {
    var head := "2026-04-12T09:00:00";
    assert "2026-04-12T09:00:00.500Z" == head + ".500Z" && "2026-04-12T09:00:00Z" == head + "Z";
    LexAppend(head, head, ".500Z", "Z");
    hide LexLess;
    assert [Record(value)][..0] == [];
  }
}
