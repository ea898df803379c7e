# Nanika: a verified model

This project models eight components of Nanika, plus the interrupt calls of the session client, and
proves what each of them promises. Every component keeps state that has to agree with a simpler
specification: an index with a scan of its log, a bounded ring with an unbounded history, a search
with reachability, a batching writer with the list of what it was handed.

| component | files |
|---|---|
| compiled memory index | `Text`, `MemoryModel`, `MemoryStore`, `MemoryRuns`, `MemoryFind`, `MemoryFacets` |
| event replay ring and lifecycle loop | `EventRing`, `Lifecycle`, `LifecycleRuns`, `Subscriptions` |
| blocker graph and issue tree | `BlockerGraph`, `IssueTree` |
| dates, log filter, redaction, batching log writer | `CivilDate`, `Timestamp`, `LogFilter`, `Redaction`, `LogWriter` |
| wire framing | `Framing` |
| subprocess teardown and interrupt calls | `SessionTeardown`, `InterruptCalls` |
| evaluation worker pool | `EvalPool` |
| peak window | `PeakWindow` |

`Prelude` and `Ordering` hold what several of them share: options, results, 64-bit counters, and the
unique ranking of a finite set under a total order.

How the source's form is kept: objects updated in place are classes (`MemoryStore.Engine`,
`EventRing.EventRing`, `LogWriter.Writer`), loops are methods with invariants, and goroutines are
state machines whose steps interleave in every order. A method's `ensures` ties it to a
specification function, and lemmas prove what is promised about that function.

What comes from outside is a parameter, and the results hold for all of its values: the clock, the
Unicode tables (`Text.Unicode`, which asks only that separators are not word characters, that
lower-casing twice is lower-casing once, and a few facts of that kind), the JSON encoders and
parsers, temporal decay (any factor in (0, 1]), the results of tool calls and model queries, and
every scheduling choice.

## Where the code differs from what is written about it

- The memory skill's documentation (archive/memory/skills/SKILL.md:65-72) offers `slot.`, `tag.` and
  `day=` queries. `normalizeFacetTerm` turns `.` and `-` into blanks, so no query can equal one of
  these stored facets (`MemoryFacets.QualifiedFacetsUnreachable`); `MemoryFacets.DocumentedQueryMisses`
  has the query `slot.owner=alice` missing an entry with that slot. `MemoryFacets.ReachableFacets` says
  exactly which stored facets some query asks for: the entity, unqualified slots whose value has
  tokens, and unqualified tags.
- A full replay is to fit one frame (plugins/dust/dust-core/src/events.rs:24-28). It does exactly unless the
  last event, which is kept however large it is, does not fit by itself:
  `LifecycleRuns.RetainedFitFrame`.
- The event ring promises a next sequence above every one pushed (plugins/dust/dust-core/src/events.rs:164-169).
  After an event numbered 2^64 - 1 the addition wraps. `EventRing.NextExceedsAll` proves that the
  promise holds exactly when no event carries that number.
- `timeUntilPeakStart` promises the wait until the next window (plugins/nen/peak/peak.go:111-113). For a
  window that opens at midnight the strict comparison never succeeds and the answer is 0 even far
  off peak. `PeakWindow.TimeUntilPeakStart` carries the exact condition and
  `PeakWindow.MidnightStartIsMissed` a concrete Saturday. `timeUntilPeakEnd` stops at midnight even when the next day's
  window continues: `PeakWindow.PeakEndIsFirstOffPeak` has the exact condition and
  `PeakWindow.ContinuedMidnightIsMissed` a concrete Monday.
- Timestamps are compared as text (plugins/dust/dust-registry/src/observability.rs:555-560). On all readings below a
  bound that is the order of time if and only if the bound is at most the end of the year 9999:
  `Timestamp.TimestampOrderExactly`.
- The log filter speaks of any ISO 8601 timestamp (plugins/dust/dust-registry/src/observability.rs:534-537). A
  `since` given to the second drops the records of that very second, because `.` sorts before `Z`.
  `LogFilter.SecondsFilterExactly` proves that it does what it should exactly when there are none, and
  `LogFilter.LaterRecordDropped` has a record; with an offset from UTC the text order says nothing about
  time, as `LogFilter.OffsetDropsLater` shows.
- A redaction rule with an unsupported token is documented to be ignored
  (plugins/dust/dust-registry/src/observability.rs:402-403). The parser stops there and keeps what it has read,
  so such a rule redacts at the shorter path, and is ignored exactly when that path is empty:
  `Redaction.PathEndsAtUnsupported`.

## Model

| member | source | states |
|---|---|---|
| `Text.Tokenize` | archive/memory/internal/store/store.go:767-790 | the loop over characters yields exactly the maximal runs of letters and digits of the lower-cased text that are kept, in order |
| `Text.NormalizePhraseIdempotent` | archive/memory/internal/store/store.go:792-794 | normalising a phrase twice changes nothing, so a stored key is its own key |
| `Text.TokensSplit` | archive/memory/internal/store/store.go:767-790 | a character that is neither letter nor number in lower case separates tokens and leaves no trace |
| `Text.TokensOfWord` | archive/memory/internal/store/store.go:767-790 | an unbroken word is one token, in lower case; only a single ASCII character that is no number is dropped. With the law above this determines the tokens of every text |
| `Text.PhraseSplit` | archive/memory/internal/store/store.go:792-794 | a phrase taken apart at a separator is the phrases of its parts with one blank between them |
| `Text.TrimSpaceCuts` | archive/memory/internal/store/store.go:667-671 | trimming cuts off the blanks at both ends, all of them and nothing else |
| `MemoryModel.NormalizeIdempotent` | archive/memory/internal/store/store.go:667-681 | normalising an entry again, at any later time, gives the same entry: the premise of replaying the log |
| `MemoryStore.CollectTerms` | archive/memory/internal/store/store.go:683-707 | the terms are the ascending list of all tokens of text, entity, source, slots and tags, whatever the iteration order |
| `MemoryStore.NormalizeEntry` | archive/memory/internal/store/store.go:667-681 | computes the normal form, synthetic text included |
| `MemoryModel.ScanMembers` | archive/memory/internal/store/store.go:618-664 | the postings of a key by scan are strictly ascending and name exactly the content entries that carry the key |
| `MemoryModel.SignalsAreSeen` | archive/memory/internal/store/store.go:591-598 | the recorded signals of an entry are distinct and are exactly those some signal entry in the log carries |
| `MemoryStore.PostStep` | archive/memory/internal/store/store.go:866-871 | appending an id to one key, repeated or not, extends the postings exactly as far as the keys posted so far |
| `MemoryStore.IndexExtended` | archive/memory/internal/store/store.go:618-664 | posting the keys of a new entry one after the other turns the index of a log into the index of the longer log |
| `MemoryStore.EvidenceIsScan` | archive/memory/internal/store/store.go:647-649 | the evidence of an entity is the list of its entries in the log, each once |
| `MemoryStore.LastWriterWins` | archive/memory/internal/store/store.go:634-649 | a slot of an entity has a value if and only if some entry wrote it, and it is the value of the latest such entry |
| `MemoryStore.AdjustIsStoredTrust` | archive/memory/internal/store/store.go:601-613 | each first occurrence of a signal moves trust by exactly its amount, and the floor at zero is never reached |
| `MemoryStore.TrustAfterRun` | archive/memory/internal/store/store.go:588-616 | after any run of additions and signals, effective trust is 1 + 0.05 [helpful seen] - 0.10 [unhelpful seen], whatever the order and repetition |
| `MemoryStore.SignalCompiled` | archive/memory/internal/store/store.go:588-616 | applying a signal to the compiled log gives the compiled longer log |
| `MemoryStore.ContentCompiled` | archive/memory/internal/store/store.go:618-664 | posting an entry to the compiled log gives the compiled longer log |
| `MemoryStore.RunWellFormed` | archive/memory/internal/store/store.go:185-223 | after any run, ids are 1 to n, every entry is in normal form and signals cite earlier entries |
| `MemoryStore.Engine.AddEntry` | archive/memory/internal/store/store.go:566-665 | from the compiled prefix, every entry, an id seen before included, leads to the compiled result |
| `MemoryStore.Engine.PostSlots` | archive/memory/internal/store/store.go:634-646 | the slot loop posts both facets of each written slot and overwrites the entity's slots in key order |
| `MemoryStore.Engine.PostTags` | archive/memory/internal/store/store.go:652-665 | the tag loop posts both facets of each tag, then the day |
| `MemoryStore.Engine.Add` | archive/memory/internal/store/store.go:185-223 | the whole engine state stays what compiling the log gives; the two refusals, exactly when they are due, change nothing; the logged entry field by field; the returned state is the entity's state by scan |
| `MemoryStore.Engine.Trust` | archive/memory/internal/store/store.go:438-464 | the same for signals: an unknown entry and an unknown name are refused, exactly, and "helpful" and "unhelpful" log the signals of these names |
| `MemoryStore.Engine.State` | archive/memory/internal/store/store.go:385-393 | returns the entity's state by scan of the log |
| `MemoryStore.Engine.Rebuild` | archive/memory/internal/store/store.go:140-183 | replaying the log gives the incrementally maintained state: entries, order, counter, postings, entity states and trust |
| `MemoryRuns.TrustByName` | archive/memory/internal/store/store.go:438-464 | after any run, the effective trust of an entry is 1 + 0.05 if some accepted operation gave it "helpful" - 0.10 if some gave it "unhelpful", by the names in the operations; nothing is stored for an entry given neither |
| `MemoryRuns.StateReports` | archive/memory/internal/store/store.go:625-650 | an entity is named as its first entry names it and dated by its last; it has no state if and only if no entry is about it |
| `MemoryRuns.SlotValue` | archive/memory/internal/store/store.go:634-643 | of all keys of an entry that normalise to one slot and hold a value, the largest one sets it |
| `MemoryRuns.SlotUnset` | archive/memory/internal/store/store.go:634-643 | a slot that no key of the entry sets is not written |
| `MemoryRuns.LatestIsNewest` | archive/memory/internal/store/store.go:582-584 | the snapshot is dated by the newest entry of the log |
| `MemoryRuns.SyntheticReads` | archive/memory/internal/store/store.go:796-807 | a record without text gets the entity and `key=value` for each slot with a value, and for no other |
| `MemoryRuns.TermsAreTokens` | archive/memory/internal/store/store.go:683-707 | a logged entry is found by a token if and only if it is one of its text, entity or source, or of a key, a value or both joined, of its slots or tags |
| `MemoryFind.ParseQuery` | archive/memory/internal/store/store.go:715-740 | facets in order, the ranked token set and the exact entity of a query |
| `MemoryFind.FieldsOfWord` | archive/memory/internal/store/store.go:716 | a query without blanks is one word |
| `MemoryFind.FieldsSplit` | archive/memory/internal/store/store.go:716 | blanks separate the words of a query and leave no trace |
| `MemoryFacets.QueryReads` | archive/memory/internal/store/store.go:715-765 | a query asks for the facets of its words with an `=` between two phrases, searches the tokens of its other words, ascending and once each, and names its own phrase as entity |
| `MemoryFind.IntersectIds` | archive/memory/internal/store/store.go:873-889 | the merge pass returns the ascending list of exactly the common ids |
| `MemoryFind.PostingIsExact` | archive/memory/internal/store/store.go:252-277 | a posting list read by the search is ascending and exact |
| `MemoryFind.FacetCandidates` | archive/memory/internal/store/store.go:249-264 | yields exactly the entries that have every stored facet asked for, and gives up early only when there is none |
| `MemoryFind.WordCandidates` | archive/memory/internal/store/store.go:266-277 | yields exactly the entries that share a token or are about the exact entity |
| `MemoryFind.CandidatesCover` | archive/memory/internal/store/store.go:278-299 | candidates with the global facet fallback and the facet filter select exactly the entries of the brute-force scan |
| `MemoryFind.JaccardSim` | archive/memory/internal/store/store.go:828-856 | intersection over union of the query tokens and the set of terms, 0 when both are empty |
| `MemoryFind.ScoreCandidates` | archive/memory/internal/store/store.go:293-362 | each selected entry is scored once, in whatever order the set is walked |
| `MemoryFind.Matches` | archive/memory/internal/store/store.go:246-362 | facets, words and the facet fallback together yield exactly the hits of the scan, each once |
| `MemoryFind.HitsAreOrdered` | archive/memory/internal/store/store.go:364-372 | score, then time, then id is a total order on the hits of a scan, so the ranking is unique |
| `MemoryFind.Find` | archive/memory/internal/store/store.go:233-382 | for every reachable engine, query and limit: exactly the first entries of the brute-force scan of the log; with the comparisons written out, the hits are ordered by score, then time, then id, at most the limit, 5 if none is given, and a selected entry is left out only if the limit is reached and every hit comes before it |
| `MemoryFind.HitReports` | archive/memory/internal/store/store.go:300-362 | each hit shows the fields of its log entry, the shares of common tokens as counted, trust by the signals seen in the log, and the score from them, boosted by half for the exact entity but not above 1 |
| `MemoryFind.SimilarityBounds` | archive/memory/internal/store/store.go:309-331 | Jaccard similarity is at most the token score, which is at most 1 |
| `MemoryFind.ScoreBounds` | archive/memory/internal/store/store.go:327-344 | trust of a hit is in [0.90, 1.05] and every score in [0, 1.05] |
| `MemoryFacets.QualifiedFacetsUnreachable` | archive/memory/internal/store/store.go:742-765 | no query facet equals a stored `slot.`, `tag.` or `day=` facet |
| `MemoryFacets.AskableFacets` | archive/memory/internal/store/store.go:715-765 | a facet can be asked for by some query if and only if it pairs two non-empty normalised phrases |
| `MemoryFacets.QueryFacetMatches` | archive/memory/internal/store/store.go:622-664 | a query's facet is stored for an entry if and only if it is its entity, one of its written slots or one of its tags, unqualified |
| `MemoryFacets.ReachableFacets` | archive/memory/internal/store/store.go:622-664 | a facet is stored for an entry and asked for by some query if and only if it is the entity, an unqualified slot whose value has tokens, or an unqualified tag |
| `MemoryFacets.SlotQueryMisses` | archive/memory/internal/store/store.go:742-765 | for any key and value: the query `slot.key=value` selects nothing from a log with an entry that has this slot |
| `MemoryFacets.DocumentedQueryMisses` | archive/memory/internal/store/store.go:742-765 | the documented query `slot.owner=alice` on an entry with that slot: stored, but another facet is asked for |
| `EventRing.EventRing.Push` | plugins/dust/dust-core/src/events.rs:94-124 | the in-place ring, byte counter, eviction mark and next sequence are those of the longer history; the saturating subtraction never saturates |
| `EventRing.RetainedIsLongest` | plugins/dust/dust-core/src/events.rs:94-113 | what is retained has at most 1000 events and 512 KiB, or is the last event alone, and no longer suffix does |
| `EventRing.RetainedUnique` | plugins/dust/dust-core/src/events.rs:94-113 | only one suffix of the history has these properties |
| `EventRing.EventRing.Subscribe` | plugins/dust/dust-core/src/events.rs:134-162 | the answer from the ring is the answer from the whole, never evicted history |
| `EventRing.ReplayFromRing` | plugins/dust/dust-core/src/events.rs:140-161 | for any sequence numbers, present or not, in order or not: an event from the cursor on was evicted if and only if the mark has reached the cursor; otherwise the ring holds all of them |
| `EventRing.OldestIsAvailable` | plugins/dust/dust-core/src/events.rs:141-152 | with increasing sequences, subscribing again at the reported oldest event returns everything retained |
| `EventRing.OfferWithoutSequence` | plugins/dust/dust-core/src/events.rs:141-152 | when the oldest retained event has no sequence, the cursor offered is one above the highest evicted sequence, and subscribing there succeeds |
| `EventRing.NextIsMaxPlusOne` | plugins/dust/dust-core/src/events.rs:115-120 | the next sequence is one above the largest seen, 1 if none was |
| `EventRing.NextExceedsAll` | plugins/dust/dust-core/src/events.rs:164-169 | it exceeds every sequence pushed if and only if none is 2^64 - 1 |
| `Lifecycle.HandleRequest` | plugins/tracker/src/dust_serve.rs:930-1136 | every method's frames and effects on ring and subscription, on the history in place of the ring |
| `Lifecycle.RunLifecycle` | plugins/tracker/src/dust_serve.rs:918-1211 | for every script of frames, ticks and broadcasts, the loop with its bounded ring writes exactly the frames of the specification over the whole history |
| `LifecycleRuns.OneResponseEach` | plugins/tracker/src/dust_serve.rs:929-1136 | in every run each request handled gets one response with its id, in order, with exactly one of result and error |
| `LifecycleRuns.ExecutedOnce` | plugins/tracker/src/dust_serve.rs:930-942 | in every run an id is answered by a method at most once, and exactly once if it was seen |
| `LifecycleRuns.SilenceCloses` | plugins/tracker/src/dust_serve.rs:1184-1191 | in every run a tick ends the connection if and only if the peer's latest heartbeat is at least three intervals old when it falls due |
| `LifecycleRuns.RetainedFitFrame` | plugins/dust/dust-core/src/events.rs:21-28 | all retained events, as a JSON array with room for the rest of the response, fit the 1 MiB frame if and only if the last event by itself does |
| `LifecycleRuns.ReplayFitsFrame` | plugins/dust/dust-core/src/events.rs:134-162 | so does every replay that is granted, unless the last event by itself does not |
| `LifecycleRuns.LivePushIsComplete` | plugins/tracker/src/dust_serve.rs:1061-1081 | while subscribed, the pushed events are exactly the growth of the history and no second subscription is granted |
| `LifecycleRuns.StreamIsComplete` | plugins/tracker/src/dust_serve.rs:946-1000 | replay followed by live push is the matching part of the history and all later events, nothing lost or repeated |
| `LifecycleRuns.StreamIsLogExactly` | plugins/tracker/src/dust_serve.rs:1061-1081 | for any sequence numbers, that is what a never evicted log would serve from the cursor if and only if every event pushed meanwhile lies at or after it: live push does not look at the cursor |
| `LifecycleRuns.StreamIsLog` | plugins/tracker/src/dust_serve.rs:974-1000 | so it is, with increasing sequences and a cursor that is not in the future |
| `LifecycleRuns.FromLastSeen` | plugins/dust/dust-core/src/events.rs:155-161 | the events from last seen + 1 on are exactly those pushed since |
| `LifecycleRuns.ResumeGapExactly` | plugins/dust/dust-core/src/events.rs:140-161 | on two histories: resuming at last seen + 1 answers a gap if and only if an event not yet seen was evicted; otherwise it replays exactly the unseen ones |
| `LifecycleRuns.ResumeAnswer` | plugins/tracker/src/dust_serve.rs:968-1000 | the same in every run: after a subscription and anything in between, asking at last heard + 1 |
| `LifecycleRuns.ResumeContinues` | plugins/tracker/src/dust_serve.rs:946-1011 | with increasing sequences, two subscriptions with anything in between, the second at last seen + 1, deliver together the first replay and everything pushed since, no gap and no duplicate, whatever the first cursor |
| `Subscriptions.ActiveExactly` | plugins/tracker/src/dust_serve.rs:946-1011 | in every run a subscription is active if and only if the last grant that was sent comes after the last fresh unsubscribe request in the inputs |
| `Subscriptions.SilentAfterCancel` | plugins/tracker/src/dust_serve.rs:1003-1011 | after a fresh unsubscribe request no event is sent until a subscription is granted |
| `Subscriptions.SubscribeAnswer` | plugins/tracker/src/dust_serve.rs:946-1000 | a fresh subscribe request is answered -33005 if a subscription is current, else with the replay and the next sequence or with gap -33007 |
| `Subscriptions.OtherAnswers` | plugins/tracker/src/dust_serve.rs:930-1136 | every other request: -32600 for an id seen before, -32601 for an unknown method, success with its document otherwise, and a mutation is pushed after its answer while subscribed |
| `Subscriptions.Heartbeats` | plugins/tracker/src/dust_serve.rs:1139-1191 | a heartbeat is answered, a tick that is not too late sends one, and ignored or final inputs send nothing |
| `Subscriptions.OpenExactly` | plugins/tracker/src/dust_serve.rs:918-1191 | a connection is open if and only if no input so far was a shutdown, an end or failure of the stream, or a tick three intervals after the latest heartbeat |
| `Subscriptions.SeenExactly` | plugins/tracker/src/dust_serve.rs:930-942 | the ids that count as repeated are those requested while the connection was open |
| `Subscriptions.PushesExactly` | plugins/tracker/src/dust_serve.rs:1061-1211 | in every run the ring's history is what refreshes, broadcasts and mutating actions brought, and the events pushed to the peer are those brought while a subscription was current, in order |
| `Subscriptions.LastsUntilCancelled` | plugins/tracker/src/dust_serve.rs:1003-1011 | a subscription lasts if and only if no unsubscribe request is handled |
| `Subscriptions.SecondSession` | plugins/tracker/src/dust_serve.rs:946-1011 | after an unsubscribe request, a fresh one whose cursor can be replayed opens the second session that `ResumeContinues` asks for |
| `BlockerGraph.BuildBlockedBy` | plugins/tracker/src/commands.rs:291-305 | the map holds for each issue its blocking links in table order |
| `BlockerGraph.HasUnresolvedBlocker` | plugins/tracker/src/commands.rs:327-357 | the shared visited set: a found blocker is at the end of a path; otherwise everything newly visited is explored and clear; it terminates on cyclic graphs |
| `BlockerGraph.ExploredIsClear` | plugins/tracker/src/commands.rs:327-357 | a fully explored set has no open or unknown issue on any path into it |
| `BlockerGraph.SearchFrom` | plugins/tracker/src/commands.rs:316-323 | from an empty visited set: true if and only if some path leads in from an issue that is neither done nor cancelled |
| `BlockerGraph.PathsAgree` | plugins/tracker/src/commands.rs:285-322 | paths in the built maps are paths in the link table |
| `BlockerGraph.Ready` | plugins/tracker/src/commands.rs:285-325 | exactly the rows with status "open" that are not blocked, in table order, stated by membership and position as well |
| `BlockerGraph.ReadyExactly` | plugins/tracker/src/commands.rs:285-325 | the filtered list holds a row if and only if it is in the table, open and not blocked, and keeps the order of the table |
| `BlockerGraph.SortByPriority` | plugins/tracker/src/commands.rs:360-384 | a stable sort: a permutation sorted by priority and age in which issues of equal rank keep their order |
| `BlockerGraph.Next` | plugins/tracker/src/commands.rs:360-371 | none if and only if every open issue is blocked; otherwise a ready issue that no ready issue outranks, level by level from P0 to P3 and all others, nor predates at equal level; the first listed among equals |
| `IssueTree.ChainIsAcyclic` | plugins/tracker/src/commands.rs:386-439 | no chain from a root repeats an issue, even when the parent relation has cycles |
| `IssueTree.ChainFits` | plugins/tracker/src/commands.rs:418-439 | so no chain is longer than the table, which bounds the recursion |
| `IssueTree.ChainUnique` | plugins/tracker/src/commands.rs:386-439 | an issue has at most one chain and therefore one depth |
| `IssueTree.PrintTreeNode` | plugins/tracker/src/commands.rs:418-439 | prints exactly the chains that extend the current one, each once, siblings in table order, without a visited set |
| `IssueTree.Tree` | plugins/tracker/src/commands.rs:386-416 | an issue is printed at a depth if and only if its parent chain of that length ends at a parentless issue; at most once; nested under its parent; children of one parent, and the roots, in table order |
| `IssueTree.TreeIsDetermined` | plugins/tracker/src/commands.rs:386-439 | only one list of lines fits that description |
| `CivilDate.CivilRoundTrip` | plugins/dust/dust-registry/src/observability.rs:515-528 | for every integer day the date is valid in the proleptic Gregorian calendar (RFC 3339 section 5.7 and Appendix C) and days-from-civil returns the day |
| `CivilDate.DaysRoundTrip` | plugins/dust/dust-registry/src/observability.rs:515-528 | every valid date is the date of its day number |
| `CivilDate.ConsecutiveDays` | plugins/tracker/src/dust_serve.rs:92-104 | the next day number has the next date |
| `CivilDate.DatesFollowDays` | plugins/dust/dust-registry/src/observability.rs:515-528 | later days have later dates |
| `Timestamp.TimestampOrder` | plugins/dust/dust-registry/src/observability.rs:490-513 | for years 0 to 9999 the printed stamps sort as text exactly as the instants in time (RFC 3339 section 5.1), to the millisecond |
| `Timestamp.FourDigitYears` | plugins/dust/dust-registry/src/observability.rs:509-513 | the readings that print a year up to 9999 are exactly those below 253402300800 seconds |
| `Timestamp.TimestampOrderEnds` | plugins/dust/dust-registry/src/observability.rs:490-513 | the first second of the year 10000 sorts before the last one of 9999 |
| `Timestamp.TimestampOrderExactly` | plugins/dust/dust-registry/src/observability.rs:490-513 | for every bound: text order is time order on all readings below it if and only if it is at most 253402300800 seconds |
| `Timestamp.SecondsOrder` | plugins/dust/dust-registry/src/observability.rs:555-560 | a printed reading sorts before a stamp to the second if and only if its second is not a later one |
| `Timestamp.UtcStringReads` | plugins/dust/dust-registry/src/observability.rs:490-513 | a printed stamp has its marks in place, and its numbers read back are the instant: days up to its date, time of day, milliseconds |
| `LogFilter.FilterIsByTime` | plugins/dust/dust-registry/src/observability.rs:540-564 | with a `since` in the log's own form, exactly the plugin's parsable records not earlier than that instant remain, in order |
| `LogFilter.SecondsFilterExactly` | plugins/dust/dust-registry/src/observability.rs:534-564 | with a `since` to the second, the same holds if and only if no record of the plugin falls into that second |
| `LogFilter.LaterRecordDropped` | plugins/dust/dust-registry/src/observability.rs:555-560 | a record of half a second later that is dropped |
| `LogFilter.OffsetDropsLater` | plugins/dust/dust-registry/src/observability.rs:534-560 | a `since` with an offset of two hours that drops a record of an hour later |
| `LogFilter.FilterPicks` | plugins/dust/dust-registry/src/observability.rs:540-564 | the result is the lines at increasing positions: without `since` all records of the plugin, with it exactly those whose stamp, or "" without one, is not below it |
| `Redaction.ParseSegments` | plugins/dust/dust-registry/src/observability.rs:404-436 | the scanning loop returns the path of a rule as far as it is supported |
| `Redaction.PathEndsAtUnsupported` | plugins/dust/dust-registry/src/observability.rs:412-436 | a path ends at the first unsupported piece, and what was read before it stands |
| `Redaction.ParseRender` | plugins/dust/dust-registry/src/observability.rs:404-436 | every path of field names and wildcards can be written as a rule, which parses to it if and only if the last name does not end in a blank |
| `Redaction.ApplyRedactSegs` | plugins/dust/dust-registry/src/observability.rs:445-477 | the edit of the JSON tree is the redaction function |
| `Redaction.RedactTwice` | plugins/dust/dust-registry/src/observability.rs:445-477 | applying a rule twice is applying it once, on every tree |
| `Redaction.RedactsCommute` | plugins/dust/dust-registry/src/observability.rs:445-477 | any two rules commute on every tree |
| `Redaction.RulesAreASet` | plugins/dust/dust-registry/src/observability.rs:205-224 | the logged data depends only on the set of rules, not on order or repetition |
| `Redaction.OffPathUnchanged` | plugins/dust/dust-registry/src/observability.rs:438-477 | every location off the path keeps its value |
| `Redaction.OnPathRemoved` | plugins/dust/dust-registry/src/observability.rs:438-477 | no location at or below the path keeps its value: it is gone, or null under a final wildcard |
| `Redaction.AbovePathRedacted` | plugins/dust/dust-registry/src/observability.rs:445-477 | a location above the path keeps its value with the rest of the rule applied inside it |
| `Redaction.RulesClear` | plugins/dust/dust-registry/src/observability.rs:205-224 | all rules together, location by location: what a rule covers is gone or null, what none touches keeps its value, what none covers is still there, nothing is added |
| `LogWriter.Writer.Send` | plugins/dust/dust-registry/src/observability.rs:110-119 | the whole next state: heartbeats are dropped, a full channel counts one overflow, all else is accepted in order |
| `LogWriter.Writer.Tick` | plugins/dust/dust-registry/src/observability.rs:149-158 | the whole next state of the timer branch: the overflow counter is drained into the batch, and a batch that holds anything is to be flushed |
| `LogWriter.Writer.Receive` | plugins/dust/dust-registry/src/observability.rs:165-184 | the whole next state of the receive branch: an unsuppressed line enters the batch; at 4 KiB the overflow record follows it and the batch is to be flushed |
| `LogWriter.LineIsRedacted` | plugins/dust/dust-registry/src/observability.rs:205-237 | a request yields no line if and only if it is a heartbeat or sets `data.meta.log_redact_all`; otherwise the line encodes a tree that names the plugin, shows the data only as the rules allow, and the rest as it is |
| `LogWriter.Writer.ReceiveClosed` | plugins/dust/dust-registry/src/observability.rs:162-198 | the whole next state once the channel is closed: the final record and flush |
| `LogWriter.Writer.Flush` | plugins/dust/dust-registry/src/observability.rs:249-286 | the whole next state of a flush, rotation first |
| `LogWriter.SendAccounted` | plugins/dust/dust-registry/src/observability.rs:110-119 | accepting or refusing a send keeps the account |
| `LogWriter.ReceiveAccounted` | plugins/dust/dust-registry/src/observability.rs:205-237 | moving a prepared line from channel to batch keeps the account, suppressed messages included |
| `LogWriter.StepBalanced` | plugins/dust/dust-registry/src/observability.rs:129-198 | every step of senders and loop keeps the account, the size counter of the file and the bound of the batch |
| `LogWriter.RunBalanced` | plugins/dust/dust-registry/src/observability.rs:129-198 | in every interleaving: rotated files, current file and batch, then the channel, are the accepted sends in order, out of the sends before the last sender is dropped, heartbeats apart; a send is refused exactly when the channel holds 10000 requests; refused sends are reported or still counted; the batch is below 4 KiB at each loop head |
| `LogWriter.ShutdownLosesNothing` | plugins/dust/dust-registry/src/observability.rs:129-198 | in every run that has stopped, every accepted and unsuppressed send is on disk in order, each line redacted by its own rules, and every refusal is reported there |
| `LogWriter.LoggedSoFar` | plugins/dust/dust-registry/src/observability.rs:129-198 | in every run, what is logged or batched, followed by what the channel will yield, shows the accepted sends redacted and in order |
| `LogWriter.TickWritesAll` | plugins/dust/dust-registry/src/observability.rs:149-158 | a tick and its flush leave nothing batched and no refusal uncounted |
| `LogWriter.FullBatchFlushes` | plugins/dust/dust-registry/src/observability.rs:165-184 | a received message leads to a flush if and only if the batch has 4 KiB, with the refusals so far in it |
| `LogWriter.RotatesExactly` | plugins/dust/dust-registry/src/observability.rs:249-332 | a flush starts a new file if and only if the current one has reached the limit on disk or is too old |
| `LogWriter.ReportsAreHonest` | plugins/dust/dust-registry/src/observability.rs:368-375 | every overflow record encodes its number of refused sends, which is not 0 |
| `LogWriter.WriterStops` | plugins/dust/dust-registry/src/observability.rs:160-198 | once the senders are gone, every schedule stops after boundedly many receive and flush steps, ticks apart, and is never stuck before |
| `LogWriter.Run` | plugins/dust/dust-registry/src/observability.rs:129-198 | the writer object ends every script of actions in the state of the specification, with the account balanced, the lines redacted, and nothing lost when it has stopped |
| `Framing.BigEndianRoundTrip` | plugins/dust/dust-core/src/framing.rs:175-268 | decoding inverts encoding for every 32-bit length, most significant byte first |
| `Framing.ReadFrame` | plugins/dust/dust-core/src/framing.rs:155-232 | for every schedule of short reads: the result and the bytes consumed are those of the frame at the head of the stream; a failed read gives a timeout or an I/O error by its kind |
| `Framing.HeaderDecides` | plugins/dust/dust-core/src/framing.rs:178-195 | a zero length is no message and a length above 1 MiB is refused unread |
| `Framing.FrameDecides` | plugins/dust/dust-core/src/framing.rs:213-232 | the error of a complete frame is that of the first check it fails: UTF-8, JSON, object, text `kind`, one of the five kinds; it is accepted if and only if it passes all |
| `Framing.WriteFrame` | plugins/dust/dust-core/src/framing.rs:251-274 | writes exactly one frame and flushes it, or refuses one above 1 MiB before writing anything, naming its length up to 2^32 - 1; a failed write gives a timeout or an I/O error by its kind |
| `Framing.FrameRoundTrip` | plugins/dust/dust-core/src/framing.rs:155-274 | a written message is read back whole and exactly its bytes are consumed, whatever follows |
| `Framing.CutFrame` | plugins/dust/dust-core/src/framing.rs:155-232 | a strict prefix of a frame never yields a message: below four bytes it ends the stream, otherwise it reports exact received and expected counts |
| `Framing.StreamRoundTrip` | plugins/dust/dust-core/src/framing.rs:155-274 | reading a concatenation of frames returns exactly the messages, consumes exactly their bytes and leaves the rest |
| `Framing.Exchange` | plugins/dust/dust-core/src/framing.rs:155-274 | writing a list and reading it back through any short reads returns that list; only an unreliable stream can make it fail |
| `SessionTeardown.StepKeepsInv` | shared/sdk/client.go:205-244 | every step of `Close`, reaper, readers, retirement or kernel keeps the teardown invariant |
| `SessionTeardown.TeardownIsSafe` | shared/sdk/client.go:408-484 | in every interleaving: the barrier closes only when the root is reaped, a probe found the group extinct and both readers ended; no channel closes twice; SIGTERM precedes SIGKILL; no signal follows an extinct probe |
| `SessionTeardown.EscalationProceeds` | shared/sdk/client.go:438-484 | from every state of a started retirement, whatever is interleaved and as long as no probe finds the group extinct: five expired probes, each with a chance to send, put a SIGKILL among the calls, and every second one after that brings another |
| `SessionTeardown.FriendlyFirst` | shared/sdk/client.go:408-484 | in every interleaving stdin is closed before the group is probed, and each signal directly follows an unsuccessful probe, the first one at least two |
| `SessionTeardown.CloseStartsRetirement` | shared/sdk/client.go:408-417 | three steps of the caller of `Close`, whatever is interleaved, leave the session done and in retirement |
| `SessionTeardown.BarrierReachable` | shared/sdk/client.go:438-511 | once all processes and readers are gone, a bounded number of steps closes the barrier from any state |
| `InterruptCalls.AnswerIsFirst` | shared/sdk/client.go:301-345 | an interrupt that ends with an answer has the first response bearing its own id read since it registered |
| `InterruptCalls.NothingLeaks` | shared/sdk/client.go:304-314 | the pending map holds exactly the requests registered and not yet returned |
| `InterruptCalls.AnswerArrives` | shared/sdk/client.go:574-590 | for a waiting caller an answer that was read is in its channel or one step of the reader away, never lost, and taking it ends the call with it and clears the map |
| `InterruptCalls.InterruptStarts` | shared/sdk/client.go:301-327 | a new interrupt that is written waits, is in the map, and has everything read so far behind it |
| `InterruptCalls.CallEnds` | shared/sdk/client.go:310-344 | a failed write or giving up the wait ends the call with that error, and returning clears the map |
| `EvalPool.Collect` | plugins/nen/ko/eval.go:274-289 | the collecting loop's tally of everything received |
| `EvalPool.TallyIsSum` | plugins/nen/ko/eval.go:274-289 | passed + failed is the number of results, failed names one test each, and tokens and cost are the sums |
| `EvalPool.SumPermutes` | plugins/nen/ko/eval.go:274-289 | the sums do not depend on the order of collection |
| `EvalPool.StepConserves` | plugins/nen/ko/eval.go:241-289 | at every step each test sent is in exactly one place: work channel, a worker, result channel or collected |
| `EvalPool.NeverPanics` | plugins/nen/ko/eval.go:256-272 | no interleaving sends on a closed channel or closes one twice |
| `EvalPool.FinishedRunIsComplete` | plugins/nen/ko/eval.go:229-302 | for every number of workers and interleaving: one result per configured test, passed + failed = total, passed is the number of tests that passed, and all totals equal the sums in configuration order |
| `EvalPool.ResultsAnswerTests` | plugins/nen/ko/eval.go:246-265 | every collected result is that of its own test, a skipped one reported as passed |
| `EvalPool.EveryRunFinishes` | plugins/nen/ko/eval.go:229-302 | a run has the configured number of workers, at least one, boundedly many steps, and is never stuck before it is finished |
| `PeakWindow.TimeUntilPeakStart` | plugins/nen/peak/peak.go:113-135 | for every instant and configuration, the eight-day walk returns the least wait until a peak instant if and only if there is a window and it does not open at midnight or the instant is in it |
| `PeakWindow.MidnightStartIsMissed` | plugins/nen/peak/peak.go:125-127 | a window from midnight to 11 on a Saturday noon: the answer 0 is wrong |
| `PeakWindow.PeakEndIsFirstOffPeak` | plugins/nen/peak/peak.go:140-150 | inside a window the answer is the distance to the first instant off peak if and only if the window closes before midnight or nothing continues it there |
| `PeakWindow.ContinuedMidnightIsMissed` | plugins/nen/peak/peak.go:140-150 | peak all day: on a Monday noon the answer is a midnight still in peak |

## Left out

- Crashes between the append to the memory log and the save of the snapshot, disk errors, and a second writer: ids run from 1 to n, as `MemoryStore.RunWellFormed` proves for one writer.
- Opening the gob snapshot, `Recent`, `Stats`, previews, and the JSON form of a log line, including lines above the scanner's 4 MiB limit.
- MemoryFind.ScoreBounds: states exact arithmetic over reals; floating-point rounding is not modelled, and neither is the formula of temporal decay beyond (0, 1].
- MemoryStore.TrustAfterRun: states exact arithmetic as well.
- MemoryRuns.TrustByName: states exact arithmetic as well.
- MemoryFind.HitReports: states exact arithmetic as well, with decay as a parameter.
- MemoryStore.Engine.AddEntry: takes ids up to the next one; a log edited by hand so that ids are skipped is outside, as no writer produces one.
- Text.Tokenize: works on characters with abstract Unicode tables; byte encodings and malformed text are not modelled.
- Lifecycle.RunLifecycle: a read of a frame is one step, so a frame lost half-read when another branch of the select wins is not modelled; a broadcast that lags is an input that brings no event; failing writes, which end the connection, are not modelled.
- LifecycleRuns.StreamIsLog: assumes increasing sequences and a cursor no further than the next sequence; `LifecycleRuns.StreamIsLogExactly` says what happens without them.
- LifecycleRuns.ResumeContinues: assumes increasing sequences, which mutations numbered by one handler and broadcast by another need not have.
- EventRing.OldestIsAvailable: assumes increasing sequences, for the same reason.
- The handshake, the IPC handlers and the tools behind `action`: their results are inputs.
- BlockerGraph.Ready: the tables are sequences, in the order the query returns them; SQL, `relates_to` links and the writing commands are left out. Issue ids are unique, as the table's primary key makes them.
- IssueTree.Tree: states which issue stands on each line at which depth, not the line's text; the table is in the order of its query.
- CivilDate.ConsecutiveDays: days are unbounded integers; the source's 64-bit limits lie far outside any clock.
- LogFilter.FilterIsByTime: takes parsed lines and records stamped in the log's own form; `since` is in that form here and to the second in `LogFilter.SecondsFilterExactly`, and forms with an offset from UTC appear only as `LogFilter.OffsetDropsLater`, since their text order is no order of time.
- Redaction.ApplyRedactSegs: returns the edited tree; editing in place is not modelled, JSON trees being values here.
- LogWriter.RunBalanced: disk errors and colliding names of rotated files are not modelled; a file's age is any choice.
- Framing.Exchange: JSON is an abstract pair of serialiser and parser that undo each other, with UTF-8 validity part of it; timeouts of single reads are any choice.
- SessionTeardown.TeardownIsSafe: process ids are not reused and no process leaves the group other than by ending; probes may miss an extinction but never invent one; platforms without process groups are left out.
- SessionTeardown.BarrierReachable: states that steps exist; that a signalled process ends is the kernel's part.
- InterruptCalls.AnswerIsFirst: the id counter is unbounded; lines that are not control responses are left out.
- EvalPool.FinishedRunIsComplete: cost is exact; rendering of prompts, model queries and assertions are the abstract outcome of a test.
- PeakWindow.TimeUntilPeakStart: assumes a fixed offset from UTC; a day of 23 or 25 hours is not modelled, and neither are durations beyond 64 bits.
- Rendering, dashboards, assertions, judges, chat clients, importers and installers: they are input and output around the components above, or code whose behaviour lies in libraries and services.
