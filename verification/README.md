# A verified model of the DCB event store

The repository is a Go event store after the Dynamic Consistency Boundary pattern. An append may carry
conditions ("no event matching this query exists after this position"); reads and subscriptions follow
queries over event types and tags. There is an in-memory store, and a Postgres store whose appends and
forward reads coordinate through advisory locks, a high-water mark of the position sequence, and a bounded
scan. This project models both in Dafny and proves what the stores promise. `dafny verify dfyconfig.toml`
checks it.

## How it is laid out

| file | what it models |
|---|---|
| `EventStore.dfy`, `Logs.dfy` | events, queries, commands, the two readings of a query; selection from logs in position order |
| `Positions.dfy`, `Packing.dfy` | decimal positions and bigints; tag tokens, the sorted tag list, delimiter packing |
| `ReadAnswer.dfy`, `AppendContract.dfy` | what a read and an append promise, in plain terms, for both stores |
| `Matching.dfy` | the in-memory query evaluator; paging |
| `AtomicStore.dfy` | the specification both stores refine: atomic conditional appends to a log |
| `MemoryStore.dfy`, `MemoryInterleaving.dfy` | the in-memory store and iterators as classes; all interleavings of appends and subscribers |
| `Serialize.dfy` | parallel columns, the SQL condition check, what each append path stores |
| `LockKeys.dfy` | lock keys over an arbitrary hash, and what they cover |
| `ReadSql.dfy` | the query compiler: statements as syntax trees, with an evaluator |
| `Cursor.dfy`, `SubscribeIterator.dfy` | the batching iterator and the subscriber's `Next` as classes |
| `PostgresStore.dfy` | both append paths and `Read`, each running by itself, as methods of a class |
| `Protocol.dfy`, `ProtocolInvariants.dfy` | the locking protocol as a transition system over any number of transactions; what every step keeps |
| `AppendTheorems.dfy`, `BarrierTheorems.dfy` | refinement, isolation, racing appends; barrier completeness and stability of reads |
| `Progress.dfy` | no deadlock, and completion, where no transaction asks for a key in both modes |
| `KeyHash.dfy`, `Deadlock.dfy` | the hash of the code; exactly which hashes can deadlock |
| `Runs.dfy`, `SoloRun.dfy` | runs from any state; the protocol with one append at a time against the sequential store; exactly when two racing appends both commit |
| `Subscription.dfy`, `SubscriberRun.dfy` | the Postgres subscriber on top of the protocol; a subscriber left to itself |

In `Protocol.dfy` a step is one lock taken, the mark read, one check, one position drawn, one commit, one
abort, one lock released, or one scan; an `Execution` is any sequence of such steps from the empty database.
The hash is a parameter, so every safety theorem holds under any collisions. Of the database the model takes:
each statement sees what has committed; the sequence is read and advanced outside any snapshot; the rows of
one insert draw positions in input order; rows become visible before the locks that guard them are released.
The check step evaluates the packed condition rows with the model of the SQL function, and the scan step
returns what the compiled statement selects (`ReadSql.BuildReadSql` proves the two equal on every table).

## What does not hold as documented, and exactly when it does

- `eventstore/query.go:5-6` promises a superset match on tags; the generated SQL uses overlap
  (`postgres/readsql.go:90`). `ReadSql.ReadsAlikeExactly` gives the exact queries on which both reads agree
  everywhere; `ReadSql.TwoTagsReadApart` is a query on which they do not. The barrier theorems are proved for
  overlap, which every superset match implies.
- A valid tag may contain the packing delimiter. In an event on the stored-procedure path:
  `Packing.PackRoundTrip` and `PostgresStore.PathsAgree` give the exact tags that survive;
  `LockKeys.StoredCoveredExactly` gives the exact events whose stored form the locks still cover, and
  `LockKeys.DelimitedTagUncovered` is one they do not.
- In a condition, on either path: a tag with the delimiter can make the check miss an event that violates the
  condition (`Serialize.DelimitedConditionMisses`). `Serialize.TranslatesExactly` gives the exact conditions that
  are checked as the in-memory loop checks them, on every log.
- "Of racing appends exactly one succeeds": `AppendTheorems.ExactlyOneRacerCommits` proves it where the sequence
  had reached After. Where it had not, two can both commit exactly when After is not before the last position
  that the matching events of one of them need (`SoloRun.RaceExactly`).
- `postgres/append.go:142-144` says key order rules out deadlock. It does exactly for the hashes that keep the
  leaf keys of valid tags and the intent keys apart (`Deadlock.NeverDeadlocksExactly`). The code's hash does not:
  the leaf key of type `xse5jgzvc43da` and tag `t` is the intent key of type `g1pznufvq52vh`
  (`KeyHash.LeafMeetsIntent`), and two appends of an event of each can wait for each other
  (`Deadlock.DeadlockRun`, `Deadlock.KeyHashDeadlocks`), since the two modes of one key may come up in either
  order. `Progress.NoDeadlock` holds for any hash in every state whose transactions ask for no key in both modes.
- The zero `Query{}`, which no constructor returns, selects nothing in memory and everything in SQL
  (`ReadSql.ZeroQueryReadsApart`).
- The comment at `postgres/serialize.go:24-25` says one row per (type, tag) pair; the code, and the model, emit
  one row per item and type, with all the item's tags.
- An append alone does not always answer as the in-memory one: with no events to append, memory reports a
  violated condition first and Postgres the missing events (`PostgresStore.NoEventsAnsweredApart`), and a burned
  position is not given out again. `PostgresStore.SameAnswerExactly` and `SameLogExactly` say exactly when they
  agree.

## Model

| member | source | states |
|---|---|---|
| AppendTheorems.Refinement | postgres/store.go:162-221 | Every run of the interleaved protocol, with any number of appends, reads and aborts and any hash, maps step by step to a run of the atomic store in which each commit is one conditional append checked against the whole committed log, each failed check one refusal naming the first violated command, and nothing else is visible |
| AppendTheorems.RefinesStep | postgres/append.go:73-140 | Each single step from a state that meets the invariants is one step of the atomic store or none |
| AppendTheorems.CommitUnviolated | postgres/append.go:88-111 | At its commit, and not only at its check, no committed event at any position violates any condition of the append |
| AppendTheorems.MarkLosesNothing | postgres/store.go:190-210 | While an append holds its locks, checking its packed conditions up to its mark, on either path, gives the verdict of checking the conditions against everything committed |
| AppendTheorems.PositionIsolation | postgres/lockkeys.go:42-57 | In every reachable state, a matching event of another append that is committed or may yet commit is at or before After, or after every event of the committed append whose condition it matches |
| AppendTheorems.AtMostOneCommits | postgres/store.go:193-211 | Of appends sharing a condition that their own events offend, at most one is ever committed |
| AppendTheorems.ExactlyOneRacerCommits | eventstore/eventstoretest/concurrency.go:43-76 | Of any number of racing appends that share one condition which an event of each matches, and that have all committed or failed on it, exactly one has committed, where the sequence had reached After before any began and no other append committed an offending event |
| AppendTheorems.RacingWriters | postgres/store.go:193-211 | Two appends that share a condition their own events match never both commit, where the sequence had reached After before either began |
| AppendTheorems.RejectedForCause | postgres/store.go:202-209 | An append rejected for a command has, committed by another append, an event that offends that command's condition |
| AppendTheorems.UncommittedInvisible | postgres/store.go:212-217 | No position drawn by an append that has not committed, or was aborted, holds a row |
| AppendTheorems.MarkSince | postgres/store.go:190-191 | A transaction begun after a state reads a mark no lower than that state's sequence |
| SoloRun.EveryCleanAppendRuns | postgres/append.go:15-46 | Every append with scoped conditions and at least one event takes part in the protocol, of any number of commands, with valid tags and no delimiter in a condition's tag, nor in an event's on the stored-procedure path |
| SoloRun.EveryQueryRuns | eventstore/query.go:29-47 | Every query that the constructors return takes part as a forward read |
| SoloRun.EverySoloRun | postgres/store.go:173-220 | Every run of an append alone, without an abort and to where none of its steps is left, ends with the table, sequence, outcome and failed command that the sequential store computes, and with no lock held |
| SoloRun.AloneInProtocol | postgres/store.go:173-220 | From every state in which no lock is held there is such a run |
| SoloRun.ReadAloneInProtocol | postgres/read.go:10-40 | A forward read that runs alone ends with the rows that `Read` returns on the same table, limit included, and changes nothing |
| SoloRun.AbortsCleanly | postgres/append.go:73-87 | A transaction under way can be aborted in any state; its locks go, and no row and no other transaction changes |
| SoloRun.RaceExactly | postgres/store.go:193-211 | From a state in which no lock is held, some run commits both of two appends, of any number of events, that share a condition, exactly when After is not before the last position that the matching events of one of them need |
| ProtocolInvariants.InvStep | postgres/store.go:160-221 | Every step keeps: no conflicting locks held together, no position drawn twice, the table exactly the committed rows, and between rivals nothing drawn below a mark by one not over |
| ProtocolInvariants.InvHolds | postgres/store.go:160-161 | The invariant holds in every reachable state |
| ProtocolInvariants.OrderedAfterOwn | postgres/append.go:88-99 | A transaction's own step keeps the lock-then-allocate order towards every rival, in particular when it reads its mark |
| ProtocolInvariants.OrderedAfterRival | postgres/append.go:88-99 | A rival's step keeps that order: it cannot read its mark or draw a position while the other holds its locks |
| ProtocolInvariants.HoldersExclude | postgres/append.go:142-152 | Two appends or reads that need clashing locks never hold all of their locks at once |
| ProtocolInvariants.CommittedRows | postgres/store.go:213-215 | A commit adds exactly the append's events at its own positions, all new, and changes no other row |
| BarrierTheorems.BarrierComplete | postgres/store.go:226-249 | In every reachable state, an event that the query of a marked read selects, at or below the mark, belongs to an append that has committed or aborted |
| BarrierTheorems.BarrierStable | postgres/read.go:42-52 | From the moment a read has its mark, its bounded scan returns the same rows in every later state |
| BarrierTheorems.SelectStep | postgres/lockkeys.go:65-97 | No step changes which rows up to its mark a marked read's query selects, whatever position it resumes from |
| BarrierTheorems.ResultHolds | postgres/read.go:10-40 | A finished read's result is still, in every later state, exactly what its scan would return |
| BarrierTheorems.ScannedAnswers | postgres/read.go:10-40 | In every reachable state a finished read's result holds only committed rows that its query selects, after its After, up to its mark, in ascending order, no more than its limit; and misses such a row only where the limit is used up, with that row above all of the result |
| BarrierTheorems.ReadsAllCommittedBefore | postgres/read.go:10-40 | An unlimited forward read returns every selected event after its After that was committed before the read began |
| BarrierTheorems.PrefixMonotone | postgres/read.go:10-40 | The result of an unlimited forward read that ended before another of the same query and After began is a prefix of the other's |
| Progress.NoDeadlock | postgres/append.go:142-152 | With locks taken in key order, for any hash, the wait-for graph of every reachable state whose transactions ask for no key in both modes has no cycle, waits behind earlier requests for the same key included |
| Deadlock.NeverDeadlocksExactly | postgres/append.go:142-152 | No reachable state has a cycle of waits, exactly when the hash gives no leaf key of a valid tag the value of an intent key |
| Deadlock.DeadlockRun | postgres/append.go:145-152 | Where they meet, a run in which two appends hold that key shared and each waits for the other to let it have it exclusively |
| Deadlock.KeyHashDeadlocks | postgres/lockkeys.go:24-28 | With the code's hash some reachable state has a cycle of waits |
| KeyHash.LeafMeetsIntent | postgres/lockkeys.go:9-28 | The code's hash gives a leaf key and a type intent key the same value |
| KeyHash.FnvOfLetter | postgres/lockkeys.go:24-28 | The modelled sum of the letter a is the published one of the 64-bit FNV-1a hash |
| Progress.SomeoneAdvances | postgres/store.go:181-187 | In every such state with something left to do, some transaction can take a step that is not an abort, and that jumps no queue |
| Progress.EverythingCompletes | postgres/store.go:237-243 | With nothing new beginning, a run takes no more steps than its starting weight, and where none can be taken in turn, nothing is left to do |
| Progress.JobOneMode | postgres/lockkeys.go:9-22 | Where the hash keeps the leaf keys of valid tags and the intent keys apart, no transaction asks for a key in both modes |
| Subscription.SubscribedExactly | postgres/subscribe.go:14-54 | In every state after a subscription was asked for with a query and an After, delivered then pending are, strictly ascending, committed events that this query selects after this After; and once a read is drained, all of those up to its mark |
| Subscription.DrainCatchesUp | postgres/subscribe.go:80-117 | When a subscriber starts a drain after an event was committed and then finishes a drain, the event, if due, is delivered or pending |
| Subscription.ExactlyOnce | postgres/subscribe.go:64-117 | In every reachable state, delivered then pending are exactly the committed events selected by the subscriber's query from its start to the mark of its last drained read, strictly ascending |
| Subscription.NothingMissed | postgres/subscribe.go:80-91 | An event committed before the last drained read began is delivered or pending, even where higher positions had been committed earlier |
| Subscription.DeliveriesGrow | postgres/subscribe.go:69-74 | Deliveries are never taken back or reordered and the drained mark never goes back |
| Subscription.EveryDeliveryCounts | postgres/subscribe.go:69-74 | A subscriber has been delivered one event for every delivery it took |
| Subscription.EndedForGood | postgres/subscribe.go:64-67 | After a close or a failed drain nothing more is drained or delivered |
| SubscriberRun.CatchesUp | postgres/subscribe.go:64-117 | From every reachable state where no lock is held, a listening subscriber waiting for no read can, by one drain, be delivered every committed event due to it |
| Subscription.DrainExtends | postgres/subscribe.go:110-117 | A drain resumed after the last delivered event adds exactly the events between the old mark and the new one |
| SubscribeIterator.Iterator.Next | postgres/subscribe.go:64-108 | Rounds pass that drain nothing and whose wait ends by a notification, or by the poll with the context alive; of the first other round: an ended context stops the call, drained rows are yielded, a failed read or wait fails it unless the context ended meanwhile, an elapsed poll with the context ended stops it; a failed or closed iterator does nothing |
| LockKeys.ComputeWriterLockKeys | postgres/lockkeys.go:38-63 | The loops list, each once, exactly the leaf keys of the condition and the events, and the intent keys of the events |
| LockKeys.ComputeReaderLockKeys | postgres/lockkeys.go:73-97 | The loops list, each once, exactly the leaf keys of tagged items and the intent keys of untagged items, or the global key |
| LockKeys.ConditionCovered | postgres/lockkeys.go:30-57 | For every hash, an append whose condition matches an event clashes with every append that brings the event |
| LockKeys.QueryCovered | postgres/lockkeys.go:65-97 | For every hash, a barrier clashes with every append that brings an event its query selects, even by overlap |
| LockKeys.AppendsClashExactly | postgres/lockkeys.go:30-63 | For a hash that tells strings apart, two appends clash exactly when they have a (type, tag) pair, or two with the same leaf string, in scope: disjoint scopes do not wait for each other |
| LockKeys.BarrierClashExactly | postgres/lockkeys.go:65-97 | For such a hash a barrier waits for no append but those of anything (all events), of an untagged item's type, or with a (type, tag) pair of the query in scope |
| LockKeys.StoredCoveredExactly | postgres/store.go:213-215 | An event as the stored procedure stores it is covered by the locks of the append that brings it, for every hash and query, exactly when every non-empty delimiter-separated part of its tags makes a leaf string that the append locks |
| LockKeys.StoredAloneCoveredExactly | postgres/lockkeys.go:52-57 | Brought alone, it is covered exactly when every such part of every tag is itself a tag of the event |
| LockKeys.DelimitedTagUncovered | postgres/store.go:17-21 | An event with a delimiter inside its tag, brought alone, is not covered |
| LockKeys.PlanExists | postgres/append.go:145-152 | Any set of locks can be listed with each lock once and keys never descending |
| Serialize.TranslationPreservesMeaning | postgres/serialize.go:26-49 | On either path, for conditions that keep their meaning, the flattened rows run through the SQL check report exactly the first command that the in-memory loop would reject on the log up to the mark, a missing After counting as 0 |
| Serialize.TranslatesExactly | postgres/store.go:129-147 | On either path, a command's condition is checked as the in-memory loop checks it, on every log and mark, exactly when for each item and type some item for the type asks for no tag outside the split tags, and some item's split tags are all among the tags |
| Serialize.OneItemExactly | postgres/serialize.go:43 | A condition of one item keeps its meaning exactly when no tag of the item has the delimiter |
| Serialize.CleanKeepsMeaning | postgres/serialize.go:39-45 | Conditions without the delimiter keep their meaning, however many items they have |
| Serialize.DelimitedConditionMisses | postgres/serialize.go:43 | A valid condition on a tag with the delimiter is violated by an event stored by COPY, and neither path's check reports it |
| Serialize.ViolatesIffRowHit | postgres/store.go:137-147 | A command's condition that keeps its meaning is violated by the capped log exactly when one of its own rows is hit |
| Serialize.PathsCheckAlike | postgres/store.go:193-211 | The single-row shortcut and the check function report alike on all rows, logs and marks |
| Serialize.CheckConditions | postgres/store.go:114-147 | The reported index is the least among rows that are hit, and none is reported exactly when no row is hit |
| Serialize.SerializeConditions | postgres/serialize.go:26-49 | The four columns hold, in order, one row per query item and type of every condition, tagged with the command's index |
| Serialize.SerializeEvents | postgres/serialize.go:13-22 | The three columns hold every command's events in order, tags packed |
| Serialize.StoredUnchanged | postgres/append.go:116-121 | COPY stores every event as it is; the stored procedure exactly the events without the delimiter in a tag |
| ReadSql.BuildReadSql | postgres/readsql.go:21-61 | The compiled statement, run with its own numbered arguments on any table, is well typed and yields exactly the type-and-overlap selection on the right side of After, at most the bound, in direction order, up to the limit |
| ReadSql.CriteriaClause | postgres/readsql.go:63-78 | The clauses, with all arguments added so far, hold of an event exactly when some item with a clause selects it |
| ReadSql.ItemFilterClause | postgres/readsql.go:80-96 | An item yields a clause exactly when it has types or tags, and the clause holds of exactly the events it selects |
| ReadSql.ReadsAlikeExactly | postgres/readsql.go:90 | The SQL read equals the documented read on every log and all options, limits included, exactly when each (type, tag) pair of an item is also asked for without further tags |
| ReadSql.OneTagReadsAlike | postgres/readsql.go:80-96 | Queries whose items have at most one tag are read alike |
| ReadSql.SqlReadsEveryMatch | memory/matching.go:9-33 | Every event of the documented read is in the SQL read without a limit |
| ReadSql.TwoTagsReadApart | eventstore/query.go:5-10 | A query for two tags selects an event with only one of them, which the documentation excludes |
| ReadSql.ZeroQueryReadsApart | postgres/readsql.go:70-72 | The zero query selects every event in SQL and none in memory |
| PostgresStore.Database.Append | postgres/append.go:15-46 | Validates, takes the union of all commands' keys, routes by the number of events, and answers and leaves the table and sequence as the path's specification says |
| PostgresStore.Database.AppendViaFunction | postgres/store.go:173-220 | Result, table and sequence after the stored procedure, rows inserted only under the append's locks, all unchanged on a violation |
| PostgresStore.Database.AppendViaCopy | postgres/append.go:73-140 | The same for the COPY path |
| PostgresStore.Database.Read | postgres/read.go:10-40 | A read by itself returns the selection bounded by the mark, or unbounded backwards |
| PostgresStore.GatherKeys | postgres/append.go:24-41 | The keys handed to either path are exactly the union of the commands' keys, and the event count is right |
| PostgresStore.PathsAgree | postgres/append.go:42-45 | Both paths answer alike with the same sequence, whatever the tags, and leave the same table exactly when they refuse or no event's tag contains the delimiter |
| PostgresStore.SqlAnswersPlainly | postgres/append.go:15-46 | The same for an append by itself on either path, where an append of nothing is refused before a violated one; rows go to the places after the sequence, and no other row changes |
| PostgresStore.AcceptedAlone | postgres/append.go:112-131 | An accepted append by itself is one atomic append at the consecutive positions just above the mark, and returns the last |
| PostgresStore.RefusedAlone | postgres/append.go:180-189 | A refused append by itself names the first command the whole log violates, with an index only among several commands |
| PostgresStore.SameAnswerExactly | memory/store.go:31-79 | An append on either path answers as the in-memory append on the same log exactly where a condition is invalid, or there is no event and no violation, or there are events and a violation or no position burned at the end |
| PostgresStore.SameLogExactly | memory/store.go:74-79 | It leaves the same log exactly where nothing is appended or no position is burned at the end |
| PostgresStore.NoEventsAnsweredApart | postgres/append.go:37-39 | With no events and a violated condition the two stores answer with different errors |
| MemoryStore.AnswersPlainly | memory/store.go:31-79 | An in-memory append refuses, in this order, a condition for all events or with an item lacking types or tags, the first violated command, named by its condition and, among several, its index, and an append of nothing; otherwise event j of command i goes to the last position, plus the events before it, plus one, and the last position is answered |
| AppendContract.EventAt | postgres/serialize.go:13-22 | Event j of command i comes after all events of earlier commands and the j before it |
| MemoryStore.Store.Append | memory/store.go:31-79 | The answer and the new log are those of the append specification; an accepted append, and nothing else, closes the channel and opens a new one |
| MemoryStore.AppendIsAtomic | memory/store.go:43-79 | Every in-memory append is one atomic append or refusal of the specification, and keeps the log ascending |
| MemoryStore.Store.Read | memory/store.go:81-89 | An ended context is refused; else the iterator holds exactly the documented selection at the time of the call |
| MemoryStore.Store.Subscribe | memory/store.go:91-104 | An ended context is refused; else a subscriber starts after After, or at the initial position |
| MemoryStore.SliceIterator.Next | memory/iterator.go:15-21 | Next moves on exactly while events remain |
| MemoryStore.SubscribeIterator.Next | memory/iterator.go:44-70 | Whatever is appended meanwhile, Next delivers the first match after the last one delivered; a call left blocked has delivered every matching event of the log; only the end of the context stops it |
| MemoryStore.SubscribeIterator.Snapshot | memory/iterator.go:53-56 | The events and the channel taken under one lock: pending becomes all that is still due of the whole log |
| MemoryInterleaving.SubscribedExactly | memory/store.go:91-104 | In every state after a subscription was asked for with a query and an After, delivered then pending are, strictly ascending, events of the log that match this query after this After; all of them, where it is parked and cannot be woken |
| MemoryInterleaving.CatchesUp | memory/iterator.go:44-70 | From every reachable state a subscriber whose context has not ended can, by its own steps alone, be delivered every matching event of the log |
| MemoryInterleaving.EveryDeliveryCounts | memory/iterator.go:46-51 | A subscriber has been delivered one event for every delivery it took |
| MemoryInterleaving.EndedForGood | memory/iterator.go:63-69 | After its context has ended, a subscriber is left as it is |
| MemoryInterleaving.NoLostWakeup | memory/iterator.go:27-34 | In every interleaving, a parked subscriber that cannot be woken has been delivered every matching event of the log |
| MemoryInterleaving.ExactlyOnce | memory/iterator.go:44-70 | In every interleaving, delivered then pending are exactly the matching events, after the start, of a prefix of the log |
| MemoryInterleaving.DeliveriesGrow | memory/iterator.go:46-51 | Deliveries are never taken back or reordered |
| ReadAnswer.AnswersExactly | memory/matching.go:51-79 | On an ascending log a result is the specified one exactly when it holds wanted rows only, in direction order, no more than a positive limit, and misses a wanted row only where the limit is used up and the row comes after all of the result |
| ReadAnswer.LimitCuts | postgres/readsql.go:51-54 | A read with a limit is the start of the read without, of the limit's length or whole where the limit is not positive or not reached |
| Matching.MatchingEvents | memory/matching.go:51-79 | The loop, reversal and cut give exactly the wanted rows, in direction order, up to the limit |
| Matching.AnyMatchAfter | memory/matching.go:37-47 | True exactly when some event after After matches |
| Matching.QueryMatches | memory/matching.go:9-23 | True exactly when the query is for all events or some item has the type and only tags the event has |
| Matching.IsTagSubset | memory/matching.go:26-33 | True exactly when every filter tag is present |
| Matching.PagingLossless | memory/matching.go:51-79 | On an ascending log, pages of any positive limit, each resumed after the last position, end and concatenate to the unlimited read, in both directions |
| EventStore.FirstViolation | memory/store.go:53-63 | The index is the first command violated by the log as it was before the call; none exactly when no command is violated |
| Cursor.CursorIterator.Next | postgres/cursor.go:26-55 | Yields the rows of the whole result once and in order for any positive batch size; stops only at the end, on a failed fetch or when closed, and then stays so |
| Cursor.CursorIterator.Event | postgres/cursor.go:57 | The event is the row of the whole result that the last Next yielded |
| Cursor.Collect | eventstore/event_iterator.go:23-30 | Draining gives the whole result, whatever its length, or what came before a failed fetch, and closes the iterator |
| Packing.TagsFrom | eventstore/tags.go:55-66 | Succeeds exactly on valid tokens, and then holds exactly the given values |
| Packing.TagsFromMap | eventstore/tags.go:71-86 | Succeeds exactly on non-empty maps of valid tokens, and then holds exactly the key=value tags |
| Packing.ValuesSorted | eventstore/tags.go:19-26 | The list of a tag set is in string order with no tag twice |
| Packing.StringOrder | eventstore/tags.go:19-26 | String order: the smaller of the first characters that differ decides, and a string comes before its extensions |
| Packing.Values | eventstore/tags.go:19-26 | The list holds exactly the tags of the set |
| Packing.PackRoundTrip | postgres/store.go:17-21 | Joining then splitting gives back the tag set exactly when no tag contains the delimiter |
| Packing.UnpackIsSplit | postgres/store.go:131-132 | Packing then unpacking splits every tag at its delimiters |
| Packing.PackedList | postgres/serialize.go:17 | The split is the sorted tag list itself, and only no tags pack to the empty string |
| Packing.PackInjective | postgres/serialize.go:43 | Distinct delimiter-free tag sets pack to distinct strings |
| Packing.DelimiterIsValidButLost | eventstore/tags.go:46-51 | A valid token with the delimiter inside does not survive packing |
| Positions.DigitsPrinted | eventstore/sequence_position.go:31-33 | The numbers below ten are printed as the ten digits |
| Positions.LongerPrinted | eventstore/sequence_position.go:31-33 | A longer number is printed as its tens, then its last digit |
| Positions.ParseExactlyCanonical | eventstore/sequence_position.go:40-48 | Parse accepts exactly the canonical decimals below 2^64, and printing the result gives the string back |
| Positions.ParseAfterPrint | eventstore/sequence_position.go:31-33 | Parsing a printed number gives it back exactly below 2^64 |
| Positions.BigintRoundTrip | postgres/position.go:16-22 | A position reaches a bigint and returns unchanged exactly below 2^63 |
| Positions.PositionRoundTrip | postgres/position.go:24-30 | A bigint becomes a position exactly when not negative, and returns unchanged |

## Left out

- Connections, the pool, network errors, timeouts and LISTEN/NOTIFY timing: a wait may end at any time, and a failure is an abort, a failed fetch or a failed round.
- Schema, indexes, planner settings, identifier checks and the migration lock.
- Completeness of backwards reads: they take no barrier and make no such promise; their compiled statement and paging are covered.
- JSON encoding: data and metadata are one opaque payload; error texts are reduced to the failed condition and command index.
- The hash: an arbitrary function in every theorem but those of `KeyHash.dfy`, which fixes it on ASCII only.
- Protocol.ValidJob: in the concurrent protocol every condition keeps its meaning once packed (the exact ones are given by Serialize.TranslatesExactly) and no event on the stored-procedure path has the packing delimiter in a tag (COPY events may); for the others LockKeys.StoredCoveredExactly says which stored events the locks still cover.
- Positions are unbounded numbers outside `Positions.dfy`; the end of the bigint sequence and of the uint64 counter is not modelled, and an After of 2^63 or more, on which the Go code panics, is excluded where it becomes a parameter.
- Starvation: the lock manager may serve requests for one key in any order, and which is served is not modelled; nor is the database's own deadlock detector, which aborts one transaction of a cycle.
- Panics of the range-over-func adapter, and closing one iterator from another goroutine.
