/** Append and Read as each runs by itself against the database: what the two
    append paths do to the table and the sequence, statement by statement. */
module PostgresStore {
  import opened EventStore
  import opened Logs
  import opened Packing
  import opened Serialize
  import opened Positions
  import opened LockKeys
  import opened ReadAnswer
  import opened ReadSql
  import opened AppendContract
  import opened MemoryStore
  import opened Protocol
  import A = AtomicStore

  // ----- what an append answers and leaves -----

  lemma VerdictInRange(path: Path, commands: seq<AppendCommand>, log: seq<SequencedEvent>, hwm: nat)
    ensures var v := Verdict(path, ConditionRows(commands), log, hwm);
            v.Some? ==> v.value < |commands| && commands[v.value].condition.Some?
  {
    forall row | row in ConditionRows(commands)
      ensures row.index < |commands| && commands[row.index].condition.Some?
    {
      CommandRow(commands, row);
    }
  }

  function SqlAnswer(path: Path, commands: seq<AppendCommand>, table: map<nat, Event>, last: nat): AppendResult {
    if !ValidConditions(commands) then InvalidCondition
    else if AllEvents(commands) == [] then NoEvents
    else
      VerdictInRange(path, commands, Listing(table, last), last);
      match Verdict(path, ConditionRows(commands), Listing(table, last), last)
      case Some(i) => ConditionFailed(commands[i].condition.value, CommandIndex(commands, i))
      case None => Appended(last + |AllEvents(commands)|)
  }

  /** The table with the events at the positions after `last`, in order. */
  function Extended(table: map<nat, Event>, last: nat, events: seq<Event>): map<nat, Event> {
    if events == [] then table
    else Extended(table, last, events[..|events| - 1])[last + |events| := events[|events| - 1]]
  }

  function TableAfter(path: Path, commands: seq<AppendCommand>, table: map<nat, Event>, last: nat): map<nat, Event> {
    if SqlAnswer(path, commands, table, last).Appended?
    then Extended(table, last, StoredAll(path, AllEvents(commands)))
    else table
  }

  function SequenceAfter(path: Path, commands: seq<AppendCommand>, table: map<nat, Event>, last: nat): nat {
    match SqlAnswer(path, commands, table, last)
    case Appended(position) => position
    case _ => last
  }

  lemma EmptyExtension(table: map<nat, Event>, last: nat)
    ensures Extended(table, last, []) == table
  {}

  lemma ExtendedStep(table: map<nat, Event>, last: nat, events: seq<Event>, i: nat)
    requires i < |events|
    ensures Extended(table, last, events[..i + 1]) == Extended(table, last, events[..i])[last + i + 1 := events[i]]
  {
    assert events[..i + 1][..i] == events[..i];
  }

  lemma {:induction false} ExtendedRow(table: map<nat, Event>, last: nat, events: seq<Event>, p: nat)
    requires forall q <- table :: q <= last
    ensures p in Extended(table, last, events) <==> p in table || last < p <= last + |events|
    ensures p in Extended(table, last, events) ==>
              Extended(table, last, events)[p] == if p <= last then table[p] else events[p - last - 1]
  {
    if events != [] {
      ExtendedRow(table, last, events[..|events| - 1], p);
    }
  }

  lemma ExtendedKeys(table: map<nat, Event>, last: nat, events: seq<Event>)
    requires forall q <- table :: 1 <= q <= last
    ensures forall q <- Extended(table, last, events) :: 1 <= q <= last + |events|
  {
    forall q | q in Extended(table, last, events) ensures 1 <= q <= last + |events| {
      ExtendedRow(table, last, events, q);
    }
  }

  /** An append by itself, in plain terms: bad conditions are refused first, then an append of nothing, then
      violated ones; otherwise every event is stored at its place after the sequence, which moves on past
      the last of them, and no other row changes. */
  ghost predicate SqlAnswered(path: Path, commands: seq<AppendCommand>, table: map<nat, Event>, last: nat,
                              answer: AppendResult, table': map<nat, Event>, last': nat)
  {
    match answer
    case InvalidCondition => SomeUnscoped(commands) && table' == table && last' == last
    case NoEvents => !SomeUnscoped(commands) && NoEventsGiven(commands) && table' == table && last' == last
    case ConditionFailed(condition, index) =>
      && !SomeUnscoped(commands) && !NoEventsGiven(commands)
      && NamesFirstViolated(commands, Listing(table, last), condition, index)
      && table' == table && last' == last
    case Appended(position) =>
      && !SomeUnscoped(commands) && !NoEventsGiven(commands) && NoneViolated(commands, Listing(table, last))
      && position == last' == last + EventsBefore(commands, |commands|)
      && (forall q :: q in table' <==> q in table || last < q <= last')
      && (forall q <- table :: table'[q] == table[q])
      && forall i: nat, j: nat | i < |commands| && j < |commands[i].events| ::
           var q := PlaceOf(commands, last, i, j);
           q in table' && table'[q] == Stored(path, commands[i].events[j])
    case Cancelled => false
  }

  /** The database, with the advisory locks the open transaction holds. */
  class Database {
    const h: Hash
    const copyThreshold: nat
    var lastValue: nat
    var table: map<nat, Event>
    var held: set<Lock>

    ghost predicate Valid()
      reads this
    {
      (forall p <- table :: 1 <= p <= lastValue) && held == {}
    }

    constructor (h: Hash, copyThreshold: nat)
      ensures Valid() && table == map[] && lastValue == 0 && this.h == h && this.copyThreshold == copyThreshold
    {
      this.h := h;
      this.copyThreshold := copyThreshold;
      lastValue, table, held := 0, map[], {};
    }

    method Lock(exclusive: seq<int>, shared: seq<int>)
      modifies `held
      ensures held == Locks(set k <- exclusive, set k <- shared)
    {
      held := Locks(set k <- exclusive, set k <- shared);
    }

    /** One row: the sequence moves on and the row takes its new value. Only under the append's locks. */
    method InsertRow(e: Event, ghost needed: set<LockKeys.Lock>)
      requires needed <= held
      modifies `lastValue, `table
      ensures lastValue == old(lastValue) + 1 && table == old(table)[lastValue := e]
    {
      lastValue := lastValue + 1;
      table := table[lastValue := e];
    }

    /** The stored procedure's check: nothing without rows, one row by itself, more in the check function. */
    method CheckColumns(indexes: seq<nat>, types: seq<string>, tags: seq<string>, after: seq<nat>, hwm: nat,
                        ghost rows: seq<ConditionRow>)
      returns (failed: Option<nat>)
      requires Columns(indexes, types, tags, after, rows)
      ensures failed == Verdict(ViaFunction, rows, Listing(table, lastValue), hwm)
    {
      if |indexes| == 0 {
        return None;
      }
      if |indexes| == 1 {
        var row := ConditionRow(indexes[0], types[0], tags[0], after[0]);
        return if RowHit(row, Listing(table, lastValue), hwm) then Some(row.index) else None;
      }
      return CheckConditions(Zipped(indexes, types, tags, after, rows), Listing(table, lastValue), hwm);
    }

    /** INSERT .. SELECT over the event columns, unpacking the tags. */
    method InsertColumns(types: seq<string>, tags: seq<string>, payloads: seq<string>, ghost events: seq<Event>,
                         ghost needed: set<LockKeys.Lock>)
      requires needed <= held && EventColumns(types, tags, payloads, events)
      modifies `lastValue, `table
      ensures lastValue == old(lastValue) + |events|
      ensures table == Extended(old(table), old(lastValue), StoredAll(ViaFunction, events))
    {
      hide Pack, Unpack;
      hide Extended;
      ghost var stored, hwm := StoredAll(ViaFunction, events), lastValue;
      EmptyExtension(table, hwm);
      assert stored[..0] == [];
      for i := 0 to |types|
        invariant lastValue == hwm + i
        invariant table == Extended(old(table), hwm, stored[..i])
      {
        InsertRow(Event(types[i], Unpack(tags[i]), payloads[i]), needed);
        ExtendedStep(old(table), hwm, stored, i);
      }
      assert stored[..|stored|] == stored;
    }

    /** COPY: the events as they are. */
    method CopyRows(events: seq<Event>, ghost needed: set<LockKeys.Lock>)
      requires needed <= held
      modifies `lastValue, `table
      ensures lastValue == old(lastValue) + |events|
      ensures table == Extended(old(table), old(lastValue), StoredAll(ViaCopy, events))
    {
      hide Values, Extended;
      ghost var stored, hwm := StoredAll(ViaCopy, events), lastValue;
      EmptyExtension(table, hwm);
      assert stored[..0] == [];
      for i := 0 to |events|
        invariant lastValue == hwm + i
        invariant table == Extended(old(table), hwm, stored[..i])
      {
        InsertRow(events[i].(tags := set v <- Values(events[i].tags)), needed);
        ExtendedStep(old(table), hwm, stored, i);
      }
      assert stored[..|stored|] == stored;
    }

    /** The stored procedure: lock, read the mark, check, insert, return the last position. */
    method AppendViaFunction(commands: seq<AppendCommand>, leafX: seq<int>, intentS: seq<int>)
      returns (result: AppendResult)
      requires Valid() && ValidConditions(commands) && AllEvents(commands) != [] && RepresentableAfters(commands)
      requires Locks(set k <- leafX, set k <- intentS) == AppendLocks(h, commands)
      modifies `lastValue, `table, `held
      ensures Valid()
      ensures result == SqlAnswer(ViaFunction, commands, old(table), old(lastValue))
      ensures table == TableAfter(ViaFunction, commands, old(table), old(lastValue))
      ensures lastValue == SequenceAfter(ViaFunction, commands, old(table), old(lastValue))
    {
      hide Verdict, Listing, Extended, ConditionRows, AppendLocks;
      var types, tags, payloads := SerializeEvents(commands);
      var indexes, condTypes, condTags, after := SerializeConditions(commands);
      Lock(leafX, intentS);
      var hwm := lastValue;
      VerdictInRange(ViaFunction, commands, Listing(table, hwm), hwm);
      var failed := CheckColumns(indexes, condTypes, condTags, after, hwm, ConditionRows(commands));
      if failed.Some? {
        held := {};
        return ConditionError(commands, failed.value);
      }
      InsertColumns(types, tags, payloads, AllEvents(commands), AppendLocks(h, commands));
      ExtendedKeys(old(table), hwm, StoredAll(ViaFunction, AllEvents(commands)));
      held := {};
      return Appended(lastValue);
    }

    /** The COPY path: the same steps as separate statements, with the events streamed as they are. */
    method AppendViaCopy(commands: seq<AppendCommand>, leafX: seq<int>, intentS: seq<int>)
      returns (result: AppendResult)
      requires Valid() && ValidConditions(commands) && AllEvents(commands) != [] && RepresentableAfters(commands)
      requires Locks(set k <- leafX, set k <- intentS) == AppendLocks(h, commands)
      modifies `lastValue, `table, `held
      ensures Valid()
      ensures result == SqlAnswer(ViaCopy, commands, old(table), old(lastValue))
      ensures table == TableAfter(ViaCopy, commands, old(table), old(lastValue))
      ensures lastValue == SequenceAfter(ViaCopy, commands, old(table), old(lastValue))
    {
      hide Verdict, Listing, Extended, ConditionRows, AppendLocks;
      Lock(leafX, intentS);
      var hwm := lastValue;
      VerdictInRange(ViaCopy, commands, Listing(table, hwm), hwm);
      var failed := CheckCommands(commands, hwm);
      if failed.Some? {
        held := {};
        return ConditionError(commands, failed.value);
      }
      var events := Flattened(commands);
      CopyRows(events, AppendLocks(h, commands));
      ExtendedKeys(old(table), hwm, StoredAll(ViaCopy, events));
      held := {};
      return Appended(lastValue);
    }

    /** checkConditions of the COPY path: nothing to check without rows. */
    method CheckCommands(commands: seq<AppendCommand>, hwm: nat) returns (failed: Option<nat>)
      requires RepresentableAfters(commands)
      ensures failed == Verdict(ViaCopy, ConditionRows(commands), Listing(table, lastValue), hwm)
    {
      var indexes, types, tags, after := SerializeConditions(commands);
      if |indexes| == 0 {
        return None;
      }
      return CheckConditions(Zipped(indexes, types, tags, after, ConditionRows(commands)),
                             Listing(table, lastValue), hwm);
    }

    /** Append: validate, gather the keys of all commands, route by the number of events. */
    method Append(commands: seq<AppendCommand>) returns (result: AppendResult)
      requires Valid() && RepresentableAfters(commands)
      modifies `lastValue, `table, `held
      ensures Valid()
      ensures var path := if |AllEvents(commands)| <= copyThreshold then ViaFunction else ViaCopy;
              && result == SqlAnswer(path, commands, old(table), old(lastValue))
              && table == TableAfter(path, commands, old(table), old(lastValue))
              && lastValue == SequenceAfter(path, commands, old(table), old(lastValue))
              && (FaithfulConditions(commands) ==>
                    SqlAnswered(path, commands, old(table), old(lastValue), result, table, lastValue))
    {
      if FaithfulConditions(commands) {
        SqlAnswersPlainly(ViaFunction, commands, table, lastValue);
        SqlAnswersPlainly(ViaCopy, commands, table, lastValue);
      }
      hide SqlAnswered, FaithfulConditions;
      hide ValidConditions, AllEvents, Verdict, Listing, Extended, ConditionRows, AppendLocks;
      var valid := ValidateConditions(commands);
      if !valid {
        return InvalidCondition;
      }
      var totalEvents, leafX, intentS := GatherKeys(h, commands);
      if totalEvents == 0 {
        return NoEvents;
      }
      if totalEvents <= copyThreshold {
        result := AppendViaFunction(commands, leafX, intentS);
      } else {
        result := AppendViaCopy(commands, leafX, intentS);
      }
    }

    /** Read: the barrier's mark first, unless reading backwards; then the compiled statement. */
    method Read(query: Query, options: ReadOptions) returns (rows: seq<SequencedEvent>)
      requires Valid() && (options.after.Some? ==> options.after.value < INT64_LIMIT)
      modifies `held
      ensures Valid()
      ensures rows == ReadResult(Listing(table, lastValue), Overlap, query, options,
                                 if options.backwards then None else Some(lastValue))
      ensures Answers(rows, Listing(table, lastValue), Overlap, query, options,
                      if options.backwards then None else Some(lastValue))
    {
      var upperBound: Option<nat> := None;
      if !options.backwards {
        var leafS, intentX := ComputeReaderLockKeys(h, query);
        Lock(intentX, leafS);
        assert held == BarrierLocks(h, query);
        upperBound := Some(lastValue);
        held := {};
      }
      var statement, args := BuildReadSql(query, options, upperBound);
      ListingAscending(table, lastValue);
      rows := Execute(statement, args, Listing(table, lastValue)).value;
    }
  }

  function ConditionError(commands: seq<AppendCommand>, i: nat): AppendResult
    requires i < |commands| && commands[i].condition.Some?
  {
    ConditionFailed(commands[i].condition.value, CommandIndex(commands, i))
  }

  /** unnest over the four columns. */
  function Zipped(indexes: seq<nat>, types: seq<string>, tags: seq<string>, after: seq<nat>,
                  ghost rows: seq<ConditionRow>): (zipped: seq<ConditionRow>)
    requires Columns(indexes, types, tags, after, rows)
    ensures zipped == rows
  {
    seq(|indexes|, i requires 0 <= i < |indexes| => ConditionRow(indexes[i], types[i], tags[i], after[i]))
  }

  method Flattened(commands: seq<AppendCommand>) returns (events: seq<Event>)
    ensures events == AllEvents(commands)
  {
    events := [];
    for i := 0 to |commands|
      invariant events == AllEvents(commands[..i])
    {
      AllEventsStep(commands, i);
      events := events + commands[i].events;
    }
    assert commands[..|commands|] == commands;
  }

  method GatherKeys(h: Hash, commands: seq<AppendCommand>)
    returns (totalEvents: nat, leafX: seq<int>, intentS: seq<int>)
    ensures totalEvents == |AllEvents(commands)|
    ensures Locks(set k <- leafX, set k <- intentS) == AppendLocks(h, commands)
  {
    hide WriterLeafKeys, WriterIntentKeys, AllEvents;
    totalEvents := 0;
    assert AllEvents([]) == [] by { EmptyEvents(); }
    var leaf: set<int>, intent: set<int> := {}, {};
    for i := 0 to |commands|
      invariant totalEvents == |AllEvents(commands[..i])|
      invariant leaf == set c <- commands[..i], k <- WriterLeafKeys(h, c.events, c.condition) :: k
      invariant intent == set c <- commands[..i], k <- WriterIntentKeys(h, c.events) :: k
    {
      AllEventsStep(commands, i);
      totalEvents := totalEvents + |commands[i].events|;
      var l, s := ComputeWriterLockKeys(h, commands[i].events, commands[i].condition);
      leaf := leaf + set k <- l;
      intent := intent + set k <- s;
      assert commands[..i + 1] == commands[..i] + [commands[i]];
    }
    assert commands[..|commands|] == commands;
    leafX := KeysOf(leaf);
    intentS := KeysOf(intent);
    assert (set k <- leafX) == leaf && (set k <- intentS) == intent;
  }

  // ----- the two paths -----

  /** Both paths answer alike, whatever the tags; and from the same table they leave the same table
      exactly when they refuse, or when no event's tag contains the delimiter. */
  lemma PathsAgree(commands: seq<AppendCommand>, table: map<nat, Event>, last: nat)
    requires forall q <- table :: q <= last
    requires forall e <- AllEvents(commands) :: "" !in e.tags
    ensures SqlAnswer(ViaFunction, commands, table, last) == SqlAnswer(ViaCopy, commands, table, last)
    ensures SequenceAfter(ViaFunction, commands, table, last) == SequenceAfter(ViaCopy, commands, table, last)
    ensures TableAfter(ViaFunction, commands, table, last) == TableAfter(ViaCopy, commands, table, last) <==>
              || !SqlAnswer(ViaCopy, commands, table, last).Appended?
              || forall e <- AllEvents(commands) :: CleanTags(e.tags)
  {
    hide Verdict, Listing, ConditionRows, AllEvents, Extended, Stored, CleanTags, CommandIndex, ValidConditions;
    PathsCheckAlike(ConditionRows(commands), Listing(table, last), last);
    var events := AllEvents(commands);
    var f, c := StoredAll(ViaFunction, events), StoredAll(ViaCopy, events);
    if forall e <- events :: CleanTags(e.tags) {
      forall i | 0 <= i < |events| ensures f[i] == c[i] {
        StoredUnchanged(ViaFunction, events[i]);
        StoredUnchanged(ViaCopy, events[i]);
      }
      assert f == c;
    } else {
      var e :| e in events && !CleanTags(e.tags);
      var i :| 0 <= i < |events| && events[i] == e;
      StoredUnchanged(ViaFunction, e);
      StoredUnchanged(ViaCopy, e);
      ExtendedRow(table, last, f, last + 1 + i);
      ExtendedRow(table, last, c, last + 1 + i);
    }
  }

  lemma UpToAll(table: map<nat, Event>, last: nat)
    ensures UpTo(Listing(table, last), last) == Listing(table, last)
  {
    var log := Listing(table, last);
    ListingAscending(table, last);
    SelectAscending(log, Filter(Superset, All, false, None, Some(last)));
    forall row ensures row in UpTo(log, last) <==> row in log {
      RowUpTo(log, last, row);
      ListedRow(table, last, row);
    }
    AscendingUnique(UpTo(log, last), log);
  }

  lemma {:induction false} ListingExtended(table: map<nat, Event>, last: nat, events: seq<Event>)
    requires forall q <- table :: q <= last
    ensures Listing(Extended(table, last, events), last + |events|) == Listing(table, last) + Numbered(events, last)
  {
    var log, log' := Listing(table, last), Listing(Extended(table, last, events), last + |events|);
    var rows := Numbered(events, last);
    ListingAscending(table, last);
    ListingAscending(Extended(table, last, events), last + |events|);
    forall row | row in log ensures row.position <= last {
      ListedRow(table, last, row);
    }
    forall row ensures row in log' <==> row in log + rows {
      ListedRow(table, last, row);
      ListedRow(Extended(table, last, events), last + |events|, row);
      ExtendedRow(table, last, events, row.position);
      if last < row.position <= last + |events| {
        assert rows[row.position - last - 1].position == row.position;
      }
    }
    AscendingUnique(log', log + rows);
  }

  lemma VerdictAlone(path: Path, commands: seq<AppendCommand>, table: map<nat, Event>, last: nat)
    requires FaithfulConditions(commands) && ValidConditions(commands)
    ensures Verdict(path, ConditionRows(commands), Listing(table, last), last)
         == FirstViolation(commands, Listing(table, last))
  {
    hide Verdict, Listing, ConditionRows, FaithfulConditions, FirstViolation, ValidCondition;
    forall row | row in Listing(table, last) ensures row.position >= 1 {
      ListedRow(table, last, row);
    }
    TranslationPreservesMeaning(path, commands, Listing(table, last), last);
    UpToAll(table, last);
  }

  lemma StoredAtPlace(path: Path, commands: seq<AppendCommand>, table: map<nat, Event>, last: nat, i: nat, j: nat)
    requires i < |commands| && j < |commands[i].events| && forall q <- table :: q <= last
    ensures var q, table' := PlaceOf(commands, last, i, j),
                             Extended(table, last, StoredAll(path, AllEvents(commands)));
            q in table' && table'[q] == Stored(path, commands[i].events[j])
  {
    hide AllEvents, EventsBefore, Extended, Stored;
    EventAt(commands, i, j);
    ExtendedRow(table, last, StoredAll(path, AllEvents(commands)), PlaceOf(commands, last, i, j));
  }

  lemma ExtensionOnly(table: map<nat, Event>, last: nat, events: seq<Event>)
    requires forall q <- table :: q <= last
    ensures var table' := Extended(table, last, events);
            && (forall q :: q in table' <==> q in table || last < q <= last + |events|)
            && forall q <- table :: table'[q] == table[q]
  {
    hide Extended;
    var table' := Extended(table, last, events);
    forall q: nat
      ensures q in table' <==> q in table || last < q <= last + |events|
      ensures q in table ==> table'[q] == table[q]
    {
      ExtendedRow(table, last, events, q);
    }
  }

  /** What the specification of an append by itself says, in plain terms. */
  lemma SqlAnswersPlainly(path: Path, commands: seq<AppendCommand>, table: map<nat, Event>, last: nat)
    requires FaithfulConditions(commands) && forall q <- table :: q <= last
    ensures SqlAnswered(path, commands, table, last, SqlAnswer(path, commands, table, last),
                        TableAfter(path, commands, table, last), SequenceAfter(path, commands, table, last))
  {
    hide AllEvents, EventsBefore, FirstViolation, ValidConditions, Violates, SomeUnscoped, NoneViolated, Extended;
    hide NamesFirstViolated, NoEventsGiven, PlaceOf, Verdict, ConditionRows, Listing, Stored, FaithfulConditions;
    ValidUnlessUnscoped(commands);
    NoEventsIffNone(commands);
    if ValidConditions(commands) {
      VerdictAlone(path, commands, table, last);
      NoneIfNoFirst(commands, Listing(table, last));
      CountedBefore(commands, |commands|);
      match FirstViolation(commands, Listing(table, last)) {
        case Some(_) => FailureNamed(commands, Listing(table, last));
        case None =>
          ExtensionOnly(table, last, StoredAll(path, AllEvents(commands)));
          forall i: nat, j: nat | i < |commands| && j < |commands[i].events|
            ensures var q, table' := PlaceOf(commands, last, i, j),
                                     Extended(table, last, StoredAll(path, AllEvents(commands)));
                    q in table' && table'[q] == Stored(path, commands[i].events[j])
          {
            StoredAtPlace(path, commands, table, last, i, j);
          }
      }
    }
  }

  /** An append by itself, on either path, answers as the in-memory store on the same log, exactly where a
      condition is invalid; or there is no event and no violation; or there are events and either a
      violation or no position burned at the log's end. */
  lemma SameAnswerExactly(path: Path, commands: seq<AppendCommand>, table: map<nat, Event>, last: nat)
    requires FaithfulConditions(commands)
    ensures var log := Listing(table, last);
            SqlAnswer(path, commands, table, last) == AppendAnswer(commands, log) <==>
              || !ValidConditions(commands)
              || if AllEvents(commands) == [] then FirstViolation(commands, log) == None
                 else FirstViolation(commands, log).Some? || last == LastPosition(log)
  {
    hide Verdict, Listing, ConditionRows, AllEvents, FaithfulConditions, FirstViolation, ValidConditions;
    if ValidConditions(commands) {
      VerdictAlone(path, commands, table, last);
    }
  }

  /** It leaves the log that the in-memory store leaves, exactly where nothing is appended or no position
      is burned at the log's end. */
  lemma SameLogExactly(path: Path, commands: seq<AppendCommand>, table: map<nat, Event>, last: nat)
    requires FaithfulConditions(commands) && StoredAsGiven(path, commands)
    requires forall q <- table :: 1 <= q <= last
    ensures var log := Listing(table, last);
            Listing(TableAfter(path, commands, table, last), SequenceAfter(path, commands, table, last))
            == LogAfter(commands, log)
            <==> !AppendAnswer(commands, log).Appended? || last == LastPosition(log)
  {
    hide Verdict, Listing, ConditionRows, AllEvents, Extended, FaithfulConditions, FirstViolation, ValidConditions;
    hide StoredAsGiven;
    if ValidConditions(commands) {
      var log, events := Listing(table, last), AllEvents(commands);
      VerdictAlone(path, commands, table, last);
      AllStoredAsGiven(path, commands);
      ListingExtended(table, last, events);
      if events != [] {
        assert (log + Numbered(events, last))[|log|].position == last + 1;
        assert (log + Numbered(events, LastPosition(log)))[|log|].position == LastPosition(log) + 1;
      }
    }
  }

  /** With no events to append and a violated condition, memory reports the violation and Postgres the
      missing events: here on a table of one event. */
  lemma NoEventsAnsweredApart(path: Path)
    ensures var condition := AppendCondition(Items([QueryItem(["A"], {"t"})]), None);
            var commands, table := [AppendCommand([], Some(condition))], map[1 := Event("A", {"t"}, "")];
            && SqlAnswer(path, commands, table, 1) == NoEvents
            && AppendAnswer(commands, Listing(table, 1)) == ConditionFailed(condition, None)
  {
    var item, e := QueryItem(["A"], {"t"}), Event("A", {"t"}, "");
    var condition := AppendCondition(Items([item]), None);
    var commands, table := [AppendCommand([], Some(condition))], map[1 := e];
    assert AllEvents(commands) == [] by { assert commands[..0] == []; }
    assert item in condition.failIfEventsMatch.items && "A" in item.types && MatchesItem(item, e);
    ListedRow(table, 1, SequencedEvent(e, 1));
    assert Offends(condition, SequencedEvent(e, 1));
    assert Violates(commands[0], Listing(table, 1));
  }

  /** Rows at the positions after the last are one atomic append to an unviolated log. */
  lemma NumberedAccepts(commands: seq<AppendCommand>, table: map<nat, Event>, last: nat)
    requires AllEvents(commands) != [] && FirstViolation(commands, Listing(table, last)) == None
    requires forall q <- table :: 1 <= q <= last
    ensures A.Accepts(Listing(table, last), commands, PositionsOf(Numbered(AllEvents(commands), last)),
                      Listing(Extended(table, last, AllEvents(commands)), last + |AllEvents(commands)|))
  {
    hide FirstViolation, AllEvents, Listing, Extended;
    var events := AllEvents(commands);
    var rows := Numbered(events, last);
    var positions := PositionsOf(rows);
    ListingExtended(table, last, events);
    ListingAscending(Extended(table, last, events), last + |events|);
    assert A.Rows(events, positions) == rows;
    forall row | row in Listing(table, last) ensures row.position !in positions {
      ListedRow(table, last, row);
    }
  }

  lemma AppendedFacts(path: Path, commands: seq<AppendCommand>, table: map<nat, Event>, last: nat)
    requires SqlAnswer(path, commands, table, last).Appended?
    ensures ValidConditions(commands) && AllEvents(commands) != []
    ensures Verdict(path, ConditionRows(commands), Listing(table, last), last) == None
    ensures SqlAnswer(path, commands, table, last).position == last + |AllEvents(commands)|
    ensures TableAfter(path, commands, table, last) == Extended(table, last, StoredAll(path, AllEvents(commands)))
  {
    hide Verdict, Listing, ConditionRows, AllEvents, Extended, ValidConditions, StoredAll;
  }

  /** Numbered rows start just above the mark and end at the last position drawn. */
  lemma NumberedEnds(events: seq<Event>, last: nat)
    requires events != []
    ensures var rows := Numbered(events, last);
            rows != [] && rows[0].position == last + 1 && rows[|rows| - 1].position == last + |events|
  {}

  /** With burned positions too, an accepted append by itself is one atomic append at the positions just
      above the mark, and returns the last of them. */
  lemma AcceptedAlone(path: Path, commands: seq<AppendCommand>, table: map<nat, Event>, last: nat)
    requires FaithfulConditions(commands) && StoredAsGiven(path, commands)
    requires forall q <- table :: 1 <= q <= last
    requires SqlAnswer(path, commands, table, last).Appended?
    ensures var position, rows := SqlAnswer(path, commands, table, last).position, Numbered(AllEvents(commands), last);
            && rows != [] && rows[0].position == last + 1 && rows[|rows| - 1].position == position
            && A.Accepts(Listing(table, last), commands, PositionsOf(rows),
                         Listing(TableAfter(path, commands, table, last), position))
  {
    hide *;
    AppendedFacts(path, commands, table, last);
    VerdictAlone(path, commands, table, last);
    AllStoredAsGiven(path, commands);
    NumberedAccepts(commands, table, last);
    NumberedEnds(AllEvents(commands), last);
  }

  /** A refused append by itself names the first command that the whole log violates. */
  lemma RefusedAlone(path: Path, commands: seq<AppendCommand>, table: map<nat, Event>, last: nat)
    requires FaithfulConditions(commands) && forall q <- table :: 1 <= q <= last
    requires SqlAnswer(path, commands, table, last).ConditionFailed?
    ensures exists i :: 0 <= i < |commands| && A.Refuses(Listing(table, last), commands, i)
              && SqlAnswer(path, commands, table, last)
              == ConditionFailed(commands[i].condition.value, if |commands| > 1 then Some(i) else None)
  {
    hide Verdict, Listing, ConditionRows, AllEvents, Extended, FaithfulConditions, FirstViolation, ValidCondition;
    VerdictAlone(path, commands, table, last);
    VerdictInRange(path, commands, Listing(table, last), last);
    assert A.Refuses(Listing(table, last), commands,
                     Verdict(path, ConditionRows(commands), Listing(table, last), last).value);
  }
}
