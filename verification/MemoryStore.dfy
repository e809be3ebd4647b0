/** The in-memory store and its iterators. */
module MemoryStore {
  import opened EventStore
  import opened Logs
  import opened Matching
  import opened AppendContract
  import opened AtomicStore
  import opened ReadAnswer

  function LastPosition(log: seq<SequencedEvent>): nat {
    if log == [] then 0 else log[|log| - 1].position
  }

  /** The events at the consecutive positions after `counter`. */
  function Numbered(events: seq<Event>, counter: nat): (rows: seq<SequencedEvent>)
    ensures |rows| == |events|
    ensures forall i :: 0 <= i < |events| ==> rows[i] == SequencedEvent(events[i], counter + 1 + i)
  {
    seq(|events|, i requires 0 <= i < |events| => SequencedEvent(events[i], counter + 1 + i))
  }

  function PositionsOf(rows: seq<SequencedEvent>): (positions: seq<nat>)
    ensures |positions| == |rows| && forall i :: 0 <= i < |rows| ==> positions[i] == rows[i].position
  {
    seq(|rows|, i requires 0 <= i < |rows| => rows[i].position)
  }

  function CommandIndex(commands: seq<AppendCommand>, i: nat): Option<nat> {
    if |commands| > 1 then Some(i) else None
  }

  /** What an append answers, given the log it meets. */
  function AppendAnswer(commands: seq<AppendCommand>, log: seq<SequencedEvent>): AppendResult {
    if !ValidConditions(commands) then InvalidCondition
    else match FirstViolation(commands, log)
      case Some(i) => ConditionFailed(commands[i].condition.value, CommandIndex(commands, i))
      case None =>
        if AllEvents(commands) == [] then NoEvents
        else Appended(LastPosition(log) + |AllEvents(commands)|)
  }

  /** The log an append leaves. */
  function LogAfter(commands: seq<AppendCommand>, log: seq<SequencedEvent>): seq<SequencedEvent> {
    if AppendAnswer(commands, log).Appended?
    then log + Numbered(AllEvents(commands), LastPosition(log))
    else log
  }

  lemma LastIsGreatest(log: seq<SequencedEvent>)
    requires Ascending(log)
    ensures forall row <- log :: row.position <= LastPosition(log)
  {}

  /** Rows numbered on from the last are one atomic append to an unviolated log. */
  lemma NumberedOn(commands: seq<AppendCommand>, log: seq<SequencedEvent>)
    requires Ascending(log) && FirstViolation(commands, log) == None && AllEvents(commands) != []
    ensures var rows := Numbered(AllEvents(commands), LastPosition(log));
            Ascending(log + rows) && Accepts(log, commands, PositionsOf(rows), log + rows)
  {
    hide FirstViolation, AllEvents;
    LastIsGreatest(log);
    var rows := Numbered(AllEvents(commands), LastPosition(log));
    assert Rows(AllEvents(commands), PositionsOf(rows)) == rows;
  }

  /** The refusal of the specification, with the index only among several commands. */
  ghost predicate RefusedAtFirst(commands: seq<AppendCommand>, log: seq<SequencedEvent>, condition: AppendCondition,
                                 index: Option<nat>)
  {
    exists i :: 0 <= i < |commands| && Refuses(log, commands, i)
      && commands[i].condition == Some(condition) && index == if |commands| > 1 then Some(i) else None
  }

  lemma FailureNames(commands: seq<AppendCommand>, log: seq<SequencedEvent>, condition: AppendCondition,
                     index: Option<nat>)
    requires AppendAnswer(commands, log) == ConditionFailed(condition, index)
    ensures RefusedAtFirst(commands, log, condition, index)
  {
    var i := FirstViolation(commands, log).value;
    assert Refuses(log, commands, i) && commands[i].condition == Some(condition);
  }

  /** An accepted in-memory append is one atomic append of the specification. */
  lemma AppendIsAtomic(commands: seq<AppendCommand>, log: seq<SequencedEvent>)
    requires Ascending(log)
    ensures Ascending(LogAfter(commands, log))
    ensures var answer, rows := AppendAnswer(commands, log), Numbered(AllEvents(commands), LastPosition(log));
            && (answer.Appended? ==>
                  && Accepts(log, commands, PositionsOf(rows), LogAfter(commands, log))
                  && rows != [] && answer.position == rows[|rows| - 1].position)
            && (answer.ConditionFailed? ==> RefusedAtFirst(commands, log, answer.condition, answer.commandIndex))
            && (!answer.Appended? ==> LogAfter(commands, log) == log)
  {
    hide FirstViolation, AllEvents, ValidConditions, Accepts, Violates, RefusedAtFirst;
    match AppendAnswer(commands, log) {
      case Appended(_) => NumberedOn(commands, log);
      case ConditionFailed(condition, index) =>
        FailureNames(commands, log, condition, index);
      case _ =>
    }
  }

  lemma AppendKeepsOrder(commands: seq<AppendCommand>, log: seq<SequencedEvent>)
    requires Ascending(log)
    ensures Ascending(LogAfter(commands, log))
  {
    hide AppendAnswer, LogAfter, AllEvents, Ascending;
    AppendIsAtomic(commands, log);
  }

  lemma FailureNamed(commands: seq<AppendCommand>, log: seq<SequencedEvent>)
    requires FirstViolation(commands, log).Some?
    ensures var i := FirstViolation(commands, log).value;
            && commands[i].condition.Some?
            && NamesFirstViolated(commands, log, commands[i].condition.value, CommandIndex(commands, i))
  {
    hide Offends;
  }

  lemma EventsPlaced(commands: seq<AppendCommand>, last: nat, i: nat, j: nat)
    requires i < |commands| && j < |commands[i].events|
    ensures var rows := Numbered(AllEvents(commands), last);
            && |rows| == EventsBefore(commands, |commands|) && EventsBefore(commands, i) + j < |rows|
            && rows[EventsBefore(commands, i) + j]
            == SequencedEvent(commands[i].events[j], PlaceOf(commands, last, i, j))
  {
    hide AllEvents, EventsBefore;
    EventAt(commands, i, j);
    CountedBefore(commands, |commands|);
  }

  /** The append specification says what an append promises in plain terms. */
  lemma AnswersPlainly(commands: seq<AppendCommand>, log: seq<SequencedEvent>)
    ensures Answered(commands, log, AppendAnswer(commands, log), LogAfter(commands, log))
  {
    hide AllEvents, EventsBefore, FirstViolation, ValidConditions, Violates, SomeUnscoped, NoneViolated;
    hide NamesFirstViolated, NoEventsGiven, PlaceOf;
    ValidUnlessUnscoped(commands);
    NoEventsIffNone(commands);
    NoneIfNoFirst(commands, log);
    CountedBefore(commands, |commands|);
    match AppendAnswer(commands, log) {
      case ConditionFailed(condition, index) =>
        FailureNamed(commands, log);
        assert NamesFirstViolated(commands, log, condition, index);
        assert LogAfter(commands, log) == log;
      case Appended(_) =>
        var last, rows := LastOfLog(log), Numbered(AllEvents(commands), LastOfLog(log));
        assert LogAfter(commands, log) == log + rows;
        forall i: nat, j: nat | i < |commands| && j < |commands[i].events|
          ensures |log| + EventsBefore(commands, i) + j < |log + rows|
               && (log + rows)[|log| + EventsBefore(commands, i) + j]
               == SequencedEvent(commands[i].events[j], PlaceOf(commands, last, i, j))
        {
          EventsPlaced(commands, last, i, j);
        }
      case _ =>
    }
  }

  /** Go's `chan struct{}`, used only for its closing. */
  class Channel {
    var closed: bool

    constructor ()
      ensures !closed
    {
      closed := false;
    }
  }

  lemma ViolatesIff(command: AppendCommand, log: seq<SequencedEvent>)
    requires command.condition.Some?
    ensures var c := command.condition.value;
            Violates(command, log) <==> exists row <- log :: Offends(AppendCondition(c.failIfEventsMatch, c.after), row)
  {
    var c := command.condition.value;
    assert c == AppendCondition(c.failIfEventsMatch, c.after);
  }

  method ValidateConditions(commands: seq<AppendCommand>) returns (valid: bool)
    ensures valid <==> ValidConditions(commands)
  {
    for i := 0 to |commands|
      invariant forall j :: 0 <= j < i ==> commands[j].condition.Some? ==> ValidCondition(commands[j].condition.value)
    {
      if commands[i].condition.Some? && !ValidCondition(commands[i].condition.value) {
        return false;
      }
    }
    return true;
  }

  method NumberEvents(events: seq<Event>, start: nat) returns (rows: seq<SequencedEvent>)
    ensures rows == Numbered(events, start)
  {
    rows := [];
    var counter := start;
    for j := 0 to |events|
      invariant counter == start + j && rows == Numbered(events[..j], start)
    {
      counter := counter + 1;
      rows := rows + [SequencedEvent(events[j], counter)];
    }
    assert events[..|events|] == events;
  }

  /** The loop over the commands: each condition is checked against the log as it was before the call, and
      each command's events are numbered on from the last. */
  method CheckAndNumber(commands: seq<AppendCommand>, existing: seq<SequencedEvent>, start: nat)
    returns (failure: Option<AppendResult>, newEvents: seq<SequencedEvent>)
    ensures match FirstViolation(commands, existing)
            case None => failure == None && newEvents == Numbered(AllEvents(commands), start)
            case Some(i) =>
              failure == Some(ConditionFailed(commands[i].condition.value, CommandIndex(commands, i)))
  {
    hide AllEvents, Violates, Offends;
    EmptyEvents();
    assert commands[..0] == [];
    var counter := start;
    newEvents := [];
    for i := 0 to |commands|
      invariant forall j :: 0 <= j < i ==> !Violates(commands[j], existing)
      invariant newEvents == Numbered(AllEvents(commands[..i]), start)
      invariant counter == start + |newEvents|
    {
      var command := commands[i];
      ViolatesOnlyConditioned(command, existing);
      if command.condition.Some? {
        var condition := command.condition.value;
        var found := AnyMatchAfter(existing, condition.failIfEventsMatch, condition.after);
        ViolatesIff(command, existing);
        if found {
          return Some(ConditionFailed(condition, if |commands| > 1 then Some(i) else None)), [];
        }
      }
      var rows := NumberEvents(command.events, counter);
      counter := counter + |rows|;
      newEvents := newEvents + rows;
      AllEventsStep(commands, i);
      assert newEvents == Numbered(AllEvents(commands[..i]) + command.events, start);
    }
    assert commands[..|commands|] == commands;
    failure := None;
  }

  lemma ViolatesOnlyConditioned(command: AppendCommand, log: seq<SequencedEvent>)
    ensures Violates(command, log) ==> command.condition.Some?
  {}

  class Store {
    var events: seq<SequencedEvent>
    var broadcast: Channel

    ghost predicate Valid()
      reads this, broadcast
    {
      Ascending(events) && !broadcast.closed
    }

    constructor (initialEvents: seq<SequencedEvent>)
      requires Ascending(initialEvents)
      ensures Valid() && events == initialEvents && fresh(broadcast)
    {
      events := initialEvents;
      broadcast := new Channel();
    }

    method Append(commands: seq<AppendCommand>, cancelled: bool) returns (result: AppendResult)
      requires Valid()
      modifies this, broadcast
      ensures Valid()
      ensures cancelled ==> result == Cancelled && events == old(events)
      ensures !cancelled ==> result == AppendAnswer(commands, old(events)) && events == LogAfter(commands, old(events))
      ensures !cancelled ==> Answered(commands, old(events), result, events)
      // A change of the log, and nothing else, closes the channel and opens a new one.
      ensures result.Appended? ==> old(broadcast).closed && fresh(broadcast)
      ensures !result.Appended? ==> broadcast == old(broadcast) && !broadcast.closed
    {
      hide Answered, AllEvents, FirstViolation, Ascending, ValidConditions, Violates, Numbered, CommandIndex;
      if cancelled {
        return Cancelled;
      }
      AnswersPlainly(commands, events);
      var valid := ValidateConditions(commands);
      if !valid {
        return InvalidCondition;
      }
      var existing := events;
      var failure, newEvents := CheckAndNumber(commands, existing, LastPosition(existing));
      if failure.Some? {
        return failure.value;
      }
      if |newEvents| == 0 {
        return NoEvents;
      }
      AppendKeepsOrder(commands, existing);
      events := events + newEvents;
      broadcast.closed := true;
      broadcast := new Channel();
      return Appended(newEvents[|newEvents| - 1].position);
    }

    method Read(query: Query, options: ReadOptions, cancelled: bool) returns (it: Option<SliceIterator>)
      requires Valid()
      ensures cancelled <==> it == None
      ensures !cancelled ==>
                && fresh(it.value) && it.value.Valid() && it.value.idx == 0
                && it.value.events == ReadResult(events, Superset, query, options, None)
                && Answers(it.value.events, events, Superset, query, options, None)
    {
      if cancelled {
        return None;
      }
      var result := MatchingEvents(events, query, options);
      var slice := new SliceIterator(result);
      return Some(slice);
    }

    method Subscribe(query: Query, after: Option<nat>, cancelled: bool) returns (it: Option<SubscribeIterator>)
      requires Valid()
      ensures cancelled <==> it == None
      ensures !cancelled ==>
                && fresh(it.value) && it.value.Valid() && it.value.store == this && it.value.query == query
                && it.value.start == (if after.Some? then after.value else 0)
                && it.value.delivered == []
    {
      if cancelled {
        return None;
      }
      var position := 0;
      if after.Some? {
        position := after.value;
      }
      var subscription := new SubscribeIterator(this, query, position);
      return Some(subscription);
    }
  }

  /** Read's iterator: a fixed, already computed result. */
  class SliceIterator {
    const events: seq<SequencedEvent>
    var idx: nat

    ghost predicate Valid()
      reads this
    {
      idx <= |events|
    }

    constructor (events: seq<SequencedEvent>)
      ensures Valid() && this.events == events && idx == 0
    {
      this.events := events;
      idx := 0;
    }

    method Next() returns (more: bool)
      requires Valid()
      modifies this
      ensures Valid()
      ensures more <==> old(idx) < |events|
      ensures idx == if more then old(idx) + 1 else old(idx)
    {
      if idx >= |events| {
        return false;
      }
      idx := idx + 1;
      return true;
    }

    function Event(): SequencedEvent
      requires Valid() && idx > 0
      reads this
    {
      events[idx - 1]
    }
  }

  /** The filter of a subscription that has got as far as `position`. */
  function Following(query: Query, position: nat): Filter {
    From(Superset, query, position, None)
  }

  /** Having delivered what the first `seen` rows select, what remains is what a read that resumes finds. */
  lemma ResumeAtLast(log: seq<SequencedEvent>, query: Query, start: nat, seen: nat, position: nat)
    requires Ascending(log) && seen <= |log|
    requires var done := Select(log[..seen], Following(query, start));
             position == if done == [] then start else done[|done| - 1].position
    ensures Select(log, Following(query, start))
         == Select(log[..seen], Following(query, start)) + Select(log, Following(query, position))
  {
    assert log == log[..seen] + log[seen..];
    SelectConcat(log[..seen], log[seen..], Following(query, start));
    Resume(log, Superset, query, start, None, Select(log[..seen], Following(query, start)), position);
  }

  /** The next row of a selection is the first match after the last. */
  lemma NextSelected(log: seq<SequencedEvent>, seen: nat, query: Query, start: nat, k: nat, position: nat)
    requires Ascending(log) && seen <= |log| && k < |Select(log[..seen], Following(query, start))|
    requires var all := Select(log[..seen], Following(query, start));
             position == if k == 0 then start else all[k - 1].position
    ensures var row := Select(log[..seen], Following(query, start))[k];
            && row in log && row.position > position && MatchesQuery(query, row.event)
            && forall r <- log | position < r.position < row.position :: !MatchesQuery(query, r.event)
  {
    hide MatchesQuery, Select;
    var f := Following(query, start);
    var all := Select(log[..seen], f);
    SelectAscending(log[..seen], f);
    SelectedRow(log[..seen], f, all[k]);
    assert all[k] in all;
    if k > 0 {
      SelectedRow(log[..seen], f, all[k - 1]);
      AscendingAt(all, k - 1, k);
    }
    forall r | r in log && position < r.position < all[k].position ensures !MatchesQuery(query, r.event) {
      SelectedRow(log[..seen], f, r);
      BeforeSeen(log, seen, r, all[k]);
      NoneBetween(all, k, r);
    }
  }

  lemma SelectionHasAll(log: seq<SequencedEvent>, query: Query, start: nat)
    ensures forall row <- log | row.position > start && MatchesQuery(query, row.event) ::
              row in Select(log, Following(query, start))
  {
    forall row | row in log && row.position > start && MatchesQuery(query, row.event)
      ensures row in Select(log, Following(query, start))
    {
      SelectedRow(log, Following(query, start), row);
    }
  }

  lemma NoneBetween(all: seq<SequencedEvent>, k: nat, r: SequencedEvent)
    requires Ascending(all) && k < |all|
    ensures r in all ==> r.position >= all[k].position || (k > 0 && r.position <= all[k - 1].position)
  {}

  lemma BeforeSeen(log: seq<SequencedEvent>, seen: nat, r: SequencedEvent, row: SequencedEvent)
    requires Ascending(log) && seen <= |log| && r in log && row in log[..seen] && r.position < row.position
    ensures r in log[..seen]
  {
    var i :| 0 <= i < |log| && log[i] == r;
    var j :| 0 <= j < seen && log[j] == row;
    assert i < j;
    assert log[..seen][i] == r;
  }

  /** What may happen while Next is blocked: another goroutine appends, or the context ends. */
  datatype Wake = AppendedElsewhere(commands: seq<AppendCommand>) | ContextDone

  datatype NextResult = Delivered | Stopped | Blocked

  /** Subscribe's iterator. */
  class SubscribeIterator {
    const store: Store
    const query: Query
    var position: nat
    var pending: seq<SequencedEvent>
    var current: Option<SequencedEvent>

    ghost const start: nat
    ghost var delivered: seq<SequencedEvent>
    // How many rows of the log the last snapshot saw.
    ghost var seen: nat

    ghost predicate Valid()
      reads this, store, store.broadcast
    {
      && store.Valid()
      && seen <= |store.events|
      && delivered + pending == Select(store.events[..seen], Following(query, start))
      && position == (if delivered == [] then start else delivered[|delivered| - 1].position)
    }

    constructor (store: Store, query: Query, start: nat)
      requires store.Valid()
      ensures Valid() && this.store == store && this.query == query && this.start == start
      ensures delivered == [] && pending == []
    {
      this.store := store;
      this.query := query;
      this.start := start;
      position := start;
      pending := [];
      current := None;
      delivered := [];
      seen := 0;
    }

    method Take()
      requires Valid() && pending != []
      modifies this
      ensures Valid() && seen == old(seen)
      ensures current == Some(old(pending)[0]) && pending == old(pending)[1..]
      ensures delivered == old(delivered) + [old(pending)[0]]
    {
      ghost var all := delivered + pending;
      current := Some(pending[0]);
      position := pending[0].position;
      delivered := delivered + [pending[0]];
      pending := pending[1..];
      assert delivered + pending == all;
    }

    /** The section under the store's lock: the matching events and the channel, taken together. */
    method Snapshot() returns (waitCh: Channel)
      requires Valid() && pending == []
      modifies this
      ensures Valid() && waitCh == store.broadcast
      ensures delivered == old(delivered) && seen == |store.events|
      ensures delivered + pending == Select(store.events, Following(query, start))
    {
      var events := MatchingEvents(store.events, query, ReadOptions(false, Some(position), 0));
      waitCh := store.broadcast;
      assert delivered + pending == delivered;
      ResumeAtLast(store.events, query, start, seen, position);
      seen := |store.events|;
      assert store.events[..seen] == store.events;
      pending := events;
    }

    /** Wait on a channel captured with an empty snapshot: woken, stopped, or still blocked at the end. */
    method Park(waitCh: Channel, wakes: seq<Wake>) returns (result: NextResult, used: nat)
      requires Valid() && pending == [] && waitCh == store.broadcast && seen == |store.events|
      modifies store, store.broadcast
      ensures Valid() && used <= |wakes| && old(store.events) <= store.events
      ensures store.broadcast == old(store.broadcast) || fresh(store.broadcast)
      ensures result.Delivered? ==> used > 0 && waitCh.closed
      ensures result.Blocked? ==> used == |wakes| && store.events == old(store.events)
      ensures result.Stopped? ==> used > 0 && wakes[used - 1] == ContextDone
      ensures forall k :: 0 <= k < used && wakes[k] == ContextDone ==> result.Stopped? && k == used - 1
    {
      used := 0;
      while !waitCh.closed
        invariant used <= |wakes| && old(store.events) <= store.events
        invariant forall k :: 0 <= k < used ==> wakes[k] != ContextDone
        invariant Valid()
        invariant store.broadcast == old(store.broadcast) || fresh(store.broadcast)
        invariant if waitCh.closed then used > 0 else waitCh == store.broadcast && store.events == old(store.events)
        decreases |wakes| - used
      {
        if used == |wakes| {
          return Blocked, used;
        }
        var wake := wakes[used];
        used := used + 1;
        match wake {
          case ContextDone =>
            return Stopped, used;
          case AppendedElsewhere(commands) =>
            ghost var before := store.events;
            var _ := store.Append(commands, false);
            assert store.events[..seen] == before[..seen];
        }
      }
      result := Delivered;
    }

    /** Deliver one event, or block on the channel captured with an empty snapshot. `wakes` is what
        happens, in order, while Next is blocked; the call ends Blocked when nothing more happens. */
    method Next(wakes: seq<Wake>) returns (result: NextResult, used: nat)
      requires Valid()
      modifies this, store, store.broadcast
      ensures Valid() && used <= |wakes|
      ensures old(store.events) <= store.events
      ensures result.Delivered? ==> current.Some? && delivered == old(delivered) + [current.value]
      ensures !result.Delivered? ==> delivered == old(delivered) && pending == []
      // Blocked means the whole log has been delivered: no append was missed.
      ensures result.Blocked? ==> used == |wakes| && delivered == Select(store.events, Following(query, start))
      ensures result.Blocked? ==>
                forall row <- store.events | row.position > start && MatchesQuery(query, row.event) :: row in delivered
      // Delivered means the first match after the last one delivered.
      ensures result.Delivered? ==>
                && current.value in store.events && current.value.position > old(position)
                && MatchesQuery(query, current.value.event)
                && forall row <- store.events | old(position) < row.position < current.value.position ::
                     !MatchesQuery(query, row.event)
      // The end of the context, and nothing else, stops it.
      ensures result.Stopped? ==> 0 < used && wakes[used - 1] == ContextDone
      ensures forall k :: 0 <= k < used && wakes[k] == ContextDone ==> result.Stopped? && k == used - 1
      ensures old(pending) != [] ==>
                result.Delivered? && used == 0 && current == Some(old(pending)[0]) && pending == old(pending)[1..]
                && store.events == old(store.events)
    {
      hide Select, MatchesQuery, Following;
      used := 0;
      while true
        invariant Valid() && used <= |wakes| && old(store.events) <= store.events
        invariant store.broadcast == old(store.broadcast) || fresh(store.broadcast)
        invariant delivered == old(delivered) && position == old(position)
        invariant forall k :: 0 <= k < used ==> wakes[k] != ContextDone
        invariant old(pending) != [] ==> pending == old(pending) && used == 0 && store.events == old(store.events)
        decreases |wakes| - used, if pending == [] then 1 else 0
      {
        if |pending| > 0 {
          NextSelected(store.events, seen, query, start, |delivered|, position);
          Take();
          return Delivered, used;
        }
        var waitCh := Snapshot();
        if |pending| > 0 {
          continue;
        }
        var woken, more := Park(waitCh, wakes[used..]);
        used := used + more;
        if !woken.Delivered? {
          assert delivered + pending == delivered;
          SelectionHasAll(store.events, query, start);
          return woken, used;
        }
      }
    }
  }
}
