/** The vocabulary every store shares: events, queries, conditions, commands,
    and the two readings of a query (the documented one and the SQL one). */
module EventStore {
  datatype Option<+T> = None | Some(value: T)

  /** Data and metadata are opaque to the store, so one string stands for both. */
  datatype Event = Event(eventType: string, tags: set<string>, payload: string)

  datatype SequencedEvent = SequencedEvent(event: Event, position: nat)

  datatype QueryItem = QueryItem(types: seq<string>, tags: set<string>)

  /** `Items([])` is Go's zero value `Query{}`, which no constructor returns. */
  datatype Query = All | Items(items: seq<QueryItem>)

  datatype AppendCondition = AppendCondition(failIfEventsMatch: Query, after: Option<nat>)

  datatype AppendCommand = AppendCommand(events: seq<Event>, condition: Option<AppendCondition>)

  datatype ReadOptions = ReadOptions(backwards: bool, after: Option<nat>, limit: int)

  datatype AppendResult =
    | Appended(position: nat)
    | ConditionFailed(condition: AppendCondition, commandIndex: Option<nat>)
    | InvalidCondition
    | NoEvents
    | Cancelled

  // ----- validation -----

  predicate WellFormedQuery(query: Query) {
    query.All? || (query.items != [] && forall item <- query.items :: item.types != [])
  }

  predicate ValidCondition(condition: AppendCondition) {
    && condition.failIfEventsMatch.Items?
    && forall item <- condition.failIfEventsMatch.items :: item.types != [] && item.tags != {}
  }

  predicate ValidConditions(commands: seq<AppendCommand>) {
    forall c <- commands :: c.condition.Some? ==> ValidCondition(c.condition.value)
  }

  // ----- the documented meaning: type among types, tags a superset -----

  predicate MatchesItem(item: QueryItem, e: Event) {
    e.eventType in item.types && item.tags <= e.tags
  }

  predicate MatchesQuery(query: Query, e: Event) {
    query.All? || exists item <- query.items :: MatchesItem(item, e)
  }

  // ----- what the generated SQL selects: type among types, tags overlapping -----

  predicate HasClause(item: QueryItem) {
    item.types != [] || item.tags != {}
  }

  predicate OverlapsItem(item: QueryItem, e: Event) {
    && (item.types != [] ==> e.eventType in item.types)
    && (item.tags != {} ==> exists tag <- item.tags :: tag in e.tags)
  }

  /** Items without a clause are dropped; a query left with no clause filters nothing. */
  predicate OverlapsQuery(query: Query, e: Event) {
    || query.All?
    || (forall item <- query.items :: !HasClause(item))
    || (exists item <- query.items :: HasClause(item) && OverlapsItem(item, e))
  }

  // ----- commands -----

  function AllEvents(commands: seq<AppendCommand>): seq<Event> {
    if commands == [] then []
    else AllEvents(commands[..|commands| - 1]) + commands[|commands| - 1].events
  }

  predicate IsAfter(position: nat, after: Option<nat>) {
    after.Some? ==> position > after.value
  }

  predicate Offends(condition: AppendCondition, row: SequencedEvent) {
    IsAfter(row.position, condition.after) && MatchesQuery(condition.failIfEventsMatch, row.event)
  }

  /** The command's condition is violated by some event of the log. */
  predicate Violates(command: AppendCommand, log: seq<SequencedEvent>) {
    command.condition.Some? && exists row <- log :: Offends(command.condition.value, row)
  }

  /** The first command, in order, whose condition the log violates. */
  function FirstViolation(commands: seq<AppendCommand>, log: seq<SequencedEvent>): (index: Option<nat>)
    ensures index.Some? ==>
              && index.value < |commands| && Violates(commands[index.value], log)
              && forall i :: 0 <= i < index.value ==> !Violates(commands[i], log)
    ensures index.None? ==> forall i :: 0 <= i < |commands| ==> !Violates(commands[i], log)
  {
    if commands == [] then None
    else
      var n := |commands| - 1;
      var earlier := FirstViolation(commands[..n], log);
      assert forall i :: 0 <= i < n ==> commands[..n][i] == commands[i];
      if earlier.Some? then earlier
      else if Violates(commands[n], log) then Some(n)
      else None
  }

  /** Two logs that violate the same commands have the same first violation. */
  lemma FirstViolationDepends(commands: seq<AppendCommand>, a: seq<SequencedEvent>, b: seq<SequencedEvent>)
    requires forall i :: 0 <= i < |commands| ==> (Violates(commands[i], a) <==> Violates(commands[i], b))
    ensures FirstViolation(commands, a) == FirstViolation(commands, b)
  {}

  lemma EventOfCommand(commands: seq<AppendCommand>, e: Event)
    ensures e in AllEvents(commands) <==> exists c <- commands :: e in c.events
  {
    if commands != [] {
      var n := |commands| - 1;
      EventOfCommand(commands[..n], e);
      assert commands == commands[..n] + [commands[n]];
    }
  }

  lemma EmptyEvents()
    ensures AllEvents([]) == []
  {}

  lemma AllEventsStep(commands: seq<AppendCommand>, i: nat)
    requires i < |commands|
    ensures AllEvents(commands[..i + 1]) == AllEvents(commands[..i]) + commands[i].events
  {
    assert commands[..i + 1][..i] == commands[..i];
  }
}
