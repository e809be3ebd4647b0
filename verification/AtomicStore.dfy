/** The specification both stores refine: a log, and appends that check their
    conditions against the whole log and add their events in one step. */
module AtomicStore {
  import opened EventStore
  import opened Logs

  /** The events at the positions they were given. */
  function Rows(events: seq<Event>, positions: seq<nat>): (rows: seq<SequencedEvent>)
    requires |positions| <= |events|
    ensures |rows| == |positions|
    ensures forall i :: 0 <= i < |positions| ==> rows[i] == SequencedEvent(events[i], positions[i])
  {
    seq(|positions|, i requires 0 <= i < |positions| => SequencedEvent(events[i], positions[i]))
  }

  /** One atomic append: no condition is violated, and exactly the commands' events, in order,
      join the log at new, increasing positions. */
  ghost predicate Accepts(log: seq<SequencedEvent>, commands: seq<AppendCommand>, positions: seq<nat>,
                          log': seq<SequencedEvent>)
  {
    && FirstViolation(commands, log) == None
    && 0 < |AllEvents(commands)| == |positions|
    && Increasing(positions)
    && (forall row <- log :: row.position !in positions)
    && Ascending(log')
    && (forall row :: row in log' <==> row in log || row in Rows(AllEvents(commands), positions))
  }

  /** One atomic refusal: this is the first command whose condition the whole log violates. */
  ghost predicate Refuses(log: seq<SequencedEvent>, commands: seq<AppendCommand>, index: nat) {
    FirstViolation(commands, log) == Some(index)
  }

  datatype Outcome = Accepted(position: nat) | Refused(index: nat)

  datatype Store = Store(log: seq<SequencedEvent>, outcomes: map<nat, Outcome>)

  datatype Step =
    | Append(id: nat, commands: seq<AppendCommand>, positions: seq<nat>)
    | Refuse(id: nat, commands: seq<AppendCommand>, index: nat)
    | Stutter

  ghost predicate Next(s: Store, step: Step, s': Store) {
    match step
    case Append(id, commands, positions) =>
      && id !in s.outcomes
      && positions != []
      && Accepts(s.log, commands, positions, s'.log)
      && s'.outcomes == s.outcomes[id := Accepted(positions[|positions| - 1])]
    case Refuse(id, commands, index) =>
      && id !in s.outcomes
      && Refuses(s.log, commands, index)
      && s' == s.(outcomes := s.outcomes[id := Refused(index)])
    case Stutter => s' == s
  }

  ghost predicate Execution(states: seq<Store>, steps: seq<Step>) {
    && |states| == |steps| + 1
    && states[0] == Store([], map[])
    && forall i :: 0 <= i < |steps| ==> Next(states[i], steps[i], states[i + 1])
  }
}
