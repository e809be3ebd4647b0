/** The append / read-barrier protocol as a transition system: any number of
    transactions, interleaved at every lock, statement and position.

    Of the database it takes this: a statement sees what has committed; the sequence is read and
    advanced outside any snapshot; one insert's rows draw their positions in order; rows become
    visible before the locks are released, and locks are released one by one. */
module Protocol {
  import opened EventStore
  import opened Logs
  import opened Serialize
  import opened LockKeys

  datatype Job =
    | Append(commands: seq<AppendCommand>, path: Path)
    | Read(query: Query, after: Option<nat>, limit: int)

  /** An append goes Locking, Marked, Passed, Committed; or ends Rejected or Aborted. A forward read goes
      Locking, Marked, Barred (the barrier's transaction is over), Scanned; or ends Aborted, which can
      also come after its barrier. */
  datatype Phase =
    | Locking
    | Marked
    | Passed
    | Committed
    | Rejected(index: nat)
    | Barred
    | Scanned(result: seq<SequencedEvent>)
    | Aborted

  datatype Txn = Txn(
    job: Job,
    todo: seq<Lock>,       // locks still to be taken, in order
    held: set<Lock>,
    phase: Phase,
    mark: Option<nat>,     // the high-water mark, once read
    positions: seq<nat>)   // drawn from the sequence; an aborted append's stay burned

  /** `last` is the sequence's last value (0 before the first); `table` holds the committed rows. */
  datatype State = State(last: nat, table: map<nat, Event>, txns: map<nat, Txn>)

  datatype Step =
    | Begin(id: nat, job: Job, plan: seq<Lock>)
    | Acquire(id: nat)
    | ReadMark(id: nat)
    | Check(id: nat)
    | Allocate(id: nat)
    | Commit(id: nat)
    | Abort(id: nat)
    | EndBarrier(id: nat)
    | Release(id: nat, lock: Lock)
    | Scan(id: nat)

  // ----- jobs -----

  function LocksOf(h: Hash, job: Job): set<Lock> {
    match job
    case Append(commands, _) => AppendLocks(h, commands)
    case Read(query, _, _) => BarrierLocks(h, query)
  }

  function EventsOf(job: Job): seq<Event> {
    match job
    case Append(commands, path) => StoredAll(path, AllEvents(commands))
    case Read(_, _, _) => []
  }

  /** What gets past the checks made before the database is touched, and keeps its meaning once packed. */
  predicate ValidJob(job: Job) {
    match job
    case Append(commands, path) =>
      && ValidConditions(commands) && AllEvents(commands) != []
      && TokenCommands(commands) && FaithfulConditions(commands) && StoredAsGiven(path, commands)
    case Read(query, _, _) => WellFormedQuery(query) && TokenItems(ItemsOf(query))
  }

  // ----- the table -----

  /** The table's rows up to `bound`, in position order. */
  function Listing(table: map<nat, Event>, bound: nat): seq<SequencedEvent> {
    if bound == 0 then []
    else Listing(table, bound - 1) + if bound in table then [SequencedEvent(table[bound], bound)] else []
  }

  /** The table after an insert. */
  function Inserted(table: map<nat, Event>, events: seq<Event>, positions: seq<nat>): map<nat, Event>
    requires |positions| == |events|
  {
    if positions == [] then table
    else
      var n := |positions| - 1;
      Inserted(table, events[..n], positions[..n])[positions[n] := events[n]]
  }

  /** What the check of an append reports in this state. */
  function VerdictOf(s: State, t: Txn): Option<nat>
    requires t.job.Append? && t.mark.Some?
  {
    Verdict(t.job.path, ConditionRows(t.job.commands), Listing(s.table, s.last), t.mark.value)
  }

  /** What the bounded scan of a read returns in this state. */
  function ScanOf(s: State, t: Txn): seq<SequencedEvent>
    requires t.job.Read? && t.mark.Some?
  {
    ReadResult(Listing(s.table, s.last), Overlap, t.job.query, ReadOptions(false, t.job.after, t.job.limit), t.mark)
  }

  // ----- steps -----

  predicate Unfinished(t: Txn) {
    t.phase.Locking? || t.phase.Marked? || t.phase.Passed?
  }

  predicate Holding(t: Txn) {
    t.phase.Marked? || t.phase.Passed?
  }

  ghost predicate Grantable(s: State, id: nat, lock: Lock) {
    forall other <- s.txns :: other != id ==> forall l <- s.txns[other].held :: !Conflict(l, lock)
  }

  ghost predicate Enabled(h: Hash, s: State, step: Step) {
    if step.Begin? then
      step.id !in s.txns && ValidJob(step.job) && KeyOrdered(step.plan, LocksOf(h, step.job))
    else
      step.id in s.txns &&
      var t := s.txns[step.id];
      match step
      case Begin(_, _, _) => false
      case Acquire(id) => t.phase.Locking? && t.todo != [] && Grantable(s, id, t.todo[0])
      case ReadMark(_) => t.phase.Locking? && t.todo == []
      case Check(_) => t.phase.Marked? && t.job.Append? && t.mark.Some?
      case Allocate(_) => t.phase.Passed? && |t.positions| < |EventsOf(t.job)|
      case Commit(_) => t.phase.Passed? && |t.positions| == |EventsOf(t.job)|
      case Abort(_) => Unfinished(t) || t.phase.Barred?
      case EndBarrier(_) => t.phase.Marked? && t.job.Read?
      case Release(_, lock) => !Unfinished(t) && lock in t.held
      case Scan(_) => t.phase.Barred? && t.job.Read? && t.mark.Some? && t.held == {}
  }

  /** The stepping transaction afterwards. */
  function Moved(h: Hash, s: State, step: Step): Txn
    requires Enabled(h, s, step)
  {
    if step.Begin? then Txn(step.job, step.plan, {}, Locking, None, [])
    else
      var t := s.txns[step.id];
      match step
      case Acquire(_) => t.(todo := t.todo[1..], held := t.held + {t.todo[0]})
      case ReadMark(_) => t.(phase := Marked, mark := Some(s.last))
      case Check(_) => t.(phase := match VerdictOf(s, t) case None => Passed case Some(i) => Rejected(i))
      case Allocate(_) => t.(positions := t.positions + [s.last + 1])
      case Commit(_) => t.(phase := Committed)
      case Abort(_) => t.(phase := Aborted, todo := [])
      case EndBarrier(_) => t.(phase := Barred)
      case Release(_, lock) => t.(held := t.held - {lock})
      case Scan(_) => t.(phase := Scanned(ScanOf(s, t)))
  }

  function Apply(h: Hash, s: State, step: Step): State
    requires Enabled(h, s, step)
  {
    State(
      if step.Allocate? then s.last + 1 else s.last,
      if step.Commit? then Inserted(s.table, EventsOf(s.txns[step.id].job), s.txns[step.id].positions) else s.table,
      s.txns[step.id := Moved(h, s, step)])
  }

  const Empty: State := State(0, map[], map[])

  ghost predicate Execution(h: Hash, states: seq<State>, steps: seq<Step>) {
    && |states| == |steps| + 1
    && states[0] == Empty
    && forall i :: 0 <= i < |steps| ==>
         Enabled(h, states[i], steps[i]) && states[i + 1] == Apply(h, states[i], steps[i])
  }

  // ----- facts about tables -----

  lemma {:induction false} ListedRow(table: map<nat, Event>, bound: nat, row: SequencedEvent)
    ensures row in Listing(table, bound)
       <==> 1 <= row.position <= bound && row.position in table && table[row.position] == row.event
  {
    if bound > 0 {
      ListedRow(table, bound - 1, row);
    }
  }

  lemma {:induction false} ListingAscending(table: map<nat, Event>, bound: nat)
    ensures Ascending(Listing(table, bound))
  {
    if bound > 0 {
      ListingAscending(table, bound - 1);
      forall row | row in Listing(table, bound - 1) ensures row.position < bound {
        ListedRow(table, bound - 1, row);
      }
    }
  }

  lemma {:induction false} InsertedRows(table: map<nat, Event>, events: seq<Event>, positions: seq<nat>)
    requires |positions| == |events| && Increasing(positions)
    ensures var t := Inserted(table, events, positions);
            && (forall p :: p in t <==> p in table || p in positions)
            && (forall k :: 0 <= k < |positions| ==> t[positions[k]] == events[k])
            && (forall p <- table :: p !in positions ==> t[p] == table[p])
  {
    if positions != [] {
      var n := |positions| - 1;
      InsertedRows(table, events[..n], positions[..n]);
      assert positions == positions[..n] + [positions[n]];
      assert forall k :: 0 <= k < n ==> positions[..n][k] == positions[k] && events[..n][k] == events[k];
    }
  }
}
