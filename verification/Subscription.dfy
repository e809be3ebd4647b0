/** The Postgres subscriber: repeated barrier reads, each after the last event
    delivered, among everything else the database does. */
module Subscription {
  import opened EventStore
  import opened Logs
  import opened LockKeys
  import opened AppendTheorems
  import opened BarrierTheorems
  import opened ProtocolInvariants
  import P = Protocol

  datatype Phase = Listening | Failed | Closed

  datatype Subscriber = Subscriber(
    query: Query, start: nat, position: nat,
    pending: seq<SequencedEvent>, delivered: seq<SequencedEvent>,
    reading: Option<nat>,   // the read that drain is waiting for
    drained: Option<nat>,   // the last read drained
    phase: Phase)

  datatype State = State(db: P.State, subscribers: map<nat, Subscriber>)

  datatype Step =
    | Database(step: P.Step)
    | Subscribe(id: nat, query: Query, after: Option<nat>)
    | StartDrain(id: nat, reader: nat, plan: seq<Lock>)
    | FinishDrain(id: nat)
    | FailDrain(id: nat)
    | Deliver(id: nat)
    | Close(id: nat)

  function DrainStep(sub: Subscriber, reader: nat, plan: seq<Lock>): P.Step {
    P.Begin(reader, P.Read(sub.query, Some(sub.position), 0), plan)
  }

  ghost predicate Enabled(h: Hash, s: State, step: Step) {
    if step.Database? then P.Enabled(h, s.db, step.step)
    else if step.Subscribe? then step.id !in s.subscribers
    else
      step.id in s.subscribers && s.subscribers[step.id].phase.Listening? &&
      var sub := s.subscribers[step.id];
      match step
      case StartDrain(_, reader, plan) =>
        sub.pending == [] && sub.reading == None && P.Enabled(h, s.db, DrainStep(sub, reader, plan))
      case FinishDrain(_) =>
        sub.reading.Some? && sub.reading.value in s.db.txns && s.db.txns[sub.reading.value].phase.Scanned?
      case FailDrain(_) =>
        sub.reading.Some? && sub.reading.value in s.db.txns && s.db.txns[sub.reading.value].phase.Aborted?
      case Deliver(_) => sub.pending != []
      case Close(_) => true
      case _ => false
  }

  function Delivering(sub: Subscriber): Subscriber
    requires sub.pending != []
  {
    sub.(pending := sub.pending[1..], delivered := sub.delivered + [sub.pending[0]],
         position := sub.pending[0].position)
  }

  function Apply(h: Hash, s: State, step: Step): State
    requires Enabled(h, s, step)
  {
    match step
    case Database(d) => s.(db := P.Apply(h, s.db, d))
    case Subscribe(id, query, after) =>
      var start := if after.Some? then after.value else 0;
      s.(subscribers := s.subscribers[id := Subscriber(query, start, start, [], [], None, None, Listening)])
    case StartDrain(id, reader, plan) =>
      var sub := s.subscribers[id];
      State(P.Apply(h, s.db, DrainStep(sub, reader, plan)), s.subscribers[id := sub.(reading := Some(reader))])
    case FinishDrain(id) =>
      var sub := s.subscribers[id];
      s.(subscribers := s.subscribers[id := sub.(pending := s.db.txns[sub.reading.value].phase.result,
                                                 drained := sub.reading, reading := None)])
    case FailDrain(id) =>
      s.(subscribers := s.subscribers[id := s.subscribers[id].(reading := None, phase := Failed)])
    case Deliver(id) => s.(subscribers := s.subscribers[id := Delivering(s.subscribers[id])])
    case Close(id) => s.(subscribers := s.subscribers[id := s.subscribers[id].(phase := Closed)])
  }

  ghost predicate Execution(h: Hash, states: seq<State>, steps: seq<Step>) {
    && |states| == |steps| + 1
    && states[0] == State(P.Empty, map[])
    && forall i :: 0 <= i < |steps| ==>
         Enabled(h, states[i], steps[i]) && states[i + 1] == Apply(h, states[i], steps[i])
  }

  // ----- what holds of a subscriber -----

  /** What the read filter selects, from a start up to a mark. */
  function Due(db: P.State, query: Query, start: nat, mark: nat): seq<SequencedEvent> {
    Select(P.Listing(db.table, db.last), From(Overlap, query, start, Some(mark)))
  }

  /** The mark drained up to, if any read has been drained. */
  ghost predicate DrainedOk(db: P.State, sub: Subscriber) {
    match sub.drained
    case None => sub.delivered + sub.pending == []
    case Some(r) =>
      && MarkedRead(db, r) && db.txns[r].job.query == sub.query
      && sub.delivered + sub.pending == Due(db, sub.query, sub.start, db.txns[r].mark.value)
  }

  function DrainedMark(db: P.State, sub: Subscriber): nat {
    if sub.drained.Some? && sub.drained.value in db.txns && db.txns[sub.drained.value].mark.Some?
    then db.txns[sub.drained.value].mark.value else 0
  }

  ghost predicate ReadingOk(db: P.State, sub: Subscriber) {
    sub.reading.Some? ==>
      && sub.pending == []
      && sub.reading.value in db.txns
      && db.txns[sub.reading.value].job == P.Read(sub.query, Some(sub.position), 0)
      && (db.txns[sub.reading.value].mark.Some? ==> DrainedMark(db, sub) <= db.txns[sub.reading.value].mark.value)
  }

  ghost predicate SubscriberOk(db: P.State, sub: Subscriber) {
    && DrainedOk(db, sub)
    && sub.position == (if sub.delivered == [] then sub.start else sub.delivered[|sub.delivered| - 1].position)
    && DrainedMark(db, sub) <= db.last
    && ReadingOk(db, sub)
  }

  ghost predicate DbOk(h: Hash, db: P.State) {
    Inv(h, db) && ResultsOk(db)
  }

  ghost predicate SystemOk(h: Hash, s: State) {
    DbOk(h, s.db) && forall id <- s.subscribers :: SubscriberOk(s.db, s.subscribers[id])
  }

  // ----- kept by every step -----

  lemma DbOkStep(h: Hash, db: P.State, step: P.Step)
    requires DbOk(h, db) && P.Enabled(h, db, step)
    ensures DbOk(h, P.Apply(h, db, step))
  {
    hide Inv, ResultsOk, P.Apply, P.Enabled;
    InvStep(h, db, step);
    ResultsOkStep(h, db, step);
  }

  lemma DrainedOkStep(h: Hash, db: P.State, step: P.Step, sub: Subscriber)
    requires DbOk(h, db) && P.Enabled(h, db, step) && DrainedOk(db, sub)
    ensures DrainedOk(P.Apply(h, db, step), sub)
    ensures DrainedMark(P.Apply(h, db, step), sub) == DrainedMark(db, sub)
  {
    hide Inv, ResultsOk, P.Apply, P.Enabled;
    if sub.drained.Some? {
      var r := sub.drained.value;
      SelectStep(h, db, step, r, Some(sub.start));
      MarkedReadKept(h, db, step, r);
    }
  }

  lemma ReadingOkStep(h: Hash, db: P.State, step: P.Step, sub: Subscriber)
    requires DbOk(h, db) && P.Enabled(h, db, step) && SubscriberOk(db, sub)
    ensures ReadingOk(P.Apply(h, db, step), sub)
  {
    hide Inv, ResultsOk, P.VerdictOf, P.ScanOf, P.Inserted, DrainedOk, DrainedMark;
    assert DrainedMark(P.Apply(h, db, step), sub) == DrainedMark(db, sub) by {
      DrainedOkStep(h, db, step, sub);
    }
  }

  lemma SubscriberOkStep(h: Hash, db: P.State, step: P.Step, sub: Subscriber)
    requires DbOk(h, db) && P.Enabled(h, db, step) && SubscriberOk(db, sub)
    ensures SubscriberOk(P.Apply(h, db, step), sub)
  {
    hide DbOk, DrainedOk, DrainedMark, ReadingOk, P.VerdictOf, P.ScanOf, P.Inserted;
    DrainedOkStep(h, db, step, sub);
    ReadingOkStep(h, db, step, sub);
  }

  lemma DeliverOk(db: P.State, sub: Subscriber)
    requires SubscriberOk(db, sub) && sub.pending != []
    ensures SubscriberOk(db, Delivering(sub))
  {
    assert sub.delivered + sub.pending == sub.delivered + [sub.pending[0]] + sub.pending[1..];
  }

  /** Draining a finished read: what was delivered up to the old mark, then the new result, is what is
      due up to the new mark. */
  lemma DrainExtends(h: Hash, db: P.State, sub: Subscriber)
    requires DbOk(h, db) && SubscriberOk(db, sub)
    requires sub.reading.Some? && sub.reading.value in db.txns && db.txns[sub.reading.value].phase.Scanned?
    ensures MarkedRead(db, sub.reading.value)
    ensures sub.delivered + db.txns[sub.reading.value].phase.result
         == Due(db, sub.query, sub.start, db.txns[sub.reading.value].mark.value)
  {
    hide Inv, P.Listing;
    var r := sub.reading.value;
    var t := db.txns[r];
    TxnOkOf(h, db, r);
    assert ResultOk(db, t);
    var log := P.Listing(db.table, db.last);
    P.ListingAscending(db.table, db.last);
    assert sub.delivered + [] == sub.delivered;
    assert t.phase.result == Select(log, From(Overlap, sub.query, sub.position, t.mark));
    if sub.drained.Some? {
      ScanPrefix(log, Overlap, sub.query, Some(sub.start), DrainedMark(db, sub), t.mark.value);
    }
    Resume(log, Overlap, sub.query, sub.start, t.mark, sub.delivered, sub.position);
  }

  lemma FinishDrainOk(h: Hash, db: P.State, sub: Subscriber)
    requires DbOk(h, db) && SubscriberOk(db, sub)
    requires sub.reading.Some? && sub.reading.value in db.txns && db.txns[sub.reading.value].phase.Scanned?
    ensures SubscriberOk(db, sub.(pending := db.txns[sub.reading.value].phase.result,
                                  drained := sub.reading, reading := None))
  {
    hide Inv, Due, ResultsOk;
    DrainExtends(h, db, sub);
    TxnOkOf(h, db, sub.reading.value);
  }

  lemma StartDrainOk(h: Hash, db: P.State, sub: Subscriber, reader: nat, plan: seq<Lock>)
    requires DbOk(h, db) && SubscriberOk(db, sub) && sub.pending == [] && sub.reading == None
    requires P.Enabled(h, db, DrainStep(sub, reader, plan))
    ensures SubscriberOk(P.Apply(h, db, DrainStep(sub, reader, plan)), sub.(reading := Some(reader)))
  {
    hide Inv, ResultsOk, Due, P.VerdictOf, P.ScanOf, P.Inserted;
    SubscriberOkStep(h, db, DrainStep(sub, reader, plan), sub);
  }

  lemma SystemOkStep(h: Hash, s: State, step: Step)
    requires SystemOk(h, s) && Enabled(h, s, step)
    ensures SystemOk(h, Apply(h, s, step))
  {
    hide DbOk, SubscriberOk, P.Apply, P.Enabled;
    var s' := Apply(h, s, step);
    match step {
      case Database(d) => DbOkStep(h, s.db, d);
      case StartDrain(id, reader, plan) => DbOkStep(h, s.db, DrainStep(s.subscribers[id], reader, plan));
      case _ =>
    }
    forall id | id in s'.subscribers ensures SubscriberOk(s'.db, s'.subscribers[id]) {
      SubscriberOkAfter(h, s, step, id);
    }
  }

  lemma SubscribeOk(db: P.State, query: Query, start: nat)
    ensures SubscriberOk(db, Subscriber(query, start, start, [], [], None, None, Listening))
  {}

  lemma EndOk(db: P.State, sub: Subscriber)
    requires SubscriberOk(db, sub)
    ensures SubscriberOk(db, sub.(phase := Closed)) && SubscriberOk(db, sub.(reading := None, phase := Failed))
  {}

  lemma SubscriberOkAfter(h: Hash, s: State, step: Step, id: nat)
    requires SystemOk(h, s) && Enabled(h, s, step) && id in Apply(h, s, step).subscribers
    ensures SubscriberOk(Apply(h, s, step).db, Apply(h, s, step).subscribers[id])
  {
    hide DbOk, SubscriberOk, P.Apply, P.Enabled;
    if id in s.subscribers {
      assert SubscriberOk(s.db, s.subscribers[id]);
      EndOk(s.db, s.subscribers[id]);
    }
    match step {
      case Database(d) => SubscriberOkStep(h, s.db, d, s.subscribers[id]);
      case Subscribe(i, query, after) => SubscribeOk(s.db, query, if after.Some? then after.value else 0);
      case StartDrain(i, reader, plan) =>
        if i == id {
          StartDrainOk(h, s.db, s.subscribers[id], reader, plan);
        } else {
          SubscriberOkStep(h, s.db, DrainStep(s.subscribers[i], reader, plan), s.subscribers[id]);
        }
      case FinishDrain(i) =>
        if i == id { FinishDrainOk(h, s.db, s.subscribers[id]); }
      case Deliver(i) =>
        if i == id { DeliverOk(s.db, s.subscribers[id]); }
      case _ =>
    }
  }

  lemma {:induction false} SystemHolds(h: Hash, states: seq<State>, steps: seq<Step>, n: nat)
    requires Execution(h, states, steps) && n < |states|
    ensures SystemOk(h, states[n])
  {
    hide Enabled, Apply, SubscriberOk;
    if n > 0 {
      SystemHolds(h, states, steps, n - 1);
      SystemOkStep(h, states[n - 1], steps[n - 1]);
    }
  }

  // ----- the theorems -----

  /** Exactly once: in every reachable state, a subscriber's delivered events followed by its pending
      ones are exactly, ascending and each once, the committed events that its read filter selects
      from its start up to the mark of its last drained read. */
  lemma ExactlyOnce(h: Hash, states: seq<State>, steps: seq<Step>, n: nat, id: nat)
    requires Execution(h, states, steps) && n < |states| && id in states[n].subscribers
    ensures var db, sub := states[n].db, states[n].subscribers[id]; var all := sub.delivered + sub.pending;
            && Ascending(all)
            && match sub.drained
               case None => all == []
               case Some(_) =>
                 forall row :: row in all <==>
                   && row.position in db.table && row == RowAt(db, row.position)
                   && sub.start < row.position <= DrainedMark(db, sub)
                   && OverlapsQuery(sub.query, row.event)
  {
    hide Enabled, Apply, Inv;
    SystemHolds(h, states, steps, n);
    var db, sub := states[n].db, states[n].subscribers[id];
    assert SubscriberOk(db, sub);
    var log := P.Listing(db.table, db.last);
    var f := From(Overlap, sub.query, sub.start, Some(DrainedMark(db, sub)));
    P.ListingAscending(db.table, db.last);
    SelectAscending(log, f);
    forall row ensures row in Select(log, f) <==>
        && row.position in db.table && row == RowAt(db, row.position)
        && sub.start < row.position <= DrainedMark(db, sub)
        && OverlapsQuery(sub.query, row.event)
    {
      SelectedRow(log, f, row);
      ListedIffInTable(h, db, row);
    }
  }

  /** The subscriber's deliveries, what it has drained and its drained mark have at most grown. */
  ghost predicate Grown(s: State, s': State, id: nat) {
    && id in s.subscribers && id in s'.subscribers
    && var a, b := s.subscribers[id], s'.subscribers[id];
       && a.query == b.query && a.start == b.start
       && a.delivered <= b.delivered
       && a.delivered + a.pending <= b.delivered + b.pending
       && DrainedMark(s.db, a) <= DrainedMark(s'.db, b)
  }

  lemma GrownOn(s: State, s': State, s'': State, id: nat)
    requires Grown(s, s', id) && Grown(s', s'', id)
    ensures Grown(s, s'', id)
  {
    hide DrainedMark;
  }

  lemma GrownSame(s: State, id: nat)
    requires id in s.subscribers
    ensures Grown(s, s, id)
  {}

  lemma GrownMember(s: State, s': State, id: nat)
    requires Grown(s, s', id)
    ensures id in s'.subscribers
  {}

  /** What has been delivered is never taken back or reordered, and marks never go back. */
  lemma {:induction false} DeliveriesGrow(h: Hash, states: seq<State>, steps: seq<Step>, i: nat, j: nat, id: nat)
    requires Execution(h, states, steps) && i <= j < |states| && id in states[i].subscribers
    ensures Grown(states[i], states[j], id)
  {
    hide Enabled, Apply, SystemOk, Grown;
    if i == j {
      GrownSame(states[i], id);
    } else {
      DeliveriesGrow(h, states, steps, i, j - 1, id);
      GrownMember(states[i], states[j - 1], id);
      SystemHolds(h, states, steps, j - 1);
      GrowStep(h, states[j - 1], steps[j - 1], id);
      GrownOn(states[i], states[j - 1], states[j], id);
    }
  }

  lemma SameMark(db: P.State, a: Subscriber, b: Subscriber)
    requires a.drained == b.drained
    ensures DrainedMark(db, a) == DrainedMark(db, b)
  {}

  lemma FinishDrainGrows(h: Hash, s: State, id: nat)
    requires SystemOk(h, s) && Enabled(h, s, FinishDrain(id))
    ensures Grown(s, Apply(h, s, FinishDrain(id)), id)
  {
    hide DbOk, Due;
    assert SubscriberOk(s.db, s.subscribers[id]);
    DrainExtends(h, s.db, s.subscribers[id]);
  }

  lemma GrowStep(h: Hash, s: State, step: Step, id: nat)
    requires SystemOk(h, s) && Enabled(h, s, step) && id in s.subscribers
    ensures Grown(s, Apply(h, s, step), id)
  {
    hide DbOk, DrainedOk, DrainedMark, ReadingOk, P.Apply, P.Enabled;
    var sub := s.subscribers[id];
    assert SubscriberOk(s.db, sub);
    match step {
      case Database(d) => DrainedOkStep(h, s.db, d, sub);
      case StartDrain(i, reader, plan) =>
        DrainedOkStep(h, s.db, DrainStep(s.subscribers[i], reader, plan), sub);
        SameMark(Apply(h, s, step).db, sub, Apply(h, s, step).subscribers[id]);
      case FinishDrain(i) =>
        if i == id {
          FinishDrainGrows(h, s, id);
        }
      case _ =>
        SameMark(s.db, sub, Apply(h, s, step).subscribers[id]);
    }
  }

  /** One step: the sequence does not go back, rows stay, and a mark that was not there is the sequence's value. */
  lemma DbForward(h: Hash, s: State, step: Step, r: nat)
    requires DbOk(h, s.db) && Enabled(h, s, step)
    ensures var db, db' := s.db, Apply(h, s, step).db;
            && db.last <= db'.last
            && (forall p <- db.table :: p in db'.table && db'.table[p] == db.table[p])
            && (r in db'.txns && db'.txns[r].mark.Some? ==>
                  db'.txns[r].mark.value == db.last || (r in db.txns && db.txns[r].mark == db'.txns[r].mark))
  {
    hide Inv, ResultsOk, P.VerdictOf, P.ScanOf, P.Inserted, P.EventsOf, P.LocksOf;
    match step {
      case Database(d) => TableGrows(h, s.db, d);
      case _ =>
    }
  }

  /** A read begun after some state has a mark no lower than that state's sequence. */
  lemma {:induction false} MarkSinceState(h: Hash, states: seq<State>, steps: seq<Step>, i: nat, j: nat, r: nat)
    requires Execution(h, states, steps) && i <= j < |states| && r !in states[i].db.txns
    ensures states[i].db.last <= states[j].db.last
    ensures r in states[j].db.txns && states[j].db.txns[r].mark.Some? ==>
              states[i].db.last <= states[j].db.txns[r].mark.value
    ensures forall p <- states[i].db.table :: p in states[j].db.table && states[j].db.table[p] == states[i].db.table[p]
  {
    hide SubscriberOk, DbOk, Enabled, Apply;
    if i < j {
      MarkSinceState(h, states, steps, i, j - 1, r);
      SystemHolds(h, states, steps, j - 1);
      DbForward(h, states[j - 1], steps[j - 1], r);
    }
  }

  /** Nothing is missed: once a subscriber has drained a read begun after an event it is due was
      committed, that event is delivered or pending, even if higher positions were committed earlier. */
  lemma NothingMissed(h: Hash, states: seq<State>, steps: seq<Step>, i: nat, j: nat, id: nat, p: nat)
    requires Execution(h, states, steps) && i <= j < |states| && id in states[j].subscribers
    requires var sub := states[j].subscribers[id];
             && sub.drained.Some? && sub.drained.value !in states[i].db.txns
             && p in states[i].db.table && sub.start < p && OverlapsQuery(sub.query, states[i].db.table[p])
    ensures var sub := states[j].subscribers[id];
            SequencedEvent(states[i].db.table[p], p) in sub.delivered + sub.pending
  {
    hide Enabled, Apply, Inv, ResultsOk;
    var db, sub := states[j].db, states[j].subscribers[id];
    SystemHolds(h, states, steps, i);
    SystemHolds(h, states, steps, j);
    assert SubscriberOk(db, sub);
    RowsArePositive(h, states[i].db, p);
    MarkSinceState(h, states, steps, i, j, sub.drained.value);
    ExactlyOnce(h, states, steps, j, id);
    assert SequencedEvent(states[i].db.table[p], p) == RowAt(db, p);
  }

  // ----- in terms of the steps taken -----

  lemma SubscribedAs(h: Hash, states: seq<State>, steps: seq<Step>, k: nat, n: nat, id: nat, query: Query,
                     after: Option<nat>)
    requires Execution(h, states, steps) && k < n < |states| && steps[k] == Subscribe(id, query, after)
    ensures id in states[n].subscribers
    ensures states[n].subscribers[id].query == query
    ensures after.Some? ==> states[n].subscribers[id].start == after.value
    ensures after.None? ==> states[n].subscribers[id].start == 0
  {
    assert states[k + 1] == Apply(h, states[k], steps[k]);
    DeliveriesGrow(h, states, steps, k + 1, n, id);
    hide Enabled, Apply, Execution;
  }

  /** In every state after a subscriber has asked for `query` after `after`, what it has been delivered and
      has pending is, in ascending order, committed events that the query selects after `after`; and once it
      has drained a read, all of them up to that read's mark. */
  lemma SubscribedExactly(h: Hash, states: seq<State>, steps: seq<Step>, k: nat, n: nat, id: nat, query: Query,
                          after: Option<nat>)
    requires Execution(h, states, steps) && k < n < |states| && steps[k] == Subscribe(id, query, after)
    ensures id in states[n].subscribers
    ensures var db, sub := states[n].db, states[n].subscribers[id]; var all := sub.delivered + sub.pending;
            && (forall i, j :: 0 <= i < j < |all| ==> all[i].position < all[j].position)
            && (forall row <- all ::
                  && row.position in db.table && db.table[row.position] == row.event && OverlapsQuery(query, row.event)
                  && (if after.Some? then row.position > after.value else row.position > 0))
            && (sub.drained.Some? ==>
                  && sub.drained.value in db.txns && db.txns[sub.drained.value].mark.Some?
                  && forall p <- db.table | p <= db.txns[sub.drained.value].mark.value
                       && (after.Some? ==> p > after.value) && OverlapsQuery(query, db.table[p]) ::
                       SequencedEvent(db.table[p], p) in all)
  {
    hide Enabled, Apply, Inv, ResultsOk, OverlapsQuery, Due;
    SubscribedAs(h, states, steps, k, n, id, query, after);
    ExactlyOnce(h, states, steps, n, id);
    SystemHolds(h, states, steps, n);
    var db, sub := states[n].db, states[n].subscribers[id];
    assert SubscriberOk(db, sub);
    forall p | p in db.table ensures p > 0 && RowAt(db, p) == SequencedEvent(db.table[p], p) {
      RowsArePositive(h, db, p);
    }
  }

  /** The read a subscriber is waiting for began after any earlier state in which it waited for none. */
  lemma {:induction false} ReadingSince(h: Hash, states: seq<State>, steps: seq<Step>, k: nat, m: nat, id: nat)
    requires Execution(h, states, steps) && k <= m < |states|
    requires id in states[k].subscribers && states[k].subscribers[id].reading == None
    ensures id in states[m].subscribers
    ensures states[m].subscribers[id].reading.Some? ==>
              states[m].subscribers[id].reading.value !in states[k].db.txns
    ensures forall r <- states[k].db.txns :: r in states[m].db.txns
  {
    hide P.VerdictOf, P.ScanOf, P.Inserted, P.EventsOf, P.LocksOf, P.ValidJob, SubscriberOk, DbOk;
    if k < m {
      ReadingSince(h, states, steps, k, m - 1, id);
      assert states[m] == Apply(h, states[m - 1], steps[m - 1]);
    }
  }

  /** A drain catches up: when a subscriber starts a drain after an event has been committed, and then
      finishes a drain, the event, if its query selects it after its After, is delivered or pending. */
  lemma DrainCatchesUp(h: Hash, states: seq<State>, steps: seq<Step>, j: nat, i: nat, k: nat, m: nat, id: nat,
                       query: Query, after: Option<nat>, p: nat)
    requires Execution(h, states, steps) && j < k && i <= k < m < |steps|
    requires steps[j] == Subscribe(id, query, after)
    requires steps[k].StartDrain? && steps[k].id == id && steps[m] == FinishDrain(id)
    requires p in states[i].db.table && OverlapsQuery(query, states[i].db.table[p])
    requires after.Some? ==> p > after.value
    ensures id in states[m + 1].subscribers
    ensures var sub := states[m + 1].subscribers[id];
            SequencedEvent(states[i].db.table[p], p) in sub.delivered + sub.pending
  {
    SubscribedAs(h, states, steps, j, m + 1, id, query, after);
    SubscribedAs(h, states, steps, j, k, id, query, after);
    FinishesSince(h, states, steps, k, m, id);
    TxnsSince(h, states, steps, i, k);
    hide *;
    PositiveAt(h, states, steps, i, p);
    NothingMissed(h, states, steps, i, m + 1, id, p);
  }

  lemma PositiveAt(h: Hash, states: seq<State>, steps: seq<Step>, i: nat, p: nat)
    requires Execution(h, states, steps) && i < |states| && p in states[i].db.table
    ensures p > 0
  {
    hide Enabled, Apply, Inv, ResultsOk, SubscriberOk;
    SystemHolds(h, states, steps, i);
    RowsArePositive(h, states[i].db, p);
  }

  lemma FinishesSince(h: Hash, states: seq<State>, steps: seq<Step>, k: nat, m: nat, id: nat)
    requires Execution(h, states, steps) && k < m < |steps|
    requires steps[k].StartDrain? && steps[k].id == id && steps[m] == FinishDrain(id)
    ensures id in states[m + 1].subscribers
    ensures states[m + 1].subscribers[id].drained.Some?
    ensures states[m + 1].subscribers[id].drained.value !in states[k].db.txns
  {
    hide P.Enabled, P.Apply;
    ReadingSince(h, states, steps, k, m, id);
    assert states[m + 1] == Apply(h, states[m], steps[m]);
  }

  lemma {:induction false} TxnsSince(h: Hash, states: seq<State>, steps: seq<Step>, i: nat, k: nat)
    requires Execution(h, states, steps) && i <= k < |states|
    ensures forall r <- states[i].db.txns :: r in states[k].db.txns
  {
    hide P.VerdictOf, P.ScanOf, P.Inserted, P.EventsOf, P.LocksOf, P.ValidJob;
    if i < k {
      TxnsSince(h, states, steps, i, k - 1);
      assert states[k] == Apply(h, states[k - 1], steps[k - 1]);
    }
  }

  /** How many of the steps deliver to the subscriber. */
  function Deliveries(steps: seq<Step>, id: nat): nat {
    if steps == [] then 0
    else Deliveries(steps[..|steps| - 1], id) + if steps[|steps| - 1] == Deliver(id) then 1 else 0
  }

  lemma DeliversOne(h: Hash, s: State, step: Step, id: nat)
    requires Enabled(h, s, step) && id in Apply(h, s, step).subscribers
    ensures id !in s.subscribers ==> step.Subscribe? && Apply(h, s, step).subscribers[id].delivered == []
    ensures id in s.subscribers ==>
              |Apply(h, s, step).subscribers[id].delivered|
              == |s.subscribers[id].delivered| + if step == Deliver(id) then 1 else 0
  {
    hide P.Enabled, P.Apply;
  }

  /** Every delivery hands over one event: a subscriber has been delivered as many as it has taken. */
  lemma {:induction false} EveryDeliveryCounts(h: Hash, states: seq<State>, steps: seq<Step>, n: nat, id: nat)
    requires Execution(h, states, steps) && n < |states|
    ensures id !in states[n].subscribers ==> Deliveries(steps[..n], id) == 0
    ensures id in states[n].subscribers ==> |states[n].subscribers[id].delivered| == Deliveries(steps[..n], id)
  {
    hide P.Enabled, P.Apply;
    if n > 0 {
      EveryDeliveryCounts(h, states, steps, n - 1, id);
      assert steps[..n][..n - 1] == steps[..n - 1];
      assert states[n] == Apply(h, states[n - 1], steps[n - 1]);
      if id in states[n].subscribers {
        DeliversOne(h, states[n - 1], steps[n - 1], id);
      }
    }
  }

  /** A subscriber that has failed or been closed is left as it is. */
  lemma {:induction false} EndedStays(h: Hash, states: seq<State>, steps: seq<Step>, i: nat, j: nat, id: nat)
    requires Execution(h, states, steps) && i <= j < |states|
    requires id in states[i].subscribers && !states[i].subscribers[id].phase.Listening?
    ensures id in states[j].subscribers && states[j].subscribers[id] == states[i].subscribers[id]
  {
    hide P.Enabled, P.Apply;
    if i < j {
      EndedStays(h, states, steps, i, j - 1, id);
      assert states[j] == Apply(h, states[j - 1], steps[j - 1]);
    }
  }

  /** A listening subscriber can be closed at any time, and fails when its read has been aborted. */
  lemma CanEnd(h: Hash, s: State, id: nat)
    requires id in s.subscribers && s.subscribers[id].phase.Listening?
    ensures Enabled(h, s, Close(id))
    ensures var reading := s.subscribers[id].reading;
            reading.Some? && reading.value in s.db.txns && s.db.txns[reading.value].phase.Aborted?
            ==> Enabled(h, s, FailDrain(id))
  {}

  /** After a close or a failed drain, nothing more is drained or delivered. */
  lemma EndedForGood(h: Hash, states: seq<State>, steps: seq<Step>, k: nat, n: nat, id: nat)
    requires Execution(h, states, steps) && k < n < |states|
    requires steps[k] == Close(id) || steps[k] == FailDrain(id)
    ensures id in states[k].subscribers && id in states[n].subscribers
    ensures states[n].subscribers[id].delivered == states[k].subscribers[id].delivered
    ensures states[n].subscribers[id].pending == states[k].subscribers[id].pending
    ensures states[n].subscribers[id].phase == if steps[k].Close? then Closed else Failed
  {
    hide P.Enabled, P.Apply;
    assert states[k + 1] == Apply(h, states[k], steps[k]);
    EndedStays(h, states, steps, k + 1, n, id);
  }
}
