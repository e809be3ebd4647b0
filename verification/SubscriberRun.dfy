/** A Postgres subscriber left to itself: one drain, and it has been delivered
    everything that is committed and due to it. */
module SubscriberRun {
  import opened EventStore
  import opened Logs
  import opened LockKeys
  import opened Serialize
  import opened AppendTheorems
  import opened BarrierTheorems
  import opened ProtocolInvariants
  import opened Runs
  import opened SoloRun
  import opened Subscription

  /** The run with one more step. */
  lemma OneMore(h: Hash, states: seq<State>, steps: seq<Step>, step: Step) returns (states': seq<State>)
    requires Execution(h, states, steps) && Enabled(h, states[|states| - 1], step)
    ensures Execution(h, states', steps + [step]) && states <= states'
    ensures states'[|states'| - 1] == Apply(h, states[|states| - 1], step)
  {
    hide Enabled, Apply;
    states' := states + [Apply(h, states[|states| - 1], step)];
    var steps' := steps + [step];
    forall i | 0 <= i < |steps'|
      ensures Enabled(h, states'[i], steps'[i]) && states'[i + 1] == Apply(h, states'[i], steps'[i])
    {
      if i < |steps| {
        assert steps'[i] == steps[i] && states'[i] == states[i] && states'[i + 1] == states[i + 1];
      }
    }
  }

  /** A run of the database alone, with the subscribers looking on. */
  lemma {:induction false} DatabaseRuns(h: Hash, states: seq<State>, steps: seq<Step>, run: seq<P.Step>, db: P.State)
    returns (states': seq<State>, steps': seq<Step>)
    requires Execution(h, states, steps) && RunFrom(h, states[|states| - 1].db, run, db)
    ensures Execution(h, states', steps') && states <= states' && steps <= steps'
    ensures states'[|states'| - 1] == states[|states| - 1].(db := db)
    decreases |run|
  {
    hide P.Enabled, P.Apply;
    if run == [] {
      states', steps' := states, steps;
    } else {
      var step := Database(run[0]);
      var states1 := OneMore(h, states, steps, step);
      hide Execution;
      states', steps' := DatabaseRuns(h, states1, steps + [step], run[1..], db);
    }
  }

  lemma {:induction false} TakesPending(h: Hash, states: seq<State>, steps: seq<Step>, id: nat)
    returns (states': seq<State>, steps': seq<Step>)
    requires Execution(h, states, steps)
    requires id in states[|states| - 1].subscribers && states[|states| - 1].subscribers[id].phase.Listening?
    ensures Execution(h, states', steps') && states <= states' && steps <= steps'
    ensures var s, s' := states[|states| - 1], states'[|states'| - 1];
            && s'.db == s.db && id in s'.subscribers
            && var a, b := s.subscribers[id], s'.subscribers[id];
               b.pending == [] && b.query == a.query && b.start == a.start && b.drained == a.drained
               && b.reading == a.reading && b.phase == a.phase
    decreases |states[|states| - 1].subscribers[id].pending|
  {
    hide P.Enabled, P.Apply;
    var s := states[|states| - 1];
    if s.subscribers[id].pending == [] {
      states', steps' := states, steps;
    } else {
      var states1 := OneMore(h, states, steps, Deliver(id));
      hide Execution;
      states', steps' := TakesPending(h, states1, steps + [Deliver(id)], id);
    }
  }

  /** One drain, by itself. */
  lemma DrainsAlone(h: Hash, states: seq<State>, steps: seq<Step>, id: nat, reader: nat)
    returns (states': seq<State>, steps': seq<Step>)
    requires Execution(h, states, steps)
    requires var s := states[|states| - 1];
             && id in s.subscribers && s.subscribers[id].phase.Listening?
             && s.subscribers[id].pending == [] && s.subscribers[id].reading == None
             && Quiet(s.db) && reader !in s.db.txns
             && WellFormedQuery(s.subscribers[id].query) && TokenItems(ItemsOf(s.subscribers[id].query))
    ensures Execution(h, states', steps') && states <= states' && steps <= steps'
    ensures var s, s' := states[|states| - 1], states'[|states'| - 1];
            && s'.db.table == s.db.table && s'.db.last == s.db.last && id in s'.subscribers
            && reader in s'.db.txns && s'.db.txns[reader].mark == Some(s.db.last)
            && var a, b := s.subscribers[id], s'.subscribers[id];
               && b.drained == Some(reader) && b.reading == None && b.phase.Listening?
               && b.query == a.query && b.start == a.start
  {
    hide P.VerdictOf, P.ScanOf, P.Inserted, P.EventsOf, P.LocksOf, KeyOrdered, RunFrom, ReadResult, P.Listing;
    var s := states[|states| - 1];
    var sub := s.subscribers[id];
    var plan := PlanExists(P.LocksOf(h, P.Read(sub.query, Some(sub.position), 0)));
    var states1 := OneMore(h, states, steps, StartDrain(id, reader, plan));
    var s1 := states1[|states1| - 1];
    var run, db := ReadFinishesAlone(h, s1.db, reader);
    var states2, steps2 := DatabaseRuns(h, states1, steps + [StartDrain(id, reader, plan)], run, db);
    states' := OneMore(h, states2, steps2, FinishDrain(id));
    steps' := steps2 + [FinishDrain(id)];
  }

  /** A subscriber that waits for nothing can, where no lock is held, drain and be delivered everything: every
      committed event that its query selects after its start. */
  lemma CatchesUp(h: Hash, states: seq<State>, steps: seq<Step>, id: nat, reader: nat)
    returns (states': seq<State>, steps': seq<Step>)
    requires Execution(h, states, steps)
    requires var s := states[|states| - 1];
             && id in s.subscribers && s.subscribers[id].phase.Listening? && s.subscribers[id].reading == None
             && Quiet(s.db) && reader !in s.db.txns
             && WellFormedQuery(s.subscribers[id].query) && TokenItems(ItemsOf(s.subscribers[id].query))
    ensures Execution(h, states', steps') && states <= states' && steps <= steps'
    ensures var s, s' := states[|states| - 1], states'[|states'| - 1];
            && s'.db.table == s.db.table && id in s'.subscribers && s'.subscribers[id].pending == []
            && forall p <- s.db.table | p > s.subscribers[id].start
                 && OverlapsQuery(s.subscribers[id].query, s.db.table[p]) ::
                 SequencedEvent(s.db.table[p], p) in s'.subscribers[id].delivered
  {
    hide *;
    var states1, steps1 := TakesPending(h, states, steps, id);
    var states2, steps2 := DrainsAlone(h, states1, steps1, id, reader);
    states', steps' := TakesPending(h, states2, steps2, id);
    Drained(h, states', steps', id);
  }

  lemma Drained(h: Hash, states: seq<State>, steps: seq<Step>, id: nat)
    requires Execution(h, states, steps)
    requires id in states[|states| - 1].subscribers && states[|states| - 1].subscribers[id].pending == []
    requires var s := states[|states| - 1]; var drained := s.subscribers[id].drained;
             drained.Some? && drained.value in s.db.txns && s.db.txns[drained.value].mark == Some(s.db.last)
    ensures var s := states[|states| - 1];
            forall p <- s.db.table | p > s.subscribers[id].start
              && OverlapsQuery(s.subscribers[id].query, s.db.table[p]) ::
              SequencedEvent(s.db.table[p], p) in s.subscribers[id].delivered
  {
    hide Enabled, Apply, OverlapsQuery, Inv, ResultsOk, SubscriberOk;
    var n := |states| - 1;
    var s, sub := states[n], states[n].subscribers[id];
    SystemHolds(h, states, steps, n);
    ExactlyOnce(h, states, steps, n, id);
    assert sub.delivered + sub.pending == sub.delivered;
    forall p | p in s.db.table && p > sub.start && OverlapsQuery(sub.query, s.db.table[p])
      ensures SequencedEvent(s.db.table[p], p) in sub.delivered
    {
      RowsArePositive(h, s.db, p);
      assert RowAt(s.db, p) == SequencedEvent(s.db.table[p], p);
    }
  }
}
