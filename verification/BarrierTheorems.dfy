/** Forward reads: once a barrier has its mark, nothing at or below it that the
    query selects is still to come. */
module BarrierTheorems {
  import opened EventStore
  import opened Logs
  import opened LockKeys
  import opened ReadAnswer
  import opened Protocol
  import opened ProtocolInvariants
  import opened AppendTheorems

  ghost predicate MarkedRead(s: State, r: nat) {
    r in s.txns && s.txns[r].job.Read? && s.txns[r].mark.Some?
  }

  lemma SelectedMakesRivals(h: Hash, s: State, r: nat, v: nat, k: nat)
    requires Inv(h, s) && r in s.txns && s.txns[r].job.Read? && v in s.txns
    requires k < |EventsOf(s.txns[v].job)| && OverlapsQuery(s.txns[r].job.query, EventsOf(s.txns[v].job)[k])
    ensures Rivals(h, s.txns[r], s.txns[v])
  {
    hide Inv;
    TxnOkOf(h, s, r);
    TxnOkOf(h, s, v);
    EventsAsGiven(h, s.last, s.txns[v]);
    QueryCovered(h, s.txns[r].job.query, s.txns[v].job.commands, EventsOf(s.txns[v].job)[k]);
  }

  /** In every reachable state: an event the query selects (by tag overlap, so every documented match
      too) whose position is at or below the mark of the read belongs to an append that is over. */
  lemma BarrierComplete(h: Hash, states: seq<State>, steps: seq<Step>, n: nat, r: nat, v: nat, k: nat)
    requires Execution(h, states, steps) && n < |states| && MarkedRead(states[n], r)
    requires var s := states[n];
             && v in s.txns && k < |s.txns[v].positions| && k < |EventsOf(s.txns[v].job)|
             && OverlapsQuery(s.txns[r].job.query, EventsOf(s.txns[v].job)[k])
             && s.txns[v].positions[k] <= s.txns[r].mark.value
    ensures states[n].txns[v].phase.Committed? || states[n].txns[v].phase.Aborted?
  {
    hide Inv;
    var s := states[n];
    InvHolds(h, states, steps, n);
    TxnOkOf(h, s, r);
    TxnOkOf(h, s, v);
    SelectedMakesRivals(h, s, r, v, k);
    OrderedOf(h, s, r, v);
    assert s.txns[v].positions[k] in s.txns[v].positions;
  }

  /** No commit adds a selected row at or below the mark. */
  lemma NewRowAboveBarrier(h: Hash, s: State, r: nat, v: nat, p: nat)
    requires Inv(h, s) && MarkedRead(s, r) && Enabled(h, s, Commit(v))
    requires p in Apply(h, s, Commit(v)).table && p !in s.table
    requires OverlapsQuery(s.txns[r].job.query, Apply(h, s, Commit(v)).table[p])
    ensures p > s.txns[r].mark.value
  {
    hide Inv, ScanOf, VerdictOf, Inserted;
    CommittedRows(h, s, v);
    var k :| 0 <= k < |s.txns[v].positions| && s.txns[v].positions[k] == p;
    SelectedMakesRivals(h, s, r, v, k);
    assert r != v by {
      TxnOkOf(h, s, v);
    }
    OrderedOf(h, s, r, v);
    assert p in s.txns[v].positions;
  }

  /** The filter of a read's bounded scan, resumed after any position. */
  function ScanFilter(job: Job, after: Option<nat>, mark: Option<nat>): Filter
    requires job.Read?
  {
    Filter(Overlap, job.query, false, after, mark)
  }

  lemma SelectedAlike(h: Hash, s: State, step: Step, r: nat, after: Option<nat>, row: SequencedEvent)
    requires Inv(h, s) && Enabled(h, s, step) && MarkedRead(s, r)
    ensures var s', f := Apply(h, s, step), ScanFilter(s.txns[r].job, after, s.txns[r].mark);
            (row in Listing(s'.table, s'.last) && Keeps(f, row)) <==> (row in Listing(s.table, s.last) && Keeps(f, row))
  {
    hide Inv, ScanOf, VerdictOf, Inserted, Listing, OverlapsQuery;
    var s' := Apply(h, s, step);
    InvStep(h, s, step);
    TableGrows(h, s, step);
    ListedIffInTable(h, s, row);
    ListedIffInTable(h, s', row);
    var p := row.position;
    if p in s'.table && p !in s.table && OverlapsQuery(s.txns[r].job.query, s'.table[p]) {
      NewRowAboveBarrier(h, s, r, step.id, p);
    }
  }

  /** No step changes which rows up to its mark a marked read selects. */
  lemma SelectStep(h: Hash, s: State, step: Step, r: nat, after: Option<nat>)
    requires Inv(h, s) && Enabled(h, s, step) && MarkedRead(s, r)
    ensures var s', f := Apply(h, s, step), ScanFilter(s.txns[r].job, after, s.txns[r].mark);
            Select(Listing(s'.table, s'.last), f) == Select(Listing(s.table, s.last), f)
  {
    hide Inv, VerdictOf, Inserted, Listing, Keeps;
    var s', f := Apply(h, s, step), ScanFilter(s.txns[r].job, after, s.txns[r].mark);
    var log, log' := Listing(s.table, s.last), Listing(s'.table, s'.last);
    ListingAscending(s.table, s.last);
    ListingAscending(s'.table, s'.last);
    SelectAscending(log, f);
    SelectAscending(log', f);
    forall row ensures row in Select(log', f) <==> row in Select(log, f) {
      SelectedRow(log, f, row);
      SelectedRow(log', f, row);
      SelectedAlike(h, s, step, r, after, row);
    }
    AscendingUnique(Select(log', f), Select(log, f));
  }

  /** No step changes what the scan of a marked read would return. */
  lemma ScanStep(h: Hash, s: State, step: Step, r: nat)
    requires Inv(h, s) && Enabled(h, s, step) && MarkedRead(s, r)
    ensures ScanOf(Apply(h, s, step), s.txns[r]) == ScanOf(s, s.txns[r])
  {
    hide Inv, Enabled, Apply;
    SelectStep(h, s, step, r, s.txns[r].job.after);
  }

  lemma MarkedReadKept(h: Hash, s: State, step: Step, r: nat)
    requires Inv(h, s) && Enabled(h, s, step) && MarkedRead(s, r)
    ensures MarkedRead(Apply(h, s, step), r)
    ensures var t, t' := s.txns[r], Apply(h, s, step).txns[r]; t'.job == t.job && t'.mark == t.mark
  {
    hide Inv, VerdictOf, ScanOf;
    TxnOkOf(h, s, r);
  }

  /** The barrier is stable: from the moment a read has its mark, its scan returns the same rows in
      every later state, whatever commits, aborts or begins in between. */
  lemma {:induction false} BarrierStable(h: Hash, states: seq<State>, steps: seq<Step>, i: nat, j: nat, r: nat)
    requires Execution(h, states, steps) && i <= j < |states| && MarkedRead(states[i], r)
    ensures MarkedRead(states[j], r)
    ensures var t, t' := states[i].txns[r], states[j].txns[r]; t'.job == t.job && t'.mark == t.mark
    ensures ScanOf(states[j], states[j].txns[r]) == ScanOf(states[i], states[i].txns[r])
  {
    hide Inv, Enabled, Apply, ScanOf;
    if i < j {
      BarrierStable(h, states, steps, i, j - 1, r);
      InvHolds(h, states, steps, j - 1);
      ScanStep(h, states[j - 1], steps[j - 1], r);
      MarkedReadKept(h, states[j - 1], steps[j - 1], r);
      ScanSame(states[j], states[j - 1].txns[r], states[j].txns[r]);
    }
  }

  lemma ScanSame(s: State, t: Txn, t': Txn)
    requires t.job.Read? && t.mark.Some? && t'.job == t.job && t'.mark == t.mark
    ensures ScanOf(s, t') == ScanOf(s, t)
  {}

  // ----- results -----

  ghost predicate ResultOk(s: State, t: Txn) {
    t.phase.Scanned? && t.job.Read? && t.mark.Some? ==> t.phase.result == ScanOf(s, t)
  }

  ghost predicate ResultsOk(s: State) {
    forall r <- s.txns :: ResultOk(s, s.txns[r])
  }

  lemma ResultOkStep(h: Hash, s: State, step: Step, r: nat)
    requires Inv(h, s) && ResultsOk(s) && Enabled(h, s, step) && r in Apply(h, s, step).txns
    ensures ResultOk(Apply(h, s, step), Apply(h, s, step).txns[r])
  {
    hide Inv, VerdictOf, ScanOf;
    if MarkedRead(s, r) {
      assert ResultOk(s, s.txns[r]);
      ScanStep(h, s, step, r);
      MarkedReadKept(h, s, step, r);
      ScanSame(Apply(h, s, step), s.txns[r], Apply(h, s, step).txns[r]);
    } else if r in s.txns {
      TxnOkOf(h, s, r);
    }
  }

  lemma ResultsOkStep(h: Hash, s: State, step: Step)
    requires Inv(h, s) && ResultsOk(s) && Enabled(h, s, step)
    ensures ResultsOk(Apply(h, s, step))
  {
    hide Inv, Enabled, Apply, ResultOk;
    forall r | r in Apply(h, s, step).txns ensures ResultOk(Apply(h, s, step), Apply(h, s, step).txns[r]) {
      ResultOkStep(h, s, step, r);
    }
  }

  lemma {:induction false} ResultsHold(h: Hash, states: seq<State>, steps: seq<Step>, n: nat)
    requires Execution(h, states, steps) && n < |states|
    ensures Inv(h, states[n]) && ResultsOk(states[n])
  {
    hide Inv, Enabled, Apply, ResultOk;
    InvHolds(h, states, steps, n);
    if n > 0 {
      ResultsHold(h, states, steps, n - 1);
      ResultsOkStep(h, states[n - 1], steps[n - 1]);
    }
  }

  /** In every reachable state a finished read's result is still what its scan would return. */
  lemma ResultHolds(h: Hash, states: seq<State>, steps: seq<Step>, n: nat, r: nat)
    requires Execution(h, states, steps) && n < |states| && r in states[n].txns && states[n].txns[r].phase.Scanned?
    ensures MarkedRead(states[n], r) && states[n].txns[r].phase.result == ScanOf(states[n], states[n].txns[r])
  {
    hide Inv, Enabled, Apply, ScanOf;
    ResultsHold(h, states, steps, n);
    TxnOkOf(h, states[n], r);
    assert ResultOk(states[n], states[n].txns[r]);
  }

  /** In every reachable state, a finished read's result holds only committed rows that its query selects,
      after its After and at or below its mark, in ascending order, no more than a positive limit; and such a
      row is missing only where the limit is used up, and is above all of the result. */
  lemma ScannedAnswers(h: Hash, states: seq<State>, steps: seq<Step>, n: nat, r: nat)
    requires Execution(h, states, steps) && n < |states| && r in states[n].txns && states[n].txns[r].phase.Scanned?
    ensures states[n].txns[r].job.Read? && states[n].txns[r].mark.Some?
    ensures var s, t := states[n], states[n].txns[r]; var result, after := t.phase.result, t.job.after;
            && (forall row <- result ::
                  && row.position in s.table && row.event == s.table[row.position]
                  && row.position <= t.mark.value && (after.Some? ==> row.position > after.value)
                  && OverlapsQuery(t.job.query, row.event))
            && (forall i, j :: 0 <= i < j < |result| ==> result[i].position < result[j].position)
            && (t.job.limit > 0 ==> |result| <= t.job.limit)
            && (forall p <- s.table ::
                  && p <= t.mark.value && (after.Some? ==> p > after.value) && OverlapsQuery(t.job.query, s.table[p])
                  && SequencedEvent(s.table[p], p) !in result ==>
                    t.job.limit > 0 && |result| == t.job.limit && forall row <- result :: row.position < p)
  {
    hide Inv, Enabled, Apply, Listing, OverlapsQuery, ReadResult;
    var s, t := states[n], states[n].txns[r];
    InvHolds(h, states, steps, n);
    ResultHolds(h, states, steps, n, r);
    ListingAscending(s.table, s.last);
    var options := ReadOptions(false, t.job.after, t.job.limit);
    ReadResultAnswers(Listing(s.table, s.last), Overlap, t.job.query, options, t.mark);
    forall row ensures row in Listing(s.table, s.last) <==> row.position in s.table && row == RowAt(s, row.position) {
      ListedIffInTable(h, s, row);
    }
    forall i, j | 0 <= i < j < |t.phase.result| ensures t.phase.result[i].position < t.phase.result[j].position {
      assert Before(false, t.phase.result[i], t.phase.result[j]);
    }
    forall p | p in s.table ensures SequencedEvent(s.table[p], p) in Listing(s.table, s.last) {
      assert RowAt(s, p) == SequencedEvent(s.table[p], p);
    }
  }

  lemma RowOfResult(s: State, t: Txn, row: SequencedEvent)
    requires t.job.Read? && t.mark.Some? && t.job.limit <= 0
    ensures row in ScanOf(s, t) <==>
              row in Listing(s.table, s.last) && Keeps(ScanFilter(t.job, t.job.after, t.mark), row)
  {
    SelectedRow(Listing(s.table, s.last), ScanFilter(t.job, t.job.after, t.mark), row);
  }

  /** Nothing is skipped: an unlimited forward read returns every event, selected by its query and
      after its After, that was committed before the read began. */
  lemma ReadsAllCommittedBefore(h: Hash, states: seq<State>, steps: seq<Step>, i: nat, j: nat, r: nat, p: nat)
    requires Execution(h, states, steps) && i <= j < |states|
    requires r !in states[i].txns && r in states[j].txns && states[j].txns[r].phase.Scanned?
    requires states[j].txns[r].job.Read? && states[j].txns[r].job.limit <= 0
    requires p in states[i].table && IsAfter(p, states[j].txns[r].job.after)
    requires OverlapsQuery(states[j].txns[r].job.query, states[i].table[p])
    ensures SequencedEvent(states[i].table[p], p) in states[j].txns[r].phase.result
  {
    hide Inv, VerdictOf, ScanOf, Listing;
    var s, t := states[j], states[j].txns[r];
    var row := SequencedEvent(states[i].table[p], p);
    InvHolds(h, states, steps, i);
    InvHolds(h, states, steps, j);
    ResultHolds(h, states, steps, j, r);
    MarkSince(h, states, steps, i, j, r);
    RowsArePositive(h, states[i], p);
    RowsStay(h, states, steps, i, j, p);
    ListedIffInTable(h, s, row);
    RowOfResult(s, t, row);
  }

  lemma {:induction false} RowsStay(h: Hash, states: seq<State>, steps: seq<Step>, i: nat, j: nat, p: nat)
    requires Execution(h, states, steps) && i <= j < |states| && p in states[i].table
    ensures p in states[j].table && states[j].table[p] == states[i].table[p]
  {
    hide Inv, Enabled, Apply;
    if i < j {
      RowsStay(h, states, steps, i, j - 1, p);
      InvHolds(h, states, steps, j - 1);
      TableGrows(h, states[j - 1], steps[j - 1]);
    }
  }

  /** A scan with a lower mark is a prefix of the same scan with a higher one. */
  lemma ScanPrefix(log: seq<SequencedEvent>, meaning: Meaning, query: Query, after: Option<nat>, a: nat, b: nat)
    requires Ascending(log) && a <= b
    ensures Select(log, Filter(meaning, query, false, after, Some(a)))
         <= Select(log, Filter(meaning, query, false, after, Some(b)))
  {
    var f, g := Filter(meaning, query, false, after, Some(a)), Filter(meaning, query, false, after, Some(b));
    SelectAscending(log, f);
    SelectAscending(log, g);
    forall row ensures row in Select(log, f) <==> row in Select(log, g) && row.position <= a {
      SelectedRow(log, f, row);
      SelectedRow(log, g, row);
    }
    AscendingPrefix(Select(log, f), Select(log, g));
  }

  /** Reads are prefix-monotone: of two unlimited forward reads of one query with the same After, the
      result of one that has ended before the other begins is a prefix of the other's. */
  lemma PrefixMonotone(h: Hash, states: seq<State>, steps: seq<Step>, i: nat, j: nat, first: nat, second: nat)
    requires Execution(h, states, steps) && i <= j < |states|
    requires first in states[i].txns && states[i].txns[first].phase.Scanned? && second !in states[i].txns
    requires second in states[j].txns && states[j].txns[second].phase.Scanned?
    requires states[i].txns[first].job == states[j].txns[second].job
    requires states[i].txns[first].job.Read? && states[i].txns[first].job.limit <= 0
    ensures states[i].txns[first].phase.result <= states[j].txns[second].phase.result
  {
    hide Inv, VerdictOf, Listing;
    var s, t, u := states[j], states[i].txns[first], states[j].txns[second];
    InvHolds(h, states, steps, i);
    TxnOkOf(h, states[i], first);
    ResultHolds(h, states, steps, i, first);
    ResultHolds(h, states, steps, j, second);
    BarrierStable(h, states, steps, i, j, first);
    MarkSince(h, states, steps, i, j, second);
    ListingAscending(s.table, s.last);
    ScanPrefix(Listing(s.table, s.last), Overlap, t.job.query, t.job.after, t.mark.value, u.mark.value);
  }
}
