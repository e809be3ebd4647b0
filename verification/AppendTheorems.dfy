/** Appends: the capped check is the whole check, every run refines atomic
    appends, and conditions hold in position order. */
module AppendTheorems {
  import opened EventStore
  import opened Serialize
  import opened LockKeys
  import opened Protocol
  import opened ProtocolInvariants
  import A = AtomicStore

  function RowAt(s: State, p: nat): SequencedEvent
    requires p in s.table
  {
    SequencedEvent(s.table[p], p)
  }

  ghost predicate HasCondition(job: Job, i: nat) {
    job.Append? && i < |job.commands| && job.commands[i].condition.Some?
  }

  function ConditionOf(job: Job, i: nat): AppendCondition
    requires HasCondition(job, i)
  {
    job.commands[i].condition.value
  }

  /** No condition is offended by a committed row at or below the mark. */
  ghost predicate Unoffended(s: State, job: Job, mark: nat) {
    forall i: nat, p: nat | HasCondition(job, i) && p in s.table && p <= mark ::
      !Offends(ConditionOf(job, i), RowAt(s, p))
  }

  /** This condition is offended by a committed row. */
  ghost predicate Offended(s: State, job: Job, i: nat) {
    HasCondition(job, i) && exists p <- s.table :: Offends(ConditionOf(job, i), RowAt(s, p))
  }

  ghost predicate VerdictOk(s: State, t: Txn) {
    && ((t.phase.Passed? || t.phase.Committed?) && t.mark.Some? ==> Unoffended(s, t.job, t.mark.value))
    && (t.phase.Rejected? ==> Offended(s, t.job, t.phase.index))
  }

  ghost predicate VerdictsOk(s: State) {
    forall id <- s.txns :: VerdictOk(s, s.txns[id])
  }

  // ----- rows and rivals -----

  lemma EventsAsGiven(h: Hash, last: nat, t: Txn)
    requires TxnOk(h, last, t) && t.job.Append?
    ensures EventsOf(t.job) == AllEvents(t.job.commands)
  {
    hide StoredAsGiven, FaithfulConditions, TokenCommands;
    AllStoredAsGiven(t.job.path, t.job.commands);
  }

  lemma RowsArePositive(h: Hash, s: State, p: nat)
    requires Inv(h, s) && p in s.table
    ensures 1 <= p <= s.last
  {
    hide Inv;
    var id, k := WriterOf(h, s, p);
    TxnOkOf(h, s, id);
    assert p in s.txns[id].positions;
  }

  lemma ListedIffInTable(h: Hash, s: State, row: SequencedEvent)
    requires Inv(h, s)
    ensures row in Listing(s.table, s.last) <==> row.position in s.table && row == RowAt(s, row.position)
  {
    ListedRow(s.table, s.last, row);
    if row.position in s.table {
      RowsArePositive(h, s, row.position);
    }
  }

  lemma MatchMakesRivals(h: Hash, s: State, w: nat, i: nat, v: nat, k: nat)
    requires Inv(h, s) && w in s.txns && v in s.txns && HasCondition(s.txns[w].job, i)
    requires k < |EventsOf(s.txns[v].job)|
    requires MatchesQuery(ConditionOf(s.txns[w].job, i).failIfEventsMatch, EventsOf(s.txns[v].job)[k])
    ensures Rivals(h, s.txns[w], s.txns[v])
  {
    hide Inv, StoredAsGiven, FaithfulConditions, TokenCommands, MatchesQuery, AppendLocks, StoredAll;
    var t, u := s.txns[w], s.txns[v];
    TxnOkOf(h, s, w);
    TxnOkOf(h, s, v);
    EventsAsGiven(h, s.last, u);
    assert t.job.commands[i] in t.job.commands;
    ConditionCovered(h, t.job.commands, i, u.job.commands, EventsOf(u.job)[k]);
  }

  /** While an append holds its locks, no row above its mark matches one of its conditions. */
  lemma NothingAboveTheMark(h: Hash, s: State, w: nat, i: nat, p: nat)
    requires Inv(h, s) && w in s.txns && Holding(s.txns[w]) && HasCondition(s.txns[w].job, i)
    requires p in s.table && MatchesQuery(ConditionOf(s.txns[w].job, i).failIfEventsMatch, s.table[p])
    ensures p <= s.txns[w].mark.value
  {
    hide Inv;
    var v, k := WriterOf(h, s, p);
    TxnOkOf(h, s, w);
    MatchMakesRivals(h, s, w, i, v, k);
    OrderedOf(h, s, w, v);
    assert p in s.txns[v].positions;
  }

  // ----- the mark loses nothing -----

  lemma SameViolations(h: Hash, s: State, w: nat)
    requires Inv(h, s) && w in s.txns && Holding(s.txns[w]) && s.txns[w].job.Append?
    ensures FirstViolation(s.txns[w].job.commands, UpTo(Listing(s.table, s.last), s.txns[w].mark.value))
         == FirstViolation(s.txns[w].job.commands, Listing(s.table, s.last))
  {
    hide Inv;
    var t := s.txns[w];
    TxnOkOf(h, s, w);
    var log := Listing(s.table, s.last);
    forall i | 0 <= i < |t.job.commands|
      ensures Violates(t.job.commands[i], UpTo(log, t.mark.value)) <==> Violates(t.job.commands[i], log)
    {
      forall row | row in log && HasCondition(t.job, i) && Offends(ConditionOf(t.job, i), row)
        ensures row in UpTo(log, t.mark.value)
      {
        ListedIffInTable(h, s, row);
        NothingAboveTheMark(h, s, w, i, row.position);
        RowUpTo(log, t.mark.value, row);
      }
      forall row | row in UpTo(log, t.mark.value) ensures row in log {
        RowUpTo(log, t.mark.value, row);
      }
    }
    FirstViolationDepends(t.job.commands, UpTo(log, t.mark.value), log);
  }

  lemma CappedVerdictIsWhole(h: Hash, s: State, w: nat)
    requires Inv(h, s) && w in s.txns && Holding(s.txns[w]) && s.txns[w].job.Append?
    ensures s.txns[w].mark.Some?
    ensures VerdictOf(s, s.txns[w]) == FirstViolation(s.txns[w].job.commands, Listing(s.table, s.last))
  {
    hide Inv;
    var t := s.txns[w];
    TxnOkOf(h, s, w);
    var log := Listing(s.table, s.last);
    forall row | row in log ensures row.position >= 1 {
      ListedRow(s.table, s.last, row);
    }
    TranslationPreservesMeaning(t.job.path, t.job.commands, log, t.mark.value);
    SameViolations(h, s, w);
  }

  /** In every reachable state, while an append holds its locks, checking its packed conditions only up to
      its mark, on either path, gives the verdict of checking its conditions against everything committed. */
  lemma MarkLosesNothing(h: Hash, states: seq<State>, steps: seq<Step>, n: nat, w: nat)
    requires Execution(h, states, steps) && n < |states|
    requires w in states[n].txns && Holding(states[n].txns[w]) && states[n].txns[w].job.Append?
    ensures var s, t := states[n], states[n].txns[w];
            && t.mark.Some?
            && VerdictOf(s, t) == FirstViolation(t.job.commands, Listing(s.table, s.last))
  {
    hide Inv, Enabled, Apply, VerdictOf, FirstViolation, Listing;
    InvHolds(h, states, steps, n);
    CappedVerdictIsWhole(h, states[n], w);
  }

  // ----- verdicts stay true -----

  lemma CheckedUnoffended(h: Hash, s: State, w: nat)
    requires Inv(h, s) && Enabled(h, s, Check(w))
    ensures var t := s.txns[w];
            match VerdictOf(s, t)
            case None => Unoffended(s, t.job, t.mark.value)
            case Some(i) => Offended(s, t.job, i)
  {
    hide Inv;
    var t := s.txns[w];
    var log := Listing(s.table, s.last);
    CappedVerdictIsWhole(h, s, w);
    match VerdictOf(s, t) {
      case None =>
        forall i: nat, p: nat | HasCondition(t.job, i) && p in s.table && p <= t.mark.value
          ensures !Offends(ConditionOf(t.job, i), RowAt(s, p))
        {
          ListedIffInTable(h, s, RowAt(s, p));
          assert !Violates(t.job.commands[i], log);
        }
      case Some(i) =>
        assert Violates(t.job.commands[i], log);
        var row :| row in log && Offends(ConditionOf(t.job, i), row);
        ListedIffInTable(h, s, row);
        assert Offends(ConditionOf(t.job, i), RowAt(s, row.position));
    }
  }

  /** A commit adds no row, at or below the mark of a checked append, that offends it. */
  lemma UnoffendedKept(h: Hash, s: State, step: Step, w: nat)
    requires Inv(h, s) && Enabled(h, s, step) && w in s.txns && s.txns[w].mark.Some?
    requires Unoffended(s, s.txns[w].job, s.txns[w].mark.value)
    ensures Unoffended(Apply(h, s, step), s.txns[w].job, s.txns[w].mark.value)
  {
    hide Inv, ScanOf, VerdictOf, Inserted;
    var t, s' := s.txns[w], Apply(h, s, step);
    TableGrows(h, s, step);
    forall i: nat, p: nat | HasCondition(t.job, i) && p in s'.table && p <= t.mark.value
      ensures !Offends(ConditionOf(t.job, i), RowAt(s', p))
    {
      if p in s.table {
        assert RowAt(s', p) == RowAt(s, p);
      } else {
        var v := step.id;
        CommittedRows(h, s, v);
        var k :| 0 <= k < |s.txns[v].positions| && s.txns[v].positions[k] == p;
        if Offends(ConditionOf(t.job, i), RowAt(s', p)) {
          NewRowAboveMark(h, s, w, i, v, k);
        }
      }
    }
  }

  lemma NewRowAboveMark(h: Hash, s: State, w: nat, i: nat, v: nat, k: nat)
    requires Inv(h, s) && Enabled(h, s, Commit(v)) && w in s.txns && s.txns[w].mark.Some?
    requires HasCondition(s.txns[w].job, i) && k < |s.txns[v].positions|
    requires k < |EventsOf(s.txns[v].job)|
    requires MatchesQuery(ConditionOf(s.txns[w].job, i).failIfEventsMatch, EventsOf(s.txns[v].job)[k])
    ensures s.txns[v].positions[k] > s.txns[w].mark.value
  {
    hide Inv;
    TxnOkOf(h, s, v);
    assert s.txns[v].positions[k] in s.txns[v].positions;
    if v != w {
      MatchMakesRivals(h, s, w, i, v, k);
      OrderedOf(h, s, w, v);
    }
  }

  lemma OffendedKept(h: Hash, s: State, step: Step, job: Job, i: nat)
    requires Inv(h, s) && Enabled(h, s, step) && Offended(s, job, i)
    ensures Offended(Apply(h, s, step), job, i)
  {
    TableGrows(h, s, step);
    var p :| p in s.table && Offends(ConditionOf(job, i), RowAt(s, p));
    assert RowAt(Apply(h, s, step), p) == RowAt(s, p);
  }

  lemma VerdictOkCheck(h: Hash, s: State, id: nat)
    requires Inv(h, s) && Enabled(h, s, Check(id))
    ensures VerdictOk(Apply(h, s, Check(id)), Moved(h, s, Check(id)))
  {
    hide Inv, VerdictOf, Offends;
    CheckedUnoffended(h, s, id);
  }

  lemma VerdictOkStep(h: Hash, s: State, step: Step, id: nat)
    requires Inv(h, s) && id in s.txns && VerdictOk(s, s.txns[id]) && Enabled(h, s, step)
    requires step != Check(id)
    ensures VerdictOk(Apply(h, s, step), Apply(h, s, step).txns[id])
  {
    hide Inv, ScanOf, VerdictOf, Inserted, Unoffended, Offended;
    var t, t' := s.txns[id], Apply(h, s, step).txns[id];
    if t.mark.Some? && Unoffended(s, t.job, t.mark.value) {
      UnoffendedKept(h, s, step, id);
    }
    if t.phase.Rejected? {
      OffendedKept(h, s, step, t.job, t.phase.index);
    }
  }

  lemma VerdictsOkStep(h: Hash, s: State, step: Step)
    requires Inv(h, s) && VerdictsOk(s) && Enabled(h, s, step)
    ensures VerdictsOk(Apply(h, s, step))
  {
    hide Inv, Unoffended, Offended, ScanOf, VerdictOf, Inserted;
    forall id | id in Apply(h, s, step).txns ensures VerdictOk(Apply(h, s, step), Apply(h, s, step).txns[id]) {
      if step == Check(id) {
        VerdictOkCheck(h, s, id);
      } else if id in s.txns {
        VerdictOkStep(h, s, step, id);
      }
    }
  }

  lemma {:induction false} VerdictsHold(h: Hash, states: seq<State>, steps: seq<Step>, i: nat)
    requires Execution(h, states, steps) && i < |states|
    ensures Inv(h, states[i]) && VerdictsOk(states[i])
  {
    hide Inv, VerdictOk, Enabled, Apply;
    InvHolds(h, states, steps, i);
    if i > 0 {
      VerdictsHold(h, states, steps, i - 1);
      VerdictsOkStep(h, states[i - 1], steps[i - 1]);
    }
  }

  // ----- refinement -----

  function LastOf(positions: seq<nat>): nat {
    if positions == [] then 0 else positions[|positions| - 1]
  }

  function Abstract(s: State): A.Store {
    A.Store(Listing(s.table, s.last),
            map id | id in s.txns && (s.txns[id].phase.Committed? || s.txns[id].phase.Rejected?) ::
              match s.txns[id].phase
              case Rejected(i) => A.Refused(i)
              case _ => A.Accepted(LastOf(s.txns[id].positions)))
  }

  /** A commit is an atomic append, a failed check an atomic refusal, and nothing else shows. */
  function AbstractStep(s: State, step: Step): A.Step {
    if step.id !in s.txns || !s.txns[step.id].job.Append? then A.Stutter
    else
      var t := s.txns[step.id];
      if step.Commit? then A.Append(step.id, t.job.commands, t.positions)
      else if step.Check? && t.mark.Some? && VerdictOf(s, t).Some? then
        A.Refuse(step.id, t.job.commands, VerdictOf(s, t).value)
      else A.Stutter
  }

  lemma PositionsInRange(h: Hash, s: State, id: nat)
    requires Inv(h, s) && id in s.txns
    ensures forall p <- s.txns[id].positions :: 1 <= p <= s.last
  {
    TxnOkOf(h, s, id);
  }

  lemma CommittedListing(h: Hash, s: State, id: nat, row: SequencedEvent)
    requires Inv(h, s) && Enabled(h, s, Commit(id))
    ensures row in Listing(Apply(h, s, Commit(id)).table, s.last) <==>
              || row in Listing(s.table, s.last)
              || row in A.Rows(EventsOf(s.txns[id].job), s.txns[id].positions)
  {
    hide Inv, ScanOf, VerdictOf, Listing, Inserted, EventsOf, LocksOf, ValidJob;
    var positions, table' := s.txns[id].positions, Apply(h, s, Commit(id)).table;
    var rows := A.Rows(EventsOf(s.txns[id].job), positions);
    CommittedRows(h, s, id);
    PositionsInRange(h, s, id);
    ListedRow(table', s.last, row);
    ListedIffInTable(h, s, row);
    if row.position in s.table {
      RowsArePositive(h, s, row.position);
    }
    if row.position in positions {
      var k :| 0 <= k < |positions| && positions[k] == row.position;
      assert rows[k] == SequencedEvent(table'[row.position], row.position);
      assert row in rows ==> row == rows[k] by {
        if row in rows {
          var l :| 0 <= l < |rows| && rows[l] == row;
          assert positions[l] == row.position;
        }
      }
    } else {
      assert forall l :: 0 <= l < |rows| ==> rows[l].position == positions[l] && positions[l] in positions;
    }
  }

  /** At its commit, nothing committed violates an append's conditions. */
  lemma CommitUnviolated(h: Hash, s: State, id: nat)
    requires Inv(h, s) && VerdictsOk(s) && id in s.txns && s.txns[id].phase.Passed? && s.txns[id].job.Append?
    ensures FirstViolation(s.txns[id].job.commands, Listing(s.table, s.last)) == None
  {
    hide Inv, FirstViolation, MatchesQuery, Listing, ValidJob, LocksOf, EventsOf;
    var t, log := s.txns[id], Listing(s.table, s.last);
    TxnOkOf(h, s, id);
    assert VerdictOk(s, t);
    forall i | 0 <= i < |t.job.commands| ensures !Violates(t.job.commands[i], log) {
      forall row | row in log && HasCondition(t.job, i) ensures !Offends(ConditionOf(t.job, i), row) {
        ListedIffInTable(h, s, row);
        if Offends(ConditionOf(t.job, i), row) {
          NothingAboveTheMark(h, s, id, i, row.position);
        }
      }
    }
  }

  lemma CommitAccepts(h: Hash, s: State, id: nat)
    requires Inv(h, s) && VerdictsOk(s) && Enabled(h, s, Commit(id))
    ensures s.txns[id].job.Append? && s.txns[id].positions != []
    ensures var s' := Apply(h, s, Commit(id));
            A.Accepts(Listing(s.table, s.last), s.txns[id].job.commands, s.txns[id].positions,
                      Listing(s'.table, s'.last))
  {
    hide Inv, ScanOf, VerdictOf;
    var t, s' := s.txns[id], Apply(h, s, Commit(id));
    TxnOkOf(h, s, id);
    EventsAsGiven(h, s.last, t);
    CommitUnviolated(h, s, id);
    ListingAscending(s'.table, s'.last);
    forall row ensures row in Listing(s'.table, s'.last)
                  <==> row in Listing(s.table, s.last) || row in A.Rows(AllEvents(t.job.commands), t.positions)
    {
      CommittedListing(h, s, id, row);
    }
    forall row | row in Listing(s.table, s.last) ensures row.position !in t.positions {
      ListedIffInTable(h, s, row);
      CommittedRows(h, s, id);
    }
  }

  lemma OutcomesOtherwise(h: Hash, s: State, step: Step)
    requires Enabled(h, s, step)
    ensures var s' := Apply(h, s, step);
            forall id :: id != step.id ==>
              && (id in Abstract(s').outcomes <==> id in Abstract(s).outcomes)
              && (id in Abstract(s).outcomes ==> Abstract(s').outcomes[id] == Abstract(s).outcomes[id])
  {}

  lemma LogOtherwise(h: Hash, s: State, step: Step)
    requires Inv(h, s) && Enabled(h, s, step) && !step.Commit?
    ensures Listing(Apply(h, s, step).table, Apply(h, s, step).last) == Listing(s.table, s.last)
  {
    hide Inv, VerdictOf, ScanOf, EventsOf;
    if step.Allocate? {
      if s.last + 1 in s.table {
        RowsArePositive(h, s, s.last + 1);
      }
    }
  }

  lemma CommitRefines(h: Hash, s: State, id: nat)
    requires Inv(h, s) && VerdictsOk(s) && Enabled(h, s, Commit(id))
    ensures A.Next(Abstract(s), AbstractStep(s, Commit(id)), Abstract(Apply(h, s, Commit(id))))
  {
    hide Inv, VerdictsOk, ScanOf, VerdictOf;
    CommitAccepts(h, s, id);
    OutcomesOtherwise(h, s, Commit(id));
    assert Abstract(Apply(h, s, Commit(id))).outcomes
        == Abstract(s).outcomes[id := A.Accepted(LastOf(s.txns[id].positions))];
  }

  lemma CheckRefines(h: Hash, s: State, id: nat)
    requires Inv(h, s) && Enabled(h, s, Check(id))
    ensures A.Next(Abstract(s), AbstractStep(s, Check(id)), Abstract(Apply(h, s, Check(id))))
  {
    hide Inv, ScanOf, VerdictOf, Listing, FirstViolation, ValidJob, LocksOf, EventsOf;
    TxnOkOf(h, s, id);
    CappedVerdictIsWhole(h, s, id);
    LogOtherwise(h, s, Check(id));
    OutcomesOtherwise(h, s, Check(id));
    match VerdictOf(s, s.txns[id]) {
      case None =>
        assert Abstract(Apply(h, s, Check(id))).outcomes == Abstract(s).outcomes;
      case Some(i) =>
        assert Abstract(Apply(h, s, Check(id))).outcomes == Abstract(s).outcomes[id := A.Refused(i)];
    }
  }

  /** Each step of the protocol is one step, or none, of the atomic store. */
  lemma RefinesStep(h: Hash, s: State, step: Step)
    requires Inv(h, s) && VerdictsOk(s) && Enabled(h, s, step)
    ensures A.Next(Abstract(s), AbstractStep(s, step), Abstract(Apply(h, s, step)))
  {
    hide Inv, VerdictsOk, ScanOf, VerdictOf, Listing, EventsOf, LocksOf;
    if step.Commit? {
      CommitRefines(h, s, step.id);
    } else if step.Check? {
      CheckRefines(h, s, step.id);
    } else {
      LogOtherwise(h, s, step);
      OutcomesOtherwise(h, s, step);
      assert Abstract(Apply(h, s, step)).outcomes == Abstract(s).outcomes;
    }
  }

  /** Every run, with any number of writers and readers and aborts anywhere, is a run of the atomic
      store, with every append taking effect at its commit. */
  lemma Refinement(h: Hash, states: seq<State>, steps: seq<Step>)
    requires Execution(h, states, steps)
    ensures A.Execution(seq(|states|, i requires 0 <= i < |states| => Abstract(states[i])),
                        seq(|steps|, i requires 0 <= i < |steps| && i < |states| => AbstractStep(states[i], steps[i])))
  {
    var stores := seq(|states|, i requires 0 <= i < |states| => Abstract(states[i]));
    var abstractSteps := seq(|steps|, i requires 0 <= i < |steps| && i < |states| => AbstractStep(states[i], steps[i]));
    assert stores[0] == A.Store([], map[]);
    forall i | 0 <= i < |abstractSteps| ensures A.Next(stores[i], abstractSteps[i], stores[i + 1]) {
      VerdictsHold(h, states, steps, i);
      RefinesStep(h, states[i], steps[i]);
    }
  }

  // ----- isolation in position order -----

  /** In every reachable state, an event that another append has committed, or has drawn a position for
      and may yet commit, and that matches a condition of a committed append, is at or before the
      condition's After, or after every event of the committed append. */
  lemma PositionIsolation(h: Hash, states: seq<State>, steps: seq<Step>, n: nat, w: nat, i: nat, v: nat, k: nat)
    requires Execution(h, states, steps) && n < |states|
    requires var s := states[n];
             && w in s.txns && v in s.txns && w != v
             && s.txns[w].phase.Committed? && !s.txns[v].phase.Aborted?
             && HasCondition(s.txns[w].job, i) && k < |s.txns[v].positions| && k < |EventsOf(s.txns[v].job)|
             && MatchesQuery(ConditionOf(s.txns[w].job, i).failIfEventsMatch, EventsOf(s.txns[v].job)[k])
    ensures var t, p := states[n].txns[w], states[n].txns[v].positions[k];
            IsAfter(p, ConditionOf(t.job, i).after) ==> forall q <- t.positions :: p > q
  {
    hide Inv;
    var s := states[n];
    VerdictsHold(h, states, steps, n);
    var t, u := s.txns[w], s.txns[v];
    var p := u.positions[k];
    TxnOkOf(h, s, w);
    TxnOkOf(h, s, v);
    MatchMakesRivals(h, s, w, i, v, k);
    OrderedOf(h, s, w, v);
    assert p in u.positions;
    if p <= t.mark.value {
      assert u.phase.Committed?;
      WroteAll(h, s, v, k);
      assert VerdictOk(s, t);
      assert !Offends(ConditionOf(t.job, i), RowAt(s, p));
    }
  }

  /** The positions of an append that is not committed, aborted ones included, hold no row: they stay burned. */
  lemma UncommittedInvisible(h: Hash, states: seq<State>, steps: seq<Step>, n: nat, w: nat, p: nat)
    requires Execution(h, states, steps) && n < |states|
    requires w in states[n].txns && !states[n].txns[w].phase.Committed? && p in states[n].txns[w].positions
    ensures p !in states[n].table && p <= states[n].last
  {
    hide Inv, Enabled, Apply;
    var s := states[n];
    InvHolds(h, states, steps, n);
    TxnOkOf(h, s, w);
    if p in s.table {
      var v, k := WriterOf(h, s, p);
      DrawnByOne(h, s, w, v, p);
    }
  }

  lemma DrawnByOne(h: Hash, s: State, w: nat, v: nat, p: nat)
    requires Inv(h, s) && w in s.txns && v in s.txns && p in s.txns[w].positions && p in s.txns[v].positions
    ensures w == v
  {}

  // ----- racing writers -----

  /** The append's own event `k`, where it stands, offends the condition. */
  ghost predicate OffendsItself(t: Txn, k: nat, condition: AppendCondition) {
    && t.job.Append? && k < |t.positions| && k < |AllEvents(t.job.commands)|
    && Offends(condition, SequencedEvent(AllEvents(t.job.commands)[k], t.positions[k]))
  }

  /** Of appends that share a condition which their own events offend, at most one ever commits. */
  lemma AtMostOneCommits(h: Hash, states: seq<State>, steps: seq<Step>, n: nat,
                         w: nat, i: nat, k: nat, v: nat, j: nat, l: nat)
    requires Execution(h, states, steps) && n < |states|
    requires var s := states[n];
             && w in s.txns && v in s.txns && s.txns[w].phase.Committed? && s.txns[v].phase.Committed?
             && HasCondition(s.txns[w].job, i) && HasCondition(s.txns[v].job, j)
             && ConditionOf(s.txns[w].job, i) == ConditionOf(s.txns[v].job, j)
             && OffendsItself(s.txns[w], k, ConditionOf(s.txns[w].job, i))
             && OffendsItself(s.txns[v], l, ConditionOf(s.txns[w].job, i))
    ensures w == v
  {
    hide Inv, Enabled, Apply, EventsOf;
    var s := states[n];
    if w != v {
      var t, u := s.txns[w], s.txns[v];
      InvHolds(h, states, steps, n);
      TxnOkOf(h, s, w);
      TxnOkOf(h, s, v);
      EventsAsGiven(h, s.last, t);
      EventsAsGiven(h, s.last, u);
      assert t.positions[k] in t.positions && u.positions[l] in u.positions;
      PositionIsolation(h, states, steps, n, w, i, v, l);
      PositionIsolation(h, states, steps, n, v, j, w, k);
      assert false;
    }
  }

  /** A transaction that had not begun in an earlier state reads a mark no lower than that state's sequence. */
  lemma {:induction false} MarkSince(h: Hash, states: seq<State>, steps: seq<Step>, i: nat, j: nat, id: nat)
    requires Execution(h, states, steps) && i <= j < |states| && id !in states[i].txns
    ensures states[i].last <= states[j].last
    ensures id in states[j].txns && states[j].txns[id].mark.Some? ==> states[i].last <= states[j].txns[id].mark.value
  {
    hide VerdictOf, ScanOf, Inserted, LocksOf, EventsOf;
    if i < j {
      MarkSince(h, states, steps, i, j - 1, id);
      assert states[j] == Apply(h, states[j - 1], steps[j - 1]);
      if id in states[j].txns && steps[j - 1].id != id {
        assert states[j].txns[id] == states[j - 1].txns[id];
      }
    }
  }

  ghost predicate MatchesItself(t: Txn, k: nat, condition: AppendCondition) {
    && t.job.Append? && k < |AllEvents(t.job.commands)|
    && MatchesQuery(condition.failIfEventsMatch, AllEvents(t.job.commands)[k])
  }

  lemma MatchingOffends(h: Hash, s: State, id: nat, k: nat, c: AppendCondition)
    requires Inv(h, s) && id in s.txns && s.txns[id].phase.Committed? && MatchesItself(s.txns[id], k, c)
    requires s.txns[id].mark.Some? ==> AfterOrZero(c.after) <= s.txns[id].mark.value
    ensures OffendsItself(s.txns[id], k, c)
  {
    hide Inv, EventsOf, LocksOf;
    var t := s.txns[id];
    TxnOkOf(h, s, id);
    EventsAsGiven(h, s.last, t);
    assert t.positions[k] in t.positions;
  }

  /** Racing appends: where After had already been passed by the sequence before either began, two
      appends that share a condition which an event of each matches do not both commit. */
  lemma RacingWriters(h: Hash, states: seq<State>, steps: seq<Step>, m: nat, n: nat,
                      w: nat, i: nat, k: nat, v: nat, j: nat, l: nat)
    requires Execution(h, states, steps) && m <= n < |states|
    requires w !in states[m].txns && v !in states[m].txns
    requires var s := states[n];
             && w in s.txns && v in s.txns && s.txns[w].phase.Committed? && s.txns[v].phase.Committed?
             && HasCondition(s.txns[w].job, i) && HasCondition(s.txns[v].job, j)
             && ConditionOf(s.txns[w].job, i) == ConditionOf(s.txns[v].job, j)
             && AfterOrZero(ConditionOf(s.txns[w].job, i).after) <= states[m].last
             && MatchesItself(s.txns[w], k, ConditionOf(s.txns[w].job, i))
             && MatchesItself(s.txns[v], l, ConditionOf(s.txns[w].job, i))
    ensures w == v
  {
    hide Inv, VerdictsOk, Enabled, Apply, MatchesItself, OffendsItself, EventsOf, AllEvents;
    var s := states[n];
    var c := ConditionOf(s.txns[w].job, i);
    VerdictsHold(h, states, steps, n);
    MarkSince(h, states, steps, m, n, w);
    MarkSince(h, states, steps, m, n, v);
    MatchingOffends(h, s, w, k, c);
    MatchingOffends(h, s, v, l, c);
    AtMostOneCommits(h, states, steps, n, w, i, k, v, j, l);
  }

  /** An append that fails with a condition violation does so because a matching event after its After
      is committed; and that event stays committed. */
  lemma RejectedForCause(h: Hash, states: seq<State>, steps: seq<Step>, n: nat, w: nat)
    requires Execution(h, states, steps) && n < |states|
    requires w in states[n].txns && states[n].txns[w].phase.Rejected?
    ensures var s, t := states[n], states[n].txns[w]; var i := t.phase.index;
            && HasCondition(t.job, i)
            && exists v, k, p :: v != w && Wrote(s, v, k, p) && Offends(ConditionOf(t.job, i), RowAt(s, p))
  {
    VerdictsHold(h, states, steps, n);
    var s, t := states[n], states[n].txns[w];
    assert VerdictOk(s, t);
    var p :| p in s.table && Offends(ConditionOf(t.job, t.phase.index), RowAt(s, p));
    var v, k := WriterOf(h, s, p);
  }

  /** An append whose conditions are all this one, some of whose own events match it. */
  ghost predicate RacesFor(job: Job, condition: AppendCondition) {
    && job.Append?
    && (exists i :: HasCondition(job, i))
    && (forall i | HasCondition(job, i) :: ConditionOf(job, i) == condition)
    && exists e <- AllEvents(job.commands) :: MatchesQuery(condition.failIfEventsMatch, e)
  }

  ghost predicate Racers(s: State, ids: set<nat>, condition: AppendCondition) {
    forall w <- ids ::
      && w in s.txns && RacesFor(s.txns[w].job, condition)
      && (s.txns[w].phase.Committed? || s.txns[w].phase.Rejected?)
  }

  lemma MatchingEvent(s: State, ids: set<nat>, condition: AppendCondition, w: nat) returns (i: nat, k: nat)
    requires Racers(s, ids, condition) && w in ids
    ensures w in s.txns && HasCondition(s.txns[w].job, i) && ConditionOf(s.txns[w].job, i) == condition
    ensures MatchesItself(s.txns[w], k, condition)
  {
    hide MatchesQuery;
    var job := s.txns[w].job;
    i :| HasCondition(job, i);
    var e :| e in AllEvents(job.commands) && MatchesQuery(condition.failIfEventsMatch, e);
    k :| 0 <= k < |AllEvents(job.commands)| && AllEvents(job.commands)[k] == e;
  }

  lemma SomeRacerCommits(h: Hash, states: seq<State>, steps: seq<Step>, n: nat, ids: set<nat>, c: AppendCondition)
    returns (w: nat)
    requires Execution(h, states, steps) && n < |states| && ids != {} && Racers(states[n], ids, c)
    requires forall v, k, p | Wrote(states[n], v, k, p) && Offends(c, RowAt(states[n], p)) :: v in ids
    ensures w in ids && states[n].txns[w].phase.Committed?
  {
    hide Offends, MatchesItself, RacesFor, Enabled, Apply, EventsOf;
    w :| w in ids;
    if states[n].txns[w].phase.Rejected? {
      var i, k := MatchingEvent(states[n], ids, c, w);
      RejectedForCause(h, states, steps, n, w);
      OneCondition(states[n].txns[w].job, i, states[n].txns[w].phase.index, c);
      var v, l, p :| v != w && Wrote(states[n], v, l, p) && Offends(c, RowAt(states[n], p));
      w := v;
    }
  }

  lemma OneCondition(job: Job, i: nat, j: nat, c: AppendCondition)
    requires RacesFor(job, c) && HasCondition(job, j)
    ensures ConditionOf(job, j) == c
  {}

  /** Of any number of racing appends that have all committed or failed on the condition they share, exactly
      one has committed: where the sequence had reached After before any began, and no other append
      committed an event that offends the condition. */
  lemma ExactlyOneRacerCommits(h: Hash, states: seq<State>, steps: seq<Step>, m: nat, n: nat,
                               ids: set<nat>, c: AppendCondition)
    requires Execution(h, states, steps) && m <= n < |states| && ids != {} && Racers(states[n], ids, c)
    requires AfterOrZero(c.after) <= states[m].last && forall w <- ids :: w !in states[m].txns
    requires forall v, k, p | Wrote(states[n], v, k, p) && Offends(c, RowAt(states[n], p)) :: v in ids
    ensures exists w <- ids :: forall v <- ids :: states[n].txns[v].phase.Committed? <==> v == w
  {
    hide Offends, MatchesItself, RacesFor, Enabled, Apply, Wrote;
    var w := SomeRacerCommits(h, states, steps, n, ids, c);
    forall v | v in ids && states[n].txns[v].phase.Committed? ensures v == w {
      var i, k := MatchingEvent(states[n], ids, c, w);
      var j, l := MatchingEvent(states[n], ids, c, v);
      RacingWriters(h, states, steps, m, n, w, i, k, v, j, l);
    }
  }
}
