/** What every step of the protocol keeps. */
module ProtocolInvariants {
  import opened EventStore
  import opened Logs
  import opened LockKeys
  import opened Protocol

  // ----- the invariants -----

  predicate Finished(t: Txn) {
    !Unfinished(t)
  }

  /** One transaction by itself. */
  ghost predicate TxnOk(h: Hash, last: nat, t: Txn) {
    && ValidJob(t.job)
    && t.held <= LocksOf(h, t.job)
    && (t.phase.Locking? ==> forall l <- LocksOf(h, t.job) :: l in t.held || l in t.todo)
    && (t.phase.Locking? ==> forall l <- t.todo :: l in LocksOf(h, t.job))
    && (!t.phase.Locking? ==> t.todo == [])
    && (Holding(t) ==> t.held == LocksOf(h, t.job))
    && (t.phase.Locking? ==> t.mark == None)
    && (!t.phase.Locking? && !t.phase.Aborted? ==> t.mark.Some?)
    && (t.phase.Passed? || t.phase.Committed? || t.phase.Rejected? ==> t.job.Append?)
    && (t.phase.Barred? || t.phase.Scanned? ==> t.job.Read?)
    && (t.mark.Some? ==> t.mark.value <= last)
    && (t.positions != [] ==> t.mark.Some? && !t.phase.Marked? && !t.phase.Rejected?)
    && Increasing(t.positions)
    && (forall p <- t.positions :: t.mark.value < p <= last)
    && |t.positions| <= |EventsOf(t.job)|
    && (t.phase.Committed? ==> |t.positions| == |EventsOf(t.job)|)
  }

  ghost predicate TxnsOk(h: Hash, s: State) {
    forall id <- s.txns :: TxnOk(h, s.last, s.txns[id])
  }

  /** No two transactions hold conflicting locks. */
  ghost predicate LocksOk(s: State) {
    forall a <- s.txns, b <- s.txns :: a != b ==> !Clash(s.txns[a].held, s.txns[b].held)
  }

  /** No position is drawn twice. */
  ghost predicate DrawnOnce(s: State) {
    forall a <- s.txns, b <- s.txns :: a != b ==> forall p <- s.txns[a].positions :: p !in s.txns[b].positions
  }

  ghost predicate Wrote(s: State, id: nat, k: nat, p: nat) {
    && id in s.txns && s.txns[id].phase.Committed?
    && k < |s.txns[id].positions| && s.txns[id].positions[k] == p
    && k < |EventsOf(s.txns[id].job)|
    && p in s.table && s.table[p] == EventsOf(s.txns[id].job)[k]
  }

  /** The table holds exactly the committed appends' rows. */
  ghost predicate TableOk(s: State) {
    && (forall p <- s.table :: exists id, k :: Wrote(s, id, k, p))
    && (forall id <- s.txns :: s.txns[id].phase.Committed? ==>
          forall k :: 0 <= k < |s.txns[id].positions| ==> Wrote(s, id, k, s.txns[id].positions[k]))
  }

  ghost predicate Rivals(h: Hash, a: Txn, b: Txn) {
    Clash(LocksOf(h, a.job), LocksOf(h, b.job))
  }

  /** Lock-then-allocate between rivals: once `w` has its mark, `v` is over or draws only above the mark;
      nothing of `v` falls among the positions of `w`; and while `w` holds its locks `v` is before its own
      mark or over, with nothing above the mark of `w`. */
  ghost predicate Ordered(w: Txn, v: Txn)
    requires w.mark.Some?
  {
    && (Finished(v) || forall p <- v.positions :: p > w.mark.value)
    && (forall p <- v.positions, q <- w.positions :: p <= w.mark.value || p > q)
    && (Holding(w) ==> (v.phase.Locking? || Finished(v)) && forall p <- v.positions :: p <= w.mark.value)
  }

  ghost predicate OrderOk(h: Hash, s: State) {
    forall w <- s.txns, v <- s.txns ::
      w != v && s.txns[w].mark.Some? && Rivals(h, s.txns[w], s.txns[v]) ==> Ordered(s.txns[w], s.txns[v])
  }

  ghost predicate Inv(h: Hash, s: State) {
    TxnsOk(h, s) && LocksOk(s) && DrawnOnce(s) && TableOk(s) && OrderOk(h, s)
  }

  // ----- using the invariant -----

  lemma TxnOkOf(h: Hash, s: State, id: nat)
    requires Inv(h, s) && id in s.txns
    ensures TxnOk(h, s.last, s.txns[id])
  {}

  lemma OrderedOf(h: Hash, s: State, w: nat, v: nat)
    requires Inv(h, s) && w in s.txns && v in s.txns && w != v
    requires s.txns[w].mark.Some? && Rivals(h, s.txns[w], s.txns[v])
    ensures Ordered(s.txns[w], s.txns[v])
  {}

  lemma WriterOf(h: Hash, s: State, p: nat) returns (id: nat, k: nat)
    requires Inv(h, s) && p in s.table
    ensures Wrote(s, id, k, p)
  {
    id, k :| Wrote(s, id, k, p);
  }

  lemma WroteAll(h: Hash, s: State, id: nat, k: nat)
    requires Inv(h, s) && id in s.txns && s.txns[id].phase.Committed? && k < |s.txns[id].positions|
    ensures Wrote(s, id, k, s.txns[id].positions[k])
  {}

  // ----- each is kept -----

  lemma HoldersExclude(h: Hash, s: State, w: nat, v: nat)
    requires LocksOk(s) && w in s.txns && v in s.txns && w != v && Rivals(h, s.txns[w], s.txns[v])
    ensures !(LocksOf(h, s.txns[w].job) <= s.txns[w].held && LocksOf(h, s.txns[v].job) <= s.txns[v].held)
  {
    var x, y :| x in LocksOf(h, s.txns[w].job) && y in LocksOf(h, s.txns[v].job) && Conflict(x, y);
    assert !Clash(s.txns[w].held, s.txns[v].held);
  }

  lemma TxnsOkStep(h: Hash, s: State, step: Step)
    requires TxnsOk(h, s) && Enabled(h, s, step)
    ensures TxnsOk(h, Apply(h, s, step))
  {
    var s' := Apply(h, s, step);
    forall id | id in s'.txns ensures TxnOk(h, s'.last, s'.txns[id]) {
      if id != step.id {
        assert TxnOk(h, s.last, s.txns[id]);
      } else if !step.Begin? {
        assert TxnOk(h, s.last, s.txns[id]);
        MovedOk(h, s, step);
      }
    }
  }

  lemma MovedOk(h: Hash, s: State, step: Step)
    requires Enabled(h, s, step) && !step.Begin? && TxnOk(h, s.last, s.txns[step.id])
    ensures TxnOk(h, Apply(h, s, step).last, Moved(h, s, step))
  {
    hide VerdictOf, ScanOf, EventsOf, LocksOf, ValidJob;
    var t, t' := s.txns[step.id], Moved(h, s, step);
    match step {
      case Acquire(_) =>
        assert t.todo == [t.todo[0]] + t.todo[1..];
      case ReadMark(_) =>
      case Check(_) =>
      case Allocate(_) =>
        assert forall p <- t'.positions :: p in t.positions || p == s.last + 1;
        assert forall i :: 0 <= i < |t.positions| ==> t.positions[i] in t.positions;
      case Commit(_) =>
      case Abort(_) =>
      case EndBarrier(_) =>
      case Release(_, _) =>
      case Scan(_) =>
    }
  }

  lemma LocksOkStep(h: Hash, s: State, step: Step)
    requires LocksOk(s) && Enabled(h, s, step)
    ensures LocksOk(Apply(h, s, step))
  {
    var s' := Apply(h, s, step);
    forall a, b | a in s'.txns && b in s'.txns && a != b ensures !Clash(s'.txns[a].held, s'.txns[b].held) {
      if a == step.id && !step.Begin? {
        NewHeld(h, s, step, b);
      } else if b == step.id && !step.Begin? {
        NewHeld(h, s, step, a);
      }
    }
  }

  lemma NewHeld(h: Hash, s: State, step: Step, other: nat)
    requires LocksOk(s) && Enabled(h, s, step) && !step.Begin? && other in s.txns && other != step.id
    ensures !Clash(Moved(h, s, step).held, s.txns[other].held)
    ensures !Clash(s.txns[other].held, Moved(h, s, step).held)
  {
    var held := s.txns[step.id].held;
    assert !Clash(held, s.txns[other].held);
    assert forall l <- Moved(h, s, step).held :: l in held || (step.Acquire? && l == s.txns[step.id].todo[0]);
  }

  lemma NewPosition(h: Hash, s: State, step: Step, id: nat, p: nat)
    requires Enabled(h, s, step) && id in Apply(h, s, step).txns && p in Apply(h, s, step).txns[id].positions
    ensures (id in s.txns && p in s.txns[id].positions) || (step == Allocate(id) && p == s.last + 1)
  {
    hide VerdictOf, ScanOf, Inserted, EventsOf, LocksOf;
  }

  lemma DrawnOnceStep(h: Hash, s: State, step: Step)
    requires TxnsOk(h, s) && DrawnOnce(s) && Enabled(h, s, step)
    ensures DrawnOnce(Apply(h, s, step))
  {
    hide Enabled, Apply, LocksOf, EventsOf, ValidJob;
    var s' := Apply(h, s, step);
    forall a, b, p | a in s'.txns && b in s'.txns && a != b && p in s'.txns[a].positions
      ensures p !in s'.txns[b].positions
    {
      NewPosition(h, s, step, a, p);
      assert a in s.txns ==> TxnOk(h, s.last, s.txns[a]);
      assert b in s.txns ==> TxnOk(h, s.last, s.txns[b]);
      if p in s'.txns[b].positions {
        NewPosition(h, s, step, b, p);
      }
    }
  }

  /** A commit adds the append's rows, all new, and changes no other row. */
  lemma CommittedRows(h: Hash, s: State, id: nat)
    requires Inv(h, s) && Enabled(h, s, Commit(id))
    ensures var t, table' := s.txns[id], Apply(h, s, Commit(id)).table;
            && (forall p :: p in table' <==> p in s.table || p in t.positions)
            && (forall k :: 0 <= k < |t.positions| ==> table'[t.positions[k]] == EventsOf(t.job)[k])
            && (forall p <- s.table :: p !in t.positions && table'[p] == s.table[p])
  {
    var t := s.txns[id];
    assert TxnOk(h, s.last, t);
    InsertedRows(s.table, EventsOf(t.job), t.positions);
    forall p | p in s.table ensures p !in t.positions {
      var owner, k :| Wrote(s, owner, k, p);
      assert p in s.txns[owner].positions;
    }
  }

  /** The table only grows. */
  lemma TableGrows(h: Hash, s: State, step: Step)
    requires Inv(h, s) && Enabled(h, s, step)
    ensures forall p <- s.table :: p in Apply(h, s, step).table && Apply(h, s, step).table[p] == s.table[p]
  {
    if step.Commit? {
      CommittedRows(h, s, step.id);
    }
  }

  lemma StillWrote(h: Hash, s: State, step: Step, id: nat, k: nat, p: nat)
    requires Inv(h, s) && Enabled(h, s, step) && Wrote(s, id, k, p)
    ensures Wrote(Apply(h, s, step), id, k, p)
  {
    hide Inv, VerdictOf, ScanOf, Inserted, EventsOf, LocksOf;
    TableGrows(h, s, step);
  }

  lemma RowsStillWritten(h: Hash, s: State, step: Step, p: nat)
    requires Inv(h, s) && Enabled(h, s, step) && p in Apply(h, s, step).table
    ensures exists id, k :: Wrote(Apply(h, s, step), id, k, p)
  {
    hide Inv, ScanOf, VerdictOf, Inserted;
    var s' := Apply(h, s, step);
    if p in s.table {
      var id, k := WriterOf(h, s, p);
      StillWrote(h, s, step, id, k, p);
    } else {
      CommittedRows(h, s, step.id);
      var k :| 0 <= k < |s.txns[step.id].positions| && s.txns[step.id].positions[k] == p;
      assert Wrote(s', step.id, k, p);
    }
  }

  lemma CommittedStillWrote(h: Hash, s: State, step: Step, id: nat, k: nat)
    requires Inv(h, s) && Enabled(h, s, step)
    requires var s' := Apply(h, s, step);
             id in s'.txns && s'.txns[id].phase.Committed? && k < |s'.txns[id].positions|
    ensures Wrote(Apply(h, s, step), id, k, Apply(h, s, step).txns[id].positions[k])
  {
    hide Inv, ScanOf, VerdictOf, Inserted;
    if step == Commit(id) {
      CommittedRows(h, s, id);
    } else {
      WroteAll(h, s, id, k);
      StillWrote(h, s, step, id, k, s.txns[id].positions[k]);
    }
  }

  lemma TableOkStep(h: Hash, s: State, step: Step)
    requires Inv(h, s) && Enabled(h, s, step)
    ensures TableOk(Apply(h, s, step))
  {
    hide Inv, Wrote;
    var s' := Apply(h, s, step);
    forall p | p in s'.table ensures exists id, k :: Wrote(s', id, k, p) {
      RowsStillWritten(h, s, step, p);
    }
    forall id, k | id in s'.txns && s'.txns[id].phase.Committed? && 0 <= k < |s'.txns[id].positions|
      ensures Wrote(s', id, k, s'.txns[id].positions[k])
    {
      CommittedStillWrote(h, s, step, id, k);
    }
  }

  /** The step is the marked transaction's own. */
  lemma OrderedAfterOwn(h: Hash, s: State, step: Step, v: nat)
    requires TxnsOk(h, s) && LocksOk(s) && OrderOk(h, s) && Enabled(h, s, step) && !step.Begin?
    requires v in s.txns && v != step.id
    requires Moved(h, s, step).mark.Some? && Rivals(h, s.txns[step.id], s.txns[v])
    ensures Ordered(Moved(h, s, step), s.txns[v])
  {
    hide VerdictOf, ScanOf, EventsOf, ValidJob, Rivals;
    var w, w', t := s.txns[step.id], Moved(h, s, step), s.txns[v];
    assert TxnOk(h, s.last, w) && TxnOk(h, s.last, t);
    if step.ReadMark? {
      HoldersExclude(h, s, step.id, v);
    } else {
      assert w.mark == w'.mark && Ordered(w, t);
      if step.Allocate? {
        assert forall q <- w'.positions :: q in w.positions || q == s.last + 1;
      }
    }
  }

  /** The step is the rival's. */
  lemma OrderedAfterRival(h: Hash, s: State, step: Step, w: nat)
    requires TxnsOk(h, s) && LocksOk(s) && OrderOk(h, s) && Enabled(h, s, step) && !step.Begin?
    requires w in s.txns && w != step.id
    requires s.txns[w].mark.Some? && Rivals(h, s.txns[w], s.txns[step.id])
    ensures Ordered(s.txns[w], Moved(h, s, step))
  {
    hide VerdictOf, ScanOf, EventsOf, ValidJob, Rivals;
    var t, v, v' := s.txns[w], s.txns[step.id], Moved(h, s, step);
    assert TxnOk(h, s.last, t) && TxnOk(h, s.last, v);
    assert Ordered(t, v);
    if step.ReadMark? {
      HoldersExclude(h, s, w, step.id);
    } else if step.Allocate? {
      assert forall p <- v'.positions :: p in v.positions || p == s.last + 1;
    }
  }

  lemma OrderOkStep(h: Hash, s: State, step: Step)
    requires TxnsOk(h, s) && LocksOk(s) && OrderOk(h, s) && Enabled(h, s, step)
    ensures OrderOk(h, Apply(h, s, step))
  {
    var s' := Apply(h, s, step);
    forall w, v | w in s'.txns && v in s'.txns && w != v && s'.txns[w].mark.Some? && Rivals(h, s'.txns[w], s'.txns[v])
      ensures Ordered(s'.txns[w], s'.txns[v])
    {
      if step.Begin? {
        if v != step.id {
          assert Ordered(s.txns[w], s.txns[v]);
        }
      } else if w == step.id {
        OrderedAfterOwn(h, s, step, v);
      } else if v == step.id {
        OrderedAfterRival(h, s, step, w);
      } else {
        assert Ordered(s.txns[w], s.txns[v]);
      }
    }
  }

  /** Every step keeps the invariant, for every hash. */
  lemma InvStep(h: Hash, s: State, step: Step)
    requires Inv(h, s) && Enabled(h, s, step)
    ensures Inv(h, Apply(h, s, step))
  {
    TxnsOkStep(h, s, step);
    LocksOkStep(h, s, step);
    DrawnOnceStep(h, s, step);
    TableOkStep(h, s, step);
    OrderOkStep(h, s, step);
  }

  lemma {:induction false} InvHolds(h: Hash, states: seq<State>, steps: seq<Step>, i: nat)
    requires Execution(h, states, steps) && i < |states|
    ensures Inv(h, states[i])
  {
    if i > 0 {
      InvHolds(h, states, steps, i - 1);
      InvStep(h, states[i - 1], steps[i - 1]);
    }
  }
}
