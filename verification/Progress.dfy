/** Locks taken in key order never deadlock, and every set of transactions
    completes, where no transaction asks for one key in both modes. */
module Progress {
  import opened EventStore
  import opened Packing
  import opened LockKeys
  import opened Serialize
  import opened Protocol
  import opened ProtocolInvariants

  ghost predicate OneMode(locks: set<Lock>) {
    forall a <- locks, b <- locks :: a.key == b.key ==> a == b
  }

  /** No transaction begun so far asks for a key in both modes. */
  ghost predicate AllOneMode(h: Hash, s: State) {
    forall id <- s.txns :: OneMode(LocksOf(h, s.txns[id].job))
  }

  // ----- which hashes give every transaction one mode a key -----

  /** The hash keeps the leaf keys of valid tags and the intent keys apart. */
  ghost predicate KeepsApart(h: Hash) {
    && (forall t, tag, u :: ValidTagToken(tag) ==> LeafKey(h, t, tag) != TypeIntentKey(h, u))
    && (forall t, tag :: ValidTagToken(tag) ==> LeafKey(h, t, tag) != GlobalIntentKey(h))
  }

  lemma WriterLeafApart(h: Hash, commands: seq<AppendCommand>, k: int)
    requires KeepsApart(h) && TokenCommands(commands) && Lock(k, Exclusive) in AppendLocks(h, commands)
    ensures k != GlobalIntentKey(h) && forall u :: k != TypeIntentKey(h, u)
  {
    hide AppendLocks, LeafString;
    ExclusiveIffString(h, commands, k);
    var s :| s in LeafStrings(commands) && h(s) == k;
    var c :| c in commands && s in CommandStrings(c);
    if e, tag :| e in c.events && tag in e.tags && s == LeafString(e.eventType, tag) {
      assert k == LeafKey(h, e.eventType, tag);
    } else {
      var item, t, tag :| item in ConditionItems(c) && t in item.types && tag in item.tags && s == LeafString(t, tag);
      assert k == LeafKey(h, t, tag);
    }
  }

  lemma AppendOneMode(h: Hash, commands: seq<AppendCommand>, k: int)
    requires KeepsApart(h) && TokenCommands(commands)
    ensures !(Lock(k, Exclusive) in AppendLocks(h, commands) && Lock(k, Shared) in AppendLocks(h, commands))
  {
    hide KeepsApart, TokenCommands;
    if Lock(k, Exclusive) in AppendLocks(h, commands) {
      WriterLeafApart(h, commands, k);
    }
  }

  lemma BarrierOneMode(h: Hash, query: Query, k: int)
    requires KeepsApart(h) && TokenItems(ItemsOf(query))
    ensures !(Lock(k, Exclusive) in BarrierLocks(h, query) && Lock(k, Shared) in BarrierLocks(h, query))
  {
    if item, t, tag :| item in ItemsOf(query) && t in item.types && tag in item.tags && k == LeafKey(h, t, tag) {
      forall u ensures LeafKey(h, t, tag) != TypeIntentKey(h, u) {}
    }
  }

  /** Then a transaction asks for no key in both modes. */
  lemma JobOneMode(h: Hash, job: Job)
    requires KeepsApart(h) && ValidJob(job)
    ensures OneMode(LocksOf(h, job))
  {
    hide KeepsApart, AppendLocks, BarrierLocks, FaithfulConditions, StoredAsGiven;
    forall a, b | a in LocksOf(h, job) && b in LocksOf(h, job) && a.key == b.key ensures a == b {
      if a.mode != b.mode {
        match job {
          case Append(commands, _) => AppendOneMode(h, commands, a.key);
          case Read(query, _, _) => BarrierOneMode(h, query, a.key);
        }
      }
    }
  }

  // ----- locks are taken in key order -----

  /** Locks still to take have ascending keys, all above the keys held. */
  ghost predicate InOrder(t: Txn) {
    && (forall i, j :: 0 <= i < j < |t.todo| ==> t.todo[i].key < t.todo[j].key)
    && (forall l <- t.held, m <- t.todo :: l.key < m.key)
  }

  ghost predicate AllInOrder(s: State) {
    forall id <- s.txns :: InOrder(s.txns[id])
  }

  lemma MovedInOrder(h: Hash, s: State, step: Step)
    requires Enabled(h, s, step) && OneMode(LocksOf(h, Moved(h, s, step).job))
    requires !step.Begin? ==> InOrder(s.txns[step.id])
    ensures InOrder(Moved(h, s, step))
  {
    hide VerdictOf, ScanOf, LocksOf, ValidJob, EventsOf;
    match step {
      case Begin(_, job, plan) =>
        forall i, j | 0 <= i < j < |plan| ensures plan[i].key < plan[j].key {
          assert plan[i] in plan && plan[j] in plan;
        }
      case Acquire(id) =>
        var t := s.txns[id];
        assert t.todo[0] in t.todo;
      case _ =>
    }
  }

  lemma OneModeBefore(h: Hash, s: State, step: Step)
    requires Enabled(h, s, step) && AllOneMode(h, Apply(h, s, step))
    ensures AllOneMode(h, s) && OneMode(LocksOf(h, Moved(h, s, step).job))
  {
    hide VerdictOf, ScanOf, LocksOf, ValidJob, EventsOf, Inserted, OneMode;
    var s' := Apply(h, s, step);
    assert s'.txns[step.id] == Moved(h, s, step);
    forall id | id in s.txns ensures OneMode(LocksOf(h, s.txns[id].job)) {
      assert id in s'.txns && s'.txns[id].job == s.txns[id].job;
    }
  }

  lemma {:induction false} OrderHolds(h: Hash, states: seq<State>, steps: seq<Step>, n: nat)
    requires Execution(h, states, steps) && n < |states| && AllOneMode(h, states[n])
    ensures AllInOrder(states[n])
  {
    hide VerdictOf, ScanOf, InOrder, Enabled, AllOneMode, LocksOf, OneMode, Inserted;
    if n > 0 {
      OneModeBefore(h, states[n - 1], steps[n - 1]);
      OrderHolds(h, states, steps, n - 1);
      OneBeginning(h, states[n - 1], steps[n - 1]);
      MovedInOrder(h, states[n - 1], steps[n - 1]);
    } else {
      assert states[0].txns == map[];
    }
  }

  lemma OneBeginning(h: Hash, s: State, step: Step)
    requires Enabled(h, s, step)
    ensures !step.Begin? ==> step.id in s.txns
  {
    hide VerdictOf, ScanOf, LocksOf, ValidJob, EventsOf;
  }

  // ----- the wait-for graph -----

  /** The order in which requests reached the lock manager. */
  type Arrival = nat -> int

  /** `a` is blocked on a lock that `b` holds, or that `b` asked for earlier. */
  ghost predicate WaitsFor(s: State, arrived: Arrival, a: nat, b: nat) {
    && a in s.txns && b in s.txns && a != b
    && s.txns[a].todo != []
    && (|| (exists l <- s.txns[b].held :: Conflict(l, s.txns[a].todo[0]))
        || (s.txns[b].todo != [] && Conflict(s.txns[b].todo[0], s.txns[a].todo[0]) && arrived(b) < arrived(a)))
  }

  ghost predicate WaitPath(s: State, arrived: Arrival, path: seq<nat>) {
    forall i :: 0 <= i < |path| - 1 ==> WaitsFor(s, arrived, path[i], path[i + 1])
  }

  ghost predicate Deadlocked(s: State, arrived: Arrival, path: seq<nat>) {
    |path| >= 2 && WaitPath(s, arrived, path) && path[0] == path[|path| - 1]
  }

  /** `b` waits for a higher key than `a`, or for the same key and came for it earlier. */
  predicate Ahead(s: State, arrived: Arrival, a: nat, b: nat) {
    && a in s.txns && s.txns[a].todo != [] && b in s.txns && s.txns[b].todo != []
    && var k, l := s.txns[a].todo[0].key, s.txns[b].todo[0].key;
       k < l || (k == l && arrived(b) < arrived(a))
  }

  lemma WaitClimbs(s: State, arrived: Arrival, a: nat, b: nat)
    requires AllInOrder(s) && WaitsFor(s, arrived, a, b) && s.txns[b].todo != []
    ensures Ahead(s, arrived, a, b)
  {
    if l :| l in s.txns[b].held && Conflict(l, s.txns[a].todo[0]) {
      HeldBelowHead(s, b, l);
    }
  }

  lemma {:induction false} WaitsClimb(s: State, arrived: Arrival, path: seq<nat>)
    requires AllInOrder(s) && |path| >= 2 && WaitPath(s, arrived, path)
    requires path[|path| - 1] in s.txns && s.txns[path[|path| - 1]].todo != []
    ensures Ahead(s, arrived, path[0], path[|path| - 1])
  {
    hide WaitsFor, AllInOrder;
    var n := |path| - 1;
    assert WaitsFor(s, arrived, path[n - 1], path[n]);
    WaitClimbs(s, arrived, path[n - 1], path[n]);
    if n > 1 {
      forall i | 0 <= i < n - 1 ensures WaitsFor(s, arrived, path[..n][i], path[..n][i + 1]) {
        assert WaitsFor(s, arrived, path[i], path[i + 1]);
      }
      WaitsClimb(s, arrived, path[..n]);
    }
  }

  /** In every reachable state in which no transaction asks for a key in both modes, the wait-for graph
      has no cycle, whatever the order in which requests for one key are served. */
  lemma NoDeadlock(h: Hash, states: seq<State>, steps: seq<Step>, n: nat, arrived: Arrival, path: seq<nat>)
    requires Execution(h, states, steps) && n < |states| && AllOneMode(h, states[n])
    ensures !Deadlocked(states[n], arrived, path)
  {
    hide Execution, AllOneMode, AllInOrder;
    OrderHolds(h, states, steps, n);
    if Deadlocked(states[n], arrived, path) {
      assert WaitsFor(states[n], arrived, path[0], path[1]);
      WaitsClimb(states[n], arrived, path);
    }
  }

  // ----- someone can always step -----

  /** Something is left to do: the work itself, or locks to let go of. */
  predicate Pending(t: Txn) {
    Unfinished(t) || t.held != {} || t.phase.Barred?
  }

  predicate Blocked(t: Txn) {
    t.phase.Locking? && t.todo != []
  }

  /** A step that gets a transaction on: any but a beginning or an abort. */
  ghost predicate Advances(h: Hash, s: State, step: Step) {
    !step.Begin? && !step.Abort? && Enabled(h, s, step)
  }

  /** And none that jumps the queue. */
  ghost predicate InTurn(h: Hash, s: State, arrived: Arrival, step: Step) {
    Advances(h, s, step) && (step.Acquire? ==> forall b :: !WaitsFor(s, arrived, step.id, b))
  }

  lemma UnblockedAdvances(h: Hash, s: State, id: nat) returns (step: Step)
    requires Inv(h, s) && id in s.txns && Pending(s.txns[id]) && !Blocked(s.txns[id])
    ensures Advances(h, s, step) && !step.Acquire? && step.id == id
  {
    hide Inv, LocksOf, ValidJob, EventsOf;
    var t := s.txns[id];
    TxnOkOf(h, s, id);
    if t.phase.Locking? {
      step := ReadMark(id);
    } else if t.phase.Marked? {
      step := if t.job.Append? then Check(id) else EndBarrier(id);
    } else if t.phase.Passed? {
      step := if |t.positions| < |EventsOf(t.job)| then Allocate(id) else Commit(id);
    } else if t.held != {} {
      var l :| l in t.held;
      step := Release(id, l);
    } else {
      step := Scan(id);
    }
  }

  lemma FurthestAhead(s: State, arrived: Arrival, ids: set<nat>, start: nat) returns (top: nat)
    requires start in ids && forall id <- ids :: id in s.txns && s.txns[id].todo != []
    ensures top in ids && forall id <- ids :: !Ahead(s, arrived, top, id)
  {
    top := start;
    var rest := ids - {top};
    if next :| next in rest {
      var other := FurthestAhead(s, arrived, rest, next);
      if Ahead(s, arrived, top, other) {
        top := other;
      }
    }
    forall id | id in ids ensures !Ahead(s, arrived, top, id) {
      assert id == start || id in rest;
    }
  }

  lemma Unwaiting(h: Hash, s: State, arrived: Arrival, top: nat)
    requires Inv(h, s) && AllInOrder(s) && top in s.txns && Blocked(s.txns[top])
    requires forall id <- s.txns :: s.txns[id].held != {} ==> Blocked(s.txns[id])
    requires forall id <- s.txns :: Blocked(s.txns[id]) ==> !Ahead(s, arrived, top, id)
    ensures InTurn(h, s, arrived, Acquire(top))
  {
    hide Inv, AllInOrder, LocksOf, ValidJob, EventsOf;
    forall other, l | other in s.txns && other != top && l in s.txns[other].held
      ensures !Conflict(l, s.txns[top].todo[0])
    {
      HeldBelowHead(s, other, l);
    }
    forall b | b in s.txns && s.txns[b].todo != [] ensures !WaitsFor(s, arrived, top, b) {
      TxnOkOf(h, s, b);
    }
  }

  /** In every reachable state with something left to do, some transaction can get on, in its turn. */
  lemma SomeoneAdvances(h: Hash, states: seq<State>, steps: seq<Step>, n: nat, arrived: Arrival, id: nat)
    returns (step: Step)
    requires Execution(h, states, steps) && n < |states| && AllOneMode(h, states[n])
    requires id in states[n].txns && Pending(states[n].txns[id])
    ensures InTurn(h, states[n], arrived, step)
  {
    hide Inv, InOrder, AllOneMode, AllInOrder, WaitsFor, Ahead, Execution, Grantable;
    var s := states[n];
    InvHolds(h, states, steps, n);
    OrderHolds(h, states, steps, n);
    if free :| free in s.txns && Pending(s.txns[free]) && !Blocked(s.txns[free]) {
      step := UnblockedAdvances(h, s, free);
    } else {
      var blocked := set i | i in s.txns && Blocked(s.txns[i]);
      assert id in blocked;
      var top := FurthestAhead(s, arrived, blocked, id);
      step := Acquire(top);
      Unwaiting(h, s, arrived, top);
    }
  }

  lemma HeldBelowHead(s: State, id: nat, l: Lock)
    requires AllInOrder(s) && id in s.txns && l in s.txns[id].held && s.txns[id].todo != []
    ensures l.key < s.txns[id].todo[0].key
  {
    assert InOrder(s.txns[id]) && s.txns[id].todo[0] in s.txns[id].todo;
  }

  // ----- and it ends -----

  function PhaseWeight(phase: Phase): nat {
    match phase
    case Locking => 5
    case Marked => 4
    case Passed => 3
    case Barred => 1
    case _ => 0
  }

  /** How many steps a transaction may still take, at most. */
  function Weight(t: Txn): nat {
    2 * |t.todo| + |t.held| + PhaseWeight(t.phase)
    + if Unfinished(t) && |t.positions| < |EventsOf(t.job)| then |EventsOf(t.job)| - |t.positions| else 0
  }

  ghost function Total(txns: map<nat, Txn>): nat {
    if txns == map[] then 0
    else
      var id :| id in txns;
      Weight(txns[id]) + Total(txns - {id})
  }

  lemma {:induction false} TotalWithout(txns: map<nat, Txn>, id: nat)
    requires id in txns
    ensures Total(txns) == Weight(txns[id]) + Total(txns - {id})
    decreases txns
  {
    hide Weight;
    var first :| first in txns && Total(txns) == Weight(txns[first]) + Total(txns - {first});
    if first != id {
      TotalWithout(txns - {first}, id);
      TotalWithout(txns - {id}, first);
      assert txns - {first} - {id} == txns - {id} - {first};
    }
  }

  lemma MovedLighter(h: Hash, s: State, step: Step)
    requires Enabled(h, s, step) && !step.Begin?
    ensures Weight(Moved(h, s, step)) < Weight(s.txns[step.id])
  {
    hide VerdictOf, ScanOf, EventsOf, LocksOf;
    var t, t' := s.txns[step.id], Moved(h, s, step);
    if step.Release? {
      assert |t'.held| == |t.held| - 1;
    }
  }

  /** Every step but a beginning uses up some of the total weight. */
  lemma StepLighter(h: Hash, s: State, step: Step)
    requires Enabled(h, s, step) && !step.Begin?
    ensures Total(Apply(h, s, step).txns) < Total(s.txns)
  {
    hide VerdictOf, ScanOf, Weight, Inserted;
    MovedLighter(h, s, step);
    var txns' := Apply(h, s, step).txns;
    TotalWithout(s.txns, step.id);
    TotalWithout(txns', step.id);
    assert txns' - {step.id} == s.txns - {step.id};
  }

  /** A stretch of a run in which nothing new begins is no longer than the weight it starts with. */
  lemma {:induction false} StretchesEnd(h: Hash, states: seq<State>, steps: seq<Step>, i: nat, j: nat)
    requires Execution(h, states, steps) && i <= j < |states|
    requires forall k :: i <= k < j ==> !steps[k].Begin?
    ensures j - i + Total(states[j].txns) <= Total(states[i].txns)
  {
    hide Enabled, Apply;
    if i < j {
      StretchesEnd(h, states, steps, i, j - 1);
      StepLighter(h, states[j - 1], steps[j - 1]);
    }
  }

  /** Any finite set of transactions completes: with nothing new beginning, a run that gets on whenever
      it can, each in its turn, has, after as many steps as its weight, nothing left to do. */
  lemma EverythingCompletes(h: Hash, states: seq<State>, steps: seq<Step>, i: nat, j: nat, arrived: Arrival)
    requires Execution(h, states, steps) && i <= j < |states| && AllOneMode(h, states[j])
    requires forall k :: i <= k < j ==> !steps[k].Begin?
    requires !exists step :: InTurn(h, states[j], arrived, step)
    ensures j - i <= Total(states[i].txns)
    ensures forall id <- states[j].txns ::
              var t := states[j].txns[id];
              t.held == {} && (t.phase.Committed? || t.phase.Rejected? || t.phase.Scanned? || t.phase.Aborted?)
  {
    hide Inv, Enabled;
    StretchesEnd(h, states, steps, i, j);
    forall id | id in states[j].txns ensures !Pending(states[j].txns[id]) {
      if Pending(states[j].txns[id]) {
        var step := SomeoneAdvances(h, states, steps, j, arrived, id);
      }
    }
  }
}
