/** Which hashes can deadlock: exactly those that give a leaf key of a valid tag
    and an intent key one value. The code's is one of them. */
module Deadlock {
  import opened EventStore
  import opened Packing
  import opened Serialize
  import opened LockKeys
  import opened KeyHash
  import opened Protocol
  import opened ProtocolInvariants
  import opened Progress
  import opened Runs

  /** An append whose leaf key for (`eventType`, `tag`) may be one of its own intent keys. */
  function Clashing(eventType: string, tag: string, other: string): AppendCommand {
    AppendCommand([Event(eventType, {tag}, ""), Event(other, {}, "")], None)
  }

  lemma ClashingEvents(eventType: string, tag: string, other: string)
    ensures AllEvents([Clashing(eventType, tag, other)])
         == [Event(eventType, {tag}, ""), Event(other, {}, "")]
  {
    assert [Clashing(eventType, tag, other)][..0] == [];
  }

  lemma ClashingValid(eventType: string, tag: string, other: string)
    requires ValidTagToken(tag)
    ensures ValidJob(Append([Clashing(eventType, tag, other)], ViaCopy))
  {
    ClashingEvents(eventType, tag, other);
  }

  /** It asks for its one leaf key exclusively, and for both its types and the global key shared. */
  lemma ClashingLocks(h: Hash, eventType: string, tag: string, other: string)
    ensures var k, locks := LeafKey(h, eventType, tag), AppendLocks(h, [Clashing(eventType, tag, other)]);
            && Lock(k, Exclusive) in locks
            && (forall l <- locks :: l.mode.Exclusive? ==> l.key == k)
            && Lock(TypeIntentKey(h, other), Shared) in locks && Lock(GlobalIntentKey(h), Shared) in locks
  {
    hide AppendLocks;
    var command := Clashing(eventType, tag, other);
    ClashingEvents(eventType, tag, other);
    EventLocks(h, [command], command.events[0]);
    EventLocks(h, [command], command.events[1]);
    assert tag in command.events[0].tags;
    forall l | l in AppendLocks(h, [command]) && l.mode.Exclusive?
      ensures l.key == LeafKey(h, eventType, tag)
    {
      ExclusiveIffString(h, [command], l.key);
    }
  }

  /** A lock may be asked for right after another with its key. */
  lemma PlanWith(plan: seq<Lock>, i: nat, l: Lock, locks: set<Lock>)
    requires KeyOrdered(plan, locks) && i < |plan| && plan[i].key == l.key && l !in locks
    ensures KeyOrdered(plan[..i + 1] + [l] + plan[i + 1..], locks + {l})
  {
    var longer := plan[..i + 1] + [l] + plan[i + 1..];
    assert forall m <- plan :: m in locks;
    forall a, b | 0 <= a < b < |longer| ensures longer[a].key <= longer[b].key && longer[a] != longer[b] {
      assert longer[a] == if a <= i then plan[a] else if a == i + 1 then l else plan[a - 1];
      assert longer[b] == if b <= i then plan[b] else if b == i + 1 then l else plan[b - 1];
    }
    forall m ensures m in longer <==> m in locks + {l} {
      assert plan == plan[..i + 1] + plan[i + 1..];
      assert m in plan <==> m in plan[..i + 1] || m in plan[i + 1..];
    }
  }

  lemma PlanLists(plan: seq<Lock>, locks: set<Lock>)
    requires KeyOrdered(plan, locks)
    ensures forall l :: l in plan <==> l in locks
  {}

  /** A key asked for in both modes may come up shared first. */
  lemma SharedFirst(locks: set<Lock>, k: int) returns (first: seq<Lock>, rest: seq<Lock>)
    requires Lock(k, Exclusive) in locks && Lock(k, Shared) in locks
    requires forall l <- locks :: l.mode.Exclusive? ==> l.key == k
    ensures KeyOrdered(first + rest, locks) && rest != [] && rest[0] == Lock(k, Exclusive)
    ensures Lock(k, Shared) in first && forall l <- first :: l.mode.Shared?
  {
    hide KeyOrdered;
    var others := locks - {Lock(k, Exclusive)};
    var plan := PlanExists(others);
    PlanLists(plan, others);
    assert Lock(k, Shared) in others;
    assert Lock(k, Shared) in plan;
    var i :| 0 <= i < |plan| && plan[i] == Lock(k, Shared);
    PlanWith(plan, i, Lock(k, Exclusive), others);
    first, rest := plan[..i + 1], [Lock(k, Exclusive)] + plan[i + 1..];
    assert first + rest == plan[..i + 1] + [Lock(k, Exclusive)] + plan[i + 1..];
    assert others + {Lock(k, Exclusive)} == locks;
    assert first[i] == Lock(k, Shared);
    assert forall l <- first :: l in plan;
  }

  /** Two such appends, each with its shared locks, wait for each other. */
  lemma DeadlockRun(h: Hash, eventType: string, tag: string, other: string, arrived: Arrival)
    returns (states: seq<State>, steps: seq<Step>)
    requires ValidTagToken(tag)
    requires var k := LeafKey(h, eventType, tag); k == TypeIntentKey(h, other) || k == GlobalIntentKey(h)
    ensures Execution(h, states, steps)
    ensures Deadlocked(states[|states| - 1], arrived, [1, 2, 1])
  {
    hide RunFrom, Enabled, Apply, AppendLocks, ValidJob, KeyOrdered;
    var k := LeafKey(h, eventType, tag);
    var job := Append([Clashing(eventType, tag, other)], ViaCopy);
    ClashingValid(eventType, tag, other);
    ClashingLocks(h, eventType, tag, other);
    var first, rest := SharedFirst(LocksOf(h, job), k);
    var t := Txn(job, rest, (set l <- first), Locking, None, []);
    var one := BeginThrough(h, Empty, 1, job, first, rest);
    var s1 := With(Empty, 1, t);
    var two := BeginThrough(h, s1, 2, job, first, rest);
    var s2 := With(s1, 2, t);
    var states1 := RunExtends(h, [Empty], [], one, s1);
    assert [] + one == one;
    states := RunExtends(h, states1, one, two, s2);
    steps := one + two;
    assert Lock(k, Shared) in t.held && Conflict(Lock(k, Shared), rest[0]);
  }

  /** The claim that key order rules out deadlock: no reachable state has a cycle of waits. */
  ghost predicate NeverDeadlocks(h: Hash) {
    forall states, steps, n: nat, arrived, path | Execution(h, states, steps) && n < |states| ::
      !Deadlocked(states[n], arrived, path)
  }

  /** It holds exactly of the hashes that keep the leaf keys of valid tags and the intent keys apart. */
  lemma NeverDeadlocksExactly(h: Hash)
    ensures NeverDeadlocks(h) <==> KeepsApart(h)
  {
    hide Enabled, Apply, Deadlocked, LeafKey, TypeIntentKey, GlobalIntentKey, OneMode;
    if KeepsApart(h) {
      forall states, steps, n: nat, arrived, path | Execution(h, states, steps) && n < |states|
        ensures !Deadlocked(states[n], arrived, path)
      {
        AllInOneMode(h, states, steps, n);
        NoDeadlock(h, states, steps, n, arrived, path);
      }
    } else {
      var t, tag, u := MeetingKeys(h);
      var arrived: Arrival := x => x;
      var states, steps := DeadlockRun(h, t, tag, u, arrived);
      var n := |states| - 1;
      assert 0 <= n && Deadlocked(states[n], arrived, [1, 2, 1]);
    }
  }

  lemma MeetingKeys(h: Hash) returns (t: string, tag: string, u: string)
    requires !KeepsApart(h)
    ensures ValidTagToken(tag)
    ensures LeafKey(h, t, tag) == TypeIntentKey(h, u) || LeafKey(h, t, tag) == GlobalIntentKey(h)
  {
    hide LeafKey, TypeIntentKey, GlobalIntentKey, ValidTagToken;
    if a, b, c :| ValidTagToken(b) && LeafKey(h, a, b) == TypeIntentKey(h, c) {
      t, tag, u := a, b, c;
    } else {
      t, tag :| ValidTagToken(tag) && LeafKey(h, t, tag) == GlobalIntentKey(h);
      u := t;
    }
  }

  lemma AllInOneMode(h: Hash, states: seq<State>, steps: seq<Step>, n: nat)
    requires KeepsApart(h) && Execution(h, states, steps) && n < |states|
    ensures AllOneMode(h, states[n])
  {
    hide KeepsApart, OneMode, Inv, ValidJob, LocksOf, Enabled, Apply;
    InvHolds(h, states, steps, n);
    forall id | id in states[n].txns ensures OneMode(LocksOf(h, states[n].txns[id].job)) {
      TxnOkOf(h, states[n], id);
      JobOneMode(h, states[n].txns[id].job);
    }
  }

  /** The code's own hash is not among them: with it, two appends of the same two events can deadlock. */
  lemma KeyHashDeadlocks(h: Hash)
    requires IsKeyHash(h)
    ensures !KeepsApart(h) && !NeverDeadlocks(h)
  {
    hide NeverDeadlocks, IsKeyHash, LeafKey, TypeIntentKey, GlobalIntentKey;
    LeafMeetsIntent(h);
    NeverDeadlocksExactly(h);
  }
}
