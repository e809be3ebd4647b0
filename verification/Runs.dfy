/** Runs of the protocol from any state, and the first steps of a transaction. */
module Runs {
  import opened EventStore
  import opened LockKeys
  import opened Protocol

  ghost predicate RunFrom(h: Hash, s: State, steps: seq<Step>, s': State)
    decreases |steps|
  {
    if steps == [] then s == s'
    else Enabled(h, s, steps[0]) && RunFrom(h, Apply(h, s, steps[0]), steps[1..], s')
  }

  lemma {:induction false} RunConcat(h: Hash, s: State, a: seq<Step>, m: State, b: seq<Step>, s': State)
    requires RunFrom(h, s, a, m) && RunFrom(h, m, b, s')
    ensures RunFrom(h, s, a + b, s')
    decreases |a|
  {
    hide Enabled, Apply;
    if a == [] {
      assert a + b == b;
    } else {
      RunConcat(h, Apply(h, s, a[0]), a[1..], m, b, s');
      assert (a + b)[1..] == a[1..] + b;
    }
  }

  lemma RunOne(h: Hash, s: State, step: Step)
    requires Enabled(h, s, step)
    ensures RunFrom(h, s, [step], Apply(h, s, step))
  {
    hide Enabled, Apply;
    assert [step][1..] == [];
  }

  lemma {:induction false} RunExtends(h: Hash, states: seq<State>, steps: seq<Step>, more: seq<Step>, s': State)
    returns (states': seq<State>)
    requires Execution(h, states, steps) && RunFrom(h, states[|states| - 1], more, s')
    ensures Execution(h, states', steps + more) && states <= states' && states'[|states'| - 1] == s'
    decreases |more|
  {
    hide Enabled, Apply;
    if more == [] {
      states' := states;
      assert steps + more == steps;
    } else {
      var next := Apply(h, states[|states| - 1], more[0]);
      assert Execution(h, states + [next], steps + [more[0]]);
      states' := RunExtends(h, states + [next], steps + [more[0]], more[1..], s');
      assert steps + [more[0]] + more[1..] == steps + more;
    }
  }

  function With(s: State, id: nat, t: Txn): State {
    s.(txns := s.txns[id := t])
  }

  /** A transaction takes the first locks still to be taken, all of them free. */
  lemma {:induction false} AcquireThrough(h: Hash, s: State, id: nat, first: seq<Lock>, rest: seq<Lock>)
    returns (steps: seq<Step>)
    requires id in s.txns && s.txns[id].phase.Locking? && s.txns[id].todo == first + rest
    requires forall l <- first :: Grantable(s, id, l)
    ensures var t := s.txns[id];
            RunFrom(h, s, steps, With(s, id, t.(todo := rest, held := t.held + set l <- first)))
    decreases |first|
  {
    var t := s.txns[id];
    if first == [] {
      steps := [];
      assert t.held + (set l <- first) == t.held && first + rest == rest;
      assert s.txns[id := t] == s.txns;
    } else {
      assert first[0] in first && t.todo[0] == first[0] && t.todo[1..] == first[1..] + rest;
      var m := Apply(h, s, Acquire(id));
      RunOne(h, s, Acquire(id));
      forall l | l in first[1..] ensures Grantable(m, id, l) {
        assert l in first && Grantable(s, id, l);
      }
      var more := AcquireThrough(h, m, id, first[1..], rest);
      assert first == [first[0]] + first[1..];
      assert t.held + {first[0]} + (set l <- first[1..]) == t.held + set l <- first;
      var t' := t.(todo := rest, held := t.held + set l <- first);
      assert m.txns[id := t'] == s.txns[id := t'];
      steps := [Acquire(id)] + more;
      RunConcat(h, s, [Acquire(id)], m, more, With(s, id, t'));
    }
  }

  /** A transaction begins, and takes the first locks of its plan, all of them free. */
  lemma BeginThrough(h: Hash, s: State, id: nat, job: Job, first: seq<Lock>, rest: seq<Lock>)
    returns (steps: seq<Step>)
    requires id !in s.txns && ValidJob(job) && KeyOrdered(first + rest, LocksOf(h, job))
    requires forall l <- first :: Grantable(s, id, l)
    ensures RunFrom(h, s, steps, With(s, id, Txn(job, rest, (set l <- first), Locking, None, [])))
  {
    hide ValidJob, LocksOf, RunFrom;
    var begin := Begin(id, job, first + rest);
    var m := Apply(h, s, begin);
    RunOne(h, s, begin);
    var more := AcquireThrough(h, m, id, first, rest);
    var t := Txn(job, rest, (set l <- first), Locking, None, []);
    assert {} + (set l <- first) == set l <- first;
    assert m.txns[id := t] == s.txns[id := t];
    steps := [begin] + more;
    RunConcat(h, s, [begin], m, more, With(s, id, t));
  }
}
