/** Every interleaving of in-memory appends with any number of subscribers. Each step is one
    section under the store's mutex, or one step of a subscriber alone. */
module MemoryInterleaving {
  import opened EventStore
  import opened Logs
  import opened MemoryStore

  datatype Phase = Running | Parked(channel: nat) | Ended

  datatype Subscriber = Subscriber(
    query: Query, start: nat, position: nat,
    pending: seq<SequencedEvent>, delivered: seq<SequencedEvent>,
    phase: Phase, seen: nat)

  /** Channels are numbered as they are made; `channel` is the open one and all before it are closed. */
  datatype State = State(log: seq<SequencedEvent>, channel: nat, subscribers: map<nat, Subscriber>)

  datatype Step =
    | Append(commands: seq<AppendCommand>)
    | Subscribe(id: nat, query: Query, after: Option<nat>)
    | Deliver(id: nat)
    | Snapshot(id: nat)
    | Wake(id: nat)
    | Cancel(id: nat)

  ghost predicate Initial(s: State) {
    Ascending(s.log) && s.channel == 0 && s.subscribers == map[]
  }

  predicate Enabled(s: State, step: Step) {
    match step
    case Append(_) => true
    case Subscribe(id, _, _) => id !in s.subscribers
    case Deliver(id) => id in s.subscribers && s.subscribers[id].phase.Running? && s.subscribers[id].pending != []
    case Snapshot(id) => id in s.subscribers && s.subscribers[id].phase.Running? && s.subscribers[id].pending == []
    case Wake(id) =>
      id in s.subscribers && s.subscribers[id].phase.Parked? && s.subscribers[id].phase.channel < s.channel
    case Cancel(id) => id in s.subscribers && s.subscribers[id].phase.Parked?
  }

  function Put(s: State, id: nat, subscriber: Subscriber): State {
    s.(subscribers := s.subscribers[id := subscriber])
  }

  function Apply(s: State, step: Step): State
    requires Enabled(s, step)
  {
    match step
    case Append(commands) =>
      if AppendAnswer(commands, s.log).Appended?
      then s.(log := LogAfter(commands, s.log), channel := s.channel + 1)
      else s
    case Subscribe(id, query, after) =>
      var start := if after.Some? then after.value else 0;
      Put(s, id, Subscriber(query, start, start, [], [], Running, 0))
    case Deliver(id) =>
      var sub := s.subscribers[id];
      Put(s, id, sub.(pending := sub.pending[1..], delivered := sub.delivered + [sub.pending[0]],
                      position := sub.pending[0].position))
    case Snapshot(id) =>
      var sub := s.subscribers[id];
      var events := ReadResult(s.log, Superset, sub.query, ReadOptions(false, Some(sub.position), 0), None);
      Put(s, id, sub.(pending := events, seen := |s.log|, phase := if events == [] then Parked(s.channel) else Running))
    case Wake(id) => Put(s, id, s.subscribers[id].(phase := Running))
    case Cancel(id) => Put(s, id, s.subscribers[id].(phase := Ended))
  }

  ghost predicate Execution(states: seq<State>, steps: seq<Step>) {
    && |states| == |steps| + 1
    && Initial(states[0])
    && forall i :: 0 <= i < |steps| ==> Enabled(states[i], steps[i]) && states[i + 1] == Apply(states[i], steps[i])
  }

  /** Delivered then pending is what a prefix of the log selects, and a subscriber parked on the open
      channel has seen the whole log. */
  ghost predicate SubscriberOk(s: State, sub: Subscriber) {
    && sub.seen <= |s.log|
    && sub.delivered + sub.pending == Select(s.log[..sub.seen], Following(sub.query, sub.start))
    && sub.position == (if sub.delivered == [] then sub.start else sub.delivered[|sub.delivered| - 1].position)
    && (sub.phase.Parked? ==>
          sub.pending == [] && sub.phase.channel <= s.channel
          && (sub.phase.channel == s.channel ==> sub.seen == |s.log|))
  }

  ghost predicate Inv(s: State) {
    Ascending(s.log) && forall id <- s.subscribers :: SubscriberOk(s, s.subscribers[id])
  }

  lemma PutOk(s: State, id: nat, sub: Subscriber)
    requires Inv(s) && SubscriberOk(s, sub)
    ensures Inv(Put(s, id, sub))
  {
    var s' := Put(s, id, sub);
    forall other | other in s'.subscribers ensures SubscriberOk(s', s'.subscribers[other]) {
      assert other != id ==> SubscriberOk(s, s.subscribers[other]);
    }
  }

  lemma SnapshotOk(s: State, id: nat)
    requires Inv(s) && Enabled(s, Snapshot(id))
    ensures SubscriberOk(s, Apply(s, Snapshot(id)).subscribers[id])
  {
    var sub := s.subscribers[id];
    assert SubscriberOk(s, sub);
    assert sub.delivered + [] == sub.delivered;
    ResumeAtLast(s.log, sub.query, sub.start, sub.seen, sub.position);
    assert s.log[..|s.log|] == s.log;
  }

  lemma DeliverOk(s: State, id: nat)
    requires Inv(s) && Enabled(s, Deliver(id))
    ensures SubscriberOk(s, Apply(s, Deliver(id)).subscribers[id])
  {
    var sub := s.subscribers[id];
    assert SubscriberOk(s, sub);
    assert sub.delivered + sub.pending == sub.delivered + [sub.pending[0]] + sub.pending[1..];
  }

  lemma AppendOk(s: State, commands: seq<AppendCommand>)
    requires Inv(s)
    ensures Inv(Apply(s, Append(commands))) && s.log <= Apply(s, Append(commands)).log
  {
    AppendIsAtomic(commands, s.log);
    var s' := Apply(s, Append(commands));
    forall id | id in s'.subscribers ensures SubscriberOk(s', s'.subscribers[id]) {
      var sub := s.subscribers[id];
      assert SubscriberOk(s, sub);
      assert s'.log[..sub.seen] == s.log[..sub.seen];
    }
  }

  lemma InvStep(s: State, step: Step)
    requires Inv(s) && Enabled(s, step)
    ensures Inv(Apply(s, step))
    ensures s.log <= Apply(s, step).log
  {
    match step {
      case Append(commands) => AppendOk(s, commands);
      case Snapshot(id) =>
        SnapshotOk(s, id);
        PutOk(s, id, Apply(s, step).subscribers[id]);
      case Deliver(id) =>
        DeliverOk(s, id);
        PutOk(s, id, Apply(s, step).subscribers[id]);
      case Subscribe(id, query, after) =>
        assert s.log[..0] == [];
        PutOk(s, id, Apply(s, step).subscribers[id]);
      case Wake(id) =>
        assert SubscriberOk(s, s.subscribers[id]);
        PutOk(s, id, Apply(s, step).subscribers[id]);
      case Cancel(id) =>
        assert SubscriberOk(s, s.subscribers[id]);
        PutOk(s, id, Apply(s, step).subscribers[id]);
    }
  }

  lemma {:induction false} InvHolds(states: seq<State>, steps: seq<Step>, i: nat)
    requires Execution(states, steps) && i < |states|
    ensures Inv(states[i])
  {
    if i > 0 {
      InvHolds(states, steps, i - 1);
      InvStep(states[i - 1], steps[i - 1]);
    }
  }

  /** Exactly once: in every reachable state a subscriber's delivered and pending events are exactly the
      matching events, after its start, of some prefix of the log. */
  lemma ExactlyOnce(states: seq<State>, steps: seq<Step>, i: nat, id: nat)
    requires Execution(states, steps) && i < |states| && id in states[i].subscribers
    ensures var s := states[i]; var sub := s.subscribers[id];
            sub.seen <= |s.log|
            && sub.delivered + sub.pending == Select(s.log[..sub.seen], Following(sub.query, sub.start))
            && Ascending(sub.delivered + sub.pending)
  {
    InvHolds(states, steps, i);
    var s := states[i];
    var sub := s.subscribers[id];
    assert SubscriberOk(s, sub);
    SelectAscending(s.log[..sub.seen], Following(sub.query, sub.start));
  }

  /** No lost wakeup: a subscriber that is parked and cannot be woken has been delivered every
      matching event of the whole log. */
  lemma NoLostWakeup(states: seq<State>, steps: seq<Step>, i: nat, id: nat)
    requires Execution(states, steps) && i < |states| && id in states[i].subscribers
    requires states[i].subscribers[id].phase.Parked? && !Enabled(states[i], Wake(id))
    ensures var s := states[i]; var sub := s.subscribers[id];
            sub.delivered == Select(s.log, Following(sub.query, sub.start))
            && forall row <- s.log ::
                 row.position > sub.start && MatchesQuery(sub.query, row.event) ==> row in sub.delivered
  {
    InvHolds(states, steps, i);
    var s := states[i];
    var sub := s.subscribers[id];
    assert SubscriberOk(s, sub);
    assert s.log[..|s.log|] == s.log && sub.delivered + [] == sub.delivered;
    forall row | row in s.log && row.position > sub.start && MatchesQuery(sub.query, row.event)
      ensures row in sub.delivered
    {
      SelectedRow(s.log, Following(sub.query, sub.start), row);
    }
  }

  /** What was delivered stays delivered, in order: deliveries only grow. */
  lemma {:induction false} DeliveriesGrow(states: seq<State>, steps: seq<Step>, i: nat, j: nat, id: nat)
    requires Execution(states, steps) && i <= j < |states| && id in states[i].subscribers
    ensures id in states[j].subscribers
    ensures states[j].subscribers[id].query == states[i].subscribers[id].query
    ensures states[j].subscribers[id].start == states[i].subscribers[id].start
    ensures states[i].subscribers[id].delivered <= states[j].subscribers[id].delivered
  {
    if i < j {
      DeliveriesGrow(states, steps, i, j - 1, id);
      assert states[j] == Apply(states[j - 1], steps[j - 1]);
    }
  }

  // ----- in terms of the steps taken -----

  lemma SubscribedAs(states: seq<State>, steps: seq<Step>, k: nat, n: nat, id: nat, query: Query, after: Option<nat>)
    requires Execution(states, steps) && k < n < |states| && steps[k] == Subscribe(id, query, after)
    ensures id in states[n].subscribers
    ensures states[n].subscribers[id].query == query
    ensures after.Some? ==> states[n].subscribers[id].start == after.value
    ensures after.None? ==> states[n].subscribers[id].start == 0
  {
    assert states[k + 1] == Apply(states[k], steps[k]);
    DeliveriesGrow(states, steps, k + 1, n, id);
  }

  /** In every state after a subscriber has asked for `query` after `after`, what it has been delivered and
      has pending is, in ascending order, events of the log that match the query after `after`; and a
      subscriber parked where it cannot be woken has been delivered all of them. */
  lemma SubscribedExactly(states: seq<State>, steps: seq<Step>, k: nat, n: nat, id: nat, query: Query,
                          after: Option<nat>)
    requires Execution(states, steps) && k < n < |states| && steps[k] == Subscribe(id, query, after)
    ensures id in states[n].subscribers
    ensures var s, sub := states[n], states[n].subscribers[id]; var all := sub.delivered + sub.pending;
            && (forall i, j :: 0 <= i < j < |all| ==> all[i].position < all[j].position)
            && (forall row <- all ::
                  && row in s.log && MatchesQuery(query, row.event)
                  && (if after.Some? then row.position > after.value else row.position > 0))
            && (sub.phase.Parked? && sub.phase.channel == s.channel ==>
                  forall row <- s.log | MatchesQuery(query, row.event)
                    && (if after.Some? then row.position > after.value else row.position > 0) :: row in sub.delivered)
  {
    hide MatchesQuery;
    SubscribedAs(states, steps, k, n, id, query, after);
    ExactlyOnce(states, steps, n, id);
    var s, sub := states[n], states[n].subscribers[id];
    forall row ensures row in sub.delivered + sub.pending <==>
        row in s.log[..sub.seen] && row.position > sub.start && MatchesQuery(query, row.event)
    {
      SelectedRow(s.log[..sub.seen], Following(sub.query, sub.start), row);
    }
    if sub.phase.Parked? && sub.phase.channel == s.channel {
      NoLostWakeup(states, steps, n, id);
    }
  }

  /** How many of the steps deliver to the subscriber. */
  function Deliveries(steps: seq<Step>, id: nat): nat {
    if steps == [] then 0
    else Deliveries(steps[..|steps| - 1], id) + if steps[|steps| - 1] == Deliver(id) then 1 else 0
  }

  /** Every delivery hands over one event: a subscriber has been delivered as many as it has taken. */
  lemma {:induction false} EveryDeliveryCounts(states: seq<State>, steps: seq<Step>, n: nat, id: nat)
    requires Execution(states, steps) && n < |states|
    ensures id !in states[n].subscribers ==> Deliveries(steps[..n], id) == 0
    ensures id in states[n].subscribers ==> |states[n].subscribers[id].delivered| == Deliveries(steps[..n], id)
  {
    if n > 0 {
      EveryDeliveryCounts(states, steps, n - 1, id);
      assert steps[..n][..n - 1] == steps[..n - 1];
      assert states[n] == Apply(states[n - 1], steps[n - 1]);
    }
  }

  /** A parked subscriber can be ended at any time, and is then left as it is. */
  lemma EndsAndStays(s: State, id: nat)
    requires id in s.subscribers && s.subscribers[id].phase.Parked?
    ensures Enabled(s, Cancel(id)) && id in Apply(s, Cancel(id)).subscribers
    ensures Apply(s, Cancel(id)).subscribers[id] == s.subscribers[id].(phase := Ended)
  {}

  lemma {:induction false} EndedForGood(states: seq<State>, steps: seq<Step>, k: nat, n: nat, id: nat)
    requires Execution(states, steps) && k < n < |states| && steps[k] == Cancel(id)
    ensures id in states[k].subscribers && id in states[n].subscribers
    ensures states[n].subscribers[id] == states[k].subscribers[id].(phase := Ended)
  {
    if n == k + 1 {
      assert states[n] == Apply(states[k], steps[k]);
    } else {
      EndedForGood(states, steps, k, n - 1, id);
      assert states[n] == Apply(states[n - 1], steps[n - 1]);
    }
  }

  // ----- a subscriber left to itself catches up -----

  /** The run with one more step. */
  lemma OneMore(states: seq<State>, steps: seq<Step>, step: Step) returns (states': seq<State>)
    requires Execution(states, steps) && Enabled(states[|states| - 1], step)
    ensures Execution(states', steps + [step]) && states <= states'
    ensures states'[|states'| - 1] == Apply(states[|states| - 1], step)
  {
    hide Enabled, Apply;
    states' := states + [Apply(states[|states| - 1], step)];
    var steps' := steps + [step];
    forall i | 0 <= i < |steps'|
      ensures Enabled(states'[i], steps'[i]) && states'[i + 1] == Apply(states'[i], steps'[i])
    {
      if i < |steps| {
        assert steps'[i] == steps[i] && states'[i] == states[i] && states'[i + 1] == states[i + 1];
      }
    }
  }

  /** The steps of one subscriber by itself, but for an end of its context. */
  predicate OwnStep(step: Step, id: nat) {
    step == Deliver(id) || step == Snapshot(id) || step == Wake(id)
  }

  lemma {:induction false} TakesPending(states: seq<State>, steps: seq<Step>, id: nat)
    returns (states': seq<State>, more: seq<Step>)
    requires Execution(states, steps)
    requires var s := states[|states| - 1];
             id in s.subscribers && (s.subscribers[id].phase.Running? || s.subscribers[id].pending == [])
    ensures Execution(states', steps + more) && states <= states' && forall step <- more :: OwnStep(step, id)
    ensures var s, s' := states[|states| - 1], states'[|states'| - 1];
            && s'.log == s.log && s'.channel == s.channel && id in s'.subscribers
            && s'.subscribers[id].pending == [] && s'.subscribers[id].phase == s.subscribers[id].phase
            && s'.subscribers[id].seen == s.subscribers[id].seen
    decreases |states[|states| - 1].subscribers[id].pending|
  {
    var s := states[|states| - 1];
    if s.subscribers[id].pending == [] {
      states', more := states, [];
      assert steps + more == steps;
    } else {
      var states1 := OneMore(states, steps, Deliver(id));
      hide Execution;
      var states2, rest := TakesPending(states1, steps + [Deliver(id)], id);
      states', more := states2, [Deliver(id)] + rest;
      assert steps + [Deliver(id)] + rest == steps + more;
    }
  }

  /** From every reachable state, a subscriber whose context has not ended can, by steps of its own alone, be
      delivered every matching event of the log: no wakeup it needs is lost. */
  lemma CatchesUp(states: seq<State>, steps: seq<Step>, id: nat) returns (states': seq<State>, more: seq<Step>)
    requires Execution(states, steps)
    requires id in states[|states| - 1].subscribers && !states[|states| - 1].subscribers[id].phase.Ended?
    ensures Execution(states', steps + more) && states <= states' && forall step <- more :: OwnStep(step, id)
    ensures var s, s' := states[|states| - 1], states'[|states'| - 1];
            && s'.log == s.log && id in s'.subscribers && s'.subscribers[id].pending == []
            && s'.subscribers[id].query == s.subscribers[id].query
            && s'.subscribers[id].start == s.subscribers[id].start
            && forall row <- s.log ::
                 row.position > s.subscribers[id].start && MatchesQuery(s.subscribers[id].query, row.event) ==>
                   row in s'.subscribers[id].delivered
  {
    hide MatchesQuery, Inv, Following;
    var s := states[|states| - 1];
    InvHolds(states, steps, |states| - 1);
    ParkedEmpty(s, id);
    if s.subscribers[id].phase.Parked? && s.subscribers[id].phase.channel >= s.channel {
      states', more := states, [];
      assert steps + more == steps;
      NoLostWakeup(states, steps, |states| - 1, id);
    } else {
      // Take what is pending, wake if parked, look again, and take what is found.
      var states1, first := TakesPending(states, steps, id);
      var states2, steps2, second := states1, steps + first, [];
      if s.subscribers[id].phase.Parked? {
        states2 := OneMore(states1, steps + first, Wake(id));
        second := [Wake(id)];
        steps2 := steps + first + [Wake(id)];
      }
      var states3 := OneMore(states2, steps2, Snapshot(id));
      var states4, last := TakesPending(states3, steps2 + [Snapshot(id)], id);
      states', more := states4, first + second + [Snapshot(id)] + last;
      assert steps2 + [Snapshot(id)] + last == steps + more;
      SeenAll(states', steps + more, |states'| - 1, id);
      DeliveriesGrow(states', steps + more, |states| - 1, |states'| - 1, id);
    }
  }

  lemma ParkedEmpty(s: State, id: nat)
    requires Inv(s) && id in s.subscribers
    ensures s.subscribers[id].phase.Parked? ==>
              s.subscribers[id].pending == [] && s.subscribers[id].phase.channel <= s.channel
  {
    assert SubscriberOk(s, s.subscribers[id]);
  }

  /** Once a subscriber has seen the whole log and has nothing pending, it has been delivered every match. */
  lemma SeenAll(states: seq<State>, steps: seq<Step>, n: nat, id: nat)
    requires Execution(states, steps) && n < |states| && id in states[n].subscribers
    requires states[n].subscribers[id].seen == |states[n].log| && states[n].subscribers[id].pending == []
    ensures var sub := states[n].subscribers[id];
            forall row <- states[n].log | row.position > sub.start && MatchesQuery(sub.query, row.event) ::
              row in sub.delivered
  {
    hide MatchesQuery;
    ExactlyOnce(states, steps, n, id);
    var s, sub := states[n], states[n].subscribers[id];
    assert s.log[..|s.log|] == s.log && sub.delivered + [] == sub.delivered;
    forall row | row in s.log && row.position > sub.start && MatchesQuery(sub.query, row.event)
      ensures row in sub.delivered
    {
      SelectedRow(s.log, Following(sub.query, sub.start), row);
    }
  }
}
