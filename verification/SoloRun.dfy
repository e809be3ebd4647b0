/** The protocol with one append at a time: it ends as the sequential store
    says; and exactly when two racing appends can both commit. */
module SoloRun {
  import opened EventStore
  import opened Logs
  import opened Packing
  import opened Serialize
  import opened LockKeys
  import opened Protocol
  import opened Runs
  import opened PostgresStore
  import opened ProtocolInvariants
  import opened AppendContract
  import opened AppendTheorems

  ghost predicate Quiet(s: State) {
    forall id <- s.txns :: s.txns[id].held == {}
  }

  /** The positions a to b, after a. */
  function Between(a: nat, b: nat): (positions: seq<nat>)
    requires a <= b
    ensures |positions| == b - a && forall i :: 0 <= i < b - a ==> positions[i] == a + 1 + i
  {
    seq(b - a, i requires 0 <= i < b - a => a + 1 + i)
  }

  lemma {:induction false} AllocateAll(h: Hash, s: State, id: nat, until: nat) returns (steps: seq<Step>)
    requires id in s.txns && s.txns[id].phase.Passed? && s.last <= until
    requires |s.txns[id].positions| + until - s.last == |EventsOf(s.txns[id].job)|
    ensures var t := s.txns[id];
            RunFrom(h, s, steps,
                    With(s, id, t.(positions := t.positions + Between(s.last, until))).(last := until))
    decreases until - s.last
  {
    hide EventsOf, VerdictOf, ScanOf;
    var t := s.txns[id];
    var end := With(s, id, t.(positions := t.positions + Between(s.last, until))).(last := until);
    if s.last == until {
      steps := [];
      assert t.positions + Between(s.last, until) == t.positions;
      assert s.txns[id := t] == s.txns;
    } else {
      var m := Apply(h, s, Allocate(id));
      RunOne(h, s, Allocate(id));
      var rest := AllocateAll(h, m, id, until);
      assert t.positions + [s.last + 1] + Between(s.last + 1, until) == t.positions + Between(s.last, until);
      var t' := t.(positions := t.positions + Between(s.last, until));
      assert m.txns[id := t'] == s.txns[id := t'];
      steps := [Allocate(id)] + rest;
      RunConcat(h, s, [Allocate(id)], m, rest, end);
    }
  }

  lemma {:induction false} ReleaseAll(h: Hash, s: State, id: nat) returns (steps: seq<Step>)
    requires id in s.txns && !Unfinished(s.txns[id])
    ensures RunFrom(h, s, steps, With(s, id, s.txns[id].(held := {})))
    decreases s.txns[id].held
  {
    hide VerdictOf, ScanOf;
    var t := s.txns[id];
    if t.held == {} {
      steps := [];
      assert s.txns[id := t] == s.txns;
    } else {
      var l :| l in t.held;
      var m := Apply(h, s, Release(id, l));
      RunOne(h, s, Release(id, l));
      var rest := ReleaseAll(h, m, id);
      assert m.txns[id := t.(held := {})] == s.txns[id := t.(held := {})];
      steps := [Release(id, l)] + rest;
      RunConcat(h, s, [Release(id, l)], m, rest, With(s, id, t.(held := {})));
    }
  }

  lemma {:induction false} InsertedIsExtended(table: map<nat, Event>, last: nat, events: seq<Event>)
    ensures Inserted(table, events, Between(last, last + |events|)) == Extended(table, last, events)
  {
    if events != [] {
      var n := |events| - 1;
      InsertedIsExtended(table, last, events[..n]);
      assert Between(last, last + |events|)[..n] == Between(last, last + n);
    }
  }

  /** The transaction of an append that has run alone. */
  function Ended(job: Job, phase: Phase, mark: nat, positions: seq<nat>): Txn {
    Txn(job, [], {}, phase, Some(mark), positions)
  }

  /** Up to its check, alone. */
  lemma UntilChecked(h: Hash, s: State, id: nat, job: Job) returns (steps: seq<Step>, t: Txn)
    requires Quiet(s) && id !in s.txns && ValidJob(job) && job.Append?
    ensures t.job == job && t.todo == [] && t.mark == Some(s.last) && t.positions == []
    ensures t.phase == match Verdict(job.path, ConditionRows(job.commands), Listing(s.table, s.last), s.last)
                       case None => Passed case Some(i) => Rejected(i)
    ensures RunFrom(h, s, steps, With(s, id, t))
  {
    hide LocksOf, ValidJob, EventsOf, Verdict, ScanOf, Listing, ConditionRows;
    var plan := PlanExists(LocksOf(h, job));
    assert plan + [] == plan;
    var locked := BeginThrough(h, s, id, job, plan, []);
    var s2 := With(s, id, Txn(job, [], (set l <- plan), Locking, None, []));
    var s3 := Apply(h, s2, ReadMark(id));
    RunOne(h, s2, ReadMark(id));
    RunConcat(h, s, locked, s2, [ReadMark(id)], s3);
    var s4 := Apply(h, s3, Check(id));
    RunOne(h, s3, Check(id));
    RunConcat(h, s, locked + [ReadMark(id)], s3, [Check(id)], s4);
    steps := locked + [ReadMark(id)] + [Check(id)];
    t := s4.txns[id];
    assert s4.txns == s.txns[id := t];
  }

  /** From its check to its end, alone, when it has passed. */
  lemma FromPassed(h: Hash, s: State, id: nat, job: Job, t: Txn) returns (steps: seq<Step>)
    requires id in s.txns && s.txns[id] == t && t.phase.Passed? && t.positions == [] && t.todo == []
    requires t.job == job && t.mark == Some(s.last)
    ensures var events := EventsOf(job); var last' := s.last + |events|;
            RunFrom(h, s, steps, State(last', Extended(s.table, s.last, events),
                                       s.txns[id := Ended(job, Committed, s.last, Between(s.last, last'))]))
  {
    hide EventsOf, VerdictOf, ScanOf, Inserted, Extended;
    var events := EventsOf(job);
    var last' := s.last + |events|;
    var allocate := AllocateAll(h, s, id, last');
    var t1 := t.(positions := Between(s.last, last'));
    assert t.positions + Between(s.last, last') == Between(s.last, last');
    var s1 := With(s, id, t1).(last := last');
    var s2 := Apply(h, s1, Commit(id));
    RunOne(h, s1, Commit(id));
    RunConcat(h, s, allocate, s1, [Commit(id)], s2);
    var release := ReleaseAll(h, s2, id);
    var s3 := With(s2, id, s2.txns[id].(held := {}));
    RunConcat(h, s, allocate + [Commit(id)], s2, release, s3);
    InsertedIsExtended(s.table, s.last, events);
    assert s3.txns == s.txns[id := Ended(job, Committed, s.last, Between(s.last, last'))];
    steps := allocate + [Commit(id)] + release;
  }

  /** Every append with scoped conditions and something to append takes part in the protocol, however many
      commands it has, if its tags are valid tokens and the delimiter is in no tag of a condition, nor of an
      event on the stored-procedure path. */
  lemma EveryCleanAppendRuns(commands: seq<AppendCommand>, path: Path)
    requires !SomeUnscoped(commands) && !NoEventsGiven(commands)
    requires forall c <- commands, item <- ConditionItems(c), tag <- item.tags ::
               ValidTagToken(tag) && TAG_DELIMITER !in tag
    requires forall c <- commands, e <- c.events, tag <- e.tags ::
               ValidTagToken(tag) && (path.ViaFunction? ==> TAG_DELIMITER !in tag)
    ensures ValidJob(Append(commands, path))
  {
    hide AllEvents, KeepsMeaning, SplitTags, ValidTagToken, ValidConditions, SomeUnscoped, NoEventsGiven;
    ValidUnlessUnscoped(commands);
    NoEventsIffNone(commands);
    forall c | c in commands ensures NoEmptyTag(c) && KeepsMeaning(c) && TokenItems(ConditionItems(c)) {
      forall item | item in ConditionItems(c) ensures "" !in item.tags && CleanTags(item.tags) && TokenTags(item.tags) {
        NoEmptyToken();
      }
      CleanKeepsMeaning(c);
    }
    forall c, e | c in commands && e in c.events ensures KeptBy(path, e) && TokenTags(e.tags) {
      NoEmptyToken();
    }
  }

  lemma NoEmptyToken()
    ensures !ValidTagToken("")
  {}

  /** Every query that can be built takes part as a forward read. */
  lemma EveryQueryRuns(query: Query, after: Option<nat>, limit: int)
    requires query.All? || (query.items != [] && forall item <- query.items ::
               item.types != [] && forall tag <- item.tags :: ValidTagToken(tag))
    ensures ValidJob(Read(query, after, limit))
  {}

  /** The append `id` has ended as the sequential store answers: the same table, the same sequence, committed
      or rejected alike, no lock left held, and nothing else changed. */
  ghost predicate EndedAsStored(s: State, id: nat, job: Job, s': State)
    requires job.Append?
  {
    && s'.table == TableAfter(job.path, job.commands, s.table, s.last)
    && s'.last == SequenceAfter(job.path, job.commands, s.table, s.last)
    && id in s'.txns && s'.txns == s.txns[id := s'.txns[id]]
    && s'.txns[id].job == job && s'.txns[id].held == {}
    && match SqlAnswer(job.path, job.commands, s.table, s.last)
       case Appended(_) => s'.txns[id].phase == Committed && s'.txns[id].positions == Between(s.last, s'.last)
       case ConditionFailed(condition, _) =>
         && s'.txns[id].phase.Rejected? && HasCondition(job, s'.txns[id].phase.index)
         && condition == ConditionOf(job, s'.txns[id].phase.index)
       case _ => false
  }

  function VerdictAt(s: State, job: Job): Option<nat>
    requires job.Append?
  {
    Verdict(job.path, ConditionRows(job.commands), Listing(s.table, s.last), s.last)
  }

  /** Where an append that runs alone from `s` can be. */
  ghost predicate SoloAt(s: State, id: nat, job: Job, m: State)
    requires job.Append?
  {
    && id in m.txns && m.txns == s.txns[id := m.txns[id]] && m.txns[id].job == job
    && var t := m.txns[id];
       match t.phase
       case Locking => m.last == s.last && m.table == s.table && t.positions == []
       case Marked => m.last == s.last && m.table == s.table && t.positions == [] && t.mark == Some(s.last)
       case Passed =>
         && VerdictAt(s, job) == None && m.table == s.table && |t.positions| <= |EventsOf(job)|
         && m.last == s.last + |t.positions| && t.positions == Between(s.last, m.last)
       case Committed =>
         && VerdictAt(s, job) == None && m.last == s.last + |EventsOf(job)|
         && m.table == Extended(s.table, s.last, EventsOf(job)) && t.positions == Between(s.last, m.last)
       case Rejected(i) => VerdictAt(s, job) == Some(i) && m.last == s.last && m.table == s.table
       case _ => false
  }

  lemma SoloBegins(h: Hash, s: State, id: nat, job: Job, plan: seq<Lock>)
    requires job.Append? && Enabled(h, s, Begin(id, job, plan))
    ensures SoloAt(s, id, job, Apply(h, s, Begin(id, job, plan)))
  {
    hide ValidJob, LocksOf, EventsOf, KeyOrdered, VerdictAt;
  }

  lemma SoloGoesOn(h: Hash, s: State, id: nat, job: Job, m: State, step: Step)
    requires job.Append? && SoloAt(s, id, job, m) && Enabled(h, m, step) && step.id == id && !step.Abort?
    ensures SoloAt(s, id, job, Apply(h, m, step))
  {
    hide ValidJob, LocksOf, EventsOf, KeyOrdered, Verdict, ConditionRows, Listing, ScanOf, Inserted, Extended;
    var m' := Apply(h, m, step);
    assert m'.txns == s.txns[id := m'.txns[id]];
    if step.Commit? {
      InsertedIsExtended(s.table, s.last, EventsOf(job));
    } else if step.Allocate? {
      assert Between(s.last, m.last) + [m.last + 1] == Between(s.last, m.last + 1);
    }
  }

  lemma {:induction false} SoloStays(h: Hash, s: State, id: nat, job: Job, m: State, steps: seq<Step>, s': State)
    requires job.Append? && SoloAt(s, id, job, m) && RunFrom(h, m, steps, s')
    requires forall step <- steps :: step.id == id && !step.Abort?
    ensures SoloAt(s, id, job, s')
    decreases |steps|
  {
    hide SoloAt, Enabled, Apply;
    if steps != [] {
      assert steps[0] in steps;
      SoloGoesOn(h, s, id, job, m, steps[0]);
      SoloStays(h, s, id, job, Apply(h, m, steps[0]), steps[1..], s');
    }
  }

  lemma SoloStarted(s: State, id: nat, job: Job, m: State)
    requires job.Append? && SoloAt(s, id, job, m)
    ensures id in m.txns
  {}

  lemma SoloEnds(s: State, id: nat, job: Job, m: State)
    requires job.Append? && ValidJob(job) && SoloAt(s, id, job, m) && m.txns[id].held == {}
    requires m.txns[id].phase.Committed? || m.txns[id].phase.Rejected?
    ensures EndedAsStored(s, id, job, m)
  {
    hide Verdict, Listing, ConditionRows, Extended, AllEvents, FaithfulConditions, StoredAsGiven, TokenCommands;
    hide ValidCondition;
    VerdictInRange(job.path, job.commands, Listing(s.table, s.last), s.last);
  }

  /** With no other lock held, an append has a step left until it has ended and let go of its locks. */
  lemma StepLeft(h: Hash, s: State, id: nat, job: Job, m: State) returns (step: Step)
    requires job.Append? && Quiet(s) && SoloAt(s, id, job, m)
    requires m.txns[id].held != {} || !(m.txns[id].phase.Committed? || m.txns[id].phase.Rejected?)
    ensures step.id == id && !step.Abort? && Enabled(h, m, step)
  {
    hide ValidJob, LocksOf, EventsOf, KeyOrdered, VerdictAt, Extended;
    var t := m.txns[id];
    if t.phase.Locking? {
      step := if t.todo == [] then ReadMark(id) else Acquire(id);
    } else if t.phase.Marked? {
      step := Check(id);
    } else if t.phase.Passed? {
      step := if |t.positions| < |EventsOf(job)| then Allocate(id) else Commit(id);
    } else {
      var l :| l in t.held;
      step := Release(id, l);
    }
  }

  /** Every run of an append alone, from a state in which no lock is held, in any order of its steps, without
      an abort and to where none of its steps is left, ends as the sequential store answers. */
  lemma EverySoloRun(h: Hash, s: State, id: nat, job: Job, steps: seq<Step>, s': State)
    requires job.Append? && Quiet(s) && RunFrom(h, s, steps, s')
    requires steps != [] && steps[0].Begin? && steps[0].job == job
    requires forall step <- steps :: step.id == id && !step.Abort?
    requires forall step: Step :: step.id == id && !step.Abort? ==> !Enabled(h, s', step)
    ensures EndedAsStored(s, id, job, s')
  {
    hide SoloAt, Apply, EndedAsStored, LocksOf, KeyOrdered, Quiet, ValidJob;
    assert steps[0] in steps;
    var plan := steps[0].plan;
    assert steps[0] == Begin(id, job, plan) && ValidJob(job);
    SoloBegins(h, s, id, job, plan);
    SoloStays(h, s, id, job, Apply(h, s, steps[0]), steps[1..], s');
    SoloStarted(s, id, job, s');
    if s'.txns[id].held != {} || !(s'.txns[id].phase.Committed? || s'.txns[id].phase.Rejected?) {
      var left := StepLeft(h, s, id, job, s');
    }
    SoloEnds(s, id, job, s');
  }

  /** And there is such a run. */
  lemma AloneInProtocol(h: Hash, s: State, id: nat, job: Job) returns (steps: seq<Step>, s': State)
    requires Quiet(s) && id !in s.txns && ValidJob(job) && job.Append?
    ensures RunFrom(h, s, steps, s') && Quiet(s') && EndedAsStored(s, id, job, s')
  {
    hide Verdict, Listing, ConditionRows, Extended, AllEvents, EndedAsStored, ValidJob;
    hide RunFrom, LocksOf, Enabled, Apply, EventsOf;
    var check, t := UntilChecked(h, s, id, job);
    var s1 := With(s, id, t);
    if t.phase.Passed? {
      var rest := FromPassed(h, s1, id, job, t);
      var last' := s.last + |EventsOf(job)|;
      s' := State(last', Extended(s.table, s.last, EventsOf(job)),
                  s.txns[id := Ended(job, Committed, s.last, Between(s.last, last'))]);
      assert s1.txns[id := Ended(job, Committed, s.last, Between(s.last, last'))] == s'.txns;
      RunConcat(h, s, check, s1, rest, s');
      steps := check + rest;
    } else {
      var rest := ReleaseAll(h, s1, id);
      s' := With(s1, id, t.(held := {}));
      RunConcat(h, s, check, s1, rest, s');
      steps := check + rest;
      assert s'.txns == s.txns[id := s'.txns[id]];
    }
    SoloEnds(s, id, job, s');
  }

  /** A transaction that is under way can be aborted in any state: its locks go, and nothing else changes but
      that the positions it has drawn stay drawn. */
  lemma AbortsCleanly(h: Hash, s: State, id: nat) returns (steps: seq<Step>, s': State)
    requires id in s.txns && (Unfinished(s.txns[id]) || s.txns[id].phase.Barred?)
    ensures RunFrom(h, s, steps, s') && s'.table == s.table && s'.last == s.last
    ensures id in s'.txns && s'.txns == s.txns[id := s'.txns[id]]
    ensures var t, t' := s.txns[id], s'.txns[id];
            t'.phase.Aborted? && t'.held == {} && t'.job == t.job && t'.positions == t.positions
  {
    hide RunFrom, VerdictOf, ScanOf, EventsOf;
    var m := Apply(h, s, Abort(id));
    RunOne(h, s, Abort(id));
    var release := ReleaseAll(h, m, id);
    s' := With(m, id, m.txns[id].(held := {}));
    steps := [Abort(id)] + release;
    RunConcat(h, s, [Abort(id)], m, release, s');
    assert s'.txns == s.txns[id := s'.txns[id]];
  }

  /** No lock is held but by `id`. */
  ghost predicate QuietBut(s: State, id: nat) {
    forall other <- s.txns :: other != id ==> s.txns[other].held == {}
  }

  /** A forward read that has begun, and runs alone, answers as the store's `Read` does on the same table. */
  lemma ReadFinishesAlone(h: Hash, s: State, id: nat) returns (steps: seq<Step>, s': State)
    requires id in s.txns && QuietBut(s, id) && s.txns[id].phase.Locking? && s.txns[id].job.Read?
    ensures RunFrom(h, s, steps, s') && s'.table == s.table && s'.last == s.last
    ensures id in s'.txns && s'.txns == s.txns[id := s'.txns[id]]
    ensures var t, t' := s.txns[id], s'.txns[id];
            && t'.job == t.job && t'.held == {} && t'.mark == Some(s.last)
            && t'.phase == Scanned(ReadResult(Listing(s.table, s.last), Overlap, t.job.query,
                                              ReadOptions(false, t.job.after, t.job.limit), Some(s.last)))
  {
    hide LocksOf, ValidJob, EventsOf, VerdictOf, Listing, ReadResult, RunFrom;
    var t := s.txns[id];
    assert t.todo + [] == t.todo;
    var locked := AcquireThrough(h, s, id, t.todo, []);
    var s1 := With(s, id, t.(todo := [], held := t.held + set l <- t.todo));
    var s2 := Apply(h, s1, ReadMark(id));
    RunOne(h, s1, ReadMark(id));
    RunConcat(h, s, locked, s1, [ReadMark(id)], s2);
    var s3 := Apply(h, s2, EndBarrier(id));
    RunOne(h, s2, EndBarrier(id));
    RunConcat(h, s, locked + [ReadMark(id)], s2, [EndBarrier(id)], s3);
    var release := ReleaseAll(h, s3, id);
    var s4 := With(s3, id, s3.txns[id].(held := {}));
    RunConcat(h, s, locked + [ReadMark(id)] + [EndBarrier(id)], s3, release, s4);
    s' := Apply(h, s4, Scan(id));
    RunOne(h, s4, Scan(id));
    steps := locked + [ReadMark(id)] + [EndBarrier(id)] + release + [Scan(id)];
    RunConcat(h, s, locked + [ReadMark(id)] + [EndBarrier(id)] + release, s4, [Scan(id)], s');
    assert s'.txns == s.txns[id := s'.txns[id]];
  }

  /** A forward read that runs alone answers as the store's `Read` does on the same table, and changes nothing. */
  lemma ReadAloneInProtocol(h: Hash, s: State, id: nat, job: Job) returns (steps: seq<Step>, s': State)
    requires Quiet(s) && id !in s.txns && ValidJob(job) && job.Read?
    ensures RunFrom(h, s, steps, s') && Quiet(s') && s'.table == s.table && s'.last == s.last
    ensures id in s'.txns && s'.txns == s.txns[id := s'.txns[id]] && s'.txns[id].job == job
    ensures s'.txns[id].phase
         == Scanned(ReadResult(Listing(s.table, s.last), Overlap, job.query, ReadOptions(false, job.after, job.limit),
                               Some(s.last)))
  {
    hide LocksOf, ValidJob, EventsOf, VerdictOf, Listing, ReadResult, RunFrom;
    var plan := PlanExists(LocksOf(h, job));
    var m := Apply(h, s, Begin(id, job, plan));
    RunOne(h, s, Begin(id, job, plan));
    var rest;
    rest, s' := ReadFinishesAlone(h, m, id);
    steps := [Begin(id, job, plan)] + rest;
    RunConcat(h, s, [Begin(id, job, plan)], m, rest, s');
    assert s'.txns == s.txns[id := s'.txns[id]];
  }

  // ----- the exact condition of the race -----

  /** The index of the last event that matches, or -1. */
  function LastMatch(events: seq<Event>, query: Query): (index: int)
    ensures -1 <= index < |events| && (index >= 0 ==> MatchesQuery(query, events[index]))
    ensures forall i :: index < i < |events| ==> !MatchesQuery(query, events[i])
  {
    if events == [] then -1
    else
      var n := |events| - 1;
      if MatchesQuery(query, events[n]) then n else LastMatch(events[..n], query)
  }

  /** The last position the append's matching events need, when it begins where the sequence is at `last`. */
  function LastNeeded(job: Job, condition: AppendCondition, last: nat): int
    requires job.Append?
  {
    last + 1 + LastMatch(AllEvents(job.commands), condition.failIfEventsMatch)
  }

  ghost predicate Unopposed(s: State, condition: AppendCondition) {
    forall row <- Listing(s.table, s.last) :: !Offends(condition, row)
  }

  lemma UnopposedPasses(s: State, job: Job, condition: AppendCondition)
    requires RacesFor(job, condition) && Unopposed(s, condition)
    ensures FirstViolation(job.commands, Listing(s.table, s.last)) == None
  {
    hide Offends, Listing, FirstViolation;
    forall i: nat | i < |job.commands| ensures !Violates(job.commands[i], Listing(s.table, s.last)) {
      if job.commands[i].condition.Some? {
        assert HasCondition(job, i);
        assert ConditionOf(job, i) == condition;
      }
    }
  }

  lemma RacerCommits(h: Hash, s: State, id: nat, job: Job, condition: AppendCondition)
    returns (steps: seq<Step>, s': State)
    requires Quiet(s) && id !in s.txns && job.Append? && ValidJob(job)
    requires RacesFor(job, condition) && Unopposed(s, condition)
    ensures RunFrom(h, s, steps, s') && Quiet(s')
    ensures id in s'.txns && s'.txns == s.txns[id := s'.txns[id]]
    ensures s'.txns[id].phase == Committed && s'.txns[id].job == job
    ensures s'.last == s.last + |AllEvents(job.commands)|
    ensures s'.table == Extended(s.table, s.last, AllEvents(job.commands))
  {
    hide Verdict, Listing, ConditionRows, Extended, AllEvents, FaithfulConditions, StoredAsGiven, TokenCommands;
    hide RunFrom, ValidCondition, FirstViolation, StoredAll, Unopposed, RacesFor;
    UnopposedPasses(s, job, condition);
    VerdictAlone(job.path, job.commands, s.table, s.last);
    AllStoredAsGiven(job.path, job.commands);
    steps, s' := AloneInProtocol(h, s, id, job);
  }

  /** Rows up to After do not offend; and after a racer whose matching events all lie up to After, none does. */
  lemma StillUnopposed(s: State, s': State, job: Job, condition: AppendCondition)
    requires job.Append? && (forall q <- s.table :: q <= s.last)
    requires AfterOrZero(condition.after) >= LastNeeded(job, condition, s.last) > s.last
    requires s'.last == s.last + |AllEvents(job.commands)|
    requires s'.table == Extended(s.table, s.last, AllEvents(job.commands))
    ensures Unopposed(s, condition) && Unopposed(s', condition)
  {
    hide AllEvents, Extended, MatchesQuery, Listing;
    var events := AllEvents(job.commands);
    forall row | row in Listing(s.table, s.last) ensures !Offends(condition, row) {
      ListedRow(s.table, s.last, row);
    }
    forall row | row in Listing(s'.table, s'.last) ensures !Offends(condition, row) {
      ListedRow(s'.table, s'.last, row);
      ExtendedRow(s.table, s.last, events, row.position);
    }
  }

  lemma PositionsAtLeast(positions: seq<nat>, base: nat, k: nat)
    requires Increasing(positions) && k < |positions| && forall p <- positions :: p > base
    ensures positions[k] >= base + 1 + k
  {
    if k > 0 {
      PositionsAtLeast(positions, base, k - 1);
    } else {
      assert positions[0] in positions;
    }
  }

  /** In a later state, a racer that has committed and needs more than After has an event that offends. */
  lemma BeyondAfterOffends(h: Hash, states: seq<State>, steps: seq<Step>, m: nat, n: nat, id: nat, k: nat,
                           condition: AppendCondition)
    requires Execution(h, states, steps) && m <= n < |states| && id !in states[m].txns
    requires id in states[n].txns && states[n].txns[id].phase.Committed? && states[n].txns[id].job.Append?
    requires k == LastMatch(AllEvents(states[n].txns[id].job.commands), condition.failIfEventsMatch)
    requires AfterOrZero(condition.after) < LastNeeded(states[n].txns[id].job, condition, states[m].last)
    ensures OffendsItself(states[n].txns[id], k, condition)
  {
    hide Inv, Enabled, Apply, EventsOf, LocksOf, ValidJob, MatchesQuery, AllEvents, LastMatch;
    var t := states[n].txns[id];
    InvHolds(h, states, steps, n);
    TxnOkOf(h, states[n], id);
    EventsAsGiven(h, states[n].last, t);
    MarkSince(h, states, steps, m, n, id);
    PositionsAtLeast(t.positions, states[m].last, k);
  }

  ghost predicate CommittedAs(s: State, id: nat, job: Job) {
    id in s.txns && s.txns[id].phase.Committed? && s.txns[id].job == job
  }

  /** The run so far can go on to where both have committed. */
  ghost predicate BothCanCommit(h: Hash, states: seq<State>, w: nat, a: Job, v: nat, b: Job) {
    exists states', steps' :: Execution(h, states', steps') && states <= states'
      && CommittedAs(states'[|states'| - 1], w, a) && CommittedAs(states'[|states'| - 1], v, b)
  }

  /** Two racers: after a run to a state in which no lock is held, both can commit exactly when After is not
      before the last position that the matching events of one of them need. */
  lemma RaceExactly(h: Hash, states: seq<State>, steps: seq<Step>, w: nat, a: Job, v: nat, b: Job,
                    condition: AppendCondition)
    requires Execution(h, states, steps) && w != v
    requires var s := states[|states| - 1]; Quiet(s) && w !in s.txns && v !in s.txns
    requires a.Append? && ValidJob(a) && RacesFor(a, condition) && b.Append? && ValidJob(b) && RacesFor(b, condition)
    ensures var last, after := states[|states| - 1].last, AfterOrZero(condition.after);
            BothCanCommit(h, states, w, a, v, b)
            <==> after >= LastNeeded(a, condition, last) || after >= LastNeeded(b, condition, last)
  {
    hide Enabled, Apply, RacesFor, ValidJob, LastNeeded, BothCanCommit, Quiet;
    var last, after := states[|states| - 1].last, AfterOrZero(condition.after);
    if after >= LastNeeded(a, condition, last) {
      BothCommit(h, states, steps, w, a, v, b, condition);
    } else if after >= LastNeeded(b, condition, last) {
      BothCommit(h, states, steps, v, b, w, a, condition);
      BothWays(h, states, w, a, v, b);
    } else {
      forall states', steps' | Execution(h, states', steps') && states <= states'
        && CommittedAs(states'[|states'| - 1], w, a) ensures !CommittedAs(states'[|states'| - 1], v, b)
      {
        if CommittedAs(states'[|states'| - 1], v, b) {
          NotBoth(h, states, states', steps', w, a, v, b, condition);
        }
      }
      NoWay(h, states, w, a, v, b);
    }
  }

  lemma BothWays(h: Hash, states: seq<State>, w: nat, a: Job, v: nat, b: Job)
    requires BothCanCommit(h, states, v, b, w, a)
    ensures BothCanCommit(h, states, w, a, v, b)
  {
    hide Execution, CommittedAs;
  }

  lemma NoWay(h: Hash, states: seq<State>, w: nat, a: Job, v: nat, b: Job)
    requires forall states', steps' | Execution(h, states', steps') && states <= states'
               && CommittedAs(states'[|states'| - 1], w, a) :: !CommittedAs(states'[|states'| - 1], v, b)
    ensures !BothCanCommit(h, states, w, a, v, b)
  {
    hide CommittedAs, Enabled, Apply;
  }

  /** Where the first racer needs no position after After, it commits, and then the second does. */
  lemma BothCommit(h: Hash, states: seq<State>, steps: seq<Step>, w: nat, a: Job, v: nat, b: Job,
                   condition: AppendCondition)
    requires Execution(h, states, steps) && w != v
    requires var s := states[|states| - 1]; Quiet(s) && w !in s.txns && v !in s.txns
    requires a.Append? && ValidJob(a) && RacesFor(a, condition) && b.Append? && ValidJob(b) && RacesFor(b, condition)
    requires AfterOrZero(condition.after) >= LastNeeded(a, condition, states[|states| - 1].last)
    ensures BothCanCommit(h, states, w, a, v, b)
  {
    hide Enabled, Apply, ValidJob, Quiet, RunFrom, Inv, MatchesQuery, Extended, Unopposed;
    var s := states[|states| - 1];
    InvHolds(h, states, steps, |states| - 1);
    forall q | q in s.table ensures q <= s.last {
      RowsArePositive(h, s, q);
    }
    RacerNeeds(a, condition, s.last);
    var after := s.(last := s.last + |AllEvents(a.commands)|,
                    table := Extended(s.table, s.last, AllEvents(a.commands)));
    StillUnopposed(s, after, a, condition);
    hide RacesFor, LastNeeded;
    var first, s1 := RacerCommits(h, s, w, a, condition);
    UnopposedAlike(after, s1, condition);
    var states1 := RunExtends(h, states, steps, first, s1);
    var second, s2 := RacerCommits(h, s1, v, b, condition);
    var states2 := RunExtends(h, states1, steps + first, second, s2);
    assert CommittedAs(s2, w, a) && CommittedAs(s2, v, b);
    assert Execution(h, states2, steps + first + second) && states <= states2;
  }

  lemma RacerNeeds(job: Job, condition: AppendCondition, last: nat)
    requires RacesFor(job, condition)
    ensures LastNeeded(job, condition, last) > last
  {
    hide MatchesQuery, AllEvents, LastMatch;
    var e :| e in AllEvents(job.commands) && MatchesQuery(condition.failIfEventsMatch, e);
    var k :| 0 <= k < |AllEvents(job.commands)| && AllEvents(job.commands)[k] == e;
  }

  lemma UnopposedAlike(s: State, s': State, condition: AppendCondition)
    requires Unopposed(s, condition) && s'.table == s.table && s'.last == s.last
    ensures Unopposed(s', condition)
  {}

  /** Where both need a position after After, no two of them both commit. */
  lemma NotBoth(h: Hash, states: seq<State>, states': seq<State>, steps': seq<Step>, w: nat, a: Job, v: nat, b: Job,
                condition: AppendCondition)
    requires Execution(h, states', steps') && |states| > 0 && states <= states'
    requires var s := states[|states| - 1]; w !in s.txns && v !in s.txns
    requires RacesFor(a, condition) && RacesFor(b, condition)
    requires CommittedAs(states'[|states'| - 1], w, a) && CommittedAs(states'[|states'| - 1], v, b)
    requires AfterOrZero(condition.after) < LastNeeded(a, condition, states[|states| - 1].last)
    requires AfterOrZero(condition.after) < LastNeeded(b, condition, states[|states| - 1].last)
    ensures w == v
  {
    hide Enabled, Apply, MatchesQuery, LastNeeded, LastMatch, OffendsItself, AllEvents;
    var m, n := |states| - 1, |states'| - 1;
    assert states'[m] == states[m];
    RacerMatches(a, condition);
    RacerMatches(b, condition);
    var k := LastMatch(AllEvents(a.commands), condition.failIfEventsMatch);
    var l := LastMatch(AllEvents(b.commands), condition.failIfEventsMatch);
    BeyondAfterOffends(h, states', steps', m, n, w, k, condition);
    BeyondAfterOffends(h, states', steps', m, n, v, l, condition);
    var i :| HasCondition(a, i);
    var j :| HasCondition(b, j);
    AtMostOneCommits(h, states', steps', n, w, i, k, v, j, l);
  }

  lemma RacerMatches(job: Job, condition: AppendCondition)
    requires RacesFor(job, condition)
    ensures LastMatch(AllEvents(job.commands), condition.failIfEventsMatch) >= 0
  {
    RacerNeeds(job, condition, 0);
  }
}
