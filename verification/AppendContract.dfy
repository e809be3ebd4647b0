/** What an append promises, in plain terms: which appends are refused and what
    the refusal names, and where each event goes. */
module AppendContract {
  import opened EventStore

  /** A condition that no append may carry: its query is for all events, or an item has no type or no tag. */
  predicate Unscoped(condition: AppendCondition) {
    || condition.failIfEventsMatch.All?
    || exists item <- condition.failIfEventsMatch.items :: item.types == [] || item.tags == {}
  }

  ghost predicate SomeUnscoped(commands: seq<AppendCommand>) {
    exists c <- commands :: c.condition.Some? && Unscoped(c.condition.value)
  }

  ghost predicate NoEventsGiven(commands: seq<AppendCommand>) {
    forall c <- commands :: c.events == []
  }

  ghost predicate NoneViolated(commands: seq<AppendCommand>, log: seq<SequencedEvent>) {
    forall c <- commands :: !Violates(c, log)
  }

  /** The failure carries the condition of the first violated command, and its index where there are several. */
  ghost predicate NamesFirstViolated(commands: seq<AppendCommand>, log: seq<SequencedEvent>,
                                     condition: AppendCondition, index: Option<nat>)
  {
    exists i :: 0 <= i < |commands| && Violates(commands[i], log) && commands[i].condition == Some(condition)
      && (forall j :: 0 <= j < i ==> !Violates(commands[j], log))
      && (|commands| > 1 ==> index == Some(i)) && (|commands| <= 1 ==> index == None)
  }

  /** How many events the first `i` commands bring. */
  function EventsBefore(commands: seq<AppendCommand>, i: nat): nat
    requires i <= |commands|
  {
    if i == 0 then 0 else EventsBefore(commands, i - 1) + |commands[i - 1].events|
  }

  /** Position of event `j` of command `i`, when the last position before the append is `last`. */
  function PlaceOf(commands: seq<AppendCommand>, last: nat, i: nat, j: nat): nat
    requires i < |commands|
  {
    last + 1 + EventsBefore(commands, i) + j
  }


  function LastOfLog(log: seq<SequencedEvent>): nat {
    if log == [] then 0 else log[|log| - 1].position
  }

  /** An in-memory append: bad conditions are refused first, then violated ones, then an append of nothing;
      otherwise every event joins the log at its place, and the last position is the answer. */
  ghost predicate Answered(commands: seq<AppendCommand>, log: seq<SequencedEvent>, answer: AppendResult,
                           log': seq<SequencedEvent>)
  {
    var last, count := LastOfLog(log), EventsBefore(commands, |commands|);
    match answer
    case InvalidCondition => SomeUnscoped(commands) && log' == log
    case ConditionFailed(condition, index) =>
      !SomeUnscoped(commands) && NamesFirstViolated(commands, log, condition, index) && log' == log
    case NoEvents =>
      !SomeUnscoped(commands) && NoneViolated(commands, log) && NoEventsGiven(commands) && log' == log
    case Appended(position) =>
      && !SomeUnscoped(commands) && NoneViolated(commands, log) && !NoEventsGiven(commands)
      && log <= log' && |log'| == |log| + count && position == last + count
      && forall i: nat, j: nat | i < |commands| && j < |commands[i].events| ::
           && |log| + EventsBefore(commands, i) + j < |log'|
           && log'[|log| + EventsBefore(commands, i) + j]
           == SequencedEvent(commands[i].events[j], PlaceOf(commands, last, i, j))
    case Cancelled => false
  }

  lemma ValidUnlessUnscoped(commands: seq<AppendCommand>)
    ensures ValidConditions(commands) <==> !SomeUnscoped(commands)
  {
    forall c | c in commands && c.condition.Some?
      ensures ValidCondition(c.condition.value) <==> !Unscoped(c.condition.value)
    {}
  }

  /** The events of an append, in the order it stores them: command by command, each command's in order. */
  lemma {:induction false} EventAt(commands: seq<AppendCommand>, i: nat, j: nat)
    requires i < |commands| && j < |commands[i].events|
    ensures EventsBefore(commands, i) + j < |AllEvents(commands)|
    ensures AllEvents(commands)[EventsBefore(commands, i) + j] == commands[i].events[j]
  {
    var n := |commands| - 1;
    CountedBefore(commands, n);
    CountedBefore(commands, |commands|);
    if i < n {
      EventAt(commands[..n], i, j);
      BeforeOfPrefix(commands, n, i);
    }
  }

  lemma {:induction false} BeforeOfPrefix(commands: seq<AppendCommand>, n: nat, i: nat)
    requires i <= n <= |commands|
    ensures EventsBefore(commands[..n], i) == EventsBefore(commands, i)
  {
    if i > 0 {
      BeforeOfPrefix(commands, n, i - 1);
    }
  }

  lemma {:induction false} CountedBefore(commands: seq<AppendCommand>, i: nat)
    requires i <= |commands|
    ensures EventsBefore(commands, i) == |AllEvents(commands[..i])|
    ensures commands[..|commands|] == commands
  {
    if i > 0 {
      CountedBefore(commands, i - 1);
      AllEventsStep(commands, i - 1);
    }
  }

  /** Every event stored is some command's. */
  lemma {:induction false} PlaceFound(commands: seq<AppendCommand>, k: nat) returns (i: nat, j: nat)
    requires k < |AllEvents(commands)|
    ensures i < |commands| && j < |commands[i].events| && k == EventsBefore(commands, i) + j
  {
    var n := |commands| - 1;
    CountedBefore(commands, n);
    if k < EventsBefore(commands, n) {
      i, j := PlaceFound(commands[..n], k);
      BeforeOfPrefix(commands, n, i);
    } else {
      i, j := n, k - EventsBefore(commands, n);
    }
  }

  lemma NoEventsIffNone(commands: seq<AppendCommand>)
    ensures AllEvents(commands) == [] <==> NoEventsGiven(commands)
  {
    forall c | c in commands && c.events != [] ensures c.events[0] in AllEvents(commands) {
      EventOfCommand(commands, c.events[0]);
    }
    if AllEvents(commands) != [] {
      EventOfCommand(commands, AllEvents(commands)[0]);
    }
  }

  lemma NoneIfNoFirst(commands: seq<AppendCommand>, log: seq<SequencedEvent>)
    ensures FirstViolation(commands, log) == None <==> NoneViolated(commands, log)
  {
    hide Violates;
    forall i | 0 <= i < |commands| ensures commands[i] in commands {}
  }
}
