/** Next of the Postgres subscriber, one call at a time. Each round of its loop
    meets a read's answer, a wait and perhaps the end of the context. */
module SubscribeIterator {
  import opened EventStore

  datatype Wait = Notified | PollElapsed | WaitError

  /** What one round meets: whether the context had ended before the drain, the drain's rows (None where
      the read failed), how the wait ended, and whether the context ended during the round. */
  datatype Round = Round(endedBefore: bool, drained: Option<seq<SequencedEvent>>, wait: Wait, endedDuring: bool)

  datatype NextResult = Yielded | Stopped | Failed | Blocked

  /** Nothing came, and the wait ended without an error: the loop goes round again. */
  predicate Idle(r: Round) {
    && !r.endedBefore && r.drained == Some([])
    && (r.wait.Notified? || (r.wait.PollElapsed? && !r.endedDuring))
  }

  class Iterator {
    var position: nat
    var pending: seq<SequencedEvent>
    var current: Option<SequencedEvent>
    var failed: bool
    var closed: bool

    ghost const start: nat
    ghost var delivered: seq<SequencedEvent>

    /** The next drain resumes after the last event delivered. */
    ghost predicate Valid()
      reads this
    {
      position == if delivered == [] then start else delivered[|delivered| - 1].position
    }

    constructor (after: Option<nat>)
      ensures Valid() && delivered == [] && pending == [] && !failed && !closed
      ensures start == (if after.Some? then after.value else 0) && position == start
    {
      var first := if after.Some? then after.value else 0;
      start := first;
      position := first;
      pending, current, failed, closed, delivered := [], None, false, false, [];
    }

    /** With events pending, the first is delivered. Otherwise rounds pass that drain nothing and whose wait
        ends by a notification, or by the poll with the context alive; and the first other round decides. */
    method Next(rounds: seq<Round>) returns (result: NextResult, used: nat)
      requires Valid()
      modifies this
      ensures Valid() && used <= |rounds| && closed == old(closed)
      // A failed or closed iterator does nothing more.
      ensures old(failed || closed) ==> result == Stopped && used == 0 && failed == old(failed)
      ensures old(failed || closed) ==> pending == old(pending) && delivered == old(delivered)
      ensures !old(failed || closed) && old(pending) != [] ==> result == Yielded && used == 0
      ensures !old(failed || closed) && old(pending) == [] ==>
                (if result.Blocked? then used == |rounds| else used > 0)
                && forall k :: 0 <= k < (if result.Blocked? then used else used - 1) ==>
                     && !rounds[k].endedBefore && rounds[k].drained == Some([])
                     && (rounds[k].wait.Notified? || (rounds[k].wait.PollElapsed? && !rounds[k].endedDuring))
      ensures !old(failed || closed) && old(pending) == [] && !result.Blocked? ==>
                var r := rounds[used - 1];
                // The context had ended: a clean stop.
                if r.endedBefore then result.Stopped?
                // Rows were drained: the first is delivered.
                else if r.drained.Some? && r.drained.value != [] then result.Yielded?
                // The read or the wait failed: a failure, unless the context ended meanwhile.
                else if r.drained.None? || r.wait.WaitError? then
                  (if r.endedDuring then result.Stopped? else result.Failed?)
                // The poll elapsed, and the context had ended meanwhile.
                else r.wait.PollElapsed? && r.endedDuring && result.Stopped?
      // What is yielded comes first from what was pending, or else from what this call drained.
      ensures result.Yielded? ==>
                && current.Some? && delivered == old(delivered) + [current.value]
                && [current.value] + pending ==
                     (if old(pending) != [] then old(pending) else rounds[used - 1].drained.value)
      ensures !result.Yielded? ==> delivered == old(delivered) && pending == old(pending)
      ensures failed <==> old(failed) || (result.Failed? && !old(closed))
    {
      used := 0;
      if failed || closed {
        return Stopped, used;
      }
      while true
        invariant Valid() && used <= |rounds| && !failed && !closed && delivered == old(delivered)
        invariant old(pending) != [] ==> pending == old(pending) && used == 0
        invariant old(pending) == [] && pending == [] ==> forall k :: 0 <= k < used ==> Idle(rounds[k])
        invariant old(pending) == [] && pending != [] ==>
                    && used > 0 && (forall k :: 0 <= k < used - 1 ==> Idle(rounds[k]))
                    && !rounds[used - 1].endedBefore && rounds[used - 1].drained == Some(pending)
        decreases |rounds| - used, |pending|
      {
        if |pending| > 0 {
          current := Some(pending[0]);
          delivered := delivered + [pending[0]];
          position := pending[0].position;
          pending := pending[1..];
          return Yielded, used;
        }
        if used == |rounds| {
          return Blocked, used;
        }
        var round := rounds[used];
        used := used + 1;
        if round.endedBefore {
          return Stopped, used;
        }
        if round.drained.None? {
          if round.endedDuring {
            return Stopped, used;
          }
          failed := true;
          return Failed, used;
        }
        if |round.drained.value| > 0 {
          pending := round.drained.value;
          continue;
        }
        if round.wait.Notified? {
          continue;
        }
        if round.endedDuring {
          return Stopped, used;
        }
        if round.wait.PollElapsed? {
          continue;
        }
        failed := true;
        return Failed, used;
      }
    }

    method Close()
      modifies this
      ensures closed && unchanged(`position, `pending, `current, `failed, `delivered)
    {
      closed := true;
    }
  }
}
