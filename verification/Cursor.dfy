/** The batching iterator over a server-side cursor. */
module Cursor {
  import opened EventStore

  /** The server's side: the rows not fetched yet. Fetches with an ordinal in `faults` fail. */
  class ServerCursor {
    var rows: seq<SequencedEvent>
    var fetches: nat
    const faults: set<nat>

    constructor (rows: seq<SequencedEvent>, faults: set<nat>)
      ensures this.rows == rows && fetches == 0 && this.faults == faults
    {
      this.rows := rows;
      this.fetches := 0;
      this.faults := faults;
    }

    /** FETCH n: the next n rows, or all that are left. */
    method Fetch(n: nat) returns (batch: Option<seq<SequencedEvent>>)
      modifies this
      ensures fetches == old(fetches) + 1
      ensures batch.None? <==> old(fetches) in faults
      ensures batch.None? ==> rows == old(rows)
      ensures batch.Some? ==> old(rows) == batch.value + rows
      ensures batch.Some? ==> |batch.value| == if n < |old(rows)| then n else |old(rows)|
    {
      if fetches in faults {
        fetches := fetches + 1;
        return None;
      }
      fetches := fetches + 1;
      var k := if n < |rows| then n else |rows|;
      batch := Some(rows[..k]);
      rows := rows[k..];
    }
  }

  lemma Advance(whole: seq<SequencedEvent>, y: nat, ahead: seq<SequencedEvent>)
    requires y <= |whole| && whole[y..] == ahead && ahead != []
    ensures y < |whole| && whole[y] == ahead[0] && whole[y + 1..] == ahead[1..]
  {
    assert whole[y..][1..] == whole[y + 1..];
  }

  class CursorIterator {
    const server: ServerCursor
    const batchSize: nat
    var buffer: seq<SequencedEvent>
    var idx: nat
    var exhausted: bool
    var failed: bool
    var closed: bool

    // The whole result, and how many of its rows Next has yielded.
    ghost const whole: seq<SequencedEvent>
    ghost var yielded: nat

    /** The rows still to come: the rest of the buffer, then those on the server. */
    ghost function Ahead(): seq<SequencedEvent>
      reads this, server
    {
      if idx <= |buffer| then buffer[idx..] + server.rows else server.rows
    }

    ghost predicate Valid()
      reads this, server
    {
      && batchSize > 0
      && yielded <= |whole|
      && whole[yielded..] == Ahead()
      && (idx > |buffer| ==> exhausted)
      && (exhausted ==> server.rows == [])
      && (0 < idx <= |buffer| ==> yielded > 0 && buffer[idx - 1] == whole[yielded - 1])
    }

    constructor (server: ServerCursor, batchSize: nat)
      requires batchSize > 0
      ensures Valid() && this.server == server && this.batchSize == batchSize
      ensures whole == server.rows && yielded == 0 && !failed && !closed
    {
      this.server := server;
      this.batchSize := batchSize;
      buffer, idx, exhausted, failed, closed := [], 0, false, false, false;
      whole := server.rows;
      yielded := 0;
    }

    /** The buffer is used up: fetch the next batch, and yield its first row. */
    method Refill() returns (more: bool)
      requires Valid() && !(idx < |buffer|) && !exhausted && !failed
      modifies this, server
      ensures Valid() && closed == old(closed)
      ensures more ==> yielded == old(yielded) + 1 && 0 < idx <= |buffer| && !failed
      ensures !more ==> yielded == old(yielded)
      ensures !more && !failed ==> yielded == |whole| && exhausted
      ensures failed ==> old(server.fetches) in server.faults
      ensures server.fetches == old(server.fetches) + 1
    {
      ghost var ahead := server.rows;
      assert Ahead() == ahead;
      var batch := server.Fetch(batchSize);
      if batch.None? {
        failed := true;
        return false;
      }
      buffer := batch.value;
      idx := 1;
      if |buffer| < batchSize {
        exhausted := true;
      }
      if |buffer| > 0 {
        Advance(whole, yielded, ahead);
        assert ahead[1..] == buffer[1..] + server.rows;
        yielded := yielded + 1;
      } else {
        assert ahead == [];
      }
      return |buffer| > 0;
    }

    /** Yields the next row of the whole result while there is one and no fetch has failed. */
    method Next() returns (more: bool)
      requires Valid()
      modifies this, server
      ensures Valid() && closed == old(closed)
      ensures more ==> yielded == old(yielded) + 1 && 0 < idx <= |buffer|
      ensures !more ==> yielded == old(yielded)
      ensures !more && !failed && !closed ==> yielded == |whole| && exhausted
      ensures old(failed || closed) ==> !more && failed == old(failed)
      ensures failed && !old(failed) ==> old(server.fetches) in server.faults
      ensures old(exhausted) ==> exhausted && failed == old(failed) && server.fetches == old(server.fetches)
      ensures old(server.fetches) <= server.fetches
      // Once everything is yielded, it stays exhausted.
      ensures old(exhausted && yielded == |whole|) ==> !more
    {
      if failed || closed {
        return false;
      }
      if idx < |buffer| {
        Advance(whole, yielded, buffer[idx..] + server.rows);
        assert (buffer[idx..] + server.rows)[1..] == buffer[idx + 1..] + server.rows;
        idx := idx + 1;
        yielded := yielded + 1;
        return true;
      }
      if exhausted {
        assert Ahead() == [];
        return false;
      }
      more := Refill();
    }

    /** The row the last successful Next yielded. */
    function Event(): (row: SequencedEvent)
      requires Valid() && 0 < idx <= |buffer|
      reads this, server
      ensures yielded > 0 && row == whole[yielded - 1]
    {
      buffer[idx - 1]
    }

    method Close()
      modifies this
      ensures closed && unchanged(`buffer, `idx, `exhausted, `failed, `yielded)
    {
      closed := true;
    }
  }

  /** Collect drains an iterator and closes it: the whole result in order, whatever its length and the
      batch size, unless a fetch failed; then what came before the failure. */
  method Collect(it: CursorIterator) returns (events: seq<SequencedEvent>, failed: bool)
    requires it.Valid() && it.yielded == 0 && !it.failed && !it.closed
    modifies it, it.server
    ensures it.closed && failed == it.failed
    ensures !failed ==> events == it.whole && it.exhausted
    ensures it.yielded <= |it.whole| && events == it.whole[..it.yielded]
    ensures it.server.faults == {} ==> !failed
  {
    events := [];
    var more := it.Next();
    while more
      invariant it.Valid() && !it.closed
      invariant more ==> 0 < it.idx <= |it.buffer| && |events| + 1 == it.yielded
      invariant !more ==> |events| == it.yielded
      invariant !more && !it.failed ==> it.yielded == |it.whole| && it.exhausted
      invariant events == it.whole[..|events|]
      invariant it.server.faults == {} ==> !it.failed
      decreases |it.whole| - |events|, if more then 1 else 0
    {
      events := events + [it.Event()];
      assert it.whole[..|events|] == it.whole[..|events| - 1] + [it.whole[|events| - 1]];
      more := it.Next();
    }
    failed := it.failed;
    it.Close();
  }
}
