/** Event logs in position order, and selection from them. */
module Logs {
  import opened EventStore

  ghost predicate Ascending(log: seq<SequencedEvent>) {
    forall i, j :: 0 <= i < j < |log| ==> log[i].position < log[j].position
  }

  ghost predicate Increasing(positions: seq<nat>) {
    forall i, j :: 0 <= i < j < |positions| ==> positions[i] < positions[j]
  }

  /** How a query is read: as documented, or as the generated SQL reads it. */
  datatype Meaning = Superset | Overlap

  predicate Matches(meaning: Meaning, query: Query, e: Event) {
    match meaning
    case Superset => MatchesQuery(query, e)
    case Overlap => OverlapsQuery(query, e)
  }

  /** One row filter: the query's matches on one side of `after`, at most `upper`. */
  datatype Filter = Filter(meaning: Meaning, query: Query, backwards: bool, after: Option<nat>, upper: Option<nat>)

  predicate Keeps(f: Filter, row: SequencedEvent) {
    && (f.after.Some? ==> if f.backwards then row.position < f.after.value else row.position > f.after.value)
    && (f.upper.Some? ==> row.position <= f.upper.value)
    && Matches(f.meaning, f.query, row.event)
  }

  function Select(log: seq<SequencedEvent>, f: Filter): seq<SequencedEvent> {
    if log == [] then []
    else
      var last := log[|log| - 1];
      Select(log[..|log| - 1], f) + if Keeps(f, last) then [last] else []
  }

  function Reversed(log: seq<SequencedEvent>): seq<SequencedEvent> {
    if log == [] then [] else Reversed(log[1..]) + [log[0]]
  }

  function Truncated(log: seq<SequencedEvent>, limit: int): seq<SequencedEvent> {
    if 0 < limit < |log| then log[..limit] else log
  }

  /** The answer to a read: select, put in direction order, cut to the limit. */
  function ReadResult(log: seq<SequencedEvent>, meaning: Meaning, query: Query, options: ReadOptions,
                      upper: Option<nat>): seq<SequencedEvent>
  {
    var kept := Select(log, Filter(meaning, query, options.backwards, options.after, upper));
    Truncated(if options.backwards then Reversed(kept) else kept, options.limit)
  }

  // ----- what selection keeps -----

  lemma {:induction false} SelectedRow(log: seq<SequencedEvent>, f: Filter, row: SequencedEvent)
    ensures row in Select(log, f) <==> row in log && Keeps(f, row)
  {
    if log != [] {
      var n := |log| - 1;
      SelectedRow(log[..n], f, row);
      assert log == log[..n] + [log[n]];
    }
  }

  lemma {:induction false} SelectAscending(log: seq<SequencedEvent>, f: Filter)
    requires Ascending(log)
    ensures Ascending(Select(log, f))
  {
    if log != [] {
      var n := |log| - 1;
      SelectAscending(log[..n], f);
      forall row | row in Select(log[..n], f) ensures row.position < log[n].position {
        SelectedRow(log[..n], f, row);
      }
    }
  }

  lemma {:induction false} SelectConcat(a: seq<SequencedEvent>, b: seq<SequencedEvent>, f: Filter)
    ensures Select(a + b, f) == Select(a, f) + Select(b, f)
  {
    if b == [] {
      assert a + b == a;
    } else {
      var n := |b| - 1;
      assert (a + b)[..|a + b| - 1] == a + b[..n];
      SelectConcat(a, b[..n], f);
    }
  }

  // ----- a log in position order is determined by its rows -----

  lemma AscendingAt(log: seq<SequencedEvent>, i: nat, j: nat)
    requires Ascending(log) && i < j < |log|
    ensures log[i].position < log[j].position
  {}

  /** The row of `b` next after an agreed start is the row of `a` next after it. */
  lemma NextAgrees(a: seq<SequencedEvent>, b: seq<SequencedEvent>, n: nat, k: nat)
    requires Ascending(a) && Ascending(b) && n < |a| && n < |b| && k < |b|
    requires forall i :: 0 <= i < n ==> a[i] == b[i]
    requires b[k] == a[n]
    requires b[n] in a || a[n].position < b[n].position
    ensures b[n] == a[n]
  {
    if k > n {
      var m :| 0 <= m < |a| && a[m] == b[n];
      if m < n {
        assert false;
      }
    }
  }

  lemma {:induction false} AscendingAgree(a: seq<SequencedEvent>, b: seq<SequencedEvent>, n: nat)
    requires Ascending(a) && Ascending(b) && n <= |a|
    requires forall row <- a :: row in b
    requires forall r <- b, s <- a :: r !in a ==> s.position < r.position
    ensures n <= |b| && forall i :: 0 <= i < n ==> a[i] == b[i]
  {
    hide Ascending;
    if n > 0 {
      AscendingAgree(a, b, n - 1);
      assert a[n - 1] in a;
      var k :| 0 <= k < |b| && b[k] == a[n - 1];
      if |b| == n - 1 {
        AscendingAt(a, k, n - 1);
      } else {
        assert b[n - 1] in b;
        NextAgrees(a, b, n - 1, k);
      }
    }
  }

  lemma AscendingPrefix(a: seq<SequencedEvent>, b: seq<SequencedEvent>)
    requires Ascending(a) && Ascending(b)
    requires forall row <- a :: row in b
    requires forall r <- b, s <- a :: r !in a ==> s.position < r.position
    ensures a <= b
  {
    AscendingAgree(a, b, |a|);
  }

  lemma AscendingUnique(a: seq<SequencedEvent>, b: seq<SequencedEvent>)
    requires Ascending(a) && Ascending(b)
    requires forall row :: row in a <==> row in b
    ensures a == b
  {
    AscendingPrefix(a, b);
    AscendingPrefix(b, a);
  }

  /** Resuming: the rows of `c` past the end of its first `k` rows are the rest of `c`. */
  lemma TailAfter(c: seq<SequencedEvent>, k: nat, position: nat, b: seq<SequencedEvent>)
    requires Ascending(c) && Ascending(b) && k <= |c|
    requires k == 0 ==> forall row <- c :: row.position > position
    requires k > 0 ==> position == c[k - 1].position
    requires forall row :: row in b <==> row in c && row.position > position
    ensures b == c[k..]
  {
    forall row ensures row in b <==> row in c[k..] {
      if row in c {
        var i :| 0 <= i < |c| && c[i] == row;
        if i >= k {
          assert c[k..][i - k] == row;
        }
      }
    }
    AscendingUnique(b, c[k..]);
  }

  /** The forward filter of a reader that has got as far as `position`. */
  function From(meaning: Meaning, query: Query, position: nat, upper: Option<nat>): Filter {
    Filter(meaning, query, false, Some(position), upper)
  }

  lemma FromLater(meaning: Meaning, query: Query, start: nat, position: nat, upper: Option<nat>, row: SequencedEvent)
    requires start <= position
    ensures Keeps(From(meaning, query, position, upper), row)
       <==> Keeps(From(meaning, query, start, upper), row) && row.position > position
  {}

  /** A reader that has taken a first part of its rows, and resumes after the last of them,
      takes exactly the others. */
  lemma Resume(log: seq<SequencedEvent>, meaning: Meaning, query: Query, start: nat, upper: Option<nat>,
               done: seq<SequencedEvent>, position: nat)
    requires Ascending(log)
    requires done <= Select(log, From(meaning, query, start, upper))
    requires position == if done == [] then start else done[|done| - 1].position
    ensures Select(log, From(meaning, query, start, upper))
         == done + Select(log, From(meaning, query, position, upper))
  {
    hide Ascending, Matches;
    var f, g := From(meaning, query, start, upper), From(meaning, query, position, upper);
    var all, rest := Select(log, f), Select(log, g);
    SelectAscending(log, f);
    SelectAscending(log, g);
    forall row | row in all ensures row.position > start {
      SelectedRow(log, f, row);
    }
    if done != [] {
      assert done[|done| - 1] == all[|done| - 1] && all[|done| - 1] in all;
    }
    forall row ensures row in rest <==> row in all && row.position > position {
      SelectedRow(log, f, row);
      SelectedRow(log, g, row);
      FromLater(meaning, query, start, position, upper, row);
    }
    TailAfter(all, |done|, position, rest);
  }

  lemma {:induction false} ReversedRow(log: seq<SequencedEvent>, k: nat)
    requires k < |log|
    ensures |Reversed(log)| == |log| && Reversed(log)[k] == log[|log| - 1 - k]
  {
    if |log| > 1 {
      ReversedRow(log[1..], if k < |log| - 1 then k else 0);
    }
  }

  lemma ReversedSame(log: seq<SequencedEvent>)
    ensures |Reversed(log)| == |log|
    ensures forall row :: row in Reversed(log) <==> row in log
  {
    if log != [] {
      ReversedSame(log[1..]);
      assert log == [log[0]] + log[1..];
    }
  }
}
