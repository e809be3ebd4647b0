/** What a read promises, in plain terms, and that `ReadResult` is the only
    answer that keeps the promise. */
module ReadAnswer {
  import opened EventStore
  import opened Logs

  /** The row is on the asked side of After, at most the bound, and the query matches its event. */
  ghost predicate Wanted(meaning: Meaning, query: Query, options: ReadOptions, upper: Option<nat>, row: SequencedEvent)
  {
    && (options.after.Some? && !options.backwards ==> row.position > options.after.value)
    && (options.after.Some? && options.backwards ==> row.position < options.after.value)
    && (upper.Some? ==> row.position <= upper.value)
    && (meaning.Superset? ==> MatchesQuery(query, row.event))
    && (meaning.Overlap? ==> OverlapsQuery(query, row.event))
  }

  /** `a` comes before `b` in the direction of the read. */
  predicate Before(backwards: bool, a: SequencedEvent, b: SequencedEvent) {
    if backwards then a.position > b.position else a.position < b.position
  }

  ghost predicate InOrder(rows: seq<SequencedEvent>, backwards: bool) {
    forall i, j :: 0 <= i < j < |rows| ==> Before(backwards, rows[i], rows[j])
  }

  /** The result holds wanted rows of the log only, in direction order, no more than a positive limit; and a
      wanted row is missing only where the limit is used up, and comes after all of the result. */
  ghost predicate Answers(result: seq<SequencedEvent>, log: seq<SequencedEvent>, meaning: Meaning, query: Query,
                          options: ReadOptions, upper: Option<nat>)
  {
    && (forall row <- result :: row in log && Wanted(meaning, query, options, upper, row))
    && InOrder(result, options.backwards)
    && (options.limit > 0 ==> |result| <= options.limit)
    && forall row <- log :: Wanted(meaning, query, options, upper, row) && row !in result ==>
         && options.limit > 0 && |result| == options.limit
         && forall r <- result :: Before(options.backwards, r, row)
  }

  lemma WantedIsKept(meaning: Meaning, query: Query, options: ReadOptions, upper: Option<nat>, row: SequencedEvent)
    ensures Wanted(meaning, query, options, upper, row)
       <==> Keeps(Filter(meaning, query, options.backwards, options.after, upper), row)
  {}

  /** All wanted rows, in direction order. */
  function Everything(log: seq<SequencedEvent>, meaning: Meaning, query: Query, options: ReadOptions,
                      upper: Option<nat>): seq<SequencedEvent>
  {
    var kept := Select(log, Filter(meaning, query, options.backwards, options.after, upper));
    if options.backwards then Reversed(kept) else kept
  }

  lemma ReversedOrder(kept: seq<SequencedEvent>)
    requires Ascending(kept)
    ensures InOrder(Reversed(kept), true)
  {
    hide Reversed;
    ReversedSame(kept);
    forall i, j | 0 <= i < j < |Reversed(kept)| ensures Before(true, Reversed(kept)[i], Reversed(kept)[j]) {
      ReversedRow(kept, i);
      ReversedRow(kept, j);
      AscendingAt(kept, |kept| - 1 - j, |kept| - 1 - i);
    }
  }

  lemma EverythingWanted(log: seq<SequencedEvent>, meaning: Meaning, query: Query, options: ReadOptions,
                         upper: Option<nat>)
    requires Ascending(log)
    ensures var all := Everything(log, meaning, query, options, upper);
            && (forall row :: row in all <==> row in log && Wanted(meaning, query, options, upper, row))
            && InOrder(all, options.backwards)
  {
    hide Select, Reversed, Wanted, Keeps;
    var f := Filter(meaning, query, options.backwards, options.after, upper);
    SelectAscending(log, f);
    ReversedSame(Select(log, f));
    ReversedOrder(Select(log, f));
    forall row ensures row in Select(log, f) <==> row in log && Wanted(meaning, query, options, upper, row) {
      SelectedRow(log, f, row);
      WantedIsKept(meaning, query, options, upper, row);
    }
  }

  /** Of the rows in order, the first so many leave out only rows that come after them. */
  lemma FirstRows(all: seq<SequencedEvent>, backwards: bool, k: nat, row: SequencedEvent)
    requires k <= |all| && InOrder(all, backwards)
    requires row in all && row !in all[..k]
    ensures forall r <- all[..k] :: Before(backwards, r, row)
  {
    forall n | 0 <= n < k ensures all[n] in all[..k] {
      assert all[..k][n] == all[n];
    }
    var n :| 0 <= n < |all| && all[n] == row;
  }

  lemma ReadResultAnswers(log: seq<SequencedEvent>, meaning: Meaning, query: Query, options: ReadOptions,
                          upper: Option<nat>)
    requires Ascending(log)
    ensures Answers(ReadResult(log, meaning, query, options, upper), log, meaning, query, options, upper)
  {
    hide Select, Reversed, Wanted, Before;
    EverythingWanted(log, meaning, query, options, upper);
    var all := Everything(log, meaning, query, options, upper);
    var result := ReadResult(log, meaning, query, options, upper);
    var k := |result|;
    assert result == all[..k];
    forall row | row in log && Wanted(meaning, query, options, upper, row) && row !in result
      ensures options.limit > 0 && k == options.limit && forall r <- result :: Before(options.backwards, r, row)
    {
      FirstRows(all, options.backwards, k, row);
    }
  }

  // ----- only one answer -----

  /** Rows in one order, where `b` holds those of `a` and besides only later ones: `a` is its start. */
  lemma {:induction false} OrderedPrefix(a: seq<SequencedEvent>, b: seq<SequencedEvent>, backwards: bool, n: nat)
    requires n <= |a| && InOrder(a, backwards) && InOrder(b, backwards)
    requires forall row <- a :: row in b
    requires forall row <- b, r <- a :: row !in a ==> Before(backwards, r, row)
    ensures n <= |b| && forall i :: 0 <= i < n ==> b[i] == a[i]
  {
    if n > 0 {
      OrderedPrefix(a, b, backwards, n - 1);
      assert a[n - 1] in a;
      var m :| 0 <= m < |b| && b[m] == a[n - 1];
      if m >= n - 1 {
        assert b[n - 1] in b;
        if b[n - 1] in a {
          var k :| 0 <= k < |a| && a[k] == b[n - 1];
        }
      }
    }
  }

  /** There is one answer to a read, limits included: what the reads of both stores are specified by. */
  lemma AnswersExactly(result: seq<SequencedEvent>, log: seq<SequencedEvent>, meaning: Meaning, query: Query,
                       options: ReadOptions, upper: Option<nat>)
    requires Ascending(log)
    ensures Answers(result, log, meaning, query, options, upper)
       <==> result == ReadResult(log, meaning, query, options, upper)
  {
    hide Wanted, Before, Select, Reversed;
    ReadResultAnswers(log, meaning, query, options, upper);
    if Answers(result, log, meaning, query, options, upper) {
      var all := Everything(log, meaning, query, options, upper);
      EverythingWanted(log, meaning, query, options, upper);
      OrderedPrefix(result, all, options.backwards, |result|);
      assert result == all[..|result|];
      if |result| < |all| {
        assert all[|result|] in all;
        NotAmongFirst(all, options.backwards, |result|);
      }
    }
  }

  lemma NotAmongFirst(rows: seq<SequencedEvent>, backwards: bool, k: nat)
    requires InOrder(rows, backwards) && k < |rows|
    ensures rows[k] !in rows[..k]
  {}

  /** A limit cuts the unlimited answer, and nothing else. */
  lemma LimitCuts(log: seq<SequencedEvent>, meaning: Meaning, query: Query, options: ReadOptions, upper: Option<nat>)
    ensures var all := ReadResult(log, meaning, query, options.(limit := 0), upper);
            var result := ReadResult(log, meaning, query, options, upper);
            result <= all && |result| == if 0 < options.limit < |all| then options.limit else |all|
  {
    hide Select, Reversed;
  }
}
