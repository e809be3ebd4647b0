/** The in-memory query evaluator, and paging through a log with it. */
module Matching {
  import opened EventStore
  import opened Logs
  import opened Packing
  import opened ReadAnswer

  method IsTagSubset(filter: set<string>, tags: set<string>) returns (subset: bool)
    ensures subset <==> filter <= tags
  {
    var values := Values(filter);
    for i := 0 to |values|
      invariant forall j :: 0 <= j < i ==> values[j] in tags
    {
      if values[i] !in Values(tags) {
        return false;
      }
    }
    return true;
  }

  method QueryMatches(query: Query, e: Event) returns (matched: bool)
    ensures matched <==> MatchesQuery(query, e)
  {
    if query.All? {
      return true;
    }
    for i := 0 to |query.items|
      invariant forall j :: 0 <= j < i ==> !MatchesItem(query.items[j], e)
    {
      if e.eventType in query.items[i].types {
        var subset := IsTagSubset(query.items[i].tags, e.tags);
        if subset {
          assert MatchesItem(query.items[i], e);
          return true;
        }
      }
    }
    return false;
  }

  method AnyMatchAfter(log: seq<SequencedEvent>, query: Query, after: Option<nat>) returns (found: bool)
    ensures found <==> exists row <- log :: Offends(AppendCondition(query, after), row)
  {
    var condition := AppendCondition(query, after);
    for i := 0 to |log|
      invariant forall j :: 0 <= j < i ==> !Offends(condition, log[j])
    {
      if after.Some? && !(log[i].position > after.value) {
        continue;
      }
      var matched := QueryMatches(query, log[i].event);
      if matched {
        assert Offends(condition, log[i]);
        return true;
      }
    }
    return false;
  }

  method MatchingEvents(log: seq<SequencedEvent>, query: Query, options: ReadOptions)
    returns (result: seq<SequencedEvent>)
    ensures result == ReadResult(log, Superset, query, options, None)
    ensures Ascending(log) ==> Answers(result, log, Superset, query, options, None)
  {
    ghost var f := Filter(Superset, query, options.backwards, options.after, None);
    result := [];
    for i := 0 to |log|
      invariant result == Select(log[..i], f)
    {
      assert log[..i + 1][..i] == log[..i];
      var row := log[i];
      if options.after.Some? {
        if options.backwards {
          if !(row.position < options.after.value) {
            continue;
          }
        } else if !(row.position > options.after.value) {
          continue;
        }
      }
      var matched := QueryMatches(query, row.event);
      if !matched {
        continue;
      }
      result := result + [row];
    }
    assert log[..|log|] == log;
    if options.backwards {
      result := Reversed(result);
    }
    ReversedSame(Select(log, f));
    if options.limit > 0 && |result| > options.limit {
      result := result[..options.limit];
    }
    if Ascending(log) {
      ReadResultAnswers(log, Superset, query, options, None);
    }
  }

  // ----- paging -----

  function Unlimited(log: seq<SequencedEvent>, meaning: Meaning, query: Query, backwards: bool, after: Option<nat>):
    seq<SequencedEvent>
  {
    ReadResult(log, meaning, query, ReadOptions(backwards, after, 0), None)
  }

  function Page(log: seq<SequencedEvent>, meaning: Meaning, query: Query, backwards: bool, after: Option<nat>,
                limit: int): seq<SequencedEvent>
  {
    ReadResult(log, meaning, query, ReadOptions(backwards, after, limit), None)
  }

  lemma ForwardPage(log: seq<SequencedEvent>, meaning: Meaning, query: Query, after: Option<nat>, k: nat)
    requires Ascending(log)
    requires 0 < k <= |Unlimited(log, meaning, query, false, after)|
    ensures var all := Unlimited(log, meaning, query, false, after);
            all[k..] == Unlimited(log, meaning, query, false, Some(all[k - 1].position))
  {
    var f := Filter(meaning, query, false, after, None);
    var all := Select(log, f);
    var g := f.(after := Some(all[k - 1].position));
    SelectAscending(log, f);
    SelectAscending(log, g);
    SelectedRow(log, f, all[k - 1]);
    forall row ensures row in Select(log, g) <==> row in all && row.position > all[k - 1].position {
      SelectedRow(log, f, row);
      SelectedRow(log, g, row);
    }
    TailAfter(all, k, all[k - 1].position, Select(log, g));
  }

  lemma EarlierRow(kept: seq<SequencedEvent>, n: nat, row: SequencedEvent)
    requires Ascending(kept) && n < |kept|
    ensures row in kept[..n] <==> row in kept && row.position < kept[n].position
  {
    if row in kept {
      var i :| 0 <= i < |kept| && kept[i] == row;
      if i < n {
        assert kept[..n][i] == row;
      }
    }
  }

  lemma KeepsEarlier(f: Filter, position: nat, row: SequencedEvent)
    requires f.backwards && (f.after.Some? ==> position < f.after.value)
    ensures Keeps(f.(after := Some(position)), row) <==> Keeps(f, row) && row.position < position
  {}

  lemma ReversedTail(kept: seq<SequencedEvent>, k: nat)
    requires k <= |kept|
    ensures |Reversed(kept)| == |kept| && Reversed(kept)[k..] == Reversed(kept[..|kept| - k])
  {
    hide Reversed;
    var n := |kept| - k;
    ReversedSame(kept);
    ReversedSame(kept[..n]);
    forall i | 0 <= i < n ensures Reversed(kept)[k + i] == Reversed(kept[..n])[i] {
      ReversedRow(kept, k + i);
      ReversedRow(kept[..n], i);
    }
  }

  lemma KeptSide(f: Filter, row: SequencedEvent)
    requires Keeps(f, row) && f.backwards && f.after.Some?
    ensures row.position < f.after.value
  {}

  lemma PrefixAscending(log: seq<SequencedEvent>, n: nat)
    requires Ascending(log) && n <= |log|
    ensures Ascending(log[..n])
  {}

  lemma BackwardPage(log: seq<SequencedEvent>, meaning: Meaning, query: Query, after: Option<nat>, k: nat)
    requires Ascending(log)
    requires 0 < k <= |Unlimited(log, meaning, query, true, after)|
    ensures var all := Unlimited(log, meaning, query, true, after);
            all[k..] == Unlimited(log, meaning, query, true, Some(all[k - 1].position))
  {
    hide Ascending, Keeps, Reversed, Select;
    var f := Filter(meaning, query, true, after, None);
    var kept := Select(log, f);
    ReversedSame(kept);
    var n := |kept| - k;
    ReversedRow(kept, k - 1);
    assert Reversed(kept)[k - 1] == kept[n];
    var g := f.(after := Some(kept[n].position));
    SelectAscending(log, f);
    SelectAscending(log, g);
    SelectedRow(log, f, kept[n]);
    if after.Some? {
      KeptSide(f, kept[n]);
    }
    forall row ensures row in Select(log, g) <==> row in kept[..n] {
      SelectedRow(log, f, row);
      SelectedRow(log, g, row);
      KeepsEarlier(f, kept[n].position, row);
      EarlierRow(kept, n, row);
    }
    PrefixAscending(kept, n);
    AscendingUnique(Select(log, g), kept[..n]);
    ReversedTail(kept, k);
  }

  /** A page and the unlimited read that resumes after it make up the unlimited read. */
  lemma PageThenRest(log: seq<SequencedEvent>, meaning: Meaning, query: Query, backwards: bool, after: Option<nat>,
                     limit: int)
    requires Ascending(log) && limit > 0
    ensures var page, all := Page(log, meaning, query, backwards, after, limit),
                             Unlimited(log, meaning, query, backwards, after);
            if page == [] then all == []
            else all == page + Unlimited(log, meaning, query, backwards, Some(page[|page| - 1].position))
  {
    var all := Unlimited(log, meaning, query, backwards, after);
    var page := Page(log, meaning, query, backwards, after, limit);
    var k := |page|;
    assert page == all[..k];
    if k > 0 {
      if backwards {
        BackwardPage(log, meaning, query, after, k);
      } else {
        ForwardPage(log, meaning, query, after, k);
      }
    }
  }

  /** Read pages of `limit` rows, each resuming after the last row of the one before, until one is empty. */
  function Pages(log: seq<SequencedEvent>, meaning: Meaning, query: Query, backwards: bool, after: Option<nat>,
                 limit: int): seq<SequencedEvent>
    requires Ascending(log) && limit > 0
    decreases |Unlimited(log, meaning, query, backwards, after)|
  {
    var page := Page(log, meaning, query, backwards, after, limit);
    if page == [] then []
    else
      PageThenRest(log, meaning, query, backwards, after, limit);
      page + Pages(log, meaning, query, backwards, Some(page[|page| - 1].position), limit)
  }

  /** Paging ends, and reads exactly what the unlimited read reads, in either direction. */
  lemma {:induction false} PagingLossless(log: seq<SequencedEvent>, meaning: Meaning, query: Query, backwards: bool,
                                          after: Option<nat>, limit: int)
    requires Ascending(log) && limit > 0
    ensures Pages(log, meaning, query, backwards, after, limit) == Unlimited(log, meaning, query, backwards, after)
    decreases |Unlimited(log, meaning, query, backwards, after)|
  {
    PageThenRest(log, meaning, query, backwards, after, limit);
    var page := Page(log, meaning, query, backwards, after, limit);
    if page != [] {
      PagingLossless(log, meaning, query, backwards, Some(page[|page| - 1].position), limit);
    }
  }
}
