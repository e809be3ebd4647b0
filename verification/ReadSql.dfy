/** The query compiler: a read as a SQL statement with numbered parameters. */
module ReadSql {
  import opened EventStore
  import opened Logs
  import opened Packing
  import opened Positions
  import opened ReadAnswer

  datatype Value = Bigint(n: int) | Text(s: string) | TextArray(values: seq<string>) | Count(limit: nat)

  /** `$p`, counted from one. */
  type Placeholder = nat

  /** `(type IN ($..) AND tags && $..::text[])`; either part may be missing. */
  datatype ItemClause = ItemClause(types: seq<Placeholder>, tags: Option<Placeholder>)

  datatype Clause =
    | PositionAbove(p: Placeholder)
    | PositionBelow(p: Placeholder)
    | PositionAtMost(p: Placeholder)
    | AnyOf(clauses: seq<ItemClause>)

  /** `SELECT .. WHERE filters ORDER BY sequence_position [DESC] [LIMIT $..]` */
  datatype Statement = Statement(filters: seq<Clause>, descending: bool, limit: Option<Placeholder>)

  // ----- what a statement means -----

  predicate IsText(args: seq<Value>, p: Placeholder) {
    1 <= p <= |args| && args[p - 1].Text?
  }

  predicate IsArray(args: seq<Value>, p: Placeholder) {
    1 <= p <= |args| && args[p - 1].TextArray?
  }

  predicate IsBigint(args: seq<Value>, p: Placeholder) {
    1 <= p <= |args| && args[p - 1].Bigint?
  }

  predicate IsCount(args: seq<Value>, p: Placeholder) {
    1 <= p <= |args| && args[p - 1].Count?
  }

  predicate ItemTyped(c: ItemClause, args: seq<Value>) {
    && (forall p <- c.types :: IsText(args, p))
    && (c.tags.Some? ==> IsArray(args, c.tags.value))
  }

  predicate ItemHolds(c: ItemClause, args: seq<Value>, e: Event)
    requires ItemTyped(c, args)
  {
    && (c.types != [] ==> exists p <- c.types :: args[p - 1].s == e.eventType)
    && (c.tags.Some? ==> exists v <- args[c.tags.value - 1].values :: v in e.tags)
  }

  predicate ClauseTyped(c: Clause, args: seq<Value>) {
    match c
    case PositionAbove(p) => IsBigint(args, p)
    case PositionBelow(p) => IsBigint(args, p)
    case PositionAtMost(p) => IsBigint(args, p)
    case AnyOf(clauses) => forall item <- clauses :: ItemTyped(item, args)
  }

  predicate ClauseHolds(c: Clause, args: seq<Value>, row: SequencedEvent)
    requires ClauseTyped(c, args)
  {
    match c
    case PositionAbove(p) => row.position > args[p - 1].n
    case PositionBelow(p) => row.position < args[p - 1].n
    case PositionAtMost(p) => row.position <= args[p - 1].n
    case AnyOf(clauses) => exists item <- clauses :: ItemHolds(item, args, row.event)
  }

  predicate Typed(filters: seq<Clause>, args: seq<Value>) {
    forall c <- filters :: ClauseTyped(c, args)
  }

  predicate Passes(filters: seq<Clause>, args: seq<Value>, row: SequencedEvent)
    requires Typed(filters, args)
  {
    forall c <- filters :: ClauseHolds(c, args, row)
  }

  function Where(log: seq<SequencedEvent>, filters: seq<Clause>, args: seq<Value>): seq<SequencedEvent>
    requires Typed(filters, args)
  {
    if log == [] then []
    else
      var last := log[|log| - 1];
      Where(log[..|log| - 1], filters, args) + if Passes(filters, args, last) then [last] else []
  }

  /** The rows a statement yields on a table listed in position order; None where a placeholder is
      unbound or of the wrong type. */
  function Execute(statement: Statement, args: seq<Value>, log: seq<SequencedEvent>): Option<seq<SequencedEvent>> {
    if !Typed(statement.filters, args) || (statement.limit.Some? && !IsCount(args, statement.limit.value)) then None
    else
      var rows := Where(log, statement.filters, args);
      var ordered := if statement.descending then Reversed(rows) else rows;
      Some(match statement.limit
           case None => ordered
           case Some(p) => if args[p - 1].limit < |ordered| then ordered[..args[p - 1].limit] else ordered)
  }

  // ----- the compiler -----

  class ParamManager {
    var args: seq<Value>

    constructor ()
      ensures args == []
    {
      args := [];
    }

    method Add(v: Value) returns (p: Placeholder)
      modifies this
      ensures args == old(args) + [v] && p == |args|
    {
      args := args + [v];
      p := |args|;
    }
  }

  lemma ItemKept(c: ItemClause, args: seq<Value>, more: seq<Value>)
    requires ItemTyped(c, args) && args <= more
    ensures ItemTyped(c, more) && forall e :: ItemHolds(c, more, e) <==> ItemHolds(c, args, e)
  {}

  method TypePlaceholders(types: seq<string>, pm: ParamManager) returns (placeholders: seq<Placeholder>)
    modifies pm
    ensures old(pm.args) <= pm.args && |placeholders| == |types|
    ensures forall i :: 0 <= i < |types| ==>
              IsText(pm.args, placeholders[i]) && pm.args[placeholders[i] - 1].s == types[i]
  {
    placeholders := [];
    for i := 0 to |types|
      invariant old(pm.args) <= pm.args && |placeholders| == i
      invariant forall j :: 0 <= j < i ==>
                  IsText(pm.args, placeholders[j]) && pm.args[placeholders[j] - 1].s == types[j]
    {
      var p := pm.Add(Text(types[i]));
      placeholders := placeholders + [p];
    }
  }

  method ItemFilterClause(item: QueryItem, pm: ParamManager) returns (clause: Option<ItemClause>)
    modifies pm
    ensures old(pm.args) <= pm.args
    ensures clause.Some? <==> HasClause(item)
    ensures clause.Some? ==> ItemTyped(clause.value, pm.args)
    ensures clause.Some? ==> forall e :: ItemHolds(clause.value, pm.args, e) <==> OverlapsItem(item, e)
  {
    var types := [];
    if |item.types| > 0 {
      types := TypePlaceholders(item.types, pm);
    }
    var tags: Option<Placeholder> := None;
    if |item.tags| > 0 {
      var p := pm.Add(TextArray(Values(item.tags)));
      tags := Some(p);
    }
    if types == [] && tags == None {
      return None;
    }
    var result := ItemClause(types, tags);
    forall e ensures ItemHolds(result, pm.args, e) <==> OverlapsItem(item, e) {
      if e.eventType in item.types {
        var i :| 0 <= i < |item.types| && item.types[i] == e.eventType;
        assert types[i] in types;
      }
    }
    return Some(result);
  }

  ghost predicate SomeHolds(clauses: seq<ItemClause>, args: seq<Value>, e: Event)
    requires forall c <- clauses :: ItemTyped(c, args)
  {
    exists c <- clauses :: ItemHolds(c, args, e)
  }

  ghost predicate SomeOverlaps(items: seq<QueryItem>, e: Event) {
    exists item <- items :: HasClause(item) && OverlapsItem(item, e)
  }

  method CriteriaClause(items: seq<QueryItem>, pm: ParamManager) returns (clauses: seq<ItemClause>)
    modifies pm
    ensures old(pm.args) <= pm.args
    ensures clauses == [] <==> forall item <- items :: !HasClause(item)
    ensures forall c <- clauses :: ItemTyped(c, pm.args)
    ensures forall e :: SomeHolds(clauses, pm.args, e) <==> SomeOverlaps(items, e)
  {
    clauses := [];
    for i := 0 to |items|
      invariant old(pm.args) <= pm.args
      invariant clauses == [] <==> forall item <- items[..i] :: !HasClause(item)
      invariant forall c <- clauses :: ItemTyped(c, pm.args)
      invariant forall e :: SomeHolds(clauses, pm.args, e) <==> SomeOverlaps(items[..i], e)
    {
      ghost var before, had := pm.args, clauses;
      var clause := ItemFilterClause(items[i], pm);
      forall c | c in had
        ensures ItemTyped(c, pm.args) && forall e :: ItemHolds(c, pm.args, e) <==> ItemHolds(c, before, e)
      {
        ItemKept(c, before, pm.args);
      }
      assert items[..i + 1] == items[..i] + [items[i]];
      if clause.Some? {
        clauses := clauses + [clause.value];
      }
      forall e ensures SomeHolds(clauses, pm.args, e) <==> SomeOverlaps(items[..i + 1], e) {
        assert SomeHolds(had, before, e) <==> SomeOverlaps(items[..i], e);
        assert SomeOverlaps(items[..i + 1], e) <==>
          SomeOverlaps(items[..i], e) || (HasClause(items[i]) && OverlapsItem(items[i], e));
        if clause.Some? {
          assert SomeHolds(clauses, pm.args, e) <==> SomeHolds(had, pm.args, e) || ItemHolds(clause.value, pm.args, e);
        }
      }
    }
    assert items[..|items|] == items;
  }

  lemma {:induction false} WhereIsSelect(log: seq<SequencedEvent>, filters: seq<Clause>, args: seq<Value>, f: Filter)
    requires Typed(filters, args)
    requires forall row :: Passes(filters, args, row) <==> Keeps(f, row)
    ensures Where(log, filters, args) == Select(log, f)
  {
    if log != [] {
      WhereIsSelect(log[..|log| - 1], filters, args, f);
    }
  }

  ghost predicate Compiles(filters: seq<Clause>, args: seq<Value>, f: Filter) {
    Typed(filters, args) && forall row :: Passes(filters, args, row) <==> Keeps(f, row)
  }

  /** A typed filter keeps its type and meaning when arguments are added after it. */
  lemma CompilesKept(filters: seq<Clause>, args: seq<Value>, more: seq<Value>, f: Filter)
    requires Compiles(filters, args, f) && args <= more
    ensures Compiles(filters, more, f)
  {
    forall c | c in filters
      ensures ClauseTyped(c, more) && forall row :: ClauseHolds(c, more, row) <==> ClauseHolds(c, args, row)
    {
      if c.AnyOf? {
        forall item | item in c.clauses
          ensures ItemTyped(item, more) && forall e :: ItemHolds(item, more, e) <==> ItemHolds(item, args, e)
        {
          ItemKept(item, args, more);
        }
      }
    }
    forall row ensures Passes(filters, more, row) <==> Passes(filters, args, row) {}
  }

  /** One more conjunct. */
  lemma CompilesWith(filters: seq<Clause>, args: seq<Value>, f: Filter, c: Clause, g: Filter)
    requires Compiles(filters, args, f) && ClauseTyped(c, args)
    requires forall row :: Keeps(g, row) <==> Keeps(f, row) && ClauseHolds(c, args, row)
    ensures Compiles(filters + [c], args, g)
  {
    forall row ensures Passes(filters + [c], args, row) <==> Keeps(g, row) {
      assert Passes(filters + [c], args, row) <==> Passes(filters, args, row) && ClauseHolds(c, args, row) by {
        assert c in filters + [c];
        assert forall d <- filters :: d in filters + [c];
      }
    }
  }

  method PositionFilters(options: ReadOptions, upperBound: Option<nat>, pm: ParamManager) returns (filters: seq<Clause>)
    requires pm.args == []
    requires options.after.Some? ==> options.after.value < INT64_LIMIT
    modifies pm
    ensures Compiles(filters, pm.args, Filter(Overlap, All, options.backwards, options.after, upperBound))
  {
    filters := [];
    ghost var f := Filter(Overlap, All, options.backwards, None, None);
    assert Compiles(filters, pm.args, f);
    if options.after.Some? {
      BigintRoundTrip(options.after.value);
      var p := pm.Add(Bigint(PositionToInt64(options.after.value).value));
      var c := if options.backwards then PositionBelow(p) else PositionAbove(p);
      CompilesKept(filters, [], pm.args, f);
      CompilesWith(filters, pm.args, f, c, f.(after := options.after));
      f := f.(after := options.after);
      filters := filters + [c];
    }
    if upperBound.Some? {
      ghost var before := pm.args;
      var p := pm.Add(Bigint(upperBound.value));
      CompilesKept(filters, before, pm.args, f);
      CompilesWith(filters, pm.args, f, PositionAtMost(p), f.(upper := upperBound));
      filters := filters + [PositionAtMost(p)];
    }
  }

  method QueryFilters(query: Query, positions: seq<Clause>, ghost f: Filter, pm: ParamManager)
    returns (filters: seq<Clause>)
    requires Compiles(positions, pm.args, f) && f.query == All && f.meaning == Overlap
    modifies pm
    ensures Compiles(filters, pm.args, f.(query := query))
  {
    filters := positions;
    if !query.All? {
      ghost var before := pm.args;
      var clauses := CriteriaClause(query.items, pm);
      CompilesKept(filters, before, pm.args, f);
      ghost var g := f.(query := query);
      if clauses != [] {
        var c := AnyOf(clauses);
        forall row ensures Keeps(g, row) <==> Keeps(f, row) && ClauseHolds(c, pm.args, row) {
          assert SomeHolds(clauses, pm.args, row.event) <==> SomeOverlaps(query.items, row.event);
        }
        CompilesWith(filters, pm.args, f, c, g);
        filters := filters + [c];
      } else {
        assert forall row :: Keeps(g, row) <==> Keeps(f, row);
      }
    }
  }

  /** The statement, run with its own arguments on any table, yields exactly the selected rows: type and
      tag overlap, on the right side of After, at most the bound, in direction order, up to the limit. */
  method BuildReadSql(query: Query, options: ReadOptions, upperBound: Option<nat>)
    returns (statement: Statement, args: seq<Value>)
    requires options.after.Some? ==> options.after.value < INT64_LIMIT
    ensures forall log :: Execute(statement, args, log) == Some(ReadResult(log, Overlap, query, options, upperBound))
    ensures forall log | Ascending(log) ::
              Answers(Execute(statement, args, log).value, log, Overlap, query, options, upperBound)
  {
    var pm := new ParamManager();
    ghost var f := Filter(Overlap, All, options.backwards, options.after, upperBound);
    var positions := PositionFilters(options, upperBound, pm);
    var filters := QueryFilters(query, positions, f, pm);
    ghost var g := f.(query := query);
    var limit: Option<Placeholder> := None;
    if options.limit > 0 {
      ghost var before := pm.args;
      var p := pm.Add(Count(options.limit));
      CompilesKept(filters, before, pm.args, g);
      limit := Some(p);
    }
    statement, args := Statement(filters, options.backwards, limit), pm.args;
    forall log
      ensures Execute(statement, args, log) == Some(ReadResult(log, Overlap, query, options, upperBound))
    {
      WhereIsSelect(log, filters, args, g);
    }
    forall log | Ascending(log)
      ensures Answers(Execute(statement, args, log).value, log, Overlap, query, options, upperBound)
    {
      ReadResultAnswers(log, Overlap, query, options, upperBound);
    }
  }

  // ----- the SQL reading against the documented one -----

  /** Exactly when overlap and superset are the same: each (type, tag) pair of an item is asked for
      by an item with no further tag. */
  predicate EveryPairAlone(query: Query) {
    query.All? ||
    forall item <- query.items, t <- item.types, tag <- item.tags ::
      exists other <- query.items :: t in other.types && other.tags <= {tag}
  }

  lemma MatchImpliesOverlap(query: Query, e: Event)
    requires WellFormedQuery(query) && MatchesQuery(query, e)
    ensures OverlapsQuery(query, e)
  {
    if !query.All? {
      var item :| item in query.items && MatchesItem(item, e);
      if item.tags != {} {
        var tag :| tag in item.tags;
        assert tag in e.tags;
      }
      assert HasClause(item) && OverlapsItem(item, e);
    }
  }

  lemma OverlapImpliesMatch(query: Query, e: Event)
    requires WellFormedQuery(query) && EveryPairAlone(query) && OverlapsQuery(query, e)
    ensures MatchesQuery(query, e)
  {
    if !query.All? {
      assert query.items[0] in query.items && HasClause(query.items[0]);
      var item :| item in query.items && HasClause(item) && OverlapsItem(item, e);
      if item.tags == {} {
        assert MatchesItem(item, e);
      } else {
        var tag :| tag in item.tags && tag in e.tags;
        var other :| other in query.items && e.eventType in other.types && other.tags <= {tag};
        assert MatchesItem(other, e);
      }
    }
  }

  /** Every event the documented read returns is in the SQL read without a limit. */
  lemma SqlReadsEveryMatch(log: seq<SequencedEvent>, query: Query, options: ReadOptions, upper: Option<nat>,
                           row: SequencedEvent)
    requires WellFormedQuery(query) && row in ReadResult(log, Superset, query, options, upper)
    ensures row in ReadResult(log, Overlap, query, options.(limit := 0), upper)
  {
    var f := Filter(Superset, query, options.backwards, options.after, upper);
    var g := f.(meaning := Overlap);
    ReversedSame(Select(log, f));
    ReversedSame(Select(log, g));
    assert row in Select(log, f);
    SelectedRow(log, f, row);
    MatchImpliesOverlap(query, row.event);
    SelectedRow(log, g, row);
  }

  lemma {:induction false} SameSelection(log: seq<SequencedEvent>, f: Filter, g: Filter)
    requires forall row <- log :: Keeps(f, row) <==> Keeps(g, row)
    ensures Select(log, f) == Select(log, g)
  {
    if log != [] {
      var n := |log| - 1;
      assert log[n] in log && forall row <- log[..n] :: row in log;
      SameSelection(log[..n], f, g);
    }
  }

  ghost predicate ReadsAlike(query: Query) {
    forall log, options, upper ::
      ReadResult(log, Overlap, query, options, upper) == ReadResult(log, Superset, query, options, upper)
  }

  /** The SQL read and the documented read agree on every log and all options, limits included,
      exactly when each (type, tag) pair is also asked for alone. */
  lemma ReadsAlikeExactly(query: Query)
    requires WellFormedQuery(query)
    ensures ReadsAlike(query) <==> EveryPairAlone(query)
  {
    if EveryPairAlone(query) {
      forall log, options, upper
        ensures ReadResult(log, Overlap, query, options, upper) == ReadResult(log, Superset, query, options, upper)
      {
        var f := Filter(Superset, query, options.backwards, options.after, upper);
        forall row | row in log ensures Keeps(f, row) <==> Keeps(f.(meaning := Overlap), row) {
          if MatchesQuery(query, row.event) { MatchImpliesOverlap(query, row.event); }
          if OverlapsQuery(query, row.event) { OverlapImpliesMatch(query, row.event); }
        }
        SameSelection(log, f, f.(meaning := Overlap));
      }
    }
    if ReadsAlike(query) && !query.All? {
      forall item, t, tag | item in query.items && t in item.types && tag in item.tags
        ensures exists other <- query.items :: t in other.types && other.tags <= {tag}
      {
        var e := Event(t, {tag}, "");
        var log, options := [SequencedEvent(e, 1)], ReadOptions(false, None, 0);
        assert HasClause(item) && OverlapsItem(item, e);
        var f := Filter(Superset, query, false, None, None);
        assert Select(log, f.(meaning := Overlap)) == ReadResult(log, Overlap, query, options, None)
            == ReadResult(log, Superset, query, options, None) == Select(log, f);
        SelectedRow(log, f.(meaning := Overlap), log[0]);
        SelectedRow(log, f, log[0]);
        var other :| other in query.items && MatchesItem(other, e);
      }
    }
  }

  /** Queries whose items each have at most one tag are among those read alike. */
  lemma OneTagReadsAlike(query: Query)
    requires WellFormedQuery(query)
    requires query.Items? ==> forall item <- query.items :: |item.tags| <= 1
    ensures ReadsAlike(query)
  {
    if query.Items? {
      forall item, t, tag | item in query.items && t in item.types && tag in item.tags
        ensures item.tags <= {tag}
      {
        assert |item.tags - {tag}| == 0;
      }
    }
    ReadsAlikeExactly(query);
  }

  /** A read for two tags also returns an event with only one of them. */
  lemma TwoTagsReadApart()
    ensures var query := Items([QueryItem(["A"], {"x", "y"})]);
            WellFormedQuery(query) && !ReadsAlike(query)
            && OverlapsQuery(query, Event("A", {"x"}, "")) && !MatchesQuery(query, Event("A", {"x"}, ""))
  {
    var item := QueryItem(["A"], {"x", "y"});
    var query := Items([item]);
    assert item in query.items && "A" in item.types && "x" in item.tags;
    assert forall other <- query.items :: "y" in other.tags;
    assert !EveryPairAlone(query);
    ReadsAlikeExactly(query);
    assert HasClause(item) && OverlapsItem(item, Event("A", {"x"}, ""));
  }

  /** The zero query, which no constructor returns, selects everything in SQL and nothing in memory. */
  lemma ZeroQueryReadsApart(e: Event)
    ensures OverlapsQuery(Items([]), e) && !MatchesQuery(Items([]), e)
  {}
}
