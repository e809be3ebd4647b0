/** Flattening of commands into parallel columns, and the SQL condition check
    that reads the condition columns. */
module Serialize {
  import opened EventStore
  import opened Logs
  import opened Packing
  import opened Positions

  datatype Path = ViaFunction | ViaCopy

  /** One row of the condition columns: one query item's type, with all the item's tags packed. */
  datatype ConditionRow = ConditionRow(index: nat, eventType: string, packedTags: string, after: nat)

  function ItemsOf(query: Query): seq<QueryItem> {
    if query.All? then [] else query.items
  }

  function ConditionItems(command: AppendCommand): seq<QueryItem> {
    if command.condition.Some? then ItemsOf(command.condition.value.failIfEventsMatch) else []
  }

  predicate TokenItems(items: seq<QueryItem>) {
    forall item <- items :: TokenTags(item.tags)
  }

  /** All tags are valid tokens, as the constructors of tag sets ensure. */
  predicate TokenCommands(commands: seq<AppendCommand>) {
    forall c <- commands :: TokenItems(ConditionItems(c)) && forall e <- c.events :: TokenTags(e.tags)
  }

  /** The path stores the event with the tags it has. */
  predicate KeptBy(path: Path, e: Event) {
    path.ViaCopy? || ("" !in e.tags && CleanTags(e.tags))
  }

  predicate StoredAsGiven(path: Path, commands: seq<AppendCommand>) {
    forall c <- commands, e <- c.events :: KeptBy(path, e)
  }

  /** Every After fits a bigint: the positions a store hands out all do. */
  predicate RepresentableAfters(commands: seq<AppendCommand>) {
    forall c <- commands ::
      c.condition.Some? && c.condition.value.after.Some? ==> c.condition.value.after.value < INT64_LIMIT
  }

  // ----- rows the columns stand for -----

  function AfterOrZero(after: Option<nat>): nat {
    if after.Some? then after.value else 0
  }

  function TypeRows(types: seq<string>, packedTags: string, index: nat, after: nat): seq<ConditionRow> {
    if types == [] then []
    else
      var n := |types| - 1;
      TypeRows(types[..n], packedTags, index, after) + [ConditionRow(index, types[n], packedTags, after)]
  }

  function ItemRows(items: seq<QueryItem>, index: nat, after: nat): seq<ConditionRow> {
    if items == [] then []
    else
      var item := items[|items| - 1];
      ItemRows(items[..|items| - 1], index, after) + TypeRows(item.types, Pack(item.tags), index, after)
  }

  function CommandRows(command: AppendCommand, index: nat): seq<ConditionRow> {
    match command.condition
    case None => []
    case Some(condition) => ItemRows(ItemsOf(condition.failIfEventsMatch), index, AfterOrZero(condition.after))
  }

  function ConditionRows(commands: seq<AppendCommand>): seq<ConditionRow> {
    if commands == [] then []
    else
      var n := |commands| - 1;
      ConditionRows(commands[..n]) + CommandRows(commands[n], n)
  }

  /** The parallel columns hold these rows. */
  ghost predicate Columns(indexes: seq<nat>, types: seq<string>, tags: seq<string>, after: seq<nat>,
                          rows: seq<ConditionRow>)
  {
    && |indexes| == |types| == |tags| == |after| == |rows|
    && forall k :: 0 <= k < |rows| ==> rows[k] == ConditionRow(indexes[k], types[k], tags[k], after[k])
  }

  method AfterParameter(after: Option<nat>) returns (afterPos: nat)
    requires after.Some? ==> after.value < INT64_LIMIT
    ensures afterPos == AfterOrZero(after)
  {
    afterPos := 0;
    if after.Some? {
      BigintRoundTrip(after.value);
      afterPos := PositionToInt64(after.value).value;
    }
  }

  /** The columns one query item adds: one row a type. */
  method SerializeItem(item: QueryItem, index: nat, afterPos: nat)
    returns (indexes: seq<nat>, types: seq<string>, tags: seq<string>, after: seq<nat>)
    ensures Columns(indexes, types, tags, after, TypeRows(item.types, Pack(item.tags), index, afterPos))
  {
    hide Pack;
    indexes, types, tags, after := [], [], [], [];
    for k := 0 to |item.types|
      invariant Columns(indexes, types, tags, after, TypeRows(item.types[..k], Pack(item.tags), index, afterPos))
    {
      assert item.types[..k + 1][..k] == item.types[..k];
      indexes := indexes + [index];
      types := types + [item.types[k]];
      tags := tags + [Pack(item.tags)];
      after := after + [afterPos];
    }
    assert item.types[..|item.types|] == item.types;
  }

  /** The columns one command adds: none without a condition. */
  method SerializeCommand(command: AppendCommand, index: nat)
    returns (indexes: seq<nat>, types: seq<string>, tags: seq<string>, after: seq<nat>)
    requires RepresentableAfters([command])
    ensures Columns(indexes, types, tags, after, CommandRows(command, index))
  {
    hide Pack, TypeRows;
    indexes, types, tags, after := [], [], [], [];
    if command.condition.None? {
      return;
    }
    var condition := command.condition.value;
    assert command in [command];
    var afterPos := AfterParameter(condition.after);
    var items := ItemsOf(condition.failIfEventsMatch);
    for j := 0 to |items|
      invariant Columns(indexes, types, tags, after, ItemRows(items[..j], index, afterPos))
    {
      assert items[..j + 1][..j] == items[..j];
      var i, t, g, a := SerializeItem(items[j], index, afterPos);
      indexes, types, tags, after := indexes + i, types + t, tags + g, after + a;
    }
    assert items[..|items|] == items;
  }

  method SerializeConditions(commands: seq<AppendCommand>)
    returns (indexes: seq<nat>, types: seq<string>, tags: seq<string>, after: seq<nat>)
    requires RepresentableAfters(commands)
    ensures Columns(indexes, types, tags, after, ConditionRows(commands))
  {
    hide CommandRows;
    indexes, types, tags, after := [], [], [], [];
    for i := 0 to |commands|
      invariant Columns(indexes, types, tags, after, ConditionRows(commands[..i]))
    {
      assert commands[..i + 1][..i] == commands[..i];
      var x, t, g, a := SerializeCommand(commands[i], i);
      indexes, types, tags, after := indexes + x, types + t, tags + g, after + a;
    }
    assert commands[..|commands|] == commands;
  }

  /** The parallel columns hold these events, with their tags packed. */
  ghost predicate EventColumns(types: seq<string>, tags: seq<string>, payloads: seq<string>, events: seq<Event>) {
    && |types| == |tags| == |payloads| == |events|
    && forall i :: 0 <= i < |events| ==>
         types[i] == events[i].eventType && tags[i] == Pack(events[i].tags) && payloads[i] == events[i].payload
  }

  /** The columns one command's events add. */
  method SerializeCommandEvents(events: seq<Event>)
    returns (types: seq<string>, tags: seq<string>, payloads: seq<string>)
    ensures EventColumns(types, tags, payloads, events)
  {
    hide Pack;
    types, tags, payloads := [], [], [];
    for i := 0 to |events|
      invariant EventColumns(types, tags, payloads, events[..i])
    {
      types := types + [events[i].eventType];
      tags := tags + [Pack(events[i].tags)];
      payloads := payloads + [events[i].payload];
    }
    assert events[..|events|] == events;
  }

  method SerializeEvents(commands: seq<AppendCommand>)
    returns (types: seq<string>, tags: seq<string>, payloads: seq<string>)
    ensures EventColumns(types, tags, payloads, AllEvents(commands))
  {
    hide Pack;
    types, tags, payloads := [], [], [];
    for i := 0 to |commands|
      invariant EventColumns(types, tags, payloads, AllEvents(commands[..i]))
    {
      AllEventsStep(commands, i);
      var t, g, p := SerializeCommandEvents(commands[i].events);
      types, tags, payloads := types + t, tags + g, payloads + p;
    }
    assert commands[..|commands|] == commands;
  }

  // ----- the SQL check -----

  /** The EXISTS subquery for one row: array containment, equal type, position in (after, hwm]. */
  predicate RowHit(row: ConditionRow, log: seq<SequencedEvent>, hwm: nat) {
    exists r <- log ::
      && Unpack(row.packedTags) <= r.event.tags
      && r.event.eventType == row.eventType
      && row.after < r.position <= hwm
  }

  /** The least command index of a row that is hit (ORDER BY cmd_idx LIMIT 1). */
  function CheckConditions(rows: seq<ConditionRow>, log: seq<SequencedEvent>, hwm: nat): (failed: Option<nat>)
    ensures failed.Some? ==>
              && (exists row <- rows :: row.index == failed.value && RowHit(row, log, hwm))
              && (forall row <- rows :: RowHit(row, log, hwm) ==> failed.value <= row.index)
    ensures failed.None? ==> forall row <- rows :: !RowHit(row, log, hwm)
  {
    if rows == [] then None
    else
      var rest := CheckConditions(rows[1..], log, hwm);
      assert rows == [rows[0]] + rows[1..];
      if RowHit(rows[0], log, hwm) && (rest.None? || rows[0].index < rest.value) then Some(rows[0].index) else rest
  }

  /** What a path's check reports: the stored procedure treats a single row by itself. */
  function Verdict(path: Path, rows: seq<ConditionRow>, log: seq<SequencedEvent>, hwm: nat): Option<nat> {
    if rows == [] then None
    else if path.ViaFunction? && |rows| == 1 then
      if RowHit(rows[0], log, hwm) then Some(rows[0].index) else None
    else CheckConditions(rows, log, hwm)
  }

  /** The single-row shortcut changes nothing: both paths report alike on every input. */
  lemma PathsCheckAlike(rows: seq<ConditionRow>, log: seq<SequencedEvent>, hwm: nat)
    ensures Verdict(ViaFunction, rows, log, hwm) == Verdict(ViaCopy, rows, log, hwm)
  {
    if |rows| == 1 {
      assert rows[1..] == [];
    }
  }

  // ----- the check means what the in-memory loop means -----

  lemma {:induction false} TypeRow(types: seq<string>, packedTags: string, index: nat, after: nat, row: ConditionRow)
    ensures row in TypeRows(types, packedTags, index, after)
       <==> row.eventType in types && row == ConditionRow(index, row.eventType, packedTags, after)
  {
    if types != [] {
      var n := |types| - 1;
      TypeRow(types[..n], packedTags, index, after, row);
      assert types == types[..n] + [types[n]];
    }
  }

  ghost predicate RowOfItem(item: QueryItem, index: nat, after: nat, row: ConditionRow) {
    row.eventType in item.types && row == ConditionRow(index, row.eventType, Pack(item.tags), after)
  }

  lemma {:induction false} ItemRow(items: seq<QueryItem>, index: nat, after: nat, row: ConditionRow)
    ensures row in ItemRows(items, index, after) <==> exists item <- items :: RowOfItem(item, index, after, row)
  {
    if items != [] {
      var n := |items| - 1;
      ItemRow(items[..n], index, after, row);
      TypeRow(items[n].types, Pack(items[n].tags), index, after, row);
      assert items == items[..n] + [items[n]];
      assert RowOfItem(items[n], index, after, row) ==> items[n] in items;
      forall item | item in items && RowOfItem(item, index, after, row)
        ensures row in ItemRows(items, index, after)
      {
        assert item in items[..n] || item == items[n];
      }
    }
  }

  lemma RowsIndexed(command: AppendCommand, index: nat, row: ConditionRow)
    requires row in CommandRows(command, index)
    ensures row.index == index && command.condition.Some?
  {
    hide Pack;
    var condition := command.condition.value;
    ItemRow(ItemsOf(condition.failIfEventsMatch), index, AfterOrZero(condition.after), row);
  }

  lemma {:induction false} CommandRow(commands: seq<AppendCommand>, row: ConditionRow)
    ensures row in ConditionRows(commands)
       <==> row.index < |commands| && row in CommandRows(commands[row.index], row.index)
  {
    hide CommandRows;
    if commands != [] {
      var n := |commands| - 1;
      CommandRow(commands[..n], row);
      if row in CommandRows(commands[n], n) {
        RowsIndexed(commands[n], n, row);
      }
      if row.index < n {
        assert commands[..n][row.index] == commands[row.index];
      }
    }
  }

  /** The log as a check capped at `hwm` sees it. */
  function UpTo(log: seq<SequencedEvent>, hwm: nat): seq<SequencedEvent> {
    Select(log, Filter(Superset, All, false, None, Some(hwm)))
  }

  lemma RowUpTo(log: seq<SequencedEvent>, hwm: nat, r: SequencedEvent)
    ensures r in UpTo(log, hwm) <==> r in log && r.position <= hwm
  {
    SelectedRow(log, Filter(Superset, All, false, None, Some(hwm)), r);
  }

  /** Some item for the type asks for no tag but these. */
  predicate AskedWithin(items: seq<QueryItem>, eventType: string, tags: set<string>) {
    exists item <- items :: eventType in item.types && item.tags <= tags
  }

  /** Some item for the type has, once split at the delimiters, no tag but these. */
  predicate SplitWithin(items: seq<QueryItem>, eventType: string, tags: set<string>) {
    exists item <- items :: eventType in item.types && SplitTags(item.tags) <= tags
  }

  predicate NoEmptyTag(command: AppendCommand) {
    forall item <- ConditionItems(command) :: "" !in item.tags
  }

  /** Whatever an item for a type asks for, split or not, some item for the type asks for within it, not
      split or split. */
  predicate KeepsMeaning(command: AppendCommand) {
    var items := ConditionItems(command);
    forall item <- items, t <- item.types ::
      AskedWithin(items, t, SplitTags(item.tags)) && SplitWithin(items, t, item.tags)
  }

  predicate FaithfulConditions(commands: seq<AppendCommand>) {
    forall c <- commands :: NoEmptyTag(c) && KeepsMeaning(c)
  }

  /** The row is in the window that a check capped at `hwm` looks at. */
  predicate InWindow(command: AppendCommand, hwm: nat, r: SequencedEvent) {
    command.condition.Some? && AfterOrZero(command.condition.value.after) < r.position <= hwm
  }

  /** A command has a row that is hit exactly when some event in the window has all split tags of an item. */
  lemma HitIffSplit(command: AppendCommand, index: nat, log: seq<SequencedEvent>, hwm: nat)
    requires NoEmptyTag(command)
    ensures (exists row <- CommandRows(command, index) :: RowHit(row, log, hwm))
       <==> exists r <- log :: InWindow(command, hwm, r)
              && SplitWithin(ConditionItems(command), r.event.eventType, r.event.tags)
  {
    hide Pack, Unpack, SplitTags;
    if command.condition.Some? {
      var items, after := ConditionItems(command), AfterOrZero(command.condition.value.after);
      if row :| row in CommandRows(command, index) && RowHit(row, log, hwm) {
        ItemRow(items, index, after, row);
        var item :| item in items && RowOfItem(item, index, after, row);
        UnpackIsSplit(item.tags);
        var r :| r in log && Unpack(row.packedTags) <= r.event.tags && r.event.eventType == row.eventType
              && row.after < r.position <= hwm;
        assert SplitWithin(items, r.event.eventType, r.event.tags);
      }
      if r :| r in log && InWindow(command, hwm, r) && SplitWithin(items, r.event.eventType, r.event.tags) {
        var item :| item in items && r.event.eventType in item.types && SplitTags(item.tags) <= r.event.tags;
        UnpackIsSplit(item.tags);
        var row := ConditionRow(index, r.event.eventType, Pack(item.tags), after);
        assert RowOfItem(item, index, after, row);
        ItemRow(items, index, after, row);
        assert RowHit(row, log, hwm);
      }
    }
  }

  lemma ViolatesIffAsked(command: AppendCommand, log: seq<SequencedEvent>, hwm: nat)
    requires command.condition.Some? ==> ValidCondition(command.condition.value)
    requires forall r <- log :: r.position >= 1
    ensures Violates(command, UpTo(log, hwm))
       <==> exists r <- log :: InWindow(command, hwm, r)
              && AskedWithin(ConditionItems(command), r.event.eventType, r.event.tags)
  {
    if command.condition.Some? {
      var condition := command.condition.value;
      forall r | r in log ensures r in UpTo(log, hwm) && Offends(condition, r) <==>
          InWindow(command, hwm, r) && AskedWithin(ConditionItems(command), r.event.eventType, r.event.tags)
      {
        RowUpTo(log, hwm, r);
        MatchesIffAsked(condition.failIfEventsMatch.items, r.event);
      }
      forall r | r in UpTo(log, hwm) ensures r in log {
        RowUpTo(log, hwm, r);
      }
    }
  }

  lemma MatchesIffAsked(items: seq<QueryItem>, e: Event)
    ensures MatchesQuery(Items(items), e) <==> AskedWithin(items, e.eventType, e.tags)
  {
    if MatchesQuery(Items(items), e) {
      var item :| item in items && MatchesItem(item, e);
    }
    if item :| item in items && e.eventType in item.types && item.tags <= e.tags {
      assert MatchesItem(item, e);
    }
  }

  lemma KeptAt(command: AppendCommand, item: QueryItem, t: string)
    requires KeepsMeaning(command) && item in ConditionItems(command) && t in item.types
    ensures AskedWithin(ConditionItems(command), t, SplitTags(item.tags))
    ensures SplitWithin(ConditionItems(command), t, item.tags)
  {
    hide AskedWithin, SplitWithin;
  }

  lemma AskedIffSplit(command: AppendCommand, eventType: string, tags: set<string>)
    requires KeepsMeaning(command)
    ensures AskedWithin(ConditionItems(command), eventType, tags)
       <==> SplitWithin(ConditionItems(command), eventType, tags)
  {
    hide SplitTags, KeepsMeaning;
    var items := ConditionItems(command);
    if item :| item in items && eventType in item.types && item.tags <= tags {
      KeptAt(command, item, eventType);
      var other :| other in items && eventType in other.types && SplitTags(other.tags) <= item.tags;
      assert SplitTags(other.tags) <= tags;
    }
    if item :| item in items && eventType in item.types && SplitTags(item.tags) <= tags {
      KeptAt(command, item, eventType);
      var other :| other in items && eventType in other.types && other.tags <= SplitTags(item.tags);
      assert other.tags <= tags;
    }
  }

  lemma ViolatesIffRowHit(command: AppendCommand, index: nat, log: seq<SequencedEvent>, hwm: nat)
    requires command.condition.Some? ==> ValidCondition(command.condition.value)
    requires NoEmptyTag(command) && KeepsMeaning(command)
    requires forall r <- log :: r.position >= 1
    ensures Violates(command, UpTo(log, hwm))
       <==> exists row <- CommandRows(command, index) :: RowHit(row, log, hwm)
  {
    hide Violates, CommandRows, RowHit, KeepsMeaning, AskedWithin, SplitWithin, InWindow;
    HitIffSplit(command, index, log, hwm);
    ViolatesIffAsked(command, log, hwm);
    forall r | r in log
      ensures AskedWithin(ConditionItems(command), r.event.eventType, r.event.tags)
         <==> SplitWithin(ConditionItems(command), r.event.eventType, r.event.tags)
    {
      AskedIffSplit(command, r.event.eventType, r.event.tags);
    }
  }

  /** The flattened rows, checked on either path, report exactly the first command that the in-memory
      loop would reject on the log up to the mark, where packing keeps the meaning of every condition. */
  lemma TranslationPreservesMeaning(path: Path, commands: seq<AppendCommand>, log: seq<SequencedEvent>, hwm: nat)
    requires FaithfulConditions(commands) && ValidConditions(commands)
    requires forall r <- log :: r.position >= 1
    ensures Verdict(path, ConditionRows(commands), log, hwm) == FirstViolation(commands, UpTo(log, hwm))
  {
    hide KeepsMeaning, NoEmptyTag, ValidCondition, CommandRows, RowHit, Violates, UpTo, ConditionRows;
    var rows := ConditionRows(commands);
    PathsCheckAlike(rows, log, hwm);
    var failed, first := CheckConditions(rows, log, hwm), FirstViolation(commands, UpTo(log, hwm));
    forall row | row in rows && RowHit(row, log, hwm)
      ensures row.index < |commands| && Violates(commands[row.index], UpTo(log, hwm))
    {
      CommandRow(commands, row);
      ViolatesIffRowHit(commands[row.index], row.index, log, hwm);
    }
    if first.Some? {
      ViolatesIffRowHit(commands[first.value], first.value, log, hwm);
      var row :| row in CommandRows(commands[first.value], first.value) && RowHit(row, log, hwm);
      RowsIndexed(commands[first.value], first.value, row);
      CommandRow(commands, row);
    }
  }

  /** The exact conditions that keep their meaning: an append of one command is checked, on this path,
      against every log as the in-memory loop would check it, exactly when its condition is one of them. */
  lemma TranslatesExactly(path: Path, command: AppendCommand)
    requires command.condition.Some? ==> ValidCondition(command.condition.value)
    requires NoEmptyTag(command)
    ensures KeepsMeaning(command) <==>
              forall log: seq<SequencedEvent>, hwm: nat :: (forall r <- log :: r.position >= 1) ==>
                Verdict(path, ConditionRows([command]), log, hwm) == FirstViolation([command], UpTo(log, hwm))
  {
    hide Verdict, ConditionRows, FirstViolation, UpTo, SplitTags, ValidCondition;
    if KeepsMeaning(command) {
      forall log: seq<SequencedEvent>, hwm: nat | forall r <- log :: r.position >= 1
        ensures Verdict(path, ConditionRows([command]), log, hwm) == FirstViolation([command], UpTo(log, hwm))
      {
        TranslationPreservesMeaning(path, [command], log, hwm);
      }
    } else {
      var items := ConditionItems(command);
      var item, t :| item in items && t in item.types
                  && !(AskedWithin(items, t, SplitTags(item.tags)) && SplitWithin(items, t, item.tags));
      var tags := if AskedWithin(items, t, SplitTags(item.tags)) then item.tags else SplitTags(item.tags);
      var p := AfterOrZero(command.condition.value.after) + 1;
      assert AskedWithin(items, t, item.tags) && SplitWithin(items, t, SplitTags(item.tags));
      OnOneEvent(path, command, Event(t, tags, ""));
      assert forall r <- [SequencedEvent(Event(t, tags, ""), p)] :: r.position >= 1;
    }
  }

  /** On a log of one event, in the window, the loop asks for the tags and the check for the split tags. */
  lemma OnOneEvent(path: Path, command: AppendCommand, e: Event)
    requires command.condition.Some? && ValidCondition(command.condition.value) && NoEmptyTag(command)
    ensures var p, items := AfterOrZero(command.condition.value.after) + 1, ConditionItems(command);
            && FirstViolation([command], UpTo([SequencedEvent(e, p)], p))
            == (if AskedWithin(items, e.eventType, e.tags) then Some(0) else None)
            && Verdict(path, ConditionRows([command]), [SequencedEvent(e, p)], p)
            == (if SplitWithin(items, e.eventType, e.tags) then Some(0) else None)
  {
    hide AskedWithin, SplitWithin, UpTo, CommandRows, RowHit, Violates, ConditionItems, ConditionRows, NoEmptyTag;
    hide ValidCondition;
    var p := AfterOrZero(command.condition.value.after) + 1;
    var r := SequencedEvent(e, p);
    var rows := ConditionRows([command]);
    assert forall s <- [r] :: s == r;
    assert r in [r] && InWindow(command, p, r);
    HitIffSplit(command, 0, [r], p);
    ViolatesIffAsked(command, [r], p);
    PathsCheckAlike(rows, [r], p);
    forall row
      ensures row in rows <==> row in CommandRows(command, 0)
      ensures row in rows ==> row.index == 0
    {
      CommandRow([command], row);
      if row in CommandRows(command, 0) {
        RowsIndexed(command, 0, row);
      }
    }
  }

  /** A condition of one item keeps its meaning exactly when none of the item's tags has the delimiter. */
  lemma OneItemExactly(command: AppendCommand, item: QueryItem)
    requires ConditionItems(command) == [item] && item.types != [] && NoEmptyTag(command)
    ensures KeepsMeaning(command) <==> CleanTags(item.tags)
  {
    hide SplitTags, Pack, Unpack, CleanTags, KeepsMeaning;
    assert item in ConditionItems(command) && item.types[0] in item.types;
    PackRoundTrip(item.tags);
    UnpackIsSplit(item.tags);
    if KeepsMeaning(command) {
      KeptAt(command, item, item.types[0]);
    }
    if CleanTags(item.tags) {
      CleanKeepsMeaning(command);
    }
  }

  /** Conditions without the delimiter keep their meaning, however many items they have. */
  lemma CleanKeepsMeaning(command: AppendCommand)
    requires NoEmptyTag(command) && forall item <- ConditionItems(command) :: CleanTags(item.tags)
    ensures KeepsMeaning(command)
  {
    hide SplitTags, Pack, Unpack, CleanTags;
    var items := ConditionItems(command);
    forall item | item in items ensures SplitTags(item.tags) == item.tags {
      PackRoundTrip(item.tags);
      UnpackIsSplit(item.tags);
    }
    assert forall item <- items, t <- item.types :: AskedWithin(items, t, SplitTags(item.tags));
    assert forall item <- items, t <- item.types :: SplitWithin(items, t, item.tags);
  }

  /** A valid condition whose tag has the delimiter lets an event through that it asks about: COPY stores
      the event as it is, and the check, on either path, looks for the two halves of its tag. */
  lemma DelimitedConditionMisses(path: Path, events: seq<Event>)
    ensures var tags := {"a\U{1F}b"};
            var command := AppendCommand(events, Some(AppendCondition(Items([QueryItem(["A"], tags)]), None)));
            var log := [SequencedEvent(Stored(ViaCopy, Event("A", tags, "")), 1)];
            && TokenTags(tags) && ValidCondition(command.condition.value)
            && FirstViolation([command], UpTo(log, 1)) == Some(0)
            && Verdict(path, ConditionRows([command]), log, 1) == None
  {
    hide Pack, Unpack, SplitTags, Verdict, ConditionRows, UpTo, Parts, FirstViolation;
    var tags := {"a\U{1F}b"};
    var item := QueryItem(["A"], tags);
    var command := AppendCommand(events, Some(AppendCondition(Items([item]), None)));
    var e := Event("A", tags, "");
    StoredUnchanged(ViaCopy, e);
    assert item in ConditionItems(command) && "A" in item.types;
    DelimiterIsValidButLost();
    UnpackIsSplit(tags);
    assert !(SplitTags(tags) <= tags) by { HalvesSplit(); }
    OnOneEvent(path, command, e);
  }

  lemma HalvesSplit()
    ensures "a" in Parts("a\U{1F}b")
    ensures "a" in SplitTags({"a\U{1F}b"})
  {
    PartsOfFree("a");
    PartsConcat("a", "b");
    assert "a" + [TAG_DELIMITER] + "b" == "a\U{1F}b";
    assert "a" in Parts("a\U{1F}b");
  }

  // ----- what each path stores -----

  /** The event as it reads back after being stored on a path. */
  function Stored(path: Path, e: Event): Event {
    match path
    case ViaFunction => e.(tags := Unpack(Pack(e.tags)))
    case ViaCopy => e.(tags := set v <- Values(e.tags))
  }

  /** COPY stores every event as it is; the stored procedure exactly the delimiter-free ones. */
  lemma StoredUnchanged(path: Path, e: Event)
    requires path.ViaFunction? ==> "" !in e.tags
    ensures Stored(path, e) == e <==> KeptBy(path, e)
  {
    match path {
      case ViaFunction => PackRoundTrip(e.tags);
      case ViaCopy => assert (set v <- Values(e.tags)) == e.tags;
    }
  }

  function StoredAll(path: Path, events: seq<Event>): (stored: seq<Event>)
    ensures |stored| == |events| && forall i :: 0 <= i < |events| ==> stored[i] == Stored(path, events[i])
  {
    seq(|events|, i requires 0 <= i < |events| => Stored(path, events[i]))
  }

  lemma AllStoredAsGiven(path: Path, commands: seq<AppendCommand>)
    requires StoredAsGiven(path, commands)
    ensures StoredAll(path, AllEvents(commands)) == AllEvents(commands)
  {
    var events := AllEvents(commands);
    forall i | 0 <= i < |events| ensures Stored(path, events[i]) == events[i] {
      EventOfCommand(commands, events[i]);
      assert KeptBy(path, events[i]);
      StoredUnchanged(path, events[i]);
    }
  }
}
