/** Advisory lock keys of appends and read barriers. The hash is arbitrary:
    whatever collides, conflicting work shares a key. */
module LockKeys {
  import opened EventStore
  import opened Packing
  import opened Serialize

  type Hash = string -> int

  function LeafString(eventType: string, tag: string): string {
    "L:" + eventType + "|" + tag
  }

  function LeafKey(h: Hash, eventType: string, tag: string): int {
    h(LeafString(eventType, tag))
  }

  function TypeIntentKey(h: Hash, eventType: string): int {
    h("T:" + eventType)
  }

  function GlobalIntentKey(h: Hash): int {
    h("G")
  }

  // ----- which keys -----

  function ItemLeafKeys(h: Hash, item: QueryItem): set<int> {
    set t <- item.types, tag <- item.tags :: LeafKey(h, t, tag)
  }

  function ItemsLeafKeys(h: Hash, items: seq<QueryItem>): set<int> {
    set item <- items, k <- ItemLeafKeys(h, item) :: k
  }

  function EventLeafKeys(h: Hash, e: Event): set<int> {
    set tag <- e.tags :: LeafKey(h, e.eventType, tag)
  }

  function WriterLeafKeys(h: Hash, events: seq<Event>, condition: Option<AppendCondition>): set<int> {
    (if condition.Some? then ItemsLeafKeys(h, ItemsOf(condition.value.failIfEventsMatch)) else {})
    + set e <- events, k <- EventLeafKeys(h, e) :: k
  }

  function WriterIntentKeys(h: Hash, events: seq<Event>): set<int> {
    (set e <- events :: TypeIntentKey(h, e.eventType)) + if events == [] then {} else {GlobalIntentKey(h)}
  }

  function ReaderLeafKeys(h: Hash, query: Query): set<int> {
    ItemsLeafKeys(h, ItemsOf(query))
  }

  function ReaderIntentKeys(h: Hash, query: Query): set<int> {
    if query.All? then {GlobalIntentKey(h)}
    else set item <- query.items, t <- item.types | item.tags == {} :: TypeIntentKey(h, t)
  }

  ghost predicate ListsExactly(keys: seq<int>, s: set<int>) {
    && (forall k :: k in keys <==> k in s)
    && (forall i, j :: 0 <= i < j < |keys| ==> keys[i] != keys[j])
  }

  method KeysOf(s: set<int>) returns (keys: seq<int>)
    ensures ListsExactly(keys, s)
  {
    keys := [];
    var remaining := s;
    while true
      invariant forall k :: k in s <==> k in keys || k in remaining
      invariant forall k <- keys :: k !in remaining
      invariant forall i, j :: 0 <= i < j < |keys| ==> keys[i] != keys[j]
      decreases remaining
    {
      if k :| k in remaining {
        keys := keys + [k];
        remaining := remaining - {k};
      } else {
        break;
      }
    }
  }

  method AddItemKeys(h: Hash, item: QueryItem, keys: set<int>) returns (more: set<int>)
    ensures more == keys + ItemLeafKeys(h, item)
  {
    more := keys;
    for i := 0 to |item.types|
      invariant more == keys + set t <- item.types[..i], tag <- item.tags :: LeafKey(h, t, tag)
    {
      var todo := item.tags;
      ghost var before := more;
      while todo != {}
        invariant todo <= item.tags
        invariant more == before + set tag <- item.tags - todo :: LeafKey(h, item.types[i], tag)
        decreases todo
      {
        var tag :| tag in todo;
        more := more + {LeafKey(h, item.types[i], tag)};
        todo := todo - {tag};
      }
      assert item.tags - todo == item.tags;
      assert item.types[..i + 1] == item.types[..i] + [item.types[i]];
    }
    assert item.types[..|item.types|] == item.types;
  }

  method ComputeWriterLockKeys(h: Hash, events: seq<Event>, condition: Option<AppendCondition>)
    returns (leafX: seq<int>, intentS: seq<int>)
    ensures ListsExactly(leafX, WriterLeafKeys(h, events, condition))
    ensures ListsExactly(intentS, WriterIntentKeys(h, events))
  {
    var leaf: set<int>, intent: set<int> := {}, {};
    if condition.Some? && !condition.value.failIfEventsMatch.All? {
      var items := condition.value.failIfEventsMatch.items;
      for i := 0 to |items|
        invariant leaf == ItemsLeafKeys(h, items[..i])
      {
        leaf := AddItemKeys(h, items[i], leaf);
        assert items[..i + 1] == items[..i] + [items[i]];
      }
      assert items[..|items|] == items;
    }
    ghost var conditionKeys := leaf;
    for i := 0 to |events|
      invariant leaf == conditionKeys + set e <- events[..i], k <- EventLeafKeys(h, e) :: k
      invariant intent == set e <- events[..i] :: TypeIntentKey(h, e.eventType)
    {
      var e := events[i];
      intent := intent + {TypeIntentKey(h, e.eventType)};
      leaf := AddItemKeys(h, QueryItem([e.eventType], e.tags), leaf);
      assert ItemLeafKeys(h, QueryItem([e.eventType], e.tags)) == EventLeafKeys(h, e);
      assert events[..i + 1] == events[..i] + [e];
    }
    assert events[..|events|] == events;
    if |events| > 0 {
      intent := intent + {GlobalIntentKey(h)};
    }
    leafX := KeysOf(leaf);
    intentS := KeysOf(intent);
  }

  method ComputeReaderLockKeys(h: Hash, query: Query) returns (leafS: seq<int>, intentX: seq<int>)
    ensures ListsExactly(leafS, ReaderLeafKeys(h, query))
    ensures ListsExactly(intentX, ReaderIntentKeys(h, query))
  {
    if query.All? {
      return [], [GlobalIntentKey(h)];
    }
    var leaf: set<int>, intent: set<int> := {}, {};
    for i := 0 to |query.items|
      invariant leaf == ItemsLeafKeys(h, query.items[..i])
      invariant intent == set item <- query.items[..i], t <- item.types | item.tags == {} :: TypeIntentKey(h, t)
    {
      var item := query.items[i];
      assert query.items[..i + 1] == query.items[..i] + [item];
      if |item.tags| > 0 {
        leaf := AddItemKeys(h, item, leaf);
        continue;
      }
      assert ItemLeafKeys(h, item) == {};
      ghost var before := intent;
      for j := 0 to |item.types|
        invariant intent == before + set t <- item.types[..j] :: TypeIntentKey(h, t)
      {
        intent := intent + {TypeIntentKey(h, item.types[j])};
        assert item.types[..j + 1] == item.types[..j] + [item.types[j]];
      }
      assert item.types[..|item.types|] == item.types;
    }
    assert query.items[..|query.items|] == query.items;
    leafS := KeysOf(leaf);
    intentX := KeysOf(intent);
  }

  // ----- locks -----

  datatype Mode = Shared | Exclusive

  datatype Lock = Lock(key: int, mode: Mode)

  predicate Conflict(a: Lock, b: Lock) {
    a.key == b.key && (a.mode.Exclusive? || b.mode.Exclusive?)
  }

  function Locks(exclusive: set<int>, shared: set<int>): set<Lock> {
    (set k <- exclusive :: Lock(k, Exclusive)) + (set k <- shared :: Lock(k, Shared))
  }

  /** An append's keys: the union over its commands. */
  function AppendLocks(h: Hash, commands: seq<AppendCommand>): set<Lock> {
    Locks(set c <- commands, k <- WriterLeafKeys(h, c.events, c.condition) :: k,
          set c <- commands, k <- WriterIntentKeys(h, c.events) :: k)
  }

  function BarrierLocks(h: Hash, query: Query): set<Lock> {
    Locks(ReaderIntentKeys(h, query), ReaderLeafKeys(h, query))
  }

  ghost predicate Clash(a: set<Lock>, b: set<Lock>) {
    exists x <- a, y <- b :: Conflict(x, y)
  }

  // ----- coverage, for every hash -----

  /** The command that brings an event makes the append hold the event's keys. */
  lemma EventLocks(h: Hash, commands: seq<AppendCommand>, e: Event)
    requires e in AllEvents(commands)
    ensures forall tag <- e.tags :: Lock(LeafKey(h, e.eventType, tag), Exclusive) in AppendLocks(h, commands)
    ensures Lock(TypeIntentKey(h, e.eventType), Shared) in AppendLocks(h, commands)
    ensures Lock(GlobalIntentKey(h), Shared) in AppendLocks(h, commands)
  {
    EventOfCommand(commands, e);
    var c :| c in commands && e in c.events;
    forall tag | tag in e.tags
      ensures Lock(LeafKey(h, e.eventType, tag), Exclusive) in AppendLocks(h, commands)
    {
      assert LeafKey(h, e.eventType, tag) in EventLeafKeys(h, e);
      assert LeafKey(h, e.eventType, tag) in WriterLeafKeys(h, c.events, c.condition);
    }
    assert TypeIntentKey(h, e.eventType) in WriterIntentKeys(h, c.events);
    assert GlobalIntentKey(h) in WriterIntentKeys(h, c.events);
  }

  /** An append whose condition an event matches clashes with every append that brings the event. */
  lemma ConditionCovered(h: Hash, commands: seq<AppendCommand>, i: nat, others: seq<AppendCommand>, e: Event)
    requires i < |commands| && commands[i].condition.Some? && ValidCondition(commands[i].condition.value)
    requires e in AllEvents(others) && MatchesQuery(commands[i].condition.value.failIfEventsMatch, e)
    ensures Clash(AppendLocks(h, commands), AppendLocks(h, others))
  {
    var c := commands[i];
    var items := c.condition.value.failIfEventsMatch.items;
    var item :| item in items && MatchesItem(item, e);
    var tag :| tag in item.tags;
    var key := LeafKey(h, e.eventType, tag);
    assert key in ItemLeafKeys(h, item);
    assert key in ItemsLeafKeys(h, items);
    assert key in WriterLeafKeys(h, c.events, c.condition);
    EventLocks(h, others, e);
    assert c in commands;
    assert Conflict(Lock(key, Exclusive), Lock(key, Exclusive));
  }

  /** A barrier clashes with every append that brings an event its query selects, even by tag overlap. */
  lemma QueryCovered(h: Hash, query: Query, others: seq<AppendCommand>, e: Event)
    requires WellFormedQuery(query) && e in AllEvents(others) && OverlapsQuery(query, e)
    ensures Clash(BarrierLocks(h, query), AppendLocks(h, others))
  {
    EventLocks(h, others, e);
    if query.All? {
      assert Conflict(Lock(GlobalIntentKey(h), Exclusive), Lock(GlobalIntentKey(h), Shared));
    } else {
      assert HasClause(query.items[0]) && query.items[0] in query.items;
      var item :| item in query.items && HasClause(item) && OverlapsItem(item, e);
      if item.tags == {} {
        var key := TypeIntentKey(h, e.eventType);
        assert key in ReaderIntentKeys(h, query);
        assert Conflict(Lock(key, Exclusive), Lock(key, Shared));
      } else {
        var tag :| tag in item.tags && tag in e.tags;
        var key := LeafKey(h, e.eventType, tag);
        assert key in ItemLeafKeys(h, item);
        assert key in ReaderLeafKeys(h, query);
        assert Conflict(Lock(key, Shared), Lock(key, Exclusive));
      }
    }
  }

  // ----- and no more than that, for a hash that tells strings apart -----

  ghost predicate TellsApart(h: Hash) {
    forall s, t :: h(s) == h(t) ==> s == t
  }

  /** An event of the append has the type and the tag, or one of its conditions asks for both. */
  ghost predicate InScope(commands: seq<AppendCommand>, eventType: string, tag: string) {
    || (exists c <- commands, e <- c.events :: e.eventType == eventType && tag in e.tags)
    || (exists c <- commands, item <- ConditionItems(c) :: eventType in item.types && tag in item.tags)
  }

  lemma StringInScope(commands: seq<AppendCommand>, s: string)
    ensures s in LeafStrings(commands)
       <==> exists t, tag :: InScope(commands, t, tag) && s == "L:" + t + "|" + tag
  {
    if s in LeafStrings(commands) {
      var c :| c in commands && s in CommandStrings(c);
      if e, tag :| e in c.events && tag in e.tags && s == LeafString(e.eventType, tag) {
        assert InScope(commands, e.eventType, tag);
      } else {
        var item, t, tag :| item in ConditionItems(c) && t in item.types && tag in item.tags && s == LeafString(t, tag);
        assert InScope(commands, t, tag);
      }
    }
    if t, tag :| InScope(commands, t, tag) && s == "L:" + t + "|" + tag {
      assert s == LeafString(t, tag);
      if c, e :| c in commands && e in c.events && e.eventType == t && tag in e.tags {
        assert s in CommandStrings(c);
      } else {
        var c, item :| c in commands && item in ConditionItems(c) && t in item.types && tag in item.tags;
        assert s in CommandStrings(c);
      }
    }
  }
  predicate IntentOf(h: Hash, e: Event, k: int) {
    k == TypeIntentKey(h, e.eventType) || k == GlobalIntentKey(h)
  }

  lemma SharedIffEvent(h: Hash, commands: seq<AppendCommand>, k: int)
    ensures Lock(k, Shared) in AppendLocks(h, commands)
       <==> exists c <- commands, e <- c.events :: IntentOf(h, e, k)
  {
    hide TypeIntentKey, GlobalIntentKey, WriterLeafKeys;
    if Lock(k, Shared) in AppendLocks(h, commands) {
      var c :| c in commands && k in WriterIntentKeys(h, c.events);
      if c.events != [] {
        if k == GlobalIntentKey(h) {
          assert c.events[0] in c.events && IntentOf(h, c.events[0], k);
        } else {
          var e :| e in c.events && k == TypeIntentKey(h, e.eventType);
          assert IntentOf(h, e, k);
        }
      }
    }
    if c, e :| c in commands && e in c.events && IntentOf(h, e, k) {
      assert k in WriterIntentKeys(h, c.events);
    }
  }

  lemma LeafIsNoIntent(h: Hash, t: string, tag: string, u: string)
    requires TellsApart(h)
    ensures LeafKey(h, t, tag) != TypeIntentKey(h, u) && LeafKey(h, t, tag) != GlobalIntentKey(h)
    ensures TypeIntentKey(h, u) != GlobalIntentKey(h)
  {
    assert LeafString(t, tag)[0] == 'L' && ("T:" + u)[0] == 'T' && "G"[0] == 'G';
  }

  ghost predicate SameLeaf(t: string, tag: string, u: string, other: string) {
    t + "|" + tag == u + "|" + other
  }

  lemma SameLeafSameKey(h: Hash, t: string, tag: string, u: string, other: string)
    requires TellsApart(h)
    ensures LeafKey(h, t, tag) == LeafKey(h, u, other) <==> SameLeaf(t, tag, u, other)
  {
    var a, b := t + "|" + tag, u + "|" + other;
    assert LeafString(t, tag) == "L:" + a && LeafString(u, other) == "L:" + b;
    assert ("L:" + a)[2..] == a && ("L:" + b)[2..] == b;
  }

  lemma ExclusiveIffInScope(h: Hash, commands: seq<AppendCommand>, k: int)
    ensures Lock(k, Exclusive) in AppendLocks(h, commands)
       <==> exists t, tag :: InScope(commands, t, tag) && k == LeafKey(h, t, tag)
  {
    hide InScope, LeafStrings, AppendLocks;
    ExclusiveIffString(h, commands, k);
    if Lock(k, Exclusive) in AppendLocks(h, commands) {
      var s :| s in LeafStrings(commands) && h(s) == k;
      StringInScope(commands, s);
    }
    if t, tag :| InScope(commands, t, tag) && k == LeafKey(h, t, tag) {
      StringInScope(commands, LeafString(t, tag));
    }
  }

  /** Appends in disjoint scopes do not wait for each other: two clash exactly when one (type, tag) pair, or
      two with the same leaf string, is in the scope of both. */
  lemma AppendsClashExactly(h: Hash, a: seq<AppendCommand>, b: seq<AppendCommand>)
    requires TellsApart(h)
    ensures Clash(AppendLocks(h, a), AppendLocks(h, b))
       <==> exists t, tag, u, other :: InScope(a, t, tag) && InScope(b, u, other) && SameLeaf(t, tag, u, other)
  {
    hide InScope, AppendLocks, LeafKey, TellsApart, SameLeaf, TypeIntentKey, GlobalIntentKey;
    if Clash(AppendLocks(h, a), AppendLocks(h, b)) {
      var x, y :| x in AppendLocks(h, a) && y in AppendLocks(h, b) && Conflict(x, y);
      ExclusiveIffInScope(h, a, x.key);
      ExclusiveIffInScope(h, b, y.key);
      if x.mode.Exclusive? && y.mode.Exclusive? {
        var t, tag :| InScope(a, t, tag) && x.key == LeafKey(h, t, tag);
        var u, other :| InScope(b, u, other) && y.key == LeafKey(h, u, other);
        SameLeafSameKey(h, t, tag, u, other);
      } else if x.mode.Exclusive? {
        SharedNotLeaf(h, a, b, x.key);
      } else {
        SharedNotLeaf(h, b, a, x.key);
      }
    }
    if t, tag, u, other :| InScope(a, t, tag) && InScope(b, u, other) && SameLeaf(t, tag, u, other) {
      SameLeafSameKey(h, t, tag, u, other);
      var k := LeafKey(h, t, tag);
      ExclusiveIffInScope(h, a, k);
      ExclusiveIffInScope(h, b, k);
      assert Conflict(Lock(k, Exclusive), Lock(k, Exclusive));
    }
  }

  lemma SharedNotLeaf(h: Hash, a: seq<AppendCommand>, b: seq<AppendCommand>, k: int)
    requires TellsApart(h)
    ensures !(Lock(k, Exclusive) in AppendLocks(h, a) && Lock(k, Shared) in AppendLocks(h, b))
  {
    hide InScope, AppendLocks, LeafKey, TellsApart, TypeIntentKey, GlobalIntentKey;
    if Lock(k, Exclusive) in AppendLocks(h, a) && Lock(k, Shared) in AppendLocks(h, b) {
      ExclusiveIffInScope(h, a, k);
      SharedIffEvent(h, b, k);
      var t, tag :| InScope(a, t, tag) && k == LeafKey(h, t, tag);
      var c, e :| c in b && e in c.events && IntentOf(h, e, k);
      LeafIsNoIntent(h, t, tag, e.eventType);
    }
  }

  /** What a barrier waits for: an append of anything, for the query for all events; else an append of an
      event of an untagged item's type, or one with a (type, tag) pair of the query in its scope. */
  ghost predicate WaitedFor(query: Query, commands: seq<AppendCommand>) {
    if query.All? then exists c <- commands :: c.events != []
    else
      || (exists item <- query.items, c <- commands, e <- c.events :: item.tags == {} && e.eventType in item.types)
      || (exists item <- query.items, t <- item.types, tag <- item.tags, u, other ::
            InScope(commands, u, other) && SameLeaf(t, tag, u, other))
  }

  /** A barrier clashes with no append but those. */
  lemma BarrierClashExactly(h: Hash, query: Query, commands: seq<AppendCommand>)
    requires TellsApart(h)
    ensures Clash(BarrierLocks(h, query), AppendLocks(h, commands)) <==> WaitedFor(query, commands)
  {
    hide InScope, AppendLocks, LeafKey, TellsApart, SameLeaf, TypeIntentKey, GlobalIntentKey;
    if Clash(BarrierLocks(h, query), AppendLocks(h, commands)) {
      var x, y :| x in BarrierLocks(h, query) && y in AppendLocks(h, commands) && Conflict(x, y);
      BarrierClashes(h, query, commands, x, y);
    }
    if WaitedFor(query, commands) {
      WaitedForClashes(h, query, commands);
    }
  }

  lemma BarrierClashes(h: Hash, query: Query, commands: seq<AppendCommand>, x: Lock, y: Lock)
    requires TellsApart(h)
    requires x in BarrierLocks(h, query) && y in AppendLocks(h, commands) && Conflict(x, y)
    ensures WaitedFor(query, commands)
  {
    hide InScope, AppendLocks, LeafKey, TellsApart, SameLeaf, TypeIntentKey, GlobalIntentKey;
    if x.mode.Shared? {
      ExclusiveIffInScope(h, commands, y.key);
      var item :| item in ItemsOf(query) && x.key in ItemLeafKeys(h, item);
      var t, tag := LeafOfItem(h, item, x.key);
      var u, other :| InScope(commands, u, other) && y.key == LeafKey(h, u, other);
      SameLeafSameKey(h, t, tag, u, other);
    } else {
      IntentSharedOnly(h, query, commands, y);
      SharedIffEvent(h, commands, y.key);
      var c, e :| c in commands && e in c.events && IntentOf(h, e, y.key);
      if !query.All? {
        var item, t :| item in query.items && item.tags == {} && t in item.types && x.key == TypeIntentKey(h, t);
        LeafIsNoIntent(h, "", "", t);
        SameTypeSameKey(h, t, e.eventType);
      }
    }
  }

  lemma IntentSharedOnly(h: Hash, query: Query, commands: seq<AppendCommand>, y: Lock)
    requires TellsApart(h) && y in AppendLocks(h, commands) && y.key in ReaderIntentKeys(h, query)
    ensures y.mode.Shared?
  {
    hide InScope, AppendLocks, LeafKey, TellsApart, TypeIntentKey, GlobalIntentKey;
    if y.mode.Exclusive? {
      ExclusiveIffInScope(h, commands, y.key);
      var t, tag :| InScope(commands, t, tag) && y.key == LeafKey(h, t, tag);
      if u :| y.key == TypeIntentKey(h, u) {
        LeafIsNoIntent(h, t, tag, u);
      } else {
        LeafIsNoIntent(h, t, tag, "");
      }
    }
  }

  lemma SameTypeSameKey(h: Hash, t: string, u: string)
    requires TellsApart(h)
    ensures TypeIntentKey(h, t) == TypeIntentKey(h, u) <==> t == u
  {
    assert ("T:" + t)[2..] == t && ("T:" + u)[2..] == u;
  }

  lemma WaitedForClashes(h: Hash, query: Query, commands: seq<AppendCommand>)
    requires TellsApart(h) && WaitedFor(query, commands)
    ensures Clash(BarrierLocks(h, query), AppendLocks(h, commands))
  {
    hide InScope, AppendLocks, LeafKey, TellsApart, SameLeaf, TypeIntentKey, GlobalIntentKey;
    if query.All? {
      var c :| c in commands && c.events != [];
      var e := c.events[0];
      assert e in c.events;
      SharedIffEvent(h, commands, GlobalIntentKey(h));
      assert IntentOf(h, e, GlobalIntentKey(h));
      assert Lock(GlobalIntentKey(h), Exclusive) in BarrierLocks(h, query);
      assert Conflict(Lock(GlobalIntentKey(h), Exclusive), Lock(GlobalIntentKey(h), Shared));
    } else if item, c, e :|
        item in query.items && c in commands && e in c.events && item.tags == {} && e.eventType in item.types {
      var k := TypeIntentKey(h, e.eventType);
      SharedIffEvent(h, commands, k);
      assert IntentOf(h, e, k);
      assert k in ReaderIntentKeys(h, query);
      assert Lock(k, Exclusive) in BarrierLocks(h, query);
      assert Conflict(Lock(k, Exclusive), Lock(k, Shared));
    } else {
      var item, t, tag, u, other :| item in query.items && t in item.types && tag in item.tags
                                 && InScope(commands, u, other) && SameLeaf(t, tag, u, other);
      var k := LeafKey(h, t, tag);
      SameLeafSameKey(h, t, tag, u, other);
      ExclusiveIffInScope(h, commands, k);
      assert k in ItemLeafKeys(h, item);
      assert k in ReaderLeafKeys(h, query);
      assert Conflict(Lock(k, Shared), Lock(k, Exclusive));
    }
  }

  // ----- where coverage ends: tags that packing changes -----

  /** The leaf strings of one command. */
  function CommandStrings(c: AppendCommand): set<string> {
    (set e <- c.events, tag <- e.tags :: LeafString(e.eventType, tag))
    + set item <- ConditionItems(c), t <- item.types, tag <- item.tags :: LeafString(t, tag)
  }

  /** The strings whose hashes are an append's leaf keys. */
  function LeafStrings(commands: seq<AppendCommand>): set<string> {
    set c <- commands, s <- CommandStrings(c) :: s
  }

  /** Whatever the hash, every barrier whose query selects the event, as the stored procedure stores it,
      clashes with the append that brings it. */
  ghost predicate StoredCovered(commands: seq<AppendCommand>, e: Event) {
    forall h: Hash, query ::
      WellFormedQuery(query) && TokenItems(ItemsOf(query)) && OverlapsQuery(query, Stored(ViaFunction, e)) ==>
        Clash(BarrierLocks(h, query), AppendLocks(h, commands))
  }

  /** The strings that the parts of the event's tags make are among those of the append. */
  predicate PartsLocked(commands: seq<AppendCommand>, e: Event) {
    forall part <- SplitTags(e.tags) :: part == "" || LeafString(e.eventType, part) in LeafStrings(commands)
  }

  lemma LeafOfItem(h: Hash, item: QueryItem, k: int) returns (t: string, tag: string)
    requires k in ItemLeafKeys(h, item)
    ensures t in item.types && tag in item.tags && k == LeafKey(h, t, tag)
  {
    hide LeafKey;
    t, tag :| t in item.types && tag in item.tags && k == LeafKey(h, t, tag);
  }

  lemma LeafKeyHasString(h: Hash, c: AppendCommand, k: int) returns (s: string)
    requires k in WriterLeafKeys(h, c.events, c.condition)
    ensures s in CommandStrings(c) && h(s) == k
  {
    hide LeafString;
    if e :| e in c.events && k in EventLeafKeys(h, e) {
      var tag :| tag in e.tags && k == LeafKey(h, e.eventType, tag);
      s := LeafString(e.eventType, tag);
    } else {
      var item :| item in ConditionItems(c) && k in ItemLeafKeys(h, item);
      var t, tag := LeafOfItem(h, item, k);
      s := LeafString(t, tag);
    }
  }

  lemma StringHasLeafKey(h: Hash, c: AppendCommand, s: string)
    requires s in CommandStrings(c)
    ensures h(s) in WriterLeafKeys(h, c.events, c.condition)
  {
    hide LeafString;
    if e, tag :| e in c.events && tag in e.tags && s == LeafString(e.eventType, tag) {
      assert LeafKey(h, e.eventType, tag) in EventLeafKeys(h, e);
    } else {
      var item, t, tag :| item in ConditionItems(c) && t in item.types && tag in item.tags && s == LeafString(t, tag);
      assert LeafKey(h, t, tag) in ItemLeafKeys(h, item);
      assert LeafKey(h, t, tag) in ItemsLeafKeys(h, ConditionItems(c));
    }
  }

  lemma ExclusiveIffString(h: Hash, commands: seq<AppendCommand>, k: int)
    ensures Lock(k, Exclusive) in AppendLocks(h, commands) <==> exists s <- LeafStrings(commands) :: h(s) == k
  {
    hide CommandStrings, WriterLeafKeys, WriterIntentKeys;
    if Lock(k, Exclusive) in AppendLocks(h, commands) {
      var c :| c in commands && k in WriterLeafKeys(h, c.events, c.condition);
      var s := LeafKeyHasString(h, c, k);
      assert s in LeafStrings(commands);
    }
    if s :| s in LeafStrings(commands) && h(s) == k {
      var c :| c in commands && s in CommandStrings(c);
      StringHasLeafKey(h, c, s);
      assert k in WriterLeafKeys(h, c.events, c.condition);
    }
  }

  lemma StringsCover(h: Hash, query: Query, commands: seq<AppendCommand>, e: Event)
    requires e in AllEvents(commands) && "" !in e.tags && PartsLocked(commands, e)
    requires WellFormedQuery(query) && TokenItems(ItemsOf(query)) && OverlapsQuery(query, Stored(ViaFunction, e))
    ensures Clash(BarrierLocks(h, query), AppendLocks(h, commands))
  {
    hide AppendLocks, LeafStrings, SplitTags, Pack, Unpack;
    EventLocks(h, commands, e);
    UnpackIsSplit(e.tags);
    if query.All? {
      assert Conflict(Lock(GlobalIntentKey(h), Exclusive), Lock(GlobalIntentKey(h), Shared));
    } else {
      assert HasClause(query.items[0]) && query.items[0] in query.items;
      var item :| item in query.items && HasClause(item) && OverlapsItem(item, Stored(ViaFunction, e));
      if item.tags == {} {
        var key := TypeIntentKey(h, e.eventType);
        assert key in ReaderIntentKeys(h, query);
        assert Conflict(Lock(key, Exclusive), Lock(key, Shared));
      } else {
        var tag :| tag in item.tags && tag in SplitTags(e.tags);
        var key := LeafKey(h, e.eventType, tag);
        assert key in ItemLeafKeys(h, item);
        assert key in ReaderLeafKeys(h, query);
        ExclusiveIffString(h, commands, key);
        assert Conflict(Lock(key, Shared), Lock(key, Exclusive));
      }
    }
  }

  /** A hash that tells one string from all others. */
  function Telling(s: string): Hash {
    x => if x == s then 1 else 0
  }

  lemma LostPartUncovered(commands: seq<AppendCommand>, e: Event, part: string)
    requires TokenTags(e.tags) && part in SplitTags(e.tags) && part != ""
    requires LeafString(e.eventType, part) !in LeafStrings(commands)
    ensures !StoredCovered(commands, e)
  {
    hide AppendLocks, LeafStrings, SplitTags, Pack, Unpack;
    var h := Telling(LeafString(e.eventType, part));
    var item := QueryItem([e.eventType], {part});
    var query := Items([item]);
    UnpackIsSplit(e.tags);
    PartsOfTokens(e.tags, part);
    assert HasClause(item) && OverlapsItem(item, Stored(ViaFunction, e));
    forall x, y | x in BarrierLocks(h, query) && y in AppendLocks(h, commands) ensures !Conflict(x, y) {
      assert x == Lock(1, Shared);
      if y.mode.Exclusive? {
        ExclusiveIffString(h, commands, y.key);
      }
    }
    assert !Clash(BarrierLocks(h, query), AppendLocks(h, commands));
  }

  /** An event, as the stored procedure stores it, is covered by the append that brings it, for every hash
      and query, exactly when every part of its tags makes a leaf string that the append locks. */
  lemma StoredCoveredExactly(commands: seq<AppendCommand>, e: Event)
    requires e in AllEvents(commands) && TokenTags(e.tags)
    ensures StoredCovered(commands, e) <==> PartsLocked(commands, e)
  {
    hide PartsLocked, LeafStrings, SplitTags, AppendLocks, BarrierLocks, OverlapsQuery, WellFormedQuery;
    if PartsLocked(commands, e) {
      forall h: Hash, query
        | WellFormedQuery(query) && TokenItems(ItemsOf(query)) && OverlapsQuery(query, Stored(ViaFunction, e))
        ensures Clash(BarrierLocks(h, query), AppendLocks(h, commands))
      {
        StringsCover(h, query, commands, e);
      }
    } else {
      var part := PartUnlocked(commands, e);
      LostPartUncovered(commands, e, part);
    }
  }

  lemma PartUnlocked(commands: seq<AppendCommand>, e: Event) returns (part: string)
    requires !PartsLocked(commands, e)
    ensures part in SplitTags(e.tags) && part != "" && LeafString(e.eventType, part) !in LeafStrings(commands)
  {
    hide LeafStrings, SplitTags, LeafString;
    part :| part in SplitTags(e.tags) && part != "" && LeafString(e.eventType, part) !in LeafStrings(commands);
  }

  /** Brought alone, it is covered exactly when every part of every tag is itself a tag, or empty. */
  lemma StoredAloneCoveredExactly(e: Event)
    requires TokenTags(e.tags)
    ensures StoredCovered([AppendCommand([e], None)], e)
       <==> forall tag <- e.tags, part <- Parts(tag) :: part == "" || part in e.tags
  {
    hide StoredCovered, Parts;
    var commands := [AppendCommand([e], None)];
    AllEventsOfOne(e);
    StoredCoveredExactly(commands, e);
    forall part: string ensures LeafString(e.eventType, part) in LeafStrings(commands) <==> part in e.tags {
      LeafStringOfOne(e, part);
    }
  }

  lemma AllEventsOfOne(e: Event)
    ensures AllEvents([AppendCommand([e], None)]) == [e]
  {
    assert [AppendCommand([e], None)][..0] == [];
  }

  lemma LeafStringOfOne(e: Event, part: string)
    ensures LeafString(e.eventType, part) in LeafStrings([AppendCommand([e], None)]) <==> part in e.tags
  {
    var command := AppendCommand([e], None);
    var prefix := "L:" + e.eventType + "|";
    assert e in command.events && command in [command];
    assert LeafStrings([command]) == CommandStrings(command);
    forall tag | tag in e.tags && LeafString(e.eventType, tag) == LeafString(e.eventType, part)
      ensures tag == part
    {
      assert (prefix + tag)[|prefix|..] == tag && (prefix + part)[|prefix|..] == part;
    }
  }

  /** A tag with the delimiter inside is stored as its halves, which the append has not locked. */
  lemma DelimitedTagUncovered(eventType: string, payload: string)
    ensures var e := Event(eventType, {"a\U{1F}b"}, payload);
            TokenTags(e.tags) && !StoredCovered([AppendCommand([e], None)], e)
  {
    hide StoredCovered;
    var tag := "a\U{1F}b";
    var e := Event(eventType, {tag}, payload);
    DelimiterIsValidButLost();
    StoredAloneCoveredExactly(e);
    HalvesSplit();
    assert tag in e.tags && "a" in Parts(tag) && "a" != "" && |"a"| != |tag|;
    assert "a" !in e.tags;
  }

  // ----- the order locks are taken in -----

  /** ORDER BY k over both modes: each lock once, keys never descending, ties in any order. */
  ghost predicate KeyOrdered(plan: seq<Lock>, locks: set<Lock>) {
    && (forall l :: l in plan <==> l in locks)
    && (forall i, j :: 0 <= i < j < |plan| ==> plan[i].key <= plan[j].key && plan[i] != plan[j])
  }

  lemma LeastLock(locks: set<Lock>) returns (least: Lock)
    requires locks != {}
    ensures least in locks && forall l <- locks :: least.key <= l.key
  {
    least :| least in locks;
    var rest := locks - {least};
    if rest != {} {
      var other := LeastLock(rest);
      if other.key < least.key {
        least := other;
      }
    }
  }

  lemma {:induction false} PlanExists(locks: set<Lock>) returns (plan: seq<Lock>)
    ensures KeyOrdered(plan, locks)
    decreases locks
  {
    if locks == {} {
      plan := [];
    } else {
      var least := LeastLock(locks);
      var rest := PlanExists(locks - {least});
      plan := [least] + rest;
      assert forall l <- rest :: l in locks - {least};
    }
  }
}
