/**
 The plugin group builder of voker-app (`plugin.rs`): a list of plugin types kept beside a map of
 entries. The builder edits the list by inserting first and removing an older occurrence second; the
 reference below removes first and inserts second, and the properties are proved of the reference.
 */
module PluginGroups {

  type TypeId = nat

  datatype Entry = Entry(plugin: nat, enabled: bool)

  datatype Option<T> = None | Some(value: T)

  datatype Group = Group(order: seq<TypeId>, plugins: map<TypeId, Entry>)

  // ---------------------------------------------------------------------------------------------
  // Sequences without repetition

  predicate Distinct(s: seq<TypeId>) {
    forall i, j :: 0 <= i < j < |s| ==> s[i] != s[j]
  }

  /** `s` without the types in `d`. */
  function Drop(s: seq<TypeId>, d: set<TypeId>): seq<TypeId> {
    if s == [] then []
    else
      var n := |s| - 1;
      Drop(s[..n], d) + (if s[n] in d then [] else [s[n]])
  }

  lemma {:induction false} DropMember(s: seq<TypeId>, d: set<TypeId>, x: TypeId)
    ensures x in Drop(s, d) <==> x in s && x !in d
  {
    if s != [] {
      var n := |s| - 1;
      DropMember(s[..n], d, x);
      assert s == s[..n] + [s[n]];
    }
  }

  lemma DropMembers(s: seq<TypeId>, d: set<TypeId>)
    ensures forall x :: x in Drop(s, d) <==> x in s && x !in d
  {
    forall x ensures x in Drop(s, d) <==> x in s && x !in d {
      DropMember(s, d, x);
    }
  }

  function InsertAt(s: seq<TypeId>, i: nat, x: TypeId): seq<TypeId>
    requires i <= |s|
  {
    s[..i] + [x] + s[i..]
  }

  function RemoveAt(s: seq<TypeId>, i: nat): seq<TypeId>
    requires i < |s|
  {
    s[..i] + s[i + 1..]
  }

  /** Where `x` stands first. */
  function Pos(s: seq<TypeId>, x: TypeId): (i: nat)
    requires x in s
    ensures i < |s| && s[i] == x && x !in s[..i]
  {
    if s[0] == x then 0
    else
      assert s == [s[0]] + s[1..];
      1 + Pos(s[1..], x)
  }

  lemma PosIs(s: seq<TypeId>, i: nat)
    requires Distinct(s) && i < |s|
    ensures Pos(s, s[i]) == i
  {
    hide Drop, Pos;
  }

  lemma {:induction false} DropAppend(a: seq<TypeId>, b: seq<TypeId>, d: set<TypeId>)
    ensures Drop(a + b, d) == Drop(a, d) + Drop(b, d)
  {
    hide Drop;
    if b == [] {
      DropNone(b, d);
      assert a + b == a;
    } else {
      var n := |b| - 1;
      DropAppend(a, b[..n], d);
      DropLast(a + b, d);
      DropLast(b, d);
      assert (a + b)[..|a| + n] == a + b[..n];
    }
  }

  lemma DropLast(s: seq<TypeId>, d: set<TypeId>)
    requires s != []
    ensures Drop(s, d) == Drop(s[..|s| - 1], d) + (if s[|s| - 1] in d then [] else [s[|s| - 1]])
  {
  }

  lemma DropOne(x: TypeId, d: set<TypeId>)
    ensures Drop([x], d) == if x in d then [] else [x]
  {
    assert [x][..0] == [];
  }

  lemma {:induction false} DropNone(s: seq<TypeId>, d: set<TypeId>)
    requires forall x :: x in s ==> x !in d
    ensures Drop(s, d) == s
  {
    if s != [] {
      DropNone(s[..|s| - 1], d);
    }
  }

  lemma {:induction false} DropDistinct(s: seq<TypeId>, d: set<TypeId>)
    requires Distinct(s)
    ensures Distinct(Drop(s, d))
  {
    if s != [] {
      DropDistinct(s[..|s| - 1], d);
      DropMembers(s[..|s| - 1], d);
    }
  }

  lemma {:induction false} DropTwice(s: seq<TypeId>, d: set<TypeId>, e: set<TypeId>)
    ensures Drop(Drop(s, d), e) == Drop(s, d + e)
  {
    if s != [] {
      var n := |s| - 1;
      DropTwice(s[..n], d, e);
      DropAppend(Drop(s[..n], d), if s[n] in d then [] else [s[n]], e);
      DropOne(s[n], e);
    }
  }

  lemma DistinctAppend(a: seq<TypeId>, b: seq<TypeId>)
    requires Distinct(a) && Distinct(b) && forall x :: x in a ==> x !in b
    ensures Distinct(a + b)
  {
    forall i, j | 0 <= i < j < |a + b| ensures (a + b)[i] != (a + b)[j] {
      if i < |a| <= j {
        assert a[i] in a;
      }
    }
  }

  lemma DropInserted(s: seq<TypeId>, i: nat, x: TypeId, d: set<TypeId>)
    requires i <= |s| && x in d
    ensures Drop(InsertAt(s, i, x), d) == Drop(s, d)
  {
    hide Drop, Pos;
    DropAppend(s[..i] + [x], s[i..], d);
    DropAppend(s[..i], [x], d);
    DropAppend(s[..i], s[i..], d);
    DropOne(x, d);
    assert s[..i] + s[i..] == s;
  }

  lemma DropRemoved(s: seq<TypeId>, i: nat, d: set<TypeId>)
    requires i < |s| && s[i] in d
    ensures Drop(RemoveAt(s, i), d) == Drop(s, d)
  {
    hide Drop, Pos;
    DropInserted(RemoveAt(s, i), i, s[i], d);
    Reinsert(s, i);
  }

  /** In a list without repetition, dropping one type is removing it where it stands. */
  lemma DropIsRemove(s: seq<TypeId>, i: nat)
    requires Distinct(s) && i < |s|
    ensures Drop(s, {s[i]}) == RemoveAt(s, i)
  {
    hide Drop, Pos;
    DropRemoved(s, i, {s[i]});
    DropNone(RemoveAt(s, i), {s[i]});
  }

  // ---------------------------------------------------------------------------------------------
  // The reference: remove, then insert

  ghost predicate Consistent(g: Group) {
    Distinct(g.order) && forall t :: t in g.order <==> t in g.plugins
  }

  function MoveToEnd(order: seq<TypeId>, key: TypeId): seq<TypeId> {
    Drop(order, {key}) + [key]
  }

  /** `key` moved to stand right before `target`, or right after it when `after` holds. */
  function MoveBeside(order: seq<TypeId>, target: TypeId, key: TypeId, after: bool): seq<TypeId>
    requires target in order
  {
    if key == target then order
    else
      var rest := Drop(order, {key});
      DropMember(order, {key}, target);
      InsertAt(rest, Pos(rest, target) + (if after then 1 else 0), key)
  }

  /** `key` stands right before `target`, or right after it. */
  predicate Beside(order: seq<TypeId>, target: TypeId, key: TypeId, after: bool) {
    && key in order && target in order
    && if after then Pos(order, key) == Pos(order, target) + 1 else Pos(order, key) + 1 == Pos(order, target)
  }

  datatype Edit =
    | Add(key: TypeId, plugin: nat)
    | TryAdd(key: TypeId, plugin: nat)
    | AddGroup(group: Group)
    | AddBeside(target: TypeId, key: TypeId, plugin: nat, after: bool)
    | TryAddBeside(target: TypeId, key: TypeId, plugin: nat, after: bool)
    | TrySet(key: TypeId, plugin: nat)
    | SetEnabled(key: TypeId, enabled: bool)

  /** Whether the edit succeeds: it returns `Err` or panics otherwise, and nothing changes. */
  predicate Succeeds(g: Group, e: Edit) {
    match e
    case Add(_, _) => true
    case TryAdd(key, _) => key !in g.plugins
    case AddGroup(_) => true
    case AddBeside(target, _, _, _) => target in g.order
    case TryAddBeside(target, key, _, _) => key !in g.plugins && target in g.order
    case TrySet(key, _) => key in g.plugins
    case SetEnabled(key, _) => key in g.plugins
  }

  function Apply(g: Group, e: Edit): Group {
    if !Succeeds(g, e) then g
    else match e
      case Add(key, plugin) => Group(MoveToEnd(g.order, key), g.plugins[key := Entry(plugin, true)])
      case TryAdd(key, plugin) => Group(MoveToEnd(g.order, key), g.plugins[key := Entry(plugin, true)])
      case AddGroup(h) =>
        Group(Drop(g.order, Types(h.order)) + h.order, g.plugins + h.plugins)
      case AddBeside(target, key, plugin, after) =>
        Group(MoveBeside(g.order, target, key, after), g.plugins[key := Entry(plugin, true)])
      case TryAddBeside(target, key, plugin, after) =>
        Group(MoveBeside(g.order, target, key, after), g.plugins[key := Entry(plugin, true)])
      case TrySet(key, plugin) =>
        g.(plugins := g.plugins[key := g.plugins[key].(plugin := plugin)])
      case SetEnabled(key, enabled) =>
        g.(plugins := g.plugins[key := g.plugins[key].(enabled := enabled)])
  }

  function Types(s: seq<TypeId>): set<TypeId> {
    set t | t in s
  }

  /** The types an edit may move. */
  function Moved(e: Edit): set<TypeId> {
    match e
    case AddGroup(h) => Types(h.order)
    case Add(key, _) => {key}
    case TryAdd(key, _) => {key}
    case AddBeside(_, key, _, _) => {key}
    case TryAddBeside(_, key, _, _) => {key}
    case TrySet(_, _) => {}
    case SetEnabled(_, _) => {}
  }

  ghost predicate WellFormed(e: Edit) {
    e.AddGroup? ==> Consistent(e.group)
  }

  lemma MoveToEndKeeps(order: seq<TypeId>, key: TypeId)
    requires Distinct(order)
    ensures Distinct(MoveToEnd(order, key))
    ensures forall t :: t in MoveToEnd(order, key) <==> t in order || t == key
    ensures Drop(MoveToEnd(order, key), {key}) == Drop(order, {key})
    ensures Pos(MoveToEnd(order, key), key) == |MoveToEnd(order, key)| - 1
  {
    hide Drop, Pos;
    DropDistinct(order, {key});
    DropMembers(order, {key});
    DropAppend(Drop(order, {key}), [key], {key});
    DropOne(key, {key});
    DropNone(Drop(order, {key}), {key});
    PosIs(MoveToEnd(order, key), |MoveToEnd(order, key)| - 1);
  }

  lemma DistinctInserted(s: seq<TypeId>, i: nat, x: TypeId)
    requires Distinct(s) && x !in s && i <= |s|
    ensures Distinct(InsertAt(s, i, x))
    ensures forall t :: t in InsertAt(s, i, x) <==> t in s || t == x
  {
    assert s == s[..i] + s[i..];
  }

  /** The moved type stands right beside its target and every other type keeps its place among the rest. */
  lemma MoveBesideKeeps(order: seq<TypeId>, target: TypeId, key: TypeId, after: bool)
    requires Distinct(order) && target in order
    ensures var r := MoveBeside(order, target, key, after);
            && Distinct(r)
            && (forall t :: t in r <==> t in order || t == key)
            && Drop(r, {key}) == Drop(order, {key})
            && (key != target ==> Beside(r, target, key, after))
  {
    hide Drop, Pos;
    if key != target {
      var rest := Drop(order, {key});
      DropDistinct(order, {key});
      DropMembers(order, {key});
      var at := Pos(rest, target) + (if after then 1 else 0);
      DistinctInserted(rest, at, key);
      DropInserted(rest, at, key, {key});
      DropNone(rest, {key});
      var r := InsertAt(rest, at, key);
      assert r[at] == key;
      PosIs(r, at);
      PosIs(r, if after then at - 1 else at + 1);
    }
  }

  /** Where a type stands beside its target settles the whole list: no other list has these properties. */
  lemma PlaceBesideIsDetermined(a: seq<TypeId>, b: seq<TypeId>, target: TypeId, key: TypeId, after: bool)
    requires Distinct(a) && Distinct(b) && key != target
    requires Drop(a, {key}) == Drop(b, {key})
    requires Beside(a, target, key, after) && Beside(b, target, key, after)
    ensures a == b
  {
    hide Drop, Pos, InsertAt, RemoveAt, Distinct;
    var i, j := Pos(a, key), Pos(b, key);
    var rest := Drop(a, {key});
    DropIsRemove(a, i);
    DropIsRemove(b, j);
    DropDistinct(a, {key});
    TargetAfterRemoval(a, target, key, after);
    TargetAfterRemoval(b, target, key, after);
    Reinsert(a, i);
    Reinsert(b, j);
  }

  lemma Reinsert(s: seq<TypeId>, i: nat)
    requires i < |s|
    ensures InsertAt(RemoveAt(s, i), i, s[i]) == s
  {
  }

  lemma TargetAfterRemoval(a: seq<TypeId>, target: TypeId, key: TypeId, after: bool)
    requires Distinct(a) && key != target
    requires Beside(a, target, key, after)
    ensures target in Drop(a, {key})
    ensures Pos(Drop(a, {key}), target) == Pos(a, key) - (if after then 1 else 0)
  {
    hide Drop, Pos;
    var i := Pos(a, key);
    DropIsRemove(a, i);
    DropDistinct(a, {key});
    var at := i - (if after then 1 else 0);
    assert RemoveAt(a, i)[at] == target;
    PosIs(RemoveAt(a, i), at);
  }

  lemma AddGroupKeeps(g: Group, h: Group)
    requires Consistent(g) && Consistent(h)
    ensures Consistent(Apply(g, AddGroup(h)))
    ensures Drop(Apply(g, AddGroup(h)).order, Types(h.order)) == Drop(g.order, Types(h.order))
  {
    hide Drop, Pos;
    var d := Types(h.order);
    DropDistinct(g.order, d);
    DropMembers(g.order, d);
    DropAppend(Drop(g.order, d), h.order, d);
    DropNone(Drop(g.order, d), d);
    DropAll(h.order, d);
    DistinctAppend(Drop(g.order, d), h.order);
  }

  lemma {:induction false} DropAll(s: seq<TypeId>, d: set<TypeId>)
    requires forall t :: t in s ==> t in d
    ensures Drop(s, d) == []
  {
    if s != [] {
      DropAll(s[..|s| - 1], d);
    }
  }

  /** Every edit keeps the list free of repetition and in step with the map, and moves only its own types. */
  lemma EditKeeps(g: Group, e: Edit)
    requires Consistent(g) && WellFormed(e)
    ensures Consistent(Apply(g, e))
    ensures Drop(Apply(g, e).order, Moved(e)) == Drop(g.order, Moved(e))
  {
    hide Drop, Pos, MoveToEnd, MoveBeside, Distinct, Types;
    if Succeeds(g, e) {
      match e
      case Add(key, _) => MoveToEndKeeps(g.order, key);
      case TryAdd(key, _) => MoveToEndKeeps(g.order, key);
      case AddGroup(h) => AddGroupKeeps(g, h);
      case AddBeside(target, key, _, after) => MoveBesideKeeps(g.order, target, key, after);
      case TryAddBeside(target, key, _, after) => MoveBesideKeeps(g.order, target, key, after);
      case TrySet(_, _) =>
      case SetEnabled(_, _) =>
    }
  }

  /** The edit adds the type it names. */
  predicate Adds(e: Edit, t: TypeId) {
    (e.Add? || e.TryAdd? || e.AddBeside? || e.TryAddBeside?) && e.key == t
  }

  /**
   What a successful edit does to the entries: an added type is enabled with the given plugin,
   `TrySet` changes the plugin only and `SetEnabled` the flag only, the types of an added group have
   its entries, and all other entries stay.
   */
  lemma EditEntries(g: Group, e: Edit, t: TypeId)
    requires Consistent(g) && WellFormed(e) && Succeeds(g, e)
    ensures var was, now := g.plugins, Apply(g, e).plugins;
            && (Adds(e, t) ==> t in now && now[t].enabled && now[t].plugin == e.plugin)
            && (e.TrySet? && e.key == t ==>
                  t in was && t in now && now[t].plugin == e.plugin && now[t].enabled == was[t].enabled)
            && (e.SetEnabled? && e.key == t ==>
                  t in was && t in now && now[t].plugin == was[t].plugin && now[t].enabled == e.enabled)
            && (e.AddGroup? && t in e.group.plugins ==> t in now && now[t] == e.group.plugins[t])
            && (!Names(e, t) ==> (t in now <==> t in was) && (t in now ==> now[t] == was[t]))
  {
    hide MoveToEnd, MoveBeside, Drop, Distinct;
  }

  /** The edit names the type, alone or in a group. */
  predicate Names(e: Edit, t: TypeId) {
    if e.AddGroup? then t in e.group.plugins else e.key == t
  }

  /** Where a successful edit puts what it adds. */
  lemma EditPlaces(g: Group, e: Edit)
    requires Consistent(g) && WellFormed(e) && Succeeds(g, e)
    ensures var r := Apply(g, e).order;
            && (e.Add? || e.TryAdd? ==> e.key in r && Pos(r, e.key) == |r| - 1)
            && (e.AddBeside? || e.TryAddBeside? ==>
                  if e.key == e.target then r == g.order else Beside(r, e.target, e.key, e.after))
            && (e.AddGroup? ==> |e.group.order| <= |r| && r[|r| - |e.group.order|..] == e.group.order)
            && (e.TrySet? || e.SetEnabled? ==> r == g.order)
  {
    hide Drop, Pos, MoveToEnd, Distinct, Types, Beside;
    match e
    case Add(key, _) => MoveToEndKeeps(g.order, key);
    case TryAdd(key, _) => MoveToEndKeeps(g.order, key);
    case AddGroup(h) =>
    case AddBeside(target, key, _, after) => MoveBesideKeeps(g.order, target, key, after);
    case TryAddBeside(target, key, _, after) => MoveBesideKeeps(g.order, target, key, after);
    case TrySet(_, _) =>
    case SetEnabled(_, _) =>
  }

  function ApplyAll(g: Group, edits: seq<Edit>): Group
    decreases |edits|
  {
    if edits == [] then g else ApplyAll(Apply(g, edits[0]), edits[1..])
  }

  function MovedByAll(edits: seq<Edit>): set<TypeId> {
    if edits == [] then {} else Moved(edits[0]) + MovedByAll(edits[1..])
  }

  /** Over any sequence of edits: consistency holds, and types no edit named keep their relative order. */
  lemma {:induction false} EveryBuilderIsConsistent(g: Group, edits: seq<Edit>)
    requires Consistent(g) && forall i :: 0 <= i < |edits| ==> WellFormed(edits[i])
    ensures Consistent(ApplyAll(g, edits))
    ensures Drop(ApplyAll(g, edits).order, MovedByAll(edits)) == Drop(g.order, MovedByAll(edits))
    decreases |edits|
  {
    hide Drop, Pos;
    if edits != [] {
      var next := Apply(g, edits[0]);
      EditKeeps(g, edits[0]);
      EveryBuilderIsConsistent(next, edits[1..]);
      var moved, later := Moved(edits[0]), MovedByAll(edits[1..]);
      var last := ApplyAll(next, edits[1..]).order;
      assert moved + later == later + moved;
      DropTwice(last, later, moved);
      DropTwice(next.order, later, moved);
      DropTwice(next.order, moved, later);
      DropTwice(g.order, moved, later);
    }
  }

  // ---------------------------------------------------------------------------------------------
  // What `build` offers to the app

  function Disabled(plugins: map<TypeId, Entry>): set<TypeId> {
    set t | t in plugins && !plugins[t].enabled
  }

  /** The enabled plugins in list order, each with its type. */
  function Offered(g: Group): seq<(TypeId, nat)>
    requires forall t :: t in g.order ==> t in g.plugins
  {
    var kept := Drop(g.order, Disabled(g.plugins));
    DropMembers(g.order, Disabled(g.plugins));
    seq(|kept|, i requires 0 <= i < |kept| => (kept[i], g.plugins[kept[i]].plugin))
  }

  /** Every enabled plugin is offered once, and two of them in the order the list has them. */
  lemma OfferedOnceInOrder(g: Group, t: TypeId, u: TypeId)
    requires Consistent(g)
    requires t in g.plugins && g.plugins[t].enabled && u in g.plugins && g.plugins[u].enabled
    ensures (exists i :: 0 <= i < |Offered(g)| && Offered(g)[i] == (t, g.plugins[t].plugin))
    ensures forall i, j ::
              (0 <= i < |Offered(g)| && 0 <= j < |Offered(g)| && Offered(g)[i].0 == t && Offered(g)[j].0 == u) ==>
              (i < j <==> Pos(g.order, t) < Pos(g.order, u))
  {
    hide Drop, Pos;
    var d := Disabled(g.plugins);
    var kept := Drop(g.order, d);
    DropDistinct(g.order, d);
    DropMember(g.order, d, t);
    assert Offered(g)[Pos(kept, t)] == (t, g.plugins[t].plugin);
    DropKeepsOrder(g.order, d, t, u);
    forall i, j | 0 <= i < |kept| && 0 <= j < |kept| && kept[i] == t && kept[j] == u
      ensures i < j <==> Pos(g.order, t) < Pos(g.order, u)
    {
      PosIs(kept, i);
      PosIs(kept, j);
    }
  }

  /** What is offered: exactly the enabled types, with their plugins. */
  lemma OfferedExactly(g: Group, t: TypeId, plugin: nat)
    requires Consistent(g)
    ensures (t, plugin) in Offered(g) <==> t in g.plugins && g.plugins[t] == Entry(plugin, true)
  {
    hide Drop;
    DropMembers(g.order, Disabled(g.plugins));
    if t in g.plugins && g.plugins[t] == Entry(plugin, true) {
      OfferedOnceInOrder(g, t, t);
    }
  }

  /** What an edit leaves as the entry of `t`, if it was `entry`. */
  function EntryAfter(g: Group, e: Edit, t: TypeId, entry: Option<Entry>): Option<Entry> {
    if !Succeeds(g, e) || !Names(e, t) then entry
    else if e.AddGroup? then Some(e.group.plugins[t])
    else if e.TrySet? && entry.Some? then Some(Entry(e.plugin, entry.value.enabled))
    else if e.SetEnabled? && entry.Some? then Some(Entry(entry.value.plugin, e.enabled))
    else if Adds(e, t) then Some(Entry(e.plugin, true))
    else entry
  }

  function EntryAfterAll(g: Group, edits: seq<Edit>, t: TypeId, entry: Option<Entry>): Option<Entry>
    decreases |edits|
  {
    if edits == [] then entry
    else EntryAfterAll(Apply(g, edits[0]), edits[1..], t, EntryAfter(g, edits[0], t, entry))
  }

  function EntryOf(g: Group, t: TypeId): Option<Entry> {
    if t in g.plugins then Some(g.plugins[t]) else None
  }

  lemma {:induction false} EntriesOverEdits(g: Group, edits: seq<Edit>, t: TypeId)
    requires Consistent(g) && forall i :: 0 <= i < |edits| ==> WellFormed(edits[i])
    ensures EntryOf(ApplyAll(g, edits), t) == EntryAfterAll(g, edits, t, EntryOf(g, t))
    decreases |edits|
  {
    hide Consistent, WellFormed, Succeeds;
    if edits != [] {
      var e := edits[0];
      EditKeeps(g, e);
      if Succeeds(g, e) {
        EditEntries(g, e, t);
      }
      EntriesOverEdits(Apply(g, e), edits[1..], t);
    }
  }

  /**
   Over every sequence of edits: a plugin is offered with the value last given to it if and only if it
   was added and nothing has disabled it since.
   */
  lemma OfferedAsLastGiven(g: Group, edits: seq<Edit>, t: TypeId, plugin: nat)
    requires Consistent(g) && forall i :: 0 <= i < |edits| ==> WellFormed(edits[i])
    ensures Consistent(ApplyAll(g, edits))
    ensures (t, plugin) in Offered(ApplyAll(g, edits))
            <==> EntryAfterAll(g, edits, t, EntryOf(g, t)) == Some(Entry(plugin, true))
  {
    hide Offered;
    EveryBuilderIsConsistent(g, edits);
    EntriesOverEdits(g, edits, t);
    OfferedExactly(ApplyAll(g, edits), t, plugin);
  }

  lemma {:induction false} DropKeepsOrder(s: seq<TypeId>, d: set<TypeId>, t: TypeId, u: TypeId)
    requires Distinct(s) && t in s && u in s && t !in d && u !in d
    ensures t in Drop(s, d) && u in Drop(s, d)
    ensures Pos(Drop(s, d), t) < Pos(Drop(s, d), u) <==> Pos(s, t) < Pos(s, u)
  {
    hide Drop, Pos;
    var n := |s| - 1;
    DropDistinct(s, d);
    var i, j := Pos(s, t), Pos(s, u);
    PlaceAfterDrop(s, d, i);
    PlaceAfterDrop(s, d, j);
    if i < j {
      DropShorter(s, d, i, j);
    } else if j < i {
      DropShorter(s, d, j, i);
    }
  }

  /** A kept type moves to the number of kept types before it. */
  lemma PlaceAfterDrop(s: seq<TypeId>, d: set<TypeId>, i: nat)
    requires Distinct(s) && i < |s| && s[i] !in d
    ensures s[i] in Drop(s, d) && Pos(Drop(s, d), s[i]) == |Drop(s[..i], d)|
  {
    hide Drop, Pos;
    DropDistinct(s, d);
    DropAppend(s[..i], s[i..], d);
    DropAppend([s[i]], s[i + 1..], d);
    DropOne(s[i], d);
    assert s == s[..i] + s[i..] && s[i..] == [s[i]] + s[i + 1..];
    PosIs(Drop(s, d), |Drop(s[..i], d)|);
  }

  lemma DropShorter(s: seq<TypeId>, d: set<TypeId>, i: nat, j: nat)
    requires i < j < |s| && s[i] !in d
    ensures |Drop(s[..i], d)| < |Drop(s[..j], d)|
  {
    hide Drop, Pos;
    DropAppend(s[..i], s[i..j], d);
    DropAppend([s[i]], s[i + 1..j], d);
    DropOne(s[i], d);
    assert s[..j] == s[..i] + s[i..j] && s[i..j] == [s[i]] + s[i + 1..j];
  }

  // ---------------------------------------------------------------------------------------------
  // The builder

  /** The first place of `key` other than `skip`. */
  method PositionExcept(order: seq<TypeId>, key: TypeId, skip: nat) returns (r: Option<nat>)
    ensures r.Some? ==> r.value < |order| && r.value != skip && order[r.value] == key
    ensures forall i :: 0 <= i < (if r.Some? then r.value else |order|) && i != skip ==> order[i] != key
  {
    var i := 0;
    while i < |order|
      invariant 0 <= i <= |order|
      invariant forall k :: 0 <= k < i && k != skip ==> order[k] != key
    {
      if i != skip && order[i] == key {
        return Some(i);
      }
      i := i + 1;
    }
    return None;
  }

  lemma RemovedAfterInsert(s: seq<TypeId>, i: nat, x: TypeId, r: nat)
    requires i <= |s| && r <= |s| && r != i
    ensures RemoveAt(InsertAt(s, i, x), r)
         == if r < i then InsertAt(RemoveAt(s, r), i - 1, x) else InsertAt(RemoveAt(s, r - 1), i, x)
  {
    hide InsertAt, RemoveAt;
    var was, at := if r < i then r else r - 1, if r < i then i - 1 else i;
    InsertedLength(s, i, x);
    RemovedLength(InsertAt(s, i, x), r);
    RemovedLength(s, was);
    InsertedLength(RemoveAt(s, was), at, x);
    var one, other := RemoveAt(InsertAt(s, i, x), r), InsertAt(RemoveAt(s, was), at, x);
    forall k | 0 <= k < |one| ensures one[k] == other[k] {
      RemovedAt(InsertAt(s, i, x), r, k);
      InsertedAt(s, i, x, if k < r then k else k + 1);
      InsertedAt(RemoveAt(s, was), at, x, k);
      if k != at {
        RemovedAt(s, was, if k < at then k else k - 1);
      }
    }
    assert one == other;
  }

  lemma InsertedLength(s: seq<TypeId>, i: nat, x: TypeId)
    requires i <= |s|
    ensures |InsertAt(s, i, x)| == |s| + 1
  {
  }

  lemma InsertedAt(s: seq<TypeId>, i: nat, x: TypeId, k: nat)
    requires i <= |s| && k <= |s|
    ensures |InsertAt(s, i, x)| == |s| + 1
    ensures InsertAt(s, i, x)[k] == if k < i then s[k] else if k == i then x else s[k - 1]
  {
  }

  lemma RemovedLength(s: seq<TypeId>, i: nat)
    requires i < |s|
    ensures |RemoveAt(s, i)| == |s| - 1
  {
  }

  lemma RemovedAt(s: seq<TypeId>, i: nat, k: nat)
    requires i < |s| && k < |s| - 1
    ensures |RemoveAt(s, i)| == |s| - 1
    ensures RemoveAt(s, i)[k] == if k < i then s[k] else s[k + 1]
  {
  }

  /** Inserting `key` and then removing its older place is removing it and then inserting it. */
  lemma InsertThenRemove(order: seq<TypeId>, i: nat, key: TypeId, r: nat)
    requires Distinct(order) && i <= |order| && r <= |order| && r != i
    requires InsertAt(order, i, key)[r] == key
    ensures var rest := Drop(order, {key});
            var at := if r < i then i - 1 else i;
            && at <= |rest|
            && RemoveAt(InsertAt(order, i, key), r) == InsertAt(rest, at, key)
  {
    hide Drop, Pos;
    var was := if r < i then r else r - 1;
    assert order[was] == key;
    DropIsRemove(order, was);
    RemovedAfterInsert(order, i, key, r);
  }

  lemma AppendedIsMoved(order: seq<TypeId>, key: TypeId, r: nat)
    requires Distinct(order) && r < |order| && order[r] == key
    ensures RemoveAt(order + [key], r) == MoveToEnd(order, key)
  {
    hide Drop;
    DropIsRemove(order, r);
  }

  /** Right beside `target` means the same place after the removal of `key`. */
  lemma BesideAfterRemoval(order: seq<TypeId>, target: TypeId, key: TypeId, was: nat)
    requires Distinct(order) && target in order && key != target && was < |order| && order[was] == key
    ensures target in Drop(order, {key})
    ensures Pos(Drop(order, {key}), target) == Pos(order, target) - (if was < Pos(order, target) then 1 else 0)
  {
    hide Drop, Pos;
    DropIsRemove(order, was);
    DropDistinct(order, {key});
    var at := Pos(order, target) - (if was < Pos(order, target) then 1 else 0);
    assert RemoveAt(order, was)[at] == target;
    PosIs(RemoveAt(order, was), at);
  }

  class PluginGroupBuilder {
    var order: seq<TypeId>
    var plugins: map<TypeId, Entry>

    ghost function State(): Group
      reads this
    {
      Group(order, plugins)
    }

    ghost predicate Valid()
      reads this
    {
      Consistent(State())
    }

    constructor ()
      ensures Valid() && order == [] && plugins == map[]
    {
      order, plugins := [], map[];
    }

    /** Stores the entry; when one was stored before, drops the first place of `key` other than `addedAt`. */
    method UpsertPluginEntryState(key: TypeId, entry: Entry, addedAt: nat)
      modifies this
      ensures plugins == old(plugins)[key := entry]
      ensures key !in old(plugins) ==> order == old(order)
      ensures key in old(plugins) ==>
                || (order == old(order) && forall i :: 0 <= i < |order| && i != addedAt ==> order[i] != key)
                || exists r :: 0 <= r < |old(order)| && r != addedAt && old(order)[r] == key &&
                               (forall i :: 0 <= i < r && i != addedAt ==> old(order)[i] != key) &&
                               order == RemoveAt(old(order), r)
    {
      var replaced := key in plugins;
      plugins := plugins[key := entry];
      if replaced {
        var toRemove := PositionExcept(order, key, addedAt);
        if toRemove.Some? {
          order := RemoveAt(order, toRemove.value);
        }
      }
    }

    method Add(key: TypeId, plugin: nat)
      requires Valid()
      modifies this
      ensures Valid() && State() == Apply(old(State()), Edit.Add(key, plugin))
    {
      hide Drop, Pos;
      EditKeeps(State(), Edit.Add(key, plugin));
      ghost var before := order;
      var targetIndex := |order|;
      order := order + [key];
      UpsertPluginEntryState(key, Entry(plugin, true), targetIndex);
      if key in before {
        assert (before + [key])[Pos(before, key)] == key;
        ghost var r :| 0 <= r <= |before| && r != |before| && (before + [key])[r] == key
                       && order == RemoveAt(before + [key], r);
        AppendedIsMoved(before, key, r);
      } else {
        DropNone(before, {key});
      }
    }

    method TryAdd(key: TypeId, plugin: nat) returns (ok: bool)
      requires Valid()
      modifies this
      ensures Valid() && ok == (key !in old(plugins)) && (!ok ==> State() == old(State()))
      ensures State() == Apply(old(State()), Edit.TryAdd(key, plugin))
    {
      if key in plugins {
        return false;
      }
      Add(key, plugin);
      return true;
    }

    method IndexOf(target: TypeId) returns (r: Option<nat>)
      ensures r == if target in order then Some(Pos(order, target)) else None
    {
      r := PositionExcept(order, target, |order|);
    }

    /** Inserts beside the target and drops the older place; the two `overwrite` operations differ in `after`. */
    method TryAddBesideOverwrite(target: TypeId, key: TypeId, plugin: nat, after: bool) returns (ok: bool)
      requires Valid()
      modifies this
      ensures Valid() && ok == (target in old(order)) && (!ok ==> State() == old(State()))
      ensures State() == Apply(old(State()), Edit.AddBeside(target, key, plugin, after))
    {
      hide Drop, Pos;
      EditKeeps(State(), Edit.AddBeside(target, key, plugin, after));
      var found := IndexOf(target);
      if found.None? {
        return false;
      }
      ghost var before := order;
      var targetIndex := found.value + if after then 1 else 0;
      order := InsertAt(order, targetIndex, key);
      ghost var inserted := order;
      UpsertPluginEntryState(key, Entry(plugin, true), targetIndex);
      if key in before {
        OlderPlace(before, targetIndex, key);
        ghost var r :| 0 <= r < |inserted| && r != targetIndex && inserted[r] == key && order == RemoveAt(inserted, r);
        InsertedIsMoved(before, target, key, after, r);
      } else {
        DropNone(before, {key});
      }
      return true;
    }

    method TryAddBeside(target: TypeId, key: TypeId, plugin: nat, after: bool) returns (ok: bool)
      requires Valid()
      modifies this
      ensures Valid() && ok == (key !in old(plugins) && target in old(order)) && (!ok ==> State() == old(State()))
      ensures State() == Apply(old(State()), Edit.TryAddBeside(target, key, plugin, after))
    {
      if key in plugins {
        return false;
      }
      ok := TryAddBesideOverwrite(target, key, plugin, after);
    }

    method TrySet(key: TypeId, plugin: nat) returns (ok: bool)
      requires Valid()
      modifies this
      ensures Valid() && ok == (key in old(plugins)) && (!ok ==> State() == old(State()))
      ensures State() == Apply(old(State()), Edit.TrySet(key, plugin))
    {
      if key !in plugins {
        return false;
      }
      plugins := plugins[key := plugins[key].(plugin := plugin)];
      return true;
    }

    /** `enable` and `disable`; both panic on a type that is not in the group. */
    method SetEnabled(key: TypeId, enabled: bool)
      requires Valid() && key in plugins
      modifies this
      ensures Valid() && State() == Apply(old(State()), Edit.SetEnabled(key, enabled))
    {
      plugins := plugins[key := plugins[key].(enabled := enabled)];
    }

    /** Moves every entry of another group to the end; each list member still has its entry when it is taken. */
    method AddGroup(group: Group)
      requires Valid() && Consistent(group)
      modifies this
      ensures Valid() && State() == Apply(old(State()), Edit.AddGroup(group))
    {
      hide Drop, Pos, Merge;
      ghost var before := State();
      AddGroupKeeps(before, group);
      MergeEnds(before, group);
      var entries := group.plugins;
      var i := 0;
      while i < |group.order|
        invariant 0 <= i <= |group.order|
        invariant State() == Merge(before, group, i)
        invariant forall k :: i <= k < |group.order| ==> group.order[k] in entries
        invariant forall t :: t in entries ==> t in group.plugins && entries[t] == group.plugins[t]
      {
        var key := group.order[i];
        var entry := entries[key];
        entries := entries - {key};
        ghost var current := order;
        MergeStep(before, group, i);
        UpsertPluginEntryState(key, entry, |order|);
        if key in current {
          assert current[Pos(current, key)] == key;
          ghost var r :| 0 <= r < |current| && current[r] == key && order == RemoveAt(current, r);
          DropIsRemove(current, r);
        } else {
          DropNone(current, {key});
        }
        order := order + [key];
        i := i + 1;
      }
    }

    /**
     Offers the enabled plugins to the app in list order. `refuses` says whether the app panics on the
     last of the plugins offered so far; then the loop ends there.
     */
    method Build(refuses: seq<(TypeId, nat)> -> bool) returns (offered: seq<(TypeId, nat)>, panicked: bool)
      requires Valid()
      ensures offered <= Offered(State())
      ensures forall k :: 0 < k < |offered| ==> !refuses(Offered(State())[..k])
      ensures if panicked then offered != [] && refuses(offered)
              else offered == Offered(State()) && (offered != [] ==> !refuses(offered))
    {
      hide Drop, Pos;
      ghost var all := Offered(State());
      var entries := plugins;
      offered := [];
      var i := 0;
      ghost var d := Disabled(plugins);
      DropNone(order[..0], d);
      while i < |order|
        invariant 0 <= i <= |order|
        invariant |offered| == |Drop(order[..i], d)| && offered <= all
        invariant forall k :: 0 < k <= |offered| ==> !refuses(all[..k])
        invariant forall k :: i <= k < |order| ==> order[k] in entries
        invariant forall t :: t in entries ==> t in plugins && entries[t] == plugins[t]
      {
        var key := order[i];
        var entry := entries[key];
        entries := entries - {key};
        OfferStep(order, d, i);
        if entry.enabled {
          offered := offered + [(key, entry.plugin)];
          assert offered == all[..|offered|];
          if refuses(offered) {
            return offered, true;
          }
        }
        i := i + 1;
      }
      assert order[..i] == order;
      assert offered == all[..|offered|];
      return offered, false;
    }
  }

  /** The next list member is kept at the place counted so far. */
  lemma OfferStep(order: seq<TypeId>, d: set<TypeId>, i: nat)
    requires i < |order|
    ensures Drop(order[..i + 1], d) == Drop(order[..i], d) + (if order[i] in d then [] else [order[i]])
    ensures order[i] !in d ==> |Drop(order[..i], d)| < |Drop(order, d)| && Drop(order, d)[|Drop(order[..i], d)|] == order[i]
  {
    hide Drop, Pos;
    DropAppend(order[..i], [order[i]], d);
    DropOne(order[i], d);
    assert order[..i + 1] == order[..i] + [order[i]];
    DropAppend(order[..i + 1], order[i + 1..], d);
    assert order == order[..i + 1] + order[i + 1..];
  }

  /** The group after the first `i` types of `h` have been moved in. */
  ghost function Merge(g: Group, h: Group, i: nat): Group
    requires i <= |h.order| && Consistent(g) && Consistent(h)
  {
    var taken := h.order[..i];
    Group(Drop(g.order, Types(taken)) + taken,
          map t | t in g.plugins.Keys + Types(taken) :: if t in taken then h.plugins[t] else g.plugins[t])
  }

  lemma MergedOrderStep(order: seq<TypeId>, others: seq<TypeId>, i: nat)
    requires Distinct(others) && i < |others|
    ensures var s := Drop(order, Types(others[..i])) + others[..i];
            MoveToEnd(s, others[i]) == Drop(order, Types(others[..i + 1])) + others[..i + 1]
  {
    hide Drop;
    var taken, key := others[..i], others[i];
    DropAppend(Drop(order, Types(taken)), taken, {key});
    DropTwice(order, Types(taken), {key});
    DropNone(taken, {key});
    assert others[..i + 1] == taken + [key];
    assert Types(taken) + {key} == Types(others[..i + 1]);
  }

  lemma MergeIsConsistent(g: Group, h: Group, i: nat)
    requires Consistent(g) && Consistent(h) && i <= |h.order|
    ensures Consistent(Merge(g, h, i))
  {
    hide Drop;
    var d := Types(h.order[..i]);
    DropDistinct(g.order, d);
    DropMembers(g.order, d);
    DistinctAppend(Drop(g.order, d), h.order[..i]);
  }

  lemma MergeStep(g: Group, h: Group, i: nat)
    requires Consistent(g) && Consistent(h) && i < |h.order|
    ensures Consistent(Merge(g, h, i))
    ensures var m, key := Merge(g, h, i), h.order[i];
            Merge(g, h, i + 1) == Group(MoveToEnd(m.order, key), m.plugins[key := h.plugins[key]])
  {
    hide Drop, MoveToEnd;
    MergeIsConsistent(g, h, i);
    MergedOrderStep(g.order, h.order, i);
    assert h.order[..i + 1] == h.order[..i] + [h.order[i]];
  }

  lemma MergeEnds(g: Group, h: Group)
    requires Consistent(g) && Consistent(h)
    ensures Merge(g, h, 0) == g && Merge(g, h, |h.order|) == Apply(g, AddGroup(h))
  {
    hide Drop;
    assert h.order[..0] == [] && Types([]) == {} && h.order[..|h.order|] == h.order;
    DropNone(g.order, {});
  }

  lemma OlderPlace(before: seq<TypeId>, i: nat, key: TypeId)
    requires key in before && i <= |before|
    ensures exists r :: 0 <= r < |InsertAt(before, i, key)| && r != i && InsertAt(before, i, key)[r] == key
  {
    hide Drop, Pos;
    var p := Pos(before, key);
    assert InsertAt(before, i, key)[if p < i then p else p + 1] == key;
  }

  lemma InsertedIsMoved(before: seq<TypeId>, target: TypeId, key: TypeId, after: bool, r: nat)
    requires Distinct(before) && target in before
    requires var i := Pos(before, target) + (if after then 1 else 0);
             r <= |before| && r != i && InsertAt(before, i, key)[r] == key
    ensures RemoveAt(InsertAt(before, Pos(before, target) + (if after then 1 else 0), key), r)
         == MoveBeside(before, target, key, after)
  {
    hide Drop, Pos;
    var i := Pos(before, target) + (if after then 1 else 0);
    var was := if r < i then r else r - 1;
    assert before[was] == key;
    if key == target {
      PosIs(before, was);
    } else {
      InsertThenRemove(before, i, key, r);
      BesideAfterRemoval(before, target, key, was);
    }
  }
}
