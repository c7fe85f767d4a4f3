/**
 Model of the three-phase entity cloner of voker-ecs (`clone.rs`).

 `EntityCloner.Run` copies a set of entities of a world: a breadth-first worklist
 with lazy discovery of linked entities, followed by deferred remapping of the
 entity references inside the copies.
 */
module EntityCloning {

  /** An entity id. Ids are never reused: an id stands for (row, generation). */
  type Entity = nat

  /** The cloner registered for a component type. */
  datatype Strategy =
    | Plain(noEntity: bool)                        // copyable / clonable
    | RelationshipTarget(linkedLifecycle: bool)
    | Relationship
    | ChildrenStrategy                             // the custom cloner of `Children`

  /** A component value: the entities it mentions, in order, and everything else. */
  datatype Component = Component(strategy: Strategy, refs: seq<Entity>, payload: int)

  /** Live entities and their components, listed in archetype order. */
  type World = map<Entity, seq<Component>>

  type Mapper = map<Entity, Entity>

  /** A deferred `map_entities` call on one column of a cloned entity. */
  datatype Callback = Callback(entity: Entity, column: nat)

  // ---------------------------------------------------------------------------
  // What one component cloner does

  /** `EntityMapper::get_mapped`: identity outside the mapper's domain. */
  function Image(m: Mapper, e: Entity): Entity {
    if e in m then m[e] else e
  }

  function MapRefs(m: Mapper, refs: seq<Entity>): (r: seq<Entity>)
    ensures |r| == |refs|
  {
    seq(|refs|, i requires 0 <= i < |refs| => Image(m, refs[i]))
  }

  /** The value a cloner writes during the plain phase. */
  function PlainCopy(c: Component, linked: bool): Component {
    match c.strategy
    case RelationshipTarget(linkedLifecycle) =>
      if linkedLifecycle && !linked then c.(refs := []) else c
    case ChildrenStrategy => if linked then c else c.(refs := [])
    case _ => c
  }

  /** Whether the cloner queues a deferred remap. */
  predicate Remaps(c: Component, linked: bool) {
    match c.strategy
    case Plain(noEntity) => !noEntity
    case ChildrenStrategy => linked
    case _ => true
  }

  /** The entities a cloner schedules for cloning with `defer_clone`. */
  function Deferred(c: Component, linked: bool): seq<Entity> {
    if linked && c.strategy == RelationshipTarget(true) then c.refs else []
  }

  /** The final value of the copy of `c`, once references are remapped by `m`. */
  function CloneOf(c: Component, linked: bool, m: Mapper): Component {
    var d := PlainCopy(c, linked);
    if Remaps(c, linked) then d.(refs := MapRefs(m, d.refs)) else d
  }

  function PlainCopies(cs: seq<Component>, linked: bool): (r: seq<Component>)
    ensures |r| == |cs|
  {
    seq(|cs|, i requires 0 <= i < |cs| => PlainCopy(cs[i], linked))
  }

  function Clones(cs: seq<Component>, linked: bool, m: Mapper): (r: seq<Component>)
    ensures |r| == |cs|
  {
    seq(|cs|, i requires 0 <= i < |cs| => CloneOf(cs[i], linked, m))
  }

  /** All entities deferred while cloning the components `cs`, in order. */
  function Linked(cs: seq<Component>, linked: bool): seq<Entity> {
    if cs == [] then []
    else Linked(cs[..|cs| - 1], linked) + Deferred(cs[|cs| - 1], linked)
  }

  function CallbacksOf(cs: seq<Component>, target: Entity, linked: bool): seq<Callback> {
    if cs == [] then []
    else
      CallbacksOf(cs[..|cs| - 1], target, linked)
      + if Remaps(cs[|cs| - 1], linked) then [Callback(target, |cs| - 1)] else []
  }

  lemma {:induction false} CallbacksOfAreTheRemappedColumns(cs: seq<Component>, target: Entity, linked: bool)
    ensures forall cb :: (cb in CallbacksOf(cs, target, linked)) ==
                         (cb.entity == target && cb.column < |cs| && Remaps(cs[cb.column], linked))
    ensures Distinct(CallbacksOf(cs, target, linked))
  {
    if cs != [] {
      CallbacksOfAreTheRemappedColumns(cs[..|cs| - 1], target, linked);
    }
  }

  predicate Distinct<T(==)>(s: seq<T>) {
    forall i, j :: 0 <= i < j < |s| ==> s[i] != s[j]
  }

  // ---------------------------------------------------------------------------
  // Reference definition: reachability through linked relations

  /** When linking, the holder of `cs` brings along what its linked relations hold. */
  ghost predicate Holding(cs: seq<Component>, linked: bool, e: Entity) {
    linked && exists k :: 0 <= k < |cs| && cs[k].strategy == RelationshipTarget(true) && e in cs[k].refs
  }

  /** What the component cloners defer is exactly what the linked relations hold. */
  lemma {:induction false} LinkedIsHeld(cs: seq<Component>, linked: bool, e: Entity)
    ensures e in Linked(cs, linked) <==> Holding(cs, linked, e)
  {
    if cs != [] {
      var rest, last := cs[..|cs| - 1], cs[|cs| - 1];
      LinkedIsHeld(rest, linked, e);
      if Holding(rest, linked, e) {
        var k :| 0 <= k < |rest| && rest[k].strategy == RelationshipTarget(true) && e in rest[k].refs;
        assert cs[k] == rest[k];
      }
      if Holding(cs, linked, e) {
        var k :| 0 <= k < |cs| && cs[k].strategy == RelationshipTarget(true) && e in cs[k].refs;
        assert k < |rest| ==> rest[k] == cs[k];
      }
    }
  }

  /** A chain of live entities, each linked from the one before it. */
  ghost predicate IsWalk(w: World, linked: bool, p: seq<Entity>) {
    && p != []
    && (forall i :: 0 <= i < |p| ==> p[i] in w)
    && (forall i, j :: 0 <= i && j == i + 1 < |p| ==> Holding(w[p[i]], linked, p[j]))
  }

  ghost predicate WalkFrom(w: World, roots: seq<Entity>, linked: bool, p: seq<Entity>, e: Entity) {
    IsWalk(w, linked, p) && p[0] in roots && p[|p| - 1] == e
  }

  ghost predicate Reachable(w: World, roots: seq<Entity>, linked: bool, e: Entity) {
    exists p :: WalkFrom(w, roots, linked, p, e)
  }

  lemma RootIsReachable(w: World, roots: seq<Entity>, linked: bool, e: Entity)
    requires e in roots && e in w
    ensures Reachable(w, roots, linked, e)
  {
    assert WalkFrom(w, roots, linked, [e], e);
  }

  lemma LinkedIsReachable(w: World, roots: seq<Entity>, linked: bool, e: Entity, child: Entity)
    requires Reachable(w, roots, linked, e) && e in w
    requires child in Linked(w[e], linked) && child in w
    ensures Reachable(w, roots, linked, child)
  {
    hide Linked, Holding;
    LinkedIsHeld(w[e], linked, child);
    var p :| WalkFrom(w, roots, linked, p, e);
    var q := p + [child];
    assert WalkFrom(w, roots, linked, q, child);
  }

  /** A set that holds the live roots and is closed under live links holds everything reachable. */
  lemma {:induction false} ClosedContainsWalk(w: World, roots: seq<Entity>, linked: bool, s: set<Entity>, p: seq<Entity>)
    requires forall r :: r in roots && r in w ==> r in s
    requires forall e, c :: e in s && e in w && c in Linked(w[e], linked) && c in w ==> c in s
    requires IsWalk(w, linked, p) && p[0] in roots
    ensures p[|p| - 1] in s
  {
    if |p| > 1 {
      var q := p[..|p| - 1];
      ClosedContainsWalk(w, roots, linked, s, q);
      LinkedIsHeld(w[q[|q| - 1]], linked, p[|p| - 1]);
    }
  }

  // ---------------------------------------------------------------------------
  // The worklist

  /** Draining `deferred` into the queue: an entity is queued when it is neither waiting nor done. */
  function Enqueued(wait: seq<Entity>, done: set<Entity>, deferred: seq<Entity>): seq<Entity> {
    if deferred == [] then wait
    else
      var w := Enqueued(wait, done, deferred[..|deferred| - 1]);
      var e := deferred[|deferred| - 1];
      if e in w || e in done then w else w + [e]
  }

  lemma {:induction false} EnqueuedContents(wait: seq<Entity>, done: set<Entity>, deferred: seq<Entity>)
    ensures forall e :: (e in Enqueued(wait, done, deferred)) == (e in wait || (e in deferred && e !in done))
  {
    if deferred != [] {
      var rest := deferred[..|deferred| - 1];
      EnqueuedContents(wait, done, rest);
      assert deferred == rest + [deferred[|deferred| - 1]];
    }
  }

  /** Occurrences of `e` in `s`. */
  function Count(s: seq<Entity>, e: Entity): (n: nat)
    ensures n > 0 <==> e in s
  {
    if s == [] then 0
    else Count(s[..|s| - 1], e) + if s[|s| - 1] == e then 1 else 0
  }

  lemma {:induction false} CountHead(s: seq<Entity>, e: Entity)
    requires s != []
    ensures Count(s, e) == Count(s[1..], e) + if s[0] == e then 1 else 0
  {
    if |s| > 1 {
      CountHead(s[..|s| - 1], e);
      assert s[1..][..|s| - 2] == s[..|s| - 1][1..];
    }
  }

  lemma CountPush(s: seq<Entity>, x: Entity, e: Entity)
    ensures Count(s + [x], e) == Count(s, e) + if x == e then 1 else 0
  {
  }

  lemma {:induction false} EnqueuedCount(wait: seq<Entity>, done: set<Entity>, deferred: seq<Entity>, e: Entity)
    ensures Count(Enqueued(wait, done, deferred), e) ==
            if e in wait then Count(wait, e)
            else if e in Enqueued(wait, done, deferred) then 1 else 0
  {
    if deferred != [] {
      var w := Enqueued(wait, done, deferred[..|deferred| - 1]);
      EnqueuedCount(wait, done, deferred[..|deferred| - 1], e);
      EnqueuedContents(wait, done, deferred[..|deferred| - 1]);
      CountPush(w, deferred[|deferred| - 1], e);
    }
  }

  /** Number of live entries in a queue. */
  function LiveCount(live: set<Entity>, wait: seq<Entity>): nat {
    if wait == [] then 0
    else LiveCount(live, wait[..|wait| - 1]) + if wait[|wait| - 1] in live then 1 else 0
  }

  lemma {:induction false} LiveCountHead(live: set<Entity>, wait: seq<Entity>)
    requires wait != []
    ensures LiveCount(live, wait) == LiveCount(live, wait[1..]) + if wait[0] in live then 1 else 0
  {
    if |wait| > 1 {
      LiveCountHead(live, wait[..|wait| - 1]);
      assert wait[1..][..|wait| - 2] == wait[..|wait| - 1][1..];
    }
  }

  function Elements(s: seq<Entity>): set<Entity> {
    set e | e in s
  }

  /** Upper bound on the clones still to be made: the termination measure of the worklist. */
  function Work(live: set<Entity>, done: set<Entity>, wait: seq<Entity>): nat {
    |live - done - Elements(wait)| + LiveCount(live, wait)
  }

  lemma {:induction false} EnqueuedWork(live: set<Entity>, done: set<Entity>, blocked: set<Entity>, wait: seq<Entity>, deferred: seq<Entity>)
    requires done <= blocked
    ensures Work(live, done, Enqueued(wait, blocked, deferred)) == Work(live, done, wait)
  {
    hide Work;
    if deferred != [] {
      EnqueuedWork(live, done, blocked, wait, deferred[..|deferred| - 1]);
      var w := Enqueued(wait, blocked, deferred[..|deferred| - 1]);
      var e := deferred[|deferred| - 1];
      if e !in w && e !in blocked {
        WaitingIsWork(live, done, w, e);
      }
    }
  }

  /** Queueing an entity moves it from the work not yet seen to the work waiting. */
  lemma WaitingIsWork(live: set<Entity>, done: set<Entity>, wait: seq<Entity>, e: Entity)
    requires e !in wait && e !in done
    ensures Work(live, done, wait + [e]) == Work(live, done, wait)
  {
    var wait', rest := wait + [e], live - done - Elements(wait);
    assert wait'[..|wait'| - 1] == wait;
    assert Elements(wait') == Elements(wait) + {e};
    assert live - done - Elements(wait') == rest - {e};
    if e !in live {
      assert rest - {e} == rest;
    }
  }

  lemma PopWork(live: set<Entity>, done: set<Entity>, wait: seq<Entity>)
    requires wait != []
    ensures wait[0] in live ==> Work(live, done + {wait[0]}, wait[1..]) < Work(live, done, wait)
    ensures Work(live, done, wait[1..]) <= Work(live, done, wait)
  {
    var x, rest := wait[0], live - done - Elements(wait[1..]);
    LiveCountHead(live, wait);
    assert Elements(wait) == Elements(wait[1..]) + {x};
    assert live - (done + {x}) - Elements(wait[1..]) == live - done - Elements(wait) == rest - {x};
    if x in rest {
      assert rest == (rest - {x}) + {x};
    } else {
      assert rest - {x} == rest;
    }
  }

  // ---------------------------------------------------------------------------
  // What the worklist has achieved so far

  /** The mapper after cloning `sources[i]` into `targets[i]`, in order: a later clone wins. */
  function MapperOf(sources: seq<Entity>, targets: seq<Entity>): (m: Mapper)
    requires |sources| == |targets|
    ensures forall e :: e in m <==> e in sources
  {
    if sources == [] then map[]
    else
      var n := |sources| - 1;
      MapperOf(sources[..n], targets[..n])[sources[n] := targets[n]]
  }

  /** The search frontier: `done` entities are reachable and their live links are done or waiting. */
  ghost predicate Explored(w: World, roots: seq<Entity>, linked: bool, done: set<Entity>, wait: seq<Entity>) {
    && (forall r :: r in roots && r in w ==> r in done || r in wait)
    && (forall e :: e in done ==> e in w && Reachable(w, roots, linked, e))
    && (forall e :: e in wait && e in w ==> Reachable(w, roots, linked, e))
    && (forall e, c :: e in done && c in Linked(w[e], linked) && c in w ==> c in done || c in wait)
  }

  function AtLeastOne(n: nat): nat {
    if n == 0 then 1 else n
  }

  /** How often an entity has been cloned or is still waiting to be. */
  ghost predicate Tally(w: World, roots: seq<Entity>, sources: seq<Entity>, wait: seq<Entity>) {
    forall e :: e in w ==> Tallied(roots, sources, wait, e)
  }

  ghost predicate Tallied(roots: seq<Entity>, sources: seq<Entity>, wait: seq<Entity>, e: Entity) {
    Count(sources, e) + Count(wait, e) ==
    if e in sources || e in wait then AtLeastOne(Count(roots, e)) else 0
  }

  /** The world during the run: nothing old has changed, and each target holds `copy` of its source. */
  ghost predicate Holds(w0: World, issued0: set<Entity>, w1: World, sources: seq<Entity>, targets: seq<Entity>) {
    && |sources| == |targets|
    && Distinct(targets)
    && (forall i :: 0 <= i < |targets| ==> targets[i] !in issued0)
    && (forall i :: 0 <= i < |sources| ==> sources[i] in w0)
    && w1.Keys == w0.Keys + Elements(targets)
    && (forall e :: e in w0 ==> w1[e] == w0[e])
  }

  ghost predicate PlainPhase(w0: World, linked: bool, w1: World, sources: seq<Entity>, targets: seq<Entity>)
    requires |sources| == |targets|
  {
    forall i :: 0 <= i < |sources| ==>
      && sources[i] in w0 && targets[i] in w1
      && w1[targets[i]] == PlainCopies(w0[sources[i]], linked)
  }

  lemma ExploredPopDead(w: World, roots: seq<Entity>, linked: bool, done: set<Entity>, wait: seq<Entity>)
    requires wait != [] && Explored(w, roots, linked, done, wait) && wait[0] !in w
    ensures Explored(w, roots, linked, done, wait[1..])
  {
  }

  /** Popping a live `x` and queueing its links keeps the frontier; `wait'` is known by its contents only. */
  lemma ExploredPopLive(w: World, roots: seq<Entity>, linked: bool, done: set<Entity>, wait: seq<Entity>,
                        x: Entity, done': set<Entity>, wait': seq<Entity>)
    requires Explored(w, roots, linked, done, wait) && x in wait && x in w
    requires done' == done + {x}
    requires forall e :: e in wait ==> e == x || e in wait'
    requires forall e :: e in wait' ==> e in wait || e in Linked(w[x], linked)
    requires forall e :: e in Linked(w[x], linked) && e in w ==> e in wait' || e in done'
    ensures Explored(w, roots, linked, done', wait')
  {
    forall e | e in wait' && e in w ensures Reachable(w, roots, linked, e) {
      if e !in wait { LinkedIsReachable(w, roots, linked, x, e); }
    }
  }

  lemma TallyPopDead(w: World, roots: seq<Entity>, sources: seq<Entity>, wait: seq<Entity>)
    requires wait != [] && wait[0] !in w && Tally(w, roots, sources, wait)
    ensures Tally(w, roots, sources, wait[1..])
  {
    forall e | e in w ensures Tallied(roots, sources, wait[1..], e) {
      CountHead(wait, e);
    }
  }

  lemma TallyPopLive(w: World, roots: seq<Entity>, done: set<Entity>, sources: seq<Entity>, wait: seq<Entity>, deferred: seq<Entity>, blocked: set<Entity>)
    requires wait != [] && Tally(w, roots, sources, wait)
    requires forall r :: r in roots && r in w ==> r in done || r in wait
    requires forall e :: e in done <==> e in sources
    requires done + {wait[0]} <= blocked
    ensures Tally(w, roots, sources + [wait[0]], Enqueued(wait[1..], blocked, deferred))
  {
    var x, rest := wait[0], wait[1..];
    EnqueuedContents(rest, blocked, deferred);
    assert wait == [x] + rest;
    forall e | e in w ensures Tallied(roots, sources + [x], Enqueued(rest, blocked, deferred), e) {
      assert Tallied(roots, sources, wait, e);
      CountHead(wait, e);
      CountPush(sources, x, e);
      EnqueuedCount(rest, blocked, deferred, e);
    }
  }

  /** Spawning `target` as the plain copy of `source` extends the plain phase by one pair. */
  lemma PlainPhaseStep(w0: World, issued0: set<Entity>, linked: bool, w1: World, sources: seq<Entity>, targets: seq<Entity>,
                       source: Entity, target: Entity)
    requires Holds(w0, issued0, w1, sources, targets) && PlainPhase(w0, linked, w1, sources, targets)
    requires source in w0 && w0.Keys <= issued0
    requires target !in issued0 && target !in targets
    ensures var w2 := w1[target := PlainCopies(w0[source], linked)];
            && Holds(w0, issued0, w2, sources + [source], targets + [target])
            && PlainPhase(w0, linked, w2, sources + [source], targets + [target])
  {
  }

  /** The callbacks queued so far: one for each remapped column of each clone, none twice. */
  ghost predicate Queued(w0: World, linked: bool, sources: seq<Entity>, targets: seq<Entity>, callbacks: seq<Callback>)
    requires |sources| == |targets|
  {
    && Distinct(callbacks)
    && (forall cb :: cb in callbacks ==> cb.entity in targets)
    && (forall i :: 0 <= i < |sources| ==> sources[i] in w0)
    && (forall i, k :: 0 <= i < |sources| && 0 <= k ==>
          (Callback(targets[i], k) in callbacks) == (k < |w0[sources[i]]| && Remaps(w0[sources[i]][k], linked)))
  }

  lemma QueuedStep(w0: World, linked: bool, sources: seq<Entity>, targets: seq<Entity>, callbacks: seq<Callback>, source: Entity, target: Entity)
    requires |sources| == |targets| && Queued(w0, linked, sources, targets, callbacks)
    requires source in w0 && target !in targets
    ensures Queued(w0, linked, sources + [source], targets + [target], callbacks + CallbacksOf(w0[source], target, linked))
  {
    CallbacksOfAreTheRemappedColumns(w0[source], target, linked);
  }

  /** The world after the first `n` callbacks have run. */
  ghost predicate RemapPhase(w0: World, linked: bool, m: Mapper, w1: World, sources: seq<Entity>, targets: seq<Entity>, ran: seq<Callback>)
    requires |sources| == |targets|
  {
    forall i :: 0 <= i < |sources| ==>
      && sources[i] in w0 && targets[i] in w1
      && |w1[targets[i]]| == |w0[sources[i]]|
      && (forall k :: 0 <= k < |w0[sources[i]]| ==>
            w1[targets[i]][k] ==
            if Callback(targets[i], k) in ran then CloneOf(w0[sources[i]][k], linked, m)
            else PlainCopy(w0[sources[i]][k], linked))
  }

  /** Running one more callback remaps exactly its column. */
  lemma RemapStep(w0: World, issued0: set<Entity>, linked: bool, m: Mapper, w1: World, sources: seq<Entity>, targets: seq<Entity>,
                  callbacks: seq<Callback>, n: nat)
    requires Holds(w0, issued0, w1, sources, targets) && w0.Keys <= issued0
    requires Queued(w0, linked, sources, targets, callbacks) && n < |callbacks|
    requires RemapPhase(w0, linked, m, w1, sources, targets, callbacks[..n])
    ensures var cb := callbacks[n];
            && cb.entity in w1 && cb.column < |w1[cb.entity]|
            && var w2 := w1[cb.entity := Remapped(w1[cb.entity], cb.column, m)];
            && Holds(w0, issued0, w2, sources, targets)
            && RemapPhase(w0, linked, m, w2, sources, targets, callbacks[..n + 1])
  {
    var cb := callbacks[n];
    assert cb in callbacks && cb.entity in targets;
    var at :| 0 <= at < |targets| && targets[at] == cb.entity;
    assert Callback(targets[at], cb.column) in callbacks;
    assert callbacks[..n + 1] == callbacks[..n] + [cb];
    assert cb !in callbacks[..n];
    assert cb.entity in Elements(targets);
    var w2 := w1[cb.entity := Remapped(w1[cb.entity], cb.column, m)];
    assert w2.Keys == w1.Keys;
    forall i | 0 <= i < |targets|
      ensures |w2[targets[i]]| == |w0[sources[i]]|
      ensures forall k :: 0 <= k < |w0[sources[i]]| ==>
                w2[targets[i]][k] ==
                if Callback(targets[i], k) in callbacks[..n + 1] then CloneOf(w0[sources[i]][k], linked, m)
                else PlainCopy(w0[sources[i]][k], linked)
    {
      if i != at { assert targets[i] != cb.entity; }
    }
  }

  /** The effect of `map_entities` on one column. */
  function Remapped(cs: seq<Component>, column: nat, m: Mapper): seq<Component>
    requires column < |cs|
  {
    cs[column := cs[column].(refs := MapRefs(m, cs[column].refs))]
  }

  // ---------------------------------------------------------------------------
  // The result of a run

  /** Every id the world mentions has been handed out by the allocator. */
  ghost predicate Sound(w: World, issued: set<Entity>) {
    && w.Keys <= issued
    && (forall e, k, j :: e in w && 0 <= k < |w[e]| && 0 <= j < |w[e][k].refs| ==> w[e][k].refs[j] in issued)
  }

  /** What a finished run has done: `sources[i]` was cloned into `targets[i]`. */
  ghost predicate Cloned(w0: World, issued0: set<Entity>, linked: bool, roots: seq<Entity>,
                         w1: World, m: Mapper, sources: seq<Entity>, targets: seq<Entity>)
  {
    && Holds(w0, issued0, w1, sources, targets)
    && m == MapperOf(sources, targets)
    && (forall i :: 0 <= i < |sources| ==> w1[targets[i]] == Clones(w0[sources[i]], linked, m))
    && (forall e :: (e in m) == Reachable(w0, roots, linked, e))
    && (forall e :: e in m ==> Count(sources, e) == AtLeastOne(Count(roots, e)))
  }

  lemma {:induction false} LinkedIsMentioned(cs: seq<Component>, linked: bool, issued: set<Entity>)
    requires forall k, j :: 0 <= k < |cs| && 0 <= j < |cs[k].refs| ==> cs[k].refs[j] in issued
    ensures forall e :: e in Linked(cs, linked) ==> e in issued
  {
    if cs != [] {
      LinkedIsMentioned(cs[..|cs| - 1], linked, issued);
      assert cs[|cs| - 1].refs == cs[|cs| - 1].refs;
    }
  }

  lemma FinishedIsExact(w: World, roots: seq<Entity>, linked: bool, done: set<Entity>)
    requires Explored(w, roots, linked, done, [])
    ensures forall e :: (e in done) == Reachable(w, roots, linked, e)
  {
    forall e | Reachable(w, roots, linked, e) ensures e in done {
      var p :| WalkFrom(w, roots, linked, p, e);
      ClosedContainsWalk(w, roots, linked, done, p);
    }
  }

  lemma {:induction false} MapperIntoTargets(sources: seq<Entity>, targets: seq<Entity>)
    requires |sources| == |targets|
    ensures forall e :: e in MapperOf(sources, targets) ==> MapperOf(sources, targets)[e] in targets
  {
    if sources != [] {
      MapperIntoTargets(sources[..|sources| - 1], targets[..|sources| - 1]);
    }
  }

  /** Clones one list of components into `target`, calling each component's cloner in turn. */
  method CloneComponents(cs: seq<Component>, target: Entity, linked: bool)
    returns (copies: seq<Component>, deferred: seq<Entity>, callbacks: seq<Callback>)
    ensures copies == PlainCopies(cs, linked)
    ensures deferred == Linked(cs, linked)
    ensures callbacks == CallbacksOf(cs, target, linked)
  {
    copies, deferred, callbacks := [], [], [];
    for i := 0 to |cs|
      invariant copies == PlainCopies(cs[..i], linked)
      invariant deferred == Linked(cs[..i], linked)
      invariant callbacks == CallbacksOf(cs[..i], target, linked)
    {
      assert cs[..i + 1][..i] == cs[..i];
      var c := cs[i];
      match c.strategy {
        case Plain(noEntity) =>
          copies := copies + [c];
          if !noEntity {
            callbacks := callbacks + [Callback(target, i)];
          }
        case RelationshipTarget(linkedLifecycle) =>
          if linkedLifecycle {
            if linked {
              deferred := deferred + c.refs;
              copies := copies + [c];
            } else {
              copies := copies + [c.(refs := [])];
            }
          } else {
            copies := copies + [c];
          }
          callbacks := callbacks + [Callback(target, i)];
        case Relationship =>
          copies := copies + [c];
          callbacks := callbacks + [Callback(target, i)];
        case ChildrenStrategy =>
          if linked {
            copies := copies + [c];
            callbacks := callbacks + [Callback(target, i)];
          } else {
            copies := copies + [c.(refs := [])];
          }
      }
    }
    assert cs[..|cs|] == cs;
  }

  // ---------------------------------------------------------------------------
  // What a finished run means

  lemma {:induction false} MapperOfLast(sources: seq<Entity>, targets: seq<Entity>, e: Entity) returns (i: nat)
    requires |sources| == |targets| && e in sources
    ensures i < |sources| && sources[i] == e && targets[i] == MapperOf(sources, targets)[e]
    ensures e !in sources[i + 1..]
  {
    var n := |sources| - 1;
    if sources[n] == e {
      i := n;
    } else {
      assert e in sources[..n];
      i := MapperOfLast(sources[..n], targets[..n], e);
      assert sources[i + 1..] == sources[..n][i + 1..] + [sources[n]];
    }
  }

  /** The mapper sends what was cloned injectively to entities that did not exist before. */
  lemma MapperIsInjective(w0: World, issued0: set<Entity>, linked: bool, roots: seq<Entity>,
                          w1: World, m: Mapper, sources: seq<Entity>, targets: seq<Entity>)
    requires Cloned(w0, issued0, linked, roots, w1, m, sources, targets)
    ensures forall e, f :: e in m && f in m && m[e] == m[f] ==> e == f
    ensures forall e :: e in m ==> m[e] !in issued0 && m[e] in w1
  {
    forall e | e in m ensures m[e] !in issued0 && m[e] in w1 {
      var i := MapperOfLast(sources, targets, e);
      assert targets[i] in Elements(targets);
    }
    forall e, f | e in m && f in m && m[e] == m[f] ensures e == f {
      var i := MapperOfLast(sources, targets, e);
      var j := MapperOfLast(sources, targets, f);
      assert i == j;
    }
  }

  lemma ImageOfRoot(w0: World, issued0: set<Entity>, linked: bool, roots: seq<Entity>,
                    w1: World, m: Mapper, sources: seq<Entity>, targets: seq<Entity>, r: Entity)
    requires Cloned(w0, issued0, linked, roots, w1, m, sources, targets)
    requires r in roots && r in w0
    ensures r in m && m[r] !in issued0 && m[r] in w1 && w1[m[r]] == Clones(w0[r], linked, m)
  {
    RootIsReachable(w0, roots, linked, r);
    MapperIsInjective(w0, issued0, linked, roots, w1, m, sources, targets);
    var i := MapperOfLast(sources, targets, r);
  }

  /**
   What the copies hold, in both modes and for every component: the value of the source, with no
   references in a linked source set that is not followed, the same ones where the type is declared to
   hold none, and otherwise each mapped if it was cloned and kept if not.
   */
  lemma CopiesHoldTheirSource(w0: World, issued0: set<Entity>, linked: bool, roots: seq<Entity>,
                              w1: World, m: Mapper, sources: seq<Entity>, targets: seq<Entity>, i: nat, k: nat)
    requires Cloned(w0, issued0, linked, roots, w1, m, sources, targets)
    requires i < |sources| && k < |w0[sources[i]]|
    ensures |w1[targets[i]]| == |w0[sources[i]]|
    ensures var c, d := w0[sources[i]][k], w1[targets[i]][k];
            && d.strategy == c.strategy && d.payload == c.payload
            && (if !linked && (c.strategy == RelationshipTarget(true) || c.strategy == ChildrenStrategy) then
                  d.refs == []
                else if c.strategy == Plain(true) then
                  d.refs == c.refs
                else
                  && |d.refs| == |c.refs|
                  && forall j :: 0 <= j < |c.refs| ==> d.refs[j] == if c.refs[j] in m then m[c.refs[j]] else c.refs[j])
  {
    hide Reachable, Count, MapperOf;
    assert targets[i] in Elements(targets);
    assert w1[targets[i]] == Clones(w0[sources[i]], linked, m);
    assert w1[targets[i]][k] == CloneOf(w0[sources[i]][k], linked, m);
  }

  /** A component whose type is declared `NO_ENTITY` holds no entity. */
  predicate Honest(c: Component) {
    c.strategy == Plain(true) ==> c.refs == []
  }

  /**
   In linked mode the copy of the cloned part is isomorphic to the original: reference `j` of
   column `k` of the copy of `s` is the copy of `t` exactly when in the original it is `t`;
   references leaving the cloned part are unchanged.
   */
  lemma LinkedCloneIsIsomorphic(w0: World, issued0: set<Entity>, linked: bool, roots: seq<Entity>,
                                w1: World, m: Mapper, sources: seq<Entity>, targets: seq<Entity>,
                                s: Entity, k: nat, j: nat)
    requires Cloned(w0, issued0, linked, roots, w1, m, sources, targets) && Sound(w0, issued0)
    requires linked && s in m && k < |w0[s]| && j < |w0[s][k].refs| && Honest(w0[s][k])
    ensures m[s] in w1 && |w1[m[s]]| == |w0[s]|
    ensures var c, d := w0[s][k], w1[m[s]][k];
            && d.strategy == c.strategy && d.payload == c.payload && |d.refs| == |c.refs|
            && (forall t :: t in m ==> (d.refs[j] == m[t] <==> c.refs[j] == t))
            && (c.refs[j] !in m ==> d.refs[j] == c.refs[j])
  {
    MapperIsInjective(w0, issued0, linked, roots, w1, m, sources, targets);
    var i := MapperOfLast(sources, targets, s);
    var c := w0[s][k];
    assert w1[m[s]][k] == CloneOf(c, linked, m);
    assert c.refs[j] in issued0;
  }

  /** Without linking, the live inputs alone are cloned and linked source sets come out empty. */
  lemma UnlinkedCloneStopsAtTheInput(w0: World, issued0: set<Entity>, roots: seq<Entity>,
                                     w1: World, m: Mapper, sources: seq<Entity>, targets: seq<Entity>)
    requires Cloned(w0, issued0, false, roots, w1, m, sources, targets)
    ensures forall e :: e in m <==> e in roots && e in w0
    ensures forall i, k :: 0 <= i < |targets| && 0 <= k < |w0[sources[i]]|
              && (w0[sources[i]][k].strategy == RelationshipTarget(true) || w0[sources[i]][k].strategy == ChildrenStrategy)
              ==> w1[targets[i]][k].refs == []
  {
    forall e ensures Reachable(w0, roots, false, e) <==> e in roots && e in w0 {
      UnlinkedReach(w0, roots, false, e);
    }
  }

  /** When nothing defers, only the live roots are reachable. */
  lemma UnlinkedReach(w: World, roots: seq<Entity>, linked: bool, e: Entity)
    requires !linked || forall x, k :: x in w && 0 <= k < |w[x]| ==> w[x][k].strategy != RelationshipTarget(true)
    ensures Reachable(w, roots, linked, e) <==> e in roots && e in w
  {
    if e in roots && e in w {
      RootIsReachable(w, roots, linked, e);
    }
    forall p | WalkFrom(w, roots, linked, p, e) ensures e in roots && e in w {
      if |p| > 1 {
        assert Holding(w[p[0]], linked, p[1]);
      }
    }
  }

  /**
   The custom cloner of `Children` never defers: in a world linked by `Children` alone, a linked
   clone still copies only the inputs, and a copied parent lists the original children.
   */
  lemma ChildrenAreNotFollowed(w0: World, issued0: set<Entity>, linked: bool, roots: seq<Entity>,
                               w1: World, m: Mapper, sources: seq<Entity>, targets: seq<Entity>,
                               parent: Entity, k: nat, j: nat)
    requires Cloned(w0, issued0, linked, roots, w1, m, sources, targets) && Sound(w0, issued0) && linked
    requires forall x, c :: x in w0 && 0 <= c < |w0[x]| ==> w0[x][c].strategy != RelationshipTarget(true)
    requires parent in m && k < |w0[parent]| && w0[parent][k].strategy == ChildrenStrategy
    requires j < |w0[parent][k].refs| && w0[parent][k].refs[j] !in roots
    ensures forall e :: e in m <==> e in roots && e in w0
    ensures m[parent] in w1 && |w1[m[parent]]| == |w0[parent]| && j < |w1[m[parent]][k].refs|
    ensures w1[m[parent]][k].refs[j] == w0[parent][k].refs[j]
  {
    forall e ensures Reachable(w0, roots, linked, e) <==> e in roots && e in w0 {
      UnlinkedReach(w0, roots, linked, e);
    }
    LinkedCloneIsIsomorphic(w0, issued0, linked, roots, w1, m, sources, targets, parent, k, j);
  }

  lemma {:induction false} DistinctCount(s: seq<Entity>)
    ensures Distinct(s) <==> forall e :: Count(s, e) <= 1
  {
    if s != [] {
      var rest, last := s[..|s| - 1], s[|s| - 1];
      DistinctCount(rest);
      assert Distinct(s) <==> Distinct(rest) && last !in rest;
      if Distinct(s) {
        forall e ensures Count(s, e) <= 1 {
          assert Count(s, e) == Count(rest, e) + if last == e then 1 else 0;
        }
      } else if Distinct(rest) {
        assert Count(s, last) > 1;
      } else {
        var e :| Count(rest, e) > 1;
        assert Count(s, e) > 1;
      }
    }
  }

  /** Each entity is cloned at most once exactly when no live input is given twice. */
  lemma ClonedOnceUnlessGivenTwice(w0: World, issued0: set<Entity>, linked: bool, roots: seq<Entity>,
                                   w1: World, m: Mapper, sources: seq<Entity>, targets: seq<Entity>)
    requires Cloned(w0, issued0, linked, roots, w1, m, sources, targets)
    ensures Distinct(sources) <==> forall r :: r in w0 ==> Count(roots, r) <= 1
  {
    DistinctCount(sources);
    forall r | r in w0 && r in roots ensures r in m {
      RootIsReachable(w0, roots, linked, r);
    }
    forall e ensures Count(sources, e) == if e in m then AtLeastOne(Count(roots, e)) else 0 { }
    if !(forall r :: r in w0 ==> Count(roots, r) <= 1) {
      var r :| r in w0 && Count(roots, r) > 1;
      assert Count(sources, r) > 1;
    }
  }

  // ---------------------------------------------------------------------------
  // The plain phase, step by step

  /** The cloner's state between two pops. `sources` runs parallel to `cloned`. */
  datatype Progress = Progress(
    world: World, issued: set<Entity>, mapper: Mapper, cloned: seq<Entity>, wait: seq<Entity>,
    sources: seq<Entity>, callbacks: seq<Callback>)

  /** Everything the worklist keeps true between two pops. */
  ghost predicate InProgress(w0: World, issued0: set<Entity>, roots: seq<Entity>, linked: bool, s: Progress) {
    && Sound(w0, issued0)
    && Holds(w0, issued0, s.world, s.sources, s.cloned)
    && PlainPhase(w0, linked, s.world, s.sources, s.cloned)
    && Queued(w0, linked, s.sources, s.cloned, s.callbacks)
    && s.mapper == MapperOf(s.sources, s.cloned)
    && Explored(w0, roots, linked, s.mapper.Keys, s.wait)
    && Tally(w0, roots, s.sources, s.wait)
    && s.issued == issued0 + Elements(s.cloned)
  }

  /** The state after cloning the first waiting entity into `target`. */
  ghost function AfterClone(s: Progress, linked: bool, target: Entity): Progress
    requires s.wait != [] && s.wait[0] in s.world
  {
    var source := s.wait[0];
    var cs := s.world[source];
    var mapper := s.mapper[source := target];
    var cloned := s.cloned + [target];
    Progress(
      s.world[target := PlainCopies(cs, linked)], s.issued + {target}, mapper, cloned,
      Enqueued(s.wait[1..], Elements(cloned) + mapper.Keys, Linked(cs, linked)),
      s.sources + [source], s.callbacks + CallbacksOf(cs, target, linked))
  }

  lemma StartOfProgress(w0: World, issued0: set<Entity>, roots: seq<Entity>, linked: bool)
    requires Sound(w0, issued0)
    ensures InProgress(w0, issued0, roots, linked, Progress(w0, issued0, map[], [], roots, [], []))
  {
    forall r | r in roots && r in w0 ensures Reachable(w0, roots, linked, r) {
      RootIsReachable(w0, roots, linked, r);
    }
  }

  /** Skipping a dead entity: the frontier stays, the queue shrinks. */
  lemma SkipKeepsProgress(w0: World, issued0: set<Entity>, roots: seq<Entity>, linked: bool, s: Progress)
    requires InProgress(w0, issued0, roots, linked, s) && s.wait != [] && s.wait[0] !in s.world
    ensures InProgress(w0, issued0, roots, linked, s.(wait := s.wait[1..]))
  {
    ExploredPopDead(w0, roots, linked, s.mapper.Keys, s.wait);
    TallyPopDead(w0, roots, s.sources, s.wait);
  }

  /** What is blocked from the queue is, among live source entities, exactly what has been cloned. */
  lemma BlockedIsDone(w0: World, issued0: set<Entity>, m: Mapper, cloned: seq<Entity>, source: Entity, target: Entity)
    requires w0.Keys <= issued0 && target !in issued0
    requires forall i :: 0 <= i < |cloned| ==> cloned[i] !in issued0
    ensures var blocked := Elements(cloned + [target]) + m[source := target].Keys;
            && m.Keys + {source} <= blocked
            && blocked * w0.Keys <= m.Keys + {source}
  {
  }

  lemma CloneKeepsFrontier(w0: World, issued0: set<Entity>, roots: seq<Entity>, linked: bool, done: set<Entity>, wait: seq<Entity>, blocked: set<Entity>)
    requires Sound(w0, issued0) && Explored(w0, roots, linked, done, wait)
    requires wait != [] && wait[0] in w0
    requires done + {wait[0]} <= blocked && blocked * w0.Keys <= done + {wait[0]}
    ensures var wait' := Enqueued(wait[1..], blocked, Linked(w0[wait[0]], linked));
            Explored(w0, roots, linked, done + {wait[0]}, wait')
  {
    var source := wait[0];
    var deferred := Linked(w0[source], linked);
    var wait' := Enqueued(wait[1..], blocked, deferred);
    EnqueuedContents(wait[1..], blocked, deferred);
    assert wait == [source] + wait[1..];
    assert forall e :: e in deferred && e in w0 ==> e in wait' || e in blocked * w0.Keys;
    ExploredPopLive(w0, roots, linked, done, wait, source, done + {source}, wait');
  }

  lemma CloneKeepsTally(w0: World, roots: seq<Entity>, linked: bool, done: set<Entity>, sources: seq<Entity>, wait: seq<Entity>, blocked: set<Entity>)
    requires Explored(w0, roots, linked, done, wait) && Tally(w0, roots, sources, wait)
    requires forall e :: e in done <==> e in sources
    requires wait != [] && wait[0] in w0
    requires done + {wait[0]} <= blocked && blocked * w0.Keys <= done + {wait[0]}
    ensures var wait' := Enqueued(wait[1..], blocked, Linked(w0[wait[0]], linked));
            Tally(w0, roots, sources + [wait[0]], wait')
  {
    var deferred := Linked(w0[wait[0]], linked);
    TallyPopLive(w0, roots, done, sources, wait, deferred, blocked);
  }

  lemma CloneKeepsCopies(w0: World, issued0: set<Entity>, linked: bool, w1: World, sources: seq<Entity>, cloned: seq<Entity>,
                         callbacks: seq<Callback>, source: Entity, target: Entity)
    requires Holds(w0, issued0, w1, sources, cloned) && PlainPhase(w0, linked, w1, sources, cloned)
    requires Queued(w0, linked, sources, cloned, callbacks)
    requires source in w0 && w0.Keys <= issued0 && target !in issued0 && target !in Elements(cloned)
    ensures var w2 := w1[target := PlainCopies(w0[source], linked)];
            && Holds(w0, issued0, w2, sources + [source], cloned + [target])
            && PlainPhase(w0, linked, w2, sources + [source], cloned + [target])
            && Queued(w0, linked, sources + [source], cloned + [target], callbacks + CallbacksOf(w0[source], target, linked))
            && MapperOf(sources + [source], cloned + [target]) == MapperOf(sources, cloned)[source := target]
            && Elements(cloned + [target]) == Elements(cloned) + {target}
  {
    PlainPhaseStep(w0, issued0, linked, w1, sources, cloned, source, target);
    QueuedStep(w0, linked, sources, cloned, callbacks, source, target);
    assert (sources + [source])[..|sources|] == sources;
    assert (cloned + [target])[..|sources|] == cloned;
  }

  /** Cloning a live entity keeps the invariant. */
  lemma CloneKeepsProgress(w0: World, issued0: set<Entity>, roots: seq<Entity>, linked: bool, s: Progress, target: Entity)
    requires InProgress(w0, issued0, roots, linked, s) && s.wait != [] && s.wait[0] in w0
    requires target !in s.issued
    ensures InProgress(w0, issued0, roots, linked, AfterClone(s, linked, target))
  {
    hide Explored, Tally, Queued, PlainPhase, Enqueued, MapperOf;
    var s', source := AfterClone(s, linked, target), s.wait[0];
    assert s.world[source] == w0[source];
    var blocked := Elements(s'.cloned) + s'.mapper.Keys;
    assert s'.mapper.Keys == s.mapper.Keys + {source};
    BlockedIsDone(w0, issued0, s.mapper, s.cloned, source, target);
    CloneKeepsCopies(w0, issued0, linked, s.world, s.sources, s.cloned, s.callbacks, source, target);
    CloneKeepsFrontier(w0, issued0, roots, linked, s.mapper.Keys, s.wait, blocked);
    CloneKeepsTally(w0, roots, linked, s.mapper.Keys, s.sources, s.wait, blocked);
  }

  /** When the queue is empty the mapper's domain is exactly what is reachable. */
  lemma EndOfProgress(w0: World, issued0: set<Entity>, roots: seq<Entity>, linked: bool, s: Progress)
    requires InProgress(w0, issued0, roots, linked, s) && s.wait == []
    ensures forall e :: (e in s.mapper) == Reachable(w0, roots, linked, e)
    ensures forall e :: e in s.mapper ==> Count(s.sources, e) == AtLeastOne(Count(roots, e))
  {
    hide Sound, PlainPhase, Queued, Explored, Reachable, Elements;
    FinishedIsExact(w0, roots, linked, s.mapper.Keys);
    forall e | e in s.mapper ensures Count(s.sources, e) == AtLeastOne(Count(roots, e)) {
      assert Tallied(roots, s.sources, s.wait, e);
    }
  }

  // ---------------------------------------------------------------------------
  // What holds whatever the inputs are

  /** Every reference in the world is among `ids`. */
  ghost predicate Mentions(w: World, ids: set<Entity>) {
    forall e, k, j :: e in w && 0 <= k < |w[e]| && 0 <= j < |w[e][k].refs| ==> w[e][k].refs[j] in ids
  }

  ghost predicate Runnable(w: World, callbacks: seq<Callback>) {
    forall cb :: cb in callbacks ==> cb.entity in w && cb.column < |w[cb.entity]|
  }

  /** `known` are the ids handed out before the run and the inputs, which may be ids never handed out. */
  ghost predicate Afloat(w0: World, issued0: set<Entity>, known: set<Entity>, s: Progress) {
    && issued0 <= known && w0.Keys <= issued0
    && s.world.Keys == w0.Keys + Elements(s.cloned)
    && s.issued == issued0 + Elements(s.cloned)
    && (forall e :: e in s.cloned ==> e !in issued0)
    && |s.sources| == |s.cloned| && s.mapper == MapperOf(s.sources, s.cloned)
    && (forall e :: e in s.wait ==> e in known)
    && Mentions(s.world, issued0)
    && Runnable(s.world, s.callbacks)
  }

  /** The entities that can be alive when they are taken off the queue. */
  function Universe(w0: World, issued0: set<Entity>, known: set<Entity>): set<Entity> {
    w0.Keys + (known - issued0)
  }

  lemma StartAfloat(w0: World, issued0: set<Entity>, roots: seq<Entity>)
    requires Sound(w0, issued0)
    ensures Afloat(w0, issued0, issued0 + Elements(roots), Progress(w0, issued0, map[], [], roots, [], []))
  {
  }

  lemma SkipStaysAfloat(w0: World, issued0: set<Entity>, known: set<Entity>, s: Progress)
    requires Afloat(w0, issued0, known, s) && s.wait != []
    ensures Afloat(w0, issued0, known, s.(wait := s.wait[1..]))
    ensures var live := Universe(w0, issued0, known);
            Work(live, s.mapper.Keys, s.wait[1..]) <= Work(live, s.mapper.Keys, s.wait)
  {
    PopWork(Universe(w0, issued0, known), s.mapper.Keys, s.wait);
  }

  /** A copy mentions nothing its source does not mention, and the queue grows by what it mentions. */
  lemma CopyMentionsNoMore(w: World, ids: set<Entity>, source: Entity, target: Entity, linked: bool)
    requires Mentions(w, ids) && source in w
    ensures Mentions(w[target := PlainCopies(w[source], linked)], ids)
    ensures forall e :: e in Linked(w[source], linked) ==> e in ids
  {
    var w': World := w[target := PlainCopies(w[source], linked)];
    forall e, k, j | e in w' && 0 <= k < |w'[e]| && 0 <= j < |w'[e][k].refs| ensures w'[e][k].refs[j] in ids {
      if e == target {
        assert w'[e][k] == PlainCopy(w[source][k], linked);
        assert w[source][k].refs[j] in ids;
      }
    }
    LinkedIsMentioned(w[source], linked, ids);
  }

  lemma CallbacksStayRunnable(w: World, callbacks: seq<Callback>, source: Entity, target: Entity, linked: bool)
    requires Runnable(w, callbacks) && source in w && target !in w
    ensures Runnable(w[target := PlainCopies(w[source], linked)], callbacks + CallbacksOf(w[source], target, linked))
  {
    CallbacksOfAreTheRemappedColumns(w[source], target, linked);
  }

  lemma MapperPush(sources: seq<Entity>, targets: seq<Entity>, source: Entity, target: Entity)
    requires |sources| == |targets|
    ensures MapperOf(sources + [source], targets + [target]) == MapperOf(sources, targets)[source := target]
  {
    assert (sources + [source])[..|sources|] == sources && (targets + [target])[..|sources|] == targets;
  }

  /** Cloning whatever is alive keeps the run afloat and reduces the work left. */
  lemma CloneStaysAfloat(w0: World, issued0: set<Entity>, known: set<Entity>, linked: bool, s: Progress, target: Entity)
    requires Afloat(w0, issued0, known, s) && s.wait != [] && s.wait[0] in s.world && target !in s.issued
    ensures Afloat(w0, issued0, known, AfterClone(s, linked, target))
    ensures var live, s' := Universe(w0, issued0, known), AfterClone(s, linked, target);
            Work(live, s'.mapper.Keys, s'.wait) < Work(live, s.mapper.Keys, s.wait)
  {
    hide Mentions, Runnable, Work, Enqueued, PlainCopies, CallbacksOf, Linked, MapperOf;
    MapperPush(s.sources, s.cloned, s.wait[0], target);
    var source, s' := s.wait[0], AfterClone(s, linked, target);
    var blocked := Elements(s'.cloned) + s'.mapper.Keys;
    CopyMentionsNoMore(s.world, issued0, source, target, linked);
    CallbacksStayRunnable(s.world, s.callbacks, source, target, linked);
    EnqueuedContents(s.wait[1..], blocked, Linked(s.world[source], linked));
    assert source in s.wait;
    assert s'.mapper.Keys == s.mapper.Keys + {source};
    PopWork(Universe(w0, issued0, known), s.mapper.Keys, s.wait);
    EnqueuedWork(Universe(w0, issued0, known), s'.mapper.Keys, blocked, s.wait[1..], Linked(s.world[source], linked));
  }

  /** Running a callback keeps the references within what has been handed out. */
  lemma RemapMentions(w: World, issued: set<Entity>, m: Mapper, cb: Callback)
    requires Mentions(w, issued) && cb.entity in w && cb.column < |w[cb.entity]|
    requires forall e :: e in m ==> m[e] in issued
    ensures Mentions(w[cb.entity := Remapped(w[cb.entity], cb.column, m)], issued)
  {
    var w': World := w[cb.entity := Remapped(w[cb.entity], cb.column, m)];
    forall e, k, j | e in w' && 0 <= k < |w'[e]| && 0 <= j < |w'[e][k].refs| ensures w'[e][k].refs[j] in issued {
      if e == cb.entity && k == cb.column {
        assert w[e][k].refs[j] in issued;
      }
    }
  }

  // ---------------------------------------------------------------------------
  // Inputs that are ids the run hands out

  /** When its turn comes, the input at `p` is an id that was handed out to the clone of one before it. */
  predicate CollidesAt(w0: World, next: Entity, roots: seq<Entity>, p: nat)
    requires p < |roots|
  {
    next <= roots[p] < next + LiveCount(w0.Keys, roots[..p])
  }

  /**
   Some input is the id that a clone gets before that input's turn: clones get the ids from `next` on,
   one for each live input before it. This can be seen before the run.
   */
  ghost predicate Collides(w0: World, next: Entity, roots: seq<Entity>) {
    exists p :: 0 <= p < |roots| && CollidesAt(w0, next, roots, p)
  }

  ghost predicate ClearUpTo(w0: World, next: Entity, roots: seq<Entity>, p: nat) {
    forall q :: 0 <= q < p && q < |roots| ==> !CollidesAt(w0, next, roots, q)
  }

  /** The queue is the inputs from `p` on, then deferred entities; the clones have consecutive ids. */
  ghost predicate Lined(issued0: set<Entity>, next: Entity, roots: seq<Entity>, p: nat, s: Progress) {
    && p <= |roots| && roots[p..] <= s.wait
    && (forall k :: |roots| - p <= k < |s.wait| ==> s.wait[k] in issued0)
    && (forall i :: 0 <= i < |s.cloned| ==> s.cloned[i] == next + i)
  }

  /** A clone was itself cloned, since its id was also an input. */
  ghost predicate Strayed(w0: World, roots: seq<Entity>, sources: seq<Entity>, targets: seq<Entity>) {
    exists i, j :: 0 <= j < i < |sources| && i < |targets| && sources[i] == targets[j]
                   && sources[i] in roots && sources[i] !in w0
  }

  /** Up to the first collision the run goes by its invariant; from then on it has strayed. */
  ghost predicate OnTrack(w0: World, issued0: set<Entity>, next: Entity, roots: seq<Entity>, linked: bool, p: nat, s: Progress) {
    && Lined(issued0, next, roots, p, s)
    && (ClearUpTo(w0, next, roots, p) ==>
          InProgress(w0, issued0, roots, linked, s) && (p < |roots| ==> |s.cloned| == LiveCount(w0.Keys, roots[..p])))
    && (!ClearUpTo(w0, next, roots, p) ==> Strayed(w0, roots, s.sources, s.cloned))
  }

  function Passed(roots: seq<Entity>, p: nat): nat {
    if p < |roots| then p + 1 else p
  }

  lemma {:induction false} EnqueuedKeepsOrder(wait: seq<Entity>, done: set<Entity>, deferred: seq<Entity>)
    ensures wait <= Enqueued(wait, done, deferred)
    ensures forall k :: |wait| <= k < |Enqueued(wait, done, deferred)| ==> Enqueued(wait, done, deferred)[k] in deferred
  {
    if deferred != [] {
      EnqueuedKeepsOrder(wait, done, deferred[..|deferred| - 1]);
    }
  }

  lemma SkipStaysLined(issued0: set<Entity>, next: Entity, roots: seq<Entity>, p: nat, s: Progress)
    requires Lined(issued0, next, roots, p, s) && s.wait != []
    ensures p < |roots| ==> s.wait[0] == roots[p]
    ensures p == |roots| ==> s.wait[0] in issued0
    ensures Lined(issued0, next, roots, Passed(roots, p), s.(wait := s.wait[1..]))
  {
    if p < |roots| {
      assert roots[p..][0] == roots[p] && roots[p..][1..] == roots[p + 1..];
    }
  }

  lemma CloneStaysLined(issued0: set<Entity>, next: Entity, roots: seq<Entity>, linked: bool, p: nat, s: Progress)
    requires Lined(issued0, next, roots, p, s) && s.wait != [] && s.wait[0] in s.world
    requires forall e :: e in Linked(s.world[s.wait[0]], linked) ==> e in issued0
    ensures Lined(issued0, next, roots, Passed(roots, p), AfterClone(s, linked, next + |s.cloned|))
  {
    hide Enqueued;
    var target := next + |s.cloned|;
    SkipStaysLined(issued0, next, roots, p, s);
    EnqueuedKeepsOrder(s.wait[1..], Elements(s.cloned + [target]) + s.mapper[s.wait[0] := target].Keys,
                       Linked(s.world[s.wait[0]], linked));
  }

  /** What is alive when its turn comes is an old entity, or an input that has become a clone. */
  lemma AliveAtItsTurn(w0: World, issued0: set<Entity>, known: set<Entity>, next: Entity, roots: seq<Entity>, p: nat, s: Progress)
    requires Afloat(w0, issued0, known, s) && Lined(issued0, next, roots, p, s) && s.wait != []
    requires forall e :: e in issued0 ==> e < next
    requires p < |roots| ==> |s.cloned| == LiveCount(w0.Keys, roots[..p])
    ensures s.wait[0] in s.world <==> s.wait[0] in w0 || (p < |roots| && CollidesAt(w0, next, roots, p))
    ensures s.wait[0] in w0 ==> !(p < |roots| && CollidesAt(w0, next, roots, p))
  {
    hide Mentions, Runnable, MapperOf;
    SkipStaysLined(issued0, next, roots, p, s);
    if p < |roots| && CollidesAt(w0, next, roots, p) {
      assert s.cloned[roots[p] - next] == roots[p];
    }
  }

  lemma ClearOneMore(w0: World, next: Entity, roots: seq<Entity>, p: nat)
    ensures ClearUpTo(w0, next, roots, Passed(roots, p))
            <==> ClearUpTo(w0, next, roots, p) && !(p < |roots| && CollidesAt(w0, next, roots, p))
    ensures p < |roots| ==> LiveCount(w0.Keys, roots[..p + 1]) == LiveCount(w0.Keys, roots[..p]) + if roots[p] in w0 then 1 else 0
  {
    if p < |roots| {
      assert roots[..p + 1][..p] == roots[..p];
    }
  }

  lemma StartOnTrack(w0: World, issued0: set<Entity>, next: Entity, roots: seq<Entity>, linked: bool)
    requires Sound(w0, issued0)
    ensures OnTrack(w0, issued0, next, roots, linked, 0, Progress(w0, issued0, map[], [], roots, [], []))
  {
    hide InProgress;
    StartOfProgress(w0, issued0, roots, linked);
    assert roots[0..] == roots && roots[..0] == [];
  }

  lemma SkipStaysOnTrack(w0: World, issued0: set<Entity>, known: set<Entity>, next: Entity, roots: seq<Entity>, linked: bool, p: nat, s: Progress)
    requires Afloat(w0, issued0, known, s) && OnTrack(w0, issued0, next, roots, linked, p, s)
    requires s.wait != [] && s.wait[0] !in s.world && forall e :: e in issued0 ==> e < next
    ensures OnTrack(w0, issued0, next, roots, linked, Passed(roots, p), s.(wait := s.wait[1..]))
  {
    hide Afloat, InProgress, CollidesAt, ClearUpTo, Lined, Strayed;
    LinedFacts(issued0, next, roots, p, s);
    SkipStaysLined(issued0, next, roots, p, s);
    ClearOneMore(w0, next, roots, p);
    if ClearUpTo(w0, next, roots, p) {
      AliveAtItsTurn(w0, issued0, known, next, roots, p, s);
      SkipKeepsProgress(w0, issued0, roots, linked, s);
    }
  }

  lemma LinedFacts(issued0: set<Entity>, next: Entity, roots: seq<Entity>, p: nat, s: Progress)
    requires Lined(issued0, next, roots, p, s)
    ensures p <= |roots|
  {
  }

  lemma StraysOnceMore(w0: World, roots: seq<Entity>, sources: seq<Entity>, targets: seq<Entity>, x: Entity, y: Entity)
    requires Strayed(w0, roots, sources, targets)
    ensures Strayed(w0, roots, sources + [x], targets + [y])
  {
    var i, j :| 0 <= j < i < |sources| && i < |targets| && sources[i] == targets[j]
                && sources[i] in roots && sources[i] !in w0;
    assert (sources + [x])[i] == (targets + [y])[j];
  }

  /** Cloning an input that has become a clone is straying. */
  lemma CollisionStrays(w0: World, issued0: set<Entity>, known: set<Entity>, next: Entity, roots: seq<Entity>, p: nat, s: Progress, target: Entity)
    requires Afloat(w0, issued0, known, s) && Lined(issued0, next, roots, p, s) && s.wait != []
    requires forall e :: e in issued0 ==> e < next
    requires p < |roots| && |s.cloned| == LiveCount(w0.Keys, roots[..p]) && CollidesAt(w0, next, roots, p)
    ensures Strayed(w0, roots, s.sources + [s.wait[0]], s.cloned + [target])
  {
    hide Mentions, Runnable, MapperOf;
    SkipStaysLined(issued0, next, roots, p, s);
    var j := roots[p] - next;
    assert s.cloned[j] == roots[p] && roots[p] in roots;
    assert (s.sources + [s.wait[0]])[|s.sources|] == (s.cloned + [target])[j];
  }

  lemma CloneStaysOnTrack(w0: World, issued0: set<Entity>, known: set<Entity>, next: Entity, roots: seq<Entity>, linked: bool, p: nat, s: Progress)
    requires Afloat(w0, issued0, known, s) && OnTrack(w0, issued0, next, roots, linked, p, s)
    requires s.wait != [] && s.wait[0] in s.world && forall e :: e in issued0 ==> e < next
    requires next + |s.cloned| !in s.issued
    ensures OnTrack(w0, issued0, next, roots, linked, Passed(roots, p), AfterClone(s, linked, next + |s.cloned|))
  {
    hide InProgress, CollidesAt, ClearUpTo, Lined, Strayed, Mentions, Runnable, Linked;
    var target := next + |s.cloned|;
    LinedFacts(issued0, next, roots, p, s);
    SkipStaysLined(issued0, next, roots, p, s);
    CopyMentionsNoMore(s.world, issued0, s.wait[0], target, linked);
    CloneStaysLined(issued0, next, roots, linked, p, s);
    ClearOneMore(w0, next, roots, p);
    if !ClearUpTo(w0, next, roots, p) {
      StraysOnceMore(w0, roots, s.sources, s.cloned, s.wait[0], target);
    } else {
      AliveAtItsTurn(w0, issued0, known, next, roots, p, s);
      if p < |roots| && CollidesAt(w0, next, roots, p) {
        CollisionStrays(w0, issued0, known, next, roots, p, s, target);
      } else {
        CloneKeepsProgress(w0, issued0, roots, linked, s, target);
      }
    }
  }

  /** At the end of the queue all inputs have had their turn. */
  lemma EndOnTrack(w0: World, issued0: set<Entity>, next: Entity, roots: seq<Entity>, linked: bool, p: nat, s: Progress)
    requires OnTrack(w0, issued0, next, roots, linked, p, s) && s.wait == []
    ensures !Collides(w0, next, roots) ==> InProgress(w0, issued0, roots, linked, s)
    ensures Collides(w0, next, roots) ==> Strayed(w0, roots, s.sources, s.cloned)
    ensures Distinct(s.cloned)
  {
    hide InProgress, CollidesAt, Strayed;
    assert p == |roots|;
  }

  /** A clone that was cloned as an input does not come back unchanged, although it was not alive before. */
  lemma StrayComesBackChanged(w0: World, roots: seq<Entity>, sources: seq<Entity>, targets: seq<Entity>) returns (p: nat)
    requires |sources| == |targets| && Distinct(targets) && Strayed(w0, roots, sources, targets)
    ensures p < |roots| && roots[p] !in w0 && Image(MapperOf(sources, targets), roots[p]) != roots[p]
  {
    var i, j :| 0 <= j < i < |sources| && i < |targets| && sources[i] == targets[j]
                && sources[i] in roots && sources[i] !in w0;
    var t := sources[i];
    p :| 0 <= p < |roots| && roots[p] == t;
    var k := MapperOfLast(sources, targets, t);
    forall x | k < x < |sources| ensures sources[x] != t {
      assert sources[k + 1..][x - k - 1] == sources[x];
    }
  }

  lemma ReadyForCallbacks(w0: World, issued0: set<Entity>, roots: seq<Entity>, linked: bool, s: Progress)
    requires InProgress(w0, issued0, roots, linked, s)
    ensures Sound(w0, issued0) && Holds(w0, issued0, s.world, s.sources, s.cloned)
    ensures |s.sources| == |s.cloned| && PlainPhase(w0, linked, s.world, s.sources, s.cloned)
    ensures Queued(w0, linked, s.sources, s.cloned, s.callbacks)
  {
    hide Sound, PlainPhase, Queued, Explored, Tally;
  }

  /** With the queue empty and every copy remapped, the run has done what it is for. */
  lemma FinishedRun(w0: World, issued0: set<Entity>, linked: bool, roots: seq<Entity>, s: Progress, w1: World)
    requires InProgress(w0, issued0, roots, linked, s) && s.wait == []
    requires Holds(w0, issued0, w1, s.sources, s.cloned)
    requires forall i :: 0 <= i < |s.sources| ==> w1[s.cloned[i]] == Clones(w0[s.sources[i]], linked, s.mapper)
    ensures Cloned(w0, issued0, linked, roots, w1, s.mapper, s.sources, s.cloned)
  {
    hide Sound, PlainPhase, Queued, Explored, Tally, Reachable, Clones, Count;
    EndOfProgress(w0, issued0, roots, linked, s);
  }

  lemma StrayIsNotCloned(w0: World, issued0: set<Entity>, linked: bool, roots: seq<Entity>,
                         w1: World, m: Mapper, sources: seq<Entity>, targets: seq<Entity>)
    requires Strayed(w0, roots, sources, targets)
    ensures !Cloned(w0, issued0, linked, roots, w1, m, sources, targets)
  {
    var i, j :| 0 <= j < i < |sources| && i < |targets| && sources[i] == targets[j]
                && sources[i] in roots && sources[i] !in w0;
    assert sources[i] !in w0;
  }

  lemma BatchIsExpected(w0: World, issued0: set<Entity>, linked: bool, entities: seq<Entity>,
                        w1: World, m: Mapper, sources: seq<Entity>, targets: seq<Entity>)
    requires Cloned(w0, issued0, linked, entities, w1, m, sources, targets)
    ensures EntityCloner.Expected(w0, issued0, linked, entities, w1, m, MapRefs(m, entities))
  {
    forall i | 0 <= i < |entities| && entities[i] in w0
      ensures entities[i] in m && m[entities[i]] !in issued0 && m[entities[i]] in w1
      ensures w1[m[entities[i]]] == Clones(w0[entities[i]], linked, m)
    {
      ImageOfRoot(w0, issued0, linked, entities, w1, m, sources, targets, entities[i]);
    }
    forall i | 0 <= i < |entities| && entities[i] !in w0 ensures entities[i] !in m {
      MappedAreOld(w0, issued0, linked, entities, w1, m, sources, targets, entities[i]);
    }
  }

  lemma MappedAreOld(w0: World, issued0: set<Entity>, linked: bool, roots: seq<Entity>,
                     w1: World, m: Mapper, sources: seq<Entity>, targets: seq<Entity>, e: Entity)
    requires Cloned(w0, issued0, linked, roots, w1, m, sources, targets)
    ensures e in m ==> e in w0
  {
    hide Reachable;
  }

  lemma MentionsMore(w: World, issued: set<Entity>, known: set<Entity>)
    requires Mentions(w, issued) && issued <= known
    ensures Mentions(w, known)
  {
  }

  lemma MentionsIsSound(w: World, issued: set<Entity>)
    requires Mentions(w, issued) && w.Keys <= issued
    ensures Sound(w, issued)
  {
  }

  lemma StartOfRemapping(w0: World, known: set<Entity>, linked: bool, m: Mapper, w1: World, sources: seq<Entity>, targets: seq<Entity>)
    requires Holds(w0, known, w1, sources, targets) && PlainPhase(w0, linked, w1, sources, targets)
    ensures |sources| == |targets| && RemapPhase(w0, linked, m, w1, sources, targets, [])
  {
  }

  /** When all callbacks have run, every copy is the remapped copy of its source. */
  lemma EndOfRemapping(w0: World, known: set<Entity>, linked: bool, m: Mapper, w1: World, sources: seq<Entity>, targets: seq<Entity>, callbacks: seq<Callback>)
    requires Holds(w0, known, w1, sources, targets) && Queued(w0, linked, sources, targets, callbacks)
    requires RemapPhase(w0, linked, m, w1, sources, targets, callbacks)
    ensures forall i :: 0 <= i < |sources| ==>
              sources[i] in w0 && targets[i] in w1 && w1[targets[i]] == Clones(w0[sources[i]], linked, m)
  {
    forall i | 0 <= i < |sources| ensures w1[targets[i]] == Clones(w0[sources[i]], linked, m) {
      forall k | 0 <= k < |w0[sources[i]]| ensures w1[targets[i]][k] == CloneOf(w0[sources[i]][k], linked, m) {
        assert (Callback(targets[i], k) in callbacks) == Remaps(w0[sources[i]][k], linked);
      }
    }
  }

  class EntityCloner {
    var world: World
    var next: Entity
    ghost var issued: set<Entity>
    var mapper: Mapper
    var cloned: seq<Entity>
    var wait: seq<Entity>

    ghost predicate Valid()
      reads this
    {
      Sound(world, issued) && forall e :: e in issued ==> e < next
    }

    ghost predicate Idle()
      reads this
    {
      mapper == map[] && cloned == [] && wait == []
    }

    /** The world's allocator hands out an id nobody has seen. */
    method SpawnUninit() returns (target: Entity)
      requires forall e :: e in issued ==> e < next
      modifies this`next, this`issued
      ensures target == old(next) && next == old(next) + 1
      ensures target !in old(issued) && issued == old(issued) + {target}
      ensures forall e :: e in issued ==> e < next
    {
      target := next;
      next := next + 1;
      issued := issued + {target};
    }

    /** Drains the deferred list of one clone step into the queue. */
    method DrainDeferred(deferred: seq<Entity>)
      modifies this`wait
      ensures wait == Enqueued(old(wait), Elements(cloned) + mapper.Keys, deferred)
    {
      for i := 0 to |deferred|
        invariant wait == Enqueued(old(wait), Elements(cloned) + mapper.Keys, deferred[..i])
      {
        assert deferred[..i + 1][..i] == deferred[..i];
        var e := deferred[i];
        if e !in wait && e !in cloned && e !in mapper {
          wait := wait + [e];
        }
      }
      assert deferred[..|deferred|] == deferred;
    }

    /**
     Runs the deferred remapping callbacks in the order they were queued. `clean` says that the plain
     phase went by its invariant.
     */
    method RunCallbacks(callbacks: seq<Callback>, linked: bool,
                        ghost clean: bool, ghost w0: World, ghost known: set<Entity>, ghost sources: seq<Entity>)
      requires Runnable(world, callbacks) && Mentions(world, issued)
      requires forall e :: e in mapper ==> mapper[e] in issued
      requires clean ==> Sound(w0, known) && Holds(w0, known, world, sources, cloned)
      requires clean ==> PlainPhase(w0, linked, world, sources, cloned)
      requires clean ==> Queued(w0, linked, sources, cloned, callbacks)
      modifies this`world
      ensures world.Keys == old(world).Keys && Mentions(world, issued)
      ensures clean ==> Holds(w0, known, world, sources, cloned)
      ensures clean ==> forall i :: 0 <= i < |sources| ==> world[cloned[i]] == Clones(w0[sources[i]], linked, mapper)
    {
      hide Mentions, Holds, Queued;
      if clean {
        StartOfRemapping(w0, known, linked, mapper, world, sources, cloned);
      }
      for n := 0 to |callbacks|
        invariant world.Keys == old(world).Keys && Runnable(world, callbacks) && Mentions(world, issued)
        invariant clean ==> Holds(w0, known, world, sources, cloned)
        invariant clean ==> |sources| == |cloned| && RemapPhase(w0, linked, mapper, world, sources, cloned, callbacks[..n])
      {
        if clean {
          RemapStep(w0, known, linked, mapper, world, sources, cloned, callbacks, n);
        }
        var cb := callbacks[n];
        RemapMentions(world, issued, mapper, cb);
        world := world[cb.entity := Remapped(world[cb.entity], cb.column, mapper)];
      }
      assert callbacks[..|callbacks|] == callbacks;
      if clean {
        EndOfRemapping(w0, known, linked, mapper, world, sources, cloned, callbacks);
      }
    }

    ghost function State(sources: seq<Entity>, callbacks: seq<Callback>): Progress
      reads this
    {
      Progress(world, issued, mapper, cloned, wait, sources, callbacks)
    }

    /** One iteration of the worklist on a live source. */
    method CloneNext(linked: bool, callbacks: seq<Callback>, ghost sources: seq<Entity>)
      returns (callbacks': seq<Callback>, ghost target: Entity)
      requires wait != [] && wait[0] in world
      requires forall e :: e in issued ==> e < next
      modifies this
      ensures target == old(next) && next == old(next) + 1
      ensures target !in old(issued) && forall e :: e in issued ==> e < next
      ensures State(sources + [old(wait)[0]], callbacks') == AfterClone(old(State(sources, callbacks)), linked, target)
    {
      var source := wait[0];
      wait := wait[1..];
      var spawned := SpawnUninit();
      target := spawned;
      var copies, deferred, added := CloneComponents(world[source], spawned, linked);
      world := world[spawned := copies];
      callbacks' := callbacks + added;
      mapper := mapper[source := spawned];
      cloned := cloned + [spawned];
      DrainDeferred(deferred);
    }

    /**
     The plain phase: clones until nothing is waiting. It ends for all inputs; it goes by its invariant
     if no input collides with the ids handed out, and strays if one does.
     */
    method ClonePlain(linked: bool) returns (callbacks: seq<Callback>, ghost sources: seq<Entity>)
      requires Valid() && mapper == map[] && cloned == []
      modifies this
      ensures wait == [] && forall e :: e in issued ==> e < next
      ensures Afloat(old(world), old(issued), old(issued) + Elements(old(wait)), State(sources, callbacks))
      ensures !Collides(old(world), old(next), old(wait)) ==>
                InProgress(old(world), old(issued), old(wait), linked, State(sources, callbacks))
      ensures Collides(old(world), old(next), old(wait)) ==> Strayed(old(world), old(wait), sources, cloned)
      ensures Distinct(cloned)
    {
      hide InProgress, Sound, Work, Afloat, Collides, Strayed, OnTrack, Distinct;
      ghost var w0, issued0, next0, roots := world, issued, next, wait;
      ghost var known := issued + Elements(wait);
      ghost var p := 0;
      callbacks, sources := [], [];
      StartOnTrack(w0, issued0, next0, roots, linked);
      StartAfloat(w0, issued0, roots);
      while wait != []
        invariant Afloat(w0, issued0, known, State(sources, callbacks))
        invariant OnTrack(w0, issued0, next0, roots, linked, p, State(sources, callbacks))
        invariant next == next0 + |cloned| && forall e :: e in issued ==> e < next
        decreases Work(Universe(w0, issued0, known), mapper.Keys, wait), |wait|
      {
        ghost var before := State(sources, callbacks);
        if wait[0] in world {
          ghost var source := wait[0];
          ghost var target;
          callbacks, target := CloneNext(linked, callbacks, sources);
          sources := sources + [source];
          CloneStaysAfloat(w0, issued0, known, linked, before, target);
          CloneStaysOnTrack(w0, issued0, known, next0, roots, linked, p, before);
        } else {
          SkipStaysAfloat(w0, issued0, known, before);
          SkipStaysOnTrack(w0, issued0, known, next0, roots, linked, p, before);
          wait := wait[1..];
        }
        p := Passed(roots, p);
      }
      EndOnTrack(w0, issued0, next0, roots, linked, p, State(sources, callbacks));
    }

    /**
     The clone run over the entities waiting in `wait`, whatever they are. `sources` and `targets` list
     the clones made, in order; `m` is the mapper just before it is cleared. The run does what it is for
     if and only if no input collides with the ids it hands out.
     */
    method Run(linked: bool) returns (output: seq<Entity>, ghost m: Mapper, ghost sources: seq<Entity>, ghost targets: seq<Entity>)
      requires Valid() && mapper == map[] && cloned == []
      modifies this
      ensures Valid() && Idle()
      ensures issued == old(issued) + Elements(targets)
      ensures |sources| == |targets| && Distinct(targets) && m == MapperOf(sources, targets)
      ensures Cloned(old(world), old(issued), linked, old(wait), world, m, sources, targets)
              <==> !Collides(old(world), old(next), old(wait))
      ensures Collides(old(world), old(next), old(wait)) ==> Strayed(old(world), old(wait), sources, targets)
      ensures output == MapRefs(m, old(wait))
    {
      hide InProgress, Cloned, Holds, Queued, PlainPhase, Mentions, Runnable, Clones, Collides, Strayed, Distinct, MapperOf;
      output := wait;
      ghost var w0, issued0, roots := world, issued, wait;
      ghost var clean := !Collides(world, next, wait);
      var callbacks;
      callbacks, sources := ClonePlain(linked);
      ghost var plain := State(sources, callbacks);
      if clean {
        ReadyForCallbacks(w0, issued0, roots, linked, plain);
      }
      targets, m := cloned, mapper;
      MentionsMore(world, issued0, issued);
      MapperIntoTargets(sources, cloned);
      RunCallbacks(callbacks, linked, clean, w0, issued0, sources);
      MentionsIsSound(world, issued);
      if clean {
        FinishedRun(w0, issued0, linked, roots, plain, world);
      } else {
        StrayIsNotCloned(w0, issued0, linked, roots, world, m, sources, targets);
      }
      output := MapAll(output);
      mapper, cloned, wait := map[], [], [];
    }

    /** What a caller of `spawn_clone_batch` expects at every position. */
    static ghost predicate Expected(w0: World, issued0: set<Entity>, linked: bool, entities: seq<Entity>, w1: World, m: Mapper, output: seq<Entity>)
      requires |output| == |entities|
    {
      forall i :: 0 <= i < |entities| ==>
        if entities[i] in w0
        then output[i] !in issued0 && output[i] in w1 && w1[output[i]] == Clones(w0[entities[i]], linked, m)
        else output[i] == entities[i]
    }

    /**
     `spawn_clone_batch`: position by position, inputs that are not alive come back unchanged and live
     ones as copies that did not exist before, if and only if no input collides with the ids handed out.
     */
    method SpawnCloneBatch(entities: seq<Entity>, linked: bool)
      returns (output: seq<Entity>, ghost m: Mapper, ghost sources: seq<Entity>, ghost targets: seq<Entity>)
      requires Valid() && Idle()
      modifies this
      ensures Valid() && Idle() && |output| == |entities|
      ensures issued == old(issued) + Elements(targets)
      ensures Cloned(old(world), old(issued), linked, entities, world, m, sources, targets)
              <==> !Collides(old(world), old(next), entities)
      ensures Expected(old(world), old(issued), linked, entities, world, m, output)
              <==> !Collides(old(world), old(next), entities)
    {
      hide Sound, Collides, Strayed, Cloned;
      wait := wait + entities;
      assert wait == entities;
      ghost var w0, issued0, next0 := world, issued, next;
      output, m, sources, targets := Run(linked);
      if Collides(w0, next0, entities) {
        ghost var p := StrayComesBackChanged(w0, entities, sources, targets);
        assert output[p] != entities[p];
      } else {
        BatchIsExpected(w0, issued0, linked, entities, world, m, sources, targets);
      }
    }

    /** Replaces each explicitly cloned entity by its image. */
    method MapAll(entities: seq<Entity>) returns (images: seq<Entity>)
      ensures images == MapRefs(mapper, entities)
    {
      images := entities;
      for i := 0 to |images|
        invariant |images| == |entities|
        invariant forall k :: 0 <= k < |images| ==> images[k] == if k < i then Image(mapper, entities[k]) else entities[k]
      {
        images := images[i := Image(mapper, images[i])];
      }
    }
  }
}
