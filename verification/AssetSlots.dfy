/**
 Model of the generational asset slots of voker-asset: the lock-free index allocator
 (`ident.rs`) and the slot table (`AssetTable` in `assets.rs`).

 Threads reserve indices by atomic steps while the one owner of the table flushes, inserts and
 removes; all steps interleave. `latest` and `issued` are history: no step reads them.
 */
module AssetSlots {

  datatype Option<T> = None | Some(value: T)

  /** The payload of an asset. */
  type Asset = int
  type ThreadId = nat

  datatype AssetIndex = AssetIndex(index: nat, generation: nat)

  datatype Entry = Entry(value: Option<Asset>, generation: nat)

  const MAX_ASSET_INDEX: nat := 0x7FFF_FFFF
  const MAX_GENERATION: nat := 0xFFFF_FFFF

  /** Where a thread stands inside `reserve`. */
  datatype Reserver =
    | Holding(id: AssetIndex)   // popped a recycled index and bumped it; about to push it
    | PopFailed                 // found nothing to reuse; about to fetch a new index

  /** An operation of the table that starts with a flush. */
  datatype TableOp =
    | Insert(id: AssetIndex, asset: Asset)
    | RemoveStillAlive(id: AssetIndex)
    | RemoveAndRecycle(id: AssetIndex)

  datatype TableResult =
    | Inserted | Replaced
    | SlotOccupied(current: nat) | SlotRemoved                // `InvalidAssetGeneration`
    | Taken(value: Option<Asset>)                     // what a removal returns

  datatype Slots = Slots(
    next: nat,
    recycledQueue: seq<AssetIndex>,
    recycled: seq<AssetIndex>,
    reservers: map<ThreadId, Reserver>,
    storage: seq<Option<Entry>>,
    len: nat,
    op: Option<TableOp>,        // the table operation in progress, if any
    drained: bool,              // its flush has found `recycled` empty
    latest: seq<nat>,           // the last generation issued for each slot
    issued: seq<AssetIndex>)    // every index `reserve` has returned, in order

  datatype Action =
    | Pop(t: ThreadId)
    | Push(t: ThreadId)
    | FetchAdd(t: ThreadId)
    | BeginOp(op: TableOp)      // load `next_index` and resize
    | FlushPop                  // pop one entry of `recycled`
    | FlushEmpty                // find `recycled` empty: the flush is over
    | FinishOp                  // do the operation

  // ---------------------------------------------------------------------------
  // The table operations on flushed storage

  predicate Stores(storage: seq<Option<Entry>>, id: AssetIndex) {
    id.index < |storage| && storage[id.index].Some? && storage[id.index].value.generation == id.generation
  }

  /** `AssetTable::get`. */
  function Get(storage: seq<Option<Entry>>, id: AssetIndex): Option<Asset> {
    if Stores(storage, id) then storage[id.index].value.value else None
  }

  function ResultOf(storage: seq<Option<Entry>>, op: TableOp): TableResult
    requires op.id.index < |storage|
  {
    match op
    case Insert(id, _) =>
      if storage[id.index].None? then SlotRemoved
      else if !Stores(storage, id) then SlotOccupied(storage[id.index].value.generation)
      else if Get(storage, id).None? then Inserted else Replaced
    case _ => Taken(Get(storage, op.id))
  }

  function StorageAfter(storage: seq<Option<Entry>>, op: TableOp): seq<Option<Entry>>
    requires op.id.index < |storage|
  {
    if !Stores(storage, op.id) then storage
    else match op
      case Insert(id, asset) => storage[id.index := Some(Entry(Some(asset), id.generation))]
      case RemoveStillAlive(id) => storage[id.index := Some(Entry(None, id.generation))]
      case RemoveAndRecycle(id) => storage[id.index := None]
  }

  function LenAfter(storage: seq<Option<Entry>>, len: nat, op: TableOp): int
    requires op.id.index < |storage|
  {
    if !Stores(storage, op.id) then len
    else match op
      case Insert(id, _) => if Get(storage, id).None? then len + 1 else len
      case _ => if Get(storage, op.id).Some? then len - 1 else len
  }

  /** Number of stored values. */
  function Stored(storage: seq<Option<Entry>>): nat {
    if storage == [] then 0
    else
      var last := storage[|storage| - 1];
      Stored(storage[..|storage| - 1]) + if last.Some? && last.value.value.Some? then 1 else 0
  }

  function Bumped(id: AssetIndex): AssetIndex {
    AssetIndex(id.index, id.generation + 1)
  }

  /** `resize_with` to `n` default entries. */
  function Resized(storage: seq<Option<Entry>>, n: nat): (r: seq<Option<Entry>>)
    ensures |r| == n
    ensures forall i :: 0 <= i < n && i < |storage| ==> r[i] == storage[i]
    ensures forall i :: |storage| <= i < n ==> r[i] == Some(Entry(None, 0))
  {
    if |storage| < n then storage + seq(n - |storage|, _ => Some(Entry(None, 0))) else storage[..n]
  }

  // ---------------------------------------------------------------------------
  // Steps

  predicate Enabled(s: Slots, a: Action) {
    match a
    case Pop(t) =>
      t !in s.reservers && (s.recycledQueue != [] ==> s.recycledQueue[0].generation < MAX_GENERATION)
    case Push(t) => t in s.reservers && s.reservers[t].Holding? && s.reservers[t].id.index < |s.latest|
    case FetchAdd(t) => t in s.reservers && s.reservers[t].PopFailed? && s.next <= MAX_ASSET_INDEX
    case BeginOp(op) => s.op.None? && op.id.index < s.next
    case FlushPop => s.op.Some? && !s.drained && s.recycled != [] && s.recycled[0].index < |s.storage|
    case FlushEmpty => s.op.Some? && !s.drained && s.recycled == []
    case FinishOp =>
      && s.op.Some? && s.drained && s.op.value.id.index < |s.storage|
      && LenAfter(s.storage, s.len, s.op.value) >= 0
  }

  function Step(s: Slots, a: Action): Slots
    requires Enabled(s, a)
  {
    match a
    case Pop(t) =>
      if s.recycledQueue == [] then s.(reservers := s.reservers[t := PopFailed])
      else s.(recycledQueue := s.recycledQueue[1..], reservers := s.reservers[t := Holding(Bumped(s.recycledQueue[0]))])
    case Push(t) =>
      var id := s.reservers[t].id;
      s.(recycled := s.recycled + [id], reservers := s.reservers - {t},
         latest := s.latest[id.index := id.generation], issued := s.issued + [id])
    case FetchAdd(t) =>
      s.(next := s.next + 1, reservers := s.reservers - {t},
         latest := s.latest + [0], issued := s.issued + [AssetIndex(s.next, 0)])
    case BeginOp(op) => s.(op := Some(op), storage := Resized(s.storage, s.next))
    case FlushPop =>
      var r := s.recycled[0];
      s.(recycled := s.recycled[1..], storage := s.storage[r.index := Some(Entry(None, r.generation))])
    case FlushEmpty => s.(drained := true)
    case FinishOp =>
      var op := s.op.value;
      s.(op := None, drained := false, storage := StorageAfter(s.storage, op), len := LenAfter(s.storage, s.len, op),
         recycledQueue := if op.RemoveAndRecycle? && Stores(s.storage, op.id) then s.recycledQueue + [op.id] else s.recycledQueue)
  }

  /** The index the step makes `reserve` return, if any. */
  function Returns(s: Slots, a: Action): Option<AssetIndex>
    requires Enabled(s, a)
  {
    match a
    case Push(t) => Some(s.reservers[t].id)
    case FetchAdd(_) => Some(AssetIndex(s.next, 0))
    case _ => None
  }

  // ---------------------------------------------------------------------------
  // The invariant

  predicate DistinctSlots(q: seq<AssetIndex>) {
    forall i, j :: 0 <= i < j < |q| ==> q[i].index != q[j].index
  }

  predicate Free(storage: seq<Option<Entry>>, i: nat) {
    i < |storage| && storage[i].None?
  }

  /** A reserver has taken slot `i` out of the recycled queue and not given it back yet. */
  predicate Held(s: Slots, t: ThreadId, i: nat) {
    t in s.reservers && s.reservers[t].Holding? && s.reservers[t].id.index == i
  }

  ghost predicate HeldBySome(s: Slots, i: nat) {
    exists t :: Held(s, t, i)
  }

  predicate InQueue(q: seq<AssetIndex>, i: nat) {
    exists k :: 0 <= k < |q| && q[k].index == i
  }

  /** A slot is in at most one place, at most once. */
  ghost predicate Exclusive(s: Slots) {
    && DistinctSlots(s.recycledQueue) && DistinctSlots(s.recycled)
    && (forall i :: InQueue(s.recycledQueue, i) ==> !InQueue(s.recycled, i))
    && (forall t, i :: Held(s, t, i) ==> !InQueue(s.recycledQueue, i) && !InQueue(s.recycled, i))
    && (forall t, u, i :: Held(s, t, i) && Held(s, u, i) ==> t == u)
  }

  /** What is out of the table is free in the table, and nothing free is lost. */
  ghost predicate Accounted(s: Slots) {
    && |s.storage| <= s.next
    && (forall i :: InQueue(s.recycledQueue, i) || InQueue(s.recycled, i) ==> Free(s.storage, i))
    && (forall t, i :: Held(s, t, i) ==> Free(s.storage, i))
    && (forall i :: Free(s.storage, i) ==> InQueue(s.recycledQueue, i) || InQueue(s.recycled, i) || HeldBySome(s, i))
  }

  /** Generations: each slot's current generation is the last one issued. */
  ghost predicate Dated(s: Slots) {
    && |s.latest| == s.next
    && (forall i :: 0 <= i < |s.storage| <= s.next && s.storage[i].Some? ==> s.storage[i].value.generation == s.latest[i])
    && (forall i :: |s.storage| <= i < s.next ==> s.latest[i] == 0)
    && (forall k :: 0 <= k < |s.recycledQueue| ==> IsLatest(s.latest, s.recycledQueue[k]))
    && (forall k :: 0 <= k < |s.recycled| ==> IsLatest(s.latest, s.recycled[k]))
    && (forall t :: t in s.reservers && s.reservers[t].Holding? ==> IsNext(s.latest, s.reservers[t].id))
  }

  predicate IsLatest(latest: seq<nat>, id: AssetIndex) {
    id.index < |latest| && id.generation == latest[id.index]
  }

  predicate IsNext(latest: seq<nat>, id: AssetIndex) {
    id.index < |latest| && id.generation == latest[id.index] + 1
  }

  predicate Distinct(q: seq<AssetIndex>) {
    forall i, j :: 0 <= i < j < |q| ==> q[i] != q[j]
  }

  /** The indices returned so far are distinct and no newer than the latest generation. */
  ghost predicate Unrepeated(s: Slots) {
    && Distinct(s.issued)
    && (forall k :: 0 <= k < |s.issued| ==> s.issued[k].index < s.next)
    && (forall k :: 0 <= k < |s.issued| && s.issued[k].index < |s.latest| ==>
          s.issued[k].generation <= s.latest[s.issued[k].index])
    && (forall i :: 0 <= i < |s.latest| ==> AssetIndex(i, s.latest[i]) in s.issued)
  }

  ghost predicate Inv(s: Slots) {
    && Exclusive(s) && Accounted(s) && Dated(s) && Unrepeated(s)
    && s.len == Stored(s.storage)
    && (s.op.Some? ==> s.op.value.id.index < |s.storage|)
    && (s.op.None? ==> !s.drained)
  }

  // ---------------------------------------------------------------------------
  // Every step keeps the invariant

  lemma InTail(q: seq<AssetIndex>)
    requires q != [] && DistinctSlots(q)
    ensures forall i :: InQueue(q[1..], i) <==> InQueue(q, i) && i != q[0].index
    ensures DistinctSlots(q[1..])
  {
    forall i | InQueue(q, i) && i != q[0].index ensures InQueue(q[1..], i) {
      var k :| 0 <= k < |q| && q[k].index == i;
      assert q[1..][k - 1] == q[k];
    }
  }

  lemma InAppended(q: seq<AssetIndex>, x: AssetIndex)
    ensures forall i :: InQueue(q + [x], i) <==> InQueue(q, i) || i == x.index
    ensures DistinctSlots(q) && !InQueue(q, x.index) ==> DistinctSlots(q + [x])
  {
    assert (q + [x])[|q|] == x;
    forall i | InQueue(q, i) ensures InQueue(q + [x], i) {
      var k :| 0 <= k < |q| && q[k].index == i;
      assert (q + [x])[k] == q[k];
    }
  }

  lemma PopKeepsInv(s: Slots, t: ThreadId)
    requires Inv(s) && Enabled(s, Pop(t))
    ensures Inv(Step(s, Pop(t)))
  {
    hide Exclusive, Accounted, Dated, Unrepeated;
    PopKeepsPlaces(s, t);
    PopKeepsDates(s, t);
  }

  lemma PopKeepsDates(s: Slots, t: ThreadId)
    requires Dated(s) && Unrepeated(s) && Enabled(s, Pop(t))
    ensures Dated(Step(s, Pop(t))) && Unrepeated(Step(s, Pop(t)))
  {
    hide Distinct;
    assert s.recycledQueue != [] ==> IsLatest(s.latest, s.recycledQueue[0]);
  }

  lemma PopKeepsPlaces(s: Slots, t: ThreadId)
    requires Exclusive(s) && Accounted(s) && Enabled(s, Pop(t))
    ensures Exclusive(Step(s, Pop(t))) && Accounted(Step(s, Pop(t)))
  {
    hide DistinctSlots;
    var s' := Step(s, Pop(t));
    if s.recycledQueue != [] {
      var x := s.recycledQueue[0];
      InTail(s.recycledQueue);
      assert InQueue(s.recycledQueue, x.index);
      assert Held(s', t, x.index);
      assert forall u, i :: u != t ==> Held(s', u, i) == Held(s, u, i);
      assert forall i :: HeldBySome(s, i) ==> HeldBySome(s', i);
    } else {
      assert forall u, i :: Held(s', u, i) == Held(s, u, i);
      assert forall i :: HeldBySome(s, i) ==> HeldBySome(s', i);
    }
  }

  lemma PushKeepsInv(s: Slots, t: ThreadId)
    requires Inv(s) && Enabled(s, Push(t))
    ensures Inv(Step(s, Push(t)))
  {
    hide Exclusive, Accounted, Dated, Unrepeated;
    PushKeepsPlaces(s, t);
    PushKeepsDates(s, t);
    PushKeepsUnrepeated(s, t);
  }

  lemma PushKeepsUnrepeated(s: Slots, t: ThreadId)
    requires Dated(s) && Unrepeated(s) && Enabled(s, Push(t))
    ensures Unrepeated(Step(s, Push(t)))
  {
    var s', id := Step(s, Push(t)), s.reservers[t].id;
    assert IsNext(s.latest, id);
    assert s'.issued[|s.issued|] == id;
    forall i | 0 <= i < |s'.latest| ensures AssetIndex(i, s'.latest[i]) in s'.issued {
      if i != id.index {
        assert AssetIndex(i, s.latest[i]) in s.issued;
      }
    }
  }

  lemma PushKeepsPlaces(s: Slots, t: ThreadId)
    requires Exclusive(s) && Accounted(s) && Enabled(s, Push(t))
    ensures Exclusive(Step(s, Push(t))) && Accounted(Step(s, Push(t)))
  {
    hide InQueue, DistinctSlots;
    var s', id := Step(s, Push(t)), s.reservers[t].id;
    assert Held(s, t, id.index);
    InAppended(s.recycled, id);
    assert forall u, i :: u != t ==> Held(s', u, i) == Held(s, u, i);
    forall i | HeldBySome(s, i) && i != id.index ensures HeldBySome(s', i) {
      var u :| Held(s, u, i);
      assert Held(s', u, i);
    }
  }

  /** Slots that are somewhere else are not the one the thread holds, so their generations stand. */
  lemma PushKeepsDates(s: Slots, t: ThreadId)
    requires Exclusive(s) && Accounted(s) && Dated(s) && Enabled(s, Push(t))
    ensures Dated(Step(s, Push(t)))
  {
    var s', id := Step(s, Push(t)), s.reservers[t].id;
    assert Held(s, t, id.index);
    forall u | u in s'.reservers && s'.reservers[u].Holding? ensures s.reservers[u].id.index != id.index {
      assert Held(s, u, s.reservers[u].id.index);
    }
    forall k | 0 <= k < |s.recycled| ensures s.recycled[k].index != id.index {
      assert InQueue(s.recycled, s.recycled[k].index);
    }
    forall k | 0 <= k < |s.recycledQueue| ensures s.recycledQueue[k].index != id.index {
      assert InQueue(s.recycledQueue, s.recycledQueue[k].index);
    }
  }

  lemma FetchAddKeepsInv(s: Slots, t: ThreadId)
    requires Inv(s) && Enabled(s, FetchAdd(t))
    ensures Inv(Step(s, FetchAdd(t)))
  {
    hide Exclusive, Unrepeated, InQueue;
    FetchAddKeepsPlaces(s, t);
    FetchAddKeepsDates(s, t);
    FetchAddKeepsUnrepeated(s, t);
  }

  lemma FetchAddKeepsUnrepeated(s: Slots, t: ThreadId)
    requires |s.latest| == s.next && Unrepeated(s) && Enabled(s, FetchAdd(t))
    ensures Unrepeated(Step(s, FetchAdd(t)))
  {
    var s' := Step(s, FetchAdd(t));
    assert s'.issued[|s.issued|] == AssetIndex(s.next, 0);
  }

  lemma FetchAddKeepsPlaces(s: Slots, t: ThreadId)
    requires Exclusive(s) && Accounted(s) && Enabled(s, FetchAdd(t))
    ensures Exclusive(Step(s, FetchAdd(t))) && Accounted(Step(s, FetchAdd(t)))
  {
    hide InQueue, DistinctSlots;
    var s' := Step(s, FetchAdd(t));
    assert forall u, i :: Held(s', u, i) == Held(s, u, i);
    assert forall i :: HeldBySome(s, i) ==> HeldBySome(s', i);
  }

  lemma FetchAddKeepsDates(s: Slots, t: ThreadId)
    requires |s.storage| <= s.next && Dated(s) && Enabled(s, FetchAdd(t))
    ensures Dated(Step(s, FetchAdd(t)))
  {
  }

  lemma BeginOpKeepsInv(s: Slots, op: TableOp)
    requires Inv(s) && Enabled(s, BeginOp(op))
    ensures Inv(Step(s, BeginOp(op)))
  {
    var s' := Step(s, BeginOp(op));
    assert forall u, i :: Held(s', u, i) == Held(s, u, i);
    assert forall i :: HeldBySome(s, i) ==> HeldBySome(s', i);
    ResizedStored(s.storage, s.next);
  }

  lemma FlushPopKeepsInv(s: Slots)
    requires Inv(s) && Enabled(s, FlushPop)
    ensures Inv(Step(s, FlushPop))
  {
    hide Exclusive, Dated, Unrepeated;
    var r := s.recycled[0];
    FlushPopKeepsPlaces(s);
    FlushPopKeepsDates(s);
    assert InQueue(s.recycled, r.index);
    UpdateStored(s.storage, r.index, Some(Entry(None, r.generation)));
  }

  lemma FlushPopKeepsPlaces(s: Slots)
    requires Exclusive(s) && Accounted(s) && Enabled(s, FlushPop)
    ensures Exclusive(Step(s, FlushPop)) && Accounted(Step(s, FlushPop))
  {
    hide DistinctSlots;
    var s', r := Step(s, FlushPop), s.recycled[0];
    InTail(s.recycled);
    assert InQueue(s.recycled, r.index);
    assert forall u, i :: Held(s', u, i) == Held(s, u, i);
    assert forall i :: HeldBySome(s, i) ==> HeldBySome(s', i);
  }

  lemma FlushPopKeepsDates(s: Slots)
    requires Dated(s) && Unrepeated(s) && Enabled(s, FlushPop)
    ensures Dated(Step(s, FlushPop)) && Unrepeated(Step(s, FlushPop))
  {
    hide Distinct;
    assert IsLatest(s.latest, s.recycled[0]);
  }

  lemma FlushEmptyKeepsInv(s: Slots)
    requires Inv(s) && Enabled(s, FlushEmpty)
    ensures Inv(Step(s, FlushEmpty))
  {
    var s' := Step(s, FlushEmpty);
    assert forall u, i :: Held(s', u, i) == Held(s, u, i);
    assert forall i :: HeldBySome(s, i) ==> HeldBySome(s', i);
  }

  lemma FinishOpKeepsInv(s: Slots)
    requires Inv(s) && Enabled(s, FinishOp)
    ensures Inv(Step(s, FinishOp))
  {
    hide Exclusive, Dated, Unrepeated, InQueue;
    FinishOpKeepsPlaces(s);
    FinishOpKeepsDates(s);
    if Stores(s.storage, s.op.value.id) {
      UpdateStored(s.storage, s.op.value.id.index, Step(s, FinishOp).storage[s.op.value.id.index]);
    }
  }

  lemma FinishOpKeepsPlaces(s: Slots)
    requires Exclusive(s) && Accounted(s) && Enabled(s, FinishOp)
    ensures Exclusive(Step(s, FinishOp)) && Accounted(Step(s, FinishOp))
  {
    hide InQueue, DistinctSlots;
    var s', op := Step(s, FinishOp), s.op.value;
    assert forall u, i :: Held(s', u, i) == Held(s, u, i);
    assert forall i :: HeldBySome(s, i) <==> HeldBySome(s', i);
    if Stores(s.storage, op.id) {
      assert !Free(s.storage, op.id.index);
      InAppended(s.recycledQueue, op.id);
    }
  }

  lemma FinishOpKeepsDates(s: Slots)
    requires |s.storage| <= s.next && Dated(s) && Unrepeated(s) && Enabled(s, FinishOp)
    ensures Dated(Step(s, FinishOp)) && Unrepeated(Step(s, FinishOp))
  {
    hide Get;
    var s', op := Step(s, FinishOp), s.op.value;
    if Stores(s.storage, op.id) {
      assert IsLatest(s.latest, op.id);
    }
  }

  predicate HasValue(e: Option<Entry>) {
    e.Some? && e.value.value.Some?
  }

  lemma {:induction false} UpdateStored(storage: seq<Option<Entry>>, i: nat, e: Option<Entry>)
    requires i < |storage|
    ensures Stored(storage[i := e]) + (if HasValue(storage[i]) then 1 else 0)
            == Stored(storage) + if HasValue(e) then 1 else 0
  {
    var n := |storage| - 1;
    if i < n {
      UpdateStored(storage[..n], i, e);
      assert storage[i := e][..n] == storage[..n][i := e];
    } else {
      assert storage[i := e][..n] == storage[..n];
    }
  }

  lemma {:induction false} ResizedStored(storage: seq<Option<Entry>>, n: nat)
    requires |storage| <= n
    ensures Stored(Resized(storage, n)) == Stored(storage)
    decreases n
  {
    if |storage| < n {
      ResizedStored(storage, n - 1);
      assert Resized(storage, n)[..n - 1] == Resized(storage, n - 1);
    } else {
      assert Resized(storage, n) == storage;
    }
  }

  lemma StepKeepsInv(s: Slots, a: Action)
    requires Inv(s) && Enabled(s, a)
    ensures Inv(Step(s, a))
  {
    hide Inv;
    match a
    case Pop(t) => PopKeepsInv(s, t);
    case Push(t) => PushKeepsInv(s, t);
    case FetchAdd(t) => FetchAddKeepsInv(s, t);
    case BeginOp(op) => BeginOpKeepsInv(s, op);
    case FlushPop => FlushPopKeepsInv(s);
    case FlushEmpty => FlushEmptyKeepsInv(s);
    case FinishOp => FinishOpKeepsInv(s);
  }

  /** An operation in progress can always take its next step: no index is out of bounds, `len` never underflows. */
  lemma OperationsNeverPanic(s: Slots)
    requires Inv(s)
    ensures s.op.Some? && !s.drained ==> Enabled(s, if s.recycled == [] then FlushEmpty else FlushPop)
    ensures s.op.Some? && s.drained ==> Enabled(s, FinishOp)
    ensures forall t :: t in s.reservers && s.reservers[t].Holding? ==> Enabled(s, Push(t))
  {
    if s.op.Some? && s.recycled != [] {
      assert InQueue(s.recycled, s.recycled[0].index);
    }
    if s.op.Some? && Stores(s.storage, s.op.value.id) {
      UpdateStored(s.storage, s.op.value.id.index, None);
    }
  }

  // ---------------------------------------------------------------------------
  // What the invariant means

  /** The index has been returned by `reserve` and its slot has not been recycled since. */
  ghost predicate Active(s: Slots, id: AssetIndex) {
    IsLatest(s.latest, id) && !InQueue(s.recycledQueue, id.index) && !HeldBySome(s, id.index)
  }

  function One(b: bool): nat {
    if b then 1 else 0
  }

  /** Every allocated slot is in exactly one of five places. */
  lemma SlotIsInOnePlace(s: Slots, i: nat)
    requires Inv(s) && i < s.next
    ensures One(i < |s.storage| && s.storage[i].Some?) + One(InQueue(s.recycledQueue, i)) + One(InQueue(s.recycled, i))
            + (if HeldBySome(s, i) then 1 else 0) + One(i >= |s.storage|) == 1
  {
    hide InQueue, DistinctSlots, Dated, Unrepeated, Stored;
    if HeldBySome(s, i) {
      var t :| Held(s, t, i);
      assert Free(s.storage, i);
    }
  }

  /** A flush step writes only where the table holds nothing. */
  lemma FlushNeverOverwrites(s: Slots)
    requires Inv(s) && Enabled(s, FlushPop)
    ensures s.storage[s.recycled[0].index].None?
    ensures forall id :: Get(s.storage, id).Some? ==> Get(Step(s, FlushPop).storage, id) == Get(s.storage, id)
  {
    assert InQueue(s.recycled, s.recycled[0].index);
  }

  /** What the table stores are the active indices, but for those that wait in `recycled` for a flush. */
  lemma StoredExactlyWhenFlushed(s: Slots, id: AssetIndex)
    requires Inv(s) && id.index < |s.storage|
    ensures Stores(s.storage, id) <==> Active(s, id) && id !in s.recycled
  {
    if Active(s, id) && id !in s.recycled {
      forall k | 0 <= k < |s.recycled| ensures s.recycled[k].index != id.index {
        assert s.recycled[k] in s.recycled && IsLatest(s.latest, s.recycled[k]);
      }
      assert !InQueue(s.recycled, id.index);
      assert !Free(s.storage, id.index);
    }
    forall k | 0 <= k < |s.recycled| ensures Free(s.storage, s.recycled[k].index) {
      assert InQueue(s.recycled, s.recycled[k].index);
    }
  }

  /** The operation in progress is on an index that had been returned before it began. */
  ghost predicate Known(s: Slots) {
    s.op.Some? ==> s.op.value.id in s.issued && (s.drained ==> s.op.value.id !in s.recycled)
  }

  /** No reservation that slips in after the flush can put the operation's own index into `recycled`. */
  lemma StepKeepsKnown(s: Slots, a: Action)
    requires Inv(s) && Known(s) && Enabled(s, a) && (a.BeginOp? ==> a.op.id in s.issued)
    ensures Known(Step(s, a))
  {
    if a.Push? {
      ReturnedIsActive(s, a);
    }
    if s.op.Some? {
      var k :| 0 <= k < |s.issued| && s.issued[k] == s.op.value.id;
      assert Step(s, a).issued[k] == s.op.value.id;
    }
  }

  /**
   An operation on an index that had been returned before it began is accepted exactly when the index
   is active, whatever was reserved during its flush and since.
   */
  lemma AcceptedExactlyWhenActive(s: Slots)
    requires Inv(s) && Known(s) && Enabled(s, FinishOp)
    ensures var op := s.op.value;
            && (Active(s, op.id) <==> Stores(s.storage, op.id))
            && (op.Insert? ==> (Active(s, op.id) <==> ResultOf(s.storage, op).Inserted? || ResultOf(s.storage, op).Replaced?))
            && (!Active(s, op.id) && !op.Insert? ==> ResultOf(s.storage, op) == Taken(None))
  {
    hide Inv;
    StoredExactlyWhenFlushed(s, s.op.value.id);
  }

  /** `get`, which does not flush, finds values of active indices only. */
  lemma StoredIsActive(s: Slots, id: AssetIndex)
    requires Inv(s) && Stores(s.storage, id)
    ensures Active(s, id)
  {
  }

  lemma ActiveIsIssued(s: Slots, id: AssetIndex)
    requires Inv(s) && Active(s, id)
    ensures id in s.issued
  {
  }

  /** The index a reservation returns is active from then on. */
  lemma ReturnedIsActive(s: Slots, a: Action)
    requires Inv(s) && Enabled(s, a) && Returns(s, a).Some?
    ensures Active(Step(s, a), Returns(s, a).value)
    ensures Returns(s, a).value !in s.issued
  {
    var s', id := Step(s, a), Returns(s, a).value;
    StepKeepsInv(s, a);
    if a.Push? {
      assert Held(s, a.t, id.index);
    } else {
      assert !Free(s.storage, id.index);
      assert !Held(s, a.t, id.index);
    }
  }

  /** An active index stays active until exactly it is removed and recycled. */
  lemma ActiveUntilRecycled(s: Slots, a: Action, id: AssetIndex)
    requires Inv(s) && Enabled(s, a) && Active(s, id)
    ensures Active(Step(s, a), id) <==> !(a.FinishOp? && s.op.value == RemoveAndRecycle(id) && id !in s.recycled)
  {
    var s' := Step(s, a);
    match a
    case Pop(t) =>
      if s.recycledQueue != [] {
        assert InQueue(s.recycledQueue, s.recycledQueue[0].index);
        InTail(s.recycledQueue);
      }
      forall u ensures !Held(s', u, id.index) { assert !Held(s, u, id.index); }
    case Push(t) =>
      assert Held(s, t, s.reservers[t].id.index);
      forall u ensures !Held(s', u, id.index) { assert !Held(s, u, id.index); }
    case FinishOp =>
      forall u ensures !Held(s', u, id.index) { assert !Held(s, u, id.index); }
      StoredExactlyWhenFlushed(s, s.op.value.id);
      InAppended(s.recycledQueue, s.op.value.id);
    case _ =>
      forall u ensures !Held(s', u, id.index) { assert !Held(s, u, id.index); }
  }

  /** Once an issued index is no longer active it never is again. */
  lemma RetiredForever(s: Slots, a: Action, id: AssetIndex)
    requires Inv(s) && Enabled(s, a) && id in s.issued && !Active(s, id)
    ensures id in Step(s, a).issued && !Active(Step(s, a), id)
  {
    hide Accounted, Stored, Distinct;
    var s' := Step(s, a);
    var k :| 0 <= k < |s.issued| && s.issued[k] == id;
    assert s'.issued[k] == id;
    if IsLatest(s.latest, id) {
      if HeldBySome(s, id.index) {
        var u :| Held(s, u, id.index);
        if a != Push(u) { assert Held(s', u, id.index); }
      } else if a.Pop? {
        InTail(s.recycledQueue);
        assert s.recycledQueue[0].index == id.index ==> Held(s', a.t, id.index);
      } else if a.Push? {
        assert Held(s, a.t, s.reservers[a.t].id.index);
      } else if a.FinishOp? {
        InAppended(s.recycledQueue, s.op.value.id);
      }
    } else if a.Push? {
      assert Held(s, a.t, s.reservers[a.t].id.index);
    }
  }

  // ---------------------------------------------------------------------------
  // Runs

  const EMPTY := Slots(0, [], [], map[], [], 0, None, false, [], [])

  predicate IsRun(s: Slots, run: seq<Action>)
    decreases |run|
  {
    run == [] || (Enabled(s, run[0]) && IsRun(Step(s, run[0]), run[1..]))
  }

  function Exec(s: Slots, run: seq<Action>): Slots
    requires IsRun(s, run)
    decreases |run|
  {
    if run == [] then s else Exec(Step(s, run[0]), run[1..])
  }

  lemma {:induction false} RunKeepsInv(s: Slots, run: seq<Action>)
    requires Inv(s) && IsRun(s, run)
    ensures Inv(Exec(s, run))
    decreases |run|
  {
    hide Inv;
    if run != [] {
      StepKeepsInv(s, run[0]);
      RunKeepsInv(Step(s, run[0]), run[1..]);
    }
  }

  lemma EmptyIsSound()
    ensures Inv(EMPTY)
  {
  }

  /**
   In every interleaving of reservations and table operations, no (index, generation) pair is
   returned twice and `len` is the number of stored values.
   */
  lemma NoIndexIsIssuedTwice(run: seq<Action>)
    requires IsRun(EMPTY, run)
    ensures Inv(Exec(EMPTY, run))
    ensures Distinct(Exec(EMPTY, run).issued)
    ensures Exec(EMPTY, run).len == Stored(Exec(EMPTY, run).storage)
  {
    EmptyIsSound();
    RunKeepsInv(EMPTY, run);
  }

  /** Over any run, a retired index stays retired. */
  lemma {:induction false} RetiredOverRuns(s: Slots, run: seq<Action>, id: AssetIndex)
    requires Inv(s) && IsRun(s, run) && id in s.issued && !Active(s, id)
    ensures !Active(Exec(s, run), id) && Get(Exec(s, run).storage, id).None?
    decreases |run|
  {
    hide Active;
    if run != [] {
      StepKeepsInv(s, run[0]);
      RetiredForever(s, run[0], id);
      RetiredOverRuns(Step(s, run[0]), run[1..], id);
    } else if Stores(s.storage, id) {
      StoredIsActive(s, id);
    }
  }

  // ---------------------------------------------------------------------------
  // Whole calls

  /** Storage after popping everything in `recycled`. */
  function Drained(storage: seq<Option<Entry>>, recycled: seq<AssetIndex>): (r: seq<Option<Entry>>)
    requires forall k :: 0 <= k < |recycled| ==> recycled[k].index < |storage|
    ensures |r| == |storage|
    decreases |recycled|
  {
    if recycled == [] then storage
    else Drained(storage[recycled[0].index := Some(Entry(None, recycled[0].generation))], recycled[1..])
  }

  predicate Callable(s: Slots) {
    s.op.None? && forall k :: 0 <= k < |s.recycled| ==> s.recycled[k].index < s.next
  }

  /** `flush`: resize, then drain `recycled`. */
  function Flushed(s: Slots): (r: seq<Option<Entry>>)
    requires Callable(s)
    ensures |r| == s.next
  {
    Drained(Resized(s.storage, s.next), s.recycled)
  }

  predicate CanCall(s: Slots, op: TableOp) {
    Callable(s) && op.id.index < s.next && LenAfter(Flushed(s), s.len, op) >= 0
  }

  /** A table operation with no other step in between. */
  function Call(s: Slots, op: TableOp): Slots
    requires CanCall(s, op)
  {
    var storage := Flushed(s);
    s.(recycled := [], storage := StorageAfter(storage, op), len := LenAfter(storage, s.len, op),
       recycledQueue := if op.RemoveAndRecycle? && Stores(storage, op.id) then s.recycledQueue + [op.id] else s.recycledQueue)
  }

  /** The steps of an undisturbed call. */
  function CallRun(op: TableOp, pops: nat): seq<Action> {
    [BeginOp(op)] + seq(pops, _ => FlushPop) + [FlushEmpty, FinishOp]
  }

  /** Draining step by step is `Drained`. */
  lemma {:induction false} DrainRun(s: Slots)
    requires Inv(s) && s.op.Some? && !s.drained
    requires forall k :: 0 <= k < |s.recycled| ==> s.recycled[k].index < |s.storage|
    ensures var run := seq(|s.recycled|, _ => FlushPop);
            && IsRun(s, run)
            && Exec(s, run) == s.(recycled := [], storage := Drained(s.storage, s.recycled))
    decreases |s.recycled|
  {
    hide Inv;
    var run := seq(|s.recycled|, _ => FlushPop);
    if s.recycled != [] {
      var s1 := Step(s, FlushPop);
      StepKeepsInv(s, FlushPop);
      DrainRun(s1);
      assert run[1..] == seq(|s1.recycled|, _ => FlushPop);
    }
  }

  lemma {:induction false} ExecAppend(s: Slots, run: seq<Action>, a: Action)
    requires IsRun(s, run) && Enabled(Exec(s, run), a)
    ensures IsRun(s, run + [a]) && Exec(s, run + [a]) == Step(Exec(s, run), a)
    decreases |run|
  {
    if run == [] {
      assert [a][1..] == [];
    } else {
      ExecAppend(Step(s, run[0]), run[1..], a);
      assert (run + [a])[1..] == run[1..] + [a];
    }
  }

  lemma RecycledIsInBounds(s: Slots)
    requires Inv(s)
    ensures |s.storage| <= s.next && (s.op.None? ==> !s.drained)
    ensures forall k :: 0 <= k < |s.recycled| ==> s.recycled[k].index < |s.storage|
  {
    assert forall k :: 0 <= k < |s.recycled| ==> InQueue(s.recycled, s.recycled[k].index);
  }

  lemma BeginOpEffect(s: Slots, op: TableOp)
    requires s.op.None? && op.id.index < s.next
    ensures Enabled(s, BeginOp(op))
    ensures Step(s, BeginOp(op)) == s.(op := Some(op), storage := Resized(s.storage, s.next))
  {
  }

  lemma FlushEmptyEffect(s: Slots)
    requires Enabled(s, FlushEmpty)
    ensures Step(s, FlushEmpty) == s.(drained := true)
  {
  }

  lemma FinishOpEffect(s: Slots)
    requires Enabled(s, FinishOp)
    ensures s.op.Some? && s.op.value.id.index < |s.storage| && LenAfter(s.storage, s.len, s.op.value) >= 0
    ensures var op := s.op.value;
            Step(s, FinishOp) ==
            s.(op := None, drained := false, storage := StorageAfter(s.storage, op), len := LenAfter(s.storage, s.len, op),
               recycledQueue := if op.RemoveAndRecycle? && Stores(s.storage, op.id) then s.recycledQueue + [op.id] else s.recycledQueue)
  {
  }

  /** An undisturbed call is one of the interleavings, and never panics. */
  lemma CallIsARun(s: Slots, op: TableOp)
    requires Inv(s) && s.op.None? && op.id.index < s.next
    ensures CanCall(s, op)
    ensures IsRun(s, CallRun(op, |s.recycled|)) && Exec(s, CallRun(op, |s.recycled|)) == Call(s, op)
    ensures Inv(Call(s, op))
  {
    hide Inv, Step, Enabled;
    RecycledIsInBounds(s);
    BeginOpEffect(s, op);
    var s1 := Step(s, BeginOp(op));
    StepKeepsInv(s, BeginOp(op));
    DrainRun(s1);
    var pops := seq(|s.recycled|, _ => FlushPop);
    RunKeepsInv(s1, pops);
    var s2 := Exec(s1, pops);
    OperationsNeverPanic(s2);
    ExecAppend(s1, pops, FlushEmpty);
    StepKeepsInv(s2, FlushEmpty);
    FlushEmptyEffect(s2);
    var s3 := Step(s2, FlushEmpty);
    OperationsNeverPanic(s3);
    ExecAppend(s1, pops + [FlushEmpty], FinishOp);
    StepKeepsInv(s3, FinishOp);
    FinishOpEffect(s3);
    assert CallRun(op, |s.recycled|)[1..] == pops + [FlushEmpty] + [FinishOp];
  }

  /** After a flush the table knows exactly the active indices, and every stored value is still there. */
  lemma FlushFindsTheActive(s: Slots, x: AssetIndex)
    requires Inv(s) && s.op.None? && x.index < s.next
    ensures Callable(s)
    ensures Stores(Flushed(s), x) <==> Active(s, x)
    ensures Get(Flushed(s), x) == Get(s.storage, x)
  {
    hide Inv, Step, Enabled, HeldBySome, Exec, IsRun;
    var op := RemoveStillAlive(x);
    RecycledIsInBounds(s);
    BeginOpEffect(s, op);
    var s1 := Step(s, BeginOp(op));
    StepKeepsInv(s, BeginOp(op));
    DrainRun(s1);
    var pops := seq(|s.recycled|, _ => FlushPop);
    RunKeepsInv(s1, pops);
    var s2 := Exec(s1, pops);
    StoredExactlyWhenFlushed(s2, x);
    SameHolders(s, s2, x.index);
    DrainKeepsValues(s1, x);
  }

  lemma SameHolders(s: Slots, s': Slots, i: nat)
    requires s.reservers == s'.reservers
    ensures HeldBySome(s, i) <==> HeldBySome(s', i)
  {
    assert forall t :: Held(s, t, i) == Held(s', t, i);
  }

  lemma {:induction false} DrainKeepsValues(s: Slots, x: AssetIndex)
    requires Inv(s) && s.op.Some? && !s.drained
    requires forall k :: 0 <= k < |s.recycled| ==> s.recycled[k].index < |s.storage|
    ensures Get(Drained(s.storage, s.recycled), x) == Get(s.storage, x)
    decreases |s.recycled|
  {
    if s.recycled != [] {
      var s1 := Step(s, FlushPop);
      FlushNeverOverwrites(s);
      StepKeepsInv(s, FlushPop);
      DrainKeepsValues(s1, x);
    }
  }

  /** The effect of a call on the values stored. */
  lemma CallValues(s: Slots, op: TableOp, x: AssetIndex)
    requires Inv(s) && s.op.None? && op.id.index < s.next
    ensures CanCall(s, op)
    ensures Get(Call(s, op).storage, x) ==
            if x != op.id then Get(s.storage, x)
            else if op.Insert? && Active(s, x) then Some(op.asset) else None
  {
    CallIsARun(s, op);
    FlushFindsTheActive(s, op.id);
    if x.index < s.next {
      FlushFindsTheActive(s, x);
    }
    if x.index == op.id.index && Stores(Flushed(s), op.id) && x != op.id {
      assert !Stores(Flushed(s), x);
    }
  }

  /** Some generation of the slot is active. */
  ghost predicate Occupied(s: Slots, i: nat) {
    exists g: nat :: Active(s, AssetIndex(i, g))
  }

  /**
   What a call answers. A removal gives what a lookup would have found just before it. An insertion is
   accepted for an active index and tells whether there was a value; otherwise it is refused with the
   generation that is active in the slot, or as removed if none is.
   */
  lemma CallAnswers(s: Slots, op: TableOp)
    requires Inv(s) && s.op.None? && op.id.index < s.next
    ensures CanCall(s, op)
    ensures var r := ResultOf(Flushed(s), op);
            && (!op.Insert? ==> r == Taken(Get(s.storage, op.id)))
            && (op.Insert? ==>
                  && (r == Inserted <==> Active(s, op.id) && Get(s.storage, op.id).None?)
                  && (r == Replaced <==> Active(s, op.id) && Get(s.storage, op.id).Some?)
                  && (r == SlotRemoved <==> !Occupied(s, op.id.index))
                  && (r.SlotOccupied? <==> !Active(s, op.id) && Occupied(s, op.id.index))
                  && (r.SlotOccupied? ==> Active(s, AssetIndex(op.id.index, r.current))))
  {
    hide Inv, Active, Flushed;
    CallIsARun(s, op);
    FlushFindsTheActive(s, op.id);
    var slot := Flushed(s)[op.id.index];
    forall g: nat ensures Active(s, AssetIndex(op.id.index, g)) <==> slot.Some? && slot.value.generation == g {
      FlushFindsTheActive(s, AssetIndex(op.id.index, g));
    }
    assert slot.Some? ==> Active(s, AssetIndex(op.id.index, slot.value.generation));
  }

  /** A step other than the end of a call on `x` leaves the value under `x` as it is. */
  lemma ValueIsKept(s: Slots, a: Action, x: AssetIndex)
    requires Inv(s) && Enabled(s, a) && !(a.FinishOp? && s.op.value.id == x)
    ensures Get(Step(s, a).storage, x) == Get(s.storage, x)
  {
    if a.FlushPop? {
      FlushNeverOverwrites(s);
    }
  }

  /** No call of the run ends on `x`. */
  predicate Leaves(s: Slots, run: seq<Action>, x: AssetIndex)
    requires IsRun(s, run)
    decreases |run|
  {
    run != [] ==> !(run[0].FinishOp? && s.op.value.id == x) && Leaves(Step(s, run[0]), run[1..], x)
  }

  lemma {:induction false} ValueIsKeptOverRuns(s: Slots, run: seq<Action>, x: AssetIndex)
    requires Inv(s) && IsRun(s, run) && Leaves(s, run, x)
    ensures Inv(Exec(s, run)) && Get(Exec(s, run).storage, x) == Get(s.storage, x)
    decreases |run|
  {
    hide Inv, Step, Get;
    if run != [] {
      StepKeepsInv(s, run[0]);
      ValueIsKept(s, run[0], x);
      ValueIsKeptOverRuns(Step(s, run[0]), run[1..], x);
    }
  }

  /** A call on `x` is about to end. */
  predicate Ending(s: Slots, x: AssetIndex) {
    Enabled(s, FinishOp) && s.op.value.id == x
  }

  function Answer(s: Slots): TableResult
    requires Enabled(s, FinishOp)
  {
    ResultOf(s.storage, s.op.value)
  }

  /**
   Over every interleaving: what an accepted insertion stored is what the next removal of that index
   answers, whatever calls on other indices and reservations come between, and the removal after that,
   if nothing was inserted meanwhile, answers nothing.
   */
  lemma InsertedIsWhatIsRemoved(s: Slots, first: seq<Action>, second: seq<Action>, x: AssetIndex)
    requires Inv(s) && Ending(s, x) && s.op.value.Insert? && Answer(s) in {Inserted, Replaced}
    requires IsRun(Step(s, FinishOp), first) && Leaves(Step(s, FinishOp), first, x)
    requires var s1 := Exec(Step(s, FinishOp), first); Ending(s1, x) && !s1.op.value.Insert?
    requires var s1 := Exec(Step(s, FinishOp), first);
             && IsRun(Step(s1, FinishOp), second) && Leaves(Step(s1, FinishOp), second, x)
             && var s2 := Exec(Step(s1, FinishOp), second); Ending(s2, x) && !s2.op.value.Insert?
    ensures var s1 := Exec(Step(s, FinishOp), first);
            && Answer(s1) == Taken(Some(s.op.value.asset))
            && Answer(Exec(Step(s1, FinishOp), second)) == Taken(None)
  {
    hide Inv, IsRun, Exec, Leaves;
    StepKeepsInv(s, FinishOp);
    ValueIsKeptOverRuns(Step(s, FinishOp), first, x);
    var s1 := Exec(Step(s, FinishOp), first);
    StepKeepsInv(s1, FinishOp);
    ValueIsKeptOverRuns(Step(s1, FinishOp), second, x);
  }

  /** The effect of a call on which indices are active. */
  lemma CallActive(s: Slots, op: TableOp, x: AssetIndex)
    requires Inv(s) && s.op.None? && op.id.index < s.next
    ensures CanCall(s, op)
    ensures Active(Call(s, op), x) <==> Active(s, x) && op != RemoveAndRecycle(x)
  {
    CallIsARun(s, op);
    FlushFindsTheActive(s, op.id);
    var s' := Call(s, op);
    SameHolders(s, s', x.index);
    InAppended(s.recycledQueue, op.id);
  }

  /** `reserve` with no other step in between. */
  predicate CanReserve(s: Slots) {
    if s.recycledQueue == [] then s.next <= MAX_ASSET_INDEX
    else s.recycledQueue[0].generation < MAX_GENERATION && s.recycledQueue[0].index < |s.latest|
  }

  function ReserveId(s: Slots): AssetIndex {
    if s.recycledQueue == [] then AssetIndex(s.next, 0) else Bumped(s.recycledQueue[0])
  }

  function Reserve(s: Slots): Slots
    requires CanReserve(s)
  {
    var id := ReserveId(s);
    if s.recycledQueue == [] then
      s.(next := s.next + 1, latest := s.latest + [0], issued := s.issued + [id])
    else
      s.(recycledQueue := s.recycledQueue[1..], recycled := s.recycled + [id],
         latest := s.latest[id.index := id.generation], issued := s.issued + [id])
  }

  lemma ReserveIsARun(s: Slots, t: ThreadId)
    requires Inv(s) && CanReserve(s) && t !in s.reservers
    ensures var run := if s.recycledQueue == [] then [Pop(t), FetchAdd(t)] else [Pop(t), Push(t)];
            IsRun(s, run) && Exec(s, run) == Reserve(s)
    ensures Inv(Reserve(s)) && Active(Reserve(s), ReserveId(s)) && ReserveId(s) !in s.issued
  {
    hide Inv, Active;
    var last := if s.recycledQueue == [] then FetchAdd(t) else Push(t);
    var s1 := Step(s, Pop(t));
    StepKeepsInv(s, Pop(t));
    ExecAppend(s, [], Pop(t));
    assert [] + [Pop(t)] == [Pop(t)];
    assert s1.reservers - {t} == s.reservers;
    ExecAppend(s, [Pop(t)], last);
    assert [Pop(t)] + [last] == [Pop(t), last];
    StepKeepsInv(s1, last);
    ReturnedIsActive(s1, last);
  }

  lemma ReserveLeavesOthers(s: Slots, x: AssetIndex)
    requires Inv(s) && CanReserve(s) && x != ReserveId(s)
    ensures Active(Reserve(s), x) <==> Active(s, x)
  {
    var s' := Reserve(s);
    SameHolders(s, s', x.index);
    if s.recycledQueue != [] {
      assert InQueue(s.recycledQueue, s.recycledQueue[0].index);
      InTail(s.recycledQueue);
    }
  }
}
