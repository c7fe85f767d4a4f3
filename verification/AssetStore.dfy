/**
 Model of `Assets<A>` (`assets.rs`, `handle.rs`, `changes.rs` of voker-asset): asset values under
 slot indices and UUIDs, strong handles with the duplicate counter and the drop channel, and the
 event log mirrored into `AssetChanges`.

 Handles are not managed by the asset server. Reservations by other threads appear as their
 atomic steps; a call on `Assets` is one step.
 */
module AssetStore {
  import opened AssetSlots

  type Uuid = nat
  type Time = nat

  datatype AssetId = Index(index: AssetIndex) | Uuid(uuid: Uuid)

  datatype Event =
    | Added(id: AssetId)
    | Modified(id: AssetId)
    | Removed(id: AssetId)
    | Unused(id: AssetId)
    | FullyLoaded(id: AssetId)

  const MAX_DUPLICATES: nat := 0xFFFF

  /**
   `log` is every event queued so far; the queue itself is `log[delivered..]`. `live` counts the
   strong handles that exist, `unbacked` the handles whose share of the counter was forgotten.
   */
  datatype Store = Store(
    slots: Slots,
    uuids: map<Uuid, Asset>,
    duplicates: map<AssetIndex, nat>,
    log: seq<Event>,
    delivered: nat,
    changes: map<AssetId, Time>,
    live: multiset<AssetIndex>,
    pending: seq<AssetIndex>,
    unbacked: multiset<AssetIndex>)

  datatype Op =
    | Other(a: Action)                            // a step of `reserve_handle` on some thread
    | Add(asset: Asset)
    | InsertAt(id: AssetId, asset: Asset)
    | Resolve(id: AssetId)                        // resolve_strong_handle
    | Touch(id: AssetId)                          // a mutable access whose guard is dropped
    | Remove(id: AssetId)
    | RemoveUntracked(id: AssetId)
    | DropHandle(index: AssetIndex)               // the last clone of a strong handle goes
    | DrainOne                                    // one iteration of track_assets
    | HandleEvents(tick: Time)                    // handle_asset_events

  // ---------------------------------------------------------------------------
  // Steps

  /** `contains`. */
  predicate Contains(s: Store, id: AssetId) {
    match id
    case Index(i) => Get(s.slots.storage, i).Some?
    case Uuid(u) => u in s.uuids
  }

  /** `get`. */
  function ValueOf(s: Store, id: AssetId): Option<Asset> {
    match id
    case Index(i) => Get(s.slots.storage, i)
    case Uuid(u) => if u in s.uuids then Some(s.uuids[u]) else None
  }

  function Counter(s: Store, i: AssetIndex): nat {
    if i in s.duplicates then s.duplicates[i] else 0
  }

  predicate CanUse(s: Store, id: AssetId, asset: Asset) {
    id.Index? ==> CanCall(s.slots, Insert(id.index, asset)) && CanCall(s.slots, RemoveStillAlive(id.index))
  }

  predicate Enabled(s: Store, op: Op) {
    match op
    case Other(a) => (a.Pop? || a.Push? || a.FetchAdd?) && AssetSlots.Enabled(s.slots, a)
    case Add(asset) => s.slots.op.None? && CanReserve(s.slots) && CanCall(AssetSlots.Reserve(s.slots), Insert(ReserveId(s.slots), asset))
    case InsertAt(id, asset) => CanUse(s, id, asset)
    case Resolve(id) => true
    case Touch(id) => Contains(s, id)
    case Remove(id) => CanUse(s, id, 0)
    case RemoveUntracked(id) => CanUse(s, id, 0)
    case DropHandle(i) => i in s.live
    case DrainOne => s.pending != [] && CanCall(s.slots, RemoveAndRecycle(s.pending[0]))
    case HandleEvents(_) => s.delivered <= |s.log|
  }

  function Logged(s: Store, events: seq<Event>): Store {
    s.(log := s.log + events)
  }

  function InsertEvents(id: AssetId, r: TableResult): seq<Event> {
    if r.Inserted? then [Added(id)] else if r.Replaced? then [Modified(id)] else []
  }

  /** `insert_with_index`. */
  function InsertIndex(s: Store, i: AssetIndex, asset: Asset): Store
    requires CanCall(s.slots, Insert(i, asset))
  {
    Logged(s.(slots := Call(s.slots, Insert(i, asset))), InsertEvents(Index(i), ResultOf(Flushed(s.slots), Insert(i, asset))))
  }

  /** `insert_with_uuid`. */
  function InsertUuid(s: Store, u: Uuid, asset: Asset): Store {
    Logged(s.(uuids := s.uuids[u := asset]), [if u in s.uuids then Modified(Uuid(u)) else Added(Uuid(u))])
  }

  /** `remove_untracked`: the duplicate counter is dropped together with the value. */
  function RemoveQuietly(s: Store, id: AssetId): Store
    requires CanUse(s, id, 0)
  {
    match id
    case Index(i) =>
      s.(duplicates := s.duplicates - {i}, unbacked := s.unbacked[i := s.unbacked[i] + Counter(s, i)],
         slots := Call(s.slots, RemoveStillAlive(i)))
    case Uuid(u) => s.(uuids := s.uuids - {u})
  }

  /** One delivered event as `AssetChanges` records it. */
  function Recorded(changes: map<AssetId, Time>, e: Event, tick: Time): map<AssetId, Time> {
    match e
    case Removed(id) => changes - {id}
    case Unused(id) => changes - {id}
    case _ => changes[e.id := tick]
  }

  function RecordedAll(changes: map<AssetId, Time>, events: seq<Event>, tick: Time): map<AssetId, Time> {
    if events == [] then changes
    else Recorded(RecordedAll(changes, events[..|events| - 1], tick), events[|events| - 1], tick)
  }

  function Step(s: Store, op: Op): Store
    requires Enabled(s, op)
  {
    match op
    case Other(a) =>
      s.(slots := AssetSlots.Step(s.slots, a),
         live := match Returns(s.slots, a) case Some(i) => s.live + multiset{i} case None => s.live)
    case Add(asset) =>
      var i := ReserveId(s.slots);
      InsertIndex(s.(slots := AssetSlots.Reserve(s.slots), live := s.live + multiset{i}), i, asset)
    case InsertAt(id, asset) =>
      (match id
       case Index(i) => InsertIndex(s, i, asset)
       case Uuid(u) => InsertUuid(s, u, asset))
    case Resolve(id) =>
      if id.Uuid? || !Contains(s, id) then s
      else if Counter(s, id.index) == MAX_DUPLICATES then s
      else s.(duplicates := s.duplicates[id.index := Counter(s, id.index) + 1], live := s.live + multiset{id.index})
    case Touch(id) => Logged(s, [Modified(id)])
    case Remove(id) => Logged(RemoveQuietly(s, id), if Contains(s, id) then [Removed(id)] else [])
    case RemoveUntracked(id) => RemoveQuietly(s, id)
    case DropHandle(i) => s.(live := s.live - multiset{i}, pending := s.pending + [i])
    case DrainOne =>
      var i := s.pending[0];
      var s1 := s.(pending := s.pending[1..]);
      if Counter(s, i) > 0 then s1.(duplicates := s.duplicates[i := s.duplicates[i] - 1])
      else
        Logged(
          s1.(duplicates := s.duplicates - {i}, slots := Call(s.slots, RemoveAndRecycle(i)),
              unbacked := if Stores(Flushed(s.slots), i) then s.unbacked else s.unbacked - multiset{i}),
          [Unused(Index(i))] + if Contains(s, Index(i)) then [Removed(Index(i))] else [])
    case HandleEvents(tick) =>
      s.(changes := RecordedAll(s.changes, s.log[s.delivered..], tick), delivered := |s.log|)
  }

  // ---------------------------------------------------------------------------
  // Handle accounting

  function Count(s: seq<AssetIndex>, i: AssetIndex): nat {
    if s == [] then 0 else (if s[0] == i then 1 else 0) + Count(s[1..], i)
  }

  lemma {:induction false} CountPush(s: seq<AssetIndex>, x: AssetIndex, i: AssetIndex)
    ensures Count(s + [x], i) == Count(s, i) + if x == i then 1 else 0
  {
    if s == [] {
      assert [x][1..] == [];
    } else {
      CountPush(s[1..], x, i);
      assert (s + [x])[1..] == s[1..] + [x];
    }
  }

  /**
   The conservation law of one index: its handles, live or dropped but not drained, are backed by
   the duplicate counter plus one while the slot is in use, up to those the store has forgotten.
   */
  ghost predicate Balanced(s: Store, i: AssetIndex) {
    s.live[i] + Count(s.pending, i) == s.unbacked[i] + if Active(s.slots, i) then Counter(s, i) + 1 else 0
  }

  ghost predicate Inv(s: Store) {
    && AssetSlots.Inv(s.slots) && s.slots.op.None?
    && s.delivered <= |s.log|
    && (forall i :: i in s.duplicates ==> Active(s.slots, i) && s.duplicates[i] <= MAX_DUPLICATES)
    && (forall i :: s.unbacked[i] > 0 ==> i in s.slots.issued)
    && (forall i :: Balanced(s, i))
  }

  /** An operation on an index that was returned by `reserve` cannot panic. */
  lemma IssuedIsUsable(s: Store, i: AssetIndex, asset: Asset)
    requires Inv(s) && i in s.slots.issued
    ensures CanCall(s.slots, Insert(i, asset)) && CanCall(s.slots, RemoveStillAlive(i)) && CanCall(s.slots, RemoveAndRecycle(i))
  {
    var k :| 0 <= k < |s.slots.issued| && s.slots.issued[k] == i;
    CallIsARun(s.slots, Insert(i, asset));
    CallIsARun(s.slots, RemoveStillAlive(i));
    CallIsARun(s.slots, RemoveAndRecycle(i));
  }

  lemma OtherKeepsInv(s: Store, a: Action)
    requires Inv(s) && Enabled(s, Other(a))
    ensures Inv(Step(s, Other(a)))
  {
    var s' := Step(s, Other(a));
    StepKeepsInv(s.slots, a);
    if Returns(s.slots, a).Some? { ReturnedIsActive(s.slots, a); }
    forall i ensures Balanced(s', i) {
      assert Balanced(s, i);
      OtherActive(s.slots, a, i);
    }
    forall i | i in s'.duplicates ensures Active(s'.slots, i) {
      ActiveUntilRecycled(s.slots, a, i);
    }
  }

  /** A reservation step changes activity only for the index it returns. */
  lemma OtherActive(s: Slots, a: Action, i: AssetIndex)
    requires AssetSlots.Inv(s) && AssetSlots.Enabled(s, a) && (a.Pop? || a.Push? || a.FetchAdd?)
    ensures Active(AssetSlots.Step(s, a), i) <==> Active(s, i) || Returns(s, a) == Some(i)
    ensures Returns(s, a) == Some(i) ==> !Active(s, i) && i !in s.issued
  {
    StepKeepsInv(s, a);
    if Returns(s, a) == Some(i) {
      ReturnedIsActive(s, a);
      if Active(s, i) { ActiveIsIssued(s, i); }
    } else if Active(s, i) {
      ActiveUntilRecycled(s, a, i);
    } else if i in s.issued {
      RetiredForever(s, a, i);
    } else if Active(AssetSlots.Step(s, a), i) {
      ActiveIsIssued(AssetSlots.Step(s, a), i);
    }
  }

  lemma {:induction false} ThreadsAreBounded(threads: set<ThreadId>) returns (bound: ThreadId)
    ensures forall t :: t in threads ==> t < bound
    decreases threads
  {
    if threads == {} {
      bound := 0;
    } else {
      var t :| t in threads;
      var b := ThreadsAreBounded(threads - {t});
      bound := if b <= t then t + 1 else b;
      assert threads == (threads - {t}) + {t};
    }
  }

  lemma ReserveFacts(s: Slots, i: AssetIndex)
    requires AssetSlots.Inv(s) && CanReserve(s)
    ensures AssetSlots.Inv(Reserve(s)) && ReserveId(s) !in s.issued
    ensures Active(Reserve(s), i) <==> Active(s, i) || i == ReserveId(s)
    ensures !Active(s, ReserveId(s))
  {
    var t := ThreadsAreBounded(s.reservers.Keys);
    ReserveIsARun(s, t);
    if Active(s, ReserveId(s)) { ActiveIsIssued(s, ReserveId(s)); }
    if i != ReserveId(s) { ReserveLeavesOthers(s, i); }
  }

  /** A table call that recycles nothing leaves every balance alone. */
  lemma CallKeepsInv(s: Store, op: TableOp, events: seq<Event>)
    requires Inv(s) && CanCall(s.slots, op) && !op.RemoveAndRecycle?
    ensures Inv(Logged(s.(slots := Call(s.slots, op)), events))
  {
    hide AssetSlots.Inv, Active, Call, CanCall;
    var s' := Logged(s.(slots := Call(s.slots, op)), events);
    CallFacts(s.slots, op);
    forall i ensures Balanced(s', i) {
      assert Balanced(s, i);
      CallActive(s.slots, op, i);
    }
    forall i | i in s'.duplicates ensures Active(s'.slots, i) {
      CallActive(s.slots, op, i);
    }
  }

  lemma CallFacts(s: Slots, op: TableOp)
    requires AssetSlots.Inv(s) && CanCall(s, op)
    ensures s.op.None? && op.id.index < s.next
    ensures AssetSlots.Inv(Call(s, op)) && Call(s, op).op.None? && Call(s, op).issued == s.issued
  {
    CallIsARun(s, op);
  }

  /** A table call issues nothing and makes nothing active. */
  lemma CallLife(s: Slots, op: TableOp, i: AssetIndex)
    requires AssetSlots.Inv(s) && CanCall(s, op)
    ensures Call(s, op).issued == s.issued
    ensures Active(Call(s, op), i) <==> Active(s, i) && op != RemoveAndRecycle(i)
  {
    hide AssetSlots.Inv, Active;
    CallFacts(s, op);
    CallActive(s, op, i);
  }

  /** A reservation together with the handle made for it. */
  lemma ReservedKeepsInv(s: Store)
    requires Inv(s) && CanReserve(s.slots)
    ensures Inv(s.(slots := Reserve(s.slots), live := s.live + multiset{ReserveId(s.slots)}))
  {
    hide AssetSlots.Inv, Active;
    var i := ReserveId(s.slots);
    var s1 := s.(slots := Reserve(s.slots), live := s.live + multiset{i});
    ReserveFacts(s.slots, i);
    forall j ensures Balanced(s1, j) {
      assert Balanced(s, j);
      ReserveFacts(s.slots, j);
    }
    forall j | j in s1.duplicates ensures Active(s1.slots, j) {
      ReserveFacts(s.slots, j);
    }
  }

  lemma AddKeepsInv(s: Store, asset: Asset)
    requires Inv(s) && Enabled(s, Add(asset))
    ensures Inv(Step(s, Add(asset)))
  {
    hide Inv;
    var i := ReserveId(s.slots);
    var s1 := s.(slots := Reserve(s.slots), live := s.live + multiset{i});
    ReservedKeepsInv(s);
    CallKeepsInv(s1, Insert(i, asset), InsertEvents(Index(i), ResultOf(Flushed(s1.slots), Insert(i, asset))));
  }

  lemma ResolveKeepsInv(s: Store, id: AssetId)
    requires Inv(s)
    ensures Inv(Step(s, Resolve(id)))
  {
    var s' := Step(s, Resolve(id));
    if s' != s {
      StoredIsActive(s.slots, id.index);
      forall j ensures Balanced(s', j) {
        assert Balanced(s, j);
      }
    }
  }

  /** Forgetting a counter moves its handles to `unbacked`; the law survives. */
  lemma ForgetKeepsInv(s: Store, i: AssetIndex)
    requires Inv(s)
    ensures Inv(s.(duplicates := s.duplicates - {i}, unbacked := s.unbacked[i := s.unbacked[i] + Counter(s, i)]))
  {
    hide AssetSlots.Inv, Active;
    var s1 := s.(duplicates := s.duplicates - {i}, unbacked := s.unbacked[i := s.unbacked[i] + Counter(s, i)]);
    forall j ensures Balanced(s1, j) { assert Balanced(s, j); }
    if i in s.duplicates { ActiveIsIssued(s.slots, i); }
  }

  lemma RemoveQuietlyKeepsInv(s: Store, id: AssetId)
    requires Inv(s) && CanUse(s, id, 0)
    ensures Inv(RemoveQuietly(s, id))
  {
    hide AssetSlots.Inv, Active, Call, CanCall;
    match id
    case Uuid(u) =>
      forall j ensures Balanced(RemoveQuietly(s, id), j) { assert Balanced(s, j); }
    case Index(i) =>
      var s1 := s.(duplicates := s.duplicates - {i}, unbacked := s.unbacked[i := s.unbacked[i] + Counter(s, i)]);
      ForgetKeepsInv(s, i);
      CallKeepsInv(s1, RemoveStillAlive(i), []);
      assert s1.log + [] == s1.log;
      assert Logged(s1.(slots := Call(s.slots, RemoveStillAlive(i))), []) == RemoveQuietly(s, id);
  }

  lemma DropKeepsInv(s: Store, i: AssetIndex)
    requires Inv(s) && i in s.live
    ensures Inv(Step(s, DropHandle(i)))
  {
    var s' := Step(s, DropHandle(i));
    forall j ensures Balanced(s', j) {
      assert Balanced(s, j);
      CountPush(s.pending, i, j);
    }
  }

  /** Draining a drop event: it uses up the counter if there is one, else it recycles the slot. */
  lemma DrainKeepsInv(s: Store)
    requires Inv(s) && Enabled(s, DrainOne)
    ensures Inv(Step(s, DrainOne))
  {
    hide AssetSlots.Inv, Active, Call, CanCall, Flushed, Logged, Inv;
    if Counter(s, s.pending[0]) > 0 {
      DrainOfDuplicateKeepsInv(s);
    } else {
      DrainOfLastKeepsInv(s);
    }
  }

  lemma DrainOfDuplicateKeepsInv(s: Store)
    requires Inv(s) && Enabled(s, DrainOne) && Counter(s, s.pending[0]) > 0
    ensures Inv(Step(s, DrainOne))
  {
    hide AssetSlots.Inv, Active, Call, CanCall, Flushed, Logged;
    var s', i := Step(s, DrainOne), s.pending[0];
    forall j ensures Balanced(s', j) { assert Balanced(s, j); }
  }

  lemma DrainOfLastKeepsInv(s: Store)
    requires Inv(s) && Enabled(s, DrainOne) && Counter(s, s.pending[0]) == 0
    ensures Inv(Step(s, DrainOne))
  {
    hide AssetSlots.Inv, Active, Call, CanCall, Flushed, Stores, Get, Contains, Balanced;
    var s', i := Step(s, DrainOne), s.pending[0];
    CallFacts(s.slots, RemoveAndRecycle(i));
    forall j ensures Balanced(s', j) {
      DrainOfLastBalances(s, j);
    }
    forall j | j in s'.duplicates ensures Active(s'.slots, j) {
      CallActive(s.slots, RemoveAndRecycle(i), j);
    }
  }

  lemma DrainOfLastBalances(s: Store, j: AssetIndex)
    requires Inv(s) && Enabled(s, DrainOne) && Counter(s, s.pending[0]) == 0
    ensures Balanced(Step(s, DrainOne), j)
  {
    hide AssetSlots.Inv, Active, Call, CanCall, Flushed, Stores, Get, Contains;
    var i := s.pending[0];
    assert Balanced(s, i) && Balanced(s, j);
    CallFacts(s.slots, RemoveAndRecycle(i));
    FlushFindsTheActive(s.slots, i);
    CallActive(s.slots, RemoveAndRecycle(i), j);
  }

  lemma LoggedKeepsInv(s: Store, events: seq<Event>)
    requires Inv(s)
    ensures Inv(Logged(s, events))
  {
    forall j ensures Balanced(Logged(s, events), j) { assert Balanced(s, j); }
  }

  lemma HandleEventsKeepsInv(s: Store, tick: Time)
    requires Inv(s)
    ensures Inv(Step(s, HandleEvents(tick)))
  {
    forall j ensures Balanced(Step(s, HandleEvents(tick)), j) { assert Balanced(s, j); }
  }

  /** Every operation keeps the accounts, with no condition on the run. */
  lemma OpKeepsInv(s: Store, op: Op)
    requires Inv(s) && Enabled(s, op)
    ensures Inv(Step(s, op))
  {
    hide Inv;
    match op
    case Other(a) => OtherKeepsInv(s, a);
    case Add(asset) => AddKeepsInv(s, asset);
    case InsertAt(id, asset) =>
      if id.Index? {
        CallKeepsInv(s, Insert(id.index, asset), InsertEvents(id, ResultOf(Flushed(s.slots), Insert(id.index, asset))));
      } else {
        InsertUuidKeepsInv(s, id.uuid, asset);
      }
    case Resolve(id) => ResolveKeepsInv(s, id);
    case Touch(id) => LoggedKeepsInv(s, [Modified(id)]);
    case Remove(id) =>
      RemoveQuietlyKeepsInv(s, id);
      LoggedKeepsInv(RemoveQuietly(s, id), if Contains(s, id) then [Removed(id)] else []);
    case RemoveUntracked(id) => RemoveQuietlyKeepsInv(s, id);
    case DropHandle(i) => DropKeepsInv(s, i);
    case DrainOne => DrainKeepsInv(s);
    case HandleEvents(tick) => HandleEventsKeepsInv(s, tick);
  }

  lemma InsertUuidKeepsInv(s: Store, u: Uuid, asset: Asset)
    requires Inv(s)
    ensures Inv(InsertUuid(s, u, asset))
  {
    forall j ensures Balanced(InsertUuid(s, u, asset), j) { assert Balanced(s, j); }
  }

  // ---------------------------------------------------------------------------
  // What the accounts mean

  /** A removal that throws away a positive duplicate counter. */
  predicate Forgets(s: Store, op: Op, i: AssetIndex) {
    (op == Remove(Index(i)) || op == RemoveUntracked(Index(i))) && Counter(s, i) > 0
  }

  /** Handles lose their backing exactly when a removal forgets a positive counter. */
  lemma BackingIsLostOnlyByForgetting(s: Store, op: Op, i: AssetIndex)
    requires Enabled(s, op)
    ensures Step(s, op).unbacked[i] > s.unbacked[i] <==> Forgets(s, op, i)
  {
    hide RemoveQuietly, Step, Counter;
    match op
    case Remove(id) => ForgottenByRemoval(s, id, i);
    case RemoveUntracked(id) => ForgottenByRemoval(s, id, i);
    case DrainOne => DrainForgetsNothing(s, i);
    case _ => UnbackedStays(s, op);
  }

  lemma ForgottenByRemoval(s: Store, id: AssetId, i: AssetIndex)
    requires CanUse(s, id, 0)
    ensures RemoveQuietly(s, id).unbacked[i] == s.unbacked[i] + if id == Index(i) then Counter(s, i) else 0
    ensures Step(s, Remove(id)).unbacked == Step(s, RemoveUntracked(id)).unbacked == RemoveQuietly(s, id).unbacked
  {
    hide Call, CanCall, Contains;
  }

  lemma DrainForgetsNothing(s: Store, i: AssetIndex)
    requires Enabled(s, DrainOne)
    ensures Step(s, DrainOne).unbacked[i] <= s.unbacked[i]
  {
    hide Call, CanCall, Flushed, Stores, Contains;
  }

  lemma UnbackedStays(s: Store, op: Op)
    requires Enabled(s, op) && !op.Remove? && !op.RemoveUntracked? && !op.DrainOne?
    ensures Step(s, op).unbacked == s.unbacked
  {
    hide Call, CanCall, Flushed, Stores, Contains, ResultOf, RecordedAll, Reserve, CanReserve, ReserveId;
  }

  /** A slot is recycled exactly when a drop event reaches it with its counter at zero. */
  lemma RecycledExactlyByTheLastDrop(s: Store, op: Op, i: AssetIndex)
    requires Inv(s) && Enabled(s, op) && Active(s.slots, i)
    ensures !Active(Step(s, op).slots, i) <==> op.DrainOne? && s.pending[0] == i && Counter(s, i) == 0
  {
    hide AssetSlots.Inv, Active, Call, CanCall, Flushed, ResultOf, Contains, Stores, Balanced;
    match op
    case Other(a) => OtherActive(s.slots, a, i);
    case Add(asset) =>
      ReserveFacts(s.slots, i);
      CallLife(Reserve(s.slots), Insert(ReserveId(s.slots), asset), i);
    case InsertAt(id, asset) => if id.Index? { CallLife(s.slots, Insert(id.index, asset), i); }
    case Remove(id) => if id.Index? { CallLife(s.slots, RemoveStillAlive(id.index), i); }
    case RemoveUntracked(id) => if id.Index? { CallLife(s.slots, RemoveStillAlive(id.index), i); }
    case DrainOne => CallLife(s.slots, RemoveAndRecycle(s.pending[0]), i);
    case _ =>
  }

  /**
   At the moment the drop path recycles a slot, the handles still around for it, live or waiting
   in the channel, are exactly the forgotten ones.
   */
  lemma RecyclingLeavesOnlyForgottenHandles(s: Store, i: AssetIndex)
    requires Inv(s) && Enabled(s, DrainOne) && Active(s.slots, i) && !Active(Step(s, DrainOne).slots, i)
    ensures var s' := Step(s, DrainOne);
            s'.live[i] + Count(s'.pending, i) == s'.unbacked[i] == s.unbacked[i]
  {
    RecycledExactlyByTheLastDrop(s, DrainOne, i);
    DrainKeepsInv(s);
    assert Balanced(Step(s, DrainOne), i);
    CallFacts(s.slots, RemoveAndRecycle(i));
    FlushFindsTheActive(s.slots, i);
  }

  /** An index with no handle left, live or waiting, has been recycled. */
  lemma UnusedIsRecycled(s: Store, i: AssetIndex)
    requires Inv(s) && s.live[i] == 0 && Count(s.pending, i) == 0
    ensures !Active(s.slots, i)
  {
    assert Balanced(s, i);
  }

  const NEW := Store(EMPTY, map[], map[], [], 0, map[], multiset{}, [], multiset{})

  predicate IsRun(s: Store, run: seq<Op>)
    decreases |run|
  {
    run == [] || (Enabled(s, run[0]) && IsRun(Step(s, run[0]), run[1..]))
  }

  function Exec(s: Store, run: seq<Op>): Store
    requires IsRun(s, run)
    decreases |run|
  {
    if run == [] then s else Exec(Step(s, run[0]), run[1..])
  }

  lemma NewIsSound()
    ensures Inv(NEW)
  {
    EmptyIsSound();
    forall i ensures Balanced(NEW, i) { }
  }

  // ---------------------------------------------------------------------------
  // One index over a whole run

  lemma OtherIssued(s: Slots, a: Action)
    requires AssetSlots.Enabled(s, a) && (a.Pop? || a.Push? || a.FetchAdd?)
    ensures AssetSlots.Step(s, a).issued == s.issued + match Returns(s, a) case Some(i) => [i] case None => []
  {
    assert s.issued + [] == s.issued;
  }

  /** An issued index stays issued, a retired one stays retired, and a newly issued one is active. */
  lemma LifeOfAnIndex(s: Store, op: Op, i: AssetIndex)
    requires Inv(s) && Enabled(s, op)
    ensures var s' := Step(s, op);
            && (i in s.slots.issued ==> i in s'.slots.issued)
            && (i in s.slots.issued && !Active(s.slots, i) ==> !Active(s'.slots, i))
            && (i !in s.slots.issued && i in s'.slots.issued ==> Active(s'.slots, i))
  {
    hide AssetSlots.Inv, Active, Call, CanCall, Flushed, ResultOf, Contains, Stores, Balanced;
    match op
    case Other(a) =>
      OtherActive(s.slots, a, i);
      OtherIssued(s.slots, a);
    case Add(asset) =>
      ReserveFacts(s.slots, i);
      CallLife(Reserve(s.slots), Insert(ReserveId(s.slots), asset), i);
    case InsertAt(id, asset) => if id.Index? { CallLife(s.slots, Insert(id.index, asset), i); }
    case Remove(id) => if id.Index? { CallLife(s.slots, RemoveStillAlive(id.index), i); }
    case RemoveUntracked(id) => if id.Index? { CallLife(s.slots, RemoveStillAlive(id.index), i); }
    case DrainOne => CallLife(s.slots, RemoveAndRecycle(s.pending[0]), i);
    case _ =>
  }

  /** An active index loses backing by what a removal forgets, and gains none. */
  lemma BackingWhileActive(s: Store, op: Op, i: AssetIndex)
    requires Inv(s) && Enabled(s, op) && Active(s.slots, i)
    ensures Step(s, op).unbacked[i] == s.unbacked[i] + if Forgets(s, op, i) then Counter(s, i) else 0
  {
    hide Inv, Active, RemoveQuietly, Step, Counter;
    match op
    case Remove(id) => ForgottenByRemoval(s, id, i);
    case RemoveUntracked(id) => ForgottenByRemoval(s, id, i);
    case DrainOne => DrainKeepsBacking(s, i);
    case _ => UnbackedStays(s, op);
  }

  lemma DrainKeepsBacking(s: Store, i: AssetIndex)
    requires Inv(s) && Enabled(s, DrainOne) && Active(s.slots, i)
    ensures Step(s, DrainOne).unbacked[i] == s.unbacked[i]
  {
    hide AssetSlots.Inv, Active, Call, CanCall, Flushed, Stores, Contains, Balanced;
    CallFacts(s.slots, RemoveAndRecycle(s.pending[0]));
    FlushFindsTheActive(s.slots, s.pending[0]);
  }

  /** No removal in the run forgets a positive counter of `i`. */
  predicate NeverForgets(s: Store, run: seq<Op>, i: AssetIndex)
    requires IsRun(s, run)
    decreases |run|
  {
    run == [] || (!Forgets(s, run[0], i) && NeverForgets(Step(s, run[0]), run[1..], i))
  }

  lemma {:induction false} RunKeepsInv(s: Store, run: seq<Op>)
    requires Inv(s) && IsRun(s, run)
    ensures Inv(Exec(s, run))
    decreases |run|
  {
    hide Inv, Step, Enabled;
    if run != [] {
      OpKeepsInv(s, run[0]);
      RunKeepsInv(Step(s, run[0]), run[1..]);
    }
  }

  /** Once retired, an index stays retired over every run. */
  lemma {:induction false} RetiredStaysRetired(s: Store, run: seq<Op>, i: AssetIndex)
    requires Inv(s) && IsRun(s, run) && i in s.slots.issued && !Active(s.slots, i)
    ensures i in Exec(s, run).slots.issued && !Active(Exec(s, run).slots, i)
    decreases |run|
  {
    hide Inv, Step, Enabled, Active;
    if run != [] {
      OpKeepsInv(s, run[0]);
      LifeOfAnIndex(s, run[0], i);
      RetiredStaysRetired(Step(s, run[0]), run[1..], i);
    }
  }

  /** An index that is not in use has no counter, and one never issued no handle without backing. */
  lemma UnusedFacts(s: Store, i: AssetIndex)
    requires Inv(s)
    ensures !Active(s.slots, i) ==> Counter(s, i) == 0
    ensures i !in s.slots.issued ==> !Active(s.slots, i) && s.unbacked[i] == 0
  {
    hide AssetSlots.Inv, Active;
    if Active(s.slots, i) {
      ActiveIsIssued(s.slots, i);
    }
  }

  /** Over a run that leaves `i` active, the handles without backing grow exactly if the run forgets. */
  lemma {:induction false} BackingOverRuns(s: Store, run: seq<Op>, i: AssetIndex)
    requires Inv(s) && IsRun(s, run) && Active(Exec(s, run).slots, i)
    ensures Exec(s, run).unbacked[i] >= s.unbacked[i]
    ensures Exec(s, run).unbacked[i] == s.unbacked[i] <==> NeverForgets(s, run, i)
    decreases |run|
  {
    hide Inv, Step, Enabled, Active, Counter;
    if run != [] {
      var next := Step(s, run[0]);
      OpKeepsInv(s, run[0]);
      BackingOverRuns(next, run[1..], i);
      if Active(s.slots, i) {
        BackingWhileActive(s, run[0], i);
      } else {
        if i in s.slots.issued {
          RetiredStaysRetired(s, run, i);
        }
        UnusedFacts(s, i);
        BackingIsLostOnlyByForgetting(s, run[0], i);
      }
    }
  }

  lemma {:induction false} NothingForgottenNothingLost(s: Store, run: seq<Op>, i: AssetIndex)
    requires Inv(s) && IsRun(s, run) && NeverForgets(s, run, i) && s.unbacked[i] == 0
    ensures Exec(s, run).unbacked[i] == 0
    decreases |run|
  {
    hide Inv, Step, Enabled, Counter;
    if run != [] {
      OpKeepsInv(s, run[0]);
      BackingIsLostOnlyByForgetting(s, run[0], i);
      NothingForgottenNothingLost(Step(s, run[0]), run[1..], i);
    }
  }

  /**
   The exact condition of the handle count, for every run and every index in use at its end: its
   handles and pending drops are one more than its counter if and only if no removal of the run
   forgot a positive counter of that index.
   */
  lemma HandlesMatchTheCounter(run: seq<Op>, i: AssetIndex)
    requires IsRun(NEW, run) && Active(Exec(NEW, run).slots, i)
    ensures var s := Exec(NEW, run);
            s.live[i] + Count(s.pending, i) == Counter(s, i) + 1 <==> NeverForgets(NEW, run, i)
  {
    hide AssetSlots.Inv, Active, Step, Enabled, Count, Counter;
    NewIsSound();
    RunKeepsInv(NEW, run);
    BackingOverRuns(NEW, run, i);
    assert Balanced(Exec(NEW, run), i);
  }

  /** How often a step of the run takes `i` from active to not active. */
  ghost function Recyclings(s: Store, run: seq<Op>, i: AssetIndex): nat
    requires IsRun(s, run)
    decreases |run|
  {
    if run == [] then 0
    else
      var next := Step(s, run[0]);
      (if Active(s.slots, i) && !Active(next.slots, i) then 1 else 0) + Recyclings(next, run[1..], i)
  }

  /** An index is recycled at most once: exactly once if it is issued and retired during the run, else never. */
  lemma {:induction false} RecycledAtMostOnce(s: Store, run: seq<Op>, i: AssetIndex)
    requires Inv(s) && IsRun(s, run)
    ensures var end := Exec(s, run).slots;
            Recyclings(s, run, i) ==
            if (Active(s.slots, i) || i !in s.slots.issued) && i in end.issued && !Active(end, i) then 1 else 0
    decreases |run|
  {
    hide Inv, Step, Enabled, Active;
    UnusedFacts(s, i);
    if run == [] {
      if Active(s.slots, i) {
        ActiveIsIssuedHere(s, i);
      }
    } else {
      OpKeepsInv(s, run[0]);
      LifeOfAnIndex(s, run[0], i);
      RecycledAtMostOnce(Step(s, run[0]), run[1..], i);
      UnusedFacts(Step(s, run[0]), i);
      if Active(s.slots, i) {
        ActiveIsIssuedHere(s, i);
        if !Active(Step(s, run[0]).slots, i) {
          RetiredStaysRetired(Step(s, run[0]), run[1..], i);
        }
      }
    }
  }

  lemma ActiveIsIssuedHere(s: Store, i: AssetIndex)
    requires Inv(s) && Active(s.slots, i)
    ensures i in s.slots.issued
  {
    ActiveIsIssued(s.slots, i);
  }

  /**
   For every run and every index it issued: the slot has been recycled at most once, and exactly once
   when all its handles have been dropped and their drops drained. If the run never forgot its counter,
   that is if and only if, and the slot is in use exactly while a handle or a pending drop is left.
   */
  lemma HandlesKeepTheirSlot(run: seq<Op>, i: AssetIndex)
    requires IsRun(NEW, run) && i in Exec(NEW, run).slots.issued
    ensures var s := Exec(NEW, run);
            && (s.live[i] == 0 && Count(s.pending, i) == 0 ==> Recyclings(NEW, run, i) == 1)
            && Recyclings(NEW, run, i) <= 1
            && (NeverForgets(NEW, run, i) ==>
                  && (Active(s.slots, i) <==> s.live[i] > 0 || Count(s.pending, i) > 0)
                  && (Recyclings(NEW, run, i) == 1 <==> s.live[i] == 0 && Count(s.pending, i) == 0))
  {
    hide AssetSlots.Inv, Active, Step, Enabled, Count, Counter;
    NewIsSound();
    RunKeepsInv(NEW, run);
    RecycledAtMostOnce(NEW, run, i);
    if NeverForgets(NEW, run, i) {
      NothingForgottenNothingLost(NEW, run, i);
    }
    assert Balanced(Exec(NEW, run), i);
  }

  /**
   Without that care the promise fails, from every state in which an asset has its handle and an
   empty drop channel: resolving a second handle, removing the value and dropping one handle
   recycles the slot while the other handle is live.
   */
  lemma ForgettingRecyclesUnderALiveHandle(s: Store, i: AssetIndex)
    requires Inv(s) && Contains(s, Index(i)) && i in s.live && s.pending == [] && Counter(s, i) == 0
    ensures var run := [Resolve(Index(i)), Remove(Index(i)), DropHandle(i), DrainOne];
            && IsRun(s, run)
            && i in Exec(s, run).live
            && !Active(Exec(s, run).slots, i)
  {
    hide Active, Inv, IsRun, Exec, Step, Enabled, Contains, Counter;
    ResolveThenRemove(s, i);
    DropThenDrain(Step(Step(s, Resolve(Index(i))), Remove(Index(i))), i);
    ExecFour(s, Resolve(Index(i)), Remove(Index(i)), DropHandle(i), DrainOne);
  }

  /** A second handle and a removal: two handles are left, and no counter. */
  lemma ResolveThenRemove(s: Store, i: AssetIndex)
    requires Inv(s) && Contains(s, Index(i)) && i in s.live && s.pending == [] && Counter(s, i) == 0
    ensures Enabled(s, Resolve(Index(i))) && Enabled(Step(s, Resolve(Index(i))), Remove(Index(i)))
    ensures var s2 := Step(Step(s, Resolve(Index(i))), Remove(Index(i)));
            Inv(s2) && Active(s2.slots, i) && s2.live[i] >= 2 && s2.pending == [] && Counter(s2, i) == 0
  {
    hide AssetSlots.Inv, Active, Call, CanCall, Flushed, Inv, Get;
    InvSlots(s);
    ContainedIsActive(s, i);
    ActiveIsIssued(s.slots, i);
    var s1 := Step(s, Resolve(Index(i)));
    OpKeepsInv(s, Resolve(Index(i)));
    IssuedIsUsable(s1, i, 0);
    OpKeepsInv(s1, Remove(Index(i)));
    RecycledExactlyByTheLastDrop(s1, Remove(Index(i)), i);
  }

  /** One of two handles is dropped and drained: the slot goes and the other handle stays. */
  lemma DropThenDrain(s: Store, i: AssetIndex)
    requires Inv(s) && Active(s.slots, i) && s.live[i] >= 2 && s.pending == [] && Counter(s, i) == 0
    ensures Enabled(s, DropHandle(i)) && Enabled(Step(s, DropHandle(i)), DrainOne)
    ensures var s2 := Step(Step(s, DropHandle(i)), DrainOne);
            i in s2.live && !Active(s2.slots, i)
  {
    hide AssetSlots.Inv, Active, Call, CanCall, Flushed, Inv, Get, Stores;
    InvSlots(s);
    ActiveIsIssued(s.slots, i);
    var s1 := Step(s, DropHandle(i));
    OpKeepsInv(s, DropHandle(i));
    IssuedIsUsable(s1, i, 0);
    RecycledExactlyByTheLastDrop(s1, DrainOne, i);
  }

  lemma ContainedIsActive(s: Store, i: AssetIndex)
    requires Inv(s) && Contains(s, Index(i))
    ensures Active(s.slots, i)
  {
    StoredIsActive(s.slots, i);
  }

  lemma ExecFour(s: Store, a: Op, b: Op, c: Op, d: Op)
    requires Enabled(s, a) && Enabled(Step(s, a), b) && Enabled(Step(Step(s, a), b), c) && Enabled(Step(Step(Step(s, a), b), c), d)
    ensures IsRun(s, [a, b, c, d])
    ensures Exec(s, [a, b, c, d]) == Step(Step(Step(Step(s, a), b), c), d)
  {
    hide Step, Enabled, IsRun, Exec;
    var s1 := Step(s, a);
    var s2 := Step(s1, b);
    var s3 := Step(s2, c);
    ExecNothing(Step(s3, d));
    ExecFirst(s3, d, []);
    ExecFirst(s2, c, [d] + []);
    ExecFirst(s1, b, [c] + ([d] + []));
    ExecFirst(s, a, [b] + ([c] + ([d] + [])));
    assert [a] + ([b] + ([c] + ([d] + []))) == [a, b, c, d];
  }

  lemma ExecNothing(s: Store)
    ensures IsRun(s, []) && Exec(s, []) == s
  {
  }

  lemma ExecFirst(s: Store, op: Op, rest: seq<Op>)
    requires Enabled(s, op) && IsRun(Step(s, op), rest)
    ensures IsRun(s, [op] + rest) && Exec(s, [op] + rest) == Exec(Step(s, op), rest)
  {
    hide Step, Enabled;
    assert ([op] + rest)[1..] == rest;
  }

  // ---------------------------------------------------------------------------
  // The event log

  function ReplayOne(present: set<AssetId>, e: Event): set<AssetId> {
    match e
    case Added(id) => present + {id}
    case Removed(id) => present - {id}
    case _ => present
  }

  /** The ids present after a log: `Added` inserts, `Removed` deletes. */
  function Replay(log: seq<Event>): set<AssetId> {
    if log == [] then {} else ReplayOne(Replay(log[..|log| - 1]), log[|log| - 1])
  }

  function ChangeOne(keys: set<AssetId>, e: Event): set<AssetId> {
    if e.Removed? || e.Unused? then keys - {e.id} else keys + {e.id}
  }

  /** The keys `AssetChanges` holds after a log. */
  function ChangeKeys(log: seq<Event>): set<AssetId> {
    if log == [] then {} else ChangeOne(ChangeKeys(log[..|log| - 1]), log[|log| - 1])
  }

  /** An event is in order if it adds something absent, or modifies or removes something present. */
  predicate InOrder(e: Event, present: set<AssetId>) {
    match e
    case Added(id) => id !in present
    case Modified(id) => id in present
    case Removed(id) => id in present
    case _ => true
  }

  ghost predicate WellOrdered(log: seq<Event>) {
    forall k :: 0 <= k < |log| ==> InOrder(log[k], Replay(log[..k]))
  }

  /** The log tells the truth about what is stored. */
  ghost predicate Truthful(s: Store) {
    && (forall id :: id in Replay(s.log) <==> Contains(s, id))
    && WellOrdered(s.log)
    && ChangeKeys(s.log) == Replay(s.log)
  }

  lemma LogOne(log: seq<Event>, e: Event)
    requires WellOrdered(log) && InOrder(e, Replay(log))
    ensures WellOrdered(log + [e])
    ensures Replay(log + [e]) == ReplayOne(Replay(log), e)
    ensures ChangeKeys(log + [e]) == ChangeOne(ChangeKeys(log), e)
  {
    var log' := log + [e];
    assert log'[..|log|] == log;
    forall k | 0 <= k < |log'| ensures InOrder(log'[k], Replay(log'[..k])) {
      if k < |log| { assert log'[..k] == log[..k]; }
    }
  }

  /** A step that neither logs nor changes what is stored. */
  lemma QuietKeepsTruth(s: Store, s': Store)
    requires Truthful(s) && s'.log == s.log
    requires forall id :: Contains(s', id) <==> Contains(s, id)
    ensures Truthful(s')
  {
  }

  /** An insertion by index stores its asset exactly when the index is active, and touches nothing else. */
  lemma InsertContents(s: Store, i: AssetIndex, asset: Asset, x: AssetId)
    requires Inv(s) && CanCall(s.slots, Insert(i, asset))
    ensures Contains(InsertIndex(s, i, asset), x) <==> if x == Index(i) then Active(s.slots, i) else Contains(s, x)
  {
    hide AssetSlots.Inv, Active, Call, Flushed, Get, ResultOf, Balanced;
    CallFacts(s.slots, Insert(i, asset));
    if x.Index? {
      CallValues(s.slots, Insert(i, asset), x.index);
    }
  }

  /** Its event says what happened: `Added` to an absent asset, `Modified` for a present one, none if refused. */
  lemma InsertTells(s: Store, i: AssetIndex, asset: Asset)
    requires Inv(s) && CanCall(s.slots, Insert(i, asset))
    ensures InsertEvents(Index(i), ResultOf(Flushed(s.slots), Insert(i, asset))) ==
            if !Active(s.slots, i) then []
            else if Contains(s, Index(i)) then [Modified(Index(i))] else [Added(Index(i))]
    ensures Contains(s, Index(i)) ==> Active(s.slots, i)
  {
    hide AssetSlots.Inv, Active, Call, Flushed, Balanced;
    CallFacts(s.slots, Insert(i, asset));
    FlushFindsTheActive(s.slots, i);
    if Contains(s, Index(i)) {
      StoredIsActive(s.slots, i);
    }
  }

  lemma InsertIndexKeepsTruth(s: Store, i: AssetIndex, asset: Asset)
    requires Inv(s) && Truthful(s) && CanCall(s.slots, Insert(i, asset))
    ensures Truthful(InsertIndex(s, i, asset))
  {
    hide Active, Call, CanCall, Flushed, Inv, WellOrdered, Replay, ChangeKeys, Contains, ResultOf, InsertEvents;
    var s' := InsertIndex(s, i, asset);
    InsertTells(s, i, asset);
    forall x ensures Contains(s', x) <==> if x == Index(i) then Active(s.slots, i) else Contains(s, x) {
      InsertContents(s, i, asset, x);
    }
    if Active(s.slots, i) {
      LogOne(s.log, if Contains(s, Index(i)) then Modified(Index(i)) else Added(Index(i)));
    } else {
      assert s'.log == s.log;
      QuietKeepsTruth(s, s');
    }
  }

  lemma InvSlots(s: Store)
    requires Inv(s)
    ensures AssetSlots.Inv(s.slots) && s.slots.op.None?
  {
  }

  lemma InsertUuidKeepsTruth(s: Store, u: Uuid, asset: Asset)
    requires Truthful(s)
    ensures Truthful(InsertUuid(s, u, asset))
  {
    hide Replay, ChangeKeys, WellOrdered, Get;
    assert Contains(s, Uuid(u)) == (Uuid(u) in Replay(s.log));
    LogOne(s.log, if u in s.uuids then Modified(Uuid(u)) else Added(Uuid(u)));
    forall id ensures Contains(InsertUuid(s, u, asset), id) <==> Contains(s, id) || id == Uuid(u) { }
  }

  /** A quiet removal takes exactly the given id out of the store. */
  lemma RemoveQuietlyContents(s: Store, id: AssetId, x: AssetId)
    requires Inv(s) && CanUse(s, id, 0)
    ensures Contains(RemoveQuietly(s, id), x) <==> Contains(s, x) && x != id
  {
    hide AssetSlots.Inv, Active, Call, Flushed;
    if id.Index? {
      CallFacts(s.slots, RemoveStillAlive(id.index));
      if x.Index? { CallValues(s.slots, RemoveStillAlive(id.index), x.index); }
    }
  }

  lemma RemoveKeepsTruth(s: Store, id: AssetId)
    requires Inv(s) && Truthful(s) && CanUse(s, id, 0)
    ensures Truthful(Step(s, Remove(id)))
  {
    hide AssetSlots.Inv, Active, Call, CanCall, Flushed, Inv, WellOrdered, Replay, ChangeKeys;
    var s' := Step(s, Remove(id));
    forall x ensures Contains(s', x) <==> Contains(s, x) && x != id {
      RemoveQuietlyContents(s, id, x);
    }
    if Contains(s, id) {
      LogOne(s.log, Removed(id));
    } else {
      assert s'.log == s.log;
      QuietKeepsTruth(s, s');
    }
  }

  /** Removing without tracking keeps the log truthful exactly when there was nothing to remove. */
  lemma UntrackedKeepsTruthOnlyIfAbsent(s: Store, id: AssetId)
    requires Inv(s) && Truthful(s) && Enabled(s, RemoveUntracked(id))
    ensures Truthful(Step(s, RemoveUntracked(id))) <==> !Contains(s, id)
  {
    hide AssetSlots.Inv, Active, Call, CanCall, Flushed, Inv;
    var s' := Step(s, RemoveUntracked(id));
    forall x ensures Contains(s', x) <==> Contains(s, x) && x != id {
      RemoveQuietlyContents(s, id, x);
    }
    if Contains(s, id) {
      assert id in Replay(s'.log) && !Contains(s', id);
    }
  }

  /** What a drop event logs when it recycles: the id, stored or not, is gone afterwards. */
  lemma LogRecycling(log: seq<Event>, id: AssetId)
    requires WellOrdered(log) && ChangeKeys(log) == Replay(log)
    ensures var log' := log + ([Unused(id)] + if id in Replay(log) then [Removed(id)] else []);
            && WellOrdered(log') && Replay(log') == Replay(log) - {id} && ChangeKeys(log') == Replay(log')
  {
    hide WellOrdered;
    LogOne(log, Unused(id));
    if id in Replay(log) {
      LogOne(log + [Unused(id)], Removed(id));
      assert log + ([Unused(id)] + [Removed(id)]) == log + [Unused(id)] + [Removed(id)];
    } else {
      assert log + ([Unused(id)] + []) == log + [Unused(id)];
    }
  }

  lemma DrainKeepsTruth(s: Store)
    requires Inv(s) && Truthful(s) && Enabled(s, DrainOne)
    ensures Truthful(Step(s, DrainOne))
  {
    hide Inv, WellOrdered, Contains, Replay, ChangeKeys, Step, CanCall, Counter;
    var s', i := Step(s, DrainOne), s.pending[0];
    DrainLogs(s);
    if Counter(s, i) > 0 {
      QuietKeepsTruth(s, s');
    } else {
      forall x ensures Contains(s', x) <==> Contains(s, x) && x != Index(i) {
        DrainContents(s, x);
      }
      assert Contains(s, Index(i)) == (Index(i) in Replay(s.log));
      LogRecycling(s.log, Index(i));
    }
  }

  lemma DrainLogs(s: Store)
    requires Enabled(s, DrainOne)
    ensures var s', i := Step(s, DrainOne), s.pending[0];
            && s'.delivered == s.delivered && s'.changes == s.changes
            && (Counter(s, i) > 0 ==> s'.log == s.log && forall x :: Contains(s', x) <==> Contains(s, x))
            && (Counter(s, i) == 0 ==>
                  s'.log == s.log + ([Unused(Index(i))] + if Contains(s, Index(i)) then [Removed(Index(i))] else []))
  {
    hide Call, CanCall, Flushed, Stores, Get;
  }

  /** Recycling takes exactly its own id out of the store. */
  lemma DrainContents(s: Store, x: AssetId)
    requires Inv(s) && Enabled(s, DrainOne) && Counter(s, s.pending[0]) == 0
    ensures Contains(Step(s, DrainOne), x) <==> Contains(s, x) && x != Index(s.pending[0])
  {
    hide AssetSlots.Inv, Active, Call, CanCall, Flushed, Get, Balanced;
    CallFacts(s.slots, RemoveAndRecycle(s.pending[0]));
    if x.Index? {
      CallValues(s.slots, RemoveAndRecycle(s.pending[0]), x.index);
    }
  }

  lemma AddKeepsTruth(s: Store, asset: Asset)
    requires Inv(s) && Truthful(s) && Enabled(s, Add(asset))
    ensures Truthful(Step(s, Add(asset)))
  {
    var i := ReserveId(s.slots);
    var s1 := s.(slots := Reserve(s.slots), live := s.live + multiset{i});
    ReservedKeepsInv(s);
    QuietKeepsTruth(s, s1);
    InsertIndexKeepsTruth(s1, i, asset);
  }

  /** Every operation except an untracked removal keeps the log truthful. */
  lemma OpKeepsTruth(s: Store, op: Op)
    requires Inv(s) && Truthful(s) && Enabled(s, op)
    requires op.RemoveUntracked? ==> !Contains(s, op.id)
    ensures Truthful(Step(s, op))
  {
    hide Inv, Truthful;
    match op
    case Other(a) => OtherKeepsTruth(s, a);
    case Add(asset) => AddKeepsTruth(s, asset);
    case InsertAt(id, asset) =>
      if id.Index? { InsertIndexKeepsTruth(s, id.index, asset); } else { InsertUuidKeepsTruth(s, id.uuid, asset); }
    case Resolve(id) => QuietStepKeepsTruth(s, op);
    case Touch(id) => TouchKeepsTruth(s, id);
    case Remove(id) => RemoveKeepsTruth(s, id);
    case RemoveUntracked(id) => UntrackedKeepsTruthOnlyIfAbsent(s, id);
    case DropHandle(i) => QuietStepKeepsTruth(s, op);
    case DrainOne => DrainKeepsTruth(s);
    case HandleEvents(tick) => QuietStepKeepsTruth(s, op);
  }

  lemma OtherKeepsTruth(s: Store, a: Action)
    requires Truthful(s) && Enabled(s, Other(a))
    ensures Truthful(Step(s, Other(a)))
  {
    QuietKeepsTruth(s, Step(s, Other(a)));
  }

  lemma QuietStepKeepsTruth(s: Store, op: Op)
    requires Truthful(s) && Enabled(s, op) && (op.Resolve? || op.DropHandle? || op.HandleEvents?)
    ensures Truthful(Step(s, op))
  {
    QuietKeepsTruth(s, Step(s, op));
  }

  lemma TouchKeepsTruth(s: Store, id: AssetId)
    requires Truthful(s) && Contains(s, id)
    ensures Truthful(Step(s, Touch(id)))
  {
    hide WellOrdered, Get, Replay, ChangeKeys;
    LogOne(s.log, Modified(id));
    forall x ensures Contains(Step(s, Touch(id)), x) <==> Contains(s, x) { }
  }

  // ---------------------------------------------------------------------------
  // AssetChanges

  /** The recorded keys are those of the delivered part of the log. */
  ghost predicate Mirrored(s: Store) {
    s.delivered <= |s.log| && s.changes.Keys == ChangeKeys(s.log[..s.delivered])
  }

  lemma {:induction false} RecordedKeys(changes: map<AssetId, Time>, log: seq<Event>, from: nat, tick: Time)
    requires from <= |log| && changes.Keys == ChangeKeys(log[..from])
    ensures RecordedAll(changes, log[from..], tick).Keys == ChangeKeys(log)
    decreases |log|
  {
    if from == |log| {
      assert log[..from] == log;
    } else {
      var n := |log| - 1;
      assert log[..n][..from] == log[..from];
      RecordedKeys(changes, log[..n], from, tick);
      assert log[from..][..|log[from..]| - 1] == log[..n][from..];
    }
  }

  predicate Records(e: Event, id: AssetId) {
    e.id == id && !e.Removed? && !e.Unused?
  }

  /** A recorded id carries the tick of this delivery if the batch mentions it, else its old tick. */
  lemma {:induction false} RecordedTick(changes: map<AssetId, Time>, events: seq<Event>, tick: Time, id: AssetId)
    requires id in RecordedAll(changes, events, tick)
    ensures (exists k :: 0 <= k < |events| && Records(events[k], id)) ==> RecordedAll(changes, events, tick)[id] == tick
    ensures (forall k :: 0 <= k < |events| ==> !Records(events[k], id))
              ==> id in changes && RecordedAll(changes, events, tick)[id] == changes[id]
  {
    if events != [] {
      var n := |events| - 1;
      var rest, e := events[..n], events[n];
      if e.id != id {
        RecordedTick(changes, rest, tick, id);
        if k :| 0 <= k < |events| && Records(events[k], id) {
          assert rest[k] == events[k];
        }
        assert forall k :: 0 <= k < n ==> rest[k] == events[k];
      }
    }
  }

  lemma OpKeepsMirror(s: Store, op: Op)
    requires Mirrored(s) && Enabled(s, op)
    ensures Mirrored(Step(s, op))
  {
    var s' := Step(s, op);
    if op.HandleEvents? {
      RecordedKeys(s.changes, s.log, s.delivered, op.tick);
      assert s'.log[..s'.delivered] == s.log;
    } else {
      LogOnlyGrows(s, op);
      assert s'.log[..s.delivered] == s.log[..s.delivered];
    }
  }

  lemma LogOnlyGrows(s: Store, op: Op)
    requires Enabled(s, op) && !op.HandleEvents?
    ensures s.log <= Step(s, op).log && Step(s, op).delivered == s.delivered && Step(s, op).changes == s.changes
  {
    hide Call, CanCall, Flushed, Reserve, CanReserve, ReserveId, AssetSlots.Step, AssetSlots.Enabled;
    hide Contains, InsertEvents, ResultOf, Stores, Counter, Returns;
    match op
    case InsertAt(id, asset) => if id.Index? { } else { }
    case Remove(id) => if id.Index? { } else { }
    case RemoveUntracked(id) => if id.Index? { } else { }
    case DrainOne => DrainLogs(s);
    case _ =>
  }

  /** No asset is removed without its event. */
  predicate Tracked(s: Store, run: seq<Op>)
    requires IsRun(s, run)
    decreases |run|
  {
    run == [] ||
    ((run[0].RemoveUntracked? ==> !Contains(s, run[0].id)) && Tracked(Step(s, run[0]), run[1..]))
  }

  lemma {:induction false} TrackedRunKeepsTruth(s: Store, run: seq<Op>)
    requires Inv(s) && Truthful(s) && Mirrored(s) && IsRun(s, run) && Tracked(s, run)
    ensures Truthful(Exec(s, run)) && Mirrored(Exec(s, run))
    decreases |run|
  {
    hide Inv, Truthful, Mirrored, Step, Enabled, Contains;
    if run != [] {
      OpKeepsInv(s, run[0]);
      OpKeepsTruth(s, run[0]);
      OpKeepsMirror(s, run[0]);
      TrackedRunKeepsTruth(Step(s, run[0]), run[1..]);
    }
  }

  /**
   In every run without an effective untracked removal: replaying the log gives exactly the stored
   ids, every event is in order, and right after the events are handled `AssetChanges` has exactly
   the stored ids as keys.
   */
  lemma TheLogTellsTheTruth(run: seq<Op>, tick: Time, id: AssetId)
    requires IsRun(NEW, run) && Tracked(NEW, run)
    ensures var s := Exec(NEW, run);
            && (id in Replay(s.log) <==> Contains(s, id))
            && WellOrdered(s.log)
            && Enabled(s, HandleEvents(tick))
            && (id in Step(s, HandleEvents(tick)).changes <==> Contains(s, id))
  {
    hide Inv, Step, Enabled, WellOrdered;
    NewIsSound();
    NewIsTruthful();
    TrackedRunKeepsTruth(NEW, run);
    var s := Exec(NEW, run);
    HandledChanges(s, tick);
  }

  lemma NewIsTruthful()
    ensures Truthful(NEW) && Mirrored(NEW)
  {
    forall x ensures !Contains(NEW, x) { }
  }

  lemma HandledChanges(s: Store, tick: Time)
    requires Mirrored(s)
    ensures Enabled(s, HandleEvents(tick))
    ensures Step(s, HandleEvents(tick)).changes.Keys == ChangeKeys(s.log)
  {
    RecordedKeys(s.changes, s.log, s.delivered, tick);
  }

  // ---------------------------------------------------------------------------
  // A log that has been misled stays so

  /** Replaying the log gives exactly the stored ids, by events that are each in order. */
  ghost predicate TrueLog(s: Store) {
    (forall id :: id in Replay(s.log) <==> Contains(s, id)) && WellOrdered(s.log)
  }

  /** The log lists an id that is gone, or has an event out of order. */
  ghost predicate Misled(s: Store) {
    !WellOrdered(s.log) || exists id :: id in Replay(s.log) && !Contains(s, id)
  }

  lemma DisorderStays(log: seq<Event>, log': seq<Event>)
    requires !WellOrdered(log) && log <= log'
    ensures !WellOrdered(log')
  {
    var k :| 0 <= k < |log| && !InOrder(log[k], Replay(log[..k]));
    assert log'[k] == log[k] && log'[..k] == log[..k];
  }

  lemma {:induction false} ListedUntilRemoved(log: seq<Event>, events: seq<Event>, id: AssetId)
    requires id in Replay(log) && Removed(id) !in events
    ensures id in Replay(log + events)
  {
    if events == [] {
      assert log + events == log;
    } else {
      var n := |events| - 1;
      ListedUntilRemoved(log, events[..n], id);
      assert (log + events)[..|log| + n] == log + events[..n];
      assert events[n] in events;
    }
  }

  /** A step does not make good for a listed id that is gone if it logs no removal of it and adds it anew. */
  lemma MisledByOne(s: Store, s': Store, events: seq<Event>, id: AssetId)
    requires id in Replay(s.log) && !Contains(s, id) && s'.log == s.log + events
    requires Removed(id) !in events
    requires Contains(s', id) ==> events != [] && events[0] == Added(id)
    ensures Misled(s')
  {
    hide Replay, Contains;
    if Contains(s', id) {
      assert s'.log[|s.log|] == Added(id) && s'.log[..|s.log|] == s.log;
    } else {
      ListedUntilRemoved(s.log, events, id);
    }
  }

  lemma InsertIndexStaysMisled(s: Store, i: AssetIndex, asset: Asset, id: AssetId)
    requires Inv(s) && CanCall(s.slots, Insert(i, asset)) && id in Replay(s.log) && !Contains(s, id)
    ensures Misled(InsertIndex(s, i, asset))
  {
    hide AssetSlots.Inv, Active, Call, Flushed, Inv, Misled, Replay;
    InvSlots(s);
    CallFacts(s.slots, Insert(i, asset));
    FlushFindsTheActive(s.slots, i);
    if id.Index? {
      CallValues(s.slots, Insert(i, asset), id.index);
    }
    var r := ResultOf(Flushed(s.slots), Insert(i, asset));
    MisledByOne(s, InsertIndex(s, i, asset), InsertEvents(Index(i), r), id);
  }

  lemma InsertUuidStaysMisled(s: Store, u: Uuid, asset: Asset, id: AssetId)
    requires id in Replay(s.log) && !Contains(s, id)
    ensures Misled(InsertUuid(s, u, asset))
  {
    hide Misled, Replay, Get;
    MisledByOne(s, InsertUuid(s, u, asset), [if u in s.uuids then Modified(Uuid(u)) else Added(Uuid(u))], id);
  }

  lemma RemovalStaysMisled(s: Store, id: AssetId, gone: AssetId)
    requires Inv(s) && CanUse(s, id, 0) && gone in Replay(s.log) && !Contains(s, gone)
    ensures Misled(Step(s, Remove(id))) && Misled(Step(s, RemoveUntracked(id)))
  {
    hide Inv, Misled, Replay, RemoveQuietly, Get;
    RemoveQuietlyContents(s, id, gone);
    QuietLog(s, id);
    MisledByOne(s, Step(s, Remove(id)), if Contains(s, id) then [Removed(id)] else [], gone);
    assert s.log + [] == s.log;
    MisledByOne(s, Step(s, RemoveUntracked(id)), [], gone);
  }

  lemma QuietLog(s: Store, id: AssetId)
    requires CanUse(s, id, 0)
    ensures RemoveQuietly(s, id).log == s.log
  {
  }

  lemma DrainStaysMisled(s: Store, id: AssetId)
    requires Inv(s) && Enabled(s, DrainOne) && id in Replay(s.log) && !Contains(s, id)
    ensures Misled(Step(s, DrainOne))
  {
    hide AssetSlots.Inv, Active, Call, CanCall, Flushed, Inv, Misled, Replay, Get;
    var i := s.pending[0];
    assert s.log + [] == s.log;
    if Counter(s, i) > 0 {
      MisledByOne(s, Step(s, DrainOne), [], id);
    } else {
      InvSlots(s);
      CallFacts(s.slots, RemoveAndRecycle(i));
      if id.Index? {
        CallValues(s.slots, RemoveAndRecycle(i), id.index);
      }
      MisledByOne(s, Step(s, DrainOne),
                  [Unused(Index(i))] + (if Contains(s, Index(i)) then [Removed(Index(i))] else []), id);
    }
  }

  /** Steps that do not touch what is stored. */
  lemma OthersStayMisled(s: Store, op: Op, id: AssetId)
    requires Enabled(s, op) && id in Replay(s.log) && !Contains(s, id)
    requires op.Other? || op.Resolve? || op.Touch? || op.DropHandle? || op.HandleEvents?
    ensures Misled(Step(s, op))
  {
    hide Misled, Replay, Get, RecordedAll;
    assert s.log + [] == s.log;
    MisledByOne(s, Step(s, op), if op.Touch? then [Modified(op.id)] else [], id);
  }

  lemma AddStaysMisled(s: Store, asset: Asset, id: AssetId)
    requires Inv(s) && Enabled(s, Add(asset)) && id in Replay(s.log) && !Contains(s, id)
    ensures Misled(Step(s, Add(asset)))
  {
    hide Inv, Misled, Replay, Get;
    var i := ReserveId(s.slots);
    ReservedKeepsInv(s);
    InsertIndexStaysMisled(s.(slots := Reserve(s.slots), live := s.live + multiset{i}), i, asset, id);
  }

  /** No operation makes a misled log true again. */
  lemma MisledStaysMisled(s: Store, op: Op)
    requires Inv(s) && Enabled(s, op) && Misled(s)
    ensures Misled(Step(s, op))
  {
    hide Inv, Replay, Contains, WellOrdered;
    if !WellOrdered(s.log) {
      LogGrows(s, op);
      DisorderStays(s.log, Step(s, op).log);
    } else {
      var id :| id in Replay(s.log) && !Contains(s, id);
      match op
      case Add(asset) => AddStaysMisled(s, asset, id);
      case InsertAt(target, asset) =>
        if target.Index? {
          InsertIndexStaysMisled(s, target.index, asset, id);
        } else {
          InsertUuidStaysMisled(s, target.uuid, asset, id);
        }
      case Remove(target) => RemovalStaysMisled(s, target, id);
      case RemoveUntracked(target) => RemovalStaysMisled(s, target, id);
      case DrainOne => DrainStaysMisled(s, id);
      case _ => OthersStayMisled(s, op, id);
    }
  }

  lemma LogGrows(s: Store, op: Op)
    requires Enabled(s, op)
    ensures s.log <= Step(s, op).log
  {
    if !op.HandleEvents? {
      LogOnlyGrows(s, op);
    }
  }

  lemma {:induction false} MisledOverRuns(s: Store, run: seq<Op>)
    requires Inv(s) && Misled(s) && IsRun(s, run)
    ensures Misled(Exec(s, run))
    decreases |run|
  {
    hide Inv, Misled, Step, Enabled;
    if run != [] {
      OpKeepsInv(s, run[0]);
      MisledStaysMisled(s, run[0]);
      MisledOverRuns(Step(s, run[0]), run[1..]);
    }
  }

  /** Removing something stored without its event misleads the log. */
  lemma UntrackedMisleads(s: Store, id: AssetId)
    requires Inv(s) && Truthful(s) && Enabled(s, RemoveUntracked(id)) && Contains(s, id)
    ensures Misled(Step(s, RemoveUntracked(id)))
  {
    hide Inv, WellOrdered, Get;
    RemoveQuietlyContents(s, id, id);
    QuietLog(s, id);
    assert id in Replay(Step(s, RemoveUntracked(id)).log);
  }

  lemma {:induction false} UntrackedRunsMislead(s: Store, run: seq<Op>)
    requires Inv(s) && Truthful(s) && IsRun(s, run) && !Tracked(s, run)
    ensures Misled(Exec(s, run))
    decreases |run|
  {
    hide Inv, Truthful, Misled, Step, Enabled, Contains;
    OpKeepsInv(s, run[0]);
    if run[0].RemoveUntracked? && Contains(s, run[0].id) {
      UntrackedMisleads(s, run[0].id);
      MisledOverRuns(Step(s, run[0]), run[1..]);
    } else {
      OpKeepsTruth(s, run[0]);
      UntrackedRunsMislead(Step(s, run[0]), run[1..]);
    }
  }

  /**
   For every run: at its end the log is true if and only if the run removed nothing without its event.
   What happens afterwards never makes good for such a removal.
   */
  lemma TheLogIsTrueExactlyWhenTracked(run: seq<Op>)
    requires IsRun(NEW, run)
    ensures TrueLog(Exec(NEW, run)) <==> Tracked(NEW, run)
  {
    hide Inv, Step, Enabled, WellOrdered;
    NewIsSound();
    NewIsTruthful();
    if Tracked(NEW, run) {
      TrackedRunKeepsTruth(NEW, run);
    } else {
      UntrackedRunsMislead(NEW, run);
    }
  }

  // ---------------------------------------------------------------------------
  // When `AssetChanges` is right about an id

  /** What is stored is recorded; only the converse can fail. */
  ghost predicate Covered(s: Store, id: AssetId) {
    Contains(s, id) ==> id in ChangeKeys(s.log)
  }

  /** Recorded, or about to be, and yet gone. */
  ghost predicate Stale(s: Store, id: AssetId) {
    id in ChangeKeys(s.log) && !Contains(s, id)
  }

  predicate About(events: seq<Event>, id: AssetId) {
    exists k :: 0 <= k < |events| && events[k].id == id
  }

  /** The events an operation queues. */
  function EventsOf(s: Store, op: Op): seq<Event>
    requires Enabled(s, op)
  {
    LogGrows(s, op);
    Step(s, op).log[|s.log|..]
  }

  predicate SilentlyRemoves(s: Store, op: Op, id: AssetId) {
    op == RemoveUntracked(id) && Contains(s, id)
  }

  lemma {:induction false} KeysAfter(log: seq<Event>, events: seq<Event>, id: AssetId)
    ensures !About(events, id) ==> (id in ChangeKeys(log + events) <==> id in ChangeKeys(log))
    ensures events != [] && events[|events| - 1].id == id ==>
              (id in ChangeKeys(log + events) <==> !(events[|events| - 1].Removed? || events[|events| - 1].Unused?))
  {
    if events == [] {
      assert log + events == log;
    } else {
      var n := |events| - 1;
      KeysAfter(log, events[..n], id);
      assert (log + events)[..|log| + n] == log + events[..n];
      if !About(events, id) {
        assert events[n].id != id && !About(events[..n], id);
      }
    }
  }

  /** The last event about an id tells whether it is stored: then the keys are right from then on. */
  lemma StaleByEvents(s: Store, s': Store, events: seq<Event>, id: AssetId)
    requires Covered(s, id) && s'.log == s.log + events && Tells(s, s', events, id)
    ensures Covered(s', id) && (Stale(s', id) <==> Stale(s, id) && !About(events, id))
  {
    hide Contains, ChangeKeys;
    KeysAfter(s.log, events, id);
  }

  lemma AboutOne(e: Event, id: AssetId)
    ensures About([e], id) <==> e.id == id
    ensures !About([], id)
  {
    assert [e][0] == e;
  }

  lemma AboutSame(events: seq<Event>, x: AssetId, id: AssetId)
    requires events != [] && forall k :: 0 <= k < |events| ==> events[k].id == x
    ensures About(events, id) <==> x == id
  {
    assert events[0].id == x;
  }

  /** The last of the events says whether the id is stored afterwards; without events nothing changed. */
  ghost predicate Tells(s: Store, s': Store, events: seq<Event>, id: AssetId) {
    && (!About(events, id) ==> (Contains(s', id) <==> Contains(s, id)))
    && (About(events, id) ==>
          && events[|events| - 1].id == id
          && (Contains(s', id) <==> !(events[|events| - 1].Removed? || events[|events| - 1].Unused?)))
  }

  lemma InsertIndexTells(s: Store, i: AssetIndex, asset: Asset, id: AssetId)
    requires Inv(s) && CanCall(s.slots, Insert(i, asset))
    ensures Tells(s, InsertIndex(s, i, asset), InsertEvents(Index(i), ResultOf(Flushed(s.slots), Insert(i, asset))), id)
  {
    hide Inv, Active, Call, CanCall, Flushed, Contains, ResultOf, InsertEvents, About;
    InsertTells(s, i, asset);
    InsertContents(s, i, asset, id);
    AboutOne(Modified(Index(i)), id);
    AboutOne(Added(Index(i)), id);
  }

  lemma InsertUuidTells(s: Store, u: Uuid, asset: Asset, id: AssetId)
    ensures Tells(s, InsertUuid(s, u, asset), [if u in s.uuids then Modified(Uuid(u)) else Added(Uuid(u))], id)
  {
    hide About, Get;
    AboutOne(if u in s.uuids then Modified(Uuid(u)) else Added(Uuid(u)), id);
  }

  lemma RemoveTells(s: Store, target: AssetId, id: AssetId)
    requires Inv(s) && Enabled(s, Remove(target))
    ensures Tells(s, Step(s, Remove(target)), if Contains(s, target) then [Removed(target)] else [], id)
  {
    hide Inv, RemoveQuietly, About, Get;
    RemoveQuietlyContents(s, target, id);
    AboutOne(Removed(target), id);
  }

  lemma DrainTells(s: Store, id: AssetId)
    requires Inv(s) && Enabled(s, DrainOne) && Counter(s, s.pending[0]) == 0
    ensures var i := s.pending[0];
            Tells(s, Step(s, DrainOne), [Unused(Index(i))] + (if Contains(s, Index(i)) then [Removed(Index(i))] else []), id)
  {
    hide Inv, Step, CanCall, About, Contains;
    var i := s.pending[0];
    DrainContents(s, id);
    AboutSame([Unused(Index(i))] + (if Contains(s, Index(i)) then [Removed(Index(i))] else []), Index(i), id);
  }

  lemma AddTells(s: Store, asset: Asset, id: AssetId)
    requires Inv(s) && Enabled(s, Add(asset))
    ensures Tells(s, Step(s, Add(asset)), EventsOf(s, Add(asset)), id)
  {
    hide Inv, About, Get, InsertEvents, ResultOf, Flushed, Call;
    var i := ReserveId(s.slots);
    ReservedKeepsInv(s);
    InsertIndexTells(s.(slots := Reserve(s.slots), live := s.live + multiset{i}), i, asset, id);
  }

  function TouchEvents(op: Op): seq<Event> {
    if op.Touch? then [Modified(op.id)] else []
  }

  /** Operations that queue nothing, or a `Modified` for something stored. */
  lemma OtherTells(s: Store, op: Op, id: AssetId)
    requires Enabled(s, op)
    requires op.Other? || op.Resolve? || op.Touch? || op.DropHandle? || op.HandleEvents? || (op.DrainOne? && Counter(s, s.pending[0]) > 0)
    ensures Tells(s, Step(s, op), TouchEvents(op), id)
    ensures Step(s, op).log == s.log + TouchEvents(op)
  {
    hide About, Contains, Step, Counter;
    StoredStays(s, op, id);
    AboutOne(Modified(id), id);
    if op.Touch? {
      AboutOne(Modified(op.id), id);
    }
  }

  lemma StoredIn(s: Store, s': Store, id: AssetId)
    requires s'.uuids == s.uuids && s'.slots.storage == s.slots.storage
    ensures ValueOf(s', id) == ValueOf(s, id) && (Contains(s', id) <==> Contains(s, id))
  {
    hide Get;
  }

  lemma ReservationStores(s: Slots, a: Action)
    requires (a.Pop? || a.Push? || a.FetchAdd?) && AssetSlots.Enabled(s, a)
    ensures AssetSlots.Step(s, a).storage == s.storage
  {
  }

  lemma StoredStays(s: Store, op: Op, id: AssetId)
    requires Enabled(s, op)
    requires op.Other? || op.Resolve? || op.Touch? || op.DropHandle? || op.HandleEvents? || (op.DrainOne? && Counter(s, s.pending[0]) > 0)
    ensures ValueOf(Step(s, op), id) == ValueOf(s, id) && (Contains(Step(s, op), id) <==> Contains(s, id))
    ensures Step(s, op).log == s.log + TouchEvents(op)
  {
    hide RecordedAll, CanCall, Call, Flushed, Get, Contains, ValueOf, AssetSlots.Step, AssetSlots.Enabled;
    if op.Other? {
      ReservationStores(s.slots, op.a);
    }
    StoredIn(s, Step(s, op), id);
    assert s.log + [] == s.log;
  }

  lemma EventsAre(s: Store, op: Op, events: seq<Event>)
    requires Enabled(s, op) && Step(s, op).log == s.log + events
    ensures EventsOf(s, op) == events
  {
    hide Step, Enabled;
  }

  lemma StepTells(s: Store, op: Op, id: AssetId)
    requires Inv(s) && Enabled(s, op) && !op.RemoveUntracked?
    ensures Tells(s, Step(s, op), EventsOf(s, op), id)
  {
    hide Inv, Tells, About, Contains, Call, CanCall, Flushed, ResultOf, InsertEvents, RecordedAll, RemoveQuietly;
    match op
    case Add(asset) => AddTells(s, asset, id);
    case InsertAt(target, asset) =>
      if target.Index? {
        InsertIndexTells(s, target.index, asset, id);
      } else {
        InsertUuidTells(s, target.uuid, asset, id);
      }
    case Remove(target) =>
      RemoveTells(s, target, id);
      QuietLog(s, target);
      EventsAre(s, op, if Contains(s, target) then [Removed(target)] else []);
    case DrainOne =>
      if Counter(s, s.pending[0]) == 0 {
        DrainTells(s, id);
      } else {
        OtherTells(s, op, id);
        EventsAre(s, op, []);
      }
    case _ =>
      OtherTells(s, op, id);
      EventsAre(s, op, TouchEvents(op));
  }

  /** How a step changes whether an id is stale: a silent removal makes it so, an event about it ends it. */
  lemma StaleStep(s: Store, op: Op, id: AssetId)
    requires Inv(s) && Enabled(s, op) && Covered(s, id)
    ensures Covered(Step(s, op), id)
    ensures Stale(Step(s, op), id) <==> SilentlyRemoves(s, op, id) || (Stale(s, id) && !About(EventsOf(s, op), id))
  {
    hide Inv, Step, Enabled, About, ChangeKeys, Contains;
    if op.RemoveUntracked? {
      SilentStep(s, op.id, id);
    } else {
      StepTells(s, op, id);
      LogGrows(s, op);
      StaleByEvents(s, Step(s, op), EventsOf(s, op), id);
    }
  }

  lemma SilentStep(s: Store, target: AssetId, id: AssetId)
    requires Inv(s) && Enabled(s, RemoveUntracked(target))
    ensures Step(s, RemoveUntracked(target)).log == s.log && EventsOf(s, RemoveUntracked(target)) == []
    ensures !About(EventsOf(s, RemoveUntracked(target)), id)
    ensures Contains(Step(s, RemoveUntracked(target)), id) <==> Contains(s, id) && id != target
  {
    hide Inv, RemoveQuietly, Contains;
    RemoveQuietlyContents(s, target, id);
    QuietLog(s, target);
  }

  /** Some step of the run queues an event about `id`. */
  predicate ReportedLater(s: Store, run: seq<Op>, id: AssetId)
    requires IsRun(s, run)
    decreases |run|
  {
    run != [] && (About(EventsOf(s, run[0]), id) || ReportedLater(Step(s, run[0]), run[1..], id))
  }

  /** The run removes `id` without its event and queues no event about it from then on. */
  predicate LeftStale(s: Store, run: seq<Op>, id: AssetId)
    requires IsRun(s, run)
    decreases |run|
  {
    run != []
    && (LeftStale(Step(s, run[0]), run[1..], id)
        || (SilentlyRemoves(s, run[0], id) && !ReportedLater(Step(s, run[0]), run[1..], id)))
  }

  lemma {:induction false} StaleOverRuns(s: Store, run: seq<Op>, id: AssetId)
    requires Inv(s) && Covered(s, id) && IsRun(s, run)
    ensures Covered(Exec(s, run), id)
    ensures Stale(Exec(s, run), id) <==> LeftStale(s, run, id) || (Stale(s, id) && !ReportedLater(s, run, id))
    decreases |run|
  {
    hide Inv, Covered, Stale, SilentlyRemoves, About, Step, Enabled, EventsOf;
    if run != [] {
      OpKeepsInv(s, run[0]);
      StaleStep(s, run[0], id);
      StaleOverRuns(Step(s, run[0]), run[1..], id);
    }
  }

  lemma {:induction false} MirrorOverRuns(s: Store, run: seq<Op>)
    requires Mirrored(s) && IsRun(s, run)
    ensures Mirrored(Exec(s, run))
    decreases |run|
  {
    hide Mirrored, Step, Enabled;
    if run != [] {
      OpKeepsMirror(s, run[0]);
      MirrorOverRuns(Step(s, run[0]), run[1..]);
    }
  }

  /**
   For every run and every id: right after the events are handled, `AssetChanges` is right about the id,
   recording it if and only if it is stored, exactly when the run did not remove it without its event and
   then report nothing about it. Unlike the log it recovers with the next event.
   */
  lemma ChangesAreRightExactly(run: seq<Op>, tick: Time, id: AssetId)
    requires IsRun(NEW, run)
    ensures Enabled(Exec(NEW, run), HandleEvents(tick))
    ensures var s := Exec(NEW, run);
            (id in Step(s, HandleEvents(tick)).changes <==> Contains(s, id)) <==> !LeftStale(NEW, run, id)
  {
    hide Inv, Step, Enabled, IsRun, Exec, LeftStale, ReportedLater, Contains;
    NewIsSound();
    NewIsTruthful();
    MirrorOverRuns(NEW, run);
    HandledChanges(Exec(NEW, run), tick);
    StaleOverRuns(NEW, run, id);
  }

  // ---------------------------------------------------------------------------
  // What is stored under an id

  /** The operation inserts under `id` and is accepted. */
  ghost predicate Writes(s: Store, op: Op, id: AssetId) {
    || (op.Add? && id == Index(ReserveId(s.slots)))
    || (op.InsertAt? && op.id == id && (id.Index? ==> Active(s.slots, id.index)))
  }

  /** The operation removes what is stored under `id`, or recycles its slot. */
  predicate Clears(s: Store, op: Op, id: AssetId) {
    || ((op.Remove? || op.RemoveUntracked?) && op.id == id)
    || (op.DrainOne? && s.pending != [] && id == Index(s.pending[0]) && Counter(s, s.pending[0]) == 0)
  }

  lemma InsertIndexValue(s: Store, i: AssetIndex, asset: Asset, id: AssetId)
    requires Inv(s) && CanCall(s.slots, Insert(i, asset))
    ensures ValueOf(InsertIndex(s, i, asset), id) ==
            if id == Index(i) && Active(s.slots, i) then Some(asset) else ValueOf(s, id)
  {
    hide AssetSlots.Inv, Active, Call, Flushed, ResultOf, Balanced;
    CallFacts(s.slots, Insert(i, asset));
    if id.Index? {
      CallValues(s.slots, Insert(i, asset), id.index);
    }
    if Stores(s.slots.storage, i) {
      StoredIsActive(s.slots, i);
    }
  }

  lemma InsertUuidValue(s: Store, u: Uuid, asset: Asset, id: AssetId)
    ensures ValueOf(InsertUuid(s, u, asset), id) == if id == Uuid(u) then Some(asset) else ValueOf(s, id)
  {
    hide Get;
  }

  lemma AddValue(s: Store, asset: Asset, id: AssetId)
    requires Inv(s) && Enabled(s, Add(asset))
    ensures ValueOf(Step(s, Add(asset)), id) == if id == Index(ReserveId(s.slots)) then Some(asset) else ValueOf(s, id)
  {
    hide Inv, Active, InsertIndex, ValueOf;
    var i := ReserveId(s.slots);
    var s1 := s.(slots := Reserve(s.slots), live := s.live + multiset{i});
    ReservedKeepsInv(s);
    InvSlots(s);
    ReserveFacts(s.slots, i);
    StoredIn(s, s1, id);
    InsertIndexValue(s1, i, asset, id);
  }

  lemma RemoveValue(s: Store, target: AssetId, id: AssetId)
    requires Inv(s) && CanUse(s, target, 0)
    ensures ValueOf(RemoveQuietly(s, target), id) == if id == target then None else ValueOf(s, id)
  {
    hide AssetSlots.Inv, Active, Call, Flushed, Get, Balanced;
    if target.Index? {
      CallFacts(s.slots, RemoveStillAlive(target.index));
      if id.Index? {
        CallValues(s.slots, RemoveStillAlive(target.index), id.index);
      }
    }
  }

  lemma DrainValue(s: Store, id: AssetId)
    requires Inv(s) && Enabled(s, DrainOne) && Counter(s, s.pending[0]) == 0
    ensures ValueOf(Step(s, DrainOne), id) == if id == Index(s.pending[0]) then None else ValueOf(s, id)
  {
    hide AssetSlots.Inv, Active, Call, CanCall, Flushed, Get, Balanced;
    CallFacts(s.slots, RemoveAndRecycle(s.pending[0]));
    if id.Index? {
      CallValues(s.slots, RemoveAndRecycle(s.pending[0]), id.index);
    }
  }

  /** Every operation: an accepted insertion stores its asset, a removal leaves nothing, all else stays. */
  lemma OpValue(s: Store, op: Op, id: AssetId)
    requires Inv(s) && Enabled(s, op)
    ensures ValueOf(Step(s, op), id) ==
            if Writes(s, op, id) then Some(op.asset) else if Clears(s, op, id) then None else ValueOf(s, id)
  {
    hide Inv, Active, Call, CanCall, Flushed, InsertIndex, InsertUuid, RemoveQuietly, RecordedAll, ValueOf;
    match op
    case Add(asset) => AddValue(s, asset, id);
    case InsertAt(target, asset) =>
      if target.Index? {
        InsertIndexValue(s, target.index, asset, id);
      } else {
        InsertUuidValue(s, target.uuid, asset, id);
      }
    case Remove(target) =>
      RemoveValue(s, target, id);
      StoredIn(RemoveQuietly(s, target), Step(s, op), id);
    case RemoveUntracked(target) => RemoveValue(s, target, id);
    case DrainOne =>
      if Counter(s, s.pending[0]) == 0 {
        DrainValue(s, id);
      } else {
        StoredStays(s, op, id);
      }
    case _ => StoredStays(s, op, id);
  }

  /** What the operations of a run leave under `id`, if it held `value` before. */
  ghost function LastWritten(s: Store, run: seq<Op>, id: AssetId, value: Option<Asset>): Option<Asset>
    requires IsRun(s, run)
    decreases |run|
  {
    if run == [] then value
    else
      var op := run[0];
      LastWritten(Step(s, op), run[1..], id,
                  if Writes(s, op, id) then Some(op.asset) else if Clears(s, op, id) then None else value)
  }

  lemma {:induction false} ValueOverRuns(s: Store, run: seq<Op>, id: AssetId)
    requires Inv(s) && IsRun(s, run)
    ensures ValueOf(Exec(s, run), id) == LastWritten(s, run, id, ValueOf(s, id))
    decreases |run|
  {
    hide Inv, Step, Enabled, Writes, Clears, ValueOf;
    if run != [] {
      OpKeepsInv(s, run[0]);
      OpValue(s, run[0], id);
      ValueOverRuns(Step(s, run[0]), run[1..], id);
    }
  }

  /**
   Over every run, what `get` finds under an id is the asset of the last accepted insertion, unless the
   id was removed or its slot recycled since.
   */
  lemma GetFindsTheLastWritten(run: seq<Op>, id: AssetId)
    requires IsRun(NEW, run)
    ensures ValueOf(Exec(NEW, run), id) == LastWritten(NEW, run, id, None)
  {
    hide Inv, IsRun, Exec, LastWritten, ValueOf;
    NewIsSound();
    NothingStoredYet(id);
    ValueOverRuns(NEW, run, id);
  }

  lemma NothingStoredYet(id: AssetId)
    ensures ValueOf(NEW, id) == None
  {
  }
}
