/**
 `Assets<A>` and `AssetChanges<A>` as the objects they are (`assets.rs`, `handle.rs`, `changes.rs`
 of voker-asset). Each method is proved to make the step of `AssetStore` it stands for, so the
 conservation law and the truth of the event log hold after every sequence of calls.
 */
module AssetsResource {
  import opened AssetSlots
  import opened AssetTables
  import opened AssetStore

  class AssetChanges {
    var changeTicks: map<AssetId, Time>
    var lastChangeTick: Time

    constructor ()
      ensures changeTicks == map[]
    {
      changeTicks, lastChangeTick := map[], 0;
    }

    method Insert(id: AssetId, tick: Time)
      modifies this
      ensures changeTicks == old(changeTicks)[id := tick] && lastChangeTick == tick
    {
      lastChangeTick := tick;
      changeTicks := changeTicks[id := tick];
    }

    method Remove(id: AssetId)
      modifies this`changeTicks
      ensures changeTicks == old(changeTicks) - {id}
    {
      changeTicks := changeTicks - {id};
    }

    /** One delivered event. */
    method Record(e: Event, tick: Time)
      modifies this
      ensures changeTicks == Recorded(old(changeTicks), e, tick)
    {
      if e.Removed? || e.Unused? {
        Remove(e.id);
      } else {
        Insert(e.id, tick);
      }
    }

    method RecordBatch(events: seq<Event>, tick: Time)
      modifies this
      ensures changeTicks == RecordedAll(old(changeTicks), events, tick)
    {
      for k := 0 to |events|
        invariant changeTicks == RecordedAll(old(changeTicks), events[..k], tick)
      {
        assert events[..k + 1][..k] == events[..k];
        Record(events[k], tick);
      }
      assert events[..|events|] == events;
    }

    method Lookup(id: AssetId) returns (tick: Option<Time>)
      ensures tick == if id in changeTicks then Some(changeTicks[id]) else None
    {
      tick := if id in changeTicks then Some(changeTicks[id]) else None;
    }
  }

  class Assets {
    const table: AssetTable
    const changes: AssetChanges
    var hashMap: map<Uuid, Asset>
    var duplicateHandles: map<AssetIndex, nat>
    var queuedEvents: seq<Event>
    var dropEvents: seq<AssetIndex>                // the drop channel
    ghost var log: seq<Event>
    ghost var live: multiset<AssetIndex>
    ghost var unbacked: multiset<AssetIndex>

    ghost function Repr(): set<object> {
      {this, table, table.allocator, changes}
    }

    ghost function State(): Store
      reads this, table, table.allocator, changes
    {
      Store(table.View(), hashMap, duplicateHandles, log,
            if |queuedEvents| <= |log| then |log| - |queuedEvents| else 0,
            changes.changeTicks, live, dropEvents, unbacked)
    }

    /** The queue is the part of the log not yet delivered. */
    ghost predicate QueueIsLogTail()
      reads this
    {
      |queuedEvents| <= |log| && log[|log| - |queuedEvents|..] == queuedEvents
    }

    ghost predicate Valid()
      reads this, table, table.allocator, changes
    {
      QueueIsLogTail() && AssetStore.Inv(State())
    }

    ghost predicate Blank()
      reads this, table, table.allocator, changes
    {
      && hashMap == map[] && duplicateHandles == map[] && queuedEvents == [] && dropEvents == []
      && log == [] && live == multiset{} && unbacked == multiset{} && changes.changeTicks == map[]
      && table.View() == EMPTY
    }

    lemma BlankIsNew()
      requires Blank()
      ensures Valid() && State() == NEW
    {
      hide AssetStore.Inv;
      NewIsSound();
    }

    constructor ()
      ensures Valid() && State() == NEW && fresh(Repr())
    {
      hide Valid, State, AssetStore.Inv;
      var allocator := new AssetIndexAllocator();
      table := new AssetTable(allocator);
      changes := new AssetChanges();
      hashMap, duplicateHandles, queuedEvents, dropEvents := map[], map[], [], [];
      log, live, unbacked := [], multiset{}, multiset{};
      new;
      BlankIsNew();
    }

    method Queue(e: Event)
      requires QueueIsLogTail()
      modifies this`queuedEvents, this`log
      ensures QueueIsLogTail()
      ensures State() == Logged(old(State()), [e])
    {
      queuedEvents := queuedEvents + [e];
      log := log + [e];
    }

    /** `reserve_handle`: a new strong handle to a slot without a value. */
    method ReserveHandle() returns (index: AssetIndex)
      requires Valid() && CanReserve(table.View())
      modifies Repr()
      ensures Valid()
      ensures index == ReserveId(old(table.View()))
      ensures State() == old(State()).(slots := AssetSlots.Reserve(old(table.View())), live := old(live) + multiset{index})
    {
      hide AssetStore.Inv, AssetSlots.Inv;
      ReservedKeepsInv(State());
      index := table.allocator.Reserve(table.storage, table.len);
      live := live + multiset{index};
    }

    method InsertWithIndex(index: AssetIndex, asset: Asset) returns (r: TableResult)
      requires Valid() && index.index < table.allocator.nextIndex
      modifies Repr()
      ensures CanCall(old(State()).slots, TableOp.Insert(index, asset))
      ensures State() == InsertIndex(old(State()), index, asset)
      ensures r == ResultOf(Flushed(old(State()).slots), TableOp.Insert(index, asset))
      ensures Valid()
    {
      hide AssetStore.Inv, AssetSlots.Inv, Call, Flushed;
      ghost var before := State();
      InvSlots(before);
      r := table.Insert(index, asset);
      CallKeepsInv(before, TableOp.Insert(index, asset), InsertEvents(Index(index), r));
      if r.Inserted? {
        Queue(Added(Index(index)));
      } else if r.Replaced? {
        Queue(Modified(Index(index)));
      } else {
        assert log + [] == log;
      }
    }

    /** `add`: allocates, stores and returns a strong handle; the insertion never fails. */
    method Add(asset: Asset) returns (index: AssetIndex)
      requires Valid() && CanReserve(table.View())
      modifies Repr()
      ensures Valid() && index == ReserveId(old(table.View()))
      ensures AssetStore.Enabled(old(State()), Op.Add(asset))
      ensures State() == AssetStore.Step(old(State()), Op.Add(asset))
      ensures Contains(State(), Index(index))
    {
      hide AssetStore.Inv, AssetSlots.Inv, Call, Flushed, Active, AssetSlots.Reserve, CanReserve;
      ghost var before := State();
      AddIsPossible(before, asset);
      index := ReserveHandle();
      ghost var reserved := State();
      var r := InsertWithIndex(index, asset);
      AddInserts(before, reserved, asset, r);
    }

    method InsertWithUuid(uuid: Uuid, asset: Asset) returns (replaced: Option<Asset>)
      requires Valid()
      modifies Repr()
      ensures Valid() && State() == InsertUuid(old(State()), uuid, asset)
      ensures replaced == ValueOf(old(State()), AssetId.Uuid(uuid))
    {
      hide AssetStore.Inv;
      InsertUuidKeepsInv(State(), uuid, asset);
      replaced := if uuid in hashMap then Some(hashMap[uuid]) else None;
      hashMap := hashMap[uuid := asset];
      Queue(if replaced.Some? then Modified(AssetId.Uuid(uuid)) else Added(AssetId.Uuid(uuid)));
    }

    /** `insert`. An index outside the allocated range would be a panic in the source. */
    method Insert(id: AssetId, asset: Asset) returns (ok: bool)
      requires Valid() && (id.Index? ==> id.index.index < table.allocator.nextIndex)
      modifies Repr()
      ensures Valid() && AssetStore.Enabled(old(State()), InsertAt(id, asset))
      ensures State() == AssetStore.Step(old(State()), InsertAt(id, asset))
      ensures ok <==> id.Uuid? || Active(old(State()).slots, id.index)
    {
      hide AssetStore.Inv, AssetSlots.Inv, Call, Flushed, Active;
      ghost var before := State();
      UseIsPossible(before, id, asset);
      match id {
        case Index(index) =>
          FlushFindsTheActive(before.slots, index);
          var r := InsertWithIndex(index, asset);
          ok := r.Inserted? || r.Replaced?;
        case Uuid(uuid) =>
          var _ := InsertWithUuid(uuid, asset);
          ok := true;
      }
    }

    /** `get`. */
    method GetAsset(id: AssetId) returns (asset: Option<Asset>)
      ensures asset == ValueOf(State(), id)
    {
      match id {
        case Index(index) => asset := table.Lookup(index);
        case Uuid(uuid) => asset := if uuid in hashMap then Some(hashMap[uuid]) else None;
      }
    }

    /** `contains`. */
    method ContainsAsset(id: AssetId) returns (found: bool)
      ensures found == Contains(State(), id)
    {
      match id {
        case Index(index) =>
          var value := table.Lookup(index);
          found := value.Some?;
        case Uuid(uuid) => found := uuid in hashMap;
      }
    }

    /** `resolve_strong_handle`: another handle to a stored asset, unless the counter is full. */
    method ResolveStrongHandle(id: AssetId) returns (handle: Option<AssetIndex>)
      requires Valid()
      modifies Repr()
      ensures Valid() && State() == AssetStore.Step(old(State()), Resolve(id))
      ensures handle == if id.Index? && Contains(old(State()), id) && Counter(old(State()), id.index) < MAX_DUPLICATES
                        then Some(id.index) else None
    {
      hide AssetStore.Inv, AssetSlots.Inv, Active;
      ghost var before := State();
      ResolveKeepsInv(before, id);
      CountersFit(before);
      if id.Uuid? {
        return None;
      }
      var index := id.index;
      var value := table.Lookup(index);
      if value.None? {
        return None;
      }
      var counter := if index in duplicateHandles then duplicateHandles[index] else 0;
      if counter == MAX_DUPLICATES {
        return None;
      }
      duplicateHandles := duplicateHandles[index := counter + 1];
      live := live + multiset{index};
      handle := Some(index);
    }

    /** Dropping the guard of a mutable access that was used. */
    method DropGuard(id: AssetId)
      requires Valid() && Contains(State(), id)
      modifies Repr()
      ensures Valid() && State() == AssetStore.Step(old(State()), Touch(id))
    {
      hide AssetStore.Inv;
      LoggedKeepsInv(State(), [Modified(id)]);
      Queue(Modified(id));
    }

    /** The duplicate counter goes first, whatever it holds, and then the value. */
    method TakeByIndex(index: AssetIndex) returns (value: Option<Asset>)
      requires Valid() && index.index < table.allocator.nextIndex
      modifies this`unbacked, this`duplicateHandles, table, table.allocator
      ensures CanUse(old(State()), Index(index), 0)
      ensures State() == RemoveQuietly(old(State()), Index(index))
      ensures value == ValueOf(old(State()), Index(index))
    {
      hide AssetStore.Inv, AssetSlots.Inv, Call, CanCall, Flushed, Active, Get, Stores;
      ghost var before := State();
      UseIsPossible(before, Index(index), 0);
      CallAnswers(before.slots, RemoveStillAlive(index));
      unbacked := unbacked[index := unbacked[index] + Counter(before, index)];
      duplicateHandles := duplicateHandles - {index};
      value := table.RemoveInternal(index, false);
    }

    /** `remove_untracked`. */
    method RemoveUntracked(id: AssetId) returns (value: Option<Asset>)
      requires Valid() && (id.Index? ==> id.index.index < table.allocator.nextIndex)
      modifies Repr()
      ensures Valid() && AssetStore.Enabled(old(State()), Op.RemoveUntracked(id))
      ensures State() == AssetStore.Step(old(State()), Op.RemoveUntracked(id))
      ensures value == ValueOf(old(State()), id)
      ensures queuedEvents == old(queuedEvents)
    {
      hide AssetStore.Inv, AssetSlots.Inv, Call, CanCall, Flushed, Active, Get, Stores;
      ghost var before := State();
      UseIsPossible(before, id, 0);
      RemoveQuietlyKeepsInv(before, id);
      match id {
        case Index(index) =>
          value := TakeByIndex(index);
        case Uuid(uuid) =>
          value := if uuid in hashMap then Some(hashMap[uuid]) else None;
          hashMap := hashMap - {uuid};
      }
    }

    method Remove(id: AssetId) returns (value: Option<Asset>)
      requires Valid() && (id.Index? ==> id.index.index < table.allocator.nextIndex)
      modifies Repr()
      ensures Valid() && AssetStore.Enabled(old(State()), Op.Remove(id))
      ensures State() == AssetStore.Step(old(State()), Op.Remove(id))
      ensures value == ValueOf(old(State()), id)
    {
      hide AssetStore.Inv, AssetSlots.Inv, Call, Flushed, Active;
      value := RemoveUntracked(id);
      LoggedKeepsInv(State(), [Removed(id)]);
      if value.Some? {
        Queue(Removed(id));
      } else {
        assert log + [] == log;
      }
    }

    /** `Drop for StrongHandle`: the last clone of a handle sends its drop event. */
    method DropStrongHandle(index: AssetIndex)
      requires Valid() && index in live
      modifies Repr()
      ensures Valid() && State() == AssetStore.Step(old(State()), DropHandle(index))
    {
      hide AssetStore.Inv;
      DropKeepsInv(State(), index);
      live := live - multiset{index};
      dropEvents := dropEvents + [index];
    }

    /** Frees the slot; a drop event for a slot that was free already is one of a forgotten handle. */
    method FreeSlot(index: AssetIndex) returns (existed: bool)
      requires table.Valid() && index.index < table.allocator.nextIndex
      modifies this`unbacked, table, table.allocator
      ensures CanCall(old(State()).slots, RemoveAndRecycle(index))
      ensures var s := old(State());
              State() == s.(slots := Call(s.slots, RemoveAndRecycle(index)),
                            unbacked := if Stores(Flushed(s.slots), index) then s.unbacked else s.unbacked - multiset{index})
      ensures existed == Contains(old(State()), Index(index))
    {
      hide AssetSlots.Inv, Call, CanCall, Flushed, Active, Get, Stores;
      ghost var before := State();
      FlushFindsTheActive(before.slots, index);
      var value := table.RemoveInternal(index, true);
      unbacked := if Stores(Flushed(before.slots), index) then unbacked else unbacked - multiset{index};
      existed := value.Some?;
    }

    /** The tail of `remove_and_recycle`: the slot is freed and its events are queued. */
    method Recycle(index: AssetIndex)
      requires QueueIsLogTail() && table.Valid() && index.index < table.allocator.nextIndex
      modifies this`unbacked, this`queuedEvents, this`log, table, table.allocator
      ensures QueueIsLogTail() && CanCall(old(State()).slots, RemoveAndRecycle(index))
      ensures var s := old(State());
              State() == Logged(
                s.(slots := Call(s.slots, RemoveAndRecycle(index)),
                   unbacked := if Stores(Flushed(s.slots), index) then s.unbacked else s.unbacked - multiset{index}),
                [Unused(Index(index))] + if Contains(s, Index(index)) then [Removed(Index(index))] else [])
    {
      hide AssetSlots.Inv, Call, CanCall, Flushed, Get, Stores, Contains;
      var existed := FreeSlot(index);
      Queue(Unused(Index(index)));
      if existed {
        Queue(Removed(Index(index)));
      }
      assert log == old(log) + ([Unused(Index(index))] + if existed then [Removed(Index(index))] else []);
    }

    /** `remove_and_recycle` on the next drop event. */
    method ProcessDropEvent()
      requires Valid() && dropEvents != []
      modifies Repr()
      ensures Valid() && AssetStore.Enabled(old(State()), DrainOne)
      ensures State() == AssetStore.Step(old(State()), DrainOne)
    {
      hide AssetStore.Inv, AssetSlots.Inv, Call, CanCall, Flushed, Active, Get, Stores;
      ghost var before := State();
      DrainIsPossible(before);
      DrainKeepsInv(before);
      InvSlots(before);
      var index := dropEvents[0];
      dropEvents := dropEvents[1..];
      var used := UseDuplicate(index);
      if !used {
        Recycle(index);
      }
    }

    /** Uses up one of the duplicate counter, or clears it when nothing is left. */
    method UseDuplicate(index: AssetIndex) returns (used: bool)
      modifies this`duplicateHandles
      ensures used == (index in old(duplicateHandles) && old(duplicateHandles)[index] > 0)
      ensures duplicateHandles ==
              if used then old(duplicateHandles)[index := old(duplicateHandles)[index] - 1]
              else old(duplicateHandles) - {index}
    {
      if index in duplicateHandles {
        if duplicateHandles[index] != 0 {
          duplicateHandles := duplicateHandles[index := duplicateHandles[index] - 1];
          return true;
        }
        duplicateHandles := duplicateHandles - {index};
      }
      assert duplicateHandles == old(duplicateHandles) - {index};
      return false;
    }

    /** `track_assets`: drains the drop channel. */
    method TrackAssets()
      requires Valid()
      modifies Repr()
      ensures Valid() && dropEvents == []
      ensures AssetStore.IsRun(old(State()), seq(|old(dropEvents)|, _ => DrainOne))
      ensures State() == AssetStore.Exec(old(State()), seq(|old(dropEvents)|, _ => DrainOne))
    {
      hide AssetStore.Inv, AssetStore.Step, AssetStore.Enabled;
      ghost var run := [];
      ghost var before := State();
      while dropEvents != []
        invariant Valid()
        invariant AssetStore.IsRun(before, run) && State() == AssetStore.Exec(before, run)
        invariant |run| + |dropEvents| == |old(dropEvents)| && forall k :: 0 <= k < |run| ==> run[k] == DrainOne
        decreases |dropEvents|
      {
        ghost var now := State();
        ProcessDropEvent();
        DrainTakesOne(now);
        AppendToRun(before, run, DrainOne);
        run := run + [DrainOne];
      }
      assert run == seq(|old(dropEvents)|, _ => DrainOne);
    }

    /** `handle_asset_events`: records every queued event, then delivers the queue. */
    method HandleAssetEvents(tick: Time) returns (messages: seq<Event>)
      requires Valid()
      modifies Repr()
      ensures Valid() && AssetStore.Enabled(old(State()), HandleEvents(tick))
      ensures State() == AssetStore.Step(old(State()), HandleEvents(tick))
      ensures messages == old(queuedEvents)
    {
      hide AssetStore.Inv, AssetStore.Step, AssetStore.Enabled;
      ghost var before := State();
      HandleIsPossible(before, tick);
      changes.RecordBatch(queuedEvents, tick);
      messages := queuedEvents;
      queuedEvents := [];
    }
  }

  // ---------------------------------------------------------------------------
  // What the methods need of the step functions

  lemma UseIsPossible(s: Store, id: AssetId, asset: Asset)
    requires AssetStore.Inv(s) && (id.Index? ==> id.index.index < s.slots.next)
    ensures CanUse(s, id, asset)
    ensures AssetSlots.Inv(s.slots) && s.slots.op.None?
  {
    if id.Index? {
      CallIsARun(s.slots, TableOp.Insert(id.index, asset));
      CallIsARun(s.slots, RemoveStillAlive(id.index));
    }
  }

  lemma AddIsPossible(s: Store, asset: Asset)
    requires AssetStore.Inv(s) && CanReserve(s.slots)
    ensures AssetStore.Enabled(s, Op.Add(asset))
    ensures ReserveId(s.slots).index < AssetSlots.Reserve(s.slots).next
  {
    ReserveFacts(s.slots, ReserveId(s.slots));
    CallIsARun(AssetSlots.Reserve(s.slots), TableOp.Insert(ReserveId(s.slots), asset));
  }

  /** The freshly reserved index is accepted, so `add` never panics. */
  lemma AddInserts(s: Store, reserved: Store, asset: Asset, r: TableResult)
    requires AssetStore.Inv(s) && CanReserve(s.slots)
    requires reserved == s.(slots := AssetSlots.Reserve(s.slots), live := s.live + multiset{ReserveId(s.slots)})
    requires CanCall(reserved.slots, TableOp.Insert(ReserveId(s.slots), asset))
    requires r == ResultOf(Flushed(reserved.slots), TableOp.Insert(ReserveId(s.slots), asset))
    ensures r.Inserted? || r.Replaced?
    ensures Contains(InsertIndex(reserved, ReserveId(s.slots), asset), Index(ReserveId(s.slots)))
  {
    hide AssetSlots.Inv, Active, Call, Flushed;
    var i := ReserveId(s.slots);
    ReserveFacts(s.slots, i);
    FlushFindsTheActive(reserved.slots, i);
    CallValues(reserved.slots, TableOp.Insert(i, asset), i);
  }

  lemma CountersFit(s: Store)
    requires AssetStore.Inv(s)
    ensures forall i :: Counter(s, i) <= MAX_DUPLICATES
  {
  }

  lemma DrainIsPossible(s: Store)
    requires AssetStore.Inv(s) && s.pending != []
    ensures AssetStore.Enabled(s, DrainOne)
    ensures s.pending[0].index < s.slots.next
  {
    var i := s.pending[0];
    assert Balanced(s, i);
    if Active(s.slots, i) { ActiveIsIssued(s.slots, i); }
    IssuedIsUsable(s, i, 0);
  }

  lemma DrainTakesOne(s: Store)
    requires AssetStore.Enabled(s, DrainOne)
    ensures |AssetStore.Step(s, DrainOne).pending| == |s.pending| - 1
  {
  }

  lemma HandleIsPossible(s: Store, tick: Time)
    requires AssetStore.Inv(s)
    ensures AssetStore.Enabled(s, HandleEvents(tick))
    ensures AssetStore.Inv(AssetStore.Step(s, HandleEvents(tick)))
    ensures AssetStore.Step(s, HandleEvents(tick)) ==
            s.(changes := RecordedAll(s.changes, s.log[s.delivered..], tick), delivered := |s.log|)
  {
    HandleEventsKeepsInv(s, tick);
  }

  lemma {:induction false} AppendToRun(s: Store, run: seq<Op>, op: Op)
    requires AssetStore.IsRun(s, run) && AssetStore.Enabled(AssetStore.Exec(s, run), op)
    ensures AssetStore.IsRun(s, run + [op])
    ensures AssetStore.Exec(s, run + [op]) == AssetStore.Step(AssetStore.Exec(s, run), op)
    decreases |run|
  {
    hide AssetStore.Step, AssetStore.Enabled;
    if run == [] {
      assert [op][1..] == [];
    } else {
      AppendToRun(AssetStore.Step(s, run[0]), run[1..], op);
      assert (run + [op])[1..] == run[1..] + [op];
    }
  }
}
