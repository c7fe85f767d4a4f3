/**
 The allocator and the slot table of voker-asset as the objects they are (`ident.rs`, `assets.rs`).
 Each method is proved to do what the step functions of `AssetSlots` say, so what holds of every
 run of those steps holds of every sequence of calls.
 */
module AssetTables {
  import opened AssetSlots

  class AssetIndexAllocator {
    var nextIndex: nat
    var recycledQueue: seq<AssetIndex>
    var recycled: seq<AssetIndex>
    ghost var reservers: map<ThreadId, Reserver>   // other threads inside `reserve`
    ghost var latest: seq<nat>
    ghost var issued: seq<AssetIndex>

    constructor ()
      ensures nextIndex == 0 && recycledQueue == [] && recycled == []
      ensures reservers == map[] && latest == [] && issued == []
    {
      nextIndex, recycledQueue, recycled := 0, [], [];
      reservers, latest, issued := map[], [], [];
    }

    ghost function View(storage: seq<Option<Entry>>, len: nat): Slots
      reads this
    {
      Slots(nextIndex, recycledQueue, recycled, reservers, storage, len, None, false, latest, issued)
    }

    /** Hands out a recycled slot under its next generation, else a new slot. */
    method Reserve(ghost storage: seq<Option<Entry>>, ghost len: nat) returns (id: AssetIndex)
      requires CanReserve(View(storage, len))
      modifies this
      ensures View(storage, len) == AssetSlots.Reserve(old(View(storage, len)))
      ensures id == ReserveId(old(View(storage, len)))
    {
      if recycledQueue != [] {
        id := recycledQueue[0];
        recycledQueue := recycledQueue[1..];
        id := AssetIndex(id.index, id.generation + 1);
        recycled := recycled + [id];
        latest := latest[id.index := id.generation];
      } else {
        id := AssetIndex(nextIndex, 0);
        nextIndex := nextIndex + 1;
        latest := latest + [0];
      }
      issued := issued + [id];
    }

    method Recycle(id: AssetIndex)
      modifies this`recycledQueue
      ensures recycledQueue == old(recycledQueue) + [id]
    {
      recycledQueue := recycledQueue + [id];
    }
  }

  class AssetTable {
    const allocator: AssetIndexAllocator
    var storage: seq<Option<Entry>>
    var len: nat

    constructor (allocator: AssetIndexAllocator)
      ensures this.allocator == allocator && storage == [] && len == 0
    {
      this.allocator := allocator;
      storage, len := [], 0;
    }

    ghost function View(): Slots
      reads this, allocator
    {
      allocator.View(storage, len)
    }

    ghost predicate Valid()
      reads this, allocator
    {
      AssetSlots.Inv(View())
    }

    /** Makes room for new slots and readmits the recycled ones. */
    method Flush()
      requires Callable(View())
      modifies this`storage, allocator`recycled
      ensures storage == Flushed(old(View())) && allocator.recycled == []
    {
      storage := Resized(storage, allocator.nextIndex);
      while allocator.recycled != []
        invariant |storage| == allocator.nextIndex
        invariant forall k :: 0 <= k < |allocator.recycled| ==> allocator.recycled[k].index < |storage|
        invariant Drained(storage, allocator.recycled) == Flushed(old(View()))
        decreases |allocator.recycled|
      {
        var recycled := allocator.recycled[0];
        allocator.recycled := allocator.recycled[1..];
        storage := storage[recycled.index := Some(Entry(None, recycled.generation))];
      }
    }

    method Lookup(id: AssetIndex) returns (asset: Option<Asset>)
      ensures asset == Get(storage, id)
    {
      if id.index >= |storage| || storage[id.index].None? {
        return None;
      }
      var entry := storage[id.index].value;
      asset := if entry.generation == id.generation then entry.value else None;
    }

    /** An index outside the allocated range would be a panic in the source. */
    method Insert(id: AssetIndex, asset: Asset) returns (r: TableResult)
      requires Valid() && id.index < allocator.nextIndex
      modifies this, allocator`recycled
      ensures Valid() && CanCall(old(View()), TableOp.Insert(id, asset))
      ensures View() == Call(old(View()), TableOp.Insert(id, asset))
      ensures r == ResultOf(Flushed(old(View())), TableOp.Insert(id, asset))
    {
      hide AssetSlots.Inv;
      CallIsARun(View(), TableOp.Insert(id, asset));
      Flush();
      if storage[id.index].None? {
        return SlotRemoved;
      }
      var entry := storage[id.index].value;
      if entry.generation != id.generation {
        return SlotOccupied(entry.generation);
      }
      var isNewData := entry.value.None?;
      if isNewData {
        len := len + 1;
      }
      storage := storage[id.index := Some(entry.(value := Some(asset)))];
      r := if isNewData then Inserted else Replaced;
    }

    method RemoveInternal(id: AssetIndex, recycle: bool) returns (value: Option<Asset>)
      requires Valid() && id.index < allocator.nextIndex
      modifies this, allocator`recycled, allocator`recycledQueue
      ensures var op := if recycle then TableOp.RemoveAndRecycle(id) else TableOp.RemoveStillAlive(id);
              && CanCall(old(View()), op)
              && View() == Call(old(View()), op) && Valid()
              && Taken(value) == ResultOf(Flushed(old(View())), op)
      ensures value == Get(old(storage), id)
    {
      hide AssetSlots.Inv;
      CallAnswers(View(), TableOp.RemoveAndRecycle(id));
      CallIsARun(View(), TableOp.RemoveAndRecycle(id));
      CallIsARun(View(), TableOp.RemoveStillAlive(id));
      Flush();
      if storage[id.index].None? {
        return None;
      }
      var entry := storage[id.index].value;
      if entry.generation != id.generation {
        return None;
      }
      value := entry.value;
      storage := storage[id.index := Some(entry.(value := None))];
      if value.Some? {
        len := len - 1;
      }
      if recycle {
        storage := storage[id.index := None];
        allocator.Recycle(id);
      }
      ghost var op := if recycle then TableOp.RemoveAndRecycle(id) else TableOp.RemoveStillAlive(id);
      assert storage == StorageAfter(Flushed(old(View())), op);
    }
  }
}
