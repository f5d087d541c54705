/** Per-device memory: the pool of memzones that receive compressed data. */
module DeviceMemory {
  import opened Sequences
  import opened HostMemory
  import opened MemoryPool
  import opened ZoneStack

  const MIN_PREALLOCATE_MEMZONES := 20

  /** Every zone of the state is live in the pool and of the compressed segment size. */
  ghost predicate Served(memzones: ZoneMap, size: nat, st: Zones)
  {
    forall z :: st.Has(z) ==> z.Address() in memzones && memzones[z.Address()] == z && z.len == size
  }

  /** A newly reserved zone is not one the device already has. */
  lemma ServedGrows(memzones: ZoneMap, size: nat, st: Zones, z: Memzone)
    requires Served(memzones, size, st) && z.Address() !in memzones && z.len == size
    ensures !st.Has(z)
    ensures Served(memzones[z.Address() := z], size, Zones(st.free + [z], st.occupied))
    ensures Served(memzones[z.Address() := z], size, Zones(st.free, st.occupied + {z}))
  {
    assert forall y :: Zones(st.free + [z], st.occupied).Has(y) ==> y == z || st.Has(y);
    assert forall y :: Zones(st.free, st.occupied + {z}).Has(y) ==> y == z || st.Has(y);
  }

  class DeviceMemory {
    const pool: RtememzoneMemoryPool
    const burstSize: nat
    const compressedSegSize: nat
    const maxPreallocateMemzones: nat

    var memzonePool: seq<Memzone>
    var occupiedMemzones: set<Memzone>
    var numPreallocatedMemzones: nat
    /** Zones obtained by Take itself, on the hot path. */
    ghost var numHotAllocations: nat

    ghost predicate WellFormed()
      reads this, pool, pool.host, pool.tracker
    {
      && pool.Valid()
      && burstSize > 0 && 0 < compressedSegSize < 0x1_0000
      && State().WellFormed()
      && Served(pool.tracker.memzones, compressedSegSize, State())
    }

    /** After preallocation the zones obtained are accounted for one by one. */
    ghost predicate Valid()
      reads this, pool, pool.host, pool.tracker
    {
      && WellFormed()
      && |memzonePool| + |occupiedMemzones| == numPreallocatedMemzones + numHotAllocations
    }

    ghost function State(): Zones
      reads this
    {
      Zones(memzonePool, occupiedMemzones)
    }

    constructor (pool: RtememzoneMemoryPool, burstSize: nat, compressedSegSize: nat, maxPreallocateMemzones: nat)
      requires pool.Valid() && burstSize > 0 && 0 < compressedSegSize < 0x1_0000
      ensures WellFormed() && State() == Zones([], {}) && this.pool == pool
      ensures this.maxPreallocateMemzones == maxPreallocateMemzones && this.compressedSegSize == compressedSegSize
      ensures numPreallocatedMemzones == numHotAllocations == 0
    {
      this.pool := pool;
      this.burstSize := burstSize;
      this.compressedSegSize := compressedSegSize;
      this.maxPreallocateMemzones := maxPreallocateMemzones;
      memzonePool, occupiedMemzones, numPreallocatedMemzones, numHotAllocations := [], {}, 0, 0;
    }

    method AllocateOne() returns (status: Status, zone: Option<Memzone>)
      requires pool.Valid() && 0 < compressedSegSize < 0x1_0000
      modifies pool, pool.host, pool.tracker
      ensures pool.Valid()
      ensures status == OK || status == OutOfMemory
      ensures status == OK <==> zone.Some?
      ensures pool.host.refusals == old(pool.host.refusals) + (if status == OK then 0 else 1)
      ensures status != OK ==>
                pool.host.bytes == old(pool.host.bytes) && pool.tracker.memzones == old(pool.tracker.memzones)
      ensures status == OK ==>
                && zone.value.len == compressedSegSize
                && zone.value.Address() !in old(pool.tracker.memzones)
                && pool.tracker.memzones == old(pool.tracker.memzones)[zone.value.Address() := zone.value]
                && zone.value.region !in old(pool.host.bytes)
                && pool.host.bytes.Keys == old(pool.host.bytes.Keys) + {zone.value.region}
                && Extends(old(pool.host.bytes), pool.host.bytes)
    {
      var addr: Addr;
      status, addr := pool.Allocate(compressedSegSize, ZERO_SIZE_AREA);
      if status != OK {
        return status, None;
      }
      zone := pool.tracker.Of(addr);
    }

    method Preallocate() returns (status: Status)
      requires WellFormed() && State() == Zones([], {}) && numHotAllocations == 0
      modifies this`memzonePool, this`numPreallocatedMemzones, pool, pool.host, pool.tracker
      ensures WellFormed() && occupiedMemzones == {}
      ensures status == OK || status == OutOfMemory
      ensures status == OK ==>
                && Valid() && |memzonePool| == numPreallocatedMemzones <= maxPreallocateMemzones
                && numPreallocatedMemzones >= Min(MIN_PREALLOCATE_MEMZONES, maxPreallocateMemzones)
      ensures status != OK ==> |memzonePool| < Min(MIN_PREALLOCATE_MEMZONES, maxPreallocateMemzones)
      ensures pool.host.refusals == old(pool.host.refusals) + (if |memzonePool| < maxPreallocateMemzones then 1 else 0)
      ensures Extends(old(pool.host.bytes), pool.host.bytes)
    {
      while |memzonePool| < maxPreallocateMemzones
        invariant WellFormed() && occupiedMemzones == {}
        invariant |memzonePool| <= maxPreallocateMemzones && pool.host.refusals == old(pool.host.refusals)
        invariant Extends(old(pool.host.bytes), pool.host.bytes)
      {
        var zone;
        label Round:
        status, zone := AllocateOne();
        if status == OK {
          ServedGrows(old@Round(pool.tracker.memzones), compressedSegSize, State(), zone.value);
          memzonePool := memzonePool + [zone.value];
          continue;
        }
        if |memzonePool| < MIN_PREALLOCATE_MEMZONES {
          return OutOfMemory;
        }
        break;
      }
      numPreallocatedMemzones := |memzonePool|;
      return OK;
    }

    method Take() returns (zone: Option<Memzone>)
      requires Valid()
      modifies this`memzonePool, this`occupiedMemzones, this`numHotAllocations, pool, pool.host, pool.tracker
      ensures Valid()
      ensures zone == None ==>
                && old(memzonePool) == [] && State() == old(State()) && numHotAllocations == old(numHotAllocations)
                && pool.host.bytes == old(pool.host.bytes)
      ensures pool.host.refusals == old(pool.host.refusals) + (if zone == None then 1 else 0)
      ensures zone.Some? ==>
                && CanTake(old(State()), zone.value) && State() == ZoneStack.Take(old(State()), zone.value)
                && (old(memzonePool) != [] ==> zone.value.region in old(pool.host.bytes))
      ensures old(memzonePool) != [] ==>
                zone.Some? && pool.host.bytes == old(pool.host.bytes) && numHotAllocations == old(numHotAllocations)
      ensures old(memzonePool) == [] && zone.Some? ==>
                zone.value.region !in old(pool.host.bytes) && numHotAllocations == old(numHotAllocations) + 1
      ensures Extends(old(pool.host.bytes), pool.host.bytes)
    {
      if memzonePool != [] {
        var memzone := memzonePool[|memzonePool| - 1];
        memzonePool := memzonePool[..|memzonePool| - 1];
        occupiedMemzones := occupiedMemzones + {memzone};
        return Some(memzone);
      }
      // Number of zones on loan beyond the preallocated ones; every burst-th one is logged.
      var beyond: nat := |occupiedMemzones| - numPreallocatedMemzones;
      var warn := beyond % burstSize == 0;
      var status;
      status, zone := AllocateOne();
      if status != OK {
        return None;
      }
      ServedGrows(old(pool.tracker.memzones), compressedSegSize, State(), zone.value);
      occupiedMemzones := occupiedMemzones + {zone.value};
      numHotAllocations := numHotAllocations + 1;
    }

    /** The zone that `Put(addr)` would act on, if the address is the base of a known one. */
    function ZoneAt(addr: Addr): Option<Memzone>
      reads this, pool, pool.tracker
    {
      pool.tracker.Of(addr)
    }

    method Put(addr: Addr) returns (count: nat)
      requires WellFormed()
      modifies this`memzonePool, this`occupiedMemzones
      ensures WellFormed() && (old(Valid()) ==> Valid())
      ensures count == if ZoneAt(addr).Some? && ZoneAt(addr).value in old(occupiedMemzones) then 1 else 0
      ensures State() == PutAt(old(State()), pool.tracker.memzones, addr)
    {
      var memzone := pool.tracker.Of(addr);
      if memzone == None {
        return 0;
      }
      if memzone.value !in occupiedMemzones {
        return 0;
      }
      occupiedMemzones := occupiedMemzones - {memzone.value};
      memzonePool := memzonePool + [memzone.value];
      return 1;
    }

    /** Free the zone on top of the stack and pop it. */
    method FreeTop()
      requires WellFormed() && memzonePool != []
      modifies this`memzonePool, pool, pool.host`bytes, pool.tracker
      ensures WellFormed()
      ensures memzonePool == old(memzonePool[..|memzonePool| - 1])
      ensures Vacated(old(pool.host.bytes), pool.host.bytes, {old(memzonePool[|memzonePool| - 1]).region})
      ensures pool.bytesAllocated == old(pool.bytesAllocated) - compressedSegSize
      ensures pool.tracker.memzones == old(pool.tracker.memzones) - {old(memzonePool[|memzonePool| - 1]).Address()}
    {
      var memzone := memzonePool[|memzonePool| - 1];
      ServedShrinks(pool.tracker.memzones, compressedSegSize, State(), memzone,
                    Zones(memzonePool[..|memzonePool| - 1], occupiedMemzones));
      pool.Free(memzone.Address(), compressedSegSize);
      memzonePool := memzonePool[..|memzonePool| - 1];
    }

    /** Free one zone on loan and forget it. */
    method FreeOccupied(memzone: Memzone)
      requires WellFormed() && memzone in occupiedMemzones
      modifies this`occupiedMemzones, pool, pool.host`bytes, pool.tracker
      ensures WellFormed()
      ensures occupiedMemzones == old(occupiedMemzones) - {memzone}
      ensures Vacated(old(pool.host.bytes), pool.host.bytes, {memzone.region})
      ensures pool.bytesAllocated == old(pool.bytesAllocated) - compressedSegSize
      ensures pool.tracker.memzones == old(pool.tracker.memzones) - {memzone.Address()}
    {
      ServedShrinks(pool.tracker.memzones, compressedSegSize, State(), memzone,
                    Zones(memzonePool, occupiedMemzones - {memzone}));
      pool.Free(memzone.Address(), compressedSegSize);
      occupiedMemzones := occupiedMemzones - {memzone};
    }

    /** What is left after freeing these zones: their tracker entries, their memory and their bytes in the
        total are gone. */
    ghost predicate Without(gone: set<Memzone>, memzones: ZoneMap, bytes: Memory, total: int)
      reads this, pool, pool.host, pool.tracker
    {
      && pool.tracker.memzones == memzones - Addresses(gone)
      && Vacated(bytes, pool.host.bytes, Regions(gone))
      && pool.bytesAllocated == total - compressedSegSize * |gone|
    }

    method FreePool()
      requires WellFormed()
      modifies this`memzonePool, pool, pool.host`bytes, pool.tracker
      ensures WellFormed() && memzonePool == []
      ensures Without(Elements(old(memzonePool)), old(pool.tracker.memzones), old(pool.host.bytes), old(pool.bytesAllocated))
    {
      hide Vacated;
      ghost var memzones, bytes, total := pool.tracker.memzones, pool.host.bytes, pool.bytesAllocated;
      ghost var gone: seq<Memzone> := [];
      assert memzonePool + [] == memzonePool;
      assert Elements(gone) == {};
      NoneGone(memzones, bytes);
      while memzonePool != []
        invariant WellFormed() && memzonePool + gone == old(memzonePool)
        invariant Without(Elements(gone), memzones, bytes, total)
        decreases |memzonePool|
      {
        ghost var top := memzonePool[|memzonePool| - 1];
        ghost var tracked, held := pool.tracker.memzones, pool.host.bytes;
        TopMoves(memzonePool, gone, old(memzonePool));
        FreeTop();
        OneMoreGone(memzones, bytes, total, Elements(gone), top, tracked, pool.tracker.memzones, held, pool.host.bytes,
                    pool.bytesAllocated, compressedSegSize);
        gone := [top] + gone;
      }
      assert [] + gone == gone;
    }

    method FreeAllOccupied()
      requires WellFormed()
      modifies this`occupiedMemzones, pool, pool.host`bytes, pool.tracker
      ensures WellFormed() && occupiedMemzones == {}
      ensures Without(old(occupiedMemzones), old(pool.tracker.memzones), old(pool.host.bytes), old(pool.bytesAllocated))
    {
      hide Vacated, Served, Zones.WellFormed;
      ghost var memzones, bytes, total := pool.tracker.memzones, pool.host.bytes, pool.bytesAllocated;
      ghost var gone: set<Memzone> := {};
      NoneGone(memzones, bytes);
      while occupiedMemzones != {}
        invariant WellFormed() && gone + occupiedMemzones == old(occupiedMemzones) && gone !! occupiedMemzones
        invariant Without(gone, memzones, bytes, total)
        decreases |occupiedMemzones|
      {
        var memzone :| memzone in occupiedMemzones;
        FreeAnother(memzone, gone, memzones, bytes, total);
        gone := gone + {memzone};
      }
    }

    method FreeAnother(memzone: Memzone, ghost gone: set<Memzone>, ghost memzones: ZoneMap, ghost bytes: Memory, ghost total: int)
      requires WellFormed() && memzone in occupiedMemzones && memzone !in gone && Without(gone, memzones, bytes, total)
      modifies this`occupiedMemzones, pool, pool.host`bytes, pool.tracker
      ensures WellFormed() && occupiedMemzones == old(occupiedMemzones) - {memzone}
      ensures Without(gone + {memzone}, memzones, bytes, total)
    {
      hide Vacated, Served;
      FreeOccupied(memzone);
      OneMoreGone(memzones, bytes, total, gone, memzone, old(pool.tracker.memzones), pool.tracker.memzones,
                  old(pool.host.bytes), pool.host.bytes, pool.bytesAllocated, compressedSegSize);
    }

    /** The destructor: every zone of the device, free or on loan, is given back exactly once
        (freeing a zone that is not live is not allowed), and the memory of all of them is free again. */
    method Destroy()
      requires WellFormed()
      modifies this`memzonePool, this`occupiedMemzones, pool, pool.host`bytes, pool.tracker
      ensures WellFormed() && State() == Zones([], {})
      ensures Without(old(State()).Obtained(), old(pool.tracker.memzones), old(pool.host.bytes), old(pool.bytesAllocated))
    {
      hide Vacated;
      FreePool();
      label Emptied:
      FreeAllOccupied();
      BothGone(old(pool.tracker.memzones), old(pool.host.bytes), old(pool.bytesAllocated), old(State()),
               old@Emptied(pool.tracker.memzones), pool.tracker.memzones, old@Emptied(pool.host.bytes), pool.host.bytes,
               pool.bytesAllocated, compressedSegSize);
    }
  }

  /** Where zones lie. */
  function Regions(zs: set<Memzone>): set<Region>
  {
    set z | z in zs :: z.region
  }

  lemma NoneGone(memzones: ZoneMap, bytes: Memory)
    ensures memzones - Addresses({}) == memzones && Vacated(bytes, bytes, Regions({}))
  {
  }

  /** Freeing one more zone. */
  lemma OneMoreGone(memzones: ZoneMap, bytes: Memory, total: int, gone: set<Memzone>, z: Memzone, memzones1: ZoneMap,
                    memzones2: ZoneMap, bytes1: Memory, bytes2: Memory, total2: int, size: nat)
    requires z !in gone && memzones1 == memzones - Addresses(gone) && memzones2 == memzones1 - {z.Address()}
    requires Vacated(bytes, bytes1, Regions(gone)) && Vacated(bytes1, bytes2, {z.region})
    requires total2 == total - size * |gone| - size
    ensures memzones2 == memzones - Addresses(gone + {z}) && Vacated(bytes, bytes2, Regions(gone + {z}))
    ensures total2 == total - size * |gone + {z}|
  {
    assert Regions(gone + {z}) == Regions(gone) + {z.region};
    assert Addresses(gone + {z}) == Addresses(gone) + {z.Address()};
    assert size * (|gone| + 1) == size * |gone| + size;
  }

  /** The free zones and then the zones on loan have been freed. */
  lemma BothGone(memzones: ZoneMap, bytes: Memory, total: int, st: Zones, memzones1: ZoneMap, memzones2: ZoneMap,
                 bytes1: Memory, bytes2: Memory, total2: int, size: nat)
    requires st.WellFormed()
    requires memzones1 == memzones - Addresses(Elements(st.free)) && memzones2 == memzones1 - Addresses(st.occupied)
    requires Vacated(bytes, bytes1, Regions(Elements(st.free))) && Vacated(bytes1, bytes2, Regions(st.occupied))
    requires total2 == total - size * |Elements(st.free)| - size * |st.occupied|
    ensures memzones2 == memzones - Addresses(st.Obtained()) && Vacated(bytes, bytes2, Regions(st.Obtained()))
    ensures total2 == total - size * |st.Obtained()|
  {
    assert Regions(st.Obtained()) == Regions(Elements(st.free)) + Regions(st.occupied);
    assert Addresses(st.Obtained()) == Addresses(Elements(st.free)) + Addresses(st.occupied);
    assert Elements(st.free) !! st.occupied;
    assert size * (|Elements(st.free)| + |st.occupied|) == size * |Elements(st.free)| + size * |st.occupied|;
  }

  /** Where zones start. */
  function Addresses(zs: set<Memzone>): set<Addr>
  {
    set z | z in zs :: z.Address()
  }

  lemma TopMoves(stack: seq<Memzone>, gone: seq<Memzone>, all: seq<Memzone>)
    requires stack != [] && stack + gone == all && Distinct(all)
    ensures stack[..|stack| - 1] + ([stack[|stack| - 1]] + gone) == all
    ensures stack[|stack| - 1] !in gone
    ensures Elements([stack[|stack| - 1]] + gone) == Elements(gone) + {stack[|stack| - 1]}
  {
    forall j | 0 <= j < |gone|
      ensures gone[j] != stack[|stack| - 1]
    {
      assert all[|stack| + j] == gone[j] && all[|stack| - 1] == stack[|stack| - 1];
    }
  }

  /** Dropping one zone: the others stay served, at other addresses. */
  lemma ServedShrinks(memzones: ZoneMap, size: nat, st: Zones, z: Memzone, st': Zones)
    requires Served(memzones, size, st) && st.Has(z) && !st'.Has(z)
    requires forall y :: st.Has(y) <==> y == z || st'.Has(y)
    ensures z.Address() in memzones && memzones[z.Address()] == z && z.len == size
    ensures Served(memzones - {z.Address()}, size, st')
  {
  }
}
