/** The memzone allocator behind the Arrow memory pool interface, with the tracker that maps a
    base address to its memzone. Seen from outside, the pool is a finite map from live address
    to bytes. Tracker operations are taken as atomic. */
module MemoryPool {
  import opened Sequences
  import opened HostMemory

  datatype Option<+T> = None | Some(value: T)

  datatype Status = OK | Invalid | OutOfMemory | IOError | CapacityError | Cancelled | NotImplemented

  /** A reserved stretch of memory; it starts at offset 0 of its region. */
  datatype Memzone = Memzone(region: Region, len: nat)
  {
    function Address(): Addr { Addr(region, 0) }
  }

  type ZoneMap = map<Addr, Memzone>

  /** The static address handed out for zero-size requests. */
  const ZERO_SIZE_AREA := Addr(0, 0)

  const SIZE_T_MAX := 0xffff_ffff_ffff_ffff
  const ALLOC_POISON: byte := 0xBC
  const REALLOC_POISON: byte := 0xBD
  const DEALLOC_POISON: byte := 0xBE

  /** Bytes held by the live zones. */
  ghost function TotalLen(zones: ZoneMap): nat
    decreases |zones|
  {
    if zones == map[] then 0
    else
      var a :| a in zones;
      zones[a].len + TotalLen(zones - {a})
  }

  ghost predicate Tallied(zones: ZoneMap, total: int)
  {
    total == TotalLen(zones)
  }

  lemma {:induction false} TotalLenRemove(zones: ZoneMap, a: Addr)
    requires a in zones
    ensures TotalLen(zones) == zones[a].len + TotalLen(zones - {a})
    decreases |zones|
  {
    var b :| b in zones && TotalLen(zones) == zones[b].len + TotalLen(zones - {b});
    if a != b {
      TotalLenRemove(zones - {b}, a);
      TotalLenRemove(zones - {a}, b);
      assert zones - {a} - {b} == zones - {b} - {a};
    }
  }

  lemma TotalLenAdd(zones: ZoneMap, a: Addr, z: Memzone)
    requires a !in zones
    ensures TotalLen(zones[a := z]) == TotalLen(zones) + z.len
  {
    TotalLenRemove(zones[a := z], a);
    assert zones[a := z] - {a} == zones;
  }

  lemma {:induction false} FreshRegion(used: set<Region>) returns (r: Region)
    ensures r != 0 && forall u :: u in used ==> u < r
  {
    if used == {} {
      r := 1;
    } else {
      var x :| x in used;
      r := FreshRegion(used - {x});
      assert forall u :: u in used ==> u == x || u in used - {x};
      r := r + x + 1;
    }
  }

  /** The tracker agrees with memory: each address is the base of its live, non-empty zone. */
  ghost predicate Backed(zones: ZoneMap, m: Memory)
  {
    forall a :: a in zones ==>
      && a == zones[a].Address() && a.region != 0 && zones[a].len > 0
      && a.region in m && |m[a.region]| == zones[a].len
  }

  /** The abstract pool: every live address with its bytes. */
  ghost function LiveBytes(zones: ZoneMap, m: Memory): (live: map<Addr, seq<byte>>)
    requires Backed(zones, m)
    ensures live.Keys == zones.Keys
  {
    map a | a in zones :: m[a.region]
  }

  /** The machine's memory and its memzone reservation service. */
  class Host {
    var bytes: Memory
    /** How many reservations have been refused so far. */
    ghost var refusals: nat

    /** Reserve a zone of uninitialised bytes; the service may refuse at any time. */
    method Reserve(size: nat) returns (zone: Option<Memzone>)
      modifies this
      ensures zone == None ==> bytes == old(bytes) && refusals == old(refusals) + 1
      ensures zone.Some? ==>
                && refusals == old(refusals) && zone.value.region != 0 && zone.value.region !in old(bytes) && zone.value.len == size
                && bytes.Keys == old(bytes.Keys) + {zone.value.region}
                && Extends(old(bytes), bytes) && |bytes[zone.value.region]| == size
    {
      var granted: bool := *;
      if !granted {
        refusals := refusals + 1;
        return None;
      }
      ghost var unused := FreshRegion(bytes.Keys);
      assert unused !in bytes;
      var r: Region :| r != 0 && r !in bytes;
      var contents: seq<byte> := seq(size, _ => 0);
      bytes := bytes[r := contents];
      return Some(Memzone(r, size));
    }

    method FreeZone(zone: Memzone)
      modifies this`bytes
      ensures bytes == old(bytes) - {zone.region}
    {
      bytes := bytes - {zone.region};
    }

    method Store(addr: Addr, data: seq<byte>)
      requires Within(bytes, Slice(addr.region, addr.offset, |data|))
      modifies this`bytes
      ensures bytes == Write(old(bytes), Slice(addr.region, addr.offset, |data|), data)
    {
      var was := bytes[addr.region];
      bytes := bytes[addr.region := was[..addr.offset] + data + was[addr.offset + |data|..]];
    }
  }

  class RtememzoneAllocatorTracker {
    var memzones: ZoneMap

    function Of(addr: Addr): Option<Memzone>
      reads this
    {
      if addr in memzones then Some(memzones[addr]) else None
    }

    method Emplace(addr: Addr, zone: Memzone)
      modifies this
      ensures memzones == if addr in old(memzones) then old(memzones) else old(memzones)[addr := zone]
    {
      if addr !in memzones {
        memzones := memzones[addr := zone];
      }
    }

    method Release(addr: Addr, host: Host)
      modifies this, host`bytes
      ensures memzones == old(memzones) - {addr}
      ensures host.bytes == if addr in old(memzones) then old(host.bytes) - {old(memzones)[addr].region}
                            else old(host.bytes)
    {
      if addr !in memzones {
        return;
      }
      host.FreeZone(memzones[addr]);
      memzones := memzones - {addr};
    }
  }

  /** A new zone of this size, at out, is in memory and with the tracker; everything else is as it was. */
  ghost predicate Reserved(zones: ZoneMap, m: Memory, out: Addr, size: nat, zones': ZoneMap, m': Memory)
  {
    && out == Memzone(out.region, size).Address() && out.region != 0 && out.region !in m
    && zones' == zones[out := Memzone(out.region, size)]
    && m'.Keys == m.Keys + {out.region} && Extends(m, m') && |m'[out.region]| == size
  }

  /** The allocation at ptr has moved to out, keeping its first min(old, new) bytes and
      touching no other allocation. */
  ghost predicate Moved(zones: ZoneMap, m: Memory, oldSize: nat, newSize: nat, ptr: Addr,
                        zones': ZoneMap, m': Memory, out: Addr)
  {
    && ((newSize == 0) <==> (out == ZERO_SIZE_AREA))
    && zones' == (if newSize == 0 then zones - {ptr} else (zones - {ptr})[out := Memzone(out.region, newSize)])
    && (newSize > 0 ==> out.offset == 0 && out.region !in m && out.region in m' && |m'[out.region]| == newSize)
    && (newSize > 0 && oldSize > 0 ==>
          && ptr.region in m && |m[ptr.region]| == oldSize
          && m'[out.region][..Min(oldSize, newSize)] == m[ptr.region][..Min(oldSize, newSize)])
    && forall r :: r in m && (ptr != ZERO_SIZE_AREA ==> r != ptr.region) ==> r in m' && m'[r] == m[r]
  }

  class RtememzoneMemoryPool {
    const host: Host
    const tracker: RtememzoneAllocatorTracker
    /** Whether the build poisons fresh, grown and freed memory. */
    const debug: bool
    var bytesAllocated: int

    ghost predicate Valid()
      reads this, host, tracker
    {
      Backed(tracker.memzones, host.bytes) && Tallied(tracker.memzones, bytesAllocated)
    }

    ghost function Live(): map<Addr, seq<byte>>
      requires Valid()
      reads this, host, tracker
    {
      LiveBytes(tracker.memzones, host.bytes)
    }

    /** A caller owns `ptr` with `size` bytes. */
    ghost predicate Owns(ptr: Addr, size: int)
      requires Valid()
      reads this, host, tracker
    {
      if ptr == ZERO_SIZE_AREA then size == 0 else ptr in Live() && |Live()[ptr]| == size
    }

    constructor (debug: bool)
      ensures Valid() && Live() == map[] && bytesAllocated == 0 && this.debug == debug
      ensures fresh(host) && fresh(tracker) && host.bytes == map[]
    {
      host := new Host;
      tracker := new RtememzoneAllocatorTracker;
      this.debug := debug;
      bytesAllocated := 0;
      new;
      host.bytes := map[];
      tracker.memzones := map[];
    }

    method AllocateAligned(size: nat, ptr: Addr) returns (status: Status, out: Addr)
      requires Valid()
      modifies host, tracker
      ensures status == OK || (status == OutOfMemory && size > 0)
      ensures status != OK ==> out == ptr
      ensures host.refusals == old(host.refusals) + (if status == OK then 0 else 1)
      ensures status != OK || size == 0 ==>
                host.bytes == old(host.bytes) && tracker.memzones == old(tracker.memzones)
      ensures status == OK && size == 0 ==> out == ZERO_SIZE_AREA
      ensures status == OK && size > 0 ==>
                Reserved(old(tracker.memzones), old(host.bytes), out, size, tracker.memzones, host.bytes)
    {
      if size == 0 {
        return OK, ZERO_SIZE_AREA;
      }
      var zone := host.Reserve(size);
      if zone == None {
        return OutOfMemory, ptr;
      }
      tracker.Emplace(zone.value.Address(), zone.value);
      return OK, zone.value.Address();
    }

    /** Overwrite bytes first and last of a live allocation. */
    method Poison(ptr: Addr, first: nat, last: nat, poison: byte)
      requires Valid() && ptr in tracker.memzones && first <= last < tracker.memzones[ptr].len
      modifies host`bytes
      ensures Valid() && Marked(old(host.bytes), host.bytes, ptr.region, first)
      ensures Poisoned(host.bytes, ptr.region, first, last, poison)
    {
      host.Store(Addr(ptr.region, ptr.offset + first), [poison]);
      host.Store(Addr(ptr.region, ptr.offset + last), [poison]);
    }

    /** What debug builds do to the bytes from first to last. */
    method Mark(ptr: Addr, first: nat, last: nat, poison: byte)
      requires Valid() && ptr in tracker.memzones && first <= last < tracker.memzones[ptr].len
      modifies host`bytes
      ensures Valid() && Marked(old(host.bytes), host.bytes, ptr.region, first)
      ensures debug ==> Poisoned(host.bytes, ptr.region, first, last, poison)
      ensures !debug ==> host.bytes == old(host.bytes)
    {
      if debug {
        Poison(ptr, first, last, poison);
      }
    }

    /** Allocate(size, &out): `ptr` is the pointer's value before the call, `out` after it. */
    method Allocate(size: int, ptr: Addr) returns (status: Status, out: Addr)
      requires Valid()
      modifies this, host, tracker
      ensures Valid()
      ensures size < 0 ==> status == Invalid
      ensures status == Invalid ==> size < 0
      ensures status == OutOfMemory ==> size != 0
      ensures status == OK || status == Invalid || status == OutOfMemory
      ensures size >= SIZE_T_MAX ==> status == OutOfMemory
      ensures host.refusals == old(host.refusals) + (if status == OutOfMemory && size < SIZE_T_MAX then 1 else 0)
      ensures status == OK && debug && size > 0 ==> Poisoned(host.bytes, out.region, 0, size - 1, ALLOC_POISON)
      ensures status != OK ==>
                && out == ptr && bytesAllocated == old(bytesAllocated)
                && host.bytes == old(host.bytes) && tracker.memzones == old(tracker.memzones)
      ensures status == OK ==> bytesAllocated == old(bytesAllocated) + size && Owns(out, size)
      ensures status == OK && size == 0 ==>
                out == ZERO_SIZE_AREA && host.bytes == old(host.bytes) && tracker.memzones == old(tracker.memzones)
      ensures status == OK && size > 0 ==>
                && Resized(old(Live()), Live(), 0, size, ZERO_SIZE_AREA, out)
                && Reserved(old(tracker.memzones), old(host.bytes), out, size, tracker.memzones, host.bytes)
    {
      hide Tallied, Poisoned, Marked, Reserved, Extends, Resized, Backed;
      if size < 0 {
        return Invalid, ptr;
      }
      if size >= SIZE_T_MAX {
        return OutOfMemory, ptr;
      }
      status, out := AllocateCounted(size, ptr);
      if status == OK && size > 0 {
        ghost var m := host.bytes;
        ReservedHeld(old(tracker.memzones), old(host.bytes), out, size, tracker.memzones, m);
        Mark(out, 0, size - 1, ALLOC_POISON);
        MarkedNew(old(tracker.memzones), old(host.bytes), out, size, tracker.memzones, m, host.bytes);
      }
    }

    /** Reserve memory and keep the total right. */
    method AllocateCounted(size: nat, ptr: Addr) returns (status: Status, out: Addr)
      requires Valid()
      modifies this, host, tracker
      ensures Valid() && (status == OK || (status == OutOfMemory && size > 0))
      ensures host.refusals == old(host.refusals) + (if status == OK then 0 else 1)
      ensures status != OK ==> out == ptr && bytesAllocated == old(bytesAllocated)
      ensures status != OK || size == 0 ==>
                host.bytes == old(host.bytes) && tracker.memzones == old(tracker.memzones)
      ensures status == OK ==> bytesAllocated == old(bytesAllocated) + size
      ensures status == OK && size == 0 ==> out == ZERO_SIZE_AREA
      ensures status == OK && size > 0 ==>
                Reserved(old(tracker.memzones), old(host.bytes), out, size, tracker.memzones, host.bytes)
    {
      status, out := AllocateAligned(size, ptr);
      if status == OK {
        bytesAllocated := bytesAllocated + size;
        hide TotalLen;
        if size > 0 {
          TotalLenAdd(old(tracker.memzones), out, Memzone(out.region, size));
        }
      }
    }

    method DeallocateAligned(ptr: Addr)
      modifies host`bytes, tracker
      ensures tracker.memzones == if ptr == ZERO_SIZE_AREA then old(tracker.memzones) else old(tracker.memzones) - {ptr}
      ensures host.bytes == if ptr == ZERO_SIZE_AREA || ptr !in old(tracker.memzones) then old(host.bytes)
                            else old(host.bytes) - {old(tracker.memzones)[ptr].region}
    {
      if ptr != ZERO_SIZE_AREA {
        tracker.Release(ptr, host);
      }
    }

    method ReallocateAligned(oldSize: nat, newSize: nat, ptr: Addr) returns (status: Status, out: Addr)
      requires Valid() && Owns(ptr, oldSize)
      modifies host, tracker
      ensures status == OK || status == OutOfMemory
      ensures host.refusals == old(host.refusals) + (if status == OK then 0 else 1)
      ensures status != OK ==>
                out == ptr && host.bytes == old(host.bytes) && tracker.memzones == old(tracker.memzones)
      ensures status == OK ==> Moved(old(tracker.memzones), old(host.bytes), oldSize, newSize, ptr,
                                     tracker.memzones, host.bytes, out)
    {
      if ptr == ZERO_SIZE_AREA {
        status, out := AllocateAligned(newSize, ptr);
        return;
      }
      if newSize == 0 {
        DeallocateAligned(ptr);
        return OK, ZERO_SIZE_AREA;
      }
      status, out := AllocateAligned(newSize, ptr);
      if status != OK {
        return;
      }
      var n := Min(newSize, oldSize);
      host.Store(out, host.bytes[ptr.region][ptr.offset..ptr.offset + n]);
      tracker.Release(ptr, host);
    }

    method Reallocate(oldSize: int, newSize: int, ptr: Addr) returns (status: Status, out: Addr)
      requires Valid() && oldSize >= 0 && Owns(ptr, oldSize)
      modifies this, host, tracker
      ensures Valid()
      ensures newSize < 0 <==> status == Invalid
      ensures status == OK || status == Invalid || status == OutOfMemory
      ensures newSize >= SIZE_T_MAX ==> status == OutOfMemory
      ensures host.refusals == old(host.refusals) + (if status == OutOfMemory && newSize < SIZE_T_MAX then 1 else 0)
      ensures status == OK && debug && newSize > oldSize ==>
                Poisoned(host.bytes, out.region, oldSize, newSize - 1, REALLOC_POISON)
      ensures status != OK ==>
                && out == ptr && bytesAllocated == old(bytesAllocated)
                && host.bytes == old(host.bytes) && tracker.memzones == old(tracker.memzones)
      ensures status == OK ==>
                && bytesAllocated == old(bytesAllocated) + newSize - oldSize
                && Owns(out, newSize) && Resized(old(Live()), Live(), oldSize, newSize, ptr, out)
    {
      hide Tallied, Relocated, Marked, Poisoned, Backed, Resized;
      if newSize < 0 {
        return Invalid, ptr;
      }
      if newSize >= SIZE_T_MAX {
        return OutOfMemory, ptr;
      }
      status, out := MoveCounted(oldSize, newSize, ptr);
      if status == OK {
        if newSize > oldSize {
          ghost var m := host.bytes;
          Mark(out, oldSize, newSize - 1, REALLOC_POISON);
          RelocatedMarked(old(tracker.memzones), old(host.bytes), oldSize, newSize, ptr, tracker.memzones, m, host.bytes, out);
        }
        RelocatedLive(old(tracker.memzones), old(host.bytes), oldSize, newSize, ptr, tracker.memzones, host.bytes, out);
      }
    }

    /** Move the allocation and keep the total right. */
    method MoveCounted(oldSize: nat, newSize: nat, ptr: Addr) returns (status: Status, out: Addr)
      requires Valid() && Owns(ptr, oldSize)
      modifies this, host, tracker
      ensures Valid() && (status == OK || status == OutOfMemory)
      ensures host.refusals == old(host.refusals) + (if status == OK then 0 else 1)
      ensures status != OK ==>
                && out == ptr && bytesAllocated == old(bytesAllocated)
                && host.bytes == old(host.bytes) && tracker.memzones == old(tracker.memzones)
      ensures status == OK ==>
                && bytesAllocated == old(bytesAllocated) + newSize - oldSize
                && (newSize > 0 ==> out in tracker.memzones && tracker.memzones[out].len == newSize)
                && Relocated(old(tracker.memzones), old(host.bytes), oldSize, newSize, ptr, tracker.memzones, host.bytes, out)
    {
      status, out := ReallocateAligned(oldSize, newSize, ptr);
      if status == OK {
        bytesAllocated := bytesAllocated + newSize - oldSize;
        hide TotalLen;
        ReallocTotal(old(tracker.memzones), oldSize, newSize, ptr, out);
        MovedKeeps(old(tracker.memzones), old(host.bytes), oldSize, newSize, ptr, tracker.memzones, host.bytes, out);
      }
    }

    method Free(buffer: Addr, size: int)
      requires Valid() && size >= 0 && Owns(buffer, size)
      modifies this, host`bytes, tracker
      ensures Valid()
      ensures bytesAllocated == old(bytesAllocated) - size
      ensures tracker.memzones == old(tracker.memzones) - {buffer}
      ensures Vacated(old(host.bytes), host.bytes, if size == 0 then {} else {buffer.region})
    {
      if buffer == ZERO_SIZE_AREA {
        assert buffer !in tracker.memzones;
        DeallocateAligned(buffer);
        bytesAllocated := bytesAllocated - size;
        assert tracker.memzones - {buffer} == tracker.memzones;
        return;
      }
      if size > 0 {
        Mark(buffer, 0, size - 1, DEALLOC_POISON);
      }
      DropKeeps(tracker.memzones, host.bytes, buffer);
      TotalLenRemove(tracker.memzones, buffer);
      DeallocateAligned(buffer);
      bytesAllocated := bytesAllocated - size;
    }
  }

  /** Only bytes of region r from the given one on have changed. */
  ghost predicate Marked(m: Memory, m': Memory, r: Region, first: nat)
  {
    && SameShape(m, m') && r in m && first <= |m[r]| && m'[r][..first] == m[r][..first]
    && forall q :: q in m && q != r ==> m'[q] == m[q]
  }

  /** Seen from outside: the allocation at ptr is gone, the new one at out holds its first min(old, new)
      bytes, and every other one is as it was. */
  ghost predicate Resized(was: map<Addr, seq<byte>>, now: map<Addr, seq<byte>>, oldSize: nat, newSize: nat, ptr: Addr, out: Addr)
  {
    && ((newSize == 0) <==> (out == ZERO_SIZE_AREA))
    && now.Keys == was.Keys - {ptr} + (if newSize == 0 then {} else {out})
    && (newSize > 0 ==> out !in was && out in now && |now[out]| == newSize)
    && (forall a :: a in was && a != ptr ==> a in now && now[a] == was[a])
    && (newSize > 0 && oldSize > 0 ==>
          && ptr in was && |was[ptr]| == oldSize
          && now[out][..Min(oldSize, newSize)] == was[ptr][..Min(oldSize, newSize)])
  }

  /** In terms of addresses: the allocation at ptr is gone, the one at out holds its first bytes, and
      every other one is as it was. */
  ghost predicate Relocated(zones: ZoneMap, m: Memory, oldSize: nat, newSize: nat, ptr: Addr,
                            zones': ZoneMap, m': Memory, out: Addr)
  {
    && ((newSize == 0) <==> (out == ZERO_SIZE_AREA))
    && zones'.Keys == zones.Keys - {ptr} + (if newSize == 0 then {} else {out})
    && (newSize > 0 ==> out !in zones && out.region in m' && |m'[out.region]| == newSize)
    && (newSize > 0 && oldSize > 0 ==>
          && ptr.region in m && |m[ptr.region]| == oldSize
          && m'[out.region][..Min(oldSize, newSize)] == m[ptr.region][..Min(oldSize, newSize)])
    && forall a :: a in zones && a != ptr ==> a.region in m && a.region in m' && m'[a.region] == m[a.region]
  }

  lemma RelocatedMarked(zones: ZoneMap, m: Memory, oldSize: nat, newSize: nat, ptr: Addr,
                        zones': ZoneMap, m1: Memory, m2: Memory, out: Addr)
    requires Relocated(zones, m, oldSize, newSize, ptr, zones', m1, out) && Backed(zones', m1)
    requires oldSize < newSize && Marked(m1, m2, out.region, oldSize)
    ensures Relocated(zones, m, oldSize, newSize, ptr, zones', m2, out)
  {
    forall a | a in zones && a != ptr
      ensures a.region in m2 && m2[a.region] == m[a.region]
    {
      assert a in zones' && a != out && a == zones'[a].Address() && out == zones'[out].Address();
    }
  }

  /** The same in terms of the pool's contents. */
  lemma RelocatedLive(zones: ZoneMap, m: Memory, oldSize: nat, newSize: nat, ptr: Addr, zones': ZoneMap, m': Memory, out: Addr)
    requires Backed(zones, m) && Backed(zones', m') && Relocated(zones, m, oldSize, newSize, ptr, zones', m', out)
    requires oldSize > 0 ==> ptr in zones
    ensures Resized(LiveBytes(zones, m), LiveBytes(zones', m'), oldSize, newSize, ptr, out)
    ensures newSize > 0 ==> out in zones' && |LiveBytes(zones', m')[out]| == newSize
    ensures (newSize == 0) <==> (out == ZERO_SIZE_AREA)
  {
  }

  lemma ReservedHeld(zones: ZoneMap, m: Memory, out: Addr, size: nat, zones': ZoneMap, m': Memory)
    requires Reserved(zones, m, out, size, zones', m')
    ensures out in zones' && zones'[out].len == size && out != ZERO_SIZE_AREA
  {
  }

  /** A new allocation, marked or not. */
  lemma MarkedNew(zones: ZoneMap, m: Memory, out: Addr, size: nat, zones': ZoneMap, m1: Memory, m2: Memory)
    requires Backed(zones, m) && Reserved(zones, m, out, size, zones', m1) && Marked(m1, m2, out.region, 0) && size > 0
    ensures Reserved(zones, m, out, size, zones', m2)
    ensures Backed(zones', m2) && |LiveBytes(zones', m2)[out]| == size
    ensures Resized(LiveBytes(zones, m), LiveBytes(zones', m2), 0, size, ZERO_SIZE_AREA, out)
  {
    hide *;
    MarkedReserved(zones, m, out, size, zones', m1, m2);
    ReservedBacked(zones, m, out, size, zones', m2);
    ReservedLive(zones, m, out, size, zones', m2);
  }

  lemma ReservedBacked(zones: ZoneMap, m: Memory, out: Addr, size: nat, zones': ZoneMap, m': Memory)
    requires Backed(zones, m) && Reserved(zones, m, out, size, zones', m') && size > 0
    ensures Backed(zones', m') && zones'.Keys == zones.Keys + {out} && out !in zones && ZERO_SIZE_AREA !in zones
    ensures out != ZERO_SIZE_AREA && forall a :: a in zones ==> m'[a.region] == m[a.region]
  {
  }

  lemma ReservedLive(zones: ZoneMap, m: Memory, out: Addr, size: nat, zones': ZoneMap, m': Memory)
    requires Backed(zones, m) && Backed(zones', m') && Reserved(zones, m, out, size, zones', m') && size > 0
    ensures Resized(LiveBytes(zones, m), LiveBytes(zones', m'), 0, size, ZERO_SIZE_AREA, out)
    ensures out in zones' && |LiveBytes(zones', m')[out]| == size
  {
    hide Reserved, Backed;
    ReservedBacked(zones, m, out, size, zones', m');
    ReservedSize(zones, m, out, size, zones', m');
    var was, now := LiveBytes(zones, m), LiveBytes(zones', m');
    assert was.Keys - {ZERO_SIZE_AREA} == was.Keys;
    assert forall a :: a in was ==> now[a] == was[a];
  }

  lemma ReservedSize(zones: ZoneMap, m: Memory, out: Addr, size: nat, zones': ZoneMap, m': Memory)
    requires Reserved(zones, m, out, size, zones', m')
    ensures out.region in m' && |m'[out.region]| == size
  {
  }

  lemma MarkedReserved(zones: ZoneMap, m: Memory, out: Addr, size: nat, zones': ZoneMap, m1: Memory, m2: Memory)
    requires Reserved(zones, m, out, size, zones', m1) && Marked(m1, m2, out.region, 0)
    ensures Reserved(zones, m, out, size, zones', m2)
  {
  }

  /** A debug build has marked the first and the last of these bytes. */
  ghost predicate Poisoned(m: Memory, r: Region, first: nat, last: nat, poison: byte)
  {
    r in m && first <= last < |m[r]| && m[r][first] == poison && m[r][last] == poison
  }

  /** The regions rs are gone; the others are as they were. */
  ghost predicate Vacated(m: Memory, m': Memory, rs: set<Region>)
  {
    m'.Keys == m.Keys - rs && forall r :: r in m' ==> m'[r] == m[r]
  }

  lemma DropKeeps(zones: ZoneMap, m: Memory, a: Addr)
    requires Backed(zones, m) && a in zones
    ensures Backed(zones - {a}, m - {a.region})
  {
  }

  lemma MovedKeeps(zones: ZoneMap, m: Memory, oldSize: nat, newSize: nat, ptr: Addr,
                   zones': ZoneMap, m': Memory, out: Addr)
    requires Backed(zones, m) && Moved(zones, m, oldSize, newSize, ptr, zones', m', out)
    requires ptr == ZERO_SIZE_AREA || ptr in zones
    ensures Backed(zones', m')
    ensures zones'.Keys == zones.Keys - {ptr} + (if newSize == 0 then {} else {out})
    ensures forall a :: a in zones && a != ptr ==> a in zones' && m'[a.region] == m[a.region]
    ensures newSize > 0 ==> out !in zones && out.region != ptr.region && out in zones'
  {
    assert forall a :: a in zones && a != ptr ==> a.region != ptr.region || ptr == ZERO_SIZE_AREA;
  }

  lemma ReallocTotal(zones: ZoneMap, oldSize: nat, newSize: nat, ptr: Addr, out: Addr)
    requires if ptr == ZERO_SIZE_AREA then oldSize == 0 && ptr !in zones else ptr in zones && zones[ptr].len == oldSize
    requires newSize > 0 ==> out !in zones
    ensures TotalLen(zones - {ptr}) == TotalLen(zones) - oldSize
    ensures newSize > 0 ==>
              TotalLen((zones - {ptr})[out := Memzone(out.region, newSize)]) == TotalLen(zones) - oldSize + newSize
  {
    if ptr != ZERO_SIZE_AREA {
      TotalLenRemove(zones, ptr);
    } else {
      assert zones - {ptr} == zones;
    }
    if newSize > 0 {
      TotalLenAdd(zones - {ptr}, out, Memzone(out.region, newSize));
    }
  }
}
