/** The value behind a device's zone allocator: a stack of free zones (top last) and the set of
    zones out on loan. The device memory class and the interleaving model both step through
    these functions. */
module ZoneStack {
  import opened Sequences
  import opened HostMemory
  import opened MemoryPool

  datatype Zones = Zones(free: seq<Memzone>, occupied: set<Memzone>)
  {
    ghost predicate WellFormed()
    {
      Distinct(free) && forall z :: z in free ==> z !in occupied
    }

    ghost predicate Has(z: Memzone)
    {
      z in free || z in occupied
    }

    /** Every zone the device has ever obtained and not freed. */
    function Obtained(): set<Memzone>
    {
      Elements(free) + occupied
    }
  }

  /** A take hands out the top of the stack; with an empty stack it hands out a new zone. */
  ghost predicate CanTake(st: Zones, z: Memzone)
  {
    if st.free != [] then z == st.free[|st.free| - 1] else !st.Has(z)
  }

  function Take(st: Zones, z: Memzone): Zones
  {
    Zones(if st.free == [] then [] else st.free[..|st.free| - 1], st.occupied + {z})
  }

  /** A put returns an occupied zone to the top; any other zone is ignored. */
  function Put(st: Zones, z: Memzone): Zones
  {
    if z in st.occupied then Zones(st.free + [z], st.occupied - {z}) else st
  }

  ghost function TakeAll(st: Zones, zs: seq<Memzone>): Zones
  {
    if zs == [] then st else Take(TakeAll(st, zs[..|zs| - 1]), zs[|zs| - 1])
  }

  ghost predicate CanTakeAll(st: Zones, zs: seq<Memzone>)
  {
    zs != [] ==>
      && CanTakeAll(st, zs[..|zs| - 1])
      && CanTake(TakeAll(st, zs[..|zs| - 1]), zs[|zs| - 1])
  }

  ghost function PutAll(st: Zones, zs: seq<Memzone>): Zones
    decreases |zs|
  {
    if zs == [] then st else PutAll(Put(st, zs[0]), zs[1..])
  }

  /** The zones a run of takes had to obtain anew, because the stack had run out. */
  function Hot(st: Zones, zs: seq<Memzone>): seq<Memzone>
  {
    zs[Min(|st.free|, |zs|)..]
  }

  lemma CanTakeOne(st: Zones, zs: seq<Memzone>, z: Memzone)
    requires CanTakeAll(st, zs) && CanTake(TakeAll(st, zs), z)
    ensures CanTakeAll(st, zs + [z])
    ensures TakeAll(st, zs + [z]) == Take(TakeAll(st, zs), z)
  {
    assert (zs + [z])[..|zs|] == zs;
  }

  lemma {:induction false} TakeAllConcat(st: Zones, a: seq<Memzone>, b: seq<Memzone>)
    requires CanTakeAll(st, a) && CanTakeAll(TakeAll(st, a), b)
    ensures CanTakeAll(st, a + b) && TakeAll(st, a + b) == TakeAll(TakeAll(st, a), b)
  {
    if b == [] {
      assert a + b == a;
    } else {
      var b' := b[..|b| - 1];
      TakeAllConcat(st, a, b');
      CanTakeOne(st, a + b', b[|b| - 1]);
      SplitLast(a, b);
    }
  }

  lemma SplitLast(a: seq<Memzone>, b: seq<Memzone>)
    requires b != []
    ensures a + b == a + b[..|b| - 1] + [b[|b| - 1]]
  {
  }

  /** How many of n taken zones come from the stack. */
  function FromStack(st: Zones, n: nat): (k: nat)
  {
    Min(|st.free|, n)
  }

  /** st' is st after handing out zs: the stack gave way from the top and was never refilled,
      everything handed out is on loan, and no zone was handed out twice. */
  ghost predicate HandedOut(st: Zones, zs: seq<Memzone>, st': Zones)
  {
    && st'.WellFormed()
    && st'.free == st.free[..|st.free| - FromStack(st, |zs|)]
    && st'.occupied == st.occupied + Elements(zs)
    && Distinct(zs)
    && (forall z :: z in zs ==> z !in st.occupied)
    && (forall i :: 0 <= i < FromStack(st, |zs|) ==> zs[i] == st.free[|st.free| - 1 - i])
    && (forall i :: FromStack(st, |zs|) <= i < |zs| ==> !st.Has(zs[i]))
  }

  /** Zones that were free in state st or lie in regions that memory m does not have. */
  ghost predicate FreeOrNew(st: Zones, m: Memory, zones: seq<Memzone>)
  {
    forall i :: 0 <= i < |zones| ==> zones[i] in st.free || zones[i].region !in m
  }

  lemma HandedOutOne(st: Zones, zs: seq<Memzone>, st1: Zones, z: Memzone)
    requires st.WellFormed() && HandedOut(st, zs, st1) && CanTake(st1, z)
    ensures HandedOut(st, zs + [z], Take(st1, z))
  {
    assert Elements(zs + [z]) == Elements(zs) + {z};
    if |zs| < |st.free| {
      assert z == st.free[|st.free| - 1 - |zs|];
    } else {
      StackGone(st, zs, st1);
    }
  }

  /** Once as many zones have been handed out as the stack held, they include all of it. */
  lemma StackGone(st: Zones, zs: seq<Memzone>, st1: Zones)
    requires HandedOut(st, zs, st1) && |zs| >= |st.free|
    ensures forall y :: y in st.free ==> y in zs
  {
    forall y | y in st.free
      ensures y in zs
    {
      var i :| 0 <= i < |st.free| && st.free[i] == y;
      assert zs[|st.free| - 1 - i] == y;
    }
  }

  lemma {:induction false} TakeAllShape(st: Zones, zs: seq<Memzone>)
    requires st.WellFormed() && CanTakeAll(st, zs)
    ensures HandedOut(st, zs, TakeAll(st, zs))
  {
    if zs != [] {
      hide HandedOut;
      var zs', z := zs[..|zs| - 1], zs[|zs| - 1];
      TakeAllShape(st, zs');
      HandedOutOne(st, zs', TakeAll(st, zs'), z);
      assert zs' + [z] == zs;
    }
  }

  /** Putting never looks below the zones already on the stack. */
  lemma {:induction false} PutAllBelow(base: seq<Memzone>, st: Zones, zs: seq<Memzone>)
    ensures PutAll(Zones(base + st.free, st.occupied), zs) ==
            Zones(base + PutAll(st, zs).free, PutAll(st, zs).occupied)
    decreases |zs|
  {
    if zs != [] {
      PutAllBelow(base, Put(st, zs[0]), zs[1..]);
      assert base + (st.free + [zs[0]]) == base + st.free + [zs[0]];
    }
  }

  /** Taking and then putting back in the opposite order restores the stack: the old stack in its
      old order on top, the newly obtained zones below it in reverse order, nothing on loan. */
  lemma {:induction false} PutReversedRestores(st: Zones, zs: seq<Memzone>)
    requires st.WellFormed() && CanTakeAll(st, zs)
    ensures PutAll(TakeAll(st, zs), Reverse(zs)) == Zones(Reverse(Hot(st, zs)) + st.free, st.occupied)
  {
    hide HandedOut;
    if zs != [] {
      var zs', z := zs[..|zs| - 1], zs[|zs| - 1];
      PutReversedRestores(st, zs');
      TakeAllShape(st, zs');
      RestoreOne(st, zs', z, TakeAll(st, zs'));
      assert zs == zs' + [z];
    }
  }

  lemma RestoreOne(st: Zones, zs: seq<Memzone>, z: Memzone, before: Zones)
    requires HandedOut(st, zs, before) && CanTake(before, z)
    requires PutAll(before, Reverse(zs)) == Zones(Reverse(Hot(st, zs)) + st.free, st.occupied)
    ensures PutAll(Take(before, z), Reverse(zs + [z])) == Zones(Reverse(Hot(st, zs + [z])) + st.free, st.occupied)
  {
    ReverseSnoc(zs, z);
    PutAllCons(Take(before, z), z, Reverse(zs));
    PutUndoesTake(before, z);
    HotOne(st, zs, z);
    if before.free == [] {
      PutAllBelow([z], before, Reverse(zs));
      assert [z] + before.free == [z];
    }
  }

  lemma HotOne(st: Zones, zs: seq<Memzone>, z: Memzone)
    ensures Reverse(Hot(st, zs + [z])) + st.free ==
            if |zs| < |st.free| then Reverse(Hot(st, zs)) + st.free else [z] + (Reverse(Hot(st, zs)) + st.free)
  {
    if |zs| < |st.free| {
      assert Hot(st, zs + [z]) == [] && Hot(st, zs) == [];
    } else {
      assert Hot(st, zs + [z]) == Hot(st, zs) + [z];
      ReverseSnoc(Hot(st, zs), z);
    }
  }

  lemma PutAllCons(st: Zones, z: Memzone, zs: seq<Memzone>)
    ensures PutAll(st, [z] + zs) == PutAll(Put(st, z), zs)
  {
    assert ([z] + zs)[1..] == zs;
  }

  /** A zone put straight back returns to the top; if it was new, it stays as the only one. */
  lemma PutUndoesTake(st: Zones, z: Memzone)
    requires st.WellFormed() && CanTake(st, z)
    ensures Put(Take(st, z), z) == if st.free == [] then Zones([z], st.occupied) else st
  {
    assert z !in st.occupied;
    assert st.occupied + {z} - {z} == st.occupied;
  }

  /** Putting back distinct occupied zones pushes each of them, exactly once. */
  lemma {:induction false} PutAllExact(st: Zones, zs: seq<Memzone>)
    requires Distinct(zs) && forall z :: z in zs ==> z in st.occupied
    ensures PutAll(st, zs) == Zones(st.free + zs, st.occupied - Elements(zs))
    decreases |zs|
  {
    if zs == [] {
      assert st.free + zs == st.free;
    } else {
      assert zs == [zs[0]] + zs[1..];
      assert Elements(zs) == {zs[0]} + Elements(zs[1..]);
      PutAllExact(Put(st, zs[0]), zs[1..]);
      assert st.free + [zs[0]] + zs[1..] == st.free + zs;
    }
  }

  // ----- putting by address -----

  /** Put(addr) for the start of each slice in turn; unknown addresses are ignored. */
  ghost function PutSlices(st: Zones, memzones: ZoneMap, ss: seq<Slice>): Zones
    decreases |ss|
  {
    if ss == [] then st else PutSlices(PutAt(st, memzones, Addr(ss[0].region, ss[0].start)), memzones, ss[1..])
  }

  lemma PutSlicesCons(st: Zones, memzones: ZoneMap, s: Slice, rest: seq<Slice>)
    ensures PutSlices(st, memzones, [s] + rest) == PutSlices(PutAt(st, memzones, Addr(s.region, s.start)), memzones, rest)
  {
    assert ([s] + rest)[1..] == rest;
  }

  function PutAt(st: Zones, memzones: ZoneMap, addr: Addr): Zones
  {
    if addr in memzones then Put(st, memzones[addr]) else st
  }

  /** Slices that start where zones start put exactly those zones. */
  lemma {:induction false} PutSlicesIsPutAll(st: Zones, memzones: ZoneMap, ss: seq<Slice>, zs: seq<Memzone>)
    requires |ss| == |zs|
    requires forall i :: 0 <= i < |ss| ==>
               ss[i].region == zs[i].region && ss[i].start == 0 && zs[i].Address() in memzones && memzones[zs[i].Address()] == zs[i]
    ensures PutSlices(st, memzones, ss) == PutAll(st, zs)
    decreases |ss|
  {
    if ss != [] {
      PutSlicesIsPutAll(Put(st, zs[0]), memzones, ss[1..], zs[1..]);
    }
  }

  lemma {:induction false} PutSlicesConcat(st: Zones, memzones: ZoneMap, a: seq<Slice>, b: seq<Slice>)
    ensures PutSlices(st, memzones, a + b) == PutSlices(PutSlices(st, memzones, a), memzones, b)
    decreases |a|
  {
    if a == [] {
      assert a + b == b;
    } else {
      assert (a + b)[1..] == a[1..] + b;
      PutSlicesConcat(PutAt(st, memzones, Addr(a[0].region, a[0].start)), memzones, a[1..], b);
    }
  }
}
