/** What Compress sets out to do: the jobs that an input is cut into and the zones lent for them, as
    functions of how far assembly has got. */
module Plans {
  import opened Sequences
  import opened HostMemory
  import opened MemoryPool
  import opened ZoneStack
  import opened DeviceMemory
  import opened Operations
  import opened Ledger
  import opened Config
  import opened Assembly
  import opened Pipeline

  // ----- compression -----

  /** The jobs that the first `bytes` bytes of the input make, one zone per segment. */
  ghost function CompressJobs(cfg: Settings, input: Slice, bytes: nat, zones: seq<Memzone>): (jobs: seq<Job>)
    requires cfg.seg > 0 && cfg.sgl > 0 && |zones| == CeilDiv(bytes, cfg.seg)
    ensures |jobs| == CeilDiv(|zones|, cfg.sgl)
  {
    var segs := Segments(input.region, input.start, bytes, cfg.seg);
    SegmentsShape(input.region, input.start, bytes, cfg.seg);
    ChunksShape(segs, cfg.sgl);
    ChunksShape(ZoneSlices(zones), cfg.sgl);
    Zip(Chunks(segs, cfg.sgl), Chunks(ZoneSlices(zones), cfg.sgl))
  }

  lemma CompressJobsAre(cfg: Settings, input: Slice, bytes: nat, zones: seq<Memzone>)
    requires cfg.seg > 0 && cfg.sgl > 0 && |zones| == CeilDiv(bytes, cfg.seg)
    ensures var segs := Segments(input.region, input.start, bytes, cfg.seg);
            && |segs| == |zones|
            && |Chunks(segs, cfg.sgl)| == |Chunks(ZoneSlices(zones), cfg.sgl)| == CeilDiv(|zones|, cfg.sgl)
            && CompressJobs(cfg, input, bytes, zones) == Zip(Chunks(segs, cfg.sgl), Chunks(ZoneSlices(zones), cfg.sgl))
  {
    SegmentsShape(input.region, input.start, bytes, cfg.seg);
    ChunksShape(Segments(input.region, input.start, bytes, cfg.seg), cfg.sgl);
    ChunksShape(ZoneSlices(zones), cfg.sgl);
  }

  /** While input is left, only whole segments and whole operations have been cut. */
  ghost predicate Whole(cfg: Settings, input: Slice, offset: nat, numZones: nat)
    requires cfg.seg > 0 && cfg.sgl > 0
  {
    offset <= input.len && (offset < input.len ==> Multiple(offset, cfg.seg) && Multiple(numZones, cfg.sgl))
  }

  /** One round of assembly continues the plan. */
  lemma NextCompressJobs(cfg: Settings, input: Slice, offset: nat, offset': nat, staged: nat, segs: seq<Slice>, k: nat,
                         zones: seq<Memzone>, more: seq<Memzone>)
    requires cfg.seg > 0 && cfg.sgl > 0 && |zones| == CeilDiv(offset, cfg.seg) && Whole(cfg, input, offset, |zones|)
    requires CutFor(cfg, input, offset, offset', staged, segs, k) && |more| == |segs|
    ensures |zones + more| == CeilDiv(offset', cfg.seg) && Whole(cfg, input, offset', |zones + more|)
    ensures CompressJobs(cfg, input, offset', zones + more) ==
            CompressJobs(cfg, input, offset, zones) + Zip(Deal(segs, cfg.sgl, k), Deal(ZoneSlices(more), cfg.sgl, k))
  {
    var before := Segments(input.region, input.start, offset, cfg.seg);
    NextWhole(cfg, input, offset, offset', staged, segs, k, |zones|);
    CompressJobsAre(cfg, input, offset, zones);
    CompressJobsAre(cfg, input, offset', zones + more);
    if offset < input.len {
      DealBoth(before, segs, zones, more, cfg.sgl, k);
      ZipAppend(Chunks(before, cfg.sgl), Deal(segs, cfg.sgl, k), Chunks(ZoneSlices(zones), cfg.sgl), Deal(ZoneSlices(more), cfg.sgl, k));
    } else {
      NothingMore(CompressJobs(cfg, input, offset, zones), segs, more, cfg.sgl);
      assert zones + more == zones;
    }
  }

  lemma ZipAppend(a: seq<seq<Slice>>, b: seq<seq<Slice>>, c: seq<seq<Slice>>, d: seq<seq<Slice>>)
    requires |a| == |c| && |b| == |d|
    ensures Zip(a + b, c + d) == Zip(a, c) + Zip(b, d)
  {
  }

  lemma NothingMore(jobs: seq<Job>, segs: seq<Slice>, more: seq<Memzone>, n: nat)
    requires segs == [] && more == []
    ensures jobs + Zip(Deal(segs, n, 0), Deal(ZoneSlices(more), n, 0)) == jobs
  {
  }

  /** The segments cut so far and the new ones are the segments up to the new offset. */
  lemma NextWhole(cfg: Settings, input: Slice, offset: nat, offset': nat, staged: nat, segs: seq<Slice>, k: nat, numZones: nat)
    requires cfg.seg > 0 && cfg.sgl > 0 && numZones == CeilDiv(offset, cfg.seg) && Whole(cfg, input, offset, numZones)
    requires CutFor(cfg, input, offset, offset', staged, segs, k)
    ensures numZones + |segs| == CeilDiv(offset', cfg.seg) && Whole(cfg, input, offset', numZones + |segs|)
    ensures Segments(input.region, input.start, offset', cfg.seg) ==
            Segments(input.region, input.start, offset, cfg.seg) + segs
    ensures offset == input.len ==> segs == [] && k == 0 && offset' == offset
  {
    hide Segments;
    var b := offset' - offset;
    assert offset' == offset + b;
    SegmentsAppend(input.region, input.start, offset, b, cfg.seg);
    SegmentsShape(input.region, input.start, offset, cfg.seg);
    SegmentsShape(input.region, input.start, offset', cfg.seg);
    if offset < input.len && offset' < input.len {
      MultipleSum(offset, b, cfg.seg);
      MultipleSum(numZones, |segs|, cfg.sgl);
    }
  }

  lemma DealBoth(before: seq<Slice>, segs: seq<Slice>, zones: seq<Memzone>, more: seq<Memzone>, n: nat, k: nat)
    requires n > 0 && |before| == |zones| && |segs| == |more| && Multiple(|zones|, n) && k == CeilDiv(|segs|, n)
    ensures Chunks(before + segs, n) == Chunks(before, n) + Deal(segs, n, k)
    ensures Chunks(ZoneSlices(zones + more), n) == Chunks(ZoneSlices(zones), n) + Deal(ZoneSlices(more), n, k)
  {
    DealOne(before, segs, n, k);
    ZoneSlicesConcat(zones, more);
    DealOne(ZoneSlices(zones), ZoneSlices(more), n, k);
  }

  lemma DealOne(before: seq<Slice>, segs: seq<Slice>, n: nat, k: nat)
    requires n > 0 && Multiple(|before|, n) && k == CeilDiv(|segs|, n)
    ensures Chunks(before + segs, n) == Chunks(before, n) + Deal(segs, n, k)
  {
    ChunksAppend(before, segs, n);
    DealIsChunks(segs, n);
  }

  lemma ZoneSlicesConcat(a: seq<Memzone>, b: seq<Memzone>)
    ensures ZoneSlices(a + b) == ZoneSlices(a) + ZoneSlices(b)
  {
  }

  /** Zones lie in regions of their own, none of them region r. */
  ghost predicate Exclusive(zones: seq<Memzone>, r: Region)
  {
    && (forall i, j :: 0 <= i < j < |zones| ==> zones[i].region != zones[j].region)
    && (forall i :: 0 <= i < |zones| ==> zones[i].region != r)
  }

  /** The plan never writes to a place twice, nor to the input. */
  lemma CompressSeparate(cfg: Settings, input: Slice, bytes: nat, zones: seq<Memzone>)
    requires cfg.seg > 0 && cfg.sgl > 0 && |zones| == CeilDiv(bytes, cfg.seg) && Exclusive(zones, input.region)
    ensures Separate(CompressJobs(cfg, input, bytes, zones))
  {
    var jobs := CompressJobs(cfg, input, bytes, zones);
    var segs := Segments(input.region, input.start, bytes, cfg.seg);
    CompressJobsAre(cfg, input, bytes, zones);
    SegmentsShape(input.region, input.start, bytes, cfg.seg);
    ZonesApart(zones, cfg.sgl, jobs);
    forall i, j | 0 <= i < |jobs| && 0 <= j < |jobs|
      ensures Apart(jobs[i].dst, jobs[j].src)
    {
      forall a, b | 0 <= a < |jobs[i].dst| && 0 <= b < |jobs[j].src|
        ensures Disjoint(jobs[i].dst[a], jobs[j].src[b])
      {
        var p := ChunkFrom(ZoneSlices(zones), cfg.sgl, i, a);
        var q := ChunkFrom(segs, cfg.sgl, j, b);
        assert segs[q] in segs;
      }
    }
  }

  lemma ZonesApart(zones: seq<Memzone>, n: nat, jobs: seq<Job>)
    requires n > 0 && forall i, j :: 0 <= i < j < |zones| ==> zones[i].region != zones[j].region
    requires |jobs| == |Chunks(ZoneSlices(zones), n)|
    requires forall i :: 0 <= i < |jobs| ==> jobs[i].dst == Chunks(ZoneSlices(zones), n)[i]
    ensures forall i :: 0 <= i < |jobs| ==> PairwiseDisjoint(jobs[i].dst)
    ensures forall i, j :: 0 <= i < |jobs| && 0 <= j < |jobs| && i != j ==> Apart(jobs[i].dst, jobs[j].dst)
  {
    ChunksApart(ZoneSlices(zones), n);
  }

  /** Distinct zones of one device are exclusive. */
  lemma ServedExclusive(memzones: ZoneMap, size: nat, st: Zones, zones: seq<Memzone>, r: Region)
    requires Served(memzones, size, st) && Distinct(zones)
    requires forall i :: 0 <= i < |zones| ==> zones[i] in st.occupied && zones[i].region != r
    ensures Exclusive(zones, r)
  {
    forall i, j | 0 <= i < j < |zones|
      ensures zones[i].region != zones[j].region
    {
      assert st.Has(zones[i]) && st.Has(zones[j]);
      assert memzones[zones[i].Address()] == zones[i] && memzones[zones[j].Address()] == zones[j];
    }
  }

  /** Zones on loan are addressable memory. */
  lemma ZoneSlicesWithin(memzones: ZoneMap, size: nat, st: Zones, zones: seq<Memzone>, m: Memory)
    requires Served(memzones, size, st) && Backed(memzones, m)
    requires forall i :: 0 <= i < |zones| ==> zones[i] in st.occupied
    ensures AllWithin(m, ZoneSlices(zones))
  {
    forall i | 0 <= i < |zones|
      ensures Within(m, ZoneSlices(zones)[i])
    {
      assert st.Has(zones[i]);
    }
  }

  /** The jobs of a plan can be carried out. */
  lemma CompressAddressable(cfg: Settings, input: Slice, bytes: nat, zones: seq<Memzone>, m: Memory)
    requires cfg.seg > 0 && cfg.sgl > 0 && |zones| == CeilDiv(bytes, cfg.seg)
    requires Within(m, input) && bytes <= input.len && AllWithin(m, ZoneSlices(zones))
    ensures AllAddressable(m, CompressJobs(cfg, input, bytes, zones))
  {
    var jobs := CompressJobs(cfg, input, bytes, zones);
    CompressJobsAre(cfg, input, bytes, zones);
    GroupedSegments(m, input.region, input.start, bytes, cfg.seg, cfg.sgl, cfg.seg * cfg.sgl);
    forall i | 0 <= i < |jobs|
      ensures Addressable(m, jobs[i])
    {
      forall a | 0 <= a < |jobs[i].dst|
        ensures Within(m, jobs[i].dst[a])
      {
        var p := ChunkFrom(ZoneSlices(zones), cfg.sgl, i, a);
      }
    }
  }

  /** Sources of a plan read the same wherever the input does. */
  lemma CompressSourced(cfg: Settings, input: Slice, bytes: nat, zones: seq<Memzone>, m0: Memory, m: Memory)
    requires cfg.seg > 0 && cfg.sgl > 0 && |zones| == CeilDiv(bytes, cfg.seg) && bytes <= input.len
    requires Within(m0, input) && input.region in m && m[input.region] == m0[input.region]
    ensures Sourced(m0, m, CompressJobs(cfg, input, bytes, zones))
  {
    CompressJobsAre(cfg, input, bytes, zones);
    GroupedSegments(m0, input.region, input.start, bytes, cfg.seg, cfg.sgl, cfg.seg * cfg.sgl);
    GroupedSegments(m, input.region, input.start, bytes, cfg.seg, cfg.sgl, cfg.seg * cfg.sgl);
  }

  // ----- the zones of a compression -----

  /** Zones lent out since the device memory was in state st0 and host memory was m0; none of them is
      region r. */
  ghost predicate Loaned(st0: Zones, st: Zones, zones: seq<Memzone>, r: Region, m0: Memory)
  {
    && st0.WellFormed() && CanTakeAll(st0, zones) && st == TakeAll(st0, zones) && FreeOrNew(st0, m0, zones)
    && forall i :: 0 <= i < |zones| ==> zones[i].region != r
  }

  /** The device does not count region r among its free zones. */
  ghost predicate NotFree(st: Zones, r: Region)
  {
    forall i :: 0 <= i < |st.free| ==> st.free[i].region != r
  }

  lemma LoanGrows(st0: Zones, st: Zones, st': Zones, zones: seq<Memzone>, more: seq<Memzone>, r: Region, m0: Memory, m: Memory)
    requires Loaned(st0, st, zones, r, m0) && NotFree(st0, r) && r in m0 && m0.Keys <= m.Keys
    requires CanTakeAll(st, more) && st' == TakeAll(st, more) && FreeOrNew(st, m, more)
    ensures Loaned(st0, st', zones + more, r, m0)
  {
    TakeAllConcat(st0, zones, more);
    TakeAllShape(st0, zones);
    forall i | 0 <= i < |more|
      ensures more[i].region != r && (more[i] in st0.free || more[i].region !in m0)
    {
      if more[i] in st.free {
        var k :| 0 <= k < |st.free| && st.free[k] == more[i];
        assert st.free[k] == st0.free[k];
      }
    }
  }

  /** Zones on loan are distinct pieces of addressable memory. */
  lemma LoanUsable(st0: Zones, st: Zones, zones: seq<Memzone>, r: Region, m0: Memory, memzones: ZoneMap, size: nat, m: Memory)
    requires Loaned(st0, st, zones, r, m0) && Served(memzones, size, st) && Backed(memzones, m)
    ensures Exclusive(zones, r) && AllWithin(m, ZoneSlices(zones))
  {
    TakeAllShape(st0, zones);
    forall i | 0 <= i < |zones|
      ensures zones[i] in st.occupied
    {
      assert zones[i] in Elements(zones);
    }
    ServedExclusive(memzones, size, st, zones, r);
    ZoneSlicesWithin(memzones, size, st, zones, m);
  }

  /** Zones on loan have the device's size. */
  lemma LoanSized(st0: Zones, st: Zones, zones: seq<Memzone>, more: seq<Memzone>, r: Region, m0: Memory, memzones: ZoneMap, size: nat)
    requires Loaned(st0, st, zones + more, r, m0) && Served(memzones, size, st)
    ensures forall z :: z in zones ==> z.len == size
  {
    TakeAllShape(st0, zones + more);
    forall z | z in zones
      ensures z.len == size
    {
      assert z in zones + more && z in Elements(zones + more);
      assert st.Has(z);
    }
  }

  // ----- extending a compression by one round -----

  lemma CompressWritesNot(cfg: Settings, input: Slice, bytes: nat, zones: seq<Memzone>)
    requires cfg.seg > 0 && cfg.sgl > 0 && |zones| == CeilDiv(bytes, cfg.seg)
    requires forall i :: 0 <= i < |zones| ==> zones[i].region != input.region
    ensures !WritesTo(CompressJobs(cfg, input, bytes, zones), input.region)
  {
    CompressJobsAre(cfg, input, bytes, zones);
    var jobs := CompressJobs(cfg, input, bytes, zones);
    forall i, k | 0 <= i < |jobs| && 0 <= k < |jobs[i].dst|
      ensures jobs[i].dst[k].region != input.region
    {
      var q := ChunkFrom(ZoneSlices(zones), cfg.sgl, i, k);
    }
  }

  /** A chain lends at most as many buffers as it has, and all of them only if each is lent. */
  lemma {:induction false} LentBound(chain: seq<Mbuf>)
    ensures |Lent(chain)| <= |chain|
    ensures |Lent(chain)| == |chain| ==> Lent(chain) == Slices(chain)
  {
    if chain != [] {
      LentBound(chain[1..]);
      assert Slices(chain)[1..] == Slices(chain[1..]);
    }
  }

  lemma {:induction false} LentByAll(table: OpTable, ids: seq<OpId>, dsts: seq<seq<Slice>>)
    requires |ids| == |dsts|
    requires forall i :: 0 <= i < |ids| ==> ids[i] in table && Slices(table[ids[i]].dst) == dsts[i]
    ensures |LentTo(table, ids)| <= |Flatten(dsts)|
    ensures |LentTo(table, ids)| == |Flatten(dsts)| ==> LendsAll(table, ids)
  {
    if ids != [] {
      LentByAll(table, ids[1..], dsts[1..]);
      LentBound(table[ids[0]].dst);
      assert Slices(table[ids[0]].dst) == dsts[0];
      if |LentTo(table, ids)| == |Flatten(dsts)| {
        assert forall i :: 1 <= i < |ids| ==> ids[i] == ids[1..][i - 1];
      }
    }
  }

  /** New operations that hold exactly the zones taken for them lend every destination buffer. */
  lemma NewLendsAll(table: OpTable, newOps: seq<OpId>, segs: seq<Slice>, more: seq<Memzone>, n: nat)
    requires n > 0 && |newOps| == CeilDiv(|more|, n) && |segs| == |more| && Known(table, newOps)
    requires Loaded(table, newOps, Zip(Deal(segs, n, |newOps|), Deal(ZoneSlices(more), n, |newOps|)), Compress)
    requires LentTo(table, newOps) == ZoneSlices(more)
    ensures LendsAll(table, newOps)
  {
    var dsts := Deal(ZoneSlices(more), n, |newOps|);
    DealIsChunks(ZoneSlices(more), n);
    ChunksShape(ZoneSlices(more), n);
    var jobs := Zip(Deal(segs, n, |newOps|), dsts);
    forall i | 0 <= i < |newOps|
      ensures Slices(table[newOps[i]].dst) == dsts[i]
    {
      assert Carries(table[newOps[i]], jobs[i], Compress);
    }
    LentByAll(table, newOps, dsts);
  }

  /** A round of assembly keeps the run going on the longer plan. */
  lemma CompressRunExtends(codec: Codec, m0: Memory, s: Machine, s': Machine, pending: seq<OpId>, newOps: seq<OpId>, c: nat,
                           cfg: Settings, input: Slice, offset: nat, zones: seq<Memzone>, newJobs: seq<Job>,
                           offset': nat, zones': seq<Memzone>)
    requires cfg.seg > 0 && cfg.sgl > 0 && |zones| == CeilDiv(offset, cfg.seg) && |zones'| == CeilDiv(offset', cfg.seg)
    requires offset <= offset' <= input.len && Within(m0, input)
    requires var jobs := CompressJobs(cfg, input, offset, zones);
             && Running(codec, Compress, m0, s, pending, jobs, c) && Tidy(Compress, m0, s, pending, jobs)
             && CompressJobs(cfg, input, offset', zones') == jobs + newJobs
    requires Extends(s.mem, s'.mem) && Distinct(pending + newOps) && Kept(s.table, s'.table, pending)
    requires Loaded(s'.table, newOps, newJobs, Compress) && LendsAll(s'.table, newOps)
    requires Exclusive(zones', input.region) && AllWithin(s'.mem, ZoneSlices(zones')) && zones <= zones'
    ensures var jobs := CompressJobs(cfg, input, offset', zones');
            && Running(codec, Compress, m0, s', pending + newOps, jobs, c) && Tidy(Compress, m0, s', pending + newOps, jobs)
  {
    var jobs := CompressJobs(cfg, input, offset, zones);
    CompressWritesNot(cfg, input, offset, zones);
    CompressSeparate(cfg, input, offset', zones');
    CompressAddressable(cfg, input, offset', zones', s'.mem);
    CompressSourced(cfg, input, offset', zones', m0, s'.mem);
    SuffixOfRun(m0, s'.mem, jobs, newJobs);
    RunExtends(codec, Compress, m0, s, s', pending, newOps, jobs, newJobs, c);
    TidyExtends(Compress, m0, s, s', pending, newOps, jobs, newJobs);
  }

  lemma SuffixOfRun(m0: Memory, m: Memory, jobs: seq<Job>, newJobs: seq<Job>)
    requires AllAddressable(m, jobs + newJobs) && Sourced(m0, m, jobs + newJobs)
    ensures AllAddressable(m, newJobs) && Sourced(m0, m, newJobs)
  {
    assert forall i :: 0 <= i < |newJobs| ==> newJobs[i] == (jobs + newJobs)[|jobs| + i];
  }

  /** How far a compression begun in memory m0 and zone state st0 has got: the input is cut up to
      `offset`, and zones have been lent, in this order, one per segment. */
  ghost predicate Planned(cfg: Settings, input: Slice, m0: Memory, st0: Zones, st: Zones, offset: nat, zones: seq<Memzone>)
    requires cfg.seg > 0 && cfg.sgl > 0
  {
    && Within(m0, input) && NotFree(st0, input.region)
    && |zones| == CeilDiv(offset, cfg.seg) && Whole(cfg, input, offset, |zones|)
    && Loaned(st0, st, zones, input.region, m0)
  }

  lemma PlannedWithin(cfg: Settings, input: Slice, m0: Memory, st0: Zones, st: Zones, offset: nat, zones: seq<Memzone>)
    requires cfg.seg > 0 && cfg.sgl > 0 && Planned(cfg, input, m0, st0, st, offset, zones)
    ensures Within(m0, input) && offset <= input.len && |zones| == CeilDiv(offset, cfg.seg) <= CeilDiv(input.len, cfg.seg)
  {
    CeilDivMonotone(offset, input.len, cfg.seg);
  }

  /** A compression run: its jobs are those of the plan. */
  ghost predicate CompressRunning(codec: Codec, m0: Memory, s: Machine, pending: seq<OpId>, cfg: Settings, input: Slice,
                                  offset: nat, zones: seq<Memzone>, c: nat)
    requires cfg.seg > 0 && cfg.sgl > 0 && |zones| == CeilDiv(offset, cfg.seg)
  {
    var jobs := CompressJobs(cfg, input, offset, zones);
    Running(codec, Compress, m0, s, pending, jobs, c) && Tidy(Compress, m0, s, pending, jobs)
  }

  /** One successful round of assembly. */
  lemma CompressRound(codec: Codec, m0: Memory, s: Machine, s': Machine, pending: seq<OpId>, newOps: seq<OpId>, c: nat,
                      cfg: Settings, input: Slice, st0: Zones, st: Zones, st': Zones, offset: nat, zones: seq<Memzone>,
                      offset': nat, staged: nat, segs: seq<Slice>, more: seq<Memzone>, memzones: ZoneMap, size: nat)
    requires cfg.seg > 0 && cfg.sgl > 0 && Planned(cfg, input, m0, st0, st, offset, zones)
    requires CompressRunning(codec, m0, s, pending, cfg, input, offset, zones, c)
    requires CutFor(cfg, input, offset, offset', staged, segs, |newOps|) && |more| == |segs|
    requires CanTakeAll(st, more) && st' == TakeAll(st, more) && FreeOrNew(st, s.mem, more)
    requires Served(memzones, size, st') && Backed(memzones, s'.mem) && Extends(s.mem, s'.mem)
    requires Distinct(pending + newOps) && Kept(s.table, s'.table, pending)
    requires Known(s'.table, newOps) && LentTo(s'.table, newOps) == ZoneSlices(more)
    requires Loaded(s'.table, newOps, Zip(Deal(segs, cfg.sgl, |newOps|), Deal(ZoneSlices(more), cfg.sgl, |newOps|)), Compress)
    ensures Planned(cfg, input, m0, st0, st', offset', zones + more)
    ensures CompressRunning(codec, m0, s', pending + newOps, cfg, input, offset', zones + more, c)
    ensures Harvest(codec, Compress, m0, CompressJobs(cfg, input, offset', zones + more), c) ==
            Harvest(codec, Compress, m0, CompressJobs(cfg, input, offset, zones), c)
  {
    var jobs := CompressJobs(cfg, input, offset, zones);
    var newJobs := Zip(Deal(segs, cfg.sgl, |newOps|), Deal(ZoneSlices(more), cfg.sgl, |newOps|));
    NextCompressJobs(cfg, input, offset, offset', staged, segs, |newOps|, zones, more);
    RegionsRemain(codec, Compress, m0, s, pending, jobs, c);
    LoanGrows(st0, st, st', zones, more, input.region, m0, s.mem);
    LoanUsable(st0, st', zones + more, input.region, m0, memzones, size, s'.mem);
    NewLendsAll(s'.table, newOps, segs, more, cfg.sgl);
    CompressRunExtends(codec, m0, s, s', pending, newOps, c, cfg, input, offset, zones, newJobs, offset', zones + more);
    YieldKept(codec, Compress, m0, jobs, newJobs, c);
  }

  /** A run changes nothing but the zones of its plan. */
  lemma Confined(m0: Memory, s: Machine, pending: seq<OpId>, cfg: Settings, input: Slice, offset: nat, zones: seq<Memzone>)
    requires cfg.seg > 0 && cfg.sgl > 0 && |zones| == CeilDiv(offset, cfg.seg)
    requires Tidy(Compress, m0, s, pending, CompressJobs(cfg, input, offset, zones))
    ensures forall r :: r in m0 && (forall i :: 0 <= i < |zones| ==> zones[i].region != r) ==> r in s.mem && s.mem[r] == m0[r]
  {
    var jobs := CompressJobs(cfg, input, offset, zones);
    CompressJobsAre(cfg, input, offset, zones);
    forall r | r in m0 && (forall i :: 0 <= i < |zones| ==> zones[i].region != r)
      ensures r in s.mem && s.mem[r] == m0[r]
    {
      forall i, k | 0 <= i < |jobs| && 0 <= k < |jobs[i].dst|
        ensures jobs[i].dst[k].region != r
      {
        var q := ChunkFrom(ZoneSlices(zones), cfg.sgl, i, k);
      }
      assert !WritesTo(jobs, r);
    }
  }

  /** Of the memory that was there, only zones that were free in state st0 may have changed. */
  ghost predicate OnlyZonesChanged(m0: Memory, m: Memory, st0: Zones)
  {
    forall r :: r in m0 && NotFree(st0, r) ==> r in m && m[r] == m0[r]
  }

  lemma ConfinedToZones(m0: Memory, m: Memory, st0: Zones, zones: seq<Memzone>)
    requires FreeOrNew(st0, m0, zones)
    requires forall r :: r in m0 && (forall i :: 0 <= i < |zones| ==> zones[i].region != r) ==> r in m && m[r] == m0[r]
    ensures OnlyZonesChanged(m0, m, st0)
  {
    forall r | r in m0 && NotFree(st0, r)
      ensures r in m && m[r] == m0[r]
    {
      forall i | 0 <= i < |zones|
        ensures zones[i].region != r
      {
        if zones[i] in st0.free {
          var k :| 0 <= k < |st0.free| && st0.free[k] == zones[i];
        }
      }
    }
  }

  /** So a compression in progress has changed free zones only. */
  lemma PlanConfined(codec: Codec, m0: Memory, s: Machine, pending: seq<OpId>, cfg: Settings, input: Slice, st0: Zones, st: Zones,
                     offset: nat, zones: seq<Memzone>, c: nat)
    requires cfg.seg > 0 && cfg.sgl > 0 && Planned(cfg, input, m0, st0, st, offset, zones)
    requires CompressRunning(codec, m0, s, pending, cfg, input, offset, zones, c)
    ensures OnlyZonesChanged(m0, s.mem, st0)
  {
    Confined(m0, s, pending, cfg, input, offset, zones);
    ConfinedToZones(m0, s.mem, st0, zones);
  }

  lemma ChangeExtends(m0: Memory, m: Memory, m': Memory, st0: Zones)
    requires OnlyZonesChanged(m0, m, st0) && Extends(m, m')
    ensures OnlyZonesChanged(m0, m', st0)
  {
  }

  /** The input stays where it is and as it was. */
  lemma RegionStays(cfg: Settings, input: Slice, m0: Memory, s: Machine, pending: seq<OpId>, offset: nat, zones: seq<Memzone>)
    requires cfg.seg > 0 && cfg.sgl > 0 && |zones| == CeilDiv(offset, cfg.seg) && Within(m0, input)
    requires Tidy(Compress, m0, s, pending, CompressJobs(cfg, input, offset, zones))
    requires forall i :: 0 <= i < |zones| ==> zones[i].region != input.region
    ensures input.region in s.mem && s.mem[input.region] == m0[input.region]
  {
    CompressWritesNot(cfg, input, offset, zones);
  }

  lemma CompressionStarts(codec: Codec, s: Machine, cfg: Settings, input: Slice, st0: Zones)
    requires cfg.seg > 0 && cfg.sgl > 0 && Within(s.mem, input) && NotFree(st0, input.region) && st0.WellFormed()
    ensures Planned(cfg, input, s.mem, st0, st0, 0, [])
    ensures CompressRunning(codec, s.mem, s, [], cfg, input, 0, [], 0)
    ensures Harvest(codec, Compress, s.mem, CompressJobs(cfg, input, 0, []), 0) == []
  {
    CompressJobsAre(cfg, input, 0, []);
    RunStarts(codec, Compress, s);
    assert CompressJobs(cfg, input, 0, []) == [];
  }

  // ----- why assembling can fail -----

  /** When a take is refused, the call still needs more zones than it has got. */
  lemma StillWanted(cfg: Settings, input: Slice, offset: nat, offset': nat, staged: nat, segs: seq<Slice>, k: nat, numZones: nat, numMore: nat)
    requires cfg.seg > 0 && cfg.sgl > 0 && numZones == CeilDiv(offset, cfg.seg) && Whole(cfg, input, offset, numZones)
    requires CutFor(cfg, input, offset, offset', staged, segs, k) && numMore < |segs|
    ensures numZones + numMore < CeilDiv(input.len, cfg.seg)
  {
    NextWhole(cfg, input, offset, offset', staged, segs, k, numZones);
    CeilDivMonotone(offset', input.len, cfg.seg);
  }

  /** With the stack empty, a call that has taken fewer zones than it needs found too few free. */
  lemma StackUsedUp(st0: Zones, st: Zones, zones: seq<Memzone>, r: Region, m0: Memory)
    requires Loaned(st0, st, zones, r, m0) && st.free == []
    ensures |st0.free| <= |zones|
  {
    TakeAllShape(st0, zones);
  }
}
