/** What becomes of the zones a compression takes: which of them hold result buffers, which are
    still with unfinished operations, and what recycling and releasing do with them. */
module Reclaim {
  import opened Sequences
  import opened HostMemory
  import opened MemoryPool
  import opened ZoneStack
  import opened DeviceMemory
  import opened Operations
  import opened Ledger
  import opened Config
  import opened Assembly
  import opened Pipeline
  import opened Plans

  /** Each job writes to the zones of its group. */
  ghost predicate GroupedAs(jobs: seq<Job>, groups: seq<seq<Memzone>>)
  {
    |jobs| == |groups| && forall i :: 0 <= i < |jobs| ==> jobs[i].dst == ZoneSlices(groups[i])
  }

  /** The zones of the first c groups. */
  ghost function Passed(groups: seq<seq<Memzone>>, c: nat): seq<Memzone>
    requires c <= |groups|
  {
    if c == 0 then [] else Passed(groups, c - 1) + groups[c - 1]
  }

  /** The zones of the groups from number c on. */
  ghost function Rest(groups: seq<seq<Memzone>>, c: nat): seq<Memzone>
    requires c <= |groups|
    decreases |groups| - c
  {
    if c == |groups| then [] else groups[c] + Rest(groups, c + 1)
  }

  /** How many destination slices of a job its stream reaches. */
  ghost function Reached(codec: Codec, m0: Memory, job: Job): (k: nat)
    ensures k <= |job.dst|
  {
    PiecesReach(job.dst, |Stream(codec, Compress, m0, job)|);
    |Pieces(job.dst, |Stream(codec, Compress, m0, job)|)|
  }

  /** Of the first c groups, the zones that hold result bytes. */
  ghost function Used(codec: Codec, m0: Memory, jobs: seq<Job>, groups: seq<seq<Memzone>>, c: nat): seq<Memzone>
    requires GroupedAs(jobs, groups) && c <= |jobs|
  {
    if c == 0 then []
    else
      assert |jobs[c - 1].dst| == |groups[c - 1]|;
      Used(codec, m0, jobs, groups, c - 1) + groups[c - 1][..Reached(codec, m0, jobs[c - 1])]
  }

  /** Pieces are the first slices, shortened. */
  lemma {:induction false} PiecesReach(ss: seq<Slice>, n: nat)
    ensures |Pieces(ss, n)| <= |ss|
    ensures forall i :: 0 <= i < |Pieces(ss, n)| ==>
              && Pieces(ss, n)[i].region == ss[i].region && Pieces(ss, n)[i].start == ss[i].start
              && Pieces(ss, n)[i].len <= ss[i].len
    decreases |ss|
  {
    if n != 0 && ss != [] {
      PiecesReach(ss[1..], n - Min(n, ss[0].len));
    }
  }

  /** A stream reaches the last slice exactly when it does not fit the slices before it. */
  lemma {:induction false} ReachesLast(ss: seq<Slice>, n: nat)
    requires ss != []
    ensures |Pieces(ss, n)| == |ss| <==> n > SumLen(ss[..|ss| - 1])
    decreases |ss|
  {
    if |ss| > 1 {
      assert ss[1..][..|ss[1..]| - 1] == ss[..|ss| - 1][1..];
      ReachesLast(ss[1..], n - Min(n, ss[0].len));
    }
  }

  lemma {:induction false} PassedRest(groups: seq<seq<Memzone>>, c: nat)
    requires c <= |groups|
    ensures Passed(groups, c) + Rest(groups, c) == Passed(groups, |groups|)
    decreases |groups| - c
  {
    if c < |groups| {
      PassedRest(groups, c + 1);
      ConcatAssociative(Passed(groups, c), groups[c], Rest(groups, c + 1));
    } else {
      assert Passed(groups, c) + [] == Passed(groups, c);
    }
  }

  /** Distinct zones stay distinct in the part that is used, and each of them has been passed. */
  lemma {:induction false} UsedWithinPassed(codec: Codec, m0: Memory, jobs: seq<Job>, groups: seq<seq<Memzone>>, c: nat)
    requires GroupedAs(jobs, groups) && c <= |jobs| && Distinct(Passed(groups, c))
    ensures Distinct(Used(codec, m0, jobs, groups, c))
    ensures forall z :: z in Used(codec, m0, jobs, groups, c) ==> z in Passed(groups, c)
    decreases c
  {
    if c > 0 {
      var before, group := Passed(groups, c - 1), groups[c - 1];
      assert before == (before + group)[..|before|];
      UsedWithinPassed(codec, m0, jobs, groups, c - 1);
      assert |jobs[c - 1].dst| == |group|;
      DistinctParts(before, group, Used(codec, m0, jobs, groups, c - 1), Reached(codec, m0, jobs[c - 1]));
    }
  }

  lemma DistinctParts(a: seq<Memzone>, b: seq<Memzone>, u: seq<Memzone>, k: nat)
    requires Distinct(a + b) && Distinct(u) && k <= |b| && forall z :: z in u ==> z in a
    ensures Distinct(u + b[..k])
    ensures forall z :: z in u + b[..k] ==> z in a + b
  {
    forall i, j | 0 <= i < |u| && 0 <= j < k
      ensures u[i] != b[j]
    {
      assert u[i] in u && u[i] in a;
      var p :| 0 <= p < |a| && a[p] == u[i];
      assert (a + b)[p] == a[p] && (a + b)[|a| + j] == b[j];
    }
    assert forall j :: 0 <= j < |b| ==> b[j] == (a + b)[|a| + j];
  }

  /** Nothing is passed over exactly when every stream reaches the last zone of its operation. */
  lemma {:induction false} AllUsedIff(codec: Codec, m0: Memory, jobs: seq<Job>, groups: seq<seq<Memzone>>, c: nat)
    requires GroupedAs(jobs, groups) && c <= |jobs|
    ensures |Used(codec, m0, jobs, groups, c)| <= |Passed(groups, c)|
    ensures |Used(codec, m0, jobs, groups, c)| == |Passed(groups, c)| <==>
            forall i :: 0 <= i < c ==> Reached(codec, m0, jobs[i]) == |jobs[i].dst|
    ensures |Used(codec, m0, jobs, groups, c)| == |Passed(groups, c)| ==>
              Used(codec, m0, jobs, groups, c) == Passed(groups, c)
    decreases c
  {
    if c > 0 {
      AllUsedIff(codec, m0, jobs, groups, c - 1);
      assert |jobs[c - 1].dst| == |groups[c - 1]|;
      assert groups[c - 1][..|groups[c - 1]|] == groups[c - 1];
    }
  }

  /** The reported buffers start where the used zones start, one buffer a zone. */
  lemma {:induction false} HarvestStarts(codec: Codec, m0: Memory, jobs: seq<Job>, groups: seq<seq<Memzone>>, c: nat)
    requires GroupedAs(jobs, groups) && c <= |jobs|
    ensures var buffers, used := Harvest(codec, Compress, m0, jobs, c), Used(codec, m0, jobs, groups, c);
            && |buffers| == |used|
            && forall i :: 0 <= i < |buffers| ==>
                 buffers[i].region == used[i].region && buffers[i].start == 0 && buffers[i].len < 0x1_0000
    decreases c
  {
    if c > 0 {
      HarvestStarts(codec, m0, jobs, groups, c - 1);
      PiecesReach(jobs[c - 1].dst, |Stream(codec, Compress, m0, jobs[c - 1])|);
      assert jobs[c - 1].dst == ZoneSlices(groups[c - 1]);
    }
  }

  /** Unfinished operations hold exactly the zones of the groups from c on. */
  lemma {:induction false} LentRest(table: OpTable, pending: seq<OpId>, jobs: seq<Job>, groups: seq<seq<Memzone>>, c: nat)
    requires GroupedAs(jobs, groups) && c + |pending| == |jobs|
    requires Assigned(table, pending, jobs, c, Compress) && LendsAll(table, pending)
    ensures Known(table, pending) && LentTo(table, pending) == ZoneSlices(Rest(groups, c))
    decreases |pending|
  {
    if pending != [] {
      LentFirst(table, pending, jobs, c);
      LentRest(table, pending[1..], jobs, groups, c + 1);
      ZoneSlicesConcat(groups[c], Rest(groups, c + 1));
    }
  }

  lemma LentFirst(table: OpTable, pending: seq<OpId>, jobs: seq<Job>, c: nat)
    requires c + |pending| == |jobs| && pending != []
    requires Assigned(table, pending, jobs, c, Compress) && LendsAll(table, pending)
    ensures pending[0] in table && Lent(table[pending[0]].dst) == jobs[c].dst
    ensures Assigned(table, pending[1..], jobs, c + 1, Compress) && LendsAll(table, pending[1..])
  {
    assert Carries(table[pending[0]], jobs[c + 0], Compress);
    forall i | 0 <= i < |pending[1..]|
      ensures pending[1..][i] in table && Carries(table[pending[1..][i]], jobs[c + 1 + i], Compress)
    {
      assert pending[1..][i] == pending[i + 1] && jobs[c + (i + 1)] == jobs[c + 1 + i];
    }
  }

  /** How far a compression got: the input was assembled up to `offset` with the zones `zones`; a
      failed round took `more`; c operations reported. */
  datatype Progress = Progress(offset: nat, zones: seq<Memzone>, more: seq<Memzone>, c: nat)
  {
    ghost predicate Fits(cfg: Settings, input: Slice)
    {
      && cfg.seg > 0 && cfg.sgl > 0 && |zones| == CeilDiv(offset, cfg.seg)
      && GroupedAs(CompressJobs(cfg, input, offset, zones), Chunks(zones, cfg.sgl))
      && c <= |CompressJobs(cfg, input, offset, zones)|
    }

    /** The zones that hold the reported buffers. */
    ghost function Holding(codec: Codec, m0: Memory, cfg: Settings, input: Slice): seq<Memzone>
      requires Fits(cfg, input)
    {
      Used(codec, m0, CompressJobs(cfg, input, offset, zones), Chunks(zones, cfg.sgl), c)
    }
  }

  // ----- giving zones back -----

  /** Where a compression stands when it stops, successfully or not: the zones taken are those of the
      plan and, if assembling failed, some more; the first c operations have reported. */
  ghost predicate Stopped(codec: Codec, m0: Memory, st0: Zones, st: Zones, table: OpTable, pending: seq<OpId>,
                          buffers: seq<Slice>, jobs: seq<Job>, groups: seq<seq<Memzone>>, more: seq<Memzone>, c: nat, r: Region)
  {
    && GroupedAs(jobs, groups) && c <= |jobs| && buffers == Harvest(codec, Compress, m0, jobs, c)
    && Known(table, pending) && LentTo(table, pending) == ZoneSlices(Rest(groups, c) + more)
    && Loaned(st0, st, Passed(groups, |groups|) + more, r, m0)
  }

  /** Recycling the reported buffers in reverse and releasing the outstanding operations puts back
      every zone of the call exactly once, except those passed over by a short stream. */
  lemma Recovered(codec: Codec, m0: Memory, st0: Zones, st: Zones, table: OpTable, pending: seq<OpId>, buffers: seq<Slice>,
                  jobs: seq<Job>, groups: seq<seq<Memzone>>, more: seq<Memzone>, c: nat, r: Region,
                  memzones: ZoneMap, size: nat)
    requires Stopped(codec, m0, st0, st, table, pending, buffers, jobs, groups, more, c, r)
    requires Served(memzones, size, st)
    ensures var used, rest := Used(codec, m0, jobs, groups, c), Rest(groups, c) + more;
            PutSlices(PutSlices(st, memzones, Reverse(buffers)), memzones, LentTo(table, pending)) ==
            Zones(st.free + Reverse(used) + rest, st.occupied - Elements(used) - Elements(rest))
  {
    var used, rest := Used(codec, m0, jobs, groups, c), Rest(groups, c) + more;
    Accounted(codec, m0, st0, st, jobs, groups, more, c, r, memzones, size);
    HarvestStarts(codec, m0, jobs, groups, c);
    assert forall i :: 0 <= i < |used| ==> used[i] in used;
    PutReversedBuffers(st, memzones, buffers, used);
    PutRest(PutAll(st, Reverse(used)), memzones, rest);
    PutAllDistinct(st, used, rest);
  }

  /** Used zones and those of unfinished operations are different zones of the call, all on loan. */
  lemma Accounted(codec: Codec, m0: Memory, st0: Zones, st: Zones, jobs: seq<Job>, groups: seq<seq<Memzone>>, more: seq<Memzone>,
                  c: nat, r: Region, memzones: ZoneMap, size: nat)
    requires GroupedAs(jobs, groups) && c <= |jobs| && Loaned(st0, st, Passed(groups, |groups|) + more, r, m0)
    requires Served(memzones, size, st)
    ensures var used, rest := Used(codec, m0, jobs, groups, c), Rest(groups, c) + more;
            && Distinct(used) && Distinct(rest) && (forall z :: z in used ==> z !in rest)
            && Passed(groups, c) + rest == Passed(groups, |groups|) + more
            && forall z :: z in used || z in rest ==> z in st.occupied && z.Address() in memzones && memzones[z.Address()] == z
  {
    var used, rest := Used(codec, m0, jobs, groups, c), Rest(groups, c) + more;
    var zones := Passed(groups, |groups|) + more;
    PassedRest(groups, c);
    ConcatAssociative(Passed(groups, c), Rest(groups, c), more);
    TakeAllShape(st0, zones);
    SplitDistinct(Passed(groups, c), rest);
    UsedWithinPassed(codec, m0, jobs, groups, c);
    BothDistinct(used, Passed(groups, c), rest);
    AllOccupied(st0, st, zones, used, rest, memzones, size);
  }

  lemma PutRest(st: Zones, memzones: ZoneMap, rest: seq<Memzone>)
    requires forall z :: z in rest ==> z.Address() in memzones && memzones[z.Address()] == z
    ensures PutSlices(st, memzones, ZoneSlices(rest)) == PutAll(st, rest)
  {
    PutSlicesIsPutAll(st, memzones, ZoneSlices(rest), rest);
  }

  lemma SplitDistinct(a: seq<Memzone>, b: seq<Memzone>)
    requires Distinct(a + b)
    ensures Distinct(a) && Distinct(b) && forall i, j :: 0 <= i < |a| && 0 <= j < |b| ==> a[i] != b[j]
  {
    assert forall i :: 0 <= i < |a| ==> a[i] == (a + b)[i];
    assert forall j :: 0 <= j < |b| ==> b[j] == (a + b)[|a| + j];
  }

  lemma BothDistinct(used: seq<Memzone>, passed: seq<Memzone>, rest: seq<Memzone>)
    requires forall z :: z in used ==> z in passed
    requires forall i, j :: 0 <= i < |passed| && 0 <= j < |rest| ==> passed[i] != rest[j]
    ensures forall z :: z in used ==> z !in rest
  {
    forall z | z in used
      ensures z !in rest
    {
      assert z in passed;
    }
  }

  lemma AllOccupied(st0: Zones, st: Zones, zones: seq<Memzone>, used: seq<Memzone>, rest: seq<Memzone>, memzones: ZoneMap, size: nat)
    requires HandedOut(st0, zones, st) && Served(memzones, size, st)
    requires forall z :: z in used || z in rest ==> z in zones
    ensures forall z :: z in used || z in rest ==> z in st.occupied && z.Address() in memzones && memzones[z.Address()] == z
  {
    forall z | z in used || z in rest
      ensures z in st.occupied && z.Address() in memzones && memzones[z.Address()] == z
    {
      assert z in Elements(zones);
      assert st.Has(z);
    }
  }

  lemma {:induction false} ReverseElements(s: seq<Memzone>)
    ensures forall z :: z in Reverse(s) <==> z in s
  {
    if s != [] {
      ReverseElements(s[1..]);
      assert s == [s[0]] + s[1..];
    }
  }

  lemma ReverseDistinct(s: seq<Memzone>)
    requires Distinct(s)
    ensures Distinct(Reverse(s))
  {
    forall i, j | 0 <= i < j < |s|
      ensures Reverse(s)[i] != Reverse(s)[j]
    {
      ReverseAt(s, i);
      ReverseAt(s, j);
    }
  }

  /** Recycle sees the buffers from the last to the first. */
  lemma PutReversedBuffers(st: Zones, memzones: ZoneMap, buffers: seq<Slice>, used: seq<Memzone>)
    requires |buffers| == |used|
    requires forall i :: 0 <= i < |buffers| ==>
               && buffers[i].region == used[i].region && buffers[i].start == 0
               && used[i].Address() in memzones && memzones[used[i].Address()] == used[i]
    ensures PutSlices(st, memzones, Reverse(buffers)) == PutAll(st, Reverse(used))
  {
    forall i | 0 <= i < |buffers|
      ensures Reverse(buffers)[i].region == Reverse(used)[i].region && Reverse(buffers)[i].start == 0
      ensures Reverse(used)[i].Address() in memzones && memzones[Reverse(used)[i].Address()] == Reverse(used)[i]
    {
      ReverseAt(buffers, i);
      ReverseAt(used, i);
    }
    PutSlicesIsPutAll(st, memzones, Reverse(buffers), Reverse(used));
  }

  lemma PutAllDistinct(st: Zones, used: seq<Memzone>, rest: seq<Memzone>)
    requires Distinct(used) && Distinct(rest) && forall z :: z in used ==> z !in rest
    requires forall z :: z in used || z in rest ==> z in st.occupied
    ensures PutAll(PutAll(st, Reverse(used)), rest) ==
            Zones(st.free + Reverse(used) + rest, st.occupied - Elements(used) - Elements(rest))
  {
    ReverseDistinct(used);
    ReverseElements(used);
    assert Elements(Reverse(used)) == Elements(used);
    PutAllExact(st, Reverse(used));
    PutAllExact(PutAll(st, Reverse(used)), rest);
  }

  /** Still on loan after that are, besides what was on loan before the call, exactly the zones
      passed over by completed operations. */
  lemma LeftOnLoan(codec: Codec, m0: Memory, st0: Zones, st: Zones, jobs: seq<Job>, groups: seq<seq<Memzone>>, more: seq<Memzone>,
                   c: nat, r: Region, memzones: ZoneMap, size: nat)
    requires GroupedAs(jobs, groups) && c <= |jobs| && Loaned(st0, st, Passed(groups, |groups|) + more, r, m0)
    requires Served(memzones, size, st)
    ensures var used, rest := Used(codec, m0, jobs, groups, c), Rest(groups, c) + more;
            st.occupied - Elements(used) - Elements(rest) ==
            st0.occupied + (Elements(Passed(groups, c)) - Elements(used))
  {
    hide TakeAll;
    var used, rest, passed := Used(codec, m0, jobs, groups, c), Rest(groups, c) + more, Passed(groups, c);
    var zones := Passed(groups, |groups|) + more;
    Accounted(codec, m0, st0, st, jobs, groups, more, c, r, memzones, size);
    TakeAllShape(st0, zones);
    assert zones == passed + rest;
    assert Elements(zones) == Elements(passed) + Elements(rest);
    SplitDistinct(passed, rest);
    assert forall z :: z in passed ==> z !in rest && z !in st0.occupied by {
      forall z | z in passed
        ensures z !in rest && z !in st0.occupied
      {
        assert z in zones;
      }
    }
    UsedWithinPassed(codec, m0, jobs, groups, c);
    assert forall z :: z in rest ==> z in zones && z !in st0.occupied;
    assert forall z :: z in used ==> z in passed;
  }

  // ----- the groups of a plan -----

  lemma {:induction false} ChunksOfZones(zones: seq<Memzone>, n: nat)
    requires n > 0
    ensures |Chunks(ZoneSlices(zones), n)| == |Chunks(zones, n)|
    ensures forall i :: 0 <= i < |Chunks(zones, n)| ==> Chunks(ZoneSlices(zones), n)[i] == ZoneSlices(Chunks(zones, n)[i])
    decreases |zones|
  {
    if |zones| > n {
      assert ZoneSlices(zones)[n..] == ZoneSlices(zones[n..]);
      assert ZoneSlices(zones)[..n] == ZoneSlices(zones[..n]);
      ChunksOfZones(zones[n..], n);
    }
  }

  lemma {:induction false} PassedFrom(groups: seq<seq<Memzone>>, c: nat)
    requires groups != [] && 0 < c <= |groups|
    ensures Passed(groups, c) == groups[0] + Passed(groups[1..], c - 1)
    decreases c
  {
    if c == 1 {
      assert Passed(groups, 0) + groups[0] == groups[0] + Passed(groups[1..], 0);
    } else {
      PassedFrom(groups, c - 1);
      ConcatAssociative(groups[0], Passed(groups[1..], c - 2), groups[c - 1]);
    }
  }

  lemma {:induction false} PassedFlatten(groups: seq<seq<Memzone>>)
    ensures Passed(groups, |groups|) == Flatten(groups)
  {
    if groups != [] {
      PassedFrom(groups, |groups|);
      PassedFlatten(groups[1..]);
    }
  }

  /** The groups of a plan are the zones taken for it, cut into operations. */
  lemma PlanGroups(cfg: Settings, input: Slice, bytes: nat, zones: seq<Memzone>)
    requires cfg.seg > 0 && cfg.sgl > 0 && |zones| == CeilDiv(bytes, cfg.seg)
    ensures var groups := Chunks(zones, cfg.sgl);
            GroupedAs(CompressJobs(cfg, input, bytes, zones), groups) && Passed(groups, |groups|) == zones
  {
    CompressJobsAre(cfg, input, bytes, zones);
    ChunksOfZones(zones, cfg.sgl);
    ChunksShape(zones, cfg.sgl);
    PassedFlatten(Chunks(zones, cfg.sgl));
  }

  /** With one segment an operation no zone is ever passed over. */
  lemma SingleSegmentsReach(codec: Codec, m0: Memory, cfg: Settings, input: Slice, bytes: nat, zones: seq<Memzone>, c: nat)
    requires cfg.seg > 0 && cfg.sgl == 1 && |zones| == CeilDiv(bytes, cfg.seg) && codec.Lawful()
    requires Within(m0, input) && bytes <= input.len
    requires c <= |CompressJobs(cfg, input, bytes, zones)|
    ensures var jobs, groups := CompressJobs(cfg, input, bytes, zones), Chunks(zones, cfg.sgl);
            c <= |zones| && GroupedAs(jobs, groups) && Used(codec, m0, jobs, groups, c) == Passed(groups, c) == zones[..c]
  {
    var jobs, groups := CompressJobs(cfg, input, bytes, zones), Chunks(zones, 1);
    PlanGroups(cfg, input, bytes, zones);
    ChunksOfOne(zones);
    CompressJobsAre(cfg, input, bytes, zones);
    GroupedSegments(m0, input.region, input.start, bytes, cfg.seg, cfg.sgl, cfg.seg * cfg.sgl);
    forall i | 0 <= i < c
      ensures Reached(codec, m0, jobs[i]) == |jobs[i].dst|
    {
      assert jobs[i].dst == ZoneSlices([zones[i]]);
      assert AllWithin(m0, jobs[i].src);
      var data := Gather(m0, jobs[i].src);
      assert data in codec.deflate && |codec.deflate[data]| >= 1;
      ReachesLast(jobs[i].dst, |Stream(codec, Compress, m0, jobs[i])|);
    }
    AllUsedIff(codec, m0, jobs, groups, c);
    PassedOnes(zones, c);
  }

  lemma {:induction false} PassedOnes(zones: seq<Memzone>, c: nat)
    requires c <= |zones| == |Chunks(zones, 1)|
    requires forall i :: 0 <= i < |zones| ==> Chunks(zones, 1)[i] == [zones[i]]
    ensures Passed(Chunks(zones, 1), c) == zones[..c]
    decreases c
  {
    if c > 0 {
      PassedOnes(zones, c - 1);
      assert zones[..c] == zones[..c - 1] + [zones[c - 1]];
    }
  }

  // ----- where a compression can stop -----

  /** A compression stopped while running. */
  lemma RunStops(codec: Codec, m0: Memory, s: Machine, pending: seq<OpId>, cfg: Settings, input: Slice, st0: Zones, st: Zones,
                 offset: nat, zones: seq<Memzone>, c: nat, buffers: seq<Slice>)
    requires cfg.seg > 0 && cfg.sgl > 0 && Planned(cfg, input, m0, st0, st, offset, zones)
    requires CompressRunning(codec, m0, s, pending, cfg, input, offset, zones, c)
    requires buffers == Harvest(codec, Compress, m0, CompressJobs(cfg, input, offset, zones), c)
    ensures Stopped(codec, m0, st0, st, s.table, pending, buffers, CompressJobs(cfg, input, offset, zones),
                    Chunks(zones, cfg.sgl), [], c, input.region)
  {
    var groups := Chunks(zones, cfg.sgl);
    PlanGroups(cfg, input, offset, zones);
    LentRest(s.table, pending, CompressJobs(cfg, input, offset, zones), groups, c);
    AppendNothing(Rest(groups, c));
    AppendNothing(zones);
  }

  lemma AppendNothing<T>(s: seq<T>)
    ensures s + [] == s
  {
  }

  /** A compression stopped by a failed round of assembly, which may have attached some zones. */
  lemma RoundFails(codec: Codec, m0: Memory, s: Machine, table': OpTable, pending: seq<OpId>, newOps: seq<OpId>, cfg: Settings,
                   input: Slice, st0: Zones, st: Zones, st': Zones, offset: nat, zones: seq<Memzone>, more: seq<Memzone>,
                   c: nat, buffers: seq<Slice>)
    requires cfg.seg > 0 && cfg.sgl > 0 && Planned(cfg, input, m0, st0, st, offset, zones)
    requires CompressRunning(codec, m0, s, pending, cfg, input, offset, zones, c)
    requires buffers == Harvest(codec, Compress, m0, CompressJobs(cfg, input, offset, zones), c)
    requires CanTakeAll(st, more) && st' == TakeAll(st, more) && FreeOrNew(st, s.mem, more)
    requires Kept(s.table, table', pending) && Known(table', newOps) && LentTo(table', newOps) == ZoneSlices(more)
    ensures Stopped(codec, m0, st0, st', table', pending + newOps, buffers, CompressJobs(cfg, input, offset, zones),
                    Chunks(zones, cfg.sgl), more, c, input.region)
  {
    var groups := Chunks(zones, cfg.sgl);
    PlanGroups(cfg, input, offset, zones);
    RegionsRemain(codec, Compress, m0, s, pending, CompressJobs(cfg, input, offset, zones), c);
    LoanGrows(st0, st, st', zones, more, input.region, m0, s.mem);
    LentRest(s.table, pending, CompressJobs(cfg, input, offset, zones), groups, c);
    LentToSame(s.table, table', pending);
    LentToAppend(table', pending, newOps);
    ZoneSlicesConcat(Rest(groups, c), more);
  }

  /** The zones of a failed call after everything has been given back: first the used ones, last to
      first, then those of unfinished operations; only zones passed over are still on loan. No more
      zones were taken than the input has segments. */
  ghost predicate GaveBack(codec: Codec, m0: Memory, cfg: Settings, input: Slice, offset: nat, zones: seq<Memzone>,
                           more: seq<Memzone>, c: nat, st0: Zones, st': Zones)
  {
    && cfg.seg > 0 && cfg.sgl > 0 && offset <= input.len
    && |zones| == CeilDiv(offset, cfg.seg) && |zones| + |more| <= CeilDiv(input.len, cfg.seg)
    && var jobs, groups := CompressJobs(cfg, input, offset, zones), Chunks(zones, cfg.sgl);
       && GroupedAs(jobs, groups) && c <= |jobs| && CanTakeAll(st0, zones + more)
       && var used := Used(codec, m0, jobs, groups, c);
          st' == Zones(TakeAll(st0, zones + more).free + Reverse(used) + (Rest(groups, c) + more),
                       st0.occupied + (Elements(Passed(groups, c)) - Elements(used)))
  }

  lemma ReleasedAll(codec: Codec, m0: Memory, cfg: Settings, input: Slice, offset: nat, zones: seq<Memzone>, more: seq<Memzone>,
                    c: nat, st0: Zones, st: Zones, table: OpTable, pending: seq<OpId>, buffers: seq<Slice>, memzones: ZoneMap, size: nat)
    requires cfg.seg > 0 && cfg.sgl > 0 && offset <= input.len
    requires |zones| == CeilDiv(offset, cfg.seg) && |zones| + |more| <= CeilDiv(input.len, cfg.seg)
    requires Stopped(codec, m0, st0, st, table, pending, buffers, CompressJobs(cfg, input, offset, zones),
                     Chunks(zones, cfg.sgl), more, c, input.region)
    requires Served(memzones, size, st)
    ensures GaveBack(codec, m0, cfg, input, offset, zones, more, c, st0,
                     PutSlices(PutSlices(st, memzones, Reverse(buffers)), memzones, LentTo(table, pending)))
  {
    var jobs, groups := CompressJobs(cfg, input, offset, zones), Chunks(zones, cfg.sgl);
    PlanGroups(cfg, input, offset, zones);
    Recovered(codec, m0, st0, st, table, pending, buffers, jobs, groups, more, c, input.region, memzones, size);
    LeftOnLoan(codec, m0, st0, st, jobs, groups, more, c, input.region, memzones, size);
  }

  /** Every zone of `taken` is back on the stack exactly once, the first c of them last to first and then
      the others; nothing else has changed. */
  ghost predicate AllPutBack(taken: seq<Memzone>, c: nat, st0: Zones, st': Zones)
  {
    && c <= |taken| && CanTakeAll(st0, taken)
    && st' == Zones(TakeAll(st0, taken).free + Reverse(taken[..c]) + taken[c..], st0.occupied)
  }

  /** Then the stack holds what it held before and, once each, the zones the call obtained. */
  lemma PutBackHolds(taken: seq<Memzone>, c: nat, st0: Zones, st': Zones)
    requires st0.WellFormed() && AllPutBack(taken, c, st0, st')
    ensures multiset(st'.free) == multiset(st0.free) + multiset(Hot(st0, taken))
  {
    hide HandedOut;
    TakenContents(st0, taken);
    ReverseContents(taken[..c]);
    assert taken == taken[..c] + taken[c..];
  }

  /** What a run of takes hands out comes from the stack or is obtained anew. */
  lemma {:induction false} TakenContents(st: Zones, taken: seq<Memzone>)
    requires st.WellFormed() && CanTakeAll(st, taken)
    ensures multiset(TakeAll(st, taken).free) + multiset(taken) == multiset(st.free) + multiset(Hot(st, taken))
  {
    if taken != [] {
      var before, z := taken[..|taken| - 1], taken[|taken| - 1];
      TakenContents(st, before);
      StackLeft(st, before);
      TakenOne(st, before, z, TakeAll(st, before));
      assert taken == before + [z];
    }
  }

  lemma StackLeft(st: Zones, taken: seq<Memzone>)
    requires st.WellFormed() && CanTakeAll(st, taken)
    ensures |TakeAll(st, taken).free| == |st.free| - FromStack(st, |taken|)
  {
    TakeAllShape(st, taken);
  }

  lemma TakenOne(st: Zones, before: seq<Memzone>, z: Memzone, st1: Zones)
    requires |st1.free| == |st.free| - FromStack(st, |before|) && CanTake(st1, z)
    requires multiset(st1.free) + multiset(before) == multiset(st.free) + multiset(Hot(st, before))
    ensures multiset(Take(st1, z).free) + multiset(before + [z]) == multiset(st.free) + multiset(Hot(st, before + [z]))
  {
    assert multiset(before + [z]) == multiset(before) + multiset{z};
    if st1.free == [] {
      assert Hot(st, before + [z]) == Hot(st, before) + [z];
      assert multiset(Hot(st, before + [z])) == multiset(Hot(st, before)) + multiset{z};
      assert multiset(st1.free) == multiset{};
      assert Take(st1, z).free == [];
      assert multiset(before) == multiset(st.free) + multiset(Hot(st, before));
      assert multiset(before + [z]) == multiset(st.free) + multiset(Hot(st, before + [z]));
    } else {
      assert st1.free == st1.free[..|st1.free| - 1] + [z];
      assert multiset(st1.free) == multiset(Take(st1, z).free) + multiset{z};
      assert Hot(st, before + [z]) == [] == Hot(st, before);
      assert multiset(Take(st1, z).free) + multiset(before + [z]) == multiset(st1.free) + multiset(before);
    }
  }

  lemma {:induction false} ReverseContents(s: seq<Memzone>)
    ensures multiset(Reverse(s)) == multiset(s)
  {
    if s != [] {
      ReverseContents(s[1..]);
      assert s == [s[0]] + s[1..];
    }
  }

  /** With one segment an operation, every zone a failed call took is back on the stack, exactly once:
      the reported ones, last to first, and then the others. */
  lemma NoneLost(codec: Codec, m0: Memory, cfg: Settings, input: Slice, offset: nat, zones: seq<Memzone>, more: seq<Memzone>,
                 c: nat, st0: Zones, st': Zones)
    requires GaveBack(codec, m0, cfg, input, offset, zones, more, c, st0, st')
    requires cfg.sgl == 1 && codec.Lawful() && Within(m0, input)
    ensures AllPutBack(zones + more, c, st0, st')
  {
    var jobs, groups := CompressJobs(cfg, input, offset, zones), Chunks(zones, cfg.sgl);
    SingleSegmentsReach(codec, m0, cfg, input, offset, zones, c);
    PlanGroups(cfg, input, offset, zones);
    PassedRest(groups, c);
    SplitTaken(zones, more, c, Rest(groups, c));
    NothingPassedOver(Passed(groups, c), st0.occupied);
  }

  lemma SplitTaken(zones: seq<Memzone>, more: seq<Memzone>, c: nat, rest: seq<Memzone>)
    requires c <= |zones| && zones[..c] + rest == zones
    ensures (zones + more)[..c] == zones[..c] && (zones + more)[c..] == rest + more
  {
    assert zones[c..] == rest;
  }

  lemma NothingPassedOver(used: seq<Memzone>, occupied: set<Memzone>)
    ensures occupied + (Elements(used) - Elements(used)) == occupied
  {
  }
}
