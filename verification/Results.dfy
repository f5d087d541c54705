/** What a finished compression has achieved, in terms of the bytes of its input. */
module Results {
  import opened Sequences
  import opened HostMemory
  import opened MemoryPool
  import opened ZoneStack
  import opened DeviceMemory
  import opened Operations
  import opened Config
  import opened Assembly
  import opened Pipeline
  import opened Plans
  import opened Reclaim

  /** Every piece deflated on its own. */
  ghost function DeflateAll(codec: Codec, pieces: seq<seq<byte>>): (r: seq<seq<byte>>)
    ensures |r| == |pieces|
  {
    seq(|pieces|, i requires 0 <= i < |pieces| => if pieces[i] in codec.deflate then codec.deflate[pieces[i]] else [])
  }

  /** The source of job i is piece i of the input. */
  lemma JobReads(cfg: Settings, input: Slice, zones: seq<Memzone>, m0: Memory, i: nat)
    requires cfg.seg > 0 && cfg.sgl > 0 && |zones| == CeilDiv(input.len, cfg.seg) && Within(m0, input)
    requires i < |CompressJobs(cfg, input, input.len, zones)|
    ensures cfg.Span() > 0
    ensures var jobs, pieces := CompressJobs(cfg, input, input.len, zones), Chunks(Read(m0, input), cfg.Span());
            |jobs| == |pieces| && AllWithin(m0, jobs[i].src) && Gather(m0, jobs[i].src) == pieces[i]
  {
    CompressJobsAre(cfg, input, input.len, zones);
    SpanIsProduct(cfg);
    GroupedSegments(m0, input.region, input.start, input.len, cfg.seg, cfg.sgl, cfg.Span());
  }

  lemma PiecesCount(cfg: Settings, input: Slice, zones: seq<Memzone>, m0: Memory)
    requires cfg.seg > 0 && cfg.sgl > 0 && |zones| == CeilDiv(input.len, cfg.seg) && Within(m0, input)
    ensures cfg.Span() > 0
    ensures |CompressJobs(cfg, input, input.len, zones)| == |Chunks(Read(m0, input), cfg.Span())|
  {
    CompressJobsAre(cfg, input, input.len, zones);
    SpanIsProduct(cfg);
    GroupedSegments(m0, input.region, input.start, input.len, cfg.seg, cfg.sgl, cfg.Span());
  }

  /** The streams of the jobs are the deflated pieces. */
  lemma {:induction false} StreamsAreDeflated(codec: Codec, cfg: Settings, input: Slice, zones: seq<Memzone>, m0: Memory, g: nat, c: nat)
    requires cfg.seg > 0 && cfg.sgl > 0 && |zones| == CeilDiv(input.len, cfg.seg) && Within(m0, input)
    requires g == cfg.Span() > 0 && |Chunks(Read(m0, input), g)| == |CompressJobs(cfg, input, input.len, zones)|
    requires c <= |CompressJobs(cfg, input, input.len, zones)|
    ensures Streams(codec, Compress, m0, CompressJobs(cfg, input, input.len, zones), c) ==
            Flatten(DeflateAll(codec, Chunks(Read(m0, input), g)[..c]))
    decreases c
  {
    var pieces := Chunks(Read(m0, input), g);
    if c > 0 {
      StreamsAreDeflated(codec, cfg, input, zones, m0, g, c - 1);
      JobReads(cfg, input, zones, m0, c - 1);
      DeflateNext(codec, pieces, c - 1);
    }
  }

  lemma DeflateNext(codec: Codec, pieces: seq<seq<byte>>, c: nat)
    requires c < |pieces|
    ensures Flatten(DeflateAll(codec, pieces[..c + 1])) ==
            Flatten(DeflateAll(codec, pieces[..c])) + (if pieces[c] in codec.deflate then codec.deflate[pieces[c]] else [])
  {
    var next := if pieces[c] in codec.deflate then codec.deflate[pieces[c]] else [];
    assert DeflateAll(codec, pieces[..c + 1]) == DeflateAll(codec, pieces[..c]) + [next];
    FlattenSnoc(DeflateAll(codec, pieces[..c]), next);
  }

  /** What a caller of Compress gets: the buffers hold, end to end, the deflated pieces of the input;
      each starts at the base of a zone of its own; the zones were free or lie in regions that did not
      exist before; and nothing outside the zones taken has changed. */
  ghost predicate Compressed(codec: Codec, m0: Memory, m: Memory, st0: Zones, st: Zones, cfg: Settings, input: Slice,
                             zones: seq<Memzone>, used: seq<Memzone>, buffers: seq<Slice>)
    requires cfg.Span() > 0 && Within(m0, input) && cfg.seg > 0
  {
    && |zones| == CeilDiv(input.len, cfg.seg) && CanTakeAll(st0, zones) && st == TakeAll(st0, zones) && FreeOrNew(st0, m0, zones)
    && input.region in m && m[input.region] == m0[input.region] && AllWithin(m, buffers)
    && Gather(m, buffers) == Flatten(DeflateAll(codec, Chunks(Read(m0, input), cfg.Span())))
    && |buffers| == |used| && Distinct(used) && (forall z :: z in used ==> z in zones)
    && (forall i :: 0 <= i < |buffers| ==>
          buffers[i].region == used[i].region && buffers[i].start == 0 && buffers[i].len < 0x1_0000)
    && (forall r :: r in m0 && (forall i :: 0 <= i < |zones| ==> zones[i].region != r) ==> r in m && m[r] == m0[r])
  }

  lemma CompressionDone(codec: Codec, m0: Memory, s: Machine, st0: Zones, st: Zones, cfg: Settings, input: Slice,
                        zones: seq<Memzone>, buffers: seq<Slice>, c: nat)
    requires cfg.seg > 0 && cfg.sgl > 0 && Planned(cfg, input, m0, st0, st, input.len, zones)
    requires CompressRunning(codec, m0, s, [], cfg, input, input.len, zones, c)
    requires buffers == Harvest(codec, Compress, m0, CompressJobs(cfg, input, input.len, zones), c)
    ensures var jobs, groups := CompressJobs(cfg, input, input.len, zones), Chunks(zones, cfg.sgl);
            && c == |jobs| && cfg.Span() > 0 && GroupedAs(jobs, groups)
            && Compressed(codec, m0, s.mem, st0, st, cfg, input, zones, Used(codec, m0, jobs, groups, c), buffers)
  {
    var jobs, groups := CompressJobs(cfg, input, input.len, zones), Chunks(zones, cfg.sgl);
    PiecesCount(cfg, input, zones, m0);
    ResultBytes(codec, m0, s, cfg, input, zones, c);
    UsedZones(codec, m0, st0, st, cfg, input, zones, c);
    Confined(m0, s, [], cfg, input, input.len, zones);
    RegionStays(cfg, input, m0, s, [], input.len, zones);
  }

  /** The reported buffers hold the deflated pieces of the input. */
  lemma ResultBytes(codec: Codec, m0: Memory, s: Machine, cfg: Settings, input: Slice, zones: seq<Memzone>, c: nat)
    requires cfg.seg > 0 && cfg.sgl > 0 && |zones| == CeilDiv(input.len, cfg.seg) && Within(m0, input) && cfg.Span() > 0
    requires CompressRunning(codec, m0, s, [], cfg, input, input.len, zones, c)
    ensures c == |CompressJobs(cfg, input, input.len, zones)|
    ensures Reads(s.mem, Harvest(codec, Compress, m0, CompressJobs(cfg, input, input.len, zones), c),
                  Flatten(DeflateAll(codec, Chunks(Read(m0, input), cfg.Span()))))
  {
    var pieces := Chunks(Read(m0, input), cfg.Span());
    PiecesCount(cfg, input, zones, m0);
    HarvestReads(codec, Compress, m0, s.mem, CompressJobs(cfg, input, input.len, zones), c);
    StreamsAreDeflated(codec, cfg, input, zones, m0, cfg.Span(), c);
    assert pieces[..c] == pieces;
  }

  lemma UsedZones(codec: Codec, m0: Memory, st0: Zones, st: Zones, cfg: Settings, input: Slice, zones: seq<Memzone>, c: nat)
    requires cfg.seg > 0 && cfg.sgl > 0 && Planned(cfg, input, m0, st0, st, input.len, zones)
    requires c == |CompressJobs(cfg, input, input.len, zones)|
    ensures var jobs, groups := CompressJobs(cfg, input, input.len, zones), Chunks(zones, cfg.sgl);
            && GroupedAs(jobs, groups)
            && var used, buffers := Used(codec, m0, jobs, groups, c), Harvest(codec, Compress, m0, jobs, c);
               && Distinct(used) && (forall z :: z in used ==> z in zones) && |buffers| == |used|
               && forall i :: 0 <= i < |buffers| ==>
                    buffers[i].region == used[i].region && buffers[i].start == 0 && buffers[i].len < 0x1_0000
  {
    var jobs, groups := CompressJobs(cfg, input, input.len, zones), Chunks(zones, cfg.sgl);
    PlanGroups(cfg, input, input.len, zones);
    TakeAllShape(st0, zones);
    UsedWithinPassed(codec, m0, jobs, groups, c);
    HarvestStarts(codec, m0, jobs, groups, c);
  }

  /** No result buffer lies in a region the host had and the device did not count as free, such as an
      output allocated beforehand. */
  lemma ResultElsewhere(codec: Codec, m0: Memory, m: Memory, st0: Zones, st: Zones, cfg: Settings, input: Slice,
                        zones: seq<Memzone>, used: seq<Memzone>, buffers: seq<Slice>, r: Region)
    requires cfg.Span() > 0 && Within(m0, input) && cfg.seg > 0 && r in m0 && NotFree(st0, r)
    requires Compressed(codec, m0, m, st0, st, cfg, input, zones, used, buffers)
    ensures forall i :: 0 <= i < |buffers| ==> buffers[i].region != r
  {
    forall i | 0 <= i < |buffers|
      ensures buffers[i].region != r
    {
      assert used[i] in zones;
      var j :| 0 <= j < |zones| && zones[j] == used[i];
      if zones[j] in st0.free {
        var k :| 0 <= k < |st0.free| && st0.free[k] == zones[j];
      }
    }
  }

  /** Recycling a result puts the zones it occupies, last to first; all of them are on loan. */
  lemma ResultPuts(codec: Codec, m0: Memory, m: Memory, st0: Zones, st: Zones, cfg: Settings, input: Slice,
                   zones: seq<Memzone>, used: seq<Memzone>, buffers: seq<Slice>, memzones: ZoneMap, size: nat)
    requires cfg.Span() > 0 && Within(m0, input) && cfg.seg > 0 && st0.WellFormed()
    requires Compressed(codec, m0, m, st0, st, cfg, input, zones, used, buffers) && Served(memzones, size, st)
    ensures PutSlices(st, memzones, Reverse(buffers)) == PutAll(st, Reverse(used))
    ensures forall z :: z in used ==> z in st.occupied
  {
    TakeAllShape(st0, zones);
    forall z | z in used
      ensures z in st.occupied && z.Address() in memzones && memzones[z.Address()] == z
    {
      assert z in Elements(zones);
      assert st.Has(z);
    }
    assert forall i :: 0 <= i < |used| ==> used[i] in used;
    PutReversedBuffers(st, memzones, buffers, used);
  }

  // ----- one segment an operation -----

  lemma {:induction false} HarvestSingles(codec: Codec, m0: Memory, jobs: seq<Job>, c: nat)
    requires c <= |jobs|
    requires forall i :: 0 <= i < c ==> |Pieces(jobs[i].dst, |Stream(codec, Compress, m0, jobs[i])|)| == 1
    ensures |Harvest(codec, Compress, m0, jobs, c)| == c
    ensures forall i :: 0 <= i < c ==>
              Pieces(jobs[i].dst, |Stream(codec, Compress, m0, jobs[i])|) == [Harvest(codec, Compress, m0, jobs, c)[i]]
    decreases c
  {
    if c > 0 {
      HarvestSingles(codec, m0, jobs, c - 1);
      var last := Pieces(jobs[c - 1].dst, |Stream(codec, Compress, m0, jobs[c - 1])|);
      assert last == [last[0]];
    }
  }

  /** Buffer i is the stream of segment i, at the base of the i-th zone taken. */
  ghost predicate Segmented(codec: Codec, m0: Memory, m: Memory, input: Slice, seg: nat, zones: seq<Memzone>, buffers: seq<Slice>)
    requires seg > 0 && Within(m0, input)
  {
    var pieces := Chunks(Read(m0, input), seg);
    && |buffers| == |zones| == |pieces|
    && forall i :: 0 <= i < |buffers| ==>
         && buffers[i].region == zones[i].region && buffers[i].start == 0
         && pieces[i] in codec.deflate && Within(m, buffers[i]) && Read(m, buffers[i]) == codec.deflate[pieces[i]]
  }

  lemma SingleBuffers(codec: Codec, m0: Memory, s: Machine, cfg: Settings, input: Slice, zones: seq<Memzone>, c: nat)
    requires cfg.seg > 0 && cfg.sgl == 1 && |zones| == CeilDiv(input.len, cfg.seg) && Within(m0, input) && codec.Lawful()
    requires CompressRunning(codec, m0, s, [], cfg, input, input.len, zones, c)
    ensures Segmented(codec, m0, s.mem, input, cfg.seg, zones,
                      Harvest(codec, Compress, m0, CompressJobs(cfg, input, input.len, zones), c))
  {
    var jobs := CompressJobs(cfg, input, input.len, zones);
    var buffers := Harvest(codec, Compress, m0, jobs, c);
    PiecesCount(cfg, input, zones, m0);
    SpanIsProduct(cfg);
    CompressJobsAre(cfg, input, input.len, zones);
    ChunksOfOne(ZoneSlices(zones));
    forall i | 0 <= i < c
      ensures jobs[i].dst == [ZoneSlices(zones)[i]]
      ensures |Pieces(jobs[i].dst, |Stream(codec, Compress, m0, jobs[i])|)| == 1
    {
      JobReads(cfg, input, zones, m0, i);
      NonEmptyStream(codec, m0, jobs[i]);
      ReachesLast(jobs[i].dst, |Stream(codec, Compress, m0, jobs[i])|);
    }
    HarvestSingles(codec, m0, jobs, c);
    forall i | 0 <= i < c
      ensures var data := Chunks(Read(m0, input), cfg.seg)[i];
              && data in codec.deflate && Within(s.mem, buffers[i]) && Read(s.mem, buffers[i]) == codec.deflate[data]
              && buffers[i].region == zones[i].region && buffers[i].start == 0
    {
      JobReads(cfg, input, zones, m0, i);
      NonEmptyStream(codec, m0, jobs[i]);
      assert DeliveredJob(codec, Compress, m0, s.mem, jobs[i]);
      DeliveredReads(codec, Compress, m0, s.mem, jobs[i]);
      PiecesReach(jobs[i].dst, |Stream(codec, Compress, m0, jobs[i])|);
      assert Pieces(jobs[i].dst, |Stream(codec, Compress, m0, jobs[i])|)[0] == buffers[i];
      GatherOne(s.mem, buffers[i]);
    }
  }

  lemma NonEmptyStream(codec: Codec, m0: Memory, job: Job)
    requires codec.Lawful() && AllWithin(m0, job.src)
    ensures var data := Gather(m0, job.src);
            data in codec.deflate && Stream(codec, Compress, m0, job) == codec.deflate[data] && |codec.deflate[data]| > 0
  {
  }

  /** Everything a successful compression guarantees: with one segment an operation and a lawful codec,
      moreover, buffer i is the stream of segment i in the i-th zone taken, and no zone is passed over. */
  ghost predicate Finished(codec: Codec, m0: Memory, m: Memory, st0: Zones, st: Zones, cfg: Settings, input: Slice,
                           p: Progress, buffers: seq<Slice>)
  {
    && Within(m0, input) && p.Fits(cfg, input) && p.offset == input.len && p.more == [] && cfg.Span() > 0
    && Compressed(codec, m0, m, st0, st, cfg, input, p.zones, p.Holding(codec, m0, cfg, input), buffers)
    && (cfg.sgl == 1 && codec.Lawful() ==>
          Segmented(codec, m0, m, input, cfg.seg, p.zones, buffers) && p.Holding(codec, m0, cfg, input) == p.zones)
  }

  lemma CompressionSucceeds(codec: Codec, m0: Memory, s: Machine, st0: Zones, st: Zones, cfg: Settings, input: Slice,
                            p: Progress, buffers: seq<Slice>)
    requires cfg.seg > 0 && cfg.sgl > 0 && Planned(cfg, input, m0, st0, st, input.len, p.zones)
    requires p.offset == input.len && p.more == []
    requires CompressRunning(codec, m0, s, [], cfg, input, input.len, p.zones, p.c)
    requires buffers == Harvest(codec, Compress, m0, CompressJobs(cfg, input, input.len, p.zones), p.c)
    ensures Finished(codec, m0, s.mem, st0, st, cfg, input, p, buffers)
    ensures p.c == CeilDiv(CeilDiv(input.len, cfg.seg), cfg.sgl)
  {
    hide Compressed, Segmented;
    CompressionDone(codec, m0, s, st0, st, cfg, input, p.zones, buffers, p.c);
    ChunksShape(p.zones, cfg.sgl);
    if cfg.sgl == 1 && codec.Lawful() {
      SingleResult(codec, m0, s, cfg, input, p, buffers);
    }
  }

  lemma SingleResult(codec: Codec, m0: Memory, s: Machine, cfg: Settings, input: Slice, p: Progress, buffers: seq<Slice>)
    requires cfg.seg > 0 && cfg.sgl == 1 && codec.Lawful() && Within(m0, input)
    requires p.Fits(cfg, input) && p.offset == input.len && p.c == |CompressJobs(cfg, input, input.len, p.zones)|
    requires CompressRunning(codec, m0, s, [], cfg, input, input.len, p.zones, p.c)
    requires buffers == Harvest(codec, Compress, m0, CompressJobs(cfg, input, input.len, p.zones), p.c)
    ensures Segmented(codec, m0, s.mem, input, cfg.seg, p.zones, buffers) && p.Holding(codec, m0, cfg, input) == p.zones
  {
    SingleBuffers(codec, m0, s, cfg, input, p.zones, p.c);
    SingleSegmentsReach(codec, m0, cfg, input, input.len, p.zones, p.c);
    CompressJobsAre(cfg, input, input.len, p.zones);
    ChunksOfOne(ZoneSlices(p.zones));
    assert p.zones[..|p.zones|] == p.zones;
  }

  // ----- why an operation can fail -----

  /** The stream of job c does not fit its destination. */
  ghost predicate Unfit(codec: Codec, x: Xform, m0: Memory, jobs: seq<Job>, c: nat)
  {
    c < |jobs| && !(AllWithin(m0, jobs[c].src) && Fits(codec, x, m0, jobs[c]))
  }

  /** Segments of at most seg bytes deflate to at most cseg bytes: what the compressed segment size is
      chosen for. */
  ghost predicate Compact(codec: Codec, seg: nat, cseg: nat)
  {
    forall data: seq<byte> :: |data| <= seg && data in codec.deflate ==> |codec.deflate[data]| <= cseg
  }

  /** A codec that at worst emits a segment as one stored block. */
  ghost predicate StoresAtWorst(codec: Codec, seg: nat)
  {
    forall data: seq<byte> :: |data| <= seg && data in codec.deflate ==> |codec.deflate[data]| <= |data| + STORED_OVERHEAD
  }

  /** The derived compressed segment size has room for every such codec exactly when no power of two up to
      32768 lies in the four sizes above the segment size. */
  lemma CompactIffRoom(seg: nat, cseg: nat)
    requires MIN_SEG_SIZE <= seg <= MAX_SEG_SIZE && IsCompressedSize(seg, cseg)
    ensures (forall codec: Codec :: codec.Lawful() && StoresAtWorst(codec, seg) ==> Compact(codec, seg, cseg)) <==>
            !(exists k: nat :: k <= 15 && seg < Pow2(k) < seg + STORED_OVERHEAD)
  {
    IncompressibleFits(seg, cseg);
    if seg + STORED_OVERHEAD > cseg {
      var codec := StoringCodec(STORED_OVERHEAD);
      var data := seq(seg, _ => 0 as byte);
      assert data in codec.deflate && |codec.deflate[data]| > cseg;
    }
  }

  /** With one segment an operation and zones of the compressed segment size, every stream fits. */
  lemma AlwaysFit(codec: Codec, m0: Memory, cfg: Settings, input: Slice, offset: nat, zones: seq<Memzone>, c: nat)
    requires cfg.seg > 0 && cfg.sgl == 1 && |zones| == CeilDiv(offset, cfg.seg) && Within(m0, input) && offset <= input.len
    requires codec.Lawful() && Compact(codec, cfg.seg, cfg.cseg) && cfg.cseg < 0x1_0000
    requires forall i :: 0 <= i < |zones| ==> zones[i].len == cfg.cseg
    ensures !Unfit(codec, Compress, m0, CompressJobs(cfg, input, offset, zones), c)
  {
    var jobs := CompressJobs(cfg, input, offset, zones);
    if c < |jobs| {
      var g := cfg.Span();
      SpanIsProduct(cfg);
      CompressJobsAre(cfg, input, offset, zones);
      GroupedSegments(m0, input.region, input.start, offset, cfg.seg, cfg.sgl, g);
      ChunksShape(m0[input.region][input.start..input.start + offset], g);
      ChunksOfOne(ZoneSlices(zones));
      assert jobs[c].dst == [ZoneSlices(zones)[c]];
      NonEmptyStream(codec, m0, jobs[c]);
    }
  }
}
