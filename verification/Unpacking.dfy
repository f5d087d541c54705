/** The plan of a decompression: one source segment per compressed buffer, one stride of the output
    for each of them, both grouped into operations by count. */
module Unpacking {
  import opened Sequences
  import opened HostMemory
  import opened Operations
  import opened Config
  import opened Assembly
  import opened Pipeline
  import opened Plans

  // ----- strips -----

  lemma {:induction false} SkipIsProduct(pos: nat, seg: nat, num: nat)
    ensures Skip(pos, seg, num) == pos + num * seg
    decreases num
  {
    if num > 0 {
      SkipIsProduct(pos + seg, seg, num - 1);
      assert num * seg == (num - 1) * seg + seg;
    }
  }

  lemma {:induction false} StripAppend(r: Region, pos: nat, seg: nat, a: nat, b: nat)
    ensures Skip(pos, seg, a + b) == Skip(Skip(pos, seg, a), seg, b)
    ensures Strip(r, pos, seg, a + b) == Strip(r, pos, seg, a) + Strip(r, Skip(pos, seg, a), seg, b)
    decreases a
  {
    if a > 0 {
      StripAppend(r, pos + seg, seg, a - 1, b);
      assert a + b - 1 == (a - 1) + b;
    }
  }

  lemma {:induction false} SkipMonotone(pos: nat, seg: nat, i: nat, j: nat)
    requires i < j
    ensures Skip(pos, seg, i) + seg <= Skip(pos, seg, j)
    decreases i
  {
    if i == 0 {
      SkipIsProduct(pos + seg, seg, j - 1);
      assert (j - 1) * seg >= 0;
    } else {
      SkipMonotone(pos + seg, seg, i - 1, j - 1);
    }
  }

  /** The strides never overlap and stay inside the span they were cut from. */
  lemma StripShape(r: Region, pos: nat, seg: nat, num: nat)
    ensures PairwiseDisjoint(Strip(r, pos, seg, num))
    ensures forall i :: 0 <= i < num ==>
              var s := Strip(r, pos, seg, num)[i];
              s.region == r && pos <= s.start && s.start + s.len <= pos + num * seg
  {
    SkipIsProduct(pos, seg, num);
    forall i | 0 <= i < num
      ensures var s := Strip(r, pos, seg, num)[i];
              s.region == r && pos <= s.start && s.start + s.len <= pos + num * seg
    {
      StripAt(r, pos, seg, num, i);
      SkipIsProduct(pos, seg, i);
      SkipMonotone(pos, seg, i, num);
    }
    forall i, j | 0 <= i < j < num
      ensures Disjoint(Strip(r, pos, seg, num)[i], Strip(r, pos, seg, num)[j])
    {
      StripAt(r, pos, seg, num, i);
      StripAt(r, pos, seg, num, j);
      SkipMonotone(pos, seg, i, j);
    }
  }

  // ----- the plan -----

  /** The jobs that the first `index` buffers make. */
  ghost function DecompressJobs(cfg: Settings, buffers: seq<Slice>, output: Slice, index: nat): (jobs: seq<Job>)
    requires cfg.sgl > 0 && index <= |buffers|
    ensures |jobs| == CeilDiv(index, cfg.sgl)
  {
    var srcs, dsts := ClipAll(buffers[..index]), Strip(output.region, output.start, cfg.seg, index);
    ChunksShape(srcs, cfg.sgl);
    ChunksShape(dsts, cfg.sgl);
    Zip(Chunks(srcs, cfg.sgl), Chunks(dsts, cfg.sgl))
  }

  lemma DecompressJobsAre(cfg: Settings, buffers: seq<Slice>, output: Slice, index: nat)
    requires cfg.sgl > 0 && index <= |buffers|
    ensures var srcs, dsts := ClipAll(buffers[..index]), Strip(output.region, output.start, cfg.seg, index);
            && |Chunks(srcs, cfg.sgl)| == |Chunks(dsts, cfg.sgl)| == CeilDiv(index, cfg.sgl)
            && DecompressJobs(cfg, buffers, output, index) == Zip(Chunks(srcs, cfg.sgl), Chunks(dsts, cfg.sgl))
  {
    ChunksShape(ClipAll(buffers[..index]), cfg.sgl);
    ChunksShape(Strip(output.region, output.start, cfg.seg, index), cfg.sgl);
  }

  /** How far assembly has got: whole operations while buffers are left, strides without gaps. */
  ghost predicate Taken(cfg: Settings, total: nat, index: nat, offset: nat)
    requires cfg.sgl > 0
  {
    index <= total && (index < total ==> Multiple(index, cfg.sgl)) && offset == Skip(0, cfg.seg, index)
  }

  lemma NextTaken(cfg: Settings, output: Slice, total: nat, index: nat, index': nat, offset: nat, staged: nat, num: nat, k: nat)
    requires cfg.sgl > 0 && Taken(cfg, total, index, offset) && TakeFor(cfg, total, index, index', staged, num, k)
    ensures Taken(cfg, total, index', Skip(offset, cfg.seg, num))
    ensures Strip(output.region, output.start, cfg.seg, index') ==
            Strip(output.region, output.start, cfg.seg, index) + Strip(output.region, output.start + offset, cfg.seg, num)
    ensures num == 0 ==> k == 0
  {
    StripAppend(output.region, 0, cfg.seg, index, num);
    StripAppend(output.region, output.start, cfg.seg, index, num);
    SkipShift(0, output.start, cfg.seg, index);
    if index' < total {
      MultipleSum(index, num, cfg.sgl);
    }
  }

  /** One round of assembly continues the plan. */
  lemma NextDecompressJobs(cfg: Settings, buffers: seq<Slice>, output: Slice, index: nat, index': nat, offset: nat,
                           staged: nat, num: nat, k: nat)
    requires cfg.sgl > 0 && Taken(cfg, |buffers|, index, offset) && TakeFor(cfg, |buffers|, index, index', staged, num, k)
    ensures DecompressJobs(cfg, buffers, output, index') ==
            DecompressJobs(cfg, buffers, output, index) +
            Zip(Deal(ClipAll(buffers[index..index']), cfg.sgl, k),
                Deal(Strip(output.region, output.start + offset, cfg.seg, num), cfg.sgl, k))
  {
    var srcs, more := ClipAll(buffers[..index]), ClipAll(buffers[index..index']);
    var dsts := Strip(output.region, output.start, cfg.seg, index);
    var strip := Strip(output.region, output.start + offset, cfg.seg, num);
    NextTaken(cfg, output, |buffers|, index, index', offset, staged, num, k);
    DecompressJobsAre(cfg, buffers, output, index);
    DecompressJobsAre(cfg, buffers, output, index');
    ClipSplit(buffers, index, index');
    if num > 0 {
      DealMore(srcs, more, cfg.sgl, k);
      DealMore(dsts, strip, cfg.sgl, k);
      ZipAppend(Chunks(srcs, cfg.sgl), Deal(more, cfg.sgl, k), Chunks(dsts, cfg.sgl), Deal(strip, cfg.sgl, k));
    } else {
      assert index' == index && k == 0;
      ZipNothing(DecompressJobs(cfg, buffers, output, index), more, strip, cfg.sgl);
    }
  }

  lemma ClipSplit(buffers: seq<Slice>, index: nat, index': nat)
    requires index <= index' <= |buffers|
    ensures ClipAll(buffers[..index']) == ClipAll(buffers[..index]) + ClipAll(buffers[index..index'])
  {
  }

  lemma DealMore(before: seq<Slice>, more: seq<Slice>, n: nat, k: nat)
    requires n > 0 && Multiple(|before|, n) && k == CeilDiv(|more|, n)
    ensures Chunks(before + more, n) == Chunks(before, n) + Deal(more, n, k)
  {
    ChunksAppend(before, more, n);
    DealIsChunks(more, n);
  }

  lemma ZipNothing(jobs: seq<Job>, a: seq<Slice>, b: seq<Slice>, n: nat)
    ensures jobs + Zip(Deal(a, n, 0), Deal(b, n, 0)) == jobs
  {
  }

  // ----- the plan can be carried out -----

  /** The caller's memory: compressed buffers that can be read, and an output allocation of their own
      with room for one segment per buffer. */
  ghost predicate Supplied(cfg: Settings, buffers: seq<Slice>, output: Slice, m: Memory)
  {
    && AllWithin(m, buffers) && Within(m, output) && Product(|buffers|, cfg.seg) <= output.len
    && forall i :: 0 <= i < |buffers| ==> buffers[i].region != output.region
  }

  lemma DecompressUsable(cfg: Settings, buffers: seq<Slice>, output: Slice, index: nat, m0: Memory, m: Memory)
    requires cfg.sgl > 0 && index <= |buffers| && Supplied(cfg, buffers, output, m0) && Within(m, output)
    requires OnlyChanged(m0, m, output)
    ensures var jobs := DecompressJobs(cfg, buffers, output, index);
            Separate(jobs) && AllAddressable(m, jobs) && Sourced(m0, m, jobs)
  {
    var jobs := DecompressJobs(cfg, buffers, output, index);
    DecompressJobsAre(cfg, buffers, output, index);
    StripShape(output.region, output.start, cfg.seg, index);
    ChunksApart(Strip(output.region, output.start, cfg.seg, index), cfg.sgl);
    CountingIsMultiplication(|buffers|, cfg.seg);
    MulMonotone(index, |buffers|, cfg.seg);
    forall i | 0 <= i < |jobs|
      ensures Addressable(m, jobs[i]) && AllWithin(m0, jobs[i].src) && Gather(m, jobs[i].src) == Gather(m0, jobs[i].src)
    {
      JobUsable(cfg, buffers, output, index, m0, m, i);
    }
    forall i, j | 0 <= i < |jobs| && 0 <= j < |jobs|
      ensures Apart(jobs[i].dst, jobs[j].src)
    {
      SourceElsewhere(cfg, buffers, output, index, i, j);
    }
  }

  lemma SourceElsewhere(cfg: Settings, buffers: seq<Slice>, output: Slice, index: nat, i: nat, j: nat)
    requires cfg.sgl > 0 && index <= |buffers|
    requires forall b :: 0 <= b < |buffers| ==> buffers[b].region != output.region
    requires i < |DecompressJobs(cfg, buffers, output, index)| && j < |DecompressJobs(cfg, buffers, output, index)|
    ensures var jobs := DecompressJobs(cfg, buffers, output, index);
            && Apart(jobs[i].dst, jobs[j].src)
            && forall k :: 0 <= k < |jobs[i].dst| ==> jobs[i].dst[k].region == output.region
  {
    var jobs := DecompressJobs(cfg, buffers, output, index);
    DecompressJobsAre(cfg, buffers, output, index);
    StripShape(output.region, output.start, cfg.seg, index);
    forall a | 0 <= a < |jobs[i].dst|
      ensures jobs[i].dst[a].region == output.region
    {
      var p := ChunkFrom(Strip(output.region, output.start, cfg.seg, index), cfg.sgl, i, a);
    }
    forall b | 0 <= b < |jobs[j].src|
      ensures jobs[j].src[b].region != output.region
    {
      var q := ChunkFrom(ClipAll(buffers[..index]), cfg.sgl, j, b);
    }
  }

  lemma JobUsable(cfg: Settings, buffers: seq<Slice>, output: Slice, index: nat, m0: Memory, m: Memory, i: nat)
    requires cfg.sgl > 0 && index <= |buffers| && Supplied(cfg, buffers, output, m0) && Within(m, output)
    requires OnlyChanged(m0, m, output)
    requires i < |DecompressJobs(cfg, buffers, output, index)|
    ensures var job := DecompressJobs(cfg, buffers, output, index)[i];
            && Addressable(m, job) && AllWithin(m0, job.src) && Gather(m, job.src) == Gather(m0, job.src)
  {
    var job := DecompressJobs(cfg, buffers, output, index)[i];
    DecompressJobsAre(cfg, buffers, output, index);
    StripShape(output.region, output.start, cfg.seg, index);
    CountingIsMultiplication(|buffers|, cfg.seg);
    MulMonotone(index, |buffers|, cfg.seg);
    forall a | 0 <= a < |job.dst|
      ensures Within(m, job.dst[a])
    {
      var p := ChunkFrom(Strip(output.region, output.start, cfg.seg, index), cfg.sgl, i, a);
    }
    forall b | 0 <= b < |job.src|
      ensures Within(m0, job.src[b]) && job.src[b].region in m && m[job.src[b].region] == m0[job.src[b].region]
    {
      var q := ChunkFrom(ClipAll(buffers[..index]), cfg.sgl, i, b);
      assert Within(m0, buffers[q]);
    }
    GatherSame(m0, m, job.src);
  }

  /** A decompression run: its jobs are those of the plan. */
  ghost predicate DecompressRunning(codec: Codec, m0: Memory, s: Machine, pending: seq<OpId>, cfg: Settings, buffers: seq<Slice>,
                                    output: Slice, index: nat, c: nat)
    requires cfg.sgl > 0 && index <= |buffers|
  {
    var jobs := DecompressJobs(cfg, buffers, output, index);
    Running(codec, Decompress, m0, s, pending, jobs, c) && Tidy(Decompress, m0, s, pending, jobs)
  }

  lemma DecompressWrites(cfg: Settings, buffers: seq<Slice>, output: Slice, index: nat, r: Region)
    requires cfg.sgl > 0 && index <= |buffers| && r != output.region
    requires forall b :: 0 <= b < |buffers| ==> buffers[b].region != output.region
    ensures !WritesTo(DecompressJobs(cfg, buffers, output, index), r)
  {
    var jobs := DecompressJobs(cfg, buffers, output, index);
    forall i, k | 0 <= i < |jobs| && 0 <= k < |jobs[i].dst|
      ensures jobs[i].dst[k].region != r
    {
      SourceElsewhere(cfg, buffers, output, index, i, i);
    }
  }

  ghost predicate SameLength(m0: Memory, m: Memory, r: Region)
  {
    r in m0 && r in m && |m[r]| == |m0[r]|
  }

  ghost predicate OnlyChanged(m0: Memory, m: Memory, output: Slice)
  {
    forall r :: r in m0 && r != output.region ==> r in m && m[r] == m0[r]
  }

  /** Nothing but the output has changed. */
  lemma OnlyOutputChanges(codec: Codec, m0: Memory, s: Machine, pending: seq<OpId>, cfg: Settings, buffers: seq<Slice>,
                          output: Slice, index: nat, c: nat)
    requires cfg.sgl > 0 && index <= |buffers| && Supplied(cfg, buffers, output, m0)
    requires DecompressRunning(codec, m0, s, pending, cfg, buffers, output, index, c)
    ensures OnlyChanged(m0, s.mem, output)
  {
    forall r | r in m0 && r != output.region
      ensures r in s.mem && s.mem[r] == m0[r]
    {
      DecompressWrites(cfg, buffers, output, index, r);
    }
  }

  lemma DecompressionStarts(codec: Codec, s: Machine, cfg: Settings, buffers: seq<Slice>, output: Slice)
    requires cfg.sgl > 0
    ensures Taken(cfg, |buffers|, 0, 0)
    ensures DecompressRunning(codec, s.mem, s, [], cfg, buffers, output, 0, 0)
  {
    DecompressJobsAre(cfg, buffers, output, 0);
    RunStarts(codec, Decompress, s);
    assert DecompressJobs(cfg, buffers, output, 0) == [];
  }

  /** One successful round of assembly. */
  lemma DecompressRound(codec: Codec, m0: Memory, s: Machine, s': Machine, pending: seq<OpId>, newOps: seq<OpId>, c: nat,
                        cfg: Settings, buffers: seq<Slice>, output: Slice, index: nat, offset: nat, index': nat, staged: nat, num: nat)
    requires cfg.sgl > 0 && Supplied(cfg, buffers, output, m0) && Within(s.mem, output) && Taken(cfg, |buffers|, index, offset)
    requires DecompressRunning(codec, m0, s, pending, cfg, buffers, output, index, c)
    requires TakeFor(cfg, |buffers|, index, index', staged, num, |newOps|) && s'.mem == s.mem
    requires Distinct(pending + newOps) && Kept(s.table, s'.table, pending)
    requires Loaded(s'.table, newOps, Zip(Deal(ClipAll(buffers[index..index']), cfg.sgl, |newOps|),
                                          Deal(Strip(output.region, output.start + offset, cfg.seg, num), cfg.sgl, |newOps|)), Decompress)
    ensures Taken(cfg, |buffers|, index', Skip(offset, cfg.seg, num))
    ensures DecompressRunning(codec, m0, s', pending + newOps, cfg, buffers, output, index', c)
    ensures Streams(codec, Decompress, m0, DecompressJobs(cfg, buffers, output, index'), c) ==
            Streams(codec, Decompress, m0, DecompressJobs(cfg, buffers, output, index), c)
  {
    var jobs := DecompressJobs(cfg, buffers, output, index);
    var newJobs := Zip(Deal(ClipAll(buffers[index..index']), cfg.sgl, |newOps|),
                       Deal(Strip(output.region, output.start + offset, cfg.seg, num), cfg.sgl, |newOps|));
    NextTaken(cfg, output, |buffers|, index, index', offset, staged, num, |newOps|);
    NextDecompressJobs(cfg, buffers, output, index, index', offset, staged, num, |newOps|);
    OnlyOutputChanges(codec, m0, s, pending, cfg, buffers, output, index, c);
    DecompressUsable(cfg, buffers, output, index', m0, s'.mem);
    SuffixOfRun(m0, s'.mem, jobs, newJobs);
    RunExtends(codec, Decompress, m0, s, s', pending, newOps, jobs, newJobs, c);
    TidyExtends(Decompress, m0, s, s', pending, newOps, jobs, newJobs);
    YieldKept(codec, Decompress, m0, jobs, newJobs, c);
  }
}
