/** What a finished decompression has achieved, and why decompressing a compression result gives the
    input back. */
module RoundTrip {
  import opened Sequences
  import opened HostMemory
  import opened MemoryPool
  import opened Operations
  import opened Config
  import opened Assembly
  import opened Pipeline
  import opened Results
  import opened Unpacking

  /** Operation k's output: what its group of buffers, read in order, inflates to. */
  ghost function InflatedGroup(codec: Codec, m0: Memory, group: seq<Slice>): seq<byte>
  {
    if AllWithin(m0, group) && Gather(m0, group) in codec.inflate then codec.inflate[Gather(m0, group)] else []
  }

  /** The outputs of the groups, end to end. */
  ghost function InflatedAll(codec: Codec, m0: Memory, groups: seq<seq<Slice>>): seq<byte>
  {
    if groups == [] then []
    else InflatedAll(codec, m0, groups[..|groups| - 1]) + InflatedGroup(codec, m0, groups[|groups| - 1])
  }

  /** What a caller of Decompress gets: every group of buffers is a stream that inflates; its output
      lies at the front of the group's strides, in order; and the size is the sum of the outputs. */
  ghost predicate Decompressed(codec: Codec, m0: Memory, m: Memory, cfg: Settings, buffers: seq<Slice>, output: Slice, size: nat)
    requires cfg.sgl > 0
  {
    var groups := Chunks(ClipAll(buffers), cfg.sgl);
    var strides := Chunks(Strip(output.region, output.start, cfg.seg, |buffers|), cfg.sgl);
    && |groups| == |strides| && size == |InflatedAll(codec, m0, groups)| <= Product(|buffers|, cfg.seg)
    && (forall k :: 0 <= k < |groups| ==> GroupDone(codec, m0, m, groups[k], strides[k]))
    && OnlyChanged(m0, m, output)
  }

  /** The group is a stream that inflates, and its output lies at the front of its strides. */
  ghost predicate GroupDone(codec: Codec, m0: Memory, m: Memory, group: seq<Slice>, strides: seq<Slice>)
  {
    var out := InflatedGroup(codec, m0, group);
    && AllWithin(m0, group) && Gather(m0, group) in codec.inflate && |out| <= SumLen(strides)
    && AllWithin(m, Pieces(strides, |out|)) && Gather(m, Pieces(strides, |out|)) == out
  }

  /** Room of the first c destinations. */
  ghost function Room(jobs: seq<Job>, c: nat): nat
    requires c <= |jobs|
  {
    if c == 0 then 0 else Room(jobs, c - 1) + SumLen(jobs[c - 1].dst)
  }

  lemma {:induction false} RoomOfStrides(jobs: seq<Job>, ss: seq<Slice>, n: nat, c: nat)
    requires n > 0 && |jobs| == |Chunks(ss, n)| && c <= |jobs|
    requires forall i :: 0 <= i < |jobs| ==> jobs[i].dst == Chunks(ss, n)[i]
    ensures Room(jobs, c) == SumLen(Flatten(Chunks(ss, n)[..c]))
    decreases c
  {
    if c > 0 {
      RoomOfStrides(jobs, ss, n, c - 1);
      assert Chunks(ss, n)[..c] == Chunks(ss, n)[..c - 1] + [Chunks(ss, n)[c - 1]];
      FlattenSnoc(Chunks(ss, n)[..c - 1], Chunks(ss, n)[c - 1]);
      SumLenAppend(Flatten(Chunks(ss, n)[..c - 1]), Chunks(ss, n)[c - 1]);
    }
  }

  lemma {:induction false} StripLength(r: Region, pos: nat, seg: nat, num: nat)
    ensures SumLen(Strip(r, pos, seg, num)) == num * seg
    decreases num
  {
    if num > 0 {
      StripLength(r, pos + seg, seg, num - 1);
      assert Strip(r, pos, seg, num)[1..] == Strip(r, pos + seg, seg, num - 1);
      assert num * seg == (num - 1) * seg + seg;
    }
  }

  /** Streams that fit their destinations never exceed the room. */
  lemma {:induction false} StreamsFit(codec: Codec, x: Xform, m0: Memory, jobs: seq<Job>, c: nat)
    requires c <= |jobs| && forall i :: 0 <= i < c ==> AllWithin(m0, jobs[i].src) && Fits(codec, x, m0, jobs[i])
    ensures |Streams(codec, x, m0, jobs, c)| <= Room(jobs, c)
    decreases c
  {
    if c > 0 {
      StreamsFit(codec, x, m0, jobs, c - 1);
    }
  }

  lemma StreamIsInflated(codec: Codec, m0: Memory, job: Job, group: seq<Slice>)
    requires job.src == group
    ensures Stream(codec, Decompress, m0, job) == InflatedGroup(codec, m0, group)
  {
  }

  lemma {:induction false} StreamsAreInflated(codec: Codec, m0: Memory, jobs: seq<Job>, groups: seq<seq<Slice>>, c: nat)
    requires c <= |jobs| == |groups| && forall i :: 0 <= i < |jobs| ==> jobs[i].src == groups[i]
    ensures Streams(codec, Decompress, m0, jobs, c) == InflatedAll(codec, m0, groups[..c])
    decreases c
  {
    if c > 0 {
      StreamsAreInflated(codec, m0, jobs, groups, c - 1);
      StreamIsInflated(codec, m0, jobs[c - 1], groups[c - 1]);
      hide Stream, InflatedGroup;
      assert groups[..c][..c - 1] == groups[..c - 1];
    }
  }

  lemma DecompressionDone(codec: Codec, m0: Memory, s: Machine, cfg: Settings, buffers: seq<Slice>, output: Slice, c: nat)
    requires cfg.sgl > 0 && Supplied(cfg, buffers, output, m0)
    requires DecompressRunning(codec, m0, s, [], cfg, buffers, output, |buffers|, c)
    ensures Decompressed(codec, m0, s.mem, cfg, buffers, output,
                         |Streams(codec, Decompress, m0, DecompressJobs(cfg, buffers, output, |buffers|), c)|)
    ensures c == CeilDiv(|buffers|, cfg.sgl)
  {
    DoneSize(codec, m0, s, cfg, buffers, output, c);
    PlanOfAll(cfg, buffers, output);
    ChunksShape(ClipAll(buffers), cfg.sgl);
    OnlyOutputChanges(codec, m0, s, [], cfg, buffers, output, |buffers|, c);
    var groups := Chunks(ClipAll(buffers), cfg.sgl);
    var strides := Chunks(Strip(output.region, output.start, cfg.seg, |buffers|), cfg.sgl);
    forall k | 0 <= k < |groups|
      ensures GroupDone(codec, m0, s.mem, groups[k], strides[k])
    {
      DoneGroup(codec, m0, s, cfg, buffers, output, c, k);
    }
  }

  lemma PlanOfAll(cfg: Settings, buffers: seq<Slice>, output: Slice)
    requires cfg.sgl > 0
    ensures var jobs := DecompressJobs(cfg, buffers, output, |buffers|);
            var groups, strides := Chunks(ClipAll(buffers), cfg.sgl), Chunks(Strip(output.region, output.start, cfg.seg, |buffers|), cfg.sgl);
            |jobs| == |groups| == |strides| && forall k :: 0 <= k < |jobs| ==> jobs[k] == Job(groups[k], strides[k])
  {
    assert buffers[..|buffers|] == buffers;
    DecompressJobsAre(cfg, buffers, output, |buffers|);
  }

  lemma DoneSize(codec: Codec, m0: Memory, s: Machine, cfg: Settings, buffers: seq<Slice>, output: Slice, c: nat)
    requires cfg.sgl > 0
    requires DecompressRunning(codec, m0, s, [], cfg, buffers, output, |buffers|, c)
    ensures var groups := Chunks(ClipAll(buffers), cfg.sgl);
            && |groups| == c == |Chunks(Strip(output.region, output.start, cfg.seg, |buffers|), cfg.sgl)|
            && Streams(codec, Decompress, m0, DecompressJobs(cfg, buffers, output, |buffers|), c) == InflatedAll(codec, m0, groups)
            && |InflatedAll(codec, m0, groups)| <= Product(|buffers|, cfg.seg)
  {
    var jobs := DecompressJobs(cfg, buffers, output, |buffers|);
    var groups, strip := Chunks(ClipAll(buffers), cfg.sgl), Strip(output.region, output.start, cfg.seg, |buffers|);
    PlanOfAll(cfg, buffers, output);
    AllFit(codec, m0, s, jobs, c);
    WholeRoom(codec, m0, jobs, strip, cfg.sgl);
    StripLength(output.region, output.start, cfg.seg, |buffers|);
    CountingIsMultiplication(|buffers|, cfg.seg);
    WholeStreams(codec, m0, jobs, groups);
  }

  lemma WholeStreams(codec: Codec, m0: Memory, jobs: seq<Job>, groups: seq<seq<Slice>>)
    requires |jobs| == |groups| && forall i :: 0 <= i < |jobs| ==> jobs[i].src == groups[i]
    ensures Streams(codec, Decompress, m0, jobs, |jobs|) == InflatedAll(codec, m0, groups)
  {
    StreamsAreInflated(codec, m0, jobs, groups, |jobs|);
    assert groups[..|jobs|] == groups;
  }

  lemma WholeRoom(codec: Codec, m0: Memory, jobs: seq<Job>, strip: seq<Slice>, n: nat)
    requires n > 0 && |jobs| == |Chunks(strip, n)|
    requires forall i :: 0 <= i < |jobs| ==> jobs[i].dst == Chunks(strip, n)[i]
    requires forall i :: 0 <= i < |jobs| ==> AllWithin(m0, jobs[i].src) && Fits(codec, Decompress, m0, jobs[i])
    ensures |Streams(codec, Decompress, m0, jobs, |jobs|)| <= SumLen(strip)
  {
    StreamsFit(codec, Decompress, m0, jobs, |jobs|);
    RoomOfStrides(jobs, strip, n, |jobs|);
    assert Chunks(strip, n)[..|jobs|] == Chunks(strip, n);
    ChunksShape(strip, n);
  }

  lemma AllFit(codec: Codec, m0: Memory, s: Machine, jobs: seq<Job>, c: nat)
    requires Running(codec, Decompress, m0, s, [], jobs, c)
    ensures forall i :: 0 <= i < c ==> AllWithin(m0, jobs[i].src) && Fits(codec, Decompress, m0, jobs[i])
  {
  }

  lemma DoneGroup(codec: Codec, m0: Memory, s: Machine, cfg: Settings, buffers: seq<Slice>, output: Slice, c: nat, k: nat)
    requires cfg.sgl > 0 && k < |Chunks(ClipAll(buffers), cfg.sgl)|
    requires DecompressRunning(codec, m0, s, [], cfg, buffers, output, |buffers|, c)
    ensures k < |Chunks(Strip(output.region, output.start, cfg.seg, |buffers|), cfg.sgl)|
    ensures GroupDone(codec, m0, s.mem, Chunks(ClipAll(buffers), cfg.sgl)[k],
                      Chunks(Strip(output.region, output.start, cfg.seg, |buffers|), cfg.sgl)[k])
  {
    var jobs := DecompressJobs(cfg, buffers, output, |buffers|);
    PlanOfAll(cfg, buffers, output);
    RunDelivered(codec, m0, s, jobs, c, k);
    JobDone(codec, m0, s.mem, jobs[k]);
  }

  lemma RunDelivered(codec: Codec, m0: Memory, s: Machine, jobs: seq<Job>, c: nat, k: nat)
    requires Running(codec, Decompress, m0, s, [], jobs, c) && k < |jobs|
    ensures AllWithin(m0, jobs[k].src) && DeliveredJob(codec, Decompress, m0, s.mem, jobs[k])
  {
  }

  lemma JobDone(codec: Codec, m0: Memory, m: Memory, job: Job)
    requires AllWithin(m0, job.src) && DeliveredJob(codec, Decompress, m0, m, job)
    ensures GroupDone(codec, m0, m, job.src, job.dst)
  {
  }

  /** Some operation's buffers are no stream, or inflate to more than the operation's part of the
      output. */
  ghost predicate Undecodable(codec: Codec, m0: Memory, cfg: Settings, buffers: seq<Slice>, output: Slice)
  {
    cfg.sgl > 0 &&
    (exists index: nat, c: nat ::
       index <= |buffers| && Unfit(codec, Decompress, m0, DecompressJobs(cfg, buffers, output, index), c))
  }

  // ----- the round trip -----

  /** The pieces of data lie in region r, one segment apart, from `start` on. */
  ghost predicate Placed(m: Memory, r: Region, start: nat, data: seq<byte>, seg: nat)
    requires seg > 0
  {
    forall i :: 0 <= i < |Chunks(data, seg)| ==> Holding(m, Slice(r, Skip(start, seg, i), |Chunks(data, seg)[i]|), Chunks(data, seg)[i])
  }

  ghost predicate Holding(m: Memory, s: Slice, bytes: seq<byte>)
  {
    Within(m, s) && Read(m, s) == bytes
  }

  lemma PlacedTail(m: Memory, r: Region, start: nat, data: seq<byte>, seg: nat)
    requires seg > 0 && |data| > seg && Placed(m, r, start, data, seg)
    ensures Placed(m, r, start + seg, data[seg..], seg)
  {
    forall i | 0 <= i < |Chunks(data[seg..], seg)|
      ensures Holding(m, Slice(r, Skip(start + seg, seg, i), |Chunks(data[seg..], seg)[i]|), Chunks(data[seg..], seg)[i])
    {
      assert Chunks(data, seg)[i + 1] == Chunks(data[seg..], seg)[i];
      assert Skip(start, seg, i + 1) == Skip(start + seg, seg, i);
    }
  }

  lemma PlacedHead(m: Memory, r: Region, start: nat, data: seq<byte>, seg: nat)
    requires seg > 0 && data != [] && Placed(m, r, start, data, seg)
    ensures Holding(m, Slice(r, start, Min(seg, |data|)), data[..Min(seg, |data|)])
  {
    assert Chunks(data, seg)[0] == data[..Min(seg, |data|)];
    assert Skip(start, seg, 0) == start;
  }

  lemma HoldingBoth(m: Memory, r: Region, start: nat, k: nat, data: seq<byte>)
    requires k <= |data| && Holding(m, Slice(r, start, k), data[..k]) && Holding(m, Slice(r, start + k, |data| - k), data[k..])
    ensures Holding(m, Slice(r, start, |data|), data)
  {
    var all := m[r][start..start + |data|];
    assert all[..k] == data[..k] && all[k..] == data[k..];
    assert all == all[..k] + all[k..] && data == data[..k] + data[k..];
  }

  /** Pieces placed one segment apart, all full but the last, make up the whole without gaps. */
  lemma {:induction false} Contiguous(m: Memory, r: Region, start: nat, data: seq<byte>, seg: nat)
    requires seg > 0 && Placed(m, r, start, data, seg) && Within(m, Slice(r, start, 0))
    ensures Within(m, Slice(r, start, |data|)) && Read(m, Slice(r, start, |data|)) == data
    decreases |data|
  {
    if data != [] {
      PlacedHead(m, r, start, data, seg);
      if |data| > seg {
        PlacedTail(m, r, start, data, seg);
        Contiguous(m, r, start + seg, data[seg..], seg);
        HoldingBoth(m, r, start, seg, data);
      } else {
        assert data[..|data|] == data;
      }
    }
  }

  /** With one segment an operation, decompressing the buffers of a compression leaves exactly the
      original bytes, contiguous, and reports exactly their number. */
  lemma OriginalBytes(codec: Codec, m0: Memory, m1: Memory, m2: Memory, cfg: Settings, input: Slice, zones: seq<Memzone>,
                      buffers: seq<Slice>, output: Slice, size: nat)
    requires codec.Lawful() && cfg.seg > 0 && cfg.sgl == 1 && Within(m0, input)
    requires Segmented(codec, m0, m1, input, cfg.seg, zones, buffers)
    requires forall i :: 0 <= i < |buffers| ==> buffers[i].len < 0x1_0000
    requires Decompressed(codec, m1, m2, cfg, buffers, output, size) && Within(m2, output)
    ensures size == input.len && Within(m2, Slice(output.region, output.start, size))
    ensures Read(m2, Slice(output.region, output.start, size)) == Read(m0, input)
  {
    var data := Read(m0, input);
    var pieces, groups := Chunks(data, cfg.seg), Chunks(ClipAll(buffers), 1);
    ChunksShape(data, cfg.seg);
    ChunksOfOne(ClipAll(buffers));
    forall i | 0 <= i < |pieces|
      ensures InflatedGroup(codec, m1, groups[i]) == pieces[i]
      ensures Holding(m2, Slice(output.region, Skip(output.start, cfg.seg, i), |pieces[i]|), pieces[i])
    {
      PieceBack(codec, m1, m2, cfg, buffers, output, size, pieces[i], i);
    }
    Contiguous(m2, output.region, output.start, data, cfg.seg);
    InflatedWhole(codec, m1, groups, pieces);
  }

  /** Buffer i gives piece i back, one segment size after the piece before it. */
  lemma PieceBack(codec: Codec, m1: Memory, m2: Memory, cfg: Settings, buffers: seq<Slice>, output: Slice, size: nat,
                  piece: seq<byte>, i: nat)
    requires codec.Lawful() && cfg.seg > 0 && cfg.sgl == 1 && i < |buffers| && buffers[i].len < 0x1_0000
    requires 0 < |piece| <= cfg.seg && piece in codec.deflate
    requires Within(m1, buffers[i]) && Read(m1, buffers[i]) == codec.deflate[piece]
    requires Decompressed(codec, m1, m2, cfg, buffers, output, size)
    ensures |Chunks(ClipAll(buffers), 1)| == |buffers| && InflatedGroup(codec, m1, Chunks(ClipAll(buffers), 1)[i]) == piece
    ensures var s := Slice(output.region, Skip(output.start, cfg.seg, i), |piece|); Within(m2, s) && Read(m2, s) == piece
  {
    var strip := Strip(output.region, output.start, cfg.seg, |buffers|);
    var groups := Chunks(ClipAll(buffers), 1);
    ChunksOfOne(ClipAll(buffers));
    ChunksOfOne(strip);
    assert groups[i] == [buffers[i]];
    InflatesBack(codec, m1, buffers[i], piece);
    StripAt(output.region, output.start, cfg.seg, |buffers|, i);
    assert GroupDone(codec, m1, m2, groups[i], [strip[i]]);
    OnePiece(m2, strip[i], piece);
  }

  /** The buffers of a compression with one segment an operation can be decompressed. */
  lemma ResultDecodes(codec: Codec, m0: Memory, m1: Memory, cfg: Settings, input: Slice, zones: seq<Memzone>, buffers: seq<Slice>,
                      output: Slice)
    requires codec.Lawful() && cfg.seg > 0 && cfg.sgl == 1 && Within(m0, input)
    requires Segmented(codec, m0, m1, input, cfg.seg, zones, buffers)
    requires forall i :: 0 <= i < |buffers| ==> buffers[i].len < 0x1_0000
    ensures !Undecodable(codec, m1, cfg, buffers, output)
  {
    var pieces := Chunks(Read(m0, input), cfg.seg);
    ChunksShape(Read(m0, input), cfg.seg);
    forall index: nat, c: nat | index <= |buffers| && c < |DecompressJobs(cfg, buffers, output, index)|
      ensures !Unfit(codec, Decompress, m1, DecompressJobs(cfg, buffers, output, index), c)
    {
      JobsOfOne(cfg, buffers, output, index);
      BufferDecodes(codec, m1, cfg, buffers, output, index, c, pieces[c]);
    }
  }

  lemma JobsOfOne(cfg: Settings, buffers: seq<Slice>, output: Slice, index: nat)
    requires cfg.sgl == 1 && index <= |buffers|
    ensures |DecompressJobs(cfg, buffers, output, index)| == index
  {
    DecompressJobsAre(cfg, buffers, output, index);
    ChunksOfOne(ClipAll(buffers[..index]));
  }

  lemma BufferDecodes(codec: Codec, m1: Memory, cfg: Settings, buffers: seq<Slice>, output: Slice, index: nat, c: nat, piece: seq<byte>)
    requires codec.Lawful() && cfg.seg > 0 && cfg.sgl == 1 && c < index <= |buffers| && buffers[c].len < 0x1_0000
    requires c < |DecompressJobs(cfg, buffers, output, index)| && |piece| <= cfg.seg && piece in codec.deflate
    requires Within(m1, buffers[c]) && Read(m1, buffers[c]) == codec.deflate[piece]
    ensures !Unfit(codec, Decompress, m1, DecompressJobs(cfg, buffers, output, index), c)
  {
    var job := DecompressJobs(cfg, buffers, output, index)[c];
    DecompressJobsAre(cfg, buffers, output, index);
    ChunksOfOne(ClipAll(buffers[..index]));
    ChunksOfOne(Strip(output.region, output.start, cfg.seg, index));
    StripAt(output.region, output.start, cfg.seg, index, c);
    assert job.src == [buffers[c]] && job.dst == [Slice(output.region, Skip(output.start, cfg.seg, c), cfg.seg)];
    GatherOne(m1, buffers[c]);
    assert job.dst[1..] == [] && SumLen(job.dst) == cfg.seg;
  }

  lemma InflatesBack(codec: Codec, m: Memory, buffer: Slice, piece: seq<byte>)
    requires codec.Lawful() && Within(m, buffer) && piece in codec.deflate && Read(m, buffer) == codec.deflate[piece]
    ensures InflatedGroup(codec, m, [buffer]) == piece
  {
    GatherOne(m, buffer);
  }

  lemma OnePiece(m: Memory, stride: Slice, piece: seq<byte>)
    requires 0 < |piece| <= stride.len
    requires AllWithin(m, Pieces([stride], |piece|)) && Gather(m, Pieces([stride], |piece|)) == piece
    ensures Within(m, stride.(len := |piece|)) && Read(m, stride.(len := |piece|)) == piece
  {
    assert Pieces([stride], |piece|) == [stride.(len := |piece|)];
    GatherOne(m, stride.(len := |piece|));
  }

  lemma InflatedWhole(codec: Codec, m: Memory, groups: seq<seq<Slice>>, pieces: seq<seq<byte>>)
    requires |groups| == |pieces| && forall i :: 0 <= i < |groups| ==> InflatedGroup(codec, m, groups[i]) == pieces[i]
    ensures InflatedAll(codec, m, groups) == Flatten(pieces)
  {
    InflatedPieces(codec, m, groups, pieces, |groups|);
    assert groups[..|groups|] == groups && pieces[..|pieces|] == pieces;
  }

  lemma {:induction false} InflatedPieces(codec: Codec, m: Memory, groups: seq<seq<Slice>>, pieces: seq<seq<byte>>, c: nat)
    requires c <= |groups| == |pieces| && forall i :: 0 <= i < |groups| ==> InflatedGroup(codec, m, groups[i]) == pieces[i]
    ensures InflatedAll(codec, m, groups[..c]) == Flatten(pieces[..c])
    decreases c
  {
    if c > 0 {
      InflatedPieces(codec, m, groups, pieces, c - 1);
      assert groups[..c][..c - 1] == groups[..c - 1];
      assert pieces[..c] == pieces[..c - 1] + [pieces[c - 1]];
      FlattenSnoc(pieces[..c - 1], pieces[c - 1]);
    }
  }
}
