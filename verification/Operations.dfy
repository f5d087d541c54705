/** Compression operations as the device driver lays them out (mbuf chains, transform, status),
    the abstract codec, and what the accelerator does to an operation it executes. */
module Operations {
  import opened Sequences
  import opened HostMemory
  import opened MemoryPool

  /** Which of the two shared-info records an mbuf's external buffer is attached through. */
  datatype Shared = DecompressedInfo | CompressedInfo

  datatype Mbuf = Mbuf(id: nat, data: Slice, shinfo: Shared)

  datatype Xform = Unset | Compress | Decompress

  datatype OpStatus = NotProcessed | Success | OutOfSpace | Failed

  /** An operation's memory. Chains are listed from their head; pktLen is the length kept in the
      head mbuf of the chain. */
  datatype Op = Op(src: seq<Mbuf>, srcPktLen: nat, dst: seq<Mbuf>, dstPktLen: nat,
                   srcLength: nat, xform: Xform, produced: nat, status: OpStatus)

  const RESET_OP := Op([], 0, [], 0, 0, Unset, 0, NotProcessed)

  type OpId = nat
  type OpTable = map<OpId, Op>

  /** The hardware codec, two tables known only through the law below; streams that do not inflate
      are missing from the second. */
  datatype Codec = Codec(deflate: imap<seq<byte>, seq<byte>>, inflate: imap<seq<byte>, seq<byte>>)
  {
    /** Everything deflates, to a non-empty stream that inflates to what it was made from. */
    ghost predicate Lawful()
    {
      forall s :: s in deflate && |deflate[s]| >= 1 && deflate[s] in inflate && inflate[deflate[s]] == s
    }
  }

  /** Such codecs exist: storing behind k marker bytes is one. */
  lemma StoringCodec(k: nat) returns (codec: Codec)
    requires k > 0
    ensures codec.Lawful() && forall s :: |codec.deflate[s]| == |s| + k
  {
    var mark := seq(k, _ => 0 as byte);
    codec := Codec(imap s: seq<byte> {:trigger mark + s} :: mark + s, imap s: seq<byte> | |s| >= k :: s[k..]);
    forall s: seq<byte>
      ensures s in codec.deflate && |codec.deflate[s]| == |s| + k
      ensures codec.deflate[s] in codec.inflate && codec.inflate[codec.deflate[s]] == s
    {
      assert (mark + s)[k..] == s;
    }
  }

  /** What an operation moves: source slices into destination slices. */
  datatype Job = Job(src: seq<Slice>, dst: seq<Slice>)

  function Slices(chain: seq<Mbuf>): (r: seq<Slice>)
    ensures |r| == |chain|
  {
    seq(|chain|, i requires 0 <= i < |chain| => chain[i].data)
  }

  function JobOf(op: Op): Job
  {
    Job(Slices(op.src), Slices(op.dst))
  }

  /** The operations named by ids carry out exactly these jobs, each over its whole source. */
  ghost predicate Loaded(table: OpTable, ids: seq<OpId>, jobs: seq<Job>, x: Xform)
  {
    && |ids| == |jobs|
    && forall i :: 0 <= i < |ids| ==> ids[i] in table && Carries(table[ids[i]], jobs[i], x)
  }

  ghost predicate Carries(op: Op, job: Job, x: Xform)
  {
    JobOf(op) == job && op.xform == x && op.srcLength == SumLen(job.src)
  }

  // ----- the accelerator -----

  datatype Machine = Machine(table: OpTable, mem: Memory)

  ghost predicate Addressable(m: Memory, job: Job)
  {
    AllWithin(m, job.src) && AllWithin(m, job.dst)
  }

  ghost predicate Executable(s: Machine, ids: seq<OpId>)
  {
    forall i :: 0 <= i < |ids| ==> ids[i] in s.table && Addressable(s.mem, JobOf(s.table[ids[i]]))
  }

  function Transform(codec: Codec, x: Xform, input: seq<byte>): Option<seq<byte>>
  {
    match x
    case Unset => None
    case Compress => if input in codec.deflate then Some(codec.deflate[input]) else None
    case Decompress => if input in codec.inflate then Some(codec.inflate[input]) else None
  }

  /** What the device reports and writes for one operation. A glitch is a hardware failure: any
      bytes may end up in the destination. */
  function Outcome(codec: Codec, op: Op, mem: Memory, glitch: Option<seq<byte>>): (OpStatus, seq<byte>)
    requires Addressable(mem, JobOf(op))
  {
    if glitch.Some? then (Failed, glitch.value)
    else
      var input := Gather(mem, Slices(op.src));
      match Transform(codec, op.xform, input[..Min(op.srcLength, |input|)])
      case None => (Failed, [])
      case Some(out) => (if |out| <= SumLen(Slices(op.dst)) then Success else OutOfSpace, out)
  }

  function Execute(codec: Codec, s: Machine, id: OpId, glitch: Option<seq<byte>>): (s': Machine)
    requires Executable(s, [id])
    ensures SameShape(s.mem, s'.mem) && s'.table.Keys == s.table.Keys
  {
    assert [id][0] == id;
    var op := s.table[id];
    var (status, out) := Outcome(codec, op, s.mem, glitch);
    var dst := Slices(op.dst);
    var written := out[..Min(|out|, SumLen(dst))];
    Machine(s.table[id := op.(status := status, produced := |written|)], Scatter(s.mem, dst, written))
  }

  lemma ExecutableAfter(codec: Codec, s: Machine, ids: seq<OpId>, glitch: Option<seq<byte>>)
    requires ids != [] && Executable(s, ids)
    ensures Executable(s, [ids[0]])
    ensures Executable(Execute(codec, s, ids[0], glitch), ids[1..])
  {
    var s' := Execute(codec, s, ids[0], glitch);
    forall i | 1 <= i < |ids|
      ensures ids[i] in s'.table && Addressable(s'.mem, JobOf(s'.table[ids[i]]))
    {
      assert JobOf(s'.table[ids[i]]) == JobOf(s.table[ids[i]]);
    }
  }

  /** The device works through its queue in order. */
  function ExecuteAll(codec: Codec, s: Machine, ids: seq<OpId>, glitches: seq<Option<seq<byte>>>): Machine
    requires Executable(s, ids) && |glitches| == |ids|
    decreases |ids|
  {
    if ids == [] then s
    else
      ExecutableAfter(codec, s, ids, glitches[0]);
      ExecuteAll(codec, Execute(codec, s, ids[0], glitches[0]), ids[1..], glitches[1..])
  }

  // ----- batches of jobs -----

  /** No destination slice overlaps another slice of any job. */
  ghost predicate Separate(jobs: seq<Job>)
  {
    && (forall i {:trigger PairwiseDisjoint(jobs[i].dst)} :: 0 <= i < |jobs| ==> PairwiseDisjoint(jobs[i].dst))
    && (forall i, j {:trigger Apart(jobs[i].dst, jobs[j].dst)} ::
          0 <= i < |jobs| && 0 <= j < |jobs| && i != j ==> Apart(jobs[i].dst, jobs[j].dst))
    && (forall i, j {:trigger Apart(jobs[i].dst, jobs[j].src)} ::
          0 <= i < |jobs| && 0 <= j < |jobs| ==> Apart(jobs[i].dst, jobs[j].src))
  }

  ghost predicate AllAddressable(m: Memory, jobs: seq<Job>)
  {
    forall i :: 0 <= i < |jobs| ==> Addressable(m, jobs[i])
  }

  /** The stream a job produces from memory m. */
  ghost function Output(codec: Codec, x: Xform, m: Memory, job: Job): Option<seq<byte>>
    requires AllWithin(m, job.src)
  {
    Transform(codec, x, Gather(m, job.src))
  }

  ghost predicate Fits(codec: Codec, x: Xform, m: Memory, job: Job)
    requires AllWithin(m, job.src)
  {
    Output(codec, x, m, job).Some? && |Output(codec, x, m, job).value| <= SumLen(job.dst)
  }

  /** The job's stream, computed from memory m0, lies at the front of its destination in m. */
  ghost predicate DeliveredJob(codec: Codec, x: Xform, m0: Memory, m: Memory, job: Job)
    requires AllWithin(m0, job.src)
  {
    && Fits(codec, x, m0, job)
    && var out := Output(codec, x, m0, job).value;
       AllWithin(m, Pieces(job.dst, |out|)) && Gather(m, Pieces(job.dst, |out|)) == out
  }

  lemma {:induction false} ExecuteAllTable(codec: Codec, s: Machine, ids: seq<OpId>, glitches: seq<Option<seq<byte>>>)
    requires Executable(s, ids) && |glitches| == |ids|
    ensures var s' := ExecuteAll(codec, s, ids, glitches);
            && s'.table.Keys == s.table.Keys && SameShape(s.mem, s'.mem)
            && (forall id :: id in s.table ==>
                  s'.table[id] == s.table[id].(status := s'.table[id].status, produced := s'.table[id].produced))
            && (forall id :: id in s.table && id !in ids ==> s'.table[id] == s.table[id])
    decreases |ids|
  {
    if ids != [] {
      ExecutableAfter(codec, s, ids, glitches[0]);
      ExecuteAllTable(codec, Execute(codec, s, ids[0], glitches[0]), ids[1..], glitches[1..]);
    }
  }

  lemma LoadedAfter(codec: Codec, s: Machine, ids: seq<OpId>, jobs: seq<Job>, x: Xform, glitch: Option<seq<byte>>)
    requires ids != [] && Executable(s, ids) && Loaded(s.table, ids, jobs, x) && Separate(jobs)
    requires Executable(s, [ids[0]])
    ensures Loaded(Execute(codec, s, ids[0], glitch).table, ids[1..], jobs[1..], x)
    ensures Separate(jobs[1..])
  {
    var s' := Execute(codec, s, ids[0], glitch);
    forall i | 1 <= i < |ids|
      ensures Carries(s'.table[ids[i]], jobs[i], x)
    {
      assert JobOf(s'.table[ids[i]]) == JobOf(s.table[ids[i]]);
    }
  }

  /** Executing a batch changes nothing apart from the batch's destinations. */
  lemma {:induction false} ExecuteAllFrame(codec: Codec, s: Machine, ids: seq<OpId>, glitches: seq<Option<seq<byte>>>,
                                           jobs: seq<Job>, x: Xform, ts: seq<Slice>)
    requires Executable(s, ids) && |glitches| == |ids| && Loaded(s.table, ids, jobs, x) && Separate(jobs)
    requires AllWithin(s.mem, ts) && forall i :: 0 <= i < |jobs| ==> Apart(jobs[i].dst, ts)
    ensures var s' := ExecuteAll(codec, s, ids, glitches);
            AllWithin(s'.mem, ts) && Gather(s'.mem, ts) == Gather(s.mem, ts)
    decreases |ids|
  {
    if ids != [] {
      ExecutableAfter(codec, s, ids, glitches[0]);
      LoadedAfter(codec, s, ids, jobs, x, glitches[0]);
      var op := s.table[ids[0]];
      var out := Outcome(codec, op, s.mem, glitches[0]).1;
      GatherAfterScatter(s.mem, jobs[0].dst, out[..Min(|out|, SumLen(jobs[0].dst))], ts);
      ExecuteAllFrame(codec, Execute(codec, s, ids[0], glitches[0]), ids[1..], glitches[1..], jobs[1..], x, ts);
    }
  }

  /** Regions no job of the batch writes to keep their contents. */
  lemma {:induction false} ExecuteAllElsewhere(codec: Codec, s: Machine, ids: seq<OpId>, glitches: seq<Option<seq<byte>>>, r: Region)
    requires Executable(s, ids) && |glitches| == |ids| && r in s.mem
    requires forall i, k :: 0 <= i < |ids| && 0 <= k < |s.table[ids[i]].dst| ==> s.table[ids[i]].dst[k].data.region != r
    ensures ExecuteAll(codec, s, ids, glitches).mem.Keys == s.mem.Keys
    ensures ExecuteAll(codec, s, ids, glitches).mem[r] == s.mem[r]
    decreases |ids|
  {
    if ids != [] {
      ExecutableAfter(codec, s, ids, glitches[0]);
      var dst := Slices(s.table[ids[0]].dst);
      var out := Outcome(codec, s.table[ids[0]], s.mem, glitches[0]).1;
      assert forall k :: 0 <= k < |dst| ==> dst[k] == s.table[ids[0]].dst[k].data;
      ScatterElsewhere(s.mem, dst, out[..Min(|out|, SumLen(dst))], r);
      ExecuteAllElsewhere(codec, Execute(codec, s, ids[0], glitches[0]), ids[1..], glitches[1..], r);
    }
  }

  /** What an executed operation reports: it succeeds exactly when the hardware did not fail and
      its stream fits, and then the stream is in place. */
  ghost predicate Settled(codec: Codec, x: Xform, m: Memory, job: Job, glitch: Option<seq<byte>>, id: OpId, s': Machine)
    requires AllWithin(m, job.src)
  {
    && id in s'.table
    && (s'.table[id].status == Success <==> glitch == None && Fits(codec, x, m, job))
    && (s'.table[id].status == Success ==>
          && s'.table[id].produced == |Output(codec, x, m, job).value|
          && DeliveredJob(codec, x, m, s'.mem, job))
  }

  lemma ExecuteDelivers(codec: Codec, s: Machine, id: OpId, glitch: Option<seq<byte>>, job: Job, x: Xform)
    requires Executable(s, [id]) && id in s.table && Carries(s.table[id], job, x)
    requires Addressable(s.mem, job) && PairwiseDisjoint(job.dst)
    ensures Settled(codec, x, s.mem, job, glitch, id, Execute(codec, s, id, glitch))
  {
    var input := Gather(s.mem, job.src);
    assert input[..Min(SumLen(job.src), |input|)] == input;
    if glitch == None && Fits(codec, x, s.mem, job) {
      var out := Output(codec, x, s.mem, job).value;
      assert out[..|out|] == out;
      GatherScattered(s.mem, job.dst, out);
    }
  }

  /** Every operation of a batch that reports success has delivered its stream, whatever ran
      before and after it in the batch. */
  lemma {:induction false} ExecuteAllDelivers(codec: Codec, s: Machine, ids: seq<OpId>, glitches: seq<Option<seq<byte>>>,
                                              jobs: seq<Job>, x: Xform, i: nat)
    requires Executable(s, ids) && |glitches| == |ids| && Distinct(ids)
    requires Loaded(s.table, ids, jobs, x) && Separate(jobs) && AllAddressable(s.mem, jobs)
    requires i < |ids|
    ensures Settled(codec, x, s.mem, jobs[i], glitches[i], ids[i], ExecuteAll(codec, s, ids, glitches))
    decreases |ids|
  {
    ExecutableAfter(codec, s, ids, glitches[0]);
    LoadedAfter(codec, s, ids, jobs, x, glitches[0]);
    var s1 := Execute(codec, s, ids[0], glitches[0]);
    if i == 0 {
      ExecuteDelivers(codec, s, ids[0], glitches[0], jobs[0], x);
      SettledStays(codec, s, s1, ids, glitches, jobs, x);
    } else {
      ExecuteAllDelivers(codec, s1, ids[1..], glitches[1..], jobs[1..], x, i - 1);
      FirstKeepsSource(codec, s, ids[0], glitches[0], jobs, x, i);
    }
  }

  /** The rest of a batch does not disturb what its first operation delivered. */
  lemma SettledStays(codec: Codec, s: Machine, s1: Machine, ids: seq<OpId>, glitches: seq<Option<seq<byte>>>,
                     jobs: seq<Job>, x: Xform)
    requires ids != [] && |glitches| == |ids| && Distinct(ids) && |jobs| == |ids|
    requires Executable(s1, ids[1..]) && Loaded(s1.table, ids[1..], jobs[1..], x) && Separate(jobs)
    requires AllWithin(s.mem, jobs[0].src) && Settled(codec, x, s.mem, jobs[0], glitches[0], ids[0], s1)
    ensures Settled(codec, x, s.mem, jobs[0], glitches[0], ids[0], ExecuteAll(codec, s1, ids[1..], glitches[1..]))
  {
    ExecuteAllTable(codec, s1, ids[1..], glitches[1..]);
    assert s1.table[ids[0]].status == Success ==> Fits(codec, x, s.mem, jobs[0]);
    if s1.table[ids[0]].status == Success {
      var n := |Output(codec, x, s.mem, jobs[0]).value|;
      forall j | 0 <= j < |jobs[1..]|
        ensures Apart(jobs[1..][j].dst, Pieces(jobs[0].dst, n))
      {
        assert Apart(jobs[j + 1].dst, jobs[0].dst);
        PiecesApart(jobs[j + 1].dst, jobs[0].dst, n);
      }
      SeparateTail(jobs);
      ExecuteAllFrame(codec, s1, ids[1..], glitches[1..], jobs[1..], x, Pieces(jobs[0].dst, n));
    }
  }

  lemma SeparateTail(jobs: seq<Job>)
    requires jobs != [] && Separate(jobs)
    ensures Separate(jobs[1..])
  {
  }

  lemma FirstKeepsSource(codec: Codec, s: Machine, id: OpId, glitch: Option<seq<byte>>, jobs: seq<Job>, x: Xform, i: nat)
    requires Executable(s, [id]) && id in s.table && i < |jobs| && Carries(s.table[id], jobs[0], x)
    requires Separate(jobs) && AllAddressable(s.mem, jobs)
    ensures AllWithin(Execute(codec, s, id, glitch).mem, jobs[i].src)
    ensures Gather(Execute(codec, s, id, glitch).mem, jobs[i].src) == Gather(s.mem, jobs[i].src)
  {
    var out := Outcome(codec, s.table[id], s.mem, glitch).1;
    GatherAfterScatter(s.mem, jobs[0].dst, out[..Min(|out|, SumLen(jobs[0].dst))], jobs[i].src);
  }
}
