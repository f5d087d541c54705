/** One run of jobs through a queue pair, from any schedule of the device: which jobs have been
    assembled, which are outstanding, which have delivered their stream. Both directions of the
    pipeline keep the same invariant. */
module Pipeline {
  import opened Sequences
  import opened HostMemory
  import opened MemoryPool
  import opened Operations
  import opened Ledger

  /** The sources of the jobs still read as they did in m0. */
  ghost predicate Sourced(m0: Memory, m: Memory, jobs: seq<Job>)
  {
    forall i :: 0 <= i < |jobs| ==>
      AllWithin(m0, jobs[i].src) && AllWithin(m, jobs[i].src) && Gather(m, jobs[i].src) == Gather(m0, jobs[i].src)
  }

  /** The first c jobs have delivered their streams. */
  ghost predicate Delivered(codec: Codec, x: Xform, m0: Memory, m: Memory, jobs: seq<Job>, c: nat)
    requires c <= |jobs|
  {
    forall i :: 0 <= i < c ==> AllWithin(m0, jobs[i].src) && DeliveredJob(codec, x, m0, m, jobs[i])
  }

  /** The operations of ids carry, in order, the jobs from number c on. */
  ghost predicate Assigned(table: OpTable, ids: seq<OpId>, jobs: seq<Job>, c: nat, x: Xform)
    requires c + |ids| == |jobs|
  {
    forall i :: 0 <= i < |ids| ==> ids[i] in table && Carries(table[ids[i]], jobs[c + i], x)
  }

  /** Invariant of a run begun in memory m0: of the jobs assembled so far the first c have delivered
      their streams, the others are carried, in order, by the outstanding operations. */
  ghost predicate Running(codec: Codec, x: Xform, m0: Memory, s: Machine, pending: seq<OpId>, jobs: seq<Job>, c: nat)
  {
    && c + |pending| == |jobs|
    && Assigned(s.table, pending, jobs, c, x) && Distinct(pending)
    && Separate(jobs) && AllAddressable(s.mem, jobs) && Sourced(m0, s.mem, jobs)
    && Delivered(codec, x, m0, s.mem, jobs, c)
  }

  /** The first |glitches| outstanding operations have been executed and handed back. */
  ghost predicate Executed(codec: Codec, x: Xform, m0: Memory, s: Machine, pending: seq<OpId>, jobs: seq<Job>, c: nat,
                           glitches: seq<Option<seq<byte>>>)
  {
    && |glitches| <= |pending| && c + |pending| == |jobs|
    && forall i :: 0 <= i < |glitches| ==>
         AllWithin(m0, jobs[c + i].src) && Settled(codec, x, m0, jobs[c + i], glitches[i], pending[i], s)
  }

  /** Some job writes to region r. */
  ghost predicate WritesTo(jobs: seq<Job>, r: Region)
  {
    exists i, k :: 0 <= i < |jobs| && 0 <= k < |jobs[i].dst| && jobs[i].dst[k].region == r
  }

  /** A run writes nowhere but into its jobs' destinations. While compressing, every destination
      buffer of an outstanding operation is on loan from the device. */
  ghost predicate Tidy(x: Xform, m0: Memory, s: Machine, pending: seq<OpId>, jobs: seq<Job>)
  {
    && (forall r :: r in m0 && !WritesTo(jobs, r) ==> r in s.mem && s.mem[r] == m0[r])
    && (x == Compress ==> LendsAll(s.table, pending))
  }

  ghost predicate LendsAll(table: OpTable, ids: seq<OpId>)
  {
    forall i :: 0 <= i < |ids| ==> ids[i] in table && Lent(table[ids[i]].dst) == Slices(table[ids[i]].dst)
  }

  lemma TidyExtends(x: Xform, m0: Memory, s: Machine, s': Machine, pending: seq<OpId>, newOps: seq<OpId>,
                    jobs: seq<Job>, more: seq<Job>)
    requires Tidy(x, m0, s, pending, jobs) && Extends(s.mem, s'.mem)
    requires forall i :: 0 <= i < |pending| ==> pending[i] in s'.table && pending[i] in s.table && s'.table[pending[i]] == s.table[pending[i]]
    requires x == Compress ==> LendsAll(s'.table, newOps)
    ensures Tidy(x, m0, s', pending + newOps, jobs + more)
  {
    forall r | WritesTo(jobs, r)
      ensures WritesTo(jobs + more, r)
    {
      WritesToMore(jobs, more, r);
    }
  }

  lemma WritesToMore(jobs: seq<Job>, more: seq<Job>, r: Region)
    requires WritesTo(jobs, r)
    ensures WritesTo(jobs + more, r)
  {
    var i, k :| 0 <= i < |jobs| && 0 <= k < |jobs[i].dst| && jobs[i].dst[k].region == r;
    assert (jobs + more)[i] == jobs[i];
  }

  lemma TidyExecutes(codec: Codec, x: Xform, m0: Memory, s: Machine, pending: seq<OpId>, jobs: seq<Job>, c: nat,
                     k: nat, glitches: seq<Option<seq<byte>>>)
    requires Tidy(x, m0, s, pending, jobs) && c + |pending| == |jobs| && Assigned(s.table, pending, jobs, c, x)
    requires k <= |pending| && |glitches| == k && Executable(s, pending[..k])
    ensures Tidy(x, m0, ExecuteAll(codec, s, pending[..k], glitches), pending, jobs)
  {
    var ids := pending[..k];
    ExecuteAllTable(codec, s, ids, glitches);
    forall r | r in m0 && !WritesTo(jobs, r)
      ensures ExecuteAll(codec, s, ids, glitches).mem[r] == m0[r]
    {
      WritesElsewhere(x, s, pending, jobs, c, k, r);
      ExecuteAllElsewhere(codec, s, ids, glitches, r);
    }
  }

  /** Operations that carry jobs write where the jobs do. */
  lemma WritesElsewhere(x: Xform, s: Machine, pending: seq<OpId>, jobs: seq<Job>, c: nat, k: nat, r: Region)
    requires c + |pending| == |jobs| && Assigned(s.table, pending, jobs, c, x) && k <= |pending| && !WritesTo(jobs, r)
    ensures forall i, j :: 0 <= i < k && 0 <= j < |s.table[pending[..k][i]].dst| ==> s.table[pending[..k][i]].dst[j].data.region != r
  {
    forall i, j | 0 <= i < k && 0 <= j < |s.table[pending[..k][i]].dst|
      ensures s.table[pending[..k][i]].dst[j].data.region != r
    {
      assert pending[i] == pending[..k][i] && Carries(s.table[pending[i]], jobs[c + i], x);
      assert jobs[c + i].dst[j] == Slices(s.table[pending[i]].dst)[j];
    }
  }

  /** A run never loses a region. */
  lemma RegionsRemain(codec: Codec, x: Xform, m0: Memory, s: Machine, pending: seq<OpId>, jobs: seq<Job>, c: nat)
    requires Running(codec, x, m0, s, pending, jobs, c) && Tidy(x, m0, s, pending, jobs)
    ensures m0.Keys <= s.mem.Keys
  {
    forall r | r in m0
      ensures r in s.mem
    {
      if WritesTo(jobs, r) {
        var i, k :| 0 <= i < |jobs| && 0 <= k < |jobs[i].dst| && jobs[i].dst[k].region == r;
        assert Addressable(s.mem, jobs[i]);
      }
    }
  }

  lemma TidyPops(x: Xform, m0: Memory, s: Machine, pending: seq<OpId>, jobs: seq<Job>, done: nat)
    requires Tidy(x, m0, s, pending, jobs) && done <= |pending|
    ensures Tidy(x, m0, s, pending[done..], jobs)
  {
  }

  // ----- starting and extending a run -----

  lemma RunStarts(codec: Codec, x: Xform, s: Machine)
    ensures Running(codec, x, s.mem, s, [], [], 0)
  {
  }

  /** Memory may grow and operations may be added at the end. */
  lemma RunExtends(codec: Codec, x: Xform, m0: Memory, s: Machine, s': Machine, pending: seq<OpId>, newOps: seq<OpId>,
                   jobs: seq<Job>, more: seq<Job>, c: nat)
    requires Running(codec, x, m0, s, pending, jobs, c)
    requires Extends(s.mem, s'.mem) && Loaded(s'.table, newOps, more, x) && Distinct(pending + newOps)
    requires forall i :: 0 <= i < |pending| ==> pending[i] in s'.table && s'.table[pending[i]] == s.table[pending[i]]
    requires Separate(jobs + more) && AllAddressable(s'.mem, more) && Sourced(m0, s'.mem, more)
    ensures Running(codec, x, m0, s', pending + newOps, jobs + more, c)
  {
    ExtendsKeeps(codec, x, m0, s.mem, s'.mem, jobs, c);
  }

  lemma ExtendsGather(m: Memory, m': Memory, ss: seq<Slice>)
    requires Extends(m, m') && AllWithin(m, ss)
    ensures AllWithin(m', ss) && Gather(m', ss) == Gather(m, ss)
  {
    assert forall i :: 0 <= i < |ss| ==> Within(m, ss[i]);
    GatherSame(m, m', ss);
  }

  lemma ExtendsKeeps(codec: Codec, x: Xform, m0: Memory, m: Memory, m': Memory, jobs: seq<Job>, c: nat)
    requires Extends(m, m') && c <= |jobs| && AllAddressable(m, jobs) && Sourced(m0, m, jobs)
    requires Delivered(codec, x, m0, m, jobs, c)
    ensures AllAddressable(m', jobs) && Sourced(m0, m', jobs) && Delivered(codec, x, m0, m', jobs, c)
  {
    forall i | 0 <= i < |jobs|
      ensures Addressable(m', jobs[i]) && Gather(m', jobs[i].src) == Gather(m0, jobs[i].src)
    {
      assert Addressable(m, jobs[i]);
      ExtendsGather(m, m', jobs[i].src);
      ExtendsGather(m, m', jobs[i].dst);
    }
    forall i | 0 <= i < c
      ensures DeliveredJob(codec, x, m0, m', jobs[i])
    {
      ExtendsGather(m, m', Pieces(jobs[i].dst, |Output(codec, x, m0, jobs[i]).value|));
    }
  }

  // ----- one batch of the device -----

  /** The device executes the first k outstanding operations: the run goes on undisturbed, and each
      of the k has settled. */
  lemma RunExecutes(codec: Codec, x: Xform, m0: Memory, s: Machine, pending: seq<OpId>, jobs: seq<Job>, c: nat,
                    k: nat, glitches: seq<Option<seq<byte>>>)
    requires Running(codec, x, m0, s, pending, jobs, c) && k <= |pending| && |glitches| == k
    requires Executable(s, pending[..k])
    ensures var s' := ExecuteAll(codec, s, pending[..k], glitches);
            && Running(codec, x, m0, s', pending, jobs, c)
            && Executed(codec, x, m0, s', pending, jobs, c, glitches)
  {
    BatchLoaded(s, pending, jobs, c, k, x);
    BatchKeepsRun(codec, x, m0, s, pending, jobs, c, k, glitches);
    BatchSettles(codec, x, m0, s, pending, jobs, c, k, glitches);
  }

  lemma BatchKeepsRun(codec: Codec, x: Xform, m0: Memory, s: Machine, pending: seq<OpId>, jobs: seq<Job>, c: nat,
                      k: nat, glitches: seq<Option<seq<byte>>>)
    requires Running(codec, x, m0, s, pending, jobs, c) && k <= |pending| && |glitches| == k
    requires Executable(s, pending[..k])
    requires Loaded(s.table, pending[..k], jobs[c..c + k], x) && Separate(jobs[c..c + k])
    ensures Running(codec, x, m0, ExecuteAll(codec, s, pending[..k], glitches), pending, jobs, c)
  {
    var ids := pending[..k];
    var s' := ExecuteAll(codec, s, ids, glitches);
    ExecuteAllTable(codec, s, ids, glitches);
    AssignedKept(s.table, s'.table, pending, jobs, c, x);
    forall i | 0 <= i < |jobs|
      ensures Addressable(s'.mem, jobs[i]) && AllWithin(m0, jobs[i].src)
      ensures Gather(s'.mem, jobs[i].src) == Gather(m0, jobs[i].src)
    {
      BatchKeepsSource(codec, x, s, ids, jobs, c, k, glitches, i);
    }
    forall i | 0 <= i < c
      ensures AllWithin(m0, jobs[i].src) && DeliveredJob(codec, x, m0, s'.mem, jobs[i])
    {
      BatchKeepsDelivered(codec, x, m0, s, ids, jobs, c, k, glitches, i);
    }
  }

  lemma BatchSettles(codec: Codec, x: Xform, m0: Memory, s: Machine, pending: seq<OpId>, jobs: seq<Job>, c: nat,
                     k: nat, glitches: seq<Option<seq<byte>>>)
    requires c + |pending| == |jobs| && k <= |pending| && |glitches| == k && Executable(s, pending[..k])
    requires Loaded(s.table, pending[..k], jobs[c..c + k], x) && Distinct(pending[..k])
    requires Separate(jobs[c..c + k]) && AllAddressable(s.mem, jobs[c..c + k]) && Sourced(m0, s.mem, jobs)
    ensures Executed(codec, x, m0, ExecuteAll(codec, s, pending[..k], glitches), pending, jobs, c, glitches)
  {
    var b := jobs[c..c + k];
    forall i | 0 <= i < k
      ensures AllWithin(m0, jobs[c + i].src)
      ensures Settled(codec, x, m0, jobs[c + i], glitches[i], pending[i], ExecuteAll(codec, s, pending[..k], glitches))
    {
      assert b[i] == jobs[c + i] && pending[..k][i] == pending[i];
      ExecuteAllDelivers(codec, s, pending[..k], glitches, b, x, i);
    }
  }

  lemma BatchLoaded(s: Machine, pending: seq<OpId>, jobs: seq<Job>, c: nat, k: nat, x: Xform)
    requires c + |pending| == |jobs| && k <= |pending| && Assigned(s.table, pending, jobs, c, x)
    requires Distinct(pending) && Separate(jobs) && AllAddressable(s.mem, jobs)
    ensures Loaded(s.table, pending[..k], jobs[c..c + k], x) && Distinct(pending[..k])
    ensures Separate(jobs[c..c + k]) && AllAddressable(s.mem, jobs[c..c + k])
  {
    var b := jobs[c..c + k];
    assert forall i :: 0 <= i < k ==> b[i] == jobs[c + i] && pending[..k][i] == pending[i];
  }

  lemma AssignedKept(table: OpTable, table': OpTable, ids: seq<OpId>, jobs: seq<Job>, c: nat, x: Xform)
    requires c + |ids| == |jobs| && Assigned(table, ids, jobs, c, x) && table'.Keys == table.Keys
    requires forall id :: id in table ==>
               table'[id] == table[id].(status := table'[id].status, produced := table'[id].produced)
    ensures Assigned(table', ids, jobs, c, x)
  {
    forall i | 0 <= i < |ids|
      ensures Carries(table'[ids[i]], jobs[c + i], x)
    {
      assert JobOf(table'[ids[i]]) == JobOf(table[ids[i]]);
    }
  }

  lemma BatchKeepsSource(codec: Codec, x: Xform, s: Machine, ids: seq<OpId>, jobs: seq<Job>, c: nat, k: nat,
                         glitches: seq<Option<seq<byte>>>, i: nat)
    requires c + k <= |jobs| && i < |jobs| && Executable(s, ids) && |ids| == k == |glitches|
    requires Loaded(s.table, ids, jobs[c..c + k], x) && Separate(jobs[c..c + k]) && Separate(jobs)
    requires AllAddressable(s.mem, jobs)
    ensures var s' := ExecuteAll(codec, s, ids, glitches);
            && AllWithin(s'.mem, jobs[i].src) && Gather(s'.mem, jobs[i].src) == Gather(s.mem, jobs[i].src)
            && AllWithin(s'.mem, jobs[i].dst)
  {
    var b := jobs[c..c + k];
    forall j | 0 <= j < |b|
      ensures Apart(b[j].dst, jobs[i].src)
    {
      assert b[j] == jobs[c + j];
    }
    assert Addressable(s.mem, jobs[i]);
    ExecuteAllFrame(codec, s, ids, glitches, jobs[c..c + k], x, jobs[i].src);
    ExecuteAllTable(codec, s, ids, glitches);
  }

  lemma BatchKeepsDelivered(codec: Codec, x: Xform, m0: Memory, s: Machine, ids: seq<OpId>, jobs: seq<Job>, c: nat, k: nat,
                            glitches: seq<Option<seq<byte>>>, i: nat)
    requires i < c && c + k <= |jobs| && Executable(s, ids) && |ids| == k == |glitches|
    requires Loaded(s.table, ids, jobs[c..c + k], x) && Separate(jobs[c..c + k]) && Separate(jobs)
    requires Delivered(codec, x, m0, s.mem, jobs, c)
    ensures AllWithin(m0, jobs[i].src) && DeliveredJob(codec, x, m0, ExecuteAll(codec, s, ids, glitches).mem, jobs[i])
  {
    var n := |Output(codec, x, m0, jobs[i]).value|;
    var b := jobs[c..c + k];
    forall j | 0 <= j < |b|
      ensures Apart(b[j].dst, Pieces(jobs[i].dst, n))
    {
      assert b[j] == jobs[c + j];
      PiecesApart(jobs[c + j].dst, jobs[i].dst, n);
    }
    ExecuteAllFrame(codec, s, ids, glitches, jobs[c..c + k], x, Pieces(jobs[i].dst, n));
  }

  // ----- completing one operation -----

  /** Recycling the front operation, if it reports success, moves its job to the delivered ones. */
  lemma RunCompletes(codec: Codec, x: Xform, m0: Memory, s: Machine, pending: seq<OpId>, jobs: seq<Job>, c: nat,
                     glitches: seq<Option<seq<byte>>>)
    requires Running(codec, x, m0, s, pending, jobs, c) && Executed(codec, x, m0, s, pending, jobs, c, glitches)
    requires glitches != [] && s.table[pending[0]].status == Success
    ensures Running(codec, x, m0, s, pending[1..], jobs, c + 1)
    ensures Executed(codec, x, m0, s, pending[1..], jobs, c + 1, glitches[1..])
    ensures AllWithin(m0, jobs[c].src) && Fits(codec, x, m0, jobs[c])
    ensures s.table[pending[0]].produced == |Output(codec, x, m0, jobs[c]).value|
    ensures Slices(s.table[pending[0]].dst) == jobs[c].dst
  {
    assert jobs[c + 0] == jobs[c];
    assert Settled(codec, x, m0, jobs[c], glitches[0], pending[0], s);
    forall i | 0 <= i < |pending[1..]|
      ensures pending[1..][i] in s.table && Carries(s.table[pending[1..][i]], jobs[c + 1 + i], x)
    {
      assert pending[1..][i] == pending[i + 1] && jobs[c + (i + 1)] == jobs[c + 1 + i];
    }
    forall i | 0 <= i < |glitches[1..]|
      ensures AllWithin(m0, jobs[c + 1 + i].src)
      ensures Settled(codec, x, m0, jobs[c + 1 + i], glitches[1..][i], pending[1..][i], s)
    {
      assert jobs[c + 1 + i] == jobs[c + (i + 1)];
    }
  }

  // ----- what a run yields -----

  /** The stream of a job whose source is readable and whose transform succeeds. */
  ghost function Stream(codec: Codec, x: Xform, m0: Memory, job: Job): seq<byte>
  {
    if AllWithin(m0, job.src) && Output(codec, x, m0, job).Some? then Output(codec, x, m0, job).value else []
  }

  /** The buffers Compress reports for the first c jobs: the front of each destination chain. */
  ghost function Harvest(codec: Codec, x: Xform, m0: Memory, jobs: seq<Job>, c: nat): seq<Slice>
    requires c <= |jobs|
  {
    if c == 0 then []
    else Harvest(codec, x, m0, jobs, c - 1) + Pieces(jobs[c - 1].dst, |Stream(codec, x, m0, jobs[c - 1])|)
  }

  /** The streams of the first c jobs, end to end. */
  ghost function Streams(codec: Codec, x: Xform, m0: Memory, jobs: seq<Job>, c: nat): seq<byte>
    requires c <= |jobs|
  {
    if c == 0 then [] else Streams(codec, x, m0, jobs, c - 1) + Stream(codec, x, m0, jobs[c - 1])
  }

  /** Jobs added later do not change what the first c yield. */
  lemma {:induction false} YieldKept(codec: Codec, x: Xform, m0: Memory, jobs: seq<Job>, more: seq<Job>, c: nat)
    requires c <= |jobs|
    ensures Harvest(codec, x, m0, jobs + more, c) == Harvest(codec, x, m0, jobs, c)
    ensures Streams(codec, x, m0, jobs + more, c) == Streams(codec, x, m0, jobs, c)
    decreases c
  {
    if c > 0 {
      YieldKept(codec, x, m0, jobs, more, c - 1);
      assert (jobs + more)[c - 1] == jobs[c - 1];
    }
  }

  lemma ReadsAppend(m: Memory, ss: seq<Slice>, ss': seq<Slice>, bytes: seq<byte>, bytes': seq<byte>)
    requires Reads(m, ss, bytes) && Reads(m, ss', bytes')
    ensures Reads(m, ss + ss', bytes + bytes')
  {
    GatherAppend(m, ss, ss');
  }

  lemma NothingReads(m: Memory)
    ensures Reads(m, [], [])
  {
  }

  /** The reported buffers hold the streams, in order. */
  lemma {:induction false} HarvestReads(codec: Codec, x: Xform, m0: Memory, m: Memory, jobs: seq<Job>, c: nat)
    requires c <= |jobs| && Delivered(codec, x, m0, m, jobs, c)
    ensures Reads(m, Harvest(codec, x, m0, jobs, c), Streams(codec, x, m0, jobs, c))
    decreases c
  {
    hide Reads, Stream, Pieces, DeliveredJob;
    if c == 0 {
      NothingReads(m);
    } else {
      var front := Pieces(jobs[c - 1].dst, |Stream(codec, x, m0, jobs[c - 1])|);
      HarvestReads(codec, x, m0, m, jobs, c - 1);
      DeliveredReads(codec, x, m0, m, jobs[c - 1]);
      ReadsAppend(m, Harvest(codec, x, m0, jobs, c - 1), front, Streams(codec, x, m0, jobs, c - 1), Stream(codec, x, m0, jobs[c - 1]));
    }
  }

  lemma DeliveredReads(codec: Codec, x: Xform, m0: Memory, m: Memory, job: Job)
    requires AllWithin(m0, job.src) && DeliveredJob(codec, x, m0, m, job)
    ensures Reads(m, Pieces(job.dst, |Stream(codec, x, m0, job)|), Stream(codec, x, m0, job))
  {
  }

  // ----- what a batch of completed operations reports -----

  /** A finished operation never claims to have produced more than its destination holds. */
  ghost predicate Sound(table: OpTable, ids: seq<OpId>)
  {
    forall i :: 0 <= i < |ids| ==>
      ids[i] in table && (table[ids[i]].status == Success ==> table[ids[i]].produced <= SumLen(Slices(table[ids[i]].dst)))
  }

  /** Of the batch, the first `done` operations succeeded and, unless that is all, the next did not. */
  ghost predicate Completed(table: OpTable, ids: seq<OpId>, done: nat)
  {
    && done <= |ids| && Known(table, ids)
    && (forall i :: 0 <= i < done ==> table[ids[i]].status == Success)
    && (done < |ids| ==> table[ids[done]].status != Success)
  }

  /** The buffers the callback of Compress reports for completed operations. */
  ghost function Reported(table: OpTable, ids: seq<OpId>): seq<Slice>
    requires Known(table, ids)
  {
    if ids == [] then []
    else
      var op := table[ids[|ids| - 1]];
      Reported(table, ids[..|ids| - 1]) + Pieces(Slices(op.dst), op.produced)
  }

  /** The bytes the callback of Decompress counts for completed operations. */
  ghost function Produced(table: OpTable, ids: seq<OpId>): nat
    requires Known(table, ids)
  {
    if ids == [] then 0 else Produced(table, ids[..|ids| - 1]) + table[ids[|ids| - 1]].produced
  }

  lemma ExecutedSound(codec: Codec, x: Xform, m0: Memory, s: Machine, pending: seq<OpId>, jobs: seq<Job>, c: nat,
                      glitches: seq<Option<seq<byte>>>)
    requires Running(codec, x, m0, s, pending, jobs, c) && Executed(codec, x, m0, s, pending, jobs, c, glitches)
    ensures Sound(s.table, pending[..|glitches|])
  {
    forall i | 0 <= i < |glitches|
      ensures pending[i] in s.table
      ensures s.table[pending[i]].status == Success ==> s.table[pending[i]].produced <= SumLen(Slices(s.table[pending[i]].dst))
    {
      assert Settled(codec, x, m0, jobs[c + i], glitches[i], pending[i], s);
    }
  }

  /** The hardware failed the operation or its stream does not fit. */
  ghost predicate Faulty(codec: Codec, x: Xform, m0: Memory, job: Job, glitch: Option<seq<byte>>)
  {
    glitch.Some? || !AllWithin(m0, job.src) || !Fits(codec, x, m0, job)
  }

  /** Completing the first `done` outstanding operations moves their jobs, up to number c', to the
      delivered ones. */
  lemma {:induction false} RunCompletesAll(codec: Codec, x: Xform, m0: Memory, s: Machine, pending: seq<OpId>, jobs: seq<Job>,
                                           c: nat, glitches: seq<Option<seq<byte>>>, done: nat, c': nat)
    requires Running(codec, x, m0, s, pending, jobs, c) && Executed(codec, x, m0, s, pending, jobs, c, glitches)
    requires done <= |glitches| && forall i :: 0 <= i < done ==> s.table[pending[i]].status == Success
    requires c' == c + done
    ensures Running(codec, x, m0, s, pending[done..], jobs, c')
    decreases done
  {
    if done == 0 {
      assert pending[done..] == pending;
    } else {
      assert pending[1..][done - 1..] == pending[done..];
      RunCompletes(codec, x, m0, s, pending, jobs, c, glitches);
      RunCompletesAll(codec, x, m0, s, pending[1..], jobs, c + 1, glitches[1..], done - 1, c');
    }
  }

  /** The first `done` operations report the destinations and stream lengths of their jobs. */
  ghost predicate ReportsOf(codec: Codec, x: Xform, m0: Memory, table: OpTable, ids: seq<OpId>, jobs: seq<Job>, c: nat, done: nat)
  {
    && done <= |ids| && c + done <= |jobs|
    && forall i :: 0 <= i < done ==> ids[i] in table && ReportOf(codec, x, m0, table[ids[i]], jobs[c + i])
  }

  ghost predicate ReportOf(codec: Codec, x: Xform, m0: Memory, op: Op, job: Job)
  {
    && AllWithin(m0, job.src) && Fits(codec, x, m0, job)
    && op.produced == |Output(codec, x, m0, job).value| && Slices(op.dst) == job.dst
  }

  lemma RunReports(codec: Codec, x: Xform, m0: Memory, s: Machine, pending: seq<OpId>, jobs: seq<Job>, c: nat,
                   glitches: seq<Option<seq<byte>>>, done: nat)
    requires Running(codec, x, m0, s, pending, jobs, c) && Executed(codec, x, m0, s, pending, jobs, c, glitches)
    requires done <= |glitches| && forall i :: 0 <= i < done ==> s.table[pending[i]].status == Success
    ensures ReportsOf(codec, x, m0, s.table, pending, jobs, c, done)
  {
    forall i | 0 <= i < done
      ensures ReportOf(codec, x, m0, s.table[pending[i]], jobs[c + i])
    {
      assert Settled(codec, x, m0, jobs[c + i], glitches[i], pending[i], s);
    }
  }

  /** What the callback records for completed operations is what their jobs yield. */
  lemma {:induction false} ReportsAll(codec: Codec, x: Xform, m0: Memory, table: OpTable, ids: seq<OpId>, jobs: seq<Job>,
                                      c: nat, done: nat, c': nat)
    requires ReportsOf(codec, x, m0, table, ids, jobs, c, done) && c' == c + done
    ensures Known(table, ids[..done])
    ensures Harvest(codec, x, m0, jobs, c') == Harvest(codec, x, m0, jobs, c) + Reported(table, ids[..done])
    ensures |Streams(codec, x, m0, jobs, c')| == |Streams(codec, x, m0, jobs, c)| + Produced(table, ids[..done])
    decreases done
  {
    hide Stream, Output, Fits;
    if done > 0 {
      ReportsAll(codec, x, m0, table, ids, jobs, c, done - 1, c' - 1);
      assert ids[done - 1] in table && ReportOf(codec, x, m0, table[ids[done - 1]], jobs[c' - 1]);
      CompletionReported(codec, x, m0, table, ids, jobs, Harvest(codec, x, m0, jobs, c), |Streams(codec, x, m0, jobs, c)|,
                         c' - 1, done - 1);
    }
  }

  lemma CompletionReported(codec: Codec, x: Xform, m0: Memory, table: OpTable, pending: seq<OpId>, jobs: seq<Job>,
                           harvest: seq<Slice>, size: nat, e: nat, d: nat)
    requires e < |jobs| && d < |pending| && Known(table, pending[..d + 1]) && pending[d] in table
    requires AllWithin(m0, jobs[e].src) && Fits(codec, x, m0, jobs[e])
    requires table[pending[d]].produced == |Output(codec, x, m0, jobs[e]).value|
    requires Slices(table[pending[d]].dst) == jobs[e].dst && Known(table, pending[..d])
    requires Harvest(codec, x, m0, jobs, e) == harvest + Reported(table, pending[..d])
    requires |Streams(codec, x, m0, jobs, e)| == size + Produced(table, pending[..d])
    ensures Harvest(codec, x, m0, jobs, e + 1) == harvest + Reported(table, pending[..d + 1])
    ensures |Streams(codec, x, m0, jobs, e + 1)| == size + Produced(table, pending[..d + 1])
  {
    var op := table[pending[d]];
    CompletionCollected(codec, x, m0, op, jobs, e);
    ReportedOne(table, pending, d);
    ConcatAssociative(harvest, Reported(table, pending[..d]), Pieces(Slices(op.dst), op.produced));
  }

  /** What one completed operation adds to the yield of the run. */
  lemma CompletionCollected(codec: Codec, x: Xform, m0: Memory, op: Op, jobs: seq<Job>, c: nat)
    requires c < |jobs| && AllWithin(m0, jobs[c].src) && Fits(codec, x, m0, jobs[c])
    requires op.produced == |Output(codec, x, m0, jobs[c]).value| && Slices(op.dst) == jobs[c].dst
    ensures Harvest(codec, x, m0, jobs, c + 1) == Harvest(codec, x, m0, jobs, c) + Pieces(Slices(op.dst), op.produced)
    ensures |Streams(codec, x, m0, jobs, c + 1)| == |Streams(codec, x, m0, jobs, c)| + op.produced
  {
  }

  lemma ReportedOne(table: OpTable, ids: seq<OpId>, d: nat)
    requires d < |ids| && Known(table, ids[..d + 1])
    ensures Known(table, ids[..d]) && ids[d] in table
    ensures Reported(table, ids[..d + 1]) == Reported(table, ids[..d]) + Pieces(Slices(table[ids[d]].dst), table[ids[d]].produced)
    ensures Produced(table, ids[..d + 1]) == Produced(table, ids[..d]) + table[ids[d]].produced
  {
    assert ids[..d + 1][d] == ids[d];
    assert forall i :: 0 <= i < d ==> ids[..d][i] == ids[..d + 1][i];
    assert ids[..d + 1][..d] == ids[..d];
  }

  /** Where the loop over a batch stopped, the operation is at fault. */
  lemma StoppedFaulty(codec: Codec, x: Xform, m0: Memory, s: Machine, pending: seq<OpId>, jobs: seq<Job>, c: nat,
                      glitches: seq<Option<seq<byte>>>, i: nat)
    requires Running(codec, x, m0, s, pending, jobs, c) && Executed(codec, x, m0, s, pending, jobs, c, glitches)
    requires i < |glitches| && s.table[pending[i]].status != Success
    ensures c + i < |jobs| && Faulty(codec, x, m0, jobs[c + i], glitches[i])
  {
    assert Settled(codec, x, m0, jobs[c + i], glitches[i], pending[i], s);
  }
}
