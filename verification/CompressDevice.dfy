/** The compress device: its initialisation, enqueueing and dequeueing bursts for one queue pair, and
    the two drivers built on them. In the loops of the drivers `past` is what the device had been
    through at the start of the call. */
module CompressDevice {
  import opened Sequences
  import opened HostMemory
  import opened MemoryPool
  import opened ZoneStack
  import opened DeviceMemory
  import opened Operations
  import opened PoolSizing
  import opened Accelerator
  import opened Ledger
  import opened Config
  import opened Assembly
  import opened QueuePairMemory
  import opened Pipeline
  import opened Plans
  import opened Reclaim
  import opened Results
  import opened Unpacking
  import opened RoundTrip

  const NUM_IGNORED_MAYBE_NOT_OK_BURST := 10

  /** The dequeue callbacks with the variables they capture: Compress collects result buffers,
      Decompress adds up the bytes produced. */
  class Collector {
    const x: Xform
    var buffers: seq<Slice>
    var size: nat

    constructor (x: Xform)
      ensures this.x == x && buffers == [] && size == 0
    {
      this.x, buffers, size := x, [], 0;
    }

    method OnDequeue(op: Op)
      requires op.produced <= SumLen(Slices(op.dst))
      modifies this
      ensures size == Counted(x, op, old(size)) && buffers == Listed(x, op, old(buffers))
    {
      match x {
        case Unset =>
        case Decompress =>
          size := size + op.produced;
        case Compress =>
          CollectChain(op.dst, op.produced);
      }
    }

    /** One result buffer per destination segment that received data. */
    method CollectChain(chain: seq<Mbuf>, produced: nat)
      requires produced <= SumLen(Slices(chain))
      modifies this`buffers
      ensures buffers == old(buffers) + Pieces(Slices(chain), produced)
    {
      var dst := chain;
      var remaining := produced;
      while remaining > 0
        invariant 0 <= remaining <= SumLen(Slices(dst))
        invariant buffers + Pieces(Slices(dst), remaining) == old(buffers) + Pieces(Slices(chain), produced)
        decreases |dst|
      {
        PiecesOfChain(dst, remaining);
        var dataLen := Min(dst[0].data.len, remaining);
        buffers := buffers + [dst[0].data.(len := dataLen)];
        remaining := remaining - dataLen;
        dst := dst[1..];
      }
    }
  }

  /** Result buffers after a completed operation. */
  function Listed(x: Xform, op: Op, buffers: seq<Slice>): seq<Slice>
  {
    if x == Compress then buffers + Pieces(Slices(op.dst), op.produced) else buffers
  }

  /** Bytes counted after a completed operation. */
  function Counted(x: Xform, op: Op, size: nat): nat
  {
    if x == Decompress then size + op.produced else size
  }

  lemma PiecesOfChain(chain: seq<Mbuf>, n: nat)
    requires 0 < n <= SumLen(Slices(chain))
    ensures chain != []
    ensures var k := Min(chain[0].data.len, n);
            && Pieces(Slices(chain), n) == [chain[0].data.(len := k)] + Pieces(Slices(chain[1..]), n - k)
            && n - k <= SumLen(Slices(chain[1..]))
  {
    assert Slices(chain)[1..] == Slices(chain[1..]);
  }

  /** The device's reports so far are those of the first c jobs. */
  ghost predicate Collected(k: Collector, codec: Codec, m0: Memory, jobs: seq<Job>, c: nat)
    requires c <= |jobs|
    reads k
  {
    && (k.x == Compress ==> k.buffers == Harvest(codec, k.x, m0, jobs, c))
    && (k.x == Decompress ==> k.size == |Streams(codec, k.x, m0, jobs, c)|)
  }

  /** A run in progress on this queue pair: the first c of its jobs have delivered and been reported. */
  ghost predicate Rolling(memory: QueuePairMemory, queue: HardwareQueue, k: Collector, m0: Memory, jobs: seq<Job>, c: nat)
    reads memory, memory.operations, memory.pool, queue, queue.pool, queue.host, k
  {
    && memory.Valid()
    && Running(queue.codec, k.x, m0, queue.State(), memory.pending, jobs, c)
    && Tidy(k.x, m0, queue.State(), memory.pending, jobs)
    && Collected(k, queue.codec, m0, jobs, c)
  }

  /** The hardware queue serves this queue pair. */
  ghost predicate Paired(memory: QueuePairMemory, queue: HardwareQueue)
  {
    queue.pool == memory.pool && queue.host == memory.device.pool.host
  }

  /** Driver and device agree: outstanding are, in this order, the operations inside the device and
      the staged ones. */
  ghost predicate InStep(memory: QueuePairMemory, queue: HardwareQueue)
    reads memory, memory.operations, memory.pool, queue
  {
    && memory.Valid() && |queue.inflight| <= MAX_INFLIGHT_OPS
    && Outstanding(memory, queue.inflight)
  }

  ghost predicate Outstanding(memory: QueuePairMemory, inflight: seq<OpId>)
    reads memory
  {
    inflight <= memory.pending && |inflight| + memory.numOpsAssembled == |memory.pending|
  }

  /** Spelled out: the outstanding operations are those inside the device followed by those in the
      front of the array. */
  lemma OutstandingIsInflightThenStaged(memory: QueuePairMemory, queue: HardwareQueue)
    requires InStep(memory, queue)
    ensures memory.pending == queue.inflight + memory.operations[..memory.numOpsAssembled]
  {
    forall i | |queue.inflight| <= i < |memory.pending|
      ensures memory.pending[i] == memory.operations[i - |queue.inflight|]
    {
      assert memory.operations[..][i - |queue.inflight|] == memory.pending[i];
    }
  }

  /** Bursts leave the device's zones alone; memory contents do not matter to them. */
  twostate lemma DeviceUntouched(device: DeviceMemory)
    requires old(device.Valid()) && unchanged(device, device.pool, device.pool.tracker)
    requires SameShape(old(device.pool.host.bytes), device.pool.host.bytes)
    ensures device.Valid()
  {
  }

  /** Execution touches no chain, so the accounts stay balanced. */
  lemma BalancedExecuted(t: Totals, table: OpTable, table': OpTable, free: set<OpId>, pending: seq<OpId>,
                         numFree: nat, refD: int, refC: int)
    requires Balanced(t, table, free, pending, numFree, refD, refC) && table'.Keys == table.Keys
    requires forall id :: id in table ==>
               table'[id] == table[id].(status := table'[id].status, produced := table'[id].produced)
    ensures Balanced(t, table', free, pending, numFree, refD, refC)
    ensures LentTo(table', pending) == LentTo(table, pending)
  {
    BooksSame(table, table', pending, DecompressedInfo);
    BooksSame(table, table', pending, CompressedInfo);
    LentToSame(table, table', pending);
  }

  datatype DeviceState = Undefined | Configured | Started

  class CompressDevice {
    var state: DeviceState
    const configuration: Settings
    const qpMemory: seq<QueuePairMemory>
    /** The device's side of each queue pair. */
    const queues: seq<HardwareQueue>
    /** The counter of GetErrorCount, a static variable that all devices share. Here every device has
        its own; nothing below depends on its value. */
    var numMaybeNotOk: nat

    constructor (configuration: Settings, qpMemory: seq<QueuePairMemory>, queues: seq<HardwareQueue>)
      ensures state == Undefined && this.configuration == configuration && this.qpMemory == qpMemory && this.queues == queues
      ensures numMaybeNotOk == 0
    {
      state, this.configuration, this.qpMemory, this.queues, numMaybeNotOk := Undefined, configuration, qpMemory, queues, 0;
    }

    /** After a burst that moved this many operations: apart from it the idle bursts in a row have all been
        counted. */
    ghost predicate Alert(queue: HardwareQueue, moved: nat)
      reads this`numMaybeNotOk, queue
    {
      && queue.muted <= (if moved == 0 && queue.Erring() then numMaybeNotOk % NUM_IGNORED_MAYBE_NOT_OK_BURST + 1 else 0)
      && (queue.longest < NUM_IGNORED_MAYBE_NOT_OK_BURST || queue.longest == queue.muted)
    }

    /** The idle bursts in a row on a device with errors have been counted, and are fewer than ten. */
    ghost predicate Attentive(queue: HardwareQueue)
      reads this`numMaybeNotOk, queue
    {
      && queue.muted <= numMaybeNotOk % NUM_IGNORED_MAYBE_NOT_OK_BURST
      && queue.longest < NUM_IGNORED_MAYBE_NOT_OK_BURST
    }

    /** An error-free run so far: since `past` the device has finished c operations, no reservation has
        been refused, and no ten bursts in a row were idle while the device showed errors. */
    ghost predicate Heeds(queue: HardwareQueue, past: Past, c: nat)
      reads this`numMaybeNotOk, queue, queue.host
    {
      && past.failures <= queue.failures && queue.executed == past.executed + c && queue.host.refusals == past.refusals
      && Attentive(queue)
    }

    /** Configure the device, set up its queue pairs and start it. */
    method BringUp(numQps: nat, refusals: Refusals) returns (status: Status)
      requires state == Undefined
      modifies this`state
      ensures status == OK || status == Invalid
      ensures state == if refusals.configure then Undefined else if status == OK then Started else Configured
      ensures status == OK <==> !refusals.configure && !refusals.start && forall q :: 0 <= q < numQps ==> q !in refusals.queuePairs
    {
      if refusals.configure {
        return Invalid;
      }
      state := Configured;
      for qpId := 0 to numQps
        invariant state == Configured && forall q :: 0 <= q < qpId ==> q !in refusals.queuePairs
      {
        if qpId in refusals.queuePairs {
          return Invalid;
        }
      }
      if refusals.start {
        return Invalid;
      }
      state := Started;
      return OK;
    }

    /** Look at the device's error statistics on every tenth burst in a row that moved nothing. */
    method GetErrorCount(numBurstedOps: nat, queue: HardwareQueue) returns (errors: nat)
      modifies this`numMaybeNotOk
      ensures errors > 0 <==>
                && numBurstedOps == 0 && (old(numMaybeNotOk) + 1) % 10 == 0
                && (queue.enqueueErrCount > 0 || queue.dequeueErrCount > 0)
      ensures errors > 0 ==> errors == if queue.enqueueErrCount > 0 then queue.enqueueErrCount else queue.dequeueErrCount
      ensures numMaybeNotOk ==
              if numBurstedOps > 0 || (errors == 0 && (old(numMaybeNotOk) + 1) % 10 == 0)
              then 0 else old(numMaybeNotOk) + 1
      ensures old(Alert(queue, numBurstedOps)) && errors == 0 ==> Attentive(queue)
    {
      if numBurstedOps > 0 {
        numMaybeNotOk := 0;
        return 0;
      }
      numMaybeNotOk := numMaybeNotOk + 1;
      if numMaybeNotOk % NUM_IGNORED_MAYBE_NOT_OK_BURST != 0 {
        return 0;
      }
      if queue.enqueueErrCount > 0 {
        return queue.enqueueErrCount;
      }
      if queue.dequeueErrCount > 0 {
        return queue.dequeueErrCount;
      }
      numMaybeNotOk := 0;
      return 0;
    }

    /** Offer the staged operations to the device. It fails exactly when this was another tenth idle burst
        and the device shows errors. */
    method EnqueueBurst(memory: QueuePairMemory, queue: HardwareQueue, numOpsAssembled: nat) returns (status: Status)
      requires Paired(memory, queue) && InStep(memory, queue) && numOpsAssembled == memory.numOpsAssembled
      modifies this`numMaybeNotOk, queue, memory`numOpsAssembled, memory.operations
      ensures status == OK || status == IOError
      ensures memory.Valid() && memory.numOpsAssembled <= old(memory.numOpsAssembled)
      ensures status == OK ==> InStep(memory, queue)
      ensures status == IOError <==>
                && queue.inflight == old(queue.inflight) && queue.Erring()
                && (old(numMaybeNotOk) + 1) % 10 == 0
      ensures old(Attentive(queue)) ==> if status == OK then Attentive(queue) else queue.longest <= 10
      ensures queue.failures == old(queue.failures) && queue.executed == old(queue.executed)
      ensures status == OK && memory.numOpsAssembled == old(memory.numOpsAssembled) > 0 ==>
                && queue.inflight == old(queue.inflight)
                && (|queue.inflight| < MAX_INFLIGHT_OPS ==> queue.stalls < old(queue.stalls))
      ensures queue.stalls <= old(queue.stalls)
    {
      var numEnqueued := queue.EnqueueBurst(memory.operations, numOpsAssembled);
      var errors := GetErrorCount(numEnqueued, queue);
      if errors > 0 {
        return IOError;
      }
      ghost var ops := memory.operations[..];
      var numUnused := numOpsAssembled - numEnqueued;
      status := memory.AccumulateUnused(numUnused);
      assert status == OK;
      SentGrows(memory.pending, old(queue.inflight), ops, numOpsAssembled, numEnqueued);
    }

    /** Ask the device for completed operations: the oldest outstanding ones come back, in order, in
        the dequeue half of the array. */
    method PollDevice(memory: QueuePairMemory, queue: HardwareQueue)
        returns (returned: nat, ghost glitches: seq<Option<seq<byte>>>)
      requires Paired(memory, queue) && memory.Shaped() && memory.Staged() && memory.cfg.burst <= memory.totals.ops
      requires queue.Valid() && Outstanding(memory, queue.inflight)
      modifies queue, memory.operations, queue.host`bytes, memory.pool`table
      ensures memory.Staged() && Outstanding(memory, old(queue.inflight))
      ensures returned == |glitches| && memory.numOpsAssembled + returned <= |memory.pending|
      ensures memory.cfg.burst + returned <= memory.operations.Length
      ensures memory.operations[memory.cfg.burst..memory.cfg.burst + returned] == memory.pending[..returned]
      ensures memory.operations[..memory.cfg.burst] == old(memory.operations[..memory.cfg.burst])
      ensures returned <= |old(queue.inflight)| && queue.inflight == old(queue.inflight)[returned..]
      ensures Executable(old(queue.State()), memory.pending[..returned])
      ensures queue.State() == ExecuteAll(queue.codec, old(queue.State()), memory.pending[..returned], glitches)
      ensures queue.stalls <= old(queue.stalls) && (returned == 0 && queue.inflight != [] ==> queue.stalls < old(queue.stalls))
      ensures queue.failures >= old(queue.failures)
      ensures queue.failures == old(queue.failures) ==> forall i :: 0 <= i < returned ==> glitches[i] == None
      ensures queue.executed == old(queue.executed) + returned && (old(Attentive(queue)) ==> Alert(queue, returned))
    {
      returned, glitches := queue.DequeueBurst(memory.operations, memory.cfg.burst, memory.cfg.burst);
      SentPops(memory.pending, old(queue.inflight), returned);
      StagedStill(memory.pending, old(memory.operations[..]), memory.operations[..], memory.cfg.burst, memory.numOpsAssembled);
    }

    /** The device hands back a batch: the run goes on, and each operation that came back has settled. */
    method ReceiveBurst(memory: QueuePairMemory, queue: HardwareQueue, ghost x: Xform, ghost m0: Memory, ghost jobs: seq<Job>, ghost c: nat)
        returns (returned: nat, ghost glitches: seq<Option<seq<byte>>>)
      requires Paired(memory, queue) && InStep(memory, queue) && memory.cfg.burst <= memory.totals.ops
      requires Running(queue.codec, x, m0, queue.State(), memory.pending, jobs, c)
      requires Tidy(x, m0, queue.State(), memory.pending, jobs)
      modifies queue, memory.operations, queue.host`bytes, memory.pool`table
      ensures memory.Valid() && Outstanding(memory, old(queue.inflight))
      ensures returned == |glitches| && memory.numOpsAssembled + returned <= |memory.pending|
      ensures memory.cfg.burst + returned <= memory.operations.Length
      ensures memory.operations[memory.cfg.burst..memory.cfg.burst + returned] == memory.pending[..returned]
      ensures returned <= |old(queue.inflight)| && queue.inflight == old(queue.inflight)[returned..]
      ensures Running(queue.codec, x, m0, queue.State(), memory.pending, jobs, c)
      ensures Executed(queue.codec, x, m0, queue.State(), memory.pending, jobs, c, glitches)
      ensures Tidy(x, m0, queue.State(), memory.pending, jobs)
      ensures queue.stalls <= old(queue.stalls) && (returned == 0 && queue.inflight != [] ==> queue.stalls < old(queue.stalls))
      ensures queue.failures >= old(queue.failures)
      ensures queue.failures == old(queue.failures) ==> forall i :: 0 <= i < returned ==> glitches[i] == None
      ensures queue.executed == old(queue.executed) + returned && (old(Attentive(queue)) ==> Alert(queue, returned))
      ensures SameShape(old(queue.host.bytes), queue.host.bytes)
    {
      InflightExecutable(queue.codec, x, m0, queue.State(), memory.pending, queue.inflight, jobs, c);
      returned, glitches := PollDevice(memory, queue);
      BatchExecuted(queue.codec, x, m0, old(queue.State()), memory.pending, jobs, c, returned, glitches, memory.totals,
                    memory.pool.free, |memory.mbufPool|, memory.refDecompressed, memory.refCompressed);
    }

    /** While a batch is being completed: the operations `gone`, which were the oldest, succeeded, have
        been recorded and are recycled. */
    ghost predicate Completing(memory: QueuePairMemory, collector: Collector, all: seq<OpId>, gone: seq<OpId>,
                               buffers: seq<Slice>, size: nat)
      reads memory, memory.operations, memory.pool, collector
    {
      && memory.Valid() && gone + memory.pending == all && Known(memory.pool.table, gone)
      && (forall i :: 0 <= i < |gone| ==> memory.pool.table[gone[i]].status == Success)
      && Recorded(collector.x, memory.pool.table, gone, buffers, size, collector.buffers, collector.size)
    }

    /** Report one completed operation and recycle it. */
    method CompleteOne(memory: QueuePairMemory, id: OpId, collector: Collector, ghost all: seq<OpId>, ghost gone: seq<OpId>,
                       ghost buffers: seq<Slice>, ghost size: nat)
      requires Completing(memory, collector, all, gone, buffers, size)
      requires memory.numOpsAssembled < |memory.pending| && id == memory.pending[0]
      requires var op := memory.pool.table[id]; op.status == Success && op.produced <= SumLen(Slices(op.dst))
      modifies collector, memory`pending, memory`mbufPool, memory`refDecompressed, memory`refCompressed, memory.pool`free
      ensures Completing(memory, collector, all, gone + [id], buffers, size)
      ensures |memory.pending| == |old(memory.pending)| - 1
    {
      RecordedOne(collector.x, memory.pool.table, gone, id, buffers, size, collector.buffers, collector.size);
      MoveOver(gone, memory.pending);
      collector.OnDequeue(memory.pool.table[id]);
      var status := memory.RecycleResources(id);
      assert status == OK;
    }

    /** The loop over the dequeued operations, operations[base..base + returned]: report and recycle
        each, stopping at the first that did not succeed. They are the oldest outstanding ones, in
        order, so recycling cannot refuse one. */
    method CompleteAll(memory: QueuePairMemory, base: nat, returned: nat, collector: Collector)
        returns (status: Status, ghost done: nat)
      requires memory.Valid() && memory.numOpsAssembled + returned <= |memory.pending| && base + returned <= memory.operations.Length
      requires memory.operations[base..base + returned] == memory.pending[..returned]
      requires Sound(memory.pool.table, memory.pending[..returned])
      modifies collector, memory`pending, memory`mbufPool, memory`refDecompressed, memory`refCompressed, memory.pool`free
      ensures done <= returned && memory.Valid() && memory.pending == old(memory.pending)[done..]
      ensures Completed(memory.pool.table, old(memory.pending)[..returned], done)
      ensures status == if done == returned then OK else IOError
      ensures Known(memory.pool.table, old(memory.pending)[..done])
      ensures Recorded(collector.x, memory.pool.table, old(memory.pending)[..done], old(collector.buffers), old(collector.size),
                       collector.buffers, collector.size)
    {
      hide Balanced;
      ghost var all, gone: seq<OpId> := memory.pending, [];
      ghost var handles := memory.operations[base..base + returned];
      assert [] + all == all;
      var idx := 0;
      while idx < returned
        invariant |gone| == idx <= returned && |memory.pending| == |all| - idx
        invariant Completing(memory, collector, all, gone, old(collector.buffers), old(collector.size))
      {
        var currentOp := memory.operations[base + idx];
        NextHandle(memory.operations[..], handles, base, all, gone, memory.pending, returned);
        var op := memory.pool.table[currentOp];
        if op.status != Success {
          break;
        }
        CompleteOne(memory, currentOp, collector, all, gone, old(collector.buffers), old(collector.size));
        gone := gone + [currentOp];
        idx := idx + 1;
      }
      done := idx;
      BatchDone(memory.pool.table, all, gone, memory.pending, returned);
      status := if idx < returned then IOError else OK;
    }

    /** Complete a batch that came back and settle the books of the run. */
    method CompleteBatch(memory: QueuePairMemory, queue: HardwareQueue, returned: nat, collector: Collector,
                         ghost m0: Memory, ghost jobs: seq<Job>, ghost c: nat, ghost glitches: seq<Option<seq<byte>>>,
                         ghost sent: seq<OpId>)
        returns (status: Status, ghost c': nat)
      requires Paired(memory, queue) && memory.Valid() && Outstanding(memory, sent) && returned <= |sent|
      requires memory.numOpsAssembled + returned <= |memory.pending|
      requires memory.cfg.burst + returned <= memory.operations.Length && returned == |glitches|
      requires memory.operations[memory.cfg.burst..memory.cfg.burst + returned] == memory.pending[..returned]
      requires Running(queue.codec, collector.x, m0, queue.State(), memory.pending, jobs, c)
      requires Executed(queue.codec, collector.x, m0, queue.State(), memory.pending, jobs, c, glitches)
      requires Tidy(collector.x, m0, queue.State(), memory.pending, jobs)
      requires Collected(collector, queue.codec, m0, jobs, c)
      modifies collector, memory`pending, memory`mbufPool, memory`refDecompressed, memory`refCompressed, memory.pool`free
      ensures status == OK || status == IOError
      ensures memory.Valid() && c <= c' && (status == OK ==> c' == c + returned && Outstanding(memory, sent[returned..]))
      ensures Running(queue.codec, collector.x, m0, queue.State(), memory.pending, jobs, c')
      ensures Tidy(collector.x, m0, queue.State(), memory.pending, jobs)
      ensures Collected(collector, queue.codec, m0, jobs, c')
      ensures status == IOError ==> c' < c + returned && Blamed(queue.codec, collector.x, m0, jobs, c', glitches)
    {
      hide Running, Tidy, Balanced, Harvest, Streams;
      ExecutedSound(queue.codec, collector.x, m0, queue.State(), memory.pending, jobs, c, glitches);
      ghost var done;
      status, done := CompleteAll(memory, memory.cfg.burst, returned, collector);
      c' := c + done;
      BatchCompleted(queue.codec, collector.x, m0, queue.State(), old(memory.pending), jobs, c, glitches, done, c');
      SentPops(old(memory.pending), sent, done);
    }

    /** Check for device errors, then complete what came back. */
    method FinishBurst(memory: QueuePairMemory, queue: HardwareQueue, returned: nat, collector: Collector,
                       ghost m0: Memory, ghost jobs: seq<Job>, ghost c: nat, ghost glitches: seq<Option<seq<byte>>>,
                       ghost sent: seq<OpId>)
        returns (status: Status, ghost c': nat)
      requires Paired(memory, queue) && memory.Valid() && Outstanding(memory, sent) && returned <= |sent|
      requires memory.numOpsAssembled + returned <= |memory.pending|
      requires memory.cfg.burst + returned <= memory.operations.Length && returned == |glitches|
      requires memory.operations[memory.cfg.burst..memory.cfg.burst + returned] == memory.pending[..returned]
      requires Running(queue.codec, collector.x, m0, queue.State(), memory.pending, jobs, c)
      requires Executed(queue.codec, collector.x, m0, queue.State(), memory.pending, jobs, c, glitches)
      requires Tidy(collector.x, m0, queue.State(), memory.pending, jobs)
      requires Collected(collector, queue.codec, m0, jobs, c)
      modifies this`numMaybeNotOk, collector, memory`pending, memory`mbufPool, memory`refDecompressed, memory`refCompressed,
               memory.pool`free
      ensures status == OK || status == IOError
      ensures memory.Valid() && c <= c' && (status == OK ==> c' == c + returned && Outstanding(memory, sent[returned..]))
      ensures Running(queue.codec, collector.x, m0, queue.State(), memory.pending, jobs, c')
      ensures Tidy(collector.x, m0, queue.State(), memory.pending, jobs)
      ensures Collected(collector, queue.codec, m0, jobs, c')
      ensures status == IOError <==>
                || (returned == 0 && queue.Erring() && (old(numMaybeNotOk) + 1) % NUM_IGNORED_MAYBE_NOT_OK_BURST == 0)
                || c' - c < returned
      ensures c' - c < returned ==> Blamed(queue.codec, collector.x, m0, jobs, c', glitches)
      ensures old(Alert(queue, returned)) && status == OK ==> Attentive(queue)
    {
      c' := c;
      var errors := GetErrorCount(returned, queue);
      if errors > 0 {
        return IOError, c';
      }
      status, c' := CompleteBatch(memory, queue, returned, collector, m0, jobs, c, glitches, sent);
    }

    /** Get completed operations back from the device. It fails exactly when this was another tenth idle
        burst and the device shows errors, or when not all that came back had succeeded. */
    method DequeueBurst(memory: QueuePairMemory, queue: HardwareQueue, collector: Collector, ghost m0: Memory,
                        ghost jobs: seq<Job>, ghost c: nat, ghost past: Past) returns (status: Status, ghost c': nat)
      requires Heeds(queue, past, c)
      requires Paired(memory, queue) && InStep(memory, queue) && memory.cfg.burst <= memory.totals.ops
      requires Rolling(memory, queue, collector, m0, jobs, c)
      modifies this`numMaybeNotOk, queue, memory.operations, queue.host`bytes, memory.pool, collector, memory`pending,
               memory`mbufPool, memory`refDecompressed, memory`refCompressed
      ensures status == OK || status == IOError
      ensures Rolling(memory, queue, collector, m0, jobs, c') && c <= c'
      ensures |queue.inflight| <= |old(queue.inflight)|
      ensures status == OK ==> Outstanding(memory, queue.inflight)
      ensures status == OK && c' == c && queue.inflight != [] ==> queue.stalls < old(queue.stalls)
      ensures queue.stalls <= old(queue.stalls) && queue.failures >= old(queue.failures)
      ensures status == IOError <==>
                || (queue.inflight == old(queue.inflight) && queue.Erring()
                    && (old(numMaybeNotOk) + 1) % 10 == 0)
                || c' - c < |old(queue.inflight)| - |queue.inflight|
      ensures c' - c < |old(queue.inflight)| - |queue.inflight| ==>
                Troubled(queue, old(queue.failures)) || Unfit(queue.codec, collector.x, m0, jobs, c')
      ensures Since(queue, past) && (status == OK ==> Heeds(queue, past, c'))
      ensures SameShape(old(queue.host.bytes), queue.host.bytes)
    {
      hide Running, Tidy, Executed, Balanced;
      var returned, glitches := ReceiveBurst(memory, queue, collector.x, m0, jobs, c);
      status, c' := FinishBurst(memory, queue, returned, collector, m0, jobs, c, glitches, old(queue.inflight));
    }

    /** One turn of a driver's main loop: offer the staged operations, collect completed ones. Every
        turn in which the device does anything brings the drivers closer to the end. */
    method ExchangeBurst(memory: QueuePairMemory, queue: HardwareQueue, collector: Collector, ghost m0: Memory,
                         ghost jobs: seq<Job>, ghost c: nat, ghost past: Past) returns (status: Status, ghost c': nat)
      requires Heeds(queue, past, c)
      requires Paired(memory, queue) && InStep(memory, queue) && memory.cfg.burst <= memory.totals.ops
      requires memory.numOpsAssembled > 0
      requires Rolling(memory, queue, collector, m0, jobs, c)
      modifies this`numMaybeNotOk, queue, memory.operations, queue.host`bytes, memory.pool, collector, memory`pending,
               memory`numOpsAssembled, memory`mbufPool, memory`refDecompressed, memory`refCompressed
      ensures status == OK || status == IOError
      ensures Rolling(memory, queue, collector, m0, jobs, c') && c <= c'
      ensures status == OK ==> InStep(memory, queue) && Advanced(old(memory.numOpsAssembled), |old(queue.inflight)|, old(queue.stalls),
                                                                memory.numOpsAssembled, |queue.inflight|, queue.stalls)
      ensures Since(queue, past) && (status == OK ==> Heeds(queue, past, c'))
      ensures status == IOError ==> Troubled(queue, past.failures) || Unfit(queue.codec, collector.x, m0, jobs, c')
      ensures SameShape(old(queue.host.bytes), queue.host.bytes)
    {
      c' := c;
      status := EnqueueBurst(memory, queue, memory.numOpsAssembled);
      if status != OK {
        return;
      }
      status, c' := DequeueBurst(memory, queue, collector, m0, jobs, c, past);
    }

    /** Assemble the next operations of a compression. */
    method AssembleCompression(memory: QueuePairMemory, buffers: seq<Slice>, input: Slice, offset: nat, ghost codec: Codec,
                               ghost inflight: seq<OpId>, ghost m0: Memory, ghost st0: Zones, ghost zones: seq<Memzone>, ghost c: nat)
        returns (status: Status, newOffset: nat, ghost zones': seq<Memzone>, ghost more: seq<Memzone>)
      requires Proportioned(memory) && Compressing(memory, codec, inflight, buffers, m0, st0, input, offset, zones, c)
      modifies memory`numOpsAssembled, memory`pending, memory`mbufPool, memory`refDecompressed, memory`refCompressed,
               memory.operations, memory.mbufs, memory.pool, memory.device`memzonePool, memory.device`occupiedMemzones,
               memory.device`numHotAllocations, memory.device.pool, memory.device.pool.host, memory.device.pool.tracker
      ensures status == OK || status == OutOfMemory || status == IOError
      ensures status == OK ==> Compressing(memory, codec, inflight, buffers, m0, st0, input, newOffset, zones', c)
      ensures status == OK ==>
                && offset <= newOffset && (newOffset == offset ==> memory.numOpsAssembled == old(memory.numOpsAssembled))
                && (memory.numOpsAssembled == 0 ==> newOffset == input.len)
      ensures status != OK ==> Ended(memory, codec, buffers, m0, st0, input, offset, zones, more, c)
      ensures status == OutOfMemory ==> !Serves(memory.totals, memory.cfg.burst)
      ensures status == IOError ==>
                memory.device.memzonePool == [] && |zones| + |more| < CeilDiv(input.len, memory.cfg.seg) && memory.LostMbufs() > 0
      ensures memory.device.pool.host.refusals == old(memory.device.pool.host.refusals) + (if status == IOError then 1 else 0)
    {
      assert |memory.pending| <= MAX_INFLIGHT_OPS + memory.numOpsAssembled;
      var count;
      ghost var newOps, segs;
      status, count, newOffset, newOps, segs, more := memory.AssembleFromInput(input, offset);
      zones' := zones + more;
      if status == OK {
        CompressRound(codec, m0, old(StateOf(memory)), StateOf(memory), old(memory.pending), newOps, c, memory.cfg, input,
                      st0, old(memory.device.State()), memory.device.State(), offset, zones, newOffset,
                      old(memory.numOpsAssembled), segs, more, memory.device.pool.tracker.memzones, memory.device.compressedSegSize);
        assert inflight <= old(memory.pending) + newOps;
      } else {
        RoundFails(codec, m0, old(StateOf(memory)), memory.pool.table, old(memory.pending), newOps, memory.cfg, input, st0,
                   old(memory.device.State()), memory.device.State(), offset, zones, more, c, buffers);
        PlanConfined(codec, m0, old(StateOf(memory)), old(memory.pending), memory.cfg, input, st0, old(memory.device.State()),
                     offset, zones, c);
        ChangeExtends(m0, old(memory.device.pool.host.bytes), memory.device.pool.host.bytes, st0);
        CeilDivMonotone(offset, input.len, memory.cfg.seg);
        if status == IOError {
          StillWanted(memory.cfg, input, offset, newOffset, old(memory.numOpsAssembled), segs, |newOps|, |zones|, |more|);
        }
      }
    }

    /** One turn of the main loop of Compress, up to assembling. */
    method TurnCompression(memory: QueuePairMemory, queue: HardwareQueue, collector: Collector, input: Slice, offset: nat,
                           ghost m0: Memory, ghost st0: Zones, ghost zones: seq<Memzone>, ghost c: nat, ghost past: Past)
        returns (status: Status, ghost c': nat)
      requires Heeds(queue, past, c)
      requires Fixed(memory, queue) && collector.x == Compress && memory.numOpsAssembled > 0
      requires Compressing(memory, queue.codec, queue.inflight, collector.buffers, m0, st0, input, offset, zones, c)
      modifies this`numMaybeNotOk, queue, memory.operations, queue.host`bytes, memory.pool, collector, memory`pending,
               memory`numOpsAssembled, memory`mbufPool, memory`refDecompressed, memory`refCompressed
      ensures status == OK || status == IOError
      ensures Underway(memory, queue.codec, collector.buffers, m0, st0, input, offset, zones, c')
      ensures status == OK ==>
                && Outstanding(memory, queue.inflight) && |queue.inflight| <= MAX_INFLIGHT_OPS
                && Advanced(old(memory.numOpsAssembled), |old(queue.inflight)|, old(queue.stalls),
                            memory.numOpsAssembled, |queue.inflight|, queue.stalls)
      ensures Since(queue, past) && (status == OK ==> Heeds(queue, past, c'))
      ensures status != OK ==> Blocked(queue, past.failures, m0, memory.cfg, input, offset, zones, c')
    {
      hide Rolling, Harvest, Balanced;
      ghost var jobs := CompressJobs(memory.cfg, input, offset, zones);
      UnderwayRolls(memory, queue, collector, m0, st0, input, offset, zones, c);
      status, c' := ExchangeBurst(memory, queue, collector, m0, jobs, c, past);
      DeviceUntouched(memory.device);
      RollsUnderway(memory, queue, collector, m0, st0, input, offset, zones, c');
    }

    /** One turn of the draining loop of Compress. */
    method DrainCompression(memory: QueuePairMemory, queue: HardwareQueue, collector: Collector, input: Slice, offset: nat,
                            ghost m0: Memory, ghost st0: Zones, ghost zones: seq<Memzone>, ghost c: nat, ghost past: Past)
        returns (status: Status, ghost c': nat)
      requires Heeds(queue, past, c)
      requires Fixed(memory, queue) && collector.x == Compress && memory.numOpsAssembled == 0 && memory.pending != []
      requires Compressing(memory, queue.codec, queue.inflight, collector.buffers, m0, st0, input, offset, zones, c)
      modifies this`numMaybeNotOk, queue, memory.operations, queue.host`bytes, memory.pool, collector, memory`pending,
               memory`mbufPool, memory`refDecompressed, memory`refCompressed
      ensures status == OK || status == IOError
      ensures Underway(memory, queue.codec, collector.buffers, m0, st0, input, offset, zones, c')
      ensures status == OK ==>
                && Outstanding(memory, queue.inflight) && |queue.inflight| <= MAX_INFLIGHT_OPS
                && |memory.pending| <= |old(memory.pending)| && (|memory.pending| == |old(memory.pending)| ==> queue.stalls < old(queue.stalls))
      ensures Since(queue, past) && (status == OK ==> Heeds(queue, past, c'))
      ensures status != OK ==> Blocked(queue, past.failures, m0, memory.cfg, input, offset, zones, c')
    {
      hide Rolling, Harvest, Balanced, LastOf;
      ghost var jobs := CompressJobs(memory.cfg, input, offset, zones);
      UnderwayRolls(memory, queue, collector, m0, st0, input, offset, zones, c);
      status, c' := DequeueBurst(memory, queue, collector, m0, jobs, c, past);
      DeviceUntouched(memory.device);
      RollsUnderway(memory, queue, collector, m0, st0, input, offset, zones, c');
    }

    /** Give result buffers back, last to first. */
    method Recycle(device: DeviceMemory, buffers: seq<Slice>) returns (count: nat)
      requires device.WellFormed()
      modifies device`memzonePool, device`occupiedMemzones
      ensures device.WellFormed() && (old(device.Valid()) ==> device.Valid())
      ensures device.State() == PutSlices(old(device.State()), device.pool.tracker.memzones, Reverse(buffers))
      ensures |device.memzonePool| == |old(device.memzonePool)| + count
    {
      count := 0;
      var i := |buffers|;
      assert buffers[..i] == buffers;
      while i > 0
        invariant i <= |buffers| && device.WellFormed() && (old(device.Valid()) ==> device.Valid())
        invariant PutSlices(device.State(), device.pool.tracker.memzones, Reverse(buffers[..i])) ==
                  PutSlices(old(device.State()), device.pool.tracker.memzones, Reverse(buffers))
        invariant |device.memzonePool| == |old(device.memzonePool)| + count
      {
        i := i - 1;
        assert buffers[..i + 1] == buffers[..i] + [buffers[i]];
        ReverseSnoc(buffers[..i], buffers[i]);
        PutSlicesCons(device.State(), device.pool.tracker.memzones, buffers[i], Reverse(buffers[..i]));
        var put := device.Put(Addr(buffers[i].region, buffers[i].start));
        count := count + put;
      }
    }

    /** Release everything a failed compression holds. */
    method ReleaseAll(memory: QueuePairMemory, buffers: seq<Slice>)
      requires Known(memory.pool.table, memory.pending) && memory.device.WellFormed()
      modifies memory`pending, memory`mbufPool, memory`refDecompressed, memory`refCompressed, memory.pool`free,
               memory.device`memzonePool, memory.device`occupiedMemzones
      ensures memory.pending == [] && memory.device.WellFormed() && (old(memory.device.Valid()) ==> memory.device.Valid())
      ensures memory.device.State() ==
              PutSlices(PutSlices(old(memory.device.State()), memory.device.pool.tracker.memzones, Reverse(buffers)),
                        memory.device.pool.tracker.memzones, LentTo(memory.pool.table, old(memory.pending)))
      ensures old(memory.Accountable()) ==> memory.FullBut(old(memory.LostOps()), old(memory.LostMbufs()))
    {
      hide Balanced;
      var count := Recycle(memory.device, buffers);
      memory.Release();
    }

    /** The error exit of Compress. */
    method AbandonCompression(memory: QueuePairMemory, ghost codec: Codec, buffers: seq<Slice>, ghost m0: Memory, ghost st0: Zones,
                              ghost input: Slice, ghost p: Progress)
      requires Proportioned(memory) && Ended(memory, codec, buffers, m0, st0, input, p.offset, p.zones, p.more, p.c)
      modifies memory`pending, memory`mbufPool, memory`refDecompressed, memory`refCompressed, memory.pool`free,
               memory.device`memzonePool, memory.device`occupiedMemzones
      ensures memory.pending == [] && memory.device.Valid() && Alike(p.zones, memory.cfg.cseg)
      ensures OnlyZonesChanged(m0, memory.device.pool.host.bytes, st0)
      ensures memory.FullBut(old(memory.LostOps()), old(memory.LostMbufs()))
      ensures GaveBack(codec, m0, memory.cfg, input, p.offset, p.zones, p.more, p.c, st0, memory.device.State())
    {
      EndedAlike(memory, codec, buffers, m0, st0, input, p);
      ReleasedAll(codec, m0, memory.cfg, input, p.offset, p.zones, p.more, p.c, st0, memory.device.State(), memory.pool.table,
                  memory.pending, buffers, memory.device.pool.tracker.memzones, memory.device.compressedSegSize);
      ReleaseAll(memory, buffers);
    }

    /** The draining loop of Compress. */
    method FinishCompression(memory: QueuePairMemory, queue: HardwareQueue, collector: Collector, input: Slice, offset: nat,
                             ghost m0: Memory, ghost st0: Zones, ghost zones: seq<Memzone>, ghost c: nat, ghost past: Past)
        returns (status: Status, ghost c': nat)
      requires Heeds(queue, past, c)
      requires Fixed(memory, queue) && collector.x == Compress && memory.numOpsAssembled == 0
      requires Compressing(memory, queue.codec, queue.inflight, collector.buffers, m0, st0, input, offset, zones, c)
      modifies this`numMaybeNotOk, collector, queue, memory.operations, queue.host`bytes, memory.pool, memory`pending,
               memory`mbufPool, memory`refDecompressed, memory`refCompressed
      ensures status == OK || status == IOError
      ensures Underway(memory, queue.codec, collector.buffers, m0, st0, input, offset, zones, c')
      ensures status == OK ==> memory.pending == [] && queue.inflight == []
      ensures Since(queue, past) && (status == OK ==> Heeds(queue, past, c'))
      ensures status != OK ==> Blocked(queue, past.failures, m0, memory.cfg, input, offset, zones, c')
    {
      hide Blocked;
      status, c' := OK, c;
      while memory.HasPendingOperations()
        invariant Compressing(memory, queue.codec, queue.inflight, collector.buffers, m0, st0, input, offset, zones, c')
        invariant Heeds(queue, past, c')
        decreases |memory.pending|, queue.stalls
      {
        status, c' := DrainCompression(memory, queue, collector, input, offset, m0, st0, zones, c', past);
        if status != OK {
          return;
        }
      }
      status := OK;
    }

    /** One round of the main loop of Compress: exchange bursts, then assemble. It gets nearer to the
        end, or fails with all it took accounted for. */
    method StepCompression(memory: QueuePairMemory, queue: HardwareQueue, collector: Collector, input: Slice, offset: nat,
                           ghost m0: Memory, ghost st0: Zones, ghost zones: seq<Memzone>, ghost c: nat, ghost past: Past)
        returns (status: Status, newOffset: nat, ghost zones': seq<Memzone>, ghost more: seq<Memzone>, ghost c': nat)
      requires Heeds(queue, past, c)
      requires Fixed(memory, queue) && collector.x == Compress && memory.numOpsAssembled > 0
      requires Compressing(memory, queue.codec, queue.inflight, collector.buffers, m0, st0, input, offset, zones, c)
      modifies this`numMaybeNotOk, collector, queue, queue.host, memory`numOpsAssembled, memory`pending, memory`mbufPool,
               memory`refDecompressed, memory`refCompressed, memory.operations, memory.mbufs, memory.pool,
               memory.device`memzonePool, memory.device`occupiedMemzones, memory.device`numHotAllocations,
               memory.device.pool, memory.device.pool.tracker
      ensures (status == OK || status == OutOfMemory || status == IOError) && Since(queue, past)
      ensures status != IOError ==> Heeds(queue, past, c')
      ensures status == OK ==>
                && Compressing(memory, queue.codec, queue.inflight, collector.buffers, m0, st0, input, newOffset, zones', c')
                && (memory.numOpsAssembled == 0 ==> newOffset == input.len)
                && (newOffset > offset || (newOffset == offset && Advanced(old(memory.numOpsAssembled), |old(queue.inflight)|,
                    old(queue.stalls), memory.numOpsAssembled, |queue.inflight|, queue.stalls)))
      ensures status == OutOfMemory ==> !Serves(memory.totals, memory.cfg.burst)
      ensures status == IOError ==> Explained(memory, queue, past, m0, input, offset, zones, more, c')
      ensures status != OK ==> Ended(memory, queue.codec, collector.buffers, m0, st0, input, offset, zones, more, c')
    {
      hide Underway, Ended, Blocked, Serves, Balanced;
      newOffset, zones', more := offset, zones, [];
      status, c' := TurnCompression(memory, queue, collector, input, offset, m0, st0, zones, c, past);
      if status != OK {
        UnderwayEnds(memory, queue.codec, collector.buffers, m0, st0, input, offset, zones, c');
        return;
      }
      status, newOffset, zones', more :=
        AssembleCompression(memory, collector.buffers, input, offset, queue.codec, queue.inflight, m0, st0, zones, c');
    }

    /** The main loop of Compress once the first operations are assembled. */
    method RepeatCompression(memory: QueuePairMemory, queue: HardwareQueue, collector: Collector, input: Slice, start: nat,
                             ghost m0: Memory, ghost st0: Zones, ghost taken: seq<Memzone>, ghost past: Past)
        returns (status: Status, offset: nat, ghost zones: seq<Memzone>, ghost more: seq<Memzone>, ghost c: nat)
      requires Heeds(queue, past, 0)
      requires Fixed(memory, queue) && collector.x == Compress && (memory.numOpsAssembled == 0 ==> start == input.len)
      requires Compressing(memory, queue.codec, queue.inflight, collector.buffers, m0, st0, input, start, taken, 0)
      modifies this`numMaybeNotOk, collector, queue, queue.host, memory`numOpsAssembled, memory`pending, memory`mbufPool,
               memory`refDecompressed, memory`refCompressed, memory.operations, memory.mbufs, memory.pool,
               memory.device`memzonePool, memory.device`occupiedMemzones, memory.device`numHotAllocations,
               memory.device.pool, memory.device.pool.tracker
      ensures (status == OK || status == OutOfMemory || status == IOError) && Since(queue, past)
      ensures status != IOError ==> Heeds(queue, past, c)
      ensures status == OK ==>
                && Compressing(memory, queue.codec, queue.inflight, collector.buffers, m0, st0, input, offset, zones, c)
                && memory.numOpsAssembled == 0 && offset == input.len
      ensures status == OutOfMemory ==> !Serves(memory.totals, memory.cfg.burst)
      ensures status == IOError ==> Explained(memory, queue, past, m0, input, offset, zones, more, c)
      ensures status != OK ==> Ended(memory, queue.codec, collector.buffers, m0, st0, input, offset, zones, more, c)
    {
      hide Ended, Explained, Serves, Running, Harvest;
      c, zones, more, offset := 0, taken, [], start;
      while memory.numOpsAssembled > 0
        invariant Compressing(memory, queue.codec, queue.inflight, collector.buffers, m0, st0, input, offset, zones, c)
        invariant memory.numOpsAssembled == 0 ==> offset == input.len
        invariant Heeds(queue, past, c)
        decreases input.len - offset, memory.numOpsAssembled, |queue.inflight|, queue.stalls
      {
        var newOffset;
        ghost var zones';
        status, newOffset, zones', more, c := StepCompression(memory, queue, collector, input, offset, m0, st0, zones, c, past);
        if status != OK {
          return;
        }
        offset, zones := newOffset, zones';
      }
      status := OK;
    }

    /** The main loop of Compress, for a queue pair with nothing outstanding. */
    method StartCompression(memory: QueuePairMemory, queue: HardwareQueue, collector: Collector, input: Slice, ghost m0: Memory,
                            ghost st0: Zones, ghost past: Past)
        returns (status: Status, offset: nat, ghost zones: seq<Memzone>, ghost more: seq<Memzone>, ghost c: nat)
      requires Heeds(queue, past, 0)
      requires Fixed(memory, queue) && Idle(memory, queue)
      requires m0 == queue.host.bytes && st0 == memory.device.State() && Within(m0, input) && NotFree(st0, input.region)
      requires collector.x == Compress && collector.buffers == []
      modifies this`numMaybeNotOk, collector, queue, queue.host, memory`numOpsAssembled, memory`pending, memory`mbufPool,
               memory`refDecompressed, memory`refCompressed, memory.operations, memory.mbufs, memory.pool,
               memory.device`memzonePool, memory.device`occupiedMemzones, memory.device`numHotAllocations,
               memory.device.pool, memory.device.pool.tracker
      ensures (status == OK || status == OutOfMemory || status == IOError) && Since(queue, past)
      ensures status != IOError ==> Heeds(queue, past, c)
      ensures status == OK ==>
                && Compressing(memory, queue.codec, queue.inflight, collector.buffers, m0, st0, input, offset, zones, c)
                && memory.numOpsAssembled == 0 && offset == input.len
      ensures status == OutOfMemory ==> !Serves(memory.totals, memory.cfg.burst)
      ensures status == IOError ==> Explained(memory, queue, past, m0, input, offset, zones, more, c)
      ensures status != OK ==> Ended(memory, queue.codec, collector.buffers, m0, st0, input, offset, zones, more, c)
    {
      hide Ended, Blocked, Serves, Harvest, Running, Balanced, Outstanding, Planned, NotFree;
      CompressionStarts(queue.codec, queue.State(), memory.cfg, input, st0);
      c, zones, offset := 0, [], 0;
      var newOffset;
      ghost var taken;
      status, newOffset, taken, more := AssembleCompression(memory, collector.buffers, input, 0, queue.codec, queue.inflight, m0, st0, [], 0);
      if status == OK {
        status, offset, zones, more, c := RepeatCompression(memory, queue, collector, input, newOffset, m0, st0, taken, past);
      }
    }

    /** Both loops of Compress. */
    method LoopCompression(memory: QueuePairMemory, queue: HardwareQueue, collector: Collector, input: Slice, ghost m0: Memory, ghost st0: Zones, ghost past: Past)
        returns (status: Status, ghost p: Progress)
      requires Heeds(queue, past, 0)
      requires Fixed(memory, queue) && Idle(memory, queue)
      requires m0 == queue.host.bytes && st0 == memory.device.State() && Within(m0, input) && NotFree(st0, input.region)
      requires collector.x == Compress && collector.buffers == []
      modifies this`numMaybeNotOk, collector, queue, queue.host, memory`numOpsAssembled, memory`pending, memory`mbufPool,
               memory`refDecompressed, memory`refCompressed, memory.operations, memory.mbufs, memory.pool,
               memory.device`memzonePool, memory.device`occupiedMemzones, memory.device`numHotAllocations,
               memory.device.pool, memory.device.pool.tracker
      ensures (status == OK || status == OutOfMemory || status == IOError) && Since(queue, past)
      ensures status != IOError ==> Heeds(queue, past, p.c)
      ensures status == OK ==>
                && Underway(memory, queue.codec, collector.buffers, m0, st0, input, input.len, p.zones, p.c)
                && memory.pending == [] && queue.inflight == [] && p.offset == input.len && p.more == []
      ensures status != OK ==> Ended(memory, queue.codec, collector.buffers, m0, st0, input, p.offset, p.zones, p.more, p.c)
      ensures status == OutOfMemory ==> !Serves(memory.totals, memory.cfg.burst)
      ensures status == IOError ==>
                if queue.host.refusals == past.refusals
                then memory.NothingLost() && Blocked(queue, past.failures, m0, memory.cfg, input, p.offset, p.zones, p.c)
                else queue.host.refusals == past.refusals + 1 && memory.LostMbufs() > 0 && |st0.free| < CeilDiv(input.len, memory.cfg.seg)
    {
      hide Underway, Ended, Blocked, Serves, Balanced;
      ghost var offset, zones, more, c;
      status, offset, zones, more, c := StartCompression(memory, queue, collector, input, m0, st0, past);
      if status == OK {
        status, c := FinishCompression(memory, queue, collector, input, input.len, m0, st0, zones, c, past);
        more := [];
        if status != OK {
          UnderwayEnds(memory, queue.codec, collector.buffers, m0, st0, input, offset, zones, c);
        }
      } else if status == IOError && queue.host.refusals != past.refusals {
        EndedShort(memory, queue.codec, collector.buffers, m0, st0, input, offset, zones, more, c);
      }
      p := Progress(offset, zones, more, c);
    }

    /** After both loops: return the result, or give everything back. */
    method ConcludeCompression(memory: QueuePairMemory, ghost codec: Codec, collected: seq<Slice>, status: Status, ghost m0: Memory,
                               ghost st0: Zones, ghost input: Slice, ghost p: Progress) returns (buffers: seq<Slice>)
      requires Proportioned(memory)
      requires status == OK ==>
                 && Underway(memory, codec, collected, m0, st0, input, input.len, p.zones, p.c)
                 && memory.pending == [] && p.offset == input.len && p.more == []
      requires status != OK ==> Ended(memory, codec, collected, m0, st0, input, p.offset, p.zones, p.more, p.c)
      modifies memory`pending, memory`mbufPool, memory`refDecompressed, memory`refCompressed, memory.pool`free,
               memory.device`memzonePool, memory.device`occupiedMemzones
      ensures memory.pending == [] && memory.device.Valid() && Alike(p.zones, memory.cfg.cseg)
      ensures OnlyZonesChanged(m0, memory.device.pool.host.bytes, st0)
      ensures status == OK ==>
                && memory.Valid()
                && Finished(codec, m0, memory.device.pool.host.bytes, st0, memory.device.State(), memory.cfg, input, p, buffers)
                && p.c == CeilDiv(CeilDiv(input.len, memory.cfg.seg), memory.cfg.sgl)
      ensures status != OK ==>
                && buffers == [] && memory.FullBut(old(memory.LostOps()), old(memory.LostMbufs()))
                && GaveBack(codec, m0, memory.cfg, input, p.offset, p.zones, p.more, p.c, st0, memory.device.State())
    {
      hide Ended, Finished, GaveBack, Alike, Planned, CompressRunning, OnlyZonesChanged;
      if status == OK {
        UnderwayFinishes(memory, codec, collected, m0, st0, input, p);
        return collected;
      }
      AbandonCompression(memory, codec, collected, m0, st0, input, p);
      return [];
    }

    /** Compress past its entry checks. */
    method CompressOn(memory: QueuePairMemory, queue: HardwareQueue, input: Slice)
        returns (status: Status, buffers: seq<Slice>, ghost p: Progress)
      requires Fixed(memory, queue) && Idle(memory, queue)
      requires Within(queue.host.bytes, input) && NotFree(memory.device.State(), input.region)
      modifies this`numMaybeNotOk, queue, queue.host, memory`numOpsAssembled, memory`pending, memory`mbufPool,
               memory`refDecompressed, memory`refCompressed, memory.operations, memory.mbufs, memory.pool,
               memory.device`memzonePool, memory.device`occupiedMemzones, memory.device`numHotAllocations,
               memory.device.pool, memory.device.pool.tracker
      ensures (status == OK || status == OutOfMemory || status == IOError) && queue.failures >= old(queue.failures)
      ensures memory.pending == [] && memory.device.Valid()
      ensures OnlyZonesChanged(old(queue.host.bytes), queue.host.bytes, old(memory.device.State()))
      ensures status == OK ==>
                && Idle(memory, queue)
                && Finished(queue.codec, old(queue.host.bytes), queue.host.bytes, old(memory.device.State()), memory.device.State(),
                            memory.cfg, input, p, buffers)
      ensures status == OutOfMemory ==> !Serves(memory.totals, memory.cfg.burst)
      ensures status == IOError ==>
                if queue.host.refusals == old(queue.host.refusals)
                then memory.Full() && Blocked(queue, old(queue.failures), old(queue.host.bytes), memory.cfg, input, p.offset, p.zones, p.c)
                else !memory.Full() && |old(memory.device.memzonePool)| < CeilDiv(input.len, memory.cfg.seg)
      ensures queue.host.refusals == old(queue.host.refusals) + (if status == IOError && !memory.Full() then 1 else 0)
      ensures queue.longest <= 10 && (queue.longest == 10 ==> status == IOError)
      ensures status == OK ==> queue.executed == old(queue.executed) + CeilDiv(CeilDiv(input.len, memory.cfg.seg), memory.cfg.sgl)
      ensures Alike(p.zones, memory.cfg.cseg)
      ensures status != OK ==>
                buffers == [] && GaveBack(queue.codec, old(queue.host.bytes), memory.cfg, input, p.offset, p.zones, p.more, p.c,
                                          old(memory.device.State()), memory.device.State())
    {
      hide Underway, Ended, Blocked, Finished, GaveBack, Serves, Alike, OnlyZonesChanged;
      ghost var m0, st0 := queue.host.bytes, memory.device.State();
      var collector := new Collector(Compress);
      queue.Watch();
      status, p := LoopCompression(memory, queue, collector, input, m0, st0, queue.Now());
      buffers := ConcludeCompression(memory, queue.codec, collector.buffers, status, m0, st0, input, p);
    }

    // ----- decompression -----

    /** Assemble the next operations of a decompression. */
    method AssembleDecompression(memory: QueuePairMemory, queue: HardwareQueue, size: nat, buffers: seq<Slice>, output: Slice,
                                 index: nat, offset: nat, ghost m0: Memory, ghost c: nat)
        returns (status: Status, newIndex: nat, newOffset: nat)
      requires Fixed(memory, queue) && Decompressing(memory, queue, size, m0, buffers, output, index, offset, c)
      modifies memory`numOpsAssembled, memory`pending, memory`mbufPool, memory`refDecompressed, memory`refCompressed,
               memory.operations, memory.mbufs, memory.pool
      ensures status == OK || status == OutOfMemory
      ensures status == OK ==> Decompressing(memory, queue, size, m0, buffers, output, newIndex, newOffset, c)
      ensures status == OK ==>
                && index <= newIndex && (newIndex == index ==> memory.numOpsAssembled == old(memory.numOpsAssembled))
                && (memory.numOpsAssembled == 0 ==> newIndex == |buffers|)
      ensures status == OutOfMemory ==> !Serves(memory.totals, memory.cfg.burst)
      ensures Known(memory.pool.table, memory.pending)
      ensures status != OK ==> memory.Accountable() && memory.LostMbufs() == 0
    {
      var count;
      ghost var newOps, num;
      status, count, newIndex, newOffset, newOps, num := memory.AssembleFromBuffers(buffers, index, output, offset);
      if status == OK {
        DecompressRound(queue.codec, m0, old(queue.State()), queue.State(), old(memory.pending), newOps, c, memory.cfg,
                        buffers, output, index, offset, newIndex, old(memory.numOpsAssembled), num);
        assert queue.inflight <= old(memory.pending) + newOps;
      }
    }

    /** One turn of the main loop of Decompress, up to assembling. */
    method TurnDecompression(memory: QueuePairMemory, queue: HardwareQueue, collector: Collector, buffers: seq<Slice>, output: Slice,
                             index: nat, offset: nat, ghost m0: Memory, ghost c: nat, ghost past: Past) returns (status: Status, ghost c': nat)
      requires Heeds(queue, past, c)
      requires Fixed(memory, queue) && collector.x == Decompress && memory.numOpsAssembled > 0
      requires Decompressing(memory, queue, collector.size, m0, buffers, output, index, offset, c)
      modifies this`numMaybeNotOk, queue, memory.operations, queue.host`bytes, memory.pool, collector, memory`pending,
               memory`numOpsAssembled, memory`mbufPool, memory`refDecompressed, memory`refCompressed
      ensures status == OK || status == IOError
      ensures Restoring(memory, queue, collector.size, m0, buffers, output, index, offset, c')
      ensures status == OK ==>
                && InStep(memory, queue)
                && Advanced(old(memory.numOpsAssembled), |old(queue.inflight)|, old(queue.stalls),
                            memory.numOpsAssembled, |queue.inflight|, queue.stalls)
      ensures Since(queue, past) && (status == OK ==> Heeds(queue, past, c'))
      ensures status != OK ==> Spoilt(queue, past.failures, m0, memory.cfg, buffers, output)
    {
      hide Rolling, Streams, Balanced;
      ghost var jobs := DecompressJobs(memory.cfg, buffers, output, index);
      RestoringRolls(memory, queue, collector, m0, buffers, output, index, offset, c);
      status, c' := ExchangeBurst(memory, queue, collector, m0, jobs, c, past);
      RollsRestoring(memory, queue, collector, m0, buffers, output, index, offset, c');
    }

    /** One turn of the draining loop of Decompress. */
    method DrainDecompression(memory: QueuePairMemory, queue: HardwareQueue, collector: Collector, buffers: seq<Slice>, output: Slice,
                              index: nat, offset: nat, ghost m0: Memory, ghost c: nat, ghost past: Past) returns (status: Status, ghost c': nat)
      requires Heeds(queue, past, c)
      requires Fixed(memory, queue) && collector.x == Decompress && memory.numOpsAssembled == 0 && memory.pending != []
      requires Decompressing(memory, queue, collector.size, m0, buffers, output, index, offset, c)
      modifies this`numMaybeNotOk, queue, memory.operations, queue.host`bytes, memory.pool, collector, memory`pending,
               memory`mbufPool, memory`refDecompressed, memory`refCompressed
      ensures status == OK || status == IOError
      ensures Restoring(memory, queue, collector.size, m0, buffers, output, index, offset, c')
      ensures status == OK ==>
                && InStep(memory, queue)
                && (|memory.pending| < |old(memory.pending)| ||
                    (|memory.pending| == |old(memory.pending)| && queue.stalls < old(queue.stalls)))
      ensures Since(queue, past) && (status == OK ==> Heeds(queue, past, c'))
      ensures status != OK ==> Spoilt(queue, past.failures, m0, memory.cfg, buffers, output)
    {
      hide Rolling, Streams, Balanced;
      ghost var jobs := DecompressJobs(memory.cfg, buffers, output, index);
      RestoringRolls(memory, queue, collector, m0, buffers, output, index, offset, c);
      status, c' := DequeueBurst(memory, queue, collector, m0, jobs, c, past);
      RollsRestoring(memory, queue, collector, m0, buffers, output, index, offset, c');
    }

    /** The draining loop of Decompress. */
    method FinishDecompression(memory: QueuePairMemory, queue: HardwareQueue, collector: Collector, buffers: seq<Slice>, output: Slice,
                               index: nat, offset: nat, ghost m0: Memory, ghost c: nat, ghost past: Past) returns (status: Status, ghost c': nat)
      requires Heeds(queue, past, c)
      requires Fixed(memory, queue) && collector.x == Decompress && memory.numOpsAssembled == 0
      requires Decompressing(memory, queue, collector.size, m0, buffers, output, index, offset, c)
      modifies this`numMaybeNotOk, queue, memory.operations, queue.host`bytes, memory.pool, collector, memory`pending,
               memory`mbufPool, memory`refDecompressed, memory`refCompressed
      ensures status == OK || status == IOError
      ensures Restoring(memory, queue, collector.size, m0, buffers, output, index, offset, c')
      ensures status == OK ==> InStep(memory, queue) && memory.pending == []
      ensures Since(queue, past) && (status == OK ==> Heeds(queue, past, c'))
      ensures status != OK ==> Spoilt(queue, past.failures, m0, memory.cfg, buffers, output)
    {
      hide Spoilt, Running, Streams;
      status, c' := OK, c;
      while memory.HasPendingOperations()
        invariant Decompressing(memory, queue, collector.size, m0, buffers, output, index, offset, c')
        invariant Heeds(queue, past, c')
        decreases |memory.pending|, queue.stalls
      {
        status, c' := DrainDecompression(memory, queue, collector, buffers, output, index, offset, m0, c', past);
        if status != OK {
          return;
        }
      }
      status := OK;
    }

    /** One round of the main loop of Decompress: exchange bursts, then assemble. */
    method StepDecompression(memory: QueuePairMemory, queue: HardwareQueue, collector: Collector, buffers: seq<Slice>, output: Slice,
                             index: nat, offset: nat, ghost m0: Memory, ghost c: nat, ghost past: Past)
        returns (status: Status, newIndex: nat, newOffset: nat, ghost c': nat)
      requires Heeds(queue, past, c)
      requires Fixed(memory, queue) && collector.x == Decompress && memory.numOpsAssembled > 0
      requires Decompressing(memory, queue, collector.size, m0, buffers, output, index, offset, c)
      modifies this`numMaybeNotOk, queue, memory.operations, memory.mbufs, queue.host`bytes, memory.pool, collector, memory`pending,
               memory`numOpsAssembled, memory`mbufPool, memory`refDecompressed, memory`refCompressed
      ensures (status == OK || status == OutOfMemory || status == IOError) && Since(queue, past)
      ensures status != IOError ==> Heeds(queue, past, c')
      ensures status == OK ==>
                && Decompressing(memory, queue, collector.size, m0, buffers, output, newIndex, newOffset, c')
                && (memory.numOpsAssembled == 0 ==> newIndex == |buffers|)
                && (newIndex > index || (newIndex == index && Advanced(old(memory.numOpsAssembled), |old(queue.inflight)|,
                    old(queue.stalls), memory.numOpsAssembled, |queue.inflight|, queue.stalls)))
      ensures status == OutOfMemory ==> !Serves(memory.totals, memory.cfg.burst)
      ensures status == IOError ==> Spoilt(queue, past.failures, m0, memory.cfg, buffers, output)
      ensures status != OK ==>
                && OnlyChanged(m0, queue.host.bytes, output) && SameLength(m0, queue.host.bytes, output.region)
                && Known(memory.pool.table, memory.pending) && memory.Accountable() && memory.LostMbufs() == 0
                && (status == IOError ==> memory.LostOps() == 0)
    {
      hide Restoring, Spoilt, Serves, OnlyChanged, SameLength;
      newIndex, newOffset := index, offset;
      status, c' := TurnDecompression(memory, queue, collector, buffers, output, index, offset, m0, c, past);
      RestoringKeeps(memory, queue, collector.size, m0, buffers, output, index, offset, c');
      if status == OK {
        status, newIndex, newOffset := AssembleDecompression(memory, queue, collector.size, buffers, output, index, offset, m0, c');
      }
    }

    /** The main loop of Decompress, for a queue pair with nothing outstanding. */
    method StartDecompression(memory: QueuePairMemory, queue: HardwareQueue, collector: Collector, buffers: seq<Slice>, output: Slice,
                              ghost m0: Memory, ghost past: Past)
        returns (status: Status, offset: nat, ghost c: nat)
      requires Heeds(queue, past, 0)
      requires Fixed(memory, queue) && InStep(memory, queue) && memory.pending == []
      requires m0 == queue.host.bytes && Supplied(memory.cfg, buffers, output, m0)
      requires collector.x == Decompress && collector.size == 0
      modifies this`numMaybeNotOk, queue, memory.operations, memory.mbufs, queue.host`bytes, memory.pool, collector, memory`pending,
               memory`numOpsAssembled, memory`mbufPool, memory`refDecompressed, memory`refCompressed
      ensures (status == OK || status == OutOfMemory || status == IOError) && Since(queue, past)
      ensures status != IOError ==> Heeds(queue, past, c)
      ensures status == OK ==>
                && Decompressing(memory, queue, collector.size, m0, buffers, output, |buffers|, offset, c)
                && memory.numOpsAssembled == 0
      ensures status == OutOfMemory ==> !Serves(memory.totals, memory.cfg.burst)
      ensures status == IOError ==> Spoilt(queue, past.failures, m0, memory.cfg, buffers, output)
      ensures status != OK ==>
                && OnlyChanged(m0, queue.host.bytes, output) && SameLength(m0, queue.host.bytes, output.region)
                && Known(memory.pool.table, memory.pending) && memory.Accountable() && memory.LostMbufs() == 0
                && (status == IOError ==> memory.LostOps() == 0)
    {
      hide Spoilt, Serves, Running;
      DecompressionStarts(queue.codec, queue.State(), memory.cfg, buffers, output);
      var index;
      c := 0;
      status, index, offset := AssembleDecompression(memory, queue, collector.size, buffers, output, 0, 0, m0, 0);
      if status != OK {
        return;
      }
      while memory.numOpsAssembled > 0
        invariant Decompressing(memory, queue, collector.size, m0, buffers, output, index, offset, c)
        invariant memory.numOpsAssembled == 0 ==> index == |buffers|
        invariant Heeds(queue, past, c)
        decreases |buffers| - index, memory.numOpsAssembled, |queue.inflight|, queue.stalls
      {
        status, index, offset, c := StepDecompression(memory, queue, collector, buffers, output, index, offset, m0, c, past);
        if status != OK {
          return;
        }
      }
      status := OK;
    }

    /** Both loops of Decompress. */
    method LoopDecompression(memory: QueuePairMemory, queue: HardwareQueue, collector: Collector, buffers: seq<Slice>, output: Slice,
                             ghost m0: Memory, ghost past: Past) returns (status: Status, ghost offset: nat, ghost c: nat)
      requires Heeds(queue, past, 0)
      requires Fixed(memory, queue) && InStep(memory, queue) && memory.pending == []
      requires m0 == queue.host.bytes && Supplied(memory.cfg, buffers, output, m0)
      requires collector.x == Decompress && collector.size == 0
      modifies this`numMaybeNotOk, queue, memory.operations, memory.mbufs, queue.host`bytes, memory.pool, collector, memory`pending,
               memory`numOpsAssembled, memory`mbufPool, memory`refDecompressed, memory`refCompressed
      ensures (status == OK || status == OutOfMemory || status == IOError) && Since(queue, past)
      ensures status != IOError ==> Heeds(queue, past, c)
      ensures status == OK ==>
                && Restoring(memory, queue, collector.size, m0, buffers, output, |buffers|, offset, c)
                && InStep(memory, queue) && memory.pending == []
      ensures status == OutOfMemory ==> !Serves(memory.totals, memory.cfg.burst)
      ensures status == IOError ==> Spoilt(queue, past.failures, m0, memory.cfg, buffers, output)
      ensures OnlyChanged(m0, queue.host.bytes, output) && SameLength(m0, queue.host.bytes, output.region)
      ensures Known(memory.pool.table, memory.pending)
      ensures status != OK ==>
                memory.Accountable() && memory.LostMbufs() == 0 && (status == IOError ==> memory.LostOps() == 0)
    {
      hide Spoilt, Serves, OnlyChanged, Running, Streams;
      var end;
      status, end, c := StartDecompression(memory, queue, collector, buffers, output, m0, past);
      offset := end;
      if status == OK {
        status, c := FinishDecompression(memory, queue, collector, buffers, output, |buffers|, end, m0, c, past);
        RestoringKeeps(memory, queue, collector.size, m0, buffers, output, |buffers|, end, c);
      }
    }

    /** Decompress past its entry checks. `size` is what the output is resized to. On an error nothing
        is released; but the device's zones are never touched, and only the output is. */
    method DecompressOn(memory: QueuePairMemory, queue: HardwareQueue, buffers: seq<Slice>, output: Slice)
        returns (status: Status, size: nat)
      requires Fixed(memory, queue) && Idle(memory, queue) && Supplied(memory.cfg, buffers, output, queue.host.bytes)
      modifies this`numMaybeNotOk, queue, queue.host`bytes, memory`numOpsAssembled, memory`pending, memory`mbufPool,
               memory`refDecompressed, memory`refCompressed, memory.operations, memory.mbufs, memory.pool
      ensures (status == OK || status == OutOfMemory || status == IOError) && queue.failures >= old(queue.failures)
      ensures queue.longest <= 10 && (queue.longest == 10 ==> status == IOError)
      ensures status == OK ==> queue.executed == old(queue.executed) + CeilDiv(|buffers|, memory.cfg.sgl)
      ensures memory.device.Valid() && Known(memory.pool.table, memory.pending)
      ensures status == OK ==>
                && Idle(memory, queue) && memory.Full() && Within(queue.host.bytes, output) && size <= output.len
                && Decompressed(queue.codec, old(queue.host.bytes), queue.host.bytes, memory.cfg, buffers, output, size)
      ensures status == OutOfMemory ==> !Serves(memory.totals, memory.cfg.burst)
      ensures status == IOError ==> Spoilt(queue, old(queue.failures), old(queue.host.bytes), memory.cfg, buffers, output)
      ensures status != OK ==> size == 0 && memory.Accountable() && memory.LostMbufs() == 0 && (status == IOError ==> memory.LostOps() == 0)
      ensures OnlyChanged(old(queue.host.bytes), queue.host.bytes, output) && SameLength(old(queue.host.bytes), queue.host.bytes, output.region)
    {
      hide Spoilt, Serves, Running, Streams, Decompressed;
      ghost var m0 := queue.host.bytes;
      var collector := new Collector(Decompress);
      ghost var offset, c;
      size := 0;
      queue.Watch();
      status, offset, c := LoopDecompression(memory, queue, collector, buffers, output, m0, queue.Now());
      StillBacked(memory.device.pool.tracker.memzones, m0, queue.host.bytes, output);
      if status == OK {
        size := collector.size;
        IdleIsFull(memory);
        DecompressionDone(queue.codec, m0, queue.State(), memory.cfg, buffers, output, c);
      }
    }

    // ----- the public operations -----

    /** What the entry checks say. */
    function Verdict(qpId: nat): Status
      reads this, if qpId < |qpMemory| then {qpMemory[qpId]} else {}
    {
      if state != Started || qpId >= |qpMemory| then Invalid
      else if qpMemory[qpId].pending != [] then Cancelled
      else OK
    }

    function Footprint(qpId: nat): set<object>
    {
      if qpId < |qpMemory| && qpId < |queues| then
        var memory := qpMemory[qpId];
        {queues[qpId], queues[qpId].host, memory, memory.operations, memory.mbufs, memory.pool, memory.device,
         memory.device.pool, memory.device.pool.tracker}
      else {}
    }

    /** Every queue pair has memory of the sizes computed for the device's configuration and its side of
        the device. */
    ghost predicate Ready()
    {
      && |qpMemory| == |queues|
      && forall q :: 0 <= q < |qpMemory| ==>
           qpMemory[q].cfg == configuration && Fixed(qpMemory[q], queues[q]) && qpMemory[q].Sized()
    }

    /** Both operations first ask whether the device runs, knows the queue pair, and has finished with it. */
    method EntryGuard(qpId: nat) returns (status: Status)
      ensures status == Verdict(qpId)
      ensures status == Invalid <==> state != Started || qpId >= |qpMemory|
      ensures status == Cancelled <==> state == Started && qpId < |qpMemory| && qpMemory[qpId].pending != []
      ensures status == OK <==> state == Started && qpId < |qpMemory| && qpMemory[qpId].pending == []
    {
      if state != Started {
        return Invalid;
      }
      if qpId >= |qpMemory| {
        return Invalid;
      }
      if qpMemory[qpId].HasPendingOperations() {
        return Cancelled;
      }
      return OK;
    }

    /** Compress a buffer. An absent or empty buffer has an empty result, whatever the device's state.
        With at most eight segments an operation the pools never run short. */
    method CompressBuffer(qpId: nat, buffer: Option<Slice>) returns (status: Status, buffers: seq<Slice>, ghost p: Progress)
      requires Ready()
      requires buffer.Some? && Verdict(qpId) == OK ==>
                 && Idle(qpMemory[qpId], queues[qpId]) && Within(queues[qpId].host.bytes, buffer.value)
                 && NotFree(qpMemory[qpId].device.State(), buffer.value.region)
      modifies this`numMaybeNotOk, Footprint(qpId)
      ensures buffer == None || buffer.value.len == 0 ==> status == OK && buffers == []
      ensures buffer.Some? && buffer.value.len > 0 ==>
                && (status == Invalid <==> state != Started || qpId >= |qpMemory|)
                && (status == Cancelled <==> state == Started && qpId < |qpMemory| && old(qpMemory[qpId].pending) != [])
      ensures buffer.Some? && buffer.value.len > 0 && old(Verdict(qpId)) != OK ==> status == old(Verdict(qpId)) && buffers == []
      ensures buffer == None || buffer.value.len == 0 || old(Verdict(qpId)) != OK ==> unchanged(Footprint(qpId))
      ensures buffer.Some? && buffer.value.len > 0 && old(Verdict(qpId)) == OK && status == OK ==>
                var memory, queue := qpMemory[qpId], queues[qpId];
                && Idle(memory, queue) && memory.Full()
                && Finished(queue.codec, old(queue.host.bytes), queue.host.bytes, old(memory.device.State()), memory.device.State(),
                            configuration, buffer.value, p, buffers)
                && queue.executed == old(queue.executed) + CeilDiv(CeilDiv(buffer.value.len, configuration.seg), configuration.sgl)
      ensures buffer.Some? && buffer.value.len > 0 && old(Verdict(qpId)) == OK ==>
                && queues[qpId].longest <= 10
                && (queues[qpId].longest == 10 ==> status == IOError)
      ensures buffer.Some? && buffer.value.len > 0 && old(Verdict(qpId)) == OK ==>
                var memory, queue := qpMemory[qpId], queues[qpId];
                && memory.pending == [] && memory.device.Valid() && queue.failures >= old(queue.failures)
                && Alike(p.zones, configuration.cseg) && (status == OK || status == OutOfMemory || status == IOError)
                && OnlyZonesChanged(old(queue.host.bytes), queue.host.bytes, old(memory.device.State()))
      ensures buffer.Some? && buffer.value.len > 0 && old(Verdict(qpId)) == OK && status != OK ==>
                var memory, queue := qpMemory[qpId], queues[qpId];
                && buffers == []
                && GaveBack(queue.codec, old(queue.host.bytes), configuration, buffer.value, p.offset, p.zones,
                            p.more, p.c, old(memory.device.State()), memory.device.State())
                && (configuration.sgl == 1 && queue.codec.Lawful() ==>
                      AllPutBack(p.zones + p.more, p.c, old(memory.device.State()), memory.device.State()))
      ensures buffer.Some? && buffer.value.len > 0 && old(Verdict(qpId)) == OK && status == IOError ==>
                var memory, queue := qpMemory[qpId], queues[qpId];
                if queue.host.refusals == old(queue.host.refusals)
                then memory.Full() && Blocked(queue, old(queue.failures), old(queue.host.bytes), configuration, buffer.value, p.offset, p.zones, p.c)
                else !memory.Full() && |old(memory.device.memzonePool)| < CeilDiv(buffer.value.len, configuration.seg)
      ensures buffer.Some? && buffer.value.len > 0 && old(Verdict(qpId)) == OK ==>
                queues[qpId].host.refusals == old(queues[qpId].host.refusals) + (if status == IOError && !qpMemory[qpId].Full() then 1 else 0)
      ensures configuration.sgl <= 8 ==> status != OutOfMemory
    {
      hide Finished, GaveBack, AllPutBack, Blocked, Alike, Balanced, OnlyZonesChanged;
      p := Progress(0, [], [], 0);
      if buffer == None || buffer.value.len == 0 {
        return OK, [], p;
      }
      status := EntryGuard(qpId);
      if status != OK {
        return status, [], p;
      }
      SufficientIffShortChains(configuration.burst, configuration.sgl);
      status, buffers, p := CompressOn(qpMemory[qpId], queues[qpId], buffer.value);
      if status == OK {
        IdleIsFull(qpMemory[qpId]);
      } else if configuration.sgl == 1 && queues[qpId].codec.Lawful() {
        NoneLost(queues[qpId].codec, old(queues[qpId].host.bytes), configuration, buffer.value, p.offset, p.zones, p.more, p.c,
                 old(qpMemory[qpId].device.State()), qpMemory[qpId].device.State());
      }
    }

    /** Decompress the buffers of one compression, in order. The capacity of the output is checked
        before anything else. */
    method DecompressBuffers(qpId: nat, buffers: seq<Slice>, output: Option<Slice>) returns (status: Status, size: nat)
      requires Ready()
      requires output.Some? && Verdict(qpId) == OK ==>
                 && Idle(qpMemory[qpId], queues[qpId]) && AllWithin(queues[qpId].host.bytes, buffers)
                 && Within(queues[qpId].host.bytes, output.value)
                 && forall i :: 0 <= i < |buffers| ==> buffers[i].region != output.value.region
      modifies this`numMaybeNotOk, Footprint(qpId)
      ensures buffers == [] ==> status == OK && size == 0
      ensures status == CapacityError || old(Verdict(qpId)) != OK || status == OK || status == OutOfMemory || status == IOError
      ensures buffers != [] ==> (status == CapacityError <==> output == None || output.value.len < Product(|buffers|, configuration.seg))
      ensures buffers != [] && status != CapacityError ==>
                && (status == Invalid <==> state != Started || qpId >= |qpMemory|)
                && (status == Cancelled <==> state == Started && qpId < |qpMemory| && old(qpMemory[qpId].pending) != [])
      ensures buffers != [] && status != CapacityError && old(Verdict(qpId)) != OK ==> status == old(Verdict(qpId))
      ensures buffers == [] || status == CapacityError || old(Verdict(qpId)) != OK ==> unchanged(Footprint(qpId))
      ensures buffers != [] && status == OK ==>
                var memory, queue := qpMemory[qpId], queues[qpId];
                && old(Verdict(qpId)) == OK && Idle(memory, queue) && memory.Full()
                && output.Some? && Within(queue.host.bytes, output.value) && size <= output.value.len
                && Decompressed(queue.codec, old(queue.host.bytes), queue.host.bytes, configuration, buffers, output.value, size)
                && queue.executed == old(queue.executed) + CeilDiv(|buffers|, configuration.sgl)
      ensures buffers != [] && status != CapacityError && old(Verdict(qpId)) == OK ==>
                && queues[qpId].longest <= 10
                && (queues[qpId].longest == 10 ==> status == IOError)
                && queues[qpId].host.refusals == old(queues[qpId].host.refusals)
      ensures configuration.sgl <= 8 ==> status != OutOfMemory
      ensures buffers != [] && status == IOError ==>
                output.Some? && qpId < |qpMemory| && Spoilt(queues[qpId], old(queues[qpId].failures), old(queues[qpId].host.bytes), configuration, buffers, output.value)
      ensures status != OK ==> size == 0
      ensures buffers != [] && old(Verdict(qpId)) == OK && (status == OutOfMemory || status == IOError) ==>
                var memory := qpMemory[qpId];
                memory.Accountable() && memory.LostMbufs() == 0 && (status == IOError ==> memory.LostOps() == 0)
      ensures output.Some? && old(Verdict(qpId)) == OK ==>
                var memory, queue := qpMemory[qpId], queues[qpId];
                && memory.device.Valid() && memory.device.State() == old(memory.device.State())
                && Known(memory.pool.table, memory.pending) && queue.failures >= old(queue.failures)
                && OnlyChanged(old(queue.host.bytes), queue.host.bytes, output.value)
                && SameLength(old(queue.host.bytes), queue.host.bytes, output.value.region)
    {
      hide Decompressed, Spoilt, Balanced;
      size := 0;
      if buffers == [] {
        return OK, 0;
      }
      var minCapacity := MinCapacity(|buffers|, configuration.seg);
      if output == None || output.value.len < minCapacity {
        return CapacityError, 0;
      }
      status := EntryGuard(qpId);
      if status != OK {
        return status, 0;
      }
      SufficientIffShortChains(configuration.burst, configuration.sgl);
      status, size := DecompressOn(qpMemory[qpId], queues[qpId], buffers, output.value);
    }
  }

  /** What the environment refuses while a device starts: pools or arrays to some queue pairs,
      configuring the device, setting some queue pairs up, and starting it. */
  datatype Refusals = Refusals(pools: set<nat>, configure: bool, queuePairs: set<nat>, start: bool)
  {
    /** Nothing that numQps queue pairs need is refused. */
    ghost predicate Spare(numQps: nat)
    {
      !configure && !start && forall q :: 0 <= q < numQps ==> q !in pools && q !in queuePairs
    }
  }

  /** A queue pair fresh from initialisation. */
  ghost predicate Furnished(memory: QueuePairMemory, queue: HardwareQueue, cfg: Settings, device: DeviceMemory)
    reads memory, memory.operations, memory.pool, queue
  {
    && memory.cfg == cfg && memory.device == device && Fixed(memory, queue) && memory.Sized()
    && InStep(memory, queue) && memory.pending == []
  }

  /** Queue pairs share neither memory nor pools. */
  ghost predicate Separated(memories: seq<QueuePairMemory>)
  {
    forall i, j :: 0 <= i < j < |memories| ==> memories[i] != memories[j] && memories[i].pool != memories[j].pool
  }

  /** The memory of one queue pair and its side of the device. */
  method SetUpQueuePair(cfg: Settings, device: DeviceMemory, codec: Codec, stalls: nat, refused: bool)
      returns (status: Status, memory: QueuePairMemory, queue: HardwareQueue)
    requires cfg.Valid() && device.compressedSegSize == cfg.cseg
    ensures status == if refused then Invalid else OK
    ensures fresh(memory) && fresh(memory.pool) && fresh(queue) && queue.codec == codec
    ensures Furnished(memory, queue, cfg, device)
  {
    memory := new QueuePairMemory(cfg, device);
    queue := new HardwareQueue(codec, device.pool.host, memory.pool, stalls);
    DequeueRegionHoldsBurst(cfg.burst, cfg.sgl);
    status := if refused then Invalid else OK;
  }

  /** What validation asks of a device: how many queue pairs it allows (0 for any number), whether it
      knows DEFLATE and chained mbufs, and whether window size and Huffman coding suit it. */
  datatype DeviceInfo = DeviceInfo(maxQueuePairs: nat, deflate: bool, chaining: bool, coding: bool)

  ghost predicate Acceptable(configuration: Configuration, info: DeviceInfo, numQps: nat)
    reads configuration
  {
    && (info.maxQueuePairs == 0 || numQps <= info.maxQueuePairs) && configuration.burstSize > 0
    && info.deflate && (configuration.maxSglSegs > 1 ==> info.chaining) && info.coding
    && MIN_SEG_SIZE <= configuration.decompressedSegSize <= MAX_SEG_SIZE
    && MIN_PREALLOCATE_MEMZONES <= configuration.maxPreallocateMemzones <= RTE_MAX_MEMZONE
  }

  /** Check a configuration against the device; a segment limit of zero becomes one. What passes has all
      the sizes the pipeline relies on. */
  method ValidateConfiguration(configuration: Configuration, info: DeviceInfo, numQps: nat) returns (status: Status)
    requires configuration.Valid()
    modifies configuration`maxSglSegs
    ensures status == OK || status == Invalid || status == NotImplemented
    ensures status == OK <==> old(Acceptable(configuration, info, numQps))
    ensures status == OK <==>
              && (info.maxQueuePairs == 0 || numQps <= info.maxQueuePairs) && configuration.burstSize > 0
              && info.deflate && (old(configuration.maxSglSegs) <= 1 || info.chaining) && info.coding
              && 8 <= configuration.decompressedSegSize <= 59460 && 20 <= configuration.maxPreallocateMemzones <= 2560
    ensures status == NotImplemented <==>
              (info.maxQueuePairs == 0 || numQps <= info.maxQueuePairs) && configuration.burstSize > 0 && !info.deflate
    ensures configuration.Valid()
    ensures status == OK ==>
              && configuration.Chosen().Valid()
              && configuration.maxSglSegs == if old(configuration.maxSglSegs) == 0 then 1 else old(configuration.maxSglSegs)
  {
    if info.maxQueuePairs > 0 && numQps > info.maxQueuePairs {
      return Invalid;
    }
    if configuration.burstSize == 0 {
      return Invalid;
    }
    if !info.deflate {
      return NotImplemented;
    }
    if configuration.maxSglSegs < 1 {
      configuration.maxSglSegs := 1;
    }
    if configuration.maxSglSegs > 1 && !info.chaining {
      return Invalid;
    }
    if configuration.decompressedSegSize < MIN_SEG_SIZE || configuration.decompressedSegSize > MAX_SEG_SIZE {
      return Invalid;
    }
    if !info.coding {
      return Invalid;
    }
    if configuration.maxPreallocateMemzones < MIN_PREALLOCATE_MEMZONES || configuration.maxPreallocateMemzones > RTE_MAX_MEMZONE {
      return Invalid;
    }
    CompressedSizeFitsMbuf(configuration.decompressedSegSize, configuration.compressedSegSize);
    return OK;
  }

  /** Initialise a device with numQps queue pairs: validate the configuration, preallocate device memory,
      set up the queue pairs and start. Unless all of that succeeds the device stays unstarted and
      answers every request with Invalid. It succeeds when the configuration is acceptable, at least
      twenty zones are to be had and nothing else is refused. */
  method Initialize(configuration: Configuration, info: DeviceInfo, numQps: nat, pool: RtememzoneMemoryPool, codec: Codec, stalls: nat,
                    refusals: Refusals)
      returns (status: Status, app: CompressDevice, device: DeviceMemory?)
    requires configuration.Valid() && pool.Valid()
    modifies configuration`maxSglSegs, pool, pool.host, pool.tracker
    ensures fresh(app) && Extends(old(pool.host.bytes), pool.host.bytes)
    ensures status == OK || status == Invalid || status == NotImplemented || status == OutOfMemory
    ensures !old(Acceptable(configuration, info, numQps)) ==>
              && unchanged(pool, pool.host, pool.tracker)
              && (status == NotImplemented || status == Invalid)
              && (status == NotImplemented <==>
                    (info.maxQueuePairs == 0 || numQps <= info.maxQueuePairs) && configuration.burstSize > 0 && !info.deflate)
    ensures old(Acceptable(configuration, info, numQps)) ==>
              && device != null && status != NotImplemented
              && (status == OutOfMemory <==> |device.memzonePool| < MIN_PREALLOCATE_MEMZONES)
              && (status != OutOfMemory ==> (status == OK <==> refusals.Spare(numQps)))
              && pool.host.refusals ==
                 old(pool.host.refusals) + (if |device.memzonePool| < configuration.maxPreallocateMemzones then 1 else 0)
    ensures status == OK ==>
              && old(Acceptable(configuration, info, numQps))
              && app.configuration == configuration.Chosen() && app.configuration.Valid()
              && app.state == Started && |app.qpMemory| == numQps && app.Ready() && Separated(app.qpMemory)
              && device != null && device.pool == pool && device.Valid() && device.occupiedMemzones == {}
              && MIN_PREALLOCATE_MEMZONES <= |device.memzonePool| <= configuration.maxPreallocateMemzones
              && forall q :: 0 <= q < numQps ==>
                   && app.qpMemory[q].device == device && app.queues[q].codec == codec
                   && Idle(app.qpMemory[q], app.queues[q]) && app.Verdict(q) == OK
    ensures status != OK ==> app.Ready() && forall q: nat :: app.Verdict(q) == Invalid
    ensures old(Acceptable(configuration, info, numQps)) && status != OK ==>
              (app.state == Configured <==>
                 status != OutOfMemory && !refusals.configure && forall q :: 0 <= q < numQps ==> q !in refusals.pools)
  {
    hide Balanced, Served, Separated, LastOf, IsCompressedSize;
    device := null;
    app := new CompressDevice(configuration.Chosen(), [], []);
    status := ValidateConfiguration(configuration, info, numQps);
    if status == OK {
      status, app, device := Start(configuration.Chosen(), configuration.maxPreallocateMemzones, numQps, pool, codec, stalls, refusals);
    }
  }

  /** Initialisation past validation. */
  method Start(cfg: Settings, maxPreallocate: nat, numQps: nat, pool: RtememzoneMemoryPool, codec: Codec, stalls: nat, refusals: Refusals)
      returns (status: Status, app: CompressDevice, device: DeviceMemory)
    requires cfg.Valid() && pool.Valid() && maxPreallocate >= MIN_PREALLOCATE_MEMZONES
    modifies pool, pool.host, pool.tracker
    ensures fresh(app) && Extends(old(pool.host.bytes), pool.host.bytes)
    ensures status == OK || status == Invalid || status == OutOfMemory
    ensures status == OutOfMemory <==> |device.memzonePool| < MIN_PREALLOCATE_MEMZONES
    ensures status != OutOfMemory ==> (status == OK <==> refusals.Spare(numQps))
    ensures pool.host.refusals == old(pool.host.refusals) + (if |device.memzonePool| < maxPreallocate then 1 else 0)
    ensures status == OK ==>
              && app.configuration == cfg && app.state == Started && |app.qpMemory| == numQps && app.Ready() && Separated(app.qpMemory)
              && device.pool == pool && device.Valid() && device.occupiedMemzones == {}
              && MIN_PREALLOCATE_MEMZONES <= |device.memzonePool| <= maxPreallocate
              && forall q :: 0 <= q < numQps ==>
                   && app.qpMemory[q].device == device && app.queues[q].codec == codec
                   && Idle(app.qpMemory[q], app.queues[q]) && app.Verdict(q) == OK
    ensures status != OK ==> app.Ready() && forall q: nat :: app.Verdict(q) == Invalid
    ensures status != OK ==>
              (app.state == Configured <==>
                 status != OutOfMemory && !refusals.configure && forall q :: 0 <= q < numQps ==> q !in refusals.pools)
  {
    hide Balanced, Served, Separated, LastOf, MbufsInBurst, OpsInPool, MbufsInPool, Serves;
    app := new CompressDevice(cfg, [], []);
    device := new DeviceMemory(pool, cfg.burst, cfg.cseg, maxPreallocate);
    status := device.Preallocate();
    if status != OK {
      return;
    }
    var memories, queues;
    status, memories, queues := SetUpQueuePairs(cfg, numQps, device, codec, stalls, refusals.pools);
    if status != OK {
      return;
    }
    app := new CompressDevice(cfg, memories, queues);
    status := app.BringUp(numQps, refusals);
  }

  /** Queue pairs with pools of their own; `refused` are those whose pools cannot be had. */
  method SetUpQueuePairs(cfg: Settings, numQps: nat, device: DeviceMemory, codec: Codec, stalls: nat, refused: set<nat>)
      returns (status: Status, memories: seq<QueuePairMemory>, queues: seq<HardwareQueue>)
    requires cfg.Valid() && device.compressedSegSize == cfg.cseg
    ensures status == OK || status == Invalid
    ensures status == OK <==> forall q :: 0 <= q < numQps ==> q !in refused
    ensures status == OK ==>
              && |memories| == |queues| == numQps
              && Separated(memories)
              && forall q :: 0 <= q < numQps ==> queues[q].codec == codec && Furnished(memories[q], queues[q], cfg, device)
  {
    hide Balanced, LastOf;
    memories, queues := [], [];
    while |memories| < numQps
      invariant |memories| == |queues| <= numQps && Separated(memories)
      invariant forall q :: 0 <= q < |memories| ==> q !in refused
      invariant forall q :: 0 <= q < |memories| ==> queues[q].codec == codec && Furnished(memories[q], queues[q], cfg, device)
      decreases numQps - |memories|
    {
      var memory, queue;
      status, memory, queue := SetUpQueuePair(cfg, device, codec, stalls, |memories| in refused);
      if status != OK {
        return;
      }
      memories, queues := memories + [memory], queues + [queue];
    }
    status := OK;
  }

  /** What Decompress demands of its output: one segment a buffer. */
  method MinCapacity(n: nat, seg: nat) returns (bytes: nat)
    ensures bytes == Product(n, seg)
  {
    CountingIsMultiplication(n, seg);
    bytes := n * seg;
  }

  /** A queue pair that has not seen an error, with nothing outstanding. */
  ghost predicate Idle(memory: QueuePairMemory, queue: HardwareQueue)
    reads memory, memory.operations, memory.pool, memory.device, memory.device.pool, memory.device.pool.host,
          memory.device.pool.tracker, queue
  {
    InStep(memory, queue) && memory.pending == [] && memory.device.Valid()
  }

  /** A decompression in progress, the device aside: the first `index` buffers are assembled, the
      operations that have reported produced `size` bytes. */
  ghost predicate Restoring(memory: QueuePairMemory, queue: HardwareQueue, size: nat, m0: Memory, buffers: seq<Slice>,
                            output: Slice, index: nat, offset: nat, c: nat)
    requires Fixed(memory, queue)
    reads memory, memory.operations, memory.pool, queue, queue.host
  {
    && memory.Valid() && Supplied(memory.cfg, buffers, output, m0)
    && SameLength(m0, queue.host.bytes, output.region)
    && Taken(memory.cfg, |buffers|, index, offset)
    && DecompressRunning(queue.codec, m0, queue.State(), memory.pending, memory.cfg, buffers, output, index, c)
    && size == |Streams(queue.codec, Decompress, m0, DecompressJobs(memory.cfg, buffers, output, index), c)|
  }

  /** An error-free decompression in progress. */
  ghost predicate Decompressing(memory: QueuePairMemory, queue: HardwareQueue, size: nat, m0: Memory, buffers: seq<Slice>,
                                output: Slice, index: nat, offset: nat, c: nat)
    requires Fixed(memory, queue)
    reads memory, memory.operations, memory.pool, queue, queue.host
  {
    Restoring(memory, queue, size, m0, buffers, output, index, offset, c) && InStep(memory, queue)
  }

  /** At any time: no failure is forgotten, and at most ten bursts in a row were idle on a device with
      errors. */
  ghost predicate Since(queue: HardwareQueue, past: Past)
    reads queue
  {
    past.failures <= queue.failures && queue.longest <= NUM_IGNORED_MAYBE_NOT_OK_BURST
  }

  /** What can stop a compression in the device: it has counted errors or failed an operation, or the
      stream of operation c does not fit its zones. */
  ghost predicate Blocked(queue: HardwareQueue, failures: nat, m0: Memory, cfg: Settings, input: Slice, offset: nat,
                          zones: seq<Memzone>, c: nat)
    reads queue
  {
    Troubled(queue, failures) || Overflows(queue.codec, m0, cfg, input, offset, zones, c)
  }

  ghost predicate Overflows(codec: Codec, m0: Memory, cfg: Settings, input: Slice, offset: nat, zones: seq<Memzone>, c: nat)
  {
    && cfg.seg > 0 && cfg.sgl > 0 && |zones| == CeilDiv(offset, cfg.seg) && offset <= input.len
    && Unfit(codec, Compress, m0, CompressJobs(cfg, input, offset, zones), c)
  }

  /** What lies behind an I/O error: the device or a stream, and then no reservation was refused and no
      pool object is lost; or one zone was refused, and then the mbufs that were to carry it and those
      after it are lost. */
  ghost predicate Explained(memory: QueuePairMemory, queue: HardwareQueue, past: Past, m0: Memory, input: Slice, offset: nat,
                            zones: seq<Memzone>, more: seq<Memzone>, c: nat)
    requires Proportioned(memory)
    reads memory, memory.pool, memory.device, queue, queue.host
  {
    || (Blocked(queue, past.failures, m0, memory.cfg, input, offset, zones, c) && memory.NothingLost()
        && queue.host.refusals == past.refusals)
    || (memory.device.memzonePool == [] && |zones| + |more| < CeilDiv(input.len, memory.cfg.seg) && memory.LostMbufs() > 0
        && queue.host.refusals == past.refusals + 1)
  }

  /** What can stop a decompression: the device has counted errors or failed an operation, or some
      operation's buffers are no stream or inflate to more than their part of the output. */
  ghost predicate Spoilt(queue: HardwareQueue, failures: nat, m0: Memory, cfg: Settings, buffers: seq<Slice>, output: Slice)
    reads queue
  {
    Troubled(queue, failures) || Undecodable(queue.codec, m0, cfg, buffers, output)
  }

  /** What never changes: sizes, and which objects work together. */
  ghost predicate Fixed(memory: QueuePairMemory, queue: HardwareQueue)
  {
    Proportioned(memory) && Paired(memory, queue)
  }

  ghost predicate Proportioned(memory: QueuePairMemory)
  {
    && memory.cfg.Valid() && memory.device.compressedSegSize == memory.cfg.cseg
    && memory.mbufs.Length == MbufsInBurst(memory.cfg.burst, memory.cfg.sgl) && memory.cfg.burst <= memory.totals.ops
  }

  /** The operations and the host memory a queue pair works on. */
  ghost function StateOf(memory: QueuePairMemory): Machine
    reads memory.pool, memory.device.pool.host
  {
    Machine(memory.pool.table, memory.device.pool.host.bytes)
  }

  /** A compression in progress, the device aside: the input is assembled up to `offset`, its first c
      operations have reported. */
  ghost predicate Underway(memory: QueuePairMemory, codec: Codec, buffers: seq<Slice>, m0: Memory,
                           st0: Zones, input: Slice, offset: nat, zones: seq<Memzone>, c: nat)
    requires Proportioned(memory)
    reads memory, memory.operations, memory.pool, memory.device, memory.device.pool, memory.device.pool.host,
          memory.device.pool.tracker
  {
    && memory.Valid() && memory.device.Valid()
    && Planned(memory.cfg, input, m0, st0, memory.device.State(), offset, zones)
    && CompressRunning(codec, m0, StateOf(memory), memory.pending, memory.cfg, input, offset, zones, c)
    && buffers == Harvest(codec, Compress, m0, CompressJobs(memory.cfg, input, offset, zones), c)
  }

  /** An error-free compression in progress. */
  ghost predicate Compressing(memory: QueuePairMemory, codec: Codec, inflight: seq<OpId>, buffers: seq<Slice>, m0: Memory,
                              st0: Zones, input: Slice, offset: nat, zones: seq<Memzone>, c: nat)
    requires Proportioned(memory)
    reads memory, memory.operations, memory.pool, memory.device, memory.device.pool, memory.device.pool.host,
          memory.device.pool.tracker
  {
    && Underway(memory, codec, buffers, m0, st0, input, offset, zones, c)
    && Outstanding(memory, inflight) && |inflight| <= MAX_INFLIGHT_OPS
  }

  /** A compression that has failed or finished: everything it took can still be found. */
  ghost predicate Ended(memory: QueuePairMemory, codec: Codec, buffers: seq<Slice>, m0: Memory, st0: Zones,
                        input: Slice, offset: nat, zones: seq<Memzone>, more: seq<Memzone>, c: nat)
    requires Proportioned(memory)
    reads memory, memory.pool, memory.device, memory.device.pool, memory.device.pool.host, memory.device.pool.tracker
  {
    && memory.device.Valid() && memory.Accountable() && offset <= input.len && Within(m0, input)
    && |zones| == CeilDiv(offset, memory.cfg.seg) && |zones| + |more| <= CeilDiv(input.len, memory.cfg.seg)
    && OnlyZonesChanged(m0, memory.device.pool.host.bytes, st0)
    && Stopped(codec, m0, st0, memory.device.State(), memory.pool.table, memory.pending, buffers,
               CompressJobs(memory.cfg, input, offset, zones), Chunks(zones, memory.cfg.sgl), more, c, input.region)
  }

  lemma UnderwayRolls(memory: QueuePairMemory, queue: HardwareQueue, collector: Collector, m0: Memory, st0: Zones, input: Slice,
                      offset: nat, zones: seq<Memzone>, c: nat)
    requires Fixed(memory, queue) && collector.x == Compress
    requires Underway(memory, queue.codec, collector.buffers, m0, st0, input, offset, zones, c)
    ensures Rolling(memory, queue, collector, m0, CompressJobs(memory.cfg, input, offset, zones), c)
  {
  }

  lemma RollsUnderway(memory: QueuePairMemory, queue: HardwareQueue, collector: Collector, m0: Memory, st0: Zones, input: Slice,
                      offset: nat, zones: seq<Memzone>, c: nat)
    requires Fixed(memory, queue) && collector.x == Compress && memory.device.Valid()
    requires Planned(memory.cfg, input, m0, st0, memory.device.State(), offset, zones)
    requires Rolling(memory, queue, collector, m0, CompressJobs(memory.cfg, input, offset, zones), c)
    ensures Underway(memory, queue.codec, collector.buffers, m0, st0, input, offset, zones, c)
  {
  }

  lemma RestoringRolls(memory: QueuePairMemory, queue: HardwareQueue, collector: Collector, m0: Memory, buffers: seq<Slice>,
                       output: Slice, index: nat, offset: nat, c: nat)
    requires Fixed(memory, queue) && collector.x == Decompress
    requires Restoring(memory, queue, collector.size, m0, buffers, output, index, offset, c)
    ensures Rolling(memory, queue, collector, m0, DecompressJobs(memory.cfg, buffers, output, index), c)
  {
  }

  lemma RollsRestoring(memory: QueuePairMemory, queue: HardwareQueue, collector: Collector, m0: Memory, buffers: seq<Slice>,
                       output: Slice, index: nat, offset: nat, c: nat)
    requires Fixed(memory, queue) && collector.x == Decompress && Supplied(memory.cfg, buffers, output, m0)
    requires SameLength(m0, queue.host.bytes, output.region) && Taken(memory.cfg, |buffers|, index, offset)
    requires Rolling(memory, queue, collector, m0, DecompressJobs(memory.cfg, buffers, output, index), c)
    ensures Restoring(memory, queue, collector.size, m0, buffers, output, index, offset, c)
  {
  }

  /** So far only the output has changed. */
  lemma RestoringKeeps(memory: QueuePairMemory, queue: HardwareQueue, size: nat, m0: Memory, buffers: seq<Slice>,
                       output: Slice, index: nat, offset: nat, c: nat)
    requires Fixed(memory, queue) && Restoring(memory, queue, size, m0, buffers, output, index, offset, c)
    ensures OnlyChanged(m0, queue.host.bytes, output) && SameLength(m0, queue.host.bytes, output.region)
    ensures Known(memory.pool.table, memory.pending) && memory.NothingLost()
  {
    memory.ValidAccountable();
    OnlyOutputChanges(queue.codec, m0, queue.State(), memory.pending, memory.cfg, buffers, output, index, c);
  }

  /** Wherever a compression is, it can be ended. */
  lemma UnderwayEnds(memory: QueuePairMemory, codec: Codec, buffers: seq<Slice>, m0: Memory, st0: Zones, input: Slice,
                     offset: nat, zones: seq<Memzone>, c: nat)
    requires Proportioned(memory) && Underway(memory, codec, buffers, m0, st0, input, offset, zones, c)
    ensures Ended(memory, codec, buffers, m0, st0, input, offset, zones, [], c) && memory.NothingLost()
  {
    hide Planned, CompressRunning, Balanced, Served, Stopped, OnlyZonesChanged;
    memory.ValidAccountable();
    PlannedWithin(memory.cfg, input, m0, st0, memory.device.State(), offset, zones);
    RunStops(codec, m0, StateOf(memory), memory.pending, memory.cfg, input, st0, memory.device.State(), offset, zones, c, buffers);
    PlanConfined(codec, m0, StateOf(memory), memory.pending, memory.cfg, input, st0, memory.device.State(), offset, zones, c);
  }

  /** A compression that ended because no zone was left had found too few free ones. */
  lemma EndedShort(memory: QueuePairMemory, codec: Codec, buffers: seq<Slice>, m0: Memory, st0: Zones, input: Slice,
                   offset: nat, zones: seq<Memzone>, more: seq<Memzone>, c: nat)
    requires Proportioned(memory) && Ended(memory, codec, buffers, m0, st0, input, offset, zones, more, c)
    requires memory.device.memzonePool == []
    ensures |st0.free| <= |zones| + |more|
  {
    PlanGroups(memory.cfg, input, offset, zones);
    StackUsedUp(st0, memory.device.State(), zones + more, input.region, m0);
  }

  /** All zones have this size. */
  ghost predicate Alike(zones: seq<Memzone>, size: nat)
  {
    forall z :: z in zones ==> z.len == size
  }

  lemma EndedAlike(memory: QueuePairMemory, codec: Codec, buffers: seq<Slice>, m0: Memory, st0: Zones, input: Slice, p: Progress)
    requires Proportioned(memory) && Ended(memory, codec, buffers, m0, st0, input, p.offset, p.zones, p.more, p.c)
    ensures Alike(p.zones, memory.cfg.cseg)
  {
    PlanGroups(memory.cfg, input, p.offset, p.zones);
    LoanSized(st0, memory.device.State(), p.zones, p.more, input.region, m0, memory.device.pool.tracker.memzones, memory.cfg.cseg);
  }

  /** With nothing left outstanding a compression of the whole input has succeeded. */
  lemma UnderwayFinishes(memory: QueuePairMemory, codec: Codec, buffers: seq<Slice>, m0: Memory, st0: Zones, input: Slice, p: Progress)
    requires Proportioned(memory) && Underway(memory, codec, buffers, m0, st0, input, input.len, p.zones, p.c)
    requires memory.pending == [] && p.offset == input.len && p.more == []
    ensures Alike(p.zones, memory.cfg.cseg) && OnlyZonesChanged(m0, memory.device.pool.host.bytes, st0)
    ensures Finished(codec, m0, memory.device.pool.host.bytes, st0, memory.device.State(), memory.cfg, input, p, buffers)
    ensures p.c == CeilDiv(CeilDiv(input.len, memory.cfg.seg), memory.cfg.sgl)
  {
    hide Planned, CompressRunning, Served;
    WholeLoan(memory, codec, buffers, m0, st0, input, p);
    PlanConfined(codec, m0, StateOf(memory), memory.pending, memory.cfg, input, st0, memory.device.State(), input.len, p.zones, p.c);
    CompressionSucceeds(codec, m0, StateOf(memory), st0, memory.device.State(), memory.cfg, input, p, buffers);
  }

  lemma WholeLoan(memory: QueuePairMemory, codec: Codec, buffers: seq<Slice>, m0: Memory, st0: Zones, input: Slice, p: Progress)
    requires Proportioned(memory) && Underway(memory, codec, buffers, m0, st0, input, input.len, p.zones, p.c)
    ensures Alike(p.zones, memory.cfg.cseg)
  {
    hide CompressRunning, Served;
    AppendNothing(p.zones);
    LoanSized(st0, memory.device.State(), p.zones, [], input.region, m0, memory.device.pool.tracker.memzones, memory.cfg.cseg);
  }

  /** The pool stays backed when only one region's contents change. */
  lemma StillBacked(memzones: ZoneMap, m0: Memory, m: Memory, output: Slice)
    requires Backed(memzones, m0) && OnlyChanged(m0, m, output) && SameLength(m0, m, output.region)
    ensures Backed(memzones, m)
  {
  }

  /** Progress of a turn: fewer staged operations, or as many and fewer inside the device, or the
      device used up a stall. */
  predicate Advanced(staged: nat, inflight: nat, stalls: nat, staged': nat, inflight': nat, stalls': nat)
  {
    staged' < staged || (staged' == staged && (inflight' < inflight || (inflight' == inflight && stalls' < stalls)))
  }

  /** The hardware failed an operation of the batch, or job c is unfit. */
  ghost predicate Blamed(codec: Codec, x: Xform, m0: Memory, jobs: seq<Job>, c: nat, glitches: seq<Option<seq<byte>>>)
  {
    (exists i :: 0 <= i < |glitches| && glitches[i] != None) || Unfit(codec, x, m0, jobs, c)
  }

  /** The device has counted errors, or has failed an operation since its failure count was `failures`. */
  ghost predicate Troubled(queue: HardwareQueue, failures: nat)
    reads queue
  {
    queue.enqueueErrCount > 0 || queue.dequeueErrCount > 0 || queue.failures > failures
  }

  lemma BatchCompleted(codec: Codec, x: Xform, m0: Memory, s: Machine, pending: seq<OpId>, jobs: seq<Job>, c: nat,
                       glitches: seq<Option<seq<byte>>>, done: nat, c': nat)
    requires Running(codec, x, m0, s, pending, jobs, c) && Executed(codec, x, m0, s, pending, jobs, c, glitches)
    requires Tidy(x, m0, s, pending, jobs) && Completed(s.table, pending[..|glitches|], done) && c' == c + done
    ensures Running(codec, x, m0, s, pending[done..], jobs, c') && Tidy(x, m0, s, pending[done..], jobs)
    ensures Known(s.table, pending[..done])
    ensures Harvest(codec, x, m0, jobs, c') == Harvest(codec, x, m0, jobs, c) + Reported(s.table, pending[..done])
    ensures |Streams(codec, x, m0, jobs, c')| == |Streams(codec, x, m0, jobs, c)| + Produced(s.table, pending[..done])
    ensures done < |glitches| ==> Blamed(codec, x, m0, jobs, c', glitches)
  {
    assert forall i :: 0 <= i < done ==> pending[i] == pending[..|glitches|][i];
    RunCompletesAll(codec, x, m0, s, pending, jobs, c, glitches, done, c');
    TidyPops(x, m0, s, pending, jobs, done);
    RunReports(codec, x, m0, s, pending, jobs, c, glitches, done);
    ReportsAll(codec, x, m0, s.table, pending, jobs, c, done, c');
    if done < |glitches| {
      assert pending[done] == pending[..|glitches|][done];
      StoppedFaulty(codec, x, m0, s, pending, jobs, c, glitches, done);
    }
  }

  /** What the callbacks have recorded after the operations named by ids. */
  ghost predicate Recorded(x: Xform, table: OpTable, ids: seq<OpId>, buffers: seq<Slice>, size: nat, buffers': seq<Slice>, size': nat)
    requires Known(table, ids)
  {
    && buffers' == (if x == Compress then buffers + Reported(table, ids) else buffers)
    && size' == (if x == Decompress then size + Produced(table, ids) else size)
  }

  lemma RecordedOne(x: Xform, table: OpTable, ids: seq<OpId>, id: OpId, buffers: seq<Slice>, size: nat, buffers': seq<Slice>, size': nat)
    requires Known(table, ids) && id in table
    requires Recorded(x, table, ids, buffers, size, buffers', size')
    ensures Known(table, ids + [id])
    ensures Recorded(x, table, ids + [id], buffers, size, Listed(x, table[id], buffers'), Counted(x, table[id], size'))
  {
    assert (ids + [id])[..|ids|] == ids;
    ConcatAssociative(buffers, Reported(table, ids), Pieces(Slices(table[id].dst), table[id].produced));
  }

  /** The oldest outstanding operation joins those that are gone. */
  lemma MoveOver(gone: seq<OpId>, pending: seq<OpId>)
    requires pending != []
    ensures gone + [pending[0]] + pending[1..] == gone + pending
  {
  }

  /** The handle dequeued at position |gone| is the oldest operation still outstanding. */
  lemma NextHandle(ops: seq<OpId>, handles: seq<OpId>, base: nat, all: seq<OpId>, gone: seq<OpId>, pending: seq<OpId>, returned: nat)
    requires base + returned <= |ops| && returned <= |all| && handles == ops[base..base + returned] == all[..returned]
    requires gone + pending == all && |gone| < returned
    ensures pending != [] && ops[base + |gone|] == all[..returned][|gone|] == pending[0]
  {
    assert handles[|gone|] == ops[base + |gone|];
    assert all[|gone|] == pending[0];
  }

  lemma BatchDone(table: OpTable, all: seq<OpId>, gone: seq<OpId>, pending: seq<OpId>, returned: nat)
    requires gone + pending == all && |gone| <= returned <= |all| && Known(table, all[..returned])
    requires forall i :: 0 <= i < |gone| ==> gone[i] in table && table[gone[i]].status == Success
    requires |gone| < returned ==> pending[0] in table && table[pending[0]].status != Success
    ensures all[..|gone|] == gone && all[|gone|..] == pending && Completed(table, all[..returned], |gone|)
  {
  }

  /** Running a batch keeps the run going, settles the batch and leaves all accounts alone. */
  lemma BatchExecuted(codec: Codec, x: Xform, m0: Memory, s: Machine, pending: seq<OpId>, jobs: seq<Job>, c: nat, k: nat,
                      glitches: seq<Option<seq<byte>>>, t: Totals, free: set<OpId>, numFree: nat, refD: int, refC: int)
    requires Running(codec, x, m0, s, pending, jobs, c) && Tidy(x, m0, s, pending, jobs)
    requires k <= |pending| && |glitches| == k && Executable(s, pending[..k])
    requires Balanced(t, s.table, free, pending, numFree, refD, refC)
    ensures var s' := ExecuteAll(codec, s, pending[..k], glitches);
            && Running(codec, x, m0, s', pending, jobs, c) && Executed(codec, x, m0, s', pending, jobs, c, glitches)
            && Tidy(x, m0, s', pending, jobs) && Balanced(t, s'.table, free, pending, numFree, refD, refC)
            && s'.table.Keys == s.table.Keys && SameShape(s.mem, s'.mem)
  {
    RunExecutes(codec, x, m0, s, pending, jobs, c, k, glitches);
    TidyExecutes(codec, x, m0, s, pending, jobs, c, k, glitches);
    ExecuteAllTable(codec, s, pending[..k], glitches);
    BalancedExecuted(t, s.table, ExecuteAll(codec, s, pending[..k], glitches).table, free, pending, numFree, refD, refC);
  }

  lemma StagedStill(pending: seq<OpId>, ops: seq<OpId>, ops': seq<OpId>, burst: nat, staged: nat)
    requires staged <= burst <= |ops| == |ops'| && forall i :: 0 <= i < burst ==> ops'[i] == ops[i]
    requires LastOf(pending, ops, staged)
    ensures LastOf(pending, ops', staged)
  {
  }

  lemma InflightExecutable(codec: Codec, x: Xform, m0: Memory, s: Machine, pending: seq<OpId>, inflight: seq<OpId>, jobs: seq<Job>, c: nat)
    requires Running(codec, x, m0, s, pending, jobs, c) && inflight <= pending
    ensures Executable(s, inflight)
  {
    forall i | 0 <= i < |inflight|
      ensures inflight[i] in s.table && Addressable(s.mem, JobOf(s.table[inflight[i]]))
    {
      assert inflight[i] == pending[i];
    }
  }

  /** The device takes the first `accepted` staged operations. */
  lemma SentGrows(pending: seq<OpId>, inflight: seq<OpId>, ops: seq<OpId>, n: nat, accepted: nat)
    requires inflight <= pending && |inflight| + n == |pending| && accepted <= n && LastOf(pending, ops, n)
    ensures inflight + ops[..n][..accepted] <= pending
  {
    forall i | |inflight| <= i < |inflight| + accepted
      ensures pending[i] == (inflight + ops[..n][..accepted])[i]
    {
      assert ops[i - |inflight|] == pending[i];
    }
  }

  /** Completing the oldest operations shortens what is inside the device. */
  lemma SentPops(pending: seq<OpId>, inflight: seq<OpId>, done: nat)
    requires inflight <= pending && done <= |inflight|
    ensures inflight[done..] <= pending[done..]
    ensures pending[..done] == inflight[..done]
  {
  }
}
