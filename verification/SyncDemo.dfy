/** The synchronous evaluation of the demo application: compress, decompress, recycle, compare. */
module SyncDemo {
  import opened Sequences
  import opened HostMemory
  import opened MemoryPool
  import opened ZoneStack
  import opened DeviceMemory
  import opened Operations
  import opened Accelerator
  import opened Config
  import opened Assembly
  import opened QueuePairMemory
  import opened Plans
  import opened Reclaim
  import opened Results
  import opened Unpacking
  import opened RoundTrip
  import opened CompressDevice

  /** Reserving memory elsewhere leaves the device's zones alone. */
  lemma StillServed(memzones: ZoneMap, memzones': ZoneMap, size: nat, st: Zones)
    requires Served(memzones, size, st) && forall a :: a in memzones ==> a in memzones' && memzones'[a] == memzones[a]
    ensures Served(memzones', size, st)
  {
  }

  lemma SegmentedExtends(codec: Codec, m0: Memory, m: Memory, m': Memory, input: Slice, seg: nat, zones: seq<Memzone>, buffers: seq<Slice>)
    requires seg > 0 && Within(m0, input) && Segmented(codec, m0, m, input, seg, zones, buffers) && Extends(m, m')
    ensures Segmented(codec, m0, m', input, seg, zones, buffers)
  {
  }

  /** Recycling a result puts back one zone per buffer; with one segment an operation that restores
      the stack: the old zones in their old order on top, the newly obtained ones below. */
  lemma ResultRecycles(codec: Codec, m0: Memory, m: Memory, st0: Zones, st: Zones, cfg: Settings, input: Slice,
                       zones: seq<Memzone>, used: seq<Memzone>, buffers: seq<Slice>, memzones: ZoneMap, size: nat)
    requires cfg.Span() > 0 && Within(m0, input) && cfg.seg > 0 && st0.WellFormed()
    requires Compressed(codec, m0, m, st0, st, cfg, input, zones, used, buffers) && Served(memzones, size, st)
    ensures var st' := PutSlices(st, memzones, Reverse(buffers));
            && |st'.free| == |st.free| + |buffers|
            && (used == zones ==> st' == Zones(Reverse(Hot(st0, zones)) + st0.free, st0.occupied))
  {
    ResultPuts(codec, m0, m, st0, st, cfg, input, zones, used, buffers, memzones, size);
    ReverseDistinct(used);
    ReverseElements(used);
    PutAllExact(st, Reverse(used));
    if used == zones {
      PutReversedRestores(st0, zones);
    }
  }

  /** Recycling a result puts no region on the stack that the host had and the device did not count as free. */
  lemma RecycledElsewhere(codec: Codec, m0: Memory, m: Memory, st0: Zones, st: Zones, cfg: Settings, input: Slice,
                          zones: seq<Memzone>, used: seq<Memzone>, buffers: seq<Slice>, memzones: ZoneMap, size: nat, r: Region)
    requires cfg.Span() > 0 && Within(m0, input) && cfg.seg > 0 && st0.WellFormed() && r in m0 && NotFree(st0, r)
    requires Compressed(codec, m0, m, st0, st, cfg, input, zones, used, buffers) && Served(memzones, size, st)
    ensures NotFree(PutSlices(st, memzones, Reverse(buffers)), r)
  {
    TakeAllShape(st0, zones);
    ResultPuts(codec, m0, m, st0, st, cfg, input, zones, used, buffers, memzones, size);
    ResultElsewhere(codec, m0, m, st0, st, cfg, input, zones, used, buffers, r);
    ReverseDistinct(used);
    ReverseElements(used);
    PutAllExact(st, Reverse(used));
    forall i | 0 <= i < |used|
      ensures Reverse(used)[i].region != r
    {
      ReverseAt(used, i);
    }
  }

  lemma SuppliedFresh(cfg: Settings, buffers: seq<Slice>, output: Slice, m: Memory, m1: Memory)
    requires AllWithin(m, buffers) && Extends(m, m1) && Within(m1, output) && output.region !in m
    requires output.len == Product(|buffers|, cfg.seg)
    ensures Supplied(cfg, buffers, output, m1)
  {
    forall i | 0 <= i < |buffers|
      ensures Within(m1, buffers[i]) && buffers[i].region != output.region
    {
      assert Within(m, buffers[i]);
    }
  }

  lemma FreshOutputOnly(m: Memory, m1: Memory, m2: Memory, output: Slice)
    requires Extends(m, m1) && output.region !in m && OnlyChanged(m1, m2, output)
    ensures Extends(m, m2)
  {
  }

  /** Room for the output comes from the same memory pool as the device's zones. */
  method AllocateOutput(memory: QueuePairMemory, buffers: seq<Slice>) returns (status: Status, output: Slice)
    requires memory.device.Valid() && memory.cfg.seg > 0 && buffers != [] && AllWithin(memory.device.pool.host.bytes, buffers)
    modifies memory.device.pool, memory.device.pool.host, memory.device.pool.tracker
    ensures memory.device.Valid() && Extends(old(memory.device.pool.host.bytes), memory.device.pool.host.bytes)
    ensures status == OK || status == OutOfMemory
    ensures memory.device.pool.host.refusals == old(memory.device.pool.host.refusals) +
            (if status != OK && Product(|buffers|, memory.cfg.seg) < SIZE_T_MAX then 1 else 0)
    ensures Product(|buffers|, memory.cfg.seg) >= SIZE_T_MAX ==> status != OK
    ensures status == OK ==>
              && Supplied(memory.cfg, buffers, output, memory.device.pool.host.bytes)
              && output.region !in old(memory.device.pool.host.bytes)
  {
    MulPositive(|buffers|, memory.cfg.seg);
    CountingIsMultiplication(|buffers|, memory.cfg.seg);
    var capacity := |buffers| * memory.cfg.seg;
    var addr;
    output := Slice(0, 0, 0);
    status, addr := memory.device.pool.Allocate(capacity, ZERO_SIZE_AREA);
    StillServed(old(memory.device.pool.tracker.memzones), memory.device.pool.tracker.memzones, memory.device.compressedSegSize,
                memory.device.State());
    if status == OK {
      output := Slice(addr.region, addr.offset, capacity);
      SuppliedFresh(memory.cfg, buffers, output, old(memory.device.pool.host.bytes), memory.device.pool.host.bytes);
    }
  }

  /** The bytes that EvaluateSync compares are equal. */
  lemma CheckPasses(codec: Codec, m0: Memory, m: Memory, m1: Memory, m2: Memory, st0: Zones, st: Zones, cfg: Settings, input: Slice,
                    p: Progress, buffers: seq<Slice>, output: Slice, size: nat)
    requires codec.Lawful() && cfg.seg > 0 && cfg.sgl == 1 && Finished(codec, m0, m, st0, st, cfg, input, p, buffers)
    requires Extends(m, m1) && Extends(m, m2) && Within(m2, output)
    requires Decompressed(codec, m1, m2, cfg, buffers, output, size)
    ensures size == input.len && Within(m2, Slice(output.region, output.start, size)) && Within(m2, input)
    ensures Read(m2, Slice(output.region, output.start, size)) == Read(m2, input)
  {
    SegmentedExtends(codec, m0, m, m1, input, cfg.seg, p.zones, buffers);
    OriginalBytes(codec, m0, m1, m2, cfg, input, p.zones, buffers, output, size);
  }

  /** A result is never empty and can be decompressed. */
  lemma ResultUsable(codec: Codec, m0: Memory, m: Memory, m1: Memory, st0: Zones, st: Zones, cfg: Settings, input: Slice,
                     p: Progress, buffers: seq<Slice>, output: Slice)
    requires codec.Lawful() && cfg.seg > 0 && cfg.sgl == 1 && Finished(codec, m0, m, st0, st, cfg, input, p, buffers)
    requires Extends(m, m1) && input.len > 0
    ensures buffers != [] && !Undecodable(codec, m1, cfg, buffers, output)
  {
    ChunksShape(Read(m0, input), cfg.seg);
    SegmentedExtends(codec, m0, m, m1, input, cfg.seg, p.zones, buffers);
    ResultDecodes(codec, m0, m1, cfg, input, p.zones, buffers, output);
  }

  /** A compression with enough free zones can only be stopped by the device. */
  lemma OnlyTrouble(queue: HardwareQueue, failures: nat, m0: Memory, cfg: Settings, input: Slice, p: Progress)
    requires queue.codec.Lawful() && cfg.Valid() && cfg.sgl == 1 && Compact(queue.codec, cfg.seg, cfg.cseg) && Within(m0, input)
    requires Alike(p.zones, cfg.cseg) && Blocked(queue, failures, m0, cfg, input, p.offset, p.zones, p.c)
    ensures Troubled(queue, failures)
  {
    if |p.zones| == CeilDiv(p.offset, cfg.seg) && p.offset <= input.len {
      AlwaysFit(queue.codec, m0, cfg, input, p.offset, p.zones, p.c);
    }
  }

  /** One segment an operation, a codec that keeps what the sizes promise, and enough free zones. */
  ghost predicate Favourable(codec: Codec, cfg: Settings, free: seq<Memzone>, input: Slice)
  {
    && cfg.seg > 0 && cfg.sgl == 1 && codec.Lawful() && Compact(codec, cfg.seg, cfg.cseg)
    && |free| >= CeilDiv(input.len, cfg.seg)
  }

  // ----- the rounds -----

  /** How often every operation is repeated. */
  const NUM_TESTS := 3

  /** The queue pair can compress the input. */
  ghost predicate Prepared(memory: QueuePairMemory, queue: HardwareQueue, input: Slice)
    reads memory, memory.operations, memory.pool, memory.device, memory.device.pool, memory.device.pool.host,
          memory.device.pool.tracker, queue, queue.host
  {
    Idle(memory, queue) && Within(queue.host.bytes, input) && NotFree(memory.device.State(), input.region)
  }

  /** The zones after a compression begun in state st has taken `zones` and its result has been recycled:
      the old ones in their old order on top, the newly obtained ones below. */
  ghost function Rested(st: Zones, zones: seq<Memzone>): Zones
  {
    Zones(Reverse(Hot(st, zones)) + st.free, st.occupied)
  }

  /** The next compression of the same input obtains no zone, and leaves the zones as they were. */
  lemma RestedSuffices(st: Zones, zones: seq<Memzone>, again: seq<Memzone>)
    requires |again| <= |zones|
    ensures |Rested(st, zones).free| >= |zones|
    ensures Hot(Rested(st, zones), again) == [] && Rested(Rested(st, zones), again) == Rested(st, zones)
  {
    assert [] + Rested(st, zones).free == Rested(st, zones).free;
  }

  /** How many operations compress the input once. */
  function NumOperations(cfg: Settings, input: Slice): nat
    requires cfg.seg > 0 && cfg.sgl > 0
  {
    CeilDiv(CeilDiv(input.len, cfg.seg), cfg.sgl)
  }

  /** What a compression that failed with an I/O error ran into: a refused zone, or the device or a stream. */
  ghost predicate Halted(queue: HardwareQueue, past: Past, m0: Memory, cfg: Settings, input: Slice, p: Progress)
    reads queue, queue.host
  {
    || queue.host.refusals == past.refusals + 1
    || (queue.host.refusals == past.refusals && Blocked(queue, past.failures, m0, cfg, input, p.offset, p.zones, p.c))
  }

  /** One compression. On failure nothing of it stays on loan. */
  method CompressOnce(app: CompressDevice, input: Slice) returns (status: Status, buffers: seq<Slice>, ghost p: Progress)
    requires app.Ready() && app.Verdict(0) == OK && input.len > 0 && Prepared(app.qpMemory[0], app.queues[0], input)
    modifies app`numMaybeNotOk, app.Footprint(0)
    ensures var memory, queue := app.qpMemory[0], app.queues[0];
            && (status == OK || status == OutOfMemory || status == IOError) && memory.device.Valid()
            && queue.failures >= old(queue.failures)
            && (status == OK ==>
                  && Idle(memory, queue)
                  && Finished(queue.codec, old(queue.host.bytes), queue.host.bytes, old(memory.device.State()), memory.device.State(),
                              app.configuration, input, p, buffers))
            && (status != OK && Single(app) ==> memory.device.occupiedMemzones == old(memory.device.occupiedMemzones))
            && (status == OutOfMemory ==> app.configuration.sgl > 8)
            && (status == OK ==> queue.executed == old(queue.executed) + NumOperations(app.configuration, input))
            && (status != IOError ==> queue.host.refusals == old(queue.host.refusals))
            && (status == IOError ==> Halted(queue, old(queue.Now()), old(queue.host.bytes), app.configuration, input, p))
            && (status == IOError && Favourable(queue.codec, app.configuration, old(memory.device.memzonePool), input) ==>
                  Troubled(queue, old(queue.failures)) && queue.host.refusals == old(queue.host.refusals))
  {
    hide Finished, GaveBack, Blocked, Alike, Balanced, OnlyZonesChanged;
    status, buffers, p := app.CompressBuffer(0, Some(input));
    if status == IOError && Favourable(app.queues[0].codec, app.configuration, old(app.qpMemory[0].device.memzonePool), input) {
      OnlyTrouble(app.queues[0], old(app.queues[0].failures), old(app.queues[0].host.bytes), app.configuration, input, p);
    }
  }

  /** One segment an operation and a lawful codec. */
  ghost predicate Single(app: CompressDevice)
    requires |app.queues| > 0
  {
    app.configuration.sgl == 1 && app.queues[0].codec.Lawful()
  }

  /** Recycling a result puts back one zone a buffer, which lets the next compression start; with one
      segment an operation it restores the stack. */
  method RecycleResult(app: CompressDevice, input: Slice, buffers: seq<Slice>, ghost p: Progress, ghost m0: Memory, ghost m: Memory,
                       ghost st0: Zones)
    requires app.Ready() && |app.qpMemory| > 0 && app.qpMemory[0].device.Valid() && st0.WellFormed()
    requires Finished(app.queues[0].codec, m0, m, st0, app.qpMemory[0].device.State(), app.configuration, input, p, buffers)
    modifies app.qpMemory[0].device`memzonePool, app.qpMemory[0].device`occupiedMemzones
    ensures var device := app.qpMemory[0].device;
            && device.Valid() && |device.memzonePool| == |old(device.memzonePool)| + |buffers|
            && (NotFree(st0, input.region) ==> NotFree(device.State(), input.region))
            && (Single(app) ==> device.State() == Rested(st0, p.zones))
  {
    hide Finished, Compressed;
    var device := app.qpMemory[0].device;
    ResultParts(app.queues[0].codec, m0, m, st0, device.State(), app.configuration, input, p, buffers);
    var used := p.Holding(app.queues[0].codec, m0, app.configuration, input);
    ResultRecycles(app.queues[0].codec, m0, m, st0, device.State(), app.configuration, input, p.zones, used, buffers,
                   device.pool.tracker.memzones, device.compressedSegSize);
    if NotFree(st0, input.region) {
      RecycledElsewhere(app.queues[0].codec, m0, m, st0, device.State(), app.configuration, input, p.zones, used, buffers,
                        device.pool.tracker.memzones, device.compressedSegSize, input.region);
    }
    var count := app.Recycle(device, buffers);
    assert count == |buffers|;
  }

  lemma ResultParts(codec: Codec, m0: Memory, m: Memory, st0: Zones, st: Zones, cfg: Settings, input: Slice, p: Progress, buffers: seq<Slice>)
    requires Finished(codec, m0, m, st0, st, cfg, input, p, buffers)
    ensures Within(m0, input) && p.Fits(cfg, input) && cfg.Span() > 0 && cfg.seg > 0 && |p.zones| == CeilDiv(input.len, cfg.seg)
    ensures Compressed(codec, m0, m, st0, st, cfg, input, p.zones, p.Holding(codec, m0, cfg, input), buffers)
    ensures input.region in m && m[input.region] == m0[input.region] && AllWithin(m, buffers) && CanTakeAll(st0, p.zones)
    ensures cfg.sgl == 1 && codec.Lawful() ==> p.Holding(codec, m0, cfg, input) == p.zones
  {
  }

  /** Before compression number idx the zones are as at the start or as the first compression left them. */
  ghost predicate Between(app: CompressDevice, idx: nat, st: Zones, st0: Zones, first: seq<Memzone>, input: Slice)
    requires |app.queues| > 0 && app.configuration.seg > 0
  {
    && (idx == 0 ==> st == st0)
    && (idx > 0 ==> CanTakeAll(st0, first) && |first| == CeilDiv(input.len, app.configuration.seg))
    && (idx > 0 && Single(app) ==> st == Rested(st0, first))
  }

  lemma BetweenStarts(app: CompressDevice, st0: Zones, input: Slice)
    requires |app.queues| > 0 && app.configuration.seg > 0
    ensures Between(app, 0, st0, st0, [], input)
  {
  }

  lemma BetweenFavourable(app: CompressDevice, idx: nat, st: Zones, st0: Zones, first: seq<Memzone>, input: Slice)
    requires |app.queues| > 0 && app.configuration.seg > 0 && Between(app, idx, st, st0, first, input)
    ensures Single(app) ==> st.occupied == st0.occupied
    ensures Favourable(app.queues[0].codec, app.configuration, st0.free, input) ==>
              Favourable(app.queues[0].codec, app.configuration, st.free, input)
  {
  }

  lemma BetweenNext(app: CompressDevice, idx: nat, st: Zones, st0: Zones, first: seq<Memzone>, input: Slice, zones: seq<Memzone>)
      returns (first': seq<Memzone>)
    requires |app.queues| > 0 && app.configuration.seg > 0 && Between(app, idx, st, st0, first, input)
    requires CanTakeAll(st, zones) && |zones| == CeilDiv(input.len, app.configuration.seg)
    ensures CanTakeAll(st0, first') && |first'| == CeilDiv(input.len, app.configuration.seg)
    ensures Single(app) ==> Rested(st, zones) == Rested(st0, first')
    ensures Between(app, idx + 1, Rested(st, zones), st0, first', input)
  {
    first' := if idx == 0 then zones else first;
    if idx > 0 && Single(app) {
      RestedSuffices(st0, first, zones);
    }
  }

  /** Compression number idx; unless it is the last its result is recycled. */
  method CompressRound(app: CompressDevice, input: Slice, idx: nat, ghost st0: Zones, ghost first: seq<Memzone>)
      returns (status: Status, buffers: seq<Slice>, ghost p: Progress, ghost first': seq<Memzone>)
    requires app.Ready() && app.Verdict(0) == OK && input.len > 0 && Prepared(app.qpMemory[0], app.queues[0], input)
    requires app.configuration.seg > 0 && Between(app, idx, app.qpMemory[0].device.State(), st0, first, input)
    modifies app`numMaybeNotOk, app.Footprint(0)
    ensures status == OK || status == OutOfMemory || status == IOError
    ensures app.qpMemory[0].device.Valid() && app.queues[0].failures >= old(app.queues[0].failures)
    ensures status == OK ==>
              var memory, queue := app.qpMemory[0], app.queues[0];
              && Idle(memory, queue) && Within(queue.host.bytes, input)
              && queue.host.bytes[input.region] == old(queue.host.bytes)[input.region]
    ensures status == OK && idx < NUM_TESTS - 1 ==>
              && Prepared(app.qpMemory[0], app.queues[0], input)
              && Between(app, idx + 1, app.qpMemory[0].device.State(), st0, first', input)
    ensures status == OK && idx >= NUM_TESTS - 1 ==>
              var memory, queue := app.qpMemory[0], app.queues[0];
              && Finished(queue.codec, old(queue.host.bytes), queue.host.bytes, old(memory.device.State()),
                          memory.device.State(), app.configuration, input, p, buffers)
              && CanTakeAll(st0, first') && |first'| == CeilDiv(input.len, app.configuration.seg)
              && (Single(app) ==> Rested(old(memory.device.State()), p.zones) == Rested(st0, first'))
    ensures status != OK && Single(app) ==> app.qpMemory[0].device.occupiedMemzones == st0.occupied
    ensures status == OutOfMemory ==> app.configuration.sgl > 8
    ensures status == OK ==> app.queues[0].executed == old(app.queues[0].executed) + NumOperations(app.configuration, input)
    ensures status != IOError ==> app.queues[0].host.refusals == old(app.queues[0].host.refusals)
    ensures status == IOError ==>
              Halted(app.queues[0], old(app.queues[0].Now()), old(app.queues[0].host.bytes), app.configuration, input, p)
    ensures status == IOError && Favourable(app.queues[0].codec, app.configuration, st0.free, input) ==>
              Troubled(app.queues[0], old(app.queues[0].failures)) && app.queues[0].host.refusals == old(app.queues[0].host.refusals)
  {
    hide Finished, Favourable, Balanced, Rested, Troubled, Between, CanTakeAll, Served, NotFree, LastOf, Halted;
    ghost var queue, device := app.queues[0], app.qpMemory[0].device;
    first' := first;
    status, buffers, p := CompressOnce(app, input);
    BetweenFavourable(app, idx, old(device.State()), st0, first, input);
    if status == OK {
      buffers, first' := KeepOrRecycle(app, input, idx, buffers, p, old(queue.host.bytes), old(device.State()), st0, first);
    }
  }

  /** The last result is kept, the others are recycled. */
  method KeepOrRecycle(app: CompressDevice, input: Slice, idx: nat, result: seq<Slice>, ghost p: Progress, ghost m1: Memory,
                       ghost st1: Zones, ghost st0: Zones, ghost first: seq<Memzone>)
      returns (buffers: seq<Slice>, ghost first': seq<Memzone>)
    requires app.Ready() && |app.qpMemory| > 0 && app.configuration.seg > 0 && Idle(app.qpMemory[0], app.queues[0])
    requires Within(m1, input) && NotFree(st1, input.region) && st1.WellFormed() && Between(app, idx, st1, st0, first, input)
    requires Finished(app.queues[0].codec, m1, app.queues[0].host.bytes, st1, app.qpMemory[0].device.State(), app.configuration,
                      input, p, result)
    modifies app.qpMemory[0].device`memzonePool, app.qpMemory[0].device`occupiedMemzones
    ensures Idle(app.qpMemory[0], app.queues[0]) && Within(app.queues[0].host.bytes, input)
    ensures app.queues[0].host.bytes[input.region] == m1[input.region]
    ensures idx < NUM_TESTS - 1 ==>
              && buffers == [] && NotFree(app.qpMemory[0].device.State(), input.region)
              && Between(app, idx + 1, app.qpMemory[0].device.State(), st0, first', input)
    ensures idx >= NUM_TESTS - 1 ==>
              && buffers == result && app.qpMemory[0].device.State() == old(app.qpMemory[0].device.State())
              && CanTakeAll(st0, first') && |first'| == CeilDiv(input.len, app.configuration.seg)
              && (Single(app) ==> Rested(st1, p.zones) == Rested(st0, first'))
  {
    hide Finished, Balanced, Rested, CanTakeAll, Served, NotFree;
    ghost var queue, device := app.queues[0], app.qpMemory[0].device;
    buffers := result;
    ResultParts(queue.codec, m1, queue.host.bytes, st1, device.State(), app.configuration, input, p, buffers);
    first' := BetweenNext(app, idx, st1, st0, first, input, p.zones);
    if idx < NUM_TESTS - 1 {
      RecycleResult(app, input, buffers, p, m1, queue.host.bytes, st1);
      buffers := [];
    }
  }

  /** The compressions: the result of the last is kept, the others are recycled. The last one begins in
      memory m1 and zone state st1; `first` are the zones the first one took. */
  method CompressRepeatedly(app: CompressDevice, input: Slice)
      returns (status: Status, buffers: seq<Slice>, ghost p: Progress, ghost m1: Memory, ghost st1: Zones, ghost first: seq<Memzone>)
    requires app.Ready() && app.Verdict(0) == OK && input.len > 0 && Prepared(app.qpMemory[0], app.queues[0], input)
    modifies app`numMaybeNotOk, app.Footprint(0)
    ensures status == OK || status == OutOfMemory || status == IOError
    ensures app.qpMemory[0].device.Valid() && app.queues[0].failures >= old(app.queues[0].failures)
    ensures input.region in m1 && m1[input.region] == old(app.queues[0].host.bytes)[input.region]
    ensures status == OK ==>
              var memory, queue := app.qpMemory[0], app.queues[0];
              && Idle(memory, queue) && st1.WellFormed() && input.region in queue.host.bytes
              && Finished(queue.codec, m1, queue.host.bytes, st1, memory.device.State(), app.configuration, input, p, buffers)
              && queue.host.bytes[input.region] == old(queue.host.bytes)[input.region]
              && CanTakeAll(old(memory.device.State()), first) && |first| == CeilDiv(input.len, app.configuration.seg)
              && (Single(app) ==> Rested(st1, p.zones) == Rested(old(memory.device.State()), first))
    ensures status != OK && Single(app) ==>
              app.qpMemory[0].device.occupiedMemzones == old(app.qpMemory[0].device.occupiedMemzones)
    ensures status == OutOfMemory ==> app.configuration.sgl > 8
    ensures status == OK ==>
              app.queues[0].executed == old(app.queues[0].executed) + NUM_TESTS * NumOperations(app.configuration, input)
    ensures status != IOError ==> app.queues[0].host.refusals == old(app.queues[0].host.refusals)
    ensures status == IOError ==> Halted(app.queues[0], old(app.queues[0].Now()), m1, app.configuration, input, p)
    ensures status == IOError && Favourable(app.queues[0].codec, app.configuration, old(app.qpMemory[0].device.memzonePool), input) ==>
              Troubled(app.queues[0], old(app.queues[0].failures)) && app.queues[0].host.refusals == old(app.queues[0].host.refusals)
  {
    hide Finished, Favourable, Balanced, Rested, Between, CanTakeAll, Served, NotFree, LastOf, Overflows;
    var memory, queue := app.qpMemory[0], app.queues[0];
    ghost var m0, st0 := queue.host.bytes, memory.device.State();
    buffers, p, m1, st1, first := [], Progress(0, [], [], 0), m0, st0, [];
    status := OK;
    BetweenStarts(app, st0, input);
    var idx := 0;
    while idx < NUM_TESTS
      invariant idx <= NUM_TESTS && app.Verdict(0) == OK && queue.failures >= old(queue.failures)
      invariant idx < NUM_TESTS ==> Prepared(memory, queue, input) && Between(app, idx, memory.device.State(), st0, first, input)
      invariant idx == NUM_TESTS ==>
                  && Idle(memory, queue) && st1.WellFormed()
                  && Finished(queue.codec, m1, queue.host.bytes, st1, memory.device.State(), app.configuration, input, p, buffers)
                  && CanTakeAll(st0, first) && |first| == CeilDiv(input.len, app.configuration.seg)
                  && (Single(app) ==> Rested(st1, p.zones) == Rested(st0, first))
      invariant input.region in queue.host.bytes && queue.host.bytes[input.region] == m0[input.region]
      invariant input.region in m1 && m1[input.region] == m0[input.region]
      invariant queue.executed == old(queue.executed) + idx * NumOperations(app.configuration, input)
      invariant queue.host.refusals == old(queue.host.refusals)
    {
      m1, st1 := queue.host.bytes, memory.device.State();
      status, buffers, p, first := CompressRound(app, input, idx, st0, first);
      if status != OK {
        return;
      }
      idx := idx + 1;
    }
    status := OK;
  }

  /** The decompressions of one result into the same output. The last one made begins in memory m1; m is
      the memory from before the output was allocated. */
  method DecompressRepeatedly(app: CompressDevice, buffers: seq<Slice>, output: Slice, ghost m: Memory)
      returns (status: Status, size: nat, ghost m1: Memory)
    requires app.Ready() && app.Verdict(0) == OK && Idle(app.qpMemory[0], app.queues[0]) && buffers != []
    requires Supplied(app.configuration, buffers, output, app.queues[0].host.bytes)
    requires AllWithin(m, buffers) && output.region !in m && Extends(m, app.queues[0].host.bytes)
    modifies app`numMaybeNotOk, app.Footprint(0)
    ensures status == OK || status == OutOfMemory || status == IOError
    ensures app.qpMemory[0].device.Valid() && app.qpMemory[0].device.State() == old(app.qpMemory[0].device.State())
    ensures app.queues[0].failures >= old(app.queues[0].failures)
    ensures Extends(m, m1) && Extends(m, app.queues[0].host.bytes)
    ensures status == OK ==>
              && Within(app.queues[0].host.bytes, output) && size <= output.len && app.configuration.sgl > 0
              && Decompressed(app.queues[0].codec, m1, app.queues[0].host.bytes, app.configuration, buffers, output, size)
    ensures status == IOError ==>
              Spoilt(app.queues[0], old(app.queues[0].failures), m1, app.configuration, buffers, output)
    ensures status == OutOfMemory ==> app.configuration.sgl > 8
    ensures status == OK ==>
              app.queues[0].executed == old(app.queues[0].executed) + NUM_TESTS * CeilDiv(|buffers|, app.configuration.sgl)
    ensures app.queues[0].host.refusals == old(app.queues[0].host.refusals)
  {
    hide Decompressed, Undecodable, Balanced, Served, LastOf;
    var queue := app.queues[0];
    m1 := queue.host.bytes;
    size := 0;
    var idx := 0;
    while idx < NUM_TESTS
      invariant idx <= NUM_TESTS && app.Verdict(0) == OK && Idle(app.qpMemory[0], queue) && queue.failures >= old(queue.failures)
      invariant app.qpMemory[0].device.State() == old(app.qpMemory[0].device.State())
      invariant Supplied(app.configuration, buffers, output, queue.host.bytes)
      invariant Extends(m, m1) && Extends(m, queue.host.bytes)
      invariant queue.executed == old(queue.executed) + idx * CeilDiv(|buffers|, app.configuration.sgl)
      invariant queue.host.refusals == old(queue.host.refusals)
      invariant idx > 0 ==>
                  size <= output.len && Decompressed(queue.codec, m1, queue.host.bytes, app.configuration, buffers, output, size)
    {
      m1 := queue.host.bytes;
      status, size := app.DecompressBuffers(0, buffers, Some(output));
      StillSupplied(app.configuration, buffers, output, m, m1, queue.host.bytes);
      if status != OK {
        return;
      }
      idx := idx + 1;
    }
    status := OK;
  }

  lemma StillSupplied(cfg: Settings, buffers: seq<Slice>, output: Slice, m: Memory, m1: Memory, m2: Memory)
    requires Supplied(cfg, buffers, output, m1) && AllWithin(m, buffers) && output.region !in m && Extends(m, m1)
    requires OnlyChanged(m1, m2, output) && SameLength(m1, m2, output.region)
    ensures Extends(m, m2) && Supplied(cfg, buffers, output, m2)
  {
    FreshOutputOnly(m, m1, m2, output);
    forall i | 0 <= i < |buffers|
      ensures Within(m2, buffers[i])
    {
      assert Within(m, buffers[i]);
    }
  }

  /** The decompressions of a result: how they ended, the memory from before the last one made, and what
      it wrote where. */
  datatype Restoration = Restoration(status: Status, m1: Memory, output: Slice, size: nat)
  {
    /** What was restored. */
    function Bytes(): Slice { Slice(output.region, output.start, size) }
  }

  /** The verdict on a restoration, from memory m on and with memory m2 at its end: a failed decompression
      is passed on, and otherwise the verdict is whether the result has been decompressed to the input. */
  ghost predicate Judged(codec: Codec, cfg: Settings, m: Memory, m2: Memory, input: Slice, buffers: seq<Slice>, r: Restoration,
                         status: Status)
  {
    && Extends(m, r.m1) && Extends(m, m2) && Within(m2, input)
    && (r.status != OK ==> status == r.status)
    && (r.status == OK ==> status == OK || status == Invalid)
    && (r.status == OK && buffers == [] ==> status == Invalid)
    && (r.status == OK && buffers != [] ==>
          && cfg.sgl > 0 && Within(m2, r.output) && r.size <= r.output.len
          && Decompressed(codec, r.m1, m2, cfg, buffers, r.output, r.size)
          && (status == OK <==> r.size == input.len && Read(m2, r.Bytes()) == Read(m2, input)))
  }

  /** An evaluation: how the compressions ended, the memory and the zones from before and after the last
      one made, its progress and result, and what came of the decompressions. */
  datatype Trial = Trial(compressed: Status, m0: Memory, st0: Zones, m: Memory, st: Zones, p: Progress, buffers: seq<Slice>,
                         restored: Restoration)

  /** EvaluateSync: three compressions, all but the last recycled, three decompressions of the last, and
      the comparison. It succeeds exactly when all of them do and the bytes restored are those of the
      input. With one segment an operation the comparison never fails, nothing stays on loan whatever
      happens, and success leaves the stack of zones as the first compression alone would; it succeeds
      unless the device is in trouble, zones or pool objects are short, or there is no memory for the
      output. */
  method EvaluateSync(app: CompressDevice, input: Slice) returns (status: Status, ghost first: seq<Memzone>, ghost t: Trial)
    requires app.Ready() && input.len > 0
    requires app.Verdict(0) == OK ==> Prepared(app.qpMemory[0], app.queues[0], input)
    modifies app`numMaybeNotOk, app.Footprint(0)
    ensures app.state != Started || |app.qpMemory| == 0 ==> status == Invalid
    ensures status == Cancelled <==> app.state == Started && |app.qpMemory| > 0 && old(app.qpMemory[0].pending) != []
    ensures old(app.Verdict(0)) != OK ==> unchanged(app.Footprint(0))
    ensures old(app.Verdict(0)) == OK ==>
              app.qpMemory[0].device.Valid() && (status == OK || status == Invalid || status == OutOfMemory || status == IOError)
    ensures old(app.Verdict(0)) == OK && t.compressed != OK ==>
              && status == t.compressed && (status == OutOfMemory ==> app.configuration.sgl > 8)
              && (status == IOError ==>
                    Halted(app.queues[0], old(app.queues[0].Now()), t.m0, app.configuration, input, t.p))
    ensures old(app.Verdict(0)) == OK && t.compressed == OK ==>
              && input.region in t.m0 && t.m0[input.region] == old(app.queues[0].host.bytes)[input.region]
              && Finished(app.queues[0].codec, t.m0, t.m, t.st0, t.st, app.configuration, input, t.p, t.buffers)
              && Judged(app.queues[0].codec, app.configuration, t.m, app.queues[0].host.bytes, input, t.buffers, t.restored, status)
              && Short(app, t.buffers, t.restored.status, old(app.queues[0].host.refusals))
              && (t.restored.status == IOError ==>
                    Spoilt(app.queues[0], old(app.queues[0].failures), t.restored.m1, app.configuration, t.buffers, t.restored.output))
    ensures old(app.Verdict(0)) == OK && status == OK ==>
              && t.compressed == OK && t.restored.status == OK
              && Read(app.queues[0].host.bytes, t.restored.Bytes()) == Read(old(app.queues[0].host.bytes), input)
              && app.queues[0].executed == old(app.queues[0].executed) + 3 * NumOperations(app.configuration, input)
                                           + 3 * CeilDiv(|t.buffers|, app.configuration.sgl)
    ensures old(app.Verdict(0)) == OK && Single(app) ==>
              && status != Invalid
              && app.qpMemory[0].device.occupiedMemzones == old(app.qpMemory[0].device.occupiedMemzones)
              && (status == OK ==>
                    && CanTakeAll(old(app.qpMemory[0].device.State()), first) && |first| == CeilDiv(input.len, app.configuration.seg)
                    && app.qpMemory[0].device.State() == Rested(old(app.qpMemory[0].device.State()), first))
    ensures old(app.Verdict(0)) == OK && status == IOError &&
            Favourable(app.queues[0].codec, app.configuration, old(app.qpMemory[0].device.memzonePool), input) ==>
              Troubled(app.queues[0], old(app.queues[0].failures)) && app.queues[0].host.refusals == old(app.queues[0].host.refusals)
  {
    hide Finished, Favourable, Balanced, Decompressed, Undecodable, Overflows, Judged, Short, CanTakeAll, Served, LastOf,
         NotFree;
    first := [];
    t := Trial(Invalid, map[], Zones([], {}), map[], Zones([], {}), Progress(0, [], [], 0), [],
               Restoration(Invalid, map[], Slice(0, 0, 0), 0));
    // What the entry check of the first compression says.
    status := app.EntryGuard(0);
    if status != OK {
      return;
    }
    var buffers;
    ghost var p, m0, st0;
    status, buffers, p, m0, st0, first := CompressRepeatedly(app, input);
    t := t.(compressed := status, m0 := m0, st0 := st0, m := app.queues[0].host.bytes, st := app.qpMemory[0].device.State(),
            p := p, buffers := buffers);
    if status == OK {
      ghost var restored;
      status, restored := CheckResult(app, input, buffers, p, m0, st0);
      t := t.(restored := restored);
      FavourableIsSingle(app, old(app.qpMemory[0].device.memzonePool), input);
      JudgedEqual(app.queues[0].codec, app.configuration, old(app.queues[0].host.bytes), t, app.queues[0].host.bytes, input, status);
    }
  }

  /** An evaluation that succeeds has restored the input as it was at the start. */
  lemma JudgedEqual(codec: Codec, cfg: Settings, start: Memory, t: Trial, m2: Memory, input: Slice, status: Status)
    requires Within(start, input) && input.region in t.m && t.m[input.region] == start[input.region]
    requires Judged(codec, cfg, t.m, m2, input, t.buffers, t.restored, status)
    ensures status == OK ==>
              && t.restored.status == OK && Within(m2, t.restored.Bytes())
              && Read(m2, t.restored.Bytes()) == Read(start, input)
  {
    hide Decompressed;
  }

  lemma FavourableIsSingle(app: CompressDevice, free: seq<Memzone>, input: Slice)
    requires |app.queues| > 0
    ensures Favourable(app.queues[0].codec, app.configuration, free, input) ==> Single(app)
  {
  }

  /** The part of EvaluateSync after the compressions, the last of which began in memory m0 and zone state
      st0. Whatever happens the result is recycled. */
  method CheckResult(app: CompressDevice, input: Slice, buffers: seq<Slice>, ghost p: Progress, ghost m0: Memory, ghost st0: Zones)
      returns (status: Status, ghost r: Restoration)
    requires app.Ready() && app.Verdict(0) == OK && Idle(app.qpMemory[0], app.queues[0]) && input.len > 0 && st0.WellFormed()
    requires Finished(app.queues[0].codec, m0, app.queues[0].host.bytes, st0, app.qpMemory[0].device.State(), app.configuration,
                      input, p, buffers)
    modifies app`numMaybeNotOk, app.Footprint(0)
    ensures app.qpMemory[0].device.Valid() && (status == OK || status == Invalid || status == OutOfMemory || status == IOError)
    ensures app.queues[0].failures >= old(app.queues[0].failures)
    ensures Judged(app.queues[0].codec, app.configuration, old(app.queues[0].host.bytes), app.queues[0].host.bytes, input, buffers, r, status)
    ensures Short(app, buffers, r.status, old(app.queues[0].host.refusals))
    ensures app.queues[0].host.refusals != old(app.queues[0].host.refusals) ==> status == OutOfMemory
    ensures r.status == IOError ==>
              Spoilt(app.queues[0], old(app.queues[0].failures), r.m1, app.configuration, buffers, r.output)
    ensures status == OK ==>
              app.queues[0].executed == old(app.queues[0].executed) + NUM_TESTS * CeilDiv(|buffers|, app.configuration.sgl)
    ensures Single(app) ==>
              && status != Invalid && app.qpMemory[0].device.State() == Rested(st0, p.zones)
              && (status == IOError ==> Troubled(app.queues[0], old(app.queues[0].failures)))
  {
    hide Finished, Balanced, CanTakeAll, Rested, Served, LastOf, NotFree, Decompressed, Undecodable, Extends;
    ghost var m := app.queues[0].host.bytes;
    ghost var m1;
    var output, size;
    status, output, size, m1 := RestoreResult(app, input, buffers, p, m0, st0);
    r := Restoration(status, m1, output, size);
    RecycleResult(app, input, buffers, p, m0, m, st0);
    if status == OK {
      if buffers == [] {
        return Invalid, r;
      }
      status := Compare(app.queues[0], Slice(output.region, output.start, size), input);
    }
  }

  /** The decompressions of a result. With one segment an operation they yield the input. */
  method RestoreResult(app: CompressDevice, input: Slice, buffers: seq<Slice>, ghost p: Progress, ghost m0: Memory, ghost st0: Zones)
      returns (status: Status, output: Slice, size: nat, ghost m1: Memory)
    requires app.Ready() && app.Verdict(0) == OK && Idle(app.qpMemory[0], app.queues[0]) && input.len > 0
    requires Finished(app.queues[0].codec, m0, app.queues[0].host.bytes, st0, app.qpMemory[0].device.State(), app.configuration,
                      input, p, buffers)
    modifies app`numMaybeNotOk, app.Footprint(0)
    ensures status == OK || status == OutOfMemory || status == IOError
    ensures app.qpMemory[0].device.Valid() && app.qpMemory[0].device.State() == old(app.qpMemory[0].device.State())
    ensures app.queues[0].failures >= old(app.queues[0].failures) && Within(app.queues[0].host.bytes, input)
    ensures Extends(old(app.queues[0].host.bytes), m1) && Extends(old(app.queues[0].host.bytes), app.queues[0].host.bytes)
    ensures status == OK && buffers != [] ==>
              && app.configuration.sgl > 0 && Within(app.queues[0].host.bytes, output) && size <= output.len
              && Decompressed(app.queues[0].codec, m1, app.queues[0].host.bytes, app.configuration, buffers, output, size)
    ensures Short(app, buffers, status, old(app.queues[0].host.refusals))
    ensures status == IOError ==>
              Spoilt(app.queues[0], old(app.queues[0].failures), m1, app.configuration, buffers, output)
    ensures status == OK ==>
              app.queues[0].executed == old(app.queues[0].executed) + NUM_TESTS * CeilDiv(|buffers|, app.configuration.sgl)
    ensures Single(app) ==> buffers != [] && (status == IOError ==> Troubled(app.queues[0], old(app.queues[0].failures)))
    ensures Single(app) && status == OK ==>
              && size == input.len
              && Read(app.queues[0].host.bytes, Slice(output.region, output.start, size)) == Read(app.queues[0].host.bytes, input)
  {
    hide Finished, Balanced, Decompressed, CanTakeAll, Served, Undecodable, LastOf, NotFree;
    var queue := app.queues[0];
    ghost var m, st := queue.host.bytes, app.qpMemory[0].device.State();
    ResultParts(queue.codec, m0, m, st0, st, app.configuration, input, p, buffers);
    status, output, size, m1 := DecompressResult(app, buffers);
    if Single(app) {
      ResultUsable(queue.codec, m0, m, m1, st0, st, app.configuration, input, p, buffers, output);
      if status == OK {
        CheckPasses(queue.codec, m0, m, m1, queue.host.bytes, st0, st, app.configuration, input, p, buffers, output, size);
      }
    }
  }

  /** Decompression only runs out of memory when the output is too large or refused, or when chains are too
      long for the pools; and the output is all that can be refused. */
  ghost predicate Short(app: CompressDevice, buffers: seq<Slice>, status: Status, refusals: nat)
    requires app.Ready() && |app.queues| > 0
    reads app.queues[0], app.queues[0].host
  {
    && refusals <= app.queues[0].host.refusals <= refusals + 1
    && (app.queues[0].host.refusals > refusals ==> status == OutOfMemory)
    && (status == OutOfMemory ==>
          || app.configuration.sgl > 8 || app.queues[0].host.refusals > refusals
          || Product(|buffers|, app.configuration.seg) >= SIZE_T_MAX)
  }

  method Compare(queue: HardwareQueue, output: Slice, input: Slice) returns (status: Status)
    requires Within(queue.host.bytes, output) && Within(queue.host.bytes, input)
    ensures status == OK || status == Invalid
    ensures status == OK <==> output.len == input.len && Read(queue.host.bytes, output) == Read(queue.host.bytes, input)
  {
    if output.len != input.len {
      return Invalid;
    }
    if Read(queue.host.bytes, output) != Read(queue.host.bytes, input) {
      return Invalid;
    }
    return OK;
  }

  /** Decompress a result into fresh memory, repeatedly. An empty result leaves the output empty. */
  method DecompressResult(app: CompressDevice, buffers: seq<Slice>) returns (status: Status, output: Slice, size: nat, ghost m1: Memory)
    requires app.Ready() && app.Verdict(0) == OK && Idle(app.qpMemory[0], app.queues[0]) && AllWithin(app.queues[0].host.bytes, buffers)
    modifies app`numMaybeNotOk, app.Footprint(0)
    ensures status == OK || status == OutOfMemory || status == IOError
    ensures app.qpMemory[0].device.Valid() && app.qpMemory[0].device.State() == old(app.qpMemory[0].device.State())
    ensures app.queues[0].failures >= old(app.queues[0].failures)
    ensures Extends(old(app.queues[0].host.bytes), m1) && Extends(old(app.queues[0].host.bytes), app.queues[0].host.bytes)
    ensures status == IOError ==>
              buffers != [] && Spoilt(app.queues[0], old(app.queues[0].failures), m1, app.configuration, buffers, output)
    ensures Short(app, buffers, status, old(app.queues[0].host.refusals))
    ensures status == OK && buffers != [] ==>
              && Within(app.queues[0].host.bytes, output) && size <= output.len && app.configuration.sgl > 0
              && Decompressed(app.queues[0].codec, m1, app.queues[0].host.bytes, app.configuration, buffers, output, size)
    ensures status == OK ==>
              app.queues[0].executed == old(app.queues[0].executed) + NUM_TESTS * CeilDiv(|buffers|, app.configuration.sgl)
  {
    hide Decompressed, Undecodable, Balanced, Served;
    m1 := app.queues[0].host.bytes;
    output, size := Slice(0, 0, 0), 0;
    if buffers == [] {
      return OK, output, size, m1;
    }
    status, output := AllocateOutput(app.qpMemory[0], buffers);
    m1 := app.queues[0].host.bytes;
    if status != OK {
      return OutOfMemory, output, size, m1;
    }
    status, size, m1 := DecompressRepeatedly(app, buffers, output, old(app.queues[0].host.bytes));
  }
}
