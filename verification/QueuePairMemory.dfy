/** Per-queue-pair memory: the operation array shared by staging and dequeueing, the deque of
    outstanding operations, the mbuf pool, and the two ways of assembling operations. */
module QueuePairMemory {
  import opened Sequences
  import opened HostMemory
  import opened MemoryPool
  import opened ZoneStack
  import opened DeviceMemory
  import opened Operations
  import opened PoolSizing
  import opened Accelerator
  import opened Ledger
  import opened Config
  import opened Assembly

  /** Longest chain an mbuf can head. */
  const MBUF_MAX_NB_SEGS := 0xffff

  class QueuePairMemory {
    const cfg: Settings
    const device: DeviceMemory
    const pool: OperationPool
    /** [0, burst) stages operations for enqueueing; from burst on, operations are dequeued. */
    const operations: array<OpId>
    const mbufs: array<nat>
    ghost const totals: Totals

    var numOpsAssembled: nat
    var pending: seq<OpId>
    var mbufPool: seq<nat>
    var refDecompressed: int
    var refCompressed: int

    ghost predicate Shaped()
      reads this
    {
      && cfg.Valid() && operations != mbufs && totals.sgl == cfg.sgl
      && operations.Length == cfg.burst + totals.ops
    }

    /** The pools and the mbuf array have the sizes computed at allocation. */
    ghost predicate Sized()
      requires cfg.sgl > 0
    {
      && mbufs.Length == MbufsInBurst(cfg.burst, cfg.sgl)
      && totals.ops == OpsInPool(cfg.burst, cfg.sgl) && totals.mbufs == MbufsInPool(cfg.burst, cfg.sgl)
    }

    /** Every operation and every mbuf is back in its pool, and nothing references the shared-info records. */
    ghost predicate Full()
      reads this, pool
    {
      FullBut(0, 0)
    }

    /** The staged operations are the last of the outstanding ones, in order. */
    ghost predicate Staged()
      reads this, operations
    {
      numOpsAssembled <= cfg.burst && LastOf(pending, operations[..], numOpsAssembled)
    }

    /** newOps stand right behind the staged operations. */
    ghost predicate Ahead(newOps: seq<OpId>)
      reads this, operations
    {
      Follow(operations[..], numOpsAssembled, newOps)
    }

    ghost predicate Valid()
      reads this, operations, pool
    {
      && Shaped() && Staged()
      && Balanced(totals, pool.table, pool.free, pending, |mbufPool|, refDecompressed, refCompressed)
    }

    /** Operations that are neither in their pool nor outstanding. */
    ghost function LostOps(): int
      reads this, pool
    {
      totals.ops - |pool.free| - |pending|
    }

    /** Mbufs that are neither in their pool nor chained to an outstanding operation. */
    ghost function LostMbufs(): int
      reads this
    {
      totals.mbufs - |mbufPool| - refDecompressed - refCompressed
    }

    /** Apart from what is lost the accounts are right. */
    ghost predicate Accountable()
      reads this, pool
    {
      && LostOps() >= 0 && LostMbufs() >= 0
      && Balanced(totals.(ops := totals.ops - LostOps()), pool.table, pool.free, pending, |mbufPool| + LostMbufs(),
                  refDecompressed, refCompressed)
    }

    ghost predicate NothingLost()
      reads this, pool
    {
      Accountable() && LostOps() == 0 && LostMbufs() == 0
    }

    /** Everything left is back in its pool, the lost numbers aside. */
    ghost predicate FullBut(lostOps: int, lostMbufs: int)
      reads this, pool
    {
      && |pool.free| == totals.ops - lostOps && |mbufPool| == totals.mbufs - lostMbufs
      && refDecompressed == 0 && refCompressed == 0
    }

    predicate HasPendingOperations()
      reads this
    {
      pending != []
    }

    /** Sizing and allocation of a queue pair's memory. */
    constructor (cfg: Settings, device: DeviceMemory)
      requires cfg.Valid()
      ensures Valid() && Sized() && this.cfg == cfg && this.device == device
      ensures pending == [] && numOpsAssembled == 0 && Full()
      ensures forall i :: 0 <= i < |mbufPool| ==> mbufPool[i] == i
      ensures fresh(pool) && fresh(operations) && fresh(mbufs)
    {
      this.cfg, this.device := cfg, device;
      var numMbufs := MbufsInPool(cfg.burst, cfg.sgl);
      var numOps := OpsInPool(cfg.burst, cfg.sgl);
      var ids: set<OpId> := {};
      var next := 0;
      while next < numOps
        invariant next <= numOps && |ids| == next && forall id :: id in ids ==> id < next
      {
        ids := ids + {next};
        next := next + 1;
      }
      totals := Totals(numOps, numMbufs, cfg.sgl);
      pool := new OperationPool(ids);
      operations := new OpId[cfg.burst + numOps](_ => 0);
      mbufs := new nat[MbufsInBurst(cfg.burst, cfg.sgl)](_ => 0);
      numOpsAssembled, pending := 0, [];
      mbufPool := seq(numMbufs, i requires 0 <= i < numMbufs => i);
      refDecompressed, refCompressed := 0, 0;
    }

    /** Chain one mbuf, with its external buffer, to the source or destination of an operation. */
    method AppendData(id: OpId, toSource: bool, mbuf: nat, data: Slice, shinfo: Shared) returns (status: Status)
      requires id in pool.table
      modifies this`refDecompressed, this`refCompressed, pool`table
      ensures var was := old(pool.table[id]);
              status == if |if toSource then was.src else was.dst| < 65535 then OK else CapacityError
      ensures status == OK ==>
                && pool.table == old(pool.table)[id := Appended(old(pool.table[id]), toSource, Mbuf(mbuf, data, shinfo))]
                && refDecompressed == old(refDecompressed) + (if shinfo == DecompressedInfo then 1 else 0)
                && refCompressed == old(refCompressed) + (if shinfo == CompressedInfo then 1 else 0)
      ensures status != OK ==>
                pool.table == old(pool.table) && refDecompressed == old(refDecompressed) && refCompressed == old(refCompressed)
    {
      var op := pool.table[id];
      var m := Mbuf(mbuf, data, shinfo);
      if toSource {
        if |op.src| + 1 > MBUF_MAX_NB_SEGS {
          return CapacityError;
        }
        pool.table := pool.table[id := op.(src := op.src + [m], srcPktLen := op.srcPktLen + data.len)];
      } else {
        if |op.dst| + 1 > MBUF_MAX_NB_SEGS {
          return CapacityError;
        }
        pool.table := pool.table[id := op.(dst := op.dst + [m], dstPktLen := op.dstPktLen + data.len)];
      }
      match shinfo {
        case DecompressedInfo => refDecompressed := refDecompressed + 1;
        case CompressedInfo => refCompressed := refCompressed + 1;
      }
      return OK;
    }

    /** Fill in the operation once both chains are complete. */
    method UpdateOperation(id: OpId, x: Xform)
      requires id in pool.table
      modifies pool`table
      ensures pool.table == old(pool.table)[id := Updated(old(pool.table[id]), x)]
    {
      var op := pool.table[id];
      pool.table := pool.table[id := op.(srcLength := op.srcPktLen, xform := x)];
    }

    /** Chain mbufs_[i] to the source of new operation j, where element i of the plan belongs. It
        cannot fail: a chain that takes another segment is shorter than max_sgl_segs. */
    method ChainSource(i: nat, j: nat, data: Slice, shinfo: Shared, ghost before: seq<OpId>, ghost newOps: seq<OpId>,
                       ghost plan: seq<Slice>, ghost x: Xform)
      requires 0 < cfg.sgl <= MBUF_MAX_NB_SEGS && i < |plan| <= mbufs.Length && data == plan[i]
      requires j < |newOps| && j == Quot(i, cfg.sgl) && Distinct(before + newOps) && Known(pool.table, before)
      requires numOpsAssembled + j < operations.Length && operations[numOpsAssembled + j] == newOps[j]
      requires Holds(pool.table, newOps, Built(Attach(mbufs[..], plan[..i], shinfo), [], cfg.sgl, |newOps|, 0, x))
      modifies this`refDecompressed, this`refCompressed, pool`table
      ensures Holds(pool.table, newOps, Built(Attach(mbufs[..], plan[..i + 1], shinfo), [], cfg.sgl, |newOps|, 0, x))
      ensures refDecompressed == old(refDecompressed) + (if shinfo == DecompressedInfo then 1 else 0)
      ensures refCompressed == old(refCompressed) + (if shinfo == CompressedInfo then 1 else 0)
      ensures pool.table.Keys == old(pool.table.Keys) && Kept(old(pool.table), pool.table, before)
    {
      SourceStep(pool.table, before, newOps, mbufs[..], plan, i, shinfo, cfg.sgl, j, x);
      var status := AppendData(operations[numOpsAssembled + j], true, mbufs[i], data, shinfo);
      assert status == OK;
    }

    method ChainDestination(i: nat, j: nat, data: Slice, shinfo: Shared, ghost before: seq<OpId>, ghost newOps: seq<OpId>,
                            ghost srcs: seq<Mbuf>, ghost plan: seq<Slice>, num: nat, ghost x: Xform)
      requires 0 < cfg.sgl <= MBUF_MAX_NB_SEGS && i < |plan| && num + |plan| <= mbufs.Length && data == plan[i]
      requires j < |newOps| && j == Quot(i, cfg.sgl) && Distinct(before + newOps) && Known(pool.table, before)
      requires numOpsAssembled + j < operations.Length && operations[numOpsAssembled + j] == newOps[j]
      requires Holds(pool.table, newOps, Built(srcs, Attach(mbufs[num..], plan[..i], shinfo), cfg.sgl, |newOps|, j, x))
      modifies this`refDecompressed, this`refCompressed, pool`table
      ensures Holds(pool.table, newOps, Built(srcs, Attach(mbufs[num..], plan[..i + 1], shinfo), cfg.sgl, |newOps|, j, x))
      ensures refDecompressed == old(refDecompressed) + (if shinfo == DecompressedInfo then 1 else 0)
      ensures refCompressed == old(refCompressed) + (if shinfo == CompressedInfo then 1 else 0)
      ensures pool.table.Keys == old(pool.table.Keys) && Kept(old(pool.table), pool.table, before)
    {
      DestinationStep(pool.table, before, newOps, srcs, mbufs[num..], plan, i, shinfo, cfg.sgl, j, x);
      var status := AppendData(operations[numOpsAssembled + j], false, mbufs[num + i], data, shinfo);
      assert status == OK;
    }

    /** After mbufId of num source mbufs: if the current operation is full and input is left, move to
        the next one and save it as outstanding. */
    method NextOperation(mbufId: nat, num: nat, j: nat, ghost before: seq<OpId>, ghost newOps: seq<OpId>) returns (next: nat)
      requires cfg.sgl > 0 && 0 < mbufId <= num && |newOps| == CeilDiv(num, cfg.sgl)
      requires Cursor(mbufId - 1, num, cfg.sgl, |newOps|, j) && pending == before + newOps[..j + 1]
      requires Ahead(newOps)
      modifies this`pending
      ensures Cursor(mbufId, num, cfg.sgl, |newOps|, next) && pending == before + newOps[..next + 1]
    {
      CursorStep(mbufId - 1, num, cfg.sgl, |newOps|, j);
      CountingIsDivision(mbufId, cfg.sgl);
      next := j;
      if mbufId % cfg.sgl == 0 && mbufId < num {
        next := j + 1;
        pending := pending + [operations[numOpsAssembled + next]];
      }
    }

    /** The first i source mbufs of the plan are chained to the new operations newOps, the first j + 1 of
        which are outstanding behind `before`; table is the operations' memory from before the loop. */
    ghost predicate Sourcing(i: nat, num: nat, j: nat, before: seq<OpId>, newOps: seq<OpId>, plan: seq<Slice>, shinfo: Shared,
                             x: Xform, table: OpTable)
      requires cfg.sgl > 0
      reads this, mbufs, pool
    {
      && Cursor(i, num, cfg.sgl, |newOps|, j) && num == |plan| <= mbufs.Length
      && pending == before + newOps[..j + 1]
      && Holds(pool.table, newOps, Built(Attach(mbufs[..], plan[..i], shinfo), [], cfg.sgl, |newOps|, 0, x))
      && pool.table.Keys == table.Keys && Kept(table, pool.table, before)
    }

    /** One turn of either first loop: chain source mbuf i and register the next operation if it is due. */
    method ChainNextSource(i: nat, num: nat, j: nat, data: Slice, shinfo: Shared, ghost before: seq<OpId>, ghost newOps: seq<OpId>,
                           ghost plan: seq<Slice>, ghost x: Xform, ghost table: OpTable) returns (next: nat)
      requires 0 < cfg.sgl <= MBUF_MAX_NB_SEGS && i < num && |newOps| == CeilDiv(num, cfg.sgl)
      requires Ahead(newOps) && Distinct(before + newOps) && Known(table, before)
      requires Sourcing(i, num, j, before, newOps, plan, shinfo, x, table) && data == plan[i]
      modifies this`pending, this`refDecompressed, this`refCompressed, pool`table
      ensures Sourcing(i + 1, num, next, before, newOps, plan, shinfo, x, table)
      ensures refDecompressed == old(refDecompressed) + (if shinfo == DecompressedInfo then 1 else 0)
      ensures refCompressed == old(refCompressed) + (if shinfo == CompressedInfo then 1 else 0)
    {
      ChainSource(i, j, data, shinfo, before, newOps, plan, x);
      next := NextOperation(i + 1, num, j, before, newOps);
    }

    /** First loop of compress-side assembly: cut segments off the input from `offset` on and chain
        them to the new operations, registering each operation as outstanding before it gets its
        first segment. `plan` is what the cutting must produce. */
    method AttachSegments(buffer: Slice, offset: nat, num: nat, ghost end: nat, ghost plan: seq<Slice>, ghost newOps: seq<OpId>)
        returns (newOffset: nat)
      requires 0 < cfg.sgl <= MBUF_MAX_NB_SEGS
      requires 0 < num == |plan| <= mbufs.Length && CutsInto(buffer, offset, end, cfg.seg, plan, 0)
      requires |newOps| == CeilDiv(num, cfg.sgl) && Ahead(newOps)
      requires Distinct(pending + newOps) && Known(pool.table, pending)
      requires Holds(pool.table, newOps, Built([], [], cfg.sgl, |newOps|, 0, Compress))
      modifies this`pending, this`refDecompressed, this`refCompressed, pool`table
      ensures newOffset == end && pending == old(pending) + newOps
      ensures refDecompressed == old(refDecompressed) + num && refCompressed == old(refCompressed)
      ensures Holds(pool.table, newOps, Built(Attach(mbufs[..], plan, DecompressedInfo), [], cfg.sgl, |newOps|, 0, Compress))
      ensures pool.table.Keys == old(pool.table.Keys) && Kept(old(pool.table), pool.table, old(pending))
    {
      hide Holds;
      ghost var before, table := pending, pool.table;
      var mbufId, j := 0, 0;
      newOffset := offset;
      pending := pending + [operations[numOpsAssembled]];
      while mbufId < num
        invariant Sourcing(mbufId, num, j, before, newOps, plan, DecompressedInfo, Compress, table)
        invariant CutsInto(buffer, newOffset, end, cfg.seg, plan, mbufId)
        invariant refDecompressed == old(refDecompressed) + mbufId && refCompressed == old(refCompressed)
      {
        var bufLen := Min(cfg.seg, buffer.len - newOffset);
        var slice := Slice(buffer.region, buffer.start + newOffset, bufLen);
        j := ChainNextSource(mbufId, num, j, slice, DecompressedInfo, before, newOps, plan, Compress, table);
        mbufId := mbufId + 1;
        newOffset := newOffset + bufLen;
      }
      assert newOps[..j + 1] == newOps;
      assert plan[..num] == plan;
    }

    /** The new operations newOps have source chains srcs and so far the zones, the first j of them
        being complete; the zones have been taken since the device memory was in state start, with
        host memory bytes. */
    ghost predicate Zoning(num: nat, before: seq<OpId>, newOps: seq<OpId>, srcs: seq<Mbuf>, zones: seq<Memzone>, j: nat,
                           start: Zones, bytes: Memory, table: OpTable)
      requires cfg.sgl > 0
      reads this, mbufs, pool, device, device.pool, device.pool.host, device.pool.tracker
    {
      && num + |zones| <= mbufs.Length && DoneCursor(|zones|, num, cfg.sgl, |newOps|, j)
      && Holds(pool.table, newOps, Built(srcs, Attach(mbufs[num..], ZoneSlices(zones), CompressedInfo), cfg.sgl, |newOps|, j, Compress))
      && pool.table.Keys == table.Keys && Kept(table, pool.table, before)
      && Took(start, bytes, zones)
    }

    /** Second loop of compress-side assembly: take one zone per source segment and chain it to the
        destination of the same operation; complete an operation when its chain is. When no zone is
        to be had, what was attached so far stays attached. */
    method AttachZones(num: nat, ghost before: seq<OpId>, ghost newOps: seq<OpId>, ghost srcs: seq<Mbuf>)
        returns (status: Status, j: nat, ghost zones: seq<Memzone>)
      requires 0 < cfg.sgl <= MBUF_MAX_NB_SEGS && 0 < num && num + num <= mbufs.Length && device.Valid()
      requires |newOps| == CeilDiv(num, cfg.sgl) && Ahead(newOps) && numOpsAssembled + |newOps| < operations.Length
      requires Distinct(before + newOps) && Known(pool.table, before)
      requires Holds(pool.table, newOps, Built(srcs, [], cfg.sgl, |newOps|, 0, Compress))
      modifies this`refDecompressed, this`refCompressed, pool`table, device`memzonePool, device`occupiedMemzones,
               device`numHotAllocations, device.pool, device.pool.host, device.pool.tracker
      ensures status == OK || status == IOError
      ensures |zones| <= num && (status == OK <==> |zones| == num)
      ensures status == IOError ==> device.memzonePool == []
      ensures device.pool.host.refusals == old(device.pool.host.refusals) + (if status == IOError then 1 else 0)
      ensures refDecompressed == old(refDecompressed) && refCompressed == old(refCompressed) + |zones|
      ensures Zoning(num, before, newOps, srcs, zones, j, old(device.State()), old(device.pool.host.bytes), old(pool.table))
    {
      hide Holds, Built, Served;
      zones := [];
      var mbufId := 0;
      j := 0;
      while mbufId < num
        invariant |zones| == mbufId <= num && device.pool.host.refusals == old(device.pool.host.refusals)
        invariant refDecompressed == old(refDecompressed) && refCompressed == old(refCompressed) + mbufId
        invariant Zoning(num, before, newOps, srcs, zones, j, old(device.State()), old(device.pool.host.bytes), old(pool.table))
      {
        var ok: bool;
        ok, j, zones := NextZone(mbufId, num, j, before, newOps, srcs, zones, old(device.State()),
                                 old(device.pool.host.bytes), old(pool.table));
        if !ok {
          return IOError, j, zones;
        }
        mbufId := mbufId + 1;
      }
      return OK, j, zones;
    }

    method NextZone(i: nat, num: nat, j: nat, ghost before: seq<OpId>, ghost newOps: seq<OpId>, ghost srcs: seq<Mbuf>,
                    ghost zones: seq<Memzone>, ghost start: Zones, ghost bytes: Memory, ghost table: OpTable)
        returns (ok: bool, next: nat, ghost taken: seq<Memzone>)
      requires 0 < cfg.sgl <= MBUF_MAX_NB_SEGS && i < num && num + num <= mbufs.Length && |zones| == i
      requires |newOps| == CeilDiv(num, cfg.sgl) && Ahead(newOps) && numOpsAssembled + |newOps| < operations.Length
      requires Distinct(before + newOps) && Known(pool.table, before) && start.WellFormed()
      requires Zoning(num, before, newOps, srcs, zones, j, start, bytes, table)
      modifies this`refDecompressed, this`refCompressed, pool`table, device`memzonePool, device`occupiedMemzones,
               device`numHotAllocations, device.pool, device.pool.host, device.pool.tracker
      ensures |taken| == if ok then i + 1 else i
      ensures !ok ==> device.memzonePool == []
      ensures device.pool.host.refusals == old(device.pool.host.refusals) + (if ok then 0 else 1)
      ensures refDecompressed == old(refDecompressed) && refCompressed == old(refCompressed) + (if ok then 1 else 0)
      ensures Zoning(num, before, newOps, srcs, taken, next, start, bytes, table)
    {
      hide TakeAll, CanTakeAll, Served;
      var memzone := TakeZone(start, zones, bytes);
      if memzone == None {
        return false, j, zones;
      }
      ok := true;
      next := ChainZone(i, num, j, memzone.value, before, newOps, srcs, zones);
      taken := zones + [memzone.value];
    }

    /** Take(), as one more step of a run of takes. */
    method TakeZone(ghost start: Zones, ghost zones: seq<Memzone>, ghost bytes: Memory) returns (memzone: Option<Memzone>)
      requires device.Valid() && Extends(bytes, device.pool.host.bytes)
      requires CanTakeAll(start, zones) && device.State() == TakeAll(start, zones) && start.WellFormed()
      modifies device`memzonePool, device`occupiedMemzones, device`numHotAllocations, device.pool, device.pool.host, device.pool.tracker
      ensures device.Valid() && Extends(bytes, device.pool.host.bytes)
      ensures memzone == None ==> device.State() == TakeAll(start, zones) && device.memzonePool == []
      ensures device.pool.host.refusals == old(device.pool.host.refusals) + (if memzone == None then 1 else 0)
      ensures memzone.Some? ==>
                && CanTakeAll(start, zones + [memzone.value]) && device.State() == TakeAll(start, zones + [memzone.value])
                && (memzone.value in start.free || memzone.value.region !in bytes)
    {
      TakeAllShape(start, zones);
      memzone := device.Take();
      if memzone.Some? {
        CanTakeOne(start, zones, memzone.value);
      }
    }

    /** One turn of either second loop: chain destination mbuf i, where element i of the plan belongs, and
        complete the operation when its chain is. */
    method ChainNextDestination(i: nat, num: nat, j: nat, data: Slice, shinfo: Shared, ghost before: seq<OpId>, ghost newOps: seq<OpId>,
                                ghost srcs: seq<Mbuf>, ghost plan: seq<Slice>, x: Xform) returns (next: nat)
      requires 0 < cfg.sgl <= MBUF_MAX_NB_SEGS && i < num && i < |plan| && num + |plan| <= mbufs.Length && data == plan[i] && x != Unset
      requires |newOps| == CeilDiv(num, cfg.sgl) && DoneCursor(i, num, cfg.sgl, |newOps|, j)
      requires Ahead(newOps) && numOpsAssembled + |newOps| < operations.Length
      requires Distinct(before + newOps) && Known(pool.table, before)
      requires Holds(pool.table, newOps, Built(srcs, Attach(mbufs[num..], plan[..i], shinfo), cfg.sgl, |newOps|, j, x))
      modifies this`refDecompressed, this`refCompressed, pool`table
      ensures DoneCursor(i + 1, num, cfg.sgl, |newOps|, next)
      ensures refDecompressed == old(refDecompressed) + (if shinfo == DecompressedInfo then 1 else 0)
      ensures refCompressed == old(refCompressed) + (if shinfo == CompressedInfo then 1 else 0)
      ensures Holds(pool.table, newOps, Built(srcs, Attach(mbufs[num..], plan[..i + 1], shinfo), cfg.sgl, |newOps|, next, x))
      ensures pool.table.Keys == old(pool.table.Keys) && Kept(old(pool.table), pool.table, before)
    {
      DoneCursorStep(i, num, cfg.sgl, |newOps|, j);
      ChainDestination(i, j, data, shinfo, before, newOps, srcs, plan, num, x);
      next := CompleteIfFull(i + 1, num, j, before, newOps, srcs, Attach(mbufs[num..], plan[..i + 1], shinfo), x);
    }

    /** Chain zone number i to its operation. */
    method ChainZone(i: nat, num: nat, j: nat, zone: Memzone, ghost before: seq<OpId>, ghost newOps: seq<OpId>,
                     ghost srcs: seq<Mbuf>, ghost zones: seq<Memzone>) returns (next: nat)
      requires 0 < cfg.sgl <= MBUF_MAX_NB_SEGS && i < num && num + num <= mbufs.Length && |zones| == i
      requires |newOps| == CeilDiv(num, cfg.sgl) && DoneCursor(i, num, cfg.sgl, |newOps|, j)
      requires Ahead(newOps) && numOpsAssembled + |newOps| < operations.Length
      requires Distinct(before + newOps) && Known(pool.table, before)
      requires Holds(pool.table, newOps, Built(srcs, Attach(mbufs[num..], ZoneSlices(zones), CompressedInfo), cfg.sgl, |newOps|, j, Compress))
      modifies this`refDecompressed, this`refCompressed, pool`table
      ensures DoneCursor(i + 1, num, cfg.sgl, |newOps|, next)
      ensures refDecompressed == old(refDecompressed) && refCompressed == old(refCompressed) + 1
      ensures Holds(pool.table, newOps, Built(srcs, Attach(mbufs[num..], ZoneSlices(zones + [zone]), CompressedInfo), cfg.sgl, |newOps|, next, Compress))
      ensures pool.table.Keys == old(pool.table.Keys) && Kept(old(pool.table), pool.table, before)
    {
      ghost var plan := ZoneSlices(zones + [zone]);
      assert plan[..i] == ZoneSlices(zones) && plan[..i + 1] == plan;
      next := ChainNextDestination(i, num, j, Slice(zone.region, 0, zone.len % 0x1_0000), CompressedInfo, before, newOps, srcs, plan, Compress);
    }

    /** After i of num destination mbufs: complete the current operation if its chain is full or the
        last mbuf has been used. */
    method CompleteIfFull(i: nat, num: nat, j: nat, ghost before: seq<OpId>, ghost newOps: seq<OpId>,
                          ghost srcs: seq<Mbuf>, ghost dsts: seq<Mbuf>, x: Xform) returns (next: nat)
      requires cfg.sgl > 0 && x != Unset && j < |newOps|
      requires numOpsAssembled + |newOps| < operations.Length && operations[numOpsAssembled + j] == newOps[j]
      requires Distinct(before + newOps) && Known(pool.table, before)
      requires Holds(pool.table, newOps, Built(srcs, dsts, cfg.sgl, |newOps|, j, x))
      modifies pool`table
      ensures next == if Multiple(i, cfg.sgl) || i == num then j + 1 else j
      ensures Holds(pool.table, newOps, Built(srcs, dsts, cfg.sgl, |newOps|, next, x))
      ensures pool.table.Keys == old(pool.table.Keys) && Kept(old(pool.table), pool.table, before)
    {
      next := j;
      CountingIsDivision(i, cfg.sgl);
      if i % cfg.sgl == 0 || i == num {
        UpdateStep(pool.table, before, newOps, srcs, dsts, cfg.sgl, j, x);
        UpdateOperation(operations[numOpsAssembled + j], x);
        next := j + 1;
        // For the last operation this reads the entry past it, which is inside the array.
        var currentOp := operations[numOpsAssembled + next];
      }
    }

    /** First loop of decompress-side assembly: chain the next compressed buffers, one mbuf each. */
    method AttachBuffers(buffers: seq<Slice>, index: nat, num: nat, ghost newOps: seq<OpId>) returns (newIndex: nat)
      requires 0 < cfg.sgl <= MBUF_MAX_NB_SEGS && 0 < num <= mbufs.Length && index + num <= |buffers|
      requires |newOps| == CeilDiv(num, cfg.sgl) && Ahead(newOps)
      requires Distinct(pending + newOps) && Known(pool.table, pending)
      requires Holds(pool.table, newOps, Built([], [], cfg.sgl, |newOps|, 0, Decompress))
      modifies this`pending, this`refDecompressed, this`refCompressed, pool`table
      ensures newIndex == index + num && pending == old(pending) + newOps
      ensures refCompressed == old(refCompressed) + num && refDecompressed == old(refDecompressed)
      ensures Holds(pool.table, newOps, Built(Attach(mbufs[..], ClipAll(buffers[index..index + num]), CompressedInfo), [], cfg.sgl, |newOps|, 0, Decompress))
      ensures pool.table.Keys == old(pool.table.Keys) && Kept(old(pool.table), pool.table, old(pending))
    {
      hide Holds;
      ghost var before, table, plan := pending, pool.table, ClipAll(buffers[index..index + num]);
      var mbufId, j := 0, 0;
      newIndex := index;
      pending := pending + [operations[numOpsAssembled]];
      while mbufId < num
        invariant Sourcing(mbufId, num, j, before, newOps, plan, CompressedInfo, Decompress, table)
        invariant newIndex == index + mbufId
        invariant refCompressed == old(refCompressed) + mbufId && refDecompressed == old(refDecompressed)
      {
        var buffer := buffers[newIndex];
        j := ChainNextSource(mbufId, num, j, Clip(buffer), CompressedInfo, before, newOps, plan, Decompress, table);
        mbufId := mbufId + 1;
        newIndex := newIndex + 1;
      }
      assert newOps[..j + 1] == newOps;
      assert plan[..num] == plan;
    }

    /** Second loop of decompress-side assembly: give each source buffer the next seg bytes of the
        output, and complete the operations. */
    method AttachStrip(output: Slice, offset: nat, num: nat, ghost before: seq<OpId>, ghost newOps: seq<OpId>, ghost srcs: seq<Mbuf>)
        returns (newOffset: nat, j: nat)
      requires 0 < cfg.sgl <= MBUF_MAX_NB_SEGS && 0 < num && num + num <= mbufs.Length
      requires |newOps| == CeilDiv(num, cfg.sgl) && Ahead(newOps) && numOpsAssembled + |newOps| < operations.Length
      requires Distinct(before + newOps) && Known(pool.table, before)
      requires Holds(pool.table, newOps, Built(srcs, [], cfg.sgl, |newOps|, 0, Decompress))
      modifies this`refDecompressed, this`refCompressed, pool`table
      ensures newOffset == Skip(offset, cfg.seg, num) && j == |newOps|
      ensures refDecompressed == old(refDecompressed) + num && refCompressed == old(refCompressed)
      ensures Holds(pool.table, newOps, Built(srcs, Attach(mbufs[num..], Strip(output.region, output.start + offset, cfg.seg, num), DecompressedInfo), cfg.sgl, |newOps|, j, Decompress))
      ensures pool.table.Keys == old(pool.table.Keys) && Kept(old(pool.table), pool.table, before)
    {
      hide Holds, Built;
      ghost var k := |newOps|;
      ghost var plan := Strip(output.region, output.start + offset, cfg.seg, num);
      var mbufId := 0;
      newOffset, j := offset, 0;
      while mbufId < num
        invariant DoneCursor(mbufId, num, cfg.sgl, k, j)
        invariant newOffset == Skip(offset, cfg.seg, mbufId)
        invariant refDecompressed == old(refDecompressed) + mbufId && refCompressed == old(refCompressed)
        invariant Holds(pool.table, newOps, Built(srcs, Attach(mbufs[num..], plan[..mbufId], DecompressedInfo), cfg.sgl, k, j, Decompress))
        invariant pool.table.Keys == old(pool.table.Keys) && Kept(old(pool.table), pool.table, before)
      {
        var slice := Slice(output.region, output.start + newOffset, cfg.seg);
        StripAt(output.region, output.start + offset, cfg.seg, num, mbufId);
        SkipShift(offset, output.start, cfg.seg, mbufId);
        SkipNext(offset, cfg.seg, mbufId);
        j := ChainNextDestination(mbufId, num, j, slice, DecompressedInfo, before, newOps, srcs, plan, Decompress);
        mbufId := mbufId + 1;
        newOffset := newOffset + cfg.seg;
      }
      assert plan[..num] == plan;
    }

    /** The device has handed out zones since it was in state start with host memory bytes. */
    ghost predicate Took(start: Zones, bytes: Memory, zones: seq<Memzone>)
      reads device, device.pool, device.pool.host, device.pool.tracker
    {
      && device.Valid() && Extends(bytes, device.pool.host.bytes)
      && CanTakeAll(start, zones) && device.State() == TakeAll(start, zones)
      && FreeOrNew(start, bytes, zones)
    }

    lemma TookNothing()
      requires device.Valid()
      ensures Took(device.State(), device.pool.host.bytes, [])
    {
    }

    /** Both loops of compress-side assembly for the empty operations newOps. */
    method BuildCompressOps(buffer: Slice, offset: nat, num: nat, ghost end: nat, ghost segs: seq<Slice>, ghost newOps: seq<OpId>)
        returns (status: Status, newOffset: nat, j: nat, ghost zones: seq<Memzone>)
      requires 0 < cfg.sgl <= MBUF_MAX_NB_SEGS && device.Valid()
      requires 0 < num == |segs| && num + num <= mbufs.Length && CutsInto(buffer, offset, end, cfg.seg, segs, 0)
      requires |newOps| == CeilDiv(num, cfg.sgl) && Ahead(newOps) && numOpsAssembled + |newOps| < operations.Length
      requires Distinct(pending + newOps) && Known(pool.table, pending) && Empty(pool.table, newOps)
      modifies this`pending, this`refDecompressed, this`refCompressed, pool`table, device`memzonePool,
               device`occupiedMemzones, device`numHotAllocations, device.pool, device.pool.host, device.pool.tracker
      ensures status == OK || status == IOError
      ensures newOffset == end && pending == old(pending) + newOps
      ensures |zones| <= num && (status == OK <==> |zones| == num) && (status == OK ==> j == |newOps|)
      ensures refDecompressed == old(refDecompressed) + num && refCompressed == old(refCompressed) + |zones|
      ensures pool.table.Keys == old(pool.table.Keys) && Kept(old(pool.table), pool.table, old(pending))
      ensures Holds(pool.table, newOps, Built(Attach(mbufs[..], segs, DecompressedInfo),
                    Attach(mbufs[num..], ZoneSlices(zones), CompressedInfo), cfg.sgl, |newOps|, j, Compress))
      ensures Took(old(device.State()), old(device.pool.host.bytes), zones)
      ensures Known(pool.table, newOps) && LentTo(pool.table, newOps) == ZoneSlices(zones)
      ensures status == IOError ==> device.memzonePool == []
      ensures device.pool.host.refusals == old(device.pool.host.refusals) + (if status == IOError then 1 else 0)
    {
      ghost var before := pending;
      EmptyBuilt(pool.table, newOps, cfg.sgl, Compress);
      newOffset := AttachSegments(buffer, offset, num, end, segs, newOps);
      status, j, zones := AttachZones(num, before, newOps, Attach(mbufs[..], segs, DecompressedInfo));
      LentZones(pool.table, newOps, Attach(mbufs[..], segs, DecompressedInfo), mbufs[num..], zones, cfg.sgl, num, j, Compress);
    }

    /** Count the new, completely built operations as staged. */
    method StageBuilt(j: nat, ghost table1: OpTable, ghost before: seq<OpId>, ghost newOps: seq<OpId>, ghost srcs: seq<Slice>,
                      ghost dsts: seq<Slice>, ghost kind: Shared, ghost kind': Shared, ghost x: Xform, ghost ops: seq<OpId>)
      requires Shaped() && kind != kind' && x != Unset && j == |newOps| && pending == before + newOps
      requires |srcs| == |dsts| && |newOps| == CeilDiv(|srcs|, cfg.sgl) && |srcs| * 2 <= mbufs.Length
      requires numOpsAssembled <= |before| && numOpsAssembled + j <= cfg.burst && operations[..] == ops
      requires LastOf(before, ops, numOpsAssembled)
      requires Follow(ops, numOpsAssembled, newOps)
      requires Balanced(totals, table1, pool.free, before + newOps, |mbufPool| + |srcs| + |dsts|, refDecompressed - |srcs|, refCompressed - |srcs|)
      requires Empty(table1, newOps) && pool.table.Keys == table1.Keys && Kept(table1, pool.table, before)
      requires Holds(pool.table, newOps, Built(Attach(mbufs[..], srcs, kind), Attach(mbufs[|srcs|..], dsts, kind'), cfg.sgl, j, j, x))
      modifies this`numOpsAssembled
      ensures numOpsAssembled == old(numOpsAssembled) + j && Valid()
      ensures Loaded(pool.table, newOps, Zip(Deal(srcs, cfg.sgl, j), Deal(dsts, cfg.sgl, j)), x)
    {
      hide Balanced, Holds, Kept, Loaded;
      RoundClosed(totals, pool.free, table1, pool.table, before, newOps, |mbufPool|, refDecompressed - |srcs|,
                  refCompressed - |srcs|, mbufs[..], mbufs[|srcs|..], srcs, dsts, kind, kind', x);
      StagedGrow(ops, before, newOps, numOpsAssembled, numOpsAssembled + j);
      numOpsAssembled := numOpsAssembled + j;
    }

    /** Stage the new operations if every one of them got its zones; otherwise the destination mbufs still
        to be chained are lost. */
    method StageZoned(status: Status, j: nat, ghost table1: OpTable, ghost before: seq<OpId>, ghost newOps: seq<OpId>,
                      ghost segs: seq<Slice>, ghost zones: seq<Memzone>, ghost ops: seq<OpId>)
      requires Shaped() && pending == before + newOps && operations[..] == ops && |segs| * 2 <= mbufs.Length
      requires numOpsAssembled <= |before| && numOpsAssembled + |newOps| <= cfg.burst
      requires LastOf(before, ops, numOpsAssembled)
      requires Follow(ops, numOpsAssembled, newOps)
      requires |zones| <= |segs| && (status == OK ==> j == |newOps| && |segs| == |zones|) && |newOps| == CeilDiv(|segs|, cfg.sgl)
      requires Balanced(totals, table1, pool.free, before + newOps, |mbufPool| + |segs| + |segs|, refDecompressed - |segs|, refCompressed - |zones|)
      requires Empty(table1, newOps) && pool.table.Keys == table1.Keys && Kept(table1, pool.table, before)
      requires Holds(pool.table, newOps, Built(Attach(mbufs[..], segs, DecompressedInfo),
                     Attach(mbufs[|segs|..], ZoneSlices(zones), CompressedInfo), cfg.sgl, |newOps|, j, Compress))
      modifies this`numOpsAssembled
      ensures status != OK ==> Accountable() && LostOps() == 0 && LostMbufs() == |segs| - |zones|
      ensures numOpsAssembled == old(numOpsAssembled) + (if status == OK then |newOps| else 0)
      ensures status == OK ==>
                && Valid()
                && Loaded(pool.table, newOps, Zip(Deal(segs, cfg.sgl, |newOps|), Deal(ZoneSlices(zones), cfg.sgl, |newOps|)), Compress)
    {
      hide Balanced, LastOf, Holds, Loaded;
      if status == OK {
        StageBuilt(j, table1, before, newOps, segs, ZoneSlices(zones), DecompressedInfo, CompressedInfo, Compress, ops);
      } else {
        RoundBroken(totals, pool.free, table1, pool.table, before, newOps, |mbufPool|, refDecompressed - |segs|,
                    refCompressed - |zones|, mbufs[..], mbufs[|segs|..], segs, ZoneSlices(zones), j, Compress);
        BrokenAccounts(|segs| - |zones|);
      }
    }

    /** How many bytes, segments and operations the next round handles. */
    method NextBurst(buffer: Slice, offset: nat) returns (nextBytes: nat, num: nat, k: nat)
      requires cfg.seg > 0 && cfg.sgl > 0 && offset < buffer.len && numOpsAssembled < cfg.burst
      requires mbufs.Length == MbufsInBurst(cfg.burst, cfg.sgl)
      ensures var segs := Segments(buffer.region, buffer.start + offset, nextBytes, cfg.seg);
              && 0 < num == |segs| && k == CeilDiv(num, cfg.sgl) && 0 < k && numOpsAssembled + k <= cfg.burst
              && num * 2 <= mbufs.Length
              && CutsInto(buffer, offset, offset + nextBytes, cfg.seg, segs, 0)
              && CutFor(cfg, buffer, offset, offset + nextBytes, numOpsAssembled, segs, k)
      ensures MayAsk(cfg, numOpsAssembled, k, num)
    {
      CountingIsMultiplication(cfg.burst, cfg.sgl);
      assert mbufs.Length == cfg.burst * cfg.sgl * 2;
      hide Segments, CutsInto, CutFor, MayAsk, MbufsInBurst, Product;
      var m := cfg.burst - numOpsAssembled;
      MulPositive(m, cfg.sgl);
      MulPositive(m * cfg.sgl, cfg.seg);
      nextBytes := Min(buffer.len - offset, m * cfg.sgl * cfg.seg);
      num := (nextBytes + cfg.seg - 1) / cfg.seg;
      k := (num + cfg.sgl - 1) / cfg.sgl;
      NextCut(cfg, buffer, offset, numOpsAssembled, nextBytes, num, k);
    }

    /** Assemble compression operations for the input from `offset` on: as many segments as are left
        or fit the burst, in consecutive operations of max_sgl_segs segments. */
    method AssembleFromInput(buffer: Slice, offset: nat)
        returns (status: Status, count: nat, newOffset: nat, ghost newOps: seq<OpId>, ghost segs: seq<Slice>, ghost zones: seq<Memzone>)
      requires Valid() && device.Valid() && offset <= buffer.len
      requires mbufs.Length == MbufsInBurst(cfg.burst, cfg.sgl) && totals.ops > 0
      modifies this`numOpsAssembled, this`pending, this`mbufPool, this`refDecompressed, this`refCompressed,
               operations, mbufs, pool, device`memzonePool, device`occupiedMemzones, device`numHotAllocations,
               device.pool, device.pool.host, device.pool.tracker
      ensures status == OK || status == OutOfMemory || status == IOError
      ensures pending == old(pending) + newOps && pool.table.Keys == old(pool.table.Keys)
      ensures Kept(old(pool.table), pool.table, old(pending))
      ensures Took(old(device.State()), old(device.pool.host.bytes), zones)
      ensures Known(pool.table, newOps) && LentTo(pool.table, newOps) == ZoneSlices(zones)
      ensures status == OK ==>
                && Valid() && count == numOpsAssembled == old(numOpsAssembled) + |newOps|
                && |zones| == |segs|
                && Loaded(pool.table, newOps, Zip(Deal(segs, cfg.sgl, |newOps|), Deal(ZoneSlices(zones), cfg.sgl, |newOps|)), Compress)
      ensures SameFrom(old(operations[..]), operations[..], cfg.burst)
      ensures status == OutOfMemory ==>
                zones == [] && newOps == [] && (Serves(totals, cfg.burst) ==> |old(pending)| > MAX_INFLIGHT_OPS + old(numOpsAssembled))
      ensures status == OutOfMemory ==> Accountable() && LostMbufs() == 0
      ensures status == IOError ==>
                device.memzonePool == [] && Accountable() && LostOps() == 0 && LostMbufs() == |segs| - |zones| > 0
      ensures device.pool.host.refusals == old(device.pool.host.refusals) + (if status == IOError then 1 else 0)
      ensures status != OutOfMemory ==> CutFor(cfg, buffer, offset, newOffset, old(numOpsAssembled), segs, |newOps|)
    {
      newOps, segs, zones := [], [], [];
      newOffset := offset;
      if buffer.len - offset <= 0 || numOpsAssembled >= cfg.burst {
        return OK, numOpsAssembled, newOffset, newOps, segs, zones;
      }
      status, count, newOffset, newOps, segs, zones := CutInput(buffer, offset);
    }

    /** Assembly of the next segments, when input is left and the burst has room. */
    method CutInput(buffer: Slice, offset: nat)
        returns (status: Status, count: nat, newOffset: nat, ghost newOps: seq<OpId>, ghost segs: seq<Slice>, ghost zones: seq<Memzone>)
      requires Valid() && device.Valid() && offset < buffer.len && numOpsAssembled < cfg.burst
      requires mbufs.Length == MbufsInBurst(cfg.burst, cfg.sgl) && totals.ops > 0
      modifies this`numOpsAssembled, this`pending, this`mbufPool, this`refDecompressed, this`refCompressed,
               operations, mbufs, pool, device`memzonePool, device`occupiedMemzones, device`numHotAllocations,
               device.pool, device.pool.host, device.pool.tracker
      ensures status == OK || status == OutOfMemory || status == IOError
      ensures pending == old(pending) + newOps && pool.table.Keys == old(pool.table.Keys)
      ensures Kept(old(pool.table), pool.table, old(pending))
      ensures Took(old(device.State()), old(device.pool.host.bytes), zones)
      ensures Known(pool.table, newOps) && LentTo(pool.table, newOps) == ZoneSlices(zones)
      ensures status == OK ==>
                && Valid() && count == numOpsAssembled == old(numOpsAssembled) + |newOps|
                && |zones| == |segs|
                && Loaded(pool.table, newOps, Zip(Deal(segs, cfg.sgl, |newOps|), Deal(ZoneSlices(zones), cfg.sgl, |newOps|)), Compress)
      ensures SameFrom(old(operations[..]), operations[..], cfg.burst)
      ensures status == OutOfMemory ==>
                zones == [] && newOps == [] && (Serves(totals, cfg.burst) ==> |old(pending)| > MAX_INFLIGHT_OPS + old(numOpsAssembled))
      ensures status == OutOfMemory ==> Accountable() && LostMbufs() == 0
      ensures status == IOError ==>
                device.memzonePool == [] && Accountable() && LostOps() == 0 && LostMbufs() == |segs| - |zones| > 0
      ensures device.pool.host.refusals == old(device.pool.host.refusals) + (if status == IOError then 1 else 0)
      ensures status != OutOfMemory ==> CutFor(cfg, buffer, offset, newOffset, old(numOpsAssembled), segs, |newOps|)
    {
      hide LastOf, Loaded, Empty, Balanced, Took, Follow, CutsInto, Segments, Holds;
      newOffset, segs, zones, count := offset, [], [], numOpsAssembled;
      TookNothing();
      var nextBytes, num, k := NextBurst(buffer, offset);
      status, newOps := BulkAllocate(k, num * 2);
      if status != OK {
        return;
      }
      segs := Segments(buffer.region, buffer.start + offset, nextBytes, cfg.seg);
      status, newOffset, zones := BuildAndStage(buffer, offset, num, offset + nextBytes, segs, newOps);
      count := numOpsAssembled;
    }

    /** Build, and if that succeeds stage, the operations newOps just allocated. */
    method BuildAndStage(buffer: Slice, offset: nat, num: nat, ghost end: nat, ghost segs: seq<Slice>, ghost newOps: seq<OpId>)
        returns (status: Status, newOffset: nat, ghost zones: seq<Memzone>)
      requires Shaped() && device.Valid() && Staged() && Ahead(newOps)
      requires 0 < num == |segs| && num * 2 <= mbufs.Length && CutsInto(buffer, offset, end, cfg.seg, segs, 0)
      requires |newOps| == CeilDiv(num, cfg.sgl) && numOpsAssembled + |newOps| <= cfg.burst < operations.Length
      requires Balanced(totals, pool.table, pool.free, pending + newOps, |mbufPool| + num + num, refDecompressed, refCompressed)
      requires Known(pool.table, pending) && Empty(pool.table, newOps)
      modifies this`numOpsAssembled, this`pending, this`refDecompressed, this`refCompressed, pool`table, device`memzonePool,
               device`occupiedMemzones, device`numHotAllocations, device.pool, device.pool.host, device.pool.tracker
      ensures status == OK || status == IOError
      ensures pending == old(pending) + newOps && newOffset == end
      ensures pool.table.Keys == old(pool.table.Keys) && Kept(old(pool.table), pool.table, old(pending))
      ensures Took(old(device.State()), old(device.pool.host.bytes), zones)
      ensures Known(pool.table, newOps) && LentTo(pool.table, newOps) == ZoneSlices(zones)
      ensures numOpsAssembled == old(numOpsAssembled) + (if status == OK then |newOps| else 0)
      ensures status == OK ==>
                && Valid() && |zones| == num
                && Loaded(pool.table, newOps, Zip(Deal(segs, cfg.sgl, |newOps|), Deal(ZoneSlices(zones), cfg.sgl, |newOps|)), Compress)
      ensures status == IOError ==>
                device.memzonePool == [] && Accountable() && LostOps() == 0 && LostMbufs() == num - |zones| > 0
      ensures device.pool.host.refusals == old(device.pool.host.refusals) + (if status == IOError then 1 else 0)
    {
      hide Took, CutsInto, Served, Follow;
      ghost var before := pending;
      ghost var table1 := pool.table;
      ghost var ops := operations[..];
      assert Follow(ops, numOpsAssembled, newOps);
      var j;
      status, newOffset, j, zones := BuildCompressOps(buffer, offset, num, end, segs, newOps);
      assert operations[..] == ops;
      StageZoned(status, j, table1, before, newOps, segs, zones, ops);
    }

    lemma BrokenAccounts(lost: nat)
      requires Balanced(totals, pool.table, pool.free, pending, |mbufPool| + lost, refDecompressed, refCompressed)
      ensures Accountable() && LostOps() == 0 && LostMbufs() == lost
    {
      assert totals.(ops := totals.ops) == totals;
    }

    method NextTakeSizes(total: nat, index: nat) returns (num: nat, k: nat)
      requires cfg.sgl > 0 && index < total && numOpsAssembled < cfg.burst
      requires mbufs.Length == MbufsInBurst(cfg.burst, cfg.sgl)
      ensures 0 < num && k == CeilDiv(num, cfg.sgl) && 0 < k && numOpsAssembled + k <= cfg.burst && num * 2 <= mbufs.Length
      ensures MayAsk(cfg, numOpsAssembled, k, num) && TakeFor(cfg, total, index, index + num, numOpsAssembled, num, k)
    {
      CountingIsMultiplication(cfg.burst, cfg.sgl);
      var m := cfg.burst - numOpsAssembled;
      MulPositive(m, cfg.sgl);
      num := Min(m * cfg.sgl, total - index);
      k := (num + cfg.sgl - 1) / cfg.sgl;
      NextTake(cfg, total, index, numOpsAssembled, num, k);
    }

    /** Both loops of decompress-side assembly for the empty operations newOps. */
    method BuildDecompressOps(buffers: seq<Slice>, index: nat, output: Slice, offset: nat, num: nat, ghost newOps: seq<OpId>)
        returns (newIndex: nat, newOffset: nat, j: nat)
      requires 0 < cfg.sgl <= MBUF_MAX_NB_SEGS && 0 < num && num + num <= mbufs.Length && index + num <= |buffers|
      requires |newOps| == CeilDiv(num, cfg.sgl) && Ahead(newOps) && numOpsAssembled + |newOps| < operations.Length
      requires Distinct(pending + newOps) && Known(pool.table, pending) && Empty(pool.table, newOps)
      modifies this`pending, this`refDecompressed, this`refCompressed, pool`table
      ensures newIndex == index + num && newOffset == Skip(offset, cfg.seg, num) && j == |newOps|
      ensures pending == old(pending) + newOps
      ensures refDecompressed == old(refDecompressed) + num && refCompressed == old(refCompressed) + num
      ensures pool.table.Keys == old(pool.table.Keys) && Kept(old(pool.table), pool.table, old(pending))
      ensures Holds(pool.table, newOps, Built(Attach(mbufs[..], ClipAll(buffers[index..index + num]), CompressedInfo),
                    Attach(mbufs[num..], Strip(output.region, output.start + offset, cfg.seg, num), DecompressedInfo),
                    cfg.sgl, |newOps|, j, Decompress))
    {
      ghost var before := pending;
      EmptyBuilt(pool.table, newOps, cfg.sgl, Decompress);
      newIndex := AttachBuffers(buffers, index, num, newOps);
      newOffset, j := AttachStrip(output, offset, num, before, newOps,
                                  Attach(mbufs[..], ClipAll(buffers[index..index + num]), CompressedInfo));
    }

    /** Assemble decompression operations: one source mbuf per compressed buffer from `index` on, one
        destination mbuf of seg bytes of the output for each of them from `offset` on. */
    method AssembleFromBuffers(buffers: seq<Slice>, index: nat, output: Slice, offset: nat)
        returns (status: Status, count: nat, newIndex: nat, newOffset: nat, ghost newOps: seq<OpId>, ghost num: nat)
      requires Valid() && index <= |buffers|
      requires mbufs.Length == MbufsInBurst(cfg.burst, cfg.sgl) && totals.ops > 0
      modifies this`numOpsAssembled, this`pending, this`mbufPool, this`refDecompressed, this`refCompressed, operations, mbufs, pool
      ensures status == OK || status == OutOfMemory
      ensures pending == old(pending) + newOps && pool.table.Keys == old(pool.table.Keys)
      ensures Kept(old(pool.table), pool.table, old(pending))
      ensures status == OK ==>
                && Valid() && count == numOpsAssembled == old(numOpsAssembled) + |newOps|
                && TakeFor(cfg, |buffers|, index, newIndex, old(numOpsAssembled), num, |newOps|)
                && newOffset == Skip(offset, cfg.seg, num)
                && Loaded(pool.table, newOps, Zip(Deal(ClipAll(buffers[index..newIndex]), cfg.sgl, |newOps|),
                                                  Deal(Strip(output.region, output.start + offset, cfg.seg, num), cfg.sgl, |newOps|)), Decompress)
      ensures SameFrom(old(operations[..]), operations[..], cfg.burst)
      ensures status == OutOfMemory ==> newOps == [] && (Serves(totals, cfg.burst) ==> |old(pending)| > MAX_INFLIGHT_OPS + old(numOpsAssembled))
      ensures status == OutOfMemory ==> Accountable() && LostMbufs() == 0
    {
      newOps, num := [], 0;
      newIndex, newOffset := index, offset;
      if |buffers| - index <= 0 || numOpsAssembled >= cfg.burst {
        return OK, numOpsAssembled, newIndex, newOffset, newOps, num;
      }
      status, count, newIndex, newOffset, newOps, num := TakeBuffers(buffers, index, output, offset);
    }

    /** Assembly of the next buffers, when some are left and the burst has room. */
    method TakeBuffers(buffers: seq<Slice>, index: nat, output: Slice, offset: nat)
        returns (status: Status, count: nat, newIndex: nat, newOffset: nat, ghost newOps: seq<OpId>, ghost num: nat)
      requires Valid() && index < |buffers| && numOpsAssembled < cfg.burst
      requires mbufs.Length == MbufsInBurst(cfg.burst, cfg.sgl) && totals.ops > 0
      modifies this`numOpsAssembled, this`pending, this`mbufPool, this`refDecompressed, this`refCompressed, operations, mbufs, pool
      ensures status == OK || status == OutOfMemory
      ensures pending == old(pending) + newOps && pool.table.Keys == old(pool.table.Keys)
      ensures Kept(old(pool.table), pool.table, old(pending))
      ensures status == OK ==>
                && Valid() && count == numOpsAssembled == old(numOpsAssembled) + |newOps|
                && TakeFor(cfg, |buffers|, index, newIndex, old(numOpsAssembled), num, |newOps|)
                && newOffset == Skip(offset, cfg.seg, num)
                && Loaded(pool.table, newOps, Zip(Deal(ClipAll(buffers[index..newIndex]), cfg.sgl, |newOps|),
                                                  Deal(Strip(output.region, output.start + offset, cfg.seg, num), cfg.sgl, |newOps|)), Decompress)
      ensures SameFrom(old(operations[..]), operations[..], cfg.burst)
      ensures status == OutOfMemory ==> newOps == [] && (Serves(totals, cfg.burst) ==> |old(pending)| > MAX_INFLIGHT_OPS + old(numOpsAssembled))
      ensures status == OutOfMemory ==> Accountable() && LostMbufs() == 0
    {
      hide LastOf, Loaded, Empty, TakeFor, Balanced;
      newIndex, newOffset, num, count := index, offset, 0, numOpsAssembled;
      var numMbufs, k := NextTakeSizes(|buffers|, index);
      status, newOps := BulkAllocate(k, numMbufs * 2);
      if status != OK {
        return;
      }
      num := numMbufs;
      newIndex, newOffset := BuildAndStageDecompress(buffers, index, output, offset, numMbufs, newOps);
      count := numOpsAssembled;
    }

    method BuildAndStageDecompress(buffers: seq<Slice>, index: nat, output: Slice, offset: nat, num: nat, ghost newOps: seq<OpId>)
        returns (newIndex: nat, newOffset: nat)
      requires Shaped() && Staged() && Ahead(newOps) && 0 < num && num * 2 <= mbufs.Length && index + num <= |buffers|
      requires |newOps| == CeilDiv(num, cfg.sgl) && numOpsAssembled + |newOps| <= cfg.burst < operations.Length
      requires Balanced(totals, pool.table, pool.free, pending + newOps, |mbufPool| + num + num, refDecompressed, refCompressed)
      requires Known(pool.table, pending) && Empty(pool.table, newOps)
      modifies this`numOpsAssembled, this`pending, this`refDecompressed, this`refCompressed, pool`table
      ensures newIndex == index + num && newOffset == Skip(offset, cfg.seg, num)
      ensures pending == old(pending) + newOps && numOpsAssembled == old(numOpsAssembled) + |newOps| && Valid()
      ensures pool.table.Keys == old(pool.table.Keys) && Kept(old(pool.table), pool.table, old(pending))
      ensures Loaded(pool.table, newOps, Zip(Deal(ClipAll(buffers[index..index + num]), cfg.sgl, |newOps|),
                                             Deal(Strip(output.region, output.start + offset, cfg.seg, num), cfg.sgl, |newOps|)), Decompress)
    {
      ghost var before := pending;
      ghost var table1 := pool.table;
      ghost var ops := operations[..];
      assert Follow(ops, numOpsAssembled, newOps);
      var j;
      newIndex, newOffset, j := BuildDecompressOps(buffers, index, output, offset, num, newOps);
      assert operations[..] == ops;
      StageBuilt(j, table1, before, newOps, ClipAll(buffers[index..index + num]),
                 Strip(output.region, output.start + offset, cfg.seg, num), CompressedInfo, DecompressedInfo, Decompress, ops);
    }

    /** Allocate operations, behind the staged ones, and mbufs. When the mbufs run short the operations
        stay allocated. */
    method BulkAllocate(numOps: nat, numMbufs: nat) returns (status: Status, ghost newOps: seq<OpId>)
      requires Valid() && numOpsAssembled + numOps <= operations.Length && numMbufs <= mbufs.Length
      modifies this`mbufPool, operations, mbufs, pool
      ensures status == OK || status == OutOfMemory
      ensures status == OK <==> numOps <= |old(pool.free)| && numMbufs <= |old(mbufPool)|
      ensures Staged() && pool.table.Keys == old(pool.table.Keys) && Kept(old(pool.table), pool.table, pending)
      ensures if status == OK then |newOps| == numOps && Ahead(newOps) else newOps == []
      ensures status == OK ==> mbufPool == old(mbufPool)[numMbufs..] && mbufs[..numMbufs] == old(mbufPool)[..numMbufs]
      ensures status == OK ==>
                && Balanced(totals, pool.table, pool.free, pending + newOps, |mbufPool| + numMbufs, refDecompressed, refCompressed)
                && Empty(pool.table, newOps)
      ensures Serves(totals, cfg.burst) && |pending| + numOps <= MAX_INFLIGHT_OPS + cfg.burst && numMbufs <= 2 * Product(numOps, cfg.sgl) ==>
                status == OK
      ensures SameFrom(old(operations[..]), operations[..], numOpsAssembled + numOps)
      ensures status != OK ==> Accountable() && LostMbufs() == 0
    {
      hide Balanced, Serves, Kept, SameFrom;
      newOps := [];
      if Serves(totals, cfg.burst) && |pending| + numOps <= MAX_INFLIGHT_OPS + cfg.burst && numMbufs <= 2 * Product(numOps, cfg.sgl) {
        NeverShort(totals, pool.table, pool.free, pending, |mbufPool|, refDecompressed, refCompressed, cfg.burst, numOps, numMbufs);
      }
      var ok;
      ghost var taken;
      ok, taken := BulkAllocateOps(numOps);
      if !ok {
        ValidAccountable();
        return OutOfMemory, [];
      }
      ok := AllocBulkMbufs(numMbufs);
      if !ok {
        OperationsLost(taken);
        return OutOfMemory, [];
      }
      return OK, taken;
    }

    /** A consistent queue pair has lost nothing. */
    lemma ValidAccountable()
      requires Valid()
      ensures NothingLost()
    {
    }

    lemma OperationsLost(newOps: seq<OpId>)
      requires Balanced(totals, pool.table, pool.free, pending + newOps, |mbufPool|, refDecompressed, refCompressed)
      requires Empty(pool.table, newOps)
      ensures Accountable() && LostMbufs() == 0
    {
      BalancedForgets(totals, pool.table, pool.free, pending, newOps, |mbufPool|, refDecompressed, refCompressed);
    }

    lemma SameAccounts()
      requires Balanced(totals, pool.table, pool.free, pending, |mbufPool|, refDecompressed, refCompressed)
      ensures Known(pool.table, pending) && pool.free <= pool.table.Keys && Kept(pool.table, pool.table, pending)
    {
    }

    method BulkAllocateOps(numOps: nat) returns (ok: bool, ghost newOps: seq<OpId>)
      requires Valid() && numOpsAssembled + numOps <= operations.Length
      modifies operations, pool
      ensures ok <==> numOps <= |old(pool.free)|
      ensures Staged() && pool.table.Keys == old(pool.table.Keys) && Kept(old(pool.table), pool.table, pending)
      ensures SameFrom(old(operations[..]), operations[..], numOpsAssembled + numOps)
      ensures !ok ==> pool.free == old(pool.free) && pool.table == old(pool.table)
      ensures ok ==>
                && |newOps| == numOps && Ahead(newOps) && Empty(pool.table, newOps)
                && Balanced(totals, pool.table, pool.free, pending + newOps, |mbufPool|, refDecompressed, refCompressed)
    {
      hide Balanced, LastOf, Follow, SameFrom, Allocated;
      ghost var ops := operations[..];
      SameAccounts();
      ok := pool.BulkAlloc(operations, numOpsAssembled, numOps);
      newOps := operations[numOpsAssembled..numOpsAssembled + numOps];
      assert operations[..][numOpsAssembled..numOpsAssembled + numOps] == newOps;
      AllocatedBehind(pending, ops, operations[..], numOpsAssembled, numOps);
      if ok {
        BalancedStart(totals, old(pool.free), pool.free, old(pool.table), pool.table, pending, newOps, |mbufPool|,
                      refDecompressed, refCompressed);
      }
    }

    /** All or nothing: take n mbufs out of the pool into mbufs[..n]. */
    method AllocBulkMbufs(n: nat) returns (ok: bool)
      requires n <= mbufs.Length
      modifies this`mbufPool, mbufs
      ensures ok <==> n <= |old(mbufPool)|
      ensures !ok ==> mbufPool == old(mbufPool)
      ensures ok ==> mbufPool == old(mbufPool)[n..] && mbufs[..n] == old(mbufPool)[..n]
    {
      if n > |mbufPool| {
        return false;
      }
      for i := 0 to n
        invariant mbufPool == old(mbufPool)
        invariant forall j :: 0 <= j < i ==> mbufs[j] == mbufPool[j]
      {
        mbufs[i] := mbufPool[i];
      }
      mbufPool := mbufPool[n..];
      return true;
    }

    /** Move the operations the device did not accept to the front. */
    method AccumulateUnused(numUnused: nat) returns (status: Status)
      requires Shaped() && Staged()
      modifies this`numOpsAssembled, operations
      ensures status == if numUnused > old(numOpsAssembled) then Invalid else OK
      ensures status == Invalid ==> numOpsAssembled == old(numOpsAssembled) && operations[..] == old(operations[..])
      ensures status == OK ==>
                && numOpsAssembled == numUnused && Staged()
                && operations[numUnused..] == old(operations[numUnused..])
    {
      if numUnused > numOpsAssembled {
        return Invalid;
      }
      if numUnused > 0 && numUnused != numOpsAssembled {
        Memmove(operations, numOpsAssembled - numUnused, numUnused);
      }
      numOpsAssembled := numUnused;
      return OK;
    }

    /** Return a completed operation and its mbufs to their pools. */
    method RecycleResources(id: OpId) returns (status: Status)
      requires pending != [] && id in pool.table
      modifies this`pending, this`mbufPool, this`refDecompressed, this`refCompressed, pool`free
      ensures status == if old(pending[0]) != id then Invalid else OK
      ensures status == Invalid ==>
                && pending == old(pending) && mbufPool == old(mbufPool) && pool.free == old(pool.free)
                && refDecompressed == old(refDecompressed) && refCompressed == old(refCompressed)
      ensures status == OK ==>
                && pending == old(pending)[1..] && pool.free == old(pool.free) + {id}
                && Returned(pool.table[id], old(|mbufPool|), old(refDecompressed), old(refCompressed),
                            |mbufPool|, refDecompressed, refCompressed)
                && mbufPool == old(mbufPool) + MbufIds(pool.table[id].src) + MbufIds(pool.table[id].dst)
      ensures status == OK && old(Valid()) && numOpsAssembled < old(|pending|) ==> Valid()
    {
      hide Balanced;
      if pending[0] != id {
        return Invalid;
      }
      pending := pending[1..];
      FreeChain(pool.table[id].src);
      FreeChain(pool.table[id].dst);
      pool.Free(id);
      if old(Valid()) && numOpsAssembled < old(|pending|) {
        BalancedPop(totals, pool.table, old(pool.free), old(pending), old(|mbufPool|), old(refDecompressed), old(refCompressed),
                    |mbufPool|, refDecompressed, refCompressed);
      }
      return OK;
    }

    /** Give back everything the outstanding operations hold: the operations and their mbufs to the pools,
        their device memory to the device, in order. The pools are full again but for what was lost. */
    method Release()
      requires Known(pool.table, pending) && device.WellFormed()
      modifies this`pending, this`mbufPool, this`refDecompressed, this`refCompressed, pool`free,
               device`memzonePool, device`occupiedMemzones
      ensures pending == [] && device.WellFormed() && (old(device.Valid()) ==> device.Valid())
      ensures device.State() == PutSlices(old(device.State()), device.pool.tracker.memzones, LentTo(pool.table, old(pending)))
      ensures PaidBack(pool.table, old(pending), old(pool.free), old(|mbufPool|), old(refDecompressed), old(refCompressed),
                       pool.free, |mbufPool|, refDecompressed, refCompressed)
      ensures mbufPool == old(mbufPool) + MbufsOf(pool.table, old(pending))
      ensures old(Accountable()) ==> FullBut(old(LostOps()), old(LostMbufs()))
    {
      hide Balanced, PaidBack;
      ghost var gone: seq<OpId> := [];
      PaidBackNone(pool.table, pool.free, |mbufPool|, refDecompressed, refCompressed);
      while pending != []
        invariant gone + pending == old(pending) && Known(pool.table, gone) && Known(pool.table, pending)
        invariant device.WellFormed() && (old(device.Valid()) ==> device.Valid())
        invariant PutSlices(device.State(), device.pool.tracker.memzones, LentTo(pool.table, pending)) ==
                  PutSlices(old(device.State()), device.pool.tracker.memzones, LentTo(pool.table, old(pending)))
        invariant mbufPool + MbufsOf(pool.table, pending) == old(mbufPool) + MbufsOf(pool.table, old(pending))
        invariant PaidBack(pool.table, gone, old(pool.free), old(|mbufPool|), old(refDecompressed), old(refCompressed),
                           pool.free, |mbufPool|, refDecompressed, refCompressed)
        decreases |pending|
      {
        gone := ReleaseFront(gone, old(pool.free), old(|mbufPool|), old(refDecompressed), old(refCompressed));
      }
      assert gone == old(pending);
      if old(Accountable()) {
        PaidBackFull(totals.(ops := totals.ops - old(LostOps())), pool.table, old(pending), old(pool.free), old(|mbufPool|),
                     old(LostMbufs()), old(refDecompressed), old(refCompressed), pool.free, |mbufPool|, refDecompressed, refCompressed);
      }
    }

    /** Release the oldest outstanding operation; `gone` are those released before it, when the accounts
        were the ones given. */
    method ReleaseFront(ghost gone: seq<OpId>, ghost free: set<OpId>, ghost numFree: nat, ghost refD: int, ghost refC: int)
        returns (ghost gone': seq<OpId>)
      requires pending != [] && Known(pool.table, gone) && Known(pool.table, pending) && device.WellFormed()
      requires PaidBack(pool.table, gone, free, numFree, refD, refC, pool.free, |mbufPool|, refDecompressed, refCompressed)
      modifies this`pending, this`mbufPool, this`refDecompressed, this`refCompressed, pool`free,
               device`memzonePool, device`occupiedMemzones
      ensures pending == old(pending)[1..] && gone' + pending == gone + old(pending)
      ensures device.WellFormed() && (old(device.Valid()) ==> device.Valid())
      ensures Known(pool.table, gone') && Known(pool.table, pending)
      ensures PutSlices(device.State(), device.pool.tracker.memzones, LentTo(pool.table, pending)) ==
              PutSlices(old(device.State()), device.pool.tracker.memzones, LentTo(pool.table, old(pending)))
      ensures mbufPool + MbufsOf(pool.table, pending) == old(mbufPool) + MbufsOf(pool.table, old(pending))
      ensures PaidBack(pool.table, gone', free, numFree, refD, refC, pool.free, |mbufPool|, refDecompressed, refCompressed)
    {
      hide PaidBack, MbufIds, MbufsOf;
      var currentOp := pending[0];
      MbufsReturned(mbufPool, pool.table, pending);
      gone' := gone + [currentOp];
      PutSlicesConcat(device.State(), device.pool.tracker.memzones, Lent(pool.table[currentOp].dst), LentTo(pool.table, pending[1..]));
      FreeChain(pool.table[currentOp].src);
      ReleaseDestination(pool.table[currentOp].dst);
      pool.Free(currentOp);
      pending := pending[1..];
      PaidBackOne(pool.table, gone, currentOp, free, numFree, refD, refC, old(pool.free), old(|mbufPool|), old(refDecompressed),
                  old(refCompressed), |mbufPool|, refDecompressed, refCompressed);
    }

    /** Free a destination chain segment by segment, putting device memory back. */
    method ReleaseDestination(chain: seq<Mbuf>)
      requires device.WellFormed()
      modifies this`mbufPool, this`refDecompressed, this`refCompressed, device`memzonePool, device`occupiedMemzones
      ensures device.WellFormed() && (old(device.Valid()) ==> device.Valid())
      ensures device.State() == PutSlices(old(device.State()), device.pool.tracker.memzones, Lent(chain))
      ensures mbufPool == old(mbufPool) + MbufIds(chain)
      ensures refDecompressed == old(refDecompressed) - CountKind(chain, DecompressedInfo)
      ensures refCompressed == old(refCompressed) - CountKind(chain, CompressedInfo)
    {
      var dst := chain;
      ghost var gone: seq<Mbuf> := [];
      assert gone + dst == chain;
      assert mbufPool + MbufIds(gone) == mbufPool && Lent([]) == [];
      hide MbufIds, Lent;
      while dst != []
        invariant gone + dst == chain && device.WellFormed() && (old(device.Valid()) ==> device.Valid())
        invariant PutSlices(device.State(), device.pool.tracker.memzones, Lent(dst)) ==
                  PutSlices(old(device.State()), device.pool.tracker.memzones, Lent(chain))
        invariant mbufPool == old(mbufPool) + MbufIds(gone)
        invariant refDecompressed == old(refDecompressed) - CountKind(gone, DecompressedInfo)
        invariant refCompressed == old(refCompressed) - CountKind(gone, CompressedInfo)
        decreases |dst|
      {
        CountKindNext(gone, dst[0]);
        MbufReturned(old(mbufPool), gone, dst[0]);
        ReleaseSegment(dst);
        gone := gone + [dst[0]];
        dst := dst[1..];
      }
      assert gone == chain;
    }

    /** Release the first segment of a destination chain. */
    method ReleaseSegment(chain: seq<Mbuf>)
      requires chain != [] && device.WellFormed()
      modifies this`mbufPool, this`refDecompressed, this`refCompressed, device`memzonePool, device`occupiedMemzones
      ensures device.WellFormed() && (old(device.Valid()) ==> device.Valid())
      ensures PutSlices(device.State(), device.pool.tracker.memzones, Lent(chain[1..])) ==
              PutSlices(old(device.State()), device.pool.tracker.memzones, Lent(chain))
      ensures mbufPool == old(mbufPool) + [chain[0].id]
      ensures refDecompressed == old(refDecompressed) - (if chain[0].shinfo == DecompressedInfo then 1 else 0)
      ensures refCompressed == old(refCompressed) - (if chain[0].shinfo == CompressedInfo then 1 else 0)
    {
      PutSlicesCons(device.State(), device.pool.tracker.memzones, chain[0].data, Lent(chain[1..]));
      assert [] + Lent(chain[1..]) == Lent(chain[1..]);
      if chain[0].shinfo == CompressedInfo {
        var count := device.Put(Addr(chain[0].data.region, chain[0].data.start));
      }
      FreeSeg(chain[0]);
    }

    /** rte_pktmbuf_free: every segment goes back to the mbuf pool and drops its reference. */
    method FreeChain(chain: seq<Mbuf>)
      modifies this`mbufPool, this`refDecompressed, this`refCompressed
      ensures mbufPool == old(mbufPool) + MbufIds(chain)
      ensures refDecompressed == old(refDecompressed) - CountKind(chain, DecompressedInfo)
      ensures refCompressed == old(refCompressed) - CountKind(chain, CompressedInfo)
    {
      var i := 0;
      while i < |chain|
        invariant i <= |chain| && mbufPool == old(mbufPool) + MbufIds(chain[..i])
        invariant refDecompressed == old(refDecompressed) - CountKind(chain[..i], DecompressedInfo)
        invariant refCompressed == old(refCompressed) - CountKind(chain[..i], CompressedInfo)
      {
        assert chain[..i + 1][..i] == chain[..i];
        FreeSeg(chain[i]);
        i := i + 1;
      }
      assert chain[..|chain|] == chain;
    }

    method FreeSeg(m: Mbuf)
      modifies this`mbufPool, this`refDecompressed, this`refCompressed
      ensures mbufPool == old(mbufPool) + [m.id]
      ensures refDecompressed == old(refDecompressed) - (if m.shinfo == DecompressedInfo then 1 else 0)
      ensures refCompressed == old(refCompressed) - (if m.shinfo == CompressedInfo then 1 else 0)
    {
      mbufPool := mbufPool + [m.id];
      match m.shinfo {
        case DecompressedInfo => refDecompressed := refDecompressed - 1;
        case CompressedInfo => refCompressed := refCompressed - 1;
      }
    }
  }

  /** With nothing outstanding the pools are full, before a call as after it. */
  lemma IdleIsFull(memory: QueuePairMemory)
    requires memory.Valid() && memory.pending == []
    ensures memory.Full()
  {
    IdleAccounts(memory.totals, memory.pool.table, memory.pool.free, |memory.mbufPool|, memory.refDecompressed, memory.refCompressed);
  }

  /** memmove(&ops[0], &ops[from], n), the ranges may overlap. */
  method Memmove(ops: array<OpId>, from: nat, n: nat)
    requires from + n <= ops.Length
    modifies ops
    ensures ops[..n] == old(ops[from..from + n])
    ensures ops[n..] == old(ops[n..])
  {
    var i := 0;
    while i < n
      invariant i <= n
      invariant forall j :: 0 <= j < i ==> ops[j] == old(ops[from + j])
      invariant forall j :: i <= j < ops.Length ==> ops[j] == old(ops[j])
    {
      ops[i] := ops[from + i];
      i := i + 1;
    }
  }
}
