/** Destroying a device: first its queue pairs, which release what is still outstanding, then its
    device memory. */
module Teardown {
  import opened HostMemory
  import opened MemoryPool
  import opened ZoneStack
  import opened DeviceMemory
  import opened Ledger
  import opened QueuePairMemory
  import opened SharedZones

  /** Putting by address neither loses nor duplicates a zone. */
  lemma {:induction false} PutSlicesConserves(st: Zones, memzones: ZoneMap, ss: seq<Slice>)
    requires st.WellFormed()
    ensures PutSlices(st, memzones, ss).WellFormed() && PutSlices(st, memzones, ss).Obtained() == st.Obtained()
    decreases |ss|
  {
    if ss != [] {
      var addr := Addr(ss[0].region, ss[0].start);
      if addr in memzones {
        PutAccounts(st, memzones[addr]);
      }
      PutSlicesConserves(PutAt(st, memzones, addr), memzones, ss[1..]);
    }
  }

  /** Whatever state the queue pairs are in, every zone the device ever obtained, recycled or not, is
      freed, and each exactly once: freeing a zone twice is not allowed to happen. Their memory, and no
      other, is gone from the host. */
  method DestroyDevice(memories: seq<QueuePairMemory>, device: DeviceMemory)
    requires device.WellFormed()
    requires forall i :: 0 <= i < |memories| ==>
               memories[i].device == device && Known(memories[i].pool.table, memories[i].pending)
    requires forall i, j :: 0 <= i < j < |memories| ==> memories[i] != memories[j] && memories[i].pool != memories[j].pool
    modifies set m | m in memories
    modifies set m | m in memories :: m.pool
    modifies device, device.pool, device.pool.host`bytes, device.pool.tracker
    ensures forall i :: 0 <= i < |memories| ==> memories[i].pending == []
    ensures device.State() == Zones([], {})
    ensures device.Without(old(device.State()).Obtained(), old(device.pool.tracker.memzones), old(device.pool.host.bytes),
                           old(device.pool.bytesAllocated))
    ensures device.pool.Valid()
  {
    ReleasePairs(memories, device);
    device.Destroy();
  }

  /** Every queue pair releases; the device keeps all its zones. */
  method ReleasePairs(memories: seq<QueuePairMemory>, device: DeviceMemory)
    requires device.WellFormed()
    requires forall i :: 0 <= i < |memories| ==>
               memories[i].device == device && Known(memories[i].pool.table, memories[i].pending)
    requires forall i, j :: 0 <= i < j < |memories| ==> memories[i] != memories[j] && memories[i].pool != memories[j].pool
    modifies set m | m in memories
    modifies set m | m in memories :: m.pool
    modifies device`memzonePool, device`occupiedMemzones
    ensures forall i :: 0 <= i < |memories| ==> memories[i].pending == []
    ensures device.WellFormed() && device.State().Obtained() == old(device.State()).Obtained()
  {
    var i := 0;
    while i < |memories|
      invariant i <= |memories| && device.WellFormed()
      invariant forall j :: 0 <= j < i ==> memories[j].pending == []
      invariant forall j :: i <= j < |memories| ==> Known(memories[j].pool.table, memories[j].pending)
      invariant device.State().Obtained() == old(device.State()).Obtained()
    {
      ReleasePair(memories[i], device);
      i := i + 1;
    }
  }

  method ReleasePair(memory: QueuePairMemory, device: DeviceMemory)
    requires device.WellFormed() && memory.device == device && Known(memory.pool.table, memory.pending)
    modifies memory`pending, memory`mbufPool, memory`refDecompressed, memory`refCompressed, memory.pool`free,
             device`memzonePool, device`occupiedMemzones
    ensures memory.pending == []
    ensures device.WellFormed() && device.State().Obtained() == old(device.State()).Obtained()
  {
    PutSlicesConserves(device.State(), device.pool.tracker.memzones, LentTo(memory.pool.table, memory.pending));
    memory.Release();
  }
}
