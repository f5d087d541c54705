/** How many operations and mbufs a queue pair's pools hold, and when that is enough. */
module PoolSizing {
  import opened Sequences

  /** Descriptors a device queue can hold. */
  const MAX_INFLIGHT_OPS := 512
  const MAX_INFLIGHT_MBUFS := MAX_INFLIGHT_OPS * 16
  const CACHE_SIZE_AMPLIFIER := 2
  const MEMPOOL_CACHE_MAX_SIZE := 512

  /** Source and destination mbufs of one burst: burst * sgl * 2. */
  function MbufsInBurst(burst: nat, sgl: nat): nat
  {
    Product(burst, sgl) * 2
  }

  function MbufsInPool(burst: nat, sgl: nat): nat
  {
    var n := MbufsInBurst(burst, sgl);
    Min(n * MAX_INFLIGHT_OPS, MAX_INFLIGHT_MBUFS) + Min(n * CACHE_SIZE_AMPLIFIER, MEMPOOL_CACHE_MAX_SIZE) + n
  }

  function OpsInPool(burst: nat, sgl: nat): nat
    requires sgl > 0
  {
    CeilDiv(MbufsInPool(burst, sgl) / 2, sgl)
  }

  /** Pool capacities, and the longest chain an operation may carry. */
  datatype Totals = Totals(ops: nat, mbufs: nat, sgl: nat)

  /** Pools of these capacities can serve a full device queue and a full burst at the same time, every
      operation carrying as many source and destination mbufs as it may. */
  ghost predicate Serves(t: Totals, burst: nat)
  {
    MAX_INFLIGHT_OPS + burst <= t.ops && 2 * Product(MAX_INFLIGHT_OPS + burst, t.sgl) <= t.mbufs
  }

  /** The sizes in plain numbers. They grow by 1030 mbufs for every segment of a burst until the pool can
      fill the device, then by 6 until the cache has its full size, and then by 2. */
  lemma PoolByLoad(burst: nat, sgl: nat)
    requires sgl > 0
    ensures var segs := burst * sgl;
            && MbufsInPool(burst, sgl) ==
               (if segs <= 8 then 1030 * segs else if segs <= 128 then 8192 + 6 * segs else 8704 + 2 * segs)
            && OpsInPool(burst, sgl) == (MbufsInPool(burst, sgl) / 2 + sgl - 1) / sgl
  {
    CountingIsMultiplication(burst, sgl);
    CeilDivIsDivision(MbufsInPool(burst, sgl) / 2, sgl);
  }

  /** The dequeue half of the operation array always has room for a whole burst. */
  lemma DequeueRegionHoldsBurst(burst: nat, sgl: nat)
    requires sgl > 0
    ensures burst <= OpsInPool(burst, sgl)
  {
    var half := MbufsInPool(burst, sgl) / 2;
    CountingIsMultiplication(burst, sgl);
    assert burst * sgl <= half;
    CeilDivAbove(half, sgl, burst);
  }

  /** Pools of the computed sizes serve a device that holds everything back exactly when chains have at
      most eight segments, whatever the burst size. */
  lemma SufficientIffShortChains(burst: nat, sgl: nat)
    requires burst >= 1 && sgl >= 1
    ensures Serves(Totals(OpsInPool(burst, sgl), MbufsInPool(burst, sgl), sgl), burst) <==> sgl <= 8
  {
    var bs := burst * sgl;
    CountingIsMultiplication(burst, sgl);
    CountingIsMultiplication(MAX_INFLIGHT_OPS + burst, sgl);
    assert MbufsInBurst(burst, sgl) == bs * 2;
    assert (MAX_INFLIGHT_OPS + burst) * sgl == sgl * MAX_INFLIGHT_OPS + bs;
    assert bs >= sgl by { MulMonotone(1, burst, sgl); }
    if sgl <= 8 {
      var half := MbufsInPool(burst, sgl) / 2;
      assert (MAX_INFLIGHT_OPS + burst) * sgl <= half;
      CeilDivAbove(half, sgl, MAX_INFLIGHT_OPS + burst);
    }
  }
}
