/** The compress driver: which lcores become workers, and how they are divided among devices. */
module Driver {
  import opened Sequences

  const RTE_MAX_LCORE := 128

  /** The lcores the environment has enabled, and its main one. */
  datatype Lcores = Lcores(enabled: set<nat>, main: nat)
  {
    ghost predicate Valid()
    {
      main in enabled && forall id :: id in enabled ==> id < RTE_MAX_LCORE
    }

    predicate Eligible(id: nat, skipMain: bool)
    {
      id in enabled && !(skipMain && id == main)
    }
  }

  /** The next eligible lcore from startId on: without wrapping, the least one, or at least
      RTE_MAX_LCORE when there is none; with wrapping, the first one met going round. Going round
      needs an eligible lcore to exist. */
  method GetNextLcore(lcores: Lcores, startId: nat, skipMain: bool, wrap: bool) returns (next: nat)
    requires wrap ==> exists id: nat :: id < RTE_MAX_LCORE && lcores.Eligible(id, skipMain)
    ensures !wrap ==>
              && next >= startId && (next < RTE_MAX_LCORE ==> lcores.Eligible(next, skipMain))
              && (next > startId ==> next <= RTE_MAX_LCORE)
              && forall id: nat :: startId <= id < next && id < RTE_MAX_LCORE ==> !lcores.Eligible(id, skipMain)
    ensures wrap ==>
              && next < RTE_MAX_LCORE && lcores.Eligible(next, skipMain)
              && forall k: nat :: k < Steps(startId % RTE_MAX_LCORE, next) ==>
                   !lcores.Eligible(Round(startId % RTE_MAX_LCORE, k), skipMain)
  {
    hide Someone;
    next := if wrap then startId % RTE_MAX_LCORE else startId;
    ghost var first := next;
    ghost var steps := 0;
    ghost var target := if wrap then Someone(lcores, skipMain) else RTE_MAX_LCORE;
    while next < RTE_MAX_LCORE
      invariant !wrap ==>
                  && next == first + steps && (next > startId ==> next <= RTE_MAX_LCORE)
                  && forall id: nat :: first <= id < next ==> !lcores.Eligible(id, skipMain)
      invariant wrap ==>
                  && first < RTE_MAX_LCORE && next == Round(first, steps) && steps <= Steps(first, target) < RTE_MAX_LCORE
                  && forall k: nat :: k < steps ==> !lcores.Eligible(Round(first, k), skipMain)
      decreases if wrap then Steps(first, target) - steps else RTE_MAX_LCORE - next
    {
      if next !in lcores.enabled || (skipMain && next == lcores.main) {
        if wrap {
          RoundTarget(first, steps, target);
        }
        next := next + 1;
        if wrap {
          next := next % RTE_MAX_LCORE;
        }
        steps := steps + 1;
        continue;
      }
      if wrap {
        StepsOfRound(first, steps);
      }
      break;
    }
  }

  /** k steps round from a. */
  function Round(a: nat, k: nat): nat
  {
    (a + k) % RTE_MAX_LCORE
  }

  /** Steps needed to get from a round to b. */
  function Steps(a: nat, b: nat): (k: int)
    requires a < RTE_MAX_LCORE
  {
    if a <= b then b - a else b + RTE_MAX_LCORE - a
  }

  lemma StepsOfRound(a: nat, k: nat)
    requires a < RTE_MAX_LCORE && k < RTE_MAX_LCORE
    ensures Steps(a, Round(a, k)) == k
  {
  }

  lemma RoundTarget(a: nat, k: nat, target: nat)
    requires a < RTE_MAX_LCORE && target < RTE_MAX_LCORE && k <= Steps(a, target)
    ensures Round(a, k) == target <==> k == Steps(a, target)
  {
  }

  ghost function Someone(lcores: Lcores, skipMain: bool): (id: nat)
    requires exists id: nat :: id < RTE_MAX_LCORE && lcores.Eligible(id, skipMain)
    ensures id < RTE_MAX_LCORE && lcores.Eligible(id, skipMain)
  {
    var id: nat :| id < RTE_MAX_LCORE && lcores.Eligible(id, skipMain);
    id
  }

  /** The ids in `among` below `limit`, in increasing order. */
  ghost predicate ListsBelow(ids: seq<nat>, among: set<nat>, limit: nat)
  {
    && (forall i, j :: 0 <= i < j < |ids| ==> ids[i] < ids[j])
    && (forall i :: 0 <= i < |ids| ==> ids[i] in among && ids[i] < limit)
    && (forall id: nat :: id in among && id < limit ==> id in ids)
  }

  lemma {:induction false} ListedAll(ids: seq<nat>, among: set<nat>, limit: nat)
    requires ListsBelow(ids, among, limit) && forall id :: id in among ==> id < limit
    ensures |ids| == |among|
    decreases |ids|
  {
    if ids == [] {
      assert among == {};
    } else {
      var last := ids[|ids| - 1];
      var rest := ids[..|ids| - 1];
      forall id: nat | id in among - {last}
        ensures id in rest && id < last
      {
        var i :| 0 <= i < |ids| && ids[i] == id;
        assert rest[i] == id;
      }
      ListedAll(rest, among - {last}, last);
    }
  }

  /** The workers are all enabled lcores but the main one, in increasing order; the count check of the
      driver never fails. */
  method WorkerLcores(lcores: Lcores) returns (workers: seq<nat>)
    requires lcores.Valid()
    ensures ListsBelow(workers, lcores.enabled - {lcores.main}, RTE_MAX_LCORE)
    ensures |workers| == |lcores.enabled| - 1
  {
    workers := [];
    ghost var among := lcores.enabled - {lcores.main};
    var lcoreId := GetNextLcore(lcores, 0, true, false);
    NoneSkipped(lcores, 0, lcoreId);
    while lcoreId < RTE_MAX_LCORE
      invariant lcoreId <= RTE_MAX_LCORE
      invariant lcoreId < RTE_MAX_LCORE ==> lcoreId in among
      invariant ListsBelow(workers, among, lcoreId)
    {
      var nextId := GetNextLcore(lcores, lcoreId + 1, true, false);
      NoneSkipped(lcores, lcoreId + 1, nextId);
      ListsMore(workers, among, lcoreId, nextId);
      workers := workers + [lcoreId];
      lcoreId := nextId;
    }
    ListedAll(workers, among, RTE_MAX_LCORE);
  }

  lemma NoneSkipped(lcores: Lcores, a: nat, b: nat)
    requires lcores.Valid() && forall id: nat :: a <= id < b && id < RTE_MAX_LCORE ==> !lcores.Eligible(id, true)
    ensures forall id: nat :: id in lcores.enabled - {lcores.main} && a <= id ==> b <= id
  {
    forall id: nat | id in lcores.enabled - {lcores.main}
      ensures lcores.Eligible(id, true)
    {
    }
  }

  lemma ListsMore(ids: seq<nat>, among: set<nat>, id: nat, next: nat)
    requires ListsBelow(ids, among, id) && id in among && id < next
    requires forall other: nat :: id < other < next ==> other !in among
    ensures ListsBelow(ids + [id], among, next)
  {
    forall other: nat | other in among && other < next
      ensures other in ids + [id]
    {
      if other < id {
        assert other in ids;
      } else {
        assert (ids + [id])[|ids|] == other;
      }
    }
  }

  // ----- balanced splits -----

  /** Sizes of n shares of `total`: the first total % n shares get one more. */
  function ShareSize(total: nat, n: nat, i: nat): nat
    requires n > 0
  {
    total / n + (if i < total % n then 1 else 0)
  }

  ghost function SharesBefore(total: nat, n: nat, i: nat): nat
    requires n > 0
  {
    if i == 0 then 0 else SharesBefore(total, n, i - 1) + ShareSize(total, n, i - 1)
  }

  /** The first i shares: i * (total / n) plus one for each of the larger ones. */
  lemma {:induction false} SharesSum(total: nat, n: nat, i: nat)
    requires n > 0 && i <= n
    ensures SharesBefore(total, n, i) == i * (total / n) + Min(i, total % n)
    decreases i
  {
    if i > 0 {
      SharesSum(total, n, i - 1);
      assert i * (total / n) == (i - 1) * (total / n) + total / n;
    }
  }

  /** The shares use up the total. */
  lemma SharesTotal(total: nat, n: nat)
    requires n > 0
    ensures SharesBefore(total, n, n) == total
  {
    SharesSum(total, n, n);
    DivisionFact(total, n);
  }

  /** Before the last share something is left for each of the others. */
  lemma {:induction false} SharesGrow(total: nat, n: nat, i: nat)
    requires n > 0 && i <= n
    ensures SharesBefore(total, n, i) <= SharesBefore(total, n, n)
    decreases n - i
  {
    if i < n {
      SharesGrow(total, n, i + 1);
    }
  }

  lemma DivisionFact(total: nat, n: nat)
    requires n > 0
    ensures total == n * (total / n) + total % n && 0 <= total % n < n
  {
  }

  /** Contiguous shares of a list. */
  ghost predicate EvenlySplit<T>(s: seq<T>, n: nat, parts: seq<seq<T>>)
    requires n > 0
  {
    |parts| == n && Flatten(parts) == s && forall i :: 0 <= i < n ==> |parts[i]| == ShareSize(|s|, n, i)
  }

  /** Even shares differ by at most one, and none is empty if there is enough for all. */
  lemma SharesEven(total: nat, n: nat, i: nat, j: nat)
    requires n > 0 && i < n && j < n
    ensures ShareSize(total, n, i) <= ShareSize(total, n, j) + 1
    ensures n <= total ==> ShareSize(total, n, i) >= 1
    ensures total % n == 0 ==> ShareSize(total, n, i) == total / n
  {
    DivisionFact(total, n);
    assert total / n == 0 ==> total < n;
  }

  /** CreateDevices: hand each device the next share of the worker lcores. */
  method PartitionLcores(numDevices: nat, workers: seq<nat>) returns (groups: seq<seq<nat>>)
    requires 0 < numDevices <= |workers|
    ensures EvenlySplit(workers, numDevices, groups)
    ensures forall i :: 0 <= i < numDevices ==> |groups[i]| >= 1
  {
    var minNumQpsPerDev := |workers| / numDevices;
    var iter := 0;
    var remaining := |workers| % numDevices;
    groups := [];
    while |groups| < numDevices
      invariant |groups| <= numDevices && iter == SharesBefore(|workers|, numDevices, |groups|) <= |workers|
      invariant remaining == if |groups| < |workers| % numDevices then |workers| % numDevices - |groups| else 0
      invariant Flatten(groups) == workers[..iter]
      invariant forall i :: 0 <= i < |groups| ==> |groups[i]| == ShareSize(|workers|, numDevices, i)
      decreases numDevices - |groups|
    {
      SharesTotal(|workers|, numDevices);
      SharesGrow(|workers|, numDevices, |groups| + 1);
      var numLcores := minNumQpsPerDev + (if remaining > 0 then 1 else 0);
      FlattenSnoc(groups, workers[iter..iter + numLcores]);
      PrefixGrows(workers, iter, iter + numLcores);
      groups := groups + [workers[iter..iter + numLcores]];
      iter := iter + numLcores;
      if remaining > 0 {
        remaining := remaining - 1;
      }
    }
    SharesTotal(|workers|, numDevices);
    assert workers[..|workers|] == workers;
    forall i | 0 <= i < numDevices
      ensures |groups[i]| >= 1
    {
      SharesEven(|workers|, numDevices, i, i);
    }
  }
}
