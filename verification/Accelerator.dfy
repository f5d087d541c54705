/** The compress device as the driver sees one of its queue pairs: a first-in first-out queue of
    operations. When it accepts and returns operations, how many at a time, when it fails and when
    it counts an error are its own choice; only its stalls are bounded, by a budget of any size. */
module Accelerator {
  import opened Sequences
  import opened HostMemory
  import opened MemoryPool
  import opened Operations
  import opened PoolSizing

  /** The mempool of operations: free handles, and the memory behind every handle. */
  class OperationPool {
    var free: set<OpId>
    var table: OpTable

    constructor (ids: set<OpId>)
      ensures free == ids && table == map id | id in ids :: RESET_OP
    {
      free := ids;
      table := map id | id in ids :: RESET_OP;
    }

    /** All or nothing: store n free operations, reset, in ops[at..at + n]. */
    method BulkAlloc(ops: array<OpId>, at: nat, n: nat) returns (ok: bool)
      requires at + n <= ops.Length && free <= table.Keys
      modifies this, ops
      ensures ok <==> n <= |old(free)|
      ensures !ok ==> free == old(free) && table == old(table) && ops[..] == old(ops[..])
      ensures ok ==>
                && Allocated(old(free), free, old(table), table, ops[at..at + n])
                && forall j :: 0 <= j < ops.Length && !(at <= j < at + n) ==> ops[j] == old(ops[j])
    {
      if n > |free| {
        return false;
      }
      ghost var taken: seq<OpId> := [];
      var left, entries := free, table;
      for i := 0 to n
        invariant |left| == |old(free)| - i && |taken| == i
        invariant Allocated(old(free), left, old(table), entries, taken)
        invariant forall j :: 0 <= j < i ==> ops[at + j] == taken[j]
        invariant forall j :: 0 <= j < ops.Length && !(at <= j < at + i) ==> ops[j] == old(ops[j])
      {
        var id :| id in left;
        AllocatedOne(old(free), left, old(table), entries, taken, id);
        left, entries := left - {id}, entries[id := RESET_OP];
        ops[at + i] := id;
        taken := taken + [id];
      }
      free, table := left, entries;
      assert ops[at..at + n] == taken;
      return true;
    }

    method Free(id: OpId)
      modifies this`free
      ensures free == old(free) + {id}
    {
      free := free + {id};
    }
  }

  /** Taking the distinct operations `taken` out of the pool resets exactly them. */
  ghost predicate Allocated(free: set<OpId>, free': set<OpId>, table: OpTable, table': OpTable, taken: seq<OpId>)
  {
    && Distinct(taken) && |free'| == |free| - |taken| && table'.Keys == table.Keys
    && (forall i :: 0 <= i < |taken| ==>
          taken[i] in free && taken[i] !in free' && taken[i] in table' && table'[taken[i]] == RESET_OP)
    && (forall id :: id in free' ==> id in free)
    && (forall id :: id in table && (id in free' || id !in free) ==> table'[id] == table[id])
  }

  lemma AllocatedOne(free: set<OpId>, free': set<OpId>, table: OpTable, table': OpTable, taken: seq<OpId>, id: OpId)
    requires Allocated(free, free', table, table', taken) && id in free' && free <= table.Keys
    ensures Allocated(free, free' - {id}, table, table'[id := RESET_OP], taken + [id])
  {
  }

  /** What a queue has been through: batches in which the hardware failed something, operations
      finished, and the reservations its host has refused. */
  datatype Past = Past(failures: nat, executed: nat, refusals: nat)

  class HardwareQueue {
    const codec: Codec
    const host: Host
    const pool: OperationPool

    var inflight: seq<OpId>
    /** How often the device may still make no progress although it could. */
    var stalls: nat
    var enqueueErrCount: nat
    var dequeueErrCount: nat
    /** Batches so far in which the hardware failed some operation. */
    ghost var failures: nat
    /** Operations finished so far. */
    ghost var executed: nat
    /** Bursts in a row, the last one included, that moved nothing while the statistics showed errors, and
        the most there were; both since the last call of Watch. */
    ghost var muted: nat
    ghost var longest: nat

    /** A fresh queue pair; `stalls` is any bound on how often it will stall. */
    constructor (codec: Codec, host: Host, pool: OperationPool, stalls: nat)
      ensures Valid() && inflight == [] && this.codec == codec && this.host == host && this.pool == pool
      ensures !Erring() && failures == executed == muted == longest == 0
    {
      this.codec, this.host, this.pool, this.stalls := codec, host, pool, stalls;
      inflight, enqueueErrCount, dequeueErrCount, failures := [], 0, 0, 0;
      executed, muted, longest := 0, 0, 0;
    }

    /** The statistics show errors. */
    predicate Erring()
      reads this
    {
      enqueueErrCount > 0 || dequeueErrCount > 0
    }

    ghost function Now(): Past
      reads this, host
    {
      Past(failures, executed, host.refusals)
    }

    /** Start counting idle bursts afresh. */
    ghost method Watch()
      modifies this`muted, this`longest
      ensures muted == longest == 0
    {
      muted, longest := 0, 0;
    }

    ghost predicate Valid()
      reads this, host, pool
    {
      |inflight| <= MAX_INFLIGHT_OPS && Executable(State(), inflight)
    }

    function State(): Machine
      reads host, pool
    {
      Machine(pool.table, host.bytes)
    }

    /** Accept some prefix of ops[..count] that fits. */
    method EnqueueBurst(ops: array<OpId>, count: nat) returns (accepted: nat)
      requires count <= ops.Length && |inflight| <= MAX_INFLIGHT_OPS
      modifies this`inflight, this`stalls, this`enqueueErrCount, this`dequeueErrCount, this`muted, this`longest
      ensures accepted <= count && |inflight| <= MAX_INFLIGHT_OPS
      ensures muted == (if accepted == 0 && Erring() then old(muted) + 1 else 0)
      ensures longest == (if muted > old(longest) then muted else old(longest))
      ensures inflight == old(inflight) + ops[..count][..accepted]
      ensures stalls <= old(stalls)
      ensures accepted == 0 < count && |old(inflight)| < MAX_INFLIGHT_OPS ==> stalls < old(stalls)
    {
      var room := MAX_INFLIGHT_OPS - |inflight|;
      if count == 0 || room == 0 {
        accepted := 0;
      } else {
        var n: nat :| n <= count && n <= room && (n == 0 ==> stalls > 0);
        accepted := n;
        if accepted == 0 {
          stalls := stalls - 1;
        }
      }
      inflight := inflight + ops[..accepted];
      assert ops[..count][..accepted] == ops[..accepted];
      CountErrors(accepted);
    }

    /** How many operations to finish, at most count, and which of them the hardware fails. */
    method Decide(count: nat) returns (n: nat, outcomes: seq<Option<seq<byte>>>)
      modifies this`stalls, this`failures
      ensures n <= count && n <= |inflight| && |outcomes| == n
      ensures stalls <= old(stalls)
      ensures n == 0 < count && inflight != [] ==> stalls < old(stalls)
      ensures failures >= old(failures)
      ensures failures == old(failures) <==> forall i :: 0 <= i < n ==> outcomes[i] == None
    {
      if count == 0 || inflight == [] {
        return 0, [];
      }
      n :| 0 <= n <= count && n <= |inflight| && (n == 0 ==> stalls > 0);
      if n == 0 {
        stalls := stalls - 1;
      }
      outcomes := *;
      if |outcomes| != n {
        outcomes := seq(n, _ => None);
      }
      failures := failures + (if forall i :: 0 <= i < n ==> outcomes[i] == None then 0 else 1);
    }

    /** Finish some prefix of the queue, at most count operations, and store their handles from
        ops[base] on. */
    method DequeueBurst(ops: array<OpId>, base: nat, count: nat)
        returns (returned: nat, ghost glitches: seq<Option<seq<byte>>>)
      requires Valid() && base + count <= ops.Length
      modifies this`inflight, this`stalls, this`enqueueErrCount, this`dequeueErrCount, this`failures, this`executed, this`muted,
               this`longest, ops, host`bytes, pool`table
      ensures executed == old(executed) + returned
      ensures muted == (if returned == 0 && Erring() then old(muted) + 1 else 0)
      ensures longest == (if muted > old(longest) then muted else old(longest))
      ensures returned <= count && returned <= |old(inflight)| && |glitches| == returned
      ensures inflight == old(inflight)[returned..]
      ensures State() == ExecuteAll(codec, old(State()), old(inflight)[..returned], glitches)
      ensures ops[base..base + returned] == old(inflight)[..returned]
      ensures forall i :: 0 <= i < ops.Length && !(base <= i < base + returned) ==> ops[i] == old(ops[i])
      ensures stalls <= old(stalls)
      ensures returned == 0 < count && old(inflight) != [] ==> stalls < old(stalls)
      ensures failures >= old(failures)
      ensures failures == old(failures) <==> forall i :: 0 <= i < |glitches| ==> glitches[i] == None
    {
      hide ExecuteAll;
      var outcomes;
      returned, outcomes := Decide(count);
      glitches := outcomes;
      var done := inflight[..returned];
      inflight := inflight[returned..];
      Perform(done, outcomes);
      StoreHandles(ops, base, done);
      executed := executed + returned;
      CountErrors(returned);
    }

    method Perform(done: seq<OpId>, outcomes: seq<Option<seq<byte>>>)
      requires |outcomes| == |done| && Executable(State(), done)
      modifies host`bytes, pool`table
      ensures State() == ExecuteAll(codec, old(State()), done, outcomes)
    {
      var after := ExecuteAll(codec, State(), done, outcomes);
      pool.table, host.bytes := after.table, after.mem;
    }

    /** The device statistics may move at any time, here after a burst that moved this many operations. */
    method CountErrors(moved: nat)
      modifies this`enqueueErrCount, this`dequeueErrCount, this`muted, this`longest
      ensures enqueueErrCount >= old(enqueueErrCount) && dequeueErrCount >= old(dequeueErrCount)
      ensures muted == (if moved == 0 && Erring() then old(muted) + 1 else 0)
      ensures longest == (if muted > old(longest) then muted else old(longest))
    {
      var more: nat, less: nat := *, *;
      enqueueErrCount, dequeueErrCount := enqueueErrCount + more, dequeueErrCount + less;
      muted := if moved == 0 && Erring() then muted + 1 else 0;
      longest := if muted > longest then muted else longest;
    }
  }

  method StoreHandles(ops: array<OpId>, base: nat, done: seq<OpId>)
    requires base + |done| <= ops.Length
    modifies ops
    ensures ops[base..base + |done|] == done
    ensures forall i :: 0 <= i < ops.Length && !(base <= i < base + |done|) ==> ops[i] == old(ops[i])
  {
    forall i | 0 <= i < |done| {
      ops[base + i] := done[i];
    }
  }
}
