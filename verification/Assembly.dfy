/** What assembling and recycling operations do to a queue pair's accounts: the invariant that
    every pool object is in exactly one place, and the loop-by-loop state of the chains of newly
    allocated operations. */
module Assembly {
  import opened Sequences
  import opened HostMemory
  import opened MemoryPool
  import opened Operations
  import opened PoolSizing
  import opened Accelerator
  import opened Ledger
  import opened Config

  /** The pool objects are accounted for: every operation is either free or outstanding, never
      both, and every mbuf is either free or held by a chain of an outstanding operation. */
  ghost predicate Balanced(t: Totals, table: OpTable, free: set<OpId>, pending: seq<OpId>,
                           numFreeMbufs: nat, refD: int, refC: int)
  {
    && Distinct(pending) && Known(table, pending) && free <= table.Keys
    && (forall i :: 0 <= i < |pending| ==> pending[i] !in free)
    && |free| + |pending| == t.ops
    && (forall i :: 0 <= i < |pending| ==> |table[pending[i]].src| <= t.sgl && |table[pending[i]].dst| <= t.sgl)
    && refD == Books(table, pending, DecompressedInfo)
    && refC == Books(table, pending, CompressedInfo)
    && numFreeMbufs + refD + refC == t.mbufs
  }

  /** With nothing outstanding both pools are full and nothing references the shared-info records. */
  lemma IdleAccounts(t: Totals, table: OpTable, free: set<OpId>, numFreeMbufs: nat, refD: int, refC: int)
    requires Balanced(t, table, free, [], numFreeMbufs, refD, refC)
    ensures |free| == t.ops && numFreeMbufs == t.mbufs && refD == 0 && refC == 0
  {
  }

  /** The mbufs ids[0], ids[1], ... attached to these slices. */
  function Attach(ids: seq<nat>, ss: seq<Slice>, kind: Shared): (ms: seq<Mbuf>)
    requires |ss| <= |ids|
    ensures |ms| == |ss|
  {
    seq(|ss|, i requires 0 <= i < |ss| => Mbuf(ids[i], ss[i], kind))
  }

  lemma AttachNext(ids: seq<nat>, ss: seq<Slice>, i: nat, kind: Shared)
    requires i < |ss| <= |ids|
    ensures Attach(ids, ss[..i + 1], kind) == Attach(ids, ss[..i], kind) + [Mbuf(ids[i], ss[i], kind)]
  {
  }

  lemma SlicesOfAttach(ids: seq<nat>, ss: seq<Slice>, kind: Shared)
    requires |ss| <= |ids|
    ensures Slices(Attach(ids, ss, kind)) == ss
  {
  }

  /** The operations of ids have the same memory in both tables. */
  ghost predicate Kept(table: OpTable, table': OpTable, ids: seq<OpId>)
  {
    forall i :: 0 <= i < |ids| ==> ids[i] in table && ids[i] in table' && table'[ids[i]] == table[ids[i]]
  }

  lemma AllocatedDistinct(free0: set<OpId>, free: set<OpId>, table0: OpTable, table: OpTable,
                          before: seq<OpId>, newOps: seq<OpId>)
    requires Allocated(free0, free, table0, table, newOps) && Distinct(before) && Known(table0, before)
    requires forall i :: 0 <= i < |before| ==> before[i] !in free0
    ensures Distinct(before + newOps) && Known(table, before + newOps) && Kept(table0, table, before)
    ensures forall i :: 0 <= i < |before + newOps| ==> (before + newOps)[i] !in free
  {
  }

  lemma AttachedKinds(ids: seq<nat>, ss: seq<Slice>, kind: Shared, other: Shared)
    requires |ss| <= |ids|
    ensures CountKind(Attach(ids, ss, kind), other) == if kind == other then |ss| else 0
    decreases |ss|
  {
    if ss != [] {
      var ms := Attach(ids, ss, kind);
      assert ms[..|ms| - 1] == Attach(ids, ss[..|ss| - 1], kind);
      AttachedKinds(ids, ss[..|ss| - 1], kind, other);
    }
  }

  lemma {:induction false} LentAttached(ids: seq<nat>, ss: seq<Slice>, kind: Shared)
    requires |ss| <= |ids|
    ensures Lent(Attach(ids, ss, kind)) == if kind == CompressedInfo then ss else []
    decreases |ss|
  {
    if ss != [] {
      assert Attach(ids, ss, kind)[1..] == Attach(ids[1..], ss[1..], kind);
      LentAttached(ids[1..], ss[1..], kind);
    }
  }

  /** Jobs from matching lists of sources and destinations. */
  function Zip(srcs: seq<seq<Slice>>, dsts: seq<seq<Slice>>): (jobs: seq<Job>)
    requires |srcs| == |dsts|
    ensures |jobs| == |srcs|
  {
    seq(|srcs|, i requires 0 <= i < |srcs| => Job(srcs[i], dsts[i]))
  }

  /** Completely built operations carry the jobs obtained by dealing both lists of slices. */
  lemma LoadedBuilt(table: OpTable, newOps: seq<OpId>, ids: seq<nat>, ids': seq<nat>, srcs: seq<Slice>, dsts: seq<Slice>,
                    kind: Shared, kind': Shared, n: nat, x: Xform)
    requires x != Unset && |srcs| <= |ids| && |dsts| <= |ids'|
    requires Holds(table, newOps, Built(Attach(ids, srcs, kind), Attach(ids', dsts, kind'), n, |newOps|, |newOps|, x))
    ensures Loaded(table, newOps, Zip(Deal(srcs, n, |newOps|), Deal(dsts, n, |newOps|)), x)
  {
    var k := |newOps|;
    var ms, ms' := Attach(ids, srcs, kind), Attach(ids', dsts, kind');
    AttachDealt(ids, srcs, kind, n, k);
    AttachDealt(ids', dsts, kind', n, k);
    BuiltComplete(ms, ms', n, k, x);
    HeldLoaded(table, newOps, Deal(ms, n, k), Deal(ms', n, k), Deal(srcs, n, k), Deal(dsts, n, k), Built(ms, ms', n, k, k, x), x);
  }

  lemma BuiltComplete(srcs: seq<Mbuf>, dsts: seq<Mbuf>, n: nat, k: nat, x: Xform)
    ensures forall q :: 0 <= q < k ==>
              Built(srcs, dsts, n, k, k, x)[q] == BuiltOp(Deal(srcs, n, k)[q], Deal(dsts, n, k)[q], x)
  {
  }

  lemma AttachDealt(ids: seq<nat>, ss: seq<Slice>, kind: Shared, n: nat, k: nat)
    requires |ss| <= |ids|
    ensures forall q :: 0 <= q < k ==> Slices(Deal(Attach(ids, ss, kind), n, k)[q]) == Deal(ss, n, k)[q]
  {
    SlicesOfAttach(ids, ss, kind);
    SlicesOfDeal(Attach(ids, ss, kind), n, k);
  }

  lemma HeldLoaded(table: OpTable, newOps: seq<OpId>, srcs: seq<seq<Mbuf>>, dsts: seq<seq<Mbuf>>,
                   src: seq<seq<Slice>>, dst: seq<seq<Slice>>, ops: seq<Op>, x: Xform)
    requires Holds(table, newOps, ops) && |ops| == |srcs| == |dsts| == |src| == |dst| && x != Unset
    requires forall q :: 0 <= q < |ops| ==> ops[q] == BuiltOp(srcs[q], dsts[q], x)
    requires forall q :: 0 <= q < |ops| ==> Slices(srcs[q]) == src[q] && Slices(dsts[q]) == dst[q]
    ensures Loaded(table, newOps, Zip(src, dst), x)
  {
  }

  /** The slices mbufs attach to cover whole zones; their length field has 16 bits. */
  function ZoneSlices(zones: seq<Memzone>): (ss: seq<Slice>)
    ensures |ss| == |zones|
  {
    seq(|zones|, i requires 0 <= i < |zones| => Slice(zones[i].region, 0, zones[i].len % 0x1_0000))
  }

  /** num consecutive slices of seg bytes from pos on. */
  function Strip(r: Region, pos: nat, seg: nat, num: nat): (ss: seq<Slice>)
    ensures |ss| == num
    decreases num
  {
    if num == 0 then [] else [Slice(r, pos, seg)] + Strip(r, pos + seg, seg, num - 1)
  }

  /** pos + num * seg, by counting. */
  function Skip(pos: nat, seg: nat, num: nat): nat
    decreases num
  {
    if num == 0 then pos else Skip(pos + seg, seg, num - 1)
  }

  lemma {:induction false} SkipShift(pos: nat, d: nat, seg: nat, num: nat)
    ensures Skip(pos + d, seg, num) == Skip(pos, seg, num) + d
    decreases num
  {
    if num > 0 {
      SkipShift(pos + seg, d, seg, num - 1);
    }
  }

  lemma SkipNext(pos: nat, seg: nat, num: nat)
    ensures Skip(pos, seg, num + 1) == Skip(pos, seg, num) + seg
  {
    SkipShift(pos, seg, seg, num);
  }

  /** Stride i starts i * seg bytes into the strip. */
  lemma {:induction false} StripAt(r: Region, pos: nat, seg: nat, num: nat, i: nat)
    requires i < num
    ensures Strip(r, pos, seg, num)[i] == Slice(r, Skip(pos, seg, i), seg)
    decreases num
  {
    if i > 0 {
      StripAt(r, pos + seg, seg, num - 1, i - 1);
    }
  }

  /** A buffer as an mbuf sees it: the length is cut to 16 bits. */
  function Clip(s: Slice): (r: Slice)
    ensures r.region == s.region && r.start == s.start && r.len <= 65535 && (s.len <= 65535 ==> r == s)
    ensures r.len <= s.len && (s.len - r.len) % 0x1_0000 == 0
  {
    s.(len := s.len % 0x1_0000)
  }

  function ClipAll(ss: seq<Slice>): (r: seq<Slice>)
    ensures |r| == |ss|
  {
    seq(|ss|, i requires 0 <= i < |ss| => Clip(ss[i]))
  }

  /** Allocating newOps and some mbufs: the operations are outstanding with empty chains, the mbufs
      in reserve. */
  lemma BalancedStart(t: Totals, free0: set<OpId>, free: set<OpId>, table0: OpTable, table: OpTable,
                      before: seq<OpId>, newOps: seq<OpId>, numFree: nat, refD: int, refC: int)
    requires Balanced(t, table0, free0, before, numFree, refD, refC) && Allocated(free0, free, table0, table, newOps)
    ensures Balanced(t, table, free, before + newOps, numFree, refD, refC)
    ensures table.Keys == table0.Keys && Kept(table0, table, before) && Empty(table, newOps)
  {
    AllocatedDistinct(free0, free, table0, table, before, newOps);
    ChainsStart(t.sgl, table0, table, before, newOps);
    forall kind
      ensures Books(table, before + newOps, kind) == Books(table0, before, kind)
    {
      BooksAppend(table, before, newOps, kind);
      BooksEmpty(table, newOps, kind);
      BooksSame(table0, table, before, kind);
    }
  }

  /** Operations allocated and then forgotten are lost, and nothing else. */
  lemma BalancedForgets(t: Totals, table: OpTable, free: set<OpId>, before: seq<OpId>, newOps: seq<OpId>,
                        numFree: nat, refD: int, refC: int)
    requires Balanced(t, table, free, before + newOps, numFree, refD, refC) && Empty(table, newOps)
    ensures |newOps| <= t.ops && Balanced(t.(ops := t.ops - |newOps|), table, free, before, numFree, refD, refC)
  {
    var all := before + newOps;
    assert forall i :: 0 <= i < |before| ==> before[i] == all[i];
    forall kind
      ensures Books(table, all, kind) == Books(table, before, kind)
    {
      BooksAppend(table, before, newOps, kind);
      BooksEmpty(table, newOps, kind);
    }
  }

  lemma ChainsStart(sgl: nat, table0: OpTable, table: OpTable, before: seq<OpId>, newOps: seq<OpId>)
    requires Known(table, before) && Kept(table0, table, before) && Empty(table, newOps)
    requires forall i :: 0 <= i < |before| ==> |table0[before[i]].src| <= sgl && |table0[before[i]].dst| <= sgl
    ensures forall i :: 0 <= i < |before + newOps| ==>
              var op := table[(before + newOps)[i]]; |op.src| <= sgl && |op.dst| <= sgl
  {
    var all := before + newOps;
    forall i | 0 <= i < |all|
      ensures all[i] in table && |table[all[i]].src| <= sgl && |table[all[i]].dst| <= sgl
    {
      assert all[i] == if i < |before| then before[i] else newOps[i - |before|];
    }
  }

  ghost predicate Empty(table: OpTable, ids: seq<OpId>)
  {
    forall i :: 0 <= i < |ids| ==> ids[i] in table && table[ids[i]] == RESET_OP
  }

  lemma EmptyBuilt(table: OpTable, newOps: seq<OpId>, n: nat, x: Xform)
    requires Empty(table, newOps)
    ensures Holds(table, newOps, Built([], [], n, |newOps|, 0, x))
  {
    BuiltStart(n, |newOps|, x);
  }

  /** The accounts after a round of assembly, completed or broken off: what left the reserve is exactly
      what the new operations hold. */
  lemma BalancedBuilt(t: Totals, free: set<OpId>, table1: OpTable, table: OpTable, before: seq<OpId>, newOps: seq<OpId>,
                      numFree: nat, refD: int, refC: int, srcs: seq<Mbuf>, dsts: seq<Mbuf>, done: nat, x: Xform)
    requires Balanced(t, table1, free, before + newOps, numFree + |srcs| + |dsts|, refD, refC) && Empty(table1, newOps)
    requires t.sgl > 0 && CeilDiv(|srcs|, t.sgl) <= |newOps| && CeilDiv(|dsts|, t.sgl) <= |newOps|
    requires table.Keys == table1.Keys && Kept(table1, table, before)
    requires Holds(table, newOps, Built(srcs, dsts, t.sgl, |newOps|, done, x))
    ensures Balanced(t, table, free, before + newOps, numFree,
                     refD + CountKind(srcs, DecompressedInfo) + CountKind(dsts, DecompressedInfo),
                     refC + CountKind(srcs, CompressedInfo) + CountKind(dsts, CompressedInfo))
  {
    CountKindsAll(srcs);
    CountKindsAll(dsts);
    forall kind
      ensures Known(table, before + newOps)
      ensures Books(table, before + newOps, kind) ==
              Books(table1, before + newOps, kind) + CountKind(srcs, kind) + CountKind(dsts, kind)
    {
      BooksOfBuilt(table, newOps, srcs, dsts, t.sgl, done, x, kind);
      BooksSame(table1, table, before, kind);
      BooksAppend(table, before, newOps, kind);
      BooksAppend(table1, before, newOps, kind);
      BooksEmpty(table1, newOps, kind);
    }
    assert forall i :: 0 <= i < |before| ==> before[i] == (before + newOps)[i];
    ChainsFit(t, table, before, newOps, srcs, dsts, done, x);
  }

  /** A round broken off for want of a zone: the destination mbufs not yet chained are lost. */
  lemma RoundBroken(t: Totals, free: set<OpId>, table1: OpTable, table: OpTable, before: seq<OpId>, newOps: seq<OpId>,
                    numFree: nat, refD: int, refC: int, ids: seq<nat>, ids': seq<nat>,
                    srcs: seq<Slice>, dsts: seq<Slice>, done: nat, x: Xform)
    requires |srcs| <= |ids| && |dsts| <= |ids'| && |dsts| <= |srcs|
    requires Balanced(t, table1, free, before + newOps, numFree + |srcs| + |srcs|, refD, refC) && Empty(table1, newOps)
    requires t.sgl > 0 && |newOps| == CeilDiv(|srcs|, t.sgl)
    requires table.Keys == table1.Keys && Kept(table1, table, before)
    requires Holds(table, newOps, Built(Attach(ids, srcs, DecompressedInfo), Attach(ids', dsts, CompressedInfo), t.sgl, |newOps|, done, x))
    ensures Balanced(t, table, free, before + newOps, numFree + (|srcs| - |dsts|), refD + |srcs|, refC + |dsts|)
  {
    CeilDivMonotone(|dsts|, |srcs|, t.sgl);
    BalancedBuilt(t, free, table1, table, before, newOps, numFree + (|srcs| - |dsts|), refD, refC,
                  Attach(ids, srcs, DecompressedInfo), Attach(ids', dsts, CompressedInfo), done, x);
    forall other: Shared
      ensures CountKind(Attach(ids, srcs, DecompressedInfo), other) == if other == DecompressedInfo then |srcs| else 0
      ensures CountKind(Attach(ids', dsts, CompressedInfo), other) == if other == CompressedInfo then |dsts| else 0
    {
      AttachedKinds(ids, srcs, DecompressedInfo, other);
      AttachedKinds(ids', dsts, CompressedInfo, other);
    }
  }

  /** A completed round: the accounts balance and the new operations carry the dealt jobs. */
  lemma RoundClosed(t: Totals, free: set<OpId>, table1: OpTable, table: OpTable, before: seq<OpId>, newOps: seq<OpId>,
                    numFree: nat, refD: int, refC: int, ids: seq<nat>, ids': seq<nat>,
                    srcs: seq<Slice>, dsts: seq<Slice>, kind: Shared, kind': Shared, x: Xform)
    requires |srcs| == |dsts| && |srcs| <= |ids| && |dsts| <= |ids'| && kind != kind' && x != Unset
    requires Balanced(t, table1, free, before + newOps, numFree + |srcs| + |dsts|, refD, refC) && Empty(table1, newOps)
    requires t.sgl > 0 && |newOps| == CeilDiv(|srcs|, t.sgl)
    requires table.Keys == table1.Keys && Kept(table1, table, before)
    requires Holds(table, newOps, Built(Attach(ids, srcs, kind), Attach(ids', dsts, kind'), t.sgl, |newOps|, |newOps|, x))
    ensures Balanced(t, table, free, before + newOps, numFree, refD + |srcs|, refC + |srcs|)
    ensures Loaded(table, newOps, Zip(Deal(srcs, t.sgl, |newOps|), Deal(dsts, t.sgl, |newOps|)), x)
  {
    BalancedBuilt(t, free, table1, table, before, newOps, numFree, refD, refC,
                  Attach(ids, srcs, kind), Attach(ids', dsts, kind'), |newOps|, x);
    forall other: Shared
      ensures CountKind(Attach(ids, srcs, kind), other) == if kind == other then |srcs| else 0
      ensures CountKind(Attach(ids', dsts, kind'), other) == if kind' == other then |dsts| else 0
    {
      AttachedKinds(ids, srcs, kind, other);
      AttachedKinds(ids', dsts, kind', other);
    }
    LoadedBuilt(table, newOps, ids, ids', srcs, dsts, kind, kind', t.sgl, x);
  }

  /** New operations hold, as device memory, the zones attached to them so far. */
  lemma LentZones(table: OpTable, newOps: seq<OpId>, srcs: seq<Mbuf>, ids: seq<nat>, zones: seq<Memzone>, n: nat, num: nat,
                  done: nat, x: Xform)
    requires n > 0 && |zones| <= num && |zones| <= |ids| && |newOps| == CeilDiv(num, n)
    requires Holds(table, newOps, Built(srcs, Attach(ids, ZoneSlices(zones), CompressedInfo), n, |newOps|, done, x))
    ensures Known(table, newOps) && LentTo(table, newOps) == ZoneSlices(zones)
  {
    CeilDivMonotone(|zones|, num, n);
    LentToBuilt(table, newOps, srcs, Attach(ids, ZoneSlices(zones), CompressedInfo), n, done, x);
    LentAttached(ids, ZoneSlices(zones), CompressedInfo);
  }

  lemma ChainsFit(t: Totals, table: OpTable, before: seq<OpId>, newOps: seq<OpId>, srcs: seq<Mbuf>, dsts: seq<Mbuf>,
                  done: nat, x: Xform)
    requires Known(table, before) && t.sgl > 0
    requires forall i :: 0 <= i < |before| ==> |table[before[i]].src| <= t.sgl && |table[before[i]].dst| <= t.sgl
    requires CeilDiv(|srcs|, t.sgl) <= |newOps| && CeilDiv(|dsts|, t.sgl) <= |newOps|
    requires Holds(table, newOps, Built(srcs, dsts, t.sgl, |newOps|, done, x))
    ensures forall i :: 0 <= i < |before + newOps| ==>
              var op := table[(before + newOps)[i]]; |op.src| <= t.sgl && |op.dst| <= t.sgl
  {
    DealSizes(srcs, t.sgl, |newOps|);
    DealSizes(dsts, t.sgl, |newOps|);
    var all := before + newOps;
    forall i | 0 <= i < |all|
      ensures |table[all[i]].src| <= t.sgl && |table[all[i]].dst| <= t.sgl
    {
      if i >= |before| {
        assert all[i] == newOps[i - |before|];
      }
    }
  }

  /** The pools and reference counts after an operation's mbufs have been given back. */
  ghost predicate Returned(op: Op, free: nat, refD: int, refC: int, free': nat, refD': int, refC': int)
  {
    && free' == free + |op.src| + |op.dst|
    && refD' == refD - References(op, DecompressedInfo)
    && refC' == refC - References(op, CompressedInfo)
  }

  /** What the pools and the reference counts become when the operations ids are given back. */
  ghost predicate PaidBack(table: OpTable, ids: seq<OpId>, free: set<OpId>, numFree: nat, refD: int, refC: int,
                           free': set<OpId>, numFree': nat, refD': int, refC': int)
    requires Known(table, ids)
  {
    && free' == free + Elements(ids)
    && numFree' == numFree + Books(table, ids, DecompressedInfo) + Books(table, ids, CompressedInfo)
    && refD' == refD - Books(table, ids, DecompressedInfo)
    && refC' == refC - Books(table, ids, CompressedInfo)
  }

  lemma PaidBackNone(table: OpTable, free: set<OpId>, numFree: nat, refD: int, refC: int)
    ensures PaidBack(table, [], free, numFree, refD, refC, free, numFree, refD, refC)
  {
  }

  lemma PaidBackOne(table: OpTable, ids: seq<OpId>, id: OpId, free: set<OpId>, numFree: nat, refD: int, refC: int,
                    free1: set<OpId>, numFree1: nat, refD1: int, refC1: int, numFree': nat, refD': int, refC': int)
    requires Known(table, ids) && PaidBack(table, ids, free, numFree, refD, refC, free1, numFree1, refD1, refC1)
    requires id in table && Returned(table[id], numFree1, refD1, refC1, numFree', refD', refC')
    ensures Known(table, ids + [id])
    ensures PaidBack(table, ids + [id], free, numFree, refD, refC, free1 + {id}, numFree', refD', refC')
  {
    BooksAppend(table, ids, [id], DecompressedInfo);
    BooksAppend(table, ids, [id], CompressedInfo);
    BooksOne(table, id, DecompressedInfo);
    BooksOne(table, id, CompressedInfo);
    CountKindsAll(table[id].src);
    CountKindsAll(table[id].dst);
  }

  /** With balanced accounts, giving back everything outstanding fills the pools. */
  lemma PaidBackFull(t: Totals, table: OpTable, pending: seq<OpId>, free: set<OpId>, numFree: nat, lost: nat, refD: int, refC: int,
                     free': set<OpId>, numFree': nat, refD': int, refC': int)
    requires Balanced(t, table, free, pending, numFree + lost, refD, refC)
    requires PaidBack(table, pending, free, numFree, refD, refC, free', numFree', refD', refC')
    ensures |free'| == t.ops && numFree' + lost == t.mbufs && refD' == 0 && refC' == 0
  {
    DistinctSize(pending);
    assert free !! Elements(pending);
  }

  /** One segment, whose zone is refused: of the two mbufs taken for it only one can be given back. */
  lemma RefusalLosesMbuf(data: Slice)
    ensures var t, op := Totals(1, 2, 1), RESET_OP.(src := [Mbuf(0, data, DecompressedInfo)], srcPktLen := data.len);
            var table: OpTable := map[0 := op];
            && Balanced(t, table, {}, [0], 0 + 1, 1, 0)
            && PaidBack(table, [0], {}, 0, 1, 0, {0}, 1, 0, 0) && 1 < t.mbufs
  {
    var m := Mbuf(0, data, DecompressedInfo);
    var op := RESET_OP.(src := [m], srcPktLen := data.len);
    var table: OpTable := map[0 := op];
    CountKindNext([], m);
    assert [] + [m] == [m];
    BooksOne(table, 0, DecompressedInfo);
    BooksOne(table, 0, CompressedInfo);
    assert Elements([0]) == {0};
  }

  /** Completing the front operation keeps the accounts balanced. */
  lemma BalancedPop(t: Totals, table: OpTable, free: set<OpId>, pending: seq<OpId>,
                    numFree: nat, refD: int, refC: int, numFree': nat, refD': int, refC': int)
    requires Balanced(t, table, free, pending, numFree, refD, refC) && pending != []
    requires Returned(table[pending[0]], numFree, refD, refC, numFree', refD', refC')
    ensures Balanced(t, table, free + {pending[0]}, pending[1..], numFree', refD', refC')
  {
    CountKindsAll(table[pending[0]].src);
    CountKindsAll(table[pending[0]].dst);
    assert Books(table, pending, DecompressedInfo) ==
           References(table[pending[0]], DecompressedInfo) + Books(table, pending[1..], DecompressedInfo);
    assert Books(table, pending, CompressedInfo) ==
           References(table[pending[0]], CompressedInfo) + Books(table, pending[1..], CompressedInfo);
  }

  // ----- one round of a loop -----

  /** Chaining the next source mbuf to operation Quot(i, n) advances the operations being built;
      the chain it goes to is not full. */
  lemma SourceStep(table: OpTable, before: seq<OpId>, newOps: seq<OpId>, ids: seq<nat>, plan: seq<Slice>, i: nat,
                   kind: Shared, n: nat, j: nat, x: Xform)
    requires n > 0 && i < |plan| <= |ids| && j < |newOps| && j == Quot(i, n) && Distinct(before + newOps)
    requires Holds(table, newOps, Built(Attach(ids, plan[..i], kind), [], n, |newOps|, 0, x))
    ensures newOps[j] in table && |table[newOps[j]].src| < n
    ensures var table' := table[newOps[j] := Appended(table[newOps[j]], true, Mbuf(ids[i], plan[i], kind))];
            && Holds(table', newOps, Built(Attach(ids, plan[..i + 1], kind), [], n, |newOps|, 0, x))
            && (Known(table, before) ==> Kept(table, table', before))
  {
    var ms := Attach(ids, plan[..i], kind);
    var m := Mbuf(ids[i], plan[i], kind);
    AttachNext(ids, plan, i, kind);
    BuiltSrc(ms, n, |newOps|, m, x);
    ConcatDistinct(before, newOps);
    HoldsStep(table, newOps, Built(ms, [], n, |newOps|, 0, x), j, Appended(table[newOps[j]], true, m));
  }

  lemma DestinationStep(table: OpTable, before: seq<OpId>, newOps: seq<OpId>, srcs: seq<Mbuf>, ids: seq<nat>, plan: seq<Slice>,
                        i: nat, kind: Shared, n: nat, j: nat, x: Xform)
    requires n > 0 && i < |plan| <= |ids| && j < |newOps| && j == Quot(i, n) && Distinct(before + newOps)
    requires Holds(table, newOps, Built(srcs, Attach(ids, plan[..i], kind), n, |newOps|, j, x))
    ensures newOps[j] in table && |table[newOps[j]].dst| < n
    ensures var table' := table[newOps[j] := Appended(table[newOps[j]], false, Mbuf(ids[i], plan[i], kind))];
            && Holds(table', newOps, Built(srcs, Attach(ids, plan[..i + 1], kind), n, |newOps|, j, x))
            && (Known(table, before) ==> Kept(table, table', before))
  {
    var ms := Attach(ids, plan[..i], kind);
    var m := Mbuf(ids[i], plan[i], kind);
    AttachNext(ids, plan, i, kind);
    BuiltDst(srcs, ms, n, |newOps|, j, m, x);
    ConcatDistinct(before, newOps);
    HoldsStep(table, newOps, Built(srcs, ms, n, |newOps|, j, x), j, Appended(table[newOps[j]], false, m));
  }

  lemma UpdateStep(table: OpTable, before: seq<OpId>, newOps: seq<OpId>, srcs: seq<Mbuf>, dsts: seq<Mbuf>, n: nat, j: nat, x: Xform)
    requires j < |newOps| && Distinct(before + newOps) && x != Unset
    requires Holds(table, newOps, Built(srcs, dsts, n, |newOps|, j, x))
    ensures newOps[j] in table
    ensures var table' := table[newOps[j] := Updated(table[newOps[j]], x)];
            && Holds(table', newOps, Built(srcs, dsts, n, |newOps|, j + 1, x))
            && (Known(table, before) ==> Kept(table, table', before))
  {
    BuiltUpdate(srcs, dsts, n, |newOps|, j, x);
    ConcatDistinct(before, newOps);
    HoldsStep(table, newOps, Built(srcs, dsts, n, |newOps|, j, x), j, Updated(table[newOps[j]], x));
  }

  lemma ConcatDistinct(before: seq<OpId>, newOps: seq<OpId>)
    requires Distinct(before + newOps)
    ensures Distinct(newOps)
    ensures forall i, j :: 0 <= i < |before| && 0 <= j < |newOps| ==> before[i] != newOps[j]
  {
    var all := before + newOps;
    assert forall j :: 0 <= j < |newOps| ==> newOps[j] == all[|before| + j];
    assert forall i :: 0 <= i < |before| ==> before[i] == all[i];
  }

  // ----- loop counters -----

  /** The operation index j while element i of num is being dealt n to a group, k groups in all. */
  ghost predicate Cursor(i: nat, num: nat, n: nat, k: nat, j: nat)
    requires n > 0
  {
    i <= num && j < k && j == if i < num then Quot(i, n) else k - 1
  }

  /** Assembly moves to the next operation exactly when a group is full and input is left. */
  lemma CursorStep(i: nat, num: nat, n: nat, k: nat, j: nat)
    requires n > 0 && k == CeilDiv(num, n) && Cursor(i, num, n, k, j) && i < num
    ensures Cursor(i + 1, num, n, k, if Multiple(i + 1, n) && i + 1 < num then j + 1 else j)
  {
    QuotStep(i, n);
    QuotInCeil(i, num, n);
    if i + 1 < num {
      QuotInCeil(i + 1, num, n);
    }
  }

  /** The number of complete operations while element i is being dealt. */
  ghost predicate DoneCursor(i: nat, num: nat, n: nat, k: nat, j: nat)
    requires n > 0
  {
    i <= num && j == if i < num then Quot(i, n) else k
  }

  /** An operation is complete exactly when its group is full or the last element is dealt. */
  lemma DoneCursorStep(i: nat, num: nat, n: nat, k: nat, j: nat)
    requires n > 0 && k == CeilDiv(num, n) && DoneCursor(i, num, n, k, j) && i < num
    ensures j == Quot(i, n) && j < k
    ensures DoneCursor(i + 1, num, n, k, if Multiple(i + 1, n) || i + 1 == num then j + 1 else j)
  {
    QuotStep(i, n);
    QuotInCeil(i, num, n);
  }

  /** Cutting at `now` in steps of seg, stopping at the end of the buffer, yields the slices of the
      plan from number i on and ends at `end`. */
  ghost predicate CutsInto(buffer: Slice, now: nat, end: nat, seg: nat, plan: seq<Slice>, i: nat)
    requires i <= |plan|
    decreases |plan| - i
  {
    if i == |plan| then now == end
    else
      && now < buffer.len && seg > 0
      && plan[i] == Slice(buffer.region, buffer.start + now, Min(seg, buffer.len - now))
      && CutsInto(buffer, now + plan[i].len, end, seg, plan, i + 1)
  }

  /** The loop cuts min(seg, rest of the buffer) each time; within one burst that is the same as
      cutting the burst's bytes into segments. */
  lemma {:induction false} CutsIntoSegments(buffer: Slice, now: nat, bytes: nat, seg: nat, plan: seq<Slice>, i: nat)
    requires seg > 0 && now + bytes <= buffer.len && i <= |plan|
    requires now + bytes == buffer.len || Multiple(bytes, seg)
    requires plan[i..] == Segments(buffer.region, buffer.start + now, bytes, seg)
    ensures CutsInto(buffer, now, now + bytes, seg, plan, i)
    decreases bytes
  {
    if bytes > 0 {
      assert plan[i] == plan[i..][0] && plan[i..][1..] == plan[i + 1..];
      if bytes > seg {
        CutsIntoSegments(buffer, now + seg, bytes - seg, seg, plan, i + 1);
      }
    }
  }

  /** newOps stand in the array right behind its first n entries. */
  ghost predicate Follow(ops: seq<OpId>, n: nat, newOps: seq<OpId>)
  {
    n + |newOps| <= |ops| && forall q :: 0 <= q < |newOps| ==> ops[n + q] == newOps[q]
  }

  /** The first n entries of the array are, in order, the last n outstanding operations. */
  ghost predicate LastOf(pending: seq<OpId>, ops: seq<OpId>, n: nat)
  {
    n <= |ops| && n <= |pending| && forall j :: |pending| - n <= j < |pending| ==> pending[j] == ops[j - (|pending| - n)]
  }

  /** From entry k on the array is as before. */
  ghost predicate SameFrom(ops: seq<OpId>, ops': seq<OpId>, k: nat)
  {
    |ops'| == |ops| && forall i :: k <= i < |ops| ==> ops'[i] == ops[i]
  }

  /** Handles written behind the n staged ones disturb neither these nor what lies further on. */
  lemma AllocatedBehind(pending: seq<OpId>, ops: seq<OpId>, ops': seq<OpId>, n: nat, k: nat)
    requires n + k <= |ops| == |ops'| && LastOf(pending, ops, n)
    requires forall j :: 0 <= j < |ops| && !(n <= j < n + k) ==> ops'[j] == ops[j]
    ensures LastOf(pending, ops', n) && Follow(ops', n, ops'[n..n + k]) && SameFrom(ops, ops', n + k)
  {
  }

  /** Staging newOps behind the n staged operations. */
  lemma StagedGrow(ops: seq<OpId>, before: seq<OpId>, newOps: seq<OpId>, n: nat, n': nat)
    requires n <= |before| && n' == n + |newOps|
    requires Follow(ops, n, newOps) && LastOf(before, ops, n)
    ensures LastOf(before + newOps, ops, n')
  {
    var all := before + newOps;
    forall j | |all| - n' <= j < |all|
      ensures all[j] == ops[j - (|all| - n')]
    {
      if j < |before| {
        assert all[j] == before[j];
      } else {
        assert all[j] == newOps[j - |before|];
      }
    }
  }

  /** One round cuts [offset, offset') of the input into segs, grouped into k operations: nothing is
      cut only if nothing is left or the burst is full; and unless the input ends the round fills the
      burst, all segments are full and all operations complete. */
  ghost predicate CutFor(cfg: Settings, buffer: Slice, offset: nat, offset': nat, staged: nat, segs: seq<Slice>, k: nat)
    requires cfg.seg > 0 && cfg.sgl > 0
  {
    && offset <= offset' <= buffer.len
    && segs == Segments(buffer.region, buffer.start + offset, offset' - offset, cfg.seg)
    && k == CeilDiv(|segs|, cfg.sgl) && (k == 0 || staged + k <= cfg.burst)
    && (offset' < buffer.len ==> Multiple(offset' - offset, cfg.seg) && Multiple(|segs|, cfg.sgl) && staged + k >= cfg.burst)
    && (k == 0 ==> offset == buffer.len || staged >= cfg.burst)
  }

  /** The sizes computed before a round are right for it. */
  lemma NextCut(cfg: Settings, buffer: Slice, offset: nat, staged: nat, bytes: nat, num: nat, k: nat)
    requires cfg.seg > 0 && cfg.sgl > 0 && offset < buffer.len && staged < cfg.burst
    requires bytes == Min(buffer.len - offset, (cfg.burst - staged) * cfg.sgl * cfg.seg)
    requires num == (bytes + cfg.seg - 1) / cfg.seg && k == (num + cfg.sgl - 1) / cfg.sgl
    ensures var segs := Segments(buffer.region, buffer.start + offset, bytes, cfg.seg);
            && 0 < num == |segs| && k == CeilDiv(num, cfg.sgl) && 0 < k && staged + k <= cfg.burst
            && num * 2 <= cfg.burst * cfg.sgl * 2 && MayAsk(cfg, staged, k, num)
            && CutsInto(buffer, offset, offset + bytes, cfg.seg, segs, 0)
            && CutFor(cfg, buffer, offset, offset + bytes, staged, segs, k)
  {
    BurstSizes(buffer.len - offset, cfg.burst - staged, cfg.sgl, cfg.seg);
    BurstGroups(num, cfg.burst - staged, cfg.sgl, cfg.burst);
    CeilDivBounds(num, cfg.sgl);
    CountingIsMultiplication(k, cfg.sgl);
    SegmentsShape(buffer.region, buffer.start + offset, bytes, cfg.seg);
    CutsIntoSegments(buffer, offset, bytes, cfg.seg, Segments(buffer.region, buffer.start + offset, bytes, cfg.seg), 0);
  }

  /** One decompress-side round consumes num buffers, grouped into k operations: all that are left, or as
      many as fill the burst. */
  ghost predicate TakeFor(cfg: Settings, total: nat, index: nat, index': nat, staged: nat, num: nat, k: nat)
    requires cfg.sgl > 0
  {
    && index' == index + num <= total
    && k == CeilDiv(num, cfg.sgl) && (k == 0 || staged + k <= cfg.burst)
    && (index' < total ==> Multiple(num, cfg.sgl) && staged + k >= cfg.burst)
    && (k == 0 ==> index == total || staged >= cfg.burst)
  }

  lemma NextTake(cfg: Settings, total: nat, index: nat, staged: nat, num: nat, k: nat)
    requires cfg.sgl > 0 && index < total && staged < cfg.burst
    requires num == Min((cfg.burst - staged) * cfg.sgl, total - index) && k == (num + cfg.sgl - 1) / cfg.sgl
    ensures 0 < num && k == CeilDiv(num, cfg.sgl) && 0 < k && staged + k <= cfg.burst
    ensures num * 2 <= cfg.burst * cfg.sgl * 2 && MayAsk(cfg, staged, k, num)
    ensures TakeFor(cfg, total, index, index + num, staged, num, k)
  {
    MulPositive(cfg.burst - staged, cfg.sgl);
    BurstGroups(num, cfg.burst - staged, cfg.sgl, cfg.burst);
    CeilDivBounds(num, cfg.sgl);
    CountingIsMultiplication(k, cfg.sgl);
  }

  /** A round may ask for k operations and num mbufs a side. */
  ghost predicate MayAsk(cfg: Settings, staged: nat, k: nat, num: nat)
  {
    staged + k <= cfg.burst && num <= Product(k, cfg.sgl)
  }

  /** Pools that serve the configuration never run short: no more than a full device queue and a burst
      of operations are ever wanted at a time. */
  lemma NeverShort(t: Totals, table: OpTable, free: set<OpId>, pending: seq<OpId>, numFree: nat, refD: int, refC: int,
                   burst: nat, numOps: nat, numMbufs: nat)
    requires Balanced(t, table, free, pending, numFree, refD, refC) && Serves(t, burst)
    requires |pending| + numOps <= MAX_INFLIGHT_OPS + burst && numMbufs <= 2 * Product(numOps, t.sgl)
    ensures numOps <= |free| && numMbufs <= numFree
  {
    BooksBound(table, pending, t.sgl);
    CountingIsMultiplication(numOps, t.sgl);
    var limit := MAX_INFLIGHT_OPS + burst;
    ServedMbufs(t, burst, limit);
    ShortArithmetic(t.sgl, |pending|, numOps, numMbufs, limit, t.mbufs, numFree, refD + refC);
  }

  lemma ServedMbufs(t: Totals, burst: nat, limit: nat)
    requires Serves(t, burst) && limit == MAX_INFLIGHT_OPS + burst
    ensures 2 * (t.sgl * limit) <= t.mbufs
  {
    CountingIsMultiplication(limit, t.sgl);
    assert limit * t.sgl == t.sgl * limit;
  }

  lemma ShortArithmetic(sgl: nat, held: nat, k: nat, numMbufs: nat, limit: nat, total: nat, numFree: nat, inUse: int)
    requires held + k <= limit && numMbufs <= 2 * (k * sgl) && inUse <= 2 * (sgl * held) && numFree + inUse == total
    ensures 2 * (sgl * limit) <= total ==> numMbufs <= numFree
  {
    MulMonotone(held + k, limit, sgl);
    assert (held + k) * sgl == sgl * held + k * sgl;
    assert limit * sgl == sgl * limit;
  }

  /** The sizes of one round of assembly, m being the operations still wanted in the burst: the
      bytes cut are the rest of the input or fill the burst with whole segments. */
  lemma BurstSizes(remaining: nat, m: nat, sgl: nat, seg: nat)
    requires remaining > 0 && m > 0 && sgl > 0 && seg > 0
    ensures var bytes := Min(remaining, m * sgl * seg);
            var num := (bytes + seg - 1) / seg;
            && 0 < bytes && num == CeilDiv(bytes, seg) && 0 < num <= m * sgl
            && (bytes < remaining ==> Multiple(bytes, seg) && num == m * sgl)
  {
    MulPositive(m, sgl);
    MulPositive(m * sgl, seg);
    var bytes := Min(remaining, m * sgl * seg);
    CeilDivIsDivision(bytes, seg);
    CeilDivBounds(bytes, seg);
    CeilDivLeast(bytes, seg, m * sgl);
    if bytes < remaining {
      MultipleOfProduct(m * sgl, seg);
      CeilDivAbove(bytes, seg, m * sgl);
    }
  }

  lemma BurstGroups(num: nat, m: nat, sgl: nat, burst: nat)
    requires 0 < num <= m * sgl && m <= burst && sgl > 0
    ensures var k := (num + sgl - 1) / sgl;
            && k == CeilDiv(num, sgl) && 0 < k <= m && 2 * num <= burst * sgl * 2
            && (num == m * sgl ==> Multiple(num, sgl) && k == m)
  {
    if num == m * sgl {
      CeilDivAbove(num, sgl, m);
    }
    CeilDivIsDivision(num, sgl);
    CeilDivBounds(num, sgl);
    CeilDivLeast(num, sgl, m);
    MultipleOfProduct(m, sgl);
    MulMonotone(m, burst, sgl);
  }
}
