/** Bookkeeping of pool objects: how many mbufs the chains of a list of operations hold, by the
    shared-info record they reference. Also what the loops that build chains keep. */
module Ledger {
  import opened Sequences
  import opened HostMemory
  import opened Operations

  function CountKind(chain: seq<Mbuf>, kind: Shared): nat
  {
    if chain == [] then 0
    else CountKind(chain[..|chain| - 1], kind) + (if chain[|chain| - 1].shinfo == kind then 1 else 0)
  }

  /** Mbufs of an operation that reference one shared-info record. */
  function References(op: Op, kind: Shared): nat
  {
    CountKind(op.src, kind) + CountKind(op.dst, kind)
  }

  ghost predicate Known(table: OpTable, ids: seq<OpId>)
  {
    forall i :: 0 <= i < |ids| ==> ids[i] in table
  }

  /** Total weight, under any measure f, of the operations named by ids. */
  ghost function Weigh(f: Op -> nat, table: OpTable, ids: seq<OpId>): nat
    requires Known(table, ids)
  {
    if ids == [] then 0 else f(table[ids[0]]) + Weigh(f, table, ids[1..])
  }

  /** References the operations named by ids keep on one shared-info record. */
  ghost function Books(table: OpTable, ids: seq<OpId>, kind: Shared): nat
    requires Known(table, ids)
  {
    Weigh(op => References(op, kind), table, ids)
  }

  lemma {:induction false} CountKindsAll(chain: seq<Mbuf>)
    ensures CountKind(chain, DecompressedInfo) + CountKind(chain, CompressedInfo) == |chain|
  {
    if chain != [] {
      CountKindsAll(chain[..|chain| - 1]);
    }
  }

  lemma {:induction false} WeighAppend(f: Op -> nat, table: OpTable, a: seq<OpId>, b: seq<OpId>)
    requires Known(table, a) && Known(table, b)
    ensures Known(table, a + b) && Weigh(f, table, a + b) == Weigh(f, table, a) + Weigh(f, table, b)
  {
    if a == [] {
      assert a + b == b;
    } else {
      assert (a + b)[1..] == a[1..] + b;
      WeighAppend(f, table, a[1..], b);
    }
  }

  lemma {:induction false} WeighSame(f: Op -> nat, table: OpTable, table': OpTable, ids: seq<OpId>)
    requires Known(table, ids) && Known(table', ids)
    requires forall i :: 0 <= i < |ids| ==> f(table'[ids[i]]) == f(table[ids[i]])
    ensures Weigh(f, table', ids) == Weigh(f, table, ids)
  {
    if ids != [] {
      WeighSame(f, table, table', ids[1..]);
    }
  }

  lemma {:induction false} WeighBound(f: Op -> nat, table: OpTable, ids: seq<OpId>, k: nat)
    requires Known(table, ids) && forall i :: 0 <= i < |ids| ==> f(table[ids[i]]) <= k
    ensures Weigh(f, table, ids) <= k * |ids|
  {
    if ids != [] {
      WeighBound(f, table, ids[1..], k);
      assert k * |ids| == k * |ids[1..]| + k;
    }
  }

  lemma BooksAppend(table: OpTable, a: seq<OpId>, b: seq<OpId>, kind: Shared)
    requires Known(table, a) && Known(table, b)
    ensures Known(table, a + b) && Books(table, a + b, kind) == Books(table, a, kind) + Books(table, b, kind)
  {
    WeighAppend(op => References(op, kind), table, a, b);
  }

  lemma WeighOne(f: Op -> nat, table: OpTable, id: OpId)
    requires id in table
    ensures Weigh(f, table, [id]) == f(table[id])
  {
    assert [id][1..] == [];
  }

  lemma BooksOne(table: OpTable, id: OpId, kind: Shared)
    requires id in table
    ensures Books(table, [id], kind) == References(table[id], kind)
  {
    WeighOne(op => References(op, kind), table, id);
  }

  /** Only chains matter to the books. */
  lemma BooksSame(table: OpTable, table': OpTable, ids: seq<OpId>, kind: Shared)
    requires Known(table, ids) && Known(table', ids)
    requires forall i :: 0 <= i < |ids| ==> table'[ids[i]].src == table[ids[i]].src && table'[ids[i]].dst == table[ids[i]].dst
    ensures Books(table', ids, kind) == Books(table, ids, kind)
  {
    WeighSame(op => References(op, kind), table, table', ids);
  }

  lemma BooksEmpty(table: OpTable, ids: seq<OpId>, kind: Shared)
    requires Known(table, ids) && forall i :: 0 <= i < |ids| ==> table[ids[i]] == RESET_OP
    ensures Books(table, ids, kind) == 0
  {
    WeighBound(op => References(op, kind), table, ids, 0);
  }

  /** Operations with at most sgl segments a side hold at most that many mbufs. */
  lemma BooksBound(table: OpTable, ids: seq<OpId>, sgl: nat)
    requires Known(table, ids)
    requires forall i :: 0 <= i < |ids| ==> |table[ids[i]].src| <= sgl && |table[ids[i]].dst| <= sgl
    ensures Books(table, ids, DecompressedInfo) + Books(table, ids, CompressedInfo) <= 2 * (sgl * |ids|)
    decreases |ids|
  {
    if ids != [] {
      BooksBound(table, ids[1..], sgl);
      CountKindsAll(table[ids[0]].src);
      CountKindsAll(table[ids[0]].dst);
      MulNext(sgl, |ids| - 1);
    }
  }

  // ----- operations under construction -----

  /** An operation with complete chains; until its transform is set, its length is not either. */
  function BuiltOp(src: seq<Mbuf>, dst: seq<Mbuf>, x: Xform): Op
  {
    Op(src, SumLen(Slices(src)), dst, SumLen(Slices(dst)), if x == Unset then 0 else SumLen(Slices(src)), x, 0, NotProcessed)
  }

  /** k operations with the mbufs srcs and dsts dealt to them, n to a chain; the first `done` of
      them are complete. */
  function Built(srcs: seq<Mbuf>, dsts: seq<Mbuf>, n: nat, k: nat, done: nat, x: Xform): (ops: seq<Op>)
    ensures |ops| == k
  {
    var src, dst := Deal(srcs, n, k), Deal(dsts, n, k);
    seq(k, q requires 0 <= q < k => BuiltOp(src[q], dst[q], if q < done then x else Unset))
  }

  /** The operations named by ids have exactly these contents. */
  ghost predicate Holds(table: OpTable, ids: seq<OpId>, ops: seq<Op>)
  {
    |ids| == |ops| && forall q :: 0 <= q < |ids| ==> ids[q] in table && table[ids[q]] == ops[q]
  }

  lemma HoldsStep(table: OpTable, ids: seq<OpId>, ops: seq<Op>, q: nat, op: Op)
    requires Distinct(ids) && Holds(table, ids, ops) && q < |ids|
    ensures Holds(table[ids[q] := op], ids, ops[q := op])
  {
  }

  lemma SlicesSnoc(chain: seq<Mbuf>, m: Mbuf)
    ensures Slices(chain + [m]) == Slices(chain) + [m.data]
    ensures SumLen(Slices(chain + [m])) == SumLen(Slices(chain)) + m.data.len
  {
    assert Slices(chain + [m]) == Slices(chain) + [m.data];
    SumLenAppend(Slices(chain), [m.data]);
    assert [m.data][1..] == [];
  }

  function Appended(op: Op, toSource: bool, m: Mbuf): Op
  {
    if toSource then op.(src := op.src + [m], srcPktLen := op.srcPktLen + m.data.len)
    else op.(dst := op.dst + [m], dstPktLen := op.dstPktLen + m.data.len)
  }

  function Updated(op: Op, x: Xform): Op
  {
    op.(srcLength := op.srcPktLen, xform := x)
  }

  lemma BuiltStart(n: nat, k: nat, x: Xform)
    ensures Built([], [], n, k, 0, x) == seq(k, q => RESET_OP)
  {
    DealNothing<Mbuf>(n, k);
  }

  /** The next source mbuf goes to operation Quot(|srcs|, n), which still has room. */
  lemma BuiltSrc(srcs: seq<Mbuf>, n: nat, k: nat, m: Mbuf, x: Xform)
    requires n > 0 && Quot(|srcs|, n) < k
    ensures var ops, g := Built(srcs, [], n, k, 0, x), Quot(|srcs|, n);
            |ops[g].src| < n && Built(srcs + [m], [], n, k, 0, x) == ops[g := Appended(ops[g], true, m)]
  {
    hide Deal;
    var ops, g := Built(srcs, [], n, k, 0, x), Quot(|srcs|, n);
    DealSnoc(srcs, m, n, k);
    SlicesSnoc(Deal(srcs, n, k)[g], m);
    forall q | 0 <= q < k
      ensures Built(srcs + [m], [], n, k, 0, x)[q] == ops[g := Appended(ops[g], true, m)][q]
    {
    }
  }

  lemma BuiltDst(srcs: seq<Mbuf>, dsts: seq<Mbuf>, n: nat, k: nat, done: nat, m: Mbuf, x: Xform)
    requires n > 0 && Quot(|dsts|, n) < k
    ensures var ops, g := Built(srcs, dsts, n, k, done, x), Quot(|dsts|, n);
            |ops[g].dst| < n && Built(srcs, dsts + [m], n, k, done, x) == ops[g := Appended(ops[g], false, m)]
  {
    hide Deal;
    var ops, g := Built(srcs, dsts, n, k, done, x), Quot(|dsts|, n);
    DealSnoc(dsts, m, n, k);
    SlicesSnoc(Deal(dsts, n, k)[g], m);
    forall q | 0 <= q < k
      ensures Built(srcs, dsts + [m], n, k, done, x)[q] == ops[g := Appended(ops[g], false, m)][q]
    {
    }
  }

  /** Completing operation `done` completes exactly the first done + 1. */
  lemma BuiltUpdate(srcs: seq<Mbuf>, dsts: seq<Mbuf>, n: nat, k: nat, done: nat, x: Xform)
    requires done < k && x != Unset
    ensures var ops := Built(srcs, dsts, n, k, done, x);
            Built(srcs, dsts, n, k, done + 1, x) == ops[done := Updated(ops[done], x)]
  {
  }

  /** Dealing mbufs deals their slices. */
  lemma {:induction false} SlicesOfDeal(ms: seq<Mbuf>, n: nat, k: nat)
    ensures forall q :: 0 <= q < k ==> Slices(Deal(ms, n, k)[q]) == Deal(Slices(ms), n, k)[q]
    decreases k
  {
    if k > 0 {
      if |ms| <= n {
        SlicesOfDeal([], n, k - 1);
        assert Slices([]) == [];
      } else {
        SlicesOfDeal(ms[n..], n, k - 1);
        assert Slices(ms[n..]) == Slices(ms)[n..];
        assert Slices(ms[..n]) == Slices(ms)[..n];
      }
    }
  }

  // ----- what built operations hold -----

  lemma {:induction false} CountKindAppend(a: seq<Mbuf>, b: seq<Mbuf>, kind: Shared)
    ensures CountKind(a + b, kind) == CountKind(a, kind) + CountKind(b, kind)
  {
    if b == [] {
      assert a + b == a;
    } else {
      assert (a + b)[..|a + b| - 1] == a + b[..|b| - 1];
      CountKindAppend(a, b[..|b| - 1], kind);
    }
  }

  lemma CountKindNext(chain: seq<Mbuf>, m: Mbuf)
    ensures forall kind :: CountKind(chain + [m], kind) == CountKind(chain, kind) + (if m.shinfo == kind then 1 else 0)
  {
    assert (chain + [m])[..|chain|] == chain;
  }

  /** References held by chains, counted chain by chain. */
  ghost function CountChains(chains: seq<seq<Mbuf>>, kind: Shared): nat
  {
    if chains == [] then 0 else CountKind(chains[0], kind) + CountChains(chains[1..], kind)
  }

  lemma {:induction false} CountDealt(ms: seq<Mbuf>, n: nat, k: nat, kind: Shared)
    requires n > 0 && CeilDiv(|ms|, n) <= k
    ensures CountChains(Deal(ms, n, k), kind) == CountKind(ms, kind)
    decreases k
  {
    if k > 0 {
      if |ms| <= n {
        CountDealt([], n, k - 1, kind);
        assert Deal(ms, n, k)[1..] == Deal([], n, k - 1);
      } else {
        CountDealt(ms[n..], n, k - 1, kind);
        assert Deal(ms, n, k)[1..] == Deal(ms[n..], n, k - 1);
        CountKindAppend(ms[..n], ms[n..], kind);
        assert ms == ms[..n] + ms[n..];
      }
    }
  }

  lemma {:induction false} BooksOfHeld(table: OpTable, ids: seq<OpId>, ops: seq<Op>, srcs: seq<seq<Mbuf>>, dsts: seq<seq<Mbuf>>, kind: Shared)
    requires Holds(table, ids, ops) && |srcs| == |dsts| == |ops|
    requires forall q :: 0 <= q < |ops| ==> ops[q].src == srcs[q] && ops[q].dst == dsts[q]
    ensures Known(table, ids) && Books(table, ids, kind) == CountChains(srcs, kind) + CountChains(dsts, kind)
    decreases |ids|
  {
    if ids != [] {
      assert ops[0].src == srcs[0];
      BooksOfHeld(table, ids[1..], ops[1..], srcs[1..], dsts[1..], kind);
    }
  }

  lemma BooksOfBuilt(table: OpTable, ids: seq<OpId>, srcs: seq<Mbuf>, dsts: seq<Mbuf>, n: nat, done: nat, x: Xform, kind: Shared)
    requires n > 0 && CeilDiv(|srcs|, n) <= |ids| && CeilDiv(|dsts|, n) <= |ids|
    requires Holds(table, ids, Built(srcs, dsts, n, |ids|, done, x))
    ensures Known(table, ids) && Books(table, ids, kind) == CountKind(srcs, kind) + CountKind(dsts, kind)
  {
    var k := |ids|;
    BooksOfHeld(table, ids, Built(srcs, dsts, n, k, done, x), Deal(srcs, n, k), Deal(dsts, n, k), kind);
    CountDealt(srcs, n, k, kind);
    CountDealt(dsts, n, k, kind);
  }

  // ----- device memory lent to operations -----

  /** The buffers of a chain that belong to the device's memory, in order. */
  function Lent(chain: seq<Mbuf>): seq<Slice>
  {
    if chain == [] then []
    else (if chain[0].shinfo == CompressedInfo then [chain[0].data] else []) + Lent(chain[1..])
  }

  /** The mbufs of a chain, and of the chains of these operations: of each its sources, then its
      destinations. */
  function MbufIds(chain: seq<Mbuf>): (ids: seq<nat>)
    ensures |ids| == |chain|
  {
    seq(|chain|, i requires 0 <= i < |chain| => chain[i].id)
  }

  ghost function MbufsOf(table: OpTable, ids: seq<OpId>): seq<nat>
    requires Known(table, ids)
  {
    if ids == [] then [] else MbufIds(table[ids[0]].src) + MbufIds(table[ids[0]].dst) + MbufsOf(table, ids[1..])
  }

  /** One more mbuf, or the mbufs of one more operation, back in the pool. */
  lemma MbufReturned(pool: seq<nat>, gone: seq<Mbuf>, m: Mbuf)
    ensures pool + MbufIds(gone + [m]) == pool + MbufIds(gone) + [m.id]
  {
  }

  lemma MbufsReturned(pool: seq<nat>, table: OpTable, ids: seq<OpId>)
    requires Known(table, ids) && ids != []
    ensures pool + MbufIds(table[ids[0]].src) + MbufIds(table[ids[0]].dst) + MbufsOf(table, ids[1..]) == pool + MbufsOf(table, ids)
  {
  }

  /** Destination buffers lent by the device to the operations named by ids. */
  ghost function LentTo(table: OpTable, ids: seq<OpId>): seq<Slice>
    requires Known(table, ids)
  {
    if ids == [] then [] else Lent(table[ids[0]].dst) + LentTo(table, ids[1..])
  }

  lemma {:induction false} LentAppend(a: seq<Mbuf>, b: seq<Mbuf>)
    ensures Lent(a + b) == Lent(a) + Lent(b)
  {
    if a == [] {
      assert a + b == b;
    } else {
      ConcatTail(a, b);
      LentAppend(a[1..], b);
      ConcatAssociative(if a[0].shinfo == CompressedInfo then [a[0].data] else [], Lent(a[1..]), Lent(b));
    }
  }

  lemma {:induction false} LentToAppend(table: OpTable, a: seq<OpId>, b: seq<OpId>)
    requires Known(table, a) && Known(table, b)
    ensures Known(table, a + b) && LentTo(table, a + b) == LentTo(table, a) + LentTo(table, b)
  {
    if a == [] {
      assert a + b == b;
    } else {
      ConcatTail(a, b);
      LentToAppend(table, a[1..], b);
      ConcatAssociative(Lent(table[a[0]].dst), LentTo(table, a[1..]), LentTo(table, b));
    }
  }

  lemma {:induction false} LentToSame(table: OpTable, table': OpTable, ids: seq<OpId>)
    requires Known(table, ids) && Known(table', ids)
    requires forall i :: 0 <= i < |ids| ==> table'[ids[i]].dst == table[ids[i]].dst
    ensures LentTo(table', ids) == LentTo(table, ids)
  {
    if ids != [] {
      LentToSame(table, table', ids[1..]);
    }
  }

  ghost function LentChains(chains: seq<seq<Mbuf>>): seq<Slice>
  {
    if chains == [] then [] else Lent(chains[0]) + LentChains(chains[1..])
  }

  lemma {:induction false} LentDealt(ms: seq<Mbuf>, n: nat, k: nat)
    requires n > 0 && CeilDiv(|ms|, n) <= k
    ensures LentChains(Deal(ms, n, k)) == Lent(ms)
    decreases k
  {
    if k > 0 {
      if |ms| <= n {
        LentDealt([], n, k - 1);
        assert Deal(ms, n, k)[1..] == Deal([], n, k - 1);
      } else {
        LentDealt(ms[n..], n, k - 1);
        assert Deal(ms, n, k)[1..] == Deal(ms[n..], n, k - 1);
        LentAppend(ms[..n], ms[n..]);
        assert ms == ms[..n] + ms[n..];
      }
    }
  }

  lemma {:induction false} LentToHeld(table: OpTable, ids: seq<OpId>, ops: seq<Op>, dsts: seq<seq<Mbuf>>)
    requires Holds(table, ids, ops) && |dsts| == |ops|
    requires forall q :: 0 <= q < |ops| ==> ops[q].dst == dsts[q]
    ensures Known(table, ids) && LentTo(table, ids) == LentChains(dsts)
    decreases |ids|
  {
    if ids != [] {
      LentToHeld(table, ids[1..], ops[1..], dsts[1..]);
    }
  }

  lemma LentToBuilt(table: OpTable, ids: seq<OpId>, srcs: seq<Mbuf>, dsts: seq<Mbuf>, n: nat, done: nat, x: Xform)
    requires n > 0 && CeilDiv(|dsts|, n) <= |ids| && Holds(table, ids, Built(srcs, dsts, n, |ids|, done, x))
    ensures Known(table, ids) && LentTo(table, ids) == Lent(dsts)
  {
    LentToHeld(table, ids, Built(srcs, dsts, n, |ids|, done, x), Deal(dsts, n, |ids|));
    LentDealt(dsts, n, |ids|);
  }
}
