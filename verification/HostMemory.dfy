/** Host memory as the accelerator sees it: regions of bytes, and slices of them that mbufs
    attach as external buffers. Reading a chain gathers its slices in order; writing a chain
    fills its slices in order. */
module HostMemory {
  import opened Sequences

  newtype byte = x: int | 0 <= x < 256

  type Region = nat

  /** Region contents; every region starts at offset 0 of its base address. */
  type Memory = map<Region, seq<byte>>

  /** A virtual address: a position inside a region. */
  datatype Addr = Addr(region: Region, offset: nat)

  datatype Slice = Slice(region: Region, start: nat, len: nat)

  ghost predicate Within(m: Memory, s: Slice)
  {
    s.region in m && s.start + s.len <= |m[s.region]|
  }

  ghost predicate AllWithin(m: Memory, ss: seq<Slice>)
  {
    forall i :: 0 <= i < |ss| ==> Within(m, ss[i])
  }

  ghost predicate Disjoint(a: Slice, b: Slice)
  {
    a.region != b.region || a.start + a.len <= b.start || b.start + b.len <= a.start
  }

  /** Every slice of xs is disjoint from every slice of ys. */
  ghost predicate Apart(xs: seq<Slice>, ys: seq<Slice>)
  {
    forall i, j :: 0 <= i < |xs| && 0 <= j < |ys| ==> Disjoint(xs[i], ys[j])
  }

  ghost predicate PairwiseDisjoint(ss: seq<Slice>)
  {
    forall i, j :: 0 <= i < j < |ss| ==> Disjoint(ss[i], ss[j])
  }

  function SumLen(ss: seq<Slice>): nat
  {
    if ss == [] then 0 else ss[0].len + SumLen(ss[1..])
  }

  function Read(m: Memory, s: Slice): (r: seq<byte>)
    requires Within(m, s)
    ensures |r| == s.len
  {
    m[s.region][s.start..s.start + s.len]
  }

  function Gather(m: Memory, ss: seq<Slice>): (r: seq<byte>)
    requires AllWithin(m, ss)
    ensures |r| == SumLen(ss)
  {
    if ss == [] then [] else Read(m, ss[0]) + Gather(m, ss[1..])
  }

  /** Store data at the front of slice s. */
  function Write(m: Memory, s: Slice, data: seq<byte>): (r: Memory)
    requires Within(m, s) && |data| <= s.len
    ensures SameShape(m, r)
  {
    var was := m[s.region];
    m[s.region := was[..s.start] + data + was[s.start + |data|..]]
  }

  /** Fill the slices in order with data. */
  function Scatter(m: Memory, ss: seq<Slice>, data: seq<byte>): (r: Memory)
    requires AllWithin(m, ss) && |data| <= SumLen(ss)
    ensures SameShape(m, r)
    decreases |ss|
  {
    if ss == [] then m
    else
      var k := Min(|data|, ss[0].len);
      Scatter(Write(m, ss[0], data[..k]), ss[1..], data[k..])
  }

  /** The part of the slices that the first n bytes occupy. */
  function Pieces(ss: seq<Slice>, n: nat): seq<Slice>
    decreases |ss|
  {
    if n == 0 || ss == [] then []
    else
      var k := Min(n, ss[0].len);
      [ss[0].(len := k)] + Pieces(ss[1..], n - k)
  }

  /** Same regions, same region lengths. */
  ghost predicate SameShape(m: Memory, m': Memory)
  {
    m.Keys == m'.Keys && forall r :: r in m ==> |m'[r]| == |m[r]|
  }

  /** m' keeps every region of m unchanged and may add new ones. */
  ghost predicate Extends(m: Memory, m': Memory)
  {
    forall r :: r in m ==> r in m' && m'[r] == m[r]
  }

  lemma {:induction false} PiecesApart(xs: seq<Slice>, ss: seq<Slice>, n: nat)
    requires Apart(xs, ss)
    ensures Apart(xs, Pieces(ss, n))
    decreases |ss|
  {
    if n != 0 && ss != [] {
      var k := Min(n, ss[0].len);
      PiecesApart(xs, ss[1..], n - k);
      assert forall i :: 0 <= i < |xs| ==> Disjoint(xs[i], ss[0].(len := k)) by {
        assert forall i :: 0 <= i < |xs| ==> Disjoint(xs[i], ss[0]);
      }
    }
  }

  ghost predicate Reads(m: Memory, ss: seq<Slice>, bytes: seq<byte>)
  {
    AllWithin(m, ss) && Gather(m, ss) == bytes
  }

  lemma GatherCons(m: Memory, s: Slice, ss: seq<Slice>)
    requires Within(m, s) && AllWithin(m, ss)
    ensures AllWithin(m, [s] + ss) && Gather(m, [s] + ss) == Read(m, s) + Gather(m, ss)
  {
    assert ([s] + ss)[1..] == ss;
  }

  lemma GatherOne(m: Memory, s: Slice)
    requires Within(m, s)
    ensures Gather(m, [s]) == Read(m, s)
  {
    assert [s][1..] == [];
    assert Gather(m, [s]) == Read(m, s) + Gather(m, [s][1..]);
  }

  lemma {:induction false} GatherAppend(m: Memory, a: seq<Slice>, b: seq<Slice>)
    requires AllWithin(m, a) && AllWithin(m, b)
    ensures AllWithin(m, a + b) && Gather(m, a + b) == Gather(m, a) + Gather(m, b)
  {
    if a == [] {
      assert a + b == b;
    } else {
      ConcatTail(a, b);
      GatherAppend(m, a[1..], b);
      ConcatAssociative(Read(m, a[0]), Gather(m, a[1..]), Gather(m, b));
    }
  }

  lemma {:induction false} SumLenAppend(a: seq<Slice>, b: seq<Slice>)
    ensures SumLen(a + b) == SumLen(a) + SumLen(b)
  {
    if a == [] {
      assert a + b == b;
    } else {
      assert (a + b)[1..] == a[1..] + b;
      SumLenAppend(a[1..], b);
    }
  }

  /** Reading depends only on the regions read. */
  lemma {:induction false} GatherSame(m: Memory, m': Memory, ss: seq<Slice>)
    requires AllWithin(m, ss)
    requires forall i :: 0 <= i < |ss| ==> ss[i].region in m' && m'[ss[i].region] == m[ss[i].region]
    ensures AllWithin(m', ss) && Gather(m', ss) == Gather(m, ss)
  {
    if ss != [] {
      GatherSame(m, m', ss[1..]);
      assert Read(m', ss[0]) == Read(m, ss[0]);
    }
  }

  lemma ReadAfterWrite(m: Memory, s: Slice, data: seq<byte>, t: Slice)
    requires Within(m, s) && |data| <= s.len && Within(m, t)
    ensures Disjoint(s, t) ==> Read(Write(m, s, data), t) == Read(m, t)
    ensures t == s.(len := |data|) ==> Read(Write(m, s, data), t) == data
  {
    if t.region == s.region {
      var was, now := m[s.region], Write(m, s, data)[s.region];
      forall i | t.start <= i < t.start + t.len
        ensures Disjoint(s, t) ==> now[i] == was[i]
        ensures t == s.(len := |data|) ==> now[i] == data[i - t.start]
      {
        OverwrittenAt(was, s.start, data, i);
      }
      if Disjoint(s, t) {
        SamePart(was, now, t.start, t.len);
      }
      if t == s.(len := |data|) {
        PartIs(now, t.start, data);
      }
    }
  }

  lemma SamePart(was: seq<byte>, now: seq<byte>, start: nat, len: nat)
    requires start + len <= |was| == |now| && forall i :: start <= i < start + len ==> now[i] == was[i]
    ensures now[start..start + len] == was[start..start + len]
  {
  }

  lemma PartIs(now: seq<byte>, start: nat, data: seq<byte>)
    requires start + |data| <= |now| && forall i :: start <= i < start + |data| ==> now[i] == data[i - start]
    ensures now[start..start + |data|] == data
  {
  }

  lemma OverwrittenAt(was: seq<byte>, start: nat, data: seq<byte>, i: nat)
    requires start + |data| <= |was| && i < |was|
    ensures (was[..start] + data + was[start + |data|..])[i] == if start <= i < start + |data| then data[i - start] else was[i]
  {
  }

  lemma {:induction false} GatherAfterWrite(m: Memory, s: Slice, data: seq<byte>, ts: seq<Slice>)
    requires Within(m, s) && |data| <= s.len && AllWithin(m, ts) && Apart([s], ts)
    ensures AllWithin(Write(m, s, data), ts)
    ensures Gather(Write(m, s, data), ts) == Gather(m, ts)
  {
    if ts != [] {
      assert Disjoint([s][0], ts[0]);
      ReadAfterWrite(m, s, data, ts[0]);
      GatherAfterWrite(m, s, data, ts[1..]);
    }
  }

  /** Filling a chain leaves every slice apart from the chain as it was. */
  lemma {:induction false} GatherAfterScatter(m: Memory, ss: seq<Slice>, data: seq<byte>, ts: seq<Slice>)
    requires AllWithin(m, ss) && |data| <= SumLen(ss) && AllWithin(m, ts) && Apart(ss, ts)
    ensures AllWithin(Scatter(m, ss, data), ts)
    ensures Gather(Scatter(m, ss, data), ts) == Gather(m, ts)
    decreases |ss|
  {
    if ss != [] {
      var k := Min(|data|, ss[0].len);
      var m1 := Write(m, ss[0], data[..k]);
      GatherAfterWrite(m, ss[0], data[..k], ts);
      GatherAfterScatter(m1, ss[1..], data[k..], ts);
    }
  }

  lemma {:induction false} ScatterElsewhere(m: Memory, ss: seq<Slice>, data: seq<byte>, r: Region)
    requires AllWithin(m, ss) && |data| <= SumLen(ss) && r in m
    requires forall i :: 0 <= i < |ss| ==> ss[i].region != r
    ensures Scatter(m, ss, data)[r] == m[r]
    decreases |ss|
  {
    if ss != [] {
      var k := Min(|data|, ss[0].len);
      ScatterElsewhere(Write(m, ss[0], data[..k]), ss[1..], data[k..], r);
    }
  }

  /** What was scattered over a chain of disjoint slices can be gathered back. */
  lemma {:induction false} GatherScattered(m: Memory, ss: seq<Slice>, data: seq<byte>)
    requires AllWithin(m, ss) && |data| <= SumLen(ss) && PairwiseDisjoint(ss)
    ensures AllWithin(Scatter(m, ss, data), Pieces(ss, |data|))
    ensures Gather(Scatter(m, ss, data), Pieces(ss, |data|)) == data
    decreases |ss|
  {
    var m' := Scatter(m, ss, data);
    if ss != [] && data != [] {
      var k := Min(|data|, ss[0].len);
      var m1 := Write(m, ss[0], data[..k]);
      GatherScattered(m1, ss[1..], data[k..]);
      HeadSurvives(m1, m', ss, k, data);
      ReadAfterWrite(m, ss[0], data[..k], ss[0].(len := k));
      GatherGlue(m', ss[0].(len := k), Pieces(ss[1..], |data[k..]|), data, k);
    }
  }

  lemma GatherGlue(m: Memory, head: Slice, rest: seq<Slice>, data: seq<byte>, k: nat)
    requires k <= |data| && Within(m, head) && AllWithin(m, rest)
    requires Read(m, head) == data[..k] && Gather(m, rest) == data[k..]
    ensures AllWithin(m, [head] + rest) && Gather(m, [head] + rest) == data
  {
    GatherCons(m, head, rest);
    assert data[..k] + data[k..] == data;
  }

  /** The first slice keeps its bytes while the later ones are being filled. */
  lemma HeadSurvives(m1: Memory, m': Memory, ss: seq<Slice>, k: nat, data: seq<byte>)
    requires ss != [] && k <= ss[0].len && k <= |data|
    requires AllWithin(m1, ss) && |data| - k <= SumLen(ss[1..]) && PairwiseDisjoint(ss)
    requires m' == Scatter(m1, ss[1..], data[k..])
    ensures Read(m', ss[0].(len := k)) == Read(m1, ss[0].(len := k))
  {
    var head := [ss[0].(len := k)];
    assert forall j :: 1 <= j < |ss| ==> Disjoint(ss[0], ss[j]);
    GatherAfterScatter(m1, ss[1..], data[k..], head);
    GatherOne(m1, head[0]);
    GatherOne(m', head[0]);
  }

  /** The segments of seg bytes (the last may be shorter) covering n bytes from start. */
  function Segments(r: Region, start: nat, n: nat, seg: nat): seq<Slice>
    requires seg > 0
    decreases n
  {
    if n == 0 then []
    else if n <= seg then [Slice(r, start, n)]
    else [Slice(r, start, seg)] + Segments(r, start + seg, n - seg, seg)
  }

  lemma {:induction false} SegmentsShape(r: Region, start: nat, n: nat, seg: nat)
    requires seg > 0
    ensures |Segments(r, start, n, seg)| == CeilDiv(n, seg)
    ensures SumLen(Segments(r, start, n, seg)) == n
    ensures forall s :: s in Segments(r, start, n, seg) ==>
              s.region == r && start <= s.start && s.start + s.len <= start + n && 0 < s.len <= seg
    decreases n
  {
    if n > seg {
      SegmentsShape(r, start + seg, n - seg, seg);
      assert Segments(r, start, n, seg)[1..] == Segments(r, start + seg, n - seg, seg);
    } else if n > 0 {
      assert Segments(r, start, n, seg)[1..] == [];
    }
  }

  lemma {:induction false} SegmentsAppend(r: Region, start: nat, a: nat, b: nat, seg: nat)
    requires seg > 0 && (Multiple(a, seg) || b == 0)
    ensures Segments(r, start, a + b, seg) == Segments(r, start, a, seg) + Segments(r, start + a, b, seg)
    decreases a
  {
    if a > seg {
      SegmentsAppend(r, start + seg, a - seg, b, seg);
    }
  }

  lemma GatherNext(m: Memory, r: Region, start: nat, n: nat, seg: nat, rest: seq<Slice>)
    requires r in m && seg <= n && start + n <= |m[r]|
    requires AllWithin(m, rest) && Gather(m, rest) == m[r][start + seg..start + n]
    ensures AllWithin(m, [Slice(r, start, seg)] + rest)
    ensures Gather(m, [Slice(r, start, seg)] + rest) == m[r][start..start + n]
  {
    hide Gather;
    GatherCons(m, Slice(r, start, seg), rest);
    JoinPieces(m[r], start, start + seg, start + n);
  }

  lemma SegmentsNext(r: Region, start: nat, n: nat, seg: nat)
    requires 0 < seg < n
    ensures Segments(r, start, n, seg) == [Slice(r, start, seg)] + Segments(r, start + seg, n - seg, seg)
  {
  }

  /** The segments read, in order, exactly the bytes they cover. */
  lemma {:induction false} GatherSegments(m: Memory, r: Region, start: nat, n: nat, seg: nat)
    requires seg > 0 && r in m && start + n <= |m[r]|
    ensures AllWithin(m, Segments(r, start, n, seg))
    ensures Gather(m, Segments(r, start, n, seg)) == m[r][start..start + n]
    decreases n
  {
    if n > seg {
      GatherSegments(m, r, start + seg, n - seg, seg);
      SegmentsNext(r, start, n, seg);
      hide Gather, Segments, AllWithin;
      GatherNext(m, r, start, n, seg, Segments(r, start + seg, n - seg, seg));
    } else if n > 0 {
      GatherOne(m, Slice(r, start, n));
    }
  }

  /** Cutting a list of disjoint slices into pieces leaves all pieces apart from each other. */
  lemma {:induction false} ChunksApart(ss: seq<Slice>, n: nat)
    requires n > 0 && PairwiseDisjoint(ss)
    ensures forall i :: 0 <= i < |Chunks(ss, n)| ==> PairwiseDisjoint(Chunks(ss, n)[i])
    ensures forall i, j :: 0 <= i < |Chunks(ss, n)| && 0 <= j < |Chunks(ss, n)| && i != j ==>
              Apart(Chunks(ss, n)[i], Chunks(ss, n)[j])
    decreases |ss|
  {
    if |ss| > n {
      ChunksApart(ss[n..], n);
      forall j | 0 <= j < |Chunks(ss[n..], n)|
        ensures Apart(ss[..n], Chunks(ss[n..], n)[j]) && Apart(Chunks(ss[n..], n)[j], ss[..n])
      {
        HeadApart(ss, n, j);
      }
    }
  }

  lemma HeadApart(ss: seq<Slice>, n: nat, j: nat)
    requires 0 < n < |ss| && PairwiseDisjoint(ss) && j < |Chunks(ss[n..], n)|
    ensures Apart(ss[..n], Chunks(ss[n..], n)[j]) && Apart(Chunks(ss[n..], n)[j], ss[..n])
  {
    var tail := Chunks(ss[n..], n)[j];
    forall a, b | 0 <= a < n && 0 <= b < |tail|
      ensures Disjoint(ss[a], tail[b])
    {
      var q := ChunkFrom(ss[n..], n, j, b);
      assert Disjoint(ss[a], ss[n + q]);
    }
  }

  /** Group by group, these slices read as these data. */
  ghost predicate AllRead(m: Memory, groups: seq<seq<Slice>>, data: seq<seq<byte>>)
  {
    |groups| == |data| && forall i :: 0 <= i < |groups| ==> Reads(m, groups[i], data[i])
  }

  lemma AllReadCons(m: Memory, group: seq<Slice>, groups: seq<seq<Slice>>, bytes: seq<byte>, data: seq<seq<byte>>)
    requires Reads(m, group, bytes) && AllRead(m, groups, data)
    ensures AllRead(m, [group] + groups, [bytes] + data)
  {
  }

  /** Cutting a span into segments and those into groups of sgl cuts the bytes into pieces of g. */
  lemma {:induction false} GroupedSegments(m: Memory, r: Region, start: nat, n: nat, seg: nat, sgl: nat, g: nat)
    requires seg > 0 && sgl > 0 && g == seg * sgl && r in m && start + n <= |m[r]|
    ensures g > 0 && AllRead(m, Chunks(Segments(r, start, n, seg), sgl), Chunks(m[r][start..start + n], g))
    decreases n
  {
    MulPositive(seg, sgl);
    if n > g {
      FirstGroup(m, r, start, n, seg, sgl, g);
      var ss, data := Segments(r, start, n, seg), m[r][start..start + n];
      GroupedSegments(m, r, start + g, n - g, seg, sgl, g);
      AllReadCons(m, ss[..sgl], Chunks(ss[sgl..], sgl), data[..g], Chunks(data[g..], g));
    } else {
      OneGroup(m, r, start, n, seg, sgl, g);
    }
  }

  lemma OneGroup(m: Memory, r: Region, start: nat, n: nat, seg: nat, sgl: nat, g: nat)
    requires seg > 0 && sgl > 0 && g == seg * sgl && g > 0 && r in m && start + n <= |m[r]| && n <= g
    ensures AllRead(m, Chunks(Segments(r, start, n, seg), sgl), Chunks(m[r][start..start + n], g))
  {
    SegmentsShape(r, start, n, seg);
    GatherSegments(m, r, start, n, seg);
    CeilDivLeast(n, seg, sgl);
  }

  lemma FirstGroup(m: Memory, r: Region, start: nat, n: nat, seg: nat, sgl: nat, g: nat)
    requires seg > 0 && sgl > 0 && g == seg * sgl && g > 0 && r in m && start + n <= |m[r]| && n > g
    ensures var ss, data := Segments(r, start, n, seg), m[r][start..start + n];
            && |ss| > sgl && Reads(m, ss[..sgl], data[..g]) && ss[sgl..] == Segments(r, start + g, n - g, seg)
            && data[g..] == m[r][start + g..start + n]
  {
    hide Segments, Gather;
    FullSegments(r, start, seg, sgl, g);
    MultipleOfProduct(sgl, seg);
    SegmentsAppend(r, start, g, n - g, seg);
    SegmentsShape(r, start + g, n - g, seg);
    CeilDivBounds(n - g, seg);
    SplitAt(Segments(r, start, g, seg), Segments(r, start + g, n - g, seg), Segments(r, start, n, seg), sgl);
    GatherSegments(m, r, start, g, seg);
    PartOfPart(m[r], start, start + n, g);
  }

  lemma SplitAt<T>(a: seq<T>, b: seq<T>, s: seq<T>, n: nat)
    requires s == a + b && |a| == n
    ensures s[..n] == a && s[n..] == b
  {
  }

  lemma FullSegments(r: Region, start: nat, seg: nat, sgl: nat, g: nat)
    requires seg > 0 && g == seg * sgl
    ensures |Segments(r, start, g, seg)| == sgl
  {
    assert g == sgl * seg;
    SegmentsShape(r, start, g, seg);
    CeilDivAbove(g, seg, sgl);
    CeilDivLeast(g, seg, sgl);
  }
}
