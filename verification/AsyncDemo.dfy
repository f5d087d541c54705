/** The asynchronous evaluation of the demo application: which queue pairs it uses, how it splits the
    input among them, how it checks the pieces, and how many zones it preallocates for them. */
module AsyncDemo {
  import opened Sequences
  import opened HostMemory
  import opened MemoryPool
  import opened Driver
  import opened DeviceMemory
  import opened Config
  import opened Operations
  import opened Reclaim
  import opened Results
  import opened ZoneStack
  import opened SharedZones
  import opened CallHistories

  // ----- the walk over queue pairs -----

  datatype Pair = Pair(device: nat, queuePair: nat)

  /** Queue pairs q, q + 1, ... of device d, which has numQps of them. */
  function DevicePairs(d: nat, q: nat, numQps: nat): (r: seq<Pair>)
    requires q <= numQps
    ensures |r| == numQps - q
  {
    seq(numQps - q, i requires 0 <= i < numQps - q => Pair(d, q + i))
  }

  /** All queue pairs of the devices from d on, device by device. */
  function PairsFrom(numQps: seq<nat>, d: nat): seq<Pair>
    requires d <= |numQps|
    decreases |numQps| - d
  {
    if d == |numQps| then [] else DevicePairs(d, 0, numQps[d]) + PairsFrom(numQps, d + 1)
  }

  /** The pairs still to come when the walk stands at (d, q). */
  function PairsAfter(numQps: seq<nat>, d: nat, q: nat): seq<Pair>
    requires d <= |numQps| && (d < |numQps| ==> q <= numQps[d])
  {
    if d == |numQps| then [] else DevicePairs(d, q, numQps[d]) + PairsFrom(numQps, d + 1)
  }

  /** The enumeration lists every queue pair exactly once. */
  lemma {:induction false} PairsExact(numQps: seq<nat>, d: nat)
    requires d <= |numQps|
    ensures Distinct(PairsFrom(numQps, d))
    ensures forall p :: p in PairsFrom(numQps, d) <==> d <= p.device < |numQps| && p.queuePair < numQps[p.device]
    decreases |numQps| - d
  {
    if d < |numQps| {
      PairsExact(numQps, d + 1);
      var mine, rest := DevicePairs(d, 0, numQps[d]), PairsFrom(numQps, d + 1);
      forall i, j | 0 <= i < |mine| && 0 <= j < |rest|
        ensures mine[i] != rest[j]
      {
        assert rest[j] in rest;
      }
      forall p: Pair | p.device == d && p.queuePair < numQps[d]
        ensures p in mine
      {
        assert mine[p.queuePair] == p;
      }
    }
  }

  method Advance(deviceId: nat, queuePairId: nat, numQps: nat) returns (device: nat, queuePair: nat)
    ensures if queuePairId + 1 == numQps then device == deviceId + 1 && queuePair == 0
            else device == deviceId && queuePair == queuePairId + 1
  {
    device, queuePair := deviceId, queuePairId + 1;
    if queuePair == numQps {
      queuePair := 0;
      device := device + 1;
    }
  }

  /** The demo's loops: the first n queue pairs, each once, in order. No device index leaves the list. */
  method Walk(numQps: seq<nat>, n: nat) returns (visited: seq<Pair>)
    requires (forall d :: 0 <= d < |numQps| ==> numQps[d] >= 1) && n <= |PairsFrom(numQps, 0)|
    ensures visited == PairsFrom(numQps, 0)[..n]
  {
    visited := [];
    var deviceId: nat, queuePairId: nat := 0, 0;
    WalkStarts(numQps, visited);
    hide PairsFrom, PairsAfter;
    while |visited| < n
      invariant |visited| <= n && deviceId <= |numQps| && (deviceId < |numQps| ==> queuePairId < numQps[deviceId])
      invariant visited + PairsAfter(numQps, deviceId, queuePairId) == PairsFrom(numQps, 0)
      decreases n - |visited|
    {
      WalkStep(numQps, deviceId, queuePairId, visited, PairsFrom(numQps, 0));
      visited := visited + [Pair(deviceId, queuePairId)];
      deviceId, queuePairId := Advance(deviceId, queuePairId, numQps[deviceId]);
    }
    Visited(visited, PairsAfter(numQps, deviceId, queuePairId), PairsFrom(numQps, 0));
  }

  lemma Visited(visited: seq<Pair>, left: seq<Pair>, all: seq<Pair>)
    requires visited + left == all
    ensures visited == all[..|visited|]
  {
  }

  lemma WalkStarts(numQps: seq<nat>, visited: seq<Pair>)
    requires visited == []
    ensures visited + PairsAfter(numQps, 0, 0) == PairsFrom(numQps, 0)
  {
  }

  lemma WalkStep(numQps: seq<nat>, d: nat, q: nat, visited: seq<Pair>, all: seq<Pair>)
    requires d <= |numQps| && (d < |numQps| ==> q < numQps[d]) && visited + PairsAfter(numQps, d, q) == all
    requires |visited| < |all|
    ensures d < |numQps|
    ensures var (d', q') := if q + 1 == numQps[d] then (d + 1, 0) else (d, q + 1);
            && visited + [Pair(d, q)] + PairsAfter(numQps, d', q') == all
  {
    hide PairsFrom, DevicePairs;
    var left, rest := DevicePairs(d, q + 1, numQps[d]), PairsFrom(numQps, d + 1);
    NextPair(d, q, numQps[d]);
    ConcatAssociative([Pair(d, q)], left, rest);
    ConcatAssociative(visited, [Pair(d, q)], left + rest);
    if q + 1 == numQps[d] {
      WalkTurns(numQps, d + 1);
      NothingLeft(left, rest);
    }
  }

  lemma NextPair(d: nat, q: nat, numQps: nat)
    requires q < numQps
    ensures DevicePairs(d, q, numQps) == [Pair(d, q)] + DevicePairs(d, q + 1, numQps)
  {
  }

  lemma NothingLeft(left: seq<Pair>, rest: seq<Pair>)
    requires left == []
    ensures left + rest == rest
  {
  }

  lemma WalkTurns(numQps: seq<nat>, d: nat)
    requires d <= |numQps|
    ensures PairsAfter(numQps, d, 0) == PairsFrom(numQps, d)
  {
  }

  // ----- splitting and checking -----

  /** Split the input into n segments, as even as possible. */
  method SplitInput(input: seq<byte>, n: nat) returns (segments: seq<seq<byte>>)
    requires n > 0
    ensures EvenlySplit(input, n, segments)
  {
    var minSegmentSize := |input| / n;
    var extraBytes := |input| % n;
    var inputOffset := 0;
    segments := [];
    assert Flatten(segments) == input[..0];
    hide Flatten;
    while |segments| < n
      invariant |segments| <= n && inputOffset == SharesBefore(|input|, n, |segments|) <= |input|
      invariant Flatten(segments) == input[..inputOffset]
      invariant forall i :: 0 <= i < |segments| ==> |segments[i]| == ShareSize(|input|, n, i)
      decreases n - |segments|
    {
      SharesTotal(|input|, n);
      SharesGrow(|input|, n, |segments| + 1);
      var segmentSize := minSegmentSize + (if |segments| < extraBytes then 1 else 0);
      FlattenSnoc(segments, input[inputOffset..inputOffset + segmentSize]);
      PrefixGrows(input, inputOffset, inputOffset + segmentSize);
      segments := segments + [input[inputOffset..inputOffset + segmentSize]];
      inputOffset := inputOffset + segmentSize;
    }
    SharesTotal(|input|, n);
    assert input[..|input|] == input;
  }

  ghost function TotalSize(parts: seq<seq<byte>>): nat
  {
    if parts == [] then 0 else |parts[0]| + TotalSize(parts[1..])
  }

  lemma {:induction false} TotalIsFlat(parts: seq<seq<byte>>)
    ensures TotalSize(parts) == |Flatten(parts)|
  {
    if parts != [] {
      TotalIsFlat(parts[1..]);
    }
  }

  lemma TotalSnoc(parts: seq<seq<byte>>, p: seq<byte>)
    ensures TotalSize(parts + [p]) == TotalSize(parts) + |p|
  {
    TotalIsFlat(parts);
    TotalIsFlat(parts + [p]);
    FlattenSnoc(parts, p);
  }

  method SumSizes(parts: seq<seq<byte>>) returns (size: nat)
    ensures size == TotalSize(parts)
  {
    size := 0;
    var i := 0;
    while i < |parts|
      invariant i <= |parts| && size == TotalSize(parts[..i])
    {
      TotalSnoc(parts[..i], parts[i]);
      assert parts[..i + 1] == parts[..i] + [parts[i]];
      size := size + |parts[i]|;
      i := i + 1;
    }
    assert parts[..|parts|] == parts;
  }

  /** The check accepts exactly when the pieces, put together, are the input. */
  method CheckPieces(parts: seq<seq<byte>>, input: seq<byte>) returns (status: Status)
    ensures status == OK || status == Invalid
    ensures status == OK <==> Flatten(parts) == input
  {
    TotalIsFlat(parts);
    var size := SumSizes(parts);
    if size != |input| {
      return Invalid;
    }
    var inputOffset, i := 0, 0;
    while i < |parts|
      invariant i <= |parts| && inputOffset == |Flatten(parts[..i])| <= |input|
      invariant Flatten(parts[..i]) == input[..inputOffset]
    {
      PiecesStep(parts, i);
      var next := inputOffset + |parts[i]|;
      if parts[i] != input[inputOffset..next] {
        PieceDiffers(parts, i, input, inputOffset);
        return Invalid;
      }
      PrefixGrows(input, inputOffset, next);
      inputOffset := next;
      i := i + 1;
    }
    assert parts[..i] == parts && input[..inputOffset] == input;
    return OK;
  }

  lemma PiecesStep(parts: seq<seq<byte>>, i: nat)
    requires i < |parts|
    ensures Flatten(parts[..i + 1]) == Flatten(parts[..i]) + parts[i] <= Flatten(parts)
  {
    NextPiece(parts, i);
    SplitSeq(parts, i + 1);
    FrontPieces(parts[..i + 1], parts[i + 1..], parts);
  }

  lemma NextPiece(parts: seq<seq<byte>>, i: nat)
    requires i < |parts|
    ensures Flatten(parts[..i + 1]) == Flatten(parts[..i]) + parts[i]
  {
    assert parts[..i + 1] == parts[..i] + [parts[i]];
    FlattenSnoc(parts[..i], parts[i]);
  }

  lemma FrontPieces(a: seq<seq<byte>>, b: seq<seq<byte>>, parts: seq<seq<byte>>)
    requires parts == a + b
    ensures Flatten(a) <= Flatten(parts)
  {
    FlattenAppend(a, b);
  }

  lemma PieceDiffers(parts: seq<seq<byte>>, i: nat, input: seq<byte>, offset: nat)
    requires i < |parts| && offset == |Flatten(parts[..i])| && offset + |parts[i]| <= |input|
    requires parts[i] != input[offset..offset + |parts[i]|]
    ensures Flatten(parts) != input
  {
    PiecesStep(parts, i);
    assert Flatten(parts)[offset..offset + |parts[i]|] == parts[i];
  }

  // ----- preallocation -----

  /** Zones that worker i of W needs for its segment of a buffer of `total` bytes. */
  function WorkerNeed(total: nat, workers: nat, seg: nat, i: nat): nat
    requires workers > 0 && seg > 0
  {
    CeilDiv(ShareSize(total, workers, i), seg)
  }

  /** Zones that the workers first, first + 1, ..., first + count - 1 need. */
  ghost function RangeNeed(total: nat, workers: nat, seg: nat, first: nat, count: nat): nat
    requires workers > 0 && seg > 0
  {
    if count == 0 then 0 else RangeNeed(total, workers, seg, first, count - 1) + WorkerNeed(total, workers, seg, first + count - 1)
  }

  /** Zones that device d needs: its queue pairs are the next share of the workers. */
  ghost function DeviceNeed(total: nat, workers: nat, devices: nat, seg: nat, d: nat): nat
    requires workers > 0 && devices > 0 && seg > 0
  {
    RangeNeed(total, workers, seg, SharesBefore(workers, devices, d), ShareSize(workers, devices, d))
  }

  /** The bound each device preallocates up to, before it is cut to 16 bits. */
  function PreallocationBound(total: nat, workers: nat, devices: nat, seg: nat): nat
    requires devices > 0 && seg > 0
  {
    CeilDiv(CeilDiv(total, seg) + workers, devices)
  }

  /** The configured bound. */
  function MaxPreallocateMemzones(total: nat, workers: nat, devices: nat, seg: nat): nat
    requires devices > 0 && seg > 0
  {
    PreallocationBound(total, workers, devices, seg) % 0x1_0000
  }

  lemma {:induction false} RangeNeedAtMost(total: nat, workers: nat, seg: nat, first: nat, count: nat, c: nat)
    requires workers > 0 && seg > 0 && forall i: nat :: i < workers ==> WorkerNeed(total, workers, seg, i) <= c
    requires first + count <= workers
    ensures RangeNeed(total, workers, seg, first, count) <= count * c
    decreases count
  {
    if count > 0 {
      RangeNeedAtMost(total, workers, seg, first, count - 1, c);
      assert count * c == (count - 1) * c + c;
    }
  }

  lemma {:induction false} RangeNeedExactly(total: nat, workers: nat, seg: nat, first: nat, count: nat, c: nat)
    requires workers > 0 && seg > 0 && forall i: nat :: i < workers ==> WorkerNeed(total, workers, seg, i) == c
    requires first + count <= workers
    ensures RangeNeed(total, workers, seg, first, count) == count * c
    decreases count
  {
    if count > 0 {
      RangeNeedExactly(total, workers, seg, first, count - 1, c);
      assert count * c == (count - 1) * c + c;
    }
  }

  /** No worker needs more zones than a share rounded up, in segments rounded up. */
  lemma WorkerNeedAtMost(total: nat, workers: nat, seg: nat, i: nat)
    requires workers > 0 && seg > 0
    ensures WorkerNeed(total, workers, seg, i) <= CeilDiv(CeilDiv(total, workers), seg)
  {
    ShareAtMost(total, workers, i);
    CeilDivMonotone(ShareSize(total, workers, i), CeilDiv(total, workers), seg);
  }

  lemma ShareAtMost(total: nat, n: nat, i: nat)
    requires n > 0
    ensures ShareSize(total, n, i) <= CeilDiv(total, n)
  {
    var q, r := total / n, total % n;
    DivisionFact(total, n);
    CeilDivBounds(total, n);
    var c := CeilDiv(total, n);
    QuotientBelow(total, n, q, r, c);
  }

  lemma QuotientBelow(total: nat, n: nat, q: nat, r: nat, c: nat)
    requires n > 0 && total == n * q + r && r < n && c * n >= total
    ensures q <= c && (r > 0 ==> q + 1 <= c)
  {
    assert q * n == n * q && (c + 1) * n == c * n + n;
    if c < q {
      MulMonotone(c + 1, q, n);
    }
  }

  /** k workers with a full share each need no more than the bound when D devices have k each. */
  lemma EvenArithmetic(total: nat, k: nat, devices: nat, seg: nat, c: nat, t: nat, p: nat, m: nat, workers: nat)
    requires devices > 0 && seg > 0 && k > 0 && workers == k * devices
    requires t * seg >= total && p * devices >= t + workers
    requires c > 0 ==> (c - 1) * seg < m
    requires m > 0 ==> (m - 1) * workers < total
    ensures k * c <= p
  {
    if c > 0 {
      // ((c - 1) * seg) * workers <= (m - 1) * workers < total <= t * seg
      MulMonotone((c - 1) * seg, m - 1, workers);
      FewerSegments(c - 1, seg, workers, t);
      EvenShare(c, k, devices, workers, p);
    }
  }

  lemma FewerSegments(a: nat, seg: nat, workers: nat, t: nat)
    requires (a * seg) * workers < t * seg
    ensures a * workers < t
  {
    assert (a * seg) * workers == (a * workers) * seg;
    if a * workers >= t {
      MulMonotone(t, a * workers, seg);
    }
  }

  lemma EvenShare(c: nat, k: nat, devices: nat, workers: nat, p: nat)
    requires c > 0 && devices > 0 && workers == k * devices && (c - 1) * workers + workers < p * devices + devices
    ensures k * c <= p
  {
    assert (c - 1) * workers + workers == c * workers;
    assert c * (k * devices) == (k * c) * devices;
    assert (p + 1) * devices == p * devices + devices;
    if k * c > p {
      MulMonotone(p + 1, k * c, devices);
    }
  }

  /** When the devices divide the workers evenly, each device's bound covers what its queue pairs can
      need together, for every size of the input. */
  lemma EvenDevicesSuffice(total: nat, workers: nat, devices: nat, seg: nat, d: nat)
    requires devices > 0 && seg > 0 && workers > 0 && workers % devices == 0 && d < devices
    ensures DeviceNeed(total, workers, devices, seg, d) <= PreallocationBound(total, workers, devices, seg)
  {
    var k := workers / devices;
    DivisionFact(workers, devices);
    EvenNeed(total, workers, devices, seg, d, k);
    EvenBound(total, workers, devices, seg, k);
  }

  lemma EvenNeed(total: nat, workers: nat, devices: nat, seg: nat, d: nat, k: nat)
    requires devices > 0 && seg > 0 && workers > 0 && workers % devices == 0 && d < devices && k == workers / devices
    ensures DeviceNeed(total, workers, devices, seg, d) <= k * CeilDiv(CeilDiv(total, workers), seg)
  {
    forall i: nat | i < workers
      ensures WorkerNeed(total, workers, seg, i) <= CeilDiv(CeilDiv(total, workers), seg)
    {
      WorkerNeedAtMost(total, workers, seg, i);
    }
    SharesTotal(workers, devices);
    SharesGrow(workers, devices, d + 1);
    SharesEven(workers, devices, d, d);
    RangeNeedAtMost(total, workers, seg, SharesBefore(workers, devices, d), k, CeilDiv(CeilDiv(total, workers), seg));
  }

  lemma EvenBound(total: nat, workers: nat, devices: nat, seg: nat, k: nat)
    requires devices > 0 && seg > 0 && workers > 0 && workers == devices * k
    ensures k * CeilDiv(CeilDiv(total, workers), seg) <= PreallocationBound(total, workers, devices, seg)
  {
    var m, t := CeilDiv(total, workers), CeilDiv(total, seg);
    CeilDivBounds(total, seg);
    CeilDivBounds(t + workers, devices);
    CeilDivBounds(m, seg);
    CeilDivBounds(total, workers);
    EvenArithmetic(total, k, devices, seg, CeilDiv(m, seg), t, CeilDiv(t + workers, devices), m, workers);
  }

  /** Device validation accepts the configured bound. */
  predicate Accepted(total: nat, workers: nat, devices: nat, seg: nat)
    requires devices > 0 && seg > 0
  {
    MIN_PREALLOCATE_MEMZONES <= MaxPreallocateMemzones(total, workers, devices, seg) <= RTE_MAX_MEMZONE
  }

  /** No device needs more zones than it is configured to preallocate. */
  ghost predicate Covered(total: nat, workers: nat, devices: nat, seg: nat)
    requires workers > 0 && devices > 0 && seg > 0
  {
    forall d: nat :: d < devices ==>
      DeviceNeed(total, workers, devices, seg, d) <= MaxPreallocateMemzones(total, workers, devices, seg)
  }

  // ----- when the devices do not divide the workers evenly -----

  /** For some input, whose bound device validation accepts and which fits 16 bits, the first device
      preallocates less than its queue pairs need: j segments for every worker, the last of them a
      single byte. Zones it may have obtained for other calls before do not count here. */
  lemma UnevenDevicesFail(workers: nat, devices: nat, seg: nat) returns (total: nat)
    requires 0 < devices <= workers < RTE_MAX_LCORE && seg >= MIN_SEG_SIZE && workers % devices != 0
    ensures Accepted(total, workers, devices, seg) && PreallocationBound(total, workers, devices, seg) <= RTE_MAX_MEMZONE
    ensures !Covered(total, workers, devices, seg)
  {
    var bound;
    CeilDivLeast(workers, seg, 16);
    total, bound := UnevenInput(workers, devices, seg, CeilDiv(workers, seg));
  }

  lemma UnevenInput(workers: nat, devices: nat, seg: nat, w: nat) returns (total: nat, bound: nat)
    requires 0 < devices <= workers < RTE_MAX_LCORE && seg > 0 && workers % devices != 0
    requires w == CeilDiv(workers, seg) <= 16
    ensures PreallocationBound(total, workers, devices, seg) == bound < DeviceNeed(total, workers, devices, seg, 0)
    ensures MIN_PREALLOCATE_MEMZONES <= bound <= RTE_MAX_MEMZONE
  {
    var zones, need;
    var j := devices + w + MIN_PREALLOCATE_MEMZONES;
    total, zones, need := UnevenChoice(workers, devices, seg, w, j);
    bound := UnevenBound(workers, devices, w, j, zones, need);
  }

  /** j segments for each worker, the last of them a single byte. */
  function Bytes(workers: nat, seg: nat, j: nat): nat
    requires j > 0
  {
    Product(workers, Product(j - 1, seg) + 1)
  }

  lemma UnevenChoice(workers: nat, devices: nat, seg: nat, w: nat, j: nat) returns (total: nat, zones: nat, need: nat)
    requires 0 < devices <= workers && seg > 0 && workers % devices != 0 && j > 0 && w == CeilDiv(workers, seg)
    ensures CeilDiv(total, seg) + workers == zones && DeviceNeed(total, workers, devices, seg, 0) == need
    ensures zones == Product(workers, j) + w && need == Product(workers / devices + 1, j)
  {
    total := Bytes(workers, seg, j);
    zones := Product(workers, j) + w;
    need := Product(workers / devices + 1, j);
    UnevenSegments(workers, seg, j, w);
    FirstDeviceNeed(workers, devices, seg, j);
  }

  lemma UnevenBound(workers: nat, devices: nat, w: nat, j: nat, zones: nat, need: nat) returns (bound: nat)
    requires 0 < devices <= workers < RTE_MAX_LCORE && workers % devices != 0
    requires w <= 16 && j == devices + w + MIN_PREALLOCATE_MEMZONES
    requires zones == Product(workers, j) + w && need == Product(workers / devices + 1, j)
    ensures bound == CeilDiv(zones, devices) < need
    ensures MIN_PREALLOCATE_MEMZONES <= bound <= RTE_MAX_MEMZONE
  {
    DivisionFact(workers, devices);
    CountingIsMultiplication(workers, j);
    CountingIsMultiplication(workers / devices + 1, j);
    UnevenAbove(workers, devices, workers / devices, workers % devices, w, j);
    UnevenRange(workers, devices, w, j);
    bound := CeilDiv(zones, devices);
    CeilDivLeast(zones, devices, need - 1);
    CeilDivLeast(zones, devices, RTE_MAX_MEMZONE);
    CeilDivAbove(zones, devices, MIN_PREALLOCATE_MEMZONES);
  }

  lemma FirstDeviceNeed(workers: nat, devices: nat, seg: nat, j: nat)
    requires devices > 0 && seg > 0 && workers >= devices && workers % devices != 0 && j > 0
    ensures DeviceNeed(Bytes(workers, seg, j), workers, devices, seg, 0) == Product(workers / devices + 1, j)
  {
    var total, k := Bytes(workers, seg, j), workers / devices;
    forall i: nat | i < workers
      ensures WorkerNeed(total, workers, seg, i) == j
    {
      ShareOneOver(workers, seg, j, i);
    }
    SharesTotal(workers, devices);
    SharesGrow(workers, devices, 1);
    assert SharesBefore(workers, devices, 1) == SharesBefore(workers, devices, 0) + ShareSize(workers, devices, 0);
    RangeNeedExactly(total, workers, seg, 0, k + 1, j);
    CountingIsMultiplication(k + 1, j);
  }

  lemma ShareOneOver(workers: nat, seg: nat, j: nat, i: nat)
    requires workers > 0 && seg > 0 && j > 0
    ensures WorkerNeed(Bytes(workers, seg, j), workers, seg, i) == j
  {
    var share := Product(j - 1, seg) + 1;
    CountingIsMultiplication(workers, share);
    DivModUnique(Product(workers, share), workers, share, 0);
    MultipleCeil(j - 1, seg, 1);
  }

  /** j whole segments and r bytes. */
  lemma {:induction false} MultipleCeil(j: nat, seg: nat, r: nat)
    requires seg > 0
    ensures CeilDiv(Product(j, seg) + r, seg) == j + CeilDiv(r, seg)
    decreases j
  {
    if j > 0 {
      MultipleCeil(j - 1, seg, r);
      CeilDivStep(Product(j, seg) + r, seg);
    }
  }

  lemma CeilDivStep(a: nat, n: nat)
    requires 0 < n <= a
    ensures CeilDiv(a, n) == CeilDiv(a - n, n) + 1
  {
  }

  lemma UnevenSegments(workers: nat, seg: nat, j: nat, w: nat)
    requires seg > 0 && j > 0 && w == CeilDiv(workers, seg)
    ensures CeilDiv(Bytes(workers, seg, j), seg) + workers == Product(workers, j) + w
  {
    ShareBytes(workers, j - 1, seg);
    MultipleCeil(Product(workers, j - 1), seg, workers);
    ProductNext(workers, j - 1);
  }

  lemma {:induction false} ShareBytes(workers: nat, i: nat, seg: nat)
    ensures Product(workers, Product(i, seg) + 1) == Product(Product(workers, i), seg) + workers
    decreases workers
  {
    if workers > 0 {
      ShareBytes(workers - 1, i, seg);
      ProductSum(i, Product(workers - 1, i), seg);
    }
  }

  lemma {:induction false} ProductSum(a: nat, b: nat, n: nat)
    ensures Product(a + b, n) == Product(a, n) + Product(b, n)
    decreases a
  {
    if a > 0 {
      ProductSum(a - 1, b, n);
      assert a + b - 1 == (a - 1) + b;
    }
  }

  lemma {:induction false} ProductNext(a: nat, i: nat)
    ensures Product(a, i + 1) == Product(a, i) + a
    decreases a
  {
    if a > 0 {
      ProductNext(a - 1, i);
    }
  }

  lemma UnevenAbove(workers: nat, devices: nat, k: nat, r: nat, w: nat, j: nat)
    requires workers == devices * k + r && 0 < r < devices && j >= devices + w
    ensures (k + 1) * j >= 1 && ((k + 1) * j - 1) * devices >= workers * j + w
  {
    MulPositive(k + 1, j);
    assert ((k + 1) * j - 1) * devices == (k * devices) * j + j * devices - devices;
    assert workers * j == (devices * k) * j + r * j;
    assert j * devices == r * j + (devices - r) * j;
    MulMonotone(1, devices - r, j);
  }

  lemma UnevenRange(workers: nat, devices: nat, w: nat, j: nat)
    requires 2 <= devices <= workers < RTE_MAX_LCORE && w <= 16 && j == devices + w + MIN_PREALLOCATE_MEMZONES
    ensures MIN_PREALLOCATE_MEMZONES * devices <= workers * j + w <= RTE_MAX_MEMZONE * devices
  {
    MulMonotone(devices, workers, j);
    assert devices * j == j * devices;
    MulMonotone(MIN_PREALLOCATE_MEMZONES, j, devices);
    assert workers * j == devices * workers + (w + MIN_PREALLOCATE_MEMZONES) * workers;
    MulMonotone(w + MIN_PREALLOCATE_MEMZONES, 36, workers);
    MulMonotone(workers, 127, devices);
    assert workers * devices == devices * workers;
  }

  /** While the bound fits 16 bits, what validation accepts covers every input exactly when the devices
      divide the workers evenly. */
  lemma PreallocationSufficesIff(workers: nat, devices: nat, seg: nat)
    requires 0 < devices <= workers < RTE_MAX_LCORE && seg >= MIN_SEG_SIZE
    ensures workers % devices == 0 <==>
            forall total: nat ::
              Accepted(total, workers, devices, seg) && PreallocationBound(total, workers, devices, seg) < 0x1_0000 ==>
                Covered(total, workers, devices, seg)
  {
    if workers % devices == 0 {
      forall total: nat | PreallocationBound(total, workers, devices, seg) < 0x1_0000
        ensures Covered(total, workers, devices, seg)
      {
        EvenCovered(total, workers, devices, seg);
      }
    } else {
      var total := UnevenDevicesFail(workers, devices, seg);
    }
  }

  lemma EvenCovered(total: nat, workers: nat, devices: nat, seg: nat)
    requires devices > 0 && seg > 0 && workers > 0 && workers % devices == 0
    requires PreallocationBound(total, workers, devices, seg) < 0x1_0000
    ensures Covered(total, workers, devices, seg)
  {
    forall d: nat | d < devices
      ensures DeviceNeed(total, workers, devices, seg, d) <= MaxPreallocateMemzones(total, workers, devices, seg)
    {
      EvenDevicesSuffice(total, workers, devices, seg, d);
    }
  }

  // ----- when the bound does not fit 16 bits -----

  /** The zones of the first n workers hold their bytes. */
  lemma {:induction false} NeedHolds(total: nat, workers: nat, seg: nat, n: nat)
    requires workers > 0 && seg > 0
    ensures RangeNeed(total, workers, seg, 0, n) * seg >= SharesBefore(total, workers, n)
    decreases n
  {
    if n > 0 {
      var last := WorkerNeed(total, workers, seg, n - 1);
      NeedHolds(total, workers, seg, n - 1);
      CeilDivBounds(ShareSize(total, workers, n - 1), seg);
      HoldBoth(RangeNeed(total, workers, seg, 0, n - 1), last, seg, SharesBefore(total, workers, n - 1), ShareSize(total, workers, n - 1));
    }
  }

  lemma HoldBoth(a: nat, b: nat, seg: nat, x: nat, y: nat)
    requires a * seg >= x && b * seg >= y
    ensures (a + b) * seg >= x + y
  {
    assert (a + b) * seg == a * seg + b * seg;
  }

  lemma {:induction false} RangeNeedSplit(total: nat, workers: nat, seg: nat, first: nat, a: nat, b: nat)
    requires workers > 0 && seg > 0
    ensures RangeNeed(total, workers, seg, first, a + b) ==
            RangeNeed(total, workers, seg, first, a) + RangeNeed(total, workers, seg, first + a, b)
    decreases b
  {
    if b > 0 {
      RangeNeedSplit(total, workers, seg, first, a, b - 1);
      assert a + b - 1 == a + (b - 1) && first + a + b - 1 == first + (a + b) - 1;
    }
  }

  /** Devices that need at most p zones each need at most d * p together. */
  lemma {:induction false} DevicesNeed(total: nat, workers: nat, devices: nat, seg: nat, d: nat, p: nat)
    requires workers > 0 && devices > 0 && seg > 0 && d <= devices
    requires forall e: nat :: e < devices ==> DeviceNeed(total, workers, devices, seg, e) <= p
    ensures RangeNeed(total, workers, seg, 0, SharesBefore(workers, devices, d)) <= d * p
    decreases d
  {
    if d > 0 {
      DevicesNeed(total, workers, devices, seg, d - 1, p);
      RangeNeedSplit(total, workers, seg, 0, SharesBefore(workers, devices, d - 1), ShareSize(workers, devices, d - 1));
      assert DeviceNeed(total, workers, devices, seg, d - 1) <= p;
      assert d * p == (d - 1) * p + p;
    }
  }

  /** Covered inputs have no more segments than the devices have zones. */
  lemma CoveredSegments(total: nat, workers: nat, devices: nat, seg: nat, p: nat)
    requires workers > 0 && devices > 0 && seg > 0 && p == MaxPreallocateMemzones(total, workers, devices, seg)
    requires Covered(total, workers, devices, seg)
    ensures CeilDiv(total, seg) <= devices * p
  {
    DevicesNeed(total, workers, devices, seg, devices, p);
    SharesTotal(workers, devices);
    SharesTotal(total, workers);
    NeedHolds(total, workers, seg, workers);
    CeilDivLeast(total, seg, RangeNeed(total, workers, seg, 0, workers));
  }

  /** With devices that divide the workers evenly and a configured bound that validation accepts, the
      preallocated zones suffice exactly when the bound was not cut by its 16-bit type. */
  lemma StoredBoundSufficesIff(total: nat, workers: nat, devices: nat, seg: nat)
    requires 0 < devices <= workers < RTE_MAX_LCORE && seg > 0 && workers % devices == 0
    requires Accepted(total, workers, devices, seg)
    ensures Covered(total, workers, devices, seg) <==> PreallocationBound(total, workers, devices, seg) < 0x1_0000
  {
    var bound := PreallocationBound(total, workers, devices, seg);
    if bound < 0x1_0000 {
      EvenCovered(total, workers, devices, seg);
    } else if Covered(total, workers, devices, seg) {
      var p := MaxPreallocateMemzones(total, workers, devices, seg);
      CoveredSegments(total, workers, devices, seg, p);
      MulMonotone(1, devices, workers);
      assert (p + workers) * devices == devices * p + devices * workers;
      CeilDivLeast(CeilDiv(total, seg) + workers, devices, p + workers);
      assert false;
    }
  }

  /** One worker and 65635 full segments: the device is told to preallocate 100 zones, which validation
      accepts. */
  lemma PreallocationTruncated(seg: nat) returns (total: nat)
    requires seg > 0
    ensures total == 65635 * seg && MaxPreallocateMemzones(total, 1, 1, seg) == 100
    ensures Accepted(total, 1, 1, seg) && !Covered(total, 1, 1, seg)
  {
    total := Product(65635, seg);
    CountingIsMultiplication(65635, seg);
    CountingIsMultiplication(65636, 1);
    MultipleCeil(65635, seg, 0);
    MultipleCeil(65636, 1, 0);
    StoredBoundSufficesIff(total, 1, 1, seg);
  }

  // ----- rounds of asynchronous compression on one device -----

  /** One round of the demo on the queue pairs of workers first, first + 1, ..., in any interleaving: each
      of them compresses its segment and its result is recycled, or its call fails; nobody else uses
      the device. */
  ghost predicate RoundOf(es: seq<Event>, total: nat, workers: nat, seg: nat, first: nat, count: nat)
    requires workers > 0 && seg > 0
  {
    forall h: nat ::
      if first <= h < first + count then Settles(Own(es, h), h, WorkerNeed(total, workers, seg, h)) else Own(es, h) == []
  }

  /** What a worker's successful call and the recycling of its result contribute to a round. */
  lemma WorkerSucceeds(codec: Codec, m0: Memory, m: Memory, st0: Zones, st: Zones, cfg: Settings, input: Slice, p: Progress,
                       buffers: seq<Slice>, memzones: ZoneMap, total: nat, workers: nat, h: nat)
    requires workers > 0 && cfg.seg > 0 && cfg.sgl == 1 && codec.Lawful() && input.len == ShareSize(total, workers, h)
    requires Finished(codec, m0, m, st0, st, cfg, input, p, buffers) && st0.WellFormed() && Served(memzones, cfg.cseg, st)
    ensures Settles(Takes(h, p.zones) + Returns(h, Reverse(p.zones)), h, WorkerNeed(total, workers, cfg.seg, h))
  {
    CompressThenRecycle(codec, m0, m, st0, st, cfg, input, p, buffers, memzones, cfg.cseg, Lending(st0, {}, 0, 0), h);
  }

  /** What a worker's failed call contributes. */
  lemma WorkerFails(codec: Codec, m0: Memory, cfg: Settings, input: Slice, p: Progress, st0: Zones, st': Zones,
                    total: nat, workers: nat, h: nat) returns (back: seq<Memzone>)
    requires workers > 0 && cfg.sgl == 1 && codec.Lawful() && Within(m0, input) && input.len == ShareSize(total, workers, h)
    requires GaveBack(codec, m0, cfg, input, p.offset, p.zones, p.more, p.c, st0, st') && st0.WellFormed()
    ensures Settles(Takes(h, p.zones + p.more) + Returns(h, back), h, WorkerNeed(total, workers, cfg.seg, h))
  {
    back := FailedCompress(codec, m0, cfg, input, p, st0, st', Lending(st0, {}, 0, 0), h);
  }

  function TakesAmong(es: seq<Event>, first: nat, count: nat): nat
  {
    if es == [] then 0
    else (if es[0].Taken? && first <= es[0].who < first + count then 1 else 0) + TakesAmong(es[1..], first, count)
  }

  lemma {:induction false} TakesAmongNext(es: seq<Event>, first: nat, count: nat)
    ensures TakesAmong(es, first, count + 1) == TakesAmong(es, first, count) + TakesIn(Own(es, first + count))
  {
    if es != [] {
      OwnNext(es, first + count);
      TakesAmongNext(es[1..], first, count);
    }
  }

  lemma {:induction false} TakesAmongNone(es: seq<Event>, first: nat)
    ensures TakesAmong(es, first, 0) == 0
  {
    if es != [] {
      TakesAmongNone(es[1..], first);
    }
  }

  lemma {:induction false} TakesAmongAll(es: seq<Event>, first: nat, count: nat)
    requires forall h: nat :: first <= h < first + count || Own(es, h) == []
    ensures TakesIn(es) == TakesAmong(es, first, count)
  {
    if es != [] {
      forall h: nat | !(first <= h < first + count)
        ensures Own(es[1..], h) == []
      {
        assert Own(es, h) == [];
      }
      assert Own(es, es[0].who) != [];
      TakesAmongAll(es[1..], first, count);
    }
  }

  lemma {:induction false} TakesWithinNeed(es: seq<Event>, total: nat, workers: nat, seg: nat, first: nat, count: nat)
    requires workers > 0 && seg > 0
    requires forall h: nat :: first <= h < first + count ==> TakesIn(Own(es, h)) <= WorkerNeed(total, workers, seg, h)
    ensures TakesAmong(es, first, count) <= RangeNeed(total, workers, seg, first, count)
    decreases count
  {
    if count == 0 {
      TakesAmongNone(es, first);
    } else {
      TakesWithinNeed(es, total, workers, seg, first, count - 1);
      TakesAmongNext(es, first, count - 1);
    }
  }

  /** At most `need` takes, and every holder is honest and ends with nothing. */
  ghost predicate Balances(es: seq<Event>, need: nat)
  {
    TakesIn(es) <= need && forall h :: Honest(Own(es, h), {}) && LeftWith(Own(es, h), {}) == {}
  }

  /** A round takes no more zones than the device needs, and gives back all of them. */
  lemma RoundBalances(es: seq<Event>, total: nat, workers: nat, seg: nat, first: nat, count: nat)
    requires workers > 0 && seg > 0 && RoundOf(es, total, workers, seg, first, count)
    ensures Balances(es, RangeNeed(total, workers, seg, first, count))
  {
    forall h: nat
      ensures Honest(Own(es, h), {}) && LeftWith(Own(es, h), {}) == {}
      ensures if first <= h < first + count then TakesIn(Own(es, h)) <= WorkerNeed(total, workers, seg, h) else Own(es, h) == []
    {
      if first <= h < first + count {
        SettlesHonest(Own(es, h), h, WorkerNeed(total, workers, seg, h));
      }
    }
    TakesAmongAll(es, first, count);
    TakesWithinNeed(es, total, workers, seg, first, count);
  }

  /** With `need` zones obtained and none on loan, rounds of at most `need` takes in which everything is
      given back obtain no other and leave none on loan. */
  lemma {:induction false} RoundsNeverHot(s: Lending, rounds: seq<seq<Event>>, s': Lending, need: nat)
    requires Orderly(s) && s.zones.occupied == {} && Leads(s, Flatten(rounds), s') && need <= s.preallocated + s.hot
    requires forall i :: 0 <= i < |rounds| ==> Balances(rounds[i], need)
    ensures Orderly(s') && s'.zones.occupied == {} && s'.hot == s.hot
    decreases |rounds|
  {
    if rounds != [] {
      hide Orderly;
      var s1 := After(s, rounds[0]);
      AfterConcat(s, rounds[0], Flatten(rounds[1..]));
      RoundNeverHot(s, rounds[0], s1, need);
      RoundsNeverHot(s1, rounds[1..], s', need);
    }
  }

  lemma RoundNeverHot(s: Lending, es: seq<Event>, s': Lending, need: nat)
    requires Orderly(s) && s.zones.occupied == {} && Leads(s, es, s') && need <= s.preallocated + s.hot && Balances(es, need)
    ensures Orderly(s') && s'.zones.occupied == {} && s'.hot == s.hot && s'.preallocated == s.preallocated
  {
    RoundSettles(s, es, s');
    FewTakesNeverHot(s, es, s');
    SamePreallocated(s, es);
  }

  lemma {:induction false} SamePreallocated(s: Lending, es: seq<Event>)
    ensures After(s, es).preallocated == s.preallocated
    decreases |es|
  {
    if es != [] {
      SamePreallocated(Step(s, es[0]), es[1..]);
    }
  }

  /** The demo's intent: a device that preallocated up to its bound serves any number of rounds of
      asynchronous compression without obtaining a single zone more, in whatever order its queue pairs
      take and return zones within a round; and afterwards nothing is on loan. */
  lemma AsyncCompressionNeverHot(total: nat, workers: nat, devices: nat, seg: nat, d: nat, s: Lending, rounds: seq<seq<Event>>,
                                 s': Lending)
    requires devices > 0 && seg > 0 && workers > 0 && workers % devices == 0 && d < devices
    requires PreallocationBound(total, workers, devices, seg) < 0x1_0000
    requires Orderly(s) && s.zones.occupied == {} && Leads(s, Flatten(rounds), s')
    requires s.preallocated == MaxPreallocateMemzones(total, workers, devices, seg)
    requires forall i :: 0 <= i < |rounds| ==>
               RoundOf(rounds[i], total, workers, seg, SharesBefore(workers, devices, d), ShareSize(workers, devices, d))
    ensures Orderly(s') && s'.zones.occupied == {} && s'.hot == s.hot
  {
    hide *;
    var first, count := SharesBefore(workers, devices, d), ShareSize(workers, devices, d);
    var need := BoundCovers(total, workers, devices, seg, d);
    forall i | 0 <= i < |rounds|
      ensures Balances(rounds[i], need)
    {
      RoundBalances(rounds[i], total, workers, seg, first, count);
    }
    RoundsNeverHot(s, rounds, s', need);
  }

  lemma BoundCovers(total: nat, workers: nat, devices: nat, seg: nat, d: nat) returns (need: nat)
    requires devices > 0 && seg > 0 && workers > 0 && workers % devices == 0 && d < devices
    requires PreallocationBound(total, workers, devices, seg) < 0x1_0000
    ensures need == RangeNeed(total, workers, seg, SharesBefore(workers, devices, d), ShareSize(workers, devices, d))
    ensures need <= MaxPreallocateMemzones(total, workers, devices, seg)
  {
    need := DeviceNeed(total, workers, devices, seg, d);
    EvenDevicesSuffice(total, workers, devices, seg, d);
  }
}
