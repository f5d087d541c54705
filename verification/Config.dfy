/** The device configuration and the size it derives for compressed segments. */
module Config {
  import opened Sequences

  const UINT16_MAX := 0xffff
  const PKTMBUF_HEADROOM := 128
  const MAX_MBUF_DATA_SIZE := UINT16_MAX - PKTMBUF_HEADROOM
  const MIN_SEG_SIZE := 8
  /** MAX_MBUF_DATA_SIZE / 1.1, truncated. */
  const MAX_SEG_SIZE := MAX_MBUF_DATA_SIZE * 10 / 11
  const DEFAULT_SEG_SIZE := 2048
  /** The last size whose expansion by a tenth fits 16 bits. */
  const EXPANSION_LIMIT := (UINT16_MAX * 10 + 9) / 11
  /** Zones a process may have; the value DPDK is built with by default. */
  const RTE_MAX_MEMZONE := 2560

  function Pow2(k: nat): (p: nat)
    ensures p > 0
  {
    if k == 0 then 1 else 2 * Pow2(k - 1)
  }

  ghost predicate IsPow2(n: nat)
  {
    exists k: nat :: n == Pow2(k)
  }

  /** Whether the single bit `mask`, a power of two, is set in n. */
  predicate BitSet(n: nat, mask: nat)
    requires mask > 0
  {
    (n / mask) % 2 == 1
  }

  /** What the compressed segment size must be: the least power of two above seg while that
      fits in 15 bits, otherwise seg expanded by a tenth. */
  ghost predicate IsCompressedSize(seg: nat, size: nat)
  {
    if seg < 0x8000 then IsPow2(size) && seg < size && forall k: nat :: seg < Pow2(k) ==> size <= Pow2(k)
    else size == 11 * seg / 10
  }

  /** The numbers a device works with once it is initialised. */
  datatype Settings = Settings(burst: nat, sgl: nat, seg: nat, cseg: nat)
  {
    /** The configurations accepted by device validation; the sizes leave room for a mbuf's
        16-bit lengths. CompressedSizeFitsMbuf shows that every derived size qualifies. */
    ghost predicate Valid()
    {
      && 1 <= burst <= UINT16_MAX
      && 1 <= sgl <= UINT16_MAX
      && MIN_SEG_SIZE <= seg <= MAX_SEG_SIZE
      && seg < cseg <= MAX_MBUF_DATA_SIZE
    }

    /** Bytes of the input in a full operation: seg * sgl. */
    function Span(): nat
    {
      Product(seg, sgl)
    }
  }

  lemma SpanIsProduct(cfg: Settings)
    ensures cfg.Span() == cfg.seg * cfg.sgl
    ensures cfg.seg > 0 && cfg.sgl > 0 ==> cfg.Span() > 0
  {
    CountingIsMultiplication(cfg.seg, cfg.sgl);
    if cfg.seg > 0 && cfg.sgl > 0 {
      MulPositive(cfg.seg, cfg.sgl);
    }
  }

  class Configuration {
    var burstSize: nat
    var maxSglSegs: nat
    var decompressedSegSize: nat
    var compressedSegSize: nat
    var maxPreallocateMemzones: nat

    /** The fields fit their 16-bit types and the derived size is in step. */
    ghost predicate Valid()
      reads this
    {
      && burstSize <= UINT16_MAX && maxSglSegs <= UINT16_MAX && maxPreallocateMemzones <= UINT16_MAX
      && 0 < decompressedSegSize <= EXPANSION_LIMIT && IsCompressedSize(decompressedSegSize, compressedSegSize)
    }

    /** The sizes the pipeline works with. */
    function Chosen(): Settings
      reads this
    {
      Settings(burstSize, maxSglSegs, decompressedSegSize, compressedSegSize)
    }

    constructor ()
      ensures Valid() && burstSize == 32 && maxSglSegs == 1 && decompressedSegSize == 2048
      ensures maxPreallocateMemzones == 2560
    {
      burstSize, maxSglSegs, decompressedSegSize, maxPreallocateMemzones := 32, 1, DEFAULT_SEG_SIZE, RTE_MAX_MEMZONE;
      new;
      UpdateCompressedSegSize();
    }

    /** The 16-bit setter; a size of 0 would never leave the bit search, and beyond
        EXPANSION_LIMIT the result would be cut to its type. */
    method SetDecompressedSegSize(size: nat)
      requires 0 < size <= EXPANSION_LIMIT
      modifies this`decompressedSegSize, this`compressedSegSize
      ensures decompressedSegSize == size && IsCompressedSize(size, compressedSegSize)
      ensures old(Valid()) ==> Valid()
    {
      decompressedSegSize := size;
      UpdateCompressedSegSize();
    }

    method UpdateCompressedSegSize()
      requires 0 < decompressedSegSize <= EXPANSION_LIMIT
      modifies this`compressedSegSize
      ensures IsCompressedSize(decompressedSegSize, compressedSegSize)
      ensures compressedSegSize <= UINT16_MAX
    {
      var lowerBound := decompressedSegSize * 2;
      var num := UINT16_MAX + 1;
      ghost var k: nat := 16;
      Pow2Values();
      while !BitSet(lowerBound, num)
        invariant num == Pow2(k) && num <= 0x10000
        invariant lowerBound < 2 * num
        decreases k
      {
        TopBit(lowerBound, num);
        k := k - 1;
        num := num / 2;
      }
      TopBit(lowerBound, num);
      compressedSegSize := if num > (UINT16_MAX + 1) / 2 then 11 * decompressedSegSize / 10 else num;
      LeadingBitIsLeast(decompressedSegSize, k);
    }
  }

  /** At the top position, a set bit means the number reaches it. */
  lemma TopBit(n: nat, p: nat)
    requires p > 0 && n < 2 * p
    ensures BitSet(n, p) <==> p <= n
  {
    if n < p {
      assert n / p == 0;
    } else {
      assert n / p == 1;
    }
  }

  lemma Pow2Values()
    ensures Pow2(10) == 1024 && Pow2(11) == 2048 && Pow2(15) == 0x8000 && Pow2(16) == 0x10000
  {
    assert Pow2(5) == 32;
    assert Pow2(10) == 1024;
  }

  lemma {:induction false} Pow2Monotone(a: nat, b: nat)
    requires a <= b
    ensures Pow2(a) <= Pow2(b)
    decreases b - a
  {
    if a < b {
      Pow2Monotone(a, b - 1);
    }
  }

  /** The leading bit of 2 * seg is the least power of two above seg. */
  lemma LeadingBitIsLeast(seg: nat, k: nat)
    requires 0 < seg && Pow2(k) <= 2 * seg < 2 * Pow2(k)
    ensures seg < Pow2(k)
    ensures forall j: nat :: seg < Pow2(j) ==> Pow2(k) <= Pow2(j)
  {
    forall j: nat | seg < Pow2(j)
      ensures Pow2(k) <= Pow2(j)
    {
      if j < k {
        Pow2Monotone(j, k - 1);
      } else {
        Pow2Monotone(k, j);
      }
    }
  }

  /** The derived size is unique, strictly larger than the segment, and fits an mbuf. */
  lemma CompressedSizeFitsMbuf(seg: nat, size: nat)
    requires MIN_SEG_SIZE <= seg <= MAX_SEG_SIZE && IsCompressedSize(seg, size)
    ensures seg < size <= MAX_MBUF_DATA_SIZE
    ensures forall other: nat :: IsCompressedSize(seg, other) ==> other == size
  {
    if seg < 0x8000 {
      Pow2Values();
    }
  }

  /** The largest segment allowed is one short of the largest whose derived size fits an mbuf. */
  lemma LargestSegment(seg: nat, size: nat)
    requires 0 < seg && IsCompressedSize(seg, size)
    ensures size <= MAX_MBUF_DATA_SIZE <==> seg <= MAX_SEG_SIZE + 1
    ensures MAX_SEG_SIZE == 59460 && MAX_MBUF_DATA_SIZE == 65407
  {
    if seg < 0x8000 {
      Pow2Values();
    }
  }

  /** A larger segment never gets a smaller compressed segment. */
  lemma CompressedSizeMonotone(a: nat, b: nat, sa: nat, sb: nat)
    requires MIN_SEG_SIZE <= a <= b <= MAX_SEG_SIZE
    requires IsCompressedSize(a, sa) && IsCompressedSize(b, sb)
    ensures sa <= sb
  {
    if a < 0x8000 {
      if b < 0x8000 {
        var k: nat :| sb == Pow2(k);
      } else {
        Pow2Values();
      }
    }
  }

  /** Bytes a stored (uncompressed) block needs around its data, section 3.2.4 of RFC 1951:
      one byte of block header and padding, LEN and NLEN. */
  const STORED_OVERHEAD := 5

  /** The header comment promises room for incompressible data. A segment emitted as one
      stored block fits exactly when no power of two up to 32768 lies in the four sizes
      above it. */
  lemma IncompressibleFits(seg: nat, size: nat)
    requires MIN_SEG_SIZE <= seg <= MAX_SEG_SIZE && IsCompressedSize(seg, size)
    ensures seg + STORED_OVERHEAD <= size <==>
            !(exists k: nat :: k <= 15 && seg < Pow2(k) < seg + STORED_OVERHEAD)
  {
    Pow2Values();
    if seg < 0x8000 {
      var k := SizeExponent(seg, size);
    } else {
      forall k: nat | k <= 15
        ensures Pow2(k) <= seg
      {
        Pow2Monotone(k, 15);
      }
    }
  }

  lemma SizeExponent(seg: nat, size: nat) returns (k: nat)
    requires seg < 0x8000 && IsCompressedSize(seg, size)
    ensures k <= 15 && size == Pow2(k)
  {
    Pow2Values();
    k :| size == Pow2(k);
    if k > 15 {
      Pow2Monotone(16, k);
      assert false;
    }
  }

  /** A size just below a power of two: 2047 bytes get a segment of 2048. */
  lemma IncompressibleOverflows()
    ensures forall size: nat :: IsCompressedSize(2047, size) ==> size == 2048 < 2047 + STORED_OVERHEAD
  {
    Pow2Values();
    forall size: nat | IsCompressedSize(2047, size)
      ensures size == 2048
    {
      var k: nat :| size == Pow2(k);
      if k < 11 {
        Pow2Monotone(k, 10);
      } else {
        Pow2Monotone(11, k);
      }
    }
  }
}
