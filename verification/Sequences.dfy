/** Sequence vocabulary shared by the model: cutting a sequence into pieces, dealing it into
    groups, and gluing groups back together. */
module Sequences {

  /** Division rounding up; CeilDivIsDivision gives the form the driver computes. */
  function CeilDiv(a: nat, n: nat): nat
    requires n > 0
    decreases a
  {
    if a == 0 then 0 else if a <= n then 1 else 1 + CeilDiv(a - n, n)
  }

  /** a / n, by counting. */
  function Quot(a: nat, n: nat): nat
    requires n > 0
    decreases a
  {
    if a < n then 0 else 1 + Quot(a - n, n)
  }

  /** a * n, by counting. */
  function Product(a: nat, n: nat): nat
    decreases a
  {
    if a == 0 then 0 else n + Product(a - 1, n)
  }

  /** a % n == 0, by counting. */
  predicate Multiple(a: nat, n: nat)
    requires n > 0
    decreases a
  {
    if a < n then a == 0 else Multiple(a - n, n)
  }

  function Min(a: int, b: int): int { if a <= b then a else b }

  function Flatten<T>(ss: seq<seq<T>>): seq<T>
  {
    if ss == [] then [] else ss[0] + Flatten(ss[1..])
  }

  /** The consecutive pieces of s, all of length n except possibly a shorter last one. */
  function Chunks<T>(s: seq<T>, n: nat): seq<seq<T>>
    requires n > 0
    decreases |s|
  {
    if s == [] then []
    else if |s| <= n then [s]
    else [s[..n]] + Chunks(s[n..], n)
  }

  /** Deal s into exactly k groups of at most n; late groups may be empty. */
  function Deal<T>(s: seq<T>, n: nat, k: nat): (g: seq<seq<T>>)
    ensures |g| == k
    decreases k
  {
    if k == 0 then []
    else if |s| <= n then [s] + Deal([], n, k - 1)
    else [s[..n]] + Deal(s[n..], n, k - 1)
  }

  function Reverse<T>(s: seq<T>): (r: seq<T>)
    ensures |r| == |s|
  {
    if s == [] then [] else Reverse(s[1..]) + [s[0]]
  }

  ghost predicate Distinct<T>(s: seq<T>)
  {
    forall i, j :: 0 <= i < j < |s| ==> s[i] != s[j]
  }

  function Elements<T>(s: seq<T>): set<T>
  {
    set x | x in s
  }

  lemma ConcatAssociative<T>(a: seq<T>, b: seq<T>, c: seq<T>)
    ensures (a + b) + c == a + (b + c)
  {
  }

  lemma PrefixGrows<T>(s: seq<T>, a: nat, b: nat)
    requires a <= b <= |s|
    ensures s[..b] == s[..a] + s[a..b]
  {
  }

  lemma SplitSeq<T>(s: seq<T>, k: nat)
    requires k <= |s|
    ensures s == s[..k] + s[k..]
  {
  }

  lemma PartOfPart<T>(s: seq<T>, a: nat, b: nat, k: nat)
    requires a + k <= b <= |s|
    ensures s[a..b][..k] == s[a..a + k] && s[a..b][k..] == s[a + k..b]
  {
  }

  /** Adjacent pieces join. */
  lemma JoinPieces<T>(s: seq<T>, a: nat, b: nat, c: nat)
    requires a <= b <= c <= |s|
    ensures s[a..b] + s[b..c] == s[a..c]
  {
  }

  lemma ConcatTail<T>(a: seq<T>, b: seq<T>)
    requires a != []
    ensures (a + b)[0] == a[0] && (a + b)[1..] == a[1..] + b
  {
  }

  // ----- arithmetic -----

  lemma DivModUnique(a: int, n: int, q: int, r: int)
    requires n > 0 && a == q * n + r && 0 <= r < n
    ensures a / n == q && a % n == r
  {
    var d := a / n - q;
    assert a == (a / n) * n + a % n;
    assert d * n == r - a % n by {
      assert d * n == (a / n) * n - q * n;
    }
    assert d >= 1 ==> d * n >= n;
    assert d <= -1 ==> d * n <= -n;
  }

  lemma {:induction false} CountingIsDivision(a: nat, n: nat)
    requires n > 0
    ensures Quot(a, n) == a / n && (Multiple(a, n) <==> a % n == 0)
    decreases a
  {
    if a < n {
      DivModUnique(a, n, 0, a);
    } else {
      CountingIsDivision(a - n, n);
      assert a == ((a - n) / n + 1) * n + (a - n) % n;
      DivModUnique(a, n, (a - n) / n + 1, (a - n) % n);
    }
  }

  lemma {:induction false} CountingIsMultiplication(a: nat, n: nat)
    ensures Product(a, n) == a * n
    decreases a
  {
    if a > 0 {
      CountingIsMultiplication(a - 1, n);
      assert a * n == (a - 1) * n + n;
    }
  }

  lemma CeilDivIsDivision(a: nat, n: nat)
    requires n > 0
    ensures CeilDiv(a, n) == (a + n - 1) / n
    decreases a
  {
    if a == 0 {
      DivModUnique(n - 1, n, 0, n - 1);
    } else if a <= n {
      DivModUnique(a + n - 1, n, 1, a - 1);
    } else {
      CeilDivIsDivision(a - n, n);
      var q, r := (a - 1) / n, (a - 1) % n;
      assert a - 1 == q * n + r;
      assert a + n - 1 == (q + 1) * n + r;
      DivModUnique(a + n - 1, n, q + 1, r);
    }
  }

  /** Stepping a counter past the end of a group of n. */
  lemma {:induction false} QuotStep(a: nat, n: nat)
    requires n > 0
    ensures Quot(a + 1, n) == Quot(a, n) + (if Multiple(a + 1, n) then 1 else 0)
    decreases a
  {
    if a >= n {
      QuotStep(a - n, n);
    }
  }

  /** An element's group lies within the groups of all elements; the last element fills the last
      group. */
  lemma {:induction false} QuotInCeil(a: nat, num: nat, n: nat)
    requires n > 0 && a < num
    ensures Quot(a, n) < CeilDiv(num, n)
    ensures a + 1 == num ==> CeilDiv(num, n) == Quot(a, n) + 1
    decreases a
  {
    if a >= n {
      QuotInCeil(a - n, num - n, n);
    }
  }

  /** CeilDiv(a, n) is the least q with q * n >= a. */
  lemma {:induction false} CeilDivBounds(a: nat, n: nat)
    requires n > 0
    ensures CeilDiv(a, n) * n >= a
    ensures a > 0 ==> 0 < CeilDiv(a, n) && (CeilDiv(a, n) - 1) * n < a
    decreases a
  {
    if a > n {
      CeilDivBounds(a - n, n);
      assert CeilDiv(a, n) * n == CeilDiv(a - n, n) * n + n;
      assert (CeilDiv(a, n) - 1) * n == (CeilDiv(a - n, n) - 1) * n + n;
    }
  }

  lemma {:induction false} CeilDivMonotone(a: nat, b: nat, n: nat)
    requires n > 0 && a <= b
    ensures CeilDiv(a, n) <= CeilDiv(b, n)
    decreases a
  {
    if a > n {
      CeilDivMonotone(a - n, b - n, n);
    }
  }

  lemma MulNext(n: nat, k: nat)
    ensures n * (k + 1) == n * k + n
  {
  }

  lemma CeilDivLeast(a: nat, n: nat, q: nat)
    requires n > 0 && q * n >= a
    ensures CeilDiv(a, n) <= q
  {
    CeilDivBounds(a, n);
    var c := CeilDiv(a, n);
    if c > q {
      MulMonotone(q, c - 1, n);
    }
  }

  lemma CeilDivAbove(a: nat, n: nat, q: nat)
    requires n > 0 && q * n <= a
    ensures q <= CeilDiv(a, n)
  {
    CeilDivBounds(a, n);
    assert (q - 1) * n < q * n;
    if CeilDiv(a, n) < q {
      MulMonotone(CeilDiv(a, n), q - 1, n);
      assert false;
    }
  }

  lemma MulPositive(a: nat, b: nat)
    requires a > 0 && b > 0
    ensures a * b > 0
  {
  }

  lemma MulMonotone(a: int, b: int, n: nat)
    requires a <= b
    ensures a * n <= b * n
  {
    assert (b - a) * n >= 0;
    assert (b - a) * n == b * n - a * n;
  }

  lemma {:induction false} MultipleOfProduct(q: nat, n: nat)
    requires n > 0
    ensures Multiple(q * n, n)
    decreases q
  {
    if q > 0 {
      assert q * n == (q - 1) * n + n;
      MultipleOfProduct(q - 1, n);
    }
  }

  lemma {:induction false} MultipleSum(a: nat, b: nat, n: nat)
    requires n > 0 && Multiple(a, n) && Multiple(b, n)
    ensures Multiple(a + b, n)
    decreases a
  {
    if a >= n {
      MultipleSum(a - n, b, n);
      assert a + b - n == (a - n) + b;
    }
  }

  // ----- Flatten -----

  lemma {:induction false} FlattenAppend<T>(a: seq<seq<T>>, b: seq<seq<T>>)
    ensures Flatten(a + b) == Flatten(a) + Flatten(b)
  {
    if a == [] {
      assert a + b == b;
    } else {
      ConcatTail(a, b);
      FlattenAppend(a[1..], b);
      ConcatAssociative(a[0], Flatten(a[1..]), Flatten(b));
    }
  }

  lemma FlattenSnoc<T>(a: seq<seq<T>>, x: seq<T>)
    ensures Flatten(a + [x]) == Flatten(a) + x
  {
    FlattenAppend(a, [x]);
    assert [x][1..] == [];
    assert Flatten([x]) == x + Flatten([x][1..]);
  }

  // ----- Chunks -----

  /** Chunks loses nothing, keeps the order, and yields only full pieces before the last. */
  lemma {:induction false} ChunksShape<T>(s: seq<T>, n: nat)
    requires n > 0
    ensures Flatten(Chunks(s, n)) == s
    ensures |Chunks(s, n)| == CeilDiv(|s|, n)
    ensures forall i :: 0 <= i < |Chunks(s, n)| ==> 0 < |Chunks(s, n)[i]| <= n
    ensures forall i :: 0 <= i < |Chunks(s, n)| - 1 ==> |Chunks(s, n)[i]| == n
    decreases |s|
  {
    if s == [] {
    } else if |s| <= n {
      assert Chunks(s, n)[1..] == [];
    } else {
      ChunksShape(s[n..], n);
      ChunksTail(s, n);
      SplitSeq(s, n);
    }
  }

  lemma ChunksTail<T>(s: seq<T>, n: nat)
    requires 0 < n < |s|
    ensures Chunks(s, n) == [s[..n]] + Chunks(s[n..], n) && Chunks(s, n)[1..] == Chunks(s[n..], n)
  {
  }

  lemma {:induction false} ChunksAppend<T>(x: seq<T>, y: seq<T>, n: nat)
    requires n > 0 && Multiple(|x|, n)
    ensures Chunks(x + y, n) == Chunks(x, n) + Chunks(y, n)
    decreases |x|
  {
    if x == [] {
      assert x + y == y;
    } else {
      assert x[n..] + y == (x + y)[n..];
      ChunksAppend(x[n..], y, n);
      assert (x + y)[..n] == x[..n];
      if |x| == n {
        assert x[..n] == x && x[n..] == [];
        if y == [] {
          assert x + y == x;
        }
      }
    }
  }

  /** Every element of a piece is an element of the whole. */
  lemma {:induction false} ChunkFrom<T>(s: seq<T>, n: nat, i: nat, k: nat) returns (q: nat)
    requires n > 0 && i < |Chunks(s, n)| && k < |Chunks(s, n)[i]|
    ensures q < |s| && Chunks(s, n)[i][k] == s[q]
    decreases |s|
  {
    if i == 0 {
      q := k;
    } else {
      q := ChunkFrom(s[n..], n, i - 1, k);
      q := q + n;
    }
  }

  /** Unit groups: cutting into pieces of one element. */
  lemma {:induction false} ChunksOfOne<T>(s: seq<T>)
    ensures |Chunks(s, 1)| == |s|
    ensures forall i :: 0 <= i < |s| ==> Chunks(s, 1)[i] == [s[i]]
  {
    if |s| > 1 {
      ChunksOfOne(s[1..]);
    }
  }

  // ----- Deal -----

  lemma {:induction false} DealNothing<T>(n: nat, k: nat)
    ensures forall i :: 0 <= i < k ==> Deal<T>([], n, k)[i] == []
  {
    if k > 0 {
      DealNothing<T>(n, k - 1);
    }
  }

  /** Dealing one more element puts it at the end of group Quot(|s|, n) and nowhere else. */
  lemma {:induction false} DealSnoc<T>(s: seq<T>, e: T, n: nat, k: nat)
    requires n > 0 && Quot(|s|, n) < k
    ensures Deal(s + [e], n, k) == Deal(s, n, k)[Quot(|s|, n) := Deal(s, n, k)[Quot(|s|, n)] + [e]]
    ensures |Deal(s, n, k)[Quot(|s|, n)]| < n
    decreases k
  {
    var t := s + [e];
    if |s| == n {
      assert t[..n] == s && t[n..] == [e];
      assert Deal(t, n, k) == [s] + Deal([e], n, k - 1);
      assert Deal(s, n, k) == [s] + Deal([], n, k - 1);
      DealSnoc([], e, n, k - 1);
      assert [] + [e] == [e];
    } else if |s| > n {
      DealSnoc(s[n..], e, n, k - 1);
      assert t[..n] == s[..n] && t[n..] == s[n..] + [e];
    }
  }

  lemma {:induction false} DealSizes<T>(s: seq<T>, n: nat, k: nat)
    requires n > 0 && CeilDiv(|s|, n) <= k
    ensures forall q :: 0 <= q < k ==> |Deal(s, n, k)[q]| <= n
    decreases k
  {
    if k > 0 {
      DealSizes(if |s| <= n then [] else s[n..], n, k - 1);
    }
  }

  lemma {:induction false} DealIsChunks<T>(s: seq<T>, n: nat)
    requires n > 0
    ensures Deal(s, n, CeilDiv(|s|, n)) == Chunks(s, n)
    decreases |s|
  {
    if |s| > n {
      DealIsChunks(s[n..], n);
    } else if s != [] {
      assert Deal<T>([], n, 0) == [];
    }
  }

  lemma {:induction false} DistinctSize<T>(s: seq<T>)
    requires Distinct(s)
    ensures |Elements(s)| == |s|
  {
    if s != [] {
      DistinctSize(s[1..]);
      assert s == [s[0]] + s[1..];
      assert Elements(s) == {s[0]} + Elements(s[1..]);
    }
  }

  // ----- Reverse -----

  lemma {:induction false} ReverseAt<T>(s: seq<T>, k: nat)
    requires k < |s|
    ensures Reverse(s)[k] == s[|s| - 1 - k]
  {
    if k < |s| - 1 {
      ReverseAt(s[1..], k);
    }
  }

  lemma ReverseSnoc<T>(s: seq<T>, e: T)
    ensures Reverse(s + [e]) == [e] + Reverse(s)
  {
    forall k | 0 <= k < |s| + 1
      ensures Reverse(s + [e])[k] == ([e] + Reverse(s))[k]
    {
      ReverseAt(s + [e], k);
      if k > 0 {
        ReverseAt(s, k - 1);
      }
    }
  }
}
