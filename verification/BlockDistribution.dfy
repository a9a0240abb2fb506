/** The block partition of `div_range`, with the C++ integer widths written out:
    `n` is a 64-bit unsigned long, while the block length, the remainder and the
    products are 32-bit ints. */
module BlockDistribution {
  import opened Bytes

  /** A half-open range, or the signed overflow that C++ leaves undefined. */
  datatype Outcome = Overflow | Range(beg: nat, end: nat)

  predicate FitsInt(x: int) {
    INT_MIN <= x <= INT_MAX
  }

  /** Conversion of a 64-bit value to int keeps the low 32 bits. */
  function ToInt(x: nat): (r: int)
    ensures FitsInt(r)
    ensures x <= INT_MAX ==> r == x
  {
    var low := x % TWO_TO_32;
    if low <= INT_MAX then low else low - TWO_TO_32
  }

  /** Conversion of an int to a 64-bit unsigned value. */
  function ToUnsigned(x: int): (r: nat)
    requires -TWO_TO_64 < x < 2 * TWO_TO_64
    ensures r < TWO_TO_64
    ensures 0 <= x < TWO_TO_64 ==> r == x
  {
    if x < 0 then x + TWO_TO_64 else if x < TWO_TO_64 then x else x - TWO_TO_64
  }

  predicate Callable(n: nat, p: int) {
    n < TWO_TO_64 && 1 <= p <= INT_MAX
  }

  /** `div_range(n, s, p, &beg, &end)`, branch by branch. */
  function DivRange(n: nat, s: int, p: int): Outcome
    requires Callable(n, p) && 0 <= s < p
  {
    var block := ToInt(n / p);
    var rem := n % p;
    if s < rem then
      if !FitsInt(block + 1) || !FitsInt((block + 1) * s) then Overflow
      else
        var beg := ToUnsigned((block + 1) * s);
        Range(beg, ToUnsigned(ToUnsigned(block + 1) + beg))
    else
      if !FitsInt((p - s) * block) then Overflow
      else
        var beg := ToUnsigned(n - (p - s) * block);
        Range(beg, ToUnsigned(ToUnsigned(block) + beg))
  }

  /** Where block `s` of `p` begins: every earlier block has n/p elements and the
      first n%p of them one more. This is the partition div_range is meant to compute. */
  function BlockBegin(n: nat, s: nat, p: nat): nat
    requires 1 <= p
  {
    s * (n / p) + if s < n % p then s else n % p
  }

  function BlockEnd(n: nat, s: nat, p: nat): nat
    requires 1 <= p
  {
    BlockBegin(n, s + 1, p)
  }

  function BlockSize(n: nat, s: nat, p: nat): (r: nat)
    requires 1 <= p
  {
    BlockLength(n, s, p);
    BlockEnd(n, s, p) - BlockBegin(n, s, p)
  }

  lemma MulStep(s: int, q: int)
    ensures (s + 1) * q == s * q + q
  {
  }

  lemma BlockLength(n: nat, s: nat, p: nat)
    requires 1 <= p
    ensures BlockEnd(n, s, p) - BlockBegin(n, s, p) == n / p + if s < n % p then 1 else 0
  {
    MulStep(s, n / p);
  }

  /** The blocks start at 0 and end at n, and any two differ in length by at most one. */
  lemma BlocksTile(n: nat, p: nat, s: nat, t: nat)
    requires 1 <= p
    ensures BlockBegin(n, 0, p) == 0
    ensures BlockBegin(n, p, p) == n
    ensures BlockSize(n, s, p) <= BlockSize(n, t, p) + 1
  {
    BlockLength(n, s, p);
    BlockLength(n, t, p);
  }

  /** Later blocks do not begin earlier. */
  lemma {:induction false} BlockBeginMonotone(n: nat, s: nat, t: nat, p: nat)
    requires 1 <= p && s <= t
    ensures BlockBegin(n, s, p) <= BlockBegin(n, t, p)
    decreases t
  {
    if s < t {
      BlockBeginMonotone(n, s, t - 1, p);
      BlockLength(n, t - 1, p);
    }
  }

  /** A block lies inside [0, n). */
  lemma BlockInside(n: nat, s: nat, p: nat)
    requires s < p
    ensures BlockBegin(n, s, p) <= BlockEnd(n, s, p) <= n
    ensures BlockEnd(n, s, p) - BlockBegin(n, s, p) == BlockSize(n, s, p)
  {
    BlockLength(n, s, p);
    BlockBeginMonotone(n, s + 1, p, p);
    BlocksTile(n, p, 0, 0);
  }

  lemma BlockUnique(n: nat, x: nat, s: nat, t: nat, p: nat)
    requires 1 <= p && BlockBegin(n, s, p) <= x < BlockEnd(n, s, p) && BlockBegin(n, t, p) <= x < BlockEnd(n, t, p)
    ensures s == t
  {
    if t < s {
      BlockBeginMonotone(n, t + 1, s, p);
    } else if s < t {
      BlockBeginMonotone(n, s + 1, t, p);
    }
  }

  /** Every position below n lies in exactly one block. */
  lemma {:induction false} BlockOf(n: nat, x: nat, p: nat, upTo: nat) returns (s: nat)
    requires 1 <= p && upTo <= p
    requires x < BlockBegin(n, upTo, p)
    ensures s < upTo && BlockBegin(n, s, p) <= x < BlockEnd(n, s, p)
    ensures forall t: nat :: t < p && BlockBegin(n, t, p) <= x < BlockEnd(n, t, p) ==> t == s
    decreases upTo
  {
    BlocksTile(n, p, 0, 0);
    if BlockBegin(n, upTo - 1, p) <= x {
      s := upTo - 1;
      forall t: nat | t < p && BlockBegin(n, t, p) <= x < BlockEnd(n, t, p)
        ensures t == s
      {
        BlockUnique(n, x, s, t, p);
      }
    } else {
      s := BlockOf(n, x, p, upTo - 1);
    }
  }

  /** No signed intermediate overflows. The last disjunct is the one input family on
      which two wrap-arounds cancel: a single block whose length, cut to 32 bits, is negative. */
  predicate NoOverflow(n: nat, p: int)
    requires Callable(n, p)
  {
    var block, rem := n / p, n % p;
    || (&& (p - rem) * block <= INT_MAX
        && (rem > 0 ==> block + 1 <= INT_MAX && (block + 1) * (rem - 1) <= INT_MAX))
    || (p == 1 && n >= TWO_TO_64 + INT_MIN)
  }

  /** `div_range` cuts a vector of this length into `p` blocks without overflow. */
  predicate Partitions(n: nat, p: int) {
    Callable(n, p) && NoOverflow(n, p)
  }

  ghost predicate Exact(n: nat, s: int, p: int)
    requires Callable(n, p) && 0 <= s < p
  {
    DivRange(n, s, p) == Range(BlockBegin(n, s, p), BlockEnd(n, s, p))
  }

  lemma DivMod(n: nat, p: int)
    requires 1 <= p
    ensures n == (n / p) * p + n % p && 0 <= n % p < p
    ensures 0 <= n / p <= n
  {
    var q := n / p;
    assert q <= q * p by {
      MulMonotone(1, p, q);
    }
  }

  lemma MulMonotone(a: int, b: int, c: int)
    requires a <= b && 0 <= c
    ensures a * c <= b * c
    ensures c * a <= c * b
  {
  }

  /** The two ways of writing where a block begins agree. */
  lemma BeginFromTheEnd(n: nat, s: int, p: int)
    requires 1 <= p && n % p <= s <= p
    ensures BlockBegin(n, s, p) == n - (p - s) * (n / p)
  {
    DivMod(n, p);
    var q := n / p;
    assert (p - s) * q == p * q - s * q;
  }

  lemma ExactWhenWrapsCancel(n: nat)
    requires Callable(n, 1) && n >= TWO_TO_64 + INT_MIN
    ensures Exact(n, 0, 1)
  {
    assert n / 1 == n && n % 1 == 0;
    assert ToInt(n) == n - TWO_TO_64;
  }

  /** One of the longer blocks. */
  lemma ExactLonger(n: nat, s: int, p: int)
    requires Callable(n, p) && 0 <= s < n % p
    requires n / p + 1 <= INT_MAX && (n / p + 1) * (n % p - 1) <= INT_MAX
    ensures Exact(n, s, p)
  {
    var block, rem := n / p, n % p;
    DivMod(n, p);
    MulMonotone(s, rem - 1, block + 1);
    MulMonotone(0, s, block + 1);
    assert (block + 1) * s == s * block + s;
    BlockLength(n, s, p);
  }

  /** One of the shorter blocks, placed from the end. */
  lemma ExactShorter(n: nat, s: int, p: int)
    requires Callable(n, p) && n % p <= s < p
    requires n / p <= INT_MAX && (p - n % p) * (n / p) <= INT_MAX
    ensures Exact(n, s, p)
  {
    var block := n / p;
    DivMod(n, p);
    MulMonotone(p - s, p - n % p, block);
    MulMonotone(0, p - s, block);
    BeginFromTheEnd(n, s, p);
    BlockLength(n, s, p);
    BlockBeginMonotone(n, s + 1, p, p);
    BlocksTile(n, p, 0, 0);
  }

  lemma ExactWithoutOverflow(n: nat, s: int, p: int)
    requires Callable(n, p) && 0 <= s < p
    requires NoOverflow(n, p)
    ensures Exact(n, s, p)
  {
    var block, rem := n / p, n % p;
    DivMod(n, p);
    if p == 1 && n >= TWO_TO_64 + INT_MIN {
      ExactWhenWrapsCancel(n);
    } else if s < rem {
      ExactLonger(n, s, p);
    } else {
      MulMonotone(1, p - rem, block);
      ExactShorter(n, s, p);
    }
  }

  /** A block length that does not fit an int shows at the last process. */
  lemma TruncatedBlockIsWrong(n: nat, p: int)
    requires Callable(n, p)
    requires n / p > INT_MAX && !(p == 1 && n >= TWO_TO_64 + INT_MIN)
    ensures !Exact(n, p - 1, p)
  {
    var block := n / p;
    DivMod(n, p);
    BeginFromTheEnd(n, p - 1, p);
    assert BlockBegin(n, p - 1, p) == n - block;
    var cut := ToInt(block);
    assert (p - (p - 1)) * cut == cut;
    if Exact(n, p - 1, p) {
      assert ToUnsigned(n - cut) == n - block;
      assert block == cut + TWO_TO_64;
      if p >= 2 {
        MulMonotone(2, p, block);
        assert false;
      }
    }
  }

  /** div_range computes the intended partition for every process if and only if NoOverflow holds. */
  lemma DivRangeExact(n: nat, p: int)
    requires Callable(n, p)
    ensures (forall s: int :: 0 <= s < p ==> Exact(n, s, p)) <==> NoOverflow(n, p)
  {
    if NoOverflow(n, p) {
      forall s: int | 0 <= s < p
        ensures Exact(n, s, p)
      {
        ExactWithoutOverflow(n, s, p);
      }
    } else {
      var block, rem := n / p, n % p;
      DivMod(n, p);
      if block > INT_MAX {
        TruncatedBlockIsWrong(n, p);
      } else if (p - rem) * block > INT_MAX {
        assert !Exact(n, rem, p);
      } else if block + 1 > INT_MAX {
        assert !Exact(n, 0, p);
      } else {
        assert !Exact(n, rem - 1, p);
      }
    }
  }

  /** Every length that fits an int is partitioned exactly, for every process count. */
  lemma IntLengthsAreExact(n: nat, p: int)
    requires 1 <= p <= INT_MAX && n <= INT_MAX
    ensures Partitions(n, p) && forall s: int :: 0 <= s < p ==> Exact(n, s, p)
  {
    IntLengthsFit(n, p);
    DivRangeExact(n, p);
  }

  lemma IntLengthsFit(n: nat, p: int)
    requires 1 <= p <= INT_MAX && n <= INT_MAX
    ensures Partitions(n, p)
  {
    var block, rem := n / p, n % p;
    DivMod(n, p);
    assert (p - rem) * block <= n by {
      MulMonotone(0, rem, block);
      assert (p - rem) * block == p * block - rem * block;
    }
    if rem > 0 {
      assert (block + 1) * (rem - 1) <= n by {
        assert (block + 1) * (rem - 1) == rem * block - block + rem - 1;
        MulMonotone(rem, p, block);
      }
      assert block + 1 <= n by {
        MulMonotone(1, p, block);
      }
    }
  }

  /** A call of `div_range` through its out-parameters, for every length that it can partition. */
  method DivideRange(n: nat, s: int, p: int) returns (beg: nat, end: nat)
    requires Partitions(n, p) && 0 <= s < p
    ensures beg == BlockBegin(n, s, p) && end == BlockEnd(n, s, p)
    ensures beg <= end && end - beg == BlockSize(n, s, p)
  {
    ExactWithoutOverflow(n, s, p);
    BlockBeginMonotone(n, s, s + 1, p);
    match DivRange(n, s, p) {
      case Range(b, e) => beg, end := b, e;
    }
  }
}
