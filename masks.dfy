/**
 * Goal subsets as the assignment dynamic programs of backend/app/main.py and
 * backend/astar_level36.py hold them: bit `j` of a non-negative integer mask
 * says that goal `j` is taken.
 */
module Masks {
  /** `1 << j`. */
  function Pow2(j: nat): (r: nat)
    ensures r >= 1
  {
    if j == 0 then 1 else 2 * Pow2(j - 1)
  }

  /** `(m >> j) & 1 == 1`. */
  predicate Bit(m: nat, j: nat) {
    if j == 0 then m % 2 == 1 else Bit(m / 2, j - 1)
  }

  /** `m.bit_count()`. */
  function PopCount(m: nat): nat {
    if m == 0 then 0 else m % 2 + PopCount(m / 2)
  }

  lemma {:induction false} ZeroHasNoBits(j: nat)
    ensures !Bit(0, j)
    decreases j
  {
    if j > 0 {
      ZeroHasNoBits(j - 1);
    }
  }

  /** Setting a clear bit (`m | 1 << j`, which is `m + 2^j` then) adds exactly that bit and one to the count. */
  lemma {:induction false} SetBit(m: nat, j: nat)
    requires !Bit(m, j)
    ensures forall i: nat :: Bit(m + Pow2(j), i) <==> Bit(m, i) || i == j
    ensures PopCount(m + Pow2(j)) == PopCount(m) + 1
    decreases j
  {
    if j == 0 {
      assert (m + 1) / 2 == m / 2;
      forall i: nat
        ensures Bit(m + 1, i) <==> Bit(m, i) || i == 0
      {
        if i > 0 {
          assert Bit(m + 1, i) == Bit((m + 1) / 2, i - 1);
        }
      }
    } else {
      var h := m / 2;
      assert (m + Pow2(j)) / 2 == h + Pow2(j - 1) && (m + Pow2(j)) % 2 == m % 2;
      SetBit(h, j - 1);
      forall i: nat
        ensures Bit(m + Pow2(j), i) <==> Bit(m, i) || i == j
      {
        if i > 0 {
          assert Bit(m + Pow2(j), i) == Bit(h + Pow2(j - 1), i - 1);
        }
      }
    }
  }

  /** A set bit can be cleared by subtracting its weight. */
  lemma {:induction false} ClearBit(m: nat, j: nat)
    requires Bit(m, j)
    ensures Pow2(j) <= m && !Bit(m - Pow2(j), j)
    decreases j
  {
    if j > 0 {
      ClearBit(m / 2, j - 1);
      assert (m - Pow2(j)) / 2 == m / 2 - Pow2(j - 1);
    }
  }

  /** A non-zero mask has a set bit. */
  lemma {:induction false} SomeBit(m: nat) returns (j: nat)
    requires m > 0
    ensures Bit(m, j)
    decreases m
  {
    if m % 2 == 1 {
      j := 0;
    } else {
      var i := SomeBit(m / 2);
      j := i + 1;
    }
  }

  /** A mask below `2^n` uses only the first `n` bits and at most `n` of them. */
  lemma {:induction false} MaskBelow(m: nat, n: nat)
    requires m < Pow2(n)
    ensures forall i: nat :: Bit(m, i) ==> i < n
    ensures PopCount(m) <= n
    decreases n
  {
    if n == 0 {
      forall i: nat
        ensures !Bit(m, i)
      {
        ZeroHasNoBits(i);
      }
    } else {
      MaskBelow(m / 2, n - 1);
      forall i: nat | Bit(m, i)
        ensures i < n
      {
        if i > 0 {
          assert Bit(m / 2, i - 1);
        }
      }
    }
  }

  /** Setting a clear bit below `n` stays below `2^n`. */
  lemma {:induction false} SetBitBelow(m: nat, j: nat, n: nat)
    requires m < Pow2(n) && j < n && !Bit(m, j)
    ensures m + Pow2(j) < Pow2(n)
    decreases j
  {
    assert Pow2(n) == 2 * Pow2(n - 1);
    if j == 0 {
      assert m % 2 == 0 && m == 2 * (m / 2);
      assert m / 2 < Pow2(n - 1);
    } else {
      assert m / 2 < Pow2(n - 1);
      SetBitBelow(m / 2, j - 1, n - 1);
      assert m + Pow2(j) == 2 * (m / 2 + Pow2(j - 1)) + m % 2;
    }
  }

  /** `(1 << n) - 1`: every one of the first `n` goals taken. */
  function Full(n: nat): nat {
    Pow2(n) - 1
  }

  /** The full mask has exactly the first `n` bits. */
  lemma {:induction false} FullMask(n: nat)
    ensures forall i: nat :: Bit(Full(n), i) <==> i < n
    ensures PopCount(Full(n)) == n
    decreases n
  {
    if n == 0 {
      forall i: nat
        ensures !Bit(0, i)
      {
        ZeroHasNoBits(i);
      }
    } else {
      FullMask(n - 1);
      assert Full(n) / 2 == Full(n - 1) && Full(n) % 2 == 1;
      forall i: nat
        ensures Bit(Full(n), i) <==> i < n
      {
        if i > 0 {
          assert Bit(Full(n), i) == Bit(Full(n - 1), i - 1);
        }
      }
    }
  }

  /** The only mask below `2^n` with `n` bits set is the full one. */
  lemma {:induction false} OnlyFullMask(m: nat, n: nat)
    requires m < Pow2(n) && PopCount(m) == n
    ensures m == Full(n)
    decreases n
  {
    if n > 0 {
      MaskBelow(m / 2, n - 1);
      OnlyFullMask(m / 2, n - 1);
    }
  }
}
