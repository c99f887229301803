/** Masks and powers of two on natural numbers. */
module Bits {

  import opened Arith

  function Pow2(k: nat): (r: nat)
    ensures r > 0
  {
    if k == 0 then 1 else 2 * Pow2(k - 1)
  }

  /** Bitwise conjunction, bit by bit. */
  function And(x: nat, y: nat): nat {
    if x == 0 || y == 0 then 0 else (x % 2) * (y % 2) + 2 * And(x / 2, y / 2)
  }

  ghost predicate IsPow2(a: nat) {
    exists k: nat :: a == Pow2(k)
  }

  lemma {:induction false} AndOnes(v: nat, k: nat)
    requires v < Pow2(k)
    ensures And(v, Pow2(k) - 1) == v
    decreases k
  {
    if k > 0 && v > 0 {
      AndOnes(v / 2, k - 1);
      assert (Pow2(k) - 1) / 2 == Pow2(k - 1) - 1 && (Pow2(k) - 1) % 2 == 1;
    }
  }

  lemma HalvesOfRemainder(v: nat, h: nat)
    requires h > 0
    ensures v % (2 * h) == 2 * ((v / 2) % h) + v % 2
  {
    var q := (v / 2) / h;
    assert v == q * (2 * h) + (2 * ((v / 2) % h) + v % 2);
    DivModUnique(v, 2 * h, q, 2 * ((v / 2) % h) + v % 2);
  }

  /** Masking with the complement of 2^j - 1 drops the remainder. */
  lemma {:induction false} AndMask(v: nat, j: nat, k: nat)
    requires v < Pow2(k) && j <= k
    ensures Pow2(j) <= Pow2(k)
    ensures And(v, Pow2(k) - Pow2(j)) == v - v % Pow2(j)
    decreases j
  {
    if j == 0 {
      AndOnes(v, k);
    } else {
      AndMask(v / 2, j - 1, k - 1);
      HalvesOfRemainder(v, Pow2(j - 1));
      assert (Pow2(k) - Pow2(j)) / 2 == Pow2(k - 1) - Pow2(j - 1);
    }
  }

  /** Masking with 2^k - 1 leaves the remainder. */
  lemma {:induction false} AndRemainder(v: nat, k: nat)
    ensures And(v, Pow2(k) - 1) == v % Pow2(k)
    decreases k
  {
    hide And;
    if k == 0 {
      assert And(v, 0) == 0 by { AndZero(v); }
    } else {
      var h := Pow2(k - 1);
      AndRemainder(v / 2, k - 1);
      HalvesOfRemainder(v, h);
      AndOdd(v, h - 1);
      assert Pow2(k) - 1 == 2 * (h - 1) + 1;
    }
  }

  lemma AndZero(v: nat)
    ensures And(v, 0) == 0
  {
  }

  lemma AndOdd(v: nat, m: nat)
    ensures And(v, 2 * m + 1) == v % 2 + 2 * And(v / 2, m)
  {
    assert (2 * m + 1) / 2 == m && (2 * m + 1) % 2 == 1;
  }

  /** The test `a & (a - 1)` accepts exactly the powers of two. */
  lemma {:induction false} PowerTest(a: nat)
    requires a > 0
    ensures And(a, a - 1) == 0 <==> IsPow2(a)
    decreases a
  {
    if a == 1 {
      assert a == Pow2(0);
    } else if a % 2 == 0 {
      PowerTest(a / 2);
      assert (a - 1) / 2 == a / 2 - 1;
      if IsPow2(a / 2) {
        var k: nat :| a / 2 == Pow2(k);
        assert a == Pow2(k + 1);
      }
      if IsPow2(a) {
        var k: nat :| a == Pow2(k);
        assert a / 2 == Pow2(k - 1);
      }
    } else {
      assert And(a / 2, (a - 1) / 2) > 0 by { AndSelf(a / 2); }
      assert forall k: nat :: a == Pow2(k) ==> k == 0;
    }
  }

  lemma {:induction false} AndSelf(a: nat)
    ensures And(a, a) == a
    decreases a
  {
    if a > 0 {
      AndSelf(a / 2);
    }
  }
}
