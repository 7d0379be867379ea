/** The three bit tricks of uthash on unsigned integers, written out on digits and related to
    division: a mask with a power of two minus one, a right shift, and the rounded-up quotient
    that HASH_EXPAND_BUCKETS builds from the two. */
module Bits {

  function Pow2(k: nat): (r: nat)
    ensures r >= 1
  {
    if k == 0 then 1 else 2 * Pow2(k - 1)
  }

  /** Bitwise `a & b`, digit by digit. */
  function And(a: nat, b: nat): nat {
    if a == 0 || b == 0 then 0
    else 2 * And(a / 2, b / 2) + (if a % 2 == 1 && b % 2 == 1 then 1 else 0)
  }

  /** `a >> k`, one position at a time. */
  function Shr(a: nat, k: nat): nat
    decreases k
  {
    if k == 0 then a else Shr(a / 2, k - 1)
  }

  lemma HalfMod(a: nat, m: nat)
    requires m >= 1
    ensures a % (2 * m) == 2 * ((a / 2) % m) + a % 2
    ensures a / (2 * m) == (a / 2) / m
  {
    var q, r := (a / 2) / m, (a / 2) % m;
    assert a == 2 * (q * m + r) + a % 2;
    assert a == q * (2 * m) + (2 * r + a % 2) by {
      assert 2 * (q * m) == q * (2 * m);
    }
    DivModUnique(a, 2 * m, q, 2 * r + a % 2);
  }

  lemma MulMono(x: int, y: int, m: nat)
    requires x <= y
    ensures x * m <= y * m
  {
    assert (y - x) * m >= 0;
  }

  lemma DivModUnique(a: nat, m: nat, q: nat, r: nat)
    requires m >= 1 && a == q * m + r && r < m
    ensures a / m == q && a % m == r
  {
    var q' := a / m;
    assert (q' + 1) * m == q' * m + m && (q + 1) * m == q * m + m;
    if q' < q {
      MulMono(q' + 1, q, m);
    } else if q < q' {
      MulMono(q + 1, q', m);
    }
  }

  /** HASH_TO_BKT: masking with `2^k - 1` is the remainder modulo `2^k`. */
  lemma {:induction false} MaskIsMod(a: nat, k: nat)
    ensures And(a, Pow2(k) - 1) == a % Pow2(k)
    decreases k
  {
    if k == 0 {
    } else if a == 0 {
    } else {
      MaskIsMod(a / 2, k - 1);
      HalfMod(a, Pow2(k - 1));
      var m := Pow2(k) - 1;
      assert m / 2 == Pow2(k - 1) - 1 && m % 2 == 1;
    }
  }

  lemma {:induction false} ShiftIsDiv(a: nat, k: nat)
    ensures Shr(a, k) == a / Pow2(k)
    decreases k
  {
    if k > 0 {
      ShiftIsDiv(a / 2, k - 1);
      HalfMod(a, Pow2(k - 1));
    }
  }

  /** The expression HASH_EXPAND_BUCKETS assigns to `ideal_chain_maxlen`, for `n` items and
      `2^lb` buckets before the doubling. */
  function IdealChainMaxlen(n: nat, lb: nat): nat {
    Shr(n, lb + 1) + (if And(n, 2 * Pow2(lb) - 1) != 0 then 1 else 0)
  }

  /** That expression is the least chain length with which the doubled array can hold `n` items,
      and it is never zero when there is an item, so dividing by it is safe. */
  lemma IdealIsCeiling(n: nat, lb: nat)
    ensures var d := IdealChainMaxlen(n, lb);
            && n <= d * Pow2(lb + 1)
            && (n > 0 ==> d >= 1 && (d - 1) * Pow2(lb + 1) < n)
            && (n == 0 ==> d == 0)
  {
    ShiftIsDiv(n, lb + 1);
    MaskIsMod(n, lb + 1);
    CeilingByRemainder(n, Pow2(lb + 1));
  }

  lemma CeilingByRemainder(n: nat, b: nat)
    requires b >= 1
    ensures var d := n / b + (if n % b != 0 then 1 else 0);
            && n <= d * b
            && (n > 0 ==> d >= 1 && (d - 1) * b < n)
            && (n == 0 ==> d == 0)
  {
    var q, r := n / b, n % b;
    assert n == q * b + r;
    assert (q + 1) * b == q * b + b;
    assert (q - 1) * b == q * b - b;
    if n == 0 {
      DivModUnique(0, b, 0, 0);
    }
    if q == 0 && r == 0 {
      assert q * b == 0;
    }
  }
}
