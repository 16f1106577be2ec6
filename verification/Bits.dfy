/** Shifts of unbounded naturals, written so that every step is linear arithmetic. */
module Bits {

  /** `x >> n` */
  function Shr(x: nat, n: nat): nat
    decreases n
  {
    if n == 0 then x else Shr(x / 2, n - 1)
  }

  /** `x << n`, without truncation */
  function Shl(x: nat, n: nat): nat
    decreases n
  {
    if n == 0 then x else Shl(2 * x, n - 1)
  }

  lemma {:induction false} ShrAdd(x: nat, a: nat, b: nat)
    ensures Shr(x, a + b) == Shr(Shr(x, a), b)
    decreases a
  {
    if a != 0 {
      ShrAdd(x / 2, a - 1, b);
    }
  }

  lemma {:induction false} ShlAdd(x: nat, a: nat, b: nat)
    ensures Shl(x, a + b) == Shl(Shl(x, a), b)
    decreases a
  {
    if a != 0 {
      ShlAdd(2 * x, a - 1, b);
    }
  }

  lemma {:induction false} ShlMonotone(x: nat, y: nat, n: nat)
    requires x < y
    ensures Shl(x, n) < Shl(y, n)
    decreases n
  {
    if n != 0 {
      ShlMonotone(2 * x, 2 * y, n - 1);
    }
  }

  /** A right shift yields `q` exactly on the block of values that start with the digits of `q`. */
  lemma {:induction false} ShrRange(x: nat, n: nat, q: nat)
    ensures Shr(x, n) == q <==> Shl(q, n) <= x < Shl(q + 1, n)
    decreases n
  {
    if n != 0 {
      ShrRange(x / 2, n - 1, q);
      ShlHalf(x, 2 * q, n);
      ShlHalf(x, 2 * q + 2, n);
    }
  }

  /** Comparing a number with an even multiple of a power of two only looks at its upper half. */
  lemma {:induction false} ShlHalf(x: nat, q: nat, n: nat)
    requires n > 0 && q % 2 == 0
    ensures Shl(q, n - 1) == 2 * Shl(q / 2, n - 1)
    ensures Shl(q, n - 1) <= x <==> Shl(q / 2, n - 1) <= x / 2
    decreases n
  {
    ShlDouble(q / 2, n - 1);
  }

  lemma {:induction false} ShlDouble(x: nat, n: nat)
    ensures Shl(2 * x, n) == 2 * Shl(x, n)
    decreases n
  {
    if n != 0 {
      ShlDouble(2 * x, n - 1);
    }
  }

  lemma {:induction false} ShlLinear(x: nat, y: nat, n: nat)
    ensures Shl(x + y, n) == Shl(x, n) + Shl(y, n)
    decreases n
  {
    if n != 0 {
      ShlLinear(2 * x, 2 * y, n - 1);
    }
  }

  lemma {:induction false} ShlGrows(x: nat, n: nat)
    ensures x <= Shl(x, n)
    decreases n
  {
    if n != 0 {
      ShlGrows(2 * x, n - 1);
    }
  }

  /** `1 << n` */
  function PowerOfTwo(n: nat): (r: nat)
    ensures r >= 1
  {
    ShlGrows(1, n);
    Shl(1, n)
  }

  lemma ShlZero(n: nat)
    ensures Shl(0, n) == 0
  {
    ShlLinear(0, 0, n);
  }

  lemma ShrOfShl(q: nat, n: nat)
    ensures Shr(Shl(q, n), n) == q
  {
    ShlMonotone(q, q + 1, n);
    ShrRange(Shl(q, n), n, q);
  }
}
