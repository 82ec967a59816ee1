/** Bitwise C operators on unbounded naturals, and what they mean for powers of two. */
module Bits {
  function Pow2(n: nat): (r: nat)
    ensures r > 0
  {
    if n == 0 then 1 else 2 * Pow2(n - 1)
  }

  /** `x & y`, bit by bit. */
  function And(x: nat, y: nat): nat {
    if x == 0 || y == 0 then 0 else (x % 2) * (y % 2) + 2 * And(x / 2, y / 2)
  }

  /** `x >> n`. */
  function Shr(x: nat, n: nat): nat {
    if n == 0 then x else Shr(x / 2, n - 1)
  }

  lemma AndOdd(x: nat, h: nat)
    ensures And(x, 2 * h + 1) == x % 2 + 2 * And(x / 2, h)
  {
    assert (2 * h + 1) / 2 == h && (2 * h + 1) % 2 == 1;
  }

  /** Masking with 2^n - 1 keeps the remainder. */
  lemma {:induction false} AndLowMask(x: nat, n: nat)
    ensures And(x, Pow2(n) - 1) == x % Pow2(n)
    decreases n
  {
    if n > 0 {
      var m := Pow2(n - 1);
      AndLowMask(x / 2, n - 1);
      ModHalf(x, m);
      AndOdd(x, m - 1);
    }
  }

  lemma {:induction false} ModHalf(x: nat, m: nat)
    requires m > 0
    ensures x % (2 * m) == x % 2 + 2 * ((x / 2) % m) && x / (2 * m) == (x / 2) / m
  {
    var h := x / 2;
    var q, r := h / m, h % m;
    assert x == 2 * (q * m + r) + x % 2;
    assert x == q * (2 * m) + (2 * r + x % 2);
    DivUnique(x, 2 * m, q, 2 * r + x % 2);
  }

  lemma {:induction false} DivUnique(x: int, m: nat, q: int, r: nat)
    requires m > 0 && x == q * m + r && r < m
    ensures x / m == q && x % m == r
  {
    var q', r' := x / m, x % m;
    assert x == q' * m + r';
    assert (q' - q) * m == r - r' by { Distribute(q', q, m); }
    if q' > q {
      MulAtLeast(q' - q, m);
    } else if q' < q {
      assert (q - q') * m == r' - r by { Distribute(q, q', m); }
      MulAtLeast(q - q', m);
    }
  }

  lemma {:induction false} Distribute(a: int, b: int, m: int)
    ensures (a - b) * m == a * m - b * m
  {
  }

  lemma {:induction false} MulAtLeast(a: int, m: nat)
    requires a >= 1
    ensures a * m >= m
  {
    assert a * m == (a - 1) * m + m;
  }

  lemma {:induction false} ShrIsDiv(x: nat, n: nat)
    ensures Shr(x, n) == x / Pow2(n)
    decreases n
  {
    if n > 0 {
      ShrIsDiv(x / 2, n - 1);
      ModHalf(x, Pow2(n - 1));
    }
  }

  /** Within `w` bits, masking with the complement of 2^n - 1 tests for values of at least 2^n. */
  lemma {:induction false} AndHighMask(d: nat, w: nat, n: nat)
    requires n <= w && d < Pow2(w)
    ensures Pow2(n) <= Pow2(w)
    ensures And(Pow2(w) - Pow2(n), d) == 0 <==> d < Pow2(n)
    decreases w
  {
    if n == 0 {
      AndComm(Pow2(w) - 1, d);
      AndLowMask(d, w);
      DivUnique(d, Pow2(w), 0, d);
    } else {
      AndHighMask(d / 2, w - 1, n - 1);
      var m := Pow2(w) - Pow2(n);
      assert m == 2 * (Pow2(w - 1) - Pow2(n - 1));
      assert m / 2 == Pow2(w - 1) - Pow2(n - 1) && m % 2 == 0;
    }
  }

  lemma {:induction false} AndComm(x: nat, y: nat)
    ensures And(x, y) == And(y, x)
    decreases x
  {
    if x != 0 && y != 0 {
      AndComm(x / 2, y / 2);
    }
  }

  /** `c` is n / b rounded up. */
  ghost predicate IsCeil(c: int, n: int, b: int) {
    (c - 1) * b < n <= c * b
  }

  /** ceil(n / b) for b = 2^k by a shift and a mask, as `HASH_EXPAND_BUCKETS` computes it. */
  lemma {:induction false} ShiftCeil(n: nat, k: nat)
    ensures var b := Pow2(k); var c := Shr(n, k) + (if And(n, b - 1) != 0 then 1 else 0);
            IsCeil(c, n, b) && (n > 0 ==> c > 0)
  {
    ShrIsDiv(n, k);
    AndLowMask(n, k);
    CeilDiv(n, Pow2(k));
  }

  lemma {:induction false} CeilDiv(n: nat, b: nat)
    requires b > 0
    ensures var c := n / b + (if n % b != 0 then 1 else 0); IsCeil(c, n, b) && (n > 0 ==> c > 0)
  {
    var q, r := n / b, n % b;
    assert n == q * b + r && (q + 1) * b == q * b + b && (q - 1) * b == q * b - b;
  }

  lemma {:induction false} Pow2Sum(m: nat, n: nat)
    ensures Pow2(m + n) == Pow2(m) * Pow2(n)
  {
    if m > 0 {
      Pow2Sum(m - 1, n);
    }
  }

  /** The position of the lowest set bit. */
  function LowBit(x: nat): nat
    requires x > 0
  {
    if x % 2 == 1 then 0 else 1 + LowBit(x / 2)
  }

  lemma {:induction false} LowBitFits(x: nat)
    requires x > 0
    ensures Pow2(LowBit(x)) <= x
  {
    if x % 2 == 0 {
      LowBitFits(x / 2);
    }
  }

  /** Setting a bit below the lowest set bit makes it the lowest. */
  lemma {:induction false} LowBitPlus(x: nat, i: nat)
    requires x == 0 || i < LowBit(x)
    ensures LowBit(x + Pow2(i)) == i
  {
    if i == 0 {
      assert x % 2 == 0;
    } else {
      assert x % 2 == 0;
      LowBitPlus(x / 2, i - 1);
      assert (x + Pow2(i)) / 2 == x / 2 + Pow2(i - 1);
    }
  }

  /** Clearing the lowest set bit leaves only higher ones. */
  lemma {:induction false} LowBitMinus(x: nat)
    requires x > 0
    ensures Pow2(LowBit(x)) <= x
    ensures x - Pow2(LowBit(x)) > 0 ==> LowBit(x) < LowBit(x - Pow2(LowBit(x)))
  {
    LowBitFits(x);
    if x % 2 == 0 {
      LowBitMinus(x / 2);
      assert (x - Pow2(LowBit(x))) / 2 == x / 2 - Pow2(LowBit(x / 2));
    }
  }

  lemma {:induction false} AndSelf(x: nat)
    ensures And(x, x) == x
  {
    if x > 0 {
      AndSelf(x / 2);
    }
  }

  /** `x & (x - 1)` clears the lowest set bit. */
  lemma {:induction false} LowBitCleared(x: nat)
    requires x > 0
    ensures Pow2(LowBit(x)) <= x
    ensures And(x, x - 1) == x - Pow2(LowBit(x))
  {
    LowBitFits(x);
    if x % 2 == 1 {
      AndSelf(x / 2);
      assert (x - 1) / 2 == x / 2;
    } else {
      LowBitCleared(x / 2);
      assert (x - 1) / 2 == x / 2 - 1 && (x - 1) % 2 == 1;
    }
  }

  lemma {:induction false} Pow2Grows(i: nat, j: nat)
    requires i < j
    ensures 2 * Pow2(i) <= Pow2(j)
  {
    if i + 1 < j {
      Pow2Grows(i, j - 1);
    }
  }
}
