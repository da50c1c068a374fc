/** kroundup32 of khash.h, on 32-bit unsigned values, and the load bound computed from 0.77. */
module RoundUp {
  import opened Probe

  const WORD: nat := 0x1_0000_0000

  /** x >> k */
  function Shr(x: nat, k: nat): nat {
    if k == 0 then x else Shr(x / 2, k - 1)
  }

  /** x | y */
  function Or(x: nat, y: nat): nat
    decreases x + y
  {
    if x == 0 && y == 0 then 0
    else 2 * Or(x / 2, y / 2) + (if x % 2 == 1 || y % 2 == 1 then 1 else 0)
  }

  /** k one-bits. */
  function Ones(k: nat): nat {
    if k == 0 then 0 else 2 * Ones(k - 1) + 1
  }

  function Pow(k: nat): (p: nat)
    ensures IsPow2(p)
    ensures p == Ones(k) + 1
  {
    if k == 0 then 1 else assert 2 * Pow(k - 1) / 2 == Pow(k - 1); 2 * Pow(k - 1)
  }

  lemma {:induction false} ShrShr(x: nat, i: nat, j: nat)
    ensures Shr(Shr(x, i), j) == Shr(x, i + j)
  {
    if i > 0 {
      ShrShr(x / 2, i - 1, j);
    }
  }

  lemma {:induction false} ShrOr(x: nat, y: nat, k: nat)
    ensures Shr(Or(x, y), k) == Or(Shr(x, k), Shr(y, k))
  {
    if k > 0 {
      ShrOr(x / 2, y / 2, k - 1);
    }
  }

  lemma {:induction false} OrOnes(x: nat, j: nat, m: nat)
    requires Shr(x, j) == Ones(m)
    ensures Or(x, Ones(j)) == Ones(m + j)
  {
    if j == 0 {
      OrZero(x);
    } else {
      OrOnes(x / 2, j - 1, m);
    }
  }

  lemma {:induction false} OrZero(x: nat)
    ensures Or(x, 0) == x
  {
    if x > 0 {
      OrZero(x / 2);
    }
  }

  lemma {:induction false} ShrOnes(j: nat, k: nat)
    requires k <= j
    ensures Shr(Ones(j), k) == Ones(j - k)
  {
    if k > 0 {
      ShrOnes(j - 1, k - 1);
    }
  }

  function Min(a: nat, b: nat): nat {
    if a <= b then a else b
  }

  /** The top Min(j, w) bits of the w-bit number x are all ones. */
  predicate Run(x: nat, w: nat, j: nat) {
    Shr(x, w - Min(j, w)) == Ones(Min(j, w))
  }

  /** Smearing by j doubles the run of ones below the top bit. */
  lemma SmearShort(x: nat, w: nat, j: nat, r: nat)
    requires j <= w && Shr(x, w - j) == Ones(j) && r == Min(2 * j, w)
    ensures Shr(Or(x, Shr(x, j)), w - r) == Ones(r)
  {
    ShrOr(x, Shr(x, j), w - r);
    ShiftedCopy(x, w, j, r);
    ShrShr(x, w - r, r - j);
    OrOnes(Shr(x, w - r), r - j, j);
  }

  lemma ShiftedCopy(x: nat, w: nat, j: nat, r: nat)
    requires j <= r <= w && r <= 2 * j && Shr(x, w - j) == Ones(j)
    ensures Shr(Shr(x, j), w - r) == Ones(r - j)
  {
    ShrShr(x, j, w - r);
    ShrShr(x, w - j, 2 * j - r);
    ShrOnes(j, 2 * j - r);
  }

  lemma SmearDone(x: nat, w: nat, j: nat)
    requires w < j && x == Ones(w)
    ensures Or(x, Shr(x, j)) == x
  {
    ShrShr(x, w, j - w);
    ShrOnes(w, w);
    ShrZero(j - w);
    OrZero(x);
  }

  lemma SmearFrom(x: nat, y: nat, w: nat, j: nat)
    requires Run(x, w, j) && y == Or(x, Shr(x, j))
    ensures Run(y, w, 2 * j)
  {
    if w < j {
      assert Shr(x, 0) == x;
      SmearDone(x, w, j);
    } else {
      SmearShort(x, w, j, Min(2 * j, w));
    }
  }

  lemma {:induction false} ShrZero(k: nat)
    ensures Shr(0, k) == 0
  {
    if k > 0 {
      ShrZero(k - 1);
    }
  }

  /** A positive number has a top bit. */
  lemma {:induction false} TopBit(x: nat) returns (w: nat)
    requires x > 0
    ensures w > 0 && Shr(x, w - 1) == 1 && Pow(w - 1) <= x < Pow(w)
  {
    if x == 1 {
      w := 1;
    } else {
      var v := TopBit(x / 2);
      w := v + 1;
    }
  }

  lemma {:induction false} PowMonotone(i: nat, j: nat)
    requires i <= j
    ensures Pow(i) <= Pow(j)
  {
    if i < j {
      PowMonotone(i, j - 1);
    }
  }

  lemma Pow32()
    ensures Pow(31) == WORD / 2 && Pow(32) == WORD
  {
    assert Pow(8) == 0x100;
    assert Pow(16) == 0x1_0000;
    assert Pow(24) == 0x100_0000;
    assert Pow(31) == 0x8000_0000;
  }

  /** The number of bits of a word. */
  lemma BitWidth(a: nat) returns (w: nat)
    requires a < WORD
    ensures w <= 32 && Run(a, w, 1) && a < Pow(w) && (w > 0 ==> Pow(w - 1) <= a)
    ensures w == 32 <==> a >= WORD / 2
  {
    if a == 0 {
      w := 0;
      Pow32();
    } else {
      w := TopBit(a);
      WidthBounds(a, w);
      assert Ones(1) == 1;
    }
  }

  lemma WidthBounds(a: nat, w: nat)
    requires w > 0 && Pow(w - 1) <= a < Pow(w) && a < WORD
    ensures w <= 32
    ensures w == 32 <==> a >= WORD / 2
  {
    Pow32();
    if w > 32 {
      PowMonotone(32, w - 1);
    } else if w < 32 {
      PowMonotone(w, 31);
    }
  }

  lemma PowBounds(w: nat)
    requires w <= 32
    ensures if w == 32 then Pow(w) == WORD else Pow(w) <= WORD / 2
  {
    Pow32();
    if w <= 31 {
      PowMonotone(w, 31);
    }
  }

  lemma PowDouble(w: nat)
    requires w > 0
    ensures Pow(w) == 2 * Pow(w - 1)
  {
  }

  /** The five or-shift updates: zero stays zero, anything else becomes all ones up to its top bit. */
  method SmearWord(a: nat, ghost w: nat) returns (x: nat)
    requires w <= 32 && Run(a, w, 1)
    ensures x + 1 == Pow(w)
  {
    x := a;
    x := SmearOnce(x, w, 1);
    x := SmearOnce(x, w, 2);
    x := SmearOnce(x, w, 4);
    x := SmearOnce(x, w, 8);
    x := SmearOnce(x, w, 16);
    RunAll(x, w);
  }

  method SmearOnce(x: nat, ghost w: nat, j: nat) returns (y: nat)
    requires Run(x, w, j)
    ensures Run(y, w, 2 * j)
  {
    y := Or(x, Shr(x, j));
    SmearFrom(x, y, w, j);
  }

  lemma RunAll(x: nat, w: nat)
    requires w <= 32 && Run(x, w, 32)
    ensures x == Ones(w)
  {
    assert Min(32, w) == w;
    assert Shr(x, 0) == x;
  }

  /** The least power of two that is at least x. */
  function LeastPow2(x: nat): (p: nat)
    ensures IsPow2(p) && x <= p && (x > 1 ==> p < 2 * x)
  {
    DoubleUntil(x, 1)
  }

  function DoubleUntil(x: nat, p: nat): (r: nat)
    requires IsPow2(p)
    ensures IsPow2(r) && x <= r && (r == p || r < 2 * x)
    decreases x - p
  {
    if x <= p then p else assert 2 * p / 2 == p; DoubleUntil(x, 2 * p)
  }

  /** Different powers of two are at least a factor of two apart. */
  lemma {:induction false} Pow2Gap(p: nat, q: nat)
    requires IsPow2(p) && IsPow2(q) && p < q
    ensures 2 * p <= q
  {
    if p > 1 {
      Pow2Gap(p / 2, q / 2);
    }
  }

  /** It is the least one, and the only one below 2x. */
  lemma LeastPow2Unique(x: nat, p: nat)
    requires IsPow2(p) && x <= p
    ensures LeastPow2(x) <= p
    ensures 1 < x && p < 2 * x ==> LeastPow2(x) == p
  {
    var q := LeastPow2(x);
    if p < q {
      Pow2Gap(p, q);
    } else if q < p {
      Pow2Gap(q, p);
    }
  }

  /** The two requests kh_put makes: n - 1 rounds to n again and n + 1 rounds to 2n. */
  lemma PutRequests(n: nat)
    requires IsPow2(n) && n >= 4
    ensures LeastPow2(n - 1) == n && LeastPow2(n + 1) == 2 * n
  {
    LeastPow2Unique(n - 1, n);
    Doubled(n);
    LeastPow2Unique(n + 1, 2 * n);
  }

  lemma Doubled(n: nat)
    requires IsPow2(n)
    ensures IsPow2(2 * n)
  {
    assert 2 * n / 2 == n;
  }

  /** kroundup32: the least power of two that is at least x; 0 for 0 and when that power does not fit in 32 bits. */
  method KRoundUp32(x: nat) returns (r: nat)
    requires x < WORD
    ensures r == if 1 <= x <= WORD / 2 then LeastPow2(x) else 0
    ensures r <= WORD / 2
  {
    var a := if x == 0 then WORD - 1 else x - 1;
    ghost var w := BitWidth(a);
    PowBounds(w);
    var f := SmearWord(a, w);
    r := if f + 1 == WORD then 0 else f + 1;
    if 1 < x <= WORD / 2 {
      PowDouble(w);
      LeastPow2Unique(x, Pow(w));
    }
  }

  /** The fill limit of a table of n buckets, 0.77 n rounded to the nearest integer. */
  function UpperBound(n: nat): nat {
    (77 * n + 50) / 100
  }

  /** For a power of two from 4 on, n * 77 + 50 is no multiple of 100. */
  lemma NotOnBoundary(n: nat)
    requires IsPow2(n) && n >= 4
    ensures (77 * n + 50) % 100 != 0
  {
    assert n % 4 == 0;
  }

  lemma MulMonotone(m: real, x: real, y: real)
    requires m >= 0.0 && x <= y
    ensures m * x <= m * y
  {
  }

  /** How close a double has to be to 0.77. */
  const NEAR: real := 0.000000000001

  lemma SmallProduct(m: real, d: real)
    requires 0.0 <= m <= 2147483648.0 && 0.0 <= d <= NEAR
    ensures 0.0 <= m * d <= 0.0022
  {
    MulMonotone(m, 0.0, d);
    MulMonotone(m, d, 0.000000000001);
    assert m * 0.0 <= m * d <= m * 0.000000000001;
  }

  lemma ProductOfNegative(m: real, d: real)
    ensures m * (0.0 - d) == 0.0 - m * d
  {
  }

  lemma MulSplit(m: real, c: real, d: real)
    ensures m * c == m * d + m * (c - d)
  {
  }

  /** p is m * c and q is m * 0.77. */
  lemma Nearby(m: real, c: real, p: real, q: real)
    requires 0.0 <= m <= 2147483648.0 && 0.0 - NEAR <= c - 0.77 <= NEAR && p == m * c && q == m * 0.77
    ensures -0.0022 <= p - q <= 0.0022
  {
    var d := c - 0.77;
    MulSplit(m, c, 0.77);
    if d >= 0.0 {
      SmallProduct(m, d);
    } else {
      SmallProduct(m, 0.0 - d);
      ProductOfNegative(m, d);
    }
  }

  /** So 0.77 need not be exact: any multiplier c this close to it, and any rounding error e of the product and
      the sum, give the same limit for every table size. */
  lemma SameLimit(n: nat, c: real, e: real)
    requires IsPow2(n) && 4 <= n <= WORD / 2
    requires 0.0 - NEAR <= c - 0.77 <= NEAR && -0.001 <= e <= 0.001
    ensures (n as real * c + 0.5 + e).Floor == UpperBound(n)
  {
    var p, q := n as real * c, n as real * 0.77;
    NotOnBoundary(n);
    Nearby(n as real, c, p, q);
    FloorOfNearby(n, p + 0.5 + e, q);
  }

  lemma FloorOfNearby(n: nat, x: real, q: real)
    requires (77 * n + 50) % 100 != 0 && q == n as real * 0.77
    requires -0.004 < x - q - 0.5 < 0.004
    ensures x.Floor == UpperBound(n)
  {
    var k, r := UpperBound(n), (77 * n + 50) % 100;
    assert 77 * n + 50 == 100 * k + r;
    assert (q + 0.5) * 100.0 == (100 * k + r) as real;
    assert k as real <= x < k as real + 1.0;
  }

  /** (khint_t)(n * __ac_HASH_UPPER + 0.5) in floating point: the constant is some double near 0.77, and the product
      and the sum are rounded. */
  method ComputeUpperBound(n: nat) returns (u: nat)
    requires IsPow2(n) && 4 <= n <= WORD / 2
    ensures u == UpperBound(n)
  {
    var c: real, e: real := *, *;
    if c - 0.77 < 0.0 - NEAR || c - 0.77 > NEAR || e < -0.001 || e > 0.001 {
      c, e := 0.77, 0.0;
    }
    SameLimit(n, c, e);
    u := (n as real * c + 0.5 + e).Floor;
  }

  /** A table that is at most half full is below its limit, and the limit leaves an empty bucket. */
  lemma LoadRoom(n: nat)
    requires n >= 4
    ensures n / 2 <= UpperBound(n) < n
    ensures UpperBound(n) < UpperBound(2 * n)
  {
  }
}
