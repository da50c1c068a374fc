/** Triangular probing over a power-of-two table: the number theory behind khash.h's
    stepping function i*(i+1)/2. */
module Probe {

  /** n is 2^k for some k. */
  predicate IsPow2(n: nat) {
    n == 1 || (n > 1 && n % 2 == 0 && IsPow2(n / 2))
  }

  /** The s-th triangular number 0 + 1 + ... + s, the displacement after s probes. */
  function Tri(s: nat): nat {
    if s == 0 then 0 else Tri(s - 1) + s
  }

  /** x & y */
  function And(x: nat, y: nat): (r: nat)
    ensures r <= y
    decreases x + y
  {
    if x == 0 || y == 0 then 0
    else 2 * And(x / 2, y / 2) + (if x % 2 == 1 && y % 2 == 1 then 1 else 0)
  }

  /** h & mask in a table of n buckets, where mask is n - 1. */
  function Mask(h: nat, n: nat): (i: nat)
    requires n > 0
    ensures i < n
  {
    And(h, n - 1)
  }

  /** For a power of two, and only because it is one, masking is taking the remainder. */
  lemma {:induction false} MaskIsMod(a: nat, n: nat)
    requires IsPow2(n)
    ensures Mask(a, n) == a % n
    decreases n
  {
    if n == 1 {
      assert a % 1 == 0;
    } else {
      assert (n - 1) / 2 == n / 2 - 1 && (n - 1) % 2 == 1;
      MaskIsMod(a / 2, n / 2);
      AndHalves(a, n - 1);
      HalfMod(a, n);
    }
  }

  lemma AndHalves(x: nat, y: nat)
    requires y % 2 == 1
    ensures And(x, y) == 2 * And(x / 2, y / 2) + x % 2
  {
  }

  lemma HalfMod(a: nat, n: nat)
    requires n > 1 && n % 2 == 0
    ensures a % n == 2 * ((a / 2) % (n / 2)) + a % 2
  {
    var m, h := n / 2, a / 2;
    var q, r := h / m, h % m;
    Euclid(h, m);
    MulAssoc(m, q);
    DivUnique(a, n, q, 2 * r + a % 2);
  }

  /** The bucket looked at after s steps from the hash value `home`, stepping as the probe loops do. */
  function At(home: nat, s: nat, n: nat): (i: nat)
    requires n > 0
    ensures i < n
  {
    if s == 0 then Mask(home, n) else Mask(At(home, s - 1, n) + s, n)
  }

  lemma {:induction false} TriClosedForm(s: nat)
    ensures 2 * Tri(s) == s * (s + 1)
  {
    if s > 0 {
      TriClosedForm(s - 1);
    }
  }

  /** The walk in closed form: s steps move on by the s-th triangular number, modulo the table size. */
  lemma {:induction false} AtClosedForm(home: nat, s: nat, n: nat)
    requires IsPow2(n)
    ensures At(home, s, n) == (home + Tri(s)) % n
  {
    if s == 0 {
      MaskIsMod(home, n);
    } else {
      AtClosedForm(home, s - 1, n);
      AtStep(home, s, n);
    }
  }

  lemma AtStep(home: nat, s: nat, n: nat)
    requires IsPow2(n) && s > 0 && At(home, s - 1, n) == (home + Tri(s - 1)) % n
    ensures At(home, s, n) == (home + Tri(s)) % n
  {
    AtNext(home, s, n);
    ModChain(home + Tri(s - 1), At(home, s - 1, n), s, At(home, s, n), n);
  }

  lemma AtNext(home: nat, s: nat, n: nat)
    requires IsPow2(n) && s > 0
    ensures At(home, s, n) == (At(home, s - 1, n) + s) % n
  {
    MaskIsMod(At(home, s - 1, n) + s, n);
  }

  lemma ModChain(a: nat, x: nat, s: nat, y: nat, n: nat)
    requires n > 0 && x == a % n && y == (x + s) % n
    ensures y == (a + s) % n
  {
    ModAdd(a, s, n);
  }

  lemma ModAdd(a: nat, s: nat, n: nat)
    requires n > 0
    ensures (a % n + s) % n == (a + s) % n
  {
    Euclid(a, n);
    ModShift(a % n + s, a / n, n);
  }

  lemma ModShift(r: nat, q: int, n: nat)
    requires n > 0 && r + n * q >= 0
    ensures (r + n * q) % n == r % n
  {
    var d := r / n;
    assert r == n * d + r % n;
    assert r + n * q == n * (d + q) + r % n;
    DivUnique(r + n * q, n, d + q, r % n);
  }

  /** A nonzero multiple of n is at least n away from zero. */
  lemma MultipleAway(n: int, d: int)
    requires n > 0
    ensures d >= 1 ==> n * d >= n
    ensures d <= -1 ==> n * d <= -n
  {
  }

  lemma DivUnique(a: int, n: nat, q: int, r: nat)
    requires n > 0 && r < n && a == n * q + r
    ensures a % n == r
  {
    var q' := a / n;
    assert n * (q - q') == n * q - n * q';
    MultipleAway(n, q - q');
  }

  /** A power of two that divides a product divides the factor next to an odd one. */
  lemma {:induction false} OddFactor(n: nat, a: int, b: int, q: int) returns (r: int)
    requires IsPow2(n) && a % 2 == 1 && a * b == n * q
    ensures b == n * r
    decreases n
  {
    if n == 1 {
      r := b;
    } else {
      var m, c := n / 2, a / 2;
      assert a == 2 * c + 1;
      var half := m * q - c * b;
      assert a * b == 2 * (c * b) + b;
      assert n * q == 2 * (m * q);
      assert b == 2 * half;
      assert a * b == 2 * (a * half);
      r := OddFactor(m, a, half, q);
      assert n * r == 2 * (m * r);
    }
  }

  lemma ProductOfSums(s: int, t: int)
    ensures (t - s) * (t + s + 1) == t * (t + 1) - s * (s + 1)
  {
  }

  lemma MulAssoc(n: int, q: int)
    ensures (2 * n) * q == 2 * (n * q)
  {
  }

  lemma GapProduct(s: nat, t: nat, n: int, q: int)
    requires Tri(t) - Tri(s) == n * q
    ensures (t - s) * (t + s + 1) == (2 * n) * q
  {
    TriClosedForm(s);
    TriClosedForm(t);
    ProductOfSums(s, t);
    MulAssoc(n, q);
  }

  /** Two counters below 2n - 1 whose triangular numbers agree modulo n are equal or add up to 2n - 1. */
  lemma SameResidue(s: nat, t: nat, n: nat, q: int)
    requires IsPow2(n) && s < t && Tri(t) - Tri(s) == n * q
    ensures t - s >= 2 * n || t + s + 1 >= 2 * n
  {
    GapProduct(s, t, n, q);
    var m := 2 * n;
    assert IsPow2(m) by { assert m / 2 == n; }
    OneIsBig(t - s, t + s + 1, s, m, q);
  }

  lemma OneIsBig(x: int, y: int, s: nat, m: nat, q: int)
    requires IsPow2(m) && x > 0 && y == x + 2 * s + 1 && x * y == m * q
    ensures x >= m || y >= m
  {
    if x % 2 == 1 {
      BigFactor(m, x, y, q);
    } else {
      BigFactor(m, y, x, q);
    }
  }

  lemma BigFactor(n: nat, a: int, b: int, q: int)
    requires IsPow2(n) && a % 2 == 1 && b > 0 && a * b == n * q
    ensures b >= n
  {
    var r := OddFactor(n, a, b, q);
    MultipleAway(n, r);
  }

  lemma Collide(home: nat, s: nat, t: nat, n: nat) returns (q: int)
    requires IsPow2(n) && At(home, s, n) == At(home, t, n)
    ensures Tri(t) - Tri(s) == n * q
  {
    var a, b := home + Tri(s), home + Tri(t);
    AtClosedForm(home, s, n);
    AtClosedForm(home, t, n);
    q := (home + Tri(t)) / n - (home + Tri(s)) / n;
    Euclid(home + Tri(s), n);
    Euclid(home + Tri(t), n);
    MulMinus(n, (home + Tri(t)) / n, (home + Tri(s)) / n);
  }

  lemma Euclid(a: int, n: int)
    requires n > 0
    ensures a == n * (a / n) + a % n
  {
  }

  lemma MulMinus(n: int, x: int, y: int)
    ensures n * (x - y) == n * x - n * y
  {
  }

  /** The first n probes visit n different buckets. */
  lemma ProbesDistinct(home: nat, s: nat, t: nat, n: nat)
    requires IsPow2(n) && s < t < n
    ensures At(home, s, n) != At(home, t, n)
  {
    if At(home, s, n) == At(home, t, n) {
      var q := Collide(home, s, t, n);
      SameResidue(s, t, n, q);
    }
  }

  lemma FullCircle(home: nat, n: nat)
    requires IsPow2(n)
    ensures At(home, 2 * n - 1, n) == At(home, 0, n)
  {
    var s := 2 * n - 1;
    TriClosedForm(s);
    FullTurns(n);
    assert Tri(s) == n * s;
    AtClosedForm(home, s, n);
    AtClosedForm(home, 0, n);
    ModShift(home, s, n);
  }

  lemma FullTurns(n: nat)
    requires n > 0
    ensures (2 * n - 1) * (2 * n - 1 + 1) == 2 * (n * (2 * n - 1))
  {
  }

  /** The walk is back at its first bucket after 2n - 1 steps and at no earlier step. */
  lemma FirstReturn(home: nat, s: nat, n: nat)
    requires IsPow2(n) && 0 < s < 2 * n
    ensures At(home, s, n) == At(home, 0, n) <==> s == 2 * n - 1
  {
    if s == 2 * n - 1 {
      FullCircle(home, n);
    } else if At(home, s, n) == At(home, 0, n) {
      var q := Collide(home, 0, s, n);
      SameResidue(0, s, n, q);
    }
  }

  /** The buckets visited by the first m probes. */
  ghost function Visited(home: nat, m: nat, n: nat): set<nat>
    requires n > 0
  {
    set s: nat | s < m :: At(home, s, n)
  }

  lemma {:induction false} VisitedSize(home: nat, m: nat, n: nat)
    requires IsPow2(n) && m <= n
    ensures |Visited(home, m, n)| == m
  {
    if m > 0 {
      VisitedSize(home, m - 1, n);
      forall s: nat | s < m - 1
        ensures At(home, s, n) != At(home, m - 1, n)
      {
        ProbesDistinct(home, s, m - 1, n);
      }
      assert Visited(home, m, n) == Visited(home, m - 1, n) + {At(home, m - 1, n)};
    }
  }

  /** The bucket numbers of a table of n buckets. */
  function Range(n: nat): (r: set<nat>)
    ensures |r| == n
    ensures forall i: nat :: i in r <==> i < n
  {
    if n == 0 then {} else Range(n - 1) + {n - 1}
  }

  lemma SubsetOfSameSize<T>(a: set<T>, b: set<T>)
    requires a <= b && |a| == |b|
    ensures a == b
  {
    if a != b {
      var x :| x in b && x !in a;
      SubsetSize(a, b - {x});
    }
  }

  lemma {:induction false} SubsetSize<T>(a: set<T>, b: set<T>)
    requires a <= b
    ensures |a| <= |b|
    decreases a
  {
    if a != {} {
      var x :| x in a;
      SubsetSize(a - {x}, b - {x});
    }
  }

  /** Coverage: every bucket is visited by exactly one of the first n probes. */
  lemma Covers(home: nat, i: nat, n: nat)
    requires IsPow2(n) && i < n
    ensures exists s: nat :: s < n && At(home, s, n) == i
  {
    VisitedSize(home, n, n);
    SubsetOfSameSize(Visited(home, n, n), Range(n));
    assert i in Range(n);
  }

  /** The step, below n, at which bucket i is visited. */
  ghost function StepOf(home: nat, i: nat, n: nat): (s: nat)
    requires IsPow2(n) && i < n
    ensures s < n && At(home, s, n) == i
  {
    Covers(home, i, n);
    var s: nat :| s < n && At(home, s, n) == i;
    s
  }

  lemma StepUnique(home: nat, s: nat, n: nat)
    requires IsPow2(n) && s < n
    ensures StepOf(home, At(home, s, n), n) == s
  {
    var d := StepOf(home, At(home, s, n), n);
    if d < s {
      ProbesDistinct(home, d, s, n);
    } else if s < d {
      ProbesDistinct(home, s, d, n);
    }
  }
}
