/**
 * Prime-field arithmetic over `int`, standing in for the curve fields the
 * chips are instantiated with. A field element is an integer in [0, P) for an
 * abstract prime P; every operation reduces modulo P. Only what the chips use
 * is here: powers of two, the inverse of a power of two, and the fact that a
 * prime field has no zero divisors.
 */
module Field {

  /** 2^k as an unbounded natural number. */
  function Pow2(k: nat): (r: nat)
    ensures r >= 1
  {
    if k == 0 then 1 else 2 * Pow2(k - 1)
  }

  lemma {:induction false} Pow2Add(a: nat, b: nat)
    ensures Pow2(a + b) == Pow2(a) * Pow2(b)
  {
    if a > 0 {
      Pow2Add(a - 1, b);
      assert Pow2(a + b) == 2 * Pow2(a - 1 + b);
    }
  }

  lemma {:induction false} Pow2Strict(a: nat, b: nat)
    requires a < b
    ensures Pow2(a) < Pow2(b)
  {
    if a + 1 < b {
      Pow2Strict(a, b - 1);
    }
  }

  lemma Pow2Monotone(a: nat, b: nat)
    requires a <= b
    ensures Pow2(a) <= Pow2(b)
  {
    if a < b {
      Pow2Strict(a, b);
    }
  }

  predicate Divides(d: nat, n: int)
  {
    d > 0 && n % d == 0
  }

  /** P is prime: greater than one and without a divisor strictly between 1 and P. */
  predicate IsPrime(p: nat)
  {
    p > 1 && forall d: nat :: 1 < d < p ==> !Divides(d, p)
  }

  // ---------------------------------------------------------------------
  // Euclidean division facts, stated once and used by every congruence.
  // ---------------------------------------------------------------------

  lemma MulPositive(d: int, t: int)
    requires d > 0 && t >= 1
    ensures d * t >= d
  {
    assert d * t == d * (t - 1) + d;
    assert d * (t - 1) >= 0;
  }

  /** Division and remainder are unique: a = d*q + r with 0 <= r < d fixes both. */
  lemma ModUnique(a: int, d: int, q: int, r: int)
    requires d > 0 && a == d * q + r && 0 <= r < d
    ensures a % d == r && a / d == q
  {
    var q0, r0 := a / d, a % d;
    assert a == d * q0 + r0;
    var t := q0 - q;
    assert d * t == r - r0 by {
      assert d * q0 - d * q == d * (q0 - q);
    }
    if t >= 1 {
      MulPositive(d, t);
      assert false;
    } else if t <= -1 {
      MulPositive(d, -t);
      assert false;
    }
  }

  lemma ModSmall(a: int, P: int)
    requires 0 <= a < P
    ensures a % P == a && a / P == 0
  {
    ModUnique(a, P, 0, a);
  }

  lemma ModAddMultiple(a: int, k: int, P: int)
    requires P > 0
    ensures (a + k * P) % P == a % P
  {
    var q, r := a / P, a % P;
    assert a + k * P == P * (q + k) + r by {
      assert P * (q + k) == P * q + k * P;
    }
    ModUnique(a + k * P, P, q + k, r);
  }

  lemma ModMulLeft(a: int, b: int, P: int)
    requires P > 0
    ensures ((a % P) * b) % P == (a * b) % P
  {
    var q, r := a / P, a % P;
    assert a * b == r * b + (q * b) * P by {
      assert a == P * q + r;
      assert (P * q + r) * b == r * b + (q * b) * P;
    }
    ModAddMultiple(r * b, q * b, P);
  }

  lemma ModMulRight(a: int, b: int, P: int)
    requires P > 0
    ensures (a * (b % P)) % P == (a * b) % P
  {
    ModMulLeft(b, a, P);
    assert a * (b % P) == (b % P) * a;
    assert a * b == b * a;
  }

  lemma ModMul(a: int, b: int, P: int)
    requires P > 0
    ensures ((a % P) * (b % P)) % P == (a * b) % P
  {
    ModMulLeft(a, b % P, P);
    ModMulRight(a, b, P);
  }

  lemma ModAddLeft(a: int, b: int, P: int)
    requires P > 0
    ensures ((a % P) + b) % P == (a + b) % P
  {
    var q := a / P;
    assert a + b == (a % P) + b + q * P;
    ModAddMultiple((a % P) + b, q, P);
  }

  lemma ModAdd(a: int, b: int, P: int)
    requires P > 0
    ensures ((a % P) + (b % P)) % P == (a + b) % P
  {
    ModAddLeft(a, b % P, P);
    ModAddLeft(b, a, P);
  }

  lemma ModNeg(a: int, P: int)
    requires P > 0
    ensures (-(a % P)) % P == (-a) % P
  {
    var q := a / P;
    assert -a == -(a % P) + (-q) * P;
    ModAddMultiple(-(a % P), -q, P);
  }

  lemma ModSub(a: int, b: int, P: int)
    requires P > 0
    ensures ((a % P) - (b % P)) % P == (a - b) % P
  {
    var qa, qb := a / P, b / P;
    assert a - b == ((a % P) - (b % P)) + (qa - qb) * P;
    ModAddMultiple((a % P) - (b % P), qa - qb, P);
  }

  /** Congruent integers: a ≡ b (mod P) exactly when P divides a - b. */
  lemma CongruentDiff(a: int, b: int, P: int)
    requires P > 0
    ensures a % P == b % P <==> (a - b) % P == 0
  {
    ModSub(a, b, P);
    var x, y := a % P, b % P;
    if x == y {
      ModSmall(0, P);
    } else if x > y {
      ModSmall(x - y, P);
    } else {
      ModUnique(x - y, P, -1, x - y + P);
    }
  }

  // ---------------------------------------------------------------------
  // The inverse of a power of two. P is odd, so (P + 1) / 2 inverts 2.
  // ---------------------------------------------------------------------

  /** 2^{-k} mod P, the value `F::from(1 << k).invert()` produces. */
  function InvPow2(P: nat, k: nat): (r: nat)
    requires P > 1 && P % 2 == 1
    ensures r < P
  {
    if k == 0 then 1 else ((P + 1) / 2 * InvPow2(P, k - 1)) % P
  }

  lemma HalfRegroup(q: int, h: int, i: int, P: int)
    requires 2 * h == P + 1
    ensures (2 * q) * (h * i) == q * i + (q * i) * P
  {
    assert (2 * q) * (h * i) == (2 * h) * (q * i);
  }

  /** Doubling q and halving i (multiplying by (P + 1) / 2) leaves q * i unchanged mod P. */
  lemma DoubleHalf(P: int, q: int, i: int)
    requires P > 1 && P % 2 == 1
    ensures ((2 * q) * (((P + 1) / 2 * i) % P)) % P == (q * i) % P
  {
    var h := (P + 1) / 2;
    ModMulRight(2 * q, h * i, P);
    HalfRegroup(q, h, i, P);
    ModAddMultiple(q * i, q * i, P);
  }

  lemma {:induction false} InvPow2Inverse(P: nat, k: nat)
    requires P > 1 && P % 2 == 1
    ensures (Pow2(k) * InvPow2(P, k)) % P == 1
  {
    if k == 0 {
      ModSmall(1, P);
    } else {
      InvPow2Inverse(P, k - 1);
      DoubleHalf(P, Pow2(k - 1), InvPow2(P, k - 1));
    }
  }

  /** Two inverses of the same element of the field coincide. */
  lemma InverseUnique(P: int, a: int, y: int, i: int)
    requires P > 1 && 0 <= y < P && 0 <= i < P
    requires (a * y) % P == 1 && (a * i) % P == 1
    ensures y == i
  {
    ModSmall(y, P);
    ModSmall(i, P);
    ModMulRight(y, a * i, P);
    ModMulLeft(a * y, i, P);
    assert y * (a * i) == (a * y) * i;
  }

  /** Inverses are unique, so InvPow2 is the field inverse of 2^k. */
  lemma InvPow2Unique(P: nat, k: nat, y: int)
    requires P > 1 && P % 2 == 1
    requires 0 <= y < P && (Pow2(k) * y) % P == 1
    ensures y == InvPow2(P, k)
  {
    InvPow2Inverse(P, k);
    InverseUnique(P, Pow2(k), y, InvPow2(P, k));
  }

  lemma Regroup(c: int, s: int, t: int, i: int)
    ensures (c * (s * t)) * i == (c * s) * (t * i)
  {
  }

  /** Multiplying by 2^K and then by 2^{-p} is multiplying by 2^{K-p}. */
  lemma ShiftIdentity(P: nat, K: nat, p: nat, c: int)
    requires P > 1 && P % 2 == 1 && p <= K
    ensures (c * Pow2(K) * InvPow2(P, p)) % P == (c * Pow2(K - p)) % P
  {
    var s, i := Pow2(K - p), InvPow2(P, p);
    Pow2Add(K - p, p);
    Regroup(c, s, Pow2(p), i);
    InvPow2Inverse(P, p);
    ModMulRight(c * s, Pow2(p) * i, P);
  }

  lemma MulLe(x: int, y: int, s: int)
    requires x <= y && s >= 0
    ensures x * s <= y * s
  {
    assert y * s - x * s == (y - x) * s;
  }

  /** Scaling by a positive s keeps the order: c * s < a * s exactly when c < a. */
  lemma ScaleBelow(c: int, a: int, s: int)
    requires s >= 1
    ensures c * s < a * s <==> c < a
  {
    if c < a {
      MulLe(c, a - 1, s);
      assert (a - 1) * s == a * s - s;
    } else {
      MulLe(a, c, s);
    }
  }

  /** Shifting by K - p bits keeps a number below 2^K exactly when it was below 2^p. */
  lemma ShiftNarrowing(K: nat, p: nat, c: nat)
    requires p <= K
    ensures c * Pow2(K - p) < Pow2(K) <==> c < Pow2(p)
  {
    Pow2Add(p, K - p);
    ScaleBelow(c, Pow2(p), Pow2(K - p));
  }

  // ---------------------------------------------------------------------
  // A prime field has no zero divisors (Euclid's lemma, via Bezout).
  // ---------------------------------------------------------------------

  function Gcd(a: nat, b: nat): nat
    decreases b
  {
    if b == 0 then a else Gcd(b, a % b)
  }

  lemma BezoutStep(a: int, b: int, q: int, r: int, x: int, y: int)
    requires a == b * q + r
    ensures a * y + b * (x - q * y) == b * x + r * y
  {
    assert a * y == b * q * y + r * y;
    assert b * (x - q * y) == b * x - b * q * y;
  }

  lemma {:induction false} Bezout(a: nat, b: nat) returns (x: int, y: int)
    ensures a * x + b * y == Gcd(a, b)
    decreases b
  {
    if b == 0 {
      x, y := 1, 0;
    } else {
      var x', y' := Bezout(b, a % b);
      var q, r := a / b, a % b;
      assert a == b * q + r;
      x, y := y', x' - q * y';
      BezoutStep(a, b, q, r, x', y');
    }
  }

  /** A common divisor of b and r divides b * q + r. */
  lemma DividesCombination(g: int, b: int, r: int, q: int)
    requires g > 0 && b % g == 0 && r % g == 0
    ensures (b * q + r) % g == 0
  {
    var kb, kr := b / g, r / g;
    assert b * q + r == g * (kb * q + kr) by {
      assert b == g * kb && r == g * kr;
      assert g * kb * q == g * (kb * q);
    }
    ModUnique(b * q + r, g, kb * q + kr, 0);
  }

  lemma {:induction false} GcdDivides(a: nat, b: nat)
    requires a > 0 || b > 0
    ensures Gcd(a, b) > 0 && a % Gcd(a, b) == 0 && b % Gcd(a, b) == 0
    decreases b
  {
    if b == 0 {
      ModUnique(a, a, 1, 0);
      ModSmall(0, a);
    } else {
      GcdDivides(b, a % b);
      DividesCombination(Gcd(b, a % b), b, a % b, a / b);
      assert a == b * (a / b) + a % b;
    }
  }

  lemma DivisorBound(g: nat, a: nat)
    requires g > 0 && a > 0 && a % g == 0
    ensures g <= a
  {
    var k := a / g;
    assert a == g * k;
    if k <= 0 {
      assert false;
    }
    MulPositive(g, k);
  }

  lemma BezoutCancel(P: int, a: int, b: int, x: int, y: int, m: int)
    requires a * x + P * y == 1 && a * b == P * m
    ensures b == P * (m * x + b * y)
  {
    calc {
      b;
      b * (a * x + P * y);
      (a * b) * x + P * (b * y);
      (P * m) * x + P * (b * y);
      P * (m * x + b * y);
    }
  }

  /** A nonzero element below a prime shares no factor with it. */
  lemma PrimeCoprime(P: nat, a: nat)
    requires IsPrime(P) && 0 < a < P
    ensures Gcd(a, P) == 1
  {
    GcdDivides(a, P);
    var g := Gcd(a, P);
    DivisorBound(g, a);
    if g > 1 {
      assert Divides(g, P);
      assert false;
    }
  }

  /** Coprime to P, a cancels from a multiple of P: P divides a * b only if it divides b. */
  lemma CoprimeCancel(P: nat, a: nat, b: int)
    requires P > 1 && Gcd(a, P) == 1 && (a * b) % P == 0
    ensures b % P == 0
  {
    var x, y := Bezout(a, P);
    var m := (a * b) / P;
    assert a * b == P * m;
    BezoutCancel(P, a, b, x, y, m);
    ModUnique(b, P, m * x + b * y, 0);
  }

  /** Euclid's lemma: a product of two nonzero elements of a prime field is nonzero. */
  lemma NoZeroDivisors(P: nat, a: int, b: int)
    requires IsPrime(P)
    requires a % P != 0 && b % P != 0
    ensures (a * b) % P != 0
  {
    PrimeCoprime(P, a % P);
    ModMulLeft(a, b, P);
    if (a * b) % P == 0 {
      CoprimeCancel(P, a % P, b);
    }
  }
}
