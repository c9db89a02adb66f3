/** Arithmetic modulo a prime, as far as ECDSA needs it. */
module Modular {

  ghost predicate Prime(q: int) {
    q > 1 && forall d :: 1 < d < q ==> q % d != 0
  }

  lemma DivisionUnique(n: int, q: int, k: int, r: int)
    requires q > 0 && 0 <= r < q && n == k * q + r
    ensures n / q == k && n % q == r
  {
    var d := n / q - k;
    assert n == (n / q) * q + n % q;
    assert d * q == r - n % q;
  }

  /** Adding a multiple of q changes nothing. */
  lemma AddMultiple(x: int, k: int, q: int)
    requires q > 0
    ensures (x + k * q) % q == x % q
  {
    assert x + k * q == (x / q + k) * q + x % q;
    DivisionUnique(x + k * q, q, x / q + k, x % q);
  }

  lemma ReduceLeft(a: int, b: int, q: int)
    requires q > 0
    ensures (a % q * b) % q == (a * b) % q
  {
    assert a * b == a % q * b + (a / q * b) * q;
    AddMultiple(a % q * b, a / q * b, q);
  }

  lemma ReduceSum(a: int, b: int, q: int)
    requires q > 0
    ensures (a % q + b) % q == (a + b) % q
  {
    assert a + b == a % q + b + (a / q) * q;
    AddMultiple(a % q + b, a / q, q);
  }

  /** Factors with product 1 cancel. */
  lemma Cancel(a: int, b: int, c: int, q: int)
    requires q > 1 && (a * b) % q == 1
    ensures (a * (b * c)) % q == c % q
  {
    ReduceLeft(a * b, c, q);
    assert a * b * c == a * (b * c);
  }

  /** The coefficients of Bezout's identity for a and b. */
  function Bezout(a: nat, b: nat): (r: (nat, int, int))
    requires a > 0
    ensures r.0 > 0 && r.1 * a + r.2 * b == r.0 && a % r.0 == 0 && b % r.0 == 0 && r.0 <= a
    decreases b % a
  {
    if b % a == 0 then (a, 1, 0)
    else
      var (g, x, y) := Bezout(b % a, a);
      BezoutStep(a, b, g, x, y);
      (g, y - x * (b / a), x)
  }

  lemma BezoutStep(a: nat, b: nat, g: nat, x: int, y: int)
    requires a > 0 && g > 0 && x * (b % a) + y * a == g && (b % a) % g == 0 && a % g == 0
    ensures (y - x * (b / a)) * a + x * b == g && b % g == 0
  {
    var m := b / a;
    assert b == m * a + b % a;
    assert (y - x * m) * a + x * b == y * a + x * (b % a) by {
      assert x * b == x * (m * a) + x * (b % a);
      assert (y - x * m) * a == y * a - x * m * a;
      assert x * m * a == x * (m * a);
    }
    var ka, kr := a / g, (b % a) / g;
    assert a == ka * g && b % a == kr * g;
    assert b == (m * ka + kr) * g + 0;
    DivisionUnique(b, g, m * ka + kr, 0);
  }

  /** `ModInverse` for a prime modulus. */
  function Inverse(a: nat, q: nat): (b: nat)
    requires Prime(q) && 0 < a < q
    ensures 0 < b < q && (a * b) % q == 1
  {
    var (g, x, y) := Bezout(a, q);
    CoprimeToPrime(a, q, g);
    assert x * a == 1 + (-y) * q;
    AddMultiple(1, -y, q);
    DivisionUnique(1, q, 0, 1);
    ReduceLeft(x, a, q);
    assert x % q * a == a * (x % q);
    x % q
  }

  lemma CoprimeToPrime(a: nat, q: nat, g: nat)
    requires Prime(q) && 0 < a < q && 0 < g <= a && q % g == 0
    ensures g == 1
  {
  }

  /** Dividing by k and multiplying by k again. */
  lemma TimesBack(e: int, i: int, k: int, q: int)
    requires q > 1 && (k * i) % q == 1
    ensures (e * i % q * k) % q == e % q
  {
    ReduceLeft(e * i, k, q);
    assert e * i * k == k * (i * e);
    Cancel(k, i, e, q);
  }

  /** If s k = e and w is the inverse of s, then w e = k. */
  lemma SolveFor(s: int, w: int, k: int, e: int, q: int)
    requires q > 1 && (s * w) % q == 1 && (s * k) % q == e % q && 0 <= k < q
    ensures (w * e) % q == k
  {
    ReduceLeft(s * k, w, q);
    ReduceLeft(e, w, q);
    assert e * w == w * e;
    assert s * k * w == s * (w * k);
    Cancel(s, w, k, q);
    DivisionUnique(k, q, 0, k);
  }

  /** The two summands of the verification equation share the factor w. */
  lemma CommonFactor(z: int, r: int, d: int, w: int, q: int)
    requires q > 1
    ensures (z * w % q + r * w % q * d) % q == (w * (r * d + z)) % q
  {
    var a, b := z * w, r * w;
    var t := b % q * d;
    ReduceSum(a, t, q);
    ReduceLeft(b, d, q);
    ReduceSum(t, a, q);
    ReduceSum(b * d, a, q);
    Distribute(z, r, d, w);
  }

  lemma Distribute(z: int, r: int, d: int, w: int)
    ensures r * w * d + z * w == w * (r * d + z)
  {
    assert r * w * d == w * (r * d);
    assert w * (r * d + z) == w * (r * d) + w * z;
  }
}
