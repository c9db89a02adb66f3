/**
 Deterministic ECDSA over a group of prime order q of 256 bits: the nonce generator of section 3.2 of
 RFC 6979 and the verification equation of section 6.4.2 of FIPS 186-5.
 */
module Signing {
  import opened Modular
  import opened Octets

  /** A cyclic group of order q with base point G and a key d; points are what `base` maps multiples of G to. */
  datatype Group<!P> = Group(
    q: nat,
    base: int -> P,
    add: (P, P) -> P,
    mul: (int, P) -> P,
    x: P -> int,
    isIdentity: P -> bool)
  {
    ghost predicate Laws() {
      && Prime(q) && Pow256(32) <= 2 * q && q < Pow256(32)
      && (forall a, b :: a % q == b % q ==> base(a) == base(b))
      && (forall a, b :: add(base(a), base(b)) == base(a + b))
      && (forall n, a :: mul(n, base(a)) == base(n * a))
      && (forall a :: isIdentity(base(a)) <==> a % q == 0)
    }

    /** The r part of a signature with nonce k. */
    function R(k: nat): int
      requires q > 0
    {
      x(base(k)) % q
    }

    /** The s part: (z + r d) / k. */
    ghost function S(d: nat, z: nat, k: nat): int
      requires Prime(q) && 0 < k < q
    {
      (R(k) * d + z) * Inverse(k, q) % q
    }

    /** FIPS 186-5, section 6.4.2, for public point Q and hash value z. */
    ghost predicate Verifies(Q: P, z: nat, r: int, s: int)
      requires Prime(q)
    {
      && 0 < r < q && 0 < s < q
      && var w := Inverse(s, q);
      var point := add(base(z * w % q), mul(r * w % q, Q));
      !isIdentity(point) && x(point) % q == r
    }
  }

  function Reduce(a: int, q: nat): int
    requires q > 0
  {
    a % q
  }

  /** The integers modulo q, with any x-coordinate. */
  function Additive(q: nat, x: int -> int): Group<int>
    requires q > 0
  {
    Group(q, a => Reduce(a, q), (a, b) => Reduce(a + b, q), (n, a) => Reduce(n * a, q), x, a => Reduce(a, q) == 0)
  }

  /** Over every prime of the right size there is a group that meets the laws. */
  lemma AdditiveLaws(q: nat, x: int -> int)
    requires Prime(q) && Pow256(32) <= 2 * q && q < Pow256(32)
    ensures Additive(q, x).Laws()
  {
    hide Prime, Pow256, Additive;
    BaseLaw(q, x);
    SumLaw(q, x);
    FactorLaw(q, x);
    IdentityLaw(q, x);
  }

  lemma BaseLaw(q: nat, x: int -> int)
    requires q > 0
    ensures Additive(q, x).q == q
    ensures forall a, b :: a % q == b % q ==> Additive(q, x).base(a) == Additive(q, x).base(b)
  {
    hide Reduce;
    var g := Additive(q, x);
    forall a, b | a % q == b % q ensures g.base(a) == g.base(b) { SameResidue(a, b, q); }
  }

  lemma SumLaw(q: nat, x: int -> int)
    requires q > 0
    ensures var g := Additive(q, x); forall a, b :: g.add(g.base(a), g.base(b)) == g.base(a + b)
  {
    hide Reduce;
    var g := Additive(q, x);
    forall a, b ensures g.add(g.base(a), g.base(b)) == g.base(a + b) { ReduceBoth(a, b, q); }
  }

  lemma FactorLaw(q: nat, x: int -> int)
    requires q > 0
    ensures var g := Additive(q, x); forall n, a :: g.mul(n, g.base(a)) == g.base(n * a)
  {
    hide Reduce;
    var g := Additive(q, x);
    forall n, a ensures g.mul(n, g.base(a)) == g.base(n * a) { ReduceFactor(n, a, q); }
  }

  lemma IdentityLaw(q: nat, x: int -> int)
    requires q > 0
    ensures var g := Additive(q, x); forall a :: g.isIdentity(g.base(a)) <==> a % q == 0
  {
    hide Reduce;
    var g := Additive(q, x);
    forall a ensures g.isIdentity(g.base(a)) <==> a % q == 0 { ReduceTwice(a, q); }
  }

  lemma SameResidue(a: int, b: int, q: nat)
    requires q > 0 && a % q == b % q
    ensures Reduce(a, q) == Reduce(b, q)
  {
  }

  lemma ReduceBoth(a: int, b: int, q: nat)
    requires q > 0
    ensures Reduce(Reduce(a, q) + Reduce(b, q), q) == Reduce(a + b, q)
  {
    ReduceSum(a, b % q, q);
    ReduceSum(b, a, q);
  }

  lemma ReduceFactor(n: int, a: int, q: nat)
    requires q > 0
    ensures Reduce(n * Reduce(a, q), q) == Reduce(n * a, q)
  {
    ReduceLeft(a, n, q);
    assert n * (a % q) == a % q * n && n * a == a * n;
  }

  lemma ReduceTwice(a: int, q: nat)
    requires q > 0
    ensures Reduce(Reduce(a, q), q) == a % q
  {
    ReduceSum(a, 0, q);
  }

  /******* Every signature verifies *******/

  /** z/s + (r/s) d is the nonce. */
  lemma NonceRecovered(q: nat, d: nat, z: nat, r: nat, k: nat)
    requires Prime(q) && 0 < k < q && (r * d + z) * Inverse(k, q) % q > 0
    ensures var s := (r * d + z) * Inverse(k, q) % q;
      var w := Inverse(s, q);
      (z * w % q + r * w % q * d) % q == k
  {
    hide Inverse, Prime;
    var i := Inverse(k, q);
    var e := r * d + z;
    var s := e * i % q;
    var w := Inverse(s, q);
    TimesBack(e, i, k, q);
    SolveFor(s, w, k, e, q);
    CommonFactor(z, r, d, w, q);
  }

  /** For every key, every hash value and every nonce with nonzero r and s, the signature verifies. */
  lemma SignatureVerifies<P>(g: Group<P>, d: nat, z: nat, k: nat)
    requires g.Laws() && 0 < k < g.q && g.R(k) != 0 && g.S(d, z, k) != 0
    ensures g.Verifies(g.base(d), z, g.R(k), g.S(d, z, k))
  {
    hide Inverse, Prime;
    var q, r, s := g.q, g.R(k), g.S(d, z, k);
    var w := Inverse(s, q);
    NonceRecovered(q, d, z, r, k);
    PointOf(g, z * w % q, r * w % q, d, k);
  }

  lemma PointOf<P>(g: Group<P>, u1: int, u2: int, d: int, k: nat)
    requires g.Laws() && 0 < k < g.q && (u1 + u2 * d) % g.q == k
    ensures g.add(g.base(u1), g.mul(u2, g.base(d))) == g.base(k) && !g.isIdentity(g.base(k))
  {
    hide Prime;
    DivisionUnique(k, g.q, 0, k);
    assert g.mul(u2, g.base(d)) == g.base(u2 * d);
    assert g.add(g.base(u1), g.base(u2 * d)) == g.base(u1 + u2 * d);
  }

  /******* The nonce generator *******/

  /** HMAC-SHA-256. */
  type Mac = (Octets, Octets) -> Octets

  ghost predicate MacLaw(mac: Mac) { forall k, m :: |mac(k, m)| == 32 }

  function Ones(n: nat): (s: Octets)
    ensures |s| == n
  {
    seq(n, i => 1)
  }

  datatype Drbg = Drbg(k: Octets, v: Octets)

  /** bits2octets of a 32-byte hash. */
  function Bits2Octets(q: nat, hash: Octets): Octets
    requires q > 0
  {
    FromInt(ToInt(hash) % q, 32)
  }

  /** Steps b to g of section 3.2. */
  function Seed(mac: Mac, q: nat, d: nat, hash: Octets): Drbg
    requires q > 0
  {
    var secret := FromInt(d, 32) + Bits2Octets(q, hash);
    var v0 := Ones(32);
    var k1 := mac(Zeros(32), v0 + [0] + secret);
    var v1 := mac(k1, v0);
    var k2 := mac(k1, v1 + [1] + secret);
    Drbg(k2, mac(k2, v1))
  }

  /** Step h.2 for equal hash and modulus lengths: one block. */
  function Candidate(mac: Mac, st: Drbg): nat { ToInt(mac(st.k, st.v)) }

  /** Step h.3, after an unsuitable candidate. */
  function Reseed(mac: Mac, st: Drbg): Drbg {
    var v := mac(st.k, st.v);
    var k := mac(st.k, v + [0]);
    Drbg(k, mac(k, v))
  }

  /** The generator before its n-th candidate, counting from 0. */
  function StateAt(mac: Mac, q: nat, d: nat, hash: Octets, n: nat): Drbg
    requires q > 0
  {
    if n == 0 then Seed(mac, q, d, hash) else Reseed(mac, StateAt(mac, q, d, hash, n - 1))
  }

  function CandidateAt(mac: Mac, q: nat, d: nat, hash: Octets, n: nat): nat
    requires q > 0
  {
    Candidate(mac, StateAt(mac, q, d, hash, n))
  }

  /** A nonce in range that gives nonzero r and s. */
  ghost predicate Suitable<P>(g: Group<P>, d: nat, z: nat, k: nat)
    requires Prime(g.q)
  {
    0 < k < g.q && g.R(k) != 0 && g.S(d, z, k) != 0
  }

  /** The first suitable candidate, given that the limit-th is one. */
  ghost function FirstSuitable<P>(g: Group<P>, mac: Mac, d: nat, hash: Octets, z: nat, limit: nat, n: nat): (m: nat)
    requires Prime(g.q) && n <= limit && Suitable(g, d, z, CandidateAt(mac, g.q, d, hash, limit))
    ensures n <= m <= limit && Suitable(g, d, z, CandidateAt(mac, g.q, d, hash, m))
    ensures forall i :: n <= i < m ==> !Suitable(g, d, z, CandidateAt(mac, g.q, d, hash, i))
    decreases limit - n
  {
    if Suitable(g, d, z, CandidateAt(mac, g.q, d, hash, n)) then n
    else FirstSuitable(g, mac, d, hash, z, limit, n + 1)
  }

  /** The nonce does not depend on which suitable candidate one happens to know. */
  lemma FirstSuitableUnique<P>(g: Group<P>, mac: Mac, d: nat, hash: Octets, z: nat, limit: nat, limit': nat)
    requires Prime(g.q)
    requires Suitable(g, d, z, CandidateAt(mac, g.q, d, hash, limit))
    requires Suitable(g, d, z, CandidateAt(mac, g.q, d, hash, limit'))
    ensures FirstSuitable(g, mac, d, hash, z, limit, 0) == FirstSuitable(g, mac, d, hash, z, limit', 0)
  {
    hide FirstSuitable, CandidateAt, Suitable, Prime;
    var a, b := FirstSuitable(g, mac, d, hash, z, limit, 0), FirstSuitable(g, mac, d, hash, z, limit', 0);
    assert a >= b && b >= a;
  }

  /** Reducing the hash by at most one subtraction is reduction modulo q. */
  lemma OneSubtraction(q: nat, z: nat)
    requires q > 0 && z < 2 * q
    ensures z % q == if z >= q then z - q else z
  {
    if z >= q { DivisionUnique(z, q, 1, z - q); } else { DivisionUnique(z, q, 0, z); }
  }

  /**
   `deterministicECDSASignASN1` up to the DER encoding of the pair. The loop has no bound of its own;
   `limit` names some suitable candidate, without which the code would not return.
   */
  method Sign<P>(g: Group<P>, mac: Mac, d: nat, hash: Octets, ghost limit: nat) returns (r: int, s: int)
    requires g.Laws() && MacLaw(mac) && 0 < d < g.q && |hash| == 32
    requires Suitable(g, d, ToInt(hash) % g.q, CandidateAt(mac, g.q, d, hash, limit))
    ensures var z := ToInt(hash) % g.q;
      var k := CandidateAt(mac, g.q, d, hash, FirstSuitable(g, mac, d, hash, z, limit, 0));
      r == g.R(k) && s == g.S(d, z, k)
    ensures 0 < r < g.q && 0 < s < g.q
    ensures g.Verifies(g.base(d), ToInt(hash) % g.q, r, s)
  {
    hide Inverse, Prime, StateAt, CandidateAt, ToInt, FirstSuitable, Group.R, Group.S, Group.Verifies, MacLaw, Seed,
      Group.Laws;
    var q := g.q;
    OrderPrime(g);
    var z := ReduceHash(g, hash);
    var k, v := Instantiate(g, mac, d, hash, z);
    ghost var n := 0;
    ghost var first := FirstSuitable(g, mac, d, hash, z, limit, 0);
    FirstState(mac, q, d, hash);
    while true
      invariant 0 <= n <= first && Drbg(k, v) == StateAt(mac, q, d, hash, n)
      decreases first - n
    {
      var t := Block(mac, k, v);
      v := t;
      var candidate := ToInt(t);
      NextState(mac, q, d, hash, n);
      var ok;
      ok, r, s := TryNonce(g, d, z, candidate);
      if ok {
        SignatureVerifies(g, d, z, candidate);
        SignatureInRange(g, d, z, candidate);
        return;
      }
      k := mac(k, v + [0]);
      v := mac(k, v);
      n := n + 1;
    }
  }

  lemma OrderPrime<P>(g: Group<P>)
    requires g.Laws()
    ensures Prime(g.q) && g.q > 1
  {
  }

  lemma FirstState(mac: Mac, q: nat, d: nat, hash: Octets)
    requires q > 0
    ensures StateAt(mac, q, d, hash, 0) == Seed(mac, q, d, hash)
  {
  }

  lemma NextState(mac: Mac, q: nat, d: nat, hash: Octets, n: nat)
    requires q > 0
    ensures var st := StateAt(mac, q, d, hash, n);
      var v := mac(st.k, st.v);
      var k := mac(st.k, v + [0]);
      && CandidateAt(mac, q, d, hash, n) == ToInt(v)
      && StateAt(mac, q, d, hash, n + 1) == Drbg(k, mac(k, v))
  {
    hide Seed, ToInt;
  }

  lemma SignatureInRange<P>(g: Group<P>, d: nat, z: nat, k: nat)
    requires Prime(g.q) && Suitable(g, d, z, k)
    ensures 0 < g.R(k) < g.q && 0 < g.S(d, z, k) < g.q
  {
    hide Inverse;
  }

  /** The hash as an integer below q, by at most one subtraction. */
  method ReduceHash<P>(g: Group<P>, hash: Octets) returns (z: nat)
    requires g.Laws() && |hash| == 32
    ensures z == ToInt(hash) % g.q && z < g.q
  {
    hide Prime, ToInt, Pow256;
    z := ToInt(hash);
    ToIntBound(hash);
    OneSubtraction(g.q, z);
    if z >= g.q {
      z := z - g.q;
    }
  }

  /** The first four HMAC updates. */
  method Instantiate<P>(g: Group<P>, mac: Mac, d: nat, hash: Octets, z: nat) returns (k: Octets, v: Octets)
    requires g.Laws() && 0 < d < g.q && z == ToInt(hash) % g.q
    ensures Drbg(k, v) == Seed(mac, g.q, d, hash)
  {
    hide Prime, ToInt, FromInt, Pow256;
    var h1 := IntBytes(z, 32);
    var x := IntBytes(d, 32);
    v := Ones(32);
    k := Zeros(32);
    k := mac(k, v + [0] + (x + h1));
    v := mac(k, v);
    k := mac(k, v + [1] + (x + h1));
    v := mac(k, v);
  }

  /** Blocks are drawn until the modulus length is reached; one is enough. */
  method Block(mac: Mac, k: Octets, v0: Octets) returns (t: Octets)
    requires MacLaw(mac)
    ensures t == mac(k, v0)
  {
    var v := v0;
    t := [];
    while |t| < 32
      invariant (t == [] && v == v0) || (t == v && v == mac(k, v0))
      decreases 32 - |t|
    {
      v := mac(k, v);
      t := t + v;
    }
  }

  /** One candidate: accepted exactly when it is suitable. */
  method TryNonce<P>(g: Group<P>, d: nat, z: nat, candidate: nat) returns (ok: bool, r: int, s: int)
    requires Prime(g.q)
    ensures ok <==> Suitable(g, d, z, candidate)
    ensures ok ==> r == g.R(candidate) && s == g.S(d, z, candidate)
  {
    hide Inverse;
    ok, r, s := false, 0, 0;
    if candidate > 0 && candidate < g.q {
      r := g.x(g.base(candidate)) % g.q;
      if r != 0 {
        var inv := Inverse(candidate, g.q);
        s := r * d;
        s := s + z;
        s := s * inv;
        s := s % g.q;
        ok := s != 0;
      }
    }
  }
}
