/** The nonce generator of section 3.2 of RFC 6979 as the messages handed to HMAC. */
module Derivation {
  import opened Octets
  import opened Signing
  import Modular

  /** Octets are read with the most significant one first. */
  lemma BigEndian(a: Octet, s: Octets)
    ensures ToInt([]) == 0 && ToInt([a]) == a && ToInt(s + [a]) == ToInt(s) * 256 + a
  {
    assert (s + [a])[..|s|] == s;
    assert [a][..0] == [];
  }

  /** A message of 32 octets, one separating octet, and two numbers of 32 octets each. */
  ghost predicate Message(m: Octets, v: Octets, separator: int, d: nat, z: nat) {
    && |m| == 97 && m[..32] == v && m[32] == separator && ToInt(m[33..65]) == d && ToInt(m[65..]) == z
  }

  lemma MessageIs(v: Octets, separator: Octet, d: nat, z: nat)
    requires |v| == 32 && d < Pow256(32) && z < Pow256(32)
    ensures Message(v + [separator] + (FromInt(d, 32) + FromInt(z, 32)), v, separator, d, z)
  {
    hide FromInt, ToInt, Pow256;
    var x, h := FromInt(d, 32), FromInt(z, 32);
    var m := v + [separator] + (x + h);
    ToFromInt(d, 32);
    ToFromInt(z, 32);
    assert m[33..65] == x && m[65..] == h && m[..32] == v;
  }

  /**
   Steps b to g: from a key of zero octets and a value of one octets, two rounds of HMAC over the value, an octet 0 and
   then 1, the private key and the hash reduced modulo the order; after each the value is renewed under the new key.
   */
  lemma SeedMessages(mac: Mac, q: nat, d: nat, hash: Octets)
    returns (k0: Octets, v0: Octets, m1: Octets, k1: Octets, v1: Octets, m2: Octets)
    requires MacLaw(mac) && 0 < q <= Pow256(32) && d < Pow256(32)
    ensures |k0| == 32 && forall i :: 0 <= i < 32 ==> k0[i] == 0
    ensures |v0| == 32 && forall i :: 0 <= i < 32 ==> v0[i] == 1
    ensures Message(m1, v0, 0, d, ToInt(hash) % q) && k1 == mac(k0, m1) && v1 == mac(k1, v0)
    ensures Message(m2, v1, 1, d, ToInt(hash) % q)
    ensures var st := Seed(mac, q, d, hash); st.k == mac(k1, m2) && st.v == mac(st.k, v1)
  {
    hide FromInt, ToInt, Pow256;
    k0, v0 := Zeros(32), Ones(32);
    var z := ToInt(hash) % q;
    var secret := FromInt(d, 32) + Bits2Octets(q, hash);
    m1 := v0 + [0] + secret;
    k1 := mac(k0, m1);
    v1 := mac(k1, v0);
    m2 := v1 + [1] + secret;
    MessageIs(v0, 0, d, z);
    MessageIs(v1, 1, d, z);
  }

  /**
   Step h: each candidate is the next value as a number; behind a rejected one the key is renewed over that value and
   an octet 0, and the value under the new key.
   */
  lemma NextMessages(mac: Mac, q: nat, d: nat, hash: Octets, n: nat) returns (t: Octets, m: Octets)
    requires MacLaw(mac) && q > 0
    ensures var st, next := StateAt(mac, q, d, hash, n), StateAt(mac, q, d, hash, n + 1);
      && t == mac(st.k, st.v) && |t| == 32 && CandidateAt(mac, q, d, hash, n) == ToInt(t)
      && |m| == 33 && m[..32] == t && m[32] == 0
      && next.k == mac(st.k, m) && next.v == mac(next.k, t)
    ensures StateAt(mac, q, d, hash, 0) == Seed(mac, q, d, hash)
  {
    hide Seed, ToInt;
    var st := StateAt(mac, q, d, hash, n);
    t := mac(st.k, st.v);
    m := t + [0];
    assert m[..32] == t;
  }

  /** The two halves of a signature: r is the x-coordinate of k times the base, and s k is z + r d, modulo the order. */
  lemma HalvesAre<P>(g: Group<P>, d: nat, z: nat, k: nat)
    requires Modular.Prime(g.q) && 0 < k < g.q
    ensures g.R(k) == g.x(g.base(k)) % g.q
    ensures (g.S(d, z, k) * k) % g.q == (z + g.R(k) * d) % g.q
  {
    hide Modular.Prime, Modular.Inverse;
    var i := Modular.Inverse(k, g.q);
    var a := g.R(k) * d + z;
    Modular.ReduceLeft(a * i, k, g.q);
    Modular.ReduceLeft(k * i, a, g.q);
    assert a * i * k == k * i * a;
  }
}
