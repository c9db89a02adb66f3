/** Big-endian octet strings and integers: sections 2.3.2 to 2.3.4 of RFC 6979. */
module Octets {

  type Octet = x: int | 0 <= x < 256
  type Octets = seq<Octet>

  function Pow256(n: nat): (p: nat)
    ensures p > 0
  {
    if n == 0 then 1 else 256 * Pow256(n - 1)
  }

  /** bits2int for strings no longer than the modulus: the big-endian value. */
  function ToInt(s: Octets): nat {
    if s == [] then 0 else ToInt(s[..|s| - 1]) * 256 + s[|s| - 1]
  }

  /** int2octets: exactly n octets, most significant first. */
  function FromInt(v: nat, n: nat): (s: Octets)
    ensures |s| == n
  {
    if n == 0 then [] else FromInt(v / 256, n - 1) + [v % 256]
  }

  /** `big.Int.Bytes`: no leading zero octets. */
  function Minimal(v: nat): Octets {
    if v == 0 then [] else Minimal(v / 256) + [v % 256]
  }

  lemma {:induction false} ToIntBound(s: Octets)
    ensures ToInt(s) < Pow256(|s|)
  {
    if s != [] {
      ToIntBound(s[..|s| - 1]);
    }
  }

  lemma {:induction false} ToFromInt(v: nat, n: nat)
    requires v < Pow256(n)
    ensures ToInt(FromInt(v, n)) == v
  {
    if n > 0 {
      ToFromInt(v / 256, n - 1);
      var s := FromInt(v, n);
      assert s[..n - 1] == FromInt(v / 256, n - 1);
    }
  }

  lemma {:induction false} MinimalFits(v: nat, n: nat)
    requires v < Pow256(n)
    ensures |Minimal(v)| <= n
    decreases n
  {
    if v > 0 { MinimalFits(v / 256, n - 1); }
  }

  function Zeros(n: nat): (s: Octets)
    ensures |s| == n
  {
    seq(n, i => 0)
  }

  /** The `intBytes` closure: the minimal bytes copied to the end of a zeroed buffer. */
  method IntBytes(v: nat, rolen: nat) returns (out: Octets)
    requires v < Pow256(rolen)
    ensures out == FromInt(v, rolen)
  {
    MinimalFits(v, rolen);
    var b := Minimal(v);
    out := Zeros(rolen - |b|) + b;
    Padded(v, rolen);
  }

  lemma {:induction false} Padded(v: nat, n: nat)
    requires |Minimal(v)| <= n && v < Pow256(n)
    ensures Zeros(n - |Minimal(v)|) + Minimal(v) == FromInt(v, n)
    decreases n
  {
    if v == 0 {
      ZeroOctets(n);
    } else {
      MinimalFits(v / 256, n - 1);
      Padded(v / 256, n - 1);
    }
  }

  lemma {:induction false} ZeroOctets(n: nat)
    ensures FromInt(0, n) == Zeros(n)
  {
    if n > 0 { ZeroOctets(n - 1); }
  }
}
