/** Bytewise string order and sorting by a string key, as `sort.Strings` and `sort.Slice` are used. */
module Ordering {

  predicate Le(a: string, b: string)
    decreases |a|
  {
    a == "" || (b != "" && (a[0] < b[0] || (a[0] == b[0] && Le(a[1..], b[1..]))))
  }

  lemma {:induction false} LeTotal(a: string, b: string)
    ensures Le(a, b) || Le(b, a)
    decreases |a|
  {
    if a != "" && b != "" && a[0] == b[0] { LeTotal(a[1..], b[1..]); }
  }

  lemma {:induction false} LeAntisymmetric(a: string, b: string)
    requires Le(a, b) && Le(b, a)
    ensures a == b
    decreases |a|
  {
    if a != "" {
      LeAntisymmetric(a[1..], b[1..]);
      assert a == [a[0]] + a[1..] && b == [b[0]] + b[1..];
    }
  }

  lemma {:induction false} LeTransitive(a: string, b: string, c: string)
    requires Le(a, b) && Le(b, c)
    ensures Le(a, c)
    decreases |a|
  {
    if a != "" && a[0] == b[0] == c[0] { LeTransitive(a[1..], b[1..], c[1..]); }
  }

  ghost predicate SortedBy<T>(xs: seq<T>, key: T -> string) {
    forall i, j :: 0 <= i < j < |xs| ==> Le(key(xs[i]), key(xs[j]))
  }

  ghost predicate DistinctKeys<T>(xs: seq<T>, key: T -> string) {
    forall i, j :: 0 <= i < j < |xs| ==> key(xs[i]) != key(xs[j])
  }

  /** Insertion sort; the library's algorithm is not modelled, only its contract. */
  method SortBy<T(==)>(xs: seq<T>, key: T -> string) returns (ys: seq<T>)
    ensures SortedBy(ys, key) && multiset(ys) == multiset(xs)
  {
    ys := [];
    for n := 0 to |xs|
      invariant SortedBy(ys, key) && multiset(ys) == multiset(xs[..n])
    {
      ys := Insert(ys, xs[n], key);
      assert xs[..n + 1] == xs[..n] + [xs[n]];
    }
    assert xs[..|xs|] == xs;
  }

  method Insert<T(==)>(xs: seq<T>, x: T, key: T -> string) returns (ys: seq<T>)
    requires SortedBy(xs, key)
    ensures SortedBy(ys, key) && multiset(ys) == multiset(xs) + multiset{x}
  {
    var k := 0;
    while k < |xs| && Le(key(xs[k]), key(x))
      invariant 0 <= k <= |xs|
      invariant forall i :: 0 <= i < k ==> Le(key(xs[i]), key(x))
    {
      k := k + 1;
    }
    ys := xs[..k] + [x] + xs[k..];
    InsertSorts(xs, x, key, k);
    assert xs == xs[..k] + xs[k..];
  }

  lemma InsertSorts<T>(xs: seq<T>, x: T, key: T -> string, k: nat)
    requires SortedBy(xs, key) && k <= |xs|
    requires forall i :: 0 <= i < k ==> Le(key(xs[i]), key(x))
    requires k < |xs| ==> !Le(key(xs[k]), key(x))
    ensures SortedBy(xs[..k] + [x] + xs[k..], key)
  {
    hide Le;
    var ys := xs[..k] + [x] + xs[k..];
    forall j | k <= j < |xs| ensures Le(key(x), key(xs[j])) {
      LeTotal(key(x), key(xs[k]));
      if j > k { LeTransitive(key(x), key(xs[k]), key(xs[j])); }
    }
    forall i, j | 0 <= i < j < |ys| ensures Le(key(ys[i]), key(ys[j])) {
      assert ys[i] == if i < k then xs[i] else if i == k then x else xs[i - 1];
      assert ys[j] == if j < k then xs[j] else if j == k then x else xs[j - 1];
    }
  }

  /** With pairwise distinct keys the sorted order is determined by the collection alone. */
  lemma {:induction false} SortedUnique<T>(xs: seq<T>, ys: seq<T>, key: T -> string)
    requires SortedBy(xs, key) && SortedBy(ys, key)
    requires multiset(xs) == multiset(ys) && DistinctKeys(xs, key)
    ensures xs == ys
    decreases |xs|
  {
    hide Le, SortedBy, DistinctKeys;
    assert |xs| == |multiset(xs)| == |multiset(ys)| == |ys|;
    if xs != [] {
      SameFirst(xs, ys, key);
      TailMultiset(xs);
      TailMultiset(ys);
      TailSorted(xs, key);
      TailSorted(ys, key);
      SortedUnique(xs[1..], ys[1..], key);
      assert xs == [xs[0]] + xs[1..] && ys == [ys[0]] + ys[1..];
    }
  }

  lemma TailSorted<T>(xs: seq<T>, key: T -> string)
    requires xs != [] && SortedBy(xs, key)
    ensures SortedBy(xs[1..], key) && (DistinctKeys(xs, key) ==> DistinctKeys(xs[1..], key))
  {
    hide Le;
  }

  lemma TailMultiset<T>(xs: seq<T>)
    requires xs != []
    ensures multiset(xs[1..]) == multiset(xs) - multiset{xs[0]}
  {
    assert xs == [xs[0]] + xs[1..];
  }

  /** A sequence without its k-th element. */
  function Without<T>(xs: seq<T>, k: nat): seq<T>
    requires k < |xs|
  {
    xs[..k] + xs[k + 1..]
  }

  lemma WithoutOne<T>(xs: seq<T>, k: nat)
    requires k < |xs|
    ensures multiset(Without(xs, k)) == multiset(xs) - multiset{xs[k]}
  {
    assert xs == xs[..k] + [xs[k]] + xs[k + 1..];
  }

  function Map<S, T>(f: S -> T, xs: seq<S>): (ys: seq<T>)
    ensures |ys| == |xs| && forall i :: 0 <= i < |xs| ==> ys[i] == f(xs[i])
  {
    seq(|xs|, i requires 0 <= i < |xs| => f(xs[i]))
  }

  lemma MapWithout<S, T>(f: S -> T, xs: seq<S>, k: nat)
    requires k < |xs|
    ensures multiset(Map(f, xs)) == multiset(Map(f, Without(xs, k))) + multiset{f(xs[k])}
  {
    hide Map;
    var ys := Map(f, xs);
    assert Map(f, Without(xs, k)) == Without(ys, k);
    WithoutOne(ys, k);
    assert ys[k] in ys;
  }

  lemma {:induction false} MapPermutes<S, T>(f: S -> T, xs: seq<S>, ys: seq<S>)
    requires multiset(xs) == multiset(ys)
    ensures multiset(Map(f, xs)) == multiset(Map(f, ys))
    decreases |xs|
  {
    hide Map;
    assert |xs| == |multiset(xs)| == |multiset(ys)| == |ys|;
    if xs == [] {
      assert Map(f, xs) == Map(f, ys);
    } else {
      assert xs[0] in multiset(ys);
      var k :| 0 <= k < |ys| && ys[k] == xs[0];
      assert xs[1..] == Without(xs, 0);
      WithoutOne(xs, 0);
      WithoutOne(ys, k);
      MapPermutes(f, xs[1..], Without(ys, k));
      MapWithout(f, xs, 0);
      MapWithout(f, ys, k);
    }
  }

  lemma SameFirst<T>(xs: seq<T>, ys: seq<T>, key: T -> string)
    requires SortedBy(xs, key) && SortedBy(ys, key)
    requires multiset(xs) == multiset(ys) && DistinctKeys(xs, key) && xs != [] && ys != []
    ensures xs[0] == ys[0]
  {
    hide Le;
    assert xs[0] in multiset(ys) && ys[0] in multiset(xs);
    var i :| 0 <= i < |ys| && ys[i] == xs[0];
    var j :| 0 <= j < |xs| && xs[j] == ys[0];
    if j > 0 && i > 0 { LeAntisymmetric(key(xs[0]), key(ys[0])); }
  }

  /******* Sorted keys of a set *******/

  predicate LeastIn(k: string, ks: set<string>) { k in ks && forall k' :: k' in ks ==> Le(k, k') }

  lemma LeastWith(x: string, y: string, ks: set<string>)
    requires LeastIn(y, ks)
    ensures LeastIn(if Le(x, y) then x else y, ks + {x})
  {
    hide Le;
    LeTotal(x, x);
    LeTotal(x, y);
    if Le(x, y) {
      forall k' | k' in ks ensures Le(x, k') { LeTransitive(x, y, k'); }
    }
  }

  lemma {:induction false} LeastExists(ks: set<string>)
    requires ks != {}
    ensures exists k :: LeastIn(k, ks)
    decreases |ks|
  {
    hide Le;
    var x :| x in ks;
    LeTotal(x, x);
    var rest := ks - {x};
    if rest == {} {
      assert ks == {x};
      assert LeastIn(x, ks);
    } else {
      hide LeastIn;
      LeastExists(rest);
      var y :| LeastIn(y, rest);
      LeastWith(x, y, rest);
      assert rest + {x} == ks;
    }
  }

  function Least(ks: set<string>): (k: string)
    requires ks != {}
    ensures k in ks && forall k' :: k' in ks ==> Le(k, k')
  {
    LeastExists(ks);
    assert forall a, b :: LeastIn(a, ks) && LeastIn(b, ks) ==> a == b by {
      forall a, b | LeastIn(a, ks) && LeastIn(b, ks) ensures a == b { LeAntisymmetric(a, b); }
    }
    var k :| k in ks && LeastIn(k, ks);
    k
  }

  /** The elements of a set in ascending order. */
  function SortedKeys(ks: set<string>): (s: seq<string>)
    ensures forall i :: 0 <= i < |s| ==> s[i] in ks
    ensures forall k :: k in ks ==> k in s
    ensures forall i, j :: 0 <= i < j < |s| ==> s[i] != s[j] && Le(s[i], s[j])
    decreases |ks|
  {
    if ks == {} then []
    else
      var k := Least(ks);
      [k] + SortedKeys(ks - {k})
  }
}
