/**
 Go payload values (`map[string]interface{}` and what may sit inside it). A number is represented by
 the text `json.Marshal` prints for it; a map is a map, so it has no member order.
 */
module Values {
  import opened Base
  import opened Ordering
  import opened JsonRoundTrip
  import Json
  import Utf8

  datatype Value =
    | Nul
    | Bool(b: bool)
    | Num(token: string)
    | Str(s: string)
    | Arr(items: seq<Value>)
    | Obj(m: map<string, Value>)

  /** What `float64` makes of a number token: the token printed for the parsed number, None out of range. */
  type Reprint = string -> Option<string>

  /** The JSON tree of a value: object members in ascending key order. */
  function ToTree(v: Value): Json.Tree
    decreases v, 1
  {
    match v
    case Nul => Json.Null
    case Bool(b) => Json.Bool(b)
    case Num(token) => Json.Num(token)
    case Str(s) => Json.Str(s)
    case Arr(items) => Json.Arr(ItemTrees(v))
    case Obj(m) => Json.Obj(MemberTrees(v))
  }

  function ItemTrees(v: Value): (ts: seq<Json.Tree>)
    requires v.Arr?
    ensures |ts| == |v.items| && forall i :: 0 <= i < |ts| ==> ts[i] == ToTree(v.items[i])
    decreases v, 0
  {
    seq(|v.items|, i requires 0 <= i < |v.items| => ToTree(v.items[i]))
  }

  function MemberTrees(v: Value): (ms: seq<Json.Member>)
    requires v.Obj?
    ensures Names(ms) == v.m.Keys && DistinctNames(ms)
    ensures forall i :: 0 <= i < |ms| ==> ms[i].key in v.m && ms[i].value == ToTree(v.m[ms[i].key])
    decreases v, 0
  {
    var keys := SortedKeys(v.m.Keys);
    var ms := seq(|keys|, i requires 0 <= i < |keys| => Json.Member(keys[i], ToTree(v.m[keys[i]])));
    assert forall k :: k in v.m.Keys ==> k in Names(ms) by {
      forall k | k in v.m.Keys ensures k in Names(ms) {
        var i :| 0 <= i < |keys| && keys[i] == k;
        assert ms[i].key == k;
      }
    }
    ms
  }

  ghost function Names(ms: seq<Json.Member>): set<string> { set i | 0 <= i < |ms| :: ms[i].key }

  ghost predicate DistinctNames(ms: seq<Json.Member>) {
    forall i, j :: 0 <= i < j < |ms| ==> ms[i].key != ms[j].key
  }

  /** Decoding into `interface{}`: numbers pass through float64, the last of two equal keys wins. */
  function FromTree(reprint: Reprint, t: Json.Tree): Option<Value>
    decreases t
  {
    match t
    case Null => Some(Nul)
    case Bool(b) => Some(Bool(b))
    case Num(token) => var token' :- reprint(token); Some(Num(token'))
    case Str(s) => Some(Str(s))
    case Arr(items) => var vs :- FromItems(reprint, items); Some(Arr(vs))
    case Obj(members) => var m :- FromMembers(reprint, members); Some(Obj(m))
  }

  function FromItems(reprint: Reprint, items: seq<Json.Tree>): Option<seq<Value>>
    decreases items
  {
    if items == [] then Some([])
    else
      var v :- FromTree(reprint, items[0]);
      var vs :- FromItems(reprint, items[1..]);
      Some([v] + vs)
  }

  function FromMembers(reprint: Reprint, members: seq<Json.Member>): Option<map<string, Value>>
    decreases members
  {
    if members == [] then Some(map[])
    else
      var n := |members| - 1;
      var m :- FromMembers(reprint, members[..n]);
      var v :- FromTree(reprint, members[n].value);
      Some(m[members[n].key := v])
  }

  /** Every number in the value comes back from float64 as it went in. */
  predicate Survives(reprint: Reprint, v: Value) {
    match v
    case Num(token) => reprint(token) == Some(token)
    case Arr(items) =>
      forall i :: 0 <= i < |items| ==> Survives(reprint, items[i])
    case Obj(m) => forall k :: k in m ==> Survives(reprint, m[k])
    case _ => true
  }

  /** A value is read back unchanged exactly when its numbers survive float64. */
  lemma {:induction false} ReadBack(reprint: Reprint, v: Value)
    ensures FromTree(reprint, ToTree(v)) == Some(v) <==> Survives(reprint, v)
    decreases v
  {
    match v
    case Arr(items) =>
      forall i | 0 <= i < |items|
        ensures FromTree(reprint, ToTree(items[i])) == Some(items[i]) <==> Survives(reprint, items[i])
      {
        ReadBack(reprint, items[i]);
      }
      ItemsReadBack(reprint, ItemTrees(v), items);
      hide ToTree, ItemTrees;
      assert ToTree(v) == Json.Arr(ItemTrees(v));
    case Obj(m) =>
      forall k | k in m ensures FromTree(reprint, ToTree(m[k])) == Some(m[k]) <==> Survives(reprint, m[k]) {
        ReadBack(reprint, m[k]);
      }
      ObjReadBack(reprint, v);
    case _ =>
  }

  lemma ObjReadBack(reprint: Reprint, v: Value)
    requires v.Obj?
    requires forall k :: k in v.m ==> (FromTree(reprint, ToTree(v.m[k])) == Some(v.m[k]) <==> Survives(reprint, v.m[k]))
    ensures FromTree(reprint, ToTree(v)) == Some(v) <==> Survives(reprint, v)
  {
    hide FromMembers, MemberTrees;
    var ms := MemberTrees(v);
    assert ToTree(v) == Json.Obj(ms);
    MembersReadBack(reprint, ms, v.m);
    hide ToTree;
    if forall i :: 0 <= i < |ms| ==> Survives(reprint, v.m[ms[i].key]) {
      forall k | k in v.m ensures Survives(reprint, v.m[k]) {
        assert k in Names(ms);
      }
    }
  }

  lemma {:induction false} ItemsReadBack(reprint: Reprint, ts: seq<Json.Tree>, vs: seq<Value>)
    requires |ts| == |vs|
    ensures FromItems(reprint, ts) == Some(vs) <==>
            forall i :: 0 <= i < |ts| ==> FromTree(reprint, ts[i]) == Some(vs[i])
    decreases |ts|
  {
    if ts != [] {
      hide FromTree;
      ItemsReadBack(reprint, ts[1..], vs[1..]);
      assert vs == [vs[0]] + vs[1..];
      assert (forall i :: 0 <= i < |ts| ==> FromTree(reprint, ts[i]) == Some(vs[i])) ==>
          (forall i :: 0 <= i < |ts[1..]| ==> FromTree(reprint, ts[1..][i]) == Some(vs[1..][i]));
      if FromItems(reprint, ts) == Some(vs) {
        forall i | 0 <= i < |ts| ensures FromTree(reprint, ts[i]) == Some(vs[i]) {
          if i > 0 { assert ts[i] == ts[1..][i - 1] && vs[i] == vs[1..][i - 1]; }
        }
      }
    }
  }

  lemma FromMembersStep(reprint: Reprint, ms: seq<Json.Member>)
    requires ms != []
    ensures var n := |ms| - 1;
      var f, v := FromMembers(reprint, ms[..n]), FromTree(reprint, ms[n].value);
      FromMembers(reprint, ms) == if f.None? || v.None? then None else Some(f.value[ms[n].key := v.value])
  {
    hide FromTree;
  }

  lemma {:induction false} FromMembersKeys(reprint: Reprint, ms: seq<Json.Member>)
    ensures FromMembers(reprint, ms).Some? <==> forall i :: 0 <= i < |ms| ==> FromTree(reprint, ms[i].value).Some?
    ensures FromMembers(reprint, ms).Some? ==> FromMembers(reprint, ms).value.Keys == Names(ms)
    decreases |ms|
  {
    if ms != [] {
      var n := |ms| - 1;
      FromMembersStep(reprint, ms);
      hide FromTree, FromMembers;
      FromMembersKeys(reprint, ms[..n]);
      assert forall i :: 0 <= i < n ==> ms[..n][i] == ms[i];
      assert Names(ms) == Names(ms[..n]) + {ms[n].key};
    }
  }

  /** With distinct names, decoding members gives the map from each name to its decoded value. */
  lemma {:induction false} FromMembersAt(reprint: Reprint, ms: seq<Json.Member>, i: nat)
    requires DistinctNames(ms) && FromMembers(reprint, ms).Some? && i < |ms|
    ensures ms[i].key in FromMembers(reprint, ms).value
    ensures FromTree(reprint, ms[i].value) == Some(FromMembers(reprint, ms).value[ms[i].key])
    decreases |ms|
  {
    var n := |ms| - 1;
    FromMembersStep(reprint, ms);
    hide FromTree, FromMembers;
    if i < n {
      assert ms[..n][i] == ms[i];
      FromMembersAt(reprint, ms[..n], i);
    }
  }

  lemma MembersReadBack(reprint: Reprint, ms: seq<Json.Member>, m: map<string, Value>)
    requires DistinctNames(ms) && Names(ms) == m.Keys
    ensures FromMembers(reprint, ms) == Some(m) <==>
            forall i :: 0 <= i < |ms| ==> ms[i].key in m && FromTree(reprint, ms[i].value) == Some(m[ms[i].key])
  {
    hide FromTree, FromMembers;
    FromMembersKeys(reprint, ms);
    var r := FromMembers(reprint, ms);
    if r.Some? {
      forall i | 0 <= i < |ms|
        ensures ms[i].key in r.value && FromTree(reprint, ms[i].value) == Some(r.value[ms[i].key])
      {
        FromMembersAt(reprint, ms, i);
      }
      if forall i :: 0 <= i < |ms| ==> ms[i].key in m && FromTree(reprint, ms[i].value) == Some(m[ms[i].key]) {
        forall k | k in m ensures r.value[k] == m[k] {
          assert k in Names(ms);
          var i :| 0 <= i < |ms| && ms[i].key == k;
        }
        assert r.value == m;
      }
    }
  }

  lemma {:induction false} AllSurvive(v: Value)
    ensures Survives(token => Some(token), v)
    decreases v
  {
    match v
    case Arr(items) =>
      forall i | 0 <= i < |items| ensures Survives(token => Some(token), items[i]) { AllSurvive(items[i]); }
    case Obj(m) => forall k | k in m ensures Survives(token => Some(token), m[k]) { AllSurvive(m[k]); }
    case _ =>
  }

  /** Different values have different trees. */
  lemma TreeInjective(v: Value, w: Value)
    requires ToTree(v) == ToTree(w)
    ensures v == w
  {
    var id := token => Some(token);
    AllSurvive(v);
    AllSurvive(w);
    ReadBack(id, v);
    ReadBack(id, w);
    hide ToTree, FromTree, Survives;
  }

  /** Clean text decodes to values with clean text. */
  lemma {:induction false} FromTreeText(reprint: Reprint, t: Json.Tree)
    requires Json.TextValid(t) && FromTree(reprint, t).Some?
    ensures Json.TextValid(ToTree(FromTree(reprint, t).value))
    decreases t
  {
    match t
    case Arr(items) =>
      hide FromItems, ToTree;
      FromItemsText(reprint, items);
      ItemsText(FromItems(reprint, items).value);
    case Obj(members) =>
      hide FromMembers, ToTree, TextMap;
      FromMembersText(reprint, members);
      MapText(FromMembers(reprint, members).value);
    case _ =>
  }

  lemma ItemsText(vs: seq<Value>)
    requires forall i :: 0 <= i < |vs| ==> Json.TextValid(ToTree(vs[i]))
    ensures Json.TextValid(ToTree(Arr(vs)))
  {
    hide ItemTrees;
    assert ToTree(Arr(vs)) == Json.Arr(ItemTrees(Arr(vs)));
  }

  lemma MapText(m: map<string, Value>)
    requires TextMap(m)
    ensures Json.TextValid(ToTree(Obj(m)))
  {
    hide MemberTrees, Utf8.Valid;
    assert ToTree(Obj(m)) == Json.Obj(MemberTrees(Obj(m)));
  }

  lemma {:induction false} FromItemsText(reprint: Reprint, items: seq<Json.Tree>)
    requires FromItems(reprint, items).Some? && forall i :: 0 <= i < |items| ==> Json.TextValid(items[i])
    ensures forall i :: 0 <= i < |FromItems(reprint, items).value| ==>
              Json.TextValid(ToTree(FromItems(reprint, items).value[i]))
    decreases items
  {
    hide FromTree, Json.TextValid, ToTree;
    if items != [] {
      FromTreeText(reprint, items[0]);
      FromItemsText(reprint, items[1..]);
    }
  }

  ghost predicate TextMap(m: map<string, Value>) {
    forall k :: k in m ==> Utf8.Valid(k) && Json.TextValid(ToTree(m[k]))
  }

  lemma {:induction false} FromMembersText(reprint: Reprint, members: seq<Json.Member>)
    requires FromMembers(reprint, members).Some?
    requires forall i :: 0 <= i < |members| ==> Utf8.Valid(members[i].key) && Json.TextValid(members[i].value)
    ensures TextMap(FromMembers(reprint, members).value)
    decreases members
  {
    hide FromTree, Json.TextValid, ToTree, Utf8.Valid;
    if members != [] {
      var n := |members| - 1;
      FromMembersText(reprint, members[..n]);
      FromTreeText(reprint, members[n].value);
    }
  }

  /** A value is written and read back unchanged exactly when its texts are UTF-8 and its numbers survive float64. */
  lemma WrittenReadBack(reprint: Reprint, v: Value)
    requires Json.Numeric(ToTree(v))
    ensures FromTree(reprint, Json.CleanTree(ToTree(v))) == Some(v) <==> Printable(v) && Survives(reprint, v)
  {
    var t := ToTree(v);
    PrintableIs(t);
    hide FromTree, ToTree, Json.CleanTree, Json.TextValid, Json.Numeric, Json.Printable, Survives;
    if Printable(v) {
      CleanPrintable(t);
      ReadBack(reprint, v);
    } else if FromTree(reprint, Json.CleanTree(t)).Some? {
      CleanIsText(t);
      FromTreeText(reprint, Json.CleanTree(t));
    }
  }

  /** Strings are UTF-8 and numbers are JSON numbers. */
  predicate Printable(v: Value) { Json.Printable(ToTree(v)) }

  /******* The marshaller *******/

  /** `json.Marshal` of a payload value. */
  function Marshal(v: Value): string { Json.Print(ToTree(v)) }

  /** The bytes still to be written after the first i members of an object. */
  function Remaining(ms: seq<Json.Member>, i: nat): string
    requires 0 < |ms| && i <= |ms|
  {
    if i == |ms| then "}" else (if i > 0 then "," else "") + Json.PrintMembers(ms[i..])
  }

  /**
   `orderedKeyMap.MarshalJSON`. The keys are collected in an arbitrary order, as ranging over a Go map
   gives them; the bytes are nevertheless a function of the map.
   */
  method MarshalJSON(m: map<string, Value>) returns (buf: string)
    ensures buf == Marshal(Obj(m))
    decreases Obj(m), 1
  {
    if |m| == 0 {
      MarshalEmpty(m);
      return "{}";
    }
    var keys := CollectKeys(m.Keys);
    ghost var collected := keys;
    keys := SortBy(keys, k => k);
    SortedKeysUnique(collected, keys, m.Keys);
    buf := WriteMembers(m, keys);
  }

  method WriteMembers(m: map<string, Value>, keys: seq<string>) returns (buf: string)
    requires m != map[] && keys == SortedKeys(m.Keys)
    ensures buf == Marshal(Obj(m))
    decreases Obj(m), 0
  {
    MarshalStart(m);
    hide Marshal, Remaining, MemberTrees, SortedKeys, ToTree, Json.Escape, Json.Print;
    ghost var ms := MemberTrees(Obj(m));
    buf := "{";
    for i := 0 to |keys|
      invariant buf + Remaining(ms, i) == Marshal(Obj(m))
    {
      ghost var before := buf;
      if i > 0 { buf := buf + ","; }
      var key := "\"" + Json.Escape(keys[i]) + "\"";
      buf := buf + (key + ":");
      var valBytes := OrderedMarshal(m[keys[i]]);
      buf := buf + valBytes;
      MemberWritten(ms, i, before, buf, m[keys[i]]);
    }
    RemainingEnd(ms);
    buf := buf + "}";
  }

  lemma MemberWritten(ms: seq<Json.Member>, i: nat, before: string, after: string, v: Value)
    requires i < |ms| && ms[i].value == ToTree(v)
    requires after == (if i > 0 then before + "," else before)
                      + ("\"" + Json.Escape(ms[i].key) + "\"" + ":") + Marshal(v)
    ensures after + Remaining(ms, i + 1) == before + Remaining(ms, i)
  {
    RemainingStep(ms, i);
    assert Marshal(v) == Json.Print(ms[i].value);
    hide *;
    var comma := if i > 0 then "," else "";
    assert before + "" == before;
    Concat(before, comma, "\"" + Json.Escape(ms[i].key) + "\"" + ":", Marshal(v), Remaining(ms, i + 1));
  }

  lemma Concat(before: string, comma: string, key: string, val: string, rest: string)
    ensures before + (comma + (key + val) + rest) == (before + comma) + key + val + rest
  {
  }

  method CollectKeys(ks: set<string>) returns (keys: seq<string>)
    ensures DistinctKeys(keys, k => k) && forall k :: k in keys <==> k in ks
  {
    keys := [];
    var todo := ks;
    while todo != {}
      invariant todo <= ks && DistinctKeys(keys, k => k)
      invariant forall k :: k in keys <==> k in ks - todo
      decreases todo
    {
      var k :| k in todo;
      assert forall i :: 0 <= i < |keys| ==> keys[i] in keys;
      keys := keys + [k];
      todo := todo - {k};
    }
  }

  /** `orderedMarshal`: maps through the sorted marshaller, everything else through the library. */
  method OrderedMarshal(v: Value) returns (buf: string)
    ensures buf == Marshal(v)
    decreases v, 2
  {
    match v
    case Obj(m) => buf := MarshalJSON(m);
    case _ => buf := Marshal(v);
  }

  lemma MarshalEmpty(m: map<string, Value>)
    requires m == map[]
    ensures Marshal(Obj(m)) == "{}"
  {
    assert MemberTrees(Obj(m)) == [];
  }

  lemma MarshalStart(m: map<string, Value>)
    requires m != map[]
    ensures var ms := MemberTrees(Obj(m));
      && ms != [] && |ms| == |SortedKeys(m.Keys)|
      && (forall i :: 0 <= i < |ms| ==> ms[i].key == SortedKeys(m.Keys)[i])
      && "{" + Remaining(ms, 0) == Marshal(Obj(m))
  {
    hide Json.PrintMembers, SortedKeys;
    var ms := MemberTrees(Obj(m));
    assert ms != [] by { assert Names([]) == {}; }
    assert ms[0..] == ms;
    assert "" + Json.PrintMembers(ms) == Json.PrintMembers(ms);
    assert Remaining(ms, 0) == Json.PrintMembers(ms);
    hide Remaining, MemberTrees;
  }

  lemma RemainingStep(ms: seq<Json.Member>, i: nat)
    requires 0 < |ms| && i < |ms|
    ensures Remaining(ms, i)
            == (if i > 0 then "," else "") + (("\"" + Json.Escape(ms[i].key) + "\"" + ":") + Json.Print(ms[i].value))
               + Remaining(ms, i + 1)
  {
    hide Json.Print, Json.Escape;
    var rest := ms[i..];
    var member := ("\"" + Json.Escape(ms[i].key) + "\"" + ":") + Json.Print(ms[i].value);
    assert rest[0] == ms[i] && rest[1..] == ms[i + 1..];
    assert Json.PrintMember(ms[i]) == member;
    assert Json.PrintMembers(rest) == member + Remaining(ms, i + 1);
  }

  lemma RemainingEnd(ms: seq<Json.Member>)
    requires ms != []
    ensures Remaining(ms, |ms|) == "}"
  {
  }

  /** Whatever order the keys were collected in, sorting gives the one ascending sequence. */
  lemma SortedKeysUnique(collected: seq<string>, sorted: seq<string>, ks: set<string>)
    requires DistinctKeys(collected, k => k) && forall k :: k in collected <==> k in ks
    requires SortedBy(sorted, k => k) && multiset(sorted) == multiset(collected)
    ensures sorted == SortedKeys(ks)
  {
    var id := (k: string) => k;
    var s := SortedKeys(ks);
    hide Le, SortedKeys;
    OnceEach(collected, ks);
    OnceEach(s, ks);
    assert SortedBy(sorted, id) && SortedBy(s, id) && DistinctKeys(s, id);
    SortedUnique(s, sorted, id);
  }

  lemma {:induction false} OnceEach(xs: seq<string>, ks: set<string>)
    requires DistinctKeys(xs, k => k) && forall k :: k in xs <==> k in ks
    ensures multiset(xs) == multiset(ks)
    decreases |xs|
  {
    if xs == [] {
      assert ks == {};
    } else {
      var x := xs[0];
      assert xs == [x] + xs[1..];
      assert forall k :: k in xs[1..] ==> k in xs;
      OnceEach(xs[1..], ks - {x});
      assert ks == {x} + (ks - {x});
    }
  }
}
