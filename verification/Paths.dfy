/** Slash-separated paths and their lexical cleaning, as `strings.Split`, `path/filepath` Clean and Join do it. */
module Paths {

  /** Puts one more character before a split text. */
  function Prepend(c: char, parts: seq<string>): (r: seq<string>)
    requires parts != []
    ensures r != []
  {
    if c == '/' then [""] + parts else [[c] + parts[0]] + parts[1..]
  }

  /** `strings.Split(s, "/")`. */
  function Split(s: string): (parts: seq<string>)
    ensures parts != []
  {
    if s == "" then [""] else Prepend(s[0], Split(s[1..]))
  }

  lemma PrependConcat(c: char, p: seq<string>, q: seq<string>)
    requires p != []
    ensures Prepend(c, p + q) == Prepend(c, p) + q
  {
    assert (p + q)[1..] == p[1..] + q;
  }

  function Unsplit(parts: seq<string>): string
    requires parts != []
  {
    if |parts| == 1 then parts[0] else parts[0] + "/" + Unsplit(parts[1..])
  }

  lemma {:induction false} UnsplitSplit(s: string)
    ensures Unsplit(Split(s)) == s
  {
    if s != "" {
      UnsplitSplit(s[1..]);
      var rest := Split(s[1..]);
      if s[0] == '/' {
        assert Split(s)[1..] == rest;
      } else {
        assert Split(s)[1..] == rest[1..];
      }
    }
  }

  lemma {:induction false} SplitConcat(a: string, b: string)
    ensures Split(a + "/" + b) == Split(a) + Split(b)
  {
    hide Prepend;
    var s := a + "/" + b;
    if a == "" {
      assert s[1..] == b;
      PrependSlash(Split(b));
    } else {
      SplitConcat(a[1..], b);
      assert s[1..] == a[1..] + "/" + b;
      PrependConcat(a[0], Split(a[1..]), Split(b));
    }
  }

  lemma PrependSlash(p: seq<string>)
    requires p != []
    ensures Prepend('/', p) == [""] + p
  {
  }

  lemma {:induction false} SplitWhole(s: string)
    requires forall i :: 0 <= i < |s| ==> s[i] != '/'
    ensures Split(s) == [s]
  {
    if s != "" {
      SplitWhole(s[1..]);
      assert s == [s[0]] + s[1..];
    }
  }

  /** One step of lexical cleaning; a rooted path cannot climb above its root, a relative one keeps its "..". */
  function CleanStep(rooted: bool, stack: seq<string>, part: string): seq<string> {
    if part == "" || part == "." then stack
    else if part == ".." then
      if stack == [] then if rooted then [] else [part]
      else if stack[|stack| - 1] == ".." then stack + [part]
      else stack[..|stack| - 1]
    else stack + [part]
  }

  /** The components of the cleaned path. */
  function Clean(rooted: bool, stack: seq<string>, parts: seq<string>): seq<string>
    decreases |parts|
  {
    if parts == [] then stack else Clean(rooted, CleanStep(rooted, stack, parts[0]), parts[1..])
  }

  /** Without ".." components cleaning never climbs above where it started. */
  lemma {:induction false} CleanStaysBelow(rooted: bool, stack: seq<string>, parts: seq<string>)
    requires ".." !in parts
    ensures stack <= Clean(rooted, stack, parts)
    decreases |parts|
  {
    if parts != [] {
      assert parts[0] in parts;
      assert forall p :: p in parts[1..] ==> p in parts;
      CleanStaysBelow(rooted, CleanStep(rooted, stack, parts[0]), parts[1..]);
    }
  }

  /** A component that cleaning keeps as it is. */
  predicate Proper(part: string) { part != "" && part != "." && part != ".." }

  lemma {:induction false} CleanProper(rooted: bool, stack: seq<string>, parts: seq<string>)
    requires forall p :: p in parts ==> Proper(p)
    ensures Clean(rooted, stack, parts) == stack + parts
    decreases |parts|
  {
    if parts == [] {
      assert stack + parts == stack;
    } else {
      assert parts[0] in parts;
      assert forall p :: p in parts[1..] ==> p in parts;
      CleanProper(rooted, stack + [parts[0]], parts[1..]);
      assert stack + [parts[0]] + parts[1..] == stack + parts;
    }
  }

  /** `filepath.Join(dir, rel)` for a relative dir; the empty result is written ".". */
  function Join(dir: string, rel: string): string {
    var parts := Clean(false, [], Split(if rel == "" then dir else dir + "/" + rel));
    if parts == [] then "." else Unsplit(parts)
  }

  /** A clean relative path. */
  predicate LegalRel(rel: string) { forall p :: p in Split(rel) ==> Proper(p) }

  lemma JoinLegal(dir: string, rel: string)
    requires Proper(dir) && (forall i :: 0 <= i < |dir| ==> dir[i] != '/') && LegalRel(rel)
    ensures Join(dir, rel) == dir + "/" + rel
  {
    assert !LegalRel("") by { assert "" in Split(""); }
    SplitConcat(dir, rel);
    SplitWhole(dir);
    CleanProper(false, [], [dir] + Split(rel));
    assert [] + ([dir] + Split(rel)) == [dir] + Split(rel);
    UnsplitSplit(dir + "/" + rel);
  }

  /** A path that ends in a slash ends in an empty component. */
  lemma {:induction false} SplitTail(s: string)
    requires s != "" && s[|s| - 1] == '/'
    ensures |Split(s)| > 1 && Split(s)[|Split(s)| - 1] == ""
  {
    if |s| > 1 {
      SplitTail(s[1..]);
    } else {
      assert Split(s[1..]) == [""];
    }
  }

  lemma {:induction false} CleanConcat(rooted: bool, stack: seq<string>, a: seq<string>, b: seq<string>)
    ensures Clean(rooted, stack, a + b) == Clean(rooted, Clean(rooted, stack, a), b)
    decreases |a|
  {
    if a == [] {
      assert a + b == b;
    } else {
      assert (a + b)[1..] == a[1..] + b;
      CleanConcat(rooted, CleanStep(rooted, stack, a[0]), a[1..], b);
    }
  }

  /** The components of `filepath.Join(dir, rel)` for an absolute dir. */
  function JoinRooted(dir: string, rel: string): seq<string> {
    Clean(true, [], Split(if rel == "" then dir else dir + "/" + rel))
  }

  lemma JoinRootedBelow(dir: string, rel: string)
    ensures rel != "" ==> JoinRooted(dir, rel) == Clean(true, JoinRooted(dir, ""), Split(rel))
    ensures ".." !in Split(rel) ==> JoinRooted(dir, "") <= JoinRooted(dir, rel)
  {
    hide Split, Clean;
    SplitConcat(dir, rel);
    CleanConcat(true, [], Split(dir), Split(rel));
    if ".." !in Split(rel) { CleanStaysBelow(true, JoinRooted(dir, ""), Split(rel)); }
  }

  /** Cleaning leaves only proper components, drops empty ones and dots, and lets ".." undo the one before it. */
  lemma {:induction false} CleanLeavesProper(stack: seq<string>, parts: seq<string>)
    requires forall p :: p in stack ==> Proper(p)
    ensures forall p :: p in Clean(true, stack, parts) ==> Proper(p)
    decreases |parts|
  {
    if parts != [] { CleanLeavesProper(CleanStep(true, stack, parts[0]), parts[1..]); }
  }

  lemma CleanSteps(stack: seq<string>, name: string, parts: seq<string>)
    requires Proper(name)
    ensures Clean(true, stack, ["", "."] + parts) == Clean(true, stack, parts)
    ensures Clean(true, stack, [name, ".."] + parts) == Clean(true, stack, parts)
    ensures Clean(true, [], [".."] + parts) == Clean(true, [], parts)
  {
    assert (["", "."] + parts)[1..] == ["."] + parts && (["."] + parts)[1..] == parts;
    assert ([name, ".."] + parts)[1..] == [".."] + parts && ([".."] + parts)[1..] == parts;
    assert (stack + [name])[..|stack|] == stack;
  }
}
