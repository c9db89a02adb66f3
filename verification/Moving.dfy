/** The end of an extraction: what was unpacked is renamed, name by name, into the destination directory. */
module Moving {
  import opened Base
  import opened Bundle
  import opened BundleWriting
  import opened BundleRoundTrip
  import opened Extraction
  import opened Ordering
  import opened Paths

  /******* The disk, path by path *******/

  datatype Node = Nothing | Folder | Regular(content: Stored)

  function At(d: Disk, p: Path): Node {
    if p in d.dirs then Folder else if p in d.files then Regular(d.files[p]) else Nothing
  }

  /** Whatever is on the disk stands in directories, and no path is both a file and a directory. */
  ghost predicate Closed(d: Disk) {
    && [] in d.dirs && d.dirs !! d.files.Keys
    && (forall p :: p in d.dirs ==> Above(p) <= d.dirs)
    && (forall p :: p in d.files ==> Above(Parent(p)) <= d.dirs)
  }

  lemma Ancestors(d: Disk, q: Path, p: Path)
    requires Closed(d) && q < p && At(d, p) != Nothing
    ensures At(d, q) == Folder
  {
    assert p in d.files ==> q <= Parent(p);
    assert p in d.dirs ==> q in Above(p);
    assert p in d.files ==> q in Above(Parent(p));
  }

  /** The paths at or below src, seen from dst. */
  function MovedPaths(ps: set<Path>, src: Path, dst: Path): set<Path> {
    set p | p in ps && src <= p :: dst + p[|src|..]
  }

  lemma InMoved(ps: set<Path>, src: Path, dst: Path, q: Path)
    ensures q in MovedPaths(ps, src, dst) <==> dst <= q && src + q[|dst|..] in ps
  {
    forall p | p in ps && src <= p ensures dst + p[|src|..] == q <==> dst <= q && p == src + q[|dst|..] {
      assert src + p[|src|..] == p && (dst + p[|src|..])[|dst|..] == p[|src|..];
      if dst <= q { assert (src + q[|dst|..])[|src|..] == q[|dst|..] && dst + q[|dst|..] == q; }
    }
    if dst <= q && src + q[|dst|..] in ps {
      var p := src + q[|dst|..];
      assert p in ps && src <= p && dst + p[|src|..] == q;
    }
  }

  /** One file or directory with all below it. */
  function Rename(d: Disk, src: Path, dst: Path): Disk {
    var stay := set p | p in d.files && !(src <= p);
    Disk((set p | p in d.dirs && !(src <= p)) + MovedPaths(d.dirs, src, dst),
         map q | q in stay + MovedPaths(d.files.Keys, src, dst) :: CameFrom(d, src, dst, q))
  }

  function CameFrom(d: Disk, src: Path, dst: Path, q: Path): Stored {
    if dst <= q && src + q[|dst|..] in d.files then d.files[src + q[|dst|..]]
    else if q in d.files then d.files[q] else Stored(0, "")
  }

  /** `os.Rename` refuses an existing directory, and a file in the way of a directory; a file it replaces. */
  predicate Free(d: Disk, src: Path, dst: Path) {
    && At(d, src) != Nothing && At(d, dst) != Folder
    && !(At(d, src) == Folder && At(d, dst).Regular?)
  }

  /** Where the name of a path leads after the rename. */
  lemma Renamed(d: Disk, src: Path, dst: Path, q: Path)
    requires Closed(d) && Free(d, src, dst) && !(src <= dst) && !(dst <= src)
    ensures At(Rename(d, src, dst), q)
         == if dst <= q then At(d, src + q[|dst|..]) else if src <= q then Nothing else At(d, q)
    ensures var r := Rename(d, src, dst); !(q in r.dirs && q in r.files)
  {
    hide Closed, MovedPaths;
    InMoved(d.dirs, src, dst, q);
    InMoved(d.files.Keys, src, dst, q);
    DisjointKinds(d, q);
    if dst <= q {
      DisjointKinds(d, src + q[|dst|..]);
      if dst < q && At(d, q) != Nothing { Ancestors(d, dst, q); }
      if q == dst { assert src + q[|dst|..] == src; }
    }
  }

  lemma DisjointKinds(d: Disk, p: Path)
    requires Closed(d)
    ensures !(p in d.dirs && p in d.files)
  {
  }

  lemma RenameClosed(d: Disk, src: Path, dst: Path)
    requires Closed(d) && Free(d, src, dst) && !(src <= dst) && !(dst <= src)
    requires dst != [] && At(d, Parent(dst)) == Folder
    ensures Closed(Rename(d, src, dst))
  {
    var r := Rename(d, src, dst);
    hide Rename, Free, Closed;
    forall q ensures !(q in r.dirs && q in r.files) { Renamed(d, src, dst, q); }
    Renamed(d, src, dst, []);
    RootIs(d);
    forall p, q | q < p && At(r, p) != Nothing ensures At(r, q) == Folder {
      Renamed(d, src, dst, p);
      Renamed(d, src, dst, q);
      RenamedAbove(d, src, dst, q, p);
    }
    ClosedIf(r);
  }

  /** The paths above a renamed path. */
  lemma RenamedAbove(d: Disk, src: Path, dst: Path, q: Path, p: Path)
    requires Closed(d) && !(src <= dst) && !(dst <= src) && dst != [] && At(d, Parent(dst)) == Folder && q < p
    requires (if dst <= p then At(d, src + p[|dst|..]) else if src <= p then Nothing else At(d, p)) != Nothing
    ensures (if dst <= q then At(d, src + q[|dst|..]) else if src <= q then Nothing else At(d, q)) == Folder
  {
    hide Closed, At;
    if dst <= q {
      assert src + q[|dst|..] < src + p[|dst|..];
      Ancestors(d, src + q[|dst|..], src + p[|dst|..]);
    } else if dst <= p {
      assert q < dst && !(src <= q);
      assert q <= Parent(dst);
      if q != Parent(dst) {
        assert q < Parent(dst);
        Ancestors(d, q, Parent(dst));
      }
    } else {
      Ancestors(d, q, p);
    }
  }

  lemma RootIs(d: Disk)
    requires Closed(d)
    ensures At(d, []) == Folder
  {
  }

  lemma ClosedIf(d: Disk)
    requires At(d, []) == Folder && forall q :: !(q in d.dirs && q in d.files)
    requires forall p, q :: q < p && At(d, p) != Nothing ==> At(d, q) == Folder
    ensures Closed(d)
  {
    forall p | p in d.dirs ensures Above(p) <= d.dirs {
      forall q | q in Above(p) ensures q in d.dirs {
        assert At(d, p) != Nothing;
        if q != p { assert q < p && At(d, q) == Folder; }
      }
    }
    forall p | p in d.files ensures Above(Parent(p)) <= d.dirs {
      assert p != [] && At(d, p) != Nothing;
      forall q | q in Above(Parent(p)) ensures q in d.dirs { assert q < p && At(d, q) == Folder; }
    }
  }

  /******* Name by name *******/

  /** The fresh directory and an existing destination that is not below it. */
  ghost predicate Ready(d: Disk, tmp: Path, dest: Path) {
    Closed(d) && At(d, tmp) == Folder && At(d, dest) == Folder && !(tmp <= dest)
  }

  predicate Blocked(d: Disk, tmp: Path, dest: Path, fails: string -> bool, name: string) {
    fails(name) || !Free(d, tmp + [name], dest + [name])
  }

  datatype Moves = Moves(disk: Disk, ok: bool)

  /** Renames in order; the first that fails ends it. */
  function MoveAll(d: Disk, tmp: Path, dest: Path, fails: string -> bool, names: seq<string>): Moves {
    if names == [] then Moves(d, true)
    else
      var n := |names| - 1;
      var m := MoveAll(d, tmp, dest, fails, names[..n]);
      if !m.ok || Blocked(m.disk, tmp, dest, fails, names[n]) then m.(ok := false)
      else Moves(Rename(m.disk, tmp + [names[n]], dest + [names[n]]), true)
  }

  /** The leading names nothing stands in the way of. */
  function Unblocked(d: Disk, tmp: Path, dest: Path, fails: string -> bool, names: seq<string>): (k: nat)
    ensures k <= |names|
  {
    if names == [] then 0
    else
      var n := |names| - 1;
      var k := Unblocked(d, tmp, dest, fails, names[..n]);
      if k < n || Blocked(d, tmp, dest, fails, names[n]) then k else n + 1
  }

  /** Which path of the old disk a path of the new one shows, once some names have been moved. */
  function Whence(tmp: Path, dest: Path, done: set<string>, q: Path): Option<Path> {
    if dest < q && q[|dest|] in done then Some(tmp + q[|dest|..])
    else if tmp < q && q[|tmp|] in done then None
    else Some(q)
  }

  function Shown(d: Disk, p: Option<Path>): Node { if p.None? then Nothing else At(d, p.value) }

  ghost predicate Moved(d: Disk, tmp: Path, dest: Path, done: set<string>, now: Disk) {
    && Closed(now)
    && (forall n :: n in done ==> At(d, dest + [n]) != Folder)
    && forall q :: At(now, q) == Shown(d, Whence(tmp, dest, done, q))
  }

  /** A moved name is not the way to the fresh directory. */
  lemma NotAbove(d: Disk, tmp: Path, dest: Path, name: string)
    requires Ready(d, tmp, dest) && At(d, dest + [name]) != Folder
    ensures !(dest + [name] <= tmp)
  {
    if dest + [name] < tmp { Ancestors(d, dest + [name], tmp); }
  }

  lemma Below(p: Path, name: string, q: Path)
    ensures p + [name] <= q <==> p < q && q[|p|] == name
    ensures p + [name] <= q ==> (p + [name]) + q[|p + [name]|..] == q && [name] + q[|p + [name]|..] == q[|p|..]
  {
    if p < q && q[|p|] == name { assert q[..|p| + 1] == p + [name]; }
  }

  /** Names not moved yet are as they were. */
  lemma Untouched(d: Disk, tmp: Path, dest: Path, done: set<string>, now: Disk, name: string, q: Path)
    requires Ready(d, tmp, dest) && Moved(d, tmp, dest, done, now) && name !in done
    requires tmp + [name] <= q || (dest + [name] == q)
    ensures At(now, q) == At(d, q)
  {
    hide Ready, Closed, At;
    if tmp + [name] <= q {
      Below(tmp, name, q);
      if dest < q && q[|dest|] in done {
        NotAboveMoved(d, tmp, dest, done, now, q);
      }
    } else {
      assert q[|dest|] == name;
      NotBelowFresh(d, tmp, dest, q);
    }
  }

  lemma NotAboveMoved(d: Disk, tmp: Path, dest: Path, done: set<string>, now: Disk, q: Path)
    requires Ready(d, tmp, dest) && Moved(d, tmp, dest, done, now) && tmp < q && dest < q
    ensures q[|dest|] !in done
  {
    if q[|dest|] in done {
      Below(dest, q[|dest|], q);
      NotAbove(d, tmp, dest, q[|dest|]);
    }
  }

  lemma NotBelowFresh(d: Disk, tmp: Path, dest: Path, q: Path)
    requires Ready(d, tmp, dest) && dest < q && |q| == |dest| + 1
    ensures !(tmp < q)
  {
  }

  /** One more name: it is blocked exactly if it was on the old disk; if not, the rename takes it along. */
  lemma MoveStep(d: Disk, tmp: Path, dest: Path, done: set<string>, now: Disk, name: string)
    requires Ready(d, tmp, dest) && Moved(d, tmp, dest, done, now) && name !in done
    ensures Free(now, tmp + [name], dest + [name]) <==> Free(d, tmp + [name], dest + [name])
    ensures Free(d, tmp + [name], dest + [name]) ==>
              Moved(d, tmp, dest, done + {name}, Rename(now, tmp + [name], dest + [name]))
  {
    hide Ready, Closed, At, Rename, Moved;
    var src, dst := tmp + [name], dest + [name];
    Untouched(d, tmp, dest, done, now, name, src);
    Untouched(d, tmp, dest, done, now, name, dst);
    if Free(d, src, dst) {
      Apart(d, tmp, dest, done, now, name);
      RenameClosed(now, src, dst);
      forall q ensures At(Rename(now, src, dst), q) == Shown(d, Whence(tmp, dest, done + {name}, q)) {
        Renamed(now, src, dst, q);
        StepShows(d, tmp, dest, done, now, name, q);
      }
      MovedIf(d, tmp, dest, done, now, name);
    }
  }

  lemma MovedIf(d: Disk, tmp: Path, dest: Path, done: set<string>, now: Disk, name: string)
    requires var r := Rename(now, tmp + [name], dest + [name]);
      && Closed(r) && Moved(d, tmp, dest, done, now) && At(d, dest + [name]) != Folder
      && forall q :: At(r, q) == Shown(d, Whence(tmp, dest, done + {name}, q))
    ensures Moved(d, tmp, dest, done + {name}, Rename(now, tmp + [name], dest + [name]))
  {
    hide Closed, At, Rename, Whence;
  }

  /** What the rename needs to know of the two paths. */
  lemma Apart(d: Disk, tmp: Path, dest: Path, done: set<string>, now: Disk, name: string)
    requires Ready(d, tmp, dest) && Moved(d, tmp, dest, done, now) && name !in done && At(d, dest + [name]) != Folder
    ensures var src, dst := tmp + [name], dest + [name];
      Closed(now) && !(src <= dst) && !(dst <= src) && Parent(dst) == dest && At(now, dest) == Folder
  {
    hide Closed, At;
    var src, dst := tmp + [name], dest + [name];
    NotAbove(d, tmp, dest, name);
    if src <= dst { Below(tmp, name, dst); }
    assert Whence(tmp, dest, done, dest) == Some(dest);
  }

  lemma StepShows(d: Disk, tmp: Path, dest: Path, done: set<string>, now: Disk, name: string, q: Path)
    requires Ready(d, tmp, dest) && Moved(d, tmp, dest, done, now) && name !in done && At(d, dest + [name]) != Folder
    ensures var src, dst := tmp + [name], dest + [name];
      (if dst <= q then At(now, src + q[|dst|..]) else if src <= q then Nothing else At(now, q))
      == Shown(d, Whence(tmp, dest, done + {name}, q))
  {
    hide Ready, Closed, At;
    var src, dst := tmp + [name], dest + [name];
    Below(dest, name, q);
    Below(tmp, name, q);
    if dst <= q {
      var b := src + q[|dst|..];
      assert b == tmp + q[|dest|..];
      Untouched(d, tmp, dest, done, now, name, b);
    } else if src <= q {
      NotAbove(d, tmp, dest, name);
      if dest < q && q[|dest|] in done + {name} { NotAboveMoved(d, tmp, dest, done, now, q); }
    }
  }

  function Elements(names: seq<string>): set<string> { set name | name in names }

  /**
   The renames move exactly the leading names nothing stands in the way of: a directory or a failure blocks any name, a
   file blocks a directory. They succeed exactly when no name is blocked, all judged on the disk before the first.
   */
  lemma {:induction false} MovesExact(d: Disk, tmp: Path, dest: Path, fails: string -> bool, names: seq<string>)
    requires Ready(d, tmp, dest) && forall i, j :: 0 <= i < j < |names| ==> names[i] != names[j]
    ensures var m, k := MoveAll(d, tmp, dest, fails, names), Unblocked(d, tmp, dest, fails, names);
      && (m.ok <==> k == |names|)
      && Moved(d, tmp, dest, Elements(names[..k]), m.disk)
    decreases |names|
  {
    hide Ready, Moved, Free, Rename;
    if names == [] {
      NothingMoved(d, tmp, dest);
      assert names[..0] == [] && Elements([]) == {};
    } else {
      var n := |names| - 1;
      var init, name := names[..n], names[n];
      MovesExact(d, tmp, dest, fails, init);
      var m, k := MoveAll(d, tmp, dest, fails, init), Unblocked(d, tmp, dest, fails, init);
      assert init[..k] == names[..k];
      if m.ok {
        assert init[..k] == init;
        MoveStep(d, tmp, dest, Elements(init), m.disk, name);
        assert names[..n + 1] == init + [name];
        assert Elements(init + [name]) == Elements(init) + {name};
      }
    }
  }

  lemma NothingMoved(d: Disk, tmp: Path, dest: Path)
    requires Ready(d, tmp, dest)
    ensures Moved(d, tmp, dest, {}, d)
  {
    hide Closed, At;
  }

  /******* All of an extraction *******/

  lemma MkdirClosed(d: Disk, p: Path)
    requires Closed(d) && MkdirAll(d, p).Some?
    ensures Closed(MkdirAll(d, p).value) && p in MkdirAll(d, p).value.dirs && MkdirAll(d, p).value.files == d.files
  {
    forall q | q in Above(p) ensures Above(q) <= Above(p) {}
  }

  lemma CreateClosed(d: Disk, p: Path, content: Stored)
    requires Closed(d) && Parent(p) in d.dirs && p !in d.dirs
    ensures Closed(d.(files := d.files[p := content]))
  {
  }

  lemma UnpackClosed(d: Disk, tmp: string, prefix: string, e: Entry)
    requires Closed(d) && prefix <= e.name && Unpack(d, tmp, prefix, e).Some?
    ensures Closed(Unpack(d, tmp, prefix, e).value)
  {
    hide Closed, MkdirAll, JoinRooted;
    var rel := e.name[|prefix|..];
    if rel != "" {
      var dst := JoinRooted(tmp, rel);
      if e.kind.Dir? {
        MkdirClosed(d, dst);
      } else {
        MkdirClosed(d, Parent(dst));
        CreateClosed(MkdirAll(d, Parent(dst)).value, dst, Stored(e.mode % 0x200, e.body[..e.size]));
      }
    }
  }

  lemma {:induction false} UnpackAllClosed(d: Disk, tmp: string, prefix: string, names: set<string>, es: seq<Entry>)
    requires Closed(d) && forall name :: name in names ==> prefix <= name
    requires UnpackAll(d, tmp, prefix, names, es).Some?
    ensures Closed(UnpackAll(d, tmp, prefix, names, es).value)
    decreases |es|
  {
    hide Closed, Unpack;
    if es != [] {
      var n := |es| - 1;
      UnpackAllClosed(d, tmp, prefix, names, es[..n]);
      var before := UnpackAll(d, tmp, prefix, names, es[..n]).value;
      if es[n].name in names { UnpackClosed(before, tmp, prefix, es[n]); }
    }
  }

  /** The names `os.ReadDir` lists. */
  function Children(d: Disk, root: Path): set<string> {
    set p | p in d.dirs + d.files.Keys && root < p && |p| == |root| + 1 :: p[|root|]
  }

  lemma IsChild(d: Disk, root: Path, name: string)
    ensures name in Children(d, root) <==> At(d, root + [name]) != Nothing
  {
    if name in Children(d, root) {
      var p :| p in d.dirs + d.files.Keys && root < p && |p| == |root| + 1 && p[|root|] == name;
      assert p == root + [name];
    }
    if At(d, root + [name]) != Nothing {
      var p := root + [name];
      assert p in d.dirs + d.files.Keys && root < p && |p| == |root| + 1 && p[|root|] == name;
    }
  }

  function RemoveAll(d: Disk, root: Path): Disk {
    Disk(set p | p in d.dirs && !(root <= p), map p | p in d.files && !(root <= p) :: d.files[p])
  }

  function WithDir(d: Disk, p: Path): Disk { d.(dirs := d.dirs + {p}) }

  /**
   A fresh directory is made, the listed entries are unpacked into it and moved on, and the directory is removed with
   whatever is left in it, also when unpacking stops half way.
   */
  function Delivered(
    d: Disk, tmp: string, dest: Path, prefix: string, names: set<string>, es: seq<Entry>, fails: string -> bool): Moves
    requires forall name :: name in names ==> prefix <= name
  {
    var root := JoinRooted(tmp, "");
    match UnpackAll(WithDir(d, root), tmp, prefix, names, es)
    case None => Moves(d, false)
    case Some(u) =>
      var m := MoveAll(u, root, dest, fails, SortedKeys(Children(u, root)));
      m.(disk := RemoveAll(m.disk, root))
  }

  /** `extractPrefix`. */
  method ExtractPrefix(
    d: Disk, tmp: string, dest: Path, prefix: string, listed: seq<Meta>, es: seq<Entry>, fails: string -> bool)
    returns (r: Moves)
    requires forall m :: m in listed ==> prefix <= m.name
    ensures listed == [] ==> r == Moves(d, true)
    ensures listed != [] ==> r == Delivered(d, tmp, dest, prefix, (set m | m in listed :: m.name), es, fails)
    ensures var made := d.(dirs := d.dirs + {JoinRooted(tmp, "")});
      listed != [] && UnpackAll(made, tmp, prefix, (set m | m in listed :: m.name), es).None? ==> r == Moves(d, false)
  {
    if listed == [] {
      return Moves(d, true);
    }
    hide UnpackAll, JoinRooted, MoveAll, Children, SortedKeys, RemoveAll;
    var root := JoinRooted(tmp, "");
    var unpacked := UnpackListed(WithDir(d, root), tmp, prefix, listed, es);
    if unpacked.None? {
      return Moves(d, false);
    }
    r := MoveEntries(unpacked.value, root, dest, fails, SortedKeys(Children(unpacked.value, root)));
    r := r.(disk := RemoveAll(r.disk, root));
  }

  /** The loop of renames. */
  method MoveEntries(d: Disk, tmp: Path, dest: Path, fails: string -> bool, entries: seq<string>) returns (r: Moves)
    ensures r == MoveAll(d, tmp, dest, fails, entries)
  {
    hide Rename, Free;
    var disk := d;
    for i := 0 to |entries|
      invariant MoveAll(d, tmp, dest, fails, entries[..i]) == Moves(disk, true)
    {
      assert entries[..i + 1][..i] == entries[..i];
      if Blocked(disk, tmp, dest, fails, entries[i]) {
        MoveFails(d, tmp, dest, fails, entries, i + 1);
        return Moves(disk, false);
      }
      disk := Rename(disk, tmp + [entries[i]], dest + [entries[i]]);
    }
    assert entries[..|entries|] == entries;
    return Moves(disk, true);
  }

  lemma {:induction false} MoveFails(
    d: Disk, tmp: Path, dest: Path, fails: string -> bool, names: seq<string>, k: nat)
    requires k <= |names| && !MoveAll(d, tmp, dest, fails, names[..k]).ok
    ensures MoveAll(d, tmp, dest, fails, names) == MoveAll(d, tmp, dest, fails, names[..k])
    decreases |names|
  {
    hide Rename, Free;
    if k == |names| {
      assert names[..k] == names;
    } else {
      var n := |names| - 1;
      assert names[..n][..k] == names[..k];
      MoveFails(d, tmp, dest, fails, names[..n], k);
    }
  }

  /******* What arrives *******/

  /** The name of a packed file, or of the directory it is in, at the top of its part. */
  function Top(f: File): string { Split(f.rel)[0] }

  /** What the fresh directory holds: each packed file at its path, and the directories on the way there. */
  lemma FreshHolds(d: Disk, root: Path, fs: seq<File>, u: Disk, s: Path)
    requires Fresh(root, d) && Closed(u) && Holds(root, d, (set f | f in fs), u) && s != []
    ensures At(u, root + s).Regular? ==> exists f :: f in fs && s == Split(f.rel)
    ensures At(u, root + s) == Folder <==> exists f :: f in fs && s < Split(f.rel)
    ensures forall f :: f in fs && s == Split(f.rel) ==> At(u, root + s) == Regular(Content(f))
  {
    hide Split, Content;
    var p := root + s;
    assert p !in d.dirs && p !in d.files by { assert root < p; }
    forall f ensures p == Dst(root, f) <==> s == Split(f.rel) {
      assert (root + Split(f.rel))[|root|..] == Split(f.rel);
    }
    forall f ensures p < Dst(root, f) <==> s < Split(f.rel) { PrefixCancels(root, s, Split(f.rel)); }
    forall f | f in fs && s < Split(f.rel) ensures At(u, p) == Folder { Ancestors(u, p, Dst(root, f)); }
  }

  /** Outside the fresh directory unpacking changes nothing. */
  lemma OutsideHolds(d: Disk, root: Path, fs: seq<File>, u: Disk, q: Path)
    requires Fresh(root, d) && Closed(d) && Closed(u) && Holds(root, d, (set f | f in fs), u) && !(root < q)
    ensures At(u, q) == At(d, q)
  {
    hide Split, Content, Closed;
    DisjointKinds(u, q);
    forall f | f in fs && q < Dst(root, f) ensures q in d.dirs { assert q <= root; }
    forall f ensures q != Dst(root, f) { ProperBelow(root, f); }
  }

  lemma ProperBelow(root: Path, f: File)
    ensures root < Dst(root, f)
  {
    hide Split;
  }

  /** Nothing stands in the way of the file's top name in the destination, judged when the fresh directory is there. */
  predicate CanArrive(d: Disk, dest: Path, fails: string -> bool, f: File) {
    var there := At(d, dest + [Top(f)]);
    !fails(Top(f)) && there != Folder && (|Split(f.rel)| > 1 ==> !there.Regular?)
  }

  /** The fresh directory with the packed files in it, next to a destination. */
  ghost predicate Unpacked(d: Disk, root: Path, dest: Path, fs: seq<File>, u: Disk) {
    && Fresh(root, d) && Closed(d) && Closed(u) && Holds(root, d, (set f | f in fs), u)
    && At(d, dest) == Folder && !(root <= dest)
  }

  lemma UnpackedReady(d: Disk, root: Path, dest: Path, fs: seq<File>, u: Disk)
    requires Unpacked(d, root, dest, fs, u)
    ensures Ready(u, root, dest)
  {
    hide Closed, Split, Content;
    OutsideHolds(d, root, fs, u, root);
    OutsideHolds(d, root, fs, u, dest);
  }

  lemma FirstPart(s: Path, name: string)
    ensures s != [] ==> (s[0] == name <==> [name] <= s) && ([name] < s <==> [name] <= s && |s| > 1)
  {
  }

  lemma ChildrenAreTops(d: Disk, root: Path, dest: Path, fs: seq<File>, u: Disk, name: string)
    requires Unpacked(d, root, dest, fs, u)
    ensures name in Children(u, root) <==> exists f :: f in fs && Top(f) == name
  {
    hide Split, Content, Children, Closed, Fresh, Holds;
    IsChild(u, root, name);
    FreshHolds(d, root, fs, u, [name]);
    forall f ensures Top(f) == name <==> [name] == Split(f.rel) || [name] < Split(f.rel) {
      FirstPart(Split(f.rel), name);
    }
  }

  lemma BlockedIs(d: Disk, root: Path, dest: Path, fs: seq<File>, u: Disk, fails: string -> bool, f: File)
    requires Unpacked(d, root, dest, fs, u) && NoFileBelowFile(fs) && f in fs
    ensures Blocked(u, root, dest, fails, Top(f)) <==> !CanArrive(d, dest, fails, f)
  {
    hide Split, Content, Closed, Fresh, Holds;
    var name := Top(f);
    FirstPart(Split(f.rel), name);
    FreshHolds(d, root, fs, u, [name]);
    NotInFresh(root, dest, name);
    OutsideHolds(d, root, fs, u, dest + [name]);
    if |Split(f.rel)| == 1 {
      assert Split(f.rel) == [name];
      forall g | g in fs ensures !([name] < Split(g.rel)) { OneFile(fs, f, g); }
    }
  }

  lemma NotInFresh(root: Path, dest: Path, name: string)
    requires !(root <= dest)
    ensures !(root < dest + [name])
  {
  }

  lemma OneFile(fs: seq<File>, f: File, g: File)
    requires NoFileBelowFile(fs) && f in fs && g in fs
    ensures !(Split(f.rel) < Split(g.rel))
  {
    hide Split;
  }

  lemma {:induction false} UnblockedAll(d: Disk, tmp: Path, dest: Path, fails: string -> bool, names: seq<string>)
    ensures Unblocked(d, tmp, dest, fails, names) == |names| <==>
            forall name :: name in names ==> !Blocked(d, tmp, dest, fails, name)
    decreases |names|
  {
    hide Blocked;
    if names != [] {
      var n := |names| - 1;
      UnblockedAll(d, tmp, dest, fails, names[..n]);
      assert names == names[..n] + [names[n]];
    }
  }

  lemma Removed(d: Disk, root: Path, q: Path)
    ensures At(RemoveAll(d, root), q) == if root <= q then Nothing else At(d, q)
  {
  }

  /** A path of the disk after some top names have been moved and the fresh directory is gone. */
  lemma Arrives(d: Disk, root: Path, dest: Path, fs: seq<File>, u: Disk, done: set<string>, now: Disk, q: Path)
    requires Unpacked(d, root, dest, fs, u) && Moved(u, root, dest, done, now)
    requires done <= Children(u, root)
    ensures var there := At(RemoveAll(now, root), q);
      && (forall f :: f in fs && q == Dst(dest, f) && Top(f) in done ==> there == Regular(Content(f)))
      && (forall f :: f in fs && q == Dst(dest, f) && Top(f) !in done ==> there == Outside(d, root, q))
      && ((forall f :: f in fs ==> !(dest < q <= Dst(dest, f))) ==> there == Outside(d, root, q))
  {
    hide Split, Content, Closed, Fresh, Holds, Children, RemoveAll, Whence, Unpacked, Moved;
    Removed(now, root, q);
    if dest < q && q[|dest|] in done {
      ArrivesMoved(d, root, dest, fs, u, done, now, q);
    } else {
      ArrivesElse(d, root, dest, fs, u, done, now, q);
    }
    forall f | q == Dst(dest, f) ensures dest < q && q[|dest|] == Top(f) { ProperBelow(dest, f); }
  }

  /** What a path outside the fresh directory shows. */
  function Outside(d: Disk, root: Path, q: Path): Node { if root <= q then Nothing else At(d, q) }

  lemma ArrivesElse(d: Disk, root: Path, dest: Path, fs: seq<File>, u: Disk, done: set<string>, now: Disk, q: Path)
    requires Unpacked(d, root, dest, fs, u) && Moved(u, root, dest, done, now) && !(dest < q && q[|dest|] in done)
    ensures !(root <= q) ==> At(now, q) == At(d, q)
  {
    hide Split, Content, Closed, Fresh, Holds, At;
    if !(root <= q) {
      assert Whence(root, dest, done, q) == Some(q);
      OutsideHolds(d, root, fs, u, q);
    }
  }

  lemma ArrivesMoved(d: Disk, root: Path, dest: Path, fs: seq<File>, u: Disk, done: set<string>, now: Disk, q: Path)
    requires Unpacked(d, root, dest, fs, u) && Moved(u, root, dest, done, now) && done <= Children(u, root)
    requires dest < q && q[|dest|] in done
    ensures !(root <= q)
    ensures forall f :: f in fs && q == Dst(dest, f) ==> At(now, q) == Regular(Content(f))
    ensures (forall f :: f in fs ==> !(q <= Dst(dest, f))) ==> At(now, q) == At(d, q)
  {
    hide Split, Content, Closed, Fresh, Holds, At, Children;
    var name, s := q[|dest|], q[|dest|..];
    assert Whence(root, dest, done, q) == Some(root + s) && s != [] && s[0] == name && q == dest + s;
    UnpackedReady(d, root, dest, fs, u);
    NotAbove(u, root, dest, name);
    Below(dest, name, q);
    NotInFresh(root, dest, name);
    FreshHolds(d, root, fs, u, s);
    forall f ensures (q == Dst(dest, f) <==> s == Split(f.rel)) && (q <= Dst(dest, f) <==> s <= Split(f.rel)) {
      PrefixCancels(dest, s, Split(f.rel));
      assert (dest + Split(f.rel))[|dest|..] == Split(f.rel) && (dest + s)[|dest|..] == s;
    }
    if forall f :: f in fs ==> !(q <= Dst(dest, f)) {
      NobodyThere(d, root, dest, fs, u, name, q);
      assert forall f :: f in fs ==> !(s < Split(f.rel)) && s != Split(f.rel);
      NoneOfThem(u, root + s);
    }
  }

  lemma NoneOfThem(d: Disk, p: Path)
    ensures !At(d, p).Regular? && At(d, p) != Folder ==> At(d, p) == Nothing
  {
  }

  /** A moved name finds nothing below it in the destination, and only a file in its own place. */
  lemma NobodyThere(d: Disk, root: Path, dest: Path, fs: seq<File>, u: Disk, name: string, q: Path)
    requires Unpacked(d, root, dest, fs, u) && name in Children(u, root) && At(u, dest + [name]) != Folder
    requires dest + [name] <= q && forall f :: f in fs ==> !(q <= Dst(dest, f))
    ensures At(d, q) == Nothing
  {
    hide Split, Content, Closed, Fresh, Holds, At, Children;
    ChildrenAreTops(d, root, dest, fs, u, name);
    var f :| f in fs && Top(f) == name;
    NotInFresh(root, dest, name);
    OutsideHolds(d, root, fs, u, dest + [name]);
    if q == dest + [name] {
      FirstPart(Split(f.rel), name);
      PrefixCancels(dest, [name], Split(f.rel));
    } else if At(d, q) != Nothing {
      Ancestors(d, dest + [name], q);
    }
  }

  /** `os.MkdirTemp` has made the root: it was not there, and the destination is an existing directory. */
  ghost predicate Prepared(d: Disk, root: Path, dest: Path) {
    At(d, root) == Nothing && At(d, dest) == Folder && Closed(d) && Fresh(root, WithDir(d, root))
  }

  lemma PreparedClosed(d: Disk, root: Path, dest: Path)
    requires Prepared(d, root, dest)
    ensures Closed(WithDir(d, root)) && At(WithDir(d, root), dest) == Folder && !(root <= dest)
    ensures forall q :: Outside(WithDir(d, root), root, q) == At(d, q)
  {
    var e := WithDir(d, root);
    if root < dest { Ancestors(d, root, dest); }
    forall q ensures Outside(e, root, q) == At(d, q) {
      if root < q && At(d, q) != Nothing { Ancestors(d, root, q); }
    }
  }

  /**
   Packing, opening and extracting: every packed file of the part arrives at its path below the destination with its
   bytes and permission bits, exactly when nothing stands in the way of any of their top names. If something does, each
   file has arrived or its path is as it was. Nothing else on the disk changes, and the fresh directory is gone.
   */
  lemma ExtractionDelivers(
    x: Input, es: seq<Entry>, place: Place, d: Disk, tmp: string, dest: Path, names: set<string>, fails: string -> bool)
    requires Legal(x) && Written(x, es) && (place == Source || place == Image) && NoFileBelowFile(FilesAt(x, place))
    requires Prepared(d, JoinRooted(tmp, ""), dest)
    requires names == set m | m in ListedAt(ContentsOf(es), place) :: m.name
    ensures forall name :: name in names ==> DirOf(place) + "/" <= name
    ensures var fs, made := FilesAt(x, place), WithDir(d, JoinRooted(tmp, ""));
      var m := Delivered(d, tmp, dest, DirOf(place) + "/", names, es, fails);
      && (m.ok <==> forall f :: f in fs ==> CanArrive(made, dest, fails, f))
      && (forall f :: f in fs ==>
            || At(m.disk, Dst(dest, f)) == Regular(Content(f))
            || (!m.ok && At(m.disk, Dst(dest, f)) == At(d, Dst(dest, f))))
      && forall q :: (forall f :: f in fs ==> !(dest < q <= Dst(dest, f))) ==> At(m.disk, q) == At(d, q)
  {
    hide *;
    var root := JoinRooted(tmp, "");
    var made, fs := WithDir(d, root), FilesAt(x, place);
    PreparedClosed(d, root, dest);
    PreparedFresh(d, root, dest);
    ExtractionExact(x, es, place, made, tmp, names);
    var u := UnpackAll(made, tmp, DirOf(place) + "/", names, es).value;
    UnpackAllClosed(made, tmp, DirOf(place) + "/", names, es);
    assert Unpacked(made, root, dest, fs, u) by { UnpackedIf(made, root, dest, fs, u); }
    DeliveredIs(d, tmp, dest, DirOf(place) + "/", names, es, fails);
    PartDelivered(made, root, dest, fs, u, fails);
  }

  lemma PreparedFresh(d: Disk, root: Path, dest: Path)
    requires Prepared(d, root, dest)
    ensures Fresh(root, WithDir(d, root))
  {
    hide Fresh, Closed;
  }

  lemma UnpackedIf(d: Disk, root: Path, dest: Path, fs: seq<File>, u: Disk)
    requires Fresh(root, d) && Closed(d) && Closed(u) && Holds(root, d, (set f | f in fs), u)
    requires At(d, dest) == Folder && !(root <= dest)
    ensures Unpacked(d, root, dest, fs, u)
  {
    hide Fresh, Closed, Holds, At;
  }

  lemma DeliveredIs(
    d: Disk, tmp: string, dest: Path, prefix: string, names: set<string>, es: seq<Entry>, fails: string -> bool)
    requires forall name :: name in names ==> prefix <= name
    requires UnpackAll(WithDir(d, JoinRooted(tmp, "")), tmp, prefix, names, es).Some?
    ensures var root := JoinRooted(tmp, "");
      var u := UnpackAll(WithDir(d, root), tmp, prefix, names, es).value;
      var m := MoveAll(u, root, dest, fails, SortedKeys(Children(u, root)));
      Delivered(d, tmp, dest, prefix, names, es, fails) == Moves(RemoveAll(m.disk, root), m.ok)
  {
    hide UnpackAll, JoinRooted, WithDir, MoveAll, SortedKeys, Children, RemoveAll;
  }

  /** The same from the unpacked part on. */
  lemma PartDelivered(d: Disk, root: Path, dest: Path, fs: seq<File>, u: Disk, fails: string -> bool)
    requires Unpacked(d, root, dest, fs, u) && NoFileBelowFile(fs)
    ensures var m := MoveAll(u, root, dest, fails, SortedKeys(Children(u, root)));
      var after := RemoveAll(m.disk, root);
      && (m.ok <==> forall f :: f in fs ==> CanArrive(d, dest, fails, f))
      && (forall f :: f in fs ==>
            || At(after, Dst(dest, f)) == Regular(Content(f))
            || (!m.ok && At(after, Dst(dest, f)) == Outside(d, root, Dst(dest, f))))
      && forall q :: (forall f :: f in fs ==> !(dest < q <= Dst(dest, f))) ==> At(after, q) == Outside(d, root, q)
  {
    hide *;
    var tops := SortedKeys(Children(u, root));
    var m, k := MoveAll(u, root, dest, fails, tops), Unblocked(u, root, dest, fails, tops);
    var done := Elements(tops[..k]);
    UnpackedReady(d, root, dest, fs, u);
    MovesExact(u, root, dest, fails, tops);
    UnblockedAll(u, root, dest, fails, tops);
    DoneChildren(Children(u, root), k);
    forall f | f in fs
      ensures Top(f) in Children(u, root)
      ensures Blocked(u, root, dest, fails, Top(f)) <==> !CanArrive(d, dest, fails, f)
    {
      BlockedIs(d, root, dest, fs, u, fails, f);
      ChildrenAreTops(d, root, dest, fs, u, Top(f));
    }
    forall name | name in Children(u, root) ensures exists f :: f in fs && Top(f) == name {
      ChildrenAreTops(d, root, dest, fs, u, name);
    }
    forall f | f in fs { Arrives(d, root, dest, fs, u, done, m.disk, Dst(dest, f)); }
    forall q { Arrives(d, root, dest, fs, u, done, m.disk, q); }
  }

  lemma DoneChildren(ks: set<string>, k: nat)
    requires k <= |SortedKeys(ks)|
    ensures Elements(SortedKeys(ks)[..k]) <= ks
    ensures k == |SortedKeys(ks)| ==> Elements(SortedKeys(ks)[..k]) == ks
    ensures forall name :: name in SortedKeys(ks) <==> name in ks
  {
    hide SortedKeys;
    var tops := SortedKeys(ks);
    if k == |tops| { assert tops[..k] == tops; }
  }
}
