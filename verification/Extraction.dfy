/** Unpacking one part of a bundle into a fresh directory. */
module Extraction {
  import opened Base
  import opened Bundle
  import opened BundleWriting
  import opened BundleRoundTrip
  import opened Paths

  /** Absolute paths as component lists. */
  type Path = seq<string>

  datatype Stored = Stored(mode: int, data: string)

  datatype Disk = Disk(dirs: set<Path>, files: map<Path, Stored>)

  /** The path and everything above it. */
  function Above(p: Path): (ps: set<Path>)
    ensures forall q :: q in ps <==> q <= p
  {
    if p == [] then {[]}
    else
      AboveStep(p, Above(p[..|p| - 1]));
      Above(p[..|p| - 1]) + {p}
  }

  lemma AboveStep(p: Path, ps: set<Path>)
    requires p != [] && forall q :: q in ps <==> q <= p[..|p| - 1]
    ensures forall q :: q in ps + {p} <==> q <= p
  {
    forall q ensures q in ps + {p} <==> q <= p {
      if q <= p && q != p { assert q <= p[..|p| - 1]; }
    }
  }

  function MkdirAll(d: Disk, p: Path): Option<Disk> {
    if Above(p) !! d.files.Keys then Some(d.(dirs := d.dirs + Above(p))) else None
  }

  function Create(d: Disk, p: Path, content: Stored): Option<Disk> {
    if p in d.dirs then None else Some(d.(files := d.files[p := content]))
  }

  function Parent(p: Path): Path { if p == [] then [] else p[..|p| - 1] }

  /** One entry of the part: the part's own directory is skipped, directories are made, files written. */
  function Unpack(d: Disk, tmp: string, prefix: string, e: Entry): Option<Disk>
    requires prefix <= e.name
  {
    var rel := e.name[|prefix|..];
    if rel == "" then Some(d)
    else
      var dst := JoinRooted(tmp, rel);
      if e.kind.Dir? then MkdirAll(d, dst)
      else
        var made :- MkdirAll(d, Parent(dst));
        if dst in made.dirs || |e.body| < e.size then None
        else Create(made, dst, Stored(e.mode % 0x200, e.body[..e.size]))
  }

  /** All entries of the part, in order. */
  function UnpackAll(d: Disk, tmp: string, prefix: string, names: set<string>, es: seq<Entry>): Option<Disk>
    requires forall name :: name in names ==> prefix <= name
  {
    if es == [] then Some(d)
    else
      var n := |es| - 1;
      var before :- UnpackAll(d, tmp, prefix, names, es[..n]);
      if es[n].name in names then Unpack(before, tmp, prefix, es[n]) else Some(before)
  }

  /** The loop of `extractPrefix` up to the renames: rereads the archive and unpacks the entries listed at opening. */
  method UnpackListed(d: Disk, tmp: string, prefix: string, listed: seq<Meta>, es: seq<Entry>)
    returns (r: Option<Disk>)
    requires forall m :: m in listed ==> prefix <= m.name
    ensures r == UnpackAll(d, tmp, prefix, set m | m in listed :: m.name, es)
  {
    hide Unpack;
    var names: set<string> := {};
    for i := 0 to |listed|
      invariant names == set m | m in listed[..i] :: m.name
    {
      names := names + {listed[i].name};
    }
    assert listed[..|listed|] == listed;
    var disk := d;
    for i := 0 to |es|
      invariant UnpackAll(d, tmp, prefix, names, es[..i]) == Some(disk)
    {
      assert es[..i + 1][..i] == es[..i];
      if es[i].name in names {
        var next := Unpack(disk, tmp, prefix, es[i]);
        if next.None? {
          UnpackFails(d, tmp, prefix, names, es, i + 1);
          return None;
        }
        disk := next.value;
      }
    }
    assert es[..|es|] == es;
    r := Some(disk);
  }

  lemma {:induction false} UnpackFails(d: Disk, tmp: string, prefix: string, names: set<string>, es: seq<Entry>, k: nat)
    requires forall name :: name in names ==> prefix <= name
    requires k <= |es| && UnpackAll(d, tmp, prefix, names, es[..k]).None?
    ensures UnpackAll(d, tmp, prefix, names, es).None?
  {
    hide Unpack;
    if k == |es| {
      assert es[..k] == es;
    } else {
      var n := |es| - 1;
      assert es[..n][..k] == es[..k];
      UnpackFails(d, tmp, prefix, names, es[..n], k);
    }
  }

  /******* Nothing leaves the directory *******/

  /** The later disk agrees with the earlier one outside a directory, and grows only inside it. */
  ghost predicate ChangedBelow(root: Path, d: Disk, later: Disk) {
    && d.dirs <= later.dirs
    && (forall p :: p in later.dirs ==> p in d.dirs || root <= p)
    && (forall p :: p in later.files ==> root < p || (p in d.files && later.files[p] == d.files[p]))
    && (forall p :: p in d.files ==> p in later.files)
  }

  lemma AboveRoot(root: Path, p: Path, q: Path)
    requires root <= p && q <= p
    ensures q <= root || root <= q
  {
  }

  lemma UnpackContained(d: Disk, tmp: string, prefix: string, e: Entry)
    requires prefix <= e.name && ValidPath(e.name) && (prefix == "source/" || prefix == "image/")
    requires Above(JoinRooted(tmp, "")) <= d.dirs
    ensures Unpack(d, tmp, prefix, e).Some? ==> ChangedBelow(JoinRooted(tmp, ""), d, Unpack(d, tmp, prefix, e).value)
  {
    hide JoinRooted, ValidPath, ChangedBelow, MkdirAll, Above;
    var root := JoinRooted(tmp, "");
    var rel := e.name[|prefix|..];
    RelClimbs(prefix, e.name);
    JoinRootedBelow(tmp, rel);
    var dst := JoinRooted(tmp, rel);
    ChangedRefl(root, d);
    MkdirContained(d, root, dst, dst);
    MkdirContained(d, root, dst, Parent(dst));
    var made := MkdirAll(d, Parent(dst));
    if made.Some? {
      ChangedDirs(root, d, made.value);
      assert root in made.value.dirs;
      var content := Stored(e.mode % 0x200, if e.size <= |e.body| then e.body[..e.size] else "");
      if root < dst {
        CreateContained(made.value, root, dst, content);
        ChangedTransitive(root, d, made.value, made.value.(files := made.value.files[dst := content]));
      }
    }
  }

  lemma MkdirContained(d: Disk, root: Path, dst: Path, p: Path)
    requires root <= dst && p <= dst && Above(root) <= d.dirs
    ensures MkdirAll(d, p).Some? ==> ChangedBelow(root, d, MkdirAll(d, p).value)
  {
    forall q | q <= p ensures q in d.dirs || root <= q { AboveRoot(root, dst, q); }
  }

  lemma CreateContained(d: Disk, root: Path, p: Path, content: Stored)
    requires root < p
    ensures ChangedBelow(root, d, d.(files := d.files[p := content]))
  {
  }

  /** Behind its prefix a valid name has no ".." component either. */
  lemma RelClimbs(prefix: string, name: string)
    requires prefix <= name && ValidPath(name) && (prefix == "source/" || prefix == "image/")
    ensures ".." !in Split(name[|prefix|..])
  {
    hide Split, PlaceOf;
    var dir := prefix[..|prefix| - 1];
    var rel := name[|prefix|..];
    assert name == dir + "/" + rel;
    SplitConcat(dir, rel);
    assert forall p :: p in Split(rel) ==> p in Split(dir) + Split(rel);
  }

  lemma ChangedTransitive(root: Path, a: Disk, b: Disk, c: Disk)
    requires ChangedBelow(root, a, b) && ChangedBelow(root, b, c)
    ensures ChangedBelow(root, a, c)
  {
  }

  /** Unpacking an acceptable archive writes only below the fresh directory and keeps every file outside it. */
  lemma {:induction false} ExtractionContained(d: Disk, tmp: string, prefix: string, names: set<string>, es: seq<Entry>)
    requires (prefix == "source/" || prefix == "image/") && forall name :: name in names ==> prefix <= name
    requires forall e :: e in es ==> ValidPath(e.name)
    requires Above(JoinRooted(tmp, "")) <= d.dirs
    ensures var r := UnpackAll(d, tmp, prefix, names, es); r.Some? ==> ChangedBelow(JoinRooted(tmp, ""), d, r.value)
  {
    hide Unpack, ValidPath, JoinRooted, ChangedBelow, Above;
    var root := JoinRooted(tmp, "");
    if es == [] {
      ChangedRefl(root, d);
    } else {
      var n := |es| - 1;
      assert forall e :: e in es[..n] ==> e in es;
      ExtractionContained(d, tmp, prefix, names, es[..n]);
      var before := UnpackAll(d, tmp, prefix, names, es[..n]);
      if before.Some? && es[n].name in names {
        assert es[n] in es;
        ChangedDirs(root, d, before.value);
        UnpackContained(before.value, tmp, prefix, es[n]);
        var after := Unpack(before.value, tmp, prefix, es[n]);
        if after.Some? { ChangedTransitive(root, d, before.value, after.value); }
      }
    }
  }

  lemma ChangedRefl(root: Path, d: Disk)
    ensures ChangedBelow(root, d, d)
  {
  }

  lemma ChangedDirs(root: Path, d: Disk, later: Disk)
    requires ChangedBelow(root, d, later)
    ensures d.dirs <= later.dirs
  {
  }

  /******* Exactly the packed files come out *******/

  /** No packed file lies below another, as on the disk they come from. */
  ghost predicate NoFileBelowFile(fs: seq<File>) {
    forall f, g :: f in fs && g in fs && Split(f.rel) <= Split(g.rel) ==> f == g
  }

  /** Where a packed file comes out. */
  function Dst(root: Path, f: File): Path { root + Split(f.rel) }

  function Content(f: File): Stored { Stored((if f.mode == 0 then 0x1A4 else f.mode) % 0x200, f.data) }

  /** The fresh directory: it exists with all above it, no file stands in its way and it is empty. */
  ghost predicate Fresh(root: Path, d: Disk) {
    && Above(root) <= d.dirs
    && (forall p :: p in d.files ==> !(p <= root) && !(root <= p))
    && forall p :: p in d.dirs ==> !(root < p)
  }

  /** The disk after some of the packed files have come out. */
  ghost predicate Holds(root: Path, d: Disk, done: set<File>, later: Disk) {
    && (forall p :: p in later.files <==> p in d.files || exists f :: f in done && p == Dst(root, f))
    && (forall p :: p in d.files ==> p in later.files && later.files[p] == d.files[p])
    && (forall f :: f in done ==> Dst(root, f) in later.files && later.files[Dst(root, f)] == Content(f))
    && (forall p :: p in later.dirs ==> p in d.dirs || exists f :: f in done && p < Dst(root, f))
    && d.dirs <= later.dirs
  }

  lemma DstOf(tmp: string, place: Place, f: File)
    requires place != Metadata && LegalRel(f.rel)
    ensures JoinRooted(tmp, f.rel) == Dst(JoinRooted(tmp, ""), f) && f.rel != ""
    ensures JoinRooted(tmp, "") < Dst(JoinRooted(tmp, ""), f)
  {
    hide JoinRooted, Split;
    NoTrailingSlash(f.rel);
    JoinRootedBelow(tmp, f.rel);
    CleanProper(true, JoinRooted(tmp, ""), Split(f.rel));
  }

  lemma {:induction false} PrefixCancels(root: Path, p: Path, q: Path)
    ensures root + p <= root + q <==> p <= q
  {
    assert (root + q)[|root|..] == q && (root + p)[|root|..] == p;
    if root + p <= root + q {
      assert (root + q)[..|root + p|] == root + p;
      assert q[..|p|] == (root + q)[|root|..|root + p|] == p;
    }
  }

  /** A file entry that comes next finds its way free and adds just its own file. */
  lemma UnpackFile(d: Disk, now: Disk, tmp: string, place: Place, fs: seq<File>, done: set<File>, f: File)
    requires place == Source || place == Image
    requires LegalFiles(fs) && NoFileBelowFile(fs) && f in fs && f !in done && forall g :: g in done ==> g in fs
    requires var root := JoinRooted(tmp, ""); Fresh(root, d) && Holds(root, d, done, now)
    ensures var r := Unpack(now, tmp, DirOf(place) + "/", FileEntry(place, f));
      r.Some? && Holds(JoinRooted(tmp, ""), d, done + {f}, r.value)
  {
    hide JoinRooted, Split, LegalRel, NoFileBelowFile;
    var root := JoinRooted(tmp, "");
    var e := FileEntry(place, f);
    assert e.name[|DirOf(place) + "/"|..] == f.rel;
    assert e.body[..e.size] == f.data;
    DstOf(tmp, place, f);
    var dst := Dst(root, f);
    forall g | g in done ensures !(Dst(root, g) <= dst) && !(dst <= Dst(root, g)) { Unrelated(root, fs, f, g); }
    FreePath(d, now, root, done, dst);
    FileAdded(d, now, root, done, f);
  }

  lemma Unrelated(root: Path, fs: seq<File>, f: File, g: File)
    requires NoFileBelowFile(fs) && f in fs && g in fs && f != g
    ensures !(Dst(root, g) <= Dst(root, f)) && !(Dst(root, f) <= Dst(root, g))
  {
    hide Split;
    PrefixCancels(root, Split(f.rel), Split(g.rel));
    PrefixCancels(root, Split(g.rel), Split(f.rel));
  }

  lemma FreePath(d: Disk, now: Disk, root: Path, done: set<File>, dst: Path)
    requires Fresh(root, d) && Holds(root, d, done, now) && root < dst
    requires forall g :: g in done ==> !(Dst(root, g) <= dst) && !(dst <= Dst(root, g))
    ensures Above(Parent(dst)) !! now.files.Keys
    ensures dst !in now.dirs + Above(Parent(dst))
  {
    hide Dst;
    forall p | p in Above(Parent(dst)) ensures p !in now.files {
      assert p <= dst;
      if p in d.files { AboveRoot(root, dst, p); }
    }
  }

  lemma FileAdded(d: Disk, now: Disk, root: Path, done: set<File>, f: File)
    requires Fresh(root, d) && Holds(root, d, done, now) && root < Dst(root, f)
    requires forall g :: g in done ==> Dst(root, g) != Dst(root, f)
    ensures var dst := Dst(root, f);
      Holds(root, d, done + {f}, Disk(now.dirs + Above(Parent(dst)), now.files[dst := Content(f)]))
  {
    hide Dst, Content;
    var dst := Dst(root, f);
    var later := Disk(now.dirs + Above(Parent(dst)), now.files[dst := Content(f)]);
    assert forall p :: p in Above(Parent(dst)) ==> p < dst;
    assert forall g :: g in done + {f} <==> g in done || g == f;
    assert f in done + {f};
    forall p | p in later.dirs ensures p in d.dirs || exists g :: g in done + {f} && p < Dst(root, g) {
      if p in now.dirs && p !in d.dirs {
        var g :| g in done && p < Dst(root, g);
        assert g in done + {f};
      }
    }
    forall p ensures p in later.files <==> p in d.files || exists g :: g in done + {f} && p == Dst(root, g) {
      if p in now.files && p !in d.files {
        var g :| g in done && p == Dst(root, g);
        assert g in done + {f};
      }
    }
  }

  /** The packed files whose entry has been met. */
  ghost function Done(place: Place, fs: seq<File>, es: seq<Entry>): set<File>
    requires place != Metadata
  {
    set f | f in fs && FileEntry(place, f) in es
  }

  lemma SameEntry(place: Place, fs: seq<File>, f: File, g: File)
    requires place != Metadata && LegalFiles(fs) && f in fs && g in fs
    requires FileEntry(place, f).name == FileEntry(place, g).name
    ensures f == g
  {
    hide LegalRel, DirOf;
    var n := |DirOf(place)| + 1;
    assert FileEntry(place, f).name[n..] == f.rel && FileEntry(place, g).name[n..] == g.rel;
    var i :| 0 <= i < |fs| && fs[i] == f;
    var j :| 0 <= j < |fs| && fs[j] == g;
  }

  lemma DoneStep(place: Place, fs: seq<File>, es: seq<Entry>, f: File)
    requires place != Metadata && LegalFiles(fs) && f in fs
    requires es != [] && DistinctNames(es) && es[|es| - 1] == FileEntry(place, f)
    ensures Done(place, fs, es) == Done(place, fs, es[..|es| - 1]) + {f}
    ensures f !in Done(place, fs, es[..|es| - 1])
  {
    hide FileEntry, LegalFiles;
    var n := |es| - 1;
    assert es == es[..n] + [es[n]];
    forall g | g in fs && FileEntry(place, g) == es[n] ensures g == f { SameEntry(place, fs, f, g); }
    assert es[n] !in es[..n];
  }

  lemma DoneSkip(place: Place, fs: seq<File>, es: seq<Entry>)
    requires place != Metadata && es != []
    requires forall f :: f in fs ==> FileEntry(place, f) != es[|es| - 1]
    ensures Done(place, fs, es) == Done(place, fs, es[..|es| - 1])
  {
    hide FileEntry;
    assert es == es[..|es| - 1] + [es[|es| - 1]];
  }

  /** The entries selected by name are the part's directory and its files. */
  ghost predicate Selects(place: Place, fs: seq<File>, names: set<string>, es: seq<Entry>)
    requires place != Metadata
  {
    && (forall e :: e in es && e.name in names ==>
          e == DirEntry(place) || exists f :: f in fs && e == FileEntry(place, f))
    && (forall f :: f in fs ==> FileEntry(place, f).name in names)
    && forall name :: name in names ==> DirOf(place) + "/" <= name
  }

  lemma {:induction false} UnpackPart(
    d: Disk, tmp: string, place: Place, fs: seq<File>, names: set<string>, es: seq<Entry>)
    requires place == Source || place == Image
    requires LegalFiles(fs) && NoFileBelowFile(fs) && DistinctNames(es) && Selects(place, fs, names, es)
    requires Fresh(JoinRooted(tmp, ""), d)
    ensures var r := UnpackAll(d, tmp, DirOf(place) + "/", names, es);
      r.Some? && Holds(JoinRooted(tmp, ""), d, Done(place, fs, es), r.value)
  {
    hide LegalFiles, NoFileBelowFile, Unpack, FileEntry, DirEntry, Holds, Fresh, Done, DirOf, JoinRooted;
    var root := JoinRooted(tmp, "");
    if es == [] {
      HoldsNothing(root, d, place, fs);
    } else {
      var n := |es| - 1;
      assert forall e :: e in es[..n] ==> e in es;
      UnpackPart(d, tmp, place, fs, names, es[..n]);
      var now := UnpackAll(d, tmp, DirOf(place) + "/", names, es[..n]).value;
      assert es[n] in es;
      if es[n].name !in names {
        DoneSkip(place, fs, es);
      } else if f :| f in fs && es[n] == FileEntry(place, f) {
        DoneStep(place, fs, es, f);
        DoneListed(place, fs, es[..n]);
        UnpackFile(d, now, tmp, place, fs, Done(place, fs, es[..n]), f);
      } else {
        DoneSkip(place, fs, es);
        UnpackDir(now, tmp, place);
      }
    }
  }

  lemma DoneListed(place: Place, fs: seq<File>, es: seq<Entry>)
    requires place != Metadata
    ensures forall f :: f in Done(place, fs, es) ==> f in fs
  {
  }

  lemma HoldsNothing(root: Path, d: Disk, place: Place, fs: seq<File>)
    requires place != Metadata
    ensures Holds(root, d, Done(place, fs, []), d)
  {
  }

  lemma UnpackDir(now: Disk, tmp: string, place: Place)
    requires place != Metadata
    ensures Unpack(now, tmp, DirOf(place) + "/", DirEntry(place)) == Some(now)
  {
  }

  function FilesAt(x: Input, place: Place): seq<File> {
    match place
    case Source => x.sources
    case Image => x.images
    case _ => []
  }

  function ListedAt(c: Contents, place: Place): seq<Meta> {
    match place
    case Source => c.source
    case Image => c.image
    case _ => []
  }

  lemma ListedSelects(x: Input, es: seq<Entry>, place: Place, names: set<string>)
    requires Legal(x) && Written(x, es) && (place == Source || place == Image)
    requires names == set m | m in ListedAt(ContentsOf(es), place) :: m.name
    ensures Selects(place, FilesAt(x, place), names, es)
  {
    hide AllEntries, Emitted, Items, Metas, TreeEntries, LegalFiles, Keep, DirEntry, FileEntry, DistinctNames, DirOf;
    var fs := FilesAt(x, place);
    AllShape(x);
    WrittenDistinct(x, es);
    KeptSource(x);
    KeepPermutes(AllEntries(x), es, place);
    var part := TreeEntries(place, place == Source, fs);
    var kept := Keep(es, place);
    assert multiset(kept) == multiset(part);
    NamesOfMetas(kept, names);
    forall e ensures e in kept <==> e in part { assert e in multiset(kept) <==> e in multiset(part); }
    forall f | f in fs ensures FileEntry(place, f) in kept { InTree(place, place == Source, fs, FileEntry(place, f)); }
    forall e | e in kept ensures e in es && (e == DirEntry(place) || exists f :: f in fs && e == FileEntry(place, f)) {
      KeepCount(es, place, e);
      assert multiset(kept)[e] > 0;
      InTree(place, place == Source, fs, e);
    }
    forall e | e in es && e.name in names ensures e in kept { OnlyOneNamed(es, kept, e); }
    forall e | e in kept ensures DirOf(place) + "/" <= e.name { TreePrefix(place, fs, e); }
  }

  lemma NamesOfMetas(es: seq<Entry>, names: set<string>)
    requires names == set m | m in Metas(es) :: m.name
    ensures forall name :: name in names <==> exists e :: e in es && e.name == name
  {
    forall name ensures name in names <==> exists e :: e in es && e.name == name {
      if name in names {
        var m :| m in Metas(es) && m.name == name;
        var i :| 0 <= i < |es| && Metas(es)[i] == m;
        assert es[i] in es && es[i].name == name;
      }
      if e :| e in es && e.name == name {
        var i :| 0 <= i < |es| && es[i] == e;
        assert Metas(es)[i] in Metas(es) && Metas(es)[i].name == name;
      }
    }
  }

  lemma OnlyOneNamed(es: seq<Entry>, kept: seq<Entry>, e: Entry)
    requires DistinctNames(es) && e in es && forall k :: k in kept ==> k in es
    requires exists k :: k in kept && k.name == e.name
    ensures e in kept
  {
    var k :| k in kept && k.name == e.name;
    var i :| 0 <= i < |es| && es[i] == e;
    var j :| 0 <= j < |es| && es[j] == k;
  }

  lemma TreePrefix(place: Place, fs: seq<File>, e: Entry)
    requires place != Metadata && (e == DirEntry(place) || exists f :: f in fs && e == FileEntry(place, f))
    ensures DirOf(place) + "/" <= e.name
  {
    hide DirOf;
  }

  /**
   Packing, opening and unpacking gives back the packed files of a part: each at its own path with its own bytes and
   permission bits, nothing else, and nothing that was on the disk before is touched.
   */
  lemma ExtractionExact(x: Input, es: seq<Entry>, place: Place, d: Disk, tmp: string, names: set<string>)
    requires Legal(x) && Written(x, es) && (place == Source || place == Image) && NoFileBelowFile(FilesAt(x, place))
    requires Fresh(JoinRooted(tmp, ""), d)
    requires names == set m | m in ListedAt(ContentsOf(es), place) :: m.name
    ensures forall name :: name in names ==> DirOf(place) + "/" <= name
    ensures var r := UnpackAll(d, tmp, DirOf(place) + "/", names, es);
      r.Some? && Holds(JoinRooted(tmp, ""), d, (set f | f in FilesAt(x, place)), r.value)
  {
    hide NoFileBelowFile, Fresh, Unpack, UnpackAll, FileEntry, DirEntry, Holds, JoinRooted, ListedAt, DistinctNames,
      Written, LegalFiles;
    var fs := FilesAt(x, place);
    ListedSelects(x, es, place, names);
    WrittenDistinct(x, es);
    UnpackPart(d, tmp, place, fs, names, es);
    AllDone(x, es, place);
  }

  lemma AllDone(x: Input, es: seq<Entry>, place: Place)
    requires Legal(x) && Written(x, es) && (place == Source || place == Image)
    ensures Done(place, FilesAt(x, place), es) == set f | f in FilesAt(x, place)
  {
    hide AllEntries, Emitted, Items, TreeEntries, LegalFiles, Keep, FileEntry, DirOf;
    var fs := FilesAt(x, place);
    AllShape(x);
    forall f | f in fs ensures FileEntry(place, f) in es {
      var e := FileEntry(place, f);
      InTree(place, place == Source, fs, e);
      PartOfAll(x, place, e);
      assert e in multiset(es);
    }
  }

  lemma PartOfAll(x: Input, place: Place, e: Entry)
    requires (place == Source || place == Image) && e in TreeEntries(place, place == Source, FilesAt(x, place))
    ensures e in AllEntries(x)
  {
    hide TreeEntries, FixedEntries;
  }
}
