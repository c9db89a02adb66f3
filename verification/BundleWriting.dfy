/** Writing a bundle archive: every input file once, in name order. */
module BundleWriting {
  import opened Base
  import opened Bundle
  import opened Ordering
  import opened Paths

  /** A file to pack: its path below the packed directory, permission bits and bytes on disk. */
  datatype File = File(rel: string, mode: nat, data: string)

  datatype Input = Input(
    manifest: string, lock: string, policy: string, sbom: string,
    sources: seq<File>, extras: seq<File>, images: seq<File>)

  datatype Item = Item(name: string, body: string, mode: int, fromDisk: bool)

  function NameOf(e: Entry): string { e.name }
  function ItemName(it: Item): string { it.name }

  predicate IsDir(name: string) { name != "" && name[|name| - 1] == '/' }

  /** The tar entry written for one item. */
  function Emit(it: Item): Entry {
    if IsDir(it.name) then Entry(it.name, Dir, if it.fromDisk then |it.body| else 0, it.mode, "")
    else Entry(it.name, Reg, |it.body|, if it.fromDisk && it.mode == 0 then 0x1A4 else it.mode, it.body)
  }

  function FromDisk(dir: string, f: File): Item { Item(Join(dir, f.rel), f.data, f.mode, true) }

  function FilesOf(dir: string, fs: seq<File>): (its: seq<Item>)
    ensures |its| == |fs| && forall i :: 0 <= i < |fs| ==> its[i] == FromDisk(dir, fs[i])
  {
    Map(DiskItem(dir), fs)
  }

  function DiskItem(dir: string): File -> Item { (f: File) => FromDisk(dir, f) }

  function Tree(dir: string, always: bool, fs: seq<File>): seq<Item> {
    (if always || fs != [] then [Item(dir + "/", "", 0x1ED, false)] else []) + FilesOf(dir, fs)
  }

  function Fixed(x: Input): seq<Item> {
    [Item(MANIFEST, x.manifest, 0x1A4, false), Item(LOCK, x.lock, 0x1A4, false),
     Item(POLICY, x.policy, 0x1A4, false), Item(SBOM, x.sbom, 0x1A4, false)]
  }

  /** Everything to be written, in the order it is collected. */
  function Items(x: Input): seq<Item> {
    Fixed(x) + Tree("source", true, x.sources) + Tree("extra", false, x.extras) + Tree("image", false, x.images)
  }

  function Emitted(its: seq<Item>): (es: seq<Entry>)
    ensures |es| == |its| && forall i :: 0 <= i < |its| ==> es[i] == Emit(its[i])
  {
    Map(Emit, its)
  }

  /** What the writer promises of the archive: the entries of the input, each once, in name order. */
  ghost predicate Written(x: Input, es: seq<Entry>) {
    SortedBy(es, NameOf) && multiset(es) == multiset(Emitted(Items(x)))
  }

  /** Collects the directory entry, if one is due, and then the files below it. */
  method AddTree(dir: string, always: bool, fs: seq<File>, its: seq<Item>) returns (out: seq<Item>)
    ensures out == its + Tree(dir, always, fs)
  {
    hide Join;
    out := its;
    if always || |fs| > 0 {
      out := out + [Item(dir + "/", "", 0x1ED, false)];
    }
    ghost var header := out;
    for i := 0 to |fs|
      invariant out == header + FilesOf(dir, fs)[..i]
    {
      out := out + [Item(Join(dir, fs[i].rel), fs[i].data, fs[i].mode, true)];
    }
    assert FilesOf(dir, fs)[..|fs|] == FilesOf(dir, fs);
  }

  /** Fails exactly when some file cannot be read from disk; entries are named by what they will be called. */
  method WriteBundleTar(x: Input, unreadable: set<string>) returns (r: Option<seq<Entry>>)
    ensures r.Some? <==> forall it :: it in Items(x) && it.fromDisk ==> it.name !in unreadable
    ensures r.Some? ==> Written(x, r.value)
  {
    hide Emit, Tree;
    var its := Fixed(x);
    its := AddTree("source", true, x.sources, its);
    its := AddTree("extra", false, x.extras, its);
    its := AddTree("image", false, x.images, its);
    assert its == Items(x);
    hide Items, Fixed;
    var sorted := SortBy(its, ItemName);
    assert forall it :: it in sorted <==> it in its by { SameElements(sorted, its); }
    var es := [];
    for i := 0 to |sorted|
      invariant es == Emitted(sorted)[..i]
      invariant forall k :: 0 <= k < i && sorted[k].fromDisk ==> sorted[k].name !in unreadable
    {
      if sorted[i].fromDisk && sorted[i].name in unreadable {
        assert sorted[i] in sorted;
        return None;
      }
      es := es + [Emit(sorted[i])];
    }
    assert es == Emitted(sorted);
    EmittedSorted(sorted);
    MapPermutes(Emit, sorted, its);
    r := Some(es);
  }

  lemma SameElements<T>(xs: seq<T>, ys: seq<T>)
    requires multiset(xs) == multiset(ys)
    ensures forall x :: x in xs <==> x in ys
  {
    forall x ensures x in xs <==> x in ys { assert x in multiset(xs) <==> x in multiset(ys); }
  }

  lemma EmitKeepsName(it: Item)
    ensures Emit(it).name == it.name
  {
  }

  lemma EmittedSorted(its: seq<Item>)
    requires SortedBy(its, ItemName)
    ensures SortedBy(Emitted(its), NameOf)
  {
    hide Emit, Le;
    forall i | 0 <= i < |its| ensures Emit(its[i]).name == its[i].name { EmitKeepsName(its[i]); }
    forall i, j | 0 <= i < j < |its| ensures Le(NameOf(Emitted(its)[i]), NameOf(Emitted(its)[j])) {
      assert Le(ItemName(its[i]), ItemName(its[j]));
    }
  }
}
