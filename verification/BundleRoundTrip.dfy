/** What the reader makes of what the writer wrote. */
module BundleRoundTrip {
  import opened Bundle
  import opened BundleWriting
  import opened Ordering
  import opened Paths

  /******* Sums, parts and distinctness do not depend on the order *******/

  lemma {:induction false} TotalConcat(a: seq<Entry>, b: seq<Entry>)
    ensures Total(a + b) == Total(a) + Total(b)
    decreases |b|
  {
    if b == [] {
      assert a + b == a;
    } else {
      var n := |b| - 1;
      assert (a + b)[..|a + b| - 1] == a + b[..n];
      TotalConcat(a, b[..n]);
    }
  }

  lemma TotalOne(e: Entry)
    ensures Total([e]) == e.size
  {
    assert [e][..0] == [];
  }

  lemma TotalWithout(es: seq<Entry>, k: nat)
    requires k < |es|
    ensures Total(es) == Total(Without(es, k)) + es[k].size
  {
    hide Total;
    assert es == (es[..k] + [es[k]]) + es[k + 1..];
    TotalConcat(es[..k] + [es[k]], es[k + 1..]);
    TotalConcat(es[..k], [es[k]]);
    TotalConcat(es[..k], es[k + 1..]);
    TotalOne(es[k]);
  }

  lemma {:induction false} TotalPermutes(xs: seq<Entry>, ys: seq<Entry>)
    requires multiset(xs) == multiset(ys)
    ensures Total(xs) == Total(ys)
    decreases |xs|
  {
    hide Total;
    assert |xs| == |multiset(xs)| == |multiset(ys)| == |ys|;
    if xs == [] {
      assert xs == ys;
    } else {
      assert xs[0] in multiset(ys);
      var k :| 0 <= k < |ys| && ys[k] == xs[0];
      WithoutOne(xs, 0);
      WithoutOne(ys, k);
      TotalPermutes(Without(xs, 0), Without(ys, k));
      TotalWithout(xs, 0);
      TotalWithout(ys, k);
    }
  }

  lemma DistinctPermutes(xs: seq<Entry>, ys: seq<Entry>)
    requires multiset(xs) == multiset(ys) && DistinctNames(xs)
    ensures DistinctNames(ys)
  {
    forall i, j | 0 <= i < j < |ys| ensures ys[i].name != ys[j].name {
      WithoutOne(ys, j);
      assert Without(ys, j)[i] == ys[i];
      assert ys[j] in multiset(xs);
      var k :| 0 <= k < |xs| && xs[k] == ys[j];
      WithoutOne(xs, k);
      assert ys[i] in multiset(Without(xs, k));
      var m :| 0 <= m < |xs| - 1 && Without(xs, k)[m] == ys[i];
      assert xs[if m < k then m else m + 1] == ys[i];
    }
  }

  lemma {:induction false} KeepCount(es: seq<Entry>, place: Place, e: Entry)
    ensures multiset(Keep(es, place))[e] == if PlaceOf(e.name) == place then multiset(es)[e] else 0
  {
    hide PlaceOf;
    if es != [] {
      var n := |es| - 1;
      KeepCount(es[..n], place, e);
      assert es == es[..n] + [es[n]];
    }
  }

  lemma KeepPermutes(xs: seq<Entry>, ys: seq<Entry>, place: Place)
    requires multiset(xs) == multiset(ys)
    ensures multiset(Keep(xs, place)) == multiset(Keep(ys, place))
  {
    hide Keep, PlaceOf;
    forall e ensures multiset(Keep(xs, place))[e] == multiset(Keep(ys, place))[e] {
      KeepCount(xs, place, e);
      KeepCount(ys, place, e);
    }
  }

  lemma {:induction false} KeepConcat(a: seq<Entry>, b: seq<Entry>, place: Place)
    ensures Keep(a + b, place) == Keep(a, place) + Keep(b, place)
    decreases |b|
  {
    hide PlaceOf;
    if b == [] {
      assert a + b == a;
    } else {
      var n := |b| - 1;
      assert (a + b)[..|a + b| - 1] == a + b[..n];
      KeepConcat(a, b[..n], place);
    }
  }

  ghost predicate AllAt(es: seq<Entry>, place: Place) { forall e :: e in es ==> PlaceOf(e.name) == place }

  lemma AllAtInit(es: seq<Entry>, place: Place)
    requires AllAt(es, place) && es != []
    ensures AllAt(es[..|es| - 1], place) && PlaceOf(es[|es| - 1].name) == place
  {
    hide PlaceOf;
    assert es[|es| - 1] in es && forall e :: e in es[..|es| - 1] ==> e in es;
  }

  lemma {:induction false} KeepAll(es: seq<Entry>, place: Place)
    requires AllAt(es, place)
    ensures Keep(es, place) == es
  {
    hide PlaceOf, AllAt;
    if es != [] {
      var n := |es| - 1;
      AllAtInit(es, place);
      KeepAll(es[..n], place);
      assert es == es[..n] + [es[n]];
    }
  }

  lemma {:induction false} KeepNone(es: seq<Entry>, at: Place, place: Place)
    requires AllAt(es, at) && at != place
    ensures Keep(es, place) == []
  {
    hide PlaceOf, AllAt;
    if es != [] {
      AllAtInit(es, at);
      KeepNone(es[..|es| - 1], at, place);
    }
  }

  /******* What is written for legal inputs *******/

  /** Clean relative paths, each once. */
  ghost predicate LegalFiles(fs: seq<File>) {
    && (forall f :: f in fs ==> LegalRel(f.rel))
    && forall i, j :: 0 <= i < j < |fs| ==> fs[i].rel != fs[j].rel
  }

  ghost predicate Legal(x: Input) { LegalFiles(x.sources) && LegalFiles(x.extras) && LegalFiles(x.images) }

  predicate Plain(rel: string) { forall i :: 0 <= i < |rel| ==> rel[i] as int >= 0x20 }

  function Sizes(fs: seq<File>): nat {
    if fs == [] then 0 else Sizes(fs[..|fs| - 1]) + |fs[|fs| - 1].data|
  }

  ghost predicate FilesFit(fs: seq<File>) { forall f :: f in fs ==> Plain(f.rel) && |f.data| <= MAX_FILE }

  predicate MetadataFits(x: Input) {
    && |x.manifest| <= MAX_METADATA && |x.lock| <= MAX_METADATA
    && |x.policy| <= MAX_METADATA && |x.sbom| <= MAX_METADATA
  }

  function EntryCount(x: Input): nat { 5 + |x.sources| + if x.images == [] then 0 else 1 + |x.images| }

  function ByteCount(x: Input): nat {
    |x.manifest| + |x.lock| + |x.policy| + |x.sbom| + Sizes(x.sources) + Sizes(x.images)
  }

  /** The inputs whose bundle the reader takes. */
  ghost predicate Readable(x: Input) {
    && x.extras == [] && FilesFit(x.sources) && FilesFit(x.images) && MetadataFits(x)
    && EntryCount(x) <= MAX_ENTRIES && ByteCount(x) <= MAX_TOTAL
  }

  /** The directory of each part; what is packed elsewhere goes to "extra". */
  function DirOf(place: Place): string
    requires place != Metadata
  {
    match place
    case Source => "source"
    case Image => "image"
    case Elsewhere => "extra"
  }

  lemma PlaceUnder(place: Place, rel: string)
    requires place != Metadata
    ensures PlaceOf(DirOf(place) + "/" + rel) == place
  {
    var name := DirOf(place) + "/" + rel;
    match place
    case Source =>
      assert name[..7] == "source/" && name[0] == 's' && name[1] == 'o' && SBOM[1] == 'b';
    case Image =>
      assert name[..6] == "image/" && name[0] == 'i';
    case Elsewhere =>
      assert name[0] == 'e';
  }

  lemma NoTrailingSlash(rel: string)
    requires LegalRel(rel)
    ensures rel != "" && rel[|rel| - 1] != '/'
  {
    hide Split;
    if rel == "" || rel[|rel| - 1] == '/' {
      EmptyComponent(rel);
    }
  }

  lemma EmptyComponent(rel: string)
    requires rel == "" || rel[|rel| - 1] == '/'
    ensures !LegalRel(rel)
  {
    if rel == "" {
      assert "" in Split(rel);
    } else {
      SplitTail(rel);
      assert "" in Split(rel);
    }
  }

  /** The entry of a packed file. */
  function FileEntry(place: Place, f: File): Entry
    requires place != Metadata
  {
    Entry(DirOf(place) + "/" + f.rel, Reg, |f.data|, if f.mode == 0 then 0x1A4 else f.mode, f.data)
  }

  function DirEntry(place: Place): Entry
    requires place != Metadata
  {
    Entry(DirOf(place) + "/", Dir, 0, 0x1ED, "")
  }

  lemma EmitFile(place: Place, f: File)
    requires place != Metadata && LegalRel(f.rel)
    ensures Emit(FromDisk(DirOf(place), f)) == FileEntry(place, f)
  {
    hide LegalRel, Join;
    NoTrailingSlash(f.rel);
    JoinLegal(DirOf(place), f.rel);
    var name := DirOf(place) + "/" + f.rel;
    assert name[|name| - 1] == f.rel[|f.rel| - 1];
  }

  function TreeEntries(place: Place, always: bool, fs: seq<File>): seq<Entry>
    requires place != Metadata
  {
    Emitted(Tree(DirOf(place), always, fs))
  }

  lemma TreeShape(place: Place, always: bool, fs: seq<File>)
    requires place != Metadata && LegalFiles(fs)
    ensures TreeEntries(place, always, fs)
         == (if always || fs != [] then [DirEntry(place)] else []) + FileEntries(place, fs)
  {
    hide LegalRel, FromDisk, FileEntry;
    var dir := DirOf(place);
    forall i | 0 <= i < |fs| ensures Emit(FromDisk(dir, fs[i])) == FileEntry(place, fs[i]) {
      assert fs[i] in fs;
      EmitFile(place, fs[i]);
    }
    assert Emit(Item(dir + "/", "", 0x1ED, false)) == DirEntry(place);
    hide Emit, DirEntry, DirOf;
    var head := if always || fs != [] then [Item(dir + "/", "", 0x1ED, false)] else [];
    assert Tree(dir, always, fs) == head + FilesOf(dir, fs);
  }

  function FileEntries(place: Place, fs: seq<File>): (es: seq<Entry>)
    requires place != Metadata
    ensures |es| == |fs| && forall i :: 0 <= i < |fs| ==> es[i] == FileEntry(place, fs[i])
  {
    seq(|fs|, i requires 0 <= i < |fs| => FileEntry(place, fs[i]))
  }

  lemma PlainUnder(place: Place, rel: string)
    requires place != Metadata
    ensures Plain(DirOf(place) + "/" + rel) <==> Plain(rel)
    ensures forall i :: 0 <= i < |DirOf(place)| ==> DirOf(place)[i] != '/'
    ensures Proper(DirOf(place)) && DirOf(place)[0] != '/'
  {
    var dir := DirOf(place);
    var name := dir + "/" + rel;
    assert forall i :: 0 <= i < |dir| ==> dir[i] as int >= 0x20 && dir[i] != '/';
    hide DirOf;
    assert forall i :: 0 <= i < |rel| ==> rel[i] == name[|dir| + 1 + i];
    assert forall i :: 0 <= i < |dir| + 1 ==> name[i] as int >= 0x20;
  }

  lemma ValidUnder(place: Place, rel: string)
    requires place == Source || place == Image
    requires ".." !in Split(rel)
    ensures ValidPath(DirOf(place) + "/" + rel) <==> Plain(rel)
  {
    hide Split, PlaceOf, DirOf;
    PlainUnder(place, rel);
    SplitConcat(DirOf(place), rel);
    SplitWhole(DirOf(place));
    PlaceUnder(place, rel);
    hide Proper;
  }

  /** The entry of a packed file is taken exactly when its path has no control character and its size is in bounds. */
  lemma FileEntryOk(place: Place, f: File)
    requires place == Source || place == Image
    requires LegalRel(f.rel)
    ensures EntryOk(FileEntry(place, f)) <==> Plain(f.rel) && |f.data| <= MAX_FILE
  {
    hide Split, PlaceOf, DirOf, ValidPath, Plain;
    ValidUnder(place, f.rel);
    PlaceUnder(place, f.rel);
  }

  lemma DirEntryOk(place: Place)
    requires place == Source || place == Image
    ensures EntryOk(DirEntry(place))
  {
    hide PlaceOf, DirOf, ValidPath;
    assert ".." !in Split("");
    ValidUnder(place, "");
    PlaceUnder(place, "");
    assert DirOf(place) + "/" + "" == DirOf(place) + "/";
  }

  /******* The parts together *******/

  lemma InTree(place: Place, always: bool, fs: seq<File>, e: Entry)
    requires place != Metadata && LegalFiles(fs)
    ensures e in TreeEntries(place, always, fs) <==>
              || ((always || fs != []) && e == DirEntry(place))
              || exists f :: f in fs && e == FileEntry(place, f)
  {
    hide FileEntry, DirEntry, TreeEntries, LegalFiles;
    TreeShape(place, always, fs);
    var es := FileEntries(place, fs);
    if e in es {
      var i :| 0 <= i < |es| && es[i] == e;
      assert fs[i] in fs && e == FileEntry(place, fs[i]);
    }
    if f :| f in fs && e == FileEntry(place, f) {
      var i :| 0 <= i < |fs| && fs[i] == f;
      assert es[i] == e;
    }
  }

  lemma TreeAt(place: Place, always: bool, fs: seq<File>)
    requires place != Metadata && LegalFiles(fs)
    ensures AllAt(TreeEntries(place, always, fs), place)
  {
    hide TreeEntries, LegalFiles, PlaceOf, DirOf;
    forall e | e in TreeEntries(place, always, fs) ensures PlaceOf(e.name) == place {
      InTree(place, always, fs, e);
      if f :| f in fs && e == FileEntry(place, f) {
        PlaceUnder(place, f.rel);
      } else {
        PlaceUnder(place, "");
        assert DirOf(place) + "/" + "" == DirOf(place) + "/";
      }
    }
  }

  lemma TreeDistinct(place: Place, always: bool, fs: seq<File>)
    requires place != Metadata && LegalFiles(fs)
    ensures DistinctNames(TreeEntries(place, always, fs))
  {
    hide TreeEntries, DirOf, LegalRel;
    TreeShape(place, always, fs);
    var es := TreeEntries(place, always, fs);
    forall i, j | 0 <= i < j < |es| ensures es[i].name != es[j].name {
      var k := |es| - |fs|;
      var n := |DirOf(place)| + 1;
      assert es[j] == FileEntry(place, fs[j - k]);
      assert es[j].name[n..] == fs[j - k].rel;
      if i >= k {
        assert es[i] == FileEntry(place, fs[i - k]);
        assert es[i].name[n..] == fs[i - k].rel;
      } else {
        assert fs[j - k] in fs;
        NoTrailingSlash(fs[j - k].rel);
        assert |es[i].name| == n;
      }
    }
  }

  lemma TreeOk(place: Place, always: bool, fs: seq<File>)
    requires place == Source || place == Image
    requires LegalFiles(fs)
    ensures (forall e :: e in TreeEntries(place, always, fs) ==> EntryOk(e)) <==> FilesFit(fs)
  {
    hide TreeEntries, FileEntry, DirEntry, EntryOk, LegalRel, Plain;
    var es := TreeEntries(place, always, fs);
    DirEntryOk(place);
    forall f | f in fs
      ensures FileEntry(place, f) in es && (EntryOk(FileEntry(place, f)) <==> Plain(f.rel) && |f.data| <= MAX_FILE)
    {
      InTree(place, always, fs, FileEntry(place, f));
      FileEntryOk(place, f);
    }
    forall e | e in es ensures e == DirEntry(place) || exists f :: f in fs && e == FileEntry(place, f) {
      InTree(place, always, fs, e);
    }
  }

  lemma {:induction false} FileTotal(place: Place, fs: seq<File>)
    requires place != Metadata
    ensures Total(FileEntries(place, fs)) == Sizes(fs)
  {
    if fs != [] {
      var n := |fs| - 1;
      FileTotal(place, fs[..n]);
      assert FileEntries(place, fs)[..n] == FileEntries(place, fs[..n]);
    }
  }

  lemma TreeTotal(place: Place, always: bool, fs: seq<File>)
    requires place != Metadata && LegalFiles(fs)
    ensures Total(TreeEntries(place, always, fs)) == Sizes(fs)
  {
    hide TreeEntries, LegalFiles, Total, Sizes;
    TreeShape(place, always, fs);
    FileTotal(place, fs);
    TotalConcat([DirEntry(place)], FileEntries(place, fs));
    TotalOne(DirEntry(place));
    assert [] + FileEntries(place, fs) == FileEntries(place, fs);
  }

  function MetaEntry(name: string, body: string): Entry { Entry(name, Reg, |body|, 0x1A4, body) }

  function FixedEntries(x: Input): seq<Entry> {
    [MetaEntry(MANIFEST, x.manifest), MetaEntry(LOCK, x.lock), MetaEntry(POLICY, x.policy), MetaEntry(SBOM, x.sbom)]
  }

  lemma FixedShape(x: Input)
    ensures Emitted(Fixed(x)) == FixedEntries(x)
  {
    assert forall it :: it in Fixed(x) ==> !IsDir(it.name) && !it.fromDisk;
  }

  lemma MetaName(name: string)
    requires name == MANIFEST || name == LOCK || name == POLICY || name == SBOM
    ensures Plain(name) && name != "" && name != ".." && PlaceOf(name) == Metadata
    ensures forall i :: 0 <= i < |name| ==> name[i] != '/'
  {
  }

  lemma MetaEntryOk(name: string, body: string)
    requires name == MANIFEST || name == LOCK || name == POLICY || name == SBOM
    ensures EntryOk(MetaEntry(name, body)) <==> |body| <= MAX_METADATA
  {
    hide Split, PlaceOf;
    MetaName(name);
    SplitWhole(name);
  }

  lemma FixedOk(x: Input)
    ensures (forall e :: e in FixedEntries(x) ==> EntryOk(e)) <==> MetadataFits(x)
    ensures AllAt(FixedEntries(x), Metadata) && DistinctNames(FixedEntries(x))
    ensures Total(FixedEntries(x)) == |x.manifest| + |x.lock| + |x.policy| + |x.sbom|
  {
    FixedPlaces(x);
    hide EntryOk, MetaEntry, PlaceOf;
    MetaEntryOk(MANIFEST, x.manifest);
    MetaEntryOk(LOCK, x.lock);
    MetaEntryOk(POLICY, x.policy);
    MetaEntryOk(SBOM, x.sbom);
    var es := FixedEntries(x);
    assert es[0] in es && es[1] in es && es[2] in es && es[3] in es;
    FixedTotal(x);
  }

  lemma FixedPlaces(x: Input)
    ensures AllAt(FixedEntries(x), Metadata) && DistinctNames(FixedEntries(x))
  {
    assert MANIFEST[0] == 'm' && LOCK[0] == 'a' && POLICY[0] == 'p' && SBOM[0] == 's';
  }

  lemma FixedTotal(x: Input)
    ensures |FixedEntries(x)| == 4
    ensures Total(FixedEntries(x)) == |x.manifest| + |x.lock| + |x.policy| + |x.sbom|
  {
    hide Total;
    var es := FixedEntries(x);
    assert es == [es[0]] + [es[1]] + [es[2]] + [es[3]];
    TotalOne(es[0]);
    TotalOne(es[1]);
    TotalOne(es[2]);
    TotalOne(es[3]);
    TotalConcat([es[0]], [es[1]]);
    TotalConcat([es[0]] + [es[1]], [es[2]]);
    TotalConcat([es[0]] + [es[1]] + [es[2]], [es[3]]);
  }

  /** The entries of the whole input, part by part. */
  function AllEntries(x: Input): seq<Entry> {
    FixedEntries(x) + TreeEntries(Source, true, x.sources)
    + TreeEntries(Elsewhere, false, x.extras) + TreeEntries(Image, false, x.images)
  }

  lemma AllShape(x: Input)
    ensures Emitted(Items(x)) == AllEntries(x)
  {
    hide Emit, Fixed, Tree, FixedEntries;
    FixedShape(x);
    var a, b := Fixed(x), Tree("source", true, x.sources);
    var c, d := Tree("extra", false, x.extras), Tree("image", false, x.images);
    assert Emitted(a + b + c + d) == Emitted(a) + Emitted(b) + Emitted(c) + Emitted(d);
  }

  lemma DistinctConcat(a: seq<Entry>, b: seq<Entry>)
    requires DistinctNames(a) && DistinctNames(b)
    requires forall e, f :: e in a && f in b ==> PlaceOf(e.name) != PlaceOf(f.name)
    ensures DistinctNames(a + b)
  {
    hide PlaceOf;
    forall i, j | 0 <= i < j < |a + b| ensures (a + b)[i].name != (a + b)[j].name {
      if i < |a| <= j {
        assert a[i] in a && b[j - |a|] in b;
      }
    }
  }

  lemma AllDistinct(x: Input)
    requires Legal(x)
    ensures DistinctNames(AllEntries(x))
  {
    hide PlaceOf, DistinctNames, FixedEntries, TreeEntries, LegalFiles;
    var a, b := FixedEntries(x), TreeEntries(Source, true, x.sources);
    var c, d := TreeEntries(Elsewhere, false, x.extras), TreeEntries(Image, false, x.images);
    FixedPlaces(x);
    TreeAt(Source, true, x.sources);
    TreeAt(Elsewhere, false, x.extras);
    TreeAt(Image, false, x.images);
    TreeDistinct(Source, true, x.sources);
    TreeDistinct(Elsewhere, false, x.extras);
    TreeDistinct(Image, false, x.images);
    DistinctConcat(a, b);
    DistinctConcat(a + b, c);
    DistinctConcat(a + b + c, d);
  }

  /** No two entries of a written archive share a name. */
  lemma WrittenDistinct(x: Input, es: seq<Entry>)
    requires Legal(x) && Written(x, es)
    ensures DistinctNames(es)
  {
    hide AllEntries, Emitted, Items, DistinctNames;
    AllShape(x);
    AllDistinct(x);
    DistinctPermutes(AllEntries(x), es);
  }

  /** The reader never takes anything below "extra/". */
  lemma ExtrasRefused(x: Input)
    requires Legal(x) && x.extras != []
    ensures DirEntry(Elsewhere) in AllEntries(x) && !EntryOk(DirEntry(Elsewhere))
  {
    hide FixedEntries, TreeEntries, PlaceOf;
    InTree(Elsewhere, false, x.extras, DirEntry(Elsewhere));
    PlaceUnder(Elsewhere, "");
    assert DirOf(Elsewhere) + "/" + "" == DirOf(Elsewhere) + "/";
  }

  lemma AllTotal(x: Input)
    requires Legal(x) && x.extras == []
    ensures Total(AllEntries(x)) == ByteCount(x)
    ensures |AllEntries(x)| == EntryCount(x)
  {
    hide Total, Sizes, FixedEntries, TreeEntries, LegalFiles;
    var a, b := FixedEntries(x), TreeEntries(Source, true, x.sources);
    var c, d := TreeEntries(Elsewhere, false, x.extras), TreeEntries(Image, false, x.images);
    FixedTotal(x);
    TreeTotal(Source, true, x.sources);
    TreeTotal(Elsewhere, false, x.extras);
    TreeTotal(Image, false, x.images);
    TotalConcat(a, b);
    TotalConcat(a + b, c);
    TotalConcat(a + b + c, d);
    TreeShape(Source, true, x.sources);
    TreeShape(Elsewhere, false, x.extras);
    TreeShape(Image, false, x.images);
    NoSizes();
  }

  lemma NoSizes()
    ensures Sizes([]) == 0
  {
  }

  lemma AllOk(x: Input)
    requires Legal(x) && x.extras == []
    ensures (forall e :: e in AllEntries(x) ==> EntryOk(e)) <==>
              FilesFit(x.sources) && FilesFit(x.images) && MetadataFits(x)
  {
    hide FixedEntries, TreeEntries, LegalFiles, EntryOk, FilesFit, MetadataFits;
    var a, b := FixedEntries(x), TreeEntries(Source, true, x.sources);
    var c, d := TreeEntries(Elsewhere, false, x.extras), TreeEntries(Image, false, x.images);
    FixedOk(x);
    TreeOk(Source, true, x.sources);
    TreeOk(Image, false, x.images);
    TreeShape(Elsewhere, false, x.extras);
    assert c == [];
    assert forall e :: e in AllEntries(x) <==> e in a || e in b || e in d;
  }

  /******* The theorems *******/

  /**
   A written archive is acceptable to the reader exactly when the input is readable: above all, has no extra files.
   */
  lemma WrittenReadable(x: Input, es: seq<Entry>)
    requires Legal(x) && Written(x, es)
    ensures Acceptable(es) <==> Readable(x)
  {
    hide AllEntries, Emitted, Items, DistinctNames, EntryOk, Total, LegalFiles, FilesFit, MetadataFits, ByteCount,
      EntryCount;
    var all := AllEntries(x);
    AllShape(x);
    WrittenDistinct(x, es);
    TotalPermutes(all, es);
    assert |all| == |multiset(all)| == |multiset(es)| == |es|;
    assert forall e :: e in all <==> e in multiset(es);
    if x.extras != [] {
      ExtrasRefused(x);
    } else {
      AllOk(x);
      AllTotal(x);
    }
  }

  lemma KeptSource(x: Input)
    requires Legal(x)
    ensures Keep(AllEntries(x), Source) == TreeEntries(Source, true, x.sources)
    ensures Keep(AllEntries(x), Image) == TreeEntries(Image, false, x.images)
  {
    hide PlaceOf, FixedEntries, TreeEntries, LegalFiles, Keep, AllAt;
    var a, b := FixedEntries(x), TreeEntries(Source, true, x.sources);
    var c, d := TreeEntries(Elsewhere, false, x.extras), TreeEntries(Image, false, x.images);
    FixedPlaces(x);
    TreeAt(Source, true, x.sources);
    TreeAt(Elsewhere, false, x.extras);
    TreeAt(Image, false, x.images);
    KeepSplit(a, b, c, d, Source);
    KeepSplit(a, b, c, d, Image);
    KeepNone(a, Metadata, Source);
    KeepAll(b, Source);
    KeepNone(c, Elsewhere, Source);
    KeepNone(d, Image, Source);
    KeepNone(a, Metadata, Image);
    KeepNone(b, Source, Image);
    KeepNone(c, Elsewhere, Image);
    KeepAll(d, Image);
  }

  lemma KeepSplit(a: seq<Entry>, b: seq<Entry>, c: seq<Entry>, d: seq<Entry>, place: Place)
    ensures Keep(a + b + c + d, place) == Keep(a, place) + Keep(b, place) + Keep(c, place) + Keep(d, place)
  {
    hide Keep;
    KeepConcat(a + b + c, d, place);
    KeepConcat(a + b, c, place);
    KeepConcat(a, b, place);
  }

  /**
   Reading back: manifest, lock, policy and SBOM come back byte for byte, and the listed source and image
   entries are the metadata of exactly the packed files and their directory.
   */
  lemma WrittenReadBack(x: Input, es: seq<Entry>)
    requires Legal(x) && Written(x, es)
    ensures var c := ContentsOf(es);
      && c.manifest == x.manifest && c.lock == x.lock && c.policy == x.policy && c.sbom == x.sbom
      && multiset(c.source) == multiset(Metas([DirEntry(Source)] + FileEntries(Source, x.sources)))
      && multiset(c.image)
         == multiset(Metas((if x.images == [] then [] else [DirEntry(Image)]) + FileEntries(Image, x.images)))
    ensures HasName(es, MANIFEST)
  {
    hide AllEntries, Emitted, Items, Metas, TreeEntries, LegalFiles, Keep, DirEntry;
    AllShape(x);
    WrittenDistinct(x, es);
    FixedReadBack(x, es);
    KeptSource(x);
    KeepPermutes(AllEntries(x), es, Source);
    KeepPermutes(AllEntries(x), es, Image);
    TreeShape(Source, true, x.sources);
    TreeShape(Image, false, x.images);
    MetasPermute(TreeEntries(Source, true, x.sources), Keep(es, Source));
    MetasPermute(TreeEntries(Image, false, x.images), Keep(es, Image));
  }

  lemma MetasPermute(xs: seq<Entry>, ys: seq<Entry>)
    requires multiset(xs) == multiset(ys)
    ensures multiset(Metas(xs)) == multiset(Metas(ys))
  {
    MapPermutes(MetaOf, xs, ys);
    assert Metas(xs) == Map(MetaOf, xs) && Metas(ys) == Map(MetaOf, ys);
  }

  lemma FixedReadBack(x: Input, es: seq<Entry>)
    requires DistinctNames(es) && multiset(es) == multiset(AllEntries(x))
    ensures BodyOf(es, MANIFEST) == x.manifest && BodyOf(es, LOCK) == x.lock
    ensures BodyOf(es, POLICY) == x.policy && BodyOf(es, SBOM) == x.sbom
    ensures HasName(es, MANIFEST)
  {
    hide BodyOf, TreeEntries, DistinctNames;
    var all := AllEntries(x);
    assert forall e :: e in FixedEntries(x) ==> e in all;
    assert forall e :: e in all ==> e in multiset(es);
    assert MetaEntry(MANIFEST, x.manifest) in FixedEntries(x) && MetaEntry(LOCK, x.lock) in FixedEntries(x);
    assert MetaEntry(POLICY, x.policy) in FixedEntries(x) && MetaEntry(SBOM, x.sbom) in FixedEntries(x);
    BodyOfMember(es, MetaEntry(MANIFEST, x.manifest));
    BodyOfMember(es, MetaEntry(LOCK, x.lock));
    BodyOfMember(es, MetaEntry(POLICY, x.policy));
    BodyOfMember(es, MetaEntry(SBOM, x.sbom));
  }

  /** The archive depends on which files are packed, not on the order they are listed in. */
  lemma OrderIrrelevant(x: Input, y: Input, es: seq<Entry>, fs: seq<Entry>)
    requires Legal(x) && Written(x, es) && Written(y, fs)
    requires x.manifest == y.manifest && x.lock == y.lock && x.policy == y.policy && x.sbom == y.sbom
    requires multiset(x.sources) == multiset(y.sources) && multiset(x.extras) == multiset(y.extras)
    requires multiset(x.images) == multiset(y.images)
    ensures es == fs
  {
    hide Emitted, Items, DistinctNames, Le, LegalFiles;
    ItemsPermute(x, y);
    EmittedPermute(Items(x), Items(y));
    WrittenDistinct(x, es);
    NamesAreKeys(es);
    SortedUnique(es, fs, NameOf);
  }

  lemma NamesAreKeys(es: seq<Entry>)
    requires DistinctNames(es)
    ensures DistinctKeys(es, NameOf)
  {
  }

  lemma EmittedPermute(xs: seq<Item>, ys: seq<Item>)
    requires multiset(xs) == multiset(ys)
    ensures multiset(Emitted(xs)) == multiset(Emitted(ys))
  {
    MapPermutes(Emit, xs, ys);
  }

  lemma TreePermutes(dir: string, always: bool, fs: seq<File>, gs: seq<File>)
    requires multiset(fs) == multiset(gs)
    ensures multiset(Tree(dir, always, fs)) == multiset(Tree(dir, always, gs))
  {
    hide FromDisk;
    assert |fs| == |multiset(fs)| == |multiset(gs)| == |gs|;
    MapPermutes(DiskItem(dir), fs, gs);
  }

  lemma ItemsPermute(x: Input, y: Input)
    requires x.manifest == y.manifest && x.lock == y.lock && x.policy == y.policy && x.sbom == y.sbom
    requires multiset(x.sources) == multiset(y.sources) && multiset(x.extras) == multiset(y.extras)
    requires multiset(x.images) == multiset(y.images)
    ensures multiset(Items(x)) == multiset(Items(y))
  {
    assert Fixed(x) == Fixed(y);
    hide Tree, Fixed;
    TreePermutes("source", true, x.sources, y.sources);
    TreePermutes("extra", false, x.extras, y.extras);
    TreePermutes("image", false, x.images, y.images);
  }

  /******* What is written, written out *******/

  lemma InWritten(x: Input, es: seq<Entry>, e: Entry)
    requires Written(x, es)
    requires e in FixedEntries(x) || e in TreeEntries(Source, true, x.sources)
             || e in TreeEntries(Elsewhere, false, x.extras) || e in TreeEntries(Image, false, x.images)
    ensures e in es
  {
    hide Items, Emitted, TreeEntries, FixedEntries, SortedBy;
    AllShape(x);
    assert e in AllEntries(x);
    assert e in multiset(es);
  }

  /** The four metadata files, mode 0644. */
  lemma MetadataWritten(x: Input, es: seq<Entry>)
    requires Written(x, es)
    ensures Entry("manifest.json", Reg, |x.manifest|, 420, x.manifest) in es
    ensures Entry("agent.lock", Reg, |x.lock|, 420, x.lock) in es
    ensures Entry("policy.yaml", Reg, |x.policy|, 420, x.policy) in es
    ensures Entry("sbom.spdx.json", Reg, |x.sbom|, 420, x.sbom) in es
  {
    hide Written, TreeEntries;
    var fixed := FixedEntries(x);
    InWritten(x, es, fixed[0]);
    InWritten(x, es, fixed[1]);
    InWritten(x, es, fixed[2]);
    InWritten(x, es, fixed[3]);
  }

  /** Each listed file below its directory, byte for byte, with its own mode, or 0644 when it has none. */
  lemma FilesWritten(x: Input, es: seq<Entry>, f: File)
    requires Legal(x) && Written(x, es)
    ensures var mode := if f.mode == 0 then 420 else f.mode;
      && (f in x.sources ==> Entry("source/" + f.rel, Reg, |f.data|, mode, f.data) in es)
      && (f in x.images ==> Entry("image/" + f.rel, Reg, |f.data|, mode, f.data) in es)
      && (f in x.extras ==> Entry("extra/" + f.rel, Reg, |f.data|, mode, f.data) in es)
  {
    hide Written, TreeEntries, LegalFiles, FixedEntries, FileEntry, DirEntry;
    FileEntriesAre(f);
    if f in x.sources {
      InTree(Source, true, x.sources, FileEntry(Source, f));
      InWritten(x, es, FileEntry(Source, f));
    }
    if f in x.images {
      InTree(Image, false, x.images, FileEntry(Image, f));
      InWritten(x, es, FileEntry(Image, f));
    }
    if f in x.extras {
      InTree(Elsewhere, false, x.extras, FileEntry(Elsewhere, f));
      InWritten(x, es, FileEntry(Elsewhere, f));
    }
  }

  lemma FileEntriesAre(f: File)
    ensures var mode := if f.mode == 0 then 420 else f.mode;
      && FileEntry(Source, f) == Entry("source/" + f.rel, Reg, |f.data|, mode, f.data)
      && FileEntry(Image, f) == Entry("image/" + f.rel, Reg, |f.data|, mode, f.data)
      && FileEntry(Elsewhere, f) == Entry("extra/" + f.rel, Reg, |f.data|, mode, f.data)
  {
    assert "source" + "/" + f.rel == "source/" + f.rel && "image" + "/" + f.rel == "image/" + f.rel;
    assert "extra" + "/" + f.rel == "extra/" + f.rel;
  }

  lemma DirEntriesAre()
    ensures DirEntry(Source) == Entry("source/", Dir, 0, 493, "") && DirEntry(Image) == Entry("image/", Dir, 0, 493, "")
    ensures DirEntry(Elsewhere) == Entry("extra/", Dir, 0, 493, "")
  {
    assert "source" + "/" == "source/" && "image" + "/" == "image/" && "extra" + "/" == "extra/";
  }

  /** The directory of sources always, the two others when they are not empty, mode 0755; and nothing besides. */
  lemma DirectoriesWritten(x: Input, es: seq<Entry>)
    requires Legal(x) && Written(x, es)
    ensures Entry("source/", Dir, 0, 493, "") in es
    ensures x.images != [] ==> Entry("image/", Dir, 0, 493, "") in es
    ensures x.extras != [] ==> Entry("extra/", Dir, 0, 493, "") in es
    ensures |es| == 5 + |x.sources| + (if x.images == [] then 0 else 1 + |x.images|)
                    + (if x.extras == [] then 0 else 1 + |x.extras|)
  {
    hide Written, TreeEntries, LegalFiles, FixedEntries, FileEntry, DirEntry;
    DirEntriesAre();
    InTree(Source, true, x.sources, DirEntry(Source));
    InWritten(x, es, DirEntry(Source));
    InTree(Image, false, x.images, DirEntry(Image));
    if x.images != [] { InWritten(x, es, DirEntry(Image)); }
    InTree(Elsewhere, false, x.extras, DirEntry(Elsewhere));
    if x.extras != [] { InWritten(x, es, DirEntry(Elsewhere)); }
    CountWritten(x, es);
  }

  lemma CountWritten(x: Input, es: seq<Entry>)
    requires Legal(x) && Written(x, es)
    ensures |es| == 5 + |x.sources| + (if x.images == [] then 0 else 1 + |x.images|)
                    + (if x.extras == [] then 0 else 1 + |x.extras|)
  {
    hide Items, Emitted, TreeEntries, LegalFiles, FileEntry, DirEntry, SortedBy, MetaEntry;
    AllShape(x);
    TreeShape(Source, true, x.sources);
    TreeShape(Image, false, x.images);
    TreeShape(Elsewhere, false, x.extras);
    assert |es| == |multiset(es)| == |multiset(AllEntries(x))| == |AllEntries(x)|;
  }
}
