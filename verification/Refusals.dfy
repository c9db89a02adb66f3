/** What an opened bundle can and cannot hold, with every name, kind and cap written out. */
module Refusals {
  import opened Base
  import opened Paths
  import opened Bundle

  /******* Names *******/

  /** The names an entry may have. */
  lemma PlacesAre(name: string)
    ensures PlaceOf(name) == Metadata <==> name in {"manifest.json", "agent.lock", "policy.yaml", "sbom.spdx.json"}
    ensures PlaceOf(name) == Source <==> "source/" <= name
    ensures PlaceOf(name) == Image <==> "image/" <= name
  {
    assert "manifest.json"[0] == 'm' && "agent.lock"[0] == 'a' && "policy.yaml"[0] == 'p' && "sbom.spdx.json"[1] == 'b';
    if "source/" <= name { assert name[0] == 's' && name[1] == 'o'; }
    if "image/" <= name { assert name[0] == 'i'; }
  }

  /** A ".." anywhere between slashes makes a name unusable. */
  lemma DotDotRefused(a: string, b: string)
    ensures !ValidPath("..") && !ValidPath("../" + b) && !ValidPath(a + "/..") && !ValidPath(a + "/../" + b)
  {
    hide Split, PlaceOf;
    SplitWhole("..");
    assert "../" + b == ".." + "/" + b;
    SplitConcat("..", b);
    SplitConcat(a, "..");
    assert a + "/.." == a + "/" + "..";
    assert a + "/../" + b == a + "/" + (".." + "/" + b);
    SplitConcat(a, ".." + "/" + b);
    assert ".." in Split("..");
  }

  /** Nor can it be empty, absolute, hold a control character, or lie anywhere else. */
  lemma ValidNames(name: string)
    ensures ValidPath(name) ==> name != "" && name[0] != '/'
    ensures ValidPath(name) ==> forall i :: 0 <= i < |name| ==> name[i] as int >= 32
    ensures ValidPath(name) ==>
              || name in {"manifest.json", "agent.lock", "policy.yaml", "sbom.spdx.json"}
              || "source/" <= name || "image/" <= name || "extra/" <= name
  {
    hide Split, PlaceOf;
    PlacesAre(name);
  }

  /** Any other name is fine: proper components below one of the three directories, free of control characters. */
  lemma ProperNamesValid(dir: string, rel: string)
    requires dir == "source" || dir == "image" || dir == "extra"
    requires ".." !in Split(rel) && forall i :: 0 <= i < |rel| ==> rel[i] as int >= 32
    ensures ValidPath(dir + "/" + rel)
  {
    hide Split, PlaceOf, ValidPath;
    var name := dir + "/" + rel;
    assert ".." !in Split(name) by {
      SplitConcat(dir, rel);
      DirWhole(dir);
    }
    assert name != "" && name[0] != '/' && ("source/" <= name || "image/" <= name || "extra/" <= name) by {
      NameStarts(dir, rel);
    }
    NameChars(dir, rel);
    ValidIf(name);
  }

  lemma DirWhole(dir: string)
    requires dir == "source" || dir == "image" || dir == "extra"
    ensures Split(dir) == [dir] && dir != ".."
  {
    hide Split;
    SplitWhole(dir);
    assert |dir| > 2;
  }

  lemma ValidIf(name: string)
    requires name != "" && name[0] != '/' && ".." !in Split(name)
    requires forall i :: 0 <= i < |name| ==> name[i] as int >= 32
    requires "source/" <= name || "image/" <= name || "extra/" <= name
    ensures ValidPath(name)
  {
    hide Split, PlaceOf;
    PlacesAre(name);
  }

  lemma NameStarts(dir: string, rel: string)
    requires dir == "source" || dir == "image" || dir == "extra"
    ensures var name := dir + "/" + rel;
      && name != "" && name[0] != '/' && (dir == "source" ==> "source/" <= name)
      && (dir == "image" ==> "image/" <= name) && (dir == "extra" ==> "extra/" <= name)
  {
    assert (dir + "/" + rel)[0] == dir[0];
    assert (dir + "/" + rel)[..|dir| + 1] == dir + "/";
  }

  lemma NameChars(dir: string, rel: string)
    requires dir == "source" || dir == "image" || dir == "extra"
    requires forall i :: 0 <= i < |rel| ==> rel[i] as int >= 32
    ensures forall i :: 0 <= i < |dir + "/" + rel| ==> (dir + "/" + rel)[i] as int >= 32
  {
    forall i | 0 <= i < |dir| ensures dir[i] as int >= 32 {}
  }

  /******* Entries *******/

  /** What an entry of an opened bundle is. */
  lemma AcceptedEntries(es: seq<Entry>, e: Entry)
    requires Acceptable(es) && e in es
    ensures e.kind != Symlink && e.kind != HardLink && e.kind != CharDevice && e.kind != BlockDevice && e.kind != Fifo
    ensures e.size <= 268_435_456 && (e.kind != Dir ==> |e.body| == e.size)
    ensures e.name in {"manifest.json", "agent.lock", "policy.yaml", "sbom.spdx.json"} ==>
              e.kind == Reg && e.size <= 10_485_760
    ensures e.name in {"manifest.json", "agent.lock", "policy.yaml", "sbom.spdx.json"}
            || "source/" <= e.name || "image/" <= e.name
    ensures |es| <= 10_000
  {
    hide ValidPath, PlaceOf;
    PlacesAre(e.name);
    assert EntryOk(e);
  }

  /** An entry without any of these faults. */
  ghost predicate Faultless(e: Entry) {
    && ValidPath(e.name) && e.size <= 268_435_456 && (e.kind != Dir ==> |e.body| == e.size)
    && e.kind !in {Symlink, HardLink, CharDevice, BlockDevice, Fifo} && !("extra/" <= e.name)
    && (e.name in {"manifest.json", "agent.lock", "policy.yaml", "sbom.spdx.json"} ==>
          e.kind == Reg && e.size <= 10_485_760)
  }

  lemma FaultlessIsOk(e: Entry)
    requires Faultless(e)
    ensures EntryOk(e)
  {
    hide ValidPath, PlaceOf;
    PlacesAre(e.name);
    ValidNames(e.name);
  }

  /** And conversely. */
  lemma EntriesAccepted(es: seq<Entry>)
    requires |es| <= 10_000 && DistinctNames(es) && Total(es) <= 2_147_483_648
    requires forall e :: e in es ==> Faultless(e)
    ensures Acceptable(es)
  {
    hide EntryOk, Faultless, Total, DistinctNames;
    forall e | e in es ensures EntryOk(e) { FaultlessIsOk(e); }
  }

  /******* Refusals *******/

  /** Behind acceptable entries, an entry with a fresh and valid name. */
  ghost predicate Next(es: seq<Entry>, k: nat) {
    && k < |es| && k < 10_000 && Acceptable(es[..k]) && ValidPath(es[k].name)
    && forall i :: 0 <= i < k ==> es[i].name != es[k].name
  }

  lemma NextIsNew(es: seq<Entry>, k: nat)
    requires Next(es, k)
    ensures !HasName(es[..k], es[k].name)
  {
    hide Acceptable, ValidPath;
  }

  /** Links, devices and pipes are refused as such, and nothing else is. */
  lemma UnsafeKindRefused(es: seq<Entry>, k: nat)
    requires Next(es, k)
    ensures FaultOf(es, k) == Some(UnsafeKind) <==> es[k].kind in {Symlink, HardLink, CharDevice, BlockDevice, Fifo}
  {
    hide Acceptable, ValidPath, PlaceOf, Total;
    NextIsNew(es, k);
  }

  /** The caps on one file, on the sum and on metadata, in this order. */
  lemma CapsRefused(es: seq<Entry>, k: nat)
    requires Next(es, k) && es[k].kind !in {Symlink, HardLink, CharDevice, BlockDevice, Fifo}
    ensures var e := es[k];
      var metadata := e.name in {"manifest.json", "agent.lock", "policy.yaml", "sbom.spdx.json"};
      && (FaultOf(es, k) == Some(FileTooBig) <==> e.size > 268_435_456)
      && (FaultOf(es, k) == Some(TotalTooBig) <==> e.size <= 268_435_456 && Total(es[..k]) + e.size > 2_147_483_648)
      && (e.size <= 10_485_760 ==> FaultOf(es, k) != Some(MetadataTooBig))
      && (metadata && 10_485_760 < e.size <= 268_435_456 && Total(es[..k]) + e.size <= 2_147_483_648 ==>
            FaultOf(es, k) == Some(MetadataTooBig))
  {
    hide Acceptable, ValidPath, PlaceOf, Total;
    NextIsNew(es, k);
    PlacesAre(es[k].name);
  }

  /** Within the caps: metadata has to be regular, everything else in its directory, and nothing cut short. */
  lemma ContentRefused(es: seq<Entry>, k: nat)
    requires Next(es, k) && es[k].kind !in {Symlink, HardLink, CharDevice, BlockDevice, Fifo}
    requires es[k].size <= 10_485_760 && Total(es[..k]) + es[k].size <= 2_147_483_648
    ensures var e := es[k];
      var metadata := e.name in {"manifest.json", "agent.lock", "policy.yaml", "sbom.spdx.json"};
      && (FaultOf(es, k) == Some(NotRegular) <==> metadata && e.kind != Reg)
      && (FaultOf(es, k) == Some(Misplaced) <==> !metadata && !("source/" <= e.name) && !("image/" <= e.name))
      && (FaultOf(es, k) == Some(CutShort) <==>
            && (metadata || "source/" <= e.name || "image/" <= e.name) && (metadata ==> e.kind == Reg)
            && e.kind != Dir && |e.body| != e.size)
  {
    hide Acceptable, ValidPath, PlaceOf, Total;
    NextIsNew(es, k);
    PlacesAre(es[k].name);
  }

  /** Behind 10,000 entries everything is refused; before, a bad name, and then a name seen before. */
  lemma NamesRefused(es: seq<Entry>, k: nat)
    requires k < |es|
    ensures FaultOf(es, k) == Some(TooManyEntries) <==> k >= 10_000
    ensures FaultOf(es, k) == Some(BadPath) <==> k < 10_000 && !ValidPath(es[k].name)
    ensures FaultOf(es, k) == Some(Duplicate) <==>
            k < 10_000 && ValidPath(es[k].name) && exists i :: 0 <= i < k && es[i].name == es[k].name
  {
    hide ValidPath, PlaceOf, Total;
    if HasName(es[..k], es[k].name) {
      var j :| 0 <= j < |es[..k]| && es[..k][j].name == es[k].name;
      assert es[j].name == es[k].name;
    }
    if i :| 0 <= i < k && es[i].name == es[k].name { assert es[..k][i].name == es[k].name; }
  }

  /** What is listed of an entry: its header, under the part its name begins with. */
  lemma ListedAs(es: seq<Entry>, e: Entry)
    ensures var m := Meta(e.name, e.mode, e.size, e.kind == Dir);
      && ContentsOf(es + [e]).source == ContentsOf(es).source + (if "source/" <= e.name then [m] else [])
      && ContentsOf(es + [e]).image == ContentsOf(es).image + (if "image/" <= e.name then [m] else [])
      && ContentsOf([]).source == [] && ContentsOf([]).image == []
  {
    hide PlaceOf, BodyOf;
    var p := es + [e];
    assert p[..|es|] == es;
    PlacesAre(e.name);
    assert Metas(Keep(p, Source)) == Metas(Keep(es, Source)) + if "source/" <= e.name then [MetaOf(e)] else [];
    assert Metas(Keep(p, Image)) == Metas(Keep(es, Image)) + if "image/" <= e.name then [MetaOf(e)] else [];
  }
}
