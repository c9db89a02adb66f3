/** The bundle archive as a sequence of tar entries: what the hardened reader accepts and what it makes of it. */
module Bundle {
  import opened Base
  import opened Paths

  newtype Int64 = x: int | -0x8000_0000_0000_0000 <= x < 0x8000_0000_0000_0000

  const MAX_ENTRIES := 10_000
  const MAX_FILE := 256 * 1024 * 1024
  const MAX_TOTAL := 2 * 1024 * 1024 * 1024
  const MAX_METADATA := 10 * 1024 * 1024

  const MANIFEST := "manifest.json"
  const LOCK := "agent.lock"
  const POLICY := "policy.yaml"
  const SBOM := "sbom.spdx.json"

  datatype Kind = Reg | Dir | Symlink | HardLink | CharDevice | BlockDevice | Fifo | OtherKind

  /** A header and the bytes the stream still holds for it: never more than `size`, fewer when it is cut short. */
  datatype Entry = Entry(name: string, kind: Kind, size: nat, mode: int, body: string)

  datatype Meta = Meta(name: string, mode: int, size: nat, isDir: bool)

  function MetaOf(e: Entry): Meta { Meta(e.name, e.mode, e.size, e.kind.Dir?) }

  datatype Place = Metadata | Source | Image | Elsewhere

  function PlaceOf(name: string): Place {
    if name == MANIFEST || name == LOCK || name == POLICY || name == SBOM then Metadata
    else if "source/" <= name then Source
    else if "image/" <= name then Image
    else Elsewhere
  }

  predicate ValidPath(name: string) {
    && name != "" && name[0] != '/'
    && ".." !in Split(name)
    && (forall i :: 0 <= i < |name| ==> name[i] as int >= 0x20)
    && (PlaceOf(name) != Elsewhere || "extra/" <= name)
  }

  predicate SafeKind(kind: Kind) { kind.Reg? || kind.Dir? || kind.OtherKind? }

  /** What the reader asks of one entry by itself. */
  predicate EntryOk(e: Entry) {
    && ValidPath(e.name) && SafeKind(e.kind) && e.size <= MAX_FILE
    && PlaceOf(e.name) != Elsewhere
    && (PlaceOf(e.name) == Metadata ==> e.size <= MAX_METADATA && e.kind.Reg?)
    && (!e.kind.Dir? ==> |e.body| == e.size)
  }

  function Total(es: seq<Entry>): nat {
    if es == [] then 0 else Total(es[..|es| - 1]) + es[|es| - 1].size
  }

  ghost predicate DistinctNames(es: seq<Entry>) {
    forall i, j :: 0 <= i < j < |es| ==> es[i].name != es[j].name
  }

  ghost predicate HasName(es: seq<Entry>, name: string) { exists i :: 0 <= i < |es| && es[i].name == name }

  /** What the reader asks of a whole archive. */
  ghost predicate Acceptable(es: seq<Entry>) {
    && |es| <= MAX_ENTRIES && DistinctNames(es) && Total(es) <= MAX_TOTAL
    && forall e :: e in es ==> EntryOk(e)
  }

  /** The entries of one part of the archive, in order. */
  function Keep(es: seq<Entry>, place: Place): seq<Entry> {
    if es == [] then []
    else
      var n := |es| - 1;
      Keep(es[..n], place) + if PlaceOf(es[n].name) == place then [es[n]] else []
  }

  function Metas(es: seq<Entry>): (ms: seq<Meta>)
    ensures |ms| == |es| && forall i :: 0 <= i < |es| ==> ms[i] == MetaOf(es[i])
  {
    seq(|es|, i requires 0 <= i < |es| => MetaOf(es[i]))
  }

  /** The bytes stored under a name; none when it is missing, as in a nil slice. */
  function BodyOf(es: seq<Entry>, name: string): string {
    if es == [] then ""
    else
      var n := |es| - 1;
      if es[n].name == name then es[n].body else BodyOf(es[..n], name)
  }

  lemma {:induction false} BodyOfMember(es: seq<Entry>, e: Entry)
    requires DistinctNames(es) && e in es
    ensures BodyOf(es, e.name) == e.body
  {
    var n := |es| - 1;
    if es[n] != e {
      var i :| 0 <= i < |es| && es[i] == e;
      assert es[..n][i] == e;
      BodyOfMember(es[..n], e);
    }
  }

  datatype Contents = Contents(
    manifest: string, lock: string, policy: string, sbom: string, source: seq<Meta>, image: seq<Meta>)

  /** What an accepted archive is read as. */
  function ContentsOf(es: seq<Entry>): Contents {
    Contents(BodyOf(es, MANIFEST), BodyOf(es, LOCK), BodyOf(es, POLICY), BodyOf(es, SBOM),
             Metas(Keep(es, Source)), Metas(Keep(es, Image)))
  }

  /******* Refusals *******/

  datatype Refusal =
    | TooManyEntries | BadPath | Duplicate | UnsafeKind | FileTooBig | TotalTooBig | MetadataTooBig
    | NotRegular | CutShort | Misplaced | NoManifest | BadManifest | BadLock

  /** Why an entry that follows acceptable ones is refused. */
  ghost function FaultOf(es: seq<Entry>, i: nat): Option<Refusal>
    requires i < |es|
  {
    var e := es[i];
    if i + 1 > MAX_ENTRIES then Some(TooManyEntries)
    else if !ValidPath(e.name) then Some(BadPath)
    else if HasName(es[..i], e.name) then Some(Duplicate)
    else if !SafeKind(e.kind) then Some(UnsafeKind)
    else if e.size > MAX_FILE then Some(FileTooBig)
    else if Total(es[..i]) + e.size > MAX_TOTAL then Some(TotalTooBig)
    else if PlaceOf(e.name) == Metadata && e.size > MAX_METADATA then Some(MetadataTooBig)
    else if PlaceOf(e.name) == Metadata && !e.kind.Reg? then Some(NotRegular)
    else if PlaceOf(e.name) == Elsewhere then Some(Misplaced)
    else if !e.kind.Dir? && |e.body| != e.size then Some(CutShort)
    else None
  }

  lemma TotalSnoc(es: seq<Entry>, i: nat)
    requires i < |es|
    ensures Total(es[..i + 1]) == Total(es[..i]) + es[i].size
  {
    assert es[..i + 1][..i] == es[..i];
  }

  /** Checking one entry after another decides acceptability. */
  lemma FaultStep(es: seq<Entry>, i: nat)
    requires i < |es| && Acceptable(es[..i])
    ensures Acceptable(es[..i + 1]) <==> FaultOf(es, i).None?
  {
    hide ValidPath, PlaceOf, Total;
    TotalSnoc(es, i);
    var p := es[..i + 1];
    assert p == es[..i] + [es[i]];
    if HasName(es[..i], es[i].name) {
      var j :| 0 <= j < i && es[..i][j].name == es[i].name;
      assert p[j].name == p[i].name;
    } else {
      forall j, k | 0 <= j < k < |p| ensures p[j].name != p[k].name {
        assert es[..i][j].name == p[j].name;
      }
      assert DistinctNames(p);
    }
    assert es[i] in p;
    assert forall e :: e in p <==> e in es[..i] || e == es[i];
  }

  lemma {:induction false} TotalGrows(es: seq<Entry>, k: nat)
    requires k <= |es|
    ensures Total(es[..k]) <= Total(es)
  {
    if k < |es| {
      TotalGrows(es[..|es| - 1], k);
      assert es[..|es| - 1][..k] == es[..k];
    } else {
      assert es[..k] == es;
    }
  }

  lemma AcceptablePrefix(es: seq<Entry>, k: nat)
    requires k <= |es| && Acceptable(es)
    ensures Acceptable(es[..k])
  {
    hide EntryOk, Total;
    TotalGrows(es, k);
    assert forall e :: e in es[..k] ==> e in es;
  }

  /******* Reading *******/

  method ValidateEntryPath(name: string) returns (ok: bool)
    ensures ok == ValidPath(name)
  {
    hide PlaceOf, Split;
    if name == "" || name[0] == '/' {
      return false;
    }
    var parts := Split(name);
    for i := 0 to |parts|
      invariant ".." !in parts[..i]
    {
      if parts[i] == ".." {
        return false;
      }
    }
    assert parts[..|parts|] == parts;
    for i := 0 to |name|
      invariant forall j :: 0 <= j < i ==> name[j] as int >= 0x20
    {
      if (name[i] as int) < 0x20 {
        return false;
      }
    }
    ok := PlaceOf(name) != Elsewhere || "extra/" <= name;
  }

  /** The checks of the reader's loop on one header; the running total is a machine word and does not wrap. */
  method CheckEntry(es: seq<Entry>, i: nat, seen: set<string>, totalSize: Int64)
    returns (fault: Option<Refusal>, total: Int64)
    requires i < |es|
    requires forall name :: name in seen <==> HasName(es[..i], name)
    requires totalSize as int == Total(es[..i]) <= MAX_TOTAL
    ensures fault == FaultOf(es, i)
    ensures fault.None? ==> total as int == Total(es[..i + 1])
  {
    hide ValidPath, PlaceOf, Total, HasName;
    var e := es[i];
    total := totalSize;
    if i + 1 > MAX_ENTRIES {
      return Some(TooManyEntries), total;
    }
    var valid := ValidateEntryPath(e.name);
    if !valid {
      return Some(BadPath), total;
    }
    if e.name in seen {
      return Some(Duplicate), total;
    }
    if !SafeKind(e.kind) {
      return Some(UnsafeKind), total;
    }
    if e.size > MAX_FILE {
      return Some(FileTooBig), total;
    }
    total := totalSize + e.size as Int64;
    TotalSnoc(es, i);
    if total as int > MAX_TOTAL {
      return Some(TotalTooBig), total;
    }
    match PlaceOf(e.name)
    case Metadata =>
      if e.size > MAX_METADATA {
        return Some(MetadataTooBig), total;
      }
      if !e.kind.Reg? {
        return Some(NotRegular), total;
      }
      return if |e.body| != e.size then Some(CutShort) else None, total;
    case Elsewhere =>
      return Some(Misplaced), total;
    case _ =>
      return if !e.kind.Dir? && |e.body| != e.size then Some(CutShort) else None, total;
  }

  /** Filing one entry keeps the contents read so far. */
  method AddEntry(ghost es: seq<Entry>, ghost i: nat, e: Entry, c: Contents) returns (d: Contents)
    requires i < |es| && es[i] == e && c == ContentsOf(es[..i]) && PlaceOf(e.name) != Elsewhere
    ensures d == ContentsOf(es[..i + 1])
  {
    ghost var p := es[..i + 1];
    assert p[..i] == es[..i] && p[i] == e;
    match PlaceOf(e.name)
    case Metadata =>
      if e.name == MANIFEST {
        d := c.(manifest := e.body);
      } else if e.name == LOCK {
        d := c.(lock := e.body);
      } else if e.name == POLICY {
        d := c.(policy := e.body);
      } else {
        d := c.(sbom := e.body);
      }
      assert Keep(p, Source) == Keep(es[..i], Source) && Keep(p, Image) == Keep(es[..i], Image);
    case Source =>
      assert Keep(p, Source) == Keep(es[..i], Source) + [e] && Keep(p, Image) == Keep(es[..i], Image);
      d := c.(source := c.source + [MetaOf(e)]);
    case Image =>
      assert Keep(p, Source) == Keep(es[..i], Source) && Keep(p, Image) == Keep(es[..i], Image) + [e];
      d := c.(image := c.image + [MetaOf(e)]);
  }

  /**
   `Open` on the decompressed archive, the JSON parsers being parameters: it succeeds exactly on acceptable archives
   with a manifest whose manifest and lock parse, and otherwise names the first fault.
   */
  method Open(es: seq<Entry>, parseManifest: string -> bool, parseLock: string -> bool)
    returns (r: Result<Contents, Refusal>)
    ensures r.Ok? <==>
              && Acceptable(es) && HasName(es, MANIFEST)
              && parseManifest(BodyOf(es, MANIFEST)) && parseLock(BodyOf(es, LOCK))
    ensures r.Ok? ==> r.value == ContentsOf(es)
    ensures r.Err? && !Acceptable(es) ==>
              exists k :: 0 <= k < |es| && Acceptable(es[..k]) && FaultOf(es, k) == Some(r.error)
    ensures Acceptable(es) && !HasName(es, MANIFEST) ==> r == Err(NoManifest)
    ensures Acceptable(es) && HasName(es, MANIFEST) && !parseManifest(BodyOf(es, MANIFEST)) ==> r == Err(BadManifest)
    ensures Acceptable(es) && HasName(es, MANIFEST) && parseManifest(BodyOf(es, MANIFEST)) ==>
              !parseLock(BodyOf(es, LOCK)) ==> r == Err(BadLock)
    ensures forall k :: 0 <= k < |es| && Acceptable(es[..k]) && FaultOf(es, k).Some? ==> r == Err(FaultOf(es, k).value)
    ensures r.Ok? ==> forall e :: e in es ==> e.kind !in {Symlink, HardLink, CharDevice, BlockDevice, Fifo}
  {
    hide EntryOk, Total, FaultOf, BodyOf, Keep, Metas, PlaceOf, DistinctNames;
    var c := EmptyContents();
    var seen: set<string> := {};
    var totalSize: Int64 := TotalOfNone();
    var manifestFound := false;
    for i := 0 to |es|
      invariant Acceptable(es[..i])
      invariant forall name :: name in seen <==> HasName(es[..i], name)
      invariant totalSize as int == Total(es[..i])
      invariant c == ContentsOf(es[..i])
      invariant manifestFound <==> HasName(es[..i], MANIFEST)
    {
      var fault, total := CheckEntry(es, i, seen, totalSize);
      FaultStep(es, i);
      if fault.Some? {
        if Acceptable(es) { AcceptablePrefix(es, i + 1); }
        OneFault(es, i);
        return Err(fault.value);
      }
      NameSeen(es, i);
      assert PlaceOf(es[i].name) != Elsewhere by { assert es[i] in es[..i + 1]; EntryPlaced(es[i]); }
      c := AddEntry(es, i, es[i], c);
      seen := seen + {es[i].name};
      totalSize := total;
      manifestFound := manifestFound || es[i].name == MANIFEST;
    }
    assert es[..|es|] == es;
    NoFault(es);
    NoLinks(es);
    if !manifestFound {
      return Err(NoManifest);
    }
    if !parseManifest(c.manifest) {
      return Err(BadManifest);
    }
    if !parseLock(c.lock) {
      return Err(BadLock);
    }
    r := Ok(c);
  }

  /** At most one entry is the first to be refused. */
  lemma OneFault(es: seq<Entry>, i: nat)
    requires i < |es| && Acceptable(es[..i]) && FaultOf(es, i).Some?
    ensures forall k :: 0 <= k < |es| && Acceptable(es[..k]) && FaultOf(es, k).Some? ==> k == i
  {
    hide Acceptable, FaultOf;
    forall k | 0 <= k < |es| && Acceptable(es[..k]) && FaultOf(es, k).Some? ensures k == i {
      FaultStep(es, i);
      FaultStep(es, k);
      if k < i {
        assert es[..i][..k + 1] == es[..k + 1];
        AcceptablePrefix(es[..i], k + 1);
      } else if i < k {
        assert es[..k][..i + 1] == es[..i + 1];
        AcceptablePrefix(es[..k], i + 1);
      }
    }
  }

  /** Links, devices and pipes never pass. */
  lemma NoLinks(es: seq<Entry>)
    requires Acceptable(es)
    ensures forall e :: e in es ==> e.kind !in {Symlink, HardLink, CharDevice, BlockDevice, Fifo}
  {
    hide ValidPath, PlaceOf, Total, DistinctNames;
  }

  lemma NoFault(es: seq<Entry>)
    requires Acceptable(es)
    ensures forall k :: 0 <= k < |es| ==> FaultOf(es, k).None?
  {
    hide Acceptable, FaultOf;
    forall k | 0 <= k < |es| ensures FaultOf(es, k).None? {
      AcceptablePrefix(es, k);
      AcceptablePrefix(es, k + 1);
      FaultStep(es, k);
    }
  }

  function EmptyContents(): (c: Contents)
    ensures c == ContentsOf([])
  {
    Contents("", "", "", "", [], [])
  }

  function TotalOfNone(): (n: Int64)
    ensures n as int == Total([]) && Acceptable([])
  {
    0
  }

  lemma EntryPlaced(e: Entry)
    requires EntryOk(e)
    ensures PlaceOf(e.name) != Elsewhere
  {
  }

  lemma NameSeen(es: seq<Entry>, i: nat)
    requires i < |es|
    ensures forall name :: HasName(es[..i + 1], name) <==> HasName(es[..i], name) || name == es[i].name
  {
    var p := es[..i + 1];
    assert p[i] == es[i];
    forall name ensures HasName(p, name) <==> HasName(es[..i], name) || name == es[i].name {
      if HasName(p, name) {
        var j :| 0 <= j < |p| && p[j].name == name;
        if j < i { assert es[..i][j].name == name; }
      }
      if HasName(es[..i], name) {
        var j :| 0 <= j < i && es[..i][j].name == name;
        assert p[j].name == name;
      }
    }
  }
}
