/**
 Flipping the seat-wait flag in the locked worker files and putting it back, with every file operation allowed to
 fail.
 */
module SeatWait {
  import opened Base
  import opened SeatFlag

  /** What goes wrong with one file during one rewrite. */
  datatype Fault = NoFault | ReadFails | TruncateFails | SeekFails | ShortWrite(count: nat) | SyncFails

  type Faults = nat -> Fault

  datatype Rewrite = Rewrite(data: string, ok: bool)

  /** Truncate, seek, write, sync: what is on disk afterwards. */
  function WriteFile(data: string, next: string, fault: Fault): Rewrite {
    match fault
    case NoFault => Rewrite(next, true)
    case ReadFails => Rewrite(data, false)
    case TruncateFails => Rewrite(data, false)
    case SeekFails => Rewrite("", false)
    case ShortWrite(n) => Rewrite(if n <= |next| then next[..n] else next, false)
    case SyncFails => Rewrite(next, false)
  }

  /** One file rewritten with the flag set. */
  function Flip(data: string, value: string, fault: Fault): Rewrite {
    if SetFlag(data, value).None? then Rewrite(data, false) else WriteFile(data, SetFlag(data, value).value, fault)
  }

  datatype Flipped = Flipped(files: seq<string>, ok: bool)

  /** The files from the i-th on, one after another, up to the first error. */
  function FlipFrom(files: seq<string>, value: string, faults: Faults, i: nat): (r: Flipped)
    ensures |r.files| == |files|
    decreases |files| - i
  {
    if i >= |files| then Flipped(files, true)
    else
      var one := Flip(files[i], value, faults(i));
      if one.ok then FlipFrom(files[i := one.data], value, faults, i + 1) else Flipped(files[i := one.data], false)
  }

  /** The common flag of all files. */
  ghost predicate AllSay(files: seq<string>, value: string) {
    forall k :: 0 <= k < |files| ==> FlagValue(files[k]) == Some(value)
  }

  /** How the file operations and the fixture runs go. */
  datatype Oracle = Oracle(
    readBefore: bool, on: Faults, readOn: bool, fixtureOn: bool, off: Faults, fixtureOff: bool, readAfter: bool,
    outputsAgree: bool, restore: Faults)

  /** The state when the deferred restore is due; not armed when the flag was never set. */
  datatype Exit = Exit(armed: bool, files: seq<string>, success: bool)

  ghost predicate Agree(files: seq<string>) { exists value :: AllSay(files, value) }

  ghost function Attempt(files: seq<string>, o: Oracle): Exit {
    if !o.readBefore || !Agree(files) then Exit(false, files, false)
    else
      var on := FlipFrom(files, "1", o.on, 0);
      if !on.ok then Exit(false, on.files, false)
      else if !o.readOn || !Agree(on.files) || !o.fixtureOn then Exit(true, on.files, false)
      else
        var off := FlipFrom(on.files, "0", o.off, 0);
        if !off.ok || !o.fixtureOff || !o.readAfter || !Agree(off.files) || !o.outputsAgree
        then Exit(true, off.files, false)
        else Exit(true, off.files, AllSay(on.files, "1") && AllSay(off.files, "0"))
  }

  /** The files after the deferred restore, and whether that restore went through. */
  ghost function Restore(e: Exit, o: Oracle): Flipped {
    if e.armed then FlipFrom(e.files, "0", o.restore, 0) else Flipped(e.files, true)
  }

  /******* The code *******/

  class LockedFile {
    var data: string

    method WriteLocked(next: string, fault: Fault) returns (ok: bool)
      modifies this
      ensures Rewrite(data, ok) == WriteFile(old(data), next, fault)
    {
      match fault
      case NoFault =>
        data := next;
        return true;
      case ReadFails =>
        return false;
      case TruncateFails =>
        return false;
      case SeekFails =>
        data := "";
        return false;
      case ShortWrite(n) =>
        data := if n <= |next| then next[..n] else next;
        return false;
      case SyncFails =>
        data := next;
        return false;
    }
  }

  ghost function Files(locks: seq<LockedFile>): (fs: seq<string>)
    reads locks
    ensures |fs| == |locks| && forall i :: 0 <= i < |locks| ==> fs[i] == locks[i].data
  {
    seq(|locks|, i requires 0 <= i < |locks| reads locks => locks[i].data)
  }

  ghost predicate Distinct(locks: seq<LockedFile>) {
    forall i, j :: 0 <= i < j < |locks| ==> locks[i] != locks[j]
  }

  method ReadLockedFlag(locks: seq<LockedFile>, readable: bool) returns (flag: Option<string>)
    requires locks != []
    ensures flag.Some? <==> readable && Agree(Files(locks))
    ensures flag.Some? ==> AllSay(Files(locks), flag.value)
  {
    hide FlagValue;
    if !readable {
      return None;
    }
    var common := "";
    for i := 0 to |locks|
      invariant forall k :: 0 <= k < i ==> FlagValue(locks[k].data) == Some(common)
    {
      var got := FlagValue(locks[i].data);
      if got.None? || (i > 0 && got.value != common) {
        assert Files(locks)[i] == locks[i].data && Files(locks)[0] == locks[0].data;
        return None;
      }
      common := got.value;
    }
    assert AllSay(Files(locks), common);
    return Some(common);
  }

  method WriteLockedFlag(locks: seq<LockedFile>, value: string, faults: Faults) returns (ok: bool)
    requires Distinct(locks)
    modifies locks
    ensures value == "0" || value == "1" ==> Flipped(Files(locks), ok) == FlipFrom(old(Files(locks)), value, faults, 0)
    ensures value != "0" && value != "1" ==> !ok && Files(locks) == old(Files(locks))
  {
    hide SetFlag;
    if value != "0" && value != "1" {
      return false;
    }
    ghost var start := Files(locks);
    for i := 0 to |locks|
      invariant FlipFrom(Files(locks), value, faults, i) == FlipFrom(start, value, faults, 0)
    {
      ghost var before := Files(locks);
      assert before[i] == locks[i].data;
      if faults(i).ReadFails? {
        assert before[i := before[i]] == before;
        return false;
      }
      var next := SetFlag(locks[i].data, value);
      if next.None? {
        assert before[i := before[i]] == before;
        return false;
      }
      var done := locks[i].WriteLocked(next.value, faults(i));
      assert Files(locks) == before[i := locks[i].data];
      if !done {
        return false;
      }
    }
    return true;
  }

  /** `proveSeatWaitWorkflowPrimitive` once the files are locked; the fixture runs are oracles. */
  method Prove(locks: seq<LockedFile>, o: Oracle) returns (before: Option<string>)
    requires Distinct(locks) && locks != []
    modifies locks
    ensures var e := Attempt(old(Files(locks)), o);
      && Files(locks) == Restore(e, o).files
      && (before.Some? <==> e.success && Restore(e, o).ok)
    ensures before.Some? ==> AllSay(old(Files(locks)), before.value)
  {
    hide FlipFrom, AllSay, Files;
    ghost var start := Files(locks);
    before := ReadLockedFlag(locks, o.readBefore);
    if before.None? {
      return None;
    }
    var set1 := WriteLockedFlag(locks, "1", o.on);
    if !set1 {
      return None;
    }
    var success := Armed(locks, o, start);
    var restored := WriteLockedFlag(locks, "0", o.restore);
    if !success || !restored {
      return None;
    }
  }

  /** Everything between setting the flag and the deferred restore. */
  method Armed(locks: seq<LockedFile>, o: Oracle, ghost start: seq<string>) returns (success: bool)
    requires Distinct(locks) && locks != []
    requires o.readBefore && Agree(start) && FlipFrom(start, "1", o.on, 0) == Flipped(Files(locks), true)
    modifies locks
    ensures Exit(true, Files(locks), success) == Attempt(start, o)
  {
    hide FlipFrom, Files;
    ghost var on := Files(locks);
    var onFlag := ReadLockedFlag(locks, o.readOn);
    if onFlag.None? || !o.fixtureOn {
      return false;
    }
    OneValue(on, onFlag.value, "1");
    var set0 := WriteLockedFlag(locks, "0", o.off);
    if !set0 || !o.fixtureOff {
      return false;
    }
    ghost var off := Files(locks);
    var after := ReadLockedFlag(locks, o.readAfter);
    if after.None? || !o.outputsAgree {
      return false;
    }
    OneValue(off, after.value, "0");
    success := after.value == "0" && onFlag.value == "1";
  }

  lemma OneValue(files: seq<string>, value: string, other: string)
    requires files != [] && AllSay(files, value)
    ensures AllSay(files, other) <==> value == other
  {
    hide FlagValue;
    assert FlagValue(files[0]) == Some(value);
  }
}
