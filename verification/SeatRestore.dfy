/** When the seat-wait run puts every file back with its flag off. */
module SeatRestore {
  import opened Base
  import opened SeatFlag
  import opened SeatWait

  /** The file with its flag set, for files that have one. */
  function With(data: string, value: string): string {
    if SetFlag(data, value).Some? then SetFlag(data, value).value else data
  }

  ghost predicate Flagged(files: seq<string>) { forall k :: 0 <= k < |files| ==> FlagValue(files[k]).Some? }

  /** All files from the i-th on are rewritten, those before it untouched. */
  ghost predicate AllSet(files: seq<string>, value: string, i: nat, out: seq<string>) {
    && |out| == |files|
    && forall k :: 0 <= k < |files| ==> out[k] == if k < i then files[k] else With(files[k], value)
  }

  /** The rewriting stopped with an error at the j-th file. */
  ghost predicate StoppedAt(files: seq<string>, value: string, faults: Faults, i: nat, j: nat, out: seq<string>) {
    && i <= j < |files| == |out|
    && (forall k :: 0 <= k < |files| && k != j ==> out[k] == if i <= k < j then With(files[k], value) else files[k])
    && (forall k: nat :: i <= k < j ==> faults(k) == NoFault && FlagValue(files[k]).Some?)
    && !Flip(files[j], value, faults(j)).ok && out[j] == Flip(files[j], value, faults(j)).data
  }

  lemma FlipOk(data: string, value: string, fault: Fault)
    requires value == "0" || value == "1"
    ensures Flip(data, value, fault).ok <==> FlagValue(data).Some? && fault == NoFault
    ensures Flip(data, value, fault).ok ==> Flip(data, value, fault).data == With(data, value)
  {
    hide SetFlag, FlagValue;
    SetSucceeds(data, value);
  }

  /** Rewriting all files: either all are set, or it stopped somewhere. */
  lemma {:induction false} FlipFromMeans(files: seq<string>, value: string, faults: Faults, i: nat)
    requires i <= |files| && (value == "0" || value == "1")
    ensures var r := FlipFrom(files, value, faults, i);
      && (r.ok ==> AllSet(files, value, i, r.files) && forall k :: i <= k < |files| ==> FlagValue(files[k]).Some?)
      && (!r.ok ==> exists j: nat :: StoppedAt(files, value, faults, i, j, r.files))
    decreases |files| - i
  {
    hide Flip, With, FlagValue, AllSet, StoppedAt;
    if i == |files| {
      NothingSet(files, value, i);
    } else {
      FlipOk(files[i], value, faults(i));
      var one := Flip(files[i], value, faults(i));
      var next := files[i := one.data];
      var r := FlipFrom(files, value, faults, i);
      if !one.ok {
        StopsHere(files, value, faults, i);
      } else {
        FlipFromMeans(next, value, faults, i + 1);
        if r.ok {
          SetsOneMore(files, next, value, i, r.files);
        } else {
          var j: nat :| StoppedAt(next, value, faults, i + 1, j, r.files);
          StopsLater(files, value, faults, i, j, r.files);
        }
      }
    }
  }

  lemma NothingSet(files: seq<string>, value: string, i: nat)
    requires i >= |files|
    ensures AllSet(files, value, i, files)
  {
  }

  lemma StopsHere(files: seq<string>, value: string, faults: Faults, i: nat)
    requires i < |files| && !Flip(files[i], value, faults(i)).ok
    ensures StoppedAt(files, value, faults, i, i, files[i := Flip(files[i], value, faults(i)).data])
  {
    hide Flip, With, FlagValue;
  }

  lemma SetsOneMore(files: seq<string>, next: seq<string>, value: string, i: nat, out: seq<string>)
    requires i < |files| && FlagValue(files[i]).Some? && next == files[i := With(files[i], value)]
    requires AllSet(next, value, i + 1, out) && forall k :: i + 1 <= k < |next| ==> FlagValue(next[k]).Some?
    ensures AllSet(files, value, i, out) && forall k :: i <= k < |files| ==> FlagValue(files[k]).Some?
  {
    hide With, FlagValue;
    assert forall k :: i < k < |files| ==> next[k] == files[k];
  }

  lemma StopsLater(files: seq<string>, value: string, faults: Faults, i: nat, j: nat, out: seq<string>)
    requires i < |files| && FlagValue(files[i]).Some? && faults(i) == NoFault
    requires StoppedAt(files[i := With(files[i], value)], value, faults, i + 1, j, out)
    ensures StoppedAt(files, value, faults, i, j, out)
  {
    hide Flip, With, FlagValue;
    var next := files[i := With(files[i], value)];
    assert forall k :: 0 <= k < |files| && k != i ==> next[k] == files[k];
  }

  lemma WithLaws(data: string)
    requires FlagValue(data).Some?
    ensures With(With(data, "1"), "0") == With(data, "0") && With(With(data, "0"), "0") == With(data, "0")
    ensures FlagValue(With(data, "1")) == Some("1") && FlagValue(With(data, "0")) == Some("0")
    ensures |With(data, "0")| == |data|
  {
    hide SetFlag, FlagValue;
    LensLaws(data, "1", "0");
    LensLaws(data, "0", "0");
    OneByteChanges(data, "0");
  }

  /** The middle rewrite put only part of a file on disk. */
  ghost predicate MiddleCut(files: seq<string>, o: Oracle) {
    && o.readOn && o.fixtureOn
    && exists j: nat :: CutAt(files, o.off, j)
  }

  ghost predicate CutAt(files: seq<string>, off: Faults, j: nat) {
    && j < |files| && (forall k: nat :: k < j ==> off(k) == NoFault)
    && off(j).ShortWrite? && off(j).count < |files[j]|
  }

  ghost predicate AllOff(files: seq<string>, out: seq<string>) {
    |out| == |files| && forall k :: 0 <= k < |files| ==> out[k] == With(files[k], "0")
  }

  /** Setting the flag to 1 succeeded: every file has a flag line and carries a 1. */
  lemma ArmedMeans(files: seq<string>, o: Oracle)
    requires Attempt(files, o).armed
    ensures Flagged(files) && AllSet(files, "1", 0, FlipFrom(files, "1", o.on, 0).files)
    ensures Agree(FlipFrom(files, "1", o.on, 0).files)
  {
    hide FlagValue, With, FlipFrom, Agree;
    FlipFromMeans(files, "1", o.on, 0);
    var on := FlipFrom(files, "1", o.on, 0).files;
    forall k | 0 <= k < |files| ensures FlagValue(on[k]) == Some("1") { WithLaws(files[k]); }
    AgreeOn(on, "1");
  }

  lemma AgreeOn(files: seq<string>, value: string)
    requires AllSay(files, value)
    ensures Agree(files)
  {
  }

  /** From files that all carry the original text with some flag, a restore that goes through sets every flag to 0. */
  lemma RestoreFrom(files: seq<string>, mid: seq<string>, restore: Faults)
    requires Flagged(files) && |mid| == |files| && FlipFrom(mid, "0", restore, 0).ok
    ensures |FlipFrom(mid, "0", restore, 0).files| == |files|
    ensures forall k :: 0 <= k < |files| && (mid[k] == With(files[k], "1") || mid[k] == With(files[k], "0"))
              ==> FlipFrom(mid, "0", restore, 0).files[k] == With(files[k], "0")
    ensures forall k :: 0 <= k < |files| ==>
              FlagValue(mid[k]).Some? && |FlipFrom(mid, "0", restore, 0).files[k]| == |mid[k]|
  {
    hide FlagValue, With, FlipFrom;
    FlipFromMeans(mid, "0", restore, 0);
    forall k | 0 <= k < |files|
      ensures With(With(files[k], "1"), "0") == With(files[k], "0")
      ensures With(With(files[k], "0"), "0") == With(files[k], "0")
    {
      WithLaws(files[k]);
    }
    forall k | 0 <= k < |files| ensures |With(mid[k], "0")| == |mid[k]| { WithLaws(mid[k]); }
  }

  /** What a stopped middle rewrite leaves in the file it stopped at. */
  lemma StoppedFile(data: string, fault: Fault)
    requires FlagValue(data).Some?
    requires var on := With(data, "1"); !Flip(on, "0", fault).ok
    ensures var left := Flip(With(data, "1"), "0", fault).data;
      || left == With(data, "1") || left == With(data, "0")
      || (fault == SeekFails && left == "")
      || (fault.ShortWrite? && fault.count < |data| && |left| == fault.count)
    ensures fault.ShortWrite? && fault.count < |data| ==> |Flip(With(data, "1"), "0", fault).data| == fault.count
  {
    hide FlagValue, SetFlag;
    WithLaws(data);
    SetSucceeds(With(data, "1"), "0");
    assert SetFlag(With(data, "1"), "0").value == With(data, "0");
  }

  lemma EmptyHasNoFlag()
    ensures FlagValue("").None?
  {
  }

  /**
   Whenever the flag had been set and the deferred restore goes through, every file is its original with the
   flag off, exactly unless the middle rewrite was cut short inside a file.
   */
  lemma RestoreExact(files: seq<string>, o: Oracle)
    requires var e := Attempt(files, o); e.armed && Restore(e, o).ok
    ensures AllOff(files, Restore(Attempt(files, o), o).files) <==> !MiddleCut(files, o)
  {
    hide FlagValue, With, FlipFrom, Flip, Agree, AllSay;
    var e := Attempt(files, o);
    ArmedMeans(files, o);
    var on := FlipFrom(files, "1", o.on, 0).files;
    RestoreFrom(files, e.files, o.restore);
    if o.readOn && o.fixtureOn {
      var off := FlipFrom(on, "0", o.off, 0);
      FlipFromMeans(on, "0", o.off, 0);
      if off.ok {
        MiddleWhole(files, on, off.files, o);
      } else {
        var j: nat :| StoppedAt(on, "0", o.off, 0, j, off.files);
        MiddleStopped(files, on, off.files, o, j, Restore(e, o).files);
      }
    }
  }

  /** A middle rewrite that went through left every flag at 0, and met no fault. */
  lemma MiddleWhole(files: seq<string>, on: seq<string>, off: seq<string>, o: Oracle)
    requires Flagged(files) && AllSet(files, "1", 0, on) && AllSet(on, "0", 0, off)
    requires FlipFrom(on, "0", o.off, 0).ok
    ensures AllOff(files, off) && forall j: nat :: !CutAt(files, o.off, j)
  {
    hide FlagValue, With;
    forall k | 0 <= k < |files| ensures off[k] == With(files[k], "0") { WithLaws(files[k]); }
    forall j: nat | j < |files| ensures o.off(j) == NoFault { FaultFree(on, "0", o.off, 0, j); }
  }

  lemma {:induction false} FaultFree(files: seq<string>, value: string, faults: Faults, i: nat, j: nat)
    requires i <= j < |files| && (value == "0" || value == "1") && FlipFrom(files, value, faults, i).ok
    ensures faults(j) == NoFault
    decreases |files| - i
  {
    hide Flip;
    FlipOk(files[i], value, faults(i));
    if j > i { FaultFree(files[i := Flip(files[i], value, faults(i)).data], value, faults, i + 1, j); }
  }

  lemma MiddleStopped(files: seq<string>, on: seq<string>, mid: seq<string>, o: Oracle, j: nat, out: seq<string>)
    requires Flagged(files) && AllSet(files, "1", 0, on) && StoppedAt(on, "0", o.off, 0, j, mid)
    requires |out| == |files|
    requires forall k :: 0 <= k < |files| && (mid[k] == With(files[k], "1") || mid[k] == With(files[k], "0"))
               ==> out[k] == With(files[k], "0")
    requires forall k :: 0 <= k < |files| ==> FlagValue(mid[k]).Some? && |out[k]| == |mid[k]|
    ensures AllOff(files, out) <==> !exists m: nat :: CutAt(files, o.off, m)
  {
    hide FlagValue, With, Flip;
    forall k | 0 <= k < |files|
      ensures With(With(files[k], "1"), "0") == With(files[k], "0") && |With(files[k], "0")| == |files[k]|
    {
      WithLaws(files[k]);
    }
    assert on[j] == With(files[j], "1");
    StoppedFile(files[j], o.off(j));
    EmptyHasNoFlag();
    if o.off(j).ShortWrite? && o.off(j).count < |files[j]| {
      assert CutAt(files, o.off, j);
      assert |out[j]| != |With(files[j], "0")|;
    } else {
      assert o.off(j) != NoFault by { FlipOk(on[j], "0", o.off(j)); WithLaws(files[j]); }
      assert forall m: nat :: !CutAt(files, o.off, m);
      assert forall k :: 0 <= k < |files| ==> mid[k] == With(files[k], "1") || mid[k] == With(files[k], "0");
    }
  }

  /** A successful run leaves every file at its original with the flag off. */
  lemma SuccessRestores(files: seq<string>, o: Oracle)
    requires var e := Attempt(files, o); e.success && Restore(e, o).ok
    ensures AllOff(files, Restore(Attempt(files, o), o).files)
  {
    hide FlagValue, With, FlipFrom, Flip, Agree, AllSay;
    ArmedMeans(files, o);
    var on := FlipFrom(files, "1", o.on, 0).files;
    FlipFromMeans(on, "0", o.off, 0);
    MiddleWhole(files, on, FlipFrom(on, "0", o.off, 0).files, o);
    RestoreFrom(files, Attempt(files, o).files, o.restore);
  }

  /******* A first flip that fails *******/

  ghost predicate FirstFault(files: seq<string>, faults: Faults, j: nat) {
    j < |files| && faults(j) != NoFault && forall k: nat :: k < j ==> faults(k) == NoFault
  }

  /** A failed first flip of a file with this flag leaves every file as it was. */
  predicate Harmless(value: string, fault: Fault, j: nat, size: nat) {
    || ((fault.ReadFails? || fault.TruncateFails?) && (j == 0 || value == "1"))
    || (value == "1" && (fault.SyncFails? || (fault.ShortWrite? && fault.count >= size)))
  }

  lemma WithOne(data: string, value: string)
    requires FlagValue(data) == Some(value)
    ensures value == "0" || value == "1"
    ensures With(data, "1") == data <==> value == "1"
    ensures FlagValue(With(data, "1")) == Some("1") && |With(data, "1")| == |data| && data != ""
  {
    hide SetFlag, FlagValue;
    var _ := FlagValueMeans(data);
    LensLaws(data, "1", "1");
    OneByteChanges(data, "1");
    EmptyHasNoFlag();
  }

  /** What the failed rewrite leaves of the file it failed on. */
  lemma FailedFile(data: string, value: string, fault: Fault)
    requires FlagValue(data) == Some(value) && fault != NoFault
    ensures Flip(data, "1", fault).data == data <==>
            || fault.ReadFails? || fault.TruncateFails?
            || (value == "1" && (fault.SyncFails? || (fault.ShortWrite? && fault.count >= |data|)))
  {
    hide FlagValue, SetFlag;
    WithOne(data, value);
    SetSucceeds(data, "1");
    assert SetFlag(data, "1") == Some(With(data, "1"));
    if fault.ShortWrite? && fault.count == |data| { assert With(data, "1")[..fault.count] == With(data, "1"); }
  }

  /** Where the first flip stops: at the first fault. */
  lemma FlipStops(files: seq<string>, faults: Faults, value: string, j: nat)
    requires AllSay(files, value) && FirstFault(files, faults, j)
    ensures var on := FlipFrom(files, "1", faults, 0);
      && !on.ok && on.files[j] == Flip(files[j], "1", faults(j)).data
      && forall k :: 0 <= k < |files| && k != j ==> on.files[k] == if k < j then With(files[k], "1") else files[k]
  {
    hide FlagValue, With, FlipFrom, Flip;
    FlipFromMeans(files, "1", faults, 0);
    var on := FlipFrom(files, "1", faults, 0);
    if on.ok {
      FaultFree(files, "1", faults, 0, j);
    } else {
      var m: nat :| StoppedAt(files, "1", faults, 0, m, on.files);
      FlipOk(files[m], "1", faults(m));
      assert FlagValue(files[m]).Some?;
      assert m == j;
    }
  }

  /**
   Setting the flag to 1 fails with the first fault, and then nothing is restored: the files in front of it carry a 1.
   Every file is left as it was exactly when the fault is harmless: the first file could not be read or truncated, or
   the flags stood at 1 already and the rewrite in hand reached the file whole or not at all.
   */
  lemma HalfSetExact(files: seq<string>, o: Oracle, value: string, j: nat)
    requires o.readBefore && AllSay(files, value) && FirstFault(files, o.on, j)
    ensures var e := Attempt(files, o);
      var left := Restore(e, o).files;
      && !e.armed && |left| == |files|
      && (forall k :: 0 <= k < j ==> FlagValue(left[k]) == Some("1"))
      && (left == files <==> Harmless(value, o.on(j), j, |files[j]|))
  {
    hide FlagValue, With, FlipFrom, Flip, Agree;
    AgreeOn(files, value);
    FlipStops(files, o.on, value, j);
    FailedFile(files[j], value, o.on(j));
    var left := FlipFrom(files, "1", o.on, 0).files;
    assert Attempt(files, o) == Exit(false, left, false);
    forall k | 0 <= k < j
      ensures FlagValue(With(files[k], "1")) == Some("1") && (With(files[k], "1") == files[k] <==> value == "1")
    {
      WithOne(files[k], value);
    }
    if j > 0 { assert left == files ==> left[0] == files[0]; }
    assert left == files ==> left[j] == files[j];
    if Harmless(value, o.on(j), j, |files[j]|) {
      forall k | 0 <= k < |files| ensures left[k] == files[k] {}
    }
  }

  /******* The cut does happen *******/

  function FlagLine(value: string): string { PREFIX + value + "\"" }

  lemma FlagLineThen(value: string, tail: string)
    requires (value == "0" || value == "1") && (tail == "" || tail == "\n#")
    ensures OnlyFlagAt(FlagLine(value) + tail, 0) && '\0' !in FlagLine(value) + tail
  {
    PrefixHasNoNewline();
    var data := FlagLine(value) + tail;
    assert data[..|PREFIX|] == PREFIX;
    assert forall k :: 0 <= k < |PREFIX| ==> data[k] == PREFIX[k];
    assert forall k :: 0 <= k < |PREFIX| ==> data[k] != '\n';
  }

  function CutOracle(count: nat): Oracle {
    Oracle(true, _ => NoFault, true, true, _ => ShortWrite(count), true, true, true, _ => NoFault)
  }

  lemma CutRun(data: string, on: string, line: string)
    requires SetFlag(data, "1") == Some(on) && SetFlag(on, "0") == Some(data) && SetFlag(line, "0") == Some(line)
    requires FlagValue(data) == Some("0") && FlagValue(on) == Some("1") && line <= data
    ensures var e := Attempt([data], CutOracle(|line|));
      e.armed && Restore(e, CutOracle(|line|)) == Flipped([line], true)
  {
    hide SetFlag, FlagValue;
    var o := CutOracle(|line|);
    AgreeOn([data], "0");
    AgreeOn([on], "1");
    assert FlipFrom([data], "1", o.on, 0) == Flipped([on], true);
    assert data[..|line|] == line;
    assert Flip(on, "0", o.off(0)) == Rewrite(line, false);
    assert [on][0 := line] == [line];
    assert FlipFrom([on], "0", o.off, 0) == Flipped([line], false);
    assert FlipFrom([line], "0", o.restore, 0) == Flipped([line], true);
  }

  /** A file whose flag line is followed by a comment loses the comment, and the restore reports success. */
  lemma CutLosesTail()
    ensures var files, o := [FlagLine("0") + "\n#"], CutOracle(|FlagLine("0")|);
      var e := Attempt(files, o);
      e.armed && Restore(e, o) == Flipped([FlagLine("0")], true)
  {
    hide SetFlag, FlagValue, OnlyFlagAt, Attempt, Restore;
    var line := FlagLine("0");
    var data := line + "\n#";
    FlagLineThen("0", "\n#");
    FlagLineThen("0", "");
    assert line + "" == line;
    SetIs(data, 0, "1");
    SetIs(line, 0, "0");
    FlagValueIs(data, 0);
    var on := data[|PREFIX| := '1'];
    SetIs(on, 0, "0");
    assert data[|PREFIX|] == '0' && line[|PREFIX|] == '0';
    assert on[|PREFIX| := '0'] == data && line[|PREFIX| := '0'] == line;
    CutRun(data, on, line);
  }

  /** Two files whose second cannot be read: the first one is left at 1. */
  lemma HalfSetStays()
    ensures var files := [FlagLine("0"), FlagLine("0")];
      var o := CutOracle(0).(on := (k: nat) => if k == 1 then ReadFails else NoFault);
      var e := Attempt(files, o);
      !e.armed && Restore(e, o).files == [FlagLine("1"), FlagLine("0")]
  {
    hide SetFlag, FlagValue, OnlyFlagAt, FlipFrom;
    var line := FlagLine("0");
    var files := [line, line];
    var o := CutOracle(0).(on := (k: nat) => if k == 1 then ReadFails else NoFault);
    FlagLineThen("0", "");
    assert line + "" == line && line[|PREFIX|] == '0';
    FlagValueIs(line, 0);
    SetIs(line, 0, "1");
    assert line[|PREFIX| := '1'] == FlagLine("1");
    AgreeOn(files, "0");
    FlipStops(files, o.on, "0", 1);
    assert FlipFrom(files, "1", o.on, 0).files == [FlagLine("1"), line];
  }

  /******* What a success means *******/

  /** Files that all have a flag are rewritten to the end exactly when no operation on them fails. */
  lemma {:induction false} FlipsExactly(files: seq<string>, value: string, faults: Faults, i: nat)
    requires (value == "0" || value == "1") && i <= |files| && Flagged(files)
    ensures FlipFrom(files, value, faults, i).ok <==> forall k: nat :: i <= k < |files| ==> faults(k) == NoFault
    decreases |files| - i
  {
    hide FlagValue, SetFlag, WriteFile;
    if i < |files| {
      SetSucceeds(files[i], value);
      FlipOk(files[i], value, faults(i));
      var one := Flip(files[i], value, faults(i));
      if one.ok {
        StillFlagged(files, i, value);
        FlipsExactly(files[i := one.data], value, faults, i + 1);
      }
    }
  }

  lemma StillFlagged(files: seq<string>, i: nat, value: string)
    requires i < |files| && Flagged(files) && SetFlag(files[i], value).Some?
    ensures Flagged(files[i := With(files[i], value)])
  {
    hide Matches, Replace;
  }

  /**
   A success is reported by the attempt exactly when every file had one and the same flag, and every read, every write,
   both fixtures and the comparison of their outputs went well.
   */
  lemma SuccessExactly(files: seq<string>, o: Oracle)
    ensures Attempt(files, o).success <==>
            && Agree(files) && o.readBefore && o.readOn && o.fixtureOn && o.fixtureOff && o.readAfter && o.outputsAgree
            && forall k: nat :: k < |files| ==> o.on(k) == NoFault && o.off(k) == NoFault
  {
    hide FlagValue, FlipFrom, With;
    if o.readBefore && Agree(files) {
      AgreeFlagged(files);
      FlipsExactly(files, "1", o.on, 0);
      var on := FlipFrom(files, "1", o.on, 0);
      if on.ok {
        FlippedSay(files, "1", o.on);
        AgreeFlagged(on.files);
        FlipsExactly(on.files, "0", o.off, 0);
        var off := FlipFrom(on.files, "0", o.off, 0);
        if off.ok { FlippedSay(on.files, "0", o.off); }
      }
    }
  }

  lemma AgreeFlagged(files: seq<string>)
    requires Agree(files)
    ensures Flagged(files)
  {
    hide FlagValue;
  }

  lemma FlippedSay(files: seq<string>, value: string, faults: Faults)
    requires (value == "0" || value == "1") && Flagged(files) && FlipFrom(files, value, faults, 0).ok
    ensures AllSay(FlipFrom(files, value, faults, 0).files, value)
    ensures Agree(FlipFrom(files, value, faults, 0).files)
  {
    hide FlagValue, FlipFrom, With;
    FlipFromMeans(files, value, faults, 0);
    var out := FlipFrom(files, value, faults, 0).files;
    forall k | 0 <= k < |files| ensures FlagValue(out[k]) == Some(value) { WithSays(files[k], value); }
    assert AllSay(out, value);
  }

  lemma WithSays(data: string, value: string)
    requires (value == "0" || value == "1") && FlagValue(data).Some?
    ensures FlagValue(With(data, value)) == Some(value)
  {
    hide FlagValue;
    SetSucceeds(data, value);
  }
}
