/** Exactly which steps lose a record that a stored checkpoint anchors. */
module AnchorLoss {
  import opened Base
  import opened Records
  import opened Chain
  import opened ChainTheorems
  import opened Appending
  import opened Checkpoints
  import opened Anchoring
  import opened Runs
  import opened Cadence
  import Utf8

  /** Every checkpoint of the list anchors one of the records. */
  ghost predicate AllAnchored(rs: seq<AuditRecord>, cps: seq<Checkpoint>) {
    forall i :: 0 <= i < |cps| ==> Anchors(rs, cps[i])
  }

  /** The checkpoint of the head a step makes, whose text it puts into the file as a whole. */
  function Brings(cfg: Config, st: State, op: Op): seq<Checkpoint>
    requires st.live.Some? && WritesLog(op)
  {
    if op.Crash? || !AppendDue(cfg, st.live.value) then []
    else
      var c := MakeCheckpoint(cfg, Advanced(cfg, st.live.value, op.content), op.now, op.entropy);
      if op.Append? || op.written >= |EncodeCheckpoint(c)| then [c] else []
  }

  /** Without the last record exactly the anchors below the head survive. */
  lemma AnchorsBelow(cfg: Config, disk: Disk, l: Live)
    requires cfg.codec.RecordLaws() && LiveInv(cfg, disk, l) && ReadLog(cfg.codec, disk.audit).records != []
    ensures AllAnchored(ButLast(ReadLog(cfg.codec, disk.audit).records), Checkpointed(cfg, disk).value)
       <==> l.mgr.anchorSeq < l.seqNo
  {
    hide ReadLog, ReadCheckpoints, HonestCheckpoints, Codec.RecordLaws, Whole, EndsClean, Fresh;
    var rs, cps := ReadLog(cfg.codec, disk.audit).records, Checkpointed(cfg, disk).value;
    PositiveHead(cfg, disk, l);
    forall i | 0 <= i < |cps| ensures Anchors(ButLast(rs), cps[i]) <==> cps[i].anchorSeq < |rs| {
      HonestAnchors(cfg.codec, cfg.key, rs, cps, i);
    }
    forall i | 0 <= i < |cps| ensures cps[i].anchorSeq <= l.mgr.anchorSeq {
      AnchorsIncrease(cfg.codec, cfg.key, rs, cps, i, |cps| - 1);
    }
    if cps != [] { assert cps[|cps| - 1].anchorSeq == l.mgr.anchorSeq; }
  }

  /** With more records all of them do. */
  lemma AnchorsStay(cfg: Config, disk: Disk, l: Live, more: seq<AuditRecord>)
    requires LiveInv(cfg, disk, l) && ReadLog(cfg.codec, disk.audit).records <= more
    ensures AllAnchored(more, Checkpointed(cfg, disk).value)
  {
    hide ReadLog, ReadCheckpoints, HonestCheckpoints, Whole, EndsClean, Fresh;
    var rs, cps := ReadLog(cfg.codec, disk.audit).records, Checkpointed(cfg, disk).value;
    forall i | 0 <= i < |cps| ensures Anchors(more, cps[i]) {
      HonestAnchors(cfg.codec, cfg.key, rs, cps, i);
    }
  }

  /** The checkpoint a step brings anchors the record of that step. */
  lemma BroughtAnchor(cfg: Config, st: State, op: Op)
    requires cfg.codec.RecordLaws() && st.live.Some? && LiveInv(cfg, st.disk, st.live.value) && WritesLog(op)
    ensures var l := st.live.value;
      var rs, b := ReadLog(cfg.codec, st.disk.audit).records, Brings(cfg, st, op);
      && (AllAnchored(ButLast(rs), b) <==> b == [])
      && AllAnchored(rs + [Stamp(cfg.codec, op.content, l.seqNo, l.hash)], b)
  {
    hide ReadLog, ReadCheckpoints, LiveInv, Codec.RecordLaws, Stamp, EncodeCheckpoint, NewCheckpoint, Due;
    var l := st.live.value;
    PositiveHead(cfg, st.disk, l);
    StampSeq(cfg.codec, op.content, l.seqNo, l.hash);
    var b := Brings(cfg, st, op);
    if b != [] {
      MakeFields(cfg, Advanced(cfg, l, op.content), op.now, op.entropy);
      assert b[0].anchorSeq == l.seqNo + 1;
    }
  }

  /******* The checkpoint file after the step *******/

  /** The next checkpoint prints, whether or not its record's line ends up on a line of its own. */
  lemma NextPrintable(cfg: Config, disk: Disk, l: Live, content: AuditRecord, now: string, entropy: string)
    requires cfg.Lawful() && LiveInv(cfg, disk, l) && LineOk(cfg, l, content) && Utf8.Valid(now)
    ensures PrintableCheckpoint(MakeCheckpoint(cfg, Advanced(cfg, l, content), now, entropy))
  {
    hide ReadLog, ReadCheckpoints, HonestCheckpoints, ValidChain, Whole, EndsClean, Codec.RecordLaws,
      Codec.CheckpointLaws, Codec.HashLaws, KeyPair.Lawful, Utf8.Valid, NewCheckpoint, Stamp, Codec.Normal,
      PrintableCheckpoint, Encode, ManagerOf, CheckRecord, PrintableRecord;
    var rs, cps := ReadLog(cfg.codec, disk.audit).records, Checkpointed(cfg, disk).value;
    var r := Stamp(cfg.codec, content, l.seqNo, l.hash);
    ReadLogValid(cfg.codec, disk.audit);
    PositiveHead(cfg, disk, l);
    FewCheckpoints(cfg.codec, cfg.key, rs, cps);
    StampSeq(cfg.codec, content, l.seqNo, l.hash);
    StampChecked(cfg.codec, rs, content, l.seqNo, l.hash);
    CheckExtends(cfg.codec, rs, r);
    NormalPrintable(cfg.codec, r);
    LineOkInt64(cfg, l, content);
    MoreRecords(cfg.codec, cfg.key, rs, [r], cps);
    NewPrintable(cfg.codec, cfg.key, rs + [r], cps, now, entropy);
  }

  lemma NormalPrintable(codec: Codec, r: AuditRecord)
    requires codec.Normal(r)
    ensures PrintableRecord(r)
  {
    hide PrintableRecord, PayloadSurvives;
  }

  /**
   A checkpoint file that can be read behind any part of a checkpoint's text holds the checkpoint exactly if all of
   it.
   */
  lemma PartWritten(codec: Codec, data: string, c: Checkpoint, written: nat)
    requires codec.CheckpointLaws() && PrintableCheckpoint(c) && |EncodeCheckpoint(c)| < MAX_LINE
    requires ReadCheckpoints(codec, [], data).Some? && EndsClean(data)
    ensures var line := EncodeCheckpoint(c);
      var after := ReadCheckpoints(codec, [], data + Take(line + "\n", written));
      && (after.Some? <==> written == 0 || (Terminated(data) && written >= |line|))
      && (after.Some? ==> after.value == ReadCheckpoints(codec, [], data).value + if written >= |line| then [c] else [])
  {
    hide ReadCheckpoints, EncodeCheckpoint, PrintableCheckpoint, Codec.CheckpointLaws, OneLine;
    var line := EncodeCheckpoint(c);
    CrashBytes(line, written);
    EncodeCheckpointNoControl(c);
    if written == 0 {
      assert data + "" == data;
    } else if Terminated(data) {
      if written > |line| {
        CheckpointWritten(codec, data, c);
        assert data + (line + "\n") == data + line + "\n";
      } else {
        TornCheckpointUnreadable(codec, data, c, written);
        if written == |line| { WholeCheckpoint(codec, data, c); }
      }
    } else {
      var piece := if written > |line| then line else line[..written];
      NoControlOneLine(piece);
      PieceMerged(codec, data, piece);
      assert data + (line + "\n") == data + line + "\n";
    }
  }

  /** What the step leaves of the checkpoint file. */
  lemma CheckpointsAfter(cfg: Config, st: State, op: Op)
    requires cfg.Lawful() && st.live.Some? && LiveInv(cfg, st.disk, st.live.value) && WritesLog(op) && OpOk(cfg, st, op)
    ensures var after := Checkpointed(cfg, Step(cfg, st, op).disk);
      after.Some? ==> after.value == Checkpointed(cfg, st.disk).value + Brings(cfg, st, op)
  {
    hide ReadLog, ReadCheckpoints, LiveInv, Codec.RecordLaws, Codec.CheckpointLaws, Codec.HashLaws, KeyPair.Lawful,
      Stamp, Encode, EncodeCheckpoint, NewCheckpoint, LineOk, Utf8.Valid, PrintableCheckpoint, EndsClean, Terminated;
    var l := st.live.value;
    LiveReadable(cfg, st.disk, l);
    StampSeq(cfg.codec, op.content, l.seqNo, l.hash);
    if op.Crash? || !AppendDue(cfg, l) {
      assert Step(cfg, st, op).disk.checkpoints == st.disk.checkpoints && Brings(cfg, st, op) == [];
      assert Checkpointed(cfg, st.disk).value + [] == Checkpointed(cfg, st.disk).value;
    } else {
      var c := MakeCheckpoint(cfg, Advanced(cfg, l, op.content), op.now, op.entropy);
      NextPrintable(cfg, st.disk, l, op.content, op.now, op.entropy);
      var text := EncodeCheckpoint(c) + "\n";
      var written := if op.Append? then |text| else op.written;
      PartWritten(cfg.codec, st.disk.checkpoints, c, written);
      assert Step(cfg, st, op).disk.checkpoints == st.disk.checkpoints + Take(text, written) by {
        assert Take(text, |text|) == text;
        assert st.disk.checkpoints + EncodeCheckpoint(c) + "\n" == st.disk.checkpoints + text;
      }
    }
  }

  lemma LiveReadable(cfg: Config, disk: Disk, l: Live)
    requires LiveInv(cfg, disk, l)
    ensures Checkpointed(cfg, disk).Some? && EndsClean(disk.checkpoints)
  {
    hide ReadLog, ReadCheckpoints, HonestCheckpoints, Whole, EndsClean, Fresh;
  }

  /******* The exact condition *******/

  /** The records after a step that writes to the log: on a terminated log the old ones and perhaps the new one. */
  lemma RecordsAfter(cfg: Config, st: State, op: Op)
    requires cfg.Lawful() && Inv(cfg, st) && st.live.Some? && WritesLog(op) && OpOk(cfg, st, op)
    ensures var rs := ReadLog(cfg.codec, st.disk.audit).records;
      var after := LogRecords(cfg, Step(cfg, st, op).disk);
      var l := st.live.value;
      && (Terminated(st.disk.audit) ==> rs <= after)
      && (Terminated(st.disk.audit) && !op.Crash? ==> after == rs + [Stamp(cfg.codec, op.content, l.seqNo, l.hash)])
      && (!Terminated(st.disk.audit) ==> rs != [] && after == ButLast(rs))
  {
    hide ReadLog, ReadCheckpoints, HonestCheckpoints, Whole, OpenRecoverable, Codec.RecordLaws, Codec.CheckpointLaws,
      Codec.HashLaws, LiveInv, Inv, Step, OneLine, Terminated, ButLast, LogRecords, EndsClean, Stamp, Encode,
      LineOk, CheckpointLineOk, KeyPair.Lawful;
    var l := st.live.value;
    LiveOfInv(cfg, st);
    DiskOfLive(cfg, st.disk, l);
    DiskImpliesInv(cfg, st);
    if !Terminated(st.disk.audit) {
      LogAfter(cfg, st, op);
      LogStepLoses(cfg, st.disk, Step(cfg, st, op).disk, NextLine(cfg.codec, op.content, l.seqNo, l.hash));
    } else {
      LogStepKeeps(cfg, st, op);
      if !op.Crash? { LineIsAdded(cfg, st, op); }
    }
  }

  lemma LineIsAdded(cfg: Config, st: State, op: Op)
    requires cfg.Lawful() && st.live.Some? && LiveInv(cfg, st.disk, st.live.value) && Terminated(st.disk.audit)
    requires WritesLog(op) && OpOk(cfg, st, op) && !op.Crash?
    ensures var l := st.live.value;
      LogRecords(cfg, Step(cfg, st, op).disk)
      == ReadLog(cfg.codec, st.disk.audit).records + [Stamp(cfg.codec, op.content, l.seqNo, l.hash)]
  {
    hide ReadLog, ReadCheckpoints, HonestCheckpoints, Whole, OpenRecoverable, Codec.RecordLaws, Codec.CheckpointLaws,
      Codec.HashLaws, LiveInv, DiskInv, Inv, LogRecords, Terminated, LineOk, CheckpointLineOk, Encode, Stamp,
      EncodeCheckpoint, NewCheckpoint, Due, KeyPair.Lawful;
    var l := st.live.value;
    LineKeeps(cfg, st.disk, l, op.content);
    var d := WithLine(cfg, st.disk, l, op.content);
    DiskOfLive(cfg, d, Advanced(cfg, l, op.content));
    DiskImpliesInv(cfg, State(d, None));
    assert Step(cfg, st, op).disk.audit == d.audit;
    SameLog(cfg, d, Step(cfg, st, op).disk);
  }

  /**
   A step that writes to the log, an append or a crash at any byte of one, leaves every checkpoint whose text is in the
   file with its record exactly when it finds the log newline-terminated, or the head is not anchored yet and the step
   brings no checkpoint: one it brings would anchor the record it has just lost. As long as the file can be read, these
   are all the checkpoints it holds.
   */
  lemma AnchorStepExact(cfg: Config, st: State, op: Op)
    requires cfg.Lawful() && Inv(cfg, st) && st.live.Some? && WritesLog(op) && OpOk(cfg, st, op)
    ensures Checkpointed(cfg, st.disk).Some?
    ensures var l, after := st.live.value, Step(cfg, st, op).disk;
      var cps := Checkpointed(cfg, st.disk).value + Brings(cfg, st, op);
      && (AllAnchored(LogRecords(cfg, after), cps) <==>
            Terminated(st.disk.audit) || (l.mgr.anchorSeq < l.seqNo && Brings(cfg, st, op) == []))
      && (Checkpointed(cfg, after).Some? ==> Checkpointed(cfg, after).value == cps)
  {
    hide ReadLog, ReadCheckpoints, Checkpointed, LiveInv, Inv, Step, Terminated, ButLast, LogRecords, AllAnchored,
      Stamp, Brings, OpOk, Codec.RecordLaws, Codec.CheckpointLaws, Codec.HashLaws, KeyPair.Lawful;
    var l := st.live.value;
    LiveOfInv(cfg, st);
    LiveReadable(cfg, st.disk, l);
    RecordsAfter(cfg, st, op);
    CheckpointsAfter(cfg, st, op);
    BroughtAnchor(cfg, st, op);
    var rs := ReadLog(cfg.codec, st.disk.audit).records;
    var stored, brought := Checkpointed(cfg, st.disk).value, Brings(cfg, st, op);
    var after := LogRecords(cfg, Step(cfg, st, op).disk);
    Both(after, stored, brought);
    if Terminated(st.disk.audit) {
      AnchorsStay(cfg, st.disk, l, after);
      NoneBrought(cfg, st, op, after);
    } else {
      AnchorsBelow(cfg, st.disk, l);
      NoneBrought(cfg, st, op, after);
    }
  }

  lemma Both(rs: seq<AuditRecord>, a: seq<Checkpoint>, b: seq<Checkpoint>)
    ensures AllAnchored(rs, a + b) <==> AllAnchored(rs, a) && AllAnchored(rs, b)
  {
    hide Anchors;
    if AllAnchored(rs, a + b) {
      forall i | 0 <= i < |a| ensures Anchors(rs, a[i]) { assert (a + b)[i] == a[i]; }
      forall i | 0 <= i < |b| ensures Anchors(rs, b[i]) { assert (a + b)[|a| + i] == b[i]; }
    }
  }

  lemma NoneBrought(cfg: Config, st: State, op: Op, rs: seq<AuditRecord>)
    requires st.live.Some? && WritesLog(op)
    ensures op.Crash? ==> Brings(cfg, st, op) == []
    ensures AllAnchored(rs, [])
  {
  }
}
