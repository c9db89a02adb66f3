/** Where automatic checkpoints fall, and what crashes do to the checkpoint file. */
module Cadence {
  import opened Base
  import opened Records
  import opened RecordTheorems
  import opened Chain
  import opened Appending
  import opened Checkpoints
  import opened Anchoring
  import opened Modular
  import opened Runs
  import Utf8

  /** A run that opens once and then only appends. */
  predicate Session(ops: seq<Op>) {
    ops != [] && ops[0] == Open && forall i :: 0 < i < |ops| ==> ops[i].Append?
  }

  function Checkpointed(cfg: Config, disk: Disk): Option<seq<Checkpoint>> {
    ReadCheckpoints(cfg.codec, [], disk.checkpoints)
  }

  /** The anchors are c, 2c, 3c, ... */
  ghost predicate Multiples(cps: seq<Checkpoint>, c: int) {
    forall i :: 0 <= i < |cps| ==> cps[i].anchorSeq == (i + 1) * c
  }

  lemma NextMultiple(n: nat, c: int)
    requires c > 0
    ensures n + 1 >= n / c * c + c ==> (n + 1) / c == n / c + 1 && n + 1 == (n / c + 1) * c
    ensures n + 1 < n / c * c + c ==> (n + 1) / c == n / c
  {
    var q, r := n / c, n % c;
    assert n == q * c + r;
    if r == c - 1 {
      assert n + 1 == (q + 1) * c;
      DivisionUnique(n + 1, c, q + 1, 0);
    } else {
      DivisionUnique(n + 1, c, q, r + 1);
    }
  }

  /**
   With cadence c, a session of n appends on empty files leaves exactly the anchors c, 2c, ..., (n/c)c.
   */
  lemma {:induction false} AnchorsAreMultiples(cfg: Config, ops: seq<Op>)
    requires cfg.Lawful() && Session(ops) && RunOk(cfg, EMPTY, ops)
    ensures var st := Run(cfg, EMPTY, ops);
      var c := cfg.Cadence();
      var n := |ops| - 1;
      && st.live.Some? && LiveInv(cfg, st.disk, st.live.value) && st.live.value.seqNo == n
      && st.live.value.mgr.anchorSeq == n / c * c
      && Checkpointed(cfg, st.disk).Some? && |Checkpointed(cfg, st.disk).value| == n / c
      && Multiples(Checkpointed(cfg, st.disk).value, c)
    decreases |ops|
  {
    hide LiveInv, AppendState, OpOk, Clear, Checkpointed, Multiples, Codec.Lawful, KeyPair.Lawful;
    var init, op := ops[..|ops| - 1], ops[|ops| - 1];
    if |ops| == 1 {
      assert init == [];
      OpenedEmpty(cfg);
      assert 0 / cfg.Cadence() == 0;
    } else {
      AnchorsAreMultiples(cfg, init);
      var st := Run(cfg, EMPTY, init);
      NextAnchor(cfg, st.disk, st.live.value, op, |init| - 1);
    }
  }

  lemma OpenedEmpty(cfg: Config)
    ensures var st := Step(cfg, EMPTY, Open);
      && st.live == Some(Live(0, "", Manager(0, "", 0, ""))) && LiveInv(cfg, st.disk, st.live.value)
      && Checkpointed(cfg, st.disk) == Some([]) && Multiples([], cfg.Cadence())
  {
  }

  lemma NextAnchor(cfg: Config, disk: Disk, l: Live, op: Op, n: nat)
    requires cfg.Lawful() && LiveInv(cfg, disk, l) && op.Append?
    requires OpOk(cfg, State(disk, Some(l)), op) && Clear(cfg, State(disk, Some(l)), op)
    requires l.seqNo == n && l.mgr.anchorSeq == n / cfg.Cadence() * cfg.Cadence()
    requires Checkpointed(cfg, disk).Some? && |Checkpointed(cfg, disk).value| == n / cfg.Cadence()
    requires Multiples(Checkpointed(cfg, disk).value, cfg.Cadence())
    ensures var (d, l') := AppendState(cfg, disk, l, op.content, op.now, op.entropy);
      var c := cfg.Cadence();
      && LiveInv(cfg, d, l') && l'.seqNo == n + 1 && l'.mgr.anchorSeq == (n + 1) / c * c
      && Checkpointed(cfg, d).Some? && |Checkpointed(cfg, d).value| == (n + 1) / c
      && Multiples(Checkpointed(cfg, d).value, c)
  {
    hide ReadLog, ReadCheckpoints, LiveInv, Stamp, Encode, Codec.Normal, EncodeCheckpoint, Codec.Lawful,
      NewCheckpoint, Utf8.Valid, KeyPair.Lawful, Terminated;
    AppendKeeps(cfg, disk, l, op.content, op.now, op.entropy);
    NextMultiple(n, cfg.Cadence());
    StampSeq(cfg.codec, op.content, l.seqNo, l.hash);
    var l' := Advanced(cfg, l, op.content);
    if Due(cfg.Cadence(), l'.mgr, l'.seqNo) {
      DueCheckpoint(cfg, disk, l, op.content, op.now, op.entropy);
      MakeFields(cfg, l', op.now, op.entropy);
      MultiplesSnoc(Checkpointed(cfg, disk).value, MakeCheckpoint(cfg, l', op.now, op.entropy), cfg.Cadence());
    }
  }

  lemma MultiplesSnoc(cps: seq<Checkpoint>, k: Checkpoint, c: int)
    requires Multiples(cps, c) && k.anchorSeq == (|cps| + 1) * c
    ensures Multiples(cps + [k], c)
  {
  }

  /** A due append adds exactly the checkpoint of the new head. */
  lemma DueCheckpoint(cfg: Config, disk: Disk, l: Live, content: AuditRecord, now: string, entropy: string)
    requires cfg.Lawful() && LiveInv(cfg, disk, l)
    requires var op := Append(content, now, entropy);
      OpOk(cfg, State(disk, Some(l)), op) && Clear(cfg, State(disk, Some(l)), op)
    requires AppendDue(cfg, l)
    ensures && ReadCheckpoints(cfg.codec, [], disk.checkpoints).Some?
      && ReadCheckpoints(cfg.codec, [], AppendState(cfg, disk, l, content, now, entropy).0.checkpoints)
         == Some(ReadCheckpoints(cfg.codec, [], disk.checkpoints).value
                 + [MakeCheckpoint(cfg, Advanced(cfg, l, content), now, entropy)])
  {
    hide ReadLog, ReadCheckpoints, HonestCheckpoints, Whole, Stamp, Encode, Codec.RecordLaws, Codec.CheckpointLaws,
      Codec.HashLaws, EncodeCheckpoint, NewCheckpoint, Utf8.Valid, KeyPair.Lawful, Terminated, EndsClean, LineOk, Fresh;
    var disk', l' := WithLine(cfg, disk, l, content), Advanced(cfg, l, content);
    LineKeeps(cfg, disk, l, content);
    PositiveHead(cfg, disk, l);
    LineOkInt64(cfg, l, content);
    StampSeq(cfg.codec, content, l.seqNo, l.hash);
    CheckpointKeeps(cfg, disk', l', now, entropy);
  }

  /**
   In every run in which every write finds its file newline-terminated, at every point including right after a crash
   at any byte: as long as the checkpoint file can be read, what a stored checkpoint anchors survives recovery.
   */
  lemma NoAnchoredRecordIsLost(cfg: Config, ops: seq<Op>, i: nat)
    requires cfg.Lawful() && RunOk(cfg, EMPTY, ops)
    requires var cps := Checkpointed(cfg, Run(cfg, EMPTY, ops).disk); cps.Some? && i < |cps.value|
    ensures var disk := Run(cfg, EMPTY, ops).disk;
      var cps := Checkpointed(cfg, disk).value;
      Anchors(LogRecords(cfg, disk), cps[i]) && forall j :: 0 <= j < i ==> cps[j].anchorSeq < cps[i].anchorSeq
  {
    RunKeeps(cfg, ops);
    hide Run, RunOk, ReadLog, ReadCheckpoints, OpenRecoverable, HonestCheckpoints, Whole, EndsClean;
    var disk := Run(cfg, EMPTY, ops).disk;
    var rs, cps := LogRecords(cfg, disk), Checkpointed(cfg, disk).value;
    HonestAnchors(cfg.codec, cfg.key, rs, cps, i);
    forall j | 0 <= j < i ensures cps[j].anchorSeq < cps[i].anchorSeq {
      AnchorsIncrease(cfg.codec, cfg.key, rs, cps, j, i);
    }
  }

  /******* Where a write finds its file not terminated *******/

  /**
   The converse for the log: an append, fresh and in order as it is, that finds the last line without its newline
   loses that record and its own; whatever is appended later is lost with them.
   */
  lemma UnendedAppendLoses(cfg: Config, disk: Disk, l: Live, content: AuditRecord, now: string, entropy: string)
    requires cfg.Lawful() && LiveInv(cfg, disk, l) && !Terminated(disk.audit)
    requires Writable(Stamp(cfg.codec, content, l.seqNo, l.hash))
    ensures var rs := ReadLog(cfg.codec, disk.audit).records;
      var (d, l') := AppendState(cfg, disk, l, content, now, entropy);
      && rs != [] && LogRecords(cfg, d) == ButLast(rs) && disk.checkpoints <= d.checkpoints
      && forall later :: ReadLog(cfg.codec, d.audit + later).records == ButLast(rs)
  {
    AppendBytes(cfg, disk, l, content, now, entropy);
    hide ReadLog, ReadCheckpoints, HonestCheckpoints, Whole, Stamp, Encode, OpenRecoverable, Codec.RecordLaws,
      Codec.CheckpointLaws, Codec.HashLaws, Writable, AppendState, EndsClean, Ended, ButLast, OneLine, Fresh;
    var r := Stamp(cfg.codec, content, l.seqNo, l.hash);
    var d := AppendState(cfg, disk, l, content, now, entropy).0;
    EncodeOneLine(r);
    LineStart(r);
    MissingNewlineLosesBoth(cfg.codec, disk.audit, Encode(r));
    var rs := ReadLog(cfg.codec, disk.audit).records;
    forall later ensures ReadLog(cfg.codec, d.audit + later).records == ButLast(rs) {
      BrokenLog(cfg.codec, d.audit, later);
    }
  }

  lemma AppendBytes(cfg: Config, disk: Disk, l: Live, content: AuditRecord, now: string, entropy: string)
    ensures var d := AppendState(cfg, disk, l, content, now, entropy).0;
      && d.audit == disk.audit + Encode(Stamp(cfg.codec, content, l.seqNo, l.hash)) + "\n"
      && disk.checkpoints <= d.checkpoints
  {
    hide Encode, Stamp, EncodeCheckpoint, NewCheckpoint;
  }

  /** The steps that put at least one byte into the log. */
  predicate WritesLog(op: Op) { op.Append? || op.CrashInCheckpoint? || (op.Crash? && op.written > 0) }

  /** What such a step leaves in the log: behind the old bytes the line with its newline, or a piece of the line. */
  lemma LogAfter(cfg: Config, st: State, op: Op)
    requires st.live.Some? && WritesLog(op) && OpOk(cfg, st, op)
    ensures var l := st.live.value;
      var line := NextLine(cfg.codec, op.content, l.seqNo, l.hash);
      var audit := Step(cfg, st, op).disk.audit;
      && line != "" && line[0] == '{' && OneLine(line)
      && (audit == st.disk.audit + line + "\n"
          || exists k :: 0 < k <= |line| && OneLine(line[..k]) && audit == st.disk.audit + line[..k])
  {
    hide Encode, Stamp, Writable, LineOk, CheckpointLineOk, EncodeCheckpoint, NewCheckpoint, OneLine, Due;
    var l := st.live.value;
    var r := Stamp(cfg.codec, op.content, l.seqNo, l.hash);
    LineNonempty(cfg, l, op.content);
    EncodeNoControl(r);
    EncodeOneLine(r);
    LineStart(r);
    if op.Crash? {
      var line := Encode(r);
      CrashBytes(line, op.written);
      if op.written <= |line| {
        NoControlOneLine(line[..op.written]);
      }
    }
  }

  /** A step that writes to the log keeps every record exactly when it finds the log empty or newline-terminated. */
  lemma LogStepExact(cfg: Config, st: State, op: Op)
    requires cfg.Lawful() && Inv(cfg, st) && st.live.Some? && WritesLog(op) && OpOk(cfg, st, op)
    ensures LogRecords(cfg, st.disk) <= LogRecords(cfg, Step(cfg, st, op).disk) <==> Terminated(st.disk.audit)
  {
    hide ReadLog, ReadCheckpoints, HonestCheckpoints, Whole, OpenRecoverable, Codec.RecordLaws, Codec.CheckpointLaws,
      Codec.HashLaws, LiveInv, Inv, Step, OneLine, OpOk, Terminated, ButLast, LogRecords, EndsClean;
    var l := st.live.value;
    LiveOfInv(cfg, st);
    DiskOfLive(cfg, st.disk, l);
    DiskImpliesInv(cfg, st);
    if Terminated(st.disk.audit) {
      LogStepKeeps(cfg, st, op);
    } else {
      LogAfter(cfg, st, op);
      LogStepLoses(cfg, st.disk, Step(cfg, st, op).disk, NextLine(cfg.codec, op.content, l.seqNo, l.hash));
      Shorter(LogRecords(cfg, st.disk));
    }
  }

  lemma LogStepKeeps(cfg: Config, st: State, op: Op)
    requires cfg.Lawful() && Inv(cfg, st) && st.live.Some? && WritesLog(op) && OpOk(cfg, st, op)
    requires Terminated(st.disk.audit)
    ensures LogRecords(cfg, st.disk) <= LogRecords(cfg, Step(cfg, st, op).disk)
  {
    hide ReadLog, ReadCheckpoints, HonestCheckpoints, Whole, OpenRecoverable, Codec.RecordLaws, Codec.CheckpointLaws,
      Codec.HashLaws, LiveInv, DiskInv, Inv, LogRecords, Terminated, LineOk, CheckpointLineOk, Encode, Stamp,
      EncodeCheckpoint, NewCheckpoint, Due, FinalDue;
    var l := st.live.value;
    LiveOfInv(cfg, st);
    DiskOfLive(cfg, st.disk, l);
    DiskImpliesInv(cfg, st);
    if op.Crash? {
      CrashKeeps(cfg, st.disk, l, op.content, op.written);
    } else {
      LineKeeps(cfg, st.disk, l, op.content);
      var d := WithLine(cfg, st.disk, l, op.content);
      DiskOfLive(cfg, d, Advanced(cfg, l, op.content));
      DiskImpliesInv(cfg, State(d, None));
      assert Step(cfg, st, op).disk.audit == d.audit;
      SameLog(cfg, d, Step(cfg, st, op).disk);
    }
  }

  lemma SameLog(cfg: Config, d: Disk, e: Disk)
    requires d.audit == e.audit
    ensures LogRecords(cfg, d) == LogRecords(cfg, e)
  {
    hide ReadLog, OpenRecoverable;
  }

  lemma LogStepLoses(cfg: Config, before: Disk, after: Disk, line: string)
    requires cfg.codec.RecordLaws() && Whole(cfg.codec, before.audit) && !Terminated(before.audit)
    requires line != "" && line[0] == '{' && OneLine(line)
    requires after.audit == before.audit + line + "\n"
          || exists k :: 0 < k <= |line| && OneLine(line[..k]) && after.audit == before.audit + line[..k]
    ensures LogRecords(cfg, before) == ReadLog(cfg.codec, before.audit).records != []
    ensures LogRecords(cfg, after) == ButLast(LogRecords(cfg, before))
  {
    hide ReadLog, Whole, OpenRecoverable, Codec.RecordLaws, OneLine, Terminated, ButLast, Ended;
    var rs := ReadLog(cfg.codec, before.audit).records;
    WholeRecovered(cfg.codec, before.audit);
    if after.audit == before.audit + line + "\n" {
      MissingNewlineLosesBoth(cfg.codec, before.audit, line);
    } else {
      var k :| 0 < k <= |line| && OneLine(line[..k]) && after.audit == before.audit + line[..k];
      MissingNewlineLosesBoth(cfg.codec, before.audit, line[..k]);
    }
  }

  lemma Shorter(rs: seq<AuditRecord>)
    ensures rs != [] ==> |ButLast(rs)| < |rs|
  {
  }

  /** A crash that cuts off the newline of an append's line, an open, a close and another open. */
  function Anchored(cfg: Config, st: State, content: AuditRecord, unended: nat, now: string, entropy: string): State {
    var crashed := Step(cfg, st, Crash(content, unended));
    var closed := Step(cfg, Step(cfg, crashed, Open), Close(now, entropy));
    Step(cfg, closed, Open)
  }

  ghost predicate AnchoredIn(cfg: Config, disk: Disk, r: AuditRecord) {
    && Checkpointed(cfg, disk).Some?
    && exists c :: c in Checkpointed(cfg, disk).value && c.anchorSeq == r.seqNo && c.anchorHash == r.recordHash
  }

  /**
   A run that loses an anchored record: the crash cuts off a newline, the reopened writer accepts the record and
   anchors it on close, and after one more open the next append destroys it while its checkpoint stays.
   */
  lemma AnchoredRecordLost(
    cfg: Config, disk: Disk, l: Live, content: AuditRecord, now: string, entropy: string, next: AuditRecord)
    requires cfg.Lawful() && LiveInv(cfg, disk, l) && Terminated(disk.audit) && Terminated(disk.checkpoints)
    requires LineOk(cfg, l, content) && CheckpointLineOk(cfg, Advanced(cfg, l, content), now, entropy)
    requires var l' := Advanced(cfg, l, content); Writable(Stamp(cfg.codec, next, l'.seqNo, l'.hash))
    ensures var lost := Stamp(cfg.codec, content, l.seqNo, l.hash);
      var unended := |NextLine(cfg.codec, content, l.seqNo, l.hash)|;
      var anchored := Anchored(cfg, State(disk, Some(l)), content, unended, now, entropy);
      var after := Step(cfg, anchored, Append(next, now, entropy));
      && AnchoredIn(cfg, anchored.disk, lost) && LogRecords(cfg, anchored.disk) == LogRecords(cfg, disk) + [lost]
      && anchored.disk.checkpoints <= after.disk.checkpoints && LogRecords(cfg, after.disk) == LogRecords(cfg, disk)
  {
    var lost := Stamp(cfg.codec, content, l.seqNo, l.hash);
    var l' := Advanced(cfg, l, content);
    var d1 := disk.(audit := disk.audit + NextLine(cfg.codec, content, l.seqNo, l.hash));
    hide ReadLog, ReadCheckpoints, HonestCheckpoints, Whole, Stamp, Encode, OpenRecoverable, Codec.RecordLaws,
      Codec.CheckpointLaws, Codec.HashLaws, Writable, AppendState, EndsClean, Terminated, EncodeCheckpoint,
      NewCheckpoint, Codec.Normal, Utf8.Valid, KeyPair.Lawful, ButLast, Anchored, LineOk, CheckpointLineOk;
    var (d2, l2) := WriteCheckpoint(cfg, d1, l', now, entropy);
    AnchoredState(cfg, disk, l, content, now, entropy);
    UnendedKeeps(cfg, disk, l, content);
    WholeRecovered(cfg.codec, disk.audit);
    WholeRecovered(cfg.codec, d1.audit);
    UnendedAppendLoses(cfg, d2, l2, next, now, entropy);
    ButLastSnoc(ReadLog(cfg.codec, disk.audit).records, lost);
  }

  lemma AnchoredState(cfg: Config, disk: Disk, l: Live, content: AuditRecord, now: string, entropy: string)
    requires cfg.Lawful() && LiveInv(cfg, disk, l) && Terminated(disk.audit) && Terminated(disk.checkpoints)
    requires LineOk(cfg, l, content) && CheckpointLineOk(cfg, Advanced(cfg, l, content), now, entropy)
    ensures var line := NextLine(cfg.codec, content, l.seqNo, l.hash);
      var d1, l1 := disk.(audit := disk.audit + line), Advanced(cfg, l, content);
      var (d2, l2) := WriteCheckpoint(cfg, d1, l1, now, entropy);
      && Anchored(cfg, State(disk, Some(l)), content, |line|, now, entropy) == State(d2, Some(l2))
      && LiveInv(cfg, d2, l2) && d2.audit == d1.audit && l2.seqNo == l1.seqNo && l2.hash == l1.hash
      && AnchoredIn(cfg, d2, Stamp(cfg.codec, content, l.seqNo, l.hash))
  {
    hide ReadLog, ReadCheckpoints, HonestCheckpoints, Whole, Stamp, Encode, OpenRecoverable, Codec.RecordLaws,
      Codec.CheckpointLaws, Codec.HashLaws, EndsClean, Terminated, EncodeCheckpoint, NewCheckpoint, Codec.Normal,
      Utf8.Valid, KeyPair.Lawful, LineOk, OpenState, CloseState, Fresh;
    var line := NextLine(cfg.codec, content, l.seqNo, l.hash);
    var d1, l1 := disk.(audit := disk.audit + line), Advanced(cfg, l, content);
    LineOkInt64(cfg, l, content);
    assert Step(cfg, State(disk, Some(l)), Crash(content, |line|)) == State(d1, None) by {
      assert (line + "\n")[..|line|] == line;
    }
    HeadAfter(cfg, disk, l, content);
    UnendedKeeps(cfg, disk, l, content);
    OpensAsIs(cfg, d1, l1);
    NotYetAnchored(cfg, disk, l, content);
    CheckpointKeeps(cfg, d1, l1, now, entropy);
    MakeFields(cfg, l1, now, entropy);
    var (d2, l2) := WriteCheckpoint(cfg, d1, l1, now, entropy);
    assert CloseState(cfg, d1, l1, now, entropy) == d2 by { ClosesWith(cfg, d1, l1, now, entropy); }
    OpensAsIs(cfg, d2, l2);
    assert MakeCheckpoint(cfg, l1, now, entropy) in Checkpointed(cfg, d2).value;
  }

  lemma ClosesWith(cfg: Config, disk: Disk, l: Live, now: string, entropy: string)
    requires FinalDue(l)
    ensures CloseState(cfg, disk, l, now, entropy) == WriteCheckpoint(cfg, disk, l, now, entropy).0
  {
  }

  /** Opening files in order finds the writer that left them. */
  lemma OpensAsIs(cfg: Config, disk: Disk, l: Live)
    requires LiveInv(cfg, disk, l)
    ensures OpenState(cfg, disk) == State(disk, Some(l))
  {
    hide ReadLog, ReadCheckpoints, HonestCheckpoints, Whole, OpenRecoverable, EndsClean;
    WholeRecovered(cfg.codec, disk.audit);
  }

  lemma ButLastSnoc(rs: seq<AuditRecord>, r: AuditRecord)
    ensures ButLast(rs + [r]) == rs
  {
  }

  lemma HeadAfter(cfg: Config, disk: Disk, l: Live, content: AuditRecord)
    ensures var r := Stamp(cfg.codec, content, l.seqNo, l.hash);
      var rs := ReadLog(cfg.codec, disk.audit).records + [r];
      Fresh(rs, Advanced(cfg, l, content).seqNo, Advanced(cfg, l, content).hash)
  {
    hide ReadLog, Stamp;
  }

  /** The head has moved past the last anchor. */
  lemma NotYetAnchored(cfg: Config, disk: Disk, l: Live, content: AuditRecord)
    requires cfg.codec.RecordLaws() && LiveInv(cfg, disk, l)
    ensures var l' := Advanced(cfg, l, content); FinalDue(l') && l'.seqNo > l'.mgr.anchorSeq && l'.seqNo > 0
  {
    hide ReadLog, ReadCheckpoints, Codec.RecordLaws, LiveInv, Stamp;
    PositiveHead(cfg, disk, l);
    StampSeq(cfg.codec, content, l.seqNo, l.hash);
  }

  /**
   A crash inside the checkpoint write: the log is whole, but the writer opens again exactly when none or all of the
   checkpoint's bytes reached the file.
   */
  lemma TornCheckpointBlocksOpen(cfg: Config, disk: Disk, l: Live, now: string, entropy: string, k: nat)
    requires cfg.Lawful() && LiveInv(cfg, disk, l) && l.seqNo > l.mgr.anchorSeq && l.seqNo > 0 && Int64(l.seqNo)
    requires CheckpointLineOk(cfg, l, now, entropy) && Terminated(disk.checkpoints)
    requires k <= |EncodeCheckpoint(MakeCheckpoint(cfg, l, now, entropy))|
    ensures var line := EncodeCheckpoint(MakeCheckpoint(cfg, l, now, entropy));
      OpenState(cfg, disk.(checkpoints := disk.checkpoints + line[..k])).live.Some? <==> k == 0 || k == |line|
  {
    hide ReadLog, ReadCheckpoints, HonestCheckpoints, NewCheckpoint, EncodeCheckpoint, Whole, Utf8.Valid,
      Terminated, OpenRecoverable, Codec.RecordLaws, Codec.CheckpointLaws, Codec.HashLaws, EndsClean;
    var line := EncodeCheckpoint(MakeCheckpoint(cfg, l, now, entropy));
    CheckpointCrash(cfg, disk, l, now, entropy, k);
    assert Take(line + "\n", k) == line[..k];
    WholeRecovered(cfg.codec, disk.audit);
  }

  /**
   And when all of them did, but not the newline, the next checkpoint runs into that one: from then on no open
   succeeds, whatever is written later.
   */
  lemma UnendedCheckpointBlocksOpen(
    cfg: Config, disk: Disk, l: Live, now: string, entropy: string, audit: string, later: string)
    requires cfg.Lawful() && LiveInv(cfg, disk, l) && l.seqNo > l.mgr.anchorSeq && l.seqNo > 0 && Int64(l.seqNo)
    requires Utf8.Valid(now) && !Terminated(disk.checkpoints)
    ensures var d := WriteCheckpoint(cfg, disk, l, now, entropy).0;
      OpenState(cfg, Disk(audit, d.checkpoints + later)).live.None?
  {
    hide ReadLog, ReadCheckpoints, HonestCheckpoints, NewCheckpoint, EncodeCheckpoint, Whole, Utf8.Valid,
      OpenRecoverable, Codec.RecordLaws, Codec.CheckpointLaws, Codec.HashLaws, PrintableCheckpoint;
    var c := MakeCheckpoint(cfg, l, now, entropy);
    var rs := ReadLog(cfg.codec, disk.audit).records;
    HonestNext(cfg, rs, ReadCheckpoints(cfg.codec, [], disk.checkpoints).value, disk.audit, l, now, entropy);
    CheckpointMerged(cfg.codec, disk.checkpoints, c, later);
  }

  /** Without a cadence of its own a writer anchors every single record. */
  lemma DefaultAnchorsAll(cfg: Config, ops: seq<Op>)
    requires cfg.Lawful() && Session(ops) && RunOk(cfg, EMPTY, ops) && cfg.cadence <= 0
    ensures var st := Run(cfg, EMPTY, ops);
      && Checkpointed(cfg, st.disk).Some? && |Checkpointed(cfg, st.disk).value| == |ops| - 1
      && forall i :: 0 <= i < |ops| - 1 ==> Checkpointed(cfg, st.disk).value[i].anchorSeq == i + 1
  {
    hide Run, RunOk, Checkpointed, LiveInv, OpOk, Clear, Codec.Lawful, KeyPair.Lawful, Session;
    AnchorsAreMultiples(cfg, ops);
    var n := |ops| - 1;
    assert cfg.Cadence() == 1 && n / 1 == n;
  }
}
