/** Whole runs of one writer with its checkpoints: open, append, close, crash and reopen. */
module Runs {
  import opened Base
  import opened Records
  import opened RecordTheorems
  import opened Chain
  import opened ChainTheorems
  import opened Appending
  import opened Checkpoints
  import opened Verifier
  import opened Anchoring
  import Utf8

  datatype Config = Config(codec: Codec, key: Option<KeyPair>, cadence: int) {
    /** Values <= 0 select the default of 1. */
    function Cadence(): (c: int)
      ensures c > 0
    {
      if cadence <= 0 then 1 else cadence
    }

    ghost predicate Lawful() { codec.Lawful() && (key.Some? ==> key.value.Lawful()) }

    function Pub(): Option<Verify> { if key.None? then None else Some(key.value.verify) }
  }

  datatype Disk = Disk(audit: string, checkpoints: string)
  datatype Live = Live(seqNo: int, hash: string, mgr: Manager)
  datatype State = State(disk: Disk, live: Option<Live>)

  /** `NewAuditWriterWithCheckpoints`. */
  function OpenState(cfg: Config, disk: Disk): State {
    match OpenRecoverable(cfg.codec, disk.audit)
    case OpenFailed(data) => State(disk.(audit := data), None)
    case Opened(data, seqNo, hash) =>
      match ReadCheckpoints(cfg.codec, [], disk.checkpoints)
      case None => State(disk.(audit := data), None)
      case Some(cps) => State(disk.(audit := data), Some(Live(seqNo, hash, ManagerOf(cps))))
  }

  function MakeCheckpoint(cfg: Config, l: Live, now: string, entropy: string): Checkpoint {
    NewCheckpoint(cfg.codec, cfg.key, l.mgr, l.seqNo, l.hash, now, entropy)
  }

  /** `CreateCheckpoint` for the current head. */
  function WriteCheckpoint(cfg: Config, disk: Disk, l: Live, now: string, entropy: string): (Disk, Live) {
    var c := MakeCheckpoint(cfg, l, now, entropy);
    (disk.(checkpoints := disk.checkpoints + EncodeCheckpoint(c) + "\n"),
     l.(mgr := Manager(c.seqNo, c.hash, l.seqNo, l.hash)))
  }

  /** `Append` without I/O failure: the line is written and synced, then a due checkpoint. */
  function AppendState(cfg: Config, disk: Disk, l: Live, content: AuditRecord, now: string, entropy: string)
    : (Disk, Live)
  {
    var r := Stamp(cfg.codec, content, l.seqNo, l.hash);
    var disk' := disk.(audit := disk.audit + Encode(r) + "\n");
    var l' := l.(seqNo := r.seqNo, hash := r.recordHash);
    if Due(cfg.Cadence(), l'.mgr, l'.seqNo) then WriteCheckpoint(cfg, disk', l', now, entropy) else (disk', l')
  }

  function LatestAnchor(m: Manager): int { if m.cpSeq == 0 then 0 else m.anchorSeq }

  predicate FinalDue(l: Live) { l.seqNo > 0 && l.seqNo > LatestAnchor(l.mgr) && l.seqNo >= l.mgr.anchorSeq }

  /** `Close`: a final checkpoint when the head has moved past the last anchor. */
  function CloseState(cfg: Config, disk: Disk, l: Live, now: string, entropy: string): Disk {
    if FinalDue(l) then WriteCheckpoint(cfg, disk, l, now, entropy).0 else disk
  }

  /** Crashes: the writer dies with so many bytes of what it was writing in the file. */
  datatype Op =
    | Open
    | Append(content: AuditRecord, now: string, entropy: string)
    | Close(now: string, entropy: string)
    | Crash(content: AuditRecord, written: nat) // inside the line of an append
    | CrashInCheckpoint(content: AuditRecord, now: string, entropy: string, written: nat) // in its checkpoint
    | CrashInClose(now: string, entropy: string, written: nat) // inside the final checkpoint

  function Take(s: string, n: nat): string { if n <= |s| then s[..n] else s }

  /** The writer after the record part of an append. */
  function Advanced(cfg: Config, l: Live, content: AuditRecord): Live {
    var r := Stamp(cfg.codec, content, l.seqNo, l.hash);
    l.(seqNo := r.seqNo, hash := r.recordHash)
  }

  function WithLine(cfg: Config, disk: Disk, l: Live, content: AuditRecord): Disk {
    disk.(audit := disk.audit + Encode(Stamp(cfg.codec, content, l.seqNo, l.hash)) + "\n")
  }

  function CheckpointText(cfg: Config, l: Live, now: string, entropy: string): string {
    EncodeCheckpoint(MakeCheckpoint(cfg, l, now, entropy)) + "\n"
  }

  function Step(cfg: Config, st: State, op: Op): State {
    if st.live.None? then if op.Open? then OpenState(cfg, st.disk) else st
    else
      var l := st.live.value;
      match op
      case Open => st
      case Append(content, now, entropy) =>
        var (d, l') := AppendState(cfg, st.disk, l, content, now, entropy); State(d, Some(l'))
      case Close(now, entropy) => State(CloseState(cfg, st.disk, l, now, entropy), None)
      case Crash(content, written) =>
        var bytes := NextLine(cfg.codec, content, l.seqNo, l.hash) + "\n";
        State(st.disk.(audit := st.disk.audit + Take(bytes, written)), None)
      case CrashInCheckpoint(content, now, entropy, written) =>
        var d, l' := WithLine(cfg, st.disk, l, content), Advanced(cfg, l, content);
        if Due(cfg.Cadence(), l'.mgr, l'.seqNo) then
          State(d.(checkpoints := d.checkpoints + Take(CheckpointText(cfg, l', now, entropy), written)), None)
        else State(d, None)
      case CrashInClose(now, entropy, written) =>
        if FinalDue(l) then
          var text := Take(CheckpointText(cfg, l, now, entropy), written);
          State(st.disk.(checkpoints := st.disk.checkpoints + text), None)
        else State(st.disk, None)
  }

  predicate LineOk(cfg: Config, l: Live, content: AuditRecord) {
    && cfg.codec.Normal(Stamp(cfg.codec, content, l.seqNo, l.hash))
    && |NextLine(cfg.codec, content, l.seqNo, l.hash)| < MAX_LINE
  }

  predicate CheckpointLineOk(cfg: Config, l: Live, now: string, entropy: string) {
    Utf8.Valid(now) && |EncodeCheckpoint(MakeCheckpoint(cfg, l, now, entropy))| < MAX_LINE
  }

  /** Contents are JSON-normal and lines fit the scanner. */
  predicate OpOk(cfg: Config, st: State, op: Op) {
    st.live.None? ||
    var l := st.live.value;
    match op
    case Open => true
    case Append(content, now, entropy) =>
      LineOk(cfg, l, content) && CheckpointLineOk(cfg, Advanced(cfg, l, content), now, entropy)
    case Close(now, entropy) => CheckpointLineOk(cfg, l, now, entropy)
    case Crash(content, written) => LineOk(cfg, l, content)
    case CrashInCheckpoint(content, now, entropy, _) =>
      LineOk(cfg, l, content) && CheckpointLineOk(cfg, Advanced(cfg, l, content), now, entropy)
    case CrashInClose(now, entropy, _) => CheckpointLineOk(cfg, l, now, entropy)
  }

  /** What the step writes finds its file empty or newline-terminated. */
  predicate Clear(cfg: Config, st: State, op: Op) {
    st.live.None? ||
    var l := st.live.value;
    match op
    case Open => true
    case Append(content, _, _) =>
      Terminated(st.disk.audit) && (AppendDue(cfg, l) ==> Terminated(st.disk.checkpoints))
    case Close(_, _) => FinalDue(l) ==> Terminated(st.disk.checkpoints)
    case Crash(_, written) => written > 0 ==> Terminated(st.disk.audit)
    case CrashInCheckpoint(content, _, _, written) =>
      Terminated(st.disk.audit) && (AppendDue(cfg, l) && written > 0 ==> Terminated(st.disk.checkpoints))
    case CrashInClose(_, _, written) => FinalDue(l) && written > 0 ==> Terminated(st.disk.checkpoints)
  }

  /** The next append brings a checkpoint. */
  predicate AppendDue(cfg: Config, l: Live) { Due(cfg.Cadence(), l.mgr, l.seqNo + 1) }

  /** Whether the step puts one more record into the log. */
  function Adds(cfg: Config, st: State, op: Op): nat {
    if st.live.None? then 0
    else match op
      case Append(_, _, _) => 1
      case Crash(content, written) =>
        if written >= |NextLine(cfg.codec, content, st.live.value.seqNo, st.live.value.hash)| then 1 else 0
      case CrashInCheckpoint(_, _, _, _) => 1
      case _ => 0
  }

  function Run(cfg: Config, st: State, ops: seq<Op>): State {
    if ops == [] then st else Step(cfg, Run(cfg, st, ops[..|ops| - 1]), ops[|ops| - 1])
  }

  /** In every state of the run, what is written next is JSON-normal, fits, and finds its file newline-terminated. */
  predicate RunOk(cfg: Config, st: State, ops: seq<Op>) {
    ops == [] ||
    var before := Run(cfg, st, ops[..|ops| - 1]);
    RunOk(cfg, st, ops[..|ops| - 1]) && OpOk(cfg, before, ops[|ops| - 1]) && Clear(cfg, before, ops[|ops| - 1])
  }

  function Appended(cfg: Config, st: State, ops: seq<Op>): nat {
    if ops == [] then 0
    else Appended(cfg, st, ops[..|ops| - 1]) + Adds(cfg, Run(cfg, st, ops[..|ops| - 1]), ops[|ops| - 1])
  }

  const EMPTY := State(Disk("", ""), None)

  /******* What every step keeps *******/

  /** The log a disk recovers to. */
  function Recovered(cfg: Config, disk: Disk): string { OpenRecoverable(cfg.codec, disk.audit).data }

  function LogRecords(cfg: Config, disk: Disk): seq<AuditRecord> { ReadLog(cfg.codec, Recovered(cfg, disk)).records }

  predicate EndsClean(s: string) { s == "" || s[|s| - 1] != '\r' }

  /**
   The two files fit together: the log is whole, with or without its last newline, and as long as the checkpoint file
   can be read it anchors records of this log.
   */
  ghost predicate DiskInv(cfg: Config, audit: string, checkpoints: string) {
    && Whole(cfg.codec, audit) && EndsClean(checkpoints)
    && var cps := ReadCheckpoints(cfg.codec, [], checkpoints);
    cps.Some? ==> HonestCheckpoints(cfg.codec, cfg.key, ReadLog(cfg.codec, audit).records, cps.value)
  }

  ghost predicate LiveInv(cfg: Config, disk: Disk, l: Live) {
    && DiskInv(cfg, disk.audit, disk.checkpoints) && ReadCheckpoints(cfg.codec, [], disk.checkpoints).Some?
    && Fresh(ReadLog(cfg.codec, disk.audit).records, l.seqNo, l.hash)
    && l.mgr == ManagerOf(ReadCheckpoints(cfg.codec, [], disk.checkpoints).value)
  }

  ghost predicate Inv(cfg: Config, st: State) {
    && OpenRecoverable(cfg.codec, st.disk.audit).Opened?
    && DiskInv(cfg, Recovered(cfg, st.disk), st.disk.checkpoints)
    && (st.live.Some? ==> LiveInv(cfg, st.disk, st.live.value))
  }

  /** A whole log is its own recovery. */
  lemma WholeRecovered(codec: Codec, data: string)
    requires Whole(codec, data)
    ensures OpenRecoverable(codec, data)
            == Opened(data, HeadSeq(ReadLog(codec, data).records), HeadHash(ReadLog(codec, data).records))
  {
  }

  lemma DiskImpliesInv(cfg: Config, st: State)
    requires DiskInv(cfg, st.disk.audit, st.disk.checkpoints)
    requires st.live.Some? ==> LiveInv(cfg, st.disk, st.live.value)
    ensures Inv(cfg, st) && Recovered(cfg, st.disk) == st.disk.audit
    ensures LogRecords(cfg, st.disk) == ReadLog(cfg.codec, st.disk.audit).records
  {
    hide ReadLog, ReadCheckpoints, HonestCheckpoints, Whole;
    WholeRecovered(cfg.codec, st.disk.audit);
  }

  /** Opening succeeds exactly as long as the checkpoint file can be read, and loses nothing. */
  lemma OpenKeeps(cfg: Config, disk: Disk)
    requires Inv(cfg, State(disk, None))
    ensures Inv(cfg, OpenState(cfg, disk))
    ensures OpenState(cfg, disk).live.Some? <==> ReadCheckpoints(cfg.codec, [], disk.checkpoints).Some?
    ensures LogRecords(cfg, OpenState(cfg, disk).disk) == LogRecords(cfg, disk)
    ensures OpenState(cfg, disk).disk.checkpoints == disk.checkpoints
  {
    RecoveredHead(cfg.codec, disk.audit);
    hide ReadLog, ReadCheckpoints, HonestCheckpoints, Whole, OpenRecoverable;
    DiskImpliesInv(cfg, OpenState(cfg, disk));
  }

  /** The head reported by a successful open is the head of the log it leaves. */
  lemma RecoveredHead(codec: Codec, data: string)
    requires OpenRecoverable(codec, data).Opened?
    ensures var o := OpenRecoverable(codec, data);
      Fresh(ReadLog(codec, o.data).records, o.seqNo, o.hash)
  {
    hide Read, Rescan;
  }

  /** One more checkpoint of the current head. */
  lemma CheckpointKeeps(cfg: Config, disk: Disk, l: Live, now: string, entropy: string)
    requires cfg.Lawful() && LiveInv(cfg, disk, l) && l.seqNo > l.mgr.anchorSeq && l.seqNo > 0 && Utf8.Valid(now)
    requires Int64(l.seqNo) && |EncodeCheckpoint(MakeCheckpoint(cfg, l, now, entropy))| < MAX_LINE
    requires Terminated(disk.checkpoints)
    ensures var (d, l') := WriteCheckpoint(cfg, disk, l, now, entropy);
      && LiveInv(cfg, d, l') && d.audit == disk.audit && l'.mgr.anchorSeq == l.seqNo == l'.seqNo
      && Terminated(d.checkpoints)
    ensures ReadCheckpoints(cfg.codec, [], WriteCheckpoint(cfg, disk, l, now, entropy).0.checkpoints)
            == Some(ReadCheckpoints(cfg.codec, [], disk.checkpoints).value + [MakeCheckpoint(cfg, l, now, entropy)])
  {
    hide ReadLog, ReadCheckpoints, HonestCheckpoints, NewCheckpoint, EncodeCheckpoint, Whole, Utf8.Valid,
      PrintableCheckpoint, Codec.Lawful, Terminated, EndsClean;
    var rs := ReadLog(cfg.codec, disk.audit).records;
    var cps := ReadCheckpoints(cfg.codec, [], disk.checkpoints).value;
    var c := MakeCheckpoint(cfg, l, now, entropy);
    HonestNext(cfg, rs, cps, disk.audit, l, now, entropy);
    Written(cfg.codec, disk.checkpoints, c);
    NewlineEnds(disk.checkpoints + EncodeCheckpoint(c));
    MakeFields(cfg, l, now, entropy);
    assert (cps + [c])[|cps|] == c;
  }

  lemma NewlineEnds(s: string)
    ensures EndsClean(s + "\n") && Terminated(s + "\n")
  {
  }

  lemma Written(codec: Codec, data: string, c: Checkpoint)
    requires codec.Lawful() && PrintableCheckpoint(c) && |EncodeCheckpoint(c)| < MAX_LINE
    requires Terminated(data) && ReadCheckpoints(codec, [], data).Some?
    ensures ReadCheckpoints(codec, [], data + EncodeCheckpoint(c) + "\n")
            == Some(ReadCheckpoints(codec, [], data).value + [c])
    ensures Terminated(data + EncodeCheckpoint(c) + "\n")
  {
    hide Codec.CheckpointLaws, EncodeCheckpoint, PrintableCheckpoint, ReadCheckpoints;
    CheckpointWritten(codec, data, c);
  }

  lemma HonestNext(
    cfg: Config, rs: seq<AuditRecord>, cps: seq<Checkpoint>, audit: string, l: Live, now: string, entropy: string)
    requires cfg.Lawful() && rs == ReadLog(cfg.codec, audit).records && HonestCheckpoints(cfg.codec, cfg.key, rs, cps)
    requires Fresh(rs, l.seqNo, l.hash) && l.mgr == ManagerOf(cps)
    requires l.seqNo > l.mgr.anchorSeq && l.seqNo > 0 && Utf8.Valid(now) && Int64(l.seqNo)
    ensures var c := MakeCheckpoint(cfg, l, now, entropy);
      HonestCheckpoints(cfg.codec, cfg.key, rs, cps + [c]) && PrintableCheckpoint(c)
  {
    hide ReadLog, HonestCheckpoints, NewCheckpoint, ValidChain, AllPrintable, Codec.RecordLaws, Codec.CheckpointLaws,
      Codec.HashLaws, KeyPair.Lawful, Utf8.Valid, PrintableCheckpoint;
    ReadLogValid(cfg.codec, audit);
    HeadSeqIsLength(cfg.codec, rs);
    FewCheckpoints(cfg.codec, cfg.key, rs, cps);
    NextCheckpointHonest(cfg.codec, cfg.key, rs, cps, now, entropy);
  }

  lemma MakeFields(cfg: Config, l: Live, now: string, entropy: string)
    ensures var c := MakeCheckpoint(cfg, l, now, entropy);
      c.anchorSeq == l.seqNo && c.anchorHash == l.hash
  {
  }

  /** Checkpoints never outnumber the records they anchor. */
  lemma {:induction false} FewCheckpoints(
    codec: Codec, key: Option<KeyPair>, rs: seq<AuditRecord>, cps: seq<Checkpoint>)
    requires HonestCheckpoints(codec, key, rs, cps)
    ensures |cps| <= ManagerOf(cps).anchorSeq <= |rs|
    decreases |cps|
  {
    if cps != [] {
      var n := |cps| - 1;
      assert HonestAt(codec, key, rs, cps, n);
      PrefixHonest(codec, key, rs, cps, n);
      hide HonestCheckpoints;
      FewCheckpoints(codec, key, rs, cps[..n]);
    }
  }

  lemma PrefixHonest(codec: Codec, key: Option<KeyPair>, rs: seq<AuditRecord>, cps: seq<Checkpoint>, n: nat)
    requires HonestCheckpoints(codec, key, rs, cps) && n <= |cps|
    ensures HonestCheckpoints(codec, key, rs, cps[..n])
  {
    hide PrintableCheckpoint, SignatureOk, Anchors, ManagerOf, CanonicalCheckpoint;
    forall i | 0 <= i < n ensures HonestAt(codec, key, rs, cps[..n], i) {
      assert HonestAt(codec, key, rs, cps, i);
      assert cps[..n][..i] == cps[..i];
    }
  }

  /** The record part of an append that finds the log newline-terminated. */
  lemma LineKeeps(cfg: Config, disk: Disk, l: Live, content: AuditRecord)
    requires cfg.codec.RecordLaws() && LiveInv(cfg, disk, l) && Terminated(disk.audit) && LineOk(cfg, l, content)
    ensures var disk' := WithLine(cfg, disk, l, content);
      && LiveInv(cfg, disk', Advanced(cfg, l, content)) && Terminated(disk'.audit)
      && ReadLog(cfg.codec, disk'.audit).records
         == ReadLog(cfg.codec, disk.audit).records + [Stamp(cfg.codec, content, l.seqNo, l.hash)]
  {
    hide ReadLog, ReadCheckpoints, HonestCheckpoints, Stamp, Encode, Codec.Normal, Codec.RecordLaws, BreakAt,
      StrippedBefore, EndsClean;
    var rs := ReadLog(cfg.codec, disk.audit).records;
    var r := Stamp(cfg.codec, content, l.seqNo, l.hash);
    AppendEnded(cfg.codec, disk.audit, content, l.seqNo, l.hash);
    NewlineEnds(disk.audit + Encode(r));
    MoreRecords(cfg.codec, cfg.key, rs, [r], ReadCheckpoints(cfg.codec, [], disk.checkpoints).value);
  }

  lemma AppendKeeps(cfg: Config, disk: Disk, l: Live, content: AuditRecord, now: string, entropy: string)
    requires cfg.Lawful() && LiveInv(cfg, disk, l)
    requires var op := Append(content, now, entropy);
      OpOk(cfg, State(disk, Some(l)), op) && Clear(cfg, State(disk, Some(l)), op)
    ensures var (d, l') := AppendState(cfg, disk, l, content, now, entropy);
      && LiveInv(cfg, d, l')
      && ReadLog(cfg.codec, d.audit).records
         == ReadLog(cfg.codec, disk.audit).records + [Stamp(cfg.codec, content, l.seqNo, l.hash)]
      && l'.seqNo - l'.mgr.anchorSeq < cfg.Cadence()
  {
    hide ReadLog, ReadCheckpoints, LiveInv, Stamp, Encode, EncodeCheckpoint, Codec.RecordLaws, Codec.CheckpointLaws,
      Codec.HashLaws, NewCheckpoint, Utf8.Valid, Terminated, LineOk;
    var disk', l' := WithLine(cfg, disk, l, content), Advanced(cfg, l, content);
    LineKeeps(cfg, disk, l, content);
    LineOkInt64(cfg, l, content);
    PositiveHead(cfg, disk, l);
    StampSeq(cfg.codec, content, l.seqNo, l.hash);
    if Due(cfg.Cadence(), l'.mgr, l'.seqNo) {
      CheckpointKeeps(cfg, disk', l', now, entropy);
    }
  }

  lemma LineOkInt64(cfg: Config, l: Live, content: AuditRecord)
    requires LineOk(cfg, l, content)
    ensures Int64(Advanced(cfg, l, content).seqNo)
  {
  }

  lemma StampSeq(codec: Codec, content: AuditRecord, seqNo: int, hash: string)
    ensures Stamp(codec, content, seqNo, hash).seqNo == seqNo + 1
  {
  }

  lemma PositiveHead(cfg: Config, disk: Disk, l: Live)
    requires cfg.codec.RecordLaws() && LiveInv(cfg, disk, l)
    ensures l.seqNo == |ReadLog(cfg.codec, disk.audit).records| && 0 <= l.mgr.anchorSeq <= l.seqNo
    ensures l.mgr.cpSeq == |ReadCheckpoints(cfg.codec, [], disk.checkpoints).value|
    ensures ReadCheckpoints(cfg.codec, [], disk.checkpoints).value == [] ==> l.mgr.anchorSeq == 0
  {
    hide ReadLog, ReadCheckpoints, ValidChain, AllPrintable, Codec.RecordLaws;
    var rs := ReadLog(cfg.codec, disk.audit).records;
    var cps := ReadCheckpoints(cfg.codec, [], disk.checkpoints).value;
    ReadLogValid(cfg.codec, disk.audit);
    HeadSeqIsLength(cfg.codec, rs);
    FewCheckpoints(cfg.codec, cfg.key, rs, cps);
    if cps != [] { assert HonestAt(cfg.codec, cfg.key, rs, cps, |cps| - 1); }
  }

  /** A close keeps the log, and leaves the last anchor at the head. */
  lemma CloseKeeps(cfg: Config, disk: Disk, l: Live, now: string, entropy: string)
    requires cfg.Lawful() && LiveInv(cfg, disk, l) && Int64(l.seqNo)
    requires var op := Close(now, entropy); OpOk(cfg, State(disk, Some(l)), op) && Clear(cfg, State(disk, Some(l)), op)
    ensures var d := CloseState(cfg, disk, l, now, entropy);
      && DiskInv(cfg, d.audit, d.checkpoints) && d.audit == disk.audit
      && ReadCheckpoints(cfg.codec, [], d.checkpoints).Some?
      && ManagerOf(ReadCheckpoints(cfg.codec, [], d.checkpoints).value).anchorSeq == l.seqNo
  {
    hide ReadLog, ReadCheckpoints, EncodeCheckpoint, HonestCheckpoints, Codec.RecordLaws, Codec.CheckpointLaws,
      Codec.HashLaws, NewCheckpoint, Utf8.Valid, Whole, EndsClean, Terminated;
    PositiveHead(cfg, disk, l);
    if FinalDue(l) { CheckpointKeeps(cfg, disk, l, now, entropy); }
  }

  /** A crash anywhere inside an append's line: recovery finds what was there before, or one whole record more. */
  lemma CrashKeeps(cfg: Config, disk: Disk, l: Live, content: AuditRecord, written: nat)
    requires cfg.Lawful() && LiveInv(cfg, disk, l)
    requires var op := Crash(content, written);
      OpOk(cfg, State(disk, Some(l)), op) && Clear(cfg, State(disk, Some(l)), op)
    ensures var st := Step(cfg, State(disk, Some(l)), Crash(content, written));
      && Inv(cfg, st) && st.disk.checkpoints == disk.checkpoints
      && LogRecords(cfg, st.disk) == ReadLog(cfg.codec, disk.audit).records
           + if written < |NextLine(cfg.codec, content, l.seqNo, l.hash)| then []
             else [Stamp(cfg.codec, content, l.seqNo, l.hash)]
  {
    hide ReadLog, ReadCheckpoints, HonestCheckpoints, Encode, Stamp, OpenRecoverable, Whole, EndsClean, LiveInv,
      DiskInv, Codec.RecordLaws, Codec.CheckpointLaws, Codec.HashLaws, LineOk, Writable, Terminated, Inv, LogRecords;
    var r := Stamp(cfg.codec, content, l.seqNo, l.hash);
    var line := Encode(r);
    LineNonempty(cfg, l, content);
    CrashBytes(line, written);
    var st := Step(cfg, State(disk, Some(l)), Crash(content, written));
    assert st.disk.audit == disk.audit + Take(line + "\n", written);
    if written == 0 {
      assert st.disk.audit == disk.audit;
      DiskOfLive(cfg, disk, l);
      DiskImpliesInv(cfg, st);
    } else if written > |line| {
      LineKeeps(cfg, disk, l, content);
      assert st.disk.audit == disk.audit + line + "\n";
      DiskOfLive(cfg, st.disk, Advanced(cfg, l, content));
      DiskImpliesInv(cfg, st);
    } else if written == |line| {
      UnendedKeeps(cfg, disk, l, content);
      DiskImpliesInv(cfg, st);
    } else {
      TornKeeps(cfg, disk, l, r, written);
    }
  }

  lemma CrashBytes(line: string, written: nat)
    ensures Take(line + "\n", written)
         == if written == 0 then "" else if written > |line| then line + "\n" else line[..written]
    ensures written == |line| ==> line[..written] == line
  {
  }

  lemma LineNonempty(cfg: Config, l: Live, content: AuditRecord)
    requires LineOk(cfg, l, content)
    ensures Writable(Stamp(cfg.codec, content, l.seqNo, l.hash)) && NextLine(cfg.codec, content, l.seqNo, l.hash) != ""
  {
    PrintableWritable(Stamp(cfg.codec, content, l.seqNo, l.hash));
    EncodeOneLine(Stamp(cfg.codec, content, l.seqNo, l.hash));
  }

  /** The whole line without its newline: one record more, and a log that is whole but not terminated. */
  lemma UnendedKeeps(cfg: Config, disk: Disk, l: Live, content: AuditRecord)
    requires cfg.Lawful() && LiveInv(cfg, disk, l) && Terminated(disk.audit) && LineOk(cfg, l, content)
    ensures var audit := disk.audit + NextLine(cfg.codec, content, l.seqNo, l.hash);
      && DiskInv(cfg, audit, disk.checkpoints) && !Terminated(audit)
      && ReadLog(cfg.codec, audit).records
         == ReadLog(cfg.codec, disk.audit).records + [Stamp(cfg.codec, content, l.seqNo, l.hash)]
  {
    hide ReadLog, ReadCheckpoints, HonestCheckpoints, Encode, Stamp, EndsClean, Codec.RecordLaws, Codec.CheckpointLaws,
      Codec.HashLaws, Codec.Normal, Terminated, Whole, OpenRecoverable;
    var rs := ReadLog(cfg.codec, disk.audit).records;
    var r := Stamp(cfg.codec, content, l.seqNo, l.hash);
    CompleteLineAccepted(cfg.codec, disk.audit, content);
    MoreRecords(cfg.codec, cfg.key, rs, [r], ReadCheckpoints(cfg.codec, [], disk.checkpoints).value);
  }

  lemma TornKeeps(cfg: Config, disk: Disk, l: Live, r: AuditRecord, written: nat)
    requires cfg.codec.RecordLaws() && LiveInv(cfg, disk, l) && Terminated(disk.audit)
    requires Writable(r) && written < |Encode(r)|
    ensures var d := disk.(audit := disk.audit + Encode(r)[..written]);
      && Inv(cfg, State(d, None)) && LogRecords(cfg, d) == ReadLog(cfg.codec, disk.audit).records
  {
    hide ReadLog, ReadCheckpoints, HonestCheckpoints, Encode, EndsClean, Codec.RecordLaws, Writable, Terminated, Whole,
      OpenRecoverable;
    CrashSafety(cfg.codec, disk.audit, r, written);
  }

  /** A crash inside a checkpoint write: the file is as before, unreadable, or holds the whole checkpoint. */
  lemma CheckpointCrash(cfg: Config, disk: Disk, l: Live, now: string, entropy: string, written: nat)
    requires cfg.Lawful() && LiveInv(cfg, disk, l) && l.seqNo > l.mgr.anchorSeq && l.seqNo > 0 && Int64(l.seqNo)
    requires CheckpointLineOk(cfg, l, now, entropy) && (written > 0 ==> Terminated(disk.checkpoints))
    ensures var line := EncodeCheckpoint(MakeCheckpoint(cfg, l, now, entropy));
      var after := disk.checkpoints + Take(CheckpointText(cfg, l, now, entropy), written);
      && DiskInv(cfg, disk.audit, after)
      && (ReadCheckpoints(cfg.codec, [], after).Some? <==> written == 0 || written >= |line|)
  {
    hide ReadLog, ReadCheckpoints, HonestCheckpoints, NewCheckpoint, EncodeCheckpoint, Whole, Utf8.Valid,
      PrintableCheckpoint, Terminated, OneLine, Codec.RecordLaws, Codec.CheckpointLaws, Codec.HashLaws, KeyPair.Lawful,
      ManagerOf, Fresh;
    var c := MakeCheckpoint(cfg, l, now, entropy);
    var rs := ReadLog(cfg.codec, disk.audit).records;
    var cps := ReadCheckpoints(cfg.codec, [], disk.checkpoints).value;
    var line := EncodeCheckpoint(c);
    HonestNext(cfg, rs, cps, disk.audit, l, now, entropy);
    EncodeCheckpointNoControl(c);
    var left := Take(line + "\n", written);
    if written == 0 {
      assert left == "" && disk.checkpoints + left == disk.checkpoints;
    } else if written > |line| {
      assert left == line + "\n" && disk.checkpoints + left == disk.checkpoints + line + "\n";
      Written(cfg.codec, disk.checkpoints, c);
      NewlineEnds(disk.checkpoints + line);
    } else {
      assert left == line[..written];
      TornCheckpointUnreadable(cfg.codec, disk.checkpoints, c, written);
      assert left[|left| - 1] as int >= 0x20;
      assert (disk.checkpoints + left)[|disk.checkpoints + left| - 1] == left[|left| - 1];
      if written == |line| {
        assert left == line;
        WholeCheckpoint(cfg.codec, disk.checkpoints, c);
      }
    }
  }

  lemma WholeCheckpoint(codec: Codec, data: string, c: Checkpoint)
    requires codec.CheckpointLaws() && PrintableCheckpoint(c) && |EncodeCheckpoint(c)| < MAX_LINE
    requires Terminated(data) && ReadCheckpoints(codec, [], data).Some?
    ensures ReadCheckpoints(codec, [], data + EncodeCheckpoint(c)) == Some(ReadCheckpoints(codec, [], data).value + [c])
  {
    hide EncodeCheckpoint, PrintableCheckpoint, ReadCheckpoints, OneLine;
    EncodeCheckpointOneLine(c);
    CheckpointLine(codec, data, EncodeCheckpoint(c));
  }

  /******* Runs *******/

  lemma StepKeeps(cfg: Config, st: State, op: Op)
    requires cfg.Lawful() && Inv(cfg, st) && OpOk(cfg, st, op) && Clear(cfg, st, op)
    requires st.live.Some? ==> Int64(st.live.value.seqNo)
    ensures Inv(cfg, Step(cfg, st, op))
    ensures |LogRecords(cfg, Step(cfg, st, op).disk)| == |LogRecords(cfg, st.disk)| + Adds(cfg, st, op)
    ensures LogRecords(cfg, st.disk) <= LogRecords(cfg, Step(cfg, st, op).disk)
  {
    hide ReadLog, ReadCheckpoints, HonestCheckpoints, OpenRecoverable, Codec.RecordLaws, Codec.CheckpointLaws,
      Codec.HashLaws, Encode, Stamp, EncodeCheckpoint, Whole, AppendState, CloseState, OpenState, NewCheckpoint,
      Utf8.Valid, LiveInv, DiskInv, LineOk, CheckpointLineOk, Terminated, Inv, LogRecords;
    if st.live.None? {
      if op.Open? {
        assert st == State(st.disk, None);
        OpenKeeps(cfg, st.disk);
      }
    } else {
      var l := st.live.value;
      LiveOfInv(cfg, st);
      DiskOfLive(cfg, st.disk, l);
      DiskImpliesInv(cfg, st);
      match op
      case Open =>
      case Append(content, now, entropy) =>
        AppendKeeps(cfg, st.disk, l, content, now, entropy);
        var (d, l') := AppendState(cfg, st.disk, l, content, now, entropy);
        DiskOfLive(cfg, d, l');
        DiskImpliesInv(cfg, Step(cfg, st, op));
      case Close(now, entropy) =>
        CloseKeeps(cfg, st.disk, l, now, entropy);
        DiskImpliesInv(cfg, Step(cfg, st, op));
      case Crash(content, written) =>
        CrashKeeps(cfg, st.disk, l, content, written);
      case CrashInCheckpoint(content, now, entropy, written) =>
        CheckpointCrashKeeps(cfg, st.disk, l, content, now, entropy, written);
        DiskImpliesInv(cfg, Step(cfg, st, op));
      case CrashInClose(now, entropy, written) =>
        CloseCrashKeeps(cfg, st.disk, l, now, entropy, written);
        DiskImpliesInv(cfg, Step(cfg, st, op));
    }
  }

  lemma LiveOfInv(cfg: Config, st: State)
    requires Inv(cfg, st) && st.live.Some?
    ensures LiveInv(cfg, st.disk, st.live.value)
  {
    hide LiveInv, DiskInv;
  }

  lemma DiskOfLive(cfg: Config, disk: Disk, l: Live)
    requires LiveInv(cfg, disk, l)
    ensures DiskInv(cfg, disk.audit, disk.checkpoints)
  {
    hide DiskInv;
  }

  lemma CheckpointCrashKeeps(
    cfg: Config, disk: Disk, l: Live, content: AuditRecord, now: string, entropy: string, written: nat)
    requires cfg.Lawful() && LiveInv(cfg, disk, l)
    requires var op := CrashInCheckpoint(content, now, entropy, written);
      OpOk(cfg, State(disk, Some(l)), op) && Clear(cfg, State(disk, Some(l)), op)
    ensures var d := Step(cfg, State(disk, Some(l)), CrashInCheckpoint(content, now, entropy, written)).disk;
      && DiskInv(cfg, d.audit, d.checkpoints)
      && ReadLog(cfg.codec, d.audit).records
         == ReadLog(cfg.codec, disk.audit).records + [Stamp(cfg.codec, content, l.seqNo, l.hash)]
  {
    hide ReadLog, ReadCheckpoints, LiveInv, DiskInv, Stamp, Encode, EncodeCheckpoint, Codec.RecordLaws,
      Codec.CheckpointLaws, Codec.HashLaws, NewCheckpoint, Utf8.Valid, Terminated, Take, LineOk;
    var disk', l' := WithLine(cfg, disk, l, content), Advanced(cfg, l, content);
    LineKeeps(cfg, disk, l, content);
    LineOkInt64(cfg, l, content);
    PositiveHead(cfg, disk, l);
    StampSeq(cfg.codec, content, l.seqNo, l.hash);
    DiskOfLive(cfg, disk', l');
    if Due(cfg.Cadence(), l'.mgr, l'.seqNo) { CheckpointCrash(cfg, disk', l', now, entropy, written); }
  }

  lemma CloseCrashKeeps(cfg: Config, disk: Disk, l: Live, now: string, entropy: string, written: nat)
    requires cfg.Lawful() && LiveInv(cfg, disk, l) && Int64(l.seqNo)
    requires var op := CrashInClose(now, entropy, written);
      OpOk(cfg, State(disk, Some(l)), op) && Clear(cfg, State(disk, Some(l)), op)
    ensures var d := Step(cfg, State(disk, Some(l)), CrashInClose(now, entropy, written)).disk;
      DiskInv(cfg, d.audit, d.checkpoints) && d.audit == disk.audit
  {
    hide ReadLog, ReadCheckpoints, DiskInv, LiveInv, EncodeCheckpoint, Codec.RecordLaws, Codec.CheckpointLaws,
      Codec.HashLaws, NewCheckpoint, Utf8.Valid, Terminated, Take;
    PositiveHead(cfg, disk, l);
    DiskOfLive(cfg, disk, l);
    if FinalDue(l) { CheckpointCrash(cfg, disk, l, now, entropy, written); }
  }

  /** A live head is a record number and hence an int64. */
  lemma HeadInt64(cfg: Config, st: State)
    requires cfg.Lawful() && Inv(cfg, st) && st.live.Some?
    ensures Int64(st.live.value.seqNo)
  {
    hide Read, ReadCheckpoints, HonestCheckpoints, OpenRecoverable;
    var rs := ReadLog(cfg.codec, st.disk.audit).records;
    ReadLogValid(cfg.codec, st.disk.audit);
    if rs != [] { assert PrintableRecord(Last(rs)); }
  }

  lemma EmptyInv(cfg: Config)
    ensures Inv(cfg, EMPTY) && LogRecords(cfg, EMPTY.disk) == []
  {
  }

  lemma {:induction false} RunKeeps(cfg: Config, ops: seq<Op>)
    requires cfg.Lawful() && RunOk(cfg, EMPTY, ops)
    ensures Inv(cfg, Run(cfg, EMPTY, ops))
    ensures |LogRecords(cfg, Run(cfg, EMPTY, ops).disk)| == Appended(cfg, EMPTY, ops)
    decreases |ops|
  {
    hide Inv, OpOk, Clear, Step, Adds, LogRecords;
    if ops == [] {
      EmptyInv(cfg);
    } else {
      var init, op := ops[..|ops| - 1], ops[|ops| - 1];
      RunKeeps(cfg, init);
      var st := Run(cfg, EMPTY, init);
      if st.live.Some? { HeadInt64(cfg, st); }
      StepKeeps(cfg, st, op);
    }
  }

  /**
   Honest runs verify: after any run of opens, appends, closes, crashes at any byte and reopens in which every write
   finds its file newline-terminated, the verifier reports on the recovered log and the checkpoint file exactly when
   the checkpoint file can be read; and as soon as that holds one checkpoint it finds no issue under the matching key,
   the head at the number of appended records and the latest anchor no further.
   */
  lemma HonestRunVerifies(cfg: Config, ops: seq<Op>)
    requires cfg.Lawful() && RunOk(cfg, EMPTY, ops)
    ensures var disk := Run(cfg, EMPTY, ops).disk;
      var cps := ReadCheckpoints(cfg.codec, [], disk.checkpoints);
      var report := ReportOf(cfg.codec, cfg.Pub(), Some(Recovered(cfg, disk)), Some(disk.checkpoints));
      && (report.Some? <==> cps.Some?)
      && (cps.Some? && cps.value != [] ==>
            && report.value.issues == []
            && report.value.headSeq == report.value.recordCount == Appended(cfg, EMPTY, ops)
            && 0 < report.value.anchorSeq <= report.value.headSeq)
    ensures Run(cfg, EMPTY, ops).live.Some? ==>
              Recovered(cfg, Run(cfg, EMPTY, ops).disk) == Run(cfg, EMPTY, ops).disk.audit
  {
    var st := Run(cfg, EMPTY, ops);
    RunKeeps(cfg, ops);
    hide Run, RunOk, Appended, ReadLog, ReadCheckpoints, ReportOf, OpenRecoverable, HonestCheckpoints, Whole, EndsClean;
    ReportExists(cfg, Recovered(cfg, st.disk), st.disk.checkpoints);
    var cps := ReadCheckpoints(cfg.codec, [], st.disk.checkpoints);
    if cps.Some? && cps.value != [] { DiskVerifies(cfg, Recovered(cfg, st.disk), st.disk.checkpoints); }
    if st.live.Some? { DiskImpliesInv(cfg, st); }
  }

  lemma ReportExists(cfg: Config, audit: string, checkpoints: string)
    ensures ReportOf(cfg.codec, cfg.Pub(), Some(audit), Some(checkpoints)).Some? <==>
            ReadCheckpoints(cfg.codec, [], checkpoints).Some?
  {
    hide ReadLog, ReadCheckpoints, ChainIssues, GapIssues, AnchorIssues;
  }

  lemma DiskVerifies(cfg: Config, audit: string, checkpoints: string)
    requires cfg.Lawful() && DiskInv(cfg, audit, checkpoints)
    requires var cps := ReadCheckpoints(cfg.codec, [], checkpoints); cps.Some? && cps.value != []
    ensures var report := ReportOf(cfg.codec, cfg.Pub(), Some(audit), Some(checkpoints));
      && report.Some? && report.value.issues == []
      && report.value.headSeq == report.value.recordCount == |ReadLog(cfg.codec, audit).records|
      && 0 < report.value.anchorSeq <= report.value.headSeq
  {
    hide Read, ReadCheckpoints, ValidChain, AllPrintable, CheckpointsOk, ChainIssues, GapIssues, AnchorIssues,
      StrippedBefore, Codec.RecordLaws, Codec.CheckpointLaws;
    var rs := ReadLog(cfg.codec, audit).records;
    var cps := ReadCheckpoints(cfg.codec, [], checkpoints).value;
    ReadLogValid(cfg.codec, audit);
    HeadSeqIsLength(cfg.codec, rs);
    HonestVerify(cfg.codec, cfg.key, rs, cps);
    HonestAnchors(cfg.codec, cfg.key, rs, cps, |cps| - 1);
    VerifiesExactlyWhen(cfg.codec, cfg.Pub(), Some(audit), Some(checkpoints));
  }

  /** What a run leaves: a chain, and checkpoints that anchor its records. */
  lemma RunHonest(cfg: Config, ops: seq<Op>)
    requires cfg.Lawful() && RunOk(cfg, EMPTY, ops)
    ensures var disk := Run(cfg, EMPTY, ops).disk;
      var cps := ReadCheckpoints(cfg.codec, [], disk.checkpoints);
      && ValidChain(cfg.codec, LogRecords(cfg, disk)) && AllPrintable(LogRecords(cfg, disk)) && cfg.codec.Lawful()
      && (cps.Some? ==> HonestCheckpoints(cfg.codec, cfg.key, LogRecords(cfg, disk), cps.value))
  {
    RunKeeps(cfg, ops);
    hide Run, RunOk, ReadLog, ReadCheckpoints, OpenRecoverable, HonestCheckpoints, Whole, EndsClean, ValidChain,
      AllPrintable, LiveInv, Codec.RecordLaws, Codec.CheckpointLaws, Codec.HashLaws, KeyPair.Lawful;
    ReadLogValid(cfg.codec, Recovered(cfg, Run(cfg, EMPTY, ops).disk));
  }

  /**
   What a run has anchored stays pinned: whatever log and checkpoint file verify later, with any key, if the last
   checkpoint hash is that of the run's j-th checkpoint, the checkpoints are the run's up to j and the log starts with
   the run's records up to that anchor - unless the hash collides on data at hand.
   */
  lemma RunIsPinned(cfg: Config, ops: seq<Op>, j: nat, pub: Option<Verify>, audit: string, checkpoints: string)
    requires cfg.Lawful() && RunOk(cfg, EMPTY, ops)
    requires var run := ReadCheckpoints(cfg.codec, [], Run(cfg, EMPTY, ops).disk.checkpoints);
      run.Some? && j < |run.value|
    requires ReportOf(cfg.codec, pub, Some(audit), Some(checkpoints)).Some?
    requires ReportOf(cfg.codec, pub, Some(audit), Some(checkpoints)).value.issues == []
    requires ReadLog(cfg.codec, audit).records != []
    requires var cps := ReadCheckpoints(cfg.codec, [], checkpoints);
      && cps.Some? && cps.value != []
      && cps.value[|cps.value| - 1].hash
         == ReadCheckpoints(cfg.codec, [], Run(cfg, EMPTY, ops).disk.checkpoints).value[j].hash
    ensures var disk := Run(cfg, EMPTY, ops).disk;
      var honest, ds := LogRecords(cfg, disk), ReadCheckpoints(cfg.codec, [], disk.checkpoints).value;
      var rs, cps := ReadLog(cfg.codec, audit).records, ReadCheckpoints(cfg.codec, [], checkpoints).value;
      || CheckpointCollision(cfg.codec, cps, ds)
      || CollisionBetween(cfg.codec, rs, honest)
      || (&& |cps| == j + 1 && SameCheckpoints(cps, ds, j + 1)
          && AgreesUpTo(rs, honest, ds[j].anchorSeq)
          && forall i :: 0 <= i <= j ==> Anchors(rs, cps[i]))
  {
    hide *;
    RunHonest(cfg, ops);
    var disk := Run(cfg, EMPTY, ops).disk;
    LatestAnchorSuffices(cfg.codec, cfg.key, LogRecords(cfg, disk),
      ReadCheckpoints(cfg.codec, [], disk.checkpoints).value, j, pub, audit, checkpoints);
  }
}
