/** What callers hand in is what the log holds: contents and times come back from the files as they were given. */
module Carrying {
  import opened Records
  import opened Chain
  import opened ChainTheorems
  import opened Appending
  import opened Checkpoints
  import opened Runs
  import opened Cadence
  import opened Sharing
  import Json
  import Utf8
  import Verifier

  /******* One append *******/

  /** A stamped record is the caller's content with the three chain fields. */
  lemma StampCarries(codec: Codec, content: AuditRecord, seqNo: int, hash: string)
    ensures var r := Stamp(codec, content, seqNo, hash);
      && r.timestamp == content.timestamp && r.eventType == content.eventType && r.actor == content.actor
      && r.deploymentMode == content.deploymentMode && r.payload == content.payload && r.hosted == content.hosted
      && r.seqNo == seqNo + 1 && r.prevHash == hash && r.recordHash == codec.sha(Canonical(r))
  {
    hide Canonical;
    StampHashed(codec, content, seqNo, hash);
  }

  /** An append after which the log can be read has put exactly the caller's content behind the old records. */
  lemma AppendCarries(codec: Codec, data: string, content: AuditRecord, seqNo: int, hash: string)
    requires codec.RecordLaws() && ReadLog(codec, data).fault.None? && codec.Normal(Stamp(codec, content, seqNo, hash))
    requires ReadLog(codec, data + NextLine(codec, content, seqNo, hash) + "\n").fault.None?
    ensures var before := ReadLog(codec, data).records;
      var after := ReadLog(codec, data + NextLine(codec, content, seqNo, hash) + "\n").records;
      && |after| == |before| + 1 && before <= after
      && var r := after[|before|];
      && r.timestamp == content.timestamp && r.eventType == content.eventType && r.actor == content.actor
      && r.deploymentMode == content.deploymentMode && r.payload == content.payload && r.hosted == content.hosted
      && r.seqNo == |before| + 1 && r.prevHash == HeadHash(before) && r.recordHash == codec.sha(Canonical(r))
  {
    hide ReadLog, NextLine, Stamp, Codec.RecordLaws, Codec.Normal, BreakAt, StrippedBefore, LastLine, DropCR, Canonical,
      ValidChain;
    var before := ReadLog(codec, data).records;
    AppendOutcome(codec, data, content, seqNo, hash);
    StampCarries(codec, content, seqNo, hash);
    Verifier.ChainOf(codec, data);
    HeadSeqIsLength(codec, before);
  }

  /******* Whole runs *******/

  /** The contents whose record a step has put into the log. */
  function Given(cfg: Config, st: State, op: Op): seq<AuditRecord> {
    if Adds(cfg, st, op) == 0 then []
    else match op
      case Append(content, _, _) => [content]
      case Crash(content, _) => [content]
      case CrashInCheckpoint(content, _, _, _) => [content]
      case _ => []
  }

  function AllGiven(cfg: Config, ops: seq<Op>): seq<AuditRecord> {
    if ops == [] then []
    else
      var init := ops[..|ops| - 1];
      AllGiven(cfg, init) + Given(cfg, Run(cfg, EMPTY, init), ops[|ops| - 1])
  }

  /** Records that carry given contents, one each, in order. */
  ghost predicate Carried(rs: seq<AuditRecord>, contents: seq<AuditRecord>) {
    && |rs| == |contents|
    && forall k :: 0 <= k < |rs| ==>
         && rs[k].timestamp == contents[k].timestamp && rs[k].eventType == contents[k].eventType
         && rs[k].actor == contents[k].actor && rs[k].deploymentMode == contents[k].deploymentMode
         && rs[k].payload == contents[k].payload && rs[k].hosted == contents[k].hosted
  }

  lemma CarriedSnoc(rs: seq<AuditRecord>, contents: seq<AuditRecord>, r: AuditRecord, content: AuditRecord)
    requires Carried(rs, contents)
    requires r.timestamp == content.timestamp && r.eventType == content.eventType && r.actor == content.actor
    requires r.deploymentMode == content.deploymentMode && r.payload == content.payload && r.hosted == content.hosted
    ensures Carried(rs + [r], contents + [content])
  {
  }

  /** The records after one step: the old ones, and the stamped content of a step that adds one. */
  lemma StepRecords(cfg: Config, st: State, op: Op)
    requires cfg.Lawful() && Inv(cfg, st) && OpOk(cfg, st, op) && Clear(cfg, st, op)
    requires st.live.Some? ==> Int64(st.live.value.seqNo)
    ensures var before, after := LogRecords(cfg, st.disk), LogRecords(cfg, Step(cfg, st, op).disk);
      var given := Given(cfg, st, op);
      if given == [] then after == before
      else |given| == 1 && st.live.Some?
           && after == before + [Stamp(cfg.codec, given[0], st.live.value.seqNo, st.live.value.hash)]
  {
    hide ReadLog, ReadCheckpoints, HonestCheckpoints, OpenRecoverable, Codec.RecordLaws, Codec.CheckpointLaws,
      Codec.HashLaws, Encode, Stamp, EncodeCheckpoint, Whole, AppendState, CloseState, OpenState, NewCheckpoint,
      Utf8.Valid, LiveInv, DiskInv, LineOk, CheckpointLineOk, Terminated, Inv, LogRecords;
    StepKeeps(cfg, st, op);
    if st.live.Some? {
      var l := st.live.value;
      LiveOfInv(cfg, st);
      DiskOfLive(cfg, st.disk, l);
      DiskImpliesInv(cfg, st);
      match op
      case Append(content, now, entropy) =>
        AppendKeeps(cfg, st.disk, l, content, now, entropy);
        var (d, l') := AppendState(cfg, st.disk, l, content, now, entropy);
        DiskOfLive(cfg, d, l');
        DiskImpliesInv(cfg, Step(cfg, st, op));
      case Crash(content, written) =>
        CrashKeeps(cfg, st.disk, l, content, written);
      case CrashInCheckpoint(content, now, entropy, written) =>
        CheckpointCrashKeeps(cfg, st.disk, l, content, now, entropy, written);
        DiskImpliesInv(cfg, Step(cfg, st, op));
      case _ =>
    }
  }

  /**
   After every run the k-th record of the log carries every field of the k-th content that arrived; its number is k, its
   predecessor's hash that of record k - 1 and its own hash that of its canonical bytes.
   */
  lemma {:induction false} RunCarries(cfg: Config, ops: seq<Op>)
    requires cfg.Lawful() && RunOk(cfg, EMPTY, ops)
    ensures var rs := LogRecords(cfg, Run(cfg, EMPTY, ops).disk);
      Carried(rs, AllGiven(cfg, ops)) && ValidChain(cfg.codec, rs)
    decreases |ops|
  {
    hide Inv, OpOk, Clear, Step, Given, LogRecords, Carried, ValidChain, Codec.Lawful, KeyPair.Lawful, Stamp;
    RunHonest(cfg, ops);
    if ops == [] {
      NothingCarried(cfg);
    } else {
      var init, op := ops[..|ops| - 1], ops[|ops| - 1];
      RunCarries(cfg, init);
      RunKeeps(cfg, init);
      var st := Run(cfg, EMPTY, init);
      if st.live.Some? { HeadInt64(cfg, st); }
      StepRecords(cfg, st, op);
      var given, rs := Given(cfg, st, op), LogRecords(cfg, st.disk);
      if given == [] {
        assert AllGiven(cfg, ops) == AllGiven(cfg, init);
      } else {
        var l := st.live.value;
        StampCarries(cfg.codec, given[0], l.seqNo, l.hash);
        CarriedSnoc(rs, AllGiven(cfg, init), Stamp(cfg.codec, given[0], l.seqNo, l.hash), given[0]);
        assert given == [given[0]];
      }
    }
  }

  lemma NothingCarried(cfg: Config)
    ensures Carried(LogRecords(cfg, EMPTY.disk), [])
  {
  }

  /******* Several writers *******/

  /** What several writers have chained carries their contents in the order of the appends. */
  lemma {:induction false} ChainedCarries(codec: Codec, rs: seq<AuditRecord>, contents: seq<AuditRecord>)
    ensures var all := Chained(codec, rs, contents);
      rs <= all && Carried(all[|rs|..], contents)
    decreases |contents|
  {
    hide Carried, Stamp;
    if contents == [] {
      NoneCarried();
      assert rs[|rs|..] == [];
    } else {
      var n := |contents| - 1;
      var init := contents[..n];
      ChainedCarries(codec, rs, init);
      var before := Chained(codec, rs, init);
      var r := Stamp(codec, contents[n], HeadSeq(before), HeadHash(before));
      StampCarries(codec, contents[n], HeadSeq(before), HeadHash(before));
      CarriedSnoc(before[|rs|..], init, r, contents[n]);
      assert (before + [r])[|rs|..] == before[|rs|..] + [r] && init + [contents[n]] == contents;
    }
  }

  lemma NoneCarried()
    ensures Carried([], [])
  {
  }

  /******* Checkpoints *******/

  /** A checkpoint that was written is read as made: of this head, at this time, behind the last one, and signed. */
  lemma CheckpointCarries(cfg: Config, disk: Disk, l: Live, now: string, entropy: string)
    requires cfg.Lawful() && LiveInv(cfg, disk, l) && l.seqNo > l.mgr.anchorSeq && l.seqNo > 0 && Int64(l.seqNo)
    requires CheckpointLineOk(cfg, l, now, entropy) && Terminated(disk.checkpoints)
    ensures var before := Checkpointed(cfg, disk);
      var after := Checkpointed(cfg, WriteCheckpoint(cfg, disk, l, now, entropy).0);
      && before.Some? && after.Some? && |after.value| == |before.value| + 1 && before.value <= after.value
      && var c := after.value[|before.value|];
      && c.timestamp == now && c.anchorSeq == l.seqNo && c.anchorHash == l.hash && c.seqNo == |before.value| + 1
      && c.prevHash == (if before.value == [] then "" else before.value[|before.value| - 1].hash)
      && c.hash == cfg.codec.sha(CanonicalCheckpoint(c))
      && c.signature == (if cfg.key.None? then "" else cfg.key.value.sign(cfg.codec.sha(c.hash), entropy))
  {
    hide ReadLog, ReadCheckpoints, HonestCheckpoints, Whole, EndsClean, Fresh, Codec.RecordLaws, Codec.CheckpointLaws,
      Codec.HashLaws, KeyPair.Lawful, Utf8.Valid, NewCheckpoint, EncodeCheckpoint, Terminated, CanonicalCheckpoint;
    PositiveHead(cfg, disk, l);
    CheckpointKeeps(cfg, disk, l, now, entropy);
    MadeAs(cfg, l, now, entropy);
  }

  lemma MadeAs(cfg: Config, l: Live, now: string, entropy: string)
    ensures var c := MakeCheckpoint(cfg, l, now, entropy);
      && c.timestamp == now && c.anchorSeq == l.seqNo && c.anchorHash == l.hash && c.seqNo == l.mgr.cpSeq + 1
      && c.prevHash == l.mgr.prevHash && c.hash == cfg.codec.sha(CanonicalCheckpoint(c))
      && c.signature == (if cfg.key.None? then "" else cfg.key.value.sign(cfg.codec.sha(c.hash), entropy))
  {
    hide Json.Print;
  }
}
