/** The audit writer and its checkpoint manager as objects over two files. */
module Writer {
  import opened Base
  import opened Records
  import opened Chain
  import opened ChainTheorems
  import opened Appending
  import opened Checkpoints
  import opened Runs

  /** A file on disk. */
  class LogFile {
    var data: string

    constructor (d: string)
      ensures data == d
    {
      data := d;
    }
  }

  /** How a write-and-sync ends: complete, after so many bytes, or complete but not synced. */
  datatype Io = Done | WriteFails(written: nat) | SyncFails

  /** The bytes of s that reach the file. */
  function Reaching(io: Io, s: string): string {
    match io
    case WriteFails(n) => if n < |s| then s[..n] else s
    case _ => s
  }

  class CheckpointManager {
    var file: LogFile?
    var cpSeq: int
    var prevHash: string
    var lastAnchorSeq: int
    var lastAnchorHash: string
    const cadence: int
    const codec: Codec
    const key: Option<KeyPair>

    constructor (codec: Codec, key: Option<KeyPair>, cadence: int, f: LogFile)
      ensures this.codec == codec && this.key == key && this.cadence == cadence && file == f
      ensures Snapshot() == Manager(0, "", 0, "")
    {
      this.codec, this.key, this.cadence, file := codec, key, cadence, f;
      cpSeq, prevHash, lastAnchorSeq, lastAnchorHash := 0, "", 0, "";
    }

    function Snapshot(): Manager
      reads this
    {
      Manager(cpSeq, prevHash, lastAnchorSeq, lastAnchorHash)
    }

    /** `replay`: the state after the last checkpoint of the file. */
    method Replay() returns (ok: bool)
      requires file != null && Snapshot() == Manager(0, "", 0, "")
      modifies this
      ensures file == old(file)
      ensures ok == ReadCheckpoints(codec, [], file.data).Some?
      ensures ok ==> Snapshot() == ManagerOf(ReadCheckpoints(codec, [], file.data).value)
    {
      var rest := file.data;
      ghost var cps: seq<Checkpoint> := [];
      while rest != "" && |Line(rest)| < MAX_LINE
        invariant file == old(file) && Snapshot() == ManagerOf(cps)
        invariant ReadCheckpoints(codec, cps, rest) == ReadCheckpoints(codec, [], file.data)
        decreases |rest|
      {
        var line := Token(rest);
        rest := Rest(rest);
        if line != "" {
          var c := codec.decodeCheckpoint(line);
          if c.None? {
            return false;
          }
          cps := cps + [c.value];
          cpSeq, prevHash := c.value.seqNo, c.value.hash;
          lastAnchorSeq, lastAnchorHash := c.value.anchorSeq, c.value.anchorHash;
        }
      }
      ok := rest == "";
    }

    predicate ShouldCheckpoint(headSeq: int)
      reads this
    {
      cadence > 0 && headSeq >= lastAnchorSeq + cadence
    }

    /** `CreateCheckpoint`: state moves only after a complete, synced write. */
    method CreateCheckpoint(headSeq: int, headHash: string, now: string, entropy: string, io: Io) returns (ok: bool)
      requires file != null
      modifies this, file
      ensures file == old(file)
      ensures ok <==> headSeq >= old(lastAnchorSeq) && io.Done?
      ensures var c := NewCheckpoint(codec, key, old(Snapshot()), headSeq, headHash, now, entropy);
        && file.data == old(file.data)
                        + (if headSeq < old(lastAnchorSeq) then "" else Reaching(io, EncodeCheckpoint(c) + "\n"))
        && Snapshot() == if ok then Manager(c.seqNo, c.hash, headSeq, headHash) else old(Snapshot())
    {
      if headSeq < lastAnchorSeq {
        return false;
      }
      var cp := Checkpoint(cpSeq + 1, headSeq, headHash, prevHash, "", "", now);
      var h := codec.CheckpointHash(cp);
      cp := cp.(hash := h);
      if key.Some? {
        cp := cp.(signature := key.value.sign(codec.sha(h), entropy));
      }
      file.data := file.data + Reaching(io, EncodeCheckpoint(cp) + "\n");
      if !io.Done? {
        return false;
      }
      cpSeq, prevHash, lastAnchorSeq, lastAnchorHash := cp.seqNo, cp.hash, headSeq, headHash;
      ok := true;
    }

    method LatestAnchorOf() returns (headSeq: int)
      ensures headSeq == LatestAnchor(Snapshot())
    {
      headSeq := if cpSeq == 0 then 0 else lastAnchorSeq;
    }
  }

  class AuditWriter {
    var file: LogFile?
    var seqNo: int
    var hash: string
    var checkpointMgr: CheckpointManager?
    const codec: Codec

    constructor (codec: Codec, f: LogFile)
      ensures this.codec == codec && file == f && seqNo == 0 && hash == "" && checkpointMgr == null
    {
      this.codec, file, seqNo, hash, checkpointMgr := codec, f, 0, "", null;
    }

    ghost predicate Valid()
      reads this, checkpointMgr
    {
      checkpointMgr != null ==>
        checkpointMgr.codec == codec && checkpointMgr.file != null && checkpointMgr.file != file
    }

    /** Everything a writer may change. */
    ghost function Frame(): set<object>
      reads this, checkpointMgr
    {
      {this} + (if file == null then {} else {file})
      + (if checkpointMgr == null then {}
         else {checkpointMgr} + if checkpointMgr.file == null then {} else {checkpointMgr.file})
    }

    ghost function Cfg(): Config
      requires checkpointMgr != null
      reads this, checkpointMgr
    {
      Config(codec, checkpointMgr.key, checkpointMgr.cadence)
    }

    ghost function DiskNow(): Disk
      requires Valid() && file != null && checkpointMgr != null
      reads this, file, checkpointMgr, if checkpointMgr == null then {} else {checkpointMgr.file}
    {
      Disk(file.data, checkpointMgr.file.data)
    }

    ghost function LiveNow(): Live
      requires checkpointMgr != null
      reads this, checkpointMgr
    {
      Live(seqNo, hash, checkpointMgr.Snapshot())
    }

    /** `replay`: the head moves only if the entire chain is valid. */
    method Replay() returns (fault: Option<Fault>)
      requires file != null
      modifies this
      ensures file == old(file) && checkpointMgr == old(checkpointMgr)
      ensures fault == ReadLog(codec, file.data).fault
      ensures var rs := ReadLog(codec, file.data).records;
        if fault.None? && rs != [] then seqNo == HeadSeq(rs) && hash == HeadHash(rs)
        else seqNo == old(seqNo) && hash == old(hash)
    {
      hide Line, Rest, DropCR, LineEnd, Codec.RecordHash;
      var rest := file.data;
      var hasRecords := false;
      var prev := NO_RECORD;
      ghost var rs: seq<AuditRecord> := [];
      while rest != "" && |Line(rest)| < MAX_LINE
        invariant Read(codec, rs, rest) == ReadLog(codec, file.data)
        invariant hasRecords == (rs != []) && (hasRecords ==> prev == Last(rs))
        decreases |rest|
      {
        var line := Token(rest);
        rest := Rest(rest);
        if line == "" {
          continue;
        }
        var decoded := codec.decodeRecord(line);
        if decoded.None? {
          return Some(Malformed);
        }
        var rec := decoded.value;
        if hasRecords && rec.seqNo != prev.seqNo + 1 {
          return Some(SeqGap);
        }
        if !hasRecords {
          if rec.seqNo != 1 {
            return Some(FirstSeq);
          }
          if rec.prevHash != "" {
            return Some(FirstPrevHash);
          }
        }
        if hasRecords && rec.prevHash != prev.recordHash {
          return Some(PrevHashMismatch);
        }
        if rec.recordHash != codec.RecordHash(rec) {
          return Some(RecordHashMismatch);
        }
        rs := rs + [rec];
        prev, hasRecords := rec, true;
      }
      if rest != "" {
        return Some(LineTooLong);
      }
      if hasRecords {
        seqNo, hash := prev.seqNo, prev.recordHash;
      }
      fault := None;
    }

    /** The rescan of `recoverFromCorruption`: where to truncate, if a break is found. */
    method FindBreak() returns (foundBreak: bool, truncateAt: nat)
      requires file != null
      ensures Rescan(codec, [], file.data, 0) == if foundBreak then Break(truncateAt) else Clean
    {
      hide Line, Rest, DropCR, LineEnd, Codec.RecordHash;
      var rest := file.data;
      var hasRecords := false;
      var lineStart: nat, validBytes: nat := 0, 0;
      var prev := NO_RECORD;
      ghost var rs: seq<AuditRecord> := [];
      while rest != "" && |Line(rest)| < MAX_LINE
        invariant Rescan(codec, rs, rest, lineStart) == Rescan(codec, [], file.data, 0)
        invariant hasRecords == (rs != []) && (hasRecords ==> prev == Last(rs))
        invariant validBytes == lineStart
        decreases |rest|
      {
        var line := Token(rest);
        rest := Rest(rest);
        var currentLineStart := lineStart;
        lineStart := lineStart + |line| + 1;
        if line == "" {
          validBytes := lineStart;
          continue;
        }
        var decoded := codec.decodeRecord(line);
        if decoded.None? {
          return true, currentLineStart;
        }
        var rec := decoded.value;
        if hasRecords && rec.seqNo != prev.seqNo + 1 {
          return true, currentLineStart;
        }
        if !hasRecords {
          if rec.seqNo != 1 {
            return true, 0;
          }
          if rec.prevHash != "" {
            return true, currentLineStart;
          }
        }
        if hasRecords && rec.prevHash != prev.recordHash {
          return true, currentLineStart;
        }
        if rec.recordHash != codec.RecordHash(rec) {
          return true, currentLineStart;
        }
        rs := rs + [rec];
        prev, hasRecords, validBytes := rec, true, lineStart;
      }
      if rest != "" {
        return true, validBytes;
      }
      foundBreak, truncateAt := false, 0;
    }

    /** `recoverFromCorruption`. */
    method RecoverFromCorruption() returns (ok: bool)
      requires file != null && ReadLog(codec, file.data).fault.Some? && seqNo == 0 && hash == ""
      modifies this, file
      ensures file == old(file) && checkpointMgr == old(checkpointMgr)
      ensures var o := OpenRecoverable(codec, old(file.data));
        ok == o.Opened? && file.data == o.data && (ok ==> seqNo == o.seqNo && hash == o.hash)
    {
      var foundBreak, truncateAt := FindBreak();
      if !foundBreak {
        var again := Replay();
        return again.None?;
      }
      RescanAgrees(codec, [], file.data, 0);
      file.data := file.data[..truncateAt];
      seqNo, hash := 0, "";
      var fault := Replay();
      ok := fault.None?;
    }

    /** `Append`. On any write or sync failure the head stays where it was. */
    method Append(content: AuditRecord, now: string, entropy: string, io: Io, cpIo: Io) returns (ok: bool)
      requires Valid()
      modifies Frame()
      ensures Valid() && file == old(file) && checkpointMgr == old(checkpointMgr)
      ensures checkpointMgr != null ==> checkpointMgr.file == old(checkpointMgr.file)
      ensures file == null ==> !ok && seqNo == old(seqNo) && hash == old(hash)
      ensures file != null ==>
        file.data == old(file.data) + Reaching(io, NextLine(codec, content, old(seqNo), old(hash)) + "\n")
      ensures file != null && !io.Done? ==> !ok && seqNo == old(seqNo) && hash == old(hash)
      ensures file != null && io.Done? ==>
        && seqNo == old(seqNo) + 1 && hash == Stamp(codec, content, old(seqNo), old(hash)).recordHash
        && (checkpointMgr == null ==> ok)
      ensures (&& checkpointMgr != null
               && (file == null || !io.Done? || !old(checkpointMgr.ShouldCheckpoint(seqNo + 1)))) ==>
        && checkpointMgr.file.data == old(checkpointMgr.file.data)
        && checkpointMgr.Snapshot() == old(checkpointMgr.Snapshot())
      ensures file != null && io.Done? && checkpointMgr != null && !old(checkpointMgr.ShouldCheckpoint(seqNo + 1)) ==>
        ok
      ensures file != null && io.Done? && checkpointMgr != null && old(checkpointMgr.ShouldCheckpoint(seqNo + 1)) ==>
        && ok == cpIo.Done?
        && checkpointMgr.file.data == old(checkpointMgr.file.data)
             + Reaching(cpIo, CheckpointText(old(Cfg()), Advanced(old(Cfg()), old(LiveNow()), content), now, entropy))
        && (!ok ==> checkpointMgr.Snapshot() == old(checkpointMgr.Snapshot()))
      ensures file != null && io.Done? && cpIo.Done? && checkpointMgr != null && old(Cfg().cadence > 0) ==>
        && ok
        && (DiskNow(), LiveNow()) == AppendState(old(Cfg()), old(DiskNow()), old(LiveNow()), content, now, entropy)
    {
      if file == null {
        return false;
      }
      var record := content.(seqNo := seqNo + 1, prevHash := hash);
      var recordHash := codec.RecordHash(record);
      record := record.(recordHash := recordHash);
      file.data := file.data + Reaching(io, Encode(record) + "\n");
      if !io.Done? {
        return false;
      }
      assert file.data == old(file.data) + Encode(record) + "\n";
      seqNo, hash := record.seqNo, record.recordHash;
      if checkpointMgr != null && checkpointMgr.ShouldCheckpoint(seqNo) {
        ghost var before := checkpointMgr.file.data;
        var created := checkpointMgr.CreateCheckpoint(seqNo, hash, now, entropy, cpIo);
        ghost var live := old(LiveNow()).(seqNo := record.seqNo, hash := record.recordHash);
        ghost var line := EncodeCheckpoint(MakeCheckpoint(old(Cfg()), live, now, entropy));
        assert cpIo.Done? && created ==> checkpointMgr.file.data == before + line + "\n";
        return created;
      }
      ok := true;
    }

    /** `Close`: at most one final checkpoint; the writer is unusable afterwards. */
    method Close(now: string, entropy: string, cpIo: Io)
      requires Valid()
      modifies Frame()
      ensures Valid() && file == null && checkpointMgr == null
      ensures old(file) != null ==> old(file).data == old(file.data)
      ensures old(file) != null && old(checkpointMgr) != null ==>
        old(checkpointMgr.file).data == old(checkpointMgr.file.data)
          + if !old(FinalDue(LiveNow())) then ""
            else Reaching(cpIo, CheckpointText(old(Cfg()), old(LiveNow()), now, entropy))
      ensures old(file) != null && old(checkpointMgr) != null && cpIo.Done? ==>
        old(checkpointMgr.file).data == CloseState(old(Cfg()), old(DiskNow()), old(LiveNow()), now, entropy).checkpoints
    {
      if checkpointMgr != null && seqNo > 0 {
        var lastCpSeq := checkpointMgr.LatestAnchorOf();
        if seqNo > lastCpSeq {
          ghost var before := checkpointMgr.file.data;
          var _ := checkpointMgr.CreateCheckpoint(seqNo, hash, now, entropy, cpIo);
          ghost var line := EncodeCheckpoint(MakeCheckpoint(old(Cfg()), old(LiveNow()), now, entropy));
          assert cpIo.Done? && seqNo >= old(checkpointMgr.lastAnchorSeq) ==>
              checkpointMgr.file.data == before + line + "\n";
        }
      }
      checkpointMgr := null;
      file := null;
    }
  }

  /** The zero value of a record variable. */
  const NO_RECORD := AuditRecord(0, "", "", "", "", "", "", NilMap, None)

  /** `NewAuditWriter`. */
  method NewAuditWriter(codec: Codec, f: LogFile) returns (w: AuditWriter?)
    ensures w != null <==> OpenStrict(codec, f.data).Opened?
    ensures w != null ==>
      fresh(w) && w.file == f && w.codec == codec && w.checkpointMgr == null
      && OpenStrict(codec, f.data) == Opened(f.data, w.seqNo, w.hash)
  {
    w := new AuditWriter(codec, f);
    var fault := w.Replay();
    if fault.Some? {
      w := null;
    }
  }

  /** `NewAuditWriterRecoverable`. */
  method NewAuditWriterRecoverable(codec: Codec, f: LogFile) returns (w: AuditWriter?)
    modifies f
    ensures var o := OpenRecoverable(codec, old(f.data));
      && f.data == o.data && (w != null <==> o.Opened?)
      && (w != null ==> fresh(w) && w.file == f && w.codec == codec && w.checkpointMgr == null
                        && w.seqNo == o.seqNo && w.hash == o.hash)
  {
    w := new AuditWriter(codec, f);
    var fault := w.Replay();
    if fault.Some? {
      var recovered := w.RecoverFromCorruption();
      if !recovered {
        w := null;
      }
    }
  }

  /** `NewAuditWriterWithCheckpoints`. */
  method NewAuditWriterWithCheckpoints(cfg: Config, f: LogFile, g: LogFile) returns (w: AuditWriter?)
    requires f != g
    modifies f
    ensures g.data == old(g.data)
    ensures var st := OpenState(cfg, old(Disk(f.data, g.data)));
      && f.data == st.disk.audit && (w != null <==> st.live.Some?)
      && (w != null ==>
            && fresh(w) && w.Valid() && w.file == f && w.checkpointMgr != null && w.checkpointMgr.file == g
            && w.Cfg() == cfg.(cadence := cfg.Cadence()) && w.DiskNow() == st.disk && w.LiveNow() == st.live.value)
  {
    w := NewAuditWriterRecoverable(cfg.codec, f);
    if w == null {
      return;
    }
    var cadence := if cfg.cadence <= 0 then 1 else cfg.cadence;
    var mgr := new CheckpointManager(cfg.codec, cfg.key, cadence, g);
    var ok := mgr.Replay();
    if !ok {
      return null;
    }
    w.checkpointMgr := mgr;
  }
}
