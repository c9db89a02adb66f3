/** What the verifier reports, kind by kind, told from the two files. */
module Reports {
  import opened Base
  import opened Records
  import opened Chain
  import opened ChainTheorems
  import opened Appending
  import opened Checkpoints
  import opened Verifier

  /******* The parts of a report *******/

  lemma {:induction false} InChainIssues(
    codec: Codec, pub: Option<Verify>, cps: seq<Checkpoint>, n: nat, x: Issue)
    requires n <= |cps|
    ensures x in ChainIssues(codec, pub, cps, n) <==>
            exists i :: 0 <= i < n && x in CheckpointIssues(codec, pub, cps, i)
  {
    hide CheckpointIssues;
    if n > 0 { InChainIssues(codec, pub, cps, n - 1, x); }
  }

  lemma {:induction false} InGapIssues(cps: seq<Checkpoint>, n: nat, x: Issue)
    requires n <= |cps|
    ensures x in GapIssues(cps, n) <==>
            exists i :: 0 < i < n && cps[i].seqNo != cps[i - 1].seqNo + 1
                        && x == Issue(MissingCheckpoint, cps[i].seqNo, 0)
  {
    if n > 1 { InGapIssues(cps, n - 1, x); }
  }

  /** A report on a readable checkpoint file that is not empty. */
  ghost predicate Reported(
    codec: Codec, pub: Option<Verify>, audit: File, checkpoints: string, cps: seq<Checkpoint>, issues: seq<Issue>)
  {
    && ReadCheckpoints(codec, [], checkpoints) == Some(cps) && cps != []
    && ReportOf(codec, pub, audit, Some(checkpoints)).Some?
    && ReportOf(codec, pub, audit, Some(checkpoints)).value.issues == issues
  }

  lemma Parts(
    codec: Codec, pub: Option<Verify>, audit: File, checkpoints: string, cps: seq<Checkpoint>, issues: seq<Issue>)
    requires Reported(codec, pub, audit, checkpoints, cps, issues)
    ensures cps != []
    ensures var rs := RecordsOf(codec, audit);
      issues == AuditIssues(codec, audit) + ChainIssues(codec, pub, cps, |cps|)
                + AnchorIssues(rs, if AuditClean(codec, audit) then HeadSeq(rs) else 0, cps[|cps| - 1])
                + GapIssues(cps, |cps|)
  {
    hide ReadLog, ReadCheckpoints, ChainIssues, AnchorIssues, GapIssues;
  }

  /******* Signatures and links *******/

  lemma SignatureIssue(codec: Codec, pub: Option<Verify>, cps: seq<Checkpoint>, i: nat, n: int, line: int)
    requires i < |cps|
    ensures Issue(InvalidSignature, n, line) in CheckpointIssues(codec, pub, cps, i) <==>
            && n == cps[i].seqNo && line == i + 1 && pub.Some?
            && (cps[i].hash == "" || cps[i].signature == "" || !pub.value(codec.sha(cps[i].hash), cps[i].signature))
  {
    hide Codec.CheckpointHash;
  }

  lemma LinkIssue(codec: Codec, pub: Option<Verify>, cps: seq<Checkpoint>, i: nat, n: int, line: int)
    requires i < |cps|
    ensures Issue(BrokenCheckpointChain, n, line) in CheckpointIssues(codec, pub, cps, i) <==>
            && n == cps[i].seqNo && line == i + 1
            && (cps[i].prevHash != (if i == 0 then "" else cps[i - 1].hash)
                || codec.sha(CanonicalCheckpoint(cps[i])) != cps[i].hash)
  {
    hide CanonicalCheckpoint, SignatureOk;
  }

  lemma OtherIssues(codec: Codec, pub: Option<Verify>, cps: seq<Checkpoint>, i: nat, x: Issue)
    requires i < |cps| && x in CheckpointIssues(codec, pub, cps, i)
    ensures x.kind == InvalidSignature || x.kind == BrokenCheckpointChain
  {
    hide Codec.CheckpointHash, SignatureOk;
  }

  /**
   An invalid signature is reported for a checkpoint, under its number and line, exactly when a key was given and the
   key does not verify its signature over the digest of its hash text, or one of the two is missing.
   */
  lemma SignaturesReported(
    codec: Codec, pub: Option<Verify>, audit: File, checkpoints: string, cps: seq<Checkpoint>, issues: seq<Issue>,
    n: int, line: int)
    requires Reported(codec, pub, audit, checkpoints, cps, issues)
    ensures Issue(InvalidSignature, n, line) in issues <==>
            && pub.Some? && 1 <= line <= |cps| && n == cps[line - 1].seqNo
            && var c := cps[line - 1];
            c.hash == "" || c.signature == "" || !pub.value(codec.sha(c.hash), c.signature)
  {
    hide ReadLog, ReadCheckpoints, ChainIssues, CheckpointIssues, GapIssues, Reported;
    var x := Issue(InvalidSignature, n, line);
    Parts(codec, pub, audit, checkpoints, cps, issues);
    InChainIssues(codec, pub, cps, |cps|, x);
    InGapIssues(cps, |cps|, x);
    forall i | 0 <= i < |cps| { SignatureIssue(codec, pub, cps, i, n, line); }
    if 1 <= line <= |cps| {
      var i := line - 1;
      assert x in CheckpointIssues(codec, pub, cps, i) ==> x in ChainIssues(codec, pub, cps, |cps|);
    }
  }

  /** A broken link is reported exactly where a checkpoint misses its predecessor's hash or its own. */
  lemma LinksReported(
    codec: Codec, pub: Option<Verify>, audit: File, checkpoints: string, cps: seq<Checkpoint>, issues: seq<Issue>,
    n: int, line: int)
    requires Reported(codec, pub, audit, checkpoints, cps, issues)
    ensures Issue(BrokenCheckpointChain, n, line) in issues <==>
            && 1 <= line <= |cps| && n == cps[line - 1].seqNo
            && (cps[line - 1].prevHash != (if line == 1 then "" else cps[line - 2].hash)
                || codec.sha(CanonicalCheckpoint(cps[line - 1])) != cps[line - 1].hash)
  {
    hide ReadLog, ReadCheckpoints, ChainIssues, CheckpointIssues, GapIssues, Reported, CanonicalCheckpoint;
    var x := Issue(BrokenCheckpointChain, n, line);
    Parts(codec, pub, audit, checkpoints, cps, issues);
    InChainIssues(codec, pub, cps, |cps|, x);
    InGapIssues(cps, |cps|, x);
    forall i | 0 <= i < |cps| ensures x in CheckpointIssues(codec, pub, cps, i) ==> line == i + 1 {
      LinkIssue(codec, pub, cps, i, n, line);
    }
    if 1 <= line <= |cps| {
      var i := line - 1;
      LinkIssue(codec, pub, cps, i, n, line);
      assert x in CheckpointIssues(codec, pub, cps, i) <==> x in ChainIssues(codec, pub, cps, |cps|);
    }
  }

  /** So a report without issue means every checkpoint is signed by the key. */
  lemma CleanMeansSigned(codec: Codec, verify: Verify, audit: File, checkpoints: string, c: Checkpoint)
    requires var report := ReportOf(codec, Some(verify), audit, Some(checkpoints));
      report.Some? && report.value.issues == []
    ensures ReadCheckpoints(codec, [], checkpoints).Some?
    ensures c in ReadCheckpoints(codec, [], checkpoints).value ==>
              c.hash != "" && c.signature != "" && verify(codec.sha(c.hash), c.signature)
  {
    hide ReadLog, ReadCheckpoints, ChainIssues, AnchorIssues, GapIssues;
    var cps := ReadCheckpoints(codec, [], checkpoints).value;
    if c in cps {
      var i :| 0 <= i < |cps| && cps[i] == c;
      assert Reported(codec, Some(verify), audit, checkpoints, cps, []);
      SignaturesReported(codec, Some(verify), audit, checkpoints, cps, [], c.seqNo, i + 1);
    }
  }

  /******* Gaps, anchors and the log *******/

  /** A missing checkpoint is reported for every jump in the numbers, and under 0 for a jump in the record numbers. */
  lemma GapsReported(
    codec: Codec, pub: Option<Verify>, audit: File, checkpoints: string, cps: seq<Checkpoint>, issues: seq<Issue>,
    n: int, line: int)
    requires Reported(codec, pub, audit, checkpoints, cps, issues)
    ensures Issue(MissingCheckpoint, n, line) in issues <==>
            && line == 0
            && ((n == 0 && audit.Some? && ReadLog(codec, audit.value).fault == Some(SeqGap))
                || exists i :: 0 < i < |cps| && cps[i].seqNo == n && cps[i].seqNo != cps[i - 1].seqNo + 1)
  {
    hide ReadLog, ReadCheckpoints, ChainIssues, CheckpointIssues, GapIssues, Reported;
    var x := Issue(MissingCheckpoint, n, line);
    Parts(codec, pub, audit, checkpoints, cps, issues);
    InChainIssues(codec, pub, cps, |cps|, x);
    InGapIssues(cps, |cps|, x);
    forall i | 0 <= i < |cps| && x in CheckpointIssues(codec, pub, cps, i) { OtherIssues(codec, pub, cps, i, x); }
  }

  /** A reorder is reported exactly for a record whose predecessor's hash is another. */
  lemma ReorderReported(
    codec: Codec, pub: Option<Verify>, audit: File, checkpoints: string, cps: seq<Checkpoint>, issues: seq<Issue>,
    n: int, line: int)
    requires Reported(codec, pub, audit, checkpoints, cps, issues)
    ensures Issue(Reorder, n, line) in issues <==>
            n == 0 && line == 0 && audit.Some? && ReadLog(codec, audit.value).fault == Some(PrevHashMismatch)
  {
    hide ReadLog, ReadCheckpoints, ChainIssues, CheckpointIssues, GapIssues, Reported;
    var x := Issue(Reorder, n, line);
    Parts(codec, pub, audit, checkpoints, cps, issues);
    InChainIssues(codec, pub, cps, |cps|, x);
    InGapIssues(cps, |cps|, x);
    forall i | 0 <= i < |cps| && x in CheckpointIssues(codec, pub, cps, i) { OtherIssues(codec, pub, cps, i, x); }
  }

  /**
   A truncated tail is reported exactly when the latest anchor lies beyond the records of a log that is not empty; a log
   that does not verify counts as having none.
   */
  lemma TruncationReported(
    codec: Codec, pub: Option<Verify>, audit: File, checkpoints: string, cps: seq<Checkpoint>, issues: seq<Issue>,
    n: int, line: int)
    requires Reported(codec, pub, audit, checkpoints, cps, issues)
    ensures Issue(TailTruncation, n, line) in issues <==>
            && line == 0 && audit.Some? && n == cps[|cps| - 1].anchorSeq
            && var rd := ReadLog(codec, audit.value);
            rd.records != [] && n > if rd.fault.None? then |rd.records| else 0
  {
    hide ReadLog, ReadCheckpoints, ChainIssues, CheckpointIssues, GapIssues, Reported, ValidChain;
    var x := Issue(TailTruncation, n, line);
    Parts(codec, pub, audit, checkpoints, cps, issues);
    InChainIssues(codec, pub, cps, |cps|, x);
    InGapIssues(cps, |cps|, x);
    forall i | 0 <= i < |cps| && x in CheckpointIssues(codec, pub, cps, i) { OtherIssues(codec, pub, cps, i, x); }
    if audit.Some? {
      ChainOf(codec, audit.value);
      HeadSeqIsLength(codec, ReadLog(codec, audit.value).records);
    }
  }

  /**
   Tampering is reported under a line exactly for an anchored record with another hash, and without one exactly for a
   log that is missing or stops at a line that is no record, starts wrong or has another hash than it says.
   */
  lemma TamperingReported(
    codec: Codec, pub: Option<Verify>, audit: File, checkpoints: string, cps: seq<Checkpoint>, issues: seq<Issue>,
    n: int, line: int)
    requires Reported(codec, pub, audit, checkpoints, cps, issues)
    ensures Issue(TamperMiddle, n, line) in issues <==>
            || (n == 0 && line == 0
                && (audit.None? || ReadLog(codec, audit.value).fault
                                   !in {None, Some(SeqGap), Some(PrevHashMismatch)}))
            || (&& audit.Some? && ReadLog(codec, audit.value).fault.None? && n == line == cps[|cps| - 1].anchorSeq
                && var rs := ReadLog(codec, audit.value).records;
                1 <= n <= |rs| && rs[n - 1].recordHash != cps[|cps| - 1].anchorHash)
  {
    hide ReadLog, ReadCheckpoints, ChainIssues, CheckpointIssues, GapIssues, Reported, ValidChain;
    var x := Issue(TamperMiddle, n, line);
    Parts(codec, pub, audit, checkpoints, cps, issues);
    InChainIssues(codec, pub, cps, |cps|, x);
    InGapIssues(cps, |cps|, x);
    forall i | 0 <= i < |cps| && x in CheckpointIssues(codec, pub, cps, i) { OtherIssues(codec, pub, cps, i, x); }
    if audit.Some? {
      var rs := ReadLog(codec, audit.value).records;
      ChainOf(codec, audit.value);
      HeadSeqIsLength(codec, rs);
      var a := cps[|cps| - 1].anchorSeq;
      if 0 < a <= |rs| { NumberOf(codec, rs, a - 1); }
    }
  }

  lemma NumberOf(codec: Codec, rs: seq<AuditRecord>, i: nat)
    requires ValidChain(codec, rs) && i < |rs|
    ensures rs[i].seqNo == i + 1
  {
    assert Linked(codec, rs, i);
  }

  /******* Which line breaks a log how *******/

  /**
   The kind of the first issue of a log is decided by its first bad line: a wrong number is a missing one, a wrong
   predecessor a reorder, anything else tampering; a first record has to have number 1 and no predecessor.
   */
  lemma BreakReported(codec: Codec, data: string, line: string, later: string)
    requires Terminated(data) && ReadLog(codec, data).fault.None? && OneLine(line) && |line| < 1024 * 1024
    ensures var rs, d := ReadLog(codec, data).records, codec.decodeRecord(line);
      var issues := AuditIssues(codec, Some(data + line + "\n" + later));
      && (d.None? ==> issues == [Issue(TamperMiddle, 0, 0)])
      && (d.Some? && rs == [] && (d.value.seqNo != 1 || d.value.prevHash != "") ==>
            issues == [Issue(TamperMiddle, 0, 0)])
      && (d.Some? && rs != [] && d.value.seqNo != |rs| + 1 ==> issues == [Issue(MissingCheckpoint, 0, 0)])
      && (d.Some? && rs != [] && d.value.seqNo == |rs| + 1 && d.value.prevHash != rs[|rs| - 1].recordHash ==>
            issues == [Issue(Reorder, 0, 0)])
      && (d.Some? && d.value.seqNo == |rs| + 1 && d.value.prevHash == HeadHash(rs) ==>
            d.value.recordHash != codec.sha(Canonical(d.value)) ==> issues == [Issue(TamperMiddle, 0, 0)])
  {
    hide Canonical, Read, OneLine, ValidChain, BreakAt, StrippedBefore, Terminated;
    var rs := ReadLog(codec, data).records;
    ChainOf(codec, data);
    HeadSeqIsLength(codec, rs);
    AppendLine(codec, data, line);
    ReadOneLine(codec, rs, line);
    var bad := data + line + "\n";
    if ReadLog(codec, bad).fault.Some? {
      EndsInNewline(data + line);
      BrokenLog(codec, bad, later);
    }
  }

  lemma EndsInNewline(s: string)
    ensures Terminated(s + "\n")
  {
  }

  /** A line of 1 MiB or more is never read, whatever it says. */
  lemma LongLineReported(codec: Codec, data: string, line: string, later: string)
    requires Terminated(data) && ReadLog(codec, data).fault.None? && OneLine(line) && |line| >= 1024 * 1024
    ensures var audit := data + line + "\n" + later;
      ReadLog(codec, audit).records == ReadLog(codec, data).records
      && AuditIssues(codec, Some(audit)) == [Issue(TamperMiddle, 0, 0)]
  {
    hide Read, OneLine, BreakAt, StrippedBefore, Terminated;
    AppendLine(codec, data, line);
    ReadOneLine(codec, ReadLog(codec, data).records, line);
    EndsInNewline(data + line);
    BrokenLog(codec, data + line + "\n", later);
  }

  /** The figures of a report: those of a log that verifies, and of the last checkpoint next to any record. */
  lemma FiguresReported(codec: Codec, pub: Option<Verify>, audit: File, checkpoints: File)
    requires ReportOf(codec, pub, audit, checkpoints).Some?
    ensures var report := ReportOf(codec, pub, audit, checkpoints).value;
      var rd := if audit.None? then Reading([], Some(Malformed)) else ReadLog(codec, audit.value);
      var sound := rd.fault.None?;
      var cps := if checkpoints.None? then Some([]) else ReadCheckpoints(codec, [], checkpoints.value);
      && report.recordCount == report.headSeq == (if sound then |rd.records| else 0)
      && report.headHash == (if sound && rd.records != [] then rd.records[|rd.records| - 1].recordHash else "")
      && cps.Some? && report.checkpointCount == |cps.value|
      && (cps.value == [] ==> Issue(MissingCheckpoint, 0, 0) in report.issues)
      && (rd.records == [] || cps.value == [] ==> report.anchorSeq == 0 && report.anchorHash == "")
      && (rd.records != [] && cps.value != [] ==>
            var last := cps.value[|cps.value| - 1];
            report.anchorSeq == last.anchorSeq && report.anchorHash == last.anchorHash)
  {
    hide Read, ReadCheckpoints, ChainIssues, AnchorIssues, GapIssues, ValidChain;
    if audit.Some? {
      ChainOf(codec, audit.value);
      HeadSeqIsLength(codec, ReadLog(codec, audit.value).records);
    }
  }
}
