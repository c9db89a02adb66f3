/** `VerifyAuditChain`: the offline check of a log against its checkpoints. */
module Verifier {
  import opened Base
  import opened Records
  import opened Chain
  import opened ChainTheorems
  import opened Checkpoints

  datatype IssueKind =
    | TamperMiddle
    | TailTruncation
    | Reorder
    | MissingCheckpoint
    | InvalidSignature
    | BrokenCheckpointChain

  datatype Issue = Issue(kind: IssueKind, seqNo: int, line: int)

  datatype Report = Report(
    recordCount: nat,
    headSeq: int,
    headHash: string,
    checkpointCount: nat,
    anchorSeq: int,
    anchorHash: string,
    issues: seq<Issue>)

  /** A missing file is None. */
  type File = Option<string>

  type Verify = (string, string) -> bool

  /** How a read fault is reported, going by the text of its error message. */
  function Classify(fault: Fault): IssueKind {
    match fault
    case PrevHashMismatch => Reorder
    case SeqGap => MissingCheckpoint
    case _ => TamperMiddle
  }

  /******* What is reported *******/

  function AuditIssues(codec: Codec, audit: File): seq<Issue> {
    if audit.None? then [Issue(TamperMiddle, 0, 0)]
    else match ReadLog(codec, audit.value).fault
      case None => []
      case Some(f) => [Issue(Classify(f), 0, 0)]
  }

  /** The complaints about checkpoint i alone. */
  function CheckpointIssues(codec: Codec, pub: Option<Verify>, cps: seq<Checkpoint>, i: nat): seq<Issue>
    requires i < |cps|
  {
    var c := cps[i];
    (if c.prevHash != (if i == 0 then "" else cps[i - 1].hash)
     then [Issue(BrokenCheckpointChain, c.seqNo, i + 1)] else [])
    + (if pub.Some? && !SignatureOk(codec, pub.value, c) then [Issue(InvalidSignature, c.seqNo, i + 1)] else [])
    + (if codec.CheckpointHash(c) != c.hash then [Issue(BrokenCheckpointChain, c.seqNo, i + 1)] else [])
  }

  function ChainIssues(codec: Codec, pub: Option<Verify>, cps: seq<Checkpoint>, n: nat): seq<Issue>
    requires n <= |cps|
  {
    if n == 0 then [] else ChainIssues(codec, pub, cps, n - 1) + CheckpointIssues(codec, pub, cps, n - 1)
  }

  /** The latest anchor against the records; headSeq is 0 when the log did not verify. */
  function AnchorIssues(rs: seq<AuditRecord>, headSeq: int, c: Checkpoint): seq<Issue> {
    if rs == [] then []
    else if 0 < c.anchorSeq <= headSeq then
      if c.anchorSeq <= |rs| && rs[c.anchorSeq - 1].seqNo == c.anchorSeq then
        if rs[c.anchorSeq - 1].recordHash != c.anchorHash then [Issue(TamperMiddle, c.anchorSeq, c.anchorSeq)] else []
      else [Issue(TamperMiddle, c.anchorSeq, 0)]
    else if c.anchorSeq > headSeq then [Issue(TailTruncation, c.anchorSeq, 0)]
    else []
  }

  function GapIssues(cps: seq<Checkpoint>, n: nat): seq<Issue>
    requires n <= |cps|
  {
    if n <= 1 then []
    else GapIssues(cps, n - 1)
         + if cps[n - 1].seqNo != cps[n - 2].seqNo + 1 then [Issue(MissingCheckpoint, cps[n - 1].seqNo, 0)] else []
  }

  function RecordsOf(codec: Codec, audit: File): seq<AuditRecord> {
    if audit.None? then [] else ReadLog(codec, audit.value).records
  }

  predicate AuditClean(codec: Codec, audit: File) { audit.Some? && ReadLog(codec, audit.value).fault.None? }

  function BaseReport(codec: Codec, audit: File): Report {
    var rs := RecordsOf(codec, audit);
    if AuditClean(codec, audit) then Report(|rs|, HeadSeq(rs), HeadHash(rs), 0, 0, "", AuditIssues(codec, audit))
    else Report(0, 0, "", 0, 0, "", AuditIssues(codec, audit))
  }

  /** The whole report; None for an unreadable checkpoint file, which is an I/O error. */
  function ReportOf(codec: Codec, pub: Option<Verify>, audit: File, checkpoints: File): Option<Report> {
    var rs := RecordsOf(codec, audit);
    var base := BaseReport(codec, audit);
    if checkpoints.None? then Some(base.(issues := base.issues + [Issue(MissingCheckpoint, 0, 0)]))
    else
      var cps :- ReadCheckpoints(codec, [], checkpoints.value);
      if cps == [] then Some(base.(issues := base.issues + [Issue(MissingCheckpoint, 0, 0)]))
      else
        var last := cps[|cps| - 1];
        Some(base.(
          checkpointCount := |cps|,
          anchorSeq := if rs == [] then 0 else last.anchorSeq,
          anchorHash := if rs == [] then "" else last.anchorHash,
          issues := base.issues + ChainIssues(codec, pub, cps, |cps|)
                    + AnchorIssues(rs, base.headSeq, last) + GapIssues(cps, |cps|)))
  }

  /******* The code *******/

  /** `readAuditChain`. */
  method ReadAuditChain(codec: Codec, audit: File)
    returns (records: seq<AuditRecord>, fault: Option<Fault>, found: bool)
    ensures found == audit.Some? && records == RecordsOf(codec, audit)
    ensures found ==> fault == ReadLog(codec, audit.value).fault
  {
    if audit.None? {
      return [], None, false;
    }
    records, found := [], true;
    var rest := audit.value;
    while rest != "" && |Line(rest)| < MAX_LINE
      invariant Read(codec, records, rest) == ReadLog(codec, audit.value)
      decreases |rest|
    {
      var line := Token(rest);
      rest := Rest(rest);
      if line != "" {
        var decoded := codec.decodeRecord(line);
        if decoded.None? {
          return records, Some(Malformed), true;
        }
        var rec := decoded.value;
        if |records| == 0 {
          if rec.seqNo != 1 {
            return records, Some(FirstSeq), true;
          }
          if rec.prevHash != "" {
            return records, Some(FirstPrevHash), true;
          }
        } else {
          var prev := records[|records| - 1];
          if rec.seqNo != prev.seqNo + 1 {
            return records, Some(SeqGap), true;
          }
          if rec.prevHash != prev.recordHash {
            return records, Some(PrevHashMismatch), true;
          }
        }
        if rec.recordHash != codec.RecordHash(rec) {
          return records, Some(RecordHashMismatch), true;
        }
        records := records + [rec];
      }
    }
    fault := if rest == "" then None else Some(LineTooLong);
  }

  /** `readCheckpoints`. */
  method ReadCheckpointFile(codec: Codec, data: string) returns (checkpoints: Option<seq<Checkpoint>>)
    ensures checkpoints == ReadCheckpoints(codec, [], data)
  {
    var cps: seq<Checkpoint> := [];
    var rest := data;
    while rest != "" && |Line(rest)| < MAX_LINE
      invariant ReadCheckpoints(codec, cps, rest) == ReadCheckpoints(codec, [], data)
      decreases |rest|
    {
      var line := Token(rest);
      rest := Rest(rest);
      if line != "" {
        var c := codec.decodeCheckpoint(line);
        if c.None? {
          return None;
        }
        cps := cps + [c.value];
      }
    }
    checkpoints := if rest == "" then Some(cps) else None;
  }

  /** `VerifyAuditChain`. */
  method VerifyAuditChain(codec: Codec, pub: Option<Verify>, audit: File, checkpoints: File)
    returns (result: Option<Report>)
    ensures result == ReportOf(codec, pub, audit, checkpoints)
  {
    hide Read, ReadCheckpoints, ChainIssues, AnchorIssues, GapIssues;
    var report := Report(0, 0, "", 0, 0, "", []);
    var records, fault, found := ReadAuditChain(codec, audit);
    if !found || fault.Some? {
      var kind := if found && fault.Some? then Classify(fault.value) else TamperMiddle;
      report := report.(issues := [Issue(kind, 0, 0)]);
    } else if |records| > 0 {
      var last := records[|records| - 1];
      report := report.(recordCount := |records|, headSeq := last.seqNo, headHash := last.recordHash);
    }
    assert report == BaseReport(codec, audit);
    if checkpoints.None? {
      return Some(report.(issues := report.issues + [Issue(MissingCheckpoint, 0, 0)]));
    }
    var read := ReadCheckpointFile(codec, checkpoints.value);
    if read.None? {
      return None;
    }
    var cps := read.value;
    if |cps| == 0 {
      return Some(report.(issues := report.issues + [Issue(MissingCheckpoint, 0, 0)]));
    }
    var chain := CheckCheckpoints(codec, pub, cps);
    var latest := cps[|cps| - 1];
    var anchor := CheckAnchor(records, report.headSeq, latest);
    var gaps := CheckGaps(cps);
    report := report.(checkpointCount := |cps|, issues := report.issues + chain + anchor + gaps);
    if |records| > 0 {
      report := report.(anchorSeq := latest.anchorSeq, anchorHash := latest.anchorHash);
    }
    result := Some(report);
  }

  /** Phase 4. */
  method CheckAnchor(records: seq<AuditRecord>, headSeq: int, latest: Checkpoint) returns (issues: seq<Issue>)
    ensures issues == AnchorIssues(records, headSeq, latest)
  {
    issues := [];
    if |records| > 0 {
      if latest.anchorSeq > 0 && latest.anchorSeq <= headSeq {
        var idx := latest.anchorSeq - 1;
        if idx < |records| && records[idx].seqNo == latest.anchorSeq {
          if records[idx].recordHash != latest.anchorHash {
            issues := [Issue(TamperMiddle, records[idx].seqNo, idx + 1)];
          }
        } else {
          issues := [Issue(TamperMiddle, latest.anchorSeq, 0)];
        }
      } else if latest.anchorSeq > headSeq {
        issues := [Issue(TailTruncation, latest.anchorSeq, 0)];
      }
    }
  }

  /** Phase 3. */
  method CheckCheckpoints(codec: Codec, pub: Option<Verify>, cps: seq<Checkpoint>) returns (issues: seq<Issue>)
    ensures issues == ChainIssues(codec, pub, cps, |cps|)
  {
    hide Codec.CheckpointHash, SignatureOk;
    issues := [];
    for i := 0 to |cps|
      invariant issues == ChainIssues(codec, pub, cps, i)
    {
      var c := cps[i];
      var bad: seq<Issue> := [];
      if i > 0 {
        if c.prevHash != cps[i - 1].hash {
          bad := bad + [Issue(BrokenCheckpointChain, c.seqNo, i + 1)];
        }
      } else if c.prevHash != "" {
        bad := bad + [Issue(BrokenCheckpointChain, c.seqNo, 1)];
      }
      if pub.Some? && !SignatureOk(codec, pub.value, c) {
        bad := bad + [Issue(InvalidSignature, c.seqNo, i + 1)];
      }
      if codec.CheckpointHash(c) != c.hash {
        bad := bad + [Issue(BrokenCheckpointChain, c.seqNo, i + 1)];
      }
      assert bad == CheckpointIssues(codec, pub, cps, i);
      issues := issues + bad;
    }
  }

  /** Phase 5. */
  method CheckGaps(cps: seq<Checkpoint>) returns (issues: seq<Issue>)
    requires cps != []
    ensures issues == GapIssues(cps, |cps|)
  {
    issues := [];
    for i := 1 to |cps|
      invariant issues == GapIssues(cps, i)
    {
      if cps[i].seqNo != cps[i - 1].seqNo + 1 {
        issues := issues + [Issue(MissingCheckpoint, cps[i].seqNo, 0)];
      }
    }
  }

  /******* When nothing is reported *******/

  /** Checkpoint i is linked, signed and hashed. */
  predicate CheckpointOk(codec: Codec, pub: Option<Verify>, cps: seq<Checkpoint>, i: nat)
    requires i < |cps|
  {
    && cps[i].prevHash == ManagerOf(cps[..i]).prevHash
    && (pub.Some? ==> SignatureOk(codec, pub.value, cps[i]))
    && codec.CheckpointHash(cps[i]) == cps[i].hash
  }

  ghost predicate CheckpointsOk(codec: Codec, pub: Option<Verify>, cps: seq<Checkpoint>) {
    && (forall i :: 0 <= i < |cps| ==> CheckpointOk(codec, pub, cps, i))
    && (forall i :: 0 < i < |cps| ==> cps[i].seqNo == cps[i - 1].seqNo + 1)
  }

  /** The latest checkpoint agrees with a log of the given records. */
  predicate AnchorOk(rs: seq<AuditRecord>, c: Checkpoint) {
    rs == [] || c.anchorSeq <= 0 || (c.anchorSeq <= |rs| && rs[c.anchorSeq - 1].recordHash == c.anchorHash)
  }

  lemma {:induction false} NoChainIssues(codec: Codec, pub: Option<Verify>, cps: seq<Checkpoint>, n: nat)
    requires n <= |cps|
    ensures ChainIssues(codec, pub, cps, n) == [] <==> forall i :: 0 <= i < n ==> CheckpointOk(codec, pub, cps, i)
  {
    hide SignatureOk, Codec.CheckpointHash;
    if n > 0 {
      NoChainIssues(codec, pub, cps, n - 1);
      assert CheckpointIssues(codec, pub, cps, n - 1) == [] <==> CheckpointOk(codec, pub, cps, n - 1);
    }
  }

  lemma {:induction false} NoGapIssues(cps: seq<Checkpoint>, n: nat)
    requires n <= |cps|
    ensures GapIssues(cps, n) == [] <==> forall i :: 0 < i < n ==> cps[i].seqNo == cps[i - 1].seqNo + 1
  {
    if n > 1 { NoGapIssues(cps, n - 1); }
  }

  lemma NoAnchorIssues(codec: Codec, rs: seq<AuditRecord>, c: Checkpoint)
    requires ValidChain(codec, rs)
    ensures AnchorIssues(rs, HeadSeq(rs), c) == [] <==> AnchorOk(rs, c)
  {
    HeadSeqIsLength(codec, rs);
    if 0 < c.anchorSeq <= |rs| { assert Linked(codec, rs, c.anchorSeq - 1); }
  }

  lemma ChainOf(codec: Codec, data: string)
    ensures ValidChain(codec, ReadLog(codec, data).records)
  {
    ReadValid(codec, [], data);
  }

  /**
   A log and its checkpoints verify exactly when the log is one faultless chain, the checkpoints are a
   nonempty consecutively numbered, linked, correctly hashed and signed chain, and the latest anchor
   matches - unless the log is empty, in which case the anchor is not looked at.
   */
  lemma VerifiesExactlyWhen(codec: Codec, pub: Option<Verify>, audit: File, checkpoints: File)
    ensures var report := ReportOf(codec, pub, audit, checkpoints);
      (report.Some? && report.value.issues == [])
      <==> (AuditClean(codec, audit) && checkpoints.Some? && ReadCheckpoints(codec, [], checkpoints.value).Some?
            && var cps := ReadCheckpoints(codec, [], checkpoints.value).value;
            cps != [] && CheckpointsOk(codec, pub, cps) && AnchorOk(RecordsOf(codec, audit), cps[|cps| - 1]))
  {
    hide Read, ReadCheckpoints, CheckpointOk, CheckpointIssues, ChainIssues, GapIssues, AnchorIssues, AnchorOk,
      ValidChain;
    if checkpoints.Some? && ReadCheckpoints(codec, [], checkpoints.value).Some? {
      var cps := ReadCheckpoints(codec, [], checkpoints.value).value;
      NoChainIssues(codec, pub, cps, |cps|);
      NoGapIssues(cps, |cps|);
      if AuditClean(codec, audit) && cps != [] {
        ChainOf(codec, audit.value);
        NoAnchorIssues(codec, RecordsOf(codec, audit), cps[|cps| - 1]);
      }
    }
  }
}
