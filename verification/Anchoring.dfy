/**
 Why comparing only the latest checkpoint is enough: whoever knows one honest checkpoint hash knows the
 whole honest checkpoint chain behind it and every record up to its anchor.
 */
module Anchoring {
  import opened Base
  import opened Records
  import opened RecordTheorems
  import opened Chain
  import opened ChainTheorems
  import opened Checkpoints
  import opened Verifier
  import Utf8

  ghost predicate CheckpointCollision(codec: Codec, cps: seq<Checkpoint>, ds: seq<Checkpoint>) {
    exists i, j :: 0 <= i < |cps| && 0 <= j < |ds|
      && Collision(codec.sha, CanonicalCheckpoint(cps[i]), CanonicalCheckpoint(ds[j]))
  }

  ghost predicate PrintableCheckpoints(cps: seq<Checkpoint>) {
    forall i :: 0 <= i < |cps| ==> PrintableCheckpoint(cps[i])
  }

  lemma {:induction false} ReadCheckpointsPrintable(codec: Codec, cps: seq<Checkpoint>, rest: string)
    requires codec.CheckpointLaws() && PrintableCheckpoints(cps) && ReadCheckpoints(codec, cps, rest).Some?
    ensures PrintableCheckpoints(ReadCheckpoints(codec, cps, rest).value)
    decreases |rest|
  {
    hide PrintableCheckpoint, EncodeCheckpoint;
    if rest != "" {
      if Token(rest) == "" {
        ReadCheckpointsPrintable(codec, cps, Rest(rest));
      } else {
        ReadCheckpointsPrintable(codec, cps + [codec.decodeCheckpoint(Token(rest)).value], Rest(rest));
      }
    }
  }

  /** cps[..n] and ds[..n] are the same checkpoints up to signatures. */
  ghost predicate SameCheckpoints(cps: seq<Checkpoint>, ds: seq<Checkpoint>, n: nat) {
    n <= |cps| && n <= |ds| && forall i :: 0 <= i < n ==> SameButSignature(cps[i], ds[i])
  }

  /** Two linked chains that reach one hash at positions n and m are equal up to there, or the hash collides. */
  lemma {:induction false} ChainsMeet(codec: Codec, cps: seq<Checkpoint>, n: nat, ds: seq<Checkpoint>, m: nat)
    requires codec.HashLaws() && PrintableCheckpoints(cps) && PrintableCheckpoints(ds)
    requires n < |cps| && m < |ds| && cps[n].hash == ds[m].hash
    requires forall i :: 0 <= i < |cps| ==> CheckpointOk(codec, None, cps, i)
    requires forall i :: 0 <= i < |ds| ==> LinkedCheckpoint(codec, ds, i)
    ensures (n == m && SameCheckpoints(cps, ds, n + 1)) || CheckpointCollision(codec, cps, ds)
    decreases n
  {
    hide CanonicalCheckpoint, PrintableCheckpoint, Utf8.Valid;
    var c, d := cps[n], ds[m];
    assert CheckpointOk(codec, None, cps, n) && LinkedCheckpoint(codec, ds, m);
    if CanonicalCheckpoint(c) != CanonicalCheckpoint(d) {
      assert Collision(codec.sha, CanonicalCheckpoint(c), CanonicalCheckpoint(d));
    } else {
      CheckpointCanonicalIdentifies(c, d);
      assert n > 0 ==> CheckpointOk(codec, None, cps, n - 1);
      assert m > 0 ==> LinkedCheckpoint(codec, ds, m - 1);
      assert n == 0 <==> m == 0;
      if n > 0 {
        ChainsMeet(codec, cps, n - 1, ds, m - 1);
      }
    }
  }

  lemma {:induction false} AnchorsIncrease(
    codec: Codec, key: Option<KeyPair>, rs: seq<AuditRecord>, cps: seq<Checkpoint>, i: nat, j: nat)
    requires HonestCheckpoints(codec, key, rs, cps) && i <= j < |cps|
    ensures i < j ==> cps[i].anchorSeq < cps[j].anchorSeq
    decreases j
  {
    if i < j {
      assert HonestAt(codec, key, rs, cps, j);
      hide HonestCheckpoints, HonestAt;
      AnchorsIncrease(codec, key, rs, cps, i, j - 1);
      assert ManagerOf(cps[..j]).anchorSeq == cps[j - 1].anchorSeq;
    }
  }

  /** The log agrees with the honest one up to the anchor a. */
  ghost predicate AgreesUpTo(rs: seq<AuditRecord>, honest: seq<AuditRecord>, a: int) {
    0 <= a <= |rs| && a <= |honest| && SameHistory(rs[..a], honest[..a])
  }

  lemma AnchorPinsRecords(codec: Codec, rs: seq<AuditRecord>, honest: seq<AuditRecord>, c: Checkpoint)
    requires ValidChain(codec, rs) && AllPrintable(rs) && ValidChain(codec, honest) && AllPrintable(honest)
    requires rs != [] && AnchorOk(rs, c) && Anchors(honest, c)
    ensures AgreesUpTo(rs, honest, c.anchorSeq) || CollisionBetween(codec, rs, honest)
  {
    var a := c.anchorSeq;
    PrefixValid(codec, rs, a);
    PrefixValid(codec, honest, a);
    hide ValidChain, PrintableRecord;
    ChainsWithOneHead(codec, rs[..a], honest[..a]);
    PrefixCollision(codec, rs, honest, a);
  }

  lemma EarlierAnchored(rs: seq<AuditRecord>, honest: seq<AuditRecord>, a: int, c: Checkpoint)
    requires AgreesUpTo(rs, honest, a) && Anchors(honest, c) && c.anchorSeq <= a
    ensures Anchors(rs, c)
  {
    hide SameButHash;
    var k := c.anchorSeq - 1;
    assert SameRecord(rs[..a][k], honest[..a][k]);
  }

  /**
   If a nonempty log and its checkpoint file verify without issue and the last checkpoint hash is that
   of the j-th checkpoint of an honest run, then - unless the hash function collides on data at hand -
   the checkpoint list is exactly the honest list up to j, the log starts with the honest records up to
   that anchor, and every earlier checkpoint anchors a matching record although none was compared.
   */
  lemma LatestAnchorSuffices(
    codec: Codec, key: Option<KeyPair>, honest: seq<AuditRecord>, ds: seq<Checkpoint>, j: nat,
    pub: Option<Verify>, audit: string, checkpoints: string)
    requires codec.Lawful()
    requires ValidChain(codec, honest) && AllPrintable(honest) && HonestCheckpoints(codec, key, honest, ds) && j < |ds|
    requires ReportOf(codec, pub, Some(audit), Some(checkpoints)).Some?
    requires ReportOf(codec, pub, Some(audit), Some(checkpoints)).value.issues == []
    requires ReadLog(codec, audit).records != []
    requires ReadCheckpoints(codec, [], checkpoints).Some? && ReadCheckpoints(codec, [], checkpoints).value != []
    requires var cps := ReadCheckpoints(codec, [], checkpoints).value; cps[|cps| - 1].hash == ds[j].hash
    ensures var cps := ReadCheckpoints(codec, [], checkpoints).value;
      var rs := ReadLog(codec, audit).records;
      || CheckpointCollision(codec, cps, ds)
      || CollisionBetween(codec, rs, honest)
      || (&& |cps| == j + 1 && SameCheckpoints(cps, ds, j + 1)
          && AgreesUpTo(rs, honest, ds[j].anchorSeq)
          && forall i :: 0 <= i <= j ==> Anchors(rs, cps[i]))
  {
    hide *;
    var cps := ReadCheckpoints(codec, [], checkpoints).value;
    var rs := ReadLog(codec, audit).records;
    Verified(codec, pub, audit, checkpoints);
    ListsPinned(codec, key, honest, ds, j, pub, rs, cps);
  }

  lemma Verified(codec: Codec, pub: Option<Verify>, audit: string, checkpoints: string)
    requires codec.Lawful()
    requires ReportOf(codec, pub, Some(audit), Some(checkpoints)).Some?
    requires ReportOf(codec, pub, Some(audit), Some(checkpoints)).value.issues == []
    ensures ReadCheckpoints(codec, [], checkpoints).Some? && ReadCheckpoints(codec, [], checkpoints).value != []
    ensures var cps := ReadCheckpoints(codec, [], checkpoints).value;
      var rs := ReadLog(codec, audit).records;
      && ValidChain(codec, rs) && AllPrintable(rs) && PrintableCheckpoints(cps)
      && CheckpointsOk(codec, pub, cps) && AnchorOk(rs, cps[|cps| - 1]) && codec.HashLaws()
  {
    hide ReadLog, ReadCheckpoints, ReportOf, ValidChain, AllPrintable, CheckpointsOk, AnchorOk, PrintableCheckpoints,
      Codec.RecordLaws, Codec.CheckpointLaws, Codec.HashLaws;
    VerifiesExactlyWhen(codec, pub, Some(audit), Some(checkpoints));
    NonePrintable();
    ReadCheckpointsPrintable(codec, [], checkpoints);
    ReadLogValid(codec, audit);
  }

  lemma NonePrintable()
    ensures PrintableCheckpoints([])
  {
  }

  /** The same on the lists the two files hold. */
  lemma ListsPinned(
    codec: Codec, key: Option<KeyPair>, honest: seq<AuditRecord>, ds: seq<Checkpoint>, j: nat,
    pub: Option<Verify>, rs: seq<AuditRecord>, cps: seq<Checkpoint>)
    requires codec.HashLaws()
    requires ValidChain(codec, honest) && AllPrintable(honest) && HonestCheckpoints(codec, key, honest, ds) && j < |ds|
    requires rs != [] && ValidChain(codec, rs) && AllPrintable(rs)
    requires cps != [] && PrintableCheckpoints(cps) && CheckpointsOk(codec, pub, cps) && AnchorOk(rs, cps[|cps| - 1])
    requires cps[|cps| - 1].hash == ds[j].hash
    ensures
      || CheckpointCollision(codec, cps, ds)
      || CollisionBetween(codec, rs, honest)
      || (&& |cps| == j + 1 && SameCheckpoints(cps, ds, j + 1)
          && AgreesUpTo(rs, honest, ds[j].anchorSeq)
          && forall i :: 0 <= i <= j ==> Anchors(rs, cps[i]))
  {
    hide ValidChain, AllPrintable, AnchorOk, CollisionBetween, CheckpointCollision, CheckpointsOk,
      PrintableCheckpoints, LinkedCheckpoint, HonestCheckpoints, CheckpointOk, Codec.HashLaws, AgreesUpTo;
    WeakenOk(codec, pub, cps);
    HonestLinked(codec, key, honest, ds);
    ChainsMeet(codec, cps, |cps| - 1, ds, j);
    if |cps| == j + 1 && SameCheckpoints(cps, ds, j + 1) {
      HonestAnchors(codec, key, honest, ds, j);
      assert SameButSignature(cps[j], ds[j]);
      AnchorPinsRecords(codec, rs, honest, cps[j]);
      if AgreesUpTo(rs, honest, ds[j].anchorSeq) {
        forall i | 0 <= i <= j ensures Anchors(rs, cps[i]) {
          AnchorsIncrease(codec, key, honest, ds, i, j);
          HonestAnchors(codec, key, honest, ds, i);
          assert SameButSignature(cps[i], ds[i]);
          EarlierAnchored(rs, honest, ds[j].anchorSeq, cps[i]);
        }
      }
    }
  }

  lemma HonestAnchors(codec: Codec, key: Option<KeyPair>, rs: seq<AuditRecord>, cps: seq<Checkpoint>, i: nat)
    requires HonestCheckpoints(codec, key, rs, cps) && i < |cps|
    ensures Anchors(rs, cps[i])
  {
    hide LinkedCheckpoint, PrintableCheckpoint, SignatureOk, ManagerOf;
    assert HonestAt(codec, key, rs, cps, i);
  }

  lemma WeakenOk(codec: Codec, pub: Option<Verify>, cps: seq<Checkpoint>)
    requires CheckpointsOk(codec, pub, cps)
    ensures forall i :: 0 <= i < |cps| ==> CheckpointOk(codec, None, cps, i)
  {
    hide SignatureOk, CanonicalCheckpoint, ManagerOf;
    forall i | 0 <= i < |cps| ensures CheckpointOk(codec, None, cps, i) {
      assert CheckpointOk(codec, pub, cps, i);
    }
  }

  lemma HonestLinked(codec: Codec, key: Option<KeyPair>, rs: seq<AuditRecord>, cps: seq<Checkpoint>)
    requires HonestCheckpoints(codec, key, rs, cps)
    ensures PrintableCheckpoints(cps) && forall i :: 0 <= i < |cps| ==> LinkedCheckpoint(codec, cps, i)
  {
    hide LinkedCheckpoint, PrintableCheckpoint, SignatureOk, ManagerOf;
    forall i | 0 <= i < |cps| ensures LinkedCheckpoint(codec, cps, i) && PrintableCheckpoint(cps[i]) {
      assert HonestAt(codec, key, rs, cps, i);
    }
  }

  /**
   The limit of the check: it is never made on an empty log. Emptying the log of an honest run leaves
   no issue to report; cutting it anywhere else below the latest anchor is reported.
   */
  lemma OnlyTotalTruncationIsMissed(
    codec: Codec, key: Option<KeyPair>, honest: seq<AuditRecord>, audit: string, checkpoints: string)
    requires codec.Lawful() && ReadCheckpoints(codec, [], checkpoints).Some?
    requires var cps := ReadCheckpoints(codec, [], checkpoints).value;
      cps != [] && HonestCheckpoints(codec, key, honest, cps)
    requires var cps := ReadCheckpoints(codec, [], checkpoints).value;
      ReadLog(codec, audit).fault.None? && |ReadLog(codec, audit).records| < cps[|cps| - 1].anchorSeq
    ensures ReportOf(codec, if key.None? then None else Some(key.value.verify), Some(audit), Some(checkpoints)).Some?
    ensures var pub := if key.None? then None else Some(key.value.verify);
      ReportOf(codec, pub, Some(audit), Some(checkpoints)).value.issues == []
      <==> ReadLog(codec, audit).records == []
  {
    hide Read, ReadCheckpoints, ReportOf, CanonicalCheckpoint, SignatureOk;
    var cps := ReadCheckpoints(codec, [], checkpoints).value;
    var pub := if key.None? then None else Some(key.value.verify);
    VerifiesExactlyWhen(codec, pub, Some(audit), Some(checkpoints));
    HonestVerify(codec, key, honest, cps);
    ReportReadable(codec, pub, audit, checkpoints);
  }

  lemma ReportReadable(codec: Codec, pub: Option<Verify>, audit: string, checkpoints: string)
    requires ReadCheckpoints(codec, [], checkpoints).Some?
    ensures ReportOf(codec, pub, Some(audit), Some(checkpoints)).Some?
  {
    hide Read, ReadCheckpoints, ChainIssues, GapIssues, AnchorIssues;
  }

  /** Honest checkpoints pass every check made on checkpoints alone. */
  lemma HonestVerify(codec: Codec, key: Option<KeyPair>, rs: seq<AuditRecord>, cps: seq<Checkpoint>)
    requires HonestCheckpoints(codec, key, rs, cps)
    ensures CheckpointsOk(codec, if key.None? then None else Some(key.value.verify), cps)
  {
    hide CanonicalCheckpoint, SignatureOk, PrintableCheckpoint, ManagerOf;
    var pub := if key.None? then None else Some(key.value.verify);
    forall i | 0 <= i < |cps| ensures CheckpointOk(codec, pub, cps, i) && cps[i].seqNo == i + 1 {
      assert HonestAt(codec, key, rs, cps, i);
    }
  }
}
