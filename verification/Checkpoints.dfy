/** The signed checkpoint chain: reading the checkpoint file and making the next checkpoint. */
module Checkpoints {
  import opened Base
  import opened Json
  import opened JsonPrefix
  import opened Records
  import opened RecordTheorems
  import opened Chain
  import opened ChainTheorems
  import opened Appending
  import JsonLex
  import JsonRoundTrip
  import Utf8
  import Values

  /** A key pair: `sign` takes the message and the entropy drawn for this signature. */
  datatype KeyPair = KeyPair(sign: (string, string) -> string, verify: (string, string) -> bool) {
    ghost predicate Lawful() {
      forall m, e :: sign(m, e) != "" && Utf8.Valid(sign(m, e)) && verify(m, sign(m, e))
    }
  }

  /** `VerifySignature`: the signature is over the digest of the hash text. */
  predicate SignatureOk(codec: Codec, verify: (string, string) -> bool, c: Checkpoint) {
    c.hash != "" && c.signature != "" && verify(codec.sha(c.hash), c.signature)
  }

  /** All checkpoints of a file; None when a line is malformed or too long. */
  function ReadCheckpoints(codec: Codec, cps: seq<Checkpoint>, rest: string): Option<seq<Checkpoint>>
    decreases |rest|
  {
    if rest == "" then Some(cps)
    else if |Line(rest)| >= MAX_LINE then None
    else if Token(rest) == "" then ReadCheckpoints(codec, cps, Rest(rest))
    else
      var c :- codec.decodeCheckpoint(Token(rest));
      ReadCheckpoints(codec, cps + [c], Rest(rest))
  }

  /** The state a manager rebuilds from the last checkpoint of its file. */
  datatype Manager = Manager(cpSeq: int, prevHash: string, anchorSeq: int, anchorHash: string)

  function ManagerOf(cps: seq<Checkpoint>): Manager {
    if cps == [] then Manager(0, "", 0, "")
    else var c := cps[|cps| - 1]; Manager(c.seqNo, c.hash, c.anchorSeq, c.anchorHash)
  }

  function NewCheckpoint(
    codec: Codec, key: Option<KeyPair>, m: Manager, seqNo: int, hash: string, now: string, entropy: string): Checkpoint
  {
    var c := Checkpoint(m.cpSeq + 1, seqNo, hash, m.prevHash, "", "", now);
    var h := codec.CheckpointHash(c);
    c.(hash := h, signature := if key.None? then "" else key.value.sign(codec.sha(h), entropy))
  }

  /** A due checkpoint: the head has moved at least a cadence past the last anchor. */
  predicate Due(cadence: int, m: Manager, headSeq: int) { cadence > 0 && headSeq >= m.anchorSeq + cadence }

  /******* Reading what was written *******/

  lemma EncodeCheckpointNoControl(c: Checkpoint)
    requires PrintableCheckpoint(c)
    ensures EncodeCheckpoint(c) != "" && NoControl(EncodeCheckpoint(c)) && EncodeCheckpoint(c)[0] == '{'
  {
    hide Print, Printable, CheckpointMembers, Utf8.Valid, Numeric, CleanTree;
    CheckpointLinePrintable(c);
    JsonRoundTrip.CleanPrintable(Obj(CheckpointMembers(c)));
    PrintNoControl(Obj(CheckpointMembers(c)));
    JsonLex.ObjectStart(CheckpointMembers(c));
  }

  lemma EncodeCheckpointOneLine(c: Checkpoint)
    requires PrintableCheckpoint(c)
    ensures OneLine(EncodeCheckpoint(c))
  {
    hide EncodeCheckpoint, PrintableCheckpoint;
    EncodeCheckpointNoControl(c);
    NoControlOneLine(EncodeCheckpoint(c));
  }

  lemma {:induction false} ReadCheckpointsConcat(codec: Codec, cps: seq<Checkpoint>, f: string, g: string)
    requires Terminated(f) && ReadCheckpoints(codec, cps, f).Some?
    ensures ReadCheckpoints(codec, cps, f + g) == ReadCheckpoints(codec, ReadCheckpoints(codec, cps, f).value, g)
    decreases |f|
  {
    if f == "" {
      assert f + g == g;
    } else {
      LineConcat(f, g);
      hide Line, Rest, DropCR, Terminated;
      if Token(f) == "" {
        ReadCheckpointsConcat(codec, cps, Rest(f), g);
      } else {
        ReadCheckpointsConcat(codec, cps + [codec.decodeCheckpoint(Token(f)).value], Rest(f), g);
      }
    }
  }

  /** One line behind a good file is read, or spoils the whole file. */
  lemma CheckpointLine(codec: Codec, data: string, line: string)
    requires Terminated(data) && ReadCheckpoints(codec, [], data).Some? && OneLine(line)
    ensures var cps := ReadCheckpoints(codec, [], data).value;
      var c := codec.decodeCheckpoint(line);
      var r := if |line| < MAX_LINE && c.Some? then Some(cps + [c.value]) else None;
      ReadCheckpoints(codec, [], data + line + "\n") == r && ReadCheckpoints(codec, [], data + line) == r
  {
    var whole := line + "\n";
    ReadCheckpointsConcat(codec, [], data, line);
    ReadCheckpointsConcat(codec, [], data, whole);
    OneLineToken(line);
    hide Line, Rest, DropCR, Terminated, OneLine;
    assert data + line + "\n" == data + whole;
    var cps := ReadCheckpoints(codec, [], data).value;
    assert ReadCheckpoints(codec, cps, line) == ReadCheckpoints(codec, cps, whole);
  }

  lemma CheckpointWritten(codec: Codec, data: string, c: Checkpoint)
    requires codec.CheckpointLaws() && PrintableCheckpoint(c) && |EncodeCheckpoint(c)| < MAX_LINE
    requires Terminated(data) && ReadCheckpoints(codec, [], data).Some?
    ensures ReadCheckpoints(codec, [], data + EncodeCheckpoint(c) + "\n")
            == Some(ReadCheckpoints(codec, [], data).value + [c])
    ensures Terminated(data + EncodeCheckpoint(c) + "\n")
  {
    hide EncodeCheckpoint, PrintableCheckpoint, ReadCheckpoints;
    EncodeCheckpointOneLine(c);
    CheckpointLine(codec, data, EncodeCheckpoint(c));
  }

  /** A checkpoint line cut short makes the whole file unreadable: there is no recovery for checkpoints. */
  lemma TornCheckpointUnreadable(codec: Codec, data: string, c: Checkpoint, k: nat)
    requires codec.CheckpointLaws() && PrintableCheckpoint(c) && |EncodeCheckpoint(c)| < MAX_LINE
    requires Terminated(data) && ReadCheckpoints(codec, [], data).Some? && k <= |EncodeCheckpoint(c)|
    ensures ReadCheckpoints(codec, [], data + EncodeCheckpoint(c)[..k]).None? <==> 0 < k < |EncodeCheckpoint(c)|
  {
    hide EncodeCheckpoint, PrintableCheckpoint, ReadCheckpoints, OneLine;
    EncodeCheckpointNoControl(c);
    var torn := EncodeCheckpoint(c)[..k];
    if k == 0 {
      assert data + torn == data;
    } else {
      assert k == |EncodeCheckpoint(c)| ==> torn == EncodeCheckpoint(c);
      NoControlOneLine(torn);
      CheckpointLine(codec, data, torn);
    }
  }

  /** Behind an unreadable line the file stays unreadable. */
  lemma {:induction false} CheckpointsStayBroken(codec: Codec, cps: seq<Checkpoint>, f: string, g: string)
    requires Terminated(f) && ReadCheckpoints(codec, cps, f).None?
    ensures ReadCheckpoints(codec, cps, f + g).None?
    decreases |f|
  {
    LineConcat(f, g);
    hide Line, Rest, DropCR, Terminated;
    if |Line(f)| < MAX_LINE {
      if Token(f) == "" {
        CheckpointsStayBroken(codec, cps, Rest(f), g);
      } else if codec.decodeCheckpoint(Token(f)).Some? {
        CheckpointsStayBroken(codec, cps + [codec.decodeCheckpoint(Token(f)).value], Rest(f), g);
      }
    }
  }

  /** Anything that begins like an object behind a checkpoint without newline: the two become one unreadable line. */
  lemma PieceMerged(codec: Codec, data: string, piece: string)
    requires codec.CheckpointLaws() && ReadCheckpoints(codec, [], data).Some? && OneLine(piece) && piece[0] == '{'
    requires !Terminated(data) && data[|data| - 1] != '\r'
    ensures ReadCheckpoints(codec, [], data + piece).None? && ReadCheckpoints(codec, [], data + piece + "\n").None?
  {
    hide PrintableCheckpoint, EncodeCheckpoint, ReadCheckpoints, LastLine, Ended;
    LastLineIs(data);
    LastLineEnds(data);
    var ended, last := Ended(data), LastLine(data);
    if ReadCheckpoints(codec, [], ended).None? { CheckpointsStayBroken(codec, [], ended, last); }
    assert last[|last| - 1] == data[|data| - 1];
    assert OneLine(last) by { PieceOneLine(last); }
    assert piece != "";
    hide OneLine;
    CheckpointLine(codec, ended, last);
    MergedOneLine(last, piece);
    var merged := last + piece;
    assert codec.decodeCheckpoint(merged).None?;
    CheckpointLine(codec, ended, merged);
    assert data + piece == ended + merged;
    assert data + piece + "\n" == ended + merged + "\n";
  }

  /** A checkpoint behind one that lost its newline: the file is unreadable for good. */
  lemma CheckpointMerged(codec: Codec, data: string, c: Checkpoint, later: string)
    requires codec.CheckpointLaws() && PrintableCheckpoint(c) && ReadCheckpoints(codec, [], data).Some?
    requires !Terminated(data) && data[|data| - 1] != '\r'
    ensures ReadCheckpoints(codec, [], data + EncodeCheckpoint(c) + "\n" + later).None?
  {
    hide EncodeCheckpoint, PrintableCheckpoint, ReadCheckpoints, OneLine, Codec.CheckpointLaws;
    EncodeCheckpointNoControl(c);
    EncodeCheckpointOneLine(c);
    PieceMerged(codec, data, EncodeCheckpoint(c));
    CheckpointsStayBroken(codec, [], data + EncodeCheckpoint(c) + "\n", later);
  }

  lemma PieceOneLine(piece: string)
    requires piece != "" && piece[|piece| - 1] != '\r' && forall i :: 0 <= i < |piece| ==> piece[i] != '\n'
    ensures OneLine(piece)
  {
  }

  /******* Anchored chains *******/

  /** Checkpoint i of a chain over the records rs. */
  ghost predicate LinkedCheckpoint(codec: Codec, cps: seq<Checkpoint>, i: nat)
    requires i < |cps|
  {
    && cps[i].seqNo == i + 1
    && cps[i].prevHash == ManagerOf(cps[..i]).prevHash
    && cps[i].hash == codec.CheckpointHash(cps[i])
  }

  ghost predicate Anchors(rs: seq<AuditRecord>, c: Checkpoint) {
    1 <= c.anchorSeq <= |rs| && c.anchorHash == rs[c.anchorSeq - 1].recordHash
  }

  ghost predicate HonestAt(codec: Codec, key: Option<KeyPair>, rs: seq<AuditRecord>, cps: seq<Checkpoint>, i: nat)
    requires i < |cps|
  {
    && LinkedCheckpoint(codec, cps, i)
    && PrintableCheckpoint(cps[i])
    && Anchors(rs, cps[i])
    && ManagerOf(cps[..i]).anchorSeq < cps[i].anchorSeq
    && (key.Some? ==> SignatureOk(codec, key.value.verify, cps[i]))
  }

  /** What an honest writer keeps: linked, printable, signed, anchored ever further along the log. */
  ghost predicate HonestCheckpoints(codec: Codec, key: Option<KeyPair>, rs: seq<AuditRecord>, cps: seq<Checkpoint>) {
    forall i :: 0 <= i < |cps| ==> HonestAt(codec, key, rs, cps, i)
  }

  lemma HonestSnoc(codec: Codec, key: Option<KeyPair>, rs: seq<AuditRecord>, cps: seq<Checkpoint>, c: Checkpoint)
    requires HonestCheckpoints(codec, key, rs, cps) && HonestAt(codec, key, rs, cps + [c], |cps|)
    ensures HonestCheckpoints(codec, key, rs, cps + [c])
  {
    hide PrintableCheckpoint, SignatureOk, Anchors, ManagerOf, CanonicalCheckpoint;
    var cps' := cps + [c];
    forall i | 0 <= i < |cps'| ensures HonestAt(codec, key, rs, cps', i) {
      if i < |cps| {
        assert HonestAt(codec, key, rs, cps, i);
        assert cps'[..i] == cps[..i] && cps'[i] == cps[i];
      }
    }
  }

  /** The hash covers neither itself nor the signature. */
  lemma NewCheckpointHashed(
    codec: Codec, key: Option<KeyPair>, m: Manager, seqNo: int, hash: string, now: string, entropy: string)
    ensures var c := NewCheckpoint(codec, key, m, seqNo, hash, now, entropy);
      c.hash == codec.CheckpointHash(c)
  {
    hide Print;
  }

  /** A new checkpoint of the current head continues an honest chain. */
  lemma NextCheckpointHonest(
    codec: Codec, key: Option<KeyPair>, rs: seq<AuditRecord>, cps: seq<Checkpoint>, now: string, entropy: string)
    requires codec.HashLaws() && (key.Some? ==> key.value.Lawful())
    requires HonestCheckpoints(codec, key, rs, cps) && ValidChain(codec, rs) && AllPrintable(rs)
    requires rs != [] && ManagerOf(cps).anchorSeq < |rs| && Utf8.Valid(now) && Int64(|cps| + 1)
    ensures var c := NewCheckpoint(codec, key, ManagerOf(cps), |rs|, HeadHash(rs), now, entropy);
      HonestCheckpoints(codec, key, rs, cps + [c]) && PrintableCheckpoint(c)
  {
    var c := NewCheckpoint(codec, key, ManagerOf(cps), |rs|, HeadHash(rs), now, entropy);
    hide PrintableCheckpoint, SignatureOk, CanonicalCheckpoint, HonestCheckpoints, ValidChain, AllPrintable, Utf8.Valid;
    NewPrintable(codec, key, rs, cps, now, entropy);
    NewSigned(codec, key, ManagerOf(cps), |rs|, HeadHash(rs), now, entropy);
    NewCheckpointHashed(codec, key, ManagerOf(cps), |rs|, HeadHash(rs), now, entropy);
    assert (cps + [c])[..|cps|] == cps && (cps + [c])[|cps|] == c;
    HonestSnoc(codec, key, rs, cps, c);
  }

  lemma NewSigned(
    codec: Codec, key: Option<KeyPair>, m: Manager, seqNo: int, hash: string, now: string, entropy: string)
    requires codec.HashLaws() && (key.Some? ==> key.value.Lawful())
    ensures key.Some? ==>
      SignatureOk(codec, key.value.verify, NewCheckpoint(codec, key, m, seqNo, hash, now, entropy))
  {
    hide Utf8.Valid, CanonicalCheckpoint;
  }

  lemma NewPrintable(
    codec: Codec, key: Option<KeyPair>, rs: seq<AuditRecord>, cps: seq<Checkpoint>, now: string, entropy: string)
    requires codec.HashLaws() && (key.Some? ==> key.value.Lawful())
    requires HonestCheckpoints(codec, key, rs, cps) && ValidChain(codec, rs) && AllPrintable(rs)
    requires rs != [] && Utf8.Valid(now) && Int64(|cps| + 1)
    ensures PrintableCheckpoint(NewCheckpoint(codec, key, ManagerOf(cps), |rs|, HeadHash(rs), now, entropy))
    ensures ManagerOf(cps).cpSeq == |cps|
  {
    AsciiValid("");
    HeadSeqIsLength(codec, rs);
    hide Utf8.Valid, CanonicalCheckpoint, Canonical, Values.Printable, PrintableHosted;
    assert PrintableRecord(Last(rs));
    if cps != [] {
      assert HonestAt(codec, key, rs, cps, |cps| - 1);
    }
  }

  /** More records never spoil an honest checkpoint chain. */
  lemma MoreRecords(
    codec: Codec, key: Option<KeyPair>, rs: seq<AuditRecord>, more: seq<AuditRecord>, cps: seq<Checkpoint>)
    requires HonestCheckpoints(codec, key, rs, cps)
    ensures HonestCheckpoints(codec, key, rs + more, cps)
  {
    hide LinkedCheckpoint, PrintableCheckpoint, SignatureOk, ManagerOf;
    forall i | 0 <= i < |cps| ensures HonestAt(codec, key, rs + more, cps, i) {
      assert HonestAt(codec, key, rs, cps, i);
    }
  }
}
