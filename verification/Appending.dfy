/** What one append does to a log, for fresh and stale writers, and what a crash in the middle of it leaves. */
module Appending {
  import opened Base
  import opened Json
  import opened JsonPrefix
  import opened Records
  import opened RecordTheorems
  import opened Chain
  import opened ChainTheorems
  import JsonRoundTrip
  import Utf8

  /** The caller's content with the chain fields assigned and the hash computed. */
  function Stamp(codec: Codec, content: AuditRecord, seqNo: int, hash: string): AuditRecord {
    var r := content.(seqNo := seqNo + 1, prevHash := hash);
    r.(recordHash := codec.RecordHash(r))
  }

  function NextLine(codec: Codec, content: AuditRecord, seqNo: int, hash: string): string {
    Encode(Stamp(codec, content, seqNo, hash))
  }

  /** The hash does not depend on the hash field. */
  lemma StampHashed(codec: Codec, content: AuditRecord, seqNo: int, hash: string)
    ensures codec.RecordHash(Stamp(codec, content, seqNo, hash)) == Stamp(codec, content, seqNo, hash).recordHash
  {
    var r := content.(seqNo := seqNo + 1, prevHash := hash);
    assert CanonicalTree(r) == CanonicalTree(r.(recordHash := codec.RecordHash(r)));
  }

  /******* Single lines *******/

  /** A line the scanner hands out as it is. */
  predicate OneLine(s: string) {
    s != "" && s[|s| - 1] != '\r' && forall i :: 0 <= i < |s| ==> s[i] != '\n'
  }

  lemma NoControlOneLine(s: string)
    requires s != "" && NoControl(s)
    ensures OneLine(s)
  {
    assert s[|s| - 1] as int >= 0x20;
  }

  lemma EncodeNoControl(r: AuditRecord)
    requires Writable(r)
    ensures Encode(r) != "" && NoControl(Encode(r))
  {
    hide Print, Numeric, LineMembers;
    LineNumeric(r);
    PrintNoControl(Obj(LineMembers(r)));
    JsonRoundTrip.PrintHead(Obj(LineMembers(r)));
  }

  lemma EncodeOneLine(r: AuditRecord)
    requires Writable(r)
    ensures OneLine(Encode(r))
  {
    hide Encode, Writable;
    EncodeNoControl(r);
    NoControlOneLine(Encode(r));
  }

  lemma OneLineToken(line: string)
    requires OneLine(line)
    ensures Line(line + "\n") == line && Rest(line + "\n") == "" && Token(line + "\n") == line
    ensures Line(line) == line && Rest(line) == "" && Token(line) == line
  {
    hide LineEnd;
    ConsLine(line, "");
    assert line + "\n" + "" == line + "\n";
  }

  /** Reading one line, with or without its newline. */
  lemma ReadOneLine(codec: Codec, rs: seq<AuditRecord>, line: string)
    requires OneLine(line)
    ensures var rd := if |line| >= MAX_LINE then Reading(rs, Some(LineTooLong))
                      else match Check(codec, rs, line)
                        case Ok(r) => Reading(rs + [r], None)
                        case Err(f) => Reading(rs, Some(f));
      Read(codec, rs, line + "\n") == rd && Read(codec, rs, line) == rd
    ensures Read(codec, rs, line).fault.Some? ==>
              BreakAt(codec, rs, line + "\n") == 0 && BreakAt(codec, rs, line) == 0
    ensures StrippedBefore(codec, rs, line + "\n") == 0 && StrippedBefore(codec, rs, line) == 0
  {
    OneLineToken(line);
    hide Check, Line, Rest, DropCR;
  }

  /** Break point and stripped bytes of a text behind a faultless one. */
  lemma {:induction false} BreakConcat(codec: Codec, rs: seq<AuditRecord>, f: string, g: string)
    requires Terminated(f) && Read(codec, rs, f).fault.None?
    ensures BreakAt(codec, rs, f + g) == |f| + BreakAt(codec, Read(codec, rs, f).records, g)
    ensures StrippedBefore(codec, rs, f + g)
         == StrippedBefore(codec, rs, f) + StrippedBefore(codec, Read(codec, rs, f).records, g)
    decreases |f|
  {
    if f == "" {
      assert f + g == g;
    } else {
      LineConcat(f, g);
      hide Check, Line, Rest, DropCR, Terminated;
      if Token(f) == "" {
        BreakConcat(codec, rs, Rest(f), g);
      } else {
        BreakConcat(codec, rs + [Check(codec, rs, Token(f)).value], Rest(f), g);
      }
    }
  }

  /** A log with no fault and no carriage return in the way; its last line may lack its newline. */
  predicate Whole(codec: Codec, data: string) {
    ReadLog(codec, data).fault.None? && StrippedBefore(codec, [], data) == 0
  }

  /** A newline-terminated log with no fault; the state every append should find. */
  predicate Sound(codec: Codec, data: string) { Terminated(data) && Whole(codec, data) }

  /**
   Appending any one line to a faultless newline-terminated log only depends on whether the line extends the chain.
   */
  lemma AppendLine(codec: Codec, data: string, line: string)
    requires Terminated(data) && ReadLog(codec, data).fault.None? && OneLine(line)
    ensures var rs := ReadLog(codec, data).records;
      && ReadLog(codec, data + line + "\n") == Read(codec, rs, line)
      && ReadLog(codec, data + line) == Read(codec, rs, line)
      && (Read(codec, rs, line).fault.Some? ==>
            BreakAt(codec, [], data + line) == |data| && BreakAt(codec, [], data + line + "\n") == |data|)
      && StrippedBefore(codec, [], data + line) == StrippedBefore(codec, [], data)
      && StrippedBefore(codec, [], data + line + "\n") == StrippedBefore(codec, [], data)
  {
    hide Read, BreakAt, StrippedBefore, Check;
    var rs := ReadLog(codec, data).records;
    ReadOneLine(codec, rs, line);
    ReadConcat(codec, [], data, line);
    BreakConcat(codec, [], data, line);
    var whole := line + "\n";
    ReadConcat(codec, [], data, whole);
    BreakConcat(codec, [], data, whole);
    assert data + line + "\n" == data + whole;
  }

  /** Behind a bad line nothing is ever read again: later appends, fresh or stale, are lost to every reader. */
  lemma {:induction false} BrokenStaysBroken(codec: Codec, rs: seq<AuditRecord>, f: string, g: string)
    requires Terminated(f) && Read(codec, rs, f).fault.Some?
    ensures Read(codec, rs, f + g) == Read(codec, rs, f) && BreakAt(codec, rs, f + g) == BreakAt(codec, rs, f)
    decreases |f|
  {
    LineConcat(f, g);
    hide Check, Line, Rest, DropCR, Terminated;
    if |Line(f)| < MAX_LINE {
      if Token(f) == "" {
        BrokenStaysBroken(codec, rs, Rest(f), g);
      } else if Check(codec, rs, Token(f)).Ok? {
        BrokenStaysBroken(codec, rs + [Check(codec, rs, Token(f)).value], Rest(f), g);
      }
    }
  }

  /******* The last line *******/

  /** A piece of text without newline is one line. */
  lemma PieceToken(piece: string)
    requires piece != "" && forall i :: 0 <= i < |piece| ==> piece[i] != '\n'
    ensures Line(piece) == piece && Rest(piece) == "" && Token(piece) == DropCR(piece)
  {
    hide LineEnd;
  }

  lemma ReadPiece(codec: Codec, rs: seq<AuditRecord>, piece: string)
    requires piece != "" && forall i :: 0 <= i < |piece| ==> piece[i] != '\n'
    ensures Read(codec, rs, piece) ==
            if |piece| >= MAX_LINE then Reading(rs, Some(LineTooLong))
            else if DropCR(piece) == "" then Reading(rs, None)
            else match Check(codec, rs, DropCR(piece))
              case Ok(r) => Reading(rs + [r], None)
              case Err(f) => Reading(rs, Some(f))
    ensures Read(codec, rs, piece).fault.None? ==> StrippedBefore(codec, rs, piece) == |piece| - |DropCR(piece)|
  {
    PieceToken(piece);
    hide Check, Line, Rest, DropCR;
  }

  lemma {:induction false} LastLineIs(s: string)
    ensures s == Ended(s) + LastLine(s) && Terminated(Ended(s))
    ensures forall i :: 0 <= i < |LastLine(s)| ==> LastLine(s)[i] != '\n'
    decreases |s|
  {
    hide LastLine, Ended;
    if Terminated(s) {
      LastLineEnds(s);
    } else {
      var n := |s| - 1;
      LastLineIs(s[..n]);
      LastLineStep(s);
      assert s == s[..n] + [s[n]];
    }
  }

  lemma LastLineStep(s: string)
    requires !Terminated(s)
    ensures var n := |s| - 1; LastLine(s) == LastLine(s[..n]) + [s[n]] && Ended(s) == Ended(s[..n])
  {
    var n := |s| - 1;
    var init := s[..n];
    assert LastLine(s) == LastLine(init) + [s[n]];
    hide LastLine, Terminated;
    var k := |LastLine(init)|;
    assert init[..n - k] == s[..n - k];
  }

  /** A faultless log is a faultless newline-terminated log and one more line, which is blank or one more record. */
  lemma LastRead(codec: Codec, data: string)
    requires ReadLog(codec, data).fault.None?
    ensures var ended, last := Ended(data), LastLine(data);
      var rs := ReadLog(codec, data).records;
      var before := ReadLog(codec, ended);
      && data == ended + last && Terminated(ended) && before.fault.None?
      && (DropCR(last) == "" ==> before.records == rs)
      && (DropCR(last) != "" ==>
            && codec.decodeRecord(DropCR(last)).Some? && rs != [] && before.records == ButLast(rs)
            && rs == before.records + [codec.decodeRecord(DropCR(last)).value])
      && StrippedBefore(codec, [], data) == StrippedBefore(codec, [], ended) + |last| - |DropCR(last)|
  {
    hide Read, StrippedBefore, BreakAt, DropCR, LastLine;
    LastLineIs(data);
    hide Ended;
    var ended, last := Ended(data), LastLine(data);
    if ReadLog(codec, ended).fault.Some? { BrokenStaysBroken(codec, [], ended, last); }
    ReadConcat(codec, [], ended, last);
    BreakConcat(codec, [], ended, last);
    var rs0 := ReadLog(codec, ended).records;
    if last == "" {
      assert data == ended;
      NoCR();
    } else {
      ReadPiece(codec, rs0, last);
      if DropCR(last) != "" { CheckedRecord(codec, rs0, DropCR(last)); }
    }
  }

  lemma NoCR()
    ensures DropCR("") == ""
  {
  }

  lemma CheckedRecord(codec: Codec, rs: seq<AuditRecord>, token: string)
    requires Check(codec, rs, token).Ok?
    ensures codec.decodeRecord(token) == Some(Check(codec, rs, token).value)
  {
  }

  lemma WholeEnded(codec: Codec, data: string)
    requires Whole(codec, data)
    ensures Sound(codec, Ended(data)) && DropCR(LastLine(data)) == LastLine(data)
    ensures Terminated(data) <==> LastLine(data) == ""
    ensures Terminated(data) ==> Ended(data) == data
  {
    hide ReadLog, StrippedBefore, LastLine, Ended, Terminated, DropCR;
    LastRead(codec, data);
    DropCRLength(LastLine(data));
    LastLineEnds(data);
  }

  lemma DropCRLength(s: string)
    ensures |DropCR(s)| <= |s| && (|DropCR(s)| == |s| ==> DropCR(s) == s)
  {
  }

  lemma LastLineEnds(s: string)
    ensures Terminated(s) <==> LastLine(s) == ""
    ensures Terminated(s) ==> Ended(s) == s
  {
  }

  /******* Fresh and stale writers *******/

  predicate Fresh(rs: seq<AuditRecord>, seqNo: int, hash: string) {
    seqNo == HeadSeq(rs) && hash == HeadHash(rs)
  }

  /** A stamped record passes the chain check exactly when it was stamped from the current head. */
  lemma StampChecked(codec: Codec, rs: seq<AuditRecord>, content: AuditRecord, seqNo: int, hash: string)
    ensures CheckRecord(codec, rs, Stamp(codec, content, seqNo, hash)).Ok? <==> Fresh(rs, seqNo, hash)
    ensures Fresh(rs, seqNo, hash) ==>
              CheckRecord(codec, rs, Stamp(codec, content, seqNo, hash)) == Ok(Stamp(codec, content, seqNo, hash))
  {
    StampHashed(codec, content, seqNo, hash);
    hide Canonical;
  }

  /** The line of a JSON-normal record decodes to it. */
  lemma NormalDecodes(codec: Codec, r: AuditRecord)
    requires codec.RecordLaws() && codec.Normal(r)
    ensures Writable(r) && codec.decodeRecord(Encode(r)) == Some(r)
  {
    hide Encode, Reread, PrintableRecord, Writable, PayloadSurvives, Codec.TailLaws, Codec.SpaceLaws;
    PrintableWritable(r);
    RereadUnchanged(codec.reprint, r);
  }

  /** An append behind an ended log, by a fresh or a stale writer. */
  lemma AppendEnded(codec: Codec, data: string, content: AuditRecord, seqNo: int, hash: string)
    requires codec.RecordLaws() && Terminated(data) && ReadLog(codec, data).fault.None?
    requires codec.Normal(Stamp(codec, content, seqNo, hash))
    ensures var rs := ReadLog(codec, data).records;
      var line := NextLine(codec, content, seqNo, hash);
      var after := ReadLog(codec, data + line + "\n");
      && (after.fault.None? <==> Fresh(rs, seqNo, hash) && |line| < MAX_LINE)
      && (after.fault.None? ==> after.records == rs + [Stamp(codec, content, seqNo, hash)])
      && (after.fault.Some? ==> after.records == rs && BreakAt(codec, [], data + line + "\n") == |data|)
      && StrippedBefore(codec, [], data + line + "\n") == StrippedBefore(codec, [], data)
  {
    var rs := ReadLog(codec, data).records;
    var r := Stamp(codec, content, seqNo, hash);
    StampChecked(codec, rs, content, seqNo, hash);
    hide ReadLog, Read, BreakAt, StrippedBefore, Encode, Stamp, CheckRecord, Codec.Normal, Writable, OneLine,
      Codec.RecordLaws;
    NormalDecodes(codec, r);
    EncodeOneLine(r);
    AppendLine(codec, data, Encode(r));
    ReadOneLine(codec, rs, Encode(r));
  }

  /** The text of the last line, with whatever carriage return it ends in, still decodes. */
  lemma LastDecodes(codec: Codec, last: string)
    requires codec.SpaceLaws() && codec.decodeRecord(DropCR(last)).Some?
    ensures codec.decodeRecord(last).Some?
  {
    DropCRSplit(last);
    hide DropCR;
  }

  lemma DropCRSplit(s: string)
    ensures DropCR(s) == s || s == DropCR(s) + "\r"
  {
  }

  /** A line behind a piece of text without newline: the two become one line. */
  lemma AppendPiece(codec: Codec, data: string, line: string)
    requires ReadLog(codec, data).fault.None? && OneLine(line)
    ensures var ended, merged := Ended(data), LastLine(data) + line;
      var before := ReadLog(codec, ended).records;
      var after := ReadLog(codec, data + line + "\n");
      && after == (if |merged| >= MAX_LINE then Reading(before, Some(LineTooLong))
                   else match Check(codec, before, merged)
                     case Ok(r) => Reading(before + [r], None)
                     case Err(f) => Reading(before, Some(f)))
      && (after.fault.Some? ==> BreakAt(codec, [], data + line + "\n") == |ended|)
      && StrippedBefore(codec, [], data + line + "\n") == StrippedBefore(codec, [], ended)
  {
    hide ReadLog, Read, BreakAt, StrippedBefore, Check, LastLine, Ended, DropCR, OneLine;
    var ended, last := Ended(data), LastLine(data);
    LastRead(codec, data);
    LastLineIs(data);
    var merged := last + line;
    MergedOneLine(last, line);
    AppendLine(codec, ended, merged);
    ReadOneLine(codec, ReadLog(codec, ended).records, merged);
    assert data + line + "\n" == ended + merged + "\n";
  }

  /** An append behind a record without newline: what comes out is no record. */
  lemma AppendMerged(codec: Codec, data: string, r: AuditRecord)
    requires codec.RecordLaws() && ReadLog(codec, data).fault.None? && Writable(r) && DropCR(LastLine(data)) != ""
    ensures var before := ReadLog(codec, Ended(data)).records;
      var after := ReadLog(codec, data + Encode(r) + "\n");
      && (after.fault == Some(Malformed) || after.fault == Some(LineTooLong)) && after.records == before
      && BreakAt(codec, [], data + Encode(r) + "\n") == |Ended(data)|
    ensures StrippedBefore(codec, [], data + Encode(r) + "\n") == StrippedBefore(codec, [], Ended(data))
  {
    hide ReadLog, Read, BreakAt, StrippedBefore, Encode, CheckRecord, Writable, DropCR, LastLine, Ended, OneLine,
      Codec.RecordLaws;
    LastRead(codec, data);
    LineStart(r);
    MergedUndecodable(codec, LastLine(data), Encode(r));
    EncodeOneLine(r);
    AppendPiece(codec, data, Encode(r));
  }

  lemma MergedUndecodable(codec: Codec, last: string, line: string)
    requires codec.RecordLaws() && codec.decodeRecord(DropCR(last)).Some? && line != "" && line[0] == '{'
    ensures codec.decodeRecord(last + line).None?
  {
    hide Codec.LineLaws, DropCR;
    LastDecodes(codec, last);
    hide Codec.SpaceLaws;
  }

  lemma MergedOneLine(piece: string, line: string)
    requires (forall i :: 0 <= i < |piece| ==> piece[i] != '\n') && OneLine(line)
    ensures OneLine(piece + line)
  {
  }

  /** An append behind a blank line that is a lone carriage return: white space in front of the record. */
  lemma AppendBehindCR(codec: Codec, data: string, content: AuditRecord, seqNo: int, hash: string)
    requires codec.RecordLaws() && ReadLog(codec, data).fault.None? && LastLine(data) == "\r"
    requires codec.Normal(Stamp(codec, content, seqNo, hash))
    ensures var rs := ReadLog(codec, Ended(data)).records;
      var line := NextLine(codec, content, seqNo, hash);
      var after := ReadLog(codec, data + line + "\n");
      && (after.fault.None? <==> Fresh(rs, seqNo, hash) && 1 + |line| < MAX_LINE)
      && (after.fault.None? ==> after.records == rs + [Stamp(codec, content, seqNo, hash)])
      && (after.fault.Some? ==> after.records == rs && BreakAt(codec, [], data + line + "\n") == |Ended(data)|)
  {
    var r := Stamp(codec, content, seqNo, hash);
    var rs := ReadLog(codec, Ended(data)).records;
    StampChecked(codec, rs, content, seqNo, hash);
    hide ReadLog, Read, BreakAt, StrippedBefore, Encode, Stamp, CheckRecord, Codec.Normal, Writable, Ended, LastLine,
      OneLine, Codec.RecordLaws, Fresh;
    NormalDecodes(codec, r);
    EncodeOneLine(r);
    LeadingCR(codec, Encode(r));
    AppendPiece(codec, data, Encode(r));
  }

  lemma LeadingCR(codec: Codec, line: string)
    requires codec.RecordLaws()
    ensures codec.decodeRecord("\r" + line) == codec.decodeRecord(line)
  {
    hide Codec.LineLaws, Codec.TailLaws;
  }

  /**
   Several writers on one log: an append keeps a faultless log readable exactly when the writer's cached head is
   the file's head, the log ends in a newline or a blank line, and the line fits the scanner. Otherwise every reader
   stops at the line the append ended up on; if the log did not end in a newline, the record there is lost as well.
   */
  lemma AppendOutcome(codec: Codec, data: string, content: AuditRecord, seqNo: int, hash: string)
    requires codec.RecordLaws() && ReadLog(codec, data).fault.None? && codec.Normal(Stamp(codec, content, seqNo, hash))
    ensures var rs, last := ReadLog(codec, data).records, LastLine(data);
      var line := NextLine(codec, content, seqNo, hash);
      var after := data + line + "\n";
      && (ReadLog(codec, after).fault.None? <==>
            Fresh(rs, seqNo, hash) && DropCR(last) == "" && |last| + |line| < MAX_LINE)
      && (ReadLog(codec, after).fault.None? ==>
            ReadLog(codec, after).records == rs + [Stamp(codec, content, seqNo, hash)])
      && (ReadLog(codec, after).fault.Some? ==>
            && ReadLog(codec, after).records == (if DropCR(last) == "" then rs else ButLast(rs))
            && BreakAt(codec, [], after) == |data| - |last|)
      && (DropCR(last) != "" ==> rs != [])
      && (last == "" ==> StrippedBefore(codec, [], after) == StrippedBefore(codec, [], data))
  {
    hide ReadLog, Read, BreakAt, StrippedBefore, NextLine, Stamp, Codec.RecordLaws, Codec.Normal, LastLine, DropCR,
      Fresh, ButLast, Terminated;
    var r := Stamp(codec, content, seqNo, hash);
    var last := LastLine(data);
    LastRead(codec, data);
    NoCR();
    if last == "" {
      assert Ended(data) == data;
      AppendEnded(codec, data, content, seqNo, hash);
    } else if DropCR(last) == "" {
      LoneCR(last);
      AppendBehindCR(codec, data, content, seqNo, hash);
    } else {
      NormalWritable(codec, r);
      AppendMerged(codec, data, r);
      LineOf(codec, content, seqNo, hash);
    }
  }

  lemma LoneCR(s: string)
    requires s != "" && DropCR(s) == ""
    ensures s == "\r"
  {
  }

  lemma NormalWritable(codec: Codec, r: AuditRecord)
    requires codec.Normal(r)
    ensures Writable(r)
  {
    PrintableWritable(r);
  }

  lemma LineOf(codec: Codec, content: AuditRecord, seqNo: int, hash: string)
    ensures NextLine(codec, content, seqNo, hash) == Encode(Stamp(codec, content, seqNo, hash))
  {
  }

  /******* What is written must be what is read *******/

  /**
   A record appended to a sound log is read back exactly when every string in it is UTF-8, its payload numbers
   survive float64 and its line fits the scanner - unless the hash collides on its canonical bytes before and after
   the trip. Otherwise it breaks the log.
   */
  lemma ReadBackExactly(codec: Codec, data: string, content: AuditRecord)
    requires codec.RecordLaws() && codec.HashLaws() && Terminated(data) && ReadLog(codec, data).fault.None?
    requires var rs := ReadLog(codec, data).records; Writable(Stamp(codec, content, HeadSeq(rs), HeadHash(rs)))
    ensures var rs := ReadLog(codec, data).records;
      var r := Stamp(codec, content, HeadSeq(rs), HeadHash(rs));
      var line := Encode(r);
      && (|line| < MAX_LINE && codec.Normal(r) ==> ReadLog(codec, data + line + "\n") == Reading(rs + [r], None))
      && (ReadLog(codec, data + line + "\n").fault.None? ==>
            && |line| < MAX_LINE && Reread(codec.reprint, r).Some?
            && (codec.Normal(r) || Collision(codec.sha, Canonical(r), Canonical(Reread(codec.reprint, r).value))))
      && (ReadLog(codec, data + line + "\n").fault.Some? ==> ReadLog(codec, data + line + "\n").records == rs)
  {
    var rs := ReadLog(codec, data).records;
    var r := Stamp(codec, content, HeadSeq(rs), HeadHash(rs));
    StampHashed(codec, content, HeadSeq(rs), HeadHash(rs));
    StampChecked(codec, rs, content, HeadSeq(rs), HeadHash(rs));
    hide ReadLog, Read, BreakAt, StrippedBefore, Encode, Stamp, Canonical, Reread, Writable, OneLine, Codec.Normal,
      Codec.TailLaws, Codec.SpaceLaws;
    EncodeOneLine(r);
    AppendLine(codec, data, Encode(r));
    ReadOneLine(codec, rs, Encode(r));
    if codec.Normal(r) {
      NormalDecodes(codec, r);
    } else if Reread(codec.reprint, r).Some? {
      var r' := Reread(codec.reprint, r).value;
      assert codec.decodeRecord(Encode(r)) == Some(r');
      RereadDiffers(codec, r);
    }
  }

  /** A record that is not JSON-normal has other canonical bytes after the trip, and the old hash. */
  lemma RereadDiffers(codec: Codec, r: AuditRecord)
    requires codec.LineLaws() && codec.HashLaws() && Writable(r) && r.recordHash == codec.RecordHash(r)
    requires !codec.Normal(r) && Reread(codec.reprint, r).Some?
    ensures Canonical(Reread(codec.reprint, r).value) != Canonical(r)
    ensures Reread(codec.reprint, r).value.recordHash == r.recordHash
  {
    var r' := Reread(codec.reprint, r).value;
    RereadFields(codec.reprint, r);
    hide Canonical, PayloadSurvives, Reread, Utf8.Valid, CleanText, Encode, SameButHash;
    assert codec.Normal(r') by { assert codec.decodeRecord(Encode(r)) == Some(r'); }
    hide Codec.LineLaws;
    JsonRoundTrip.CleanValidText(r.recordHash);
    if Canonical(r') == Canonical(r) {
      CanonicalSurvives(r, r');
      TreePrintable(r);
      hide Writable, PrintableRecord;
      CanonicalIdentifies(r, r');
      SameRecordAgain(r, r');
      RereadUnchanged(codec.reprint, r);
    }
  }

  lemma RereadFields(reprint: Values.Reprint, r: AuditRecord)
    requires Reread(reprint, r).Some?
    ensures Reread(reprint, r).value.recordHash == CleanText(r.recordHash)
    ensures Reread(reprint, r).value.payload.NilMap? <==> r.payload.NilMap?
  {
    hide Values.FromTree, Values.ToTree, CleanTree, CleanText;
  }

  lemma SameRecordAgain(r: AuditRecord, s: AuditRecord)
    requires SameButHash(r, s) && r.recordHash == s.recordHash && (r.payload.NilMap? <==> s.payload.NilMap?)
    ensures r == s
  {
  }

  /** One stray byte is enough: an actor that is no UTF-8 is written, and breaks the log. */
  lemma StrayByteBreaks(codec: Codec, data: string, content: AuditRecord)
    requires codec.RecordLaws() && codec.HashLaws() && Terminated(data) && ReadLog(codec, data).fault.None?
    requires var rs := ReadLog(codec, data).records; Writable(Stamp(codec, content, HeadSeq(rs), HeadHash(rs)))
    requires content.actor == [Utf8.Byte(0x80)]
    ensures var rs := ReadLog(codec, data).records;
      var r := Stamp(codec, content, HeadSeq(rs), HeadHash(rs));
      && Json.Escape(r.actor) == "\\ufffd" && Json.CleanText(r.actor) == Utf8.REPLACEMENT
      && ((ReadLog(codec, data + Encode(r) + "\n").fault.Some? && ReadLog(codec, data + Encode(r) + "\n").records == rs)
          || (&& Reread(codec.reprint, r).Some?
              && Collision(codec.sha, Canonical(r), Canonical(Reread(codec.reprint, r).value))))
  {
    var rs := ReadLog(codec, data).records;
    var r := Stamp(codec, content, HeadSeq(rs), HeadHash(rs));
    StrayByte(r.actor);
    assert !codec.Normal(r);
    hide ReadLog, Encode, Stamp, Canonical, Reread, Writable, Codec.RecordLaws, Codec.Normal, Json.Escape, CleanText;
    ReadBackExactly(codec, data, content);
  }

  lemma StrayByte(s: string)
    requires s == [Utf8.Byte(0x80)]
    ensures Json.Escape(s) == "\\ufffd" && CleanText(s) == Utf8.REPLACEMENT && !Utf8.Valid(s)
  {
    assert s[1..] == "" && Utf8.RuneLen(s) == 0;
  }

  /******* Crashes *******/

  /**
   A crash that leaves any strict prefix of the line behind a sound log is undone completely by the
   recoverable open: same bytes, same head.
   */
  lemma CrashSafety(codec: Codec, data: string, r: AuditRecord, k: nat)
    requires codec.RecordLaws() && Sound(codec, data) && Writable(r) && k < |Encode(r)|
    ensures var rs := ReadLog(codec, data).records;
      && OpenRecoverable(codec, data + Encode(r)[..k]) == Opened(data, HeadSeq(rs), HeadHash(rs))
      && ReadLog(codec, data + Encode(r)[..k]).records == rs
  {
    var torn := Encode(r)[..k];
    if k == 0 {
      assert data + torn == data;
    } else {
      EncodeNoControl(r);
      hide ReadLog, Encode, Reread, Writable, OpenRecoverable, Codec.TailLaws, Codec.SpaceLaws, OneLine;
      NoControlOneLine(torn);
      assert codec.decodeRecord(torn).None?;
      TailDropped(codec, data, torn);
    }
  }

  /** A tail that is no record is dropped, and nothing else. */
  lemma TailDropped(codec: Codec, data: string, tail: string)
    requires Sound(codec, data) && OneLine(tail) && codec.decodeRecord(tail).None?
    ensures var rs := ReadLog(codec, data).records;
      && OpenRecoverable(codec, data + tail) == Opened(data, HeadSeq(rs), HeadHash(rs))
      && OpenRecoverable(codec, data + tail + "\n") == Opened(data, HeadSeq(rs), HeadHash(rs))
      && ReadLog(codec, data + tail).records == rs && ReadLog(codec, data + tail + "\n").records == rs
  {
    hide Read, BreakAt, StrippedBefore, CheckRecord, Rescan, OneLine;
    AppendLine(codec, data, tail);
    ReadOneLine(codec, ReadLog(codec, data).records, tail);
    RescanAgrees(codec, [], data + tail, 0);
    RescanAgrees(codec, [], data + tail + "\n", 0);
    assert (data + tail)[..|data|] == data;
    assert (data + tail + "\n")[..|data|] == data;
  }

  /** A complete line is accepted whether or not its newline reached the file. */
  lemma CompleteLineAccepted(codec: Codec, data: string, content: AuditRecord)
    requires codec.RecordLaws() && Sound(codec, data)
    requires var rs := ReadLog(codec, data).records;
      var r := Stamp(codec, content, HeadSeq(rs), HeadHash(rs));
      codec.Normal(r) && |Encode(r)| < MAX_LINE
    ensures var rs := ReadLog(codec, data).records;
      var r := Stamp(codec, content, HeadSeq(rs), HeadHash(rs));
      && OpenRecoverable(codec, data + Encode(r)) == Opened(data + Encode(r), r.seqNo, r.recordHash)
      && ReadLog(codec, data + Encode(r)) == Reading(rs + [r], None)
      && Whole(codec, data + Encode(r)) && !Terminated(data + Encode(r))
  {
    var rs := ReadLog(codec, data).records;
    var r := Stamp(codec, content, HeadSeq(rs), HeadHash(rs));
    StampChecked(codec, rs, content, HeadSeq(rs), HeadHash(rs));
    hide Read, BreakAt, StrippedBefore, Encode, Stamp, CheckRecord, Codec.Normal, Writable, Codec.RecordLaws;
    NormalDecodes(codec, r);
    EncodeOneLine(r);
    AppendLine(codec, data, Encode(r));
    ReadOneLine(codec, rs, Encode(r));
    assert (data + Encode(r))[|data + Encode(r)| - 1] == Encode(r)[|Encode(r)| - 1];
  }

  /**
   The one crash point that is different is the whole line without its newline: the open accepts the record, and the
   next append, fresh as it is, loses that record and its own, whether it is cut short or not. Recovery falls back to
   the log before them.
   */
  lemma MissingNewlineLosesBoth(codec: Codec, data: string, tail: string)
    requires codec.RecordLaws() && Whole(codec, data) && !Terminated(data)
    requires tail != "" && tail[0] == '{' && OneLine(tail)
    ensures var rs := ReadLog(codec, data).records;
      var fallback := Opened(Ended(data), HeadSeq(ButLast(rs)), HeadHash(ButLast(rs)));
      && rs != [] && Sound(codec, Ended(data)) && ReadLog(codec, Ended(data)).records == ButLast(rs)
      && OpenRecoverable(codec, data + tail) == fallback && OpenRecoverable(codec, data + tail + "\n") == fallback
      && ReadLog(codec, data + tail + "\n").fault.Some? && ReadLog(codec, data + tail + "\n").records == ButLast(rs)
  {
    hide ReadLog, Read, OpenRecoverable, Codec.RecordLaws, LastLine, Ended, DropCR, ButLast, Terminated, OneLine, Whole;
    var ended, last := Ended(data), LastLine(data);
    WholeLog(codec, data);
    LastRead(codec, data);
    LastLineIs(data);
    WholeEnded(codec, data);
    MergedUndecodable(codec, last, tail);
    var merged := last + tail;
    MergedOneLine(last, tail);
    TailDropped(codec, ended, merged);
    TailFaults(codec, ended, merged);
    assert data + tail == ended + merged && data + tail + "\n" == ended + merged + "\n";
  }

  lemma WholeLog(codec: Codec, data: string)
    requires Whole(codec, data)
    ensures ReadLog(codec, data).fault.None?
  {
    hide ReadLog, StrippedBefore;
  }

  lemma TailFaults(codec: Codec, data: string, tail: string)
    requires Sound(codec, data) && OneLine(tail) && codec.decodeRecord(tail).None?
    ensures ReadLog(codec, data + tail + "\n").fault.Some?
  {
    hide Read, BreakAt, StrippedBefore, CheckRecord, OneLine;
    AppendLine(codec, data, tail);
    ReadOneLine(codec, ReadLog(codec, data).records, tail);
  }

  /******* Failed writes of a writer that lives on *******/

  /**
   A write or sync failure that left n bytes of a line behind, after which the writer carries on from its old head:
   the next append is read exactly when nothing was left behind. Otherwise that append, and every later one, is lost
   to every reader, although each of them reports success.
   */
  lemma AfterFailedAppend(codec: Codec, data: string, content: AuditRecord, next: AuditRecord, n: nat, later: string)
    requires codec.RecordLaws() && Terminated(data) && ReadLog(codec, data).fault.None?
    requires var rs := ReadLog(codec, data).records;
      var r, s := Stamp(codec, content, HeadSeq(rs), HeadHash(rs)), Stamp(codec, next, HeadSeq(rs), HeadHash(rs));
      codec.Normal(r) && codec.Normal(s) && |Encode(r)| < MAX_LINE && |Encode(s)| < MAX_LINE && n <= |Encode(r)| + 1
    ensures var rs := ReadLog(codec, data).records;
      var r, s := Stamp(codec, content, HeadSeq(rs), HeadHash(rs)), Stamp(codec, next, HeadSeq(rs), HeadHash(rs));
      var after := data + (Encode(r) + "\n")[..n] + Encode(s) + "\n";
      && (ReadLog(codec, after).fault.None? <==> n == 0)
      && (n == 0 ==> ReadLog(codec, after).records == rs + [s])
      && (n > 0 ==> ReadLog(codec, after + later) == ReadLog(codec, after)
                    && ReadLog(codec, after).records == if n == |Encode(r)| + 1 then rs + [r] else rs)
  {
    var rs := ReadLog(codec, data).records;
    var r, s := Stamp(codec, content, HeadSeq(rs), HeadHash(rs)), Stamp(codec, next, HeadSeq(rs), HeadHash(rs));
    StampIsNext(codec, content, HeadSeq(rs), HeadHash(rs));
    hide ReadLog, Read, BreakAt, StrippedBefore, Encode, Stamp, Codec.Normal, Codec.RecordLaws, Fresh;
    var line := Encode(r);
    var left := (line + "\n")[..n];
    var after := data + left + Encode(s) + "\n";
    if n == 0 {
      assert data + left == data;
      FreshHead(rs);
      AppendEnded(codec, data, next, HeadSeq(rs), HeadHash(rs));
    } else if n == |line| + 1 {
      assert left == line + "\n";
      FreshHead(rs);
      AppendEnded(codec, data, content, HeadSeq(rs), HeadHash(rs));
      assert data + left == data + line + "\n";
      StaleHead(rs, r);
      AppendEnded(codec, data + left, next, HeadSeq(rs), HeadHash(rs));
    } else {
      assert left == line[..n];
      NormalDecodes(codec, r);
      NormalWritable(codec, s);
      TornTail(codec, data, r, n, s);
    }
    if n > 0 { BrokenLog(codec, after, later); }
  }

  lemma StampIsNext(codec: Codec, content: AuditRecord, seqNo: int, hash: string)
    ensures Stamp(codec, content, seqNo, hash).seqNo == seqNo + 1
  {
  }

  lemma FreshHead(rs: seq<AuditRecord>)
    ensures Fresh(rs, HeadSeq(rs), HeadHash(rs))
  {
  }

  lemma StaleHead(rs: seq<AuditRecord>, r: AuditRecord)
    requires r.seqNo == HeadSeq(rs) + 1
    ensures !Fresh(rs + [r], HeadSeq(rs), HeadHash(rs))
  {
  }

  lemma BrokenLog(codec: Codec, data: string, later: string)
    requires Terminated(data) && ReadLog(codec, data).fault.Some?
    ensures ReadLog(codec, data + later) == ReadLog(codec, data)
  {
    hide Read;
    BrokenStaysBroken(codec, [], data, later);
  }

  /** A whole line behind a torn one, or behind one without newline. */
  lemma TornTail(codec: Codec, data: string, r: AuditRecord, n: nat, s: AuditRecord)
    requires codec.RecordLaws() && Terminated(data) && ReadLog(codec, data).fault.None? && Writable(r) && Writable(s)
    requires 0 < n <= |Encode(r)| && (n == |Encode(r)| ==> codec.decodeRecord(Encode(r)).Some?)
    ensures var after := ReadLog(codec, data + Encode(r)[..n] + Encode(s) + "\n");
      after.fault.Some? && after.records == ReadLog(codec, data).records
  {
    hide ReadLog, Read, BreakAt, StrippedBefore, Encode, Writable, OneLine, CheckRecord, Codec.RecordLaws;
    var torn := Encode(r)[..n];
    var merged := torn + Encode(s);
    EncodeNoControl(r);
    EncodeOneLine(s);
    LineStart(s);
    TornUndecodable(codec, r, n, s);
    assert forall i :: 0 <= i < |torn| ==> torn[i] != '\n';
    MergedOneLine(torn, Encode(s));
    AppendLine(codec, data, merged);
    ReadOneLine(codec, ReadLog(codec, data).records, merged);
    assert data + torn + Encode(s) + "\n" == data + merged + "\n";
  }

  lemma TornUndecodable(codec: Codec, r: AuditRecord, n: nat, s: AuditRecord)
    requires codec.RecordLaws() && Writable(r) && Writable(s)
    requires 0 < n <= |Encode(r)| && (n == |Encode(r)| ==> codec.decodeRecord(Encode(r)).Some?)
    ensures codec.decodeRecord(Encode(r)[..n] + Encode(s)).None?
  {
    hide Codec.LineLaws, Codec.SpaceLaws, Encode, Writable;
    LineStart(s);
    if n == |Encode(r)| { assert Encode(r)[..n] == Encode(r); }
  }

  /******* Carriage returns *******/

  /**
   One accepted line ending in CR LF in front of a bad line: the rescan cuts one byte early, leaving
   the record without its newline.
   */
  lemma CarriageReturnMovesTheCut(codec: Codec, line: string, bad: string)
    requires OneLine(line) && |line| + 1 < MAX_LINE && Check(codec, [], line).Ok?
    requires OneLine(bad) && codec.decodeRecord(bad).None?
    ensures OpenRecoverable(codec, line + "\r\n" + bad)
            == Opened(line + "\r", Check(codec, [], line).value.seqNo, Check(codec, [], line).value.recordHash)
    ensures !Terminated(line + "\r")
  {
    var data := line + "\r\n" + bad;
    var raw := line + "\r";
    var r := Check(codec, [], line).value;
    assert data == raw + "\n" + bad;
    ConsLine(raw, bad);
    assert DropCR(raw) == line;
    OneLineToken(bad);
    RawToken(raw, line);
    hide Check, DropCR, Line, Rest, LineEnd, NoControl;
    assert Rest(data) == bad && Token(data) == line && [] + [r] == [r];
    BadLineStops(codec, r, bad);
    assert Read(codec, [], raw) == Reading([r], None);
    assert Read(codec, [], data) == Read(codec, [r], bad);
    assert Rescan(codec, [], data, 0) == Rescan(codec, [r], bad, |line| + 1);
    assert data[..|line| + 1] == raw;
  }

  lemma BadLineStops(codec: Codec, r: AuditRecord, bad: string)
    requires OneLine(bad) && codec.decodeRecord(bad).None?
    ensures Read(codec, [r], bad).fault.Some? && forall n: nat :: Rescan(codec, [r], bad, n) == Break(n)
  {
    OneLineToken(bad);
    hide DropCR, Line, Rest, LineEnd, NoControl;
  }

  lemma RawToken(raw: string, line: string)
    requires raw == line + "\r" && OneLine(line)
    ensures Line(raw) == raw && Rest(raw) == "" && Token(raw) == line
  {
    hide LineEnd;
  }
}
