/** What recovery keeps of a broken log whose good lines lost carriage returns to the scanner. */
module CutRecovery {
  import opened Base
  import opened Records
  import opened Chain
  import opened ChainTheorems
  import opened Appending
  import RecordTheorems

  /******* How much of a line is needed *******/

  /** A piece of a line is read as its record. */
  predicate Reads(codec: Codec, raw: string, k: nat) { k <= |raw| && codec.decodeRecord(DropCR(raw[..k])).Some? }

  function LeastFrom(codec: Codec, raw: string, k: nat): (n: nat)
    requires k <= |raw| && Reads(codec, raw, |raw|)
    ensures k <= n <= |raw| && Reads(codec, raw, n)
    ensures forall i :: k <= i < n ==> !Reads(codec, raw, i)
    decreases |raw| - k
  {
    if Reads(codec, raw, k) then k else LeastFrom(codec, raw, k + 1)
  }

  /** The bytes of a record's line without which it is no record; behind them only white space. */
  function Core(codec: Codec, raw: string): nat {
    if Reads(codec, raw, |raw|) then LeastFrom(codec, raw, 0) else |raw|
  }

  lemma DropCRPrefix(raw: string, k: nat)
    requires k <= |raw|
    ensures DropCR(raw[..k]) == raw[..|DropCR(raw[..k])|] && k - 1 <= |DropCR(raw[..k])| <= k
  {
  }

  /** From there on every longer piece is read as the same record. */
  lemma CoreReads(codec: Codec, raw: string, k: nat)
    requires codec.SpaceLaws() && codec.decodeRecord(DropCR(raw)).Some? && k <= |raw|
    ensures codec.decodeRecord(DropCR(raw[..k])).Some? <==> k >= Core(codec, raw)
    ensures k >= Core(codec, raw) ==> codec.decodeRecord(DropCR(raw[..k])) == codec.decodeRecord(DropCR(raw))
  {
    hide DropCR, LeastFrom;
    assert raw[..|raw|] == raw;
    var n := Core(codec, raw);
    if k < n { assert !Reads(codec, raw, k); }
    if k >= n { LongerReads(codec, raw, n, k); }
  }

  lemma LongerReads(codec: Codec, raw: string, n: nat, k: nat)
    requires codec.SpaceLaws() && codec.decodeRecord(DropCR(raw)).Some? && Reads(codec, raw, n) && n <= k <= |raw|
    ensures codec.decodeRecord(DropCR(raw[..k])) == codec.decodeRecord(DropCR(raw))
  {
    hide DropCR;
    var t := DropCR(raw);
    DropCRPrefix(raw, n);
    DropCRPrefix(raw, k);
    DropCRPrefix(raw, |raw|);
    assert raw[..|raw|] == raw;
    var i, j := |DropCR(raw[..n])|, |DropCR(raw[..k])|;
    assert i <= j by { if n == k { assert i == j; } }
    assert j <= |t| by { if k == |raw| { assert raw[..k] == raw; } }
    assert t[..i] == DropCR(raw[..n]) && t[..j] == DropCR(raw[..k]);
  }

  /******* How much may be cut *******/

  /** Bytes between the text of the last record and the first bad line; all bytes when there is no record. */
  function Slack(codec: Codec, rs: seq<AuditRecord>, rest: string, slack: nat): nat
    decreases |rest|
  {
    if rest == "" || |Line(rest)| >= MAX_LINE then slack
    else
      var len := |rest| - |Rest(rest)|;
      if Token(rest) == "" then Slack(codec, rs, Rest(rest), slack + len)
      else match Check(codec, rs, Token(rest))
        case Ok(r) =>
          var core := Core(codec, Line(rest));
          Slack(codec, rs + [r], Rest(rest), if core <= len then len - core else 0)
        case Err(_) => slack
  }

  /**
   Without a further record the slack is everything up to the break; with one it lies behind that record's line
   start.
   */
  lemma {:induction false} SlackIs(codec: Codec, rs: seq<AuditRecord>, rest: string, slack: nat)
    ensures Read(codec, rs, rest).records == rs ==> Slack(codec, rs, rest, slack) == slack + BreakAt(codec, rs, rest)
    ensures Read(codec, rs, rest).records != rs ==> Slack(codec, rs, rest, slack) <= BreakAt(codec, rs, rest)
    decreases |rest|
  {
    hide Check, LineEnd, Line, Rest, DropCR, Core;
    if rest != "" && |Line(rest)| < MAX_LINE {
      var len := |rest| - |Rest(rest)|;
      if Token(rest) == "" {
        SlackIs(codec, rs, Rest(rest), slack + len);
      } else if Check(codec, rs, Token(rest)).Ok? {
        var r := Check(codec, rs, Token(rest)).value;
        var core := Core(codec, Line(rest));
        SlackIs(codec, rs + [r], Rest(rest), if core <= len then len - core else 0);
        ReadExtends(codec, rs + [r], Rest(rest));
      }
    }
  }

  /**
   Reading a text cut anywhere in front of its first bad line gives all its records exactly when the cut is in the
   slack.
   */
  lemma {:induction false} CutReads(codec: Codec, rs: seq<AuditRecord>, rest: string, slack: nat, c: nat)
    requires codec.SpaceLaws() && codec.decodeRecord("").None?
    requires Read(codec, rs, rest).fault.Some? && c <= BreakAt(codec, rs, rest)
    ensures Read(codec, rs, rest[..c]) == Reading(Read(codec, rs, rest).records, None)
       <==> BreakAt(codec, rs, rest) - c <= Slack(codec, rs, rest, slack)
    decreases |rest|
  {
    hide Check, LineEnd, Line, Rest, DropCR, Core, Codec.SpaceLaws;
    if |Line(rest)| < MAX_LINE && (Token(rest) == "" || Check(codec, rs, Token(rest)).Ok?) {
      RestFault(codec, rs, rest);
      var len := |rest| - |Rest(rest)|;
      LineLength(rest);
      if c >= len {
        var rs' := if Token(rest) == "" then rs else rs + [Check(codec, rs, Token(rest)).value];
        var core := Core(codec, Line(rest));
        var slack' := if Token(rest) == "" then slack + len else if core <= len then len - core else 0;
        CutReads(codec, rs', Rest(rest), slack', c - len);
        CutLater(rest, c - len);
      } else {
        CutFirst(codec, rs, rest, slack, c);
      }
    } else {
      assert rest[..c] == "";
      SlackIs(codec, rs, rest, slack);
    }
  }

  lemma CutPiece(rest: string, c: nat)
    requires c <= |Line(rest)|
    ensures rest[..c] == Line(rest)[..c] && forall i :: 0 <= i < c ==> rest[i] != '\n'
  {
    hide LineEnd;
  }

  /** A cut inside the first line. */
  lemma CutFirst(codec: Codec, rs: seq<AuditRecord>, rest: string, slack: nat, c: nat)
    requires codec.SpaceLaws() && codec.decodeRecord("").None?
    requires Read(codec, rs, rest).fault.Some? && rest != "" && |Line(rest)| < MAX_LINE
    requires LineEnd(rest) < |rest| && c <= |Line(rest)| && |Line(rest)| + 1 + |Rest(rest)| == |rest|
    requires Token(rest) == "" || Check(codec, rs, Token(rest)).Ok?
    ensures Read(codec, rs, rest[..c]) == Reading(Read(codec, rs, rest).records, None)
       <==> BreakAt(codec, rs, rest) - c <= Slack(codec, rs, rest, slack)
  {
    hide Check, LineEnd, Line, Rest, Core, DropCR, Codec.SpaceLaws;
    var raw := Line(rest);
    var p := rest[..c];
    CutPiece(rest, c);
    if p != "" { ReadPiece(codec, rs, p); }
    if Token(rest) == "" {
      BlankPiece(raw, c);
      SlackIs(codec, rs, Rest(rest), slack + |raw| + 1);
      ReadExtends(codec, rs, Rest(rest));
    } else {
      var r := Check(codec, rs, Token(rest)).value;
      CheckedRecord(codec, rs, Token(rest));
      CoreReads(codec, raw, c);
      EmptyDrop(codec, raw, c);
      SlackIs(codec, rs + [r], Rest(rest), |raw| + 1 - Core(codec, raw));
      ReadExtends(codec, rs + [r], Rest(rest));
      SameCheck(codec, rs, Token(rest), DropCR(raw[..c]));
    }
  }

  lemma BlankPiece(raw: string, c: nat)
    requires DropCR(raw) == "" && c <= |raw|
    ensures DropCR(raw[..c]) == ""
  {
  }

  lemma SameCheck(codec: Codec, rs: seq<AuditRecord>, t: string, u: string)
    ensures codec.decodeRecord(t) == codec.decodeRecord(u) ==> Check(codec, rs, t) == Check(codec, rs, u)
    ensures codec.decodeRecord(u).None? ==> Check(codec, rs, u).Err?
  {
    hide CheckRecord;
  }

  lemma EmptyDrop(codec: Codec, raw: string, c: nat)
    requires c <= |raw|
    ensures c == 0 ==> DropCR(raw[..c]) == ""
    ensures Core(codec, raw) <= |raw|
  {
  }

  lemma EmptyUndecodable(codec: Codec)
    requires codec.LineLaws()
    ensures codec.decodeRecord("").None?
  {
    hide Encode, Writable, Reread;
    var r := AuditRecord(0, "", "", "", "", "", "", NilMap, None);
    ZeroWritable(r);
    EncodeOneLine(r);
    assert Encode(r)[..0] == "";
  }

  lemma ZeroWritable(r: AuditRecord)
    requires r.seqNo == 0 && r.payload == NilMap
    ensures Writable(r)
  {
    RecordTheorems.EmptyNumeric();
  }

  /******* Whether the open succeeds *******/

  /** Where recovery cuts a broken log. */
  function CutAt(codec: Codec, data: string): int {
    if ReadLog(codec, data).fault == Some(FirstSeq) then 0
    else BreakAt(codec, [], data) - StrippedBefore(codec, [], data)
  }

  /** Byte c falls into the text of a line: something of it is in front, and not yet all that makes it a record. */
  predicate InText(codec: Codec, rest: string, c: int)
    decreases |rest|
  {
    var len := |rest| - |Rest(rest)|;
    if rest == "" || c <= 0 then false
    else if c >= len then InText(codec, Rest(rest), c - len)
    else DropCR(Line(rest)[..c]) != "" && c < Core(codec, Line(rest))
  }

  predicate GoodLine(codec: Codec, rs: seq<AuditRecord>, rest: string) {
    rest != "" && |Line(rest)| < MAX_LINE && (Token(rest) == "" || Check(codec, rs, Token(rest)).Ok?)
  }

  /** The records behind a good line. */
  function Behind(codec: Codec, rs: seq<AuditRecord>, rest: string): seq<AuditRecord>
    requires GoodLine(codec, rs, rest)
  {
    if Token(rest) == "" then rs else rs + [Check(codec, rs, Token(rest)).value]
  }

  lemma ReadStep(codec: Codec, rs: seq<AuditRecord>, rest: string, n: nat)
    requires GoodLine(codec, rs, rest)
    ensures var rs' := Behind(codec, rs, rest);
      && Read(codec, rs, rest) == Read(codec, rs', Rest(rest))
      && BreakAt(codec, rs, rest) == |rest| - |Rest(rest)| + BreakAt(codec, rs', Rest(rest))
      && Rescan(codec, rs, rest, n) == Rescan(codec, rs', Rest(rest), n + |Token(rest)| + 1)
  {
    hide Check, LineEnd, Line, Rest, DropCR;
  }

  lemma BreakInside(codec: Codec, rs: seq<AuditRecord>, rest: string)
    requires BreakAt(codec, rs, rest) > 0
    ensures GoodLine(codec, rs, rest)
  {
    hide Check, LineEnd, Line, Rest, DropCR;
  }

  /**
   A text cut anywhere in front of its first bad line reads without fault exactly when the cut is in no line's text.
   */
  lemma {:induction false} CutFaults(codec: Codec, rs: seq<AuditRecord>, rest: string, c: nat)
    requires codec.SpaceLaws()
    requires Read(codec, rs, rest).fault.Some? && c <= BreakAt(codec, rs, rest)
    ensures Read(codec, rs, rest[..c]).fault.None? <==> !InText(codec, rest, c)
    ensures Read(codec, rs, rest[..c]).records <= Read(codec, rs, rest).records
    decreases |rest|
  {
    hide Read, BreakAt, GoodLine, Behind, LineEnd, Line, Rest, DropCR, Core, Codec.SpaceLaws;
    ReadExtends(codec, rs, rest);
    if c == 0 {
      assert rest[..c] == "";
      ReadNothing(codec, rs);
    } else {
      BreakInside(codec, rs, rest);
      ReadStep(codec, rs, rest, 0);
      var rs' := Behind(codec, rs, rest);
      GoodEnded(codec, rs, rest);
      LineLength(rest);
      ReadExtends(codec, rs', Rest(rest));
      var len := |rest| - |Rest(rest)|;
      if c >= len {
        CutFaults(codec, rs', Rest(rest), c - len);
        CutLater(rest, c - len);
        SameStep(codec, rs, rest, rest[..c]);
      } else {
        CutFirstFaults(codec, rs, rest, c);
      }
    }
  }

  lemma ReadNothing(codec: Codec, rs: seq<AuditRecord>)
    ensures Read(codec, rs, "") == Reading(rs, None)
  {
  }

  lemma GoodEnded(codec: Codec, rs: seq<AuditRecord>, rest: string)
    requires GoodLine(codec, rs, rest) && Read(codec, rs, rest).fault.Some?
    ensures LineEnd(rest) < |rest|
  {
    hide Read, Check, DropCR, LineEnd, Line;
    RestFault(codec, rs, rest);
  }

  lemma SameStep(codec: Codec, rs: seq<AuditRecord>, rest: string, p: string)
    requires GoodLine(codec, rs, rest) && p != "" && Line(p) == Line(rest)
    ensures Read(codec, rs, p) == Read(codec, Behind(codec, rs, rest), Rest(p))
  {
    hide Read, Check, DropCR, LineEnd, Line, Rest;
    ReadStep(codec, rs, p, 0);
  }

  lemma CutFirstFaults(codec: Codec, rs: seq<AuditRecord>, rest: string, c: nat)
    requires codec.SpaceLaws() && GoodLine(codec, rs, rest) && 0 < c <= |Line(rest)|
    ensures Read(codec, rs, rest[..c]).fault.None? <==> DropCR(Line(rest)[..c]) == "" || c >= Core(codec, Line(rest))
    ensures Read(codec, rs, rest[..c]).records <= Behind(codec, rs, rest)
  {
    assert c <= |rest|;
    hide Check, LineEnd, Line, Rest, Core, DropCR, Codec.SpaceLaws;
    var raw := Line(rest);
    CutPiece(rest, c);
    ReadPiece(codec, rs, rest[..c]);
    if Token(rest) == "" {
      BlankPiece(raw, c);
    } else {
      CheckedRecord(codec, rs, Token(rest));
      CoreReads(codec, raw, c);
      SameCheck(codec, rs, Token(rest), DropCR(raw[..c]));
    }
  }

  /**
   Whatever the file, recovery leaves a prefix of it, ended by a newline if no carriage return was stripped. A broken
   log opens again exactly when the cut falls into no line's text; it then reads without fault up to the head reported.
   All the records in front of the first bad line are kept exactly when the carriage returns the scanner stripped from
   those lines are no more than the bytes between the last record's text and the bad line.
   */
  lemma RecoveryKeepsExactly(codec: Codec, data: string)
    requires codec.RecordLaws()
    ensures var rs, sound := ReadLog(codec, data).records, ReadLog(codec, data).fault.None?;
      var o := OpenRecoverable(codec, data);
      && o.data <= data && (sound ==> o.data == data)
      && (!sound ==> |o.data| == CutAt(codec, data) && (StrippedBefore(codec, [], data) == 0 ==> Terminated(o.data)))
      && (o.Opened? <==> sound || !InText(codec, data, CutAt(codec, data)))
      && (o.Opened? ==> ReadLog(codec, o.data).fault.None? && Fresh(ReadLog(codec, o.data).records, o.seqNo, o.hash))
      && ReadLog(codec, o.data).records <= rs
      && ((o.Opened? && ReadLog(codec, o.data).records == rs) <==>
            sound || StrippedBefore(codec, [], data) <= Slack(codec, [], data, 0))
  {
    hide Read, Rescan, BreakAt, StrippedBefore, Slack, Codec.LineLaws, Codec.TailLaws, Codec.SpaceLaws;
    EmptyUndecodable(codec);
    RescanAgrees(codec, [], data, 0);
    if ReadLog(codec, data).fault.None? {
    } else if ReadLog(codec, data).fault == Some(FirstSeq) {
      FirstSeqMeansEmpty(codec, [], data);
      SlackIs(codec, [], data, 0);
      ReadEmpty(codec);
      assert data[..0] == "";
    } else {
      CutReads(codec, [], data, 0, CutAt(codec, data));
      CutFaults(codec, [], data, CutAt(codec, data));
      KeptPrefix(codec, [], data);
    }
  }

  /******* An open that fails *******/

  lemma BlankFirst(codec: Codec, rs: seq<AuditRecord>, s: string, n: nat)
    ensures Read(codec, rs, "\r\n" + s) == Read(codec, rs, s)
    ensures Rescan(codec, rs, "\r\n" + s, n) == Rescan(codec, rs, s, n + 1)
  {
    ConsLine("\r", s);
    assert "\r" + "\n" + s == "\r\n" + s;
    hide Read, Rescan, Line, Rest, LineEnd, Check;
    ReadStep(codec, rs, "\r\n" + s, n);
  }

  /** A text whose first line is a record. */
  lemma LineFirst(codec: Codec, rs: seq<AuditRecord>, text: string, n: nat)
    requires text != "" && |Line(text)| < MAX_LINE && Token(text) != "" && Check(codec, rs, Token(text)).Ok?
    ensures var rs' := rs + [Check(codec, rs, Token(text)).value];
      && Read(codec, rs, text) == Read(codec, rs', Rest(text))
      && Rescan(codec, rs, text, n) == Rescan(codec, rs', Rest(text), n + |Token(text)| + 1)
  {
    hide Read, Rescan, Line, Rest, Check, DropCR;
    ReadStep(codec, rs, text, n);
  }

  lemma FirstToken(line: string, s: string)
    requires OneLine(line)
    ensures line != "" && Line(line + "\n" + s) == line && Rest(line + "\n" + s) == s && Token(line + "\n" + s) == line
  {
    hide LineEnd;
    ConsLine(line, s);
  }

  /**
   Two blank lines ending in CR LF and a record in front of a bad line: the cut takes the record's newline and its last
   byte, and the open that should have recovered the log fails.
   */
  lemma CarriageReturnsBlockOpen(codec: Codec, content: AuditRecord, bad: string)
    requires codec.RecordLaws() && codec.Normal(Stamp(codec, content, 0, ""))
    requires |NextLine(codec, content, 0, "")| < MAX_LINE
    requires OneLine(bad) && codec.decodeRecord(bad).None?
    ensures var line := NextLine(codec, content, 0, "");
      var data := "\r\n\r\n" + line + "\n" + bad;
      && ReadLog(codec, data).records == [Stamp(codec, content, 0, "")]
      && OpenRecoverable(codec, data) == OpenFailed("\r\n\r\n" + line[..|line| - 1])
  {
    var r := Stamp(codec, content, 0, "");
    StampChecked(codec, [], content, 0, "");
    hide Read, Rescan, OpenRecoverable, Encode, Stamp, CheckRecord, Codec.Normal, Writable, OneLine, Codec.TailLaws,
      Codec.SpaceLaws;
    NormalDecodes(codec, r);
    EncodeOneLine(r);
    TornFaults(codec, r);
    BlockedOpen(codec, Encode(r), bad);
  }

  lemma BlockedOpen(codec: Codec, line: string, bad: string)
    requires OneLine(line) && |line| < MAX_LINE && Check(codec, [], line).Ok?
    requires OneLine(bad) && codec.decodeRecord(bad).None? && line != ""
    requires ReadLog(codec, line[..|line| - 1]).fault.Some?
    ensures var data := "\r\n\r\n" + line + "\n" + bad;
      && ReadLog(codec, data).records == [Check(codec, [], line).value]
      && OpenRecoverable(codec, data) == OpenFailed("\r\n\r\n" + line[..|line| - 1])
  {
    hide *;
    var torn, rest := line[..|line| - 1], line + "\n" + bad;
    BadBehind(codec, line, bad);
    var blanks := "\r\n\r\n";
    TwoBlanks(codec, rest);
    TwoBlanks(codec, torn);
    assert blanks + line + "\n" + bad == blanks + rest;
    CutText(blanks, line, bad);
    FailedOpen(codec, blanks + rest, |line| + 3);
  }

  lemma FailedOpen(codec: Codec, data: string, at: nat)
    requires ReadLog(codec, data).fault.Some? && Rescan(codec, [], data, 0) == Break(at)
    requires at <= |data| && ReadLog(codec, data[..at]).fault.Some?
    ensures OpenRecoverable(codec, data) == OpenFailed(data[..at])
  {
    hide Read, Rescan;
  }

  lemma CutText(front: string, line: string, bad: string)
    requires line != "" && |front| == 4
    ensures (front + (line + "\n" + bad))[..|line| + 3] == front + line[..|line| - 1]
  {
  }

  /** The rescan of a record and a bad line breaks behind the record. */
  lemma BadBehind(codec: Codec, line: string, bad: string)
    requires OneLine(line) && |line| < MAX_LINE && Check(codec, [], line).Ok?
    requires OneLine(bad) && codec.decodeRecord(bad).None?
    ensures var rd := ReadLog(codec, line + "\n" + bad);
      rd.fault.Some? && rd.records == [Check(codec, [], line).value]
    ensures Rescan(codec, [], line + "\n" + bad, 2) == Break(|line| + 3)
  {
    hide Read, Rescan, Check, OneLine, Line, Rest, DropCR;
    var r := Check(codec, [], line).value;
    FirstToken(line, bad);
    LineFirst(codec, [], line + "\n" + bad, 2);
    assert [] + [r] == [r];
    BadLineStops(codec, r, bad);
    BadRecords(codec, r, bad);
  }

  lemma BadRecords(codec: Codec, r: AuditRecord, bad: string)
    requires OneLine(bad) && codec.decodeRecord(bad).None?
    ensures Read(codec, [r], bad).records == [r]
  {
    hide Read, OneLine;
    ReadOneLine(codec, [r], bad);
  }

  lemma TwoBlanks(codec: Codec, s: string)
    ensures ReadLog(codec, "\r\n\r\n" + s) == ReadLog(codec, s)
    ensures Rescan(codec, [], "\r\n\r\n" + s, 0) == Rescan(codec, [], s, 2)
  {
    hide Read, Rescan;
    BlankFirst(codec, [], s, 1);
    BlankFirst(codec, [], "\r\n" + s, 0);
    assert "\r\n" + ("\r\n" + s) == "\r\n\r\n" + s;
  }

  lemma TornFaults(codec: Codec, r: AuditRecord)
    requires codec.LineLaws() && Writable(r)
    ensures Encode(r) != "" && ReadLog(codec, Encode(r)[..|Encode(r)| - 1]).fault.Some?
  {
    EncodeNoControl(r);
    hide Read, Encode, Writable, Reread, OneLine;
    var torn := Encode(r)[..|Encode(r)| - 1];
    RecordTheorems.LineStart(r);
    NoControlOneLine(torn);
    ReadOneLine(codec, [], torn);
  }
}
