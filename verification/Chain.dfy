/**
 The hash chain as a function of file content: how `bufio.Scanner` cuts a JSONL file into lines, which
 line continues a chain, and what every reader of the log returns for a given file.
 */
module Chain {
  import opened Base
  import opened Records

  /** Scanner buffer: a line of this many bytes or more is an error. */
  const MAX_LINE := 1024 * 1024

  /******* Lines *******/

  function LineEnd(s: string): (n: nat)
    ensures n <= |s|
    ensures forall i :: 0 <= i < n ==> s[i] != '\n'
    ensures n < |s| ==> s[n] == '\n'
  {
    if s == "" || s[0] == '\n' then 0 else 1 + LineEnd(s[1..])
  }

  /** The first line, without its newline. */
  function Line(s: string): string { s[..LineEnd(s)] }

  /** What follows the first line and its newline. */
  function Rest(s: string): (r: string)
    ensures s != "" ==> |r| < |s|
  {
    if LineEnd(s) == |s| then "" else s[LineEnd(s) + 1..]
  }

  function DropCR(raw: string): string {
    if raw != "" && raw[|raw| - 1] == '\r' then raw[..|raw| - 1] else raw
  }

  /** The text the scanner hands out for the first line. */
  function Token(s: string): string { DropCR(Line(s)) }

  predicate Terminated(s: string) { s == "" || s[|s| - 1] == '\n' }

  /** What stands behind the last newline. */
  function LastLine(s: string): (l: string)
    ensures |l| <= |s|
  {
    if Terminated(s) then "" else LastLine(s[..|s| - 1]) + [s[|s| - 1]]
  }

  /** The text up to and with its last newline. */
  function Ended(s: string): string { s[..|s| - |LastLine(s)|] }

  /******* Reading *******/

  datatype Fault =
    | LineTooLong
    | Malformed
    | FirstSeq
    | FirstPrevHash
    | SeqGap
    | PrevHashMismatch
    | RecordHashMismatch

  datatype Reading = Reading(records: seq<AuditRecord>, fault: Option<Fault>)

  function Last(rs: seq<AuditRecord>): AuditRecord
    requires rs != []
  {
    rs[|rs| - 1]
  }

  /** Without the last record. */
  function ButLast(rs: seq<AuditRecord>): seq<AuditRecord> { if rs == [] then [] else rs[..|rs| - 1] }

  function HeadSeq(rs: seq<AuditRecord>): int { if rs == [] then 0 else Last(rs).seqNo }
  function HeadHash(rs: seq<AuditRecord>): string { if rs == [] then "" else Last(rs).recordHash }

  function CheckRecord(codec: Codec, rs: seq<AuditRecord>, r: AuditRecord): Result<AuditRecord, Fault> {
    if rs == [] && r.seqNo != 1 then Err(FirstSeq)
    else if rs == [] && r.prevHash != "" then Err(FirstPrevHash)
    else if rs != [] && r.seqNo != Last(rs).seqNo + 1 then Err(SeqGap)
    else if rs != [] && r.prevHash != Last(rs).recordHash then Err(PrevHashMismatch)
    else if r.recordHash != codec.RecordHash(r) then Err(RecordHashMismatch)
    else Ok(r)
  }

  /** Whether a line extends the chain read so far. */
  function Check(codec: Codec, rs: seq<AuditRecord>, token: string): Result<AuditRecord, Fault> {
    match codec.decodeRecord(token)
    case None => Err(Malformed)
    case Some(r) => CheckRecord(codec, rs, r)
  }

  /** Reading on from the records rs: blank lines are skipped, the first bad line stops. */
  function Read(codec: Codec, rs: seq<AuditRecord>, rest: string): Reading
    decreases |rest|
  {
    if rest == "" then Reading(rs, None)
    else if |Line(rest)| >= MAX_LINE then Reading(rs, Some(LineTooLong))
    else if Token(rest) == "" then Read(codec, rs, Rest(rest))
    else match Check(codec, rs, Token(rest))
      case Ok(r) => Read(codec, rs + [r], Rest(rest))
      case Err(fault) => Reading(rs, Some(fault))
  }

  function ReadLog(codec: Codec, data: string): Reading { Read(codec, [], data) }

  ghost predicate Linked(codec: Codec, rs: seq<AuditRecord>, i: nat)
    requires i < |rs|
  {
    && rs[i].seqNo == i + 1
    && rs[i].prevHash == HeadHash(rs[..i])
    && rs[i].recordHash == codec.RecordHash(rs[i])
  }

  /** A hash chain, said without any file: numbered from 1, each record hashed and linked to its predecessor. */
  ghost predicate ValidChain(codec: Codec, rs: seq<AuditRecord>) {
    forall i :: 0 <= i < |rs| ==> Linked(codec, rs, i)
  }

  /******* Recovery *******/

  datatype Scan = Clean | Break(at: nat)

  /** The rescan of `recoverFromCorruption`: offsets are counted over the text the scanner hands out. */
  function Rescan(codec: Codec, rs: seq<AuditRecord>, rest: string, lineStart: nat): Scan
    decreases |rest|
  {
    if rest == "" then Clean
    else if |Line(rest)| >= MAX_LINE then Break(lineStart)
    else
      var token := Token(rest);
      var next := lineStart + |token| + 1;
      if token == "" then Rescan(codec, rs, Rest(rest), next)
      else match Check(codec, rs, token)
        case Ok(r) => Rescan(codec, rs + [r], Rest(rest), next)
        case Err(fault) => Break(if fault == FirstSeq then 0 else lineStart)
  }

  /** Bytes in front of the first bad line; the whole text when every line is good. */
  function BreakAt(codec: Codec, rs: seq<AuditRecord>, rest: string): (n: nat)
    ensures n <= |rest|
    decreases |rest|
  {
    if rest == "" || |Line(rest)| >= MAX_LINE then 0
    else
      var len := |rest| - |Rest(rest)|;
      if Token(rest) == "" then len + BreakAt(codec, rs, Rest(rest))
      else match Check(codec, rs, Token(rest))
        case Ok(r) => len + BreakAt(codec, rs + [r], Rest(rest))
        case Err(_) => 0
  }

  /** Carriage returns the scanner drops from the lines in front of the first bad one. */
  function StrippedBefore(codec: Codec, rs: seq<AuditRecord>, rest: string): nat
    decreases |rest|
  {
    if rest == "" || |Line(rest)| >= MAX_LINE then 0
    else
      var cr := |Line(rest)| - |Token(rest)|;
      if Token(rest) == "" then cr + StrippedBefore(codec, rs, Rest(rest))
      else match Check(codec, rs, Token(rest))
        case Ok(r) => cr + StrippedBefore(codec, rs + [r], Rest(rest))
        case Err(_) => 0
  }

  /******* Opening *******/

  /** The file content left behind and, when the open succeeded, the head. */
  datatype Opened = Opened(data: string, seqNo: int, hash: string) | OpenFailed(data: string)

  /** `NewAuditWriter`: refuses a broken log. */
  function OpenStrict(codec: Codec, data: string): Opened {
    var rd := ReadLog(codec, data);
    if rd.fault.None? then Opened(data, HeadSeq(rd.records), HeadHash(rd.records)) else OpenFailed(data)
  }

  /** `NewAuditWriterRecoverable`: on a broken log, truncate where the rescan says and read again. */
  function OpenRecoverable(codec: Codec, data: string): Opened {
    if ReadLog(codec, data).fault.None? then OpenStrict(codec, data)
    else match Rescan(codec, [], data, 0)
      case Clean => OpenStrict(codec, data)
      case Break(at) => if at <= |data| then OpenStrict(codec, data[..at]) else OpenFailed(data)
  }
}
