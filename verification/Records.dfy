/** Audit records and checkpoints, their JSON lines and the canonical bytes their hashes are taken over. */
module Records {
  import opened Base
  import opened Json
  import Decimal
  import Utf8
  import Values

  datatype HostedContext =
    HostedContext(tenantId: string, projectId: string, region: string, runtimeProvider: string)

  /** A Go map that may be nil. */
  datatype Payload = NilMap | Members(m: map<string, Values.Value>)

  datatype AuditRecord = AuditRecord(
    seqNo: int,
    prevHash: string,
    recordHash: string,
    timestamp: string,
    eventType: string,
    deploymentMode: string,
    actor: string,
    payload: Payload,
    hosted: Option<HostedContext>)

  datatype Checkpoint = Checkpoint(
    seqNo: int,
    anchorSeq: int,
    anchorHash: string,
    prevHash: string,
    hash: string,
    signature: string, // base64 text; empty when unsigned
    timestamp: string)

  predicate Int64(n: int) { -0x8000_0000_0000_0000 <= n < 0x8000_0000_0000_0000 }

  /******* Encoding *******/

  function Number(n: int): Tree { Num(Decimal.PrintInt(n)) }

  function HostedFields(h: HostedContext): seq<Member> {
    [Member("tenant_id", Str(h.tenantId)),
     Member("project_id", Str(h.projectId)),
     Member("region", Str(h.region)),
     Member("runtime_provider", Str(h.runtimeProvider))]
  }

  /** `hosted_context` is omitted when nil. */
  function HostedMembers(h: Option<HostedContext>): seq<Member> {
    if h.None? then [] else [Member("hosted_context", Obj(HostedFields(h.value)))]
  }

  function PayloadMap(p: Payload): map<string, Values.Value> {
    if p.NilMap? then map[] else p.m
  }

  /** The record without its hash; a nil payload is written as an empty object. */
  function CanonicalTree(r: AuditRecord): Tree {
    Obj([Member("seq", Number(r.seqNo)),
         Member("prev_hash", Str(r.prevHash)),
         Member("timestamp", Str(r.timestamp)),
         Member("event_type", Str(r.eventType)),
         Member("deployment_mode", Str(r.deploymentMode)),
         Member("actor", Str(r.actor)),
         Member("payload", Values.ToTree(Values.Obj(PayloadMap(r.payload))))]
        + HostedMembers(r.hosted))
  }

  /** The bytes `record_hash` is computed over. */
  function Canonical(r: AuditRecord): string { Print(CanonicalTree(r)) }

  function PayloadTree(p: Payload): Tree {
    if p.NilMap? then Null else Values.ToTree(Values.Obj(p.m))
  }

  /** The members of a record's line around a given payload tree. */
  function MembersWith(r: AuditRecord, payload: Tree): seq<Member> {
    [Member("seq", Number(r.seqNo)),
     Member("prev_hash", Str(r.prevHash)),
     Member("record_hash", Str(r.recordHash)),
     Member("timestamp", Str(r.timestamp)),
     Member("event_type", Str(r.eventType)),
     Member("deployment_mode", Str(r.deploymentMode)),
     Member("actor", Str(r.actor)),
     Member("payload", payload)]
    + HostedMembers(r.hosted)
  }

  function LineMembers(r: AuditRecord): seq<Member> { MembersWith(r, PayloadTree(r.payload)) }

  /** The JSONL line of a record, without its newline. */
  function Encode(r: AuditRecord): string { Print(Obj(LineMembers(r))) }

  /** Bytes the checkpoint hash is computed over: neither the hash nor the signature. */
  function CanonicalCheckpoint(c: Checkpoint): string {
    Print(Obj([Member("seq", Number(c.seqNo)),
               Member("head_anchor_seq", Number(c.anchorSeq)),
               Member("head_anchor_hash", Str(c.anchorHash)),
               Member("prev_checkpoint_hash", Str(c.prevHash)),
               Member("timestamp", Str(c.timestamp))]))
  }

  function CheckpointMembers(c: Checkpoint): seq<Member> {
    [Member("seq", Number(c.seqNo)),
     Member("head_anchor_seq", Number(c.anchorSeq)),
     Member("head_anchor_hash", Str(c.anchorHash)),
     Member("prev_checkpoint_hash", Str(c.prevHash)),
     Member("checkpoint_hash", Str(c.hash)),
     Member("signature", if c.signature == "" then Null else Str(c.signature)),
     Member("timestamp", Str(c.timestamp))]
  }

  function EncodeCheckpoint(c: Checkpoint): string { Print(Obj(CheckpointMembers(c))) }

  predicate PrintableHosted(h: HostedContext) {
    Utf8.Valid(h.tenantId) && Utf8.Valid(h.projectId) && Utf8.Valid(h.region) && Utf8.Valid(h.runtimeProvider)
  }

  /** Strings are UTF-8, number tokens are numbers, integers fit the Go type. */
  predicate PrintableRecord(r: AuditRecord) {
    && Int64(r.seqNo) && Utf8.Valid(r.prevHash) && Utf8.Valid(r.recordHash) && Utf8.Valid(r.timestamp)
    && Utf8.Valid(r.eventType) && Utf8.Valid(r.deploymentMode) && Utf8.Valid(r.actor)
    && Values.Printable(Values.Obj(PayloadMap(r.payload)))
    && (r.hosted.Some? ==> PrintableHosted(r.hosted.value))
  }

  /** What the Go types guarantee of a record: a machine integer, and numbers that print as numbers. */
  predicate Writable(r: AuditRecord) {
    Int64(r.seqNo) && Numeric(Values.ToTree(Values.Obj(PayloadMap(r.payload))))
  }

  predicate PrintableCheckpoint(c: Checkpoint) {
    && Int64(c.seqNo) && Int64(c.anchorSeq) && Utf8.Valid(c.anchorHash) && Utf8.Valid(c.prevHash)
    && Utf8.Valid(c.hash) && Utf8.Valid(c.signature) && Utf8.Valid(c.timestamp)
  }

  /******* What decoding must satisfy *******/

  function CleanHosted(h: HostedContext): HostedContext {
    HostedContext(CleanText(h.tenantId), CleanText(h.projectId), CleanText(h.region), CleanText(h.runtimeProvider))
  }

  /** The text fields with U+FFFD for every byte that is no UTF-8. */
  function CleanTexts(r: AuditRecord): AuditRecord {
    r.(prevHash := CleanText(r.prevHash), recordHash := CleanText(r.recordHash), timestamp := CleanText(r.timestamp),
       eventType := CleanText(r.eventType), deploymentMode := CleanText(r.deploymentMode), actor := CleanText(r.actor),
       hosted := if r.hosted.None? then None else Some(CleanHosted(r.hosted.value)))
  }

  /** A record after one trip through its line: stray bytes have become U+FFFD, payload numbers gone through float64. */
  function Reread(reprint: Values.Reprint, r: AuditRecord): Option<AuditRecord> {
    match r.payload
    case NilMap => Some(CleanTexts(r))
    case Members(m) =>
      var v :- Values.FromTree(reprint, CleanTree(Values.ToTree(Values.Obj(m))));
      if v.Obj? then Some(CleanTexts(r).(payload := Members(v.m))) else None
  }

  predicate PayloadSurvives(reprint: Values.Reprint, p: Payload) {
    p.Members? ==> Values.Survives(reprint, Values.Obj(p.m))
  }

  /** The library functions the audit log rests on. */
  datatype Codec = Codec(
    decodeRecord: string -> Option<AuditRecord>,
    decodeCheckpoint: string -> Option<Checkpoint>,
    reprint: Values.Reprint,
    sha: string -> string)
  {
    function RecordHash(r: AuditRecord): string { sha(Canonical(r)) }

    function CheckpointHash(c: Checkpoint): string { sha(CanonicalCheckpoint(c)) }

    /** JSON-normal: a record that its own line gives back unchanged. */
    predicate Normal(r: AuditRecord) { PrintableRecord(r) && PayloadSurvives(reprint, r.payload) }

    /** A written line is read back as the record after its trip; a line cut anywhere is no record. */
    ghost predicate LineLaws() {
      && (forall r :: Writable(r) ==> decodeRecord(Encode(r)) == Reread(reprint, r))
      && (forall r, k :: Writable(r) && 0 <= k < |Encode(r)| ==> decodeRecord(Encode(r)[..k]).None?)
      && (forall s :: decodeRecord(s).Some? ==> Normal(decodeRecord(s).value))
    }

    /**
     A record with anything but white space behind it is no record; nor is a torn line with a whole line behind it.
     */
    ghost predicate TailLaws() {
      && (forall t, q :: decodeRecord(t).Some? && q != "" && q[0] == '{' ==> decodeRecord(t + q).None?)
      && (forall r, k, s :: Writable(r) && Writable(s) && 0 < k < |Encode(r)| ==>
            decodeRecord(Encode(r)[..k] + Encode(s)).None?)
    }

    /** White space around a record does not matter. */
    ghost predicate SpaceLaws() {
      && (forall t :: decodeRecord("\r" + t) == decodeRecord(t))
      && (forall t :: decodeRecord(t).Some? ==> decodeRecord(t + "\r") == decodeRecord(t))
      && (forall t, k, m :: 0 <= k <= m <= |t| && decodeRecord(t).Some? && decodeRecord(t[..k]).Some? ==>
            decodeRecord(t[..m]) == decodeRecord(t))
    }

    ghost predicate RecordLaws() { LineLaws() && TailLaws() && SpaceLaws() }

    ghost predicate CheckpointLaws() {
      && (forall c :: PrintableCheckpoint(c) ==> decodeCheckpoint(EncodeCheckpoint(c)) == Some(c))
      && (forall c, k :: PrintableCheckpoint(c) && 0 <= k < |EncodeCheckpoint(c)| ==>
            decodeCheckpoint(EncodeCheckpoint(c)[..k]).None?)
      && (forall t, q :: decodeCheckpoint(t).Some? && q != "" && q[0] == '{' ==> decodeCheckpoint(t + q).None?)
      && (forall s :: decodeCheckpoint(s).Some? ==> PrintableCheckpoint(decodeCheckpoint(s).value))
    }

    ghost predicate HashLaws() {
      forall s :: sha(s) != "" && Utf8.Valid(sha(s))
    }

    ghost predicate Lawful() { RecordLaws() && CheckpointLaws() && HashLaws() }
  }

  /** Two different inputs with one digest. */
  ghost predicate Collision(sha: string -> string, a: string, b: string) { a != b && sha(a) == sha(b) }

  /** Equal in every field but the hash, a nil payload counting as an empty one. */
  predicate SameButHash(r: AuditRecord, s: AuditRecord) {
    && r.seqNo == s.seqNo && r.prevHash == s.prevHash && r.timestamp == s.timestamp
    && r.eventType == s.eventType && r.deploymentMode == s.deploymentMode && r.actor == s.actor
    && PayloadMap(r.payload) == PayloadMap(s.payload) && r.hosted == s.hosted
  }

  predicate SameButSignature(c: Checkpoint, d: Checkpoint) { c.(signature := d.signature) == d }
}
