/** What the bytes of records and checkpoints are: written out, and read by the decoder. */
module CanonicalForm {
  import opened Base
  import opened Json
  import opened JsonRoundTrip
  import opened JsonText
  import opened Records
  import opened RecordTheorems
  import opened Decoder
  import Decimal
  import Utf8
  import Values

  /******* Read by the decoder *******/

  lemma CanonicalMembers(r: AuditRecord)
    ensures var ms := CanonicalTree(r).members;
      && CanonicalTree(r).Obj? && |ms| == (if r.hosted.Some? then 8 else 7)
      && ms[0] == Member("seq", Number(r.seqNo)) && ms[1] == Member("prev_hash", Str(r.prevHash))
      && ms[2] == Member("timestamp", Str(r.timestamp)) && ms[3] == Member("event_type", Str(r.eventType))
      && ms[4] == Member("deployment_mode", Str(r.deploymentMode)) && ms[5] == Member("actor", Str(r.actor))
      && ms[6] == Member("payload", Values.ToTree(Values.Obj(PayloadMap(r.payload))))
      && (r.hosted.Some? ==> ms[7] == Member("hosted_context", Obj(HostedFields(r.hosted.value))))
  {
    hide Number, HostedFields, Values.ToTree;
  }

  lemma CanonicalHead(reprint: Values.Reprint, r: AuditRecord)
    requires Int64(r.seqNo)
    ensures var ms := CanonicalTree(r).members;
      && |ms| >= 7
      && RecordFrom(reprint, ZERO, ms, 0)
         == RecordFrom(reprint, r.(recordHash := "", payload := NilMap, hosted := None), ms, 6)
  {
    hide FieldOf, Integer, RecordFrom, CanonicalTree, Number, HostedFields, Values.ToTree;
    FieldNames();
    IntegerReadBack(r.seqNo, 0);
    CanonicalMembers(r);
    var ms := CanonicalTree(r).members;
    var r1 := ZERO.(seqNo := r.seqNo);
    var r2 := r1.(prevHash := r.prevHash);
    var r3 := r2.(timestamp := r.timestamp);
    var r4 := r3.(eventType := r.eventType);
    var r5 := r4.(deploymentMode := r.deploymentMode);
    RecordStep(reprint, ZERO, ms, 0, Seq, r1);
    RecordStep(reprint, r1, ms, 1, PrevHash, r2);
    RecordStep(reprint, r2, ms, 2, Timestamp, r3);
    RecordStep(reprint, r3, ms, 3, EventType, r4);
    RecordStep(reprint, r4, ms, 4, DeploymentMode, r5);
    RecordStep(reprint, r5, ms, 5, Actor, r5.(actor := r.actor));
  }

  lemma CanonicalTail(reprint: Values.Reprint, r: AuditRecord)
    requires PayloadOf(reprint, NilMap, Values.ToTree(Values.Obj(PayloadMap(r.payload))))
             == Some(Members(PayloadMap(r.payload)))
    ensures var ms := CanonicalTree(r).members;
      && |ms| >= 7
      && RecordFrom(reprint, r.(recordHash := "", payload := NilMap, hosted := None), ms, 6)
         == Some(r.(recordHash := "", payload := Members(PayloadMap(r.payload))))
  {
    hide FieldOf, PayloadOf, HostedOf, HostedFields, CanonicalTree, Values.ToTree, PayloadMap;
    FieldNames();
    CanonicalMembers(r);
    var ms := CanonicalTree(r).members;
    var r6 := r.(recordHash := "", payload := NilMap, hosted := None);
    var r7 := r6.(payload := Members(PayloadMap(r.payload)));
    RecordStep(reprint, r6, ms, 6, PayloadField, r7);
    if r.hosted.Some? {
      HostedReadBack(r.hosted.value);
      RecordStep(reprint, r7, ms, 7, Hosted, r7.(hosted := r.hosted));
    }
  }

  /** A payload that survives is read back from its tree, a nil one as the empty object it is hashed as. */
  lemma PayloadBack(reprint: Values.Reprint, m: map<string, Values.Value>)
    requires Values.Survives(reprint, Values.Obj(m))
    ensures PayloadOf(reprint, NilMap, Values.ToTree(Values.Obj(m))) == Some(Members(m))
  {
    hide Values.FromMembers, Values.MemberTrees, Values.Survives;
    Values.ReadBack(reprint, Values.Obj(m));
    assert map[] + m == m;
  }

  lemma NilSurvives(reprint: Values.Reprint, p: Payload)
    requires PayloadSurvives(reprint, p)
    ensures Values.Survives(reprint, Values.Obj(PayloadMap(p)))
  {
  }

  /**
   The bytes a record hash is taken over are the record's own line without its hash, and with an empty object for a nil
   payload: so the decoder reads them.
   */
  lemma DecodeCanonical(reprint: Values.Reprint, r: AuditRecord)
    requires PrintableRecord(r) && PayloadSurvives(reprint, r.payload)
    ensures DecodeRecord(reprint, Canonical(r)) == Some(r.(recordHash := "", payload := Members(PayloadMap(r.payload))))
  {
    hide Parse, Print, RecordFrom, Printable, Values.ToTree, PayloadOf, Values.Survives, PayloadMap, Utf8.Valid,
      PayloadSurvives;
    CanonicalPrintable(r);
    CanonicalMembers(r);
    hide CanonicalTree;
    RoundTrip(CanonicalTree(r));
    CanonicalHead(reprint, r);
    NilSurvives(reprint, r.payload);
    PayloadBack(reprint, PayloadMap(r.payload));
    CanonicalTail(reprint, r);
  }

  /** The members a checkpoint hash is taken over. */
  function CoreMembers(c: Checkpoint): seq<Member> {
    [Member("seq", Number(c.seqNo)), Member("head_anchor_seq", Number(c.anchorSeq)),
     Member("head_anchor_hash", Str(c.anchorHash)), Member("prev_checkpoint_hash", Str(c.prevHash)),
     Member("timestamp", Str(c.timestamp))]
  }

  lemma CoreIs(c: Checkpoint)
    ensures CanonicalCheckpoint(c) == Print(Obj(CoreMembers(c)))
  {
    hide Print, Number;
  }

  /** The bytes a checkpoint hash is taken over read as the checkpoint without hash and signature. */
  lemma DecodeCanonicalCheckpoint(c: Checkpoint)
    requires PrintableCheckpoint(c)
    ensures DecodeCheckpoint(CanonicalCheckpoint(c)) == Some(c.(hash := "", signature := ""))
  {
    hide Parse, Print, CheckpointFrom, Printable, Utf8.Valid, CoreMembers, CanonicalCheckpoint;
    CoreIs(c);
    CheckpointMembersPrintable(c);
    RoundTrip(Obj(CoreMembers(c)));
    CoreReadBack(c);
  }

  lemma CoreReadBack(c: Checkpoint)
    requires Int64(c.seqNo) && Int64(c.anchorSeq)
    ensures CheckpointFrom(ZERO_CHECKPOINT, CoreMembers(c), 0) == Some(c.(hash := "", signature := ""))
  {
    var ms := CoreMembers(c);
    hide ApplyCheckpoint, Number;
    var c1 := ZERO_CHECKPOINT.(seqNo := c.seqNo);
    var c2 := c1.(anchorSeq := c.anchorSeq);
    var c3 := c2.(anchorHash := c.anchorHash);
    var c4 := c3.(prevHash := c.prevHash);
    var c5 := c4.(timestamp := c.timestamp);
    ApplySeqs(ZERO_CHECKPOINT, c.seqNo);
    CheckpointStep(ZERO_CHECKPOINT, ms, 0, c1);
    ApplySeqs(c1, c.anchorSeq);
    CheckpointStep(c1, ms, 1, c2);
    ApplyTexts(c2, c.anchorHash);
    CheckpointStep(c2, ms, 2, c3);
    ApplyTexts(c3, c.prevHash);
    CheckpointStep(c3, ms, 3, c4);
    ApplyTexts(c4, c.timestamp);
    CheckpointStep(c4, ms, 4, c5);
  }

  lemma CheckpointMembersPrintable(c: Checkpoint)
    requires PrintableCheckpoint(c)
    ensures Printable(Obj(CoreMembers(c)))
  {
    hide Utf8.Valid, PrintableMember, Number, Printable;
    NumberPrintable(c.seqNo);
    NumberPrintable(c.anchorSeq);
    NameValid("seq", Number(c.seqNo));
    NameValid("head_anchor_seq", Number(c.anchorSeq));
    TextMember("head_anchor_hash", c.anchorHash);
    TextMember("prev_checkpoint_hash", c.prevHash);
    TextMember("timestamp", c.timestamp);
    PrintableObject(CoreMembers(c));
  }

  /******* Written out *******/

  /** A member with its value as text, as a quoted text, and as a number. */
  function Field(name: string, value: string): string { "\"" + name + "\":" + value }

  function Quoted(name: string, s: string): string { Field(name, "\"" + Escape(s) + "\"") }

  function Counted(name: string, n: int): string { Field(name, Decimal.PrintInt(n)) }

  function Braces(fields: seq<string>): string { "{" + Listed(fields) + "}" }

  function HostedText(h: Option<HostedContext>): seq<string> {
    if h.None? then []
    else
      [Field("hosted_context",
             Braces([Quoted("tenant_id", h.value.tenantId), Quoted("project_id", h.value.projectId),
                     Quoted("region", h.value.region), Quoted("runtime_provider", h.value.runtimeProvider)]))]
  }

  /** How a member of plain name prints. */
  lemma FieldIs(name: string, value: Tree)
    requires PlainName(name)
    ensures MemberText(Member(name, value)) == Field(name, Print(value))
  {
    hide Escape, Print;
    EscapeQuiet(name);
  }

  lemma QuotedIs(name: string, s: string)
    requires PlainName(name)
    ensures MemberText(Member(name, Str(s))) == Quoted(name, s)
  {
    hide Escape, PlainName, MemberText, Field;
    FieldIs(name, Str(s));
    TextOf(Str(s));
  }

  lemma CountedIs(name: string, n: int)
    requires PlainName(name)
    ensures MemberText(Member(name, Number(n))) == Counted(name, n)
  {
    hide Escape, PlainName, MemberText, Field;
    FieldIs(name, Number(n));
    TextOf(Number(n));
  }

  /** The texts of some members, one by one. */
  lemma TextsAre(ms: seq<Member>, texts: seq<string>)
    requires |ms| == |texts| && forall i :: 0 <= i < |ms| ==> texts[i] == MemberText(ms[i])
    ensures Print(Obj(ms)) == Braces(texts)
  {
    hide Print, Escape, MemberText;
    TextOf(Obj(ms));
    assert MemberTexts(ms) == texts;
  }

  lemma HostedIs(h: HostedContext)
    ensures MemberText(Member("hosted_context", Obj(HostedFields(h)))) == HostedText(Some(h))[0]
  {
    hide PlainName, Print, Quoted, Field, Braces, MemberText;
    HostedPlain();
    TagsPlain();
    QuotedIs("tenant_id", h.tenantId);
    QuotedIs("project_id", h.projectId);
    QuotedIs("region", h.region);
    QuotedIs("runtime_provider", h.runtimeProvider);
    TextsAre(HostedFields(h), [Quoted("tenant_id", h.tenantId), Quoted("project_id", h.projectId),
                               Quoted("region", h.region), Quoted("runtime_provider", h.runtimeProvider)]);
    FieldIs("hosted_context", Obj(HostedFields(h)));
  }

  lemma HostedTexts(h: Option<HostedContext>)
    ensures |HostedText(h)| == if h.Some? then 1 else 0
  {
  }

  /** The line of a record, whatever its texts. */
  lemma LineText(r: AuditRecord)
    ensures Encode(r)
         == Braces([Counted("seq", r.seqNo), Quoted("prev_hash", r.prevHash), Quoted("record_hash", r.recordHash),
                    Quoted("timestamp", r.timestamp), Quoted("event_type", r.eventType),
                    Quoted("deployment_mode", r.deploymentMode), Quoted("actor", r.actor),
                    Field("payload", Print(PayloadTree(r.payload)))] + HostedText(r.hosted))
  {
    hide PlainName, Print, Quoted, Counted, Field, Braces, MemberText, MembersWith, Number, PayloadTree, HostedFields,
      HostedText;
    TagsPlain();
    MembersOfLine(r, PayloadTree(r.payload));
    CountedIs("seq", r.seqNo);
    QuotedIs("prev_hash", r.prevHash);
    QuotedIs("record_hash", r.recordHash);
    QuotedIs("timestamp", r.timestamp);
    QuotedIs("event_type", r.eventType);
    QuotedIs("deployment_mode", r.deploymentMode);
    QuotedIs("actor", r.actor);
    FieldIs("payload", PayloadTree(r.payload));
    HostedTexts(r.hosted);
    if r.hosted.Some? { HostedIs(r.hosted.value); }
    TextsAre(LineMembers(r),
      [Counted("seq", r.seqNo), Quoted("prev_hash", r.prevHash), Quoted("record_hash", r.recordHash),
       Quoted("timestamp", r.timestamp), Quoted("event_type", r.eventType), Quoted("deployment_mode", r.deploymentMode),
       Quoted("actor", r.actor), Field("payload", Print(PayloadTree(r.payload)))] + HostedText(r.hosted));
  }

  lemma PayloadText(p: Payload)
    ensures Values.Marshal(Values.Obj(if p.NilMap? then map[] else p.m))
         == Print(Values.ToTree(Values.Obj(PayloadMap(p))))
  {
    hide Print, Values.ToTree;
  }

  /** The bytes a record hash is taken over: a nil payload is the empty object. */
  lemma CanonicalText(r: AuditRecord)
    ensures Canonical(r)
         == Braces([Counted("seq", r.seqNo), Quoted("prev_hash", r.prevHash), Quoted("timestamp", r.timestamp),
                    Quoted("event_type", r.eventType), Quoted("deployment_mode", r.deploymentMode),
                    Quoted("actor", r.actor),
                    Field("payload", Values.Marshal(Values.Obj(if r.payload.NilMap? then map[] else r.payload.m)))]
                   + HostedText(r.hosted))
  {
    hide PlainName, Print, Quoted, Counted, Field, Braces, MemberText, CanonicalTree, Number, HostedFields, HostedText,
      Values.ToTree, PayloadMap, Values.Marshal;
    var payload := Values.ToTree(Values.Obj(PayloadMap(r.payload)));
    PayloadText(r.payload);
    TagsPlain();
    CanonicalMembers(r);
    CountedIs("seq", r.seqNo);
    QuotedIs("prev_hash", r.prevHash);
    QuotedIs("timestamp", r.timestamp);
    QuotedIs("event_type", r.eventType);
    QuotedIs("deployment_mode", r.deploymentMode);
    QuotedIs("actor", r.actor);
    FieldIs("payload", payload);
    HostedTexts(r.hosted);
    if r.hosted.Some? { HostedIs(r.hosted.value); }
    TextsAre(CanonicalTree(r).members,
      [Counted("seq", r.seqNo), Quoted("prev_hash", r.prevHash), Quoted("timestamp", r.timestamp),
       Quoted("event_type", r.eventType), Quoted("deployment_mode", r.deploymentMode), Quoted("actor", r.actor),
       Field("payload", Print(payload))] + HostedText(r.hosted));
  }

  /** The line of a checkpoint; an unsigned one has null for its signature. */
  lemma CheckpointText(c: Checkpoint)
    ensures EncodeCheckpoint(c)
         == Braces([Counted("seq", c.seqNo), Counted("head_anchor_seq", c.anchorSeq),
                    Quoted("head_anchor_hash", c.anchorHash), Quoted("prev_checkpoint_hash", c.prevHash),
                    Quoted("checkpoint_hash", c.hash),
                    if c.signature == "" then Field("signature", "null") else Quoted("signature", c.signature),
                    Quoted("timestamp", c.timestamp)])
  {
    hide PlainName, Print, Quoted, Counted, Field, Braces, MemberText, Number;
    CheckpointTagsPlain();
    CountedIs("seq", c.seqNo);
    CountedIs("head_anchor_seq", c.anchorSeq);
    QuotedIs("head_anchor_hash", c.anchorHash);
    QuotedIs("prev_checkpoint_hash", c.prevHash);
    QuotedIs("checkpoint_hash", c.hash);
    FieldIs("signature", Null);
    TextOf(Null);
    QuotedIs("signature", c.signature);
    QuotedIs("timestamp", c.timestamp);
    TextsAre(CheckpointMembers(c),
      [Counted("seq", c.seqNo), Counted("head_anchor_seq", c.anchorSeq), Quoted("head_anchor_hash", c.anchorHash),
       Quoted("prev_checkpoint_hash", c.prevHash), Quoted("checkpoint_hash", c.hash),
       if c.signature == "" then Field("signature", "null") else Quoted("signature", c.signature),
       Quoted("timestamp", c.timestamp)]);
  }

  /** The bytes a checkpoint hash is taken over. */
  lemma CanonicalCheckpointText(c: Checkpoint)
    ensures CanonicalCheckpoint(c)
         == Braces([Counted("seq", c.seqNo), Counted("head_anchor_seq", c.anchorSeq),
                    Quoted("head_anchor_hash", c.anchorHash), Quoted("prev_checkpoint_hash", c.prevHash),
                    Quoted("timestamp", c.timestamp)])
  {
    hide PlainName, Print, Quoted, Counted, Field, Braces, MemberText, Number, CanonicalCheckpoint;
    CoreIs(c);
    CheckpointTagsPlain();
    CountedIs("seq", c.seqNo);
    CountedIs("head_anchor_seq", c.anchorSeq);
    QuotedIs("head_anchor_hash", c.anchorHash);
    QuotedIs("prev_checkpoint_hash", c.prevHash);
    QuotedIs("timestamp", c.timestamp);
    TextsAre(CoreMembers(c),
      [Counted("seq", c.seqNo), Counted("head_anchor_seq", c.anchorSeq), Quoted("head_anchor_hash", c.anchorHash),
       Quoted("prev_checkpoint_hash", c.prevHash), Quoted("timestamp", c.timestamp)]);
  }
}
