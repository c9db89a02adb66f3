/**
 A decoder for audit lines in the manner of `json.Unmarshal` into a struct: members are applied in
 order, unknown names are skipped, null leaves a field alone. It shows that the laws of `Codec` can be met.
 */
module Decoder {
  import opened Base
  import opened Json
  import opened JsonRoundTrip
  import opened JsonPrefix
  import opened JsonLex
  import opened Records
  import opened RecordTheorems
  import Decimal
  import Utf8
  import Values

  datatype Field =
    | Seq | PrevHash | RecordHash | Timestamp | EventType | DeploymentMode | Actor | PayloadField | Hosted | Unknown

  /** Names match up to letter case, with the two runes outside ASCII that fold to ASCII letters. */
  function Fold(key: string): string {
    if key == "" then ""
    else if 'A' <= key[0] <= 'Z' then [key[0] - 'A' + 'a'] + Fold(key[1..])
    else if |key| >= 2 && key[0] as int == 0xC5 && key[1] as int == 0xBF then "s" + Fold(key[2..])
    else if |key| >= 3 && key[0] as int == 0xE2 && key[1] as int == 0x84 && key[2] as int == 0xAA
    then "k" + Fold(key[3..])
    else [key[0]] + Fold(key[1..])
  }

  predicate PlainName(name: string) { forall i :: 0 <= i < |name| ==> 'a' <= name[i] <= 'z' || name[i] == '_' }

  lemma {:induction false} FoldSame(name: string)
    requires PlainName(name)
    ensures Fold(name) == name
    decreases |name|
  {
    if name != "" {
      FoldSame(name[1..]);
      assert name == [name[0]] + name[1..];
    }
  }

  lemma FoldPlain(name: string)
    requires PlainName(name)
    ensures Fold(name) == name && CleanText(name) == name
  {
    hide Fold, CleanText;
    FoldSame(name);
    AsciiValid(name);
    CleanValidText(name);
  }

  function FieldOf(key: string): Field { FieldNamed(Fold(key)) }

  function FieldNamed(key: string): Field {
    if key == "seq" then Seq
    else if key == "prev_hash" then PrevHash
    else if key == "record_hash" then RecordHash
    else if key == "timestamp" then Timestamp
    else if key == "event_type" then EventType
    else if key == "deployment_mode" then DeploymentMode
    else if key == "actor" then Actor
    else if key == "payload" then PayloadField
    else if key == "hosted_context" then Hosted
    else Unknown
  }

  function Text(was: string, t: Tree): Option<string> {
    match t
    case Str(s) => Some(s)
    case Null => Some(was)
    case _ => None
  }

  function Integer(was: int, t: Tree): Option<int> {
    match t
    case Num(token) =>
      var n :- Decimal.ParseSigned(token, false);
      if Int64(n) then Some(n) else None
    case Null => Some(was)
    case _ => None
  }

  /** An object is merged into the map already there. */
  function PayloadOf(reprint: Values.Reprint, was: Payload, t: Tree): Option<Payload> {
    match t
    case Obj(ms) => var m :- Values.FromMembers(reprint, ms); Some(Members(PayloadMap(was) + m))
    case Null => Some(NilMap)
    case _ => None
  }

  function HostedFrom(h: HostedContext, ms: seq<Member>, i: nat): Option<HostedContext>
    requires i <= |ms|
    decreases |ms| - i
  {
    if i == |ms| then Some(h)
    else
      var h' :- ApplyHosted(h, Fold(ms[i].key), ms[i].value);
      HostedFrom(h', ms, i + 1)
  }

  function ApplyHosted(h: HostedContext, name: string, t: Tree): Option<HostedContext> {
    if name == "tenant_id" then var s :- Text(h.tenantId, t); Some(h.(tenantId := s))
    else if name == "project_id" then var s :- Text(h.projectId, t); Some(h.(projectId := s))
    else if name == "region" then var s :- Text(h.region, t); Some(h.(region := s))
    else if name == "runtime_provider" then var s :- Text(h.runtimeProvider, t); Some(h.(runtimeProvider := s))
    else Some(h)
  }

  function HostedOf(was: Option<HostedContext>, t: Tree): Option<Option<HostedContext>> {
    match t
    case Obj(ms) =>
      var h :- HostedFrom(if was.Some? then was.value else HostedContext("", "", "", ""), ms, 0);
      Some(Some(h))
    case Null => Some(None)
    case _ => None
  }

  function Apply(reprint: Values.Reprint, r: AuditRecord, field: Field, t: Tree): Option<AuditRecord> {
    match field
    case Seq => var n :- Integer(r.seqNo, t); Some(r.(seqNo := n))
    case PrevHash => var s :- Text(r.prevHash, t); Some(r.(prevHash := s))
    case RecordHash => var s :- Text(r.recordHash, t); Some(r.(recordHash := s))
    case Timestamp => var s :- Text(r.timestamp, t); Some(r.(timestamp := s))
    case EventType => var s :- Text(r.eventType, t); Some(r.(eventType := s))
    case DeploymentMode => var s :- Text(r.deploymentMode, t); Some(r.(deploymentMode := s))
    case Actor => var s :- Text(r.actor, t); Some(r.(actor := s))
    case PayloadField => var p :- PayloadOf(reprint, r.payload, t); Some(r.(payload := p))
    case Hosted => var h :- HostedOf(r.hosted, t); Some(r.(hosted := h))
    case Unknown => Some(r)
  }

  function RecordFrom(reprint: Values.Reprint, r: AuditRecord, ms: seq<Member>, i: nat): Option<AuditRecord>
    requires i <= |ms|
    decreases |ms| - i
  {
    if i == |ms| then Some(r)
    else
      var r' :- Apply(reprint, r, FieldOf(ms[i].key), ms[i].value);
      RecordFrom(reprint, r', ms, i + 1)
  }

  const ZERO := AuditRecord(0, "", "", "", "", "", "", NilMap, None)

  function DecodeRecord(reprint: Values.Reprint, line: string): Option<AuditRecord> {
    var t :- Parse(line);
    match t
    case Obj(ms) => RecordFrom(reprint, ZERO, ms, 0)
    case Null => Some(ZERO)
    case _ => None
  }

  /******* Reading back a printed record *******/

  /** The names of the struct tags, folded and cleaned, are themselves. */
  lemma TagsPlain()
    ensures PlainName("seq") && PlainName("prev_hash") && PlainName("record_hash") && PlainName("timestamp")
    ensures PlainName("event_type") && PlainName("deployment_mode") && PlainName("actor") && PlainName("payload")
    ensures PlainName("hosted_context")
  {
  }

  lemma FieldNames()
    ensures FieldOf("seq") == Seq && FieldOf("prev_hash") == PrevHash && FieldOf("record_hash") == RecordHash
    ensures FieldOf("timestamp") == Timestamp && FieldOf("event_type") == EventType
    ensures FieldOf("deployment_mode") == DeploymentMode && FieldOf("actor") == Actor
    ensures FieldOf("payload") == PayloadField && FieldOf("hosted_context") == Hosted
  {
    hide Fold, FieldNamed, PlainName, CleanText;
    NamedFields();
    TagsPlain();
    FoldPlain("seq");
    FoldPlain("prev_hash");
    FoldPlain("record_hash");
    FoldPlain("timestamp");
    FoldPlain("event_type");
    FoldPlain("deployment_mode");
    FoldPlain("actor");
    FoldPlain("payload");
    FoldPlain("hosted_context");
  }

  lemma NamedFields()
    ensures FieldNamed("seq") == Seq && FieldNamed("prev_hash") == PrevHash && FieldNamed("record_hash") == RecordHash
    ensures FieldNamed("timestamp") == Timestamp && FieldNamed("event_type") == EventType
    ensures FieldNamed("deployment_mode") == DeploymentMode && FieldNamed("actor") == Actor
    ensures FieldNamed("payload") == PayloadField && FieldNamed("hosted_context") == Hosted
  {
    assert "seq"[0] == 's' && "prev_hash"[1] == 'r' && "record_hash"[0] == 'r' && "timestamp"[0] == 't';
    assert "event_type"[0] == 'e' && "deployment_mode"[0] == 'd' && "actor"[0] == 'a' && "payload"[1] == 'a';
    assert "hosted_context"[0] == 'h';
  }

  lemma IntegerReadBack(n: int, was: int)
    requires Int64(n)
    ensures Integer(was, Number(n)) == Some(n)
  {
    Decimal.ParsePrintInt(n, false);
  }

  lemma HostedReadBack(h: HostedContext)
    ensures HostedOf(None, Obj(HostedFields(h))) == Some(Some(h))
  {
    var ms := HostedFields(h);
    HostedNames(h);
    hide Fold, ApplyHosted;
    var h0 := HostedContext("", "", "", "");
    var h1 := h0.(tenantId := h.tenantId);
    var h2 := h1.(projectId := h.projectId);
    var h3 := h2.(region := h.region);
    assert HostedFrom(h, ms, 4) == Some(h);
    assert HostedFrom(h3, ms, 3) == Some(h);
    assert HostedFrom(h2, ms, 2) == Some(h);
    assert HostedFrom(h1, ms, 1) == Some(h);
  }

  lemma HostedNames(h: HostedContext)
    ensures var h0 := HostedContext("", "", "", "");
      var h1 := h0.(tenantId := h.tenantId);
      var h2 := h1.(projectId := h.projectId);
      var h3 := h2.(region := h.region);
      && ApplyHosted(h0, Fold("tenant_id"), Str(h.tenantId)) == Some(h1)
      && ApplyHosted(h1, Fold("project_id"), Str(h.projectId)) == Some(h2)
      && ApplyHosted(h2, Fold("region"), Str(h.region)) == Some(h3)
      && ApplyHosted(h3, Fold("runtime_provider"), Str(h.runtimeProvider)) == Some(h)
  {
    hide Fold, CleanText, PlainName;
    HostedPlain();
    FoldPlain("tenant_id");
    FoldPlain("project_id");
    FoldPlain("region");
    FoldPlain("runtime_provider");
    assert "tenant_id"[0] == 't' && "project_id"[0] == 'p' && |"region"| == 6 && |"runtime_provider"| == 16;
  }

  lemma HostedPlain()
    ensures PlainName("tenant_id") && PlainName("project_id") && PlainName("region") && PlainName("runtime_provider")
  {
  }

  lemma PayloadReadBack(reprint: Values.Reprint, r: AuditRecord)
    ensures var p := PayloadOf(reprint, NilMap, CleanTree(PayloadTree(r.payload)));
      Reread(reprint, r) == if p.None? then None else Some(CleanTexts(r).(payload := p.value))
  {
    hide Values.FromMembers, Values.MemberTrees, CleanTexts, CleanMembers;
    CleanTextsPayload(r);
    match r.payload
    case NilMap =>
    case Members(m) =>
      var ms := Values.MemberTrees(Values.Obj(m));
      assert Values.ToTree(Values.Obj(m)) == Obj(ms);
      assert CleanTree(Obj(ms)) == Obj(CleanMembers(ms));
      hide Values.ToTree;
      var f := Values.FromMembers(reprint, CleanMembers(ms));
      assert f.Some? ==> map[] + f.value == f.value;
  }

  /** The members the parser finds in a record's line. */
  lemma CleanLine(r: AuditRecord)
    ensures CleanMembers(LineMembers(r)) == MembersWith(CleanTexts(r), CleanTree(PayloadTree(r.payload)))
  {
    CleanTags(r);
    hide CleanText, CleanTree, Number, PayloadTree, HostedFields;
    var a, b := CleanMembers(LineMembers(r)), MembersWith(CleanTexts(r), CleanTree(PayloadTree(r.payload)));
    assert |a| == |b| == 8 + if r.hosted.Some? then 1 else 0;
    forall i | 0 <= i < |a| ensures a[i] == b[i] {
      assert a[i] == CleanMember(LineMembers(r)[i]);
    }
  }

  lemma CleanTags(r: AuditRecord)
    ensures CleanText("seq") == "seq" && CleanText("prev_hash") == "prev_hash"
    ensures CleanText("record_hash") == "record_hash"
    ensures CleanText("timestamp") == "timestamp" && CleanText("event_type") == "event_type"
    ensures CleanText("deployment_mode") == "deployment_mode" && CleanText("actor") == "actor"
    ensures CleanText("payload") == "payload" && CleanText("hosted_context") == "hosted_context"
    ensures CleanTree(Number(r.seqNo)) == Number(r.seqNo) && forall s :: CleanTree(Str(s)) == Str(CleanText(s))
    ensures r.hosted.Some? ==>
              CleanTree(Obj(HostedFields(r.hosted.value))) == Obj(HostedFields(CleanHosted(r.hosted.value)))
  {
    hide PlainName, CleanText, Fold, HostedFields;
    TagsPlain();
    FoldPlain("seq");
    FoldPlain("prev_hash");
    FoldPlain("record_hash");
    FoldPlain("timestamp");
    FoldPlain("event_type");
    FoldPlain("deployment_mode");
    FoldPlain("actor");
    FoldPlain("payload");
    FoldPlain("hosted_context");
    if r.hosted.Some? { CleanHostedFields(r.hosted.value); }
  }

  lemma CleanHostedFields(h: HostedContext)
    ensures CleanTree(Obj(HostedFields(h))) == Obj(HostedFields(CleanHosted(h)))
  {
    hide PlainName, CleanText, Fold;
    HostedPlain();
    FoldPlain("tenant_id");
    FoldPlain("project_id");
    FoldPlain("region");
    FoldPlain("runtime_provider");
    var a, b := CleanMembers(HostedFields(h)), HostedFields(CleanHosted(h));
    forall i | 0 <= i < 4 ensures a[i] == b[i] { assert a[i] == CleanMember(HostedFields(h)[i]); }
  }

  lemma MembersOfLine(r: AuditRecord, payload: Tree)
    ensures var ms := MembersWith(r, payload);
      && |ms| == (if r.hosted.Some? then 9 else 8)
      && ms[0] == Member("seq", Number(r.seqNo)) && ms[1] == Member("prev_hash", Str(r.prevHash))
      && ms[2] == Member("record_hash", Str(r.recordHash)) && ms[3] == Member("timestamp", Str(r.timestamp))
      && ms[4] == Member("event_type", Str(r.eventType)) && ms[5] == Member("deployment_mode", Str(r.deploymentMode))
      && ms[6] == Member("actor", Str(r.actor)) && ms[7] == Member("payload", payload)
      && (r.hosted.Some? ==> ms[8] == Member("hosted_context", Obj(HostedFields(r.hosted.value))))
  {
    hide Number, HostedFields;
  }

  lemma RecordStep(reprint: Values.Reprint, r: AuditRecord, ms: seq<Member>, i: nat, field: Field, r': AuditRecord)
    requires i < |ms| && FieldOf(ms[i].key) == field && Apply(reprint, r, field, ms[i].value) == Some(r')
    ensures RecordFrom(reprint, r, ms, i) == RecordFrom(reprint, r', ms, i + 1)
  {
    hide FieldOf, Apply;
  }

  /** The members of a line decode to the record with its payload decoded. */
  lemma RecordReadBack(reprint: Values.Reprint, r: AuditRecord, payload: Tree)
    requires Int64(r.seqNo)
    ensures var p := PayloadOf(reprint, NilMap, payload);
      RecordFrom(reprint, ZERO, MembersWith(r, payload), 0) == if p.None? then None else Some(r.(payload := p.value))
  {
    var r4 := ZERO.(seqNo := r.seqNo, prevHash := r.prevHash, recordHash := r.recordHash, timestamp := r.timestamp);
    RecordHead(reprint, r, payload, r4);
    RecordMiddle(reprint, r, payload, r4);
    RecordTail(reprint, r.(payload := NilMap, hosted := None), r, payload);
    hide *;
  }

  lemma RecordHead(reprint: Values.Reprint, r: AuditRecord, payload: Tree, r4: AuditRecord)
    requires Int64(r.seqNo)
    requires r4 == ZERO.(seqNo := r.seqNo, prevHash := r.prevHash, recordHash := r.recordHash, timestamp := r.timestamp)
    ensures RecordFrom(reprint, ZERO, MembersWith(r, payload), 0) == RecordFrom(reprint, r4, MembersWith(r, payload), 4)
  {
    hide FieldOf, Integer, RecordFrom, MembersWith, Number;
    FieldNames();
    IntegerReadBack(r.seqNo, 0);
    MembersOfLine(r, payload);
    var ms := MembersWith(r, payload);
    var r1 := ZERO.(seqNo := r.seqNo);
    var r2 := r1.(prevHash := r.prevHash);
    var r3 := r2.(recordHash := r.recordHash);
    RecordStep(reprint, ZERO, ms, 0, Seq, r1);
    RecordStep(reprint, r1, ms, 1, PrevHash, r2);
    RecordStep(reprint, r2, ms, 2, RecordHash, r3);
    RecordStep(reprint, r3, ms, 3, Timestamp, r4);
  }

  lemma RecordMiddle(reprint: Values.Reprint, r: AuditRecord, payload: Tree, r4: AuditRecord)
    requires r4 == ZERO.(seqNo := r.seqNo, prevHash := r.prevHash, recordHash := r.recordHash, timestamp := r.timestamp)
    ensures RecordFrom(reprint, r4, MembersWith(r, payload), 4)
            == RecordFrom(reprint, r.(payload := NilMap, hosted := None), MembersWith(r, payload), 7)
  {
    hide FieldOf, RecordFrom, MembersWith;
    FieldNames();
    MembersOfLine(r, payload);
    var ms := MembersWith(r, payload);
    var r5 := r4.(eventType := r.eventType);
    var r6 := r5.(deploymentMode := r.deploymentMode);
    RecordStep(reprint, r4, ms, 4, EventType, r5);
    RecordStep(reprint, r5, ms, 5, DeploymentMode, r6);
    RecordStep(reprint, r6, ms, 6, Actor, r6.(actor := r.actor));
  }

  lemma RecordTail(reprint: Values.Reprint, r7: AuditRecord, r: AuditRecord, payload: Tree)
    requires r7 == r.(payload := NilMap, hosted := None)
    ensures var p := PayloadOf(reprint, NilMap, payload);
      RecordFrom(reprint, r7, MembersWith(r, payload), 7) == if p.None? then None else Some(r.(payload := p.value))
  {
    hide FieldOf, PayloadOf, HostedOf, HostedFields, MembersWith;
    FieldNames();
    MembersOfLine(r, payload);
    var ms := MembersWith(r, payload);
    var p := PayloadOf(reprint, NilMap, payload);
    if p.Some? {
      var r8 := r7.(payload := p.value);
      RecordStep(reprint, r7, ms, 7, PayloadField, r8);
      if r.hosted.Some? {
        HostedReadBack(r.hosted.value);
        RecordStep(reprint, r8, ms, 8, Hosted, r8.(hosted := r.hosted));
      }
    }
  }

  /** The decoder inverts the printer up to float64 and stray bytes. */
  lemma DecodeEncode(reprint: Values.Reprint, r: AuditRecord)
    requires Writable(r)
    ensures DecodeRecord(reprint, Encode(r)) == Reread(reprint, r)
  {
    hide Parse, Print, RecordFrom, Reread, LineMembers, MembersWith, Numeric, PayloadOf, CleanTexts;
    LineNumeric(r);
    ParseClean(Obj(LineMembers(r)));
    CleanLine(r);
    CleanTextsSeq(r);
    RecordReadBack(reprint, CleanTexts(r), CleanTree(PayloadTree(r.payload)));
    PayloadReadBack(reprint, r);
  }

  lemma CleanTextsSeq(r: AuditRecord)
    ensures CleanTexts(r).seqNo == r.seqNo
  {
  }

  lemma DecodePrefix(reprint: Values.Reprint, r: AuditRecord, k: nat)
    requires Writable(r) && k < |Encode(r)|
    ensures DecodeRecord(reprint, Encode(r)[..k]).None?
  {
    hide Parse, Print, LineMembers, Numeric;
    LineNumeric(r);
    StrictPrefixRejected(LineMembers(r), k);
  }

  /** A record with a line run behind it is no document. */
  lemma DecodeMerged(reprint: Values.Reprint, t: string, q: string)
    requires DecodeRecord(reprint, t).Some? && q != "" && q[0] == '{'
    ensures DecodeRecord(reprint, t + q).None?
  {
    hide Parse, RecordFrom;
    NothingFollows(t, q);
  }

  /** A torn line with a whole line run behind it is no document either. */
  lemma DecodeTornMerged(reprint: Values.Reprint, r: AuditRecord, k: nat, s: AuditRecord)
    requires Writable(r) && Writable(s) && 0 < k < |Encode(r)|
    ensures DecodeRecord(reprint, Encode(r)[..k] + Encode(s)).None?
  {
    hide Parse, Print, LineMembers, Numeric;
    LineNumeric(r);
    LineNumeric(s);
    LineStart(s);
    TornMerged(LineMembers(r), k, LineMembers(s));
  }

  lemma DecodeSpace(reprint: Values.Reprint, t: string)
    ensures DecodeRecord(reprint, "\r" + t) == DecodeRecord(reprint, t)
    ensures DecodeRecord(reprint, t).Some? ==> DecodeRecord(reprint, t + "\r") == DecodeRecord(reprint, t)
  {
    hide Parse, RecordFrom;
    SpaceAround(t);
  }

  lemma DecodeSame(reprint: Values.Reprint, t: string, k: nat, m: nat)
    requires k <= m <= |t| && DecodeRecord(reprint, t).Some? && DecodeRecord(reprint, t[..k]).Some?
    ensures DecodeRecord(reprint, t[..m]) == DecodeRecord(reprint, t)
  {
    hide Parse, RecordFrom;
    SameDocument(t, k, m);
  }

  /******* Decoded records are printable *******/

  /** float64 prints JSON numbers only, and prints what it has printed the same again. */
  ghost predicate PrintsNumbers(reprint: Values.Reprint) {
    forall token :: reprint(token).Some? ==>
      ValidNumber(reprint(token).value) && reprint(reprint(token).value) == reprint(token)
  }

  /** Printable and already in float64 form. */
  predicate Settled(reprint: Values.Reprint, v: Values.Value) { Values.Printable(v) && Values.Survives(reprint, v) }

  predicate SettledMap(reprint: Values.Reprint, m: map<string, Values.Value>) {
    forall k :: k in m ==> Utf8.Valid(k) && Settled(reprint, m[k])
  }

  lemma MapSettled(reprint: Values.Reprint, m: map<string, Values.Value>)
    requires SettledMap(reprint, m)
    ensures Settled(reprint, Values.Obj(m))
  {
    hide Values.MemberTrees, Utf8.Valid;
    var ms := Values.MemberTrees(Values.Obj(m));
    assert Values.ToTree(Values.Obj(m)) == Obj(ms);
    forall i | 0 <= i < |ms| ensures Utf8.Valid(ms[i].key) && Printable(ms[i].value) {
      assert ms[i].key in m && Settled(reprint, m[ms[i].key]);
    }
  }

  lemma {:induction false} FromTreeSettled(reprint: Values.Reprint, t: Tree)
    requires PrintsNumbers(reprint) && Printable(t) && Values.FromTree(reprint, t).Some?
    ensures Settled(reprint, Values.FromTree(reprint, t).value)
    decreases t
  {
    match t
    case Arr(items) =>
      FromItemsSettled(reprint, items);
      var vs := Values.FromItems(reprint, items).value;
      hide Values.FromItems, Values.ItemTrees;
      assert Values.ToTree(Values.Arr(vs)) == Arr(Values.ItemTrees(Values.Arr(vs)));
    case Obj(ms) =>
      FromMembersSettled(reprint, ms);
      hide Values.FromMembers;
      MapSettled(reprint, Values.FromMembers(reprint, ms).value);
    case _ =>
  }

  lemma {:induction false} FromItemsSettled(reprint: Values.Reprint, items: seq<Tree>)
    requires PrintsNumbers(reprint) && Values.FromItems(reprint, items).Some?
    requires forall i :: 0 <= i < |items| ==> Printable(items[i])
    ensures forall i :: 0 <= i < |Values.FromItems(reprint, items).value| ==>
              Settled(reprint, Values.FromItems(reprint, items).value[i])
    decreases items
  {
    hide Values.FromTree, Printable, Settled;
    if items != [] {
      FromTreeSettled(reprint, items[0]);
      FromItemsSettled(reprint, items[1..]);
    }
  }

  lemma {:induction false} FromMembersSettled(reprint: Values.Reprint, ms: seq<Member>)
    requires PrintsNumbers(reprint) && Values.FromMembers(reprint, ms).Some?
    requires forall i :: 0 <= i < |ms| ==> Utf8.Valid(ms[i].key) && Printable(ms[i].value)
    ensures SettledMap(reprint, Values.FromMembers(reprint, ms).value)
    decreases ms
  {
    hide Values.FromTree, Printable, Settled, Utf8.Valid;
    if ms != [] {
      var n := |ms| - 1;
      FromMembersSettled(reprint, ms[..n]);
      FromTreeSettled(reprint, ms[n].value);
    }
  }

  lemma PayloadOfPrintable(reprint: Values.Reprint, was: Payload, t: Tree)
    requires PrintsNumbers(reprint) && SettledMap(reprint, PayloadMap(was)) && Printable(t)
    requires PayloadOf(reprint, was, t).Some?
    ensures SettledMap(reprint, PayloadMap(PayloadOf(reprint, was, t).value))
  {
    hide Settled, Utf8.Valid, Values.FromMembers;
    if t.Obj? { FromMembersSettled(reprint, t.members); }
  }

  lemma {:induction false} HostedFromPrintable(h: HostedContext, ms: seq<Member>, i: nat)
    requires i <= |ms| && PrintableHosted(h) && Printable(Obj(ms)) && HostedFrom(h, ms, i).Some?
    ensures PrintableHosted(HostedFrom(h, ms, i).value)
    decreases |ms| - i
  {
    if i < |ms| {
      hide Utf8.Valid, Fold, ApplyHosted, PrintableHosted;
      ApplyHostedPrintable(h, Fold(ms[i].key), ms[i].value);
      HostedFromPrintable(ApplyHosted(h, Fold(ms[i].key), ms[i].value).value, ms, i + 1);
    }
  }

  lemma ApplyHostedPrintable(h: HostedContext, name: string, t: Tree)
    requires PrintableHosted(h) && Printable(t) && ApplyHosted(h, name, t).Some?
    ensures PrintableHosted(ApplyHosted(h, name, t).value)
  {
    hide Utf8.Valid;
  }

  /** Like JSON-normal, with the payload judged member by member. */
  predicate Decodable(reprint: Values.Reprint, r: AuditRecord) {
    && Int64(r.seqNo) && Utf8.Valid(r.prevHash) && Utf8.Valid(r.recordHash) && Utf8.Valid(r.timestamp)
    && Utf8.Valid(r.eventType) && Utf8.Valid(r.deploymentMode) && Utf8.Valid(r.actor)
    && SettledMap(reprint, PayloadMap(r.payload)) && (r.hosted.Some? ==> PrintableHosted(r.hosted.value))
  }

  lemma ApplyDecodable(reprint: Values.Reprint, r: AuditRecord, field: Field, t: Tree)
    requires PrintsNumbers(reprint) && Decodable(reprint, r) && Printable(t) && Apply(reprint, r, field, t).Some?
    ensures Decodable(reprint, Apply(reprint, r, field, t).value)
  {
    hide Utf8.Valid, SettledMap, PayloadOf, HostedFrom, PrintableHosted, Decimal.ParseSigned;
    match field
    case PayloadField => PayloadOfPrintable(reprint, r.payload, t);
    case Hosted =>
      if t.Obj? {
        EmptyHosted();
        HostedFromPrintable(if r.hosted.Some? then r.hosted.value else HostedContext("", "", "", ""), t.members, 0);
      }
    case _ =>
  }

  lemma EmptyHosted()
    ensures PrintableHosted(HostedContext("", "", "", ""))
  {
  }

  lemma {:induction false} RecordFromDecodable(reprint: Values.Reprint, r: AuditRecord, ms: seq<Member>, i: nat)
    requires i <= |ms| && PrintsNumbers(reprint) && Decodable(reprint, r) && Printable(Obj(ms))
    requires RecordFrom(reprint, r, ms, i).Some?
    ensures Decodable(reprint, RecordFrom(reprint, r, ms, i).value)
    decreases |ms| - i
  {
    hide Decodable, Apply, FieldOf, Utf8.Valid;
    if i < |ms| {
      ApplyDecodable(reprint, r, FieldOf(ms[i].key), ms[i].value);
      RecordFromDecodable(reprint, Apply(reprint, r, FieldOf(ms[i].key), ms[i].value).value, ms, i + 1);
    }
  }

  lemma DecodedNormal(reprint: Values.Reprint, line: string)
    requires PrintsNumbers(reprint) && DecodeRecord(reprint, line).Some?
    ensures PrintableRecord(DecodeRecord(reprint, line).value)
    ensures PayloadSurvives(reprint, DecodeRecord(reprint, line).value.payload)
  {
    hide ParseValue, RecordFrom, Utf8.Valid, Values.Printable, Printable, Values.Survives;
    ParsedPrintable(line);
    ZeroDecodable(reprint);
    var t := Parse(line).value;
    if t.Obj? { RecordFromDecodable(reprint, ZERO, t.members, 0); }
    MapSettled(reprint, PayloadMap(DecodeRecord(reprint, line).value.payload));
  }

  lemma ZeroDecodable(reprint: Values.Reprint)
    ensures Decodable(reprint, ZERO)
  {
  }

  /******* Checkpoints *******/

  datatype CheckpointField = CpSeq | AnchorSeq | AnchorHash | CpPrevHash | CpHash | Signature | CpTimestamp | CpUnknown

  function CheckpointFieldOf(key: string): CheckpointField { CheckpointFieldNamed(Fold(key)) }

  function CheckpointFieldNamed(key: string): CheckpointField {
    if key == "seq" then CpSeq
    else if key == "head_anchor_seq" then AnchorSeq
    else if key == "head_anchor_hash" then AnchorHash
    else if key == "prev_checkpoint_hash" then CpPrevHash
    else if key == "checkpoint_hash" then CpHash
    else if key == "signature" then Signature
    else if key == "timestamp" then CpTimestamp
    else CpUnknown
  }

  function ApplyCheckpoint(c: Checkpoint, m: Member): Option<Checkpoint> {
    match CheckpointFieldOf(m.key)
    case CpSeq => var n :- Integer(c.seqNo, m.value); Some(c.(seqNo := n))
    case AnchorSeq => var n :- Integer(c.anchorSeq, m.value); Some(c.(anchorSeq := n))
    case AnchorHash => var s :- Text(c.anchorHash, m.value); Some(c.(anchorHash := s))
    case CpPrevHash => var s :- Text(c.prevHash, m.value); Some(c.(prevHash := s))
    case CpHash => var s :- Text(c.hash, m.value); Some(c.(hash := s))
    case Signature => var s :- if m.value.Null? then Some("") else Text("", m.value); Some(c.(signature := s))
    case CpTimestamp => var s :- Text(c.timestamp, m.value); Some(c.(timestamp := s))
    case CpUnknown => Some(c)
  }

  function CheckpointFrom(c: Checkpoint, ms: seq<Member>, i: nat): Option<Checkpoint>
    requires i <= |ms|
    decreases |ms| - i
  {
    if i == |ms| then Some(c)
    else
      var c' :- ApplyCheckpoint(c, ms[i]);
      CheckpointFrom(c', ms, i + 1)
  }

  const ZERO_CHECKPOINT := Checkpoint(0, 0, "", "", "", "", "")

  function DecodeCheckpoint(line: string): Option<Checkpoint> {
    var t :- Parse(line);
    match t
    case Obj(ms) => CheckpointFrom(ZERO_CHECKPOINT, ms, 0)
    case Null => Some(ZERO_CHECKPOINT)
    case _ => None
  }

  lemma CheckpointStep(c: Checkpoint, ms: seq<Member>, i: nat, c': Checkpoint)
    requires i < |ms| && ApplyCheckpoint(c, ms[i]) == Some(c')
    ensures CheckpointFrom(c, ms, i) == CheckpointFrom(c', ms, i + 1)
  {
    hide ApplyCheckpoint;
  }

  lemma CheckpointFieldNames()
    ensures CheckpointFieldOf("seq") == CpSeq && CheckpointFieldOf("head_anchor_seq") == AnchorSeq
    ensures CheckpointFieldOf("head_anchor_hash") == AnchorHash
    ensures CheckpointFieldOf("prev_checkpoint_hash") == CpPrevHash
    ensures CheckpointFieldOf("checkpoint_hash") == CpHash && CheckpointFieldOf("signature") == Signature
    ensures CheckpointFieldOf("timestamp") == CpTimestamp
  {
    hide Fold, CheckpointFieldNamed, PlainName, CleanText;
    CheckpointNamedFields();
    CheckpointTagsPlain();
    FoldPlain("seq");
    FoldPlain("head_anchor_seq");
    FoldPlain("head_anchor_hash");
    FoldPlain("prev_checkpoint_hash");
    FoldPlain("checkpoint_hash");
    FoldPlain("signature");
    FoldPlain("timestamp");
  }

  lemma CheckpointTagsPlain()
    ensures PlainName("seq") && PlainName("head_anchor_seq") && PlainName("head_anchor_hash")
    ensures PlainName("prev_checkpoint_hash") && PlainName("checkpoint_hash") && PlainName("signature")
    ensures PlainName("timestamp")
  {
  }

  lemma CheckpointNamedFields()
    ensures CheckpointFieldNamed("seq") == CpSeq && CheckpointFieldNamed("head_anchor_seq") == AnchorSeq
    ensures CheckpointFieldNamed("head_anchor_hash") == AnchorHash
    ensures CheckpointFieldNamed("prev_checkpoint_hash") == CpPrevHash
    ensures CheckpointFieldNamed("checkpoint_hash") == CpHash && CheckpointFieldNamed("signature") == Signature
    ensures CheckpointFieldNamed("timestamp") == CpTimestamp
  {
    assert |"seq"| == 3 && "head_anchor_seq"[0] == 'h' && "checkpoint_hash"[0] == 'c' && |"head_anchor_hash"| == 16;
    assert |"prev_checkpoint_hash"| == 20 && |"checkpoint_hash"| == 15 && |"signature"| == 9 && |"timestamp"| == 9;
    assert |"head_anchor_seq"| == 15 && "signature"[0] == 's' && "timestamp"[0] == 't';
  }

  lemma ApplySeqs(c: Checkpoint, n: int)
    requires Int64(n)
    ensures ApplyCheckpoint(c, Member("seq", Number(n))) == Some(c.(seqNo := n))
    ensures ApplyCheckpoint(c, Member("head_anchor_seq", Number(n))) == Some(c.(anchorSeq := n))
  {
    hide Integer, Number, CheckpointFieldOf;
    CheckpointFieldNames();
    IntegerReadBack(n, c.seqNo);
    IntegerReadBack(n, c.anchorSeq);
  }

  lemma ApplyTexts(c: Checkpoint, s: string)
    ensures ApplyCheckpoint(c, Member("head_anchor_hash", Str(s))) == Some(c.(anchorHash := s))
    ensures ApplyCheckpoint(c, Member("prev_checkpoint_hash", Str(s))) == Some(c.(prevHash := s))
    ensures ApplyCheckpoint(c, Member("checkpoint_hash", Str(s))) == Some(c.(hash := s))
    ensures ApplyCheckpoint(c, Member("timestamp", Str(s))) == Some(c.(timestamp := s))
    ensures ApplyCheckpoint(c, Member("signature", if s == "" then Null else Str(s))) == Some(c.(signature := s))
  {
    hide CheckpointFieldOf;
    CheckpointFieldNames();
  }

  lemma CheckpointReadBack(c: Checkpoint)
    requires Int64(c.seqNo) && Int64(c.anchorSeq)
    ensures CheckpointFrom(ZERO_CHECKPOINT, CheckpointMembers(c), 0) == Some(c)
  {
    var ms := CheckpointMembers(c);
    hide ApplyCheckpoint, Number;
    var c1 := ZERO_CHECKPOINT.(seqNo := c.seqNo);
    var c2 := c1.(anchorSeq := c.anchorSeq);
    var c3 := c2.(anchorHash := c.anchorHash);
    var c4 := c3.(prevHash := c.prevHash);
    var c5 := c4.(hash := c.hash);
    var c6 := c5.(signature := c.signature);
    ApplySeqs(ZERO_CHECKPOINT, c.seqNo);
    CheckpointStep(ZERO_CHECKPOINT, ms, 0, c1);
    ApplySeqs(c1, c.anchorSeq);
    CheckpointStep(c1, ms, 1, c2);
    ApplyTexts(c2, c.anchorHash);
    CheckpointStep(c2, ms, 2, c3);
    ApplyTexts(c3, c.prevHash);
    CheckpointStep(c3, ms, 3, c4);
    ApplyTexts(c4, c.hash);
    CheckpointStep(c4, ms, 4, c5);
    ApplyTexts(c5, c.signature);
    CheckpointStep(c5, ms, 5, c6);
    ApplyTexts(c6, c.timestamp);
    CheckpointStep(c6, ms, 6, c);
  }

  lemma DecodeEncodeCheckpoint(c: Checkpoint)
    requires PrintableCheckpoint(c)
    ensures DecodeCheckpoint(EncodeCheckpoint(c)) == Some(c)
  {
    hide Parse, Print, CheckpointFrom, CheckpointMembers, Printable, Utf8.Valid;
    CheckpointLinePrintable(c);
    RoundTrip(Obj(CheckpointMembers(c)));
    CheckpointReadBack(c);
  }

  lemma DecodeCheckpointPrefix(c: Checkpoint, k: nat)
    requires PrintableCheckpoint(c) && k < |EncodeCheckpoint(c)|
    ensures DecodeCheckpoint(EncodeCheckpoint(c)[..k]).None?
  {
    hide Parse, Print, CheckpointMembers, Printable, Utf8.Valid;
    CheckpointLinePrintable(c);
    CleanPrintable(Obj(CheckpointMembers(c)));
    StrictPrefixRejected(CheckpointMembers(c), k);
  }

  /** A checkpoint with a line run behind it is no document. */
  lemma DecodeCheckpointMerged(t: string, q: string)
    requires DecodeCheckpoint(t).Some? && q != "" && q[0] == '{'
    ensures DecodeCheckpoint(t + q).None?
  {
    hide Parse, CheckpointFrom;
    NothingFollows(t, q);
  }

  lemma ApplyCheckpointPrintable(c: Checkpoint, m: Member)
    requires PrintableCheckpoint(c) && Printable(m.value) && ApplyCheckpoint(c, m).Some?
    ensures PrintableCheckpoint(ApplyCheckpoint(c, m).value)
  {
    hide Utf8.Valid, Decimal.ParseSigned, CheckpointFieldOf;
    AsciiValid("");
  }

  lemma {:induction false} CheckpointFromPrintable(c: Checkpoint, ms: seq<Member>, i: nat)
    requires i <= |ms| && PrintableCheckpoint(c) && Printable(Obj(ms)) && CheckpointFrom(c, ms, i).Some?
    ensures PrintableCheckpoint(CheckpointFrom(c, ms, i).value)
    decreases |ms| - i
  {
    hide ApplyCheckpoint, PrintableCheckpoint, Utf8.Valid;
    if i < |ms| {
      ApplyCheckpointPrintable(c, ms[i]);
      CheckpointFromPrintable(ApplyCheckpoint(c, ms[i]).value, ms, i + 1);
    }
  }

  lemma DecodedCheckpointPrintable(line: string)
    requires DecodeCheckpoint(line).Some?
    ensures PrintableCheckpoint(DecodeCheckpoint(line).value)
  {
    ZeroCheckpointPrintable();
    hide ParseValue, CheckpointFrom, PrintableCheckpoint, Printable, Utf8.Valid;
    ParsedPrintable(line);
    var t := Parse(line).value;
    if t.Obj? { CheckpointFromPrintable(ZERO_CHECKPOINT, t.members, 0); }
  }

  lemma ZeroCheckpointPrintable()
    ensures PrintableCheckpoint(ZERO_CHECKPOINT)
  {
  }

  /******* The laws can be met *******/

  function StandardCodec(reprint: Values.Reprint, sha: string -> string): Codec {
    Codec(line => DecodeRecord(reprint, line), line => DecodeCheckpoint(line), reprint, sha)
  }

  /** Every law the audit log asks of its codec holds of this decoder. */
  lemma StandardCodecLawful(reprint: Values.Reprint, sha: string -> string)
    requires PrintsNumbers(reprint) && forall s :: sha(s) != "" && Utf8.Valid(sha(s))
    ensures StandardCodec(reprint, sha).Lawful()
  {
    var codec := StandardCodec(reprint, sha);
    assert codec.RecordLaws() by { RecordLawsHold(reprint, sha); }
    assert codec.CheckpointLaws() by { CheckpointLawsHold(reprint, sha); }
  }

  lemma RecordLawsHold(reprint: Values.Reprint, sha: string -> string)
    requires PrintsNumbers(reprint)
    ensures StandardCodec(reprint, sha).RecordLaws()
  {
    LineLawsHold(reprint, sha);
    TailLawsHold(reprint, sha);
    SpaceLawsHold(reprint, sha);
    hide Codec.LineLaws, Codec.TailLaws, Codec.SpaceLaws;
  }

  lemma LineLawsHold(reprint: Values.Reprint, sha: string -> string)
    requires PrintsNumbers(reprint)
    ensures StandardCodec(reprint, sha).LineLaws()
  {
    hide DecodeRecord, Encode, Reread, PrintableRecord, Writable;
    forall r | Writable(r) ensures DecodeRecord(reprint, Encode(r)) == Reread(reprint, r) {
      DecodeEncode(reprint, r);
    }
    forall r, k | Writable(r) && 0 <= k < |Encode(r)| ensures DecodeRecord(reprint, Encode(r)[..k]).None? {
      DecodePrefix(reprint, r, k);
    }
    forall s | DecodeRecord(reprint, s).Some?
      ensures PrintableRecord(DecodeRecord(reprint, s).value)
      ensures PayloadSurvives(reprint, DecodeRecord(reprint, s).value.payload)
    {
      DecodedNormal(reprint, s);
    }
  }

  lemma TailLawsHold(reprint: Values.Reprint, sha: string -> string)
    ensures StandardCodec(reprint, sha).TailLaws()
  {
    hide DecodeRecord, Encode, Writable;
    forall t, q | DecodeRecord(reprint, t).Some? && q != "" && q[0] == '{' ensures DecodeRecord(reprint, t + q).None? {
      DecodeMerged(reprint, t, q);
    }
    forall r, k, s | Writable(r) && Writable(s) && 0 < k < |Encode(r)|
      ensures DecodeRecord(reprint, Encode(r)[..k] + Encode(s)).None?
    {
      DecodeTornMerged(reprint, r, k, s);
    }
  }

  lemma SpaceLawsHold(reprint: Values.Reprint, sha: string -> string)
    ensures StandardCodec(reprint, sha).SpaceLaws()
  {
    hide DecodeRecord;
    forall t ensures DecodeRecord(reprint, "\r" + t) == DecodeRecord(reprint, t) { DecodeSpace(reprint, t); }
    forall t | DecodeRecord(reprint, t).Some? ensures DecodeRecord(reprint, t + "\r") == DecodeRecord(reprint, t) {
      DecodeSpace(reprint, t);
    }
    forall t, k, m | 0 <= k <= m <= |t| && DecodeRecord(reprint, t).Some? && DecodeRecord(reprint, t[..k]).Some?
      ensures DecodeRecord(reprint, t[..m]) == DecodeRecord(reprint, t)
    {
      DecodeSame(reprint, t, k, m);
    }
  }

  lemma CheckpointLawsHold(reprint: Values.Reprint, sha: string -> string)
    ensures StandardCodec(reprint, sha).CheckpointLaws()
  {
    hide DecodeCheckpoint, EncodeCheckpoint, PrintableCheckpoint;
    forall c | PrintableCheckpoint(c) ensures DecodeCheckpoint(EncodeCheckpoint(c)) == Some(c) {
      DecodeEncodeCheckpoint(c);
    }
    forall c, k | PrintableCheckpoint(c) && 0 <= k < |EncodeCheckpoint(c)|
      ensures DecodeCheckpoint(EncodeCheckpoint(c)[..k]).None?
    {
      DecodeCheckpointPrefix(c, k);
    }
    forall t, q | DecodeCheckpoint(t).Some? && q != "" && q[0] == '{' ensures DecodeCheckpoint(t + q).None? {
      DecodeCheckpointMerged(t, q);
    }
    forall s | DecodeCheckpoint(s).Some? ensures PrintableCheckpoint(DecodeCheckpoint(s).value) {
      DecodedCheckpointPrintable(s);
    }
  }
}
