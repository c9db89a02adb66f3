/** Canonical bytes identify a record, and what a record is after it has been printed and parsed. */
module RecordTheorems {
  import opened Base
  import opened Json
  import opened JsonRoundTrip
  import opened Records
  import Decimal
  import Utf8
  import Values

  /******* Integers *******/

  lemma {:induction false} DigitsEnd(st: NumState, s: string)
    requires Decimal.AllDigits(s) && st.Int?
    ensures NumEnd(st, s) == Int
    decreases |s|
  {
    if s != "" { DigitsEnd(st, s[1..]); }
  }

  lemma NumberPrintable(n: int)
    ensures Printable(Number(n))
  {
    var s := Decimal.PrintInt(n);
    var d := Decimal.PrintNat(if n < 0 then -n else n);
    assert forall i :: 0 <= i < |d| ==> NumChar(d[i]);
    NatPrintable(d);
    if n < 0 {
      assert s[1..] == d && NumStep(Start, s[0]) == Minus;
    }
  }

  lemma NatPrintable(d: string)
    requires d != "" && Decimal.AllDigits(d) && (d[0] == '0' ==> d == "0")
    ensures NumEnd(Start, d) in {Zero, Int} && NumEnd(Minus, d) in {Zero, Int}
  {
    if d[0] == '0' {
      assert d[1..] == "";
    } else {
      DigitsEnd(Int, d[1..]);
    }
  }

  lemma NumberInjective(m: int, n: int)
    requires Number(m) == Number(n)
    ensures m == n
  {
    Decimal.ParsePrintInt(m, false);
    Decimal.ParsePrintInt(n, false);
  }

  /******* Canonical bytes *******/

  predicate PrintableMember(m: Member) { Utf8.Valid(m.key) && Printable(m.value) }

  lemma PrintableObject(ms: seq<Member>)
    requires forall m :: m in ms ==> PrintableMember(m)
    ensures Printable(Obj(ms))
  {
    hide Utf8.Valid;
    assert forall i :: 0 <= i < |ms| ==> PrintableMember(ms[i]);
  }

  lemma NameValid(key: string, value: Tree)
    requires (forall i :: 0 <= i < |key| ==> key[i] as int < 0x80) && Printable(value)
    ensures PrintableMember(Member(key, value))
  {
    AsciiValid(key);
    hide Utf8.Valid, Printable;
  }

  lemma TextMember(key: string, s: string)
    requires (forall i :: 0 <= i < |key| ==> key[i] as int < 0x80) && Utf8.Valid(s)
    ensures PrintableMember(Member(key, Str(s)))
  {
    AsciiValid(key);
    hide Utf8.Valid;
  }

  lemma HostedFieldsPrintable(h: HostedContext)
    requires PrintableHosted(h)
    ensures Printable(Obj(HostedFields(h)))
  {
    hide Utf8.Valid, PrintableMember, Printable;
    TextMember("tenant_id", h.tenantId);
    TextMember("project_id", h.projectId);
    TextMember("region", h.region);
    TextMember("runtime_provider", h.runtimeProvider);
    PrintableObject(HostedFields(h));
  }

  lemma HostedPrintable(h: Option<HostedContext>)
    requires h.Some? ==> PrintableHosted(h.value)
    ensures forall m :: m in HostedMembers(h) ==> PrintableMember(m)
  {
    if h.Some? {
      HostedFieldsPrintable(h.value);
      hide Utf8.Valid, PrintableMember, Printable, HostedFields;
      NameValid("hosted_context", Obj(HostedFields(h.value)));
    }
  }

  lemma CanonicalPrintable(r: AuditRecord)
    requires PrintableRecord(r)
    ensures Printable(CanonicalTree(r))
  {
    hide Utf8.Valid, PrintableMember, Printable, Values.ToTree, HostedMembers, Number;
    NumberPrintable(r.seqNo);
    NameValid("seq", Number(r.seqNo));
    TextMember("prev_hash", r.prevHash);
    TextMember("timestamp", r.timestamp);
    TextMember("event_type", r.eventType);
    TextMember("deployment_mode", r.deploymentMode);
    TextMember("actor", r.actor);
    NameValid("payload", Values.ToTree(Values.Obj(PayloadMap(r.payload))));
    HostedPrintable(r.hosted);
    PrintableObject(CanonicalTree(r).members);
  }

  lemma PayloadPrintable(p: Payload)
    requires Values.Printable(Values.Obj(PayloadMap(p)))
    ensures Printable(PayloadTree(p))
  {
    hide Values.ToTree;
  }

  lemma {:induction false} AsciiValid(s: string)
    requires forall i :: 0 <= i < |s| ==> s[i] as int < 0x80
    ensures Utf8.Valid(s)
    decreases |s|
  {
    if s != "" { AsciiValid(s[1..]); }
  }

  /** Canonical bytes are equal exactly when the records agree on everything but `record_hash`. */
  lemma CanonicalIdentifies(r: AuditRecord, s: AuditRecord)
    requires PrintableRecord(r) && PrintableRecord(s)
    ensures Canonical(r) == Canonical(s) <==> SameButHash(r, s)
  {
    if Canonical(r) == Canonical(s) {
      CanonicalPrintable(r);
      CanonicalPrintable(s);
      hide Printable, Print, Values.ToTree;
      PrintInjective(CanonicalTree(r), CanonicalTree(s));
      TreeIdentifies(r, s);
    }
  }

  lemma TreeIdentifies(r: AuditRecord, s: AuditRecord)
    requires CanonicalTree(r) == CanonicalTree(s)
    ensures SameButHash(r, s)
  {
    hide Values.ToTree, Number;
    var a, b := CanonicalTree(r).members, CanonicalTree(s).members;
    assert |a| == |b|;
    assert a[0].value == Number(r.seqNo) && b[0].value == Number(s.seqNo);
    assert a[1].value == Str(r.prevHash) && b[1].value == Str(s.prevHash);
    assert a[2].value == Str(r.timestamp) && b[2].value == Str(s.timestamp);
    assert a[3].value == Str(r.eventType) && b[3].value == Str(s.eventType);
    assert a[4].value == Str(r.deploymentMode) && b[4].value == Str(s.deploymentMode);
    assert a[5].value == Str(r.actor) && b[5].value == Str(s.actor);
    assert a[6].value == Values.ToTree(Values.Obj(PayloadMap(r.payload)));
    assert b[6].value == Values.ToTree(Values.Obj(PayloadMap(s.payload)));
    NumberInjective(r.seqNo, s.seqNo);
    Values.TreeInjective(Values.Obj(PayloadMap(r.payload)), Values.Obj(PayloadMap(s.payload)));
    if r.hosted.Some? && s.hosted.Some? {
      assert a[7] == HostedMembers(r.hosted)[0] && b[7] == HostedMembers(s.hosted)[0];
      HostedIdentifies(r.hosted.value, s.hosted.value);
    }
  }

  lemma HostedIdentifies(h: HostedContext, g: HostedContext)
    requires HostedMembers(Some(h))[0] == HostedMembers(Some(g))[0]
    ensures h == g
  {
    var a, b := HostedMembers(Some(h))[0].value.members, HostedMembers(Some(g))[0].value.members;
    assert a[0] == b[0] && a[1] == b[1] && a[2] == b[2] && a[3] == b[3];
  }

  lemma CheckpointCanonicalIdentifies(c: Checkpoint, d: Checkpoint)
    requires PrintableCheckpoint(c) && PrintableCheckpoint(d)
    ensures CanonicalCheckpoint(c) == CanonicalCheckpoint(d) <==>
            c.(hash := d.hash, signature := d.signature) == d
  {
    var t, u := CheckpointTree(c), CheckpointTree(d);
    if CanonicalCheckpoint(c) == CanonicalCheckpoint(d) {
      CheckpointTreePrintable(c);
      CheckpointTreePrintable(d);
      hide Printable, Print, Number;
      PrintInjective(t, u);
      var a, b := t.members, u.members;
      assert a[0] == b[0] && a[1] == b[1] && a[2] == b[2] && a[3] == b[3] && a[4] == b[4];
      NumberInjective(c.seqNo, d.seqNo);
      NumberInjective(c.anchorSeq, d.anchorSeq);
    }
  }

  function CheckpointTree(c: Checkpoint): (t: Tree)
    ensures t.Obj? && Print(t) == CanonicalCheckpoint(c)
  {
    Obj([Member("seq", Number(c.seqNo)),
         Member("head_anchor_seq", Number(c.anchorSeq)),
         Member("head_anchor_hash", Str(c.anchorHash)),
         Member("prev_checkpoint_hash", Str(c.prevHash)),
         Member("timestamp", Str(c.timestamp))])
  }

  lemma CheckpointTreePrintable(c: Checkpoint)
    requires PrintableCheckpoint(c)
    ensures Printable(CheckpointTree(c))
  {
    hide Utf8.Valid, PrintableMember, Printable, Number;
    NumberPrintable(c.seqNo);
    NumberPrintable(c.anchorSeq);
    NameValid("seq", Number(c.seqNo));
    NameValid("head_anchor_seq", Number(c.anchorSeq));
    TextMember("head_anchor_hash", c.anchorHash);
    TextMember("prev_checkpoint_hash", c.prevHash);
    TextMember("timestamp", c.timestamp);
    PrintableObject(CheckpointTree(c).members);
  }

  lemma CheckpointLinePrintable(c: Checkpoint)
    requires PrintableCheckpoint(c)
    ensures Printable(Obj(CheckpointMembers(c)))
  {
    hide Utf8.Valid, PrintableMember, Number;
    NumberPrintable(c.seqNo);
    NumberPrintable(c.anchorSeq);
    NameValid("seq", Number(c.seqNo));
    NameValid("head_anchor_seq", Number(c.anchorSeq));
    TextMember("head_anchor_hash", c.anchorHash);
    TextMember("prev_checkpoint_hash", c.prevHash);
    TextMember("checkpoint_hash", c.hash);
    NameValid("signature", if c.signature == "" then Null else Str(c.signature));
    TextMember("timestamp", c.timestamp);
    hide Printable;
    PrintableObject(CheckpointMembers(c));
  }

  /******* Records with any strings *******/

  predicate NumericMember(m: Member) { Numeric(m.value) }

  lemma NumericObject(ms: seq<Member>)
    requires forall m :: m in ms ==> NumericMember(m)
    ensures Numeric(Obj(ms))
  {
    assert forall i :: 0 <= i < |ms| ==> NumericMember(ms[i]);
  }

  lemma NumberNumeric(n: int)
    ensures Numeric(Number(n))
  {
    NumberPrintable(n);
  }

  lemma HostedNumeric(h: Option<HostedContext>)
    ensures forall m :: m in HostedMembers(h) ==> NumericMember(m)
  {
    if h.Some? {
      forall m | m in HostedFields(h.value) ensures NumericMember(m) {}
      NumericObject(HostedFields(h.value));
    }
  }

  lemma LineNumeric(r: AuditRecord)
    requires Writable(r)
    ensures Numeric(Obj(LineMembers(r))) && Numeric(CanonicalTree(r))
  {
    NumberNumeric(r.seqNo);
    HostedNumeric(r.hosted);
    PayloadNumeric(r.payload);
    hide Values.ToTree, HostedMembers, Number, PayloadTree, Numeric;
    TextNumeric();
    forall m | m in LineMembers(r) ensures NumericMember(m) {}
    forall m | m in CanonicalTree(r).members ensures NumericMember(m) {}
    NumericObject(LineMembers(r));
    NumericObject(CanonicalTree(r).members);
  }

  lemma TextNumeric()
    ensures forall s :: Numeric(Str(s))
  {
  }

  lemma PayloadNumeric(p: Payload)
    requires Numeric(Values.ToTree(Values.Obj(PayloadMap(p))))
    ensures Numeric(PayloadTree(p))
  {
    hide Values.ToTree;
  }

  lemma PrintableWritable(r: AuditRecord)
    requires PrintableRecord(r)
    ensures Writable(r)
  {
    PrintableIs(Values.ToTree(Values.Obj(PayloadMap(r.payload))));
  }

  /** Clean text fields are what cleaning keeps. */
  lemma CleanTextsSame(r: AuditRecord)
    ensures CleanTexts(r) == r <==>
      && Utf8.Valid(r.prevHash) && Utf8.Valid(r.recordHash) && Utf8.Valid(r.timestamp)
      && Utf8.Valid(r.eventType) && Utf8.Valid(r.deploymentMode) && Utf8.Valid(r.actor)
      && (r.hosted.Some? ==> PrintableHosted(r.hosted.value))
  {
    hide Utf8.Valid, CleanText;
    CleanValidText(r.prevHash);
    CleanValidText(r.recordHash);
    CleanValidText(r.timestamp);
    CleanValidText(r.eventType);
    CleanValidText(r.deploymentMode);
    CleanValidText(r.actor);
    if r.hosted.Some? {
      CleanValidText(r.hosted.value.tenantId);
      CleanValidText(r.hosted.value.projectId);
      CleanValidText(r.hosted.value.region);
      CleanValidText(r.hosted.value.runtimeProvider);
    }
  }

  /**
   A record is given back unchanged exactly when all its strings are UTF-8 and its payload numbers survive float64.
   */
  lemma RereadUnchanged(reprint: Values.Reprint, r: AuditRecord)
    requires Writable(r)
    ensures Reread(reprint, r) == Some(r) <==> PrintableRecord(r) && PayloadSurvives(reprint, r.payload)
  {
    CleanTextsSame(r);
    hide CleanTexts, Utf8.Valid;
    match r.payload
    case NilMap =>
      EmptyPrintable();
    case Members(m) =>
      Values.WrittenReadBack(reprint, Values.Obj(m));
      hide Values.ToTree, Values.FromTree, Values.Survives, CleanTree, Values.Printable;
      var v := Values.FromTree(reprint, CleanTree(Values.ToTree(Values.Obj(m))));
      assert v.Some? && v.value.Obj? ==> CleanTexts(r).payload == r.payload by { CleanTextsPayload(r); }
  }

  lemma CleanTextsPayload(r: AuditRecord)
    ensures CleanTexts(r).payload == r.payload
  {
  }

  lemma EmptyNumeric()
    ensures Values.ToTree(Values.Obj(map[])) == Obj([])
  {
    assert Values.MemberTrees(Values.Obj(map[])) == [];
  }

  lemma EmptyPrintable()
    ensures Values.Printable(Values.Obj(map[]))
  {
    EmptyNumeric();
  }

  /** Bytes that are no UTF-8 never come back: a record whose canonical bytes survive the trip had none. */
  lemma CanonicalSurvives(r: AuditRecord, s: AuditRecord)
    requires Writable(r) && PrintableRecord(s) && Canonical(r) == Canonical(s)
    ensures PrintableTree(r)
  {
    hide Print, Printable, Numeric, CanonicalTree, CleanTree, Parse;
    LineNumeric(r);
    CanonicalPrintable(s);
    ParseClean(CanonicalTree(r));
    RoundTrip(CanonicalTree(s));
    PrintShrinks(CanonicalTree(r));
  }

  predicate PrintableTree(r: AuditRecord) { Printable(CanonicalTree(r)) }

  lemma TreePrintable(r: AuditRecord)
    requires Writable(r) && PrintableTree(r) && Utf8.Valid(r.recordHash)
    ensures PrintableRecord(r)
  {
    hide Utf8.Valid, Values.ToTree, Number;
    var ms := CanonicalTree(r).members;
    assert forall i :: 0 <= i < |ms| ==> Printable(ms[i].value);
    assert Printable(ms[1].value) && Printable(ms[2].value) && Printable(ms[3].value) && Printable(ms[4].value);
    assert Printable(ms[5].value) && Printable(ms[6].value);
    assert ms[1].value == Str(r.prevHash) && ms[2].value == Str(r.timestamp) && ms[3].value == Str(r.eventType);
    assert ms[4].value == Str(r.deploymentMode) && ms[5].value == Str(r.actor);
    assert ms[6].value == Values.ToTree(Values.Obj(PayloadMap(r.payload)));
    if r.hosted.Some? {
      assert ms[7].value == Obj(HostedFields(r.hosted.value));
      HostedValid(r.hosted.value);
    }
  }

  lemma HostedValid(h: HostedContext)
    requires Printable(Obj(HostedFields(h)))
    ensures PrintableHosted(h)
  {
    hide Utf8.Valid;
    var ms := HostedFields(h);
    assert ms[0].value == Str(h.tenantId) && ms[1].value == Str(h.projectId);
    assert ms[2].value == Str(h.region) && ms[3].value == Str(h.runtimeProvider);
  }

  /** A line starts like every line. */
  lemma LineStart(r: AuditRecord)
    ensures Encode(r) != "" && Encode(r)[0] == '{' && "{\"s" <= Encode(r)
  {
    hide PayloadTree, HostedMembers;
    var ms := LineMembers(r);
    assert ms[0] == Member("seq", Number(r.seqNo));
    hide LineMembers, MembersWith, Print, Number;
    ObjectText(ms, Number(r.seqNo));
  }

  lemma ObjectText(ms: seq<Member>, v: Tree)
    requires ms != [] && ms[0] == Member("seq", v)
    ensures "{\"s" <= Print(Obj(ms))
  {
    hide Print;
    NameEscape();
    hide Escape;
    FirstMember(ms);
    var m := PrintMember(ms[0]);
    assert m == "\"" + "seq" + "\":" + Print(v);
    assert m[0] == '\"' && m[1] == 's';
    var s := Print(Obj(ms));
    assert s[0] == '{' && s[1] == m[0] && s[2] == m[1];
    assert s[..3] == "{\"s";
  }

  lemma NameEscape()
    ensures Escape("seq") == "seq"
  {
    assert Escape("q") == "q" by { assert "q"[1..] == ""; }
    assert Escape("eq") == "eq" by { assert "eq"[1..] == "q"; }
    assert "seq"[1..] == "eq";
  }

  lemma FirstMember(ms: seq<Member>)
    requires ms != []
    ensures "{" + PrintMember(ms[0]) <= Print(Obj(ms))
  {
    hide PrintMember;
  }
}
