/** What the decoder makes of objects the writer never writes: other cases, unknown names, nulls and wrong types. */
module Decoding {
  import opened Base
  import opened Json
  import opened Records
  import opened Decoder
  import Decimal
  import Utf8
  import Values

  /** A name in any mixture of upper and lower case. */
  predicate Variant(key: string, name: string) {
    && |key| == |name|
    && forall i :: 0 <= i < |name| ==> key[i] == name[i] || ('a' <= name[i] <= 'z' && key[i] == name[i] - 'a' + 'A')
  }

  lemma {:induction false} VariantFolds(key: string, name: string)
    requires Variant(key, name) && PlainName(name)
    ensures Fold(key) == name
    decreases |key|
  {
    if key != "" {
      VariantFolds(key[1..], name[1..]);
      assert name == [name[0]] + name[1..];
      if 'A' <= key[0] <= 'Z' { assert key[0] - 'A' + 'a' == name[0]; }
    }
  }

  /** The two runes outside ASCII that fold into it: the long s and the Kelvin sign. */
  lemma OddLetters(rest: string)
    ensures Fold([Utf8.Byte(0xC5), Utf8.Byte(0xBF)] + rest) == "s" + Fold(rest)
    ensures Fold([Utf8.Byte(0xE2), Utf8.Byte(0x84), Utf8.Byte(0xAA)] + rest) == "k" + Fold(rest)
  {
    var s, k := [Utf8.Byte(0xC5), Utf8.Byte(0xBF)] + rest, [Utf8.Byte(0xE2), Utf8.Byte(0x84), Utf8.Byte(0xAA)] + rest;
    assert s[2..] == rest && k[3..] == rest;
  }

  lemma LongS()
    ensures FieldOf([Utf8.Byte(0xC5), Utf8.Byte(0xBF)] + "eq") == Seq
  {
    hide Fold, FieldNamed, PlainName;
    OddLetters("eq");
    EqIsPlain();
    VariantFolds("eq", "eq");
    NamedFields();
    assert "s" + "eq" == "seq";
  }

  lemma EqIsPlain()
    ensures PlainName("eq")
  {
  }

  /** Field names match whatever their case. */
  lemma NamesFold(key: string)
    ensures Variant(key, "seq") ==> FieldOf(key) == Seq
    ensures Variant(key, "prev_hash") ==> FieldOf(key) == PrevHash
    ensures Variant(key, "record_hash") ==> FieldOf(key) == RecordHash
    ensures Variant(key, "timestamp") ==> FieldOf(key) == Timestamp
    ensures Variant(key, "event_type") ==> FieldOf(key) == EventType
    ensures Variant(key, "deployment_mode") ==> FieldOf(key) == DeploymentMode
    ensures Variant(key, "actor") ==> FieldOf(key) == Actor
    ensures Variant(key, "payload") ==> FieldOf(key) == PayloadField
    ensures Variant(key, "hosted_context") ==> FieldOf(key) == Hosted
    ensures FieldOf([Utf8.Byte(0xC5), Utf8.Byte(0xBF)] + "eq") == Seq
  {
    LongS();
    hide Fold, FieldNamed, PlainName, Variant;
    NamedFields();
    TagsPlain();
    if Variant(key, "seq") { VariantFolds(key, "seq"); }
    if Variant(key, "prev_hash") { VariantFolds(key, "prev_hash"); }
    if Variant(key, "record_hash") { VariantFolds(key, "record_hash"); }
    if Variant(key, "timestamp") { VariantFolds(key, "timestamp"); }
    if Variant(key, "event_type") { VariantFolds(key, "event_type"); }
    if Variant(key, "deployment_mode") { VariantFolds(key, "deployment_mode"); }
    if Variant(key, "actor") { VariantFolds(key, "actor"); }
    if Variant(key, "payload") { VariantFolds(key, "payload"); }
    if Variant(key, "hosted_context") { VariantFolds(key, "hosted_context"); }
  }

  /** Members count one by one, from first to last. */
  lemma {:induction false} InOrder(reprint: Values.Reprint, r: AuditRecord, ms: seq<Member>, m: Member, i: nat)
    requires i <= |ms|
    ensures var before := RecordFrom(reprint, r, ms, i);
      RecordFrom(reprint, r, ms + [m], i)
      == if before.None? then None else Apply(reprint, before.value, FieldOf(m.key), m.value)
    decreases |ms| - i
  {
    hide Apply, FieldOf;
    var all := ms + [m];
    if i == |ms| {
      assert all[i] == m;
    } else {
      assert all[i] == ms[i];
      var next := Apply(reprint, r, FieldOf(ms[i].key), ms[i].value);
      if next.Some? { InOrder(reprint, next.value, ms, m, i + 1); }
    }
  }

  /**
   One more member at the end of an object: an unknown one changes nothing, a later text replaces an earlier one, null
   leaves a text or a number as it was, and a value of the wrong type refuses the whole line.
   */
  lemma OneMore(reprint: Values.Reprint, ms: seq<Member>, key: string, t: Tree)
    ensures var before, after := RecordFrom(reprint, ZERO, ms, 0), RecordFrom(reprint, ZERO, ms + [Member(key, t)], 0);
      var field := FieldOf(key);
      && (before.None? ==> after.None?)
      && (before.Some? && field == Unknown ==> after == before)
      && (before.Some? && field == Actor && t.Str? ==> after == Some(before.value.(actor := t.s)))
      && (before.Some? && field !in {PayloadField, Hosted} && t.Null? ==> after == before)
      && (before.Some? && field == PayloadField && t.Null? ==> after == Some(before.value.(payload := NilMap)))
      && (before.Some? && field == Hosted && t.Null? ==> after == Some(before.value.(hosted := None)))
      && (field == Seq && !t.Num? && !t.Null? ==> after.None?)
      && (field in {PayloadField, Hosted} && !t.Obj? && !t.Null? ==> after.None?)
      && (field !in {Seq, PayloadField, Hosted, Unknown} && !t.Str? && !t.Null? ==> after.None?)
  {
    hide RecordFrom, FieldOf;
    InOrder(reprint, ZERO, ms, Member(key, t), 0);
  }

  /** Numbers are integers of 64 bits, without fraction or exponent. */
  lemma SequenceNumbers(reprint: Values.Reprint, r: AuditRecord, n: int)
    ensures Apply(reprint, r, Seq, Num(Decimal.PrintInt(n)))
         == if -9223372036854775808 <= n <= 9223372036854775807 then Some(r.(seqNo := n)) else None
    ensures Apply(reprint, r, Seq, Num("1.0")) == None && Apply(reprint, r, Seq, Num("1e3")) == None
    ensures Apply(reprint, r, Seq, Num("+1")) == None
  {
    Decimal.ParsePrintInt(n, false);
    hide Decimal.ParseNat, Decimal.PrintInt;
    assert "1.0"[1] == '.' && "1e3"[1] == 'e' && "+1"[0] == '+';
  }

  /** Two payload objects are merged, the later one winning. */
  lemma PayloadsMerge(reprint: Values.Reprint, r: AuditRecord, ms: seq<Member>)
    requires Values.FromMembers(reprint, ms).Some?
    ensures Apply(reprint, r, PayloadField, Obj(ms))
         == Some(r.(payload := Members((if r.payload.NilMap? then map[] else r.payload.m)
                                       + Values.FromMembers(reprint, ms).value)))
  {
    hide Values.FromMembers;
  }

  /** Of two members of one name inside a payload the later counts. */
  lemma LaterMemberWins(reprint: Values.Reprint, ms: seq<Member>, key: string, t: Tree)
    requires Values.FromMembers(reprint, ms).Some? && Values.FromTree(reprint, t).Some?
    ensures Values.FromMembers(reprint, ms + [Member(key, t)])
         == Some(Values.FromMembers(reprint, ms).value[key := Values.FromTree(reprint, t).value])
    ensures Values.FromMembers(reprint, []) == Some(map[])
  {
    hide Values.FromTree;
    var all := ms + [Member(key, t)];
    assert all[..|all| - 1] == ms && all[|all| - 1] == Member(key, t);
  }

  /** Anything but an object or null is no record; null is the empty one. */
  lemma OtherDocuments(reprint: Values.Reprint, line: string)
    requires Parse(line).Some?
    ensures Parse(line).value == Null ==>
              DecodeRecord(reprint, line) == Some(AuditRecord(0, "", "", "", "", "", "", NilMap, None))
    ensures !Parse(line).value.Obj? && Parse(line).value != Null ==> DecodeRecord(reprint, line).None?
  {
    hide Parse;
  }
}
