/** The rebuildable index over the log: a table keyed by record number. */
module Index {
  import opened Base
  import opened Json
  import opened JsonRoundTrip
  import opened Records
  import opened RecordTheorems
  import opened Chain
  import opened Decoder
  import opened Verifier
  import Values
  import Utf8

  /** One row; payload and hosted context are stored as JSON text. */
  datatype Row = Row(
    seqNo: int,
    prevHash: string,
    recordHash: string,
    timestamp: string,
    eventType: string,
    deploymentMode: string,
    actor: string,
    payload: string,
    hosted: string)

  function RowOf(r: AuditRecord): Row {
    Row(r.seqNo, r.prevHash, r.recordHash, r.timestamp, r.eventType, r.deploymentMode, r.actor,
        Print(PayloadTree(r.payload)), if r.hosted.None? then "" else Print(Obj(HostedFields(r.hosted.value))))
  }

  function StoredPayload(reprint: Values.Reprint, text: string): Payload {
    if text == "" then Members(map[])
    else
      var t := Parse(text);
      var p := if t.None? then None else PayloadOf(reprint, NilMap, t.value);
      if p.Some? then p.value else Members(map["unmarshal_error" := Values.Str("")])
  }

  function StoredHosted(text: string): Option<HostedContext> {
    if text == "" then None
    else
      var t := Parse(text);
      if t.None? then None
      else
        var h := HostedOf(None, t.value);
        if h.None? then None else h.value
  }

  /** The record `QueryBySeq` makes of a row. */
  function RecordOf(reprint: Values.Reprint, row: Row): AuditRecord {
    AuditRecord(row.seqNo, row.prevHash, row.recordHash, row.timestamp, row.eventType, row.deploymentMode, row.actor,
                StoredPayload(reprint, row.payload), StoredHosted(row.hosted))
  }

  /** The columns `QueryByEventType` selects. */
  function Summary(r: AuditRecord): AuditRecord { r.(payload := NilMap, hosted := None) }

  function SummaryOf(row: Row): AuditRecord {
    AuditRecord(row.seqNo, row.prevHash, row.recordHash, row.timestamp, row.eventType, row.deploymentMode, row.actor,
                NilMap, None)
  }

  /** The table that holds the k-th of some rows under key k, counting from 1. */
  function Numbered<T>(xs: seq<T>): (m: map<int, T>)
    ensures |m| == |xs|
    ensures forall k :: k in m <==> 1 <= k <= |xs|
    ensures forall k :: k in m ==> m[k] == xs[k - 1]
  {
    if xs == [] then map[]
    else
      var n := |xs| - 1;
      var m := Numbered(xs[..n]);
      assert n + 1 !in m;
      m[n + 1 := xs[n]]
  }

  function Rows(rs: seq<AuditRecord>): (rows: seq<Row>)
    ensures |rows| == |rs| && forall i :: 0 <= i < |rs| ==> rows[i] == RowOf(rs[i])
  {
    seq(|rs|, i requires 0 <= i < |rs| => RowOf(rs[i]))
  }

  /** The table a log should have. */
  function TableOf(rs: seq<AuditRecord>): map<int, Row> { Numbered(Rows(rs)) }

  /** A stored record is read back as it was. */
  lemma RowReadBack(reprint: Values.Reprint, r: AuditRecord)
    requires PrintableRecord(r) && PayloadSurvives(reprint, r.payload)
    ensures RecordOf(reprint, RowOf(r)) == r
  {
    hide Printable, Numeric, Parse, Print, PayloadOf, HostedOf, HostedFields, PayloadTree, Utf8.Valid, Values.Printable,
      Values.Survives, Reread, CleanTree, CleanTexts, Writable;
    PayloadPrintable(r.payload);
    RoundTrip(PayloadTree(r.payload));
    CleanPrintable(PayloadTree(r.payload));
    PrintHead(PayloadTree(r.payload));
    PrintableWritable(r);
    RereadUnchanged(reprint, r);
    PayloadReadBack(reprint, r);
    if r.hosted.Some? {
      HostedFieldsPrintable(r.hosted.value);
      RoundTrip(Obj(HostedFields(r.hosted.value)));
      CleanPrintable(Obj(HostedFields(r.hosted.value)));
      PrintHead(Obj(HostedFields(r.hosted.value)));
      HostedReadBack(r.hosted.value);
    }
  }

  /** Records of one type in log order. */
  function OfType(rs: seq<AuditRecord>, eventType: string): seq<AuditRecord> {
    if rs == [] then []
    else
      var n := |rs| - 1;
      OfType(rs[..n], eventType) + if rs[n].eventType == eventType then [Summary(rs[n])] else []
  }

  function Cut(rs: seq<AuditRecord>, limit: int): seq<AuditRecord> {
    if 0 < limit < |rs| then rs[..limit] else rs
  }

  /**
   The statements of one transaction: a clearing, one insert for each record, and the commit. No insert ever meets an
   existing key.
   */
  method FillTable(records: seq<AuditRecord>, fails: nat -> bool) returns (r: Option<map<int, Row>>)
    requires forall i :: 0 <= i < |records| ==> records[i].seqNo == i + 1
    ensures r.Some? <==> forall k: nat :: k < |records| + 2 ==> !fails(k)
    ensures r.Some? ==> r.value == TableOf(records)
  {
    hide RowOf, TableOf;
    if fails(0) {
      return None;
    }
    var rows: map<int, Row> := map[];
    NoRows(records);
    for i := 0 to |records|
      invariant rows == TableOf(records[..i])
      invariant forall k: nat :: k <= i ==> !fails(k)
    {
      if fails(i + 1) {
        return None;
      }
      NextRow(records, i);
      assert records[i].seqNo == i + 1 && i + 1 !in rows;
      rows := rows[records[i].seqNo := RowOf(records[i])];
    }
    assert records[..|records|] == records;
    r := if fails(|records| + 1) then None else Some(rows);
  }

  class SQLiteIndexer {
    var table: map<int, Row>
    /** The records of the last rebuild. */
    ghost var log: seq<AuditRecord>

    ghost predicate Valid()
      reads this
    {
      table == TableOf(log)
    }

    constructor ()
      ensures Valid() && log == []
    {
      table, log := map[], [];
    }

    /**
     `Rebuild`: the table becomes the table of the valid prefix of the file, whatever the file holds, unless a
     statement fails: then the transaction is rolled back.
     */
    method Rebuild(codec: Codec, audit: File, fails: nat -> bool) returns (ok: bool)
      requires Valid()
      modifies this
      ensures Valid()
      ensures (exists k: nat :: k < |RecordsOf(codec, audit)| + 2 && fails(k)) ==>
                !ok && table == old(table) && log == old(log)
      ensures (forall k: nat :: k < |RecordsOf(codec, audit)| + 2 ==> !fails(k)) ==>
                log == RecordsOf(codec, audit) && (ok <==> AuditClean(codec, audit))
    {
      hide ReadLog, RowOf, Rows, Numbered;
      var records, fault, found := ReadAuditChain(codec, audit);
      RecordNumbers(codec, audit);
      var rows := FillTable(records, fails);
      if rows.None? {
        return false;
      }
      table, log := rows.value, records;
      ok := found && fault.None?;
    }

    method RecordCount() returns (count: nat)
      requires Valid()
      ensures count == |log|
    {
      count := |table|;
    }

    /** `QueryBySeq`. */
    method QueryBySeq(reprint: Values.Reprint, seqNo: int) returns (r: Option<AuditRecord>)
      requires Valid()
      ensures r.Some? <==> 1 <= seqNo <= |log|
      ensures r.Some? ==> r == Some(RecordOf(reprint, RowOf(log[seqNo - 1])))
    {
      hide RecordOf, RowOf;
      r := if seqNo in table then Some(RecordOf(reprint, table[seqNo])) else None;
    }

    /** `QueryByEventType`: ascending by key, cut to the limit when it is positive. */
    method QueryByEventType(eventType: string, limit: int) returns (records: seq<AuditRecord>)
      requires Valid()
      ensures records == Cut(OfType(log, eventType), limit)
    {
      hide RowOf, OfType, Numbered, Rows, SummaryOf, Summary;
      records := [];
      OfTypeNone(log, eventType);
      var k := 0;
      while k < |table| && (limit <= 0 || |records| < limit)
        invariant 0 <= k <= |log| == |table|
        invariant records == OfType(log[..k], eventType) && (limit > 0 ==> |records| <= limit)
      {
        k := k + 1;
        var row := table[k];
        OfTypeNext(log, k - 1, eventType);
        RowSummary(log[k - 1]);
        if row.eventType == eventType {
          records := records + [SummaryOf(row)];
        }
      }
      OfTypeGrows(log, k, eventType);
      assert log[..|log|] == log;
    }
  }

  lemma OfTypeNone(rs: seq<AuditRecord>, eventType: string)
    ensures OfType(rs[..0], eventType) == []
  {
  }

  lemma OfTypeNext(rs: seq<AuditRecord>, k: nat, eventType: string)
    requires k < |rs|
    ensures OfType(rs[..k + 1], eventType)
            == OfType(rs[..k], eventType) + if rs[k].eventType == eventType then [Summary(rs[k])] else []
  {
    assert rs[..k + 1][..k] == rs[..k];
  }

  lemma RowSummary(r: AuditRecord)
    ensures RowOf(r).eventType == r.eventType && SummaryOf(RowOf(r)) == Summary(r)
    ensures var row := RowOf(r);
      && row.seqNo == r.seqNo && row.prevHash == r.prevHash && row.recordHash == r.recordHash
      && row.timestamp == r.timestamp && row.deploymentMode == r.deploymentMode && row.actor == r.actor
  {
    hide Print;
  }

  lemma NextRow(rs: seq<AuditRecord>, i: nat)
    requires i < |rs|
    ensures i + 1 !in TableOf(rs[..i]) && TableOf(rs[..i + 1]) == TableOf(rs[..i])[i + 1 := RowOf(rs[i])]
  {
    hide RowOf, Rows;
    assert Rows(rs[..i + 1])[..i] == Rows(rs[..i]);
  }

  lemma NoRows(rs: seq<AuditRecord>)
    ensures TableOf(rs[..0]) == map[]
  {
  }

  /** Valid records are numbered from 1, so their numbers are distinct keys. */
  lemma RecordNumbers(codec: Codec, audit: File)
    ensures forall i :: 0 <= i < |RecordsOf(codec, audit)| ==> RecordsOf(codec, audit)[i].seqNo == i + 1
  {
    if audit.Some? {
      ChainOf(codec, audit.value);
      var rs := RecordsOf(codec, audit);
      forall i | 0 <= i < |rs| ensures rs[i].seqNo == i + 1 {
        assert Linked(codec, rs, i);
      }
    }
  }

  lemma {:induction false} OfTypeGrows(rs: seq<AuditRecord>, k: nat, eventType: string)
    requires k <= |rs|
    ensures OfType(rs[..k], eventType) <= OfType(rs, eventType)
    decreases |rs| - k
  {
    if k < |rs| {
      OfTypeGrows(rs, k + 1, eventType);
      assert rs[..k + 1][..k] == rs[..k];
    } else {
      assert rs[..k] == rs;
    }
  }

  /**
   The index agrees with the log: after a rebuild from any file, looking up k gives the k-th record of
   the valid prefix, payload and hosted context included, and nothing for any other number.
   */
  lemma IndexAgreesWithLog(codec: Codec, audit: File, k: int)
    requires codec.RecordLaws()
    ensures var rs := RecordsOf(codec, audit);
      && (k in TableOf(rs) <==> 1 <= k <= |rs|)
      && (1 <= k <= |rs| ==> RecordOf(codec.reprint, TableOf(rs)[k]) == rs[k - 1])
  {
    hide Read, RecordOf, RowOf, PrintableRecord, PayloadSurvives, Reread, Encode;
    var rs := RecordsOf(codec, audit);
    if 1 <= k <= |rs| {
      RecordNormal(codec, [], audit.value, k - 1);
      RowReadBack(codec.reprint, rs[k - 1]);
    }
  }

  lemma {:induction false} RecordNormal(codec: Codec, rs: seq<AuditRecord>, rest: string, i: nat)
    requires codec.RecordLaws() && forall j :: 0 <= j < |rs| ==> codec.Normal(rs[j])
    requires i < |Read(codec, rs, rest).records|
    ensures codec.Normal(Read(codec, rs, rest).records[i])
    decreases |rest|
  {
    hide Codec.Normal, Reread, Encode, PrintableRecord;
    if rest != "" && |Line(rest)| < MAX_LINE {
      if Token(rest) == "" {
        RecordNormal(codec, rs, Rest(rest), i);
      } else if Check(codec, rs, Token(rest)).Ok? {
        RecordNormal(codec, rs + [Check(codec, rs, Token(rest)).value], Rest(rest), i);
      }
    }
  }

  /******* What a query by type returns *******/

  /** Each record found is one of that type, without payload and hosted context. */
  ghost predicate Picked(rs: seq<AuditRecord>, eventType: string, found: seq<AuditRecord>) {
    forall k :: 0 <= k < |found| ==>
      && 1 <= found[k].seqNo <= |rs| && rs[found[k].seqNo - 1].eventType == eventType
      && found[k] == rs[found[k].seqNo - 1].(payload := NilMap, hosted := None)
  }

  ghost predicate Includes(found: seq<AuditRecord>, seqNo: int) {
    exists k :: 0 <= k < |found| && found[k].seqNo == seqNo
  }

  ghost predicate Rising(found: seq<AuditRecord>) {
    forall j, k :: 0 <= j < k < |found| ==> found[j].seqNo < found[k].seqNo
  }

  /** A query by type finds every record of the type and no other, by rising number, without payload. */
  lemma {:induction false} OfTypeMeans(rs: seq<AuditRecord>, eventType: string)
    requires forall i :: 0 <= i < |rs| ==> rs[i].seqNo == i + 1
    ensures Picked(rs, eventType, OfType(rs, eventType)) && Rising(OfType(rs, eventType))
    ensures forall i :: 0 <= i < |rs| ==> (Includes(OfType(rs, eventType), i + 1) <==> rs[i].eventType == eventType)
    decreases |rs|
  {
    hide Picked, Includes, Rising;
    if rs == [] {
      NothingPicked(eventType);
    } else {
      var n := |rs| - 1;
      var init, r := rs[..n], rs[n];
      OfTypeMeans(init, eventType);
      var before, found := OfType(init, eventType), OfType(rs, eventType);
      assert rs == init + [r];
      if r.eventType == eventType {
        assert found == before + [Summary(r)];
        hide OfType;
        PickedMore(init, eventType, before, r);
        PickedNext(init, eventType, before, r);
      } else {
        assert found == before;
        hide OfType;
        PickedMore(init, eventType, before, r);
      }
    }
  }

  lemma NothingPicked(eventType: string)
    ensures Picked([], eventType, []) && Rising([])
  {
  }

  lemma PickedMore(rs: seq<AuditRecord>, eventType: string, found: seq<AuditRecord>, r: AuditRecord)
    requires Picked(rs, eventType, found)
    ensures Picked(rs + [r], eventType, found) && !Includes(found, |rs| + 1)
  {
  }

  lemma PickedNext(rs: seq<AuditRecord>, eventType: string, found: seq<AuditRecord>, r: AuditRecord)
    requires Picked(rs, eventType, found) && Rising(found) && r.seqNo == |rs| + 1 && r.eventType == eventType
    ensures Picked(rs + [r], eventType, found + [Summary(r)]) && Rising(found + [Summary(r)])
    ensures Includes(found + [Summary(r)], |rs| + 1)
    ensures forall n :: n <= |rs| ==> (Includes(found + [Summary(r)], n) <==> Includes(found, n))
  {
    PickedMore(rs, eventType, found, r);
    hide Picked;
    var all := found + [Summary(r)];
    assert all[|found|].seqNo == |rs| + 1;
    forall n | n <= |rs| ensures Includes(all, n) <==> Includes(found, n) {
      if Includes(found, n) {
        var k :| 0 <= k < |found| && found[k].seqNo == n;
        assert all[k].seqNo == n;
      }
    }
    PickedSnoc(rs, eventType, found, r);
  }

  lemma PickedSnoc(rs: seq<AuditRecord>, eventType: string, found: seq<AuditRecord>, r: AuditRecord)
    requires Picked(rs, eventType, found) && Rising(found) && r.seqNo == |rs| + 1 && r.eventType == eventType
    ensures Picked(rs + [r], eventType, found + [Summary(r)]) && Rising(found + [Summary(r)])
  {
  }

  /**
   With a limit: never more than a positive limit, and a record of the type is left out only when the limit is reached
   by records of smaller numbers.
   */
  lemma QueryMeans(rs: seq<AuditRecord>, eventType: string, limit: int)
    requires forall i :: 0 <= i < |rs| ==> rs[i].seqNo == i + 1
    ensures var found := Cut(OfType(rs, eventType), limit);
      && Picked(rs, eventType, found) && Rising(found) && (limit > 0 ==> |found| <= limit)
      && forall i :: 0 <= i < |rs| && rs[i].eventType == eventType && !Includes(found, i + 1) ==>
           |found| == limit && forall k :: 0 <= k < |found| ==> found[k].seqNo < i + 1
  {
    hide OfType, Picked, Rising, Includes, Cut;
    OfTypeMeans(rs, eventType);
    var all := OfType(rs, eventType);
    CutKeeps(rs, eventType, all, limit);
    forall i | 0 <= i < |rs| && rs[i].eventType == eventType && !Includes(Cut(all, limit), i + 1)
      ensures |Cut(all, limit)| == limit && forall k :: 0 <= k < |Cut(all, limit)| ==> Cut(all, limit)[k].seqNo < i + 1
    {
      CutLeavesOut(all, limit, i + 1);
    }
  }

  lemma CutKeeps(rs: seq<AuditRecord>, eventType: string, all: seq<AuditRecord>, limit: int)
    requires Picked(rs, eventType, all) && Rising(all)
    ensures Picked(rs, eventType, Cut(all, limit)) && Rising(Cut(all, limit))
    ensures limit > 0 ==> |Cut(all, limit)| <= limit
  {
    hide Picked, Rising, Includes, Summary, OfType;
    if 0 < limit < |all| {
      PickedFirst(rs, eventType, all, limit);
      RisingFirst(all, limit);
    }
  }

  lemma PickedFirst(rs: seq<AuditRecord>, eventType: string, all: seq<AuditRecord>, n: nat)
    requires n <= |all| && Picked(rs, eventType, all)
    ensures Picked(rs, eventType, all[..n])
  {
    hide Rising, Includes, Summary, OfType, Cut;
  }

  lemma RisingFirst(all: seq<AuditRecord>, n: nat)
    requires n <= |all| && Rising(all)
    ensures Rising(all[..n])
  {
    hide Picked, Includes, Summary, OfType, Cut;
  }

  lemma CutLeavesOut(all: seq<AuditRecord>, limit: int, n: int)
    requires Rising(all) && Includes(all, n) && !Includes(Cut(all, limit), n)
    ensures |Cut(all, limit)| == limit && forall k :: 0 <= k < |Cut(all, limit)| ==> Cut(all, limit)[k].seqNo < n
  {
    var j :| 0 <= j < |all| && all[j].seqNo == n;
    var found := Cut(all, limit);
    assert forall k :: 0 <= k < |found| ==> found[k] == all[k];
  }
}
