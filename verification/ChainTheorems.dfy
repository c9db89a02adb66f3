/** What the readers of the log agree on, what a head hash pins, and what recovery keeps. */
module ChainTheorems {
  import opened Base
  import opened Records
  import opened RecordTheorems
  import opened Chain

  /******* Shape of a reading *******/

  lemma {:induction false} ReadExtends(codec: Codec, rs: seq<AuditRecord>, rest: string)
    ensures rs <= Read(codec, rs, rest).records
    decreases |rest|
  {
    hide Check;
    if rest != "" && |Line(rest)| < MAX_LINE {
      if Token(rest) == "" {
        ReadExtends(codec, rs, Rest(rest));
      } else {
        match Check(codec, rs, Token(rest))
        case Ok(r) => ReadExtends(codec, rs + [r], Rest(rest));
        case Err(_) =>
      }
    }
  }

  lemma PrefixValid(codec: Codec, rs: seq<AuditRecord>, m: nat)
    requires ValidChain(codec, rs) && m <= |rs|
    ensures ValidChain(codec, rs[..m])
  {
    hide HeadHash;
    forall i | 0 <= i < m ensures Linked(codec, rs[..m], i) {
      assert Linked(codec, rs, i);
      assert rs[..m][..i] == rs[..i];
    }
  }

  lemma SnocValid(codec: Codec, rs: seq<AuditRecord>, r: AuditRecord)
    requires ValidChain(codec, rs)
    ensures ValidChain(codec, rs + [r]) <==> Linked(codec, rs + [r], |rs|)
  {
    hide HeadHash;
    if Linked(codec, rs + [r], |rs|) {
      forall i | 0 <= i < |rs + [r]| ensures Linked(codec, rs + [r], i) {
        if i < |rs| {
          assert Linked(codec, rs, i);
          assert (rs + [r])[..i] == rs[..i];
        }
      }
    }
  }

  lemma HeadSeqIsLength(codec: Codec, rs: seq<AuditRecord>)
    requires ValidChain(codec, rs)
    ensures HeadSeq(rs) == |rs|
  {
    if rs != [] { assert Linked(codec, rs, |rs| - 1); }
  }

  /** A record is accepted exactly when it keeps the chain valid. */
  lemma CheckExtends(codec: Codec, rs: seq<AuditRecord>, r: AuditRecord)
    requires ValidChain(codec, rs)
    ensures CheckRecord(codec, rs, r).Ok? <==> ValidChain(codec, rs + [r])
    ensures CheckRecord(codec, rs, r).Ok? ==> CheckRecord(codec, rs, r).value == r
  {
    SnocValid(codec, rs, r);
    HeadSeqIsLength(codec, rs);
    hide ValidChain;
    assert (rs + [r])[..|rs|] == rs && (rs + [r])[|rs|] == r;
  }

  /** Whatever the file holds, the records returned are a hash chain. */
  lemma {:induction false} ReadValid(codec: Codec, rs: seq<AuditRecord>, rest: string)
    requires ValidChain(codec, rs)
    ensures ValidChain(codec, Read(codec, rs, rest).records)
    decreases |rest|
  {
    hide ValidChain, CheckRecord;
    if rest != "" && |Line(rest)| < MAX_LINE {
      if Token(rest) == "" {
        ReadValid(codec, rs, Rest(rest));
      } else if Check(codec, rs, Token(rest)).Ok? {
        var r := Check(codec, rs, Token(rest)).value;
        CheckExtends(codec, rs, codec.decodeRecord(Token(rest)).value);
        ReadValid(codec, rs + [r], Rest(rest));
      }
    }
  }

  ghost predicate AllPrintable(rs: seq<AuditRecord>) { forall i :: 0 <= i < |rs| ==> PrintableRecord(rs[i]) }

  lemma {:induction false} ReadPrintable(codec: Codec, rs: seq<AuditRecord>, rest: string)
    requires codec.RecordLaws() && AllPrintable(rs)
    ensures AllPrintable(Read(codec, rs, rest).records)
    decreases |rest|
  {
    hide PrintableRecord, Reread, Encode;
    if rest != "" && |Line(rest)| < MAX_LINE {
      if Token(rest) == "" {
        ReadPrintable(codec, rs, Rest(rest));
      } else if Check(codec, rs, Token(rest)).Ok? {
        ReadPrintable(codec, rs + [Check(codec, rs, Token(rest)).value], Rest(rest));
      }
    }
  }

  /** What any reader gets out of any file is a printable hash chain. */
  lemma ReadLogValid(codec: Codec, data: string)
    requires codec.RecordLaws()
    ensures ValidChain(codec, ReadLog(codec, data).records) && AllPrintable(ReadLog(codec, data).records)
  {
    ReadValid(codec, [], data);
    ReadPrintable(codec, [], data);
  }

  /******* The head pins history *******/

  /** Some record of rs and some record of ts have different canonical bytes and one digest. */
  ghost predicate CollisionBetween(codec: Codec, rs: seq<AuditRecord>, ts: seq<AuditRecord>) {
    exists i, j :: 0 <= i < |rs| && 0 <= j < |ts| && Collision(codec.sha, Canonical(rs[i]), Canonical(ts[j]))
  }

  /** Equal records up to nil payloads. */
  predicate SameRecord(r: AuditRecord, s: AuditRecord) { SameButHash(r, s) && r.recordHash == s.recordHash }

  ghost predicate SameHistory(rs: seq<AuditRecord>, ts: seq<AuditRecord>) {
    |rs| == |ts| && forall i :: 0 <= i < |rs| ==> SameRecord(rs[i], ts[i])
  }

  /** Two chains that end in one hash are the same chain, or exhibit a collision of the hash function. */
  lemma {:induction false} ChainsWithOneHead(codec: Codec, rs: seq<AuditRecord>, ts: seq<AuditRecord>)
    requires ValidChain(codec, rs) && ValidChain(codec, ts) && AllPrintable(rs) && AllPrintable(ts)
    requires rs != [] && ts != [] && Last(rs).recordHash == Last(ts).recordHash
    ensures SameHistory(rs, ts) || CollisionBetween(codec, rs, ts)
    decreases |rs|
  {
    hide Canonical, PrintableRecord;
    var m, n := |rs| - 1, |ts| - 1;
    assert Linked(codec, rs, m) && Linked(codec, ts, n);
    if Canonical(rs[m]) != Canonical(ts[n]) {
      assert Collision(codec.sha, Canonical(rs[m]), Canonical(ts[n]));
    } else {
      CanonicalIdentifies(rs[m], ts[n]);
      assert m == n;
      if m > 0 {
        PrefixValid(codec, rs, m);
        PrefixValid(codec, ts, m);
        ChainsWithOneHead(codec, rs[..m], ts[..m]);
        PrefixCollision(codec, rs, ts, m);
        if SameHistory(rs[..m], ts[..m]) { SameSnoc(rs, ts); }
      }
    }
  }

  lemma PrefixCollision(codec: Codec, rs: seq<AuditRecord>, ts: seq<AuditRecord>, m: nat)
    requires m <= |rs| && m <= |ts|
    ensures CollisionBetween(codec, rs[..m], ts[..m]) ==> CollisionBetween(codec, rs, ts)
  {
    hide Canonical;
    if CollisionBetween(codec, rs[..m], ts[..m]) {
      var i, j :| 0 <= i < m && 0 <= j < m && Collision(codec.sha, Canonical(rs[..m][i]), Canonical(ts[..m][j]));
      assert Collision(codec.sha, Canonical(rs[i]), Canonical(ts[j]));
    }
  }

  lemma SameSnoc(rs: seq<AuditRecord>, ts: seq<AuditRecord>)
    requires |rs| == |ts| > 0 && SameHistory(rs[..|rs| - 1], ts[..|rs| - 1])
    requires SameRecord(rs[|rs| - 1], ts[|rs| - 1])
    ensures SameHistory(rs, ts)
  {
    hide SameRecord;
    var m := |rs| - 1;
    forall i | 0 <= i < |rs| ensures SameRecord(rs[i], ts[i]) {
      if i < m { assert SameRecord(rs[..m][i], ts[..m][i]); }
    }
  }

  /** Two files read without fault and ending in one record hash hold the same records at every position. */
  lemma HeadPinsHistory(codec: Codec, f: string, g: string)
    requires codec.RecordLaws()
    requires ReadLog(codec, f).fault.None? && ReadLog(codec, g).fault.None?
    requires ReadLog(codec, f).records != [] && ReadLog(codec, g).records != []
    requires Last(ReadLog(codec, f).records).recordHash == Last(ReadLog(codec, g).records).recordHash
    ensures SameHistory(ReadLog(codec, f).records, ReadLog(codec, g).records)
         || CollisionBetween(codec, ReadLog(codec, f).records, ReadLog(codec, g).records)
  {
    hide Read, ValidChain, AllPrintable, Codec.RecordLaws;
    ReadLogValid(codec, f);
    ReadLogValid(codec, g);
    ChainsWithOneHead(codec, ReadLog(codec, f).records, ReadLog(codec, g).records);
  }

  /******* Concatenation *******/

  lemma {:induction false} LineEndConcat(f: string, g: string)
    requires f != "" && Terminated(f)
    ensures LineEnd(f + g) == LineEnd(f) < |f|
    decreases |f|
  {
    if f[0] != '\n' {
      assert Terminated(f[1..]) && f[1..] != "";
      LineEndConcat(f[1..], g);
      assert (f + g)[1..] == f[1..] + g;
    }
  }

  lemma LineConcat(f: string, g: string)
    requires f != "" && Terminated(f)
    ensures Line(f + g) == Line(f) && Rest(f + g) == Rest(f) + g && Terminated(Rest(f))
  {
    LineEndConcat(f, g);
    hide LineEnd;
    var n := LineEnd(f);
    assert (f + g)[..n] == f[..n];
    assert (f + g)[n + 1..] == f[n + 1..] + g;
  }

  /** A faultless newline-terminated prefix is read as if it had been read separately. */
  lemma {:induction false} ReadConcat(codec: Codec, rs: seq<AuditRecord>, f: string, g: string)
    requires Terminated(f) && Read(codec, rs, f).fault.None?
    ensures Read(codec, rs, f + g) == Read(codec, Read(codec, rs, f).records, g)
    decreases |f|
  {
    if f == "" {
      assert f + g == g;
    } else {
      LineConcat(f, g);
      hide Check, Line, Rest, DropCR, Terminated;
      if Token(f) == "" {
        ReadConcat(codec, rs, Rest(f), g);
      } else {
        ReadConcat(codec, rs + [Check(codec, rs, Token(f)).value], Rest(f), g);
      }
    }
  }

  /******* Recovery *******/

  /** The rescan, the strict replay and the offline reader agree on accept and reject and on the break point. */
  lemma {:induction false} RescanAgrees(codec: Codec, rs: seq<AuditRecord>, rest: string, start: nat)
    ensures Rescan(codec, rs, rest, start).Clean? <==> Read(codec, rs, rest).fault.None?
    ensures StrippedBefore(codec, rs, rest) <= BreakAt(codec, rs, rest)
    ensures Read(codec, rs, rest).fault.Some? ==>
              Rescan(codec, rs, rest, start)
              == Break(if Read(codec, rs, rest).fault == Some(FirstSeq) then 0
                       else start + BreakAt(codec, rs, rest) - StrippedBefore(codec, rs, rest))
    decreases |rest|
  {
    hide Check, LineEnd, Line, Rest, DropCR;
    if rest != "" && |Line(rest)| < MAX_LINE {
      LineLength(rest);
      var next := start + |Token(rest)| + 1;
      if Token(rest) == "" {
        RescanAgrees(codec, rs, Rest(rest), next);
      } else {
        match Check(codec, rs, Token(rest))
        case Ok(r) => RescanAgrees(codec, rs + [r], Rest(rest), next);
        case Err(_) =>
      }
    }
  }

  lemma LineLength(s: string)
    requires s != ""
    ensures |Token(s)| <= |Line(s)| <= |Token(s)| + 1
    ensures |Line(s)| + 1 + |Rest(s)| == if LineEnd(s) < |s| then |s| else |s| + 1
    ensures LineEnd(s) == |s| ==> Rest(s) == ""
  {
    hide LineEnd;
  }

  /** What stands in front of the first bad line is newline-terminated and reads back to the same records. */
  lemma {:induction false} KeptPrefix(codec: Codec, rs: seq<AuditRecord>, rest: string)
    requires Read(codec, rs, rest).fault.Some?
    ensures Terminated(rest[..BreakAt(codec, rs, rest)])
    ensures Read(codec, rs, rest[..BreakAt(codec, rs, rest)]) == Reading(Read(codec, rs, rest).records, None)
    decreases |rest|
  {
    hide Check, LineEnd, DropCR, Line, Rest;
    if |Line(rest)| < MAX_LINE && (Token(rest) == "" || Check(codec, rs, Token(rest)).Ok?) {
      RestFault(codec, rs, rest);
      var rs' := if Token(rest) == "" then rs else rs + [Check(codec, rs, Token(rest)).value];
      KeptPrefix(codec, rs', Rest(rest));
      KeptStep(rest, BreakAt(codec, rs', Rest(rest)));
    }
  }

  /** A fault further down means that the first line was terminated. */
  lemma RestFault(codec: Codec, rs: seq<AuditRecord>, rest: string)
    requires rest != "" && |Line(rest)| < MAX_LINE && (Token(rest) == "" || Check(codec, rs, Token(rest)).Ok?)
    requires Read(codec, rs, rest).fault.Some?
    ensures LineEnd(rest) < |rest|
  {
    hide Check, DropCR, LineEnd;
  }

  lemma SplitFirst(rest: string)
    requires LineEnd(rest) < |rest|
    ensures rest == Line(rest) + "\n" + Rest(rest) && forall i :: 0 <= i < |Line(rest)| ==> Line(rest)[i] != '\n'
  {
    hide LineEnd;
  }

  lemma CutLater(rest: string, n: nat)
    requires LineEnd(rest) < |rest| && n <= |Rest(rest)|
    ensures var p := rest[..|Line(rest)| + 1 + n];
      p != "" && Line(p) == Line(rest) && Rest(p) == Rest(rest)[..n]
  {
    hide LineEnd, Line, Rest;
    SplitFirst(rest);
    var line, tail := Line(rest), Rest(rest)[..n];
    ConsLine(line, tail);
    assert rest[..|line| + 1 + n] == line + "\n" + tail;
  }

  lemma KeptStep(rest: string, n: nat)
    requires LineEnd(rest) < |rest| && n <= |Rest(rest)| && Terminated(Rest(rest)[..n])
    ensures |Line(rest)| + 1 + |Rest(rest)| == |rest|
    ensures var p := rest[..|Line(rest)| + 1 + n];
      p != "" && Terminated(p) && Line(p) == Line(rest) && Rest(p) == Rest(rest)[..n]
  {
    hide LineEnd, Line, Rest, Terminated;
    SplitFirst(rest);
    CutLater(rest, n);
    TailEnds(Line(rest), Rest(rest), n);
  }

  lemma TailEnds(line: string, tail: string, n: nat)
    requires n <= |tail| && Terminated(tail[..n])
    ensures Terminated((line + "\n" + tail)[..|line| + 1 + n])
  {
    var p := (line + "\n" + tail)[..|line| + 1 + n];
    if n > 0 { assert p[|line| + n] == tail[n - 1]; }
  }

  /** A line put in front of a text is its first line. */
  lemma ConsLine(line: string, tail: string)
    requires forall i :: 0 <= i < |line| ==> line[i] != '\n'
    ensures var s := line + "\n" + tail;
      LineEnd(s) == |line| && Line(s) == line && Rest(s) == tail
  {
    hide LineEnd;
    var s := line + "\n" + tail;
    assert s[|line|] == '\n' && forall i :: 0 <= i < |line| ==> s[i] == line[i];
  }

  /**
   Recovery keeps every byte in front of the first bad line exactly when the scanner stripped no
   carriage return from those lines (or the very first record has a wrong number: then nothing is kept).
   */
  lemma RecoveryOffset(codec: Codec, data: string)
    requires ReadLog(codec, data).fault.Some? && ReadLog(codec, data).fault != Some(FirstSeq)
    ensures Rescan(codec, [], data, 0) == Break(BreakAt(codec, [], data)) <==> StrippedBefore(codec, [], data) == 0
  {
    RescanAgrees(codec, [], data, 0);
  }

  /** The wrong-first-number fault arises only before any record was read. */
  lemma {:induction false} FirstSeqMeansEmpty(codec: Codec, rs: seq<AuditRecord>, rest: string)
    requires Read(codec, rs, rest).fault == Some(FirstSeq)
    ensures Read(codec, rs, rest).records == []
    decreases |rest|
  {
    if |Line(rest)| < MAX_LINE {
      if Token(rest) == "" {
        FirstSeqMeansEmpty(codec, rs, Rest(rest));
      } else if Check(codec, rs, Token(rest)).Ok? {
        FirstSeqMeansEmpty(codec, rs + [Check(codec, rs, Token(rest)).value], Rest(rest));
      }
    }
  }

  lemma ReadEmpty(codec: Codec)
    ensures ReadLog(codec, "") == Reading([], None)
  {
  }

  /** No newline-terminated prefix of the file that reads without fault holds more records. */
  lemma {:induction false} NoLongerPrefix(codec: Codec, rs: seq<AuditRecord>, p: string, q: string)
    requires Terminated(p) && Read(codec, rs, p).fault.None?
    ensures Read(codec, rs, p).records <= Read(codec, rs, p + q).records
    ensures Read(codec, rs, p + q).fault.Some? ==> |p| <= BreakAt(codec, rs, p + q)
    decreases |p|
  {
    if p == "" {
      assert p + q == q;
      ReadExtends(codec, rs, q);
    } else {
      LineConcat(p, q);
      hide Check, Line, Rest, DropCR, Terminated;
      if Token(p) == "" {
        NoLongerPrefix(codec, rs, Rest(p), q);
      } else {
        NoLongerPrefix(codec, rs + [Check(codec, rs, Token(p)).value], Rest(p), q);
      }
    }
  }
}
