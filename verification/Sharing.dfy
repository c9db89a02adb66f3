/** Several writers of one log, such as the daemon and short-lived commands, taking turns under the lock file. */
module Sharing {
  import opened Records
  import opened Chain
  import opened Appending

  datatype Head = Head(seqNo: int, hash: string)

  /** The log and the head each writer has cached. */
  datatype Shared = Shared(data: string, heads: map<nat, Head>)

  datatype Event =
    | Enter(writer: nat) // opens the log with `NewAuditWriter`
    | Write(writer: nat, content: AuditRecord) // one `Append` under the lock

  /** An append stamps from the writer's own cached head; the lock does not make it look at the file. */
  function After(codec: Codec, s: Shared, e: Event): Shared {
    match e
    case Enter(w) =>
      (match OpenStrict(codec, s.data)
       case Opened(_, seqNo, hash) => s.(heads := s.heads[w := Head(seqNo, hash)])
       case OpenFailed(_) => s.(heads := s.heads - {w}))
    case Write(w, content) =>
      if w !in s.heads then s
      else
        var r := Stamp(codec, content, s.heads[w].seqNo, s.heads[w].hash);
        Shared(s.data + Encode(r) + "\n", s.heads[w := Head(r.seqNo, r.recordHash)])
  }

  function History(codec: Codec, data: string, events: seq<Event>): Shared {
    if events == [] then Shared(data, map[])
    else After(codec, History(codec, data, events[..|events| - 1]), events[|events| - 1])
  }

  /** Contents are JSON-normal and lines fit the scanner. */
  predicate Fits(codec: Codec, s: Shared, e: Event) {
    e.Write? && e.writer in s.heads ==>
      var h := s.heads[e.writer];
      codec.Normal(Stamp(codec, e.content, h.seqNo, h.hash)) && |NextLine(codec, e.content, h.seqNo, h.hash)| < MAX_LINE
  }

  predicate AllFit(codec: Codec, data: string, events: seq<Event>) {
    events == [] ||
    var init := events[..|events| - 1];
    AllFit(codec, data, init) && Fits(codec, History(codec, data, init), events[|events| - 1])
  }

  /******* Turns, told from the order of events alone *******/

  predicate Entered(events: seq<Event>, w: nat) { exists k :: 0 <= k < |events| && events[k] == Enter(w) }

  /** Event i is an append by a writer that has opened the log. */
  predicate Acts(events: seq<Event>, i: nat)
    requires i < |events|
  {
    events[i].Write? && Entered(events[..i], events[i].writer)
  }

  /** Another writer has appended since w last opened the log. */
  predicate Overtaken(events: seq<Event>, w: nat) {
    exists j :: 0 <= j < |events| && OvertakesAt(events, w, j)
  }

  predicate OvertakesAt(events: seq<Event>, w: nat, j: nat)
    requires j < |events|
  {
    Acts(events, j) && events[j].writer != w && Enter(w) !in events[j + 1..]
  }

  predicate Stale(events: seq<Event>, i: nat)
    requires i < |events|
  {
    Acts(events, i) && Overtaken(events[..i], events[i].writer)
  }

  /** How many events come before the first stale append. */
  function BeforeStale(events: seq<Event>): (n: nat)
    ensures n <= |events|
  {
    if events == [] then 0
    else
      var last := |events| - 1;
      var n := BeforeStale(events[..last]);
      if n < last || Stale(events, last) then n else last + 1
  }

  /** The first stale append, said without recursion. */
  lemma {:induction false} BeforeStaleIs(events: seq<Event>)
    ensures var n := BeforeStale(events);
      && (n < |events| ==> Stale(events, n))
      && forall i :: 0 <= i < n ==> !Stale(events, i)
    decreases |events|
  {
    hide Acts, Overtaken;
    if events != [] {
      var last := |events| - 1;
      var init := events[..last];
      BeforeStaleIs(init);
      forall i | 0 <= i < last ensures Stale(events, i) <==> Stale(init, i) { StalePrefix(events, last, i); }
    }
  }

  lemma StalePrefix(events: seq<Event>, n: nat, i: nat)
    requires i < n <= |events|
    ensures Stale(events[..n], i) <==> Stale(events, i)
  {
    hide Overtaken, Entered;
    assert events[..n][..i] == events[..i];
  }

  /** The contents appended by writers that have opened the log. */
  function Contents(events: seq<Event>): seq<AuditRecord> {
    if events == [] then []
    else
      var last := |events| - 1;
      Contents(events[..last]) + if Acts(events, last) then [events[last].content] else []
  }

  /** Contents chained one behind the other. */
  function Chained(codec: Codec, rs: seq<AuditRecord>, contents: seq<AuditRecord>): seq<AuditRecord> {
    if contents == [] then rs
    else
      var n := |contents| - 1;
      var before := Chained(codec, rs, contents[..n]);
      before + [Stamp(codec, contents[n], HeadSeq(before), HeadHash(before))]
  }

  /******* What every event keeps *******/

  /** Who has opened the log has a head; it is the log's own unless the writer was overtaken, and behind it then. */
  ghost predicate InTurn(codec: Codec, s: Shared, events: seq<Event>) {
    && Terminated(s.data) && ReadLog(codec, s.data).fault.None?
    && (forall w :: w in s.heads <==> Entered(events, w))
    && forall w :: w in s.heads ==> HeadOk(ReadLog(codec, s.data).records, s.heads[w], Overtaken(events, w))
  }

  ghost predicate HeadOk(rs: seq<AuditRecord>, h: Head, overtaken: bool) {
    if overtaken then h.seqNo < HeadSeq(rs) else Fresh(rs, h.seqNo, h.hash)
  }

  lemma EnteredSnoc(events: seq<Event>, e: Event, w: nat)
    ensures Entered(events + [e], w) <==> Entered(events, w) || e == Enter(w)
  {
    var after := events + [e];
    if Entered(events, w) {
      var k :| 0 <= k < |events| && events[k] == Enter(w);
      assert after[k] == Enter(w);
    }
    if e == Enter(w) { assert after[|events|] == Enter(w); }
  }

  lemma ActsSnoc(events: seq<Event>, e: Event, i: nat)
    requires i <= |events|
    ensures Acts(events + [e], i) <==> if i < |events| then Acts(events, i) else e.Write? && Entered(events, e.writer)
  {
    hide Entered;
    assert (events + [e])[..i] == events[..i];
    if i == |events| { assert events[..i] == events; }
  }

  lemma OvertakesSnoc(events: seq<Event>, e: Event, w: nat, j: nat)
    requires j <= |events|
    ensures OvertakesAt(events + [e], w, j) <==>
            if j < |events| then OvertakesAt(events, w, j) && e != Enter(w)
            else e.Write? && Entered(events, e.writer) && e.writer != w
  {
    hide Acts, Entered;
    ActsSnoc(events, e, j);
    if j < |events| {
      assert (events + [e])[j + 1..] == events[j + 1..] + [e];
    } else {
      assert (events + [e])[j + 1..] == [];
    }
  }

  /** How an event changes who is overtaken. */
  lemma OvertakenSnoc(events: seq<Event>, e: Event, w: nat)
    ensures Overtaken(events + [e], w) <==>
            || (Overtaken(events, w) && e != Enter(w))
            || (e.Write? && Entered(events, e.writer) && e.writer != w)
  {
    hide OvertakesAt, Entered;
    forall j | 0 <= j <= |events| { OvertakesSnoc(events, e, w, j); }
    var after := events + [e];
    if Overtaken(after, w) {
      var j :| 0 <= j < |after| && OvertakesAt(after, w, j);
      assert j < |events| ==> OvertakesAt(events, w, j);
    }
    if Overtaken(events, w) && e != Enter(w) {
      var j :| 0 <= j < |events| && OvertakesAt(events, w, j);
      assert OvertakesAt(after, w, j);
    }
    if e.Write? && Entered(events, e.writer) && e.writer != w { assert OvertakesAt(after, w, |events|); }
  }

  lemma EnterKeeps(codec: Codec, s: Shared, events: seq<Event>, w: nat)
    requires InTurn(codec, s, events)
    ensures var s' := After(codec, s, Enter(w)); s'.data == s.data && InTurn(codec, s', events + [Enter(w)])
  {
    hide ReadLog, Entered, Overtaken, Fresh, Terminated;
    var e := Enter(w);
    var s' := After(codec, s, e);
    var rs := ReadLog(codec, s.data).records;
    FreshHead(rs);
    forall v ensures v in s'.heads <==> Entered(events + [e], v) { EnteredSnoc(events, e, v); }
    forall v | v in s'.heads ensures HeadOk(rs, s'.heads[v], Overtaken(events + [e], v)) {
      OvertakenSnoc(events, e, v);
    }
  }

  /** Appending without having opened the log does nothing. */
  lemma IdleKeeps(codec: Codec, s: Shared, events: seq<Event>, e: Event)
    requires InTurn(codec, s, events) && e.Write? && !Entered(events, e.writer)
    ensures After(codec, s, e) == s && InTurn(codec, s, events + [e])
  {
    hide ReadLog, Entered, Overtaken, HeadOk, Terminated;
    forall v ensures v in s.heads <==> Entered(events + [e], v) { EnteredSnoc(events, e, v); }
    forall v | v in s.heads
      ensures HeadOk(ReadLog(codec, s.data).records, s.heads[v], Overtaken(events + [e], v))
    {
      OvertakenSnoc(events, e, v);
    }
  }

  /** What a writer's append leaves in the file: with its head up to date one more record, otherwise a fault. */
  lemma WriteOutcome(codec: Codec, s: Shared, events: seq<Event>, e: Event)
    requires codec.RecordLaws() && InTurn(codec, s, events) && Fits(codec, s, e)
    requires e.Write? && Entered(events, e.writer)
    ensures e.writer in s.heads && Terminated(After(codec, s, e).data)
    ensures var rs, after := ReadLog(codec, s.data).records, ReadLog(codec, After(codec, s, e).data);
      && (after.fault.None? <==> !Overtaken(events, e.writer))
      && after.records
         == if Overtaken(events, e.writer) then rs else rs + [Stamp(codec, e.content, HeadSeq(rs), HeadHash(rs))]
  {
    var h := s.heads[e.writer];
    hide ReadLog, Entered, Overtaken, Codec.RecordLaws, Codec.Normal, Stamp, Encode, BreakAt, StrippedBefore;
    AppendEnded(codec, s.data, e.content, h.seqNo, h.hash);
    hide Fresh;
    Unlike(ReadLog(codec, s.data).records, h);
  }

  lemma Unlike(rs: seq<AuditRecord>, h: Head)
    ensures h.seqNo < HeadSeq(rs) ==> !Fresh(rs, h.seqNo, h.hash)
    ensures Fresh(rs, h.seqNo, h.hash) ==> h.seqNo == HeadSeq(rs) && h.hash == HeadHash(rs)
  {
  }

  /** An append in turn leaves its writer up to date and every other writer behind. */
  lemma WriteKeeps(codec: Codec, s: Shared, events: seq<Event>, e: Event)
    requires codec.RecordLaws() && InTurn(codec, s, events) && Fits(codec, s, e)
    requires e.Write? && Entered(events, e.writer) && !Overtaken(events, e.writer)
    ensures InTurn(codec, After(codec, s, e), events + [e])
  {
    hide ReadLog, Entered, Overtaken, Codec.RecordLaws, Codec.Normal, Stamp, Encode, Terminated, Fits;
    WriteOutcome(codec, s, events, e);
    var s' := After(codec, s, e);
    var rs := ReadLog(codec, s.data).records;
    var r := Stamp(codec, e.content, HeadSeq(rs), HeadHash(rs));
    StampIsNext(codec, e.content, HeadSeq(rs), HeadHash(rs));
    forall v ensures v in s'.heads <==> Entered(events + [e], v) { EnteredSnoc(events, e, v); }
    forall v | v in s'.heads ensures HeadOk(rs + [r], s'.heads[v], Overtaken(events + [e], v)) {
      OvertakenSnoc(events, e, v);
      HeadMoves(rs, r, s.heads[e.writer], s'.heads[v], Overtaken(events, v));
    }
  }

  lemma HeadMoves(rs: seq<AuditRecord>, r: AuditRecord, h: Head, g: Head, overtaken: bool)
    requires r.seqNo == HeadSeq(rs) + 1
    ensures HeadSeq(rs + [r]) == HeadSeq(rs) + 1 && Fresh(rs + [r], r.seqNo, r.recordHash)
    ensures HeadOk(rs, g, overtaken) ==> g.seqNo < HeadSeq(rs + [r])
  {
  }

  /** On a broken log nothing more is read. */
  lemma BrokenKeeps(codec: Codec, s: Shared, e: Event)
    requires Terminated(s.data) && ReadLog(codec, s.data).fault.Some?
    ensures var s' := After(codec, s, e); Terminated(s'.data) && ReadLog(codec, s'.data) == ReadLog(codec, s.data)
  {
    hide ReadLog, Stamp, Encode;
    if e.Write? && e.writer in s.heads {
      var line := NextLine(codec, e.content, s.heads[e.writer].seqNo, s.heads[e.writer].hash) + "\n";
      BrokenLog(codec, s.data, line);
      assert After(codec, s, e).data == s.data + line;
    }
  }

  /******* Every interleaving *******/

  lemma {:induction false} TurnsRead(codec: Codec, data: string, events: seq<Event>)
    requires codec.RecordLaws() && Terminated(data) && ReadLog(codec, data).fault.None? && AllFit(codec, data, events)
    ensures var s, n := History(codec, data, events), BeforeStale(events);
      && Terminated(s.data) && (n == |events| ==> InTurn(codec, s, events))
      && (ReadLog(codec, s.data).fault.None? <==> n == |events|)
      && ReadLog(codec, s.data).records == Chained(codec, ReadLog(codec, data).records, Contents(events[..n]))
    decreases |events|
  {
    hide *;
    var rs := ReadLog(codec, data).records;
    if events == [] {
      StartsInTurn(codec, data);
      assert events[..0] == [];
      NothingChained(codec, rs);
    } else {
      var last := |events| - 1;
      var init, e := events[..last], events[last];
      assert init + [e] == events;
      HistorySnoc(codec, data, init, e);
      TurnsRead(codec, data, init);
      var s, n := History(codec, data, init), BeforeStale(init);
      if n < last {
        assert init[..n] == events[..n];
        BrokenKeeps(codec, s, e);
      } else {
        assert init[..n] == init;
        NextTurn(codec, s, init, e, rs);
        assert events[..last + 1] == events;
      }
    }
  }

  lemma HistorySnoc(codec: Codec, data: string, events: seq<Event>, e: Event)
    ensures var after, n := events + [e], BeforeStale(events);
      && History(codec, data, after) == After(codec, History(codec, data, events), e)
      && (AllFit(codec, data, after) <==> AllFit(codec, data, events) && Fits(codec, History(codec, data, events), e))
      && BeforeStale(after) == if n < |events| || Stale(after, |events|) then n else |events| + 1
  {
    hide After, Fits, Stale;
    var after := events + [e];
    assert after[..|after| - 1] == events && after[|after| - 1] == e;
  }

  lemma StartsInTurn(codec: Codec, data: string)
    requires Terminated(data) && ReadLog(codec, data).fault.None?
    ensures History(codec, data, []) == Shared(data, map[]) && InTurn(codec, Shared(data, map[]), [])
    ensures BeforeStale([]) == 0
  {
    hide ReadLog;
  }

  lemma NothingChained(codec: Codec, rs: seq<AuditRecord>)
    ensures Chained(codec, rs, Contents([])) == rs
  {
  }

  lemma ContentsSnoc(codec: Codec, rs: seq<AuditRecord>, events: seq<Event>, e: Event)
    ensures var before := Chained(codec, rs, Contents(events));
      Chained(codec, rs, Contents(events + [e]))
      == before + if e.Write? && Entered(events, e.writer) then
                    [Stamp(codec, e.content, HeadSeq(before), HeadHash(before))]
                  else []
  {
    hide Acts, Entered, Stamp;
    var after := events + [e];
    ActsSnoc(events, e, |events|);
    assert after[..|events|] == events;
    var cs := Contents(events);
    if e.Write? && Entered(events, e.writer) {
      assert Contents(after) == cs + [e.content];
      assert (cs + [e.content])[..|cs|] == cs;
    } else {
      assert Contents(after) == cs;
    }
  }

  /** One event after any number of events in turn. */
  lemma NextTurn(codec: Codec, s: Shared, events: seq<Event>, e: Event, rs: seq<AuditRecord>)
    requires codec.RecordLaws() && InTurn(codec, s, events) && Fits(codec, s, e)
    requires ReadLog(codec, s.data).records == Chained(codec, rs, Contents(events))
    ensures var s', after := After(codec, s, e), events + [e];
      && Terminated(s'.data) && (ReadLog(codec, s'.data).fault.None? <==> !Stale(after, |events|))
      && (!Stale(after, |events|) ==> InTurn(codec, s', after))
      && ReadLog(codec, s'.data).records
         == Chained(codec, rs, Contents(if Stale(after, |events|) then events else after))
  {
    hide ReadLog, Codec.RecordLaws, InTurn, After, Fits, Overtaken, Entered, Terminated, Chained, Contents, Stamp;
    ActsSnoc(events, e, |events|);
    assert (events + [e])[..|events|] == events;
    hide Acts;
    ContentsSnoc(codec, rs, events, e);
    InTurnReads(codec, s, events);
    if e.Enter? {
      EnterKeeps(codec, s, events, e.writer);
    } else if !Entered(events, e.writer) {
      IdleKeeps(codec, s, events, e);
    } else {
      WriteOutcome(codec, s, events, e);
      if !Overtaken(events, e.writer) { WriteKeeps(codec, s, events, e); }
    }
  }

  lemma InTurnReads(codec: Codec, s: Shared, events: seq<Event>)
    requires InTurn(codec, s, events)
    ensures Terminated(s.data) && ReadLog(codec, s.data).fault.None?
  {
    hide ReadLog;
  }

  /**
   Any number of writers on one log, opening and appending in any order under the lock: the log stays readable exactly
   when no append comes from a writer that another has overtaken since it last opened the log. The log holds exactly
   the appends before the first such one, chained in order; that one and all later ones are lost to every reader.
   */
  lemma SharedLog(codec: Codec, data: string, events: seq<Event>)
    requires codec.RecordLaws() && Terminated(data) && ReadLog(codec, data).fault.None? && AllFit(codec, data, events)
    ensures var after, n := ReadLog(codec, History(codec, data, events).data), BeforeStale(events);
      && (after.fault.None? <==> forall i :: 0 <= i < |events| ==> !Stale(events, i))
      && after.records == Chained(codec, ReadLog(codec, data).records, Contents(events[..n]))
      && (n < |events| ==> Stale(events, n)) && forall i :: 0 <= i < n ==> !Stale(events, i)
  {
    hide ReadLog, Codec.RecordLaws, InTurn, History, AllFit, Stale, Terminated, Chained, Contents;
    TurnsRead(codec, data, events);
    BeforeStaleIs(events);
  }

  /**
   The lock alone does not keep the chain together: with the daemon open, one command that opens the log and appends to
   it costs the daemon its next append and all that follow.
   */
  lemma DaemonOvertaken(codec: Codec, data: string, a: AuditRecord, b: AuditRecord, later: seq<Event>)
    requires var events := [Enter(0), Enter(1), Write(1, a), Write(0, b)] + later;
      codec.RecordLaws() && Terminated(data) && ReadLog(codec, data).fault.None? && AllFit(codec, data, events)
    ensures var events := [Enter(0), Enter(1), Write(1, a), Write(0, b)] + later;
      var rs := ReadLog(codec, data).records;
      var after := ReadLog(codec, History(codec, data, events).data);
      after.fault.Some? && after.records == rs + [Stamp(codec, a, HeadSeq(rs), HeadHash(rs))]
  {
    hide *;
    var events := [Enter(0), Enter(1), Write(1, a), Write(0, b)] + later;
    OneTurn(codec, ReadLog(codec, data).records, a);
    FourthIsStale(a, b, later);
    SharedLog(codec, data, events);
    assert Stale(events, 3);
  }

  lemma FourthIsStale(a: AuditRecord, b: AuditRecord, later: seq<Event>)
    ensures var events := [Enter(0), Enter(1), Write(1, a), Write(0, b)] + later;
      BeforeStale(events) == 3 && Stale(events, 3) && events[..3] == [Enter(0), Enter(1), Write(1, a)]
  {
    hide BeforeStale, Overtaken, Entered, Stale;
    var turn := [Enter(0), Enter(1), Write(1, a)];
    var events := [Enter(0), Enter(1), Write(1, a), Write(0, b)] + later;
    assert events[..3] == turn && events[3] == Write(0, b);
    assert Stale(events, 3) by {
      Overtakes(a);
      Third(events, turn);
    }
    BeforeStaleIs(events);
    forall i | 0 <= i < 3 ensures !Stale(events, i) {
      EarlyTurns(a, i);
      StalePrefix(events, 3, i);
    }
  }

  lemma Third(events: seq<Event>, turn: seq<Event>)
    requires |events| > 3 && events[..3] == turn && events[3].Write? && Entered(turn, events[3].writer)
    requires Overtaken(turn, events[3].writer)
    ensures Stale(events, 3)
  {
    hide Entered, Overtaken;
  }

  lemma Overtakes(a: AuditRecord)
    ensures var turn := [Enter(0), Enter(1), Write(1, a)]; Entered(turn, 0) && Overtaken(turn, 0)
  {
    var turn := [Enter(0), Enter(1), Write(1, a)];
    hide Overtaken;
    assert turn[0] == Enter(0);
    assert [Enter(0), Enter(1)][1] == Enter(1);
    OvertakenSnoc([Enter(0), Enter(1)], Write(1, a), 0);
    assert [Enter(0), Enter(1)] + [Write(1, a)] == turn;
  }

  lemma OneTurn(codec: Codec, rs: seq<AuditRecord>, a: AuditRecord)
    ensures var turn := [Enter(0), Enter(1), Write(1, a)];
      Chained(codec, rs, Contents(turn)) == rs + [Stamp(codec, a, HeadSeq(rs), HeadHash(rs))]
  {
    hide Entered, Chained, Contents, Stamp;
    NothingChained(codec, rs);
    EnteredSnoc([], Enter(0), 1);
    ContentsSnoc(codec, rs, [], Enter(0));
    ContentsSnoc(codec, rs, [Enter(0)], Enter(1));
    ContentsSnoc(codec, rs, [Enter(0), Enter(1)], Write(1, a));
    EnteredSnoc([Enter(0)], Enter(1), 1);
    assert [] + [Enter(0)] == [Enter(0)] && [Enter(0)] + [Enter(1)] == [Enter(0), Enter(1)];
    assert [Enter(0), Enter(1)] + [Write(1, a)] == [Enter(0), Enter(1), Write(1, a)];
  }

  lemma EarlyTurns(a: AuditRecord, i: nat)
    requires i < 3
    ensures !Stale([Enter(0), Enter(1), Write(1, a)], i)
  {
    var turn := [Enter(0), Enter(1), Write(1, a)];
    if i == 2 {
      assert forall j :: 0 <= j < 2 ==> !Acts(turn[..2], j);
    }
  }
}
