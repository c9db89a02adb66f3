/** Confirmation ids and session runs of the Hermes plugin: a bounded replay guard over all histories of calls. */
module ReplayGuard {
  import opened Base

  const MAX_IDS := 10_000

  /** Calls under the lock; None stands for a missing argument, which counts like the empty string. */
  datatype Op = Confirm(id: Option<string>) | Register(run: Option<string>) | Discard(gone: string) | Reset

  predicate Falsy(s: Option<string>) { s.None? || s.value == "" }

  datatype State = State(runs: set<string>, used: seq<string>)

  const START := State({}, [])

  /** The last ids of a list, as many as are remembered. */
  function Recent(ids: seq<string>): seq<string> { if |ids| <= MAX_IDS then ids else ids[|ids| - MAX_IDS..] }

  predicate Accepts(s: State, id: Option<string>) { !Falsy(id) && id.value !in s.used }

  /** What a call leaves. */
  function Step(s: State, op: Op): State {
    match op
    case Confirm(id) => if Accepts(s, id) then s.(used := Recent(s.used + [id.value])) else s
    case Register(run) => if Falsy(run) then s else s.(runs := s.runs + {run.value})
    case Discard(run) => s.(runs := s.runs - {run})
    case Reset => START
  }

  function Run(ops: seq<Op>): State {
    if ops == [] then START else Step(Run(ops[..|ops| - 1]), ops[|ops| - 1])
  }

  class ConfirmationState {
    var sessionRuns: set<string>
    var usedConfirmationIds: seq<string>

    ghost function View(): State
      reads this
    {
      State(sessionRuns, usedConfirmationIds)
    }

    constructor ()
      ensures View() == START
    {
      sessionRuns := {};
      usedConfirmationIds := [];
    }

    method RegisterSessionRun(run: Option<string>)
      modifies this
      ensures View() == Step(old(View()), Register(run))
    {
      if !Falsy(run) {
        sessionRuns := sessionRuns + {run.value};
      }
    }

    method IsSessionRun(run: string) returns (known: bool)
      ensures known == (run in View().runs)
    {
      known := run in sessionRuns;
    }

    method DiscardSessionRun(run: string)
      modifies this
      ensures View() == Step(old(View()), Discard(run))
    {
      sessionRuns := sessionRuns - {run};
    }

    /** The store never exceeds its bound, whatever it is asked. */
    method CheckAndAddConfirmation(id: Option<string>) returns (isReplay: bool, refuse: bool)
      requires |usedConfirmationIds| <= MAX_IDS
      modifies this
      ensures View() == Step(old(View()), Confirm(id)) && |usedConfirmationIds| <= MAX_IDS
      ensures refuse <==> !Accepts(old(View()), id)
      ensures isReplay <==> !Falsy(id) && id.value in old(View()).used
    {
      if Falsy(id) {
        return false, true;
      }
      if id.value in usedConfirmationIds {
        return true, true;
      }
      if |usedConfirmationIds| >= MAX_IDS {
        usedConfirmationIds := usedConfirmationIds[1..];
      }
      usedConfirmationIds := usedConfirmationIds + [id.value];
      return false, false;
    }

    method ResetAll()
      modifies this
      ensures View() == Step(old(View()), Reset)
    {
      sessionRuns := {};
      usedConfirmationIds := [];
    }
  }

  /******* All histories *******/

  /** The ids accepted since the last reset, all of them, in order. */
  function Accepted(ops: seq<Op>): seq<string> {
    if ops == [] then []
    else
      var before := Accepted(ops[..|ops| - 1]);
      match ops[|ops| - 1]
      case Reset => []
      case Confirm(id) => if Falsy(id) || id.value in Recent(before) then before else before + [id.value]
      case _ => before
  }

  /** The bounded store is a window on the unbounded record. */
  lemma {:induction false} StoreIsWindow(ops: seq<Op>)
    ensures Run(ops).used == Recent(Accepted(ops))
    ensures |Run(ops).used| <= MAX_IDS
  {
    if ops != [] {
      var before := ops[..|ops| - 1];
      StoreIsWindow(before);
      match ops[|ops| - 1]
      case Confirm(id) =>
        if Accepts(Run(before), id) { RecentSnoc(Accepted(before), id.value); }
      case _ =>
    }
  }

  lemma RecentSnoc(ids: seq<string>, id: string)
    ensures Recent(Recent(ids) + [id]) == Recent(ids + [id])
  {
  }

  /** An id accepted twice without a reset in between has at least MAX_IDS other acceptances between the two. */
  lemma {:induction false} ReuseIsFarApart(ops: seq<Op>, i: nat, j: nat)
    requires i < j < |Accepted(ops)| && Accepted(ops)[i] == Accepted(ops)[j]
    ensures j - i > MAX_IDS
  {
    var before := ops[..|ops| - 1];
    var ids := Accepted(before);
    if j < |ids| {
      ReuseIsFarApart(before, i, j);
    } else {
      var id := Accepted(ops)[j];
      assert Accepted(ops) == ids + [id] && id !in Recent(ids);
      assert forall k :: |ids| - |Recent(ids)| <= k < |ids| ==> ids[k] in Recent(ids);
    }
  }

  /** Between two acceptances of one id there are that many pairwise different other ids. */
  lemma ManyOthersBetween(ops: seq<Op>, i: nat, j: nat)
    requires i < j < |Accepted(ops)| && Accepted(ops)[i] == Accepted(ops)[j]
    ensures i + MAX_IDS < j
    ensures forall a, b :: i <= a < b <= i + MAX_IDS ==> Accepted(ops)[a] != Accepted(ops)[b]
  {
    hide Accepted;
    ReuseIsFarApart(ops, i, j);
    forall a, b | i <= a < b <= i + MAX_IDS ensures Accepted(ops)[a] != Accepted(ops)[b] {
      if Accepted(ops)[a] == Accepted(ops)[b] { ReuseIsFarApart(ops, a, b); }
    }
  }

  /** A used id is refused as a replay exactly while fewer than MAX_IDS ids have been accepted after it. */
  lemma ReplayWindow(ops: seq<Op>, id: string, last: nat)
    requires last < |Accepted(ops)| && Accepted(ops)[last] == id
    requires forall k :: last < k < |Accepted(ops)| ==> Accepted(ops)[k] != id
    ensures id in Run(ops).used <==> |Accepted(ops)| - 1 - last < MAX_IDS
  {
    hide Accepted, Run;
    StoreIsWindow(ops);
    var ids := Accepted(ops);
    var off := |ids| - |Recent(ids)|;
    assert forall k :: 0 <= k < |Recent(ids)| ==> Recent(ids)[k] == ids[off + k];
    if last >= off { assert Recent(ids)[last - off] == id; }
  }

  /** An id never accepted since the last reset is never taken for a replay. */
  lemma FreshIsNoReplay(ops: seq<Op>, id: string)
    requires id !in Accepted(ops)
    ensures id !in Run(ops).used
  {
    hide Accepted, Run;
    StoreIsWindow(ops);
  }

  ghost predicate Live(ops: seq<Op>, run: string, k: nat) {
    && k < |ops| && ops[k] == Register(Some(run))
    && forall j :: k < j < |ops| ==> ops[j] != Discard(run) && ops[j] != Reset
  }

  /** A run belongs to the session exactly when its registration was followed by no discard and no reset. */
  lemma {:induction false} SessionRuns(ops: seq<Op>, run: string)
    requires run != ""
    ensures run in Run(ops).runs <==> exists k: nat :: Live(ops, run, k)
  {
    if ops != [] {
      var n := |ops| - 1;
      var before := ops[..n];
      SessionRuns(before, run);
      if run in Run(ops).runs {
        if ops[n] == Register(Some(run)) {
          assert Live(ops, run, n);
        } else {
          var k: nat :| Live(before, run, k);
          assert Live(ops, run, k);
        }
      }
      if exists k: nat :: Live(ops, run, k) {
        var k: nat :| Live(ops, run, k);
        if k < n { assert Live(before, run, k); }
      }
    }
  }

  /** The empty run id is never registered. */
  lemma {:induction false} NoEmptyRun(ops: seq<Op>)
    ensures "" !in Run(ops).runs
  {
    if ops != [] { NoEmptyRun(ops[..|ops| - 1]); }
  }

  /** What one call says and keeps, for every state: the store holds 10,000 ids at most, the oldest going first. */
  lemma VerdictsAre(s: State, id: Option<string>)
    ensures Accepts(s, id) <==> id.Some? && id.value != "" && id.value !in s.used
    ensures !Accepts(s, id) ==> Step(s, Confirm(id)) == s
    ensures Accepts(s, id) ==>
              var t := Step(s, Confirm(id));
              && t.runs == s.runs
              && t.used == if |s.used| < 10_000 then s.used + [id.value] else s.used[|s.used| - 9_999..] + [id.value]
  {
    if Accepts(s, id) && |s.used| >= 10_000 {
      var all := s.used + [id.value];
      assert all[|all| - 10_000..] == s.used[|s.used| - 9_999..] + [id.value];
    }
  }
}
