/** The seat-wait flag line of a worker environment file: reading it and setting it. */
module SeatFlag {
  import opened Base

  const PREFIX := "SEAT_WAIT_WORKFLOW_PRIMITIVE = \""

  /** A whole line holds the key and a quoted 0 or 1; lines end at newlines and at the end of the text only. */
  predicate FlagAt(data: string, i: nat) {
    && i + |PREFIX| + 2 <= |data|
    && (i == 0 || data[i - 1] == '\n')
    && data[i..i + |PREFIX|] == PREFIX
    && (data[i + |PREFIX|] == '0' || data[i + |PREFIX|] == '1')
    && data[i + |PREFIX| + 1] == '"'
    && (i + |PREFIX| + 2 == |data| || data[i + |PREFIX| + 2] == '\n')
  }

  /** All matches of the flag pattern from a position on. */
  function Matches(data: string, from: nat): seq<nat>
    decreases |data| - from
  {
    if from >= |data| then [] else (if FlagAt(data, from) then [from] else []) + Matches(data, from + 1)
  }

  function FlagValue(data: string): Option<string> {
    var ms := Matches(data, 0);
    if '\0' in data || |ms| != 1 || ms[0] + |PREFIX| >= |data| then None else Some([data[ms[0] + |PREFIX|]])
  }

  function Replace(data: string, i: nat, value: string): string
    requires i + |PREFIX| < |data|
  {
    data[..i + |PREFIX|] + value + data[i + |PREFIX| + 1..]
  }

  function SetFlag(data: string, value: string): Option<string> {
    if FlagValue(data).None? then None
    else
      var out := Replace(data, Matches(data, 0)[0], value);
      if FlagValue(out) == Some(value) then Some(out) else None
  }

  /******* One flag line *******/

  ghost predicate OnlyFlagAt(data: string, i: nat) {
    FlagAt(data, i) && forall j: nat :: FlagAt(data, j) ==> j == i
  }

  lemma {:induction false} MatchesAre(data: string, from: nat, i: nat)
    ensures i in Matches(data, from) <==> i >= from && FlagAt(data, i)
    decreases |data| - from
  {
    hide FlagAt;
    if from < |data| {
      MatchesAre(data, from + 1, i);
    } else {
      TooShort(data, i);
    }
  }

  lemma TooShort(data: string, i: nat)
    ensures FlagAt(data, i) ==> i + |PREFIX| + 2 <= |data|
  {
  }

  lemma {:induction false} MatchesAscend(data: string, from: nat, a: nat, b: nat)
    requires a < b < |Matches(data, from)|
    ensures Matches(data, from)[a] < Matches(data, from)[b]
    decreases |data| - from
  {
    hide FlagAt;
    var later := Matches(data, from + 1);
    if FlagAt(data, from) {
      if a > 0 { MatchesAscend(data, from + 1, a - 1, b - 1); } else { MatchesAre(data, from + 1, later[b - 1]); }
    } else {
      MatchesAscend(data, from + 1, a, b);
    }
  }

  /** One match means one flag line. */
  lemma OneMatch(data: string, i: nat)
    ensures Matches(data, 0) == [i] <==> OnlyFlagAt(data, i)
  {
    hide FlagAt, Matches;
    var ms := Matches(data, 0);
    if ms == [i] {
      MatchesAre(data, 0, i);
      forall j: nat | FlagAt(data, j) ensures j == i { MatchesAre(data, 0, j); }
    }
    if OnlyFlagAt(data, i) {
      MatchesAre(data, 0, i);
      forall k | 0 <= k < |ms| ensures ms[k] == i { MatchesAre(data, 0, ms[k]); }
      if |ms| > 1 { MatchesAscend(data, 0, 0, 1); }
      assert |ms| == 1;
    }
  }

  /** A value is read exactly when there is no NUL and just one flag line, and it is the digit on that line. */
  lemma FlagValueIs(data: string, i: nat)
    requires '\0' !in data && OnlyFlagAt(data, i)
    ensures i + |PREFIX| + 2 <= |data| && FlagValue(data) == Some([data[i + |PREFIX|]]) && Matches(data, 0) == [i]
  {
    hide FlagAt, Matches;
    OneMatch(data, i);
    TooShort(data, i);
  }

  lemma FlagValueMeans(data: string) returns (i: nat)
    requires FlagValue(data).Some?
    ensures '\0' !in data && OnlyFlagAt(data, i) && i + |PREFIX| + 2 <= |data| && Matches(data, 0) == [i]
    ensures FlagValue(data) == Some([data[i + |PREFIX|]])
    ensures FlagValue(data) == Some("0") || FlagValue(data) == Some("1")
  {
    i := Matches(data, 0)[0];
    OneMatch(data, i);
    hide Matches;
  }

  /******* Changing the digit moves no flag line *******/

  lemma PrefixHasNoNewline()
    ensures '\n' !in PREFIX && '\0' !in PREFIX && |PREFIX| == 32
  {
  }

  lemma FlagLineHasNoNewline(data: string, i: nat, k: nat)
    requires FlagAt(data, i) && i <= k < i + |PREFIX| + 2
    ensures k < |data| && data[k] != '\n'
  {
    PrefixHasNoNewline();
    if k < i + |PREFIX| { assert data[k] == data[i..i + |PREFIX|][k - i] == PREFIX[k - i]; }
  }

  /** Two flag lines do not overlap. */
  lemma FlagLinesApart(data: string, i: nat, j: nat)
    requires FlagAt(data, i) && FlagAt(data, j) && i < j
    ensures j > i + |PREFIX| + 2
  {
    if j <= i + |PREFIX| + 2 { FlagLineHasNoNewline(data, i, j - 1); }
  }

  predicate Digit(c: char) { c == '0' || c == '1' }

  lemma SameLines(data: string, i: nat, c: char, j: nat)
    requires FlagAt(data, i) && Digit(c)
    ensures FlagAt(data[i + |PREFIX| := c], j) <==> FlagAt(data, j)
  {
    var out := data[i + |PREFIX| := c];
    FlagMoves(data, i, c, j);
    FlagKept(data, i, c);
    assert out[i + |PREFIX| := data[i + |PREFIX|]] == data;
    FlagMoves(out, i, data[i + |PREFIX|], j);
  }

  lemma FlagKept(data: string, i: nat, c: char)
    requires FlagAt(data, i) && Digit(c)
    ensures FlagAt(data[i + |PREFIX| := c], i)
  {
    var out := data[i + |PREFIX| := c];
    assert out[i..i + |PREFIX|] == data[i..i + |PREFIX|];
  }

  lemma FlagMoves(data: string, i: nat, c: char, j: nat)
    requires FlagAt(data, i) && Digit(c)
    ensures FlagAt(data, j) ==> FlagAt(data[i + |PREFIX| := c], j)
  {
    var out := data[i + |PREFIX| := c];
    if FlagAt(data, j) {
      if j == i {
        FlagKept(data, i, c);
      } else {
        if i < j { FlagLinesApart(data, i, j); } else { FlagLinesApart(data, j, i); }
        assert out[j..j + |PREFIX|] == data[j..j + |PREFIX|];
      }
    }
  }

  lemma ReplaceDigit(data: string, i: nat, value: string)
    requires i + |PREFIX| < |data| && |value| == 1
    ensures Replace(data, i, value) == data[i + |PREFIX| := value[0]]
  {
  }

  /******* The lens *******/

  /** Setting succeeds exactly on texts with one flag line and no NUL, for a digit; only that digit changes. */
  lemma SetIs(data: string, i: nat, value: string)
    requires '\0' !in data && OnlyFlagAt(data, i) && (value == "0" || value == "1")
    ensures i + |PREFIX| < |data| && SetFlag(data, value) == Some(data[i + |PREFIX| := value[0]])
    ensures var out := data[i + |PREFIX| := value[0]];
      '\0' !in out && OnlyFlagAt(out, i) && FlagValue(out) == Some(value)
  {
    hide FlagAt, Matches, Replace;
    FlagValueIs(data, i);
    ReplaceDigit(data, i, value);
    var out := data[i + |PREFIX| := value[0]];
    forall j: nat ensures FlagAt(out, j) <==> FlagAt(data, j) { SameLines(data, i, value[0], j); }
    FlagValueIs(out, i);
  }

  lemma SetSucceeds(data: string, value: string)
    ensures SetFlag(data, value).Some? <==> FlagValue(data).Some? && (value == "0" || value == "1")
  {
    hide FlagAt, Matches, Replace;
    if FlagValue(data).Some? && (value == "0" || value == "1") {
      var i := FlagValueMeans(data);
      SetIs(data, i, value);
    }
    if SetFlag(data, value).Some? {
      var _ := FlagValueMeans(SetFlag(data, value).value);
    }
  }

  /** What was set is read, setting what is there changes nothing, and the last write wins. */
  lemma LensLaws(data: string, v: string, w: string)
    requires FlagValue(data).Some? && (v == "0" || v == "1") && (w == "0" || w == "1")
    ensures SetFlag(data, v).Some? && FlagValue(SetFlag(data, v).value) == Some(v)
    ensures FlagValue(data) == Some(v) ==> SetFlag(data, v).value == data
    ensures SetFlag(SetFlag(data, v).value, w) == SetFlag(data, w)
  {
    hide FlagAt, Matches, Replace, SetFlag, OnlyFlagAt, FlagValue;
    var i := FlagValueMeans(data);
    SetIs(data, i, v);
    SetIs(data, i, w);
    SetIs(SetFlag(data, v).value, i, w);
    assert data[i + |PREFIX| := v[0]][i + |PREFIX| := w[0]] == data[i + |PREFIX| := w[0]];
  }

  ghost predicate DiffersAt(a: string, b: string, pos: nat) {
    |a| == |b| && forall k :: 0 <= k < |a| && k != pos ==> a[k] == b[k]
  }

  /** Exactly one byte may differ: the digit of the flag line. */
  lemma OneByteChanges(data: string, value: string)
    requires SetFlag(data, value).Some?
    ensures var out := SetFlag(data, value).value;
      exists i: nat :: OnlyFlagAt(data, i) && OnlyFlagAt(out, i) && DiffersAt(data, out, i + |PREFIX|)
  {
    hide FlagAt, Matches, Replace;
    SetSucceeds(data, value);
    var i := FlagValueMeans(data);
    SetIs(data, i, value);
  }

  /** The flag line written out, with anything but another S around it. */
  lemma FlagReads(a: string, value: string, b: string)
    requires value == "0" || value == "1"
    requires 'S' !in a && 'S' !in b && '\0' !in a && '\0' !in b
    requires (a == "" || a[|a| - 1] == '\n') && (b == "" || b[0] == '\n')
    ensures FlagValue(a + "SEAT_WAIT_WORKFLOW_PRIMITIVE = \"" + value + "\"" + b) == Some(value)
  {
    var line := PREFIX + value + "\"";
    var data := a + line + b;
    assert a + "SEAT_WAIT_WORKFLOW_PRIMITIVE = \"" + value + "\"" + b == data;
    OnlyOneS(a, value, b);
    hide FlagAt, Matches;
    OneMatch(data, |a|);
    assert data[|a| + |PREFIX|] == value[0] && [value[0]] == value;
    NoZero(a, value, b);
  }

  lemma OnlyOneS(a: string, value: string, b: string)
    requires (value == "0" || value == "1") && 'S' !in a && 'S' !in b
    requires (a == "" || a[|a| - 1] == '\n') && (b == "" || b[0] == '\n')
    ensures OnlyFlagAt(a + (PREFIX + value + "\"") + b, |a|)
  {
    var data := a + (PREFIX + value + "\"") + b;
    assert data[|a|..|a| + |PREFIX|] == PREFIX && data[|a| + |PREFIX|] == value[0] && data[|a| + |PREFIX| + 1] == '"';
    forall j: nat | FlagAt(data, j) ensures j == |a| {
      assert data[j] == PREFIX[0] == 'S';
      if j > |a| { NoOtherS(value, b, j - |a|); }
    }
  }

  lemma NoOtherS(value: string, b: string, j: nat)
    requires (value == "0" || value == "1") && 'S' !in b && 0 < j < |PREFIX + value + "\"" + b|
    ensures (PREFIX + value + "\"" + b)[j] != 'S'
  {
    var line := PREFIX + value + "\"";
    assert |PREFIX| == 32;
    if j < |PREFIX| {
      assert (line + b)[j] == PREFIX[j];
      PrefixLetters(j);
    } else if j >= |line| {
      assert (line + b)[j] == b[j - |line|];
    }
  }

  lemma PrefixLetters(j: nat)
    requires 0 < j < |PREFIX|
    ensures PREFIX[j] != 'S'
  {
  }

  lemma NoZero(a: string, value: string, b: string)
    requires (value == "0" || value == "1") && '\0' !in a && '\0' !in b
    ensures '\0' !in a + (PREFIX + value + "\"") + b
  {
    assert '\0' !in PREFIX;
    assert '\0' !in value;
    assert '\0' !in "\"";
  }

  /** With other text on its line, or a third value, it is no flag. */
  lemma FlagWithMore(value: string, c: char, b: string)
    requires 'S' !in b && c != 'S' && c != '\n' && |value| == 1 && value != "S"
    ensures FlagValue("SEAT_WAIT_WORKFLOW_PRIMITIVE = \"" + value + "\"" + [c] + b) == None
  {
    var data := PREFIX + value + "\"" + [c] + b;
    forall j: nat ensures !FlagAt(data, j) {
      if FlagAt(data, j) {
        assert data[j] == PREFIX[0] == 'S';
        assert |PREFIX| == 32;
        if 0 < j < |PREFIX| { assert data[j] == PREFIX[j]; PrefixLetters(j); }
      }
    }
    hide FlagAt, Matches;
    var ms := Matches(data, 0);
    if |ms| == 1 {
      assert ms == [ms[0]];
      OneMatch(data, ms[0]);
    }
  }

  /** A text with a zero byte, or with two flag lines, has no flag. */
  lemma NoFlag(data: string, i: nat, j: nat)
    ensures '\0' in data ==> FlagValue(data) == None
    ensures i < j && FlagAt(data, i) && FlagAt(data, j) ==> FlagValue(data) == None
  {
    hide FlagAt, Matches;
    var ms := Matches(data, 0);
    if i < j && FlagAt(data, i) && FlagAt(data, j) && |ms| == 1 {
      assert ms == [ms[0]];
      OneMatch(data, ms[0]);
      assert false;
    }
  }
}
