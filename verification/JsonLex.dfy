/**
 Strings and brackets alone already tell that a torn line with a whole line behind it is no document. A small
 automaton over the bytes follows the parser: it ends exactly one bracket level up wherever a value was read.
 */
module JsonLex {
  import opened Json
  import opened JsonRoundTrip
  import Utf8

  /** Outside a string, inside one, behind a backslash, right behind a string or bracket; all at some bracket depth. */
  datatype Lex = Out(d: nat) | In(d: nat) | Esc(d: nat) | After(d: nat) | End | Dead

  function Closed(d: nat): Lex { if d == 0 then Dead else if d == 1 then End else After(d - 1) }

  function LexStep(st: Lex, c: char): Lex {
    match st
    case Out(d) =>
      if c == '\"' then In(d)
      else if c == '{' || c == '[' then Out(d + 1)
      else if c == '}' || c == ']' then Closed(d)
      else st
    case In(d) => if c == '\"' then After(d) else if c == '\\' then Esc(d) else st
    case Esc(d) => In(d)
    case After(d) =>
      if IsSpace(c) then st
      else if c == ',' || c == ':' then Out(d)
      else if c == '}' || c == ']' then Closed(d)
      else Dead
    case End => if IsSpace(c) then End else Dead
    case Dead => Dead
  }

  function LexRun(st: Lex, s: string): Lex
    decreases |s|
  {
    if s == "" then st else LexRun(LexStep(st, s[0]), s[1..])
  }

  lemma {:induction false} LexConcat(st: Lex, a: string, b: string)
    ensures LexRun(st, a + b) == LexRun(LexRun(st, a), b)
    decreases |a|
  {
    hide LexStep;
    if a == "" {
      assert a + b == b;
    } else {
      LexConcat(LexStep(st, a[0]), a[1..], b);
      assert (a + b)[1..] == a[1..] + b;
    }
  }

  /** Several bytes that each leave the state alone. */
  lemma {:induction false} LexIdle(st: Lex, s: string, n: nat)
    requires n <= |s| && forall i :: 0 <= i < n ==> LexStep(st, s[i]) == st
    ensures LexRun(st, s) == LexRun(st, s[n..])
    decreases n
  {
    hide LexStep;
    if n > 0 {
      LexIdle(st, s[1..], n - 1);
      assert s[1..][n - 1..] == s[n..];
    }
  }

  lemma {:induction false} LexSpace(st: Lex, s: string)
    requires st.Out? || st.After? || st.End?
    ensures LexRun(st, s) == LexRun(st, SkipSpace(s))
    decreases |s|
  {
    if s != "" && IsSpace(s[0]) { LexSpace(st, s[1..]); }
  }

  lemma {:induction false} LexDead(s: string)
    ensures LexRun(Dead, s) == Dead
    decreases |s|
  {
    if s != "" { LexDead(s[1..]); }
  }

  /******* The automaton follows the parser *******/

  lemma LexEscape(d: nat, s: string)
    requires s != "" && s[0] == '\\' && ParseEscape(s).Some?
    ensures LexRun(In(d), s) == LexRun(In(d), s[ParseEscape(s).value.1..])
  {
    hide LexRun, ParseUnicode;
    BackslashPair(d, s);
    if s[1] == 'u' { LexUnicode(d, s); }
  }

  lemma BackslashPair(d: nat, s: string)
    requires |s| >= 2 && s[0] == '\\'
    ensures LexRun(In(d), s) == LexRun(In(d), s[2..])
  {
    assert LexRun(In(d), s) == LexRun(Esc(d), s[1..]) == LexRun(In(d), s[1..][1..]);
    assert s[1..][1..] == s[2..];
  }

  /** Hex digits are no quotes. */
  lemma LexUnit(d: nat, s: string)
    requires Unit(s).Some?
    ensures LexRun(In(d), s[2..]) == LexRun(In(d), s[6..])
  {
    LexIdle(In(d), s[2..], 4);
    assert s[2..][4..] == s[6..];
  }

  lemma LexUnicode(d: nat, s: string)
    requires ParseUnicode(s).Some?
    ensures LexRun(In(d), s[2..]) == LexRun(In(d), s[ParseUnicode(s).value.1..])
  {
    hide Utf8.Encode, LexRun;
    LexUnit(d, s);
    if ParseUnicode(s).value.1 == 12 {
      var t := s[6..];
      LexUnit(d, t);
      assert t[6..] == s[12..];
      BackslashPair(d, t);
    }
  }

  lemma {:induction false} LexString(d: nat, s: string)
    requires ParseString(s).Some?
    ensures LexRun(In(d), s) == LexRun(After(d), ParseString(s).value.1)
    decreases |s|
  {
    hide ParseEscape;
    if s[0] == '\"' {
    } else if s[0] == '\\' {
      var n := ParseEscape(s).value.1;
      LexEscape(d, s);
      LexString(d, s[n..]);
    } else {
      var n := Utf8.RuneLen(s);
      var m := if n == 0 then 1 else n;
      TailBytes(s, m);
      hide Utf8.RuneLen;
      LexIdle(In(d), s, m);
      LexString(d, s[m..]);
    }
  }

  /** The bytes of a rune behind its first are no quotes and no backslashes. */
  lemma TailBytes(s: string, m: nat)
    requires s != "" && s[0] != '\"' && s[0] != '\\' && m == if Utf8.RuneLen(s) == 0 then 1 else Utf8.RuneLen(s)
    ensures forall i :: 0 <= i < m ==> s[i] != '\"' && s[i] != '\\'
  {
  }

  lemma LexNumber(d: nat, s: string)
    requires ParseNumber(s).Some?
    ensures LexRun(Out(d), s) == LexRun(Out(d), ParseNumber(s).value.1)
  {
    hide ValidNumber;
    LexIdle(Out(d), s, NumRun(s));
  }

  lemma LexLiteral(d: nat, s: string, word: string, t: Tree)
    requires word in {"null", "true", "false"} && ParseLiteral(s, word, t).Some?
    ensures LexRun(Out(d), s) == LexRun(Out(d), ParseLiteral(s, word, t).value.1)
  {
    assert forall i :: 0 <= i < |word| ==> 'a' <= word[i] <= 'z' && s[i] == word[i];
    LexIdle(Out(d), s, |word|);
  }

  /** Behind a value the automaton is where it was, or right behind a string or bracket. */
  lemma {:induction false} LexValue(d: nat, s: string)
    requires d > 0 && ParseValue(s).Some?
    ensures var rest := ParseValue(s).value.1;
      LexRun(Out(d), s) == LexRun(Out(d), rest) || LexRun(Out(d), s) == LexRun(After(d), rest)
    decreases |s|, 0
  {
    var t := SkipSpace(s);
    LexSpace(Out(d), s);
    match t[0]
    case 'n' => LexLiteral(d, t, "null", Null);
    case 't' => LexLiteral(d, t, "true", Bool(true));
    case 'f' => LexLiteral(d, t, "false", Bool(false));
    case '\"' => LexString(d, t[1..]);
    case '[' => LexArr(d + 1, t[1..]);
    case '{' => LexObj(d + 1, t[1..]);
    case _ => LexNumber(d, t);
    hide ParseLiteral, ParseString, ParseArr, ParseObj, ParseNumber;
  }

  lemma {:induction false} LexArr(d: nat, s: string)
    requires d > 0 && ParseArr(s).Some?
    ensures LexRun(Out(d), s) == LexRun(Closed(d), ParseArr(s).value.1)
    decreases |s|, 2
  {
    var u := SkipSpace(s);
    LexSpace(Out(d), s);
    if u != "" && u[0] != ']' { LexItems(d, u); }
    hide ParseItems;
  }

  lemma {:induction false} LexObj(d: nat, s: string)
    requires d > 0 && ParseObj(s).Some?
    ensures LexRun(Out(d), s) == LexRun(Closed(d), ParseObj(s).value.1)
    decreases |s|, 2
  {
    var u := SkipSpace(s);
    LexSpace(Out(d), s);
    if u != "" && u[0] != '}' { LexMembers(d, u); }
    hide ParseMembers;
  }

  lemma {:induction false} LexItems(d: nat, s: string)
    requires d > 0 && ParseItems(s).Some?
    ensures LexRun(Out(d), s) == LexRun(Closed(d), ParseItems(s).value.1)
    decreases |s|, 1
  {
    LexValue(d, s);
    var rest := ParseValue(s).value.1;
    var u := SkipSpace(rest);
    LexSpace(Out(d), rest);
    LexSpace(After(d), rest);
    if u[0] == ',' { LexItems(d, u[1..]); }
    hide ParseValue;
  }

  lemma {:induction false} LexMember(d: nat, s: string)
    requires d > 0 && ParseMember(s).Some?
    ensures var rest := ParseMember(s).value.1;
      LexRun(Out(d), s) == LexRun(Out(d), rest) || LexRun(Out(d), s) == LexRun(After(d), rest)
    decreases |s|, 0
  {
    hide ParseString, ParseValue;
    var t := SkipSpace(s);
    LexSpace(Out(d), s);
    LexString(d, t[1..]);
    var rest := ParseString(t[1..]).value.1;
    var u := SkipSpace(rest);
    LexSpace(After(d), rest);
    LexValue(d, u[1..]);
  }

  lemma {:induction false} LexMembers(d: nat, s: string)
    requires d > 0 && ParseMembers(s).Some?
    ensures LexRun(Out(d), s) == LexRun(Closed(d), ParseMembers(s).value.1)
    decreases |s|, 1
  {
    LexMember(d, s);
    var rest := ParseMember(s).value.1;
    var u := SkipSpace(rest);
    LexSpace(Out(d), rest);
    LexSpace(After(d), rest);
    if u[0] == ',' { LexMembers(d, u[1..]); }
    hide ParseMember;
  }

  /******* A torn line and a whole one *******/

  /** A document that is an object brings the automaton to its end. */
  lemma LexDocument(s: string)
    requires s != "" && s[0] == '{' && Parse(s).Some?
    ensures LexRun(Out(0), s) == End
  {
    hide ParseObj;
    assert SkipSpace(s) == s;
    LexObj(1, s[1..]);
    var rest := ParseValue(s).value.1;
    LexSpace(End, rest);
  }

  /** From deeper levels the same text leads back to that level. */
  lemma LexNested(d: nat, members: seq<Member>)
    requires d > 0 && Numeric(Obj(members))
    ensures LexRun(Out(d), Print(Obj(members))) == After(d)
  {
    hide ParseObj, Print, Numeric, CleanTree;
    var s := Print(Obj(members));
    ParsePrint(Obj(members), "");
    assert s + "" == s;
    ObjectStart(members);
    assert SkipSpace(s) == s;
    LexObj(d + 1, s[1..]);
  }

  lemma ObjectStart(members: seq<Member>)
    ensures Print(Obj(members)) != "" && Print(Obj(members))[0] == '{'
  {
    hide PrintMembers;
  }

  lemma {:induction false} MembersTail(members: seq<Member>)
    requires members != []
    ensures PrintMembers(members) != "" && PrintMembers(members)[|PrintMembers(members)| - 1] == '}'
    decreases |members|
  {
    hide PrintMember;
    if |members| > 1 { MembersTail(members[1..]); }
  }

  lemma ObjectTail(members: seq<Member>)
    ensures Print(Obj(members)) != "" && Print(Obj(members))[|Print(Obj(members))| - 1] == '}'
  {
    if members != [] { MembersTail(members); }
    hide PrintMembers;
  }

  ghost predicate Deep(st: Lex) { st.End? || st.Dead? || st.d > 0 }

  lemma {:induction false} StaysDeep(st: Lex, s: string)
    requires Deep(st)
    ensures Deep(LexRun(st, s))
    decreases |s|
  {
    if s != "" { StaysDeep(LexStep(st, s[0]), s[1..]); }
  }

  /** Behind the end only white space leaves the automaton at its end. */
  lemma {:induction false} EndIsEnd(s: string)
    requires LexRun(End, s) == End
    ensures forall i :: 0 <= i < |s| ==> IsSpace(s[i])
    decreases |s|
  {
    if s != "" {
      LexDead(s[1..]);
      EndIsEnd(s[1..]);
      assert forall i :: 0 < i < |s| ==> s[i] == s[1..][i - 1];
    }
  }

  /** Strictly inside a printed object the automaton is at some level, neither dead nor done. */
  lemma TornState(members: seq<Member>, k: nat)
    requires Numeric(Obj(members)) && 0 < k < |Print(Obj(members))|
    ensures var st := LexRun(Out(0), Print(Obj(members))[..k]); !st.End? && !st.Dead? && st.d > 0
  {
    hide Print, Numeric, LexRun, LexStep;
    var s := Print(Obj(members));
    ParseClean(Obj(members));
    ObjectStart(members);
    ObjectTail(members);
    LexDocument(s);
    var p, q := s[..k], s[k..];
    assert s == p + q;
    LexConcat(Out(0), p, q);
    var st := LexRun(Out(0), p);
    DeepInside(p);
    LexDead(q);
    assert q[|q| - 1] == '}';
    if st.End? { EndIsEnd(q); }
  }

  lemma DeepInside(p: string)
    requires p != "" && p[0] == '{'
    ensures Deep(LexRun(Out(0), p))
  {
    StaysDeep(Out(1), p[1..]);
  }

  /** A line torn anywhere inside, with a whole line behind it whose first key begins with s, is no document. */
  lemma TornMerged(torn: seq<Member>, k: nat, whole: seq<Member>)
    requires Numeric(Obj(torn)) && 0 < k < |Print(Obj(torn))| && Numeric(Obj(whole))
    requires "{\"s" <= Print(Obj(whole))
    ensures Parse(Print(Obj(torn))[..k] + Print(Obj(whole))).None?
  {
    hide Print, Numeric, Parse, LexRun;
    var p, q := Print(Obj(torn))[..k], Print(Obj(whole));
    ObjectStart(torn);
    TornState(torn, k);
    var st := LexRun(Out(0), p);
    LexConcat(Out(0), p, q);
    NotTheEnd(st, whole);
    if Parse(p + q).Some? {
      assert (p + q)[0] == '{';
      LexDocument(p + q);
    }
  }

  lemma NotTheEnd(st: Lex, whole: seq<Member>)
    requires !st.End? && !st.Dead? && st.d > 0 && Numeric(Obj(whole)) && "{\"s" <= Print(Obj(whole))
    ensures LexRun(st, Print(Obj(whole))) != End
  {
    hide Print, Numeric, LexRun;
    var q := Print(Obj(whole));
    if st.Out? {
      LexNested(st.d, whole);
    } else {
      assert q[0] == "{\"s"[0] && q[1] == "{\"s"[1] && q[2] == "{\"s"[2];
      assert LexStep(LexStep(LexStep(st, '{'), '\"'), 's') == Dead;
      ThreeSteps(st, q);
      LexDead(q[3..]);
    }
  }

  lemma ThreeSteps(st: Lex, q: string)
    requires |q| >= 3
    ensures LexRun(st, q) == LexRun(LexStep(LexStep(LexStep(st, q[0]), q[1]), q[2]), q[3..])
  {
    hide LexStep;
    var a := LexStep(st, q[0]);
    var b := LexStep(a, q[1]);
    assert q[1..][1..] == q[2..] && q[2..][1..] == q[3..];
    assert LexRun(st, q) == LexRun(a, q[1..]) == LexRun(b, q[2..]);
  }
}
