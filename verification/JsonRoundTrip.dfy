/** Parsing inverts printing. */
module JsonRoundTrip {
  import opened Base
  import opened Json
  import Utf8

  /******* Strings *******/

  lemma ParseEscapedRune(r: string, rest: string)
    requires Utf8.IsRune(r) && ParseString(rest).Some?
    ensures ParseString(EscapeRune(r) + rest) == Some((r + ParseString(rest).value.0, ParseString(rest).value.1))
  {
    var e := EscapeRune(r);
    var s := e + rest;
    assert s[|e|..] == rest;
    if e == r {
      Utf8.RunePrefix(r, rest);
      assert s[0] == r[0];
      assert |r| == 1 ==> r[0] as int >= 0x20 && r[0] != '\"' && r[0] != '\\';
    } else if |e| == 2 {
      ShortEscape(r, rest);
    } else {
      EscapedUnit(r, rest);
    }
  }

  lemma ShortEscape(r: string, rest: string)
    requires Utf8.IsRune(r) && |EscapeRune(r)| == 2 && EscapeRune(r) != r
    ensures EscapeRune(r)[0] == '\\' && ParseEscape(EscapeRune(r) + rest) == Some((r, 2))
  {
    var s := EscapeRune(r) + rest;
    assert |s| >= 2 && s[1] == EscapeRune(r)[1];
    assert |r| == 1 && r == [r[0]];
  }

  /** The six-byte escapes name the rune's code point. */
  lemma EscapedUnit(r: string, rest: string)
    requires Utf8.IsRune(r) && |EscapeRune(r)| == 6
    ensures ParseEscape(EscapeRune(r) + rest) == Some((r, 6))
  {
    hide ParseEscape;
    if |r| == 1 {
      ControlEscape(r, rest);
    } else {
      SeparatorEscape(r, rest);
    }
  }

  lemma ControlEscape(r: string, rest: string)
    requires Utf8.IsRune(r) && |r| == 1 && |EscapeRune(r)| == 6
    ensures ParseEscape(EscapeRune(r) + rest) == Some((r, 6))
  {
    hide ParseEscape;
    var c := r[0] as int;
    HexOfDigit(c / 16);
    HexOfDigit(c % 16);
    assert EscapeRune(r) == "\\u" + ['0', '0', Hex(c / 16), Hex(c % 16)];
    hide EscapeRune, Hex;
    ParseUnit('0', '0', Hex(c / 16), Hex(c % 16), rest);
    assert Utf8.Encode(c) == [r[0]] == r;
  }

  lemma SeparatorEscape(r: string, rest: string)
    requires Utf8.IsRune(r) && |r| > 1 && |EscapeRune(r)| == 6
    ensures ParseEscape(EscapeRune(r) + rest) == Some((r, 6))
  {
    hide ParseEscape;
    var k := if r == LineSeparator(0) then 0 else 1;
    assert EscapeRune(r) == "\\u" + ['2', '0', '2', if k == 0 then '8' else '9'];
    hide EscapeRune;
    ParseUnit('2', '0', '2', if k == 0 then '8' else '9', rest);
    assert Utf8.Encode3(0x2028 + k) == LineSeparator(k);
  }

  lemma ParseUnit(a: char, b: char, c: char, d: char, rest: string)
    requires HexValue(a) in {Some(0), Some(2)} && HexValue(b) == Some(0) && HexValue(c).Some? && HexValue(d).Some?
    ensures ParseEscape("\\u" + [a, b, c, d] + rest)
            == Some((Utf8.Encode(HexValue(a).value * 0x1000 + HexValue(c).value * 16 + HexValue(d).value), 6))
  {
    hide HexValue, Utf8.Encode;
    var s := "\\u" + [a, b, c, d] + rest;
    assert s[0] == '\\' && s[1] == 'u' && s[2] == a && s[3] == b && s[4] == c && s[5] == d;
    assert Unit(s) == Some(HexValue(a).value * 0x1000 + HexValue(c).value * 16 + HexValue(d).value);
  }

  lemma HexOfDigit(d: nat)
    requires d < 16
    ensures HexValue(Hex(d)) == Some(d)
  {
  }

  /** A written text is read back with U+FFFD for what is no UTF-8. */
  lemma {:induction false} ParseEscaped(s: string, rest: string)
    ensures ParseString(Escape(s) + "\"" + rest) == Some((CleanText(s), rest))
    decreases |s|
  {
    if s == "" {
      ParseClosingQuote(rest);
    } else {
      var n := Utf8.RuneLen(s);
      if n == 0 {
        ParseEscaped(s[1..], rest);
        ParseReplacement(s[1..], rest);
      } else {
        EscapeStep(s);
        ParseEscaped(s[n..], rest);
        ParseEscapedCons(s[..n], s[n..], rest);
      }
      hide ParseString, Escape, EscapeRune, Utf8.RuneLen;
    }
  }

  lemma ParseEscapedCons(r: string, s: string, rest: string)
    requires Utf8.IsRune(r) && ParseString(Escape(s) + "\"" + rest) == Some((CleanText(s), rest))
    ensures ParseString(EscapeRune(r) + Escape(s) + "\"" + rest) == Some((r + CleanText(s), rest))
  {
    hide ParseString, Escape, EscapeRune, CleanText;
    ParseEscapedRune(r, Escape(s) + "\"" + rest);
    assert EscapeRune(r) + Escape(s) + "\"" + rest == EscapeRune(r) + (Escape(s) + "\"" + rest);
  }

  /** The escape written for a stray byte reads as the rune U+FFFD. */
  lemma ParseReplacement(s: string, rest: string)
    requires ParseString(Escape(s) + "\"" + rest) == Some((CleanText(s), rest))
    ensures ParseString("\\ufffd" + Escape(s) + "\"" + rest) == Some((Utf8.REPLACEMENT + CleanText(s), rest))
  {
    hide Escape, CleanText;
    var tail := Escape(s) + "\"" + rest;
    var t := "\\ufffd" + tail;
    assert "\\ufffd" + Escape(s) + "\"" + rest == t;
    ReplacementUnit(tail);
    hide ParseEscape;
    assert t[0] == '\\' && t[6..] == tail;
  }

  lemma ReplacementUnit(tail: string)
    ensures ParseEscape("\\ufffd" + tail) == Some((Utf8.REPLACEMENT, 6))
  {
    var t := "\\ufffd" + tail;
    assert t[0] == '\\' && t[1] == 'u' && t[2] == 'f' && t[3] == 'f' && t[4] == 'f' && t[5] == 'd';
    assert Unit(t) == Some(0xFFFD);
    assert Utf8.Encode3(0xFFFD) == Utf8.REPLACEMENT;
  }

  lemma ParseClosingQuote(rest: string)
    ensures ParseString(Escape("") + "\"" + rest) == Some(("", rest))
  {
    assert Escape("") + "\"" + rest == "\"" + rest;
    assert ("\"" + rest)[1..] == rest;
  }

  lemma EscapeStep(s: string)
    requires s != "" && Utf8.RuneLen(s) > 0
    ensures Utf8.IsRune(s[..Utf8.RuneLen(s)])
    ensures Escape(s) == EscapeRune(s[..Utf8.RuneLen(s)]) + Escape(s[Utf8.RuneLen(s)..])
  {
    Utf8.HeadIsRune(s);
  }

  /******* Values *******/

  /** What may follow a printed value: anything after a closed one, no number char after a number. */
  predicate Delimited(t: Tree, rest: string) {
    t.Num? ==> rest == "" || !NumChar(rest[0])
  }

  lemma {:induction false} NumRunAppend(token: string, rest: string)
    requires forall i :: 0 <= i < |token| ==> NumChar(token[i])
    requires rest == "" || !NumChar(rest[0])
    ensures NumRun(token + rest) == |token|
  {
    if token != "" {
      NumRunAppend(token[1..], rest);
      assert (token + rest)[1..] == token[1..] + rest;
    }
  }

  lemma NumberHead(token: string)
    requires ValidNumber(token)
    ensures token != "" && (token[0] == '-' || '0' <= token[0] <= '9')
  {
    if token != "" && !(token[0] == '-' || '0' <= token[0] <= '9') {
      BadStays(token[1..]);
    }
  }

  lemma {:induction false} BadStays(s: string)
    ensures NumEnd(Bad, s) == Bad
    decreases |s|
  {
    if s != "" { BadStays(s[1..]); }
  }

  /** The first char of printed text fixes which branch the parser takes. */
  lemma PrintHead(t: Tree)
    requires Numeric(t)
    ensures Print(t) != "" && !IsSpace(Print(t)[0]) && Print(t)[0] !in {']', '}', ',', ':'}
    ensures t.Num? ==> Print(t)[0] !in {'n', 't', 'f', '\"', '[', '{'}
  {
    if t.Num? { NumberHead(t.token); }
  }

  /** The round trip of one value, in front of any continuation. */
  lemma {:induction false} ParsePrint(t: Tree, rest: string)
    requires Numeric(t) && Delimited(t, rest)
    ensures ParseValue(Print(t) + rest) == Some((CleanTree(t), rest))
    decreases t, 1
  {
    match t
    case Num(token) => ParsePrintNumber(token, rest);
    case Str(str) => ParsePrintString(str, rest);
    case Arr(items) =>
      if items != [] { ParsePrintItems(items, rest); }
      ParsePrintArr(items, rest);
    case Obj(members) =>
      if members != [] { ParsePrintMembers(members, rest); }
      ParsePrintObj(members, rest);
    case _ => ParsePrintWord(t, rest);
  }

  lemma ParsePrintWord(t: Tree, rest: string)
    requires t.Null? || t.Bool?
    ensures ParseValue(Print(t) + rest) == Some((t, rest))
  {
    var s := Print(t) + rest;
    assert s[|Print(t)|..] == rest;
    assert Print(t) <= s;
    assert s[0] == Print(t)[0] && SkipSpace(s) == s;
  }

  lemma ParsePrintNumber(token: string, rest: string)
    requires ValidNumber(token) && Delimited(Num(token), rest)
    ensures ParseValue(Print(Num(token)) + rest) == Some((Num(token), rest))
  {
    PrintHead(Num(token));
    var s := token + rest;
    assert s[0] == token[0] && SkipSpace(s) == s;
    NumRunAppend(token, rest);
    assert s[..|token|] == token && s[|token|..] == rest;
    hide NumRun, ValidNumber, NumEnd;
  }

  lemma ParsePrintString(str: string, rest: string)
    ensures ParseValue(Print(Str(str)) + rest) == Some((Str(CleanText(str)), rest))
  {
    hide ParseString, Escape, ParseValue, CleanText;
    ParseEscaped(str, rest);
    ValueStep('\"', Escape(str) + "\"" + rest);
    assert Print(Str(str)) + rest == "\"" + (Escape(str) + "\"" + rest);
  }

  /** One step of the parser on an opening char. */
  lemma ValueStep(c: char, s: string)
    requires c in {'\"', '[', '{'}
    ensures ParseValue([c] + s) == if c == '\"' then ParseStr(s) else if c == '[' then ParseArr(s) else ParseObj(s)
  {
    hide ParseStr, ParseArr, ParseObj, ParseNumber, ParseLiteral;
    var t := [c] + s;
    assert SkipSpace(t) == t && t[1..] == s;
  }

  lemma ParsePrintArr(items: seq<Tree>, rest: string)
    requires Numeric(Arr(items))
    requires items != [] ==> ParseItems(PrintItems(items) + rest) == Some((CleanItems(items), rest))
    ensures ParseValue(Print(Arr(items)) + rest) == Some((Arr(CleanItems(items)), rest))
  {
    if items != [] { ItemsHead(items); }
    hide ParseValue, ParseItems, PrintItems, Numeric, CleanItems;
    var u := if items == [] then "]" + rest else PrintItems(items) + rest;
    assert Print(Arr(items)) + rest == "[" + u;
    ValueStep('[', u);
    if items == [] {
      assert u[1..] == rest;
    } else {
      assert u[0] == PrintItems(items)[0] && SkipSpace(u) == u;
    }
  }

  lemma ItemsHead(items: seq<Tree>)
    requires items != [] && Numeric(items[0])
    ensures PrintItems(items) != "" && !IsSpace(PrintItems(items)[0]) && PrintItems(items)[0] != ']'
  {
    PrintHead(items[0]);
    hide Print;
  }

  lemma ParsePrintObj(members: seq<Member>, rest: string)
    requires members != [] ==> ParseMembers(PrintMembers(members) + rest) == Some((CleanMembers(members), rest))
    ensures ParseValue(Print(Obj(members)) + rest) == Some((Obj(CleanMembers(members)), rest))
  {
    if members != [] { MembersHead(members); }
    hide ParseValue, ParseMembers, PrintMembers, CleanMembers;
    var u := if members == [] then "}" + rest else PrintMembers(members) + rest;
    assert Print(Obj(members)) + rest == "{" + u;
    ValueStep('{', u);
    if members == [] {
      assert u[1..] == rest;
    } else {
      assert u[0] == PrintMembers(members)[0] && SkipSpace(u) == u;
    }
  }

  lemma MembersHead(members: seq<Member>)
    requires members != []
    ensures PrintMembers(members) != "" && PrintMembers(members)[0] == '\"'
  {
    hide Print, Escape;
    assert PrintMember(members[0])[0] == '\"';
  }

  /** A closing char is read off right after the value it closes. */
  lemma CloseStep(rest: string, c: char)
    requires c in {']', '}', ',', ':'}
    ensures SkipSpace([c] + rest) == [c] + rest && ([c] + rest)[1..] == rest
  {
  }

  lemma {:induction false} ParsePrintItems(items: seq<Tree>, rest: string)
    requires items != [] && forall i :: 0 <= i < |items| ==> Numeric(items[i])
    ensures ParseItems(PrintItems(items) + rest) == Some((CleanItems(items), rest))
    decreases items, 0
  {
    hide ParseValue, ParseItems, Print;
    var next := if |items| == 1 then rest else PrintItems(items[1..]) + rest;
    var c := if |items| == 1 then ']' else ',';
    assert PrintItems(items) + rest == Print(items[0]) + ([c] + next);
    ParsePrint(items[0], [c] + next);
    ItemsStep(Print(items[0]) + ([c] + next), CleanTree(items[0]), c, next);
    if |items| == 1 {
      assert CleanItems(items) == [CleanTree(items[0])];
    } else {
      ParsePrintItems(items[1..], rest);
    }
  }

  lemma ItemsStep(s: string, v: Tree, c: char, next: string)
    requires c in {']', ','} && ParseValue(s) == Some((v, [c] + next))
    ensures c == ']' ==> ParseItems(s) == Some(([v], next))
    ensures c == ',' && ParseItems(next).Some? ==>
              ParseItems(s) == Some(([v] + ParseItems(next).value.0, ParseItems(next).value.1))
  {
    hide ParseValue;
    CloseStep(next, c);
  }

  lemma {:induction false} ParsePrintMember(m: Member, rest: string)
    requires Numeric(m.value) && rest != "" && !NumChar(rest[0])
    ensures ParseMember(PrintMember(m) + rest) == Some((CleanMember(m), rest))
    decreases m, 0
  {
    hide Escape, Print, ParseString, ParseValue, Numeric, CleanText, CleanTree;
    var afterColon := Print(m.value) + rest;
    var afterKey := ":" + afterColon;
    ParsePrint(m.value, rest);
    ParseEscaped(m.key, afterKey);
    CloseStep(afterColon, ':');
    var s := PrintMember(m) + rest;
    assert s[0] == '\"' && SkipSpace(s) == s;
    assert s[1..] == Escape(m.key) + "\"" + afterKey;
  }

  lemma {:induction false} ParsePrintMembers(members: seq<Member>, rest: string)
    requires members != []
    requires forall i :: 0 <= i < |members| ==> Numeric(members[i].value)
    ensures ParseMembers(PrintMembers(members) + rest) == Some((CleanMembers(members), rest))
    decreases members, 0
  {
    hide ParseMember, ParseMembers, PrintMember, CleanMember;
    var next := if |members| == 1 then rest else PrintMembers(members[1..]) + rest;
    var c := if |members| == 1 then '}' else ',';
    assert PrintMembers(members) + rest == PrintMember(members[0]) + ([c] + next);
    ParsePrintMember(members[0], [c] + next);
    MembersStep(PrintMember(members[0]) + ([c] + next), CleanMember(members[0]), c, next);
    if |members| == 1 {
      assert CleanMembers(members) == [CleanMember(members[0])];
    } else {
      ParsePrintMembers(members[1..], rest);
    }
  }

  lemma MembersStep(s: string, m: Member, c: char, next: string)
    requires c in {'}', ','} && ParseMember(s) == Some((m, [c] + next))
    ensures c == '}' ==> ParseMembers(s) == Some(([m], next))
    ensures c == ',' && ParseMembers(next).Some? ==>
              ParseMembers(s) == Some(([m] + ParseMembers(next).value.0, ParseMembers(next).value.1))
  {
    hide ParseMember;
    CloseStep(next, c);
  }

  /** Whatever the strings hold, a printed document parses back to the tree with U+FFFD for what is no UTF-8. */
  lemma ParseClean(t: Tree)
    requires Numeric(t)
    ensures Parse(Print(t)) == Some(CleanTree(t))
  {
    ParsePrint(t, "");
    assert Print(t) + "" == Print(t);
  }

  lemma {:induction false} CleanValidText(s: string)
    ensures Utf8.Valid(CleanText(s))
    ensures Utf8.Valid(s) ==> CleanText(s) == s
    decreases |s|
  {
    hide Utf8.RuneLen;
    if s != "" {
      var n := Utf8.RuneLen(s);
      var m := if n == 0 then 1 else n;
      CleanValidText(s[m..]);
      if n > 0 { Utf8.HeadIsRune(s); } else { ReplacementStays(); }
      Utf8.ValidCons(if n == 0 then Utf8.REPLACEMENT else s[..n], CleanText(s[m..]));
      assert s == s[..m] + s[m..];
    }
  }

  /** Printable trees are numeric and clean already. */
  lemma {:induction false} CleanPrintable(t: Tree)
    requires Printable(t)
    ensures Numeric(t) && CleanTree(t) == t
    decreases t
  {
    match t
    case Str(s) => CleanValidText(s);
    case Arr(items) =>
      forall i | 0 <= i < |items| ensures Numeric(items[i]) && CleanTree(items[i]) == items[i] {
        CleanPrintable(items[i]);
      }
      assert CleanItems(items) == items;
    case Obj(members) =>
      forall i | 0 <= i < |members| ensures Numeric(members[i].value) && CleanMember(members[i]) == members[i] {
        CleanPrintable(members[i].value);
        CleanValidText(members[i].key);
      }
      assert CleanMembers(members) == members;
    case _ =>
  }

  lemma {:induction false} CleanIsText(t: Tree)
    ensures TextValid(CleanTree(t))
    decreases t
  {
    match t
    case Str(s) => CleanValidText(s);
    case Arr(items) =>
      forall i | 0 <= i < |items| ensures TextValid(CleanTree(items[i])) { CleanIsText(items[i]); }
    case Obj(members) =>
      forall i | 0 <= i < |members|
        ensures Utf8.Valid(CleanMember(members[i]).key) && TextValid(CleanMember(members[i]).value)
      {
        CleanIsText(members[i].value);
        CleanValidText(members[i].key);
      }
    case _ =>
  }

  lemma {:induction false} PrintableIs(t: Tree)
    ensures Printable(t) <==> TextValid(t) && Numeric(t)
    decreases t
  {
    match t
    case Arr(items) =>
      forall i | 0 <= i < |items| ensures Printable(items[i]) <==> TextValid(items[i]) && Numeric(items[i]) {
        PrintableIs(items[i]);
      }
    case Obj(members) =>
      forall i | 0 <= i < |members|
        ensures Printable(members[i].value) <==> TextValid(members[i].value) && Numeric(members[i].value)
      {
        PrintableIs(members[i].value);
      }
    case _ =>
  }

  /** Printing loses nothing: a document parses back to the tree it was printed from. */
  lemma RoundTrip(t: Tree)
    requires Printable(t)
    ensures Parse(Print(t)) == Some(t)
  {
    hide Parse, Print, Printable, Numeric, CleanTree;
    CleanPrintable(t);
    ParseClean(t);
  }

  /** Hence different trees print differently. */
  lemma PrintInjective(t: Tree, u: Tree)
    requires Printable(t) && Printable(u) && Print(t) == Print(u)
    ensures t == u
  {
    RoundTrip(t);
    RoundTrip(u);
  }

  /******* Stray bytes cost three bytes each *******/

  /** Cleaning shortens what is written for a text exactly when the text is no UTF-8. */
  lemma {:induction false} EscapeShrinks(s: string)
    ensures |Escape(CleanText(s))| <= |Escape(s)|
    ensures |Escape(CleanText(s))| == |Escape(s)| <==> Utf8.Valid(s)
    decreases |s|
  {
    if s != "" {
      var n := Utf8.RuneLen(s);
      var m := if n == 0 then 1 else n;
      EscapeShrinks(s[m..]);
      if n > 0 {
        EscapeStep(s);
        EscapeCons(s[..n], CleanText(s[n..]));
      } else {
        EscapeCons(Utf8.REPLACEMENT, CleanText(s[1..]));
        ReplacementStays();
      }
      hide EscapeRune, Utf8.RuneLen;
    }
  }

  lemma EscapeCons(r: string, s: string)
    requires Utf8.IsRune(r)
    ensures Escape(r + s) == EscapeRune(r) + Escape(s)
  {
    Utf8.RunePrefix(r, s);
    EscapeStep(r + s);
    hide Escape, EscapeRune, Utf8.RuneLen;
  }

  lemma ReplacementStays()
    ensures Utf8.IsRune(Utf8.REPLACEMENT) && EscapeRune(Utf8.REPLACEMENT) == Utf8.REPLACEMENT
  {
    assert Utf8.REPLACEMENT[0] as int == 0xEF;
  }

  /** The same for whole trees. */
  lemma {:induction false} PrintShrinks(t: Tree)
    requires Numeric(t)
    ensures |Print(CleanTree(t))| <= |Print(t)|
    ensures |Print(CleanTree(t))| == |Print(t)| ==> Printable(t)
    decreases t, 1
  {
    match t
    case Str(s) => EscapeShrinks(s);
    case Arr(items) => if items != [] { PrintItemsShrink(items); }
    case Obj(members) => if members != [] { PrintMembersShrink(members); }
    case _ =>
  }

  lemma {:induction false} PrintItemsShrink(items: seq<Tree>)
    requires items != [] && forall i :: 0 <= i < |items| ==> Numeric(items[i])
    ensures |PrintItems(CleanItems(items))| <= |PrintItems(items)|
    ensures |PrintItems(CleanItems(items))| == |PrintItems(items)| ==>
              forall i :: 0 <= i < |items| ==> Printable(items[i])
    decreases items, 0
  {
    hide Print, CleanTree, Printable;
    PrintShrinks(items[0]);
    var cleaned := CleanItems(items);
    assert cleaned[1..] == CleanItems(items[1..]);
    if |items| > 1 {
      PrintItemsShrink(items[1..]);
      assert forall i :: 0 < i < |items| ==> items[i] == items[1..][i - 1];
    }
  }

  lemma {:induction false} PrintMembersShrink(members: seq<Member>)
    requires members != [] && forall i :: 0 <= i < |members| ==> Numeric(members[i].value)
    ensures |PrintMembers(CleanMembers(members))| <= |PrintMembers(members)|
    ensures |PrintMembers(CleanMembers(members))| == |PrintMembers(members)| ==>
              forall i :: 0 <= i < |members| ==> Utf8.Valid(members[i].key) && Printable(members[i].value)
    decreases members, 0
  {
    hide Print, CleanTree, Printable, Escape, CleanText, Utf8.Valid;
    EscapeShrinks(members[0].key);
    PrintShrinks(members[0].value);
    var cleaned := CleanMembers(members);
    assert cleaned[1..] == CleanMembers(members[1..]);
    if |members| > 1 {
      PrintMembersShrink(members[1..]);
      assert forall i :: 0 < i < |members| ==> members[i] == members[1..][i - 1];
    }
  }
}
