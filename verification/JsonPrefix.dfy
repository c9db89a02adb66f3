/**
 Reading more text never changes a value that was already complete, so no strict prefix of a printed
 object is a document; and whatever the parser returns could be printed.
 */
module JsonPrefix {
  import opened Base
  import opened Json
  import opened JsonRoundTrip
  import Utf8

  /******* Strings *******/

  lemma {:induction false} SkipSpaceExtends(s: string, q: string)
    requires SkipSpace(s) != ""
    ensures SkipSpace(s + q) == SkipSpace(s) + q
    decreases |s|
  {
    if s != "" && IsSpace(s[0]) {
      SkipSpaceExtends(s[1..], q);
      assert (s + q)[1..] == s[1..] + q;
    }
  }

  lemma UnitExtends(s: string, q: string)
    requires |s| >= 6
    ensures Unit(s + q) == Unit(s)
  {
    hide HexValue;
    forall i | 0 <= i < 6 ensures (s + q)[i] == s[i] {}
  }

  /** A string body that closes does not start with a cut-off escape. */
  lemma NoUnitEscape(t: string)
    requires t != "" && t[0] == '\\' && |t| < 6 && ParseEscape(t).Some?
    ensures |t| >= 2 && t[1] != 'u'
  {
    hide ParseUnicode, Utf8.IsRune;
  }

  lemma CutOffUnit(t: string, q: string)
    requires ParseString(t).Some? && |t| < 6
    ensures Unit(t).None? && Unit(t + q).None?
  {
    hide HexValue, ParseEscape, Utf8.RuneLen, Utf8.IsRune;
    assert (t + q)[0] == t[0];
    if t[0] == '\\' {
      NoUnitEscape(t);
      assert (t + q)[1] == t[1];
    }
  }

  lemma ParseEscapeExtends(s: string, q: string)
    requires s != "" && s[0] == '\\' && ParseEscape(s).Some?
    requires ParseString(s[ParseEscape(s).value.1..]).Some?
    ensures ParseEscape(s + q) == ParseEscape(s)
  {
    hide ParseString, ParseUnicode;
    assert (s + q)[0] == s[0] && (s + q)[1] == s[1];
    if s[1] == 'u' { ParseUnicodeExtends(s, q); }
  }

  lemma ParseUnicodeExtends(s: string, q: string)
    requires ParseUnicode(s).Some? && ParseString(s[ParseUnicode(s).value.1..]).Some?
    ensures ParseUnicode(s + q) == ParseUnicode(s)
  {
    hide ParseString, Utf8.Encode, Unit;
    UnitExtends(s, q);
    assert (s + q)[6..] == s[6..] + q;
    if |s[6..]| >= 6 {
      UnitExtends(s[6..], q);
    } else if ParseUnicode(s).value.1 == 6 {
      CutOffUnit(s[6..], q);
    }
  }

  lemma {:induction false} TailsDoNotClose(t: string)
    requires forall i :: 0 <= i < |t| ==> Utf8.Tail(t[i])
    ensures ParseString(t).None?
    decreases |t|
  {
    if t != "" { TailsDoNotClose(t[1..]); }
  }

  /** If more bytes turn a non-rune into a rune, the bytes at hand after the first are continuation bytes. */
  lemma CutRune(s: string, q: string)
    requires s != "" && Utf8.RuneLen(s) == 0 && Utf8.RuneLen(s + q) > 0
    ensures forall i :: 0 <= i < |s[1..]| ==> Utf8.Tail(s[1..][i])
  {
    forall i | 0 <= i < |s| ensures (s + q)[i] == s[i] {}
  }

  lemma BadRuneExtends(s: string, q: string)
    requires s != "" && Utf8.RuneLen(s) == 0 && ParseString(s[1..]).Some?
    ensures Utf8.RuneLen(s + q) == 0
  {
    hide ParseString, Utf8.RuneLen;
    if Utf8.RuneLen(s + q) > 0 {
      CutRune(s, q);
      TailsDoNotClose(s[1..]);
    }
  }

  lemma {:induction false} ParseStringExtends(s: string, q: string)
    requires ParseString(s).Some?
    ensures ParseString(s + q) == Some((ParseString(s).value.0, ParseString(s).value.1 + q))
    decreases |s|
  {
    hide Utf8.RuneLen, ParseEscape;
    assert (s + q)[0] == s[0];
    if s[0] == '\"' {
      assert (s + q)[1..] == s[1..] + q;
    } else if s[0] == '\\' {
      ParseStringExtends(s[ParseEscape(s).value.1..], q);
      EscapeExtends(s, q);
    } else {
      var n := Utf8.RuneLen(s);
      ParseStringExtends(s[if n == 0 then 1 else n..], q);
      RuneExtends(s, q);
    }
  }

  lemma EscapeExtends(s: string, q: string)
    requires s != "" && s[0] == '\\' && ParseString(s).Some?
    requires var t := s[ParseEscape(s).value.1..];
      ParseString(t + q) == Some((ParseString(t).value.0, ParseString(t).value.1 + q))
    ensures ParseString(s + q) == Some((ParseString(s).value.0, ParseString(s).value.1 + q))
  {
    hide ParseEscape;
    var n := ParseEscape(s).value.1;
    ParseEscapeExtends(s, q);
    assert (s + q)[0] == s[0] && (s + q)[n..] == s[n..] + q;
  }

  lemma RuneExtends(s: string, q: string)
    requires s != "" && s[0] != '\\' && s[0] != '\"' && ParseString(s).Some?
    requires var t := s[if Utf8.RuneLen(s) == 0 then 1 else Utf8.RuneLen(s)..];
      ParseString(t + q) == Some((ParseString(t).value.0, ParseString(t).value.1 + q))
    ensures ParseString(s + q) == Some((ParseString(s).value.0, ParseString(s).value.1 + q))
  {
    hide Utf8.RuneLen;
    var n := Utf8.RuneLen(s);
    var m := if n == 0 then 1 else n;
    if n == 0 { BadRuneExtends(s, q); } else { Utf8.RuneLenExtends(s, q); }
    assert (s + q)[0] == s[0] && (s + q)[m..] == s[m..] + q && (s + q)[..m] == s[..m];
  }

  /******* Values *******/

  ghost predicate Complete(r: Parsed<Tree>) { r.Some? && (r.value.0.Num? ==> r.value.1 != "") }

  ghost predicate Extends<T>(r: Parsed<T>, r': Parsed<T>, q: string) {
    r.Some? && r' == Some((r.value.0, r.value.1 + q))
  }

  lemma ParseNumberExtends(s: string, q: string)
    requires ParseNumber(s).Some? && ParseNumber(s).value.1 != ""
    ensures Extends(ParseNumber(s), ParseNumber(s + q), q)
  {
    var n := NumRun(s);
    assert s + q == s[..n] + (s[n..] + q);
    NumRunAppend(s[..n], s[n..] + q);
    hide NumRun, ValidNumber;
    assert (s + q)[..n] == s[..n] && (s + q)[n..] == s[n..] + q;
  }

  lemma ParseLiteralExtends(s: string, q: string, word: string, t: Tree)
    requires ParseLiteral(s, word, t).Some?
    ensures Extends(ParseLiteral(s, word, t), ParseLiteral(s + q, word, t), q)
  {
    assert (s + q)[|word|..] == s[|word|..] + q;
  }

  lemma {:induction false} ParseValueExtends(s: string, q: string)
    requires Complete(ParseValue(s))
    ensures Extends(ParseValue(s), ParseValue(s + q), q)
    decreases |s|, 0
  {
    var t := SkipSpace(s);
    SkipSpaceExtends(s, q);
    var (v, rest) := ParseValue(s).value;
    assert (t + q)[0] == t[0] && (t + q)[1..] == t[1..] + q;
    match t[0]
    case 'n' => ParseLiteralExtends(t, q, "null", Null);
    case 't' => ParseLiteralExtends(t, q, "true", Bool(true));
    case 'f' => ParseLiteralExtends(t, q, "false", Bool(false));
    case '\"' => ParseStringExtends(t[1..], q); ParseStrValue(t[1..], q);
    case '[' => ParseArrExtends(t[1..], q);
    case '{' => ParseObjExtends(t[1..], q);
    case _ => ParseNumberExtends(t, q);
    hide ParseLiteral, ParseStr, ParseArr, ParseObj, ParseNumber;
  }

  lemma ParseStrValue(s: string, q: string)
    requires Extends(ParseString(s), ParseString(s + q), q)
    ensures Extends(ParseStr(s), ParseStr(s + q), q)
  {
    hide ParseString;
  }

  lemma {:induction false} ParseArrExtends(s: string, q: string)
    requires ParseArr(s).Some?
    ensures Extends(ParseArr(s), ParseArr(s + q), q)
    decreases |s|, 2
  {
    var u := SkipSpace(s);
    if u != "" {
      SkipSpaceExtends(s, q);
      assert (u + q)[0] == u[0] && (u + q)[1..] == u[1..] + q;
      if u[0] != ']' { ParseItemsExtends(u, q); }
      hide ParseItems;
    }
  }

  lemma {:induction false} ParseObjExtends(s: string, q: string)
    requires ParseObj(s).Some?
    ensures Extends(ParseObj(s), ParseObj(s + q), q)
    decreases |s|, 2
  {
    var u := SkipSpace(s);
    if u != "" {
      SkipSpaceExtends(s, q);
      assert (u + q)[0] == u[0] && (u + q)[1..] == u[1..] + q;
      if u[0] != '}' { ParseMembersExtends(u, q); }
      hide ParseMembers;
    }
  }

  lemma {:induction false} ParseItemsExtends(s: string, q: string)
    requires ParseItems(s).Some?
    ensures Extends(ParseItems(s), ParseItems(s + q), q)
    decreases |s|, 1
  {
    var rest := ParseValue(s).value.1;
    var u := SkipSpace(rest);
    ParseValueExtends(s, q);
    SkipSpaceExtends(rest, q);
    assert (u + q)[0] == u[0] && (u + q)[1..] == u[1..] + q;
    if u[0] == ',' { ParseItemsExtends(u[1..], q); }
    hide ParseValue;
  }

  lemma {:induction false} ParseMemberExtends(s: string, q: string)
    requires ParseMember(s).Some? && ParseMember(s).value.1 != ""
    ensures Extends(ParseMember(s), ParseMember(s + q), q)
    decreases |s|, 0
  {
    hide ParseString, ParseValue;
    var t := SkipSpace(s);
    SkipSpaceExtends(s, q);
    assert (t + q)[0] == t[0] && (t + q)[1..] == t[1..] + q;
    var rest := ParseString(t[1..]).value.1;
    ParseStringExtends(t[1..], q);
    var u := SkipSpace(rest);
    SkipSpaceExtends(rest, q);
    assert (u + q)[0] == u[0] && (u + q)[1..] == u[1..] + q;
    ParseValueExtends(u[1..], q);
  }

  lemma {:induction false} ParseMembersExtends(s: string, q: string)
    requires ParseMembers(s).Some?
    ensures Extends(ParseMembers(s), ParseMembers(s + q), q)
    decreases |s|, 1
  {
    var rest := ParseMember(s).value.1;
    var u := SkipSpace(rest);
    ParseMemberExtends(s, q);
    SkipSpaceExtends(rest, q);
    assert (u + q)[0] == u[0] && (u + q)[1..] == u[1..] + q;
    if u[0] == ',' { ParseMembersExtends(u[1..], q); }
    hide ParseMember;
  }

  /** A line cut short is never a document. */
  lemma StrictPrefixRejected(members: seq<Member>, k: nat)
    requires Numeric(Obj(members)) && k < |Print(Obj(members))|
    ensures Parse(Print(Obj(members))[..k]).None?
  {
    var t := Obj(members);
    var p, q := Print(t)[..k], Print(t)[k..];
    hide ParseValue, Print, Numeric;
    if Parse(p).Some? {
      assert p + q == Print(t);
      ObjectHead(members, p, q);
      assert Print(t) + "" == Print(t);
      ParsePrint(t, "");
      ParseValueExtends(p, q);
    }
  }

  /** A nonempty prefix of an object's text can only be read as an object. */
  lemma ObjectHead(members: seq<Member>, p: string, q: string)
    requires ParseValue(p).Some? && p + q == Print(Obj(members))
    ensures Complete(ParseValue(p))
  {
    hide ParseStr, ParseArr, ParseNumber, ParseLiteral, PrintMembers;
    assert p != "" ==> p[0] == (p + q)[0];
    assert Print(Obj(members))[0] == '{';
    assert p != "" ==> SkipSpace(p) == p;
  }

  /******* Text behind a document *******/

  lemma {:induction false} SkipSpaceThrough(s: string, q: string)
    requires SkipSpace(s) == "" && (q == "" || !IsSpace(q[0]))
    ensures SkipSpace(s + q) == q
    decreases |s|
  {
    if s == "" {
      assert s + q == q;
    } else {
      SkipSpaceThrough(s[1..], q);
      assert (s + q)[1..] == s[1..] + q;
    }
  }

  /** Nothing that starts with a visible byte can follow a document other than a number. */
  lemma NothingFollows(t: string, q: string)
    requires Parse(t).Some? && !Parse(t).value.Num? && q != "" && !IsSpace(q[0])
    ensures Parse(t + q).None?
  {
    hide ParseValue;
    ParseValueExtends(t, q);
    SkipSpaceThrough(ParseValue(t).value.1, q);
  }

  /** White space on either side of a document does not matter. */
  lemma SpaceAround(t: string)
    ensures Parse("\r" + t) == Parse(t)
    ensures Parse(t).Some? && !Parse(t).value.Num? ==> Parse(t + "\r") == Parse(t)
  {
    assert ("\r" + t)[1..] == t && SkipSpace("\r" + t) == SkipSpace(t);
    assert ParseValue("\r" + t) == ParseValue(t) by { SameStart("\r" + t, t); }
    hide ParseValue;
    if Parse(t).Some? && !Parse(t).value.Num? {
      ParseValueExtends(t, "\r");
      SpaceAfter(ParseValue(t).value.1);
    }
  }

  lemma SameStart(s: string, t: string)
    requires SkipSpace(s) == SkipSpace(t)
    ensures ParseValue(s) == ParseValue(t)
  {
    hide ParseStr, ParseArr, ParseObj, ParseNumber, ParseLiteral, SkipSpace;
  }

  lemma {:induction false} SpaceAfter(s: string)
    requires SkipSpace(s) == ""
    ensures SkipSpace(s + "\r") == ""
    decreases |s|
  {
    if s == "" {
      assert s + "\r" == "\r" && "\r"[1..] == "";
    } else {
      SpaceAfter(s[1..]);
      assert (s + "\r")[1..] == s[1..] + "\r";
    }
  }

  /** Between a document and any longer document that extends it there is nothing but white space. */
  lemma SameDocument(t: string, k: nat, m: nat)
    requires Parse(t).Some? && k <= m <= |t| && Parse(t[..k]).Some? && !Parse(t[..k]).value.Num?
    ensures Parse(t[..m]) == Parse(t) == Parse(t[..k])
  {
    hide ParseValue;
    var p, q, rest := t[..k], t[k..m], t[m..];
    ParseValueExtends(p, q);
    ParseValueExtends(p, t[k..]);
    assert p + q == t[..m] && p + t[k..] == t;
    var tail := ParseValue(p).value.1;
    SpacePrefix(tail + t[k..], |tail| + |q|);
    assert (tail + t[k..])[..|tail| + |q|] == tail + q;
  }

  lemma {:induction false} SpacePrefix(s: string, k: nat)
    requires SkipSpace(s) == "" && k <= |s|
    ensures SkipSpace(s[..k]) == ""
    decreases |s|
  {
    if k > 0 {
      SpacePrefix(s[1..], k - 1);
      assert s[..k][1..] == s[1..][..k - 1];
    }
  }

  /******* Results are printable *******/

  lemma {:induction false} ParsedStringValid(s: string)
    requires ParseString(s).Some?
    ensures Utf8.Valid(ParseString(s).value.0)
    decreases |s|
  {
    if s[0] == '\"' {
    } else if s[0] == '\\' {
      var (rune, n) := ParseEscape(s).value;
      ParsedStringValid(s[n..]);
      Utf8.ValidCons(rune, ParseString(s[n..]).value.0);
    } else {
      var n := Utf8.RuneLen(s);
      var m := if n == 0 then 1 else n;
      ParsedStringValid(s[m..]);
      if n > 0 { Utf8.HeadIsRune(s); }
      Utf8.ValidCons(if n == 0 then Utf8.REPLACEMENT else s[..n], ParseString(s[m..]).value.0);
    }
  }

  lemma {:induction false} ParsedPrintable(s: string)
    requires ParseValue(s).Some?
    ensures Printable(ParseValue(s).value.0)
    decreases |s|, 0
  {
    hide ParseString, ParseItems, ParseMembers, ValidNumber, Utf8.Valid;
    var t := SkipSpace(s);
    match t[0]
    case '\"' => ParsedStringValid(t[1..]);
    case '[' =>
      var u := SkipSpace(t[1..]);
      if ParseItems(u).Some? { ParsedItemsPrintable(u); }
    case '{' =>
      var u := SkipSpace(t[1..]);
      if ParseMembers(u).Some? { ParsedMembersPrintable(u); }
    case _ =>
  }

  lemma {:induction false} ParsedItemsPrintable(s: string)
    requires ParseItems(s).Some?
    ensures Printable(Arr(ParseItems(s).value.0))
    decreases |s|, 1
  {
    ParsedPrintable(s);
    var u := SkipSpace(ParseValue(s).value.1);
    if u[0] == ',' { ParsedItemsPrintable(u[1..]); }
    hide ParseValue;
  }

  lemma {:induction false} ParsedMemberPrintable(s: string)
    requires ParseMember(s).Some?
    ensures Utf8.Valid(ParseMember(s).value.0.key) && Printable(ParseMember(s).value.0.value)
    decreases |s|, 0
  {
    var t := SkipSpace(s);
    ParsedStringValid(t[1..]);
    var u := SkipSpace(ParseString(t[1..]).value.1);
    ParsedPrintable(u[1..]);
    hide ParseString, ParseValue, Printable, Utf8.Valid;
  }

  lemma {:induction false} ParsedMembersPrintable(s: string)
    requires ParseMembers(s).Some?
    ensures Printable(Obj(ParseMembers(s).value.0))
    decreases |s|, 1
  {
    ParsedMemberPrintable(s);
    var u := SkipSpace(ParseMember(s).value.1);
    if u[0] == ',' { ParsedMembersPrintable(u[1..]); }
    hide ParseMember;
  }

  /******* Line discipline *******/

  /** No control byte: in particular neither LF nor CR. */
  predicate NoControl(s: string) { forall i :: 0 <= i < |s| ==> s[i] as int >= 0x20 }

  lemma {:induction false} EscapeNoControl(s: string)
    ensures NoControl(Escape(s))
    decreases |s|
  {
    hide EscapeRune, Utf8.RuneLen;
    if s != "" {
      var n := Utf8.RuneLen(s);
      if n == 0 {
        EscapeNoControl(s[1..]);
        assert NoControl("\\ufffd");
      } else {
        EscapeStep(s);
        EscapeNoControl(s[n..]);
        EscapeRuneNoControl(s[..n]);
      }
    }
  }

  lemma EscapeRuneNoControl(r: string)
    requires Utf8.IsRune(r)
    ensures NoControl(EscapeRune(r))
  {
    if |r| == 1 && |EscapeRune(r)| == 6 {
      var c := r[0] as int;
      HexNoControl(c / 16);
      HexNoControl(c % 16);
      hide Hex;
    }
  }

  lemma HexNoControl(d: nat)
    requires d < 16
    ensures Hex(d) as int >= 0x20
  {
  }

  lemma {:induction false} PrintNoControl(t: Tree)
    requires Numeric(t)
    ensures NoControl(Print(t))
    decreases t
  {
    match t
    case Str(s) => EscapeNoControl(s);
    case Arr(items) => if items != [] { PrintItemsNoControl(items); }
    case Obj(members) => if members != [] { PrintMembersNoControl(members); }
    case _ =>
  }

  lemma {:induction false} PrintItemsNoControl(items: seq<Tree>)
    requires items != [] && forall i :: 0 <= i < |items| ==> Numeric(items[i])
    ensures NoControl(PrintItems(items))
    decreases items
  {
    PrintNoControl(items[0]);
    if |items| > 1 { PrintItemsNoControl(items[1..]); }
    hide Print, Numeric;
  }

  lemma {:induction false} PrintMembersNoControl(members: seq<Member>)
    requires members != []
    requires forall i :: 0 <= i < |members| ==> Numeric(members[i].value)
    ensures NoControl(PrintMembers(members))
    decreases members
  {
    EscapeNoControl(members[0].key);
    PrintNoControl(members[0].value);
    if |members| > 1 { PrintMembersNoControl(members[1..]); }
    hide Print, Numeric, Escape;
  }
}
