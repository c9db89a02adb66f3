/** What JSON text is, byte by byte: escapes, runes, numbers and punctuation. */
module JsonText {
  import opened Base
  import opened Json
  import Decimal
  import Utf8

  /******* Escapes *******/

  /** ASCII that stands for itself inside a JSON string. */
  predicate Quiet(c: char) {
    0x20 <= c as int < 0x80 && c != '\"' && c != '\\' && c != '<' && c != '>' && c != '&'
  }

  lemma {:induction false} EscapeQuiet(s: string)
    requires forall i :: 0 <= i < |s| ==> Quiet(s[i])
    ensures Escape(s) == s
    decreases |s|
  {
    if s != "" {
      assert Utf8.RuneLen(s) == 1;
      assert EscapeRune(s[..1]) == s[..1];
      EscapeQuiet(s[1..]);
      assert s == s[..1] + s[1..];
    }
  }

  /** The bytes that do not: each has the escape the standard library gives it. */
  lemma EscapesAre(c: char)
    requires c as int < 0x80
    ensures Escape([c]) ==
            if c == '\"' then "\\\""
            else if c == '\\' then "\\\\"
            else if c as int == 0x08 then "\\b"
            else if c as int == 0x0C then "\\f"
            else if c as int == 0x0A then "\\n"
            else if c as int == 0x0D then "\\r"
            else if c as int == 0x09 then "\\t"
            else if c == '<' then "\\u003c"
            else if c == '>' then "\\u003e"
            else if c == '&' then "\\u0026"
            else if c as int < 0x10 then "\\u000" + ["0123456789abcdef"[c as int]]
            else if c as int < 0x20 then "\\u001" + ["0123456789abcdef"[c as int - 0x10]]
            else [c]
  {
    var s := [c];
    assert Utf8.RuneLen(s) == 1 && s[..1] == s && s[1..] == "";
    assert Escape("") == "";
    assert Escape(s) == EscapeRune(s) + Escape("");
    if c == '<' || c == '>' || c == '&' {
      assert [Hex(c as int / 16), Hex(c as int % 16)]
          == if c == '<' then "3c" else if c == '>' then "3e" else "26";
    } else if c as int < 0x20 {
      assert Hex(c as int / 16) == if c as int < 0x10 then '0' else '1';
    }
  }

  /** The two separators that JavaScript takes for line ends. */
  lemma SeparatorsEscaped()
    ensures Escape([Utf8.Byte(0xE2), Utf8.Byte(0x80), Utf8.Byte(0xA8)]) == "\\u2028"
    ensures Escape([Utf8.Byte(0xE2), Utf8.Byte(0x80), Utf8.Byte(0xA9)]) == "\\u2029"
  {
    var s, t := LineSeparator(0), LineSeparator(1);
    assert Utf8.RuneLen(s) == 3 && s[..3] == s && s[3..] == "";
    assert Utf8.RuneLen(t) == 3 && t[..3] == t && t[3..] == "";
    assert Escape("") == "";
    assert EscapeRune(s) == "\\u2028" && EscapeRune(t) == "\\u2029";
  }

  /** Every other rune stands for itself. */
  lemma WideRunesStay(r: string)
    requires Utf8.IsRune(r) && |r| > 1
    requires r != [Utf8.Byte(0xE2), Utf8.Byte(0x80), Utf8.Byte(0xA8)]
    requires r != [Utf8.Byte(0xE2), Utf8.Byte(0x80), Utf8.Byte(0xA9)]
    ensures Escape(r) == r
  {
    assert r[..|r|] == r && r[|r|..] == "";
    assert Escape("") == "";
  }

  /** Texts are escaped rune by rune. */
  lemma {:induction false} EscapeConcat(s: string, t: string)
    requires Utf8.Valid(s)
    ensures Escape(s + t) == Escape(s) + Escape(t)
    decreases |s|
  {
    if s == "" {
      assert s + t == t;
    } else {
      var n := Utf8.RuneLen(s);
      Utf8.HeadIsRune(s);
      Utf8.RunePrefix(s[..n], s[n..] + t);
      assert s + t == s[..n] + (s[n..] + t);
      assert (s + t)[..n] == s[..n] && (s + t)[n..] == s[n..] + t;
      hide EscapeRune, Utf8.RuneLen;
      EscapeConcat(s[n..], t);
      assert EscapeRune(s[..n]) + (Escape(s[n..]) + Escape(t)) == EscapeRune(s[..n]) + Escape(s[n..]) + Escape(t);
    }
  }

  /******* Runes *******/

  /** The code point of a rune. */
  function CodePoint(r: string): int {
    if |r| == 1 then r[0] as int
    else if |r| == 2 then (r[0] as int - 0xC0) * 0x40 + (r[1] as int - 0x80)
    else if |r| == 3 then ((r[0] as int - 0xE0) * 0x40 + (r[1] as int - 0x80)) * 0x40 + (r[2] as int - 0x80)
    else if |r| == 4 then
      (((r[0] as int - 0xF0) * 0x40 + (r[1] as int - 0x80)) * 0x40 + (r[2] as int - 0x80)) * 0x40 + (r[3] as int - 0x80)
    else -1
  }

  /** Unicode scalar values: everything up to U+10FFFF but the surrogates. */
  predicate Scalar(cp: int) { 0 <= cp < 0xD800 || 0xE000 <= cp <= 0x10FFFF }

  /** Six bits at a time. */
  lemma Sixes(n: nat)
    ensures n == n / 0x40 * 0x40 + n % 0x40 && n / 0x1000 == n / 0x40 / 0x40 && n / 0x40000 == n / 0x40 / 0x40 / 0x40
  {
  }

  lemma EncodeReads(cp: nat)
    requires Scalar(cp)
    ensures CodePoint(Utf8.Encode(cp)) == cp
  {
    hide Utf8.IsRune, Utf8.Encode2, Utf8.Encode3, Utf8.Encode4, CodePoint;
    if cp < 0x80 {
      assert CodePoint([cp as char]) == cp by { OneReads(cp); }
    } else if cp < 0x800 {
      TwoReads(cp);
    } else if cp < 0x10000 {
      ThreeReads(cp);
    } else {
      FourReads(cp);
    }
  }

  lemma OneReads(cp: nat)
    requires cp < 0x80
    ensures CodePoint([cp as char]) == cp
  {
  }

  lemma TwoReads(cp: nat)
    requires 0x80 <= cp < 0x800
    ensures CodePoint(Utf8.Encode2(cp)) == cp
  {
    hide Utf8.IsRune;
    Sixes(cp);
  }

  lemma ThreeReads(cp: nat)
    requires 0x800 <= cp < 0x10000 && !(0xD800 <= cp < 0xE000)
    ensures CodePoint(Utf8.Encode3(cp)) == cp
  {
    hide Utf8.IsRune;
    Sixes(cp);
    Sixes(cp / 0x40);
  }

  lemma FourReads(cp: nat)
    requires 0x10000 <= cp <= 0x10FFFF
    ensures CodePoint(Utf8.Encode4(cp)) == cp
  {
    hide Utf8.IsRune;
    Sixes(cp);
    Sixes(cp / 0x40);
    Sixes(cp / 0x1000);
  }

  lemma RuneReads(r: string)
    requires Utf8.IsRune(r)
    ensures Scalar(CodePoint(r)) && Utf8.Encode(CodePoint(r)) == r
  {
    hide Utf8.Encode;
    if |r| == 1 {
      OneBack(r);
    } else if |r| == 2 {
      TwoBack(r);
    } else if |r| == 3 {
      ThreeBack(r);
    } else {
      FourBack(r);
    }
  }

  lemma OneBack(r: string)
    requires Utf8.IsRune(r) && |r| == 1
    ensures Scalar(CodePoint(r)) && Utf8.Encode(CodePoint(r)) == r
  {
    hide Utf8.Encode2, Utf8.Encode3, Utf8.Encode4;
  }

  lemma TwoBack(r: string)
    requires Utf8.IsRune(r) && |r| == 2
    ensures Scalar(CodePoint(r)) && Utf8.Encode(CodePoint(r)) == r
  {
    var a, b := r[0] as int - 0xC0, r[1] as int - 0x80;
    assert 2 <= a < 0x20 && 0 <= b < 0x40;
    var cp := a * 0x40 + b;
    assert CodePoint(r) == cp && cp / 0x40 == a && cp % 0x40 == b;
    hide Utf8.IsRune, Utf8.RuneLen, Utf8.Encode3, Utf8.Encode4, CodePoint;
    assert Utf8.Encode(cp) == Utf8.Encode2(cp);
  }

  lemma ThreeBack(r: string)
    requires Utf8.IsRune(r) && |r| == 3
    ensures Scalar(CodePoint(r)) && Utf8.Encode(CodePoint(r)) == r
  {
    var a, b, c := r[0] as int - 0xE0, r[1] as int - 0x80, r[2] as int - 0x80;
    assert 0 <= a < 0x10 && 0 <= b < 0x40 && 0 <= c < 0x40 && (a == 0 ==> b >= 0x20) && (a == 0xD ==> b < 0x20);
    var cp := (a * 0x40 + b) * 0x40 + c;
    assert CodePoint(r) == cp;
    hide Utf8.IsRune, Utf8.RuneLen, Utf8.Encode2, Utf8.Encode4, CodePoint;
    Sixes(cp);
    assert cp % 0x40 == c && cp / 0x40 == a * 0x40 + b;
    Sixes(cp / 0x40);
    assert cp / 0x40 % 0x40 == b && cp / 0x1000 == a;
    assert Utf8.Encode(cp) == Utf8.Encode3(cp);
  }

  lemma FourBack(r: string)
    requires Utf8.IsRune(r) && |r| == 4
    ensures Scalar(CodePoint(r)) && Utf8.Encode(CodePoint(r)) == r
  {
    var a, b, c, d := r[0] as int - 0xF0, r[1] as int - 0x80, r[2] as int - 0x80, r[3] as int - 0x80;
    assert 0 <= a < 5 && 0 <= b < 0x40 && 0 <= c < 0x40 && 0 <= d < 0x40;
    assert (a == 0 ==> b >= 0x10) && (a == 4 ==> b < 0x10);
    var ab := a * 0x40 + b;
    var cp := (ab * 0x40 + c) * 0x40 + d;
    assert CodePoint(r) == cp;
    hide Utf8.IsRune, Utf8.RuneLen, Utf8.Encode2, Utf8.Encode3, CodePoint;
    Sixes(cp);
    assert cp % 0x40 == d && cp / 0x40 == ab * 0x40 + c;
    Sixes(cp / 0x40);
    assert cp / 0x40 % 0x40 == c && cp / 0x1000 == ab;
    Sixes(ab);
    assert ab % 0x40 == b && cp / 0x40000 == a;
    assert Utf8.Encode(cp) == Utf8.Encode4(cp);
  }

  /** A pair of escapes names one rune beyond U+FFFF; half a pair reads as U+FFFD. */
  lemma PairReads(s: string, cp: nat)
    requires 0x10000 <= cp <= 0x10FFFF && |s| >= 12
    requires Unit(s) == Some(0xD800 + (cp - 0x10000) / 0x400) && Unit(s[6..]) == Some(0xDC00 + (cp - 0x10000) % 0x400)
    ensures ParseUnicode(s) == Some((Utf8.Encode(cp), 12))
  {
    hide Unit, Utf8.Encode;
    var q, m := (cp - 0x10000) / 0x400, (cp - 0x10000) % 0x400;
    assert q < 0x400 && q * 0x400 + m == cp - 0x10000;
  }

  lemma LoneHalf(s: string, hi: nat)
    requires Unit(s) == Some(hi) && 0xD800 <= hi < 0xE000
    requires hi < 0xDC00 ==> (Unit(s[6..]).None? || !(0xDC00 <= Unit(s[6..]).value < 0xE000))
    ensures ParseUnicode(s) == Some(([Utf8.Byte(0xEF), Utf8.Byte(0xBF), Utf8.Byte(0xBD)], 6))
  {
    hide Unit;
  }

  /** For example, the two escapes of U+1F600, in any case, read as its four bytes. */
  lemma PairExample()
    ensures ParseUnicode("\\ud83D\\uDe00")
         == Some(([Utf8.Byte(0xF0), Utf8.Byte(0x9F), Utf8.Byte(0x98), Utf8.Byte(0x80)], 12))
  {
    UnitsAre();
    hide Unit, ParseUnicode;
    PairReads("\\ud83D\\uDe00", 0x1F600);
    assert Utf8.Encode(0x1F600) == Utf8.Encode4(0x1F600);
  }

  lemma UnitsAre()
    ensures Unit("\\ud83D\\uDe00") == Some(0xD83D) && Unit("\\ud83D\\uDe00"[6..]) == Some(0xDE00)
  {
    assert "\\ud83D\\uDe00"[6..] == "\\uDe00";
  }

  /******* Numbers *******/

  lemma DecimalsAre()
    ensures Decimal.PrintInt(0) == "0" && Decimal.PrintInt(1234567890) == "1234567890" && Decimal.PrintInt(-42) == "-42"
  {
    assert Decimal.PrintNat(123) == "123" by { assert Decimal.PrintNat(12) == "12"; }
    assert Decimal.PrintNat(12345) == "12345" by { assert Decimal.PrintNat(1234) == "1234"; }
    assert Decimal.PrintNat(1234567) == "1234567" by { assert Decimal.PrintNat(123456) == "123456"; }
    assert Decimal.PrintNat(123456789) == "123456789" by { assert Decimal.PrintNat(12345678) == "12345678"; }
    assert Decimal.PrintNat(42) == "42" by { assert Decimal.PrintNat(4) == "4"; }
  }

  /******* Punctuation *******/

  /** Texts with commas between them. */
  function Listed(parts: seq<string>): string {
    if parts == [] then "" else if |parts| == 1 then parts[0] else parts[0] + "," + Listed(parts[1..])
  }

  function ItemTexts(items: seq<Tree>): seq<string> { seq(|items|, i requires 0 <= i < |items| => Print(items[i])) }

  function MemberText(m: Member): string { "\"" + Escape(m.key) + "\":" + Print(m.value) }

  function MemberTexts(ms: seq<Member>): seq<string> { seq(|ms|, i requires 0 <= i < |ms| => MemberText(ms[i])) }

  lemma {:induction false} ItemsText(items: seq<Tree>)
    requires items != []
    ensures PrintItems(items) == Listed(ItemTexts(items)) + "]"
    decreases |items|
  {
    hide Print;
    if |items| > 1 {
      ItemsText(items[1..]);
      assert ItemTexts(items)[1..] == ItemTexts(items[1..]);
    }
  }

  lemma {:induction false} MembersText(ms: seq<Member>)
    requires ms != []
    ensures PrintMembers(ms) == Listed(MemberTexts(ms)) + "}"
    decreases |ms|
  {
    hide Print, Escape;
    if |ms| > 1 {
      MembersText(ms[1..]);
      assert MemberTexts(ms)[1..] == MemberTexts(ms[1..]);
    }
  }

  lemma TextOf(t: Tree)
    ensures match t
      case Null => Print(t) == "null"
      case Bool(b) => Print(t) == (if b then "true" else "false")
      case Num(token) => Print(t) == token
      case Str(s) => Print(t) == "\"" + Escape(s) + "\""
      case Arr(items) => Print(t) == "[" + Listed(ItemTexts(items)) + "]"
      case Obj(ms) => Print(t) == "{" + Listed(MemberTexts(ms)) + "}"
  {
    hide PrintItems, PrintMembers;
    if t.Arr? && t.items != [] { ItemsText(t.items); }
    if t.Obj? && t.members != [] { MembersText(t.members); }
  }

  /******* What is no JSON *******/

  /** White space is tab, newline, carriage return and blank; a document begins behind it. */
  lemma {:induction false} LeadingSpace(space: string, c: char, s: string)
    requires forall i :: 0 <= i < |space| ==> space[i] as int in {9, 10, 13, 32}
    ensures Parse(space + s) == Parse(s)
    ensures c as int !in {9, 10, 13, 32} && c !in {'n', 't', 'f', '\"', '[', '{', '-', '+', '.', 'e', 'E'} ==>
              !('0' <= c <= '9') ==> Parse(space + [c] + s).None?
    decreases |space|
  {
    if space == "" {
      assert space + s == s && space + [c] + s == [c] + s;
      OddStart(c, s);
    } else {
      LeadingSpace(space[1..], c, s);
      Skipped(space[0], space[1..] + s);
      Skipped(space[0], space[1..] + [c] + s);
      assert space + s == [space[0]] + (space[1..] + s) && space + [c] + s == [space[0]] + (space[1..] + [c] + s);
    }
  }

  lemma Skipped(c: char, s: string)
    requires c as int in {9, 10, 13, 32}
    ensures Parse([c] + s) == Parse(s)
  {
    assert ([c] + s)[0] == c && ([c] + s)[1..] == s;
    assert SkipSpace([c] + s) == SkipSpace(s);
  }

  lemma OddStart(c: char, s: string)
    ensures c as int !in {9, 10, 13, 32} && c !in {'n', 't', 'f', '\"', '[', '{', '-', '+', '.', 'e', 'E'} ==>
              !('0' <= c <= '9') ==> Parse([c] + s).None?
  {
    assert ([c] + s)[0] == c;
  }

  /** A raw control character, an unknown escape or an open end makes a string unreadable. */
  lemma StringsRefused(c: char, s: string)
    ensures c as int < 0x20 ==> ParseString([c] + s).None?
    ensures c !in {'\"', '\\', '/', 'b', 'f', 'n', 'r', 't', 'u'} ==> ParseString("\\" + [c] + s).None?
    ensures ParseString("").None? && ParseString("\\").None?
  {
    assert ("\\" + [c] + s)[0] == '\\' && ("\\" + [c] + s)[1] == c;
    assert ([c] + s)[0] == c;
  }

  /** Numbers: no leading zero or plus, digits on both sides of a point and behind an exponent. */
  lemma NumbersAre()
    ensures ValidNumber("0") && ValidNumber("-10") && ValidNumber("1.50") && ValidNumber("2e8") && ValidNumber("2E-8")
    ensures ValidNumber("0.1e+2")
    ensures !ValidNumber("") && !ValidNumber("-") && !ValidNumber("01") && !ValidNumber("+1") && !ValidNumber(".5")
    ensures !ValidNumber("1.") && !ValidNumber("1e") && !ValidNumber("1e+") && !ValidNumber("1.e2")
    ensures !ValidNumber("1-")
  {
    hide NumEnd;
    NumberSteps();
  }

  lemma NumberSteps()
    ensures NumEnd(Start, "0") == Zero && NumEnd(Start, "-10") == Int && NumEnd(Start, "1.50") == Frac
    ensures NumEnd(Start, "2e8") == ExpDigits && NumEnd(Start, "2E-8") == ExpDigits
    ensures NumEnd(Start, "0.1e+2") == ExpDigits
    ensures NumEnd(Start, "") == Start && NumEnd(Start, "-") == Minus && NumEnd(Start, "01") == Bad
    ensures NumEnd(Start, "+1") == Bad && NumEnd(Start, ".5") == Bad && NumEnd(Start, "1.") == Dot
    ensures NumEnd(Start, "1e") == Exp && NumEnd(Start, "1e+") == ExpSign && NumEnd(Start, "1.e2") == Bad
    ensures NumEnd(Start, "1-") == Bad
  {
  }
}
