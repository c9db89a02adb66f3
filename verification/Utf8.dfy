/** UTF-8 well-formedness of byte strings (chars 0x00-0xFF), as `unicode/utf8` decides it. */
module Utf8 {

  predicate Between(c: char, lo: int, hi: int) { lo <= c as int <= hi }

  predicate Tail(c: char) { Between(c, 0x80, 0xBF) }

  /** Number of bytes of the well-formed rune s starts with; 0 when it starts with none. */
  function RuneLen(s: string): (n: nat)
    requires s != ""
    ensures n <= |s| && n <= 4
  {
    if Between(s[0], 0, 0x7F) then 1
    else if |s| >= 2 && Between(s[0], 0xC2, 0xDF) && Tail(s[1]) then 2
    else if |s| >= 3 && Between(s[0], 0xE0, 0xEF) && SecondOf3(s[0], s[1]) && Tail(s[2]) then 3
    else if |s| >= 4 && Between(s[0], 0xF0, 0xF4) && SecondOf4(s[0], s[1]) && Tail(s[2]) && Tail(s[3]) then 4
    else 0
  }

  predicate SecondOf3(a: char, b: char) {
    Between(b, if a as int == 0xE0 then 0xA0 else 0x80, if a as int == 0xED then 0x9F else 0xBF)
  }

  predicate SecondOf4(a: char, b: char) {
    Between(b, if a as int == 0xF0 then 0x90 else 0x80, if a as int == 0xF4 then 0x8F else 0xBF)
  }

  /** s is a sequence of well-formed runes. */
  predicate Valid(s: string) {
    s == "" || (var n := RuneLen(s); n > 0 && Valid(s[n..]))
  }

  /** A single well-formed rune. */
  predicate IsRune(r: string) { r != "" && RuneLen(r) == |r| }

  lemma RuneLenExtends(s: string, q: string)
    requires s != "" && RuneLen(s) > 0
    ensures RuneLen(s + q) == RuneLen(s)
  {
  }

  lemma RunePrefix(r: string, q: string)
    requires IsRune(r)
    ensures RuneLen(r + q) == |r| && (r + q)[..|r|] == r && (r + q)[|r|..] == q
  {
    RuneLenExtends(r, q);
  }

  lemma HeadIsRune(s: string)
    requires s != "" && RuneLen(s) > 0
    ensures IsRune(s[..RuneLen(s)])
  {
  }

  lemma ValidCons(r: string, s: string)
    requires IsRune(r) && Valid(s)
    ensures Valid(r + s)
  {
    RunePrefix(r, s);
  }

  /** The UTF-8 encoding of a code point; surrogates and values past U+10FFFF become U+FFFD. */
  function Encode(cp: nat): (r: string)
    ensures IsRune(r)
  {
    if cp < 0x80 then [cp as char]
    else if cp < 0x800 then Encode2(cp)
    else if cp > 0x10FFFF || 0xD800 <= cp < 0xE000 then REPLACEMENT
    else if cp < 0x10000 then Encode3(cp)
    else Encode4(cp)
  }

  function Encode2(cp: nat): (r: string)
    requires 0x80 <= cp < 0x800
    ensures |r| == 2 && IsRune(r)
  {
    [Byte(0xC0 + cp / 0x40), Byte(0x80 + cp % 0x40)]
  }

  function Encode3(cp: nat): (r: string)
    requires 0x800 <= cp < 0x10000 && !(0xD800 <= cp < 0xE000)
    ensures |r| == 3 && IsRune(r)
  {
    [Byte(0xE0 + cp / 0x1000), Byte(0x80 + cp / 0x40 % 0x40), Byte(0x80 + cp % 0x40)]
  }

  function Encode4(cp: nat): (r: string)
    requires 0x10000 <= cp <= 0x10FFFF
    ensures |r| == 4 && IsRune(r)
  {
    [Byte(0xF0 + cp / 0x40000), Byte(0x80 + cp / 0x1000 % 0x40),
     Byte(0x80 + cp / 0x40 % 0x40), Byte(0x80 + cp % 0x40)]
  }

  function Byte(n: nat): (c: char)
    requires n < 0x100
    ensures c as int == n
  {
    n as char
  }

  /** U+FFFD. */
  const REPLACEMENT: string := [Byte(0xEF), Byte(0xBF), Byte(0xBD)]
}
