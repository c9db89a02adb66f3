/**
 JSON text as `encoding/json` writes and reads it. A `Tree` keeps object members in textual order.
 The printer escapes like `json.Marshal`; the parser is the left inverse of the printer and never
 accepts a strict prefix of a printed object.
 */
module Json {
  import opened Base
  import Utf8

  datatype Tree =
    | Null
    | Bool(b: bool)
    | Num(token: string)
    | Str(s: string)
    | Arr(items: seq<Tree>)
    | Obj(members: seq<Member>)

  datatype Member = Member(key: string, value: Tree)

  /******* Well-formed trees *******/

  predicate NumChar(c: char) { '0' <= c <= '9' || c == '-' || c == '+' || c == '.' || c == 'e' || c == 'E' }

  /** Number of leading chars of s that satisfy NumChar. */
  function NumRun(s: string): (n: nat)
    ensures n <= |s|
    ensures forall i :: 0 <= i < n ==> NumChar(s[i])
    ensures n < |s| ==> !NumChar(s[n])
  {
    if s == "" || !NumChar(s[0]) then 0 else 1 + NumRun(s[1..])
  }

  datatype NumState = Start | Minus | Zero | Int | Dot | Frac | Exp | ExpSign | ExpDigits | Bad

  /** The number grammar of section 6 of RFC 8259 as an automaton. */
  function NumStep(st: NumState, c: char): NumState {
    var digit := '0' <= c <= '9';
    match st
    case Start => if c == '-' then Minus else if c == '0' then Zero else if digit then Int else Bad
    case Minus => if c == '0' then Zero else if digit then Int else Bad
    case Zero => if c == '.' then Dot else if c == 'e' || c == 'E' then Exp else Bad
    case Int => if digit then Int else if c == '.' then Dot else if c == 'e' || c == 'E' then Exp else Bad
    case Dot => if digit then Frac else Bad
    case Frac => if digit then Frac else if c == 'e' || c == 'E' then Exp else Bad
    case Exp => if digit then ExpDigits else if c == '+' || c == '-' then ExpSign else Bad
    case ExpSign => if digit then ExpDigits else Bad
    case ExpDigits => if digit then ExpDigits else Bad
    case Bad => Bad
  }

  function NumEnd(st: NumState, s: string): NumState
    decreases |s|
  {
    if s == "" then st else NumEnd(NumStep(st, s[0]), s[1..])
  }

  predicate ValidNumber(s: string) {
    (forall i :: 0 <= i < |s| ==> NumChar(s[i])) && NumEnd(Start, s) in {Zero, Int, Frac, ExpDigits}
  }

  /** Every string is UTF-8 and every number token is a JSON number. */
  predicate Printable(t: Tree) {
    match t
    case Num(token) => ValidNumber(token)
    case Str(s) => Utf8.Valid(s)
    case Arr(items) => forall i :: 0 <= i < |items| ==> Printable(items[i])
    case Obj(members) =>
      forall i :: 0 <= i < |members| ==> Utf8.Valid(members[i].key) && Printable(members[i].value)
    case _ => true
  }

  /** Every number token is a JSON number. */
  predicate Numeric(t: Tree) {
    match t
    case Num(token) => ValidNumber(token)
    case Arr(items) => forall i :: 0 <= i < |items| ==> Numeric(items[i])
    case Obj(members) => forall i :: 0 <= i < |members| ==> Numeric(members[i].value)
    case _ => true
  }

  /** Every string and key is UTF-8. */
  predicate TextValid(t: Tree) {
    match t
    case Str(s) => Utf8.Valid(s)
    case Arr(items) => forall i :: 0 <= i < |items| ==> TextValid(items[i])
    case Obj(members) => forall i :: 0 <= i < |members| ==> Utf8.Valid(members[i].key) && TextValid(members[i].value)
    case _ => true
  }

  /******* Replacing what is no UTF-8 *******/

  /** The text with U+FFFD for every byte that belongs to no rune. */
  function CleanText(s: string): string {
    if s == "" then ""
    else
      var n := Utf8.RuneLen(s);
      if n == 0 then Utf8.REPLACEMENT + CleanText(s[1..]) else s[..n] + CleanText(s[n..])
  }

  function CleanTree(t: Tree): Tree
    decreases t
  {
    match t
    case Str(s) => Str(CleanText(s))
    case Arr(items) => Arr(CleanItems(items))
    case Obj(members) => Obj(CleanMembers(members))
    case _ => t
  }

  function CleanItems(items: seq<Tree>): (r: seq<Tree>)
    ensures |r| == |items| && forall i :: 0 <= i < |items| ==> r[i] == CleanTree(items[i])
    decreases items
  {
    if items == [] then [] else [CleanTree(items[0])] + CleanItems(items[1..])
  }

  function CleanMembers(members: seq<Member>): (r: seq<Member>)
    ensures |r| == |members| && forall i :: 0 <= i < |members| ==> r[i] == CleanMember(members[i])
    decreases members
  {
    if members == [] then [] else [CleanMember(members[0])] + CleanMembers(members[1..])
  }

  function CleanMember(m: Member): Member
    decreases m
  {
    Member(CleanText(m.key), CleanTree(m.value))
  }

  /******* Printing *******/

  function Hex(d: nat): char
    requires d < 16
  {
    "0123456789abcdef"[d]
  }

  function EscapeRune(r: string): string
    requires Utf8.IsRune(r)
  {
    if |r| == 1 then
      var c := r[0];
      if c == '\"' then "\\\""
      else if c == '\\' then "\\\\"
      else if c == '\n' then "\\n"
      else if c == '\r' then "\\r"
      else if c == '\t' then "\\t"
      else if c as int == 8 then "\\b"
      else if c as int == 12 then "\\f"
      else if c as int < 0x20 || c == '<' || c == '>' || c == '&' then
        "\\u00" + [Hex(c as int / 16), Hex(c as int % 16)]
      else r
    else if r == LineSeparator(0) then "\\u2028"
    else if r == LineSeparator(1) then "\\u2029"
    else r
  }

  /** U+2028 and U+2029. */
  function LineSeparator(k: nat): string
    requires k < 2
  {
    [Utf8.Byte(0xE2), Utf8.Byte(0x80), Utf8.Byte(0xA8 + k)]
  }

  /** Bytes that are no rune are written as the escape of U+FFFD. */
  function Escape(s: string): string {
    if s == "" then ""
    else
      var n := Utf8.RuneLen(s);
      if n == 0 then "\\ufffd" + Escape(s[1..])
      else Utf8.HeadIsRune(s); EscapeRune(s[..n]) + Escape(s[n..])
  }

  function Print(t: Tree): (s: string)
    decreases t
  {
    match t
    case Null => "null"
    case Bool(b) => if b then "true" else "false"
    case Num(token) => token
    case Str(s) => "\"" + Escape(s) + "\""
    case Arr(items) => if items == [] then "[]" else "[" + PrintItems(items)
    case Obj(members) => if members == [] then "{}" else "{" + PrintMembers(members)
  }

  /** The items from the first one to the closing bracket. */
  function PrintItems(items: seq<Tree>): string
    requires items != []
    decreases items
  {
    Print(items[0]) + if |items| == 1 then "]" else "," + PrintItems(items[1..])
  }

  function PrintMember(m: Member): string
    decreases m
  {
    "\"" + Escape(m.key) + "\":" + Print(m.value)
  }

  /** The members from the first one to the closing brace. */
  function PrintMembers(members: seq<Member>): string
    requires members != []
    decreases members
  {
    PrintMember(members[0]) + if |members| == 1 then "}" else "," + PrintMembers(members[1..])
  }

  /******* Parsing *******/

  type Parsed<+T> = Option<(T, string)>

  predicate IsSpace(c: char) { c == ' ' || c == '\t' || c == '\n' || c == '\r' }

  function SkipSpace(s: string): (r: string)
    ensures |r| <= |s|
    ensures r != "" ==> !IsSpace(r[0])
  {
    if s != "" && IsSpace(s[0]) then SkipSpace(s[1..]) else s
  }

  function HexValue(c: char): (r: Option<nat>)
    ensures r.Some? ==> r.value < 16
  {
    if '0' <= c <= '9' then Some((c - '0') as nat)
    else if 'a' <= c <= 'f' then Some((c - 'a') as nat + 10)
    else if 'A' <= c <= 'F' then Some((c - 'A') as nat + 10)
    else None
  }

  /** The code unit of a leading backslash-u escape. */
  function Unit(s: string): Option<nat> {
    if |s| < 6 || s[0] != '\\' || s[1] != 'u' then None
    else
      var a :- HexValue(s[2]);
      var b :- HexValue(s[3]);
      var c :- HexValue(s[4]);
      var d :- HexValue(s[5]);
      Some(((a * 16 + b) * 16 + c) * 16 + d)
  }

  /** One escape sequence: the rune it stands for and its length in bytes. */
  function ParseEscape(s: string): (r: Option<(string, nat)>)
    requires s != "" && s[0] == '\\'
    ensures r.Some? ==> 2 <= r.value.1 <= |s| && Utf8.IsRune(r.value.0)
  {
    if |s| < 2 then None
    else match s[1]
      case '\"' => Some(("\"", 2))
      case '\\' => Some(("\\", 2))
      case '/' => Some(("/", 2))
      case 'b' => Some(([8 as char], 2))
      case 'f' => Some(([12 as char], 2))
      case 'n' => Some(("\n", 2))
      case 'r' => Some(("\r", 2))
      case 't' => Some(("\t", 2))
      case 'u' => ParseUnicode(s)
      case _ => None
  }

  /** A backslash-u escape, or two of them that form a surrogate pair; a lone surrogate reads as U+FFFD. */
  function ParseUnicode(s: string): (r: Option<(string, nat)>)
    ensures r.Some? ==> 6 <= r.value.1 <= |s| && Utf8.IsRune(r.value.0)
  {
    var hi :- Unit(s);
    if 0xD800 <= hi < 0xDC00 then
      var lo := Unit(s[6..]);
      if lo.Some? && 0xDC00 <= lo.value < 0xE000 then
        Some((Utf8.Encode(0x10000 + (hi - 0xD800) * 0x400 + (lo.value - 0xDC00)), 12))
      else Some((Utf8.REPLACEMENT, 6))
    else Some((Utf8.Encode(hi), 6))
  }

  /** The rest of a string literal after its opening quote. */
  function ParseString(s: string): (r: Parsed<string>)
    ensures r.Some? ==> |r.value.1| < |s|
  {
    if s == "" then None
    else if s[0] == '\"' then Some(("", s[1..]))
    else if s[0] == '\\' then
      var (rune, n) :- ParseEscape(s);
      var (tail, rest) :- ParseString(s[n..]);
      Some((rune + tail, rest))
    else if s[0] as int < 0x20 then None
    else
      var n := Utf8.RuneLen(s);
      var (tail, rest) :- ParseString(s[if n == 0 then 1 else n..]);
      Some(((if n == 0 then Utf8.REPLACEMENT else s[..n]) + tail, rest))
  }

  function ParseLiteral(s: string, word: string, t: Tree): (r: Parsed<Tree>)
    ensures r.Some? ==> |r.value.1| == |s| - |word|
  {
    if word <= s then Some((t, s[|word|..])) else None
  }

  function ParseNumber(s: string): (r: Parsed<Tree>)
    ensures r.Some? ==> |r.value.1| < |s|
  {
    var n := NumRun(s);
    if n > 0 && ValidNumber(s[..n]) then Some((Num(s[..n]), s[n..])) else None
  }

  function ParseValue(s: string): (r: Parsed<Tree>)
    ensures r.Some? ==> |r.value.1| < |s|
    decreases |s|, 0
  {
    var t := SkipSpace(s);
    if t == "" then None
    else match t[0]
      case 'n' => ParseLiteral(t, "null", Null)
      case 't' => ParseLiteral(t, "true", Bool(true))
      case 'f' => ParseLiteral(t, "false", Bool(false))
      case '\"' => ParseStr(t[1..])
      case '[' => ParseArr(t[1..])
      case '{' => ParseObj(t[1..])
      case _ => ParseNumber(t)
  }

  function ParseStr(s: string): (r: Parsed<Tree>)
    ensures r.Some? ==> |r.value.1| < |s|
  {
    var (str, rest) :- ParseString(s);
    Some((Str(str), rest))
  }

  function ParseArr(s: string): (r: Parsed<Tree>)
    ensures r.Some? ==> |r.value.1| < |s|
    decreases |s|, 2
  {
    var u := SkipSpace(s);
    if u != "" && u[0] == ']' then Some((Arr([]), u[1..]))
    else
      var (items, rest) :- ParseItems(u);
      Some((Arr(items), rest))
  }

  function ParseObj(s: string): (r: Parsed<Tree>)
    ensures r.Some? ==> |r.value.1| < |s|
    decreases |s|, 2
  {
    var u := SkipSpace(s);
    if u != "" && u[0] == '}' then Some((Obj([]), u[1..]))
    else
      var (members, rest) :- ParseMembers(u);
      Some((Obj(members), rest))
  }

  /** One or more items up to and including the closing bracket. */
  function ParseItems(s: string): (r: Parsed<seq<Tree>>)
    ensures r.Some? ==> |r.value.1| < |s|
    decreases |s|, 1
  {
    var (v, rest) :- ParseValue(s);
    var u := SkipSpace(rest);
    if u != "" && u[0] == ']' then Some(([v], u[1..]))
    else if u != "" && u[0] == ',' then
      var (vs, rest') :- ParseItems(u[1..]);
      Some(([v] + vs, rest'))
    else None
  }

  function ParseMember(s: string): (r: Parsed<Member>)
    ensures r.Some? ==> |r.value.1| < |s|
    decreases |s|, 0
  {
    var t := SkipSpace(s);
    if t == "" || t[0] != '\"' then None
    else
      var (key, rest) :- ParseString(t[1..]);
      var u := SkipSpace(rest);
      if u == "" || u[0] != ':' then None
      else
        var (v, rest') :- ParseValue(u[1..]);
        Some((Member(key, v), rest'))
  }

  /** One or more members up to and including the closing brace. */
  function ParseMembers(s: string): (r: Parsed<seq<Member>>)
    ensures r.Some? ==> |r.value.1| < |s|
    decreases |s|, 1
  {
    var (m, rest) :- ParseMember(s);
    var u := SkipSpace(rest);
    if u != "" && u[0] == '}' then Some(([m], u[1..]))
    else if u != "" && u[0] == ',' then
      var (ms, rest') :- ParseMembers(u[1..]);
      Some(([m] + ms, rest'))
    else None
  }

  /** A whole document: one value with nothing but white space around it. */
  function Parse(s: string): Option<Tree> {
    var (t, rest) :- ParseValue(s);
    if SkipSpace(rest) == "" then Some(t) else None
  }
}
