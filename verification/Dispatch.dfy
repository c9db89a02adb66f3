/** Which bodies reach the dispatcher and which headers fix a length, told byte by byte. */
module Dispatch {
  import opened Base
  import opened Decimal
  import opened Framing

  /******* White space *******/

  /** Tab, newline, vertical tab, form feed, carriage return and blank. */
  predicate White(s: string) { forall i :: 0 <= i < |s| ==> s[i] as int in {9, 10, 11, 12, 13, 32} }

  /** Some byte of the text is printable ASCII. */
  ghost predicate Shows(s: string) { exists i :: 0 <= i < |s| && 0x21 <= s[i] as int <= 0x7E }

  lemma {:induction false} FrontShows(s: string)
    requires Shows(s)
    ensures Shows(TrimFront(s))
    decreases |s|
  {
    var n := FrontSpace(s);
    if n > 0 {
      var i :| 0 <= i < |s| && 0x21 <= s[i] as int <= 0x7E;
      FrontIsWhite(s);
      assert s[n..][i - n] == s[i];
      FrontShows(s[n..]);
    }
  }

  lemma FrontIsWhite(s: string)
    ensures forall i :: 0 <= i < FrontSpace(s) ==> !(0x21 <= s[i] as int <= 0x7E)
  {
  }

  lemma BackIsWhite(s: string)
    ensures forall i :: |s| - BackSpace(s) <= i < |s| ==> !(0x21 <= s[i] as int <= 0x7E)
  {
  }

  lemma {:induction false} BackShows(s: string)
    requires Shows(s)
    ensures Shows(TrimBack(s))
    decreases |s|
  {
    var n := BackSpace(s);
    if n > 0 {
      var i :| 0 <= i < |s| && 0x21 <= s[i] as int <= 0x7E;
      BackIsWhite(s);
      assert s[..|s| - n][i] == s[i];
      BackShows(s[..|s| - n]);
    }
  }

  /** A text that shows something is not blank; one of white space is. */
  lemma ShowsIsNotBlank(s: string)
    requires Shows(s)
    ensures TrimSpace(s) != ""
  {
    FrontShows(s);
    BackShows(TrimFront(s));
  }

  lemma {:induction false} FrontWhite(a: string, s: string)
    requires White(a)
    ensures TrimFront(a + s) == TrimFront(s)
    decreases |a|
  {
    if a == "" {
      assert a + s == s;
    } else {
      assert (a + s)[0] == a[0] && (a + s)[1..] == a[1..] + s;
      assert FrontSpace(a + s) == 1;
      FrontWhite(a[1..], s);
    }
  }

  lemma {:induction false} BackWhite(s: string, b: string)
    requires White(b)
    ensures TrimBack(s + b) == TrimBack(s)
    decreases |b|
  {
    if b == "" {
      assert s + b == s;
    } else {
      var n := |b| - 1;
      assert (s + b)[|s + b| - 1] == b[n] && (s + b)[..|s + b| - 1] == s + b[..n];
      assert BackSpace(s + b) == 1;
      BackWhite(s, b[..n]);
    }
  }

  lemma WhiteIsBlank(s: string)
    requires White(s)
    ensures TrimSpace(s) == ""
  {
    FrontWhite(s, "");
    assert s + "" == s;
  }

  /** White space around a text with solid ends is trimmed, and nothing else. */
  lemma Padded(a: string, s: string, b: string)
    requires White(a) && White(b) && s != "" && 0x21 <= s[0] as int <= 0x7E && 0x21 <= s[|s| - 1] as int <= 0x7E
    ensures TrimSpace(a + s + b) == s
  {
    hide FrontSpace, BackSpace;
    assert a + s + b == a + (s + b);
    FrontWhite(a, s + b);
    SolidFront(s + b);
    BackWhite(s, b);
    SolidBack(s);
  }

  lemma SolidFront(s: string)
    requires s != "" && 0x21 <= s[0] as int <= 0x7E
    ensures TrimFront(s) == s
  {
  }

  lemma SolidBack(s: string)
    requires s != "" && 0x21 <= s[|s| - 1] as int <= 0x7E
    ensures TrimBack(s) == s
  {
  }

  /** The white space beyond ASCII, as UTF-8. */
  lemma WideWhiteIsBlank(a: char, b: char, c: char)
    ensures a as int == 0xC2 && b as int in {0x85, 0xA0} ==> TrimSpace([a, b]) == ""
    ensures a as int == 0xE1 && b as int == 0x9A && c as int == 0x80 ==> TrimSpace([a, b, c]) == ""
    ensures a as int == 0xE2 && b as int == 0x80 && (0x80 <= c as int <= 0x8A || c as int in {0xA8, 0xA9, 0xAF}) ==>
              TrimSpace([a, b, c]) == ""
    ensures a as int == 0xE2 && b as int == 0x81 && c as int == 0x9F ==> TrimSpace([a, b, c]) == ""
    ensures a as int == 0xE3 && b as int == 0x80 && c as int == 0x80 ==> TrimSpace([a, b, c]) == ""
    ensures a as int == 0xE2 && b as int == 0x80 && c as int == 0x8B ==> TrimSpace([a, b, c]) != ""
  {
    assert [a, b][2..] == "" && [a, b, c][3..] == "" && [a, b, c][..0] == "";
    assert TrimFront("") == "" && TrimBack("") == "";
  }

  /******* What is handed over *******/

  /** A framed body that shows something is handed over as it is, a framed body of white space never. */
  lemma HandedOver(body: string, later: string)
    requires |body| <= 1024 * 1024
    ensures Shows(body) ==>
              Serve(Frame(body) + later) == Session([body] + Serve(later).handled, Serve(later).error)
    ensures White(body) ==> Serve(Frame(body) + later) == Serve(later)
  {
    hide Frame, Serve, TrimSpace;
    FrameServed(body, later);
    if Shows(body) { ShowsIsNotBlank(body); }
    if White(body) { WhiteIsBlank(body); }
  }

  /** A conversation of bodies that show something, such as JSON objects, is handed over whole. */
  lemma {:induction false} AllHandedOver(bodies: seq<string>)
    requires forall b :: b in bodies ==> |b| <= 1024 * 1024 && Shows(b)
    ensures Serve(Frames(bodies)) == Session(bodies, None)
    decreases |bodies|
  {
    hide Frame, Shows, Serve, FrontSpace, BackSpace;
    if bodies == [] {
      NothingServed();
    } else {
      assert bodies[0] in bodies && forall b :: b in bodies[1..] ==> b in bodies;
      AllHandedOver(bodies[1..]);
      HandedOver(bodies[0], Frames(bodies[1..]));
      assert bodies == [bodies[0]] + bodies[1..];
    }
  }

  lemma NothingServed()
    ensures Serve("") == Session([], None)
  {
  }

  lemma ObjectsShow(bodies: seq<string>)
    requires forall b :: b in bodies ==> |b| <= 1024 * 1024 && b != "" && b[0] == '{'
    ensures Serve(Frames(bodies)) == Session(bodies, None)
  {
    hide Serve, Frames;
    forall b | b in bodies ensures Shows(b) { assert b[0] as int == 0x7B; }
    AllHandedOver(bodies);
  }

  /** The largest frame that is read has a body of 1 MiB. */
  lemma LimitIs(body: string, rest: string)
    ensures ReadFrame(None, Frame(body) + rest).outcome == Body(body) <==> |body| <= 1_048_576
  {
    hide ReadFrame, Frame;
    FrameReadBack(body, rest);
  }

  /******* Headers *******/

  /** The name of the length header, in any mixture of cases. */
  lemma KeysAre(key: string)
    ensures IsLengthKey(key) <==>
            |key| == 14 && forall i :: 0 <= i < 14 ==> key[i] == "content-length"[i] || key[i] == "CONTENT-LENGTH"[i]
  {
    forall i | 0 <= i < |key| && |key| == 14
      ensures Lower(key[i]) == "content-length"[i] <==> key[i] == "content-length"[i] || key[i] == "CONTENT-LENGTH"[i]
    {
    }
  }

  /** A length header with white space anywhere around name and number. */
  lemma LengthHeaders(a: string, key: string, b: string, c: string, n: nat, d: string)
    requires White(a) && White(b) && White(c) && White(d) && |key| == 14
    requires forall i :: 0 <= i < 14 ==> key[i] == "content-length"[i] || key[i] == "CONTENT-LENGTH"[i]
    ensures HeaderOf(a + key + b + ":" + (c + PrintNat(n) + d)) == if n <= 1_048_576 then Length(n) else BadHeader
  {
    hide HeaderOf, PrintNat, White, IsLengthKey;
    KeysAre(key);
    KeyEnds(key);
    DigitEnds(n);
    Padded(a, key, b);
    Padded(c, PrintNat(n), d);
    ParsePrintInt(n, true);
    NoColon(a, key, b);
    HeaderSays(a + key + b, c + PrintNat(n) + d);
  }

  /** A plus sign is allowed. */
  lemma PlusHeader(key: string, n: nat)
    requires |key| == 14 && n <= 1_048_576
    requires forall i :: 0 <= i < 14 ==> key[i] == "content-length"[i] || key[i] == "CONTENT-LENGTH"[i]
    ensures HeaderOf(key + ":+" + PrintNat(n)) == Length(n)
  {
    hide HeaderOf, PrintNat, IsLengthKey, TrimSpace;
    KeysAre(key);
    KeyEnds(key);
    DigitEnds(n);
    Unpadded(key);
    Unpadded("+" + PrintNat(n));
    PlusReads(n);
    HeaderSays(key, "+" + PrintNat(n));
    assert key + ":+" + PrintNat(n) == key + ":" + ("+" + PrintNat(n));
  }

  lemma PlusReads(n: nat)
    ensures ParseSigned("+" + PrintNat(n), true) == Some(n)
  {
    hide PrintNat, ParseNat;
    ParsePrintNat(n);
    assert ("+" + PrintNat(n))[1..] == PrintNat(n);
  }

  /** Below zero or no number, it is an error. */
  lemma BadHeaders(key: string, value: string, n: nat)
    requires |key| == 14
    requires forall i :: 0 <= i < 14 ==> key[i] == "content-length"[i] || key[i] == "CONTENT-LENGTH"[i]
    requires value != "" && 0x21 <= value[0] as int <= 0x7E && 0x21 <= value[|value| - 1] as int <= 0x7E
    requires (n > 0 && value == "-" + PrintNat(n)) || exists i :: 0 < i < |value| && !('0' <= value[i] <= '9')
    ensures HeaderOf(key + ":" + value) == BadHeader
  {
    hide HeaderOf, ParseSigned, PrintNat, IsLengthKey, TrimSpace;
    KeysAre(key);
    KeyEnds(key);
    Unpadded(key);
    Unpadded(value);
    HeaderSays(key, value);
    if n > 0 && value == "-" + PrintNat(n) {
      Negative(n);
    } else {
      NotDecimal(value);
    }
  }

  lemma Unpadded(s: string)
    requires s != "" && 0x21 <= s[0] as int <= 0x7E && 0x21 <= s[|s| - 1] as int <= 0x7E
    ensures TrimSpace(s) == s
  {
    hide TrimSpace;
    Padded("", s, "");
    assert "" + s + "" == s;
  }

  lemma Negative(n: int)
    requires n > 0
    ensures ParseSigned("-" + PrintNat(n), true) == Some(-n)
  {
    hide PrintNat, ParseSigned;
    ParsePrintInt(-n, true);
  }

  lemma NotDecimal(s: string)
    requires exists i :: 0 < i < |s| && !('0' <= s[i] <= '9')
    ensures ParseSigned(s, true).None?
  {
    hide ParseNat;
    var i :| 0 < i < |s| && !('0' <= s[i] <= '9');
    assert s[1..][i - 1] == s[i] && !IsDigit(s[i]);
  }

  lemma HeaderSays(key: string, value: string)
    requires forall i :: 0 <= i < |key| ==> key[i] != ':'
    requires IsLengthKey(TrimSpace(key))
    ensures var parsed := ParseSigned(TrimSpace(value), true);
      HeaderOf(key + ":" + value)
      == if parsed.None? || parsed.value < 0 || parsed.value > 1_048_576 then BadHeader else Length(parsed.value)
  {
    hide ParseSigned, TrimSpace, IsLengthKey, IndexByte;
    ColonAt(key, value);
    assert (key + ":" + value)[..|key|] == key && (key + ":" + value)[|key| + 1..] == value;
  }

  lemma KeyEnds(key: string)
    requires |key| == 14
    requires forall i :: 0 <= i < 14 ==> key[i] == "content-length"[i] || key[i] == "CONTENT-LENGTH"[i]
    ensures 0x21 <= key[0] as int <= 0x7E && 0x21 <= key[13] as int <= 0x7E
    ensures forall i :: 0 <= i < 14 ==> key[i] != ':'
  {
    assert key[0] == 'c' || key[0] == 'C';
    assert key[13] == 'h' || key[13] == 'H';
  }

  lemma DigitEnds(n: nat)
    ensures var s := PrintNat(n); s != "" && 0x21 <= s[0] as int <= 0x7E && 0x21 <= s[|s| - 1] as int <= 0x7E
  {
    var s := PrintNat(n);
    assert IsDigit(s[0]) && IsDigit(s[|s| - 1]);
  }

  lemma NoColon(a: string, key: string, b: string)
    requires White(a) && White(b) && forall i :: 0 <= i < |key| ==> key[i] != ':'
    ensures forall i :: 0 <= i < |a + key + b| ==> (a + key + b)[i] != ':'
  {
  }

  /** Any other name, or no colon, says nothing about the length. */
  lemma OtherHeaders(key: string, value: string)
    requires key != "" && 0x21 <= key[0] as int <= 0x7E && 0x21 <= key[|key| - 1] as int <= 0x7E
    requires forall i :: 0 <= i < |key| ==> key[i] != ':'
    requires |key| != 14 || exists i :: 0 <= i < 14 && key[i] != "content-length"[i] && key[i] != "CONTENT-LENGTH"[i]
    ensures HeaderOf(key + ":" + value) == Other && HeaderOf(key) == Other
  {
    hide ParseSigned, TrimSpace, IsLengthKey, IndexByte;
    KeysAre(key);
    Unpadded(key);
    ColonAt(key, value);
    assert (key + ":" + value)[..|key|] == key;
  }

  /** In front of the first frame tabs, newlines, carriage returns and blanks are skipped, and nothing else. */
  lemma {:induction false} LeadingBlanks(blanks: string, c: char, s: string)
    requires (forall i :: 0 <= i < |blanks| ==> blanks[i] as int in {9, 10, 13, 32}) && c as int !in {9, 10, 13, 32}
    ensures DropBlanks(blanks + [c] + s) == [c] + s
    decreases |blanks|
  {
    if blanks == "" {
      assert blanks + [c] + s == [c] + s && ([c] + s)[0] == c;
    } else {
      assert (blanks + [c] + s)[0] == blanks[0] && (blanks + [c] + s)[1..] == blanks[1..] + [c] + s;
      LeadingBlanks(blanks[1..], c, s);
    }
  }
}
