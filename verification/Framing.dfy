/**
 Content-Length framing of the MCP bridge: what one read takes from the input, and what it makes of written frames.
 */
module Framing {
  import opened Base
  import opened Decimal
  import Chain
  import ChainTheorems

  const MAX_BODY := 1024 * 1024

  /******* Trimming and comparing header text *******/

  predicate IsAsciiSpace(c: char) { c == ' ' || '\t' <= c <= '\r' }

  /** The two- and three-byte encodings of the other Unicode white space. */
  predicate WideTwo(a: char, b: char) { a as int == 0xC2 && (b as int == 0x85 || b as int == 0xA0) }

  predicate WideThree(a: char, b: char, c: char) {
    || (a as int == 0xE1 && b as int == 0x9A && c as int == 0x80)
    || (a as int == 0xE2 && b as int == 0x80
        && (0x80 <= c as int <= 0x8A || c as int == 0xA8 || c as int == 0xA9 || c as int == 0xAF))
    || (a as int == 0xE2 && b as int == 0x81 && c as int == 0x9F)
    || (a as int == 0xE3 && b as int == 0x80 && c as int == 0x80)
  }

  /** The width of the white space a text starts or ends with; 0 when there is none. */
  function FrontSpace(s: string): (n: nat)
    ensures n <= |s|
  {
    if s != "" && IsAsciiSpace(s[0]) then 1
    else if |s| >= 2 && WideTwo(s[0], s[1]) then 2
    else if |s| >= 3 && WideThree(s[0], s[1], s[2]) then 3
    else 0
  }

  function BackSpace(s: string): (n: nat)
    ensures n <= |s|
  {
    if s != "" && IsAsciiSpace(s[|s| - 1]) then 1
    else if |s| >= 2 && WideTwo(s[|s| - 2], s[|s| - 1]) then 2
    else if |s| >= 3 && WideThree(s[|s| - 3], s[|s| - 2], s[|s| - 1]) then 3
    else 0
  }

  function TrimFront(s: string): string { if FrontSpace(s) == 0 then s else TrimFront(s[FrontSpace(s)..]) }

  function TrimBack(s: string): string { if BackSpace(s) == 0 then s else TrimBack(s[..|s| - BackSpace(s)]) }

  /** `strings.TrimSpace`. */
  function TrimSpace(s: string): string { TrimBack(TrimFront(s)) }

  /** `strings.TrimRight(s, "\r\n")`. */
  function TrimEol(s: string): string {
    if s != "" && (s[|s| - 1] == '\r' || s[|s| - 1] == '\n') then TrimEol(s[..|s| - 1]) else s
  }

  function Lower(c: char): char { if 'A' <= c <= 'Z' then c - 'A' + 'a' else c }

  /** `strings.EqualFold` against this text, none of whose letters folds to anything outside ASCII. */
  predicate IsLengthKey(key: string) {
    && |key| == |"content-length"|
    && forall i :: 0 <= i < |key| ==> Lower(key[i]) == "content-length"[i]
  }

  /** `strings.IndexByte`, with the length of the text for -1. */
  function IndexByte(s: string, c: char): (n: nat)
    ensures n <= |s|
    ensures forall i :: 0 <= i < n ==> s[i] != c
    ensures n < |s| ==> s[n] == c
  {
    if s == "" || s[0] == c then 0 else 1 + IndexByte(s[1..], c)
  }

  /** What one non-blank header line says. */
  datatype Header = Other | Length(n: nat) | BadHeader

  function HeaderOf(line: string): Header {
    var idx := IndexByte(line, ':');
    if idx == |line| || !IsLengthKey(TrimSpace(line[..idx])) then Other
    else
      var parsed := ParseSigned(TrimSpace(line[idx + 1..]), true);
      if parsed.None? || parsed.value < 0 || parsed.value > MAX_BODY then BadHeader else Length(parsed.value)
  }

  /******* One read *******/

  datatype Outcome = Body(body: string) | EndOfInput | CutShort | BadLength | NoLength

  datatype Step = Step(outcome: Outcome, rest: string)

  /** After the blank line: the body. */
  function Payload(n: Option<nat>, data: string): Step {
    if n.None? then Step(NoLength, data)
    else if n.value <= |data| then Step(Body(data[..n.value]), data[n.value..])
    else if data == "" then Step(EndOfInput, "")
    else Step(CutShort, "")
  }

  /** `readLSP` with the length seen so far: what it returns, and what is left unread. */
  function ReadFrame(n: Option<nat>, data: string): (s: Step)
    ensures s.outcome.Body? ==> |s.outcome.body| + |s.rest| < |data|
    decreases |data|
  {
    if Chain.LineEnd(data) == |data| then Step(EndOfInput, "")
    else
      var line, rest := TrimEol(Chain.Line(data)), Chain.Rest(data);
      if line == "" then Payload(n, rest)
      else
        match HeaderOf(line)
        case Other => ReadFrame(n, rest)
        case Length(m) => ReadFrame(Some(m), rest)
        case BadHeader => Step(BadLength, rest)
  }

  predicate IsBlank(c: char) { c == ' ' || c == '\t' || c == '\n' || c == '\r' }

  function DropBlanks(data: string): string { if data != "" && IsBlank(data[0]) then DropBlanks(data[1..]) else data }

  /** The buffered input; reading consumes it. */
  class Reader {
    var unread: string

    constructor (data: string)
      ensures unread == data
    {
      unread := data;
    }

    /** `discardLeadingWS`: the blanks in front of the first message; None at the end of the input. */
    method DiscardLeadingWS() returns (first: Option<char>)
      modifies this
      ensures unread == DropBlanks(old(unread))
      ensures first == if unread == "" then None else Some(unread[0])
    {
      while unread != "" && IsBlank(unread[0])
        invariant DropBlanks(unread) == DropBlanks(old(unread))
        decreases |unread|
      {
        unread := unread[1..];
      }
      first := if unread == "" then None else Some(unread[0]);
    }

    /** A line with its newline; at the end of the input everything is consumed. */
    method ReadString() returns (line: Option<string>)
      modifies this
      ensures line.Some? <==> Chain.LineEnd(old(unread)) < |old(unread)|
      ensures line.Some? ==> line.value == Chain.Line(old(unread)) + "\n"
      ensures unread == Chain.Rest(old(unread))
    {
      var k := 0;
      while k < |unread| && unread[k] != '\n'
        invariant 0 <= k <= Chain.LineEnd(unread)
      {
        k := k + 1;
      }
      if k == |unread| {
        unread := "";
        return None;
      }
      line := Some(unread[..k + 1]);
      unread := unread[k + 1..];
    }

    /** `io.ReadFull` of n bytes. */
    method ReadFull(n: nat) returns (r: Outcome)
      modifies this
      ensures Step(r, unread) == Payload(Some(n), old(unread))
    {
      if n <= |unread| {
        r := Body(unread[..n]);
        unread := unread[n..];
      } else {
        r := if unread == "" then EndOfInput else CutShort;
        unread := "";
      }
    }

    method ReadLSP() returns (r: Outcome)
      modifies this
      ensures Step(r, unread) == ReadFrame(None, old(unread))
    {
      hide HeaderOf, TrimEol;
      var n: int := -1;
      while true
        invariant n >= -1
        invariant ReadFrame(if n < 0 then None else Some(n), unread) == ReadFrame(None, old(unread))
        decreases |unread|
      {
        ghost var before := unread;
        var raw := ReadString();
        if raw.None? {
          return EndOfInput;
        }
        TrimNewline(Chain.Line(before));
        var line := TrimEol(raw.value);
        if line == "" {
          break;
        }
        match HeaderOf(line)
        case Other =>
        case BadHeader =>
          return BadLength;
        case Length(parsed) =>
          n := parsed;
      }
      if n < 0 {
        return NoLength;
      }
      r := ReadFull(n);
    }
  }

  lemma TrimNewline(line: string)
    ensures TrimEol(line + "\n") == TrimEol(line)
  {
    assert (line + "\n")[..|line|] == line;
  }

  /******* A whole connection *******/

  /** The bodies handed to the dispatcher, and the error that ends the loop, if any. */
  datatype Session = Session(handled: seq<string>, error: Option<Outcome>)

  predicate Blank(body: string) { TrimSpace(body) == "" }

  function Serve(data: string): Session
    decreases |data|
  {
    var s := ReadFrame(None, data);
    match s.outcome
    case EndOfInput => Session([], None)
    case Body(b) =>
      var later := Serve(s.rest);
      if Blank(b) then later else later.(handled := [b] + later.handled)
    case _ => Session([], Some(s.outcome))
  }

  /**
   `serveLSP`; whether dispatching a body and writing the reply succeeds is a parameter. The loop ends as the whole
   input does, or right at the first body whose dispatch fails.
   */
  method ServeLSP(br: Reader, dispatches: string -> bool)
    returns (handled: seq<string>, error: Option<Outcome>, failed: bool)
    modifies br
    ensures !failed ==> Session(handled, error) == Serve(old(br.unread)) && forall b :: b in handled ==> dispatches(b)
    ensures failed ==>
              && handled != [] && handled <= Serve(old(br.unread)).handled && !dispatches(handled[|handled| - 1])
              && forall b :: b in handled[..|handled| - 1] ==> dispatches(b)
  {
    hide ReadFrame, Blank;
    handled := [];
    while true
      invariant var later := Serve(br.unread); Serve(old(br.unread)) == later.(handled := handled + later.handled)
      invariant forall b :: b in handled ==> dispatches(b)
      decreases |br.unread|
    {
      var r := br.ReadLSP();
      if r.EndOfInput? {
        return handled, None, false;
      }
      if !r.Body? {
        return handled, Some(r), false;
      }
      if !Blank(r.body) {
        ghost var before := handled;
        handled := handled + [r.body];
        if !dispatches(r.body) {
          assert handled[..|handled| - 1] == before;
          return handled, None, true;
        }
      }
    }
  }

  /******* Header blocks *******/

  ghost predicate HeaderLine(h: string) { TrimEol(h) != "" && forall i :: 0 <= i < |h| ==> h[i] != '\n' }

  function Lines(hs: seq<string>): string { if hs == [] then "" else hs[0] + "\n" + Lines(hs[1..]) }

  function Says(h: string): Header { HeaderOf(TrimEol(h)) }

  /** The length in force behind some header lines. */
  function LastLength(n: Option<nat>, hs: seq<string>): Option<nat> {
    if hs == [] then n
    else
      var h := Says(hs[|hs| - 1]);
      if h.Length? then Some(h.n) else LastLength(n, hs[..|hs| - 1])
  }

  /** It is that of the last length header, if there is one. */
  lemma {:induction false} LastLengthWins(n: Option<nat>, hs: seq<string>, k: nat)
    requires k <= |hs| && forall i :: k <= i < |hs| ==> !Says(hs[i]).Length?
    requires k > 0 ==> Says(hs[k - 1]).Length?
    ensures LastLength(n, hs) == if k == 0 then n else Some(Says(hs[k - 1]).n)
  {
    hide Says;
    if k < |hs| { LastLengthWins(n, hs[..|hs| - 1], k); }
  }

  lemma {:induction false} LinesSnoc(hs: seq<string>, h: string)
    ensures Lines(hs + [h]) == Lines(hs) + h + "\n"
  {
    if hs == [] {
      assert [h][1..] == [];
      assert hs + [h] == [h];
    } else {
      LinesSnoc(hs[1..], h);
      assert (hs + [h])[1..] == hs[1..] + [h];
    }
  }

  lemma OneHeader(n: Option<nat>, h: string, data: string)
    requires HeaderLine(h)
    ensures ReadFrame(n, h + "\n" + data) ==
      match Says(h)
      case Other => ReadFrame(n, data)
      case Length(m) => ReadFrame(Some(m), data)
      case BadHeader => Step(BadLength, data)
  {
    hide HeaderOf, TrimEol;
    ChainTheorems.ConsLine(h, data);
  }

  /** Header lines without a malformed length only fix the length; every other header is irrelevant. */
  lemma {:induction false} HeaderBlock(n: Option<nat>, hs: seq<string>, data: string)
    requires forall h :: h in hs ==> HeaderLine(h) && !Says(h).BadHeader?
    ensures ReadFrame(n, Lines(hs) + data) == ReadFrame(LastLength(n, hs), data)
    decreases |hs|
  {
    hide Says, ReadFrame, HeaderLine;
    if hs == [] {
      assert Lines(hs) + data == data;
    } else {
      var k := |hs| - 1;
      assert hs[k] in hs && forall h :: h in hs[..k] ==> h in hs;
      assert hs == hs[..k] + [hs[k]];
      LinesSnoc(hs[..k], hs[k]);
      assert Lines(hs) + data == Lines(hs[..k]) + (hs[k] + "\n" + data);
      HeaderBlock(n, hs[..k], hs[k] + "\n" + data);
      OneHeader(LastLength(n, hs[..k]), hs[k], data);
    }
  }

  /** The first malformed length ends the read right behind its line. */
  lemma BadBlock(n: Option<nat>, hs: seq<string>, bad: string, data: string)
    requires forall h :: h in hs ==> HeaderLine(h) && !Says(h).BadHeader?
    requires HeaderLine(bad) && Says(bad).BadHeader?
    ensures ReadFrame(n, Lines(hs) + bad + "\n" + data) == Step(BadLength, data)
  {
    hide Says, ReadFrame, HeaderLine;
    assert Lines(hs) + bad + "\n" + data == Lines(hs) + (bad + "\n" + data);
    HeaderBlock(n, hs, bad + "\n" + data);
    OneHeader(LastLength(n, hs), bad, data);
  }

  /** A block of headers, a blank line and a payload: the length in force decides what is taken. */
  lemma BlockAndPayload(hs: seq<string>, payload: string)
    requires forall h :: h in hs ==> HeaderLine(h) && !Says(h).BadHeader?
    ensures ReadFrame(None, Lines(hs) + "\r\n" + payload) == Payload(LastLength(None, hs), payload)
  {
    hide Says, HeaderLine, Lines, LastLength, ReadFrame, Payload;
    var data := "\r\n" + payload;
    assert Lines(hs) + "\r\n" + payload == Lines(hs) + data;
    HeaderBlock(None, hs, data);
    BlankLine(LastLength(None, hs), payload);
  }

  lemma BlankLine(n: Option<nat>, payload: string)
    ensures ReadFrame(n, "\r\n" + payload) == Payload(n, payload)
  {
    assert "\r\n" + payload == "\r" + "\n" + payload;
    ChainTheorems.ConsLine("\r", payload);
    assert TrimEol("\r"[..0]) == "";
  }

  /******* Written frames *******/

  function LengthLine(n: nat): string { "Content-Length: " + PrintNat(n) }

  /** What `writeLSP` sends for a body. */
  function Frame(body: string): string { LengthLine(|body|) + "\r\n\r\n" + body }

  predicate Solid(c: char) { (c as int) < 0x80 && !IsAsciiSpace(c) }

  lemma TrimSolid(s: string)
    requires s != "" && Solid(s[0]) && Solid(s[|s| - 1])
    ensures TrimSpace(s) == s && TrimSpace(" " + s) == s
  {
    hide FrontSpace, BackSpace;
    NarrowEnds(s);
    assert (" " + s)[1..] == s;
    assert FrontSpace(" " + s) == 1 by { LeadingBlank(s); }
  }

  lemma LeadingBlank(s: string)
    ensures FrontSpace(" " + s) == 1
  {
  }

  lemma NarrowEnds(s: string)
    requires s != "" && Solid(s[0]) && Solid(s[|s| - 1])
    ensures FrontSpace(s) == 0 && BackSpace(s) == 0
  {
  }

  lemma ColonAt(key: string, val: string)
    requires forall i :: 0 <= i < |key| ==> key[i] != ':'
    ensures IndexByte(key + ":" + val, ':') == |key|
  {
    hide IndexByte;
    var s := key + ":" + val;
    assert s[|key|] == ':' && forall i :: 0 <= i < |key| ==> s[i] == key[i];
  }

  lemma LengthHeader(n: nat)
    ensures HeaderOf(LengthLine(n)) == if n <= MAX_BODY then Length(n) else BadHeader
  {
    hide IsLengthKey, TrimSpace, ParseSigned, PrintNat, IndexByte;
    var key, digits := "Content-Length", PrintNat(n);
    assert AllDigits(digits);
    assert LengthLine(n) == key + ":" + (" " + digits);
    ColonAt(key, " " + digits);
    TrimSolid(key);
    TrimSolid(digits);
    ParsePrintInt(n, true);
    LengthKey();
    assert LengthLine(n)[..|key|] == key && LengthLine(n)[|key| + 1..] == " " + digits;
  }

  /** The header line as sent. */
  lemma LengthSays(n: nat)
    ensures HeaderLine(LengthLine(n) + "\r")
    ensures Says(LengthLine(n) + "\r") == if n <= MAX_BODY then Length(n) else BadHeader
  {
    hide HeaderOf, LengthLine, TrimEol;
    LengthHeader(n);
    LengthEol(n);
  }

  lemma LengthKey()
    ensures IsLengthKey("Content-Length")
  {
  }

  lemma LengthEol(n: nat)
    ensures HeaderLine(LengthLine(n) + "\r") && TrimEol(LengthLine(n) + "\r") == LengthLine(n) != ""
  {
    var l, digits := LengthLine(n), PrintNat(n);
    assert AllDigits(digits);
    hide PrintNat, AllDigits;
    assert l[|l| - 1] == digits[|digits| - 1];
    assert (l + "\r")[..|l|] == l;
    forall i | 0 <= i < |l| ensures l[i] != '\n' {
      if i >= 16 { assert l[i] == digits[i - 16]; }
    }
    hide LengthLine;
    assert TrimEol(l) == l;
    assert forall i :: 0 <= i < |l + "\r"| ==> (l + "\r")[i] != '\n';
  }

  /**
   A written frame reads back as its body, leaving what follows, exactly up to the length limit the writer ignores.
   */
  lemma FrameReadBack(body: string, rest: string)
    ensures ReadFrame(None, Frame(body) + rest) ==
      if |body| <= MAX_BODY then Step(Body(body), rest) else Step(BadLength, "\r\n" + body + rest)
  {
    hide LengthLine, Says, HeaderLine, ReadFrame;
    LengthSays(|body|);
    var h := LengthLine(|body|) + "\r";
    if |body| <= MAX_BODY {
      FrameBetween([], [], body, rest);
      assert Frame(body) + rest == Lines([]) + h + "\n" + Lines([]) + "\r\n" + body + rest;
    } else {
      assert Frame(body) + rest == Lines([]) + h + "\n" + ("\r\n" + body + rest);
      BadBlock(None, [], h, "\r\n" + body + rest);
    }
  }

  /** Other headers around the length do not change what is read. */
  lemma FrameBetween(before: seq<string>, after: seq<string>, body: string, rest: string)
    requires forall h :: h in before + after ==> HeaderLine(h) && Says(h) == Other
    requires |body| <= MAX_BODY
    ensures ReadFrame(None, Lines(before) + (LengthLine(|body|) + "\r") + "\n" + Lines(after) + "\r\n" + body + rest)
         == Step(Body(body), rest)
  {
    hide LengthLine, Says, HeaderLine, ReadFrame, Lines, LastLength;
    var h := LengthLine(|body|) + "\r";
    var hs := before + [h] + after;
    LengthSays(|body|);
    LinesAround(before, h, after);
    assert forall x :: x in hs ==> x in before + after || x == h;
    BlockAndPayload(hs, body + rest);
    assert Lines(hs) + "\r\n" + (body + rest) == Lines(hs) + "\r\n" + body + rest;
    assert hs[|before|] == h;
    assert forall i :: |before| + 1 <= i < |hs| ==> hs[i] in before + after;
    LastLengthWins(None, hs, |before| + 1);
    assert (body + rest)[..|body|] == body && (body + rest)[|body|..] == rest;
  }

  lemma LinesAround(before: seq<string>, h: string, after: seq<string>)
    ensures Lines(before + [h] + after) == Lines(before) + h + "\n" + Lines(after)
  {
    LinesConcat(before + [h], after);
    LinesSnoc(before, h);
  }

  lemma {:induction false} LinesConcat(a: seq<string>, b: seq<string>)
    ensures Lines(a + b) == Lines(a) + Lines(b)
  {
    if a == [] {
      assert a + b == b;
    } else {
      LinesConcat(a[1..], b);
      assert (a + b)[1..] == a[1..] + b && (a + b)[0] == a[0];
      assert a[0] + "\n" + (Lines(a[1..]) + Lines(b)) == a[0] + "\n" + Lines(a[1..]) + Lines(b);
    }
  }

  /******* Conversations *******/

  function Frames(bodies: seq<string>): string { if bodies == [] then "" else Frame(bodies[0]) + Frames(bodies[1..]) }

  function NotBlank(bodies: seq<string>): seq<string> {
    if bodies == [] then []
    else (if Blank(bodies[0]) then [] else [bodies[0]]) + NotBlank(bodies[1..])
  }

  lemma FrameServed(body: string, later: string)
    requires |body| <= MAX_BODY
    ensures Serve(Frame(body) + later)
         == if Blank(body) then Serve(later) else Session([body] + Serve(later).handled, Serve(later).error)
  {
    hide Frame, ReadFrame, Blank;
    FrameReadBack(body, later);
  }

  /** Frames in front of an input are handed over one by one, in order and byte for byte; blank bodies are dropped. */
  lemma {:induction false} FramesServed(bodies: seq<string>, rest: string)
    requires forall b :: b in bodies ==> |b| <= MAX_BODY
    ensures Serve(Frames(bodies) + rest) == Session(NotBlank(bodies) + Serve(rest).handled, Serve(rest).error)
    decreases |bodies|
  {
    hide Frame, Serve, Blank;
    if bodies == [] {
      assert Frames(bodies) + rest == rest;
      assert NotBlank(bodies) + Serve(rest).handled == Serve(rest).handled;
    } else {
      var later := Frames(bodies[1..]) + rest;
      assert bodies[0] in bodies && forall b :: b in bodies[1..] ==> b in bodies;
      assert Frames(bodies) + rest == Frame(bodies[0]) + later;
      FrameServed(bodies[0], later);
      FramesServed(bodies[1..], rest);
      assert NotBlank(bodies) + Serve(rest).handled
          == (if Blank(bodies[0]) then [] else [bodies[0]]) + Serve(later).handled;
    }
  }

  /** A whole conversation: exactly the sent bodies, and a clean end. */
  lemma ConversationServed(bodies: seq<string>)
    requires forall b :: b in bodies ==> |b| <= MAX_BODY
    ensures Serve(Frames(bodies)) == Session(NotBlank(bodies), None)
  {
    FramesServed(bodies, "");
    assert Frames(bodies) + "" == Frames(bodies);
    assert Serve("") == Session([], None);
    assert NotBlank(bodies) + [] == NotBlank(bodies);
  }

  lemma {:induction false} DropBlanksOf(blanks: string, data: string)
    requires (forall i :: 0 <= i < |blanks| ==> IsBlank(blanks[i])) && data != "" && !IsBlank(data[0])
    ensures DropBlanks(blanks + data) == data
    decreases |blanks|
  {
    if blanks == "" {
      assert blanks + data == data;
    } else {
      assert (blanks + data)[1..] == blanks[1..] + data;
      DropBlanksOf(blanks[1..], data);
    }
  }

  lemma FramesHead(bodies: seq<string>)
    requires bodies != []
    ensures |Frames(bodies)| > 0 && Frames(bodies)[0] == 'C'
  {
    hide PrintNat;
    assert Frames(bodies)[0] == Frame(bodies[0])[0] == LengthLine(|bodies[0]|)[0];
  }

  /** Blanks in front of a conversation do not hide it, and its first byte selects this framing. */
  lemma BlanksBefore(blanks: string, bodies: seq<string>)
    requires (forall i :: 0 <= i < |blanks| ==> IsBlank(blanks[i])) && bodies != []
    ensures DropBlanks(blanks + Frames(bodies)) == Frames(bodies) && |Frames(bodies)| > 0 && Frames(bodies)[0] != '{'
  {
    hide Frames, DropBlanks;
    FramesHead(bodies);
    DropBlanksOf(blanks, Frames(bodies));
  }

  /** A frame cut anywhere yields no message; it counts as an error only when part of the body arrived. */
  lemma TornFrame(body: string, k: nat)
    requires |body| <= MAX_BODY && k < |Frame(body)|
    ensures var head := |Frame(body)| - |body|;
      ReadFrame(None, Frame(body)[..k]) == if k <= head then Step(EndOfInput, "") else Step(CutShort, "")
  {
    hide LengthLine, Says, HeaderLine, ReadFrame;
    var h := LengthLine(|body|) + "\r";
    var head := |h| + 3;
    var data := Frame(body)[..k];
    LengthSays(|body|);
    if k <= |h| {
      assert data == h[..k];
      NoNewline(None, data, h);
    } else {
      var more := Frame(body)[|h| + 1..k];
      assert data == h + "\n" + more;
      OneHeader(None, h, more);
      if k < head {
        assert more == "\r\n"[..k - |h| - 1];
        NoNewlineYet(Some(|body|), more);
      } else {
        assert more == "\r\n" + body[..k - head];
        BlankLine(Some(|body|), body[..k - head]);
      }
    }
  }

  lemma NoNewline(n: Option<nat>, data: string, h: string)
    requires data <= h && HeaderLine(h)
    ensures ReadFrame(n, data) == Step(EndOfInput, "")
  {
    hide TrimEol;
    assert Chain.LineEnd(data) == |data|;
  }

  lemma NoNewlineYet(n: Option<nat>, data: string)
    requires data == "" || data == "\r"
    ensures ReadFrame(n, data) == Step(EndOfInput, "")
  {
    assert Chain.LineEnd(data) == |data|;
  }

  /** A connection that breaks inside a frame delivers exactly the frames before it. */
  lemma BrokenConnection(bodies: seq<string>, body: string, k: nat)
    requires (forall b :: b in bodies ==> |b| <= MAX_BODY) && |body| <= MAX_BODY && k < |Frame(body)|
    ensures var s := Serve(Frames(bodies) + Frame(body)[..k]);
      && s.handled == NotBlank(bodies)
      && s.error == if k <= |Frame(body)| - |body| then None else Some(CutShort)
  {
    hide Frame, Frames, NotBlank;
    FramesServed(bodies, Frame(body)[..k]);
    TornFrame(body, k);
    assert NotBlank(bodies) + [] == NotBlank(bodies);
  }
}
