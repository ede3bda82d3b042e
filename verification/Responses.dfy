/** Responses: the proxy's own are read back as they were meant, and a backend's pass through
    unchanged. */
module Responses {
  import opened Text
  import opened Numbers
  import opened Headers
  import opened Rewriting
  import opened Messages
  import opened Parser
  import opened Fragments
  import opened Relay
  import opened Invariants
  import opened EndToEnd

  // ---- generated responses ----------------------------------------------------------------

  lemma GeneratedNames()
    ensures ToLower("Content-Type") != CL && ToLower("Content-Type") != TE
    ensures ToLower("Content-Length") == CL && ToLower("Content-Length") != TE
    ensures ToLower("Connection") != CL && ToLower("Connection") != TE
  {
    var a := "Content-Length";
    assert |a| == 14 && |CL| == 14 && |TE| == 17 && |"Content-Type"| == 12 && |"Connection"| == 10;
    forall i | 0 <= i < |a| ensures LowerChar(a[i]) == CL[i] {}
  }

  lemma PrintIsClean(n: nat)
    ensures Tight(Print(n, 10)) && NoCrlf(Print(n, 10)) && Print(n, 10)[0] != '\n'
  {
    var s := Print(n, 10);
    forall i | 0 <= i < |s| ensures !IsBlank(s[i]) && s[i] != '\r' && s[i] != '\n' {
      assert !IsSpace(s[i]);
    }
  }

  lemma LengthLine(n: nat)
    requires n <= ULONG_MAX
    ensures var l := Field("Content-Length", Print(n, 10));
            Is(l, CL) && !Is(l, TE) && Stoul(Value(l), 10) == Some(n) && NoCrlf(l)
  {
    hide Print, Is, Value, Stoul, ToLower, NoCrlf, NumValue, DigitRun;
    GeneratedNames();
    PrintIsClean(n);
    StoulPrint(n, 10);
    NewLine("Content-Length", Print(n, 10));
  }

  /** A header value without line breaks or outer blanks. */
  ghost predicate Clean(value: string) {
    Tight(value) && NoCrlf(value) && (value == "" || value[0] != '\n')
  }

  lemma FixedLine(name: string, value: string)
    requires name == "Content-Type" || name == "Connection"
    requires Clean(value)
    ensures Neutral(Field(name, value)) && NoCrlf(Field(name, value))
  {
    GeneratedNames();
    hide Is, Value, ToLower;
    NewLine(name, value);
  }

  lemma PrintIntIsClean(i: int)
    ensures Unspaced(PrintInt(i)) && NoCr(PrintInt(i))
  {
    var d := Print(if i < 0 then -i else i, 10);
    forall k | 0 <= k < |d| ensures d[k] != ' ' && d[k] != '\r' {
      assert !IsSpace(d[k]);
    }
    hide Print;
  }

  predicate Unspaced(s: string) {
    forall i :: 0 <= i < |s| ==> s[i] != ' '
  }

  lemma SpaceEnds(a: string, b: string)
    requires Unspaced(a)
    ensures var l := a + " " + b;
            FindChar(l, ' ') == |a| && l[..|a|] == a && l[|a| + 1..] == b
  {
    var l := a + " " + b;
    assert l[|a|] == ' ' && forall i :: 0 <= i < |a| ==> l[i] == a[i];
  }

  /** The status text is what stands between the first two spaces. */
  lemma StatusTextBetween(version: string, s: string, after: string)
    requires Unspaced(version) && Unspaced(s)
    ensures StatusText(version + " " + (s + " " + after)) == Some(s)
  {
    var tail := s + " " + after;
    var h := version + " " + tail;
    SpaceEnds(version, tail);
    SpaceEnds(s, after);
    FindCharSuffix(h, ' ', |version| + 1);
    hide FindChar;
    assert h[|version| + 1..|version| + 1 + |s|] == tail[..|s|];
  }

  ghost predicate NoCr(s: string) {
    forall i :: 0 <= i < |s| ==> s[i] != '\r'
  }

  lemma NoCrConcat(a: string, b: string)
    requires NoCr(a) && NoCr(b)
    ensures NoCr(a + b)
  {
  }

  /** The first line of a response the proxy makes. */
  lemma StatusLineIsClean(code: int)
    ensures NoCrlf(GeneratedLines(code, "", 0)[0])
  {
    PrintIntIsClean(code);
    StatusMessageIsClean(code);
    var a, s, m := "HTTP/1.1 ", PrintInt(code), StatusMessage(code);
    hide PrintInt, StatusMessage;
    NoCrConcat(a, s);
    NoCrConcat(a + s, " ");
    NoCrConcat(a + s + " ", m);
  }

  lemma StatusMessageIsClean(code: int)
    ensures NoCr(StatusMessage(code))
  {
    assert NoCr("Internal Server Error") && NoCr("Bad Gateway");
    assert NoCr("Bad Request") && NoCr("Method Not Allowed");
    assert NoCr("Not Found") && NoCr("OK") && NoCr("Unknown Status");
    hide NoCr;
  }

  /** The code is read back off any header that starts with that line. */
  lemma StatusIsReadBack(code: int, after: string)
    ensures StatusText(GeneratedLines(code, "", 0)[0] + after) == Some(PrintInt(code))
  {
    PrintIntIsClean(code);
    var s, m := PrintInt(code), StatusMessage(code);
    hide PrintInt, StatusMessage, StatusText;
    StatusTextBetween("HTTP/1.1", s, m + after);
    assert "HTTP/1.1" + " " == "HTTP/1.1 ";
    Assoc("HTTP/1.1 ", s + " ", m + after);
    Assoc("HTTP/1.1 ", s, " ");
    Assoc("HTTP/1.1 " + s + " ", m, after);
  }

  lemma FourLines(a: string, b: string, c: string, d: string, n: nat)
    requires NoCrlf(a) && NoCrlf(b) && NoCrlf(c) && NoCrlf(d)
    requires Neutral(b) && Neutral(d)
    requires Is(c, CL) && !Is(c, TE) && Stoul(Value(c), 10) == Some(n)
    requires b != "" && c != "" && d != ""
    ensures var lines := [a, b, c, d];
            Block(lines) && !Chunked(lines) && Length(lines) == n
  {
    hide Is, Value, Stoul, HasChunked, NoCrlf;
    var lines := [a, b, c, d];
    assert LengthUpTo(lines, 4) == LengthUpTo(lines, 3) == n;
  }

  /** The lines of a generated header are one block that declares exactly the given length. */
  lemma GeneratedFraming(code: int, contentType: string, n: nat)
    requires Clean(contentType) && n <= ULONG_MAX
    ensures var lines := GeneratedLines(code, contentType, n);
            Block(lines) && !Chunked(lines) && Length(lines) == n
  {
    StatusLineIsClean(code);
    FixedLine("Content-Type", contentType);
    FixedLine("Connection", "close");
    LengthLine(n);
    var lines := GeneratedLines(code, contentType, n);
    assert lines[0] == GeneratedLines(code, "", 0)[0];
    hide Is, Value, Stoul, PrintInt, Print, NoCrlf, StatusMessage, Block, Chunked, Length, Neutral;
    FourLines(lines[0], lines[1], lines[2], lines[3], n);
  }

  /** A response with a generated header for a content of this declared length. */
  function MakeResponse(code: int, contentType: string, content: string, length: nat): HttpContext {
    FRESH.(content := content, header := Join(GeneratedLines(code, contentType, length)) + CRLF).Complete()
  }

  lemma GeneratedIsWhole(code: int, contentType: string, content: string)
    requires Clean(contentType) && |content| <= STRING_MAX
    ensures Whole(MakeResponse(code, contentType, content, |content|))
  {
    GeneratedFraming(code, contentType, |content|);
    hide GeneratedLines, Block, Chunked, Length, Lines, Framed, Join;
    JoinedIsFramed(GeneratedLines(code, contentType, |content|));
  }

  /** get_response_head reads the code back off a generated header. */
  lemma GeneratedStatus(code: int, contentType: string, n: nat)
    requires INT_MIN <= code <= INT_MAX
    ensures WithResponseHead(FRESH.(header := Join(GeneratedLines(code, contentType, n)) + CRLF)).statusCode == code
  {
    var lines := GeneratedLines(code, contentType, n);
    var l, m := lines[0], Join(lines[1..]);
    assert l == GeneratedLines(code, "", 0)[0];
    hide GeneratedLines, StatusText, Stoi, PrintInt;
    Assoc(l + CRLF, m, CRLF);
    Assoc(l, CRLF, m + CRLF);
    StatusIsReadBack(code, CRLF + (m + CRLF));
    StoiPrint(code);
  }

  /** A generated response, in any fragments, is delivered once with its own header, its code and
      exactly its content; the parser is then ready for the next message with nothing left over. */
  lemma GeneratedIsReadBack(side: Side, code: int, contentType: string, content: string, pieces: seq<string>)
    requires !side.isRequest && IsAddress(side.ip)
    requires INT_MIN <= code <= INT_MAX && Clean(contentType) && |content| <= STRING_MAX
    requires Concat(pieces) == MakeResponse(code, contentType, content, |content|).Bytes()
    ensures var d := MakeResponse(code, contentType, content, |content|);
            Feed(side, START, pieces) == Parse(ReadHeaders, "", FRESH, [d.(statusCode := code)], 0)
  {
    var d := MakeResponse(code, contentType, content, |content|);
    GeneratedIsWhole(code, contentType, content);
    GeneratedStatus(code, contentType, |content|);
    hide Feed, Concat, IsAddress, GeneratedLines, Join, Lines, Clean, Chunked, Length;
    MessageIsReadBack(side, d, pieces);
    ResponsesPass(side, d);
  }

  /** A response's header leaves the parser as it came. */
  lemma ResponsesPass(side: Side, d: HttpContext)
    requires !side.isRequest && Framed(d.header)
    ensures Redelivered(side, d) == WithResponseHead(FRESH.(header := d.header)).(content := d.content).Complete()
  {
    SplitJoin(Lines(d.header));
    hide Lines, Join, Block, WithResponseHead;
  }

  lemma {:induction false} DeliveredGrows(side: Side, p: Parse)
    ensures p.delivered <= Run(side, p).delivered
    decreases |p.rawBuffer|, Rank(p.state)
  {
    hide HeaderRead, Chunked, Length, FindBlank, FindCrlf, Text.Split, Stoul;
    if CanStep(p) {
      DeliveredGrows(side, Step(side, p));
    }
  }

  /** A whole message at the start of a connection is the first one delivered, whatever follows. */
  lemma FirstDelivered(side: Side, d: HttpContext, rest: string)
    requires Whole(d)
    ensures var q := Run(side, START.Append(d.Bytes() + rest));
            q.delivered != [] && q.delivered[0] == Redelivered(side, d)
  {
    hide Whole, Run, Redelivered, Plain;
    assert "" + (d.Bytes() + rest) == d.Bytes() + rest;
    ReadWhole(side, START.Append(d.Bytes() + rest), d, rest);
    var r := Redelivered(side, d);
    assert [] + [r] == [r];
    DeliveredGrows(side, Parse(ReadHeaders, rest, FRESH, [r], 0));
  }

  /** What gen_http_header makes of a content without NUL, followed by that content, is read back in any
      fragments as one message with that header, that code and exactly that content; the parser is then
      ready for the next message with nothing left over. */
  lemma GenHttpHeaderReadBack(side: Side, code: int, content: string, pieces: seq<string>)
    requires !side.isRequest && IsAddress(side.ip)
    requires INT_MIN <= code <= INT_MAX && |content| <= STRING_MAX
    requires forall i :: 0 <= i < |content| ==> content[i] != '\0'
    requires Concat(pieces) == GenHttpHeader(content, code) + content
    ensures var q := Feed(side, START, pieces);
            && q.state == ReadHeaders && q.rawBuffer == "" && q.rejected == 0
            && |q.delivered| == 1
            && q.delivered[0].statusCode == code && q.delivered[0].content == content
            && q.delivered[0].header == GenHttpHeader(content, code)
  {
    assert CStringLength(content) == |content|;
    TextHtmlIsClean();
    hide Feed, Concat, IsAddress, GeneratedLines, Join, Clean, CStringLength;
    GeneratedIsReadBack(side, code, "text/html", content, pieces);
  }

  /** gen_http_header takes the length with strlen, so a content with a NUL is read back only up to
      it: the whole content arrives exactly when there is none. */
  lemma GenHttpHeaderReadBackIff(side: Side, code: int, content: string)
    requires |content| <= STRING_MAX
    ensures var q := Run(side, START.Append(GenHttpHeader(content, code) + content));
            && q.delivered != []
            && q.delivered[0].content == content[..CStringLength(content)]
            && (q.delivered[0].content == content <==> forall i :: 0 <= i < |content| ==> content[i] != '\0')
  {
    hide GeneratedLines, Join, Whole, Clean, Run, Redelivered, FindChar;
    var z := CStringLength(content);
    var whole, rest := content[..z], content[z..];
    var d := MakeResponse(code, "text/html", whole, z);
    assert content == whole + rest;
    TextHtmlIsClean();
    GeneratedIsWhole(code, "text/html", whole);
    Assoc(d.header, whole, rest);
    FirstDelivered(side, d, rest);
    RedeliveredContent(side, d);
    assert z < |content| ==> content[z] == '\0';
  }

  lemma TextHtmlIsClean()
    ensures Clean("text/html")
  {
  }

  lemma RedeliveredContent(side: Side, d: HttpContext)
    ensures Redelivered(side, d).content == d.content
  {
    hide HeaderRead;
  }

  // ---- responses passed on ----------------------------------------------------------------

  /** What is held of the unfinished message. */
  function Held(state: ConnState, c: HttpContext): string {
    if state == ReadBody then c.header + c.content else ""
  }

  /** The bytes of the delivered messages, then the unfinished one, then the buffer. */
  function AllBytes(p: Parse): string {
    Flat(p.delivered) + Held(p.state, p.tmpContext) + p.rawBuffer
  }

  /** A response header is stored exactly as it was cut off the buffer, blank line included. */
  lemma ResponseHeaderBytes(side: Side, buf: string)
    requires !side.isRequest && FindBlank(buf) != -1
    ensures var e := FindBlank(buf);
            && HeaderRead(side, buf[..e + 2]).header + buf[e + 4..] == buf
            && |HeaderRead(side, buf[..e + 2]).header| == e + 4
            && HeaderRead(side, buf[..e + 2]).content == ""
  {
    hide FindBlank, Block, HeaderRead, Text.Split, Join, Headed;
    CutIsBlock(buf);
    var e := FindBlank(buf);
    HeaderReadFields(side, buf[..e + 2]);
    CutAtBlank(buf, e);
  }

  lemma CutAtBlank(buf: string, e: int)
    requires BlankAt(buf, e)
    ensures buf == buf[..e + 2] + CRLF + buf[e + 4..]
  {
  }

  lemma DeliverBytes(p: Parse, c: HttpContext, rest: string)
    ensures AllBytes(p.Deliver(c, ReadHeaders, rest)) == Flat(p.delivered) + (c.Bytes() + rest)
  {
    hide Flat;
    FlatSnoc(p.delivered, c.Complete());
    Assoc(Flat(p.delivered), c.Bytes(), rest);
    assert Flat(p.delivered + [c.Complete()]) + "" == Flat(p.delivered + [c.Complete()]);
  }

  /** A header cut off the buffer keeps every byte, unless it is dropped. */
  lemma HeaderCutBytes(side: Side, p: Parse, header: string, rest: string)
    requires p.state == ReadHeaders && !Chunked(Split(header))
    requires var c := HeaderRead(side, header);
             c.header != "" && c.content == "" && c.header + rest == p.rawBuffer
    ensures var q := HeaderCut(side, p, header, rest);
            if Length(Split(header)) == ULONG_MAX
            then q.rejected == p.rejected + 1 && |AllBytes(q)| < |AllBytes(p)|
            else q.rejected == p.rejected && AllBytes(q) == AllBytes(p)
  {
    var c, f := HeaderRead(side, header), Flat(p.delivered);
    hide HeaderRead, Length, Text.Split, Flat;
    DeliverBytes(p, c, rest);
    assert f + "" == f && c.header + "" == c.header;
    Assoc(f, c.header, rest);
  }

  /** The header block at the head of the buffer is not chunked and declares the length 2^64 - 1, which
      the code takes for an error. */
  ghost predicate DropsBlock(p: Parse) {
    && p.state == ReadHeaders && FindBlank(p.rawBuffer) != -1
    && var lines := Split(p.rawBuffer[..FindBlank(p.rawBuffer) + 2]);
       !Chunked(lines) && Length(lines) == ULONG_MAX
  }

  /** Some header block of the stream is such a one. */
  ghost predicate Drops(side: Side, p: Parse)
    decreases |p.rawBuffer|, Rank(p.state)
  {
    CanStep(p) && (DropsBlock(p) || Drops(side, Step(side, p)))
  }

  lemma StepHeadersBytes(side: Side, p: Parse)
    requires !side.isRequest && CanStep(p) && p.state == ReadHeaders && Plain(side, p)
    ensures var q := Step(side, p);
            if DropsBlock(p) then q.rejected == p.rejected + 1 && |AllBytes(q)| < |AllBytes(p)|
            else q.rejected == p.rejected && AllBytes(q) == AllBytes(p)
  {
    var e := FindBlank(p.rawBuffer);
    StepIsHeaders(side, p);
    ResponseHeaderBytes(side, p.rawBuffer);
    assert Plain(side, Step(side, p));
    hide HeaderRead, Chunked, Length, FindBlank, Text.Split, AllBytes, StepHeaders;
    HeaderCutBytes(side, p, p.rawBuffer[..e + 2], p.rawBuffer[e + 4..]);
  }

  lemma StepBodyBytes(p: Parse)
    requires p.state == ReadBody
    ensures AllBytes(StepBody(p)) == AllBytes(p)
    ensures StepBody(p).rejected == p.rejected
  {
    var f, c, buf := Flat(p.delivered), p.tmpContext, p.rawBuffer;
    var n := Min(c.remaining, |buf|);
    var d, rest := Take(c, buf), buf[n..];
    hide Flat;
    assert buf == buf[..n] + rest;
    Assoc(c.content, buf[..n], rest);
    Assoc(c.header, c.content, buf);
    Assoc(c.header, d.content, rest);
    Assoc(f, c.header + c.content, buf);
    Assoc(f, d.header + d.content, rest);
    DeliverBytes(p, d, rest);
  }

  /** Response transparency. Over any run without chunked messages the delivered headers and
      contents, the unfinished message and the buffer are together exactly the bytes received, if
      and only if the stream has no header block with a Content-Length of 2^64 - 1. */
  lemma {:induction false} ResponseTransparency(side: Side, p: Parse)
    requires !side.isRequest && Plain(side, p)
    ensures var q := Run(side, p);
            && |AllBytes(q)| <= |AllBytes(p)|
            && (AllBytes(q) == AllBytes(p) <==> !Drops(side, p))
            && q.rejected >= p.rejected
            && (q.rejected == p.rejected <==> !Drops(side, p))
    decreases |p.rawBuffer|, Rank(p.state)
  {
    hide AllBytes, DropsBlock;
    if CanStep(p) {
      if p.state == ReadHeaders {
        StepHeadersBytes(side, p);
      } else {
        assert !DropsBlock(p) by { OnlyHeadersDrop(p); }
        StepBodyBytes(p);
      }
      ResponseTransparency(side, Step(side, p));
    }
  }

  lemma OnlyHeadersDrop(p: Parse)
    requires p.state != ReadHeaders
    ensures !DropsBlock(p)
  {
  }

  /** As written, in any fragments: what a backend without chunked responses has sent so far is exactly
      what has been passed on, held and buffered, if and only if it has sent no such block. */
  lemma ResponseStream(side: Side, pieces: seq<string>)
    requires !side.isRequest && Plain(side, START.Append(Concat(pieces)))
    ensures var q, p := Feed(side, START, pieces), START.Append(Concat(pieces));
            && (AllBytes(q) == Concat(pieces) <==> !Drops(side, p))
            && (q.rejected == 0 <==> !Drops(side, p))
  {
    hide Plain, Feed, Concat, Run, Drops;
    var p := START.Append(Concat(pieces));
    PlainFragmentationIndependence(side, START, pieces);
    ResponseTransparency(side, p);
    assert AllBytes(p) == Concat(pieces) by {
      assert "" + "" + ("" + Concat(pieces)) == Concat(pieces);
    }
  }

  // ---- a response that is dropped ---------------------------------------------------------

  /** stoul negates -1 to 2^64 - 1. */
  lemma MinusOne()
    ensures Stoul("-1", 10) == Some(ULONG_MAX)
  {
    var s := "1";
    assert SkipSpace("-1") == "-1" && "-1"[1..] == s;
    assert DigitRun(s, 10) == 1 && s[..1] == s && s[..0] == "";
    assert NumValue(s, 10) == 1;
  }

  /** A header whose last line is a Content-Length of -1 leaves the parser as if it had never been sent,
      and what follows it is read as the next header. */
  lemma MinusOneIsDropped(side: Side, p: Parse, header: string, rest: string)
    requires p.state == ReadHeaders && p.rawBuffer == header + rest
    requires Framed(header) && !Chunked(Lines(header)) && |Lines(header)| > 1
    requires var l := Lines(header)[|Lines(header)| - 1]; Is(l, CL) && Value(l) == "-1"
    ensures Drops(side, p)
    ensures Run(side, p) == Run(side, Parse(ReadHeaders, rest, FRESH, p.delivered, p.rejected + 1))
  {
    hide *;
    LastLineCounts(Lines(header));
    StepFramed(side, p, header, rest);
    RunStep(side, p);
    HeaderDropped(side, p, Join(Lines(header)), rest);
    FramedBlockDrops(p, header, rest);
    DropsNow(side, p);
  }

  lemma LastLineCounts(lines: seq<string>)
    requires |lines| > 1 && Is(lines[|lines| - 1], CL) && Value(lines[|lines| - 1]) == "-1"
    ensures Length(lines) == ULONG_MAX
  {
    MinusOne();
    hide Is, Value, Stoul;
  }

  lemma HeaderDropped(side: Side, p: Parse, header: string, rest: string)
    requires p.state == ReadHeaders && !Chunked(Split(header)) && Length(Split(header)) == ULONG_MAX
    ensures HeaderCut(side, p, header, rest) == Parse(ReadHeaders, rest, FRESH, p.delivered, p.rejected + 1)
  {
    hide HeaderRead, Chunked, Length, Text.Split;
  }

  lemma FramedBlockDrops(p: Parse, header: string, rest: string)
    requires p.state == ReadHeaders && p.rawBuffer == header + rest
    requires Framed(header) && !Chunked(Lines(header)) && Length(Lines(header)) == ULONG_MAX
    ensures DropsBlock(p)
  {
    hide Chunked, Length, Lines, FindBlank, Text.Split, Join, Block;
    ReadFramed(header, rest);
    BlankAtEnd(Lines(header), rest);
    assert FindBlank(p.rawBuffer) + 2 == |header| - 2;
  }

  lemma DropsNow(side: Side, p: Parse)
    requires CanStep(p) && DropsBlock(p)
    ensures Drops(side, p)
  {
    hide DropsBlock, CanStep, Step;
  }

  /** -2 is read as 2^64 - 2, which is not that value and passes for a length. */
  lemma MinusTwo()
    ensures Stoul("-2", 10) == Some(ULONG_MAX - 1)
  {
    var s := "2";
    assert SkipSpace("-2") == "-2" && "-2"[1..] == s;
    assert DigitRun(s, 10) == 1 && s[..1] == s && s[..0] == "";
    assert NumValue(s, 10) == 2;
  }

  /** A header whose last line is a Content-Length of -2 kills the process, with everything from that
      header on unread. */
  lemma MinusTwoKills(side: Side, p: Parse, header: string, rest: string)
    requires p.state == ReadHeaders && p.rawBuffer == header + rest
    requires Framed(header) && !Chunked(Lines(header)) && |Lines(header)| > 1
    requires var l := Lines(header)[|Lines(header)| - 1]; Is(l, CL) && Value(l) == "-2"
    ensures Kills(side, p)
    ensures var q := Handle(side, p); q.state == Aborted && q.rawBuffer == p.rawBuffer && q.delivered == p.delivered
  {
    hide *;
    LastLineIsMinusTwo(Lines(header));
    StepFramed(side, p, header, rest);
    RunStep(side, p);
    HeaderThrows(side, p, Join(Lines(header)), rest);
    AbortedAtOnce(side, p);
  }

  lemma LastLineIsMinusTwo(lines: seq<string>)
    requires |lines| > 1 && Is(lines[|lines| - 1], CL) && Value(lines[|lines| - 1]) == "-2"
    ensures STRING_MAX < Length(lines) < ULONG_MAX
  {
    MinusTwo();
    hide Is, Value, Stoul;
  }

  lemma HeaderThrows(side: Side, p: Parse, header: string, rest: string)
    requires !Chunked(Split(header)) && STRING_MAX < Length(Split(header)) < ULONG_MAX
    ensures var q := HeaderCut(side, p, header, rest);
            q.state == Aborted && q.rawBuffer == p.rawBuffer && q.delivered == p.delivered
  {
    hide HeaderRead, Chunked, Length, Text.Split;
  }

  lemma AbortedAtOnce(side: Side, p: Parse)
    requires CanStep(p) && Step(side, p).state == Aborted
    ensures Kills(side, p) && Handle(side, p) == Step(side, p)
  {
    hide Step, Throws;
    StepAbortsIff(side, p);
    DeadStops(side, Step(side, p));
  }

  const NO_LENGTH := "HTTP/1.1 200 OK" + CRLF + ("Content-Length: -1" + CRLF) + CRLF

  /** The input for which transparency fails: a backend that sends this response has all its bytes
      thrown away. */
  lemma DroppedResponse(side: Side)
    requires !side.isRequest
    ensures Drops(side, START.Append(NO_LENGTH))
    ensures Handle(side, START.Append(NO_LENGTH)) == START.(rejected := 1)
    ensures AllBytes(START.(rejected := 1)) == "" != NO_LENGTH
  {
    var status, length := "HTTP/1.1 200 OK", Field("Content-Length", "-1");
    NoLengthLines();
    TwoLines(status, "-1");
    hide Is, Value, NoCrlf, HasChunked, Text.Split, FindBlank, Block, Framed, Lines, Join, Chunked, Run, Drops, Clean;
    JoinedIsFramed([status, length]);
    assert START.Append(NO_LENGTH).rawBuffer == NO_LENGTH + "";
    MinusOneIsDropped(side, START.Append(NO_LENGTH), NO_LENGTH, "");
    RunStops(side, Parse(ReadHeaders, "", FRESH, [], 1));
  }

  /** A start line and a Content-Length line with a printable value. */
  lemma TwoLines(start: string, value: string)
    requires NoCrlf(start) && Clean(value)
    ensures var length := Field("Content-Length", value);
            && Block([start, length]) && !Chunked([start, length])
            && Is(length, CL) && Value(length) == value
  {
    var length := Field("Content-Length", value);
    GeneratedNames();
    hide Is, Value, ToLower, NoCrlf, HasChunked;
    NewLine("Content-Length", value);
    assert length != "" by { assert length[0] == 'C'; }
  }

  lemma NoLengthLines()
    ensures NoCrlf("HTTP/1.1 200 OK") && Clean("-1")
    ensures Join(["HTTP/1.1 200 OK", Field("Content-Length", "-1")]) + CRLF == NO_LENGTH
  {
    assert Field("Content-Length", "-1") == "Content-Length: -1";
    JoinTwo("HTTP/1.1 200 OK", Field("Content-Length", "-1"));
    hide Join;
  }

  const HUGE_LENGTH := "GET / HTTP/1.1" + CRLF + ("Content-Length: -2" + CRLF) + CRLF

  /** The input that kills a worker: this request, whatever comes with it. */
  lemma KillingRequest(side: Side, rest: string)
    ensures Kills(side, START.Append(HUGE_LENGTH + rest))
    ensures Handle(side, START.Append(HUGE_LENGTH + rest)).state == Aborted
    ensures Handle(side, START.Append(HUGE_LENGTH + rest)).delivered == []
  {
    var start, length := "GET / HTTP/1.1", Field("Content-Length", "-2");
    HugeLengthLines();
    hide *;
    TwoLines(start, "-2");
    JoinedIsFramed([start, length]);
    var p := START.Append(HUGE_LENGTH + rest);
    FreshBuffer(HUGE_LENGTH + rest);
    MinusTwoKills(side, p, HUGE_LENGTH, rest);
  }

  lemma FreshBuffer(x: string)
    ensures START.Append(x).state == ReadHeaders && START.Append(x).rawBuffer == x && START.Append(x).delivered == []
  {
    assert "" + x == x;
  }

  lemma HugeLengthLines()
    ensures NoCrlf("GET / HTTP/1.1") && Clean("-2")
    ensures Join(["GET / HTTP/1.1", Field("Content-Length", "-2")]) + CRLF == HUGE_LENGTH
  {
    assert Field("Content-Length", "-2") == "Content-Length: -2";
    JoinTwo("GET / HTTP/1.1", Field("Content-Length", "-2"));
    hide Join;
  }

  lemma JoinTwo(a: string, b: string)
    ensures Join([a, b]) == a + CRLF + (b + CRLF)
  {
    JoinCons(a, [b]);
    JoinCons(b, []);
    assert [a] + [b] == [a, b] && [b] + [] == [b];
    assert b + CRLF + "" == b + CRLF;
  }
}
