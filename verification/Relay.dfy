/** Whole messages: what the parser delivers is framed so that the next parser on the path cuts the
    byte stream at the same places. */
module Relay {
  import opened Text
  import opened Headers
  import opened Messages
  import opened Parser
  import opened Fragments

  // ---- framed messages ----------------------------------------------------------------

  /** The lines of a header text that ends with its blank line. */
  function Lines(header: string): seq<string> {
    if |header| < 2 then [] else Split(header[..|header| - 2])
  }

  /** A header text made of one block and the blank line. */
  ghost predicate Framed(header: string) {
    Block(Lines(header)) && header == Join(Lines(header)) + CRLF
  }

  lemma JoinedIsFramed(lines: seq<string>)
    requires Block(lines)
    ensures Framed(Join(lines) + CRLF) && Lines(Join(lines) + CRLF) == lines
  {
    var h := Join(lines) + CRLF;
    assert h[..|h| - 2] == Join(lines);
    SplitJoin(lines);
  }

  /** A message whose Content-Length is the length of its content, and one a string can have. */
  ghost predicate Whole(d: HttpContext) {
    && Framed(d.header)
    && !Chunked(Lines(d.header))
    && Length(Lines(d.header)) == |d.content| <= STRING_MAX
  }

  /** The bytes of messages, one after the other. */
  function Flat(ds: seq<HttpContext>): string {
    if ds == [] then "" else Flat(ds[..|ds| - 1]) + ds[|ds| - 1].Bytes()
  }

  lemma FlatSnoc(ds: seq<HttpContext>, d: HttpContext)
    ensures Flat(ds + [d]) == Flat(ds) + d.Bytes()
  {
    assert (ds + [d])[..|ds|] == ds;
  }

  // ---- reading a whole message ----------------------------------------------------------

  /** The parser cuts a framed header off the buffer and rewrites exactly its lines. */
  lemma ReadFramed(header: string, rest: string)
    requires Framed(header)
    ensures var buf := header + rest;
            && FindBlank(buf) == |header| - 4
            && buf[..|header| - 2] == Join(Lines(header)) && buf[|header|..] == rest
            && Split(buf[..|header| - 2]) == Lines(header)
  {
    var lines, buf := Lines(header), header + rest;
    BlankAtEnd(lines, rest);
    SplitJoin(lines);
    hide Text.Split, FindBlank, Join, Block;
    assert buf[..|header| - 2] == Join(lines);
  }

  /** What a parser delivers for a whole message. */
  function Redelivered(side: Side, d: HttpContext): HttpContext {
    HeaderRead(side, Join(Lines(d.header))).(content := d.content).Complete()
  }

  lemma StepIsHeaders(side: Side, p: Parse)
    requires p.state == ReadHeaders && FindBlank(p.rawBuffer) != -1
    ensures CanStep(p) && Step(side, p) == StepHeaders(side, p)
    ensures var e := FindBlank(p.rawBuffer);
            StepHeaders(side, p) == HeaderCut(side, p, p.rawBuffer[..e + 2], p.rawBuffer[e + 4..])
  {
    hide FindBlank, HeaderCut;
  }

  /** READ_HEADERS on a framed header cuts off its lines and leaves what follows it. */
  lemma StepFramed(side: Side, p: Parse, header: string, rest: string)
    requires p.state == ReadHeaders && p.rawBuffer == header + rest && Framed(header)
    ensures CanStep(p) && Step(side, p) == HeaderCut(side, p, Join(Lines(header)), rest)
    ensures Split(Join(Lines(header))) == Lines(header)
  {
    ReadFramed(header, rest);
    var e := FindBlank(p.rawBuffer);
    assert e + 2 == |header| - 2 && e + 4 == |header|;
    hide *;
    assert CanStep(p) && Step(side, p) == StepHeaders(side, p) by { StepIsHeaders(side, p); }
    assert StepHeaders(side, p) == HeaderCut(side, p, p.rawBuffer[..e + 2], p.rawBuffer[e + 4..]) by {
      StepIsHeaders(side, p);
    }
  }

  lemma RunStep(side: Side, p: Parse)
    requires CanStep(p)
    ensures Run(side, p) == Run(side, Step(side, p))
    ensures (p.state == ReadHeaders || p.state == ReadBody) && Plain(side, Step(side, p)) ==> Plain(side, p)
  {
    hide CanStep, Step;
  }

  /** The step over the header of a whole message. */
  lemma HeaderOfWhole(side: Side, p: Parse, d: HttpContext, rest: string)
    requires p.state == ReadHeaders && p.rawBuffer == d.header + rest && Whole(d)
    ensures var c := HeaderRead(side, Join(Lines(d.header)));
            && CanStep(p) && c.content == "" && c.remaining == 0
            && Step(side, p) == if d.content == "" then p.Deliver(c, ReadHeaders, rest)
                                else p.(state := ReadBody, rawBuffer := rest,
                                        tmpContext := c.(remaining := |d.content|))
  {
    StepFramed(side, p, d.header, rest);
    HeaderReadBlank(side, Join(Lines(d.header)));
    hide HeaderRead, Chunked, Length, Framed, Lines, Text.Split, Join, Step, CanStep;
  }

  lemma HeaderReadBlank(side: Side, header: string)
    ensures HeaderRead(side, header).content == "" && HeaderRead(side, header).remaining == 0
  {
    hide Processed, StatusText, FindChar;
  }

  /** With a whole message at the head of the buffer, parsing delivers it and goes on behind it. */
  lemma ReadWhole(side: Side, p: Parse, d: HttpContext, rest: string)
    requires p.state == ReadHeaders && p.rawBuffer == d.Bytes() + rest && Whole(d)
    ensures var q := Parse(ReadHeaders, rest, FRESH, p.delivered + [Redelivered(side, d)], p.rejected);
            Run(side, p) == Run(side, q) && (Plain(side, q) ==> Plain(side, p))
  {
    hide HeaderRead, Whole, Lines, Join, Run, Plain, Step, CanStep, StepBody;
    Assoc(d.header, d.content, rest);
    HeaderOfWhole(side, p, d, d.content + rest);
    RunStep(side, p);
    var c := HeaderRead(side, Join(Lines(d.header)));
    if d.content == "" {
      assert d.content + rest == rest;
      assert c == c.(content := "");
    } else {
      var r := Step(side, p);
      TakeAll(r, d.content, rest);
      BodyStep(side, r);
      RunStep(side, r);
      assert c.(remaining := |d.content|).(content := d.content, remaining := 0) == c.(content := d.content);
    }
  }

  lemma BodyStep(side: Side, p: Parse)
    requires p.state == ReadBody && p.rawBuffer != ""
    ensures CanStep(p) && Step(side, p) == StepBody(p)
  {
  }

  lemma TakeAll(p: Parse, content: string, rest: string)
    requires p.state == ReadBody && p.rawBuffer == content + rest && content != ""
    requires p.tmpContext.remaining == |content| && p.tmpContext.content == ""
    ensures StepBody(p) == p.Deliver(p.tmpContext.(content := content, remaining := 0), ReadHeaders, rest)
  {
    assert p.rawBuffer[..|content|] == content && p.rawBuffer[|content|..] == rest;
    assert "" + content == content;
  }

  ghost predicate AllWhole(ds: seq<HttpContext>) {
    forall i :: 0 <= i < |ds| ==> Whole(ds[i])
  }

  function RedeliveredAll(side: Side, ds: seq<HttpContext>): seq<HttpContext> {
    seq(|ds|, i requires 0 <= i < |ds| => Redelivered(side, ds[i]))
  }

  /** A stream of whole messages is cut into exactly those messages. */
  lemma {:induction false} ReadAllWhole(side: Side, p: Parse, ds: seq<HttpContext>, rest: string)
    requires p.state == ReadHeaders && p.tmpContext == FRESH
    requires p.rawBuffer == Flat(ds) + rest && AllWhole(ds)
    ensures var q := Parse(ReadHeaders, rest, FRESH, p.delivered + RedeliveredAll(side, ds), p.rejected);
            Run(side, p) == Run(side, q) && (Plain(side, q) ==> Plain(side, p))
    decreases |ds|
  {
    hide Whole, Redelivered, Run, Plain;
    if ds == [] {
      assert Flat(ds) + rest == rest;
      assert p.delivered + RedeliveredAll(side, ds) == p.delivered;
    } else {
      var init, d := ds[..|ds| - 1], ds[|ds| - 1];
      Assoc(Flat(init), d.Bytes(), rest);
      ReadAllWhole(side, p, init, d.Bytes() + rest);
      var r := Parse(ReadHeaders, d.Bytes() + rest, FRESH, p.delivered + RedeliveredAll(side, init), p.rejected);
      ReadWhole(side, r, d, rest);
      assert RedeliveredAll(side, ds) == RedeliveredAll(side, init) + [Redelivered(side, d)];
      Assoc(p.delivered, RedeliveredAll(side, init), [Redelivered(side, d)]);
    }
  }
}
