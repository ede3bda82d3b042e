/** What every turn of the parser keeps, and where it stops. */
module Invariants {
  import opened Text
  import opened Numbers
  import opened Headers
  import opened Rewriting
  import opened Messages
  import opened Parser
  import opened Fragments
  import opened Relay

  /** The start-line fields are those of the header the message carries. */
  predicate Headed(c: HttpContext, isRequest: bool) {
    var w := WithHead(FRESH.(header := c.header), isRequest);
    c.verb == w.verb && c.urlPath == w.urlPath && c.statusCode == w.statusCode
  }

  /** A message handed to the peer: complete, not yet sent, framed, and, unless it came chunked, of
      exactly the length its header declares. */
  ghost predicate Sound(d: HttpContext, isRequest: bool) {
    && d.isCompleted && d.phase == SendHeader && Framed(d.header) && Headed(d, isRequest)
    && (Chunked(Lines(d.header)) || Whole(d))
  }

  /** The message being read. */
  ghost predicate InProgress(state: ConnState, c: HttpContext, isRequest: bool) {
    match state
    case ReadBody =>
      && Framed(c.header) && Headed(c, isRequest) && !Chunked(Lines(c.header))
      && c.remaining > 0
      && |c.content| + c.remaining == Length(Lines(c.header)) <= STRING_MAX
    case ReadChunkSize => Framed(c.header) && Headed(c, isRequest) && Chunked(Lines(c.header))
    case ReadChunkData => Framed(c.header) && Headed(c, isRequest) && Chunked(Lines(c.header)) && c.remaining > 0
    case ExpectCrlf => Framed(c.header) && Headed(c, isRequest) && Chunked(Lines(c.header))
    case _ => true
  }

  ghost predicate Valid(side: Side, p: Parse) {
    && InProgress(p.state, p.tmpContext, side.isRequest)
    && forall i :: 0 <= i < |p.delivered| ==> Sound(p.delivered[i], side.isRequest)
  }

  lemma WithHeadKeeps(c: HttpContext, isRequest: bool)
    ensures var d := WithHead(c, isRequest);
            d.header == c.header && d.content == c.content && d.remaining == c.remaining
  {
  }

  lemma HeaderReadFields(side: Side, header: string)
    ensures var c := HeaderRead(side, header);
            c.header == Processed(header, side.ip, side.isRequest) && c.content == "" && c.remaining == 0
            && Headed(c, side.isRequest)
  {
    var blank := FRESH.(header := Processed(header, side.ip, side.isRequest));
    WithHeadKeeps(blank, side.isRequest);
    hide WithHead, Processed;
  }

  lemma ProcessedIsFramed(lines: seq<string>, side: Side)
    requires Block(lines) && IsAddress(side.ip)
    ensures var out := if side.isRequest then Rewrite(lines, side.ip) else lines;
            && Framed(Join(out) + CRLF) && Lines(Join(out) + CRLF) == out
            && Chunked(out) == Chunked(lines) && Length(out) == Length(lines)
  {
    RewriteIsBlock(lines, side.ip);
    RewriteKeepsFraming(lines, side.ip);
    hide Rewrite, Chunked, Length, NoCrlf, Framed, Lines;
    JoinedIsFramed(if side.isRequest then Rewrite(lines, side.ip) else lines);
  }

  lemma BlankIsInside(buf: string)
    requires FindBlank(buf) != -1
    ensures 0 <= FindBlank(buf) <= |buf| - 4
  {
    hide FindBlank;
  }

  lemma ProcessedText(header: string, side: Side)
    ensures Processed(header, side.ip, side.isRequest)
              == Join(if side.isRequest then Rewrite(Split(header), side.ip) else Split(header)) + CRLF
  {
  }

  /** The header the proxy stores is one block, framed like the block it read. */
  lemma HeaderReadIsFramed(side: Side, buf: string)
    requires FindBlank(buf) != -1 && IsAddress(side.ip)
    ensures var lines, c := Split(buf[..FindBlank(buf) + 2]), HeaderRead(side, buf[..FindBlank(buf) + 2]);
            && Framed(c.header) && Headed(c, side.isRequest) && c.content == "" && c.remaining == 0
            && Chunked(Lines(c.header)) == Chunked(lines)
            && Length(Lines(c.header)) == Length(lines)
  {
    BlankIsInside(buf);
    hide *;
    var h := buf[..FindBlank(buf) + 2];
    CutIsBlock(buf);
    HeaderReadFields(side, h);
    ProcessedText(h, side);
    ProcessedIsFramed(Split(h), side);
  }

  lemma HeaderCutKeeps(side: Side, p: Parse, header: string, rest: string)
    requires p.state == ReadHeaders && Valid(side, p)
    requires var lines, c := Split(header), HeaderRead(side, header);
             && Framed(c.header) && Headed(c, side.isRequest) && c.content == "" && c.remaining == 0
             && Chunked(Lines(c.header)) == Chunked(lines)
             && Length(Lines(c.header)) == Length(lines)
    ensures Valid(side, HeaderCut(side, p, header, rest))
  {
    hide HeaderRead, WithHead, Chunked, Length, Framed, Lines, Text.Split;
  }

  lemma StepHeadersKeeps(side: Side, p: Parse)
    requires p.state == ReadHeaders && FindBlank(p.rawBuffer) != -1 && IsAddress(side.ip) && Valid(side, p)
    ensures Valid(side, Step(side, p))
  {
    var e := FindBlank(p.rawBuffer);
    HeaderReadIsFramed(side, p.rawBuffer);
    StepIsHeaders(side, p);
    hide *;
    HeaderCutKeeps(side, p, p.rawBuffer[..e + 2], p.rawBuffer[e + 4..]);
  }

  /** Every turn keeps it. */
  lemma StepKeeps(side: Side, p: Parse)
    requires CanStep(p) && IsAddress(side.ip) && Valid(side, p)
    ensures Valid(side, Step(side, p))
  {
    hide HeaderRead, WithHead, Chunked, Length, Framed, Lines, FindBlank, FindCrlf;
    hide Text.Split, IsAddress, Stoul, StepHeaders;
    if p.state == ReadHeaders {
      StepHeadersKeeps(side, p);
      return;
    }
  }

  lemma {:induction false} RunKeeps(side: Side, p: Parse)
    requires IsAddress(side.ip) && Valid(side, p)
    ensures Valid(side, Run(side, p))
    decreases |p.rawBuffer|, Rank(p.state)
  {
    hide Valid, IsAddress;
    if CanStep(p) {
      StepKeeps(side, p);
      RunKeeps(side, Step(side, p));
    }
  }

  lemma HandleKeeps(side: Side, p: Parse)
    requires IsAddress(side.ip) && Valid(side, p)
    ensures Valid(side, Handle(side, p))
  {
    RunKeeps(side, p);
    hide Sound, Framed, Headed, Chunked, Length, Lines, IsAddress, Run;
  }

  /** An exception is due: the header block at the head of the buffer declares a body that no string can
      hold, or the chunk-size line there is none to stoul. */
  ghost predicate Throws(p: Parse) {
    || (&& p.state == ReadHeaders && FindBlank(p.rawBuffer) != -1
        && var lines := Split(p.rawBuffer[..FindBlank(p.rawBuffer) + 2]);
           !Chunked(lines) && STRING_MAX < Length(lines) < ULONG_MAX)
    || (&& p.state == ReadChunkSize && FindCrlf(p.rawBuffer) != -1
        && Stoul(p.rawBuffer[..FindCrlf(p.rawBuffer)], 16) == None)
  }

  /** The stream has such a header block, or such a chunk-size line. */
  ghost predicate Kills(side: Side, p: Parse)
    decreases |p.rawBuffer|, Rank(p.state)
  {
    CanStep(p) && (Throws(p) || Kills(side, Step(side, p)))
  }

  /** A turn aborts exactly when an exception is due. */
  lemma StepAbortsIff(side: Side, p: Parse)
    requires CanStep(p)
    ensures Step(side, p).state == Aborted <==> Throws(p)
  {
    if p.state == ReadHeaders {
      StepIsHeaders(side, p);
      hide HeaderRead, Chunked, Length, Text.Split, FindBlank, Step, StepHeaders;
    } else {
      hide FindCrlf, FindBlank, Stoul, Take;
    }
  }

  /** The process is killed exactly by such a stream. */
  lemma {:induction false} KilledIff(side: Side, p: Parse)
    requires p.state != Aborted
    ensures Run(side, p).state == Aborted <==> Kills(side, p)
    decreases |p.rawBuffer|, Rank(p.state)
  {
    hide Throws, Step;
    if CanStep(p) {
      StepAbortsIff(side, p);
      if Throws(p) {
        DeadStops(side, Step(side, p));
      } else {
        KilledIff(side, Step(side, p));
      }
    }
  }

  /** With the outer loop repaired, parsing ends, and unless the stream kills the process it ends only for
      want of bytes: an empty buffer, a header block without its blank line, a chunk-size line without
      its end, or less than an awaited CRLF. As written it never returns, exactly where the repaired outer
      loop would wait for the end of a chunk-size line. While a body is read its declared length is always
      split between what is there and what is to come. */
  lemma MaximalProgress(side: Side, p: Parse)
    requires IsAddress(side.ip) && Valid(side, p) && p.state != Hung
    ensures var q := Handle(side, p);
            && (|| q.rawBuffer == ""
                || (q.state == ReadHeaders && forall i :: !BlankAt(q.rawBuffer, i))
                || (q.state == ReadChunkSize && side.repaired && NoCrlf(q.rawBuffer))
                || (q.state == Hung && !side.repaired && NoCrlf(q.rawBuffer))
                || ((q.state == ExpectCrlf || q.state == ExpectLastCrlf) && |q.rawBuffer| < 2)
                || Kills(side, p) || p.state == Aborted)
            && (p.state != Aborted ==> (q.state == Aborted <==> Kills(side, p)))
            && (q.state == Hung ==> !side.repaired && q.rawBuffer != "")
            && (q.state == ReadBody ==>
                  && 0 < q.tmpContext.remaining
                  && |q.tmpContext.content| + q.tmpContext.remaining == Length(Lines(q.tmpContext.header)))
  {
    RunKeeps(side, p);
    NotHungYet(side, p);
    if p.state != Aborted { KilledIff(side, p); }
    var q := Run(side, p);
    assert !CanStep(q);
    hide Run, Length, Lines, Framed, Chunked, IsAddress, Kills;
    if q.state == ReadHeaders && q.rawBuffer != "" {
      assert FindBlank(q.rawBuffer) == -1;
      forall i ensures !BlankAt(q.rawBuffer, i) {}
    }
    if q.state == ReadChunkSize && q.rawBuffer != "" {
      assert FindCrlf(q.rawBuffer) == -1;
      forall i ensures !CrlfAt(q.rawBuffer, i) {}
    }
  }

  /** No turn of the loops is the endless one. */
  lemma {:induction false} NotHungYet(side: Side, p: Parse)
    requires p.state != Hung
    ensures Run(side, p).state != Hung
    decreases |p.rawBuffer|, Rank(p.state)
  {
    hide HeaderRead, Chunked, Length, FindBlank, FindCrlf, Text.Split, Stoul;
    if CanStep(p) {
      NotHungYet(side, Step(side, p));
    }
  }

  lemma AppendKeeps(side: Side, p: Parse, x: string)
    requires Valid(side, p)
    ensures Valid(side, p.Append(x))
  {
    hide Sound, Framed, Headed, Chunked, Length, Lines;
  }

  /** It holds from the first byte of a connection on, whatever the reads. */
  lemma {:induction false} FeedKeeps(side: Side, p: Parse, pieces: seq<string>)
    requires IsAddress(side.ip) && Valid(side, p)
    ensures Valid(side, Feed(side, p, pieces))
    decreases |pieces|
  {
    hide Valid, IsAddress, Handle;
    if pieces != [] {
      AppendKeeps(side, p, pieces[0]);
      HandleKeeps(side, p.Append(pieces[0]));
      FeedKeeps(side, Handle(side, p.Append(pieces[0])), pieces[1..]);
    }
  }
}
