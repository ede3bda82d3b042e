/** The incremental message parser of a connection (parse_http_context, parse_chunked_content)
    as a step machine: one step is one turn of the parsing loops. */
module Parser {
  import opened Text
  import opened Numbers
  import opened Headers
  import opened Messages

  /** ConnState. The last four are not in the source's enumeration. The two Expect states belong to the
      repaired parser only. Aborted is the process killed by an exception: stoul throws it on a
      chunk-size line, reserve on a Content-Length beyond any string. Hung is the process in an outer
      loop that never ends. In both nothing is read any more, and what still arrives stays unread. */
  datatype ConnState =
    | ReadHeaders
    | ReadBody
    | ReadChunkSize
    | ReadChunkData
    | ExpectCrlf
    | ExpectLastCrlf
    | Aborted
    | Hung

  /** The process reads no more. */
  predicate Dead(s: ConnState) { s == Aborted || s == Hung }

  /** std::string::max_size in libstdc++. */
  const STRING_MAX := 0x3fff_ffff_ffff_ffff

  /** What does not change while a connection is parsed. With `repaired` the CRLF after chunk data
      and the one after the last chunk are awaited, and the outer loop is left with the inner one on an
      incomplete chunk-size line; without it all three are as written. */
  datatype Side = Side(isRequest: bool, ip: string, repaired: bool)

  /** The parser's fields, the messages handed to the peer handler so far, and the number of
      header blocks dropped for their Content-Length. */
  datatype Parse = Parse(
    state: ConnState,
    rawBuffer: string,
    tmpContext: HttpContext,
    delivered: seq<HttpContext>,
    rejected: nat
  ) {
    /** More bytes from the socket. */
    function Append(x: string): Parse { this.(rawBuffer := rawBuffer + x) }

    /** The message is complete and goes to the peer. What stays in tmp_context is not read again
        before the next reset, so it is shown reset here. */
    function Deliver(c: HttpContext, next: ConnState, rest: string): Parse {
      Parse(next, rest, FRESH, delivered + [c.Complete()], rejected)
    }
  }

  /** A connection that has received nothing. */
  const START := Parse(ReadHeaders, "", FRESH, [], 0)

  function Min(a: nat, b: nat): nat { if a < b then a else b }

  /** The context after a header text has been read: rewritten, start line noted. */
  function HeaderRead(side: Side, header: string): HttpContext {
    WithHead(FRESH.(header := Processed(header, side.ip, side.isRequest)), side.isRequest)
  }

  predicate CanStep(p: Parse) {
    p.rawBuffer != "" &&
    match p.state
    case ReadHeaders => FindBlank(p.rawBuffer) != -1
    case ReadBody => true
    case ReadChunkSize => FindCrlf(p.rawBuffer) != -1
    case ReadChunkData => true
    case ExpectCrlf => |p.rawBuffer| >= 2
    case ExpectLastCrlf => |p.rawBuffer| >= 2
    case Aborted => false
    case Hung => false
  }

  /** A header block has been cut off the buffer. */
  ghost function HeaderCut(side: Side, p: Parse, header: string, rest: string): Parse {
    var c, length := HeaderRead(side, header), Length(Split(header));
    if Chunked(Split(header)) then p.(state := ReadChunkSize, rawBuffer := rest, tmpContext := c)
    else if length == ULONG_MAX then p.(rawBuffer := rest, tmpContext := FRESH, rejected := p.rejected + 1)
    else if length == 0 then p.Deliver(c, ReadHeaders, rest)
    else if length > STRING_MAX then p.(state := Aborted, tmpContext := c.(remaining := length))
    else p.(state := ReadBody, rawBuffer := rest, tmpContext := c.(remaining := length))
  }

  /** READ_HEADERS with a complete block in the buffer. */
  ghost function StepHeaders(side: Side, p: Parse): Parse
    requires FindBlank(p.rawBuffer) != -1
  {
    var e := FindBlank(p.rawBuffer);
    HeaderCut(side, p, p.rawBuffer[..e + 2], p.rawBuffer[e + 4..])
  }

  /** Moves up to `remaining` bytes from the buffer to the content. */
  function Take(c: HttpContext, buf: string): HttpContext {
    var n := Min(c.remaining, |buf|);
    c.(content := c.content + buf[..n], remaining := c.remaining - n)
  }

  function StepBody(p: Parse): Parse {
    var c, rest := Take(p.tmpContext, p.rawBuffer), p.rawBuffer[Min(p.tmpContext.remaining, |p.rawBuffer|)..];
    if c.remaining == 0 then p.Deliver(c, ReadHeaders, rest)
    else p.(tmpContext := c, rawBuffer := rest)
  }

  /** READ_CHUNK_SIZE with a complete line in the buffer. */
  function StepChunkSize(side: Side, p: Parse): Parse
    requires FindCrlf(p.rawBuffer) != -1
  {
    var e := FindCrlf(p.rawBuffer);
    match Stoul(p.rawBuffer[..e], 16)
    case None => p.(state := Aborted)
    case Some(n) =>
      var rest := p.rawBuffer[e + 2..];
      if n == 0 then p.Deliver(p.tmpContext, if side.repaired then ExpectLastCrlf else ReadHeaders, rest)
      else p.(state := ReadChunkData, rawBuffer := rest, tmpContext := p.tmpContext.(remaining := n))
  }

  function SkipCrlf(buf: string): string {
    if CrlfAt(buf, 0) then buf[2..] else buf
  }

  function StepChunkData(side: Side, p: Parse): Parse {
    var c, rest := Take(p.tmpContext, p.rawBuffer), p.rawBuffer[Min(p.tmpContext.remaining, |p.rawBuffer|)..];
    if c.remaining > 0 then p.(tmpContext := c, rawBuffer := rest)
    else if side.repaired then p.(state := ExpectCrlf, tmpContext := c, rawBuffer := rest)
    else p.(state := ReadChunkSize, tmpContext := c, rawBuffer := SkipCrlf(rest))
  }

  /** One turn of the parsing loops. */
  ghost function Step(side: Side, p: Parse): (q: Parse)
    requires CanStep(p)
    ensures |q.rawBuffer| <= |p.rawBuffer|
    ensures |q.rawBuffer| < |p.rawBuffer| || Rank(q.state) < Rank(p.state)
  {
    match p.state
    case ReadHeaders => StepHeaders(side, p)
    case ReadBody => StepBody(p)
    case ReadChunkSize => StepChunkSize(side, p)
    case ReadChunkData => StepChunkData(side, p)
    case ExpectCrlf => p.(state := ReadChunkSize, rawBuffer := SkipCrlf(p.rawBuffer))
    case ExpectLastCrlf => p.(state := ReadHeaders, rawBuffer := SkipCrlf(p.rawBuffer))
  }

  /** Turns that consume nothing lead to a state of lower rank. */
  function Rank(s: ConnState): nat {
    match s
    case ReadHeaders => 1
    case ReadBody => 2
    case ReadChunkSize => 1
    case ReadChunkData => 3
    case ExpectCrlf => 2
    case ExpectLastCrlf => 2
    case Aborted => 0
    case Hung => 0
  }

  /** Turns of the loops until no turn does anything more with the buffer. */
  ghost function Run(side: Side, p: Parse): (q: Parse)
    ensures !CanStep(q)
    decreases |p.rawBuffer|, Rank(p.state)
  {
    if CanStep(p) then Run(side, Step(side, p)) else p
  }

  /** An incomplete chunk-size line: the inner loop leaves, the outer one does not. */
  predicate Spins(p: Parse) {
    p.state == ReadChunkSize && p.rawBuffer != "" && FindCrlf(p.rawBuffer) == -1
  }

  /** One call of parse_http_context. As written it never returns from an incomplete chunk-size line. */
  ghost function Handle(side: Side, p: Parse): Parse {
    var q := Run(side, p);
    if !side.repaired && Spins(q) then q.(state := Hung) else q
  }
}
