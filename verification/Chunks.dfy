/** Chunked bodies: what the encoding of RFC 9112 section 7.1 is decoded to, where the parser as
    written may be interrupted, and what a decoded message means to the next hop. */
module Chunks {
  import opened Text
  import opened Numbers
  import opened Headers
  import opened Rewriting
  import opened Messages
  import opened Parser
  import opened Fragments
  import opened Relay
  import opened Invariants
  import opened Responses

  /** chunk-size CRLF chunk-data CRLF. */
  function EncodeChunk(data: string): string {
    Print(|data|, 16) + CRLF + (data + CRLF)
  }

  /** The chunks, then the last chunk and an empty trailer section. */
  function Encode(chunks: seq<string>): string
    decreases |chunks|
  {
    if chunks == [] then "0" + CRLF + CRLF else EncodeChunk(chunks[0]) + Encode(chunks[1..])
  }

  predicate AreChunks(chunks: seq<string>) {
    forall i :: 0 <= i < |chunks| ==> 0 < |chunks[i]| <= ULONG_MAX
  }

  // ---- decoding -------------------------------------------------------------------------

  lemma HexHasNoCrlf(n: nat)
    ensures NoCrlf(Print(n, 16))
  {
    var s := Print(n, 16);
    forall i | 0 <= i < |s| ensures s[i] != '\r' { assert !IsSpace(s[i]); }
  }

  /** A size line starts the data of its chunk. */
  lemma ReadSize(side: Side, p: Parse, n: nat, rest: string)
    requires p.state == ReadChunkSize && p.rawBuffer == Print(n, 16) + CRLF + rest && 0 < n <= ULONG_MAX
    ensures CanStep(p)
    ensures Step(side, p) == p.(state := ReadChunkData, rawBuffer := rest,
                                tmpContext := p.tmpContext.(remaining := n))
  {
    HexHasNoCrlf(n);
    FirstLineEnd(Print(n, 16), rest);
    StoulPrint(n, 16);
    hide Print, Stoul, FindCrlf, NoCrlf;
  }

  lemma SkipsCrlf(rest: string)
    ensures SkipCrlf(CRLF + rest) == rest
  {
  }

  /** The step over chunk data with its CRLF in the buffer. */
  lemma DataStep(side: Side, p: Parse, data: string, rest: string)
    requires p.state == ReadChunkData && p.rawBuffer == data + (CRLF + rest)
    requires p.tmpContext.remaining == |data| > 0
    ensures var c := p.tmpContext.(content := p.tmpContext.content + data, remaining := 0);
            && CanStep(p)
            && Step(side, p) == if side.repaired
                                then p.(state := ExpectCrlf, rawBuffer := CRLF + rest, tmpContext := c)
                                else p.(state := ReadChunkSize, rawBuffer := rest, tmpContext := c)
  {
    var tail := CRLF + rest;
    assert p.rawBuffer[..|data|] == data && p.rawBuffer[|data|..] == tail;
    SkipsCrlf(rest);
    hide SkipCrlf;
  }

  lemma CrlfStep(side: Side, p: Parse, rest: string)
    requires p.state == ExpectCrlf && p.rawBuffer == CRLF + rest
    ensures CanStep(p) && Step(side, p) == p.(state := ReadChunkSize, rawBuffer := rest)
  {
    SkipsCrlf(rest);
    hide SkipCrlf;
  }

  /** Chunk data and its CRLF, both in the buffer. */
  lemma ReadData(side: Side, p: Parse, data: string, rest: string)
    requires p.state == ReadChunkData && p.rawBuffer == data + (CRLF + rest)
    requires p.tmpContext.remaining == |data| > 0
    ensures Run(side, p) == Run(side, p.(state := ReadChunkSize, rawBuffer := rest,
              tmpContext := p.tmpContext.(content := p.tmpContext.content + data, remaining := 0)))
  {
    hide *;
    DataStep(side, p, data, rest);
    RunStep(side, p);
    if side.repaired {
      CrlfStep(side, Step(side, p), rest);
      RunStep(side, Step(side, p));
    }
  }

  /** One whole chunk in the buffer is decoded, as written and repaired. */
  lemma ReadChunk(side: Side, p: Parse, data: string, rest: string)
    requires p.state == ReadChunkSize && p.rawBuffer == EncodeChunk(data) + rest && 0 < |data| <= ULONG_MAX
    ensures Run(side, p) == Run(side, p.(rawBuffer := rest,
              tmpContext := p.tmpContext.(content := p.tmpContext.content + data, remaining := 0)))
  {
    var size := Print(|data|, 16);
    Assoc(size + CRLF, data + CRLF, rest);
    Assoc(data, CRLF, rest);
    hide Print, Run;
    ReadSize(side, p, |data|, data + (CRLF + rest));
    RunStep(side, p);
    hide Step, CanStep;
    ReadData(side, Step(side, p), data, rest);
  }

  lemma ReadZero(side: Side, p: Parse, rest: string)
    requires p.state == ReadChunkSize && p.rawBuffer == "0" + CRLF + rest
    ensures CanStep(p)
    ensures Step(side, p) == p.Deliver(p.tmpContext, if side.repaired then ExpectLastCrlf else ReadHeaders, rest)
  {
    assert Print(0, 16) == "0";
    HexHasNoCrlf(0);
    FirstLineEnd("0", rest);
    StoulPrint(0, 16);
    hide Print, Stoul, FindCrlf, NoCrlf;
  }

  /** The last chunk delivers the message. Repaired, its CRLF goes with it; as written, it stays. */
  lemma ReadLastChunk(side: Side, p: Parse, rest: string)
    requires p.state == ReadChunkSize && p.rawBuffer == "0" + CRLF + CRLF + rest
    ensures Run(side, p) == Run(side, p.Deliver(p.tmpContext, ReadHeaders, if side.repaired then rest else CRLF + rest))
  {
    Assoc("0" + CRLF, CRLF, rest);
    SkipsCrlf(rest);
    ReadZero(side, p, CRLF + rest);
    hide SkipCrlf, Run;
    RunStep(side, p);
    if side.repaired {
      RunStep(side, Step(side, p));
    }
  }

  /** The decoded message of a chunk list. */
  function Decoded(c: HttpContext, chunks: seq<string>): HttpContext {
    c.(content := c.content + Concat(chunks), remaining := 0)
  }

  /** A whole encoding in the buffer delivers one message with the chunks' data in order. */
  lemma {:induction false} ReadEncoding(side: Side, p: Parse, chunks: seq<string>, rest: string)
    requires p.state == ReadChunkSize && p.rawBuffer == Encode(chunks) + rest && AreChunks(chunks)
    requires p.tmpContext.remaining == 0
    ensures Run(side, p) == Run(side, p.Deliver(Decoded(p.tmpContext, chunks), ReadHeaders,
                                                if side.repaired then rest else CRLF + rest))
    decreases |chunks|
  {
    hide Run, EncodeChunk;
    var c := p.tmpContext;
    if chunks == [] {
      ReadLastChunk(side, p, rest);
      assert c.content + "" == c.content;
    } else {
      Assoc(EncodeChunk(chunks[0]), Encode(chunks[1..]), rest);
      ReadChunk(side, p, chunks[0], Encode(chunks[1..]) + rest);
      var q := p.(rawBuffer := Encode(chunks[1..]) + rest,
                  tmpContext := c.(content := c.content + chunks[0], remaining := 0));
      ReadEncoding(side, q, chunks[1..], rest);
      Assoc(c.content, chunks[0], Concat(chunks[1..]));
    }
  }

  /** A connection that has read a header with Transfer-Encoding: chunked. */
  lemma ReadChunkedHeader(side: Side, p: Parse, header: string, rest: string)
    requires p.state == ReadHeaders && p.rawBuffer == header + rest
    requires Framed(header) && Chunked(Lines(header))
    ensures var c := HeaderRead(side, Join(Lines(header)));
            && c.remaining == 0 && c.content == ""
            && Run(side, p) == Run(side, p.(state := ReadChunkSize, rawBuffer := rest, tmpContext := c))
  {
    StepFramed(side, p, header, rest);
    HeaderReadFields(side, Join(Lines(header)));
    hide Run, HeaderRead, Chunked, Lines, Framed, Join, Text.Split, CanStep, Step;
    RunStep(side, p);
  }

  /** A lone CRLF is no header block. */
  lemma NothingToRead(side: Side, p: Parse)
    requires p.state == ReadHeaders && (p.rawBuffer == "" || p.rawBuffer == CRLF)
    ensures Run(side, p) == p
  {
    if p.rawBuffer != "" {
      assert |p.rawBuffer| == 2;
      assert FindBlank(p.rawBuffer) == -1;
    }
  }

  /** A connection that reads one chunked message, all of it in the buffer. */
  lemma ReadChunkedMessage(side: Side, header: string, chunks: seq<string>)
    requires Framed(header) && Chunked(Lines(header)) && AreChunks(chunks)
    ensures var c := HeaderRead(side, Join(Lines(header)));
            Handle(side, START.Append(header + Encode(chunks)))
              == Parse(ReadHeaders, if side.repaired then "" else CRLF, FRESH,
                       [c.(content := Concat(chunks)).Complete()], 0)
  {
    hide HeaderRead, Chunked, Lines, Framed, Join, Encode, Run, CanStep, Concat, FindCrlf, FindBlank, CrlfAt;
    var body, content := Encode(chunks), Concat(chunks);
    var p, c := START.Append(header + body), HeaderRead(side, Join(Lines(header)));
    assert p.rawBuffer == header + body && body + "" == body && CRLF + "" == CRLF && "" + content == content;
    ReadChunkedHeader(side, p, header, body);
    var q := p.(state := ReadChunkSize, rawBuffer := body, tmpContext := c);
    ReadEncoding(side, q, chunks, "");
    assert Decoded(c, chunks) == c.(content := content);
    var left := if side.repaired then "" else CRLF;
    var end := Parse(ReadHeaders, left, FRESH, [c.(content := content).Complete()], 0);
    assert q.Deliver(c.(content := content), ReadHeaders, left) == end;
    NothingToRead(side, end);
  }

  /** Chunked round trip, repaired: the encoding of any non-empty chunks, in any fragments, delivers
      one message whose content is their concatenation, with nothing left over. */
  lemma ChunkedRoundTrip(side: Side, header: string, chunks: seq<string>, pieces: seq<string>)
    requires side.repaired
    requires Framed(header) && Chunked(Lines(header)) && AreChunks(chunks)
    requires Concat(pieces) == header + Encode(chunks)
    ensures Feed(side, START, pieces)
              == Parse(ReadHeaders, "", FRESH,
                       [HeaderRead(side, Join(Lines(header))).(content := Concat(chunks)).Complete()], 0)
  {
    hide *;
    ReadChunkedMessage(side, header, chunks);
    FragmentationIndependence(side, START, pieces) by { StartWaits(); }
  }

  lemma StartWaits()
    ensures !CanStep(START)
  {
  }

  // ---- as written -------------------------------------------------------------------------

  lemma EmptyFirstLine(lines: seq<string>)
    requires Block(lines) && lines[0] != ""
    ensures Block([""] + lines) && Join([""] + lines) + CRLF == CRLF + (Join(lines) + CRLF)
  {
    JoinCons("", lines);
    assert "" + CRLF == CRLF;
    Assoc(CRLF, Join(lines), CRLF);
    assert NoCrlf("");
    hide NoCrlf, Join;
  }

  /** A header with an empty first line has no method, or one that starts with CRLF. */
  lemma VerbAfterEmptyLine(c: HttpContext)
    requires Framed(c.header) && Lines(c.header)[0] == "" && Headed(c, true)
    ensures c.verb == "" || CRLF <= c.verb
  {
    assert CrlfAt(c.header, 0) by {
      JoinThen(Lines(c.header), "");
      assert c.header == Join(Lines(c.header)) + CRLF + "";
    }
    hide Lines, Framed;
  }

  /** As written, the CRLF that stays behind the last chunk is read as the empty first line of the
      next request, so that its method, if any, starts with CRLF. */
  lemma LeftoverSpoilsNextMethod(side: Side, header: string)
    requires side.isRequest && IsAddress(side.ip)
    requires Framed(header) && Lines(header)[0] != ""
    ensures Framed(CRLF + header) && Lines(CRLF + header) == [""] + Lines(header)
    ensures var verb := HeaderRead(side, Join(Lines(CRLF + header))).verb;
            verb == "" || CRLF <= verb
  {
    var l := [""] + Lines(header);
    EmptyFirstLine(Lines(header));
    hide Rewrite, HeaderRead, Join, Lines, Text.Split, Block, Headed;
    JoinedIsFramed(l);
    SplitJoin(l) by { assert Block(l); }
    ProcessedIsFramed(l, side);
    HeaderReadFields(side, Join(l));
    RewriteKeepsLines(l, side.ip);
    VerbAfterEmptyLine(HeaderRead(side, Join(l)));
  }

  lemma {:induction false} LengthBehindEmpty(lines: seq<string>, n: nat)
    requires 1 <= n <= |lines| && !Is(lines[0], CL)
    ensures LengthUpTo([""] + lines, n + 1) == LengthUpTo(lines, n)
    decreases n
  {
    hide Is, Value, Stoul;
    assert ([""] + lines)[n] == lines[n - 1];
    if n > 1 {
      LengthBehindEmpty(lines, n - 1);
    } else {
      assert ([""] + lines)[1] == lines[0];
      assert LengthUpTo([""] + lines, 1) == 0;
    }
  }

  lemma ChunkedBehindEmpty(lines: seq<string>)
    requires lines != [] && !Is(lines[0], TE)
    ensures Chunked([""] + lines) <==> Chunked(lines)
  {
    hide Is, Value, HasChunked;
    var l := [""] + lines;
    if i :| 1 <= i < |l| && Is(l[i], TE) && HasChunked(Value(l[i])) {
      assert lines[i - 1] == l[i] && i > 1;
    }
    if i :| 1 <= i < |lines| && Is(lines[i], TE) && HasChunked(Value(lines[i])) {
      assert l[i + 1] == lines[i];
    }
  }

  /** Behind an empty line a start line becomes a field line, and frames nothing unless it is named like
      a framing field. */
  lemma FramingBehindEmpty(lines: seq<string>)
    requires lines != [] && Neutral(lines[0])
    ensures Chunked([""] + lines) == Chunked(lines) && Length([""] + lines) == Length(lines)
  {
    hide Is, Chunked, LengthUpTo;
    LengthBehindEmpty(lines, |lines|);
    ChunkedBehindEmpty(lines);
  }

  /** A whole message behind a CRLF is a whole message with an empty first line. */
  lemma WholeBehindCrlf(d: HttpContext)
    requires Whole(d) && Lines(d.header)[0] != "" && Neutral(Lines(d.header)[0])
    ensures Whole(d.(header := CRLF + d.header)) && Lines(CRLF + d.header) == [""] + Lines(d.header)
  {
    var lines := Lines(d.header);
    EmptyFirstLine(lines);
    FramingBehindEmpty(lines);
    hide Chunked, Length, Lines, Join, Block, Is, Neutral;
    JoinedIsFramed([""] + lines);
  }

  /** The run: a chunked request and a whole one behind it in the same buffer. As written both are
      delivered with their contents, but the second with no method, or one that starts with CRLF. */
  lemma LeftoverSpoilsNextRequest(side: Side, header: string, chunks: seq<string>, d: HttpContext)
    requires !side.repaired && side.isRequest && IsAddress(side.ip)
    requires Framed(header) && Chunked(Lines(header)) && AreChunks(chunks)
    requires Whole(d) && Lines(d.header)[0] != "" && Neutral(Lines(d.header)[0])
    ensures var q := Handle(side, START.Append(header + (Encode(chunks) + d.Bytes())));
            && q.state == ReadHeaders && q.rawBuffer == "" && |q.delivered| == 2
            && q.delivered[0].content == Concat(chunks) && q.delivered[1].content == d.content
            && (q.delivered[1].verb == "" || CRLF <= q.delivered[1].verb)
  {
    hide *;
    var rest := Encode(chunks) + d.Bytes();
    var p, c := START.Append(header + rest), HeaderRead(side, Join(Lines(header)));
    FreshBuffer(header + rest);
    ReadChunkedHeader(side, p, header, rest);
    var q := p.(state := ReadChunkSize, rawBuffer := rest, tmpContext := c);
    ReadEncoding(side, q, chunks, d.Bytes());
    AfterChunks(side, q, chunks, d);
    WholeBehindCrlf(d);
    var late := d.(header := CRLF + d.header);
    var r := Parse(ReadHeaders, CRLF + d.Bytes(), FRESH, [Decoded(c, chunks).Complete()], p.rejected);
    LateBytes(d);
    ReadWhole(side, r, late, "");
    var end := Parse(ReadHeaders, "", FRESH, r.delivered + [Redelivered(side, late)], r.rejected);
    NothingToRead(side, end);
    NoSpin(side, p, end);
    SpoiltMethod(side, d);
    RedeliveredContent(side, late);
    DecodedContent(c, chunks);
  }

  lemma AfterChunks(side: Side, q: Parse, chunks: seq<string>, d: HttpContext)
    requires !side.repaired && q.delivered == []
    ensures q.Deliver(Decoded(q.tmpContext, chunks), ReadHeaders, CRLF + d.Bytes())
              == Parse(ReadHeaders, CRLF + d.Bytes(), FRESH, [Decoded(q.tmpContext, chunks).Complete()], q.rejected)
  {
    var m := Decoded(q.tmpContext, chunks).Complete();
    assert [] + [m] == [m];
  }

  lemma LateBytes(d: HttpContext)
    ensures CRLF + d.Bytes() == d.(header := CRLF + d.header).Bytes() + ""
  {
    Assoc(CRLF, d.header, d.content);
  }

  lemma NoSpin(side: Side, p: Parse, end: Parse)
    requires Run(side, p) == end && end.state == ReadHeaders
    ensures Handle(side, p) == end
  {
  }

  lemma SpoiltMethod(side: Side, d: HttpContext)
    requires side.isRequest && IsAddress(side.ip) && Whole(d) && Lines(d.header)[0] != ""
    ensures var verb := Redelivered(side, d.(header := CRLF + d.header)).verb; verb == "" || CRLF <= verb
  {
    hide Whole, HeaderRead, Lines, Join, Chunked, Length, IsAddress;
    assert Framed(d.header) by { WholeIsFramed(d); }
    LeftoverSpoilsNextMethod(side, d.header);
  }

  lemma WholeIsFramed(d: HttpContext)
    requires Whole(d)
    ensures Framed(d.header)
  {
  }

  lemma DecodedContent(c: HttpContext, chunks: seq<string>)
    requires c.content == ""
    ensures Decoded(c, chunks).Complete().content == Concat(chunks)
  {
    assert "" + Concat(chunks) == Concat(chunks);
  }

  /** An incomplete size line is not a line. */
  lemma SizeLineIncomplete(n: nat, k: nat)
    requires k < |Print(n, 16)| + 2
    ensures FindCrlf((Print(n, 16) + CRLF)[..k]) == -1
  {
    HexHasNoCrlf(n);
    var s := Print(n, 16) + CRLF;
    FirstLineEnd(Print(n, 16), "");
    assert Print(n, 16) + CRLF + "" == s;
    forall i | 0 <= i ensures !CrlfAt(s[..k], i) {
      assert CrlfAt(s[..k], i) ==> CrlfAt(s, i) && i + 1 < k;
    }
  }

  /** The same, with the size line read: harm behind the data and inside its CRLF. */
  lemma ChunkDataCutIff(side: Side, p: Parse, data: string, j: nat)
    requires !side.repaired && p.state == ReadChunkData && p.tmpContext.remaining == |data| > 0
    requires j <= |data| + 2 && p.rawBuffer == (data + CRLF)[..j]
    ensures Harmless(side, p, (data + CRLF)[j..]) <==> j < |data| || j == |data| + 2
  {
    var x := (data + CRLF)[j..];
    if j < |data| {
      IncompleteData(side, p, x);
    } else if j < |data| + 2 {
      assert p.rawBuffer[|data|..] + x == CRLF;
      assert CrlfAt(CRLF, 0);
    } else {
      assert p.rawBuffer == data + CRLF;
      WholeData(side, p, data, x);
    }
  }

  /** The data and its CRLF. */
  lemma WholeData(side: Side, p: Parse, data: string, x: string)
    requires !side.repaired && p.state == ReadChunkData && p.tmpContext.remaining == |data| > 0
    requires p.rawBuffer == data + CRLF
    ensures Harmless(side, p, x)
  {
    assert p.rawBuffer[|data|..] == CRLF && CrlfAt(CRLF, 0);
    var q := Step(side, p);
    assert q.rawBuffer == "" && q.state == ReadChunkSize;
    hide FindCrlf, CrlfAt;
    assert !CutsCrlf(side, q, x) && Run(side, p) == q;
  }

  /** Less than the data. */
  lemma IncompleteData(side: Side, p: Parse, x: string)
    requires p.state == ReadChunkData && |p.rawBuffer| < p.tmpContext.remaining
    ensures Harmless(side, p, x)
  {
    hide FindCrlf;
    if CanStep(p) {
      var q := Step(side, p);
      assert q.rawBuffer == "" && q.state == ReadChunkData;
      assert !CutsCrlf(side, q, x) && Run(side, p) == q;
    }
  }

  /** The cut before or behind a size line, with the step over it. */
  lemma HarmlessStep(side: Side, p: Parse, x: string)
    requires CanStep(p) && p.state == ReadChunkSize
    ensures Harmless(side, p, x) <==> Harmless(side, Step(side, p), x)
  {
    hide Step, FindCrlf;
  }

  /** As written, one cut into a chunk and what follows it does harm exactly when it falls inside the
      size line or its CRLF, where the process hangs, or behind the data and before the end of its CRLF,
      where the process aborts or hangs. */
  lemma ChunkCutIff(side: Side, p: Parse, data: string, k: nat)
    requires !side.repaired && p.state == ReadChunkSize && p.rawBuffer == ""
    requires 0 < |data| <= ULONG_MAX && k <= |EncodeChunk(data)|
    ensures var s, m := EncodeChunk(data), |Print(|data|, 16)| + 2;
            var n := m + |data|;
            && |s| == n + 2
            && (Handle(side, p.Append(s)) == Handle(side, Handle(side, p.Append(s[..k])).Append(s[k..]))
                <==> !(0 < k < m) && !(n <= k < n + 2))
  {
    hide *;
    EncodedParts(data);
    var s, a, x := EncodeChunk(data), p.Append(EncodeChunk(data)[..k]), EncodeChunk(data)[k..];
    CutPieces(p, Print(|data|, 16) + CRLF, data + CRLF, k);
    CutIsHarmlessIff(side, a, x);
    var m := |Print(|data|, 16)| + 2;
    if k < m {
      SizeLineIncomplete(|data|, k);
      SizeLineCut(side, a, x, data);
    } else {
      DataCut(side, a, x, data, k - m);
    }
  }

  lemma EncodedParts(data: string)
    ensures var size, body := Print(|data|, 16) + CRLF, data + CRLF;
            && EncodeChunk(data) == size + body
            && |size| == |Print(|data|, 16)| + 2 && |body| == |data| + 2
  {
    hide Print;
  }

  lemma CutPieces(p: Parse, size: string, body: string, k: nat)
    requires p.rawBuffer == "" && k <= |size + body|
    ensures var a, x := p.Append((size + body)[..k]), (size + body)[k..];
            && a.Append(x) == p.Append(size + body) && a.rawBuffer + x == size + body && a.state == p.state
            && (k < |size| ==> a.rawBuffer == size[..k])
            && (k >= |size| ==> a.rawBuffer == size + body[..k - |size|] && x == body[k - |size|..])
  {
    var s := size + body;
    assert s[..k] + s[k..] == s && "" + s[..k] == s[..k] && "" + s == s;
  }

  /** Cut behind the size line. */
  lemma DataCut(side: Side, p: Parse, x: string, data: string, j: nat)
    requires !side.repaired && p.state == ReadChunkSize && 0 < |data| <= ULONG_MAX && j <= |data| + 2
    requires p.rawBuffer == Print(|data|, 16) + CRLF + (data + CRLF)[..j] && x == (data + CRLF)[j..]
    ensures Harmless(side, p, x) <==> j < |data| || j == |data| + 2
  {
    hide Print, Step, CanStep, Harmless;
    var rest := (data + CRLF)[..j];
    ReadSize(side, p, |data|, rest);
    HarmlessStep(side, p, x);
    var c := p.tmpContext.(remaining := |data|);
    ChunkDataCutIff(side, p.(state := ReadChunkData, rawBuffer := rest, tmpContext := c), data, j);
  }

  /** Cut before the end of the size line. */
  lemma SizeLineCut(side: Side, p: Parse, x: string, data: string)
    requires !side.repaired && p.state == ReadChunkSize && FindCrlf(p.rawBuffer) == -1
    requires p.rawBuffer + x == EncodeChunk(data)
    ensures Harmless(side, p, x) <==> p.rawBuffer == ""
  {
    HexHasNoCrlf(|data|);
    FirstLineEnd(Print(|data|, 16), data + CRLF);
    assert FindCrlf(p.rawBuffer + x) != -1;
    hide Print, FindCrlf;
  }

  // ---- chunked messages at the next hop -----------------------------------------------------

  /** Whatever bytes are decoded as chunks, a message delivered from them is shorter than they were. */
  lemma {:induction false} DecodingShortens(side: Side, p: Parse)
    requires p.state == ReadChunkSize || p.state == ReadChunkData || p.state == ExpectCrlf
    ensures var q := Run(side, p);
            |q.delivered| > |p.delivered| ==>
              |q.delivered[|p.delivered|].content| < |p.tmpContext.content| + |p.rawBuffer|
    decreases |p.rawBuffer|, Rank(p.state)
  {
    hide FindCrlf, Stoul;
    if CanStep(p) {
      var q := Step(side, p);
      if q.state == ReadHeaders || q.state == ExpectLastCrlf {
        DeliveredGrows(side, q);
        assert q.delivered[|p.delivered|] == p.tmpContext.Complete();
      } else if q.state != Aborted {
        DecodingShortens(side, q);
      } else {
        RunStops(side, q);
      }
    }
  }

  lemma ChunkedIsNotRelayed(next: Side, d: HttpContext)
    requires Framed(d.header) && Chunked(Lines(d.header))
    ensures var q := Run(next, START.Append(d.Bytes()));
            q.delivered != [] ==> q.delivered[0].content != d.content
  {
    var c := HeaderRead(next, Join(Lines(d.header)));
    assert "" + d.Bytes() == d.Bytes();
    hide *;
    ReadChunkedHeader(next, START.Append(d.Bytes()), d.header, d.content);
    DecodingShortens(next, START.Append(d.Bytes()).(state := ReadChunkSize, rawBuffer := d.content, tmpContext := c));
  }

  /** A delivered message, put on the wire, is the first the next hop delivers with the same content
      exactly when it was not chunked: a chunked one is sent decoded under a header that still
      announces chunks. */
  lemma RelayedIff(next: Side, d: HttpContext, isRequest: bool)
    requires Sound(d, isRequest)
    ensures var q := Run(next, START.Append(d.Bytes()));
            q.delivered != [] && q.delivered[0].content == d.content <==> !Chunked(Lines(d.header))
  {
    assert d.Bytes() + "" == d.Bytes();
    hide Chunked, Lines, Framed, Run, Headed;
    if Chunked(Lines(d.header)) {
      ChunkedIsNotRelayed(next, d);
    } else {
      FirstDelivered(next, d, "");
      RedeliveredContent(next, d);
    }
  }
}
