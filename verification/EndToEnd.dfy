/** End to end: what one proxy sends is what the next hop reads. */
module EndToEnd {
  import opened Text
  import opened Headers
  import opened Rewriting
  import opened Messages
  import opened Parser
  import opened Fragments
  import opened Relay
  import opened Invariants

  // ---- requests -------------------------------------------------------------------------

  /** A start line with a method, a target and something after it. */
  predicate HasTwoSpaces(line: string) {
    var p := FindChar(line, ' ');
    p != -1 && FindChar(line, ' ', p + 1) != -1
  }

  /** The header starts with such a line. */
  predicate HasRequestLine(header: string) {
    Lines(header) != [] && HasTwoSpaces(Lines(header)[0])
  }

  lemma FindCharPrefix(l: string, t: string, c: char, start: nat)
    requires FindChar(l, c, start) != -1
    ensures FindChar(l + t, c, start) == FindChar(l, c, start)
  {
    var r := FindChar(l, c, start);
    assert (l + t)[r] == c && forall i :: start <= i < r ==> (l + t)[i] == l[i];
  }

  /** A framed header starts with its first line. */
  lemma FramedStart(header: string)
    requires Framed(header)
    ensures exists t :: header == Lines(header)[0] + t
  {
    var lines := Lines(header);
    var l, m := lines[0], Join(lines[1..]);
    Assoc(l + CRLF, m, CRLF);
    Assoc(l, CRLF, m + CRLF);
    hide Lines;
    assert header == l + (CRLF + (m + CRLF));
  }

  /** The method and the target on a start line. */
  function RequestHead(line: string): (string, string)
    requires HasTwoSpaces(line)
  {
    var p := FindChar(line, ' ');
    (line[..p], line[p + 1..FindChar(line, ' ', p + 1)])
  }

  /** What follows the start line does not change what stands on it. */
  lemma HeadOnPrefix(l: string, t: string)
    requires HasTwoSpaces(l)
    ensures var p := FindChar(l, ' ');
            var q := FindChar(l, ' ', p + 1);
            && FindChar(l + t, ' ') == p && FindChar(l + t, ' ', p + 1) == q
            && ((l + t)[..p], (l + t)[p + 1..q]) == RequestHead(l)
  {
    hide FindChar;
    var p := FindChar(l, ' ');
    var q := FindChar(l, ' ', p + 1);
    FindCharPrefix(l, t, ' ', 0);
    FindCharPrefix(l, t, ' ', p + 1);
    assert (l + t)[..p] == l[..p] && (l + t)[p + 1..q] == l[p + 1..q];
  }

  /** The method and target of a message are read off its first line. */
  lemma HeadIsFirstLine(c: HttpContext)
    requires Framed(c.header) && Headed(c, true) && HasRequestLine(c.header)
    ensures (c.verb, c.urlPath) == RequestHead(Lines(c.header)[0])
  {
    hide FindChar, Lines, Framed, RequestHead;
    FramedStart(c.header);
    var l := Lines(c.header)[0];
    var t :| c.header == l + t;
    HeadOnPrefix(l, t);
  }

  lemma RedeliveredHeader(next: Side, d: HttpContext)
    requires IsAddress(next.ip) && Framed(d.header)
    ensures var r, lines := Redelivered(next, d), Lines(d.header);
            && Framed(r.header) && Headed(r, next.isRequest)
            && Lines(r.header) == (if next.isRequest then Rewrite(lines, next.ip) else lines)
            && Chunked(Lines(r.header)) == Chunked(lines) && Length(Lines(r.header)) == Length(lines)
            && r.content == d.content && r.isCompleted && r.phase == SendHeader
  {
    var lines := Lines(d.header);
    SplitJoin(lines);
    HeaderReadFields(next, Join(lines));
    hide Rewrite, Chunked, Length, IsAddress, WithHead, Text.Split, HeaderRead, Join, Lines, NoCrlf;
    ProcessedIsFramed(lines, next);
  }

  /** The same message after the next hop has read it: same method, target, length and body. */
  lemma NextHopReadsTheSame(next: Side, d: HttpContext)
    requires next.isRequest && IsAddress(next.ip)
    requires Sound(d, true) && Whole(d) && HasRequestLine(d.header)
    ensures var r := Redelivered(next, d);
            && r.verb == d.verb && r.urlPath == d.urlPath && r.content == d.content
            && Sound(r, true) && Whole(r) && HasRequestLine(r.header)
  {
    var lines := Lines(d.header);
    RedeliveredHeader(next, d);
    RewriteKeepsLines(lines, next.ip);
    HeadIsFirstLine(d);
    hide Rewrite, Chunked, Length, IsAddress, Headed, FindChar, Lines, Framed;
    hide Redelivered, RequestHead, HasTwoSpaces, NoCrlf;
    assert lines[0] == Rewrite(lines, next.ip)[0];
    HeadIsFirstLine(Redelivered(next, d));
  }

  // ---- a path of several proxies ---------------------------------------------------------------

  /** A request after each of these proxies has read and rewritten it. */
  function Through(d: HttpContext, hops: seq<Side>): HttpContext
    decreases |hops|
  {
    if hops == [] then d else Redelivered(hops[|hops| - 1], Through(d, hops[..|hops| - 1]))
  }

  function Addresses(hops: seq<Side>): (r: seq<string>)
    ensures |r| == |hops|
  {
    seq(|hops|, i requires 0 <= i < |hops| => hops[i].ip)
  }

  /** Its body and length, and the lines of its header, which are those of the chain of rewrites. */
  lemma {:induction false} ThroughProxies(d: HttpContext, hops: seq<Side>)
    requires Whole(d)
    requires forall i :: 0 <= i < |hops| ==> hops[i].isRequest && IsAddress(hops[i].ip)
    ensures var r := Through(d, hops);
            && Whole(r) && r.content == d.content
            && Lines(r.header) == Hops(Lines(d.header), Addresses(hops))
    decreases |hops|
  {
    hide Rewrite, Redelivered, Chunked, Length, Lines, FieldValue, IsAddress, ListValue, NoCrlf;
    if hops != [] {
      var n := |hops| - 1;
      ThroughProxies(d, hops[..n]);
      RedeliveredHeader(hops[n], Through(d, hops[..n]));
      assert Addresses(hops)[..n] == Addresses(hops[..n]);
    }
  }

  /** Its method and target. */
  lemma {:induction false} ThroughKeepsHead(d: HttpContext, hops: seq<Side>)
    requires Sound(d, true) && Whole(d) && HasRequestLine(d.header)
    requires forall i :: 0 <= i < |hops| ==> hops[i].isRequest && IsAddress(hops[i].ip)
    ensures var r := Through(d, hops);
            && r.verb == d.verb && r.urlPath == d.urlPath
            && Sound(r, true) && Whole(r) && HasRequestLine(r.header)
    decreases |hops|
  {
    hide Sound, Whole, HasRequestLine, IsAddress, Redelivered;
    if hops != [] {
      var n := |hops| - 1;
      ThroughKeepsHead(d, hops[..n]);
      NextHopReadsTheSame(hops[n], Through(d, hops[..n]));
    }
  }

  /** The rewrite preserves framing. Whatever header block is at the head of the buffer, the header the
      proxy stores ends at its first blank line, and reading it again gives the same chunked flag and
      the same length. */
  lemma RewritePreservesFraming(side: Side, buf: string)
    requires FindBlank(buf) != -1 && IsAddress(side.ip)
    ensures var header := buf[..FindBlank(buf) + 2];
            var out := Processed(header, side.ip, side.isRequest);
            && FindBlank(out) == |out| - 4
            && Chunked(Split(out[..|out| - 2])) == Chunked(Split(header))
            && Length(Split(out[..|out| - 2])) == Length(Split(header))
  {
    hide Rewrite, Chunked, Length, Framed, Lines, FindBlank, Block, IsAddress, Text.Split;
    CutIsBlock(buf);
    var header := buf[..FindBlank(buf) + 2];
    ProcessedIsFramed(Split(header), side);
    var out := Processed(header, side.ip, side.isRequest);
    ReadFramed(out, "");
    assert out + "" == out;
  }

  /** The bytes of whole messages, in any fragments, are read back as those messages, with nothing
      left over. This holds for the parser as written too: no message of the stream is chunked. */
  lemma StreamIsReadBack(side: Side, sent: seq<HttpContext>, pieces: seq<string>)
    requires AllWhole(sent) && Concat(pieces) == Flat(sent)
    ensures Feed(side, START, pieces) == Parse(ReadHeaders, "", FRESH, RedeliveredAll(side, sent), 0)
  {
    var p := START.Append(Flat(sent));
    assert Flat(sent) + "" == Flat(sent) && "" + Flat(sent) == Flat(sent);
    hide Flat, Whole, Redelivered;
    ReadAllWhole(side, p, sent, "");
    assert START.delivered + RedeliveredAll(side, sent) == RedeliveredAll(side, sent);
    PlainFragmentationIndependence(side, START, pieces);
  }

  /** Messages on their way through proxies: each proxy is sent, in some fragments, the bytes of the
      messages before it, one behind the other, and the next messages are those that it delivers. */
  ghost predicate OnPath(hops: seq<Side>, cuts: seq<seq<string>>, mss: seq<seq<HttpContext>>) {
    && |cuts| == |hops| && |mss| == |hops| + 1
    && forall i :: 0 <= i < |hops| ==>
         Concat(cuts[i]) == Flat(mss[i]) && mss[i + 1] == Feed(hops[i], START, cuts[i]).delivered
  }

  /** One whole message, read in any fragments. */
  lemma MessageIsReadBack(side: Side, d: HttpContext, pieces: seq<string>)
    requires Whole(d) && Concat(pieces) == d.Bytes()
    ensures Feed(side, START, pieces) == Parse(ReadHeaders, "", FRESH, [Redelivered(side, d)], 0)
  {
    hide Feed, Concat, Redelivered, Whole;
    FlatSnoc([], d);
    assert [] + [d] == [d] && "" + d.Bytes() == d.Bytes();
    StreamIsReadBack(side, [d], pieces);
    assert RedeliveredAll(side, [d]) == [Redelivered(side, d)];
  }

  /** Each of these messages after these proxies. */
  function ThroughAll(ds: seq<HttpContext>, hops: seq<Side>): (r: seq<HttpContext>)
    ensures |r| == |ds|
  {
    seq(|ds|, j requires 0 <= j < |ds| => Through(ds[j], hops))
  }

  lemma ThroughStep(ds: seq<HttpContext>, hops: seq<Side>)
    ensures hops == [] ==> ThroughAll(ds, hops) == ds
    ensures hops != [] ==>
              var n := |hops| - 1; RedeliveredAll(hops[n], ThroughAll(ds, hops[..n])) == ThroughAll(ds, hops)
  {
    hide Redelivered;
  }

  lemma ThroughIsWhole(ds: seq<HttpContext>, hops: seq<Side>)
    requires AllWhole(ds)
    requires forall i :: 0 <= i < |hops| ==> hops[i].isRequest && IsAddress(hops[i].ip)
    ensures AllWhole(ThroughAll(ds, hops))
  {
    hide Whole, Through, IsAddress;
    forall j | 0 <= j < |ds| ensures Whole(ThroughAll(ds, hops)[j]) {
      ThroughProxies(ds[j], hops);
    }
  }

  /** The messages on leg `i`. */
  lemma {:induction false} OneLeg(hops: seq<Side>, cuts: seq<seq<string>>, mss: seq<seq<HttpContext>>, i: nat)
    requires OnPath(hops, cuts, mss) && AllWhole(mss[0]) && i <= |hops|
    requires forall j :: 0 <= j < |hops| ==> hops[j].isRequest && IsAddress(hops[j].ip)
    ensures mss[i] == ThroughAll(mss[0], hops[..i])
    ensures i > 0 ==> Feed(hops[i - 1], START, cuts[i - 1]) == Parse(ReadHeaders, "", FRESH, mss[i], 0)
  {
    hide Feed, Concat, Flat, Through, ThroughAll, Redelivered, Whole, IsAddress;
    ThroughStep(mss[0], hops[..i]);
    if i > 0 {
      OneLeg(hops, cuts, mss, i - 1);
      assert hops[..i][..i - 1] == hops[..i - 1] && hops[..i][i - 1] == hops[i - 1];
      ThroughIsWhole(mss[0], hops[..i - 1]);
      StreamIsReadBack(hops[i - 1], mss[i - 1], cuts[i - 1]);
      assert mss[i - 1 + 1] == Feed(hops[i - 1], START, cuts[i - 1]).delivered;
    }
  }

  /** The last message of a path: the body and the declared length of the first; behind what the request
      came with, the client of every proxy in order; the last client; and, given a request line, the
      method and the target of the first. */
  ghost predicate Arrived(hops: seq<Side>, d: HttpContext, r: HttpContext) {
    && Whole(r) && r.content == d.content
    && (hops != [] ==>
          && FieldValue(Lines(r.header), XFF)
               == Some(ListValue(Items(FieldValue(Lines(d.header), XFF)) + Addresses(hops)))
          && FieldValue(Lines(r.header), XRI) == Some(hops[|hops| - 1].ip))
    && (Sound(d, true) && HasRequestLine(d.header) ==> r.verb == d.verb && r.urlPath == d.urlPath)
  }

  /** However many proxies a pipelined sequence of requests passes, and however the bytes are cut on each
      leg, every proxy delivers the messages one for one and has nothing left over, and each of the last
      messages is what should arrive. */
  lemma PathOfProxies(hops: seq<Side>, cuts: seq<seq<string>>, mss: seq<seq<HttpContext>>)
    requires OnPath(hops, cuts, mss) && AllWhole(mss[0])
    requires forall i :: 0 <= i < |hops| ==> hops[i].isRequest && IsAddress(hops[i].ip)
    ensures forall i :: 0 <= i < |hops| ==>
              Feed(hops[i], START, cuts[i]) == Parse(ReadHeaders, "", FRESH, mss[i + 1], 0)
    ensures forall i :: 0 <= i <= |hops| ==> |mss[i]| == |mss[0]|
    ensures forall j :: 0 <= j < |mss[0]| ==> Arrived(hops, mss[0][j], mss[|hops|][j])
  {
    hide Feed, Whole, IsAddress, Through, Arrived;
    forall i | 0 <= i < |hops|
      ensures Feed(hops[i], START, cuts[i]) == Parse(ReadHeaders, "", FRESH, mss[i + 1], 0)
    {
      OneLeg(hops, cuts, mss, i + 1);
    }
    forall i | 0 <= i <= |hops| ensures |mss[i]| == |mss[0]| {
      OneLeg(hops, cuts, mss, i);
    }
    OneLeg(hops, cuts, mss, |hops|);
    assert hops[..|hops|] == hops;
    forall j | 0 <= j < |mss[0]| ensures Arrived(hops, mss[0][j], mss[|hops|][j]) {
      ThroughArrives(mss[0][j], hops);
    }
  }

  lemma ThroughArrives(d: HttpContext, hops: seq<Side>)
    requires Whole(d)
    requires forall i :: 0 <= i < |hops| ==> hops[i].isRequest && IsAddress(hops[i].ip)
    ensures Arrived(hops, d, Through(d, hops))
  {
    hide Whole, Sound, Lines, IsAddress, FieldValue, ListValue, Items, Addresses, Through, HasRequestLine;
    ThroughProxies(d, hops);
    if hops != [] {
      ChainOfLines(Lines(d.header), hops) by { WholeIsBlock(d); }
    }
    if Sound(d, true) && HasRequestLine(d.header) {
      ThroughKeepsHead(d, hops);
    }
  }

  lemma WholeIsBlock(d: HttpContext)
    requires Whole(d)
    ensures Block(Lines(d.header))
  {
  }

  lemma ChainOfLines(lines: seq<string>, hops: seq<Side>)
    requires Block(lines) && hops != []
    requires forall i :: 0 <= i < |hops| ==> IsAddress(hops[i].ip)
    ensures FieldValue(Hops(lines, Addresses(hops)), XFF)
              == Some(ListValue(Items(FieldValue(lines, XFF)) + Addresses(hops)))
    ensures FieldValue(Hops(lines, Addresses(hops)), XRI) == Some(hops[|hops| - 1].ip)
  {
    hide FieldValue, IsAddress, ListValue, Items, Hops, Block;
    ProxyChain(lines, Addresses(hops));
  }

  /** End-to-end relay. Whatever a client sends and however it arrives, take any of the requests the
      proxy's parser delivers that are not chunked and have a method and a target. Put on the wire in
      any order and read by the next hop in any fragments, they are delivered one for one with the
      same methods, targets, lengths and bodies, and nothing is left over. */
  lemma EndToEndRelay(side: Side, arrived: seq<string>, next: Side, sent: seq<HttpContext>, pieces: seq<string>)
    requires side.isRequest && next.isRequest && IsAddress(side.ip) && IsAddress(next.ip)
    requires var delivered := Feed(side, START, arrived).delivered;
             forall i :: 0 <= i < |sent| ==>
               sent[i] in delivered && !Chunked(Lines(sent[i].header)) && HasRequestLine(sent[i].header)
    requires Concat(pieces) == Flat(sent)
    ensures var q := Feed(next, START, pieces);
            && q.state == ReadHeaders && q.rawBuffer == "" && q.rejected == 0
            && |q.delivered| == |sent|
            && forall i :: 0 <= i < |sent| ==>
                 && q.delivered[i].verb == sent[i].verb && q.delivered[i].urlPath == sent[i].urlPath
                 && q.delivered[i].content == sent[i].content
                 && Length(Lines(q.delivered[i].header)) == |sent[i].content|
  {
    FeedKeeps(side, START, arrived);
    hide Feed, Concat, Flat, HasRequestLine, Redelivered, Framed, Lines, Chunked, Length, IsAddress, Headed;
    forall i | 0 <= i < |sent| ensures Sound(sent[i], true) && Whole(sent[i]) {}
    StreamIsReadBack(next, sent, pieces);
    forall i | 0 <= i < |sent|
      ensures var r := Redelivered(next, sent[i]);
              && r.verb == sent[i].verb && r.urlPath == sent[i].urlPath
              && r.content == sent[i].content && Whole(r)
    {
      NextHopReadsTheSame(next, sent[i]);
    }
  }

  // ---- the client's address ----------------------------------------------------------------------

  /** Read by name, the request says that it comes from this address: alone as the X-Real-IP, and at the end
      of the X-Forwarded-For. */
  ghost predicate Names(header: string, ip: string) {
    && FieldValue(Lines(header), "x-real-ip") == Some(ip)
    && exists before :: FieldValue(Lines(header), "x-forwarded-for") == Some(AddHop(before, ip))
  }

  /** Every message delivered does, and so does the one that is being read. */
  ghost predicate AllName(side: Side, p: Parse) {
    && (forall i :: 0 <= i < |p.delivered| ==> Names(p.delivered[i].header, side.ip))
    && (p.state in {ReadBody, ReadChunkSize, ReadChunkData, ExpectCrlf} ==> Names(p.tmpContext.header, side.ip))
  }

  lemma HeaderReadNames(side: Side, buf: string)
    requires FindBlank(buf) != -1 && IsAddress(side.ip) && side.isRequest
    ensures Names(HeaderRead(side, buf[..FindBlank(buf) + 2]).header, side.ip)
  {
    BlankIsInside(buf);
    hide *;
    var h := buf[..FindBlank(buf) + 2];
    CutIsBlock(buf);
    HeaderReadFields(side, h);
    ProcessedText(h, side);
    ProcessedIsFramed(Split(h), side);
    RewrittenNames(HeaderRead(side, h).header, Split(h), side.ip);
  }

  lemma RewrittenNames(header: string, lines: seq<string>, ip: string)
    requires Block(lines) && IsAddress(ip) && Lines(header) == Rewrite(lines, ip)
    ensures Names(header, ip)
  {
    hide FieldValue, Lines, Rewrite, NoCrlf, IsAddress;
    RewriteValues(lines, ip);
  }

  lemma HeaderCutNames(side: Side, p: Parse, header: string, rest: string)
    requires p.state == ReadHeaders && AllName(side, p) && Names(HeaderRead(side, header).header, side.ip)
    ensures AllName(side, HeaderCut(side, p, header, rest))
  {
    hide HeaderRead, Names, Chunked, Length, Text.Split;
  }

  lemma StepHeadersNames(side: Side, p: Parse)
    requires p.state == ReadHeaders && FindBlank(p.rawBuffer) != -1 && IsAddress(side.ip) && side.isRequest
    requires AllName(side, p)
    ensures AllName(side, Step(side, p))
  {
    var e := FindBlank(p.rawBuffer);
    HeaderReadNames(side, p.rawBuffer);
    StepIsHeaders(side, p);
    hide *;
    HeaderCutNames(side, p, p.rawBuffer[..e + 2], p.rawBuffer[e + 4..]);
  }

  lemma StepNames(side: Side, p: Parse)
    requires CanStep(p) && IsAddress(side.ip) && side.isRequest && AllName(side, p)
    ensures AllName(side, Step(side, p))
  {
    hide HeaderRead, Names, FindBlank, FindCrlf, IsAddress, StepHeaders;
    if p.state == ReadHeaders {
      StepHeadersNames(side, p);
      return;
    }
  }

  lemma {:induction false} RunNames(side: Side, p: Parse)
    requires IsAddress(side.ip) && side.isRequest && AllName(side, p)
    ensures AllName(side, Run(side, p))
    decreases |p.rawBuffer|, Rank(p.state)
  {
    hide AllName, IsAddress;
    if CanStep(p) {
      StepNames(side, p);
      RunNames(side, Step(side, p));
    }
  }

  lemma HandleNames(side: Side, p: Parse, x: string)
    requires IsAddress(side.ip) && side.isRequest && AllName(side, p)
    ensures AllName(side, Handle(side, p.Append(x)))
  {
    hide Names, IsAddress, Run;
    RunNames(side, p.Append(x));
  }

  /** Whatever a client sends and however it arrives, every request that its connection delivers names the
      address of that client. */
  lemma {:induction false} DeliveredNamesClient(side: Side, p: Parse, pieces: seq<string>)
    requires IsAddress(side.ip) && side.isRequest && AllName(side, p)
    ensures AllName(side, Feed(side, p, pieces))
    decreases |pieces|
  {
    hide AllName, IsAddress, Handle;
    if pieces != [] {
      HandleNames(side, p, pieces[0]);
      DeliveredNamesClient(side, Handle(side, p.Append(pieces[0])), pieces[1..]);
    }
  }
}
