/** The proxy as a whole: a client's bytes through both connections of a pair to the next hop. */
module System {
  import opened Text
  import opened Headers
  import opened Rewriting
  import opened Messages
  import opened Parser
  import opened Fragments
  import opened Relay
  import opened Invariants
  import opened EndToEnd
  import opened Responses
  import opened Writer
  import opened Connections

  /** Once a connection's queue is empty, what it has put on the wire is cut by the next parser, in any
      fragments, into exactly the messages that were queued. */
  lemma DrainedWire(h: NormalConnHandler, next: Side, pieces: seq<string>)
    requires h.WriterOk() && h.queue == [] && AllWhole(h.enqueued)
    requires Concat(pieces) == h.wire
    ensures Feed(next, START, pieces) == Parse(ReadHeaders, "", FRESH, RedeliveredAll(next, h.enqueued), 0)
  {
    NothingPending();
    assert h.wire + "" == h.wire;
    hide Whole, Feed, Flat, Redelivered;
    StreamIsReadBack(next, h.enqueued, pieces);
  }

  lemma {:induction false} QueuedIn(requests: seq<HttpContext>)
    ensures forall i :: 0 <= i < |Queued(requests)| ==> Queued(requests)[i] in requests
  {
    if requests != [] {
      QueuedIn(requests[..|requests| - 1]);
    }
  }

  /** A request the next hop can read: a start line with two spaces and no chunked coding. */
  ghost predicate Relayable(c: HttpContext) {
    HasRequestLine(c.header) && !Chunked(Lines(c.header))
  }

  lemma BothAreSound(client: NormalConnHandler, backend: NormalConnHandler)
    requires client.side.isRequest && client.rev == Normal(backend)
    requires client.BothWritersOk() && client.BothAccounts()
    ensures backend.WriterOk() && backend.enqueued == Queued(client.delivered)
    ensures client.ParseState().delivered == client.delivered
  {
    hide Queued, Refused, AcceptedAll, NormalConnHandler.WriterOk;
  }

  /** What reaches the backend's queue can be read by the next hop. */
  lemma SentIsRelayable(side: Side, p: Parse)
    requires side.isRequest && Valid(side, p)
    requires forall i :: 0 <= i < |p.delivered| && p.delivered[i].RequestValid() ==> Relayable(p.delivered[i])
    ensures var sent := Queued(p.delivered);
            forall i :: 0 <= i < |sent| ==> Sound(sent[i], true) && Whole(sent[i]) && HasRequestLine(sent[i].header)
  {
    hide Framed, Lines, Chunked, Headed, HasRequestLine, Whole, Refused, Queued;
    var sent := Queued(p.delivered);
    QueuedIn(p.delivered);
    ForwardedOrRefused(p.delivered);
    forall i | 0 <= i < |sent| ensures Sound(sent[i], true) && Whole(sent[i]) && HasRequestLine(sent[i].header) {
      var k :| 0 <= k < |p.delivered| && p.delivered[k] == sent[i];
    }
  }

  lemma SoundIsWhole(ds: seq<HttpContext>)
    requires forall i :: 0 <= i < |ds| ==> Whole(ds[i])
    ensures AllWhole(ds)
  {
    hide Whole;
  }

  lemma RedeliveredCounts(side: Side, ds: seq<HttpContext>)
    ensures |RedeliveredAll(side, ds)| == |ds|
    ensures forall i :: 0 <= i < |ds| ==> RedeliveredAll(side, ds)[i] == Redelivered(side, ds[i])
  {
    hide Redelivered;
  }

  /** The proxy relays. Take a client connection and its live backend at any moment of their lives at
      which everything queued for the backend has been sent. The bytes on the backend's wire, read by
      the next hop in any fragments, are delivered there as the valid requests the client has sent, one
      for one and in order, with their methods, targets and bodies, and nothing is left over, provided
      that none of them was chunked and each has a full request line. */
  lemma ProxyRelays(client: NormalConnHandler, backend: NormalConnHandler, next: Side, pieces: seq<string>)
    requires client.side.isRequest && client.rev == Normal(backend)
    requires client.BothWritersOk() && client.BothAccounts()
    requires IsAddress(client.side.ip) && Valid(client.side, client.ParseState())
    requires next.isRequest && IsAddress(next.ip)
    requires backend.queue == [] && Concat(pieces) == backend.wire
    requires forall i :: 0 <= i < |client.delivered| && client.delivered[i].RequestValid() ==>
               Relayable(client.delivered[i])
    ensures var q, sent := Feed(next, START, pieces), Queued(client.delivered);
            && q.state == ReadHeaders && q.rawBuffer == "" && q.rejected == 0
            && |q.delivered| == |sent|
            && forall i :: 0 <= i < |sent| ==>
                 && q.delivered[i].verb == sent[i].verb && q.delivered[i].urlPath == sent[i].urlPath
                 && q.delivered[i].content == sent[i].content
  {
    hide *;
    var sent := Queued(client.delivered);
    BothAreSound(client, backend);
    SentIsRelayable(client.side, client.ParseState());
    DrainedWire(backend, next, pieces) by { SoundIsWhole(sent); }
    RedeliveredCounts(next, sent);
    forall i | 0 <= i < |sent|
      ensures var r := RedeliveredAll(next, sent)[i];
              r.verb == sent[i].verb && r.urlPath == sent[i].urlPath && r.content == sent[i].content
    {
      NextHopReadsTheSame(next, sent[i]);
    }
  }

  // ---- with output still waiting ------------------------------------------------------------------------

  /** Part of a whole message delivers nothing. */
  lemma PartDeliversNothing(side: Side, p: Parse, d: HttpContext)
    requires p.state == ReadHeaders && Whole(d) && p.rawBuffer <= d.Bytes() && |p.rawBuffer| < |d.Bytes()|
    ensures Run(side, p).delivered == p.delivered
  {
    hide Whole, Run, CanStep, Step, FindBlank;
    if |p.rawBuffer| < |d.header| {
      PartOfHeader(p, d);
      RunStops(side, p);
    } else {
      var body := p.rawBuffer[|d.header|..];
      CutPart(p.rawBuffer, d);
      PartOfBody(side, p, d, body);
    }
  }

  lemma CutPart(part: string, d: HttpContext)
    requires part <= d.Bytes() && |d.header| <= |part| < |d.Bytes()|
    ensures part == d.header + part[|d.header|..] && |part[|d.header|..]| < |d.content|
  {
    assert part[..|d.header|] == d.Bytes()[..|d.header|] == d.header;
  }

  /** A header without all of its blank line. */
  lemma PartHasNoBlank(part: string, header: string, content: string)
    requires Framed(header) && part <= header + content && |part| < |header|
    ensures FindBlank(part) == -1
  {
    hide Framed, Lines, FindBlank;
    var x := (header + content)[|part|..];
    assert part + x == header + content;
    ReadFramed(header, content);
    if FindBlank(part) != -1 {
      FindBlankExtend(part, x);
    }
  }

  lemma PartOfHeader(p: Parse, d: HttpContext)
    requires p.state == ReadHeaders && Whole(d) && p.rawBuffer <= d.Bytes() && |p.rawBuffer| < |d.header|
    ensures !CanStep(p)
  {
    assert Framed(d.header);
    hide Framed, Whole, FindBlank;
    PartHasNoBlank(p.rawBuffer, d.header, d.content);
  }

  /** A header and part of its body. */
  lemma PartOfBody(side: Side, p: Parse, d: HttpContext, body: string)
    requires p.state == ReadHeaders && Whole(d) && p.rawBuffer == d.header + body && |body| < |d.content|
    ensures Run(side, p).delivered == p.delivered
  {
    HeaderOfPart(side, p, d, body);
    hide Whole, Run, HeaderRead, Lines, Join, StepBody, Take;
    RunStep(side, p);
    var q := Step(side, p);
    if body == "" {
      RunStops(side, q);
    } else {
      RunStep(side, q);
      BodyStep(side, q);
      PartOfStep(q);
      RunStops(side, StepBody(q));
    }
  }

  lemma PartOfStep(q: Parse)
    requires q.state == ReadBody && 0 < |q.rawBuffer| < q.tmpContext.remaining
    ensures StepBody(q).rawBuffer == "" && StepBody(q).delivered == q.delivered && !CanStep(StepBody(q))
  {
  }

  lemma HeaderOfPart(side: Side, p: Parse, d: HttpContext, body: string)
    requires p.state == ReadHeaders && Whole(d) && p.rawBuffer == d.header + body && d.content != ""
    ensures CanStep(p)
    ensures var q := Step(side, p);
            q.state == ReadBody && q.rawBuffer == body && q.tmpContext.remaining == |d.content|
            && q.delivered == p.delivered
  {
    hide HeaderRead;
    HeaderOfWhole(side, p, d, body);
  }

  /** How many whole messages, and what part of the next, the first `|wire|` bytes are. */
  lemma {:induction false} WholeOnWire(sent: seq<HttpContext>, wire: string, rest: string)
    returns (m: nat, tail: string)
    requires wire + rest == Flat(sent)
    ensures m <= |sent| && wire == Flat(sent[..m]) + tail
    ensures m == |sent| ==> tail == ""
    ensures m < |sent| ==> tail <= sent[m].Bytes() && |tail| < |sent[m].Bytes()|
    ensures rest == "" ==> m == |sent|
    decreases |sent|
  {
    if rest == "" {
      m, tail := |sent|, "";
      assert sent[..m] == sent && wire + "" == wire;
    } else {
      var n := |sent| - 1;
      var init, d := sent[..n], sent[n];
      assert Flat(sent) == Flat(init) + d.Bytes();
      hide Flat;
      if |Flat(init)| <= |wire| {
        m, tail := n, wire[|Flat(init)|..];
        LastPart(Flat(init), d.Bytes(), wire, rest);
      } else {
        WithinFirst(Flat(init), d.Bytes(), wire, rest);
        m, tail := WholeOnWire(init, wire, Flat(init)[|wire|..]);
        assert init[..m] == sent[..m];
      }
    }
  }

  lemma LastPart(a: string, b: string, wire: string, rest: string)
    requires wire + rest == a + b && |a| <= |wire| && rest != ""
    ensures wire == a + wire[|a|..] && wire[|a|..] <= b && |wire[|a|..]| < |b|
  {
    assert (wire + rest)[..|a|] == wire[..|a|] && (a + b)[..|a|] == a;
    assert (wire + rest)[|a|..] == wire[|a|..] + rest && (a + b)[|a|..] == b;
  }

  lemma WithinFirst(a: string, b: string, wire: string, rest: string)
    requires wire + rest == a + b && |wire| < |a|
    ensures wire + a[|wire|..] == a && a[|wire|..] != ""
  {
    assert (wire + rest)[..|wire|] == wire && (a + b)[..|wire|] == a[..|wire|];
  }

  /** The bytes of whole messages up to any point deliver exactly the messages that are complete by then. */
  lemma PrefixIsReadBack(side: Side, sent: seq<HttpContext>, m: nat, tail: string, wire: string)
    requires AllWhole(sent) && m <= |sent| && wire == Flat(sent[..m]) + tail
    requires m == |sent| ==> tail == ""
    requires m < |sent| ==> tail <= sent[m].Bytes() && |tail| < |sent[m].Bytes()|
    ensures Run(side, START.Append(wire)).delivered == RedeliveredAll(side, sent[..m])
  {
    hide Whole, Redelivered, Run, Flat, Plain;
    var p := START.Append(wire);
    assert p.rawBuffer == wire by { assert "" + wire == wire; }
    ReadAllWhole(side, p, sent[..m], tail);
    assert p.delivered + RedeliveredAll(side, sent[..m]) == RedeliveredAll(side, sent[..m]);
    var q := Parse(ReadHeaders, tail, FRESH, RedeliveredAll(side, sent[..m]), 0);
    if m < |sent| {
      PartDeliversNothing(side, q, sent[m]);
    } else {
      NothingLeft(side, q);
    }
  }

  lemma NothingLeft(side: Side, q: Parse)
    requires q.rawBuffer == ""
    ensures Run(side, q) == q
  {
  }

  /** The stream of those bytes is plain, whatever its cuts. */
  lemma PrefixInFragments(side: Side, sent: seq<HttpContext>, wire: string, rest: string, pieces: seq<string>)
    requires AllWhole(sent) && wire + rest == Flat(sent) && Concat(pieces) == wire
    ensures Feed(side, START, pieces) == Run(side, START.Append(wire))
  {
    hide Whole, Redelivered, Run, Flat, Plain;
    var p := START.Append(wire);
    assert p.Append(rest).rawBuffer == Flat(sent) + "" by {
      assert "" + wire == wire && Flat(sent) + "" == Flat(sent);
    }
    ReadAllWhole(side, p.Append(rest), sent, "");
    PlainAtRest(side, Parse(ReadHeaders, "", FRESH, [] + RedeliveredAll(side, sent), 0));
    PlainExtend(side, p, rest);
    PlainFragmentationIndependence(side, START, pieces);
  }

  lemma PlainAtRest(side: Side, q: Parse)
    requires q.state == ReadHeaders && q.rawBuffer == ""
    ensures Plain(side, q)
  {
  }

  /** These messages have the methods, targets and bodies of those. */
  ghost predicate SameRequests(arrived: seq<HttpContext>, sent: seq<HttpContext>) {
    && |arrived| == |sent|
    && forall i :: 0 <= i < |sent| ==>
         && arrived[i].verb == sent[i].verb && arrived[i].urlPath == sent[i].urlPath
         && arrived[i].content == sent[i].content
  }

  lemma RedeliveredIsSame(next: Side, sent: seq<HttpContext>)
    requires next.isRequest && IsAddress(next.ip)
    requires forall i :: 0 <= i < |sent| ==> Sound(sent[i], true) && Whole(sent[i]) && HasRequestLine(sent[i].header)
    ensures SameRequests(RedeliveredAll(next, sent), sent)
  {
    hide Sound, Whole, HasRequestLine, IsAddress, Redelivered;
    RedeliveredCounts(next, sent);
    forall i | 0 <= i < |sent|
      ensures var r := RedeliveredAll(next, sent)[i];
              r.verb == sent[i].verb && r.urlPath == sent[i].urlPath && r.content == sent[i].content
    {
      NextHopReadsTheSame(next, sent[i]);
    }
  }

  /** The proxy relays, at every moment, with output still waiting or not. The next hop has delivered, from
      the bytes on the backend's wire so far and in any fragments, exactly the valid requests of the client
      whose bytes are all on it, in order, with their methods, targets and bodies. */
  lemma ProxyRelaysSoFar(client: NormalConnHandler, backend: NormalConnHandler, next: Side, pieces: seq<string>)
    returns (m: nat)
    requires client.side.isRequest && client.rev == Normal(backend)
    requires client.BothWritersOk() && client.BothAccounts()
    requires IsAddress(client.side.ip) && Valid(client.side, client.ParseState())
    requires next.isRequest && IsAddress(next.ip) && Concat(pieces) == backend.wire
    requires forall i :: 0 <= i < |client.delivered| && client.delivered[i].RequestValid() ==>
               Relayable(client.delivered[i])
    ensures var q, sent := Feed(next, START, pieces), Queued(client.delivered);
            && m <= |sent|
            && Flat(sent[..m]) <= backend.wire
            && (m < |sent| ==> |backend.wire| < |Flat(sent[..m + 1])|)
            && (Pending(backend.queue) == "" ==> m == |sent|)
            && SameRequests(q.delivered, sent[..m])
  {
    hide *;
    var sent, rest := Queued(client.delivered), Pending(backend.queue);
    BothAreSound(client, backend);
    SentIsRelayable(client.side, client.ParseState());
    SoundIsWhole(sent);
    WireAndPending(backend);
    var tail;
    m, tail := WholeOnWire(sent, backend.wire, rest);
    PrefixIsReadBack(next, sent, m, tail, backend.wire);
    PrefixInFragments(next, sent, backend.wire, rest, pieces);
    RedeliveredCounts(next, sent[..m]);
    if m < |sent| {
      FlatSnoc(sent[..m], sent[m]);
      assert sent[..m] + [sent[m]] == sent[..m + 1];
    }
    RedeliveredIsSame(next, sent[..m]);
  }

  lemma WireAndPending(h: NormalConnHandler)
    requires h.WriterOk()
    ensures h.wire + Pending(h.queue) == Flat(h.enqueued)
  {
  }

  /** On a socket that takes all it is offered, everything a connection has ever been given is on its wire,
      at every moment. */
  lemma NothingIsHeldBack(h: NormalConnHandler)
    requires h.WriterOk()
    requires Accepts(h.answers, h.enqueued) && |h.answers| >= 2 * |h.enqueued|
    ensures h.queue == [] && !h.isSending && !h.failing && h.wire == Flat(h.enqueued)
  {
    hide Replayed, Accepts;
    var used := EverythingIsSent(h.answers, h.enqueued, h.writeEvents);
  }

  // ---- responses ------------------------------------------------------------------------------------

  lemma {:induction false} AcceptedAsTheyAre(responses: seq<HttpContext>)
    requires forall i :: 0 <= i < |responses| ==> responses[i].ResponseValid()
    ensures AcceptedAll(responses) == responses
  {
    if responses != [] {
      var n := |responses| - 1;
      AcceptedAsTheyAre(responses[..n]);
      assert responses == responses[..n] + [responses[n]];
    }
  }

  /** What the client's queue has held. */
  lemma ResponsesInOrder(client: NormalConnHandler, backend: NormalConnHandler)
    requires client.side.isRequest && client.rev == Normal(backend)
    requires client.BothWritersOk() && client.BothAccounts() && AllValid(client.delivered)
    requires forall i :: 0 <= i < |backend.delivered| ==> backend.delivered[i].ResponseValid()
    ensures client.WriterOk() && !backend.side.isRequest && client.enqueued == backend.delivered
  {
    hide Queued, Refused, AcceptedAll, Accounts, AllValid, IsMerge, NormalConnHandler.WriterOk;
    OneAnswerEach(client.rev, client.delivered, client.enqueued, backend.delivered, backend.enqueued);
    AcceptedAsTheyAre(backend.delivered);
  }

  /** The proxy relays responses, as written. Take a client connection and its live backend at any moment
      at which everything queued for the client has been sent, no request was refused, and every response
      has a status. The bytes on the client's wire, then the unfinished response and the buffer of the
      backend's end, are exactly the bytes the backend has sent, in any fragments and without chunked
      messages, if and only if none of its header blocks was dropped for its Content-Length. */
  lemma ProxyRelaysResponses(client: NormalConnHandler, backend: NormalConnHandler)
    requires client.side.isRequest && client.rev == Normal(backend)
    requires client.BothWritersOk() && client.BothAccounts() && backend.HistoryOk()
    requires client.queue == [] && AllValid(client.delivered)
    requires forall i :: 0 <= i < |backend.delivered| ==> backend.delivered[i].ResponseValid()
    requires Plain(backend.side, START.Append(Concat(backend.pieces)))
    ensures (client.wire + Held(backend.state, backend.tmpContext) + backend.rawBuffer == Concat(backend.pieces))
            <==> !Drops(backend.side, START.Append(Concat(backend.pieces)))
  {
    ResponsesInOrder(client, backend);
    NothingPending();
    assert client.wire + "" == client.wire;
    hide Plain, Drops, Feed, Concat, Flat, Held;
    ResponseStream(backend.side, backend.pieces);
  }
}
