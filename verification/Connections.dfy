/** One connection of the proxy (NormalConnHandler) with its peer: reading, parsing, handing messages
    over, queueing and sending. */
module Connections {
  import opened Text
  import opened Numbers
  import opened Headers
  import opened Rewriting
  import opened Messages
  import opened Parser
  import opened Fragments
  import opened Relay
  import opened Invariants
  import opened Responses
  import opened Writer
  import UrlDecoding

  // ---- what becomes of a message ---------------------------------------------------------------

  /** What the client side queues for a response: a response without a status is replaced. */
  function Accepted(c: HttpContext): HttpContext {
    if c.ResponseValid() then c
    else WithResponseHead(c.(content := ErrorPage(500), header := GenHttpHeader(ErrorPage(500), 500)))
  }

  /** FailedBackendHandler's answer to every request. */
  function BadGateway(): HttpContext { WithResponseHead(MakeError(502)) }

  /** What the backend side makes of a request without a method or a target. Its status is never
      read back from its header, so the client side takes it for invalid. */
  function Refusal(): HttpContext { Accepted(MakeError(400)) }

  /** What StaticFileHandler finds behind a request's target. */
  datatype FileOutcome = Missing | Unreadable | File(contentType: string, bytes: string)

  /** A request at which StaticFileHandler throws: url_decode on its target does. */
  predicate StaticThrows(request: HttpContext) {
    request.verb == "GET" && UrlDecoding.Decoded(request.urlPath) == None
  }

  /** One of these is such a request. */
  ghost predicate SomeThrows(requests: seq<HttpContext>) {
    exists i :: 0 <= i < |requests| && StaticThrows(requests[i])
  }

  /** StaticFileHandler's answer to a request at which it does not throw. */
  function StaticAnswer(request: HttpContext, found: FileOutcome): HttpContext {
    if request.verb != "GET" then WithResponseHead(MakeError(405))
    else match found
         case Missing => WithResponseHead(MakeError(404))
         case Unreadable => WithResponseHead(MakeError(500))
         case File(contentType, bytes) => WithResponseHead(MakeResponse(200, contentType, bytes, |bytes|))
  }

  /** The requests, in order, that reach a live backend's queue. */
  function Queued(requests: seq<HttpContext>): seq<HttpContext> {
    if requests == [] then []
    else
      var n := |requests| - 1;
      Queued(requests[..n]) + if requests[n].RequestValid() then [requests[n]] else []
  }

  /** The answers to the others. */
  function Refused(requests: seq<HttpContext>): seq<HttpContext> {
    if requests == [] then []
    else
      var n := |requests| - 1;
      Refused(requests[..n]) + if requests[n].RequestValid() then [] else [Refusal()]
  }

  function AcceptedAll(responses: seq<HttpContext>): seq<HttpContext> {
    if responses == [] then []
    else AcceptedAll(responses[..|responses| - 1]) + [Accepted(responses[|responses| - 1])]
  }

  // ---- the proxy's own answers -------------------------------------------------------------------

  lemma MakeErrorStatus(code: int)
    requires INT_MIN <= code <= INT_MAX
    ensures WithResponseHead(MakeError(code)).statusCode == code
    ensures Ready(WithResponseHead(MakeError(code))) && WithResponseHead(MakeError(code)).phase == SendHeader
    ensures MakeError(code).statusCode == -1
  {
    GeneratedStatus(code, "text/html", CStringLength(ErrorPage(code)));
    hide ErrorPage, StatusText, Stoi, GeneratedLines, Join;
  }

  lemma MakeErrorIsBlank(code: int)
    ensures var c := MakeError(code);
            c.isCompleted && c.phase == SendHeader && c.statusCode == -1 && Accepted(MakeError(400)) == Refusal()
  {
    hide ErrorPage, GenHttpHeader, Accepted;
  }

  /** As written, a client that sends a request without method or target is never answered 400: its
      answer is always the 500 page. */
  lemma RefusalIs500()
    ensures Refusal().statusCode == 500 == StatusLine(Refusal()) && Refusal().content == ErrorPage(500)
    ensures Ready(Refusal()) && Refusal().phase == SendHeader
  {
    MakeErrorStatus(400);
    AcceptedIsReady(MakeError(400));
    GeneratedStatus(500, "text/html", CStringLength(ErrorPage(500)));
    hide ErrorPage, WithResponseHead, GeneratedLines, Join;
  }

  /** The code on the status line of a response. */
  function StatusLine(c: HttpContext): int {
    WithResponseHead(FRESH.(header := c.header)).statusCode
  }

  /** One answer, with the code 400. */
  predicate Says400(answers: seq<HttpContext>) {
    |answers| == 1 && StatusLine(answers[0]) == 400
  }

  lemma NeverSays400(before: seq<HttpContext>, after: seq<HttpContext>)
    requires after == before + [Refusal()]
    ensures |after| > |before| && !Says400(after[|before|..])
  {
    RefusalIs500();
    hide Refusal, StatusLine;
    assert after[|before|..] == [Refusal()];
  }

  predicate AllSay400(answers: seq<HttpContext>) {
    forall i :: 0 <= i < |answers| ==> StatusLine(answers[i]) == 400
  }

  predicate AllValid(requests: seq<HttpContext>) {
    forall i :: 0 <= i < |requests| ==> requests[i].RequestValid()
  }

  lemma OneRefusalSays500(answers: seq<HttpContext>)
    ensures !AllSay400(answers + [Refusal()])
  {
    RefusalIs500();
    hide Refusal, StatusLine;
    assert (answers + [Refusal()])[|answers|] == Refusal();
  }

  lemma AllValidStep(requests: seq<HttpContext>, n: nat)
    requires |requests| == n + 1
    ensures AllValid(requests) <==> AllValid(requests[..n]) && requests[n].RequestValid()
  {
    assert forall i :: 0 <= i < n ==> requests[..n][i] == requests[i];
  }

  lemma RefusedStep(requests: seq<HttpContext>, n: nat)
    requires |requests| == n + 1
    ensures Refused(requests)
              == if requests[n].RequestValid() then Refused(requests[..n]) else Refused(requests[..n]) + [Refusal()]
  {
    hide Refusal;
    assert Refused(requests[..n]) + [] == Refused(requests[..n]);
  }

  lemma NoneRefused()
    ensures AllSay400(Refused([])) && AllValid([])
  {
  }

  /** Every request is queued or answered 400 exactly when every request has a method and a target. */
  lemma {:induction false} QueuedOr400Iff(requests: seq<HttpContext>)
    ensures AllSay400(Refused(requests)) <==> AllValid(requests)
  {
    hide *;
    if requests == [] {
      NoneRefused();
    } else {
      var n := |requests| - 1;
      QueuedOr400Iff(requests[..n]);
      AllValidStep(requests, n);
      RefusedStep(requests, n);
      OneRefusalSays500(Refused(requests[..n]));
    }
  }

  lemma AcceptedIsReady(c: HttpContext)
    requires c.isCompleted && c.phase == SendHeader && (c.ResponseValid() ==> c.header != "")
    ensures Ready(Accepted(c)) && Accepted(c).phase == SendHeader && Accepted(c).ResponseValid()
    ensures !c.ResponseValid() ==> Accepted(c).statusCode == 500 && Accepted(c).content == ErrorPage(500)
  {
    if !c.ResponseValid() {
      var page := ErrorPage(500);
      var d := c.(content := page, header := GenHttpHeader(page, 500));
      GeneratedStatus(500, "text/html", CStringLength(page));
      StatusFromHeader(d);
      hide ErrorPage, WithResponseHead, GeneratedLines, Join;
      assert d.header != "";
    }
  }

  /** The status read off a header does not depend on the rest of the context. */
  lemma StatusFromHeader(c: HttpContext)
    requires WithResponseHead(FRESH.(header := c.header)).statusCode != -1
    ensures WithResponseHead(c) == c.(statusCode := WithResponseHead(FRESH.(header := c.header)).statusCode)
  {
  }

  // ---- the connection ------------------------------------------------------------------------------

  /** The handler at the other end of a pair. */
  datatype Peer = NoPeer | Normal(handler: NormalConnHandler) | FailedBackend | StaticFiles

  ghost predicate IsStaticAnswer(request: HttpContext, answer: HttpContext) {
    !StaticThrows(request) && exists found :: answer == StaticAnswer(request, found)
  }

  /** `c` has the elements of `a` and those of `b`, each in their order. */
  ghost predicate IsMerge<T>(a: seq<T>, b: seq<T>, c: seq<T>)
    decreases |c|
  {
    if c == [] then a == [] && b == []
    else
      var i, j, n := |a| - 1, |b| - 1, |c| - 1;
      || (i >= 0 && a[i] == c[n] && IsMerge(a[..i], b, c[..n]))
      || (j >= 0 && b[j] == c[n] && IsMerge(a, b[..j], c[..n]))
  }

  lemma MergeSnoc<T>(a: seq<T>, b: seq<T>, c: seq<T>, x: T)
    requires IsMerge(a, b, c)
    ensures IsMerge(a + [x], b, c + [x]) && IsMerge(a, b + [x], c + [x])
  {
    assert (a + [x])[..|a|] == a && (b + [x])[..|b|] == b && (c + [x])[..|c|] == c;
  }

  lemma {:induction false} MergeLength<T>(a: seq<T>, b: seq<T>, c: seq<T>)
    requires IsMerge(a, b, c)
    ensures |c| == |a| + |b|
    decreases |c|
  {
    if c != [] {
      var i, j, n := |a| - 1, |b| - 1, |c| - 1;
      if i >= 0 && a[i] == c[n] && IsMerge(a[..i], b, c[..n]) {
        MergeLength(a[..i], b, c[..n]);
      } else {
        MergeLength(a, b[..j], c[..n]);
      }
    }
  }

  lemma {:induction false} MergeAlone<T>(b: seq<T>, c: seq<T>)
    requires IsMerge([], b, c)
    ensures c == b
    decreases |c|
  {
    if c != [] {
      MergeAlone(b[..|b| - 1], c[..|c| - 1]);
    }
  }

  /** Every answer the client side holds has been accounted for, by request and by response. Before a
      live backend the answers are the refusals and the accepted responses, each in their order. */
  ghost predicate Accounts(peer: Peer, requests: seq<HttpContext>, answers: seq<HttpContext>,
                           responses: seq<HttpContext>, forwarded: seq<HttpContext>)
  {
    match peer
    case NoPeer => true
    case Normal(_) =>
      && forwarded == Queued(requests)
      && IsMerge(Refused(requests), AcceptedAll(responses), answers)
    case FailedBackend =>
      && |answers| == |requests|
      && forall i :: 0 <= i < |answers| ==> answers[i] == BadGateway()
    case StaticFiles =>
      && |answers| == |requests|
      && forall i :: 0 <= i < |requests| ==> IsStaticAnswer(requests[i], answers[i])
  }

  /** How a series of reads ends. */
  datatype ReadEnd = WouldBlock | Closed | ReadFailed

  ghost predicate AllReady(queued: seq<HttpContext>, isRequest: bool) {
    forall i :: 0 <= i < |queued| ==>
      Ready(queued[i]) && queued[i].phase == SendHeader && (isRequest ==> queued[i].ResponseValid())
  }

  class NormalConnHandler {
    const side: Side
    const connFd: int
    var rev: Peer

    // reading
    var state: ConnState
    var rawBuffer: string
    var tmpContext: HttpContext

    // an exception of the static file handler has left the parsing loops
    var thrown: bool

    // writing; `epollOut` is the registered interest in EPOLLOUT, `socket` the answers to the writes to come
    var queue: seq<HttpContext>
    var isSending: bool
    var epollOut: bool
    var socket: seq<Answer>

    // what has happened so far: messages handed to the peer, header blocks dropped, messages queued,
    // bytes taken by the socket, and whether the last attempt to write failed
    ghost var delivered: seq<HttpContext>
    ghost var rejected: nat
    ghost var enqueued: seq<HttpContext>
    ghost var wire: string
    ghost var failing: bool
    // the bytes of every read event parsed so far, and, for every write event, how many messages had been
    // queued before it
    ghost var pieces: seq<string>
    ghost var writeEvents: seq<nat>
    ghost const answers: seq<Answer>

    constructor (side: Side, connFd: int, answers: seq<Answer>)
      ensures this.side == side && this.connFd == connFd && rev == NoPeer && this.answers == answers
      ensures ParseState() == START && pieces == [] && WriterOk() && enqueued == [] && writeEvents == [] && !thrown
    {
      this.side, this.connFd, this.answers, rev := side, connFd, answers, NoPeer;
      state, rawBuffer, tmpContext, thrown := ReadHeaders, "", FRESH, false;
      queue, isSending, epollOut, socket := [], false, false, answers;
      delivered, rejected, enqueued, wire, failing, pieces, writeEvents := [], 0, [], "", false, [], [];
    }

    ghost function ParseState(): Parse
      reads `state, `rawBuffer, `tmpContext, `delivered, `rejected
    {
      Parse(state, rawBuffer, tmpContext, delivered, rejected)
    }

    /** The sending side. */
    ghost function Out(): Outbox
      reads `queue, `isSending, `socket, `wire, `failing
    {
      Outbox(queue, isSending, socket, wire, failing)
    }

    /** The queue is a byte FIFO: the bytes taken by the socket and those pending are the bytes of
        every message ever queued, in order. */
    ghost predicate FifoOk()
      reads `queue, `isSending, `epollOut, `enqueued, `wire
    {
      && wire + Pending(queue) == Flat(enqueued)
      && QueueOk(queue) && AllReady(enqueued, side.isRequest)
      && epollOut == isSending
    }

    /** The FIFO holds, interest in EPOLLOUT is registered exactly while sending waits for it, output waits
        for nothing else unless a write has failed, and the sending side is where queueing those messages
        and handling those write events leads, on a socket with those answers. */
    ghost predicate WriterOk()
      reads `queue, `isSending, `epollOut, `socket, `enqueued, `wire, `failing, `writeEvents
    {
      && FifoOk()
      && (isSending ==> queue != [])
      && (failing || (queue != [] ==> isSending))
      && (forall i :: 0 <= i < |writeEvents| ==> writeEvents[i] <= |enqueued|)
      && Out() == Replayed(answers, enqueued, writeEvents)
    }

    ghost function Others(): set<NormalConnHandler>
      reads `rev
    {
      match rev case Normal(h) => {h} case _ => {}
    }

    /** init_link: the two ends of a pair point at each other. */
    ghost predicate Linked()
      reads `rev, Others()`rev
    {
      if side.isRequest then
        match rev
        case NoPeer => false
        case Normal(h) => h != this && !h.side.isRequest && h.rev == Normal(this)
        case _ => true
      else
        rev.Normal? && rev.handler != this && rev.handler.side.isRequest && rev.handler.rev == Normal(this)
    }

    ghost predicate BothWritersOk()
      reads `rev, `queue, `isSending, `epollOut, `socket, `enqueued, `wire, `failing, `writeEvents
      reads Others()`rev, Others()`queue, Others()`isSending, Others()`epollOut, Others()`socket
      reads Others()`enqueued, Others()`wire, Others()`failing, Others()`writeEvents
    {
      Linked() && WriterOk() && (rev.Normal? ==> rev.handler.WriterOk())
    }

    // ---- sending ---------------------------------------------------------------------------------

    /** handle_write_event, called for an event and by recv_content: as many writes as the socket's answers
        allow. */
    method HandleWriteEvent() returns (failed: bool)
      requires FifoOk()
      modifies this`queue, this`isSending, this`epollOut, this`socket, this`wire, this`failing
      ensures FifoOk() && old(wire) <= wire
      ensures Out() == old(Out()).Written()
      ensures failed == failing == old(Out()).Send().1.Broken?
      ensures !failed ==> (isSending <==> queue != []) && (isSending <==> old(Out()).Send().1.Blocked?)
    {
      hide Pending, Flat, AllReady, QueueOk, Sent;
      SendKeeps(Out());
      var needListen := false;
      failed := false;
      while true
        invariant QueueOk(queue) && wire + Pending(queue) == Flat(enqueued) && old(wire) <= wire
        invariant epollOut == isSending == old(isSending) && failing == old(failing)
        invariant Out().Send() == old(Out()).Send()
        decreases |socket|
      {
        FirstIsReady(queue);
        SendTurn(Out());
        if queue == [] || !queue[0].isCompleted {
          needListen := false;
          break;
        }
        var buffer := queue[0].header;
        ghost var before := Out();
        var error, n := SocketWrite(|buffer|);
        if n == -1 {
          if !error {
            needListen := true;
          } else {
            failed := true;
          }
          break;
        } else if n == 0 {
          failed := true;
          break;
        }
        SentKeeps(queue, n);
        Assoc(wire, buffer[..n], Pending(Sent(queue, n)));
        SentIs(queue, n);
        wire := wire + buffer[..n];
        if n != |buffer| {
          queue := [queue[0].(header := buffer[n..])] + queue[1..];
        } else if queue[0].phase == SendContent || queue[0].content == "" {
          queue := queue[1..];
        } else {
          queue := [queue[0].(phase := SendContent, header := queue[0].content)] + queue[1..];
        }
        assert Out() == before.AfterOne();
      }
      if !failed {
        if needListen && !isSending {
          epollOut := true;
          isSending := true;
        } else if !needListen && isSending {
          epollOut := false;
          isSending := false;
        }
      }
      failing := failed;
    }

    /** The socket's next answer to a write. */
    method SocketWrite(size: nat) returns (error: bool, n: int)
      modifies `socket
      ensures -1 <= n <= size
      ensures if old(socket) == [] then socket == [] && n == -1 && !error
              else
                && socket == old(socket)[1..]
                && match old(socket)[0]
                   case Took(count) => n == if count < size then count else size
                   case WouldBlockNow => n == -1 && !error
                   case WriteFailed => n == -1 && error
    {
      if socket == [] {
        return false, -1;
      }
      match socket[0] {
        case Took(count) => error, n := false, if count < size then count else size;
        case WouldBlockNow => error, n := false, -1;
        case WriteFailed => error, n := true, -1;
      }
      socket := socket[1..];
    }

    /** A write event of the event loop. */
    method WriteEvent() returns (failed: bool)
      requires WriterOk()
      modifies this`queue, this`isSending, this`epollOut, this`socket, this`wire, this`failing, this`writeEvents
      ensures WriterOk() && writeEvents == old(writeEvents) + [|enqueued|]
      ensures Out() == old(Out()).Written()
      ensures failed == old(Out()).Send().1.Broken?
    {
      hide Pending, Flat, AllReady, QueueOk, Replayed, Outbox.Send;
      WrittenFlags(Out());
      ReplayedWrite(answers, enqueued, writeEvents);
      failed := HandleWriteEvent();
      writeEvents := writeEvents + [|enqueued|];
    }

    // ---- receiving from the peer -------------------------------------------------------------------

    /** The end of recv_content: the message joins the queue and is sent unless sending already waits. */
    method Enqueue(content: HttpContext)
      requires WriterOk()
      requires Ready(content) && content.phase == SendHeader && (side.isRequest ==> content.ResponseValid())
      modifies this`queue, this`isSending, this`epollOut, this`socket, this`wire, this`failing, this`enqueued
      ensures WriterOk() && enqueued == old(enqueued) + [content] && old(wire) <= wire
      ensures Out() == old(Out()).Pushed(content)
      ensures old(isSending) ==> isSending && wire == old(wire)
    {
      hide Pending, Flat, Replayed, Outbox.Send;
      PendingPush(queue, content);
      FlatSnoc(enqueued, content);
      Assoc(wire, Pending(queue), content.Bytes());
      ReplayedPush(answers, enqueued, writeEvents, content);
      queue := queue + [content];
      WrittenFlags(Out());
      enqueued := enqueued + [content];
      if !isSending {
        var failed := HandleWriteEvent();
      }
    }

    /** recv_content of the client side. */
    method ClientRecv(content: HttpContext)
      requires side.isRequest && WriterOk()
      requires content.isCompleted && content.phase == SendHeader && (content.ResponseValid() ==> content.header != "")
      modifies this`queue, this`isSending, this`epollOut, this`socket, this`wire, this`failing, this`enqueued
      ensures WriterOk() && enqueued == old(enqueued) + [Accepted(content)]
      ensures Out() == old(Out()).Pushed(Accepted(content))
      ensures old(isSending) ==> isSending && wire == old(wire)
    {
      hide Pending, Flat, AllReady, GenHttpHeader, ErrorPage, WithResponseHead, FifoOk, Replayed, Outbox.Pushed;
      AcceptedIsReady(content);
      var c := content;
      if !content.ResponseValid() {
        c := c.(content := ErrorPage(500));
        c := c.(header := GenHttpHeader(c.content, 500));
        c := WithResponseHead(c);
      }
      Enqueue(c);
    }

    /** recv_content of the backend side. */
    method BackendRecv(content: HttpContext)
      requires !side.isRequest && BothWritersOk() && Ready(content) && content.phase == SendHeader
      modifies this`queue, this`isSending, this`epollOut, this`socket, this`wire, this`failing, this`enqueued
      modifies Others()`queue, Others()`isSending, Others()`epollOut, Others()`socket
      modifies Others()`wire, Others()`failing, Others()`enqueued
      ensures BothWritersOk()
      ensures content.RequestValid() ==>
                && enqueued == old(enqueued) + [content] && rev.handler.enqueued == old(rev.handler.enqueued)
                && Out() == old(Out()).Pushed(content) && rev.handler.Out() == old(rev.handler.Out())
      ensures !content.RequestValid() ==>
                && enqueued == old(enqueued) && rev.handler.enqueued == old(rev.handler.enqueued) + [Refusal()]
                && Out() == old(Out()) && rev.handler.Out() == old(rev.handler.Out()).Pushed(Refusal())
      ensures content.RequestValid() <==>
                enqueued == old(enqueued) + [content]
                || Says400(rev.handler.enqueued[|old(rev.handler.enqueued)|..])
      ensures old(rev.handler.isSending) ==> rev.handler.isSending && rev.handler.wire == old(rev.handler.wire)
    {
      hide Pending, Flat, AllReady, QueueOk, Refusal, MakeError, WriterOk, FifoOk, Replayed, Outbox.Pushed;
      if !content.RequestValid() {
        MakeErrorIsBlank(400);
        rev.handler.ClientRecv(MakeError(400));
        ghost var sent := old(rev.handler.enqueued);
        NeverSays400(sent, rev.handler.enqueued);
      } else {
        Enqueue(content);
      }
    }

    /** rev_handler->recv_content. It returns unless the static file handler throws. While this end's own
        sending waits, what its peer answers only joins the queue. */
    method Deliver(content: HttpContext)
      requires BothWritersOk() && BothAccounts() && Ready(content) && content.phase == SendHeader && !thrown
      modifies this`queue, this`isSending, this`epollOut, this`socket, this`wire, this`failing, this`enqueued
      modifies this`delivered, this`state, this`thrown
      modifies Others()`queue, Others()`isSending, Others()`epollOut, Others()`socket
      modifies Others()`wire, Others()`failing, Others()`enqueued
      ensures BothWritersOk() && BothAccounts()
      ensures thrown == (rev.StaticFiles? && StaticThrows(content))
      ensures if thrown then state == Aborted && delivered == old(delivered)
              else state == old(state) && delivered == old(delivered) + [content]
      ensures old(isSending) ==> isSending && wire == old(wire)
    {
      hide Pending, Flat, AllReady, QueueOk, Accepted, Refusal, BadGateway, MakeError, WithResponseHead;
      hide StaticAnswer, Queued, Refused, AcceptedAll, Accounts, WriterOk, FifoOk, Replayed, Outbox.Pushed;
      if rev.StaticFiles? && StaticThrows(content) {
        state := Aborted;
        thrown := true;
        return;
      }
      ghost var before := delivered;
      delivered := delivered + [content];
      match rev {
        case Normal(h) =>
          if side.isRequest {
            ghost var answers, queued := enqueued, h.enqueued;
            h.BackendRecv(content);
            RequestAccounted(rev, before, answers, h.delivered, queued, content);
          } else {
            ghost var answers := h.enqueued;
            h.ClientRecv(content);
            ResponseAccounted(h.rev, h.delivered, answers, before, enqueued, content);
          }
        case FailedBackend =>
          ghost var answers := enqueued;
          MakeErrorStatus(502);
          BadGatewayIsAccepted();
          ClientRecv(BadGateway());
          FailureAccounted(before, answers, content);
        case StaticFiles =>
          ghost var answers := enqueued;
          var found := LookUp(content);
          StaticAnswerIsReady(content, found);
          ClientRecv(StaticAnswer(content, found));
          StaticAccounted(before, answers, content, found);
        case NoPeer =>
      }
    }

    /** What realpath, stat and reading the file come to. */
    method LookUp(request: HttpContext) returns (found: FileOutcome)
      ensures found.File? ==> |found.bytes| <= STRING_MAX
    {
      if * {
        found := Missing;
      } else if * {
        found := Unreadable;
      } else {
        var contentType, bytes: string := *, *;
        found := if |bytes| <= STRING_MAX then File(contentType, bytes) else Unreadable;
      }
    }

    // ---- parsing -----------------------------------------------------------------------------------

    /** log_access. */
    method LogAccess()
      modifies `tmpContext
      ensures tmpContext == WithHead(old(tmpContext), side.isRequest)
    {
      tmpContext := WithHead(tmpContext, side.isRequest);
    }

    /** The message is complete and goes to the peer. */
    method FinishMessage(next: ConnState)
      requires BothWritersOk() && BothAccounts() && tmpContext.header != "" && !thrown
      modifies `state, `tmpContext, `delivered, `thrown
      modifies `queue, `isSending, `epollOut, `socket, `wire, `failing, `enqueued
      modifies Others()`queue, Others()`isSending, Others()`epollOut, Others()`socket
      modifies Others()`wire, Others()`failing, Others()`enqueued
      ensures BothWritersOk() && BothAccounts()
      ensures thrown == (rev.StaticFiles? && StaticThrows(old(tmpContext).Complete()))
      ensures if thrown then state == Aborted && delivered == old(delivered)
              else ParseState() == old(ParseState()).Deliver(old(tmpContext), next, rawBuffer)
      ensures old(isSending) ==> isSending && wire == old(wire)
    {
      hide BothWritersOk, BothAccounts, StaticThrows;
      state := next;
      Deliver(tmpContext.Complete());
      if !thrown {
        tmpContext := FRESH;
      }
    }

    /** What follows a header without chunked coding: an error, a message without a body, a length that
        reserve throws at, or a body. */
    method BeginBody(contentLength: nat, rest: string)
      requires BothWritersOk() && BothAccounts() && state == ReadHeaders && tmpContext.header != "" && !thrown
      modifies `state, `rawBuffer, `tmpContext, `delivered, `rejected, `thrown
      modifies `queue, `isSending, `epollOut, `socket, `wire, `failing, `enqueued
      modifies Others()`queue, Others()`isSending, Others()`epollOut, Others()`socket
      modifies Others()`wire, Others()`failing, Others()`enqueued
      ensures BothWritersOk() && BothAccounts()
      ensures var p, c := old(ParseState()), WithHead(old(tmpContext).(remaining := contentLength), side.isRequest);
              if thrown then
                && state == Aborted && delivered == p.delivered && rev.StaticFiles?
                && contentLength == 0 && StaticThrows(c.Complete())
              else
                ParseState()
                  == if contentLength == ULONG_MAX
                     then p.(rawBuffer := rest, tmpContext := FRESH, rejected := p.rejected + 1)
                     else if contentLength == 0 then p.Deliver(c, ReadHeaders, rest)
                     else if contentLength > STRING_MAX then p.(state := Aborted, tmpContext := c)
                     else p.(state := ReadBody, rawBuffer := rest, tmpContext := c)
      ensures old(isSending) ==> isSending && wire == old(wire)
    {
      hide StaticThrows, BothWritersOk, BothAccounts, WithHead;
      ghost var others := Others();
      tmpContext := tmpContext.(remaining := contentLength);
      if contentLength == ULONG_MAX {
        rawBuffer := rest;
        tmpContext := FRESH;
        rejected := rejected + 1;
        return;
      }
      state := ReadBody;
      HeadKeepsHeader(tmpContext, side.isRequest);
      LogAccess();
      if contentLength == 0 {
        FinishMessage(ReadHeaders);
        if thrown {
          return;
        }
      } else if contentLength > STRING_MAX {
        state := Aborted;
        return;
      }
      rawBuffer := rest;
    }

    /** READ_HEADERS with a complete block in the buffer. */
    method ReadHeaderBlock(headerEnd: nat)
      requires BothWritersOk() && BothAccounts() && IsAddress(side.ip) && Valid(side, ParseState()) && !thrown
      requires state == ReadHeaders && FindBlank(rawBuffer) == headerEnd
      modifies `state, `rawBuffer, `tmpContext, `delivered, `rejected, `thrown
      modifies `queue, `isSending, `epollOut, `socket, `wire, `failing, `enqueued
      modifies Others()`queue, Others()`isSending, Others()`epollOut, Others()`socket
      modifies Others()`wire, Others()`failing, Others()`enqueued
      ensures BothWritersOk() && BothAccounts() && Valid(side, ParseState())
      ensures CanStep(old(ParseState())) && (!thrown ==> ParseState() == Step(side, old(ParseState())))
      ensures thrown ==> state == Aborted && rev.StaticFiles? && SomeThrows(Step(side, old(ParseState())).delivered)
      ensures old(isSending) ==> isSending && wire == old(wire)
    {
      hide Chunked, Length, Text.Split, FindBlank, WithHead, Processed, Valid, IsAddress, Step, CanStep;
      hide BlankAt, CrlfAt, BothWritersOk, BothAccounts, WriterOk, Linked, Accounts, AllReady, QueueOk, Pending, Flat;
      ghost var others, before := Others(), ParseState();
      HeaderStep(side, before, headerEnd);
      StepKeeps(side, before);
      var header, rest := rawBuffer[..headerEnd + 2], rawBuffer[headerEnd + 4..];
      var header', chunked, contentLength := ProcessHttpHeaders(header, side.ip, side.isRequest);
      tmpContext := FRESH.(header := header');
      if chunked {
        state := ReadChunkSize;
        LogAccess();
        rawBuffer := rest;
      } else {
        HeaderIsThere(side, before, headerEnd);
        WithHeadLeavesRemaining(tmpContext, contentLength, side.isRequest);
        ghost var message := WithHead(tmpContext, side.isRequest).(remaining := contentLength).Complete();
        BeginBody(contentLength, rest);
        if thrown {
          DeadIsValid(side, before, ParseState());
          LastThrows(before.delivered, message);
        }
      }
    }

    /** Moves up to `remaining` bytes from the buffer to the content. */
    method TakeBytes()
      modifies `rawBuffer, `tmpContext
      ensures tmpContext == Take(old(tmpContext), old(rawBuffer))
      ensures rawBuffer == old(rawBuffer)[Min(old(tmpContext).remaining, |old(rawBuffer)|)..]
    {
      var n := Min(tmpContext.remaining, |rawBuffer|);
      tmpContext := tmpContext.(content := tmpContext.content + rawBuffer[..n]);
      rawBuffer := rawBuffer[n..];
      tmpContext := tmpContext.(remaining := tmpContext.remaining - n);
    }

    /** READ_BODY. */
    method ReadBodyBytes()
      requires BothWritersOk() && BothAccounts() && IsAddress(side.ip) && Valid(side, ParseState()) && !thrown
      requires state == ReadBody && rawBuffer != ""
      modifies `state, `rawBuffer, `tmpContext, `delivered, `thrown
      modifies `queue, `isSending, `epollOut, `socket, `wire, `failing, `enqueued
      modifies Others()`queue, Others()`isSending, Others()`epollOut, Others()`socket
      modifies Others()`wire, Others()`failing, Others()`enqueued
      ensures BothWritersOk() && BothAccounts() && Valid(side, ParseState())
      ensures CanStep(old(ParseState())) && (!thrown ==> ParseState() == Step(side, old(ParseState())))
      ensures thrown ==> state == Aborted && rev.StaticFiles? && SomeThrows(Step(side, old(ParseState())).delivered)
      ensures old(isSending) ==> isSending && wire == old(wire)
    {
      hide Valid, IsAddress, BothWritersOk, BothAccounts, Take, CrlfAt, BlankAt, FindCrlf, FindBlank;
      ghost var before := ParseState();
      StepKeeps(side, before);
      TakeKeepsHeader(tmpContext, rawBuffer);
      BodyHasHeader(side, before);
      TakeBytes();
      if tmpContext.remaining == 0 {
        ghost var message := tmpContext.Complete();
        FinishMessage(ReadHeaders);
        if thrown {
          DeadIsValid(side, before, ParseState());
          LastThrows(before.delivered, message);
        }
      }
    }

    /** READ_CHUNK_SIZE with a complete line in the buffer. */
    method ReadChunkSizeLine(lineEnd: nat)
      requires BothWritersOk() && BothAccounts() && IsAddress(side.ip) && Valid(side, ParseState()) && !thrown
      requires state == ReadChunkSize && FindCrlf(rawBuffer) == lineEnd
      modifies `state, `rawBuffer, `tmpContext, `delivered, `thrown
      modifies `queue, `isSending, `epollOut, `socket, `wire, `failing, `enqueued
      modifies Others()`queue, Others()`isSending, Others()`epollOut, Others()`socket
      modifies Others()`wire, Others()`failing, Others()`enqueued
      ensures BothWritersOk() && BothAccounts() && Valid(side, ParseState())
      ensures CanStep(old(ParseState())) && (!thrown ==> ParseState() == Step(side, old(ParseState())))
      ensures thrown ==> state == Aborted && rev.StaticFiles? && SomeThrows(Step(side, old(ParseState())).delivered)
      ensures old(isSending) ==> isSending && wire == old(wire)
    {
      hide Valid, IsAddress, BothWritersOk, BothAccounts, Stoul, FindCrlf, FindBlank;
      ghost var before := ParseState();
      StepKeeps(side, before);
      BodyHasHeader(side, before);
      var chunkSize := Stoul(rawBuffer[..lineEnd], 16);
      if chunkSize == None {
        state := Aborted;
        return;
      }
      rawBuffer := rawBuffer[lineEnd + 2..];
      if chunkSize.value == 0 {
        ghost var message := tmpContext.Complete();
        FinishMessage(if side.repaired then ExpectLastCrlf else ReadHeaders);
        if thrown {
          DeadIsValid(side, before, ParseState());
          LastThrows(before.delivered, message);
        }
        return;
      }
      tmpContext := tmpContext.(remaining := chunkSize.value);
      state := ReadChunkData;
    }

    /** READ_CHUNK_DATA. As written, a CRLF is skipped only when it is there already. */
    method ReadChunkDataBytes()
      requires BothWritersOk() && BothAccounts() && IsAddress(side.ip) && Valid(side, ParseState())
      requires state == ReadChunkData && rawBuffer != ""
      modifies `state, `rawBuffer, `tmpContext
      ensures BothWritersOk() && BothAccounts() && Valid(side, ParseState())
      ensures CanStep(old(ParseState())) && ParseState() == Step(side, old(ParseState()))
    {
      hide Valid, IsAddress, BothWritersOk, BothAccounts, FindCrlf, FindBlank, Take;
      StepKeeps(side, ParseState());
      ghost var others := Others();
      TakeBytes();
      if tmpContext.remaining == 0 {
        if side.repaired {
          state := ExpectCrlf;
        } else {
          rawBuffer := SkipCrlf(rawBuffer);
          state := ReadChunkSize;
        }
      }
    }

    /** The awaited CRLF of the repaired parser. */
    method PassCrlf()
      requires BothWritersOk() && BothAccounts() && IsAddress(side.ip) && Valid(side, ParseState())
      requires (state == ExpectCrlf || state == ExpectLastCrlf) && |rawBuffer| >= 2
      modifies `state, `rawBuffer
      ensures BothWritersOk() && BothAccounts() && Valid(side, ParseState())
      ensures CanStep(old(ParseState())) && ParseState() == Step(side, old(ParseState()))
    {
      hide Valid, IsAddress, BothWritersOk, BothAccounts, FindCrlf, FindBlank;
      StepKeeps(side, ParseState());
      rawBuffer := SkipCrlf(rawBuffer);
      state := if state == ExpectCrlf then ReadChunkSize else ReadHeaders;
    }

    /** parse_chunked_content: until its message ends, the buffer is empty, or, with the result true,
        what there is does not suffice or was no chunk size. */
    method ParseChunkedContent() returns (stopped: bool)
      requires BothWritersOk() && BothAccounts() && IsAddress(side.ip) && Valid(side, ParseState())
      requires InChunks(state) && !thrown
      modifies `state, `rawBuffer, `tmpContext, `delivered, `thrown
      modifies `queue, `isSending, `epollOut, `socket, `wire, `failing, `enqueued
      modifies Others()`queue, Others()`isSending, Others()`epollOut, Others()`socket
      modifies Others()`wire, Others()`failing, Others()`enqueued
      ensures BothWritersOk() && BothAccounts() && Valid(side, ParseState())
      ensures !thrown ==> Run(side, ParseState()) == Run(side, old(ParseState()))
      ensures thrown ==> stopped && state == Aborted && rev.StaticFiles?
      ensures thrown ==> SomeThrows(Run(side, old(ParseState())).delivered)
      ensures stopped && !thrown ==> rawBuffer != "" && !CanStep(ParseState())
      ensures !stopped && rawBuffer != "" ==> Descends(old(ParseState()), ParseState())
      ensures old(isSending) ==> isSending && wire == old(wire)
    {
      hide Valid, IsAddress, BothWritersOk, BothAccounts, Run, Step, FindCrlf, FindBlank, CrlfAt;
      ghost var others := Others();
      while rawBuffer != ""
        invariant BothWritersOk() && BothAccounts() && Valid(side, ParseState()) && InChunks(state)
        invariant Run(side, ParseState()) == Run(side, old(ParseState()))
        invariant ParseState() == old(ParseState()) || Descends(old(ParseState()), ParseState())
        invariant !thrown && (old(isSending) ==> isSending && wire == old(wire))
        decreases |rawBuffer|, Rank(state)
      {
        ghost var before := ParseState();
        if state == ReadChunkSize {
          var lineEnd := FindCrlf(rawBuffer);
          if lineEnd == -1 {
            return true;
          }
          ReadChunkSizeLine(lineEnd);
          if thrown {
            RunStep(side, before);
            RunThrows(side, before);
            return true;
          }
        } else if state == ReadChunkData {
          ReadChunkDataBytes();
        } else {
          if |rawBuffer| < 2 {
            return true;
          }
          PassCrlf();
        }
        RunStep(side, before);
        StepDescends(side, before);
        if state == Aborted {
          AbortKeepsBuffer(side, before);
          return true;
        }
        if state == ReadHeaders {
          return false;
        }
      }
      return false;
    }

    /** parse_http_context. Where the outer loop as written turns for ever the state becomes Hung; the
        repaired loop leaves. */
    method ParseHttpContext()
      requires BothWritersOk() && BothAccounts() && IsAddress(side.ip) && Valid(side, ParseState()) && !thrown
      modifies `state, `rawBuffer, `tmpContext, `delivered, `rejected, `thrown
      modifies `queue, `isSending, `epollOut, `socket, `wire, `failing, `enqueued
      modifies Others()`queue, Others()`isSending, Others()`epollOut, Others()`socket
      modifies Others()`wire, Others()`failing, Others()`enqueued
      ensures BothWritersOk() && BothAccounts() && Valid(side, ParseState())
      ensures !thrown ==> ParseState() == Handle(side, old(ParseState()))
      ensures thrown ==> state == Aborted && rev.StaticFiles? && SomeThrows(Handle(side, old(ParseState())).delivered)
      ensures old(isSending) ==> isSending && wire == old(wire)
    {
      hide Valid, IsAddress, BothWritersOk, BothAccounts, Run, Step, FindCrlf, FindBlank, CrlfAt, BlankAt;
      var spins := false;
      ghost var others := Others();
      while rawBuffer != ""
        invariant BothWritersOk() && BothAccounts() && Valid(side, ParseState())
        invariant Run(side, ParseState()) == Run(side, old(ParseState()))
        invariant !spins && !thrown && (old(isSending) ==> isSending && wire == old(wire))
        decreases |rawBuffer|, Rank(state)
      {
        ghost var before := ParseState();
        if state == ReadHeaders {
          var headerEnd := FindBlank(rawBuffer);
          if headerEnd == -1 {
            break;
          }
          ReadHeaderBlock(headerEnd);
          if thrown {
            RunThrows(side, before);
            return;
          }
          RunStep(side, before);
          StepDescends(side, before);
        } else if state == ReadBody {
          ReadBodyBytes();
          if thrown {
            RunThrows(side, before);
            return;
          }
          RunStep(side, before);
          StepDescends(side, before);
        } else if InChunks(state) {
          var stopped := ParseChunkedContent();
          if thrown {
            return;
          }
          if stopped {
            spins := !side.repaired && state == ReadChunkSize;
            break;
          }
        } else {
          break;
        }
      }
      RunStops(side, ParseState());
      DeadIsValid(side, ParseState(), ParseState().(state := Hung));
      if spins {
        state := Hung;
      }
    }

    // ---- read events ---------------------------------------------------------------------------------

    /** The parser is where feeding it everything received, event by event, has led it, unless the static
        file handler has killed the process. */
    ghost predicate HistoryOk()
      reads `rev, `state, `rawBuffer, `tmpContext, `delivered, `rejected, `thrown, `pieces
    {
      if thrown then rev.StaticFiles? && state == Aborted else ParseState() == Feed(side, START, pieces)
    }

    /** read_raw_buff, on what the socket yields: some bytes at a time, then one of three ends. The
        result is true when the connection is to be closed. */
    method ReadRawBuff(arrivals: seq<string>, end: ReadEnd) returns (failed: bool)
      modifies `rawBuffer
      ensures rawBuffer == old(rawBuffer) + Concat(arrivals)
      ensures failed == (end != WouldBlock)
    {
      ghost var done := "";
      assert rawBuffer + "" == rawBuffer;
      for i := 0 to |arrivals|
        invariant rawBuffer == old(rawBuffer) + done
        invariant done + Concat(arrivals[i..]) == Concat(arrivals)
      {
        ConcatStep(arrivals, i, done);
        Assoc(old(rawBuffer), done, arrivals[i]);
        rawBuffer := rawBuffer + arrivals[i];
        done := done + arrivals[i];
      }
      assert done + "" == done;
      failed := end != WouldBlock;
    }

    /** handle_read_event after the handshake. Bytes that arrive together with the end of the
        connection are not parsed. A process that has aborted or hangs handles no further event. The static
        file handler throws exactly when some request that feeding the bytes delivers makes it. */
    method HandleReadEvent(arrivals: seq<string>, end: ReadEnd) returns (failed: bool)
      requires !Dead(state)
      requires BothWritersOk() && BothAccounts() && IsAddress(side.ip) && Valid(side, ParseState())
      requires HistoryOk()
      modifies `state, `rawBuffer, `tmpContext, `delivered, `rejected, `thrown, `pieces
      modifies `queue, `isSending, `epollOut, `socket, `wire, `failing, `enqueued
      modifies Others()`queue, Others()`isSending, Others()`epollOut, Others()`socket
      modifies Others()`wire, Others()`failing, Others()`enqueued
      ensures BothWritersOk() && BothAccounts() && Valid(side, ParseState())
      ensures failed == (end != WouldBlock)
      ensures failed ==> ParseState() == old(ParseState()).Append(Concat(arrivals)) && pieces == old(pieces)
      ensures !failed ==> HistoryOk() && pieces == old(pieces) + [Concat(arrivals)]
      ensures failed ==> !Dead(state)
      ensures !failed && rev.StaticFiles? ==>
                (thrown <==> SomeThrows(Handle(side, old(ParseState()).Append(Concat(arrivals))).delivered))
      ensures old(isSending) ==> isSending && wire == old(wire)
    {
      hide Valid, IsAddress, BothWritersOk, BothAccounts, Handle, Feed, Concat, CanStep;
      ghost var others, before := Others(), ParseState();
      failed := ReadRawBuff(arrivals, end);
      AppendKeeps(side, before, Concat(arrivals));
      if failed {
        return;
      }
      ParseHttpContext();
      if !thrown && rev.StaticFiles? {
        NothingThrown();
      }
      FeedSnoc(side, START, pieces, Concat(arrivals));
      pieces := pieces + [Concat(arrivals)];
    }

    /** No request that has been answered from files made the handler throw. */
    lemma NothingThrown()
      requires BothAccounts() && rev.StaticFiles?
      ensures !SomeThrows(delivered)
    {
      hide StaticThrows, StaticAnswer;
      forall i | 0 <= i < |delivered| ensures !StaticThrows(delivered[i]) {
        assert IsStaticAnswer(delivered[i], enqueued[i]);
      }
    }

    /** The account of the pair, from whichever end. */
    ghost predicate BothAccounts()
      reads `rev, `delivered, `enqueued, Others()`rev, Others()`delivered, Others()`enqueued
    {
      match rev
      case Normal(h) =>
        if side.isRequest then Accounts(rev, delivered, enqueued, h.delivered, h.enqueued)
        else Accounts(h.rev, h.delivered, h.enqueued, delivered, enqueued)
      case _ => Accounts(rev, delivered, enqueued, [], [])
    }
  }

  /** Every request is forwarded or refused. */
  lemma {:induction false} ForwardedOrRefused(requests: seq<HttpContext>)
    ensures |Queued(requests)| + |Refused(requests)| == |requests|
    ensures forall i :: 0 <= i < |Queued(requests)| ==> Queued(requests)[i].RequestValid()
    ensures forall i :: 0 <= i < |Refused(requests)| ==> Refused(requests)[i] == Refusal()
  {
    hide Refusal;
    if requests != [] {
      ForwardedOrRefused(requests[..|requests| - 1]);
    }
  }

  lemma {:induction false} AcceptedLength(responses: seq<HttpContext>)
    ensures |AcceptedAll(responses)| == |responses|
  {
    if responses != [] { AcceptedLength(responses[..|responses| - 1]); }
  }

  lemma NothingQueued()
    ensures Queued([]) == [] && Refused([]) == []
  {
  }

  /** When every request is valid all are queued and none is refused. */
  lemma {:induction false} AllAreQueued(requests: seq<HttpContext>)
    requires AllValid(requests)
    ensures Queued(requests) == requests && Refused(requests) == []
  {
    hide *;
    if requests == [] {
      NothingQueued();
    } else {
      var n := |requests| - 1;
      AllValidStep(requests, n);
      AllAreQueued(requests[..n]);
      assert requests == requests[..n] + [requests[n]];
      QueuedSnoc(requests[..n], requests[n]);
    }
  }

  /** Request accounting. In front of a live backend every request delivered so far has been forwarded
      or has had its one refusal, a 500, and every response of the backend has been queued for the
      client, in order; when no request was refused nothing else has. A failed backend and the static
      handler have answered every request once, with 502 or with one of their statuses. */
  lemma OneAnswerEach(peer: Peer, requests: seq<HttpContext>, answers: seq<HttpContext>,
                      responses: seq<HttpContext>, forwarded: seq<HttpContext>)
    requires Accounts(peer, requests, answers, responses, forwarded)
    ensures peer.Normal? ==> |forwarded| + |answers| == |requests| + |responses|
    ensures peer.Normal? ==> IsMerge(Refused(requests), AcceptedAll(responses), answers)
    ensures peer.Normal? && AllValid(requests) ==> forwarded == requests && answers == AcceptedAll(responses)
    ensures peer.FailedBackend? || peer.StaticFiles? ==> |answers| == |requests|
    ensures peer.FailedBackend? ==> forall i :: 0 <= i < |answers| ==> answers[i].statusCode == 502
    ensures peer.StaticFiles? ==>
              forall i :: 0 <= i < |answers| ==> answers[i].isCompleted && answers[i].statusCode in {200, 404, 405, 500}
    ensures peer.StaticFiles? ==>
              forall i :: 0 <= i < |answers| && requests[i].verb != "GET" ==> answers[i].statusCode == 405
  {
    hide Refusal, BadGateway, StaticAnswer, Refused, Queued, AcceptedAll, AllValid, IsMerge;
    ForwardedOrRefused(requests);
    AcceptedLength(responses);
    BadGatewayIsAccepted();
    if peer.Normal? {
      MergeLength(Refused(requests), AcceptedAll(responses), answers);
      if AllValid(requests) {
        AllAreQueued(requests);
        MergeAlone(AcceptedAll(responses), answers);
      }
    }
    if peer.StaticFiles? {
      forall i | 0 <= i < |answers|
        ensures answers[i].isCompleted && answers[i].statusCode in {200, 404, 405, 500}
        ensures requests[i].verb != "GET" ==> answers[i].statusCode == 405
      {
        assert IsStaticAnswer(requests[i], answers[i]);
        var found :| answers[i] == StaticAnswer(requests[i], found);
        StaticAnswerIsReady(requests[i], found);
      }
    }
  }

  // ---- history ------------------------------------------------------------------------------------------

  lemma ConcatStep(pieces: seq<string>, i: nat, done: string)
    requires i < |pieces|
    ensures done + Concat(pieces[i..]) == done + pieces[i] + Concat(pieces[i + 1..])
  {
    assert pieces[i..][1..] == pieces[i + 1..];
    Assoc(done, pieces[i], Concat(pieces[i + 1..]));
  }

  lemma {:induction false} FeedSnoc(side: Side, p: Parse, pieces: seq<string>, x: string)
    ensures Feed(side, p, pieces + [x]) == Handle(side, Feed(side, p, pieces).Append(x))
    decreases |pieces|
  {
    hide Handle;
    if pieces != [] {
      assert (pieces + [x])[1..] == pieces[1..] + [x];
      FeedSnoc(side, Handle(side, p.Append(pieces[0])), pieces[1..], x);
    } else {
      assert [] + [x] == [x] && [x][1..] == [];
    }
  }

  lemma DeadIsValid(side: Side, p: Parse, q: Parse)
    requires Valid(side, p) && Dead(q.state) && q.delivered == p.delivered
    ensures Valid(side, q)
  {
    hide Sound, Framed, Headed, Chunked, Length, Lines;
  }

  // ---- exceptions of the static file handler ------------------------------------------------------------

  lemma LastThrows(before: seq<HttpContext>, c: HttpContext)
    ensures StaticThrows(c) ==> SomeThrows(before + [c])
  {
    hide StaticThrows;
    assert (before + [c])[|before|] == c;
  }

  /** What has been thrown at is among the messages the whole run delivers. */
  lemma RunThrows(side: Side, p: Parse)
    requires CanStep(p) && SomeThrows(Step(side, p).delivered)
    ensures SomeThrows(Run(side, p).delivered)
  {
    hide Step, CanStep, StaticThrows;
    DeliveredGrows(side, Step(side, p));
    var a, b := Step(side, p).delivered, Run(side, p).delivered;
    var i :| 0 <= i < |a| && StaticThrows(a[i]);
    assert a <= b && b[i] == a[i];
  }

  // ---- steps -------------------------------------------------------------------------------------------

  /** Closer to the end of parsing. */
  predicate Descends(p: Parse, q: Parse) {
    |q.rawBuffer| < |p.rawBuffer| || (|q.rawBuffer| == |p.rawBuffer| && Rank(q.state) < Rank(p.state))
  }

  lemma StepDescends(side: Side, p: Parse)
    requires CanStep(p)
    ensures Descends(p, Step(side, p))
    ensures InChunks(p.state) ==>
              var q := Step(side, p).state; InChunks(q) || q == ReadHeaders || q == Aborted
  {
    hide FindCrlf, FindBlank, Stoul, HeaderRead, Chunked, Length, Text.Split;
  }

  /** An exception leaves the buffer alone and ends parsing. */
  lemma AbortKeepsBuffer(side: Side, p: Parse)
    requires CanStep(p) && Step(side, p).state == Aborted
    ensures Step(side, p).rawBuffer == p.rawBuffer != "" && !CanStep(Step(side, p))
  {
    hide FindCrlf, FindBlank, Stoul, HeaderRead, Chunked, Length, Text.Split;
  }

  /** The READ_HEADERS step, spelled out. */
  lemma HeaderStep(side: Side, p: Parse, e: nat)
    requires p.state == ReadHeaders && FindBlank(p.rawBuffer) == e
    ensures CanStep(p) && e + 4 <= |p.rawBuffer|
    ensures var header, rest := p.rawBuffer[..e + 2], p.rawBuffer[e + 4..];
            var lines := Split(header);
            var c := WithHead(FRESH.(header := Processed(header, side.ip, side.isRequest)), side.isRequest);
            Step(side, p)
              == if Chunked(lines) then p.(state := ReadChunkSize, rawBuffer := rest, tmpContext := c)
                 else if Length(lines) == ULONG_MAX
                 then p.(rawBuffer := rest, tmpContext := FRESH, rejected := p.rejected + 1)
                 else if Length(lines) == 0
                 then Parse(ReadHeaders, rest, FRESH, p.delivered + [c.Complete()], p.rejected)
                 else if Length(lines) > STRING_MAX
                 then p.(state := Aborted, tmpContext := c.(remaining := Length(lines)))
                 else p.(state := ReadBody, rawBuffer := rest, tmpContext := c.(remaining := Length(lines)))
  {
    hide Chunked, Length, Text.Split, FindBlank, WithHead, Processed, Step, CanStep;
    StepIsHeaders(side, p);
  }

  lemma HeadKeepsHeader(c: HttpContext, isRequest: bool)
    ensures WithHead(c, isRequest).header == c.header
  {
    hide Stoi, StatusText;
  }

  /** The rewritten header is not empty. */
  lemma HeaderIsThere(side: Side, p: Parse, e: nat)
    requires p.state == ReadHeaders && FindBlank(p.rawBuffer) == e && IsAddress(side.ip)
    ensures e + 2 <= |p.rawBuffer| && Processed(p.rawBuffer[..e + 2], side.ip, side.isRequest) != ""
  {
    HeaderReadIsFramed(side, p.rawBuffer);
    HeaderReadFields(side, p.rawBuffer[..e + 2]);
    hide HeaderRead, Processed, Lines, Join, Headed, Chunked, Length, Block, IsAddress, FindBlank, Text.Split;
  }

  lemma WithHeadLeavesRemaining(c: HttpContext, n: nat, isRequest: bool)
    ensures WithHead(c.(remaining := n), isRequest) == WithHead(c, isRequest).(remaining := n)
  {
    hide Stoi, StatusText;
  }

  lemma TakeKeepsHeader(c: HttpContext, buf: string)
    ensures Take(c, buf).header == c.header
  {
  }

  /** A message in progress has its header. */
  lemma BodyHasHeader(side: Side, p: Parse)
    requires Valid(side, p) && (p.state == ReadBody || InChunks(p.state)) && p.state != ExpectLastCrlf
    ensures p.tmpContext.header != ""
  {
    hide Lines, Join, Block, Chunked, Headed, Length;
  }

  // ---- accounting ------------------------------------------------------------------------------------

  lemma RequestAccounted(peer: Peer, requests: seq<HttpContext>, answers: seq<HttpContext>,
                         responses: seq<HttpContext>, forwarded: seq<HttpContext>, c: HttpContext)
    requires peer.Normal? && Accounts(peer, requests, answers, responses, forwarded)
    ensures c.RequestValid() ==> Accounts(peer, requests + [c], answers, responses, forwarded + [c])
    ensures !c.RequestValid() ==> Accounts(peer, requests + [c], answers + [Refusal()], responses, forwarded)
  {
    hide AcceptedAll, Refusal, Queued, Refused, IsMerge;
    QueuedSnoc(requests, c);
    MergeSnoc(Refused(requests), AcceptedAll(responses), answers, Refusal());
  }

  lemma QueuedSnoc(requests: seq<HttpContext>, c: HttpContext)
    ensures Queued(requests + [c]) == if c.RequestValid() then Queued(requests) + [c] else Queued(requests)
    ensures Refused(requests + [c]) == if c.RequestValid() then Refused(requests) else Refused(requests) + [Refusal()]
  {
    hide Refusal;
    assert (requests + [c])[..|requests|] == requests;
    assert Queued(requests) + [] == Queued(requests) && Refused(requests) + [] == Refused(requests);
  }

  lemma ResponseAccounted(peer: Peer, requests: seq<HttpContext>, answers: seq<HttpContext>,
                          responses: seq<HttpContext>, forwarded: seq<HttpContext>, c: HttpContext)
    requires peer.Normal? && Accounts(peer, requests, answers, responses, forwarded)
    ensures Accounts(peer, requests, answers + [Accepted(c)], responses + [c], forwarded)
  {
    hide Accepted, Refused, Queued, IsMerge;
    assert (responses + [c])[..|responses|] == responses;
    MergeSnoc(Refused(requests), AcceptedAll(responses), answers, Accepted(c));
  }

  lemma FailureAccounted(requests: seq<HttpContext>, answers: seq<HttpContext>, c: HttpContext)
    requires Accounts(FailedBackend, requests, answers, [], [])
    ensures Accounts(FailedBackend, requests + [c], answers + [BadGateway()], [], [])
  {
    hide BadGateway;
  }

  lemma StaticAccounted(requests: seq<HttpContext>, answers: seq<HttpContext>, c: HttpContext, found: FileOutcome)
    requires Accounts(StaticFiles, requests, answers, [], []) && !StaticThrows(c)
    ensures Accounts(StaticFiles, requests + [c], answers + [StaticAnswer(c, found)], [], [])
  {
    hide StaticAnswer, IsStaticAnswer, StaticThrows;
    OneStaticAnswer(c, found);
  }

  lemma OneStaticAnswer(c: HttpContext, found: FileOutcome)
    requires !StaticThrows(c)
    ensures IsStaticAnswer(c, StaticAnswer(c, found))
  {
    hide StaticAnswer;
  }

  lemma BadGatewayIsAccepted()
    ensures Accepted(BadGateway()) == BadGateway() && BadGateway().statusCode == 502
    ensures Ready(BadGateway()) && BadGateway().phase == SendHeader
  {
    MakeErrorStatus(502);
    hide WithResponseHead, MakeError;
  }

  // ---- the proxy's answers on the wire ---------------------------------------------------------------

  lemma PrintIntNotNul(i: int)
    ensures NoNul(PrintInt(i))
  {
    var d := Print(if i < 0 then -i else i, 10);
    forall k | 0 <= k < |d| ensures d[k] != '\0' {
      assert DigitValue(d[k], 10) >= 0;
    }
    hide Print;
  }

  ghost predicate NoNul(s: string) {
    '\0' !in s
  }

  lemma NoNulConcat(a: string, b: string)
    requires NoNul(a) && NoNul(b)
    ensures NoNul(a + b)
  {
  }

  /** The error page has no NUL, and says its code. */
  lemma ErrorPageText(code: int)
    ensures NoNul(ErrorPage(code)) && PrintInt(code) + " " + StatusMessage(code) <= ErrorPage(code)
  {
    var a, b, c := PrintInt(code), StatusMessage(code), PAGE_END;
    ErrorPageLosesItsOpening(code);
    PrintIntNotNul(code);
    MessageNotNul(code);
    PageEnd();
    assert NoNul(" ");
    hide PrintInt, StatusMessage, ErrorPage, NoNul;
    NoNulConcat(a, " ");
    NoNulConcat(a + " ", b);
    NoNulConcat(a + " " + b, c);
  }

  lemma PageEnd()
    ensures NoNul(PAGE_END)
  {
    var a, b, c, d, e := "</title></head>", "<body><center>", "pkuyo-proxy", "</center>", "</body></html>";
    assert NoNul(a) && NoNul(b) && NoNul(c) && NoNul(d) && NoNul(e);
    hide NoNul;
    NoNulConcat(a, b);
    NoNulConcat(a + b, c);
    NoNulConcat(a + b + c, d);
    NoNulConcat(a + b + c + d, e);
  }

  lemma MessageNotNul(code: int)
    ensures NoNul(StatusMessage(code))
  {
  }

  /** Every error the proxy makes is read by the next parser, in any fragments, as one message with that
      code and the whole page. */
  lemma ErrorIsReadBack(side: Side, code: int, pieces: seq<string>)
    requires !side.isRequest && IsAddress(side.ip)
    requires INT_MIN <= code <= INT_MAX && |ErrorPage(code)| <= STRING_MAX
    requires Concat(pieces) == WithResponseHead(MakeError(code)).Bytes()
    ensures var q := Feed(side, START, pieces);
            && q.state == ReadHeaders && q.rawBuffer == "" && q.rejected == 0 && |q.delivered| == 1
            && q.delivered[0].statusCode == code && q.delivered[0].content == ErrorPage(code)
  {
    ErrorPageText(code);
    StatusKeepsBytes(MakeError(code));
    MakeErrorBytes(code);
    hide ErrorPage, GenHttpHeader, Feed, Concat, MakeError, WithResponseHead;
    GenHttpHeaderReadBack(side, code, ErrorPage(code), pieces);
  }

  lemma StatusKeepsBytes(c: HttpContext)
    ensures WithResponseHead(c).Bytes() == c.Bytes()
    ensures WithResponseHead(c).content == c.content && WithResponseHead(c).header == c.header
  {
    hide Stoi, StatusText;
  }

  lemma MakeErrorBytes(code: int)
    ensures MakeError(code).Bytes() == GenHttpHeader(ErrorPage(code), code) + ErrorPage(code)
    ensures MakeError(code).content == ErrorPage(code)
  {
    hide ErrorPage, GenHttpHeader;
  }

  /** So the failed backend's answer is the page of 502. */
  lemma BadGatewayIsReadBack(side: Side, pieces: seq<string>)
    requires !side.isRequest && IsAddress(side.ip) && |ErrorPage(502)| <= STRING_MAX
    requires Concat(pieces) == BadGateway().Bytes()
    ensures var q := Feed(side, START, pieces);
            && q.state == ReadHeaders && q.rawBuffer == "" && q.rejected == 0 && |q.delivered| == 1
            && q.delivered[0].statusCode == 502 && q.delivered[0].content == ErrorPage(502)
  {
    hide ErrorPage, MakeError, WithResponseHead, Feed, Concat;
    ErrorIsReadBack(side, 502, pieces);
  }

  /** A file is sent as it is: the next parser reads, in any fragments, one message with the code 200 and
      the bytes of the file. */
  lemma StaticFileIsReadBack(request: HttpContext, contentType: string, bytes: string,
                             side: Side, pieces: seq<string>)
    requires request.verb == "GET" && Clean(contentType) && |bytes| <= STRING_MAX
    requires !side.isRequest && IsAddress(side.ip)
    requires Concat(pieces) == StaticAnswer(request, File(contentType, bytes)).Bytes()
    ensures StaticAnswer(request, File(contentType, bytes)).content == bytes
    ensures var q := Feed(side, START, pieces);
            && q.state == ReadHeaders && q.rawBuffer == "" && q.rejected == 0 && |q.delivered| == 1
            && q.delivered[0].statusCode == 200 && q.delivered[0].content == bytes
            && q.delivered[0].header == StaticAnswer(request, File(contentType, bytes)).header
  {
    var d := MakeResponse(200, contentType, bytes, |bytes|);
    StatusKeepsBytes(d);
    StaticFileAnswer(request, contentType, bytes);
    hide Feed, Concat, StaticAnswer, WithResponseHead, GeneratedLines, Join, Clean;
    GeneratedIsReadBack(side, 200, contentType, bytes, pieces);
  }

  lemma StaticFileAnswer(request: HttpContext, contentType: string, bytes: string)
    requires request.verb == "GET"
    ensures StaticAnswer(request, File(contentType, bytes))
              == WithResponseHead(MakeResponse(200, contentType, bytes, |bytes|))
  {
    hide WithResponseHead, GeneratedLines, Join;
  }

  /** Every answer of the static file handler is complete and has its status. */
  lemma StaticAnswerIsReady(request: HttpContext, found: FileOutcome)
    ensures var a := StaticAnswer(request, found);
            && Ready(a) && a.phase == SendHeader && Accepted(a) == a
            && a.statusCode in {200, 404, 405, 500}
            && (a.statusCode == 200 <==> request.verb == "GET" && found.File?)
            && (request.verb != "GET" ==> a.statusCode == 405)
  {
    MakeErrorStatus(405);
    MakeErrorStatus(404);
    MakeErrorStatus(500);
    if request.verb == "GET" && found.File? {
      GeneratedStatus(200, found.contentType, |found.bytes|);
      StatusFromHeader(MakeResponse(200, found.contentType, found.bytes, |found.bytes|));
    }
    hide MakeError, WithResponseHead, GeneratedLines, Join;
  }

  /** The status and the body of every outcome: the page of its code, or the file. */
  lemma StaticAnswerIsExact(request: HttpContext, found: FileOutcome)
    ensures var a := StaticAnswer(request, found);
            if request.verb != "GET" then a.statusCode == 405 && a.content == ErrorPage(405)
            else match found
                 case Missing => a.statusCode == 404 && a.content == ErrorPage(404)
                 case Unreadable => a.statusCode == 500 && a.content == ErrorPage(500)
                 case File(_, bytes) => a.statusCode == 200 && a.content == bytes
  {
    StaticAnswerIsReady(request, found);
    StaticErrorAnswer(request, found);
    hide StaticAnswer, MakeError, WithResponseHead, ErrorPage, MakeResponse, GeneratedLines, Join;
    if request.verb == "GET" && found.File? {
      StaticFileAnswer(request, found.contentType, found.bytes);
      StatusKeepsBytes(MakeResponse(200, found.contentType, found.bytes, |found.bytes|));
      ResponseContent(200, found.contentType, found.bytes);
    } else {
      var code := if request.verb != "GET" then 405 else if found.Missing? then 404 else 500;
      StatusKeepsBytes(MakeError(code));
      MakeErrorBytes(code);
      MakeErrorStatus(code);
    }
  }

  lemma StaticErrorAnswer(request: HttpContext, found: FileOutcome)
    ensures request.verb != "GET" ==> StaticAnswer(request, found) == WithResponseHead(MakeError(405))
    ensures request.verb == "GET" && found.Missing? ==>
              StaticAnswer(request, found) == WithResponseHead(MakeError(404))
    ensures request.verb == "GET" && found.Unreadable? ==>
              StaticAnswer(request, found) == WithResponseHead(MakeError(500))
  {
    hide WithResponseHead, MakeError;
  }

  lemma ResponseContent(code: int, contentType: string, bytes: string)
    ensures MakeResponse(code, contentType, bytes, |bytes|).content == bytes
  {
    hide GeneratedLines, Join;
  }
}
