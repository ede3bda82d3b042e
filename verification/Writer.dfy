/** The outgoing queue of a connection as a byte FIFO (handle_write_event, recv_content). */
module Writer {
  import opened Text
  import opened Messages
  import opened Relay

  // ---- what is still to be sent ---------------------------------------------------------------

  /** In the content phase the header field is the send buffer and holds what is left of the content. */
  function Unsent(c: HttpContext): string {
    if c.phase == SendHeader then c.header + c.content else c.header
  }

  function Pending(queue: seq<HttpContext>): string {
    if queue == [] then "" else Unsent(queue[0]) + Flat(queue[1..])
  }

  predicate Ready(c: HttpContext) {
    c.isCompleted && c.header != ""
  }

  /** Complete messages with something in the send buffer; only the first may have been begun. */
  predicate QueueOk(queue: seq<HttpContext>) {
    && (forall i :: 0 <= i < |queue| ==> Ready(queue[i]))
    && (forall i :: 1 <= i < |queue| ==> queue[i].phase == SendHeader)
  }

  lemma {:induction false} FlatCons(d: HttpContext, ds: seq<HttpContext>)
    ensures Flat([d] + ds) == d.Bytes() + Flat(ds)
  {
    hide *;
    if ds == [] {
      FlatEmpty();
      FlatSnoc([], d);
      assert [d] + ds == [] + [d];
      assert "" + d.Bytes() == d.Bytes() + "";
    } else {
      var init, last := ds[..|ds| - 1], ds[|ds| - 1];
      assert ds == init + [last];
      Assoc([d], init, [last]);
      FlatSnoc(init, last);
      FlatSnoc([d] + init, last);
      FlatCons(d, init);
      Assoc(d.Bytes(), Flat(init), last.Bytes());
    }
  }

  /** Queueing a fresh message adds its bytes at the end. */
  lemma PendingPush(queue: seq<HttpContext>, c: HttpContext)
    requires c.phase == SendHeader
    ensures Pending(queue + [c]) == Pending(queue) + c.Bytes()
  {
    hide Flat;
    if queue == [] {
      assert queue + [c] == [c] && [c][1..] == [];
      assert Flat([]) == "" by { FlatEmpty(); }
      assert c.Bytes() + "" == c.Bytes() && "" + c.Bytes() == c.Bytes();
    } else {
      assert (queue + [c])[1..] == queue[1..] + [c];
      FlatSnoc(queue[1..], c);
      Assoc(Unsent(queue[0]), Flat(queue[1..]), c.Bytes());
    }
  }

  lemma FlatEmpty()
    ensures Flat([]) == ""
  {
  }

  /** The queue after the socket took `n` bytes of the send buffer. Repair: the content is moved to
      the send buffer once, when the header is done. */
  function Sent(queue: seq<HttpContext>, n: nat): seq<HttpContext>
    requires queue != [] && n <= |queue[0].header|
  {
    var c := queue[0];
    if n != |c.header| then [c.(header := c.header[n..])] + queue[1..]
    else if c.phase == SendContent || c.content == "" then queue[1..]
    else [c.(phase := SendContent, header := c.content)] + queue[1..]
  }

  lemma PendingCons(c: HttpContext, rest: seq<HttpContext>)
    ensures Pending([c] + rest) == Unsent(c) + Flat(rest)
  {
    assert ([c] + rest)[1..] == rest;
  }

  /** Part of the send buffer was taken. */
  lemma SentPart(c: HttpContext, rest: seq<HttpContext>, n: nat)
    requires n <= |c.header|
    ensures Pending([c] + rest) == c.header[..n] + Pending([c.(header := c.header[n..])] + rest)
  {
    var a, b := c.header[..n], c.header[n..];
    var d := c.(header := b);
    PendingCons(c, rest);
    PendingCons(d, rest);
    assert c.header == a + b;
    Assoc(a, b, c.content);
    assert Unsent(c) == a + Unsent(d);
    hide Flat, Unsent;
    Assoc(a, Unsent(d), Flat(rest));
  }

  /** The whole send buffer was taken, and there is content to load. */
  lemma SentHeader(c: HttpContext, rest: seq<HttpContext>)
    requires c.phase == SendHeader
    ensures Pending([c] + rest) == c.header + Pending([c.(phase := SendContent, header := c.content)] + rest)
  {
    PendingCons(c, rest);
    PendingCons(c.(phase := SendContent, header := c.content), rest);
    hide Flat;
    Assoc(c.header, c.content, Flat(rest));
  }

  /** The last of a message was taken. */
  lemma SentMessage(c: HttpContext, rest: seq<HttpContext>)
    requires c.phase == SendContent || c.content == ""
    requires forall i :: 0 <= i < |rest| ==> rest[i].phase == SendHeader
    ensures Pending([c] + rest) == c.header + Pending(rest)
  {
    PendingCons(c, rest);
    PendingFresh(rest);
    hide Flat;
    assert c.header + "" == c.header;
  }

  /** What goes on the wire is exactly what is no longer pending. */
  lemma SentKeeps(queue: seq<HttpContext>, n: nat)
    requires queue != [] && QueueOk(queue) && 0 < n <= |queue[0].header|
    ensures Pending(queue) == queue[0].header[..n] + Pending(Sent(queue, n))
    ensures QueueOk(Sent(queue, n))
  {
    hide Pending;
    var c, rest := queue[0], queue[1..];
    assert queue == [c] + rest;
    if n != |c.header| {
      SentPart(c, rest, n);
    } else {
      assert c.header[..n] == c.header;
      if c.phase == SendContent || c.content == "" {
        SentMessage(c, rest);
      } else {
        SentHeader(c, rest);
      }
    }
  }

  lemma PendingFresh(queue: seq<HttpContext>)
    requires forall i :: 0 <= i < |queue| ==> queue[i].phase == SendHeader
    ensures Pending(queue) == Flat(queue)
  {
    hide Pending, Flat;
    if queue == [] {
      NothingPending();
    } else {
      var c, rest := queue[0], queue[1..];
      assert queue == [c] + rest;
      FlatCons(c, rest);
      PendingCons(c, rest);
    }
  }

  lemma NothingPending()
    ensures Pending([]) == Flat([]) == ""
  {
  }

  // ---- the queue and the socket -----------------------------------------------------------------------

  /** What the socket answers to a write: it takes up to so many bytes, would block, or fails. Taking none is
      a failure too. */
  datatype Answer = Took(count: nat) | WouldBlockNow | WriteFailed

  /** How a series of writes ends: with an empty queue, with a socket that would block, or with a failure. */
  datatype Ending = Drained | Blocked | Broken

  /** The sending side of a connection: the queue, whether sending waits for EPOLLOUT, the answers the
      socket will give, in order, what it has taken so far, and whether the last attempt failed. A socket
      without further answers would block. */
  datatype Outbox = Outbox(
    queue: seq<HttpContext>,
    isSending: bool,
    socket: seq<Answer>,
    wire: string,
    failing: bool
  ) {
    /** The bytes taken of a send buffer that was offered. */
    function Moved(): nat
      requires queue != [] && socket != []
      ensures Moved() <= |queue[0].header|
    {
      match socket[0]
      case Took(n) => if n < |queue[0].header| then n else |queue[0].header|
      case _ => 0
    }

    /** After one write that took something. */
    function AfterOne(): Outbox
      requires queue != [] && socket != []
    {
      this.(queue := Sent(queue, Moved()), socket := socket[1..], wire := wire + queue[0].header[..Moved()])
    }

    /** The writes of one handle_write_event, and how they end. */
    function Send(): (Outbox, Ending)
      decreases |socket|
    {
      if queue == [] || !queue[0].isCompleted then (this, Drained)
      else if socket == [] then (this, Blocked)
      else if socket[0].WouldBlockNow? then (this.(socket := socket[1..]), Blocked)
      else if Moved() == 0 then (this.(socket := socket[1..]), Broken)
      else AfterOne().Send()
    }

    /** After handle_write_event: sending waits exactly for a socket that would block; a failure leaves that
        as it was. */
    function Written(): Outbox {
      var (o, end) := Send();
      match end
      case Drained => o.(isSending := false, failing := false)
      case Blocked => o.(isSending := true, failing := false)
      case Broken => o.(failing := true)
    }

    /** After the end of recv_content. */
    function Pushed(c: HttpContext): Outbox {
      var o := this.(queue := queue + [c]);
      if isSending then o else o.Written()
    }
  }

  /** A connection's outbox after these messages were queued and after these write events, each given by the
      number of messages queued before it. */
  function Replayed(socket: seq<Answer>, enqueued: seq<HttpContext>, events: seq<nat>): Outbox
    decreases |enqueued| + |events|
  {
    var e, w := |enqueued| - 1, |events| - 1;
    if w >= 0 && events[w] > e then Replayed(socket, enqueued, events[..w]).Written()
    else if e >= 0 then Replayed(socket, enqueued[..e], events).Pushed(enqueued[e])
    else Outbox([], false, socket, "", false)
  }

  lemma ReplayedPush(socket: seq<Answer>, enqueued: seq<HttpContext>, events: seq<nat>, c: HttpContext)
    requires forall i :: 0 <= i < |events| ==> events[i] <= |enqueued|
    ensures Replayed(socket, enqueued + [c], events) == Replayed(socket, enqueued, events).Pushed(c)
  {
    assert (enqueued + [c])[..|enqueued|] == enqueued;
  }

  lemma ReplayedWrite(socket: seq<Answer>, enqueued: seq<HttpContext>, events: seq<nat>)
    ensures Replayed(socket, enqueued, events + [|enqueued|]) == Replayed(socket, enqueued, events).Written()
  {
    assert (events + [|enqueued|])[..|events|] == events;
  }

  /** What any writes keep: the bytes taken and those pending are what was pending. They end with an empty
      queue exactly when nothing is pending. */
  lemma {:induction false} SendKeeps(o: Outbox)
    requires QueueOk(o.queue)
    ensures var (q, end) := o.Send();
            && QueueOk(q.queue) && o.wire <= q.wire && q.wire + Pending(q.queue) == o.wire + Pending(o.queue)
            && (end == Drained <==> q.queue == [])
            && q.isSending == o.isSending && q.failing == o.failing
    decreases |o.socket|
  {
    hide Pending, Flat;
    if o.queue != [] && o.socket != [] && !o.socket[0].WouldBlockNow? && o.Moved() != 0 {
      SentKeeps(o.queue, o.Moved());
      Assoc(o.wire, o.queue[0].header[..o.Moved()], Pending(Sent(o.queue, o.Moved())));
      SendKeeps(o.AfterOne());
    }
  }

  /** Afterwards sending waits exactly with output left, unless a write failed. */
  lemma WrittenFlags(o: Outbox)
    requires QueueOk(o.queue)
    ensures var w := o.Written();
            && (w.failing <==> o.Send().1 == Broken)
            && (!w.failing ==> (w.isSending <==> w.queue != []))
            && (w.failing ==> w.queue != [] && w.isSending == o.isSending)
  {
    SendKeeps(o);
  }

  lemma SentIs(queue: seq<HttpContext>, n: nat)
    requires queue != [] && n <= |queue[0].header|
    ensures Sent(queue, n)
              == if n != |queue[0].header| then [queue[0].(header := queue[0].header[n..])] + queue[1..]
                 else if queue[0].phase == SendContent || queue[0].content == "" then queue[1..]
                 else [queue[0].(phase := SendContent, header := queue[0].content)] + queue[1..]
  {
  }

  /** The answer lets the writes go on. */
  predicate Moves(a: Answer) {
    a.Took? && a.count > 0
  }

  /** One turn of the loop. */
  lemma SendTurn(o: Outbox)
    requires QueueOk(o.queue)
    ensures o.queue == [] ==> o.Send() == (o, Drained)
    ensures o.queue != [] && o.socket == [] ==> o.Send() == (o, Blocked)
    ensures o.queue != [] && o.socket != [] && !Moves(o.socket[0]) ==>
              o.Send() == (o.(socket := o.socket[1..]), if o.socket[0].WouldBlockNow? then Blocked else Broken)
    ensures o.queue != [] && o.socket != [] && Moves(o.socket[0]) ==>
              && o.Send() == o.AfterOne().Send() && QueueOk(o.AfterOne().queue)
              && o.AfterOne().socket == o.socket[1..]
              && |o.wire| < |o.AfterOne().wire| <= |o.wire| + o.socket[0].count
  {
    FirstIsReady(o.queue);
    if o.queue != [] && o.socket != [] && Moves(o.socket[0]) {
      SentKeeps(o.queue, o.Moved());
    }
    hide QueueOk, Sent, Pending;
  }

  /** How the writes go: each answer is used once, in order; all of them up to the last move bytes; the last
      one decides the ending when it does not, or there is none left, or nothing left to send. */
  lemma {:induction false} SendEnds(o: Outbox) returns (used: nat)
    requires QueueOk(o.queue)
    ensures used <= |o.socket| && EndsAfter(o, used)
    decreases |o.socket|
  {
    hide QueueOk, Sent, Pending, Outbox.Send, Outbox.AfterOne;
    SendTurn(o);
    if o.queue == [] || o.socket == [] {
      used := 0;
      assert o.socket[0..] == o.socket;
    } else if !Moves(o.socket[0]) {
      used := 1;
    } else {
      var a := o.AfterOne();
      var k := SendEnds(a);
      used := k + 1;
      TailOfTail(o.socket, 1, k);
      assert forall i :: 0 <= i < k ==> a.socket[i] == o.socket[i + 1];
      assert forall i :: 1 <= i < used ==> o.socket[i] == a.socket[i - 1];
    }
  }

  /** So many answers were used. */
  predicate EndsAfter(o: Outbox, used: nat)
    requires used <= |o.socket|
  {
    var (q, end) := o.Send();
    && q.socket == o.socket[used..]
    && (forall i :: 0 <= i < used - 1 ==> Moves(o.socket[i]))
    && match end
       case Drained => used > 0 ==> Moves(o.socket[used - 1])
       case Blocked => if used > 0 && !Moves(o.socket[used - 1]) then o.socket[used - 1].WouldBlockNow?
                       else used == |o.socket|
       case Broken => used > 0 && !Moves(o.socket[used - 1]) && !o.socket[used - 1].WouldBlockNow?
  }

  lemma FirstIsReady(queue: seq<HttpContext>)
    requires QueueOk(queue)
    ensures queue != [] ==> queue[0].isCompleted && queue[0].header != ""
  {
  }

  /** The lengths of the send buffers to come: what is left of the first, then header and content of the
      others; a message without content has one. */
  function Buffers(queue: seq<HttpContext>): seq<nat> {
    if queue == [] then []
    else
      [|queue[0].header|]
      + (if queue[0].phase == SendContent || queue[0].content == "" then [] else [|queue[0].content|])
      + Buffers(queue[1..])
  }

  /** How many bytes of such buffers these answers take up: each up to its count, out of one buffer, until one
      takes nothing. */
  function Taken(buffers: seq<nat>, answers: seq<Answer>): nat
    decreases |answers|
  {
    if buffers == [] || answers == [] || !Moves(answers[0]) then 0
    else if answers[0].count < buffers[0]
    then answers[0].count + Taken([buffers[0] - answers[0].count] + buffers[1..], answers[1..])
    else buffers[0] + Taken(buffers[1..], answers[1..])
  }

  /** The buffers behind the first. */
  function MoreBuffers(queue: seq<HttpContext>): seq<nat>
    requires queue != []
  {
    (if queue[0].phase == SendContent || queue[0].content == "" then [] else [|queue[0].content|])
    + Buffers(queue[1..])
  }

  lemma BuffersFirst(queue: seq<HttpContext>)
    requires queue != []
    ensures Buffers(queue) == [|queue[0].header|] + MoreBuffers(queue)
  {
    var more := if queue[0].phase == SendContent || queue[0].content == "" then [] else [|queue[0].content|];
    Assoc([|queue[0].header|], more, Buffers(queue[1..]));
  }

  /** A write leaves the rest of the first buffer, or the others. */
  lemma BuffersSent(queue: seq<HttpContext>, n: nat)
    requires queue != [] && n <= |queue[0].header|
    ensures Buffers(Sent(queue, n))
              == if n != |queue[0].header| then [|queue[0].header| - n] + MoreBuffers(queue) else MoreBuffers(queue)
  {
    SentIs(queue, n);
    var q := Sent(queue, n);
    hide Sent, Buffers;
    if n != |queue[0].header| || (queue[0].phase != SendContent && queue[0].content != "") {
      assert q[1..] == queue[1..];
      BuffersFirst(q);
    } else {
      assert q == queue[1..] && MoreBuffers(queue) == Buffers(queue[1..]);
    }
  }

  lemma TakenStep(first: nat, more: seq<nat>, answers: seq<Answer>)
    requires answers != [] && Moves(answers[0])
    ensures var n := if answers[0].count < first then answers[0].count else first;
            Taken([first] + more, answers)
              == n + Taken(if n != first then [first - n] + more else more, answers[1..])
  {
  }

  lemma AfterOneIs(o: Outbox)
    requires o.queue != [] && o.socket != [] && Moves(o.socket[0])
    ensures var a := o.AfterOne();
            && a.queue == Sent(o.queue, o.Moved()) && a.socket == o.socket[1..] && |a.wire| == |o.wire| + o.Moved()
            && o.Moved() == if o.socket[0].count < |o.queue[0].header| then o.socket[0].count else |o.queue[0].header|
  {
    hide Sent;
  }

  /** The first of them: the rest is taken of what that write leaves. */
  lemma FirstTakes(o: Outbox)
    requires o.queue != [] && o.socket != [] && Moves(o.socket[0])
    ensures var a := o.AfterOne();
            |a.wire| + Taken(Buffers(a.queue), a.socket) == |o.wire| + Taken(Buffers(o.queue), o.socket)
  {
    hide *;
    AfterOneIs(o);
    BuffersSent(o.queue, o.Moved());
    BuffersFirst(o.queue);
    TakenStep(|o.queue[0].header|, MoreBuffers(o.queue), o.socket);
  }

  lemma NothingTaken(o: Outbox)
    requires o.queue == [] || o.socket == [] || !Moves(o.socket[0])
    ensures Taken(Buffers(o.queue), o.socket) == 0
  {
  }

  /** The wire grows by exactly the bytes that the answers take up. */
  lemma {:induction false} SendTakes(o: Outbox)
    requires QueueOk(o.queue)
    ensures |o.Send().0.wire| == |o.wire| + Taken(Buffers(o.queue), o.socket)
    decreases |o.socket|
  {
    hide *;
    SendTurn(o);
    if o.queue != [] && o.socket != [] && Moves(o.socket[0]) {
      FirstTakes(o);
      SendTakes(o.AfterOne());
    } else {
      NothingTaken(o);
    }
  }

  /** Every answer takes all of any send buffer of these messages. */
  predicate Accepts(answers: seq<Answer>, queue: seq<HttpContext>) {
    forall i, j :: 0 <= i < |answers| && 0 <= j < |queue| ==> TakesAll(answers[i], queue[j])
  }

  predicate TakesAll(a: Answer, c: HttpContext) {
    a.Took? && a.count >= |c.header| && a.count >= |c.content|
  }

  /** The whole send buffer is taken. */
  lemma BufferTaken(o: Outbox)
    requires o.queue != [] && o.socket != [] && Ready(o.queue[0])
    requires o.socket[0].Took? && o.socket[0].count >= |o.queue[0].header|
    ensures o.Moved() == |o.queue[0].header| && o.Send() == o.AfterOne().Send()
    ensures o.AfterOne() == o.(queue := Sent(o.queue, |o.queue[0].header|), socket := o.socket[1..],
                               wire := o.wire + o.queue[0].header)
  {
    assert o.queue[0].header[..|o.queue[0].header|] == o.queue[0].header;
    hide Sent;
  }

  /** One or two answers take a whole message. */
  lemma MessageTaken(o: Outbox) returns (k: nat)
    requires QueueOk(o.queue) && o.queue != [] && Accepts(o.socket, o.queue) && |o.socket| >= 2
    ensures 1 <= k <= 2
    ensures o.Send() == o.(queue := o.queue[1..], socket := o.socket[k..], wire := o.wire + Unsent(o.queue[0])).Send()
  {
    var c := o.queue[0];
    BufferTaken(o);
    var a := o.AfterOne();
    if c.phase == SendContent || c.content == "" {
      k := 1;
      assert c.header + "" == c.header;
      assert a == o.(queue := o.queue[1..], socket := o.socket[1..], wire := o.wire + Unsent(c));
    } else {
      k := 2;
      assert a.queue[0].header == c.content && a.queue[1..] == o.queue[1..];
      BufferTaken(a);
      Assoc(o.wire, c.header, c.content);
      assert o.socket[1..][1..] == o.socket[2..];
      assert a.AfterOne() == o.(queue := o.queue[1..], socket := o.socket[2..], wire := o.wire + Unsent(c));
    }
  }

  /** A socket that takes all it is offered gets the whole queue: two answers for each message suffice. */
  lemma {:induction false} AcceptedWhole(o: Outbox) returns (used: nat)
    requires QueueOk(o.queue) && Accepts(o.socket, o.queue) && |o.socket| >= 2 * |o.queue|
    ensures var (q, end) := o.Send();
            && end == Drained && q.queue == [] && q.wire == o.wire + Pending(o.queue)
            && used <= 2 * |o.queue| && q.socket == o.socket[used..]
            && q.isSending == o.isSending && q.failing == o.failing
    decreases |o.queue|
  {
    hide Pending, Flat, QueueOk, Accepts, Sent;
    SendKeeps(o);
    if o.queue == [] {
      NothingPending();
      used := 0;
      assert o.socket[0..] == o.socket && o.wire + "" == o.wire;
    } else {
      var k := MessageTaken(o);
      var b := o.(queue := o.queue[1..], socket := o.socket[k..], wire := o.wire + Unsent(o.queue[0]));
      QueueTail(o.queue);
      AcceptsTail(o.socket, o.queue, k);
      var more := AcceptedWhole(b);
      used := k + more;
      TailOfTail(o.socket, k, more);
      NothingPending();
      assert o.Send().0.wire + "" == o.Send().0.wire;
    }
  }

  lemma QueueTail(queue: seq<HttpContext>)
    requires QueueOk(queue) && queue != []
    ensures QueueOk(queue[1..])
  {
    var q := queue[1..];
    hide Ready;
    forall j | 0 <= j < |q| ensures Ready(q[j]) && q[j].phase == SendHeader {
      assert q[j] == queue[j + 1];
    }
  }

  lemma AcceptsTail(answers: seq<Answer>, queue: seq<HttpContext>, k: nat)
    requires Accepts(answers, queue) && queue != [] && k <= |answers|
    ensures Accepts(answers[k..], queue[1..])
  {
    var s, q := answers[k..], queue[1..];
    forall i, j | 0 <= i < |s| && 0 <= j < |q| ensures TakesAll(s[i], q[j]) {
      assert s[i] == answers[k + i] && q[j] == queue[j + 1];
    }
  }

  lemma TailOfTail<T>(s: seq<T>, i: nat, j: nat)
    requires i + j <= |s|
    ensures s[i..][j..] == s[i + j..]
  {
  }

  /** A message queued on an idle socket that takes all it is offered is on the wire afterwards, and nothing
      waits; one or two answers are used. */
  lemma PushedIsSent(o: Outbox, c: HttpContext)
    requires o.queue == [] && !o.isSending && Ready(c) && c.phase == SendHeader
    requires |o.socket| >= 2 && Accepts(o.socket, [c])
    ensures var q, used := o.Pushed(c), |o.socket| - |o.Pushed(c).socket|;
            && q.queue == [] && !q.isSending && !q.failing && q.wire == o.wire + c.Bytes()
            && 0 <= used <= 2 && q.socket == o.socket[used..]
  {
    var p := o.(queue := o.queue + [c]);
    assert p.queue == [c];
    hide Pending, Flat, Outbox.Send;
    var used := AcceptedWhole(p);
    PendingPush([], c);
    NothingPending();
    assert [] + [c] == [c] && "" + c.Bytes() == c.Bytes();
  }

  /** Whatever was queued and however the write events came between: on a socket that takes all it is offered
      everything queued is on the wire, and nothing waits. */
  lemma {:induction false} EverythingIsSent(socket: seq<Answer>, enqueued: seq<HttpContext>, events: seq<nat>)
    returns (used: nat)
    requires forall i :: 0 <= i < |enqueued| ==> Ready(enqueued[i]) && enqueued[i].phase == SendHeader
    requires Accepts(socket, enqueued) && |socket| >= 2 * |enqueued|
    ensures used <= 2 * |enqueued|
    ensures Replayed(socket, enqueued, events) == Outbox([], false, socket[used..], Flat(enqueued), false)
    decreases |enqueued| + |events|
  {
    hide Ready, Accepts, Outbox.Send, TakesAll;
    var e, w := |enqueued| - 1, |events| - 1;
    if w >= 0 && events[w] > e {
      used := EverythingIsSent(socket, enqueued, events[..w]);
      NothingToWrite(Replayed(socket, enqueued, events[..w]));
    } else if e >= 0 {
      var c := enqueued[e];
      AcceptsPrefix(socket, enqueued);
      var k := EverythingIsSent(socket, enqueued[..e], events);
      var o := Replayed(socket, enqueued[..e], events);
      PushedIsSent(o, c) by { AcceptsLast(socket, enqueued, k); }
      used := k + (|o.socket| - |o.Pushed(c).socket|);
    } else {
      used := 0;
      assert socket[0..] == socket;
    }
  }

  lemma NothingToWrite(o: Outbox)
    requires o.queue == [] && !o.isSending && !o.failing
    ensures o.Written() == o
  {
  }

  lemma AcceptsPrefix(socket: seq<Answer>, queue: seq<HttpContext>)
    requires Accepts(socket, queue) && queue != []
    ensures Accepts(socket, queue[..|queue| - 1])
  {
    hide TakesAll;
  }

  lemma AcceptsLast(socket: seq<Answer>, queue: seq<HttpContext>, k: nat)
    requires Accepts(socket, queue) && queue != [] && k <= |socket|
    ensures Accepts(socket[k..], [queue[|queue| - 1]])
  {
    hide TakesAll;
    var c := queue[|queue| - 1];
    forall i, j | 0 <= i < |socket[k..]| && 0 <= j < 1 ensures TakesAll(socket[k..][i], [c][j]) {
      assert socket[k..][i] == socket[k + i] && [c][j] == queue[|queue| - 1];
    }
  }

  // ---- one message, as written --------------------------------------------------------------------

  /** As written the send buffer is filled with the whole content again before every write of the
      content phase. */
  function WrittenBuffer(c: HttpContext): string {
    if c.phase == SendContent then c.content else c.header
  }

  /** The message after the socket took `n` bytes, or None when it is popped. */
  function WrittenTurn(c: HttpContext, n: nat): Option<HttpContext>
    requires n <= |WrittenBuffer(c)|
  {
    if n != |WrittenBuffer(c)| then Some(c.(header := WrittenBuffer(c)[n..]))
    else if c.phase == SendContent || c.content == "" then None
    else Some(c.(phase := SendContent))
  }

  /** The socket takes these numbers of bytes, one write after the other, and the last write ends the
      message. */
  predicate Schedule(c: HttpContext, counts: seq<nat>)
    decreases |counts|
  {
    && counts != [] && 0 < counts[0] <= |WrittenBuffer(c)|
    && match WrittenTurn(c, counts[0])
       case None => |counts| == 1
       case Some(d) => Schedule(d, counts[1..])
  }

  /** The bytes that reach the wire. */
  function WrittenWire(c: HttpContext, counts: seq<nat>): string
    requires Schedule(c, counts)
    decreases |counts|
  {
    WrittenBuffer(c)[..counts[0]]
    + match WrittenTurn(c, counts[0]) case None => "" case Some(d) => WrittenWire(d, counts[1..])
  }

  /** The number of writes in the content phase. */
  function BodyWrites(c: HttpContext, counts: seq<nat>): nat
    requires Schedule(c, counts)
    decreases |counts|
  {
    (if c.phase == SendContent then 1 else 0)
    + match WrittenTurn(c, counts[0]) case None => 0 case Some(d) => BodyWrites(d, counts[1..])
  }

  /** Every write but the last sends bytes of the body that will be sent again. */
  lemma {:induction false} WrittenBodyIntactIff(c: HttpContext, counts: seq<nat>)
    requires c.phase == SendContent && Schedule(c, counts)
    ensures |WrittenWire(c, counts)| >= |c.content|
    ensures BodyWrites(c, counts) >= 1
    ensures WrittenWire(c, counts) == c.content <==> BodyWrites(c, counts) == 1
    decreases |counts|
  {
    match WrittenTurn(c, counts[0])
    case None =>
    case Some(d) => WrittenBodyIntactIff(d, counts[1..]);
  }

  /** As written, a message arrives intact exactly when its body needs no second write; a header may
      be written in any number of parts. */
  lemma {:induction false} WrittenIntactIff(c: HttpContext, counts: seq<nat>)
    requires c.phase == SendHeader && Schedule(c, counts)
    ensures WrittenWire(c, counts) == c.Bytes() <==> BodyWrites(c, counts) <= 1
    decreases |counts|
  {
    var n := counts[0];
    var a, b := c.header[..n], c.header[n..];
    assert c.header == a + b;
    match WrittenTurn(c, n)
    case None =>
      assert c.content == "" && b == "";
    case Some(d) =>
      if d.phase == SendHeader {
        WrittenIntactIff(d, counts[1..]);
        SamePrefix(a, WrittenWire(d, counts[1..]), d.Bytes());
        Assoc(a, b, c.content);
      } else {
        WrittenBodyIntactIff(d, counts[1..]);
        SamePrefix(a, WrittenWire(d, counts[1..]), c.content);
        assert b == "" && c.header == a;
      }
  }

  lemma SamePrefix(a: string, x: string, y: string)
    ensures a + x == a + y <==> x == y
  {
    assert (a + x)[|a|..] == x && (a + y)[|a|..] == y;
  }
}
