/** Cutting the byte stream into reads: when it makes no difference to the parser. */
module Fragments {
  import opened Text
  import Numbers
  import opened Messages
  import opened Parser

  // ---- one step and more bytes ------------------------------------------------------

  lemma CutExtend(s: string, x: string, i: nat)
    requires i <= |s|
    ensures (s + x)[..i] == s[..i] && (s + x)[i..] == s[i..] + x
  {
  }

  lemma HeadersExtend(side: Side, p: Parse, x: string)
    requires FindBlank(p.rawBuffer) != -1
    ensures FindBlank(p.rawBuffer + x) != -1
    ensures StepHeaders(side, p.Append(x)) == StepHeaders(side, p).Append(x)
  {
    var e := FindBlank(p.rawBuffer);
    FindBlankExtend(p.rawBuffer, x);
    CutExtend(p.rawBuffer, x, e + 2);
    CutExtend(p.rawBuffer, x, e + 4);
    hide Text.Split, HeaderRead, FindBlank;
  }

  lemma ChunkSizeExtend(side: Side, p: Parse, x: string)
    requires FindCrlf(p.rawBuffer) != -1
    ensures FindCrlf(p.rawBuffer + x) != -1
    ensures StepChunkSize(side, p.Append(x)) == StepChunkSize(side, p).Append(x)
  {
    var e := FindCrlf(p.rawBuffer);
    FindCrlfExtend(p.rawBuffer, x);
    CutExtend(p.rawBuffer, x, e);
    CutExtend(p.rawBuffer, x, e + 2);
    hide FindCrlf;
  }

  /** The step needs more than the buffer holds, and takes what there is. */
  predicate Partial(p: Parse) {
    (p.state == ReadBody || p.state == ReadChunkData) && |p.rawBuffer| < p.tmpContext.remaining
  }

  /** As written, the cut before `x` falls inside the CRLF after the chunk data that ends in this
      buffer, so the parser would skip that CRLF if it had both pieces. */
  predicate CutsHere(side: Side, p: Parse, x: string) {
    && !side.repaired && p.state == ReadChunkData
    && var n := p.tmpContext.remaining;
       n <= |p.rawBuffer| < n + 2 && CrlfAt(p.rawBuffer[n..] + x, 0)
  }

  lemma SkipCrlfExtend(s: string, x: string)
    requires |s| >= 2 || !CrlfAt(s + x, 0)
    ensures SkipCrlf(s + x) == SkipCrlf(s) + x
  {
  }

  lemma TakeExtend(c: HttpContext, buf: string, x: string)
    ensures c.remaining <= |buf| ==>
              Take(c, buf + x) == Take(c, buf) && (buf + x)[c.remaining..] == buf[c.remaining..] + x
    ensures |buf| < c.remaining ==> Take(Take(c, buf), x) == Take(c, buf + x)
    ensures |buf| < c.remaining ==>
              (buf + x)[Min(c.remaining, |buf + x|)..] == x[Min(c.remaining - |buf|, |x|)..]
  {
    var n := Min(c.remaining, |buf + x|);
    if c.remaining <= |buf| {
      CutExtend(buf, x, c.remaining);
    } else {
      assert (buf + x)[..n] == buf + x[..n - |buf|];
      Assoc(c.content, buf, x[..n - |buf|]);
      assert buf[..|buf|] == buf;
    }
  }

  lemma StepExtend(side: Side, p: Parse, x: string)
    requires CanStep(p) && !Partial(p)
    ensures CanStep(p.Append(x))
    ensures !CutsHere(side, p, x) ==> Step(side, p.Append(x)) == Step(side, p).Append(x)
  {
    match p.state
    case ReadHeaders => HeadersExtend(side, p, x);
    case ReadChunkSize => ChunkSizeExtend(side, p, x);
    case ReadBody =>
      TakeExtend(p.tmpContext, p.rawBuffer, x);
    case ReadChunkData =>
      TakeExtend(p.tmpContext, p.rawBuffer, x);
      if !side.repaired && !CutsHere(side, p, x) {
        SkipCrlfExtend(p.rawBuffer[p.tmpContext.remaining..], x);
      }
    case ExpectCrlf => SkipCrlfExtend(p.rawBuffer, x);
    case ExpectLastCrlf => SkipCrlfExtend(p.rawBuffer, x);
  }

  /** A partial step empties the buffer, and the next one takes up where it ended. */
  lemma PartialStep(side: Side, p: Parse, x: string)
    requires CanStep(p) && Partial(p)
    ensures Step(side, p).rawBuffer == "" && !CanStep(Step(side, p))
    ensures x != "" ==>
              var q := Step(side, p).Append(x);
              CanStep(q) && CanStep(p.Append(x)) && Step(side, q) == Step(side, p.Append(x))
  {
    TakeExtend(p.tmpContext, p.rawBuffer, x);
    assert Step(side, p).rawBuffer == "" && "" + x == x;
    hide CrlfAt, Take;
  }

  /** A partial step and then the rest is one step on all of it. */
  lemma PartialExtend(side: Side, p: Parse, x: string)
    requires CanStep(p) && Partial(p)
    ensures Run(side, p.Append(x)) == Run(side, Step(side, p).Append(x))
  {
    PartialStep(side, p, x);
    hide Step, CanStep, Partial;
    if x == "" {
      assert p.Append(x) == p && Step(side, p).Append(x) == Step(side, p);
    }
  }

  // ---- whole runs -------------------------------------------------------------------

  /** Somewhere in this run the cut before `x` separates chunk data from its CRLF. */
  ghost predicate CutsCrlf(side: Side, p: Parse, x: string)
    decreases |p.rawBuffer|, Rank(p.state)
  {
    CanStep(p) && ((!Partial(p) && CutsHere(side, p, x)) || CutsCrlf(side, Step(side, p), x))
  }

  /** Parsing a prefix first changes nothing, unless the cut falls inside such a CRLF. */
  lemma {:induction false} RunExtend(side: Side, p: Parse, x: string)
    requires !CutsCrlf(side, p, x)
    ensures Run(side, p.Append(x)) == Run(side, Run(side, p).Append(x))
    decreases |p.rawBuffer|, Rank(p.state)
  {
    if CanStep(p) {
      RunExtend(side, Step(side, p), x);
      if Partial(p) {
        PartialExtend(side, p, x);
      } else {
        StepExtend(side, p, x);
      }
    }
  }

  lemma RunStops(side: Side, p: Parse)
    requires !CanStep(p)
    ensures Run(side, p) == p
  {
  }

  lemma {:induction false} RunShortens(side: Side, p: Parse)
    ensures |Run(side, p).rawBuffer| <= |p.rawBuffer|
    decreases |p.rawBuffer|, Rank(p.state)
  {
    if CanStep(p) {
      RunShortens(side, Step(side, p));
    }
  }

  /** An empty chunk-size line kills the process. */
  lemma EmptySizeLineAborts(side: Side, p: Parse)
    requires p.state == ReadChunkSize && CrlfAt(p.rawBuffer, 0)
    ensures Run(side, p) == p.(state := Aborted)
  {
    assert FindCrlf(p.rawBuffer) == 0 && p.rawBuffer[..0] == "";
    assert Numbers.Stoul("", 16) == None;
  }

  /** The parser as written, cut inside the CRLF after chunk data, stops before that CRLF or between its
      two bytes. It has then read less than it would have with both pieces. */
  lemma CutHereStops(side: Side, p: Parse, x: string)
    requires CanStep(p) && CutsHere(side, p, x)
    ensures var q := Run(side, p);
            && q == Step(side, p) && q.state == ReadChunkSize
            && q.rawBuffer == p.rawBuffer[p.tmpContext.remaining..]
            && |Run(side, p.Append(x)).rawBuffer| < |q.rawBuffer + x|
            && CrlfAt(q.rawBuffer + x, 0)
  {
    var q, n := Step(side, p), p.tmpContext.remaining;
    TakeExtend(p.tmpContext, p.rawBuffer, x);
    RunTakesData(side, p);
    assert CrlfAt(q.rawBuffer + x, 0);
    assert Step(side, p.Append(x)).rawBuffer == SkipCrlf(q.rawBuffer + x);
    hide FindCrlf, CrlfAt, CutsHere;
    RunShortens(side, Step(side, p.Append(x)));
  }

  /** As written, chunk data with less than a CRLF behind it. */
  lemma RunTakesData(side: Side, p: Parse)
    requires !side.repaired && p.state == ReadChunkData && CanStep(p)
    requires p.tmpContext.remaining <= |p.rawBuffer| < p.tmpContext.remaining + 2
    ensures Run(side, p) == Step(side, p) && Step(side, p).state == ReadChunkSize
    ensures Step(side, p).rawBuffer == p.rawBuffer[p.tmpContext.remaining..]
  {
    var q := Step(side, p);
    assert |q.rawBuffer| < 2 && FindCrlf(q.rawBuffer) == -1;
    hide FindCrlf, CrlfAt;
  }

  /** Cut right behind the data: the late CRLF is taken for an empty chunk-size line, and the exception
      kills the process. */
  lemma CutBeforeCrlfAborts(side: Side, p: Parse, x: string)
    requires CanStep(p) && CutsHere(side, p, x) && |p.rawBuffer| == p.tmpContext.remaining
    ensures var q := Handle(side, p);
            && q == Step(side, p) && q.state == ReadChunkSize && q.rawBuffer == ""
            && Handle(side, q.Append(x)) == q.Append(x).(state := Aborted)
  {
    CutHereStops(side, p, x);
    EmptySizeLineAborts(side, Step(side, p).Append(x));
    hide Run, Step, FindCrlf;
  }

  /** Cut between the CR and the LF: the CR alone is an incomplete chunk-size line, the outer loop never
      ends, and the late LF is never read. */
  lemma CutInsideCrlfHangs(side: Side, p: Parse, x: string)
    requires CanStep(p) && CutsHere(side, p, x) && |p.rawBuffer| == p.tmpContext.remaining + 1
    ensures var q := Handle(side, p);
            && q == Step(side, p).(state := Hung) && q.rawBuffer == "\r"
            && Handle(side, q.Append(x)) == q.Append(x)
  {
    CutHereStops(side, p, x);
    LoneCr();
    hide Run, Step, FindCrlf;
    var q := Run(side, p);
    assert q.rawBuffer[0] == (q.rawBuffer + x)[0];
    assert q.rawBuffer == "\r";
    DeadStops(side, q.(state := Hung).Append(x));
  }

  lemma LoneCr()
    ensures FindCrlf("\r") == -1
  {
  }

  lemma DeadStops(side: Side, p: Parse)
    requires Dead(p.state)
    ensures Handle(side, p) == p
  {
  }

  /** As written, the cut before `x` leaves a chunk-size line incomplete that `x` completes; a CR cut
      off the CRLF after chunk data counts as such a line. */
  ghost predicate CutsSizeLine(side: Side, p: Parse, x: string) {
    var q := Run(side, p);
    !side.repaired && Spins(q) && FindCrlf(q.rawBuffer + x) != -1
  }

  /** What a cut inside such a CRLF leads to: a hanging process or an aborted one, and in either case
      less read than without the cut. */
  lemma {:induction false} CutsCrlfStops(side: Side, p: Parse, x: string)
    requires CutsCrlf(side, p, x)
    ensures var q := Run(side, p);
            && !side.repaired && |Run(side, p.Append(x)).rawBuffer| < |q.rawBuffer + x|
            && if Spins(q) then FindCrlf(q.rawBuffer + x) != -1
               else Run(side, q.Append(x)) == q.Append(x).(state := Aborted)
    decreases |p.rawBuffer|, Rank(p.state)
  {
    if CutsHere(side, p, x) && !Partial(p) {
      CutHereStops(side, p, x);
      EmptySizeLineAborts(side, Run(side, p).Append(x));
      if |p.rawBuffer| == p.tmpContext.remaining {
        CutBeforeCrlfAborts(side, p, x);
      } else {
        CutInsideCrlfHangs(side, p, x);
      }
    } else {
      CutsCrlfStops(side, Step(side, p), x);
      if Partial(p) {
        PartialExtend(side, p, x);
      } else {
        StepExtend(side, p, x);
      }
    }
  }

  /** What completes a chunk-size line lets the machine go on. */
  lemma CompletedLineIsRead(side: Side, p: Parse, x: string)
    requires p.state == ReadChunkSize && FindCrlf(p.rawBuffer + x) != -1
    ensures var r := Run(side, p.Append(x));
            r.state == Aborted || |r.rawBuffer| < |p.rawBuffer + x|
  {
    var q := Step(side, p.Append(x));
    hide FindCrlf, Numbers.Stoul;
    RunShortens(side, q);
  }

  /** The cut before `x` separates no chunk data from its CRLF and cuts no chunk-size line. */
  ghost predicate Harmless(side: Side, p: Parse, x: string) {
    !CutsCrlf(side, p, x) && !CutsSizeLine(side, p, x)
  }

  /** The exact condition for one cut to make no difference to the parser, written or repaired. */
  lemma CutIsHarmlessIff(side: Side, p: Parse, x: string)
    ensures Handle(side, p.Append(x)) == Handle(side, Handle(side, p).Append(x)) <==> Harmless(side, p, x)
  {
    hide CutsCrlf, FindCrlf, CrlfAt, Step, Run, CanStep;
    var q := Run(side, p);
    if CutsCrlf(side, p, x) {
      CutsCrlfStops(side, p, x);
    } else {
      RunExtend(side, p, x);
    }
    if Spins(q) {
      SpunRun(side, q, x);
      if FindCrlf(q.rawBuffer + x) != -1 {
        CompletedLineIsRead(side, q, x);
      }
    }
  }

  /** Bytes that do not complete a size line, and bytes that reach a hanging process. */
  lemma SpunRun(side: Side, q: Parse, x: string)
    requires Spins(q)
    ensures FindCrlf(q.rawBuffer + x) == -1 ==> Run(side, q.Append(x)) == q.Append(x)
    ensures Run(side, q.(state := Hung).Append(x)) == q.(state := Hung).Append(x)
  {
    hide FindCrlf, Step;
  }

  // ---- any number of reads ----------------------------------------------------------

  /** One call of parse_http_context after every read. */
  ghost function Feed(side: Side, p: Parse, pieces: seq<string>): Parse
    decreases |pieces|
  {
    if pieces == [] then p else Feed(side, Handle(side, p.Append(pieces[0])), pieces[1..])
  }

  function Concat(pieces: seq<string>): string
    decreases |pieces|
  {
    if pieces == [] then "" else pieces[0] + Concat(pieces[1..])
  }

  /** Every cut of the stream is harmless for what follows it. */
  ghost predicate AllHarmless(side: Side, p: Parse, pieces: seq<string>)
    decreases |pieces|
  {
    pieces == [] ||
    var a := p.Append(pieces[0]);
    Harmless(side, a, Concat(pieces[1..])) && AllHarmless(side, Handle(side, a), pieces[1..])
  }

  /** A dead process leaves everything unread. */
  lemma {:induction false} DeadReadsNothing(side: Side, p: Parse, pieces: seq<string>)
    requires Dead(p.state)
    ensures Feed(side, p, pieces) == p.Append(Concat(pieces))
    decreases |pieces|
  {
    if pieces == [] {
      assert p.Append("") == p;
    } else {
      Assoc(p.rawBuffer, pieces[0], Concat(pieces[1..]));
      DeadReadsNothing(side, p.Append(pieces[0]), pieces[1..]);
    }
  }

  /** A CRLF that comes too late is never passed, in whatever pieces it comes. */
  lemma {:induction false} LateCrlfStays(side: Side, p: Parse, pieces: seq<string>)
    requires !side.repaired && p.state == ReadChunkSize && p.rawBuffer == ""
    requires CrlfAt(Concat(pieces), 0)
    ensures Feed(side, p, pieces).rawBuffer == Concat(pieces)
    decreases |pieces|
  {
    var a := p.Append(pieces[0]);
    assert "" + pieces[0] == pieces[0];
    if pieces[0] == "" {
      assert Handle(side, a) == p && Concat(pieces) == Concat(pieces[1..]);
      LateCrlfStays(side, p, pieces[1..]);
    } else if |pieces[0]| == 1 {
      assert FindCrlf(pieces[0]) == -1;
      DeadReadsNothing(side, Handle(side, a), pieces[1..]);
    } else {
      EmptySizeLineAborts(side, a);
      DeadReadsNothing(side, Handle(side, a), pieces[1..]);
    }
  }

  /** A cut that is not harmless is never made up for by what follows. */
  lemma HarmIsLasting(side: Side, p: Parse, pieces: seq<string>)
    requires !Harmless(side, p, Concat(pieces))
    ensures Feed(side, Handle(side, p), pieces) != Handle(side, p.Append(Concat(pieces)))
  {
    var q, x := Run(side, p), Concat(pieces);
    hide CutsCrlf, FindCrlf, CrlfAt, Step, Feed, Concat, CanStep;
    if CutsCrlf(side, p, x) {
      CutsCrlfStops(side, p, x);
    } else {
      RunExtend(side, p, x);
      CompletedLineIsRead(side, q, x);
    }
    if Spins(q) {
      DeadReadsNothing(side, q.(state := Hung), pieces);
    } else {
      LateCrlfWaits(side, p, x);
      LateCrlfStays(side, q, pieces);
    }
  }

  /** Where such a cut does not hang the process at once. */
  lemma {:induction false} LateCrlfWaits(side: Side, p: Parse, x: string)
    requires CutsCrlf(side, p, x) && !Spins(Run(side, p))
    ensures var q := Run(side, p);
            !side.repaired && q.state == ReadChunkSize && q.rawBuffer == "" && CrlfAt(x, 0)
    decreases |p.rawBuffer|, Rank(p.state)
  {
    if CutsHere(side, p, x) && !Partial(p) {
      CutHereStops(side, p, x);
      if |p.rawBuffer| == p.tmpContext.remaining {
        assert "" + x == x;
      } else {
        CutInsideCrlfHangs(side, p, x);
      }
    } else {
      LateCrlfWaits(side, Step(side, p), x);
    }
  }

  /** The exact condition for any number of cuts to make no difference, for the parser as written and
      repaired: that each of them is harmless. */
  lemma {:induction false} CutsAreHarmlessIff(side: Side, p: Parse, pieces: seq<string>)
    requires Handle(side, p) == p
    ensures Feed(side, p, pieces) == Handle(side, p.Append(Concat(pieces))) <==> AllHarmless(side, p, pieces)
    decreases |pieces|
  {
    if pieces == [] {
      assert p.Append("") == p;
    } else {
      var a, rest := p.Append(pieces[0]), Concat(pieces[1..]);
      Assoc(p.rawBuffer, pieces[0], rest);
      hide Harmless, Handle;
      if Harmless(side, a, rest) {
        HandleSettles(side, a);
        CutIsHarmlessIff(side, a, rest);
        CutsAreHarmlessIff(side, Handle(side, a), pieces[1..]);
      } else {
        HarmIsLasting(side, a, pieces[1..]);
      }
    }
  }

  lemma HandleSettles(side: Side, p: Parse)
    ensures Handle(side, Handle(side, p)) == Handle(side, p)
  {
    hide FindCrlf;
  }

  /** The repaired parser ends in the same messages, state, partial message and leftover however the
      stream is cut into reads. */
  lemma {:induction false} FragmentationIndependence(side: Side, p: Parse, pieces: seq<string>)
    requires side.repaired && !CanStep(p)
    ensures Feed(side, p, pieces) == Run(side, p.Append(Concat(pieces))) == Handle(side, p.Append(Concat(pieces)))
    decreases |pieces|
  {
    if pieces == [] {
      assert p.Append("") == p;
    } else {
      var q, rest := Run(side, p.Append(pieces[0])), Concat(pieces[1..]);
      FragmentationIndependence(side, q, pieces[1..]);
      NoCutWhenRepaired(side, p.Append(pieces[0]), rest);
      RunExtend(side, p.Append(pieces[0]), rest);
      Assoc(p.rawBuffer, pieces[0], rest);
    }
  }

  lemma {:induction false} NoCutWhenRepaired(side: Side, p: Parse, x: string)
    requires side.repaired
    ensures !CutsCrlf(side, p, x)
    decreases |p.rawBuffer|, Rank(p.state)
  {
    if CanStep(p) {
      NoCutWhenRepaired(side, Step(side, p), x);
    }
  }

  // ---- traffic without chunked messages -----------------------------------------------

  /** No message of this run is chunked; a Content-Length beyond any string may end it. */
  ghost predicate Plain(side: Side, p: Parse)
    decreases |p.rawBuffer|, Rank(p.state)
  {
    (p.state == ReadHeaders || p.state == ReadBody || p.state == Aborted) && (CanStep(p) ==> Plain(side, Step(side, p)))
  }

  lemma {:induction false} PlainExtend(side: Side, p: Parse, x: string)
    requires Plain(side, p.Append(x))
    ensures Plain(side, p) && Plain(side, Run(side, p).Append(x))
    ensures !CutsCrlf(side, p, x) && Handle(side, p) == Run(side, p)
    decreases |p.rawBuffer|, Rank(p.state)
  {
    if CanStep(p) {
      if Partial(p) {
        var q := Step(side, p);
        TakeExtend(p.tmpContext, p.rawBuffer, x);
        assert q.rawBuffer == "" && q.rawBuffer + x == x;
        assert p.rawBuffer + "" == p.rawBuffer;
        assert x != "" ==> Step(side, q.Append(x)) == Step(side, p.Append(x));
        assert Run(side, p) == q;
      } else {
        StepExtend(side, p, x);
        PlainExtend(side, Step(side, p), x);
      }
    }
  }

  /** As written, the parser is independent of fragmentation on streams without chunked messages. */
  lemma {:induction false} PlainFragmentationIndependence(side: Side, p: Parse, pieces: seq<string>)
    requires !CanStep(p) && Plain(side, p.Append(Concat(pieces)))
    ensures Feed(side, p, pieces) == Run(side, p.Append(Concat(pieces))) == Handle(side, p.Append(Concat(pieces)))
    decreases |pieces|
  {
    if pieces == [] {
      assert p.Append("") == p;
    } else {
      var a, rest := p.Append(pieces[0]), Concat(pieces[1..]);
      Assoc(p.rawBuffer, pieces[0], rest);
      PlainExtend(side, a, rest);
      RunExtend(side, a, rest);
      PlainFragmentationIndependence(side, Run(side, a), pieces[1..]);
    }
  }

  /** On such streams the repairs change nothing. */
  lemma {:induction false} PlainNeedsNoRepair(side: Side, p: Parse)
    requires Plain(side, p)
    ensures Run(side, p) == Run(side.(repaired := !side.repaired), p)
    decreases |p.rawBuffer|, Rank(p.state)
  {
    if CanStep(p) {
      PlainNeedsNoRepair(side, Step(side, p));
    }
  }

  // ---- where the written loops never end ------------------------------------------------

  predicate InChunks(s: ConnState) {
    s == ReadChunkSize || s == ReadChunkData || s == ExpectCrlf || s == ExpectLastCrlf
  }

  /** The inner loop: parse_chunked_content until its message ends or it must wait. */
  ghost function ChunkLoop(side: Side, p: Parse): (q: Parse)
    ensures Run(side, q) == Run(side, p)
    ensures q == p || |q.rawBuffer| < |p.rawBuffer|
            || (|q.rawBuffer| == |p.rawBuffer| && Rank(q.state) < Rank(p.state))
    decreases |p.rawBuffer|, Rank(p.state)
  {
    if InChunks(p.state) && CanStep(p) then ChunkLoop(side, Step(side, p)) else p
  }

  /** A turn of the outer loop in a chunk state changes nothing, so that the loop as written repeats
      it for ever, exactly for an incomplete chunk-size line. */
  lemma SpinsIff(side: Side, p: Parse)
    requires p.state == ReadChunkSize || p.state == ReadChunkData
    ensures p.rawBuffer != "" && ChunkLoop(side, p) == p <==> Spins(p)
  {
    hide FindCrlf, StepChunkSize, StepChunkData;
    if CanStep(p) {
      var q := ChunkLoop(side, Step(side, p));
    }
  }
}
