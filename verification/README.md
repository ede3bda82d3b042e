# A verified model of the proxy

The proxy is an event-driven HTTP/1.1 reverse proxy: forked workers share the counters of a load
balancer; each worker owns pairs of connections, one to a client and one to a backend; each
connection cuts the bytes it receives into messages, rewrites request headers, hands messages to the
other connection of its pair, and sends what it is handed. This project models that in Dafny and
proves what the code promises. Where the code does not keep a promise, the model keeps the code as it
is written, names the input that breaks it and proves exactly when it does hold; a labelled repair
then gives the promise in full.

`dafny verify dfyconfig.toml` checks everything.

| file | content |
|---|---|
| Text, Numbers | string searches, trimming, cutting into lines and tokens; stoul, stoi and printing |
| Headers, Rewriting | reading and rewriting a header block; what the rewrite keeps; chains of proxies |
| Messages, Responses, UrlDecoding | messages and start lines; the proxy's own responses; responses passed on; the targets of the static file handler |
| Parser, Fragments, Invariants | the incremental parser as a step machine; independence of fragmentation; what every step keeps and where parsing stops |
| Relay, EndToEnd, Chunks | whole messages on a byte stream; relay from hop to hop, and whom a request names as its client; chunked bodies |
| WireFormat | fields, digits, start lines and status lines spelled out in literal text |
| Writer, Connections, System | the outgoing queue; one connection as a class; both connections of a pair together |
| Sums, Balancer, Fairness, Counters, Starvation, Concurrent | the three balancing algorithms on one worker, over whole runs, on 32-bit counters, through their wrap-around, and interleaved between workers |
| ConfigLoader, Workers | the weights of a listener; the connection tables and the event loop of a worker, over whole runs |

## How the model follows the code

Text is `seq<char>`; a `std::string::npos` is -1; a C++ exception of `stoul` or `stoi` is `None`.
`Parser.Step` is one turn of the parsing loops of `parse_http_context` and `parse_chunked_content`, and
`Connections.NormalConnHandler` has those loops themselves, proved to run that machine to its end. The
flag `repaired` of a `Side` selects between the chunk parser as written and one with three repairs: the CRLF
after chunk data is awaited, the CRLF after the last chunk is awaited, and the outer loop is left together
with the inner one. `Parser.Handle` is one call of `parse_http_context` for either. The state `Aborted`
stands for the process killed by an exception (`stoul` on a chunk-size line, `reserve` on a Content-Length
beyond `max_size`, `stoi` in `url_decode`), the state `Hung` for the process whose outer loop never ends; neither reads any more,
and a worker that has come to one of them handles no further event. What `tmp_context` holds between a
hand-over and the next `reset()` is not read, so it is shown as reset.

What the world answers is an input. `HandleReadEvent` is given the pieces that arrive and how they end. A connection
is made with the `answers` of its socket to all its writes: so many bytes taken, would block, or failed; `socket` is
what is left of them. `Writer.Outbox` is the sending side as a value: `Send` writes for as long as the answers allow,
`Written` is a write event, `Pushed` a message queued, and `Replayed` what any messages and write events lead to.
`WorkerLoop` is given its actions: arrivals of clients, with the backend each one gets and the answers of both
sockets, and events, with what can then be read.

Where the code departs from what it is evidently for:

- `src/worker.cpp:43` lets the smallest current weight win. `largest` is a parameter. As written the first
  backend of least weight gets every client (`Fairness.SmallestStarves`, `Counters.CountersStarve`), and
  shares follow the weights exactly when there is one backend (`Fairness.WrittenIsFairIff`). On the 32-bit
  counters it keeps them exactly as long as its wrapped counter stays the smallest (`Starvation.ReignIff`),
  which with two backends or more always ends (`Starvation.ReignEnds`).
- `src/proxy_handler.cpp:262-264` refills the send buffer with the whole content before every write, so a
  message arrives intact exactly when its body needs no second write (`Writer.WrittenIntactIff`). Repair in
  the class: the content is loaded once. The write to the context after `pop` at line 286 is dropped.
- `src/proxy_handler.cpp:439-445` skips the CRLF after chunk data only when it is already in the buffer. A
  read that ends right behind the data makes the next turn read an empty chunk-size line, and the exception
  ends the process (`Fragments.CutBeforeCrlfAborts`). Repair: a state that waits for the CRLF.
- `src/proxy_handler.cpp:415-417` leaves the inner loop on an incomplete chunk-size line, but the outer loop
  goes on for ever, in exactly those states (`Fragments.SpinsIff`). A read that ends inside a chunk-size line,
  or between the CR and the LF after chunk data (`Fragments.CutInsideCrlfHangs`), hangs the worker. Repair:
  both loops are left. Which cuts of a stream do harm, by either fault, is said exactly by
  `Fragments.CutIsHarmlessIff`, `Fragments.CutsAreHarmlessIff` and `Chunks.ChunkCutIff`.
- `src/proxy_handler.cpp:422-428` leaves the CRLF behind the last chunk in the buffer; the method of the next
  request then starts with CRLF (`Chunks.LeftoverSpoilsNextMethod`). Repair: the CRLF is awaited and skipped.
- A chunked message is handed on decoded under a header that still announces chunks, so the next hop reads
  the same message exactly when it was not chunked (`Chunks.RelayedIff`).
- `src/proxy_handler.cpp:453-464`: the 400 page made for a request without method or target carries no status,
  so the client side replaces it; the client is always answered 500 (`Connections.RefusalIs500`), and all
  requests are queued or answered 400 exactly when all have a method and a target (`Connections.QueuedOr400Iff`).
- `src/proxy_handler.cpp:35-36`: a `stringstream` built from a text is written over from its start, so the opening
  tags never reach the error page (`Messages.ErrorPageLosesItsOpening`).
- `src/proxy_handler.cpp:368-372` drops a header block whose Content-Length is 2^64 - 1, and "-1" is read as that
  number (`Responses.MinusOneIsDropped`, and `Responses.DroppedResponse` for a whole input whose bytes are lost).
- `src/proxy_handler.cpp:368` catches only 2^64 - 1: any other Content-Length beyond what a string can hold, "-2"
  among them, makes the `reserve` at line 381 throw, and nothing catches it; nor the exception of `stoul` at
  line 419. A stream kills the worker exactly when it has such a header block or such a chunk-size line
  (`Invariants.KilledIff`); `Responses.KillingRequest` is an input.
- `src/proxy_handler.cpp:502` lets `stoi` throw on an escape without a digit. A GET for such a target kills a
  worker that serves files (`UrlDecoding.ThrowsIff`, `UrlDecoding.BadEscapeThrows`).
- `src/worker.cpp:78-79` leaves the backend's table entry behind when the client disconnects. A disconnect
  spoils tables that had no such entry exactly when it closes the client's end of a pair with a backend
  (`Workers.Worker.Disconnect`), and such an entry may be hidden by a client that reuses the descriptor
  until that client's backend goes (`Workers.StaleUnmasked`). Repair: the entry goes too. The two repairs, of
  the tables and of the parser, are separate parameters of a `Worker`.
- `src/worker.cpp:172-179` only reads on an event that is both readable and writable; with edge triggering the
  writable half is not reported again. `Workers.Worker.ProcessEvent` does the same.
- `src/config_loader.cpp:61` reads the item with the listener's number for every backend
  (`ConfigLoader.WrittenLoadsRightIff`). The weights are narrowed to int and added as ints; the total is their
  sum exactly when that fits an int (`ConfigLoader.TotalIsSumIff`). `backend_count` is never set; the model
  takes it to be the number of backends, and the number of counters to be no smaller.
- `src/worker.cpp:114` only ever adds to `connections`, an atomic int. Least connections is round robin for
  n * INT_MAX clients and, with two backends or more, no longer (`Counters.LeastIsRoundRobinIff`): the next
  client wraps a counter around, and that backend looks emptiest (`Counters.FullCounterWraps`).
- A weighted choice while a backend is down moves the sum of the weights away from zero, except in the cases
  of `Counters.WeightConservedIff`.
- Counters that wrap around make the ledger of the weights hold modulo 2^32 only (`Concurrent.WeightLedger`);
  it is exact at every moment exactly in the runs without wrap-around (`Concurrent.ExactLedgerIff`), and
  `Concurrent.LedgerOffByWord` is a run of one worker, with a total weight that fits an int, in which it is not.

## Model

| member | source | states |
|---|---|---|
| Text.TrimCutsBlanks | src/proxy_handler.cpp:64-72 | trim returns the piece of its argument between the outer blanks, with no blank at either end |
| Text.SplitJoin | src/proxy_handler.cpp:96-109 | lines without CRLF, joined with CRLF, are cut into the same lines again |
| Text.JoinSplit | src/proxy_handler.cpp:164-168 | cutting a header text that ends with CRLF and joining the lines again is the identity |
| Text.CutIsBlock | src/proxy_handler.cpp:351-357 | a buffer cut at its first blank line yields a start line and non-empty field lines, losing nothing |
| Text.BlankAtEnd | src/proxy_handler.cpp:164-168 | a joined block has its first blank line at its very end, whatever follows |
| Numbers.StoulPrint | src/proxy_handler.cpp:419 | stoul, in base 10 and 16, reads back every size that was printed |
| Numbers.StoiPrint | src/proxy_handler.cpp:208-213 | stoi reads back every int that was printed, negative ones included |
| Headers.ContainsChunked | src/proxy_handler.cpp:81-94 | the scanning loop finds chunked exactly when some comma-separated token, trimmed and lower-cased, is "chunked" (list rule of section 5.6.1 of RFC 9110) |
| Headers.ChunkedDistributes | src/proxy_handler.cpp:81-94 | two list values joined with a comma contain chunked exactly when one of them does |
| Headers.SplitHeaders | src/proxy_handler.cpp:96-109 | the cutting loop computes the lines of a header text |
| Headers.CollectFields | src/proxy_handler.cpp:122-146 | the first pass computes, line by line in place, the chunked flag and the length of the block's lines, which `WireFormat.TransferEncodingIsSeen` and `WireFormat.ContentLengthIsSeen` read off the literal fields, and the places of the first X-Forwarded-For and X-Real-IP |
| Headers.ProcessHttpHeaders | src/proxy_handler.cpp:111-171 | the whole pass: the text is the rewritten lines joined, whose forwarding fields `Rewriting.RewriteValues` gives, and chunked flag and length are those of the block's lines, as `WireFormat` reads them off literal fields |
| WireFormat.TransferEncodingIsSeen | src/proxy_handler.cpp:129-135 | a line named transfer-encoding, in any case and with blanks around name and value, makes a block chunked exactly when its value lists the word chunked, in any case, or another such line does, wherever it stands behind the start line |
| WireFormat.ContentLengthIsSeen | src/proxy_handler.cpp:136-140 | the length is the number on the last line named content-length, spelled in any way, that is one |
| WireFormat.StartLineFramesNothing | src/proxy_handler.cpp:119-122 | a start line alone makes no block chunked and gives it no length, whatever it says |
| WireFormat.FieldIsRead | src/proxy_handler.cpp:123-132 | a field line is that field and no other, with exactly its value, whatever the case of its name and the blanks around both |
| WireFormat.ForwardedNames | src/proxy_handler.cpp:134-162 | the four names that are looked for and the line end, as literals |
| WireFormat.RequestLineIsRead | src/proxy_handler.cpp:173-188 | of any header that starts with method, space, target, space and more, the parser reads that method and that target |
| WireFormat.HexInAnyCase | src/proxy_handler.cpp:419 | stoul in base 16 reads a printed number back in upper and lower case |
| WireFormat.ReadSizeInAnyCase | src/proxy_handler.cpp:412-431 | a chunk-size line in upper or lower case starts the data of a chunk of that size |
| WireFormat.StatusLines | src/proxy_handler.cpp:19-52 | the status lines of the six responses the proxy makes, as text |
| WireFormat.GeneratedFields | src/proxy_handler.cpp:41-52 | read by name, a generated header carries its Content-Type, its Content-Length and Connection: close |
| Rewriting.RewriteKeepsLines | src/proxy_handler.cpp:148-162 | every line but the first X-Forwarded-For and the first X-Real-IP keeps its text and its index, and at most those two are added |
| Rewriting.RewriteIsBlock | src/proxy_handler.cpp:148-168 | the rewritten lines are again one header block |
| Rewriting.RewriteKeepsFraming | src/proxy_handler.cpp:134-140 | the rewrite changes neither the chunked flag nor the length |
| Rewriting.RewriteValues | src/proxy_handler.cpp:150-161 | one hop appends the client's address to the X-Forwarded-For value and makes it the X-Real-IP |
| Rewriting.ProxyChain | src/proxy_handler.cpp:141-162 | after any chain of hops the X-Forwarded-For value lists the original value, if any, and every client in order, X-Real-IP is the last client, and the framing is the original one |
| Messages.ErrorPageLosesItsOpening | src/proxy_handler.cpp:34-38 | as written, the opening tags of an error page are overwritten |
| Relay.ReadWhole | src/proxy_handler.cpp:350-403 | a message whose Content-Length is its body's length, at the head of the buffer, is delivered and parsing goes on right behind it |
| Relay.ReadAllWhole | src/proxy_handler.cpp:347-408 | a stream of such messages is cut into exactly those messages |
| Fragments.CutIsHarmlessIff | src/proxy_handler.cpp:347-448 | handling a prefix first gives the same result as handling everything at once exactly when the cut neither separates chunk data from its CRLF nor leaves a chunk-size line incomplete that the rest completes; as written such a cut ends or hangs the process |
| Fragments.CutsAreHarmlessIff | src/proxy_handler.cpp:347-448 | as written and repaired, for any number of reads: the parser ends as if it had read everything at once exactly when each cut is harmless; harm once done is never made up for |
| Fragments.FragmentationIndependence | src/proxy_handler.cpp:347-448 | repaired: messages, state, partial message and leftover do not depend on how the stream is cut into reads |
| Fragments.PlainFragmentationIndependence | src/proxy_handler.cpp:347-403 | as written: the same for every stream without chunked messages |
| Fragments.PlainNeedsNoRepair | src/proxy_handler.cpp:347-403 | on such streams the repaired and the written parser do the same |
| Fragments.CutBeforeCrlfAborts | src/proxy_handler.cpp:419 | as written, a CRLF that comes in the read after its chunk data is taken for an empty size line, and the exception ends the process |
| Fragments.CutInsideCrlfHangs | src/proxy_handler.cpp:404-417 | as written, a read that ends between that CR and LF leaves the CR as an incomplete size line: the process hangs and never reads the LF |
| Fragments.SpinsIff | src/proxy_handler.cpp:404-417 | a turn of the outer loop in a chunk state changes nothing exactly for an incomplete chunk-size line |
| Invariants.StepKeeps | src/proxy_handler.cpp:350-446 | every turn keeps: delivered messages are complete and of the length they declare, and a body being read has its declared length split between what is there and what is to come |
| Invariants.FeedKeeps | src/proxy_handler.cpp:347-448 | this holds after any reads from the start of a connection |
| Invariants.KilledIff | src/proxy_handler.cpp:366-419 | parsing ends in an exception exactly when the stream has a non-chunked header block with a length no string can have, other than 2^64 - 1, or a complete chunk-size line that is no number |
| Invariants.MaximalProgress | src/proxy_handler.cpp:348-447 | with the outer loop repaired parsing ends, and unless the stream has a header block or chunk-size line that throws it ends only for want of bytes: empty buffer, no blank line, no end of the size line, or less than an awaited CRLF; as written it does not return where the repaired loop waits for the end of a size line |
| EndToEnd.HeadIsFirstLine | src/proxy_handler.cpp:175-188 | method and target of a message are those on its first line |
| EndToEnd.RewritePreservesFraming | src/proxy_handler.cpp:111-171 | the stored header has its first blank line at its end, and reading it again gives the same chunked flag and length |
| EndToEnd.PathOfProxies | src/proxy_handler.cpp:141-168 | a pipelined sequence of whole requests that passes any number of proxies as bytes, cut anyhow on each leg, is delivered one for one by each with nothing left over; each request keeps its body and length and, given a request line, method and target; its X-Forwarded-For lists the original value and every proxy's client in order, and its X-Real-IP is the last client |
| EndToEnd.NextHopReadsTheSame | src/proxy_handler.cpp:350-383 | a whole request read by the next hop keeps method, target, length and body |
| EndToEnd.StreamIsReadBack | src/proxy_handler.cpp:347-403 | the bytes of whole messages, in any fragments, are read back as those messages with nothing left over |
| EndToEnd.EndToEndRelay | src/proxy_handler.cpp:347-403 | whatever a client sends in whatever fragments, its non-chunked requests with a request line, on the wire and read by the next hop in any fragments, arrive one for one with the same methods, targets, lengths and bodies |
| EndToEnd.DeliveredNamesClient | src/proxy_handler.cpp:350-448 | whatever a client sends and however it arrives, every request delivered names that client's address as its X-Real-IP and at the end of its X-Forwarded-For |
| Responses.GeneratedStatus | src/proxy_handler.cpp:190-214 | get_response_head reads the code off a generated header, for every int |
| Responses.GeneratedIsReadBack | src/proxy_handler.cpp:544-553 | any response with such a header and the true length of its content, as the static handler also writes it, is delivered once, in any fragments, with its header, its code and exactly its content |
| Responses.GenHttpHeaderReadBack | src/proxy_handler.cpp:41-52 | gen_http_header of a NUL-free content and then that content, in any fragments: one message with that header, that code and exactly that content, READ_HEADERS and an empty buffer at the end |
| Responses.GenHttpHeaderReadBackIff | src/proxy_handler.cpp:41-52 | the length comes from strlen: the content is read back up to its first NUL, and whole exactly when there is none |
| Responses.ResponseTransparency | src/proxy_handler.cpp:347-403 | as written, without chunked messages: delivered headers and contents, the unfinished message and the buffer are the bytes received exactly when no header block of the stream declares the length 2^64 - 1 |
| Responses.ResponseStream | src/proxy_handler.cpp:330-403 | the same for everything received in any fragments since the connection began |
| Responses.MinusOneIsDropped | src/proxy_handler.cpp:366-372 | a header block whose last Content-Length is -1 leaves the parser as if it had never been sent |
| Responses.DroppedResponse | src/proxy_handler.cpp:366-372 | a concrete response all of whose bytes are thrown away |
| Responses.MinusTwoKills | src/proxy_handler.cpp:366-381 | a header block whose last Content-Length is -2 kills the process with everything from that block on unread |
| Responses.KillingRequest | src/proxy_handler.cpp:366-381 | a concrete request that kills the process, whatever follows it |
| Chunks.ReadEncoding | src/proxy_handler.cpp:410-448 | a whole chunk encoding in the buffer is decoded to the data in order; as written exactly the last CRLF stays behind, repaired nothing does |
| Chunks.ReadChunkedMessage | src/proxy_handler.cpp:347-448 | a chunked message that arrives in one piece delivers one message with the concatenated data, as written and repaired, leaving exactly the last CRLF or nothing |
| Chunks.ChunkedRoundTrip | src/proxy_handler.cpp:410-448 | repaired: the encoding of section 7.1 of RFC 9112, in any fragments, is decoded to one message with nothing left over |
| WireFormat.ChunkedFieldRoundTrip | src/proxy_handler.cpp:350-448 | repaired: a header block with the line Transfer-Encoding: chunked, whatever its start line and its other fields, and an encoding, from the start of a connection and in any fragments, deliver one message with the data and nothing left over |
| WireFormat.ChunkedPost | src/proxy_handler.cpp:350-448 | repaired: a literal chunked POST in any fragments is delivered with its method, its target and its three bytes |
| Chunks.LeftoverSpoilsNextMethod | src/proxy_handler.cpp:422-428 | as written, the CRLF left behind becomes an empty first line of the next request, whose method then starts with CRLF |
| Chunks.LeftoverSpoilsNextRequest | src/proxy_handler.cpp:422-428 | as written, a chunked request and a whole request behind it in one buffer are both delivered with their contents, the second without a method or with one that starts with CRLF |
| Chunks.ChunkCutIff | src/proxy_handler.cpp:411-446 | as written, one cut into an encoded chunk does harm exactly inside the size line or its CRLF, and behind the data before the end of its CRLF |
| Chunks.DecodingShortens | src/proxy_handler.cpp:410-448 | whatever bytes are decoded as chunks, a message delivered from them is shorter |
| Chunks.RelayedIff | src/proxy_handler.cpp:359-364 | a delivered message on the wire is the first one the next hop delivers with the same content exactly when it was not chunked |
| Writer.PendingPush | src/proxy_handler.cpp:467 | queueing a message adds its bytes at the end of what is pending |
| Writer.SentKeeps | src/proxy_handler.cpp:280-290 | after a write of any length, the bytes taken and the bytes then pending are the bytes that were pending |
| Writer.SendEnds | src/proxy_handler.cpp:254-291 | writing ends as the answers say: at the first one that blocks or fails before the queue is empty, with an empty queue otherwise |
| Writer.SendTakes | src/proxy_handler.cpp:254-291 | the wire grows by exactly the bytes that the answers take up: each up to its count, out of one send buffer, header then content, until one takes nothing |
| Writer.PushedIsSent | src/proxy_handler.cpp:467-469 | a message queued on an idle socket that takes all it is offered is on the wire afterwards, and nothing waits |
| Writer.EverythingIsSent | src/proxy_handler.cpp:247-305 | on such a socket any messages queued and any write events leave every byte on the wire |
| Writer.WrittenIntactIff | src/proxy_handler.cpp:261-290 | as written, a message arrives intact exactly when its body needs no second write |
| Connections.RefusalIs500 | src/proxy_handler.cpp:453-464 | as written, a request without method or target is answered 500, never 400 |
| Connections.QueuedOr400Iff | src/proxy_handler.cpp:453-464 | requests in front of a live backend are all queued or answered 400 exactly when all have a method and a target |
| Connections.BadGatewayIsAccepted | src/proxy_handler.cpp:217-225 | a failed backend's answer is a complete 502 that the client side queues as it is |
| Connections.ErrorIsReadBack | src/proxy_handler.cpp:34-52 | every error the proxy makes is read by the next parser, in any fragments, as one message with its code and its whole page |
| Connections.BadGatewayIsReadBack | src/proxy_handler.cpp:217-225 | so a failed backend's answer is read as one 502 with its page |
| UrlDecoding.UrlDecode | src/proxy_handler.cpp:498-512 | the decoding loop computes the decoded target, or throws |
| UrlDecoding.FirstEscapeThrowsIff | src/proxy_handler.cpp:501-504 | a target throws exactly when its first escape has no digit to read or the rest behind it throws |
| UrlDecoding.ThrowsIff | src/proxy_handler.cpp:498-512 | a target throws exactly when the scan, which passes every escape as a whole, reaches one without a digit |
| UrlDecoding.BadEscapeThrows | src/proxy_handler.cpp:501-504 | the target /%zz throws |
| UrlDecoding.PlainIsKept | src/proxy_handler.cpp:508-510 | text without plus or percent signs is decoded to itself |
| UrlDecoding.PlusIsSpace | src/proxy_handler.cpp:506-507 | a plus sign is decoded to a space |
| UrlDecoding.EscapedIsDecoded | src/proxy_handler.cpp:498-512 | any bytes, all written as escapes with two hexadecimal digits, are decoded to themselves |
| Connections.StaticAnswerIsReady | src/proxy_handler.cpp:514-566 | every outcome of the static handler that is an answer is a complete response with status 200, 404, 405 or 500; 200 exactly for a GET of a readable file, 405 for every other method; its bytes are in the next two rows |
| Connections.StaticAnswerIsExact | src/proxy_handler.cpp:514-566 | status and body of every outcome: 405, 404 and 500 with the page of their code, or 200 with exactly the bytes of the file |
| Connections.StaticFileIsReadBack | src/proxy_handler.cpp:536-553 | the answer to a GET of a file, in any fragments, is read by the next parser as one message with code 200 and exactly the bytes of the file |
| Connections.ForwardedOrRefused | src/proxy_handler.cpp:452-470 | in front of a live backend every request is either queued or refused, the queued ones being the valid ones |
| Connections.OneAnswerEach | src/proxy_handler.cpp:452-470 | one forwarding or one answer for every request, and one queued response for every backend response, responses in order and, when no request was refused, nothing but them |
| Connections.NormalConnHandler.HandleWriteEvent | src/proxy_handler.cpp:247-305 | the queue, the wire and the answers left are where the socket's answers lead (`Writer.SendEnds`, `Writer.SendTakes`): the loop writes up to the first one that blocks, fails or takes nothing, or to an empty queue; it fails exactly on a failed write, and waits for EPOLLOUT exactly on one that blocks; wire and pending bytes are always all bytes ever queued, in order |
| Connections.NormalConnHandler.WriteEvent | src/proxy_handler.cpp:247-305 | a write event keeps the sending side where replaying all messages queued and all write events so far leads |
| Connections.NormalConnHandler.Enqueue | src/proxy_handler.cpp:467-469 | a message joins the end of the queue and, unless output already waits, is written as far as the socket's answers go |
| Connections.NormalConnHandler.ClientRecv | src/proxy_handler.cpp:460-469 | the client side queues and writes the response, or the 500 page in place of one without a status |
| Connections.NormalConnHandler.BackendRecv | src/proxy_handler.cpp:452-469 | a valid request is queued for the backend and written as far as its socket goes and nothing else changes hands; an invalid one is answered to the client and nothing is queued for the backend; the request is queued or answered 400 exactly when it is valid |
| Connections.NormalConnHandler.Deliver | src/proxy_handler.cpp:376-402 | handing a message over keeps both FIFOs and the account of the pair, for a live, a failed and a static peer, and throws exactly for a static peer and a GET whose target does |
| Connections.NormalConnHandler.BeginBody | src/proxy_handler.cpp:366-384 | a length of 2^64 - 1 drops the block, 0 delivers the message, one beyond any string throws, and any other starts a body |
| Connections.NormalConnHandler.ReadHeaderBlock | src/proxy_handler.cpp:350-384 | the READ_HEADERS branch is the header step of the machine |
| Connections.NormalConnHandler.ReadBodyBytes | src/proxy_handler.cpp:391-403 | the READ_BODY branch is the body step |
| Connections.NormalConnHandler.ReadChunkSizeLine | src/proxy_handler.cpp:412-431 | the READ_CHUNK_SIZE branch is the size step, exceptions included |
| Connections.NormalConnHandler.ReadChunkDataBytes | src/proxy_handler.cpp:432-446 | the READ_CHUNK_DATA branch is the data step, written or repaired |
| Connections.NormalConnHandler.ParseChunkedContent | src/proxy_handler.cpp:410-448 | the inner loop loses no step of the run and stops only when it must wait or a message ends |
| Connections.NormalConnHandler.ParseHttpContext | src/proxy_handler.cpp:347-408 | the loops reach the state the machine runs to, and as written hang exactly when that leaves an incomplete chunk-size line |
| Connections.NormalConnHandler.HandleReadEvent | src/proxy_handler.cpp:233-245 | after any number of read events the connection is where feeding the machine the same reads leads it, hanging and aborting included, after which no event is handled; in front of static files it throws exactly when some request so delivered makes it; bytes that come with the end of the connection are kept but not parsed; what waits to be sent is not sent |
| System.DrainedWire | src/proxy_handler.cpp:257-291 | an emptied queue has put on the wire exactly the messages queued, as the next parser cuts them |
| System.ProxyRelays | src/proxy_handler.cpp:233-470 | parser, rewrite, hand-over and writer together: what the backend's wire carries once its queue is sent is read by the next hop as the client's valid requests, one for one and in order, with nothing left over |
| System.ProxyRelaysSoFar | src/proxy_handler.cpp:233-470 | the same at every moment, with output still waiting: the next hop has delivered exactly the valid requests whose bytes are all on the wire, in order |
| System.NothingIsHeldBack | src/proxy_handler.cpp:247-305 | on a socket that takes all it is offered, everything a connection has ever been given is on its wire, at every moment |
| System.ProxyRelaysResponses | src/proxy_handler.cpp:233-470 | the other way, as written: when no request was refused, every response has a status and none is chunked, the client's wire, the unfinished response and the buffer are exactly what the backend has sent, in order, if and only if no header block was dropped |
| Balancer.BestWeight | src/worker.cpp:36-47 | the loop ends with the first extreme weight among the first backend and the healthy ones |
| Balancer.Fewest | src/worker.cpp:59-69 | the loop ends with the first backend of fewest connections among the first backend and the healthy ones |
| Balancer.ShmLoadBalancer.GetNextBackend | src/worker.cpp:24-74 | pick, index and counters of the three algorithms |
| Balancer.ShmLoadBalancer.PickByWeight | src/worker.cpp:34-55 | the weighted loop credits, compares and charges as the value-level choice does |
| Balancer.ShmLoadBalancer.PickFewest | src/worker.cpp:57-71 | the least-connections loop makes the value-level choice and changes nothing |
| Balancer.ShmLoadBalancer.NewBackend | src/worker.cpp:100-116 | a connection attempt counts for the chosen backend even when it fails, and a failure is counted too |
| Fairness.WeightedFairness | src/worker.cpp:34-51 | with the largest weight winning, any W consecutive picks take backend i exactly weight_i times and restore the current weights, all zero after the first W |
| Fairness.BoundedWeights | src/worker.cpp:36-50 | every current weight lies between 1 - W and (n - 1)(W - 1) after every pick |
| Fairness.SmallestStarves | src/worker.cpp:43 | as written, every pick of every run is the first backend of least weight |
| Fairness.WrittenIsFairIff | src/worker.cpp:43 | as written, W picks share by weight exactly when there is one backend |
| Counters.CountersFollowVectors | src/worker.cpp:34-51 | on the 32-bit counters the k-th choice is the k-th pick of the vector run and nothing overflows, even in the middle of a call, when n * W fits an int |
| Counters.CountersStarve | src/worker.cpp:34-51 | the written comparison on the 32-bit counters: one backend gets every client, for as long as k * W fits an int |
| Starvation.ReignIff | src/worker.cpp:34-51 | through any wrap-around: the first k clients all go to one backend exactly when, after each number of picks below k, its wrapped credited weight is still the smallest, a condition on the weights alone |
| Starvation.ReignEnds | src/worker.cpp:36-50 | with two backends or more that condition fails within 3 * 2^31 picks, whatever the weights |
| Starvation.StarvationEnds | src/worker.cpp:34-51 | so every run comes to a call that the favoured backend does not get |
| Counters.PickedIff | src/worker.cpp:36-55 | a weighted call returns a backend exactly when the first is healthy or a healthy one beats it once both are credited |
| Counters.WeightConservedIff | src/worker.cpp:34-55 | under any health pattern one choice keeps the sum of the weights exactly when no backend is healthy, or all but perhaps the first are and the first is healthy or beaten |
| Counters.LeastIsMinimal | src/worker.cpp:57-71 | a backend returned is healthy and minimal among the healthy ones; none is returned exactly when the first is down and no healthy one has fewer connections |
| Counters.LeastIsRoundRobin | src/worker.cpp:111-114 | from zero counters, all healthy, and up to n * INT_MAX clients, the k-th client goes to backend k mod n whatever the connection outcomes, and each counter is k div n or one more |
| Counters.LeastIsRoundRobinIff | src/worker.cpp:57-71 | every client goes to the backend whose turn it is, and the counters stay within one of each other, exactly with a single backend or for at most n * INT_MAX clients |
| Counters.FullCounterWraps | src/worker.cpp:111-114 | client n * INT_MAX + 1 wraps the counter of backend 0 around to INT_MIN while that of backend 1 is INT_MAX, and backend 0 gets the next client too |
| Counters.RoundRobinPicks | src/worker.cpp:25-32 | the k-th pick of round robin is k mod n |
| Counters.RoundRobinTurn | src/worker.cpp:25-32 | under any health the turn passes on, the backend whose turn it is gets the client exactly when it is healthy, and no counter changes |
| Counters.ConnectionCounts | src/worker.cpp:111-114 | a connection attempt counts once for its backend, and once more as failed when it fails; nothing else changes |
| Concurrent.StepKeeps | src/worker.cpp:36-50 | every atomic step of every worker keeps the ledger modulo 2^32 |
| Concurrent.WeightLedger | src/worker.cpp:36-50 | under every interleaving the sum of the current weights is, modulo 2^32, the weight credited by calls in flight, hence a multiple of 2^32 when there is none |
| Concurrent.ExactLedger | src/worker.cpp:36-50 | under every interleaving in which no addition leaves the range of an int, the sum of the current weights is the weight credited by calls in flight, and 0 when there is none |
| Concurrent.ExactLedgerIff | src/worker.cpp:36-50 | the sum is the weight credited by calls in flight at every moment of a run exactly when no addition of the run leaves the range of an int |
| Concurrent.LedgerOffByWord | src/worker.cpp:36-50 | two backends whose total weight fits an int, one worker and two clients: the sum is off by 2^32 |
| Concurrent.ShortRunIsExact | src/worker.cpp:36-50 | every interleaving whose number of steps times the total weight fits an int is such a run |
| ConfigLoader.LoadBackends | src/config_loader.cpp:59-77 | one weight per backend, narrowed to int and never zero under the weighted algorithm, and their int sum as the total |
| ConfigLoader.GivenWeightIsLoaded | src/config_loader.cpp:67-72 | a weight that is a non-zero int is loaded as it is; the weighted algorithm makes 1 of a missing one and of 0 |
| ConfigLoader.LoadedIsConfigIff | src/config_loader.cpp:67-74 | the loaded weights suit the weighted algorithm exactly when there are some and none given is negative as an int |
| ConfigLoader.TotalIsSumIff | src/config_loader.cpp:73 | the loaded total is the sum of the weights exactly when that sum is an int |
| ConfigLoader.WrittenLoadsRightIff | src/config_loader.cpp:61 | as written the weights are right exactly when every backend has the weight of the item with the listener's number |
| Workers.ProxyHandler.InitLink | include/proxy_handler.h:50-53 | the two handlers become each other's peer |
| Workers.Worker.Disconnect | src/worker.cpp:76-86 | exactly the pair that owns the descriptor is destroyed; which backend entries are left dangling, entry by entry; tables without dangling entries stay so exactly with the repair or when no client's end of a pair with a backend is closed |
| Workers.Worker.AcceptNewConn | src/worker.cpp:135-161 | a new pair is linked and found under both descriptors, its client's end with the client's descriptor and address, its backend's end with those of the chosen backend, whatever closed descriptors the kernel reuses, stale entries included; only the entry under its backend's descriptor stops dangling, and all pairs keep their promises |
| Workers.Worker.ResolveIsRight | src/worker.cpp:184-211 | every open descriptor resolves to the one live pair that owns it, at the right end; anything else to nothing, or, as written, to a stale entry |
| Workers.Worker.KeysAreOpen | src/worker.cpp:76-86 | client keys are exactly the open client descriptors, backend keys exactly the open backend descriptors and the dangling ones, of which there are none with the repair; no descriptor is open at both ends, and no open backend's entry dangles |
| Workers.Worker.KeysAreExactIff | src/worker.cpp:76-86 | backend keys are exactly the open backend descriptors exactly when no entry dangles |
| Workers.StaleUnmasked | src/worker.cpp:76-86 | as written, a run in which closing a backend brings a hidden stale entry to light |
| Workers.Worker.ProcessEvent | src/worker.cpp:165-211 | a readable event parses what arrived at the end it is for, behind all that had arrived there, and closes the pair exactly when the connection ended; an only writable one writes what the socket takes and closes the pair exactly when that fails; on a descriptor that is not open nothing changes; every other pair is untouched, all keep their promises, a readable event sends nothing of what waits, and a parser that aborts or hangs halts the worker |
| Workers.Worker.WorkerLoop | src/worker.cpp:165-226 | any actions from an empty worker, as written and repaired, with descriptors reused as soon as they are closed: every client whose descriptors were free gets its pair with its address; both ends of every pair that is there have parsed exactly what the actions since have brought them, and none of these ended it; a pair that is gone had an action that could end it; tables, links, parsers, queues and accounts are in order, and with the table repair no event meets a stale entry |
| Workers.QueuedNamesClient | src/worker.cpp:135-152 | every request that a live pair has ever queued for its backend names the address of that pair's client |
| Workers.RelayedInRun | src/worker.cpp:135-226 | in any run, for every client that is still connected: its backend has been given exactly the valid requests that have arrived from it since, in order, each naming its address; it has been given the refusals of the others and the backend's responses, each in their order; and a socket that takes all it is offered carries all of it |

## Left out

- Sockets, epoll, TLS and handshakes: a read yields given pieces and an end, a write the next of the given answers, and blocks when there are none left; the handshake counts as done.
- Accept failures and pausing at the descriptor limit (src/worker.cpp:122-134): they change no table.
- Forking, signals, the master process and shared memory set-up: kept only as counters shared by interleaved workers and as the health flags.
- Concurrent round robin and least connections: their unsynchronised reads and writes of an index promise nothing over interleavings; they are modelled on one worker.
- Concurrent.WeightLedger: is exact only modulo 2^32, because counters wrap around; Concurrent.ExactLedger is the exact form for the other runs. Both state the all-healthy case; with a backend down the sum drifts, which Counters.WeightConservedIff makes exact for one worker.
- Counters.CountersStarve: stops at the first possible wrap-around of a counter; Starvation.ReignIff is exact beyond it.
- Workers.Worker.ProcessEvent: asks that the descriptor is not stale, because the code as written then follows the address of a destroyed pair; Workers.Worker.WorkerLoop counts such events and passes over them.
- Memory exhaustion: a reserve that max_size allows is taken to succeed. The value of max_size is that of libstdc++.
- string_view aliasing: method and target are copies of the header text, where the code keeps views into a moved string.
- Logging, including the error line for an unreadable start line.
- realpath, stat, file reading and the MIME table: the static handler gets one of its outcomes.
- ConfigLoader.LoadBackends: lets the int addition of the total wrap around, where a signed overflow is undefined in C++.
- Trailer fields behind the last chunk: like the code, the repaired parser reads them as the next header block.
- The other members of a configuration file and the JSON library.
