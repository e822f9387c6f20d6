# brynet: models and proofs

Dafny models of the parts of brynet where the difficulty lies, and proofs of what they are for:

- the incremental HTTP parser (`HttpTypes`, `HttpSwitch`, `HttpRun`, `HttpExecute`, `HttpSplit`, `HttpMethods`,
  `HttpHeaders`, `HttpConnection`, `HttpHeaderLines`, `HttpStartLine`, `HttpChunked`, `HttpFraming`, `HttpUrl`, `HttpUrlText`, `HttpMessage`),
- the hand-off between the event loop and other threads (`EventLoop`),
- a connected socket: sending, receiving and closing (`RecvBuffer`, `SendList`, `DataSocket`),
- SHA-1 and base64 (`Sha1Spec`, `Sha1`, `Base64`),
- the coroutine scheduler over a ring buffer and the message queue of two threads (`RingStack`, `Coroutine`,
  `CoroutineSlots`, `MsgQueue`),
- the asynchronous connector and its poll set (`FdSet`, `Connector`).

`dafny verify dfyconfig.toml` verifies everything.

## How to read it

**HTTP.** `HttpSwitch.Switch` is the big switch as a function of the parser's fields and one byte; `HttpRun` iterates it as a
machine that takes single bytes and knows no buffers, marks or inner loops. `HttpExecute.HttpParser` is the C code's own form:
marks into a buffer, inner loops over names, values and bodies, the `memchr` shortcut, `goto reexecute`, and a header
count. Its `Execute` is proved to come to what the machine comes to, for every buffer. Everything else is then proved about the
machine and holds for the C form: independence of how the input is cut up, what the recognisers accept, and in `HttpMessage` the round
trip of whole messages: printed from a start line, headers and a body, one after the other and cut anywhere, they come back as exactly
their parts. Strict mode is modelled, with callbacks that answer 0. The history of callbacks joins adjacent data of one part, as an
application that collects strings does.

**Threads.** The event loop and the message queue are cut at every atomic operation; between any two operations of one thread, the
others may do anything they can do. The theorems hold for all runs of any number of threads.

**Kernel.** What `epoll_wait`, `writev`, `send`, `recv`, `poll`, `connect` and `getsockopt` answer, what callbacks do, and what
unlocked reads see is an arbitrary choice (`*`) within the interface of the call.

**Results that are not what the documentation or a reader would expect** are stated with the exact condition:

- The chunk-size table's initialiser stops after 128 entries, so bytes from 128 on are read as the digit 0
  (`HttpChunked.SizeDigits`), and one of them ends a body (`HttpChunked.HighByteEndsBody`).
- `http_parser_parse_url` reads the port with `strtoul`, past the end of the URL it was given: `HttpUrl.PortIsItsDigits` says exactly
  when a URL that both passes accept is accepted with the port it spells, and `HttpUrlText.PortReadBeyond` gives an input that is
  accepted with another port and one that is refused.
- A buffer whose last byte is taken inside a header name or value, and leaves the parser inside it, adds one to the header count
  (`HttpExecute.HttpParser.Execute`). So a cut can make a message overflow that passes in one buffer
  (`HttpMessage.OnlyTheCutOverflows`), but never the other way round; with room for one byte a piece neither overflows
  (`HttpSplit.SplitIndependence`).
- The parser does not delimit every message as section 3.3.3 of RFC 7230 says: `HttpFraming.RfcFraming` tells which, and
  `HttpFraming.RfcNotFollowed` gives a response 204 with a length, a chunked 304, a request with the encoding "gzip, chunked" and a
  response with a length beside another encoding.
- A comma that breaks off a part of one of the words that a `Connection` header may hold is swallowed, and the next element of the list
  goes unheard; behind an empty element, or one that starts with a tab, all do. `HttpConnections.ConnectionRecogniser` says exactly which
  words are heard, `HttpConnections.CleanIsHeard` for which lists these are the words of the list, and
  `HttpConnections.SwallowedExample` gives "clo, close", in which "close" is not.
- `normalFlush` also ends when its gather comes out empty, which packets that are not empty rule out
  (`DataSockets.DataSocket.NormalFlush`, `DataSockets.NeverStuck`). `DataSockets.StuckExample` is a list for which it does: an empty
  packet before one of more than 32 KB.

## Model

| member | source | states |
|---|---|---|
| HttpSwitch.SwitchKeepsInv | src/brynet/net/http/http_parser.c:628-2097 | the inductive invariant over all reachable parser states is kept by every byte in every state: F_CHUNKED in all chunk states, a body length that is neither 0 nor the "no length" value, numbers up to 999, and in a header name or value only the header states that its inner switch knows, so that its `assert(0)` cannot fail |
| HttpSwitch.SwitchFits | src/brynet/net/http/http_parser.c:692-2064 | the marks and callbacks of a move fit the states before and after it: data belongs to the part whose mark is set, a mark is set when its state is entered and flushed when it is left; `goto reexecute` only goes to states of lower rank, and the exit to another protocol only to a start state or the dead one |
| HttpRun.Dispatch | src/brynet/net/http/http_parser.c:698-701 | `goto reexecute` ends for every byte in every state, and a chunk size is only ever started with a header count of 0 (`assert(parser->nread == 1)`) |
| HttpRun.RunInTwo | src/brynet/net/http/http_parser.c:690-692 | cutting the bytes in two makes no difference to the byte machine |
| HttpRun.InitValid | src/brynet/net/http/http_parser.c:2150-2159 | the parser that `http_parser_init` leaves satisfies the invariant, so every reachable one does |
| HttpExecute.HttpParser.Execute | src/brynet/net/http/http_parser.c:628-2097 | the C form refines the byte machine for every buffer: same fields, same joined callbacks, same number of bytes taken, same errno; `nread` is the true count, plus one exactly if the last byte was taken in a header name or value and leaves the parser in it; a run without an error of its own ends in HPE_HEADER_OVERFLOW exactly if a header byte comes when the limit is reached or that count passes it, and a run with one meets the limit first, except that a Content-Length is refused before its buffer is counted; with length 0 it is the end of the input |
| HttpExecute.HttpParser.ExecuteEof | src/brynet/net/http/http_parser.c:648-668 | a length of zero completes a body that lasts until the end, is ignored between messages, and is an error elsewhere |
| HttpExecute.HttpParser.TakeValueByte | src/brynet/net/http/http_parser.c:1555-1610 | the `memchr` shortcut and the switch over the header state come to what the machine does byte by byte, or skip bytes only when the header count overflows |
| HttpExecute.HttpParser.ReadField | src/brynet/net/http/http_parser.c:1329-1456 | the inner loop over a header name does what the machine does byte by byte, up to the colon, the end of the buffer or an error |
| HttpExecute.HttpParser.ReadValue | src/brynet/net/http/http_parser.c:1531-1715 | the inner loop over a header value does what the machine does byte by byte |
| HttpExecute.HttpParser.TakeBody | src/brynet/net/http/http_parser.c:1888-1929 | a stride over body bytes does what the machine does byte by byte; the asserts on the length cannot fail |
| HttpExecute.HttpParser.FlushMarks | src/brynet/net/http/http_parser.c:2068-2093 | at the end of the buffer at most one mark is set and its string is delivered |
| HttpExecute.MarksAtMostOne | src/brynet/net/http/http_parser.c:2077-2081 | the assertion that at most one mark is set cannot fail |
| HttpExecute.FindLineEnd | src/brynet/net/http/http_parser.c:1555-1578 | the shortcut finds the first line end among the next HTTP_MAX_HEADER_SIZE bytes, or gives the end of the buffer |
| HttpExecute.BodyStride | src/brynet/net/http/http_parser.c:1888-1905 | taking n body bytes in one stride is taking them one by one |
| HttpExecute.GeneralStride | src/brynet/net/http/http_parser.c:1555-1578 | skipping n bytes of a header value of no interest is taking them one by one |
| HttpExecute.MessageDoneAnyByte | src/brynet/net/http/http_parser.c:1917-1938 | the end of a message does not depend on the byte on hand, which the C code leaves stale |
| HttpSplit.Feed | src/brynet/net/http/http_parser.c:628-2097 | pieces given one after the other come to what the machine makes of their concatenation; if none overflows, the whole in one buffer does not either, and none overflows if the limit leaves room for one byte a piece |
| HttpSplit.SplitIndependence | src/brynet/net/http/http_parser.c:628-2097 | for any bytes and any cut into non-empty pieces, runs without error end with the same fields but `nread`, the same joined callbacks, bytes taken and exit to another protocol; runs with a parse error end with the same error at the same byte; if the pieces pass the header limit so does the whole, and with room for one header byte a piece neither overflows and the two agree on every error |
| HttpSplit.ShortIsRoomy | src/brynet/net/http/http_parser.c:154-161 | a condition known before the call: an input leaves that room if the count so far, its bytes and its pieces together stay within the limit |
| HttpMethods.BytesMatchGuess | src/brynet/net/http/http_parser.c:990-1082 | while a method is read, the bytes since the start of the message are the first `index` bytes of the guessed method's name |
| HttpMethods.OtherAgrees | src/brynet/net/http/http_parser.c:1002-1075 | every change of the guess agrees with all bytes read before |
| HttpMethods.NameIsFollowed | src/brynet/net/http/http_parser.c:947-1075 | each of the 31 names is followed to its end, through every change of the guess and the "HE" state of HTTP_BOTH |
| HttpMethods.MethodRecogniser | src/brynet/net/http/http_parser.c:734-748 | the URL is reached after exactly the listed method names and a space, with that method |
| HttpMethods.MethodRun | src/brynet/net/http/http_parser.c:947-1082 | from the start of a request, a listed name and a space begin the message with that method, fresh flags and no length |
| HttpHeaders.NameRecogniser | src/brynet/net/http/http_parser.c:1279-1456 | a header name is delivered whole and recognised as one of the five keywords exactly if it is that word in any case |
| HttpHeaders.LengthRecogniser | src/brynet/net/http/http_parser.c:1585-1610 | a Content-Length value is accepted exactly if it is digits and spaces whose value passes the overflow test; the accumulator is that value and never the "no length" one |
| HttpHeaders.EncodingRecogniser | src/brynet/net/http/http_parser.c:1612-1621 | a Transfer-Encoding value says "chunked" exactly if it is that word in any case, followed by spaces only |
| HttpConnections.ConnectionRecogniser | src/brynet/net/http/http_parser.c:1622-1703 | a `Connection` value is delivered whole and sets the flags of exactly the words that are heard in it: the elements of the list that are one of the words, in any case and perhaps with spaces around, but for an element behind one that is only a part of a word, and for all behind one that is empty or does not start like a token |
| HttpConnections.HeardWasSaid | src/brynet/net/http/http_parser.c:1622-1703 | no word is heard that is not an element of the list (in a value without NUL) |
| HttpConnections.CleanIsHeard | src/brynet/net/http/http_parser.c:1622-1703 | in a list without empty elements, tabs and elements that are only a part of a word, each word is heard exactly if it is an element of the list |
| HttpConnections.Swallowed | src/brynet/net/http/http_parser.c:1642-1678 | behind a part of a word the next element is never heard |
| HttpConnections.SwallowedExample | src/brynet/net/http/http_parser.c:1642-1678 | "clo, close" has the element "close", which is not heard |
| HttpHeaderLines.HeaderLine | src/brynet/net/http/http_parser.c:1279-1790 | any header line with a value is delivered as its name and its value; it changes the body's length only as a Content-Length, each flag exactly as its own header and value say, and is refused exactly as an unreadable Content-Length |
| HttpHeaderLines.HeaderLines | src/brynet/net/http/http_parser.c:1279-1790 | any list of header lines is delivered name by name and value by value; the length is that of the last Content-Length, each flag is set exactly if one of the headers says so, and the message is refused exactly if a Content-Length is unreadable |
| HttpStartLine.RequestVersion | src/brynet/net/http/http_parser.c:1157-1277 | the version of a request line that ends with CRLF or LF is the two numerals sent, exactly if neither passes 999 and the first does not start with a zero; otherwise it is refused |
| HttpStartLine.StatusLine | src/brynet/net/http/http_parser.c:774-945 | version and status code of a response are the numerals sent, with any number of spaces between them, exactly if none passes 999; a reason phrase, which may be missing or empty, is delivered whole, and the line ends with CRLF or LF |
| HttpFraming.RfcFraming | src/brynet/net/http/http_parser.c:1792-1886 | the empty line after the headers leads to the body that section 3.3.3 of RFC 7230 gives the message, with exactly these callbacks, if and only if the message has no encoding but "chunked" alone or, on a response, an encoding that does not end with "chunked" and no length, and a 1xx, 204 or 304 has neither chunks nor a length; a message that leaves for another protocol must have no body by the RFC |
| HttpFraming.RfcNotFollowed | src/brynet/net/http/http_parser.c:1842-1886 | four messages for which it does not: a 204 with a length, a chunked 304, a request with "gzip, chunked", a response with "gzip" and a length |
| HttpFraming.SaysChunkedIsFinal | src/brynet/net/http/http_parser.c:1612-1621 | a Transfer-Encoding that the parser takes for chunked lists `chunked` as its final coding |
| HttpFraming.LengthDelivered | src/brynet/net/http/http_parser.c:1842-1938 | after the headers, a body of the announced length is delivered whole and followed by one message_complete |
| HttpFraming.ChunksDelivered | src/brynet/net/http/http_parser.c:1842-2058 | after the headers, printed chunks are delivered as they were printed, whatever Content-Length said |
| HttpFraming.UntilCloseDelivered | src/brynet/net/http/http_parser.c:1874-1929 | after the headers of a message that lasts until the connection closes, whatever follows is delivered as its body: no byte is refused or ends it, and the state stays |
| HttpMessage.MessageRoundTrip | src/brynet/net/http/http_parser.c:690-2064 | a message printed from a request or status line, any headers, and nothing, a body of the given length, chunks or everything up to the end, makes the machine report exactly message_begin, URL or reason, every name and value, headers_complete, the body and message_complete, and take exactly its bytes; it exits exactly for CONNECT or an Upgrade that a Connection header names, and otherwise waits for another message exactly if the version and the Connection headers keep the connection alive |
| HttpMessage.Receive | src/brynet/net/http/http_parser.c:628-2097 | the same of `http_parser_execute` from a parser at the start of a message: no error, if the head stays within the header limit |
| HttpMessage.ReceivePieces | src/brynet/net/http/http_parser.c:628-2097 | the same for the message cut anywhere into non-empty pieces, if the head leaves room for one header byte a piece |
| HttpMessage.ReceiveToTheEnd | src/brynet/net/http/http_parser.c:648-668 | a response that lasts until the connection closes is completed by the zero length that stands for the close, with no change of state |
| HttpMessage.PipelineRoundTrip | src/brynet/net/http/http_parser.c:690-2064 | any number of printed messages one after the other, each but the last keeping the connection alive, come back as exactly their parts, in order |
| HttpMessage.ReceiveAll | src/brynet/net/http/http_parser.c:628-2097 | the same of `http_parser_execute`, cut anywhere, if the header limit leaves room for one header byte a piece |
| HttpMessage.RfcFramingOfText | src/brynet/net/http/http_parser.c:1842-1886 | for printed messages with at most one Transfer-Encoding: the parser finds the body that RFC 7230 gives the printed headers exactly in the cases of RfcFraming |
| HttpMessage.PrintedUrl | src/brynet/net/http/http_parser.c:1084-1155 | every printed URL may stand in a request line |
| HttpMessage.AtTheEdge | src/brynet/net/http/http_parser.c:1435-1456 | a parser comes to stand inside a header name with three bytes left of the header limit |
| HttpMessage.OnlyTheCutOverflows | src/brynet/net/http/http_parser.c:1435-1456 | from there the same two bytes pass in one buffer and end in HPE_HEADER_OVERFLOW in two |
| HttpChunked.Hex | src/brynet/net/http/http_parser.c:1956-1991 | every number has a numeral that the parser's digit values read back |
| HttpChunked.SizeRun | src/brynet/net/http/http_parser.c:1940-1991 | a chunk size is the numeral sent, exactly if it passes the overflow test; it never wraps and never is the "no length" value |
| HttpChunked.SizeDigits | src/brynet/net/http/http_parser.c:224-241 | the bytes that count as digits are the hexadecimal digits and, with value 0, all bytes from 128 on |
| HttpChunked.HighByteEndsBody | src/brynet/net/http/http_parser.c:224-241 | one byte of 128 in the place of a chunk size ends the body |
| HttpChunked.ChunkedRoundTrip | src/brynet/net/http/http_parser.c:1940-2058 | for every list of chunks printed as size, CRLF, data, CRLF and a zero chunk, the parser reports each chunk's length and data and then one message_complete |
| HttpChunked.ChunkedBody | src/brynet/net/http/http_parser.c:1940-2058 | the joined body callbacks are the joined chunks, with exactly one message_complete, at the end |
| HttpChunked.LengthBody | src/brynet/net/http/http_parser.c:1888-1938 | a body of known length is delivered whole and its last byte ends the message |
| HttpChunked.ChunksUncounted | src/brynet/net/http/http_parser.c:1956-2058 | the header count stays below any limit throughout a chunked body each of whose size lines does |
| HttpChunked.ReceiveChunks | src/brynet/net/http/http_parser.c:1940-2058 | `http_parser_execute` on a printed chunked body reports no error and delivers it |
| HttpUrl.FirstPass | src/brynet/net/http/http_parser.c:2342-2419 | the first pass fails on exactly the bytes the URL states refuse, and otherwise gives each field exactly the bytes that belong to it |
| HttpUrl.ParseHost | src/brynet/net/http/http_parser.c:2261-2340 | the second pass does the same for userinfo, host and port, and refuses authorities that end in an unfinished state |
| HttpUrl.ParseUrl | src/brynet/net/http/http_parser.c:2342-2444 | a URL is accepted exactly if both passes accept it, a schema has a host, CONNECT has host and port only, and the port is at most 65535; the fields and the port are those of the two passes |
| HttpUrl.UrlLayout | src/brynet/net/http/http_parser.c:2342-2444 | the fields of an accepted URL are non-empty, in range, disjoint and in the order schema, userinfo, host, port, path, query, fragment |
| HttpUrl.HostNotEmpty | src/brynet/net/http/http_parser.c:2323-2339 | an accepted authority has a host |
| HttpUrl.PortIsItsDigits | src/brynet/net/http/http_parser.c:2428-2441 | the port of a URL that both passes accept is the decimal value of its digits exactly if no digit follows the URL in memory, or all is zero; the URL is accepted with that port exactly if besides the port is at most 65535, and never accepted if it is more |
| HttpUrlText.PortReadBeyond | src/brynet/net/http/http_parser.c:2428-2441 | "a:80" with "12" behind it in memory is accepted with the port 8012, and with "00000" behind it refused, though accepted alone with the port 80 |
| HttpUrlText.UrlRoundTrip | src/brynet/net/http/http_parser.c:480-626 | a URL printed from schema, user, host or bracketed IPv6 address with zone, port, path, query and fragment, a path alone, or host and port for CONNECT, is accepted exactly if its port is at most 65535; each field is exactly the part that was printed, and the port is its number |
| HttpUrlText.AllFound | src/brynet/net/http/http_parser.c:2355-2412 | the first pass ends alive on a printed URL, has met an `@` exactly if there is a user, and its spans are those of the parts, the authority being taken for the host |
| HttpUrlText.ServerFound | src/brynet/net/http/http_parser.c:2261-2340 | the second pass ends in a finished state on a printed authority, and user, host without its brackets, and port have exactly their bytes |
| HttpUrl.DeliveredUrl | src/brynet/net/http/http_parser.c:1084-1155 | `http_parser_execute` delivers a URL exactly if the first pass of `http_parser_parse_url` accepts it, so a delivered URL never leads that pass to its dead or unexpected states |
| EventLoops.NextKeepsInv | src/brynet/net/EventLoop.cpp:221-260 | every atomic operation of the loop and of any other thread keeps the invariant that ties the flags, the eventfd, the threads' positions and the lists together |
| EventLoops.RunKeepsInv | src/brynet/net/EventLoop.cpp:221-296 | the invariant holds in every interleaving of any number of threads |
| EventLoops.NoLostWakeup | src/brynet/net/EventLoop.cpp:287-296 | if the loop stands at epoll_wait with procs to run, the eventfd is signalled or a thread has not yet finished waking it; with no thread busy, epoll_wait blocks only if everything pushed or queued is executed |
| EventLoops.ThreadFinishes | src/brynet/net/EventLoop.cpp:51-58 | in any run, whatever the loop and the other threads do in between, a thread in `wakeup` makes at most three operations of its own, and after three it is finished |
| EventLoops.OneMoveNearer | src/brynet/net/EventLoop.cpp:287-296 | it never waits for another thread: its next operation is always possible and brings it nearer to the end, which no other operation undoes |
| EventLoops.ExactlyOnceInLockOrder | src/brynet/net/EventLoop.cpp:273-324 | every proc pushed by another thread is executed at most once, in the order of the mutex: pushed = executed, then the batch, then the list |
| EventLoops.EventLoop.Loop | src/brynet/net/EventLoop.cpp:157-261 | one call executes everything that was pushed or queued before it, whatever the other threads do between its operations |
| EventLoops.EventLoop.ProcessAsyncProcs | src/brynet/net/EventLoop.cpp:273-285 | everything pushed before the swap is executed |
| EventLoops.EventLoop.ProcessAfterLoopProcs | src/brynet/net/EventLoop.cpp:263-271 | everything queued before the swap is executed, and what the batch queues waits for the next batch |
| EventLoops.EventLoop.WakeupStep | src/brynet/net/EventLoop.cpp:51-58 | each operation of `wakeup` is a step of the thread machine |
| RecvBuffer.Buffer.AdjustToHead | src/brynet/utils/buffer.c:57-75 | moving to the head keeps the readable bytes |
| RecvBuffer.Buffer.Write | src/brynet/utils/buffer.c:160-186 | a write succeeds exactly if the bytes fit behind the unread ones, appends them, and otherwise changes nothing |
| RecvBuffer.Buffer.AddReadPos | src/brynet/utils/buffer.c:106-115 | a step beyond the array is not taken; any other is, and drops the first n readable bytes exactly if there are so many |
| SendLists.CompletedExactlyWhenSent | src/brynet/net/DataSocket.cpp:495-512 | for non-empty packets, a packet's completion callback has been made exactly if all its bytes have been accepted, and callbacks come in order |
| SendLists.FinishFirst | src/brynet/net/DataSocket.cpp:495-512 | removing a sent packet keeps the conservation of bytes and callbacks |
| SendLists.ShortenFirst | src/brynet/net/DataSocket.cpp:495-512 | a partial write keeps it |
| SendLists.QueueOne | src/brynet/net/DataSocket.cpp:124-144 | queueing keeps it |
| DataSockets.GatherOne | src/brynet/net/DataSocket.cpp:462-477 | what is gathered is the front part of the unsent bytes |
| DataSockets.DataSocket.Retire | src/brynet/net/DataSocket.cpp:495-512 | after a write of n bytes exactly n bytes leave the list, with the callbacks of the packets finished by them |
| DataSockets.DataSocket.GatherBuffer | src/brynet/net/DataSocket.cpp:344-372 | the 32 KB gather is the front of the unsent bytes; it is empty exactly if an empty packet stands before nothing or before a packet that does not fit |
| DataSockets.DataSocket.QuickFlush | src/brynet/net/DataSocket.cpp:447-527 | whatever the kernel accepts: bytes accepted and bytes unsent are the queued packets in order, it asks the kernel at least once, and it ends only with the list empty, or after an answer that blocked, with write interest armed, or failed, with the socket closed, all answers before being full ones; also when the C int of the gathered length wraps |
| DataSockets.DataSocket.NormalFlush | src/brynet/net/DataSocket.cpp:334-445 | the same for the 32 KB form: with no empty packet queued it ends only with the list empty, blocked or closed; with a list whose gather is empty it changes nothing |
| DataSockets.NeverStuck | src/brynet/net/DataSocket.cpp:344-372 | packets that are not empty never give an empty gather |
| DataSockets.StuckExample | src/brynet/net/DataSocket.cpp:344-372 | an empty packet before one of more than 32 KB does |
| DataSockets.DataSocket.Flush | src/brynet/net/DataSocket.cpp:303-326 | in either form, afterwards unsent packets have a flush queued or wait for a blocked kernel, but for the lists that the 32 KB form does not gather |
| DataSockets.QueueAtBack | src/brynet/net/DataSocket.cpp:193-204 | queueing a flush, a shutdown or the disconnect keeps the agreement of queue and flags: one flush exactly if `mIsPostFlush`, at most one disconnect, nothing behind it |
| DataSockets.TakeFromFront | src/brynet/net/EventLoop.cpp:263-271 | executing the next entry keeps it, and the disconnect is the last entry of its socket |
| DataSockets.DataSocket.OnClose | src/brynet/net/DataSocket.cpp:563-579 | however often it is called, one disconnect is queued and the socket is given up |
| DataSockets.DataSocket.Send | src/brynet/net/DataSocket.cpp:124-144 | the packet is queued behind the others, and an open socket has a flush queued |
| DataSockets.DataSocket.CanSend | src/brynet/net/DataSocket.cpp:168-191 | afterwards an open socket with unsent packets has a flush queued and may write |
| DataSockets.DataSocket.Recv | src/brynet/net/DataSocket.cpp:206-301 | whatever the kernel delivers and the callback consumes: consumed and readable bytes are the received ones; with room it asks the kernel at least once, first for all the room; it asks again only after a full answer, and an open socket stops only after an answer below the request or none, or with the buffer full of unconsumed bytes and unable to grow |
| DataSockets.DataSocket.OnData | src/brynet/net/DataSocket.cpp:270-288 | the data callback is shown exactly the received and unconsumed bytes, and may use the socket |
| DataSockets.DataSocket.GrowRecvBuffer | src/brynet/net/DataSocket.cpp:681-696 | growing keeps the readable bytes and adds 1024 bytes exactly if the maximum allows it |
| DataSockets.DataSocket.RunAfterLoopProc | src/brynet/net/DataSocket.cpp:193-204 | an after-loop entry keeps all invariants; when the disconnect callback is made nothing of this socket is left in the queue |
| DataSockets.DataSocket.Steps | src/brynet/net/DataSocket.cpp:124-326 | every run of sends, receives, kernel events, closes and after-loop batches keeps conservation, the armed-flush invariant, the deferred-close invariant and the receive invariant |
| Sha1.SimplerForms | src/brynet/utils/SHA1.cpp:57-62 | the macros' choice and majority are those of FIPS PUB 180-1 |
| Sha1.SwapIsBig | src/brynet/utils/SHA1.cpp:47-52 | the byte swap turns a little-endian load into the big-endian word |
| Sha1.WindowMoves | src/brynet/utils/SHA1.cpp:54-55 | overwriting the oldest of sixteen words keeps the last sixteen of the eighty words |
| Sha1.OneMoreRound | src/brynet/utils/SHA1.cpp:57-62 | a round with renamed registers is a round of the standard, which moves them |
| Sha1.CSHA1.Transform | src/brynet/utils/SHA1.cpp:89-130 | the eighty unrolled lines over sixteen words compute the compression of section 7 of FIPS PUB 180-1 |
| Sha1.CountAdds | src/brynet/utils/SHA1.cpp:132-141 | the two-word count with its carry is the bit count modulo 2 to the 64 |
| Sha1.CSHA1.Update | src/brynet/utils/SHA1.cpp:132-157 | the object hashes what it had and the new bytes, for every length its 32-bit sums can hold |
| Sha1.ZerosWanted | src/brynet/utils/SHA1.cpp:211-214 | the padding loop stops after the fewest zeros that are enough, and ends |
| Sha1.CountBytes | src/brynet/utils/SHA1.cpp:203-210 | the eight bytes taken from the two words are the bit count modulo 2 to the 64, highest first |
| Sha1.CSHA1.Final | src/brynet/utils/SHA1.cpp:203-234 | the digest is that of FIPS PUB 180-1 for everything hashed |
| Sha1.HashPieces | src/brynet/utils/SHA1.cpp:132-234 | any pieces give the digest of their concatenation |
| Base64.RoundTrip | src/brynet/utils/base64.cpp:41-123 | decoding what was encoded gives the bytes back, for every byte string |
| Base64.EncodingDecoded | src/brynet/utils/base64.cpp:41-123 | encoding what whole groups of letters decode to gives the letters back |
| Base64.EncodedLength | src/brynet/utils/base64.cpp:41-82 | the encoding has 4 characters for every 3 bytes begun |
| Base64.QuadSextets | src/brynet/utils/base64.cpp:51-54 | the masks and shifts give the sextets of the 24-bit group, as in section 4 of RFC 4648 |
| Base64.Encode | src/brynet/utils/base64.cpp:41-82 | the loop computes the encoding of section 4 of RFC 4648 |
| Base64.ThreeOctets | src/brynet/utils/base64.cpp:98-121 | the decoder's bytes are those of the group; the index 255 in slots without a letter spoils no byte that is given out |
| Base64.Decode | src/brynet/utils/base64.cpp:84-123 | the loop decodes the letters up to the first other character |
| Base64.Find | src/brynet/utils/base64.cpp:31-34 | the table's index of a letter is its value, and 255 stands for anything else |
| RingStack.Stack.Push | src/brynet/utils/stack.c:74-90 | pushing appends to the sequence, through wrap-around and doubling |
| RingStack.Stack.Increase | src/brynet/utils/stack.c:140-165 | the larger array holds the same sequence |
| RingStack.Stack.PopFront | src/brynet/utils/stack.c:105-118 | the first element is removed |
| RingStack.Stack.PopBack | src/brynet/utils/stack.c:120-132 | the last element is removed |
| Coroutines.Joins | src/brynet/utils/coroutine.c:318-335 | a coroutine that becomes ready or suspended joins the ring once |
| Coroutines.Enters | src/brynet/utils/coroutine.c:337-346 | the first of the ring can be entered: the assertion in `coroutine_goto` cannot fail |
| Coroutines.Leaves | src/brynet/utils/coroutine.c:371-378 | a coroutine that blocks or ends leaves the ring as it is |
| Coroutines.Schedule.Schedule | src/brynet/utils/coroutine.c:388-393 | the first of the ring is entered, and nothing else changes |
| Coroutines.Schedule.New | src/brynet/utils/coroutine.c:318-335 | the new coroutine has an id that was free and was never given out before, and stands at the end of the ring |
| Coroutines.Schedule.Yield | src/brynet/utils/coroutine.c:361-369 | the current coroutine is suspended and stands at the end of the ring |
| Coroutines.Schedule.Resume | src/brynet/utils/coroutine.c:380-386 | exactly a blocked coroutine joins the ring |
| Coroutines.Schedule.Finish | src/brynet/utils/coroutine.c:294-316 | the slot is emptied, and the id stays among those given out, which `New` does not give out again |
| Coroutines.Schedule.Turns | src/brynet/utils/coroutine.c:259-393 | in every run the ring holds each ready or suspended id exactly once and no other; and scheduling is fair: the id at position k of the ring is entered by the (k+1)-th call that enters one, and moves forward by one with each call before |
| CoroutineSlots.Slots.New | src/brynet/utils/coroutine.c:85-111 | with `nco` counting the live slots, the search finds a free slot: its `assert(0)` is unreachable |
| CoroutineSlots.SearchInVain | src/brynet/utils/coroutine.c:96-110 | only a table without a free slot is searched in vain |
| MsgQueues.MsgQueue.ForceSyncWrite | src/brynet/utils/MsgQueue.h:61-99 | items stay in order whichever answer the unlocked checks give and whichever way the lists are merged; with exact answers the write list is empty afterwards |
| MsgQueues.MsgQueue.LockedForce | src/brynet/utils/MsgQueue.h:76-98 | both ways of merging give the shared items followed by the written ones |
| MsgQueues.MsgQueue.TrySyncWrite | src/brynet/utils/MsgQueue.h:46-59 | the written items are handed over as a whole, into an empty shared list, or not at all; with exact answers an empty shared list takes them |
| MsgQueues.MsgQueue.SyncRead | src/brynet/utils/MsgQueue.h:129-147 | a reader without items takes over all shared ones, one with items takes none |
| MsgQueues.MsgQueue.Run | src/brynet/utils/MsgQueue.h:36-147 | in every run of one writer and one reader, the items popped and the three lists are the items pushed, in order |
| FdSets.FdSet.Add | src/brynet/net/fdset.c:113-147 | the descriptor is in the set, once, with the events asked for |
| FdSets.FdSet.Remove | src/brynet/net/fdset.c:65-85 | exactly this descriptor leaves the set |
| FdSets.FdSet.Del | src/brynet/net/fdset.c:153-178 | the events are no longer asked of the descriptor, which leaves the set exactly if nothing is asked of it any more; the others stay as they are |
| FdSets.FdSet.Visitor | src/brynet/net/fdset.c:217-228 | the descriptors with reported events are pushed, in order |
| Connectors.Answers | src/brynet/net/Connector.cpp:171-199 | answering a connection under way keeps the record in which every request is under way once or answered once |
| Connectors.Starts | src/brynet/net/Connector.cpp:283-293 | so does starting one |
| Connectors.AllAnswered | src/brynet/net/Connector.cpp:228-245 | with nothing under way, the callbacks made are exactly one for each request |
| Connectors.ConnectorWorkInfo.ProcessConnect | src/brynet/net/Connector.cpp:247-309 | a request is answered at once or gets under way, in the map and in the poll set |
| Connectors.ConnectorWorkInfo.CheckConnectStatus | src/brynet/net/Connector.cpp:145-200 | it polls once; exactly the connections that the poll reported as writable leave the map and the poll set, each with one call, of the success callback exactly if SO_ERROR is none, and no other call is made; without a positive answer nothing changes |
| Connectors.ConnectorWorkInfo.CheckTimeout | src/brynet/net/Connector.cpp:202-226 | what had timed out before the call is failed, and nothing that has not timed out when it ends |
| Connectors.ConnectorWorkInfo.CauseAllFailed | src/brynet/net/Connector.cpp:228-245 | what is under way fails, and every request taken has its one callback |
| Connectors.AsyncConnector.AsyncConnect | src/brynet/net/Connector.cpp:393-424 | a request is accepted exactly if both callbacks are given and the worker runs |
| Connectors.AsyncConnector.StopWorkerThread | src/brynet/net/Connector.cpp:360-391 | when it returns, each accepted request has had exactly one of its two callbacks, and there were no others |
| Connectors.AsyncConnector.Lifetime | src/brynet/net/Connector.cpp:321-424 | so it is for any sequence of requests and turns of the worker |

## Left out

- HttpExecute.HttpParser.Execute: `nread` is an unbounded number, because a 32-bit count wraps only within a single buffer of about 4 GiB, where the `memchr` shortcut could then miss the header limit.
- HttpExecute.HttpParser.Execute: callbacks answer 0 and leave the parser alone, because other answers (F_SKIPBODY, pausing, the HPE_CB errors) leave the parser to the application.
- HttpSplit.SplitIndependence: does not compare the callbacks of runs with errors, because an error drops the string that is being collected, so how much of it was delivered depends on the cut.
- HttpFraming.RfcFraming: the rules for the answers to HEAD and CONNECT need the request, which the parser learns only from the answer of `on_headers_complete`; several Transfer-Encoding or Content-Length lines are not one message description, though the machine and `HttpHeaderLines.HeaderLines` take them.
- HttpMessage.MessageRoundTrip: printed header values are not empty and stay on one line, because what a folded or empty value does is only in the machine.
- HttpUrl.ParseUrl: only for URLs up to 65535 bytes, because the offsets and lengths of its result are 16-bit fields.
- Non-strict mode of the HTTP parser, and characters beyond a byte.
- One message_begin per message: in a response, leading line ends repeat it (src/brynet/net/http/http_parser.c:761-770).
- `HTTPParser` and `HttpService` over several messages, WebSocket frames, `TCPService`: not part of this model.
- EventLoops.EventLoop.Loop: the eventfd's counter is unbounded, because it reaches its 64-bit limit only after as many writes without a read; IOCP is not modelled.
- DataSockets.DataSocket.QuickFlush: completion callbacks do not use the socket, because a packet queued by one would invalidate the iterator of the loop that calls it.
- DataSockets.DataSocket.NormalFlush: packets are shorter than 2 to the 31 bytes, because the length is passed to the kernel through a C int.
- DataSockets.DataSocket.OnData: the data callback consumes no more than it is shown, as the code asserts.
- DataSockets.DataSocket.Recv: the buffer's size fits a C int, and the stream of the peer is finite.
- TLS, the heartbeat timer, other users of the same event loop's queue (the queue holds the entries of one socket), Windows.
- Sha1.CSHA1.Update: lengths from 2 to the 32 minus 63 on, because the code's 32-bit sums wrap there; big-endian machines; hashing files and printing the digest.
- Base64.Encode: the masks and shifts are written as divisions and remainders of numbers below 256; lengths that do not fit the code's `int` are left out.
- RingStack.Stack.Push: allocation failures and capacities beyond a C int.
- Coroutines.Schedule.Finish: fibers and stacks are not modelled, only which coroutine runs; in the ucontext branch only the slot table is modelled.
- MsgQueues.MsgQueue.Run: `clear` and `popBack` are left out, because they are not used by the writer or the reader of the queue; waiting on the condition variable is modelled as a wait of any length.
- Connectors.AsyncConnector.StopWorkerThread: callbacks start no new connections, because they would change the map that is being walked; restarting a stopped connector is left out, and `asyncConnect` after the stop, where the code dereferences null.
- FdSets.FdSet.Poll: reports any events; the error flags of `ox_fdset_add` do nothing in the code either.
- `Timer`, `WaitGroup`, `PromiseReceive`, md5, type ids, packets, examples: easier, or not part of the logic above.
