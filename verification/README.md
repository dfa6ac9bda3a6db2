# MusicBox, modelled and proved

MusicBox is a hand-written C++ HTTP server over a library database, with a sync client and an iOS
player. This project models its four stateful parts in Dafny and proves what they promise over all
inputs, all runs and all schedules.

1. **The serving pipeline, from `recv` to `send`.** `HttpText`, `HttpGrammar`, `HttpParser`, `Fragmentation`,
   `RequestRoundTrip`, `HeaderNames` and `ParserErrors` are the incremental request parser; `ByteBuffer`, `FileStream`, `TcpConnection`
   and `HttpResponse` the way out; `Range`, `StreamRoute` and `Router` the route that streams tracks;
   `Poller`, `EventLoop`, `AnswerHistory`, `WholeServer`, `ServerEvents`, `ServerRuns` and `StreamServer` the reactor and
   what a client gets from it;
   `HttpClient`, `ResponseRoundTrip` and `ClientServer` the sync client at the other end of the wire.
   What the kernel does (bytes received, bytes accepted, EAGAIN, descriptors and heap addresses used
   again, short preads) is an input of every step, so a theorem over all inputs is one over all schedules.
2. **Library consistency.** `Database` holds the tables and their integrity, `Scanner` one scan,
   `RunScan` whole runs of the `scan` command with changing configuration and files, `Playlists` the
   membership table as sequences, `Repositories` the objects.
3. **Two concurrent protocols.** `ThreadPool` and `Migrations` are state machines over atomic steps.
4. **The player queue.** `Player`, `QueueEdits`, `UpNext` and `PlaybackController`.

What the source changes in place is a class here, with the source's fields. Each of its methods is
proved equal to a function on the object's value (`View()` or `State()`), and the theorems are about
that function; so a method that swaps two values, skips a step or takes another branch no longer
verifies, and a function changed along with it breaks a theorem.

Bytes are characters and byte strings are strings. Sizes are unbounded except where the width matters:
`Range` and `FileStream` compute in 64 bits, the client's numbers saturate as `strtol` does.

## Where the code and its documentation part

The code is followed, and the difference is a theorem.

- server/src/http/HttpRequestParser.cpp:136 against :141. A request line of exactly
  `maxRequestLineLength` bytes passes when CR and LF arrive together and fails when a feed ends between
  them; with a header limit of zero the blank line has the same fate. `FragmentationIndependence` is
  therefore an equivalence: a stream is parsed independently of how it is cut if and only if draining it
  whole meets no such line, or meets one and rejects the stream there anyway. `NeverPassesLimit` gives a
  condition on the bytes alone that rules it out, `LineAtLimitPasses` the requests that meet it.
- server/src/http/HttpRequestParser.cpp:213-216. The blank line is erased before `finishHeaders` can
  fail, so an error is not the end if the parser is kept in use (`ErrorIsNotSticky`). It can be brought to
  yield a request exactly when no transfer coding is announced and a length line fits the header limits
  (`BlankLineErrorRecovers`), and after any other error exactly when the buffer lacks only the LF of a line
  at the limit (`LineErrorRecovers`). The server closes the connection after an error.
- server/src/main.cpp:177-179 says that bytes after the first request are never read. They are read
  while an answer drains, and what they complete is answered (`SecondRequestIsAnswered`). While the
  first answer streams, the second is sent inside its body, or in place of the rest of it
  (`FirstBodyIsCut`), although docs/adr/0008-tcpconnection-streaming-body.md:74-75 rules two responses in
  flight out. A connection gets exactly its first answer if and only if no later `next` returned anything
  but "need more data" (`WireIsFirstAnswer`, `OneAnswerExactly`); the safety theorem is for those.
- docs/networking.md:99-103 asks for bounded memory with fragmenting and slow clients. Before the first answer a parser is within the limit of
  its state; after it, a client that goes on sending requests and takes nothing can make the parser and the
  outbound queue as large as it likes (`AnsweredIsUnbounded`).
- server/src/library/LibraryScanner.cpp:57 and :85-90. A walk that stops on an error still runs
  deletion detection, so it deletes the tracks whose files it has not reached, and exactly those
  (`AbortedWalkDeletes`). The reconciliation theorems take a walk that met every file.
- server/src/db/MigrationRunner.cpp:109. A migration numbered below the version a database already has
  is skipped for good; `LateMigrationsAreSkipped` says exactly when a normal return leaves the whole list applied.
- server/src/http/Range.cpp:30-50. Unknown units, several ranges and numbers above 2^64 - 1 are answered
  with 416, where RFC 7233 has the header ignored or the last position clipped (`HugeLastPosition`).
- client-ios/MusicBox/Playback/PlaybackController.swift:198 finds the playing entry again by track id.
  With the same track queued twice the index may land on the other copy, as `QueuedTwice` shows;
  `UpNextMovesExactly` says, from the list before the drag, exactly when that shows.
- client-ios/MusicBox/Playback/PlaybackController.swift:134-141. Going back does not always undo going
  on; `PreviousUndoesNext` says exactly when it does.
- shared/include/musicbox/model/Ids.hpp:22 speaks of AUTOINCREMENT. The schema has none
  (server/src/db/migrations/0001_init.sql:56), so the id of a deleted playlist may be used again;
  `DeletedIdReturns` says when. The refinement of playlists holds all the same.

## Model

| member | source | states |
|---|---|---|
| HttpText.PercentDecodeLoop | server/src/http/HttpRequestParser.cpp:26-42 | the index loop decodes escapes left to right and fails exactly on a truncated or non-hexadecimal one; its function is the left inverse of percent-encoding |
| HttpText.TrimOwsLoop | server/src/http/HttpRequestParser.cpp:44-54 | the two index loops strip blanks and tabs from both ends and nothing else |
| HttpGrammar.PercentGrammar | server/src/http/HttpRequestParser.cpp:26-42 | a text decodes to `t` if and only if it spells `t` character by character, each as it is or as a percent sign and two hexadecimal digits in either case, a percent sign never as it is |
| HttpGrammar.TrimMeaning | server/src/http/HttpRequestParser.cpp:44-54 | trimming takes away the blanks and tabs at both ends and nothing else, for every text |
| HttpGrammar.LowerMeaning | server/src/http/HttpRequestParser.cpp:56-62 | lower-casing gives the one text without 'A' to 'Z' that is the same up to the case of letters |
| HttpGrammar.HeaderLineGrammar | server/src/http/HttpRequestParser.cpp:227-237 | a header line is accepted as a key and a value if and only if it is a name and the value around its first colon, with blanks around each, the name not empty and the key the name in small letters |
| HttpGrammar.VersionGrammar | server/src/http/HttpRequestParser.cpp:169-175 | a version is "HTTP/", a digit, a dot and a digit |
| HttpParser.HttpRequestParser.Feed | server/src/http/HttpRequestParser.cpp:70-74 | fed bytes go behind the buffered ones; no other field changes |
| HttpParser.HttpRequestParser.AcceptRequestLine | server/src/http/HttpRequestParser.cpp:145-197 | the checks in their order accept or refuse a line, and take it apart, as the grammar below says |
| RequestRoundTrip.RequestLineGrammar | server/src/http/HttpRequestParser.cpp:145-193 | a line is accepted if and only if it is the line of a request with a verb, an escaped path after a slash, an optional query and a version of the form HTTP/d.d, with no blanks but the two between them |
| HttpParser.HttpRequestParser.FinishHeaders | server/src/http/HttpRequestParser.cpp:100-128 | transfer codings, unreadable lengths and lengths above the limit are refused without touching the state; otherwise the announced length is the body to wait for |
| HttpParser.HttpRequestParser.Next | server/src/http/HttpRequestParser.cpp:130-258 | the whole loop: result and every field afterwards, for every state and buffer; the loop terminates because each turn shrinks buffer and state together |
| HttpParser.StepShrinks | server/src/http/HttpRequestParser.cpp:195-254 | a turn that goes on, or takes a request out, shrinks what is left to parse |
| Fragmentation.StepStable | server/src/http/HttpRequestParser.cpp:130-258 | appending bytes changes no step that could be taken without them, and turns no failure into anything else except for a line at the limit |
| Fragmentation.NextStable | server/src/http/HttpRequestParser.cpp:130-258 | bytes that come after "need more data" act as if they had been there from the start, and a parsed request is the same with more bytes behind it |
| Fragmentation.DrainSplit | server/src/http/HttpRequestParser.cpp:130-258 | draining, feeding more and draining again yields the requests and the outcome of one draining of everything |
| Fragmentation.PiecesIndependent | server/src/http/HttpRequestParser.cpp:70-74 | from any waiting parser, any cutting of the coming bytes gives what feeding them whole gives |
| Fragmentation.FragmentationIndependence | server/src/http/HttpRequestParser.cpp:130-258 | for every stream and all limits: all cuttings yield the same requests and outcome if and only if the stream does not pass a line at the limit |
| Fragmentation.NeverPassesLimit | server/src/http/HttpRequestParser.cpp:134-143 | it holds of every stream in which from no position the first CR LF is found exactly at the limit, with a positive header limit |
| RequestRoundTrip.LineAtLimitPasses | server/src/http/HttpRequestParser.cpp:134-143 | and fails of every request whose line stands exactly at the limit |
| Fragmentation.CutAtLimit | server/src/http/HttpRequestParser.cpp:134-143 | the exception is real: whenever a line at the limit is passed, some cut makes the parser reject a stream it accepts whole |
| Fragmentation.NextShrinks | server/src/http/HttpRequestParser.cpp:130-258 | the caller's loop over `next` terminates: each request returned leaves less |
| Fragmentation.RunBounds | server/src/http/HttpRequestParser.cpp:130-258 | on every run a parser that waits retains at most the limit of its state, and its header counters stay within the limits |
| Fragmentation.DefaultRunBounds | server/include/musicbox/http/HttpRequestParser.hpp:72-75 | with the server's limits: 8192 bytes of a request line, 16384 of headers, less than 10485760 of a body |
| RequestRoundTrip.DecodeEncode | server/src/http/HttpRequestParser.cpp:26-42 | decoding undoes percent-encoding (section 2.1 of RFC 3986) for every byte string |
| RequestRoundTrip.EncodedIsPlain | server/src/http/HttpRequestParser.cpp:147-180 | an encoded path holds nothing the request line treats specially |
| RequestRoundTrip.OneRequestRoundTrip | server/src/http/HttpRequestParser.cpp:130-258 | a printed well-formed request is parsed back as sent, header names lower-cased, whatever follows it, and exactly what follows is kept |
| RequestRoundTrip.PipelineRoundTrip | server/src/http/HttpRequestParser.cpp:130-258 | any list of requests printed back to back parses to that list and leaves an empty parser, bodies with CR LF in them included |
| RequestRoundTrip.AnyCutRoundTrip | server/src/http/HttpRequestParser.cpp:130-258 | the same for every cutting of the printed bytes, with request lines below the limit |
| RequestRoundTrip.PrefixNeedsMore | server/src/http/HttpRequestParser.cpp:130-258 | no proper prefix of a request is answered early |
| HeaderNames.HeaderMapMeaning | server/src/http/HttpRequestParser.cpp:232-237 | the headers of a parsed request: the names in small letters, each with the value of the last header that has the name in whatever case |
| HeaderNames.BodyAnnounced | server/src/http/HttpRequestParser.cpp:100-128 | a header section announces a body of n bytes if and only if no header names a transfer coding and either none names a length and n is 0, or the last that does is a numeral of n within the limit |
| HeaderNames.CaseDoesNotMatter | server/src/http/HttpRequestParser.cpp:56-62 | two requests that differ in the case of header names are parsed to the same request and leave the same parser, whatever follows |
| HeaderNames.ParsedKeysAreLower | server/src/http/HttpRequestParser.cpp:237-237 | no request any stream parses to, however cut, has a header key with a letter of 'A' to 'Z' |
| ParserErrors.ErrorIsNotSticky | server/src/http/HttpRequestParser.cpp:211-218 | a stream that a new parser refuses, and bytes with which the same parser then yields a request |
| ParserErrors.LineErrorSticks | server/src/http/HttpRequestParser.cpp:130-258 | any error but one at the blank line is reported again whatever is fed, away from the line at the limit |
| ParserErrors.LineErrorRecovers | server/src/http/HttpRequestParser.cpp:134-143 | after such an error some bytes still make a request come out if and only if the buffer lacks only the LF of an acceptable line at the limit |
| ParserErrors.BlankLineErrorRecovers | server/src/http/HttpRequestParser.cpp:100-128 | after an error at the blank line, with nothing behind it, if and only if no transfer coding is announced and a length line fits the header limits; with bytes behind it, only then |
| Decimal.ParseToText | server/src/http/HttpRequestParser.cpp:114-120 | reading a printed number gives it back, and fails exactly above 2^64 - 1 |
| Decimal.PrintedIsShortest | server/src/api/Api.cpp:335-339 | no numeral of a number is shorter than the printed one |
| ByteBuffer.Buffer.Append | server/src/net/Buffer.cpp:39-53 | storage and read offset afterwards, compaction included; readers see the old bytes followed by the new |
| ByteBuffer.Buffer.Consume | server/src/net/Buffer.cpp:28-37 | the read offset moves, and a drained buffer is reclaimed |
| ByteBuffer.BufferRefinesQueue | server/src/net/Buffer.cpp:20-53 | over any run the view is the appended bytes minus the consumed prefix, and all compactions together shift at most twice the bytes consumed |
| ByteBuffer.StorageBound | server/src/net/Buffer.cpp:39-53 | the backing storage stays within twice the largest readable length |
| FileStream.ReadConserves | server/src/streaming/FileStreamSource.cpp:46-75 | whatever pread returns, bytes handed over followed by bytes left are the window, and only an empty window or destination yields nothing |
| FileStream.FileRangeResponseBody.ReadInto | server/src/streaming/FileStreamSource.cpp:46-75 | cursor and remaining count after one read, in 64-bit arithmetic that cannot wrap |
| FileStream.FileStreamSource.OpenRange | server/src/streaming/FileStreamSource.cpp:92-99 | fails exactly when the window leaves the file, without overflow in the test |
| TcpConnection.TcpConnection.ReadInto | server/src/net/TcpConnection.cpp:14-26 | received bytes go behind the inbound ones; only an error other than EAGAIN or EINTR marks the connection |
| TcpConnection.TcpConnection.FlushOutbound | server/src/net/TcpConnection.cpp:36-66 | the refill loop and the one partial send, for every sequence of preads and every answer of the kernel |
| TcpConnection.RefillKeeps | server/src/net/TcpConnection.cpp:41-49 | refilling loses and repeats no byte, ends with the stream drained or a chunk queued, and queues at most two chunks less a byte |
| TcpConnection.FlushConserves | server/src/net/TcpConnection.cpp:36-66 | wire followed by pending bytes is invariant under a flush |
| TcpConnection.ReadMeaning | server/src/net/TcpConnection.cpp:14-26 | what `recv` brings goes behind what is unread, nothing else changes but the error mark, which is set if and only if `recv` failed |
| TcpConnection.FlushErrors | server/src/net/TcpConnection.cpp:51-65 | a flush marks the connection broken if and only if `send` fails with something to send |
| TcpConnection.StreamingBound | server/src/net/TcpConnection.cpp:36-66 | over any number of flushes nothing is lost or repeated and queue and storage stay within fixed bounds |
| TcpConnection.StreamingStart | server/src/net/TcpConnection.cpp:36-66 | with head and stream set, at every point wire ++ outbound ++ unread stream is head ++ body, outbound at most max(head, 131071) bytes and the storage at most twice that, for files of any size |
| TcpConnection.FlushProgress | server/src/net/TcpConnection.cpp:36-66 | a flush in which the kernel takes a byte brings the end closer |
| TcpConnection.FlushesDrain | server/include/musicbox/net/TcpConnection.hpp:49-51 | n bytes pending are on the wire after at most n + 1 such flushes |
| HttpResponse.BuildHead | server/src/main.cpp:92-97 | the head string: status line, each header once in the map's order, blank line |
| HttpResponse.StatusLineText | server/src/http/HttpStatus.cpp:5-27 | the status line of each status, literally |
| HttpResponse.WireHeadersMeaning | server/src/main.cpp:87-90 | the headers on the wire: those of the response and "Connection: close", and for a body in memory a numeral of its length |
| ResponseRoundTrip.HeadersReadBack | server/src/main.cpp:92-97 | the lines of a head are the status line and the headers, and a header-line reader gets each name and value back |
| HttpResponse.WriteHttpResponse | server/src/main.cpp:83-123 | the connection afterwards: head queued, body queued, streamed or suppressed, close after flush requested |
| HttpResponse.WriteResponseQueues | server/src/main.cpp:83-123 | on a connection in any state: the queued part goes behind what is queued, a streaming body takes the place of the stream that is there |
| HttpResponse.InOrder | server/src/main.cpp:98-119 | a response written behind others is sent behind them if and only if no earlier stream is unread, or, for one in memory, the two texts commute |
| HttpResponse.WriteResponsePending | server/src/main.cpp:83-123 | on an idle connection what is pending is exactly the head and the body, or the head alone when the body is suppressed |
| Router.SplitPathLoop | server/src/http/Router.cpp:9-25 | the nested loops compute the split that `SplitGrammar` describes |
| Router.SplitJoin | server/src/http/Router.cpp:9-25 | splitting undoes joining, for any segments without slashes |
| Router.SplitGrammar | server/src/http/Router.cpp:9-25 | a path splits into some segments if and only if they are non-empty and without slashes and the path is these spread between slashes, one or more between two, any number at both ends |
| Router.PathRouter.AddRoute | server/src/http/Router.cpp:33-47 | rejects exactly the duplicates, changing nothing then; otherwise appends; the table stays free of duplicates |
| Router.MatchMeaning | server/src/http/Router.cpp:69-83 | a pattern matches a path if and only if some values, one in place of each "{name}" segment, turn it into the path's segments |
| Router.CaptureMeaning | server/src/http/Router.cpp:72-75 | the parameters of a filled pattern are its names, each with the value at the name's first place |
| Router.PathRouter.MatchRoute | server/src/http/Router.cpp:69-83 | the loop over segments computes that match and those parameters |
| Router.PathRouter.DispatchRequest | server/src/http/Router.cpp:49-105 | the loop over routes and segments computes `dispatch` for every table and request |
| Router.DispatchMeaning | server/src/http/Router.cpp:49-105 | the first route whose pattern fits the path by substitution, with the verb (GET for HEAD), answers with its captures; without one the answer is 405 if some pattern fits and 404 if none, each with its JSON text |
| Router.LiteralDispatch | server/src/http/Router.cpp:49-105 | on a table without parameters the request for some segments goes to the route registered for exactly these and the verb, to 405 if only other verbs are registered, to 404 if no route has them |
| Router.HeadIsGet | server/src/http/Router.cpp:85-95 | provided handlers do not look at the verb, HEAD gets the response GET gets (section 4.3.2 of RFC 7231), whatever is registered for HEAD itself |
| Range.ParseUint64 | server/src/http/Range.cpp:15-21 | succeeds exactly on digit strings whose value fits 64 bits |
| Range.ParseRange | server/src/http/Range.cpp:25-95 | the 64-bit computation equals the unbounded one on all headers and sizes: nothing wraps |
| Range.RangeMeaning | server/src/http/Range.cpp:25-95 | for every header and size: a range is selected if and only if the header denotes a single byte range in 64-bit numbers that section 2.1 of RFC 7233 resolves to it, and it lies in the file |
| Range.DenotedRange | server/src/http/Range.cpp:52-94 | a header that denotes a range is resolved as in RFC 7233, clamped at the end and for suffixes, or refused |
| Range.SatisfiableDenotes | server/src/http/Range.cpp:52-94 | nothing but such headers selects bytes |
| Range.HugeLastPosition | server/src/http/Range.cpp:78-81 | a satisfiable range with a last position above 2^64 - 1 is refused |
| StreamRoute.StreamTrack | server/src/api/Api.cpp:269-343 | the handler step by step: 400, 404, 500, 416, 200 or 206 with status, headers and body window |
| StreamRoute.StreamFile | server/src/api/Api.cpp:299-342 | from the open file on, in 64 bits: `openRange` is only asked for windows that fit |
| StreamRoute.StreamErrors | server/src/api/Api.cpp:276-297 | 400 for a text that is no positive number of 63 bits, 404 for one without a live track, 500 if the track's file does not open, each with its JSON text, and 200, 206 or 416 for all others |
| StreamRoute.RangedResponse | server/src/api/Api.cpp:300-342 | for an id and a header that denote a track and a range: when the range is satisfiable, 206 with exactly file[start..end], a length that is a numeral of their number and a Content-Range of the form "bytes a-b/c" with numerals of the two positions and the size; else 416 with "bytes */c" (section 4 of RFC 7233) |
| StreamRoute.WholeFileResponse | server/src/api/Api.cpp:312-342 | without a range 200 with the whole file, its length and media type; with any header never a server error |
| StreamRoute.RangedStreaming | server/src/net/TcpConnection.cpp:36-66 | for every file, range, short pread and partial send the wire is a prefix of head ++ file[start..end], and all of it after enough flushes |
| StreamServer.StreamPath | server/src/http/Router.cpp:9-25 | the path of a track's stream splits into the segments the route expects |
| StreamServer.StreamCaptures | server/src/http/Router.cpp:69-79 | the route captures the track's id |
| StreamServer.RangeIsFound | server/src/api/Api.cpp:300-302 | the handler's range header is the last one the client sent under that name, in whatever case |
| StreamServer.RangeIsOwed | server/src/api/Api.cpp:269-343 | a request for a track's stream whose last header named "range", in whatever case, denotes a satisfiable range is owed a 206 head that describes the selected bytes, and those bytes |
| StreamServer.RangeOverTheWire | server/src/main.cpp:150-183 | on every run of the server, a client that sent that request, with nothing behind it that completes another, and was closed after draining has received exactly that |
| Poller.MergeEvents | server/src/net/KqueuePoller.cpp:102-123 | one merged event for each descriptor that occurs, each flag set if and only if a raw event of that descriptor sets it |
| Poller.WaitResult | server/src/net/KqueuePoller.cpp:102-131 | the batch has distinct descriptors and misses none |
| Poller.EventsWereAskedFor | server/src/net/KqueuePoller.cpp:83-123 | while the kernel raises only registered filters, a descriptor is reported readable or writable only to who asked |
| Poller.KqueuePoller.Modify | server/src/net/KqueuePoller.cpp:67-72 | the filters registered with the kernel stay those of the interest table |
| Poller.KqueuePoller.Remove | server/src/net/KqueuePoller.cpp:74-81 | the same when a descriptor is dropped, known or not |
| EventLoop.EventLoop.HandleBatch | server/src/net/EventLoop.cpp:102-169 | a batch is worked off event by event: listeners by accepting, stale descriptors skipped, connections served |
| EventLoop.BatchMeaning | server/src/net/EventLoop.cpp:102-169 | the steps of a batch are, in its order, one accept for each arrival of a listener's event and each other event once |
| EventLoop.EventLoop.AcceptNewConnections | server/src/net/EventLoop.cpp:56-78 | every arrival becomes a connection registered for reading only |
| EventLoop.EventLoop.ServeEvent | server/src/net/EventLoop.cpp:124-163 | the decisions on one event in their order: error, read, callback, opportunistic flush, write, close after flush |
| EventLoop.EventLoop.HandleEvent | server/src/net/EventLoop.cpp:115-168 | the tables after one event: connection kept with its interest refreshed, or closed |
| EventLoop.EventLoop.CloseConnection | server/src/net/EventLoop.cpp:84-94 | connection, registration and parser go together and nothing else changes |
| WholeServer.OnReadableOk | server/src/main.cpp:150-181 | the callback keeps the invariant of a connection for every cut: its answers replay from the bytes received, and wire and pending output are exactly these answers in order unless one cut into a stream |
| WholeServer.StepKeepsGood | server/src/net/EventLoop.cpp:96-170 | the invariant of every wait: the poller watches exactly listeners and live connections, for writing if and only if output is pending, none is broken or due for closing, addresses are distinct, only live connections have a parser |
| WholeServer.LoopIsRun | server/src/net/EventLoop.cpp:96-170 | what the class does with its batches is a run of the model whenever the kernel's answers are legal |
| WholeServer.WholeServerSafety | server/src/main.cpp:150-183 | on every run, for all interleavings, cuts and partial sends and any reuse of descriptors and addresses: who sent one well-formed request, with nothing behind it that completes another or is refused, and was closed after draining received exactly the head and body of `dispatch` on it |
| WholeServer.WireIsFirstAnswer | server/src/main.cpp:150-181 | a connection closed after draining got its first answer and nothing else, no stream having been cut into, if and only if no later `next` returned anything but "need more data"; without such a cut it got all answers in order |
| WholeServer.OneAnswerExactly | server/src/main.cpp:158-161 | for one request followed by any bytes away from the line limit: it was answered once if and only if all had come by the first answer or what follows completes nothing |
| AnswerHistory.HistoryStep | server/src/main.cpp:150-161 | one call of the callback: answers stay the results of `next` on the bytes since the answer before |
| AnswerHistory.CompletesNothingAtOnce | server/src/http/HttpRequestParser.cpp:130-258 | away from the line limit, bytes complete nothing under any cut if and only if they complete nothing at once |
| WholeServer.HeadIsOwedTheGetHead | server/src/main.cpp:77-106 | for HEAD on a path with a GET route, with handlers that do not look at the verb, that is the head GET would have got, and nothing else |
| WholeServer.EventReachesItsConnection | server/src/net/EventLoop.cpp:115-122 | each event of a batch with distinct descriptors reaches the connection that was registered when `wait` returned |
| WholeServer.AnswerDrains | server/src/net/EventLoop.cpp:154-167 | a connection with n bytes of answer pending is drained and closed by at most n + 1 writable events, with nothing to read, in which the kernel takes a byte when offered one, whatever happens in between on others |
| ServerEvents.WhyClosed | server/src/net/EventLoop.cpp:124-168 | an event closes a connection if and only if it says that the peer is gone or the connection broken, a `send` failed, or the answer has drained; and as drained only in the last case |
| ServerEvents.AnsweredAtOnce | server/src/net/EventLoop.cpp:139-167 | an answer in memory that fits one `send` goes out with the event that completes the request, and the connection is closed with it |
| ServerEvents.RefusedOverTheWire | server/src/main.cpp:158-175 | on every run a client whose bytes are refused with the last of them, closed after draining, has received exactly one response: 400 with its JSON text |
| ServerRuns.ServedOneIsReached | server/src/net/EventLoop.cpp:96-170 | for every request below the limits and every cut of it there is a run on which it is served: accept, the pieces, and as many writable events as the answer has bytes, and one |
| ServerRuns.SecondRequestIsAnswered | server/src/main.cpp:150-181 | the callback on a connection in any state: need-more leaves the output alone; anything else is answered, behind, in front of or in place of what is unread, with the exact condition for the answers to stay in order |
| ServerRuns.SecondRequestRun | server/src/main.cpp:177-180 | a run from the start on which a client that takes nothing has two requests answered, and exactly what is then to be sent |
| ServerRuns.FirstBodyIsCut | server/src/net/TcpConnection.cpp:32-49 | if the first answer streams two chunks or more, the second is sent inside its body, or in place of bytes of it that never go out |
| ServerRuns.UnansweredIsBounded | server/src/http/HttpRequestParser.cpp:130-258 | on every run the parser of a connection that has not been answered is within the limit of its state |
| ServerRuns.AnsweredIsUnbounded | server/src/main.cpp:150-161 | after the first answer neither parser nor outbound queue is bounded: a run for every size |
| HttpClient.ReadResponse | sync-client/src/HttpClient.cpp:62-156 | the three recv loops and the header scan, for every sequence of recv results |
| HttpClient.SendAll | sync-client/src/HttpClient.cpp:40-56 | the socket got the data in order as far as the kernel was ready to take them before an error; success if and only if that is all |
| ResponseRoundTrip.BodyToClose | sync-client/src/HttpClient.cpp:119-134 | without an announced length the body is what comes before the peer closes or an error, and a success |
| ResponseRoundTrip.ClientReadsResponse | sync-client/src/HttpClient.cpp:62-156 | for every response with plain header text and a true length: in any fragmentation the client reads back the status code and the body, CR LF CR LF in the body included |
| ResponseRoundTrip.ClientOutcome | sync-client/src/HttpClient.cpp:62-156 | the same for any part of the response and any end, closing or an error: which failure is reported, or the body as far as it came |
| ResponseRoundTrip.TruncatedIsAccepted | sync-client/src/HttpClient.cpp:136-154 | the client has the whole body if and only if all bytes came, and takes less for success if and only if the peer closed within the body |
| ResponseRoundTrip.NumberMeaning | sync-client/src/HttpClient.cpp:95-118 | the number at the front of a text after blanks and a sign, saturated to its type |
| ClientServer.GetIsWellFormed | sync-client/src/HttpClient.cpp:238-246 | the head `get` prints is a well-formed request below the limits |
| ClientServer.PostIsWellFormed | sync-client/src/HttpClient.cpp:268-275 | the head `postFile` prints, followed by any file, is a well-formed request with that file as its body |
| ClientServer.ClientServerRoundTrip | sync-client/src/HttpClient.cpp:210-236 | client to server and back, on any run of the server that served its one request: the client has the status and the body of the route's answer |
| Database.MillisRoundTrip | server/src/db/TimeUtil.hpp:11-17 | a stored time reads back as itself at millisecond grain |
| Database.MillisMeaning | server/src/db/TimeUtil.hpp:11-17 | milliseconds are cut off toward zero |
| Database.UpsertSound | server/src/db/SqliteTrackRepository.cpp:200-288 | an upsert keeps keys unique and references resolved, writes exactly the row of its key, alive, under the old id if there was one |
| Database.UpsertDescribes | server/src/db/SqliteTrackRepository.cpp:200-209 | the row has the title and details given, the artist of the given name, and the album of the given title by the album artist if one is given, else by the track's artist; missing and empty names are none |
| Database.SoftDeleteSound | server/src/db/SqliteTrackRepository.cpp:290-298 | soft deletion keeps integrity and every row's identity, reports whether the row was live, marks it then, and changes nothing else |
| Database.UpsertRootSound | server/src/db/SqliteLibraryRootRepository.cpp:41-82 | find, create or revive: the path has one root, active, under its old id, and other roots are untouched |
| Scanner.ProcessFileOk | server/src/library/LibraryScanner.cpp:95-208 | one file: its row ends live with size and time, or it is skipped and nothing is written; other rows are untouched |
| Scanner.ScanReconciles | server/src/library/LibraryScanner.cpp:47-92 | integrity is kept, nothing loses its identity, inserted + updated + unchanged + skipped is the number of supported files, every row of the root without a file is deleted, other roots are untouched |
| Scanner.ScanWrites | server/src/library/LibraryScanner.cpp:95-208 | the row of every file met: as before if it is live with the file's size and millisecond time or if the file cannot be read; otherwise live with the file's size, time, hash, title, details, artist and album |
| Scanner.ScanCounts | server/src/library/LibraryScanner.cpp:47-92 | the counters, said of the tables: inserted are the rows that have become live, updated the live ones with another hash, unchanged those with the same hash that are up to date with their file, deleted those live no more, skipped the files without an up-to-date row |
| Scanner.IndexedMeaning | server/src/library/LibraryScanner.cpp:60-78 | the files met are the regular ones with one of the five extensions |
| Scanner.ScanDeletes | server/src/library/LibraryScanner.cpp:235-250 | exactly the live rows without a seen file are marked, and counted |
| Scanner.ScanIdempotent | server/src/library/LibraryScanner.cpp:47-250 | a second scan of the same files, met in any order, writes nothing: no insert, update or deletion, the first scan's inserted + updated + unchanged all unchanged, the same number skipped |
| Scanner.SurvivesIfSeen | server/src/library/LibraryScanner.cpp:80-90 | a live row survives a scan if and only if its file was met, readable or not |
| Scanner.AbortedWalkDeletes | server/src/library/LibraryScanner.cpp:57-90 | a track whose file is there, which a complete walk keeps, is deleted by one that stops early if and only if the file lies beyond that point |
| RunScan.RunOk | server/src/main.cpp:227-261 | one run from any consistent database: no live track under a retired root, only configured roots have live tracks, readable roots mirror their files, nothing loses its identity |
| RunScan.RunsOk | server/src/main.cpp:227-261 | the same over any sequence of runs with changing configuration and files |
| RunScan.OneIdForever | server/src/db/SqliteTrackRepository.cpp:211-258 | (root path, relative path) has one track id forever |
| RunScan.DropAndReturn | server/src/main.cpp:192-225 | dropping a path and adding it again later with the same readable files brings back the same live ids; no playlist changes through any of it |
| RunScan.DroppedRootIsRetired | server/src/main.cpp:200-225 | a run without a path leaves its root retired and without live tracks |
| RunScan.RunRoots | server/src/main.cpp:200-261 | the root of any path after a run: marked scanned now, active, added now if it is new, when the path is configured and there; as before when it is configured and not there; retired now if it was active when it is not configured; and without configured paths nothing changes |
| RunScan.RunTracks | server/src/main.cpp:241-247 | the tracks of a path that is configured but not there stay as they are, field by field; those of a path not configured change only by being deleted now if they were live |
| Playlists.ListingMeaning | server/src/db/SqlitePlaylistRepository.cpp:96-109 | the listing holds each member once, by increasing position |
| Playlists.ListingUnique | server/src/db/SqlitePlaylistRepository.cpp:96-109 | distinct positions leave one listing only |
| Playlists.AddListing | server/src/db/SqlitePlaylistRepository.cpp:111-157 | adding a new member appends it to its playlist |
| Playlists.AddLeavesOthers | server/src/db/SqlitePlaylistRepository.cpp:111-157 | adding to a playlist leaves the listing of every other one |
| Playlists.TakeListing | server/src/db/SqlitePlaylistRepository.cpp:159-182 | removing filters it out and leaves the gap unseen |
| Playlists.TakeLeavesOthers | server/src/db/SqlitePlaylistRepository.cpp:159-182 | removing from a playlist leaves the listing of every other one |
| Playlists.StepRefines | server/src/db/SqlitePlaylistRepository.cpp:59-182 | create, remove, add and take on the tables are the operations on sequences: append if and only if absent, filter |
| Playlists.PlaylistsRefineSequences | server/src/db/SqlitePlaylistRepository.cpp:59-182 | over any sequence of operations the tables behave as one sequence per playlist, positions distinct throughout |
| Playlists.DeletedIdReturns | server/src/db/SqlitePlaylistRepository.cpp:59-94 | the next `create` returns the id of a deleted playlist if and only if it is one above the largest left, or 1 with none left |
| Playlists.PlaylistRows | server/src/db/SqlitePlaylistRepository.cpp:59-182 | the row of every playlist after an operation: name and times of a new one, the time of the last change set if and only if the listing changes |
| Repositories.OperationsRefineSequences | server/src/db/SqlitePlaylistRepository.cpp:96-182 | the same refinement over operations on all tables, upserts that add tracks included |
| Repositories.TablesStaySound | server/src/db/SqliteTrackRepository.cpp:26-76 | over any sequence of repository operations (root, path), artist names, (album title, album artist or none) and root paths stay unique, all references resolve, positions stay distinct |
| Repositories.LibraryDatabase.FindOrCreateArtist | server/src/db/SqliteTrackRepository.cpp:26-42 | the artist row found or created; none for a missing or empty name |
| Repositories.LibraryDatabase.FindOrCreateAlbum | server/src/db/SqliteTrackRepository.cpp:49-76 | the album row found or created, no album artist being one identity |
| Repositories.LibraryDatabase.UpsertTrack | server/src/db/SqliteTrackRepository.cpp:200-288 | all tables after an upsert, and its id |
| Repositories.LibraryDatabase.SoftDeleteTrack | server/src/db/SqliteTrackRepository.cpp:290-298 | marks a live row and reports whether it did |
| Repositories.LibraryDatabase.FindOrCreateRoot | server/src/db/SqliteLibraryRootRepository.cpp:41-82 | find, create or revive in place |
| Repositories.LibraryDatabase.RetireRoot | server/src/db/SqliteLibraryRootRepository.cpp:92-98 | marks the root retired |
| Repositories.LibraryDatabase.InsertPlaylist | server/src/db/SqlitePlaylistRepository.cpp:59-74 | a new empty playlist under the next id |
| Repositories.LibraryDatabase.ComputeNextPosition | server/src/db/SqlitePlaylistRepository.cpp:132-137 | one above the largest position, 0 for an empty playlist |
| Repositories.LibraryDatabase.AddPlaylistTrack | server/src/db/SqlitePlaylistRepository.cpp:111-157 | membership row and time stamp, or no change for an unknown id or a member |
| Repositories.LibraryDatabase.RemovePlaylistTrack | server/src/db/SqlitePlaylistRepository.cpp:159-182 | membership row dropped and time stamp set if it was there |
| Repositories.LibraryDatabase.DeletePlaylist | server/src/db/SqlitePlaylistRepository.cpp:86-94 | the playlist goes with all its membership rows |
| Repositories.LibraryScanner.ProcessOne | server/src/library/LibraryScanner.cpp:95-184 | the branches on one file, with the tables and the counter each leaves |
| Repositories.LibraryScanner.DetectDeletions | server/src/library/LibraryScanner.cpp:235-250 | the loop marks exactly the unseen live rows and counts them |
| Repositories.LibraryScanner.ScanRoot | server/src/library/LibraryScanner.cpp:47-92 | the walk loop with its seen set and counters, then deletion detection |
| Repositories.RetireUnconfiguredRoots | server/src/main.cpp:200-225 | the loops over roots and tracks retire exactly the active roots that are not configured, with their tracks |
| Repositories.RunScanCommand | server/src/main.cpp:227-261 | the command, path by path, keeps the database consistent |
| ThreadPool.StepKeepsInv | server/src/net/ThreadPool.cpp:12-47 | every step of every thread keeps the invariant, spurious wakeups included |
| ThreadPool.PoolIsSafe | server/src/net/ThreadPool.cpp:12-47 | on every run tasks start in enqueue order, each once; no task and no stop flag waits while all live workers sleep with no notification to come; when the last worker has returned the queue is empty and every task started |
| ThreadPool.ShutdownProgress | server/src/net/ThreadPool.cpp:12-23 | once `notify_all` is done every possible step makes progress |
| ThreadPool.ShutdownNeverStuck | server/src/net/ThreadPool.cpp:33-47 | and a worker that has not returned can always take its next step |
| ThreadPool.ShutdownEnds | server/src/net/ThreadPool.cpp:12-23 | so joining ends, with every task started |
| ThreadPool.TaskQueue.Enqueue | server/src/net/ThreadPool.cpp:25-31 | the critical section: new work goes to the back, a notification is due |
| ThreadPool.TaskQueue.TakeTask | server/src/net/ThreadPool.cpp:36-44 | the critical section of a worker: sleep, return, or leave with the front of the queue |
| Migrations.RacingMigrations | server/src/db/MigrationRunner.cpp:96-123 | for any number of connections, any interleaving and any failing transactions: the log grows by an ascending prefix of the migrations above its version, each once, and a normal return leaves all of them applied |
| Migrations.FromEmpty | server/src/db/MigrationRunner.cpp:96-123 | from an empty database: always an ascending prefix of the sorted list, the whole list once a connection has returned normally |
| Migrations.LateMigrationsAreSkipped | server/src/db/MigrationRunner.cpp:109-111 | on any database a normal return leaves the whole list applied if and only if none at or below the current version was missing |
| Migrations.CurrentIsMax | server/src/db/MigrationRunner.cpp:49-63 | the current version is the largest applied one, or 0 |
| Migrations.SchemaTable.ApplyMigrations | server/src/db/MigrationRunner.cpp:96-123 | the loop without rivals: everything pending, or everything before the migration that fails, and that exactly if one fails |
| Migrations.VersionDigits | server/src/db/MigrationRunner.cpp:24-37 | a version prefix is a non-empty run of digits followed by an underscore |
| Player.RunKeepsValid | client-ios/MusicBox/Playback/PlaybackController.swift:93-247 | in every reachable state the shuffle order is a permutation of the queue's indices and the current index is nil or in range |
| Player.CycleVisitsAll | client-ios/MusicBox/Playback/PlaybackController.swift:228-247 | under repeat-all, shuffled or not, as many skips as there are tracks visit every index exactly once and return to the start |
| Player.PreviousUndoesNext | client-ios/MusicBox/Playback/PlaybackController.swift:130-141 | skipping back undoes skipping on if and only if repeat-all is on, or there is a next track, or only one track, or the track was past three seconds |
| Player.MoveKeepsTracks | client-ios/MusicBox/Playback/PlaybackController.swift:196-196 | moving rows keeps every track exactly as often |
| Player.MoveKeepsPlaying | client-ios/MusicBox/Playback/PlaybackController.swift:194-201 | dragging never changes the id of the track that plays |
| Player.RemoveKeepsPlaying | client-ios/MusicBox/Playback/PlaybackController.swift:206-217 | removing rows stops playback if and only if every entry with the playing id is removed, which is the playing row when the id is queued once; otherwise an entry with that id plays on |
| Player.PlayNextIsNext | client-ios/MusicBox/Playback/PlaybackController.swift:170-177 | "play next" leaves the playing track alone and, unshuffled, is what the next skip plays |
| QueueEdits.PlayStarts | client-ios/MusicBox/Playback/PlaybackController.swift:93-99 | the queue becomes the list and the track at the start index plays from its start, modes as before; an index outside changes nothing |
| QueueEdits.ItemStarts | client-ios/MusicBox/Playback/PlaybackController.swift:160-164 | the entry chosen plays from its start, and queue, order and modes stay |
| QueueEdits.EndedMeaning | client-ios/MusicBox/Playback/PlaybackController.swift:281-288 | a track that ends is heard again under repeat-one, otherwise the next in order, round again under repeat-all; at the end playback pauses |
| QueueEdits.PreviousMeaning | client-ios/MusicBox/Playback/PlaybackController.swift:134-141 | past three seconds the same track from its start, otherwise the one before in order, from the first the last under repeat-all and else the first |
| QueueEdits.ShuffleMeaning | client-ios/MusicBox/Playback/PlaybackController.swift:143-146 | only the order changes: to what was drawn, or back to the queue's own |
| QueueEdits.ControlsMeaning | client-ios/MusicBox/Playback/PlaybackController.swift:110-150 | pausing, resuming, seeking and the repeat mode change just that; resuming needs a current track and with one undoes pausing |
| QueueEdits.SelectPlaces | client-ios/MusicBox/Playback/PlaybackController.swift:196-208 | of the entries that stay, or move, each goes to the number of those before it |
| QueueEdits.MovedPlaces | client-ios/MusicBox/Playback/PlaybackController.swift:196-196 | the place every entry has after a move |
| QueueEdits.RemovePlaces | client-ios/MusicBox/Playback/PlaybackController.swift:208-208 | the place every entry that stays has after a removal |
| QueueEdits.QueuedThere | client-ios/MusicBox/Playback/PlaybackController.swift:170-189 | a track queued next or last is there, what is heard goes on, and with nothing playing it starts |
| QueueEdits.RemoveUndoesQueueing | client-ios/MusicBox/Playback/PlaybackController.swift:170-217 | removing what was queued gives the queue back |
| UpNext.RowsAreTheRest | client-ios/MusicBox/Views/QueueView.swift:80-87 | the rows are the queue without the playing entry, each tagged with its own offset |
| UpNext.MoveAroundCurrent | client-ios/MusicBox/Views/QueueView.swift:48-54 | a mapped move in the queue moves the rows around the playing entry |
| UpNext.UpNextMovesExactly | client-ios/MusicBox/Views/QueueView.swift:48-54 | for every drag: the queue is the moved list with the playing entry in a slot computed from the drag, and the list shows as moved if and only if, above that slot in the moved list, only copies of the playing track stand from the first entry of its id on |
| UpNext.QueuedTwice | client-ios/MusicBox/Playback/PlaybackController.swift:194-201 | with a track queued twice, a drag that moves nothing reorders the list |
| UpNext.UpNextMoves | client-ios/MusicBox/Views/QueueView.swift:48-54 | when no other entry has the playing id, mapping, moving and dropping the playing track is moving within Up Next, and the same track plays |
| PlaybackController.PlaybackController.PlayTracks | client-ios/MusicBox/Playback/PlaybackController.swift:93-99 | all fields afterwards; an index out of range changes nothing |
| PlaybackController.PlaybackController.Advance | client-ios/MusicBox/Playback/PlaybackController.swift:228-247 | all fields after one step along the order: wrapped, clamped at the front, or paused at the end |
| PlaybackController.PlaybackController.SkipToPrevious | client-ios/MusicBox/Playback/PlaybackController.swift:134-141 | rewinds past three seconds, else goes back |
| PlaybackController.PlaybackController.HandlePlaybackEnded | client-ios/MusicBox/Playback/PlaybackController.swift:281-288 | repeat-one rewinds, otherwise the next track |
| PlaybackController.PlaybackController.SetShuffle | client-ios/MusicBox/Playback/PlaybackController.swift:143-146 | the order is drawn anew or restored, and stays a permutation |
| PlaybackController.PlaybackController.PlayNext | client-ios/MusicBox/Playback/PlaybackController.swift:170-177 | inserted behind the current entry, or played if nothing is |
| PlaybackController.PlaybackController.MoveQueueItems | client-ios/MusicBox/Playback/PlaybackController.swift:194-201 | queue, order and index after a move |
| PlaybackController.PlaybackController.RemoveQueueItems | client-ios/MusicBox/Playback/PlaybackController.swift:206-217 | queue, order and index after a removal, playback stopped if the playing track is gone |

## Left out

- System calls (epoll, kqueue, select, accept, send, recv, pread) are inputs that obey their contracts; EINTR in `pread` is folded into its retry loop, and a failing `pread`, which throws out of the event loop, is not modelled.
- A file is taken to keep its content while it is streamed; a shrinking file ends its stream early in the code and is not modelled.
- SQLite, SQL text, statement binding and WAL: tables are maps, a transaction is one atomic step. Searching, collation, paging and renaming of playlists add only easy members.
- SHA-256, TagLib, JSON and TOML: hash and metadata are attributes of a file in a walk, the JSON text of an error is an uninterpreted function of code and message.
- API handlers other than the stream route are arbitrary functions from requests to responses whose streams fit their file.
- Directory traversal, symlinks and path strings: the scanner gets the entries a walk meets, each path once.
- `std::sort` in the migration runner is a relation (ascending, same elements); `std::stoll` behind `parseVersionPrefix` is left out.
- Widths of `size_t`, row ids, positions and time stamps: no wrap-around is modelled there. 64-bit widths are modelled in `Range` and `FileStream`.
- Heap aliasing in the event loop: its class keeps each connection as a value keyed by descriptor, with the heap address as an attribute that may be reused. `TcpConnection`, `Buffer` and the parser exist as classes of their own, proved equal to the functions the event loop applies to those values. The interest table is a map there; `KqueuePoller` shows how it is kept in the kernel.
- The three repositories on one database file share one `LibraryDatabase` object. Two processes on one file are modelled for migrations only.
- `EventLoop.stop`, logging, the listener's own accept loop beyond its results, and destructors other than the thread pool's.
- Exceptions thrown by a task of the thread pool, which end the process.
- ThreadPool.TaskQueue.TakeTask: one critical section at a time; fairness of the condition variable is not modelled, so what is proved of running tasks is safety, and termination after the stop.
- HttpClient.ReadResponse: header text is split and numbers read as `getline`, `operator>>` and `strtol` do in the C locale; connecting and reading the file are left out.
- ResponseRoundTrip.ClientReadsResponse: supposes that header names hold no colon and header text no line breaks, that no other spelling of Content-Length is set, and that a streaming response sets its length, as the stream route does; so do ClientOutcome and TruncatedIsAccepted.
- Migrations.RacingMigrations: supposes distinct versions; of two files with one number the code applies whichever its sort puts first and skips the other.
- UpNext.UpNextMoves: supposes that no other entry is the playing track; `UpNextMovesExactly` has no such condition.
- Router.HeadIsGet: supposes, like WholeServer.HeadIsOwedTheGetHead, that no handler looks at the verb, which the router does not enforce.
- ParserErrors.BlankLineErrorRecovers: with bytes behind the blank line only the necessary half, as what they are decides the rest.
- `AVPlayer`, lock screen, duration and error text of the player; views other than the index mapping of the queue view; `play()` calls on a running player.
- `ManifestDiffer`, `SyncEngine`, `QueryString`, `RepeatMode.next`, settings, deployment and fixtures would add only easy members.
