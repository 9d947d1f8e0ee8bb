# DIAL server and client: a verified model

This project models the DIAL reference server (C, with a cut-down Mongoose HTTP engine) and
its test client (C++), and proves what their parts promise each other:

* **Connections** (`SocketRing`, `WorkerPool`, `Serving`, `Shutdown`): one master thread accepts
  sockets into a ring of 20 slots, worker threads take them out and serve them. `WorkerPool`
  interleaves all threads step by step, with the mutex, the three condition variables, spurious
  wakeups, start-up and shutdown; `Serving` follows every connection from accept() to its end;
  `Shutdown` says exactly when shutdown completes.
* **HTTP** (`RequestHead`, `Connection`, `RequestParser`, `UriPath`, `HttpEngine`,
  `RequestRoundTrip`): finding the head of a request in a byte stream that arrives in pieces,
  parsing it in place, rewriting the URI in place, delivering and discarding the body. The
  methods work on one array as the C code does; the specification functions say what they
  compute; `RequestRoundTrip` joins all of it.
* **Codecs and data** (`UrlLib`, `XmlEscape`, `LaunchQuery`, `DialData`): URL and XML
  encoding under size limits, the launch query, and DIAL data on its way from a query to a
  file and back.
* **The server's core** (`Origins`, `DialApps`, `Handlers`, `Callbacks`, `Registry`,
  `StatusReply`, `Registration`, `Routing`, `Peer`): cross-origin lists, the handlers as
  functions, as small interleaved steps and as methods on the linked list, the callbacks they
  call, runs of registrations, and the router.
* **The server as a whole** (`RequestHandler`, `RequestRouting`, `DialService`, `AppRequests`):
  the request handler with its checks, one request from its bytes to the applications, and each
  kind of request from its bytes to the answer and what it leaves behind.
* **The client** (`StatusReader`, `DialClient`, `Ssdp`, `Discovery`): the client's parsers against the
  server's formats, and the table of discovered servers.

`Wrappers`, `CStrings`, `Collecting` and `Numbers` hold what all of them use. A C `char` is a
`char` below 256, a C string is a `string` without NUL, and a buffer is an array whose
C strings are described by `HoldsAt`. The socket is a byte sequence with a schedule of piece
sizes, a file a character sequence, and a callback an arbitrary result.

Where the code and its documentation differ, the model follows the code:

* the comment on `host_matches` promises any subdomain for a leading star; the code accepts
  exactly one label (`Origins.NoSecondLevel`);
* the comment on `origin_matches` speaks of a scheme before the star; the code accepts a
  final star after any text (`Origins.OriginMatchesIsAllowed`);
* `DIAL_get_payload` is documented to return a NUL-terminated string; a payload of 4096
  characters has no NUL, and one of an application that was never started is what the
  allocated memory held (`Handlers.PayloadHasNul`);
* the comment at the check for the local host says that others are refused; the comparison of
  address texts lets some others through (`Peer.LocalAddresses`);
* the path cleaner is named for removing double slashes, but can leave two in a row
  (`UriPath.CleanLeavesDoubleSep`);
* the comment on `mg_stop` promises that it waits until all threads are stopped; that wait
  may never end, for two reasons: a worker that holds the mutex and is about to sleep misses
  the broadcast, which is made without the mutex, or the master sleeps until there is room in
  a full ring while all workers leave without making any. It can happen exactly when the flag
  is set in a state that the two reasons describe (`Shutdown.ShutdownStallsExactly`).

Two things that work for most inputs, with the exact condition:

* the URLs of an application with a plain name (1 to 255 characters without `/`, `\`, `%`, `?`
  and NUL, which the URL syntax takes) lead to it, for a permitted origin, a good
  Content-Length and a query without a blank line, unless the name has a space, where the
  request line parser cuts the URI, or a blank line, where the head ends, or starts with two
  dots, which the path cleaner removes (`RequestRouting.SentNameIsReached`); and they do so
  however the stream is cut unless, besides, the head does not fit the buffer or holds a
  disallowed control character (`RequestRouting.ReachedHoweverCut`); written with escapes, a
  name with a space, a percent sign or a question mark survives too
  (`Routing.EncodedPathSurvives`);
* a client recovers the wakeup fields from the server's reply unless the uuid holds
  `WAKEUP:` and such a field with another value behind it (`Ssdp.ReplyRoundTrip`,
  `Ssdp.MisleadingUuid`).

`dafny verify dfyconfig.toml` checks the project.

## Model

| member | source | states |
|---|---|---|
| SocketRing.RebaseOnce | server/mongoose.c:793-798 | from the indices that occur, the loop that rebases head and tail runs at most once: it subtracts 20 from both exactly when the tail is past the end |
| SocketRing.PutAppends | server/mongoose.c:877-881 | queuing a socket appends it to the waiting ones, whatever slot the head wraps to, and keeps the index bounds |
| SocketRing.TakeRemovesOldest | server/mongoose.c:788-798 | taking a socket removes the oldest one; the rebase by 20 changes neither the slots used nor the order of the others |
| SocketRing.SocketQueue.Produce | server/mongoose.c:877-881 | the ring on its array and counters does what the ring as a value does |
| SocketRing.SocketQueue.Consume | server/mongoose.c:788-798 | it returns the oldest socket and leaves the ring without it, rebased |
| WorkerPool.SocketsAreFifo | server/mongoose.c:773-804 | in every run of master and any number of workers: arrived sockets = delivered ones, then the ring's contents, then the one in the master's hand (no loss, no duplicate, no reordering) |
| WorkerPool.AssertionsHold | server/mongoose.c:787-876 | whenever a thread is about to check one of the three assertions it holds: the ring is not empty when a socket is taken, not full when one is put in, and num_threads is not negative after a decrement |
| WorkerPool.MutualExclusion | server/mongoose.c:773-804 | no two threads are ever inside the mutex together, in any of its three kinds of critical section |
| WorkerPool.NoLostWakeup | server/mongoose.c:778-800 | while stop_flag is 0 and the mutex is free: a sleeping worker implies that at most as many sockets are queued as there are woken workers that have yet to reacquire the mutex; a sleeping master implies a full ring |
| WorkerPool.PoolNeverStuck | server/mongoose.c:870-886 | while stop_flag is 0 and some worker has been started, some worker or the master can take a step, without counting on spurious wakeups: they are never all asleep |
| WorkerPool.ThreadCountIsExact | server/mongoose.c:842-851 | in every reachable state num_threads is not negative, and, outside the moment between starting a worker and counting it, equal to the number of started workers that have not yet decremented it |
| WorkerPool.JoinWaitsForEveryWorker | server/mongoose.c:911-937 | once the master has left its join loop, and whenever stop_flag is 2, num_threads is 0 and every worker has finished or was never started |
| WorkerPool.FreedAfterLastUse | server/mongoose.c:942-956 | once the context is freed no thread has a step left that touches it |
| WorkerPool.FreedMeansStopped | server/mongoose.c:947-956 | mg_stop frees the context only with stop_flag 2 and the master finished |
| Shutdown.NoStepMeansAsleep | server/mongoose.c:773-937 | in every reachable state, before and after mg_stop: no worker and not the master can go on if and only if every worker is asleep, finished or never started and the master is asleep or finished |
| Shutdown.StepKeepsExitWake | server/mongoose.c:842-923 | the invariant of the third condition variable: every step keeps that the master, when it is about to wait for the exit of workers, has some left, and, when it waits, some are left or the last one is about to signal |
| Shutdown.StepIsWork | server/mongoose.c:773-937 | once stop_flag is set, every step of a worker or of the master uses up a natural number |
| Shutdown.ShutdownCompletes | server/mongoose.c:911-956 | when mg_stop is called in neither of the two states below, no run gets stuck before the master has finished, and the steps that are left are bounded |
| Shutdown.ShutdownStallsExactly | server/mongoose.c:773-956 | from a reachable state in which mg_stop is called, some run gets stuck before the master has finished if and only if a worker is about to sleep while the master is accepting, so that it misses the broadcast, or the ring is full, the master has or may still get a socket to queue, and no worker is about to take one |
| Shutdown.ShutdownMayStall | server/mongoose.c:870-937 | both kinds occur with one worker: it sleeps through the broadcast, made without the mutex, while the master waits for its exit; or it leaves without a signal for room in the ring while the master waits for room |
| WorkerPool.StepKeepsInv | server/mongoose.c:773-1003 | every step of every thread keeps the joint invariant of mutex, queue, wakeups, thread count and shutdown order |
| Serving.WorkersServeWhatTheyTake | server/mongoose.c:819-838 | over every run: the sockets that a worker has taken are those that it has served, in that order, and then the one in its hand, if any; it serves without the mutex, and its hand is empty when it takes one, sleeps or leaves |
| Serving.TakenIsServedOrInHand | server/mongoose.c:819-838 | every socket taken from the ring has been served or is in a worker's hand, counted with repetitions over all workers |
| Serving.NothingAcceptedIsDropped | server/mongoose.c:864-886 | the sockets that accept() returned are, in that order, those of which the first-in-first-out law speaks |
| Serving.RestMeansAllServed | server/mongoose.c:773-886 | when, with stop_flag 0 and a worker started, no worker and not the master can go on but by accepting, every socket that accept() returned has been served |
| Serving.BusyStepIsWork | server/mongoose.c:773-886 | every step but an accept, a wakeup without a cause and those of the controlling thread uses up a natural number |
| Serving.PoolComesToRest | server/mongoose.c:773-886 | so without new connections the pool comes to rest after boundedly many steps |
| Serving.WorkersAreStarted | server/mongoose.c:996-1003 | the workers that run are exactly those for which pthread_create succeeded |
| Serving.EveryWorkerIsTried | server/mongoose.c:996-1003 | mg_start returns only after it has tried to start every worker |
| RequestHead.GetRequestLen | server/mongoose.c:481-500 | the scan loop computes the specification's scan, with its early exit |
| RequestHead.RequestLenMeaning | server/mongoose.c:481-500 | positive exactly when the buffer has a blank line, and then the length of the head up to the first one; -1 exactly when there is none and a byte before the last is a disallowed control character; else 0 |
| RequestHead.DisallowedCodes | server/mongoose.c:481-500 | the disallowed characters: all below 32 but line feed and carriage return, and 127 |
| RequestHead.RequestLenIsStable | server/mongoose.c:481-500 | a length once found on a prefix is found again on every longer buffer |
| RequestHead.Socket.Pull | server/mongoose.c:371-377 | recv: some non-empty first part of what the peer sends, as long as there is something |
| RequestHead.ReadRequest | server/mongoose.c:572-588 | the receive loop computes the specification's loop, for every schedule of pieces |
| RequestHead.ReadLoopConserves | server/mongoose.c:572-588 | no byte is lost or duplicated between socket and buffer |
| RequestHead.ReadLoopOnWindow | server/mongoose.c:572-588 | without a disallowed character before the end of the head, the loop's answer is that of the scan on the first bufsiz bytes |
| RequestHead.SegmentationTheorem | server/mongoose.c:572-588 | the answer is the same for all ways of cutting the stream if and only if no disallowed character precedes the end of the head |
| RequestHead.HeadReceived | server/mongoose.c:734-746 | after success the head is the stream's, and buffer rest plus socket rest is exactly what follows it |
| RequestHead.LongHeadIsTooLarge | server/mongoose.c:572-588 | a head longer than the buffer, without a disallowed character in the part that fits, is too large however the stream is cut: the buffer is full and no head was found |
| Connection.HttpConnection.ReadHead | server/mongoose.c:665-671 | a fresh request resets the counters and reads a head |
| Connection.HttpConnection.ReceiveHead | server/mongoose.c:729-747 | too large, closed or ready, each exactly when the receive loop says so; ready leaves the bytes after the head to be delivered |
| Connection.HttpConnection.CopyBuffered | server/mongoose.c:397-410 | the part of mg_read that hands out bytes that came with the head |
| Connection.HttpConnection.PullBody | server/mongoose.c:412-423 | the part of mg_read that reads on from the socket, over any pieces |
| Connection.HttpConnection.MgRead | server/mongoose.c:379-427 | a read of any size hands out exactly the next bytes of the body, at most as many as Content-Length leaves, keeps the entry assertion, and writes only its part of the destination |
| Connection.AfterLeavesRest | server/mongoose.c:379-427 | handing out n bytes leaves the rest of body and stream, and takes max(0, n - buffered) bytes from the socket |
| Connection.ReadsDeliverBody | server/mongoose.c:379-427 | any sequence of reads of any sizes hands out the body from its start, each byte once, capped by Content-Length or end of stream |
| Connection.HttpConnection.DiscardLoop | server/mongoose.c:715-726 | the discard loop ends, with exactly the rest of the body consumed |
| Connection.HttpConnection.DiscardCurrentRequest | server/mongoose.c:704-727 | afterwards nothing of the body is left: Content-Length bytes are consumed or the stream has ended |
| RequestParser.FindWord | server/mongoose.c:221-242 | strcspn and strspn: where the word and the whitespace behind it end |
| RequestParser.SkipQuoted | server/mongoose.c:221-242 | cuts one word off in place: the word is a C string where it was, the rest is the specification's rest, and nothing outside is written |
| RequestParser.ParseHeader | server/mongoose.c:526-535 | one turn of the header loop, name and value in place |
| RequestParser.ParseHttpHeaders | server/mongoose.c:526-535 | the loop stores the headers that the specification collects, at most 16 |
| RequestParser.ParseRequestLine | server/mongoose.c:545-557 | method, URI and version are cut off in place |
| RequestParser.ParseHttpRequest | server/mongoose.c:545-565 | in place: succeeds exactly when the specification accepts, every string lies where the request info says, and no byte from the end mark on is written |
| RequestParser.ParseInvertsRender | server/mongoose.c:526-565 | rendering any allowed request and parsing it gives method, URI, version and the first 16 headers back, whatever follows the head |
| RequestParser.StoresRenderedHeaders | server/mongoose.c:526-535 | the header part of that round trip, for any number of headers |
| UriPath.UrlDecode | server/mongoose.c:450-475 | decoding with source and destination the same buffer gives what decoding into another buffer gives, cut to the destination's size |
| UriPath.DecodeInvertsEncodeAll | server/mongoose.c:450-475 | decoding undoes percent-encoding of any octets (section 2.1 of RFC 3986) |
| UriPath.DecodeIsIdentity | server/mongoose.c:450-475 | a text without percent signs (and pluses in form data) is left alone |
| UriPath.DecodeIsReading | server/mongoose.c:450-475 | decoding gives s if and only if the text reads as s: a percent sign with two hex digits in either case stands for the octet with that value, any other percent sign and every other character for itself (a plus for a blank in form data) |
| UriPath.DecodeInvertsAnyCase | server/mongoose.c:450-475 | so decoding undoes percent-encoding for every choice of upper and lower case, digit by digit (section 2.1 of RFC 3986) |
| UriPath.CleanRemovesDoubleDots | server/mongoose.c:504-522 | in a cleaned path no slash or backslash is directly followed by two dots |
| UriPath.CleanHasNoStepUp | server/mongoose.c:504-522 | that is, a cleaned path nowhere holds /.. or the same with a backslash |
| UriPath.CleanKeepsOthers | server/mongoose.c:504-522 | the cleaner keeps all other characters, in their order, and drops dots in pairs only |
| UriPath.CleanLeavesOut | server/mongoose.c:504-522 | the cleaned path is a subsequence of the path |
| UriPath.CleanIsIdentity | server/mongoose.c:504-522 | the cleaner changes a path if and only if a separator is directly followed by another one or by two dots |
| UriPath.CleanLeavesDoubleSep | server/mongoose.c:515-518 | two separators in a row are left if and only if some separator is followed by double dots and a separator |
| UriPath.CleanIsIdempotent | server/mongoose.c:504-522 | cleaning twice is cleaning once if and only if that pattern is absent |
| UriPath.CleanNotIdempotent | server/mongoose.c:504-522 | the path /../b takes two rounds |
| UriPath.CleanLoop | server/mongoose.c:504-522 | the loop computes the specification although it writes the buffer it reads |
| UriPath.CleanInPlace | server/mongoose.c:504-522 | the C string left behind is the cleaned one, and nothing outside it is written |
| UriPath.DecodeInPlace | server/mongoose.c:594-603 | decoding the path part in the request buffer |
| UriPath.CutQuery | server/mongoose.c:594-600 | the query is split off at the first question mark |
| UriPath.HandleUri | server/mongoose.c:594-603 | query split, decoding and cleaning, all in one buffer, leave the handled path at the URI's place and the query untouched behind it |
| HttpEngine.FindHeader | server/mongoose.c:250-259 | the first header with this name in any case |
| HttpEngine.GetHeaderIsFirst | server/mongoose.c:250-259 | get_header gives the value of the first header whose name is the same but for the case of ASCII letters, and nothing exactly when there is none |
| HttpEngine.ContentLengthMeans | server/mongoose.c:758-763 | the first Content-Length header, read as white space, sign and digits: the request is refused exactly for a negative number, and any other one is the length, up to the largest long long |
| HttpEngine.NoContentLength | server/mongoose.c:758-763 | without that header nothing is refused and the length is -1 |
| Numbers.StrToLLMeans | server/mongoose.c:758-760 | strtoll: white space, an optional sign and the decimal digits up to the first other character, saturating at both ends |
| HttpEngine.ParseReceived | server/mongoose.c:748-750 | NUL-terminates the head and parses it; no byte behind the head is written |
| HttpEngine.RunCallback | server/mongoose.c:379-427 | a callback that makes reads of any sizes gets the body's start |
| HttpEngine.SetContentLength | server/mongoose.c:758-763 | a negative Content-Length is refused; none is -1 |
| HttpEngine.ServeBody | server/mongoose.c:764-767 | callback and discarding together consume exactly the body |
| HttpEngine.RewriteUri | server/mongoose.c:594-603 | handle_request: the handled path replaces the URI, the query stays behind it, and nothing else of the buffer changes |
| HttpEngine.RequestStays | server/mongoose.c:594-603 | rewriting the URI in the buffer leaves the method, the version and every header as parsed |
| HttpEngine.PrepareRequest | server/mongoose.c:751-763 | the checks after parsing, in their order: bad request, version, Content-Length; after them the callback's strings are in place, the path handled, and the body to be delivered is what follows the head |
| HttpEngine.Prepare | server/mongoose.c:729-763 | 413 exactly when the buffer is full without a head, closed exactly when the stream ends or a disallowed byte comes first; an accepted request was parsed from the head of the stream |
| HttpEngine.ProcessNewConnection | server/mongoose.c:729-769 | which refusal is sent; else the callback finds the strings of the request, with the decoded and cleaned path for the URI, and gets the body's first bytes; exactly the bytes after the body are left |
| RequestRoundTrip.RenderedHeadEnds | server/mongoose.c:481-500 | the end of a rendered head is the head detector's |
| RequestRoundTrip.HeadIsAlwaysFound | server/mongoose.c:572-588 | a rendered head without control characters that fits the buffer is found for every way of cutting the stream |
| RequestRoundTrip.SentIsParsedBack | server/mongoose.c:545-565 | what the parser makes of the received head is the request that was sent, with 16 headers at most |
| RequestRoundTrip.AnswerMeans | server/mongoose.c:751-763 | 505 exactly for a version other than 1.0 and 1.1; else 400 exactly for a negative first Content-Length; else accepted |
| RequestRoundTrip.UnknownMethodIsRefused | server/mongoose.c:545-565 | a request line whose method is none of GET, POST, DELETE and OPTIONS, or whose version does not start with HTTP/, is answered 400 |
| RequestRoundTrip.PrepareSent | server/mongoose.c:729-763 | up to the callback: the answer is that for the request sent, its strings are in place with the URI decoded and cleaned, and its body is to be delivered |
| RequestRoundTrip.ServeSent | server/mongoose.c:729-769 | end to end: the callback reads the body sent, as far as Content-Length and its reads go, and what was sent behind it is left |
| UrlLib.UrlEncode | server/url_lib.c:272-292 | the buffer of three bytes per character and one is always enough and holds the encoding as a C string |
| UrlLib.UrlDecode | server/url_lib.c:79-99 | stores at most max_size characters and a NUL; on a malformed escape it returns 0 and keeps what it has decoded |
| UrlLib.DecodeInvertsEncode | server/url_lib.c:56-99 | urldecode undoes url_encode for every octet string, cut to max_size |
| UrlLib.DecodeIsReading | server/url_lib.c:56-99 | urldecode gives a text and a result if and only if the input reads so: escapes with hex digits in either case, plus for a blank, cut to max_size, and failure exactly at a malformed escape before that |
| UrlLib.EncodedCharIs | server/url_lib.c:272-292 | url_encode leaves exactly the unreserved characters (section 2.3 of RFC 3986), turns a blank into a plus and every other octet into its escape with lower-case digits |
| UrlLib.EncodeIsSafe | server/url_lib.c:272-292 | an encoding has no character that ends a query parameter, and one to three characters for each one |
| UrlLib.ParseParamIn | server/url_lib.c:179-201 | the loops behind strstr compute the specification of parse_param |
| UrlLib.ParamFound | server/url_lib.c:179-201 | a parameter whose name does not occur earlier is found with its whole value |
| UrlLib.ParseAppName | server/url_lib.c:145-177 | the backward loop finds the segment before the last slash, or unknown |
| UrlLib.NoSegmentIsUnknown | server/url_lib.c:145-177 | without a slash, or with one at the start only, the name is unknown |
| UrlLib.AppNameBeforeLastSegment | server/url_lib.c:145-177 | the name before a last segment is found, whatever precedes it |
| XmlEscape.SmartStrNCpy | server/url_lib.c:35-44 | copies at most max_chars characters, and a NUL |
| XmlEscape.XmlEncodeInto | server/url_lib.c:101-143 | the loop with its size budget computes the specification and never writes past max_size characters and a NUL |
| XmlEscape.UnescapeInvertsEscape | server/url_lib.c:101-143 | a reader of the five entities gets the escaped text back |
| XmlEscape.XmlEncodeIsSafe | server/url_lib.c:101-143 | for every source and budget: within the budget, no raw markup or quotes, every ampersand starts a predefined entity (section 4.6 of XML 1.0), and reading it back gives a subsequence of the source |
| XmlEscape.XmlEncodeIsLossless | server/url_lib.c:101-143 | nothing is lost if and only if the escaped text fits, with one character to spare when the source ends with an escaped character; so always when six times its length is below the budget |
| XmlEscape.KeptWhileItFits | server/url_lib.c:101-143 | which characters are kept under any budget: after any text the next one is kept if and only if it fits what is left, with one to spare for an escaped one; the others are dropped and the rest goes on |
| XmlEscape.UrlDecodeXmlEncode | server/dial_server.c:128-137 | decode and escape into twice the source's size |
| XmlEscape.ShownTextIsLossless | server/dial_server.c:128-137 | a URL-encoded text is shown unchanged under that budget if and only if it is empty or has a character other than quotes and apostrophes |
| LaunchQuery.IsBadPayload | server/dial_server.c:147-159 | true exactly when some byte is not printable ASCII |
| LaunchQuery.BuildQuery | server/nf_callbacks.c:66-92 | the query is built in its fixed buffer, never past the end, and completely unless one of the two size checks fails |
| LaunchQuery.SizeChecksNeverFail | server/nf_callbacks.c:48 | for a payload and a URL within the server's limits neither check can fail |
| LaunchQuery.LaunchRoundTrip | server/nf_callbacks.c:66-92 | parameter dial of the query, URL-decoded, is the payload, whatever URL follows |
| LaunchQuery.AcceptedPayloadArrives | server/dial_server.c:179-201 | both together for every launch that the start handler accepts |
| LaunchQuery.DataUrlArrives | server/dial_server.c:192-197 | parameter additionalDataUrl of the launch query, URL-decoded, is the URL of the application's own DIAL data, for a name that a URL takes as it is |
| DialData.ParseParams | server/url_lib.c:203-252 | the strtok loop with prepending computes the specification; one malformed token and the list is empty |
| DialData.TokensAre | server/url_lib.c:232-248 | strtok goes through exactly the non-empty texts between the ampersands |
| DialData.ScanFails | server/url_lib.c:236-241 | sscanf fails exactly for a token that has no =, starts with one, or has only blanks behind the first |
| DialData.ScanMeans | server/url_lib.c:236-241 | from any other token: the key is all before the first =, the value the text without white space behind it, without the white space before and anything after |
| DialData.MalformedEmptiesAll | server/url_lib.c:232-250 | nothing is kept if and only if some text between the ampersands is malformed in that sense, wherever it stands, or there is none; else there is one node per text |
| DialData.ParsesRendered | server/url_lib.c:203-252 | a query of plain pairs, with or without a leading question mark, gives one node per pair in reverse order; '=' may occur in values |
| DialData.StoreDialData | server/dial_data.c:63-80 | the loop writes one line per node, key and value cut to 255 |
| DialData.RetrieveDialData | server/dial_data.c:82-128 | the fscanf loop computes the specification, including the value that stays in the buffer when the last one is missing |
| DialData.StoreThenRetrieve | server/dial_data.c:63-128 | store then retrieve gives the reversed list, cut to 255, if and only if every cut key and value is a word, or there is one pair and its value is empty |
| DialData.ReregisteredSeesSubmissionOrder | server/dial_server.c:481-484 | through query, list, file and list again, an application that registers again sees the pairs in the order submitted |
| Origins.HostMatchesIsAllowed | server/dial_server.c:508-596 | host_matches accepts exactly the origins whose host, after the port rules, is the candidate's, a leading star standing for one non-empty label without dots |
| Origins.PortRules | server/dial_server.c:530-554 | the lengths compared are those of the port rules: 443 counts as no port, and the origin's port counts only when the candidate has one |
| Origins.NoSecondLevel | server/dial_server.c:508-596 | an origin two levels below the starred domain is refused |
| Origins.OriginMatchesIsAllowed | server/dial_server.c:612-634 | equality, or the text before a final star and at least one character more |
| Origins.SplitIsCandidates | server/dial_server.c:651-680 | the candidates are exactly the runs between spaces, empty ones included |
| Origins.IsUriInList | server/dial_server.c:637-681 | true if and only if some candidate matches, over a scratch buffer that grows with them |
| DialApps.OnlyAddressedChanges | server/dial_server.c:161-492 | a request changes the addressed application only, and of the files only its own |
| DialApps.PayloadIsTerminated | server/dial_server.c:213-215 | the stored payload of a start is a C string if and only if it is shorter than 4096 characters, contrary to what the header file promises |
| DialApps.StartMeans | server/dial_server.c:161-229 | 404 exactly when the name is not registered, 413 and 400 exactly for a payload above 4096 bytes or not printable, and then nothing changes; else the state is what start_cb returns: Running gives 201 and stores the payload with zeros behind it, ErrorForbidden 403, ErrorUnauth 401, ErrorNotImplemented 501, the others 503 |
| DialApps.StatusMeans | server/dial_server.c:231-351 | the state becomes what status_cb returns and is shown, a hidden application as stopped to a client below version 2.1 |
| DialApps.StopMeans | server/dial_server.c:353-391 | 403 exactly for system; 404 exactly for another name that is not registered or whose status_cb says Stopped; else 200; and a registered application but system is Stopped afterwards |
| DialApps.HideMeans | server/dial_server.c:393-432 | 200 exactly when the application is registered, status_cb says Running or Hide and hide_cb returns Hide, and then it is hidden; 501 exactly when only hide_cb fails; else 404 |
| DialApps.DataMeans | server/dial_server.c:434-492 | 404, 413 and 400 exactly for an unknown name, a text above 4096 bytes and one that is not printable, without a change; else 200, and list and file hold the pairs of the text |
| Handlers.PlaceKeeps | server/dial_server.c:161-492 | each small step of a handler keeps to what the request does to the application when served alone |
| Handlers.HandlersAreSerialisable | server/dial_server.c:161-492 | for every interleaving and all callback results: replies and world are those of serving the requests one after the other in the order in which they held the mutex |
| Handlers.OthersUndisturbed | server/dial_server.c:161-492 | even in the middle of a request all other applications are as the answered requests left them |
| Handlers.PayloadIsOfLastStart | server/dial_server.c:979-993 | whenever DIAL_get_payload may be called, from a callback that runs while its request holds the mutex or when no request does, an application's payload is the zero-padded body of its last start answered 201, and as it was at first when there is none |
| Handlers.PayloadHasNul | server/dial_server.c:979-993 | so what DIAL_get_payload gives has a NUL if and only if the last start answered 201 had a body below 4096 characters; before the first one, only if the memory as allocated has one |
| Handlers.DataIsOfLastRequest | server/dial_server.c:254-302 | and its DIAL data, in memory and in its file, are those of its last data request answered 200, also while a status handler reads them under the mutex |
| Handlers.StateIsOfLastRequest | server/dial_server.c:161-432 | in every interleaving, while no request works on it, an application's state is the one in which its last answered request left it: Stopped after a stop, Hide after a hide answered 200, else what the callback returned |
| Handlers.SettledInCallbacks | server/dial_server.c:979-993 | the two results hold for every application in each of the three callbacks |
| Callbacks.AnswersTellTheCalls | server/dial_server.c:161-432 | in every interleaving the callbacks that were called are, in order, those that the answers stand for: stop_cb exactly for a stop answered 200, after status_cb, hide_cb exactly for 200 or 501, none between those of one request |
| Registry.DialApp.StorePayload | server/dial_server.c:213-215 | memset and memcpy leave the zero-padded body |
| Registry.DialApp.StartWith | server/dial_server.c:180-226 | the start handler after the lookup, on the object, is the specification's step |
| Registry.DialApp.ShowStatus | server/dial_server.c:304-312 | status: the state is the callback's; old clients are shown stopped for hidden |
| StatusReply.BuildDataText | server/dial_server.c:258-302 | the loop over the DIAL data leaves the entries one after another, decoded and escaped, cut off where the buffer ends; its stores stay inside the array if and only if the whole text is shorter than the array, else the last NUL goes behind it |
| StatusReply.TooLongIsAccepted | server/dial_server.c:434-492 | DIAL data within the limit of a data request can be too long for the array |
| StatusReply.WholeReplyArrives | server/mongoose.c:433-444 | the whole body of a status reply arrives if and only if it is shorter, with its headers, than the buffer of mg_printf |
| StatusReply.LinkFits | server/dial_server.c:326-349 | the link is sent before that end whenever origin and name come from one request that fits the buffer for requests |
| StatusReader.StateIsRead | server/dial_server.c:315-325 | a reader that only looks for tags finds between the state tags running, hidden or stopped, exactly for the state shown, whatever follows |
| StatusReader.NameIsRead | server/dial_server.c:326-349 | it finds the application's name |
| StatusReader.OptionIsRead | server/dial_server.c:326-349 | and in allowStop whether the application has a stop_cb |
| StatusReader.LinkIsRead | server/dial_server.c:326-349 | there is a link before the data if and only if the state shown is not Stopped |
| StatusReader.ElementsAreRead | server/dial_server.c:258-302 | the elements between the data tags are read as key and value of each node, in order |
| StatusReader.DataIsRead | server/dial_server.c:258-349 | so they are from the whole body |
| StatusReader.ClientReadsState | server/dial_server.c:231-351 | what the client receives says running, hidden or stopped for what status_cb returned, and stopped for a hidden application to an old client, for an origin and a name that come from one request |
| StatusReader.ClientReadsData | server/dial_server.c:231-351 | what the client receives holds, for DIAL data that fits, exactly the application's pairs in order |
| Registry.DialApp.StopIt | server/dial_server.c:372-388 | stop: 404 exactly when status_cb says Stopped, else stop_cb is called and 200; Stopped afterwards |
| Registry.DialApp.HideIt | server/dial_server.c:407-430 | hide: 404, 501 or hidden and 200 |
| Registry.DialApp.SetDialData | server/dial_server.c:474-489 | dial_data: rejected for unprintable bytes, else list and file are replaced |
| Registry.ListRefinesMap | server/dial_server.c:106-116 | serving a request on the list is serving it on the map of the interleaving model, files included |
| Registry.DialServer.FindApp | server/dial_server.c:106-116 | returns the link to the one application with the name, or the link at the end |
| Registry.DialServer.Register | server/dial_server.c:916-957 | 0 and no change for a taken name; -1 for a missing or over-long origin list, and then the mutex stays locked; else the application is appended, stopped, with the data of its file, and the list stays linked, acyclic and without equal names |
| Registry.DialServer.Unregister | server/dial_server.c:959-977 | removes exactly the named application and keeps the others in order |
| Registry.DialServer.GetPayload | server/dial_server.c:979-993 | the payload buffer of the named application, or null |
| Registry.DialServer.IsAllowedOrigin | server/dial_server.c:683-708 | no origin, or an application of that name that lists no origin or a matching one |
| Registry.DialServer.HandleStart | server/dial_server.c:161-229 | on heap and connection: the reply and the list are the specification's for a body that is the first part, up to 5121 bytes, of the request's |
| Registry.DialServer.HandleStatus | server/dial_server.c:231-351 | the same for status, with the client version from the query; what is sent is the reply with name, state, link and DIAL data, as far as it fits the buffer of mg_printf |
| Registry.DialServer.HandleStop | server/dial_server.c:353-391 | on the list: 403 exactly for system, 404 for an unknown name or a stopped application, else stop_cb is called, the application in the list is Stopped and no other one changes |
| Registry.DialServer.HandleHide | server/dial_server.c:393-432 | on the list: 200 exactly for a running or hidden application whose hide_cb returns Hide, and then it is hidden in the list; 404 and 501 else; no other one changes |
| Registry.DialServer.HandleDialData | server/dial_server.c:434-492 | the same for dial_data, with query or body, and the file |
| Registration.RegistryRun | server/dial_server.c:916-977 | after any calls the list holds exactly the names registered and not unregistered since, each once, in the order of registration |
| Registration.HeapFollowsRun | server/dial_server.c:916-977 | one call: a list with the names of the specification gets, by what Register and Unregister promise, its names after the call |
| Registration.MakeCalls | server/dial_server.c:916-977 | any sequence of calls of Register and Unregister on the heap: the list stays linked and acyclic, and has the names of RegistryRun in that order |
| Routing.PathSurvives | server/dial_server.c:748-840 | the four paths of a plain name, as request_handler gets them, survive decoding and cleaning if and only if the name does not start with two dots |
| Routing.AppRoutes | server/dial_server.c:781-786 | /apps/N is routed with name N, also for names like run or hide |
| Routing.RunIgnoresPrefix | server/dial_server.c:748-757 | a URL that ends with /run is routed with the name behind its first six characters, whatever these are: the prefix is not compared |
| Routing.RunRoutes | server/dial_server.c:748-757 | so /apps/N/run is routed with name N |
| Routing.HideRoutes | server/dial_server.c:810-819 | /apps/N/run/hide is routed with name N |
| Routing.DataRoutes | server/dial_server.c:840-846 | /apps/N/dial_data is routed with name N |
| Routing.EveryNameIsReached | server/dial_server.c:748-876 | for the URI as request_handler gets it: the URLs of a plain name lead to the intended handler with this name if and only if it does not start with two dots, its origin is allowed and DIAL data comes from the local host; when only the checks fail the answer is 403 |
| Routing.CodesAre | server/dial_server.c:742-876 | 404 exactly for a URL of no kind, 403 exactly when a check fails, 501 exactly for a method that the branch does not list, or an empty name where one is asked for |
| Routing.OptionsListsMethods | server/dial_server.c:710-726 | OPTIONS is answered with the methods that the branch serves |
| Routing.HandledPathIsClean | server/mongoose.c:594-603 | whatever a URL encodes, in the path that is routed no separator is followed by two dots: decoding comes before cleaning |
| Routing.EncodedPathSurvives | server/mongoose.c:594-603 | a path written with any escapes that read as the application's path is routed as that path if and only if the name does not start with two dots; so a name with a space, a percent sign or a question mark can be reached |
| RequestRouting.UriIsCut | server/mongoose.c:545-557 | the request line parser cuts a URI at its first space; when the head ends in the URI before any space, nothing is parsed |
| RequestRouting.SentNameIsReached | server/mongoose.c:545-565 | for the bytes that a client sends, wherever the engine finds the end of the head and whatever it parses: the request for a plain name is accepted and gets to the intended handler if and only if the name has no space, no blank line and no two dots at its start, the query has no blank line, the Content-Length is good, and the checks pass |
| RequestRouting.ReachedHoweverCut | server/mongoose.c:572-588 | it does so for every way in which the network cuts the stream if and only if, besides, the head fits the buffer and has no disallowed control character |
| RequestRouting.PrepareNamed | server/mongoose.c:729-763 | what the engine does with these bytes: it never gets the request there without those conditions, and always does with all of them |
| RequestRouting.NamesThatFail | server/mongoose.c:481-588 | plain names that do not get there: one with a blank line, one with a tab, and one whose head is longer than the buffer |
| Peer.LocalAddresses | server/dial_server.c:840-845 | the peers that pass for the local host: 127.0.0.1, and 127.0.0.10 to 19 and 100 to 199, whose texts go on from it, and no others |
| RequestHandler.FindOrigin | server/dial_server.c:732-741 | the origin is the value of the last header named Origin or origin, if there is one |
| RequestHandler.AllowsIsAccepts | server/dial_server.c:637-708 | the comparison made for an application is the one meant: its list is empty, or some text between its spaces fits: for https the same host or one label below a starred one, by the port rules, else the same text or one that goes on where the star is |
| RequestHandler.Decide | server/dial_server.c:742-876 | the branches of request_handler, with the origin check on the linked list, choose the action of Routing.Dispatch |
| RequestHandler.ChangesArePermitted | server/dial_server.c:742-876 | whatever is requested, an application changes only when it is the one addressed and its own origin list accepts the request's origin; its DIAL data only for a peer that passes for the local host, and its payload only by a POST that starts it |
| RequestHandler.HandleRequest | server/dial_server.c:729-876 | request_handler on the heap: action, reply, bytes sent for a status request, list and files are the specification's, the body is read as far as the handler asks, and every change is permitted in that sense |
| DialService.ServeAny | server/dial_server.c:729-876 | from any stream of bytes, however it is cut, to the registered applications: which refusal is sent, and that it changes nothing; else the parsed request is handled as said, with the body that follows its head, every change is permitted, and what follows the body is left |
| DialService.Serve | server/dial_server.c:729-876 | the same for a request that a client writes: the request sent is the one handled, with the body sent |
| AppRequests.Launch | server/dial_server.c:161-229 | from the bytes of a launch request, with any payload and any result of start_cb, to the application: without permission 403 and no change; else 404, 413 or 400 without a change; else the application named is in the state that start_cb returned, with that state's code, and when it runs has exactly the payload sent |
| AppRequests.StopApp | server/dial_server.c:353-391 | from the bytes of a stop request: with permission 200 exactly for a registered application other than system that is not stopped yet, and then stop_cb is called and it is Stopped; 403 and no change without |
| AppRequests.HideTheApp | server/dial_server.c:393-432 | from the bytes of a hide request: with permission 200 exactly for a running or hidden application whose hide_cb hides it, and then it is hidden |
| AppRequests.StatusOf | server/dial_server.c:231-351 | from the bytes of a status request to what the client reads: the state that status_cb returned, as a client of its version is told it |
| AppRequests.SetDataOf | server/dial_server.c:434-492 | from the bytes of a data request to list and file: 403 unless the origin is permitted and the peer passes for the local host; else 404, 413 or 400 without a change, or 200 and exactly the pairs of the text |
| DialClient.DialServer.GetStatus | client/DialServer.cpp:229-240 | the endpoint changes only when the body has an href, and a body that ends at it throws |
| DialClient.DialServer.StopApplication | client/DialServer.cpp:244-259 | the URL of the stop request, from the endpoint that getStatus leaves; after the server's reply for an application that is not stopped it is the application's URL with /run |
| DialClient.DialServer.HideApplication | client/DialServer.cpp:261-281 | the URL of the hide request; after such a reply it ends with /run/hide |
| DialClient.EndPointOfLink | server/dial_server.c:326-349 | from a reply that goes on in any way behind its link, and for a name without href=, the client takes the endpoint run |
| DialClient.EndPointIsRun | server/dial_server.c:326-349 | in particular from the whole reply for an application that is not stopped |
| DialClient.StatusReplyLinksRun | server/dial_server.c:326-349 | what the client receives of a status reply links to run, unless it shows the application stopped, for an origin and a name that fit one request |
| DialClient.ClientVersion | server/dial_server.c:239-245 | this client says version 2.1, so it is shown hidden applications; one that says a version below 2.09, or none, is an old one |
| DialClient.StopAndHideReachTheApp | client/DialServer.cpp:255-275 | after such a reply the client's URLs are those of its requests, and these reach the stop and hide handlers of the application, however the network cuts their bytes, if and only if its name has no space, no blank line and no two dots at its start, the origin is allowed, the Content-Length is good, the head fits the buffer and has no disallowed control character |
| Ssdp.NeverTruncated | server/quick_ssdp.c:184-190 | no buffer size cuts the reply off, for any address, port, uuid, hardware address and timeout |
| Ssdp.GetLocation | client/DialDiscovery.cpp:81-99 | the loop over lines computes the specification |
| Ssdp.LocationRecovered | client/DialDiscovery.cpp:81-99 | the location line is found and taken whole |
| Ssdp.MacRecovered | client/DialDiscovery.cpp:101-118 | the hardware address is recovered unless the uuid holds WAKEUP: and MAC= behind it |
| Ssdp.TimeoutRecovered | client/DialDiscovery.cpp:120-138 | the timeout is recovered unless the uuid holds WAKEUP: and Timeout= behind it |
| Ssdp.MisledMac | client/DialDiscovery.cpp:101-118 | when the uuid holds them, the hardware address is recovered if and only if the text behind them in the uuid, up to a semicolon, repeats it |
| Ssdp.MisledTimeout | client/DialDiscovery.cpp:120-138 | when the uuid holds them, the client takes the number at the start of the text behind them, up to the line's end, for the timeout |
| Ssdp.MisleadingUuid | client/DialDiscovery.cpp:101-118 | a uuid for which the client takes an empty hardware address |
| Ssdp.ReplyRoundTrip | server/quick_ssdp.c:66-78 | the location comes out of the reply as the server put it in; hardware address and timeout do if and only if the uuid does not mislead, or repeats them; in particular for a uuid without WAKEUP: |
| Discovery.DialDiscovery.UpdateServerList | client/DialDiscovery.cpp:200-213 | a new location gets a new, marked server; a known one is marked; every server stays under its own location |
| Discovery.DialDiscovery.ProcessServer | client/DialDiscovery.cpp:215-237 | only responses of DIAL servers count; a server that is new has the location, hardware address and timeout of the response and the apps URL that it gives, and a known one stays as it is, marked |
| Discovery.DialDiscovery.ResetDiscovery | client/DialDiscovery.cpp:303-310 | unmarks every server |
| Discovery.DialDiscovery.CleanServerList | client/DialDiscovery.cpp:279-301 | removes exactly the unmarked servers; the lookup by a server's own location always finds it |
| Discovery.DialDiscovery.Round | client/DialDiscovery.cpp:312-357 | after a round the table holds exactly the locations that responded in it; every new server is as the first response with its location describes it, and known ones are the same objects, unchanged |
| Discovery.ServerIsDiscovered | server/quick_ssdp.c:66-78 | the server's reply counts as a response, so its location is in the table afterwards |
| Discovery.EntryIsAsPrinted | client/DialDiscovery.cpp:200-229 | an entry that the server's own reply describes has its location, its apps URL and, for a uuid that does not mislead, exactly the hardware address and the timeout printed |
| Discovery.DiscoverServer | client/DialDiscovery.cpp:312-357 | a round in which the reply of a server that was not known comes before any other with its location: the table then holds it as it printed itself |

## Left out

- Shutdown.ShutdownCompletes: bounds the steps of workers and master without spurious wakeups of the master; that a scheduler runs every thread that can go on is not modelled.
- Failing pthread, malloc and file operations, logging, and real sockets: environment.
- The texts of all replies but those to status requests: of the others only the status code.
- Byte ranges of `push`, socket closing and the listening options of `server/mongoose.c`: environment.
- Registry.DialServer.Register: has no mutex field; its result says whether the mutex is unlocked at the end.
- StatusReply.BuildDataText: has one byte of memory behind the array; what else a store there does is not part of this model.
- The texts for a null pointer in `printf` and the size `BUFSIZ` are those of the GNU C library.
- Handlers.HandlersAreSerialisable: does not interleave registrations with requests, because the server registers its applications before it starts to listen and never unregisters one (`server/main.c`); nor origin checks, because they read only names and origin lists, which requests do not change.
- Registry.DialServer.HandleStatus: takes the C library's atof as a parameter.
- The list of DIAL data is a sequence of nodes: the code only prepends to it and frees it whole, so no node is shared or changed.
- `RequestParser`: pointers into the request buffer are offsets.
- The file name of an application's data: a file is addressed by the application's name.
- The conformance tests, the command-line client, process handling, `/proc` scanning and the JavaScript and shell code: user interface and scripting around the core.
