# tomcatlite core in Dafny

A model of the core of a small servlet container. It covers three groups.

1. **The NIO connector.**
   - The endpoint chooses how many pollers to run and starts them, the acceptor and the idle cleaner. It picks a poller for each accepted channel by a rotating 32-bit counter, and it shuts everything down again.
   - Each poller keeps a map from channel to socket wrapper and a FIFO queue of registration events. It registers read interest with its selector, marks ready connections as working, and sweeps idle keep-alive connections.
2. **The request side.**
   - The raw request is parsed into a method, URL and query string, headers, cookies, a body and form parameters.
   - The body is read through a servlet input stream, a cursor over a byte array with an optional read listener.
   - The `HttpServletRequest` adapter delegates to the parsed request and hands out its input stream once.
3. **The context tables and the thread factory.**
   - The servlet and filter tables are built from the deployment descriptor. A URL is routed by exact match, then the best pattern, then the default servlet. Servlets and filters are instantiated lazily and at most once.
   - Sessions can be created, looked up, invalidated and swept when idle.
   - The thread factory clamps priorities and generates thread names.

Time, thread starts, selectors and I/O outcomes are parameters of the model:
- `now` is the clock reading.
- `ready` is the channels a selection reports.
- `failAt` and `StartFailure` say which start-up step throws.
- `newInstance` is reflection.
- `freshId` is the generated session id.
- `matches` and `better` are the path matcher and its pattern comparator.

Channels are plain numbers. Every module is single-threaded: each `ConcurrentHashMap` becomes a Dafny `map` field, each `ConcurrentLinkedQueue` a `seq` field, and each `AtomicInteger` an `int` field.

Java semantics are written out explicitly:
- `int` wrap-around (`Wrap32`);
- the `&` operator on two's-complement patterns (`JavaAnd`);
- the truncating `%` operator (`JavaRem`);
- `String.split`, which drops trailing empty pieces (`Split`);
- `indexOf`, `trim`, `Integer.parseInt` and `Integer.toString`;
- the signed `byte`;
- the flooring `Duration.getSeconds`.

Three points of the code deserve a note:
- **Start-up rollback.** `start` evidently means to release what it acquired when a step fails. Its rollback `close()` throws before releasing anything; see Findings.
- **Round-robin.** The mask path and the modulo path of `getPoller` agree for every 32-bit counter value (`PollerIndexIsModulo`). Across the counter's wrap at 2^32, only a power-of-two poller count stays exactly round-robin (`RoundRobin`). The endpoint's own count, one or two, always is (`EndpointRoundRobin`).
- **The mask.** The code's mask is `pollerCount - 1` while the test is on the list's size. `PollerIndex` keeps both quantities.

Source paths below are relative to the repository root.

## Model

| member | source | states |
|---|---|---|
| NioPollers.SocketWrapper.constructor | src/main/java/com/nocoder/minitomcat/network/connector/nio/NioPoller.java:56 | a new wrapper is idle, open and connected, with `waitBegin` the given time |
| NioPollers.SocketWrapper.Close | src/main/java/com/nocoder/minitomcat/network/connector/nio/NioPoller.java:73 | after closing, the channel is neither open nor connected; only those two fields change |
| NioPollers.NioPoller.constructor | src/main/java/com/nocoder/minitomcat/network/connector/nio/NioPoller.java:40-44 | a new poller has an empty socket map, an empty event queue, no read registrations, an open selector and no pending wake-up |
| NioPollers.NioPoller.Register | src/main/java/com/nocoder/minitomcat/network/connector/nio/NioPoller.java:51-69 | on success:<br>- a new socket gets a fresh wrapper stored under its channel, every other entry unchanged;<br>- a returning socket reuses its stored wrapper and stops working;<br>- either way `waitBegin` becomes `now`, exactly one event for that wrapper joins the tail of the queue, and the selector is woken.<br>A returning channel with no entry fails and changes nothing. |
| NioPollers.NioPoller.RunEvent | src/main/java/com/nocoder/minitomcat/network/connector/nio/NioPoller.java:164-176 | the selector gains read interest in the wrapper's channel, with the wrapper attached, exactly when the channel is open and the selector is open; it fails only on a closed selector with an open channel |
| NioPollers.NioPoller.Events | src/main/java/com/nocoder/minitomcat/network/connector/nio/NioPoller.java:119-126 | runs exactly the events queued at the start, in FIFO order; events offered during the drain stay queued; the registrations become `Drained(...)` of the old ones. On a closed selector it stops at the first open event. |
| NioPollers.DrainedRegistrations | src/main/java/com/nocoder/minitomcat/network/connector/nio/NioPoller.java:119-126 | after a drain the selector watches exactly the channels it watched before plus those of the open events. A newly watched channel carries the wrapper of its last open event; untouched channels keep their wrapper. |
| NioPollers.DrainedKeys | src/main/java/com/nocoder/minitomcat/network/connector/nio/NioPoller.java:164-169 | the channels watched after a drain are the old ones plus those of open events |
| NioPollers.DrainedLastWins | src/main/java/com/nocoder/minitomcat/network/connector/nio/NioPoller.java:169 | a channel's attachment is the wrapper of its last open event |
| NioPollers.DrainedKeepsUntouched | src/main/java/com/nocoder/minitomcat/network/connector/nio/NioPoller.java:168-172 | a watched channel with no open event keeps its attachment |
| NioPollers.DrainedValues | src/main/java/com/nocoder/minitomcat/network/connector/nio/NioPoller.java:169 | every attachment is an earlier one or the wrapper of an open event for that channel |
| NioPollers.FirstOpen | src/main/java/com/nocoder/minitomcat/network/connector/nio/NioPoller.java:168-169 | the first event whose channel is open, and no open event before it |
| NioPollers.FirstOpenIs | src/main/java/com/nocoder/minitomcat/network/connector/nio/NioPoller.java:168-169 | an open event with no open event before it is the first open one |
| NioPollers.NioPoller.ProcessSocket | src/main/java/com/nocoder/minitomcat/network/connector/nio/NioPoller.java:114-117 | the wrapper is marked working and appended to the dispatched wrappers |
| NioPollers.Selected | src/main/java/com/nocoder/minitomcat/network/connector/nio/NioPoller.java:91-105 | the wrappers dispatched for the ready channels are attachments of watched ready channels, at most one per entry of `ready` |
| NioPollers.SelectedSnoc | src/main/java/com/nocoder/minitomcat/network/connector/nio/NioPoller.java:91-105 | one more ready key adds its attachment if the channel is watched, and nothing otherwise |
| NioPollers.SelectedHasEveryWatched | src/main/java/com/nocoder/minitomcat/network/connector/nio/NioPoller.java:91-105 | every watched ready channel's attachment is among the dispatched wrappers |
| NioPollers.NioPoller.ProcessSelected | src/main/java/com/nocoder/minitomcat/network/connector/nio/NioPoller.java:91-105 | the dispatched list grows by exactly the attachments of the watched ready channels, in order. Each of those wrappers is working; no other wrapper's working flag changes. |
| NioPollers.NioPoller.DropCancelled | src/main/java/com/nocoder/minitomcat/network/connector/nio/NioPoller.java:86 | the selection keeps exactly the registrations whose channel is still open, each with its attachment; every registration left is open |
| NioPollers.NioPoller.Select | src/main/java/com/nocoder/minitomcat/network/connector/nio/NioPoller.java:86-105 | the wake-up is consumed and the keys of closed channels are dropped; the dispatched list grows by exactly the attachments of the watched ready channels, each of them open and working; no other registered wrapper's working flag changes |
| NioPollers.NioPoller.PollOnce | src/main/java/com/nocoder/minitomcat/network/connector/nio/NioPoller.java:80-112 | one loop turn: drain the events, then select and dispatch. The socket map is unchanged. With an open selector the wake-up is consumed, the registrations are the drained ones less those of closed channels, so a connection closed after registering (by the reaper, say) is never dispatched; the dispatched wrappers are open and working and no other wrapper's flag changes. A closed selector dispatches nothing, changes no registration, no wake-up flag and no working flag, and leaves the events after the first open one queued. |
| NioPollers.NioPoller.Reap | src/main/java/com/nocoder/minitomcat/network/connector/nio/NioPoller.java:130-150 | one entry: kept unchanged, dropped, or closed and dropped, as `Verdict` says |
| NioPollers.NioPoller.CleanTimeoutSockets | src/main/java/com/nocoder/minitomcat/network/connector/nio/NioPoller.java:128-152 | for every entry, it stays exactly when `Verdict` keeps it, and its wrapper ends as `AfterSweep` says:<br>- a disconnected entry is removed without closing;<br>- a working entry is never closed or removed;<br>- an idle entry is closed and removed exactly when `now - waitBegin > timeout` (strict).<br>No entry is added. |
| NioPollers.SweepKeepsOnlyLive | src/main/java/com/nocoder/minitomcat/network/connector/nio/NioPoller.java:132-150 | after a sweep, every entry is connected and is working or within the timeout; every connected working entry survives |
| NioPollers.SweepIdempotent | src/main/java/com/nocoder/minitomcat/network/connector/nio/NioPoller.java:128-152 | a second sweep at the same time removes nothing more |
| NioPollers.ReapMonotone | src/main/java/com/nocoder/minitomcat/network/connector/nio/NioPoller.java:141 | an entry closed at `now` would be closed at any later time |
| NioPollers.RegisteredSurvivesTimeout | src/main/java/com/nocoder/minitomcat/network/connector/nio/NioPoller.java:141 | a connection registered at `begin` survives every sweep up to `begin + timeout` |
| NioPollers.NioPoller.Close | src/main/java/com/nocoder/minitomcat/network/connector/nio/NioPoller.java:71-77 | every wrapper in the map is closed, the event queue is empty and the selector is closed, with its registrations gone |
| NioEndpoints.PollerCount | src/main/java/com/nocoder/minitomcat/network/endpoint/nio/NioEndpoint.java:44 | `min(2, processors)`: between 1 and 2, never more than the processors, and 2 whenever there are at least two |
| NioEndpoints.MaskIsModulo | src/main/java/com/nocoder/minitomcat/network/endpoint/nio/NioEndpoint.java:150-154 | for a power-of-two size, `next & (size - 1)` is `next` modulo the size for every 32-bit `next`, negative ones included |
| NioEndpoints.LowMaskBits | src/main/java/com/nocoder/minitomcat/network/endpoint/nio/NioEndpoint.java:154 | the low `k` bits of an `int`'s two's-complement pattern are the `int` modulo 2^k |
| NioEndpoints.RemainderIsModulo | src/main/java/com/nocoder/minitomcat/network/endpoint/nio/NioEndpoint.java:157-159 | `(next % size + size) % size`, with Java's `%` and `int` overflow, is `next` modulo the size |
| NioEndpoints.PollerIndexIsModulo | src/main/java/com/nocoder/minitomcat/network/endpoint/nio/NioEndpoint.java:148-162 | with a full poller list, both paths pick `next` modulo the size, an index in `[0, size)` |
| NioEndpoints.RoundRobin | src/main/java/com/nocoder/minitomcat/network/endpoint/nio/NioEndpoint.java:148-162 | the k-th call from a counter of 0 picks poller `k mod size`. This holds for ever with a power-of-two size, and up to the counter's first overflow with any size. |
| NioEndpoints.WrapKeepsLowBits | src/main/java/com/nocoder/minitomcat/network/endpoint/nio/NioEndpoint.java:153 | wrapping the counter to 32 bits keeps its residue modulo any 2^j with j ≤ 32 |
| NioEndpoints.EndpointRoundRobin | src/main/java/com/nocoder/minitomcat/network/endpoint/nio/NioEndpoint.java:148-162 | with the endpoint's own poller count the rotation is exactly round-robin for every call, across counter wrap-around |
| NioEndpoints.NioEndpoint.constructor | src/main/java/com/nocoder/minitomcat/network/endpoint/nio/NioEndpoint.java:34-57 | the acceptor factory has the fixed name `NioAcceptor` and the poller factory the numbered prefix `NioPoller`, both non-daemon at normal priority. It sets `pollerCount = min(2, processors)`, running, no pollers, and the counter at 0. |
| NioEndpoints.NioEndpoint.InitPoller | src/main/java/com/nocoder/minitomcat/network/endpoint/nio/NioEndpoint.java:70-80 | creates `pollerCount` fresh new pollers in order, each with a daemon thread from the poller factory, named in sequence. If poller `failAt` throws, exactly the pollers before it remain. |
| NioEndpoints.NioEndpoint.AddPoller | src/main/java/com/nocoder/minitomcat/network/endpoint/nio/NioEndpoint.java:73-78 | one loop turn: one fresh poller appended, one daemon thread started with the next factory name, the factory counter advanced by one |
| NioEndpoints.NioEndpoint.InitAcceptor | src/main/java/com/nocoder/minitomcat/network/endpoint/nio/NioEndpoint.java:85-90 | one daemon thread named `NioAcceptor` is started |
| NioEndpoints.NioEndpoint.StartAsWritten | src/main/java/com/nocoder/minitomcat/network/endpoint/nio/NioEndpoint.java:104-116 | `start` as written: on success everything is started. If any step throws, the rollback `close()` itself throws on the absent cleaner, and the dispatcher and channel are left as they were. |
| NioEndpoints.NioEndpoint.CloseAsWritten | src/main/java/com/nocoder/minitomcat/network/endpoint/nio/NioEndpoint.java:119-135 | `isRunning` is cleared first; the close throws exactly when the cleaner, the poller list, the dispatcher or the channel is absent. With none absent, all of them are stopped or closed. |
| NioEndpoints.NioEndpoint.ClosePollers | src/main/java/com/nocoder/minitomcat/network/endpoint/nio/NioEndpoint.java:122-128 | every poller in the list is closed; their socket maps are unchanged, and so are the wrappers' working flags and idle clocks |
| NioEndpoints.NioEndpoint.Close | src/main/java/com/nocoder/minitomcat/network/endpoint/nio/NioEndpoint.java:119-135 | a null-checked close: not running, every created part stopped or closed, absent parts left absent. The pollers' list, socket maps, dispatch lists and wake-up flags, and the wrappers' working flags and idle clocks, are unchanged. On an endpoint already shut down (`ShutDown`) the phases stay as they were. |
| NioEndpoints.NioEndpoint.Start | src/main/java/com/nocoder/minitomcat/network/endpoint/nio/NioEndpoint.java:104-116 | succeeds exactly when no step throws. A failed start leaves the endpoint not running, the dispatcher stopped, every created poller closed and the channel closed if it was opened. |
| NioEndpoints.NioEndpoint.GetPoller | src/main/java/com/nocoder/minitomcat/network/endpoint/nio/NioEndpoint.java:148-162 | returns the counter modulo the number of pollers, an index in range, and advances the counter by one with 32-bit wrap-around |
| NioEndpoints.NioEndpoint.RegisterToPoller | src/main/java/com/nocoder/minitomcat/network/endpoint/nio/NioEndpoint.java:181-185 | the channel is registered as a new socket on the poller `GetPoller` picks: a fresh open, connected, idle wrapper stored under the channel, its event at the tail of the queue, and the poller woken. No poller's registrations, selector state or dispatch list change, and every other poller's socket map, queue and wake-up flag stay as they were. |
| NioEndpoints.PollerThreadsSnoc | src/main/java/com/nocoder/minitomcat/network/endpoint/nio/NioEndpoint.java:72-77 | the threads of `n + 1` pollers are those of `n` pollers plus one named with the next counter value |
| ThreadFactories.ClampPriority | src/main/java/com/nocoder/minitomcat/network/endpoint/nio/DefaultThreadFactory.java:49-50 | the priority is clamped to `[1, 10]`: kept when in range, raised to 1 or lowered to 10 otherwise |
| ThreadFactories.DefaultThreadFactory.constructor | src/main/java/com/nocoder/minitomcat/network/endpoint/nio/DefaultThreadFactory.java:41-51 | stores the strategy and the daemon flag, the clamped priority, and a counter of 1 |
| ThreadFactories.DefaultThreadFactory.NewThread | src/main/java/com/nocoder/minitomcat/network/endpoint/nio/DefaultThreadFactory.java:72-84 | the thread runs the task with the factory's daemon flag and clamped priority, and is named by the strategy from the counter; the counter advances as `getAndIncrement` does |
| ThreadFactories.CreateWithNumberedPrefix | src/main/java/com/nocoder/minitomcat/network/endpoint/nio/DefaultThreadFactory.java:56-61 | a factory with the numbered-prefix strategy |
| ThreadFactories.CreateWithFixedName | src/main/java/com/nocoder/minitomcat/network/endpoint/nio/DefaultThreadFactory.java:66-70 | a factory with the fixed-name strategy |
| ThreadFactories.AdvanceCounter | src/main/java/com/nocoder/minitomcat/network/endpoint/nio/DefaultThreadFactory.java:74 | one `newThread` moves the counter from its value after `k` threads to its value after `k + 1` |
| ThreadFactories.NumberedName | src/main/java/com/nocoder/minitomcat/network/endpoint/nio/DefaultThreadFactory.java:56-61 | the n-th thread (from 1) of a numbered factory is named `prefix-n`, until the counter overflows |
| ThreadFactories.NumberedNamesDistinct | src/main/java/com/nocoder/minitomcat/network/endpoint/nio/DefaultThreadFactory.java:56-61 | before overflow, no two threads of a numbered factory share a name |
| ThreadFactories.NamesRepeatAfterWrap | src/main/java/com/nocoder/minitomcat/network/endpoint/nio/DefaultThreadFactory.java:74 | after 2^32 threads the names repeat |
| ThreadFactories.NumberedNameAfterOverflow | src/main/java/com/nocoder/minitomcat/network/endpoint/nio/DefaultThreadFactory.java:74 | the thread after `prefix-2147483647` is named `prefix--2147483648` |
| InputStreams.Unsigned8 | src/main/java/com/nocoder/minitomcat/request/ServletInputStreamImpl.java:58 | the value `read` should return for a byte: in `[0, 256)` and congruent to the byte |
| InputStreams.UnsignedBytes | src/main/java/com/nocoder/minitomcat/request/ServletInputStreamImpl.java:19 | the body as unsigned values, byte by byte |
| InputStreams.ReadStep | src/main/java/com/nocoder/minitomcat/request/ServletInputStreamImpl.java:54-70 | the corrected read. It returns -1 exactly when every byte was read, leaving the cursor. Otherwise it returns the next byte as 0..255 and advances the cursor by one. |
| InputStreams.ServletInputStream.constructor | src/main/java/com/nocoder/minitomcat/request/ServletInputStreamImpl.java:22-24 | a cursor of -1 over the data, no listener |
| InputStreams.ServletInputStream.Available | src/main/java/com/nocoder/minitomcat/request/ServletInputStreamImpl.java:72-75 | the number of unread bytes; it is zero exactly when the stream is finished |
| InputStreams.ServletInputStream.SetReadListener | src/main/java/com/nocoder/minitomcat/request/ServletInputStreamImpl.java:36-52 | stores the listener and immediately notifies it with `onAllDataRead` when finished and `onDataAvailable` otherwise; a null listener is a null dereference |
| InputStreams.ServletInputStream.ReadAsWritten | src/main/java/com/nocoder/minitomcat/request/ServletInputStreamImpl.java:54-70 | `read` as written, step by step, including `onAllDataRead` after the last byte |
| InputStreams.ServletInputStream.Read | src/main/java/com/nocoder/minitomcat/request/ServletInputStreamImpl.java:54-70 | the corrected read. It consumes exactly the next byte and keeps the cursor within the data. The listener hears `onAllDataRead` when the last byte is read. |
| InputStreams.ServletInputStream.Close | src/main/java/com/nocoder/minitomcat/request/ServletInputStreamImpl.java:77-80 | the stream is finished and nothing is available |
| InputStreams.ReadsRemaining | src/main/java/com/nocoder/minitomcat/request/ServletInputStreamImpl.java:54-70 | from any cursor, successive reads return the remaining bytes in order as 0..255 |
| InputStreams.ReadsAtEnd | src/main/java/com/nocoder/minitomcat/request/ServletInputStreamImpl.java:54-70 | after the last byte every read returns -1 |
| InputStreams.WholeBodyThenEnd | src/main/java/com/nocoder/minitomcat/request/ServletInputStreamImpl.java:54-70 | a fresh stream yields the whole body, then -1 |
| InputStreams.ReadsSplit | src/main/java/com/nocoder/minitomcat/request/ServletInputStreamImpl.java:54-70 | `m + n` reads are `m` reads followed by `n` reads from where they stopped |
| InputStreams.ReadPastEndThrows | src/main/java/com/nocoder/minitomcat/request/ServletInputStreamImpl.java:55-58 | as written, the read after the last byte indexes past the array |
| InputStreams.ByteFFReadsAsEnd | src/main/java/com/nocoder/minitomcat/request/ServletInputStreamImpl.java:58 | as written, a body byte 0xFF reads as -1, the end-of-stream value; the corrected read returns 255 |
| Requests.Latin1Bytes | src/main/java/com/nocoder/minitomcat/request/Request.java:189 | `getBytes()` of the last line, one byte per character |
| Requests.ParseRequestLine | src/main/java/com/nocoder/minitomcat/request/Request.java:264-274 | the first line parses exactly when it has at least two blank-separated pieces, the first a known method and the second a target not made only of `?` (its split on `?` is non-empty) |
| Requests.RequestLineWords | src/main/java/com/nocoder/minitomcat/request/Request.java:266 | `method target version` splits into its three words |
| Requests.TargetWithQuery | src/main/java/com/nocoder/minitomcat/request/Request.java:271-274 | for a target with exactly one `?` and a non-empty text after it, the URL is the text before the `?` and the query string the text after it (a second `?` or an empty query is not covered by this lemma) |
| Requests.TargetWithoutQuery | src/main/java/com/nocoder/minitomcat/request/Request.java:271-274 | without a `?`, the URL is the whole target and the query string is null |
| Requests.AddParams | src/main/java/com/nocoder/minitomcat/request/Request.java:329-341 | the parameters parse exactly when every `&` piece does |
| Requests.ParamParts | src/main/java/com/nocoder/minitomcat/request/Request.java:335-337 | `k=v1,v2` gives key `k` and values `v1, v2` |
| Requests.ParamWithoutValueFails | src/main/java/com/nocoder/minitomcat/request/Request.java:335-337 | `k` and `k=` throw (there is no `kv[1]`) |
| Requests.ParamsLastWins | src/main/java/com/nocoder/minitomcat/request/Request.java:329-341 | a parse fails exactly when some piece fails. Otherwise a key is present exactly when it was before or some piece names it, and a later piece overwrites an earlier one. |
| Requests.QueryParams | src/main/java/com/nocoder/minitomcat/request/Request.java:278-280 | the query string's parameters are added only when there is one |
| Requests.Request.ParseParams | src/main/java/com/nocoder/minitomcat/request/Request.java:329-341 | the loop leaves exactly the parameters `AddParams` describes, or fails as it does |
| Requests.HeaderEnd | src/main/java/com/nocoder/minitomcat/request/Request.java:286-290 | the header loop stops at the first empty line or the end |
| Requests.HeaderLines | src/main/java/com/nocoder/minitomcat/request/Request.java:286-290 | the header lines are the non-empty lines after the first, up to the first empty one |
| Requests.HeaderLinesEnd | src/main/java/com/nocoder/minitomcat/request/Request.java:286-290 | the header lines end exactly at a blank line or at the end of the input |
| Requests.HeaderLinesReach | src/main/java/com/nocoder/minitomcat/request/Request.java:286-290 | with no blank line up to `i`, the header lines reach line `i` |
| Requests.HeadersEndAtBlank | src/main/java/com/nocoder/minitomcat/request/Request.java:288-290 | lines after the first blank line are never headers |
| Requests.HeaderPair | src/main/java/com/nocoder/minitomcat/request/Request.java:291-293 | a header line parses exactly when it has a `:` with at least one character after it |
| Requests.HeaderLineParts | src/main/java/com/nocoder/minitomcat/request/Request.java:291-294 | `Key: v1,v2` gives key `Key` and values `v1, v2` |
| Requests.HeadersLastWins | src/main/java/com/nocoder/minitomcat/request/Request.java:286-295 | a key is present exactly when some header line names it, and it holds the values of the last such line |
| Requests.ReadHeaderLines | src/main/java/com/nocoder/minitomcat/request/Request.java:284-295 | the loop builds exactly the header map `ReadHeaders` describes |
| Requests.Request.ParseHeaders | src/main/java/com/nocoder/minitomcat/request/Request.java:262-311 | the request holds exactly the method, URL, query string, parameters, headers and cookies `ParseHead` describes, or fails as it does |
| Requests.Request.ParseFirstLine | src/main/java/com/nocoder/minitomcat/request/Request.java:264-280 | the method, URL and query string of the first line, with the query parameters added |
| Requests.SplitCookies | src/main/java/com/nocoder/minitomcat/request/Request.java:299-309 | without a `Cookie` header there are no cookies and the headers are kept. Otherwise the header's first value, split on `"; "` and `"="`, gives the cookies, and the header is removed. A piece without a value throws. |
| Requests.CookieParts | src/main/java/com/nocoder/minitomcat/request/Request.java:303-304 | `k=v` gives the cookie `(k, v)`; `k=` throws |
| Requests.Request.ParseCookies | src/main/java/com/nocoder/minitomcat/request/Request.java:299-309 | the loop leaves exactly the cookies and headers `SplitCookies` describes |
| Requests.Request.ParseBody | src/main/java/com/nocoder/minitomcat/request/Request.java:313-327 | the body, cut to `min(Content-Length, length)` and trimmed, is parsed into the parameters, which are non-null afterwards |
| Requests.BodyCutToLength | src/main/java/com/nocoder/minitomcat/request/Request.java:315-320 | the parsed text is the first `min(n, length)` characters, trimmed |
| Requests.Request.ParseRequestBody | src/main/java/com/nocoder/minitomcat/request/Request.java:188-196 | the body bytes are the last line; the body is parsed only as `BodyParams` says |
| Requests.BodyParsedOnlyWhenAsked | src/main/java/com/nocoder/minitomcat/request/Request.java:192-196 | body parameters are parsed only when `Content-Length` is present and not `"0"`; an empty `Content-Length` list throws |
| Requests.ParseRequest | src/main/java/com/nocoder/minitomcat/request/Request.java:169-200 | input of at most one CRLF line is `RequestInvalidException` |
| Requests.NewRequest | src/main/java/com/nocoder/minitomcat/request/Request.java:169-203 | the constructor builds exactly the request `ParseRequest` describes, with no session, or throws its error |
| Requests.ParseLinesInto | src/main/java/com/nocoder/minitomcat/request/Request.java:183-200 | header parsing, body bytes and body parameters in order give exactly `ParseLines`, or a parse error |
| Requests.ParsedRequestShape | src/main/java/com/nocoder/minitomcat/request/Request.java:169-203 | a parsed request has at least two lines, a known method, no `Cookie` header, and the last line as its body |
| Requests.UnknownMethodIsParseError | src/main/java/com/nocoder/minitomcat/request/Request.java:267 | an unknown method is `RequestParseException` |
| Requests.SessionFromCookies | src/main/java/com/nocoder/minitomcat/request/Request.java:234-242 | the session of the first `JSESSIONID` cookie the context knows, and none when no such cookie exists |
| Requests.Request.GetSession | src/main/java/com/nocoder/minitomcat/request/Request.java:230-248 | the session already attached, else the session of the first known `JSESSIONID` cookie, else null or, when asked, a new session whose cookie goes to the response |
| Requests.ParameterAsWritten | src/main/java/com/nocoder/minitomcat/request/Request.java:147-153 | as written: null parameters throw `NullPointerException`, an empty value list throws `IndexOutOfBoundsException`, otherwise the corrected answer |
| Requests.ParameterValuesAsWritten | src/main/java/com/nocoder/minitomcat/request/Request.java:155-160 | as written: it throws exactly when the parameters are null, otherwise the corrected answer |
| Requests.Parameter | src/main/java/com/nocoder/minitomcat/request/Request.java:147-153 | the first value of the key, or null when there is none |
| Requests.ParameterValues | src/main/java/com/nocoder/minitomcat/request/Request.java:155-160 | every value of the key, or null when it is absent |
| Requests.ParamsStayNull | src/main/java/com/nocoder/minitomcat/request/Request.java:147-153 | without a query string or `Content-Length`, the parameters stay null and `getParameter` throws |
| Requests.CommaOnlyValue | src/main/java/com/nocoder/minitomcat/request/Request.java:152 | `k=,` stores an empty value list, on which `getParameter` throws |
| HttpRequests.NullText | src/main/java/com/nocoder/minitomcat/request/HttpServletRequestImpl.java:145-146 | `StringBuffer.append` writes a null string as `null` |
| HttpRequests.HttpServletRequest.constructor | src/main/java/com/nocoder/minitomcat/request/HttpServletRequestImpl.java:47-49 | wraps the request; the input stream is not yet taken |
| HttpRequests.HttpServletRequest.GetHeader | src/main/java/com/nocoder/minitomcat/request/HttpServletRequestImpl.java:67-70 | the first stored value. An absent header is a null dereference and an empty list an index error, not null. |
| HttpRequests.HttpServletRequest.GetHeaders | src/main/java/com/nocoder/minitomcat/request/HttpServletRequestImpl.java:72-80 | the stored list, or an empty enumeration for an absent header |
| HttpRequests.HeaderIsFirstOfHeaders | src/main/java/com/nocoder/minitomcat/request/HttpServletRequestImpl.java:67-80 | `getHeader` succeeds exactly when `getHeaders` is non-empty, and returns its first element |
| HttpRequests.HttpServletRequest.GetIntHeader | src/main/java/com/nocoder/minitomcat/request/HttpServletRequestImpl.java:88-91 | the first value as an `int`, a number-format error when it is not one, and the header's own error otherwise |
| HttpRequests.HttpServletRequest.GetContentLength | src/main/java/com/nocoder/minitomcat/request/HttpServletRequestImpl.java:242-250 | `getIntHeader("Content-Length")` |
| HttpRequests.ContentLengthReadsBack | src/main/java/com/nocoder/minitomcat/request/HttpServletRequestImpl.java:242-245 | a `Content-Length` written as a decimal `int` reads back as that number |
| HttpRequests.HttpServletRequest.GetContentType | src/main/java/com/nocoder/minitomcat/request/HttpServletRequestImpl.java:252-255 | the first stored `Content-Type` value; an absent header is a `NullPointerException` and an empty value list an `IndexOutOfBoundsException` |
| HttpRequests.HttpServletRequest.GetRequestURL | src/main/java/com/nocoder/minitomcat/request/HttpServletRequestImpl.java:143-148 | scheme, `://`, server name (null), `:`, port (0) and URI: `http://null:0` followed by the URI |
| HttpRequests.ConstantAnswers | src/main/java/com/nocoder/minitomcat/request/HttpServletRequestImpl.java:287-305 | protocol `HTTP/1.1`, scheme `http`, server name null, port 0 |
| HttpRequests.HttpServletRequest.GetParameter | src/main/java/com/nocoder/minitomcat/request/HttpServletRequestImpl.java:266-269 | the wrapped request's `getParameter` as written: a `NullPointerException` when the request has no parameters, an `IndexOutOfBoundsException` when the key's value list is empty, and otherwise the key's first value or `null` |
| HttpRequests.HttpServletRequest.GetParameterValues | src/main/java/com/nocoder/minitomcat/request/HttpServletRequestImpl.java:277-280 | the wrapped request's `getParameterValues` as written: a `NullPointerException` exactly when the request has no parameters, and otherwise every value of the key or `null` |
| HttpRequests.ViewOfParsedRequest | src/main/java/com/nocoder/minitomcat/request/HttpServletRequestImpl.java:93-148 | over a parsed request, the adapter shows its method, URI and query string. `getParameter` answers from the parsed parameters when it does not throw, and throws on every request with neither a query string nor a `Content-Length` header. `getHeader("Cookie")` throws because parsing removed that header. |
| HttpRequests.HttpServletRequest.GetInputStream | src/main/java/com/nocoder/minitomcat/request/HttpServletRequestImpl.java:257-264 | the first call returns a fresh stream at the start of the body; every later call is `IllegalStateException` |
| HttpRequests.InputStreamOnce | src/main/java/com/nocoder/minitomcat/request/HttpServletRequestImpl.java:257-264 | two calls: the first opens the whole body, the second throws |
| Contexts.ServletContext.constructor | src/main/java/com/nocoder/minitomcat/context/ServletContext.java:224-237 | empty tables filled from the descriptor as `ParseConfig` does, and no sessions |
| Contexts.ServletContext.ParseConfig | src/main/java/com/nocoder/minitomcat/context/ServletContext.java:267-309 | servlets and filters are put by name; each servlet pattern is put with its servlet name; each filter name is appended to its pattern's list in document order |
| Contexts.HolderPairs | src/main/java/com/nocoder/minitomcat/context/ServletContext.java:273-278 | one uninstantiated holder per declaration, in order |
| Contexts.PatternPairs | src/main/java/com/nocoder/minitomcat/context/ServletContext.java:282-286 | one `(pattern, name)` pair per URL pattern of a mapping |
| Contexts.PutDeclarations | src/main/java/com/nocoder/minitomcat/context/ServletContext.java:273-278 | the declaration loop puts every holder in order |
| Contexts.PutMappings | src/main/java/com/nocoder/minitomcat/context/ServletContext.java:280-287 | the servlet-mapping loop puts every `(pattern, name)` pair in order |
| Contexts.PutPatterns | src/main/java/com/nocoder/minitomcat/context/ServletContext.java:284-286 | the inner loop puts one mapping's patterns |
| Contexts.AppendMappings | src/main/java/com/nocoder/minitomcat/context/ServletContext.java:297-309 | the filter-mapping loop appends every name to its pattern's list in order |
| Contexts.AppendPatterns | src/main/java/com/nocoder/minitomcat/context/ServletContext.java:301-308 | the inner loop creates a missing list, then appends |
| Contexts.MappingPairsSnoc | src/main/java/com/nocoder/minitomcat/context/ServletContext.java:281-286 | one more mapping adds its pattern pairs at the end |
| Contexts.PutAllAppend | src/main/java/com/nocoder/minitomcat/context/ServletContext.java:280-287 | putting two lists of pairs in turn is putting their concatenation |
| Contexts.AppendedAppend | src/main/java/com/nocoder/minitomcat/context/ServletContext.java:297-309 | appending two lists of pairs in turn is appending their concatenation |
| Contexts.ServletMappingLastWins | src/main/java/com/nocoder/minitomcat/context/ServletContext.java:280-287 | a pattern maps to the servlet of its last mapping in the descriptor |
| Contexts.FilterNamesInDocumentOrder | src/main/java/com/nocoder/minitomcat/context/ServletContext.java:297-309 | a pattern's filter list is its earlier list followed by every filter name mapped to it, in document order, duplicates kept |
| Contexts.InstanceCreatedAtMostOnce | src/main/java/com/nocoder/minitomcat/context/ServletContext.java:149-162 | once a holder has an instance, later initialisations keep it, whatever reflection would now return |
| Contexts.ServletContext.InitAndGetServlet | src/main/java/com/nocoder/minitomcat/context/ServletContext.java:144-163 | an unknown alias is `ServletNotFoundException`; otherwise the holder is instantiated if it was not already, and its instance returned. A failed instantiation leaves it null. |
| Contexts.ServletContext.InitAndGetFilter | src/main/java/com/nocoder/minitomcat/context/ServletContext.java:196-215 | the same for filters, with `FilterNotFoundException` |
| Contexts.BestPattern | src/main/java/com/nocoder/minitomcat/context/ServletContext.java:129-131 | the first pattern after sorting: a candidate no other candidate sorts before, under a strict comparator |
| Contexts.ServletContext.MapServletAsWritten | src/main/java/com/nocoder/minitomcat/context/ServletContext.java:111-135 | `mapServlet` as written: an exact key wins; with no match the default alias is used; in the pattern case the chosen pattern itself is used as the servlet alias |
| Contexts.PatternBranchMisroutes | src/main/java/com/nocoder/minitomcat/context/ServletContext.java:128-133 | a URL `/api/users` matching pattern `/api/*`, which is mapped to the declared servlet `api`, is `ServletNotFoundException` as written, and reaches that servlet when corrected |
| Contexts.ServletContext.MapServlet | src/main/java/com/nocoder/minitomcat/context/ServletContext.java:111-135 | the corrected routing. An exact key wins; otherwise the servlet mapped to the best matching pattern; with no match, the default alias. Unknown aliases throw. |
| Contexts.ServletContext.MapFilter | src/main/java/com/nocoder/minitomcat/context/ServletContext.java:172-187 | one filter per distinct name across all matching patterns. It throws `FilterNotFoundException` exactly when some name is unknown. Each returned filter is its holder's cached instance, and only the holders of matching names are initialised. On the exception the holders initialised before the unknown name keep their instances and every other holder is unchanged. |
| Contexts.ServletContext.GetSession | src/main/java/com/nocoder/minitomcat/context/ServletContext.java:333-335 | the session stored under the id, or null |
| Contexts.ServletContext.CreateSession | src/main/java/com/nocoder/minitomcat/context/ServletContext.java:342-351 | the new session is stored under its id, and a `JSESSIONID` cookie carrying the id is returned for the response |
| Contexts.ServletContext.InvalidateSession | src/main/java/com/nocoder/minitomcat/context/ServletContext.java:357-360 | the session is removed, after which `getSession(id)` is null; other ids are unaffected |
| Contexts.ServletContext.CleanIdleSessions | src/main/java/com/nocoder/minitomcat/context/ServletContext.java:366-375 | the table becomes `LiveSessions` of the old one |
| Contexts.SweepRemovesExactlyExpired | src/main/java/com/nocoder/minitomcat/context/ServletContext.java:369 | a session survives exactly when its whole idle seconds are below the expiry (so removal is non-strict); survivors are unchanged |
| Contexts.ExpiryIsPermanent | src/main/java/com/nocoder/minitomcat/context/ServletContext.java:369 | a session expired at `now` is expired at any later time |
| Contexts.SweepIdempotent | src/main/java/com/nocoder/minitomcat/context/ServletContext.java:366-375 | a second sweep at the same time removes nothing more |

## Left out

- **Threads and blocking.** Threads, `Thread.start`, the acceptor loop, the dispatcher's pool and `doDispatch`, and the idle cleaners' schedules are concurrent machinery. Each poller, the endpoint and the reaper are single-threaded state machines; a started thread is recorded as a value.
- **Selectors.** `Selector.select`, `wakeup` and `SocketChannel.register` are modelled as a map of read registrations, a wake-up flag and the `ready` parameter. Closing a channel cancels its key; the model drops the registrations of closed channels when the next selection starts, which is when the selector deregisters cancelled keys. Selector I/O errors are not modelled.
- NioPollers.NioPoller.Close: an `IOException` from closing one connection escapes the loop and skips `events.clear()` and `selector.close()`; the model's socket close never fails, so that path is not modelled.
- **The socket wrapper.** `NioSocketWrapper` is not part of this model. Its wrapper is reduced to the four fields the poller reads: working, `waitBegin`, open and connected.
- **The clock and ids.** `System.currentTimeMillis`, `Instant.now` and UUID generation are the `now` and `freshId` parameters.
- **Reflection.** `Class.forName(...).newInstance()` and `init()` are the `newInstance` parameter; a failed instantiation returns no instance, as the caught exceptions leave it null.
- **The descriptor.** Reading `web.xml` with dom4j is not modelled; the descriptor is a value. The listener section of `parseConfig`, every listener callback, and `afterRequestCreated` / `afterSessionDestroyed` are left out because they call code that is not part of this model.
- **Text decoding.** `URLDecoder.decode` and UTF-8 decoding of the request are left out. Text is taken as already decoded, and characters become bytes one per character (`Latin1Bytes`), so encoding non-ASCII text is not modelled.
- Requests.Latin1Bytes: `getBytes()` uses the platform charset, which turns each non-ASCII character into one or more bytes (two to four under UTF-8); the model agrees with it on ASCII text only.
- Requests.BodyCutToLength: `parseBody` encodes the body in UTF-8 and cuts it to `Content-Length` bytes; the model cuts to that many characters. The two agree on ASCII bodies only, and a cut inside a multi-byte character, which Java decodes to U+FFFD, is not modelled.
- Requests.Request.ParseBody: the same character-for-byte cut as `BodyCutToLength`.
- JavaStrings.ParseInt: accepts only the ASCII digits `0`-`9`; `Integer.parseInt` also accepts every other Unicode decimal digit (`Character.digit`).
- **Path matching.** `AntPathMatcher.match` and `getPatternComparator` are the `matches` and `better` parameters.
- **Hash-order iteration.** `HashMap` and `HashSet` iteration order is unspecified. `MapFilter` iterates over the name set in an unspecified order, and `BestPattern` picks a minimal pattern without modelling the sort itself.
- **The request adapter's other getters.** Getters that return a constant `null`, `false` or `0` are left out, along with attributes, locales, async and part handling. `getAttribute` and `setAttribute` of `Request` and the context are left out too.
- **Plain delegations.** `GetMethod`, `GetQueryString`, `GetRequestURI`, `GetProtocol`, `GetScheme`, `GetServerName` and `GetServerPort` are defined by their bodies and have no contract of their own. What they return is stated by `ConstantAnswers` and `ViewOfParsedRequest`.
- **Other endpoint members.** `initServerSocket` and `initDispatcherServlet` are reduced to the phases they reach; `execute` and `accept` are I/O. `pollName` and every logging call are left out.
- **The session cleaner thread.** `IdleSessionCleaner` is not part of this model; its sweep is `CleanIdleSessions` with `now` given.
- NioPollers.Selected: `ready` is a list and may name a channel twice, which dispatches its wrapper twice. `selectedKeys()` is a set and never holds a key twice, so the model admits inputs the selector cannot produce; on duplicate-free `ready` the two agree.
- NioPollers.NioPoller.PollOnce: when the selection returns zero keys the loop `continue`s; the model processes an empty `ready` list, which has the same effect.
- Contexts.ServletContext.MapServletAsWritten: in the pattern case it states only that the alias is one of the matching patterns, not which one; that is all the finding needs.
- NioPollers.NioPoller.Events: on a closed selector the model states the outcome up to the first open event; the thrown `ClosedSelectorException` ends the turn, as the poller thread catches it.
- ThreadFactories.NumberedName: holds only until the counter overflows; `NumberedNameAfterOverflow` and `NamesRepeatAfterWrap` state what happens after.

## Findings

| source | as written | input that shows it | evidently intended | confidence | as-written member | corrected member |
|---|---|---|---|---|---|---|
| src/main/java/com/nocoder/minitomcat/request/ServletInputStreamImpl.java:55-58 | the guard `lastIndexRetrieved < data.length` lets the cursor step to `data.length`, so `data[data.length]` is read | any `read` after the last byte, e.g. the first `read` of an empty body | `-1` once every byte has been read | not executed | InputStreams.ReadPastEndThrows | InputStreams.WholeBodyThenEnd |
| src/main/java/com/nocoder/minitomcat/request/ServletInputStreamImpl.java:58 | the signed `byte` is returned sign-extended | a body containing the byte `0xFF`, which reads as `-1`, the end-of-stream value | the byte as `0..255`, as `InputStream.read` specifies | not executed | InputStreams.ByteFFReadsAsEnd | InputStreams.ReadsRemaining |
| src/main/java/com/nocoder/minitomcat/network/endpoint/nio/NioEndpoint.java:112-121 | the rollback `close()` first calls `cleaner.shutdown()`, but the cleaner is created by the last step of `start` | any failing start step, e.g. the port cannot be bound: `close()` throws a `NullPointerException` and nothing acquired is released | release whatever was started | not executed | NioEndpoints.NioEndpoint.StartAsWritten | NioEndpoints.NioEndpoint.Start |
| src/main/java/com/nocoder/minitomcat/context/ServletContext.java:131-132 | the best matching pattern is passed to `initAndGetServlet` as if it were a servlet alias | servlet `api` declared and mapped to `/api/*`, request URL `/api/users` | the servlet `servletMapping.get(bestMatch)` | not executed | Contexts.PatternBranchMisroutes | Contexts.ServletContext.MapServlet |
| src/main/java/com/nocoder/minitomcat/request/Request.java:148 | `this.params.get(key)` while `params` is still null | a request with no query string and no `Content-Length`, then `getParameter("k")` throws a `NullPointerException` | null for a missing parameter | not executed | Requests.ParamsStayNull | Requests.Parameter |
| src/main/java/com/nocoder/minitomcat/request/Request.java:152 | `params.get(0)` on an empty value list | query `?k=,` (its values split to no pieces), then `getParameter("k")` throws an `IndexOutOfBoundsException` | null when the key has no value | not executed | Requests.CommaOnlyValue | Requests.Parameter |
