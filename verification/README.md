# Tea Inside Bot: a verified model of its hard parts

The bot is a small Telegram daemon that ships with its own copy of the Swoole extension. This project
models, in Dafny, the parts of both whose behaviour is hardest to see from the code, and proves what
they promise over all inputs and all runs.

* **Coroutine switching** (`Scheduler`, `ContextSwitch`, `PhpCoroutine`). One set of PHP engine globals
  is saved to and restored from per-coroutine records. The class `Engine` overwrites its fields as the
  source does, and running any program on it is proved equal to a run of a machine on values. Over every
  run of that machine, everyone's globals are right at every point (the running coroutine sees exactly
  what it would see if it owned private globals, and every other record holds what its owner needs) if and
  only if every switch happens in a clean state, which is a test of the state before the switch. Programs
  without nested `@` and without an end inside `@` or `array_walk` always pass it.
* **HTTP/2, both peers** (`Http2Frames`, `Http2Flow`, `Http2Response`, `Http2Server`, `Http2Client`,
  `Http2Requests`, `Http2Delivery`, `Http2Ledger`, `Http2Reading`, `Http2RoundTrip`). The classes
  `ServerSession` and `CoroutineClient` are proved equal to steps on values. On these rest the two-sided
  results. Over every run of one connection with frames in flight both ways, every request is handled once
  with exactly its caller's fields and bytes, the server sends on each stream nothing or exactly the one
  response that was given there, and its caller gets that body by any mix of `recv` and `read`, and by
  `recv` as exactly one response. Receive windows balance with the peer's credit in every reachable state,
  over any number of connections of one client and with ids that are used again. The references are
  sections 5.1, 5.1.1, 6.9, 8.1 and 8.1.2.6 of RFC 7540.
* **FastCGI** (`FastCgiParams`, `FastCgiRecord`, `FastCgiMessage`). Records, name-value pairs, the frame
  parser, request and response assembly: sections 3.3, 3.4 and 5.1 to 5.5 of the FastCGI
  Specification 1.0.
* **Concurrent primitives** (`Channel`, `WaitGroup`, `ConnectionPool`, `Futex`), as interleaved steps of
  any number of actors.
* **Framing and printing** (`EofClient`, `DaemonFraming`, `ConfigPrinter`). The synchronous client's
  `recv` with an end-of-packet marker, the bot's length framing through master and logger, and the
  configuration printer against a reader of PHP literals. `PhpBytes` holds PHP strings, `pack`,
  decimals and array keys, `Coroutines` the coroutine ids.

Things that the code turns out not to do, each with a counterexample and the condition under which it
does:

* Nested `@` leaks a silenced error level through a yield (`NestedSilenceLeaks`) and loses the level of
  the coroutine that left (`NestedSilenceForgets`); a coroutine that ends inside `@` or `array_walk`
  leaves its creator there (`CloseInsideSilence`, `CloseInsideWalk`). The exact conditions are
  `YieldExact`, `LaunchExact` and `CloseExact` for one switch and `RunExact` for runs.
* A trailer array without a usable entry loses END_STREAM altogether (`ResponseTerminates`). A header such
  as `Content-Length` survives beside the computed one (`ResponseLength`, `ShadowedLength`), if it was set
  without the lower-casing that `header()` does by default.
* A form body that encodes to nothing leaves its stream open, and the next request breaks that stream
  (`FailedFormBreaks`); all streams stay intact if and only if no request follows one (`UnbrokenIff`).
* A peer of the client runs out of connection credit for good. It is starved if and only if what its DATA
  took off the window without being given back, and what the client skipped of it, come to 65535 bytes
  (`RunsDryIff`). That happens in two ways. A second connection of the same client keeps the old receive
  window; if that is MAX/4 + 65535 or more, nothing is ever given back. And on any connection DATA of a
  pushed stream is skipped and never given back (`PushStarves`).
* That second connection also announces the window that is left as the credit of every stream. The credit
  of a stream whose id is used for the first time passes the maximum if and only if this window is not the
  default; with an id that is used again, if and only if its peer was ahead of the default
  (`OverflowIff`, and `SecondConnection` for a run).
* A FastCGI body `"0"` is never sent (`RequestAssembly`); a Params payload over 65535 bytes loses the
  framing (`OversizedParamsLoseFraming`).
* A failed replacement can strand a waiting `get` of the pool (`FailureCanStrandAGetter`); nobody ever
  waits beside free room if and only if constructions fail only while nobody waits (`WaitsInVainIff`).
* The master may pass on a frame that lacks its last one or two bytes (`MasterExact`), and payloads of
  65536 bytes or more never arrive whole (`DeliveryExact`).
* Behind a packet longer than 2^31 - 65536 bytes `recv` can lose what has arrived, and it does if the
  socket fills every read (`LongerPacketsLoseTheRest`, `PopExact`); shorter ones never do.
* The printer writes `$` so that it reads back with a backslash in front, and it leaves out keys that a
  reader fills in differently (`PrintedReadsBack`, `DollarMisprints`, `KeyMisprints`).

Where code and comments disagree, the model follows the code: `http2_client::parse_frame` says that only
the connection window is controlled, but it controls both windows.

## Model

| member | source | states |
|---|---|---|
| `Scheduler.StepKeeps` | src/ext/swoole/src/coroutine/base.cc:33-99 | every create, yield, resume and close keeps: origins from the current coroutine end at main without repetition, every live coroutine is on that chain or parked, each parked one has exactly one wake-up source |
| `Scheduler.OriginsReachMain` | src/ext/swoole/swoole_coroutine.cc:258-280 | after every run the origin chain reaches main, a cid is in the user table exactly if a user yield parked it, and none awaits both the user and an interrupt |
| `Scheduler.EachYieldResumedOnce` | src/ext/swoole/swoole_coroutine.cc:1026-1053 | over every run, user yields of a coroutine = successful user resumes + 1 if it is in the table |
| `Scheduler.EachIoYieldResumedOnce` | src/ext/swoole/src/coroutine/base.cc:33-61 | over every run, blocking yields of a coroutine = events that came for it while it waited + 1 if it still waits for one |
| `Scheduler.InterruptsInOrder` | src/ext/swoole/swoole_coroutine.cc:258-280 | over every run, the coroutines parked by interrupts are those that the event loop woke, in that order, followed by those still queued |
| `Scheduler.LiveCount` | src/ext/swoole/src/coroutine/base.cc:33-99 | over every run, creations below the limit minus ends are the live coroutines, never more than the limit |
| `ContextSwitch.SwitchingRefinesPrivateGlobals` | src/ext/swoole/swoole_coroutine.cc:448-594 | after every run without nested `@` and without an end inside `@` or `array_walk`, the running coroutine sees the VM fields, walk state, output buffers and error level of a machine where everyone owns private copies |
| `ContextSwitch.MachineStepKeeps` | src/ext/swoole/swoole_coroutine.cc:448-594 | the simulation relation between shared and private globals is kept by every switch and every local change |
| `ContextSwitch.SwapIntact` | src/ext/swoole/swoole_coroutine.cc:541-594 | a switch keeps the schedule consistent and exactly the live coroutines and main with records |
| `ContextSwitch.YieldExact` | src/ext/swoole/swoole_coroutine.cc:541-558 | from a state where everyone's globals are right, a yield or resume leads to such a state (the next view, the record of the one that left and all others) if and only if the leaving record is in `@` or the level is the base level, and the level left behind is the base level or the next record is in `@` |
| `ContextSwitch.LaunchExact` | src/ext/swoole/swoole_coroutine.cc:596-684 | so does a creation, if and only if the creator's level is kept and the base level is left for the new coroutine |
| `ContextSwitch.CloseExact` | src/ext/swoole/swoole_coroutine.cc:560-594 | so does a close, if and only if no `array_walk` state is left behind (or the origin has its own) and the level is the base level or the origin's record is in `@` |
| `ContextSwitch.SwapExact` | src/ext/swoole/swoole_coroutine.cc:541-594 | the same for whatever switch an event makes, on the two schedules as the event changes them |
| `ContextSwitch.RunExact` | src/ext/swoole/swoole_coroutine.cc:448-594 | over every run, everyone's globals are right after every prefix if and only if every switch happens in a clean state |
| `ContextSwitch.NestedSilenceLeaks` | src/ext/swoole/swoole_coroutine.cc:243-256 | after the inner of two nested `@` has ended, a yield shows every unsilenced coroutine a silenced level |
| `ContextSwitch.NestedSilenceForgets` | src/ext/swoole/swoole_coroutine.cc:243-256 | a resume of a silenced coroutine there shows that one its own globals, but when the first is resumed it sees the base level inside its open `@` |
| `ContextSwitch.CloseInsideSilence` | src/ext/swoole/swoole_coroutine.cc:560-594 | a run: the main program creates a coroutine that ends inside `@`, and then sees level 0 instead of its own |
| `ContextSwitch.CloseInsideWalk` | src/ext/swoole/swoole_coroutine.cc:560-594 | a run: one that ends inside `array_walk` leaves its creator inside it |
| `PhpCoroutine.Engine.SaveVmStack` | src/ext/swoole/swoole_coroutine.cc:448-477 | moves exactly the saved fields, the walk state and the silenced level into the record |
| `PhpCoroutine.Engine.RestoreVmStack` | src/ext/swoole/swoole_coroutine.cc:479-503 | puts them back and marks the stored walk state as used |
| `PhpCoroutine.Engine.SaveOg` | src/ext/swoole/swoole_coroutine.cc:505-517 | output buffers move to the record only if there are any |
| `PhpCoroutine.Engine.RestoreOg` | src/ext/swoole/swoole_coroutine.cc:519-527 | and come back from it |
| `PhpCoroutine.Engine.SwapTasks` | src/ext/swoole/swoole_coroutine.cc:541-558 | `on_yield` and `on_resume` exchange two records in place as the machine does |
| `PhpCoroutine.Engine.Create` | src/ext/swoole/swoole_coroutine.cc:766-797 | keeps the invariant and equals the machine's creation step; at the limit it returns -1 and changes nothing |
| `PhpCoroutine.Engine.MainFunc` | src/ext/swoole/swoole_coroutine.cc:596-684 | a new coroutine starts with its own frame and a clean record |
| `PhpCoroutine.Engine.UserYield` | src/ext/swoole/swoole_coroutine.cc:1047-1053 | keeps the invariant and equals the machine's user yield |
| `PhpCoroutine.Engine.UserResume` | src/ext/swoole/swoole_coroutine.cc:1026-1045 | resumes exactly the coroutines in the user table and says so |
| `PhpCoroutine.Engine.IoYield` | src/ext/swoole/src/coroutine/base.cc:33-43 | a blocking call parks the running coroutine |
| `PhpCoroutine.Engine.IoResume` | src/ext/swoole/src/coroutine/base.cc:45-61 | its event makes it current again, on top of whoever runs |
| `PhpCoroutine.Engine.InterruptYield` | src/ext/swoole/swoole_coroutine.cc:268-280 | queues its own resume and parks |
| `PhpCoroutine.Engine.InterruptResume` | src/ext/swoole/swoole_coroutine.cc:258-266 | the oldest queued resume wakes its coroutine |
| `PhpCoroutine.Engine.CloseCurrent` | src/ext/swoole/swoole_coroutine.cc:560-594 | flushes output, drops the record, restores the origin; keeps the invariant |
| `PhpCoroutine.Engine.BeginSilence` | src/ext/swoole/swoole_coroutine.cc:243-249 | records the level that `@` replaces |
| `PhpCoroutine.Engine.EndSilence` | src/ext/swoole/swoole_coroutine.cc:251-256 | ends the innermost `@` |
| `PhpCoroutine.Engine.Execute` | src/ext/swoole/swoole_coroutine.cc:448-594 | any list of events, performed on the object, keeps the invariant and leads to the state of the machine's run |
| `PhpCoroutine.RunProgram` | src/ext/swoole/swoole_coroutine.cc:448-594 | after any program that is tame or switches only in clean states, the object shows the running coroutine its own globals |
| `Http2Frames.PhaseMeans` | src/ext/swoole/include/http2.h:42-181 | a stream is unbroken if and only if HEADERS comes first, only DATA follows and END_STREAM is on no frame but the last |
| `Http2Frames.CutCarries` | src/ext/swoole/swoole_http2_server.cc:461-500 | the DATA frames of a body concatenate to the body |
| `Http2Frames.CutEnds` | src/ext/swoole/swoole_http2_client_coro.cc:1197-1227 | they end an open stream exactly if asked to and the body is not empty |
| `Http2Frames.CutFits` | src/ext/swoole/swoole_http2_client_coro.cc:1197-1227 | each is non-empty, within the frame size and on its stream |
| `Http2Flow.ConsumeBalances` | src/ext/swoole/swoole_http2_server.cc:961-976 | the 32-bit subtraction does not wrap for a covered frame, what is sent back is what the window gained, and a window is at least MAX/4 after a non-empty frame |
| `Http2Flow.StepKeeps` | src/ext/swoole/swoole_http2_server.cc:939-976 | with a peer that honours its credit, every event keeps: window = credit + DATA on the way + updates on the way + bytes dropped, on the connection up to what the opening window was ahead of the default, on every known stream up to what the peer's side was ahead of the default when the stream was registered; and windows stay in bounds |
| `Http2Flow.AgreesIff` | src/ext/swoole/swoole_http2_server.cc:939-976 | so window and peer's side are equal if and only if they were equal at the opening, respectively at the registration |
| `Http2Flow.ArrivalIsCovered` | src/ext/swoole/swoole_http2_client_coro.cc:705-724 | a frame on a known stream never exceeds either window, and both are at least MAX/4 after a non-empty one |
| `Http2Flow.NeverStarved` | src/ext/swoole/swoole_http2_server.cc:961-976 | with nothing on the way the credit is what the balance leaves after what was dropped; it is positive while less than 65535 bytes were dropped on a connection that opened with the default, or none on one that opened below MAX/4 + 65535, and on a stream whose peer was told at least the default |
| `Http2Flow.FirstDataFillsUp` | src/ext/swoole/swoole_http2_client_coro.cc:717-724 | the first DATA on a stream fills its window up, whatever the peer was told to start with |
| `Http2Flow.OverflowIff` | src/ext/swoole/swoole_http2_client_coro.cc:705-724 | when that has reached it, the peer's credit exceeds 2^31-1 if and only if it was told more than the default |
| `Http2Flow.CreditInRange` | src/ext/swoole/swoole_http2_client_coro.cc:705-724 | a peer that was told no more than the default never holds more credit than 2^31-1 |
| `Http2Flow.StepStaysDry` | src/ext/swoole/swoole_http2_client_coro.cc:705-724 | on a connection that opened with MAX/4 + 65535 or more no event ever sends an update of the connection window |
| `Http2Flow.StarvedIff` | src/ext/swoole/swoole_http2_client_coro.cc:705-724 | on every balanced link, whatever it opened with, the peer is starved if and only if the bytes taken off the window and not given back, and those dropped, come to 65535 |
| `Http2Flow.StarvedStays` | src/ext/swoole/swoole_http2_client_coro.cc:705-724 | a peer without credit and without updates on the way never gets credit again |
| `Http2Ledger.ServerAccepts` | src/ext/swoole/swoole_http2_server.cc:939-976 | the server's DATA branch changes the windows and answers exactly as the ledger says |
| `Http2Ledger.ServerLedger` | src/ext/swoole/swoole_http2_server.cc:831-1062 | in every reachable state of the session the ledger balances |
| `Http2Ledger.ServerWindows` | src/ext/swoole/swoole_http2_server.cc:831-1062 | there, the session's window is the peer's side, and so is a stream's up to what the peer had ahead when it was opened |
| `Http2Ledger.ServerRunsDryIff` | src/ext/swoole/swoole_http2_server.cc:939-976 | and the peer is starved if and only if the window equals the bytes that were dropped |
| `Http2Ledger.ClientAccepts` | src/ext/swoole/swoole_http2_client_coro.cc:666-725 | so does the client's, and the streams it closes are exactly those whose frame ended them |
| `Http2Ledger.ClientLedger` | src/ext/swoole/swoole_http2_client_coro.cc:497-765 | in every reachable state, over any number of connections and ids that are used again, the client's ledger balances with what its windows started ahead |
| `Http2Ledger.ClientWindows` | src/ext/swoole/swoole_http2_client_coro.cc:497-765 | there, the connection window is the peer's side if and only if the connection opened with the default window |
| `Http2Ledger.ReconnectOpens` | src/ext/swoole/swoole_http2_client_coro.cc:389-495 | a later connection opens with the window that is left, which is the default or from MAX/4 to MAX |
| `Http2Ledger.RunsDryIff` | src/ext/swoole/swoole_http2_client_coro.cc:497-765 | over every run of any number of connections, the peer is starved if and only if what was taken off the window and not given back, and what was dropped, come to 65535 bytes; nothing is given back where the connection opened with MAX/4 + 65535 or more, and only dropped bytes starve where it did not |
| `Http2Ledger.PushStarves` | src/ext/swoole/swoole_http2_client_coro.cc:648-672 | a run of a first connection: a promise to push is ignored, the pushed DATA, in frames of any sizes, is skipped, and after 65535 bytes the peer is starved |
| `Http2Ledger.OverflowIff` | src/ext/swoole/swoole_http2_client_coro.cc:892-931 | the top-up of a stream takes its peer past 2^31-1 if and only if the peer's side was ahead of the default when the stream was registered; for an id used for the first time, if and only if the connection opened with more than the default, which it announces as every stream's credit |
| `Http2Ledger.SecondConnection` | src/ext/swoole/swoole_http2_client_coro.cc:389-495 | a run: one answered request, a second connection that opens with MAX, one answered request there, and a stream credit of 2 MAX - 65535 |
| `Http2Response.AddUserFields` | src/ext/swoole/swoole_http2_server.cc:280-312 | the loop keeps the usable headers except content-length, in order and in lower case, and its flags say which of the three defaults are named |
| `Http2Response.BuildHeader` | src/ext/swoole/swoole_http2_server.cc:259-373 | status, user headers, missing defaults, cookies, encoding and length make up exactly the header list |
| `Http2Response.HeaderValues` | src/ext/swoole/swoole_http2_server.cc:259-373 | for every name, exactly which values the header list gives and in which order: the status, the user's headers in lower case, a default unless the user names it, the cookies that are strings, the encoding if compressed, the length |
| `Http2Response.ShadowedLength` | src/ext/swoole/swoole_http2_server.cc:293-296 | any other spelling of content-length is sent beside the real one |
| `Http2Response.SpelledLength` | src/ext/swoole/swoole_http.h:315-337 | `Content-Length` is such a spelling |
| `Http2Response.LowerExact` | src/ext/swoole/swoole_http.h:315-337 | names are put into lower case letter by letter, and nothing else about them changes |
| `Http2Response.ContentLengthExact` | src/ext/swoole/swoole_http2_server.cc:260-405 | the header list has exactly one content-length, the sent length, if and only if no user header equals it only after lower-casing |
| `Http2Response.ResponseTerminates` | src/ext/swoole/swoole_http2_server.cc:523-590 | END_STREAM is on the last frame and no other if and only if there is no trailer or one with a usable entry; otherwise on none |
| `Http2Response.ResponseCarries` | src/ext/swoole/swoole_http2_server.cc:528-561 | DATA concatenates to the application's body, or to what the compressor makes of it where the peer accepts that, the body is not empty and it succeeds |
| `Http2Response.ResponseHeads` | src/ext/swoole/swoole_http2_server.cc:414-460 | the HEADERS frames carry the header list and then the usable entries of the trailer |
| `Http2Response.ResponseDecodes` | src/ext/swoole/swoole_http2_server.cc:528-540 | somebody who decodes what is announced as encoded gets the application's body, unless the application sends a content-encoding of its own |
| `Http2Response.ResponseLength` | src/ext/swoole/swoole_http2_server.cc:365-373 | the content-length sent is the total of the DATA payloads if and only if nothing shadows it |
| `Http2Server.ServerSession.Parse` | src/ext/swoole/swoole_http2_server.cc:831-1062 | each frame changes the session, answers and hands over requests as `Receive` says |
| `Http2Server.ServerSession.SettingsFrame` | src/ext/swoole/swoole_http2_server.cc:852-901 | the loop applies the options in order |
| `Http2Server.SettingsInForce` | src/ext/swoole/swoole_http2_server.cc:852-901 | after a SETTINGS frame the last value given for an option is in force and nothing else has changed |
| `Http2Server.ControlFrames` | src/ext/swoole/swoole_http2_server.cc:1001-1062 | PING is answered with its own data, RST_STREAM drops exactly its stream, WINDOW_UPDATE raises exactly the window it names, the others change nothing |
| `Http2Server.RefusedExactly` | src/ext/swoole/swoole_http2_server.cc:939-960 | a frame is an error if and only if it is DATA for a stream that is not there, and then nothing changes |
| `Http2Server.ServerSession.DataFrame` | src/ext/swoole/swoole_http2_server.cc:939-1000 | DATA is appended and charged on a known stream and refused on another |
| `Http2Server.ServerSession.SendBody` | src/ext/swoole/swoole_http2_server.cc:461-500 | the loop sends the cut body |
| `Http2Server.ServerSession.Respond` | src/ext/swoole/swoole_http2_server.cc:523-590 | sends the response frames, which convey the application's body, charges them to the send window and removes the stream |
| `Http2Server.ServerSession.constructor` | src/ext/swoole/swoole_http2_server.cc:67-77 | a session starts without streams and with default windows |
| `Http2Client.CoroutineClient.Open` | src/ext/swoole/swoole_http2_client_coro.cc:389-460 | a connection starts at stream 1 with default remote settings and keeps the local ones |
| `Http2Client.CoroutineClient.Shut` | src/ext/swoole/swoole_http2_client_coro.cc:462-495 | closing drops all streams |
| `Http2Client.CoroutineClient.SendData` | src/ext/swoole/swoole_http2_client_coro.cc:1197-1227 | the loop sends the cut body |
| `Http2Client.CoroutineClient.SendRequest` | src/ext/swoole/swoole_http2_client_coro.cc:1229-1319 | HEADERS, body, next id, and the half-done state after a failed form |
| `Http2Client.CoroutineClient.WriteData` | src/ext/swoole/swoole_http2_client_coro.cc:1321-1369 | accepts exactly the writes on pipelined streams that have not ended |
| `Http2Client.CoroutineClient.SettingsFrame` | src/ext/swoole/swoole_http2_client_coro.cc:526-580 | the loop applies the options in order |
| `Http2Client.SettingsInForce` | src/ext/swoole/swoole_http2_client_coro.cc:526-580 | after a SETTINGS frame the last value given for an option is in force |
| `Http2Client.ControlFrames` | src/ext/swoole/swoole_http2_client_coro.cc:518-620 | SETTINGS and PING are acknowledged unless they are acknowledgements, and change nothing but the limits |
| `Http2Client.StreamFrames` | src/ext/swoole/swoole_http2_client_coro.cc:589-660 | WINDOW_UPDATE raises exactly the window it names, RST_STREAM drops exactly its stream, GOAWAY all and the connection, PUSH_PROMISE nothing |
| `Http2Client.CoroutineClient.DataFrame` | src/ext/swoole/swoole_http2_client_coro.cc:680-725 | payload into the buffer, both windows charged, updates sent |
| `Http2Client.CoroutineClient.MessageFrame` | src/ext/swoole/swoole_http2_client_coro.cc:666-765 | what is returned, what stays buffered, and which stream is closed |
| `Http2Client.CoroutineClient.ParseFrame` | src/ext/swoole/swoole_http2_client_coro.cc:497-765 | each frame acts as `Parse` says |
| `Http2Client.CoroutineClient.Receive` | src/ext/swoole/swoole_http2_client_coro.cc:1420-1455 | the driver parses frames until one is to be returned, the connection is gone or there are no more |
| `Http2Requests.EveryRunKeeps` | src/ext/swoole/swoole_http2_client_coro.cc:1229-1369 | over any mix of sends, writes and received frames every stream sends HEADERS with its caller's fields, then DATA, END_STREAM once exactly if its caller ended it, nothing after it, and its payloads are exactly the strings and form encodings that the callers passed |
| `Http2Requests.SendCarries` | src/ext/swoole/swoole_http2_client_coro.cc:1229-1319 | a request sends its fields and exactly its string, or the form encoding of its array, on the id that it returns |
| `Http2Requests.PutCarries` | src/ext/swoole/swoole_http2_client_coro.cc:1321-1369 | a write is accepted if and only if the stream takes data and the body is not an array that encodes to nothing, and then appends exactly its bytes |
| `Http2Requests.IdsIncrease` | src/ext/swoole/swoole_http2_client_coro.cc:1229-1319 | returned ids are odd, strictly increasing and below 2^31 for the first 2^30 requests |
| `Http2Requests.FailedFormBreaks` | src/ext/swoole/swoole_http2_client_coro.cc:1287-1294 | from a form that encodes to nothing on, through any writes and received frames, the next request breaks the stream that it reuses |
| `Http2Requests.UnbrokenIff` | src/ext/swoole/swoole_http2_client_coro.cc:1229-1369 | over every run, no stream is ever broken if and only if no request is sent after a form has failed |
| `Http2Requests.Perform` | src/ext/swoole/swoole_http2_client_coro.cc:1229-1369 | any run of calls, performed on a client object, leads to that state, frames and returned ids |
| `Http2Delivery.EveryRunKeeps` | src/ext/swoole/swoole_http2_server.cc:903-1000 | at the server an unbroken stream is handled exactly when its end has arrived, once, with its fields and payloads |
| `Http2Delivery.Serve` | src/ext/swoole/swoole_http2_server.cc:831-1062 | any run of frames and replies, performed on a session object, leads to that state and hands over those requests |
| `Http2Delivery.DeliverySafe` | src/ext/swoole/swoole_http2_server.cc:903-1000 | while frames are still on the way, nothing is handled but completed requests, each at most once and with exactly its caller's fields and bytes |
| `Http2Delivery.DeliveryComplete` | src/ext/swoole/swoole_http2_client_coro.cc:1197-1369 | once all has arrived, what was handled on every stream is exactly what the client's callers completed there |
| `Http2Delivery.SendWindowCounts` | src/ext/swoole/swoole_http2_server.cc:1016-1028 | over every run without an announced initial window, the send window is the default plus the increments received minus the bytes of the responses sent, in 32 bits |
| `Http2Reading.NothingIsLost` | src/ext/swoole/swoole_http2_client_coro.cc:666-765 | for any interleaving and any mode per frame: data returned + data buffered = payloads received up to the end, and the stream is known exactly until then |
| `Http2Reading.NoFieldIsLost` | src/ext/swoole/swoole_http2_client_coro.cc:666-765 | so do the fields: those returned + those kept = those received up to the end |
| `Http2Reading.ParseReturns` | src/ext/swoole/swoole_http2_client_coro.cc:727-765 | `recv` returns if and only if the frame ends a response it waits for, `read` also with any frame of one that has brought DATA without an end; the result has all that was collected, and is marked as a part if and only if the frame is not the end |
| `Http2Reading.ReturnsExactly` | src/ext/swoole/swoole_http2_client_coro.cc:672-765 | the same over every run, with the history of the frames in place of the stream's flag |
| `Http2Reading.RecvReturnsWhole` | src/ext/swoole/swoole_http2_client_coro.cc:666-765 | over every run of `recv` calls a response is returned exactly once, when it has ended, whole and not as a part |
| `Http2Reading.DriverStops` | src/ext/swoole/swoole_http2_client_coro.cc:1420-1455 | the driver takes frames in order and stops behind the first that is worth returning or closes the connection, and uses all only if none is |
| `Http2Reading.LastIdIsLargest` | src/ext/swoole/swoole_http2_client_coro.cc:497-525 | the last stream id that the client remembers is the largest it has heard of |
| `Http2Reading.SubmitOpens` | src/ext/swoole/swoole_http2_client_coro.cc:1173-1188 | a request opens its stream with nothing collected and default windows, and leaves the others alone |
| `Http2Reading.ResponseArrives` | src/ext/swoole/swoole_http2_client_coro.cc:1420-1455 | a response of this server comes back as the application's body, or its compressed form, by any mix of `recv` and `read` |
| `Http2Reading.ResponseArrivesWhole` | src/ext/swoole/swoole_http2_client_coro.cc:1420-1455 | by `recv` alone as exactly one response, with the header list and trailer of the answer |
| `Http2RoundTrip.EveryRunJoins` | src/ext/swoole/swoole_http2_server.cc:831-1062 | over every run of one connection, with frames in flight both ways: on each stream nothing is lost or reordered, the server answers a stream at most once and only after its end, and what the client returned and buffers is what it has heard |
| `Http2RoundTrip.RequestsArrive` | src/ext/swoole/swoole_http2_client_coro.cc:1229-1369 | so a request is handled at most once, with exactly its caller's fields and bytes, only if its caller completed it, and certainly once its frames have arrived; only handled requests are answered |
| `Http2RoundTrip.ResponsesArrive` | src/ext/swoole/swoole_http2_server.cc:523-590 | the server's frames on a stream are none or exactly the one response given there; the caller gets a beginning of the application's body (or of its compressed form) and, when all has arrived, the whole; then the stream is closed if and only if the response ends |
| `Http2RoundTrip.CallerGetsResponse` | src/ext/swoole/swoole_http2_client_coro.cc:1420-1455 | a caller that uses `recv` gets exactly one response for its answered request when all of it has arrived, with the answer's header list, trailer and body, and nothing before; none if the response does not end |
| `Http2RoundTrip.Converse` | src/ext/swoole/swoole_http2_client_coro.cc:1420-1455 | any such run, performed on a client object and a session object, leads to those states and returns those responses |
| `FastCgiParams.PackPayload` | src/ext/swoole/php_swoole_library.h:4425-4454 | the loop packs the non-null entries in order, and fails on an integer key |
| `FastCgiParams.UnpackPayload` | src/ext/swoole/php_swoole_library.h:4386-4423 | the do-while loop reads pairs until the content is used up, and ends because each pass uses two bytes |
| `FastCgiParams.LengthRoundTrip` | src/ext/swoole/php_swoole_library.h:4386-4454 | one-byte and four-byte lengths are read back, whatever follows |
| `FastCgiParams.ReadLengthExact` | src/ext/swoole/php_swoole_library.h:4386-4423 | which length fields are refused, and the value of the others byte by byte |
| `FastCgiParams.ReadPairExact` | src/ext/swoole/php_swoole_library.h:4386-4423 | a pair is refused if and only if a length is or the bytes are too few; otherwise which bytes it is |
| `FastCgiParams.ParamsRoundTrip` | src/ext/swoole/php_swoole_library.h:4386-4454 | packing succeeds if and only if every present name is a string, and then unpacking gives the present entries in order and ignores what follows |
| `FastCgiRecord.RecordRoundTrip` | src/ext/swoole/php_swoole_library.h:4181-4247 | one record is read back field by field with exactly its bytes used up and a multiple of 8 of them |
| `FastCgiRecord.ReadBackSame` | src/ext/swoole/php_swoole_library.h:4538-4598 | with fields in range, what is read back is what was written apart from the padding |
| `FastCgiRecord.OversizedParamsLoseFraming` | src/ext/swoole/php_swoole_library.h:4232-4247 | a Params payload over 65535 bytes never leaves the parser at the next record |
| `FastCgiRecord.ReadFrames` | src/ext/swoole/php_swoole_library.h:5066-5108 | the loop of `hasFrame` and `parseFrame` cuts the buffer into records and leaves the rest |
| `FastCgiRecord.HasFrameExact` | src/ext/swoole/php_swoole_library.h:5067-5079 | a frame is there if and only if the header and as many bytes as it says are |
| `FastCgiRecord.ParseFailsExactly` | src/ext/swoole/php_swoole_library.h:5088-5108 | `parseFrame` throws if and only if there is no whole frame, the type is unknown or the class cannot read its fields |
| `FastCgiRecord.IncompleteRecord` | src/ext/swoole/php_swoole_library.h:5067-5079 | a record of which bytes are missing is no frame and stays in the buffer as it is |
| `FastCgiRecord.PrefixReads` | src/ext/swoole/php_swoole_library.h:5066-5108 | however many bytes of a stream of records have arrived, exactly the records that are complete are read and the bytes of the next one are left |
| `FastCgiRecord.StreamRoundTrip` | src/ext/swoole/php_swoole_library.h:5066-5108 | any sequence of records is read back record by record in front of whatever follows |
| `FastCgiMessage.RequestToString` | src/ext/swoole/php_swoole_library.h:5216-5239 | the request's bytes are its records and one closing brace |
| `FastCgiMessage.RequestAssembly` | src/ext/swoole/php_swoole_library.h:5216-5239 | a reader gets BeginRequest, Params, empty Params, Stdin records, full but for the last, and an empty one, all of request 1, with the brace left over; they carry the body if and only if it is not "0" |
| `FastCgiMessage.NewResponse` | src/ext/swoole/php_swoole_library.h:5274-5298 | body and error text are the Stdout and Stderr contents in order, or an exception for a bad record list |
| `FastCgiMessage.ResponseAssembly` | src/ext/swoole/php_swoole_library.h:5274-5298 | whatever the interleaving, a response is accepted if and only if it ends with EndRequest, and both texts are what was sent |
| `Channel.PushIsFifo` | src/ext/swoole/src/coroutine/channel.cc:105-151 | a push appends to one FIFO queue or hands over to the longest waiting consumer, and waits exactly when the channel is full |
| `Channel.PopIsFifo` | src/ext/swoole/src/coroutine/channel.cc:57-103 | a pop takes the head and waits exactly when the queue is empty |
| `Channel.EveryRunIsFifo` | src/ext/swoole/src/coroutine/channel.cc:57-151 | over every run of any number of senders and receivers, with timeouts of receivers: the values passed are those received followed by those held, in order |
| `WaitGroup.EveryRunIsSound` | src/ext/swoole/php_swoole_library.h:1448-1484 | over every run, count = the deltas of the calls that did not throw >= 0, nothing is left in the channel even after timeouts, `wait` answers true exactly at count 0 |
| `WaitGroup.ThrowsExactly` | src/ext/swoole/php_swoole_library.h:1448-1484 | when `add`, `done` and `wait` throw, and that they then change nothing |
| `WaitGroup.WaitsExactly` | src/ext/swoole/php_swoole_library.h:1472-1484 | `wait` sleeps if and only if the count is positive, and is ended by the last `done` with true or by its timer with false |
| `ConnectionPool.StepKeeps` | src/ext/swoole/php_swoole_library.h:1733-1787 | every call keeps num = idle + lent + under construction <= size, each connection in one place, and nobody waiting in a push |
| `ConnectionPool.GetExactly` | src/ext/swoole/php_swoole_library.h:1740-1749 | `get` lends the connection that is idle longest, builds one only if none is idle and there is room, and otherwise waits last |
| `ConnectionPool.PutExactly` | src/ext/swoole/php_swoole_library.h:1751-1763 | `put` gives the connection to the `get` that waits longest or makes it idle; `put(null)` replaces it |
| `ConnectionPool.BuiltExactly` | src/ext/swoole/php_swoole_library.h:1772-1787 | who gets a new connection, and when the `get` that built it goes on |
| `ConnectionPool.PopOnExactly` | src/ext/swoole/php_swoole_library.h:1740-1749 | an overtaken `get` takes what is idle longest or waits last |
| `ConnectionPool.FillFills` | src/ext/swoole/php_swoole_library.h:1733-1738 | `fill` takes one turn for each missing connection |
| `ConnectionPool.FillReturns` | src/ext/swoole/php_swoole_library.h:1733-1738 | and returns when the pool holds `size`, the new ones last |
| `ConnectionPool.EveryRunIsSound` | src/ext/swoole/php_swoole_library.h:1733-1787 | so do all runs, with constructor failures and put(null); without failures nobody waits unless the pool is full |
| `ConnectionPool.BuildFailsExact` | src/ext/swoole/php_swoole_library.h:1772-1787 | a failed construction keeps that nobody waits beside free room if and only if nobody was waiting |
| `ConnectionPool.WaitsInVainIff` | src/ext/swoole/php_swoole_library.h:1733-1787 | over every run, that holds after every prefix if and only if every failure comes while nobody waits |
| `ConnectionPool.FailureCanStrandAGetter` | src/ext/swoole/php_swoole_library.h:1772-1787 | a run after which a client waits although nothing is lent or being built and there is room, and which fails that condition |
| `Futex.EveryRunIsSound` | src/ext/swoole/swoole_atomic.cc:23-64 | in every interleaving waits that found the word at 1 + value = initial value + wakeups that found it at 0, counted from the actions; and a set word with a sleeper has a wake or a recheck to come |
| `Futex.WakeupSets` | src/ext/swoole/swoole_atomic.cc:54-64 | after `wakeup` the word is 1, and FUTEX_WAKE is to come if and only if it was 0 |
| `Futex.WaitSleeps` | src/ext/swoole/swoole_atomic.cc:23-52 | a wait that finds the word at 0 goes to sleep, unless it is set in between |
| `Futex.WakeTakesSleepers` | src/ext/swoole/swoole_atomic.cc:54-64 | FUTEX_WAKE wakes exactly the chosen sleepers |
| `Futex.ReturnsExactly` | src/ext/swoole/swoole_atomic.cc:23-64 | after which actions a thread is outside both calls, and that no action ends another's call |
| `Futex.PendingCallsDeliver` | src/ext/swoole/swoole_atomic.cc:23-64 | then calls already under way can make one more wait succeed within two steps |
| `Futex.WakeupDelivers` | src/ext/swoole/swoole_atomic.cc:23-64 | from any sound state with the word at 0 and a sleeper, one `wakeup` followed by calls under way makes a wait succeed |
| `EofClient.Find` | src/ext/swoole/include/swoole.h:1477-1504 | the first place of the marker, or that there is none |
| `EofClient.Client.Recv` | src/ext/swoole/swoole_client.cc:1176-1266 | whatever the socket does, the next packet up to the maximum (below 2^31) is returned whole and the rest kept, except that behind a packet over 2^31 - 65536 bytes the buffer may be lost, and is if the socket fills every read; with a maximum from 65536 on, a longer packet fails after exactly that many bytes, an unfinished one is discarded at the end, and 2^31 bytes without a packet leave the range of the source's `int` |
| `EofClient.Client.Look` | src/ext/swoole/swoole_client.cc:1221-1262 | an answer from what is buffered, or room to read on |
| `EofClient.Client.Grow` | src/ext/swoole/swoole_client.cc:1246-1261 | a full buffer becomes larger and stays within the maximum; at 2^31 bytes the doubling wraps to 0 and fails |
| `EofClient.Client.RecvAll` | src/ext/swoole/swoole_client.cc:1176-1266 | successive calls return exactly the packets of the stream, and what was returned plus what is buffered is what arrived |
| `EofClient.PopExact` | src/ext/swoole/swoole_client.cc:1228-1236 | what follows a packet in the buffer is kept if and only if the buffered length is below 2^31 or nothing follows |
| `EofClient.LongerPacketsLoseTheRest` | src/ext/swoole/swoole_client.cc:1176-1236 | a call of `recv` on a socket that fills every read: a packet over 2^31 - 65536 bytes is returned and all that follows it within the first 2^31 bytes is lost |
| `DaemonFraming.ConnHandler` | daemon/telegram/master.php:38-47 | the master's loop, including one that never ends |
| `DaemonFraming.MasterStops` | daemon/telegram/master.php:38-47 | the master passes on whole reads: the first alone if it does not hold the length, otherwise as few as make up the bytes that the length says |
| `DaemonFraming.LoggerHandler` | daemon/telegram/logger.php:49-58 | the logger's loop |
| `DaemonFraming.LoggerExact` | daemon/telegram/logger.php:49-58 | for every split the logger gets exactly the payload if and only if it is shorter than 65536 bytes and the first read holds the length |
| `DaemonFraming.MasterExact` | daemon/telegram/master.php:38-47 | for every payload and split the master gets a prefix of at least the bytes its length field says, and the whole frame if and only if the payload is shorter than 65536 bytes, the first read holds the length and no read ends one or two bytes early |
| `DaemonFraming.DeliveryExact` | public/webhook/telegram/r1.php:18-22 | through both, a payload arrives if and only if it is empty, or shorter than 65536 bytes while the first read on each connection holds the length and no read of the master ends one or two bytes early |
| `ConfigPrinter.BuildData` | src/classes/ConfigBuilder/ConfigBuilder.php:91-117 | the recursive printer with its loop prints `Build` |
| `ConfigPrinter.BuildConfig` | src/classes/ConfigBuilder/ConfigBuilder.php:55-76 | one `define` per constant, or an exception for a name that is not a string |
| `ConfigPrinter.EscapeFirst` | src/classes/ConfigBuilder/ConfigBuilder.php:82-85 | three passes of replacement act on one character at a time |
| `ConfigPrinter.ReadEscaped` | src/classes/ConfigBuilder/ConfigBuilder.php:82-85 | an escaped string reads back with a backslash before every `$`, and is refused exactly if a `$` starts a variable |
| `ConfigPrinter.ArrayText` | src/classes/ConfigBuilder/ConfigBuilder.php:97-109 | `rtrim` removes the last separator and nothing else |
| `ConfigPrinter.ReadPrinted` | src/classes/ConfigBuilder/ConfigBuilder.php:91-117 | what the printed text of every value denotes, whatever follows it |
| `ConfigPrinter.PrintedReadsBack` | src/classes/ConfigBuilder/ConfigBuilder.php:91-117 | reading gives the value back if and only if it has no `$`, no booleans or floats, no least integer, and every key that equals its position is the next index there |
| `ConfigPrinter.ConfigReadsBack` | src/classes/ConfigBuilder/ConfigBuilder.php:55-76 | the generated file defines exactly the configured constants if and only if each is printable |
| `ConfigPrinter.DollarMisprints` | src/classes/ConfigBuilder/ConfigBuilder.php:82-85 | `$1` comes back with a backslash |
| `ConfigPrinter.KeyMisprints` | src/classes/ConfigBuilder/ConfigBuilder.php:100-107 | keys 5, 1 come back as 5, 6 |

## Left out

- Send-side HTTP/2 flow control: the code keeps the counters, which are modelled, but never waits for them.
- The nine-byte frame header: frames are typed values, so lengths of 2^24 and more, padding, priority and CONTINUATION are not modelled.
- HPACK, zlib and brotli: header lists stand for their encodings and compression is an opaque function; a response of the client's gzip mode is not modelled.
- Failing sends and header decoding errors of both HTTP/2 peers, and `close` on a client socket that is still bound.
- Http2Client.CoroutineClient.ParseFrame: the payload of the PING reply is not modelled, because the source copies it from behind the frame.
- Http2Server.ServerSession.Respond: requires a frame size of at least 1, because with 0 the sending loop of the source does not end.
- Http2Requests.EveryRunKeeps: up to 2^30 requests on a connection, after which the 31-bit ids are used up.
- Http2Ledger.ServerLedger: the peer stays within its credit; where it reuses a stream id with more than the default credit left, its frames are at most 65535 bytes, while 16384 is announced.
- Http2Ledger.ClientLedger: the same for streams that the peer was told to start with more than the default.
- `sendfile`, HTTP/1, PUSH_PROMISE beyond ignoring it, GOAWAY at the server beyond ignoring it, multipart and form parsing of requests.
- EofClient.Client.Recv: socket errors, and the state after lengths have left the range of the source's `int`.
- Http2Reading.ResponseArrivesWhole: the fields of a response are a list; how the response object files status, cookies and repeated names is not modelled.
- EofClient.Client.RecvAll: packets behind which the buffer may be lost are left to `Recv`.
- ContextSwitch.View: the output flags count only with output buffers; outside buffers they say what the process has written so far and are shared by all coroutines in the source too.
- Http2RoundTrip.EveryRunJoins: up to 2^30 requests, without forms that encode to nothing, and without a GOAWAY from the application; what such forms do is `UnbrokenIff`.
- Update in place of `Channel`, `WaitGroup`, `ConnectionPool` and the futex word: they are modelled as interleaved steps on values, because the point is what happens between the steps of different coroutines or threads.
- FastCGI record objects are values: aliasing of a record that is changed after it was serialised is not captured.
- Use of a connection pool after `close`, and a constructor that returns null.
- Fatal-error and bailout paths, defer tasks, `exit` inside a coroutine, and the preemptive scheduler's clock; an interrupt may come at any time.
- The worker that `send_to_logger` chooses and its retry loop, the Telegram API, the database and all other input and output of the bot.
- ConfigPrinter.ReadPrinted: the reader covers the literals that the printer writes; octal, hexadecimal and Unicode escapes and floats with a fraction are not needed for them.
