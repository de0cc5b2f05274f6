# A verified model of the chat server

The program is a main/sub-reactor server that speaks HTTP and, after an upgrade, WebSocket chat.
This project models its stateful algorithms in Dafny and proves what they are for. Each class of the
program that changes its fields is a Dafny class whose methods are proved against functions on
values; whole-run properties are proved about step systems built from those functions.

| file | models |
|---|---|
| Bytes, Io | bytes, options, what a non-blocking system call may answer |
| WsFrame, WebSocketConn | WebSocket framing and one WebSocket connection |
| WsWire | the client's end of RFC 6455: a reader and frames given by bits and numbers, against which the codec is proved |
| ChatRegistry, WebSocketServer, ChatSystem | the chat registry, its class, and every interleaving of its critical sections |
| Timer | the timer manager: a multimap by expiry and an index into it |
| Reactor, ReactorDirection, ReactorEffects, SubReactor | the life of connections in one sub-reactor as a step system, which way each is turned, what every step does to one connection and leaves of the others, and the class that refines it |
| HttpText, HttpRequest, HttpForm | find, trim, stoul, percent decoding, headers, urlencoded forms |
| HttpParserSpec, HttpParser | the resumable request parser as a function, and the class that computes it |
| HttpResume, HttpRoundTrip | feeding the parser in pieces, printing and parsing, pipelining |
| HttpReading | freely spelled request lines, header lines, lengths, escapes and content types |
| Multipart, MultipartForm | multipart bodies: delimiters, part headers, fields and files |
| HttpResponse, HttpConnection | response bytes, schedules of partial writes, and the connection class |
| HttpClient | an exchange as the client sees it: what it asked for, what it reads of the answer, and what becomes of the connection |
| Gate, BlockQueue, ThreadPool, SqlConnectionPool | condition variables with their sleepers and due notifications, and the three monitors |
| LogLine, LogFiles, Log | one log line in its buffer, log rotation and file names, the asynchronous writer |

Conventions. A system call is an oracle: a method takes the list of answers that the calls inside it
will get (`Moved(n)`, would block, error), and when the list runs out the call would block. A region
under one lock is one step. On the HTTP side a byte is a char below 256 and `std::string` is `string`;
on the WebSocket side it is a number below 256. 64-bit sizes wrap where the program lets them wrap.
JSON texts, notices and time stamps are parameters.

## Where the code falls short of a stated property

The code is modelled as it is, and the exact condition is proved.

- The size of a WebSocket frame is a 64-bit sum. A frame takes exactly its header and payload from the buffer if
  and only if the sum does not wrap (`WsFrame.ScanExactUnlessWrapping`). A stream reads the same however it is
  cut if and only if the decoder reaches no text frame whose size wraps with bytes behind its header
  (`WsFrame.ChunkIndependence`, example in `WsFrame.WrappingExample`). Streams in which only frames other than text wrap,
  or a text frame wraps at the very end, lie between `NoWrap` and that: they read the same, though not as section
  5.2 of RFC 6455 would have it.
- A call of the HTTP parser that ends inside a header line keeps the lines it already took in the buffer.
  Header lines read twice do no harm, but a request line read twice is read as a header line. So feeding in pieces
  differs from one call if and only if the call that sees the end of the request line ends inside a later header
  line and the request line is not a header that the request sends anyway: without a colon it is refused, with
  one it comes back as an additional header (`HttpResume.ResumeIff`, example in `HttpResume.SplitMatters`).
- A request that declares a body of length zero is complete only when one more byte arrives
  (`HttpRoundTrip.ZeroLengthWaits`).
- A multipart field whose name ends in `filename=` is taken for a file, and only then
  (`MultipartForms.FieldStaysField`).
- The rotation test of the log looks at the day of the month alone. A line lands in its own day's file if and
  only if the open file already was of that day, the day of the month changed, or the line completes a split
  (`LogFiles.DateFollowsClock`, over whole runs `LogFiles.FileFollowsClock`, example in `LogFiles.MonthApart`).
- `BlockQueue::clear`, which nothing in the repository calls, notifies nobody. A producer asleep at that moment can
  still get up by the doing of those already there if and only if another producer was awake or a notification
  was owed (`BlockQueues.ClearWakesIff`, example of the other case in `BlockQueues.ClearStrands`).
- `ThreadPool::append` accepts tasks after `stop`; exactly the tasks accepted after the last worker left are
  never run (`ThreadPools.JoinedMeansDone`, example in `ThreadPools.LateTask`).
- `write_log` stores its newline where the whole message would end. A line ends in a newline and both stores stay
  in the buffer if and only if stamp and message leave room for them (`LogLines.FormatLine`, example in
  `LogLines.LongMessage`).
- A part header line `Content-Type:` with nothing behind the colon makes the parser throw, and no caller catches it;
  while every file opens, nothing else does (`Multipart.FormThrowsIff`).

## Model

| member | source | states |
|---|---|---|
| WsFrame.MaskTwice | src/websocket/WebSocketConn.cpp:218-222 | unmasking is an involution: masking twice with the same key gives back the payload (section 5.3 of RFC 6455) |
| Bytes.XorBit | src/websocket/WebSocketConn.cpp:218-222 | bit i of the exclusive or of two bytes is set if and only if exactly one of their bits i is |
| WsWire.MaskIs | src/websocket/WebSocketConn.cpp:218-222 | unmasked data is the payload if and only if every bit of every byte of it is the masked bit, turned over where the bit of the key at that place modulo four is set |
| WsFrame.ScanExactUnlessWrapping | src/websocket/WebSocketConn.cpp:151-158 | a frame takes exactly its header and declared payload out of the buffer if and only if the 64-bit sum of the two does not wrap; when it wraps it takes fewer bytes than the header |
| WsFrame.ScanTakesAHeader | src/websocket/WebSocketConn.cpp:114-158 | a turn of the decoding loop takes at least two bytes if and only if the 64-bit size of its frame does not wrap around to zero or one |
| WsFrame.ParseSplit | src/websocket/WebSocketConn.cpp:114-189 | parsing a stream in which no wrapped text frame is reached is parsing any prefix and then resuming with the rest: same texts and pongs in order, same outcome, same leftover |
| WsFrame.ChunkIndependence | src/websocket/WebSocketConn.cpp:34-72 | for every stream a buffer can hold: every cut into reads gives the texts, the pongs, the outcome and (if open) the leftover of one parse of the whole, if and only if the decoder reaches no text frame in it whose 64-bit size wraps around with bytes behind its header |
| WsFrame.LastByteMatters | src/websocket/WebSocketConn.cpp:151-158 | when such a frame is reached, behind whatever other frames, holding back the last byte of the stream changes what is delivered |
| WsFrame.NoWrapIsSafe | src/websocket/WebSocketConn.cpp:151-158 | a stream whose frames all keep their 64-bit sizes from wrapping, as section 5.2 of RFC 6455 has it, reaches no such frame and never gets the loop stuck |
| WsFrame.WrappingExample | src/websocket/WebSocketConn.cpp:132-158 | eleven bytes: a text frame of the largest length and one byte behind its header, cut there, deliver something else than in one piece |
| WsFrame.EncodeScan | src/websocket/WebSocketConn.cpp:191-216 | an encoded frame, masked with any key or unmasked and whatever follows it, decodes to its opcode and payload and takes exactly its own bytes |
| WsFrame.EncodeAllParse | src/websocket/WebSocketConn.cpp:114-189 | any run of frames before a close frame decodes to its texts and pings in order and leaves the bytes behind it untouched |
| WsFrame.ServerRoundTrip | src/websocket/WebSocketConn.cpp:191-216 | decoding the concatenation of packed texts, each shorter than 2^63, gives exactly those texts and an empty buffer |
| WsFrame.EncodePrefixFree | src/websocket/WebSocketConn.cpp:191-216 | no frame is a proper prefix of another, and equal frames have equal first byte, key and payload |
| WsFrame.PackTextIsMinimal | src/websocket/WebSocketConn.cpp:198-210 | no wire form of a text that the decoder accepts is shorter than the one the server picks |
| WsWire.TextReceived | src/websocket/WebSocketConn.cpp:191-216 | a receiver that follows section 5.2 of RFC 6455 by numbers of its own (it refuses reserved bits, masked frames and longer length forms, joins continuations and delivers at FIN) reads a packed text as one whole message, whatever follows |
| WsWire.TextsReceived | src/websocket/WebSocketConn.cpp:191-216 | and any list of packed texts as exactly those messages, in order |
| WsWire.PongReceived | src/websocket/WebSocketConn.cpp:179-185 | and the answer to a ping as one final, empty pong |
| WsWire.ReceivePrefix | src/websocket/WebSocketConn.cpp:74-100 | of a stream it accepts, it reads any part from the start as a part from the start of the messages |
| WsWire.ClientFrameRead | src/websocket/WebSocketConn.cpp:114-163 | any masked frame of section 5.2, given by the bits of its header, its length form and its key, is read as its opcode and payload and takes exactly its own bytes |
| WsWire.ClientFrameEffect | src/websocket/WebSocketConn.cpp:164-189 | by number: opcode 1 hands over its payload, 9 is answered with a pong, 8 closes, every other one is passed over |
| WsWire.EncodeIsClientFrame | src/websocket/WebSocketConn.cpp:114-130 | every message can be sent so: its encoding with a key is such a frame |
| WsWire.StreamParses | src/websocket/WebSocketConn.cpp:34-72 | a stream of such frames before a close hands over the texts in it in order and queues one pong for each ping |
| WsWire.HelloOnTheWire | src/websocket/WebSocketConn.cpp:196-216 | the bytes of the unmasked text of section 5.7 of RFC 6455 |
| WebSocketConnection.WebSocketConn.PackTextFrame | src/websocket/WebSocketConn.cpp:191-216 | builds, byte by byte with 64-bit shifts, the frame of the codec specification |
| WebSocketConnection.WebSocketConn.UnmaskPayload | src/websocket/WebSocketConn.cpp:218-222 | xors the array in place: afterwards it is the masked old content |
| WebSocketConnection.WebSocketConn.TakeFrame | src/websocket/WebSocketConn.cpp:116-163 | reads one frame as the specification says: too little data, or opcode, unmasked payload and bytes taken |
| WebSocketConnection.WebSocketConn.ParseFrames | src/websocket/WebSocketConn.cpp:114-189 | the loop delivers the texts of the whole buffer in order, queues one pong per ping, keeps the incomplete rest, and closes exactly at a close frame |
| WebSocketConnection.WebSocketConn.HandleRead | src/websocket/WebSocketConn.cpp:34-72 | reads until the socket would block, decodes everything, and asks for Close, Write or Read accordingly; nothing is decoded after an error or the end of the stream |
| WebSocketConnection.WebSocketConn.ReceivedIs | src/websocket/WebSocketConn.cpp:36-60 | what reading brings is all the data that came, in order, and the connection stays open if and only if it ended with nothing more for now |
| WebSocketConnection.WebSocketConn.HandleWrite | src/websocket/WebSocketConn.cpp:74-100 | for every schedule of partial sends: bytes on the wire followed by the buffer never change as a whole, and the action says whether the buffer is empty, blocked or the connection closed |
| WebSocketConnection.DrainMoves | src/websocket/WebSocketConn.cpp:74-100 | sends that move these counts move their sum; the buffer is done when that reaches its size, otherwise the connection waits to write if the next call would block and closes on an error or on a send of nothing |
| WebSocketConnection.WebSocketConn.SendText | src/websocket/WebSocketConn.cpp:102-107 | appends exactly the packed frame, and nothing on a closed connection |
| ChatRegistry.BroadcastKeeps | src/websocket/WebSocketServer.cpp:169-230 | broadcasting keeps the registry consistent: members are connections, connections have callbacks, named connections are in their user entry, no user entry is empty |
| ChatRegistry.BroadcastOneMore | src/websocket/WebSocketServer.cpp:191-227 | visiting members one by one, in any order, adds up to one simultaneous delivery |
| ChatRegistry.BroadcastEffect | src/websocket/WebSocketServer.cpp:191-227 | every open member but the excluded one has the frame at the end of its buffer, one write event is asked for if and only if the buffer was empty and a callback is registered, and nobody else is touched |
| ChatRegistry.RegisterKeeps | src/websocket/WebSocketServer.cpp:23-27 | registering a callback keeps the registry consistent |
| ChatRegistry.AddKeeps | src/websocket/WebSocketServer.cpp:29-39 | adding a fresh connection whose callback is registered keeps the registry consistent |
| ChatRegistry.RemoveKeeps | src/websocket/WebSocketServer.cpp:41-87 | after removal the connection is in no table and no room, every other membership is unchanged, and the registry is consistent |
| ChatRegistry.RemoveEffect | src/websocket/WebSocketServer.cpp:41-87 | for every other connection: its memberships, its user entries, its buffer and its callback are as before |
| ChatRegistry.JoinKeeps | src/websocket/WebSocketServer.cpp:103-127 | joining makes a known connection a member and keeps the registry consistent, also for an unknown one |
| ChatRegistry.JoinMembership | src/websocket/WebSocketServer.cpp:103-127 | afterwards the memberships are exactly those before and the one of the known connection in the room |
| ChatRegistry.JoinAnnounces | src/websocket/WebSocketServer.cpp:115-126 | the notice of a named connection reaches exactly the members after the join, the newcomer included; an unnamed one is not announced |
| ChatRegistry.LeaveKeeps | src/websocket/WebSocketServer.cpp:129-162 | after leaving, the connection is not in the room, and a room that was left is not kept empty |
| ChatRegistry.LeaveMembership | src/websocket/WebSocketServer.cpp:145-161 | afterwards the memberships are exactly those before without the one that leaves, for every room and every other descriptor; the room goes if and only if nobody else was in it |
| ChatRegistry.LeaveAnnounces | src/websocket/WebSocketServer.cpp:135-152 | the notice of a named connection reaches exactly the members before the leave; an unnamed one is not announced |
| ChatRegistry.ReplyKeeps | src/websocket/WebSocketServer.cpp:286-295 | a direct system message keeps the registry consistent |
| ChatRegistry.ReplyEffect | src/websocket/WebSocketServer.cpp:286-295 | the connection alone gets the text, and its write event is always asked for |
| ChatRegistry.BindUserKeeps | src/websocket/WebSocketServer.cpp:331-354 | binding a name keeps the registry consistent, also when the connection had another name |
| ChatRegistry.BindUserEffect | src/websocket/WebSocketServer.cpp:331-354 | the known connection has exactly that name and is in that user entry, no other name and no other entry of another connection changes, and it alone gets the reply |
| WebSocketServerModule.WebSocketServer.RegisterCallback | src/websocket/WebSocketServer.cpp:23-27 | registers the descriptor and nothing else |
| WebSocketServerModule.WebSocketServer.AddConnection | src/websocket/WebSocketServer.cpp:29-39 | the registry gains the connection under its descriptor, its message callback set, and nothing else changes |
| WebSocketServerModule.WebSocketServer.RemoveConnection | src/websocket/WebSocketServer.cpp:41-87 | does to the four indexes exactly what removal does to the registry value, visiting the rooms one by one |
| WebSocketServerModule.WebSocketServer.IsWebSocketConn | src/websocket/WebSocketServer.cpp:89-92 | whether the descriptor is in the connection table |
| WebSocketServerModule.WebSocketServer.BroadcastRoomLocked | src/websocket/WebSocketServer.cpp:169-230 | the loop over the members equals one simultaneous broadcast: one frame per open member other than the excluded one, and write callbacks for those whose buffer was empty |
| WebSocketServerModule.WebSocketServer.BroadcastRoom | src/websocket/WebSocketServer.cpp:164-167 | takes the lock and broadcasts |
| WebSocketServerModule.WebSocketServer.JoinRoom | src/websocket/WebSocketServer.cpp:103-127 | joins and, for a named connection, broadcasts the notice, the new member included |
| WebSocketServerModule.WebSocketServer.LeaveRoom | src/websocket/WebSocketServer.cpp:129-162 | broadcasts the notice of a named connection first, then removes it and drops the room when empty |
| WebSocketServerModule.WebSocketServer.HandleAuth | src/websocket/WebSocketServer.cpp:275-355 | an empty or unknown session id changes no name and only replies; a known one binds its user name and replies |
| WebSocketServerModule.WebSocketServer.HandleRoomAction | src/websocket/WebSocketServer.cpp:357-373 | only join and leave with a room name change anything |
| WebSocketServerModule.WebSocketServer.HandleChat | src/websocket/WebSocketServer.cpp:375-427 | forwards to the room exactly when the fields are present and the claimed sender is the connection's bound name |
| ChatSystem.StepKeeps | src/websocket/WebSocketServer.cpp:103-230 | every critical section, in any interleaving, keeps the registry consistent and each connection's wire bytes plus write buffer equal to the frames queued for it |
| ChatSystem.RunKeeps | src/websocket/WebSocketServer.cpp:23-87 | so in every reachable state of every run |
| ChatSystem.TotalOrderBroadcast | src/websocket/WebSocketServer.cpp:164-230 | over any span in which a connection stays an open member of a room, the texts queued for it on behalf of the room are exactly the room's broadcasts of that span, once each and in lock order |
| ChatSystem.WireIsPrefixOfTexts | src/websocket/WebSocketConn.cpp:74-107 | decoding what has left on a connection's wire, at any moment of any run, gives a prefix of the texts queued for it and never a broken frame |
| ChatSystem.ClientReceivesPrefix | src/websocket/WebSocketConn.cpp:74-107 | at any moment of any run, a client that reads by section 5 of RFC 6455 has received a part from the start of the texts and pongs queued for it, each as one message, and nothing that it would refuse |
| ChatSystem.StepMembership | src/websocket/WebSocketServer.cpp:103-162 | a membership ends only by a leave of its own descriptor from its own room or by its own removal, and begins only by its own join |
| ChatSystem.MembersStay | src/websocket/WebSocketServer.cpp:41-162 | so in every run a member stays one until then, whatever all others do |
| ChatSystem.NamesComeFromLogins | src/Handler.cpp:284-289 | in every run, any non-empty bound name, session entry or pending binding was put there by an earlier login |
| ChatSystem.SessionsAfter | src/Handler.cpp:362-369 | a step adds a session entry only by a login; logout only removes |
| ChatSystem.Authorship | src/websocket/WebSocketServer.cpp:390-421 | every room message in the history carries the name its sender was bound to when it was checked, and that name comes from a login, across logouts and re-authentication |
| ChatSystem.EveryRoomTextIsAuthored | src/websocket/WebSocketServer.cpp:103-162 | for any way of printing messages and notices: every room text ever queued for any connection is the printed form of a message whose claimed sender was the bound name when it was checked, or announces that a user from a login joined or left that room |
| Timers.InsertKeepsOrder | src/Timer.cpp:7-11 | inserting behind equal keys keeps the multimap sorted with distinct nodes |
| Timers.InsertPlaces | src/Timer.cpp:7-11 | the new node stands behind every node that is not later and before every later one |
| Timers.EraseKeepsOrder | src/Timer.cpp:13-37 | erasing through an iterator takes out exactly that node and keeps the order |
| Timers.DueIsExpired | src/Timer.cpp:47-57 | the front that a tick takes is exactly the set of expired nodes |
| Timers.TickEffect | src/Timer.cpp:39-67 | a tick fires exactly the timers with expiry at most now, each once, in non-decreasing expiry, and leaves index and multimap mutually inverse |
| Timers.TimerManager.AddTimer | src/Timer.cpp:7-11 | as a map from timer to expiry: one new entry |
| Timers.TimerManager.AdjustTimer | src/Timer.cpp:13-27 | as a map: the entry gets the new expiry; an unmanaged timer is left alone |
| Timers.TimerManager.DelTimer | src/Timer.cpp:29-37 | as a map: the entry is gone, an unmanaged timer changes nothing |
| Timers.TimerManager.Tick | src/Timer.cpp:39-67 | as a map: exactly the expired entries are removed and returned, once each, in non-decreasing expiry |
| Reactor.StepKeeps | src/webserver/SubReactor.cpp:136-223 | every step of reactor, workers, callbacks and timers keeps the tables, the one-turn counting and the timer bookkeeping |
| Reactor.RunKeeps | src/webserver/SubReactor.cpp:225-380 | so in every reachable state |
| Reactor.OneTurn | src/webserver/SubReactor.cpp:282-375 | a live HTTP connection's turn (armed, event, job queued or running, action queued) is in at most one place, and in exactly one unless the pool refused a job |
| Reactor.OneWorkerPerConnection | src/webserver/SubReactor.cpp:319-373 | in no run are two workers inside the same HTTP connection |
| Reactor.TimerOrQueuedClose | src/Tools.cpp:206-251 | a live HTTP connection has its own managed timer or exactly one queued timeout close, and every managed timer belongs to a live HTTP connection |
| Reactor.TimeoutClosesItsOwn | src/webserver/SubReactor.cpp:207-219 | a queued timeout closes the very connection whose timer expired or nothing: never a WebSocket, a later connection on the descriptor, or another descriptor |
| ReactorDirection.StepDirects | src/webserver/SubReactor.cpp:141-151 | every step keeps the direction: interest, events, jobs and tasks of an HTTP connection are for writing exactly while a response is due on it |
| ReactorDirection.ReadsOnlyWhenNothingIsDue | src/webserver/SubReactor.cpp:289-375 | in every run a worker reads an HTTP connection only while no response is due on it, and writes only while one is |
| ReactorDirection.ArmedTheRightWay | src/Tools.cpp:104-115 | in every run a live HTTP connection that is armed is armed for writing if and only if a response is due |
| SubReactorModule.SubReactor.AddTask | src/webserver/SubReactor.cpp:93-106 | one task more at the end of the queue |
| SubReactorModule.SubReactor.ModFd | src/Tools.cpp:104-115 | arms a registered descriptor, and only such a one, for reading or for writing |
| SubReactorModule.SubReactor.DelTimer | src/Tools.cpp:242-251 | drops the connection's current timer and marks it deleted, once |
| SubReactorModule.SubReactor.AdjustTimer | src/Tools.cpp:229-237 | moves the expiry of a timer that is still managed |
| SubReactorModule.SubReactor.HandleAction | src/webserver/SubReactor.cpp:136-192 | does to the tables what the step system says of each of the five actions, arming for writing after a write action and for reading after a read or a wait |
| SubReactorModule.SubReactor.HandleNewConnection | src/webserver/SubReactor.cpp:194-223 | a fresh armed connection object with its own timer |
| SubReactorModule.SubReactor.HandleEvent | src/webserver/SubReactor.cpp:282-375 | hang-up, WebSocket and HTTP events as in the step system, including the pool's refusal |
| SubReactorModule.SubReactor.HandleWakeup | src/webserver/SubReactor.cpp:108-128 | swapping the queue out and running the batch equals running its tasks one step at a time |
| SubReactorModule.SubReactor.Tick | src/webserver/SubReactor.cpp:207-219 | the callbacks of the timers that one tick found expired queue one close for each that is not marked deleted |
| SubReactorModule.SubReactor.TickTimers | src/Timer.cpp:39-67 | on a timer manager that holds the timers of the tables: exactly the expired timers fire, each once, in non-decreasing expiry, their callbacks do to the tables what the step system says, and manager and tables hold the same timers again afterwards |
| SubReactorModule.SubReactor.RunAllKeeps | src/webserver/SubReactor.cpp:108-128 | a whole wake-up keeps the invariant of the step system and leaves no task |
| SubReactorModule.SubReactor.FireAllKeeps | src/Timer.cpp:60-66 | a whole tick keeps the invariant of the step system |
| ReactorEffects.ActionArms | src/webserver/SubReactor.cpp:141-151 | for HTTP and WebSocket alike: after Read, Wait or Write a registered descriptor is armed, for writing if and only if it was Write, an unregistered one is left alone, and nothing of any other descriptor changes |
| ReactorEffects.UpgradeArms | src/webserver/SubReactor.cpp:170-186 | after an upgrade the descriptor is a known WebSocket, armed for reading, without HTTP object and timer, and all others are as before |
| ReactorEffects.CloseTakesAll | src/webserver/SubReactor.cpp:152-169 | after a close the descriptor is in no table, its timer is gone, and all others are as before |
| ReactorEffects.WsAreKnown | src/webserver/SubReactor.cpp:152-186 | in every run the chat server knows every WebSocket connection that the reactor has |
| ReactorEffects.AdjustTimerEffect | src/Tools.cpp:229-237 | activity moves the managed timer of that descriptor to the new expiry and no other |
| ReactorEffects.DelTimerEffect | src/Tools.cpp:242-251 | afterwards the descriptor has no managed timer and every other one is as before |
| ReactorEffects.EventIsServed | src/webserver/SubReactor.cpp:282-375 | an event on a live connection, HTTP or WebSocket, becomes one close at a hang-up and otherwise one job on its object, or is dropped if the pool refuses it; only its own timer moves |
| ReactorEffects.NewConnectionArms | src/webserver/SubReactor.cpp:194-223 | a new connection is registered, armed for reading and has one timer of its own with the given expiry |
| ReactorEffects.ExpiryQueuesClose | src/webserver/SubReactor.cpp:207-219 | in every reachable state an expiring timer queues one close, of its own connection |
| HttpText.Find | src/http/HttpParser.cpp:112-112 | the first occurrence at or after a position, or none at all |
| HttpText.SplitJoin | src/http/HttpParser.cpp:32-41 | splitting undoes joining; an empty last piece is not returned |
| HttpText.StoulOfDecimal | src/http/HttpParser.cpp:140-142 | a printed number is read back if and only if it fits 64 bits |
| HttpText.SameNameIs | src/http/HttpRequest.cpp:11-12 | two names are equal without case if and only if they differ in nothing but capital and small forms of the same letters |
| HttpReading.LengthIsRead | src/http/HttpParser.cpp:139-142 | white space, at most one sign and digits read as the number of the digits, whatever follows them, negated modulo 2^64 for a minus, and not at all from 2^64 on |
| HttpReading.LengthIsRefused | src/http/HttpParser.cpp:139-142 | without a digit there it is refused |
| HttpRequests.GetHeader | src/http/HttpRequest.cpp:8-17 | the value of a header whose name equals the key but for case, or none when there is no such name |
| HttpRequests.OnlyHeader | src/http/HttpRequest.cpp:8-17 | when no two names are equal but for case, it is the value of the one that matches |
| HttpReading.BodyKind | src/http/HttpParser.cpp:121-151 | a body is multipart, or a form, if and only if the content type mentions that kind anywhere |
| HttpForm.DecodeUrl | src/http/HttpParser.cpp:11-31 | the loop computes the percent decoding, including its fallbacks for malformed escapes |
| HttpForm.SplitAt | src/http/HttpParser.cpp:32-41 | the getline loop computes the split |
| HttpForm.DecodeEncode | src/http/HttpParser.cpp:11-31 | percent decoding undoes encoding for every byte string, and encodings contain no separator |
| HttpReading.EscapeOf | src/http/HttpParser.cpp:15-24 | an escape is the byte of its two digits, in capitals or small letters alike |
| HttpReading.HalfAnEscape | src/http/HttpParser.cpp:17-20 | one digit in front of something else, or behind white space or a sign, stands for itself, a minus for its negative |
| HttpReading.NoEscape | src/http/HttpParser.cpp:13-27 | any other percent sign stays, a plus is a space, and every other byte stays |
| HttpReading.FieldOf | src/http/HttpParser.cpp:91-102 | the first equals sign separates key and value, and a piece without one is no field |
| HttpForm.FormRoundTrip | src/http/HttpParser.cpp:91-102 | an encoded form comes back as the assignments it lists, in order, the last one of a key winning |
| HttpParserModule.HttpParser.constructor | src/http/HttpParser.cpp:44-50 | a new parser is in the reset state |
| HttpParserModule.HttpParser.Reset | src/http/HttpParser.cpp:51-60 | back to the reset state, the written files untouched |
| HttpParserModule.HttpParser.ParseRequestLine | src/http/HttpParser.cpp:61-75 | three words or a refusal that changes nothing |
| HttpReading.SpacedRequestLine | src/http/HttpParser.cpp:61-75 | three words, however they are set apart and whatever follows, are method, path and version; GET, POST and HEAD are told apart and every other word is unknown |
| HttpReading.ShortRequestLine | src/http/HttpParser.cpp:65-67 | fewer than three words are refused |
| HttpParserModule.HttpParser.ParseHeaderLine | src/http/HttpParser.cpp:76-90 | one trimmed header assignment, or a refusal that changes nothing |
| HttpReading.PaddedHeader | src/http/HttpParser.cpp:76-90 | spaces and tabs around name and value are dropped on all four sides, and the first colon separates |
| HttpReading.HeaderRefusedIff | src/http/HttpParser.cpp:78-81 | a line is refused as a header if and only if it has no colon |
| HttpParserModule.HttpParser.HandleFormUrlencoded | src/http/HttpParser.cpp:91-102 | the loop assigns the decoded pairs to the form fields and changes nothing else |
| HttpParserModule.HttpParser.TakeBody | src/http/HttpParser.cpp:136-156 | takes at most the missing bytes and finishes exactly at the declared length |
| HttpParserModule.HttpParser.ParsePartHeaders | src/http/HttpParser.cpp:224-264 | the loop over the header lines of one part, with its three ways to end |
| HttpParserModule.HttpParser.HandleMultipart | src/http/HttpParser.cpp:186-297 | the multipart loop computes the specified outcome on every chunk |
| HttpParserModule.HttpParser.Parse | src/http/HttpParser.cpp:104-182 | one call computes the specified outcome; the buffer keeps the rest after Complete or a starved body, and everything otherwise |
| HttpResume.RunAppend | src/http/HttpParser.cpp:108-179 | a stream that is no multipart form means the same when it is run as a whole or in two runs, the second starting from the first one's state and rest |
| HttpResume.Replay | src/http/HttpParser.cpp:113-113 | header lines kept in the buffer by a call that ended inside a line are read a second time without effect |
| HttpResume.ReadAsHeader | src/http/HttpParser.cpp:113-132 | a request line kept in the buffer is read by the next call as a header line, and refused without a colon |
| HttpResume.ResumeFaithfully | src/http/HttpParser.cpp:104-182 | for every complete request that is no multipart form and every split in which the call that sees the end of the request line does not end inside a later header line: same request, state and leftover as in one call |
| HttpResume.ResumeIff | src/http/HttpParser.cpp:104-182 | for every complete request that is no multipart form, and every split: repeated calls give the same request, state and leftover as one call if and only if the call that sees the end of the request line does not end inside a later header line, or the request line reads as a header whose name is among the header lines behind it; otherwise a request line without a colon is refused, and one with a colon comes back as an additional header |
| HttpResume.FeedTwice | src/http/HttpParser.cpp:76-132 | in the unfaithful case the outcome is that of the stream with its request line read once more as a header line, whenever that is a complete request and no multipart form |
| HttpResume.ByteByByte | src/http/HttpParser.cpp:104-182 | feeding one byte at a time always agrees with feeding the whole, whatever the request line |
| HttpResume.SplitMatters | src/http/HttpParser.cpp:113-113 | one stream, two splits: one refused, one accepted |
| HttpResume.RunKeepsBound | src/http/HttpParser.cpp:136-155 | every call keeps: no body before its state, at most the declared length while it is received, exactly the declared length once the request is done, however many calls it took |
| HttpResume.FeedKeepsBound | src/http/HttpParser.cpp:136-155 | so it holds after any sequence of calls, faithful or not |
| HttpResume.ResetIsBounded | src/http/HttpParser.cpp:51-60 | and it holds of a new or reset parser |
| HttpRoundTrip.HeadersParse | src/http/HttpParser.cpp:76-90 | printed header lines are taken one after the other, trimmed, as assignments in order |
| HttpRoundTrip.HeadersRecovered | src/http/HttpParser.cpp:88-88 | those assignments hold each printed header, the last one of a name winning, and no other |
| HttpRoundTrip.ParsePrint | src/http/HttpParser.cpp:104-182 | parsing a printed request recovers method, path, version, headers, body and form fields, and leaves exactly the trailing bytes (sections 3 and 5 of RFC 9112) |
| HttpRoundTrip.ZeroLengthWaits | src/http/HttpParser.cpp:108-108 | a declared length of zero with nothing behind it leaves the call incomplete, in the body state |
| HttpRoundTrip.Pipelined | src/http/HttpParser.cpp:51-60 | parse, then reset, over concatenated requests returns each in order and leaves what follows |
| HttpRoundTrip.DeclaredLength | src/http/HttpRequest.cpp:8-17 | a printed body length declares the body if and only if it fits 64 bits |
| Multipart.DataEnds | src/http/HttpParser.cpp:268-272 | data without the delimiter end exactly where the delimiter starts, whatever follows: its only carriage return is its first character, so it cannot overlap itself |
| Multipart.PartsParse | src/http/HttpParser.cpp:186-297 | any list of parts with separable header blocks and data is taken part by part, and exactly the trailing bytes are left; a part that is refused or throws ends the parse so |
| Multipart.FormThrowsIff | src/http/HttpParser.cpp:256-258 | while every file opens, parsing a form throws if and only if some part's header block has, before any empty line, a content type line with nothing behind its colon |
| MultipartForms.FieldHasNoFilename | src/http/HttpParser.cpp:241-242 | a field line has a file name parameter if and only if the field name ends in filename= |
| MultipartForms.FieldStaysField | src/http/HttpParser.cpp:233-255 | so a field is stored as a field exactly when its name does not end so |
| MultipartForms.FormBodyParses | src/http/HttpParser.cpp:186-297 | a form encoded as in RFC 7578 is parsed to its fields and files, stored in order, with exactly the trailing bytes left |
| MultipartForms.FieldsAreConcatenated | src/http/HttpParser.cpp:277-279 | each form field holds the in-order concatenation of its parts, and no other field changes |
| MultipartForms.FilesAreExact | src/http/HttpParser.cpp:274-288 | each file is recorded with its exact size and its bytes are on disk, unless a later part takes its name or its path |
| MultipartForms.FileWithoutType | src/http/HttpParser.cpp:216-262 | a file is opened under the upload directory, the time and its own name, and without a type line it is plain text |
| MultipartForms.BoundaryIsRead | src/http/HttpRequest.cpp:30-52 | a content type that names multipart/form-data is recognised, and its boundary parameter is read wherever it stands, quoted or not |
| MultipartForms.FormRequestParses | src/http/HttpRequest.cpp:38-52 | a whole multipart request in one buffer is read completely, its boundary taken from the content type |
| HttpResponses.LengthIsAnnounced | src/http/HttpConnection.cpp:252-281 | a file or non-empty body whose response sets no length is announced with exactly the number of bytes that follow the empty line |
| HttpResponses.ErrorsAnnounce | src/http/HttpResponse.cpp:43-65 | an error page sets its length and has a body |
| HttpClient.ReplyRead | src/http/HttpConnection.cpp:216-304 | a client that reads by section 4 of RFC 9112 (status line at its first two spaces, header lines up to the empty one) recovers version, code, text, the headers with the length behind them if it was not set, and exactly the payload |
| HttpClient.ErrorReply | src/http/HttpResponse.cpp:43-65 | of an error page it reads the code with its reason, the length of that very page, its type and Connection: close |
| HttpClient.FileReply | src/http/HttpConnection.cpp:230-250 | a file that does not open is answered with the page of 404, one that cannot be examined with that of 500, and any other with its bytes |
| HttpResponses.DeliveredWhole | src/http/HttpConnection.cpp:104-187 | over any sequence of writable events and partial writes the count of bytes moved never exceeds the response, and a finished delivery has moved all of it; HttpConnection.DeliverAll ties the counts to the bytes |
| HttpResponses.DeliveryEnds | src/http/HttpConnection.cpp:111-187 | the unsent byte count is a termination measure: that many writable events that each move a byte end the delivery, and without an error they have sent all of it |
| HttpResponses.DeliveryAborts | src/http/HttpConnection.cpp:117-149 | only a failing system call aborts a delivery |
| HttpResponses.SendMoves | src/http/HttpConnection.cpp:111-187 | calls that move these counts move their sum, head before file; the writer is finished when that is everything, and otherwise blocked or aborted by the first call that moves nothing |
| HttpConnectionModule.HttpConnection.PrepareResponse | src/http/HttpConnection.cpp:216-304 | with no file left open, afterwards exactly the response's bytes are due: head, empty line and body or file, or an error page when the file cannot be opened or examined |
| HttpConnectionModule.HttpConnection.HandleRead | src/http/HttpConnection.cpp:31-101 | reads everything readable, parses once, and maps complete, incomplete, refused, closed and thrown to the actions, with the right response due; in all other cases the writer is left as it was |
| HttpConnectionModule.ReadAllIs | src/http/HttpConnection.cpp:35-63 | what reading brings is every text that came, in order, behind what was buffered, and the peer counts as gone unless there was just nothing more for now |
| HttpConnectionModule.HttpConnection.SendLoop | src/http/HttpConnection.cpp:111-187 | the bytes sent are the prefix of what was due that the schedule moves, sent plus unsent is constant, and the counter equals the bytes left of head and file |
| HttpConnectionModule.HttpConnection.HandleWrite | src/http/HttpConnection.cpp:104-213 | a blocked call keeps the exact rest of head and file due, a failed one closes, and only a call that has sent everything goes on to keep-alive, upgrade or close |
| HttpClient.FinishedAction | src/http/HttpConnection.cpp:195-212 | from the bytes of the request on: when its answer is out, the connection waits for the next request if and only if the last Connection header, in any spelling of the name, says keep-alive or Keep-Alive; otherwise it is upgraded or closed |
| HttpClient.UpgradeAsked | src/http/HttpRequest.cpp:57-81 | a request on the wire is an upgrade if and only if it is a GET whose last Upgrade header is websocket in any case, whose version header is 13 and which has a key |
| HttpConnectionModule.HttpConnection.DeliverAll | src/http/HttpConnection.cpp:104-213 | over any series of writable events the wire gains exactly the front of what was due that the schedule moves, the rest stays due, an error closes, and a delivery that finishes has sent all of it and goes on to keep-alive, upgrade or close |
| HttpConnectionModule.HttpConnection.Respond | src/http/HttpConnection.cpp:216-304 | from preparation on, over any series of writable events: the wire gains exactly the front of the response that the schedule moves; only a failing call cuts it short, and as many events as there are bytes, none idle and none failing, send all of it |
| HttpConnectionModule.HttpConnection.ResetForKeepAlive | src/http/HttpConnection.cpp:307-328 | nothing is due and the parser is reset |
| Gates.SleepCovers | include/log/BlockQueue.h:28-28 | going to sleep keeps the coverage only because nothing was available |
| Gates.LeaveCovers | include/log/BlockQueue.h:43-45 | taking an item while leaving the gate keeps sleepers covered |
| Gates.NotifyCovers | include/log/BlockQueue.h:35-35 | notify_one keeps sleepers covered, whether it wakes one or is lost |
| Gates.NobodyStranded | include/log/BlockQueue.h:39-49 | an item and a sleeper never coexist with nobody due to act |
| BlockQueues.RingPush | include/log/BlockQueue.h:30-32 | writing behind the last item of a ring appends to its content |
| BlockQueues.BlockQueue.Push | include/log/BlockQueue.h:26-36 | the array ring appends exactly when it is not full, and otherwise changes nothing |
| BlockQueues.BlockQueue.Pop | include/log/BlockQueue.h:39-49 | the array ring gives up its oldest item exactly when it is not empty |
| BlockQueues.BlockQueue.Clear | include/log/BlockQueue.h:86-90 | the queue is empty |
| BlockQueues.StepKeeps | include/log/BlockQueue.h:26-65 | every interleaving of pushes, pops, timed pops, notifications and spurious wake-ups keeps first-in first-out, the bound and both coverages |
| BlockQueues.NoLostWakeup | include/log/BlockQueue.h:26-65 | in every run: while a consumer sleeps, items are at most the notifications due plus the consumers awake; likewise producers and free slots |
| BlockQueues.StepsMoveTheItems | include/log/BlockQueue.h:26-65 | the steps of the interleaving model do to the items what the critical sections of the class do |
| BlockQueues.ClearStrands | include/log/BlockQueue.h:86-90 | a reachable state in which clearing leaves a producer asleep before an empty queue with nobody due to wake it |
| BlockQueues.ClearWakesIff | include/log/BlockQueue.h:86-90 | in any reachable state, a producer asleep when the queue is cleared can still get up by the doing of those already there if and only if another producer was awake or a notification was owed at that moment |
| BlockQueues.StrandedForEver | include/log/BlockQueue.h:86-90 | with nobody awake and nothing owed, such a producer sleeps for ever unless a new producer comes or it wakes spuriously |
| BlockQueues.RescuedByAnother | include/log/BlockQueue.h:26-49 | otherwise a new producer whose item is popped can bring any of them back |
| ThreadPools.ThreadPool.Append | src/ThreadPool.cpp:47-59 | accepts at the end of the queue unless it is full, stopped or not |
| ThreadPools.ThreadPool.Look | src/ThreadPool.cpp:63-86 | the oldest task runs first; a worker leaves exactly when the pool is stopped and empty, and waits exactly when it is running and empty |
| ThreadPools.StepsMoveTheQueue | src/ThreadPool.cpp:47-92 | the steps of the interleaving model do to the queue what the critical sections do |
| ThreadPools.StepKeeps | src/ThreadPool.cpp:19-92 | every step keeps: each worker in one place, each taken task running once or finished, sleepers covered |
| ThreadPools.NoLostWakeup | src/ThreadPool.cpp:47-81 | in every run: while a worker sleeps, queued tasks are at most the notifications due plus the workers awake |
| ThreadPools.JoinedMeansDone | src/ThreadPool.cpp:19-45 | when all workers have left, exactly the tasks accepted before the last exit have finished; nothing is left unrun if and only if nothing was accepted after it |
| ThreadPools.LateTask | src/ThreadPool.cpp:47-59 | a run in which a task accepted after the last worker has left stays unrun |
| ThreadPools.ShutdownProgress | src/ThreadPool.cpp:21-44 | after stop every worker or notification step decreases a measure |
| ThreadPools.ShutdownEndsJoined | src/ThreadPool.cpp:21-44 | a stopped pool in which nothing can happen has no worker left |
| SqlConnectionPools.SqlConnectionPool.GetConnection | src/SqlConnectionPool.cpp:49-62 | gives the front connection exactly when there is one, counting it as in use; the counters stay true |
| SqlConnectionPools.SqlConnectionPool.ReleaseConnection | src/SqlConnectionPool.cpp:64-78 | puts the connection at the end and refuses a null one; the counters stay true |
| SqlConnectionPools.SqlConnectionPool.GetFreeConn | src/SqlConnectionPool.cpp:96-100 | the number of connections that can be had without waiting: the length of the list, and the maximum less those in use |
| SqlConnectionPools.StepsMoveTheList | src/SqlConnectionPool.cpp:49-78 | the steps of the interleaving model do to the list what the critical sections do |
| SqlConnectionPools.StepKeeps | src/SqlConnectionPool.cpp:49-78 | every step keeps each connection in one place, the counters exact and the getters covered |
| SqlConnectionPools.ConnectionsConserved | src/SqlConnectionPool.cpp:49-78 | in every run the free counter is the list length, free plus in use is the maximum, no connection is lost and none has two holders |
| SqlConnectionPools.NoLostWakeup | src/SqlConnectionPool.cpp:53-76 | in every run: while a getter sleeps, free connections are at most the notifications due plus the getters awake; with nobody due, all connections are in use |
| LogFiles.NamesDiffer | src/Log.cpp:10-35 | different days or indexes have different file names |
| LogFiles.NameReads | src/Log.cpp:10-35 | directory, four-digit year, month, day, base name and, but for the first file of a day, the index can be read off a file name at their places |
| LogFiles.SwitchOpens | src/Log.cpp:38-57 | the name built on rotation is that of (current day, count divided by the split size), index 0 having no suffix |
| LogFiles.IndexFollowsCount | src/Log.cpp:60-69 | after every write the open file's index is the count divided by the split size, the line is appended to it and no other file changes |
| LogFiles.DateFollowsClock | src/Log.cpp:40-41 | the open file is of the line's day if and only if it already was, the day of the month changed, or the line completes a split |
| LogFiles.MonthApart | src/Log.cpp:40-40 | two lines on the fifth of two months end up in one file |
| LogFiles.FileFollowsClock | src/Log.cpp:38-77 | over any run, failing fopens included: after each line the open file is (its day, count divided by the split size), if and only if every file asked for opens and no line falls on the same day of another month than the one before it, unless it completes a split |
| LogFiles.EachFileTakesAtMost | src/Log.cpp:38-77 | over any run with non-decreasing dates, month jumps and failing fopens or not, no file takes more lines than the split size |
| LogLines.FormatLine | src/Log.cpp:161-173 | printing into a buffer of the given size: the line ends in its newline and the stores behind it stay in the buffer if and only if stamp and message leave room for both; otherwise the line is cut two short of the buffer; in neither case is it the end mark |
| LogLines.NeverTheSentinel | src/Log.cpp:171-173 | a line is never taken for the end mark, whatever the message and however much of it fits |
| LogLines.StampReads | src/Log.cpp:152-168 | year, month, day, hour, minute, second and microseconds can be read off the front of a line at their places, and the level is named behind them |
| LogLines.LongMessage | src/webserver/WebServer.cpp:107-107 | with the buffer the server asks for, a message of 2000 letters loses its end and its newline |
| Logs.StepKeeps | src/Log.cpp:201-226 | pushes and the writer's steps keep written plus queued equal to what was pushed, less the end mark |
| Logs.NothingLost | src/Log.cpp:84-101 | when the writer thread has returned, every line pushed before the end mark is written once in push order, followed by those drained behind it; only lines pushed after the return are missing |
| Logs.Log.constructor | src/Log.cpp:103-141 | the first file is the day's base file, the split size defaulting to 5000000 |
| Logs.Log.SwitchLog | src/Log.cpp:38-57 | the object's open file, count and day follow the rotation function |
| Logs.Log.WriteSingleLog | src/Log.cpp:60-77 | the line is appended to the file that the rotation function says, by name, and to no other |
| Logs.Log.ThreadFunc | src/Log.cpp:201-226 | on a queue that holds the end mark the loop ends with the queue empty and every other line written in order under the clock |

## Left out

- Sockets, epoll, eventfd, signals and the accept loop are oracles and an armed bit; MySQL, SHA-1, Base64, session-id randomness, MIME tables, regex routing and HTML are not modelled.
- JSON parsing and printing: chat, room and auth messages start decoded, and the texts to send are parameters.
- Reactor.StepKeeps: assumes that a newly accepted descriptor has no table entry, event, job or task left from an earlier connection, and that connection and timer objects are fresh; the kernel and the allocator decide both. One sub-reactor is modelled; descriptors of different sub-reactors are disjoint.
- Reactor.OneTurn: says nothing about WebSocket connections after the upgrade, where callbacks may queue a Write beside a Read.
- Prompt delivery of WebSocket output: the empty-buffer test and the append are separate critical sections, so a non-empty buffer need not have its write event armed.
- WebSocketConnection.WebSocketConn.ParseFrames: records the message callback's calls; replies that the callback makes during the loop are the steps of ChatSystem instead. It is stated for buffers on which the loop ends, which only a frame whose size wraps to zero prevents.
- WsFrame.ChunkIndependence: is for streams of fewer than 2^63 bytes, which is more than a buffer can hold.
- Fragmented messages and the echo of ping payloads: the repository's own README mentions fragmentation, but the decoder ignores the FIN bit and answers a ping with an empty pong; the model follows the code.
- The converse of the user index (a stale entry stays after re-authentication) and the absence of empty rooms (removal keeps emptied rooms) do not hold and are not claimed.
- HttpRequests.GetHeader: of several headers whose names differ only in case, the program takes the one its hash map visits first, the model the one with the least name. HttpRoundTrip.ParsePrint therefore asks for requests without such names; results for requests with them, HttpResume.ResumeIff included, follow the model's choice. The order of response headers is the order in which they were set.
- HttpResume.ResumeIff: is for a parser at the start of a request and for requests that are no multipart form. Multipart bodies that arrive in several buffers are modelled by the parser class, but no round trip is claimed for them, because part data flushes a split delimiter.
- HttpRoundTrip.Pipelined: is about the parser; at connection level the keep-alive reset clears the read buffer, as HttpConnectionModule.HttpConnection.ResetForKeepAlive states.
- MultipartForms.FilesAreExact: file contents are a map from path to bytes; disk errors after a successful open, and files left behind, are not modelled. The time in a temporary name is one parameter per call.
- HttpConnectionModule.HttpConnection.HandleRead: is called when no file is being sent, which ReactorDirection.ReadsOnlyWhenNothingIsDue shows of every run: a file is open only while a response is due.
- HttpConnectionModule.HttpConnection.PrepareResponse: is called by HandleRead alone, so no earlier file is open then either.
- HttpConnectionModule.HttpConnection.HandleWrite: takes the content of an open file as fixed, so that its size is the one examined when it was opened; the second iovec entry is never used by the program and is not modelled.
- LogLines.FormatLine: a store outside the buffer is reported, its effect on other memory is not modelled; messages hold no NUL and the buffer is not shorter than the 64 characters given to the stamp.
- Flushing intervals of the log and files already present from an earlier start of the program are not modelled.
- Logs.Log.constructor: is for a first fopen that succeeds; when it fails the program reports it and leaves no stream to write to.
- Logs.Log.ThreadFunc: is the loop once nobody pushes any more; pushes during the loop are in Logs.NothingLost.
- SubReactorModule.SubReactor.TickTimers: the step system and the class keep timers as numbers with their expiry; the numbering of the manager's timer objects is an argument and a result.
- ThreadPools.ShutdownEndsJoined: assumes that tasks end; the unused shutdown time-out and thread creation are not modelled. Scheduling fairness is not modelled in any monitor.
- SqlConnectionPools.ConnectionsConserved: a holder gives back the connection it got, as the scoped guard does; DestroyPool is not modelled.
- BufferPool, HttpConnectionPool, Config, Router and the remaining handlers would add only easy members.
