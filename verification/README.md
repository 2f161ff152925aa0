# px4-userland: a verified model

px4-userland is a daemon that owns USB tuners and a smart-card reader and serves them over a framed local protocol.
This project models its core in Dafny and proves what that core promises, for every input, every run and every
behaviour of the hardware. `dafny verify dfyconfig.toml` checks all of it.

## How the model is built

- **The smart-card link** (`T1Codec`, `CardAtr`, `AtrWriter`, `T1Card`, `T1Link`, `T1Session`). Blocks with LRC or CRC, the answer to
  reset, and the block protocol of section 11 of ISO/IEC 7816-3. The hardware is a parameter: either arbitrary (any answer
  to any call) or a conforming card behind its reader, an automaton that answers resets in any portions, obeys
  S(RESYNCH) and S(IFS), sends fields up to the size announced to it (a greedy one always up to it), may refuse a block or
  defer a reply fewer than three times in a row, may ask for waiting time and then waits to hear exactly that time granted, and sends its last block again when asked.
  Everything that happens at the hardware is logged on a `wire`; a command's books account for every event of it
  (`T1Link.Ledger`). Time is a number that every hardware call moves forward. `late` records that a window ran out since
  the session was set up; every contract that can set it says which clock reading that takes, and a prompt card never
  sets it (`T1Session.PromptNeverLate`).
- **The local protocol** (`Utf8`, `FrameCodec`, `FrameWire`, `StreamFramer`, `Connection`, `Handshake`, `StreamSender`). Codec,
  framer, the four-role connection machine, two machines joined by FIFO channels, and the sender whose socket takes
  bytes in any portions. A consumer of the framer is a function from the frames so far to an optional error.
- **Card ownership** (`CardService`). One object over a reader that may fail at any call; its answers are an arbitrary
  function of the call number. `Account` keeps what the answers amount to: whether the last power call was ON with no
  device loss reported since, how often the card was seen absent, for which handles and with which commands it was
  reached, and with which answers it was initialised.
- **Ownership in the daemon** (`ControlServer`, `ControlDrain`, `ControlSession`, `LeaseTable`, `WorkerLane`). The daemon is a step system: a step is
  one callback of the poll thread or the execution of one queued operation on a lane, in any interleaving. `LeaseTable`
  ties the fixed slot array of a client to the map used there, `WorkerLane` the ring buffers and the thread between them to
  the queue with outcomes used there, `ControlSession` the clients' protocol machines to their requests.
- **The device controller** (`BridgePower`, `ScatterImage`, `BridgeTransfers`, `Sha256`, `Sha256Constants`, `Firmware`). A failed write
  may or may not have reached the device. SHA-256 is proved against sections 4 to 6 of FIPS 180-4.
- **Discovery and gates** (`Grouping`, `Gates`). `Errors` and `Sequences` hold the vocabulary shared by all.

Each class method is proved against a specification function or predicate on values; the lemmas are about those.

## Results that differ from what the code or its documentation says

- `CardAtr.NotReadyExactly`: `userland/include/px4/card.h:87-88` says that NOT_READY means a valid but incomplete
  prefix. It does not: one byte of any value (`CardAtr.OneByteIsNotReady`), a rate that is not supported while another
  byte of its group is missing (`CardAtr.BadRateIsNotReady`) and too long a row of announcements
  (`CardAtr.EndlessIsNotReady`) give NOT_READY too, though nothing completes them. The lemma gives the exact condition on
  the input for there to be a completion.
- `T1Session.FastCardsServed`: at 38400 baud the host announces a field size of 254 bytes
  (`userland/src/card.cpp:293`), but refuses frames longer than 255 bytes (`userland/src/card.cpp:442-444`), which hold
  at most 251. A reply is returned exactly if every block the card chose to send fits (`T1Link.ReturnedExactlyIfItFits`),
  so a card that uses the announced size is heard exactly up to 251 bytes (250 with CRC) and otherwise the command ends in
  PROTOCOL_ERROR. `T1Session.LongFieldRun` is such a run, with every window kept. Below 38400 baud every reply that has
  room is returned (`T1Session.SlowCardsServed`).
- `BridgePower.FailedInitialisationReopens`: "disconnected stays until an initialisation succeeds" is false. Any
  initialisation that gets past the model check leaves the state unknown when it fails
  (`userland/src/it930x.cpp:1284`), and the next power-up may succeed. `BridgePower.Controller.Perform` states the exact
  condition: a call leaves a lost device lost if and only if it is not such an initialisation.
- `Gates.CrossedTurn`: "a queued command is given priority over a new pump turn"
  (`userland/src/libusb_transport_internal.h:234-235`) fails where a stream has looked for commands the second time and is
  about to return: a command that announces itself just then waits behind a turn granted after it came. The method is
  that run. `Gates.TurnsBeforeAcquire` gives the exact condition for every run: a command that gets the mutex has waited
  behind one such turn if a stream was at that point when it announced itself, and behind none otherwise.

## Model

| member | source | states |
|---|---|---|
| `T1Codec.CalculateCrc` | userland/src/card.cpp:693-709 | the bit-interleaved loop computes the byte-at-a-time linear CRC with polynomial 0x1021 |
| `T1Codec.CrcConcat` | userland/src/card.cpp:693-709 | the CRC of a concatenation is the CRC of the second part started from that of the first |
| `T1Codec.CrcAdditive` | userland/src/card.cpp:693-709 | the CRC is linear: the CRC of a byte-wise sum is the sum of the CRCs |
| `T1Codec.CrcResidue` | userland/src/card.cpp:470-485 | a frame's trailing CRC matches exactly when the CRC over the whole frame is zero |
| `T1Codec.CrcDetectsAdjacentDamage` | userland/src/card.cpp:470-485 | any change confined to two adjacent bytes breaks a matching CRC |
| `T1Codec.ParseAfterEncode` | userland/src/card.cpp:358-389 | every block that is built passes the receiver's checks and parses back to itself, in LRC and CRC mode |
| `T1Codec.EncodeAfterParse` | userland/src/card.cpp:470-500 | every accepted frame is the encoding of the block it is accepted as |
| `T1Codec.AdjacentDamageRejected` | userland/src/card.cpp:470-500 | in CRC mode, damage to two adjacent bytes that leaves LEN alone is rejected |
| `CardAtr.ParseAtr` | userland/src/card.cpp:111-237 | the one-pass parser with its walk over interface bytes terminates and computes the recursive definition |
| `CardAtr.WalkPrefix` | userland/src/card.cpp:126-210 | the walk over a prefix either ends like the walk over the whole or reports that bytes are missing |
| `CardAtr.StrictPrefixNotReady` | userland/src/card.cpp:111-237 | every strict prefix of an accepted ATR yields NOT_READY |
| `CardAtr.PrefixFree` | userland/src/card.cpp:111-237 | no accepted ATR is a strict prefix of another |
| `CardAtr.AcceptedParams` | userland/src/card.cpp:111-237 | an accepted IFSC is in 1..254 and an accepted block timeout in 500..3000 |
| `CardAtr.AnyChunking` | userland/src/card.cpp:73-107 | an ATR that arrives in any chunks is read as itself |
| `CardAtr.NotReadyExactly` | userland/src/card.cpp:111-237 | for every input that yields NOT_READY: some completion is accepted if and only if the first byte, the rate if it is there, and the least length of an answer that begins like this allow it |
| `CardAtr.OneByteIsNotReady` | userland/src/card.cpp:119-121 | a single byte is always NOT_READY, and can begin an accepted ATR exactly if it is 0x3b or 0x3f |
| `CardAtr.BadRateIsNotReady` | userland/src/card.cpp:143-177 | an unsupported TA1 is NOT_READY until its group is complete, and never completed |
| `CardAtr.EndlessIsNotReady` | userland/src/card.cpp:136-217 | a row of TD bytes is NOT_READY at every length, and can be completed exactly while the historical bytes still have room |
| `AtrWriter.WrittenIsRead` | userland/src/card.cpp:111-237 | whatever a card writes as groups of interface bytes is accepted, with the parameters it announces: the default rate doubled as often as TA1 says, and from the third group on for T=1 the last usable field size, the last waiting time and the last kind of checksum |
| `AtrWriter.ReadWasWritten` | userland/src/card.cpp:111-237 | every answer that is accepted is one that a card can have written so |
| `T1Card.CardHears` | userland/src/card.cpp:358-389 | a conforming card understands every frame the host builds as the block it was built from |
| `T1Card.StepStaysSane` | userland/src/card.cpp:503-549 | whatever block a conforming card hears, it stays within the announced field size and undoes nothing it did |
| `T1Link.BooksTranscribe` | userland/src/card.cpp:582-691 | books that balance against the wire show a command as its rounds: each written block with the answer heard to it, the acknowledged I-blocks a chain that carries the command, the card's I-blocks a chain that carries the response |
| `T1Link.PursueOnce` | userland/src/card.cpp:507-545 | sending a block again after an unusable answer never makes a conforming card take it twice |
| `T1Link.ChunkStep` | userland/src/card.cpp:606-629 | a card in step refuses an I-block, fewer than three times in all, or takes it exactly once |
| `T1Link.PollStep` | userland/src/card.cpp:636-657 | a card that owes a reply defers it, fewer than three times, or begins it |
| `T1Link.HeardWhole` | userland/src/card.cpp:73-107 | whenever the bytes heard from an answer to reset parse, the parse is the result |
| `T1Link.ReturnedExactlyIfItFits` | userland/src/card.cpp:662-691 | a reply is returned if and only if it has room and every block the card chose fits the host's frames |
| `T1Session.SlowCardsServed` | userland/src/card.cpp:280-302 | below 38400 baud every reply that has room is returned |
| `T1Session.FastCardsServed` | userland/src/card.cpp:280-302 | at 38400 baud a card that fills the announced fields is heard exactly up to what a frame holds; beyond that the command ends in PROTOCOL_ERROR |
| `T1Session.RunTellsStory` | userland/src/card.cpp:551-691 | as long as nothing is late, the card has executed exactly the commands sent, in order and once each, with a reset behind each that failed |
| `T1Session.RunServed` | userland/src/card.cpp:551-691 | a whole run below 38400 baud in which nothing is late returns exactly what is due from that card, command by command |
| `T1Session.ShortRepliesServed` | userland/src/card.cpp:551-691 | the same at any rate for replies of at most one frame |
| `T1Session.PromptNeverLate` | userland/src/card.cpp:45-71 | a prompt card whose commands fit the operation timeout never makes the host late |
| `T1Session.LongFieldRun` | userland/src/card.cpp:292-302 | from the reset on, at 38400 baud and with every window kept, a reply of 252 bytes in one announced field ends in PROTOCOL_ERROR |
| `T1Session.CardSession.WaitDataReady` | userland/src/card.cpp:57-71 | it fails only by the deadline or by a hardware error, with a conforming card only by the deadline |
| `T1Session.CardSession.BuildFrame` | userland/src/card.cpp:358-389 | the frame builder with its checksum loops produces the encoding of the block, or INVALID_ARGUMENT if it is too long |
| `T1Session.CardSession.SendBlock` | userland/src/card.cpp:358-389 | exactly the encoding of the block is written, or nothing if its field is too long |
| `T1Session.CardSession.Accumulate` | userland/src/card.cpp:417-463 | bytes read in any portions are collected up to the announced length, for any hardware |
| `T1Session.CardSession.ReceiveBlock` | userland/src/card.cpp:417-501 | an accepted block is the parse of bytes read since the last write; a conforming card's waiting block is received, or refused exactly if it is too long, unless the deadline is past |
| `T1Session.CardSession.ExchangeBlock` | userland/src/card.cpp:503-549 | only the block and grants of waiting time are written, each grant with exactly the time asked for in the request it answers; success means an answer to the block was heard; with a conforming card, which goes on only for the time it asked for, the block is taken once and the result is its answer, unless a window or the deadline ran out by the clock |
| `T1Session.CardSession.SendChunk` | userland/src/card.cpp:596-633 | success means the I-block is booked as accepted exactly once, by an R-block or, for the last one, an I-block, and the wire holds exactly the booked rounds; a conforming card takes it unless the clock ran out |
| `T1Session.CardSession.PollResponse` | userland/src/card.cpp:635-658 | asks until the first block of the response is booked; with a conforming card it begins the reply, or it is too long |
| `T1Session.CardSession.CollectResponse` | userland/src/card.cpp:662-691 | the returned bytes are the fields of the booked alternating chain whose only block without the more-bit is the last; with a conforming card they are its whole reply, or the error says which block or the room failed |
| `T1Session.CardSession.TransmitInitialized` | userland/src/card.cpp:582-691 | for any card, success means that what was added to the wire is a transcript of exactly this command and exactly this response; with a conforming card the reply is the card's, unless the clock ran out |
| `T1Session.CardSession.ReadAtrOnce` | userland/src/card.cpp:73-107 | the wire grew by exactly the chunks read, and the result is what they amount to; else the window ran out, the hardware failed or the buffer is full; a conforming card's answer is returned unless the window ran out |
| `T1Session.CardSession.ResetAndReadAtr` | userland/src/card.cpp:239-267 | the card was reset, a malformed answer alone is asked for once more, and the rate set is that of the answer returned |
| `T1Session.CardSession.InitializeT1` | userland/src/card.cpp:304-356 | success means the field size was announced and confirmed, behind a confirmed resynchronisation where one is called for; a conforming card is then in its initial state with that limit |
| `T1Session.CardSession.Initialize` | userland/src/card.cpp:280-302 | for any card, success means such a reset and such an announcement, with the parameters of the answer; a conforming card ends at rest and knowing the announced size, unless a window of half a second at least ran out |
| `T1Session.CardSession.Transmit` | userland/src/card.cpp:551-580 | from a session in any state: it is set up first if it must be, then the command runs; the exact errors for an absent card; any failure drops the session; with a conforming card the command is settled unless half a second at least was lost |
| `T1Session.CardSession.TransmitAll` | userland/src/card.cpp:551-691 | for every sequence of commands, through failures and the initialisations behind them: each command that ended within its windows is settled, and lateness is only ever a matter of the clock |
| `Utf8.ValidExactlyText` | userland/src/ipc.cpp:76-129 | accepted are exactly the encodings of sequences of nonzero scalar values, by an independent encoder after section 4 of RFC 3629 |
| `Utf8.ValidUtf8` | userland/src/ipc.cpp:76-129 | the loop decides exactly that |
| `FrameCodec.DecodeAfterEncode` | userland/src/ipc.cpp:1546-1600 | decoding undoes encoding on every accepted frame |
| `FrameCodec.EncodeAfterDecode` | userland/src/ipc.cpp:1546-1600 | encoding a decoded frame gives back exactly the bytes that were accepted |
| `FrameCodec.DecodeHeaderBytes` | userland/src/ipc.cpp:1505-1544 | decoding a header undoes encoding it |
| `FrameCodec.HeaderLayout` | userland/src/ipc.cpp:1505-1544 | where each field of a header lies, lowest byte first, and the flag bytes of each of the four kinds |
| `FrameWire.EncodeInPlace` | userland/src/ipc.cpp:1546-1577 | encoding a payload that already lies in the output buffer yields the same bytes; a refusal leaves the buffer alone |
| `FrameWire.ReadHeader` | userland/src/ipc.cpp:1505-1544 | the field-by-field reader computes the header decoder |
| `FrameWire.Writer.Number` | userland/src/ipc.cpp:232-257 | writes the little-endian bytes at the cursor and nothing else |
| `FrameWire.Writer.Move` | userland/src/ipc.cpp:259-268 | copies correctly even when source and target overlap, and leaves the rest of the buffer alone |
| `FrameWire.Reader.Number` | userland/src/ipc.cpp:144-194 | reads the little-endian number at the cursor, or leaves the cursor alone if the input is too short |
| `StreamFramer.FeedConcat` | userland/src/ipc.cpp:1609-1668 | feeding a, then b, equals feeding a + b in frames, buffered bytes and failure |
| `StreamFramer.FeedFailed` | userland/src/ipc.cpp:1611-1613 | a failure is sticky |
| `StreamFramer.FramesRecovered` | userland/src/ipc.cpp:1609-1668 | the bytes of acceptable frames come out as exactly those frames |
| `StreamFramer.FeedConserves` | userland/src/ipc.cpp:1609-1668 | whatever a framer without failure was fed, it has handed over or still holds, byte for byte |
| `StreamFramer.PartRecovered` | userland/src/ipc.cpp:1609-1668 | any part of a stream of frames yields the first frames in order and the start of the next, without failure |
| `StreamFramer.Framer.FeedChunk` | userland/src/ipc.cpp:1609-1668 | the chunk-wise loop over a fixed buffer computes the byte-wise automaton, and counts the frames it completed |
| `StreamFramer.Framer.Reset` | userland/src/ipc.cpp:1670-1676 | forgets the unfinished frame and the failure |
| `Connection.ConnectionStateMachine.ProcessOutbound` | userland/src/ipc.cpp:1720-1743 | the machine's branches compute the acceptance rules and report what they should |
| `Connection.ConnectionStateMachine.ProcessInbound` | userland/src/ipc.cpp:1745-1768 | likewise for received frames |
| `Connection.ConnectionStateMachine.ProcessControlClient` | userland/src/ipc.cpp:1770-1849 | the control client's branches refine the shared rules |
| `Connection.ConnectionStateMachine.ProcessControlServer` | userland/src/ipc.cpp:1851-1940 | the control server's branches refine the shared rules; which HELLO they welcome is `Handshake.HelloVerdict` |
| `Connection.ConnectionStateMachine.ProcessStream` | userland/src/ipc.cpp:1942-2008 | the stream roles' branches refine the shared rules |
| `Connection.ConnectionStateMachine.ProcessTsEvent` | userland/src/ipc.cpp:2010-2032 | TS frames pass only with no drops and the next sequence number, never past the largest |
| `Connection.AgreeUp` | userland/src/ipc.cpp:1770-2008 | what a client may send, the agreeing server takes, and they agree again |
| `Connection.AgreeDown` | userland/src/ipc.cpp:1770-2032 | what a server may send, the agreeing client takes, and they agree again |
| `Connection.MoveLawful` | userland/src/ipc.cpp:1720-2032 | every send and receive of two endpoints joined by FIFO channels keeps the invariant |
| `Connection.LegalLog` | userland/src/ipc.cpp:1720-2032 | in whatever an endpoint lets through, responses match the one open request, TS numbers are consecutive, nothing follows a closing frame |
| `Connection.EveryRun` | userland/src/ipc.cpp:1720-2032 | on every run of either protocol no endpoint is poisoned, every arrival is accepted, at most one request is outstanding and is answered by its match, TS numbers arrive consecutively, nothing is accepted after a close |
| `Connection.NegotiationAgrees` | userland/src/ipc.cpp:1802-1816 | negotiated capabilities agree once both endpoints are active |
| `Handshake.HelloVerdict` | userland/src/ipc.cpp:1851-1880 | a HELLO calls for its response if and only if the versions between the four numbers in its bytes include 1.0, and else for the mismatch error; negotiated are exactly the assigned bits that both words have |
| `Handshake.EveryHandshake` | userland/src/ipc.cpp:1770-1940 | on every run of the control protocol: once the server has answered the HELLO it is active if the versions include 1.0 and closed if not, and so is the client once it has heard the answer; an active endpoint has negotiated exactly the bits that the offered and the supported word share |
| `StreamSender.Sender.Queue` | userland/src/control_server.cpp:451-537 | a frame is taken if and only if nothing is pending, it can be encoded into the buffer and the machine accepts it; the exact error otherwise; then exactly its encoding is pending |
| `StreamSender.StreamGoesOn` | userland/src/control_server.cpp:514-533 | a drained sender with an attached client takes the next TS frame or the end of the stream if and only if it is in order |
| `StreamSender.AttachAnswered` | userland/src/control_server.cpp:514-533 | before that it takes exactly an answer to the open attach request |
| `StreamSender.Sender.Flush` | userland/src/control_server.cpp:397-449 | exactly the bytes that the consumed socket answers took go out, in order and within the budget; true means everything is out; failure only if the socket closed or failed |
| `StreamSender.Sender.Receive` | userland/src/control_server.cpp:1695-1705 | a received frame enters the log exactly if the machine accepts it |
| `StreamSender.ClientTakes` | userland/src/ipc.cpp:1942-2032 | whatever a stream server has let through, the client that sent the attach request takes in that order |
| `StreamSender.ReadsWhatWasQueued` | userland/src/control_server.cpp:397-537 | a framer that has read any part of the flushed bytes in any chunks has handed over the first queued frames in order; once all is read, all of them |
| `CardService.Service.PowerUp` | userland/src/card_service.cpp:42-71 | either power and UART are up, or the reader is off and nothing else changed |
| `CardService.Service.PowerDown` | userland/src/card_service.cpp:73-84 | the reader is logically off whatever it answers, and no session is left |
| `CardService.Service.DetectAndRecord` | userland/src/card_service.cpp:86-123 | records the answer; a flip of a known answer is a new generation; absence makes every bound handle stale and ends the session |
| `CardService.Service.EnsureSession` | userland/src/card_service.cpp:125-162 | success means an initialised session and no absence seen; failure means none; the card is initialised exactly if there was no session, and a reader that answers well makes it succeed |
| `CardService.Service.EnsureHandleSession` | userland/src/card_service.cpp:164-181 | likewise, after confirming the card for a bound handle |
| `CardService.Service.ResetSession` | userland/src/card_service.cpp:183-193 | success means that the card was initialised anew, once, and that what is returned is its answer to that; the transaction survives only if asked and only on success; a reader that answers well with the card in place makes it succeed |
| `CardService.Service.Status` | userland/src/card_service.cpp:195-219 | reports the recorded state and leaves an unpowered reader unpowered |
| `CardService.Service.HandleStatus` | userland/src/card_service.cpp:221-239 | success means a live handle that is not stale and an initialised session with that ATR |
| `CardService.Service.PollPresence` | userland/src/card_service.cpp:241-261 | reports the recorded presence and generation; marked as changed exactly if a change was pending or has just been seen, and then only once |
| `CardService.Service.SharingAllowed` | userland/src/card_service.cpp:263-280 | decides whether a mode may stand beside the other handles |
| `CardService.Service.AllocateHandle` | userland/src/card_service.cpp:282-300 | terminates with a nonzero handle that nobody holds, across counter wrap |
| `CardService.Service.Connect` | userland/src/card_service.cpp:302-329 | the exact error cases; success appends one fresh handle over an initialised session; a reader that answers well makes every allowed request succeed |
| `CardService.Service.FindHandle` | userland/src/card_service.cpp:331-345 | finds the client's handle, or says exactly why not |
| `CardService.Service.Reconnect` | userland/src/card_service.cpp:364-398 | success renews this handle and no other; the card is initialised anew exactly if that was asked for or there was no session, and what is returned is its answer |
| `CardService.Service.Disconnect` | userland/src/card_service.cpp:412-440 | either nothing changed, or this handle is gone and others at most turned stale; success with a reset asked for, of a handle that was not stale, means that the card was initialised anew |
| `CardService.Service.Reset` | userland/src/card_service.cpp:442-455 | success means that the card was initialised anew and the result is its answer, renews this handle and keeps only its own transaction |
| `CardService.Service.Transmit` | userland/src/card_service.cpp:457-493 | the card is reached at most once, with exactly this command and only for a handle that was not stale; the reply is its answer; a reader that answers well makes it succeed |
| `CardService.Service.BeginTransaction` | userland/src/card_service.cpp:495-512 | success opens the only transaction, for a usable handle over an initialised session |
| `CardService.Service.EndTransaction` | userland/src/card_service.cpp:514-528 | closes the transaction exactly for its owner; with a reset asked for, success means that the card was initialised anew |
| `CardService.Service.ReleaseConnection` | userland/src/card_service.cpp:530-545 | the client's handles are gone, the others remain in order |
| `CardService.Service.Shutdown` | userland/src/card_service.cpp:547-552 | no handle, no power |
| `CardService.Service.Perform` | userland/src/card_service.cpp:263-552 | every call keeps the joint invariant of handles, sharing, transaction, power, presence, session and ATR under any answers; stale handles stay stale unless renewed or given back; absence seen makes every bound handle stale |
| `CardService.Service.Serve` | userland/src/card_service.cpp:263-552 | over any sequence of calls, a stale handle that was neither renewed nor given back is still there, stale, and never reached the card |
| `CardService.StepFair` | userland/src/card_service.cpp:22-40 | the step of that argument |
| `ControlServer.NextKeeps` | userland/src/control_server.cpp:750-775 | every step of the daemon keeps the ownership invariant |
| `ControlServer.RunKeeps` | userland/src/control_server.cpp:1026-1121 | the invariant holds after every run |
| `ControlServer.EveryLeaseAccounted` | userland/src/control_server.cpp:1176-1275 | on every run each granted lease is in its owner's table, live or retired, or is the result of an acquire whose owner still waits for it |
| `ControlServer.NothingLeftBehind` | userland/src/control_server.cpp:1026-1053 | with no clients, all cleanup done and idle lanes, no lease and no card handle is left; that every run can come there is `ControlDrain.ComesToRest` |
| `ControlServer.RemoveHasRecord` | userland/src/control_server.cpp:1167-1174 | admission keeps a retired record free for every live client |
| `ControlServer.GrantFindsSlot` | userland/src/control_server.cpp:1200-1228 | a granted lease always finds a slot in the table of its owner |
| `ControlServer.PastStays` | userland/src/control_server.cpp:1064-1121 | a removed client past its fence stays past it |
| `ControlServer.FenceHolds` | userland/src/control_server.cpp:1064-1121 | once a removed client's card fence has completed, the card service never again holds a handle for it |
| `ControlDrain.CleaningDecreases` | userland/src/control_server.cpp:1064-1121 | every step of the lanes, the completions, the retries and the reaping brings the cleanup nearer to its end |
| `ControlDrain.EverythingIsCleanedUp` | userland/src/control_server.cpp:1026-1121 | from every run such steps alone, no more than the measure says, lead to where no removed client has a record, a lease or a card handle; the live clients stay |
| `ControlDrain.EveryCleaningEnds` | userland/src/control_server.cpp:1026-1121 | in whatever order such steps are taken and however they come out, there are no more than the measure says, and where none is left to take, all that is so |
| `ControlDrain.ComesToRest` | userland/src/control_server.cpp:1026-1121 | with no clients left, such steps lead to where no lease and no card handle is held |
| `ControlSession.EveryRunCoupled` | userland/src/control_server.cpp:973-1002 | on every run of the connections the ownership state is that of a run of the ownership steps, and a live client's machine waits for an answer exactly if its one request is on a lane |
| `ControlSession.OneRequestPerClient` | userland/src/control_server.cpp:750-775 | a request that a client's machine lets through finds none outstanding, so the submit step is enabled |
| `ControlSession.CompletionClears` | userland/src/control_server.cpp:1227-1371 | a completion clears the request of the client that waits for it, and no other |
| `LeaseTable.Leases.Find` | userland/src/control_server.cpp:256-266 | looks a lease up in the map the slots stand for |
| `LeaseTable.Leases.Add` | userland/src/control_server.cpp:268-281 | adds exactly when the lease is new and nonzero, the receiver exists and a slot is free |
| `LeaseTable.Leases.Remove` | userland/src/control_server.cpp:283-291 | removes exactly that lease |
| `LeaseTable.TableSize` | userland/src/control_server.cpp:256-291 | the map has as many entries as slots are taken |
| `WorkerLane.Ring.Push` | userland/src/control_workers.cpp:700-703 | appends to the queue the ring stands for |
| `WorkerLane.Ring.Pop` | userland/src/control_workers.cpp:724-726 | takes the oldest element |
| `WorkerLane.Lane.Submit` | userland/src/control_workers.cpp:682-712 | accepts unless stopping (NOT_READY) or full (BUSY), at the end of the queue that the lane amounts to |
| `WorkerLane.Lane.TryPop` | userland/src/control_workers.cpp:714-733 | takes the oldest completion, if any, which is that of the first task of the queue |
| `WorkerLane.Lane.Step` | userland/src/control_workers.cpp:614-675 | each step of the thread keeps order and conservation and brings it nearer to its end; only execution is a step of the queue, and gives the first task without an outcome one |
| `WorkerLane.Lane.Idle` | userland/src/control_workers.cpp:754-763 | true exactly when every accepted entry's completion was taken and the thread is past its push-before-decrement window |
| `WorkerLane.Lane.Interleave` | userland/src/control_workers.cpp:614-763 | under any interleaving, completions are taken in submit order, none lost and none twice |
| `WorkerLane.Lanes.StopAndJoin` | userland/src/control_workers.cpp:1185-1221 | however the steps of the three threads fall between the caller's single looks at the three lanes, all end, even when blocked on full completion queues, and everything accepted was executed and its completion taken |
| `WorkerLane.TakenInOrder` | userland/src/control_workers.cpp:614-763 | what the taken completions answer is a front part of what was accepted |
| `Sha256.Schedule` | userland/src/firmware.cpp:113-128 | the word loop computes the message schedule of section 6.2.2 of FIPS 180-4 |
| `Sha256Constants.ConstantsAreCubeRoots` | userland/src/firmware.cpp:87-104 | the round constants are the first 32 fractional bits of the cube roots of the first 64 primes, by integer inequalities (section 4.2.2 of FIPS 180-4) |
| `Sha256Constants.InitialIsSquareRoots` | userland/src/firmware.cpp:30-34 | the initial hash value is that of the square roots of the first eight (section 5.3.3) |
| `Sha256Constants.SumsAddBits` | userland/src/firmware.cpp:139-145 | bit by bit, which three bits of a word the two sum functions add (section 4.1.2) |
| `Sha256Constants.ScheduleAddsBits` | userland/src/firmware.cpp:121-126 | the same for the two functions of the message schedule, with zeros shifted in |
| `Sha256Constants.ChChooses` | userland/src/firmware.cpp:141-141 | the first word chooses for each bit between the other two |
| `Sha256Constants.MajDecides` | userland/src/firmware.cpp:146-146 | each bit is one that at least two of the three words have |
| `Sha256.Hasher.Transform` | userland/src/firmware.cpp:111-165 | one block through the rounds is the compression function |
| `Sha256.Hasher.Update` | userland/src/firmware.cpp:36-56 | appends to the message, whatever the split |
| `Sha256.Hasher.Finish` | userland/src/firmware.cpp:58-85 | the digest is the fold of the compression over the message padded per section 5.1.1, in one or two final blocks |
| `Sha256.Hasher.WriteLength` | userland/src/firmware.cpp:72-75 | the shifts write the bit length big-endian |
| `Sha256.GapIsLeast` | userland/src/firmware.cpp:58-71 | the padding is the shortest that leaves room for the length |
| `Sha256.PadSplits` | userland/src/firmware.cpp:58-76 | how the padded message falls into one or two final blocks |
| `Sha256.HashPieces` | userland/src/firmware.cpp:175-180 | however a message is cut, the digest is that of the whole |
| `Firmware.Load` | userland/src/firmware.cpp:182-249 | the error of a bad path or of a file that does not open; an open file is accepted exactly if it is not longer than the expected image, was read to its end, and has the expected size, digest and block structure |
| `BridgePower.Controller.SetBackendPower` | userland/src/it930x.cpp:929-1021 | after any failures the cached state agrees with GPIO 2 and GPIO 7, so the early return is sound; a reported loss is exactly what makes it disconnected |
| `BridgePower.Controller.SetLnbPower` | userland/src/it930x.cpp:666-678 | success means that GPIO 11 was written with exactly the level asked for and nothing else; a failure is the device's answer; a reported loss is remembered and ends all further writes |
| `BridgePower.Controller.VerifyState` | userland/src/it930x.cpp:1135-1235 | success means all eight stream registers, the backend line, the reset line and, where there is one, the LNB line hold what they should |
| `BridgePower.Controller.InitializeLocked` | userland/src/it930x.cpp:1277-1332 | off on success and unknown on any failure, honest for boards reset through GPIO 7 |
| `BridgePower.Controller.Perform` | userland/src/it930x.cpp:929-1332 | any call keeps the cache honest; a lost device stays lost if and only if the call is no initialisation |
| `BridgePower.Controller.Drive` | userland/src/it930x.cpp:929-1332 | the same over any sequence of calls |
| `BridgePower.FailedInitialisationReopens` | userland/src/it930x.cpp:1277-1299 | a device lost in a transfer is refused, then an initialisation whose version query times out lets the next power-up succeed |
| `ScatterImage.ParseBlock` | userland/src/it930x_protocol.cpp:24-63 | finds exactly the block in front, or rejects |
| `ScatterImage.Validate` | userland/src/it930x_protocol.cpp:65-83 | accepts exactly the nonempty images that repeated parsing uses up |
| `ScatterImage.EncodedPartitions` | userland/src/it930x_protocol.cpp:24-83 | whatever a sequence of well-formed blocks encodes to is accepted |
| `ScatterImage.PartitionedIsEncoded` | userland/src/it930x_protocol.cpp:24-83 | whatever is accepted is the encoding of some sequence of well-formed blocks |
| `ScatterImage.FrontIsEncoded` | userland/src/it930x_protocol.cpp:24-63 | a parsed block is nonempty, at most 250 bytes, and the encoding of a well-formed block |
| `BridgeTransfers.PiecesPartition` | userland/src/it930x.cpp:1097-1112 | a validated image is exactly its pieces in order, each fit for one command |
| `BridgeTransfers.Bridge.LoadFirmware` | userland/src/it930x.cpp:1089-1133 | success means the whole conversation took place, every answer allowed it and the last one is the version; failure is the last answer's doing or an image that does not parse; a validated image never fails to parse, and boot is sent only after all of it |
| `BridgeTransfers.Bridge.SendBlocks` | userland/src/it930x.cpp:1097-1112 | what was sent is always a front part of the pieces in order, one answer to each, and only the last answer can have stopped it |
| `BridgeTransfers.Bridge.WriteCardData` | userland/src/it930x.cpp:832-867 | what was sent is always a front part of the write plan, all of it exactly if every answer allowed it |
| `BridgeTransfers.WritePlanShape` | userland/src/it930x.cpp:832-867 | the chunks make up the input, each at most 48 bytes, and the one REAL_SEND stands right before the last |
| `Grouping.ObservationOrder` | userland/src/identity.cpp:131-145 | the observation order is irreflexive and asymmetric; incomparable means equal in all it looks at |
| `Grouping.ObservationTransitive` | userland/src/identity.cpp:131-145 | the observation order is transitive |
| `Grouping.LocationTotal` | userland/src/identity.cpp:115-129 | locations that compare neither way are the same place |
| `Grouping.GroupableStatus` | userland/src/identity.cpp:58-83 | exactly the unsupported and badly numbered observations cannot be grouped |
| `Grouping.BridgesAreNumbered` | userland/src/identity.cpp:58-83 | in an enclosure of two bridges the one in place i has the enclosure's serial followed by the digit i + 1 |
| `Grouping.GroupInOrder` | userland/src/identity.cpp:349-393 | in whatever order observations come, each group gets the status its candidates call for, each bridge is taken by the first candidate that claims it, and two-bridge enclosures appear once |
| `Grouping.GroupDevices` | userland/src/identity.cpp:330-403 | every observation index ends up in exactly one group or among the rejected, and the groups come out in their final order already |
| `Grouping.Sort` | userland/src/identity.cpp:344-347 | a permutation in which nothing comes before what precedes it |
| `Grouping.HoldsItsEnclosure` | userland/src/identity.cpp:349-372 | a two-bridge group holds exactly the observations of its enclosure |
| `Grouping.OrderDoesNotMatter` | userland/src/identity.cpp:330-393 | reordering the input changes neither which two-bridge enclosures are found nor their statuses |
| `Grouping.SelectReady` | userland/src/identity.cpp:405-440 | selects exactly the only ready group, or the only group of that serial if it is ready; NOT_FOUND exactly if there is none |
| `Grouping.FindPath` | userland/src/identity.cpp:453-474 | succeeds exactly if one candidate matches the path |
| `Grouping.SelectByPaths` | userland/src/identity.cpp:442-507 | it succeeds exactly with what the paths select: by one path a ready enclosure with a usable candidate of its own bridge in every place, by two the two usable bridges they name |
| `Gates.ApiGate.Arrive` | userland/src/libusb_transport_internal.h:194-200 | an arrival joins the end of the queue |
| `Gates.ApiGate.TryEnter` | userland/src/libusb_transport_internal.h:194-200 | a caller goes in exactly when it is the first of the queue, across counter wrap |
| `Gates.ApiGate.Unlock` | userland/src/libusb_transport_internal.h:202-210 | the first of the queue leaves and the next is served |
| `Gates.ApiGate.Outstanding` | userland/src/libusb_transport_internal.h:214-220 | the difference of the counters is the number of callers outstanding |
| `Gates.MutualExclusion` | userland/src/libusb_transport_internal.h:192-228 | at most one caller is in, and it is the one that arrived first |
| `Gates.OneCallerTooMany` | userland/src/libusb_transport_internal.h:188-200 | the stated bound on callers is exact: with as many callers as tickets, the next ticket is the one being served |
| `Gates.FullHouse` | userland/src/libusb_transport_internal.h:188-200 | that many callers can be there with the first inside, so that one more would go in beside it |
| `Gates.TurnsSinceArrival` | userland/src/libusb_transport_internal.h:236-260 | over every run of commands and streams: since a command announced itself, a turn was granted exactly if a stream was about to return with one just then and has returned |
| `Gates.TurnsBeforeAcquire` | userland/src/libusb_transport_internal.h:236-260 | so at its acquisition it has waited behind exactly one turn if it crossed with a stream, and else behind none |
| `Gates.CrossedTurn` | userland/src/libusb_transport_internal.h:245-252 | a run in which a turn is granted after a command announced itself |
| `Gates.EventGate.Register` | userland/src/libusb_transport_internal.h:238-243 | a command counts itself in, and remembers the turns granted and whether it crossed |
| `Gates.EventGate.Acquire` | userland/src/libusb_transport_internal.h:238-243 | exactly one stream turn was granted since the command's registration if it crossed with one, and else none |
| `Gates.EventGate.LookAgain` | userland/src/libusb_transport_internal.h:245-252 | with the mutex in hand a stream finds its way clear exactly if no command is registered |
| `Gates.EventGate.Return` | userland/src/libusb_transport_internal.h:245-252 | a stream that found its way clear gets the turn |

## Left out

- `T1Session.CardSession.TransmitAll`: the conforming card hears every block undamaged and its reader gives a waiting frame whole; when it answers a new block, bytes of an older answer that were not read are gone. Damage and loss are covered by the arbitrary hardware.
- `T1Session.PromptNeverLate`: the bound counts one millisecond for each hardware call of a prompt card; slower cards are covered up to the clock readings in the contracts.
- `ControlServer.NextKeeps`: the daemon's tables are values updated by step functions, not objects updated in place; `LeaseTable` covers the slot arrays. Card handles are a map from handles to clients there; `CardService` has the service itself. Shutdown, presence polling, stream clients and their retirement, sockets and polling are not steps of the model.
- `ControlServer.EveryLeaseAccounted`: relies on a tuner service that grants fresh nonzero leases, at most one per receiver, that consumes a lease on release even when it reports an error, and whose status query does not fail right after a granted acquire (`userland/src/control_workers.cpp:979-985`). That a client has at most one request outstanding is a condition of the submit step, which `ControlSession.OneRequestPerClient` discharges.
- `ControlDrain.EveryCleaningEnds`: whether a lane takes a retried task is a parameter of the retry step; one that it refuses changes nothing and is not counted as a step of the cleanup.
- `ControlSession.EveryRunCoupled`: which request types lead to which operation is left open: an accepted request is turned into any operation that passes the daemon's own lookups, or answered at once.
- `CardService.Service.Perform`: the service's fields are held in one record that the methods replace field by field; the allocator's counter is a field of its own. Starting values that lie outside the modelled file are parameters.
- `Connection.EveryRun`: capability words are modelled as their four assigned bits and the number the other bits make.
- `StreamSender.Sender.Flush`: interrupted system calls and all socket answers come from a finite script; a socket whose script is used up blocks.
- `WorkerLane.Lane.Step`: mutex and condition variables are atomic steps, the thread takes a step while the stopping caller waits for it; errors of the threading library are not modelled.
- `Sha256.Hasher.Finish`: the bit length is taken modulo 2^64, as in the program; the standard does not define longer messages.
- `BridgePower.Controller.InitializeLocked`: the setup writes are an arbitrary list, and loading the firmware is one answer (`BridgeTransfers` has the conversation); direct register writes to the two power lines by other callers are not modelled.
- `Grouping.GroupDevices`: speed and endpoint topology of an observation are given as two flags, and the text form of USB paths is given parsed. The last sort of `userland/src/identity.cpp:393-402` finds nothing to do and is not modelled as a step.
- `Gates.EventGate.Register`: the waiter counter is bounded by the number of threads.
- The typed payload structures of the protocol and their encoders: payloads are byte strings checked by the validators.
- The command frames of the bridge (length, sequence number, checksum) and register and I2C access.
- Tuner service, demodulator and tuner drivers, client library, probes and scripts: register tables, thin forwarding and command-line work.
