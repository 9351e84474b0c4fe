# fleetcore command path

A Dafny 4.11 model of how fleetcore carries a LOCK command from a maintenance
screen to a vehicle terminal and the acknowledgement back. The model follows
the code in four layers and then composes them.

1. **The framed byte channel** (`Wire`, `Framing`, `StreamBuffers`,
   `TcpServers`, `Workers`, `Link`). `Framing.Parse` is a one-shot recursive
   parser over a whole stream; the incremental buffer, every drain loop and
   both screen workers are proved to compute it under any chunking, corrupt
   streams included. `Link` is a transition system over any number of
   connections with partial and failed sends.
2. **The shared terminal table** (`TerminalTable`, `TableHistory`,
   `TableSections`, `TableProtocol`, `TableRuns`, `TableWaiting`, `TableReach`).
   `TerminalTable.Apply` and `ReplyTo` say what one whole call does; the class
   `ShmTable` is the code of the calls, and `TableSections` is that code one
   memory access at a time. `TableProtocol` is a transition system with any
   number of processes, each with a program counter and a `semadj`, and a kill
   at every point; `TableRuns` shows that every run has a history of whole and
   broken-off calls, and `TableHistory` says what rows and readers owe to that
   history. `TableReach` builds runs: a call that can lock can finish, and a
   reader can be handed a torn row. Semaphores follow POSIX.1-2017 System
   Interfaces, `semop()` with `SEM_UNDO`.
3. **The daemons** (`MessageQueues`, `Processes`, `Gateways`, `GatewayRuns`,
   `Locators`, `Termds`). Each daemon's fields and methods as a class, proved
   against specification functions that the composed system reuses; what those
   functions mean, over whole lives of gateway and termd, is proved beside them.
4. **The pipeline** (`Pipeline`, `Deliveries`, `EndToEnd`). Handlers are atomic steps over
   the kernel's queues, any send may fail, any call on the table may be cut
   short. Conservation, order, isolation, relay transparency and draining hold
   in every reachable state of every run. `Deliveries` says where each step
   sends its message and exactly when it may drop it, and that a command for a
   registered terminal can always be brought to it. `EndToEnd` joins it with the link of
   one terminal, step by step; `CommandPath` adds the maintenance screen's
   connections (`Uplink`) and the shared table with all its processes, so that
   one system reaches from the commands the screen writes to the frames the
   vehicle terminal decodes. `ShortWrites` says what happens in the one case
   that system's main theorem leaves out.

## What the code does that its documentation does not say

- The text `"0000"` names no terminal, but `find(0)` matches any free row, so
  `locator` resolves it to its own index 2000 and sends the command to itself
  (`Locators.ZeroesResolveToLocator`, `Pipeline.ZeroesSpin`). Every routing and
  draining statement carries exactly that exception.
- The first lines of locator/main.cpp and the repository's own
  README.md:199-200 speak of a hard-coded map; the code looks terminals up in
  the shared table, and so does the model.
- A LOCK-ACK with `RESULT_OK` means that `termd` handled the command, not that
  a terminal received it (`Termds.Termd.OnLockRequest`).
- Holding a socket implies that the row says CONNECTED, never the converse: two
  ways of dropping the client do not touch the row
  (`Termds.AgreesUnlessStale`, `Termds.StaleConnectedRow`), and
  re-registering keeps a stale state (`TerminalTable.ReRegisteringKeepsState`).
- A terminal in a slot above 8999 has a number of more than four digits and
  cannot be addressed (`Locators.HighSlotsAreUnreachable`).
- common/shm_table.h:101-104 promises that a reader never sees a row while it
  is being written. A writer killed inside its critical section breaks that for
  every field it was the last to write, until a completed call writes that very
  field: a later `touch` mends no state, and registering the terminal again
  mends nothing (`TableHistory.TornFieldStays`). A reader gets what completed
  calls last wrote exactly when those fields hold the same values anyway
  (`TableHistory.ReaderSeesCommittedRow`), and a machine just started can get to
  a reader that is told otherwise (`TableReach.TornReadIsReachable`).
- A short write in the maintenance screen leaves part of a command on a
  connection that stays open, and the sequence number is used again
  (`Workers.MaintWorker.SendLock`). The next command on it then ends the
  connection, gets stuck, or makes gateway accept a command made of the two
  (`ShortWrites.NextAfterShortWrite`), at worst for a terminal nobody named
  (`ShortWrites.ShortWriteCanMisdirect`).

## Model

| member | source | states |
|---|---|---|
| `Wire.BigEndianOfDigits` | common/wire.cpp:10-47 | load after store is the identity at every width, for every value that fits |
| `Wire.DigitsOfBigEndian` | common/wire.cpp:10-47 | store after load is the identity on the bytes, at every width |
| `Wire.LoadBe16` | common/wire.cpp:10-14 | reads the number the two bytes stand for in network order |
| `Wire.LoadBe32` | common/wire.cpp:16-21 | the same for four bytes |
| `Wire.LoadBe64` | common/wire.cpp:23-29 | the same for eight bytes, the 64-bit shift of the accumulator never losing a bit |
| `Wire.StoreBe16` | common/wire.cpp:31-34 | writes the two base-256 digits, most significant first, and touches no other byte |
| `Wire.StoreBe32` | common/wire.cpp:36-41 | the same for four bytes |
| `Wire.StoreBe64` | common/wire.cpp:43-47 | the same for eight bytes |
| `Wire.LengthFieldIsBigEndian` | common/stream_buffer.cpp:17-18 | the length read straight from the buffer is the header's length field |
| `Wire.PackHeader` | common/wire.cpp:66-82 | the bytes written are the wire form of the header whatever the host's byte order; too small a buffer is left alone and gives 0 |
| `Wire.PackLockRequest` | common/wire.cpp:112-123 | the same for a LockRequest; bytes past the message are untouched |
| `Wire.PackLockResponse` | common/wire.cpp:159-169 | the same for a LockResponse |
| `Wire.UnpackHeader` | common/wire.cpp:84-108 | the first violated check in the contract's order, and otherwise every field in host form |
| `Wire.UnpackLockRequest` | common/wire.cpp:125-137 | the first violated check of the request, and otherwise the request those bytes spell |
| `Wire.UnpackLockResponse` | common/wire.cpp:171-183 | the first violated check of the response, and otherwise the response those bytes spell |
| `Wire.RequestRoundTrip` | common/wire.cpp:112-137 | unpacking a packed request gives it back; it is accepted if and only if its header is valid for the type, and each error arises exactly when its check is the first to fail |
| `Wire.ResponseRoundTrip` | common/wire.cpp:159-183 | the same for responses |
| `Wire.HeaderLayout` | common/wire.cpp:66-82 | every header field of an encoded message is at its offset, and numbers are there most significant byte first |
| `Wire.MessageLayout` | common/wire.cpp:112-123 | an encoded request is 24 bytes with the number at 20, a response 28 with number, result and padding |
| `Wire.VerdictOnBytes` | common/wire.cpp:84-137 | for any bytes whatever, however few, each verdict arises exactly when its check is the first to fail |
| `Wire.RequestReencodes` | common/wire.cpp:112-137 | a request that was unpacked packs back to the very bytes it came from, timestamp and reserved included |
| `Wire.ResponseReencodes` | common/wire.cpp:159-183 | the same for responses, padding included |
| `Wire.MakeLockRequest` | common/wire.cpp:139-155 | a request built for a terminal is one every receiver accepts, with that number, sequence number and time |
| `Wire.MakeLockResponse` | common/wire.cpp:185-202 | a response built so is accepted, carries the result, and its padding is zero on the wire |
| `StreamBuffers.StreamBuffer.Append` | common/stream_buffer.cpp:7-9 | new bytes go behind the ones already there |
| `StreamBuffers.StreamBuffer.Next` | common/stream_buffer.cpp:11-36 | finds something exactly when a frame is complete or its length is out of range, and then hands out that frame, or on a bad length all of the buffer |
| `StreamBuffers.StreamBuffer.Consume` | common/stream_buffer.cpp:38-44 | removes that many bytes from the front, all of them at most |
| `Framing.ParseExtends` | common/stream_buffer.cpp:7-44 | parsing a longer stream resumes from the residue of the shorter one, and a dead stream stays dead |
| `Framing.ChunkingIsIrrelevant` | common/stream_buffer.cpp:7-44 | for every way of cutting a stream into chunks, incremental feeding gives the frames, verdict and residue of one parse of the whole, corrupt or not |
| `Framing.FeedAllIsOneFeed` | common/stream_buffer.cpp:7-44 | the same from any settled state of a connection |
| `Framing.OpenMeansDecomposed` | common/stream_buffer.cpp:11-36 | a stream parses to these frames and this residue if and only if it is those well-formed frames followed by an incomplete one |
| `Framing.DroppedMeansCorrupt` | common/stream_buffer.cpp:20-28 | a stream is dropped after these frames if and only if they are followed by bytes no receiver accepts |
| `Framing.ParseConcat` | common/stream_buffer.cpp:11-44 | a concatenation of well-formed frames is recovered frame by frame in front of whatever follows |
| `Framing.PrefixParsesToPrefix` | common/stream_buffer.cpp:11-44 | a truncated stream of whole frames never desynchronises and yields a prefix of them, all of them once complete |
| `Framing.DrainBound` | gateway/main.cpp:63-78 | a drain takes at least a header per pass, so at most size/20 passes, and leaves less than a maximal message |
| `Framing.DesyncIsRejected` | common/stream_buffer.cpp:24-28 | the pseudo-frame of the bad-length branch never unpacks, whatever the chunking put in it |
| `Framing.FramedIsNeverShort` | common/wire.cpp:84-137 | a frame cut by its length field is never TooShort and never BadLength, for any of the three unpackers |
| `Framing.UnknownFramesAreInvisible` | gateway/main.cpp:90-103 | well-formed frames of other codes mixed into a stream change neither the LockRequests forwarded nor the verdict nor the residue, under any chunking and with any tail |
| `TcpServers.TcpServer.PollAccept` | common/tcp_server.cpp:70-89 | a waiting connection replaces the client, and its stream starts empty |
| `TcpServers.TcpServer.PollRead` | common/tcp_server.cpp:91-107 | end of file and errors drop the client and give -1; nothing yet and an interruption do neither |
| `TcpServers.TcpServer.Send` | common/tcp_server.cpp:109-133 | the client gets all of the data, and stays, if and only if the kernel at some point has offered to take that much without having failed or taken nothing before; otherwise it gets exactly what was taken before the first such answer, and is dropped |
| `TcpServers.NoRefusalMeans` | common/tcp_server.cpp:117-130 | what ends the attempt is an error or an answer that takes nothing, and neither an interruption nor a full buffer |
| `Workers.CommWorker.OnConnected` | term_gui/comm_worker.cpp:51-56 | a new connection starts with an empty buffer |
| `Workers.CommWorker.OnDisconnected` | term_gui/comm_worker.cpp:58-67 | nothing of a lost connection stays in the buffer |
| `Workers.CommWorker.HandleMessage` | term_gui/comm_worker.cpp:82-114 | a bad header closes the connection, another code or a bad request is skipped, a good request is reported |
| `Workers.CommWorker.OnReadyRead` | term_gui/comm_worker.cpp:69-80 | one read reports the LockRequests of the one-shot parse, in order, and ends with its verdict and residue, although the handler resets the buffer under the loop |
| `Workers.MaintWorker.SendLock` | maint_gui/maint_worker.cpp:50-80 | bytes go out only on a connection and for a four-character number; commands written whole are numbered consecutively modulo 2^16, a short write leaves its part of the frame on the open connection and the number to be used again |
| `Workers.MaintWorker.WholeWritesAreDecoded` | maint_gui/maint_worker.cpp:71-79 | until a write falls short, whatever part of the connection's bytes has arrived decodes to a prefix of the commands written on it, all of them once all has arrived |
| `Workers.MaintWorker.HandleMessage` | maint_gui/maint_worker.cpp:95-119 | the same policy for LockResponses |
| `Workers.MaintWorker.OnReadyRead` | maint_gui/maint_worker.cpp:82-93 | one read reports the LockResponses of the one-shot parse and ends with its verdict and residue |
| `Link.RunKeepsInv` | common/tcp_server.cpp:109-133 | in every run, each connection's wire holds whole frames but for the end of the last after a failed send, and the worker's buffer holds bytes of its own connection only |
| `Link.DecodedIsPrefixOfSent` | term_gui/comm_worker.cpp:51-80 | over any connections, partial and failed sends and chunk sizes, what a worker decodes on a connection is a prefix of what was sent on it, all of it once nothing failed and all was read; it never sees a desynchronised stream |
| `MessageQueues.TakeIsFifo` | common/msgq.cpp:67-79 | a receive pops the front of its own queue and leaves every other queue alone |
| `MessageQueues.Kernel.SendTo` | common/process.cpp:90-100 | a message is queued exactly when the destination's queue exists and the kernel takes it, and nothing else changes |
| `MessageQueues.Kernel.Receive` | common/msgq.cpp:112-116 | a non-blocking receive takes the front of the process's own queue, messages that just came in included, and leaves every other queue alone; unless interrupted, it finds nothing exactly when the queue is empty |
| `MessageQueues.RecvTimeout` | common/msgq.cpp:96-134 | Timeout only after exactly max(0, ceil(timeout/50)) naps, each after finding the queue empty, and with nothing for this process having come in the whole time; otherwise the front of its queue as it was sent, or an error with an oversized message lost; it ends once signals stop |
| `MessageQueues.SlicesCoverTimeout` | common/msgq.cpp:104-124 | the number of naps is the least one that covers the timeout |
| `MessageQueues.EverythingSentFits` | common/process.cpp:59-83 | every message send accepts fits the buffer run receives into |
| `Processes.UnknownCodesAreInvisible` | common/process.cpp:39-57 | any number of turns leave a daemon as if only the timeouts and the messages it has a handler for had come, in their order |
| `Processes.Process.Run` | common/process.cpp:59-88 | a turn without a message runs on_idle, a message runs the handler of its code, an unknown one changes nothing; the loop stops with 0 only at a shutdown flag, and with 1 at a receive error or right after the handler that asked for it, which only the last one may have done |
| `TerminalTable.ShmTable.RegisterTerminal` | common/shm_table.cpp:181-212 | the rows and the answer of the whole-call specification; number 0, a closed table and a failed lock change nothing |
| `TerminalTable.ShmTable.SetTerminalState` | common/shm_table.cpp:214-231 | the same for a state change: the first row with that number only |
| `TerminalTable.ShmTable.TouchTerminal` | common/shm_table.cpp:233-248 | the same for a refresh |
| `TerminalTable.ShmTable.FindTerminal` | common/shm_table.cpp:250-268 | finds the first row with that number, if any, and copies it |
| `TerminalTable.ShmTable.SnapshotRows` | common/shm_table.cpp:270-281 | copies the occupied rows up to the capacity |
| `TerminalTable.CallsActOnTheMap` | common/shm_table.cpp:181-281 | every call on a well-shaped table is the call on a map from terminal number to information holding at most 64 of them, answer included; with number 0 the calls that search find any free row and the map stays as it is |
| `TerminalTable.OtherTerminalsStay` | common/shm_table.cpp:181-248 | a call cut off after any subset of its field writes changes what the table says of no other terminal |
| `TerminalTable.WriteKeepsShape` | common/shm_table.cpp:181-248 | a call cut off after any subset of its field writes keeps the occupied rows a prefix with distinct numbers, and changes no number |
| `TerminalTable.SnapshotIsInOrder` | common/shm_table.cpp:270-281 | a snapshot is the first min(cap, k) rows of the table as they stand |
| `TerminalTable.ReRegisteringKeepsState` | common/shm_table.cpp:187-193 | registering a known terminal changes nothing, a stale state included |
| `TableProtocol.StepKeepsInv` | common/shm_table.cpp:47-281 | any step of any process, a kill included, keeps lock balance, undo counts, the creation race's safety and linearisation |
| `TableRuns.LockIsNeverLostOrDoubled` | common/shm_table.cpp:72-179 | in every reachable state the semaphore's value plus the holders is 1 after initialisation and 0 before, semadj is 1 exactly for the holder, at most one process is inside, the initial +1 happened at most once and before any open() returned |
| `TableRuns.KillReturnsTheLock` | common/shm_table.cpp:94-107 | killing the holder sets the value back to 1; the exit of anyone else, the creator included, leaves it alone |
| `TableSections.AdvanceStaysOnTrack` | common/shm_table.cpp:181-281 | each memory access of a call, fields written or read in any order, keeps memory and local state in agreement with the whole-call specification |
| `TableRuns.TableIsLinearisable` | common/shm_table.cpp:181-281 | in every run with kills anywhere, completed calls got the answers of a sequential table, memory outside critical sections is that table, its shape holds at every instant and numbers never change |
| `TableHistory.RegisterSucceedsIff` | common/shm_table.cpp:181-212 | a registration that was not killed succeeds if and only if the terminal is present or fewer than 64 are |
| `TableHistory.HistoryActsOnTheMap` | common/shm_table.cpp:181-281 | in any history, each completed call updates the map and answers from it as it should, and each killed one changes no terminal but its own |
| `TableHistory.RowsListRegistered` | common/shm_table.cpp:195-208 | in any history, the rows carry the terminals' numbers in the order they were first registered, by a completed or a killed call, and the rest are free |
| `TableHistory.SnapshotInRegistrationOrder` | common/shm_table.cpp:270-281 | a completed snapshot lists the first min(cap, k) terminals in the order they were first registered |
| `TableHistory.RowIsCommittedPlusTorn` | common/shm_table.cpp:149-154 | a row is, field by field, what completed calls last wrote, with the fields that a killed call was the last to write on top |
| `TableHistory.TornMeansKilledLast` | common/shm_table.cpp:149-154 | a field counts as torn if and only if the last call to write it was killed, and every field holds what the last call to write it wrote |
| `TableHistory.TornFieldStays` | common/shm_table.cpp:181-248 | a torn field stays torn, with its value, through every completed call that does not write that field of that row |
| `TableHistory.RowIsCommittedIff` | common/shm_table.h:101-104 | a row holds what completed calls last wrote to it if and only if every field a killed call was the last to write holds that very value |
| `TableHistory.UntornRowIsCommitted` | common/shm_table.h:101-104 | a row whose every field was last written, if at all, by a call that completed holds what completed calls last wrote |
| `TableHistory.ReaderSeesCommittedRow` | common/shm_table.h:101-104 | find copies what completed calls last wrote to the row of that number if and only if no killed call, the last to write a field of it, left another value |
| `TableHistory.SnapshotSeesCommittedRows` | common/shm_table.h:106-108 | the same for every row of a snapshot |
| `TableHistory.TornRowDiffers` | common/shm_table.cpp:149-154 | in any history, a set_state killed after its first write leaves a disconnected terminal's row different from what completed calls last wrote |
| `TableReach.CallRuns` | common/shm_table.cpp:144-281 | from every reachable state with the lock free, an idle process can run any call from lock to unlock and gets the sequential answer |
| `TableReach.TornRowIsRead` | common/shm_table.cpp:149-154 | from every reachable state in which a process is about to write a state change, it can write one field and be killed, and a reader then gets exactly that half-written row |
| `TableReach.TornReadIsReachable` | common/shm_table.cpp:149-154 | from a machine just started, for every terminal, two processes can get to a find that reports a terminal as connected that was only ever registered |
| `TableRuns.CreatorDeathOrphans` | common/shm_table.cpp:86-107 | a creator that dies or fails before its +1 leaves the set at 0 with nobody to raise it |
| `TableRuns.OrphanedTableIsNeverEntered` | common/shm_table.cpp:108-139 | from then on, in every run, no process gets past open(), and each one waiting has at most its bounded number of steps left |
| `TableWaiting.WaitingEndsIff` | common/shm_table.cpp:108-139 | a process that found the semaphore there gives up if and only if a hundred looks in a row showed no first operation, and gets in if and only if one of them did |
| `Gateways.Gateway.HandleFromMaint` | gateway/main.cpp:82-115 | Stream severity exactly on a bad header; a valid LockRequest and nothing else is queued for locator, and is lost if locator is not running or msgsnd refuses it |
| `Gateways.Gateway.Pass` | gateway/main.cpp:65-77 | one pass queues what the frame carries, takes it off the buffer, and ends the connection with an empty buffer exactly on a bad header |
| `Gateways.Gateway.Drain` | gateway/main.cpp:63-78 | the loop ends as the pass-by-pass recursion does, in at most size/20 passes |
| `Gateways.LoopIsAfterDrain` | gateway/main.cpp:63-78 | that recursion forwards exactly those LockRequests of the one-shot parse of the buffer whose send does not fail, in order, and keeps or drops the client and leaves the residue as the parse says |
| `Gateways.Gateway.OnIdle` | gateway/main.cpp:46-79 | the whole socket side of one turn in terms of the one-shot parse: replacement, disconnection, empty read and drain, whichever sends fail |
| `Gateways.Gateway.OnLockResponse` | gateway/main.cpp:117-144 | an acknowledgement's wire bytes go to the client if there is one, which stays if and only if the kernel takes them all; if not, it got what was taken before the kernel refused |
| `Gateways.ForwardedMeansRequests` | gateway/main.cpp:98-114 | one message for locator per LockRequest among the frames, in order, with the request unchanged and destination 0 |
| `Gateways.ConnectionIsParsed` | gateway/main.cpp:46-79 | over a whole connection, any cutting into reads and any failing sends, gateway forwards exactly those LockRequests of the one-shot parse whose send does not fail, all of them if none does, with its verdict and residue |
| `GatewayRuns.ConnectionsAreParsedApart` | gateway/main.cpp:46-79 | over gateway's whole life, with connections accepted, replaced, closed, broken or desynchronised anywhere, it forwards connection by connection the requests of the one-shot parse of that connection's bytes alone, but for failing sends; it has a client exactly while the latest connection is up and parses, and its buffer holds what that leaves |
| `GatewayRuns.TurnIsUplink` | gateway/main.cpp:46-79 | every turn of gateway is the accept, read or drop of the composed system's maintenance connections, with the same client and buffer, and forwards the requests accepted there, but for failing sends |
| `Gateways.PendingIsBounded` | gateway/main.cpp:52-61 | at most 1023 bytes wait after a drain and at most 2047 ever |
| `Locators.Locator.Resolve` | locator/main.cpp:44-56 | the digit loop, the lookup and the wrapping index arithmetic together give the specified index, 0 for unknown |
| `Locators.Locator.OnLockRequest` | locator/main.cpp:58-80 | the request goes unchanged, with its index filled in, where the three lemmas below say, or nowhere |
| `Locators.RegisteredGoesOn` | locator/main.cpp:67-77 | a request that spells a registered terminal goes to that terminal's own process, unless the lock or the send fails or that process is not running |
| `Locators.ZeroesComeBack` | locator/main.cpp:67-77 | one for "0000" comes back to locator while a row is free |
| `Locators.OthersGoNowhere` | locator/main.cpp:67-72 | a request that spells no terminal's number is dropped |
| `Locators.RoutingAgrees` | locator/main.cpp:44-56 | for every text but "0000", locator's index is the one termd owns for a slot if and only if the text is the decimal form of 1000+slot and that terminal is registered; nothing else resolves |
| `Locators.ResolvedText` | locator/main.cpp:44-56 | for every text but "0000", it resolves if and only if it is the numeral of a registered number above 1000 |
| `Locators.RoutingIsInjective` | locator/main.cpp:44-56 | no two texts lead to the same index, integer conversions included |
| `Locators.ZeroesResolveToLocator` | locator/main.cpp:53-55 | "0000" resolves to locator's own index exactly while the table has a free row |
| `Locators.HighSlotsAreUnreachable` | termd/main.cpp:116 | no text leads to a terminal in a slot above 8999 |
| `Locators.RegistrationKeepsOrigin` | termd/main.cpp:51 | registrations by termd, whole or killed part way, only ever put numbers above 1000 in the table |
| `Termds.Termd.OnInit` | termd/main.cpp:48-56 | registers 1000+slot and refuses to run exactly when that failed |
| `Termds.Termd.HandleFromTerminal` | termd/main.cpp:94-105 | a bad header drops the client and the buffer; anything else changes nothing |
| `Termds.Termd.Drain` | termd/main.cpp:86-91 | ends with the verdict and residue of the one-shot parse within the header bound, although the handler resets the buffer before consume |
| `Termds.Termd.OnIdle` | termd/main.cpp:64-92 | socket, buffer and table after one turn, for every outcome of accept, read, lock and drain |
| `Termds.Termd.OnLockRequest` | termd/main.cpp:118-167 | the client gets the request's wire bytes, and stays, if and only if the kernel takes them all, and otherwise what was taken before it refused; a response goes to gateway either way |
| `Termds.EveryCommandIsAnswered` | termd/main.cpp:149-166 | that response reports success with the command's number and sequence number, is one every receiver accepts, and is lost only if gateway is not running or the send fails |
| `Termds.SocketMeansConnected` | termd/main.cpp:64-105 | at every loop boundary of every run, with any lookups by other processes and any calls of theirs about other terminals, cut short or not, holding a socket implies that the row says CONNECTED |
| `Termds.RowTellsLastAccept` | termd/main.cpp:65-72 | at every loop boundary of every run, the row of a held socket says CONNECTED, able to lock, and the time of the last accept |
| `Termds.BufferIsTheClients` | termd/main.cpp:64-92 | at every loop boundary of every run, a held socket's buffer is what the one-shot parse of that connection's bytes alone leaves |
| `Termds.AgreesUnlessStale` | termd/main.cpp:64-105 | at every loop boundary of every run, socket and row agree in both directions if and only if no desynchronised stream or failed send has dropped the client since the last accept or recorded disconnect; before the first of those, if and only if no earlier termd left the row CONNECTED |
| `Termds.AgreementSurvivesIff` | termd/main.cpp:94-105 | from agreement in both directions, a step keeps it if and only if it does not drop the client through a desynchronised stream or a failed send |
| `Termds.StaleConnectedRow` | termd/main.cpp:99-102 | twenty zero bytes on a fresh connection leave a CONNECTED row without a socket |
| `Pipeline.RunKeepsAddressing` | locator/main.cpp:58-80 | in every run, each queue holds only messages its owner handles, and a termd's queue only requests spelling its own terminal's number |
| `Pipeline.NothingIsMisrouted` | common/process.cpp:46-54 | no process ever receives a code it has no handler for |
| `Pipeline.NothingIsLostOrDoubled` | gateway/main.cpp:98-114 | in every run and for any kind of request, parsed = waiting + dropped + handled; for each number and sequence, handled = responses waiting + lost + delivered |
| `Pipeline.AnswersNeverExceedRequests` | termd/main.cpp:149-166 | at every moment, responses with a given number and sequence never outnumber the requests parsed with them |
| `Deliveries.LocateOutcome` | locator/main.cpp:58-80 | a step of locator drops a request if and only if the lock or the send fails, or it names no registered terminal whose process is running and is no "0000" with a free row; otherwise it goes unchanged to the queue of the terminal it names |
| `Pipeline.ArriveOutcome` | gateway/main.cpp:108-114 | an accepted request is at locator's queue, or dropped if and only if locator is not running or the send fails |
| `Deliveries.ServeOutcome` | termd/main.cpp:118-167 | a command is handled whatever happens, handed to the socket if and only if a terminal is connected, and its report of success is lost if and only if gateway is not running or the send fails |
| `Deliveries.AnswersAreTruthful` | termd/main.cpp:156-160 | in every run, every acknowledgement gateway took, and every one waiting or lost, reports success for a handled request with its number and sequence number in a form every receiver accepts, and for each of those gateway takes no more than were handled |
| `Deliveries.CommandsCanArrive` | common/process.cpp:59-88 | from every reachable state, a request waiting anywhere in locator's queue for a registered terminal whose process is running can be brought by handler steps alone to that process and by it to the terminal |
| `Pipeline.RelayIsTransparent` | termd/main.cpp:139-144 | in every run, the 24 bytes termd hands to a socket are byte for byte a frame gateway accepted |
| `Pipeline.TerminalGetsItsOwnInOrder` | locator/main.cpp:44-77 | in every run, what is handed to and what is taken by terminal 1000+slot is, in order, a subsequence of the requests spelling that number, and its termd's queue holds no other's |
| `Pipeline.HandlersDrain` | common/process.cpp:59-88 | a handler step lowers 3 per message at locator + 2 per message at a termd + 1 per message at gateway, whichever sends fail, if and only if it is not locator taking a "0000" with a free row, its lock and its own queue at hand |
| `Pipeline.PipelineQuiesces` | common/process.cpp:59-88 | in every run without input, at most that many handler steps do anything but hand a "0000" back to locator |
| `Pipeline.QuiescesWithoutZeroes` | common/process.cpp:59-88 | so without "0000" on its way, at most that many handler steps are left in any run |
| `Pipeline.WaitingCanBeHandled` | common/process.cpp:59-88 | a message that waits can be handled, so rest means empty queues |
| `Pipeline.ZeroesGoRound` | locator/main.cpp:44-77 | with a free row, locator moves a "0000" from the front of its own queue to the end and touches no other queue |
| `Pipeline.ZeroesSpin` | locator/main.cpp:44-77 | from every reachable state with a free row and a "0000" anywhere in locator's queue, locator can take any number of steps and still have it |
| `EndToEnd.TerminalDecodesAcceptedFrames` | term_gui/comm_worker.cpp:69-114 | in every run of the pipeline and the link of terminal 1000+slot as one system, what the terminal has decoded over all its connections is, in order and byte for byte, a subsequence of the frames gateway accepted for its number |
| `EndToEnd.CommandsAreWellFormed` | termd/main.cpp:139-144 | every command waiting in the pipeline is a frame the link can carry and the terminal accepts |
| `Uplink.StepKeepsInv` | maint_gui/maint_worker.cpp:50-80 | whatever the screen writes, whole or short, and however gateway accepts and reads, each connection's accepted requests are those of the one-shot parse of what was read of it |
| `Uplink.LineIsFaithful` | gateway/main.cpp:46-79 | as long as nothing follows a short write, gateway accepts from a connection exactly the first so many commands written whole to it, and all of them once it has read everything |
| `Uplink.AcceptedWasWritten` | gateway/main.cpp:46-79 | so over all connections, what gateway accepted is, in order, a subsequence of the commands the screen wrote whole |
| `ShortWrites.NextAfterShortWrite` | maint_gui/maint_worker.cpp:71-79 | for each number of bytes a short write left and whatever two commands meet, what gateway does with the next whole command: the connection dropped, nothing accepted, or a mixed command accepted, and when its number can be no terminal's |
| `ShortWrites.ShortWriteCanMisdirect` | maint_gui/maint_worker.cpp:71-79 | with eight bytes left of any command, any command written when the low four bytes of the clock spell "1001" makes gateway accept a command for terminal 1001 |
| `CommandPath.TerminalDecodesWrittenCommands` | maint_gui/maint_worker.cpp:50-80 | in every run of the whole path in which nothing was written behind a short write, what the terminal has decoded over all its connections is, in order and byte for byte, a subsequence of the commands for its number that the screen wrote over all of its own |
| `CommandPath.LocatorUsesTheSharedTable` | locator/main.cpp:53-55 | in every run, the rows locator resolves with are the shared table as the history of all processes' calls left it, kills included |
| `CommandPath.TableIsFree` | common/shm_table.cpp:181-281 | every step a process can take on the shared table is possible in the whole path too, as a stutter or as the matching table action |

## Left out

- Qt widgets, threads, timers, signals and both GUI mains: only the receiver and sender policy of the two workers is modelled. `abort()` is taken to deliver `disconnected()` at once.
- System calls: the kernel's answers to accept, recv, send, msgrcv, msgsnd, semop and the clock are parameters or nondeterministic steps. TCP is assumed to be a reliable ordered byte stream (section 2.2 of RFC 9293); that a new semaphore set starts at 0 is the code's own assumption.
- `socket`, `bind`, `listen` and the port numbers, including the truncation of 9200+slot to 16 bits.
- Logging, `to_string`, `layout_dump`, `msggen`, `hold_lock` and the unit tests.
- `StreamProcess::run_stream` and the blocking `MsgQueue::recv`: nothing uses them.
- Removal of queues, segments and semaphores, the destructor and move operations of `MsgQueue`, stale queues after a crash, and a second process on the same index: the code does not handle them, so one live process per index is assumed.
- Delivery guarantees for downlink commands, the capability handshake, authentication, and code generation: documented plans without code.
- Fairness between queue and socket, and liveness of the pipeline beyond the bound on handler steps.
- TcpServers.TcpServer.Send: assumes that the kernel stops answering EINTR and EAGAIN from some call on, because the code itself would retry for ever.
- MessageQueues.RecvTimeout: assumes that signals stop interrupting the receive from some call on, as the code polls for ever under endless EINTR.
- Processes.Process.Run: assumes that a shutdown flag or a receive error comes by some turn, and takes a daemon's handlers as functions on its state; a message shorter than the internal header is not modelled.
- Wire: shifts and ors are written as arithmetic on the same values; a packed struct copied with memcpy is the list of its fields' bytes in the host's order.
- StreamBuffers.StreamBuffer.Next: hands out the bytes rather than a pointer into the buffer, so a use of the pointer after a reset is not modelled.
- MessageQueues: queues carry typed messages with their sizes rather than raw struct bytes, and a full queue that blocks msgsnd is not modelled.
- TerminalTable: the reserved bytes of a row are not modelled, as every write leaves them 0, and tearing inside one field is not modelled. Snapshot with a null output pointer is not modelled.
- TableProtocol: a failing unlock is not modelled; the shared memory steps of open() that precede the semaphore can only fail.
- Termds: slots so large that 3000+slot does not fit in 32 bits are not given their overflow; set_state is assumed to succeed in the statements about socket and row, and one termd runs per slot.
- Pipeline: processes do not exit, so queues are never removed; a process that is slow or stuck just takes no step.
- CommandPath: the way back of an acknowledgement ends, in the composed system, with gateway taking the response off its queue; `Gateways.Gateway.OnLockResponse` and `Workers.MaintWorker.OnReadyRead` describe the rest.
- CommandPath.TerminalDecodesWrittenCommands: does not cover connections on which a command was written behind a short write, because the promise fails there; `ShortWrites.NextAfterShortWrite` says how.
