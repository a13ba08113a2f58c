# Proofs about the ZCloud-WM firmware

A Dafny model of five independent parts of the firmware, and proofs of what they promise. `dafny verify dfyconfig.toml` checks all of it.

**Blocking sockets over lwIP.** Application threads post requests to the TCP/IP thread and sleep until `op_completed` is signalled; TCP callbacks finish the request later. `NetconnSpec` gives each handler and callback as a step, `NetconnSteps` what every step keeps, `NetconnRuns` whole runs with an application thread and its mailbox, `NetconnAnswers` and `NetconnEnds` what each answer says and which step gives it, and `NetconnHandlers` the handlers in place on connection and message objects. What the TCP stack answers (`tcp_write`, `tcp_close`, `tcp_connect`, send buffer and queue sizes) is a parameter. `Select` is the machine of interleaved critical sections of `select` and the event callback, `SelectResults` what `select` returns, `SelectProgress` how callbacks reach the threads they have to wake, `SelectList` the linked list in place, `RecvSpec` and `Recv` buffered reading with receive window credit, `Accept` the hand-over of a connection to a new socket.

**AES and CBC.** `AesField`, `AesTables` and `AesSpec` hold the algebra and the cipher of FIPS 197, `AesCore` and `AesKeys` the table-driven loops and the key schedules, `CbcSpec`, `AesCbc` and `AesApi` chaining, padding and the two entry points over caller buffers, and `AesVectors` the examples of FIPS 197.

**DNS resolver.** `DnsSpec`, `DnsRuns` and `Resolver` are the table of requests with its timer, `DnsEviction` which entry a new request takes, `DnsLifetimes` how long an entry stays, `DnsCalls` what the callbacks are told; `DnsNames` and `DnsReaders` write, walk over and compare encoded names, and `DnsMessages` reads responses.

**Flash.** `FlashSpec`, `StreamSpec`, `StreamExact` and `Flash`: NOR cells whose programming only clears bits, sector rewriting and the write-behind buffer; `Firmware` is the firmware update's use of it.

**Allocator, lists and CRCs.** `DlList`, `MemSpec` and `MemTracker`; `WordBits`, `Crc32`, `Crc32Words` and `Crc8`.

Where the code does less than one would expect, the model follows the code and says exactly when it does what is expected:

- Deleting a connection whose connect is in progress keeps every acknowledgement only if the connect does not block and its pcb closes at once (`DeleteExact`, `DeleteLosesExactly`, `LostAnswer`).
- `write_offset` survives a write that fails after TCP took part of it (`OffsetReset`, `StaleOffset`).
- Peeking credits the receive window, and reading what was left when TCP dropped the connection does not (`CreditExact`, `PeekCredits`, `ResetDropsCredit`).
- A name comparison ignores where labels and the name end (`AcceptedIsEqual`, `AcceptsAnother`, `StaleAccepted`), and the walk over a name stops early at long or empty labels and misses the end of the root name (`SkipExact`, `SkipStopsInside`, `SkipIsNameEnd`, `SkipMissesRoot`).
- A query for a name of 255 characters is one byte longer than its packet (`QueryFits`, `LongestOverruns`).
- After the 8-bit request counter wraps, an entry other than the oldest can be evicted (`EvictsOldestExactly`, `RunsEvictEarliest`, `EvictsAnother`), and a request refused although entries are completed (`RefusedExactly`, `RefusedAfterWrap`). An answer with time to live zero stays for 2^32 seconds (`KeptForItsTime`, `AnswerIsServed`).
- Writing several flash sectors from a misaligned start misplaces the last part, or copies it past the end of the sector cache (`FlatExactly`, `WrittenMisses`, `FitsExactly`, `CopyOverruns`), and a driver error during a write releases the lock twice (`Write`).
- A fast write counts the bytes it buffers apart from the offset the address gives. A stream that starts inside a sector with none buffered, or is begun again in the sector that still has bytes buffered, is out of step and can be misplaced (`AllKeptExactly`, `SingleKeptExactly`, `RetryMisplaced`, `MisalignedUnwritten`). A firmware update that breaks off leaves its buffer behind, and the next one ignores that the initialisation fails and writes on into it (`WriteImage`).
- Ending a fast write flushes even if nothing is buffered: a stream that ends on a sector boundary costs the sector after it, or at the end of a chip whose addresses wrap round the first one (`OthersKeptExactly`, `StrayFlush`, `StreamKeptExactly`). Fast writes report no driver errors (`FastWrite`).

## Model

| member | source | states |
|---|---|---|
| NetconnRuns.RunsAnswerOnce | Src/Network/lwip1.4.1/api/api_msg.c:277-404 | On every run of application thread, TCP/IP thread and TCP callbacks: a request is outstanding exactly in a write, a close or a blocking connect; the n-th request taken gets the n-th acknowledgement and no other; `op_completed` is signalled at most once ahead of its sleeper and for the request it waits for |
| NetconnRuns.RunsKeepBytes | Src/Network/lwip1.4.1/api/api_msg.c:1223-1348 | On every run the bytes given to TCP are the accepted prefixes of the requests one after the other; a write that returned ERR_OK reported how much of its data was accepted, all of it if it could block, and one that failed reported nothing |
| NetconnRuns.RunsFreeSafely | Src/Network/lwip1.4.1/api/api_lib.c:104-121 | When `netconn_delete` wakes up to free the connection, on any run, TCP holds no pcb of it and no message is outstanding |
| NetconnAnswers.AnswerTold | Src/Network/lwip1.4.1/api/api_msg.c:277-404 | On every run each answer is given by one step, and its error code is the one that step has to report: of the attempt to write, of `tcp_close`, of the connected callback, of the error callback, or of the state in which the request was taken |
| NetconnAnswers.ConnectSucceeded | Src/Network/lwip1.4.1/api/api_msg.c:951-988 | On every run a connect that returned ERR_OK was answered by the connected callback reporting ERR_OK |
| NetconnAnswers.CloseSucceeded | Src/Network/lwip1.4.1/api/api_msg.c:761-904 | A close or delete that returned ERR_OK was answered when `tcp_close` had succeeded, or, for a delete, when there was no pcb |
| NetconnAnswers.ErrorReturned | Src/Network/lwip1.4.1/api/api_msg.c:347-404 | A request ended by the error callback returns exactly the error it was given |
| NetconnAnswers.ErrorSticks | Src/Network/lwip1.4.1/api/api_msg.c:1078-1404 | After an error every write, listen and bind that is answered gets that error |
| NetconnAnswers.StepTellsSockets | Src/Network/lwip1.4.1/api/api_msg.c:277-404 | What each step tells the socket layer: an error exactly when the pcb goes, readers when it goes, reading is shut down or a delete is answered and at no other time, writers when it goes, writing is shut down or a connect ends |
| NetconnAnswers.WriteTellsRoom | Src/Network/lwip1.4.1/api/api_msg.c:1272-1300 | An attempt to write calls the connection unwritable exactly when it was made and left data of a write that may not block, or too little room to be called writable |
| NetconnEnds.StepEnds | Src/Network/lwip1.4.1/api/api_msg.c:277-404 | Which steps answer a request and which let it wait, for every request and callback, and the state, pcb, accept mailbox and last error each leaves |
| NetconnEnds.AttemptEnds | Src/Network/lwip1.4.1/api/api_msg.c:1256-1348 | An attempt to write passes on what is left, as far as 16 bits and the room in TCP go; the write waits exactly if it may block and there was no memory or not room for all of it |
| NetconnRuns.DeleteLosesExactly | Src/Network/lwip1.4.1/api/api_msg.c:846-882 | In every state of the runs in which a delete meets a connect in progress: it is answered if its pcb closes at once, and otherwise a following error leaves its caller asleep with no possible step |
| NetconnRuns.LostAnswer | Src/Network/lwip1.4.1/api/api_msg.c:846-882 | A run of connecting without blocking and deleting, whose delete is lost that way |
| NetconnRuns.StepKeeps | Src/Network/lwip1.4.1/api/tcpip.c:307-322 | Each step (post, take, wake, poll, sent, error, connected, mode change) keeps the invariant of the runs |
| NetconnRuns.RunKeeps | Src/Network/lwip1.4.1/api/tcpip.c:74-96 | The invariant holds at the end of every run from a fresh connection |
| NetconnSteps.HandleExact | Src/Network/lwip1.4.1/api/api_msg.c:846-1046 | Every request is either acknowledged at once, leaving the outstanding one alone, or becomes the outstanding one, with all invariants kept, if and only if it is not a delete during a connect that blocks or whose pcb does not close at once |
| NetconnSteps.DeleteExact | Src/Network/lwip1.4.1/api/api_msg.c:846-904 | For delete alone: exactly when it keeps both its own request and any outstanding one |
| NetconnSteps.DoWriteKeeps | Src/Network/lwip1.4.1/api/api_msg.c:1358-1404 | A write request keeps the invariants, whichever way it is answered |
| NetconnSteps.DoCloseKeeps | Src/Network/lwip1.4.1/api/api_msg.c:1467-1498 | A close or shutdown request keeps the invariants |
| NetconnSteps.DoConnectKeeps | Src/Network/lwip1.4.1/api/api_msg.c:998-1046 | A connect request keeps the invariants |
| NetconnSteps.DoListenKeeps | Src/Network/lwip1.4.1/api/api_msg.c:1078-1126 | A listen request keeps the invariants |
| NetconnSteps.WriteMoreKeeps | Src/Network/lwip1.4.1/api/api_msg.c:1223-1348 | One attempt to write extends the accepted bytes without gap or overlap and answers the outstanding write or leaves it outstanding |
| NetconnSteps.CloseInternalKeeps | Src/Network/lwip1.4.1/api/api_msg.c:761-836 | One attempt to close answers the outstanding close or leaves it outstanding |
| NetconnSteps.PolledKeeps | Src/Network/lwip1.4.1/api/api_msg.c:277-301 | The poll callback keeps the invariants and answers only the outstanding request |
| NetconnSteps.SentKeeps | Src/Network/lwip1.4.1/api/api_msg.c:313-336 | So does the sent callback |
| NetconnSteps.FailedKeeps | Src/Network/lwip1.4.1/api/api_msg.c:347-404 | The error callback answers whatever is outstanding, with the error it is given |
| NetconnSteps.ConnectedKeeps | Src/Network/lwip1.4.1/api/api_msg.c:951-988 | So does the connected callback for a blocking connect |
| NetconnSteps.WriteFinishes | Src/Network/lwip1.4.1/api/api_msg.c:1256-1328 | With memory and room at every attempt a write succeeds after at most as many attempts as bytes were left |
| NetconnSteps.OffsetReset | Src/Network/lwip1.4.1/api/api_msg.c:1302-1328 | `write_offset` is 0 after a write exactly when the write did not fail after TCP had taken some of its data |
| NetconnSteps.StaleOffset | Src/Network/lwip1.4.1/api/api_msg.c:1323-1328 | An input for which it is not |
| NetconnSteps.WriterIsTold | Src/Network/lwip1.4.1/api/api_msg.c:277-336 | A non-blocking write that leaves data behind is called unwritable to select; over any poll and sent callbacks after it, it is called writable again if and only if one of them finds room, at the first that does |
| NetconnHandlers.Netconn.DoWriteMore | Src/Network/lwip1.4.1/api/api_msg.c:1223-1348 | The handler on the connection and message objects does the step the lemmas are about; the sleeper finds the answer in its message when the semaphore is signalled |
| NetconnHandlers.Netconn.TryWrite | Src/Network/lwip1.4.1/api/api_msg.c:1256-1300 | Length offered to `tcp_write`, its outcome and the marks for select |
| NetconnHandlers.Netconn.SettleWrite | Src/Network/lwip1.4.1/api/api_msg.c:1302-1348 | What becomes of the write after `tcp_write` |
| NetconnHandlers.Netconn.DoWrite | Src/Network/lwip1.4.1/api/api_msg.c:1358-1404 | The write request on the objects |
| NetconnHandlers.Netconn.DoCloseInternal | Src/Network/lwip1.4.1/api/api_msg.c:761-836 | One attempt to close on the objects, events in their order |
| NetconnHandlers.Netconn.DoClose | Src/Network/lwip1.4.1/api/api_msg.c:1467-1498 | The close request on the objects |
| NetconnHandlers.Netconn.DoDelconn | Src/Network/lwip1.4.1/api/api_msg.c:846-904 | The delete request on the objects |
| NetconnHandlers.Netconn.DoConnect | Src/Network/lwip1.4.1/api/api_msg.c:998-1046 | The connect request on the objects |
| NetconnHandlers.Netconn.DoListen | Src/Network/lwip1.4.1/api/api_msg.c:1078-1126 | The listen request on the objects |
| NetconnHandlers.Netconn.DoBind | Src/Network/lwip1.4.1/api/api_msg.c:912-942 | The bind request on the objects |
| NetconnHandlers.Netconn.PollTcp | Src/Network/lwip1.4.1/api/api_msg.c:277-301 | The poll callback on the objects |
| NetconnHandlers.Netconn.SentTcp | Src/Network/lwip1.4.1/api/api_msg.c:313-336 | The sent callback on the objects |
| NetconnHandlers.Netconn.ErrTcp | Src/Network/lwip1.4.1/api/api_msg.c:347-404 | The error callback on the objects; the message outstanding gets that error |
| NetconnHandlers.Netconn.DoConnected | Src/Network/lwip1.4.1/api/api_msg.c:951-988 | The connected callback on the objects; the message outstanding gets its result |
| Select.NoLostWakeup | Src/Network/lwip1.4.1/api/sockets.c:1086-1160 | In every interleaving a thread sleeps in select on an unsignalled semaphore while a watched socket has an event only if a callback for that socket is at work that has yet to come by it in the list; every semaphore is signalled at most once |
| SelectResults.ResultsRight | Src/Network/lwip1.4.1/api/sockets.c:1038-1195 | On every run a select that has returned gives -1 for want of a semaphore, 0 and empty sets after a time-out, which only a thread with one has, and otherwise the number of watched sockets below its limit that are ready, once for each set, and exactly those in the sets, each socket as it was when the scan passed it, which after the wait is the last scan; without waiting it returns 0 only if it polls |
| SelectResults.LooksTaken | Src/Network/lwip1.4.1/api/sockets.c:976-1031 | Each socket counted is looked at by a scan of that thread, and once it has left its wait by the last one |
| SelectResults.ReadyIsAnswered | Src/Network/lwip1.4.1/api/sockets.c:1146-1195 | A thread that was woken or did not have to wait returns a positive number, with the socket in its set, if a watched socket is ready whenever its last scan looks |
| SelectResults.SignalsOnlyDue | Src/Network/lwip1.4.1/api/sockets.c:1271-1298 | A thread is signalled only by a callback of a socket in one of its sets that has that event |
| SelectResults.EventsNoted | Src/Network/lwip1.4.1/api/sockets.c:1249-1268 | On every run a socket's receive counter is the number of packets announced less those taken, as far as 16 bits go, its send flag what the last send event said, its error flag whether an error was raised |
| Select.ListAndCounters | Src/Network/lwip1.4.1/api/sockets.c:1086-1160 | In every interleaving the waiter list holds each thread between joining and leaving once and nobody else, and `select_waiting` of a socket is the number of threads that have counted themselves on it |
| Select.SignalsReachWaiters | Src/Network/lwip1.4.1/api/sockets.c:1271-1298 | A semaphore is signalled only while its owner is on the list and unsignalled |
| SelectProgress.ComingArrives | Src/Network/lwip1.4.1/api/sockets.c:1271-1309 | Such a callback signals the thread, or finds its event gone: whatever all other threads and callbacks do meanwhile, it takes fewer of its own sections than the length of the list for each time the list is changed and once more |
| SelectProgress.StepComes | Src/Network/lwip1.4.1/api/sockets.c:1271-1309 | Any step of anyone leaves it on its way, one element nearer after its own section, at most a whole list away after a change of the list |
| Select.NotifyKeeps | Src/Network/lwip1.4.1/api/sockets.c:1236-1298 | Noting an event and visiting the head keeps the invariant |
| Select.ContinueKeeps | Src/Network/lwip1.4.1/api/sockets.c:1299-1309 | Going on, or starting over when the list has changed, keeps the invariant |
| Select.EnlistKeeps | Src/Network/lwip1.4.1/api/sockets.c:1086-1099 | Joining the list, at its head, keeps the invariant |
| Select.DelistKeeps | Src/Network/lwip1.4.1/api/sockets.c:1146-1160 | Leaving the list keeps the invariant; a thread that timed out then returns 0, any other scans once more |
| Select.CountingStep | Src/Network/lwip1.4.1/api/sockets.c:1101-1145 | Raising and lowering `select_waiting` socket by socket keeps the invariant |
| Select.SecondScanStep | Src/Network/lwip1.4.1/api/sockets.c:1115-1131 | The scan after joining keeps the invariant: a socket found without event is one whose next event will be told |
| Select.ScanStep | Src/Network/lwip1.4.1/api/sockets.c:976-1031 | The other scans and the wake-up keep the invariant |
| Select.StepKeeps | Src/Network/lwip1.4.1/api/sockets.c:1038-1309 | Every step of every thread keeps the invariant |
| SelectList.Waiters.Enlist | Src/Network/lwip1.4.1/api/sockets.c:1086-1099 | Linking in place puts the entry on top of the list, forward and backward links agreeing |
| SelectList.Waiters.Delist | Src/Network/lwip1.4.1/api/sockets.c:1146-1160 | Unlinking in place removes that entry and nothing else |
| SelectList.Waiters.SignalDue | Src/Network/lwip1.4.1/api/sockets.c:1271-1309 | The callback's loop over the list in place, with any changes of the list between its sections and a restart after each, and events coming and going: everyone listed at the end who was due all the time has been signalled, and nobody twice or without having been due |
| RecvSpec.ReadsKeepStream | Src/Network/lwip1.4.1/api/sockets.c:526-688 | Over any sequence of reads of any sizes, peeks among them, the bytes returned followed by the saved remainder are the bytes fetched |
| RecvSpec.ResultExact | Src/Network/lwip1.4.1/api/sockets.c:526-576 | With room for data a call returns none exactly if nothing is left over and it would block or meets no packet; the result is then 0 if and only if it met the end of the stream or the connection reported itself closed, and -1 if and only if it would block or met another error; with data it is their number |
| RecvSpec.ReadsUntil | Src/Network/lwip1.4.1/api/sockets.c:526-681 | In every world a read takes whole packets until it has all it asked for, one ends with a push, the receive counter says that no more is there or none comes, and returns their bytes, as many as it asked for |
| RecvSpec.PeeksFirst | Src/Network/lwip1.4.1/api/sockets.c:606-640 | A peek returns the front of the first packet and of no other |
| RecvSpec.CreditExact | Src/Network/lwip1.4.1/api/sockets.c:683-686 | Window given back and credit dropped for want of a pcb add up to the bytes returned, peeked at and one per end of stream; if no peek returned data the window equals what was consumed if and only if no call after the loss of the pcb returned data, or fetched any where packets are credited as they are fetched, or met the end of the stream; with the pcb still there if and only if no peek returned data |
| RecvSpec.DroppedExactly | Src/Network/lwip1.4.1/api/api_msg.c:1188-1209 | Credit is dropped if and only if there was such a call |
| RecvSpec.ResetDropsCredit | Src/Network/lwip1.4.1/api/api_msg.c:1188-1209 | What was left over when the pcb went can still be read, and is never given back |
| RecvSpec.PeekCredits | Src/Network/lwip1.4.1/api/sockets.c:606-686 | Every peek that returns data credits bytes that stay to be read, while there is a pcb |
| RecvSpec.PeeksCounted | Src/Network/lwip1.4.1/api/sockets.c:526-688 | Calls that do not peek return nothing to peeks |
| RecvSpec.ReceiveKeeps | Src/Network/lwip1.4.1/api/sockets.c:526-681 | From any turn of the loop, the pcb going at any time: what is delivered, consumed or only peeked at, credited, dropped and reported |
| Recv.Socket.RecvFrom | Src/Network/lwip1.4.1/api/sockets.c:507-688 | The loop that fills the caller's buffer delivers those bytes, leaves the rest of the buffer alone and saves the remainder; without data it returns 0 at the end of the stream or on a closed connection, and -1 if it would block or on another error |
| Recv.Socket.DoRecv | Src/Network/lwip1.4.1/api/api_msg.c:1188-1209 | With a pcb the chunks passed to `tcp_recved` fit 16 bits and add up to the length; without one nothing is passed |
| Recv.Socket.NetconnRecved | Src/Network/lwip1.4.1/api/api_lib.c:518-537 | The window is given back only where the connection does not do so by itself |
| Recv.Socket.Fetch | Src/Network/lwip1.4.1/api/api_lib.c:343-425 | A fetched packet is kept and credited at most once; an end of stream credits one; neither without a pcb |
| Accept.EveryEventCounted | Src/Network/lwip1.4.1/api/sockets.c:1207-1245 | However callbacks and accept interleave: once handed over, the socket's counter is the number of events raised less those taken, over all callbacks that have returned, as far as 16 bits go; before, the negative socket number encodes it |
| Accept.CallbackCountsOnce | Src/Network/lwip1.4.1/api/sockets.c:1207-1245 | A callback that runs to its end from wherever it stands counts exactly once, and no other callback's count changes |
| Accept.StepKeeps | Src/Network/lwip1.4.1/api/sockets.c:193-221 | Every step of accepting threads and callbacks keeps the account |
| Accept.StepAccounts | Src/Network/lwip1.4.1/api/sockets.c:326-344 | In particular the hand-over moves the early count to the new socket |
| AesSpec.EqInvCipherUndoesCipher | App/Adapter/aes/aes_core.c:843-889 | Under a decryption schedule derived from any schedule the equivalent inverse cipher undoes the cipher (section 5.3.5 of FIPS 197) |
| AesSpec.EqInvCipherIsInvCipher | App/Adapter/aes/aes_core.c:1087-1272 | And it is the inverse cipher of section 5.3 on every block |
| AesSpec.RoundsUndone | App/Adapter/aes/aes_core.c:1182-1231 | Round by round, one step at a time |
| AesCore.DecryptUndoesEncrypt | App/Adapter/aes/aes_core.c:896-1272 | On blocks of bytes, for every key length |
| AesCore.Encrypt | App/Adapter/aes/aes_core.c:896-1081 | The table-driven loop, two rounds an iteration, leaves the cipher of its input block in the output, also in place and at any offset |
| AesCore.Decrypt | App/Adapter/aes/aes_core.c:1087-1272 | The same for the equivalent inverse cipher |
| AesCore.EncryptRounds | App/Adapter/aes/aes_core.c:991-1040 | The loop of double rounds computes the rounds of the cipher |
| AesCore.DecryptRounds | App/Adapter/aes/aes_core.c:1182-1231 | The same for decryption |
| AesCore.ColumnsOfRound | App/Adapter/aes/aes_core.c:993-1035 | Four table look-ups exclusive-ored are SubBytes, ShiftRows, MixColumns and AddRoundKey |
| AesCore.ColumnsOfEqInvRound | App/Adapter/aes/aes_core.c:1184-1226 | The same for the inverse steps |
| AesCore.TdOfTeIs | App/Adapter/aes/aes_core.c:865-887 | Td of Te4 of a byte unmixes a column |
| AesField.InvMixUndoesMix | App/Adapter/aes/aes_core.c:43-54 | The inverse column transform undoes the column transform, over GF(2^8) |
| AesField.InvMixLinear | App/Adapter/aes/aes_core.c:43-54 | It is additive |
| AesTables.SiUndoesS | App/Adapter/aes/aes_core.c:43-54 | The two byte substitutions are inverse |
| AesTables.SIsAffineOfInverse | App/Adapter/aes/aes_core.c:43-54 | The substitution is the affine map of the field inverse (section 5.1.1 of FIPS 197) |
| AesKeys.SetEncryptKey | App/Adapter/aes/aes_core.c:742-838 | For each key length the 4 * (rounds + 1) schedule words are those of section 5.2 of FIPS 197, and the error codes for null pointers and other lengths |
| AesKeys.SetDecryptKey | App/Adapter/aes/aes_core.c:843-889 | The schedule words become the decryption schedule of that key, the words after them untouched; the same error codes |
| AesKeys.Expand128 | App/Adapter/aes/aes_core.c:767-784 | The expansion loop for 128 bits |
| AesKeys.Expand192 | App/Adapter/aes/aes_core.c:787-806 | The expansion loop for 192 bits, left in the middle of its last turn |
| AesKeys.Expand256 | App/Adapter/aes/aes_core.c:809-836 | The expansion loop for 256 bits |
| AesKeys.InvertOrder | App/Adapter/aes/aes_core.c:857-863 | The round keys in reverse order, in place |
| AesKeys.UnmixInner | App/Adapter/aes/aes_core.c:864-887 | All but the first and the last unmixed, in place |
| AesVectors.KnownAnswer | App/Adapter/aes/aes_core.c:896-1081 | The cipher example of appendix B of FIPS 197, on bytes, under the schedule of its key |
| AesVectors.Expansion128 | App/Adapter/aes/aes_core.c:767-784 | All words of the key expansion of appendix A.1 |
| AesVectors.Expansion192 | App/Adapter/aes/aes_core.c:787-806 | The first twelve expanded words of appendix A.2 |
| AesVectors.Expansion256 | App/Adapter/aes/aes_core.c:809-836 | The first sixteen expanded words of appendix A.3 |
| AesVectors.RoundsAndWords | App/Adapter/aes/aes_core.c:742-766 | For every key length the rounds are six more than the words of the key |
| CbcSpec.SealedBlock | App/Adapter/aes/aes_cbc.c:77-106 | Block i of the ciphertext is the cipher of block i of the text plus, bit by bit, the ciphertext block before it or the initial vector (section 6.2 of SP 800-38A) |
| CbcSpec.OpenedBlock | App/Adapter/aes/aes_cbc.c:108-154 | Block i of the text is the deciphered block i plus the ciphertext block before it or the initial vector |
| CbcSpec.PadIs | App/Adapter/aes/aes_cbc.c:91-104 | The text is followed by 1 to 16 bytes that each hold their number, to whole blocks |
| AesApi.AesCbcRoundTrip | App/Adapter/aes/aes_cbc.c:157-193 | For every key, initial vector and plaintext, empty included: (len / 16 + 1) * 16 bytes come out, and decrypting them gives the bytes and the length back |
| CbcSpec.CbcRoundTrip | App/Adapter/aes/aes_cbc.c:78-154 | The same for any block cipher with an inverse |
| CbcSpec.OpenUndoesSeal | App/Adapter/aes/aes_cbc.c:78-116 | Chained decryption undoes chained encryption on whole blocks |
| AesApi.EncryptBuffer | App/Adapter/aes/aes_cbc.c:157-174 | The entry point writes exactly the padded CBC encryption under the FIPS 197 cipher of the user key |
| AesApi.DecryptBuffer | App/Adapter/aes/aes_cbc.c:176-193 | The entry point writes the CBC decryption, the same whether in place or not, reports the length from the last byte and in place leaves the last ciphertext block in the initial vector |
| AesApi.KeyDecipherUndoes | App/Adapter/aes/aes_cbc.c:166-189 | Under one user key the deciphering undoes the enciphering of every block |
| AesCbc.CbcEncrypt | App/Adapter/aes/aes_cbc.c:77-106 | The chaining loop with its padded last block, also in place |
| AesCbc.CbcOpenApart | App/Adapter/aes/aes_cbc.c:108-128 | The loop between two buffers, tails that are no whole block included |
| AesCbc.CbcOpenInPlace | App/Adapter/aes/aes_cbc.c:130-154 | The loop in one buffer, which carries the chain in the initial vector |
| DnsRuns.ReportedOnceInTime | Src/Network/lwip1.4.1/core/dns.c:636-712 | On every run each request accepted with a callback is reported at most once, is being asked for until then, and has been reported once S * (1 + M * (M - 1) / 2) ticks have passed; nothing else is reported |
| DnsCalls.CallsTold | Src/Network/lwip1.4.1/core/dns.c:636-842 | On every run each callback is made by one step for the entry asking for its request: with an address exactly if that is an answer, the address answered; without one if it is a failure response or the last time-out |
| DnsCalls.AnswerIsCalled | Src/Network/lwip1.4.1/core/dns.c:802-819 | The answer to a request with a callback makes that one call, and a look-up of the name from that entry on gives the address the callback got |
| DnsCalls.RequestIsAsked | Src/Network/lwip1.4.1/core/dns.c:860-914 | A request is refused, changing nothing, or exactly one entry that was not asking, the first unused one if there is any, begins to ask for it on the first server, under its name cut to 255 characters, its number and its callback, with 7 seconds left for that server |
| DnsEviction.RefusedExactly | Src/Network/lwip1.4.1/core/dns.c:867-896 | A request is refused exactly when no entry is unused, the first is not completed and every completed one has a number not below the counter |
| DnsEviction.RunsEvictEarliest | Src/Network/lwip1.4.1/core/dns.c:867-896 | On every run, with completed entries at most 256 requests old: a request that finds no unused entry takes the completed one of the earliest request if and only if all completed ones have numbers below the counter, or none has and the first entry is the earliest |
| DnsEviction.EvictsOldestExactly | Src/Network/lwip1.4.1/core/dns.c:867-896 | The same for any table, by the ages 8-bit numbers tell |
| DnsEviction.AgeCountsRequests | Src/Network/lwip1.4.1/core/dns.c:875-879 | That age never exceeds the number of requests accepted since, and equals it if and only if that is at most 256 |
| DnsEviction.EvictsAnother | Src/Network/lwip1.4.1/core/dns.c:867-896 | A run of 258 requests after which the third entry is taken although two earlier ones are completed |
| DnsEviction.RefusedAfterWrap | Src/Network/lwip1.4.1/core/dns.c:877-892 | A run of 256 requests after which a request is refused although three entries are completed |
| DnsLifetimes.KeptForItsTime | Src/Network/lwip1.4.1/core/dns.c:695-704 | Over any steps that do not evict it a completed entry stays unchanged but for the countdown until exactly its time to live has passed, and is free then; a time of zero lasts 2^32 seconds |
| DnsLifetimes.AnswerIsServed | Src/Network/lwip1.4.1/core/dns.c:802-819 | Over any steps after an answer that do not evict its entry, look-ups of the name succeed for exactly its time to live cut to a week, or 2^32 seconds if that is zero, with its address unless an earlier entry holds the name too |
| DnsLifetimes.AskedForItsTime | Src/Network/lwip1.4.1/core/dns.c:661-693 | Over any steps without a response for it an entry goes on being asked, for the same request, for exactly the seconds its retries on this and the remaining servers add up to |
| DnsLifetimes.TimesOut | Src/Network/lwip1.4.1/core/dns.c:665-683 | The last of those seconds frees the entry and reports the failure |
| DnsRuns.TickKeeps | Src/Network/lwip1.4.1/core/dns.c:718-725 | Checking all entries keeps the invariant |
| DnsRuns.ReceiveKeeps | Src/Network/lwip1.4.1/core/dns.c:754-842 | A response of any kind keeps the invariant, and calls the request back at most once, with the address of an answer and with none after a failure |
| DnsRuns.EnqueueKeeps | Src/Network/lwip1.4.1/core/dns.c:860-914 | A new request keeps the invariant |
| Resolver.Resolver.CheckEntry | Src/Network/lwip1.4.1/core/dns.c:636-712 | The check of one table entry in place |
| Resolver.Resolver.CheckEntries | Src/Network/lwip1.4.1/core/dns.c:718-725 | The loop over the table |
| Resolver.Resolver.ReceiveMessage | Src/Network/lwip1.4.1/core/dns.c:749-849 | A message in its buffer: size, entry, header, question and records are looked at in turn, and the entry completed, freed or left alone |
| Resolver.Resolver.Receive | Src/Network/lwip1.4.1/core/dns.c:761-842 | The effect of the verdict on the entry, and the call it makes |
| Resolver.StaleAccepted | Src/Network/lwip1.4.1/core/dns.c:493-518 | The comparison goes on behind the name: an entry filled for `a` after `abx` accepts a response to `a.x` |
| DnsMessages.QueryFits | Src/Network/lwip1.4.1/core/dns.c:576-605 | A query fits its packet if and only if the name has at most 254 characters |
| DnsMessages.LongestOverruns | Src/Network/lwip1.4.1/core/dns.c:576-605 | A name of 255, which is accepted, runs one byte past it |
| Resolver.ResponseSettles | Src/Network/lwip1.4.1/core/dns.c:761-842 | A response to the name an entry asks for, with any records and any owners of them, completes it with the first Internet address among them, or frees it if there is none |
| DnsMessages.ResponseIsRead | Src/Network/lwip1.4.1/core/dns.c:768-842 | The walk over header, question and any list of encoded records, owners in full or compressed, gives the first Internet address of the list |
| DnsMessages.Refused | Src/Network/lwip1.4.1/core/dns.c:761-795 | A message without the response bit, with an error code, with other than one question or with a name in it that is not accepted amounts to a failure; an answer is always that of an Internet address record of four bytes in the message |
| Resolver.OthersIgnored | Src/Network/lwip1.4.1/core/dns.c:749-775 | Only a message of 26 to 512 bytes whose identifier names an asking entry changes anything, and only that entry |
| DnsMessages.AnswersRead | Src/Network/lwip1.4.1/core/dns.c:797-829 | The loop over the records alone |
| DnsMessages.ReadMessage | Src/Network/lwip1.4.1/core/dns.c:768-842 | The walk in place computes that verdict |
| Resolver.Resolver.FindSlot | Src/Network/lwip1.4.1/core/dns.c:868-882 | The search for an unused or the oldest completed entry |
| Resolver.Resolver.Enqueue | Src/Network/lwip1.4.1/core/dns.c:860-914 | A request filled in and asked at once, or refused |
| Resolver.Resolver.Lookup | Src/Network/lwip1.4.1/core/dns.c:450-479 | The cached address: found if and only if a completed entry has the name |
| DnsReaders.EncodedNameRoundTrip | Src/Network/lwip1.4.1/core/dns.c:492-602 | For every name of labels of 1 to 63 bytes, wherever it is encoded: both readers take its length plus two bytes, the comparison accepts it, decoding gives it back |
| DnsNames.Encode | Src/Network/lwip1.4.1/core/dns.c:586-602 | The encoder writes the wire form, strlen + 2 bytes, and nothing else |
| DnsNames.EncodeLabel | Src/Network/lwip1.4.1/core/dns.c:592-600 | One label and its length byte |
| DnsNames.JoinLabels | Src/Network/lwip1.4.1/core/dns.c:586-602 | Splitting at dots undoes joining |
| DnsReaders.ParseName | Src/Network/lwip1.4.1/core/dns.c:528-548 | The walking loop ends where the specification of the walk says |
| DnsReaders.SkipExact | Src/Network/lwip1.4.1/core/dns.c:528-548 | The walk ends exactly after an encoded name if and only if all labels are shorter than 192 bytes and all after the first are not empty; otherwise inside it |
| DnsReaders.SkipStopsInside | Src/Network/lwip1.4.1/core/dns.c:528-548 | A host name with an empty label and one with a label of 192 bytes, in whose wire form the walk stops early |
| DnsReaders.SkipIsNameEnd | Src/Network/lwip1.4.1/core/dns.c:528-548 | On every name, compressed or not, the walk ends where the name does if and only if the name is not the root |
| DnsReaders.SkipFollowsDecode | Src/Network/lwip1.4.1/core/dns.c:528-548 | In particular it agrees with decoding exactly on uncompressed names of at least one label |
| DnsReaders.SkipMissesRoot | Src/Network/lwip1.4.1/core/dns.c:528-548 | The root name, a single zero byte, is walked past |
| DnsReaders.CompareName | Src/Network/lwip1.4.1/core/dns.c:493-518 | The comparing loop gives 0 exactly when the specification accepts |
| DnsReaders.CompareExact | Src/Network/lwip1.4.1/core/dns.c:493-518 | Against an encoded name the comparison looks at the label bytes and at nothing between or after them |
| DnsReaders.AcceptedIsEqual | Src/Network/lwip1.4.1/core/dns.c:493-518 | The two names are equal if and only if the response is accepted and they agree on where the dots and the end are |
| DnsReaders.AcceptsAnother | Src/Network/lwip1.4.1/core/dns.c:493-518 | `ab` is asked for, `a` is answered, and accepted |
| FlashSpec.FlatExactly | Src/Drivers/flash/wm_fls.c:202-223 | Every copy stays within the sector cache and the range is written as a flat array would be, for all data and old contents, if and only if it starts on a sector boundary or stays within one sector |
| FlashSpec.FitsExactly | Src/Drivers/flash/wm_fls.c:211-223 | The condition under which the copies stay within the cache, from the offset and length of each of them |
| FlashSpec.CopyOverruns | Src/Drivers/flash/wm_fls.c:215-216 | 8191 bytes from address 1 run one byte past the cache |
| FlashSpec.WrittenMisses | Src/Drivers/flash/wm_fls.c:215-216 | A range that stays within the cache but is not placed so leaves the first byte of its last sector at its old value |
| FlashSpec.WrittenAt | Src/Drivers/flash/wm_fls.c:202-241 | Byte by byte what any range that stays within the cache leaves on the chip |
| FlashSpec.WriteThenRead | Src/Drivers/flash/wm_fls.c:59-85 | Reading back a properly placed write gives the data |
| Flash.Rewritten | Src/Drivers/flash/wm_fls.c:225-239 | Erasing a NOR sector and programming its pages replaces it |
| Flash.Fls.Write | Src/Drivers/flash/wm_fls.c:164-245 | Read, change, erase, program over the clipped range, the error codes, what a driver error leaves alone, and the lock, which a driver error releases once too often |
| Flash.Fls.WriteSectors | Src/Drivers/flash/wm_fls.c:202-241 | The loop over the sectors |
| Flash.Fls.PageWrite | Src/Drivers/flash/wm_fls.c:116-149 | The clipped pages are programmed in order, none outside them |
| Flash.Fls.Read | Src/Drivers/flash/wm_fls.c:59-85 | The clipped range is read |
| Flash.Fls.FastWrite | Src/Drivers/flash/wm_fls.c:297-345 | For any buffer state, address and length: what the call makes of chip, cache, sector and count of buffered bytes; with a failing driver the same but for the chip, of which it touches no sector but those it flushes, and no error is reported |
| Flash.Fls.AppendPart | Src/Drivers/flash/wm_fls.c:329-336 | One turn of its loop |
| Flash.Fls.FastWriteDestroy | Src/Drivers/flash/wm_fls.c:287-295 | The buffer is flushed in any state, and nothing stays buffered |
| Firmware.WriteImage | Src/Drivers/flash/wm_fls.c:265-345 | A whole session, begun whether or not the last one was ended: what it leaves on the chip; the range holds the image if it is in step with the buffer found and does not end a chip that wraps round with its first sector |
| Firmware.WriteChunks | Src/Drivers/flash/wm_fls.c:297-345 | Chunks of any sizes one after the other, until one starts beyond the chip |
| StreamExact.AllKeptExactly | Src/Drivers/flash/wm_fls.c:297-345 | From any count, sector and address: however a stream is cut and whatever it, chip and cache hold, its range holds it at the end if and only if it is in step with the buffer or starts in the last sector |
| StreamExact.OutOfStepFails | Src/Drivers/flash/wm_fls.c:317-338 | Otherwise chunks for which it does not, of which the first may flush too early and the next then too late |
| StreamExact.SingleKeptExactly | Src/Drivers/flash/wm_fls.c:297-345 | One call from an empty buffer is kept, whatever data, chip and cache, if and only if it starts on a sector boundary, stays within a sector or has exactly the length of one, and does not fill a chip that wraps round |
| StreamExact.RetryMisplaced | Src/Drivers/flash/wm_fls.c:317-338 | 3000 bytes given up and the stream written again in chunks of 1500: byte 0 holds a byte of the third chunk, the second sector is not written |
| StreamExact.MisalignedUnwritten | Src/Drivers/flash/wm_fls.c:317-338 | 4000 bytes at 100 in one call: byte 4096 is not written |
| StreamSpec.CallsKeep | Src/Drivers/flash/wm_fls.c:297-345 | A stream in step: whole sectors are on the chip and the rest in the cache, sector and count being the cursor divided by the sector size and the remainder |
| StreamSpec.CallsEnd | Src/Drivers/flash/wm_fls.c:287-345 | Its end: the stream over the chip it began on, then the cache to the end of the sector, or what erasing beyond the chip does |
| StreamSpec.LeftBehind | Src/Drivers/flash/wm_fls.c:318-321 | What a jump to another sector leaves of a stream |
| StreamSpec.StreamKeptExactly | Src/Drivers/flash/wm_fls.c:287-295 | A stream survives the end of its session, whatever chip and cache held, if and only if it does not fill such a chip |
| StreamSpec.OthersKeptExactly | Src/Drivers/flash/wm_fls.c:252-263 | The sectors it did not write keep their bytes if and only if it stops inside a sector, or at the end of a chip that has no others or does not wrap round |
| StreamSpec.StrayFlush | Src/Drivers/flash/wm_fls.c:287-295 | Otherwise the sector that follows is overwritten with the stale cache, or the first one erased |
| Flash.Fls.FlushSector | Src/Drivers/flash/wm_fls.c:252-263 | A flush replaces one sector with the cache, leaves the others alone also when the driver fails, and beyond the chip programs nothing |
| Flash.Fls.FastWriteInit | Src/Drivers/flash/wm_fls.c:265-285 | A cache is made unless there is one, and nothing else is touched |
| MemSpec.RunKeeps | Src/Common/mem/wm_mem.c:60-221 | After any sequence of allocations and frees, unknown and repeated ones included, the used and free lists divide the block array, the counters are the length and the tracked bytes of the used list, and the recorded maximum bounds them |
| MemSpec.NothingLost | Src/Common/mem/wm_mem.c:60-221 | On every run each buffer the underlying allocator handed out is in use under a block of its own, or has been given back to it once |
| MemSpec.MaxReached | Src/Common/mem/wm_mem.c:113-119 | The recorded maximum is the greatest number of bytes in use at any time of the run |
| MemSpec.AllocAnswers | Src/Common/mem/wm_mem.c:94-131 | With memory and a free block the answer is the address behind the front pattern and the oldest free block records it; with memory alone that is given back and the answer is null |
| MemSpec.FreeUndoesAlloc | Src/Common/mem/wm_mem.c:60-168 | Freeing what was just allocated restores the used list and both counters |
| MemSpec.FreeTwice | Src/Common/mem/wm_mem.c:187-221 | A free changes nothing if and only if no used block has that address, so a second one never does |
| MemSpec.AllocKeeps | Src/Common/mem/wm_mem.c:94-131 | Allocation keeps the invariant |
| MemSpec.FreeKeeps | Src/Common/mem/wm_mem.c:190-205 | A free keeps the invariant |
| MemTracker.MemTracker.Alloc | Src/Common/mem/wm_mem.c:60-168 | The allocation over the linked lists, first-use initialisation included |
| MemTracker.MemTracker.Free | Src/Common/mem/wm_mem.c:179-221 | The free over the linked lists |
| MemTracker.MemTracker.FindUsed | Src/Common/mem/wm_mem.c:191-197 | The search through the used list |
| MemTracker.MemTracker.Initialize | Src/Common/mem/wm_mem.c:70-86 | Both lists are set up, all blocks free in order |
| DlList.Init | Include/list.h:28-32 | A single head is a ring |
| DlList.Add | Include/list.h:34-40 | Insertion after any element of a well-formed ring gives the ring with the item there |
| DlList.AddTail | Include/list.h:42-45 | Insertion before the head appends |
| DlList.Del | Include/list.h:47-53 | Unlinking any item gives the ring without it |
| DlList.Empty | Include/list.h:55-58 | Empty exactly when the head is alone |
| DlList.Len | Include/list.h:60-67 | The counting loop counts the items |
| Crc32.StepIsSerial | Src/Common/utils/utils.c:103-170 | One step of the 32 exclusive-or equations is eight shifts of the serial register, held the other way round |
| Crc32Words.GetCrc32 | Src/Common/utils/utils.c:172-189 | The loop over 32-bit words and bytes, final reversal and complement included, gives the CRC-32 of section 8 of RFC 1952, 0 for the empty message |
| Crc32Words.CalCrc32 | Src/Common/utils/utils.c:103-170 | One step on words: bits unpacked, the equations, bits packed |
| Crc32Words.RegisterBits | Src/Common/utils/utils.c:172-189 | The register on words is, bit for bit, the register on bits |
| Crc32Words.Residue | Src/Common/utils/utils.c:172-189 | Whatever the message, the register fed with it and its CRC, low byte first, ends at 0xdebb20e3 |
| Crc32Words.CrcOfNothing | Src/Common/utils/utils.c:172-189 | The CRC of the empty message is 0 |
| Crc32Words.CheckValue | Src/Common/utils/utils.c:172-189 | The CRC of the digits from 1 to 9 is 0xcbf43926 |
| Crc32.FoldedIsRegister | Src/Common/utils/utils.c:172-189 | Over whole messages the parallel register is the serial one reversed |
| Crc32.TermsRight | Src/Common/utils/utils.c:126-161 | Each equation, bits that come back twice added, is its bit after eight shifts |
| Crc8.TableIsShifts | Src/Common/utils/utils.c:23-56 | A table entry is eight shifts with the reflected generator 0xE0 |
| Crc8.CrcIsSerial | Src/Common/utils/utils.c:91-101 | The table CRC is the serial CRC of every message |
| Crc8.CheckValue | Src/Common/utils/utils.c:77-101 | The CRC of the digits from 1 to 9 is 0x20 |
| Crc8.CrcInPieces | Src/Common/utils/utils.c:91-101 | Computed in pieces it is what it is computed at once |
| Crc8.OneByteDetected | Src/Common/utils/utils.c:77-101 | Two messages that differ in one byte share a CRC only if they do not differ |
| Crc8.ChecksExactly | Src/Common/utils/utils.c:62-75 | Data with one more byte checks out if and only if that byte is the CRC of the data |
| Crc8.ChkCrc8 | Src/Common/utils/utils.c:62-75 | The checking loop returns 0 exactly then |
| Crc8.GetCrc8 | Src/Common/utils/utils.c:77-89 | The computing loop gives the serial CRC |
| Crc8.CalculateCrc8 | Src/Common/utils/utils.c:91-101 | The same from a given start |

## Left out

- Concurrency is modelled by machines whose steps are the protected sections (`NetconnRuns`, `Select`, `Accept`), on values: the handlers and the waiter list also exist on objects, the interleaved `select` and accept only on values, the event callback in place over the list alone.
- NetconnRuns.RunsAnswerOnce: one application thread per connection, core locking and send timeouts off, and `tcp_close` succeeding at once on a pcb still connecting; `DeleteLosesExactly` shows what happens otherwise.
- NetconnHandlers.Netconn.DoDelconn: the error code of a delete without pcb, which the code does not set and nobody reads, is 0.
- Assertions of lwIP are compiled out in this configuration and so are not steps; what they claim is proved or shown false where it matters.
- Connections other than TCP, raw and UDP sending, address queries, multicast, `recv_tcp`, `accept_function` and draining of mailboxes: the contents of receive and accept mailboxes are not tracked across modules.
- Select.NoLostWakeup: watched sockets stay open, and the list counter does not wrap.
- Accept.EveryEventCounted: sockets are not closed, so no slot is reused, and the early count fits an integer.
- Recv.Socket.RecvFrom: TCP sockets only; the peer address is not filled in; packets are not empty.
- Socket options, `ioctl`, statistics, error texts and the other wrappers around these calls.
- AesTables: the words of Te0 to Te3 and Td0 to Td3 are defined by the identities the source gives for them, from the literal byte substitutions of Te4 and Td4.
- AesApi.EncryptBuffer: other key lengths, for which the code ignores the error and uses an uninitialised schedule, are excluded.
- AesApi.DecryptBuffer: an empty ciphertext, for which the code reads the byte before the buffer, is excluded, and so are other key lengths.
- AesCbc.CbcOpenApart: length 0 is excluded for the same reason.
- AesCbc.CbcOpenInPlace: length 0 is excluded for the same reason.
- The unrolled and assembler variants of AES.
- Resolver.Resolver.ReceiveMessage: messages whose walk leaves the payload buffer, or whose name agrees with all 256 bytes of an entry's name array, are excluded, and callbacks do not call the resolver.
- Resolver.Resolver.Enqueue: sending the query, the local host list and `dns_gethostbyname` around the table are not modelled.
- DnsReaders.ParseName: walks that leave the buffer are excluded.
- DnsReaders.CompareName: comparisons that leave a buffer are excluded.
- DnsEviction.RunsEvictEarliest: completed entries more than 256 requests old, whose order 8-bit numbers cannot tell; `EvictsOldestExactly` covers them by their numbers.
- Flash.Fls.Write: address plus length fits 32 bits, and the copies stay within the sector cache (`FitsExactly`), for nothing is known of what lies behind it.
- Flash.Fls.WriteSectors: the same.
- Flash.Fls.FastWrite: calls without a cache, which the code would copy to a null pointer, are excluded.
- Firmware.WriteImage: the image is not received over the network or checked (`Src/Common/fwup/wm_fwup.c`), and a session for whose cache there is no memory is excluded for the same reason.
- StreamExact.AllKeptExactly: for a chip whose addresses do not wrap round; on one that does, `InStepKept` excludes the streams in step that wrapping can lose.
- Flash erase and chip erase entry points, driver registration and probing.
- MemTracker.MemTracker.Free: before the first allocation the lists and the semaphore do not exist yet, so such a free is excluded.
- MemSpec.RunKeeps: the underlying allocator never hands out memory that is in use, and byte counts are unbounded.
- Pattern checking on free, reallocation and the listing of blocks.
- The other conversions of `utils.c`, the drivers, the boot code and the application tasks.
