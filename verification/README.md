# Verification of the OTA firmware transfer

This Dafny project models the over-the-air firmware transfer of the repository and proves what it is for: that a
coordinator which believes a page complete is right about remote flash, and that a node boots the right bytes.
`dafny verify dfyconfig.toml` checks everything.

## What is modelled

* **Checksums.** `Checksum16` (the page and image code of sender, coordinator and nodes) and `Checksum32` (the boot
  record, the code of section 8 of RFC 1952), each as the loop of the source, as a fold, and as a bit-serial register.
* **Node.** `TargetFlash` is NOR flash with 8192-byte sectors: an erase sets ones, programming clears bits, a failed
  erase leaves anything and a failed programming anything between the old and the intended value. `Sensor` is the
  receive machine on top of it (START, DATA, PAGE_END, VERIFY). Both are classes over arrays whose methods are proved
  equal to specification functions; `PageBitmap` ties the eight bitmap bytes to the set of chunks they stand for.
  `SensorRuns`, `PageTruth`, `PageDone`, `Delivery`, `Programming`, `IssuedWrites`, `EraseOrder`, `FailedErase`,
  `FailedVerify` and `NodeSession` prove properties of whole packet sequences.
* **Coordinator.** `Coordinator` is the step machine: admission, UART page assembly, and the distribution process with a
  program counter for its yield points. `CoordinatorMachine` is the same machine with the arrays, counters and loops of
  the firmware, every handler proved equal to its specification function. `Admission`, `StableFilter`, `Recovery`,
  `Rounds`, `Passes`, `Pages`, `StaleBytes` and `Assembly` prove properties over all input sequences, `UartAnswers` says
  what each command is answered, and `OneChunkRuns` gives runs. `UartSender` is the slicing of the sender script.
* **The whole session.** `EndToEnd` puts one coordinator, any number of nodes and a network together. Packets and reports
  once sent stay deliverable for ever, to any node, any number of times, in any order, or never. `SessionInvariant`,
  `SessionSteps` and `Monotone` build the invariant; `EndToEndSafety`, `ImageRuns`, `SenderRuns` and
  `VerifyCommand` draw the conclusions; `CompleteRun` is a run that completes.
* **Boot.** `Metadata` is the boot record with its transitions, `Boot` the boot check, confirmation and staging, and
  `BootRuns`, `BootLoops` and `BootUpdates` prove properties over runs of boots and updates.

A bitmap is a `set` of chunk numbers in specification functions and bytes in the classes. UART commands, routes, reset
sources, hardware outcomes and wake-ups of the process are inputs of the model. Integer widths are explicit: 32-bit
offsets and counters and the 16-bit byte counter wrap where the source's do.

## Where the source does not do what it suggests

* README.md:86-87 of the repository says that only missing chunks are retransmitted. A failed page check clears the whole
  bitmap, so the report names a node's held chunks as missing too (`PageDone.MissingChunksReportedIff`, with a run in
  `Delivery.HeldChunkNotReported`) and the next pass repeats the page (`Passes.EmptyReportResendsPage`).
* One chunk that is buffered twice, as the sender makes it happen after a lost acknowledgement, spoils the page: a page of
  whole chunks goes out with its last 32 bytes stale, any other never starts (`UartSender.RepeatedCommandIff`).
* A failed erase has already moved the page cursor, and a later page of the sector then wipes the committed one:
  `FailedErase.NeverAskedAgain`, `FailedErase.CommittedPageWiped`; exactly when: `EraseOrder.EraseDisciplineIff`.
* After a failed VERIFY a page can be counted twice into the image checksum: `FailedVerify.PageCountedTwice`, and exactly
  when it is not: `FailedVerify.OrderAfterFailedVerifyIff`.
* START during a distribution makes the process skip the first page of the new file (`Pages.FirstPageAfterStart`, with a
  run in `OneChunkRuns.PageZeroSkipped`), after sending the old page's bytes in its place (`StaleBytes.OldBytesToNewTarget`).
* START and bitmap reports share one reply flag, so a node that accepts can be dropped: `Admission.AcceptanceLostIff`, with
  a run in `Admission.AcceptanceLost`.
* FW:PAGE_OK alone does not mean success: `Pages.PageOkMeans`, with a run in `OneChunkRuns.PageOkWithoutPage`.
* If nobody ever answers, the page loop never ends: `Recovery.SilenceLoops`.
* A staged image whose first boot is a power-on, a pin reset or a wake-up is not counted, and the stability window then
  does not confirm it: `BootLoops.UpdateConfirmedIff`.
* If metadata writes fail, the crash loop is not bounded: `BootLoops.UnrecordedLoop`.
* If marking the crashed image fails, the slot runs again: `BootLoops.UnmarkedSlotRunsAgain`. The 32-bit attempt counter
  can wrap out of safe mode: `BootLoops.SafeModeHoldsIff`.
* A page that ends within the last 64 bytes below the 32-bit limit sends its last chunk too long: `Passes.FirstPassTilesIff`.

## Model

| member | source | states |
|---|---|---|
| EndToEndSafety.CompletePagesAreInFlash | ota-coordinator.c:90-211 | in every reachable world, for every page that left the loop as complete, every node still in the session has committed it and holds exactly the distributed bytes, under any loss, duplication, delay, reordering and programming failure |
| EndToEndSafety.CompleteTransferVerifies | ota-sensor.c:526-558 | if every page left as complete, every remaining node holds the whole distributed image and VERIFY with its checksum takes the match branch |
| CompleteRun.TransferCanComplete | ota-coordinator.c:33-269 | a run of coordinator, node and network that reaches a complete transfer of a one-byte file |
| EndToEndSafety.CommittedAllMatches | ota-sensor.c:492-515 | a node that committed all pages matches on VERIFY whatever its flash holds, even after a checksum collision on a page |
| EndToEndSafety.ImageCrc | ota-sensor.c:505-511 | page-wise equal checksums of ordered, complete commits give the checksum of the distributed image |
| EndToEndSafety.CommitsAreThePages | ota-sensor.c:506-508 | increasing commits that include every page are exactly the pages, the k-th being page k |
| EndToEndSafety.InvKept | ota-coordinator.c:33-269 | every action of coordinator, network and nodes keeps the invariant of the session |
| EndToEnd.StartBegins | ota-coordinator.c:321-341 | the worlds a START command leads to are those in which a session begins |
| ImageRuns.SentIsImage | ota-coordinator.c:346-380 | if the UART side feeds disjoint pieces of an image, the bytes distributed at any time are a prefix of that image |
| ImageRuns.ImageDelivered | ota-coordinator.c:346-380 | such a transfer, once complete, leaves exactly that image in every remaining node's slot, and its checksum verifies there |
| SenderRuns.SenderIsOrderly | uart_sender.py:178-196 | the sender's commands, none of them buffered twice for its page, are disjoint pieces of the image in every run |
| SenderRuns.SenderDelivers | uart_sender.py:178-210 | hence a completed transfer of the commands the sender's loops produce leaves the sender's file in every remaining node's slot, where the sender's checksum verifies |
| VerifyCommand.VerifyCommandMatchesIff | ota-coordinator.c:396-406 | after a complete transfer the V command sends one packet and is acknowledged; whenever that packet arrives at a node of the session it matches iff the command's checksum is that of the image |
| VerifyCommand.SenderVerifies | uart_sender.py:205-210 | hence the sender's V command with the checksum of its file is matched by every node of the session |
| Sensor.Machine.Start | ota-sensor.c:334-365 | the handler over its static state does exactly what HandleStart says, for every parameter and hardware outcome |
| Sensor.Machine.BackendStart | sensor-node-dual-onchip.c:168-218 | the checks in their order, the erase of sector 0, and the status that results |
| Sensor.Machine.Data | ota-sensor.c:367-450 | cursor, bitmap, memo and flash after DATA are those of HandleData |
| Sensor.Machine.PageEnd | ota-sensor.c:452-524 | state and report after PAGE_END are those of HandlePageEnd, which speaks of one whole-page checksum |
| Sensor.Machine.ReadPage | ota-sensor.c:488-503 | the 64-byte read loop computes the checksums of the whole page at once, or fails exactly if the page does not lie in the slot |
| Sensor.Machine.Verify | ota-sensor.c:526-558 | state, report and verdict are those of HandleVerify |
| Sensor.Machine.ResetRxState | ota-sensor.c:324-332 | the receive state is reset and nothing else changes |
| NodeSession.StartAcceptedIff | sensor-node-dual-onchip.c:175-218 | a START is accepted, and a session opened, iff it names a slot other than the running one, its version is unknown or newer than the running one, the file fits and the erase succeeds |
| NodeSession.RefusalStatus | sensor-node-dual-onchip.c:175-215 | exactly which refusal answers which status, in the order of the checks |
| NodeSession.StartErases | sensor-node-dual-onchip.c:209-217 | a START that fails an earlier check leaves flash as it was, any other touches the first sector of the target alone |
| NodeSession.OldVersionsChangeNothing | sensor-node-dual-onchip.c:181-188 | over any run, a node without a session keeps its flash while no START carries an unknown or newer version |
| NodeSession.SessionOfLastStart | ota-sensor.c:345-366 | over any run, an open session has the size, version and target of the last START, which passed every check; nothing else opens or changes one |
| NodeSession.ForeignIgnored | ota-sensor.c:383-388 | DATA, PAGE_END and VERIFY without a session or for another target change nothing and are not answered |
| NodeSession.VerifyOutcome | ota-sensor.c:537-557 | VERIFY ends the session and rewrites the metadata iff its checksum is the running one |
| NodeSession.MatchEndsSession | ota-sensor.c:552-552 | after a match whatever arrives, repeated VERIFY included, changes nothing until the next START |
| NodeSession.BitSetIff | ota-sensor.c:430-448 | a DATA packet of any shape sets a bit iff it carries 1 to 64 bytes at a multiple of 4 inside the slot and their programming succeeds |
| NodeSession.HeldChunkIgnored | ota-sensor.c:430-436 | DATA for a held chunk changes nothing |
| SensorRuns.StartIsFresh | ota-sensor.c:334-365 | the session is active exactly after an accepted START, which leaves a fresh state whose first sector is blank |
| SensorRuns.StepConfined | sensor-node-dual-onchip.c:168-218 | any packet with any fields keeps "active implies target is the other slot and the file fits", and touches only that slot and, on a match, the metadata |
| SensorRuns.RunConfined | ota-flash.c:148-202 | over any run of packets the running slot and the boot manager are never changed, and the metadata sector only when an image is staged |
| SensorRuns.RunningCrcIsCommittedPages | ota-sensor.c:505-511 | from START to the first VERIFY the running checksum is that of the committed pages as they stood in flash, each once, in increasing order |
| FailedVerify.OrderAfterFailedVerifyIff | ota-sensor.c:505-557 | after a mismatching VERIFY and any further DATA and PAGE_END the running checksum is still that of all commits, which are increasing and without repetition iff the first commit after the VERIFY lies above the last before it |
| FailedVerify.PageCountedTwice | ota-sensor.c:542-557 | a run from START in which page 0 is counted twice |
| SensorRuns.BurstNeverCommitted | ota-sensor.c:505-521 | a page whose flash bytes differ from the sent page only within 16 consecutive bits is not committed and is reported as missing |
| EraseOrder.EraseDisciplineIff | ota-sensor.c:390-428 | from START to the first VERIFY, with any hardware outcomes, no sector is erased after work on it, nor twice, iff no admitted DATA starts the second page of a sector that the memo does not name |
| EraseOrder.EraseDiscipline | ota-flash.c:160-180 | in particular if every erase that is attempted succeeds; the memo then names the sector of the cursor |
| SensorRuns.ErasesCurrentSectorIff | ota-flash.c:160-180 | a DATA packet erases the sector of the current page exactly if it starts the second page of the sector and the memo does not name the sector |
| FailedErase.NeverAskedAgain | ota-sensor.c:394-422 | after a failed erase no later DATA of the page asks for it again, whatever DATA and PAGE_END come in between |
| FailedErase.CommittedPageWiped | ota-sensor.c:390-428 | a run from START with one failed erase in which a page is committed, then erased by the first DATA of the next page: the erase discipline is broken and the committed bytes are gone |
| PageTruth.DataTruth | ota-sensor.c:367-450 | coordinator-shaped DATA keeps: set bits are chunks equal to the image, and every byte of the page still covers the image byte, with failing programs |
| PageTruth.ProgramCovers | ota-flash.c:182-202 | programming, successful or not, keeps a covering byte covering and never spoils a byte that is already right |
| PageDone.FullBitmapMatches | ota-sensor.c:492-521 | the page check cannot fail on a full bitmap |
| PageDone.FullReportMeansDone | ota-sensor.c:504-523 | a full bitmap is reported only for a page that is committed and equal to what was sent |
| PageDone.MissingChunksReportedIff | ota-sensor.c:516-521 | a report names exactly the held chunks iff the check passed or none were held; otherwise it names none |
| Delivery.HeldChunkNotReported | ota-sensor.c:516-523 | a run in which a node that holds one of two chunks reports none |
| PageDone.PeerStep | ota-sensor.c:560-607 | every packet of the session keeps the node's invariant, and a page that is done stays done |
| Delivery.DeliveredChunks | ota-sensor.c:367-524 | after any DATA and PAGE_END of a newly begun page, with repetitions and failing programs, the bitmap is exactly the set of chunks programmed successfully since the last failed check |
| Delivery.CompleteIffDelivered | ota-sensor.c:367-524 | a page a node newly begins is reported complete iff each of its chunks was delivered and programmed since the last failed check, and is then committed |
| Programming.ContentsDependOnSetOfWrites | ota-flash.c:182-202 | two sequences of the same write requests, in any order and multiplicity and with any failures, leave the same flash |
| IssuedWrites.FlashIsIssuedWrites | ota-sensor.c:430-521 | while nothing is erased, a node's flash is what its issued writes make of it, whatever became of the bitmap |
| IssuedWrites.ContentsDependOnIssuedWrites | ota-sensor.c:430-521 | two runs of DATA and PAGE_END that issue the same writes, in whatever order and however often, leave the same flash |
| Programming.BitStandsIff | ota-flash.c:44-57 | a bit stands after writes exactly if it stood before and every write spared it |
| TargetFlash.Driver.EraseTargetSector | ota-flash.c:160-180 | flash, memo and result are those of EraseTarget |
| TargetFlash.Driver.Write | ota-flash.c:182-202 | flash and result are those of WriteTarget, padding included |
| TargetFlash.Driver.Read | ota-flash.c:204-212 | the bytes of the range exactly if it lies in the slot |
| PageBitmap.SetChunk | ota-sensor.c:437-440 | setting a bit of the eight bytes adds exactly that chunk to the set |
| PageBitmap.ClearChunk | ota-sensor.c:444-447 | clearing a bit removes exactly that chunk |
| Checksum16.Crc16Data | uart_sender.py:32-35 | the loop computes the fold and the bit-serial checksum |
| Checksum16.Crc16AddIsEightShifts | uart_sender.py:23-30 | the table-free byte step equals eight least-significant-bit-first shifts with 0x8408 for every byte and accumulator |
| Checksum16.Crc16IsBitSerial | uart_sender.py:32-35 | hence the checksum of any byte string is the bit-serial one |
| Checksum16.Crc16Concat | ota-sensor.c:500-501 | the checksum can be continued piece by piece |
| Checksum16.Crc16Linear | uart_sender.py:23-35 | the checksum is linear in accumulator and data together |
| Checksum16.Crc16Split | uart_sender.py:32-35 | crc(acc, s) is crc(acc, zeros) xor crc(0, s) |
| Checksum16.Crc16Interchangeable | ota-sensor.c:505-507 | strings of equal length and checksum are interchangeable in any longer checksum |
| Checksum16.BurstDetected | uart_sender.py:23-35 | strings that differ only within 16 consecutive bits have equal checksums iff they are equal |
| Coordinator.StepWellFormed | ota-coordinator.c:33-414 | every input keeps the table sizes and the page inside the file |
| CoordinatorMachine.Machine.Compact | ota-coordinator.c:160-175 | the in-place loop leaves the stable filter of nodes and of their rows, and rows past the survivors as they were |
| CoordinatorMachine.Machine.FinishStartAdmission | ota-coordinator-session.c:23-75 | state and line printed are those of FinishAdmission |
| CoordinatorMachine.Machine.StartReport | ota-coordinator-session.c:234-281 | outside the window, for unknown nodes and duplicates nothing; otherwise as OnStartReport |
| CoordinatorMachine.Machine.BitmapReport | ota-sensor.c:272-293 | the row of exactly the reporting node is replaced, if the report is for the current page and the node's first |
| CoordinatorMachine.Machine.FindSessionNode | ota-coordinator-session.c:162-171 | the first position of the node, or -1 exactly if it is not in the session |
| CoordinatorMachine.Machine.PageComplete | ota-coordinator-session.c:191-207 | true exactly if every active node's set contains every chunk of the page |
| CoordinatorMachine.Machine.CountMissed | ota-coordinator.c:218-228 | positive exactly if some active node lacks the chunk |
| CoordinatorMachine.Machine.PopulateSessionNodes | ota-coordinator-session.c:101-117 | the first 16 routes, in order |
| CoordinatorMachine.Machine.UartStart | ota-coordinator.c:284-344 | state, packet and lines of OnUartStart |
| CoordinatorMachine.Machine.UartData | ota-coordinator.c:345-387 | state and lines of OnUartData |
| UartAnswers.InvalidTargetRefused | ota-coordinator.c:303-309 | an invalid target resets the transfer, prints FW:NO_TARGETS, sends nothing and leaves the session alone |
| UartAnswers.NoRoutesRefused | ota-coordinator.c:313-319 | without routes there is no session, no window and no packet |
| UartAnswers.StartOpensWindow | ota-coordinator.c:321-341 | any other START goes out once with the command's fields to the first 16 routes, none of which counts as having replied |
| UartAnswers.VerifyAnswer | ota-coordinator.c:389-406 | the V command sends its own checksum to the session's target and is acknowledged; without nodes it sends nothing |
| UartAnswers.DataAnswer | ota-coordinator.c:345-387 | a D command prints FW:ACK iff its bytes enter the buffer, FW:NO_TARGETS iff there is neither a node nor a window, and nothing else |
| UartAnswers.FullPageCloses | ota-coordinator.c:376-379 | exactly the chunk that fills the page closes the buffer, and every later chunk is ignored in silence, even while the process is still busy |
| UartAnswers.DistributionBegins | ota-coordinator.c:41-58 | the chunk that fills the page starts the first pass at chunk 0 with the page's checksum and empty bitmaps |
| UartAnswers.PageDialogue | uart_sender.py:187-203 | each command of a page is acknowledged once, and the next line after that, whatever arrives, is FW:PAGE_OK |
| CoordinatorMachine.Machine.BeginDistribution | ota-coordinator.c:41-58 | page checksum, chunk count and empty bitmaps, or the process ends for lack of nodes |
| CoordinatorMachine.Machine.LoopHead | ota-coordinator.c:90-130 | exits and round start of the page loop |
| CoordinatorMachine.Machine.ReportTimeout | ota-coordinator.c:136-187 | retry, drop of silent nodes, or another three timeouts |
| CoordinatorMachine.Machine.BitmapEvent | ota-coordinator.c:188-211 | stale events are ignored |
| CoordinatorMachine.Machine.Resume | ota-coordinator.c:58-251 | one wake-up of the process does what OnResume says at every yield point |
| StableFilter.AdmissionCompacts | ota-coordinator-session.c:34-56 | closing the window keeps exactly the nodes that replied with ACCEPTED, in order, each with its own row |
| StableFilter.DropCompacts | ota-coordinator.c:158-175 | the drop keeps exactly the nodes that replied in this round, in order, each with its own row |
| StableFilter.PositionsExact | ota-coordinator.c:162-174 | the surviving positions are exactly the flagged ones, increasing |
| Admission.AnswersOnce | ota-coordinator-session.c:224-281 | for any interleaving of START reports, bitmap reports and the timer the window closes once, with exactly one line, and the session is exactly the nodes whose first reply until then was an acceptance |
| Admission.AcknowledgedIff | ota-coordinator-session.c:61-74 | some node stays exactly if some routed node's first reply was an acceptance |
| Admission.AcceptanceLostIff | ota-sensor.c:279-288 | a node that sends only acceptances is dropped all the same exactly if a bitmap report of its for the current page came first |
| Admission.AcceptanceLost | ota-coordinator-session.c:252-257 | a run in which a one-node session ends without targets although the node accepted |
| Admission.ClosesIff | ota-coordinator-session.c:268-280 | an input closes the window iff it is the timer, or the START report that completes the first replies of all routed nodes |
| Admission.SessionIsSubsequence | ota-coordinator.c:158-175 | until the next START the session is a subsequence of what it was |
| Assembly.CoveredIffDisjoint | ota-coordinator.c:363-376 | when the byte count meets the page size, the chunks cover the page exactly if pairwise disjoint |
| Assembly.DisjointChunksAssemble | ota-coordinator.c:356-367 | disjoint chunks of an image that add up to the page put the whole page into the buffer |
| Assembly.FeedCollects | ota-coordinator.c:346-380 | a run of chunks leaves their bytes in the buffer and starts the distribution exactly when the 16-bit count meets the page size |
| Assembly.StartsCompleteIffDisjoint | ota-coordinator.c:368-379 | the distribution that a count below 65536 starts has all bytes exactly if no two chunks overlap |
| Assembly.ResentChunkLeavesGap | ota-coordinator.c:368-379 | if a distribution starts although a chunk was buffered twice, some byte of the page is at its old value |
| UartSender.PageCommands | uart_sender.py:187-191 | the inner loop cuts the page into disjoint non-empty chunks of at most 32 bytes that carry it and add up to it |
| UartSender.ImageCommands | uart_sender.py:182-191 | the outer loop does so for each of the ceil(size/4096) pages |
| UartSender.CommandsFillPage | ota-coordinator.c:354-379 | these commands start the distribution at the last of them and not before, with exactly the page in the buffer |
| UartSender.RepeatedCommandIff | uart_sender.py:55-67 | with one command buffered twice the distribution starts iff the page is a whole number of chunks, and then before the last chunk, whose bytes are the old ones; otherwise the count overshoots and it never starts |
| Recovery.AtMostElevenPasses | ota-coordinator.c:58-251 | a page distribution sends at most 11 * total_chunks DATA packets, whatever arrives meanwhile |
| Recovery.WakeUpProgress | ota-coordinator.c:89-251 | every wake-up lowers a measure on rounds, retries and chunks left unless it ends a round without any reply |
| Recovery.LoopTerminates | ota-coordinator.c:103-108 | if every round gets a reply before its third timeout, the page loop ends within 11 * (total_chunks + 11) wake-ups |
| Recovery.SilenceLoops | ota-coordinator.c:132-204 | from a wait in which nobody has replied, no run without a START or a counting report ever leaves the page loop |
| Rounds.SilencePrompts | ota-coordinator.c:177-187 | meanwhile every timeout is followed by the same PAGE_END, and three timeouts in silence start the count anew |
| Rounds.NodeLeavesIff | ota-coordinator.c:149-176 | outside the window a node leaves the session iff a third timeout finds some node that has replied, and this one has not |
| Rounds.DroppedAfterThreeTimeouts | ota-coordinator.c:136-176 | over any inputs of a round, a drop is preceded by two timeouts of the same round |
| Rounds.RoundBegins | ota-coordinator.c:118-126 | a round forgets the replies of the round before and keeps the bitmaps |
| Rounds.RoundOutcome | ota-coordinator.c:188-215 | the event ends the wait iff every node has reported since the round began; the page is complete iff every first report names all chunks, otherwise the recovery pass begins at chunk 0 |
| Passes.RecoveryPassExact | ota-coordinator.c:213-250 | whatever arrives in between, a recovery pass sends exactly the chunks some active node lacks when they are examined, with the bytes of the page buffer |
| Passes.ResentExact | ota-coordinator.c:228-244 | a packet is among them exactly if its chunk was missing on some active node at its wake-up |
| Passes.FirstPassTilesIff | ota-coordinator.c:58-82 | whatever arrives in between, the first pass tiles the page with the bytes of the page buffer iff the last chunk does not end beyond 32 bits |
| Passes.EmptyReportResendsPage | ota-coordinator.c:213-250 | one empty report makes the next pass send every chunk, whatever arrives during the pass |
| Pages.AnnouncedPagesTile | ota-coordinator.c:253-266 | without a further START the announced pages are the first pages of the file, without gap or overlap, all but the last of 4096 bytes |
| Pages.FinishedRefusesData | ota-coordinator.c:354-387 | never more than ceil(size/4096) lines, and an idle coordinator refuses all DATA exactly after that many |
| Pages.FirstPageAfterStart | ota-coordinator.c:340-341 | over all runs after a START, the first page whose distribution begins is page 0 iff no distribution was under way, otherwise page 4096; page 0 is then not buffered any more |
| OneChunkRuns.PageZeroSkipped | ota-coordinator.c:335-341 | a run in which the first page of the new file that is distributed is page 4096, and the old page's byte went out as its first byte |
| StaleBytes.OldBytesToNewTarget | ota-coordinator.c:61-74 | over all inputs, while the new admission window is open, every DATA packet of the running process goes to the new target and carries the old page's bytes as page 0 of the new file |
| Pages.PageOkMeans | ota-coordinator.c:103-106 | FW:PAGE_OK is printed exactly on leaving the page loop, with a chunk missing on some node exactly at the round limit |
| OneChunkRuns.PageOkWithoutPage | ota-coordinator.c:103-106 | a run that prints FW:PAGE_OK at the round limit with the one chunk missing on the one node |
| Checksum32.Crc32UpdateData | ota-metadata.c:3-20 | the nested loops compute the fold and the complemented bit-serial register |
| Checksum32.RegisterIsSerial | ota-metadata.c:9-18 | byte-wise exclusive or and eight steps equal feeding the bits one by one |
| Checksum32.Crc32Concat | ota-metadata.c:8-19 | the complements of consecutive updates cancel |
| Checksum32.OneWordDetected | ota-metadata.c:3-24 | strings of words that differ in exactly one word have different checksums |
| Metadata.RefreshedIsValid | ota-metadata.c:26-41 | a refreshed record validates exactly if its magic is right, and a valid record needs no refresh |
| Metadata.OneWordCorruptionDetected | ota-metadata.c:31-41 | a valid record with any single word changed does not validate |
| Metadata.RecordRoundTrip | ota-flash.c:76-115 | what is written is read back, and the byte comparison before a write is equality of records |
| Metadata.Block.MarkVerified | ota-metadata.c:43-66 | the whole new record, or no change on a bad magic or slot |
| Metadata.Block.StageVerifiedImage | ota-metadata.c:68-88 | the whole new record, or no change |
| Metadata.Block.ConfirmRunningImage | ota-metadata.c:90-111 | the whole new record, or no change |
| Metadata.Block.InitFactory | ota-metadata.c:113-141 | every field of the factory record |
| Metadata.Block.IncrementBootAttempts | ota-metadata.c:143-146 | the counter, modulo 2^32, and the checksum change |
| Metadata.Block.MarkSlotInvalid | ota-metadata.c:148-156 | one state and the checksum change |
| Metadata.Block.SetCandidate | ota-metadata.c:158-176 | the slot becomes the pending candidate with one attempt |
| Metadata.Block.ClearSlot | ota-metadata.c:184-197 | one entry is emptied |
| Boot.Machine.Check | sensor-node-dual-onchip.c:246-348 | metadata, headers and outcome of a boot are those of BootCheck, for every reset source and write outcome |
| Boot.Machine.Stable | sensor-node-dual-onchip.c:350-361 | as ConfirmStable |
| Boot.Machine.StageImage | sensor-node-dual-onchip.c:52-159 | as Stage, with all checks of the downloaded header |
| Boot.Machine.WriteMetadata | ota-flash.c:76-99 | a write is skipped exactly if the sector holds the same valid record |
| BootRuns.RecordsStayProper | ota-metadata.c:26-197 | in every run of boots, confirmations, downloads and stagings from a node without metadata, with failing writes, every record that validates names real slots, and its candidate is pending or was cleared |
| BootRuns.PersistedRecordsValidate | sensor-node-dual-onchip.c:270-313 | if no write fails, the sector holds a valid proper record after every event of such a run, equal to the one in memory |
| BootRuns.FailedWriteIsHarmless | ota-flash.c:76-99 | a failed write that leaves the old record, the new one or an invalid one meets the hypothesis of RecordsStayProper |
| BootRuns.StagedFields | sensor-node-dual-onchip.c:118-159 | staging makes the target the pending candidate and never alters the active slot or the other slot's entry |
| BootUpdates.StageIff | sensor-node-dual-onchip.c:52-159 | an image is staged iff its header has the identifier, a strictly newer version, the right types, an address range in the slot and a size within the file, and the record was written or says so already |
| BootUpdates.StagingNeverLowersVersion | sensor-node-dual-onchip.c:68-73 | over any later boots, confirmations and stagings the node never runs an older version than when it staged |
| BootUpdates.FirstBootRecord | sensor-node-dual-onchip.c:270-276 | the first boot records the running slot as active and pending with its image's checksum, version and size, and is not counted |
| BootUpdates.NewImageRecord | sensor-node-dual-onchip.c:278-286 | a boot of another image makes its slot the candidate with one attempt used and records that image |
| BootUpdates.NewerImageStaged | sensor-node-dual-onchip.c:118-159 | a run in which a node without metadata boots, downloads an ordinary newer image and stages it |
| BootUpdates.OutcomeIgnoresWrites | sensor-node-dual-onchip.c:313-346 | whether a boot goes on, halts or falls back does not depend on the metadata writes, and a fallback marks the header all the same |
| BootUpdates.FailedUpdateFallsBack | sensor-node-dual-onchip.c:270-348 | over runs from a node without metadata: if a staged update uses up four attempts, the node falls back, and the old slot is active and confirmed |
| BootLoops.AtMostOneFallback | sensor-node-dual-onchip.c:315-347 | in any run of boots and confirmations over fixed slots there is at most one fallback, and the crashed slot stays invalid and marked |
| BootLoops.BootAfterFallback | sensor-node-dual-onchip.c:318-333 | after it, used-up attempts end in safe mode and never in a second fallback |
| BootLoops.CrashLoopBounded | sensor-node-dual-onchip.c:281-347 | if every metadata write succeeds, boots of one slot go on exactly as long as at most three of them count, however many power-on boots lie between |
| BootLoops.SecondCrashLoopHalts | sensor-node-dual-onchip.c:318-333 | over any run of boots after a fallback none falls back again, and one halts iff more than three count |
| BootLoops.FallbackIsFresh | sensor-node-dual-onchip.c:335-346 | a fallback leaves the other slot in the state those runs start from |
| BootLoops.UnrecordedLoop | sensor-node-dual-onchip.c:313-347 | if every metadata write fails and leaves the old record, a crashing slot is booted for ever |
| BootLoops.FourthBoot | sensor-node-dual-onchip.c:315-347 | the fourth counted boot hands over exactly if the other slot holds an image not recorded as invalid, or one that differs from the record, and the mark succeeds |
| BootLoops.HaltingIsStuck | sensor-node-dual-onchip.c:315-333 | safe mode is entered with no attempts left and nothing to fall back to, unless it is because the header could not be marked |
| BootLoops.SafeModeHoldsIff | ota-metadata.c:143-146 | from there all further boots halt iff the 32-bit attempt counter does not wrap |
| BootLoops.UnmarkedSlotRunsAgain | sensor-node-dual-onchip.c:335-346 | a failed mark halts the node, and a later boot of the slot starts over with one attempt used |
| BootLoops.UpdateConfirmedIff | sensor-node-dual-onchip.c:118-361 | stage, boot, stability window: the new image becomes active and confirmed iff the first boot counts as an attempt; otherwise it stays a pending candidate |

## Left out

- RPL routes, TSCH queues, pacing and timer durations: wake-ups and timeouts of the distribution process arrive at any
  time; the bitmap event may also arrive when no report has triggered it, which only adds behaviours.
- `send_to_all`, forwarding and route tables: part of the lossy network.
- Parsing of UART commands, the hexadecimal length check (ota-coordinator.c:358-362), serial ports, retries and
  timeouts of the sender script, file reading and logging: the model starts from parsed commands.
- Packet layout: START, DATA, PAGE_END and VERIFY are values of a datatype; payload bytes that a short datagram does not
  carry read as zero, and the short-datagram guards of `udp_rx_callback` are not modelled.
- Addresses: nodes are compared by identity, not by the last eight address bytes.
- The node's own `crc16_data` belongs to Contiki-NG and is not part of this model; its twin in uart_sender.py stands for it.
- VIMS cache handling, interrupts and the flash controller: replaced by the erase/AND contract and a success flag.
- The boot image manager: any slot whose header is not marked may be booted.
- `sensor-node-offchip.c`, `coordinator-legacy.c`, `sensor-node-legacy.c`: variants of the same flow.
- Leaf reboot scheduling, stage reports, `remove_session_node` (never called), linker scripts.
- EndToEndSafety.CompletePagesAreInFlash: one session, in which START reaches a node at most once, no reports of earlier sessions
  are in flight, no VERIFY is sent before the end, and the erases that DATA asks for succeed; the lemmas on failed erases and
  repeated pages show why.
- Coordinator.StepWellFormed: after a START during a distribution a chunk length can wrap to more than 64 (16-bit
  arithmetic of ota-coordinator.c:62-65); the model clips the copy to the page buffer, where the source reads past it.
- BootLoops.AtMostOneFallback: metadata writes succeed and the slots keep their images; loss of power between the metadata write and
  the header mark is not modelled.
- Passes.RecoveryPassExact: a START inside the pass is excluded; Pages.FirstPageAfterStart says what it does to the page.
- BootRuns.RecordsStayProper: a failed write does not by chance leave a valid record other than a proper one.
- Boot.Machine.WriteMetadata: the metadata sector is one record of thirteen words, not bytes at an address; a failed write
  leaves any record. What staging does to the flash model of the receive machine is any change of the metadata sector.
- Metadata.Block.ClearCandidate: modelled, but no caller in the modelled sources.
