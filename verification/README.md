# Factory test application: a verified model

The factory test application checks M5Stack hardware on a bench. This project models the parts of it
that hold real protocols and bounded-resource logic, and proves what they promise.

| file | what it models |
|---|---|
| UploadProtocol.dfy | the life of an upload request, told by the events that can be seen from outside |
| UploadLines.dfy | bytes to lines, lines to commands, on the factory link |
| FactoryUpload.dfy | the upload worker and the UI thread, one step per lock section |
| NecCodec.dfy | the NEC pulse encoder and the tolerant decoder |
| IrReceiver.dfy, IrStream.dfy | the receiver session, and what whole streams and runs of polls do |
| IrFixture.dfy | the infrared fixture test that consumes the session |
| UartFrame.dfy | CRC-16, the 16-byte fixture frame and the stream synchroniser |
| CapBench.dfy, CapFixture.dfy | the bench hardware, and the eight-test sequence with its cleanup |
| LogNames.dfy, LogDirectory.dfy, Logger.dfy | segment names, the directory, and the rotating logger |
| OutputRuns.dfy, ProcessOutput.dfy | the lines of a byte stream, and the child process output collector |
| JsonScan.dfy, ShellQuoting.dfy | the scanner for the last complete JSON object, and shell quoting |
| BakingSupervisor.dfy | the supervisor of the three pressure workloads |
| AppConfigStore.dfy | loading, correcting and saving the configuration |
| AudioSamples.dfy | audio callbacks and normalisation |
| Common.dfy | an option type, machine-integer ranges, sequence facts |

Objects whose methods update their fields are classes with those fields; whatever the outside decides
(device results, time, cancellation, calls from another thread) is chosen arbitrarily at each point where
it can matter, so a method's contract holds for every choice. Lock sections are atomic, together with the
thread-local code up to the next one.

Five conditions that the code needs, and what happens without them:

- Upload: a handshake that cannot be answered while an acknowledgement is outstanding fails the request
  but leaves the worker waiting. `RefuseHandshake` says that exactly this step breaks the protocol,
  `OrphanTheAck` and `StaleAckIsCredited` show how a later request is then reported as uploaded although
  nothing of it was sent. A stop with a taken request leaves the service stuck, and a restart does not help
  (`ForgetLocals`, `Restart`).
- CAP fixture: cancellation between the toggle back to HAT and the clearing of the flag makes the cleanup
  toggle again. For UART that leaves the channel on Grove (`InterruptUartRestore`); for I2C the second toggle
  is sent where the CAP does not hear it, so the hardware is right (`Cleanup`, `Run`).
- Infrared: 279 us per element is exactly what the codec tolerates, and 94 noise durations, counted modulo
  the buffer limit, exactly what a frame tolerates before it.
- Supervisor: a child that survives the end of a cycle leaves the next cycle without the agreement of flags
  and child table.
- Shown command lines: the list of characters that make a word quoted lacks ~, # and ?, so a shell reads the
  line back as the same words exactly if no unquoted word begins with ~ or # or contains ?.

`dafny verify dfyconfig.toml` checks the whole project.

## Model

| member | source | states |
|---|---|---|
| UploadProtocol.SuccessIsEarned | src/platform/factory_upload_service.cpp:539-570 | In every lawful history SUCCEEDED is shown only for a request accepted before, whose whole RESULT line was written after that, and whose positive ACK_RESULT was read after that on the same serial session, with no other request opened or closed in between |
| UploadProtocol.OneVerdictPerRequest | src/platform/factory_upload_service.cpp:322-333 | Between any two verdicts a new request was accepted: no accepted request gets two |
| UploadProtocol.OneRequestAtATime | src/platform/factory_upload_service.cpp:223-230 | Between any two accepted requests there was a verdict: single flight |
| UploadProtocol.VerdictSticks | src/platform/factory_upload_service.cpp:279-282 | After a verdict no progress is shown before the next accepted request, although the check and the publication are separate lock sections |
| UploadProtocol.PendingIsFailedInTime | src/platform/factory_upload_service.cpp:294-306 | In every lawful history an accepted request is taken or failed before any search that reads the clock past its acceptance plus 10 s |
| UploadProtocol.TakenIsServedInTime | src/platform/factory_upload_service.cpp:588-606 | In every lawful history a taken request is sent, or has its verdict, before any iteration ends that read the clock more than 10 s after the taking; so no deadline is ever renewed |
| UploadProtocol.SentIsConcludedInTime | src/platform/factory_upload_service.cpp:607-612 | In every lawful history a sent request has its verdict before any iteration ends that read the clock more than 60 s after the sending |
| UploadProtocol.SanitizedHasNoBreaks | src/platform/factory_upload_service.cpp:188-189 | An accepted payload has neither CR nor LF, and one without them is unchanged |
| UploadLines.AssembleAppend | src/platform/factory_upload_service.cpp:509-526 | The lines assembled do not depend on how the serial reads cut the stream |
| UploadLines.LinesDelivered | src/platform/factory_upload_service.cpp:509-526 | Every line of a stream is delivered, once and in order: of an over-long one only what follows the last multiple of 1025 characters, of an empty one nothing |
| UploadLines.WholeIffShort | src/platform/factory_upload_service.cpp:515-518 | A nonempty line arrives whole if and only if it has at most 1024 characters |
| UploadLines.MatchesFirstWord | src/platform/factory_upload_service.cpp:53-57 | A line matches a command if and only if that is its first word, so it is never two commands |
| UploadLines.HandshakeIsNoAck | src/platform/factory_upload_service.cpp:527-539 | No line is both a handshake and an ACK_RESULT, so the order of the two tests does not matter |
| UploadLines.PayloadSurvives | src/platform/factory_upload_service.cpp:59-65 | A payload comes back out of its command line if and only if it does not begin with a space |
| FactoryUpload.FactoryUploadService.SetSnapshot | src/platform/factory_upload_service.cpp:269-277 | The revision rises if and only if state, message or port changes |
| FactoryUpload.FactoryUploadService.Publish | src/platform/factory_upload_service.cpp:264-267 | Publishing progress keeps the service lawful whenever no verdict is on display |
| FactoryUpload.FactoryUploadService.Queue | src/platform/factory_upload_service.cpp:186-235 | Acceptance if and only if the payload is sendable as one line, the listener is alive and nothing is in flight; otherwise nothing changes; a stuck service refuses everything |
| FactoryUpload.FactoryUploadService.Interfere | src/platform/factory_upload_service.cpp:186-235 | Any number of UI calls between two steps of the worker keep the service lawful, leave a pending request alone and never put a verdict on display |
| FactoryUpload.FactoryUploadService.TakePending | src/platform/factory_upload_service.cpp:284-292 | The pending request becomes the active one, with a handshake deadline 10 s after its taking |
| FactoryUpload.FactoryUploadService.FailPending | src/platform/factory_upload_service.cpp:294-320 | A pending request fails exactly if it is there and, without a device, its deadline has passed |
| FactoryUpload.FactoryUploadService.Conclude | src/platform/factory_upload_service.cpp:322-333 | A failure verdict for the active request, which is then forgotten |
| FactoryUpload.FactoryUploadService.DropLink | src/platform/factory_upload_service.cpp:468-482 | A lost link or failed read gives whatever was under way its verdict, and only that |
| FactoryUpload.FactoryUploadService.RefuseHandshake | src/platform/factory_upload_service.cpp:533-536 | From a lawful state the step keeps the service lawful if and only if no acknowledgement was outstanding |
| FactoryUpload.FactoryUploadService.ReadAck | src/platform/factory_upload_service.cpp:539-570 | SUCCEEDED exactly if the acknowledgement parsed and says saved; ignored without an outstanding RESULT |
| FactoryUpload.FactoryUploadService.SendOrExpire | src/platform/factory_upload_service.cpp:579-614 | After it no taken request is past its handshake deadline unsent, no sent one past its acknowledgement deadline, which is not moved for one sent before; with a handshake it is sent or failed, without one nothing is sent |
| FactoryUpload.FactoryUploadService.HandleLine | src/platform/factory_upload_service.cpp:527-570 | Which line does what; an acknowledgement for an outstanding RESULT always ends the request, and no line starts or sends one |
| FactoryUpload.FactoryUploadService.Receive | src/platform/factory_upload_service.cpp:509-577 | The lines acted on are exactly the assembled lines, in order, with UI calls possible before each; no request begins or is sent meanwhile |
| FactoryUpload.FactoryUploadService.Iterate | src/platform/factory_upload_service.cpp:383-615 | For any surroundings and interleaving: stays lawful; deadlines of a stage that goes on are not moved and not passed; a dropped link leaves nothing under way; with a link exactly the received lines are acted on, and nothing taken stays unsent after a handshake; the look at the clock is on record |
| FactoryUpload.FactoryUploadService.Run | src/platform/factory_upload_service.cpp:363-620 | Every run of the worker, in every interleaving of UI calls with its steps and lines, keeps the service lawful unless a handshake went unanswered while an acknowledgement was outstanding; a stuck service stays stuck |
| FactoryUpload.FactoryUploadService.ForgetLocals | src/platform/factory_upload_service.cpp:363-381 | The worker's end leaves the service lawful if and only if no taken request was without a verdict; otherwise it is stuck |
| FactoryUpload.FactoryUploadService.Restart | src/platform/factory_upload_service.cpp:155-184 | Stopped, started again and run for any time: a service left with a taken request is stuck at the end as well, one without stays lawful |
| FactoryUpload.FactoryUploadService.OrphanTheAck | src/platform/factory_upload_service.cpp:533-536 | Counterexample, first half: from any lawful state with a taken request a worker waiting for the acknowledgement of nothing is reached |
| FactoryUpload.FactoryUploadService.StaleAckIsCredited | src/platform/factory_upload_service.cpp:533-570 | Counterexample, second half: for any next payload SUCCEEDED is shown for a request of which nothing was written |
| NecCodec.ApproxIsDistance | src/platform/ir_service.cpp:324-326 | The wrapping 32-bit test equals the distance test for all values if and only if the target is zero or no sum wraps |
| NecCodec.PackParseInverse | src/platform/ir_service.cpp:279-307 | Packing and parsing a packet are inverse both ways |
| NecCodec.ScancodeAgreesWithPulses | src/platform/ir_service.cpp:445-479 | A kernel scancode and the same packet from pulses agree on address and command always, on the protocol if and only if neither half is its own check byte |
| NecCodec.EncodeNecPacket | src/platform/ir_service.cpp:309-322 | The pulse train is the frame given element by element: leader, bits in order least significant first, stop pulse |
| NecCodec.DecodeNecPacketFrom | src/platform/ir_service.cpp:328-362 | Decodes exactly at the positions where a frame stands, to the bytes whose bits are the long spaces |
| NecCodec.DecodeNecPacket | src/platform/ir_service.cpp:364-371 | Finds the first position with a frame, or says correctly that there is none |
| NecCodec.DecodesIsUnique | src/platform/ir_service.cpp:364-371 | A train has at most one decoding |
| NecCodec.NoLeaderInside | src/platform/ir_service.cpp:335-338 | No position inside a jittered frame but its start passes the leader test |
| NecCodec.JitteredFrameDecodes | src/platform/ir_service.cpp:309-371 | Round trip and resynchronisation: after any leader-free prefix and before any suffix, a frame jittered by up to 279 us per element decodes to exactly its packet |
| NecCodec.JitterToleranceIsExact | src/platform/ir_service.cpp:309-371 | Every address and command tolerates a jitter if and only if it is at most 279 us |
| NecCodec.StretchedZeroMisreads | src/platform/ir_service.cpp:351-355 | A zero space stretched by 280 us reads as a one |
| IrReceiver.FeedAppend | src/platform/ir_service.cpp:802-873 | The receiver's state does not depend on how the words are split into reads |
| IrReceiver.IrReceiverSession.Start | src/platform/ir_service.cpp:659-746 | Mode selection and every failure; a second start changes only the visible filter |
| IrReceiver.IrReceiverSession.Stop | src/platform/ir_service.cpp:748-760 | Stopping empties the buffer, the queue and the receive state |
| IrReceiver.IrReceiverSession.FinalizeReceive | src/platform/ir_service.cpp:391-429 | A pulse train updates the packet fields and announces a change exactly as the decoded packet differs from the last |
| IrReceiver.IrReceiverSession.AcceptCode | src/platform/ir_service.cpp:481-517 | A scancode does the same; a repeat or foreign protocol changes no packet field |
| IrReceiver.IrReceiverSession.Poll | src/platform/ir_service.cpp:762-880 | A poll feeds everything read and hands out the oldest queued packet; after a read error the session is closed and empty |
| IrStream.BurstReceivedIffRoom | src/platform/ir_service.cpp:853-871 | After leader-free noise a jittered frame is received if and only if the noise length, modulo the 161 at which the buffer is emptied, is at most 94; otherwise nothing is delivered |
| IrStream.StreamDelivers | src/platform/ir_service.cpp:802-879 | End to end: any stream of gaps, noise and jittered frames queues exactly the packets sent, in order, consecutive duplicates collapsed |
| IrStream.DistinctNeighbours | src/platform/ir_service.cpp:407-409 | What is queued never repeats its predecessor |
| IrStream.QueueOnlyGrows | src/platform/ir_service.cpp:788-792 | Feeding only appends to the queue, and only announced changes |
| IrStream.PollMovesHead | src/platform/ir_service.cpp:795-799 | One poll moves the head of the queue out and changes nothing for later input |
| IrStream.PollsAreFifo | src/platform/ir_service.cpp:762-879 | The changed snapshots of successive polls, followed by what is still queued, are what the whole input queues: in order, once each, however it is spread over polls and reads |
| IrStream.IdlePollsDrain | src/platform/ir_service.cpp:875-878 | One poll per queued packet empties the queue |
| IrFixture.SentFramesAreNec32 | src/model/ir_fixture_test_model.cpp:37-58 | No address and command the test can draw is read back as anything but NEC32 or as a fixture reply |
| IrFixture.IrFixtureTestModel.Fail | src/model/ir_fixture_test_model.cpp:282-299 | After a failure no item is running |
| IrFixture.IrFixtureTestModel.SendFrames | src/model/ir_fixture_test_model.cpp:151-176 | Four frames were sent, or the run failed on the sender, or it was canceled |
| IrFixture.IrFixtureTestModel.CheckReply | src/model/ir_fixture_test_model.cpp:214-240 | A counted packet is accepted if and only if it is the expected reply |
| IrFixture.IrFixtureTestModel.ReceiveReplies | src/model/ir_fixture_test_model.cpp:208-244 | What is counted is exactly the address-matched changes the polls hand out; it ends in order, or with the first wrong one |
| IrFixture.IrFixtureTestModel.Run | src/model/ir_fixture_test_model.cpp:122-269 | PASSED if and only if four sends succeeded, the receiver opened and the five counted replies came in order, not canceled; FAILED leaves nothing running |
| IrFixture.RepliesAreCounted | src/model/ir_fixture_test_model.cpp:211-240 | If the five replies are on the air as jittered frames, repeated or not, what is counted is exactly them |
| IrFixture.GoodAirPasses | src/model/ir_fixture_test_model.cpp:122-269 | From the air to the verdict: a run that heard such a stream passes unless canceled |
| UartFrame.Crc16Modbus | src/model/cap_fixture_test_model.cpp:81-91 | The bit loop computes the CRC-16 of Modbus over Serial Line V1.02, section 6.2.2, as a fold over bytes |
| UartFrame.CrcAppend | src/model/cap_fixture_test_model.cpp:81-91 | The checksum of a concatenation continues from the first part's |
| UartFrame.ChecksumCancels | src/model/cap_fixture_test_model.cpp:81-91 | Running the checksum over its own two bytes, low first, always ends at zero |
| UartFrame.ShiftByteInjective | src/model/cap_fixture_test_model.cpp:84-89 | No two register states are merged by a byte shift |
| UartFrame.PairsStayApart | src/model/cap_fixture_test_model.cpp:81-91 | Two different byte pairs take any register state to different states |
| UartFrame.AdjacentErrorsDetected | src/model/cap_fixture_test_model.cpp:81-91 | Messages of any length that differ only within two adjacent bytes never share a checksum |
| UartFrame.MakeUartFrame | src/model/cap_fixture_test_model.cpp:93-106 | Sixteen bytes whose checksum over all of them is zero |
| UartFrame.ResidueDetermines | src/model/cap_fixture_test_model.cpp:125-131 | The last two bytes are right if and only if the checksum over all sixteen is zero |
| UartFrame.ValidateUartFrame | src/model/cap_fixture_test_model.cpp:108-133 | Accepts exactly the one frame that would be built; which error means what |
| UartFrame.DamagedFrameRejected | src/model/cap_fixture_test_model.cpp:93-133 | A frame damaged within two adjacent bytes is none that could have been built |
| UartFrame.KeepingOneIsEnough | src/model/cap_fixture_test_model.cpp:179-184 | Dropping all but the last byte of a header-free buffer loses no header, also one split across chunks |
| UartFrame.CarriesIsStable | src/model/cap_fixture_test_model.cpp:159-188 | Later bytes never change which frame a stream carries |
| UartFrame.ReadUartFrame | src/model/cap_fixture_test_model.cpp:135-193 | For every chunking: the 16 bytes at the first header of the whole stream, the one frame it carries, no later than they are all there and not before; or the right reason why not |
| CapBench.Bench.WriteRegister | src/model/cap_fixture_test_model.cpp:1028-1049 | A control write reaches the CAP exactly when host and CAP are on the same I2C side; commands 8 and 9 toggle their channel |
| CapFixture.CapFixtureTestModel.SelectHostPinFunction | src/model/cap_fixture_test_model.cpp:966-981 | The cached pin function never claims GPIO wrongly |
| CapFixture.CapFixtureTestModel.Fail | src/model/cap_fixture_test_model.cpp:1070-1082 | The active item, and only that, is failed |
| CapFixture.CapFixtureTestModel.EnterGroveI2c | src/model/cap_fixture_test_model.cpp:365-390 | The I2C channel moves to Grove, or the test stops with flags that still tell where it is; no control transaction is issued out of reach |
| CapFixture.CapFixtureTestModel.LeaveGroveI2c | src/model/cap_fixture_test_model.cpp:400-411 | It moves back, or the run is left canceled with a flag that is stale exactly if cancellation came before it was cleared |
| CapFixture.CapFixtureTestModel.RunGroveI2c | src/model/cap_fixture_test_model.cpp:365-434 | The whole detour with commands 08, 02, 08 in that order when it passes |
| CapFixture.CapFixtureTestModel.UartDialogue | src/model/cap_fixture_test_model.cpp:491-548 | It passes only if the streams carried exactly READY and the payload reversed |
| CapFixture.CapFixtureTestModel.RunGroveUart | src/model/cap_fixture_test_model.cpp:561-672 | The same dialogue with commands 09, 03, 09; on every failure the flags tell where the channel is unless its restore was interrupted |
| CapFixture.CapFixtureTestModel.RunUsb | src/model/cap_fixture_test_model.cpp:780-873 | The next test starts only after it passed; otherwise stopped with this item failed or, canceled, running |
| CapFixture.CapFixtureTestModel.RunGpio | src/model/cap_fixture_test_model.cpp:875-964 | Once anything was read from the CAP, the last two things tried are the stop command and the release of the lines, whatever the result; a pass has the lines released |
| CapFixture.CapFixtureTestModel.Cleanup | src/model/cap_fixture_test_model.cpp:1107-1193 | From any point: if nothing fails that could succeed, 5V is off, mux, I2C and pins are back and lines are inputs; CAP UART is on HAT if and only if its restore was not interrupted |
| CapFixture.CapFixtureTestModel.InterruptUartRestore | src/model/cap_fixture_test_model.cpp:662-668 | Witness of the condition: from any state with the CAP UART on Grove, a toggle back and then cancellation make the cleanup leave it on Grove |
| CapFixture.CapFixtureTestModel.PrepareAndReset | src/model/cap_fixture_test_model.cpp:244-307 | Ready for the first test, or failed with item 6 marked, or still RUNNING because canceled |
| CapFixture.CapFixtureTestModel.RunTests | src/model/cap_fixture_test_model.cpp:313-321 | A passing sequence sent exactly the protocol's commands and had two good UART dialogues; any other stopped in one test with those before it passed |
| CapFixture.CapFixtureTestModel.Run | src/model/cap_fixture_test_model.cpp:244-330 | For every choice of failures and moment of cancellation: exactly one cleanup, hardware restored as above, and which verdict means what, both ways; PASSED stands for two UART dialogues that carried exactly the expected frames |
| LogNames.DecimalReadsBack | src/logger/logger.cpp:405-417 | Numbers in names read back, so different numbers give different names |
| LogNames.CandidatesDiffer | src/logger/logger.cpp:402-421 | The name search never tries a name twice |
| LogNames.SearchIsBounded | src/logger/logger.cpp:402-421 | At most as many names can be taken as there are files: the search ends |
| LogNames.LexTotal | src/logger/logger.cpp:323 | File names are totally ordered |
| LogDirectory.TotalWithout | src/logger/logger.cpp:283-300 | The directory total is the sum over its regular files in any order of counting |
| LogDirectory.SortIsByAge | src/logger/logger.cpp:319-324 | Every managed file once, strictly by write time and then by name |
| LogDirectory.RemainingMeans | src/logger/logger.cpp:326-335 | What remains is what was there without the removed files, untouched |
| Logger.LoggerState.ListManaged | src/logger/logger.cpp:282-316 | The total of all regular files, and exactly the managed ones, in whatever order the directory is read |
| Logger.LoggerState.MakeDirectoryRoom | src/logger/logger.cpp:277-337 | Removes the shortest oldest-first run of managed files after which the bytes fit, every other file untouched; fails only by a file operation, or if all of them would not have been enough |
| Logger.AllEvicted | src/logger/logger.cpp:326-335 | Once the whole eviction order is gone no managed file is left |
| Logger.EvictionSpares | src/logger/logger.cpp:302-311 | A file without the names' prefix and suffix, no regular file, or the current one is never evicted, and keeps its content |
| Logger.OldestGoFirst | src/logger/logger.cpp:319-335 | No managed file is evicted while an older one stays |
| Logger.LoggerState.FindName | src/logger/logger.cpp:399-421 | The first free name in the order of trying, on any finite directory |
| Logger.LoggerState.CreateSegment | src/logger/logger.cpp:402-421 | A new empty file under that name; no existing file is opened or changed |
| Logger.TruncateLine | src/logger/logger.cpp:339-352 | At most the maximum, unchanged if it fits, else ending with the marker where there is room |
| Logger.TruncatedTwice | src/logger/logger.cpp:607-617 | Truncating twice still leaves a beginning of the line and of the marker |
| Logger.SegmentsAreManaged | src/logger/logger.cpp:403-405 | Every segment created is one that may be evicted later |
| Logger.LoggerState.WriteBytes | src/logger/logger.cpp:354-365 | The text is appended whole to the open file, or some beginning of it and file logging ends; no other file changes, and the budget holds either way |
| Logger.AppendKeepsFaithful | src/logger/logger.cpp:358-363 | Appending to the open segment keeps every file the logger knows a contiguous stretch of the journal in call order, no two overlapping |
| Logger.LoggerState.OpenNextSegment | src/logger/logger.cpp:392-432 | A rotation: first the shortest oldest-first eviction that makes room for a whole segment, then a new file that holds just a header; every other file and what it holds of the journal is preserved |
| Logger.LoggerState.Init | src/logger/logger.cpp:464-505 | A valid logger, enabled only with positive limits and a usable directory, and then always unless a file operation fails or unmanaged files leave no room; the directory loses only the shortest oldest-first eviction and gains only the new segment |
| Logger.LoggerState.Log | src/logger/logger.cpp:589-618 | Limits hold, and the line is the newest entry, whole if it fits, else cut to the next segment's room; every file and what it holds is preserved but for the shortest oldest-first eviction of a rotation; logging ends only by a failed operation or for lack of room |
| Logger.LoggerState.Shutdown | src/logger/logger.cpp:507-512 | Closed and disabled, files untouched |
| OutputRuns.RunsExact | src/platform/process_service.cpp:55-77 | The runs listed are exactly the maximal nonempty stretches without CR or LF |
| OutputRuns.RunsAscend | src/platform/process_service.cpp:55-77 | They are listed in stream order without overlap |
| OutputRuns.ReadingIsRuns | src/platform/process_service.cpp:55-77 | Reading byte by byte yields the ended runs and the rest |
| ProcessOutput.OutputCollector.SplitLines | src/platform/process_service.cpp:55-77 | Splitting what is pending with a new chunk reports exactly the reading of the whole stream, each line cut |
| ProcessOutput.OutputCollector.StoreOutput | src/platform/process_service.cpp:79-87 | The stored output is the stream's first bytes up to the limit |
| ProcessOutput.OutputCollector.AppendOutput | src/platform/process_service.cpp:44-88 | One chunk, however the stream is cut, keeps lines, output and the truncation flag those of the whole stream |
| ProcessOutput.OutputCollector.Flush | src/platform/process_service.cpp:90-99 | The nonempty lines delivered are the runs, each cut to the limit, in order; truncated if and only if a run or the stream was too long |
| ProcessOutput.CutLinesPointwise | src/platform/process_service.cpp:60-61 | With a positive line limit no run is lost: one line each |
| ProcessOutput.LongRuns | src/platform/process_service.cpp:68-76 | The line part of the flag is set if and only if some run is longer than the limit |
| JsonScan.FinalJsonDocument | src/platform/cpu_benchmark_service.cpp:126-169 | The loop returns the stretch found by the character automaton, or the text if there is none |
| JsonScan.PieceNeutral | src/platform/cpu_benchmark_service.cpp:134-163 | Anything nested inside an object leaves the scanner where it was and finds nothing, at every point of it |
| JsonScan.ObjectFound | src/platform/cpu_benchmark_service.cpp:151-162 | A complete object at the top level is what was found last, braces and escaped quotes in strings included |
| JsonScan.BeginningNotFound | src/platform/cpu_benchmark_service.cpp:151-162 | No proper beginning of an object is found |
| JsonScan.LastDocumentReturned | src/platform/cpu_benchmark_service.cpp:126-169 | From objects separated by noise and followed by a broken-off object, the last complete one is returned, whole and nothing else |
| JsonScan.LastJsonObjectReturned | src/platform/cpu_benchmark_service.cpp:126-169 | The same for every sequence of JSON objects in the sense of RFC 8259, sections 4 and 7 |
| JsonScan.NothingFound | src/platform/cpu_benchmark_service.cpp:165-167 | Without a complete object the text is returned as it is |
| JsonScan.ObjectsAreObjects | src/platform/cpu_benchmark_service.cpp:126-169 | Every JSON object, nested to any depth, is one to the scanner |
| ShellQuoting.QuoteArg | src/platform/cpu_benchmark_service.cpp:40-58 | The loop writes the quoted form character by character |
| ShellQuoting.CommandToString | src/platform/cpu_benchmark_service.cpp:542-549 | The command line is the quoted words with a space between them |
| ShellQuoting.BodyReads | src/platform/cpu_benchmark_service.cpp:48-57 | Between the quotes every character reads back as itself, quotes included |
| ShellQuoting.ReadsBackIffNoneOverlooked | src/platform/cpu_benchmark_service.cpp:40-58 | A POSIX shell reads back exactly the words, whatever files there are, if and only if none is an unquoted one that begins with ~ or # or contains ? |
| ShellQuoting.GlobIsOverlooked | src/platform/cpu_benchmark_service.cpp:44-46 | A word that does not read back |
| BakingSupervisor.BakingPiService.LaunchWorkload | src/platform/baking_pi_service.cpp:583-620 | A started workload has one more entry and its flag; a failed one clears its flag unless it was not tried |
| BakingSupervisor.BakingPiService.LaunchWorkloads | src/platform/baking_pi_service.cpp:575-581 | After the launch flags and table agree if and only if the table was empty before |
| BakingSupervisor.BakingPiService.ReapChildren | src/platform/baking_pi_service.cpp:697-754 | Reaping keeps agreement; the entries gone are exactly the exits listed, and each workload reaped is left without an entry |
| BakingSupervisor.BakingPiService.RestartExited | src/platform/baking_pi_service.cpp:526-530 | Relaunching what was reaped, each once and in order, keeps agreement, counts one restart each and drops no child |
| BakingSupervisor.BakingPiService.RetryMissing | src/platform/baking_pi_service.cpp:641-658 | Each workload without a child is tried once, in order, unless a stop comes; agreement is kept and the tries are counted |
| BakingSupervisor.BakingPiService.AppendMetricSample | src/platform/baking_pi_service.cpp:834-846 | The history is the newest 120 samples in order |
| BakingSupervisor.BakingPiService.Turn | src/platform/baking_pi_service.cpp:517-544 | One turn keeps agreement and the count; each workload reaped in it is relaunched once, or if none was each missing one, unless the cycle ends or a stop comes, and none at the end of a cycle or after a stop request |
| BakingSupervisor.BakingPiService.RunCycle | src/platform/baking_pi_service.cpp:489-549 | Flags and table agree after the launch if and only if the cycle starts with an empty table, and then at every loop head and at the end; restart_count is the number of relaunches |
| BakingSupervisor.BakingPiService.WorkerLoop | src/platform/baking_pi_service.cpp:461-573 | Over any number of cycles restart_count is the number of relaunches |
| BakingSupervisor.EraseKeeps | src/platform/baking_pi_service.cpp:709-730 | Erasing a reaped child and clearing its flag keeps the agreement of all others |
| AppConfigStore.IntegerValueExact | src/model/app_config.cpp:107-118 | A number is read as n if and only if it is exactly n and within bounds |
| AppConfigStore.ConfigIsValid | src/model/app_config.cpp:346-450 | Whatever a document holds, the configuration read from it is valid |
| AppConfigStore.RoundTrip | src/model/app_config.cpp:161-188 | What is saved for a valid configuration is accepted, complete and means that configuration |
| AppConfigStore.SurvivesIffValid | src/model/app_config.cpp:161-188 | A configuration survives saving and loading if and only if it is valid |
| AppConfigStore.AppConfigStore.ReadUart | src/model/app_config.cpp:399-412 | An unsupported rate is replaced and noted once |
| AppConfigStore.AppConfigStore.ReadLogging | src/model/app_config.cpp:414-442 | Sizes that contradict each other are both replaced and noted |
| AppConfigStore.AppConfigStore.ReadSections | src/model/app_config.cpp:358-450 | No diagnostic and no correction if and only if the document is complete |
| AppConfigStore.AppConfigStore.Save | src/model/app_config.cpp:459-470 | The file is replaced by exactly the configuration, or left |
| AppConfigStore.AppConfigStore.Load | src/model/app_config.cpp:313-457 | Always a valid configuration: the document's, or the defaults; a complete file gives no diagnostics and is not written, one with a foreign root or schema is never touched, one that is corrected reads back complete |
| AudioSamples.ScaledKeepsOrder | src/platform/audio_service.cpp:537-541 | Scaling is strictly monotone with truncating division: no two levels become equal |
| AudioSamples.ScaledFits | src/platform/audio_service.cpp:538-540 | No scaled sample leaves the range, so the clamp never acts, and the peak becomes exactly 32767 |
| AudioSamples.PeakIsMaximum | src/platform/audio_service.cpp:526-531 | The peak is reached and never exceeded |
| AudioSamples.NormalizeToFullScale | src/platform/audio_service.cpp:525-542 | In place: every sample scaled by the peak if that is between 0 and full scale, else nothing changes |
| AudioSamples.NormalizedIsFullScale | src/platform/audio_service.cpp:525-542 | The result's peak is exactly 32767 and samples keep order and sign |
| AudioSamples.NormalizeTwice | src/platform/audio_service.cpp:525-542 | Normalising again changes nothing |
| AudioSamples.FramesJoin | src/platform/audio_service.cpp:319-363 | The pieces that callbacks of any sizes deliver make up one stream |
| AudioSamples.SilentFrames | src/platform/audio_service.cpp:331-344 | From the end of the audio on the stream is silence |
| AudioSamples.PlaybackState.DataCallback | src/platform/audio_service.cpp:319-363 | A callback fills its buffer with the next frames of that stream, all indices in bounds, and completes exactly when the audio is used up |
| AudioSamples.CaptureState.DataCallback | src/platform/audio_service.cpp:286-317 | Captured samples are the first of everything given, up to the target |

## Left out

- User interface (LVGL views, dialogs, bindings, menus, screenshots, fonts): no protocol logic.
- Device access (serial ports, LIRC, I2C, SPI, GPIO, USB, audio devices, NetworkManager, BlueZ, cameras): each call is an arbitrary success, failure or data result.
- Real time and threads: clocks are arbitrary nondecreasing readings, sleeps are dropped, the number of iterations or polls within a timeout is arbitrary.
- Memory ordering of the atomics, and the window between the two atomic stores that bring the upload listener online.
- The JSON parser and printer: parsing an upload command's payload has an arbitrary result; for the configuration, printing and then parsing is taken to be the identity.
- fork, poll, waitpid, file descriptors, fsync and rename: only their abstract results.
- Log and error texts: opaque values, except where their length matters; the logger's console output and the raw duration summary of the infrared snapshot are not modelled.
- Random choice of address and commands in the infrared test: any values that meet the stated filters; what the transmitter puts on the air is not connected to what the receiver hears.
- linux/lirc.h is not part of this model: the tags of mode2 words are those of that interface.
- Unsigned wrap-around of segment, collision, revision and nesting counters: unbounded here.
- Other directories than one configured log directory, and writers other than the logger.
- CapBench.Bench.WriteRegister: a write that fails is taken to have had no effect, and both CAP channels to start on HAT, because the source cannot tell either.
- CapFixture.CapFixtureTestModel.RunUsb: enumeration, disk and HID checks are arbitrary results of the USB service.
- CapFixture.CapFixtureTestModel.RunTests: tracks the command register only; values written to other registers and readings compared with them are arbitrary results.
- FactoryUpload.FactoryUploadService.Iterate: bounds waiting by deadlines at clock readings; how long an iteration takes is not bounded.
- BakingSupervisor.BakingPiService.AppendMetricSample: only elapsed time and flags of a sample; telemetry and the JSONL file are not modelled.
- AppConfigStore.AppConfigStore.Load: numbers are reals, which is exact for the accepted range up to 2^53 - 1.
- Benchmark output parsing, network, Bluetooth and camera tests, translation, precheck counters and key tables: easy members or foreign calls.
- ShellQuoting.ReadsBackIffNoneOverlooked: a shell without assignments, reserved words, aliases and brace expansion.
- The UI sound callback, which repeats the playback callback over two sounds.
