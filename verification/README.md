# Verified model of the XBee provisioning firmware

This project models the hardware-free logic of a firmware that provisions a Digi XBee 3 radio over
a serial link, and proves what that logic promises. It covers:

- the provisioning sequence: audit, restore, write, optional review and decision, commit to flash,
  reset and verification (`Provision*.dfy`, `Provisioner.dfy`), with the command table's value
  comparison (`AtTable.dfy`) and the wrapping tick counter (`Ticks.dfy`);
- the API frame codec and its streaming parser (`Frame*.dfy`);
- the two transports and the facade over them (`ApiAnswers.dfy`, `Api.dfy`, `CmdTrace.dfy`,
  `CmdReplies.dfy`, `CmdMode.dfy`, `FacadeRouting.dfy`, `Facade.dfy`, `FacadeAnswers.dfy`);
- the byte ring between an interrupt and the super loop (`RingConcurrency.dfy`, `RingBuffer.dfy`,
  `Bits.dfy`);
- the transparent bridge and its escape sequence (`EscapeTiming.dfy`, `BridgeBooks.dfy`,
  `Bridge.dfy`);
- hexadecimal values, the command line and its help (`HexText.dfy`, `CliValue.dfy`, `CliLine.dfy`,
  `CliParser.dfy`).

Code that updates state in place is a class or a method with the source's own fields, buffers and
loops. Where a protocol is the point, a specification on values stands beside it: the methods are
proved to follow the specification, and the lemmas about whole runs are proved of the
specification. Nothing is assumed of the world: a submission may be refused, an answer may be late,
wrong or missing, a session may lapse and a write may fail at any time. Only the end-to-end results
add an honest module, which is described in `ProvisionModule.dfy`. Of it they assume that a read
fails or reports what is held, and that after the reset it comes back in the configured mode.
`FacadeAnswers.HonestUnlessOk` derives the first for a module on a Command mode line: it holds of
every value but the text OK, which reads as empty, while an empty text, the text ERROR and one of
the File System error form are merely unreadable. `ProvisionModule.ComesBackAsConfigured` derives
the second for a module whose mode is what its flash holds.

## Reading the provisioning proof

`ProvisionEngine.Process` is one pass as a function of the state and of a `World` that holds every
answer the facade, the module and the clock can give in that pass. A run is any sequence of passes,
aborts and decisions after a start (`IsRun`), and its log is what the outside can see.
`ProvisionTrace` shows that every log follows a sending discipline written down on its own, and
`ProvisionOrder` draws the consequences; `ProvisionPass` and `ProvisionReview` tie the outcome and
the review to the answers in the log; `ProvisionWrites` and `ProvisionAudit` say what is written and
why; `ProvisionTermination` bounds the run. `ProvisionModule` and `ProvisionEndToEnd` follow what a
run does to an honest module, `ProvisionForecast` says what can be known of that beforehand, and
`ProvisionWitness` shows that the runs spoken of exist. `Provisioner` is the imperative program;
each of its entry points keeps it in the run it has begun (`InRun`).

## What turned out to be conditional

- A run that has written to an honest module that answered the audit has reproduced the
  configuration in flash if and only if the restored value is the command table's default for every
  entry that is at its default in the configuration and that is unreadable or already right in the
  module (`ProvisionForecast.WrittenMatchesExactly`). An entry the audit saw differ is always written. A
  write-only key shows the failure: the run ends as written with the wrong key in flash
  (`ProvisionWitness.WrittenWithTheWrongKey`), since a verification cannot read it back either.
- In API mode 1 a frame arrives if and only if no byte after its delimiter is another delimiter.
- The facade keeps a request on one transport if and only if no forced session was being opened
  over an API mode when the request was accepted. `submit` accepts requests in that state, and
  `xbee_cmd_session_status` drops an overdue session whoever is waiting;
  `FacadeRouting.RerouteHappens` is a run that gets there. Nothing but a module reset then ends the
  request (`FacadeRouting.OnlyAResetEndsTheWait`).
- Over Command mode a text is read as it stands if and only if it is no other kind of reply line
  (`FacadeAnswers.TextIsReadExactly`).
- `tick_reached` and `guard_elapsed` agree with true time within half the counter's range, and
  from there on read as not reached.

## Model

| member | source | states |
|---|---|---|
| `ProvisionTrace.RunIsOrderly` | src/app/src/xbee_provision.c:358-1298 | in every run, whatever the facade, the module and the host do, what is sent follows the sending discipline `Next`, and the state of the engine agrees with where the discipline stands |
| `ProvisionOrder.CommandsInOrder` | src/app/src/xbee_provision.c:386-978 | commands come in five sections: audit reads, restores, writes, review reads and keep-alives, then one write to flash and verification reads |
| `ProvisionOrder.CommitAtMostOnce` | src/app/src/xbee_provision.c:386-400 | a run writes flash at most once |
| `ProvisionOrder.SecondRestoreIsTheFallback` | src/app/src/xbee_provision.c:903-919 | a second restore is RE, and only after the module refused R1 |
| `ProvisionOrder.WritesIncrease` | src/app/src/xbee_provision.c:473-508 | table writes go out in strictly increasing table order |
| `ProvisionOrder.CommitIsEarned` | src/app/src/xbee_provision.c:698-745 | in every orderly log, at the write to flash the restore and every table write sent have been acknowledged, none was refused, and a reviewing host has said save |
| `ProvisionWrites.CommitIsComplete` | src/app/src/xbee_provision.c:473-508 | in every run, in any world, what has been sent by the write to flash is a write of every entry that is not at its default or is marked as different, and of no other |
| `ProvisionAudit.MarksAreTheAudit` | src/app/src/xbee_provision.c:803-886 | in every run that is past its audit the log begins with one complete pass over the readable entries, and the marked entries are exactly those its answers contradicted |
| `ProvisionAudit.CommitFollowsTheAudit` | src/app/src/xbee_provision.c:473-508 | the two together: by the write to flash exactly the entries that are not at their default or that the audit contradicted have been written |
| `ProvisionWrites.NothingReadableNothingDone` | src/app/src/xbee_provision.c:783-798 | with nothing to read the run sends nothing but the session close, and never gets to a verification |
| `ProvisionOrder.AbortedNeverWrites` | src/app/src/xbee_provision.c:1107-1123 | once an abort is accepted the run sends no restore, write or commit, before or after |
| `ProvisionOrder.DroppedNeverCommits` | src/app/src/xbee_provision.c:519-533 | once a discard is decided nothing reaches flash, and the session is not closed, which would apply the staged values |
| `ProvisionPass.PassMeansReadBack` | src/app/src/xbee_provision.c:803-886 | a pass result rests on a complete read-back since the reset: every readable entry asked once, in table order, and no answered value other than the expected one |
| `ProvisionPass.PassAnswersFor` | src/app/src/xbee_provision.c:435-463 | in a pass every readable entry is asked for exactly once, and it is marked as different exactly if its answer contradicted the expected value |
| `ProvisionPass.AlreadyProvisionedOnlyReads` | src/app/src/xbee_provision.c:877-881 | a run that found nothing to do is one clean pass and sent nothing but reads |
| `ProvisionReview.DecisionIsInformed` | src/app/src/xbee_provision.c:579-690 | when the host is asked, the callback has run exactly once per table entry in table order, every report is true of what the module answered, and the mismatch count is the number of values kept |
| `ProvisionReview.DifferencesAreTheReviewed` | src/app/src/xbee_provision.c:656-690 | a run saved with differences kept one to eight values, of distinct entries in table order, each the one the review read, and verified against them |
| `ProvisionTermination.PassDecreases` | src/app/src/xbee_provision.c:1157-1298 | every pass waits for the world unchanged, keeps the session alive, or strictly decreases the measure |
| `ProvisionTermination.RunsAreBounded` | src/app/src/xbee_provision.c:1157-1298 | a run moves at most 26 times per table entry plus a constant, whatever the world does, and a run that nothing holds up is done after that many passes |
| `ProvisionModule.ImageHolds` | src/app/src/xbee_provision.c:473-508 | an entry of what the write pass leaves is the configured value, or the restored one where it was skipped |
| `ProvisionModule.ComesBackAsConfigured` | src/app/src/xbee_provision.c:1189-1202 | a provisioned module that comes back in the mode its flash holds comes back in the configured one, unless AP was left to another default |
| `ProvisionEndToEnd.AllOrNothing` | src/app/src/xbee_provision.c:803-978 | an honest run that is done has put the whole image of the configuration into flash, or left the stored values exactly as they were |
| `ProvisionEndToEnd.HonestRunsSucceed` | src/app/src/xbee_provision.c:803-978 | against an honest module whose defaults agree with the table for every skipped entry that can be read, the only endings are written, nothing to do, aborted and declined; written means flash matches if they agree for the unreadable ones too |
| `ProvisionEndToEnd.ProvisionsEndToEnd` | src/app/src/xbee_provision.c:803-978 | bounded number of passes, written if a read found a mismatch, and then flash equals the configuration for every entry including the unreadable ones |
| `ProvisionEndToEnd.MatchesExactlyWhenDefaultsAgree` | src/app/src/xbee_provision.c:482-488 | for any set of marked entries, what the write pass leaves matches the configuration if and only if the restored value of every skipped entry is its default in the command table |
| `ProvisionForecast.SkippedIsForeseen` | src/app/src/xbee_provision.c:477-488 | against an honest module that answers the audit a run skips exactly the entries that are at their default in the configuration and that are unreadable or already right in the module |
| `ProvisionForecast.WrittenMatchesExactly` | src/app/src/xbee_provision.c:477-508 | such a run, once it has written, has reproduced the configuration in flash if and only if the restored value of each of those entries is its default: a condition on what is known before the run |
| `ProvisionForecast.ProvisionsAsForecast` | src/app/src/xbee_provision.c:803-978 | the end-to-end theorem, on that condition: an uninterrupted run is done after a bounded number of passes, written exactly if the module could be read to deviate anywhere, with flash then equal to the configuration for every entry |
| `ProvisionWitness.SomeRunWrites` | src/app/src/xbee_provision.c:803-978 | such runs exist for every configuration and every module with readable values, and where the condition fails only for unreadable entries they end written with another configuration in flash |
| `ProvisionWitness.WrittenWithTheWrongKey` | src/app/src/xbee_provision.c:477-488 | the failing input: a write-only key configured to none, and a module whose factory default is a key; the run ends written and the key is wrong |
| `ProvisionEngine.RunBegins` | src/app/src/xbee_provision.c:1079-1102 | a start, whatever an earlier run left behind, begins a run |
| `ProvisionEngine.RunGoesOn` | src/app/src/xbee_provision.c:1107-1298 | every pass, abort and decision extends the run that was started, so the results above hold of the running firmware at every moment |
| `Provisioner.MarkAddsOne` | src/app/src/xbee_provision.c:402-417 | setting a bit of the mismatch bitmap adds that entry and no other |
| `Provisioner.Provisioner.CloseSession` | src/app/src/xbee_provision.c:358-377 | refines the specification: the session is closed first, or the run ends or goes on at once |
| `Provisioner.Provisioner.MarkMismatch` | src/app/src/xbee_provision.c:405-409 | the set of marked entries gains exactly this one |
| `Provisioner.Provisioner.IsMismatch` | src/app/src/xbee_provision.c:414-417 | whether the entry is marked |
| `Provisioner.Provisioner.StartNextRead` | src/app/src/xbee_provision.c:435-463 | the scanning loop asks for the first readable entry from a place on, or reports that there is none |
| `Provisioner.Provisioner.FindDeviation` | src/app/src/xbee_provision.c:477-488 | the scanning loop finds the first entry not at its default, or seen to differ |
| `Provisioner.Provisioner.StartNextWrite` | src/app/src/xbee_provision.c:473-508 | writes that entry, stops the run if it cannot, or reports that nothing is left |
| `Provisioner.Provisioner.StartDiscard` | src/app/src/xbee_provision.c:519-533 | resets without closing the session, or ends as a failed reset |
| `Provisioner.Provisioner.FindAccepted` | src/app/src/xbee_provision.c:540-551 | the value kept for an entry, if one was |
| `Provisioner.Provisioner.EnterDecision` | src/app/src/xbee_provision.c:579-596 | offers the decision, or discards if more differed than can be kept |
| `Provisioner.Provisioner.ReportUnreadable` | src/app/src/xbee_provision.c:610-617 | reports every unreadable entry on the way to the next readable one |
| `Provisioner.Provisioner.StartNextReview` | src/app/src/xbee_provision.c:606-633 | the review goes on to the next readable entry, or reports that it is complete |
| `Provisioner.Provisioner.RecordReview` | src/app/src/xbee_provision.c:656-683 | compares, keeps and reports one answer of the review |
| `Provisioner.Provisioner.HandleReviewResult` | src/app/src/xbee_provision.c:656-690 | one answer of the review, and what follows it |
| `Provisioner.Provisioner.ProcessDecision` | src/app/src/xbee_provision.c:710-745 | waits for the decision, keeping the session open, and acts on it |
| `Provisioner.Provisioner.StartRestore` | src/app/src/xbee_provision.c:750-778 | sends R1, or RE as fallback or by configuration |
| `Provisioner.Provisioner.StartReadPass` | src/app/src/xbee_provision.c:783-798 | begins the audit or the verification |
| `Provisioner.Provisioner.NoteMismatch` | src/app/src/xbee_provision.c:829-834 | counts a mismatch, and marks the entry during the audit only |
| `Provisioner.Provisioner.HandleReadResult` | src/app/src/xbee_provision.c:803-886 | one answer of a read pass, and what follows it |
| `Provisioner.Provisioner.HandleRestoreResult` | src/app/src/xbee_provision.c:903-931 | goes on to the writes, falls back, or stops |
| `Provisioner.Provisioner.ProcessRequest` | src/app/src/xbee_provision.c:891-978 | what a completed request leads to in each state |
| `Provisioner.Provisioner.Process` | src/app/src/xbee_provision.c:1157-1298 | one pass of the super loop does what the specification of a pass does, in state and in what the outside sees, and a run that is on goes on |
| `Provisioner.Provisioner.PrepareRun` | src/app/src/xbee_provision.c:1008-1042 | everything a run keeps is reset, or the run is stopped for its table |
| `Provisioner.Provisioner.StartRun` | src/app/src/xbee_provision.c:1079-1102 | refused while a run is on or the facade is not ready; an empty or oversized table ends it as a failed bring-up with everything else as it was; otherwise a run begins |
| `Provisioner.Provisioner.Init` | src/app/src/xbee_provision.c:1047-1074 | begins a run at boot without a review, or stops it |
| `Provisioner.Provisioner.Decide` | src/app/src/xbee_provision.c:1144-1152 | accepted exactly while a decision is awaited |
| `Provisioner.Provisioner.Abort` | src/app/src/xbee_provision.c:1107-1123 | accepted exactly before the restore, or as a discard while a decision is awaited |
| `Provisioner.Provisioner.KeepsItsPromises` | src/app/src/xbee_provision.c:1079-1298 | the object has been in a run ever since it was started, so what it has sent keeps the order and its result rests on a complete read-back |
| `AtTable.FindEntry` | src/services/src/xbee_at_table.c:307-318 | the first entry with the identifier, or none has it |
| `AtTable.DefaultsAreOneValue` | src/services/src/xbee_at_table.c:517-559 | all values that count as an entry's default are equal under the comparison |
| `AtTable.DefaultIsAClass` | src/services/src/xbee_at_table.c:517-617 | a value equal to a default is a default |
| `AtTable.EqualIsSymmetric` | src/services/src/xbee_at_table.c:564-617 | the comparison is symmetric, and reflexive where it holds at all |
| `AtTable.EqualIsTransitive` | src/services/src/xbee_at_table.c:564-617 | the comparison is transitive |
| `AtTable.BytesEqualMeansSameNumber` | src/services/src/xbee_at_table.c:591-613 | for byte parameters, equal means equal as unbounded big-endian integers |
| `AtTable.SettableIsComparable` | src/services/src/xbee_at_table.c:396-457 | a value the table lets through to be written equals itself under the comparison |
| `AtTable.CompareValues` | src/services/src/xbee_at_table.c:564-617 | the stripping loops compute the comparison |
| `AtTable.CheckDefault` | src/services/src/xbee_at_table.c:517-559 | the loop decides whether a value is the default |
| `AtTable.ReadU64` | src/utils/src/byte_util.c:272-290 | the big-endian value of at most eight bytes, longer input refused |
| `Ticks.DifferenceOfTimes` | src/app/src/xbee_provision.c:258-261 | the signed 32-bit difference of two counters is the true difference within half the range |
| `Ticks.ReachedMeansTrueTime` | src/app/src/xbee_provision.c:258-261 | a deadline is reached exactly when the true deadline is, within half the range |
| `Ticks.ElapsedMeansTrueTime` | src/app/src/xbee_bridge_escape.c:16-19 | a guard has elapsed exactly when it truly has, within half the range |
| `Ticks.HalfRangeReadsAsNotElapsed` | src/app/src/xbee_bridge_escape.c:16-19 | from half the range on the test fails: a longer gap reads as not elapsed |
| `RingConcurrency.ConsumedIsPrefix` | src/utils/src/ring_buffer.c:48-131 | under every interleaving what was handed over is a prefix of what was accepted, and at most the capacity less one waits |
| `RingConcurrency.EveryInterleavingRuns` | src/utils/src/ring_buffer.c:48-131 | no interleaving blocks or leaves the storage |
| `RingConcurrency.NoSlotWrittenWhileUnread` | src/utils/src/ring_buffer.c:57-69 | no store goes to a slot that holds an unread byte |
| `RingConcurrency.RefusalsAreTrue` | src/utils/src/ring_buffer.c:60-88 | a push is refused only when the ring is full, a pop comes back empty only when it is empty |
| `RingConcurrency.ReadTakesWhatWasThere` | src/utils/src/ring_buffer.c:100-131 | a read hands over what had been accepted when it sampled the head, up to its limit, in order |
| `RingConcurrency.CountIsExact` | src/utils/src/ring_buffer.c:136-149 | a count from an earlier sample of the head is exactly what was waiting then |
| `RingBuffer.AcceptedCapacities` | src/utils/src/ring_buffer.c:31-35 | a capacity is accepted exactly if it is a power of two from 2 to 32768 |
| `RingBuffer.Ring.Push` | src/utils/src/ring_buffer.c:48-72 | appends one byte, or refuses exactly when full |
| `RingBuffer.Ring.Pop` | src/utils/src/ring_buffer.c:77-95 | removes the oldest byte, or reports empty exactly when empty |
| `RingBuffer.Ring.Read` | src/utils/src/ring_buffer.c:100-131 | removes as many of the oldest bytes as fit, in order, and touches no more of the destination |
| `RingBuffer.Ring.Count` | src/utils/src/ring_buffer.c:136-149 | the number of bytes held |
| `RingBuffer.Ring.Free` | src/utils/src/ring_buffer.c:154-161 | the room left, one slot always kept free |
| `RingBuffer.Ring.Clear` | src/utils/src/ring_buffer.c:166-175 | empties the ring |
| `Bits.MaskIsRemainder` | src/utils/src/ring_buffer.c:58-58 | masking with a power of two less one is the remainder |
| `Bits.PowerOfTwoTest` | src/utils/src/ring_buffer.c:33-33 | the bit test holds exactly for powers of two |
| `Bits.DistanceOfPositions` | src/utils/src/ring_buffer.c:148-148 | the masked difference of two positions, negative or not, is their distance |
| `FrameCodec.AnnouncedIsWritten` | src/services/src/xbee_frame.c:148-275 | the announced length is exactly the number of frame data bytes written, at most 256 |
| `FrameCodec.DecodeInvertsWriting` | src/services/src/xbee_frame.c:280-366 | decoding inverts writing for every frame the host may send |
| `FrameCodec.RawComesBackExactlyWhenUndocumented` | src/services/src/xbee_frame.c:925-931 | a raw frame comes back as itself exactly when its type is not a documented one |
| `FrameModule.WritingInvertsDecoding` | src/services/src/xbee_frame.c:633-758 | frame data that decodes to a host frame is exactly that frame's data: nothing ignored, nothing made up |
| `FrameModule.DecodeReadsTheModule` | src/services/src/xbee_frame.c:760-923 | every module-to-host frame, laid out by an independent description, decodes to itself |
| `FrameModule.SampleRoundTrip` | src/services/src/xbee_frame.c:559-610 | a sample block is read back whole, wherever it starts, in both mask layouts |
| `FrameWire.WireFits` | src/services/inc/xbee_frame.h:71-72 | no frame the host may send needs more than 519 bytes on the wire |
| `FrameWire.NoDelimiterInside` | src/services/src/xbee_frame.c:73-101 | in API mode 2 the delimiter never appears inside a frame |
| `FrameWire.FrameArrives` | src/services/src/xbee_frame.c:1009-1096 | from any state without an escape pending a frame that fits is in progress up to its last byte, which delivers exactly its data |
| `FrameWire.FrameRoundTrip` | src/services/src/xbee_frame.c:499-546 | every frame the host may send, encoded in API mode 2, arrives and decodes to itself |
| `FrameWire.UnescapedArrivesExactlyWithoutDelimiter` | src/services/src/xbee_frame.c:1017-1025 | in API mode 1 a frame is delivered by its last byte exactly when no byte after the delimiter is another one |
| `FrameWire.FeedStaysSane` | src/services/src/xbee_frame.c:1009-1096 | the parser never waits for a delimiter with an escape pending, and a byte to be stored has a place inside the buffer |
| `FrameWire.Resynchronises` | src/services/src/xbee_frame.c:1009-1096 | after any bytes whatever, of two frames sent back to back the second is delivered intact, and the first unless an escape was pending |
| `FrameLine.Writer.Put` | src/services/src/xbee_frame.c:73-101 | one byte, escaped and counted as asked; overflow exactly when the whole does not fit |
| `FrameLine.Writer.PutBe16` | src/services/src/xbee_frame.c:106-110 | two big-endian bytes |
| `FrameLine.Writer.PutBe64` | src/services/src/xbee_frame.c:115-122 | the shifting loop writes eight big-endian bytes |
| `FrameLine.Writer.PutBlock` | src/services/src/xbee_frame.c:127-134 | a block of bytes |
| `FrameLine.Writer.PutFrame` | src/services/src/xbee_frame.c:280-366 | the fields of every frame in order, all of them covered by the checksum |
| `FrameLine.Encode` | src/services/src/xbee_frame.c:499-546 | the buffer holds exactly the wire form, or the frame is refused for its fields, its size or the capacity; nothing beyond the capacity is touched |
| `FrameLine.ComputeChecksum` | src/services/src/xbee_frame.c:371-385 | the summing loop computes the checksum |
| `FrameLine.CountBits` | src/services/src/xbee_frame.c:52-62 | clearing the lowest set bit until none is left counts the set bits |
| `FrameLine.FrameParser.Feed` | src/services/src/xbee_frame.c:1009-1096 | the parser over its buffer does what the parser on values does, and never writes outside its capacity |
| `FrameLine.FrameParser.SetEscaped` | src/services/src/xbee_frame.c:964-992 | a reset parser in the new mode |
| `Api.SomeIdIsFree` | src/services/src/xbee_api.c:168-185 | pigeonhole: fewer than 255 identifiers in flight leave one free |
| `Api.Tracker.FindSlot` | src/services/src/xbee_api.c:129-140 | the slot of a request, or a free one |
| `Api.Tracker.IdInUse` | src/services/src/xbee_api.c:146-157 | whether a tracked request has the identifier |
| `Api.Tracker.AllocateId` | src/services/src/xbee_api.c:168-185 | allocation always succeeds, with a nonzero identifier nobody has |
| `Api.Tracker.Finish` | src/services/src/xbee_api.c:190-202 | the request completes once with its result and its slot is freed; no other request changes |
| `Api.Tracker.Send` | src/services/src/xbee_api.c:428-516 | a send that fails leaves the table and every request as they were; one that succeeds puts the frame on the wire under a fresh identifier and tracks it, or completes it if nothing will answer |
| `Api.Tracker.NamesAtMostOne` | src/services/src/xbee_api.c:251-263 | a frame that names an identifier answers at most one request |
| `Api.Tracker.Deliver` | src/services/src/xbee_api.c:265-283 | the answered request holds the answer and completes, keeps collecting, or fails if the answer is too long; no other request changes |
| `Api.Tracker.Dispatch` | src/services/src/xbee_api.c:243-287 | the first request a frame is for holds it and completes, keeps collecting, or fails if the answer is too long; no other request changes; a frame for nobody changes nothing |
| `Api.Tracker.CheckDeadlines` | src/services/src/xbee_api.c:333-353 | what is due ends, collections that got answers with success, what is not due is left alone, nothing overdue stays |
| `Api.Tracker.AbortAll` | src/services/src/xbee_api.c:594-602 | the table empties and every request in it ends with the result |
| `Api.Transport.AbortAll` | src/services/src/xbee_api.c:594-608 | and the parser starts over, and the receive buffer is emptied |
| `Api.Tracker.Reclaim` | src/services/src/xbee_api.c:405-423 | a request taken back is tracked no more, and no other is affected |
| `Api.Transport.HandleFrame` | src/services/src/xbee_api.c:292-328 | an answer goes to the request it is for and leaves it as Dispatch does, any other decodable frame goes to the callback, one that cannot be decoded changes nothing |
| `Api.Transport.Process` | src/services/src/xbee_api.c:547-576 | every frame the received bytes complete goes, in order, to the request it is for or to the callback; then what is overdue ends; every request tracked before is still in flight or completed exactly once, nothing new is tracked and nothing is overdue |
| `ApiAnswers.RequestsDoNotInterfere` | src/services/src/xbee_api.c:243-287 | whatever frames arrive and whatever else is in flight, a request with an identifier ends up as if it had been the only one |
| `ApiAnswers.NamedRequestIsAnswered` | src/services/src/xbee_api.c:243-287 | a request for one answer completes in a stretch of frames exactly if one of them is for it, with the first such frame as its answer |
| `ApiAnswers.CollectionCountsAll` | src/services/src/xbee_api.c:265-283 | a collection goes on through every answer that fits and counts them all |
| `ApiAnswers.EveryRequestEndsOnce` | src/services/src/xbee_api.c:190-353 | whatever frames arrive and whenever the deadlines are looked at, nothing completes twice |
| `ApiAnswers.AnswerOnTheLineCompletes` | src/services/src/xbee_api.c:547-576 | the answer to a request, arriving whole in API mode 2, completes it and is what it holds |
| `HexText.HexRoundTrip` | src/utils/src/byte_util.c:121-204 | a value written in full reads back as itself |
| `HexText.PrintedReadsBack` | src/utils/src/byte_util.c:151-204 | a value printed without leading zeros reads back as the same number |
| `HexText.RepliesAreFaithful` | src/services/src/xbee_cmd_mode.c:759-772 | any numeric value up to eight bytes or byte value up to 65, printed and read back, is a value line and decodes to a value the comparison accepts |
| `HexText.DigitsAreAValue` | src/services/src/xbee_cmd_mode.c:154-188 | no number reads as OK, ERROR or a File System error |
| `HexText.TextComesBackExactly` | src/services/src/xbee_cmd_mode.c:154-188 | a text reads as the value it is if and only if it is not empty, not OK, not ERROR and not of the File System error form |
| `HexText.ClassifyLine` | src/services/src/xbee_cmd_mode.c:154-188 | the scanning loop classifies a reply line |
| `HexText.WriteHex` | src/utils/src/byte_util.c:121-146 | writes the text and its terminator, or refuses without touching the buffer |
| `HexText.ReadHexBytes` | src/utils/src/byte_util.c:151-204 | the digit loops decode, an odd first digit as a byte of its own |
| `HexText.ReadHex` | src/utils/src/byte_util.c:209-243 | reads a number of any length as long as its significant digits fit, and refuses exactly the larger ones |
| `HexText.ReadHex64` | src/utils/src/byte_util.c:209-243 | at the width of the firmware: exactly the numbers below 2^64 |
| `CmdTrace.EscapeFollowsSilence` | src/services/src/xbee_cmd_mode.c:599-623 | the escape characters follow the entry with nothing written in between, and only once the guard is reached |
| `CmdTrace.OpeningFollowsEscape` | src/services/src/xbee_cmd_mode.c:193-204 | a session opens only by an OK straight after the escape characters, with nothing written in between |
| `CmdTrace.SilenceIsKept` | src/services/src/xbee_cmd_mode.c:348-363 | nothing is written from the entry, or the escape characters, until the session opens or is given up |
| `CmdTrace.GuardIsKept` | src/services/src/xbee_cmd_mode.c:348-363 | in true time the escape goes out no earlier than guard plus margin after the line last carried a byte |
| `CmdMode.Session.SetParams` | src/services/src/xbee_cmd_mode.c:327-343 | parameters change only between sessions |
| `CmdMode.Session.Enter` | src/services/src/xbee_cmd_mode.c:348-363 | accepted exactly when idle; silence is measured from the sampled last transmission |
| `CmdMode.Session.WriteCommand` | src/services/src/xbee_cmd_mode.c:368-405 | the command text goes out whole and exactly, or not at all |
| `CmdMode.Session.Send` | src/services/src/xbee_cmd_mode.c:410-451 | accepted exactly in an open, quiet session; the request is then in flight |
| `CmdMode.Session.Exit` | src/services/src/xbee_cmd_mode.c:486-519 | a command in flight is completed as aborted when the session is closed under it |
| `CmdMode.Session.Abandon` | src/services/src/xbee_cmd_mode.c:524-534 | back to idle, the command in flight completed |
| `CmdMode.Session.SendData` | src/services/src/xbee_cmd_mode.c:579-594 | data goes out only outside a session |
| `CmdMode.Session.HandleReply` | src/services/src/xbee_cmd_mode.c:214-274 | a line is counted and kept as it should be, renews the session, and ends the command or not, exactly once |
| `CmdMode.Session.HandleLine` | src/services/src/xbee_cmd_mode.c:193-274 | what a line does in each state, to the session, its deadline and the command in flight |
| `CmdMode.Session.FeedByte` | src/services/src/xbee_cmd_mode.c:279-305 | a byte is collected, or ends a line, which is handled exactly as it arrived, or dropped whole if it is longer than the buffer |
| `CmdMode.Session.ProcessEntry` | src/services/src/xbee_cmd_mode.c:599-623 | the escape goes out once the guard is over and the line accepts it, and the module gets the guard time and a margin to answer |
| `CmdMode.Session.CheckDeadlines` | src/services/src/xbee_cmd_mode.c:651-700 | what each deadline ends, and that nothing ends or moves on before it |
| `CmdMode.Session.Process` | src/services/src/xbee_cmd_mode.c:628-703 | outside a session the bytes are passed on; inside one every byte is fed, then the clock is looked at; a command in flight before is still in flight or completed exactly once, none starts, none is overdue, and writes keep the discipline |
| `CmdReplies.BytesAreLines` | src/services/src/xbee_cmd_mode.c:279-305 | feeding bytes is handling, one after the other, the lines they complete: line feeds do not count, lines too long are dropped whole |
| `CmdReplies.LinesGoToTheCommand` | src/services/src/xbee_cmd_mode.c:214-274 | while a command is awaited every line is its own until one ends it, and later lines change nothing |
| `CmdReplies.FirstEndCounts` | src/services/src/xbee_cmd_mode.c:218-273 | the command is answered by the first line that ends it: the first that is not empty, with its value, or for several lines the empty one, with the lines before it counted and the last value kept |
| `CmdReplies.PassAnswers` | src/services/src/xbee_cmd_mode.c:628-703 | in one pass a command in flight gets that answer if the received bytes complete it, ends at its deadline if not, and otherwise stays in flight |
| `CmdMode.Session.SessionKeepsSilence` | src/services/src/xbee_cmd_mode.c:579-623 | of the object: nothing it has ever written lies between an entry or escape and the opening or leaving of the session |
| `CmdMode.Session.SessionKeepsGuard` | src/services/src/xbee_cmd_mode.c:348-363 | of the object: no escape it has ever sent went out before the guard was truly over |
| `FacadeRouting.InFlightIsTracked` | src/services/src/xbee.c:863-917 | in every run a request is in flight exactly while the facade tracks it, so at most one is |
| `FacadeRouting.RouteIsStableExactlyUnlessOpening` | src/services/src/xbee.c:163-166 | a request in flight is polled on the transport that carries it until it ends, whatever is called, if and only if no session was being opened over an API mode |
| `FacadeRouting.StatusCanReroute` | src/services/src/xbee.c:1519-1535 | the failing case: asking for the progress of a session past its deadline moves the route under a request in flight, and strands one that waits for the session |
| `FacadeRouting.OnlyAResetEndsTheWait` | src/services/src/xbee.c:1030-1048 | what follows from it: the Command mode transport is no longer driven, so the request waits until the module is reset, whatever else is called, and ends then |
| `FacadeRouting.RerouteHappens` | src/services/src/xbee.c:1440-1535 | and a run of three calls from a ready facade in an API mode that gets there |
| `FacadeRouting.AcceptedRequestsAreRouted` | src/services/src/xbee.c:863-917 | an accepted request starts on its route; whether it stays there is decided by the same condition at acceptance |
| `Facade.Facade.Submit` | src/services/src/xbee.c:863-917 | the checks in order, then the dispatch; refines the specification |
| `Facade.Facade.OpenSession` | src/services/src/xbee.c:1440-1470 | refused while a request is in flight or a session exists |
| `Facade.Facade.SessionStatus` | src/services/src/xbee.c:1519-1535 | progress of a session, dropped once its deadline is reached |
| `Facade.Facade.CloseSession` | src/services/src/xbee.c:1540-1562 | refused while a request is in flight |
| `Facade.Facade.HwReset` | src/services/src/xbee.c:1406-1435 | the request in flight is completed first, whether or not the pulse starts |
| `Facade.Facade.AdvanceSession` | src/services/src/xbee.c:1475-1514 | the steps of an opening session, and the return to the detected mode only with no request in flight |
| `Facade.Facade.PollRequest` | src/services/src/xbee.c:436-521 | whether the request goes on, is sent, or ends; what it ends with is `PollFrame` and `PollLine` below |
| `Facade.Facade.Process` | src/services/src/xbee.c:1023-1079 | the facade's part of a pass |
| `FacadeAnswers.ResponseIsRead` | src/services/src/xbee.c:458-476 | over frames: the response to a read, arriving byte by byte in API mode 2, gives the application the value and status in it |
| `FacadeAnswers.DigitsAreRead` | src/services/src/xbee.c:478-520 | over Command mode: a numeric value of up to eight bytes or byte value of up to 65 is read as one the comparison accepts as the same |
| `FacadeAnswers.TextIsReadExactly` | src/services/src/xbee.c:497-507 | and a text is read as it stands if and only if it does not look like another kind of line; a text OK is read as empty |
| `FacadeAnswers.TransportsAgree` | src/services/src/xbee.c:436-521 | whichever transport carries a read, from the bytes on the line to the application, it gives the value held |
| `FacadeAnswers.HonestUnlessOk` | src/services/src/xbee.c:478-520 | what a read in a session reports of the value held is honest, in the sense of the end-to-end results, if and only if that value is not the text OK |
| `FacadeAnswers.Request.StoreValue` | src/services/src/xbee.c:327-342 | the value is copied whole, or refused and nothing changes |
| `FacadeAnswers.Request.PollFrame` | src/services/src/xbee.c:458-476 | result, status and value of a request that travelled as a frame |
| `FacadeAnswers.Request.PollLine` | src/services/src/xbee.c:478-520 | and of one that travelled as a command |
| `EscapeTiming.NothingIsLost` | src/app/src/xbee_bridge_escape.c:68-154 | released bytes followed by the held ones are the bytes fed, in order, until an exit, which consumes exactly three |
| `EscapeTiming.ExitsOnlyForTheSequence` | src/app/src/xbee_bridge_escape.c:124-154 | an exit follows three escape characters with a guard time of silence before the first and after the last, however long the gaps |
| `EscapeTiming.BusyStreamsPass` | src/app/src/xbee_bridge_escape.c:83-122 | a stream without such a silence passes every byte at once and never exits |
| `EscapeTiming.TheSequenceExits` | src/app/src/xbee_bridge_escape.c:83-154 | the sequence with its silences does exit |
| `EscapeTiming.CallsStaySound` | src/app/src/xbee_bridge_escape.c:33-55 | armed exactly when three are held, and what is released always fits the output record |
| `Bridge.EscapeDetector.ReleaseHeld` | src/app/src/xbee_bridge_escape.c:44-55 | everything held goes out in order and none is dropped |
| `Bridge.EscapeDetector.Feed` | src/app/src/xbee_bridge_escape.c:68-122 | the detector over its output record does what the function does |
| `Bridge.EscapeDetector.Idle` | src/app/src/xbee_bridge_escape.c:124-154 | likewise for a look at the clock |
| `Bridge.Session.QueueForModule` | src/app/src/xbee_bridge.c:141-148 | the byte is queued if there is room and lost and counted exactly if there is none |
| `Bridge.Session.ServiceTerminal` | src/app/src/xbee_bridge.c:153-178 | every terminal byte goes through the detector in order; what is released is queued in order as far as there is room, and exactly the rest is lost |
| `Bridge.Session.ServiceModuleTx` | src/app/src/xbee_bridge.c:186-210 | on a free line the oldest bytes, up to one chunk, leave the queue; the transport takes them, or a refused write loses and counts them |
| `Bridge.Session.ServiceEscape` | src/app/src/xbee_bridge.c:236-254 | a candidate that has run out of time is released and queued, and the bridge is left exactly when the detector says so |
| `Bridge.Session.StreamIsKept` | src/app/src/xbee_bridge.c:141-254 | what the transport took and what is queued is a subsequence of the released stream, which is a prefix of the terminal's; equal to it when nothing was dropped |
| `Bridge.Session.LeftOnlyForTheSequence` | src/app/src/xbee_bridge.c:153-254 | a session is left only after the sequence with its silences, and a terminal that never pauses passes whole |
| `BridgeBooks.CountIsWrapped` | src/app/src/xbee_bridge.c:141-148 | the counters of the bridge are the true counts modulo 2^32 |
| `BridgeBooks.OfferKeeps` | src/app/src/xbee_bridge.c:141-178 | bytes offered to the queue are taken in order until it is full and lost from there on, and the books stay balanced |
| `CliLine.OneMoreWord` | src/services/src/cli_parser.c:42-78 | a word typed where a new word begins is one more word |
| `CliLine.PartialWordIsLast` | src/services/src/cli_parser.c:275-283 | a partly typed word is the last word of its line |
| `CliLine.Tokenize` | src/services/src/cli_parser.c:42-78 | after the line is overwritten each token is, as a string inside it, the word it was |
| `CliParser.FindChild` | src/services/src/cli_parser.c:95-134 | a keyword claims its word, the first argument node catches the rest |
| `CliParser.DispatchIsTheWalk` | src/services/src/cli_parser.c:194-232 | dispatch follows the walk help makes, and fails exactly where that fails or takes too many arguments |
| `CliParser.ShallowTreesFit` | src/services/src/cli_parser.c:95-232 | a tree with at most four argument nodes on every path meets the condition of the next two for every line |
| `CliParser.HelpAgreesWithDispatch` | src/services/src/cli_parser.c:275-323 | help offers a keyword exactly when a keyword claims it in the completed line, which then parses to a command or the beginning of one |
| `CliParser.ReturnMeansComplete` | src/services/src/cli_parser.c:325-331 | on a line ending on a separator, "<cr>" is offered exactly when the line parses to a command |
| `CliParser.ParseLine` | src/services/src/cli_parser.c:158-233 | tokenizing in place and walking the levels computes the dispatch of the words |
| `CliParser.HelpLine` | src/services/src/cli_parser.c:235-338 | and what help offers |
| `CliValue.TypedNumberIsKept` | src/app/src/cli_value.c:31-73 | a number is accepted exactly when it fits the parameter, and keeps its value at exactly that width |
| `CliValue.TypedBack` | src/app/src/cli_value.c:75-136 | typing a value as the module prints it, the empty one included, gives the value back, under the comparison |
| `CliValue.DefaultIsDefault` | src/app/src/cli_value.c:138-204 | what is written for the default counts as the default, exactly when the table's default fits the parameter |
| `CliValue.PutPadded` | src/app/src/cli_value.c:31-73 | the loops compute the padded value, or leave the output alone |
| `CliValue.PutDefault` | src/app/src/cli_value.c:161-177 | the shifting loop writes the default big-endian |

## Left out

- Null pointers: objects, sequences and buffers are never null, so the checks that refuse a null
  argument are not modelled, except where null is a choice the caller has (no request to track, no
  request for the exit command).
- Drivers, console output and logging: GPIO, UART, timers and the printed text. The counts of
  unreadable and of written parameters exist only to be logged, and so are not kept.
- Millisecond to tick conversion: any function, or a value the world supplies.
- ProvisionEngine.Process: the facade's own processing inside a pass belongs to the world, so the
  flag that says who drives it is not kept; the keep-alive interval is the world's.
- Frame parser and API statistics: the counters of frames sent, dropped and bad.
- Callbacks for single response frames and reply lines: the facade passes none. The unsolicited
  and review callbacks are recorded in a log and may not call back.
- FrameCodec.Decode: a block is a value of its own; that the source's points into the caller's
  buffer is not modelled.
- Default builders, prompts and status texts: single-branch readings.
- Bring-up and sleep: only where they have got to is visible to the facade; the following of a
  completed mode change may adopt any mode.
- Facade.Facade.PollRequest: whether the request ended; its result, status and value are copied in
  `FacadeAnswers`, with the transports' own requests as what is polled.
- FacadeRouting.Poll: what the transports report is an input. `FacadeAnswers` says what they report
  of bytes on the line, `OnlyAResetEndsTheWait` what follows when one of them is not driven.
- The 32-bit reading of hexadecimal text: one comparison on top of the 64-bit one.
- A Command mode reply that arrives after its command timed out: the code does not guard against
  it, and no result here needs it.
- Bridge sessions: entering, quiescing and leaving the bridge, and the stream from the module to the
  terminal, which has no buffer of its own to account for.
- The command table and the configuration as data: every result holds for any table of entries and
  any configuration. Which commands may be sent remotely or stored are single tests of flags.
- Line editing, console commands and the dump tools: second walks over the table with weaker
  promises than the provisioning sequence.
