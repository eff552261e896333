# PeachCam verification model

A Dafny model of the parts of the PeachCam thermal-camera firmware that carry state,
protocols or arithmetic, with machine-checked proofs of what they keep. Verify it with
`dafny verify dfyconfig.toml`.

| module | models |
|---|---|
| `Gf2`, `Crc16` | the CRC-16 of the Lepton command channel, against polynomial long division |
| `LeptonCamera` | the camera as a register machine on the I2C bus |
| `LeptonProtocol` | get, set and run commands, from word transfers up |
| `LeptonProtocolProperties`, `LeptonCommands` | command safety over whole runs; what run, get and set commands write and return |
| `LeptonRoundTrip`, `LeptonDamage`, `LeptonUndisturbed` | set then get; success and damage |
| `LeptonCapture`, `LeptonPalette`, `LeptonTask` | packet assembly, colour arithmetic, the capture and viewing machine |
| `LeptonSchedule` | that machine over whole runs: power, start, frame by frame, restart |
| `TaskBase` | millisecond timers, task groups, the thread loop |
| `AudioOutput`, `AudioRecording`, `RecordingFiles` | the shutter-sound ring and its interrupt; the recording and its WAV file; which files are finished |
| `UploadTask`, `UploadRequests` | the upload queue and the server state machine; what becomes of requests |
| `I2cSetting`, `I2cCommand` | the hex command parser and printer; commands from text to bus and back |
| `SlidingWindow`, `Bh1792`, `SensorTask` | moving average, debouncers, power-off delay, heart-wave ring |
| `Common` | shared types |
| `CString`, `GoogleDrive`, `JsonLexer` | the streaming reader of the access-token reply and the lexer it feeds |

Code that changes objects and arrays step by step is modelled by classes and loops. Each
such method is proved equal to a function of its inputs and the old state, and the
properties are proved of those functions, over every input, run or interleaving.

## How the outside is modelled

- The camera is an arbitrary plan from transaction numbers to reactions: which transfers
  fail and how many words still arrive, how long a command is busy, its status, its
  answers, whether it supports CRCs, and which bits of a read turn over on their way. A
  lemma about every camera value covers every such behaviour. Busy times are finite, and
  the status register is read undamaged.
- Packets, network answers, clock readings, file contents, button samples and I2C answers
  are inputs. A packet stream is finite; a capture loop that is still waiting at its end
  is reported as stalled.
- Interrupts and other threads are explicit steps: audio completions between any two
  statements of a fill that touch shared state, deliveries between any two samples of a
  copy, upload requests during an attempt.
- Integer widths are written out where they matter: 16-bit registers and CRC as bit
  vectors, wrap-around of 32-bit sums, the int conversion of elapsed time. `char` is
  unsigned on this target. C division is modelled with its rounding toward zero.

## Where the code does not do what it should

Each of these is a lemma or a precondition of the model, not a change to the code.

- A get of more than 1024 words reads no data and can still return success
  (`OversizedFetch`, `OversizedGetSucceeds`).
- A fill of the sound ring that starts with the ring full overruns the driver's queue
  (`FullEntryOverruns`). A second TriggerOn during a longer sound gets there, because
  every completed buffer is refilled at once (`FullEntryReachable`).
- A completion of the only buffer in flight between `audio.write` and the index step is
  taken for the end of the sound (`LoneCompletionMiscounts`). In all safe runs the end of
  the sound is never signalled (`RunKeepsExact`).
- An upload attempt on an empty queue queues an empty name (`EmptyAttemptQueuesEmptyName`).
- The palette index does not fit eight bits for pixels outside the spotmeter's range, and
  the default colours leave 0..255 from 2^14 on (`IndexFits`, `RainbowFits`).
- A wait-forever timer becomes 0 at the next wake-up (`ForeverEndsAtNextWake`).
- The heart-wave sum keeps what was in it at power on (`SumIsRightIff`). The PowerOn
  handler assigns in its condition, so it resets in every state; the model follows that.
- In the token reader a value of the wrong kind for a known key, or an unknown key whose
  value is the name of a known one, makes the next value of that key's kind that key's
  value (`NotPlainMisread`, `PlainIffReadRight`).
- A word of the wrong length or an unfinished number is not ended by its delimiter: the
  lexer reports an error, which the callback ignores, and stays inside the literal
  (`LiteralEndsIff`). Some such replies set no field at all (`BadWordFreezes`). A word of
  the right length with wrong letters is accepted.
- An input buffer goes back to the driver before it is copied. When the driver fills it
  again during the copy the recording holds the new samples from there on, which is right
  only where they agree with the old ones (`RefilledRightIff`); a run that ends in a wrong
  file is `SpoiledRecording`.
- A TriggerOn or PowerOn during a recording ends it without finishing its file, which keeps
  its zero sizes (`FinishedIff`).
- After a successful upload, and when the server is found, names that are still queued wait
  for the next request (`NoAttemptWithoutRequest`).
- A read command for no bytes that works calls the printer with length 0, and the printer
  tests the length only after each byte (`RunsOffIff`).
- Four branches are dead and proved so: the "no packet" exit after the capture loop
  (`CompleteHasPacket`) and the three re-detection branches of the upload machine
  (`ReDetectionIsDead`, if a successful query gives a specified address).

## Model

| member | source | states |
|---|---|---|
| Gf2.RegisterDivides | FLIR_Lepton/src/crc16fast.c:98-101 | the bit-by-bit division register computes the schoolbook remainder modulo x^16+x^12+x^5+1, for every start value and bit string |
| Gf2.EncodeIsRemainder | FLIR_Lepton/src/crc16fast.c:98-101 | the encoding register (bits entering at the top, start value 0) computes the remainder of the message times x^16, as section 2 of ITU-T Recommendation V.41 defines the check bits |
| Crc16.FeedIsXPow | FLIR_Lepton/src/crc16fast.c:59-101 | one table step on a byte is eight multiplications by x modulo the generator: all 256 table entries are right |
| Crc16.FeedIsEncode | FLIR_Lepton/src/crc16fast.c:98-101 | one table step equals eight steps of the encoding register on the bits of the byte, most significant first |
| Crc16.CrcIsRemainder | FLIR_Lepton/src/crc16fast.c:133-144 | for every message the table-driven CRC is the remainder of long division of message * x^16 by the generator |
| Crc16.CalcCRC16Words | FLIR_Lepton/src/crc16fast.c:109-126 | the do-while loop over words returns the CRC of their bytes, low byte first |
| Crc16.WordBytesValues | FLIR_Lepton/src/crc16fast.c:109-126 | the bytes meant are the lower half of each word, then its upper half |
| Crc16.CalcCRC16Bytes | FLIR_Lepton/src/crc16fast.c:133-144 | the do-while loop over bytes returns the CRC of those bytes |
| Crc16.CrcLinear | FLIR_Lepton/src/crc16fast.c:133-144 | the CRC of the xor of two messages of equal length is the xor of their CRCs |
| Crc16.CrcResidue | FLIR_Lepton/src/crc16fast.c:133-144 | a message followed by its CRC, high byte then low byte, has CRC 0 |
| Crc16.FeedInjective | FLIR_Lepton/src/crc16fast.c:98-101 | for a fixed byte the table step is injective in the register |
| Crc16.FeedTwoInjective | FLIR_Lepton/src/crc16fast.c:98-101 | two table steps from one register are injective in the pair of bytes |
| Crc16.BurstDetected | FLIR_Lepton/src/crc16fast.c:133-144 | two messages that differ only inside two consecutive bytes have different CRCs |
| Crc16.DamagedWordDetected | FLIR_Lepton/src/crc16fast.c:109-126 | two word sequences that differ in exactly one word have different CRCs |
| Crc16.DistanceParity | FLIR_Lepton/src/crc16fast.c:98-101 | the parity of the CRCs' difference is the parity of the number of differing bits |
| Crc16.OddErrorDetected | FLIR_Lepton/src/crc16fast.c:133-144 | two messages that differ in an odd number of bits have different CRCs |
| LeptonCamera.AreasFit | FLIR_Lepton/src/LEPTON_I2C_Reg.h:101-123 | the 16 data registers end exactly at the CRC register and the 1024 words of the block buffer end exactly at 0x10000 |
| LeptonCamera.AreaFits | FLIR_Lepton/src/LEPTON_I2C_Protocol.c:253-273 | for every count up to 1024 the chosen area holds the words and meets neither the length nor the CRC register |
| LeptonCamera.SwapRestores | HoikuCamApp/src/Lepton.cpp:1120-1123 | swapping the host's little-endian view of a word received high byte first gives the word |
| LeptonProtocol.WireRoundTrip | HoikuCamApp/src/Lepton.cpp:1148-1152 | words written high byte first and decoded by the device are the same words |
| LeptonProtocol.PacketDecodes | HoikuCamApp/src/Lepton.cpp:1144-1152 | a write packet decodes to its sub-address and its words |
| LeptonProtocol.PacketBytes | HoikuCamApp/src/Lepton.cpp:1144-1152 | on the wire the sub-address and every word go with their upper half first |
| LeptonProtocol.SwapInPlace | HoikuCamApp/src/Lepton.cpp:1120-1123 | the loop swaps exactly the first count words of the buffer in place |
| LeptonProtocol.MasterReadData | HoikuCamApp/src/Lepton.cpp:1094-1126 | a word read uses the caller's buffer for the address, then fills it with the device's words, byte order restored; on a bus error the buffer keeps what was left in it |
| LeptonProtocol.MasterWriteData | HoikuCamApp/src/Lepton.cpp:1128-1161 | a word write hands the device exactly the words, high byte first, and reports a bus error |
| LeptonProtocol.MasterReadRegister | HoikuCamApp/src/Lepton.cpp:1163-1191 | a register read gives the device's word or the bus error |
| LeptonProtocol.MasterWriteRegister | HoikuCamApp/src/Lepton.cpp:1193-1219 | a register write is a one-word write |
| LeptonProtocol.WaitWhileBusy | FLIR_Lepton/src/LEPTON_I2C_Protocol.c:178-193 | the busy loop ends on every camera and leaves the camera idle or reports the failed read |
| LeptonProtocol.WaitCounting | FLIR_Lepton/src/LEPTON_I2C_Protocol.c:315-337 | the counting busy loop: same, or a timeout |
| LeptonProtocol.LepGetAttribute | FLIR_Lepton/src/LEPTON_I2C_Protocol.c:160-295 | the get: wait, length, command, wait, status, area by length, CRC gate; equal to the specified result and final camera on every camera |
| LeptonProtocol.LepSetAttribute | FLIR_Lepton/src/LEPTON_I2C_Protocol.c:298-428 | the set: counting wait, data area by length or range error, length, command, wait, status |
| LeptonProtocol.LepRunCommand | FLIR_Lepton/src/LEPTON_I2C_Protocol.c:431-523 | the run command: wait, length 0, command, wait, status |
| LeptonProtocol.FetchData | FLIR_Lepton/src/LEPTON_I2C_Protocol.c:251-294 | data and CRC reading after a successful command, including the count above 1024 that reads nothing |
| LeptonProtocolProperties.StatusCodeMeaning | FLIR_Lepton/src/LEPTON_I2C_Protocol.c:243-249 | the decoded status is LEP_OK exactly when the high byte is 0, else that byte minus 256 |
| LeptonProtocolProperties.TimeoutCondition | FLIR_Lepton/src/LEPTON_I2C_Protocol.c:315-337 | a set's ready wait times out exactly when its first 1000 status reads all found the camera busy and the next read succeeded |
| LeptonProtocolProperties.PollBound | FLIR_Lepton/src/LEPTON_I2C_Protocol.c:307-337 | it completes at most 1001 status reads, exactly that many on a timeout |
| LeptonProtocolProperties.IssueWrites | FLIR_Lepton/src/LEPTON_I2C_Protocol.c:198-218 | length then command, nothing else, each to an idle camera; stopped by the first failing write |
| LeptonProtocolProperties.SetWriteOrder | FLIR_Lepton/src/LEPTON_I2C_Protocol.c:339-388 | a set writes the data, then the length, then the command; success means all three complete, failure leaves a beginning of them |
| LeptonProtocolProperties.CallIsIdle | FLIR_Lepton/src/LEPTON_I2C_Protocol.c:160-523 | a single call, failed or not, writes only while the camera is idle |
| LeptonProtocolProperties.NoWriteWhileBusy | FLIR_Lepton/src/LEPTON_I2C_Protocol.c:160-523 | over every run of driver calls no write, in particular no command, reaches a busy camera |
| LeptonRoundTrip.PollFinishes | FLIR_Lepton/src/LEPTON_I2C_Protocol.c:224-240 | waiting for the busy bit brings the command to its end, and the status read is that command's |
| LeptonRoundTrip.IssueFinishes | FLIR_Lepton/src/LEPTON_I2C_Protocol.c:373-418 | a command whose result is LEP_OK has run on exactly the memory that was prepared for it |
| LeptonRoundTrip.SetStores | FLIR_Lepton/src/LEPTON_I2C_Protocol.c:298-428 | after a successful set the camera's attribute holds exactly the words given |
| LeptonRoundTrip.FetchOutcome | FLIR_Lepton/src/LEPTON_I2C_Protocol.c:253-294 | reading the words of up to 1024 gives LEP_OK exactly when its four transactions are acknowledged and the CRC word that arrives is 0 or the CRC of the words that arrive, whatever damage they took |
| LeptonRoundTrip.GetOutcome | FLIR_Lepton/src/LEPTON_I2C_Protocol.c:160-295 | the same for a whole get: which bus and camera behaviour makes it LEP_OK, as an if-and-only-if, and which words it then delivers |
| LeptonRoundTrip.LostCrcRead | FLIR_Lepton/src/LEPTON_I2C_Protocol.c:274-294 | a get whose read of the CRC register fails never returns LEP_OK, although the unread value goes through the comparison |
| LeptonRoundTrip.DetectableRefused | FLIR_Lepton/src/LEPTON_I2C_Protocol.c:274-289 | words damaged in exactly one word, or in an odd number of bits, never have the CRC of the words stored |
| LeptonRoundTrip.DamageRefused | FLIR_Lepton/src/LEPTON_I2C_Protocol.c:160-295 | a whole get whose words were so damaged on their way returns LEP_CHECKSUM_ERROR whenever its reads were acknowledged and the CRC word arrived intact and is not 0 |
| LeptonDamage.DamageHappens | FLIR_Lepton/src/LEPTON_I2C_Protocol.c:160-295 | a concrete camera and get that meet the conditions of DamageRefused |
| LeptonRoundTrip.GetReturns | FLIR_Lepton/src/LEPTON_I2C_Protocol.c:160-295 | a successful get delivers exactly the words the camera holds for the attribute, unless they took damage the CRC is not certain to show |
| LeptonRoundTrip.CallHolds | FLIR_Lepton/src/LEPTON_I2C_Protocol.c:160-523 | a call that does not address the attribute, failed or not, leaves its value, also with a command still running |
| LeptonRoundTrip.SetThenGet | FLIR_Lepton/src/LEPTON_I2C_Protocol.c:160-428 | set then get returns what was set: every attribute, every length 0..1024, every camera, with any run of other calls between, and any damage to the words except what the CRC is not certain to show |
| LeptonUndisturbed.CountingWorksIff | FLIR_Lepton/src/LEPTON_I2C_Protocol.c:315-337 | on a camera that acknowledges everything the counting wait works if and only if fewer than 1000 status reads will find it busy |
| LeptonUndisturbed.IssueWorks | FLIR_Lepton/src/LEPTON_I2C_Protocol.c:373-418 | on a bus and camera in order every command completes with LEP_OK, however long it takes |
| LeptonUndisturbed.FetchWorks | FLIR_Lepton/src/LEPTON_I2C_Protocol.c:253-294 | on a bus and camera in order reading the words gives LEP_OK or LEP_CHECKSUM_ERROR as the CRC register says, and the words stored |
| LeptonUndisturbed.GetWorks | FLIR_Lepton/src/LEPTON_I2C_Protocol.c:160-295 | a get of up to 1024 words succeeds on a bus and camera in order |
| LeptonUndisturbed.SetWorksIff | FLIR_Lepton/src/LEPTON_I2C_Protocol.c:298-428 | a set of up to 1024 words then succeeds if and only if the camera is ready in time |
| LeptonUndisturbed.SetThenGetWorks | FLIR_Lepton/src/LEPTON_I2C_Protocol.c:160-428 | the round trip without assuming success: both calls return LEP_OK and the words come back |
| LeptonCommands.RunWriteOrder | FLIR_Lepton/src/LEPTON_I2C_Protocol.c:466-513 | a run command that returns LEP_OK has written length 0 and then the command, each to an idle camera, and nothing else; one that fails has written a beginning of that |
| LeptonCommands.RunOutcome | FLIR_Lepton/src/LEPTON_I2C_Protocol.c:435-523 | its exact result: LEP_OK if and only if the camera became ready, both writes were acknowledged, the second wait worked and the high byte of the status is 0; otherwise that byte minus 256, or the bus error |
| LeptonCommands.RunLeaves | FLIR_Lepton/src/LEPTON_I2C_Protocol.c:435-523 | a successful run command has been carried out: the attributes are those its reaction leaves |
| LeptonCommands.RunWorks | FLIR_Lepton/src/LEPTON_I2C_Protocol.c:435-523 | on a bus and camera in order every run command succeeds, makes both writes and is carried out |
| LeptonCommands.GetWriteOrder | FLIR_Lepton/src/LEPTON_I2C_Protocol.c:198-218 | a get writes the length and then the command, and nothing else; success means both |
| LeptonCommands.SetTooLong | FLIR_Lepton/src/LEPTON_I2C_Protocol.c:339-364 | a set of more than 1024 words writes nothing: LEP_RANGE_ERROR once the camera is ready, else the code of the wait |
| LeptonCommands.SetWaitLimits | FLIR_Lepton/src/LEPTON_I2C_Protocol.c:311-337 | a set gives up exactly when its first 1000 status reads all found the camera busy and one more read works, after 1001 reads |
| LeptonCommands.SetTimesOut | FLIR_Lepton/src/LEPTON_I2C_Protocol.c:311-337 | a set that gives up returns LEP_TIMEOUT_ERROR and writes nothing |
| LeptonRoundTrip.OversizedFetch | FLIR_Lepton/src/LEPTON_I2C_Protocol.c:253-289 | above 1024 words no data is read; the result is LEP_OK exactly when the CRC register holds 0 or the CRC of the old buffer |
| LeptonRoundTrip.OversizedGetSucceeds | FLIR_Lepton/src/LEPTON_I2C_Protocol.c:253-294 | a concrete get of 1025 words that reports success and leaves the buffer as it was |
| LeptonCapture.SwapGivesPixel | HoikuCamApp/src/Lepton.cpp:824-825 | the swapped host word is the pixel the camera sent |
| LeptonCapture.RowsIncrease | HoikuCamApp/src/Lepton.cpp:780-857 | accepted rows strictly increase and stay inside the frame |
| LeptonCapture.AcceptedLoopEnds | HoikuCamApp/src/Lepton.cpp:780-857 | after the first accepted packet every iteration advances the row: the frame completes after exactly the remaining rows, and is never abandoned |
| LeptonCapture.FrameOutcome | HoikuCamApp/src/Lepton.cpp:780-857 | for every packet stream: the first decisive packet alone decides whether the frame is abandoned or started, on which row, and how many packets it takes |
| LeptonCapture.WaitsForDecisive | HoikuCamApp/src/Lepton.cpp:780-818 | a stream without a decisive packet keeps the loop waiting with nothing stored |
| LeptonCapture.CompleteHasPacket | HoikuCamApp/src/Lepton.cpp:859-863 | a completed frame has an accepted packet, so the exit after the loop is unreachable for a positive frame size |
| LeptonCapture.FrameStores | HoikuCamApp/src/Lepton.cpp:791-857 | which packets are stored, from the header bytes alone: after the first accepted one every packet takes a row, and is stored there if and only if it is no discard and its id differs from that of the packet stored last |
| LeptonCapture.AllStored | HoikuCamApp/src/Lepton.cpp:791-857 | in a stream without discards whose neighbours have different ids every packet is stored |
| LeptonCapture.OrdinaryFrame | HoikuCamApp/src/Lepton.cpp:791-857 | a frame that starts on row 0, without discards and with neighbouring ids different, completes after exactly its own packets, and packet r is stored on row r, for every row, telemetry included |
| LeptonCapture.PaintedPixel | HoikuCamApp/src/Lepton.cpp:819-840 | each pixel of the picture is decided by the placement on its row, or unchanged |
| LeptonCapture.CapturedImage | HoikuCamApp/src/Lepton.cpp:819-857 | for every packet stream the header words never change, row r lands byte-swapped at image row 59-r, and nothing else changes |
| LeptonCapture.OrdinaryPicture | HoikuCamApp/src/Lepton.cpp:819-857 | the picture of an ordinary frame: pixel c of packet r, high byte first, is image word 35 + 80*(59-r) + c |
| LeptonTask.LeptonTask.StoreRow | HoikuCamApp/src/Lepton.cpp:819-840 | the inner loop writes exactly one image row, in bounds |
| LeptonTask.LeptonTask.CaptureFrame | HoikuCamApp/src/Lepton.cpp:777-857 | the in-place loop ends as the packet stream decides and leaves the picture and telemetry rows that the accepted packets describe |
| LeptonTask.TelemetryRows | HoikuCamApp/src/Lepton.cpp:841-855 | rows 60, 61 and 62 are kept as telemetry records 0, 1 and 2 |
| LeptonTask.TelemetryKept | HoikuCamApp/src/Lepton.cpp:841-855 | a telemetry record changes only when its own row arrives |
| LeptonTask.LeptonTask.CaptureStep | HoikuCamApp/src/Lepton.cpp:776-872 | state Capture: abandoned frames count and resynchronise at 10000, completed ones go on to UpdateParam with the spotmeter's range |
| LeptonTask.LeptonTask.ProcessEvent | HoikuCamApp/src/Lepton.cpp:737-747 | the two power signals, the second winning |
| LeptonTask.LeptonTask.Show | HoikuCamApp/src/Lepton.cpp:923-1025 | the whole screen after Viewing: every picture pixel shaded, every other pixel unchanged |
| LeptonTask.LeptonTask.Process | HoikuCamApp/src/Lepton.cpp:749-1050 | one call of Process: the whole new state of scheduler, picture, telemetry rows and screen |
| LeptonTask.ReachableInv | HoikuCamApp/src/Lepton.cpp:737-1050 | in every reachable state a capture starts with fewer than 10000 abandoned frames and fewer than 750 completed ones |
| LeptonTask.InitialInv | HoikuCamApp/src/Lepton.cpp:46-75 | the state the constructor leaves satisfies the invariant that every run keeps |
| LeptonTask.StepBurnsFuel | HoikuCamApp/src/Lepton.cpp:797-871 | every zero-delay step lowers the termination measure or sets a timer |
| LeptonTask.ZeroDelayBound | HoikuCamApp/src/Lepton.cpp:749-1050 | between events at most 10000 - async + 2 consecutive calls from a capture find a zero timer |
| LeptonSchedule.OnAsSignalled | HoikuCamApp/src/Lepton.cpp:737-1050 | over every run the task is on if and only if the last power signal was PowerOn, PowerOff winning when both come together |
| LeptonSchedule.GoesOff | HoikuCamApp/src/Lepton.cpp:743-1049 | after PowerOff the next call switches off, with timer -1 and everything else kept |
| LeptonSchedule.Waits | HoikuCamApp/src/Lepton.cpp:758-759 | while its timer runs the task only waits, however often it is called and in whatever portions the time passes |
| LeptonSchedule.StartsUp | HoikuCamApp/src/Lepton.cpp:739-775 | from every state: PowerOn, a call, 750 ms, a call and 1 ms lead to a capture that is due, with both counters at 0; from the constructor's state for 60 packets a frame |
| LeptonSchedule.NoCaptureBefore | HoikuCamApp/src/Lepton.cpp:739-775 | no run captures or shows anything earlier than 751 ms after being off or told to start |
| LeptonSchedule.FrameAbandoned | HoikuCamApp/src/Lepton.cpp:797-815 | an abandoned frame is tried again at once, and the 10000th restarts the camera after 750 ms |
| LeptonSchedule.FrameUpForViewing | HoikuCamApp/src/Lepton.cpp:776-921 | a completed frame goes through UpdateParam to Viewing, with the frame size that the telemetry answer leaves |
| LeptonSchedule.FrameShown | HoikuCamApp/src/Lepton.cpp:776-1039 | below the 750th frame: complete, updated, shown once, and 100 ms later the next capture is due |
| LeptonSchedule.LastFrameShown | HoikuCamApp/src/Lepton.cpp:776-1039 | from the 750th on the restart follows instead, 750 ms later |
| LeptonSchedule.FramesShown | HoikuCamApp/src/Lepton.cpp:776-1039 | any number of frames below the 750th, one after the other, are all captured and shown, and the next capture is due |
| LeptonSchedule.ShownOnce | HoikuCamApp/src/Lepton.cpp:737-1050 | over every run no frame is shown twice or without being complete, and without a power signal every completed frame is shown exactly once, before the next capture |
| LeptonSchedule.CountersCount | HoikuCamApp/src/Lepton.cpp:770-871 | between two restarts the counters are the numbers of completed and of abandoned frames |
| LeptonSchedule.ResetExactly | HoikuCamApp/src/Lepton.cpp:770-1039 | after a restart a call goes to Resets, other than from PowerOn, if and only if it shows a frame when 750 have been completed or abandons the 10000th |
| LeptonSchedule.FrameSizeFollows | HoikuCamApp/src/Lepton.cpp:902-911 | over every run the frame size is that of the last telemetry request answered: 63 with telemetry, 60 without |
| LeptonTask.UprightOnScreen | HoikuCamApp/src/Lepton.cpp:819-1025 | from the wire to the screen: sensor row r, column c is shown at line 212+r, column 399+c |
| LeptonPalette.RangeOf | HoikuCamApp/src/Lepton.cpp:924-935 | the range in use is never narrower than 256 |
| LeptonPalette.RangeCentred | HoikuCamApp/src/Lepton.cpp:924-934 | a range of 256 or more is used as it is; a narrower one is widened to 256 around its middle, but not below 0 |
| LeptonPalette.IndexIs | HoikuCamApp/src/Lepton.cpp:935-947 | from the lower end upward the index is the part of 255.9 that the value has gone through the range, rounded down |
| LeptonTask.PaletteEnds | HoikuCamApp/src/Lepton.cpp:941-962 | modes 0 to 2 take entry 0 of their own palette at the minimum, entry 255 at the maximum, and an entry that is not cut for every value between; other modes use neither palette nor range |
| LeptonPalette.IndexFits | HoikuCamApp/src/Lepton.cpp:947 | the palette index fits eight bits if and only if the value lies in a stated window around the range |
| LeptonPalette.IndexOfMeasured | HoikuCamApp/src/Lepton.cpp:926-947 | every value between minimum and maximum has an index in 0..255, widened ranges included |
| LeptonPalette.IndexOfOutlier | HoikuCamApp/src/Lepton.cpp:867-947 | concrete values outside the spotmeter's range whose index is 999, or negative |
| LeptonPalette.IndexMonotone | HoikuCamApp/src/Lepton.cpp:947 | the index is monotone in the value |
| LeptonPalette.IndexEnds | HoikuCamApp/src/Lepton.cpp:926-947 | with a range of 256 or more the minimum has index 0 and the maximum 255 |
| LeptonPalette.FloatIndexOfMeasured | HoikuCamApp/src/Lepton.cpp:926-947 | with 255.9f and float rounding, for every rounding that keeps order and has a relative error of at most 2^-24, measured values still have an index in 0..255 |
| LeptonPalette.FloatIndexFits | HoikuCamApp/src/Lepton.cpp:935-947 | and the ends of the range still have the indices 0 and 255 |
| LeptonPalette.FloatIndexMonotone | HoikuCamApp/src/Lepton.cpp:935-947 | and the index is still monotone |
| LeptonPalette.RainbowFits | HoikuCamApp/src/Lepton.cpp:964-1018 | the default colours have all channels in 0..255 if and only if the value is below 2^14 |
| LeptonPalette.RainbowTable | HoikuCamApp/src/Lepton.cpp:964-1014 | for every value and each of the six sextants of the hue: which channel is the least, which the greatest, and what the third one is |
| LeptonPalette.NormalisedIsIdentity | HoikuCamApp/src/Lepton.cpp:1015-1017 | the final scaling changes nothing |
| LeptonPalette.FieldsDoNotOverlap | HoikuCamApp/src/Lepton.cpp:1022 | channels in 0..255 give an opaque pixel whose fields are the upper halves of the channels |
| TaskBase.EarliestIsMinimum | HoikuCamApp/src/TaskBase.cpp:72-84 | GetTimer is the minimum with -1 as infinity, and -1 exactly when all timers are |
| TaskBase.NestedTimer | HoikuCamApp/src/TaskBase.cpp:72-84 | a nested group has the timer of its flattened list |
| TaskBase.NestedProgress | HoikuCamApp/src/TaskBase.cpp:86-92 | progress commutes with flattening, so that stays true as time passes |
| TaskBase.NoDrift | HoikuCamApp/src/TaskBase.cpp:145-169 | over every run a timer that is not rewritten sees exactly now/1000 - start/1000, however many wake-ups lie between |
| TaskBase.DeadlineConstant | HoikuCamApp/src/TaskBase.cpp:31-36 | clock plus timer is constant until the timer fires |
| TaskBase.ForeverEndsAtNextWake | HoikuCamApp/src/TaskBase.cpp:31-36 | a timer of -1 becomes 0 at the next wake-up |
| TaskBase.SetAtWake | HoikuCamApp/src/TaskBase.cpp:161-168 | at the wake-up that sets it a timer is what it was set to: time gone by before does not count against it |
| TaskBase.SetTimerRunsDown | HoikuCamApp/src/TaskBase.cpp:145-169 | over every run a timer last set to v, by Process or else by the event handler, is v run down by the milliseconds since that wake-up; set to -1 it is 0 from the next wake-up on |
| TaskBase.WaitKeepsDeadlines | HoikuCamApp/src/TaskBase.cpp:145-161 | over every run whose wake-ups come within the waits asked for, in microseconds, a timer left alone is never cut off at 0: it has run down by exactly the milliseconds gone by |
| TaskBase.ShortWait | HoikuCamApp/src/TaskBase.cpp:72-92 | a wait of exactly GetTimer milliseconds makes some timer due |
| TaskBase.Task.Progress | HoikuCamApp/src/TaskBase.cpp:31-36 | one timer goes down by the elapsed time, not below 0 |
| TaskBase.Tasks.GetTimer | HoikuCamApp/src/TaskBase.cpp:72-84 | the loop over tasks and nested groups returns the earliest timer of all tasks below |
| TaskBase.Tasks.Progress | HoikuCamApp/src/TaskBase.cpp:86-92 | every task below, at any depth, progresses once |
| TaskBase.Tasks.ProcessEvent | HoikuCamApp/src/TaskBase.cpp:94-100 | any task below may set its own timer while it handles an event; the others are unchanged |
| TaskBase.Tasks.Process | HoikuCamApp/src/TaskBase.cpp:102-108 | the same while it is processed |
| TaskBase.TaskThread.Loop | HoikuCamApp/src/TaskBase.cpp:137-169 | the thread loop: final clock and timers, and every wait asked for, until a status that ends it |
| TaskBase.WaitsAre | HoikuCamApp/src/TaskBase.cpp:145-152 | every wait is the earliest timer left by the run up to it |
| TaskBase.LiveIs | HoikuCamApp/src/TaskBase.cpp:152-157 | the loop answers the wake-ups before the first whose status ends it |
| AudioOutput.RunKeepsExact | HoikuCamApp/src/MediaTask.cpp:228-299 | under every interleaving of TriggerOn, fills and completions whose fills start with room and in which no lone buffer completes before its index step, the buffers in flight are exactly ridx..widx-1, at most 7, in order, and what is in flight is what was handed over |
| AudioOutput.NeverRewritesInFlight | HoikuCamApp/src/MediaTask.cpp:256-299 | no step of the thread writes into a buffer still in flight |
| AudioOutput.TriggerKeeps | HoikuCamApp/src/MediaTask.cpp:265-272 | TriggerOn keeps the ring exact, and a fill after it is safe exactly when the sound cannot be opened or the ring is not full |
| AudioOutput.RunKeepsSound | HoikuCamApp/src/MediaTask.cpp:280-298 | between two TriggerOn, under every interleaving, safe or not, handed-over blocks plus the block underway plus the rest of the file stay the same |
| AudioOutput.LastTriggerDecides | HoikuCamApp/src/MediaTask.cpp:265-298 | over any run: what is handed over and still to come is what was handed over before the last TriggerOn, then its whole sound |
| AudioOutput.WholeSoundPlayed | HoikuCamApp/src/MediaTask.cpp:228-299 | a safe run that has drained has played what was handed over before the last TriggerOn and then its whole sound, block by block, in order, unchanged |
| AudioOutput.BlocksAre | HoikuCamApp/src/MediaTask.cpp:280-294 | the blocks of a sound are its bytes in order, 2048 to a block, and zeros behind the last one |
| AudioOutput.BlocksSuffice | HoikuCamApp/src/MediaTask.cpp:280-294 | and as many as its length needs |
| AudioOutput.StepExactIffSafe | HoikuCamApp/src/MediaTask.cpp:228-299 | from an exact ring a step leads to an exact ring if and only if it is neither of the two bad interleavings |
| AudioOutput.AlwaysExactIffSafe | HoikuCamApp/src/MediaTask.cpp:228-299 | the ring is exact all along a run if and only if the run contains neither of them |
| AudioOutput.FullEntryOverruns | HoikuCamApp/src/MediaTask.cpp:278-298 | every fill entered on a full ring with sound left overfills the driver's queue and points the write index at a buffer in flight |
| AudioOutput.FullEntryReachable | HoikuCamApp/src/MediaTask.cpp:256-299 | from the initial ring: TriggerOn, the first fill, any number n of completions each refilled from a sound of more than 6+n blocks, and a second TriggerOn lead by a safe run to a full ring about to be filled |
| AudioOutput.RefillsStayFull | HoikuCamApp/src/MediaTask.cpp:228-299 | while the sound lasts, each completion and the fill it asks for lead from a full ring to a full ring |
| AudioOutput.LoneCompletionReachable | HoikuCamApp/src/MediaTask.cpp:256-296 | any sound leads from the initial ring, by a safe run, to a lone buffer in flight before its index step |
| AudioOutput.LoneCompletionMiscounts | HoikuCamApp/src/MediaTask.cpp:228-236 | the only buffer completing before its index step is taken for the end of the sound and leaves the indices wrong |
| AudioOutput.AudioOut.AudioWriteEnd | HoikuCamApp/src/MediaTask.cpp:228-244 | the completion callback |
| AudioOutput.AudioOut.StartShutter | HoikuCamApp/src/MediaTask.cpp:277-299 | the do-while fill, interrupted by any number of completions before fread, zero fill, write, index increment and index fold, is a run of the state machine |
| AudioOutput.AudioOut.ProcessEvent | HoikuCamApp/src/MediaTask.cpp:256-299 | TriggerOn, whether or not the file opens, and StartShutter together are such a run |
| AudioRecording.AudioIn.OnStart | HoikuCamApp/src/MediaTask.cpp:188-192 | all 16 buffers go to the driver |
| AudioRecording.AudioIn.AudioReadEnd | HoikuCamApp/src/MediaTask.cpp:198-226 | a filled buffer moves from driver to mail list with its samples; none is lost or doubled, and no waiting buffer is overwritten |
| AudioRecording.AudioIn.ProcessEvent | HoikuCamApp/src/MediaTask.cpp:246-312 | every signal combination: a TriggerOn whose file opens writes the header and starts the count at 0, any TriggerOn drops the handle of an earlier file; the life of the files follows RecordingFiles |
| AudioRecording.AudioIn.KeepLeft | HoikuCamApp/src/MediaTask.cpp:346-351 | the copy, interrupted by deliveries before any sample: exactly which arrival refills the returned buffer, before which sample, and every byte that the copy then holds |
| AudioRecording.AudioIn.Process | HoikuCamApp/src/MediaTask.cpp:315-383 | the oldest buffer returns to the driver, its copy, refilled or not, is appended while recording, and at the deadline the finished file is the header with both sizes plus all copies in order |
| AudioRecording.DeliverConserves | HoikuCamApp/src/MediaTask.cpp:220-223 | delivery keeps the 16 buffers split between driver and mail list |
| AudioRecording.RequeueConserves | HoikuCamApp/src/MediaTask.cpp:322-332 | so does returning a buffer |
| AudioRecording.ConservedDistinct | HoikuCamApp/src/MediaTask.cpp:188-224 | the buffers of driver and mail list are all different |
| AudioRecording.DeliverKeepsIntact | HoikuCamApp/src/MediaTask.cpp:198-223 | a delivery overwrites no buffer in the mail list |
| AudioRecording.WholeCopy | HoikuCamApp/src/MediaTask.cpp:346-351 | without a refill the copy is the left channel of the chunk |
| AudioRecording.RefilledRightIff | HoikuCamApp/src/MediaTask.cpp:331-351 | with a refill it is if and only if the new samples agree with the old ones wherever they reach a byte yet to be copied |
| AudioRecording.RefillHarmlessIff | HoikuCamApp/src/MediaTask.cpp:331-351 | a refill of m bytes before sample k does no harm, whatever they are, if and only if m <= 4k |
| AudioRecording.WrittenRightIff | HoikuCamApp/src/MediaTask.cpp:343-359 | a recording is the left channel of all its chunks in order if and only if every single chunk was copied right |
| AudioRecording.SpoiledRecording | HoikuCamApp/src/MediaTask.cpp:183-383 | a run from OnStart whose recorded chunk is four zeros and whose finished file holds two ones |
| RecordingFiles.FinishedIff | HoikuCamApp/src/MediaTask.cpp:256-377 | an opened file is finished if and only if a call of Process comes at or after its deadline with no TriggerOn and no PowerOn handled before it |
| RecordingFiles.LostIsNeverFinished | HoikuCamApp/src/MediaTask.cpp:256-264 | a file that is no longer being recorded, and was not finished, never is |
| RecordingFiles.FinishedStays | HoikuCamApp/src/MediaTask.cpp:361-377 | finished files stay finished |
| RecordingFiles.TriggeredFile | HoikuCamApp/src/MediaTask.cpp:256-377 | a TriggerOn whose file opens starts 10 s of recording in every state: the file is finished if and only if a call comes when 10000 ms or more have passed, with no TriggerOn and no PowerOn between |
| RecordingFiles.StateAfter | HoikuCamApp/src/MediaTask.cpp:246-377 | which events make the task record and which switch it off; a PowerOff that finds it recording is lost |
| RecordingFiles.FileAfter | HoikuCamApp/src/MediaTask.cpp:256-377 | which events open, finish and drop a file |
| AudioRecording.FinishedFile | HoikuCamApp/src/MediaTask.cpp:361-369 | patching the open file at 4 and 40 gives the final header followed by the samples |
| AudioRecording.LeftOfFrames | HoikuCamApp/src/MediaTask.cpp:345-351 | for chunks of whole frames the left channel is the first sample of every frame |
| AudioRecording.FinalHeaderSizes | HoikuCamApp/src/MediaTask.cpp:135-158 | the final header is 44 bytes, RIFF size 36+pcm, data size pcm, every other byte as in the table |
| AudioRecording.HeaderFormat | HoikuCamApp/src/MediaTask.cpp:135-158 | whatever its size a finished file declares RIFF, WAVE, a fmt chunk of 16 bytes, PCM, 1 channel, 16000 Hz, 32000 bytes a second, 2 bytes and 16 bits a sample, and data |
| AudioRecording.FinishedFileReads | HoikuCamApp/src/MediaTask.cpp:361-369 | read back, the sizes in the file are those of its contents |
| UploadTask.QueueConserves | HoikuCamApp/src/NetTask.cpp:91-148 | under every interleaving of requests with attempts, non-empty names requested equal those uploaded, queued or in hand, as multisets |
| UploadTask.BalancedBetweenAttempts | HoikuCamApp/src/NetTask.cpp:91-148 | between attempts: requested == uploaded + queued, for every non-empty name |
| UploadTask.EmptyAttemptQueuesEmptyName | HoikuCamApp/src/NetTask.cpp:125-148 | an attempt on an empty queue leaves an empty name in it |
| UploadTask.FailuresRotate | HoikuCamApp/src/NetTask.cpp:125-148 | n failing attempts rotate the queue by n |
| UploadTask.FullCycleRestores | HoikuCamApp/src/NetTask.cpp:125-148 | a full cycle of failures restores queue and history |
| UploadTask.ServerNeverForgotten | HoikuCamApp/src/NetTask.cpp:100-259 | in every reachable state retry is at most 2 and only Undetected lacks the server; a known server is never forgotten and Undetected is never re-entered |
| UploadTask.ReDetectionIsDead | HoikuCamApp/src/NetTask.cpp:188-243 | no run with specified answers takes one of the three branches that go back to Undetected |
| UploadTask.FailuresArePaced | HoikuCamApp/src/NetTask.cpp:175-252 | n failures in a row leave state and server alone, retry is n mod 3, and every third pause is the long one |
| UploadTask.UploadEntered | HoikuCamApp/src/NetTask.cpp:100-259 | Upload is entered exactly by a request when the server is known, and left by every success, whatever is still queued |
| UploadTask.NoAttemptWithoutRequest | HoikuCamApp/src/NetTask.cpp:100-259 | names left queued by a success, or requested before the server was known, are not attempted until another request is handled |
| UploadTask.SuccessesNeedRequests | HoikuCamApp/src/NetTask.cpp:100-259 | over every run there are at most as many successful uploads as requests handled, plus one for an upload under way at its start |
| UploadTask.InvNeedsSpecified | HoikuCamApp/src/NetTask.cpp:163-175 | a query from Undetected keeps this exactly when its answer is a specified address |
| UploadRequests.UpdateEntered | HoikuCamApp/src/NetTask.cpp:100-259 | Update is entered exactly by an update request while the server is known, unless an upload request comes with it, and by finding the server while an update is wanted; it is left exactly by a success or an upload request |
| UploadRequests.UploadLeft | HoikuCamApp/src/NetTask.cpp:100-259 | Upload is left exactly by a success or an update request that comes alone |
| UploadRequests.ServerFound | HoikuCamApp/src/NetTask.cpp:100-183 | the address changes exactly when a due call from Undetected is answered; when that state is left |
| UploadRequests.RequestActsAtOnce | HoikuCamApp/src/NetTask.cpp:100-123 | every request makes the next call due, and looks for the server while it is unknown |
| UploadRequests.DueCallFails | HoikuCamApp/src/NetTask.cpp:157-252 | every due call without success stays where it is: without connection or work for good, after a failure 10 s, after every third 1 or 3 minutes |
| UploadRequests.DueCallSucceeds | HoikuCamApp/src/NetTask.cpp:209-252 | a success ends the work for good, and only an update clears its request |
| UploadRequests.FlagIsWanted | HoikuCamApp/src/NetTask.cpp:100-259 | over every run the update flag says exactly whether an update was requested since the last one succeeded, and the task is at an update only while one is wanted |
| UploadRequests.UpdateCarriedOut | HoikuCamApp/src/NetTask.cpp:100-259 | from every state that knows the server an update request and one call make the attempt: success is final and clears the request, failure is retried |
| UploadRequests.UploadCarriedOut | HoikuCamApp/src/NetTask.cpp:100-259 | the same for an upload request, alone or with an update request |
| UploadRequests.ServerLookedFor | HoikuCamApp/src/NetTask.cpp:100-183 | while the server is unknown a request and one answered call find it; a wanted update is then due at once, an upload is not |
| UploadTask.UploadTask.UploadRequest | HoikuCamApp/src/NetTask.cpp:91-98 | the name is appended and the ledger stays balanced |
| UploadTask.UploadTask.ProcessEvent | HoikuCamApp/src/NetTask.cpp:100-123 | the two requests, from every state |
| UploadTask.UploadTask.TryUpload | HoikuCamApp/src/NetTask.cpp:125-148 | the queue after an attempt, with requests arriving during it |
| UploadTask.UploadTask.Process | HoikuCamApp/src/NetTask.cpp:150-259 | one call, for every answer: new state, timer, retry count, server and queue |
| I2cSetting.StrToHex | utilities/i2c_setting.cpp:57-81 | one character: a hex digit in either half of the byte, or nothing |
| I2cSetting.HexValueIs | utilities/i2c_setting.cpp:57-81 | each digit is one of two characters, upper or lower case, and nothing else is a digit |
| I2cSetting.ReadRequest | utilities/i2c_setting.cpp:108-122 | the request is the first of the four prefixes that the text starts with |
| I2cSetting.ReadArguments | utilities/i2c_setting.cpp:129-147 | the loop stores the digits after the prefix two by two and stops at the 68th |
| I2cSetting.AnalysisCmd | utilities/i2c_setting.cpp:101-152 | a recognised request is accepted exactly when fewer than 68 hex digits follow, and the registers depend only on those digits |
| I2cSetting.CharTo16Char | utilities/i2c_setting.cpp:83-99 | the printed text with its terminator, and nothing else written |
| I2cSetting.PrintIs | utilities/i2c_setting.cpp:83-99 | the print character by character: two upper-case digits, upper half first, and a comma before the next byte |
| I2cSetting.DigitsOfPrint | utilities/i2c_setting.cpp:83-99 | the hex digits of the printed text are the halves of the bytes, in order |
| I2cSetting.PrintThenParse | utilities/i2c_setting.cpp:83-152 | a request prefix followed by the printed form of 1..33 bytes is accepted and gives back exactly those bytes, then zeros |
| I2cSetting.OnlyValuesMatter | utilities/i2c_setting.cpp:57-81 | characters of equal hex value are interchangeable: case does not matter |
| I2cSetting.SeparatorsIgnored | utilities/i2c_setting.cpp:129-147 | non-digits can be inserted or left out anywhere |
| I2cCommand.ExecuteCmd | utilities/i2c_setting.cpp:154-189 | the bus call made of the registers, and the reply text NG, OK or OK with the printed bytes |
| I2cCommand.I2cSettingExe | utilities/i2c_setting.cpp:191-209 | a text is carried out exactly when accepted; the whole call and the whole reply, with the length cut to 32 |
| I2cCommand.AcceptedIff | utilities/i2c_setting.cpp:101-152 | a text is accepted if and only if it starts with Wr:, Rd:, WrNoP: or RdNoP: and fewer than 68 hex digits follow |
| I2cCommand.BusCallIs | utilities/i2c_setting.cpp:101-205 | what every accepted text asks of the bus: direction and stop from its prefix, the first byte as address, the second as length cut to 32, the others as data |
| I2cCommand.Replies | utilities/i2c_setting.cpp:163-189 | the reply is NG when the bus call fails, OK after a write, OK and the printed bytes after a read |
| I2cCommand.RunsOffIff | utilities/i2c_setting.cpp:175-201 | the printer is called with length 0 by exactly the accepted read commands whose third and fourth hex digits are zero or missing, when the bus read works |
| I2cCommand.WriteReachesBus | utilities/i2c_setting.cpp:101-205 | the text made from an address, a length and up to 31 bytes writes exactly those bytes to that address |
| I2cCommand.ReadReachesBus | utilities/i2c_setting.cpp:101-205 | the text made from an address and a length of 1..32 reads that many bytes, and the reply read back is what the bus delivered |
| SlidingWindow.LastSnoc | HoikuCamApp/src/bh1792.cpp:391-417 | one more entry pushes the oldest one out of a full window |
| SlidingWindow.Advance | HoikuCamApp/src/bh1792.cpp:403-417 | the slot a ring overwrites holds the oldest entry, and overwriting it slides the unrolled ring |
| Bh1792.Filter.StartMeasure | HoikuCamApp/src/bh1792.cpp:146-180 | a start forgets the history and sets the window by the rate; rate 7 (single) changes nothing |
| Bh1792.Filter.GetFifoData | HoikuCamApp/src/bh1792.cpp:391-421 | the samples read before the first bus failure join the history, and each filtered value is the floor average of the last min(n, window) samples of the whole history since the start |
| Bh1792.FifoWords | HoikuCamApp/src/bh1792.cpp:391-400 | each sample is LED off in the first two bytes, LED on in the last two, low byte first; the first failing read ends the samples and gives the code returned |
| Bh1792.AveragesKept | HoikuCamApp/src/bh1792.cpp:402-417 | one sample keeps ring contents and both sums equal to those of the plain window |
| Bh1792.SumsFit | HoikuCamApp/src/bh1792.cpp:403-408 | the 32-bit sums never wrap |
| Bh1792.AverageIsSound | HoikuCamApp/src/bh1792.cpp:419-421 | sum / num is the floor average of the window |
| Bh1792.AverageWithinWindow | HoikuCamApp/src/bh1792.cpp:419-421 | a floor average lies between any bounds of its window |
| Bh1792.FloorAverageUnique | HoikuCamApp/src/bh1792.cpp:419-421 | the floor average of a window is unique, so the filter is a function of the window |
| SensorTask.FlipsExactly | HoikuCamApp/src/SensorTask.cpp:21-47 | the debounced state flips on a sample exactly when the last 11 samples all differ from it |
| SensorTask.DebounceIsSteady | HoikuCamApp/src/SensorTask.cpp:21-47 | the state is the value of the last 11 equal samples in a row |
| SensorTask.CountIsRun | HoikuCamApp/src/SensorTask.cpp:29-46 | the counter is the length of the disagreeing run, at most 10 |
| SensorTask.TriggersApart | HoikuCamApp/src/SensorTask.cpp:21-47 | two TriggerOn calls are at least 22 samples apart |
| SensorTask.TriggerButtonTask.Process | HoikuCamApp/src/SensorTask.cpp:21-47 | one call of the trigger button: sampled only at timer 0, TriggerOn exactly on a flip to Down |
| SensorTask.GripButtonTask.Process | HoikuCamApp/src/SensorTask.cpp:63-86 | the same debouncing of the grip against its threshold |
| SensorTask.PowerOffTask.Process | HoikuCamApp/src/SensorTask.cpp:100-131 | one call of the power watch |
| SensorTask.OnIffRecentlyActive | HoikuCamApp/src/SensorTask.cpp:107-130 | the power is on exactly when one of the last 31 looks found the camera active |
| SensorTask.HeartWave.PowerOn | HoikuCamApp/src/SensorTask.cpp:180-182 | power on clears ring, position and count, but not the sum |
| SensorTask.HeartWave.Record | HoikuCamApp/src/SensorTask.cpp:212-227 | the ring holds the last 2048 samples since power on; the sum is theirs plus what was left over |
| SensorTask.HeartWave.Extremes | HoikuCamApp/src/SensorTask.cpp:229-233 | the loop finds the minimum and maximum of those samples |
| SensorTask.SumIsRightIff | HoikuCamApp/src/SensorTask.cpp:175-216 | the running sum is the sum of the ring if and only if nothing was left in it at power on |
| SensorTask.StaleSum | HoikuCamApp/src/SensorTask.cpp:178-182 | a concrete run with a sum of 5 over an empty ring |
| CString.TextIs | HoikuCamApp/src/GoogleDrive.cpp:921-928 | what stands before the first NUL of a buffer is its text |
| GoogleDrive.GoogleDriveReader.StateStart | HoikuCamApp/src/GoogleDrive.cpp:336-408 | the field state machine on one token |
| GoogleDrive.TokenActsIff | HoikuCamApp/src/GoogleDrive.cpp:336-408 | a token means something exactly when it is one of the seven keys at level 2 outside any member, or a value of the kind that the key before it needs |
| GoogleDrive.GoogleDriveReader.StateCallback | HoikuCamApp/src/GoogleDrive.cpp:902-943 | capture starts, ends and delivers on the lexer's reports |
| GoogleDrive.GoogleDriveReader.WriteCallback | HoikuCamApp/src/GoogleDrive.cpp:32-48 | one chunk: each byte is stored, then reported |
| GoogleDrive.ChunkingDoesNotMatter | HoikuCamApp/src/GoogleDrive.cpp:32-48 | every way of cutting a reply into chunks gives the same result |
| GoogleDrive.StructureEndsCapture | HoikuCamApp/src/GoogleDrive.cpp:902-943 | where an object begins or ends any capture ends: nothing is stored until the next token begins, and no field changes |
| GoogleDrive.PopDelivers | HoikuCamApp/src/GoogleDrive.cpp:918-934 | a finished token of any length is delivered as its first 255 characters |
| GoogleDrive.MemberReads | HoikuCamApp/src/GoogleDrive.cpp:902-943 | the bytes of one member, whitespace and delimiters included, give the parser its key and value and nothing else |
| GoogleDrive.ObjectRead | HoikuCamApp/src/GoogleDrive.cpp:902-943 | the bytes of a flat object give the parser its members in order |
| GoogleDrive.BackAtRootIff | HoikuCamApp/src/GoogleDrive.cpp:336-408 | after a member the parser is back at its root state if and only if the member is plain: known keys have values of their kind, unknown keys' values name no known key |
| GoogleDrive.ParseIsReading | HoikuCamApp/src/GoogleDrive.cpp:336-408 | over plain members every field ends as the last value of its key |
| GoogleDrive.StreamingIsReading | HoikuCamApp/src/GoogleDrive.cpp:336-408 | for any chunking of a flat object of plain members every string field ends as the first 131, 15 or 63 characters of its last value, or keeps its old value |
| GoogleDrive.NotPlainMisread | HoikuCamApp/src/GoogleDrive.cpp:336-408 | for every member that is not plain there is a plain next member whose value is taken for the missing one, so that a field is not what the plain reading says |
| GoogleDrive.ReadsRightOn | HoikuCamApp/src/GoogleDrive.cpp:336-408 | reading on from a right beginning is right exactly when the rest is read right |
| GoogleDrive.PlainIffReadRight | HoikuCamApp/src/GoogleDrive.cpp:336-408 | the members of an object are all plain if and only if every beginning of them, followed by any plain member, is read right |
| GoogleDrive.NotPlainNotRead | HoikuCamApp/src/GoogleDrive.cpp:336-408 | two concrete objects with a member that is not plain, whose scope field is wrong |
| JsonLexer.QuotedReports | HoikuCamApp/src/jsonsl.cpp:339-600 | a quoted text of any length, escapes included, is reported at its two quotes and nowhere else |
| JsonLexer.LiteralEndsIff | HoikuCamApp/src/jsonsl.cpp:371-538 | for every literal, right or wrong, and every delimiter: it is reported as finished if and only if it is complete (a word of the right length, or a number with a digit and with one behind its first point and first exponent mark); otherwise the delimiter is dropped and the lexer stays inside |
| JsonLexer.JsonLiteralsComplete | HoikuCamApp/src/jsonsl.cpp:371-525 | every JSON number, true, false and null are complete |
| JsonLexer.OverlongSwallows | HoikuCamApp/src/jsonsl.cpp:444-525 | a word that is too long swallows the rest of the reply, whatever follows |
| JsonLexer.BadWordFreezes | HoikuCamApp/src/jsonsl.cpp:444-525 | an object whose first value is a word of the wrong length that the following bytes make too long, such as nul before scope, sets no field at all |
| JsonLexer.LiteralTailReports | HoikuCamApp/src/jsonsl.cpp:488-538 | a complete literal is reported on the byte after it, which is then handled as structure |
| JsonLexer.ObjectReports | HoikuCamApp/src/jsonsl.cpp:242-760 | the reports on the text of a flat object with complete literals are exactly the ones the reader expects |
| JsonLexer.ReplyIsRead | HoikuCamApp/src/GoogleDrive.cpp:32-48 | from bytes to fields: for every flat object of plain members with complete literals and every cutting of its text into pieces, each field ends as the last value of its key, cut to its room |
| JsonLexer.PiecesReport | HoikuCamApp/src/jsonsl.cpp:242-760 | the reports do not depend on how the text is cut into pieces |
| GoogleDrive.ExpiryIsNumber | HoikuCamApp/src/GoogleDrive.cpp:369-374 | a lifetime that starts with a decimal number, with or without a minus, is read as that number, whatever follows its digits |

## Left out

- Malloc failure and the device address in the word transfers, opening and closing the port: no effect on the protocol beyond an early error.
- The timeout counter of the run command: it is decremented and never acted on.
- The attribute getters and setters of the Lepton SDK: one-line wrappers.
- LeptonTask.LeptonTask.Process: the index in it is the exact rational one; FloatIndexFits and FloatIndexMonotone give the bounds for float rounding. What C leaves undefined when an index does not fit is taken as its low eight bits; the palettes' contents are parameters.
- LeptonTask.LeptonTask.CaptureFrame: does not model the local minimum and maximum of the capture loop, which nothing reads.
- LeptonTask.LeptonTask.Show: the display is the 4.3 inch one, 480 by 272; the other display sizes are not part of this model.
- State UpdateParam talks to the camera for temperatures, AGC, radiometry and the spotmeter region; only the telemetry switch, which changes the frame size, is kept.
- TaskBase.TaskThread.Loop: what a task does with a signal, and the clearing of signals, are left open: any wake-up may rewrite any timer. A thread whose only task is not a group is a group of one.
- TaskBase.WaitKeepsDeadlines: the time that events and processing take between the clock reading and the wait counts as part of the wait; a run in which it makes a wake-up late is outside the lemma.
- AudioRecording.AudioIn.Process: a delivery with a negative size is not modelled.
- AudioRecording.AudioIn.AudioReadEnd: drawing the wave on the screen.
- Failure of audio.read and audio.write in the audio driver.
- UploadTask.UploadTask.Process: the network calls themselves; their answers are inputs.
- I2cCommand.I2cSettingExe: when the printer is called with length 0, what becomes of the reply buffer; the terminal that feeds the commands.
- Bh1792.Filter.StartMeasure: the register writes that start the sensor are reduced to their result; GetMeasData beyond its FIFO loop is left out.
- SensorTask.HeartWave.Extremes: the heart-mark brightness computed from them, which divides by their difference, is left out.
- JsonLexer.ObjectReports: only flat objects. A byte that breaks the structure of the object (not one inside a literal or a text) leads to a mode about which nothing is said.
- LeptonRoundTrip.SetThenGet: damage that the CRC is not certain to show, and damage to the status register.
- GoogleDrive.ExpiryIsNumber: a number beyond the range of int is read without overflow.
- The other replies read by GoogleDrive.cpp (client file, device code, refresh, upload) and its state machine: the same reader with other names, and network code.
- NTP, mDNS, HTTP, curl and socket code, SD and USB mounting, face and QR detection, JPEG, LCD layers, generated configuration: foreign or glue code.
- Thread priorities, real-time jitter and lost signals.
