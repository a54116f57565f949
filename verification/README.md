# Verified models of Previous

Previous emulates NeXT hardware. This project models the parts of its C source where the behaviour spans
many calls, and proves what they promise. Code that works in place is modelled as classes, arrays and loops;
each method is proved equal to a function of the old state, and the theorems are proved about those
functions, for every input, every run or every reachable state.

Check everything with `dafny verify dfyconfig.toml`.

## The parts

**Reed-Solomon product code** (`RsTables`, `Gf256`, `RsCode`, `RsDecoder`, `RsErrors`, `RsTwoErrors`,
`RsStrings`, `RsBerlekamp`, `RsStringDecoder`, `RsSector`, `RsVerdict`; `src/rs.c`). The tables are proved to be the
field GF(2^8); the shift register is proved to divide by (x-1)(x-2)(x-4)(x-8), so that a word is a code word
exactly when its four syndromes vanish. The Berlekamp-Massey loop is proved to keep the key equation for all
syndromes. On that stand the sector theorems: decoding undoes encoding, repairs a lost row and counts scattered
errors; and the verdicts: for every word and every sector, when the answer is 0, positive or -1.

**Event scheduler** (`Numbers`, `Agenda`, `Dispatch`, `Scheduler`; `src/cycInt.c`). The two linked lists threaded
through one array are proved to be two sorted duplicate-free sequences; dispatch is then a run over those.
Handlers are scripts: lists of scheduler calls that may depend on the event and on how many were served before.
All that is asked of them is that, in the states in which the loop comes to run them, they put nothing into the
list that is being served at or before the deadline being served.

**Host timing** (`HostTiming`; `src/timing.c`), with 64-bit origins that wrap.

**SCSI to DMA to memory** (`Burst`, `ScsiDisk`, `ScsiCommands`, `EspModel`, `EspSignals`, `DmaChaining`,
`ScsiTarget`, `ScsiChainOut`, `ScsiChain`; `src/scsi.c`, `src/esp.c`, `src/dma.c`). A step system over handler
ticks and guest loads, flushes and initialisations of the channel, and the end-to-end theorems for READ and
WRITE over every such run.

**Memory-to-memory DMA** (`MemoryToMemory`; `src/dma.c`).

**Input injection** (`CtlModel`, `CtlPacing`, `CtlLaws`, `CtlLateness`, `CtlPointer`, `CtlSock`;
`src/ctlsock.c`). A run is any sequence of drain passes with any batches of pushes between their lock
acquisitions and any clock that does not go backwards and is never 0.

**Resampler** (`SndFifo`; `src/sndfifo.c`), **optical disk formatter** (`Formatter`; `src/mo.c`),
**path names** (`PathName`; `src/file.c`), **configuration files** (`ConfigText`, `ConfigModel`,
`ConfigSaving`, `ConfigFile`; `src/cfgopts.c`, `src/str.c`).

## Where the code does not do what one would expect

The models follow the code. Each of these has a lemma with a concrete input, an exact condition, or both.

- Two wrong symbols in one code word are not always corrected. With equal error values a at x and y the
  loop takes the wrong update method unless a*(x+y) = x*y, and gives up; and a sum of a logarithm and a
  position that does not fit its `uint8_t` (src/rs.c:305, src/rs.c:314) gives a wrong correction reported as
  a good one. `TwoErrorsCorrectedIff` states exactly which pairs are restored.
- With more damage a positive result need not be a code word: `CorrectionIff` is the exact condition. When the
  locator has one double root the result is 2 and nothing has been changed.
- A held input command waits for its floor, then for the pointer, but both are only looked at once a pass, and
  the settle window opens at the pass that first meets it. Once the floor is over the command is still held
  exactly when it is a button edge behind an unsettled pointer whose window is not over (`PastFloorHeldIff`), so
  that floor and window are enough when the window was open as the floor ran out. The bound for all runs is
  floor + settle + three pass distances (`HeldBounded`); `HeldPastFloorAndWindow` is a run that needs all but two
  milliseconds of it. The floor is the larger of gap and, for a release, hold floor.
- A relative move keeps the believed pointer if and only if the 63 counts of a report make no difference
  after the stop at the edges, and the homing slams still to send stay enough (`MoveRelBelievedIff`,
  `MoveRelDrifts`).
- A tablet move in the middle of homing keeps it if and only if its target is within reach of the slams still
  to send (`MoveAbsBelievedIff`); otherwise the slams end off the corner and the injector believes in the
  corner (`HomingFindsIff`). `RouteChangeLosesOrigin` is a run from the start, wherever the guest's pointer was.
- A tablet that places the pointer does not home it. Once the tablet is gone, such a pointer is on its target
  and never taken for settled, so that every button edge waits for the whole settle window
  (`ParkedNeverSettles`, `ParkedClickWaits`; `ParksIff` says which moves leave it so).
- The clock can run backwards when it is asked between pause and resume: a resume is safe if and only if the
  clock, as it stood at the pause, was not behind the last answer (`ResumeSafeIff`). `SampledWhilePaused` is a run
  from reset.
- A formatter write whose first sector is already under the head passes it by and times out (`WriteTooEarly`).
  Without the sector timer a sector behind the head is waited for for ever (`BehindForever`). `CompletesIff`
  states for both settings of the timer which transfers complete.
- A configuration section with as many matching lines as the table has entries, two of them for the same key, hides
  another entry from saving (`DuplicateHidesKey`); a header on a last line without a newline is written a
  second time and nothing is loaded back. `SaveThenLoadIff` is exact. The lines of all other sections are kept
  if and only if the next header is not an unfinished last line; that one is lost (`OtherLinesKeptIff`,
  `LastHeaderDropped`). A section that is new loses one blank line at the second save, and
  only then (`SaveTwice`).

## Model

| member | source | states |
|---|---|---|
| RsTables.RemTableIsShifts | src/rs.c:23-57 | every entry of t_rem is four packed GF(2^8) products of the index with the generator's coefficients |
| Gf256Tables.ExpTablesCorrect | src/rs.c:59-108 | the 768 entries of t_exp are the powers of 2, over three pages |
| Gf256Tables.LogTableCorrect | src/rs.c:110-127 | t_log of every nonzero byte is the exponent below 255 whose power it is |
| Gf256Laws.MulExpExp | src/rs.c:206-208 | adding exponents multiplies powers, whatever the exponents: the table product is the field product |
| Gf256Laws.MulAssoc | src/rs.c:206-208 | the product by logarithms is associative |
| Gf256Laws.MulDistrib | src/rs.c:206-208 | it distributes over exclusive or |
| Gf256Laws.MulInv | src/rs.c:244-254 | every nonzero byte has an inverse, the complement of its logarithm |
| RsCode.RegisterStep | src/rs.c:135-141 | one turn of the 32-bit shift register is one step of polynomial division |
| RsCode.RemTableCorrect | src/rs.c:23-57 | the remainder table holds i*x^4 reduced by the generator |
| RsEval.GeneratorRoots | src/rs.c:19-23 | 1, 2, 4 and 8 are the roots of the generator |
| RsEval.RemKeepsValue | src/rs.c:129-143 | division by the generator keeps the value at its four roots |
| RsEval.RemZero | src/rs.c:129-143 | a remainder with all four roots is zero |
| RsEval.CodeIffVanishes | src/rs.c:145-181 | the check bytes fit the data exactly when all four syndromes vanish |
| RsStrings.EccBlock | src/rs.c:129-143 | the strided loop returns the remainder of the 32 data bytes |
| RsStrings.EncodeString | src/rs.c:145-152 | in place: the string becomes its encoding, every byte off the string is unchanged |
| RsStrings.EncodedIsCode | src/rs.c:145-152 | the encoding is a code word with the same data |
| RsStrings.EncodedDeterminedByData | src/rs.c:145-152 | it is the only code word with these data |
| RsStrings.ComputeSyndromes | src/rs.c:166-181 | the table loop computes the values at 1, 2, 4 and 8 |
| RsKeyEquation.StepUpdates | src/rs.c:203-264 | methods a and b change sigma and omega alike, by the discrepancy |
| RsKeyEquation.BmKeyEquation | src/rs.c:183-264 | for every syndrome polynomial and every round l: sigma*S = omega and tau*S = gamma + x^l up to degree l, all of degree l at most |
| RsBerlekamp.Discrepancy | src/rs.c:204-208 | the loop computes the x^l coefficient of sigma*S |
| RsBerlekamp.RoundA | src/rs.c:213-234 | method a, in place, on all four polynomials |
| RsBerlekamp.RoundB | src/rs.c:235-263 | method b, in place, on all four polynomials |
| RsBerlekamp.BerlekampMassey | src/rs.c:183-264 | the whole loop computes what the key equation is proved about |
| RsSingleError.EvalFix | src/rs.c:166-181 | an error v at position e adds v*2^(j*e) to syndrome j |
| RsSingleError.SingleLocator | src/rs.c:183-264 | every single error gives the locator 1+X*x, and sigma[1]^omega[1] is its value, zero second discrepancy included |
| RsSingleError.SingleErrorCorrected | src/rs.c:154-337 | any code word with any one wrong symbol is restored, and the result is 1 |
| RsTwoErrorLocator.UniqueSolution | src/rs.c:183-264 | two equations in the syndromes leave one locator of degree 2 |
| RsTwoErrorRounds.ThirdDiscrepancy | src/rs.c:203-213 | with different error values the third discrepancy is never zero |
| RsTwoErrorRounds.EqualValues | src/rs.c:210-271 | with equal values the locator has degree 2 if a*(x+y) = x*y, and sigma[3] is not zero otherwise |
| RsTwoErrorValues.RootsFound | src/rs.c:274-298 | the search stops at the smaller error position and computes the other |
| RsTwoErrorValues.ErrorValueExact | src/rs.c:300-316 | the computed error value is right if and only if the sum in the uint8_t does not overflow |
| RsTwoErrors.TwoErrorsDetected | src/rs.c:157-164 | two errors never look like a code word |
| RsTwoErrors.TwoErrorsCorrectedIff | src/rs.c:154-337 | for every code word and every two errors: restored iff the locator is reached and both sums fit; the result is 2 or -1 accordingly |
| RsTwoErrors.EqualPairGivenUp | src/rs.c:210-271 | the errors 1 and 1 at positions 0 and 1 of any code word are given up |
| RsTwoErrors.OverflowMiscorrects | src/rs.c:300-320 | the errors 1 at 12 and 2 at 2 of any code word are reported corrected and are not |
| RsVerdict.WordVerdict | src/rs.c:154-337 | for every word, whatever its damage: the result is 0 exactly for code words; otherwise the degree of the locator if that is at most 2 and all its roots are positions of the word, and -1 if not; only symbols at roots are changed, and none with 0 or -1 |
| RsVerdict.CorrectionIff | src/rs.c:274-332 | for every word with a positive result: when the changes clear the first syndromes, and the exact condition under which the result is a code word |
| RsStringDecoder.SearchRoot | src/rs.c:275-287 | the search returns the first root of the locator |
| RsStringDecoder.ComputeError | src/rs.c:300-307 | the error value as computed, with its truncation to 8 bits |
| RsStringDecoder.DecodeString | src/rs.c:154-337 | in place on a strided string: word and result are those of the decoder on values on all paths, every other byte unchanged |
| RsSectorCodec.DecodeRows | src/rs.c:357-363 | the row pass, and the sum of its good results |
| RsSectorCodec.DecodeColumns | src/rs.c:364-372 | the column pass up to the first string beyond repair |
| RsSector.FirstBadColIs | src/rs.c:365-368 | the column at which decoding gives up is the first one that cannot be decoded |
| RsSectorCodec.Memmove | src/rs.c:343-344 | an overlapping move reads the old bytes, in both directions |
| RsSectorCodec.OpenGaps | src/rs.c:342-344 | the overlapping moves to the encoded layout keep all 1024 bytes |
| RsSectorCodec.CloseGaps | src/rs.c:373-375 | the overlapping moves back collect the data bytes, and nothing behind them changes |
| RsSectorCodec.Encode | src/rs.c:339-351 | in place: all 32 data columns and all 36 rows are code words and the payload is inside; the row pass does not spoil the columns |
| RsSectorCodec.Decode | src/rs.c:353-378 | in place: payload, rest and result of both passes, or -1 with the layout left encoded |
| RsSectorTheorems.DecodeRestores | src/rs.c:353-378 | if every row but one is restored by the row pass, whatever the last one became, the payload comes back |
| RsSectorTheorems.RowLossRepaired | src/rs.c:353-378 | one row replaced by arbitrary bytes and at most one wrong byte in each other row: result not negative, payload exact |
| RsSectorTheorems.ScatteredErrorsCounted | src/rs.c:353-378 | at most one wrong byte in each row: payload exact, and the result is the number of wrong bytes |
| RsSectorTheorems.EncodeThenDecode | src/rs.c:339-378 | decoding an encoded sector gives its payload and 0 |
| RsSectorVerdict.SectorVerdict | src/rs.c:353-378 | for every sector: -1 exactly if a data column is beyond repair after the row pass; 0 exactly if all data columns are code words and no row is corrected, and then nothing has been changed |
| Agenda.ApplyOk | src/cycInt.c:178-277 | every add, update and remove keeps both lists sorted, duplicate-free and disjoint, moves its event and no other, and keeps every other deadline |
| Agenda.InsertedAt | src/cycInt.c:150-172 | an event is queued behind all earlier ones and in front of those with the same deadline |
| EventLinks.SpliceLinks | src/cycInt.c:163-170 | the link assignments insert at one place of the linked list, whatever stale links the event had |
| EventLinks.UnlinkLinks | src/cycInt.c:270-275 | and these take it out |
| Scheduler.SpliceOther | src/cycInt.c:150-172 | splicing into one list leaves the other linked |
| Scheduler.RemovedRepresents | src/cycInt.c:258-277 | the array after removal represents both lists without the event |
| Scheduler.QueuedRepresents | src/cycInt.c:150-193 | the array after insertion represents the list with the event at its sorted place |
| Scheduler.CycInt.constructor | src/cycInt.c:89-109 | reset gives two empty lists |
| Scheduler.CycInt.AddEvent | src/cycInt.c:150-172 | the walk ends at the sentinel at the latest and splices in front of the first event that is not earlier |
| Scheduler.CycInt.RemovePendingEvent | src/cycInt.c:258-277 | the whole new state |
| Scheduler.CycInt.AddCyclesEvent | src/cycInt.c:178-185 | the whole new state |
| Scheduler.CycInt.UpdateCyclesEvent | src/cycInt.c:186-193 | the whole new state |
| Scheduler.CycInt.AddTimeEvent | src/cycInt.c:199-216 | the whole new state, in realtime mode and in cycle mode |
| Scheduler.CycInt.UpdateTimeEvent | src/cycInt.c:217-235 | the whole new state with the catch-up rule in unsigned 64-bit arithmetic |
| Scheduler.CycInt.AddCycleTimeEvent | src/cycInt.c:241-246 | the whole new state |
| Scheduler.CycInt.UpdateCycleTimeEvent | src/cycInt.c:247-252 | the whole new state |
| Scheduler.CycInt.ServeCycles | src/cycInt.c:117-123 | the loop ends and is a run of the dispatcher |
| Scheduler.CycInt.ServeTimes | src/cycInt.c:124-143 | the time loop ends and is a run of the dispatcher, with the next check set |
| Scheduler.CycInt.Advance | src/cycInt.c:115-144 | the whole call: cycle events, then time events if a check is due; that time deadlines stay below 2^63 is kept, not assumed |
| Dispatch.ServeKeepsOrder | src/cycInt.c:117-123 | a handler that queues nothing at or before the deadline served leaves every deadline at or after it |
| Lateness.LateDrops | src/cycInt.c:117-143 | one served event outweighs all that its handler can queue or move behind it: the measure by which both loops end |
| DispatchTheorems.ServeLessLate | src/cycInt.c:117-123 | each served event makes the total lateness smaller, so the loop ends |
| DispatchTheorems.RunsInOrder | src/cycInt.c:115-123 | no event before its deadline, deadlines non-decreasing, nothing due left pending, for handlers that may arm and move any event behind the deadline served |
| DispatchTheorems.PeriodicCalls | src/cycInt.c:186-252 | an event whose handler, among other calls, re-arms it by p cycles in any of the three update calls has its k-th deadline at t0+k*p over any sequence of calls, however late |
| CatchUp.CatchUpIff | src/cycInt.c:222-226 | the catch-up rule keeps the old deadline exactly when the clock is at most half a delay past it |
| CatchUp.PaceOfRun | src/cycInt.c:216-232 | within one call the deadlines of a periodic time event, the pending one included, are p apart exactly when each service is at most half a period late |
| CatchUp.NoDriftIff | src/cycInt.c:216-232 | the same over any sequence of calls and whatever happens between them |
| Arming.ArmedCycles | src/cycInt.c:178-193 | an added event is due its delay after the cycle counter, an updated one its delay after its old deadline |
| Arming.ArmedCycleTime | src/cycInt.c:241-252 | the same in microseconds, with the fast delay in realtime mode |
| Arming.ArmedTime | src/cycInt.c:199-234 | in realtime mode a time event is added its delay after the clock, otherwise it is a cycle event |
| Arming.ServedInTime | src/cycInt.c:115-123 | a pending event that is left alone is served by the first call whose counter has reached its deadline, with that deadline, and by none before |
| Arming.AddedIsServed | src/cycInt.c:115-184 | an event added with a delay of c cycles is served by the first call in which the counter has come c cycles further, and by none before |
| Arming.ServedIffTime | src/cycInt.c:126-141 | the time loop serves a pending time event at its deadline, or the clock last read had not come to it |
| Arming.CheckInTime | src/cycInt.c:124-143 | the next look at the clock is when the nearest time event is due, or after 100 microseconds if that is earlier |
| Arming.AddedIsLookedFor | src/cycInt.c:199-213 | a time event added as the nearest one within 100 microseconds moves that look to its deadline |
| TimeDispatch.ServeTimeProgress | src/cycInt.c:126-141 | the same progress for time events with signed differences, for every bound on the clock readings |
| TimeDispatch.RunsTimeInOrder | src/cycInt.c:126-141 | time events in deadline order, none early, none left due |
| TimingModel.UnpauseResumes | src/timing.c:59-65 | after pause and resume the clock stands where it stood at the pause, with a wrapping origin |
| TimingModel.OriginIs | src/timing.c:85-87 | switching to cycle time sets an origin (modulo 2^64) at which the clock gives the time just answered |
| TimingModel.NextKeeps | src/timing.c:49-103 | every step keeps the clock at or after the last answer, a resume if the clock was not behind at the pause |
| TimingModel.GuardedIsMonotone | src/timing.c:49-103 | over every run, asked during pauses or not, in which each resume meets that guard, answers never decrease |
| TimingModel.UnaskedIsGuarded | src/timing.c:59-65 | the guard holds for every resume when nobody asks during a pause |
| TimingModel.TimeIsMonotone | src/timing.c:49-103 | over every run from reset of cycles, host time, mode switches, pauses and resumes, not asked during a pause, answers never decrease |
| TimingModel.ResumeSafeIff | src/timing.c:59-65 | one resume without the guard and some host's counter makes time go back; with it none does |
| TimingModel.SampledWhilePaused | src/timing.c:59-65 | a run from reset in which time goes from 5000 us back to 3000 us |
| HostTiming.Timing.GetTime | src/timing.c:68-103 | answer and new state on all paths, the waiting ones included |
| HostTiming.Timing.Pause | src/timing.c:59-65 | the new state |
| HostTiming.Timing.WaitFor | src/timing.c:88-97 | after the sleep or the busy loop real time has come to the time answered |
| Burst.PumpConserves | src/dma.c:406-444 | device to memory: what waited and what was taken is what was stored and what waits, in order |
| Burst.PumpExhausts | src/dma.c:406-444 | the loop stops only for want of data or of room |
| Burst.PumpAligned | src/dma.c:432-436 | only whole long words are stored, at every 4-aligned start |
| Burst.FlushConserves | src/dma.c:473-484 | a flush stores the waiting bytes with zeros behind a short long word |
| Burst.PushConserves | src/dma.c:516-553 | memory to device: the same conservation |
| Burst.PushExhausts | src/dma.c:516-553 | the loop stops only at the limit or when the device takes no more |
| ScsiDisk.BlocksAre | src/scsi.c:569-580 | the blocks of a command are one contiguous piece of the image |
| ScsiDisk.ReadSectorStream | src/scsi.c:591-612 | READ: what the target will send is the blocks asked for, as far as the image goes, with the sense of the end; count 0 of class 0 is 256 |
| ScsiDisk.SendDataStream | src/scsi.c:1021-1033 | each byte sent is the first of what is left, refills included, and the phase changes with the last |
| ScsiDisk.ReceiveDataImage | src/scsi.c:1007-1019 | each byte received takes its place in the image, or is refused past its end |
| ScsiDisk.FeedImage | src/scsi.c:482-524 | the bytes received are on the disk as far as the image goes; the phase ends with the last byte taken, with the sense of the first block past the end if there is one |
| ScsiDisk.WriteThenRead | src/scsi.c:482-612 | WRITE then READ of the same blocks returns the bytes, and nothing else on the disk changed |
| ScsiCommands.Decoded | src/scsi.c:224-241 | from the six and ten byte commands, written highest byte first with any unit and flags, the target reads back exactly the block and the count, 256 blocks being written as 0 |
| ScsiCommands.ReadCommand | src/scsi.c:547-612 | what such a READ sends is the named piece of the image, as far as it goes |
| ScsiCommands.WriteCommand | src/scsi.c:482-545 | what such a WRITE is sent takes the named place in the image |
| ScsiCommands.WriteThenReadCommands | src/scsi.c:482-612 | what one command has written another reads back, whatever the forms of the two |
| ScsiTarget.Target.ReadNext | src/scsi.c:557-590 | in place |
| ScsiTarget.Target.Read | src/scsi.c:591-612 | in place |
| ScsiTarget.Target.Send | src/scsi.c:1021-1033 | in place |
| ScsiTarget.Target.WriteNext | src/scsi.c:482-524 | in place, to a writable image |
| ScsiTarget.Target.Write | src/scsi.c:525-555 | in place |
| ScsiTarget.Target.Receive | src/scsi.c:1007-1019 | in place |
| EspTheorems.TickReading | src/esp.c:883-916 | one tick keeps: stored, waiting and still to come are together what was asked for |
| EspTheorems.ReadEndToEnd | src/esp.c:379-400 | READ over every run of ticks, channel register loads, flushes and initialisations of the channel: what has left the channel FIFO and what waits in it are a prefix of what was asked for, never more than the counter allows, all of it when the counter is 0 or the phase is over; a step stores what leaves the FIFO, a flush with zeroes behind a short long word, and only initialising loses it; transfer complete exactly when the counter is 0 |
| EspTheorems.FlushReading | src/dma.c:454-494 | one flush keeps: gone, waiting and still to come together what was asked for |
| EspTheorems.RunAligned | src/dma.c:427-443 | in every run what waits in the FIFO starts at a long word |
| EspTheorems.WantedInside | src/scsi.c:569-580 | inside the image what was asked for is its bytes from lba*blocksize, at most min(counter, n*blocksize) |
| EspTheorems.DmaWriteProgress | src/dma.c:387-452 | an enabled call takes all the device has or completes the buffer |
| EspSignals.DmaReadProgress | src/dma.c:497-565 | an enabled call gives all that counter and target take, or loads the memory up to the limit |
| EspTheorems.ReadIntoOneBuffer | src/esp.c:883-916 | into one buffer, by ticks and flushes: memory is the old one with the bytes stored from its start on, nothing else changed |
| EspTheorems.ReadThenFlush | src/dma.c:454-494 | ticks and then flushes into one buffer: memory holds a prefix of what was asked for, all of it when the counter is 0 and the FIFO empty, and behind it only the zeroes of the last long words |
| EspTheorems.WriteEndToEnd | src/esp.c:402-418 | WRITE over every run, for all chained buffers and all block ranges: what was loaded is what the disk was given and what waits; the image differs exactly there, as far as it goes; status phase exactly with the last byte taken, and then the sense of a block past the end |
| EspTheorems.WriteInside | src/scsi.c:482-524 | inside the image all blocks are taken, every byte is in its place, and there is no sense |
| ScsiCommands.ReadCommandEndToEnd | src/esp.c:379-400 | READ, from the bytes of the command to memory, over every run |
| ScsiCommands.WriteCommandEndToEnd | src/esp.c:402-418 | WRITE, from memory to the place the bytes of the command name, over every run |
| DmaChaining.ReadIntoChain | src/dma.c:361-494 | READ into two chained buffers by ticks and flushes: what is stored fills the first buffer and then the second, nothing else changes, and the channel stands where it ends: in the first, in the second and complete, or complete and disabled at its stop |
| DmaChaining.WriteFromChain | src/dma.c:361-565 | WRITE from two chained buffers: what is loaded is a beginning of the first followed by the second, and the channel stands where it ends |
| EspSignals.ReadSignals | src/esp.c:879-916 | READ over every run: bus service is raised exactly when the counter has run out or the target has left the data phase, and before that the handler goes on |
| EspSignals.WriteSignals | src/esp.c:879-916 | WRITE over every run: the same |
| EspSignals.WritesKept | src/esp.c:456-471 | bytes written to the ESP FIFO stay in order, and once it is full the last place holds the last one |
| EspSignals.FillFifoSupply | src/esp.c:379-400 | filling the ESP FIFO takes the first sixteen bytes of what can be sent, and loses none |
| EspSignals.EmptyFifoGives | src/esp.c:402-410 | emptying it gives its bytes to the target in order, as far as counter and target take them |
| ScsiChainOut.GivenTwice | src/esp.c:411-418 | giving bytes in two parts is giving them at once, counter and disk included |
| ScsiChain.PumpOne | src/dma.c:417-421 | a byte more in the FIFO does not change where the transfer ends |
| EspModel.ReadFifoSupply | src/esp.c:431-454 | reading the FIFO register takes the bytes in the order in which the ESP can send them, past an empty FIFO when DMA mode is off |
| ScsiChain.Chain.FifoRead | src/esp.c:431-454 | in place: first byte out and the rest moves up, or a byte of the target, or 0 |
| ScsiChain.Chain.FifoWrite | src/esp.c:456-465 | in place: a byte more, or the last one overwritten |
| ScsiChain.Chain.SendByteUp | src/esp.c:392-400 | the FIFO first, then the target with the counter |
| ScsiChain.Chain.DmaInterrupt | src/dma.c:361-381 | complete, reload from start and stop, or disable |
| ScsiChain.Chain.WriteMemory | src/dma.c:387-452 | in place with nested loops: the whole new machine |
| ScsiChain.Chain.FlushBuffer | src/dma.c:454-494 | the new state of a flush on all paths, zero fill included |
| ScsiChain.Chain.ReadMemory | src/dma.c:497-568 | in place with nested loops: the whole new machine |
| ScsiChain.Chain.FillEspFifo | src/esp.c:383-386 | without DMA: filled until full, counted out or out of phase |
| ScsiChain.Chain.EmptyEspFifo | src/esp.c:403-406 | emptied into the target |
| ScsiChain.Chain.Done | src/esp.c:833-853 | transfer complete exactly at counter 0, bus service on a phase change |
| ScsiChain.Chain.HandlerIn | src/esp.c:883-916 | one call of the handler while the target sends, flushing included |
| ScsiChain.Chain.HandlerOut | src/esp.c:883-916 | one call of the handler while the target receives |
| MemoryToMemory.TransferCompletes | src/dma.c:908-972 | a transfer leaves the source and then its last sixteen bytes again and again in the destination, nothing else changed, both channels complete as they should, and further calls do nothing |
| MemoryToMemory.CopiedPrefix | src/dma.c:931-955 | a destination no longer than the source is a prefix of it |
| MemoryToMemory.M2M.IoHandler | src/dma.c:908-972 | in place: one turn |
| CtlPacing.EveryRun | src/ctlsock.c:823-947 | every run from the start: accepted = applied then waiting, one OK for each applied in order, the masks of arrival order, every two reports a gap floor apart, every release its hold floor after its own press |
| CtlPacing.ReportsCarryArrivalMask | src/ctlsock.c:879-884 | report i carries the mask of the first i+1 accepted commands, however long it was held |
| CtlLaws.ModifierHeldIff | src/ctlsock.c:767-797 | over every run: report i carries a modifier bit exactly if the last of the first i+1 accepted commands that is a RELEASE or a MOD with the bit is a MOD press |
| CtlLaws.ByteIs | src/ctlsock.c:774-781 | the byte of a modifier command is its argument modulo 256 |
| CtlLaws.FloorsKept | src/ctlsock.c:885-923 | over every run: keys, modifiers and RELEASE are sent the key gap after every report before them, left and right button edges the button gap, and a release the key or button hold after its own press |
| CtlButtons.ButtonHeldIff | src/ctlsock.c:738-797 | over every run: a button level is up exactly when the last command applied about the button is its press |
| CtlButtons.UnsettledEdgeWaited | src/ctlsock.c:924-937 | over every run: a button edge by mouse that goes through behind an unsettled pointer has waited for the whole settle window since the last command before it |
| CtlButtons.ArrivalsFit | src/ctlsock.c:320-339 | of the commands that arrive together the first that fit are queued, the others rejected |
| CtlPacing.CheckMet | src/ctlsock.c:885-923 | a command that passes the check has both floors behind it |
| CtlPacing.ApplyNotes | src/ctlsock.c:705-821 | what applying remembers: the report clock, the mask, the time stamps |
| CtlWaiting.HeldReason | src/ctlsock.c:885-936 | a held command is short of its floor or inside the settle window |
| CtlWaiting.HeldBounded | src/ctlsock.c:823-947 | after any history a command still at the head has waited at most floor + settle + 3 pass distances, whatever else arrives |
| CtlLateness.PastFloorHeldIff | src/ctlsock.c:924-936 | once its floor is over a command is held if and only if it is a button edge, the pointer is not settled, and the window is not yet open or not yet over; a window open when the floor was over makes floor + settle enough |
| CtlLateness.HeldPastFloorAndWindow | src/ctlsock.c:885-936 | a run from the start with passes a second apart in which the head is held 2998 ms past floor + settle |
| CtlPointer.MoveCloser | src/ctlsock.c:683-702 | an effective tick brings the pointer exactly one report closer and keeps the belief |
| CtlPointer.MoveAbsBelievedIff | src/ctlsock.c:707-723 | on the mouse route every absolute move keeps the belief, on the tablet route if and only if the slams still to send reach its target |
| CtlPointer.RunBelieved | src/ctlsock.c:653-736 | in every run on any changing route whose motion commands are safe where they are applied, wherever the guest's pointer was: once placed, belief and guest agree |
| CtlPointer.TakeBelievedIff | src/ctlsock.c:705-821 | a command keeps the belief if and only if it is safe |
| CtlPointer.RunPointer | src/ctlsock.c:670-703 | after a run without motion, at any report rate and on any route, the pointer is where its reporting passes have brought it |
| CtlPointer.FixedTargetReached | src/ctlsock.c:670-703 | at any report rate and on any route, every pass that reports takes one off what is left; a fixed target is reached after exactly that many, and kept |
| CtlPointer.PassReportsAlways | src/ctlsock.c:676-682 | on the mouse route without a rate limit that is every pass |
| CtlPointer.TicksBound | src/ctlsock.c:718-722 | which is at most the remaining slams plus the way across the screen in steps |
| CtlPointer.MoveArrives | src/ctlsock.c:705-723 | after an absolute move by mouse and the reports it takes the guest's pointer is at the coordinates, or at the nearest edges; by tablet at once |
| CtlPointer.RelativeMoves | src/ctlsock.c:725-736 | a relative move by mouse of at most 63 counts an axis moves the guest's pointer by them, as far as the edges |
| CtlPointer.TickRate | src/ctlsock.c:670-682 | with a rate limit a tick by mouse reports if and only if the clock has come that far since the last report, and remembers when |
| CtlPointer.ParkedNeverSettles | src/ctlsock.c:653-723 | a pointer placed by the tablet and not homed stays on its target in every run without motion, and is never settled |
| CtlPointer.ParksIff | src/ctlsock.c:707-723 | an absolute move leaves it so exactly when the tablet takes it and no slam has been ordered |
| CtlLateness.ParkedClickWaits | src/ctlsock.c:924-936 | in such a run a button edge past its floor is held exactly until the settle window is over, with the guest's pointer on the target |
| CtlPointer.ClickLands | src/ctlsock.c:924-936 | a button edge by mouse goes through with the guest's pointer on the target, or after the settle window |
| CtlPointer.MoveRelBelievedIff | src/ctlsock.c:725-736 | a relative move keeps the belief if and only if the tablet is in use, or truncation to 63 makes no difference after clamping and the slams still to send reach the guest |
| CtlPointer.MoveRelDrifts | src/ctlsock.c:725-736 | a run from the start, wherever the guest's pointer was: homed, and after 64 counts from the corner one count off |
| CtlPointer.HomingFindsIff | src/ctlsock.c:684-694 | after the slams the injector believes in the corner; the guest is there if and only if the slams reached it |
| CtlPointer.RouteChangeLosesOrigin | src/ctlsock.c:684-723 | a run from the start, on the real screen size, with a tablet that answers once: homed, believed in the corner, and 48 pixels from it |
| CtlSock.Injector.PushCmd | src/ctlsock.c:320-339 | the ring is a queue of at most CTL_QUEUE-1; a full one rejects and is unchanged |
| CtlSock.Injector.Tick | src/ctlsock.c:670-703 | in place |
| CtlSock.Injector.Held | src/ctlsock.c:885-936 | all hold conditions, with every clock reading |
| CtlSock.Injector.Apply | src/ctlsock.c:705-821 | in place, all verbs |
| CtlSock.Injector.DrainQueue | src/ctlsock.c:823-947 | a whole pass, with any pushes whenever the lock is free |
| Resampler.CountIs | src/sndfifo.c:164-184 | ceil(n*2^32/STEP) frames for n input frames |
| Resampler.OutputStable | src/sndfifo.c:164-187 | more input does not change frames already produced |
| Resampler.OutputBetween | src/sndfifo.c:173-175 | each sample lies between its two neighbours and fits 16 bits |
| Resampler.OutputOnLine | src/sndfifo.c:165-186 | each sample is the value on the line between its neighbours, rounded down |
| Resampler.ParseBigEndian | src/sndfifo.c:150-163 | frames written left before right and high byte before low are read as they were |
| Resampler.EncodeDecodes | src/sndfifo.c:176-179 | the little-endian bytes give the sample back |
| SndFifo.Fifo.Write | src/sndfifo.c:141-191 | after any call the bytes emitted so far are the closed form of all input so far, staging flushes included |
| SndFifo.SentFrame | src/sndfifo.c:141-191 | frame k of what was sent is the interpolation at k*STEP, and there are exactly Count(n) |
| SndFifo.BlocksDoNotMatter | src/sndfifo.c:141-191 | splitting the input at frame boundaries changes nothing |
| FormatterModel.Walk | src/mo.c:599-714 | N sectors at increment k from a target in reach: exactly L, L+k, ..., each once and in order, one operation complete, no timeout, idle after that |
| FormatterModel.CompletesIff | src/mo.c:605-687 | with the sector timer and without it: a transfer completes if and only if its count was above 0, its first sector is in reach and, for more than one sector, the increment is not 0 |
| FormatterModel.IdleStays | src/mo.c:653-654 | an idle formatter touches and raises nothing |
| FormatterModel.TooFarTimesOut | src/mo.c:637-645 | a sector too far ahead times out at the 33rd miss, nothing touched |
| FormatterModel.BehindTimesOut | src/mo.c:637-645 | one behind the head times out at once |
| FormatterModel.BehindForever | src/mo.c:631-647 | and without the timer is waited for for ever |
| FormatterModel.WriteTooEarly | src/mo.c:677-687 | a write under the head misses its sector |
| Formatter.MoFormatter.SectorIsDone | src/mo.c:599-612 | the 8-bit registers carry as one sector number |
| Formatter.MoFormatter.MatchId | src/mo.c:616-648 | ids match exactly when the positions are equal, and are ordered as positions |
| Formatter.MoFormatter.LogicalSector | src/mo.c:168-180 | the logical sector of a position on the disk |
| Formatter.MoFormatter.FormatterIo | src/mo.c:650-714 | in place: registers, image and buffer of every mode |
| Formatter.MoFormatter.Spiral | src/mo.c:1542-1562 | the formatter and then the head's next position |
| PathModel.WalkIsFold | src/file.c:928-984 | scanning is folding over the components, an empty one counting as a component |
| PathModel.NormalClean | src/file.c:892-990 | the result is absolute, without "." or "..", and no longer than the name |
| PathModel.WalkPlain | src/file.c:974-983 | a name without dots is left alone |
| PathModel.NormalTwice | src/file.c:892-990 | twice is once |
| PathModel.UpCancels | src/file.c:892-990 | a directory and ".." behind it can be left out |
| PathModel.HereCancels | src/file.c:892-990 | "." can be left out, and ".." at the root |
| PathModel.DotsAtEnd | src/file.c:892-990 | at the end of a name they give what they give in front of a separator, without it |
| PathName.UpOne | src/file.c:944-957 | in place: exactly the last component goes, the root stays |
| PathName.CopyOn | src/file.c:974-983 | in place: up to and with the next separator |
| PathName.MakeAbsoluteName | src/file.c:892-990 | in place: the buffer holds the normal form, of the working directory and the name if that is relative |
| PathName.AbsoluteNames | src/file.c:892-990 | what a caller may rely on for every absolute name that fits |
| ConfigText.TrimIs | src/str.c:33-57 | what is left between blanks is the trimmed text |
| ConfigText.LinesOfText | src/cfgopts.c:330-336 | short printed lines are read back one by one, and the end of file is not met early |
| ConfigText.ScanDecimal | src/cfgopts.c:102-104 | a printed number scans as itself |
| ConfigTheorems.WrittenLine | src/cfgopts.c:206-254 | a written setting names its key and gives its value back over any old value |
| ConfigTheorems.FlagByHand | src/cfgopts.c:71-104 | TRUE and FALSE are read in any case and with any blanks around them |
| ConfigTheorems.NumberByHand | src/cfgopts.c:71-104 | a number is read with blanks in front and anything but a digit behind |
| ConfigTheorems.OtherByHand | src/cfgopts.c:71-104 | without a digit the old number stays, and an empty text is no entry |
| ConfigTheorems.LoadPrinted | src/cfgopts.c:170-196 | loading a written section settles exactly the entries it names and counts every line |
| ConfigTheorems.SectionAgain | src/cfgopts.c:358-414 | a rewritten section is rewritten alike, and names what it should |
| ConfigSaving.SaveThenLoad | src/cfgopts.c:147-200 | after a save, loading over any table gives every written entry (strings trimmed), leaves the others, and returns the same count |
| ConfigSaving.SaveThenLoadIff | src/cfgopts.c:296-465 | all settings come back into every table if and only if every entry gets a line |
| ConfigSaving.SaveTwice | src/cfgopts.c:296-465 | a second save leaves the text unchanged if and only if the header was found; a new section loses one newline, a header at an unfinished end makes the file grow |
| ConfigSaving.OtherLinesKeptIff | src/cfgopts.c:326-425 | up to blank lines the saved text is the lines up to the header, the section, and the next header with all lines below it, trimmed and in order, if and only if that header is a finished line; otherwise only it is lost |
| ConfigSaving.OldLinesInFront | src/cfgopts.c:339-342 | without a usable header all lines stay in front of the new section |
| ConfigSaving.OtherSectionsKept | src/cfgopts.c:296-465 | every section whose header cannot be mistaken for this one loads into every table what it loaded before |
| ConfigSaving.DuplicateHidesKey | src/cfgopts.c:393-408 | a text with two lines for one key: after a save the other entry of two loads its old value |
| ConfigSaving.LastHeaderDropped | src/cfgopts.c:416-417 | a text whose next header ends it without a newline is saved without that header |
| ConfigFile.StrTrim | src/str.c:27-57 | in place, memmove included |
| ConfigFile.Reader.Gets | src/cfgopts.c:163-165 | fgets into 1024 bytes, with its end-of-file mark |
| ConfigFile.InputConfig | src/cfgopts.c:147-200 | the values stored and the number returned |
| ConfigFile.RewriteSection | src/cfgopts.c:358-391 | output, count and saved-token flags |
| ConfigFile.WriteHeaderTokens | src/cfgopts.c:262-280 | header, every entry, blank line |
| ConfigFile.UpdateConfig | src/cfgopts.c:296-465 | the text left and the number returned |

## Left out

- RsBerlekamp.RoundB: the source updates its two polynomial pairs in one loop, the model one pair after the other; the pairs do not share a variable.
- RsStringDecoder.DecodeString: five-byte local arrays that do not change any more are passed on as values.
- Scheduler.CycInt.Advance: handlers only make scheduler calls, and none at or before the deadline being served; counters do not wrap, and clock readings and time deadlines are below 2^63; nested calls of CycInt_AddCycles from a handler are not modelled.
- TimingModel.TimeIsMonotone: host frequencies that are a multiple of 1 MHz; the floating point multiplier for other frequencies is not modelled. The host counter does not go backwards and a sleep lasts as long as asked.
- ScsiChain.Chain.WriteMemory: bus errors, the floppy's use of the channel, status lights and interrupt lines.
- ScsiChain.Chain.HandlerIn: the scheduling of the next call is a flag, and the time a transfer takes is left out.
- ScsiChain.Chain.FifoWrite: the gross error bit of an overflow.
- EspTheorems.WriteEndToEnd: the guest initialises the channel only while nothing waits in its FIFO; what waits would be thrown away.
- EspTheorems.ReadEndToEnd: an initialisation at an address that is not a multiple of 4, and the flush of the turbo chip set.
- ScsiTarget.Target.WriteNext: the table of shadow blocks of write protected images; writes go to the image.
- Message, command and status phases of the ESP, select, pad and PIO transfers, other SCSI commands.
- The DMA loops of the optical disk channel, which repeat those of the SCSI channel; sound, printer, DSP, Ethernet and video channels.
- MemoryToMemory.TransferCompletes: regions apart from each other, not chained, of whole bursts, without bus errors.
- CtlSock.Injector.DrainQueue: sockets, threads and the parsing of control lines; pushes arrive whenever the spin lock is free.
- CtlPointer.ClickLands: button edges while no tablet is used; with a tablet the source takes every pointer for settled.
- SndFifo.Fifo.Write: what a pipe that does not take all bytes makes of the emitted frames.
- Formatter.MoFormatter.Spiral: the head of the drive that is not selected, which moves on alike.
- Formatter.MoFormatter.FormatterIo: the read-id mode, head checks that abort, and the ECC and DMA steps between disk buffer and memory; the Reed-Solomon model covers the codec itself.
- PathName.MakeAbsoluteName: a relative name that together with the working directory overruns the buffer.
- ConfigModel.Parse: the types bool, int and string; character, short, long, floating point and key name settings are left out, and so are numbers beyond an int and strings longer than their buffer.
- ConfigSaving.SaveThenLoad: lines below 1023 characters, single-line values, distinct keys without "=" that do not look like a comment or a header, and a header that starts with "[".
- Calls without a header, the temporary file, and errors of the file system.
- Logging, configuration dialogs, PNG, pcap, SLiRP, u-law and BCD tables, address decoders.
