# Verification of the AMD Research IBS Toolkit

A Dafny model of the sampling engine of the AMD Research IBS Toolkit and of the programs around it,
with proofs of what its parts promise each other. `dafny verify dfyconfig.toml` checks all of it.

- `RingProtocol.dfy`: the per-CPU sample buffer as a concurrent protocol. The NMI handler and one
  reader are interleaved load by load and store by store; memory is sequentially consistent and there
  is one reader.
- `SampleBuffer.dfy`: the same buffer as an object updated in place, one caller at a time.
- `Driver.dfy`: open, release, ioctl, the control MSR and the NMI handler of one device as a state
  machine with an NMI possible between any two steps.
- `ControlRegister.dfy`, `DeviceControl.dfy`: the control word `dev->ctl`, its fields, the value
  re-armed after a sample, and the sampling rate from command line to CSV.
- `Rearm.dfy`: the random bits put into the start count when the op counter is re-armed.
- `Words.dfy`, `Arith.dfy`: 64-bit registers as sets of one-bit positions (`|` is union, `& ~` is
  difference, a bit test is membership), the scatter and gather loops, and remainders.
- `Lfsr.dfy`, `LfsrJumps.dfy`: the random register behind the op counter and its full period.
- `ZenWorkaround.dfy`: the Family 17h workaround over the sibling threads of a core.
- `Wakeup.dfy`: the wait queues of read and poll.
- `HeaderText.dfy`, `TraceHeader.dfy`, `TraceRows.dfy`: the trace file header that the monitor prints
  and the decoder parses, and the decoder's CSV rows from sample to text.
- `Library.dfy`, `Monitor.dfy`, `Annotate.dfy`: the library's collection of samples, the monitor's
  accounting, and the annotator's chunking and library search.

The kernel branches for version 3.13 and later are the ones modelled.

Where the code does not do what its comments or its callers expect, the model keeps the code:

- do_ibs_read loads `wr` and `entries` separately. Samples published between the two loads can make it
  report and release samples that it did not copy when the buffer has wrapped (`RingProtocol.TornRead`),
  and copy slots past the end of the buffer when it has not (`RingProtocol.ReadPastEnd`).
  `CopySlotsExact` and `TornSnapshotFits` give the exact condition for the slots to be the right ones,
  `CopiesInside` the one for them to lie in the buffer. Two kinds of run are exact: those that publish
  nothing between the loads (`QuietDelivery`), and reads of no more samples than FIONREAD counted
  (`ReadIsNeverShort`), which is how the library reads.
- The handler keeps `wr` in 32-bit locals, which is exact only for capacities up to 2^32
  (`RingProtocol.NewWrExact`).
- A failed SET_BUFFER_SIZE leaves the freed buffer in place, although the message says that the buffer
  is unchanged; asking for the old size afterwards succeeds and changes nothing
  (`Driver.OldSizeAfterFailure`). `BufferAfterRequests` says after which requests there is a buffer.
- Without the extended counter the random bits overwrite the low bits of the configured start count
  (`Rearm.StartCountSurvives`); the default start count is gone with the first sample.
- The Family 17h registers return to their original values only under the condition of
  `ZenWorkaround.LeavesOriginal`.
- The monitor asks for a lost count only after a read that found something, so lost counts of devices
  with an empty queue at the flush never reach its statistics (`Monitor.Run.Collect`).
- Free text in a trace header can end the header early or replace the processor family and model
  (`TraceHeader.HeaderRoundTrip` gives the exact condition, `NewlineOverridesFamily` an instance).
- Rows of op traces from families 14h and 16h are two fields too long unless the sample shows
  IbsOpData2 (`TraceRows.RowsLineUpByMachine`), and the column IbsOpReturn holds the branch-retired bit.
- The decoder's workaround for erratum 717 tests `ibs_dc_miss -= 0`, so on family 15h, models 0 and 1,
  the column IbsDcMabHit reads 0 on every miss and is left alone on hits (`TraceRows.ColumnIsRight`,
  `MabBitLost`).

## Model

| member | source | states |
|---|---|---|
| `RingProtocol.StepInv` | driver/ibs-fops.c:206-245 | every single load, copy and store of producer or reader keeps the ring invariant: indices follow the sample counts, queued slots hold the queued samples, `entries` is the occupancy corrected by each side's position |
| `RingProtocol.WriterAvoidsQueue` | driver/ibs-interrupt.c:183-197 | the slot being filled is none of the slots a reader may still copy |
| `RingProtocol.StepRefinesQueue` | driver/ibs-interrupt.c:168-197 | each step appends one sample, removes the oldest n or leaves alone a queue of at most capacity - 1 samples, and full is found exactly at capacity - 1 |
| `RingProtocol.LoadRdInv` | driver/ibs-interrupt.c:183-186 | the full test succeeds exactly when capacity - 1 samples are queued |
| `RingProtocol.NewWrExact` | driver/ibs-interrupt.c:168-169 | the 32-bit index arithmetic follows the ring for every index if and only if the capacity is at most 2^32 |
| `RingProtocol.CopySlotsExact` | driver/ibs-fops.c:219-239 | the two copy branches visit the slots of the oldest samples if and only if the loaded `wr` leaves room for the count |
| `RingProtocol.CopyIsExact` | driver/ibs-fops.c:219-243 | a fitting read hands over exactly the oldest n samples in order |
| `RingProtocol.QuietSnapshotFits` | driver/ibs-fops.c:208-217 | loads of `wr` and `entries` with nothing published between them always fit |
| `RingProtocol.TornSnapshotFits` | driver/ibs-fops.c:208-217 | with any number of samples published between the loads, a read of n fits if and only if n is at most what was queued at the load of `wr`, or that was nothing, or an unwrapped buffer is not read past its end |
| `RingProtocol.CopiesInside` | driver/ibs-fops.c:219-239 | every copied slot lies in the buffer if and only if an unwrapped buffer is not read past its end |
| `RingProtocol.ExactDelivery` | driver/ibs-fops.c:206-245 | over every run whose reads fit, delivered samples followed by queued samples are the accepted samples |
| `RingProtocol.QuietDelivery` | driver/ibs-fops.c:206-245 | the same for every run that publishes nothing between the two loads of a read |
| `RingProtocol.ReadTakesTheLess` | driver/ibs-fops.c:208-217 | the load of `entries` lets the read take the smaller of what is wanted and what is counted, and ends it at once exactly when that is zero |
| `RingProtocol.ReadDelivers` | driver/ibs-fops.c:206-245 | a read of any size whose loaded `wr` fits delivers the oldest samples, as many as wanted or counted, whichever is less, and leaves all others queued, whatever the producer does during the copy |
| `RingProtocol.QuietReadTakesAll` | driver/ibs-fops.c:206-245 | a read that asks for more than is counted, with nothing published between its loads, delivers exactly the counted samples, oldest first |
| `RingProtocol.FullPass` | driver/ibs-interrupt.c:183-186 | a pass of the handler over a full buffer counts one lost sample and changes nothing else |
| `RingProtocol.ReadIsNeverShort` | lib/ibs.c:416-484 | a read of no more than FIONREAD counted delivers exactly the counted samples, oldest first, whatever the producer does before and during the read; no condition on the snapshot |
| `RingProtocol.TornRead` | driver/ibs-fops.c:208-243 | a reachable run of a three-slot buffer in which a sample is released without being delivered |
| `RingProtocol.ReadPastEnd` | driver/ibs-fops.c:219-221 | a reachable run of a four-slot buffer in which the memory after the last slot is delivered as a sample |
| `SampleBuffer.Buffer.constructor` | driver/ibs-utils.c:29-46 | a new buffer of size / entry_size slots is empty |
| `SampleBuffer.Buffer.Reset` | driver/ibs-utils.c:18-27 | empties the queue and the lost count |
| `SampleBuffer.Buffer.Accept` | driver/ibs-interrupt.c:168-197 | the sample is appended when fewer than capacity - 1 are queued, otherwise only counted as lost |
| `SampleBuffer.Buffer.CopyOldest` | driver/ibs-fops.c:219-239 | one or two copies put the oldest n samples at the front of the user's buffer and touch nothing else of it |
| `SampleBuffer.Buffer.DoRead` | driver/ibs-fops.c:206-245 | moves the oldest samples to the user, as many as wanted or available |
| `SampleBuffer.Buffer.Read` | driver/ibs-fops.c:247-285 | argument errors, the empty cases and the byte count returned |
| `Driver.StepInv` | driver/ibs-fops.c:313-502 | every step of control, hardware and handler keeps the invariant linking `ctl`, `in_use`, the MSR and the handler |
| `Driver.HardwareFollowsControl` | driver/ibs-fops.c:356-374 | in every reachable state with the lock free, MSR enable implies `ctl` enable implies `in_use`; a handler at work implies `ctl` enable |
| `Driver.ReconfiguredOnlyWhenStopped` | driver/ibs-fops.c:340-355 | `ctl` is reconfigured, and the buffer reset or replaced, only with the MSR zero and the handler idle |
| `Driver.DisableEndsClear` | driver/ibs-fops.c:94-112 | a finished disable leaves the MSR zero and the enable bit out of `ctl` |
| `Driver.StepsAreCommands` | driver/ibs-fops.c:356-460 | the steps that change `ctl` (the two steps of a SET, the option, enable and disable) do to it what the command of `ControlRegister.Ioctl` does |
| `Driver.DefaultsAtOpenAndRelease` | driver/ibs-fops.c:162-204 | open and release leave the default settings and an emptied buffer, and a released device can be opened again |
| `Driver.BufferResets` | driver/ibs-fops.c:461-495 | the buffer is emptied exactly by open, release, RESET_BUFFER and resizes that reply 0 |
| `Driver.DisableIsFinal` | driver/ibs-fops.c:185-204 | after a disable, over every run without an enable, nothing is stored, lost or re-armed, wherever NMIs fall |
| `Driver.NmiDuringDisable` | driver/ibs-fops.c:73-99 | an NMI inside the disable changes nothing and is claimed as long as the forced valid bit stands |
| `Driver.OtherNmis` | driver/ibs-interrupt.c:249-271 | an NMI without the valid bit is not claimed and changes nothing, the one after the forced valid bit of a disable is claimed, and a CPU that goes down samples no more |
| `Driver.RearmRestoresSettings` | driver/ibs-interrupt.c:93-112 | on every device the handler's last write leaves the MSR enabled with the maximum count of `ctl` and a clear valid bit, so that the next sample can come exactly if that count is not zero; for fetch the MSR was cleared and is `ctl` again, with the extended counter it means what `ctl` means |
| `Driver.SamplingGoesOn` | driver/ibs-interrupt.c:207-211 | over every run without a disable or a CPU going down, the MSR is ready for the next sample whenever the handler is idle |
| `Driver.SampleIsClaimed` | driver/ibs-interrupt.c:173-181 | the NMI of every sample of an enabled device gets past the early returns of the handler |
| `Driver.EachSampleRearmsOnce` | driver/ibs-interrupt.c:161-247 | over every run the samples stored or lost are as many as the re-armings, up to the one in service |
| `Driver.SamplesCarryTheRate` | driver/ibs-interrupt.c:189-193 | every sample stored while enabled decodes to the configured rate rounded down to a multiple of 16 |
| `Driver.BufferAfterRequests` | driver/ibs-fops.c:470-492 | over every run GET_BUFFER_SIZE returns the last size granted, and there is a buffer if and only if each failed request was followed by a granted one for a size other than the one in force at the failure |
| `Driver.ReplyMeaning` | driver/ibs-fops.c:470-489 | SET_BUFFER_SIZE replies 0 exactly when the size in force afterwards is the one asked for, -EINVAL exactly when that is below one entry, -ENOMEM only when the buffer is gone |
| `Driver.OldSizeAfterFailure` | driver/ibs-fops.c:476-483 | after a failed resize, asking for the size in force returns 0 and there is still no buffer |
| `Driver.StoreFindsBuffer` | driver/ibs-interrupt.c:187-189 | every store of every run goes to a buffer if and only if the requests before it keep one |
| `Driver.EveryRequestListReachesAStore` | driver/ibs-fops.c:470-489 | for every list of requests some run makes just these and then stores a sample, so each list that loses the buffer leads to a store without one |
| `ControlRegister.IoctlRefines` | driver/ibs-fops.c:340-460 | each command on the control word has the effect and reply of that command on a plain record of settings |
| `ControlRegister.HistoryRefines` | driver/ibs-fops.c:356-460 | after every ioctl history a GET returns the last accepted SET modulo its width, and the valid bit is clear |
| `ControlRegister.MaskValues` | include/ibs-msr-index.h:38-67 | the fields and bits are the masks of the header file |
| `ControlRegister.DefaultsMeaning` | driver/ibs-fops.c:138-160 | the default control word means maximum count 0x4000 or 0x1000, start count 0, option set, disabled |
| `ControlRegister.SetCurMeaning` | driver/ibs-fops.c:375-392 | setting the start count changes that number, modulo its width, and nothing else |
| `ControlRegister.SetMaxMeaning` | driver/ibs-fops.c:403-419 | setting the maximum count changes that number, modulo its width, and nothing else |
| `ControlRegister.RearmKeepsSettings` | driver/ibs-interrupt.c:70-74 | with the extended counter the re-armed value means what `ctl` means, for all random bits |
| `Rearm.StartCountSurvives` | driver/ibs-interrupt.c:70-74 | without it the settings survive if and only if bits 1 to 4 of the shift register before the call are the low four bits of the start count |
| `Rearm.FirstSampleMovesStart` | driver/ibs-interrupt.c:50-74 | the default start count does not survive the first sample |
| `ControlRegister.RateSurvives` | tools/ibs_monitor/ibs_monitor.c:119-166 | every accepted op or fetch rate is decoded as that rate rounded down to a multiple of 16 |
| `ControlRegister.AcceptedRates` | tools/ibs_monitor/ibs_monitor.c:119-166 | a rate is accepted exactly within the range of its flavour, which for op sampling depends on the extended counter |
| `DeviceControl.ControlWord.constructor` | driver/ibs-fops.c:138-160 | the defaults, built with the scatter loop |
| `DeviceControl.ControlWord.Perform` | driver/ibs-fops.c:340-460 | the ioctl switch, calling the loops, is the specified command |
| `DeviceControl.ControlWord.Command` | driver/ibs-fops.c:340-460 | every call of any history replies as the record of settings would |
| `Words.ScatterBits` | driver/ibs-utils.c:55-71 | the loop sends bit number k of the quantity to the mask position of rank k |
| `Words.GatherBits` | driver/ibs-utils.c:73-89 | the loop collects the bit of rank k back into bit number k |
| `Words.GatherOfScatter` | driver/ibs-utils.c:55-89 | gathering what was scattered gives the quantity cut to the population count of the mask |
| `Words.ScatterOfGather` | driver/ibs-utils.c:55-89 | scattering what was gathered gives the register masked |
| `Words.WriteField` | driver/ibs-fops.c:379-391 | writing one field leaves every disjoint field as it was |
| `Words.FieldRoundTrip` | driver/ibs-fops.c:393-402 | a field of k positions returns the stored number modulo 2^k |
| `Lfsr.Source.Random` | driver/ibs-interrupt.c:50-65 | each call advances the register and returns a value in 1..65535 |
| `Lfsr.OutputInRange` | driver/ibs-interrupt.c:50-65 | every output is in 1..65535 |
| `Lfsr.StepIsBijection` | driver/ibs-interrupt.c:55-62 | the step is one-to-one and onto on 16-bit values |
| `Lfsr.OutputIsWindow` | driver/ibs-interrupt.c:55-62 | the register is a window of sixteen bits on the stream its feedback generates |
| `Lfsr.OutputsRepeat` | driver/ibs-interrupt.c:50-65 | two outputs are equal if and only if their call numbers agree modulo 65535 |
| `ZenWorkaround.Core.Scan` | driver/ibs-workarounds.c:153-164 | finds out whether any sibling has op or fetch sampling enabled |
| `ZenWorkaround.Core.StartWorkaround` | driver/ibs-workarounds.c:144-178 | the workaround bits are in force afterwards and control MSRs unchanged; register 1 is written first, and nothing at all if a sibling already samples |
| `ZenWorkaround.Core.StopWorkaround` | driver/ibs-workarounds.c:180-217 | registers are restored, register 1 first, unless a sibling still samples |
| `ZenWorkaround.Core.EnableOn` | driver/ibs-fops.c:60-71 | the control MSR of the named sibling, and no other, gets the control word, after the workaround; every intermediate state is safe |
| `ZenWorkaround.Core.DisableOn` | driver/ibs-fops.c:94-136 | the control MSR of the named sibling, and no other, ends zero (for op by way of the forced valid bit); the workaround comes after these writes, and the last disable restores the registers |
| `ZenWorkaround.Core.RearmOn` | driver/ibs-interrupt.c:93-112 | re-arming writes the named sibling's MSR only and needs no change to the workaround |
| `ZenWorkaround.Core.Perform` | driver/ibs-workarounds.c:144-247 | over any sequence of operations, after every MSR write an enabled sibling implies active workaround bits; each control MSR is what the operations on it lead to; once something was disabled and nothing samples, the registers are restored |
| `ZenWorkaround.EnabledByLast` | driver/ibs-fops.c:60-136 | a sibling is enabled in the end exactly when some operation enabled it and none disabled it after that |
| `ZenWorkaround.MaskValues` | driver/ibs-workarounds.c:31-36 | the workaround bits are those of the driver's masks |
| `ZenWorkaround.LeavesOriginal` | driver/ibs-workarounds.c:205-216 | the exact condition under which the restored registers are the original ones |
| `Wakeup.RunInv` | driver/ibs-interrupt.c:27-43 | the covering invariant holds over every interleaving of handler, bottom half, reader and poller |
| `Wakeup.NoLostWakeup` | driver/ibs-fops.c:276-300 | between handlers, a sleeper whose condition holds has a bottom half on its way to wake it |
| `Wakeup.NobodyOversleeps` | driver/ibs-fops.c:276-300 | with handler and bottom half idle and nothing queued, no sleeper's condition holds, under every interleaving |
| `Wakeup.BottomHalfWakes` | driver/ibs-interrupt.c:27-43 | whatever is interleaved with it, the bottom half leaves no reader or poller asleep that registered before its wake-up |
| `Wakeup.RegisteringSleeps` | driver/ibs-fops.c:262-311 | a reader or poller that registers over a false condition does fall asleep |
| `Wakeup.SleepsUntilWoken` | driver/ibs-fops.c:276-278 | over every run without a wake-up a sleeping reader sleeps on |
| `Wakeup.PollersWokenByEntries` | driver/ibs-interrupt.c:27-35 | the bottom half wakes a sleeping poller exactly when it found enough entries |
| `Wakeup.RunCounts` | driver/ibs-interrupt.c:196-200 | over every run the indices and `entries` move by what was stored and released, and no bottom half runs that was not queued |
| `TraceHeader.ParseHeader` | tools/ibs_decoder/ibs_decoder.c:177-231 | the decoder's reading loop is the specified parse |
| `TraceHeader.HeaderRoundTrip` | tools/ibs_monitor/ibs_monitor.c:296-462 | printing and parsing are inverse, and parsing stops at the first byte of sample data, if and only if no piece of the free text is the mark and its last pieces on family and model, if any, carry the printed values |
| `TraceHeader.OtherLabelsReadBack` | tools/ibs_monitor/ibs_monitor.c:296-304 | a reader that looks for the stepping or the structure version gets the printed numbers |
| `TraceHeader.MarkLength` | tools/ibs_decoder/ibs_decoder.c:198-206 | a line of equal signs ends the header exactly from 45 signs on |
| `TraceHeader.OrdinaryHeaderRoundTrip` | tools/ibs_monitor/ibs_monitor.c:296-366 | free-text lines without newlines that fit one fgets buffer are harmless |
| `TraceHeader.NewlineOverridesFamily` | tools/ibs_monitor/ibs_monitor.c:323-365 | a newline inside any free-text line, with ordinary lines before and after it, can replace the processor family |
| `TraceHeader.HeadersWellFormed` | tools/ibs_monitor/ibs_monitor.c:368-492 | the op and fetch headers meet the conditions of the round trip for every family, model and feature set |
| `TraceHeader.OpFlagsMeaning` | tools/ibs_monitor/ibs_monitor.c:368-462 | the printed flags are the features of the processor generation and the named CPUID bits |
| `HeaderText.HexRoundTrip` | tools/ibs_monitor/ibs_monitor.c:302-304 | reading back a number printed in hexadecimal gives the number |
| `HeaderText.DecRoundTrip` | tools/ibs_decoder/ibs_decoder.c:25-43 | reading back a number printed in decimal gives the number |
| `HeaderText.MagnitudeOct` | tools/ibs_decoder/ibs_decoder.c:184 | strtoul with base 0 reads a leading zero as octal |
| `HeaderText.PieceLimit` | tools/ibs_decoder/ibs_decoder.c:203 | fgets returns up to the first newline, and at most 254 characters |
| `HeaderText.StrtoulOfMinus` | tools/ibs_decoder/ibs_decoder.c:184 | strtoul negates a number after a minus sign |
| `TraceRows.FieldsOfLine` | tools/ibs_decoder/ibs_decoder.c:25-43 | splitting a printed line at its commas gives back the text of each cell |
| `TraceRows.TextDetermines` | tools/ibs_decoder/ibs_decoder.c:25-43 | equal texts are equal cells: nothing is lost in printing, words and reserved values included |
| `TraceRows.FieldReadsBack` | tools/ibs_decoder/ibs_decoder.c:25-43 | splitting a line at its commas and reading a field gives the number of the cell, which is the sample's field wherever that is printed as it is |
| `TraceRows.RateReadsBack` | tools/ibs_decoder/ibs_decoder.c:424-428 | the number read in the rate column is the sampling rate decoded from the sample's control word |
| `TraceRows.RateFromEndToEnd` | tools/ibs_monitor/ibs_monitor.c:119-166 | a rate accepted on the command line is read in the CSV file rounded down to a multiple of 16 |
| `TraceRows.WideCountAsAccepted` | tools/ibs_monitor/ibs_monitor.c:403-412 | the decoder reads the wide count exactly on machines for which the monitor accepts rates from 2^20 on |
| `TraceRows.OpRowMatchesHeader` | tools/ibs_decoder/ibs_decoder.c:262-606 | for every sample the fields stand under the titles if the flag is set or the sample shows IbsOpData2, and otherwise under the titles of a trace that has the flag |
| `TraceRows.OpRowWidth` | tools/ibs_decoder/ibs_decoder.c:412-606 | so a line is as wide as its header just then, and two fields too long otherwise |
| `TraceRows.ColumnIsRight` | tools/ibs_decoder/ibs_decoder.c:441-543 | a column prints what its title promises, except IbsOpReturn if it differs from the branch-retired bit, and a set MAB bit on a miss on family 15h models 0 and 1 |
| `TraceRows.MabBitLost` | tools/ibs_decoder/ibs_decoder.c:540-543 | there the bit prints as 0 on misses and as it is on hits |
| `TraceRows.RowsLineUpByMachine` | tools/ibs_monitor/ibs_monitor.c:422-426 | the same from the machine's family: only families 14h and 16h can be misaligned |
| `TraceRows.ColumnsByMachine` | tools/ibs_monitor/ibs_monitor.c:368-462 | the optional columns of a trace are those of the features that the machine's generation and CPUID bits give it |
| `TraceRows.FetchRowMatchesHeader` | tools/ibs_decoder/ibs_decoder.c:384-410 | for every sample a fetch line has exactly one field under each title |
| `TraceRows.PutOpEntry` | tools/ibs_decoder/ibs_decoder.c:412-606 | the printing branches of an op sample, run in order, give that row |
| `TraceRows.PutData2` | tools/ibs_decoder/ibs_decoder.c:459-517 | the branches for IbsOpData2 fill one or three columns as specified |
| `TraceRows.PutFetchEntry` | tools/ibs_decoder/ibs_decoder.c:608-680 | the printing branches of a fetch sample give its row |
| `Library.ReadReply` | lib/ibs.c:447-484 | what read() hands over is the first of the counted samples, derived from the buffer protocol over any run |
| `Library.Collect` | lib/ibs.c:406-502 | one device contributes the first samples of its queue, tagged, as far as the array reaches |
| `Library.GetAllSamples` | lib/ibs.c:504-599 | the result is the first max samples of all offered queues in CPU order, op before fetch, with matching tags |
| `Library.Enabler.EnableCpu` | lib/ibs.c:287-328 | success sets the flag of each open descriptor, failure clears both |
| `Library.Enabler.DisableCpu` | lib/ibs.c:360-392 | clears both flags of a listed CPU and nothing else |
| `Library.Enabler.EnableAll` | lib/ibs.c:330-358 | succeeds exactly when no listed CPU refuses, and then all of them are enabled; otherwise those up to the first that refuses are disabled and the rest untouched |
| `Monitor.Run.ReadAndWrite` | tools/ibs_monitor/ibs_monitor.c:827-869 | takes exactly what is queued on the named device at the read, and its lost count with the next call if anything was; every other device only grows |
| `Monitor.Run.ReadDevices` | tools/ibs_monitor/ibs_monitor.c:874-912 | reads exactly the devices reported, in order, and tells what becomes of each device from what arrives before each call |
| `Monitor.Run.Flush` | tools/ibs_monitor/ibs_monitor.c:903-912 | reads every device; with nothing arriving meanwhile all queues end empty |
| `Monitor.Run.ResetBuffers` | tools/ibs_monitor/ibs_monitor.c:818-825 | a reset on enabled devices is refused and loses no count |
| `Monitor.Run.DisableAll` | tools/ibs_monitor/ibs_monitor.c:917-923 | disabling and closing device by device discards exactly what each still holds |
| `Monitor.Run.Collect` | tools/ibs_monitor/ibs_monitor.c:620-651 | over every run the samples stored are the printed statistics plus what closing discards, and those dropped are the lost statistics plus lost counts never asked for; each poll reads the devices reported to it and the flush all; if nothing arrives from the flush on, all stored samples are counted and only lost counts of devices with empty queues remain |
| `Annotate.DumpCsv` | tools/ibs_run_and_annotate/ibs_run_and_annotate:248-267 | consecutive byte ranges that start and end at rows, 0x4000 rows each but the last |
| `Annotate.Visit` | tools/ibs_run_and_annotate/ibs_run_and_annotate:82-102 | a worker visits exactly the rows of its byte range |
| `Annotate.VisitAll` | tools/ibs_run_and_annotate/ibs_run_and_annotate:82-102 | together the workers visit every line once and in file order, for any file |
| `Annotate.Bisect` | tools/ibs_run_and_annotate/ibs_run_and_annotate:127 | splits the bases at the address |
| `Annotate.FindPlace` | tools/ibs_run_and_annotate/ibs_run_and_annotate:126-142 | agrees with a search for the containing library, on sorted libraries that do not overlap |

## Left out

- RingProtocol.ReadIsNeverShort: assumes the library is the only reader of the descriptor, as the driver's own comment does, and that the copy does not fault.
- SampleBuffer.Buffer.constructor: the case in which vmalloc grants the memory; refusals are part of `Driver` only.
- Lfsr.Source.Random: one caller at a time; the driver keeps one register for the handlers of all CPUs and takes no lock.
- TraceRows.OpRowMatchesHeader: columns are named by the field they show; the spelling of the titles, which depends on the family, is not modelled.
- ZenWorkaround.Core.Perform: the operations on one core do not overlap, because the workaround lock does not cover the enable write.
- Driver.SamplesCarryTheRate: the hardware is taken to keep the control bits it is given and to sample only while enabled with a nonzero maximum count.
- Monitor.Run.Collect: SET_BUFFER_SIZE and IBS_ENABLE are taken to succeed on every device, and short writes of the output file are not modelled.
- Wakeup.NoLostWakeup: the poll threshold is fixed; a disable wakes nobody and is not part of this module.
- Annotate.VisitAll: text positions are characters, so the file is taken to be ASCII; filtering by process and mode is not modelled.
- Concurrent read and buffer-resizing ioctls on one shared descriptor, which take different locks.
- Faults in copy_to_user are modelled in the protocol only, and signals interrupting a blocked read not at all.
- Module loading, device creation and CPU hotplug, except that a CPU going down clears the control MSR.
- The static Family 17h workaround, which takes sibling CPUs offline and back.
- Kernel versions before 3.13.
- Parsing of the list of online CPUs, of objdump output and of command lines, and starting the monitored program.
