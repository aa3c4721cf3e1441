# ArduLinux: models and proofs

ArduLinux runs Arduino sketches on Linux. Most of it is thin, but it holds several small
stateful protocols whose correctness spans many calls, failing system calls and, in places,
several threads. This project models those protocols in Dafny and proves what holds of every
run of each. `dafny verify dfyconfig.toml` checks everything.

Each object of the program is a class whose methods follow the C++ member functions branch by
branch. A method's contract equates the object's new `View()` with a function of the old one
and of what the environment answered (kernel, libgpiod, stdio, other threads), and the theorems
are about runs of those functions. Answers are parameters, so a theorem over all parameters is
a theorem about every failure pattern and every interleaving.

| part | files | main results |
|---|---|---|
| multicast send and loopback | `AsyncUDP*.dfy` | one invariant over every interleaving of writers, loop thread, destructor and kernel; from it conservation, stop-and-wait, echo accounting, watchdog soundness, no lost wakeup, queue drain |
| GPIO pins | `GpioPin.dfy`, `GpioEdges.dfy`, `GpioTable.dfy`, `GpioHandles.dfy`, `PulseIn.dfy`, `Millis.dfy` | cache coherence under failing libgpiod calls and re-entrant callbacks, interrupt counts against edges, handle ledger, bounded polling |
| SPI bus sharing | `SpiBus*.dfy` | exclusion per device path, when a transaction keeps its clock |
| files and directories | `VfsFile.dfy`, `VfsFileLaws.dfy`, `VfsPlainFile.dfy`, `VfsDirectory.dfy` | buffered handles refine an unbuffered file from open to close, stat cache, `available`/`read`/`peek`, iteration |
| I2C buffers | `I2c.dfy` | the receive buffer as a FIFO, the transmit buffer round trips |
| start-up | `RebootArgv.dfy`, `Wipe.dfy` | the argv copy parses to the same calls, the tree wipe |

## Reading the AsyncUDP model

`AsyncUDPModel.Core` is the object's fields with a trace of what the loop thread did.
`AsyncUDPRuns` cuts the callbacks at every point where another thread can get in: a writer
between its push and its `uv_async_send`, the loop thread before it pops, between pop and send,
and between send and parking. `Push`, `Signal`, `Wake`, `TryPop`, `HandOver`, `ParkTask`,
`ReadDatagram`, `Tick`, `LoopBack`, `Drop` and `Arrive` are steps of one system, and a run is
any legal sequence of them. `AttemptSteps`, `AsyncCbSteps` and `ReadCbSteps` connect the two
descriptions: a callback that is not interrupted does what the class method does.

## Where an obvious claim is false

Each of these is stated exactly, as an equivalence or with a concrete run.

- The comment on the watchdog says it unblocks the queue; the code releases the parked task and
  sends nothing. `GiveUpStrands` says exactly when queued tasks then stay unsent in every run
  until somebody writes, `StallHappens` gives a run, `WakeupAlwaysSends` shows that any later
  wakeup ends it.
- A sent empty payload is never recognised as an echo, because a zero-length datagram counts as
  an empty buffer (`EmptyPayloadOnlyTimesOut`).
- `pulseIn` keeps `start` in 32 bits. `PulseIn` states the result with what was lost, and that
  it is right exactly while `micros()` fits them.
- `endTransaction` documents a restore and then an unlock, and does them the other way round. A
  thread between the two can undo another transaction's clock (`DirtyClockIsLost`, with a run
  in `LoseClock`).
- The stat cache is stale right after an open that truncates or creates (`CacheAfterOpen`), and
  after a `size()` between a write and its flush if what was buffered goes beyond the file
  (`EarlySizeIsStale`). It then stays stale until the next write or `getLastWrite()`
  (`CachedSizeStays`, `NewFileStaysEmpty`).
- `seek()` takes 32 bits, so bytes further on cannot be gone back to (`WrittenIsReadBack`).
- `peek()` passes its position through 32 bits (`PeekKeepsPosition`); `available()` passes a
  `size_t` through `int` (`AvailableCounts`).
- A combined `requestFrom` keeps the old read index and skips that many bytes
  (`RequestReplacesQueue`, `FirstByteIsSkipped`). The header promises bytes 0 to 255 from `read()`; a signed `char`
  gives negative values, and 0xFF then looks like an error (`ReadValueIsTheByte`).
- A second `gpioInit` leaves the old pins in front (`SecondInit`).
- The filter for reboot takes out the arguments `-e` and `--erase`, and only those. A `-d` whose
  value is one of them loses it (`ErasedValueIsLost`), and `-ed DIR` or `--eras` erase again at
  every reboot (`ClusterErasesAgain`, `ShortenedNameErasesAgain`). `SameCallsIffUnspoilt` and
  `RebootErasesIffAsked` say exactly when.

## Model

| member | source | states |
|---|---|---|
| AsyncUDPModel.AsyncUDP.constructor | cores/ardulinux/AsyncUDP.cpp:43-57 | a new object has no handler, nothing queued or parked, no timer, no shutdown request |
| AsyncUDPModel.AsyncUDP.OnPacket | cores/ardulinux/AsyncUDP.h:241-245 | replaces the handler and nothing else |
| AsyncUDPModel.AsyncUDP.WriteTo | cores/ardulinux/AsyncUDP.cpp:219-229 | appends one new task with the given bytes, raises the wakeup, reports the full length |
| AsyncUDPModel.AsyncUDP.AttemptWrite | cores/ardulinux/AsyncUDP.cpp:231-251 | with nothing parked, pops the newest task, sends and parks it, clears the empty-buffer flag and starts the timer; otherwise changes nothing |
| AsyncUDPModel.AsyncUDP.UvOnRead | cores/ardulinux/AsyncUDP.cpp:92-122 | no data sets the flag if a task is parked; a byte-equal datagram releases the parked task and tries the next; anything else goes to the handler |
| AsyncUDPModel.AsyncUDP.AsyncCb | cores/ardulinux/AsyncUDP.cpp:253-266 | one send attempt, then receiving stops if shutdown was requested |
| AsyncUDPModel.AsyncUDP.TimerCb | cores/ardulinux/AsyncUDP.cpp:268-282 | gives up exactly if a task is parked and the flag is set; sends nothing |
| AsyncUDPModel.AsyncUDP.Shutdown | cores/ardulinux/AsyncUDP.cpp:59-62 | raises the shutdown flag before the wakeup |
| AsyncUDPRuns.AttemptSteps | cores/ardulinux/AsyncUDP.cpp:231-251 | the pop, send and park steps, uninterrupted, are `_attemptWrite`, none of them another thread's |
| AsyncUDPRuns.AsyncCbSteps | cores/ardulinux/AsyncUDP.cpp:253-266 | the steps of an uninterrupted async callback are the method, none of them another thread's |
| AsyncUDPRuns.ReadCbSteps | cores/ardulinux/AsyncUDP.cpp:92-122 | the steps of an uninterrupted read callback are the method, none of them another thread's |
| AsyncUDPRuns.WriterSteps | cores/ardulinux/AsyncUDP.cpp:59-229 | a whole writeTo is its push and then its signal, a shutdown its flag and then its signal, and either leaves a wakeup pending |
| AsyncUDPRuns.ConservedStep | cores/ardulinux/AsyncUDP.cpp:219-251 | no step of any thread loses or duplicates a task between queue, loop thread and send |
| AsyncUDPRuns.TraceKeptStep | cores/ardulinux/AsyncUDP.cpp:92-122 | parked task, timer and empty-buffer flag always say what the history says, at every step |
| AsyncUDPTrace.StopAndWait | cores/ardulinux/AsyncUDP.cpp:231-247 | in every disciplined history the sends are the releases, in the same order, plus the one outstanding |
| AsyncUDPTrace.ReleasesSplit | cores/ardulinux/AsyncUDP.cpp:108-113 | every release is an echo or a give-up, never both |
| AsyncUDPTrace.OneReleaseBetweenSends | cores/ardulinux/AsyncUDP.cpp:231-251 | exactly one release lies between consecutive sends, of the first one's task |
| AsyncUDPTrace.GiveUpSawEmptyRead | cores/ardulinux/AsyncUDP.cpp:268-282 | a give-up follows its task's send and, after that, an empty read, with no other send or release in between |
| AsyncUDPEcho.ReadOwnIsReleased | cores/ardulinux/AsyncUDP.cpp:105-113 | once the parked task's own copy, or any own copy, is read, its task is among the released |
| AsyncUDPEcho.ReadKeepsEchoes | cores/ardulinux/AsyncUDP.cpp:92-113 | reading a datagram keeps own copies unique and those read within the tasks released |
| AsyncUDPEcho.EchoesKeptStep | cores/ardulinux/AsyncUDP.cpp:92-122 | no own copy exists twice and none of an unreleased task has been read, kept by every step |
| AsyncUDPEcho.ReadsAccountedStep | cores/ardulinux/AsyncUDP.cpp:92-122 | every step keeps the balance of datagrams read, passed on and used up as echoes |
| AsyncUDPEcho.OwnDataIsDataOf | cores/ardulinux/AsyncUDP.cpp:108-111 | if the own copies read are exactly the released tasks, their payloads agree as multisets |
| AsyncUDPTheorems.InvStep | cores/ardulinux/AsyncUDP.cpp:92-282 | every step of every thread and of the kernel keeps the whole invariant |
| AsyncUDPTheorems.Reachable | cores/ardulinux/AsyncUDP.cpp:43-282 | the invariant holds after every run from a new object |
| AsyncUDPTheorems.Conservation | cores/ardulinux/AsyncUDP.cpp:219-251 | after every run submitted = queued + in hand + sent, sent = echoed + timed out + parked, and nothing is sent twice |
| AsyncUDPTheorems.SubmittedAreTheWrites | cores/ardulinux/AsyncUDP.cpp:219-229 | over every run the submitted tasks are the writes in the order of their pushes, payload and destination intact |
| AsyncUDPTheorems.LastWrittenGoesFirst | cores/ardulinux/AsyncUDP.cpp:219-240 | after every run the task taken next is the one written last of all that wait |
| AsyncUDPTheorems.ExactlyOneReleaseBetweenSends | cores/ardulinux/AsyncUDP.cpp:231-251 | the same separation of sends in every reachable history |
| AsyncUDPTheorems.WatchdogTimer | cores/ardulinux/AsyncUDP.cpp:268-272 | a task is parked exactly while the timer runs, so the timer callback never finds nothing parked |
| AsyncUDPTheorems.WatchdogSound | cores/ardulinux/AsyncUDP.cpp:231-282 | every give-up of every run saw the buffer empty during its own wait, never on a flag from an earlier task |
| AsyncUDPTheorems.EchoAccounting | cores/ardulinux/AsyncUDP.cpp:92-122 | datagrams read = passed on + payloads of echoed tasks; passed on never exceed foreign ones by more than the give-ups |
| AsyncUDPTheorems.ParkedCopyIsUnread | cores/ardulinux/AsyncUDP.cpp:105-113 | while a task is parked its own copy has not been read |
| AsyncUDPTheorems.HandlerSeesForeign | cores/ardulinux/AsyncUDP.cpp:92-122 | passed on equals foreign exactly if own payloads read equal payloads released; guaranteed with no give-up and all own copies read |
| AsyncUDPTheorems.HandlerHearsForeign | cores/ardulinux/AsyncUDP.cpp:105-119 | a handler set first and kept is then called with exactly the foreign payloads, even where they equal ours |
| AsyncUDPTheorems.RemovedHandlerHearsNothing | cores/ardulinux/AsyncUDP.cpp:105-119 | once the handler is removed nothing is delivered in any run until one is set again |
| AsyncUDPTheorems.NoWakeupIsLost | cores/ardulinux/AsyncUDP.cpp:219-282 | work queued with nothing parked has a wakeup coming, a writer about to signal, or a give-up as the last release; a requested shutdown is never forgotten |
| AsyncUDPTheorems.QuitStopsReading | cores/ardulinux/AsyncUDP.cpp:253-257 | under any interleaving, the first wakeup after a shutdown request stops reception for good |
| AsyncUDPTheorems.WakeupAlwaysSends | cores/ardulinux/AsyncUDP.cpp:231-256 | under any interleaving a wakeup that finds work and nothing parked has sent a task before the loop is idle again |
| AsyncUDPTheorems.WakeupEndsStall | cores/ardulinux/AsyncUDP.cpp:253-256 | uninterrupted, that task is the newest, and it is parked |
| AsyncUDPTheorems.QuiescentMeansDone | cores/ardulinux/AsyncUDP.cpp:92-282 | when nothing is under way and no give-up happened, all that was submitted was echoed and exactly the rest passed on, to the handler if one was set first and kept |
| AsyncUDPDrain.QueueDrains | cores/ardulinux/AsyncUDP.cpp:92-122 | in every run without new work and give-ups, queue + outstanding + echoes = old queue length; once empty, exactly the reversed queue was sent |
| AsyncUDPDrain.EveryEchoedRunDrains | cores/ardulinux/AsyncUDP.cpp:231-256 | after a wakeup, every run without new work and give-ups that comes to rest with all own copies read has sent exactly the reversed queue |
| AsyncUDPDrain.OneWakeupDrains | cores/ardulinux/AsyncUDP.cpp:231-256 | and such a run exists: one wakeup can send the whole queue, newest first |
| AsyncUDPDrain.StallPersists | cores/ardulinux/AsyncUDP.cpp:219-282 | idle, nothing parked, no wakeup coming: until somebody writes or shuts down nothing is sent in any run, and the queue stays |
| AsyncUDPDrain.StrandedIffStalled | cores/ardulinux/AsyncUDP.cpp:219-282 | what is queued stays unsent in all such runs if and only if no wakeup is coming; otherwise some run sends it |
| AsyncUDPDrain.GiveUpStrands | cores/ardulinux/AsyncUDP.cpp:273-278 | a give-up leaves what is queued unsent in all such runs exactly if no wakeup was pending and no writer was about to give one |
| AsyncUDPDrain.StallHappens | cores/ardulinux/AsyncUDP.cpp:273-278 | a run from a new object that ends stranded |
| AsyncUDPDrain.OnlyGiveUpsStrand | cores/ardulinux/AsyncUDP.cpp:219-282 | without a give-up nothing is ever stranded |
| AsyncUDPDrain.EmptyPayloadOnlyTimesOut | cores/ardulinux/AsyncUDP.cpp:93-108 | an empty payload is never released by an echo |
| GpioPin.LinuxGPIOPin.SetPinMode | cores/ardulinux/linux/gpio/LinuxGPIOPin.cpp:377-443 | mode and line move together, with the cached level as seed, or neither moves |
| GpioPin.LinuxGPIOPin.WritePin | cores/ardulinux/linux/gpio/LinuxGPIOPin.cpp:361-375 | promotes to output if needed, drives, caches only what was driven, throws if driving failed |
| GpioPin.LinuxGPIOPin.RefreshState | cores/ardulinux/ArduLinuxGPIO.h:217-228 | no hardware access for an output; otherwise the sample is cached before the callback runs, an error throws and caches nothing, a due null callback aborts |
| GpioPin.LinuxGPIOPin.ReadPin | cores/ardulinux/ArduLinuxGPIO.h:99-106 | refresh, then the cached level as the callbacks left it |
| GpioPin.LinuxGPIOPin.RefreshIfNeeded | cores/ardulinux/ArduLinuxGPIO.h:165-168 | refreshes only with a callback attached |
| GpioPin.LinuxGPIOPin.AttachInterrupt | cores/ardulinux/ArduLinuxGPIO.h:127-131 | stores callback and trigger |
| GpioPin.LinuxGPIOPin.DetachInterrupt | cores/ardulinux/ArduLinuxGPIO.h:133-137 | clears both |
| GpioPin.RunAllKeepsCoherent | cores/ardulinux/linux/gpio/LinuxGPIOPin.cpp:350-443 | over every run, failure pattern and re-entrant callback: cached OUTPUT implies the line is an output driven to the cached level |
| GpioPin.OutputReadIsReal | cores/ardulinux/ArduLinuxGPIO.h:99-106 | reading an OUTPUT pin gives the level on the wire and changes nothing |
| GpioPin.FailingRunKeepsLevel | cores/ardulinux/linux/gpio/LinuxGPIOPin.cpp:350-443 | over every run whose hardware reads and writes fail, whatever mode changes and attachments succeed, the cached level stands and no callback runs |
| GpioPin.ModeIsDirection | cores/ardulinux/linux/gpio/LinuxGPIOPin.cpp:377-443 | once one mode change has succeeded, the cached mode is OUTPUT exactly if the line is an output, after every run, failure pattern and re-entrant callback |
| GpioPin.WriteThenRead | cores/ardulinux/linux/gpio/LinuxGPIOPin.cpp:361-375 | an accepted write is driven and cached, and read back from the cache exactly if the pin was or became an output; otherwise the next read is the line again, 1 as HIGH and 0 as LOW |
| GpioPin.ReadIsTheLine | cores/ardulinux/linux/gpio/LinuxGPIOPin.cpp:350-359 | an input whose line returns 1 reads HIGH and one whose line returns 0 reads LOW, to the caller and in the cache; a poll does the same if a callback is attached and nothing otherwise |
| GpioPin.DetachSilences | cores/ardulinux/ArduLinuxGPIO.h:133-137 | from a detach to the next attach, in every run, nothing is called and nothing aborts |
| GpioPin.RunAllKeepsArmed | cores/ardulinux/ArduLinuxGPIO.h:193-206 | with no null callback ever attached, `assert(isr)` never fails, in callbacks of callbacks too |
| GpioPin.NullCallbackAborts | cores/ardulinux/ArduLinuxGPIO.h:193-206 | with a null callback it fails exactly when the trigger is met |
| GpioEdges.EdgesJoin | cores/ardulinux/ArduLinuxGPIO.h:193-206 | edges of a joined sequence of levels are those of each part, the second starting where the first ended |
| GpioEdges.CallsAreEdges | cores/ardulinux/ArduLinuxGPIO.h:193-228 | over every run of polls and reads, including those that callbacks make, the callback ran once per triggering adjacent pair of (cached level, samples), in order; the last sample is cached |
| GpioEdges.AttachWatches | cores/ardulinux/ArduLinuxGPIO.h:127-228 | attaching to an input, whatever was attached before, starts that account for the given trigger |
| GpioEdges.SeenShowsValues | cores/ardulinux/linux/gpio/LinuxGPIOPin.cpp:350-359 | over every run of polls and reads the levels seen are HIGH exactly where the line returned 1 and LOW exactly where it returned 0; failed reads show nothing |
| GpioEdges.CallsCountTurns | cores/ardulinux/ArduLinuxGPIO.h:127-228 | from attaching on, the callback ran once per rise, fall or change of the values the line returned, counted from the cached level; the last value is cached |
| GpioEdges.ChangeCount | cores/ardulinux/ArduLinuxGPIO.h:193-206 | CHANGE calls are the number of positions where the level differs from the next |
| GpioEdges.RisesAndFalls | cores/ardulinux/ArduLinuxGPIO.h:193-206 | rises plus falls are the changes; last level = first + rises - falls |
| GpioEdges.EdgesAlternate | cores/ardulinux/ArduLinuxGPIO.h:193-206 | each change starts at the level the one before it ended at, so rises and falls alternate |
| GpioEdges.LevelTriggersCountSamples | cores/ardulinux/ArduLinuxGPIO.h:180-206 | HIGH and LOW triggers fire once per sample at that level |
| GpioEdges.ThreeWatchers | cores/ardulinux/ArduLinuxGPIO.h:193-228 | pins that see the same levels for CHANGE, RISING and FALLING agree with one another and with the levels, whatever their callbacks read |
| GpioTable.PinTable.GpioInit | cores/ardulinux/ArduLinuxGPIO.cpp:52-56 | appends that many simulated pins numbered from 0 |
| GpioTable.FreshSlots | cores/ardulinux/ArduLinuxGPIO.cpp:52-56 | those pins are numbered in order, simulated, HIGH, pulled-up inputs with nothing attached |
| GpioTable.PinTable.GpioBind | cores/ardulinux/ArduLinuxGPIO.cpp:71-77 | replaces the one slot with that number and turns the loop sleep off |
| GpioTable.PinTable.GpioIdle | cores/ardulinux/ArduLinuxGPIO.cpp:59-62 | polls in order up to the first hardware input with a callback whose line returned neither 0 nor 1, which throws; later pins are left unpolled |
| GpioTable.SweepOfPin | cores/ardulinux/ArduLinuxGPIO.cpp:59-62 | a sweep caches the level a watched hardware input returned and runs its callback once exactly if old level and value meet the trigger |
| GpioTable.SweepLeavesAlone | cores/ardulinux/ArduLinuxGPIO.h:165-235 | a pin without a callback is unchanged and a simulated pin keeps its level |
| GpioTable.SweepsArePolls | cores/ardulinux/ArduLinuxGPIO.cpp:59-62 | to one pin, any number of sweeps of the table are a run of polls of that pin |
| GpioTable.SweepsCountTurns | cores/ardulinux/ArduLinuxGPIO.cpp:59-62 | over any number of sweeps its callback runs once per rise, fall or change of the values its line returned |
| GpioTable.BindKeepsDispatch | cores/ardulinux/ArduLinuxGPIO.cpp:71-94 | after a bind every pin number still finds the pin with that number |
| GpioTable.SecondInit | cores/ardulinux/ArduLinuxGPIO.cpp:45-56 | one initialisation dispatches right; a second does exactly if it asks for no more pins than the first made, or the first made none |
| GpioHandles.FirstMatch | cores/ardulinux/linux/gpio/LinuxGPIOPin.cpp:143-165 | the result opens and reports the label, and nothing before it does |
| GpioHandles.LookupOrder | cores/ardulinux/linux/gpio/LinuxGPIOPin.cpp:131-170 | a readable device of that name is opened and nothing else tried; any other label is decided by the first scanned chip that opens and reports it, none exactly if there is no such chip |
| GpioHandles.Gpiod.FindChipByLabel | cores/ardulinux/linux/gpio/LinuxGPIOPin.cpp:131-170 | for any listing and any failures: leaves open exactly the first match, and no chip info |
| GpioHandles.PinHandles.RequestAsIs | cores/ardulinux/linux/gpio/LinuxGPIOPin.cpp:197-209 | keeps the line if granted and none of the configuration objects |
| GpioHandles.PinHandles.Construct | cores/ardulinux/linux/gpio/LinuxGPIOPin.cpp:175-323 | succeeds exactly if chip, offset and line are good; a throw leaves every handle as it was; success keeps one line and, in version 1 only, the chip |
| GpioHandles.ReasonsToThrow | cores/ardulinux/linux/gpio/LinuxGPIOPin.cpp:176-306 | the reasons to throw: no chip, a negative offset except for a version 1 name, a line not granted; no other |
| GpioHandles.PinHandles.Destroy | cores/ardulinux/linux/gpio/LinuxGPIOPin.cpp:325-328 | gives back exactly what construction kept; no chip is closed twice |
| GpioHandles.PinHandles.Reconfigure | cores/ardulinux/linux/gpio/LinuxGPIOPin.cpp:414-439 | frees both objects whatever failed |
| GpioHandles.PinLife | cores/ardulinux/linux/gpio/LinuxGPIOPin.cpp:131-443 | over a pin's whole life, opens minus closes and all held handles end where they began; in between one chip more is open exactly for a version 1 pin that was built |
| Millis.Clock.Micros | cores/ardulinux/linux/millis.cpp:38-47 | the first call fixes the start; the result is the 64-bit difference |
| Millis.MicrosAdvance | cores/ardulinux/linux/millis.cpp:38-47 | for a wall clock that is not set back, differences of micros() are differences of the clock |
| Millis.StrictReaches | cores/ardulinux/linux/millis.cpp:38-47 | a clock that moves between readings gains any duration within as many readings |
| PulseIn.PollOnce | cores/ardulinux/ArduLinuxGPIO.h:143-146 | one evaluation of a loop condition, with the clock read only if the level matched |
| PulseIn.WaitWhile | cores/ardulinux/ArduLinuxGPIO.h:143-146 | a polling loop ends within the readings its timeout takes; every read but the last matched, and the end was a change of level or the timeout |
| PulseIn.FindPulse | cores/ardulinux/ArduLinuxGPIO.h:139-144 | the first two loops share one timeout; what each read saw and why each loop ended |
| PulseIn.MeasurePulse | cores/ardulinux/ArduLinuxGPIO.h:145-147 | the third loop has its own timeout; a result below it means a read left the state |
| PulseIn.PulseIn | cores/ardulinux/ArduLinuxGPIO.h:139-148 | polling is bounded by twice the readings a timeout takes, plus three; three runs of reads; the result is the time between two readings, right exactly while micros() is below 2^32 |
| SpiBus.LinuxSPIChip.BeginTransaction | cores/ardulinux/linux/LinuxHardwareSPI.cpp:103-106 | takes the mutex, then sets the clock |
| SpiBus.LinuxSPIChip.EndTransaction | cores/ardulinux/linux/LinuxHardwareSPI.cpp:111-114 | gives the mutex back and then restores the clock |
| SpiBus.LinuxHardwareSPI.Begin | cores/ardulinux/linux/LinuxHardwareSPI.cpp:211-229 | reuses the chip of its path, else opens and registers one, else falls back to a simulated chip |
| SpiBus.LinuxHardwareSPI.BeginNamed | cores/ardulinux/linux/LinuxHardwareSPI.cpp:237-241 | the same on the new path, if one is given |
| SpiBus.LinuxHardwareSPI.End | cores/ardulinux/linux/LinuxHardwareSPI.cpp:244-249 | drops the object's chip and leaves the map alone |
| SpiBus.LinuxHardwareSPI.BeginTransaction | cores/ardulinux/linux/LinuxHardwareSPI.cpp:180-185 | serialises only through a hardware chip |
| SpiBus.LinuxHardwareSPI.EndTransaction | cores/ardulinux/linux/LinuxHardwareSPI.cpp:188-191 | likewise |
| SpiBus.AttachKeepsInv | cores/ardulinux/linux/LinuxHardwareSPI.cpp:211-229 | a begin keeps one chip per path and leaves every running transaction alone |
| SpiBus.UnlockKeepsInv | cores/ardulinux/linux/LinuxHardwareSPI.cpp:111-113 | the unlock half of an ending transaction keeps exclusion and clock invariants |
| SpiBus.RestoreKeepsInv | cores/ardulinux/linux/LinuxHardwareSPI.cpp:111-113 | so does the restore half, which may hit a chip somebody else has locked |
| SpiBus.InvRun | cores/ardulinux/linux/LinuxHardwareSPI.cpp:103-229 | all of it after every run of any number of threads and objects |
| SpiBus.NoOverlapOnAPath | cores/ardulinux/linux/LinuxHardwareSPI.cpp:180-229 | two transactions on one device path, each anywhere from taking the mutex to giving it back, are the same one |
| SpiBus.IdleClockIsDefault | cores/ardulinux/linux/LinuxHardwareSPI.cpp:103-114 | mutex free and nobody between unlock and restore: the clock is the default |
| SpiBus.CleanClockIsKept | cores/ardulinux/linux/LinuxHardwareSPI.cpp:103-114 | a clock set with nobody in that window is kept for the whole transaction, whatever others do |
| SpiBus.DirtyClockIsLost | cores/ardulinux/linux/LinuxHardwareSPI.cpp:111-114 | with somebody in the window, that thread's next step resets the clock under the running transaction, which loses it exactly if it is not the default |
| SpiBus.LoseClock | cores/ardulinux/linux/LinuxHardwareSPI.cpp:103-114 | a run of one object and two threads that ends inside a transaction at the default clock instead of its own |
| SpiBusObjects.BeginSteps | cores/ardulinux/linux/LinuxHardwareSPI.cpp:211-241 | the objects' begin takes the bus they stand for through the begin step |
| SpiBusObjects.EndSteps | cores/ardulinux/linux/LinuxHardwareSPI.cpp:244-249 | likewise end |
| SpiBusObjects.BeginTransactionSteps | cores/ardulinux/linux/LinuxHardwareSPI.cpp:103-185 | an uninterrupted beginTransaction is the lock step and then the clock step |
| SpiBusObjects.EndTransactionSteps | cores/ardulinux/linux/LinuxHardwareSPI.cpp:111-191 | an uninterrupted endTransaction is the unlock step and then the restore step |
| SpiBusObjects.ViaKeptRun | cores/ardulinux/linux/LinuxHardwareSPI.cpp:180-249 | over every run a thread in a transaction still finds on its object the chip it began with |
| VfsFile.VFSFileImpl.constructor | cores/ardulinux/FS/vfs_api.cpp:228-287 | stat before open, so a truncated or created file leaves an old or unset size |
| VfsFile.VFSFileImpl.GetStat | cores/ardulinux/FS/vfs_api.cpp:320-334 | a successful stat caches the size on disk and clears the dirty flag; without a path nothing happens |
| VfsFile.VFSFileImpl.GetLastWrite | cores/ardulinux/FS/vfs_api.cpp:315-318 | refreshes the same cache |
| VfsFile.VFSFileImpl.Write | cores/ardulinux/FS/vfs_api.cpp:336-343 | marks the handle dirty, buffers what stdio accepts, at the end of the file in append mode |
| VfsFile.VFSFileImpl.Flush | cores/ardulinux/FS/vfs_api.cpp:354-362 | everything buffered is on disk and nothing else changes |
| VfsFile.VFSFileImpl.Seek | cores/ardulinux/FS/vfs_api.cpp:364-371 | writes the buffer out, then moves by a 32-bit amount from the start, the position or the end |
| VfsFile.VFSFileImpl.Position | cores/ardulinux/FS/vfs_api.cpp:373-379 | the stream's position, 0 without a file |
| VfsFile.VFSFileImpl.Size | cores/ardulinux/FS/vfs_api.cpp:381-390 | the cached size, refreshed first only if dirty |
| VfsFile.VFSFileImpl.ReadOne | cores/ardulinux/FS/vfs_api.cpp:345-352 | the byte at the position, or none at the end or on a stream not open for reading |
| VfsFile.VFSFileImpl.Close | cores/ardulinux/FS/vfs_api.cpp:294-308 | writes the buffer out and closes the stream, or closes the directory; the path is gone |
| VfsFile.File.Read | cores/ardulinux/FS/FS.cpp:62-74 | the byte or -1, and the position it leaves |
| VfsFile.File.Peek | cores/ardulinux/FS/FS.cpp:85-95 | what read would return, then a seek to the old position cut to 32 bits |
| VfsFile.File.Seek | cores/ardulinux/FS/FS.cpp:106-113 | forwards a 32-bit position, false without an implementation |
| VfsFile.File.Available | cores/ardulinux/FS/FS.cpp:53-60 | size minus position in size_t, cut to int |
| VfsFile.File.Close | cores/ardulinux/FS/FS.cpp:133-139 | closes the implementation and drops it |
| VfsFileLaws.CacheStaysGood | cores/ardulinux/FS/vfs_api.cpp:315-390 | over every run that makes no query between a write and its flush, a handle not marked dirty caches the size on disk |
| VfsFileLaws.CacheAfterOpen | cores/ardulinux/FS/vfs_api.cpp:249-285 | right after opening that holds exactly if the file existed and the open did not shorten it |
| VfsFileLaws.SizeIsTrue | cores/ardulinux/FS/vfs_api.cpp:336-390 | from any open, after one write, size() is the true size whenever the buffer is empty and the stat succeeds |
| VfsFileLaws.SizeIsTrueFromOpen | cores/ardulinux/FS/vfs_api.cpp:249-390 | the same from the start for an open that keeps the file |
| VfsFileLaws.StatOutcomes | cores/ardulinux/FS/vfs_api.cpp:320-390 | a stat that fails or has no path changes nothing, one that succeeds makes the cache true; size() stats only a dirty file |
| VfsFileLaws.RefusedWriteIsDirty | cores/ardulinux/FS/vfs_api.cpp:336-343 | a write to a stream not open for writing writes nothing and still marks the handle |
| VfsFileLaws.EarlySizeIsStale | cores/ardulinux/FS/vfs_api.cpp:381-390 | a size() before the flush is remembered, and right afterwards exactly if nothing was buffered or it lay within the file |
| VfsFileLaws.CachedSizeStays | cores/ardulinux/FS/vfs_api.cpp:315-390 | over every run without a write or getLastWrite(), size() keeps its answer, true or stale |
| VfsFileLaws.NewFileStaysEmpty | cores/ardulinux/FS/vfs_api.cpp:336-390 | a new file with one byte written, a size() and a flush reports size 0 in every such run |
| VfsFileLaws.OverlayTwice | cores/ardulinux/FS/vfs_api.cpp:336-343 | two neighbouring writes to the disk are one |
| VfsFileLaws.SpillIsInvisible | cores/ardulinux/FS/vfs_api.cpp:336-362 | when and how much stdio empties its buffer changes neither contents nor position |
| VfsFileLaws.AppendRun | cores/ardulinux/FS/vfs_api.cpp:336-371 | over every run, what an append handle has buffered belongs at the end of the file |
| VfsFileLaws.WriteLandsAtTarget | cores/ardulinux/FS/vfs_api.cpp:336-343 | a write puts its bytes at the position, or at the end in append mode, whatever is buffered |
| VfsFileLaws.WrittenIsReadBack | cores/ardulinux/FS/vfs_api.cpp:336-371 | seek() reaches a byte just written exactly while its position fits 32 bits, and then read() returns it |
| VfsFileLaws.OpenForReading | cores/ardulinux/FS/vfs_api.cpp:249-256 | opening an existing file with mode "r" gives the handle, at position 0, that the read, available and peek laws are about |
| VfsFileLaws.AvailableCounts | cores/ardulinux/FS/FS.cpp:53-60 | available() is the number of bytes left exactly while that fits an int, negative up to 2^32, and falls by one with each read |
| VfsFileLaws.DrainReadsTheRest | cores/ardulinux/FS/FS.cpp:53-74 | reading while available() returns exactly the rest of the file |
| VfsFileLaws.PeekKeepsPosition | cores/ardulinux/FS/FS.cpp:85-95 | peek() leaves the handle unchanged exactly while the position fits 32 bits |
| VfsFileLaws.AnyNumberOfPeeks | cores/ardulinux/FS/FS.cpp:85-95 | so does any number of peeks, at end of file too |
| VfsPlainFile.OverlayIsPut | cores/ardulinux/FS/vfs_api.cpp:336-343 | what reaches the disk changes exactly the bytes of its range; a hole reads as zeros |
| VfsPlainFile.OpenMeans | cores/ardulinux/FS/vfs_api.cpp:249-285 | each of the six modes opens what the C standard says: "w" empties, "a" starts and writes at the end; a missing file is created or refused, a directory or anything else is not opened as a file |
| VfsPlainFile.RunMeans | cores/ardulinux/FS/vfs_api.cpp:336-379 | over every run of writes, reads, peeks, flushes, seeks in all modes and queries, the handle reads what an unbuffered file would and has its contents and position |
| VfsPlainFile.CloseKeepsContents | cores/ardulinux/FS/vfs_api.cpp:294-308 | close puts what was buffered at its place on the disk; a directory's close leaves the disk alone; stream and path are gone |
| VfsPlainFile.OpenRunClose | cores/ardulinux/FS/vfs_api.cpp:249-379 | open or create, any run, close: everything read, and the disk in the end, are those of the unbuffered file |
| VfsDirectory.VFSDirectory.OpenNextFile | cores/ardulinux/FS/vfs_api.cpp:403-427 | the recursion over skipped entries ends and returns the next file or directory |
| VfsDirectory.VFSDirectory.RewindDirectory | cores/ardulinux/FS/vfs_api.cpp:429-435 | back to the first entry of an open directory |
| VfsDirectory.IterateYieldsNames | cores/ardulinux/FS/vfs_api.cpp:403-427 | iterating yields exactly the regular files and directories left, in order, under their full names |
| VfsDirectory.RewindReplays | cores/ardulinux/FS/vfs_api.cpp:429-435 | a rewind from anywhere replays all of them |
| VfsDirectory.ChildNameHasOneSeparator | cores/ardulinux/FS/vfs_api.cpp:419-424 | a child's name is the parent, one separator and the entry, so different entries get different names |
| I2c.LinuxHardwareI2C.BeginTransmission | cores/ardulinux/linux/LinuxHardwareI2C.cpp:85-88 | empties the transmit buffer and nothing else |
| I2c.LinuxHardwareI2C.WriteByte | cores/ardulinux/linux/LinuxHardwareI2C.cpp:121-127 | appends the byte if there is room, and says so |
| I2c.LinuxHardwareI2C.Write | cores/ardulinux/linux/LinuxHardwareI2C.cpp:130-140 | appends as many bytes as fit, and says how many |
| I2c.LinuxHardwareI2C.EndTransmission | cores/ardulinux/linux/LinuxHardwareI2C.cpp:96-107 | with a stop the device gets what it accepts and the buffer is emptied, code 4 if that was not all; without one nothing happens |
| I2c.LinuxHardwareI2C.RequestFrom | cores/ardulinux/linux/LinuxHardwareI2C.cpp:221-261 | the combined and the plain read, with what each resets and what it does not |
| I2c.LinuxHardwareI2C.Read | cores/ardulinux/linux/LinuxHardwareI2C.cpp:150-170 | serves the front of the queue, widened from char, or asks the device |
| I2c.LinuxHardwareI2C.Available | cores/ardulinux/linux/LinuxHardwareI2C.cpp:197-205 | the queue length, or the driver's count if it is empty |
| I2c.ReadPops | cores/ardulinux/linux/LinuxHardwareI2C.cpp:155-164 | each read drops the front of the queue without touching the device; the last one resets both indices |
| I2c.ReadsServeTheQueue | cores/ardulinux/linux/LinuxHardwareI2C.cpp:150-170 | the next n reads are the n bytes in order, never the device, and a drained buffer has both indices 0 |
| I2c.RequestReplacesQueue | cores/ardulinux/linux/LinuxHardwareI2C.cpp:221-261 | a plain request serves all its bytes; a combined one entered at index k serves max(0, count-k), all of them exactly if k is 0 or there are none |
| I2c.FirstByteIsSkipped | cores/ardulinux/linux/LinuxHardwareI2C.cpp:150-261 | after one of several requested bytes is read, a register write and a combined request report the whole answer and serve all but its first byte |
| I2c.DrainedThenCombined | cores/ardulinux/linux/LinuxHardwareI2C.cpp:150-261 | after a buffer is read out, a combined request skips nothing |
| I2c.ReadValueIsTheByte | cores/ardulinux/linux/LinuxHardwareI2C.cpp:155-163 | read() gives the byte exactly if char is unsigned or the byte is below 128, and the byte less 256 otherwise |
| I2c.WritesAreSent | cores/ardulinux/linux/LinuxHardwareI2C.cpp:121-140 | any sequence of writes buffers their concatenation, cut at 1000 bytes |
| I2c.TransmissionRoundTrip | cores/ardulinux/linux/LinuxHardwareI2C.cpp:96-140 | a stopped transmission returns 0 exactly if the device got that message whole and 4 otherwise, and empties the buffer either way; an unstopped one keeps it |
| I2c.OpenTransmissionIsSent | cores/ardulinux/linux/LinuxHardwareI2C.cpp:96-249 | writes, an unstopped endTransmission and a request put exactly the joined message, cut at 1000 bytes, on the bus before the answer is read; the message stays and a second request sends it again; a failed request changes nothing |
| I2c.PlainRequestSendsNothing | cores/ardulinux/linux/LinuxHardwareI2C.cpp:251-260 | a request with nothing to send sends nothing; if it fails, the receive buffer is empty with both indices 0 |
| RebootArgv.BuildProgArgv | cores/ardulinux/main.cpp:271-281 | stays inside its argc+1 slots, holds the kept arguments, none of them `-e` or `--erase`, and ends in NULL |
| RebootArgv.KeptInOrder | cores/ardulinux/main.cpp:274-280 | the copy is argv in its own order less exactly the erase options |
| RebootArgv.KeptCounts | cores/ardulinux/main.cpp:274-280 | neither `-e` nor `--erase` is left, and every other argument survives as often as it occurred |
| RebootArgv.KeptTwice | cores/ardulinux/main.cpp:274-280 | filtering again changes nothing |
| RebootArgv.ReadAsksErase | cores/ardulinux/main.cpp:101-110 | a token makes the parser see the erase option exactly if it is a cluster that starts with -e, or --e up to --erase |
| RebootArgv.ShortTokens | cores/ardulinux/main.cpp:101-110 | what a cluster of short options means, by its first letter |
| RebootArgv.LongTokens | cores/ardulinux/main.cpp:101-110 | what a long option means, whole or cut short, with and without a value |
| RebootArgv.OrdinaryTokens | cores/ardulinux/main.cpp:171-172 | nothing, a lone dash and anything without a dash are no options; `--` ends the options |
| RebootArgv.LastDirWins | cores/ardulinux/main.cpp:142-177 | a program that runs uses the directory named last |
| RebootArgv.FirstEndDecides | cores/ardulinux/main.cpp:142-177 | the first of help, usage, version and errors decides how a program ends |
| RebootArgv.SameCallsIffUnspoilt | cores/ardulinux/main.cpp:142-177 | parsing the copy makes the original's calls less the erase ones, if and only if the parser meets no other spelling of the erase option and no value of -d that is one |
| RebootArgv.RebootKeepsMeaning | cores/ardulinux/main.cpp:142-177 | then the restarted program, its own name not being an erase option, keeps its name and directory and does not erase, or exits as the original did |
| RebootArgv.RebootErasesIffAsked | cores/ardulinux/main.cpp:271-281 | a program that runs from the copy erases exactly if the parser meets, in option position, another spelling of the erase option |
| RebootArgv.PlainSpellingNeverErasesAgain | cores/ardulinux/main.cpp:271-281 | so if every argument that would spell it is -e or --erase, wherever, it never erases again |
| RebootArgv.ClusterErasesAgain | cores/ardulinux/main.cpp:275-280 | `-ed DIR` goes through the filter unchanged and erases at every reboot |
| RebootArgv.ShortenedNameErasesAgain | cores/ardulinux/main.cpp:275-280 | so does `--eras` |
| RebootArgv.ErasedValueIsLost | cores/ardulinux/main.cpp:275-280 | `-d -e` runs on a directory called `-e`; its copy is refused |
| Wipe.TreeChildrenFirst | cores/ardulinux/main.cpp:206-215 | the visiting order puts all descendants before a directory and repeats nothing, for every tree |
| Wipe.VisitsAreEntries | cores/ardulinux/main.cpp:206-215 | the walk visits exactly the entries of the tree |
| Wipe.FileSystem.UnlinkCb | cores/ardulinux/main.cpp:193-201 | removes the entry unless it is the root; needs a directory to be empty |
| Wipe.FileSystem.Visit | cores/ardulinux/main.cpp:193-216 | each reported entry exists, is empty below, and is removed unless it is the root or the system refuses |
| Wipe.FileSystem.Rmrf | cores/ardulinux/main.cpp:213-216 | every removal is of a file or an empty directory; success means no removal failed and removes exactly what lies below the root; the first failure leaves the original less a prefix of the order, still a tree |
| Wipe.RestIsTree | cores/ardulinux/main.cpp:193-216 | cutting the walk short anywhere leaves a tree |

## Left out

- AsyncUDP socket set-up, libuv handle lifetimes, the join of the loop thread and the conversion of addresses: foreign calls. The constructor's and destructor's shares of the protocol are modelled.
- A failing `uv_udp_send`: the source drops the packet silently, so the model counts it as handed over and the kernel may drop it.
- AsyncUDPModel.AsyncUDP.AsyncCb: of a shutdown it keeps that receiving stops; leaving the multicast group is a foreign call and uv_stop ends the loop.
- After shutdown the model stops reads but still allows wakeups and ticks, which `uv_stop` may prevent: it has more runs than the program. A handler that calls `writeTo` is a `Push` and a `Signal` of another thread.
- Task identity: a task's number stands for the heap object, whose copying and freeing are not modelled; a send buffer is assumed to keep its bytes.
- libgpiod version 1 `setPinMode`, which ignores errors.
- GpioHandles.PinHandles.Construct: does not model a version 1 lookup of an unknown line name, which passes a null line on to libgpiod.
- Allocation failures of libgpiod objects, the check that a device node is a GPIO chip, and the texts of messages.
- Callbacks that throw: an exception from an operation inside a callback is taken to be handled there. `writePin` with a value other than HIGH or LOW, which the source asserts against.
- GpioEdges.CallsAreEdges: covers callbacks that poll and read the watched pin; callbacks that write it, change its mode or re-attach end the watch, and are covered by the coherence and `assert(isr)` theorems.
- GpioTable.PinTable.GpioIdle: callbacks run by the sweep touch no pin, because what a callback does to a pin is covered pin by pin in GpioPin: an operation on another pin is part of that other pin's run.
- PulseIn.PulseIn: assumes a wall clock that is never set back, stays below 2^64 and gains the timeout within some number of readings, which bounds the polling; readings may show the same time. Without that the source may poll forever.
- The enumerations for pin modes and levels come from a header that is not part of this model; PinMode has the four modes the sources name.
- SPI transfers, bit order and mode. `begin` and `end` of one object are taken not to overlap its own transactions, nor each other: `SPI_map` has no lock. The ioctls inside `assert` are taken to be compiled in and to succeed.
- VFS mount point handling, `st_mtime`, existence tests, rename, and `rmdir`, which calls `unlink`: no claim is made that a directory is removed. Failures of `fflush`, `fseek` and `malloc` other than a failing stat.
- VfsFile.VFSFileImpl.constructor: assumes that its two allocations succeed; "a+" starts reading at the beginning, as glibc does.
- VfsDirectory.VFSDirectory.OpenNextFile: yields the child's name; opening the child may fail in the source, which then returns a file that tests false.
- I2C addresses, quick commands, `readBytes` and opening the device.
- I2c.LinuxHardwareI2C.RequestFrom: requires a count of at most 1000, because the source does not check it against its buffer.
- An application's own options, which `ardulinuxAddArguments` may add to the parser: the argv theorems are about the built-in ones, with clusters, shortened names and `--` as argp reads them.
- The walk itself is nftw()'s: sibling order is arbitrary, its own errors and other processes changing the tree meanwhile are not modelled.
- Serial ports, formatted printing, logging, number formatting, delays, random numbers, simulated I2C and SPI, build scripts: one-branch wrappers or text.
