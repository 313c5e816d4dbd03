# lPowerProbe: models and proofs

lPowerProbe runs N copies of a program or kernel in lock-step rounds and samples hardware probes
around each round. This project models its synchronisation protocols, its wrapping energy counter
with the server in front of it, its two text parsers, and the path of the measured values from the
probes through the store to the result file, and proves what these parts are for.

`dafny verify dfyconfig.toml` checks everything.

- **Round protocols** (`KernelRunner`, `KernelInvariant`, `KernelTheorems`, `KernelProgress`;
  `ProgramRunner`, `ProgramSemaphores`, `ProgramHistory`, `ProgramTheorems`, `ProgramProgress`;
  with `Counting`): N threads, the sync process or the forked children, and three counting
  semaphores as a step relation, for every N, every number of rounds and every interleaving. A
  semaphore is a multiset of tokens; the tag on a token says what it was posted for, a wait may
  take any token, and it is a theorem that it never takes a wrong one. Each step appends to a
  history of probe, kernel and program events, on which the statements about whole runs are made.
- **Barrier and measure threads** (`TimerBarrier`, `BarrierTheorems`; `TimerMeasure`,
  `MeasureInvariant`, `MeasureTheorems`): the condition-variable barrier without a generation
  counter, and the controller and its measure threads on top of it, with the read-modify-write of
  `cycles` split in two.
- **Energy** (`EnergyMsr`; `EnergyServer`, `EnergyInvariant`, `EnergyTheorems`; with
  `Arithmetic`): `subvalue` bit by bit, the per-socket loops over arrays, the reconstruction of an
  unbounded count from 32 bits with failing reads, and the server and its client as one transition
  system over those counters.
- **Parsers** (`IniSpec`, `IniBuffers`, `IniRoundTrip`; `DecimalParser`, `DecimalNumbers`,
  `DecimalWithoutLetter`, `YokoMeter`): the INI parser on its mutable buffers against a
  line-by-line specification, and against a printer of sections, pairs, comments, continuations
  and bad lines; the digit loops of the WT210 parser against the value of scientific notation and
  against the decimal text of numbers; the differences of cumulative readings.
- **Collector, store, writer** (`BasePeriod`, `WidePeriods`, `Collector`, `TickRule`, `TickRate`,
  with `Counting`; `ProbeMatrix`, `ResultStore`, `RunnerStores`; `DaemonRunner`,
  `DaemonTheorems`; `ResultsWriter`): the base period for all 32-bit periods, the tick rule with
  the wrap of its clock, the doubling vector of records and what the runners put into it, the
  signal-driven daemon, averaging and subtraction, and the layout of the result file.

Some properties one would expect turned out to be false of the code; each is a theorem with its
exact condition:

- Kernel mode: worker 0 kills the sync process with no regard to how many of the N end posts of the
  last round it has made. The run completes if and only if all N had been made (`KillOutcome`,
  `KillDecides`); with N >= 2 the bad case is reachable (`KillCanComeTooEarly`).
- Tick rule: the comment on the period calls it the step at which a probe is updated. The rule
  fires only when the next multiple of the period is one to four microseconds away. For any base
  period g above 0 and any probe with period p, as long as the 64-bit clock has not wrapped: some run
  updates the probe if and only if gcd(g, p) is at most 4 (`UpdatesBeforeWrap`), and the probe is
  updated once per period if and only if g is 4 and p larger, or g is 3 and divides p, or g and p
  are equal and at most 4 (`OncePerPeriod`). Over runs of any length some run updates the probe if
  and only if 8 does not divide both g and p (`UpdatesEver`). When all periods are below
  `INT_MAX`, g divides p, and these conditions are that g is at most 4 and that 8 does not divide
  g (`UpdatesOfSmallPeriods`); with `INT_MAX` in the list a base period of 6 does update
  (`SentinelUpdates`). A base period of 0, when all periods are `INT_MAX`, leaves the clock at 0.
- The base period takes `INT_MAX` for "no period yet", so periods of `INT_MAX` in front are dropped
  (`SentinelIsDropped`). For periods up to `INT_MAX` it is the greatest common divisor of all
  nonzero periods if and only if there is none, or the first is below `INT_MAX`, or every common
  divisor of those that count divides `INT_MAX` (`MinPeriodIsGcd`), and the order of the probes
  matters under the matching condition only (`MinPeriodOrder`); `SentinelBreaksOrder` shows that
  it can.
- Periods above `INT_MAX` are negative ints in gcd, which then calls itself for ever unless the
  smaller argument divides the other (`GcdReturns`). The constructor returns if and only if all
  such periods are equal and, as an int, divide every other one that counts
  (`ConstructorReturns`); both happen (`WideExamples`).
- The energy of a socket is exact if and only if fewer than 2^32 ticks pass between successive
  successful reads and fewer than 2^32 wraps occur (`WrapReconstruction`).
- The barrier is correct only without spurious wakeups, which IEEE Std 1003.1 permits
  (`SpuriousWakeupBreaksIt`).
- The `cur == NAN` guard of `yoko_read_energy` is never true: results are all numbers if and only
  if no reading is the code for "not a number" (`EnergiesTelescope`), and after such a code a result
  is a number again only behind the next accepted reading (`ResultAt`).
- The exponent letter is not optional in the WT210 parser: the text of a number without it reads
  as that number if and only if the number is zero (`LetterIsNeeded`, `ReadsRightIffZero`).
- INI files: a comment behind a value is dropped (`RoundTrip`), but behind an empty value the comment
  is taken for the value (`RemarkBecomesValue`).
- A termination signal ends the daemon without further signals if and only if it does not come
  between a look at the flag and the `pause()` behind it (`TerminationIsSeen`); both pauses have
  such a moment (`TerminationCanWait`), and one more signal then ends it (`NextSignalEnds`).
- The energy server can leave a client waiting for ever. When it finds its flag set it exits, and
  the client is then lost if and only if its request is in the semaphore at that moment
  (`ExitLosesRequest`); `RequestCanBeLost` is a run to such a moment. A client that posts its
  request after the exit is lost as well (`LateClientIsLost`): in every run that has reached the
  exit, the client is lost if and only if its request is in the semaphore (`ExitStrandsClient`).
- A fact about the classes alone, since the program replaces a number of repetitions of 0 by a
  default (src/Options.cpp:257-261): a store created with capacity 0 never grows, so the daemon
  writes outside its vector if and only if its capacity is 0 and there is a probe
  (`OutOfRangeIffEmpty`).

## Model

| member | source | states |
|---|---|---|
| KernelTheorems.StepKeepsInv | src/KernelRunner.cpp:98-169 | every semaphore operation, kernel entry and exit and the kill keep the invariant: exact token counts per half round, every token meant for its taker, history in step with the program counters |
| KernelTheorems.KernelExclusion | src/KernelRunner.cpp:98-131 | while any worker is between the gates of round r (probe window and kernel call included) every worker has arrived at round r and none has left it |
| KernelTheorems.NoStolenToken | src/KernelRunner.cpp:98-169 | whatever token a semaphore hands out, it was posted for the half round of the thread that takes it |
| KernelTheorems.HistoryTheorem | src/KernelRunner.cpp:98-131 | over whole runs, events are ordered by round and each worker's own events are exactly its calls for rounds 0, 1, 2, ... |
| KernelTheorems.RunsAreFinite | src/KernelRunner.cpp:171-221 | the length of every interleaving is bounded by a measure that each step decreases |
| KernelProgress.ProgressBeforeKill | src/KernelRunner.cpp:133-169 | before the kill no reachable state is stuck |
| KernelProgress.KillOutcome | src/KernelRunner.cpp:216-220 | after the kill a state is stuck exactly when as many workers are done as end posts had been made, and that is the completed run, with empty semaphores, exactly when all N had been made; always so for N = 1 |
| KernelProgress.KillDecides | src/KernelRunner.cpp:216-220 | whichever way a run continues after the kill, it ends completed if and only if the N end posts had been made at the kill |
| KernelProgress.KillCanComeTooEarly | src/KernelRunner.cpp:161-220 | for every N >= 2 and at least one repetition some interleaving ends with only worker 0 finished |
| ProgramTheorems.StepKeepsInv | src/ProgramRunner.cpp:86-214 | every step of every thread and child keeps the invariant over the three semaphores, the lanes and the history |
| ProgramTheorems.RunInsideWindow | src/ProgramRunner.cpp:86-128 | in every interleaving, every program run of round r begins and ends between the collector's start and stop of round r |
| ProgramTheorems.WindowIsPure | src/ProgramRunner.cpp:86-128 | nothing but runs of round r begins or ends inside window r |
| ProgramTheorems.ProjectionTheorem | src/ProgramRunner.cpp:216-231 | each child runs exactly once per round, in order, and there is exactly one probe window per round |
| ProgramTheorems.NoStolenToken | src/ProgramRunner.cpp:94-190 | the two meanings of the father semaphore never mix and no thread or child takes a token of another round |
| ProgramTheorems.GathersAreExact | src/ProgramRunner.cpp:94-190 | the first gather ends with exactly the N children of the round ready, the second with exactly the N - 1 other threads finished, and no such token left |
| ProgramProgress.RunsAreFinite | src/ProgramRunner.cpp:137-231 | every interleaving is finite, bounded by a decreasing measure |
| ProgramProgress.StuckOnlyWhenDone | src/ProgramRunner.cpp:137-231 | if children terminate, a reachable state is stuck exactly when all rounds are done, and then all semaphores are 0 |
| TimerBarrier.Barrier.Create | probes/libtimerarm/barrier.c:26-50 | an empty barrier for a nonzero number of parties |
| TimerBarrier.Barrier.Enter | probes/libtimerarm/barrier.c:52-70 | the last arrival signals everybody blocked, resets the count and goes through; any other blocks |
| TimerBarrier.Barrier.Return | probes/libtimerarm/barrier.c:63-69 | a signalled thread leaves, and nothing else changes |
| BarrierTheorems.BarrierTheorem | probes/libtimerarm/barrier.c:52-70 | in every run without spurious wakeups: the count is the number of blocked threads, nobody leaves wait k before all have entered wait k, completed waits differ by at most one, the reset leaves nobody behind |
| BarrierTheorems.BarrierProgress | probes/libtimerarm/barrier.c:52-70 | some thread can always call or return |
| BarrierTheorems.SpuriousWakeupBreaksIt | probes/libtimerarm/barrier.c:63-66 | any spurious wakeup in any reachable state completes a wait that some thread has not entered |
| MeasureTheorems.Ownership | probes/libtimerarm/timer.c:168-203 | when the controller zeroes or reads cycles or clears the flag, every thread is outside its measuring loop; a thread inside is in the controller's own round |
| MeasureTheorems.FlagStaysUntilAllLeft | probes/libtimerarm/timer.c:177-193 | the stop flag is cleared only when every thread has left its loop |
| MeasureTheorems.ResultsAreWindows | probes/libtimerarm/threadFct.c:87-120 | what stop returns for a core is the sum of exactly that core's accumulations in the matching passage of its loop |
| MeasureTheorems.EveryLookCounts | probes/libtimerarm/threadFct.c:98-112 | over every run, in every round of every thread, each look at a clear stop flag is followed by exactly one accumulation, but for one that may be under way |
| MeasureTheorems.ResultsAreCounts | probes/libtimerarm/timer.c:185-203 | what stop returns for a core is the sum of the cycles that its thread counted in that round of the run, one count for every look at a clear flag |
| MeasureTheorems.LeavesWhenStopped | probes/libtimerarm/threadFct.c:98-117 | a thread that looks at the flag leaves its loop if and only if the controller is inside stop of the same round, and measures on if and only if it is before it |
| EnergyMsr.SubvalueIsField | probes/libenergymsr/libenergymsr.c:86-89 | subvalue(val, pos, len) is (val / 2^pos) mod 2^len |
| EnergyMsr.Probe.Start | probes/libenergymsr/libenergymsr.c:205-225 | every socket whose read succeeds is reset to its low word in its unit, the others stay |
| EnergyMsr.Probe.Update | probes/libenergymsr/libenergymsr.c:241-264 | per socket, a smaller value counts one overflow; failed reads change nothing |
| EnergyMsr.Probe.Stop | probes/libenergymsr/libenergymsr.c:227-239 | per socket, the result combines the last value, the overflows and the reference after an update |
| EnergyMsr.TicksExact | probes/libenergymsr/libenergymsr.c:205-264 | in ticks: exact if and only if gaps and wraps are small; otherwise short of the truth by whole wraps |
| EnergyMsr.TimesIsLinear | probes/libenergymsr/libenergymsr.c:254 | multiplying ticks by a positive unit keeps order and sums, which is all the reconstruction uses |
| EnergyMsr.WrapReconstruction | probes/libenergymsr/libenergymsr.c:205-264 | for one socket: after start, any updates with any failing reads, and stop, the result is the energy of the true ticks up to the last successful read, if and only if gaps and wraps are small |
| EnergyMsr.MeasureAll | probes/libenergymsr/libenergymsr.c:205-264 | start, any number of updates and stop on the arrays of the probe: the result of every socket is what its own reads make of it, whichever of them fail |
| EnergyMsr.MeasureExactly | probes/libenergymsr/libenergymsr.c:205-264 | so, with positive units, for every socket of the probe the result is the number of true ticks up to its last successful read times its unit if and only if its gaps and wraps are small |
| EnergyInvariant.StepKeepsInv | probes/libenergyserver/server/energyserver.c:152-189 | every step of server, client, clock and signal keeps tokens, counters, windows, the shared array and the client's results consistent |
| EnergyTheorems.Rendezvous | probes/libenergyserver/server/energyserver.c:169-188 | measure tokens, request in service and read tokens add up to 1 exactly while the client waits; one answer per request; the array is never written while the client copies it |
| EnergyTheorems.ClientGetsItsEnergy | probes/libenergyserver/libenergyserver.c:149-168 | a start/stop pair returns exactly one measured window, which lies between the call of start and the return of stop, so never more than the true energy of that time |
| EnergyTheorems.EnergyConservation | probes/libenergyserver/server/energyserver.c:180-188 | all replies plus the stop-to-start gaps are the true energy since the first start |
| EnergyTheorems.AnswerComes | probes/libenergyserver/server/energyserver.c:152-189 | while it has not been told to stop the server can move and every move brings the waiting client's answer nearer |
| EnergyTheorems.TimeoutReads | probes/libenergyserver/server/energyserver.c:169-173 | between a timeout and whatever the server does next at its flag or its semaphore lies a moment at which every counter shows the register of that moment |
| EnergyTheorems.SignalEndsServer | probes/libenergyserver/server/energyserver.c:152-189 | once it has been told to stop, the server can always move, each move brings its exit nearer, and it never waits again |
| EnergyTheorems.ExitStrandsClient | probes/libenergyserver/server/energyserver.c:156-163 | in every run that has reached the exit, the client waits and no continuation ever moves it if and only if its request is still in the semaphore |
| EnergyTheorems.ExitLosesRequest | probes/libenergyserver/server/energyserver.c:156-163 | at the look at the flag after a signal the server exits, and this loses the client if and only if a request is in the semaphore at that moment |
| EnergyTheorems.RequestCanBeLost | probes/libenergyserver/server/energyserver.c:156-163 | a run, whatever the counters show, to a look at a set flag with a request in the semaphore, which the exit loses |
| EnergyTheorems.LateClientIsLost | probes/libenergyserver/server/energyserver.c:156-163 | a run in which the client posts its request after the exit and is lost |
| IniBuffers.RStripAt | probes/pfmcounters/inih/ini.c:21-28 | the string at the pointer loses its trailing whitespace, in place, and no other character changes |
| IniBuffers.LSkipAt | probes/pfmcounters/inih/ini.c:31-36 | the result points at the string without its leading whitespace |
| IniBuffers.FindAt | probes/pfmcounters/inih/ini.c:41-49 | the result points at the first stop of the search or at the terminator |
| IniBuffers.CopyFit | probes/pfmcounters/inih/ini.c:52-57 | the destination holds as much of the string as fits, terminated |
| IniBuffers.LineAtBuffer | probes/pfmcounters/inih/ini.c:80-131 | one line, parsed in place, has the effect of the specification on section, previous name, error and handler calls |
| IniBuffers.ParseFile | probes/pfmcounters/inih/ini.c:60-134 | for every file and every handler the in-place parser makes the calls and returns the value of the specification, with every access inside its buffer |
| IniSpec.ErrorIsFirstFailure | probes/pfmcounters/inih/ini.c:87-133 | the result is the number of the first failing line, or 0 when none fails |
| IniSpec.ErrorsDoNotStop | probes/pfmcounters/inih/ini.c:87-133 | earlier errors and the handler's answers change nothing but the result |
| IniRoundTrip.RoundTrip | probes/pfmcounters/inih/ini.c:60-134 | parsing the printed text of any well-formed sections, pairs with '=' or ':' and any whitespace, comments (also behind values), continuations, empty lines and bad lines makes exactly the calls of the pairs and continuations, in order, with names and sections kept in 50 bytes; the result is the number of the first line that is bad or refused |
| IniRoundTrip.RemarkBecomesValue | probes/pfmcounters/inih/ini.c:41-49 | a comment behind an empty value is taken for the value |
| IniRoundTrip.LongLine | probes/pfmcounters/inih/ini.c:80 | a line that does not fit the buffer is read in pieces of 199 characters |
| DecimalParser.ParseFloatStr | probes/libenergyyoko/yokosrv.c:554-665 | on every string, the loops compute the special codes or the meaning of the parts they cut; a null pointer gives -1 |
| DecimalParser.SplitPrint | probes/libenergyyoko/yokosrv.c:584-654 | the searches find exactly the parts that were printed |
| DecimalParser.MeaningIsScientific | probes/libenergyyoko/yokosrv.c:620-664 | the digit loops add up to sign, all digits as one integer, times ten to the exponent less the number of fraction digits |
| DecimalParser.ParseUndoesPrint | probes/libenergyyoko/yokosrv.c:554-665 | parsing any printed parts in any style gives the value of scientific notation, apart from the two codes |
| DecimalNumbers.ReadsNumber | probes/libenergyyoko/yokosrv.c:554-665 | parsing undoes the printing of numbers: the text of a number with any number of digits behind the point, any exponent, signs and leading zeros reads as exactly that number, apart from the two codes |
| DecimalNumbers.ReadsInteger | probes/libenergyyoko/yokosrv.c:554-665 | for all integers m and e the text of m, 'E' and the text of e reads as m times ten to the e |
| DecimalWithoutLetter.WithoutLetterZero | probes/libenergyyoko/yokosrv.c:593-637 | without an exponent letter and a point every text reads as zero |
| DecimalWithoutLetter.ReadsRightIffZero | probes/libenergyyoko/yokosrv.c:593-654 | a decimal text without the letter, with or without a point, reads as its value if and only if that value is zero |
| DecimalWithoutLetter.LetterIsNeeded | probes/libenergyyoko/yokosrv.c:593-654 | so the text of a number without the letter reads as that number if and only if the number is zero |
| YokoMeter.Meter.ReadEnergy | probes/libenergyyoko/yokosrv.c:511-525 | the result is the difference to the last accepted reading in joules; infinite and negative readings are turned away, the NAN code is not |
| YokoMeter.EnergiesTelescope | probes/libenergyyoko/yokosrv.c:511-525 | all results are numbers if and only if no reading is the NAN code, and then they add up to the energy up to the last accepted reading |
| YokoMeter.ResultAt | probes/libenergyyoko/yokosrv.c:511-525 | for each call: 0 when the reading is turned away, otherwise a number if and only if the reading is one and every earlier NAN code has been followed by an accepted number, and then the difference to the last accepted reading |
| BasePeriod.GcdDivides | src/ProbeDataCollector.cpp:57-70 | gcd divides both arguments |
| BasePeriod.GcdGreatest | src/ProbeDataCollector.cpp:57-70 | every common divisor divides gcd |
| Collector.ProbeDataCollector.FindPeriods | src/ProbeDataCollector.cpp:78-97 | the constructor's loop, with gcd on ints, finds the periodic probes and the base period whenever it returns |
| BasePeriod.MinPeriodOfCounted | src/ProbeDataCollector.cpp:78-97 | for periods up to INT_MAX the base period is the greatest common divisor of those that the loop takes in, 0 without any |
| BasePeriod.SentinelIsDropped | src/ProbeDataCollector.cpp:84-91 | it takes in all nonzero periods but those of INT_MAX in front, with any zeros between them |
| BasePeriod.MinPeriodIsGcd | src/ProbeDataCollector.cpp:78-97 | for periods up to INT_MAX the base period is the greatest common divisor of all nonzero periods if and only if there is none, or the first is below INT_MAX, or every common divisor of those taken in divides INT_MAX |
| BasePeriod.MinPeriodOrder | src/ProbeDataCollector.cpp:78-97 | two lists with the same nonzero periods, up to INT_MAX, give the same base period if and only if both or neither take in INT_MAX, or every common divisor of the others divides INT_MAX |
| BasePeriod.SentinelBreaksOrder | src/ProbeDataCollector.cpp:84-91 | order does matter for the periods 6 and INT_MAX |
| WidePeriods.GcdReturns | src/ProbeDataCollector.cpp:57-70 | on all ints but 0 the recursion ends if and only if both are positive or the smaller one divides the other, and then with their gcd or with the smaller one |
| WidePeriods.NarrowPeriods | src/ProbeDataCollector.cpp:78-97 | for periods up to INT_MAX the constructor returns, with the base period of the rows above |
| WidePeriods.ConstructorReturns | src/ProbeDataCollector.cpp:78-97 | for all 32-bit periods the constructor returns if and only if those above INT_MAX are equal and, as an int, divide every other one taken in; one of them is then the base period |
| WidePeriods.WideIsGcd | src/ProbeDataCollector.cpp:78-97 | with a period above INT_MAX the base period is the greatest common divisor of all nonzero ones if and only if they are all equal |
| WidePeriods.WideOrder | src/ProbeDataCollector.cpp:78-97 | with a period above INT_MAX two orders agree if and only if the constructor returns for both or for none |
| WidePeriods.WideExamples | src/ProbeDataCollector.cpp:57-97 | the constructor never returns for the periods 6 and 2^32 - 4, and does for 8 and 2^32 - 4 |
| Collector.ProbeDataCollector.UpdateThread | src/ProbeDataCollector.cpp:234-290 | the updates of a run are those of the tick rule at the accumulated time; interrupted sleeps do not count |
| TickRule.DueMeansJustBefore | src/ProbeDataCollector.cpp:280-283 | a probe is due if and only if a multiple of its period lies one to four microseconds ahead; on a multiple, only for periods up to 4 |
| TickRate.UpdatesPerCycle | src/ProbeDataCollector.cpp:259-289 | in every run, among any completed sleeps of one cycle (period / gcd ticks; one period when the base period divides it) before the wrap, a probe is updated as often as that gcd fits into four microseconds, at most at every sleep |
| TickRate.OncePerPeriod | src/ProbeDataCollector.cpp:259-289 | that is once per period if and only if the base period is 4 and the period larger, or it is 3 and divides the period, or both are equal and at most 4 |
| TickRule.UpdatedInRun | src/ProbeDataCollector.cpp:259-289 | in every run of the thread, with any interruptions and wraps, a probe is among those updated at the j-th completed sleep if and only if it has a period and is due then |
| TickRule.UpdatesBeforeWrap | src/ProbeDataCollector.cpp:259-289 | for any base period and any periods: before the 64-bit clock wraps, some run, interrupted or not, updates a probe if and only if it has a period whose gcd with the base period is at most 4 |
| TickRule.UpdatesEver | src/ProbeDataCollector.cpp:259-289 | over runs of any length, wraps included, some run updates a probe if and only if it has a period and 8 does not divide both this and the base period (when that is 0: if the period is at most 4) |
| TickRule.UpdatesOfSmallPeriods | src/ProbeDataCollector.cpp:78-97 | when all periods are below INT_MAX these conditions are that the base period is at most 4, and that 8 does not divide it |
| TickRule.SentinelUpdates | src/ProbeDataCollector.cpp:84-91 | with the periods INT_MAX and 6 the base period is 6 and some run updates the first probe before the wrap |
| Collector.ProbeDataCollector.StopProbes | src/ProbeDataCollector.cpp:197-209 | makes room, copies every probe's array into the current record and closes it; says when the record would lie outside the vector |
| ResultStore.ExperimentationResults.Extend | src/ExperimentationResults.cpp:29-37 | the vector is doubled with blank records |
| ResultStore.ExperimentationResults.SetProbeData | src/ExperimentationResults.cpp:39-45 | exactly one probe's matrix of the current record becomes the probe's array |
| ResultStore.RoomAfterDoubling | src/ProbeDataCollector.cpp:199-203 | after the check there is a free place if and only if the vector was not empty |
| ResultStore.StopKeepsRecords | src/ProbeDataCollector.cpp:197-209 | a stop keeps every earlier record, doubling or not |
| ResultStore.RecordsAreSamples | src/ExperimentationResults.hpp:52-72 | from capacity 1 on, record k is the sample of stop k; the vector doubles only as needed and never for as many stops as it had places |
| ResultStore.ZeroCapacityStays | src/ExperimentationResults.cpp:29-37 | from capacity 0 the vector never grows |
| RunnerStores.KernelStores | src/KernelRunner.cpp:98-221 | at every moment of every run in kernel mode the stops are those of rounds 0, 1, 2, ...; the first nbMetaRepet samples are the overhead records and the others the result records, neither vector grows, and both are full when all workers are done |
| RunnerStores.ProgramStores | src/ProgramRunner.cpp:86-231 | the same in program mode |
| DaemonRunner.Runner.Start | src/DaemonRunner.cpp:88-127 | one overhead record, then the calls, flag and store of the state machine, for every sequence of signals and every capacity; undefined as soon as a record has no place |
| DaemonTheorems.DaemonTheorem | src/DaemonRunner.cpp:94-124 | the collector's calls are completed measurements and at most one last open or cancelled one; record k is the k-th completed window; at most the last turn of the loop stores none |
| DaemonTheorems.OutOfRangeIffEmpty | src/DaemonRunner.cpp:94-124 | for stores of any capacity, some sequence of signals makes the daemon write outside its vector if and only if the capacity is 0 and there is a probe |
| DaemonTheorems.TerminationIsSeen | src/DaemonRunner.cpp:80-122 | with no further signal SIGINT or SIGTERM ends the daemon if and only if it does not fall between a look at the flag and the pause behind it |
| DaemonTheorems.OtherSignalsDoNotEnd | src/DaemonRunner.cpp:80-122 | over any signals without these two the flag stays clear and the daemon in its loop |
| DaemonTheorems.NextSignalEnds | src/DaemonRunner.cpp:97-122 | otherwise one further signal, whenever it comes, ends it |
| DaemonTheorems.TerminationCanWait | src/DaemonRunner.cpp:97-113 | both pauses are reached with the flag set and last for any number of slices without a signal |
| ProbeMatrix.ProbeData.SetData | src/ProbeData.cpp:38-47 | the matrix is the device-major reading of the flat array |
| ProbeMatrix.ProbeData.Add | src/ProbeData.cpp:62-76 | cell by cell sum |
| ProbeMatrix.ProbeData.Divide | src/ProbeData.cpp:78-89 | every cell times the divisor is the old cell; says when a cell is divided by 0 |
| ProbeMatrix.Difference | src/ProbeData.cpp:91-106 | a fresh matrix with the cell by cell differences |
| ProbeMatrix.FlatPositions | src/ProbeData.cpp:44 | every position of the flat array belongs to exactly one device and channel |
| ProbeMatrix.FlattenUnflatten | src/ProbeData.cpp:38-60 | copying an array in and writing the matrix out gives the array back |
| ProbeMatrix.UnflattenFlatten | src/ProbeData.cpp:38-60 | and the other way round |
| ResultsWriter.Write | src/ExperimentationResultsWriter.cpp:44-105 | on any two stores: the stream is header and corrected rows, a null pointer is dereferenced if and only if no overhead run is there and there are probes, and a record behind the vector is read if and only if more are counted than stored |
| ResultsWriter.CellIsRawMinusMean | src/ExperimentationResultsWriter.cpp:55-97 | the difference of the raw and the written cell, times the number of overhead runs, is their sum in the same probe, device and channel |
| ResultsWriter.ColumnSums | src/ExperimentationResultsWriter.cpp:55-97 | per column, with n overhead runs: n times the written values plus rows times the sum of the overhead are n times the raw values |
| ResultsWriter.RowLayout | src/ExperimentationResultsWriter.cpp:83-96 | the value of a probe, device and channel stands at its one place in the row, followed by ';' |
| ResultsWriter.SameSemicolons | src/ExperimentationResultsWriter.cpp:27-42 | header and rows have the same number of ';' |
| ResultsWriter.FileHeader | src/ExperimentationResultsWriter.cpp:27-42 | each label stands at its place in the first line, followed by one ';' for each of its cells, and the line end behind them all |
| ResultsWriter.FileRow | src/ExperimentationResultsWriter.cpp:79-98 | each cell stands at its place in its row, raw less mean, followed by ';', a line end closes every row, and nothing stands behind the last |

## Left out

- KernelRunner, ProgramRunner, TimerMeasure, EnergyServer: shared state of several threads is a value and each atomic action a step; memory is sequentially consistent, `sem_*` calls do not fail and `sem_wait` is not interrupted.
- KernelRunner: the sync process is there from the start (its fork is worker 0's first action), and memory sizing, cache flushing and the kernel's own work are not modelled.
- ProgramRunner: a child that ends abnormally makes the runner exit; argv building and freeing, fork failure and priorities are not modelled. Thread and child of one lane are one sequential process, since the thread sleeps in `waitpid`.
- BarrierTheorems.BarrierTheorem: spurious wakeups are excluded, because the barrier is not correct with them, as SpuriousWakeupBreaksIt shows.
- TimerMeasure: `fini`, the overflow flag and the cycle counter itself; an accumulation is an arbitrary amount.
- EnergyMsr: floating-point rounding; opening the MSR files and finding the sockets.
- EnergyMsr.WrapReconstruction, EnergyMsr.MeasureExactly: are about a start whose read succeeds; after a failed first read the socket's storage is uninitialised.
- EnergyServer: reads of the registers succeed and all sockets are read at one moment with a clock each; that no socket makes 2^32 ticks between reads is an assumption about the clock, which the server's timeout is there for; unexpected `sem_timedwait` errors are not modelled; one client.
- DecimalParser: rounding of doubles and the range of the int that holds the exponent; the serial protocol around it.
- Collector: thread creation, and the pausing of the update thread, which never waits because the flag in front of the wait has just been seen set.
- ResultStore, DaemonRunner: the output on the console, the PID file and signal set-up; measured data are a parameter.
- ProbeMatrix.ProbeData.Divide: says nothing about the cells after a division by 0, because reals have no infinities; the writer never gets that far, since it dereferences a null pointer first.
- ResultsWriter: the digits of a number and labels that contain ';'.
- The copies of the sources under src/Experimentation, src/Datas and src/Probes: the build does not compile them.
- Option parsing, loading of probes and kernels, the other probes, the MPI scripts and the C++ wrapper of the INI parser.
