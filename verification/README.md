# Timer server, fixed-point kernels and bit-level routines: a verified model

This project models three parts of a LoRa/SX1278 firmware for STM32L0 in Dafny and proves properties of the model.

1. **The timer server** (`HAL/src/timerserver.c`): one hardware timer multiplexed over a linked list of timers, each of
   which stores only its distance from the one before it.
2. **Fixed-point kernels** (`CMSIS/Include/arm_math.h`): saturation, packed saturating arithmetic, the Q15 PID step, the
   Q31 Park transform and its inverse, table interpolation and circular buffers.
3. **Bit-level routines** of the CMSIS core headers: bit reversal, the priority-group codec and the packed priority
   registers of Cortex-M0+.

`dafny verify dfyconfig.toml` checks everything.

## How the timer server is modelled

The timer server is told four times, each telling proved against the next.

- `TimerServer.dfy` is the code: nodes on the heap, spliced in place, in 32-bit arithmetic that wraps (`Add32`, `Sub32`).
  Each method changes the abstract value `Model()` as one step of `TimerModel` says.
- `TimerModel.dfy` is a transition system over values: a sequence of entries with deltas, the hardware counter, the
  pass counter of the low-power gate. Its steps are `Tick`, `Init`, `Start`, `Stop`, `Store` (the stores of TimerSetValue),
  `IrqBegin`, `Call`, `IrqEnd`, `PassTest`, `PassLoad` and `PassAct`. The handler is split where application code runs, and
  code that the source runs with interrupts enabled is split where an interrupt matters: TimerSetValue is `Stop` and then
  `Store`, TimerReset is `Stop` and then `Start`, and a low-power pass is its tests, the load of its counter and its action.
- `TimerLedger.dfy` is the specification: a stable priority queue of jobs, one for each start, with a key that never
  changes, and a record of what became of every start. `TimerDeadlines.dfy` reads the same list as a map from timer to
  absolute deadline.
- `TimerRefinement.dfy` proves that the delta list represents the queue after every step, and `TimerRuns.dfy` states what
  follows for whole runs. `TimerSystem.dfy` keeps the heap together with the run it has gone through, so that the
  statements about runs hold of the linked list, and `TimerSteps.dfy` has the sequences of steps an interrupt consists of.
- `TimerLimits.dfy` has inputs beyond the assumptions on which the code goes wrong.

Two quantities measure how far a run is from the ideal. `late` counts the ticks that found the head already due.
`lost` is what arming the hardware swallowed, which happens only if the board reports a count that is ahead of the clock.
The law of service times is exact in both: a callback comes at start + timeout + late ticks since - losses since.

What the board layer does is a parameter, `Board(lead, minimum)`: `lead` is what it adds to the elapsed count, `minimum`
its smallest timeout. `HAL/inc/timer-board.h:84-87` gives no formula for `TimerHwGetElapsedTime`, and its name says
lead 0; `HAL/src/timer-board.c:161-164` returns one more than the elapsed ticks, which is lead 1 (minimum 1, lines
113-116). This matters: under the assumptions below, no callback is ever early if and only if the lead is 0
(`NeverEarlyExactly`).

The assumptions about the environment are in `TimerModel.Enabled`, which every step of every run satisfies. Interrupts may
come between any two steps otherwise.

- TimerStart and TimerStop, which the source runs with interrupts disabled, are one step each. The repository's own board
  does not keep this: `TimerHwGetTimerValue` (`HAL/src/timer-board.c:171-182`), with which they read the counter, enables
  interrupts again when it returns. The model does not describe interrupts there.
- Nothing but its own callbacks runs during the handler: no tick, no interrupt and no request from elsewhere.
- The counter of a loaded timer is served or re-armed before its 32-bit reading wraps. Within that bound interrupts may be
  late and spurious at will. `LatencyNeedsItsBound` is a run on the linked list where one tick more makes a timer with
  timeout 2^32 - 1 fire after 5 ticks.
- Callbacks make requests that leave the walk alone (`TimerModel.Harmless`). The walk of lines 252-259 reads a timer's link
  after its callback has run. So only the last callback of an interrupt may start its own timer, and from then on that timer
  stays listed with a successor that is due later; no callback may start or set a timer that is still to be served; and
  starting or setting the first timer that did not expire has to leave it something to wait for. Stopping timers and
  starting and setting others is free. `RestartEndsWalk`, `SettingNextEndsWalk` and `ResettingLiveGoesOn` show what the
  other requests do: the first two lose callbacks, the third (a reset of the first live timer) calls one early on an exact
  counter. For the first live timer the restriction is exact (`StartingLiveExactly`, `SettingLiveExactly`). Whatever
  callbacks request, each request keeps the list itself intact: `Ask` asks for nothing but known timers.
- A timer is set while it is not in the list: between the stop and the stores of TimerSetValue, at lines 381 and 390, no
  interrupt starts it. `SettingNeedsItsTimer` is a run on the linked list, with an exact counter and nothing late, where one
  does, and another timer is served 8 ticks early.
- A timer is initialised while it is not in the list, outside the handler, and no callback names it meanwhile.
  `TimerSetValue` is not given a null object (it writes through it).
- One low-power pass ends before the next begins. Interrupts may fall anywhere within a pass, and then stop mode can be
  entered with an empty list (`EntersStopEmpty`) or too early (`EntersStopEarly`); `StopModeGate` says exactly when it is
  not, and `WholePassesGate` that it never is if passes are not interrupted.

Where the code and its comments disagree, the model follows the code:

- `HAL/src/timerserver.c:121` says of a clamp that it should never occur. It does, for every late tick (`late`).
- `CMSIS/Include/arm_math.h:5932` speaks of negative increments; the code only wraps at the upper end, so
  from everywhere in the ring only increments from 0 to L stay inside (`StaysInsideExactly`).
- `CMSIS/Include/arm_math.h:5545` promises tables of 2^12 entries; the 12-bit index is signed, so only 2049 can be read (`Reach`).

Words are unbounded integers with every wrap, cast and saturation written out. Right shifts of negative values are
arithmetic, as on all Arm compilers; the bits that `__QADD8` and its relatives shift out to the left are dropped.
`Bits.dfy` defines the bitwise operators on naturals by recursion and proves what the other modules need of them.

## Model

| member | source | states |
|---|---|---|
| TimerModel.InsertSum | HAL/src/timerserver.c:142-194 | the splice never takes the sum of deltas above the larger of the old sum and the new timeout |
| TimerModel.RemoveSum | HAL/src/timerserver.c:296-350 | unlinking only merges deltas: the sum stays, or drops by the last entry's delta |
| TimerModel.StartListed | HAL/src/timerserver.c:94-140 | start lists exactly the old timers and x, each once |
| TimerModel.StopListed | HAL/src/timerserver.c:269-354 | stop takes out x and no other timer |
| TimerModel.StopAbsent | HAL/src/timerserver.c:269-354 | stopping a timer that is not listed changes nothing at all |
| TimerModel.StartTotal | HAL/src/timerserver.c:94-210 | remaining time plus later deltas never rises above the larger of itself and the new timeout |
| TimerModel.StopTotal | HAL/src/timerserver.c:269-354 | stop never raises that total |
| TimerModel.IrqBeginInv | HAL/src/timerserver.c:212-249 | the first half of the handler keeps the invariant and never raises the total |
| TimerModel.StepInv | HAL/src/timerserver.c:85-428 | every step of every operation keeps: total at most 2^32 - 1, no duplicates, outside the handler a non-empty list has a running head and nothing is pending |
| TimerLedger.StartOrdered | HAL/src/timerserver.c:130-194 | stable insertion keeps served and waiting jobs in key order, start order for equal keys |
| TimerLedger.IrqTrail | HAL/src/timerserver.c:238-249 | an expiry moves jobs from waiting to served without changing anyone's place |
| TimerLedger.IrqExact | HAL/src/timerserver.c:223-249 | what expires is served exactly at its key, given that no key was passed over |
| TimerLedger.RecordOrdered | HAL/src/timerserver.c:94-377 | every step keeps the order of served and waiting jobs |
| TimerLedger.RecordAccounted | HAL/src/timerserver.c:94-377 | every step keeps each start in exactly one place: served, waiting or stopped |
| TimerLedger.RecordDated | HAL/src/timerserver.c:94-377 | every step keeps all service times exact |
| TimerRefinement.InsertMatches | HAL/src/timerserver.c:142-194 | splicing by strict comparison of partial sums is stable insertion by absolute key |
| TimerRefinement.RemoveMatches | HAL/src/timerserver.c:286-350 | unlinking with merged deltas is removal from the queue, no other key moves |
| TimerRefinement.ExpireMatches | HAL/src/timerserver.c:238-249 | the zero prefix of the list is exactly the prefix of the queue whose keys are reached |
| TimerRefinement.StartTracks | HAL/src/timerserver.c:94-210 | start on the delta list is start on the queue, for a new head, a later place and a listed timer |
| TimerRefinement.StopTracks | HAL/src/timerserver.c:269-354 | stop on the delta list is cancellation in the queue, for head, middle, last and absent timers |
| TimerRefinement.StepTracks | HAL/src/timerserver.c:85-428 | every step does to the list what the ledger's step does to the queue |
| TimerDeadlines.StartDeadline | HAL/src/timerserver.c:94-210 | start adds the deadline now + ReloadValue and moves no other beyond what arming loses, on any board |
| TimerDeadlines.StartExact | HAL/src/timerserver.c:94-210 | on an exact counter, start adds that one deadline and moves no other |
| TimerDeadlines.StopDeadline | HAL/src/timerserver.c:269-354 | stop removes one deadline and moves no other beyond what arming loses, on any board |
| TimerDeadlines.StopExact | HAL/src/timerserver.c:269-354 | on an exact counter, stop removes one deadline and moves no other |
| TimerDeadlines.ResetDeadline | HAL/src/timerserver.c:371-375 | on an exact counter, reset sets its own deadline to now + ReloadValue and moves no other |
| TimerDeadlines.StartArms | HAL/src/timerserver.c:130-210 | start loads the hardware exactly if it changes the head, which then is the timer started, with its whole timeout from now; else hardware and pass counter are left alone |
| TimerDeadlines.StopArms | HAL/src/timerserver.c:284-324 | stop loads the hardware exactly if it takes out a running head with a successor, and not for a head that is not started |
| TimerDeadlines.IrqArms | HAL/src/timerserver.c:221-266 | an interrupt loads the hardware at its start exactly if it came too early, and else at its end exactly if a timer is left |
| TimerDeadlines.InitDeadline | HAL/src/timerserver.c:85-92 | on every board: reload value 0, all others and all deadlines kept; on an exact counter a start right after has its deadline now |
| TimerDeadlines.StoreDeadline | HAL/src/timerserver.c:383-391 | the stores of set-value move no deadline, whatever came between them and the stop, and leave the value or the minimum |
| TimerDeadlines.SetValueDeadline | HAL/src/timerserver.c:377-393 | on an exact counter and without an interrupt in between, set-value withdraws its own deadline and moves no other |
| TimerDeadlines.TickDeadline | HAL/src/timerserver.c:118-123 | a tick moves no deadline unless the head is due; then it moves all of them by one |
| TimerDeadlines.IrqDeadline | HAL/src/timerserver.c:212-249 | an interrupt serves exactly the timers whose deadline has come, withdraws exactly their deadlines and moves no other; a spurious one serves none |
| TimerRuns.BehaviourInv | HAL/src/timerserver.c:85-428 | in every state of every run of enabled steps, with interrupts inside set-value, reset and low-power passes, the list tracks the queue, order and accounts hold, and all calls are exact |
| TimerRuns.ServiceTime | HAL/src/timerserver.c:212-260 | in those runs, on any board: call time = start + ReloadValue + late ticks since - losses since |
| TimerRuns.NeverEarly | HAL/src/timerserver.c:118-123 | in those runs, on an exact counter, no callback comes before start + ReloadValue, however spurious interrupts are and however late within the counter's 32-bit range |
| TimerRuns.EarlyAtMost | HAL/src/timerserver.c:405-410 | on a board with a lead: call time + lead * armings since the start >= start + ReloadValue |
| TimerRuns.ServiceOrder | HAL/src/timerserver.c:163-171 | callbacks come in key order, in start order for equal keys |
| TimerRuns.EachStartOnce | HAL/src/timerserver.c:94-354 | every start of every such run is, exactly once, served, waiting or stopped |
| TimerRuns.WaitingNotPast | HAL/src/timerserver.c:223-249 | a waiting timer has not missed its due time |
| TimerRuns.Punctual | HAL/src/timerserver.c:212-267 | with on-time interrupts on an exact counter and harmless callbacks, a start whose deadline passed and that was not stopped had its callback run exactly once, exactly at start + ReloadValue |
| TimerRuns.PunctualOrder | HAL/src/timerserver.c:130-171 | and callbacks come in deadline order, in start order for equal deadlines |
| TimerRuns.NoWrap | HAL/src/timerserver.c:152-189 | in every state of every run all deltas and their sum with the remaining time fit in 32 bits |
| TimerRuns.LoneTimerEarly | HAL/src/timerserver.c:221-232 | a run in which a lone timer is called `lead` ticks early without any late interrupt |
| TimerRuns.NeverEarlyExactly | HAL/inc/timer-board.h:84-87 | no callback of any such run is early if and only if the board's elapsed count has no lead |
| TimerRuns.PassesAreQuietExactly | HAL/src/timerserver.c:405-428 | with any interrupts inside passes: the pass counter is the number of counted passes since the latest of start-up, arming and stop entry if and only if no pass has stored a count loaded before an arming, else it is larger, and it never exceeds five |
| TimerRuns.EntryTested | HAL/src/timerserver.c:414-425 | a pass that enters stop mode has seen a running head and a count of exactly five, and the counter is five still exactly if nothing has been armed since |
| TimerRuns.StopModeGate | HAL/src/timerserver.c:412-428 | a stop entry finds a running head and five passes counted since the last arming if and only if, since its tests, nothing was armed and the head still runs, and no count was cut |
| TimerRuns.WholePassesGate | HAL/src/timerserver.c:412-428 | if passes are not interrupted, every stop entry finds a running head and five passes counted since the last arming |
| TimerRuns.TestDecides | HAL/src/timerserver.c:414-416 | a pass is to enter stop mode exactly if the head runs and the counter is 5 or more, to count exactly if the head runs and it is less |
| TimerRuns.EverySixthSleeps | HAL/src/timerserver.c:412-428 | with a running head and no interrupts, k passes from count c leave count (c + k) mod 6 and enter stop mode (c + k) / 6 times: from a cleared counter five passes count and the sixth sleeps |
| TimerRuns.IdleNeverSleeps | HAL/src/timerserver.c:414 | without a running head no number of passes changes anything |
| TimerServer.TimerServer.SetTimeout | HAL/src/timerserver.c:405-410 | clears the pass counter and loads the hardware with the timestamp |
| TimerServer.TimerServer.GetValue | HAL/src/timerserver.c:395-398 | the elapsed count of the model, cut to 32 bits |
| TimerServer.TimerServer.Exists | HAL/src/timerserver.c:356-369 | true exactly for the nodes of the chain, and the search ends |
| TimerServer.TimerServer.Splice | HAL/src/timerserver.c:163-171 | the splice writes only obj, its predecessor's link and its successor's timestamp, which stays positive |
| TimerServer.TimerServer.SpliceInOrder | HAL/src/timerserver.c:142-194 | the loop inserts where the model does, wraps nowhere, and leaves every other link and timestamp as it was |
| TimerServer.TimerServer.InsertTimer | HAL/src/timerserver.c:142-194 | the new list is the model's insertion behind the head |
| TimerServer.TimerServer.InsertNewHead | HAL/src/timerserver.c:196-210 | the new node becomes the running, armed head; the old head keeps what remains beyond it |
| TimerServer.TimerServer.RemainingTime | HAL/src/timerserver.c:116-128 | the head's remaining time with its clamp, computed without wrapping |
| TimerServer.TimerServer.Start | HAL/src/timerserver.c:94-140 | the heap afterwards represents the model's start, null and listed objects included; unlisted nodes keep link and timestamp |
| TimerServer.TimerServer.StopRunning | HAL/src/timerserver.c:286-310 | stopping a running head hands its remaining time to its successor, modulo 2^32, and arms it; the timer keeps its running flag exactly if it had no successor |
| TimerServer.PassedOnIsStop | HAL/src/timerserver.c:286-310 | if that sum fits, this is the removal the model makes |
| TimerServer.TimerServer.StopWaiting | HAL/src/timerserver.c:311-323 | stopping a head that is not started hands on its timestamp |
| TimerServer.TimerServer.Unlink | HAL/src/timerserver.c:325-350 | a later node is unlinked by one link write, its successor inherits its timestamp |
| TimerServer.TimerServer.StopLater | HAL/src/timerserver.c:325-350 | a later node is removed as in the model, an absent one changes nothing |
| TimerServer.TimerServer.Stop | HAL/src/timerserver.c:269-354 | the heap afterwards represents the model's stop in every branch |
| TimerServer.TimerServer.Reset | HAL/src/timerserver.c:371-375 | without an interrupt in between, the heap afterwards represents stop followed by start |
| TimerServer.TimerServer.StoreValue | HAL/src/timerserver.c:383-391 | for a timer that no interrupt has started since it was stopped, the heap afterwards represents the model's store |
| TimerServer.TimerServer.SetValue | HAL/src/timerserver.c:377-393 | without an interrupt in between, the heap afterwards represents stop followed by store |
| TimerServer.TimerServer.Init | HAL/src/timerserver.c:85-92 | all five fields of a timer that is new or not in the list: reload value and timestamp 0, not running, no link, the given callback; nothing else changes |
| TimerServer.TimerServer.TestPass | HAL/src/timerserver.c:414-416 | the tests decide as the model's do, on the heap: stop mode with a running head and a counter from 5 on, counting below 5 |
| TimerServer.TimerServer.CountPass | HAL/src/timerserver.c:418 | the store of a count that may be out of date by now keeps the invariant |
| TimerServer.TimerServer.EnterStop | HAL/src/timerserver.c:422-425 | stop entry, as the model's |
| TimerServer.TimerServer.LowPower | HAL/src/timerserver.c:412-428 | a pass that nothing interrupts sleeps and clears the counter exactly with a running head and a counter from 5 on, and else counts if the head runs |
| TimerServer.TimerServer.Settle | HAL/src/timerserver.c:223-232 | the head's timestamp becomes its clamped remaining time |
| TimerServer.TimerServer.UnlinkExpired | HAL/src/timerserver.c:238-249 | the first loop takes out exactly the zero prefix, which stays chained up to the first live timer |
| TimerServer.TimerServer.Ask | HAL/src/timerserver.c:94-393 | any request about known timers keeps the list, does what the model says and leaves unlisted nodes alone |
| TimerServer.TimerServer.Request | HAL/src/timerserver.c:252-259 | a harmless request of a callback leaves the unserved batch's links and timestamps alone and the first live timer's delta positive, or after a restart self's successor's |
| TimerServer.StartSpaced | HAL/src/timerserver.c:163-210 | what is due after a timer that was just started is due strictly later |
| TimerServer.TimerServer.Serve | HAL/src/timerserver.c:252-259 | one visit leads to the next of the batch, or after the last to nothing that would be served |
| TimerServer.TimerServer.Walk | HAL/src/timerserver.c:252-259 | the walk visits exactly the unlinked batch, once each and in order, whatever harmless requests callbacks make |
| TimerServer.TimerServer.IrqHandler | HAL/src/timerserver.c:212-267 | both loops agree: the visited timers are the expired batch, and the heap afterwards represents the handler's steps with all callbacks' requests |
| TimerSystem.ExtendAll | HAL/src/timerserver.c:94-428 | a run goes on by any sequence of enabled steps, to the world those steps lead to |
| TimerSystem.BatchDue | HAL/src/timerserver.c:238-249 | the timers an interrupt expires are those of the reached jobs, in queue order |
| TimerSystem.IrqCalls | HAL/src/timerserver.c:212-267 | one interrupt adds exactly the calls that are due and runs each of them |
| TimerSystem.System.Tick | HAL/inc/timer-board.h:98 | a tick on the heap extends the run by a tick |
| TimerSystem.System.Init | HAL/src/timerserver.c:85-92 | an initialisation extends the run, and sets the fields of the timer |
| TimerSystem.System.Request | HAL/src/timerserver.c:94-393 | a start, a stop or the stores of a value on the heap extend the run by that step |
| TimerSystem.System.TestPass | HAL/src/timerserver.c:414-416 | the tests of a pass extend the run |
| TimerSystem.System.LoadPass | HAL/src/timerserver.c:418 | so does the load of its counter |
| TimerSystem.System.CountPass | HAL/src/timerserver.c:418 | so does its store |
| TimerSystem.System.EnterStop | HAL/src/timerserver.c:422-425 | so does a stop entry |
| TimerSystem.System.Interrupt | HAL/src/timerserver.c:212-267 | end to end: the run goes on by all the steps of the handler and its callbacks; the visits made on the linked list are for exactly the due jobs, in order, each at its exact time |
| TimerSystem.System.NoVisitEarly | HAL/src/timerserver.c:118-123 | of everything the linked list has ever done on an exact counter: no visit of the walk was early |
| TimerSystem.System.VisitEarlyAtMost | HAL/src/timerserver.c:405-410 | and on any board: early by at most the lead for each arming since the start |
| TimerSystem.System.VisitedOnce | HAL/src/timerserver.c:212-267 | with on-time interrupts: every start not stopped, once its deadline has passed, has had exactly one visit, at exactly start + ReloadValue |
| TimerSystem.System.VisitsInOrder | HAL/src/timerserver.c:130-171 | and visits come in deadline order, in start order for equal deadlines |
| TimerLimits.RestartEndsWalk | HAL/src/timerserver.c:252-259 | after a callback has restarted its own timer the walk always stops |
| TimerLimits.SettingNextEndsWalk | HAL/src/timerserver.c:252-259 | after a callback has set the next timer to be served to a positive value the walk stops |
| TimerLimits.ResettingLiveGoesOn | HAL/src/timerserver.c:252-259 | on the linked list: the last callback resets the first live timer to a tie, and the walk goes on to a timer that is not due |
| TimerLimits.TieReached | HAL/src/timerserver.c:94-267 | a run from start-up, on an exact counter, that reaches that callback |
| TimerLimits.StartingLiveExactly | HAL/src/timerserver.c:252-259 | starting the first live timer misleads the walk if and only if the request is not an allowed one |
| TimerLimits.SettingLiveExactly | HAL/src/timerserver.c:252-259 | and so does setting it |
| TimerLimits.StoreListed | HAL/src/timerserver.c:390-391 | the stores of set-value on a listed timer overwrite its delta, and are not enabled |
| TimerLimits.InterruptedSet | HAL/src/timerserver.c:377-391 | on the linked list: an interrupt between stop and stores starts the timer being set, and its successor inherits what the stores left |
| TimerLimits.SettingNeedsItsTimer | HAL/src/timerserver.c:377-391 | a run on an exact counter with nothing late in which a timer with timeout 15 is therefore served after 7 ticks |
| TimerLimits.StoreBreaksTheBound | HAL/src/timerserver.c:390-391 | with value 2^32 - 1 those stores break the bound on the sum of deltas |
| TimerLimits.EntersStopEmpty | HAL/src/timerserver.c:412-428 | a run in which an interrupt expires the head during a pass, which then enters stop mode with an empty list |
| TimerLimits.EntersStopEarly | HAL/src/timerserver.c:412-428 | a run in which an arming falls between load and store of the counter, and stop mode is entered one counted pass after it |
| TimerLimits.StopWraps | HAL/src/timerserver.c:286-310 | after 2^32 unserved ticks, stopping the head wraps its successor's timestamp to 4 |
| TimerLimits.LatencyNeedsItsBound | HAL/src/timerserver.c:94-310 | a run of the linked list on an exact counter in which a timer with timeout 2^32 - 1 is served 5 ticks after its start |
| FixedPoint.ClipSaturates | CMSIS/Include/arm_math.h:484-489 | comparing high word and sign of the low word is clamping to 32 bits, for every 64-bit input |
| FixedPoint.AddSubSaturate | CMSIS/Include/arm_math.h:898-914 | saturated sum and difference |
| FixedPoint.Ssat | CMSIS/Include/arm_math.h:666-698 | the doubling loop and the two comparisons clamp to y bits, 1 to 31 |
| FixedPoint.FieldExtends | CMSIS/Include/arm_math.h:710-757 | shifting a field to the top of a word and back down sign-extends it |
| FixedPoint.Pack8Lanes | CMSIS/Include/arm_math.h:710-740 | packing four signed bytes and reading them back |
| FixedPoint.Pack16Lanes | CMSIS/Include/arm_math.h:746-853 | packing two signed halves and reading them back |
| FixedPoint.Qadd8 | CMSIS/Include/arm_math.h:710-722 | four independent saturated sums |
| FixedPoint.Qsub8 | CMSIS/Include/arm_math.h:728-740 | four independent saturated differences |
| FixedPoint.Qadd16 | CMSIS/Include/arm_math.h:746-757 | two independent saturated sums |
| FixedPoint.Qsub16 | CMSIS/Include/arm_math.h:779-789 | two independent saturated differences |
| FixedPoint.Qasx | CMSIS/Include/arm_math.h:811-821 | exchanged halves: difference below, sum above |
| FixedPoint.Qsax | CMSIS/Include/arm_math.h:843-853 | exchanged halves: sum below, difference above |
| Pid.AccBound | CMSIS/Include/arm_math.h:4895-4907 | the scaled accumulator always fits the 32-bit argument of the saturation |
| Pid.Controller.Process | CMSIS/Include/arm_math.h:4876-4916 | the output is the exact sum of gained inputs and previous output, rounded down, if that fits in 16 bits, else the nearer limit; the state cells move on by one |
| Pid.OutputLaw | CMSIS/Include/arm_math.h:4895-4914 | on every input sequence from rest, saturated or not, the next output is that sum of the last three inputs, rounded down and held within 16 bits |
| Pid.Accounts | CMSIS/Include/arm_math.h:4741-4745 | from rest, on every input sequence: the positional law is the scaled output plus exactly what saturation held back and rounding dropped |
| Pid.Telescopes | CMSIS/Include/arm_math.h:4741-4745 | so the output plus what was held is the positional law, rounded down by less than one unit a step |
| Pid.UnsaturatedLaw | CMSIS/Include/arm_math.h:4741-4745 | without a saturated step the output itself is |
| Pid.LawAfterSaturation | CMSIS/Include/arm_math.h:4741-4745 | with saturated steps it is if and only if what was held and dropped comes to less than one unit a step, and not less than nothing |
| Pid.SaturationBreaksTheLaw | CMSIS/Include/arm_math.h:4907 | three inputs on which a saturated step breaks that law |
| Park.ProductFloor | CMSIS/Include/arm_math.h:5237-5247 | a scaled product is the exact one rounded down, if and only if not both factors are the lowest value |
| Park.ForwardSaturates | CMSIS/Include/arm_math.h:5250-5253 | for all inputs, sum and difference of the scaled products where they fit in 32 bits, and else the nearer limit |
| Park.InverseSaturates | CMSIS/Include/arm_math.h:5362-5365 | the same for the inverse |
| Park.ForwardNearExact | CMSIS/Include/arm_math.h:5225-5254 | saturated or not, each coordinate is within two units of its exact inner product, or at a limit that the product passes or comes within two units of; a saturated one is at the limit with the product's sign |
| Park.InverseNearExact | CMSIS/Include/arm_math.h:5338-5367 | the same for the inverse |
| Park.ForwardError | CMSIS/Include/arm_math.h:5225-5254 | error bounds of the unsaturated transform |
| Park.InverseError | CMSIS/Include/arm_math.h:5338-5367 | error bounds of the unsaturated inverse |
| Park.RoundTrip | CMSIS/Include/arm_math.h:5225-5367 | there and back scales by sin^2 + cos^2 and loses less than 4 M^2 and 5 M^2 at scale M^2 |
| Park.SmallInputsAreLinear | CMSIS/Include/arm_math.h:5225-5367 | coordinates that together stay below one half saturate nowhere, whatever the angle |
| Park.InnerBound | CMSIS/Include/arm_math.h:5225-5254 | Cauchy-Schwarz on bounds of the lengths, from Lagrange's identity |
| Park.ForwardStaysInside | CMSIS/Include/arm_math.h:5225-5254 | the computed rotor-frame vector of a vector of the disc of radius M - 6 lies in that of radius M - 2 |
| Park.DiscIsLinear | CMSIS/Include/arm_math.h:5225-5367 | no vector of the unit disc, less six units of the last place, saturates or wraps anything, for any rounded angle |
| Park.DiscReached | CMSIS/Include/arm_math.h:5225-5367 | a vector on the edge of that disc, with a rounded angle, meets these conditions |
| Park.UnitCircle | CMSIS/Include/arm_math.h:5225-5367 | every such vector comes back within 5 and 6 units of the last place |
| Interp.InputSplits | CMSIS/Include/arm_math.h:5561-5575 | masking gives whole steps rounded down and what is left, for negative inputs too |
| Interp.Between | CMSIS/Include/arm_math.h:5578-5588 | the weighted mean lies between its neighbours' knot values, hence in [min - 1, max] |
| Interp.Segment | CMSIS/Include/arm_math.h:5548-5590 | which entries each input reads, always within the table, and the bounds that follow |
| Interp.KnotsMeet | CMSIS/Include/arm_math.h:5578-5588 | the end of a segment and the start of the next give the same value |
| Interp.Accuracy | CMSIS/Include/arm_math.h:5578-5588 | the distance from the exact straight line |
| Interp.Reach | CMSIS/Include/arm_math.h:5545-5561 | entries from 2049 on have no influence |
| Interp.MonotoneFromZero | CMSIS/Include/arm_math.h:5548-5590 | a non-decreasing table gives a non-decreasing curve over all inputs from zero, across knots |
| Interp.MonotoneExactly | CMSIS/Include/arm_math.h:5548-5590 | over all inputs it does so if and only if the first entry is not positive or stands alone |
| CircularBuffer.Write | CMSIS/Include/arm_math.h:5905-5943 | for any increment, also a negative one, that keeps the offset inside: the strided block is stored at the places the offset passes and nowhere else, and the offset is kept cut to 16 bits |
| CircularBuffer.GatheredAt | CMSIS/Include/arm_math.h:5926-5929 | sample i of a block is the source item i strides behind its start |
| CircularBuffer.StoreAtLast | CMSIS/Include/arm_math.h:5923-5939 | each place passed holds the last sample stored there, every other cell is as before |
| CircularBuffer.PlaceRunsOn | CMSIS/Include/arm_math.h:5932-5935 | an offset that never reaches L just runs on, also downwards |
| CircularBuffer.TargetRunsOn | CMSIS/Include/arm_math.h:5977-5982 | a destination pointer that never stands exactly at the end runs on past it |
| CircularBuffer.Read | CMSIS/Include/arm_math.h:5949-5999 | for any increments that stay inside: the samples met are delivered to the places the destination pointer passes and nowhere else |
| CircularBuffer.RingIsSafe | CMSIS/Include/arm_math.h:5905-5999 | with increments from 0 to L everything stays inside the ring and within 32 bits |
| CircularBuffer.StoreIsStored | CMSIS/Include/arm_math.h:5905-5943 | then a write goes round the ring |
| CircularBuffer.StoreIsWindow | CMSIS/Include/arm_math.h:5972-5982 | a destination pointer whose stride meets the end goes round the destination and leaves the rest of the array alone |
| CircularBuffer.StaysInsideExactly | CMSIS/Include/arm_math.h:5932-5935 | the offset stays within the ring from everywhere if and only if the increment is 0 to L |
| CircularBuffer.AdvanceMod | CMSIS/Include/arm_math.h:5932-5935 | the conditional subtraction is reduction modulo L |
| CircularBuffer.StoredAppend | CMSIS/Include/arm_math.h:5905-5943 | two blocks in a row store what one long block stores |
| CircularBuffer.LastTurn | CMSIS/Include/arm_math.h:5923-5939 | with increment 1 each cell holds the last sample whose turn it was, or its old content |
| CircularBuffer.OffsetKeptExactly | CMSIS/Include/arm_math.h:5942 | the 16-bit cast keeps the offset on every run if and only if L is at most 2^16 |
| CircularBuffer.LineIsOneWrite | CMSIS/Include/arm_math.h:5905-5943 | any run of block writes equals one long write, however it is cut |
| CircularBuffer.OffsetCounts | CMSIS/Include/arm_math.h:5915-5942 | after any run the offset is (start + samples written) mod L |
| CircularBuffer.LineHolds | CMSIS/Include/arm_math.h:5905-5943 | after any run cell k mod L holds sample k, for the last L samples |
| CircularBuffer.Delayed | CMSIS/Include/arm_math.h:5949-5999 | after any run a read that starts D cells behind gives the samples written D samples ago, in order |
| CircularBuffer.StoredDelivers | CMSIS/Include/arm_math.h:5972-5982 | what a read leaves in a wrapping destination, cell by cell |
| CircularBuffer.DelayLine.Put | CMSIS/Include/arm_math.h:5905-5943 | a write on the arrays appends to the history the buffer represents the source items, one stride apart |
| CircularBuffer.DelayLine.Get | CMSIS/Include/arm_math.h:5949-5999 | a read on the arrays delivers the delayed samples and returns the place of the next |
| BitReverse.Rbit | CMSIS/Include/cmsis_gcc.h:526-545 | bit i lands at bit 31 - i although the loop stops early |
| BitReverse.ReversedTail | CMSIS/Include/cmsis_gcc.h:534-543 | once no set bits are left, one shift makes up for all the missing ones |
| BitReverse.ReversedBit | CMSIS/Include/cmsis_gcc.h:518-523 | the specification reverses positions, for any width |
| BitReverse.RbitTwice | CMSIS/Include/cmsis_gcc.h:518-523 | applying it twice is the identity |
| NvicPriority.FieldWidths | CMSIS/Include/core_cm3.h:1577-1578 | the field widths sum to the implemented bits, although one subtraction wraps |
| NvicPriority.EncodeValue | CMSIS/Include/core_cm3.h:1571-1584 | the code is preemption priority times 2^width plus subpriority, each cut to its width |
| NvicPriority.DecodeValue | CMSIS/Include/core_cm3.h:1598-1609 | the fields are quotient and remainder by 2^width of the subpriority, cut to their widths |
| NvicPriority.DecodeEncode | CMSIS/Include/core_cm3.h:1571-1609 | decode after encode gives both fields modulo their widths |
| NvicPriority.EncodeDecode | CMSIS/Include/core_cm3.h:1571-1609 | encode after decode is the identity on implemented priorities |
| NvicPriority.EncodeOrder | CMSIS/Include/core_cm3.h:1571-1584 | numeric order of codes is lexicographic order of the fields |
| NvicPriority.Lanes | CMSIS/Include/core_cm0plus.h:735-737 | the macros give the word and the byte lane, for negative interrupt numbers too |
| NvicPriority.ByteLanes | CMSIS/Include/core_cm0plus.h:804-816 | the read-modify-write changes its byte of the word and no other |
| NvicPriority.PriorityBack | CMSIS/Include/core_cm0plus.h:804-839 | the byte written is the priority modulo the implemented bits at its top and zeros below, and gives that priority back |
| NvicPriority.SetBytes | CMSIS/Include/core_cm0plus.h:804-816 | the whole register file after a setting, byte by byte: one byte replaced, all others kept |
| NvicPriority.ReadBytes | CMSIS/Include/core_cm0plus.h:828-839 | what is read is the top bits of the interrupt's own byte |
| NvicPriority.SetThenGet | CMSIS/Include/core_cm0plus.h:804-839 | setting one priority changes exactly that interrupt's, also within a shared word |
| NvicPriority.LastSettingWins | CMSIS/Include/core_cm0plus.h:804-839 | over any sequence of settings each interrupt reads as the last one set for it, or as before |
| NvicPriority.Nvic.SetPriority | CMSIS/Include/core_cm0plus.h:804-816 | one word of the register file is rewritten, as the specification says |
| NvicPriority.Nvic.GetPriority | CMSIS/Include/core_cm0plus.h:828-839 | reads what the specification says |

## Left out

- TimerHw* register access, the tick interrupt's own code and the stop mode entry: the counter is a number, `arms` and `sleeps` count the calls.
- The board's interrupt comparison (`USER/stm32l0xx_it.c:124-141`): interrupts may come at any step, which covers it.
- TimerGetCurrentTime and TimerSetLowPowerEnable: one-line accessors.
- Initialising a timer that is in the list or from within a callback, and callbacks' requests that are not `Harmless`: the model says nothing of the walk after them beyond the results of TimerLimits.
- TimerSystem.System.Interrupt: the requests of each callback are a given sequence; every sequence is covered, so every way a callback might choose is.
- TimerRuns.NeverEarly: runs with harmless callbacks, no wrapped counter reading and no interrupt that starts a timer while it is set; TimerLimits shows that all three are needed.
- TimerServer.TimerServer.Start: interrupts that the board layer lets in while it reads the counter, see above; so for the other operations that read it.
- Park.RoundTrip: assumes that no sum saturates and no product wraps; `DiscIsLinear` and `SmallInputsAreLinear` say when that is so.
- FixedPoint.Ssat: for 1 to 31 bits; outside that range the source forms bounds that do not fit its own types.
- CircularBuffer.Write: source and buffer are different arrays, and offsets stay inside the buffer and within 32 bits, which the source leaves to its callers.
- CircularBuffer.Read: offsets and destination pointer stay inside their arrays, which the source leaves to its callers.
- NvicPriority.SetThenGet: core interrupts -8 to -1 and external ones 0 to 31; other core interrupts have no priority byte.
- The SIMD branch of the PID step, its Q31 and float forms, arm_clarke, bilinear interpolation, arm_recip, clip_q31_to_q7 and clip_q63_to_q15.
- The Q7 and F32 forms of the circular buffers and of interpolation: the same loops over other element types.
- All arm_* functions whose bodies are not in the header, inline assembly, peripheral drivers, the radio thread and the Contiki timers.
