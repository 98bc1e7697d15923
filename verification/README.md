# Tick-level control logic of a competition robot, in Dafny

This project models the four pieces of per-tick control logic of the robot
program: the countdown `Timer` (include/timer.hpp), the autonomous intake
task with its colour-sorting ejection (src/auto.cpp), the autonomous lift
("LB") task (src/auto.cpp), and the operator-control toggles for the intake
ramp, pistons and drive (src/main.cpp). Each is an immutable record advanced
by a pure step function. The clock (`pros::millis()`), the optical sensor's
hue, the lift's rotation sensor, the PID controller's output and the
controller buttons are parameters of the step.

Modules:

- `U32` (u32.dfy): `uint32_t` arithmetic. Addition and subtraction wrap
  modulo 2^32, and `ToSigned` reads a value the way `move_velocity` receives
  it, as an `int32_t`.
- `Wrappers` (wrappers.dfy): `Option`, for outputs that some ticks do not produce.
- `Timers` (timer.dfy): the `Timer` class. `isTimerRunning` returns the
  updated timer together with its answer.
- `AutoIntake` (auto_intake.dfy): `IntakeState` and one pass of
  `intake_task_fn`. It also has `run_intake`, `reset_intake`, the alliance
  colour and traces of ticks. The colour-sorting switch `ENABLE_COLOR_SORT`
  is `false` as configured. Here it is a parameter, so both settings are
  verified.
- `AutoLift` (auto_lift.dfy): `LBState`, one pass of `lb_task_fn`, plus
  `run_LB` and `is_LB_running`.
- `OpControl` (opcontrol.dfy): `intake()`, `doungler_control()` and
  `clamp_control()` (one shared piston-toggle step), `drive_control()` and one iteration of the `opcontrol` loop.
  That loop calls the clamp, intake and doinker handlers only; its `drive_control` call is commented out
  (src/main.cpp:210), so the drive handler is modelled on its own.

Two arithmetic details are written out:

- The intake's `runSpeed` is `uint32_t`. The skills routine passes `-600`,
  which wraps to 2^32 - 600. The motor command `-runSpeed` is then computed
  in unsigned arithmetic and reinterpreted as signed. So that run drives the
  intake at +600 rpm, where the default run drives it at -600 rpm
  (`ReverseCommandOfConfiguredSpeeds`, `NegativeSpeedRunsForward`).
- Every elapsed-time test (`now - startTime < duration`, and so on) uses
  wrapping subtraction. The timer's `now >= endTime` compares absolute
  unsigned values. Lemmas that speak of plain millisecond differences state
  a no-wrap precondition.

Hue and lift positions are exact `real` values. The hue is read once per tick.

The model follows the code: a single-slot, time-keyed ejection; a lift that
moves to one target set by `run_LB`; no slew limiter.

## Model

| member | source | states |
|---|---|---|
| `Timers.NewTimer` | include/timer.hpp:13-19 | A new timer is stopped, has zero timestamps and holds the given duration. |
| `Timers.SetTime` | include/timer.hpp:21-23 | Only the duration changes; a running countdown keeps its end time and running flag. |
| `Timers.Start` | include/timer.hpp:25-31 | No-op if running or if the duration is 0. Otherwise the timer runs from `now`, and its end lies exactly one duration after the start (mod 2^32). |
| `Timers.Pause` | include/timer.hpp:33-37 | No-op on a stopped timer. Otherwise the timer stops, records `now` as the pause time and keeps its end time. |
| `Timers.Resume` | include/timer.hpp:39-44 | No-op if running or if the duration is 0. Otherwise the timer runs again, and the distance from `now` to the new end equals the distance from the pause to the old end. |
| `Timers.IsDone` | include/timer.hpp:46-50 | Done only for a running timer with a non-zero duration. Such a timer is done exactly when the clock has reached or passed its end time (unsigned comparison). |
| `Timers.IsTimerRunning` | include/timer.hpp:46-57 | The answer is false exactly when the timer was stopped or is done. Observing completion clears the flag and changes nothing else. Once the answer is false, the timer left behind is not done. |
| `Timers.IsTimerRunningStable` | include/timer.hpp:52-57 | Asking twice at the same instant gives the same answer and the same timer. |
| `Timers.GetTimeRemaining` | include/timer.hpp:59-62 | 0 when stopped. When running, the result added to `now` (mod 2^32) reaches the end time. |
| `Timers.Reset` | include/timer.hpp:64-69 | Stops the timer, zeroes the start, end and pause times, and keeps the duration: a fresh timer of the same duration. |
| `Timers.ResetIdempotent` | include/timer.hpp:64-69 | Resetting twice equals resetting once. A reset timer is not done, has 0 remaining and reports not running. |
| `Timers.PauseResumePreservesRemaining` | include/timer.hpp:33-44 | For a running timer, pausing at p and resuming at q leaves the remaining time at q equal to the remaining time at p. |
| `Timers.StartedTimerCountsDown` | include/timer.hpp:25-62 | Take a timer started at n0, with no wrap-around. At a later time n it is done iff n - n0 has reached the duration. Until then the remaining time is the duration minus the elapsed time. |
| `Timers.RemainingUnderflowsAfterExpiry` | include/timer.hpp:59-62 | As written: a 100 ms timer started at 0 and asked at 150 is done, yet reports 2^32 - 50 ms remaining. |
| `Timers.TimeRemaining` | include/timer.hpp:59-62 | Corrected remaining time: 0 when stopped or once the end is reached, otherwise the distance to the end. |
| `Timers.CorrectedRemainingBounded` | include/timer.hpp:59-62 | For a started countdown, the corrected remaining time never exceeds the duration, and it is 0 exactly when the timer is done. |
| `AutoIntake.TargetColor` | src/auto.cpp:39-40 | The alliance colour is true exactly for BLUE_RING and BLUE_STAKE, so it is true for the configured routine. |
| `AutoIntake.InitialState` | src/auto.cpp:38-50 | The static initialisers: nothing running, detected or ejecting; speed 600; zero duration and cooldown; colour from the routine. |
| `AutoIntake.ReverseCommand` | src/auto.cpp:101 | The velocity `move_velocity(-runSpeed)` delivers lies in the int32 range. It is the negation of the speed read as signed. At INT32_MIN it is INT32_MIN itself. |
| `AutoIntake.ReverseCommandOfConfiguredSpeeds` | src/auto.cpp:240 | The default speed gives a -600 command. The speed `-600` is stored as 2^32 - 600 and gives a +600 command. |
| `AutoIntake.RunIntake` | src/auto.cpp:115-124 | Opens a window at `now` with the given duration (int converted to uint32) and speed. Clears detection, ejection and cooldown, keeps the colour and the event times, and leaves the state exclusive. A positive run time means the window is open at `now`. |
| `AutoIntake.ResetIntake` | src/auto.cpp:126-134 | Restores every run field to its default. Afterwards no clock reading is inside the run window. |
| `AutoIntake.IntakeStep` | src/auto.cpp:57-113 | Outside the window: command 0 and restore the defaults. Inside it: keep the speed, and command -runSpeed on every tick that is not ejecting. With sorting off: change nothing. A detection happens iff sorting is on, nothing is detected or ejecting, the cooldown has passed and the hue is in the band of the opposing alliance's colour (the colour to throw off); it records `now` and cooldown `now + 1000`. A detected ring that has not travelled 200 ms is kept unchanged. An ejection starts iff a detected ring has travelled 200 ms; it records `now`. An ejection stalls the motor for 500 ms and ends on a tick with no command. Exclusivity is preserved. The colour and the window are never changed. |
| `AutoIntake.ExclusiveAlongRun` | src/auto.cpp:65-98 | In any run of ticks that starts exclusive, no state is both ejecting and waiting for a detected ring. |
| `AutoIntake.RunningSinceWindow` | src/auto.cpp:103-110 | A state that still wants to run was produced by a tick inside the run window. |
| `AutoIntake.CooldownHeld` | src/auto.cpp:82-98 | Between a detection and the next one, while the run lasts, the cooldown is the detection time plus 1000. |
| `AutoIntake.DetectionsSpaced` | src/auto.cpp:82-98 | Two consecutive detections in a run are at least 1000 ms apart (unsigned comparison; exact when the sum does not wrap). |
| `AutoIntake.DetectionTimeHeld` | src/auto.cpp:72-98 | Between a detection and the next one, the recorded detection time is unchanged. |
| `AutoIntake.EjectionAfterTravel` | src/auto.cpp:72-78 | An ejection after a detection, with no detection in between, starts at least 200 ms after it. |
| `AutoIntake.NoSortingNeverEjects` | src/auto.cpp:64-110 | With sorting off, as configured, a tick never detects or ejects. It commands -runSpeed inside the window and 0 outside. |
| `AutoIntake.NegativeSpeedRunsForward` | src/auto.cpp:240 | On every tick of its window, a run with speed `-600` commands +600 and a default run commands -600. |
| `AutoLift.Clamp` | src/auto.cpp:149 | `std::clamp` (it requires lo <= hi): the result lies in [lo, hi]. It is the input when the input is in range, and the nearer bound otherwise. |
| `AutoLift.InitialLift` | src/auto.cpp:53-55 | The static initial lift state: target 0, speed limit 100, not running. |
| `AutoLift.IsLBRunning` | src/auto.cpp:170-172 | Reports the running flag: true only while the lift is running, and once it is false no tick of the lift task commands a velocity, whatever the position and PID output. |
| `AutoLift.RunLB` | src/auto.cpp:163-172 | Sets the target and speed limit. Afterwards `is_LB_running` holds. |
| `AutoLift.LBStep` | src/auto.cpp:136-161 | Running and 200 or more from the target: keep running and command `std::clamp(pid, -speed, speed)` truncated toward zero as `move_velocity` receives it. That is the truncated PID output when in range, and the truncated nearer bound otherwise. Running and within 200: stop, command 0, and reset the sensor iff the target is 0. Not running: no command, no change. Coast iff position <= 200, otherwise hold. Target and speed never change. |
| `AutoLift.PidOutputTruncated` | src/auto.cpp:148-150 | A PID output of 57.9 (or -57.9) under the default limit commands 57 (or -57): the fraction is dropped toward zero. |
| `AutoLift.RunKeepsTarget` | src/auto.cpp:136-161 | Every state of a run of ticks keeps the target and speed limit of its first state. |
| `AutoLift.RunningUntilClose` | src/auto.cpp:140-151 | A running lift is still running after every tick that found it 200 or more from its target. |
| `AutoLift.StoppedStaysStopped` | src/auto.cpp:140-152 | Once any tick of a run finds the lift stopped (for a `run_LB` move, the tick after it came within tolerance), every later state is stopped and no later tick commands a velocity. This is the condition `wait_until_LB_done` waits for. |
| `AutoLift.InitialLiftIdle` | src/auto.cpp:53-55 | From the static initial state, no tick commands the lift before the first `run_LB`. |
| `AutoLift.VelocityWithinLimit` | src/auto.cpp:148-150 | After `run_LB(angle, speed)`, every velocity a run commands lies in [-speed, speed]. |
| `OpControl.Toggle` | src/main.cpp:151-153 | A new press flips the toggle; otherwise it is kept. |
| `OpControl.ToggleTwice` | src/main.cpp:151-153 | Two presses restore a toggle. |
| `OpControl.ToggleParity` | src/main.cpp:151-153 | After any sequence of ticks, a toggle has changed iff it saw an odd number of new presses. |
| `OpControl.IntakeTick` | src/main.cpp:147-173 | R2 flips the run toggle and RIGHT flips the piston. R1 gives (600, -600), else L1 gives (-600, 600), else the toggle gives (600, -600), else (0, 0). The two ramp motors always get opposite velocities. The piston is written with the new toggle. |
| `OpControl.PistonTick` | src/main.cpp:175-190 | UP (doinker) or B (clamp) flips its toggle on a new press, and the piston is written with the new value. |
| `OpControl.DriveTick` | src/main.cpp:192-203 | Y flips reverse driving. The forward axis is negated iff reversed; the turn axis passes through. |
| `OpControl.DriveParity` | src/main.cpp:192-206 | From `isReversed` false, after a sequence of `drive_control` calls the forward axis is negated iff Y was newly pressed an odd number of times. The turn axis passes through. `opcontrol` does not call `drive_control` (the call at line 210 is commented out), so this describes the handler on its own. |
| `OpControl.OpTick` | src/main.cpp:205-218 | One loop iteration writes the clamp, intake and doinker pistons with their flipped toggles. The ramp gets (600, -600) if R1 is held, else (-600, 600) if L1 is held, else (600, -600) if the flipped R2 toggle is on, else (0, 0); the two motors are always opposite. |
| `OpControl.OpTickToggles` | src/main.cpp:205-218 | Each iteration flips each switch exactly when its own button was newly pressed. |
| `OpControl.SwitchFollowsPresses` | src/main.cpp:205-218 | Over any run, each switch equals its toggle applied to its own button's presses, whatever the other buttons do. |
| `OpControl.SwitchParityFromStart` | src/main.cpp:147-190 | From the start of operator control, the clamp is engaged iff B was pressed an even number of times. Each other switch is on iff its button was pressed an odd number of times. |

## Left out

- Task scheduling: the `while (is_autonomous())` and `opcontrol` loops, `pros::delay`, task creation in `autonomous()`, the `wait_until_LB_done` busy-wait, and the unsynchronised sharing of static state between tasks. One tick is modelled; traces of ticks are sequences.
- The PID controller (`lbPID.update`, `lbPID.reset`). Its output is an input of `AutoLift.LBStep`. The reset in `run_LB` is an external event with no effect on the modelled state.
- The hard-coded autonomous routines, the `autonomous()` dispatcher (including its initial `move_velocity(200)`), `pickup_ring`, `moveForward` and `distance_calculator`. These are sequences of calls into the external motion library, plus floating-point geometry.
- Device wiring and configuration (src/config.cpp, src/main.cpp:4-71), the LCD task, and the `chassis.arcade` call itself. `OpControl.DriveTick` returns the arcade inputs instead.
- Floating-point rounding of hue and position readings. They are exact reals, and the hue is read once per tick; the source reads it up to twice.
- The `Timer` field `currentTime`, which is declared but never used.
- AutoLift.LBStep: does not model a clamped velocity outside the `int32_t` range, whose conversion is undefined behaviour in C++; every speed limit the routines pass is 100 or less.
- `AutoLift.LBStep` requires a non-negative speed limit on ticks that reach the clamp, because `std::clamp` with lo > hi is undefined behaviour. `run_LB` itself accepts any speed.
- `AutoIntake.DetectionsSpaced`, `AutoIntake.CooldownHeld` and `AutoIntake.EjectionAfterTravel` are stated for consecutive detections. Spacing between non-consecutive detections follows by chaining them when no timestamp wraps.

## Findings

| source | as written | input that shows it | evidently intended | confidence | as-written member | corrected member |
|---|---|---|---|---|---|---|
| include/timer.hpp:59-62 | `getTimeRemaining` returns `endTime - millis()` in `uint32_t` whenever the running flag is set. The flag stays set after expiry until someone calls `isTimerRunning`. | A 100 ms timer started at 0 and queried at 150 ms reports 4294967246 ms remaining. | 0 once the end time is reached, so that the remaining time never exceeds the duration. | medium, not executed | `Timers.RemainingUnderflowsAfterExpiry` | `Timers.CorrectedRemainingBounded` |
