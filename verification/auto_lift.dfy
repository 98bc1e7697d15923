/**
  The autonomous lift ("LB") task of src/auto.cpp. `run_LB` sets a target
  angle and a speed limit; each pass of the lift task's loop reads the rotation
  sensor, drives the lift with the clamped output of an external PID
  controller until it is within tolerance of the target, and chooses the
  brake mode from the position. The PID controller is not modelled: its
  output for this tick is an input of the step.
 */
module AutoLift {
  import opened Wrappers

  /** Within this distance of the target (centidegrees) the lift stops. */
  const STOP_TOLERANCE: real := 200.0
  /** At or below this position the lift coasts instead of holding. */
  const COAST_LIMIT: real := 200.0
  /** The default speed limit of `run_LB` (rpm). */
  const DEFAULT_SPEED: real := 100.0

  datatype BrakeMode = Coast | Hold

  datatype LBState = LBState(targetPosition: real, runSpeed: real, isRunning: bool)

  /**
    What one tick asks of the hardware: a velocity (if any) as the `int32_t`
    that `move_velocity` receives, a brake mode, and whether to zero the
    rotation sensor.
   */
  datatype LBOutput = LBOutput(velocity: Option<int>, brake: BrakeMode, resetSensor: bool)

  datatype LBTick = LBTick(state: LBState, out: LBOutput)

  /** The state the static initialisers establish: aimed at the rest position, default speed, not running. */
  function InitialLift(): (r: LBState)
    ensures !IsLBRunning(r)
    ensures r.targetPosition == 0.0 && r.runSpeed == DEFAULT_SPEED
  {
    LBState(0.0, DEFAULT_SPEED, false)
  }

  function Abs(x: real): (r: real)
    ensures r >= 0.0 && (r == x || r == -x)
  {
    if x < 0.0 then -x else x
  }

  /** The conversion of a `double` to an integer type in C++: the fractional part is dropped, rounding toward zero. */
  function TruncateTowardZero(x: real): (r: int)
    ensures 0.0 <= x ==> 0 <= r && r as real <= x < r as real + 1.0
    ensures x < 0.0 ==> r <= 0 && r as real - 1.0 < x <= r as real
    ensures Abs(r as real) <= Abs(x)
  {
    if 0.0 <= x then x.Floor else -((-x).Floor)
  }

  /** `std::clamp(v, lo, hi)`, which requires `lo <= hi`. */
  function Clamp(v: real, lo: real, hi: real): (r: real)
    requires lo <= hi
    ensures lo <= r <= hi
    ensures lo <= v <= hi ==> r == v
    ensures v < lo ==> r == lo
    ensures hi < v ==> r == hi
  {
    if v < lo then lo else if hi < v then hi else v
  }

  /** The tick drives the lift by PID: it is running and not yet within tolerance of its target. */
  predicate Driving(s: LBState, position: real)
  {
    s.isRunning && Abs(s.targetPosition - position) >= STOP_TOLERANCE
  }

  /** `run_LB(angle, speed)`: aim at `angle` with speed limit `speed` and start moving. */
  function RunLB(s: LBState, angle: real, speed: real): (r: LBState)
    ensures r.targetPosition == angle && r.runSpeed == speed
    ensures IsLBRunning(r)
  {
    LBState(angle, speed, true)
  }

  /** `is_LB_running`: whether the lift is still moving to its target; once it is false, no tick drives the lift. */
  function IsLBRunning(s: LBState): (r: bool)
    ensures !r ==> forall position: real :: !Driving(s, position)
    ensures !r ==> forall position: real, pidOutput: real :: LBStep(s, position, pidOutput).out.velocity == None
    ensures r ==> s.isRunning
  {
    s.isRunning
  }

  /**
    One pass of the lift task at rotation `position`, given what the PID
    controller returns for this tick's error. The clamp needs a non-negative
    speed limit whenever it is reached. The clamped `double` is passed to
    `move_velocity`, whose `int32_t` parameter truncates it toward zero.
   */
  function LBStep(s: LBState, position: real, pidOutput: real): (t: LBTick)
    requires Driving(s, position) ==> s.runSpeed >= 0.0
    // The target and speed limit are only ever set by run_LB.
    ensures t.state.targetPosition == s.targetPosition && t.state.runSpeed == s.runSpeed
    // Far from the target: keep running, command the PID output limited to the speed and truncated.
    ensures Driving(s, position) ==>
      && t.state.isRunning && !t.out.resetSensor
      && t.out.velocity.Some?
      && Abs(t.out.velocity.value as real) <= s.runSpeed
      && t.out.velocity == Some(TruncateTowardZero(Clamp(pidOutput, -s.runSpeed, s.runSpeed)))
      && (Abs(pidOutput) <= s.runSpeed ==> t.out.velocity == Some(TruncateTowardZero(pidOutput)))
      && (pidOutput > s.runSpeed ==> t.out.velocity == Some(TruncateTowardZero(s.runSpeed)))
      && (pidOutput < -s.runSpeed ==> t.out.velocity == Some(TruncateTowardZero(-s.runSpeed)))
    // Close to the target: stop, and zero the sensor exactly when the target is the rest position.
    ensures s.isRunning && !Driving(s, position) ==>
      && !t.state.isRunning
      && t.out.velocity == Some(0)
      && (t.out.resetSensor <==> s.targetPosition == 0.0)
    // Not running: no velocity command and nothing changes.
    ensures !s.isRunning ==> t.state == s && t.out.velocity == None && !t.out.resetSensor
    // The brake mode follows the position only.
    ensures t.out.brake == Coast <==> position <= COAST_LIMIT
  {
    var brake := if position <= COAST_LIMIT then Coast else Hold;
    var error := s.targetPosition - position;
    if !s.isRunning then
      LBTick(s, LBOutput(None, brake, false))
    else if Abs(error) < STOP_TOLERANCE then
      LBTick(s.(isRunning := false), LBOutput(Some(0), brake, s.targetPosition == 0.0))
    else
      LBTick(s, LBOutput(Some(TruncateTowardZero(Clamp(pidOutput, -s.runSpeed, s.runSpeed))), brake, false))
  }

  /** A fractional PID output is truncated on its way to the motor: 57.9 with the default limit commands 57. */
  lemma PidOutputTruncated(target: real, position: real)
    requires Abs(target - position) >= STOP_TOLERANCE
    ensures LBStep(LBState(target, DEFAULT_SPEED, true), position, 57.9).out.velocity == Some(57)
    ensures LBStep(LBState(target, DEFAULT_SPEED, true), position, -57.9).out.velocity == Some(-57)
  {
    assert TruncateTowardZero(57.9) == 57;
    assert TruncateTowardZero(-57.9) == -57;
  }

  /** One reading of the rotation sensor and the PID output computed for it. */
  datatype LiftReading = LiftReading(position: real, pidOutput: real)

  /**
    `states` is the sequence of states the lift task passes through on
    `readings`, with no `run_LB` in between; every tick reaching the clamp has
    a non-negative speed limit.
   */
  ghost predicate IsLiftRun(states: seq<LBState>, readings: seq<LiftReading>)
  {
    && |states| == |readings| + 1
    && forall k :: 0 <= k < |readings| ==>
         && states[k].runSpeed >= 0.0
         && states[k + 1] == LBStep(states[k], readings[k].position, readings[k].pidOutput).state
  }

  /** The target and speed limit set by `run_LB` hold for every state of a run. */
  lemma {:induction false} RunKeepsTarget(states: seq<LBState>, readings: seq<LiftReading>, k: nat)
    requires IsLiftRun(states, readings)
    requires k < |states|
    ensures states[k].targetPosition == states[0].targetPosition
    ensures states[k].runSpeed == states[0].runSpeed
  {
    if k > 0 {
      RunKeepsTarget(states, readings, k - 1);
      assert states[k] == LBStep(states[k - 1], readings[k - 1].position, readings[k - 1].pidOutput).state;
    }
  }

  /** A running lift keeps running through every tick that finds it 200 or more from its target. */
  lemma {:induction false} RunningUntilClose(states: seq<LBState>, readings: seq<LiftReading>, k: nat)
    requires IsLiftRun(states, readings)
    requires k < |states| && states[0].isRunning
    requires forall m :: 0 <= m < k ==> Abs(states[m].targetPosition - readings[m].position) >= STOP_TOLERANCE
    ensures states[k].isRunning
  {
    if k > 0 {
      RunningUntilClose(states, readings, k - 1);
      assert states[k] == LBStep(states[k - 1], readings[k - 1].position, readings[k - 1].pidOutput).state;
    }
  }

  /**
    Once a tick finds the lift stopped (in particular after the tick that
    brought a `run_LB` move within tolerance), every later state of the run is
    stopped and no later tick commands a velocity, until `run_LB` is called
    again. This is what `wait_until_LB_done` relies on.
   */
  lemma {:induction false} StoppedStaysStopped(states: seq<LBState>, readings: seq<LiftReading>, k0: nat, k: nat)
    requires IsLiftRun(states, readings)
    requires k0 <= k < |states|
    ensures !states[k0].isRunning ==> !states[k].isRunning
    ensures !states[k0].isRunning && k < |readings| ==>
      LBStep(states[k], readings[k].position, readings[k].pidOutput).out.velocity == None
  {
    if k > k0 {
      StoppedStaysStopped(states, readings, k0, k - 1);
      assert states[k] == LBStep(states[k - 1], readings[k - 1].position, readings[k - 1].pidOutput).state;
    }
  }

  /** From the static initial state no tick of a run commands a velocity before the first `run_LB`. */
  lemma InitialLiftIdle(states: seq<LBState>, readings: seq<LiftReading>, k: nat)
    requires IsLiftRun(states, readings) && states[0] == InitialLift()
    requires k < |readings|
    ensures !IsLBRunning(states[k])
    ensures LBStep(states[k], readings[k].position, readings[k].pidOutput).out.velocity == None
  {
    StoppedStaysStopped(states, readings, 0, k);
  }

  /** Every velocity a run started by `run_LB(angle, speed)` commands is within [-speed, speed]. */
  lemma VelocityWithinLimit(
    states: seq<LBState>, readings: seq<LiftReading>, s: LBState, angle: real, speed: real, k: nat)
    requires IsLiftRun(states, readings) && states[0] == RunLB(s, angle, speed)
    requires k < |readings|
    ensures var v := LBStep(states[k], readings[k].position, readings[k].pidOutput).out.velocity;
      v.Some? ==> -speed <= v.value as real <= speed
  {
    RunKeepsTarget(states, readings, k);
  }
}
