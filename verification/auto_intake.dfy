/**
  The autonomous intake task of src/auto.cpp: a timed run window during
  which the intake motor is driven at `-runSpeed`, with optional colour
  sorting that detects a ring of the opposing alliance's colour by hue,
  lets it travel to the top of the intake and then stalls the motor to
  throw it off. One call of `IntakeStep` is one pass of the intake task's loop.
 */
module AutoIntake {
  import opened U32
  import opened Wrappers

  /** The autonomous routine selected for the match (include/auto.h). */
  datatype AutonomousMode = Skills | RedRing | RedStake | BlueRing | BlueStake | Test | Screw

  /** The routine the repository is configured to run. */
  const CURRENT_AUTO: AutonomousMode := BlueStake

  /** The colour sorting switch as configured; the step takes it as a parameter so that both settings are covered. */
  const ENABLE_COLOR_SORT: bool := false

  /** How long the intake is stalled to throw a ring off (ms). */
  const EJECT_TIME: u32 := 500
  /** How long a detected ring takes to reach the top of the intake (ms). */
  const RING_TRAVEL_TIME: u32 := 200
  /** The minimum spacing between two detections (ms). */
  const RING_EJECT_COOLDOWN: u32 := 1000
  /** The default intake speed (rpm). */
  const INTAKE_SPEED: u32 := 600

  /**
    The session state of the intake task. Times and `runSpeed` are `uint32_t`
    in the controller; `targetColor` is true on the blue alliance, which
    ejects red rings.
   */
  datatype IntakeState = IntakeState(
    targetColor: bool,
    isEjecting: bool,
    ringDetected: bool,
    ejectStartTime: u32,
    ringEjectCooldown: u32,
    ringDetectedTime: u32,
    shouldRun: bool,
    startTime: u32,
    duration: u32,
    runSpeed: u32)

  /** The new state after one tick and the velocity sent to the intake motor, if any. */
  datatype IntakeTick = IntakeTick(state: IntakeState, command: Option<int>)

  /** One reading of the clock and of the optical sensor's hue. */
  datatype Reading = Reading(now: u32, hue: real)

  /** The alliance colour: true exactly for the two blue routines. */
  function TargetColor(mode: AutonomousMode): (r: bool)
    ensures r <==> mode == BlueRing || mode == BlueStake
    ensures mode == CURRENT_AUTO ==> r
  {
    match mode
    case BlueRing => true
    case BlueStake => true
    case _ => false
  }

  /** The state the static initialisers establish for routine `mode`. */
  function InitialState(mode: AutonomousMode): (r: IntakeState)
    ensures r.targetColor == TargetColor(mode)
    ensures !r.shouldRun && !r.isEjecting && !r.ringDetected
    ensures r.runSpeed == INTAKE_SPEED && r.duration == 0 && r.ringEjectCooldown == 0
    ensures r.startTime == 0 && r.ejectStartTime == 0 && r.ringDetectedTime == 0
  {
    IntakeState(TargetColor(mode), false, false, 0, 0, 0, false, 0, 0, INTAKE_SPEED)
  }

  /** Ejecting and waiting for a detected ring to travel are never both in progress. */
  predicate Exclusive(s: IntakeState)
  {
    !(s.isEjecting && s.ringDetected)
  }

  /** The run window is open: a run was requested and its duration has not elapsed (unsigned subtraction). */
  predicate InRunWindow(s: IntakeState, now: u32)
  {
    s.shouldRun && Sub(now, s.startTime) < s.duration
  }

  /** The hue of a ring to throw off: red ([0, 25]) on the blue alliance, blue ([100, 220]) on the red one. */
  predicate HueInBand(targetColor: bool, hue: real)
  {
    if targetColor then 0.0 <= hue <= 25.0 else 100.0 <= hue <= 220.0
  }

  /** A ring was detected between the two states. */
  predicate Detects(s: IntakeState, s': IntakeState)
  {
    !s.ringDetected && s'.ringDetected
  }

  /** An ejection began between the two states. */
  predicate StartsEjecting(s: IntakeState, s': IntakeState)
  {
    !s.isEjecting && s'.isEjecting
  }

  /**
    The velocity `move_velocity(-runSpeed)` delivers: `-runSpeed` is computed
    on `uint32_t` and reaches the motor as `int32_t`, so it is the negation of
    the speed read as a signed value, except at the minimum `int32_t`.
   */
  function ReverseCommand(runSpeed: u32): (r: int)
    ensures -HALF <= r < HALF
    ensures ToSigned(runSpeed) != -HALF ==> r == -ToSigned(runSpeed)
    ensures ToSigned(runSpeed) == -HALF ==> r == -HALF
  {
    ToSigned(Neg(runSpeed))
  }

  /** The default speed drives the intake at -600; a speed given as -600 wraps to 2^32 - 600 and drives it at +600. */
  lemma ReverseCommandOfConfiguredSpeeds()
    ensures ReverseCommand(INTAKE_SPEED) == -600
    ensures Wrap(-600) == MODULUS - 600
    ensures ReverseCommand(Wrap(-600)) == 600
  {
  }

  /**
    `run_intake(runTime, intakeSpeed)`: opens a run window of `runTime` ms
    (an `int` stored as `uint32_t`) starting `now`, at the given speed, and
    clears any detection or ejection in progress.
   */
  function RunIntake(s: IntakeState, now: u32, runTime: int, intakeSpeed: u32): (r: IntakeState)
    requires -HALF <= runTime < HALF
    ensures r.startTime == now && r.duration == Wrap(runTime) && r.runSpeed == intakeSpeed && r.shouldRun
    ensures !r.isEjecting && !r.ringDetected && r.ringEjectCooldown == 0
    ensures r.targetColor == s.targetColor
    ensures r.ejectStartTime == s.ejectStartTime && r.ringDetectedTime == s.ringDetectedTime
    ensures Exclusive(r)
    ensures 0 < runTime ==> InRunWindow(r, now)
  {
    s.(startTime := now, duration := Wrap(runTime), shouldRun := true,
       isEjecting := false, ringDetected := false, ringEjectCooldown := 0, runSpeed := intakeSpeed)
  }

  /** `reset_intake`: every run field back to its initial value; no clock reading opens the window afterwards. */
  function ResetIntake(s: IntakeState): (r: IntakeState)
    ensures !r.shouldRun && !r.isEjecting && !r.ringDetected
    ensures r.startTime == 0 && r.duration == 0 && r.ringEjectCooldown == 0 && r.runSpeed == INTAKE_SPEED
    ensures r.targetColor == s.targetColor
    ensures r.ejectStartTime == s.ejectStartTime && r.ringDetectedTime == s.ringDetectedTime
    ensures Exclusive(r)
    ensures forall now: u32 :: !InRunWindow(r, now)
  {
    s.(startTime := 0, duration := 0, shouldRun := false, isEjecting := false,
       ringDetected := false, ringEjectCooldown := 0, runSpeed := INTAKE_SPEED)
  }

  /** The defaults restored when the run window is closed. */
  function Stopped(s: IntakeState): (r: IntakeState)
  {
    s.(shouldRun := false, isEjecting := false, ringDetected := false,
       ringEjectCooldown := 0, runSpeed := INTAKE_SPEED)
  }

  /**
    One pass of the intake task at clock reading `now` with hue `hue`.
    `colorSort` is the colour sorting switch.
   */
  function IntakeStep(s: IntakeState, now: u32, hue: real, colorSort: bool): (t: IntakeTick)
    // The alliance and the run window are never changed by a tick.
    ensures t.state.targetColor == s.targetColor
    ensures t.state.startTime == s.startTime && t.state.duration == s.duration
    ensures Exclusive(s) ==> Exclusive(t.state)
    // Outside the run window: stop the motor and restore the defaults.
    ensures !InRunWindow(s, now) ==>
      && t.command == Some(0)
      && !t.state.shouldRun && !t.state.isEjecting && !t.state.ringDetected
      && t.state.ringEjectCooldown == 0 && t.state.runSpeed == INTAKE_SPEED
      && t.state.ejectStartTime == s.ejectStartTime && t.state.ringDetectedTime == s.ringDetectedTime
    // Inside it the speed is kept and the motor is stalled, reversed or left alone.
    ensures InRunWindow(s, now) ==>
      && t.state.shouldRun && t.state.runSpeed == s.runSpeed
      && t.command in {Some(0), Some(ReverseCommand(s.runSpeed)), None}
    ensures InRunWindow(s, now) && !colorSort ==> t == IntakeTick(s, Some(ReverseCommand(s.runSpeed)))
    ensures InRunWindow(s, now) && !s.isEjecting ==> t.command == Some(ReverseCommand(s.runSpeed))
    // A detected ring that has not yet travelled is kept, and nothing else changes.
    ensures (colorSort && InRunWindow(s, now) && !s.isEjecting && s.ringDetected &&
             Sub(now, s.ringDetectedTime) < RING_TRAVEL_TIME) ==> t.state == s
    // Detection.
    ensures Detects(s, t.state) <==>
      && colorSort && InRunWindow(s, now) && !s.isEjecting && !s.ringDetected
      && now >= s.ringEjectCooldown && HueInBand(s.targetColor, hue)
    ensures Detects(s, t.state) ==>
      && t.state.ringDetectedTime == now
      && t.state.ringEjectCooldown == Add(now, RING_EJECT_COOLDOWN)
      && t.command == Some(ReverseCommand(s.runSpeed))
    ensures !Detects(s, t.state) ==> t.state.ringDetectedTime == s.ringDetectedTime
    ensures !Detects(s, t.state) && InRunWindow(s, now) ==> t.state.ringEjectCooldown == s.ringEjectCooldown
    // A detected ring is ejected once it has travelled.
    ensures StartsEjecting(s, t.state) <==>
      colorSort && InRunWindow(s, now) && !s.isEjecting && s.ringDetected
      && Sub(now, s.ringDetectedTime) >= RING_TRAVEL_TIME
    ensures StartsEjecting(s, t.state) ==>
      && t.state.ejectStartTime == now && !t.state.ringDetected
      && t.command == Some(ReverseCommand(s.runSpeed))
    ensures !StartsEjecting(s, t.state) ==> t.state.ejectStartTime == s.ejectStartTime
    // An ejection stalls the motor for EJECT_TIME, then ends on a tick with no command.
    ensures colorSort && InRunWindow(s, now) && s.isEjecting && Sub(now, s.ejectStartTime) < EJECT_TIME ==>
      t == IntakeTick(s, Some(0))
    ensures t.command == None <==>
      colorSort && InRunWindow(s, now) && s.isEjecting && Sub(now, s.ejectStartTime) >= EJECT_TIME
    ensures t.command == None ==> !t.state.isEjecting && !t.state.ringDetected
  {
    if !InRunWindow(s, now) then
      IntakeTick(Stopped(s), Some(0))
    else if !colorSort then
      IntakeTick(s, Some(ReverseCommand(s.runSpeed)))
    else if s.isEjecting then
      if Sub(now, s.ejectStartTime) < EJECT_TIME then IntakeTick(s, Some(0))
      else IntakeTick(s.(isEjecting := false, ringDetected := false), None)
    else if s.ringDetected then
      var s' :=
        if Sub(now, s.ringDetectedTime) >= RING_TRAVEL_TIME
        then s.(isEjecting := true, ejectStartTime := now, ringDetected := false)
        else s;
      IntakeTick(s', Some(ReverseCommand(s.runSpeed)))
    else
      var s' :=
        if HueInBand(s.targetColor, hue) && now >= s.ringEjectCooldown
        then s.(ringDetected := true, ringDetectedTime := now,
                ringEjectCooldown := Add(now, RING_EJECT_COOLDOWN))
        else s;
      IntakeTick(s', Some(ReverseCommand(s.runSpeed)))
  }

  /** `states` is the sequence of states the intake task passes through on `readings`, with no `run_intake` or `reset_intake` in between. */
  ghost predicate IsRun(states: seq<IntakeState>, readings: seq<Reading>, colorSort: bool)
  {
    && |states| == |readings| + 1
    && forall k :: 0 <= k < |readings| ==>
         states[k + 1] == IntakeStep(states[k], readings[k].now, readings[k].hue, colorSort).state
  }

  /** Every state of a run that starts exclusive is exclusive. */
  lemma {:induction false} ExclusiveAlongRun(states: seq<IntakeState>, readings: seq<Reading>, colorSort: bool, k: nat)
    requires IsRun(states, readings, colorSort)
    requires Exclusive(states[0])
    requires k < |states|
    ensures Exclusive(states[k])
  {
    if k > 0 {
      ExclusiveAlongRun(states, readings, colorSort, k - 1);
      assert states[k] == IntakeStep(states[k - 1], readings[k - 1].now, readings[k - 1].hue, colorSort).state;
    }
  }

  /** A state of a run that still wants to run was reached through ticks inside the run window. */
  lemma RunningSinceWindow(states: seq<IntakeState>, readings: seq<Reading>, colorSort: bool, k: nat)
    requires IsRun(states, readings, colorSort)
    requires 0 < k < |states| && states[k].shouldRun
    ensures InRunWindow(states[k - 1], readings[k - 1].now)
  {
  }

  /**
    From the tick after a detection at tick `i` until the next detection, the
    cooldown holds the detection time plus RING_EJECT_COOLDOWN.
   */
  lemma {:induction false} CooldownHeld(states: seq<IntakeState>, readings: seq<Reading>, colorSort: bool, i: nat, k: nat)
    requires IsRun(states, readings, colorSort)
    requires i < k < |states|
    requires Detects(states[i], states[i + 1])
    requires forall m :: i < m < k ==> !Detects(states[m], states[m + 1])
    requires states[k].shouldRun
    ensures states[k].ringEjectCooldown == Add(readings[i].now, RING_EJECT_COOLDOWN)
  {
    assert states[i + 1] == IntakeStep(states[i], readings[i].now, readings[i].hue, colorSort).state;
    if k > i + 1 {
      RunningSinceWindow(states, readings, colorSort, k);
      CooldownHeld(states, readings, colorSort, i, k - 1);
      assert states[k] == IntakeStep(states[k - 1], readings[k - 1].now, readings[k - 1].hue, colorSort).state;
    }
  }

  /**
    Two consecutive detections in one run of ticks are at least
    RING_EJECT_COOLDOWN apart: the later clock reading has reached the earlier
    one plus the cooldown (in `uint32_t` arithmetic, so exactly 1000 ms later
    or more whenever that sum does not wrap).
   */
  lemma DetectionsSpaced(states: seq<IntakeState>, readings: seq<Reading>, colorSort: bool, i: nat, j: nat)
    requires IsRun(states, readings, colorSort)
    requires i < j < |readings|
    requires Detects(states[i], states[i + 1]) && Detects(states[j], states[j + 1])
    requires forall m :: i < m < j ==> !Detects(states[m], states[m + 1])
    ensures readings[j].now >= Add(readings[i].now, RING_EJECT_COOLDOWN)
    ensures readings[i].now + RING_EJECT_COOLDOWN < MODULUS ==> readings[j].now - readings[i].now >= RING_EJECT_COOLDOWN
  {
    assert states[j + 1] == IntakeStep(states[j], readings[j].now, readings[j].hue, colorSort).state;
    CooldownHeld(states, readings, colorSort, i, j);
  }

  /** From a detection at tick `i` until the next one, the recorded detection time is that of tick `i`. */
  lemma {:induction false} DetectionTimeHeld(states: seq<IntakeState>, readings: seq<Reading>, colorSort: bool, i: nat, k: nat)
    requires IsRun(states, readings, colorSort)
    requires i < k < |states|
    requires Detects(states[i], states[i + 1])
    requires forall m :: i < m < k ==> !Detects(states[m], states[m + 1])
    ensures states[k].ringDetectedTime == readings[i].now
  {
    assert states[i + 1] == IntakeStep(states[i], readings[i].now, readings[i].hue, colorSort).state;
    if k > i + 1 {
      DetectionTimeHeld(states, readings, colorSort, i, k - 1);
      assert states[k] == IntakeStep(states[k - 1], readings[k - 1].now, readings[k - 1].hue, colorSort).state;
    }
  }

  /** An ejection that follows a detection, with no other detection between, begins at least RING_TRAVEL_TIME after it. */
  lemma EjectionAfterTravel(states: seq<IntakeState>, readings: seq<Reading>, colorSort: bool, i: nat, j: nat)
    requires IsRun(states, readings, colorSort)
    requires i < j < |readings|
    requires Detects(states[i], states[i + 1]) && StartsEjecting(states[j], states[j + 1])
    requires forall m :: i < m < j ==> !Detects(states[m], states[m + 1])
    ensures Sub(readings[j].now, readings[i].now) >= RING_TRAVEL_TIME
  {
    assert states[j + 1] == IntakeStep(states[j], readings[j].now, readings[j].hue, colorSort).state;
    DetectionTimeHeld(states, readings, colorSort, i, j);
  }

  /**
    With colour sorting off, as configured, a tick either drives the intake at
    `-runSpeed` and changes nothing, or closes the window; it never detects or
    ejects.
   */
  lemma NoSortingNeverEjects(s: IntakeState, now: u32, hue: real)
    requires Exclusive(s) && !s.isEjecting && !s.ringDetected
    ensures var t := IntakeStep(s, now, hue, ENABLE_COLOR_SORT);
      && !t.state.isEjecting && !t.state.ringDetected
      && t.command == (if InRunWindow(s, now) then Some(ReverseCommand(s.runSpeed)) else Some(0))
  {
  }

  /**
    A run started with `run_intake(runTime, -600)`, as the skills routine does,
    drives the intake at +600 rpm on every tick of its window, the reverse of
    the default run.
   */
  lemma NegativeSpeedRunsForward(s: IntakeState, start: u32, runTime: int, now: u32, hue: real)
    requires 0 < runTime < HALF
    requires Sub(now, start) < runTime
    ensures IntakeStep(RunIntake(s, start, runTime, Wrap(-600)), now, hue, false).command == Some(600)
    ensures IntakeStep(RunIntake(s, start, runTime, INTAKE_SPEED), now, hue, false).command == Some(-600)
  {
    ReverseCommandOfConfiguredSpeeds();
  }
}
