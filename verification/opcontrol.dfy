/**
  The operator-control handlers of src/main.cpp. Each handler's `static`
  locals become fields of an explicit state, and each controller query
  becomes an input: a level (`get_digital`) or a new-press edge
  (`get_digital_new_press`).
 */
module OpControl {

  /** The ramp motor speed of the intake handler (rpm). */
  const RAMP_SPEED: int := 600

  /** A toggle flips on a new press and is otherwise left alone. */
  function Toggle(b: bool, pressed: bool): (r: bool)
    ensures pressed ==> r == !b
    ensures !pressed ==> r == b
  {
    if pressed then !b else b
  }

  /** The number of new presses in a sequence of ticks. */
  function Presses(presses: seq<bool>): (n: nat)
  {
    if |presses| == 0 then 0
    else Presses(presses[..|presses| - 1]) + (if presses[|presses| - 1] then 1 else 0)
  }

  /** A toggle after a sequence of ticks. */
  function ToggleAll(b: bool, presses: seq<bool>): (r: bool)
  {
    if |presses| == 0 then b
    else Toggle(ToggleAll(b, presses[..|presses| - 1]), presses[|presses| - 1])
  }

  /** After any sequence of ticks a toggle has moved from its start exactly when it saw an odd number of presses. */
  lemma {:induction false} ToggleParity(b: bool, presses: seq<bool>)
    ensures ToggleAll(b, presses) == (if Presses(presses) % 2 == 1 then !b else b)
  {
    if |presses| > 0 {
      ToggleParity(b, presses[..|presses| - 1]);
    }
  }

  /** Two presses restore a toggle. */
  lemma ToggleTwice(b: bool)
    ensures Toggle(Toggle(b, true), true) == b
  {
  }

  /** The velocities sent to the two ramp motors. */
  datatype RampCommand = RampCommand(motor1: int, motor2: int)

  /** The static locals of `intake()`: the R2 run toggle and the intake piston toggle. */
  datatype IntakeControl = IntakeControl(r2Toggle: bool, pistonState: bool)

  /** The result of one call of `intake()`. */
  datatype IntakeOut = IntakeOut(state: IntakeControl, ramp: RampCommand, piston: bool)

  /**
    One call of `intake()`: R2 toggles continuous intake, RIGHT toggles the
    intake piston; holding R1 intakes, holding L1 outtakes, and R1 beats L1,
    which beats the toggle.
   */
  function IntakeTick(s: IntakeControl, r1: bool, l1: bool, r2Pressed: bool, rightPressed: bool): (o: IntakeOut)
    ensures o.state.r2Toggle == Toggle(s.r2Toggle, r2Pressed)
    ensures o.state.pistonState == Toggle(s.pistonState, rightPressed)
    ensures o.piston == o.state.pistonState
    ensures o.ramp.motor1 == -o.ramp.motor2
    ensures r1 ==> o.ramp == RampCommand(RAMP_SPEED, -RAMP_SPEED)
    ensures !r1 && l1 ==> o.ramp == RampCommand(-RAMP_SPEED, RAMP_SPEED)
    ensures !r1 && !l1 ==> (o.ramp.motor1 != 0 <==> o.state.r2Toggle)
    ensures !r1 && !l1 && o.state.r2Toggle ==> o.ramp == RampCommand(RAMP_SPEED, -RAMP_SPEED)
  {
    var r2 := Toggle(s.r2Toggle, r2Pressed);
    var ramp :=
      if r1 then RampCommand(RAMP_SPEED, -RAMP_SPEED)
      else if l1 then RampCommand(-RAMP_SPEED, RAMP_SPEED)
      else if r2 then RampCommand(RAMP_SPEED, -RAMP_SPEED)
      else RampCommand(0, 0);
    var piston := Toggle(s.pistonState, rightPressed);
    IntakeOut(IntakeControl(r2, piston), ramp, piston)
  }

  /** The toggle state of a piston handler and the value written to the piston this tick. */
  datatype PistonOut = PistonOut(state: bool, piston: bool)

  /**
    One call of `doungler_control()` (UP, doinker piston, starts retracted) or
    `clamp_control()` (B, clamp piston, starts engaged): a new press flips the
    toggle and the piston is written with it every tick.
   */
  function PistonTick(state: bool, pressed: bool): (o: PistonOut)
    ensures o.state == Toggle(state, pressed) && o.piston == o.state
    ensures pressed ==> o.piston != state
  {
    var next := Toggle(state, pressed);
    PistonOut(next, next)
  }

  /** The forward and turn inputs handed to the arcade drive. */
  datatype Arcade = Arcade(forward: int, turn: int)

  datatype DriveOut = DriveOut(isReversed: bool, arcade: Arcade)

  /** One call of `drive_control`: Y toggles reverse driving, which negates the forward axis only. */
  function DriveTick(isReversed: bool, yPressed: bool, leftY: int, rightX: int): (o: DriveOut)
    ensures o.isReversed == Toggle(isReversed, yPressed)
    ensures o.arcade.turn == rightX
    ensures o.isReversed ==> o.arcade.forward == -leftY
    ensures !o.isReversed ==> o.arcade.forward == leftY
  {
    var rev := Toggle(isReversed, yPressed);
    DriveOut(rev, Arcade(if rev then -leftY else leftY, rightX))
  }

  /** The edges and levels of the controller buttons read during one tick. */
  datatype Buttons = Buttons(
    r1: bool, l1: bool,
    r2Pressed: bool, rightPressed: bool, upPressed: bool, bPressed: bool)

  /** All the static state of the operator-control loop. */
  datatype OpState = OpState(intake: IntakeControl, doungler: bool, clamp: bool)

  /** The state before the first tick: every toggle off except the clamp, which starts engaged. */
  const OP_INITIAL: OpState := OpState(IntakeControl(false, false), false, true)

  /** The actuator outputs of one loop iteration. */
  datatype OpOut = OpOut(state: OpState, ramp: RampCommand, intakePiston: bool, dounglerPiston: bool, clampPiston: bool)

  /**
    Over a sequence of `drive_control` calls starting with `isReversed` false
    (as `opcontrol` initialises it), the last call negates the forward axis
    exactly when Y was newly pressed an odd number of times, and passes the
    turn axis through.
   */
  lemma DriveParity(yPresses: seq<bool>, leftY: int, rightX: int)
    requires |yPresses| > 0
    ensures var before := ToggleAll(false, yPresses[..|yPresses| - 1]);
      var o := DriveTick(before, yPresses[|yPresses| - 1], leftY, rightX);
      && o.isReversed == ToggleAll(false, yPresses)
      && o.arcade.forward == (if Presses(yPresses) % 2 == 1 then -leftY else leftY)
      && o.arcade.turn == rightX
  {
    ToggleParity(false, yPresses);
  }

  /** One iteration of the `opcontrol` loop: clamp, intake and doinker handlers in that order (drive control is disabled there). */
  function OpTick(s: OpState, b: Buttons): (o: OpOut)
    ensures o.clampPiston == Toggle(s.clamp, b.bPressed) && o.state.clamp == o.clampPiston
    ensures o.dounglerPiston == Toggle(s.doungler, b.upPressed) && o.state.doungler == o.dounglerPiston
    ensures o.intakePiston == Toggle(s.intake.pistonState, b.rightPressed)
    ensures o.ramp.motor1 == -o.ramp.motor2
    ensures o.state.intake.r2Toggle == Toggle(s.intake.r2Toggle, b.r2Pressed)
    ensures b.r1 ==> o.ramp == RampCommand(RAMP_SPEED, -RAMP_SPEED)
    ensures !b.r1 && b.l1 ==> o.ramp == RampCommand(-RAMP_SPEED, RAMP_SPEED)
    ensures !b.r1 && !b.l1 && o.state.intake.r2Toggle ==> o.ramp == RampCommand(RAMP_SPEED, -RAMP_SPEED)
    ensures !b.r1 && !b.l1 && !o.state.intake.r2Toggle ==> o.ramp == RampCommand(0, 0)
  {
    var c := PistonTick(s.clamp, b.bPressed);
    var i := IntakeTick(s.intake, b.r1, b.l1, b.r2Pressed, b.rightPressed);
    var d := PistonTick(s.doungler, b.upPressed);
    OpOut(OpState(i.state, d.state, c.state), i.ramp, i.piston, d.piston, c.piston)
  }

  /** The state after a sequence of ticks. */
  function OpRun(s: OpState, ticks: seq<Buttons>): (r: OpState)
  {
    if |ticks| == 0 then s
    else OpTick(OpRun(s, ticks[..|ticks| - 1]), ticks[|ticks| - 1]).state
  }

  /** The four toggles of the operator-control loop and the buttons that flip them. */
  datatype Switch = RunToggle | IntakePiston | Doungler | Clamp

  /** Whether the switch's button had a new press this tick. */
  function PressedOn(b: Buttons, w: Switch): (r: bool)
  {
    match w
    case RunToggle => b.r2Pressed
    case IntakePiston => b.rightPressed
    case Doungler => b.upPressed
    case Clamp => b.bPressed
  }

  /** The switch's current value. */
  function Setting(s: OpState, w: Switch): (r: bool)
  {
    match w
    case RunToggle => s.intake.r2Toggle
    case IntakePiston => s.intake.pistonState
    case Doungler => s.doungler
    case Clamp => s.clamp
  }

  /** The new presses of one switch's button over a sequence of ticks. */
  function PressesOn(ticks: seq<Buttons>, w: Switch): (r: seq<bool>)
    ensures |r| == |ticks|
    ensures forall k :: 0 <= k < |ticks| ==> r[k] == PressedOn(ticks[k], w)
  {
    if |ticks| == 0 then [] else PressesOn(ticks[..|ticks| - 1], w) + [PressedOn(ticks[|ticks| - 1], w)]
  }

  /** Each loop iteration flips a switch exactly when its button was newly pressed. */
  lemma OpTickToggles(s: OpState, b: Buttons, w: Switch)
    ensures Setting(OpTick(s, b).state, w) == Toggle(Setting(s, w), PressedOn(b, w))
  {
  }

  /** Over any run, each switch is its toggle applied to the presses of its own button, whatever the other buttons do. */
  lemma {:induction false} SwitchFollowsPresses(s: OpState, ticks: seq<Buttons>, w: Switch)
    ensures Setting(OpRun(s, ticks), w) == ToggleAll(Setting(s, w), PressesOn(ticks, w))
  {
    if |ticks| > 0 {
      var init := ticks[..|ticks| - 1];
      SwitchFollowsPresses(s, init, w);
      assert PressesOn(ticks, w)[..|ticks| - 1] == PressesOn(init, w);
      OpTickToggles(OpRun(s, init), ticks[|ticks| - 1], w);
    }
  }

  /**
    From the start of operator control, the clamp is engaged exactly after an
    even number of B presses, and each other switch is on exactly after an odd
    number of presses of its button.
   */
  lemma {:induction false} SwitchParityFromStart(ticks: seq<Buttons>, w: Switch)
    ensures Setting(OpRun(OP_INITIAL, ticks), w) == (w == Clamp <==> Presses(PressesOn(ticks, w)) % 2 == 0)
  {
    SwitchFollowsPresses(OP_INITIAL, ticks, w);
    ToggleParity(Setting(OP_INITIAL, w), PressesOn(ticks, w));
  }
}
