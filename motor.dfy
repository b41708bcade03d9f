/** The motor task (task_motor).
 *
 *  Each cycle in which a power value is pending, the task takes one
 *  direction code and one duty value from its two queues, drives two of the
 *  driver's four input pins LOW according to the code, remembers the other
 *  two as the PWM pins of motor A and motor B, and writes the duty value to
 *  both PWM pins.  The PWM pin selection persists across cycles, so a code
 *  outside 1..4 reuses the previous selection (pin 0 before any valid code).
 *
 *  Pin writes are not performed here: a step returns the writes it would
 *  make as a `Writes` record.
 */
module Motor {
  import opened Wrappers

  /** The driver input pins, and pin 0, the PWM selection the task starts with. */
  datatype Pin = Pin0 | In1 | In2 | In3 | In4

  const InPins: set<Pin> := {In1, In2, In3, In4}

  /** Direction codes sent by the controller. */
  const Forward: int := 1
  const Reverse: int := 2
  const TurnLeft: int := 3
  const TurnRight: int := 4

  /** The in-pins driven LOW and the PWM pin chosen for each motor. */
  datatype PinRoles = PinRoles(low: set<Pin>, pwmA: Pin, pwmB: Pin)

  /** The direction-code table; codes outside 1..4 have no entry. */
  function RolesFor(code: int): (r: Option<PinRoles>)
    ensures r.Some? <==> Forward <= code <= TurnRight
  {
    if code == Forward then Some(PinRoles({In1, In4}, In2, In3))
    else if code == Reverse then Some(PinRoles({In2, In3}, In1, In4))
    else if code == TurnLeft then Some(PinRoles({In1, In3}, In2, In4))
    else if code == TurnRight then Some(PinRoles({In2, In4}, In1, In3))
    else None
  }

  /** For every valid code the LOW pins and the PWM pins are disjoint and
   *  together are the four in-pins; motor A's PWM pin is in1 or in2 and motor
   *  B's is in3 or in4. */
  lemma RolesPartitionInPins(code: int)
    requires Forward <= code <= TurnRight
    ensures var r := RolesFor(code).value;
      r.pwmA in {In1, In2} && r.pwmB in {In3, In4} &&
      r.pwmA !in r.low && r.pwmB !in r.low && |r.low| == 2 &&
      r.low + {r.pwmA, r.pwmB} == InPins
  {
  }

  /** Forward and Reverse swap the LOW and PWM roles of every in-pin. */
  lemma ForwardReverseMirror()
    ensures var f, b := RolesFor(Forward).value, RolesFor(Reverse).value;
      f.low == {b.pwmA, b.pwmB} && b.low == {f.pwmA, f.pwmB}
  {
  }

  /** Relative to Forward, Reverse moves the PWM pin of both motors to the
   *  motor's other input, which reverses both; each turn moves it for exactly
   *  one motor (Left reverses B, Right reverses A).  Which sense counts as
   *  "forward" is a wiring convention; the lemma only relates the codes. */
  lemma CodesDriveMotors()
    ensures var f, b := RolesFor(Forward).value, RolesFor(Reverse).value;
      b.pwmA != f.pwmA && b.pwmB != f.pwmB
    ensures var f, l := RolesFor(Forward).value, RolesFor(TurnLeft).value;
      l.pwmA == f.pwmA && l.pwmB != f.pwmB
    ensures var f, r := RolesFor(Forward).value, RolesFor(TurnRight).value;
      r.pwmA != f.pwmA && r.pwmB == f.pwmB
  {
  }

  /** One analogWrite. */
  datatype PwmWrite = PwmWrite(pin: Pin, duty: int)

  /** The pin writes of one consumed command: the pins driven LOW, then the
   *  two analogWrite calls in order. */
  datatype Writes = Writes(low: set<Pin>, pwm: seq<PwmWrite>)

  /** The task's persistent locals and its two queues. */
  datatype MotorState = MotorState(
    pwmA: Pin,
    pwmB: Pin,
    motorDirection: seq<int>,
    motorPower: seq<int>)

  /** One iteration of the forever loop.  With no power value pending nothing
   *  happens; with a power value but no direction the `get` on the direction
   *  queue waits, which is the same as trying again next cycle because this
   *  task is the queues' only consumer. */
  function Next(m: MotorState): (r: (MotorState, Option<Writes>))
    ensures |m.motorPower| == 0 || |m.motorDirection| == 0 ==> r == (m, None)
    ensures |m.motorPower| > 0 && |m.motorDirection| > 0 ==>
      r.0.motorDirection == m.motorDirection[1..] &&
      r.0.motorPower == m.motorPower[1..] &&
      r.1.Some? &&
      r.1.value.pwm == [PwmWrite(r.0.pwmA, m.motorPower[0]), PwmWrite(r.0.pwmB, m.motorPower[0])]
  {
    if |m.motorPower| == 0 || |m.motorDirection| == 0 then
      (m, None)
    else
      var code, duty := m.motorDirection[0], m.motorPower[0];
      var roles := RolesFor(code);
      var a := if roles.Some? then roles.value.pwmA else m.pwmA;
      var b := if roles.Some? then roles.value.pwmB else m.pwmB;
      var low := if roles.Some? then roles.value.low else {};
      (MotorState(a, b, m.motorDirection[1..], m.motorPower[1..]),
       Some(Writes(low, [PwmWrite(a, duty), PwmWrite(b, duty)])))
  }

  /** A valid code drives exactly its table entry. */
  lemma ValidCodeFollowsTable(m: MotorState)
    requires |m.motorPower| > 0 && |m.motorDirection| > 0
    requires Forward <= m.motorDirection[0] <= TurnRight
    ensures var r, roles := Next(m), RolesFor(m.motorDirection[0]).value;
      r.0.pwmA == roles.pwmA && r.0.pwmB == roles.pwmB && r.1.value.low == roles.low
  {
  }

  /** A code outside 1..4 drives no pin LOW and writes the duty to the PWM
   *  pins selected before. */
  lemma InvalidCodeKeepsSelection(m: MotorState)
    requires |m.motorPower| > 0 && |m.motorDirection| > 0
    requires !(Forward <= m.motorDirection[0] <= TurnRight)
    ensures var r := Next(m);
      r.0.pwmA == m.pwmA && r.0.pwmB == m.pwmB && r.1.value.low == {} &&
      r.1.value.pwm == [PwmWrite(m.pwmA, m.motorPower[0]), PwmWrite(m.pwmB, m.motorPower[0])]
  {
  }

  /** The PWM selection after a run of commands: that of the last valid
   *  code, or pin 0 for both motors if there was none. */
  function Selection(codes: seq<int>): (Pin, Pin)
    decreases |codes|
  {
    if |codes| == 0 then (Pin0, Pin0)
    else
      var roles := RolesFor(codes[|codes| - 1]);
      if roles.Some? then (roles.value.pwmA, roles.value.pwmB)
      else Selection(codes[..|codes| - 1])
  }

  /** `n` iterations of the loop. */
  function Iterate(m: MotorState, n: nat): MotorState
    decreases n
  {
    if n == 0 then m else Next(Iterate(m, n - 1)).0
  }

  /** Starting from the task's initial selection with `n` commands queued,
   *  `n` cycles consume exactly those commands and leave the selection of
   *  the last valid code among them. */
  lemma {:induction false} SelectionIsLastValidCode(dirs: seq<int>, powers: seq<int>, n: nat)
    requires n <= |dirs| && n <= |powers|
    ensures var m := Iterate(MotorState(Pin0, Pin0, dirs, powers), n);
      (m.pwmA, m.pwmB) == Selection(dirs[..n]) &&
      m.motorDirection == dirs[n..] && m.motorPower == powers[n..]
  {
    if n > 0 {
      SelectionIsLastValidCode(dirs, powers, n - 1);
      assert dirs[..n][..n - 1] == dirs[..n - 1];
      assert dirs[n - 1..][1..] == dirs[n..];
      assert powers[n - 1..][1..] == powers[n..];
    }
  }

  class MotorTask {
    var motorApwm: Pin
    var motorBpwm: Pin
    /** The shared queues the task consumes. */
    var motorDirection: seq<int>
    var motorPower: seq<int>

    ghost function Model(): MotorState
      reads this
    {
      MotorState(motorApwm, motorBpwm, motorDirection, motorPower)
    }

    constructor ()
      ensures Model() == MotorState(Pin0, Pin0, [], [])
    {
      motorApwm, motorBpwm := Pin0, Pin0;
      motorDirection, motorPower := [], [];
    }

    /** One iteration of the forever loop; `w` is the pin writes it makes. */
    method Step() returns (w: Option<Writes>)
      modifies this
      ensures (Model(), w) == Next(old(Model()))
    {
      w := None;
      if |motorPower| > 0 {
        if |motorDirection| > 0 {
          var code := motorDirection[0];
          motorDirection := motorDirection[1..];
          var duty := motorPower[0];
          motorPower := motorPower[1..];
          var low: set<Pin> := {};
          if code == Forward {
            low := {In1, In4};
            motorApwm, motorBpwm := In2, In3;
          } else if code == Reverse {
            low := {In2, In3};
            motorApwm, motorBpwm := In1, In4;
          } else if code == TurnLeft {
            low := {In1, In3};
            motorApwm, motorBpwm := In2, In4;
          } else if code == TurnRight {
            low := {In2, In4};
            motorApwm, motorBpwm := In1, In3;
          }
          w := Some(Writes(low, [PwmWrite(motorApwm, duty), PwmWrite(motorBpwm, duty)]));
        }
      }
    }
  }
}
