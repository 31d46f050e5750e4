/** The four-wheel chassis: each motion writes all eight motor pins, and the joystick cell selects
    a motion through overlapping regions in which the last one written wins. */
module Chassis {
  import opened CStrings
  import opened Gpio

  const A_IN1: Pin := 16
  const A_IN2: Pin := 17
  const B_IN1: Pin := 32
  const B_IN2: Pin := 33
  const C_IN1: Pin := 13
  const C_IN2: Pin := 15
  const D_IN1: Pin := 0
  const D_IN2: Pin := 2

  const CHASSIS_PINS: set<Pin> := {A_IN1, A_IN2, B_IN1, B_IN2, C_IN1, C_IN2, D_IN1, D_IN2}

  /** `motorflagState`. */
  const FLAG := false

  datatype Motion = Brake | Forward | Backward | Left | Right | TurnLeft | TurnRight
  datatype Wheel = A | B | C | D

  function In1(w: Wheel): Pin {
    match w case A => A_IN1 case B => B_IN1 case C => C_IN1 case D => D_IN1
  }

  function In2(w: Wheel): Pin {
    match w case A => A_IN2 case B => B_IN2 case C => C_IN2 case D => D_IN2
  }

  /** Which way each wheel turns in a motion: 1 for IN1 high alone, -1 for IN2 high alone, 0 for both. */
  function Spin(m: Motion, w: Wheel): (s: int)
    ensures -1 <= s <= 1
  {
    match m
    case Brake => 0
    case Forward => if w.A? || w.B? then -1 else 1
    case Backward => if w.A? || w.B? then 1 else -1
    case Left => if w.A? || w.D? then 1 else -1
    case Right => if w.A? || w.D? then -1 else 1
    case TurnLeft => if w.A? || w.C? then -1 else 1
    case TurnRight => if w.A? || w.C? then 1 else -1
  }

  /** The wheel a pin belongs to. */
  function WheelOf(p: Pin): Wheel {
    if p == A_IN1 || p == A_IN2 then A else if p == B_IN1 || p == B_IN2 then B
    else if p == C_IN1 || p == C_IN2 then C else D
  }

  /** The level of one pin in a motion. */
  function PinLevel(m: Motion, p: Pin): bool {
    var w := WheelOf(p);
    if p == In1(w) then Spin(m, w) >= 0 else Spin(m, w) <= 0
  }

  function LevelsOn(m: Motion, pins: set<Pin>): (l: Levels) {
    map p | p in pins :: PinLevel(m, p)
  }

  /** The eight levels that realise a motion. */
  function MotionPins(m: Motion): (l: Levels)
    ensures l.Keys == CHASSIS_PINS
  {
    LevelsOn(m, CHASSIS_PINS)
  }

  /** The signed drive of a wheel as its two pins give it. */
  function Drive(levels: Levels, w: Wheel): int {
    Level(levels, In1(w)) - Level(levels, In2(w))
  }

  lemma DriveOfMotion(levels: Levels, m: Motion, w: Wheel)
    ensures Drive(levels + MotionPins(m), w) == Spin(m, w)
  {
  }

  function Opposite(m: Motion): Motion {
    match m
    case Brake => Brake
    case Forward => Backward
    case Backward => Forward
    case Left => Right
    case Right => Left
    case TurnLeft => TurnRight
    case TurnRight => TurnLeft
  }

  /** Opposite motions turn every wheel the opposite way, and no two motions drive the wheels alike. */
  lemma OppositeSpins(m: Motion, n: Motion)
    ensures n == Opposite(m) <==> forall w :: Spin(n, w) == -Spin(m, w)
  {
    if forall w :: Spin(n, w) == -Spin(m, w) {
      assert Spin(n, A) == -Spin(m, A) && Spin(n, B) == -Spin(m, B) && Spin(n, C) == -Spin(m, C);
    }
  }

  // ----- The pin writes -----

  function PinsOf(w: Wheel): set<Pin> {
    {In1(w), In2(w)}
  }

  /** The two writes of one wheel, as its part of motion `m`. */
  method SetWheel(port: Port, ghost m: Motion, w: Wheel, in1: bool, in2: bool)
    requires in1 == (Spin(m, w) >= 0) && in2 == (Spin(m, w) <= 0)
    modifies port
    ensures port.levels == old(port.levels) + LevelsOn(m, PinsOf(w))
  {
    OwnPins(w);
    port.Set(In1(w), in1);
    port.Set(In2(w), in2);
  }

  lemma OwnPins(w: Wheel)
    ensures WheelOf(In1(w)) == w && WheelOf(In2(w)) == w && In1(w) != In2(w)
  {
  }

  lemma MergeLevels(l: Levels, m: Motion, p: set<Pin>, q: set<Pin>)
    ensures l + LevelsOn(m, p) + LevelsOn(m, q) == l + LevelsOn(m, p + q)
  {
  }

  /** Writing the four wheels in any order leaves the motion's eight levels. */
  lemma AnyOrder(l: Levels, m: Motion, w1: Wheel, w2: Wheel, w3: Wheel, w4: Wheel)
    requires w1 != w2 && w1 != w3 && w1 != w4 && w2 != w3 && w2 != w4 && w3 != w4
    ensures l + LevelsOn(m, PinsOf(w1)) + LevelsOn(m, PinsOf(w2)) + LevelsOn(m, PinsOf(w3)) + LevelsOn(m, PinsOf(w4))
            == l + MotionPins(m)
  {
    MergeLevels(l, m, PinsOf(w1), PinsOf(w2));
    MergeLevels(l, m, PinsOf(w1) + PinsOf(w2), PinsOf(w3));
    MergeLevels(l, m, PinsOf(w1) + PinsOf(w2) + PinsOf(w3), PinsOf(w4));
    AllPins(w1, w2, w3, w4);
  }

  lemma AllPins(w1: Wheel, w2: Wheel, w3: Wheel, w4: Wheel)
    requires w1 != w2 && w1 != w3 && w1 != w4 && w2 != w3 && w2 != w4 && w3 != w4
    ensures PinsOf(w1) + PinsOf(w2) + PinsOf(w3) + PinsOf(w4) == CHASSIS_PINS
  {
  }

  method Enable(port: Port)
    modifies port
    ensures port.levels == old(port.levels) + MotionPins(Brake)
  {
    AnyOrder(port.levels, Brake, A, B, C, D);
    SetWheel(port, Brake, A, !FLAG, !FLAG);
    SetWheel(port, Brake, B, !FLAG, !FLAG);
    SetWheel(port, Brake, C, !FLAG, !FLAG);
    SetWheel(port, Brake, D, !FLAG, !FLAG);
  }

  method GoForward(port: Port)
    modifies port
    ensures port.levels == old(port.levels) + MotionPins(Forward)
  {
    AnyOrder(port.levels, Forward, C, D, A, B);
    SetWheel(port, Forward, C, !FLAG, FLAG);
    SetWheel(port, Forward, D, !FLAG, FLAG);
    SetWheel(port, Forward, A, FLAG, !FLAG);
    SetWheel(port, Forward, B, FLAG, !FLAG);
  }

  method GoBackward(port: Port)
    modifies port
    ensures port.levels == old(port.levels) + MotionPins(Backward)
  {
    AnyOrder(port.levels, Backward, A, B, C, D);
    SetWheel(port, Backward, A, !FLAG, FLAG);
    SetWheel(port, Backward, B, !FLAG, FLAG);
    SetWheel(port, Backward, C, FLAG, !FLAG);
    SetWheel(port, Backward, D, FLAG, !FLAG);
  }

  method GoLeft(port: Port)
    modifies port
    ensures port.levels == old(port.levels) + MotionPins(Left)
  {
    AnyOrder(port.levels, Left, B, C, D, A);
    SetWheel(port, Left, B, FLAG, !FLAG);
    SetWheel(port, Left, C, FLAG, !FLAG);
    SetWheel(port, Left, D, !FLAG, FLAG);
    SetWheel(port, Left, A, !FLAG, FLAG);
  }

  method GoRight(port: Port)
    modifies port
    ensures port.levels == old(port.levels) + MotionPins(Right)
  {
    AnyOrder(port.levels, Right, A, D, B, C);
    SetWheel(port, Right, A, FLAG, !FLAG);
    SetWheel(port, Right, D, FLAG, !FLAG);
    SetWheel(port, Right, B, !FLAG, FLAG);
    SetWheel(port, Right, C, !FLAG, FLAG);
  }

  method RevolveLeft(port: Port)
    modifies port
    ensures port.levels == old(port.levels) + MotionPins(TurnLeft)
  {
    AnyOrder(port.levels, TurnLeft, A, B, C, D);
    SetWheel(port, TurnLeft, A, FLAG, !FLAG);
    SetWheel(port, TurnLeft, B, !FLAG, FLAG);
    SetWheel(port, TurnLeft, C, FLAG, !FLAG);
    SetWheel(port, TurnLeft, D, !FLAG, FLAG);
  }

  method RevolveRight(port: Port)
    modifies port
    ensures port.levels == old(port.levels) + MotionPins(TurnRight)
  {
    AnyOrder(port.levels, TurnRight, A, B, C, D);
    SetWheel(port, TurnRight, A, !FLAG, FLAG);
    SetWheel(port, TurnRight, B, FLAG, !FLAG);
    SetWheel(port, TurnRight, C, !FLAG, FLAG);
    SetWheel(port, TurnRight, D, FLAG, !FLAG);
  }

  // ----- The joystick regions -----

  predicate OnGrid(x: int, y: int) {
    0 <= x <= 10 && 0 <= y <= 10
  }

  /** The priority table: rest in the middle, then sideways, then forward and backward, then turning. */
  function Decide(x: int, y: int): (m: Option<Motion>) {
    if !OnGrid(x, y) then None
    else if x == 5 && y == 5 then Some(Brake)
    else if 4 <= y <= 6 && x != 5 then Some(if x < 5 then Left else Right)
    else if 4 <= x <= 6 then Some(if y < 5 then Forward else Backward)
    else Some(if x < 5 then TurnLeft else TurnRight)
  }

  ghost function Driven(levels: Levels, m: Option<Motion>): Levels {
    if m.None? then levels else levels + MotionPins(m.value)
  }

  lemma Overwrites(levels: Levels, before: Option<Motion>, m: Motion)
    ensures Driven(Driven(levels, before), Some(m)) == Driven(levels, Some(m))
  {
  }

  /** The seven tests in the order of the program; each region writes all eight pins, so later
      regions overwrite earlier ones. */
  method Rocker(port: Port, x: int, y: int)
    modifies port
    ensures port.levels == Driven(old(port.levels), Decide(x, y))
  {
    ghost var start, now: Option<Motion> := port.levels, None;
    if (x > 4 && x < 6) && (y > 4 && y < 6) {
      Overwrites(start, now, Brake);
      Enable(port);
      now := Some(Brake);
    }
    if (x >= 4 && x <= 6) && (y >= 0 && y <= 4) {
      Overwrites(start, now, Forward);
      GoForward(port);
      now := Some(Forward);
    }
    if (x >= 4 && x <= 6) && (y >= 6 && y <= 10) {
      Overwrites(start, now, Backward);
      GoBackward(port);
      now := Some(Backward);
    }
    if (x >= 0 && x <= 4) && (y >= 4 && y <= 6) {
      Overwrites(start, now, Left);
      GoLeft(port);
      now := Some(Left);
    }
    if (x >= 6 && x <= 10) && (y >= 4 && y <= 6) {
      Overwrites(start, now, Right);
      GoRight(port);
      now := Some(Right);
    }
    if ((x >= 0 && x <= 3) && (y >= 0 && y <= 3)) || ((x >= 0 && x <= 3) && (y >= 7 && y <= 10)) {
      Overwrites(start, now, TurnLeft);
      RevolveLeft(port);
      now := Some(TurnLeft);
    }
    if ((x >= 7 && x <= 10) && (y >= 0 && y <= 3)) || ((x >= 7 && x <= 10) && (y >= 7 && y <= 10)) {
      Overwrites(start, now, TurnRight);
      RevolveRight(port);
      now := Some(TurnRight);
    }
    assert now == Decide(x, y);
  }

  /** Every cell of the grid is decided and no other pair is; mirroring the stick left-right or
      up-down mirrors the motion, and only turning ignores the up-down mirror. */
  lemma DecisionSymmetry(x: int, y: int)
    ensures Decide(x, y).Some? <==> OnGrid(x, y)
    ensures OnGrid(x, y) ==> OnGrid(10 - x, y) && OnGrid(x, 10 - y)
    ensures OnGrid(x, y) ==> var m := Decide(x, y).value;
                             Decide(10 - x, y).value == (if m.Forward? || m.Backward? then m else Opposite(m))
    ensures OnGrid(x, y) ==> var m := Decide(x, y).value;
                             Decide(x, 10 - y).value == (if m.Forward? || m.Backward? then Opposite(m) else m)
  {
  }

  /** What an `else if` chain over the same regions would have chosen. */
  function FirstRegion(x: int, y: int): (m: Option<Motion>) {
    if 4 < x < 6 && 4 < y < 6 then Some(Brake)
    else if 4 <= x <= 6 && 0 <= y <= 4 then Some(Forward)
    else if 4 <= x <= 6 && 6 <= y <= 10 then Some(Backward)
    else if 0 <= x <= 4 && 4 <= y <= 6 then Some(Left)
    else if 6 <= x <= 10 && 4 <= y <= 6 then Some(Right)
    else if 0 <= x <= 3 && (0 <= y <= 3 || 7 <= y <= 10) then Some(TurnLeft)
    else if 7 <= x <= 10 && (0 <= y <= 3 || 7 <= y <= 10) then Some(TurnRight)
    else None
  }

  /** The order of the regions matters on exactly four cells. */
  lemma OverlapCells(x: int, y: int)
    ensures Decide(x, y) != FirstRegion(x, y) <==> (x == 4 || x == 6) && (y == 4 || y == 6)
  {
  }
}
