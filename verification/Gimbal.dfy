/** One gimbal axis: saturating steps of ten degrees and the angle-to-pulse conversion of the servo. */
module Gimbal {

  const MAX_DEGREE := 270
  const MID_DEGREE := 135
  const MIN_PULSE := 500
  const MAX_PULSE := 2500

  function Clamp(x: int, lo: int, hi: int): (r: int)
    requires lo <= hi
    ensures lo <= r <= hi
    ensures lo <= x <= hi ==> r == x
  {
    if x <= lo then lo else if x >= hi then hi else x
  }

  /** One command on an axis: add `d`, then the two range checks. */
  function Turn(angle: int, d: int): (r: int) {
    Clamp(angle + d, 0, MAX_DEGREE)
  }

  function TurnAll(angle: int, ds: seq<int>): (r: int)
    ensures 0 <= angle <= MAX_DEGREE ==> 0 <= r <= MAX_DEGREE
    ensures ds != [] ==> 0 <= r <= MAX_DEGREE
    decreases |ds|
  {
    if ds == [] then angle else TurnAll(Turn(angle, ds[0]), ds[1..])
  }

  // ----- A whole run is one clamped shift -----

  /** The map x -> clamp(x + shift, lo, hi). */
  datatype Window = Window(shift: int, lo: int, hi: int)

  ghost predicate Proper(w: Window) {
    0 <= w.lo <= w.hi <= MAX_DEGREE
  }

  function Through(w: Window, x: int): int
    requires w.lo <= w.hi
  {
    Clamp(x + w.shift, w.lo, w.hi)
  }

  function Narrow(w: Window, d: int): (r: Window)
    ensures Proper(w) ==> Proper(r)
  {
    Window(w.shift + d, Turn(w.lo, d), Turn(w.hi, d))
  }

  function Collapse(ds: seq<int>): (w: Window)
    ensures Proper(w)
    decreases |ds|
  {
    if ds == [] then Window(0, 0, MAX_DEGREE) else Narrow(Collapse(ds[..|ds| - 1]), ds[|ds| - 1])
  }

  function Sum(ds: seq<int>): int {
    if ds == [] then 0 else Sum(ds[..|ds| - 1]) + ds[|ds| - 1]
  }

  lemma {:induction false} TurnAllLast(angle: int, ds: seq<int>, d: int)
    ensures TurnAll(angle, ds + [d]) == Turn(TurnAll(angle, ds), d)
    decreases |ds|
  {
    if ds == [] {
      assert [d][1..] == [];
      assert ds + [d] == [d];
    } else {
      assert (ds + [d])[1..] == ds[1..] + [d];
      TurnAllLast(Turn(angle, ds[0]), ds[1..], d);
    }
  }

  /** Every finite run of steps, of any sizes, is one shift by their sum followed by one clamp, whose
      window is where the run takes the two limits. */
  lemma {:induction false} RunCollapses(angle: int, ds: seq<int>)
    requires 0 <= angle <= MAX_DEGREE
    ensures TurnAll(angle, ds) == Through(Collapse(ds), angle)
    ensures Collapse(ds) == Window(Sum(ds), TurnAll(0, ds), TurnAll(MAX_DEGREE, ds))
  {
    if ds != [] {
      var init, d := ds[..|ds| - 1], ds[|ds| - 1];
      RunCollapses(angle, init);
      TurnAllLast(angle, init, d);
      TurnAllLast(0, init, d);
      TurnAllLast(MAX_DEGREE, init, d);
      assert init + [d] == ds;
    }
  }

  /** Runs keep the order of two start angles and never drive them further apart. */
  lemma RunMonotone(a: int, b: int, ds: seq<int>)
    requires 0 <= a <= b <= MAX_DEGREE
    ensures 0 <= TurnAll(b, ds) - TurnAll(a, ds) <= b - a
  {
    RunCollapses(a, ds);
    RunCollapses(b, ds);
  }

  function Repeat(d: int, n: nat): (ds: seq<int>)
    ensures |ds| == n
  {
    seq(n, i => d)
  }

  lemma {:induction false} RepeatedTurns(angle: int, d: int, n: nat)
    requires 0 <= angle <= MAX_DEGREE && (d == 10 || d == -10)
    ensures TurnAll(angle, Repeat(d, n)) == Clamp(angle + d * n, 0, MAX_DEGREE)
  {
    if n > 0 {
      RepeatedTurns(angle, d, n - 1);
      TurnAllLast(angle, Repeat(d, n - 1), d);
      assert Repeat(d, n - 1) + [d] == Repeat(d, n);
    }
  }

  /** 27 steps one way reach that limit from every angle, and 26 do not suffice from the other end. */
  lemma TwentySevenSteps(angle: int)
    requires 0 <= angle <= MAX_DEGREE
    ensures TurnAll(angle, Repeat(10, 27)) == MAX_DEGREE && TurnAll(angle, Repeat(-10, 27)) == 0
    ensures TurnAll(0, Repeat(10, 26)) < MAX_DEGREE && TurnAll(MAX_DEGREE, Repeat(-10, 26)) > 0
  {
    RepeatedTurns(angle, 10, 27);
    RepeatedTurns(angle, -10, 27);
    RepeatedTurns(0, 10, 26);
    RepeatedTurns(MAX_DEGREE, -10, 26);
  }

  // ----- Reachable angles -----

  ghost predicate TenDegreeSteps(ds: seq<int>) {
    forall i :: 0 <= i < |ds| ==> ds[i] == 10 || ds[i] == -10
  }

  /** Some step of the run ran into a limit. */
  ghost predicate Saturated(angle: int, ds: seq<int>)
    decreases |ds|
  {
    ds != [] && (!(0 < angle + ds[0] < MAX_DEGREE) || Saturated(Turn(angle, ds[0]), ds[1..]))
  }

  lemma {:induction false} OnGridStays(angle: int, ds: seq<int>)
    requires 0 <= angle <= MAX_DEGREE && angle % 10 == 0 && TenDegreeSteps(ds)
    ensures TurnAll(angle, ds) % 10 == 0
    decreases |ds|
  {
    if ds != [] {
      OnGridStays(Turn(angle, ds[0]), ds[1..]);
    }
  }

  /** From any angle off the ten-degree grid, the angle is on the grid exactly from the first
      saturation on; before it, it is the start plus the sum of the steps. */
  lemma {:induction false} ReachableAngles(angle: int, ds: seq<int>)
    requires 0 <= angle <= MAX_DEGREE && angle % 10 == 5 && TenDegreeSteps(ds)
    ensures 0 <= TurnAll(angle, ds) <= MAX_DEGREE
    ensures TurnAll(angle, ds) % 10 == if Saturated(angle, ds) then 0 else 5
    ensures !Saturated(angle, ds) ==> TurnAll(angle, ds) == angle + Sum(ds)
    decreases |ds|
  {
    if ds != [] {
      var next := Turn(angle, ds[0]);
      SumFirst(ds);
      if 0 < angle + ds[0] < MAX_DEGREE {
        ReachableAngles(next, ds[1..]);
      } else {
        OnGridStays(next, ds[1..]);
      }
    }
  }

  lemma {:induction false} SumFirst(ds: seq<int>)
    requires ds != []
    ensures Sum(ds) == ds[0] + Sum(ds[1..])
    decreases |ds|
  {
    if |ds| > 1 {
      var init := ds[..|ds| - 1];
      SumFirst(init);
      assert init[1..] == ds[1..][..|ds| - 2];
    }
  }

  // ----- The servo -----

  const UINT32 := 0x1_0000_0000

  /** `servo_per_degree_init` in unsigned 32-bit arithmetic. */
  function Pulse(degree: int): (p: int)
    requires 0 <= degree < UINT32
  {
    (MIN_PULSE + ((MAX_PULSE - MIN_PULSE) * degree % UINT32) / MAX_DEGREE) % UINT32
  }

  /** An `int` passed as `uint32_t`. */
  function AsUint32(x: int): (u: int)
    ensures 0 <= u < UINT32
  {
    x % UINT32
  }

  /** The clamp inside `servo_set_angle_To`. */
  function SetAngle(angle: int): (degree: int)
    requires 0 <= angle < UINT32
    ensures 0 <= degree <= MAX_DEGREE
  {
    if angle >= MAX_DEGREE then MAX_DEGREE else angle
  }

  /** The pulse that `servo_set_angle_To` writes for an `int` angle. */
  function Written(angle: int): (p: int) {
    Pulse(SetAngle(AsUint32(angle)))
  }

  /** On 0..270 the conversions change nothing and nothing wraps. */
  lemma NoWrap(angle: int)
    requires 0 <= angle <= MAX_DEGREE
    ensures SetAngle(AsUint32(angle)) == angle
    ensures Written(angle) == 500 + 2000 * angle / 270
    ensures MIN_PULSE <= Written(angle) <= MAX_PULSE
  {
    FitsUint32(angle);
    FitsUint32(2000 * angle);
    QuotientRange(2000 * angle);
    FitsUint32(500 + 2000 * angle / 270);
  }

  lemma FitsUint32(x: int)
    requires 0 <= x < UINT32
    ensures x % UINT32 == x
  {
  }

  lemma QuotientRange(x: int)
    requires 0 <= x <= 540000
    ensures 0 <= x / 270 <= 2000
  {
  }

  /** A negative angle would arrive as a huge one and drive the servo to the far end. */
  lemma NegativeGoesToMax(angle: int)
    requires -0x8000_0000 <= angle < 0
    ensures Written(angle) == MAX_PULSE
  {
    assert AsUint32(angle) == angle + UINT32;
  }

  lemma PulseIncreases(a: int, b: int)
    requires 0 <= a < b <= MAX_DEGREE
    ensures Written(a) < Written(b)
  {
    NoWrap(a);
    NoWrap(b);
    assert 2000 * b >= 2000 * a + 2000;
  }

  function CeilDiv(x: int, d: int): int
    requires d > 0
  {
    (x + d - 1) / d
  }

  /** The angle is recovered from its pulse. */
  lemma PulseInverse(angle: int)
    requires 0 <= angle <= MAX_DEGREE
    ensures CeilDiv(27 * (Written(angle) - 500), 200) == angle
  {
    NoWrap(angle);
    var q := 2000 * angle / 270;
    assert 270 * q <= 2000 * angle < 270 * q + 270;
    assert 200 * angle - 27 < 27 * q <= 200 * angle;
  }

  /** An unsaturated step moves the pulse by 74 or 75 microseconds. */
  lemma PulseStep(angle: int)
    requires 0 <= angle && angle + 10 <= MAX_DEGREE
    ensures Written(angle + 10) - Written(angle) == 74 || Written(angle + 10) - Written(angle) == 75
  {
    NoWrap(angle);
    NoWrap(angle + 10);
    assert 2000 * (angle + 10) == 2000 * angle + 20000;
  }
}
