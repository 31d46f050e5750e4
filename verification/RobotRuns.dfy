/** What holds over whole runs of the command consumer. */
module RobotRuns {
  import opened CStrings
  import opened Gpio
  import opened Robot
  import opened UrlData
  import Gimbal
  import Chassis
  import Fire

  // ----- The order of the branches does not matter -----

  ghost predicate DistinctKeys(routes: seq<(string, Route)>) {
    forall i, j :: 0 <= i < j < |routes| ==> routes[i].0 != routes[j].0
  }

  lemma {:induction false} LookupIff(routes: seq<(string, Route)>, key: string, r: Route)
    requires DistinctKeys(routes)
    ensures Lookup(routes, key) == Some(r) <==> (key, r) in routes
    decreases |routes|
  {
    if routes != [] {
      var rest := routes[1..];
      LookupIff(rest, key, r);
      assert routes == [routes[0]] + rest;
      forall k | 0 <= k < |rest| ensures rest[k].0 != routes[0].0 {
        assert rest[k] == routes[k + 1];
      }
    }
  }

  /** The same branches in any other order pick the same route for every key. */
  lemma OrderIrrelevant(routes: seq<(string, Route)>, key: string)
    requires multiset(routes) == multiset(ROUTES)
    ensures Lookup(routes, key) == Lookup(ROUTES, key)
  {
    RoutesDistinct();
    ReorderedDistinct(routes);
    forall r ensures Lookup(routes, key) == Some(r) <==> Lookup(ROUTES, key) == Some(r) {
      LookupIff(routes, key, r);
      LookupIff(ROUTES, key, r);
      assert (key, r) in routes <==> (key, r) in multiset(routes);
      assert (key, r) in ROUTES <==> (key, r) in multiset(ROUTES);
    }
    if Lookup(routes, key).Some? {
      assert Lookup(routes, key) == Some(Lookup(routes, key).value);
    }
    if Lookup(ROUTES, key).Some? {
      assert Lookup(ROUTES, key) == Some(Lookup(ROUTES, key).value);
    }
  }

  lemma RoutesDistinct()
    ensures DistinctKeys(ROUTES)
  {
    var k := ROUTES;
    assert k[0].0[1] == 'g' && k[1].0[1] == 'b' && k[2].0[1] == 'f' && k[3].0[1] == 'P' && k[4].0[1] == 'l';
    assert k[5].0[1] == 'r' && k[6].0[1] == 'r' && k[5].0[3] == 'b' && k[6].0[3] == 'c';
  }

  lemma ReorderedDistinct(routes: seq<(string, Route)>)
    requires multiset(routes) == multiset(ROUTES)
    ensures DistinctKeys(routes)
  {
    RoutesDistinct();
    forall i, j | 0 <= i < j < |routes| ensures routes[i].0 != routes[j].0 {
      var x, y := routes[i], routes[j];
      assert x in multiset(ROUTES) && y in multiset(ROUTES);
      if x == y {
        TwiceInMultiset(routes, i, j);
        OnceInMultiset(ROUTES, x);
      } else {
        DifferentKeys(ROUTES, x, y);
      }
    }
  }

  lemma DifferentKeys(s: seq<(string, Route)>, x: (string, Route), y: (string, Route))
    requires DistinctKeys(s) && x in s && y in s && x != y
    ensures x.0 != y.0
  {
    var p :| 0 <= p < |s| && s[p] == x;
    var q :| 0 <= q < |s| && s[q] == y;
    assert p < q || q < p;
  }

  lemma TwiceInMultiset(s: seq<(string, Route)>, i: nat, j: nat)
    requires i < j < |s| && s[i] == s[j]
    ensures multiset(s)[s[i]] >= 2
  {
    assert s == s[..j] + s[j..];
    assert s[..j][i] == s[i] && s[j..][0] == s[i];
    assert s[i] in multiset(s[..j]) && s[i] in multiset(s[j..]);
  }

  lemma {:induction false} OnceInMultiset(s: seq<(string, Route)>, x: (string, Route))
    requires DistinctKeys(s)
    ensures multiset(s)[x] <= 1
    decreases |s|
  {
    if s != [] {
      var rest := s[1..];
      OnceInMultiset(rest, x);
      assert s == [s[0]] + rest;
      forall k | 0 <= k < |rest| ensures rest[k] != s[0] {
        assert rest[k] == s[k + 1];
      }
    }
  }

  // ----- Subsystems do not interfere -----

  datatype Subsystem = YawAxis | PitchAxis | Wheels | FrictionWheels | Feeder

  datatype Part = Servo(angle: int, pulse: int) | Pins(levels: Levels)

  function Only(levels: Levels, pins: set<Pin>): Levels {
    map p | p in pins && p in levels :: levels[p]
  }

  function View(s: State, u: Subsystem): Part {
    match u
    case YawAxis => Servo(s.yaw, s.yawPulse)
    case PitchAxis => Servo(s.pitch, s.pitchPulse)
    case Wheels => Pins(Only(s.levels, Chassis.CHASSIS_PINS))
    case FrictionWheels => Pins(Only(s.levels, Fire.FRICTION_PINS))
    case Feeder => Pins(Only(s.levels, Fire.FEED_PINS))
  }

  predicate Addresses(c: Command, u: Subsystem) {
    match c
    case Pitch(_) => u == PitchAxis
    case Yaw(_) => u == YawAxis
    case Friction(_) => u == FrictionWheels
    case Feed(_) => u == Feeder
    case Drive(_) => u == Wheels
    case Nothing => false
  }

  function Own(cs: seq<Command>, u: Subsystem): (r: seq<Command>) {
    if cs == [] then []
    else if Addresses(cs[0], u) then [cs[0]] + Own(cs[1..], u)
    else Own(cs[1..], u)
  }

  lemma OnlyMerge(l: Levels, m: Levels, pins: set<Pin>)
    ensures m.Keys !! pins ==> Only(l + m, pins) == Only(l, pins)
    ensures m.Keys == pins ==> Only(l + m, pins) == m
  {
  }

  lemma Separate()
    ensures Chassis.CHASSIS_PINS !! Fire.FRICTION_PINS !! Fire.FEED_PINS
  {
  }

  /** A command leaves every other subsystem as it was. */
  lemma OthersUntouched(s: State, c: Command, u: Subsystem)
    requires !Addresses(c, u)
    ensures View(Apply(s, c), u) == View(s, u)
  {
    Separate();
    match c
    case Friction(on) => OnlyPins(s.levels, Fire.FrictionPins(on));
    case Feed(on) => OnlyPins(s.levels, Fire.FeedPins(on));
    case Drive(m) => OnlyPins(s.levels, Chassis.MotionPins(m));
    case _ =>
  }

  lemma OnlyPins(l: Levels, m: Levels)
    ensures m.Keys !! Chassis.CHASSIS_PINS ==> Only(l + m, Chassis.CHASSIS_PINS) == Only(l, Chassis.CHASSIS_PINS)
    ensures m.Keys !! Fire.FRICTION_PINS ==> Only(l + m, Fire.FRICTION_PINS) == Only(l, Fire.FRICTION_PINS)
    ensures m.Keys !! Fire.FEED_PINS ==> Only(l + m, Fire.FEED_PINS) == Only(l, Fire.FEED_PINS)
  {
    OnlyMerge(l, m, Chassis.CHASSIS_PINS);
    OnlyMerge(l, m, Fire.FRICTION_PINS);
    OnlyMerge(l, m, Fire.FEED_PINS);
  }

  /** What a command does to its subsystem depends on that subsystem alone. */
  lemma OwnEffect(s: State, t: State, c: Command, u: Subsystem)
    requires Addresses(c, u) && View(s, u) == View(t, u)
    ensures View(Apply(s, c), u) == View(Apply(t, c), u)
  {
    match c
    case Friction(on) =>
      OnlyMerge(s.levels, Fire.FrictionPins(on), Fire.FRICTION_PINS);
      OnlyMerge(t.levels, Fire.FrictionPins(on), Fire.FRICTION_PINS);
    case Feed(on) =>
      OnlyMerge(s.levels, Fire.FeedPins(on), Fire.FEED_PINS);
      OnlyMerge(t.levels, Fire.FeedPins(on), Fire.FEED_PINS);
    case Drive(m) =>
      OnlyMerge(s.levels, Chassis.MotionPins(m), Chassis.CHASSIS_PINS);
      OnlyMerge(t.levels, Chassis.MotionPins(m), Chassis.CHASSIS_PINS);
    case _ =>
  }

  /** Two runs end alike for a subsystem that started alike and got the same commands of its own. */
  lemma {:induction false} SameOwnSameEnd(s: State, t: State, cs: seq<Command>, ds: seq<Command>, u: Subsystem)
    requires View(s, u) == View(t, u) && Own(cs, u) == Own(ds, u)
    ensures View(Run(s, cs), u) == View(Run(t, ds), u)
    decreases |cs| + |ds|
  {
    if cs != [] && !Addresses(cs[0], u) {
      OthersUntouched(s, cs[0], u);
      SameOwnSameEnd(Apply(s, cs[0]), t, cs[1..], ds, u);
    } else if ds != [] && !Addresses(ds[0], u) {
      OthersUntouched(t, ds[0], u);
      SameOwnSameEnd(s, Apply(t, ds[0]), cs, ds[1..], u);
    } else if cs != [] && ds != [] {
      assert Own(cs, u)[0] == cs[0] && Own(ds, u)[0] == ds[0];
      assert Own(cs, u)[1..] == Own(cs[1..], u) && Own(ds, u)[1..] == Own(ds[1..], u);
      OwnEffect(s, t, cs[0], u);
      SameOwnSameEnd(Apply(s, cs[0]), Apply(t, ds[0]), cs[1..], ds[1..], u);
    }
  }

  lemma {:induction false} OwnOwn(cs: seq<Command>, u: Subsystem)
    ensures Own(Own(cs, u), u) == Own(cs, u)
  {
    if cs != [] {
      OwnOwn(cs[1..], u);
      if Addresses(cs[0], u) {
        assert Own(cs, u)[1..] == Own(cs[1..], u);
      }
    }
  }

  /** Every subsystem ends where its own commands alone would have taken it. */
  lemma Projection(s: State, cs: seq<Command>, u: Subsystem)
    ensures View(Run(s, cs), u) == View(Run(s, Own(cs, u)), u)
  {
    OwnOwn(cs, u);
    SameOwnSameEnd(s, s, cs, Own(cs, u), u);
  }

  // ----- The gimbal over whole runs -----

  function YawSteps(cs: seq<Command>): (ds: seq<int>) {
    if cs == [] then []
    else if cs[0].Yaw? then [cs[0].d] + YawSteps(cs[1..])
    else YawSteps(cs[1..])
  }

  function PitchSteps(cs: seq<Command>): (ds: seq<int>) {
    if cs == [] then []
    else if cs[0].Pitch? then [cs[0].d] + PitchSteps(cs[1..])
    else PitchSteps(cs[1..])
  }

  /** A tracked angle in range whose pulse, if it was ever commanded, is the conversion of the angle. */
  ghost predicate Tracks(angle: int, pulse: int, commanded: bool) {
    0 <= angle <= Gimbal.MAX_DEGREE && (commanded ==> pulse == Gimbal.Written(angle))
  }

  /** Over every run, both angles are the runs of their own steps, and from the first command on
      each axis its last written pulse is the conversion of its tracked angle. */
  lemma {:induction false} AnglesAndPulses(s: State, cs: seq<Command>, yawed: bool, pitched: bool)
    requires Tracks(s.yaw, s.yawPulse, yawed) && Tracks(s.pitch, s.pitchPulse, pitched)
    ensures var t := Run(s, cs);
            t.yaw == Gimbal.TurnAll(s.yaw, YawSteps(cs)) && t.pitch == Gimbal.TurnAll(s.pitch, PitchSteps(cs)) &&
            Tracks(t.yaw, t.yawPulse, yawed || YawSteps(cs) != []) &&
            Tracks(t.pitch, t.pitchPulse, pitched || PitchSteps(cs) != [])
    decreases |cs|
  {
    if cs != [] {
      var c := cs[0];
      AnglesAndPulses(Apply(s, c), cs[1..], yawed || c.Yaw?, pitched || c.Pitch?);
      if c.Yaw? {
        assert YawSteps(cs)[1..] == YawSteps(cs[1..]);
      }
      if c.Pitch? {
        assert PitchSteps(cs)[1..] == PitchSteps(cs[1..]);
      }
    }
  }

  ghost predicate TenDegrees(c: Command) {
    (c.Yaw? || c.Pitch?) ==> c.d == 10 || c.d == -10
  }

  lemma {:induction false} StepsAreTens(cs: seq<Command>)
    requires forall i :: 0 <= i < |cs| ==> TenDegrees(cs[i])
    ensures Gimbal.TenDegreeSteps(YawSteps(cs)) && Gimbal.TenDegreeSteps(PitchSteps(cs))
    decreases |cs|
  {
    if cs != [] {
      StepsAreTens(cs[1..]);
      assert TenDegrees(cs[0]);
    }
  }

  /** An angle that started at 135 and took the steps `ds`: in 0..270, 5 modulo 10 exactly until the
      axis first saturates, 135 plus the steps until then; once commanded, the pulse is
      500 + 2000 * angle / 270, which lies in 500..2500. */
  ghost predicate Reached(angle: int, pulse: int, ds: seq<int>) {
    && 0 <= angle <= 270
    && angle % 10 == (if Gimbal.Saturated(135, ds) then 0 else 5)
    && (!Gimbal.Saturated(135, ds) ==> angle == 135 + Gimbal.Sum(ds))
    && (ds != [] ==> pulse == 500 + 2000 * angle / 270 && 500 <= pulse <= 2500)
  }

  lemma AxisReached(angle: int, pulse: int, ds: seq<int>)
    requires Gimbal.TenDegreeSteps(ds) && angle == Gimbal.TurnAll(135, ds) && Tracks(angle, pulse, ds != [])
    ensures Reached(angle, pulse, ds)
  {
    Gimbal.ReachableAngles(135, ds);
    Gimbal.NoWrap(angle);
  }

  lemma RecordsTurnByTen(url: UrlString)
    ensures TenDegrees(Classify(url))
  {
  }

  /** Over every run of posted records from power-up, both axes are where `Reached` says. */
  lemma ReachableFromBoot(urls: seq<UrlString>)
    ensures var t, cs := Run(BOOT, ClassifyAll(urls)), ClassifyAll(urls);
            Reached(t.yaw, t.yawPulse, YawSteps(cs)) && Reached(t.pitch, t.pitchPulse, PitchSteps(cs))
  {
    var cs := ClassifyAll(urls);
    forall i | 0 <= i < |cs| ensures TenDegrees(cs[i]) {
      RecordsTurnByTen(urls[i]);
    }
    StepsAreTens(cs);
    AnglesAndPulses(BOOT, cs, false, false);
    var t := Run(BOOT, cs);
    AxisReached(t.yaw, t.yawPulse, YawSteps(cs));
    AxisReached(t.pitch, t.pitchPulse, PitchSteps(cs));
  }

  // ----- Wheel totals -----

  datatype Timed = Timed(c: Command, time: real)
  datatype Totals = Totals(a: real, b: real, c: real, d: real)
  datatype Travel = Travel(forward: real, left: real, turn: real)

  function Scaled(sign: int, time: real): real {
    if sign > 0 then time else if sign < 0 then -time else 0.0
  }

  function AddWheels(t: Totals, levels: Levels, time: real): Totals {
    Totals(t.a + Scaled(Chassis.Drive(levels, Chassis.A), time), t.b + Scaled(Chassis.Drive(levels, Chassis.B), time),
           t.c + Scaled(Chassis.Drive(levels, Chassis.C), time), t.d + Scaled(Chassis.Drive(levels, Chassis.D), time))
  }

  /** Each wheel's signed drive, read off its pins, integrated over a run in which every command
      stays in force for its time. */
  function WheelTotals(s: State, run: seq<Timed>): (t: Totals)
    decreases |run|
  {
    if run == [] then Totals(0.0, 0.0, 0.0, 0.0) else
    var next := Apply(s, run[0].c);
    AddWheels(WheelTotals(next, run[1..]), next.levels, run[0].time)
  }

  function AddTime(n: Travel, m: Chassis.Motion, time: real): Travel {
    match m
    case Brake => n
    case Forward => n.(forward := n.forward + time)
    case Backward => n.(forward := n.forward - time)
    case Left => n.(left := n.left + time)
    case Right => n.(left := n.left - time)
    case TurnLeft => n.(turn := n.turn + time)
    case TurnRight => n.(turn := n.turn - time)
  }

  /** The motion in force after a command. */
  function Current(m: Chassis.Motion, c: Command): Chassis.Motion {
    if c.Drive? then c.m else m
  }

  /** Net times of travel, from the names of the motions alone. */
  function NetTravel(m: Chassis.Motion, run: seq<Timed>): (t: Travel)
    decreases |run|
  {
    if run == [] then Travel(0.0, 0.0, 0.0) else
    var now := Current(m, run[0].c);
    AddTime(NetTravel(now, run[1..]), now, run[0].time)
  }

  /** The totals cancel out, and the net times are recovered from them. */
  ghost predicate Balanced(t: Totals, n: Travel) {
    && t.a + t.b + t.c + t.d == 0.0
    && n.forward == (-t.a - t.b + t.c + t.d) / 4.0
    && n.left == (t.a - t.b - t.c + t.d) / 4.0
    && n.turn == (-t.a + t.b - t.c + t.d) / 4.0
  }

  /** The pins drive the wheels as motion `m` does. */
  ghost predicate Moving(s: State, m: Chassis.Motion) {
    forall w :: Chassis.Drive(s.levels, w) == Chassis.Spin(m, w)
  }

  lemma StillMoving(s: State, m: Chassis.Motion, c: Command)
    requires Moving(s, m)
    ensures Moving(Apply(s, c), Current(m, c))
  {
    if c.Drive? {
      forall w ensures Chassis.Drive(Apply(s, c).levels, w) == Chassis.Spin(c.m, w) {
        Chassis.DriveOfMotion(s.levels, c.m, w);
      }
    } else {
      OthersUntouched(s, c, Wheels);
      forall w ensures Chassis.Drive(Apply(s, c).levels, w) == Chassis.Drive(s.levels, w) {
        SamePinsSameDrive(s.levels, Apply(s, c).levels, w);
      }
    }
  }

  lemma SamePinsSameDrive(l: Levels, k: Levels, w: Chassis.Wheel)
    requires Only(l, Chassis.CHASSIS_PINS) == Only(k, Chassis.CHASSIS_PINS)
    ensures Chassis.Drive(l, w) == Chassis.Drive(k, w)
  {
    SamePinSameLevel(l, k, Chassis.In1(w));
    SamePinSameLevel(l, k, Chassis.In2(w));
  }

  lemma SamePinSameLevel(l: Levels, k: Levels, p: Pin)
    requires Only(l, Chassis.CHASSIS_PINS) == Only(k, Chassis.CHASSIS_PINS) && p in Chassis.CHASSIS_PINS
    ensures Level(l, p) == Level(k, p)
  {
    assert p in l <==> p in Only(l, Chassis.CHASSIS_PINS);
    assert p in k <==> p in Only(k, Chassis.CHASSIS_PINS);
  }

  /** Over every timed run of all kinds of commands, the four wheel totals sum to zero and give back
      the net forward, sideways and turning times. */
  lemma {:induction false} WheelConservation(s: State, m: Chassis.Motion, run: seq<Timed>)
    requires Moving(s, m)
    ensures Balanced(WheelTotals(s, run), NetTravel(m, run))
    decreases |run|
  {
    if run != [] {
      var next, now := Apply(s, run[0].c), Current(m, run[0].c);
      StillMoving(s, m, run[0].c);
      WheelConservation(next, now, run[1..]);
      AddSegment(WheelTotals(next, run[1..]), NetTravel(now, run[1..]), next, now, run[0].time);
    }
  }

  lemma AddSegment(t: Totals, n: Travel, s: State, m: Chassis.Motion, time: real)
    requires Moving(s, m) && Balanced(t, n)
    ensures Balanced(AddWheels(t, s.levels, time), AddTime(n, m, time))
  {
    assert Chassis.Drive(s.levels, Chassis.A) == Chassis.Spin(m, Chassis.A);
    assert Chassis.Drive(s.levels, Chassis.B) == Chassis.Spin(m, Chassis.B);
    assert Chassis.Drive(s.levels, Chassis.C) == Chassis.Spin(m, Chassis.C);
    assert Chassis.Drive(s.levels, Chassis.D) == Chassis.Spin(m, Chassis.D);
  }

  /** Before any pin is written the wheels are at rest, so from there no condition is left. */
  lemma WheelConservationFromRest(s: State, run: seq<Timed>)
    requires s.levels == map[]
    ensures Balanced(WheelTotals(s, run), NetTravel(Chassis.Brake, run))
  {
    forall w ensures Chassis.Drive(s.levels, w) == Chassis.Spin(Chassis.Brake, w) {}
    WheelConservation(s, Chassis.Brake, run);
  }
}
