/** The consumer of commands: it slices the posted record, picks a branch by the first five
    characters and updates the tracked angles, the servos and the output pins. */
module Robot {
  import opened CStrings
  import opened Decimal
  import opened Gpio
  import opened UrlData
  import Gimbal
  import Chassis
  import Fire

  datatype Route = GimbalStep | FrictionOn | FrictionOff | FeedOn | FeedOff | RobotStop | Rocker

  datatype Command =
    | Pitch(d: int)
    | Yaw(d: int)
    | Friction(on: bool)
    | Feed(on: bool)
    | Drive(m: Chassis.Motion)
    | Nothing

  datatype State = State(yaw: int, pitch: int, yawPulse: int, pitchPulse: int, levels: Levels)

  // ----- Reading a record -----

  /** The branches in the order of the program; five characters decide. */
  const ROUTES: seq<(string, Route)> :=
    [("/gimb", GimbalStep), ("/blas", FrictionOn), ("/fire", FrictionOff), ("/Pluc", FeedOn),
     ("/luck", FeedOff), ("/robo", RobotStop), ("/rock", Rocker)]

  function Lookup(routes: seq<(string, Route)>, key: string): (r: Option<Route>) {
    if routes == [] then None
    else if routes[0].0 == key then Some(routes[0].1)
    else Lookup(routes[1..], key)
  }

  /** C division and remainder by 100 truncate toward zero. */
  function Div100(v: int): int {
    if v >= 0 then v / 100 else -((-v) / 100)
  }

  function Mod100(v: int): int {
    v - 100 * Div100(v)
  }

  function GimbalCommand(v: int): Command {
    if v == 0 then Pitch(-10) else if v == 1 then Pitch(10)
    else if v == 2 then Yaw(10) else if v == 3 then Yaw(-10) else Nothing
  }

  function DriveCommand(m: Option<Chassis.Motion>): Command {
    if m.None? then Nothing else Drive(m.value)
  }

  function CellCommand(x: int, y: int): Command {
    DriveCommand(Chassis.Decide(x, y))
  }

  function RockerCommand(v: int): Command {
    CellCommand(Div100(v), Mod100(v))
  }

  function Meaning(route: Option<Route>, v: int): Command {
    match route
    case None => Drive(Chassis.Brake)
    case Some(GimbalStep) => GimbalCommand(v)
    case Some(FrictionOn) => Friction(true)
    case Some(FrictionOff) => Friction(false)
    case Some(FeedOn) => Feed(true)
    case Some(FeedOff) => Feed(false)
    case Some(RobotStop) => Nothing
    case Some(Rocker) => RockerCommand(v)
  }

  /** What a posted record asks for: characters 0..4 name the branch, 12..15 hold the number. */
  function Classify(url: UrlString): (c: Command) {
    Meaning(Lookup(ROUTES, url[..5]), Atoi(url[12..16]))
  }

  // ----- Executing a command -----

  function Apply(s: State, c: Command): (t: State) {
    match c
    case Pitch(d) =>
      var angle := Gimbal.Turn(s.pitch, d);
      s.(pitch := angle, pitchPulse := Gimbal.Written(angle))
    case Yaw(d) =>
      var angle := Gimbal.Turn(s.yaw, d);
      s.(yaw := angle, yawPulse := Gimbal.Written(angle))
    case Friction(on) => s.(levels := s.levels + Fire.FrictionPins(on))
    case Feed(on) => s.(levels := s.levels + Fire.FeedPins(on))
    case Drive(m) => s.(levels := s.levels + Chassis.MotionPins(m))
    case Nothing => s
  }

  lemma ApplyDriven(s: State, m: Option<Chassis.Motion>, l: Levels)
    requires l == Chassis.Driven(s.levels, m)
    ensures Apply(s, DriveCommand(m)) == s.(levels := l)
  {
    if m.Some? {
      assert l == s.levels + Chassis.MotionPins(m.value);
    }
  }

  function Run(s: State, cs: seq<Command>): (t: State)
    decreases |cs|
  {
    if cs == [] then s else Run(Apply(s, cs[0]), cs[1..])
  }

  function ClassifyAll(urls: seq<UrlString>): (cs: seq<Command>)
    ensures |cs| == |urls|
    ensures forall i :: 0 <= i < |urls| ==> cs[i] == Classify(urls[i])
  {
    seq(|urls|, i requires 0 <= i < |urls| => Classify(urls[i]))
  }

  /** After power-up: the tracked angles are in the middle, the servos where the boot code drives
      them, and no output pin has been written. */
  const BOOT := State(Gimbal.MID_DEGREE, Gimbal.MID_DEGREE, Gimbal.Written(235), Gimbal.Written(90), map[])

  /** Boot drives yaw to 235 degrees and pitch to 90: pulses of 2240 and 1166 microseconds. */
  lemma BootNumbers()
    ensures BOOT == State(135, 135, 2240, 1166, map[])
  {
    Gimbal.NoWrap(235);
    Gimbal.NoWrap(90);
  }

  class Controller {
    var yaw: int
    var pitch: int
    var yawPulse: int
    var pitchPulse: int
    const port: Port

    ghost function View(): State
      reads this, port
    {
      State(yaw, pitch, yawPulse, pitchPulse, port.levels)
    }

    constructor ()
      ensures fresh(port) && View() == BOOT == State(135, 135, 2240, 1166, map[])
    {
      BootNumbers();
      yaw, pitch := Gimbal.MID_DEGREE, Gimbal.MID_DEGREE;
      yawPulse, pitchPulse := 0, 0;
      port := new Port();
      new;
      ServoSetAngleTo(235, 0);
      ServoSetAngleTo(90, 1);
    }

    /** `servo_set_angle_To`; motor 0 is yaw, motor 1 is pitch. */
    method ServoSetAngleTo(angle: int, motorIndex: int)
      modifies this
      ensures yaw == old(yaw) && pitch == old(pitch)
      ensures yawPulse == if motorIndex == 0 then Gimbal.Written(angle) else old(yawPulse)
      ensures pitchPulse == if motorIndex == 1 then Gimbal.Written(angle) else old(pitchPulse)
    {
      var setAngle := Gimbal.AsUint32(angle);
      if setAngle <= 0 {
        setAngle := 0;
      }
      if setAngle >= Gimbal.MAX_DEGREE {
        setAngle := Gimbal.MAX_DEGREE;
      }
      if motorIndex == 0 {
        yawPulse := Gimbal.Pulse(setAngle);
      }
      if motorIndex == 1 {
        pitchPulse := Gimbal.Pulse(setAngle);
      }
    }

    method MovePitch(d: int)
      modifies this
      ensures View() == Apply(old(View()), Pitch(d))
    {
      pitch := pitch + d;
      if pitch <= 0 {
        pitch := 0;
      }
      if pitch >= Gimbal.MAX_DEGREE {
        pitch := Gimbal.MAX_DEGREE;
      }
      ServoSetAngleTo(pitch, 1);
    }

    method MoveYaw(d: int)
      modifies this
      ensures View() == Apply(old(View()), Yaw(d))
    {
      yaw := yaw + d;
      if yaw <= 0 {
        yaw := 0;
      }
      if yaw >= Gimbal.MAX_DEGREE {
        yaw := Gimbal.MAX_DEGREE;
      }
      ServoSetAngleTo(yaw, 0);
    }

    method MoveGimbal(value: int)
      modifies this
      ensures View() == Apply(old(View()), GimbalCommand(value))
    {
      if value == 0 {
        MovePitch(-10);
      }
      if value == 1 {
        MovePitch(10);
      }
      if value == 2 {
        MoveYaw(10);
      }
      if value == 3 {
        MoveYaw(-10);
      }
    }

    method MoveChassis(x: int, y: int)
      modifies port
      ensures View() == Apply(old(View()), CellCommand(x, y))
    {
      Chassis.Rocker(port, x, y);
      ApplyDriven(old(View()), Chassis.Decide(x, y), port.levels);
    }

    method RunFriction(on: bool)
      modifies port
      ensures View() == Apply(old(View()), Friction(on))
    {
      if on {
        Fire.FrictionRun(port);
      } else {
        Fire.FrictionStop(port);
      }
    }

    method RunFeed(on: bool)
      modifies port
      ensures View() == Apply(old(View()), Feed(on))
    {
      if on {
        Fire.FeedRun(port);
      } else {
        Fire.FeedStop(port);
      }
    }

    method Halt()
      modifies port
      ensures View() == Apply(old(View()), Drive(Chassis.Brake))
    {
      Chassis.Enable(port);
    }

    method MoveRocker(value: int)
      modifies port
      ensures View() == Apply(old(View()), RockerCommand(value))
    {
      var x, y := Div100(value), Mod100(value);
      MoveChassis(x, y);
    }

    /** One pass of the consumer's loop. */
    method Execute(url: UrlString)
      modifies this, port
      ensures View() == Apply(old(View()), Classify(url))
    {
      var name, value := Slice(url);
      assert name[..5] == url[..5];
      var route := Branch(name[..5]);
      Perform(route, value);
    }

    /** The body of the branch taken. */
    method Perform(route: Option<Route>, value: string)
      modifies this, port
      ensures View() == Apply(old(View()), Meaning(route, Atoi(value)))
    {
      match route
      case Some(GimbalStep) => MoveGimbal(Atoi(value));
      case Some(FrictionOn) => RunFriction(true);
      case Some(FrictionOff) => RunFriction(false);
      case Some(FeedOn) => RunFeed(true);
      case Some(FeedOff) => RunFeed(false);
      case Some(RobotStop) =>
      case Some(Rocker) => MoveRocker(Atoi(value));
      case None => Halt();
    }

    /** The consumer's loop over everything it receives. */
    method ExecuteAll(urls: seq<UrlString>)
      modifies this, port
      ensures View() == Run(old(View()), ClassifyAll(urls))
    {
      ghost var cs, start := ClassifyAll(urls), View();
      for i := 0 to |urls|
        invariant Run(start, cs) == Run(View(), cs[i..])
      {
        assert cs[i..][1..] == cs[i + 1..] && cs[i..][0] == cs[i];
        Execute(urls[i]);
      }
    }
  }

  /** The `else if` chain over the first five characters. */
  method Branch(key: string) returns (route: Option<Route>)
    ensures route == Lookup(ROUTES, key)
  {
    RouteOf(key);
    if key == "/gimb" {
      route := Some(GimbalStep);
    } else if key == "/blas" {
      route := Some(FrictionOn);
    } else if key == "/fire" {
      route := Some(FrictionOff);
    } else if key == "/Pluc" {
      route := Some(FeedOn);
    } else if key == "/luck" {
      route := Some(FeedOff);
    } else if key == "/robo" {
      route := Some(RobotStop);
    } else if key == "/rock" {
      route := Some(Rocker);
    } else {
      route := None;
    }
  }

  /** The two copy loops: characters 0..6 and 12..15. */
  method Slice(url: UrlString) returns (name: seq<char>, value: seq<char>)
    ensures name == url[..7] && value == url[12..16]
  {
    var nameBuff, valueBuff := new char[7], new char[4];
    for i := 0 to 7
      invariant forall k :: 0 <= k < i ==> nameBuff[k] == url[k]
    {
      nameBuff[i] := url[i];
    }
    assert nameBuff[..] == url[..7];
    for j := 12 to 16
      invariant nameBuff[..] == url[..7]
      invariant forall k :: 0 <= k < j - 12 ==> valueBuff[k] == url[12 + k]
    {
      valueBuff[j - 12] := url[j];
    }
    assert valueBuff[..] == url[12..16];
    name, value := nameBuff[..], valueBuff[..];
  }

  lemma RouteOf(key: string)
    ensures Lookup(ROUTES, key) ==
            if key == "/gimb" then Some(GimbalStep)
            else if key == "/blas" then Some(FrictionOn)
            else if key == "/fire" then Some(FrictionOff)
            else if key == "/Pluc" then Some(FeedOn)
            else if key == "/luck" then Some(FeedOff)
            else if key == "/robo" then Some(RobotStop)
            else if key == "/rock" then Some(Rocker)
            else None
  {
    assert ROUTES[0..] == ROUTES;
    LookupAt(ROUTES, key, 0);
    LookupAt(ROUTES, key, 1);
    LookupAt(ROUTES, key, 2);
    LookupAt(ROUTES, key, 3);
    LookupAt(ROUTES, key, 4);
    LookupAt(ROUTES, key, 5);
    LookupAt(ROUTES, key, 6);
    LookupAt(ROUTES, key, 7);
  }

  lemma {:induction false} LookupAt(routes: seq<(string, Route)>, key: string, i: nat)
    requires i <= |routes|
    ensures Lookup(routes[i..], key) ==
            if i == |routes| then None
            else if routes[i].0 == key then Some(routes[i].1)
            else Lookup(routes[i + 1..], key)
  {
    if i < |routes| {
      assert routes[i..][0] == routes[i] && routes[i..][1..] == routes[i + 1..];
    }
  }
}
