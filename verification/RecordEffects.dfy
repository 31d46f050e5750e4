/** What every record does to the robot, in pin numbers, degrees and microseconds: a reference written
    down without the dispatcher's own tables, and the proof that the dispatcher follows it. */
module RecordEffects {
  import opened CStrings
  import opened Decimal
  import opened Gpio
  import opened Robot
  import opened UrlData
  import Chassis
  import Fire
  import Gimbal

  /** The eight motor pins: A on 16 and 17, B on 32 and 33, C on 13 and 15, D on 0 and 2. */
  function Motors(a1: bool, a2: bool, b1: bool, b2: bool, c1: bool, c2: bool, d1: bool, d2: bool): Levels {
    map[16 := a1, 17 := a2, 32 := b1, 33 := b2, 13 := c1, 15 := c2, 0 := d1, 2 := d2]
  }

  /** Where the stick at column `x` and row `y` sends the eight pins; `None` leaves them alone. */
  function StickPins(x: int, y: int): (l: Option<Levels>) {
    if x < 0 || x > 10 || y < 0 || y > 10 then None
    else if x == 5 && y == 5 then Some(Motors(true, true, true, true, true, true, true, true))
    else if x <= 4 && 4 <= y <= 6 then Some(Motors(true, false, false, true, false, true, true, false))
    else if x >= 6 && 4 <= y <= 6 then Some(Motors(false, true, true, false, true, false, false, true))
    else if 4 <= x <= 6 && y <= 4 then Some(Motors(false, true, false, true, true, false, true, false))
    else if 4 <= x <= 6 then Some(Motors(true, false, true, false, false, true, false, true))
    else if x <= 3 then Some(Motors(false, true, true, false, false, true, true, false))
    else Some(Motors(true, false, false, true, true, false, false, true))
  }

  /** Ten degrees down and up, held in 0..270. */
  function Down(angle: int): int {
    if angle <= 10 then 0 else if angle >= 280 then 270 else angle - 10
  }

  function Up(angle: int): int {
    if angle >= 260 then 270 else if angle <= -10 then 0 else angle + 10
  }

  function Microseconds(angle: int): int {
    500 + 2000 * angle / 270
  }

  /** Values 0 and 1 tilt down and up in degrees, 2 and 3 turn up and down in degrees. */
  function GimbalEffect(s: State, v: int): (t: State) {
    if v == 0 then s.(pitch := Down(s.pitch), pitchPulse := Microseconds(Down(s.pitch)))
    else if v == 1 then s.(pitch := Up(s.pitch), pitchPulse := Microseconds(Up(s.pitch)))
    else if v == 2 then s.(yaw := Up(s.yaw), yawPulse := Microseconds(Up(s.yaw)))
    else if v == 3 then s.(yaw := Down(s.yaw), yawPulse := Microseconds(Down(s.yaw)))
    else s
  }

  /** The number's hundreds are the column, the rest the row. */
  function StickEffect(s: State, v: int): (t: State) {
    if v >= 0 && StickPins(v / 100, v % 100).Some? then s.(levels := s.levels + StickPins(v / 100, v % 100).value) else s
  }

  /** What a record does whose first five characters are `path` and whose number is `v`. */
  function Effect(s: State, path: string, v: int): (t: State) {
    if path == "/gimb" then GimbalEffect(s, v)
    else if path == "/blas" then s.(levels := s.levels + map[26 := true, 25 := false])
    else if path == "/fire" then s.(levels := s.levels + map[26 := true, 25 := true])
    else if path == "/Pluc" then s.(levels := s.levels + map[18 := false, 5 := true])
    else if path == "/luck" then s.(levels := s.levels + map[18 := true, 5 := true])
    else if path == "/robo" then s
    else if path == "/rock" then StickEffect(s, v)
    else s.(levels := s.levels + Motors(true, true, true, true, true, true, true, true))
  }

  lemma MotionLevels(m: Chassis.Motion)
    ensures Chassis.MotionPins(m) ==
            match m
            case Brake => Motors(true, true, true, true, true, true, true, true)
            case Forward => Motors(false, true, false, true, true, false, true, false)
            case Backward => Motors(true, false, true, false, false, true, false, true)
            case Left => Motors(true, false, false, true, false, true, true, false)
            case Right => Motors(false, true, true, false, true, false, false, true)
            case TurnLeft => Motors(false, true, true, false, false, true, true, false)
            case TurnRight => Motors(true, false, false, true, true, false, false, true)
  {
    match m
    case Brake => MotorsOf(m, 0, 0, 0, 0);
    case Forward => MotorsOf(m, -1, -1, 1, 1);
    case Backward => MotorsOf(m, 1, 1, -1, -1);
    case Left => MotorsOf(m, 1, -1, -1, 1);
    case Right => MotorsOf(m, -1, 1, 1, -1);
    case TurnLeft => MotorsOf(m, -1, 1, -1, 1);
    case TurnRight => MotorsOf(m, 1, -1, 1, -1);
  }

  lemma MotorsOf(m: Chassis.Motion, a: int, b: int, c: int, d: int)
    requires Chassis.Spin(m, Chassis.A) == a && Chassis.Spin(m, Chassis.B) == b
    requires Chassis.Spin(m, Chassis.C) == c && Chassis.Spin(m, Chassis.D) == d
    ensures Chassis.MotionPins(m) == Motors(a >= 0, a <= 0, b >= 0, b <= 0, c >= 0, c <= 0, d >= 0, d <= 0)
  {
    Chassis.OwnPins(Chassis.A);
    Chassis.OwnPins(Chassis.B);
    Chassis.OwnPins(Chassis.C);
    Chassis.OwnPins(Chassis.D);
  }

  /** The program's regions send the pins where the reference does. */
  lemma StickAgrees(x: int, y: int)
    ensures StickPins(x, y) ==
            if Chassis.Decide(x, y).None? then None else Some(Chassis.MotionPins(Chassis.Decide(x, y).value))
  {
    if Chassis.Decide(x, y).Some? {
      MotionLevels(Chassis.Decide(x, y).value);
    }
  }

  lemma TurnAgrees(angle: int)
    ensures Gimbal.Turn(angle, -10) == Down(angle) && Gimbal.Turn(angle, 10) == Up(angle)
    ensures Gimbal.Written(Down(angle)) == Microseconds(Down(angle)) && Gimbal.Written(Up(angle)) == Microseconds(Up(angle))
  {
    Gimbal.NoWrap(Down(angle));
    Gimbal.NoWrap(Up(angle));
  }

  lemma GimbalAgrees(s: State, v: int)
    ensures Apply(s, GimbalCommand(v)) == GimbalEffect(s, v)
  {
    TurnAgrees(s.pitch);
    TurnAgrees(s.yaw);
  }

  lemma RockerAgrees(s: State, v: int)
    ensures Apply(s, RockerCommand(v)) == StickEffect(s, v)
  {
    if v >= 0 {
      StickAgrees(v / 100, v % 100);
      CellAgrees(s, v / 100, v % 100);
      assert Div100(v) == v / 100 && Mod100(v) == v % 100;
    } else {
      NegativeOffGrid(v);
    }
  }

  lemma CellAgrees(s: State, x: int, y: int)
    requires StickPins(x, y) ==
             if Chassis.Decide(x, y).None? then None else Some(Chassis.MotionPins(Chassis.Decide(x, y).value))
    ensures Apply(s, CellCommand(x, y)) ==
            if StickPins(x, y).Some? then s.(levels := s.levels + StickPins(x, y).value) else s
  {
  }

  lemma NegativeOffGrid(v: int)
    requires v < 0
    ensures RockerCommand(v) == Nothing
  {
    var x, y := Div100(v), Mod100(v);
    assert x == -((-v) / 100) && -v == 100 * ((-v) / 100) + (-v) % 100;
    assert x <= 0 && y == -((-v) % 100) && (x == 0 ==> y < 0);
  }

  lemma LauncherAgrees(s: State)
    ensures Apply(s, Friction(true)) == s.(levels := s.levels + map[26 := true, 25 := false])
    ensures Apply(s, Friction(false)) == s.(levels := s.levels + map[26 := true, 25 := true])
    ensures Apply(s, Feed(true)) == s.(levels := s.levels + map[18 := false, 5 := true])
    ensures Apply(s, Feed(false)) == s.(levels := s.levels + map[18 := true, 5 := true])
  {
    assert Fire.FrictionPins(true) == map[26 := true, 25 := false] && Fire.FrictionPins(false) == map[26 := true, 25 := true];
    assert Fire.FeedPins(true) == map[18 := false, 5 := true] && Fire.FeedPins(false) == map[18 := true, 5 := true];
  }

  /** For every state and every record, the dispatcher does exactly what the reference says of the first
      five characters and the number in characters 12 to 15. */
  lemma EveryRecord(s: State, url: UrlString)
    ensures Apply(s, Classify(url)) == Effect(s, url[..5], Atoi(url[12..16]))
  {
    RouteAgrees(s, url[..5], Atoi(url[12..16]));
    MeaningAgrees(s, Lookup(ROUTES, url[..5]), Atoi(url[12..16]));
  }

  lemma RouteAgrees(s: State, path: string, v: int)
    ensures RouteEffect(s, Lookup(ROUTES, path), v) == Effect(s, path, v)
  {
    RouteOf(path);
  }

  function RouteEffect(s: State, route: Option<Route>, v: int): State {
    match route
    case Some(GimbalStep) => GimbalEffect(s, v)
    case Some(FrictionOn) => s.(levels := s.levels + map[26 := true, 25 := false])
    case Some(FrictionOff) => s.(levels := s.levels + map[26 := true, 25 := true])
    case Some(FeedOn) => s.(levels := s.levels + map[18 := false, 5 := true])
    case Some(FeedOff) => s.(levels := s.levels + map[18 := true, 5 := true])
    case Some(RobotStop) => s
    case Some(Rocker) => StickEffect(s, v)
    case None => s.(levels := s.levels + Motors(true, true, true, true, true, true, true, true))
  }

  lemma MeaningAgrees(s: State, route: Option<Route>, v: int)
    ensures Apply(s, Meaning(route, v)) == RouteEffect(s, route, v)
  {
    match route
    case Some(GimbalStep) => GimbalAgrees(s, v);
    case Some(Rocker) => RockerAgrees(s, v);
    case None => BrakeAgrees(s);
    case _ => LauncherAgrees(s);
  }

  lemma BrakeAgrees(s: State)
    ensures Apply(s, Drive(Chassis.Brake)) == s.(levels := s.levels + Motors(true, true, true, true, true, true, true, true))
  {
    MotionLevels(Chassis.Brake);
  }

  /** Over whole runs: the state after any records is the reference applied to each in turn. */
  function EffectAll(s: State, urls: seq<UrlString>): State
    decreases |urls|
  {
    if urls == [] then s else EffectAll(Effect(s, urls[0][..5], Atoi(urls[0][12..16])), urls[1..])
  }

  lemma {:induction false} EveryRun(s: State, urls: seq<UrlString>)
    ensures Run(s, ClassifyAll(urls)) == EffectAll(s, urls)
    decreases |urls|
  {
    var cs := ClassifyAll(urls);
    if urls == [] {
      assert cs == [];
    } else {
      assert cs[1..] == ClassifyAll(urls[1..]) && cs[0] == Classify(urls[0]);
      EveryRecord(s, urls[0]);
      EveryRun(Apply(s, cs[0]), urls[1..]);
    }
  }
}
