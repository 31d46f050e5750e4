/** From the pointer on the page to the pins of the robot. */
module EndToEnd {
  import opened CStrings
  import opened Decimal
  import opened Gpio
  import opened HttpRequest
  import opened RecordEffects
  import opened Robot
  import opened UrlData
  import Chassis
  import Mailbox
  import Page
  import RobotRuns

  // ----- The joystick round trip -----

  lemma TwoDigits(n: nat)
    requires n < 100
    ensures Value(PrefixZero(n, 2)) == n
  {
    PrefixZeroValue(n, 2);
    assert Pow10(2) == 10 * Pow10(1) == 100;
    SmallRemainder(n, 100);
  }

  lemma FieldValue(c: Page.Cell)
    requires c.x <= 10 && c.y <= 10
    ensures Value(PrefixZero(c.x, 2) + PrefixZero(c.y, 2)) == 100 * c.x + c.y
  {
    TwoDigits(c.x);
    TwoDigits(c.y);
    assert Pow10(2) == 10 * Pow10(1) == 100;
    ValueOfConcat(PrefixZero(c.x, 2), PrefixZero(c.y, 2));
  }

  lemma FieldSplits(v: int, x: int, y: int)
    requires 0 <= x <= 10 && 0 <= y <= 10 && v == 100 * x + y
    ensures Div100(v) == x && Mod100(v) == y
  {
  }

  lemma UrlPlain(c: Page.Cell)
    ensures |Page.Url(c)| == 16 && NUL !in Page.Url(c) && !Contains(Page.Url(c), "HTTP")
  {
    var u := Page.Url(c);
    assert u[..12] == "/rocker?val=";
    forall i | 0 <= i < 16 ensures u[i] != 'H' && u[i] != NUL {
      if i >= 12 {
        assert u[i] == (PrefixZero(c.x, 2) + PrefixZero(c.y, 2))[i - 12];
        assert IsDigit(u[i]);
      }
    }
    forall i: nat ensures !OccursAt(u, "HTTP", i) {
      if i < 16 {
        NoOccurrence(u, "HTTP", i, 0);
      }
    }
  }

  /** A browser's request for a path: any continuation of the version, headers and body included. */
  function GetRequest(path: string, rest: seq<char>): string {
    RequestLine("GET", path, rest)
  }

  /** The record posted for a cell. */
  function CellRecord(c: Page.Cell): UrlString {
    Record(Page.Url(c) + " ")
  }

  lemma GetPosts(c: Page.Cell, rest: seq<char>)
    ensures Parse(GetRequest(Page.Url(c), rest)) == Posted("GET", CellRecord(c))
  {
    UrlPlain(c);
    assert forall i: nat :: !OccursAt("GET", "HTTP", i);
    ParseUndoesPrint("GET", Page.Url(c), rest);
  }

  /** The fixed offsets: five characters for the branch, four for the number. */
  lemma RecordSlices(path: string, a: string, b: string)
    requires |path| == 12 && |a| == 2 && |b| == 2
    ensures Record(path + a + b + " ")[..5] == path[..5]
    ensures Record(path + a + b + " ")[12..16] == a + b
  {
  }

  /** The record of a cell selects the rocker branch and its number field holds the cell. */
  lemma RecordFields(c: Page.Cell)
    requires c.x <= 10 && c.y <= 10
    ensures Lookup(ROUTES, CellRecord(c)[..5]) == Some(Rocker)
    ensures Atoi(CellRecord(c)[12..16]) == 100 * c.x + c.y
  {
    RecordSlices("/rocker?val=", PrefixZero(c.x, 2), PrefixZero(c.y, 2));
    assert "/rocker?val="[..5] == "/rock";
    RouteOf("/rock");
    FieldValue(c);
    AtoiOfDigits(PrefixZero(c.x, 2) + PrefixZero(c.y, 2));
  }

  lemma RockerRecord(url: UrlString, x: int, y: int)
    requires 0 <= x <= 10 && 0 <= y <= 10
    requires Lookup(ROUTES, url[..5]) == Some(Rocker)
    requires Atoi(url[12..16]) == 100 * x + y
    ensures Div100(Atoi(url[12..16])) == x && Mod100(Atoi(url[12..16])) == y
    ensures Classify(url) == CellCommand(x, y)
  {
    FieldSplits(Atoi(url[12..16]), x, y);
  }

  lemma RecordDrives(c: Page.Cell)
    requires c.x <= 10 && c.y <= 10
    ensures Classify(CellRecord(c)) == CellCommand(c.x, c.y)
  {
    RecordFields(c);
    RockerRecord(CellRecord(c), c.x, c.y);
  }

  /** The request for a cell, with anything behind its "HTTP", is posted as a record that selects the
      rocker branch, and division and remainder by 100 of its number field give back the cell. */
  ghost predicate RoundTrips(c: Page.Cell, rest: seq<char>)
    requires c.x <= 10 && c.y <= 10
  {
    var posted := Parse(GetRequest(Page.Url(c), rest));
    && posted.Posted? && posted.kind == "GET"
    && Lookup(ROUTES, posted.url[..5]) == Some(Rocker)
    && Div100(Atoi(posted.url[12..16])) == c.x
    && Mod100(Atoi(posted.url[12..16])) == c.y
    && Classify(posted.url) == CellCommand(c.x, c.y)
  }

  lemma CellRoundTrips(c: Page.Cell, rest: seq<char>)
    requires c.x <= 10 && c.y <= 10
    ensures RoundTrips(c, rest)
  {
    GetPosts(c, rest);
    RecordFields(c);
    RockerRecord(CellRecord(c), c.x, c.y);
  }

  /** For every pointer position, whatever else the request holds, the page's cell survives the trip. */
  lemma JoystickRoundTrip(x: int, y: int, rest: seq<char>)
    ensures RoundTrips(Page.CellOf(x, y), rest)
  {
    CellRoundTrips(Page.CellOf(x, y), rest);
  }

  // ----- In pixels, characters, pins and degrees -----

  /** A GET request for a path of sixteen characters without 'H' and zero bytes, whatever follows its
      "HTTP", is posted as that path with one trailing space. */
  lemma PathPosts(path: string, rest: seq<char>)
    requires |path| == 16 && NUL !in path && 'H' !in path
    ensures Parse("GET" + " " + path + " HTTP" + rest) == Posted("GET", Record(path + " "))
  {
    forall i: nat ensures !OccursAt(path, "HTTP", i) {
      if i < 16 {
        NoOccurrence(path, "HTTP", i, 0);
      }
    }
    assert forall i: nat :: !OccursAt("GET", "HTTP", i);
    ParseUndoesPrint("GET", path, rest);
  }

  /** Such a record does what the reference says of the path's first five characters and its last four. */
  lemma PathEffect(s: State, path: string)
    requires |path| == 16
    ensures Apply(s, Classify(Record(path + " "))) == Effect(s, path[..5], Atoi(path[12..16]))
  {
    PathSlices(path, Record(path + " "));
    EveryRecord(s, Record(path + " "));
  }

  lemma PathSlices(path: string, url: UrlString)
    requires |path| == 16 && path <= url
    ensures url[..5] == path[..5] && url[12..16] == path[12..16]
  {
  }

  lemma FourDigits(a: char, b: char, c: char, d: char)
    requires IsDigit(a) && IsDigit(b) && IsDigit(c) && IsDigit(d)
    ensures Atoi([a, b, c, d]) == 1000 * DigitValue(a) + 100 * DigitValue(b) + 10 * DigitValue(c) + DigitValue(d)
  {
    assert [a, b, c, d] == [] + [a] + [b] + [c] + [d];
    ValueAppend([], a);
    ValueAppend([] + [a], b);
    ValueAppend([] + [a] + [b], c);
    ValueAppend([] + [a] + [b] + [c], d);
    AtoiOfDigits([a, b, c, d]);
  }

  /** For every pixel pair in column `column` and row `row` of sixty pixels each, the page requests the
      path that spells the two numbers, and the record of that path leaves the eight motor pins as the
      stick table says and everything else alone. */
  lemma PixelDrives(s: State, x: int, y: int, column: nat, row: nat)
    requires Page.InBand(x, column) && Page.InBand(y, row)
    ensures column <= 10 && row <= 10 && StickPins(column, row).Some?
    ensures var path := "/rocker?val=" +
                        [DigitChar(column / 10), DigitChar(column % 10), DigitChar(row / 10), DigitChar(row % 10)];
            Page.Url(Page.CellOf(x, y)) == path && |path| == 16 && NUL !in path && 'H' !in path &&
            Apply(s, Classify(Record(path + " "))) == s.(levels := s.levels + StickPins(column, row).value)
  {
    Page.CellBands(x, y);
    assert Page.Cell(column, row) == Page.CellOf(x, y);
    Page.PathDigits(Page.CellOf(x, y));
    StickPath(s, column, row);
  }

  lemma StickPath(s: State, column: nat, row: nat)
    requires column <= 10 && row <= 10
    ensures StickPins(column, row).Some?
    ensures var path := "/rocker?val=" +
                        [DigitChar(column / 10), DigitChar(column % 10), DigitChar(row / 10), DigitChar(row % 10)];
            |path| == 16 && NUL !in path && 'H' !in path &&
            Apply(s, Classify(Record(path + " "))) == s.(levels := s.levels + StickPins(column, row).value)
  {
    var a, b, c, d := DigitChar(column / 10), DigitChar(column % 10), DigitChar(row / 10), DigitChar(row % 10);
    PathOfDigits(a, b, c, d);
    StickRecord(s, "/rocker?val=" + [a, b, c, d], column, row);
  }

  /** A joystick path acts by the number that its last four characters spell. */
  lemma StickRecord(s: State, path: string, column: nat, row: nat)
    requires column <= 10 && row <= 10 && |path| == 16 && path[..5] == "/rock"
    requires path[12..16] == [DigitChar(column / 10), DigitChar(column % 10), DigitChar(row / 10), DigitChar(row % 10)]
    ensures StickPins(column, row).Some?
    ensures Apply(s, Classify(Record(path + " "))) == s.(levels := s.levels + StickPins(column, row).value)
  {
    PathEffect(s, path);
    StickDigits(column, row);
    StickNumber(s, Atoi(path[12..16]), column, row);
  }

  lemma StickDigits(column: nat, row: nat)
    requires column <= 10 && row <= 10
    ensures Atoi([DigitChar(column / 10), DigitChar(column % 10), DigitChar(row / 10), DigitChar(row % 10)]) == 100 * column + row
  {
    FourDigits(DigitChar(column / 10), DigitChar(column % 10), DigitChar(row / 10), DigitChar(row % 10));
  }

  lemma PathOfDigits(a: char, b: char, c: char, d: char)
    requires IsDigit(a) && IsDigit(b) && IsDigit(c) && IsDigit(d)
    ensures var path := "/rocker?val=" + [a, b, c, d];
            |path| == 16 && NUL !in path && 'H' !in path && path[..5] == "/rock" && path[12..16] == [a, b, c, d]
  {
  }

  lemma StickNumber(s: State, v: int, column: nat, row: nat)
    requires column <= 10 && row <= 10 && v == 100 * column + row
    ensures StickPins(column, row).Some?
    ensures Effect(s, "/rock", v) == s.(levels := s.levels + StickPins(column, row).value)
  {
    assert v / 100 == column && v % 100 == row;
  }

  /** The record of a path made of `name` (twelve characters), "000" and `digit`. */
  function Button(name: string, digit: char): UrlString
    requires |name| == 12
  {
    Record(name + ['0', '0', '0', digit] + " ")
  }

  lemma ButtonEffect(s: State, name: string, digit: char)
    requires |name| == 12 && IsDigit(digit)
    ensures Apply(s, Classify(Button(name, digit))) == Effect(s, name[..5], DigitValue(digit))
  {
    ButtonSlices(name, ['0', '0', '0', digit]);
    FourDigits('0', '0', '0', digit);
    PathEffect(s, name + ['0', '0', '0', digit]);
  }

  lemma ButtonSlices(name: string, number: string)
    requires |name| == 12 && |number| == 4
    ensures (name + number)[..5] == name[..5] && (name + number)[12..16] == number
  {
  }

  /** The four gimbal buttons, from every state: values 0 and 1 move the pitch servo alone, 2 and 3 the
      yaw servo alone, ten degrees at a time and held in 0..270. */
  lemma GimbalButtons(s: State)
    ensures Apply(s, Classify(Button("/gimbal?val=", '0'))) == s.(pitch := Down(s.pitch), pitchPulse := Microseconds(Down(s.pitch)))
    ensures Apply(s, Classify(Button("/gimbal?val=", '1'))) == s.(pitch := Up(s.pitch), pitchPulse := Microseconds(Up(s.pitch)))
    ensures Apply(s, Classify(Button("/gimbal?val=", '2'))) == s.(yaw := Up(s.yaw), yawPulse := Microseconds(Up(s.yaw)))
    ensures Apply(s, Classify(Button("/gimbal?val=", '3'))) == s.(yaw := Down(s.yaw), yawPulse := Microseconds(Down(s.yaw)))
    ensures 10 <= s.pitch <= 270 ==> Down(s.pitch) == s.pitch - 10
    ensures 0 <= s.pitch <= 260 ==> Up(s.pitch) == s.pitch + 10
    ensures 10 <= s.yaw <= 270 ==> Down(s.yaw) == s.yaw - 10
    ensures 0 <= s.yaw <= 260 ==> Up(s.yaw) == s.yaw + 10
  {
    GimbalButton(s, '0');
    GimbalButton(s, '1');
    GimbalButton(s, '2');
    GimbalButton(s, '3');
  }

  lemma GimbalButton(s: State, digit: char)
    requires IsDigit(digit)
    ensures Apply(s, Classify(Button("/gimbal?val=", digit))) == GimbalEffect(s, DigitValue(digit))
  {
    assert "/gimbal?val="[..5] == "/gimb";
    ButtonEffect(s, "/gimbal?val=", digit);
  }

  /** The launcher buttons drive pins 26 and 25 for the friction wheel, 18 and 5 for the feeder; the
      button labelled stop changes nothing. */
  lemma LauncherButtons(s: State)
    ensures Apply(s, Classify(Button("/blaste?val=", '0'))) == s.(levels := s.levels + map[26 := true, 25 := false])
    ensures Apply(s, Classify(Button("/fireSt?val=", '0'))) == s.(levels := s.levels + map[26 := true, 25 := true])
    ensures Apply(s, Classify(Button("/Pluck1?val=", '0'))) == s.(levels := s.levels + map[18 := false, 5 := true])
    ensures Apply(s, Classify(Button("/luck2P?val=", '0'))) == s.(levels := s.levels + map[18 := true, 5 := true])
    ensures Apply(s, Classify(Button("/robott?val=", '0'))) == s
  {
    FrictionOnButton(s);
    FrictionOffButton(s);
    FeedOnButton(s);
    FeedOffButton(s);
    StopButton(s);
  }

  lemma FrictionOnButton(s: State)
    ensures Apply(s, Classify(Button("/blaste?val=", '0'))) == s.(levels := s.levels + map[26 := true, 25 := false])
  {
    assert "/blaste?val="[..5] == "/blas";
    ButtonEffect(s, "/blaste?val=", '0');
  }

  lemma FrictionOffButton(s: State)
    ensures Apply(s, Classify(Button("/fireSt?val=", '0'))) == s.(levels := s.levels + map[26 := true, 25 := true])
  {
    assert "/fireSt?val="[..5] == "/fire";
    ButtonEffect(s, "/fireSt?val=", '0');
  }

  lemma FeedOnButton(s: State)
    ensures Apply(s, Classify(Button("/Pluck1?val=", '0'))) == s.(levels := s.levels + map[18 := false, 5 := true])
  {
    assert "/Pluck1?val="[..5] == "/Pluc";
    ButtonEffect(s, "/Pluck1?val=", '0');
  }

  lemma FeedOffButton(s: State)
    ensures Apply(s, Classify(Button("/luck2P?val=", '0'))) == s.(levels := s.levels + map[18 := true, 5 := true])
  {
    assert "/luck2P?val="[..5] == "/luck";
    ButtonEffect(s, "/luck2P?val=", '0');
  }

  lemma StopButton(s: State)
    ensures Apply(s, Classify(Button("/robott?val=", '0'))) == s
  {
    assert "/robott?val="[..5] == "/robo";
    ButtonEffect(s, "/robott?val=", '0');
  }

  // ----- The chassis follows the pointer -----

  /** The command that the robot reads in the record of a cell. */
  function CommandOf(c: Page.Cell): Command {
    Classify(CellRecord(c))
  }

  function Mapped<T>(f: T -> Command, cs: seq<T>): (r: seq<Command>)
    ensures |r| == |cs|
    ensures forall i :: 0 <= i < |cs| ==> r[i] == f(cs[i])
  {
    if cs == [] then [] else Mapped(f, cs[..|cs| - 1]) + [f(cs[|cs| - 1])]
  }

  function Commands(cs: seq<Page.Cell>): seq<Command> {
    Mapped(CommandOf, cs)
  }

  lemma {:induction false} RunLast(s: State, cs: seq<Command>, c: Command)
    ensures Run(s, cs + [c]) == Apply(Run(s, cs), c)
    decreases |cs|
  {
    if cs == [] {
      assert cs + [c] == [c] && [c][1..] == [];
    } else {
      assert (cs + [c])[1..] == cs[1..] + [c];
      RunLast(Apply(s, cs[0]), cs[1..], c);
    }
  }

  /** The eight chassis pins stand as motion `m` writes them. */
  ghost predicate Drives(s: State, m: Chassis.Motion) {
    RobotRuns.Only(s.levels, Chassis.CHASSIS_PINS) == Chassis.MotionPins(m)
  }

  lemma LastDriveStands(s: State, cs: seq<Command>, m: Chassis.Motion)
    requires cs != [] && cs[|cs| - 1] == Drive(m)
    ensures Drives(Run(s, cs), m)
  {
    var init := cs[..|cs| - 1];
    RunLast(s, init, Drive(m));
    assert init + [Drive(m)] == cs;
    RobotRuns.OnlyMerge(Run(s, init).levels, Chassis.MotionPins(m), Chassis.CHASSIS_PINS);
  }

  lemma LastCellDrives(s: State, cs: seq<Command>, c: Page.Cell)
    requires c.x <= 10 && c.y <= 10 && cs != [] && cs[|cs| - 1] == Classify(CellRecord(c))
    ensures Chassis.Decide(c.x, c.y).Some? && Drives(Run(s, cs), Chassis.Decide(c.x, c.y).value)
  {
    RecordDrives(c);
    Chassis.DecisionSymmetry(c.x, c.y);
    LastDriveStands(s, cs, Chassis.Decide(c.x, c.y).value);
  }

  lemma {:induction false} DedupInRange(cs: seq<Page.Cell>)
    requires forall i :: 0 <= i < |cs| ==> cs[i].x <= 10 && cs[i].y <= 10
    ensures forall i :: 0 <= i < |Page.Dedup(cs)| ==> Page.Dedup(cs)[i].x <= 10 && Page.Dedup(cs)[i].y <= 10
    decreases |cs|
  {
    if |cs| > 1 {
      DedupInRange(cs[..|cs| - 1]);
    }
  }

  /** The cell under the pointer after the events; the middle before any. */
  function LastCell(es: seq<Page.PointerEvent>): (c: Page.Cell)
    ensures c.x <= 10 && c.y <= 10
  {
    if es == [] then Page.CENTER else Page.EventCell(es[|es| - 1])
  }

  /** The cells that the page requests in the course of the events. */
  function SentCells(es: seq<Page.PointerEvent>): (cs: seq<Page.Cell>)
    ensures cs != [] && cs[|cs| - 1] == LastCell(es)
    ensures forall i :: 0 <= i < |cs| ==> cs[i].x <= 10 && cs[i].y <= 10
  {
    var visited := [Page.CENTER] + Page.Cells(es);
    DedupInRange(visited);
    Page.Dedup(visited)
  }

  /** Over every sequence of pointer events, whatever state the robot starts in, the commands that
      the page sends, executed in order, leave the chassis driving as the last visited cell
      decides. */
  lemma ChassisFollowsPointer(s: State, es: seq<Page.PointerEvent>)
    ensures var c := LastCell(es);
            Chassis.Decide(c.x, c.y).Some? &&
            Drives(Run(s, Commands(SentCells(es))), Chassis.Decide(c.x, c.y).value)
  {
    LastSentDrives(s, SentCells(es), LastCell(es));
  }

  /** In pixels: after any events that end with the pointer in column `column` and row `row`, the eight
      motor pins stand where the stick table sends them. */
  lemma PinsFollowPointer(s: State, es: seq<Page.PointerEvent>, x: int, y: int, column: nat, row: nat)
    requires es != [] && es[|es| - 1] == Page.Point(x, y) && Page.InBand(x, column) && Page.InBand(y, row)
    ensures var pins := {16, 17, 32, 33, 13, 15, 0, 2};
            Some(RobotRuns.Only(Run(s, Commands(SentCells(es))).levels, pins)) == StickPins(column, row)
  {
    Page.CellBands(x, y);
    assert Page.Cell(column, row) == LastCell(es);
    ChassisFollowsPointer(s, es);
    StickAgrees(column, row);
  }

  lemma LastSentDrives(s: State, cs: seq<Page.Cell>, c: Page.Cell)
    requires forall i :: 0 <= i < |cs| ==> cs[i].x <= 10 && cs[i].y <= 10
    requires cs != [] && cs[|cs| - 1] == c
    ensures Chassis.Decide(c.x, c.y).Some? && Drives(Run(s, Commands(cs)), Chassis.Decide(c.x, c.y).value)
  {
    var sent := Commands(cs);
    assert sent[|sent| - 1] == CommandOf(c);
    LastCellDrives(s, sent, c);
  }

  /** After any release all four motors brake: every chassis pin is high. */
  lemma ReleaseBrakes(s: State, es: seq<Page.PointerEvent>)
    requires es != [] && es[|es| - 1].Release?
    ensures forall p :: p in Chassis.CHASSIS_PINS ==> Level(Run(s, Commands(SentCells(es))).levels, p) == 1
  {
    ChassisFollowsPointer(s, es);
    var l := Run(s, Commands(SentCells(es))).levels;
    assert Drives(Run(s, Commands(SentCells(es))), Chassis.Brake);
    forall p | p in Chassis.CHASSIS_PINS ensures Level(l, p) == 1 {
      BrakePin(l, p);
    }
  }

  lemma BrakePin(l: Levels, p: Pin)
    requires p in Chassis.CHASSIS_PINS
    requires RobotRuns.Only(l, Chassis.CHASSIS_PINS) == Chassis.MotionPins(Chassis.Brake)
    ensures Level(l, p) == 1
  {
    assert p in RobotRuns.Only(l, Chassis.CHASSIS_PINS);
    assert RobotRuns.Only(l, Chassis.CHASSIS_PINS)[p] == l[p];
  }

  // ----- Sending a repeated cell again would change nothing -----

  lemma DriveTwice(s: State, m: Chassis.Motion)
    ensures Apply(Apply(s, Drive(m)), Drive(m)) == Apply(s, Drive(m))
  {
    var l, p := s.levels, Chassis.MotionPins(m);
    assert l + p + p == l + p;
  }

  lemma {:induction false} DedupRun<T>(s: State, f: T -> Command, cs: seq<T>)
    requires forall i :: 0 <= i < |cs| ==> f(cs[i]).Drive?
    ensures Run(s, Mapped(f, Page.Dedup(cs))) == Run(s, Mapped(f, cs))
    decreases |cs|
  {
    if |cs| > 1 {
      var init, c := cs[..|cs| - 1], cs[|cs| - 1];
      DedupRun(s, f, init);
      RunLast(s, Mapped(f, init), f(c));
      if c == cs[|cs| - 2] {
        RepeatAbsorbed(s, f, init);
      } else {
        var kept := Page.Dedup(init);
        assert (kept + [c])[..|kept|] == kept;
        RunLast(s, Mapped(f, kept), f(c));
      }
    }
  }

  lemma RepeatAbsorbed<T>(s: State, f: T -> Command, cs: seq<T>)
    requires cs != [] && f(cs[|cs| - 1]).Drive?
    ensures Apply(Run(s, Mapped(f, cs)), f(cs[|cs| - 1])) == Run(s, Mapped(f, cs))
  {
    var init, c := cs[..|cs| - 1], cs[|cs| - 1];
    RunLast(s, Mapped(f, init), f(c));
    DriveTwice(Run(s, Mapped(f, init)), f(c).m);
  }

  lemma CellIsDrive(c: Page.Cell)
    requires c.x <= 10 && c.y <= 10
    ensures CommandOf(c).Drive?
  {
    RecordDrives(c);
    Chassis.DecisionSymmetry(c.x, c.y);
  }

  /** From every state, the cells without their adjacent repeats take the robot to the same state as
      all cells visited. */
  lemma DedupPreservesMeaning(s: State, cs: seq<Page.Cell>)
    requires forall i :: 0 <= i < |cs| ==> cs[i].x <= 10 && cs[i].y <= 10
    ensures Run(s, Commands(Page.Dedup(cs))) == Run(s, Commands(cs))
  {
    forall i | 0 <= i < |cs| ensures CommandOf(cs[i]).Drive? {
      CellIsDrive(cs[i]);
    }
    DedupRun(s, CommandOf, cs);
  }

  // ----- Through the mailbox -----

  /** What each handler posts. */
  type Records = Mailbox.Handler -> UrlString

  /** The consumer executes the records of the handlers it heard from, in that order. */
  function Executed(records: Records, hs: seq<Mailbox.Handler>): (cs: seq<Command>)
    ensures |cs| == |hs|
    ensures forall i :: 0 <= i < |hs| ==> cs[i] == Classify(records(hs[i]))
  {
    seq(|hs|, i requires 0 <= i < |hs| => Classify(records(hs[i])))
  }

  /** The chassis after the consumer has executed what a mailbox run delivers to it. */
  ghost predicate EndsDriving(s: State, records: Records, es: seq<Mailbox.Event>, m: Chassis.Motion)
    requires Mailbox.Valid(es)
  {
    Drives(Run(s, Executed(records, Mailbox.Received(es))), m)
  }

  lemma LastReceivedDrives(s: State, records: Records, es: seq<Mailbox.Event>, c: Page.Cell)
    requires Mailbox.Valid(es) && Mailbox.Received(es) != []
    requires c.x <= 10 && c.y <= 10 && records(Mailbox.Last(Mailbox.Received(es))) == CellRecord(c)
    ensures Chassis.Decide(c.x, c.y).Some? && EndsDriving(s, records, es, Chassis.Decide(c.x, c.y).value)
  {
    LastExecutedDrives(s, records, Mailbox.Received(es), c);
  }

  lemma LastExecutedDrives(s: State, records: Records, hs: seq<Mailbox.Handler>, c: Page.Cell)
    requires hs != [] && c.x <= 10 && c.y <= 10 && records(Mailbox.Last(hs)) == CellRecord(c)
    ensures Chassis.Decide(c.x, c.y).Some? && Drives(Run(s, Executed(records, hs)), Chassis.Decide(c.x, c.y).value)
  {
    LastCellDrives(s, Executed(records, hs), c);
  }

  /** Over every interleaving of handlers and consumer that has come to rest, if the last command to
      enter the mailbox was a joystick cell, the chassis drives as that cell decides, however many
      commands the resets threw away before it. */
  lemma LastSentCellDrives(s: State, records: Records, es: seq<Mailbox.Event>, c: Page.Cell)
    requires Mailbox.Valid(es) && Mailbox.Quiescent(Mailbox.After(es)) && Mailbox.Sent(es) != []
    requires c.x <= 10 && c.y <= 10 && records(Mailbox.Last(Mailbox.Sent(es))) == CellRecord(c)
    ensures Chassis.Decide(c.x, c.y).Some? && EndsDriving(s, records, es, Chassis.Decide(c.x, c.y).value)
  {
    Mailbox.LastSenderWins(es);
    LastReceivedDrives(s, records, es, c);
  }

  // ----- When is the last reset sure to decide the chassis? -----

  /** Whatever the other handlers post, every continuation of `h`'s reset without another reset that
      comes to rest leaves the chassis driving as `h`'s cell decides. */
  ghost predicate SurelyDrives(s: State, es: seq<Mailbox.Event>, h: Mailbox.Handler, c: Page.Cell)
    requires Mailbox.Valid(es) && Mailbox.InPhase(Mailbox.After(es), h, Mailbox.Parsing)
    requires Chassis.Decide(c.x, c.y).Some?
  {
    forall records: Records, longer ::
      records(h) == CellRecord(c) && Mailbox.Valid(longer) &&
      Mailbox.Continues(es + [Mailbox.Reset(h)], longer) && Mailbox.Quiescent(Mailbox.After(longer)) ==>
        EndsDriving(s, records, longer, Chassis.Decide(c.x, c.y).value)
  }

  lemma MotionPinsInjective(m: Chassis.Motion, n: Chassis.Motion)
    requires Chassis.MotionPins(m) == Chassis.MotionPins(n)
    ensures m == n
  {
    forall w ensures Chassis.Spin(m, w) == Chassis.Spin(n, w) {
      Chassis.DriveOfMotion(map[], m, w);
      Chassis.DriveOfMotion(map[], n, w);
    }
    SpinsInjective(m, n);
  }

  lemma SpinsInjective(m: Chassis.Motion, n: Chassis.Motion)
    requires forall w :: Chassis.Spin(m, w) == Chassis.Spin(n, w)
    ensures m == n
  {
    assert Chassis.Spin(m, Chassis.A) == Chassis.Spin(n, Chassis.A);
    assert Chassis.Spin(m, Chassis.B) == Chassis.Spin(n, Chassis.B);
    assert Chassis.Spin(m, Chassis.C) == Chassis.Spin(n, Chassis.C);
  }

  /** A cell that drives otherwise than `c`: full ahead against a stop, a stop against everything else. */
  function Rival(c: Page.Cell): (r: Page.Cell)
    ensures r.x <= 10 && r.y <= 10 && Chassis.Decide(r.x, r.y) != Chassis.Decide(c.x, c.y)
  {
    if c == Page.CENTER then Page.Cell(5, 0) else Page.CENTER
  }

  /** Handler `h` posts cell `c`, all others its rival. */
  function Rivals(h: Mailbox.Handler, c: Page.Cell): (records: Records)
    ensures forall x :: records(x) == CellRecord(if x == h then c else Rival(c))
  {
    (x: Mailbox.Handler) => CellRecord(if x == h then c else Rival(c))
  }

  /** A handler between reset and send when `h` resets can take the chassis away from `h`'s cell. */
  lemma CellOvertaken(s: State, es: seq<Mailbox.Event>, h: Mailbox.Handler, c: Page.Cell, g: Mailbox.Handler)
    returns (longer: seq<Mailbox.Event>)
    requires Mailbox.Valid(es) && Mailbox.InPhase(Mailbox.After(es), h, Mailbox.Parsing)
    requires c.x <= 10 && c.y <= 10 && g in Mailbox.Between(Mailbox.After(es))
    ensures Mailbox.Valid(longer) && Mailbox.Continues(es + [Mailbox.Reset(h)], longer)
    ensures Mailbox.Quiescent(Mailbox.After(longer)) && Chassis.Decide(c.x, c.y).Some?
    ensures !EndsDriving(s, Rivals(h, c), longer, Chassis.Decide(c.x, c.y).value)
  {
    longer := Mailbox.Overtaken(es, h, g);
    var r := Rival(c);
    LastReceivedDrives(s, Rivals(h, c), longer, r);
    Chassis.DecisionSymmetry(c.x, c.y);
    var m, n := Chassis.Decide(c.x, c.y).value, Chassis.Decide(r.x, r.y).value;
    if Chassis.MotionPins(m) == Chassis.MotionPins(n) {
      MotionPinsInjective(m, n);
    }
  }

  /** The cell of the handler that resets last, the stop included, is sure to decide the chassis if
      and only if no other handler is between reset and send when it resets. */
  lemma CellSureIff(s: State, es: seq<Mailbox.Event>, h: Mailbox.Handler, c: Page.Cell)
    requires Mailbox.Valid(es) && Mailbox.InPhase(Mailbox.After(es), h, Mailbox.Parsing)
    requires c.x <= 10 && c.y <= 10
    ensures Chassis.Decide(c.x, c.y).Some?
    ensures SurelyDrives(s, es, h, c) <==> Mailbox.Between(Mailbox.After(es)) == {}
  {
    Chassis.DecisionSymmetry(c.x, c.y);
    if Mailbox.Between(Mailbox.After(es)) == {} {
      Mailbox.ExecutedLastIff(es, h);
      forall records: Records, longer |
        records(h) == CellRecord(c) && Mailbox.Valid(longer) &&
        Mailbox.Continues(es + [Mailbox.Reset(h)], longer) && Mailbox.Quiescent(Mailbox.After(longer))
        ensures EndsDriving(s, records, longer, Chassis.Decide(c.x, c.y).value)
      {
        assert Mailbox.SurelyLast(es, h);
        LastReceivedDrives(s, records, longer, c);
      }
    } else {
      var g :| g in Mailbox.Between(Mailbox.After(es));
      var longer := CellOvertaken(s, es, h, c, g);
      assert Rivals(h, c)(h) == CellRecord(c);
    }
  }

  /** A stop that resets the mailbox last can still be overtaken: both handlers finish, everything is
      delivered, and the robot keeps driving forward. */
  lemma StopOvertaken() returns (es: seq<Mailbox.Event>)
    ensures Mailbox.Valid(es) && Mailbox.Quiescent(Mailbox.After(es)) && |es| == 8
    ensures es[3] == Mailbox.Reset(1) && forall k :: 3 < k < |es| ==> !es[k].Reset?
    ensures Rivals(1, Page.CENTER)(1) == CellRecord(Page.CENTER)
    ensures EndsDriving(BOOT, Rivals(1, Page.CENTER), es, Chassis.Forward)
  {
    es := Mailbox.OvertakenAfterReset();
    LastReceivedDrives(BOOT, Rivals(1, Page.CENTER), es, Page.Cell(5, 0));
  }
}
