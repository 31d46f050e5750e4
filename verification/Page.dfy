/** The joystick of the control page: pointer positions become grid cells, and a cell is sent only
    when it differs from the last one sent. */
module Page {
  import opened CStrings
  import opened Decimal

  const WIDTH := 600
  const HEIGHT := 600
  const CENTER_X := 300
  const CENTER_Y := 300
  const CELL_SIZE := 60            // center_x / 5 and center_y / 5

  datatype Cell = Cell(x: nat, y: nat)

  /** What reaches `new_coordinate`: a position of the pointer, or its release. */
  datatype PointerEvent = Point(x: int, y: int) | Release

  const CENTER := Cell(5, 5)

  /** The cell of a position: clamped to the canvas, eleven cells each way. */
  function CellOf(x: int, y: int): (c: Cell)
    ensures c.x <= 10 && c.y <= 10
  {
    Cell(Clamped(x, WIDTH) / CELL_SIZE, Clamped(y, HEIGHT) / CELL_SIZE)
  }

  function Clamped(v: int, size: int): (r: int)
    requires size > 0
    ensures 0 <= r <= size
    ensures 0 <= v <= size ==> r == v
  {
    if v >= size then size else if v <= 0 then 0 else v
  }

  function EventCell(e: PointerEvent): Cell {
    if e.Release? then CellOf(CENTER_X, CENTER_Y) else CellOf(e.x, e.y)
  }

  function Cells(es: seq<PointerEvent>): (cs: seq<Cell>)
    ensures |cs| == |es|
    ensures forall i :: 0 <= i < |es| ==> cs[i] == EventCell(es[i])
  {
    seq(|es|, i requires 0 <= i < |es| => EventCell(es[i]))
  }

  /** The path requested for a cell. */
  function Url(c: Cell): string {
    "/rocker?val=" + PrefixZero(c.x, 2) + PrefixZero(c.y, 2)
  }

  /** The path of a cell spells two digits for the column and two for the row. */
  lemma PathDigits(c: Cell)
    requires c.x < 100 && c.y < 100
    ensures Url(c) == "/rocker?val=" + [DigitChar(c.x / 10), DigitChar(c.x % 10), DigitChar(c.y / 10), DigitChar(c.y % 10)]
  {
    TwoDigitText(c.x);
    TwoDigitText(c.y);
  }

  /** The path of the middle cell. */
  lemma MiddlePath(c: Cell)
    requires 4 < c.x < 6 && 4 < c.y < 6
    ensures Urls([c]) == ["/rocker?val=0505"]
  {
    PathDigits(c);
    DigitsOfFive(c.x);
    DigitsOfFive(c.y);
    MiddleText(DigitChar(c.x / 10), DigitChar(c.x % 10));
    OneUrl(c);
  }

  lemma DigitsOfFive(n: nat)
    requires 4 < n < 6
    ensures DigitChar(n / 10) == '0' && DigitChar(n % 10) == '5'
  {
  }

  lemma MiddleText(tens: char, ones: char)
    requires tens == '0' && ones == '5'
    ensures "/rocker?val=" + [tens, ones, tens, ones] == "/rocker?val=0505"
  {
  }

  lemma OneUrl(c: Cell)
    ensures Urls([c]) == [Url(c)]
  {
    UrlsAppend([], c);
    assert [] + [c] == [c] && Urls([]) + [Url(c)] == [Url(c)];
  }

  function Urls(cs: seq<Cell>): (us: seq<string>)
    ensures |us| == |cs|
  {
    if cs == [] then [] else Urls(cs[..|cs| - 1]) + [Url(cs[|cs| - 1])]
  }

  lemma UrlsAppend(cs: seq<Cell>, c: Cell)
    ensures Urls(cs + [c]) == Urls(cs) + [Url(c)]
  {
    assert (cs + [c])[..|cs|] == cs;
  }

  // ----- Removing adjacent repeats -----

  function Dedup<T(==)>(cs: seq<T>): (r: seq<T>)
    ensures cs != [] ==> r != [] && r[|r| - 1] == cs[|cs| - 1]
    decreases |cs|
  {
    if |cs| <= 1 then cs else
    var init := Dedup(cs[..|cs| - 1]);
    if cs[|cs| - 1] == cs[|cs| - 2] then init else init + [cs[|cs| - 1]]
  }

  ghost predicate NoRepeats<T>(cs: seq<T>) {
    forall i, j :: 0 <= i && j == i + 1 && j < |cs| ==> cs[i] != cs[j]
  }

  /** The result has no adjacent repeats and starts as the input does. */
  lemma {:induction false} DedupProperties<T>(cs: seq<T>)
    ensures NoRepeats(Dedup(cs))
    ensures cs != [] ==> Dedup(cs) != [] && Dedup(cs)[0] == cs[0]
    decreases |cs|
  {
    if |cs| > 1 {
      DedupProperties(cs[..|cs| - 1]);
    }
  }

  /** A sequence without adjacent repeats is kept as it is. */
  lemma {:induction false} DedupKeeps<T>(cs: seq<T>)
    requires NoRepeats(cs)
    ensures Dedup(cs) == cs
    decreases |cs|
  {
    if |cs| > 1 {
      var init, last := cs[..|cs| - 1], cs[|cs| - 1];
      DedupKeeps(init);
      assert cs[|cs| - 2] != last;
      assert cs == init + [last];
    }
  }

  lemma {:induction false} DedupPrefix<T>(cs: seq<T>, i: nat)
    requires i < |cs|
    ensures Dedup(cs[..i + 1]) <= Dedup(cs)
    decreases |cs|
  {
    if i == |cs| - 1 {
      assert cs[..i + 1] == cs;
    } else {
      var init := cs[..|cs| - 1];
      assert init[..i + 1] == cs[..i + 1];
      DedupPrefix(init, i);
    }
  }

  /** Nothing else is removed: the cells visited up to step `i` leave a prefix of the result that ends
      in cell `i`, and step `i` lengthens it by one exactly when it enters a new cell. */
  lemma DedupStutters<T>(cs: seq<T>, i: nat)
    requires i < |cs|
    ensures Dedup(cs[..i + 1]) <= Dedup(cs)
    ensures Dedup(cs[..i + 1]) != [] && Dedup(cs)[|Dedup(cs[..i + 1])| - 1] == cs[i]
    ensures i > 0 ==> |Dedup(cs[..i + 1])| == |Dedup(cs[..i])| + if cs[i] == cs[i - 1] then 0 else 1
  {
    var upTo := cs[..i + 1];
    assert upTo != [] && upTo[|upTo| - 1] == cs[i];
    var part := Dedup(upTo);
    assert part != [] && part[|part| - 1] == cs[i];
    DedupPrefix(cs, i);
    if i > 0 {
      DedupNext(cs, i - 1);
    }
  }

  /** Pixel `v` of an axis lies in column or row `n` of sixty pixels each; positions outside the
      600-pixel canvas count as its border. */
  ghost predicate InBand(v: int, n: nat) {
    && (v <= 0 ==> n == 0)
    && (v >= 600 ==> n == 10)
    && (0 <= v <= 600 ==> 60 * n <= v < 60 * n + 60)
  }

  lemma CellBands(x: int, y: int)
    ensures InBand(x, CellOf(x, y).x) && InBand(y, CellOf(x, y).y)
    ensures forall c: Cell :: InBand(x, c.x) && InBand(y, c.y) ==> c == CellOf(x, y)
  {
    forall c: Cell | InBand(x, c.x) && InBand(y, c.y) ensures c == CellOf(x, y) {
      BandUnique(x, c.x, CellOf(x, y).x);
      BandUnique(y, c.y, CellOf(x, y).y);
    }
  }

  lemma BandUnique(v: int, m: nat, n: nat)
    requires InBand(v, m) && InBand(v, n)
    ensures m == n
  {
  }

  /** The clamping and gridding part of `new_coordinate`. */
  method Grid(x: int, y: int) returns (c: Cell)
    ensures InBand(x, c.x) && InBand(y, c.y) && c == CellOf(x, y)
  {
    CellBands(x, y);
    var nowX, nowY := x, y;
    if nowX >= WIDTH {
      nowX := WIDTH;
    }
    if nowY >= HEIGHT {
      nowY := HEIGHT;
    }
    if nowX <= 0 {
      nowX := 0;
    }
    if nowY <= 0 {
      nowY := 0;
    }
    nowX := nowX / CELL_SIZE;
    nowY := nowY / CELL_SIZE;
    c := Cell(nowX, nowY);
  }

  lemma {:induction false} DedupNext<T>(cs: seq<T>, i: nat)
    requires i + 1 < |cs|
    ensures Dedup(cs[..i + 2]) ==
            if cs[i + 1] == cs[i] then Dedup(cs[..i + 1]) else Dedup(cs[..i + 1]) + [cs[i + 1]]
  {
    var upTo := cs[..i + 2];
    assert upTo[..i + 1] == cs[..i + 1];
  }

  class Joystick {
    var last: Option<Cell>         // LastX, LastY; undefined until the first call
    var sent: seq<Cell>            // cells requested so far
    var urls: seq<string>          // and the paths requested for them

    ghost predicate Valid()
      reads this
    {
      && urls == Urls(sent)
      && last == if sent == [] then None else Some(sent[|sent| - 1])
    }

    /** Loading the page draws the handle in the middle before LastX and LastY exist, so the
        middle cell is requested once. */
    constructor ()
      ensures Valid() && sent == [CENTER] && urls == ["/rocker?val=0505"]
    {
      last, sent, urls := None, [], [];
      new;
      NewCoordinate(CENTER_X, CENTER_Y);
      MiddlePath(sent[0]);
      last := Some(Cell(CENTER_X / CELL_SIZE, CENTER_Y / CELL_SIZE));
    }

    /** `new_coordinate`. */
    method NewCoordinate(x: int, y: int)
      requires Valid()
      modifies this
      ensures Valid() && sent == After(old(sent), CellOf(x, y))
    {
      var c := Grid(x, y);
      Request(c);
    }

    /** Sends a cell unless it is the last one sent. */
    method Request(c: Cell)
      requires Valid()
      modifies this
      ensures Valid() && sent == After(old(sent), c)
    {
      if last != Some(c) {
        UrlsAppend(sent, c);
        urls := urls + [Url(c)];
        sent := sent + [c];
        last := Some(c);
      }
    }

    method OnEvent(e: PointerEvent)
      requires Valid()
      modifies this
      ensures Valid() && sent == After(old(sent), EventCell(e))
    {
      match e {
        case Point(x, y) => NewCoordinate(x, y);
        case Release => NewCoordinate(CENTER_X, CENTER_Y);
      }
    }

    /** Any sequence of pointer events after loading: the cells requested are the cells visited,
        the initial middle included, without adjacent repeats. */
    method Drag(es: seq<PointerEvent>)
      requires Valid() && sent == [CENTER]
      modifies this
      ensures Valid() && sent == Dedup([CENTER] + Cells(es))
    {
      ghost var visited := [CENTER] + Cells(es);
      assert visited[..1] == [CENTER];
      for i := 0 to |es|
        invariant Valid() && sent == Dedup(visited[..i + 1])
      {
        assert visited[i + 1] == EventCell(es[i]);
        DedupAfter(visited, i);
        OnEvent(es[i]);
      }
      assert visited[..|es| + 1] == visited;
    }
  }

  /** A cell appended unless it repeats the last one. */
  ghost function After(sent: seq<Cell>, c: Cell): seq<Cell> {
    if sent != [] && sent[|sent| - 1] == c then sent else sent + [c]
  }

  lemma DedupAfter(cs: seq<Cell>, i: nat)
    requires i + 1 < |cs|
    ensures Dedup(cs[..i + 2]) == After(Dedup(cs[..i + 1]), cs[i + 1])
  {
    DedupNext(cs, i);
    assert cs[..i + 1][i] == cs[i];
  }
}
