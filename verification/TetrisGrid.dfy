/**
  Tetris boards as values: pieces, settled cells, full lines and their removal
  (Piece.h, Board.h).  The imperative board is proved against these functions.
*/
module TetrisGrid {

  const BOARD_HEIGHT: nat := 22
  const BOARD_WIDTH: nat := 10
  const INVISIBLE_ROWS: nat := 2
  const EMPTY_FIELD: int := 0

  datatype Point = Point(x: int, y: int)

  type Body = seq<Point>

  /** A kind of piece: its cells in each of four rotations, within a 4x4 frame, and its colour. */
  datatype Shape = Shape(bodies: seq<Body>, color: int)

  /** The cell at j differs from all before it. */
  ghost predicate FirstAt(cells: seq<Point>, j: nat)
    requires j < |cells|
  {
    forall i :: 0 <= i < j ==> cells[i] != cells[j]
  }

  ghost predicate FourDistinct(cells: seq<Point>) {
    |cells| == 4 && forall j :: 0 <= j < 4 ==> FirstAt(cells, j)
  }

  ghost predicate InFrameAt(b: Body, i: nat)
    requires i < |b|
  {
    0 <= b[i].x < 4 && 0 <= b[i].y < 4
  }

  ghost predicate InFrame(b: Body) { forall i :: 0 <= i < |b| ==> InFrameAt(b, i) }

  /** What the game needs of a shape: four distinct cells in the frame; unrotated, in its two upper rows. */
  ghost predicate IsTetrimino(s: Shape) {
    |s.bodies| == 4 && s.color != EMPTY_FIELD &&
    (forall r :: 0 <= r < 4 ==> FourDistinct(s.bodies[r]) && InFrame(s.bodies[r])) &&
    forall i :: 0 <= i < 4 ==> s.bodies[0][i].y < INVISIBLE_ROWS
  }

  /** The bodies of the seven pieces I, J, L, O, S, T and Z. */
  function Bodies(kind: nat): seq<Body> {
    match kind
    case 0 => [[Point(0,1), Point(1,1), Point(2,1), Point(3,1)], [Point(2,0), Point(2,1), Point(2,2), Point(2,3)],
               [Point(0,2), Point(1,2), Point(2,2), Point(3,2)], [Point(1,0), Point(1,1), Point(1,2), Point(1,3)]]
    case 1 => [[Point(0,0), Point(0,1), Point(1,1), Point(2,1)], [Point(1,2), Point(1,1), Point(1,0), Point(2,0)],
               [Point(0,1), Point(1,1), Point(2,1), Point(2,2)], [Point(0,2), Point(1,2), Point(1,1), Point(1,0)]]
    case 2 => [[Point(0,1), Point(1,1), Point(2,1), Point(2,0)], [Point(1,2), Point(1,1), Point(1,0), Point(2,2)],
               [Point(0,1), Point(1,1), Point(2,1), Point(0,2)], [Point(0,0), Point(1,2), Point(1,1), Point(1,0)]]
    case 3 => [[Point(1,0), Point(1,1), Point(2,0), Point(2,1)], [Point(1,0), Point(1,1), Point(2,0), Point(2,1)],
               [Point(1,0), Point(1,1), Point(2,0), Point(2,1)], [Point(1,0), Point(1,1), Point(2,0), Point(2,1)]]
    case 4 => [[Point(0,1), Point(1,1), Point(1,0), Point(2,0)], [Point(1,0), Point(1,1), Point(2,1), Point(2,2)],
               [Point(0,2), Point(1,2), Point(1,1), Point(2,1)], [Point(0,0), Point(0,1), Point(1,1), Point(1,2)]]
    case 5 => [[Point(0,1), Point(1,1), Point(2,1), Point(1,0)], [Point(1,0), Point(1,1), Point(1,2), Point(2,1)],
               [Point(0,1), Point(1,1), Point(2,1), Point(1,2)], [Point(1,0), Point(1,1), Point(1,2), Point(0,1)]]
    case _ => [[Point(2,1), Point(1,1), Point(1,0), Point(0,0)], [Point(1,2), Point(1,1), Point(2,1), Point(2,0)],
               [Point(2,2), Point(1,2), Point(1,1), Point(0,1)], [Point(0,2), Point(0,1), Point(1,1), Point(1,0)]]
  }

  /** Light cyan, light blue, green, yellow, light green, magenta and light magenta. */
  function Color(kind: nat): int {
    match kind
    case 0 => 0x0B
    case 1 => 0x09
    case 2 => 0x02
    case 3 => 0x0E
    case 4 => 0x0A
    case 5 => 0x05
    case _ => 0x0D
  }

  function ShapeOf(kind: nat): Shape { Shape(Bodies(kind), Color(kind)) }

  lemma ShapesAreTetriminos(kind: nat)
    ensures IsTetrimino(ShapeOf(kind))
  {
    match kind
    case 0 => ShapeI();
    case 1 => ShapeJ();
    case 2 => ShapeL();
    case 3 => ShapeO();
    case 4 => ShapeS();
    case 5 => ShapeT();
    case _ =>
      assert ShapeOf(kind) == ShapeOf(6);
      ShapeZ();
  }

  lemma GoodBody(b: Body)
    requires |b| == 4 && b[0] != b[1] && b[0] != b[2] && b[0] != b[3] && b[1] != b[2] && b[1] != b[3] && b[2] != b[3]
    requires InFrameAt(b, 0) && InFrameAt(b, 1) && InFrameAt(b, 2) && InFrameAt(b, 3)
    ensures FourDistinct(b) && InFrame(b)
  {
  }

  lemma GoodShape(kind: nat)
    requires |Bodies(kind)| == 4 && |Bodies(kind)[0]| == 4 && Color(kind) != EMPTY_FIELD
    requires forall r :: 0 <= r < 4 ==> FourDistinct(Bodies(kind)[r]) && InFrame(Bodies(kind)[r])
    requires forall i :: 0 <= i < 4 ==> Bodies(kind)[0][i].y < INVISIBLE_ROWS
    ensures IsTetrimino(ShapeOf(kind))
  {
  }

  lemma ShapeI()
    ensures IsTetrimino(ShapeOf(0))
  {
    hide FourDistinct, InFrame;
    GoodBody(Bodies(0)[0]);
    GoodBody(Bodies(0)[1]);
    GoodBody(Bodies(0)[2]);
    GoodBody(Bodies(0)[3]);
    GoodShape(0);
  }

  lemma ShapeJ()
    ensures IsTetrimino(ShapeOf(1))
  {
    hide FourDistinct, InFrame;
    GoodBody(Bodies(1)[0]);
    GoodBody(Bodies(1)[1]);
    GoodBody(Bodies(1)[2]);
    GoodBody(Bodies(1)[3]);
    GoodShape(1);
  }

  lemma ShapeL()
    ensures IsTetrimino(ShapeOf(2))
  {
    hide FourDistinct, InFrame;
    GoodBody(Bodies(2)[0]);
    GoodBody(Bodies(2)[1]);
    GoodBody(Bodies(2)[2]);
    GoodBody(Bodies(2)[3]);
    GoodShape(2);
  }

  lemma ShapeO()
    ensures IsTetrimino(ShapeOf(3))
  {
    hide FourDistinct, InFrame;
    GoodBody(Bodies(3)[0]);
    GoodBody(Bodies(3)[1]);
    GoodBody(Bodies(3)[2]);
    GoodBody(Bodies(3)[3]);
    GoodShape(3);
  }

  lemma ShapeS()
    ensures IsTetrimino(ShapeOf(4))
  {
    hide FourDistinct, InFrame;
    GoodBody(Bodies(4)[0]);
    GoodBody(Bodies(4)[1]);
    GoodBody(Bodies(4)[2]);
    GoodBody(Bodies(4)[3]);
    GoodShape(4);
  }

  lemma ShapeT()
    ensures IsTetrimino(ShapeOf(5))
  {
    hide FourDistinct, InFrame;
    GoodBody(Bodies(5)[0]);
    GoodBody(Bodies(5)[1]);
    GoodBody(Bodies(5)[2]);
    GoodBody(Bodies(5)[3]);
    GoodShape(5);
  }

  lemma ShapeZ()
    ensures IsTetrimino(ShapeOf(6))
  {
    hide FourDistinct, InFrame;
    GoodBody(Bodies(6)[0]);
    GoodBody(Bodies(6)[1]);
    GoodBody(Bodies(6)[2]);
    GoodBody(Bodies(6)[3]);
    GoodShape(6);
  }

  /** A piece on the board. */
  datatype Placement = Placement(shape: Shape, rotation: nat, pos: Point)

  ghost predicate WellFormed(p: Placement) { IsTetrimino(p.shape) && p.rotation < 4 }

  function At(c: Point, pos: Point): Point { Point(c.x + pos.x, c.y + pos.y) }

  function Shifted(b: Body, pos: Point): (cells: seq<Point>) {
    seq(|b|, i requires 0 <= i < |b| => At(b[i], pos))
  }

  /** The board cells a piece covers. */
  function Cells(p: Placement): (cells: seq<Point>) {
    if p.rotation < |p.shape.bodies| then Shifted(p.shape.bodies[p.rotation], p.pos) else []
  }

  lemma CellsDistinct(p: Placement)
    requires WellFormed(p)
    ensures FourDistinct(Cells(p))
  {
    var body := p.shape.bodies[p.rotation];
    assert FourDistinct(body);
    forall j | 0 <= j < 4
      ensures FirstAt(Cells(p), j)
    {
      assert FirstAt(body, j);
    }
  }

  predicate OnBoard(c: Point) { 0 <= c.x < BOARD_WIDTH && 0 <= c.y < BOARD_HEIGHT }

  predicate AllOnBoard(cells: seq<Point>) { forall i :: 0 <= i < |cells| ==> OnBoard(cells[i]) }

  type Row = seq<int>
  type Grid = seq<Row>

  predicate Shaped(g: Grid) {
    |g| == BOARD_HEIGHT && forall y :: 0 <= y < BOARD_HEIGHT ==> |g[y]| == BOARD_WIDTH
  }

  predicate FreeAt(g: Grid, c: Point) {
    0 <= c.y < |g| && 0 <= c.x < |g[c.y]| && g[c.y][c.x] == EMPTY_FIELD
  }

  predicate FreeCell(g: Grid, cells: seq<Point>, i: nat)
    requires i < |cells|
  {
    FreeAt(g, cells[i])
  }

  predicate AllFree(g: Grid, cells: seq<Point>) { forall i :: 0 <= i < |cells| ==> FreeCell(g, cells, i) }

  /** The piece lies on the board and on free cells. */
  predicate Fits(g: Grid, p: Placement) { AllFree(g, Cells(p)) }

  function Moved(p: Placement, dx: int, dy: int): Placement {
    p.(pos := Point(p.pos.x + dx, p.pos.y + dy))
  }

  function Turned(p: Placement): Placement {
    p.(rotation := (p.rotation + 1) % 4)
  }

  const START := Point(4, 0)

  function Spawn(shape: Shape): Placement { Placement(shape, 0, START) }

  // ----- settling a piece

  function SetCell(g: Grid, c: Point, v: int): (r: Grid) {
    if 0 <= c.y < |g| && 0 <= c.x < |g[c.y]| then g[c.y := g[c.y][c.x := v]] else g
  }

  /** The first n cells take the value v. */
  function StampTo(g: Grid, cells: seq<Point>, v: int, n: nat): (r: Grid) {
    if n == 0 || n > |cells| then g else SetCell(StampTo(g, cells, v, n - 1), cells[n - 1], v)
  }

  function Stamp(g: Grid, cells: seq<Point>, v: int): (r: Grid) { StampTo(g, cells, v, |cells|) }

  lemma {:induction false} StampToAt(g: Grid, cells: seq<Point>, v: int, n: nat)
    requires Shaped(g) && AllOnBoard(cells) && n <= |cells|
    ensures Shaped(StampTo(g, cells, v, n))
    ensures forall x, y :: 0 <= y < BOARD_HEIGHT && 0 <= x < BOARD_WIDTH ==>
      StampTo(g, cells, v, n)[y][x] == if Point(x, y) in cells[..n] then v else g[y][x]
  {
    if n > 0 {
      StampToAt(g, cells, v, n - 1);
      assert cells[..n] == cells[..n - 1] + [cells[n - 1]];
    }
  }

  lemma StampAt(g: Grid, cells: seq<Point>, v: int)
    requires Shaped(g) && AllOnBoard(cells)
    ensures Shaped(Stamp(g, cells, v))
    ensures forall x, y :: 0 <= y < BOARD_HEIGHT && 0 <= x < BOARD_WIDTH ==>
      Stamp(g, cells, v)[y][x] == if Point(x, y) in cells then v else g[y][x]
  {
    StampToAt(g, cells, v, |cells|);
    assert cells[..|cells|] == cells;
  }

  /** As StampTo, but the cells in the hidden rows are left alone. */
  function StampVisibleTo(g: Grid, cells: seq<Point>, v: int, n: nat): (r: Grid) {
    if n == 0 || n > |cells| then g
    else
      var before := StampVisibleTo(g, cells, v, n - 1);
      if cells[n - 1].y >= INVISIBLE_ROWS then SetCell(before, cells[n - 1], v) else before
  }

  function StampVisible(g: Grid, cells: seq<Point>, v: int): (r: Grid) { StampVisibleTo(g, cells, v, |cells|) }

  lemma {:induction false} StampVisibleToAt(g: Grid, cells: seq<Point>, v: int, n: nat)
    requires Shaped(g) && AllOnBoard(cells) && n <= |cells|
    ensures Shaped(StampVisibleTo(g, cells, v, n))
    ensures forall x, y :: 0 <= y < BOARD_HEIGHT && 0 <= x < BOARD_WIDTH ==>
      StampVisibleTo(g, cells, v, n)[y][x] == if Point(x, y) in cells[..n] && y >= INVISIBLE_ROWS then v else g[y][x]
  {
    if n > 0 {
      StampVisibleToAt(g, cells, v, n - 1);
      assert cells[..n] == cells[..n - 1] + [cells[n - 1]];
    }
  }

  lemma StampVisibleAt(g: Grid, cells: seq<Point>, v: int)
    requires Shaped(g) && AllOnBoard(cells)
    ensures Shaped(StampVisible(g, cells, v))
    ensures forall x, y :: 0 <= y < BOARD_HEIGHT && 0 <= x < BOARD_WIDTH ==>
      StampVisible(g, cells, v)[y][x] == if Point(x, y) in cells && y >= INVISIBLE_ROWS then v else g[y][x]
  {
    StampVisibleToAt(g, cells, v, |cells|);
    assert cells[..|cells|] == cells;
  }

  lemma SameGrid(a: Grid, b: Grid)
    requires Shaped(a) && Shaped(b)
    requires forall x, y :: 0 <= y < BOARD_HEIGHT && 0 <= x < BOARD_WIDTH ==> a[y][x] == b[y][x]
    ensures a == b
  {
    forall y | 0 <= y < BOARD_HEIGHT
      ensures a[y] == b[y]
    {
    }
  }

  lemma FreeOnBoard(g: Grid, cells: seq<Point>)
    requires Shaped(g) && AllFree(g, cells)
    ensures AllOnBoard(cells)
    ensures forall x, y :: 0 <= y < BOARD_HEIGHT && 0 <= x < BOARD_WIDTH && Point(x, y) in cells ==>
      g[y][x] == EMPTY_FIELD
  {
    forall x, y | 0 <= y < BOARD_HEIGHT && 0 <= x < BOARD_WIDTH && Point(x, y) in cells
      ensures g[y][x] == EMPTY_FIELD
    {
      var i :| 0 <= i < |cells| && cells[i] == Point(x, y);
      assert FreeCell(g, cells, i);
    }
    forall i | 0 <= i < |cells|
      ensures OnBoard(cells[i])
    {
      assert FreeCell(g, cells, i);
    }
  }

  /** Blanking a piece, drawn or marked on free cells, leaves exactly the settled cells. */
  lemma LiftRestores(g: Grid, cells: seq<Point>, color: int)
    requires Shaped(g) && AllFree(g, cells)
    ensures Stamp(Stamp(g, cells, color), cells, EMPTY_FIELD) == g
    ensures Stamp(StampVisible(g, cells, color), cells, EMPTY_FIELD) == g
  {
    FreeOnBoard(g, cells);
    StampAt(g, cells, color);
    StampAt(Stamp(g, cells, color), cells, EMPTY_FIELD);
    SameGrid(Stamp(Stamp(g, cells, color), cells, EMPTY_FIELD), g);
    StampVisibleAt(g, cells, color);
    StampAt(StampVisible(g, cells, color), cells, EMPTY_FIELD);
    SameGrid(Stamp(StampVisible(g, cells, color), cells, EMPTY_FIELD), g);
  }

  lemma BlankNothing(g: Grid, cells: seq<Point>)
    requires Shaped(g) && AllFree(g, cells)
    ensures StampVisible(g, cells, EMPTY_FIELD) == g
  {
    FreeOnBoard(g, cells);
    StampVisibleAt(g, cells, EMPTY_FIELD);
    SameGrid(StampVisible(g, cells, EMPTY_FIELD), g);
  }

  /** Marking a drawn piece adds only its hidden cells. */
  lemma MarkAfterDraw(g: Grid, cells: seq<Point>, color: int)
    requires Shaped(g) && AllOnBoard(cells)
    ensures Stamp(StampVisible(g, cells, color), cells, color) == Stamp(g, cells, color)
  {
    StampAt(g, cells, color);
    StampVisibleAt(g, cells, color);
    StampAt(StampVisible(g, cells, color), cells, color);
    SameGrid(Stamp(StampVisible(g, cells, color), cells, color), Stamp(g, cells, color));
  }

  // ----- removing full lines

  predicate IsFull(row: Row) { EMPTY_FIELD !in row }

  function EmptyRow(): (row: Row)
    ensures |row| == BOARD_WIDTH && !IsFull(row)
  {
    [0, 0, 0, 0, 0, 0, 0, 0, 0, 0]
  }

  function EmptyRows(n: nat): (rows: seq<Row>)
    ensures |rows| == n
  {
    seq(n, _ => EmptyRow())
  }

  /** The rows from q on that are not full, in order. */
  function Remaining(g: Grid, q: nat): (r: seq<Row>)
    decreases |g| - q
  {
    if q >= |g| then [] else (if IsFull(g[q]) then [] else [g[q]]) + Remaining(g, q + 1)
  }

  /** How many of the rows from q on are full. */
  function FullCount(g: Grid, q: nat): (n: nat)
    decreases |g| - q
  {
    if q >= |g| then 0 else (if IsFull(g[q]) then 1 else 0) + FullCount(g, q + 1)
  }

  lemma {:induction false} RemainingRows(g: Grid, q: nat)
    requires Shaped(g) && q <= BOARD_HEIGHT
    ensures |Remaining(g, q)| + FullCount(g, q) == BOARD_HEIGHT - q
    ensures forall y :: 0 <= y < |Remaining(g, q)| ==>
      !IsFull(Remaining(g, q)[y]) && |Remaining(g, q)[y]| == BOARD_WIDTH
    decreases BOARD_HEIGHT - q
  {
    if q < BOARD_HEIGHT {
      RemainingRows(g, q + 1);
    }
  }

  /** Visible rows that are not full sink to the bottom, in order, under empty rows. */
  function Cleared(g: Grid): (r: Grid) {
    EmptyRows(INVISIBLE_ROWS + FullCount(g, INVISIBLE_ROWS)) + Remaining(g, INVISIBLE_ROWS)
  }

  predicate EmptyAt(g: Grid, y: nat)
    requires y < |g|
  {
    g[y] == EmptyRow()
  }

  predicate HiddenEmpty(g: Grid) { forall y :: 0 <= y < INVISIBLE_ROWS && y < |g| ==> EmptyAt(g, y) }

  predicate FullAt(g: Grid, y: nat)
    requires y < |g|
  {
    IsFull(g[y])
  }

  predicate NoFullLine(g: Grid) { forall y :: 0 <= y < |g| ==> !FullAt(g, y) }

  lemma ClearedFacts(g: Grid)
    requires Shaped(g)
    ensures Shaped(Cleared(g)) && HiddenEmpty(Cleared(g)) && NoFullLine(Cleared(g))
  {
    RemainingRows(g, INVISIBLE_ROWS);
  }

  // ----- at most four lines at once

  function AtOrBelow(c: Point, y: int): nat { if c.y >= y then 1 else 0 }

  function CellsAtOrBelow(cells: seq<Point>, y: int): nat
    requires |cells| == 4
  {
    AtOrBelow(cells[0], y) + AtOrBelow(cells[1], y) + AtOrBelow(cells[2], y) + AtOrBelow(cells[3], y)
  }

  lemma StampShaped(g: Grid, cells: seq<Point>, v: int)
    requires Shaped(g) && AllOnBoard(cells)
    ensures |Stamp(g, cells, v)| == BOARD_HEIGHT
  {
    StampAt(g, cells, v);
  }

  lemma RowUntouched(g: Grid, cells: seq<Point>, v: int, y: nat)
    requires Shaped(g) && AllOnBoard(cells) && y < BOARD_HEIGHT
    requires forall i :: 0 <= i < |cells| ==> cells[i].y != y
    ensures |Stamp(g, cells, v)| == BOARD_HEIGHT && Stamp(g, cells, v)[y] == g[y]
  {
    StampAt(g, cells, v);
    assert forall x :: 0 <= x < BOARD_WIDTH ==> Point(x, y) !in cells;
  }

  /** A row that is full only after the piece settled holds one of its cells. */
  lemma {:induction false} FullRowsHoldCells(g: Grid, cells: seq<Point>, v: int, y: nat)
    requires Shaped(g) && NoFullLine(g) && |cells| == 4 && AllOnBoard(cells) && y <= BOARD_HEIGHT
    ensures |Stamp(g, cells, v)| == BOARD_HEIGHT
    ensures FullCount(Stamp(g, cells, v), y) <= CellsAtOrBelow(cells, y)
    decreases BOARD_HEIGHT - y
  {
    StampShaped(g, cells, v);
    if y < BOARD_HEIGHT {
      FullRowsHoldCells(g, cells, v, y + 1);
      if forall i :: 0 <= i < 4 ==> cells[i].y != y {
        RowUntouched(g, cells, v, y);
        assert !FullAt(g, y);
      }
    }
  }

  lemma AtMostFourLines(g: Grid, cells: seq<Point>, v: int)
    requires Shaped(g) && NoFullLine(g) && |cells| == 4 && AllOnBoard(cells)
    ensures FullCount(Stamp(g, cells, v), INVISIBLE_ROWS) <= 4
  {
    FullRowsHoldCells(g, cells, v, INVISIBLE_ROWS);
  }

  // ----- counting settled cells

  /** Occupied cells among the first n of a row. */
  function CountRow(row: Row, n: nat): nat {
    if n == 0 || n > |row| then 0 else CountRow(row, n - 1) + if row[n - 1] == EMPTY_FIELD then 0 else 1
  }

  /** Occupied cells in the first n rows. */
  function CountTo(rows: seq<Row>, n: nat): nat {
    if n == 0 || n > |rows| then 0 else CountTo(rows, n - 1) + CountRow(rows[n - 1], |rows[n - 1]|)
  }

  function CountCells(rows: seq<Row>): nat { CountTo(rows, |rows|) }

  lemma {:induction false} CountRowSet(row: Row, x: nat, v: int, n: nat)
    requires x < |row| && n <= |row| && row[x] == EMPTY_FIELD && v != EMPTY_FIELD
    ensures CountRow(row[x := v], n) == CountRow(row, n) + if x < n then 1 else 0
  {
    if n > 0 {
      CountRowSet(row, x, v, n - 1);
    }
  }

  lemma {:induction false} CountToSet(g: Grid, c: Point, v: int, n: nat)
    requires FreeAt(g, c) && n <= |g| && v != EMPTY_FIELD
    ensures CountTo(SetCell(g, c, v), n) == CountTo(g, n) + if c.y < n then 1 else 0
  {
    if n > 0 {
      CountToSet(g, c, v, n - 1);
      if c.y == n - 1 {
        CountRowSet(g[c.y], c.x, v, |g[c.y]|);
      }
    }
  }

  /** Settling a piece on free cells adds one cell for each of its own. */
  lemma {:induction false} StampCount(g: Grid, cells: seq<Point>, v: int, n: nat)
    requires Shaped(g) && AllFree(g, cells) && v != EMPTY_FIELD && n <= |cells|
    requires forall j :: 0 <= j < |cells| ==> FirstAt(cells, j)
    ensures CountCells(StampTo(g, cells, v, n)) == CountCells(g) + n
  {
    if n > 0 {
      StampCount(g, cells, v, n - 1);
      FreeOnBoard(g, cells);
      StampToAt(g, cells, v, n - 1);
      assert FreeCell(g, cells, n - 1) && FirstAt(cells, n - 1) && cells[n - 1] !in cells[..n - 1];
      CountToSet(StampTo(g, cells, v, n - 1), cells[n - 1], v, BOARD_HEIGHT);
    }
  }

  lemma {:induction false} CountFullRow(row: Row, n: nat)
    requires IsFull(row) && n <= |row|
    ensures CountRow(row, n) == n
  {
    if n > 0 {
      CountFullRow(row, n - 1);
      assert row[n - 1] in row;
    }
  }

  lemma {:induction false} CountAppend(a: seq<Row>, b: seq<Row>, n: nat)
    requires n <= |b|
    ensures CountTo(a + b, |a| + n) == CountCells(a) + CountTo(b, n)
  {
    if n == 0 {
      CountPrefix(a, b, |a|);
    } else {
      CountAppend(a, b, n - 1);
    }
  }

  lemma {:induction false} CountPrefix(a: seq<Row>, b: seq<Row>, n: nat)
    requires n <= |a|
    ensures CountTo(a + b, n) == CountTo(a, n)
  {
    if n > 0 {
      CountPrefix(a, b, n - 1);
    }
  }

  lemma {:induction false} CountRemaining(g: Grid, q: nat)
    requires Shaped(g) && q <= BOARD_HEIGHT
    ensures CountCells(Remaining(g, q)) + BOARD_WIDTH * FullCount(g, q) + CountTo(g, q) == CountCells(g)
    decreases BOARD_HEIGHT - q
  {
    if q < BOARD_HEIGHT {
      CountRemaining(g, q + 1);
      var rest := Remaining(g, q + 1);
      if IsFull(g[q]) {
        CountFullRow(g[q], BOARD_WIDTH);
        assert Remaining(g, q) == rest;
      } else {
        CountAppend([g[q]], rest, |rest|);
        assert CountCells([g[q]]) == CountRow(g[q], BOARD_WIDTH) by { assert CountTo([g[q]], 0) == 0; }
      }
    }
  }

  lemma {:induction false} CountZeros(row: Row, n: nat)
    requires n <= |row| && forall x :: 0 <= x < |row| ==> row[x] == EMPTY_FIELD
    ensures CountRow(row, n) == 0
  {
    if n > 0 {
      CountZeros(row, n - 1);
    }
  }

  lemma {:induction false} CountEmpty(rows: seq<Row>, n: nat)
    requires n <= |rows| && forall y :: 0 <= y < n ==> rows[y] == EmptyRow()
    ensures CountTo(rows, n) == 0
  {
    if n > 0 {
      CountEmpty(rows, n - 1);
      CountZeros(EmptyRow(), BOARD_WIDTH);
    }
  }

  /** Removing k full lines removes 10 k cells. */
  lemma ClearedCount(g: Grid)
    requires Shaped(g) && HiddenEmpty(g)
    ensures CountCells(Cleared(g)) + BOARD_WIDTH * FullCount(g, INVISIBLE_ROWS) == CountCells(g)
  {
    var empty, rest := EmptyRows(INVISIBLE_ROWS + FullCount(g, INVISIBLE_ROWS)), Remaining(g, INVISIBLE_ROWS);
    CountRemaining(g, INVISIBLE_ROWS);
    assert EmptyAt(g, 0) && EmptyAt(g, 1);
    CountEmpty(g, INVISIBLE_ROWS);
    CountAppend(empty, rest, |rest|);
    CountEmpty(empty, |empty|);
  }

  // ----- points

  /** 100, 200, 400 or 800 points for one to four lines, and 50 more at level 1. */
  function LineScore(lines: nat): nat {
    match lines
    case 0 => 0
    case 1 => 150
    case 2 => 250
    case 3 => 450
    case _ => 850
  }

  // ----- dropping

  /** How far a piece falls before it meets a settled cell or the bottom. */
  function DropHeight(g: Grid, p: Placement): (h: nat)
    decreases |g| - p.pos.y
  {
    if p.pos.y < |g| && Fits(g, Moved(p, 0, 1)) then 1 + DropHeight(g, Moved(p, 0, 1)) else 0
  }

  lemma FitsAboveBottom(g: Grid, p: Placement)
    requires Shaped(g) && WellFormed(p) && Fits(g, p)
    ensures p.pos.y < BOARD_HEIGHT
  {
    assert FreeCell(g, Cells(p), 0) && InFrame(p.shape.bodies[p.rotation]) && InFrameAt(p.shape.bodies[p.rotation], 0);
  }

  /** Every row on the way is free and the one after it is not. */
  lemma {:induction false} DropStopsAtFirstBlock(g: Grid, p: Placement, j: nat)
    requires Shaped(g) && WellFormed(p) && Fits(g, p)
    requires j <= DropHeight(g, p) + 1
    ensures Fits(g, Moved(p, 0, j)) <==> j <= DropHeight(g, p)
    decreases j
  {
    FitsAboveBottom(g, p);
    if j == 0 {
      assert Moved(p, 0, 0) == p;
    } else if Fits(g, Moved(p, 0, 1)) {
      DropStopsAtFirstBlock(g, Moved(p, 0, 1), j - 1);
      assert Moved(Moved(p, 0, 1), 0, j - 1) == Moved(p, 0, j);
    }
  }

  // ----- the same in numbers: a board of 22 rows and 10 columns, 0 for a free cell

  predicate Free(g: Grid, x: int, y: int)
    requires Shaped(g)
  {
    0 <= x < 10 && 0 <= y < 22 && g[y][x] == 0
  }

  /** The shape's four cells, turned r times with the frame's corner at (x, y), are on the board and free. */
  ghost predicate Room(g: Grid, shape: Shape, r: nat, x: int, y: int)
    requires Shaped(g) && IsTetrimino(shape) && r < 4
  {
    forall i :: 0 <= i < 4 ==> Free(g, x + shape.bodies[r][i].x, y + shape.bodies[r][i].y)
  }

  lemma FitsIsRoom(g: Grid, p: Placement)
    requires Shaped(g) && WellFormed(p)
    ensures Fits(g, p) <==> Room(g, p.shape, p.rotation, p.pos.x, p.pos.y)
  {
    var cells, body := Cells(p), p.shape.bodies[p.rotation];
    assert FourDistinct(body);
    forall i | 0 <= i < 4
      ensures FreeCell(g, cells, i) <==> Free(g, p.pos.x + body[i].x, p.pos.y + body[i].y)
    {
      assert cells[i] == Point(p.pos.x + body[i].x, p.pos.y + body[i].y);
    }
    if Fits(g, p) {
      forall i | 0 <= i < 4
        ensures Free(g, p.pos.x + body[i].x, p.pos.y + body[i].y)
      {
        assert FreeCell(g, cells, i);
      }
    }
  }

  ghost predicate Covers(p: Placement, u: int, v: int)
    requires WellFormed(p)
  {
    exists i :: 0 <= i < 4 && p.shape.bodies[p.rotation][i] == Point(u - p.pos.x, v - p.pos.y)
  }

  /** f is g with the piece's four cells in its colour. */
  ghost predicate Filled(g: Grid, p: Placement, f: Grid)
    requires Shaped(g) && WellFormed(p)
  {
    Shaped(f) &&
    forall u, v :: 0 <= v < 22 && 0 <= u < 10 ==> f[v][u] == if Covers(p, u, v) then p.shape.color else g[v][u]
  }

  lemma StampFills(g: Grid, p: Placement)
    requires Shaped(g) && WellFormed(p) && Fits(g, p)
    ensures Filled(g, p, Stamp(g, Cells(p), p.shape.color))
  {
    var cells, body := Cells(p), p.shape.bodies[p.rotation];
    assert FourDistinct(body);
    FreeOnBoard(g, cells);
    StampAt(g, cells, p.shape.color);
    forall u, v | 0 <= v < 22 && 0 <= u < 10
      ensures Covers(p, u, v) <==> Point(u, v) in cells
    {
      if Point(u, v) in cells {
        var i :| 0 <= i < |cells| && cells[i] == Point(u, v);
        assert body[i] == Point(u - p.pos.x, v - p.pos.y);
      }
      if Covers(p, u, v) {
        var i :| 0 <= i < 4 && body[i] == Point(u - p.pos.x, v - p.pos.y);
        assert cells[i] == Point(u, v);
      }
    }
  }

  predicate RowFull(g: Grid, v: int)
    requires Shaped(g) && 0 <= v < 22
  {
    forall u :: 0 <= u < 10 ==> g[v][u] != 0
  }

  /** The full rows from q on. */
  function FullRows(g: Grid, q: nat): (rows: set<int>)
    requires Shaped(g)
  {
    set v | q <= v < 22 && RowFull(g, v)
  }

  lemma {:induction false} FullCountIsNumber(g: Grid, q: nat)
    requires Shaped(g) && q <= 22
    ensures FullCount(g, q) == |FullRows(g, q)|
    decreases 22 - q
  {
    if q == 22 {
      assert FullRows(g, q) == {};
    } else {
      FullCountIsNumber(g, q + 1);
      if RowFull(g, q) {
        assert FullRows(g, q) == FullRows(g, q + 1) + {q};
      } else {
        var u :| 0 <= u < 10 && g[q][u] == 0;
        assert g[q][u] in g[q];
        assert FullRows(g, q) == FullRows(g, q + 1);
      }
    }
  }

  /** Every visible row that is not full sinks by the number of full rows below it, and the rows on top are free. */
  ghost predicate Sunk(f: Grid, t: Grid)
    requires Shaped(f)
  {
    Shaped(t) && |FullRows(f, 2)| <= 20 &&
    (forall v :: 2 <= v < 22 && !RowFull(f, v) ==> SunkRow(f, t, v)) &&
    forall u, v :: 0 <= v < 2 + |FullRows(f, 2)| && 0 <= u < 10 ==> t[v][u] == 0
  }

  ghost predicate SunkRow(f: Grid, t: Grid, v: nat)
    requires Shaped(f) && Shaped(t) && v < 22
  {
    v + |FullRows(f, v + 1)| < 22 && t[v + |FullRows(f, v + 1)|] == f[v]
  }

  lemma {:induction false} RemainingSuffix(g: Grid, q: nat, y: nat)
    requires q <= y <= |g|
    ensures |Remaining(g, y)| <= |Remaining(g, q)|
    ensures Remaining(g, q)[|Remaining(g, q)| - |Remaining(g, y)|..] == Remaining(g, y)
    decreases y - q
  {
    if q < y {
      RemainingSuffix(g, q + 1, y);
      var head, rest := if IsFull(g[q]) then [] else [g[q]], Remaining(g, q + 1);
      assert Remaining(g, q) == head + rest;
      hide Remaining, IsFull;
      SuffixOfSum(head, rest, |rest| - |Remaining(g, y)|);
    }
  }

  lemma SuffixOfSum<T>(a: seq<T>, b: seq<T>, k: nat)
    requires k <= |b|
    ensures (a + b)[|a| + k..] == b[k..]
  {
  }

  lemma RemainingHead(g: Grid, v: nat)
    requires Shaped(g) && v < 22 && !RowFull(g, v)
    ensures Remaining(g, v) == [g[v]] + Remaining(g, v + 1) && FullCount(g, v) == FullCount(g, v + 1)
  {
    var u :| 0 <= u < 10 && g[v][u] == 0;
    assert g[v][u] in g[v];
  }

  lemma ClearedRow(g: Grid, v: nat)
    requires Shaped(g) && Shaped(Cleared(g)) && 2 <= v < 22 && !RowFull(g, v)
    ensures SunkRow(g, Cleared(g), v)
  {
    hide Remaining, FullCount, FullRows, RowFull;
    RemainingHead(g, v);
    RemainingRows(g, v);
    RemainingRows(g, 2);
    RemainingSuffix(g, 2, v);
    FullCountIsNumber(g, v + 1);
    var below := FullCount(g, v + 1);
    assert |Remaining(g, v)| == 22 - v - below;
    assert Cleared(g)[v + below..] == Remaining(g, v);
  }

  lemma ClearedSinks(g: Grid)
    requires Shaped(g)
    ensures Sunk(g, Cleared(g))
  {
    ClearedFacts(g);
    RemainingRows(g, 2);
    FullCountIsNumber(g, 2);
    forall v | 2 <= v < 22 && !RowFull(g, v)
      ensures SunkRow(g, Cleared(g), v)
    {
      ClearedRow(g, v);
    }
  }

  // ----- which way a piece turns

  /** A cell of a frame of n by n after a quarter turn clockwise, x growing to the right and y downwards. */
  function QuarterTurn(c: Point, n: int): Point { Point(n - 1 - c.y, c.x) }

  /**
    One rotation on is a quarter turn clockwise of the piece's frame: of the 4 by 4 frame for the
    long piece, of a 3 by 3 one for the others, while the square stays as it is.
  */
  lemma TurnsClockwise(kind: nat, r: nat)
    requires kind < 7 && r < 4
    ensures var bodies, n := Bodies(kind), if kind == 0 then 4 else 3;
      && |bodies| == 4 && |bodies[r]| == 4
      && forall i :: 0 <= i < 4 ==>
        (if kind == 3 then bodies[r][i] else QuarterTurn(bodies[r][i], n)) in bodies[if r == 3 then 0 else r + 1]
  {
  }

  function Mirrored(c: Point): Point { Point(2 - c.x, c.y) }

  /**
    J and L, and S and Z, are each other's mirror images, T is its own, and I is four cells in a
    line; J and Z begin at the upper left, L and S end at the upper right.
  */
  lemma MirrorPairs(i: nat)
    requires i < 4
    ensures Point(0, 0) in Bodies(1)[0] && Point(0, 0) in Bodies(6)[0]
    ensures Point(2, 0) in Bodies(2)[0] && Point(2, 0) in Bodies(4)[0] && Point(1, 0) in Bodies(5)[0]
    ensures Mirrored(Bodies(1)[0][i]) in Bodies(2)[0] && Mirrored(Bodies(4)[0][i]) in Bodies(6)[0]
    ensures Mirrored(Bodies(5)[0][i]) in Bodies(5)[0] && Bodies(0)[0][i] == Point(i, 1)
  {
  }
}
