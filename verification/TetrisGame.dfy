/** Tetris as its player sees it: the rules, on values, and what every step keeps (Board.c). */
module TetrisGame {
  import opened TetrisGrid

  const DROP_BONUS_PER_LINE: nat := 2

  /** What lies still, what falls, what comes next, and the score. */
  datatype State = State(
    settled: Grid,
    active: Placement,
    next: Shape,
    lines: nat,
    score: int,
    blocked: bool,
    placed: nat)

  /** The falling piece lies on the board and on free cells. */
  ghost predicate Falling(g: Grid, p: Placement) {
    Shaped(g) && WellFormed(p) && Fits(g, p)
  }

  /** Nothing settled is hidden, no line is full, and every settled cell is accounted for. */
  ghost predicate Tidy(g: Grid, lines: nat, placed: nat) {
    Shaped(g) && HiddenEmpty(g) && NoFullLine(g) && CountCells(g) + BOARD_WIDTH * lines == 4 * placed
  }

  /** Holds in every state of a game. */
  ghost predicate Playable(s: State) {
    Falling(s.settled, s.active) && Tidy(s.settled, s.lines, s.placed) && IsTetrimino(s.next)
  }

  predicate InHiddenRows(cells: seq<Point>) {
    exists i :: 0 <= i < |cells| && cells[i].y < INVISIBLE_ROWS
  }

  /** The settled cells with the falling piece among them, before any line is removed. */
  function Stamped(g: Grid, p: Placement): Grid { Stamp(g, Cells(p), p.shape.color) }

  function LinesMade(g: Grid, p: Placement): nat { FullCount(Stamped(g, p), INVISIBLE_ROWS) }

  // ----- the rules

  /** The first piece on an empty board. */
  function NewGame(first: Shape, next: Shape): (s: State) {
    State(EmptyRows(BOARD_HEIGHT), Spawn(first), next, 0, 0, false, 0)
  }

  /** The falling piece after an attempt to put it at p. */
  function Try(s: State, p: Placement): (t: State) {
    if Fits(s.settled, p) then s.(active := p) else s
  }

  /** The piece h rows further down. */
  function Lower(s: State, h: nat): (t: State) { s.(active := Moved(s.active, 0, h)) }

  /**
    What becomes of a piece that cannot fall any further: it ends the game when
    part of it is still hidden; otherwise it settles, full lines go, and the next
    piece appears, to be followed by the one drawn.
  */
  function Land(s: State, drawn: Shape): (t: State) {
    if InHiddenRows(Cells(s.active)) then s.(blocked := true)
    else
      var made := LinesMade(s.settled, s.active);
      State(Cleared(Stamped(s.settled, s.active)), Spawn(s.next), drawn, s.lines + made,
            s.score + LineScore(made), s.blocked, s.placed + 1)
  }

  predicate CanFall(s: State) { Fits(s.settled, Moved(s.active, 0, 1)) }

  /** One row down, or landing. */
  function Fall(s: State, drawn: Shape): (t: State) {
    if CanFall(s) then Lower(s, 1) else Land(s, drawn)
  }

  function Scored(s: State, points: int): (t: State) { s.(score := s.score + points) }

  /** The piece falls as far as it can, lands there, and earns two points a row. */
  function Drop(s: State, drawn: Shape): (t: State) {
    var h := DropHeight(s.settled, s.active);
    Scored(Land(Lower(s, h), drawn), DROP_BONUS_PER_LINE * h)
  }

  // ----- what the board shows

  /** The fields with the falling piece marked in full. */
  function Marked(s: State): Grid { Stamped(s.settled, s.active) }

  /** The fields with the falling piece drawn where it is visible. */
  function Drawn(s: State): Grid { StampVisible(s.settled, Cells(s.active), s.active.shape.color) }

  predicate Shows(g: Grid, s: State) { g == Marked(s) || g == Drawn(s) }

  /** The visible cells of the falling piece carry its colour; all other cells are the settled ones. */
  lemma ShownFields(g: Grid, s: State, x: nat, y: nat)
    requires Playable(s) && Shows(g, s) && x < BOARD_WIDTH && y < BOARD_HEIGHT
    ensures Shaped(g)
    ensures Point(x, y) !in Cells(s.active) ==> g[y][x] == s.settled[y][x]
    ensures Point(x, y) in Cells(s.active) && y >= INVISIBLE_ROWS ==> g[y][x] == s.active.shape.color
    ensures Point(x, y) in Cells(s.active) && y < INVISIBLE_ROWS ==> g[y][x] in {s.active.shape.color, EMPTY_FIELD}
    ensures Point(x, y) in Cells(s.active) ==> s.settled[y][x] == EMPTY_FIELD
  {
    FreeOnBoard(s.settled, Cells(s.active));
    StampAt(s.settled, Cells(s.active), s.active.shape.color);
    StampVisibleAt(s.settled, Cells(s.active), s.active.shape.color);
  }

  lemma PlayableCells(s: State)
    requires Playable(s)
    ensures WellFormed(s.active) && AllOnBoard(Cells(s.active)) && |Cells(s.active)| == 4
  {
    FreeOnBoard(s.settled, Cells(s.active));
    CellsDistinct(s.active);
  }

  /** Lifting the piece off, blanking where it was, and marking what was drawn. */
  lemma DrawingFacts(g: Grid, s: State)
    requires Playable(s)
    ensures Shows(g, s) ==> Stamp(g, Cells(s.active), EMPTY_FIELD) == s.settled
    ensures StampVisible(s.settled, Cells(s.active), EMPTY_FIELD) == s.settled
    ensures Stamp(Drawn(s), Cells(s.active), s.active.shape.color) == Marked(s)
  {
    var cells, color := Cells(s.active), s.active.shape.color;
    FreeOnBoard(s.settled, cells);
    LiftRestores(s.settled, cells, color);
    BlankNothing(s.settled, cells);
    MarkAfterDraw(s.settled, cells, color);
  }

  /** A piece that is wholly hidden leaves no trace when drawn. */
  lemma {:induction false} DrawHidden(g: Grid, cells: seq<Point>, color: int, n: nat)
    requires n <= |cells| && forall i :: 0 <= i < |cells| ==> cells[i].y < INVISIBLE_ROWS
    ensures StampVisibleTo(g, cells, color, n) == g
  {
    if n > 0 {
      DrawHidden(g, cells, color, n - 1);
    }
  }

  // ----- every rule keeps the game playable

  /** A new piece always finds room, in the hidden rows. */
  lemma SpawnFits(g: Grid, shape: Shape)
    requires Shaped(g) && HiddenEmpty(g) && IsTetrimino(shape)
    ensures Falling(g, Spawn(shape))
    ensures forall i :: 0 <= i < |Cells(Spawn(shape))| ==> Cells(Spawn(shape))[i].y < INVISIBLE_ROWS
  {
    var cells := Cells(Spawn(shape));
    assert FourDistinct(shape.bodies[0]) && InFrame(shape.bodies[0]);
    forall i | 0 <= i < |cells|
      ensures cells[i].y < INVISIBLE_ROWS && FreeCell(g, cells, i)
    {
      assert InFrameAt(shape.bodies[0], i);
      assert EmptyAt(g, cells[i].y);
    }
  }

  lemma NewGamePlayable(first: Shape, next: Shape)
    requires IsTetrimino(first) && IsTetrimino(next)
    ensures Playable(NewGame(first, next))
    ensures var s := NewGame(first, next);
      && s.active == Placement(first, 0, Point(4, 0)) && s.next == next
      && s.lines == 0 && s.score == 0 && s.placed == 0 && !s.blocked
      && forall u, v :: 0 <= v < 22 && 0 <= u < 10 ==> s.settled[v][u] == 0
    ensures Drawn(NewGame(first, next)) == EmptyRows(BOARD_HEIGHT)
  {
    CountEmpty(EmptyRows(BOARD_HEIGHT), BOARD_HEIGHT);
    SpawnFits(EmptyRows(BOARD_HEIGHT), first);
    DrawHidden(EmptyRows(BOARD_HEIGHT), Cells(Spawn(first)), first.color, |Cells(Spawn(first))|);
  }

  lemma TryPlayable(s: State, p: Placement)
    requires Playable(s) && WellFormed(p)
    ensures Playable(Try(s, p))
  {
  }

  /** A settling piece makes at most four lines, adds four cells, and leaves the hidden rows empty. */
  lemma StampedFacts(g: Grid, p: Placement)
    requires Falling(g, p) && HiddenEmpty(g) && NoFullLine(g)
    ensures Shaped(Stamped(g, p))
    ensures LinesMade(g, p) <= 4
    ensures CountCells(Stamped(g, p)) == CountCells(g) + 4
    ensures !InHiddenRows(Cells(p)) ==> HiddenEmpty(Stamped(g, p))
  {
    var cells, color := Cells(p), p.shape.color;
    FreeOnBoard(g, cells);
    CellsDistinct(p);
    StampAt(g, cells, color);
    AtMostFourLines(g, cells, color);
    StampCount(g, cells, color, 4);
    if !InHiddenRows(cells) {
      forall y | 0 <= y < INVISIBLE_ROWS
        ensures EmptyAt(Stamped(g, p), y)
      {
        assert EmptyAt(g, y);
        RowUntouched(g, cells, color, y);
      }
    }
  }

  /** After a piece settles the board is tidy again: no cell is lost but with its line. */
  lemma SettledIsTidy(g: Grid, p: Placement, lines: nat, placed: nat)
    requires Falling(g, p) && Tidy(g, lines, placed) && !InHiddenRows(Cells(p))
    ensures Tidy(Cleared(Stamped(g, p)), lines + LinesMade(g, p), placed + 1)
  {
    StampedFacts(g, p);
    ClearedFacts(Stamped(g, p));
    ClearedCount(Stamped(g, p));
  }

  lemma LandPlayable(s: State, drawn: Shape)
    requires Playable(s) && IsTetrimino(drawn)
    ensures Playable(Land(s, drawn))
    ensures s.lines <= Land(s, drawn).lines <= s.lines + 4
    ensures !InHiddenRows(Cells(s.active)) ==> Drawn(Land(s, drawn)) == Cleared(Marked(s))
  {
    if !InHiddenRows(Cells(s.active)) {
      var g := Cleared(Stamped(s.settled, s.active));
      StampedFacts(s.settled, s.active);
      SettledIsTidy(s.settled, s.active, s.lines, s.placed);
      SpawnFits(g, s.next);
      DrawHidden(g, Cells(Spawn(s.next)), s.next.color, |Cells(Spawn(s.next))|);
    }
  }

  lemma LandView(s: State, drawn: Shape)
    requires Playable(s) && IsTetrimino(drawn) && !InHiddenRows(Cells(s.active))
    ensures var t, made := Land(s, drawn), FullCount(Marked(s), INVISIBLE_ROWS);
      && t.active == Spawn(s.next) && t.next == drawn && t.blocked == s.blocked
      && t.lines == s.lines + made && t.score == s.score + LineScore(made)
      && Drawn(t) == Cleared(Marked(s))
  {
    LandPlayable(s, drawn);
  }

  lemma LowerPlayable(s: State, h: nat)
    requires Playable(s) && h <= DropHeight(s.settled, s.active)
    ensures Playable(Lower(s, h))
  {
    DropStopsAtFirstBlock(s.settled, s.active, h);
  }

  /** A piece that has fallen h rows can fall on exactly while h is less than the height of its fall. */
  lemma LowerOne(s: State, h: nat)
    requires Playable(s) && h <= DropHeight(s.settled, s.active)
    ensures CanFall(Lower(s, h)) <==> h < DropHeight(s.settled, s.active)
    ensures Lower(Lower(s, h), 1) == Lower(s, h + 1)
  {
    DropStopsAtFirstBlock(s.settled, s.active, h + 1);
    assert Moved(Moved(s.active, 0, h), 0, 1) == Moved(s.active, 0, h + 1);
  }

  /** A drop under way: the piece has fallen one row more than were counted, or it has landed. */
  ghost predicate Dropping(start: State, height: nat, moved: bool, now: State, drawn: Shape) {
    if moved then height < DropHeight(start.settled, start.active) && now == Lower(start, height + 1)
    else height == DropHeight(start.settled, start.active) && now == Land(Lower(start, height), drawn)
  }

  lemma DropBegins(start: State, moved: bool, now: State, drawn: Shape)
    requires Playable(start) && moved == CanFall(start) && now == Fall(start, drawn)
    ensures Dropping(start, 0, moved, now, drawn)
  {
    LowerOne(start, 0);
    assert Lower(start, 0) == start;
  }

  lemma DropGoesOn(start: State, height: nat, before: State, any: Shape, moved: bool, now: State, drawn: Shape)
    requires Playable(start) && Dropping(start, height, true, before, any)
    requires moved == CanFall(before) && now == Fall(before, drawn)
    ensures Dropping(start, height + 1, moved, now, drawn)
  {
    LowerOne(start, height + 1);
  }

  lemma DropEnds(start: State, height: nat, now: State, drawn: Shape)
    requires Dropping(start, height, false, now, drawn)
    ensures Drop(start, drawn) == Scored(now, DROP_BONUS_PER_LINE * height)
  {
  }

  lemma ScoredPlayable(s: State, points: int)
    requires Playable(s)
    ensures Playable(Scored(s, points))
    ensures Marked(Scored(s, points)) == Marked(s) && Drawn(Scored(s, points)) == Drawn(s)
  {
  }

  lemma BlockedPlayable(s: State)
    requires Playable(s)
    ensures Playable(s.(blocked := true)) && Marked(s.(blocked := true)) == Marked(s)
  {
  }

  /** What is needed to remove the lines a landed piece made. */
  lemma LandedView(s: State)
    requires Playable(s) && !InHiddenRows(Cells(s.active))
    ensures HiddenEmpty(Marked(s)) && FullCount(Marked(s), INVISIBLE_ROWS) <= 4
  {
    StampedFacts(s.settled, s.active);
  }

  lemma FallPlayable(s: State, drawn: Shape)
    requires Playable(s) && IsTetrimino(drawn)
    ensures Playable(Fall(s, drawn))
  {
    LandPlayable(s, drawn);
  }

  lemma DropPlayable(s: State, drawn: Shape)
    requires Playable(s) && IsTetrimino(drawn)
    ensures Playable(Drop(s, drawn))
  {
    var h := DropHeight(s.settled, s.active);
    LowerPlayable(s, h);
    LandPlayable(Lower(s, h), drawn);
  }

  // ----- the same in numbers

  /** Some cell of the falling piece is in the two hidden rows. */
  ghost predicate Hidden(p: Placement)
    requires WellFormed(p)
  {
    exists i :: 0 <= i < 4 && p.pos.y + p.shape.bodies[p.rotation][i].y < 2
  }

  /** There is room for the falling piece j rows further down. */
  ghost predicate RoomBelow(s: State, j: nat)
    requires Playable(s)
  {
    Room(s.settled, s.active.shape, s.active.rotation, s.active.pos.x, s.active.pos.y + j)
  }

  /** The state t after one row down, where there is room for the piece, or after its landing. */
  ghost predicate Fallen(s: State, drawn: Shape, t: State)
    requires Playable(s)
  {
    var p := s.active;
    if RoomBelow(s, 1)
    then t == s.(active := Placement(p.shape, p.rotation, Point(p.pos.x, p.pos.y + 1)))
    else Landed(s, drawn, t)
  }

  /**
    A piece that lands with a cell in the hidden rows ends the game.  Any other settles: full rows
    go, the rows above them sink, one to four of them earn 150, 250, 450 or 850 points, and the
    next piece comes in unturned at column 4, row 0.
  */
  ghost predicate Landed(s: State, drawn: Shape, t: State)
    requires Playable(s)
  {
    if Hidden(s.active) then t == s.(blocked := true)
    else exists f :: Filled(s.settled, s.active, f) && Cashed(s, drawn, f, t)
  }

  ghost predicate Cashed(s: State, drawn: Shape, f: Grid, t: State)
    requires Shaped(f)
  {
    var made := |FullRows(f, 2)|;
    && made <= 4 && Sunk(f, t.settled)
    && t.active == Placement(s.next, 0, Point(4, 0)) && t.next == drawn
    && t.lines == s.lines + made && t.score == s.score + [0, 150, 250, 450, 850][made]
    && t.placed == s.placed + 1 && t.blocked == s.blocked
  }

  /** The state t after the piece fell all h rows that there was room for, landed, and earned 2 h points. */
  ghost predicate Dropped(s: State, drawn: Shape, h: nat, t: State)
    requires Playable(s)
  {
    var p := s.active;
    var low := s.(active := Placement(p.shape, p.rotation, Point(p.pos.x, p.pos.y + h)));
    && (forall j :: 0 <= j <= h ==> RoomBelow(s, j)) && !RoomBelow(s, h + 1)
    && Playable(low) && Landed(low, drawn, t.(score := t.score - 2 * h))
  }

  lemma HiddenCells(p: Placement)
    requires WellFormed(p)
    ensures InHiddenRows(Cells(p)) <==> Hidden(p)
  {
    var cells, body := Cells(p), p.shape.bodies[p.rotation];
    assert FourDistinct(body);
    assert forall i :: 0 <= i < 4 ==> cells[i] == At(body[i], p.pos);
    if InHiddenRows(cells) {
      var i :| 0 <= i < |cells| && cells[i].y < 2;
      assert p.pos.y + body[i].y < 2;
    }
    if Hidden(p) {
      var i :| 0 <= i < 4 && p.pos.y + body[i].y < 2;
      assert cells[i].y < 2;
    }
  }

  lemma LandIsLanded(s: State, drawn: Shape)
    requires Playable(s)
    ensures Landed(s, drawn, Land(s, drawn))
  {
    HiddenCells(s.active);
    if !InHiddenRows(Cells(s.active)) {
      var f := Stamped(s.settled, s.active);
      StampedFacts(s.settled, s.active);
      StampFills(s.settled, s.active);
      FullCountIsNumber(f, 2);
      ClearedSinks(f);
      assert Cashed(s, drawn, f, Land(s, drawn));
    }
  }

  lemma FallIsFallen(s: State, drawn: Shape)
    requires Playable(s)
    ensures Fallen(s, drawn, Fall(s, drawn))
  {
    hide Landed, Land, Fits, Room;
    FitsIsRoom(s.settled, Moved(s.active, 0, 1));
    LandIsLanded(s, drawn);
  }

  lemma DropIsDropped(s: State, drawn: Shape)
    requires Playable(s)
    ensures Dropped(s, drawn, DropHeight(s.settled, s.active), Drop(s, drawn))
  {
    hide Landed, Land, Fits, Room, DropHeight;
    var h := DropHeight(s.settled, s.active);
    forall j: nat | j <= h + 1
      ensures RoomBelow(s, j) <==> j <= h
    {
      DropStopsAtFirstBlock(s.settled, s.active, j);
      FitsIsRoom(s.settled, Moved(s.active, 0, j));
    }
    LowerPlayable(s, h);
    LandIsLanded(Lower(s, h), drawn);
  }

  /** The piece was put at (x, y) in rotation r where there is room for it, and nothing else was done. */
  ghost predicate PutWhereRoom(s: State, r: nat, x: int, y: int, t: State)
    requires Playable(s) && r < 4
  {
    t == if Room(s.settled, s.active.shape, r, x, y) then s.(active := Placement(s.active.shape, r, Point(x, y))) else s
  }

  lemma TryPuts(s: State, p: Placement)
    requires Playable(s) && p.shape == s.active.shape && p.rotation < 4
    ensures PutWhereRoom(s, p.rotation, p.pos.x, p.pos.y, Try(s, p))
  {
    hide Fits, Room;
    FitsIsRoom(s.settled, p);
  }
}
