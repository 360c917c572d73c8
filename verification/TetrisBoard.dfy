/** The Tetris board and its pieces: Board.c and Piece.c, without the drawing calls. */
module TetrisBoard {
  import opened TetrisGrid
  import opened TetrisLines
  import opened TetrisGame
  import opened TetrisRandom

  const LINE_CLEAR_SCORE: nat := 100
  const LINE_CLEAR_LEVEL_BONUS: nat := 50

  class Piece {
    var shape: Shape
    var rotation: nat
    var pos: Point

    ghost function Value(): Placement
      reads this
    {
      Placement(shape, rotation, pos)
    }

    constructor (random: Generator, second: Word)
      modifies random
      ensures rotation == 0 && IsTetrimino(shape)
      ensures random.Ready()
    {
      pos := Point(0, 0);
      shape := ShapeOf(0);
      rotation := 0;
      new;
      var _ := random.Rand(second);
      Randomize(random);
      ShapesAreTetriminos(random.previousValue % 7);
    }

    method Randomize(random: Generator)
      requires random.Ready()
      modifies this, random
      ensures random.Ready() && random.previousValue == Next(old(random.previousValue))
      ensures Value() == Placement(ShapeOf(random.previousValue % 7), 0, old(pos))
    {
      var value := random.Rand(0);
      shape := ShapeOf(value % 7);
      rotation := 0;
    }

    method RotateCW()
      requires rotation < 4
      modifies this`rotation
      ensures Value() == Turned(old(Value()))
    {
      rotation := (rotation + 1) % 4;
    }

    /** Undoes RotateCW. */
    method RotateCCW()
      requires rotation < 4
      modifies this`rotation
      ensures rotation < 4 && Turned(Value()) == old(Value())
    {
      if rotation == 0 {
        rotation := 3;
      } else {
        rotation := rotation - 1;
      }
    }
  }

  class Board {
    var nextPiece: Piece
    var activePiece: Piece
    const fields: array2<int>
    const random: Generator
    /** The two pieces, which take turns at being the active one. */
    ghost const one: Piece
    ghost const other: Piece
    var blocked: bool
    var level: int
    var lines: nat
    var score: int
    /** The game as its player sees it. */
    ghost var game: State

    ghost function Repr(): set<object>
      reads this
    {
      {fields, random, activePiece, nextPiece}
    }

    ghost predicate Wired()
      reads this, random
    {
      BoardSized(fields) && one != other && random.Ready() &&
      ((activePiece == one && nextPiece == other) || (activePiece == other && nextPiece == one))
    }

    /** The pieces and counters are those of a playable game. */
    ghost predicate Coupled()
      reads this, random, activePiece, nextPiece
    {
      Wired() && Playable(game) &&
      ViewOf(game, nextPiece.pos) == View(activePiece.Value(), nextPiece.Value(), level, lines, score, blocked)
    }

    /** The falling piece is off the board. */
    ghost predicate Lifted()
      reads this, Repr()
    {
      Coupled() && GridOf(fields) == game.settled
    }

    /** The falling piece is drawn where it is visible. */
    ghost predicate IsDrawn()
      reads this, Repr()
    {
      Coupled() && GridOf(fields) == Drawn(game)
    }

    /** The falling piece is marked in full. */
    ghost predicate IsMarked()
      reads this, Repr()
    {
      Coupled() && GridOf(fields) == Marked(game)
    }

    ghost predicate Valid()
      reads this, Repr()
    {
      Coupled() && Shows(GridOf(fields), game)
    }

    /** Cell i of the falling piece. */
    method PieceCell(i: nat) returns (x: int, y: int)
      requires WellFormed(activePiece.Value()) && i < 4
      ensures |Cells(activePiece.Value())| == 4 && Cells(activePiece.Value())[i] == Point(x, y)
    {
      var body := activePiece.shape.bodies[activePiece.rotation];
      assert FourDistinct(body);
      x := body[i].x + activePiece.pos.x;
      y := body[i].y + activePiece.pos.y;
    }

    ghost predicate Placed()
      reads this, activePiece
    {
      BoardSized(fields) && WellFormed(activePiece.Value())
    }

    ghost predicate OnFields(cells: seq<Point>) {
      BoardSized(fields) && AllOnBoard(cells) && |cells| == 4
    }

    /** Give the falling piece's cells a colour. */
    method MarkFields(color: int)
      requires WellFormed(activePiece.Value()) && OnFields(Cells(activePiece.Value()))
      modifies fields
      ensures GridOf(fields) == Stamp(old(GridOf(fields)), Cells(activePiece.Value()), color)
    {
      ghost var cells, before := Cells(activePiece.Value()), GridOf(fields);
      for i := 0 to 4
        invariant GridOf(fields) == StampTo(before, cells, color, i)
      {
        var x, y := PieceCell(i);
        SetField(fields, x, y, color);
      }
    }

    /** Give the falling piece's visible cells a colour. */
    method DrawFields(color: int)
      requires WellFormed(activePiece.Value()) && OnFields(Cells(activePiece.Value()))
      modifies fields
      ensures GridOf(fields) == StampVisible(old(GridOf(fields)), Cells(activePiece.Value()), color)
    {
      ghost var cells, before := Cells(activePiece.Value()), GridOf(fields);
      for i := 0 to 4
        invariant GridOf(fields) == StampVisibleTo(before, cells, color, i)
      {
        var x, y := PieceCell(i);
        RedrawField(fields, x, y, color);
      }
    }

    /** Could the piece, lifted off the board, be shifted by (dx, dy)? */
    method IsMovePossible(dx: int, dy: int) returns (possible: bool)
      requires Placed()
      ensures possible <==> Fits(GridOf(fields), Moved(activePiece.Value(), dx, dy))
    {
      ghost var cells, grid := Cells(Moved(activePiece.Value(), dx, dy)), GridOf(fields);
      GridAt(fields);
      for i := 0 to 4
        invariant |cells| == 4 ==> forall j :: 0 <= j < i ==> FreeCell(grid, cells, j)
      {
        var x, y := PieceCell(i);
        var fx, fy := x + dx, y + dy;
        assert |cells| == 4 && cells[i] == Point(fx, fy);
        if fx < 0 || fx >= BOARD_WIDTH || fy < 0 || fy >= BOARD_HEIGHT || fields[fy, fx] != EMPTY_FIELD {
          assert !FreeCell(grid, cells, i);
          return false;
        }
      }
      return true;
    }

    /** Take the falling piece off the board. */
    method Lift()
      requires Valid()
      modifies fields
      ensures Lifted()
    {
      PlayableCells(game);
      DrawingFacts(GridOf(fields), game);
      MarkFields(EMPTY_FIELD);
    }

    /** Mark all cells of the piece, hidden ones included; it may have been drawn already. */
    method PutBack()
      requires Lifted() || IsDrawn()
      modifies fields
      ensures IsMarked()
    {
      PlayableCells(game);
      DrawingFacts(GridOf(fields), game);
      MarkFields(activePiece.shape.color);
    }

    /** Blank the lifted piece's old cells; nothing changes. */
    method EraseOld()
      requires Lifted()
      modifies fields
      ensures Lifted()
    {
      PlayableCells(game);
      DrawingFacts(GridOf(fields), game);
      DrawFields(EMPTY_FIELD);
    }

    method DrawNew()
      requires Lifted()
      modifies fields
      ensures IsDrawn()
    {
      PlayableCells(game);
      DrawFields(activePiece.shape.color);
    }

    /** Give the lifted piece its new position. */
    method Displace(dx: int, dy: int)
      requires Lifted() && Fits(game.settled, Moved(game.active, dx, dy))
      modifies activePiece, this`game
      ensures Lifted() && game == Try(old(game), Moved(old(game).active, dx, dy))
    {
      PlayableCells(game);
      TryPlayable(game, Moved(game.active, dx, dy));
      ghost var target := Moved(game.active, dx, dy);
      activePiece.pos := Point(activePiece.pos.x + dx, activePiece.pos.y + dy);
      game := Try(game, target);
      assert game.active == target == activePiece.Value();
    }

    /** Draw the lifted piece shifted by (dx, dy), where it fits. */
    method Shift(dx: int, dy: int)
      requires Lifted() && Fits(game.settled, Moved(game.active, dx, dy))
      modifies fields, activePiece, this`game
      ensures IsDrawn() && game == Try(old(game), Moved(old(game).active, dx, dy))
    {
      EraseOld();
      Displace(dx, dy);
      DrawNew();
    }

    method MovePieceLeft()
      requires Valid()
      modifies fields, activePiece, this`game
      ensures Valid() && game == Try(old(game), Moved(old(game).active, -1, 0))
    {
      Lift();
      var possible := IsMovePossible(-1, 0);
      if possible {
        Shift(-1, 0);
      }
      PutBack();
    }

    method MovePieceRight()
      requires Valid()
      modifies fields, activePiece, this`game
      ensures Valid() && game == Try(old(game), Moved(old(game).active, 1, 0))
    {
      Lift();
      var possible := IsMovePossible(1, 0);
      if possible {
        Shift(1, 0);
      }
      PutBack();
    }

    /** Give the lifted piece its new rotation. */
    method TurnLifted()
      requires Lifted() && Fits(game.settled, Turned(game.active))
      modifies activePiece, this`game
      ensures Lifted() && game == Try(old(game), Turned(old(game).active))
    {
      PlayableCells(game);
      TryPlayable(game, Turned(game.active));
      activePiece.RotateCW();
      game := Try(game, Turned(game.active));
    }

    /** Draw the lifted piece turned, where it fits; it was turned back after trying. */
    method Turn()
      requires Lifted() && Fits(game.settled, Turned(game.active))
      modifies fields, activePiece, this`game
      ensures IsDrawn() && game == Try(old(game), Turned(old(game).active))
    {
      EraseOld();
      TurnLifted();
      DrawNew();
    }

    /** Turn the lifted piece, see whether it fits, and turn it back. */
    method CanTurn() returns (possible: bool)
      requires Lifted()
      modifies activePiece
      ensures Lifted()
      ensures possible <==> Fits(game.settled, Turned(game.active))
    {
      PlayableCells(game);
      activePiece.RotateCW();
      assert Moved(activePiece.Value(), 0, 0) == activePiece.Value();
      possible := IsMovePossible(0, 0);
      activePiece.RotateCCW();
      TurnInjective(activePiece.Value(), game.active);
    }

    method RotatePiece()
      requires Valid()
      modifies fields, activePiece, this`game
      ensures Valid() && game == Try(old(game), Turned(old(game).active))
    {
      Lift();
      var possible := CanTurn();
      if !possible {
        PutBack();
      } else {
        Turn();
      }
    }

    /** Bring in the next piece at the top and draw lots for the one after it. */
    method LoadNextPiece()
      requires Wired()
      modifies this`activePiece, this`nextPiece, one, other, random
      ensures Wired()
      ensures activePiece.Value() == old(nextPiece.Value()).(pos := START)
      ensures IsTetrimino(nextPiece.shape) && nextPiece.rotation == 0
      ensures nextPiece.shape == ShapeOf(random.previousValue % 7)
      ensures random.previousValue == Next(old(random.previousValue))
    {
      var tmp := activePiece;
      activePiece := nextPiece;
      nextPiece := tmp;
      nextPiece.Randomize(random);
      ShapesAreTetriminos(random.previousValue % 7);
      activePiece.pos := START;
    }

    /** The first piece falls on an empty board. */
    constructor (generator: Generator, second: Word)
      modifies generator
      ensures Valid() && fresh(fields) && fresh(one) && fresh(other) && random == generator
      ensures game == NewGame(game.active.shape, game.next)
    {
      fields := new int[BOARD_HEIGHT, BOARD_WIDTH]((_, _) => EMPTY_FIELD);
      random := generator;
      var a := new Piece(generator, second);
      var b := new Piece(generator, second);
      nextPiece, activePiece := a, b;
      one, other := a, b;
      blocked := false;
      level := 1;
      lines := 0;
      score := 0;
      new;
      EmptyFields(fields);
      ghost var first := nextPiece.shape;
      LoadNextPiece();
      game := NewGame(first, nextPiece.shape);
      assert lines == 0 && score == 0 && !blocked && level == 1;
      assert View(activePiece.Value(), nextPiece.Value(), level, lines, score, blocked) == ViewOf(game, nextPiece.pos);
      NewGamePlayable(first, nextPiece.shape);
      assert Coupled();
    }

    method IsGameOver() returns (over: bool)
      requires Placed()
      ensures over <==> InHiddenRows(Cells(activePiece.Value()))
    {
      ghost var cells := Cells(activePiece.Value());
      for i := 0 to 4
        invariant |cells| == 4 ==> forall j :: 0 <= j < i ==> cells[j].y >= INVISIBLE_ROWS
      {
        var x, y := PieceCell(i);
        if y < INVISIBLE_ROWS {
          return true;
        }
      }
      return false;
    }

    /** Remove full lines and account for them. */
    method RemoveLines()
      requires BoardSized(fields) && HiddenEmpty(GridOf(fields)) && level == 1
      requires FullCount(GridOf(fields), INVISIBLE_ROWS) <= 4
      modifies fields, this`lines, this`score
      ensures GridOf(fields) == Cleared(old(GridOf(fields)))
      ensures lines == old(lines) + FullCount(old(GridOf(fields)), INVISIBLE_ROWS)
      ensures score == old(score) + LineScore(FullCount(old(GridOf(fields)), INVISIBLE_ROWS))
    {
      var counter := CheckAndRemoveLines(fields);
      lines := lines + counter;
      if counter != 0 {
        score := score + LINE_CLEAR_SCORE * Pow2(counter - 1);
        score := score + LINE_CLEAR_LEVEL_BONUS * level;
      }
      assert Pow2(0) == 1 && Pow2(1) == 2 && Pow2(2) == 4 && Pow2(3) == 8;
    }

    /** The lines made by the landed piece are gone and accounted for. */
    ghost predicate Emptied()
      reads this, Repr()
    {
      var made := FullCount(Marked(game), INVISIBLE_ROWS);
      (Wired(), GridOf(fields), nextPiece.Value(), level, lines, score, blocked) ==
      (true, Cleared(Marked(game)), Placement(game.next, 0, nextPiece.pos), 1, game.lines + made,
       game.score + LineScore(made), game.blocked)
    }

    /** The next piece takes over from the one that landed. */
    method TakeTurns()
      requires Emptied() && Playable(game) && !InHiddenRows(Cells(game.active))
      modifies this, one, other, random
      ensures IsDrawn() && game == Land(old(game), nextPiece.shape)
    {
      LoadNextPiece();
      LandPlayable(game, nextPiece.shape);
      LandView(game, nextPiece.shape);
      game := Land(game, nextPiece.shape);
      assert View(activePiece.Value(), nextPiece.Value(), level, lines, score, blocked) == ViewOf(game, nextPiece.pos);
      assert Coupled();
    }

    /** The falling piece settles and the next one appears. */
    method Settle()
      requires IsMarked() && !InHiddenRows(Cells(game.active))
      modifies this, fields, one, other, random
      ensures IsDrawn() && game == Land(old(game), nextPiece.shape)
    {
      assert HiddenEmpty(GridOf(fields)) && FullCount(GridOf(fields), INVISIBLE_ROWS) <= 4 by { LandedView(game); }
      assert GridOf(fields) == Marked(game) && lines == game.lines && score == game.score;
      assert nextPiece.Value() == Placement(game.next, 0, nextPiece.pos) && blocked == game.blocked && level == 1;
      ghost var made := FullCount(Marked(game), INVISIBLE_ROWS);
      RemoveLines();
      assert lines == game.lines + made && score == game.score + LineScore(made);
      assert blocked == game.blocked && level == 1 && Wired();
      assert Emptied();
      TakeTurns();
    }

    /** Settle the falling piece, or end the game. */
    method PlacePiece()
      requires IsMarked()
      modifies this, fields, one, other, random
      ensures Valid() && game == Land(old(game), nextPiece.shape)
    {
      PlayableCells(game);
      var over := IsGameOver();
      if over {
        Block();
      } else {
        Settle();
      }
    }

    method Block()
      requires IsMarked() && InHiddenRows(Cells(game.active))
      modifies this`blocked, this`game
      ensures IsMarked() && game == Land(old(game), nextPiece.shape)
    {
      BlockedPlayable(game);
      blocked := true;
      game := Land(game, nextPiece.shape);
    }

    /** One row down; a piece that cannot fall any further lands. */
    method MovePieceDown() returns (moved: bool)
      requires Valid()
      modifies this, fields, one, other, random
      ensures Valid()
      ensures moved <==> CanFall(old(game))
      ensures game == Fall(old(game), nextPiece.shape)
    {
      Lift();
      moved := IsMovePossible(0, 1);
      assert moved <==> CanFall(game);
      if moved {
        Shift(0, 1);
      } else {
        PutBack();
        PlacePiece();
      }
    }

    /** Let the piece fall until it lands. */
    method FallDown() returns (height: nat)
      requires Valid()
      modifies this, fields, one, other, random
      ensures Valid() && Dropping(old(game), height, false, game, nextPiece.shape)
    {
      hide Fall, CanFall, Drawn, Marked, Shows, Falling, Tidy, IsTetrimino;
      ghost var start := game;
      height := 0;
      var moved := MovePieceDown();
      DropBegins(start, moved, game, nextPiece.shape);
      while moved
        invariant Valid() && Dropping(start, height, moved, game, nextPiece.shape)
        decreases DropHeight(start.settled, start.active) - height, moved
      {
        ghost var before, any := game, nextPiece.shape;
        moved := MovePieceDown();
        DropGoesOn(start, height, before, any, moved, game, nextPiece.shape);
        height := height + 1;
      }
    }

    /** Let the piece fall; every row fallen is worth two points. */
    method DropPiece()
      requires Valid()
      modifies this, fields, one, other, random
      ensures Valid() && game == Drop(old(game), nextPiece.shape)
    {
      ghost var start := game;
      var height := FallDown();
      DropEnds(start, height, game, nextPiece.shape);
      AddToScore(DROP_BONUS_PER_LINE * height);
    }

    method AddToScore(points: int)
      requires Valid()
      modifies this`score, this`game
      ensures Valid() && game == Scored(old(game), points)
    {
      ScoredPlayable(game, points);
      score := score + points;
      game := Scored(game, points);
    }
  }

  lemma TurnInjective(p: Placement, q: Placement)
    requires p.rotation < 4 && q.rotation < 4 && Turned(p) == Turned(q)
    ensures p == q
  {
  }

  /** What the board's own fields say about the game. */
  datatype View = View(active: Placement, next: Placement, level: int, lines: nat, score: int, blocked: bool)

  ghost function ViewOf(s: State, nextPos: Point): View {
    View(s.active, Placement(s.next, 0, nextPos), 1, s.lines, s.score, s.blocked)
  }
}
