/** The Tetris game loop: keys, frames and timer ticks drive the board (Core.c, main.c). */
module TetrisCore {
  import opened TetrisGrid
  import opened TetrisGame
  import opened TetrisBoard
  import opened TetrisRandom

  const REFRESH_PERIOD: nat := 35

  const SCAN_UP: nat := 0x01
  const SCAN_DOWN: nat := 0x02
  const SCAN_HOME: nat := 0x05
  const SCAN_ESC: nat := 0x17
  const CHAR_BACKSPACE: nat := 0x08
  const CHAR_TAB: nat := 0x09
  const CHAR_CARRIAGE_RETURN: nat := 0x0D

  datatype Key = Key(scanCode: nat, unicodeChar: nat)

  datatype Mode = WaitingForStart | Running | Paused | Over | Exit

  /** The game, what the player is doing with it, and the ticks left before the piece falls. */
  datatype Play = Play(mode: Mode, ticks: nat, game: State)

  // ----- one step, on values; `drawn` is the piece drawn should one land

  function Press(p: Play, key: Key, drawn: Shape): (q: Play) {
    if p.mode == WaitingForStart then p.(mode := Running)
    else if key.scanCode == SCAN_HOME then DropKey(p, drawn)
    else if key.scanCode == SCAN_UP then TryKey(p, Moved(p.game.active, -1, 0))
    else if key.scanCode == SCAN_DOWN then TryKey(p, Moved(p.game.active, 1, 0))
    else if key.scanCode == SCAN_ESC then p.(mode := Exit)
    else PressCharacter(p, key, drawn)
  }

  function PressCharacter(p: Play, key: Key, drawn: Shape): (q: Play) {
    if key.unicodeChar == CHAR_CARRIAGE_RETURN then DownKey(p, drawn)
    else if key.unicodeChar == CHAR_TAB then TryKey(p, Turned(p.game.active))
    else if key.unicodeChar == CHAR_BACKSPACE then p.(mode := Toggled(p.mode))
    else p
  }

  /** Only a running game obeys. */
  function TryKey(p: Play, target: Placement): (q: Play) {
    if p.mode == Running then p.(game := Try(p.game, target)) else p
  }

  function DropKey(p: Play, drawn: Shape): (q: Play) {
    if p.mode == Running then Play(Running, REFRESH_PERIOD, Drop(p.game, drawn)) else p
  }

  function DownKey(p: Play, drawn: Shape): (q: Play) {
    if p.mode != Running then p
    else Play(Running, if CanFall(p.game) then p.ticks else REFRESH_PERIOD, Fall(p.game, drawn))
  }

  function Toggled(mode: Mode): Mode {
    if mode == Running then Paused else if mode == Paused then Running else mode
  }

  /** A frame notices the end of the game, and lets the piece fall when its time is up. */
  function Frame(p: Play, drawn: Shape): (q: Play) {
    var mode := if p.mode == Running && p.game.blocked then Over else p.mode;
    if p.ticks == 0 then Play(mode, REFRESH_PERIOD, Fall(p.game, drawn)) else p.(mode := mode)
  }

  function Tick(p: Play): (q: Play) {
    if p.mode == Running && p.ticks != 0 then p.(ticks := p.ticks - 1) else p
  }

  datatype Event = KeyPress(key: Key) | DrawWindow | TimerTick

  function Step(p: Play, e: Event, drawn: Shape): (q: Play) {
    match e
    case KeyPress(key) => Press(p, key, drawn)
    case DrawWindow => Frame(p, drawn)
    case TimerTick => Tick(p)
  }

  function Run(p: Play, events: seq<Event>, drawn: seq<Shape>): (q: Play)
    requires |events| == |drawn|
    decreases |events|
  {
    if events == [] then p
    else Step(Run(p, events[..|events| - 1], drawn[..|events| - 1]), events[|events| - 1], drawn[|events| - 1])
  }

  // ----- what holds over whole runs

  ghost predicate Sane(p: Play) { Playable(p.game) && p.ticks <= REFRESH_PERIOD }

  /** Neither the counts nor the way out of the game ever go back. */
  predicate Onwards(p: Play, q: Play) {
    Rank(p.mode) <= Rank(q.mode) && p.game.lines <= q.game.lines && p.game.score <= q.game.score &&
    p.game.placed <= q.game.placed && (p.game.blocked ==> q.game.blocked)
  }

  /** A game waits, then runs or pauses, then is over, then is left. */
  function Rank(mode: Mode): nat {
    match mode
    case WaitingForStart => 0
    case Running => 1
    case Paused => 1
    case Over => 2
    case Exit => 3
  }

  lemma FallOnwards(s: State, drawn: Shape)
    requires Playable(s) && IsTetrimino(drawn)
    ensures Playable(Fall(s, drawn))
    ensures Onwards(Play(Running, 0, s), Play(Running, 0, Fall(s, drawn)))
  {
    FallPlayable(s, drawn);
    LandPlayable(s, drawn);
  }

  lemma DropOnwards(s: State, drawn: Shape)
    requires Playable(s) && IsTetrimino(drawn)
    ensures Playable(Drop(s, drawn))
    ensures Onwards(Play(Running, 0, s), Play(Running, 0, Drop(s, drawn)))
  {
    DropPlayable(s, drawn);
    LowerPlayable(s, DropHeight(s.settled, s.active));
    LandPlayable(Lower(s, DropHeight(s.settled, s.active)), drawn);
  }

  lemma TryOnwards(p: Play, target: Placement)
    requires Sane(p) && target.shape == p.game.active.shape && target.rotation < 4
    ensures Sane(TryKey(p, target)) && Onwards(p, TryKey(p, target))
  {
  }

  lemma DropKeyOnwards(p: Play, drawn: Shape)
    requires Sane(p) && IsTetrimino(drawn)
    ensures Sane(DropKey(p, drawn)) && Onwards(p, DropKey(p, drawn))
  {
    DropOnwards(p.game, drawn);
  }

  lemma DownKeyOnwards(p: Play, drawn: Shape)
    requires Sane(p) && IsTetrimino(drawn)
    ensures Sane(DownKey(p, drawn)) && Onwards(p, DownKey(p, drawn))
  {
    FallOnwards(p.game, drawn);
  }

  lemma PressKeeps(p: Play, key: Key, drawn: Shape)
    requires Sane(p) && IsTetrimino(drawn)
    ensures Sane(Press(p, key, drawn)) && Onwards(p, Press(p, key, drawn))
  {
    if p.mode == WaitingForStart {
    } else if key.scanCode == SCAN_HOME {
      DropKeyOnwards(p, drawn);
    } else if key.scanCode == SCAN_UP {
      PlayableCells(p.game);
      TryOnwards(p, Moved(p.game.active, -1, 0));
    } else if key.scanCode == SCAN_DOWN {
      PlayableCells(p.game);
      TryOnwards(p, Moved(p.game.active, 1, 0));
    } else if key.scanCode != SCAN_ESC {
      PressCharacterKeeps(p, key, drawn);
    }
  }

  lemma PressCharacterKeeps(p: Play, key: Key, drawn: Shape)
    requires Sane(p) && IsTetrimino(drawn)
    ensures Sane(PressCharacter(p, key, drawn)) && Onwards(p, PressCharacter(p, key, drawn))
  {
    if key.unicodeChar == CHAR_CARRIAGE_RETURN {
      DownKeyOnwards(p, drawn);
    } else if key.unicodeChar == CHAR_TAB {
      TryOnwards(p, Turned(p.game.active));
    }
  }

  lemma StepKeeps(p: Play, e: Event, drawn: Shape)
    requires Sane(p) && IsTetrimino(drawn)
    ensures Sane(Step(p, e, drawn)) && Onwards(p, Step(p, e, drawn))
  {
    match e
    case KeyPress(key) => PressKeeps(p, key, drawn);
    case DrawWindow => FallOnwards(p.game, drawn);
    case TimerTick =>
  }

  /**
    Over every run of keys, frames and ticks: the game stays playable (the falling piece is on
    the board and off settled cells, no settled cell is hidden, no line is full, and settled
    cells + 10 * lines == 4 * pieces settled), and no count goes back.
  */
  lemma {:induction false} RunKeeps(p: Play, events: seq<Event>, drawn: seq<Shape>)
    requires Sane(p) && |events| == |drawn|
    requires forall i :: 0 <= i < |drawn| ==> IsTetrimino(drawn[i])
    ensures Sane(Run(p, events, drawn)) && Onwards(p, Run(p, events, drawn))
    decreases |events|
  {
    if events != [] {
      var n := |events| - 1;
      RunKeeps(p, events[..n], drawn[..n]);
      StepKeeps(Run(p, events[..n], drawn[..n]), events[n], drawn[n]);
    }
  }

  /**
    A game that is paused, over or left is not always at rest: a frame drawn when the time was
    up before the pause still lets the piece fall.  It leaves the game alone exactly when time
    is left, or nothing can happen to a game that is over.
  */
  lemma FrameRests(p: Play, drawn: Shape)
    ensures Frame(p, drawn).game == p.game <==>
      p.ticks != 0 || (p.game.blocked && !CanFall(p.game) && InHiddenRows(Cells(p.game.active)))
  {
  }

  // ----- what each key does, by its code

  /**
    Any key starts a waiting game.  Otherwise scan code 0x17 ends the game, the character 8 pauses
    a running game and lets a paused one go on, and the rest is for running games only: 0x01 and
    0x02 put the piece one column to the left and to the right and the character 9 turns it by one,
    where there is room; 0x0D lowers it by one row or lands it, 0x05 drops it; a landing by key
    gives it 35 ticks again.  Scan codes come before characters, and no other key does anything.
  */
  ghost predicate Obeyed(p: Play, key: Key, drawn: Shape, q: Play)
    requires Sane(p)
  {
    var s, at, r := p.game, p.game.active.pos, p.game.active.rotation;
    var character := if key.scanCode in {0x01, 0x02, 0x05, 0x17} then 0 else key.unicodeChar;
    if p.mode == WaitingForStart then q == Play(Running, p.ticks, s)
    else if key.scanCode == 0x17 then q == Play(Exit, p.ticks, s)
    else if character == 8 && p.mode == Running then q == Play(Paused, p.ticks, s)
    else if character == 8 && p.mode == Paused then q == Play(Running, p.ticks, s)
    else if p.mode != Running then q == p
    else if key.scanCode == 0x05 then
      q.mode == Running && q.ticks == 35 && exists h :: Dropped(s, drawn, h, q.game)
    else if key.scanCode == 0x01 then q == p.(game := q.game) && PutWhereRoom(s, r, at.x - 1, at.y, q.game)
    else if key.scanCode == 0x02 then q == p.(game := q.game) && PutWhereRoom(s, r, at.x + 1, at.y, q.game)
    else if character == 0x0D then
      q == Play(Running, if RoomBelow(s, 1) then p.ticks else 35, q.game) && Fallen(s, drawn, q.game)
    else if character == 9 then
      q == p.(game := q.game) && PutWhereRoom(s, if r == 3 then 0 else r + 1, at.x, at.y, q.game)
    else q == p
  }

  lemma ShiftPuts(p: Play, dx: int)
    requires Sane(p) && p.mode == Running
    ensures var at, q := p.game.active.pos, TryKey(p, Moved(p.game.active, dx, 0));
      q == p.(game := q.game) && PutWhereRoom(p.game, p.game.active.rotation, at.x + dx, at.y, q.game)
  {
    TryPuts(p.game, Moved(p.game.active, dx, 0));
  }

  lemma TurnPuts(p: Play)
    requires Sane(p) && p.mode == Running
    ensures var at, r, q := p.game.active.pos, p.game.active.rotation, TryKey(p, Turned(p.game.active));
      q == p.(game := q.game) && PutWhereRoom(p.game, if r == 3 then 0 else r + 1, at.x, at.y, q.game)
  {
    hide PutWhereRoom, Playable, Try;
    TurnedRotation(p.game);
    TryPuts(p.game, Turned(p.game.active));
  }

  lemma TurnedRotation(s: State)
    requires Playable(s)
    ensures var r := s.active.rotation;
      r < 4 && Turned(s.active) == s.active.(rotation := if r == 3 then 0 else r + 1)
  {
  }

  lemma DownFalls(p: Play, drawn: Shape)
    requires Sane(p) && p.mode == Running
    ensures var q := DownKey(p, drawn);
      q == Play(Running, if RoomBelow(p.game, 1) then p.ticks else 35, q.game) && Fallen(p.game, drawn, q.game)
  {
    FallIsFallen(p.game, drawn);
    FitsIsRoom(p.game.settled, Moved(p.game.active, 0, 1));
    hide Fits, Room, Landed, Fallen, Fall;
  }

  lemma DropDrops(p: Play, drawn: Shape)
    requires Sane(p) && p.mode == Running
    ensures var q := DropKey(p, drawn);
      q.mode == Running && q.ticks == 35 && exists h :: Dropped(p.game, drawn, h, q.game)
  {
    hide Drop, Dropped;
    DropIsDropped(p.game, drawn);
  }

  lemma PressObeys(p: Play, key: Key, drawn: Shape)
    requires Sane(p)
    ensures Obeyed(p, key, drawn, Press(p, key, drawn))
  {
    hide Playable, TryKey, DropKey, DownKey, Moved, Turned, Dropped, Fallen, PutWhereRoom, RoomBelow;
    if p.mode == Running {
      ShiftPuts(p, -1);
      ShiftPuts(p, 1);
      TurnPuts(p);
      DownFalls(p, drawn);
      DropDrops(p, drawn);
    } else {
      NotRunning(p, drawn);
    }
  }

  /** A frame ends a running game that is blocked, and lets the piece fall, in any mode, when no tick is left. */
  ghost predicate FrameDrawn(p: Play, drawn: Shape, q: Play)
    requires Sane(p)
  {
    q.mode == (if p.mode == Running && p.game.blocked then Over else p.mode) &&
    if p.ticks > 0 then q.ticks == p.ticks && q.game == p.game else q.ticks == 35 && Fallen(p.game, drawn, q.game)
  }

  lemma FrameDraws(p: Play, drawn: Shape)
    requires Sane(p)
    ensures FrameDrawn(p, drawn, Frame(p, drawn))
  {
    FallIsFallen(p.game, drawn);
    hide Fallen, Fall, Playable;
  }

  lemma NotRunning(p: Play, drawn: Shape)
    requires p.mode != Running
    ensures DropKey(p, drawn) == p && DownKey(p, drawn) == p && forall target :: TryKey(p, target) == p
  {
  }

  // ----- when the piece falls

  predicate NoKeys(events: seq<Event>) { forall i :: 0 <= i < |events| ==> !events[i].KeyPress? }

  function Ticks(events: seq<Event>): (n: nat)
    ensures n <= |events|
  {
    if events == [] then 0
    else Ticks(events[..|events| - 1]) + if events[|events| - 1].TimerTick? then 1 else 0
  }

  lemma RunSnoc(p: Play, events: seq<Event>, drawn: seq<Shape>, e: Event, d: Shape)
    requires |events| == |drawn|
    ensures Run(p, events + [e], drawn + [d]) == Step(Run(p, events, drawn), e, d)
  {
    assert (events + [e])[..|events|] == events && (drawn + [d])[..|drawn|] == drawn;
  }

  lemma {:induction false} RunAppend(p: Play, a: seq<Event>, x: seq<Shape>, b: seq<Event>, y: seq<Shape>)
    requires |a| == |x| && |b| == |y|
    ensures Run(p, a + b, x + y) == Run(Run(p, a, x), b, y)
    decreases |b|
  {
    if b == [] {
      assert a + b == a && x + y == x;
    } else {
      hide Run, Step;
      var n := |b| - 1;
      RunAppend(p, a, x, b[..n], y[..n]);
      RunSnoc(p, a + b[..n], x + y[..n], b[n], y[n]);
      RunSnoc(Run(p, a, x), b[..n], y[..n], b[n], y[n]);
      assert b == b[..n] + [b[n]] && y == y[..n] + [y[n]];
      assert a + b == (a + b[..n]) + [b[n]] && x + y == (x + y[..n]) + [y[n]];
    }
  }

  /** Until its time is up, neither ticks nor frames move the piece of a running game. */
  lemma {:induction false} WaitsForItsTime(p: Play, events: seq<Event>, drawn: seq<Shape>)
    requires p.mode == Running && !p.game.blocked && |events| == |drawn|
    requires NoKeys(events) && Ticks(events) < p.ticks
    ensures Run(p, events, drawn) == p.(ticks := p.ticks - Ticks(events))
    decreases |events|
  {
    if events != [] {
      var n := |events| - 1;
      WaitsForItsTime(p, events[..n], drawn[..n]);
    }
  }

  lemma {:induction false} TicksOnly(p: Play, events: seq<Event>, drawn: seq<Shape>)
    requires p.mode == Running && |events| == |drawn|
    requires forall i :: 0 <= i < |events| ==> events[i].TimerTick?
    ensures Run(p, events, drawn) == p.(ticks := if |events| < p.ticks then p.ticks - |events| else 0)
    decreases |events|
  {
    if events != [] {
      var n := |events| - 1;
      TicksOnly(p, events[..n], drawn[..n]);
    }
  }

  /**
    Left alone, a running game lets its piece fall by one row, or land, in the first frame after
    its ticks are used up, and in no frame before; then it has 35 ticks again.  `early` are the
    frames and ticks while time is left, `late` the ticks after which the frame is drawn.
  */
  lemma FallsOnTime(p: Play, early: seq<Event>, x: seq<Shape>, late: seq<Event>, y: seq<Shape>, d: Shape)
    requires p.mode == Running && !p.game.blocked && |early| == |x| && |late| == |y|
    requires NoKeys(early) && Ticks(early) < p.ticks
    requires forall i :: 0 <= i < |late| ==> late[i].TimerTick?
    ensures Run(p, early, x).game == p.game && Run(p, early + late, x + y).game == p.game
    ensures var q := Run(p, early + late + [DrawWindow], x + y + [d]);
      if Ticks(early) + |late| < p.ticks then q == p.(ticks := p.ticks - Ticks(early) - |late|)
      else q == Play(Running, 35, Fall(p.game, d)) && (Playable(p.game) ==> Fallen(p.game, d, q.game))
  {
    if Playable(p.game) {
      FallIsFallen(p.game, d);
    }
    hide Fallen, Playable, Fall;
    WaitsForItsTime(p, early, x);
    RunAppend(p, early, x, late, y);
    TicksOnly(Run(p, early, x), late, y);
    RunSnoc(p, early + late, x + y, DrawWindow, d);
  }

  // ----- games that do not run

  /** In how many of the events the game itself changed. */
  function Moves(p: Play, events: seq<Event>, drawn: seq<Shape>): (n: nat)
    requires |events| == |drawn|
    decreases |events|
  {
    if events == [] then 0
    else
      var n := |events| - 1;
      Moves(p, events[..n], drawn[..n]) +
        if Run(p, events, drawn).game == Run(p, events[..n], drawn[..n]).game then 0 else 1
  }

  /** The game is not running before, after and between these events. */
  predicate NeverRuns(p: Play, events: seq<Event>, drawn: seq<Shape>)
    requires |events| == |drawn|
    decreases |events|
  {
    Run(p, events, drawn).mode != Running &&
    (events != [] ==> NeverRuns(p, events[..|events| - 1], drawn[..|events| - 1]))
  }

  lemma {:induction false} NoKeysNeverRuns(p: Play, events: seq<Event>, drawn: seq<Shape>)
    requires p.mode != Running && |events| == |drawn| && NoKeys(events)
    ensures NeverRuns(p, events, drawn) && Run(p, events, drawn).mode == p.mode
    decreases |events|
  {
    if events != [] {
      var n := |events| - 1;
      NoKeysNeverRuns(p, events[..n], drawn[..n]);
    }
  }

  /** Keys and ticks never touch a game that does not run. */
  lemma OnlyRunningGamesMove(p: Play, e: Event, drawn: Shape)
    requires p.mode != Running && !e.DrawWindow?
    ensures Step(p, e, drawn).game == p.game && Step(p, e, drawn).ticks == p.ticks
  {
  }

  /**
    As long as a game does not run, whatever keys, frames and ticks come, it moves at most once,
    and not at all when time was left.
  */
  lemma {:induction false} RestsAfterOneMove(p: Play, events: seq<Event>, drawn: seq<Shape>)
    requires |events| == |drawn| && NeverRuns(p, events, drawn)
    ensures var q := Run(p, events, drawn);
      && Moves(p, events, drawn) <= 1
      && (p.ticks != 0 ==> q.game == p.game && q.ticks == p.ticks && Moves(p, events, drawn) == 0)
      && (q.ticks == 0 ==> q.game == p.game && Moves(p, events, drawn) == 0)
    decreases |events|
  {
    if events != [] {
      var n := |events| - 1;
      RestsAfterOneMove(p, events[..n], drawn[..n]);
      if !events[n].DrawWindow? {
        OnlyRunningGamesMove(Run(p, events[..n], drawn[..n]), events[n], drawn[n]);
      }
    }
  }

  const PAUSE := Key(0, CHAR_BACKSPACE)

  function AnyTicks(n: nat): (events: seq<Event>)
    ensures |events| == n && forall i :: 0 <= i < n ==> events[i] == TimerTick
  {
    seq(n, _ => TimerTick)
  }

  /** The game is started with any key, its time runs out, the player pauses, and a frame is drawn. */
  function PausedInTime(key: Key): (events: seq<Event>) {
    [KeyPress(key)] + AnyTicks(REFRESH_PERIOD) + [KeyPress(PAUSE)] + [DrawWindow]
  }

  /** The piece of this new game falls while the game is paused. */
  lemma PausedGameMoves(key: Key, first: Shape, next: Shape, d: Shape)
    ensures var p := Play(WaitingForStart, REFRESH_PERIOD, NewGame(first, next));
      var events := PausedInTime(key);
      var before := Run(p, events[..|events| - 1], seq(|events| - 1, _ => d));
      var after := Run(p, events, seq(|events|, _ => d));
      before.mode == Paused && before.game == p.game && after.mode == Paused && after.game != p.game
  {
    var p := Play(WaitingForStart, REFRESH_PERIOD, NewGame(first, next));
    var started, waited := [KeyPress(key)], [KeyPress(key)] + AnyTicks(REFRESH_PERIOD);
    var paused := waited + [KeyPress(PAUSE)];
    var n := REFRESH_PERIOD;
    RunSnoc(p, [], [], KeyPress(key), d);
    RunAppend(p, started, [d], AnyTicks(n), seq(n, _ => d));
    TicksOnly(Run(p, started, [d]), AnyTicks(n), seq(n, _ => d));
    RunSnoc(p, waited, [d] + seq(n, _ => d), KeyPress(PAUSE), d);
    RunSnoc(p, paused, [d] + seq(n, _ => d) + [d], DrawWindow, d);
    assert [] + started == started && [] + [d] == [d];
    assert seq(n + 2, _ => d) == [d] + seq(n, _ => d) + [d];
    assert seq(n + 3, _ => d) == [d] + seq(n, _ => d) + [d] + [d];
    assert PausedInTime(key)[..n + 2] == paused;
    FrameRests(Run(p, paused, seq(n + 2, _ => d)), d);
  }

  datatype Option<T> = None | Some(value: T)

  class Core {
    var gameState: Mode
    var tickCounter: nat
    const board: Board

    ghost predicate Valid()
      reads this, board, board.Repr()
    {
      board.Valid() && tickCounter <= REFRESH_PERIOD
    }

    ghost function Now(): Play
      reads this, board
    {
      Play(gameState, tickCounter, board.game)
    }

    constructor (random: Generator, second: Word)
      modifies random
      ensures Valid() && fresh(board) && fresh(board.fields) && fresh(board.one) && fresh(board.other)
      ensures board.random == random
      ensures Now() == Play(WaitingForStart, REFRESH_PERIOD, NewGame(board.game.active.shape, board.game.next))
    {
      board := new Board(random, second);
      gameState := WaitingForStart;
      tickCounter := REFRESH_PERIOD;
    }

    method ResetTickCounter()
      requires board.Valid()
      modifies this`tickCounter
      ensures tickCounter == REFRESH_PERIOD
    {
      tickCounter := (REFRESH_PERIOD * (11 - board.level)) / 10;
    }

    method TogglePause()
      requires gameState == Running || gameState == Paused
      modifies this`gameState
      ensures gameState == Toggled(old(gameState))
    {
      gameState := if gameState == Paused then Running else Paused;
    }

    /** React to a key, if one was pressed. */
    method HandleInput(pressed: Option<Key>)
      requires Valid()
      modifies this, board, board.fields, board.one, board.other, board.random
      ensures Valid()
      ensures pressed.None? ==> Now() == old(Now())
      ensures pressed.Some? ==> Now() == Press(old(Now()), pressed.value, board.nextPiece.shape)
      ensures pressed.Some? ==> Obeyed(old(Now()), pressed.value, board.nextPiece.shape, Now())
    {
      hide Obeyed, Press;
      if pressed.Some? {
        ghost var before := Now();
        HandleKey(pressed.value);
        PressObeys(before, pressed.value, board.nextPiece.shape);
      }
    }

    method HandleKey(key: Key)
      requires Valid()
      modifies this, board, board.fields, board.one, board.other, board.random
      ensures Valid() && Now() == Press(old(Now()), key, board.nextPiece.shape)
    {
      if gameState == WaitingForStart {
        gameState := Running;
      } else if key.scanCode == SCAN_HOME {
        HandleHome();
      } else if key.scanCode == SCAN_UP {
        if gameState == Running {
          board.MovePieceLeft();
        }
      } else if key.scanCode == SCAN_DOWN {
        if gameState == Running {
          board.MovePieceRight();
        }
      } else if key.scanCode == SCAN_ESC {
        gameState := Exit;
      } else {
        HandleCharacter(key);
      }
    }

    method HandleHome()
      requires Valid()
      modifies this, board, board.fields, board.one, board.other, board.random
      ensures Valid() && Now() == DropKey(old(Now()), board.nextPiece.shape)
    {
      if gameState == Running {
        board.DropPiece();
        assert board.game == Drop(old(board.game), board.nextPiece.shape);
        ResetTickCounter();
      }
    }

    method HandleReturn()
      requires Valid()
      modifies this, board, board.fields, board.one, board.other, board.random
      ensures Valid() && Now() == DownKey(old(Now()), board.nextPiece.shape)
    {
      if gameState == Running {
        var moved := board.MovePieceDown();
        if !moved {
          ResetTickCounter();
        }
      }
    }

    method HandleCharacter(key: Key)
      requires Valid()
      modifies this, board, board.fields, board.one, board.other, board.random
      ensures Valid() && Now() == PressCharacter(old(Now()), key, board.nextPiece.shape)
    {
      if key.unicodeChar == CHAR_CARRIAGE_RETURN {
        HandleReturn();
      } else if key.unicodeChar == CHAR_TAB {
        if gameState == Running {
          board.RotatePiece();
        }
      } else if key.unicodeChar == CHAR_BACKSPACE {
        if gameState == Running || gameState == Paused {
          TogglePause();
        }
      }
    }

    method DrawWindow()
      requires Valid()
      modifies this, board, board.fields, board.one, board.other, board.random
      ensures Valid() && Now() == Frame(old(Now()), board.nextPiece.shape)
      ensures FrameDrawn(old(Now()), board.nextPiece.shape, Now())
    {
      hide Fallen, FrameDrawn;
      ghost var before := Now();
      if gameState == Running && board.blocked {
        gameState := Over;
      }
      if tickCounter == 0 {
        var _ := board.MovePieceDown();
        ResetTickCounter();
      }
      FrameDraws(before, board.nextPiece.shape);
    }

    method TimerCallback()
      requires Valid()
      modifies this`tickCounter
      ensures Valid() && Now() == Tick(old(Now()))
      ensures gameState == old(gameState) && board.game == old(board.game)
      ensures tickCounter == old(tickCounter) - if gameState == Running && old(tickCounter) > 0 then 1 else 0
    {
      if gameState == Running && tickCounter != 0 {
        tickCounter := tickCounter - 1;
      }
    }

    /** One event; a key press stands for a pass of the main loop that finds a key. */
    method Handle(e: Event)
      requires Valid()
      modifies this, board, board.fields, board.one, board.other, board.random
      ensures Valid() && Now() == Step(old(Now()), e, board.nextPiece.shape)
    {
      match e
      case KeyPress(key) => HandleInput(Some(key));
      case DrawWindow => DrawWindow();
      case TimerTick => TimerCallback();
    }

    /** Whatever happens, in whatever order, the game stays playable and never goes back. */
    method Session(events: seq<Event>)
      requires Valid()
      modifies this, board, board.fields, board.one, board.other, board.random
      ensures Valid() && Sane(Now()) && Onwards(old(Now()), Now())
    {
      for i := 0 to |events|
        invariant Valid() && Onwards(old(Now()), Now())
      {
        ghost var before := Now();
        Handle(events[i]);
        StepKeeps(before, events[i], board.nextPiece.shape);
      }
    }
  }
}
