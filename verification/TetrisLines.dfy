/**
  Line removal in the field array: checkAndRemoveLines of Board.c.  The outer loop
  runs upwards from the bottom row and looks at a row again after removing it.
*/
module TetrisLines {
  import opened TetrisGrid

  ghost predicate BoardSized(fields: array2<int>) {
    fields.Length0 == BOARD_HEIGHT && fields.Length1 == BOARD_WIDTH
  }

  /** The fields as a grid; cells outside the array count as empty. */
  ghost function GridOf(fields: array2<int>): (g: Grid)
    reads fields
    ensures |g| == BOARD_HEIGHT
  {
    seq(BOARD_HEIGHT, y requires 0 <= y < BOARD_HEIGHT reads fields => RowOf(fields, y))
  }

  ghost function RowOf(fields: array2<int>, y: nat): (row: Row)
    reads fields
    ensures |row| == BOARD_WIDTH
  {
    seq(BOARD_WIDTH, x requires 0 <= x < BOARD_WIDTH reads fields =>
      if y < fields.Length0 && x < fields.Length1 then fields[y, x] else EMPTY_FIELD)
  }

  lemma GridAt(fields: array2<int>)
    requires BoardSized(fields)
    ensures Shaped(GridOf(fields))
    ensures forall x, y :: 0 <= y < BOARD_HEIGHT && 0 <= x < BOARD_WIDTH ==> GridOf(fields)[y][x] == fields[y, x]
  {
  }

  lemma EmptyFields(fields: array2<int>)
    requires BoardSized(fields)
    requires forall x, y :: 0 <= y < BOARD_HEIGHT && 0 <= x < BOARD_WIDTH ==> fields[y, x] == EMPTY_FIELD
    ensures GridOf(fields) == EmptyRows(BOARD_HEIGHT)
  {
    GridAt(fields);
    SameGrid(GridOf(fields), EmptyRows(BOARD_HEIGHT));
  }

  method SetField(fields: array2<int>, x: nat, y: nat, color: int)
    requires BoardSized(fields) && x < BOARD_WIDTH && y < BOARD_HEIGHT
    modifies fields
    ensures GridOf(fields) == SetCell(old(GridOf(fields)), Point(x, y), color)
    ensures forall u, v :: 0 <= v < BOARD_HEIGHT && 0 <= u < BOARD_WIDTH ==>
      fields[v, u] == if v == y && u == x then color else old(fields[v, u])
  {
    ghost var before := GridOf(fields);
    GridAt(fields);
    fields[y, x] := color;
    GridAt(fields);
    SameGrid(GridOf(fields), SetCell(before, Point(x, y), color));
  }

  /** Change one cell, unless it lies in the hidden rows. */
  method RedrawField(fields: array2<int>, x: nat, y: nat, color: int)
    requires BoardSized(fields) && x < BOARD_WIDTH && y < BOARD_HEIGHT
    modifies fields
    ensures GridOf(fields) ==
      if y >= INVISIBLE_ROWS then SetCell(old(GridOf(fields)), Point(x, y), color) else old(GridOf(fields))
    ensures forall u, v :: 0 <= v < BOARD_HEIGHT && 0 <= u < BOARD_WIDTH ==>
      fields[v, u] == if v == y && u == x && y >= INVISIBLE_ROWS then color else old(fields[v, u])
  {
    if y >= INVISIBLE_ROWS {
      SetField(fields, x, y, color);
    }
  }

  method IsLineFull(fields: array2<int>, y: nat) returns (full: bool)
    requires BoardSized(fields) && y < BOARD_HEIGHT
    ensures full <==> IsFull(GridOf(fields)[y])
  {
    ghost var row := GridOf(fields)[y];
    full := true;
    for j := 0 to BOARD_WIDTH
      invariant full && forall x :: 0 <= x < j ==> row[x] != EMPTY_FIELD
    {
      if fields[y, j] == EMPTY_FIELD {
        assert row[j] in row;
        full := false;
        break;
      }
    }
  }

  /** The grid when `counter` full lines were removed and the rows from q on were examined. */
  ghost function Partly(g: Grid, q: nat, counter: nat): (r: seq<Row>)
    requires |g| == BOARD_HEIGHT && INVISIBLE_ROWS <= q <= BOARD_HEIGHT
  {
    EmptyRows(INVISIBLE_ROWS + counter) + g[INVISIBLE_ROWS..q] + Remaining(g, q)
  }

  /** The rows after the removal of row i: those above it moved down, the hidden ones stayed. */
  function WithoutRow(g: Grid, i: nat): (r: seq<Row>) {
    if INVISIBLE_ROWS <= i < |g| then g[..INVISIBLE_ROWS] + g[INVISIBLE_ROWS - 1..i] + g[i + 1..] else g
  }

  lemma RemovedRow(g: Grid, after: Grid, i: nat)
    requires Shaped(g) && Shaped(after) && INVISIBLE_ROWS <= i < BOARD_HEIGHT
    requires forall x, y :: 0 <= y < BOARD_HEIGHT && 0 <= x < BOARD_WIDTH ==>
      after[y][x] == if INVISIBLE_ROWS <= y <= i then g[y - 1][x] else g[y][x]
    ensures after == WithoutRow(g, i)
  {
    var r := WithoutRow(g, i);
    assert |r| == BOARD_HEIGHT;
    forall y | 0 <= y < BOARD_HEIGHT
      ensures after[y] == r[y]
    {
      var source := if INVISIBLE_ROWS <= y <= i then y - 1 else y;
      assert r[y] == g[source];
      assert after[y] == g[source];
    }
  }

  /** Blacken row i, then move every row above it down by one. */
  method RemoveLine(fields: array2<int>, i: nat)
    requires BoardSized(fields) && INVISIBLE_ROWS <= i < BOARD_HEIGHT
    modifies fields
    ensures forall x, y :: 0 <= y < BOARD_HEIGHT && 0 <= x < BOARD_WIDTH ==>
      fields[y, x] == old(if INVISIBLE_ROWS <= y <= i then fields[y - 1, x] else fields[y, x])
    ensures GridOf(fields) == WithoutRow(old(GridOf(fields)), i)
  {
    ghost var before := GridOf(fields);
    GridAt(fields);
    MoveDownTo(fields, i);
    GridAt(fields);
    RemovedRow(before, GridOf(fields), i);
  }

  method MoveDownTo(fields: array2<int>, i: nat)
    requires BoardSized(fields) && INVISIBLE_ROWS <= i < BOARD_HEIGHT
    modifies fields
    ensures forall x, y :: 0 <= y < BOARD_HEIGHT && 0 <= x < BOARD_WIDTH ==>
      fields[y, x] == old(if INVISIBLE_ROWS <= y <= i then fields[y - 1, x] else fields[y, x])
  {
    hide GridOf, SetCell;
    for j := 0 to BOARD_WIDTH
      invariant forall x, y :: 0 <= y < BOARD_HEIGHT && 0 <= x < BOARD_WIDTH && y != i ==>
        fields[y, x] == old(fields[y, x])
    {
      RedrawField(fields, j, i, EMPTY_FIELD);
    }
    var j := i;
    while j > 0
      invariant j <= i
      invariant forall x, y :: 0 <= y < BOARD_HEIGHT && 0 <= x < BOARD_WIDTH && y != i ==>
        fields[y, x] == old(if INVISIBLE_ROWS <= y <= i && j < y then fields[y - 1, x] else fields[y, x])
      invariant j < i ==> forall x :: 0 <= x < BOARD_WIDTH ==> fields[i, x] == old(fields[i - 1, x])
    {
      label Before:
      for k := 0 to BOARD_WIDTH
        invariant forall x, y :: 0 <= y < BOARD_HEIGHT && 0 <= x < BOARD_WIDTH ==>
          fields[y, x] == if y == j && x < k && j >= INVISIBLE_ROWS
                          then old@Before(fields[j - 1, x]) else old@Before(fields[y, x])
      {
        RedrawField(fields, k, j, fields[j - 1, k]);
      }
      j := j - 1;
    }
  }

  lemma SumParts(a: seq<Row>, b: seq<Row>)
    ensures (a + b)[..|a|] == a && (a + b)[|a|..] == b
    ensures a != [] ==> (a + b)[1..] == a[1..] + b
  {
  }

  lemma WithoutLast(a: seq<Row>, b: seq<Row>, row: Row, d: seq<Row>)
    requires |a| >= INVISIBLE_ROWS
    ensures WithoutRow(a + (b + [row]) + d, |a| + |b|) == (a[..INVISIBLE_ROWS] + a[1..]) + b + d
  {
    var p, i := a + (b + [row]) + d, |a| + |b|;
    SumParts(a + (b + [row]), d);
    SumParts(a, b);
    assert a + (b + [row]) == (a + b) + [row];
    assert p[..i] == a + b && p[i + 1..] == d;
    assert p[..INVISIBLE_ROWS] == a[..INVISIBLE_ROWS] && p[1..i] == a[1..] + b;
  }

  lemma RemainingOfFull(g: Grid, q: nat)
    requires 1 <= q <= |g| && IsFull(g[q - 1])
    ensures Remaining(g, q - 1) == Remaining(g, q) && FullCount(g, q - 1) == 1 + FullCount(g, q)
  {
  }

  lemma FullRowCounts(g: Grid, q: nat)
    requires Shaped(g) && 1 <= q <= BOARD_HEIGHT && IsFull(g[q - 1])
    ensures q + FullCount(g, q) <= BOARD_HEIGHT && FullCount(g, q - 1) == 1 + FullCount(g, q)
  {
    RemainingRows(g, q);
  }

  lemma PartlyBefore(g: Grid, q: nat, counter: nat)
    requires |g| == BOARD_HEIGHT && INVISIBLE_ROWS < q <= BOARD_HEIGHT
    ensures Partly(g, q, counter) ==
      EmptyRows(INVISIBLE_ROWS + counter) + (g[INVISIBLE_ROWS..q - 1] + [g[q - 1]]) + Remaining(g, q)
  {
    assert g[INVISIBLE_ROWS..q] == g[INVISIBLE_ROWS..q - 1] + [g[q - 1]];
  }

  lemma PartlyAfter(g: Grid, q: nat, counter: nat)
    requires |g| == BOARD_HEIGHT && INVISIBLE_ROWS < q <= BOARD_HEIGHT && IsFull(g[q - 1])
    ensures var empty := EmptyRows(INVISIBLE_ROWS + counter);
      Partly(g, q - 1, counter + 1) ==
        (empty[..INVISIBLE_ROWS] + empty[1..]) + g[INVISIBLE_ROWS..q - 1] + Remaining(g, q)
  {
    var empty := EmptyRows(INVISIBLE_ROWS + counter);
    assert empty[..INVISIBLE_ROWS] + empty[1..] == EmptyRows(INVISIBLE_ROWS + (counter + 1));
    RemainingOfFull(g, q);
  }

  /** Removing the next full line. */
  lemma PartlyRemove(g: Grid, q: nat, counter: nat)
    requires |g| == BOARD_HEIGHT && INVISIBLE_ROWS < q <= BOARD_HEIGHT && IsFull(g[q - 1])
    ensures WithoutRow(Partly(g, q, counter), q - 1 + counter) == Partly(g, q - 1, counter + 1)
  {
    PartlyBefore(g, q, counter);
    PartlyAfter(g, q, counter);
    WithoutLast(EmptyRows(INVISIBLE_ROWS + counter), g[INVISIBLE_ROWS..q - 1], g[q - 1], Remaining(g, q));
  }

  lemma PartlyRow(g: Grid, q: nat, counter: nat, i: nat)
    requires Shaped(g) && INVISIBLE_ROWS <= q <= BOARD_HEIGHT && counter == FullCount(g, q)
    requires INVISIBLE_ROWS <= i && (if q > INVISIBLE_ROWS then i == q - 1 + counter else i <= 1 + counter)
    ensures i < |Partly(g, q, counter)| == BOARD_HEIGHT
    ensures Partly(g, q, counter)[i] == if q > INVISIBLE_ROWS then g[q - 1] else EmptyRow()
  {
    RemainingRows(g, q);
  }

  function Max(a: int, b: int): int { if a > b then a else b }

  /** The loop has examined the rows below i and removed `counter` lines. */
  ghost predicate Examined(g: Grid, now: Grid, i: int, counter: nat) {
    Shaped(g) && 1 <= i < BOARD_HEIGHT &&
    var q := Max(INVISIBLE_ROWS, i + 1 - counter);
    q <= BOARD_HEIGHT && counter == FullCount(g, q) && now == Partly(g, q, counter)
  }

  lemma ExaminedStart(g: Grid)
    requires Shaped(g) && HiddenEmpty(g)
    ensures Examined(g, g, BOARD_HEIGHT - 1, 0)
  {
    assert EmptyAt(g, 0) && EmptyAt(g, 1);
    assert g[..INVISIBLE_ROWS] == EmptyRows(INVISIBLE_ROWS);
  }

  lemma ExaminedAll(g: Grid, now: Grid, i: int, counter: nat)
    requires Examined(g, now, i, counter) && i < INVISIBLE_ROWS
    ensures now == Cleared(g) && counter == FullCount(g, INVISIBLE_ROWS)
  {
    assert g[INVISIBLE_ROWS..INVISIBLE_ROWS] == [];
  }

  lemma ExaminedFull(g: Grid, now: Grid, after: Grid, i: nat, counter: nat)
    requires Examined(g, now, i, counter) && i >= INVISIBLE_ROWS && Shaped(now) && IsFull(now[i])
    requires after == WithoutRow(now, i)
    ensures Examined(g, after, i, counter + 1) && counter < BOARD_HEIGHT
  {
    hide Partly, WithoutRow, Remaining, FullCount;
    var q := Max(INVISIBLE_ROWS, i + 1 - counter);
    assert q > INVISIBLE_ROWS && i == q - 1 + counter && IsFull(g[q - 1]) by {
      PartlyRow(g, q, counter, i);
    }
    FullRowCounts(g, q);
    PartlyRemove(g, q, counter);
  }

  lemma ExaminedNotFull(g: Grid, now: Grid, i: nat, counter: nat)
    requires Examined(g, now, i, counter) && i >= INVISIBLE_ROWS && Shaped(now) && !IsFull(now[i])
    ensures Examined(g, now, i - 1, counter)
  {
  }

  /**
    Remove every full visible line.  The loop ends because each pass either moves
    up a row or removes one of the full lines that are left.
  */
  method CheckAndRemoveLines(fields: array2<int>) returns (counter: nat)
    requires BoardSized(fields) && HiddenEmpty(GridOf(fields))
    modifies fields
    ensures GridOf(fields) == Cleared(old(GridOf(fields)))
    ensures counter == FullCount(old(GridOf(fields)), INVISIBLE_ROWS)
  {
    ghost var g := GridOf(fields);
    counter := 0;
    var i := BOARD_HEIGHT - 1;
    GridAt(fields);
    ExaminedStart(g);
    while i >= INVISIBLE_ROWS
      invariant Examined(g, GridOf(fields), i, counter)
      decreases 2 * i - counter + BOARD_HEIGHT
    {
      var lineWasFull := IsLineFull(fields, i);
      if lineWasFull {
        ghost var now := GridOf(fields);
        GridAt(fields);
        RemoveLine(fields, i);
        ExaminedFull(g, now, GridOf(fields), i, counter);
        i := i + 1;
        counter := counter + 1;
      } else {
        ExaminedNotFull(g, GridOf(fields), i, counter);
      }
      i := i - 1;
    }
    ExaminedAll(g, GridOf(fields), i, counter);
  }
}
