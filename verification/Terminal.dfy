/**
  The reference text terminal: it takes one character at a time.

  Backspace steps back (across a line start when there is a line above) and
  leaves a narrow space in the cell it moves to; line feed moves down or
  scrolls; carriage return moves to column 0; the WIDE and NARROW markers set
  the glyph width; every other character is put at the cursor, and a glyph that
  reaches the right edge wraps.  A wide glyph that would cross the right edge is
  pushed to the next line and a narrow space pads the cell it leaves.
*/
module Terminal {
  import opened TextCells

  datatype Terminal = Terminal(
    cols: nat,
    rows: nat,
    grid: Grid,
    col: nat,
    row: nat,
    attr: Attribute)

  ghost predicate WellFormed(t: Terminal) {
    2 <= t.cols && 1 <= t.rows && Shaped(t.grid, t.rows, t.cols) &&
    t.row < t.rows && t.col <= t.cols
  }

  /** Cursor inside the text window; one past the right edge allows only a carriage return. */
  ghost predicate Ready(t: Terminal, s: seq<Char16>) {
    WellFormed(t) && (t.col < t.cols || (s != [] && s[0] == CHAR_CARRIAGE_RETURN))
  }

  ghost function Put(t: Terminal, c: Char16): (r: Terminal)
    requires WellFormed(t) && t.col + GlyphWidth(t.attr) <= t.cols
    ensures WellFormed(r) && r.col == t.col + GlyphWidth(t.attr)
  {
    t.(grid := DrawAt(t.grid, t.row, t.col, CellsOf(c, t.attr)), col := t.col + GlyphWidth(t.attr))
  }

  ghost function PutNarrowSpace(t: Terminal): (r: Terminal)
    requires WellFormed(t) && t.col < t.cols
    ensures WellFormed(r) && r.col == t.col + 1
  {
    Put(t.(attr := t.attr.(wide := false)), CHAR_SPACE).(attr := t.attr)
  }

  ghost function LineFeed(t: Terminal): (r: Terminal)
    requires WellFormed(t)
    ensures WellFormed(r) && r.col == t.col
  {
    if t.row == t.rows - 1
    then t.(grid := ScrollText(t.grid, t.cols, Background(t.attr)))
    else t.(row := t.row + 1)
  }

  ghost function NewLine(t: Terminal): (r: Terminal)
    requires WellFormed(t)
    ensures WellFormed(r) && r.col == 0
  {
    LineFeed(t.(col := 0))
  }

  ghost function WrapIfFull(t: Terminal): (r: Terminal)
    requires WellFormed(t)
    ensures WellFormed(r) && r.col < r.cols
  {
    if t.col == t.cols then NewLine(t) else t
  }

  ghost function Backspace(t: Terminal): (r: Terminal)
    requires WellFormed(t) && t.col < t.cols
    ensures WellFormed(r) && r.col < r.cols
  {
    if t.col == 0 && t.row > 0 then
      PutNarrowSpace(t.(row := t.row - 1, col := t.cols - 1)).(col := t.cols - 1)
    else if t.col > 0 then
      PutNarrowSpace(t.(col := t.col - 1)).(col := t.col - 1)
    else t
  }

  /** Give up the rest of the line to a glyph that does not fit on it. */
  ghost function Pad(t: Terminal): (r: Terminal)
    requires WellFormed(t) && t.col < t.cols
    ensures WellFormed(r) && r.col == 0
  {
    NewLine(PutNarrowSpace(t))
  }

  ghost function Print(t: Terminal, c: Char16): (r: Terminal)
    requires WellFormed(t) && t.col < t.cols
    ensures WellFormed(r) && r.col < r.cols
  {
    if t.col + GlyphWidth(t.attr) > t.cols
    then WrapIfFull(Put(Pad(t), c))
    else WrapIfFull(Put(t, c))
  }

  ghost function Step(t: Terminal, c: Char16): (r: Terminal)
    requires Ready(t, [c])
    ensures WellFormed(r) && r.col < r.cols
    ensures r.cols == t.cols && r.rows == t.rows && r.attr.colors == t.attr.colors
  {
    if c == CHAR_CARRIAGE_RETURN then t.(col := 0)
    else if c == CHAR_BACKSPACE then Backspace(t)
    else if c == CHAR_LINEFEED then LineFeed(t)
    else if c == WIDE_CHAR then t.(attr := t.attr.(wide := true))
    else if c == NARROW_CHAR then t.(attr := t.attr.(wide := false))
    else Print(t, c)
  }

  ghost function Run(t: Terminal, s: seq<Char16>): (r: Terminal)
    requires Ready(t, s)
    ensures WellFormed(r) && r.col < r.cols
    ensures r.cols == t.cols && r.rows == t.rows && r.attr.colors == t.attr.colors
    decreases s
  {
    if s == [] then t else Run(Step(t, s[0]), s[1..])
  }

  // ----- drawing a whole run of glyphs in one call

  /** Put every character of s without wrapping: what one call of the font driver draws. */
  ghost function PutRun(t: Terminal, s: seq<Char16>): (r: Terminal)
    requires WellFormed(t) && t.col + |s| * GlyphWidth(t.attr) <= t.cols
    ensures WellFormed(r)
  {
    t.(grid := DrawAt(t.grid, t.row, t.col, RunCells(s, t.attr)),
       col := t.col + |s| * GlyphWidth(t.attr))
  }

  lemma PutRunStep(t: Terminal, s: seq<Char16>)
    requires WellFormed(t) && s != [] && t.col + |s| * GlyphWidth(t.attr) <= t.cols
    ensures t.col + GlyphWidth(t.attr) <= t.cols
    ensures var p := Put(t, s[0]);
            p.col + |s[1..]| * GlyphWidth(p.attr) <= p.cols && PutRun(p, s[1..]) == PutRun(t, s)
  {
    var w := GlyphWidth(t.attr);
    assert |s| * w == w + |s[1..]| * w;
    var p := Put(t, s[0]);
    var first, rest := CellsOf(s[0], t.attr), RunCells(s[1..], t.attr);
    var old_row := t.grid[t.row];
    assert Overwrite(Overwrite(old_row, t.col, first), p.col, rest)
        == Overwrite(old_row, t.col, first + rest);
  }

  /**
    Batching is invisible: drawing a run of glyphs that fits on the line and then
    wrapping if the line is full equals handling them one at a time.
  */
  lemma {:induction false} BatchedRun(t: Terminal, s: seq<Char16>, n: nat)
    requires n <= |s| && WellFormed(t) && t.col < t.cols
    requires forall k :: 0 <= k < n ==> IsPrinting(s[k])
    requires t.col + n * GlyphWidth(t.attr) <= t.cols
    ensures Run(t, s) == Run(WrapIfFull(PutRun(t, s[..n])), s[n..])
    decreases n
  {
    if n == 0 {
      assert s[..0] == [] && s[0..] == s;
      assert DrawAt(t.grid, t.row, t.col, []) == t.grid by {
        assert Overwrite(t.grid[t.row], t.col, []) == t.grid[t.row];
      }
    } else {
      var w := GlyphWidth(t.attr);
      PutRunStep(t, s[..n]);
      assert s[..n][1..] == s[1..][..n - 1];
      assert s[1..][n - 1..] == s[n..];
      var p := Put(t, s[0]);
      if n == 1 {
        assert s[..1][1..] == [];
        assert PutRun(p, []) == p by {
          assert Overwrite(p.grid[p.row], p.col, []) == p.grid[p.row];
        }
      } else {
        assert (n - 1) * w == n * w - w && (n - 1) * w >= 1;
        BatchedRun(p, s[1..], n - 1);
      }
    }
  }

  /** Padding first and then taking the pushed-back wide glyph is one step of the terminal. */
  lemma PadThenRun(t: Terminal, s: seq<Char16>)
    requires WellFormed(t) && t.col < t.cols && s != [] && IsPrinting(s[0])
    requires t.col + GlyphWidth(t.attr) > t.cols
    ensures Run(Pad(t), s) == Run(t, s)
  {
  }

  lemma RunTwo(t: Terminal, a: Char16, b: Char16)
    requires Ready(t, [a])
    ensures Ready(t, [a, b]) && Ready(Step(t, a), [b])
    ensures Run(t, [a, b]) == Step(Step(t, a), b)
  {
    assert [a, b][1..] == [b] && [b][1..] == [];
    assert Run(Step(t, a), [b]) == Step(Step(t, a), b);
  }

  lemma StepSpace(t: Terminal)
    requires WellFormed(t) && t.col < t.cols && !t.attr.wide
    ensures Step(t, CHAR_SPACE) == WrapIfFull(Put(t, CHAR_SPACE))
  {
  }

  lemma RunSpace(t: Terminal)
    requires WellFormed(t) && t.col < t.cols
    ensures Run(t, SPACE_STR).(attr := t.attr) == WrapIfFull(PutNarrowSpace(t))
  {
    var narrow := t.(attr := t.attr.(wide := false));
    StepNarrow(t);
    RunTwo(t, NARROW_CHAR, CHAR_SPACE);
    StepSpace(narrow);
    SpaceKeepsWidth(t);
  }

  lemma StepNarrow(t: Terminal)
    requires WellFormed(t) && t.col < t.cols
    ensures Step(t, NARROW_CHAR) == t.(attr := t.attr.(wide := false))
  {
  }

  lemma SpaceKeepsWidth(t: Terminal)
    requires WellFormed(t) && t.col < t.cols
    ensures var narrow := t.(attr := t.attr.(wide := false));
      WrapIfFull(Put(narrow, CHAR_SPACE)).(attr := t.attr) == WrapIfFull(PutNarrowSpace(t))
  {
  }

  lemma RunCrLf(t: Terminal)
    requires WellFormed(t)
    ensures Run(t, CRLF_STR) == NewLine(t)
  {
    RunTwo(t, CHAR_CARRIAGE_RETURN, CHAR_LINEFEED);
  }

  /** Output is compositional: printing a then b is printing a + b. */
  lemma {:induction false} RunAppend(t: Terminal, a: seq<Char16>, b: seq<Char16>)
    requires Ready(t, a)
    ensures Ready(t, a + b)
    ensures Run(t, a + b) == Run(Run(t, a), b)
    decreases a
  {
    if a == [] {
      assert a + b == b;
    } else {
      assert (a + b)[1..] == a[1..] + b;
      RunAppend(Step(t, a[0]), a[1..], b);
    }
  }

  // ----- what one character does, cell by cell and in numbers

  /**
    The character was printed.  Think of the screen as the upper end of a sheet of paper, blank
    in the background colour (bits 4-6 of the colours) below the screen.  The glyph stands one
    or two cells wide at the cursor, or at the start of the next line when a wide one does not
    fit, a narrow space then filling the last column.  A line that is full ends, and the screen
    shows the paper moved up by as many rows as keep the cursor on it.
  */
  ghost predicate Printed(t: Terminal, ch: Char16, grid: Grid, row: int, col: int)
    requires WellFormed(t) && Shaped(grid, t.rows, t.cols)
  {
    var w := if t.attr.wide then 2 else 1;
    var pushed := t.col + w > t.cols;
    var line := if pushed then t.row + 1 else t.row;
    var left := if pushed then 0 else t.col;
    var full := left + w == t.cols;
    var end := if full then line + 1 else line;
    var up := if end < t.rows then 0 else end - (t.rows - 1);
    && row == end - up
    && col == (if full then 0 else left + w)
    && forall i, j :: 0 <= i < t.rows && 0 <= j < t.cols ==>
      grid[i][j] ==
        if i + up == line && left <= j < left + w then
          Glyph(ch, if !t.attr.wide then Whole else if j == left then Left else Right, t.attr.colors)
        else if pushed && i + up == t.row && j == t.cols - 1 then Glyph(0x20, Whole, t.attr.colors)
        else if i + up < t.rows then t.grid[i + up][j]
        else Fill(t.attr.colors / 16)
  }

  /** The cursor stepped back one cell, to the line above from column 0, and only that cell is blanked. */
  ghost predicate SteppedBack(t: Terminal, grid: Grid, row: int, col: int)
    requires WellFormed(t) && Shaped(grid, t.rows, t.cols)
  {
    if t.row == 0 && t.col == 0 then row == 0 && col == 0 && grid == t.grid
    else
      && row == (if t.col == 0 then t.row - 1 else t.row)
      && col == (if t.col == 0 then t.cols - 1 else t.col - 1)
      && forall i, j :: 0 <= i < t.rows && 0 <= j < t.cols ==>
        grid[i][j] == if i == row && j == col then Glyph(0x20, Whole, t.attr.colors) else t.grid[i][j]
  }

  /** The cursor went down one row; on the last row every row moved up one and the last was blanked. */
  ghost predicate FedLine(t: Terminal, grid: Grid, row: int, col: int)
    requires WellFormed(t) && Shaped(grid, t.rows, t.cols)
  {
    col == t.col &&
    if t.row < t.rows - 1 then row == t.row + 1 && grid == t.grid
    else
      && row == t.row
      && forall i, j :: 0 <= i < t.rows && 0 <= j < t.cols ==>
        grid[i][j] == if i == t.rows - 1 then Fill(t.attr.colors / 16) else t.grid[i + 1][j]
  }

  /** What typing character ch on t does to the text and the cursor. */
  ghost predicate Typed(t: Terminal, ch: Char16, grid: Grid, row: int, col: int)
    requires WellFormed(t)
  {
    Shaped(grid, t.rows, t.cols) &&
    if ch == 8 then SteppedBack(t, grid, row, col)
    else if ch == 0xA then FedLine(t, grid, row, col)
    else if ch == 0xD then row == t.row && col == 0 && grid == t.grid
    else if ch == 0xFFF0 || ch == 0xFFF1 then row == t.row && col == t.col && grid == t.grid
    else Printed(t, ch, grid, row, col)
  }

  /** The characters of s were typed one after the other; the markers alone set the glyph width. */
  ghost predicate TypedInTurn(t: Terminal, s: seq<Char16>, grid: Grid, row: int, col: int)
    requires WellFormed(t)
    decreases s
  {
    if s == [] then grid == t.grid && row == t.row && col == t.col
    else exists m: Terminal ::
      && Next(t, s[0], m)
      && TypedInTurn(m, s[1..], grid, row, col)
  }

  ghost predicate Next(t: Terminal, ch: Char16, m: Terminal)
    requires WellFormed(t)
    ensures Next(t, ch, m) ==> WellFormed(m)
  {
    && WellFormed(m) && Typed(t, ch, m.grid, m.row, m.col)
    && m.cols == t.cols && m.rows == t.rows && m.attr.colors == t.attr.colors
    && m.attr.wide == (ch == 0xFFF1 || (ch != 0xFFF0 && t.attr.wide))
  }

  lemma PutCells(t: Terminal, ch: Char16)
    requires WellFormed(t) && t.col + GlyphWidth(t.attr) <= t.cols
    ensures var r := Put(t, ch);
      && r == t.(grid := r.grid, col := t.col + (if t.attr.wide then 2 else 1))
      && forall i, j :: 0 <= i < t.rows && 0 <= j < t.cols ==>
        r.grid[i][j] ==
          if i == t.row && t.col <= j < t.col + (if t.attr.wide then 2 else 1) then
            Glyph(ch, if !t.attr.wide then Whole else if j == t.col then Left else Right, t.attr.colors)
          else t.grid[i][j]
  {
  }

  lemma LineFeedCells(t: Terminal)
    requires WellFormed(t)
    ensures var r := LineFeed(t);
      r == t.(grid := r.grid, row := r.row) && FedLine(t, r.grid, r.row, r.col)
  {
  }

  lemma BackspaceCells(t: Terminal)
    requires WellFormed(t) && t.col < t.cols
    ensures var r := Backspace(t);
      r == t.(grid := r.grid, row := r.row, col := r.col) && SteppedBack(t, r.grid, r.row, r.col)
  {
    hide Put;
    if t.col > 0 {
      PutCells(t.(attr := t.attr.(wide := false), col := t.col - 1), CHAR_SPACE);
    } else if t.row > 0 {
      PutCells(t.(attr := t.attr.(wide := false), row := t.row - 1, col := t.cols - 1), CHAR_SPACE);
    }
  }

  /** A glyph that fits on the line, with room behind it. */
  lemma PrintInside(t: Terminal, ch: Char16)
    requires WellFormed(t) && t.col + GlyphWidth(t.attr) < t.cols
    ensures var r := Put(t, ch); Printed(t, ch, r.grid, r.row, r.col)
  {
    hide Put;
    PutCells(t, ch);
  }

  /** A glyph that fills the line. */
  lemma PrintAtEdge(t: Terminal, ch: Char16)
    requires WellFormed(t) && t.col + GlyphWidth(t.attr) == t.cols
    ensures var r := LineFeed(Put(t, ch).(col := 0)); Printed(t, ch, r.grid, r.row, r.col)
  {
    hide Put, LineFeed;
    PutCells(t, ch);
    LineFeedCells(Put(t, ch).(col := 0));
  }

  lemma PrintCells(t: Terminal, ch: Char16)
    requires WellFormed(t) && t.col + GlyphWidth(t.attr) <= t.cols
    ensures var r := WrapIfFull(Put(t, ch));
      r == t.(grid := r.grid, row := r.row, col := r.col) && Printed(t, ch, r.grid, r.row, r.col)
  {
    hide Put, LineFeed, Printed, FedLine, Shaped;
    PutCells(t, ch);
    if t.col + GlyphWidth(t.attr) < t.cols {
      PrintInside(t, ch);
    } else {
      LineFeedCells(Put(t, ch).(col := 0));
      PrintAtEdge(t, ch);
    }
  }

  /** A wide glyph in the last column leaves a space there and starts a line. */
  lemma PadCells(t: Terminal)
    requires WellFormed(t) && t.col == t.cols - 1
    ensures var p := Pad(t);
      && p == t.(grid := p.grid, row := p.row, col := 0)
      && p.row == (if t.row + 1 < t.rows then t.row + 1 else t.row)
      && forall i, j :: 0 <= i < t.rows && 0 <= j < t.cols ==>
        p.grid[i][j] ==
          if i + (t.row + 1 - p.row) == t.row && j == t.cols - 1 then Glyph(0x20, Whole, t.attr.colors)
          else if i + (t.row + 1 - p.row) < t.rows then t.grid[i + (t.row + 1 - p.row)][j]
          else Fill(t.attr.colors / 16)
  {
    hide Put, LineFeed;
    PutCells(t.(attr := t.attr.(wide := false)), CHAR_SPACE);
    LineFeedCells(PutNarrowSpace(t).(col := 0));
  }

  lemma PushedCells(t: Terminal, ch: Char16)
    requires WellFormed(t) && t.col < t.cols < t.col + GlyphWidth(t.attr)
    ensures var r := WrapIfFull(Put(Pad(t), ch));
      r == t.(grid := r.grid, row := r.row, col := r.col) && Printed(t, ch, r.grid, r.row, r.col)
  {
    hide Put, Pad, WrapIfFull;
    PadCells(t);
    PrintCells(Pad(t), ch);
  }

  /** The one-character step of the terminal has the effect told above, and nothing else. */
  lemma StepIsTyped(t: Terminal, ch: Char16)
    requires Ready(t, [ch])
    ensures var r := Step(t, ch);
      && Typed(t, ch, r.grid, r.row, r.col)
      && r.attr == t.attr.(wide := ch == 0xFFF1 || (ch != 0xFFF0 && t.attr.wide))
  {
    hide Put, LineFeed, Pad, Backspace, WrapIfFull, Printed, SteppedBack, FedLine;
    if ch == CHAR_BACKSPACE {
      BackspaceCells(t);
    } else if ch == CHAR_LINEFEED {
      LineFeedCells(t);
    } else if t.col + GlyphWidth(t.attr) <= t.cols {
      PrintCells(t, ch);
    } else if t.col < t.cols {
      PushedCells(t, ch);
    }
  }

  /** So printing a string types its characters one after the other. */
  lemma {:induction false} RunIsTyped(t: Terminal, s: seq<Char16>)
    requires Ready(t, s)
    ensures var r := Run(t, s);
      && TypedInTurn(t, s, r.grid, r.row, r.col)
      && (|s| == 1 ==> Typed(t, s[0], r.grid, r.row, r.col))
    decreases s
  {
    hide Put, LineFeed, Pad, Backspace, WrapIfFull, Print, Typed;
    if s != [] {
      StepIsTyped(t, s[0]);
      assert Next(t, s[0], Step(t, s[0]));
      RunIsTyped(Step(t, s[0]), s[1..]);
      if |s| == 1 {
        assert s[1..] == [];
      }
    }
  }
}
