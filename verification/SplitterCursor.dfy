/**
  The console splitter's own cursor, which stands in for a console while none is
  attached (ConSplitter.c), and its agreement with the graphics console.
*/
module SplitterCursor {
  import opened TextCells
  import opened Terminal

  class VirtualConsole {
    const maxColumn: nat
    const maxRow: nat
    var cursorColumn: int
    var cursorRow: int

    ghost predicate Valid()
      reads this
    {
      2 <= maxColumn && 1 <= maxRow && 0 <= cursorColumn < maxColumn && 0 <= cursorRow < maxRow
    }

    constructor (columns: nat, rows: nat)
      requires 2 <= columns && 1 <= rows
      ensures Valid() && maxColumn == columns && maxRow == rows && cursorColumn == 0 && cursorRow == 0
    {
      maxColumn, maxRow, cursorColumn, cursorRow := columns, rows, 0, 0;
    }

    /** Advance the cursor over a string; nothing is displayed. */
    method OutputString(s: WString)
      requires Valid()
      modifies this
      ensures Valid()
      ensures (cursorColumn, cursorRow) ==
        Advance(maxColumn, maxRow, old(cursorColumn), old(cursorRow), s)
    {
      var i := 0;
      assert s[0..] == s;
      while i < |s|
        invariant 0 <= i <= |s| && Valid()
        invariant Advance(maxColumn, maxRow, cursorColumn, cursorRow, s[i..]) ==
          Advance(maxColumn, maxRow, old(cursorColumn), old(cursorRow), s)
      {
        if s[i] == CHAR_BACKSPACE {
          if cursorColumn == 0 && cursorRow > 0 {
            cursorRow := cursorRow - 1;
            cursorColumn := maxColumn - 1;
          } else if cursorColumn > 0 {
            cursorColumn := cursorColumn - 1;
          }
        } else if s[i] == CHAR_LINEFEED {
          if cursorRow < maxRow - 1 {
            cursorRow := cursorRow + 1;
          }
        } else if s[i] == CHAR_CARRIAGE_RETURN {
          cursorColumn := 0;
        } else {
          if cursorColumn < maxColumn - 1 {
            cursorColumn := cursorColumn + 1;
          } else {
            cursorColumn := 0;
            if cursorRow < maxRow - 1 {
              cursorRow := cursorRow + 1;
            }
          }
        }
        assert s[i..][1..] == s[i + 1..];
        i := i + 1;
      }
    }
  }

  /** Where the splitter's cursor goes on one character. */
  function AdvanceOne(cols: nat, rows: nat, col: int, row: int, c: Char16): (int, int) {
    if c == CHAR_BACKSPACE then
      (if col == 0 && row > 0 then (cols - 1, row - 1) else if col > 0 then (col - 1, row) else (col, row))
    else if c == CHAR_LINEFEED then (col, if row < rows - 1 then row + 1 else row)
    else if c == CHAR_CARRIAGE_RETURN then (0, row)
    else if col < cols - 1 then (col + 1, row)
    else (0, if row < rows - 1 then row + 1 else row)
  }

  function Advance(cols: nat, rows: nat, col: int, row: int, s: seq<Char16>): (int, int)
    decreases s
  {
    if s == [] then (col, row)
    else
      var p := AdvanceOne(cols, rows, col, row, s[0]);
      Advance(cols, rows, p.0, p.1, s[1..])
  }

  predicate IsMarker(c: Char16) { c == WIDE_CHAR || c == NARROW_CHAR }

  /**
    On one character the two cursors agree if and only if it is not a width
    marker: the splitter counts a marker as a printed character.
  */
  lemma AgreeOnCharacter(t: Terminal, c: Char16)
    requires WellFormed(t) && t.col < t.cols && !t.attr.wide && c != CHAR_NULL
    ensures AdvanceOne(t.cols, t.rows, t.col, t.row, c) == (Step(t, c).col as int, Step(t, c).row as int)
      <==> !IsMarker(c)
    ensures !IsMarker(c) ==> !Step(t, c).attr.wide
  {
  }

  /**
    From equal cursors and sizes, with narrow text, the splitter's own cursor ends
    where the terminal - and hence the graphics console - ends, for every string
    without width markers.
  */
  lemma {:induction false} AgreeOnString(t: Terminal, s: WString)
    requires WellFormed(t) && t.col < t.cols && !t.attr.wide
    requires forall k :: 0 <= k < |s| ==> !IsMarker(s[k])
    ensures Advance(t.cols, t.rows, t.col, t.row, s) == (Run(t, s).col as int, Run(t, s).row as int)
    decreases |s|
  {
    if s != [] {
      assert s[0] in s;
      AgreeOnCharacter(t, s[0]);
      AgreeOnString(Step(t, s[0]), s[1..]);
    }
  }
}
