/**
  The graphics console driver: GraphicsConsole.c.

  The driver prints runs of characters in batches, calls itself to erase and to
  wrap, and keeps the cursor on the screen by XORing it in and out.  Its
  OutputString is proved to leave the text of the one-character-at-a-time
  terminal, with the cursor drawn exactly once at the cursor position.
*/
module GraphicsConsole {
  import opened TextCells
  import opened Terminal

  datatype Status = Success | Unsupported | DeviceError

  datatype ModeData = ModeData(columns: nat, rows: nat)

  const GLYPH_WIDTH := 8
  const GLYPH_HEIGHT := 19

  /** The text modes offered besides 40x12 and 80x50; the last is the full screen. */
  function PredefinedModes(columns: nat, rows: nat): seq<ModeData> {
    [ModeData(100, 31), ModeData(40, 12), ModeData(columns, rows)]
  }

  predicate Fits(m: ModeData, columns: nat, rows: nat) {
    0 < m.columns <= columns && 0 < m.rows <= rows
  }

  /**
    Build the mode list for a screen of the given resolution: mode 0 is 40x12,
    mode 1 is 80x50 or empty, and then come, without repetition, exactly the
    predefined modes that fit.
  */
  method InitializeTextModes(horizontal: nat, vertical: nat) returns (modes: seq<ModeData>)
    ensures var columns, rows := horizontal / 8, vertical / 19;
      && 2 <= |modes| <= 5 && modes[0] == ModeData(40, 12)
      && modes[1] == (if columns >= 80 && rows >= 50 then ModeData(80, 50) else ModeData(0, 0))
      && (forall m :: 2 <= m < |modes| ==> Fits(modes[m], columns, rows))
      && (forall m, n :: 0 <= m < n < |modes| ==> modes[m] != modes[n])
      && (columns >= 100 && rows >= 31 ==> ModeData(100, 31) in modes)
      && (columns >= 1 && rows >= 1 ==> ModeData(columns, rows) in modes)
      && (forall m :: 2 <= m < |modes| ==> modes[m] in [ModeData(100, 31), ModeData(columns, rows)])
  {
    var maxColumns, maxRows := horizontal / GLYPH_WIDTH, vertical / GLYPH_HEIGHT;
    var predefined := PredefinedModes(maxColumns, maxRows);
    assert predefined[0] == ModeData(100, 31) && predefined[2] == ModeData(maxColumns, maxRows);
    modes := [ModeData(40, 12)];
    modes := modes + [if maxColumns >= 80 && maxRows >= 50 then ModeData(80, 50) else ModeData(0, 0)];
    for index := 0 to |predefined|
      invariant 2 <= |modes| <= 2 + index && modes[0] == ModeData(40, 12)
      invariant modes[1] == if maxColumns >= 80 && maxRows >= 50 then ModeData(80, 50) else ModeData(0, 0)
      invariant forall m :: 2 <= m < |modes| ==> Fits(modes[m], maxColumns, maxRows) && modes[m] in predefined
      invariant forall m, n :: 0 <= m < n < |modes| ==> modes[m] != modes[n]
      invariant forall k :: 0 <= k < index && Fits(predefined[k], maxColumns, maxRows) ==> predefined[k] in modes
    {
      var candidate := predefined[index];
      if candidate.columns == 0 || candidate.rows == 0 ||
         candidate.columns > maxColumns || candidate.rows > maxRows {
        continue;
      }
      var known := 0;
      while known < |modes| && modes[known] != candidate
        invariant known <= |modes| && candidate !in modes[..known]
      {
        known := known + 1;
      }
      if known == |modes| {
        assert modes[..known] == modes;
        modes := modes + [candidate];
      }
    }
  }

  /** Strings the driver sends to itself rank below the strings of its callers. */
  function Rank(s: WString): nat {
    if s == CRLF_STR then 0 else if s == SPACE_STR then 1 else 2
  }

  /** The strings the driver sends itself hold no backspace, and only SPACE_STR prints: last. */
  lemma RankFacts(s: WString, i: nat)
    requires i < |s|
    ensures s[i] == CHAR_BACKSPACE ==> Rank(s) == 2
    ensures IsPrinting(s[i]) ==> Rank(s) == 2 || (Rank(s) == 1 && i == 1)
    ensures Rank(s) == 1 && i == 0 ==> s[i] == NARROW_CHAR
    ensures s[i] != CHAR_NULL
  {
  }

  class Console {
    const modeData: seq<ModeData>
    var mode: int
    var attribute: Attribute
    var cursorColumn: int
    var cursorRow: int
    var cursorVisible: bool
    var lineBuffer: bool
    var text: Grid
    var ink: Ink

    ghost predicate UsableModes() {
      forall m :: 0 <= m < |modeData| ==>
        (modeData[m].columns == 0 && modeData[m].rows == 0) ||
        (2 <= modeData[m].columns && 1 <= modeData[m].rows)
    }

    /** A text mode is set and the screen has its size. */
    ghost predicate Active()
      reads this
    {
      UsableModes() &&
      0 <= mode < |modeData| && 1 <= modeData[mode].rows &&
      Shaped(text, Rows(), Columns()) && Shaped(ink, Rows(), Columns() + 1) &&
      0 <= cursorRow < Rows() && 0 <= cursorColumn <= Columns()
    }

    ghost predicate Valid()
      reads this
    {
      UsableModes() && -1 <= mode && (mode != -1 ==> Active())
    }

    function Columns(): nat
      reads this
    {
      if 0 <= mode < |modeData| then modeData[mode].columns else 0
    }

    function Rows(): nat
      reads this
    {
      if 0 <= mode < |modeData| then modeData[mode].rows else 0
    }

    /** The terminal this console displays. */
    ghost function Term(): (t: Terminal)
      requires Active()
      reads this
      ensures WellFormed(t)
    {
      Terminal(Columns(), Rows(), text, cursorColumn, cursorRow, attribute)
    }

    function CursorInk(): bv32
      reads this
    {
      if cursorVisible then Foreground(attribute) else 0
    }

    /** The screen is the text with the cursor XORed in once, at the cursor cell, iff it is visible. */
    ghost predicate CursorDrawn()
      reads this
    {
      InkOnlyAt(ink, cursorRow, cursorColumn, CursorInk())
    }

    /** What holds between public calls once a mode is set. */
    ghost predicate Settled()
      reads this
    {
      Active() && cursorColumn < Columns() && CursorDrawn()
    }

    constructor (modes: seq<ModeData>)
      requires forall m :: 0 <= m < |modes| ==>
        (modes[m].columns == 0 && modes[m].rows == 0) || (2 <= modes[m].columns && 1 <= modes[m].rows)
      ensures Valid() && modeData == modes && mode == -1 && cursorVisible && !lineBuffer
      ensures attribute == Attribute(7, false)
    {
      modeData := modes;
      mode := -1;
      attribute := Attribute(7, false);
      cursorColumn := 0;
      cursorRow := 0;
      cursorVisible := true;
      lineBuffer := false;
      text := [];
      ink := [];
    }

    /** Toggle the cursor: draw it if it is off, erase it if it is on. */
    method FlushCursor()
      requires Active()
      modifies this`ink
      ensures ink == if cursorVisible
        then XorInk(old(ink), cursorRow, cursorColumn, Foreground(attribute)) else old(ink)
      ensures Shaped(ink, Rows(), Columns() + 1)
      ensures old(NoInk(ink)) ==> CursorDrawn()
      ensures old(CursorDrawn()) ==> NoInk(ink)
    {
      XorKeepsShape(ink, Rows(), Columns() + 1, cursorRow, cursorColumn, Foreground(attribute));
      hide NoInk, InkOnlyAt, XorInk, Shaped, Foreground;
      if !cursorVisible {
        InvisibleInk(ink, cursorRow, cursorColumn);
        return;
      }
      if NoInk(ink) {
        InkOn(ink, cursorRow, cursorColumn, Foreground(attribute));
      }
      if CursorDrawn() {
        InkOff(ink, cursorRow, cursorColumn, Foreground(attribute));
      }
      ink := XorInk(ink, cursorRow, cursorColumn, Foreground(attribute));
    }

    /** One call of the font driver: every glyph of s, starting at the cursor, without moving it. */
    method DrawUnicodeWeightAtCursorN(s: seq<Char16>)
      requires Active() && cursorColumn + |s| * GlyphWidth(attribute) <= Columns()
      modifies this`text, this`ink
      ensures Active()
      ensures text == PutRun(old(Term()), s).grid
      ensures old(NoInk(ink)) || (|s| > 0 && old(CursorDrawn())) ==> NoInk(ink)
    {
      var cells := RunCells(s, attribute);
      text := DrawAt(text, cursorRow, cursorColumn, cells);
      if s != [] {
        assert |cells| >= 1 by {
          assert cells == CellsOf(s[0], attribute) + RunCells(s[1..], attribute);
        }
      }
      DrawErasesInk(ink, Rows(), Columns() + 1, cursorRow, cursorColumn, |cells|, CursorInk());
      ink := EraseInk(ink, cursorRow, cursorColumn, |cells|);
    }

    /** Move the text up one row and clear the last one. */
    method ScrollUp(background: nat)
      requires Active()
      modifies this`text, this`ink
      ensures Active() && text == ScrollText(old(text), Columns(), background)
      ensures forall r, c :: 0 <= r < Rows() && 0 <= c < Columns() ==>
        text[r][c] == if r == Rows() - 1 then Fill(background) else old(text)[r + 1][c]
      ensures old(NoInk(ink)) ==> NoInk(ink)
    {
      text := ScrollText(text, Columns(), background);
      if NoInk(ink) {
        ScrollKeepsNoInk(ink, Rows(), Columns());
      }
      ink := ScrollInk(ink, Columns());
    }

    /**
      How many characters fit on the rest of the line, and how many columns the
      cursor then moves.  A wide glyph that would cross the edge counts two
      columns without being taken.
    */
    method MeasureRun(s: seq<Char16>) returns (count: nat, index: nat)
      requires Active() && cursorColumn < Columns()
      requires s != [] && IsPrinting(s[0])
      ensures count <= |s| && forall k :: 0 <= k < count ==> IsPrinting(s[k])
      ensures var w := GlyphWidth(attribute);
        && cursorColumn + count * w <= Columns()
        && (count == 0 ==> cursorColumn + index > Columns())
        && if cursorColumn + index <= Columns() then index == count * w
           else count < |s| && IsPrinting(s[count]) && attribute.wide &&
                index == count * w + 2 && cursorColumn + count * w == Columns() - 1
    {
      ghost var w := GlyphWidth(attribute);
      count, index := 0, 0;
      while cursorColumn + index < Columns()
        invariant count <= |s| && index == count * w && cursorColumn + index <= Columns()
        invariant forall k :: 0 <= k < count ==> IsPrinting(s[k])
        invariant count == 0 ==> index == 0
        decreases |s| - count
      {
        if count == |s| || !IsPrinting(s[count]) {
          break;
        }
        if attribute.wide {
          index := index + 1;
          if cursorColumn + index + 1 > Columns() {
            index := index + 1;
            return;
          }
        }
        assert (count + 1) * w == count * w + w;
        count, index := count + 1, index + 1;
      }
    }

    /** The driver prints a narrow space over the cell at the cursor, the cursor being erased. */
    method OutputSpace(ghost rank: nat)
      requires Active() && cursorColumn < Columns() && NoInk(ink) && rank == 2
      modifies this`text, this`ink, this`cursorColumn, this`cursorRow, this`attribute
      ensures Settled() && attribute == old(attribute)
      ensures Term() == WrapIfFull(PutNarrowSpace(old(Term())))
      decreases rank, 0
    {
      RunSpace(Term());
      var _ := OutputString(SPACE_STR);
    }

    /** The driver wraps the line, erasing the cursor around the CR LF it sends itself. */
    method OutputWrap(ghost rank: nat)
      requires Active() && NoInk(ink) && rank >= 1
      modifies this`text, this`ink, this`cursorColumn, this`cursorRow, this`attribute
      ensures Active() && NoInk(ink) && attribute == old(attribute)
      ensures Term() == NewLine(old(Term()))
      decreases rank, 0
    {
      RunCrLf(Term());
      FlushCursor();
      var _ := OutputString(CRLF_STR);
      FlushCursor();
    }

    /** Erase the cell at the cursor and take the cursor off the screen again. */
    method EraseCell(ghost rank: nat)
      requires Active() && cursorColumn < Columns() && NoInk(ink) && rank == 2
      modifies this`text, this`ink, this`cursorColumn, this`cursorRow, this`attribute
      ensures Active() && NoInk(ink) && attribute == old(attribute)
      ensures Term() == WrapIfFull(PutNarrowSpace(old(Term())))
      decreases rank, 1
    {
      OutputSpace(rank);
      FlushCursor();
    }

    /** The backspace branch of OutputString. */
    method OutputBackspace(ghost rank: nat)
      requires Active() && cursorColumn < Columns() && NoInk(ink) && rank == 2
      modifies this`text, this`ink, this`cursorColumn, this`cursorRow, this`attribute
      ensures Active() && cursorColumn < Columns() && NoInk(ink)
      ensures attribute == old(attribute)
      ensures Term() == Backspace(old(Term()))
      decreases rank, 2
    {
      hide NoInk, InkOnlyAt, Shaped;
      if cursorColumn == 0 && cursorRow > 0 {
        cursorRow := cursorRow - 1;
        cursorColumn := Columns() - 1;
        EraseCell(rank);
        cursorRow := cursorRow - 1;
        cursorColumn := Columns() - 1;
      } else if cursorColumn > 0 {
        cursorColumn := cursorColumn - 1;
        EraseCell(rank);
        cursorColumn := cursorColumn - 1;
      }
    }

    /** The branches of OutputString for line feed, carriage return and the width markers. */
    method OutputControl(c: Char16, background: nat)
      requires Active() && (cursorColumn < Columns() || c == CHAR_CARRIAGE_RETURN)
      requires c == CHAR_LINEFEED || c == CHAR_CARRIAGE_RETURN || c == WIDE_CHAR || c == NARROW_CHAR
      requires NoInk(ink) || (CursorDrawn() && c == NARROW_CHAR)
      requires background == Background(attribute)
      modifies this`text, this`ink, this`cursorColumn, this`cursorRow, this`attribute
      ensures Active() && Term() == Step(old(Term()), c)
      ensures c == NARROW_CHAR ==> attribute == old(attribute).(wide := false) && ink == old(ink)
      ensures c == NARROW_CHAR ==> cursorColumn == old(cursorColumn) && cursorRow == old(cursorRow)
      ensures old(NoInk(ink)) ==> NoInk(ink)
    {
      if c == CHAR_LINEFEED {
        if cursorRow == Rows() - 1 {
          ScrollUp(background);
        } else {
          cursorRow := cursorRow + 1;
        }
      } else if c == CHAR_CARRIAGE_RETURN {
        cursorColumn := 0;
      } else if c == WIDE_CHAR {
        attribute := attribute.(wide := true);
      } else {
        attribute := attribute.(wide := false);
      }
    }

    /** Where the cursor is taken when a wide glyph does not fit: the last column, padded. */
    method PadLine(ghost rank: nat, s: seq<Char16>)
      requires Active() && cursorColumn == Columns() - 1 && NoInk(ink) && rank == 2
      requires s != [] && IsPrinting(s[0]) && attribute.wide
      modifies this`text, this`ink, this`cursorColumn, this`cursorRow, this`attribute
      ensures Settled() && cursorColumn == 0 && attribute == old(attribute)
      ensures Run(Term(), s) == Run(old(Term()), s)
      decreases rank, 1
    {
      PadThenRun(Term(), s);
      OutputSpace(rank);
    }

    /** The printing branch of OutputString: draw what fits, then pad or wrap. */
    method OutputRun(s: seq<Char16>, ghost rank: nat) returns (count: nat)
      requires Active() && cursorColumn < Columns() && s != [] && IsPrinting(s[0])
      requires NoInk(ink) || (CursorDrawn() && cursorColumn + GlyphWidth(attribute) <= Columns())
      requires rank == 2 || (rank == 1 && !attribute.wide)
      modifies this`text, this`ink, this`cursorColumn, this`cursorRow, this`attribute
      ensures Active() && cursorColumn < Columns() && count <= |s|
      ensures attribute == old(attribute)
      ensures Run(Term(), s[count..]) == Run(old(Term()), s)
      ensures NoInk(ink) || (CursorDrawn() && count < |s| && IsPrinting(s[count]) &&
        cursorColumn + GlyphWidth(attribute) <= Columns())
      ensures count == 0 ==> cursorColumn == 0 && old(cursorColumn) == Columns() - 1
      decreases rank, 2
    {
      hide NoInk, InkOnlyAt, Shaped, Foreground;
      var index;
      count, index := MeasureRun(s);
      ghost var start := Term();
      ghost var done := PutRun(start, s[..count]);
      DrawUnicodeWeightAtCursorN(s[..count]);
      cursorColumn := cursorColumn + index;
      if cursorColumn > Columns() {
        cursorColumn := cursorColumn - 2;
        assert Term() == done;
        PadLine(rank, s[count..]);
      } else {
        assert Term() == done;
      }
      if cursorColumn >= Columns() {
        OutputWrap(rank);
      }
      assert Run(Term(), s[count..]) == Run(WrapIfFull(done), s[count..]);
      BatchedRun(start, s, count);
    }

    /** The cursor is off the screen, or the next glyph is about to be drawn over it. */
    ghost predicate Clean(s: seq<Char16>)
      requires Active()
      reads this
    {
      NoInk(ink) ||
      (CursorDrawn() && s != [] && cursorColumn < Columns() &&
       ((IsPrinting(s[0]) && cursorColumn + GlyphWidth(attribute) <= Columns()) ||
        (s[0] == NARROW_CHAR && |s| > 1 && IsPrinting(s[1]))))
    }

    /** One pass of the loop of OutputString; it consumes `count` characters. */
    method OutputNext(s: seq<Char16>, background: nat, ghost rank: nat) returns (count: nat)
      requires Active() && s != [] && s[0] != CHAR_NULL && Ready(Term(), s) && Clean(s)
      requires background == Background(attribute)
      requires s[0] == CHAR_BACKSPACE ==> rank == 2
      requires IsPrinting(s[0]) ==> rank == 2 || (rank == 1 && !attribute.wide)
      modifies this`text, this`ink, this`cursorColumn, this`cursorRow, this`attribute
      ensures Active() && count <= |s| && Ready(Term(), s[count..]) && Clean(s[count..])
      ensures Run(Term(), s[count..]) == Run(old(Term()), s)
      ensures attribute.colors == old(attribute.colors)
      ensures s[0] == NARROW_CHAR ==> count == 1 && !attribute.wide
      ensures IsPrinting(s[0]) ==> attribute == old(attribute)
      ensures count == 0 ==> cursorColumn == 0 && old(cursorColumn) == Columns() - 1
      decreases rank, 3
    {
      if s[0] == CHAR_BACKSPACE {
        OutputBackspace(rank);
        count := 1;
      } else if IsPrinting(s[0]) {
        count := OutputRun(s, rank);
      } else {
        OutputControl(s[0], background);
        count := 1;
      }
    }

    /** The loop of OutputString. */
    method OutputLoop(s: WString, background: nat)
      requires Active() && Ready(Term(), s) && Clean(s) && background == Background(attribute)
      modifies this`text, this`ink, this`cursorColumn, this`cursorRow, this`attribute
      ensures Active() && NoInk(ink) && attribute.colors == old(attribute.colors)
      ensures Term() == Run(old(Term()), s)
      decreases Rank(s), 4
    {
      hide NoInk, InkOnlyAt, Shaped, Foreground;
      ghost var t0, rank := Term(), Rank(s);
      var i := 0;
      assert s[0..] == s;
      while i < |s|
        invariant 0 <= i <= |s| && Active()
        invariant Ready(Term(), s[i..]) && Clean(s[i..])
        invariant Run(Term(), s[i..]) == Run(t0, s)
        invariant attribute.colors == old(attribute.colors)
        invariant rank == 1 && i > 0 ==> !attribute.wide
        decreases |s| - i, if cursorColumn == Columns() - 1 then 1 else 0
      {
        RankFacts(s, i);
        var count := OutputNext(s[i..], background, rank);
        assert s[i..][count..] == s[i + count..];
        i := i + count;
      }
    }

    /**
      Write a string at the cursor.

      Besides its callers' strings the driver passes itself CR LF with the
      cursor just past the right edge, and a narrow space with the cursor erased.
    */
    method OutputString(s: WString) returns (status: Status)
      requires Valid()
      requires mode != -1 ==> Ready(Term(), s) && (CursorDrawn() || (s == SPACE_STR && NoInk(ink)))
      modifies this`text, this`ink, this`cursorColumn, this`cursorRow, this`attribute
      ensures mode == -1 ==> status == Unsupported && text == old(text) && ink == old(ink)
      ensures mode == -1 ==> cursorColumn == old(cursorColumn) && cursorRow == old(cursorRow)
      ensures attribute == old(attribute)
      ensures mode != -1 ==> status == Success && Settled()
      ensures mode != -1 ==> Term() == Run(old(Term()), s).(attr := attribute)
      ensures mode != -1 ==> TypedInTurn(old(Term()), s, text, cursorRow, cursorColumn)
      ensures mode != -1 && |s| == 1 ==> Typed(old(Term()), s[0], text, cursorRow, cursorColumn)
      decreases Rank(s), 5
    {
      hide NoInk, InkOnlyAt, Shaped, Foreground, Typed, TypedInTurn;
      if mode == -1 {
        return Unsupported;
      }
      RunIsTyped(Term(), s);
      FlushCursor();
      var originAttribute := attribute;
      OutputLoop(s, Background(attribute));
      attribute := originAttribute;
      FlushCursor();
      return Success;
    }

    /** Set the colours of the text that follows; the cursor is redrawn in the new foreground. */
    method SetAttribute(value: nat) returns (status: Status)
      requires Settled()
      modifies this`ink, this`attribute
      ensures Settled()
      ensures status == (if value <= 0x7F then Success else Unsupported)
      ensures attribute == if value <= 0x7F then Attribute(value, false) else old(attribute)
    {
      if value > 0x7F {
        return Unsupported;
      }
      if Attribute(value, false) == attribute {
        return Success;
      }
      FlushCursor();
      attribute := Attribute(value, false);
      FlushCursor();
      return Success;
    }

    /** Fill the whole screen with the background and home the cursor. */
    method ClearScreen() returns (status: Status)
      requires Valid()
      modifies this`text, this`ink, this`cursorColumn, this`cursorRow
      ensures mode == -1 ==> status == Unsupported && text == old(text) && ink == old(ink)
      ensures mode == -1 ==> cursorColumn == old(cursorColumn) && cursorRow == old(cursorRow)
      ensures mode != -1 ==> status == Success && Settled() && cursorColumn == 0 && cursorRow == 0
      ensures mode != -1 ==> text == FillGrid(Rows(), Columns(), Background(attribute))
      ensures mode != -1 ==> forall r, c :: 0 <= r < Rows() && 0 <= c < Columns() ==>
        text[r][c] == Fill(attribute.colors / 16)
    {
      if mode == -1 {
        return Unsupported;
      }
      text := FillGrid(Rows(), Columns(), Background(attribute));
      ink := BlankInk(Rows(), Columns());
      cursorColumn := 0;
      cursorRow := 0;
      FlushCursor();
      return Success;
    }

    method SetCursorPosition(column: nat, row: nat) returns (status: Status)
      requires Valid() && (mode != -1 ==> Settled())
      modifies this`ink, this`cursorColumn, this`cursorRow
      ensures mode != -1 ==> Settled()
      ensures var accepted := mode != -1 && column < Columns() && row < Rows();
        && status == (if accepted then Success else Unsupported)
        && cursorColumn == (if accepted then column else old(cursorColumn))
        && cursorRow == (if accepted then row else old(cursorRow))
    {
      if mode == -1 || column >= Columns() || row >= Rows() {
        return Unsupported;
      }
      if cursorColumn == column && cursorRow == row {
        return Success;
      }
      FlushCursor();
      cursorColumn := column;
      cursorRow := row;
      FlushCursor();
      return Success;
    }

    method EnableCursor(visible: bool) returns (status: Status)
      requires Valid() && (mode != -1 ==> Settled())
      modifies this`ink, this`cursorVisible
      ensures mode == -1 ==> status == Unsupported && cursorVisible == old(cursorVisible)
      ensures mode != -1 ==> status == Success && Settled() && cursorVisible == visible
    {
      if mode == -1 {
        return Unsupported;
      }
      FlushCursor();
      cursorVisible := visible;
      FlushCursor();
      return Success;
    }

    ghost predicate Selectable(modeNumber: nat)
      reads this
    {
      modeNumber < |modeData| && modeData[modeNumber].rows > 0
    }

    /** Another text mode needs a graphics mode that the device is not in and cannot be put in. */
    ghost predicate Refused(modeNumber: nat, gopCurrent: bool, gopSets: bool)
      reads this
    {
      Selectable(modeNumber) && modeNumber != mode && !gopCurrent && !gopSets
    }

    /**
      Switch to another text mode.  `gopCurrent` says whether the graphics device
      already is in the graphics mode this text mode needs, `gopSets` whether
      setting that graphics mode succeeds.

      When the device refuses, the driver returns with the old text mode still
      current but its cursor already erased.
    */
    method SetMode(modeNumber: nat, gopCurrent: bool, gopSets: bool) returns (status: Status)
      requires Valid()
      requires if mode == -1 then !lineBuffer else lineBuffer && Settled()
      modifies this`mode, this`text, this`ink, this`cursorColumn, this`cursorRow, this`lineBuffer
      ensures Valid() && (mode != -1 ==> lineBuffer)
      ensures status == (if !Selectable(modeNumber) then Unsupported
                         else if modeNumber == old(mode) || gopCurrent || gopSets then Success
                         else DeviceError)
      ensures status == Success ==> Settled() && mode == modeNumber && cursorColumn == 0 && cursorRow == 0
      ensures status == Success ==> text == FillGrid(Rows(), Columns(),
        if modeNumber == old(mode) then Background(attribute) else 0)
      ensures status != Success ==> mode == old(mode) && text == old(text)
      ensures status != Success ==> cursorColumn == old(cursorColumn) && cursorRow == old(cursorRow)
      ensures status == Unsupported ==> ink == old(ink)
      ensures status == DeviceError && mode != -1 ==> NoInk(ink)
      ensures old(mode) != -1 ==>
        (Settled() <==> !old(Refused(modeNumber, gopCurrent, gopSets)) || old(CursorInk()) == 0)
    {
      hide Foreground, FillGrid;
      if modeNumber >= |modeData| {
        return Unsupported;
      }
      if modeData[modeNumber].columns <= 0 && modeData[modeNumber].rows <= 0 {
        return Unsupported;
      }
      if lineBuffer {
        if modeNumber == mode {
          var _ := ClearScreen();
          return Success;
        }
        FlushCursor();
      }
      lineBuffer := true;
      if !gopCurrent && !gopSets {
        assert mode != -1 ==> ink[cursorRow][cursorColumn] == 0;
        return DeviceError;
      }
      Commit(modeNumber);
      return Success;
    }

    /** Start over with a black screen of the new mode's size. */
    method Commit(modeNumber: nat)
      requires UsableModes() && Selectable(modeNumber)
      modifies this`mode, this`text, this`ink, this`cursorColumn, this`cursorRow
      ensures Settled() && mode == modeNumber && cursorColumn == 0 && cursorRow == 0
      ensures text == FillGrid(Rows(), Columns(), 0)
    {
      mode := modeNumber;
      text := FillGrid(Rows(), Columns(), 0);
      ink := BlankInk(Rows(), Columns());
      cursorColumn := 0;
      cursorRow := 0;
      FlushCursor();
    }

    method Reset(gopCurrent: bool, gopSets: bool) returns (status: Status)
      requires Valid() && Selectable(0)
      requires if mode == -1 then !lineBuffer else lineBuffer && Settled()
      modifies this`mode, this`text, this`ink, this`cursorColumn, this`cursorRow, this`lineBuffer, this`attribute
      ensures Valid() && (mode != -1 ==> lineBuffer)
      ensures status == (if old(mode) == 0 || gopCurrent || gopSets then Success else DeviceError)
      ensures status == Success ==> Settled() && mode == 0 && cursorColumn == 0 && cursorRow == 0
      ensures status == Success ==> attribute == Attribute(old(attribute).colors % 16, false)
      ensures status != Success ==> mode == old(mode) && attribute == old(attribute) && text == old(text)
      ensures old(mode) != -1 ==> (Settled() <==> !old(Refused(0, gopCurrent, gopSets)) || old(CursorInk()) == 0)
      ensures status != Success && mode != -1 ==> NoInk(ink)
    {
      status := SetMode(0, gopCurrent, gopSets);
      if status != Success {
        return;
      }
      status := SetAttribute(attribute.colors % 16);
    }

    /** The call is a change of mode that the graphics device refuses while a cursor is to be seen. */
    ghost predicate Spoils(call: Call)
      reads this
      requires Valid() && mode != -1
    {
      CursorInk() != 0 &&
      match call
      case Select(modeNumber, gopCurrent, gopSets) => Refused(modeNumber, gopCurrent, gopSets)
      case Restart(gopCurrent, gopSets) => Refused(0, gopCurrent, gopSets)
      case _ => false
    }

    /** One public call; did the cursor survive it? */
    method Perform(call: Call) returns (kept: bool)
      requires Settled() && lineBuffer && Selectable(0)
      modifies this
      ensures Valid() && mode != -1 && lineBuffer
      ensures kept == Settled() == !old(Spoils(call))
      ensures !kept ==> NoInk(ink) && text == old(text) && mode == old(mode)
    {
      kept := true;
      match call
      case Output(s) => var _ := OutputString(s);
      case Attr(value) => var _ := SetAttribute(value);
      case Clear => var _ := ClearScreen();
      case MoveTo(column, row) => var _ := SetCursorPosition(column, row);
      case Show(visible) => var _ := EnableCursor(visible);
      case Select(modeNumber, gopCurrent, gopSets) =>
        var status := SetMode(modeNumber, gopCurrent, gopSets);
        kept := status != DeviceError || CursorInk() == 0;
      case Restart(gopCurrent, gopSets) =>
        var status := Reset(gopCurrent, gopSets);
        kept := status != DeviceError || CursorInk() == 0;
    }

    /**
      Whatever sequence of public calls is made, the screen is the text with the cursor drawn in
      exactly once, at the cursor cell, iff it is visible - up to a change of mode that the
      graphics device refuses while a cursor is to be seen, after which `done` calls were made.
    */
    method Session(first: nat, calls: seq<Call>) returns (done: nat)
      requires Valid() && mode == -1 && !lineBuffer && Selectable(0) && Selectable(first)
      modifies this
      ensures Valid() && done <= |calls| && mode != -1
      ensures done == |calls| ==> Settled()
      ensures done < |calls| ==> NoInk(ink) && !Settled() && MayBeRefused(calls[done])
    {
      var _ := SetMode(first, false, true);
      done := 0;
      while done < |calls|
        invariant done <= |calls| && Settled() && lineBuffer && Selectable(0)
      {
        var kept := Perform(calls[done]);
        if !kept {
          return;
        }
        done := done + 1;
      }
    }
  }

  datatype Call =
    | Output(s: WString)
    | Attr(value: nat)
    | Clear
    | MoveTo(column: nat, row: nat)
    | Show(visible: bool)
    | Select(modeNumber: nat, gopCurrent: bool, gopSets: bool)
    | Restart(gopCurrent: bool, gopSets: bool)

  /** A call that needs a graphics mode which the device would not set. */
  predicate MayBeRefused(call: Call) {
    match call
    case Select(_, gopCurrent, gopSets) => !gopCurrent && !gopSets
    case Restart(gopCurrent, gopSets) => !gopCurrent && !gopSets
    case _ => false
  }
}
