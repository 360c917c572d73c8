# Firmware and tools of two HTC phones, in Dafny

A UEFI firmware for two phones, with the tools that pack its images, modelled in Dafny: the parts
that keep state and promise something over unbounded input. Each program is written in the form it
has in C - classes with fields, loops over arrays - and proved against functions on values; the
promises are then lemmas about those functions, over all strings, all runs of calls, all messages
and all interrupts.

* **Text console** (`TextCells`, `Terminal`, `GraphicsConsole`): the graphics console's batched
  output against a terminal that takes one character at a time (Simple Text Output Protocol, section
  12.4 of the UEFI Specification 2.8). The screen is a grid of cells and, over it, the ink of the
  cursor, XORed in and out.
* **Console splitter** (`SplitterCursor`, `ModeMap`, `ModeIntersection`, `FlatMap`, `ModeFilter`,
  `Attached`, `ConSplitter`, `GraphicsModes`): the mode map of all attached consoles, compacted in
  place, the list of common graphics modes, and the cursor the splitter keeps when nothing is attached.
* **Tetris** (`TetrisRandom`, `TetrisGrid`, `TetrisLines`, `TetrisGame`, `TetrisBoard`, `TetrisCore`):
  the fields, the pieces, the rules of the game and the loop that drives it.
* **I2C** (`I2cTransfer`): the interrupt-driven transfer of a list of messages.
* **ROM images** (`NbhImage`, `NbhFormat`, `NbhTools`): packing sections into a signed container, and extracting
  them. An `unsigned long` has four bytes.
* **CPU clock** (`AcpuClock`): switching rates without disturbing the clock in use, on the register
  words.
* **Key queue** (`KeyQueue`): the ring of keys, the partial keystrokes, and the notifications.

## Where the code does less than it should

Each is proved as an exact condition, or shown by an input.

* A text mode change that the graphics device refuses leaves the old mode without its cursor
  (`GraphicsConsole.Console.SetMode`).
* The splitter's own cursor counts a width marker as a character (`SplitterCursor.AgreeOnCharacter`).
* A console attached while the splitter is in the mode of the wanted size already is not put into it,
  though it has that size too; only the other consoles show it (`ConSplitter.NewcomerFindsMode`,
  `ConSplitter.Splitter.AddDevice`).
* After graphics devices were detached down to one, asking about a mode may describe another one than
  selecting it sets; exactly when is told by which of the remaining device's modes were dropped or
  met in another order (`GraphicsModes.Splitter.QueriesAgreeExactly`).
* The piece of a paused game may fall once, in the frame after a pause that came when its time was up
  (`TetrisCore.PausedGameMoves`, `TetrisCore.FrameRests`, `TetrisCore.RestsAfterOneMove`).
* An I2C transfer may be reported as a success without having been completed
  (`I2cTransfer.SuccessWithoutTransfer`), and an old timeout makes a transfer without errors fail
  (`I2cTransfer.OldTimeoutFails`); `I2cTransfer.ResultMeans` says when the result can be trusted.
* A splash screen of unknown size is extracted and reported as a failure (`NbhTools.PackedFailures`).
* After clock init with entry 0 of the table the next request tunes the SCPLL while it is in use
  (`AcpuClock.RunsHarmlessExactly`), and with entry 0 or the end of the table the recorded rate is not
  the one that is set (`AcpuClock.InitSane`). The only caller passes 17 (ClockDxe.c:304).
* A key with several registered notifications calls each of them several times
  (`KeyQueue.CalledOnceEach`).

## Model

| member | source | states |
|---|---|---|
| `Terminal.BatchedRun` | QSD8250Pkg/Drivers/GraphicsConsoleDxe/GraphicsConsole.c:1079-1142 | Drawing a measured run in one go and then wrapping equals printing its characters one at a time, with a wrap after each |
| `Terminal.PadThenRun` | QSD8250Pkg/Drivers/GraphicsConsoleDxe/GraphicsConsole.c:1125-1136 | A wide character that meets the last column: padding it with a narrow space and going on gives what the one-at-a-time terminal does with the character |
| `Terminal.RunSpace` | QSD8250Pkg/Drivers/GraphicsConsoleDxe/GraphicsConsole.c:988-1000 | The narrow space the driver sends itself prints one narrow cell, wraps if the line is full, and leaves the attribute as it was |
| `Terminal.RunAppend` | QSD8250Pkg/Drivers/GraphicsConsoleDxe/GraphicsConsole.c:959-1144 | Printing two strings one after the other is printing their concatenation |
| `Terminal.StepIsTyped` | QSD8250Pkg/Drivers/GraphicsConsoleDxe/GraphicsConsole.c:961-1144 | Cell by cell and in numbers: 8 steps the cursor back and blanks the cell stepped to, 0xA goes down or moves every row up by one over a row in the background colour, 0xD goes to column 0, 0xFFF1 and 0xFFF0 set the width, and any other character shows its glyph in one or two cells, wrapping and scrolling at the edges; no other cell changes |
| `Terminal.RunIsTyped` | QSD8250Pkg/Drivers/GraphicsConsoleDxe/GraphicsConsole.c:894-1157 | So a string does to the screen what its characters do one after the other |
| `TextCells.InkOff` | QSD8250Pkg/Drivers/GraphicsConsoleDxe/GraphicsConsole.c:1900-2004 | Toggling the cursor a second time leaves a clean screen |
| `TextCells.DrawErasesInk` | QSD8250Pkg/Drivers/GraphicsConsoleDxe/GraphicsConsole.c:1133-1136 | A glyph drawn over the cell of a stray cursor removes it |
| `TextCells.TogglesOneCell` | QSD8250Pkg/Drivers/GraphicsConsoleDxe/GraphicsConsole.c:1900-2004 | Toggling the cursor exclusive-ors the pixel value of the foreground colour, the lower four bits of the attribute, into the cursor cell and no other |
| `TextCells.PaletteBits` | QSD8250Pkg/Drivers/GraphicsConsoleDxe/GraphicsConsole.c:67-88 | Bit 0 of a colour is blue, bit 1 green, bit 2 red, a byte each from the lowest up; bit 3 raises 0x98 to 0xFF and alone is dark grey |
| `GraphicsConsole.InitializeTextModes` | QSD8250Pkg/Drivers/GraphicsConsoleDxe/GraphicsConsole.c:234-366 | The text modes offered: 40 x 12 first, 80 x 50 second or an empty entry, then exactly the further sizes that fit the screen, without repeating one |
| `GraphicsConsole.Console.FlushCursor` | QSD8250Pkg/Drivers/GraphicsConsoleDxe/GraphicsConsole.c:1900-2004 | Toggles the cursor's ink at the cursor cell when the cursor is visible, and changes nothing else |
| `GraphicsConsole.Console.DrawUnicodeWeightAtCursorN` | QSD8250Pkg/Drivers/GraphicsConsoleDxe/GraphicsConsole.c:1749-1884 | The cells of a run overwrite the text from the cursor on, and the ink under them is gone |
| `GraphicsConsole.Console.ScrollUp` | QSD8250Pkg/Drivers/GraphicsConsoleDxe/GraphicsConsole.c:992-1049 | Cell by cell: every row takes the text of the one below it and the last row is filled with the background |
| `GraphicsConsole.Console.MeasureRun` | QSD8250Pkg/Drivers/GraphicsConsoleDxe/GraphicsConsole.c:1079-1118 | The run is the longest that fits the rest of the line; a wide character in the last column is counted out |
| `GraphicsConsole.Console.OutputBackspace` | QSD8250Pkg/Drivers/GraphicsConsoleDxe/GraphicsConsole.c:961-1004 | Backspace erases the cell before the cursor, also across a line start, where the driver prints a space that wraps and steps back twice |
| `GraphicsConsole.Console.OutputRun` | QSD8250Pkg/Drivers/GraphicsConsoleDxe/GraphicsConsole.c:1076-1142 | A batch of printing characters with its padding and wrapping leaves the rest of the string to be printed from the same terminal state |
| `GraphicsConsole.Console.OutputString` | QSD8250Pkg/Drivers/GraphicsConsoleDxe/GraphicsConsole.c:894-1157 | For every string the screen and cursor afterwards are those of a terminal that takes one character at a time, told also cell by cell, in the numbers of `Terminal.StepIsTyped`: a line feed on the last row moves each row up, a glyph and a backspace change their own cells only; the call terminates, the colours are kept, the cursor is inside the screen and drawn exactly once |
| `GraphicsConsole.Console.SetAttribute` | QSD8250Pkg/Drivers/GraphicsConsoleDxe/GraphicsConsole.c:1483-1509 | Colours above 0x7F are refused; otherwise the cursor is redrawn in the new colour and stays drawn exactly once |
| `GraphicsConsole.Console.ClearScreen` | QSD8250Pkg/Drivers/GraphicsConsoleDxe/GraphicsConsole.c:1527-1593 | A blank screen in the background colour with the cursor drawn at the origin |
| `GraphicsConsole.Console.SetCursorPosition` | QSD8250Pkg/Drivers/GraphicsConsoleDxe/GraphicsConsole.c:1617-1663 | The cursor moves if and only if the position lies on the screen, and is drawn exactly once |
| `GraphicsConsole.Console.EnableCursor` | QSD8250Pkg/Drivers/GraphicsConsoleDxe/GraphicsConsole.c:1682-1706 | The cursor is drawn exactly once if it is to be visible, and not at all otherwise |
| `GraphicsConsole.Console.SetMode` | QSD8250Pkg/Drivers/GraphicsConsoleDxe/GraphicsConsole.c:1287-1462 | A mode that is set shows a blank screen and a homed cursor; the screen keeps its cursor if and only if the call needs no graphics mode that the device refuses, or no cursor was to be seen |
| `GraphicsConsole.Console.Reset` | QSD8250Pkg/Drivers/GraphicsConsoleDxe/GraphicsConsole.c:855-867 | Back to mode 0 with the plain foreground colour, or nothing of it when the device refuses, which costs the cursor under the same condition |
| `GraphicsConsole.Console.Perform` | QSD8250Pkg/Drivers/GraphicsConsoleDxe/GraphicsConsole.c:855-1706 | One public call keeps the cursor balanced if and only if it is not such a refused change of mode |
| `GraphicsConsole.Console.Session` | QSD8250Pkg/Drivers/GraphicsConsoleDxe/GraphicsConsole.c:855-1706 | After every sequence of public calls the screen is the text with the cursor in exactly once, at the cursor cell, if it is visible; the only end to this is a change of mode that the device refuses while a cursor is to be seen |
| `SplitterCursor.VirtualConsole.OutputString` | QSD8250Pkg/Drivers/ConSplitterDxe/ConSplitter.c:4616-4695 | The splitter's own cursor advances over a string and stays inside its screen |
| `SplitterCursor.AgreeOnCharacter` | QSD8250Pkg/Drivers/ConSplitterDxe/ConSplitter.c:4653-4691 | On one character with narrow text the two cursors agree if and only if it is not a width marker |
| `SplitterCursor.AgreeOnString` | QSD8250Pkg/Drivers/ConSplitterDxe/ConSplitter.c:4653-4691 | From equal cursors the splitter's cursor ends where the graphics console's does, for every string without width markers |
| `ModeMap.BuildSound` | QSD8250Pkg/Drivers/ConSplitterDxe/ConSplitter.c:2344-2570 | Every advertised mode from 2 on maps each console to a mode of its own, and all of those have the same columns and rows |
| `ModeMap.SyncSound` | QSD8250Pkg/Drivers/ConSplitterDxe/ConSplitter.c:2496-2570 | Reducing the map for one more console keeps that property |
| `ModeMap.BuildReserved` | QSD8250Pkg/Drivers/ConSplitterDxe/ConSplitter.c:2344-2570 | A reserved mode that every console has in one size is mapped to such a mode of each |
| `ModeIntersection.ColumnExact` | QSD8250Pkg/Drivers/ConSplitterDxe/ConSplitter.c:2506-2557 | Matching a console's modes against the map finds, for a row with a geometry of its own, the console's mode with that geometry |
| `ModeIntersection.BuildIsIntersection` | QSD8250Pkg/Drivers/ConSplitterDxe/ConSplitter.c:2344-2570 | When each console's geometries are distinct, the advertised modes from 2 on are exactly the first console's modes that all others share, in its order |
| `ModeFilter.ModeFollowsRow` | QSD8250Pkg/Drivers/ConSplitterDxe/ConSplitter.c:2463-2474 | The new number of a kept row is the place of that row among the kept ones, that of a dropped row is -1 |
| `ModeFilter.FilterUnchanged` | QSD8250Pkg/Drivers/ConSplitterDxe/ConSplitter.c:2449-2460 | Each filter entry is read before its row can have been overwritten, even when the filter is a column of the table |
| `ModeFilter.GetIntersection` | QSD8250Pkg/Drivers/ConSplitterDxe/ConSplitter.c:2427-2486 | In place, with the filter possibly in the same table: rows 0 and 1 and the rows whose entry is not -1 stay, in order; the mode count and the current mode follow |
| `ConSplitter.Splitter.GrowMapTable` | QSD8250Pkg/Drivers/ConSplitterDxe/ConSplitter.c:2251-2330 | The enlarged map shows the same rows, padded with -1 |
| `ConSplitter.Splitter.AddOutputMode` | QSD8250Pkg/Drivers/ConSplitterDxe/ConSplitter.c:2344-2405 | The first console's modes become the splitter's, each mapped to itself |
| `ConSplitter.Splitter.SyncOutputMode` | QSD8250Pkg/Drivers/ConSplitterDxe/ConSplitter.c:2496-2570 | The map becomes the intersection with the new console |
| `ConSplitter.Splitter.AddDevice` | QSD8250Pkg/Drivers/ConSplitterDxe/ConSplitter.c:3127-3305 | The new console goes to the end of the list and the map is the function of the list. When all consoles share the wanted size from mode 2 on, list none twice and leave fewer than 256 modes, the splitter ends in a mode in which each console's own mode has that size, and each is asked for that mode of its own, unless the splitter was in that mode before: then none is asked, not even the new one. Otherwise the mode is 40 x 12, else the old one under its new number |
| `ConSplitter.Splitter.AttachConsole` | QSD8250Pkg/Drivers/ConSplitterDxe/ConSplitter.c:3148-3185 | The map is a function of the list of consoles with the new one at its end, and the current mode follows its row |
| `ConSplitter.Splitter.SetConsoleOutMode` | QSD8250Pkg/Drivers/ConSplitterDxe/ConSplitter.c:3037-3112 | The last mode of the wanted size is set, or the largest if none is wanted, or else 40 x 12, and the wish is then forgotten; a size that all consoles share from mode 2 on is found, and each console is asked for a mode of its own with it |
| `ConSplitter.WantedIsSet` | QSD8250Pkg/Drivers/ConSplitterDxe/ConSplitter.c:3037-3112 | With fewer than 256 modes a wanted size on offer is the one that gets set, and 40 x 12 when it is not |
| `ConSplitter.LargestIsSet` | QSD8250Pkg/Drivers/ConSplitterDxe/ConSplitter.c:3066-3093 | With no size wanted the mode set is one than which none on offer is larger both ways, and the last of those as large |
| `ConSplitter.SharedIsChosen` | QSD8250Pkg/Drivers/ConSplitterDxe/ConSplitter.c:3066-3095 | A size shared from mode 2 on is the one chosen, and the row chosen names for each console a mode of its own with it |
| `ConSplitter.NewcomerFindsMode` | QSD8250Pkg/Drivers/ConSplitterDxe/ConSplitter.c:3127-3305 | A splitter in a mode of a shared size stays in that row when a console with that size is attached, so it asks for no change |
| `ConSplitter.ModeKeepsRow` | QSD8250Pkg/Drivers/ConSplitterDxe/ConSplitter.c:2463-2474 | The current mode's number follows its row when a console is matched, and is -1 only when a later row was dropped |
| `ConSplitter.RebuiltMode` | QSD8250Pkg/Drivers/ConSplitterDxe/ConSplitter.c:3402-3432 | After a rebuild the splitter is in the row of the mode of the old number of the console that is now the first, or in none |
| `ConSplitter.Splitter.DeleteDevice` | QSD8250Pkg/Drivers/ConSplitterDxe/ConSplitter.c:3319-3435 | The first console with the handle goes, the map is rebuilt as the function of the remaining list, and the current mode number is renumbered once for each console matched again |
| `ConSplitter.Splitter.QueryMode` | QSD8250Pkg/Drivers/ConSplitterDxe/ConSplitter.c:4767-4811 | For every matched mode the size reported is the one each console lists for its own mode in that row, the row that setting the mode asks for; a mode of size zero or out of range is refused |
| `ConSplitter.ReservedSizes` | QSD8250Pkg/Drivers/ConSplitterDxe/ConSplitter.c:4767-4811 | Modes 0 and 1 are reported with the first console's sizes; mode 1 may be reported missing |
| `ConSplitter.Splitter.AskThenSet` | QSD8250Pkg/Drivers/ConSplitterDxe/ConSplitter.c:4767-4878 | A client that asks for the size of a matched mode and then sets it gets exactly that size on every console |
| `ConSplitter.Splitter.SetMode` | QSD8250Pkg/Drivers/ConSplitterDxe/ConSplitter.c:4828-4878 | From mode 2 on, and for a reserved mode that all consoles have in one size, every console is asked for a mode it has, all of the same size; otherwise for what its column of the map says |
| `ConSplitter.Splitter.Session` | QSD8250Pkg/Drivers/ConSplitterDxe/ConSplitter.c:3127-3435 | After any run of attaching, detaching and mode setting the console list is the one these events leave, and the map is the function of it |
| `GraphicsModes.Splitter.Intersect` | QSD8250Pkg/Drivers/ConSplitterDxe/ConSplitter.c:2814-2880 | Exactly the modes of the list that the new device has, each once and in the old order |
| `GraphicsModes.Splitter.AddDevice` | QSD8250Pkg/Drivers/ConSplitterDxe/ConSplitter.c:2748-3025 | The list is the one offered after meeting the devices so far; as long as it has a mode, all devices then show the preferred one: the first with the new device's own resolution, else the first with 800 x 600, else mode 0 |
| `GraphicsModes.Splitter.SoundSupports` | QSD8250Pkg/Drivers/ConSplitterDxe/ConSplitter.c:2788-2908 | In every reachable state each advertised resolution is a mode of every attached device, and none is listed twice once an intersection was taken |
| `GraphicsModes.Splitter.DeleteDevice` | QSD8250Pkg/Drivers/ConSplitterDxe/ConSplitter.c:3341-3375 | Detaching keeps every advertised resolution supported by the devices left |
| `GraphicsModes.Splitter.SetMode` | QSD8250Pkg/Drivers/ConSplitterDxe/ConSplitterGraphics.c:112-201 | Every device is set to an in-range mode of its own with the selected resolution |
| `GraphicsModes.Splitter.QueryMode` | QSD8250Pkg/Drivers/ConSplitterDxe/ConSplitterGraphics.c:39-94 | With one device left, that device's own mode of the number, which it always has; otherwise the common list's; nothing for a number not on offer |
| `GraphicsModes.Splitter.QueriesAgreeExactly` | QSD8250Pkg/Drivers/ConSplitterDxe/ConSplitterGraphics.c:39-201 | Asking about every mode gives what selecting it sets if and only if not exactly one device is left, or no second one was met since there was none, or no mode of the device left was dropped before one that stayed and those that stayed were met in the same order |
| `GraphicsModes.Splitter.AskThenSelect` | QSD8250Pkg/Drivers/ConSplitterDxe/ConSplitterGraphics.c:39-201 | Under that condition a client that asks about a mode and selects it gets the resolution it was told; every device shows what was selected |
| `GraphicsModes.DetachedDeviceLeavesItsMark` | QSD8250Pkg/Drivers/ConSplitterDxe/ConSplitterGraphics.c:39-201 | Two devices and one detachment after which a client is told one resolution and set to another |
| `GraphicsModes.Splitter.Session` | QSD8250Pkg/Drivers/ConSplitterDxe/ConSplitter.c:2748-3025 | After any run of attaching, detaching and mode setting every advertised resolution is a mode of every attached device, all show the selected one, and the consoles are those the events leave |
| `TetrisRandom.WrappingStep` | QSD8250Pkg/Application/TetrisApp/Piece.c:105-120 | The step with its wrap at 32 bits equals 69069 x + 1 modulo 2^31 |
| `TetrisRandom.Generator.Rand` | QSD8250Pkg/Application/TetrisApp/Piece.c:105-120 | The next value, 69069 times the last and 1, modulo 2^31, starting from the clock reading at the first call |
| `TetrisRandom.NoEarlyReturn` | QSD8250Pkg/Application/TetrisApp/Piece.c:105-120 | No value comes back in fewer than 2^31 calls |
| `TetrisRandom.FullPeriod` | QSD8250Pkg/Application/TetrisApp/Piece.c:105-120 | From any value the generator visits each of the 2^31 values exactly once before it repeats |
| `TetrisGrid.ShapesAreTetriminos` | QSD8250Pkg/Application/TetrisApp/Piece.h:13-43 | Each of the seven pieces has four distinct cells in its frame in every rotation, and starts in the two hidden rows |
| `TetrisGrid.TurnsClockwise` | QSD8250Pkg/Application/TetrisApp/Piece.h:13-43 | One rotation on is a quarter turn clockwise: of a 4 by 4 frame for the long piece, of a 3 by 3 frame for the others, and none for the square |
| `TetrisGrid.MirrorPairs` | QSD8250Pkg/Application/TetrisApp/Piece.h:13-43 | J and L, and S and Z, are each other's mirror images, T is its own, I lies in a line, and each points to its own side |
| `TetrisGrid.LiftRestores` | QSD8250Pkg/Application/TetrisApp/Board.c:159-193 | Blanking a piece that was drawn or marked on free fields leaves exactly the settled ones |
| `TetrisGrid.AtMostFourLines` | QSD8250Pkg/Application/TetrisApp/Board.c:253-290 | A piece that settles where no line was full makes at most four full lines |
| `TetrisGrid.StampCount` | QSD8250Pkg/Application/TetrisApp/Board.c:159-167 | A piece that settles on free fields adds one cell for each of its own |
| `TetrisGrid.ClearedCount` | QSD8250Pkg/Application/TetrisApp/Board.c:253-290 | Removing k full lines removes exactly 10 k cells |
| `TetrisGrid.ClearedFacts` | QSD8250Pkg/Application/TetrisApp/Board.c:253-290 | After the removal no line is full and the hidden rows are empty |
| `TetrisGrid.ClearedSinks` | QSD8250Pkg/Application/TetrisApp/Board.c:253-290 | Every visible row that is not full sinks by exactly the number of full rows below it, and the rows on top are free |
| `TetrisGrid.DropStopsAtFirstBlock` | QSD8250Pkg/Application/TetrisApp/Board.c:94-101 | A falling piece fits in every row on its way and not in the one after |
| `TetrisLines.RemoveLine` | QSD8250Pkg/Application/TetrisApp/Board.c:268-277 | The visible rows above a removed line move down by one, the others stay |
| `TetrisLines.CheckAndRemoveLines` | QSD8250Pkg/Application/TetrisApp/Board.c:253-290 | The loop that looks at a row again after removing it ends; the rows that were not full are left in order at the bottom under empty rows, and the count is that of the full ones |
| `TetrisGame.ShownFields` | QSD8250Pkg/Application/TetrisApp/Board.c:159-193 | The visible cells of the falling piece carry its colour, its hidden ones that or nothing, and all other fields show what is settled |
| `TetrisGame.SpawnFits` | QSD8250Pkg/Application/TetrisApp/Board.c:294-303 | A new piece always finds room, wholly in the hidden rows |
| `TetrisGame.SettledIsTidy` | QSD8250Pkg/Application/TetrisApp/Board.c:229-290 | After a piece settles nothing is hidden, no line is full, and settled cells + 10 lines = 4 pieces settled |
| `TetrisGame.LandPlayable` | QSD8250Pkg/Application/TetrisApp/Board.c:229-303 | Landing keeps the game playable and clears at most four lines |
| `TetrisGame.LandIsLanded` | QSD8250Pkg/Application/TetrisApp/Board.c:229-303 | In numbers: a cell in the two upper rows ends the game; otherwise the four cells take the piece's colour, full rows go and others sink, one to four earn 150, 250, 450 or 850, and the next piece stands unturned at column 4, row 0 |
| `TetrisGame.FallIsFallen` | QSD8250Pkg/Application/TetrisApp/Board.c:76-90 | One row down if and only if all four cells one row lower are on the board and free, else the piece lands so |
| `TetrisGame.DropIsDropped` | QSD8250Pkg/Application/TetrisApp/Board.c:94-101 | The piece falls by as many rows as there is room for, and not one more, lands so, and earns two points a row |
| `TetrisGame.NewGamePlayable` | QSD8250Pkg/Application/TetrisApp/Board.c:105-128 | A new game has a free board, no points and the first piece unturned at column 4, row 0, and is playable |
| `TetrisBoard.Piece.RotateCCW` | QSD8250Pkg/Application/TetrisApp/Piece.c:65-74 | Undoes a clockwise turn |
| `TetrisBoard.Board.IsMovePossible` | QSD8250Pkg/Application/TetrisApp/Board.c:140-155 | Possible if and only if the shifted piece lies on the board and on free fields |
| `TetrisBoard.Board.RotatePiece` | QSD8250Pkg/Application/TetrisApp/Board.c:30-44 | The piece turns if it fits, else nothing changes; the board shows the game |
| `TetrisBoard.Board.MovePieceLeft` | QSD8250Pkg/Application/TetrisApp/Board.c:48-58 | The piece moves left if it fits, else nothing changes; the board shows the game |
| `TetrisBoard.Board.MovePieceRight` | QSD8250Pkg/Application/TetrisApp/Board.c:62-72 | The piece moves right if it fits, else nothing changes; the board shows the game |
| `TetrisBoard.Board.MovePieceDown` | QSD8250Pkg/Application/TetrisApp/Board.c:76-90 | One row down, or the piece lands: the game ends, or it settles, full lines go and the next piece comes in |
| `TetrisBoard.Board.DropPiece` | QSD8250Pkg/Application/TetrisApp/Board.c:94-101 | Ends; the piece falls to the first blocked row, lands there and earns two points a row |
| `TetrisBoard.Board.constructor` | QSD8250Pkg/Application/TetrisApp/Board.c:105-128 | The first piece falls on an empty board |
| `TetrisBoard.Board.RemoveLines` | QSD8250Pkg/Application/TetrisApp/Board.c:284-289 | At level 1 the lines removed add 0, 150, 250, 450 or 850 points |
| `TetrisBoard.Board.PlacePiece` | QSD8250Pkg/Application/TetrisApp/Board.c:229-237 | The game is blocked when part of the landed piece is hidden; otherwise the piece settles and the next one comes in |
| `TetrisCore.RunKeeps` | QSD8250Pkg/Application/TetrisApp/Core.c:16-99 | Over every run of keys, frames and ticks the game stays playable and neither its counts nor its mode go back |
| `TetrisCore.PressObeys` | QSD8250Pkg/Application/TetrisApp/Core.c:16-84 | What each key does, by its code: any key starts a waiting game, 0x17 ends it, 8 pauses and resumes, and in a running game 0x01 and 0x02 shift the piece one column left and right, 9 turns it, where all four cells are on the board and free, 0x0D lowers or lands it, 0x05 drops it; any other key, and these in a game that does not run, leave everything as it is |
| `TetrisCore.Core.HandleInput` | QSD8250Pkg/Application/TetrisApp/Core.c:16-84 | The driver does that on the board, and nothing without a key |
| `TetrisCore.Core.DrawWindow` | QSD8250Pkg/Application/TetrisApp/Core.c:86-99 | A frame ends a running game that is blocked and, when no tick is left, lets the piece fall or land and gives 35 ticks |
| `TetrisCore.Core.TimerCallback` | QSD8250Pkg/Application/TetrisApp/Core.c:138-144 | A tick is taken from a running game that has one left, and nothing else changes |
| `TetrisCore.FrameRests` | QSD8250Pkg/Application/TetrisApp/Core.c:86-99 | A frame leaves the game alone if and only if time is left, or the game is blocked and its piece stuck in the hidden rows |
| `TetrisCore.PausedGameMoves` | QSD8250Pkg/Application/TetrisApp/Core.c:16-144 | Any key, 35 ticks, the pause key and a frame: the piece of the paused game has moved |
| `TetrisCore.RestsAfterOneMove` | QSD8250Pkg/Application/TetrisApp/Core.c:16-144 | As long as a game does not run, whatever keys, frames and ticks come, it moves at most once, and not at all when time was left |
| `TetrisCore.FallsOnTime` | QSD8250Pkg/Application/TetrisApp/Core.c:86-144 | Left alone, a running game lets its piece fall or land in the first frame after its ticks are used up, in none before, and then has 35 ticks again |
| `TetrisCore.Core.Session` | QSD8250Pkg/Application/TetrisApp/Core.c:16-144 | Whatever events come in whatever order, the game stays playable and goes only onwards |
| `I2cTransfer.EndBitIsLast` | QSD8250Pkg/GPLDrivers/I2CDxe/I2CDxe.c:134-169 | The word that ends a transfer is the last one, when the last message is a write or empty, and no other word does |
| `I2cTransfer.SentIsPrefix` | QSD8250Pkg/GPLDrivers/I2CDxe/I2CDxe.c:134-169 | What is sent while a message is under way is a prefix of the encoding of all messages |
| `I2cTransfer.SentIsHeard` | QSD8250Pkg/GPLDrivers/I2CDxe/I2CDxe.c:134-169 | While a message is under way the words sent read back, from bit 8 for an address, bits 1 to 7 and bit 0 for where to and whether to read, and bits 0 to 7 for a byte, as the messages before it and its own first bytes |
| `I2cTransfer.WordGoes` | QSD8250Pkg/GPLDrivers/I2CDxe/I2CDxe.c:222-229 | An interrupt lets exactly one word go if bit 0 and bits 2 to 7 of the status are clear and an address or a byte is still to be sent, and none otherwise |
| `I2cTransfer.ByteArrives` | QSD8250Pkg/GPLDrivers/I2CDxe/I2CDxe.c:171-207 | An interrupt adds the byte of the data register to those got for the current message if and only if bit 1 of the status is set and bits 2 to 7 are clear, and the message is a read, addressed by now, that expects one |
| `I2cTransfer.UnwantedBytes` | QSD8250Pkg/GPLDrivers/I2CDxe/I2CDxe.c:190-206 | Bytes that keep coming are thrown away, and every second one is answered with a request to stop |
| `I2cTransfer.InterruptHolds` | QSD8250Pkg/GPLDrivers/I2CDxe/I2CDxe.c:209-249 | Every interrupt keeps it, and an error is remembered |
| `I2cTransfer.TransferDelivers` | QSD8250Pkg/GPLDrivers/I2CDxe/I2CDxe.c:209-249 | Whatever interrupts arrive, a slave that reads the words sent, by their bits, hears whole messages as asked for and the first bytes of the last; on completion exactly the messages asked for: address, direction, and all bytes of a write in order, none behind a read. Every read then holds exactly the bytes taken with one stop asked for, and after a final one-byte read the extra byte was thrown away |
| `I2cTransfer.ReadyCompletes` | QSD8250Pkg/GPLDrivers/I2CDxe/I2CDxe.c:209-249 | Without errors, whatever the order of the interrupts, a transfer completes once one for every address, byte and extra byte, and one more, found everything ready |
| `I2cTransfer.CompletionTakes` | QSD8250Pkg/GPLDrivers/I2CDxe/I2CDxe.c:209-249 | A completed transfer took an interrupt that can write for every word and one that can read for every byte |
| `I2cTransfer.CompletesExactly` | QSD8250Pkg/GPLDrivers/I2CDxe/I2CDxe.c:209-249 | If every interrupt finds everything ready, the transfer completes with a number computed from the messages and no fewer |
| `I2cTransfer.ResultMeans` | QSD8250Pkg/GPLDrivers/I2CDxe/I2CDxe.c:346-422 | Without an old timeout the count of messages is returned if and only if no interrupt reported an error; with one it also takes completion, and so an interrupt for every word and byte; after enough ready interrupts it is returned if and only if there was no error, and then everything was delivered |
| `I2cTransfer.SuccessWithoutTransfer` | QSD8250Pkg/GPLDrivers/I2CDxe/I2CDxe.c:346-422 | A transfer that is reported as a success although nothing was sent |
| `I2cTransfer.OldTimeoutFails` | QSD8250Pkg/GPLDrivers/I2CDxe/I2CDxe.c:346-422 | A write that is sent whole without any error and yet reported as timed out |
| `I2cTransfer.Controller.Xfer` | QSD8250Pkg/GPLDrivers/I2CDxe/I2CDxe.c:346-422 | A whole transfer: the record, the buffers and the result after the given interrupts; the words sent read back as the messages asked for, all of them when it completed, and the result is their number, -1 or -13 |
| `NbhImage.WordRoundTrip` | ImageResources/Leo/yang_src/yang.c:298-300 | A word below 2^32 written little end first is read back |
| `NbhImage.BlockRead` | ImageResources/Leo/yang_src/nbhextract.c:292-331 | A block that was written is read back with its payload, and reading goes on behind it or stops at the last one |
| `NbhImage.BlocksRead` | ImageResources/Leo/yang_src/nbhextract.c:292-331 | The blocks of any data, of any chunk size and also for exact multiples of it, give back that data |
| `NbhImage.NbhRoundTrip` | ImageResources/Leo/yang_src/nbhextract.c:250-333 | Extracting what was packed gives the exact DBH |
| `NbhImage.EntryRead` | ImageResources/Leo/yang_src/yang.c:183-217 | The type, offset and length of every section are read back from the header |
| `NbhImage.SectionRead` | ImageResources/Leo/yang_src/nbhextract.c:343-374 | Every section is read back with its exact contents |
| `NbhImage.PackThenExtract` | ImageResources/Leo/yang_src/nbhextract.c:224-380 | Packing and extracting give back every section of non-zero type, in order and whole |
| `NbhImage.EverySectionComesBack` | ImageResources/Leo/yang_src/nbhextract.c:368-374 | With a type for every section, every section comes back |
| `NbhFormat.DbhTexts` | ImageResources/Leo/yang_src/nbh.h:4-12 | The letters of HTCIMAGE in a word each, and device, CID, version and language at bytes 32, 448, 480 and 496 of a DBH, cut off or followed by zeros |
| `NbhFormat.DbhEntries` | ImageResources/Leo/yang_src/yang.c:166-217 | Type, place and length of file i as little-endian words at bytes 64, 192 and 320 plus 4 i, zero where there is no file |
| `NbhFormat.DbhFiles` | ImageResources/Leo/yang_src/yang.c:226-254 | The files follow one another from byte 512 on |
| `NbhFormat.NbhLayout` | ImageResources/Leo/yang_src/yang.c:268-315 | R000FF and a newline, the 16 bytes of the first signature, then from byte 23 on the data in blocks, each with its length, the signature's length 128, flag 1, the bytes and 128 zeros, and at the end an empty block with flag 2 |
| `NbhFormat.BlockTaken` | ImageResources/Leo/yang_src/nbhextract.c:292-331 | Of any image, one block of the old format: what is taken of it whole or cut short, and where reading goes on |
| `NbhFormat.DbhTaken` | ImageResources/Leo/yang_src/nbhextract.c:250-333 | An image that begins with R000FF and a newline is read from byte 23 on block by block; any other below a gigabyte gives what follows its first 256 bytes |
| `NbhFormat.DbhKnown` | ImageResources/Leo/yang_src/nbhextract.c:343-359 | The table is walked if and only if the file has 512 bytes and begins with HTCIMAGE in words |
| `NbhFormat.SectionsTaken` | ImageResources/Leo/yang_src/nbhextract.c:368-374 | Of any DBH exactly the entries below 31 with a type are taken, in order, each with the bytes its two words name, as far as there are any |
| `NbhTools.BufferedReadWrite` | ImageResources/Leo/yang_src/nbh.c:17-34 | Copies as much of the length as there is, and succeeds if and only if that is all of it |
| `NbhTools.Pack` | ImageResources/Leo/yang_src/yang.c:147-317 | The NBH for chunk sizes 64 and 1024 and matching lists, nothing otherwise |
| `NbhTools.UndoBlocks` | ImageResources/Leo/yang_src/nbhextract.c:243-333 | The blocks undone, in the old format or the new |
| `NbhTools.ExtractNb` | ImageResources/Leo/yang_src/nbhextract.c:171-221 | The stretch of the file that the entry names; reported as a failure if and only if the file ends in it, or it is a splash screen of no known size |
| `NbhTools.PackedFailures` | ImageResources/Leo/yang_src/nbhextract.c:171-221 | Of a packed ROM exactly the splash screens of no known size are reported as failed |
| `NbhTools.OddScreensAre` | ImageResources/Leo/yang_src/nbhextract.c:160-169 | These are exactly the files of type 0x600 or 0x601 with none of the four known lengths |
| `NbhFormat.FailuresAre` | ImageResources/Leo/yang_src/nbhextract.c:171-221 | Of any DBH exactly those entries are reported as failed that end behind the file or are such screens |
| `NbhTools.WholeYetReported` | ImageResources/Leo/yang_src/nbhextract.c:171-221 | Such a screen, extracted whole and reported as failed |
| `NbhTools.ExtractAll` | ImageResources/Leo/yang_src/nbhextract.c:335-374 | The sections of non-zero type except entry 31, and which of them are reported as failed; nothing for a file without the magic word and a full header |
| `NbhTools.ExtractNbh` | ImageResources/Leo/yang_src/nbhextract.c:224-380 | Everything the extractor gets out of an image |
| `NbhTools.PackAndExtract` | ImageResources/Leo/yang_src/yang.c:147-317 | Run one after the other, the two programs give back every section and report exactly the splash screens of no known size |
| `AcpuClock.SelectRaw` | QSD8250Pkg/GPLDrivers/ClockDxe/acpuclock.c:208-230 | Selecting the standby clock flips bit 0 of SPSS_CLK_SEL, clears bits 1 and 2 and puts 0x40 into the half of SPSS_CLK_CNTL that bit 0 then names, bits 0 to 6 for 1 and 8 to 14 for 0; no other bit of any register changes, and no write on the way disturbs the clock in use |
| `AcpuClock.OnTheBits` | QSD8250Pkg/GPLDrivers/ClockDxe/acpuclock.c:208-230 | The rule in terms of fields is the rule on bits: an edit of SPSS_CLK_CNTL leaves bits 0 to 6 alone when bit 0 of SPSS_CLK_SEL is set and bits 8 to 14 otherwise, and so on for every register |
| `AcpuClock.Driver.Select` | QSD8250Pkg/GPLDrivers/ClockDxe/acpuclock.c:208-230 | The driver's three or one writes leave the registers so |
| `AcpuClock.SetFreqSafe` | QSD8250Pkg/GPLDrivers/ClockDxe/acpuclock.c:154-205 | Tuning is harmless while the SCPLL is not selected, and leaves it running at the multiplier |
| `AcpuClock.TuningWrites` | QSD8250Pkg/GPLDrivers/ClockDxe/acpuclock.c:154-205 | In numbers and in order: an SCPLL that does not run gets mode 2, multiplier 10 with switch 4 and mode 7; then comes the multiplier, held between 10 and 33, with switch 5, and mode 7; no other bit is touched |
| `AcpuClock.PowerDownWrites` | QSD8250Pkg/GPLDrivers/ClockDxe/acpuclock.c:133-152 | Mode 2 and then mode 0 |
| `AcpuClock.SwitchSafe` | QSD8250Pkg/GPLDrivers/ClockDxe/acpuclock.c:255-269 | Every change of speed is harmless and ends with the registers set for the new speed; only the way from the end of the table to the standby speed leaves the SCPLL on |
| `AcpuClock.SwitchOrder` | QSD8250Pkg/GPLDrivers/ClockDxe/acpuclock.c:255-269 | Which registers are written in which order, for every pair of speeds |
| `AcpuClock.SetMeans` | QSD8250Pkg/GPLDrivers/ClockDxe/acpuclock.c:95-115 | Being set for entry i of the table, on the bits: a raw clock at 0x40 and the SCPLL off for entry 0, else the SCPLL selected, in mode 7, at multiplier i + 9 |
| `AcpuClock.InitSane` | QSD8250Pkg/GPLDrivers/ClockDxe/acpuclock.c:304-348 | After init the registers are set for the speed, and the rate read back is its rate, if and only if it is one of the SCPLL's |
| `AcpuClock.SetRateReaches` | QSD8250Pkg/GPLDrivers/ClockDxe/acpuclock.c:232-281 | A rate of the table is reached and reported as a success, any other request changes nothing |
| `AcpuClock.RunsHarmlessExactly` | QSD8250Pkg/GPLDrivers/ClockDxe/acpuclock.c:232-348 | Over every sequence of requests after init no write disturbs the clock in use, told on the bits of the registers, if and only if init was not asked for entry 0 of the table |
| `AcpuClock.RunsSaneExactly` | QSD8250Pkg/GPLDrivers/ClockDxe/acpuclock.c:232-348 | Over every sequence of requests the bits of the registers are those of the recorded speed, if and only if init was asked for a speed of the SCPLL |
| `AcpuClock.SaneReadsBack` | QSD8250Pkg/GPLDrivers/ClockDxe/acpuclock.c:283-293 | Then the selected source is that speed's, and on the SCPLL the rate read back is the recorded one |
| `AcpuClock.TunedInUse` | QSD8250Pkg/GPLDrivers/ClockDxe/acpuclock.c:232-348 | After init with entry 0 a request for 422.4 MHz tunes the SCPLL while the processor runs on it |
| `AcpuClock.Driver.Session` | QSD8250Pkg/GPLDrivers/ClockDxe/acpuclock.c:232-348 | Init and any requests do what the runs say, on the bits: harmless unless init was for entry 0, and set for the recorded speed if it was for one of the SCPLL's |
| `AcpuClock.EditHalf` | QSD8250Pkg/GPLDrivers/ClockDxe/acpuclock.c:208-221 | Editing one half of SPSS_CLK_CNTL changes no bit of the other half nor of the rest of the register |
| `KeyQueue.Ring.Push` | QSD8250Pkg/Drivers/KeypadDxe/KeypadTextIn.c:63-73 | A key is added behind the others, and the oldest of 255 is forgotten |
| `KeyQueue.Ring.Pop` | QSD8250Pkg/Drivers/KeypadDxe/KeypadTextIn.c:41-55 | The oldest key is removed, or there is none |
| `KeyQueue.ArrivedIsRecent` | QSD8250Pkg/Drivers/KeypadDxe/Keypad.c:137-179 | Whatever keys arrive, the queue holds the most recent 255 of those admitted, in order |
| `KeyQueue.RecentKeys` | QSD8250Pkg/Drivers/KeypadDxe/KeypadTextIn.c:63-73 | A queue of up to 255 keys is kept whole, of a longer one the last 255 in order |
| `KeyQueue.CalledForEach` | QSD8250Pkg/Drivers/KeypadDxe/Keypad.c:157-176 | Over any run of keys each function is called once for every registration that matches a key meant for it, except for the copies that the queue forgot |
| `KeyQueue.SkipFindsKey` | QSD8250Pkg/Drivers/KeypadDxe/KeypadTextIn.c:302-317 | A key is waiting if and only if the queue holds one that is not partial, and only partial keys before it are dropped |
| `KeyQueue.ReadAfterWait` | QSD8250Pkg/Drivers/KeypadDxe/KeypadTextIn.c:237-269 | Without new keys the next read returns the key that was waited for, with control letters translated |
| `KeyQueue.TranslatedLetters` | QSD8250Pkg/Drivers/KeypadDxe/KeypadTextIn.c:246-265 | With bit 2 or 3 of the shift state set the n-th letter, small or capital, is read as n with its scan code; any other key is read as it is |
| `KeyQueue.ReadTakesBatch` | QSD8250Pkg/Drivers/KeypadDxe/KeypadTextIn.c:120-150 | The keys that arrive with a read are queued before it takes one |
| `KeyQueue.RegisteredKeys` | QSD8250Pkg/Drivers/KeypadDxe/KeypadTextIn.c:87-114 | A registration matches the keys with its codes and, where it names a shift or toggle state, that state, and no others |
| `KeyQueue.CalledOnceEach` | QSD8250Pkg/Drivers/KeypadDxe/Keypad.c:157-176 | As long as no copy is forgotten, the function of a registration is called once for each key meant for it if and only if no other registration matches any of these keys |
| `KeyQueue.Keypad.PushKey` | QSD8250Pkg/Drivers/KeypadDxe/Keypad.c:137-179 | Partial keys are dropped unless wanted; other keys are queued, and once more for every matching registration |
| `KeyQueue.Keypad.ReadKeyStroke` | QSD8250Pkg/Drivers/KeypadDxe/KeypadTextIn.c:223-270 | Reads the first whole keystroke, while keys keep arriving; a failed keypad gives an error and loses no key |
| `KeyQueue.Keypad.WaitForKey` | QSD8250Pkg/Drivers/KeypadDxe/KeypadTextIn.c:280-323 | Signals if and only if a whole keystroke is queued |
| `KeyQueue.Keypad.NotifyProcess` | QSD8250Pkg/Drivers/KeypadDxe/KeypadTextIn.c:631-670 | Empties the queue for notification and calls every matching function for every key in it |
| `KeyQueue.Keypad.NotifyAfter` | QSD8250Pkg/Drivers/KeypadDxe/Keypad.c:137-179 | The same through the driver: keys arrive, and then those who registered are told |

## Left out

- Text console: one-column modes, in which a wide character never finds room; the availability of glyphs and glyph widths other than the attribute's; pixel positions, font rendering and the frame buffer; the UGA path.
- GraphicsConsole.Console.Session: a first mode change that the device refuses leaves a line buffer and no mode, and the cursor code then looks up the data of mode -1; this state is not entered.
- Terminal.RunAppend: strings are those without a NUL character, which ends a string in C.
- Console splitter: allocation failures; consoles that fail to report a mode other than mode 1, or refuse one that they report.
- ConSplitter.Splitter.DeleteDevice: the renumbering of the current mode starts from its number in the old map, so it need not stand for the same size.
- ModeIntersection.BuildIsIntersection: requires distinct geometries, because a console that lists one twice can lose the row of another.
- ConSplitter.Splitter.AddDevice: the joint modes with the standard error device, whose scan does not reset its inner pointer.
- ConSplitter.RebuiltMode: says nothing of a mode number that the console now first does not have.
- GraphicsModes.Splitter.AddDevice: what the mode buffer holds when no mode is common is a parameter.
- Tetris: drawing, the score's overflow as a C `int`, and a timer tick in the middle of another handler.
- I2cTransfer.TransferDelivers: addresses have seven bits and every message has a buffer of its own; the stops that reads ask for are counted apart from the words sent; bus recovery, retries, delays and the polling of the bus are not modelled.
- NbhTools.Pack: requires at most 31 sections and less than 4 GB in all; with 32 sections the packer never sets its counts.
- NbhTools.CopyBlock: the fixed buffer for a block's signature is not modelled.
- ROM images: reading the command line, failing file operations, and the conversion of splash screens to bitmaps.
- AcpuClock.Driver.AcpuclkInit: returns only with the SCPLL or the 128 MHz source selected and the modem PLL on; waiting for the hardware and the clock tree beside the CPU clock are not modelled.
- KeyQueue.Keypad.ReadKeyStroke: the keys that arrive at each call of the timer handler are a parameter, and end at some time; the key data of the device and the lock states are not modelled.
- Driver binding, protocols, events and task priority levels: sections that raise the priority are atomic.
- Pointers and key input of the splitter, menus, and the remaining device drivers: they keep no state with a property of this kind.
