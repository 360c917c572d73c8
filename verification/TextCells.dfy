/**
  Characters, attributes and screen contents shared by the console models.

  A screen is kept in two layers that the hardware stores in one frame buffer:
  the text (which glyph each character cell shows) and the ink (the colour that
  drawing the cursor has XORed into the cell).  Drawing a glyph or filling a
  line overwrites both layers; toggling the cursor touches the ink only.
*/
module TextCells {

  newtype Char16 = x: int | 0 <= x < 0x1_0000

  const CHAR_NULL: Char16 := 0
  const CHAR_BACKSPACE: Char16 := 8
  const CHAR_LINEFEED: Char16 := 0xA
  const CHAR_CARRIAGE_RETURN: Char16 := 0xD
  const CHAR_SPACE: Char16 := 0x20
  const NARROW_CHAR: Char16 := 0xFFF0
  const WIDE_CHAR: Char16 := 0xFFF1

  /** The characters before the terminator of a CHAR16 string. */
  type WString = s: seq<Char16> | CHAR_NULL !in s

  const SPACE_STR: WString := [NARROW_CHAR, CHAR_SPACE]
  const CRLF_STR: WString := [CHAR_CARRIAGE_RETURN, CHAR_LINEFEED]

  predicate IsPrinting(c: Char16) {
    c != CHAR_NULL && c != CHAR_BACKSPACE && c != CHAR_LINEFEED &&
    c != CHAR_CARRIAGE_RETURN && c != WIDE_CHAR && c != NARROW_CHAR
  }

  /**
    A text attribute word: bits 0-3 are the foreground and bits 4-6 the background
    colour (together `colors`), bit 7 (EFI_WIDE_ATTRIBUTE) is the wide flag.
  */
  datatype Attribute = Attribute(colors: nat, wide: bool)

  function GlyphWidth(a: Attribute): nat { if a.wide then 2 else 1 }

  function Background(a: Attribute): nat { a.colors / 16 }

  /** Raw 32-bit pixel values of the sixteen console colours. */
  const GRAPHICS_COLORS: seq<bv32> := [
    0x00000000, 0x00000098, 0x00009800, 0x00009898,
    0x00980000, 0x00980098, 0x00989800, 0x00989898,
    0x00303030, 0x000000ff, 0x0000ff00, 0x0000ffff,
    0x00ff0000, 0x00ff00ff, 0x00ffff00, 0x00ffffff]

  function Foreground(a: Attribute): bv32 { GRAPHICS_COLORS[a.colors % 16] }

  /**
    The palette in bits: bit 0 of a colour is blue, bit 1 green and bit 2 red, one byte each from
    the lowest byte up; bit 3 raises the lit bytes from 0x98 to 0xFF, and alone it is dark grey.
  */
  lemma PaletteBits(n: bv4)
    ensures var pixel := GRAPHICS_COLORS[n as nat];
      && pixel & 0xFF == (if n == 8 then 0x30 else if n & 1 == 0 then 0 else if n & 8 == 0 then 0x98 else 0xFF)
      && (pixel >> 8) & 0xFF
         == (if n == 8 then 0x30 else if n & 2 == 0 then 0 else if n & 8 == 0 then 0x98 else 0xFF)
      && (pixel >> 16) & 0xFF
         == (if n == 8 then 0x30 else if n & 4 == 0 then 0 else if n & 8 == 0 then 0x98 else 0xFF)
      && pixel >> 24 == 0
  {
  }

  datatype Half = Whole | Left | Right

  datatype Cell =
    | Glyph(ch: Char16, half: Half, colors: nat)
    | Fill(background: nat)

  type Row = seq<Cell>
  type Grid = seq<Row>
  type Ink = seq<seq<bv32>>

  ghost predicate Shaped<T>(g: seq<seq<T>>, rows: nat, cols: nat) {
    |g| == rows && forall r :: 0 <= r < rows ==> |g[r]| == cols
  }

  /** The cells one glyph occupies. */
  function CellsOf(c: Char16, a: Attribute): (cells: Row)
    ensures |cells| == GlyphWidth(a)
  {
    if a.wide then [Glyph(c, Left, a.colors), Glyph(c, Right, a.colors)]
    else [Glyph(c, Whole, a.colors)]
  }

  /** The cells a run of glyphs occupies when drawn in one call. */
  function RunCells(s: seq<Char16>, a: Attribute): (cells: Row)
    ensures |cells| == |s| * GlyphWidth(a)
  {
    if s == [] then [] else CellsOf(s[0], a) + RunCells(s[1..], a)
  }

  /** s with the entries from `at` on replaced by patch. */
  function Overwrite<T>(s: seq<T>, at: nat, patch: seq<T>): (r: seq<T>)
    requires at + |patch| <= |s|
    ensures |r| == |s|
  {
    s[..at] + patch + s[at + |patch|..]
  }

  function DrawAt(g: Grid, row: nat, col: nat, cells: Row): (r: Grid)
    requires row < |g| && col + |cells| <= |g[row]|
    ensures |r| == |g|
  {
    g[row := Overwrite(g[row], col, cells)]
  }

  function FillRow(cols: nat, background: nat): (r: Row)
    ensures |r| == cols
  {
    seq(cols, _ => Fill(background))
  }

  function FillGrid(rows: nat, cols: nat, background: nat): (g: Grid)
    ensures Shaped(g, rows, cols)
    ensures forall r, c :: 0 <= r < rows && 0 <= c < cols ==> g[r][c] == Fill(background)
  {
    seq(rows, _ => FillRow(cols, background))
  }

  /** Scroll up one row and fill the freed last row. */
  function ScrollText(g: Grid, cols: nat, background: nat): (r: Grid)
    requires |g| > 0
    ensures |r| == |g|
  {
    g[1..] + [FillRow(cols, background)]
  }

  // ----- the ink layer.  Column `cols` is the strip just right of the text
  // window: the cursor may be toggled there but no text operation reaches it.

  /** Exactly one cell holds ink v, all others hold none. */
  ghost predicate InkOnlyAt(ink: Ink, row: int, col: int, v: bv32) {
    forall r, c :: 0 <= r < |ink| && 0 <= c < |ink[r]| ==>
      ink[r][c] == (if r == row && c == col then v else 0)
  }

  ghost predicate NoInk(ink: Ink) {
    forall r, c :: 0 <= r < |ink| && 0 <= c < |ink[r]| ==> ink[r][c] == 0
  }

  function BlankInk(rows: nat, cols: nat): (ink: Ink)
    ensures Shaped(ink, rows, cols + 1) && NoInk(ink)
  {
    seq(rows, _ => seq(cols + 1, _ => 0))
  }

  function XorInk(ink: Ink, row: nat, col: nat, v: bv32): (r: Ink)
    requires row < |ink| && col < |ink[row]|
    ensures |r| == |ink|
  {
    ink[row := ink[row][col := Xor(ink[row][col], v)]]
  }

  /** Drawing n cells overwrites whatever ink they held. */
  function EraseInk(ink: Ink, row: nat, col: nat, n: nat): (r: Ink)
    requires row < |ink| && col + n <= |ink[row]|
    ensures |r| == |ink|
  {
    ink[row := Overwrite(ink[row], col, seq(n, _ => 0))]
  }

  /** The block move copies the text window only; the last row is filled. */
  function ScrollInk(ink: Ink, cols: nat): (r: Ink)
    requires Shaped(ink, |ink|, cols + 1)
    ensures Shaped(r, |ink|, cols + 1)
  {
    seq(|ink|, r requires 0 <= r < |ink| =>
      (if r + 1 < |ink| then ink[r + 1][..cols] else seq(cols, _ => 0)) + [ink[r][cols]])
  }

  function Xor(x: bv32, y: bv32): bv32 { x ^ y }

  lemma XorSelf(x: bv32)
    ensures Xor(x, x) == 0 && Xor(0, x) == x
  {}

  lemma InkOn(ink: Ink, row: nat, col: nat, v: bv32)
    requires row < |ink| && col < |ink[row]| && NoInk(ink)
    ensures InkOnlyAt(XorInk(ink, row, col, v), row, col, v)
  {
    hide Xor;
    XorSelf(v);
  }

  lemma InkOff(ink: Ink, row: nat, col: nat, v: bv32)
    requires row < |ink| && col < |ink[row]| && InkOnlyAt(ink, row, col, v)
    ensures NoInk(XorInk(ink, row, col, v))
  {
    hide Xor;
    XorSelf(v);
  }

  lemma InvisibleInk(ink: Ink, row: nat, col: nat)
    requires row < |ink| && col < |ink[row]|
    ensures InkOnlyAt(ink, row, col, 0) <==> NoInk(ink)
  {
  }

  lemma XorKeepsShape(ink: Ink, rows: nat, cols: nat, row: nat, col: nat, v: bv32)
    requires Shaped(ink, rows, cols) && row < rows && col < cols
    ensures row < |ink| && col < |ink[row]| && Shaped(XorInk(ink, row, col, v), rows, cols)
  {
    hide Xor;
  }

  /** Toggling the cursor exclusive-ors the foreground colour into its cell and no other. */
  lemma TogglesOneCell(ink: Ink, rows: nat, cols: nat, row: nat, col: nat, a: Attribute)
    requires Shaped(ink, rows, cols) && row < rows && col < cols
    ensures var r := XorInk(ink, row, col, Foreground(a));
      && |r| == rows
      && (forall i :: 0 <= i < rows ==> |r[i]| == cols)
      && r[row][col] == ink[row][col] ^ GRAPHICS_COLORS[a.colors % 16]
      && forall i, j :: 0 <= i < rows && 0 <= j < cols && !(i == row && j == col) ==> r[i][j] == ink[i][j]
  {
  }

  /** Drawing over the cursor cell removes the cursor. */
  lemma DrawErasesInk(ink: Ink, rows: nat, cols: nat, row: nat, col: nat, n: nat, v: bv32)
    requires Shaped(ink, rows, cols) && row < rows && col + n <= cols
    ensures Shaped(EraseInk(ink, row, col, n), rows, cols)
    ensures NoInk(ink) ==> NoInk(EraseInk(ink, row, col, n))
    ensures n > 0 && InkOnlyAt(ink, row, col, v) ==> NoInk(EraseInk(ink, row, col, n))
  {
  }

  lemma ScrollKeepsNoInk(ink: Ink, rows: nat, cols: nat)
    requires Shaped(ink, rows, cols + 1) && NoInk(ink)
    ensures NoInk(ScrollInk(ink, cols))
  {
  }
}
