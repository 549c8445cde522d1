/** The terminal emulator's screen and the operations that the frame writer sends it, each in its default
    modes: autowrap on, insert and origin modes off. */
module Terminal {
  datatype Attributes = Attributes(
    bold: bool, faint: bool, italic: bool, underlined: bool, blink: bool, inverse: bool, invisible: bool)

  /** Colours are 0 for "default"; the other numbers are those of `Renditions`. */
  datatype Renditions = Renditions(foreground: nat, background: nat, attributes: Attributes)

  function Plain(background: nat): Renditions {
    Renditions(0, background, Attributes(false, false, false, false, false, false, false))
  }

  /** Nothing, one character, or a character with others combined. */
  datatype Contents = Empty | Glyph(ch: char) | Cluster(text: seq<char>)

  datatype Cell = Cell(contents: Contents, rendition: Renditions, wide: bool, fallback: bool, wrap: bool)

  /** `Cell::reset` */
  function Reset(background: nat): Cell {
    Cell(Empty, Plain(background), false, false, false)
  }

  /** A narrow character. */
  function Ink(ch: char, rendition: Renditions): Cell {
    Cell(Glyph(ch), rendition, false, false, false)
  }

  /** What the user sees of a cell: an empty cell looks like a space, and the wrap bit cannot be seen. */
  datatype Look = Look(contents: Contents, rendition: Renditions, wide: bool, fallback: bool)

  function LookOf(c: Cell): Look {
    Look(if c.contents.Empty? then Glyph(' ') else c.contents, c.rendition, c.wide, c.fallback)
  }

  function Blank(rendition: Renditions): Look {
    Look(Glyph(' '), rendition, false, false)
  }

  datatype Screen = Screen(
    width: nat, height: nat, rows: seq<seq<Cell>>,
    row: int, col: int, pending: bool,
    top: int, bottom: int,
    rendition: Renditions, visible: bool)

  /** Positions and margins count from 1, as in the escape sequences; 0 stands for an omitted parameter. `ClearLink`
      ends a hyperlink; as no cell has one, only its string terminator matters. */
  datatype Op =
    | Print(ch: char)
    | CarriageReturn
    | LineFeed
    | Backspace
    | CursorTo(y: nat, x: nat)
    | EraseToEnd
    | EraseChars(count: nat)
    | EraseAll
    | SetRendition(r: Renditions)
    | SetRegion(first: nat, last: nat)
    | ShowCursor(on: bool)
    | ClearLink

  ghost predicate Grid(rows: seq<seq<Cell>>, width: nat, height: nat) {
    |rows| == height && forall i | 0 <= i < height :: |rows[i]| == width
  }

  /** height rows of width cells, the cursor on the screen, and 0 <= top <= bottom < height. */
  ghost predicate Shape(s: Screen) {
    && 0 < s.width && 0 < s.height
    && |s.rows| == s.height && Grid(s.rows, s.width, s.height)
    && 0 <= s.row < s.height && 0 <= s.col < s.width
    && 0 <= s.top <= s.bottom < s.height
  }

  ghost predicate FullRegion(s: Screen) {
    s.top == 0 && s.bottom == s.height - 1
  }

  /** An empty cell carries a background colour and nothing else. */
  ghost predicate CleanCell(c: Cell) {
    c.contents.Empty? ==> c.rendition == Plain(c.rendition.background) && !c.wide && !c.fallback
  }

  ghost predicate CleanRow(row: seq<Cell>) {
    forall j | 0 <= j < |row| :: CleanCell(row[j])
  }

  ghost predicate Clean(rows: seq<seq<Cell>>) {
    forall i | 0 <= i < |rows| :: CleanRow(rows[i])
  }

  function Clamp(x: int, low: int, high: int): int {
    if x > high then high else if x < low then low else x
  }

  function MoveRow(s: Screen, row: int): Screen {
    s.(row := Clamp(row, 0, s.height - 1), pending := false)
  }

  function MoveCol(s: Screen, col: int): Screen {
    s.(col := Clamp(col, 0, s.width - 1), pending := false)
  }

  function BlankRow(width: nat, background: nat): seq<Cell> {
    seq(width, _ => Reset(background))
  }

  function BlankRows(count: nat, width: nat, background: nat): seq<seq<Cell>> {
    seq(count, _ => BlankRow(width, background))
  }

  /** Rows `first` to `last` with the top `n` of them dropped and `n` copies of `blank` put in below. */
  function ScrollUp(rows: seq<seq<Cell>>, first: nat, last: int, n: nat, blank: seq<Cell>): seq<seq<Cell>>
    requires first + n <= last + 1 <= |rows|
  {
    rows[..first] + rows[first + n..last + 1] + seq(n, _ => blank) + rows[last + 1..]
  }

  /** The rows from `row` to the bottom margin move up by `count`; blank rows come in below. */
  function DeleteLines(s: Screen, row: int, count: nat): Screen
    requires Shape(s)
  {
    if row < s.top || row > s.bottom then s
    else
      var n := if count < s.bottom + 1 - row then count else s.bottom + 1 - row;
      s.(rows := ScrollUp(s.rows, row, s.bottom, n, BlankRow(s.width, s.rendition.background)))
  }

  /** `move_rows_autoscroll( 1 )` */
  function Down(s: Screen): Screen
    requires Shape(s)
  {
    if s.row < s.top || s.row > s.bottom then MoveRow(s, s.row + 1)
    else if s.row + 1 > s.bottom then
      var t := DeleteLines(s, s.top, 1);
      var u := MoveRow(t, t.row - 1);
      MoveRow(u, u.row + 1)
    else MoveRow(s, s.row + 1)
  }

  /** `cell` from column `from` on, `count` times. */
  function Painted(row: seq<Cell>, from: nat, count: nat, cell: Cell): seq<Cell>
    requires from + count <= |row|
  {
    row[..from] + seq(count, _ => cell) + row[from + count..]
  }

  function SetRow(s: Screen, y: int, row: seq<Cell>): Screen
    requires 0 <= y < |s.rows|
  {
    s.(rows := s.rows[y := row])
  }

  function Erase(s: Screen, count: nat): Screen
    requires Shape(s)
  {
    var n := if count < s.width - s.col then count else s.width - s.col;
    SetRow(s, s.row, Painted(s.rows[s.row], s.col, n, Reset(s.rendition.background)))
  }

  function SetWrap(row: seq<Cell>): seq<Cell>
    requires |row| > 0
  {
    row[|row| - 1 := row[|row| - 1].(wrap := true)]
  }

  /** The line break that a pending wrap makes before the next character. */
  function WrapLine(s: Screen): Screen
    requires Shape(s)
  {
    Down(MoveCol(SetRow(s, s.row, SetWrap(s.rows[s.row])), 0))
  }

  /** What every operation keeps. */
  ghost predicate Kept(s: Screen, t: Screen) {
    && Shape(t)
    && t.width == s.width && t.height == s.height
    && (Clean(s.rows) ==> Clean(t.rows))
  }

  lemma ScrollNone(rows: seq<seq<Cell>>, first: nat, last: int, blank: seq<Cell>)
    requires first <= last + 1 <= |rows|
    ensures ScrollUp(rows, first, last, 0, blank) == rows
  {
    assert rows[..first] + rows[first..last + 1] + rows[last + 1..] == rows;
  }

  lemma PaintedNone(row: seq<Cell>, from: nat, cell: Cell)
    requires from <= |row|
    ensures Painted(row, from, 0, cell) == row
  {
    assert row[..from] + row[from..] == row;
  }

  lemma BlankLength(width: nat, background: nat)
    ensures |BlankRow(width, background)| == width && CleanRow(BlankRow(width, background))
  {
  }

  lemma ScrollUpKeeps(rows: seq<seq<Cell>>, first: nat, last: int, n: nat, blank: seq<Cell>, width: nat, height: nat)
    requires Grid(rows, width, height) && first + n <= last + 1 <= height
    requires |blank| == width && CleanRow(blank)
    ensures Grid(ScrollUp(rows, first, last, n, blank), width, height)
    ensures Clean(rows) ==> Clean(ScrollUp(rows, first, last, n, blank))
  {
    hide CleanRow;
  }

  lemma DownKeeps(s: Screen)
    requires Shape(s)
    ensures Kept(s, Down(s))
  {
    hide Clean, ScrollUp, BlankRow;
    var blank := BlankRow(s.width, s.rendition.background);
    assert |blank| == s.width && CleanRow(blank) by { BlankLength(s.width, s.rendition.background); }
    ScrollUpKeeps(s.rows, s.top, s.bottom, 1, blank, s.width, s.height);
  }

  lemma SetRowKeeps(s: Screen, y: int, row: seq<Cell>)
    requires Shape(s) && 0 <= y < s.height && |row| == s.width
    requires Clean(s.rows) ==> CleanRow(row)
    ensures Kept(s, SetRow(s, y, row))
  {
    hide CleanRow;
  }

  lemma WrapKeeps(s: Screen)
    requires Shape(s)
    ensures Kept(s, WrapLine(s))
  {
    hide Down;
    SetRowKeeps(s, s.row, SetWrap(s.rows[s.row]));
    DownKeeps(MoveCol(SetRow(s, s.row, SetWrap(s.rows[s.row])), 0));
  }

  /** `Emulator::print` of a narrow character. */
  function PrintChar(s: Screen, ch: char): Screen
    requires Shape(s)
  {
    var t := if s.pending then (WrapKeeps(s); WrapLine(s)) else s;
    var u := SetRow(t, t.row, Painted(t.rows[t.row], t.col, 1, Ink(ch, t.rendition)));
    u.(pending := t.col + 1 >= t.width, col := Clamp(t.col + 1, 0, t.width - 1))
  }

  /** `getparam`: an omitted parameter, or 0, stands for its default. */
  function Param(value: nat, default_: int): int {
    if value < 1 then default_ else value
  }

  /** `CSI_DECSTBM` */
  function Margins(s: Screen, first: int, last: int): Screen {
    if last <= first || first > s.height || (first == 0 && last == 1) then s
    else
      var top := if first - 1 < 0 then 0 else first - 1;
      var bottom := if last - 1 >= s.height then s.height - 1 else last - 1;
      MoveCol(MoveRow(s.(top := top, bottom := if bottom < top then top else bottom), 0), 0)
  }

  /** What the dispatcher does with one operation. Selecting a rendition and showing or hiding the cursor
      leave a pending wrap alone; the other functions cancel it first. */
  function Step(s: Screen, op: Op): Screen
    requires Shape(s)
  {
    match op
    case Print(ch) => PrintChar(s, ch)
    case CarriageReturn => MoveCol(s, 0)
    case LineFeed => Down(s.(pending := false))
    case Backspace => MoveCol(s, s.col - 1)
    case CursorTo(y, x) => MoveCol(MoveRow(s, Param(y, 1) - 1), Param(x, 1) - 1)
    case EraseToEnd => Erase(s.(pending := false), s.width)
    case EraseChars(n) => Erase(s.(pending := false), Param(n, 1))
    case EraseAll => s.(rows := BlankRows(s.height, s.width, s.rendition.background), pending := false)
    case SetRendition(r) => s.(rendition := r)
    case SetRegion(first, last) => Margins(s.(pending := false), Param(first, 1), Param(last, s.height))
    case ShowCursor(on) => s.(visible := on)
    case ClearLink => s.(pending := false)
  }

  lemma PaintedClean(row: seq<Cell>, from: nat, count: nat, cell: Cell)
    requires from + count <= |row|
    requires CleanCell(cell)
    ensures |Painted(row, from, count, cell)| == |row|
    ensures CleanRow(row) ==> CleanRow(Painted(row, from, count, cell))
  {
  }

  lemma EraseKeeps(s: Screen, count: nat)
    requires Shape(s)
    ensures Kept(s, Erase(s, count))
  {
    hide CleanRow, Painted;
    var n := if count < s.width - s.col then count else s.width - s.col;
    PaintedClean(s.rows[s.row], s.col, n, Reset(s.rendition.background));
    SetRowKeeps(s, s.row, Painted(s.rows[s.row], s.col, n, Reset(s.rendition.background)));
  }

  lemma PrintKeeps(s: Screen, ch: char)
    requires Shape(s)
    ensures Kept(s, PrintChar(s, ch))
  {
    hide CleanRow, Painted, WrapLine;
    if s.pending { WrapKeeps(s); }
    var t := if s.pending then WrapLine(s) else s;
    var cell := Ink(ch, t.rendition);
    PaintedClean(t.rows[t.row], t.col, 1, cell);
    SetRowKeeps(t, t.row, Painted(t.rows[t.row], t.col, 1, cell));
  }

  lemma EraseAllKeeps(s: Screen)
    requires Shape(s)
    ensures Kept(s, Step(s, EraseAll))
  {
    hide CleanRow, BlankRow;
    BlankLength(s.width, s.rendition.background);
  }

  /** Every operation keeps the screen well formed and its empty cells clean. */
  lemma StepKeeps(s: Screen, op: Op)
    requires Shape(s)
    ensures Kept(s, Step(s, op))
  {
    hide Clean, Grid, Down, Erase, PrintChar;
    match op
    case Print(ch) => PrintKeeps(s, ch);
    case LineFeed => DownKeeps(s.(pending := false));
    case EraseToEnd => EraseKeeps(s.(pending := false), s.width);
    case EraseChars(n) => EraseKeeps(s.(pending := false), Param(n, 1));
    case EraseAll => EraseAllKeeps(s);
    case _ =>
  }

  /** The screen after a list of operations. */
  ghost function Run(s: Screen, ops: seq<Op>): (t: Screen)
    requires Shape(s)
    ensures Kept(s, t)
  {
    if ops == [] then s
    else
      var before := Run(s, ops[..|ops| - 1]);
      StepKeeps(before, ops[|ops| - 1]);
      Step(before, ops[|ops| - 1])
  }

  // ---------------------------------------------------------------- resizing

  /** The last wrap bit is cleared; cells are cut off or blank ones added. */
  function ResizeRow(row: seq<Cell>, width: nat, background: nat): seq<Cell>
    requires |row| > 0
  {
    var unwrapped := row[|row| - 1 := row[|row| - 1].(wrap := false)];
    if width <= |row| then unwrapped[..width] else unwrapped + seq(width - |row|, _ => Reset(background))
  }

  /** The rows that stay, each of the new width. */
  function ResizeRows(rows: seq<seq<Cell>>, count: nat, width: nat, background: nat): seq<seq<Cell>>
    requires count <= |rows| && forall i | 0 <= i < count :: |rows[i]| > 0
  {
    seq(count, i requires 0 <= i < count => ResizeRow(rows[i], width, background))
  }

  /** A new size: the margins are reset if it differs, and the cursor is kept on the screen. */
  function Resize(s: Screen, width: nat, height: nat): Screen
    requires Shape(s) && 0 < width && 0 < height
  {
    var differs := width != s.width || height != s.height;
    var n := if height < s.height then height else s.height;
    var kept := if width == s.width then s.rows[..n] else ResizeRows(s.rows, n, width, s.rendition.background);
    s.(width := width, height := height,
       rows := kept + BlankRows(height - n, width, s.rendition.background),
       top := if differs then 0 else s.top, bottom := if differs then height - 1 else s.bottom,
       row := Clamp(s.row, 0, height - 1), col := Clamp(s.col, 0, width - 1))
  }

  lemma ResizeRowKeeps(row: seq<Cell>, width: nat, background: nat)
    requires |row| > 0
    ensures |ResizeRow(row, width, background)| == width
    ensures CleanRow(row) ==> CleanRow(ResizeRow(row, width, background))
  {
  }

  /** Resizing keeps the screen well formed and its empty cells clean. */
  lemma ResizeKeeps(s: Screen, width: nat, height: nat)
    requires Shape(s) && 0 < width && 0 < height
    ensures Shape(Resize(s, width, height)) && (Clean(s.rows) ==> Clean(Resize(s, width, height).rows))
  {
    hide CleanRow, ResizeRow, BlankRow;
    BlankLength(width, s.rendition.background);
    forall i | 0 <= i < s.height
      ensures |ResizeRow(s.rows[i], width, s.rendition.background)| == width
      ensures CleanRow(s.rows[i]) ==> CleanRow(ResizeRow(s.rows[i], width, s.rendition.background))
    {
      ResizeRowKeeps(s.rows[i], width, s.rendition.background);
    }
  }
}
