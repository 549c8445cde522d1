/** The whole emulator as functions: all its modes, tabs, the saved cursor, wide and combining characters, and every
    function that it dispatches. */
module Consoles {
  import opened Options
  import opened Terminal
  import opened Dispatching
  import opened Graphics
  import Utf8

  datatype Saved = Saved(col: int, row: int, rendition: Renditions, autowrap: bool, origin: bool)

  const NO_SAVE := Saved(0, 0, Plain(0), true, false)

  /** The screen, where a combining character goes, the tab stops, the saved cursor and the modes. */
  datatype Console = Console(
    screen: Screen,
    combCol: int, combRow: int,
    tabs: seq<bool>, defaultTabs: bool,
    save: Saved,
    origin: bool, autowrap: bool, insert: bool)

  /** What holds at all times: a well-formed screen, empty cells that are not wide, one tab slot for each column. */
  ghost predicate Wf(c: Console) {
    Shape(c.screen) && Clean(c.screen.rows) && |c.tabs| == c.screen.width
  }

  /** The modes in which frames are written. */
  predicate Normal(c: Console) {
    !c.origin && c.autowrap && !c.insert
  }

  function DefaultTabs(from: nat, to: nat): seq<bool>
    requires from <= to
  {
    seq(to - from, i => (from + i) % 8 == 0)
  }

  function BlankScreen(width: nat, height: nat): Screen {
    Screen(width, height, BlankRows(height, width, 0), 0, 0, false, 0, height - 1, Plain(0), true)
  }

  function Fresh(width: nat, height: nat): Console {
    Console(BlankScreen(width, height), 0, 0, DefaultTabs(0, width), true, NO_SAVE, false, true, false)
  }

  // ---------------------------------------------------------------- cursor

  function LimitTop(c: Console): int {
    if c.origin then c.screen.top else 0
  }

  function LimitBottom(c: Console): int {
    if c.origin then c.screen.bottom else c.screen.height - 1
  }

  function Snapped(c: Console): Console {
    var s := c.screen;
    c.(screen := s.(row := Clamp(s.row, LimitTop(c), LimitBottom(c)), col := Clamp(s.col, 0, s.width - 1)))
  }

  function NewGrapheme(c: Console): Console {
    c.(combCol := c.screen.col, combRow := c.screen.row)
  }

  function Settled(c: Console): Console {
    c.(screen := c.screen.(pending := false))
  }

  function ToRow(c: Console, n: int, relative: bool): Console {
    var row := if relative then c.screen.row + n else n + LimitTop(c);
    Settled(NewGrapheme(Snapped(c.(screen := c.screen.(row := row)))))
  }

  function ToCol(c: Console, n: int, relative: bool): Console {
    var col := if relative then c.screen.col + n else n;
    Settled(NewGrapheme(Snapped(c.(screen := c.screen.(col := col)))))
  }

  /** The move after a character: the character's place is where others may combine with it. */
  function Advance(c: Console, n: int): Console {
    var col := c.screen.col + n;
    Snapped(NewGrapheme(c).(screen := c.screen.(col := col, pending := col >= c.screen.width)))
  }

  function Home(c: Console): Console {
    ToCol(ToRow(c, 0, false), 0, false)
  }

  // ---------------------------------------------------------------- lines

  /** Rows `first` to `last` with the last `n` of them dropped and `n` copies of `blank` put in above. */
  function ScrollDown(rows: seq<seq<Cell>>, first: nat, last: int, n: nat, blank: seq<Cell>): seq<seq<Cell>>
    requires first + n <= last + 1 <= |rows|
  {
    rows[..first] + seq(n, _ => blank) + rows[first..last + 1 - n] + rows[last + 1..]
  }

  function InsertLines(s: Screen, before: int, count: nat): Screen
    requires Shape(s)
  {
    if before < s.top || before > s.bottom + 1 then s
    else
      var n := if count < s.bottom + 1 - before then count else s.bottom + 1 - before;
      s.(rows := ScrollDown(s.rows, before, s.bottom, n, BlankRow(s.width, s.rendition.background)))
  }

  function ScrollBy(s: Screen, n: int): Screen
    requires Shape(s)
  {
    if n >= 0 then DeleteLines(s, s.top, n) else InsertLines(s, s.top, -n)
  }

  /** `move_rows_autoscroll` */
  function Autoscroll(c: Console, n: int): Console
    requires Shape(c.screen)
  {
    var s := c.screen;
    if s.row < s.top || s.row > s.bottom then ToRow(c, n, true)
    else
      var over := if s.row + n > s.bottom then s.row + n - s.bottom
                  else if s.row + n < s.top then s.row + n - s.top
                  else 0;
      if over == 0 then ToRow(c, n, true)
      else ToRow(ToRow(c.(screen := ScrollBy(s, over)), -over, true), n, true)
  }

  // ---------------------------------------------------------------- cells

  /** The cells of row `y` from column `from` up to `to` are reset. */
  function ClearLine(s: Screen, y: int, from: nat, to: int): Screen
    requires Shape(s) && 0 <= y < s.height && from <= to + 1 <= s.width
  {
    SetRow(s, y, Painted(s.rows[y], from, to + 1 - from, Reset(s.rendition.background)))
  }

  /** Rows `from` to before `to` are reset. */
  function ClearRows(s: Screen, from: nat, to: nat): Screen
    requires from <= to <= |s.rows|
  {
    s.(rows := s.rows[..from] + BlankRows(to - from, s.width, s.rendition.background) + s.rows[to..])
  }

  function InsertCell(row: seq<Cell>, col: nat, background: nat): seq<Cell>
    requires col < |row|
  {
    row[..col] + [Reset(background)] + row[col..|row| - 1]
  }

  function DeleteCell(row: seq<Cell>, col: nat, background: nat): seq<Cell>
    requires col < |row|
  {
    row[..col] + row[col + 1..] + [Reset(background)]
  }

  function InsertCells(row: seq<Cell>, col: nat, n: nat, background: nat): (r: seq<Cell>)
    requires col < |row|
    ensures |r| == |row|
  {
    if n == 0 then row else InsertCell(InsertCells(row, col, n - 1, background), col, background)
  }

  function DeleteCells(row: seq<Cell>, col: nat, n: nat, background: nat): (r: seq<Cell>)
    requires col < |row|
    ensures |r| == |row|
  {
    if n == 0 then row else DeleteCell(DeleteCells(row, col, n - 1, background), col, background)
  }

  /** The cursor's row replaced. */
  function WithRow(s: Screen, row: seq<Cell>): Screen
    requires Shape(s)
  {
    SetRow(s, s.row, row)
  }

  function CursorRow(s: Screen): (row: seq<Cell>)
    requires Shape(s)
    ensures |row| == s.width
  {
    s.rows[s.row]
  }

  // ---------------------------------------------------------------- tabs

  /** The column of the `count`-th tab stop from `i` on, or -1. */
  function TabAfter(tabs: seq<bool>, i: int, count: int): int
    requires 0 <= i && 0 < count
    decreases |tabs| - i
  {
    if i >= |tabs| then -1
    else if tabs[i] then if count == 1 then i else TabAfter(tabs, i + 1, count - 1)
    else TabAfter(tabs, i + 1, count)
  }

  /** The column of the `count`-th tab stop from `i` back, or 0. */
  function TabBefore(tabs: seq<bool>, i: int, count: int): int
    requires i < |tabs| && 0 < count
    decreases i
  {
    if i <= 0 then 0
    else if tabs[i] then if count == 1 then i else TabBefore(tabs, i - 1, count - 1)
    else TabBefore(tabs, i - 1, count)
  }

  /** Tabulation keeps a pending wrap. */
  function Tab(c: Console, count: int): Console
    requires Wf(c) && count != 0
  {
    var found := if count >= 0 then TabAfter(c.tabs, c.screen.col + 1, count)
                 else TabBefore(c.tabs, c.screen.col - 1, -count);
    var d := ToCol(c, if found == -1 then c.screen.width - 1 else found, false);
    d.(screen := d.screen.(pending := c.screen.pending))
  }

  function ClearTabs(c: Console, which: int): Console
    requires Wf(c)
  {
    if which == 0 then c.(tabs := c.tabs[c.screen.col := false])
    else if which == 3 then c.(defaultTabs := false, tabs := seq(|c.tabs|, _ => false))
    else c
  }

  // ---------------------------------------------------------------- printing

  datatype CharWidth = Unprintable | Combining | Narrow | Wide

  function SizeOf(text: seq<char>): nat {
    if text == [] then 0 else SizeOf(text[..|text| - 1]) + |Utf8.Encode(text[|text| - 1] as int)|
  }

  function TextOf(contents: Contents): seq<char> {
    match contents
    case Empty => []
    case Glyph(ch) => [ch]
    case Cluster(text) => text
  }

  /** 32 bytes are the limit on combining characters. */
  predicate Full(contents: Contents) {
    SizeOf(TextOf(contents)) >= 32
  }

  function Appended(contents: Contents, ch: char): Contents {
    match contents
    case Empty => Glyph(ch)
    case Glyph(first) => Cluster([first, ch])
    case Cluster(text) => Cluster(text + [ch])
  }

  /** The line break before a character: for a pending wrap, or for a wide character in the last column. */
  function BreakLine(c: Console, wide: bool): Console
    requires Shape(c.screen)
  {
    var s := c.screen;
    if c.autowrap && s.pending then
      RowHeld(c, SetWrap(CursorRow(s)));
      Autoscroll(ToCol(c.(screen := WithRow(s, SetWrap(CursorRow(s)))), 0, false), 1)
    else if c.autowrap && wide && s.col == s.width - 1 then
      var row := CursorRow(s)[s.col := Reset(s.rendition.background)];
      RowHeld(c, row);
      Autoscroll(ToCol(c.(screen := WithRow(s, row)), 0, false), 1)
    else c
  }

  /** The row after a character is written into it at column `col`. */
  function PrintedRow(row: seq<Cell>, col: nat, ch: char, wide: bool, rendition: Renditions, insert: bool): seq<Cell>
    requires col < |row|
  {
    var cells := if wide then 2 else 1;
    Written(if insert then InsertCells(row, col, cells, rendition.background) else row, col, ch, wide, rendition)
  }

  /** A wide character also clears the cell that it overlaps. */
  function Written(row: seq<Cell>, col: nat, ch: char, wide: bool, rendition: Renditions): seq<Cell>
    requires col < |row|
  {
    var written := row[col := Cell(Glyph(ch), rendition, wide, false, false)];
    if wide && col + 1 < |row| then written[col + 1 := Reset(rendition.background)] else written
  }

  function PrintWide(c: Console, ch: char, wide: bool): Console
    requires Shape(c.screen)
  {
    BreakHeld(c, wide);
    var d := BreakLine(c, wide);
    var s := d.screen;
    var row := PrintedRow(CursorRow(s), s.col, ch, wide, s.rendition, d.insert);
    Advance(d.(screen := WithRow(s, row)), if wide then 2 else 1)
  }

  predicate CombinesOnScreen(c: Console) {
    0 <= c.combRow < c.screen.height && 0 <= c.combCol < c.screen.width
  }

  /** A combining character joins the cell before the cursor. An empty cell then stands for a no-break space, and the
      cursor moves on. */
  function Combine(c: Console, ch: char): Console
    requires Shape(c.screen) && Clean(c.screen.rows)
  {
    if !CombinesOnScreen(c) then c
    else
      var row := c.screen.rows[c.combRow];
      var cell := row[c.combCol];
      var joined := if Full(cell.contents) then cell else cell.(contents := Appended(cell.contents, ch));
      if cell.contents.Empty? then
        CombiningNotWide(c);
        assert !cell.wide;
        var d := Advance(c, 1);
        d.(screen := SetRow(d.screen, c.combRow, row[c.combCol := joined.(fallback := true)]))
      else c.(screen := SetRow(c.screen, c.combRow, row[c.combCol := joined]))
  }

  function Print(c: Console, ch: char, width: CharWidth): Console
    requires Shape(c.screen) && Clean(c.screen.rows)
  {
    match width
    case Unprintable => c
    case Combining => Combine(c, ch)
    case Narrow => PrintWide(c, ch, false)
    case Wide => PrintWide(c, ch, true)
  }

  // ---------------------------------------------------------------- modes

  function RegionTop(top: int): int {
    if top < 0 then 0 else top
  }

  function RegionBottom(top: int, bottom: int, height: int): int {
    var last := if bottom >= height then height - 1 else bottom;
    if last < RegionTop(top) then RegionTop(top) else last
  }

  function SetRegionOf(c: Console, top: int, bottom: int): Console {
    var d := c.(screen := c.screen.(top := RegionTop(top), bottom := RegionBottom(top, bottom, c.screen.height)));
    if c.origin then NewGrapheme(Snapped(d)) else d
  }

  function DecMode(c: Console, mode: int, on: bool): Console {
    match mode
    case 3 => var d := Home(c); d.(screen := ClearRows(d.screen, 0, |d.screen.rows|))
    case 6 => Home(c).(origin := on)
    case 7 => c.(autowrap := on)
    case 25 => c.(screen := c.screen.(visible := on))
    case _ => c
  }

  /** The private modes from parameter `i` on, one after the other. */
  function DecModes(c: Console, ps: seq<int>, i: nat, on: bool): Console
    decreases |ps| - i
  {
    if i >= |ps| then c else DecModes(DecMode(c, ParamAt(ps, i, 0), on), ps, i + 1, on)
  }

  function AnsiModes(c: Console, ps: seq<int>, i: nat, on: bool): Console
    decreases |ps| - i
  {
    if i >= |ps| then c
    else AnsiModes(if ParamAt(ps, i, 0) == 4 then c.(insert := on) else c, ps, i + 1, on)
  }

  function SaveCursor(c: Console): Console {
    c.(save := Saved(c.screen.col, c.screen.row, c.screen.rendition, c.autowrap, c.origin))
  }

  /** The saved cursor may be off a screen that has become smaller. */
  function RestoreCursor(c: Console): Console {
    var s := c.screen.(col := c.save.col, row := c.save.row, rendition := c.save.rendition);
    NewGrapheme(Snapped(c.(screen := s, autowrap := c.save.autowrap, origin := c.save.origin)))
  }

  function SoftReset(c: Console): Console {
    var s := c.screen.(visible := true);
    var d := SetRegionOf(c.(screen := s, insert := false, origin := false), 0, s.height - 1);
    d.(screen := d.screen.(rendition := Plain(0)), save := NO_SAVE)
  }

  // ---------------------------------------------------------------- functions

  datatype Function =
    | CarriageReturn | LineFeed | Backspace | ReverseIndex | NextLine | Bell
    | HorizontalTab | ForwardTabs | BackwardTabs | SetTab | ClearTab
    | Alignment | SaveState | RestoreState | FullReset | PartialReset
    | CursorUp | CursorDown | CursorForward | CursorBack | CursorPosition | RowPosition | ColumnPosition
    | EraseInLine | EraseInDisplay | EraseCharacters
    | InsertLine | DeleteLine | InsertCharacters | DeleteCharacters | ScrollForward | ScrollBackward
    | SetPrivateMode | ResetPrivateMode | SetMode | ResetMode | SetMargins | SelectRendition
    | Report

  function ControlFunction(ch: int): Option<Function>
    requires ch <= 255
  {
    if ch == 0x0A || ch == 0x0B || ch == 0x0C || ch == 0x84 then Some(Function.LineFeed)
    else if ch == 0x0D then Some(Function.CarriageReturn)
    else if ch == 0x08 then Some(Function.Backspace)
    else if ch == 0x07 then Some(Bell)
    else if ch == 0x09 then Some(HorizontalTab)
    else if ch == 0x85 then Some(NextLine)
    else if ch == 0x88 then Some(SetTab)
    else if ch == 0x8D then Some(ReverseIndex)
    else None
  }

  function EscapeFunction(key: seq<int>): Option<Function> {
    if key == ['#' as int, '8' as int] then Some(Alignment)
    else if key == ['7' as int] then Some(SaveState)
    else if key == ['8' as int] then Some(RestoreState)
    else if key == ['c' as int] then Some(FullReset)
    else None
  }

  /** Control sequences whose only dispatch character is the final one. */
  function FinalFunction(final: int): Option<Function>
    requires 0 <= final <= 255
  {
    match final as char
    case 'A' => Some(CursorUp)
    case 'B' => Some(CursorDown)
    case 'C' => Some(CursorForward)
    case 'D' => Some(CursorBack)
    case 'H' => Some(CursorPosition)
    case 'f' => Some(CursorPosition)
    case 'd' => Some(RowPosition)
    case 'G' => Some(ColumnPosition)
    case '`' => Some(ColumnPosition)
    case 'I' => Some(ForwardTabs)
    case 'Z' => Some(BackwardTabs)
    case 'g' => Some(ClearTab)
    case 'K' => Some(EraseInLine)
    case 'J' => Some(EraseInDisplay)
    case 'X' => Some(EraseCharacters)
    case 'L' => Some(InsertLine)
    case 'M' => Some(DeleteLine)
    case '@' => Some(InsertCharacters)
    case 'P' => Some(DeleteCharacters)
    case 'S' => Some(ScrollForward)
    case 'T' => Some(ScrollBackward)
    case 'h' => Some(SetMode)
    case 'l' => Some(ResetMode)
    case 'r' => Some(SetMargins)
    case 'm' => Some(SelectRendition)
    case 'c' => Some(Report)
    case 'n' => Some(Report)
    case _ => None
  }

  function CsiFunction(key: seq<int>): Option<Function> {
    if |key| == 1 && 0 <= key[0] <= 255 then FinalFunction(key[0])
    else if key == ['?' as int, 'h' as int] then Some(SetPrivateMode)
    else if key == ['?' as int, 'l' as int] then Some(ResetPrivateMode)
    else if key == ['!' as int, 'p' as int] then Some(PartialReset)
    else if key == ['>' as int, 'c' as int] then Some(Report)
    else None
  }

  predicate ClearsWrap(f: Function) {
    !(f.HorizontalTab? || f.ForwardTabs? || f.BackwardTabs? || f.ClearTab? || f.SetPrivateMode? || f.ResetPrivateMode?
      || f.SelectRendition?)
  }

  // ---------------------------------------------------------------- what functions do

  function EraseLinePart(c: Console, which: int): Console
    requires Shape(c.screen)
  {
    var s := c.screen;
    match which
    case 0 => c.(screen := ClearLine(s, s.row, s.col, s.width - 1))
    case 1 => c.(screen := ClearLine(s, s.row, 0, s.col))
    case 2 => c.(screen := ClearRows(s, s.row, s.row + 1))
    case _ => c
  }

  function EraseDisplayPart(c: Console, which: int): Console
    requires Shape(c.screen)
  {
    var s := c.screen;
    match which
    case 0 => c.(screen := ClearRows(ClearLine(s, s.row, s.col, s.width - 1), s.row + 1, s.height))
    case 1 =>
      ClearRowsHeld(s, 0, s.row);
      c.(screen := ClearLine(ClearRows(s, 0, s.row), s.row, 0, s.col))
    case 2 => c.(screen := ClearRows(s, 0, s.height))
    case _ => c
  }

  function EraseForward(c: Console, num: nat): Console
    requires Shape(c.screen) && 0 < num
  {
    var s := c.screen;
    var limit := s.col + num - 1;
    c.(screen := ClearLine(s, s.row, s.col, if limit >= s.width then s.width - 1 else limit))
  }

  function NextLineOf(c: Console): Console
    requires Shape(c.screen)
  {
    ToColHeld(c, 0, false);
    Autoscroll(ToCol(c, 0, false), 1)
  }

  function InsertLinesAt(c: Console, n: nat): Console
    requires Shape(c.screen)
  {
    ToCol(c.(screen := InsertLines(c.screen, c.screen.row, n)), 0, false)
  }

  function DeleteLinesAt(c: Console, n: nat): Console
    requires Shape(c.screen)
  {
    ToCol(c.(screen := DeleteLines(c.screen, c.screen.row, n)), 0, false)
  }

  function InsertCellsAt(c: Console, n: nat): Console
    requires Shape(c.screen)
  {
    var s := c.screen;
    c.(screen := WithRow(s, InsertCells(CursorRow(s), s.col, n, s.rendition.background)))
  }

  function DeleteCellsAt(c: Console, n: nat): Console
    requires Shape(c.screen)
  {
    var s := c.screen;
    c.(screen := WithRow(s, DeleteCells(CursorRow(s), s.col, n, s.rendition.background)))
  }

  /** The screen alignment pattern. */
  function Aligned(c: Console): Console {
    var cell := Cell(Glyph('E'), Plain(c.screen.rendition.background), false, false, false);
    c.(screen := c.screen.(rows := seq(c.screen.height, _ => seq(c.screen.width, _ => cell))))
  }

  function MarginsOf(c: Console, top: int, bottom: int): Console {
    if bottom <= top || top > c.screen.height || (top == 0 && bottom == 1) then c
    else Home(SetRegionOf(c, top - 1, bottom - 1))
  }

  predicate IsMotion(f: Function) {
    f.CarriageReturn? || f.LineFeed? || f.Backspace? || f.ReverseIndex? || f.NextLine? || f.HorizontalTab? || f.ForwardTabs?
    || f.BackwardTabs? || f.CursorUp? || f.CursorDown? || f.CursorForward? || f.CursorBack? || f.CursorPosition?
    || f.RowPosition? || f.ColumnPosition?
  }

  predicate IsEdit(f: Function) {
    f.Alignment? || f.EraseInLine? || f.EraseInDisplay? || f.EraseCharacters? || f.InsertLine? || f.DeleteLine?
    || f.InsertCharacters? || f.DeleteCharacters? || f.ScrollForward? || f.ScrollBackward?
  }

  function Motion(f: Function, c: Console, ps: seq<int>): Console
    requires Wf(c)
  {
    var n: int := Positive(ps, 0, 1);
    match f
    case CarriageReturn => ToCol(c, 0, false)
    case LineFeed => Autoscroll(c, 1)
    case Backspace => ToCol(c, -1, true)
    case ReverseIndex => Autoscroll(c, -1)
    case NextLine => NextLineOf(c)
    case HorizontalTab => Tab(c, 1)
    case ForwardTabs => Tab(c, n)
    case BackwardTabs => Tab(c, -n)
    case CursorUp => ToRow(c, -n, true)
    case CursorDown => ToRow(c, n, true)
    case CursorForward => ToCol(c, n, true)
    case CursorBack => ToCol(c, -n, true)
    case CursorPosition => ToCol(ToRow(c, n - 1, false), ParamAt(ps, 1, 1) - 1, false)
    case RowPosition => ToRow(c, n - 1, false)
    case ColumnPosition => ToCol(c, n - 1, false)
    case _ => c
  }

  function Edit(f: Function, c: Console, ps: seq<int>): Console
    requires Wf(c)
  {
    var n: int := Positive(ps, 0, 1);
    match f
    case Alignment => Aligned(c)
    case EraseInLine => EraseLinePart(c, ParamAt(ps, 0, 0))
    case EraseInDisplay => EraseDisplayPart(c, ParamAt(ps, 0, 0))
    case EraseCharacters => EraseForward(c, n)
    case InsertLine => InsertLinesAt(c, n)
    case DeleteLine => DeleteLinesAt(c, n)
    case InsertCharacters => InsertCellsAt(c, n)
    case DeleteCharacters => DeleteCellsAt(c, n)
    case ScrollForward => c.(screen := ScrollBy(c.screen, n))
    case ScrollBackward => c.(screen := ScrollBy(c.screen, -n))
    case _ => c
  }

  /** Tab stops, modes, the saved cursor, margins and renditions. Reports, the bell and modes of the keyboard and the
      mouse do not touch what is modelled here. */
  function Setting(f: Function, c: Console, ps: seq<int>): Console
    requires Wf(c)
  {
    match f
    case SetTab => c.(tabs := c.tabs[c.screen.col := true])
    case ClearTab => ClearTabs(c, ParamAt(ps, 0, 0))
    case SaveState => SaveCursor(c)
    case RestoreState => RestoreCursor(c)
    case FullReset => Fresh(c.screen.width, c.screen.height)
    case PartialReset => SoftReset(c)
    case SetPrivateMode => DecModes(c, ps, 0, true)
    case ResetPrivateMode => DecModes(c, ps, 0, false)
    case SetMode => AnsiModes(c, ps, 0, true)
    case ResetMode => AnsiModes(c, ps, 0, false)
    case SetMargins => MarginsOf(c, Positive(ps, 0, 1), ParamAt(ps, 1, c.screen.height))
    case SelectRendition => c.(screen := c.screen.(rendition := Select(ps, 0, c.screen.rendition)))
    case _ => c
  }

  /** The effect of a function with its parameters. */
  function Perform(f: Function, c: Console, ps: seq<int>): Console
    requires Wf(c)
  {
    if IsMotion(f) then Motion(f, c, ps) else if IsEdit(f) then Edit(f, c, ps) else Setting(f, c, ps)
  }

  function Positive(ps: seq<int>, n: nat, default_: nat): (value: nat)
    ensures 0 < default_ ==> 0 < value
  {
    ParamAt(ps, n, default_)
  }

  /** What the dispatcher does: an unknown function only cancels a pending wrap. */
  function Dispatched(f: Option<Function>, c: Console, ps: seq<int>): Console
    requires Wf(c)
  {
    if f.None? then Settled(c)
    else Perform(f.value, if ClearsWrap(f.value) then Settled(c) else c, ps)
  }

  // ---------------------------------------------------------------- what every function keeps

  /** Size, shape and tab slots stay, and so does cleanness. */
  ghost predicate Held(c: Console, d: Console) {
    Kept(c.screen, d.screen) && |d.tabs| == |c.tabs|
  }

  lemma ToRowHeld(c: Console, n: int, relative: bool)
    requires Shape(c.screen)
    ensures Held(c, ToRow(c, n, relative))
  {
    hide Grid, Clean;
  }

  lemma ToColHeld(c: Console, n: int, relative: bool)
    requires Shape(c.screen)
    ensures Held(c, ToCol(c, n, relative))
  {
    hide Grid, Clean;
  }

  lemma AdvanceHeld(c: Console, n: int)
    requires Shape(c.screen)
    ensures Held(c, Advance(c, n))
  {
    hide Grid, Clean;
  }

  /** Putting a clean row into the cursor's place, and moving. */
  lemma RowHeld(c: Console, row: seq<Cell>)
    requires Shape(c.screen) && |row| == c.screen.width
    ensures Shape(ToCol(c.(screen := WithRow(c.screen, row)), 0, false).screen)
    ensures (Clean(c.screen.rows) ==> CleanRow(row)) ==> Held(c, ToCol(c.(screen := WithRow(c.screen, row)), 0, false))
  {
    hide CleanRow;
  }

  lemma ClearRowsHeld(s: Screen, from: nat, to: nat)
    requires Shape(s) && from <= to <= s.height
    ensures Kept(s, ClearRows(s, from, to))
  {
    hide CleanRow, BlankRow;
    BlankLength(s.width, s.rendition.background);
  }

  lemma ClearLineHeld(s: Screen, y: int, from: nat, to: int)
    requires Shape(s) && 0 <= y < s.height && from <= to + 1 <= s.width
    ensures Kept(s, ClearLine(s, y, from, to))
  {
    hide CleanRow, Painted;
    PaintedClean(s.rows[y], from, to + 1 - from, Reset(s.rendition.background));
    SetRowKeeps(s, y, Painted(s.rows[y], from, to + 1 - from, Reset(s.rendition.background)));
  }

  lemma ScrollDownKeeps(rows: seq<seq<Cell>>, first: nat, last: int, n: nat, blank: seq<Cell>, width: nat, height: nat)
    requires Grid(rows, width, height) && first + n <= last + 1 <= height
    requires |blank| == width && CleanRow(blank)
    ensures Grid(ScrollDown(rows, first, last, n, blank), width, height)
    ensures Clean(rows) ==> Clean(ScrollDown(rows, first, last, n, blank))
  {
    hide CleanRow;
  }

  lemma ScrollByHeld(s: Screen, row: int, n: nat)
    requires Shape(s)
    ensures Kept(s, InsertLines(s, row, n)) && Kept(s, DeleteLines(s, row, n))
  {
    hide Clean, ScrollUp, ScrollDown, BlankRow;
    var blank := BlankRow(s.width, s.rendition.background);
    BlankLength(s.width, s.rendition.background);
    if s.top <= row <= s.bottom + 1 {
      var k := if n < s.bottom + 1 - row then n else s.bottom + 1 - row;
      ScrollDownKeeps(s.rows, row, s.bottom, k, blank, s.width, s.height);
      ScrollUpKeeps(s.rows, row, s.bottom, k, blank, s.width, s.height);
    }
  }

  lemma AutoscrollHeld(c: Console, n: int)
    requires Shape(c.screen)
    ensures Held(c, Autoscroll(c, n))
  {
    hide Clean, Grid, ToRow, InsertLines, DeleteLines;
    var s := c.screen;
    ToRowHeld(c, n, true);
    var over := if s.row + n > s.bottom then s.row + n - s.bottom
                else if s.row + n < s.top then s.row + n - s.top
                else 0;
    ScrollByHeld(s, s.top, if over < 0 then -over else over);
    var d := c.(screen := ScrollBy(s, over));
    ToRowHeld(d, -over, true);
    ToRowHeld(ToRow(d, -over, true), n, true);
  }

  lemma BreakHeld(c: Console, wide: bool)
    requires Shape(c.screen)
    ensures Held(c, BreakLine(c, wide))
  {
    hide Grid, ToCol, Autoscroll, WithRow, CleanCell;
    var s := c.screen;
    var wrapped := SetWrap(CursorRow(s));
    var cleared := CursorRow(s)[s.col := Reset(s.rendition.background)];
    BrokenClean(s);
    RowHeld(c, wrapped);
    RowHeld(c, cleared);
    AutoscrollHeld(ToCol(c.(screen := WithRow(s, wrapped)), 0, false), 1);
    AutoscrollHeld(ToCol(c.(screen := WithRow(s, cleared)), 0, false), 1);
  }

  lemma BrokenClean(s: Screen)
    requires Shape(s)
    ensures Clean(s.rows) ==> CleanRow(SetWrap(CursorRow(s)))
    ensures Clean(s.rows) ==> CleanRow(CursorRow(s)[s.col := Reset(s.rendition.background)])
  {
    assert CursorRow(s) == s.rows[s.row];
  }

  lemma {:induction false} InsertCellsClean(row: seq<Cell>, col: nat, n: nat, background: nat)
    requires col < |row|
    ensures CleanRow(row) ==> CleanRow(InsertCells(row, col, n, background))
  {
    if n > 0 { InsertCellsClean(row, col, n - 1, background); }
  }

  lemma {:induction false} DeleteCellsClean(row: seq<Cell>, col: nat, n: nat, background: nat)
    requires col < |row|
    ensures CleanRow(row) ==> CleanRow(DeleteCells(row, col, n, background))
  {
    if n > 0 { DeleteCellsClean(row, col, n - 1, background); }
  }

  lemma PrintedClean(row: seq<Cell>, col: nat, ch: char, wide: bool, rendition: Renditions, insert: bool)
    requires col < |row|
    ensures |PrintedRow(row, col, ch, wide, rendition, insert)| == |row|
    ensures CleanRow(row) ==> CleanRow(PrintedRow(row, col, ch, wide, rendition, insert))
  {
    InsertCellsClean(row, col, if wide then 2 else 1, rendition.background);
  }

  lemma WithRowHeld(s: Screen, row: seq<Cell>)
    requires Shape(s) && |row| == s.width && (CleanRow(CursorRow(s)) ==> CleanRow(row))
    ensures Kept(s, WithRow(s, row))
  {
    hide CleanRow;
    SetRowKeeps(s, s.row, row);
  }

  lemma PrintWideHeld(c: Console, ch: char, wide: bool)
    requires Shape(c.screen)
    ensures Held(c, PrintWide(c, ch, wide))
  {
    hide Grid, Clean, BreakLine, PrintedRow, Advance, WithRow, CleanRow;
    BreakHeld(c, wide);
    var d := BreakLine(c, wide);
    var s := d.screen;
    PrintedClean(CursorRow(s), s.col, ch, wide, s.rendition, d.insert);
    var row := PrintedRow(CursorRow(s), s.col, ch, wide, s.rendition, d.insert);
    WithRowHeld(s, row);
    AdvanceHeld(d.(screen := WithRow(s, row)), if wide then 2 else 1);
  }

  /** The assertion of `print`: an empty cell that a character is to join is not wide. */
  lemma CombiningNotWide(c: Console)
    requires Shape(c.screen) && Clean(c.screen.rows) && CombinesOnScreen(c)
    ensures var cell := c.screen.rows[c.combRow][c.combCol]; cell.contents.Empty? ==> !cell.wide
  {
    assert CleanRow(c.screen.rows[c.combRow]);
  }

  lemma CombineHeld(c: Console, ch: char)
    requires Shape(c.screen) && Clean(c.screen.rows)
    ensures Held(c, Combine(c, ch))
  {
    hide Advance, Full, CleanRow, Clean;
    AdvanceHeld(c, 1);
    CleanRowAt(c.screen, c.combRow);
    if CombinesOnScreen(c) {
      var row := c.screen.rows[c.combRow];
      var cell := row[c.combCol];
      var joined := if Full(cell.contents) then cell else cell.(contents := Appended(cell.contents, ch));
      EmptyNotFull();
      var new_ := if cell.contents.Empty? then joined.(fallback := true) else joined;
      var d := if cell.contents.Empty? then Advance(c, 1) else c;
      AdvanceRows(c, 1);
      JoinedClean(row, c.combCol, new_);
      SetRowKeeps(d.screen, c.combRow, row[c.combCol := new_]);
    }
  }

  lemma CleanRowAt(s: Screen, y: int)
    ensures Clean(s.rows) && 0 <= y < |s.rows| ==> CleanRow(s.rows[y])
  {
  }

  lemma EmptyNotFull()
    ensures !Full(Empty)
  {
  }

  lemma AdvanceRows(c: Console, n: int)
    ensures Advance(c, n).screen.rows == c.screen.rows
  {
  }

  lemma JoinedClean(row: seq<Cell>, x: nat, cell: Cell)
    requires x < |row| && !cell.contents.Empty?
    ensures CleanRow(row) ==> CleanRow(row[x := cell])
  {
  }

  lemma PrintHeld(c: Console, ch: char, width: CharWidth)
    requires Shape(c.screen) && Clean(c.screen.rows)
    ensures Held(c, Print(c, ch, width))
  {
    hide Clean, Grid, Combine, PrintWide;
    match width
    case Unprintable =>
    case Combining => CombineHeld(c, ch);
    case Narrow => PrintWideHeld(c, ch, false);
    case Wide => PrintWideHeld(c, ch, true);
  }

  lemma HomeHeld(c: Console)
    requires Shape(c.screen)
    ensures Held(c, Home(c))
  {
    hide Clean, Grid, ToRow, ToCol;
    ToRowHeld(c, 0, false);
    ToColHeld(ToRow(c, 0, false), 0, false);
  }

  lemma DecModeHeld(c: Console, mode: int, on: bool)
    requires Shape(c.screen)
    ensures Held(c, DecMode(c, mode, on))
  {
    hide Clean, Grid, Home, ClearRows;
    if mode == 3 {
      HomeHeld(c);
      ClearRowsHeld(Home(c).screen, 0, c.screen.height);
    } else if mode == 6 {
      HomeHeld(c);
    }
  }

  lemma {:induction false} DecModesHeld(c: Console, ps: seq<int>, i: nat, on: bool)
    requires Shape(c.screen)
    ensures Held(c, DecModes(c, ps, i, on))
    decreases |ps| - i
  {
    hide Clean, Grid, DecMode;
    if i < |ps| {
      DecModeHeld(c, ParamAt(ps, i, 0), on);
      DecModesHeld(DecMode(c, ParamAt(ps, i, 0), on), ps, i + 1, on);
    }
  }

  lemma {:induction false} AnsiModesHeld(c: Console, ps: seq<int>, i: nat, on: bool)
    requires Shape(c.screen)
    ensures Held(c, AnsiModes(c, ps, i, on))
    decreases |ps| - i
  {
    hide Clean, Grid;
    if i < |ps| { AnsiModesHeld(if ParamAt(ps, i, 0) == 4 then c.(insert := on) else c, ps, i + 1, on); }
  }

  lemma RegionHeld(c: Console, top: int, bottom: int)
    requires Shape(c.screen) && top < c.screen.height
    ensures Held(c, SetRegionOf(c, top, bottom))
  {
    hide Clean, Grid;
  }

  lemma MarginsHeld(c: Console, top: int, bottom: int)
    requires Shape(c.screen)
    ensures Held(c, MarginsOf(c, top, bottom))
  {
    hide Clean, Grid, Home, SetRegionOf;
    if top <= c.screen.height {
      RegionHeld(c, top - 1, bottom - 1);
      HomeHeld(SetRegionOf(c, top - 1, bottom - 1));
    }
  }

  lemma RestoreHeld(c: Console)
    requires Shape(c.screen)
    ensures Held(c, RestoreCursor(c)) && Held(c, SaveCursor(c)) && Held(c, SoftReset(c))
  {
    hide Clean, Grid, SetRegionOf;
    RegionHeld(c.(screen := c.screen.(visible := true), insert := false, origin := false), 0, c.screen.height - 1);
  }

  lemma TabHeld(c: Console, count: int)
    requires Wf(c) && count != 0
    ensures Held(c, Tab(c, count))
  {
    hide Clean, Grid, ToCol, TabAfter, TabBefore;
    var found := if count >= 0 then TabAfter(c.tabs, c.screen.col + 1, count)
                 else TabBefore(c.tabs, c.screen.col - 1, -count);
    ToColHeld(c, if found == -1 then c.screen.width - 1 else found, false);
  }

  lemma EraseHeld(c: Console, which: int, num: nat)
    requires Shape(c.screen) && 0 < num
    ensures Held(c, EraseLinePart(c, which)) && Held(c, EraseForward(c, num))
  {
    hide Clean, Grid, ClearLine, ClearRows;
    var s := c.screen;
    ClearLineHeld(s, s.row, s.col, s.width - 1);
    ClearLineHeld(s, s.row, 0, s.col);
    ClearRowsHeld(s, s.row, s.row + 1);
    var limit := s.col + num - 1;
    ClearLineHeld(s, s.row, s.col, if limit >= s.width then s.width - 1 else limit);
  }

  lemma EraseDisplayHeld(c: Console, which: int)
    requires Shape(c.screen)
    ensures Held(c, EraseDisplayPart(c, which))
  {
    hide Clean, Grid, ClearLine, ClearRows;
    var s := c.screen;
    if which == 0 {
      ClearLineHeld(s, s.row, s.col, s.width - 1);
      ClearRowsHeld(ClearLine(s, s.row, s.col, s.width - 1), s.row + 1, s.height);
    } else if which == 1 {
      ClearRowsHeld(s, 0, s.row);
      ClearRowsSame(s, 0, s.row);
      ClearLineHeld(ClearRows(s, 0, s.row), s.row, 0, s.col);
    } else {
      ClearRowsHeld(s, 0, s.height);
    }
  }

  lemma ClearRowsSame(s: Screen, from: nat, to: nat)
    requires from <= to <= |s.rows|
    ensures ClearRows(s, from, to) == s.(rows := ClearRows(s, from, to).rows)
  {
  }

  lemma EditHeld(c: Console, n: nat)
    requires Shape(c.screen)
    ensures Held(c, InsertLinesAt(c, n)) && Held(c, DeleteLinesAt(c, n))
    ensures Held(c, InsertCellsAt(c, n)) && Held(c, DeleteCellsAt(c, n))
  {
    hide Clean, Grid, InsertLines, DeleteLines, ToCol, InsertCells, DeleteCells, WithRow, CleanRow;
    var s := c.screen;
    ScrollByHeld(s, s.row, n);
    ToColHeld(c.(screen := InsertLines(s, s.row, n)), 0, false);
    ToColHeld(c.(screen := DeleteLines(s, s.row, n)), 0, false);
    InsertCellsClean(CursorRow(s), s.col, n, s.rendition.background);
    DeleteCellsClean(CursorRow(s), s.col, n, s.rendition.background);
    WithRowHeld(s, InsertCells(CursorRow(s), s.col, n, s.rendition.background));
    WithRowHeld(s, DeleteCells(CursorRow(s), s.col, n, s.rendition.background));
  }

  lemma AlignedHeld(c: Console)
    requires Shape(c.screen)
    ensures Held(c, Aligned(c))
  {
  }

  lemma FreshWf(width: nat, height: nat)
    requires 0 < width && 0 < height
    ensures Wf(Fresh(width, height))
  {
    hide CleanRow, BlankRow;
    BlankLength(width, 0);
  }

  lemma MotionHeld(f: Function, c: Console, ps: seq<int>)
    requires Wf(c)
    ensures Held(c, Motion(f, c, ps))
  {
    hide Clean, Grid, ToRow, ToCol, Autoscroll, Tab, NextLineOf, ParamAt, Held, Shape;
    var n: int := Positive(ps, 0, 1);
    match f
    case CarriageReturn => ToColHeld(c, 0, false);
    case LineFeed => AutoscrollHeld(c, 1);
    case Backspace => ToColHeld(c, -1, true);
    case ReverseIndex => AutoscrollHeld(c, -1);
    case NextLine => NextLineHeld(c);
    case HorizontalTab => TabHeld(c, 1);
    case ForwardTabs => TabHeld(c, n);
    case BackwardTabs => TabHeld(c, -n);
    case CursorUp => ToRowHeld(c, -n, true);
    case CursorDown => ToRowHeld(c, n, true);
    case CursorForward => ToColHeld(c, n, true);
    case CursorBack => ToColHeld(c, -n, true);
    case CursorPosition => PositionHeld(c, n - 1, ParamAt(ps, 1, 1) - 1);
    case RowPosition => ToRowHeld(c, n - 1, false);
    case ColumnPosition => ToColHeld(c, n - 1, false);
    case _ => SameHeld(c, c.screen.rendition);
  }

  lemma EditingHeld(f: Function, c: Console, ps: seq<int>)
    requires Wf(c)
    ensures Held(c, Edit(f, c, ps))
  {
    hide Clean, Grid, EraseLinePart, EraseDisplayPart, EraseForward, InsertLinesAt, DeleteLinesAt, InsertCellsAt,
      DeleteCellsAt, Aligned, ScrollBy, ParamAt, Held, Shape;
    var n: int := Positive(ps, 0, 1);
    match f
    case Alignment => AlignedHeld(c);
    case EraseInLine => EraseHeld(c, ParamAt(ps, 0, 0), 1);
    case EraseInDisplay => EraseDisplayHeld(c, ParamAt(ps, 0, 0));
    case EraseCharacters => EraseHeld(c, 0, n);
    case InsertLine => EditHeld(c, n);
    case DeleteLine => EditHeld(c, n);
    case InsertCharacters => EditHeld(c, n);
    case DeleteCharacters => EditHeld(c, n);
    case ScrollForward => ScrolledHeld(c, n);
    case ScrollBackward => ScrolledHeld(c, -n);
    case _ => SameHeld(c, c.screen.rendition);
  }

  lemma SettingHeld(f: Function, c: Console, ps: seq<int>)
    requires Wf(c)
    ensures Held(c, Setting(f, c, ps))
  {
    hide Clean, Grid, RestoreCursor, SoftReset, DecModes, AnsiModes, MarginsOf, Select, Fresh, ParamAt, ClearTabs, SaveCursor,
      Held, Shape;
    match f
    case SetTab => TabsHeld(c, 0);
    case ClearTab => TabsHeld(c, ParamAt(ps, 0, 0));
    case SaveState => RestoreHeld(c);
    case RestoreState => RestoreHeld(c);
    case FullReset => FreshHeld(c);
    case PartialReset => RestoreHeld(c);
    case SetPrivateMode => DecModesHeld(c, ps, 0, true);
    case ResetPrivateMode => DecModesHeld(c, ps, 0, false);
    case SetMode => AnsiModesHeld(c, ps, 0, true);
    case ResetMode => AnsiModesHeld(c, ps, 0, false);
    case SetMargins => MarginsHeld(c, Positive(ps, 0, 1), ParamAt(ps, 1, c.screen.height));
    case SelectRendition => SameHeld(c, Select(ps, 0, c.screen.rendition));
    case _ => SameHeld(c, c.screen.rendition);
  }

  /** Every function keeps size, shape, tab slots and cleanness. */
  lemma PerformHeld(f: Function, c: Console, ps: seq<int>)
    requires Wf(c)
    ensures Held(c, Perform(f, c, ps))
  {
    hide Wf, Held, Motion, Edit, Setting;
    MotionHeld(f, c, ps);
    EditingHeld(f, c, ps);
    SettingHeld(f, c, ps);
  }

  lemma PositionHeld(c: Console, row: int, col: int)
    requires Shape(c.screen)
    ensures Held(c, ToCol(ToRow(c, row, false), col, false))
  {
    hide Clean, Grid, ToRow, ToCol;
    ToRowHeld(c, row, false);
    ToColHeld(ToRow(c, row, false), col, false);
  }

  lemma ScrolledHeld(c: Console, n: int)
    requires Shape(c.screen)
    ensures Held(c, c.(screen := ScrollBy(c.screen, n)))
  {
    hide Clean, Grid, InsertLines, DeleteLines;
    ScrollByHeld(c.screen, c.screen.top, if n < 0 then -n else n);
  }

  lemma TabsHeld(c: Console, which: int)
    requires Wf(c)
    ensures Held(c, ClearTabs(c, which)) && Held(c, c.(tabs := c.tabs[c.screen.col := true]))
  {
    hide Clean, Grid;
  }

  lemma SameHeld(c: Console, rendition: Renditions)
    requires Wf(c)
    ensures Held(c, c) && Held(c, c.(screen := c.screen.(rendition := rendition)))
  {
    hide Clean, Grid;
  }

  lemma NextLineHeld(c: Console)
    requires Shape(c.screen)
    ensures Held(c, NextLineOf(c))
  {
    hide Clean, Grid, ToCol, Autoscroll;
    ToColHeld(c, 0, false);
    AutoscrollHeld(ToCol(c, 0, false), 1);
  }

  lemma FreshHeld(c: Console)
    requires Wf(c)
    ensures Held(c, Fresh(c.screen.width, c.screen.height))
  {
    hide Clean, Grid, BlankRows;
    FreshWf(c.screen.width, c.screen.height);
  }

  lemma DispatchedHeld(f: Option<Function>, c: Console, ps: seq<int>)
    requires Wf(c)
    ensures Held(c, Dispatched(f, c, ps))
  {
    hide Clean, Grid, Perform;
    if f.Some? { PerformHeld(f.value, if ClearsWrap(f.value) then Settled(c) else c, ps); }
  }

  lemma HeldWf(c: Console, d: Console)
    requires Wf(c) && Held(c, d)
    ensures Wf(d)
  {
    hide Clean, Grid;
  }

  // ---------------------------------------------------------------- resizing

  /** New columns get no tab stop, or one in every eight while the default stops are in use. */
  function ResizeTabs(tabs: seq<bool>, defaultTabs: bool, width: nat): (t: seq<bool>)
    ensures |t| == width
  {
    if width <= |tabs| then tabs[..width]
    else tabs + if defaultTabs then DefaultTabs(|tabs|, width) else seq(width - |tabs|, _ => false)
  }

  /** The new size with its margins and tab slots; the rows are still the old ones. */
  function Sized(c: Console, width: nat, height: nat): Console
    requires 0 < width && 0 < height
  {
    var differs := width != c.screen.width || height != c.screen.height;
    var s := c.screen.(width := width, height := height, top := if differs then 0 else c.screen.top,
                       bottom := if differs then height - 1 else c.screen.bottom);
    c.(screen := s, tabs := ResizeTabs(c.tabs, c.defaultTabs, width))
  }

  /** A combining character's place that is off the screen is forgotten. */
  function Forgotten(c: Console): Console {
    if c.combCol >= c.screen.width || c.combRow >= c.screen.height then c.(combCol := -1, combRow := -1) else c
  }

  function ResizedState(c: Console, width: nat, height: nat): Console
    requires 0 < width && 0 < height
  {
    Forgotten(Snapped(Sized(c, width, height)))
  }

  function Resized(c: Console, width: nat, height: nat): Console
    requires Wf(c) && 0 < width && 0 < height
  {
    var d := ResizedState(c, width, height);
    d.(screen := d.screen.(rows := Resize(c.screen, width, height).rows))
  }

  lemma ResizedWf(c: Console, width: nat, height: nat)
    requires Wf(c) && 0 < width && 0 < height
    ensures Wf(Resized(c, width, height))
  {
    hide Clean, Grid, ResizeRows, BlankRows;
    ResizeKeeps(c.screen, width, height);
  }
}
