/** What the control sequences for editing do, told cell by cell and from the characters that are read. The machine may be
    in any state of its parser and in any modes. */
module SequenceLaws {
  import opened Options
  import opened Terminal
  import opened Dispatching
  import opened Machines
  import opened Interpreter
  import opened Consoles
  import opened ConsoleLaws
  import opened ParserLaws

  // ---------------------------------------------------------------- reading

  /** A control sequence with one number. */
  function Csi(n: nat, final: char): seq<int> {
    Sequence(Joined([n]), final)
  }

  /** What is on the screen after reading. */
  ghost function Shown(w: Widths, m: Machine, text: seq<int>): Console
    requires Wf(m.console)
  {
    ReadAll(w, m, text).console
  }

  lemma ReadKey(w: Widths, m: Machine, body: seq<int>, final: char)
    requires Wf(m.console) && AllParams(body) && 0x40 <= final as int <= 0x7E
    ensures Shown(w, m, Sequence(body, final)) == Dispatched(CsiFunction([final as int]), m.console, Parse(body))
    ensures ReadAll(w, m, Sequence(body, final)).state.Ground? && Wf(Shown(w, m, Sequence(body, final)))
  {
    hide Wf, Read, ReadAll, CsiFunction, Dispatched, Parse;
    ReadControlSequence(w, m, [], body, [], final as int);
    assert [0x1B, '[' as int] + [] + body + [] + [final as int] == Sequence(body, final);
    assert [] + [] + [final as int] == [final as int];
  }

  /** A control sequence with numbers is dispatched with them. */
  lemma ReadValues(w: Widths, m: Machine, ps: seq<nat>, final: char)
    requires Wf(m.console) && 0x40 <= final as int <= 0x7E && 0 < |ps| <= 16 && forall i | 0 <= i < |ps| :: ps[i] <= PARAM_MAX
    ensures Shown(w, m, Sequence(Joined(ps), final)) == Dispatched(CsiFunction([final as int]), m.console, ps)
    ensures Wf(Shown(w, m, Sequence(Joined(ps), final)))
  {
    hide Wf, Read, ReadAll, CsiFunction, Dispatched, Parse, Joined, Sequence, Tens;
    FiveDigits();
    JoinedLength(ps, 5);
    JoinedChars(ps);
    ParseJoined(ps);
    ReadKey(w, m, Joined(ps), final);
  }

  lemma ReadCsi(w: Widths, m: Machine, n: nat, final: char)
    requires Wf(m.console) && 0x40 <= final as int <= 0x7E && n <= PARAM_MAX
    ensures Shown(w, m, Csi(n, final)) == Dispatched(CsiFunction([final as int]), m.console, [n])
    ensures Wf(Shown(w, m, Csi(n, final)))
  {
    hide Wf, Shown, CsiFunction, Dispatched, Parse, Joined, Sequence;
    ReadValues(w, m, [n], final);
  }

  /** Without a number it is dispatched with a missing one. */
  lemma ReadBareKey(w: Widths, m: Machine, final: char)
    requires Wf(m.console) && 0x40 <= final as int <= 0x7E
    ensures Shown(w, m, Sequence([], final)) == Dispatched(CsiFunction([final as int]), m.console, [-1])
  {
    hide Wf, Shown, CsiFunction, Dispatched, Parse;
    ParseNothing();
    ReadKey(w, m, [], final);
  }

  lemma EditDispatched(f: Function, c: Console, ps: seq<int>)
    requires Wf(c) && IsEdit(f)
    ensures Wf(Settled(c)) && Dispatched(Some(f), c, ps) == Edit(f, Settled(c), ps)
  {
    hide Motion, Edit, Setting, Clean, Grid;
  }

  /** The final characters of the editing functions. */
  lemma EditKeys()
    ensures CsiFunction(['J' as int]) == Some(EraseInDisplay) && CsiFunction(['K' as int]) == Some(EraseInLine)
    ensures CsiFunction(['X' as int]) == Some(Function.EraseCharacters)
    ensures CsiFunction(['L' as int]) == Some(Function.InsertLine) && CsiFunction(['M' as int]) == Some(Function.DeleteLine)
    ensures CsiFunction(['@' as int]) == Some(Function.InsertCharacters)
    ensures CsiFunction(['P' as int]) == Some(Function.DeleteCharacters)
    ensures CsiFunction(['S' as int]) == Some(ScrollForward) && CsiFunction(['T' as int]) == Some(ScrollBackward)
  {
  }

  /** An editing control sequence with one number. */
  lemma ReadEdit(w: Widths, m: Machine, n: nat, final: char, f: Function)
    requires Wf(m.console) && 0x40 <= final as int <= 0x7E && n <= PARAM_MAX
    requires CsiFunction([final as int]) == Some(f) && IsEdit(f)
    ensures Wf(Settled(m.console)) && Shown(w, m, Csi(n, final)) == Edit(f, Settled(m.console), [n])
  {
    hide Wf, Shown, CsiFunction, Dispatched, Csi, Edit, IsEdit;
    ReadCsi(w, m, n, final);
    EditDispatched(f, m.console, [n]);
  }

  /** A number that counts: 0 stands for 1. */
  function Times(n: nat): nat {
    if n == 0 then 1 else n
  }

  /** The row nearest to `y` that the cursor may be in: within the margins in origin mode, else on the screen. */
  function NearestRow(c: Console, y: int): int {
    var first, last := if c.origin then c.screen.top else 0, if c.origin then c.screen.bottom else c.screen.height - 1;
    if y < first then first else if last < y then last else y
  }

  function NearestCol(c: Console, x: int): int {
    if x < 0 then 0 else if c.screen.width <= x then c.screen.width - 1 else x
  }

  // ---------------------------------------------------------------- erasing

  /** Positions in the order of reading. */
  predicate Before(y: int, x: int, row: int, col: int) {
    y < row || (y == row && x < col)
  }

  /** Nothing but cells has changed, and no wrap is pending. */
  ghost predicate OnlyCells(c: Console, d: Console) {
    d == c.(screen := c.screen.(rows := d.screen.rows, pending := false)) && Grid(d.screen.rows, c.screen.width, c.screen.height)
  }

  /** Part of the display, by its number: from the cursor on, up to the cursor with it, or all. */
  predicate InDisplayPart(which: nat, y: int, x: int, row: int, col: int) {
    (which == 0 && !Before(y, x, row, col)) || (which == 1 && !Before(row, col, y, x)) || which == 2
  }

  /** Exactly the cells of the part are reset, to the background that is selected. */
  ghost predicate ErasedPart(s: Screen, t: Screen, which: nat) {
    && Grid(s.rows, s.width, s.height) && Grid(t.rows, s.width, s.height)
    && forall y, x | 0 <= y < s.height && 0 <= x < s.width ::
         t.rows[y][x] == if InDisplayPart(which, y, x, s.row, s.col) then Reset(s.rendition.background) else s.rows[y][x]
  }

  lemma ClearedLine(s: Screen, y: nat, from: nat, to: int)
    requires Shape(s) && y < s.height && from <= to + 1 <= s.width
    ensures var t := ClearLine(s, y, from, to);
            && Shape(t) && t == s.(rows := t.rows) && |t.rows| == s.height && |t.rows[y]| == s.width
            && (forall i | 0 <= i < s.height && i != y :: t.rows[i] == s.rows[i])
            && (forall x | 0 <= x < s.width :: t.rows[y][x] == if from <= x <= to then Reset(s.rendition.background) else s.rows[y][x])
  {
    hide Clean;
  }

  lemma ClearedRows(s: Screen, from: nat, to: nat)
    requires Shape(s) && from <= to <= s.height
    ensures var t := ClearRows(s, from, to);
            && Shape(t) && t == s.(rows := t.rows) && |t.rows| == s.height
            && (forall i | 0 <= i < s.height && !(from <= i < to) :: t.rows[i] == s.rows[i])
            && (forall i | from <= i < to :: |t.rows[i]| == s.width && forall x | 0 <= x < s.width :: t.rows[i][x] == Reset(s.rendition.background))
  {
    hide Clean;
  }

  lemma FromCursor(s: Screen)
    requires Shape(s)
    ensures var l := ClearLine(s, s.row, s.col, s.width - 1);
            && |l.rows| == s.height
            && var t := ClearRows(l, s.row + 1, s.height); t == s.(rows := t.rows) && ErasedPart(s, t, 0)
  {
    hide Clean, ClearLine, ClearRows;
    ClearedLine(s, s.row, s.col, s.width - 1);
    ClearedRows(ClearLine(s, s.row, s.col, s.width - 1), s.row + 1, s.height);
  }

  lemma ToCursor(s: Screen)
    requires Shape(s)
    ensures var l := ClearRows(s, 0, s.row);
            && Shape(l) && l.height == s.height && l.width == s.width
            && var t := ClearLine(l, s.row, 0, s.col); t == s.(rows := t.rows) && ErasedPart(s, t, 1)
  {
    hide Clean, ClearLine, ClearRows;
    ClearedRows(s, 0, s.row);
    ClearedLine(ClearRows(s, 0, s.row), s.row, 0, s.col);
  }

  lemma WholeScreen(s: Screen, which: nat)
    requires Shape(s) && which >= 2
    ensures var t := if which == 2 then ClearRows(s, 0, s.height) else s; t == s.(rows := t.rows) && ErasedPart(s, t, which)
  {
    hide Clean, ClearRows;
    ClearedRows(s, 0, s.height);
  }

  lemma DisplayPart(c: Console, which: nat)
    requires Wf(c)
    ensures Shape(Settled(c).screen)
    ensures var d := EraseDisplayPart(Settled(c), which); OnlyCells(c, d) && ErasedPart(Settled(c).screen, d.screen, which)
  {
    hide Clean, ClearLine, ClearRows, InDisplayPart;
    var s := Settled(c).screen;
    FromCursor(s);
    ToCursor(s);
    if which >= 2 { WholeScreen(s, which); }
  }

  /** A pending wrap does not matter. */
  lemma PendingAside(c: Console, t: Screen, which: nat)
    ensures ErasedPart(Settled(c).screen, t, which) <==> ErasedPart(c.screen, t, which)
  {
  }

  /** `ESC [ n J` */
  lemma EraseInDisplayMeans(w: Widths, m: Machine, which: nat)
    requires Wf(m.console) && which <= PARAM_MAX
    ensures var c, d := m.console, Shown(w, m, Csi(which, 'J')); OnlyCells(c, d) && ErasedPart(c.screen, d.screen, which)
  {
    hide Shown, Csi, CsiFunction, EraseDisplayPart, Wf, ErasedPart, OnlyCells;
    EditKeys();
    ReadEdit(w, m, which, 'J', EraseInDisplay);
    DisplayPart(m.console, which);
    PendingAside(m.console, Shown(w, m, Csi(which, 'J')).screen, which);
  }

  ghost predicate ErasedInRow(s: Screen, t: Screen, which: nat) {
    && Grid(s.rows, s.width, s.height) && Grid(t.rows, s.width, s.height)
    && forall y, x | 0 <= y < s.height && 0 <= x < s.width ::
         t.rows[y][x] == if y == s.row && InDisplayPart(which, y, x, s.row, s.col) then Reset(s.rendition.background)
                         else s.rows[y][x]
  }

  lemma LinePart(c: Console, which: nat)
    requires Wf(c)
    ensures Shape(Settled(c).screen)
    ensures var d := EraseLinePart(Settled(c), which); OnlyCells(c, d) && ErasedInRow(c.screen, d.screen, which)
  {
    hide Clean, ClearLine, ClearRows;
    var s := Settled(c).screen;
    ClearedLine(s, s.row, s.col, s.width - 1);
    ClearedLine(s, s.row, 0, s.col);
    ClearedRows(s, s.row, s.row + 1);
  }

  /** `ESC [ n K` */
  lemma EraseInLineMeans(w: Widths, m: Machine, which: nat)
    requires Wf(m.console) && which <= PARAM_MAX
    ensures var c, d := m.console, Shown(w, m, Csi(which, 'K')); OnlyCells(c, d) && ErasedInRow(c.screen, d.screen, which)
  {
    hide Shown, Csi, CsiFunction, EraseLinePart, Wf, ErasedInRow, OnlyCells;
    EditKeys();
    ReadEdit(w, m, which, 'K', EraseInLine);
    LinePart(m.console, which);
  }

  /** Exactly `n` cells from the cursor on are reset, as far as the row goes. */
  ghost predicate ErasedAhead(s: Screen, t: Screen, n: nat) {
    && Grid(s.rows, s.width, s.height) && Grid(t.rows, s.width, s.height)
    && forall y, x | 0 <= y < s.height && 0 <= x < s.width ::
         t.rows[y][x] == if y == s.row && s.col <= x < s.col + n then Reset(s.rendition.background) else s.rows[y][x]
  }

  lemma Ahead(c: Console, n: nat)
    requires Wf(c) && 0 < n
    ensures Shape(Settled(c).screen)
    ensures var d := EraseForward(Settled(c), n); OnlyCells(c, d) && ErasedAhead(c.screen, d.screen, n)
  {
    hide Clean, ClearLine;
    var s := Settled(c).screen;
    ClearedLine(s, s.row, s.col, if s.col + n - 1 >= s.width then s.width - 1 else s.col + n - 1);
  }

  /** `ESC [ n X` */
  lemma EraseCharactersMeans(w: Widths, m: Machine, n: nat)
    requires Wf(m.console) && n <= PARAM_MAX
    ensures var c, d := m.console, Shown(w, m, Csi(n, 'X')); OnlyCells(c, d) && ErasedAhead(c.screen, d.screen, Times(n))
  {
    hide Shown, Csi, CsiFunction, EraseForward, Wf, ErasedAhead, OnlyCells;
    EditKeys();
    ReadEdit(w, m, n, 'X', Function.EraseCharacters);
    Ahead(m.console, Times(n));
  }

  // ---------------------------------------------------------------- lines

  /** Rows `first` to `last` move down by `n`, and blank rows come in above them. */
  ghost predicate MovedDown(before: seq<seq<Cell>>, after: seq<seq<Cell>>, first: int, last: int, n: nat, blank: seq<Cell>) {
    |after| == |before| && forall y | 0 <= y < |after| ::
      after[y] == if y < first || last < y then before[y] else if y < first + n || y - n < 0 then blank else before[y - n]
  }

  /** Rows `first` to `last` move up by `n`, and blank rows come in below them. */
  ghost predicate MovedUp(before: seq<seq<Cell>>, after: seq<seq<Cell>>, first: int, last: int, n: nat, blank: seq<Cell>) {
    |after| == |before| && forall y | 0 <= y < |after| ::
      after[y] == if y < first || last < y then before[y] else if last < y + n || |before| <= y + n then blank else before[y + n]
  }

  lemma RowsDown(rows: seq<seq<Cell>>, first: nat, last: int, n: nat, k: nat, blank: seq<Cell>)
    requires first <= last < |rows| && k == (if n < last + 1 - first then n else last + 1 - first)
    ensures MovedDown(rows, ScrollDown(rows, first, last, k, blank), first, last, n, blank)
  {
    var after := ScrollDown(rows, first, last, k, blank);
    assert forall y | 0 <= y < first :: after[y] == rows[y];
    assert forall y | first <= y < first + k :: after[y] == blank;
    assert forall y | first + k <= y <= last :: after[y] == rows[y - k];
    assert forall y | last < y < |rows| :: after[y] == rows[y];
  }

  lemma RowsUp(rows: seq<seq<Cell>>, first: nat, last: int, n: nat, k: nat, blank: seq<Cell>)
    requires first <= last < |rows| && k == (if n < last + 1 - first then n else last + 1 - first)
    ensures MovedUp(rows, ScrollUp(rows, first, last, k, blank), first, last, n, blank)
  {
    var after := ScrollUp(rows, first, last, k, blank);
    assert forall y | 0 <= y < first :: after[y] == rows[y];
    assert forall y | first <= y <= last - k :: after[y] == rows[y + k];
    assert forall y | last - k < y <= last :: after[y] == blank;
    assert forall y | last < y < |rows| :: after[y] == rows[y];
  }

  function BlankOf(s: Screen): seq<Cell> {
    BlankRow(s.width, s.rendition.background)
  }

  lemma LinesMoved(s: Screen, row: int, n: nat)
    requires Shape(s) && s.top <= row <= s.bottom
    ensures var t := InsertLines(s, row, n); t == s.(rows := t.rows) && MovedDown(s.rows, t.rows, row, s.bottom, n, BlankOf(s))
    ensures var t := DeleteLines(s, row, n); t == s.(rows := t.rows) && MovedUp(s.rows, t.rows, row, s.bottom, n, BlankOf(s))
  {
    hide Clean, Grid, BlankRow, MovedDown, MovedUp, ScrollDown, ScrollUp;
    var k := if n < s.bottom + 1 - row then n else s.bottom + 1 - row;
    RowsDown(s.rows, row, s.bottom, n, k, BlankOf(s));
    RowsUp(s.rows, row, s.bottom, n, k, BlankOf(s));
  }

  /** Outside the margins no line is inserted or deleted. */
  lemma LinesStay(s: Screen, row: int, n: nat)
    requires Shape(s) && (row < s.top || s.bottom < row)
    ensures InsertLines(s, row, n) == s == DeleteLines(s, row, n)
  {
    hide Clean, Grid, BlankRow;
    if row == s.bottom + 1 {
      assert s.rows[..row] + [] + s.rows[row..row] + s.rows[row..] == s.rows;
    }
  }

  /** The first column, and the row within its limits. */
  lemma ToFirstColumn(c: Console)
    requires Shape(c.screen)
    ensures var d, s := ToCol(c, 0, false), c.screen;
            d == c.(screen := s.(row := NearestRow(c, s.row), col := 0, pending := false),
                    combCol := d.screen.col, combRow := d.screen.row)
  {
    hide Clean, Grid;
  }

  /** `ESC [ n L` and `ESC [ n M`: lines move within the margins if the cursor is within them, and the cursor goes to the
      first column. */
  ghost predicate LinesEdited(c: Console, d: Console, inserted: bool, n: nat) {
    var s, t := c.screen, d.screen;
    && d == c.(screen := s.(rows := t.rows, row := NearestRow(c, s.row), col := 0, pending := false),
               combCol := t.col, combRow := t.row)
    && if s.top <= s.row <= s.bottom
       then (if inserted then MovedDown(s.rows, t.rows, s.row, s.bottom, n, BlankOf(s))
             else MovedUp(s.rows, t.rows, s.row, s.bottom, n, BlankOf(s)))
       else t.rows == s.rows
  }

  lemma LinesHere(c: Console, n: nat)
    requires Wf(c)
    ensures Shape(Settled(c).screen)
    ensures LinesEdited(c, InsertLinesAt(Settled(c), n), true, n) && LinesEdited(c, DeleteLinesAt(Settled(c), n), false, n)
  {
    hide Clean, Grid, InsertLines, DeleteLines, BlankRow, ToCol, MovedDown, MovedUp;
    var b := Settled(c);
    if c.screen.top <= c.screen.row <= c.screen.bottom {
      LinesMoved(b.screen, c.screen.row, n);
    } else {
      LinesStay(b.screen, c.screen.row, n);
    }
    ScrollByHeld(b.screen, b.screen.row, n);
    ToFirstColumn(b.(screen := InsertLines(b.screen, b.screen.row, n)));
    ToFirstColumn(b.(screen := DeleteLines(b.screen, b.screen.row, n)));
  }

  lemma InsertLinesMeans(w: Widths, m: Machine, n: nat)
    requires Wf(m.console) && n <= PARAM_MAX
    ensures LinesEdited(m.console, Shown(w, m, Csi(n, 'L')), true, Times(n))
  {
    hide Shown, Csi, CsiFunction, InsertLinesAt, Wf, LinesEdited;
    EditKeys();
    ReadEdit(w, m, n, 'L', Function.InsertLine);
    LinesHere(m.console, Times(n));
  }

  lemma DeleteLinesMeans(w: Widths, m: Machine, n: nat)
    requires Wf(m.console) && n <= PARAM_MAX
    ensures LinesEdited(m.console, Shown(w, m, Csi(n, 'M')), false, Times(n))
  {
    hide Shown, Csi, CsiFunction, DeleteLinesAt, Wf, LinesEdited;
    EditKeys();
    ReadEdit(w, m, n, 'M', Function.DeleteLine);
    LinesHere(m.console, Times(n));
  }

  /** `ESC [ n S` and `ESC [ n T`: all lines within the margins move, and the cursor stays. */
  ghost predicate Scrolled(c: Console, d: Console, up: bool, n: nat) {
    var s, t := c.screen, d.screen;
    && d == c.(screen := s.(rows := t.rows, pending := false))
    && if up then MovedUp(s.rows, t.rows, s.top, s.bottom, n, BlankOf(s))
       else MovedDown(s.rows, t.rows, s.top, s.bottom, n, BlankOf(s))
  }

  lemma ScrolledBoth(c: Console, n: nat)
    requires Wf(c) && 0 < n
    ensures var b := Settled(c);
            && Shape(b.screen)
            && Scrolled(c, b.(screen := ScrollBy(b.screen, n)), true, n) && Scrolled(c, b.(screen := ScrollBy(b.screen, -(n as int))), false, n)
  {
    hide Clean, Grid, InsertLines, DeleteLines, BlankRow, MovedDown, MovedUp;
    LinesMoved(Settled(c).screen, c.screen.top, n);
  }

  lemma ScrollForwardMeans(w: Widths, m: Machine, n: nat)
    requires Wf(m.console) && n <= PARAM_MAX
    ensures Scrolled(m.console, Shown(w, m, Csi(n, 'S')), true, Times(n))
  {
    hide Shown, Csi, CsiFunction, ScrollBy, Wf, Scrolled;
    EditKeys();
    ReadEdit(w, m, n, 'S', ScrollForward);
    ScrolledBoth(m.console, Times(n));
  }

  lemma ScrollBackwardMeans(w: Widths, m: Machine, n: nat)
    requires Wf(m.console) && n <= PARAM_MAX
    ensures Scrolled(m.console, Shown(w, m, Csi(n, 'T')), false, Times(n))
  {
    hide Shown, Csi, CsiFunction, ScrollBy, Wf, Scrolled;
    EditKeys();
    ReadEdit(w, m, n, 'T', ScrollBackward);
    ScrolledBoth(m.console, Times(n));
  }

  // ---------------------------------------------------------------- characters of a row

  /** The cells of the cursor's row from the cursor on move by `n`, and blank ones come in. */
  ghost predicate CellsMoved(s: Screen, t: Screen, right: bool, n: nat) {
    && Grid(s.rows, s.width, s.height) && Grid(t.rows, s.width, s.height)
    && forall y, x | 0 <= y < s.height && 0 <= x < s.width ::
         t.rows[y][x] ==
           if y != s.row || x < s.col then s.rows[y][x]
           else if right then (if x < s.col + n || x - n < 0 then Reset(s.rendition.background) else s.rows[y][x - n])
           else (if s.width <= x + n then Reset(s.rendition.background) else s.rows[y][x + n])
  }

  lemma CellsHere(c: Console, n: nat)
    requires Wf(c)
    ensures Shape(Settled(c).screen)
    ensures var d := InsertCellsAt(Settled(c), n); OnlyCells(c, d) && CellsMoved(c.screen, d.screen, true, n)
    ensures var d := DeleteCellsAt(Settled(c), n); OnlyCells(c, d) && CellsMoved(c.screen, d.screen, false, n)
  {
    hide Clean, InsertCells, DeleteCells;
    var s := c.screen;
    InsertCellsShift(CursorRow(s), s.col, n, s.rendition.background);
    DeleteCellsShift(CursorRow(s), s.col, n, s.rendition.background);
  }

  /** `ESC [ n @` */
  lemma InsertCharactersMeans(w: Widths, m: Machine, n: nat)
    requires Wf(m.console) && n <= PARAM_MAX
    ensures var c, d := m.console, Shown(w, m, Csi(n, '@')); OnlyCells(c, d) && CellsMoved(c.screen, d.screen, true, Times(n))
  {
    hide Shown, Csi, CsiFunction, InsertCellsAt, Wf, OnlyCells, CellsMoved;
    EditKeys();
    ReadEdit(w, m, n, '@', Function.InsertCharacters);
    CellsHere(m.console, Times(n));
  }

  /** `ESC [ n P` */
  lemma DeleteCharactersMeans(w: Widths, m: Machine, n: nat)
    requires Wf(m.console) && n <= PARAM_MAX
    ensures var c, d := m.console, Shown(w, m, Csi(n, 'P')); OnlyCells(c, d) && CellsMoved(c.screen, d.screen, false, Times(n))
  {
    hide Shown, Csi, CsiFunction, DeleteCellsAt, Wf, OnlyCells, CellsMoved;
    EditKeys();
    ReadEdit(w, m, n, 'P', Function.DeleteCharacters);
    CellsHere(m.console, Times(n));
  }

  // ---------------------------------------------------------------- missing numbers

  lemma MissingSame(n: nat, default_: nat)
    ensures ParamAt([-1], n, default_) == ParamAt([0], n, default_)
    ensures Consoles.Positive([-1], n, default_) == Consoles.Positive([0], n, default_)
  {
  }

  lemma MissingInMotion(f: Function, c: Console)
    requires Wf(c)
    ensures Motion(f, c, [-1]) == Motion(f, c, [0])
  {
    hide Wf, Autoscroll, Tab, NextLineOf, ToRow, ToCol, ParamAt;
    MissingSame(0, 1);
    MissingSame(1, 1);
  }

  lemma MissingInEdit(f: Function, c: Console)
    requires Wf(c)
    ensures Edit(f, c, [-1]) == Edit(f, c, [0])
  {
    hide Wf, EraseLinePart, EraseDisplayPart, EraseForward, InsertLinesAt, DeleteLinesAt, InsertCellsAt, DeleteCellsAt, ScrollBy,
      Aligned, ParamAt;
    MissingSame(0, 1);
    MissingSame(0, 0);
  }

  lemma MissingInSetting(f: Function, c: Console)
    requires Wf(c)
    ensures Setting(f, c, [-1]) == Setting(f, c, [0])
  {
    hide Wf, ClearTabs, SaveCursor, RestoreCursor, SoftReset, DecMode, MarginsOf, Fresh;
  }

  lemma MissingNumber(f: Option<Function>, c: Console)
    requires Wf(c)
    ensures Dispatched(f, c, [-1]) == Dispatched(f, c, [0])
  {
    hide Clean, Grid, Motion, Edit, Setting;
    if f.Some? {
      var b := if ClearsWrap(f.value) then Settled(c) else c;
      MissingInMotion(f.value, b);
      MissingInEdit(f.value, b);
      MissingInSetting(f.value, b);
    }
  }

  /** A missing number is 0. */
  lemma BareMeans(w: Widths, m: Machine, final: char)
    requires Wf(m.console) && 0x40 <= final as int <= 0x7E
    ensures Shown(w, m, Sequence([], final)) == Shown(w, m, Csi(0, final))
  {
    hide Wf, Shown, Csi, CsiFunction, Dispatched, Sequence;
    ReadBareKey(w, m, final);
    ReadCsi(w, m, 0, final);
    MissingNumber(CsiFunction([final as int]), m.console);
  }

  /** A number that is too large counts as missing. */
  lemma LargeMeans(w: Widths, m: Machine, n: nat, final: char)
    requires Wf(m.console) && 0x40 <= final as int <= 0x7E && 65535 < n && |Decimal(n)| <= 100
    ensures Shown(w, m, Sequence(Decimal(n), final)) == Shown(w, m, Sequence([], final))
  {
    hide Wf, Shown, CsiFunction, Dispatched, Sequence, Decimal, Semicolon, ValueOf;
    DecimalValue(n);
    SemicolonAfter(Decimal(n), []);
    SemicolonFirst([]);
    assert Decimal(n) + [] == Decimal(n);
    ParseStep(Decimal(n));
    ReadKey(w, m, Decimal(n), final);
    ReadBareKey(w, m, final);
  }

  /** A first number that is missing before a second one is 0. */
  lemma MissingFirst(n: nat)
    requires n <= 65535
    ensures Parse([SEMICOLON] + Decimal(n)) == [-1, n as int]
  {
    hide Decimal, ValueOf, Parse, Semicolon;
    var s := [SEMICOLON] + Decimal(n);
    SemicolonFirst(s);
    ParseStep(s);
    assert s[..0] == [] && s[1..] == Decimal(n);
    ParseJoined([n]);
    assert Joined([n]) == Decimal(n);
  }

  /** A missing second number likewise. */
  lemma MissingSecond(n: nat)
    requires n <= 65535
    ensures Parse(Decimal(n) + [SEMICOLON]) == [n as int, -1]
  {
    hide Decimal, ValueOf, Parse, Semicolon;
    var s := Decimal(n) + [SEMICOLON];
    DecimalValue(n);
    SemicolonAfter(Decimal(n), [SEMICOLON]);
    SemicolonFirst([SEMICOLON]);
    ParseStep(s);
    assert s[..|Decimal(n)|] == Decimal(n) && s[|Decimal(n)| + 1..] == [];
    ParseNothing();
  }
}
