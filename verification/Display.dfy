/** The frame writer: turns the difference of two frames into operations for the receiving terminal. */
module Displays {
  import opened Terminal
  import opened Drawing

  /** Frames share row objects; a row never changes while a frame is written. */
  class Row {
    const cells: seq<Cell>
    const gen: nat

    constructor (cells: seq<Cell>, gen: nat)
      ensures this.cells == cells && this.gen == gen
    {
      this.cells, this.gen := cells, gen;
    }
  }

  predicate EqualRows(a: Row, b: Row) {
    a.gen == b.gen && a.cells == b.cells
  }

  datatype Frame = Frame(width: nat, height: nat, rows: seq<Row>, row: nat, col: nat, rendition: Renditions, visible: bool)

  /** An empty cell or one narrow character. */
  ghost predicate NarrowCell(c: Cell) {
    !c.wide && !c.fallback && !c.contents.Cluster?
  }

  /** The cells that are written here: narrow, and in their reset form if they are empty. */
  ghost predicate RowClass(cells: seq<Cell>) {
    CleanRow(cells) && forall j | 0 <= j < |cells| :: NarrowCell(cells[j])
  }

  /** The character that shows a narrow cell. */
  function CharOf(c: Cell): char {
    if c.contents.Glyph? then c.contents.ch else ' '
  }

  ghost predicate RowsOk(rows: seq<Row>, width: nat, height: nat) {
    |rows| == height && forall i | 0 <= i < height :: |rows[i].cells| == width && RowClass(rows[i].cells)
  }

  ghost predicate FrameOk(f: Frame) {
    0 < f.width && 0 < f.height == |f.rows| && RowsOk(f.rows, f.width, f.height) && f.row < f.height && f.col < f.width
  }

  ghost predicate HasCell(f: Frame, c: Cell) {
    exists i, j :: 0 <= i < |f.rows| && 0 <= j < |f.rows[i].cells| && f.rows[i].cells[j] == c
  }

  ghost predicate HasGlyph(f: Frame, ch: char) {
    ch == ' ' || exists c :: HasCell(f, c) && CharOf(c) == ch
  }

  ghost predicate HasRendition(f: Frame, r: Renditions) {
    r == Plain(0) || r == f.rendition || exists c :: HasCell(f, c) && c.rendition == r
  }

  /** What may be sent for a frame: its own characters and renditions, and positions within its size. */
  ghost predicate Allowed(f: Frame, op: Op) {
    match op
    case Print(ch) => HasGlyph(f, ch)
    case CursorTo(y, x) => y <= f.height && x <= f.width
    case EraseChars(n) => n <= f.width
    case SetRendition(r) => HasRendition(f, r)
    case SetRegion(first, last) => first <= 1 && last <= f.height
    case _ => true
  }

  ghost predicate Worded(f: Frame, ops: seq<Op>) {
    forall i | 0 <= i < |ops| :: Allowed(f, ops[i])
  }

  ghost predicate CellKnown(f: Frame, c: Cell) {
    NarrowCell(c) && Allowed(f, Print(CharOf(c))) && Allowed(f, SetRendition(c.rendition))
  }

  ghost predicate RowKnown(f: Frame, cells: seq<Cell>) {
    forall j | 0 <= j < |cells| :: CellKnown(f, cells[j])
  }

  lemma OwnRow(f: Frame, y: nat)
    requires y < |f.rows| && RowClass(f.rows[y].cells)
    ensures RowKnown(f, f.rows[y].cells)
  {
    forall j | 0 <= j < |f.rows[y].cells| ensures CellKnown(f, f.rows[y].cells[j]) {
      assert HasCell(f, f.rows[y].cells[j]);
    }
  }

  lemma CellOfRow(f: Frame, cells: seq<Cell>, x: nat)
    requires RowKnown(f, cells) && x < |cells|
    ensures CellKnown(f, cells[x])
  {
  }

  lemma Moves(f: Frame, y: int, x: int)
    requires 0 <= y < f.height && 0 <= x < f.width
    ensures Allowed(f, CursorTo(y + 1, x + 1))
    ensures Allowed(f, CarriageReturn) && Allowed(f, LineFeed) && Allowed(f, Backspace) && Allowed(f, ShowCursor(false))
  {
  }

  lemma Blanks(f: Frame)
    ensures Allowed(f, Print(' ')) && Allowed(f, EraseToEnd)
    ensures forall n: nat | n <= f.width :: Allowed(f, EraseChars(n))
  {
  }

  /** The tracked cursor is unknown, or it is the real one with no wrap pending, or the column after the last
      one stands for a pending wrap. */
  ghost predicate Tracked(x: int, y: int, s: Screen) {
    || (x == -1 && y == -1)
    || (0 <= x < s.width && s.row == y && s.col == x && !s.pending)
    || (x == s.width && s.row == y && s.col == s.width - 1 && s.pending)
  }

  /** The real cursor is one column before the tracked one, on the bottom row. */
  ghost predicate Trailing(x: int, y: int, s: Screen) {
    0 < x <= s.width && y == s.row == s.height - 1 && s.col == x - 1 && !s.pending
  }

  ghost predicate Follows(behind: bool, x: int, y: int, s: Screen) {
    if behind then Trailing(x, y, s) else Tracked(x, y, s)
  }

  /** Whether the writer goes from column `c` to column `x` of the same row by backspaces, or stays. */
  predicate Near(c: int, x: int) {
    0 < x <= c && c - x < 5
  }

  /** After the last column of a wrapping row: the writer already counts the cursor on row `y`. */
  ghost predicate Hanging(x: int, y: int, s: Screen) {
    x == 0 && 0 < y < s.height && s.row == y - 1 && s.col == s.width - 1 && s.pending
  }

  function Landing(lastX: int, lastY: int, y: int, x: int, width: int): int {
    if lastX == width && lastY == y && 0 < x && width - x < 5 then x - 1 else x
  }

  lemma StepShape(s: Screen, op: Op)
    requires Shape(s)
    ensures Shape(Step(s, op)) && Step(s, op).width == s.width && Step(s, op).height == s.height
  {
    hide Step;
    StepKeeps(s, op);
  }

  /** `t` is `s` with row `y` replaced; cursor and rendition may differ. */
  ghost predicate OnlyRow(s: Screen, t: Screen, y: nat, row: seq<Cell>)
    requires y < |s.rows|
  {
    t.width == s.width && t.height == s.height && t.top == s.top && t.bottom == s.bottom && t.rows == s.rows[y := row]
  }

  lemma OnlyRowTwice(s: Screen, t: Screen, u: Screen, y: nat, row: seq<Cell>)
    requires y < |s.rows| == |t.rows|
    requires OnlyRow(s, t, y, t.rows[y]) && OnlyRow(t, u, y, row)
    ensures OnlyRow(s, u, y, row) && |u.rows| == |t.rows| && u.rows[y] == row
  {
  }

  lemma WrittenRow(s: Screen, n: nat, cell: Cell)
    requires Shape(s) && s.col + n <= s.width && Shape(Written(s, n, cell))
    ensures OnlyRow(s, Written(s, n, cell), s.row, Painted(s.rows[s.row], s.col, n, cell))
    ensures Tracked(s.col + n, s.row, Written(s, n, cell))
    ensures s.row == s.height - 1 && s.col + n < s.width ==> Trailing(s.col + n + 1, s.row, Written(s, n, cell))
  {
    hide Grid, Painted;
  }

  lemma ErasedRow(s: Screen, n: nat)
    requires Shape(s) && s.col + n <= s.width
    ensures OnlyRow(s, Erase(s, n), s.row, Painted(s.rows[s.row], s.col, n, Reset(s.rendition.background)))
    ensures Erase(s, n) == s.(rows := Erase(s, n).rows)
  {
    hide Grid, Painted;
  }

  class FrameState {
    var str: seq<Op>
    var cursorX: int
    var cursorY: int
    var rendition: Renditions
    var cursorVisible: bool
    /** The frame to be written. */
    ghost const target: Frame
    /** The receiving terminal, when it started and now. */
    ghost const start: Screen
    ghost var term: Screen
    /** The terminal's cursor is one column before the tracked one. */
    ghost var behind: bool

    ghost predicate Recorded()
      reads this`str, this`term
    {
      && Shape(start) && Shape(term) && term == Run(start, str)
      && term.width == target.width && term.height == target.height
      && Worded(target, str)
    }

    /** The writer's idea of the terminal is right. */
    ghost predicate Synced()
      reads this
    {
      && Recorded()
      && Shape(term) && FullRegion(term)
      && rendition == term.rendition
      && cursorVisible == term.visible
    }

    constructor (ghost f: Frame, ghost terminal: Screen, visible: bool)
      requires Shape(terminal) && terminal.width == f.width && terminal.height == f.height
      ensures Recorded() && term == start == terminal && str == [] && target == f
      ensures cursorX == 0 && cursorY == 0 && rendition == Plain(0) && cursorVisible == visible && !behind
    {
      str, cursorX, cursorY, rendition, cursorVisible := [], 0, 0, Plain(0), visible;
      target, start, term, behind := f, terminal, terminal, false;
    }

    method Append(op: Op)
      requires Recorded() && Allowed(target, op)
      modifies this`str, this`term
      ensures Recorded() && term == Step(old(term), op) && str == old(str) + [op]
    {
      hide Shape, Step, Kept, Allowed;
      StepShape(term, op);
      str := str + [op];
      term := Step(term, op);
      assert str[..|str| - 1] == old(str);
    }

    method AppendTimes(count: nat, op: Op)
      requires Recorded() && Allowed(target, op)
      modifies this`str, this`term
      ensures Recorded() && term == Repeat(old(term), op, count) && str == old(str) + seq(count, _ => op)
    {
      hide Shape, Step, Run, Repeat, Allowed;
      RunRepeat(start, str, op, count);
      str := str + seq(count, _ => op);
      term := Repeat(term, op, count);
    }

    /** Moves the cursor by carriage return and line feeds, by backspaces or by address. After the last column
        has been written, backspaces count one column too many. A cursor that is behind stays so by backspaces. */
    method AppendMove(y: int, x: int)
      requires Recorded() && Follows(behind, cursorX, cursorY, term) && (cursorX != -1 ==> FullRegion(term))
      requires 0 <= y < term.height && 0 <= x < term.width && (behind ==> cursorX != x || cursorY != y)
      modifies this`str, this`term, this`cursorX, this`cursorY, this`behind
      ensures Recorded() && cursorX == x && cursorY == y
      ensures behind == (old(behind) && y == old(cursorY) && Near(old(cursorX), x))
      ensures term == At(old(term), y, if behind then x - 1
                                       else if old(behind) then x
                                       else Landing(old(cursorX), old(cursorY), y, x, old(term).width))
    {
      hide Run, Grid, Repeat, Down, Allowed, Worded;
      Moves(target, y, x);
      var lastX, lastY := cursorX, cursorY;
      cursorX, cursorY := x, y;
      behind := behind && y == lastY && Near(lastX, x);
      if lastX != -1 && lastY != -1 {
        if x == 0 && y - lastY >= 0 && y - lastY < 5 {
          if lastX != 0 {
            Append(CarriageReturn);
          }
          DownTimes(term, y - lastY);
          AppendTimes(y - lastY, LineFeed);
          return;
        }
        if y == lastY && x - lastX < 0 && x - lastX > -5 {
          BackTimes(term, lastX - x);
          AppendTimes(lastX - x, Backspace);
          return;
        }
      }
      Append(CursorTo(y + 1, x + 1));
    }

    method AppendSilentMove(y: int, x: int)
      requires Recorded() && Follows(behind, cursorX, cursorY, term) && (cursorX != -1 ==> FullRegion(term))
      requires cursorVisible == term.visible
      requires 0 <= y < term.height && 0 <= x < term.width
      requires cursorX == term.width ==> cursorY != y
      modifies this`str, this`term, this`cursorX, this`cursorY, this`cursorVisible, this`behind
      ensures Recorded() && cursorX == x && cursorY == y
      ensures behind == (old(behind) && y == old(cursorY) && Near(old(cursorX), x))
      ensures term == At(old(term), y, x - Shift(behind)).(visible := cursorVisible)
    {
      hide Run, Grid, Allowed, Worded;
      Moves(target, y, x);
      if cursorX == x && cursorY == y {
        return;
      }
      if cursorVisible {
        Append(ShowCursor(false));
        cursorVisible := false;
      }
      AppendMove(y, x);
    }

    method UpdateRendition(r: Renditions, force: bool)
      requires Recorded() && (force || rendition == term.rendition) && Allowed(target, SetRendition(r))
      modifies this`str, this`term, this`rendition
      ensures Recorded() && rendition == r && term == old(term).(rendition := r)
    {
      hide Run, Shape, Allowed, Worded;
      if force || rendition != r {
        Append(SetRendition(r));
        rendition := r;
      }
    }

    /** `count` spaces from the known cursor position on. */
    method AppendSpaces(count: nat) returns (ghost cell: Cell)
      requires Synced() && Follows(behind, cursorX, cursorY, term)
      requires 0 <= cursorX < term.width && cursorX + count <= term.width
      modifies this`str, this`term, this`cursorX
      ensures Synced() && Follows(behind, cursorX, cursorY, term) && cursorX == old(cursorX) + count
      ensures LookOf(cell) == Blank(rendition)
      ensures OnlyRow(old(term), term, cursorY, Painted(old(term).rows[cursorY], old(cursorX) - Shift(behind), count, cell))
    {
      hide Run, Painted, Grid, Repeat, PrintChar, Step, OnlyRow, Allowed, Worded;
      Blanks(target);
      cell := Ink(' ', rendition);
      PrintTimes(term, ' ', count);
      ghost var before := term;
      AppendTimes(count, Print(' '));
      WrittenRow(before, count, cell);
      cursorX := cursorX + count;
    }

    /** Erases `count` cells from the known cursor position on, or the rest of the row. */
    method AppendErase(count: nat, op: Op) returns (ghost cell: Cell)
      requires Synced() && Follows(behind, cursorX, cursorY, term) && rendition == Plain(rendition.background)
      requires 0 <= cursorX < term.width && 0 < count && cursorX + count <= term.width
      requires op == EraseChars(count) || (op == EraseToEnd && cursorX + count == term.width)
      modifies this`str, this`term
      ensures Synced() && Follows(behind, cursorX, cursorY, term)
      ensures LookOf(cell) == Blank(rendition)
      ensures var n := if op == EraseToEnd then count + Shift(behind) else count;
              OnlyRow(old(term), term, cursorY, Painted(old(term).rows[cursorY], cursorX - Shift(behind), n, cell))
    {
      hide Run, Painted, Grid, OnlyRow, Allowed, Worded;
      Blanks(target);
      cell := Reset(rendition.background);
      ErasedRow(term, if op == EraseToEnd then count + Shift(behind) else count);
      Append(op);
    }

    /** The cell's character at the known cursor position. */
    method AppendCell(cell: Cell) returns (ghost drawn: Cell)
      requires Synced() && Follows(behind, cursorX, cursorY, term) && rendition == cell.rendition
      requires 0 <= cursorX < term.width && CellKnown(target, cell)
      modifies this`str, this`term, this`cursorX
      ensures Synced() && Follows(behind, cursorX, cursorY, term) && cursorX == old(cursorX) + 1
      ensures LookOf(drawn) == LookOf(cell)
      ensures OnlyRow(old(term), term, cursorY, Painted(old(term).rows[cursorY], old(cursorX) - Shift(behind), 1, drawn))
    {
      hide Run, Painted, Grid, PrintChar, OnlyRow, Allowed, Worded;
      drawn := Ink(CharOf(cell), rendition);
      PrintOnce(term, CharOf(cell));
      ghost var before := term;
      Append(Print(CharOf(cell)));
      WrittenRow(before, 1, drawn);
      cursorX := cursorX + 1;
    }

    /** The cell's character in the first column, where the real cursor gets to by wrapping. */
    method AppendWrapped(cell: Cell) returns (ghost drawn: Cell)
      requires Synced() && rendition == cell.rendition
      requires Hanging(cursorX, cursorY, term) && CellKnown(target, cell)
      modifies this`str, this`term, this`cursorX
      ensures Synced() && Tracked(cursorX, cursorY, term) && cursorX == 1
      ensures LookOf(drawn) == LookOf(cell)
      ensures OnlyRow(SetRow(old(term), cursorY - 1, SetWrap(old(term).rows[cursorY - 1])), term,
                cursorY, Painted(old(term).rows[cursorY], 0, 1, drawn))
    {
      hide Run, Painted, PrintChar, Allowed, Worded;
      ghost var y := cursorY - 1;
      ghost var wrapped := SetRow(term, y, SetWrap(term.rows[y]));
      drawn := Ink(CharOf(cell), rendition);
      PrintWrapped(term, CharOf(cell));
      Append(Print(CharOf(cell)));
      WrittenRow(At(wrapped, y + 1, 0), 1, drawn);
      cursorX := cursorX + 1;
    }
  }

  /** The first column from `x` on whose cell is not the old one. */
  function FirstChange(cells: seq<Cell>, old_: seq<Cell>, x: nat): (k: nat)
    requires x <= |cells| <= |old_|
    ensures x <= k <= |cells| && forall j | x <= j < k :: cells[j] == old_[j]
    ensures k < |cells| ==> cells[k] != old_[k]
    decreases |cells| - x
  {
    if x == |cells| || cells[x] != old_[x] then x else FirstChange(cells, old_, x + 1)
  }

  /** Where drawing one column too far left ends, and whether in an erasure of the rest of the row. `rest` is the column
      where the cursor is tracked after the row if it is behind even then, and -1 if it has been addressed. */
  datatype Stretch = Stretch(end: nat, erased: bool, rest: int)

  /** How a row begins: whether the cursor is behind, whether it is tracked in this row, and in which column. */
  datatype Outset = Outset(behind: bool, level: bool, c: int)

  /** How the tracked cursor, the real one and the row's trace go together when column `done` comes next. */
  ghost predicate Apt(o: Outset, g: Trace, behind: bool, known: bool, x: int, y: int, row: int, done: int) {
    && (behind ==> known && o.behind)
    && (g.Straight? && behind ==> x == o.c && (y == row) == o.level)
    && (g.Apart? ==> behind && x == done && y == row)
    && (g.Mended? && behind ==> x < done)
  }

  datatype Display = Display(hasEch: bool, hasBce: bool) {
    predicate CanUseErase(rendition: Renditions) {
      hasBce || rendition == Plain(0)
    }

    /** Whether a run of blanks within a row is erased and not overwritten; the cursor then stays before it. */
    predicate Erases(blank: Renditions, count: nat) {
      CanUseErase(blank) && hasEch && count > 4
    }

    // ------------------------------------------------------------ what a cursor that is behind does to a row

    /** The writer forgets where the cursor is before it draws a last column that wraps. */
    predicate Addressed(cells: seq<Cell>, x: nat)
      requires x < |cells|
    {
      cells[|cells| - 1].wrap && x + 1 == |cells| && !cells[x].contents.Empty?
    }

    /** Whether the first changed cell is drawn one column too far left. */
    predicate FirstApart(cells: seq<Cell>, c: int, x: nat)
      requires x < |cells|
    {
      Near(c, x) && !Addressed(cells, x)
    }

    /** The cursor stays at column `x` if no cell from there on has to be drawn. */
    function RestAt(cells: seq<Cell>, old_: seq<Cell>, x: nat): int
      requires x <= |cells| <= |old_|
    {
      if FirstChange(cells, old_, x) == |cells| then x else -1
    }

    /** Where such drawing ends, from column `x` on and with a run of `count` blanks waiting: before a cell that need
        not be drawn, after an erasure, or before a last column that is addressed. */
    function ApartEnd(cells: seq<Cell>, old_: seq<Cell>, x: nat, count: nat, blank: Renditions): Stretch
      requires 0 < |cells| && count <= x <= |cells| <= |old_|
      decreases |cells| - x
    {
      if x == |cells| then
        if 0 < count && CanUseErase(blank) && !cells[|cells| - 1].wrap then Stretch(x - count + 1, true, x - count)
        else Stretch(x, false, x)
      else
        var cell := cells[x];
        if count == 0 && cell == old_[x] then Stretch(x, false, RestAt(cells, old_, x))
        else if cell.contents.Empty? && (count == 0 || cell.rendition == blank) then
          ApartEnd(cells, old_, x + 1, count + 1, cell.rendition)
        else if 0 < count && Erases(blank, count) then Stretch(x, false, -1)
        else if cell.contents.Empty? then ApartEnd(cells, old_, x + 1, 1, cell.rendition)
        else if Addressed(cells, x) then Stretch(x, false, -1)
        else ApartEnd(cells, old_, x + 1, 0, Plain(0))
    }

    /** What happens to the bottom row when the cursor is tracked in column `c` of it and is one column behind. */
    function RowTrace(cells: seq<Cell>, old_: seq<Cell>, c: int): Trace
      requires 0 < |cells| <= |old_|
    {
      var x := FirstChange(cells, old_, 0);
      if x == |cells| || !FirstApart(cells, c, x) then Straight
      else var e := ApartEnd(cells, old_, x, 0, Plain(0)); Mended(x, e.end, e.erased)
    }

    /** Where the cursor is tracked after the row if it is still behind, and -1 otherwise. */
    function RowRest(cells: seq<Cell>, old_: seq<Cell>, c: int): int
      requires 0 < |cells| <= |old_|
    {
      var x := FirstChange(cells, old_, 0);
      if x == |cells| then c else if !FirstApart(cells, c, x) then -1 else ApartEnd(cells, old_, x, 0, Plain(0)).rest
    }

    /** Whether that row then looks as it should. */
    ghost predicate RowRight(cells: seq<Cell>, old_: seq<Cell>, c: int)
      requires 0 < |cells| <= |old_|
    {
      Lucky(RowTrace(cells, old_, c), cells, old_)
    }

    ghost predicate SameEnd(cells: seq<Cell>, old_: seq<Cell>, x: nat, count: nat, blank: Renditions)
      requires 0 < |cells| && count <= x <= |cells| <= |old_|
    {
      ApartEnd(cells, old_, FirstChange(cells, old_, 0), 0, Plain(0))
      == ApartEnd(cells, old_, x, count, if count == 0 then Plain(0) else blank)
    }

    /** Whether the first changed cell is drawn apart, as far as the row's beginning decides it. */
    predicate Chosen(o: Outset, cells: seq<Cell>, x: nat)
      requires x < |cells|
    {
      o.level && FirstApart(cells, o.c, x)
    }

    /** The trace so far is on its way to the one that `RowTrace` foretells. */
    ghost predicate Foretold(o: Outset, cells: seq<Cell>, old_: seq<Cell>, x: nat, count: nat, blank: Renditions, g: Trace,
                             behind: bool, cx: int)
    {
      && 0 < |cells| && count <= x <= |cells| <= |old_|
      && if !o.behind then g.Straight? && !behind
         else
           var first := FirstChange(cells, old_, 0);
           match g
           case Straight =>
             if !behind then first < |cells| && !Chosen(o, cells, first)
             else if count == 0 then x <= first
             else x - count == first && SameEnd(cells, old_, x, count, blank)
           case Apart(x0) => behind && x0 == first < |cells| && Chosen(o, cells, first) && SameEnd(cells, old_, x, count, blank)
           case Mended(x0, x1, erased) =>
             && x0 == first < |cells| && Chosen(o, cells, first)
             && var e := ApartEnd(cells, old_, first, 0, Plain(0));
             && e.end == x1 && e.erased == erased
             && if behind && count == 0
                then x1 <= x <= FirstChange(cells, old_, x1) && cx == x1 && e.rest == RestAt(cells, old_, x1)
                else e.rest == -1
    }

    /** The same, just before the character of column `x` is drawn. */
    ghost predicate Midway(o: Outset, cells: seq<Cell>, old_: seq<Cell>, x: nat, g: Trace, behind: bool) {
      && x < |cells| <= |old_|
      && if !o.behind then g.Straight? && !behind
         else
           var first := FirstChange(cells, old_, 0);
           match g
           case Straight => if behind then x == first else first < |cells| && !Chosen(o, cells, first)
           case Apart(x0) =>
             && behind && x0 == first < |cells| && Chosen(o, cells, first)
             && ApartEnd(cells, old_, first, 0, Plain(0))
                == if Addressed(cells, x) then Stretch(x, false, -1) else ApartEnd(cells, old_, x + 1, 0, Plain(0))
           case Mended(x0, x1, erased) =>
             && x0 == first < |cells| && Chosen(o, cells, first)
             && ApartEnd(cells, old_, first, 0, Plain(0)) == Stretch(x1, erased, -1)
    }

    lemma ForetoldStart(o: Outset, cells: seq<Cell>, old_: seq<Cell>, x: nat, blank: Renditions)
      requires 0 < |cells| <= |old_| && x <= |cells| && (o.behind ==> x == 0)
      ensures Foretold(o, cells, old_, x, 0, blank, Straight, o.behind, o.c)
    {
    }

    lemma ForetoldSkip(o: Outset, cells: seq<Cell>, old_: seq<Cell>, x: nat, blank: Renditions, g: Trace, behind: bool, cx: int)
      requires Foretold(o, cells, old_, x, 0, blank, g, behind, cx) && x < |cells| && cells[x] == old_[x]
      requires g.Apart? ==> cx == x
      ensures Foretold(o, cells, old_, x + 1, 0, blank, Ended(g, x), behind, cx)
    {
    }

    lemma ForetoldBlank(o: Outset, cells: seq<Cell>, old_: seq<Cell>, x: nat, count: nat, blank: Renditions, g: Trace,
                        behind: bool, cx: int)
      requires Foretold(o, cells, old_, x, count, blank, g, behind, cx) && x < |cells| && cells[x].contents.Empty?
      requires if count == 0 then o.behind ==> cells[x] != old_[x] else cells[x].rendition == blank
      ensures Foretold(o, cells, old_, x + 1, count + 1, cells[x].rendition, g, behind, cx)
    {
    }

    /** The trace after a run of blanks. */
    function FlushedTrace(g: Trace, x: nat, count: nat, blank: Renditions, behind: bool): Trace
      requires count <= x
    {
      var h := Drawn(g, x - count, behind);
      if Erases(blank, count) then Ended(h, x) else h
    }

    lemma ForetoldAnew(o: Outset, cells: seq<Cell>, old_: seq<Cell>, x: nat, count: nat, blank: Renditions, g: Trace,
                       behind: bool, cx: int, after: bool, cx': int)
      requires Foretold(o, cells, old_, x, count, blank, g, behind, cx) && 0 < count && x < |cells|
      requires cells[x].contents.Empty? && cells[x].rendition != blank && cells[x - count].contents.Empty?
      requires after == (behind && (g.Straight? ==> o.level && Near(o.c, x - count)) && !g.Mended?)
      ensures Foretold(o, cells, old_, x + 1, 1, cells[x].rendition, FlushedTrace(g, x, count, blank, after), after, cx')
    {
    }

    lemma MidwayFlushed(o: Outset, cells: seq<Cell>, old_: seq<Cell>, x: nat, count: nat, blank: Renditions, g: Trace,
                        behind: bool, cx: int, after: bool)
      requires Foretold(o, cells, old_, x, count, blank, g, behind, cx) && 0 < count && x < |cells|
      requires !cells[x].contents.Empty? && cells[x - count].contents.Empty?
      requires after == (behind && (g.Straight? ==> o.level && Near(o.c, x - count)) && !g.Mended?)
      ensures Midway(o, cells, old_, x, FlushedTrace(g, x, count, blank, after), after)
    {
    }

    lemma MidwayStart(o: Outset, cells: seq<Cell>, old_: seq<Cell>, x: nat, blank: Renditions, g: Trace, behind: bool, cx: int)
      requires Foretold(o, cells, old_, x, 0, blank, g, behind, cx) && x < |cells|
      requires !cells[x].contents.Empty? && (o.behind ==> cells[x] != old_[x])
      ensures Midway(o, cells, old_, x, g, behind)
    {
    }

    function DrawnTrace(cells: seq<Cell>, g: Trace, x: nat, behind: bool): Trace
      requires x < |cells|
    {
      Drawn(if Addressed(cells, x) then Ended(g, x) else g, x, behind)
    }

    lemma ForetoldDraw(o: Outset, cells: seq<Cell>, old_: seq<Cell>, x: nat, blank: Renditions, g: Trace, behind: bool,
                       after: bool, cx: int)
      requires Midway(o, cells, old_, x, g, behind) && !cells[x].contents.Empty?
      requires after == (behind && !Addressed(cells, x) && (g.Straight? ==> o.level && Near(o.c, x)) && !g.Mended?)
      ensures Foretold(o, cells, old_, x + 1, 0, blank, DrawnTrace(cells, g, x, after), after, cx)
    {
    }

    /** The cursor goes to column `p` of the row: it is behind afterwards if it was and moves by backspaces. */
    lemma AptMove(o: Outset, g: Trace, behind: bool, known: bool, cx: int, cy: int, y: int, p: int)
      requires Apt(o, g, behind, known, cx, cy, y, p) && (g.Apart? ==> 0 < p)
      ensures (behind && y == cy && Near(cx, p)) == (behind && (g.Straight? ==> o.level && Near(o.c, p)) && !g.Mended?)
      ensures g.Apart? ==> behind && y == cy && Near(cx, p)
      ensures g.Mended? ==> !(behind && y == cy && Near(cx, p))
    {
    }

    lemma AptSkip(o: Outset, g: Trace, behind: bool, known: bool, cx: int, cy: int, y: int, x: nat)
      requires Apt(o, g, behind, known, cx, cy, y, x)
      ensures Apt(o, Ended(g, x), behind, known, cx, cy, y, x + 1) && (g.Apart? ==> cx == x)
    {
    }

    /** Clears or writes the `count` blank cells before column `x`. */
    method FlushBlanks(frame: FrameState, y: int, x: int, count: nat, blank: Renditions) returns (ghost cell: Cell)
      requires frame.Synced() && Follows(frame.behind, frame.cursorX, frame.cursorY, frame.term)
      requires 0 <= y < frame.term.height && 0 < count <= x < frame.term.width
      requires frame.cursorX == frame.term.width ==> frame.cursorY != y
      requires blank == Plain(blank.background) && Allowed(frame.target, SetRendition(blank))
      modifies frame
      ensures frame.Synced() && Follows(frame.behind, frame.cursorX, frame.cursorY, frame.term)
      ensures frame.behind == (old(frame.behind) && y == old(frame.cursorY) && Near(old(frame.cursorX), x - count))
      ensures LookOf(cell) == Blank(blank)
      ensures OnlyRow(old(frame.term), frame.term, y,
                Painted(old(frame.term).rows[y], x - count - Shift(frame.behind), count, cell))
      ensures frame.cursorX == (if Erases(blank, count) then x - count else x) && frame.cursorY == y
    {
      hide Run, Painted, Grid, Step, Allowed, Worded;
      frame.AppendSilentMove(y, x - count);
      frame.UpdateRendition(blank, false);
      if CanUseErase(frame.rendition) && hasEch && count > 4 {
        cell := frame.AppendErase(count, EraseChars(count));
      } else {
        cell := frame.AppendSpaces(count);
      }
    }

    /** Clears or writes the `count` blank cells at the end of the row. */
    method EndRow(frame: FrameState, y: int, x: int, count: nat, blank: Renditions, wrapThis: bool)
      returns (wrote: bool, ghost cell: Cell)
      requires frame.Synced() && Follows(frame.behind, frame.cursorX, frame.cursorY, frame.term)
      requires 0 <= y < frame.term.height && 0 < count <= x == frame.term.width
      requires frame.cursorX == frame.term.width ==> frame.cursorY != y
      requires blank == Plain(blank.background) && Allowed(frame.target, SetRendition(blank))
      modifies frame
      ensures frame.Synced() && Follows(frame.behind, frame.cursorX, frame.cursorY, frame.term)
      ensures frame.behind == (old(frame.behind) && y == old(frame.cursorY) && Near(old(frame.cursorX), x - count))
      ensures LookOf(cell) == Blank(blank)
      ensures OnlyRow(old(frame.term), frame.term, y, Painted(old(frame.term).rows[y], x - count - Shift(frame.behind),
                if wrote then count else count + Shift(frame.behind), cell))
      ensures frame.cursorY == y && frame.cursorX == (if wrote then x else x - count)
      ensures wrote == (wrapThis || !CanUseErase(blank))
    {
      hide Run, Painted, Grid, Step, Allowed, Worded;
      frame.AppendSilentMove(y, x - count);
      frame.UpdateRendition(blank, false);
      if CanUseErase(frame.rendition) && !wrapThis {
        wrote := false;
        cell := frame.AppendErase(count, EraseToEnd);
      } else {
        wrote := true;
        cell := frame.AppendSpaces(count);
      }
    }

    /** Whether a run of blank cells is waiting to be cleared when column `x` is reached. */
    predicate RunOpen(initialized: bool, cells: seq<Cell>, old_: seq<Cell>, from: nat, x: nat)
      requires from <= x <= |cells| <= |old_|
    {
      && from < x
      && cells[x - 1].contents.Empty?
      && (RunOpen(initialized, cells, old_, from, x - 1) || !initialized || cells[x - 1] != old_[x - 1])
    }

    /** Whether the last column holds a character that has to be drawn. */
    predicate LastDrawn(initialized: bool, cells: seq<Cell>, old_: seq<Cell>, from: nat)
      requires from <= |cells| <= |old_|
    {
      var x := |cells| - 1;
      && from <= x
      && !cells[x].contents.Empty?
      && (RunOpen(initialized, cells, old_, from, x) || !initialized || cells[x] != old_[x])
    }

    /** Whether drawing the row from column `from` on leaves the cursor after the last column. */
    predicate LastWritten(initialized: bool, cells: seq<Cell>, old_: seq<Cell>, from: nat)
      requires 0 < |cells| <= |old_| && from <= |cells|
    {
      var last := cells[|cells| - 1];
      || LastDrawn(initialized, cells, old_, from)
      || (RunOpen(initialized, cells, old_, from, |cells|) && (last.wrap || !CanUseErase(last.rendition)))
    }

    /** Draws one character cell. */
    method DrawCell(frame: FrameState, y: int, x: int, cell: Cell, wrapThis: bool, width: int) returns (ghost drawn: Cell)
      requires frame.Synced() && Follows(frame.behind, frame.cursorX, frame.cursorY, frame.term)
      requires 0 <= y < frame.term.height && 0 <= x < frame.term.width == width && CellKnown(frame.target, cell)
      requires frame.cursorX == frame.term.width ==> frame.cursorY != y
      modifies frame
      ensures frame.Synced() && Follows(frame.behind, frame.cursorX, frame.cursorY, frame.term)
      ensures frame.behind == (old(frame.behind) && !(wrapThis && x + 1 == width)
                               && y == old(frame.cursorY) && Near(old(frame.cursorX), x))
      ensures LookOf(drawn) == LookOf(cell)
      ensures OnlyRow(old(frame.term), frame.term, y, Painted(old(frame.term).rows[y], x - Shift(frame.behind), 1, drawn))
      ensures frame.cursorX == x + 1 && frame.cursorY == y
    {
      hide Run, Painted, Grid, Step, Allowed, Worded;
      if wrapThis && x + 1 >= width {
        frame.cursorX, frame.cursorY := -1, -1;
        frame.behind := false;
      }
      frame.AppendSilentMove(y, x);
      frame.UpdateRendition(cell.rendition, false);
      drawn := frame.AppendCell(cell);
    }

    /** Where the loop over the cells stands: columns before `x - count` are drawn, and the `count` cells before
        `x` are a run of blanks that remains to be cleared. */
    ghost predicate Halfway(initialized: bool, cells: seq<Cell>, old_: seq<Cell>, from: nat, x: nat, count: nat,
                            blank: Renditions, wrote: bool)
    {
      && from <= x <= |cells| <= |old_| && count <= x - from
      && (0 < count ==> BlankRun(cells, x - count, x, blank) && blank == Plain(blank.background))
      && (0 < count) == RunOpen(initialized, cells, old_, from, x)
      && wrote == (x == |cells| && LastDrawn(initialized, cells, old_, from))
    }

    lemma HalfwayStart(initialized: bool, cells: seq<Cell>, old_: seq<Cell>, from: nat, blank: Renditions)
      requires from <= |cells| <= |old_| && 0 < |cells|
      ensures Halfway(initialized, cells, old_, from, from, 0, blank, false)
    {
    }

    lemma HalfwayRun(initialized: bool, cells: seq<Cell>, old_: seq<Cell>, from: nat, x: nat, count: nat,
                     blank: Renditions, wrote: bool)
      requires Halfway(initialized, cells, old_, from, x, count, blank, wrote)
      ensures from <= x <= |cells| <= |old_| && count <= x - from
      ensures 0 < count ==> BlankRun(cells, x - count, x, blank) && blank == Plain(blank.background)
      ensures (0 < count) == RunOpen(initialized, cells, old_, from, x)
      ensures wrote == (x == |cells| && LastDrawn(initialized, cells, old_, from))
    {
    }

    lemma BlankStart(initialized: bool, cells: seq<Cell>, old_: seq<Cell>, from: nat, x: nat, a: Renditions, b: Renditions)
      requires Halfway(initialized, cells, old_, from, x, 0, a, false)
      ensures Halfway(initialized, cells, old_, from, x, 0, b, false)
    {
    }

    lemma SkipCell(cells: seq<Cell>, old_: seq<Cell>, from: nat, x: nat, blank: Renditions)
      requires Halfway(true, cells, old_, from, x, 0, blank, false) && x < |cells| && cells[x] == old_[x]
      ensures Halfway(true, cells, old_, from, x + 1, 0, blank, false)
    {
    }

    lemma BlankOneMore(initialized: bool, cells: seq<Cell>, old_: seq<Cell>, from: nat, x: nat, count: nat, blank: Renditions)
      requires Halfway(initialized, cells, old_, from, x, count, blank, false) && x < |cells| && CleanRow(cells)
      requires cells[x].contents.Empty? && cells[x].rendition == blank
      requires count == 0 ==> !initialized || cells[x] != old_[x]
      ensures Halfway(initialized, cells, old_, from, x + 1, count + 1, blank, false)
    {
    }

    lemma BlankAnew(initialized: bool, cells: seq<Cell>, old_: seq<Cell>, from: nat, x: nat, count: nat, blank: Renditions)
      requires Halfway(initialized, cells, old_, from, x, count, blank, false) && x < |cells| && CleanRow(cells)
      requires cells[x].contents.Empty? && 0 < count
      ensures Halfway(initialized, cells, old_, from, x + 1, 1, cells[x].rendition, false)
    {
    }

    lemma DrawnCell(initialized: bool, cells: seq<Cell>, old_: seq<Cell>, from: nat, x: nat, count: nat, blank: Renditions)
      requires Halfway(initialized, cells, old_, from, x, count, blank, false) && x < |cells|
      requires !cells[x].contents.Empty? && (0 < count || !initialized || cells[x] != old_[x])
      ensures Halfway(initialized, cells, old_, from, x + 1, 0, blank, x + 1 == |cells|)
    {
    }

    /** One turn of the loop over the cells. */
    method PutCell(initialized: bool, frame: FrameState, y: int, cells: seq<Cell>, old_: seq<Cell>, from: nat,
                   x: nat, count: nat, blank: Renditions, ghost o: Outset, ghost g: Trace)
      returns (count': nat, blank': Renditions, wrote: bool, ghost g': Trace)
      requires frame.Synced() && Follows(frame.behind, frame.cursorX, frame.cursorY, frame.term)
      requires 0 <= y < frame.term.height && |cells| == frame.term.width && CleanRow(cells)
      requires RowKnown(frame.target, cells) && (0 < count ==> Allowed(frame.target, SetRendition(blank)))
      requires count <= x < |cells| && Halfway(initialized, cells, old_, from, x, count, blank, false)
      requires Traced(g, initialized, frame.term.rows[y], cells, old_, x - count)
      requires o.behind ==> initialized
      requires Apt(o, g, frame.behind, initialized, frame.cursorX, frame.cursorY, y, x - count)
      requires Foretold(o, cells, old_, x, count, blank, g, frame.behind, frame.cursorX)
      requires frame.cursorX == |cells| ==> frame.cursorY < y
      modifies frame
      ensures frame.Synced() && Follows(frame.behind, frame.cursorX, frame.cursorY, frame.term)
      ensures OnlyRow(old(frame.term), frame.term, y, frame.term.rows[y])
      ensures count' <= x + 1 && Halfway(initialized, cells, old_, from, x + 1, count', blank', wrote)
      ensures 0 < count' ==> Allowed(frame.target, SetRendition(blank'))
      ensures Traced(g', initialized, frame.term.rows[y], cells, old_, x + 1 - count')
      ensures Apt(o, g', frame.behind, initialized, frame.cursorX, frame.cursorY, y, x + 1 - count')
      ensures Foretold(o, cells, old_, x + 1, count', blank', g', frame.behind, frame.cursorX)
      ensures wrote ==> x + 1 == |cells| && frame.cursorX == |cells| && frame.cursorY == y && count' == 0
      ensures !wrote && frame.cursorX == |cells| ==> frame.cursorY < y && old(frame.cursorX) == |cells|
    {
      hide Run, Painted, Step, Traced, BlankRun, CleanRow, Halfway, Follows, FullRegion, RowKnown, Allowed, Foretold, Midway,
        Apt, Ended, Near, FlushedTrace, Grid, FrameState.Recorded;
      assert |cells| <= |old_| && (0 < count ==> BlankRun(cells, x - count, x, blank) && blank == Plain(blank.background)) by {
        HalfwayRun(initialized, cells, old_, from, x, count, blank, false);
      }
      ghost var base := frame.term;
      assert base.rows == base.rows[y := base.rows[y]];
      var cell := cells[x];
      CellOfRow(frame.target, cells, x);
      count', blank', wrote, g' := count, blank, false, g;
      if initialized && count' == 0 && cell == old_[x] {
        TraceSkip(g, frame.term.rows[y], cells, old_, x);
        SkipCell(cells, old_, from, x, blank');
        AptSkip(o, g, frame.behind, initialized, frame.cursorX, frame.cursorY, y, x);
        ForetoldSkip(o, cells, old_, x, blank', g, frame.behind, frame.cursorX);
        g' := Ended(g, x);
        return;
      }
      if cell.contents.Empty? {
        if count' == 0 {
          BlankStart(initialized, cells, old_, from, x, blank', cell.rendition);
          blank' := cell.rendition;
        }
        if cell.rendition == blank' {
          BlankOneMore(initialized, cells, old_, from, x, count', blank');
          ForetoldBlank(o, cells, old_, x, count', blank, g, frame.behind, frame.cursorX);
          count' := count' + 1;
          return;
        }
      }
      count', blank', wrote, g' := Emit(initialized, frame, y, cells, old_, from, x, count', blank', o, g);
    }

    /** The waiting blanks, and the character of column `x` or the start of another run. */
    method Emit(initialized: bool, frame: FrameState, y: int, cells: seq<Cell>, old_: seq<Cell>, from: nat,
                x: nat, count: nat, blank: Renditions, ghost o: Outset, ghost g: Trace)
      returns (count': nat, blank': Renditions, wrote: bool, ghost g': Trace)
      requires frame.Synced() && Follows(frame.behind, frame.cursorX, frame.cursorY, frame.term)
      requires 0 <= y < frame.term.height && |cells| == frame.term.width && CleanRow(cells)
      requires (0 < count ==> Allowed(frame.target, SetRendition(blank)))
      requires count <= x < |cells| && Halfway(initialized, cells, old_, from, x, count, blank, false)
      requires CellKnown(frame.target, cells[x]) && |cells| <= |old_|
      requires if cells[x].contents.Empty? then 0 < count && cells[x].rendition != blank
               else 0 < count || !initialized || cells[x] != old_[x]
      requires Traced(g, initialized, frame.term.rows[y], cells, old_, x - count)
      requires o.behind ==> initialized
      requires Apt(o, g, frame.behind, initialized, frame.cursorX, frame.cursorY, y, x - count)
      requires Foretold(o, cells, old_, x, count, blank, g, frame.behind, frame.cursorX)
      requires frame.cursorX == |cells| ==> frame.cursorY < y
      modifies frame
      ensures frame.Synced() && Follows(frame.behind, frame.cursorX, frame.cursorY, frame.term)
      ensures OnlyRow(old(frame.term), frame.term, y, frame.term.rows[y])
      ensures count' <= x + 1 && Halfway(initialized, cells, old_, from, x + 1, count', blank', wrote)
      ensures 0 < count' ==> Allowed(frame.target, SetRendition(blank'))
      ensures Traced(g', initialized, frame.term.rows[y], cells, old_, x + 1 - count')
      ensures Apt(o, g', frame.behind, initialized, frame.cursorX, frame.cursorY, y, x + 1 - count')
      ensures Foretold(o, cells, old_, x + 1, count', blank', g', frame.behind, frame.cursorX)
      ensures wrote ==> x + 1 == |cells| && frame.cursorX == |cells| && frame.cursorY == y && count' == 0
      ensures !wrote && frame.cursorX == |cells| ==> frame.cursorY < y && old(frame.cursorX) == |cells|
    {
      hide Run, Painted, Step, Traced, BlankRun, CleanRow, Halfway, Follows, FullRegion, Allowed, Foretold, Midway,
        Apt, Ended, Near, FlushedTrace, Grid, FrameState.Recorded;
      ghost var base := frame.term;
      count', blank', wrote, g' := count, blank, false, g;
      if 0 < count {
        HalfwayRun(initialized, cells, old_, from, x, count, blank, false);
        g' := Flush(initialized, frame, y, cells, old_, x, count, blank, o, g);
        if cells[x].contents.Empty? {
          BlankAnew(initialized, cells, old_, from, x, count, blank);
          ForetoldAnew(o, cells, old_, x, count, blank, g, old(frame.behind), old(frame.cursorX), frame.behind, frame.cursorX);
          blank', count' := cells[x].rendition, 1;
          return;
        }
        MidwayFlushed(o, cells, old_, x, count, blank, g, old(frame.behind), old(frame.cursorX), frame.behind);
      } else {
        assert base.rows == base.rows[y := base.rows[y]];
        MidwayStart(o, cells, old_, x, blank, g, frame.behind, frame.cursorX);
      }
      DrawnCell(initialized, cells, old_, from, x, count, blank);
      count' := 0;
      ghost var before := frame.term;
      g' := Draw(initialized, frame, y, cells, old_, x, blank, o, g');
      OnlyRowTwice(base, before, frame.term, y, frame.term.rows[y]);
      wrote := x + 1 >= |cells|;
    }

    /** A run of blanks and its trace. */
    method Flush(initialized: bool, frame: FrameState, y: int, cells: seq<Cell>, old_: seq<Cell>, x: nat, count: nat,
                 blank: Renditions, ghost o: Outset, ghost g: Trace)
      returns (ghost g': Trace)
      requires frame.Synced() && Follows(frame.behind, frame.cursorX, frame.cursorY, frame.term)
      requires 0 <= y < frame.term.height && |cells| == frame.term.width && CleanRow(cells)
      requires 0 < count <= x < |cells| <= |old_|
      requires BlankRun(cells, x - count, x, blank) && blank == Plain(blank.background)
      requires Allowed(frame.target, SetRendition(blank))
      requires Traced(g, initialized, frame.term.rows[y], cells, old_, x - count)
      requires Apt(o, g, frame.behind, initialized, frame.cursorX, frame.cursorY, y, x - count)
      requires frame.cursorX == |cells| ==> frame.cursorY < y
      modifies frame
      ensures frame.Synced() && Follows(frame.behind, frame.cursorX, frame.cursorY, frame.term)
      ensures OnlyRow(old(frame.term), frame.term, y, frame.term.rows[y])
      ensures frame.behind == (old(frame.behind) && (g.Straight? ==> o.level && Near(o.c, x - count)) && !g.Mended?)
      ensures g' == FlushedTrace(g, x, count, blank, frame.behind)
      ensures Traced(g', initialized, frame.term.rows[y], cells, old_, x)
      ensures Apt(o, g', frame.behind, initialized, frame.cursorX, frame.cursorY, y, x)
      ensures frame.cursorX < |cells| && frame.cursorY == y && cells[x - count].contents.Empty?
    {
      hide Run, Painted, Step, Traced, CleanRow, Follows, FullRegion, Allowed, FrameState.Recorded;
      TracePositive(g, initialized, frame.term.rows[y], cells, old_, x - count);
      AptMove(o, g, frame.behind, initialized, frame.cursorX, frame.cursorY, y, x - count);
      ghost var row := frame.term.rows[y];
      ghost var cell := FlushBlanks(frame, y, x, count, blank);
      TraceBlank(g, initialized, row, cells, old_, x - count, count, cell, frame.behind);
      TraceEnd(Drawn(g, x - count, frame.behind), initialized, frame.term.rows[y], cells, old_, x);
      g' := FlushedTrace(g, x, count, blank, frame.behind);
    }

    /** A character and its trace. */
    method Draw(initialized: bool, frame: FrameState, y: int, cells: seq<Cell>, old_: seq<Cell>, x: nat, ghost blank: Renditions,
                ghost o: Outset, ghost g: Trace)
      returns (ghost g': Trace)
      requires frame.Synced() && Follows(frame.behind, frame.cursorX, frame.cursorY, frame.term)
      requires 0 <= y < frame.term.height && |cells| == frame.term.width
      requires x < |cells| <= |old_| && CellKnown(frame.target, cells[x]) && !cells[x].contents.Empty?
      requires Traced(g, initialized, frame.term.rows[y], cells, old_, x)
      requires Apt(o, g, frame.behind, initialized, frame.cursorX, frame.cursorY, y, x)
      requires Midway(o, cells, old_, x, g, frame.behind)
      requires frame.cursorX == |cells| ==> frame.cursorY < y
      modifies frame
      ensures frame.Synced() && Follows(frame.behind, frame.cursorX, frame.cursorY, frame.term)
      ensures OnlyRow(old(frame.term), frame.term, y, frame.term.rows[y])
      ensures Traced(g', initialized, frame.term.rows[y], cells, old_, x + 1)
      ensures Apt(o, g', frame.behind, initialized, frame.cursorX, frame.cursorY, y, x + 1)
      ensures Foretold(o, cells, old_, x + 1, 0, blank, g', frame.behind, frame.cursorX)
      ensures frame.cursorX == x + 1 && frame.cursorY == y
    {
      hide Run, Painted, Step, Traced, CleanRow, Follows, FullRegion, Allowed, Foretold, Midway, FrameState.Recorded;
      TracePositive(g, initialized, frame.term.rows[y], cells, old_, x);
      AptMove(o, g, frame.behind, initialized, frame.cursorX, frame.cursorY, y, x);
      ghost var row := frame.term.rows[y];
      ghost var cell := DrawCell(frame, y, x, cells[x], cells[|cells| - 1].wrap, |cells|);
      ForetoldDraw(o, cells, old_, x, blank, g, old(frame.behind), frame.behind, frame.cursorX);
      TraceEnd(g, initialized, row, cells, old_, x);
      TracePaint(if Addressed(cells, x) then Ended(g, x) else g, initialized, row, cells, old_, x, 1, cell, frame.behind);
      g' := DrawnTrace(cells, g, x, frame.behind);
    }

    /** The trace after the blanks at the end of the row. */
    function EndTrace(g: Trace, x: nat, behind: bool, wrote: bool): Trace {
      if wrote then Drawn(g, x, behind) else if behind && !g.Mended? then Mended(Drawn(g, x, true).x0, x + 1, true) else g
    }

    /** The blanks at the end of the row, and the trace. */
    method Close(initialized: bool, frame: FrameState, y: int, cells: seq<Cell>, old_: seq<Cell>, count: nat,
                 blank: Renditions, ghost o: Outset, ghost g: Trace)
      returns (wrote: bool, ghost g': Trace)
      requires frame.Synced() && Follows(frame.behind, frame.cursorX, frame.cursorY, frame.term)
      requires 0 <= y < frame.term.height && |cells| == frame.term.width && CleanRow(cells)
      requires 0 < count <= |cells| <= |old_|
      requires BlankRun(cells, |cells| - count, |cells|, blank) && blank == Plain(blank.background)
      requires Allowed(frame.target, SetRendition(blank))
      requires Traced(g, initialized, frame.term.rows[y], cells, old_, |cells| - count)
      requires Apt(o, g, frame.behind, initialized, frame.cursorX, frame.cursorY, y, |cells| - count)
      requires Foretold(o, cells, old_, |cells|, count, blank, g, frame.behind, frame.cursorX) && (o.behind ==> 0 < o.c)
      requires frame.cursorX == |cells| ==> frame.cursorY < y
      modifies frame
      ensures frame.Synced() && Follows(frame.behind, frame.cursorX, frame.cursorY, frame.term)
      ensures OnlyRow(old(frame.term), frame.term, y, frame.term.rows[y])
      ensures Traced(g', initialized, frame.term.rows[y], cells, old_, |cells|)
      ensures Reached(o, cells, old_, g', frame.behind, frame.cursorX)
      ensures frame.cursorY == y && (frame.cursorX == |cells| <==> wrote)
      ensures wrote == (cells[|cells| - 1].wrap || !CanUseErase(blank))
      ensures frame.behind ==> o.level
    {
      hide Run, Painted, Step, Traced, CleanRow, Follows, FullRegion, Allowed, Foretold, Reached, FrameState.Recorded;
      ghost var x := |cells| - count;
      TracePositive(g, initialized, frame.term.rows[y], cells, old_, x);
      AptMove(o, g, frame.behind, initialized, frame.cursorX, frame.cursorY, y, x);
      ghost var row := frame.term.rows[y];
      ghost var cell;
      wrote, cell := EndRow(frame, y, |cells|, count, blank, cells[|cells| - 1].wrap);
      if wrote || !frame.behind {
        TraceBlank(g, initialized, row, cells, old_, x, count, cell, frame.behind);
      } else {
        BlankLooks(cells, x, blank, cell);
        TraceErase(g, row, cells, old_, x, cell);
      }
      ReachedClose(o, cells, old_, count, blank, g, old(frame.behind), old(frame.cursorX), frame.behind, wrote);
      g' := EndTrace(g, x, frame.behind, wrote);
    }

    /** At the end of the row, the trace is the one foretold. */
    ghost predicate Reached(o: Outset, cells: seq<Cell>, old_: seq<Cell>, g: Trace, behind: bool, cx: int) {
      && 0 < |cells| <= |old_|
      && (o.behind && o.level ==> behind == (RowRest(cells, old_, o.c) != -1) && (behind ==> cx == RowRest(cells, old_, o.c)))
      && (!o.behind ==> g.Straight? && !behind)
      && (o.behind ==> Ended(g, |cells|) == if o.level then RowTrace(cells, old_, o.c) else Straight)
      && (o.behind && FirstChange(cells, old_, 0) == |cells| ==> behind)
      && (o.behind && !o.level && behind ==> FirstChange(cells, old_, 0) == |cells|)
    }

    lemma ReachedClose(o: Outset, cells: seq<Cell>, old_: seq<Cell>, count: nat, blank: Renditions, g: Trace, behind: bool,
                       cx: int, after: bool, wrote: bool)
      requires Foretold(o, cells, old_, |cells|, count, blank, g, behind, cx) && 0 < count && (o.behind ==> 0 < o.c)
      requires cells[|cells| - count].contents.Empty?
      requires after == (behind && (g.Straight? ==> o.level && Near(o.c, |cells| - count)) && !g.Mended?)
      requires wrote == (cells[|cells| - 1].wrap || !CanUseErase(blank))
      ensures Reached(o, cells, old_, EndTrace(g, |cells| - count, after, wrote), after,
                if wrote then |cells| else |cells| - count)
      ensures after ==> o.level
    {
    }

    lemma ReachedEnd(o: Outset, cells: seq<Cell>, old_: seq<Cell>, blank: Renditions, g: Trace, behind: bool, cx: int)
      requires Foretold(o, cells, old_, |cells|, 0, blank, g, behind, cx) && (o.behind ==> 0 < o.c)
      requires (g.Straight? && behind ==> cx == o.c) && (g.Apart? ==> cx == |cells|)
      ensures Reached(o, cells, old_, g, behind, cx)
    {
    }

    /** The loop over the cells of row `y`, from column `from` on, and the blanks left at its end. */
    method PutCells(initialized: bool, frame: FrameState, y: int, cells: seq<Cell>, old_: seq<Cell>, from: nat,
                    ghost o: Outset)
      returns (wrote: bool)
      requires frame.Synced() && Follows(frame.behind, frame.cursorX, frame.cursorY, frame.term)
      requires 0 <= y < frame.term.height && 0 < |cells| == frame.term.width && CleanRow(cells)
      requires RowKnown(frame.target, cells)
      requires from <= |cells| <= |old_|
      requires o == Outset(frame.behind, frame.cursorY == y, frame.cursorX)
      requires o.behind ==> initialized && from == 0 && 0 < o.c
      requires Progress(initialized, frame.term.rows[y], cells, old_, from)
      requires frame.cursorX == |cells| ==> frame.cursorY < y || (from == |cells| && frame.cursorY == y)
      modifies frame
      ensures frame.Synced() && Follows(frame.behind, frame.cursorX, frame.cursorY, frame.term)
      ensures OnlyRow(old(frame.term), frame.term, y, frame.term.rows[y])
      ensures SameLooks(frame.term.rows[y], cells) <==> (o.behind && o.level ==> RowRight(cells, old_, o.c))
      ensures o.behind && o.level ==> Traced(RowTrace(cells, old_, o.c), true, frame.term.rows[y], cells, old_, |cells|)
      ensures !o.behind ==> !frame.behind
      ensures o.behind && o.level
          ==> frame.behind == (RowRest(cells, old_, o.c) != -1) && (frame.behind ==> frame.cursorX == RowRest(cells, old_, o.c))
      ensures o.behind && FirstChange(cells, old_, 0) == |cells| ==> frame.behind
      ensures o.behind && !o.level && frame.behind
          ==> FirstChange(cells, old_, 0) == |cells| && frame.cursorX == o.c
      ensures wrote == LastWritten(initialized, cells, old_, from)
      ensures wrote ==> frame.cursorX == |cells| && frame.cursorY == y
      ensures !wrote && frame.cursorX == |cells| ==> frame.cursorY < y || (from == |cells| && frame.cursorY == y)
      ensures !wrote && frame.cursorX == |cells| ==> old(frame.cursorX) == |cells|
    {
      hide Run, Painted, Step, Progress, Traced, BlankRun, CleanRow, SameLooks, Halfway, Follows, FullRegion, RunOpen, LastDrawn,
        RowKnown, Allowed, Foretold, Reached, RowRight, RowRest, RowTrace, FirstChange, FrameState.Recorded;
      var x, count := from, 0;
      var blank := Plain(0);
      wrote := false;
      ghost var g := Straight;
      ghost var base := frame.term;
      assert base.rows == base.rows[y := base.rows[y]];
      assert Traced(g, initialized, frame.term.rows[y], cells, old_, from) by { TraceStart(initialized, frame.term.rows[y], cells, old_, from); }
      HalfwayStart(initialized, cells, old_, from, blank);
      ForetoldStart(o, cells, old_, from, blank);
      while x < |cells|
        invariant frame.Synced() && Follows(frame.behind, frame.cursorX, frame.cursorY, frame.term)
        invariant frame.term.width == base.width && frame.term.height == base.height
        invariant OnlyRow(base, frame.term, y, frame.term.rows[y])
        invariant from <= x <= |cells| && 0 <= count <= x
        invariant Halfway(initialized, cells, old_, from, x, count, blank, wrote)
        invariant 0 < count ==> Allowed(frame.target, SetRendition(blank))
        invariant Traced(g, initialized, frame.term.rows[y], cells, old_, x - count)
        invariant Apt(o, g, frame.behind, initialized, frame.cursorX, frame.cursorY, y, x - count)
        invariant Foretold(o, cells, old_, x, count, blank, g, frame.behind, frame.cursorX)
        invariant wrote ==> x == |cells| && frame.cursorX == |cells| && frame.cursorY == y && count == 0
        invariant !wrote && frame.cursorX == |cells| ==> frame.cursorY < y || (from == |cells| && frame.cursorY == y)
        invariant !wrote && frame.cursorX == |cells| ==> old(frame.cursorX) == |cells|
      {
        ghost var before := frame.term;
        count, blank, wrote, g := PutCell(initialized, frame, y, cells, old_, from, x, count, blank, o, g);
        OnlyRowTwice(base, before, frame.term, y, frame.term.rows[y]);
        x := x + 1;
      }
      HalfwayRun(initialized, cells, old_, from, x, count, blank, wrote);
      if 0 < count {
        ghost var before := frame.term;
        LastBlank(cells, x - count, blank);
        wrote, g := Close(initialized, frame, y, cells, old_, count, blank, o, g);
        OnlyRowTwice(base, before, frame.term, y, frame.term.rows[y]);
      } else {
        ReachedEnd(o, cells, old_, blank, g, frame.behind, frame.cursorX);
      }
      ReachedMeans(o, initialized, frame.term.rows[y], cells, old_, g, frame.behind, frame.cursorX);
    }

    lemma ReachedMeans(o: Outset, known: bool, row: seq<Cell>, cells: seq<Cell>, old_: seq<Cell>, g: Trace, behind: bool, cx: int)
      requires Reached(o, cells, old_, g, behind, cx) && Traced(g, known, row, cells, old_, |cells|)
      ensures o.behind && o.level ==> Traced(RowTrace(cells, old_, o.c), known, row, cells, old_, |cells|)
      ensures o.behind && o.level
          ==> behind == (RowRest(cells, old_, o.c) != -1) && (behind ==> cx == RowRest(cells, old_, o.c))
      ensures SameLooks(row, cells) <==> (o.behind && o.level ==> RowRight(cells, old_, o.c))
      ensures !o.behind ==> !behind
      ensures o.behind && FirstChange(cells, old_, 0) == |cells| ==> behind
      ensures o.behind && !o.level && behind ==> FirstChange(cells, old_, 0) == |cells| && g.Straight?
    {
      hide Traced, SameLooks, Lucky, ApartEnd;
      TraceEnd(g, known, row, cells, old_, |cells|);
      TraceDone(Ended(g, |cells|), known, row, cells, old_);
      StraightLucky(cells, old_);
    }

    /** Whether putting a row writes its last column. `same` says that both frames hold the same row object, and
        `forced` that the first cell is written anyway because the cursor wraps into the row. */
    predicate RowWritten(initialized: bool, cells: seq<Cell>, old_: seq<Cell>, same: bool, forced: bool)
      requires 0 < |cells| <= |old_|
    {
      !(initialized && same) && LastWritten(initialized, cells, old_, if forced then 1 else 0)
    }

    /** Writes the first cell where the cursor gets to by wrapping. */
    method PutForced(initialized: bool, frame: FrameState, y: int, cells: seq<Cell>, old_: seq<Cell>)
      requires frame.Synced() && Hanging(frame.cursorX, frame.cursorY, frame.term) && frame.cursorY == y && !frame.behind
      requires 0 < |cells| == frame.term.width && |cells| <= |old_| && RowKnown(frame.target, cells)
      requires initialized ==> SameLooks(frame.term.rows[y], old_)
      modifies frame
      ensures frame.Synced() && Tracked(frame.cursorX, frame.cursorY, frame.term) && !frame.behind
      ensures frame.term.width == old(frame.term).width && frame.term.height == old(frame.term).height
      ensures Progress(initialized, frame.term.rows[y], cells, old_, 1)
      ensures OthersLook(old(frame.term).rows, frame.term.rows, y)
      ensures frame.cursorX == 1 && frame.cursorY == y
    {
      hide Run, Painted, Step, Progress, SetWrap, SameLooks, RowKnown, Allowed, FrameState.Recorded;
      CellOfRow(frame.target, cells, 0);
      ghost var rows := frame.term.rows;
      ProgressNone(initialized, rows[y], cells, old_);
      frame.UpdateRendition(cells[0].rendition, false);
      ghost var drawn := frame.AppendWrapped(cells[0]);
      PaintProgress(initialized, rows[y], cells, old_, 0, 1, drawn);
      WrapUnseen(rows, y - 1, y, Painted(rows[y], 0, 1, drawn));
    }

    /** Goes to the next row after the last column of a row that does not wrap. */
    method NextRow(frame: FrameState)
      requires frame.Synced() && Tracked(frame.cursorX, frame.cursorY, frame.term) && !frame.behind
      requires frame.cursorX == frame.term.width && frame.cursorY < frame.term.height - 1
      modifies frame
      ensures frame.Synced() && Tracked(frame.cursorX, frame.cursorY, frame.term) && !frame.behind
      ensures frame.term == At(old(frame.term), old(frame.cursorY) + 1, 0)
      ensures frame.cursorX == 0 && frame.cursorY == old(frame.cursorY) + 1
    {
      hide Run, Grid, DeleteLines, Allowed, Worded;
      Moves(frame.target, 0, 0);
      frame.Append(CarriageReturn);
      frame.Append(LineFeed);
      frame.cursorX := 0;
      frame.cursorY := frame.cursorY + 1;
    }

    /** What a bottom row shows and where the cursor is, when the cursor was behind and tracked in column `c`. */
    ghost predicate Bottom(row: seq<Cell>, behind: bool, x: int, cells: seq<Cell>, old_: seq<Cell>, c: int) {
      && 0 < |cells| <= |old_|
      && Traced(RowTrace(cells, old_, c), true, row, cells, old_, |cells|)
      && behind == (RowRest(cells, old_, c) != -1)
      && (behind ==> x == RowRest(cells, old_, c))
    }

    /** Writes row `y`. The result says whether the next row starts by wrapping. */
    method PutRow(initialized: bool, frame: FrameState, f: Frame, y: int, oldRow: Row, wrap: bool)
      returns (wrapNext: bool)
      requires FrameOk(f) && 0 <= y < f.height && f.width <= |oldRow.cells|
      requires frame.Synced() && frame.term.width == f.width && frame.term.height == f.height && frame.target == f
      requires initialized ==> SameLooks(frame.term.rows[y], oldRow.cells)
      requires Resting(frame.behind, frame.cursorX, frame.cursorY, frame.term, y, wrap) && (frame.behind ==> initialized)
      modifies frame
      ensures frame.Synced() && frame.term.width == f.width && frame.term.height == f.height
      ensures |f.rows[y].cells| == f.width
      ensures SameLooks(frame.term.rows[y], f.rows[y].cells)
         <==> (old(frame.behind) && y == f.height - 1 ==> RowRight(f.rows[y].cells, oldRow.cells, old(frame.cursorX)))
      ensures OthersLook(old(frame.term).rows, frame.term.rows, y)
      ensures !old(frame.behind) ==> !frame.behind
      ensures old(frame.behind) && y == f.height - 1
          ==> Bottom(frame.term.rows[y], frame.behind, frame.cursorX, f.rows[y].cells, oldRow.cells, old(frame.cursorX))
      ensures y < f.height - 1 ==> frame.behind == (old(frame.behind) && FirstChange(f.rows[y].cells, oldRow.cells, 0) == f.width)
      ensures y < f.height - 1 && frame.behind ==> frame.cursorX == old(frame.cursorX)
      ensures wrapNext ==> y < f.height - 1
      ensures Resting(frame.behind, frame.cursorX, frame.cursorY, frame.term, y + 1, wrapNext)
      ensures var written := RowWritten(initialized, f.rows[y].cells, oldRow.cells, f.rows[y] == oldRow, wrap);
              && wrapNext == (written && y < f.height - 1 && f.rows[y].cells[f.width - 1].wrap)
              && (1 < f.width && (old(frame.cursorX) < f.width || wrap) && !wrapNext
                  ==> (frame.cursorX == f.width <==> written && y == f.height - 1))
      ensures frame.cursorX == f.width && 1 < f.width && (old(frame.cursorX) < f.width || wrap) ==> frame.cursorY == y
    {
      hide Run, Step, Progress, SameLooks, OthersLook, CleanRow, RowsOk, LastWritten, RowKnown, RowRight, RowRest, RowTrace,
        Traced, FirstChange, Near, FrameState.Recorded;
      var row := f.rows[y];
      RowOk(f.rows, f.width, f.height, y);
      OwnRow(f, y);
      ghost var rows := frame.term.rows;
      var x := 0;
      if wrap {
        PutForced(initialized, frame, y, row.cells, oldRow.cells);
        x := 1;
      } else {
        ProgressNone(initialized, rows[y], row.cells, oldRow.cells);
      }
      OthersSame(rows);
      if initialized && row == oldRow {
        ProgressSame(frame.term.rows[y], row.cells, x);
        SameRowRight(frame.term.rows[y], row.cells, frame.cursorX);
        return false;
      }
      ghost var between := frame.term.rows;
      ghost var o := Outset(frame.behind, frame.cursorY == y, frame.cursorX);
      var wrote := PutCells(initialized, frame, y, row.cells, oldRow.cells, x, o);
      OthersStill(rows, between, y, frame.term.rows[y]);
      if !(wrote && y < f.height - 1) {
        return false;
      }
      if row.cells[f.width - 1].wrap {
        frame.cursorX := 0;
        frame.cursorY := frame.cursorY + 1;
        return true;
      }
      NextRow(frame);
      return false;
    }

    lemma SameRowRight(row: seq<Cell>, cells: seq<Cell>, c: int)
      requires 0 < |cells| && SameLooks(row, cells)
      ensures FirstChange(cells, cells, 0) == |cells| && RowRight(cells, cells, c) && RowRest(cells, cells, c) == c
      ensures Traced(RowTrace(cells, cells, c), true, row, cells, cells, |cells|)
    {
      hide ApartEnd;
    }
  }

  lemma StraightLucky(want: seq<Cell>, old_: seq<Cell>)
    ensures Lucky(Straight, want, old_)
  {
  }

  lemma TraceStart(known: bool, row: seq<Cell>, want: seq<Cell>, old_: seq<Cell>, done: nat)
    requires Progress(known, row, want, old_, done)
    ensures Traced(Straight, known, row, want, old_, done)
  {
  }

  lemma TracePositive(g: Trace, known: bool, row: seq<Cell>, want: seq<Cell>, old_: seq<Cell>, done: nat)
    requires Traced(g, known, row, want, old_, done)
    ensures !g.Straight? ==> 0 < done && known
  {
  }

  lemma BlankLooks(want: seq<Cell>, from: nat, blank: Renditions, cell: Cell)
    requires from <= |want| && BlankRun(want, from, |want|, blank) && CleanRow(want) && LookOf(cell) == Blank(blank)
    ensures forall j | from <= j < |want| :: LookOf(want[j]) == LookOf(cell)
  {
  }

  /** What holds between two rows: the cursor hangs after the last column, or it is followed and not after the last
      column of a row still to be written. */
  ghost predicate Resting(behind: bool, x: int, cy: int, s: Screen, y: int, wrap: bool) {
    if wrap then Hanging(x, cy, s) && cy == y && !behind else Follows(behind, x, cy, s) && (x == s.width ==> cy < y)
  }

  lemma RowOk(rows: seq<Row>, width: nat, height: nat, y: nat)
    requires RowsOk(rows, width, height) && y < height
    ensures |rows[y].cells| == width && RowClass(rows[y].cells) && CleanRow(rows[y].cells)
  {
  }
}
