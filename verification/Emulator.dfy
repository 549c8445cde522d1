/** The emulator as it is updated in place, checked against the functions of `Consoles`. */
module Emulators {
  import opened Options
  import opened Terminal
  import opened Dispatching
  import opened Graphics
  import opened Consoles
  import opened SharedRows
  import EscapeParser
  import Machines

  /** The drawing state, a value that is copied as a whole. */
  datatype DrawState = DrawState(
    width: nat, height: nat, cursorCol: int, cursorRow: int, combiningCharCol: int, combiningCharRow: int,
    defaultTabs: bool, tabs: seq<bool>, scrollingRegionTopRow: int, scrollingRegionBottomRow: int,
    renditions: Renditions, save: Saved, nextPrintWillWrap: bool, originMode: bool, autoWrapMode: bool,
    insertMode: bool, cursorVisible: bool)

  function NewDrawState(width: nat, height: nat): DrawState {
    DrawState(width, height, 0, 0, 0, 0, true, DefaultTabs(0, width), 0, height - 1, Plain(0), NO_SAVE, false, false, true,
      false, true)
  }

  function ConsoleOf(ds: DrawState, rows: seq<seq<Cell>>): Console {
    Console(Screen(ds.width, ds.height, rows, ds.cursorRow, ds.cursorCol, ds.nextPrintWillWrap,
                   ds.scrollingRegionTopRow, ds.scrollingRegionBottomRow, ds.renditions, ds.cursorVisible),
            ds.combiningCharCol, ds.combiningCharRow, ds.tabs, ds.defaultTabs, ds.save, ds.originMode, ds.autoWrapMode,
            ds.insertMode)
  }

  method Within(x: int, low: int, high: int) returns (y: int)
    requires low <= high
    ensures y == Clamp(x, low, high)
  {
    y := x;
    if y < low {
      y := low;
    }
    if y > high {
      y := high;
    }
  }

  method Lesser(a: int, count: nat) returns (n: nat)
    requires 0 <= a
    ensures n == if count < a then count else a
  {
    n := a;
    if count < n {
      n := count;
    }
  }

  method Region(top: int, bottom: int, height: int) returns (first: int, last: int)
    ensures first == RegionTop(top) && last == RegionBottom(top, bottom, height)
    ensures top < height && 0 < height ==> 0 <= first <= last < height
  {
    first, last := top, bottom;
    if first < 0 {
      first := 0;
    }
    if last >= height {
      last := height - 1;
    }
    if last < first {
      last := first;
    }
  }

  method InsertInto(before: seq<Cell>, col: nat, cells: nat, background: nat) returns (row: seq<Cell>)
    requires col < |before|
    ensures row == InsertCells(before, col, cells, background)
  {
    row := before;
    for i := 0 to cells
      invariant row == InsertCells(before, col, i, background)
    {
      row := row[..col] + [Reset(background)] + row[col..|row| - 1];
    }
  }

  method DeleteFrom(before: seq<Cell>, col: nat, cells: nat, background: nat) returns (row: seq<Cell>)
    requires col < |before|
    ensures row == DeleteCells(before, col, cells, background)
  {
    row := before;
    for i := 0 to cells
      invariant row == DeleteCells(before, col, i, background)
    {
      row := row[..col] + row[col + 1..] + [Reset(background)];
    }
  }

  /** The character's cell, and the cell that a wide one overlaps. */
  method WriteInto(before: seq<Cell>, col: nat, ch: char, wide: bool, rendition: Renditions) returns (row: seq<Cell>)
    requires col < |before|
    ensures row == Written(before, col, ch, wide, rendition)
  {
    row := before[col := Cell(Glyph(ch), rendition, wide, false, false)];
    if wide && col + 1 < |before| {
      row := row[col + 1 := Reset(rendition.background)];
    }
  }

  /** The framebuffers of a pool other than `f`, by their rows. */
  ghost function OthersOf(heap: map<nat, Row>, frames: seq<seq<nat>>, f: nat): seq<seq<Row>> {
    seq(|frames|, g requires 0 <= g < |frames| => if g == f || !Known(heap, frames[g]) then [] else RowsOf(heap, frames[g]))
  }

  /** The emulator draws in framebuffer `frame` of a pool, whose rows other framebuffers may hold too. */
  class Emulator {
    const dispatch: Dispatcher
    const pool: Pool
    const frame: nat
    var ds: DrawState

    ghost function Rows(): seq<Row>
      reads pool
    {
      if pool.Valid() && frame < |pool.frames| then pool.Rows(frame) else []
    }

    /** What the other framebuffers of the pool look like. */
    ghost function Aside(): seq<seq<Row>>
      reads pool
    {
      OthersOf(pool.heap, pool.frames, frame)
    }

    ghost function View(): Console
      reads this`ds, pool
    {
      ConsoleOf(ds, Rows())
    }

    constructor (pool: Pool, width: nat, height: nat)
      requires pool.Valid() && 0 < width && 0 < height
      modifies pool
      ensures this.pool == pool && fresh(dispatch) && dispatch.Valid()
      ensures forall state :: AsMachine(state) == Machines.Machine(state, [], [], [], Fresh(width, height))
      ensures pool.Valid() && frame == old(|pool.frames|) && |pool.frames| == frame + 1
      ensures forall g | 0 <= g < frame :: pool.Rows(g) == old(pool.Rows(g))
    {
      this.pool, frame := pool, |pool.frames|;
      ds := NewDrawState(width, height);
      dispatch := new Dispatcher();
      new;
      pool.NewFrame(width, height);
    }

    /** A copy of an emulator shares all rows with it. */
    constructor Copy(other: Emulator)
      requires other.Rows() != [] && other.dispatch.Valid()
      modifies other.pool
      ensures pool == other.pool && frame == old(|other.pool.frames|) != other.frame && |pool.frames| == frame + 1 && pool.Valid()
      ensures fresh(dispatch) && dispatch.Valid() && View() == old(other.View()) && other.View() == old(other.View())
      ensures dispatch.params == other.dispatch.params && dispatch.dispatchChars == other.dispatch.dispatchChars
      ensures dispatch.oscString == other.dispatch.oscString
      ensures forall g | 0 <= g < frame :: pool.Rows(g) == old(other.pool.Rows(g))
    {
      pool, frame, ds := other.pool, |other.pool.frames|, other.ds;
      dispatch := new Dispatcher.Copy(other.dispatch);
      new;
      pool.CopyFrame(other.frame);
    }

    // -------------------------------------------------------------- rows

    function RowAt(y: nat): (row: Row)
      requires y < |Rows()|
      reads pool
      ensures row == Rows()[y]
    {
      pool.heap[pool.frames[frame][y]]
    }

    method PutRow(y: nat, row: Row)
      requires y < |Rows()|
      modifies pool
      ensures Aside() == old(Aside()) && Rows() == old(Rows())[y := row]
    {
      pool.SetRow(frame, y, row);
      SameAside(old(pool.heap), old(pool.frames));
    }

    method PutCell(y: nat, x: nat, cell: Cell)
      requires y < |Rows()| && x < |Rows()[y]|
      modifies pool
      ensures Aside() == old(Aside()) && Rows() == old(Rows()[y := Rows()[y][x := cell]])
    {
      pool.SetCell(frame, y, x, cell);
      SameAside(old(pool.heap), old(pool.frames));
    }

    /** Takes rows out and puts blank ones in below. */
    method ShiftUp(first: nat, last: int, n: nat, blank: Row)
      requires 0 < first + n <= last + 1 <= |Rows()|
      modifies pool
      ensures Aside() == old(Aside()) && Rows() == ScrollUp(old(Rows()), first, last, n, blank)
    {
      hide ScrollUp;
      pool.DeleteLines(frame, first, last, n, blank);
      SameAside(old(pool.heap), old(pool.frames));
    }

    /** Takes rows out below and puts blank ones in. */
    method ShiftDown(first: nat, last: int, n: nat, blank: Row)
      requires 0 < first + n <= last + 1 <= |Rows()|
      modifies pool
      ensures Aside() == old(Aside()) && Rows() == ScrollDown(old(Rows()), first, last, n, blank)
    {
      hide ScrollDown;
      pool.InsertLines(frame, first, last, n, blank);
      SameAside(old(pool.heap), old(pool.frames));
    }

    lemma SameAside(heap: map<nat, Row>, frames: seq<seq<nat>>)
      requires pool.Valid() && |frames| == |pool.frames| && forall g | 0 <= g < |frames| :: Known(heap, frames[g])
      requires forall g | 0 <= g < |frames| && g != frame :: pool.Rows(g) == RowsOf(heap, frames[g])
      ensures Aside() == OthersOf(heap, frames, frame)
    {
      assert forall g | 0 <= g < |frames| :: Known(pool.heap, pool.frames[g]) && Known(heap, frames[g]);
    }

    /** The machine that the emulator is, for a state of the parser. */
    ghost function AsMachine(state: EscapeParser.State): Machines.Machine
      reads this, dispatch, pool
    {
      Machines.Machine(state, dispatch.params, dispatch.dispatchChars, dispatch.oscString, View())
    }

    // -------------------------------------------------------------- cursor

    method SnapCursorToBorder()
      requires 0 < ds.width && 0 <= ds.scrollingRegionTopRow <= ds.scrollingRegionBottomRow < ds.height
      modifies this`ds
      ensures View() == Snapped(old(View()))
    {
      hide Clamp, Emulator.Rows;
      var limitTop := if ds.originMode then ds.scrollingRegionTopRow else 0;
      var limitBottom := if ds.originMode then ds.scrollingRegionBottomRow else ds.height - 1;
      var row := Within(ds.cursorRow, limitTop, limitBottom);
      var col := Within(ds.cursorCol, 0, ds.width - 1);
      ds := ds.(cursorRow := row, cursorCol := col);
    }

    method NewGrapheme()
      modifies this`ds
      ensures View() == Consoles.NewGrapheme(old(View()))
    {
      ds := ds.(combiningCharCol := ds.cursorCol, combiningCharRow := ds.cursorRow);
    }

    method ForgetWrap()
      modifies this`ds
      ensures View() == Settled(old(View()))
    {
      ds := ds.(nextPrintWillWrap := false);
    }

    method MoveRowTo(n: int, relative: bool)
      requires Shape(View().screen)
      modifies this`ds
      ensures View() == ToRow(old(View()), n, relative)
    {
      hide Grid, Snapped, Consoles.NewGrapheme, Settled, Emulator.Rows;
      if relative {
        ds := ds.(cursorRow := ds.cursorRow + n);
      } else {
        ds := ds.(cursorRow := n + if ds.originMode then ds.scrollingRegionTopRow else 0);
      }
      SnapCursorToBorder();
      NewGrapheme();
      ForgetWrap();
    }

    method MoveColTo(n: int, relative: bool, implicit: bool)
      requires Shape(View().screen) && (implicit ==> relative)
      modifies this`ds
      ensures View() == if implicit then Advance(old(View()), n) else ToCol(old(View()), n, relative)
    {
      hide Grid, Snapped, Settled, Emulator.Rows;
      if implicit {
        NewGrapheme();
      }
      var col := if relative then ds.cursorCol + n else n;
      ds := ds.(cursorCol := col);
      if implicit {
        ds := ds.(nextPrintWillWrap := col >= ds.width);
      }
      SnapCursorToBorder();
      if !implicit {
        NewGrapheme();
        ForgetWrap();
      }
    }

    method GoHome()
      requires Shape(View().screen)
      modifies this`ds
      ensures View() == Home(old(View()))
    {
      hide Grid, Clean, ToRow, ToCol, Emulator.Rows;
      ToRowHeld(View(), 0, false);
      MoveRowTo(0, false);
      MoveColTo(0, false, false);
    }

    // -------------------------------------------------------------- lines

    method DeleteLine(row: int, count: nat)
      requires Shape(View().screen)
      modifies pool
      ensures Aside() == old(Aside())
      ensures View() == old(View()).(screen := DeleteLines(old(View()).screen, row, count))
    {
      hide ScrollUp, BlankRow, Grid, Clean, Emulator.Rows, Emulator.Aside;
      if row < ds.scrollingRegionTopRow || row > ds.scrollingRegionBottomRow {
        return;
      }
      var scroll := Lesser(ds.scrollingRegionBottomRow + 1 - row, count);
      var blank := BlankRow(ds.width, ds.renditions.background);
      if scroll == 0 {
        ScrollNone(Rows(), row, ds.scrollingRegionBottomRow, blank);
        return;
      }
      ShiftUp(row, ds.scrollingRegionBottomRow, scroll, blank);
    }

    method InsertLine(beforeRow: int, count: nat)
      requires Shape(View().screen)
      modifies pool
      ensures Aside() == old(Aside())
      ensures View() == old(View()).(screen := InsertLines(old(View()).screen, beforeRow, count))
    {
      hide ScrollDown, BlankRow, Grid, Clean, Emulator.Rows, Emulator.Aside;
      if beforeRow < ds.scrollingRegionTopRow || beforeRow > ds.scrollingRegionBottomRow + 1 {
        return;
      }
      var scroll := Lesser(ds.scrollingRegionBottomRow + 1 - beforeRow, count);
      var blank := BlankRow(ds.width, ds.renditions.background);
      if scroll == 0 {
        InsertNone(Rows(), beforeRow, ds.scrollingRegionBottomRow, blank);
        return;
      }
      ShiftDown(beforeRow, ds.scrollingRegionBottomRow, scroll, blank);
    }

    method Scroll(n: int)
      requires Shape(View().screen)
      modifies pool
      ensures Aside() == old(Aside())
      ensures View() == old(View()).(screen := ScrollBy(old(View()).screen, n))
    {
      hide InsertLines, DeleteLines, Emulator.Rows, Emulator.Aside;
      if n >= 0 {
        DeleteLine(ds.scrollingRegionTopRow, n);
      } else {
        InsertLine(ds.scrollingRegionTopRow, -n);
      }
    }

    method MoveRowsAutoscroll(n: int)
      requires Shape(View().screen)
      modifies pool, this`ds
      ensures Aside() == old(Aside())
      ensures View() == Autoscroll(old(View()), n)
    {
      hide Grid, Clean, ScrollBy, ToRow, Emulator.Rows, Emulator.Aside;
      if ds.cursorRow < ds.scrollingRegionTopRow || ds.cursorRow > ds.scrollingRegionBottomRow {
        MoveRowTo(n, true);
        return;
      }
      if ds.cursorRow + n > ds.scrollingRegionBottomRow {
        ScrollThenUp(ds.cursorRow + n - ds.scrollingRegionBottomRow);
      } else if ds.cursorRow + n < ds.scrollingRegionTopRow {
        ScrollThenUp(ds.cursorRow + n - ds.scrollingRegionTopRow);
      }
      MoveRowTo(n, true);
    }

    method ScrollThenUp(n: int)
      requires Shape(View().screen)
      modifies pool, this`ds
      ensures Aside() == old(Aside())
      ensures View() == ToRow(old(View()).(screen := ScrollBy(old(View()).screen, n)), -n, true) && Shape(View().screen)
    {
      hide Grid, Clean, ScrollBy, ToRow, Emulator.Rows, Emulator.Aside;
      ScrolledHeld(View(), n);
      Scroll(n);
      ToRowHeld(View(), -n, true);
      MoveRowTo(-n, true);
    }

    // -------------------------------------------------------------- cells

    /** Resets the cells of row `y` from column `start` to `end`. */
    method ClearLine(y: int, start: int, end: int)
      requires Shape(View().screen) && 0 <= y < ds.height && 0 <= start <= end + 1 <= ds.width
      modifies pool
      ensures Aside() == old(Aside())
      ensures View() == old(View()).(screen := Consoles.ClearLine(old(View()).screen, y, start, end))
    {
      hide Painted, Emulator.Rows, Emulator.Aside;
      ghost var before := Rows()[y];
      ghost var cell := Reset(ds.renditions.background);
      PaintedNone(before, start, cell);
      assert Rows() == Rows()[y := before];
      for col := start to end + 1
        invariant start <= col && |Rows()| == ds.height && |Rows()[y]| == ds.width && Aside() == old(Aside())
        invariant Rows() == old(Rows())[y := Painted(before, start, col - start, cell)]
      {
        PaintedOneMore(before, start, col - start, cell);
        PutCell(y, col, Reset(ds.renditions.background));
      }
    }

    /** Resets rows `from` to before `to`. */
    method ResetRows(from: nat, to: nat)
      requires from <= to <= |Rows()|
      modifies pool
      ensures Aside() == old(Aside())
      ensures View() == old(View()).(screen := ClearRows(old(View()).screen, from, to))
    {
      hide BlankRow, Emulator.Rows, Emulator.Aside;
      var blank := BlankRow(ds.width, ds.renditions.background);
      for y := from to to
        invariant |Rows()| == |old(Rows())| && Aside() == old(Aside())
        invariant forall i | 0 <= i < |Rows()| :: Rows()[i] == if from <= i < y then blank else old(Rows())[i]
      {
        PutRow(y, blank);
      }
      assert Rows() == ClearRows(old(View()).screen, from, to).rows;
    }

    method InsertCharacters(cells: nat)
      requires Shape(View().screen)
      modifies pool
      ensures Aside() == old(Aside())
      ensures View() == InsertCellsAt(old(View()), cells)
    {
      hide InsertCells, Clean, Emulator.Rows, Emulator.Aside;
      var row := InsertInto(RowAt(ds.cursorRow), ds.cursorCol, cells, ds.renditions.background);
      PutRow(ds.cursorRow, row);
    }

    method DeleteCharacters(cells: nat)
      requires Shape(View().screen)
      modifies pool
      ensures Aside() == old(Aside())
      ensures View() == DeleteCellsAt(old(View()), cells)
    {
      hide DeleteCells, Clean, Emulator.Rows, Emulator.Aside;
      var row := DeleteFrom(RowAt(ds.cursorRow), ds.cursorCol, cells, ds.renditions.background);
      PutRow(ds.cursorRow, row);
    }

    /** `DECALN` */
    method FillWithE()
      requires Shape(View().screen)
      modifies pool
      ensures Aside() == old(Aside())
      ensures View() == Aligned(old(View()))
    {
      hide Emulator.Rows, Emulator.Aside;
      var cell := Cell(Glyph('E'), Plain(ds.renditions.background), false, false, false);
      for y := 0 to ds.height
        invariant |Rows()| == ds.height && (forall i | 0 <= i < ds.height :: |Rows()[i]| == ds.width) && Aside() == old(Aside())
        invariant forall i, j | 0 <= i < y && 0 <= j < ds.width :: Rows()[i][j] == cell
      {
        for x := 0 to ds.width
          invariant |Rows()| == ds.height && (forall i | 0 <= i < ds.height :: |Rows()[i]| == ds.width) && Aside() == old(Aside())
          invariant forall i, j | 0 <= i < y && 0 <= j < ds.width :: Rows()[i][j] == cell
          invariant forall j | 0 <= j < x :: Rows()[y][j] == cell
        {
          PutCell(y, x, cell);
        }
      }
      assert forall i | 0 <= i < ds.height :: Rows()[i] == seq(ds.width, _ => cell);
      assert Rows() == Aligned(old(View())).screen.rows;
    }

    // -------------------------------------------------------------- printing

    method BreakIfNeeded(wide: bool)
      requires Shape(View().screen)
      modifies pool, this`ds
      ensures Aside() == old(Aside())
      ensures View() == BreakLine(old(View()), wide)
    {
      hide Clean, ToCol, Autoscroll, Emulator.Rows, Emulator.Aside;
      if ds.autoWrapMode && ds.nextPrintWillWrap {
        RowHeld(View(), SetWrap(RowAt(ds.cursorRow)));
        PutRow(ds.cursorRow, SetWrap(RowAt(ds.cursorRow)));
        MoveColTo(0, false, false);
        MoveRowsAutoscroll(1);
      } else if ds.autoWrapMode && wide && ds.cursorCol == ds.width - 1 {
        RowHeld(View(), RowAt(ds.cursorRow)[ds.cursorCol := Reset(ds.renditions.background)]);
        PutCell(ds.cursorRow, ds.cursorCol, Reset(ds.renditions.background));
        MoveColTo(0, false, false);
        MoveRowsAutoscroll(1);
      }
    }

    method WriteChar(ch: char, wide: bool)
      requires Shape(View().screen)
      modifies pool
      ensures Aside() == old(Aside())
      ensures View() == old(View()).(screen := WithRow(old(View()).screen,
                PrintedRow(old(Rows())[ds.cursorRow], ds.cursorCol, ch, wide, ds.renditions, ds.insertMode)))
    {
      hide Clean, InsertCells, Written, Emulator.Rows, Emulator.Aside;
      var row := RowAt(ds.cursorRow);
      if ds.insertMode {
        row := InsertInto(row, ds.cursorCol, if wide then 2 else 1, ds.renditions.background);
      }
      row := WriteInto(row, ds.cursorCol, ch, wide, ds.renditions);
      PutRow(ds.cursorRow, row);
    }

    method PrintWidth(ch: char, wide: bool)
      requires Shape(View().screen)
      modifies pool, this`ds
      ensures Aside() == old(Aside())
      ensures View() == PrintWide(old(View()), ch, wide)
    {
      hide Clean, CleanRow, Grid, BreakLine, PrintedRow, Advance, WithRow, Emulator.Rows, Emulator.Aside;
      BreakHeld(View(), wide);
      BreakIfNeeded(wide);
      ghost var s := View().screen;
      PrintedClean(CursorRow(s), s.col, ch, wide, s.rendition, ds.insertMode);
      WithRowHeld(s, PrintedRow(CursorRow(s), s.col, ch, wide, s.rendition, ds.insertMode));
      WriteChar(ch, wide);
      MoveColTo(if wide then 2 else 1, true, true);
    }

    method Join(ch: char)
      requires Shape(View().screen) && Clean(Rows())
      modifies pool, this`ds
      ensures Aside() == old(Aside())
      ensures View() == Combine(old(View()), ch)
    {
      hide Full, Advance, Emulator.Rows, Emulator.Aside;
      if ds.combiningCharCol < 0 || ds.combiningCharRow < 0 || ds.combiningCharCol >= ds.width || ds.combiningCharRow >= ds.height {
        return;
      }
      var x, y := ds.combiningCharCol, ds.combiningCharRow;
      var cell := RowAt(y)[x];
      if cell.contents.Empty? {
        CombiningNotWide(View());
        assert !cell.wide;
        cell := cell.(fallback := true);
        AdvanceHeld(View(), 1);
        AdvanceRows(View(), 1);
        MoveColTo(1, true, true);
      }
      if !Full(cell.contents) {
        cell := cell.(contents := Appended(cell.contents, ch));
      }
      PutCell(y, x, cell);
    }

    method Print(ch: char, size: CharWidth)
      requires Shape(View().screen) && Clean(Rows())
      modifies pool, this`ds
      ensures Aside() == old(Aside())
      ensures View() == Consoles.Print(old(View()), ch, size)
    {
      hide Combine, PrintWide, Clean, Grid, Emulator.Rows, Emulator.Aside;
      match size
      case Unprintable =>
      case Combining => Join(ch);
      case Narrow => PrintWidth(ch, false);
      case Wide => PrintWidth(ch, true);
    }

    // -------------------------------------------------------------- tabs

    method GetNextTab(count: int) returns (col: int)
      requires Wf(View()) && count != 0
      ensures col == if count >= 0 then TabAfter(ds.tabs, ds.cursorCol + 1, count) else TabBefore(ds.tabs, ds.cursorCol - 1, -count)
    {
      hide Clean, Grid;
      var left := count;
      if count >= 0 {
        for i := ds.cursorCol + 1 to ds.width
          invariant 0 < left && TabAfter(ds.tabs, i, left) == TabAfter(ds.tabs, ds.cursorCol + 1, count)
        {
          if ds.tabs[i] {
            left := left - 1;
            if left == 0 {
              return i;
            }
          }
        }
        return -1;
      }
      var i := ds.cursorCol - 1;
      while i > 0
        invariant i < ds.cursorCol && left < 0 && TabBefore(ds.tabs, i, -left) == TabBefore(ds.tabs, ds.cursorCol - 1, -count)
      {
        if ds.tabs[i] {
          left := left + 1;
          if left == 0 {
            return i;
          }
        }
        i := i - 1;
      }
      return 0;
    }

    method Tabulate(count: int)
      requires Wf(View()) && count != 0
      modifies this`ds
      ensures View() == Tab(old(View()), count)
    {
      hide Clean, Grid, TabAfter, TabBefore, ToCol, Emulator.Rows;
      var col := GetNextTab(count);
      if col == -1 {
        col := ds.width - 1;
      }
      var wrap := ds.nextPrintWillWrap;
      MoveColTo(col, false, false);
      ds := ds.(nextPrintWillWrap := wrap);
    }

    method ClearTabStops(which: int)
      requires Wf(View())
      modifies this`ds
      ensures View() == ClearTabs(old(View()), which)
    {
      hide Clean, Grid, Emulator.Rows;
      if which == 0 {
        ds := ds.(tabs := ds.tabs[ds.cursorCol := false]);
      } else if which == 3 {
        var tabs := ds.tabs;
        for x := 0 to ds.width
          invariant |tabs| == ds.width && forall i | 0 <= i < x :: !tabs[i]
        {
          tabs := tabs[x := false];
        }
        assert tabs == seq(ds.width, _ => false);
        ds := ds.(defaultTabs := false, tabs := tabs);
      }
    }

    // -------------------------------------------------------------- modes

    method SetScrollingRegion(top: int, bottom: int)
      requires 0 < ds.width && 0 < ds.height && top < ds.height
      modifies this`ds
      ensures View() == SetRegionOf(old(View()), top, bottom)
    {
      hide Snapped, Consoles.NewGrapheme, RegionTop, RegionBottom, Emulator.Rows;
      var first, last := Region(top, bottom, ds.height);
      ds := ds.(scrollingRegionTopRow := first, scrollingRegionBottomRow := last);
      if ds.originMode {
        SnapCursorToBorder();
        NewGrapheme();
      }
    }

    method SetMargins(top: int, bottom: int)
      requires Shape(View().screen)
      modifies this`ds
      ensures View() == MarginsOf(old(View()), top, bottom)
    {
      hide Grid, Clean, Home, SetRegionOf, Emulator.Rows;
      if bottom <= top || top > ds.height || (top == 0 && bottom == 1) {
        return;
      }
      RegionHeld(View(), top - 1, bottom - 1);
      SetScrollingRegion(top - 1, bottom - 1);
      GoHome();
    }

    method SetDecMode(mode: int, on: bool)
      requires Shape(View().screen)
      modifies pool, this`ds
      ensures Aside() == old(Aside())
      ensures View() == DecMode(old(View()), mode, on)
    {
      hide Grid, Clean, Home, ClearRows, Emulator.Rows, Emulator.Aside;
      if mode == 3 {
        HomeHeld(View());
        GoHome();
        ResetRows(0, ds.height);
      } else if mode == 6 {
        GoHome();
        ds := ds.(originMode := on);
      } else if mode == 7 {
        ds := ds.(autoWrapMode := on);
      } else if mode == 25 {
        ds := ds.(cursorVisible := on);
      }
    }

    method SaveCursorState()
      modifies this`ds
      ensures View() == SaveCursor(old(View()))
    {
      ds := ds.(save := Saved(ds.cursorCol, ds.cursorRow, ds.renditions, ds.autoWrapMode, ds.originMode));
    }

    method RestoreCursorState()
      requires Shape(View().screen)
      modifies this`ds
      ensures View() == RestoreCursor(old(View()))
    {
      hide Grid, Snapped, Consoles.NewGrapheme, Emulator.Rows;
      ds := ds.(cursorCol := ds.save.col, cursorRow := ds.save.row, renditions := ds.save.rendition);
      ds := ds.(autoWrapMode := ds.save.autowrap, originMode := ds.save.origin);
      SnapCursorToBorder();
      NewGrapheme();
    }

    method FullyReset()
      requires Shape(View().screen)
      modifies pool, this`ds
      ensures Aside() == old(Aside())
      ensures View() == Fresh(old(View()).screen.width, old(View()).screen.height)
    {
      ds := NewDrawState(ds.width, ds.height);
      pool.Reset(frame, ds.width, ds.height);
      SameAside(old(pool.heap), old(pool.frames));
    }

    method SoftReset()
      requires Shape(View().screen)
      modifies this`ds
      ensures View() == Consoles.SoftReset(old(View()))
    {
      hide Grid, Emulator.Rows;
      ds := ds.(insertMode := false, originMode := false, cursorVisible := true);
      SetScrollingRegion(0, ds.height - 1);
      ds := ds.(renditions := Plain(0), save := NO_SAVE);
    }

    // -------------------------------------------------------------- resizing

    method ResizeDrawState(width: nat, height: nat)
      requires Shape(View().screen) && 0 < width && 0 < height
      modifies this`ds
      ensures View() == ResizedState(old(View()), width, height)
    {
      hide Grid, Snapped, ResizeTabs, Emulator.Rows;
      var tabs := WithTabs(ds.tabs, ds.defaultTabs, width);
      if ds.width != width || ds.height != height {
        ds := ds.(scrollingRegionTopRow := 0, scrollingRegionBottomRow := height - 1);
      }
      ds := ds.(tabs := tabs, width := width, height := height);
      SnapCursorToBorder();
      ForgetOffscreen();
    }

    method ForgetOffscreen()
      modifies this`ds
      ensures View() == Forgotten(old(View()))
    {
      if ds.combiningCharCol >= ds.width || ds.combiningCharRow >= ds.height {
        ds := ds.(combiningCharCol := -1, combiningCharRow := -1);
      }
    }

    method Resize(width: nat, height: nat)
      requires Wf(View()) && 0 < width && 0 < height
      modifies pool, this`ds
      ensures Aside() == old(Aside())
      ensures View() == Resized(old(View()), width, height) && Wf(View())
    {
      hide Clean, ResizeTabs, ResizeRows, BlankRows;
      var oldHeight, oldWidth := ds.height, ds.width;
      ResizedWf(View(), width, height);
      SameState(View(), width, height);
      ResizeDrawState(width, height);
      pool.Resize(frame, oldWidth, width, height, ds.renditions.background);
      SameAside(old(pool.heap), old(pool.frames));
    }

    // -------------------------------------------------------------- dispatching

    method EraseLine(which: int)
      requires Shape(View().screen)
      modifies pool
      ensures Aside() == old(Aside())
      ensures View() == EraseLinePart(old(View()), which)
    {
      hide Grid, Clean, Consoles.ClearLine, ClearRows, Emulator.Rows, Emulator.Aside;
      if which == 0 {
        ClearLine(ds.cursorRow, ds.cursorCol, ds.width - 1);
      } else if which == 1 {
        ClearLine(ds.cursorRow, 0, ds.cursorCol);
      } else if which == 2 {
        ResetRows(ds.cursorRow, ds.cursorRow + 1);
      }
    }

    method EraseDisplay(which: int)
      requires Shape(View().screen)
      modifies pool
      ensures Aside() == old(Aside())
      ensures View() == EraseDisplayPart(old(View()), which)
    {
      hide Grid, Clean, Consoles.ClearLine, ClearRows, Emulator.Rows, Emulator.Aside;
      ghost var s := View().screen;
      if which == 0 {
        ClearLineHeld(s, s.row, s.col, s.width - 1);
        ClearLine(ds.cursorRow, ds.cursorCol, ds.width - 1);
        ResetRows(ds.cursorRow + 1, ds.height);
      } else if which == 1 {
        ClearRowsHeld(s, 0, s.row);
        ResetRows(0, ds.cursorRow);
        ClearLine(ds.cursorRow, 0, ds.cursorCol);
      } else if which == 2 {
        ResetRows(0, ds.height);
      }
    }

    method EraseCharacters(num: nat)
      requires Shape(View().screen) && 0 < num
      modifies pool
      ensures Aside() == old(Aside())
      ensures View() == EraseForward(old(View()), num)
    {
      hide Grid, Clean, Consoles.ClearLine, Emulator.Rows, Emulator.Aside;
      var limit := ds.cursorCol + num - 1;
      if limit >= ds.width {
        limit := ds.width - 1;
      }
      ClearLine(ds.cursorRow, ds.cursorCol, limit);
    }

    method TabulationClear()
      requires Wf(View()) && dispatch.Valid()
      modifies this`ds, dispatch`parsed, dispatch`parsedParams
      ensures View() == ClearTabs(old(View()), ParamAt(Parse(dispatch.params), 0, 0)) && dispatch.Valid()
    {
      hide Wf, Emulator.View, ClearTabs, ParamAt, Parse, Dispatcher.Valid, Emulator.Rows;
      var which := dispatch.GetParam(0, 0);
      ClearTabStops(which);
    }

    method MarginsFromParameters()
      requires Shape(View().screen) && dispatch.Valid()
      modifies this`ds, dispatch`parsed, dispatch`parsedParams
      ensures View() == MarginsOf(old(View()), Positive(Parse(dispatch.params), 0, 1),
                          ParamAt(Parse(dispatch.params), 1, old(View()).screen.height)) && dispatch.Valid()
    {
      hide Shape, MarginsOf, ParamAt, Parse, Dispatcher.Valid, Emulator.Rows;
      var top := dispatch.GetParam(0, 1);
      var bottom := dispatch.GetParam(1, ds.height);
      SetMargins(top, bottom);
    }

    method EraseLineFromParameter()
      requires Shape(View().screen) && dispatch.Valid()
      modifies pool, dispatch`parsed, dispatch`parsedParams
      ensures Aside() == old(Aside())
      ensures View() == EraseLinePart(old(View()), ParamAt(Parse(dispatch.params), 0, 0)) && dispatch.Valid()
    {
      hide Shape, Emulator.View, EraseLinePart, ParamAt, Parse, Dispatcher.Valid, Emulator.Rows, Emulator.Aside;
      var which := dispatch.GetParam(0, 0);
      EraseLine(which);
    }

    method EraseDisplayFromParameter()
      requires Shape(View().screen) && dispatch.Valid()
      modifies pool, dispatch`parsed, dispatch`parsedParams
      ensures Aside() == old(Aside())
      ensures View() == EraseDisplayPart(old(View()), ParamAt(Parse(dispatch.params), 0, 0)) && dispatch.Valid()
    {
      hide Shape, Emulator.View, EraseDisplayPart, ParamAt, Parse, Dispatcher.Valid, Emulator.Rows, Emulator.Aside;
      var which := dispatch.GetParam(0, 0);
      EraseDisplay(which);
    }

    method SetTabStop()
      requires Wf(View())
      modifies this`ds
      ensures View() == old(View()).(tabs := old(View()).tabs[old(View()).screen.col := true])
    {
      hide Grid, Clean, Emulator.Rows;
      ds := ds.(tabs := ds.tabs[ds.cursorCol := true]);
    }

    method SelectRenditions()
      requires dispatch.Valid()
      modifies this`ds, dispatch`parsed, dispatch`parsedParams
      ensures dispatch.Valid()
      ensures var s := old(View()).screen;
              View() == old(View()).(screen := s.(rendition := Select(Parse(dispatch.params), 0, s.rendition)))
    {
      hide Select, Parse, Dispatcher.Valid, Emulator.Rows;
      var renditions := SelectGraphicRendition(dispatch, ds.renditions);
      ds := ds.(renditions := renditions);
    }

    method SetDecModes(on: bool)
      requires Shape(View().screen) && dispatch.Valid()
      modifies pool, this`ds, dispatch`parsed, dispatch`parsedParams
      ensures Aside() == old(Aside())
      ensures View() == DecModes(old(View()), Parse(dispatch.params), 0, on) && dispatch.Valid()
    {
      hide Grid, Clean, DecMode, Parse, Dispatcher.Valid, Emulator.Rows, Emulator.Aside;
      var count := dispatch.ParamCount();
      for i := 0 to count
        invariant Shape(View().screen) && dispatch.Valid() && count == |Parse(dispatch.params)| && Aside() == old(Aside())
        invariant DecModes(View(), Parse(dispatch.params), i, on) == DecModes(old(View()), Parse(dispatch.params), 0, on)
      {
        var mode := dispatch.GetParam(i, 0);
        DecModeHeld(View(), mode, on);
        SetDecMode(mode, on);
      }
    }

    method SetAnsiModes(on: bool)
      requires dispatch.Valid()
      modifies this`ds, dispatch`parsed, dispatch`parsedParams
      ensures View() == AnsiModes(old(View()), Parse(dispatch.params), 0, on) && dispatch.Valid()
    {
      hide Parse, Dispatcher.Valid, Emulator.Rows;
      var count := dispatch.ParamCount();
      for i := 0 to count
        invariant dispatch.Valid() && count == |Parse(dispatch.params)|
        invariant AnsiModes(View(), Parse(dispatch.params), i, on) == AnsiModes(old(View()), Parse(dispatch.params), 0, on)
      {
        var mode := dispatch.GetParam(i, 0);
        if mode == 4 {
          ds := ds.(insertMode := on);
        }
      }
    }

    method Newline()
      requires Shape(View().screen)
      modifies pool, this`ds
      ensures Aside() == old(Aside())
      ensures View() == NextLineOf(old(View()))
    {
      hide Grid, Clean, ToCol, Autoscroll, Emulator.Rows, Emulator.Aside;
      ToColHeld(View(), 0, false);
      MoveColTo(0, false, false);
      MoveRowsAutoscroll(1);
    }

    method MoveTo(row: int, col: int)
      requires Shape(View().screen)
      modifies this`ds
      ensures View() == ToCol(ToRow(old(View()), row, false), col, false)
    {
      hide Grid, Clean, ToCol, ToRow, Emulator.Rows;
      ToRowHeld(View(), row, false);
      MoveRowTo(row, false);
      MoveColTo(col, false, false);
    }

    method InsertLinesHere(lines: nat)
      requires Shape(View().screen)
      modifies pool, this`ds
      ensures Aside() == old(Aside())
      ensures View() == InsertLinesAt(old(View()), lines)
    {
      hide Grid, Clean, ToCol, InsertLines, DeleteLines, Emulator.Rows, Emulator.Aside;
      ScrollByHeld(View().screen, ds.cursorRow, lines);
      InsertLine(ds.cursorRow, lines);
      MoveColTo(0, false, false);
    }

    method DeleteLinesHere(lines: nat)
      requires Shape(View().screen)
      modifies pool, this`ds
      ensures Aside() == old(Aside())
      ensures View() == DeleteLinesAt(old(View()), lines)
    {
      hide Grid, Clean, ToCol, InsertLines, DeleteLines, Emulator.Rows, Emulator.Aside;
      ScrollByHeld(View().screen, ds.cursorRow, lines);
      DeleteLine(ds.cursorRow, lines);
      MoveColTo(0, false, false);
    }

    method Move(f: Function)
      requires Wf(View()) && dispatch.Valid()
      modifies pool, this`ds, dispatch`parsed, dispatch`parsedParams
      ensures Aside() == old(Aside())
      ensures View() == Motion(f, old(View()), Parse(dispatch.params)) && dispatch.Valid()
    {
      hide Wf, Shape, Emulator.View, ConsoleOf, ToRow, ToCol, Autoscroll, Tab, NextLineOf, ParamAt, Parse,
        Dispatcher.Valid, Emulator.Rows, Emulator.Aside;
      assert Shape(View().screen) by { WfShape(View()); }
      var n := dispatch.GetParam(0, 1);
      assert n == Positive(Parse(dispatch.params), 0, 1);
      match f
      case CarriageReturn => MoveColTo(0, false, false);
      case LineFeed => MoveRowsAutoscroll(1);
      case Backspace => MoveColTo(-1, true, false);
      case ReverseIndex => MoveRowsAutoscroll(-1);
      case NextLine => Newline();
      case HorizontalTab => Tabulate(1);
      case ForwardTabs => Tabulate(n);
      case BackwardTabs => Tabulate(-n);
      case CursorUp => MoveRowTo(-n, true);
      case CursorDown => MoveRowTo(n, true);
      case CursorForward => MoveColTo(n, true, false);
      case CursorBack => MoveColTo(-n, true, false);
      case CursorPosition =>
        var col := dispatch.GetParam(1, 1);
        MoveTo(n - 1, col - 1);
      case RowPosition => MoveRowTo(n - 1, false);
      case ColumnPosition => MoveColTo(n - 1, false, false);
      case _ =>
    }

    method Change(f: Function)
      requires Wf(View()) && dispatch.Valid()
      modifies pool, this`ds, dispatch`parsed, dispatch`parsedParams
      ensures Aside() == old(Aside())
      ensures View() == Edit(f, old(View()), Parse(dispatch.params)) && dispatch.Valid()
    {
      hide Wf, Shape, Emulator.View, ConsoleOf, EraseLinePart, EraseDisplayPart, EraseForward, InsertLinesAt,
        DeleteLinesAt, InsertCellsAt,
        DeleteCellsAt, Aligned, ScrollBy, ParamAt, Parse, Dispatcher.Valid, Emulator.Rows, Emulator.Aside;
      assert Shape(View().screen) by { WfShape(View()); }
      var n := dispatch.GetParam(0, 1);
      assert n == Positive(Parse(dispatch.params), 0, 1);
      match f
      case Alignment => FillWithE();
      case EraseInLine => EraseLineFromParameter();
      case EraseInDisplay => EraseDisplayFromParameter();
      case EraseCharacters => EraseCharacters(n);
      case InsertLine => InsertLinesHere(n);
      case DeleteLine => DeleteLinesHere(n);
      case InsertCharacters => InsertCharacters(n);
      case DeleteCharacters => DeleteCharacters(n);
      case ScrollForward => Scroll(n);
      case ScrollBackward => Scroll(-n);
      case _ =>
    }

    method Set(f: Function)
      requires Wf(View()) && dispatch.Valid()
      modifies pool, this`ds, dispatch`parsed, dispatch`parsedParams
      ensures Aside() == old(Aside())
      ensures View() == Setting(f, old(View()), Parse(dispatch.params)) && dispatch.Valid()
    {
      hide Wf, Shape, Emulator.View, ConsoleOf, RestoreCursor, Consoles.SoftReset, DecModes, AnsiModes, MarginsOf,
        Select, Fresh, ParamAt, ClearTabs,
        SaveCursor, Parse, Dispatcher.Valid, Emulator.Rows, Emulator.Aside;
      assert Shape(View().screen) by { WfShape(View()); }
      match f
      case SetTab => SetTabStop();
      case ClearTab => TabulationClear();
      case SaveState => SaveCursorState();
      case RestoreState => RestoreCursorState();
      case FullReset => FullyReset();
      case PartialReset => SoftReset();
      case SetPrivateMode => SetDecModes(true);
      case ResetPrivateMode => SetDecModes(false);
      case SetMode => SetAnsiModes(true);
      case ResetMode => SetAnsiModes(false);
      case SetMargins => MarginsFromParameters();
      case SelectRendition => SelectRenditions();
      case _ =>
    }

    /** Performs a function with the dispatcher's parameters. */
    method Apply(f: Function)
      requires Wf(View()) && dispatch.Valid()
      modifies pool, this`ds, dispatch`parsed, dispatch`parsedParams
      ensures Aside() == old(Aside())
      ensures View() == Perform(f, old(View()), Parse(dispatch.params)) && dispatch.Valid()
    {
      hide Wf, Motion, Edit, Setting, Parse, Dispatcher.Valid, Emulator.Rows, Emulator.Aside;
      if IsMotion(f) {
        Move(f);
      } else if IsEdit(f) {
        Change(f);
      } else {
        Set(f);
      }
    }

    /** An unknown function only cancels a pending wrap. */
    method Dispatch(f: Option<Function>)
      requires Wf(View()) && dispatch.Valid()
      modifies pool, this`ds, dispatch`parsed, dispatch`parsedParams
      ensures Aside() == old(Aside())
      ensures View() == Dispatched(f, old(View()), Parse(dispatch.params)) && Wf(View()) && dispatch.Valid()
    {
      hide Clean, Grid, Perform, Parse, Dispatcher.Valid, Emulator.Rows, Emulator.Aside;
      DispatchedHeld(f, View(), Parse(dispatch.params));
      HeldWf(View(), Dispatched(f, View(), Parse(dispatch.params)));
      if f.None? {
        ForgetWrap();
        return;
      }
      if ClearsWrap(f.value) {
        ForgetWrap();
      }
      Apply(f.value);
    }

    method Invoke(f: Option<Function>, ghost state: EscapeParser.State)
      requires Wf(View()) && dispatch.Valid()
      modifies pool, this`ds, dispatch`parsed, dispatch`parsedParams
      ensures Aside() == old(Aside())
      ensures Wf(View()) && dispatch.Valid() && AsMachine(state) == Machines.Performed(old(AsMachine(state)), f)
    {
      hide Wf, Dispatched, Parse, Dispatcher.Valid, Emulator.Rows, Emulator.Aside;
      Dispatch(f);
    }

    /** A C1 control character in its 7-bit form, or an escape sequence. */
    method EscapeDispatch(w: Machines.Widths, ch: int, ghost state: EscapeParser.State)
      requires Wf(View()) && dispatch.Valid()
      modifies pool, this`ds, dispatch
      ensures Aside() == old(Aside())
      ensures Wf(View()) && dispatch.Valid()
      ensures AsMachine(state) == Machines.Act(w, old(AsMachine(state)), EscapeParser.EscDispatch(ch))
    {
      hide Wf, Emulator.View, ConsoleOf, Machines.Performed, EscapeFunction, ControlFunction, Dispatcher.Valid,
        Emulator.Rows,
        Emulator.Aside;
      if |dispatch.dispatchChars| == 0 && 0x40 <= ch <= 0x5F {
        Invoke(ControlFunction(ch + 0x40), state);
      } else {
        dispatch.Collect(ch);
        Invoke(EscapeFunction(dispatch.dispatchChars), state);
      }
    }

    /** What the emulator and its dispatcher do on an action of the parser. */
    method Act(w: Machines.Widths, a: EscapeParser.Action, ghost state: EscapeParser.State)
      requires Wf(View()) && dispatch.Valid() && Machines.Asserted(a)
      modifies pool, this`ds, dispatch
      ensures Aside() == old(Aside())
      ensures Wf(View()) && dispatch.Valid()
      ensures AsMachine(state) == Machines.Act(w, old(AsMachine(state)), a)
    {
      hide Wf, Emulator.View, ConsoleOf, Machines.Performed, Consoles.Print, CsiFunction, EscapeFunction,
        ControlFunction, Dispatcher.Valid, Emulator.Rows, Emulator.Aside;
      match a
      case Print(ch) => Show(w, ch);
      case Execute(ch) => Invoke(ControlFunction(ch), state);
      case Clear => dispatch.Clear();
      case Collect(ch) => dispatch.Collect(ch);
      case Param(ch) => dispatch.NewParamChar(ch);
      case CsiDispatch(ch) =>
        dispatch.Collect(ch);
        Invoke(CsiFunction(dispatch.dispatchChars), state);
      case EscDispatch(ch) => EscapeDispatch(w, ch, state);
      case OscStart => dispatch.OscStart();
      case OscPut(ch) => dispatch.OscPut(ch);
      case OscEnd =>
      case Ignore =>
      case Hook =>
      case Put(_) =>
      case Unhook =>
    }

    method Show(w: Machines.Widths, ch: int)
      requires Wf(View())
      modifies pool, this`ds
      ensures Aside() == old(Aside())
      ensures Wf(View())
      ensures View() == Consoles.Print(old(View()), Machines.CharAt(ch), Machines.WidthOf(w, ch))
    {
      hide Clean, Grid, Consoles.Print, Emulator.Rows, Emulator.Aside;
      PrintHeld(View(), Machines.CharAt(ch), Machines.WidthOf(w, ch));
      Print(Machines.CharAt(ch), Machines.WidthOf(w, ch));
    }
  }

  /** The rows of another emulator of the same pool are among those aside. */
  lemma FoundAside(e: Emulator, other: Emulator)
    requires e.pool == other.pool && e.frame != other.frame && Wf(e.View())
    ensures other.Rows() == if other.frame < |e.Aside()| then e.Aside()[other.frame] else []
  {
    hide Grid, Clean;
  }

  lemma WfRows(e: Emulator)
    requires Wf(e.View())
    ensures e.Rows() != []
  {
    hide Grid, Clean, Emulator.Rows;
  }

  lemma WfShape(c: Console)
    requires Wf(c)
    ensures Shape(c.screen)
  {
  }

  lemma SameState(c: Console, width: nat, height: nat)
    requires Wf(c) && 0 < width && 0 < height
    ensures var d := ResizedState(c, width, height);
            && d.screen.rows == c.screen.rows && d.screen.rendition == c.screen.rendition
            && d.screen.width == width && d.screen.height == height
  {
    hide Grid, Clean;
  }

  /** New columns get no tab stops, or the default ones. */
  method WithTabs(before: seq<bool>, defaultTabs: bool, width: nat) returns (tabs: seq<bool>)
    ensures tabs == ResizeTabs(before, defaultTabs, width)
  {
    tabs := if width <= |before| then before[..width] else before + seq(width - |before|, _ => false);
    if defaultTabs {
      var i := |before|;
      while i < |tabs|
        invariant |before| <= i && |tabs| == width
        invariant forall j | 0 <= j < width :: tabs[j] == if j < |before| then before[j] else j < i && j % 8 == 0
      {
        tabs := tabs[i := i % 8 == 0];
        i := i + 1;
      }
    }
  }

  lemma PaintedOneMore(row: seq<Cell>, from: nat, n: nat, cell: Cell)
    requires from + n < |row|
    ensures |Painted(row, from, n, cell)| == |row|
    ensures Painted(row, from, n, cell)[from + n := cell] == Painted(row, from, n + 1, cell)
  {
  }

  lemma InsertNone(rows: seq<seq<Cell>>, first: nat, last: int, blank: seq<Cell>)
    requires first <= last + 1 <= |rows|
    ensures ScrollDown(rows, first, last, 0, blank) == rows
  {
    assert rows[..first] + rows[first..last + 1] + rows[last + 1..] == rows;
  }
}
