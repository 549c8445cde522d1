/** Laws of the emulator's functions that do not depend on how they are computed. */
module ConsoleLaws {
  import opened Terminal
  import opened Dispatching
  import opened Consoles

  // ---------------------------------------------------------------- tab stops

  /** How many tab stops there are from column `i` to before column `j`. */
  function Stops(tabs: seq<bool>, i: nat, j: nat): nat
    requires i <= j <= |tabs|
    decreases j - i
  {
    if i == j then 0 else (if tabs[i] then 1 else 0) + Stops(tabs, i + 1, j)
  }

  /** The tab stop that is found is the `count`-th one, or there are fewer. */
  lemma {:induction false} TabAfterMeans(tabs: seq<bool>, i: nat, count: nat)
    requires i <= |tabs| && 0 < count
    ensures var k := TabAfter(tabs, i, count);
            if k == -1 then Stops(tabs, i, |tabs|) < count
            else i <= k < |tabs| && tabs[k] && Stops(tabs, i, k + 1) == count
    decreases |tabs| - i
  {
    if i < |tabs| {
      if !tabs[i] {
        TabAfterMeans(tabs, i + 1, count);
      } else if count > 1 {
        TabAfterMeans(tabs, i + 1, count - 1);
      } else {
        assert Stops(tabs, i, i + 1) == 1;
      }
    }
  }

  lemma {:induction false} StopsSnoc(tabs: seq<bool>, i: nat, j: nat)
    requires i <= j < |tabs|
    ensures Stops(tabs, i, j + 1) == Stops(tabs, i, j) + if tabs[j] then 1 else 0
    decreases j - i
  {
    if i < j { StopsSnoc(tabs, i + 1, j); }
  }

  /** Going back, the first column counts as a stop when there are not enough others. */
  lemma {:induction false} TabBeforeMeans(tabs: seq<bool>, i: int, count: nat)
    requires -1 <= i < |tabs| && 0 < count
    ensures var k := TabBefore(tabs, i, count);
            if k == 0 then 0 < i ==> Stops(tabs, 1, i + 1) < count
            else 0 < k <= i && tabs[k] && Stops(tabs, k, i + 1) == count
    decreases i + 1
  {
    if i > 0 {
      StopsSnoc(tabs, 1, i);
      if !tabs[i] {
        TabBeforeMeans(tabs, i - 1, count);
        Back(tabs, TabBefore(tabs, i - 1, count), i);
      } else if count > 1 {
        TabBeforeMeans(tabs, i - 1, count - 1);
        Back(tabs, TabBefore(tabs, i - 1, count - 1), i);
      } else {
        assert Stops(tabs, i, i + 1) == 1;
      }
    }
  }

  lemma Back(tabs: seq<bool>, k: int, i: nat)
    requires i < |tabs|
    ensures 0 < k <= i ==> Stops(tabs, k, i + 1) == Stops(tabs, k, i) + if tabs[i] then 1 else 0
  {
    if 0 < k <= i { StopsSnoc(tabs, k, i); }
  }

  // ---------------------------------------------------------------- cells of a row

  function Lesser(a: int, b: int): int {
    if a < b then a else b
  }

  /** `k` blank cells at column `col`, and the rest of the row behind them as far as there is room. */
  function MovedRight(row: seq<Cell>, col: nat, k: nat, background: nat): seq<Cell>
    requires k <= |row| - col && col < |row|
  {
    row[..col] + seq(k, _ => Reset(background)) + row[col..|row| - k]
  }

  /** `k` cells taken out at column `col`, and as many blank ones at the end. */
  function MovedLeft(row: seq<Cell>, col: nat, k: nat, background: nat): seq<Cell>
    requires k <= |row| - col && col < |row|
  {
    row[..col] + row[col + k..] + seq(k, _ => Reset(background))
  }

  lemma NoneMoved(row: seq<Cell>, col: nat, background: nat)
    requires col < |row|
    ensures MovedRight(row, col, 0, background) == row == MovedLeft(row, col, 0, background)
  {
    assert row[..col] + row[col..] == row;
  }

  lemma OneMoreRight(row: seq<Cell>, col: nat, k: nat, background: nat)
    requires col < |row| && k <= |row| - col
    ensures |MovedRight(row, col, k, background)| == |row|
    ensures InsertCell(MovedRight(row, col, k, background), col, background)
         == MovedRight(row, col, Lesser(k + 1, |row| - col), background)
  {
    var blank := Reset(background);
    var m := Lesser(k + 1, |row| - col);
    var shifted := MovedRight(row, col, k, background);
    var once, more := InsertCell(shifted, col, background), MovedRight(row, col, m, background);
    assert forall j | 0 <= j < |row| :: shifted[j] == if j < col then row[j] else if j < col + k then blank else row[j - k];
    assert forall j | 0 <= j < |row| :: more[j] == if j < col then row[j] else if j < col + m then blank else row[j - m];
    assert forall j | 0 <= j < |row| :: once[j] == if j < col then shifted[j] else if j == col then blank else shifted[j - 1];
    assert once == more;
  }

  lemma OneMoreLeft(row: seq<Cell>, col: nat, k: nat, background: nat)
    requires col < |row| && k <= |row| - col
    ensures |MovedLeft(row, col, k, background)| == |row|
    ensures DeleteCell(MovedLeft(row, col, k, background), col, background)
         == MovedLeft(row, col, Lesser(k + 1, |row| - col), background)
  {
    var blank := Reset(background);
    var m := Lesser(k + 1, |row| - col);
    var shifted := MovedLeft(row, col, k, background);
    var once, more := DeleteCell(shifted, col, background), MovedLeft(row, col, m, background);
    assert forall j | 0 <= j < |row| :: shifted[j] == if j < col then row[j] else if j < |row| - k then row[j + k] else blank;
    assert forall j | 0 <= j < |row| :: more[j] == if j < col then row[j] else if j < |row| - m then row[j + m] else blank;
    assert forall j | 0 <= j < |row| :: once[j] == if j < col then shifted[j] else if j == |row| - 1 then blank else shifted[j + 1];
    assert once == more;
  }

  /** Inserting cells one by one moves the rest of the row to the right at once. */
  lemma {:induction false} InsertCellsShift(row: seq<Cell>, col: nat, n: nat, background: nat)
    requires col < |row|
    ensures InsertCells(row, col, n, background) == MovedRight(row, col, Lesser(n, |row| - col), background)
  {
    hide MovedRight, MovedLeft, InsertCell;
    if n == 0 {
      NoneMoved(row, col, background);
    } else {
      InsertCellsShift(row, col, n - 1, background);
      OneMoreRight(row, col, Lesser(n - 1, |row| - col), background);
    }
  }

  /** Deleting cells one by one moves the rest of the row to the left at once. */
  lemma {:induction false} DeleteCellsShift(row: seq<Cell>, col: nat, n: nat, background: nat)
    requires col < |row|
    ensures DeleteCells(row, col, n, background) == MovedLeft(row, col, Lesser(n, |row| - col), background)
  {
    hide MovedRight, MovedLeft, DeleteCell;
    if n == 0 {
      NoneMoved(row, col, background);
    } else {
      DeleteCellsShift(row, col, n - 1, background);
      OneMoreLeft(row, col, Lesser(n - 1, |row| - col), background);
    }
  }

  /** Deleting as many cells as were inserted gives the row back, but for those that fell off its end. */
  lemma InsertThenDelete(row: seq<Cell>, col: nat, n: nat, background: nat)
    requires col < |row| && n <= |row| - col
    ensures DeleteCells(InsertCells(row, col, n, background), col, n, background)
         == row[..|row| - n] + seq(n, _ => Reset(background))
  {
    hide InsertCells, DeleteCells;
    InsertCellsShift(row, col, n, background);
    DeleteCellsShift(InsertCells(row, col, n, background), col, n, background);
  }

  // ---------------------------------------------------------------- rows

  /** The rows of the scrolling region below `row` after lines were inserted and as many deleted: all but the last ones
      are back, and rows outside are untouched. */
  lemma InsertThenDeleteLines(s: Screen, row: int, n: nat)
    requires Shape(s) && s.top <= row <= s.bottom && n <= s.bottom + 1 - row
    ensures Shape(InsertLines(s, row, n))
    ensures var t := DeleteLines(InsertLines(s, row, n), row, n);
            t.rows == s.rows[..s.bottom + 1 - n] + seq(n, _ => BlankRow(s.width, s.rendition.background)) + s.rows[s.bottom + 1..]
  {
    hide BlankRow, Clean;
    ScrollByHeld(s, row, n);
    ScrollBackAndForth(s.rows, row, s.bottom, n, BlankRow(s.width, s.rendition.background));
  }

  lemma ScrollBackAndForth(rows: seq<seq<Cell>>, first: nat, last: int, n: nat, blank: seq<Cell>)
    requires first + n <= last + 1 <= |rows|
    ensures |ScrollDown(rows, first, last, n, blank)| == |rows|
    ensures ScrollUp(ScrollDown(rows, first, last, n, blank), first, last, n, blank)
         == rows[..last + 1 - n] + seq(n, _ => blank) + rows[last + 1..]
  {
  }

  /** Within the margins every row takes the place of the one above it. */
  ghost predicate Raised(before: seq<seq<Cell>>, after: seq<seq<Cell>>, top: int, bottom: int, blank: seq<Cell>) {
    |after| == |before| && forall y | 0 <= y < |after| ::
      after[y] == if y < top || bottom < y then before[y] else if y < bottom && y + 1 < |before| then before[y + 1] else blank
  }

  ghost predicate Lowered(before: seq<seq<Cell>>, after: seq<seq<Cell>>, top: int, bottom: int, blank: seq<Cell>) {
    |after| == |before| && forall y | 0 <= y < |after| ::
      after[y] == if y < top || bottom < y then before[y] else if top < y && 0 < y then before[y - 1] else blank
  }

  lemma ScrollsBoth(rows: seq<seq<Cell>>, first: nat, last: int, blank: seq<Cell>)
    requires first <= last < |rows|
    ensures Raised(rows, ScrollUp(rows, first, last, 1, blank), first, last, blank)
    ensures Lowered(rows, ScrollDown(rows, first, last, 1, blank), first, last, blank)
  {
  }

  lemma MovesKeepRows(c: Console, n: int)
    ensures ToRow(c, n, true).screen.rows == c.screen.rows
  {
  }

  /** A line feed within the margins raises the rows on the bottom margin and moves none elsewhere. */
  lemma LineFeedRows(c: Console)
    requires Shape(c.screen) && c.screen.top <= c.screen.row <= c.screen.bottom
    ensures var s, t := c.screen, Autoscroll(c, 1).screen;
            if s.row < s.bottom then t.rows == s.rows
            else Raised(s.rows, t.rows, s.top, s.bottom, BlankRow(s.width, s.rendition.background))
  {
    hide Clean, BlankRow, ToRow, ScrollUp, Raised;
    var s := c.screen;
    MovesKeepRows(c, 1);
    if s.row == s.bottom {
      var d := c.(screen := ScrollBy(s, 1));
      ScrollsBoth(s.rows, s.top, s.bottom, BlankRow(s.width, s.rendition.background));
      MovesKeepRows(d, -1);
      MovesKeepRows(ToRow(d, -1, true), 1);
    }
  }

  /** A reverse index is the mirror image at the top margin. */
  lemma ReverseIndexRows(c: Console)
    requires Shape(c.screen) && c.screen.top <= c.screen.row <= c.screen.bottom
    ensures var s, t := c.screen, Autoscroll(c, -1).screen;
            if s.top < s.row then t.rows == s.rows
            else Lowered(s.rows, t.rows, s.top, s.bottom, BlankRow(s.width, s.rendition.background))
  {
    hide Clean, BlankRow, ToRow, ScrollDown, Lowered;
    var s := c.screen;
    MovesKeepRows(c, -1);
    if s.row == s.top {
      var d := c.(screen := ScrollBy(s, -1));
      ScrollsBoth(s.rows, s.top, s.bottom, BlankRow(s.width, s.rendition.background));
      MovesKeepRows(d, 1);
      MovesKeepRows(ToRow(d, 1, true), -1);
    }
  }

  lemma RelativeMove(c: Console, n: int)
    requires Shape(c.screen)
    ensures ToRow(c, n, true).screen
         == c.screen.(row := Clamp(c.screen.row + n, LimitTop(c), LimitBottom(c)), pending := false)
    ensures ToRow(c, n, true).origin == c.origin
  {
    hide Grid;
  }

  /** Where the cursor is afterwards. It would leave a region that is only the first row, */
  lemma LineFeedCursor(c: Console)
    requires Shape(c.screen) && c.screen.top <= c.screen.row <= c.screen.bottom
    ensures var s, t := c.screen, Autoscroll(c, 1).screen;
            && t.col == s.col && !t.pending
            && t.row == if s.row < s.bottom then s.row + 1
                        else if 0 < s.row || c.origin || s.height == 1 then s.bottom else 1
  {
    hide Clean, Grid, DeleteLines, ToRow;
    var s := c.screen;
    RelativeMove(c, 1);
    if s.row == s.bottom {
      ScrollByHeld(s, s.top, 1);
      DeletedSame(s, s.top, 1);
      var d := c.(screen := DeleteLines(s, s.top, 1));
      RelativeMove(d, -1);
      ToRowHeld(d, -1, true);
      RelativeMove(ToRow(d, -1, true), 1);
    }
  }

  lemma DeletedSame(s: Screen, row: int, n: nat)
    requires Shape(s)
    ensures DeleteLines(s, row, n) == s.(rows := DeleteLines(s, row, n).rows)
    ensures InsertLines(s, row, n) == s.(rows := InsertLines(s, row, n).rows)
  {
    hide ScrollUp, ScrollDown, BlankRow;
  }

  /** and a reverse index takes it out of one that is only the last row. */
  lemma ReverseIndexCursor(c: Console)
    requires Shape(c.screen) && c.screen.top <= c.screen.row <= c.screen.bottom
    ensures var s, t := c.screen, Autoscroll(c, -1).screen;
            && t.col == s.col && !t.pending
            && t.row == if s.top < s.row then s.row - 1
                        else if s.row < s.height - 1 || c.origin || s.height == 1 then s.top else s.height - 2
  {
    hide Clean, Grid, InsertLines, ToRow;
    var s := c.screen;
    RelativeMove(c, -1);
    if s.row == s.top {
      ScrollByHeld(s, s.top, 1);
      DeletedSame(s, s.top, 1);
      var d := c.(screen := InsertLines(s, s.top, 1));
      RelativeMove(d, 1);
      ToRowHeld(d, 1, true);
      RelativeMove(ToRow(d, 1, true), -1);
    }
  }

  // ---------------------------------------------------------------- the cursor

  /** Where the four relative moves lead when origin mode is off. */
  lemma UpMeans(c: Console, ps: seq<int>)
    requires Wf(c) && !c.origin
    ensures var s, n := c.screen, Positive(ps, 0, 1);
            Perform(CursorUp, c, ps).screen == s.(row := if s.row < n then 0 else s.row - n, pending := false)
  {
    hide Clean, Grid, Autoscroll, Tab, NextLineOf, ParamAt, Edit, Setting, ToCol;
  }

  lemma DownMeans(c: Console, ps: seq<int>)
    requires Wf(c) && !c.origin
    ensures var s, n := c.screen, Positive(ps, 0, 1);
            Perform(CursorDown, c, ps).screen == s.(row := Lesser(s.row + n, s.height - 1), pending := false)
  {
    hide Clean, Grid, Autoscroll, Tab, NextLineOf, ParamAt, Edit, Setting, ToCol;
  }

  lemma ForwardMeans(c: Console, ps: seq<int>)
    requires Wf(c) && !c.origin
    ensures var s, n := c.screen, Positive(ps, 0, 1);
            Perform(CursorForward, c, ps).screen == s.(col := Lesser(s.col + n, s.width - 1), pending := false)
  {
    hide Clean, Grid, Autoscroll, Tab, NextLineOf, ParamAt, Edit, Setting, ToRow;
  }

  lemma BackMeans(c: Console, ps: seq<int>)
    requires Wf(c) && !c.origin
    ensures var s, n := c.screen, Positive(ps, 0, 1);
            Perform(CursorBack, c, ps).screen == s.(col := if s.col < n then 0 else s.col - n, pending := false)
  {
    hide Clean, Grid, Autoscroll, Tab, NextLineOf, ParamAt, Edit, Setting, ToRow;
  }

  /** In origin mode, positions count from the top margin and stay between the margins. */
  lemma OriginMeans(c: Console, n: int)
    requires Wf(c) && c.origin
    ensures var s := c.screen;
            ToRow(c, n, false).screen.row == if n < 0 then s.top else Lesser(s.top + n, s.bottom)
    ensures Home(c).screen.row == c.screen.top && Home(c).screen.col == 0
  {
    hide Clean, Grid;
  }

  /** The saved cursor comes back with its rendition and modes, wherever the cursor and the modes are by then, unless
      the screen or the margins have changed so that its place is outside. */
  lemma SaveThenRestore(c: Console, d: Console)
    requires Wf(c) && Wf(d) && d.save == SaveCursor(c).save
    ensures var r, top, bottom := RestoreCursor(d), if c.origin then d.screen.top else 0,
                                  if c.origin then d.screen.bottom else d.screen.height - 1;
            && r.screen.rendition == c.screen.rendition && r.autowrap == c.autowrap && r.origin == c.origin
            && (r.screen.row == c.screen.row <==> top <= c.screen.row <= bottom)
            && (r.screen.col == c.screen.col <==> c.screen.col < d.screen.width)
            && r.screen.rows == d.screen.rows
  {
    hide Clean, Grid;
  }

  // ---------------------------------------------------------------- characters

  /** A wide character with room for it takes its cell and clears the next one. */
  lemma WideMeans(c: Console, ch: char)
    requires Shape(c.screen) && !c.screen.pending && !c.insert && c.screen.col + 1 < c.screen.width
    requires LimitTop(c) <= c.screen.row <= LimitBottom(c)
    ensures var s, t := c.screen, PrintWide(c, ch, true).screen;
            && t.rows == s.rows[s.row := s.rows[s.row][s.col := Cell(Glyph(ch), s.rendition, true, false, false)]
                                                      [s.col + 1 := Reset(s.rendition.background)]]
            && t.row == s.row && t.col == Lesser(s.col + 2, s.width - 1) && (t.pending <==> s.col + 2 == s.width)
  {
    hide Clean;
  }

  /** A combining character after a character joins it and moves nothing. */
  lemma CombiningMeans(c: Console, ch: char, mark: char)
    requires Shape(c.screen) && Clean(c.screen.rows) && !c.screen.pending && !c.insert && c.screen.col < c.screen.width - 1
    ensures var p := PrintWide(c, ch, false); Shape(p.screen) && Clean(p.screen.rows)
    ensures var p, s := PrintWide(c, ch, false), c.screen;
            Combine(p, mark).screen
            == p.screen.(rows := p.screen.rows[s.row := p.screen.rows[s.row][s.col := Cell(Cluster([ch, mark]), s.rendition, false, false, false)]])
  {
    PrintWideHeld(c, ch, false);
    OneCharacter(ch);
  }

  lemma OneCharacter(ch: char)
    ensures !Full(Glyph(ch))
  {
    assert [ch][..0] == [];
    assert SizeOf([]) == 0;
  }

  // ---------------------------------------------------------------- resizing

  function Unwrapped(row: seq<Cell>): seq<Cell>
    requires row != []
  {
    row[|row| - 1 := row[|row| - 1].(wrap := false)]
  }

  lemma WiderAndBack(row: seq<Cell>, width: nat, a: nat, b: nat)
    requires 0 < |row| < width
    ensures |ResizeRow(row, width, a)| == width && ResizeRow(ResizeRow(row, width, a), |row|, b) == Unwrapped(row)
  {
  }

  /** Making the screen larger and then as it was loses nothing of the cells but the wrap bits of the rows. */
  lemma LargerAndBack(s: Screen, width: nat, height: nat)
    requires Shape(s) && s.width < width && s.height <= height
    ensures Shape(Resize(s, width, height))
    ensures var t := Resize(Resize(s, width, height), s.width, s.height);
            |t.rows| == |s.rows| && forall y | 0 <= y < s.height :: t.rows[y] == Unwrapped(s.rows[y])
  {
    hide Clean, ResizeRow, BlankRow, Unwrapped;
    ResizeKeeps(s, width, height);
    forall y | 0 <= y < s.height
      ensures |ResizeRow(s.rows[y], width, s.rendition.background)| == width
      ensures ResizeRow(ResizeRow(s.rows[y], width, s.rendition.background), s.width, s.rendition.background) == Unwrapped(s.rows[y])
    {
      WiderAndBack(s.rows[y], width, s.rendition.background, s.rendition.background);
    }
  }

  lemma TabsBack(tabs: seq<bool>, defaultTabs: bool, width: nat)
    requires |tabs| <= width
    ensures ResizeTabs(ResizeTabs(tabs, defaultTabs, width), defaultTabs, |tabs|) == tabs
  {
  }

  lemma ResizedCursor(c: Console, width: nat, height: nat)
    requires Wf(c) && !c.origin && 0 < width && 0 < height
    ensures var d := Resized(c, width, height);
            && d.screen.row == Lesser(c.screen.row, height - 1) && d.screen.col == Lesser(c.screen.col, width - 1)
            && d.tabs == ResizeTabs(c.tabs, c.defaultTabs, width) && d.defaultTabs == c.defaultTabs && !d.origin
  {
    hide Clean, Grid, Resize, ResizeTabs;
  }

  /** The cursor and the tab stops come back too. */
  lemma CursorBackAgain(c: Console, width: nat, height: nat)
    requires Wf(c) && !c.origin && c.screen.width <= width && c.screen.height <= height
    ensures Wf(Resized(c, width, height))
    ensures var d := Resized(Resized(c, width, height), c.screen.width, c.screen.height);
            d.screen.row == c.screen.row && d.screen.col == c.screen.col && d.tabs == c.tabs
  {
    hide Clean, Grid, Resized, ResizeTabs;
    ResizedWf(c, width, height);
    ResizedCursor(c, width, height);
    ResizedCursor(Resized(c, width, height), c.screen.width, c.screen.height);
    TabsBack(c.tabs, c.defaultTabs, width);
  }
}
