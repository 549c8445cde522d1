/** Where the functions that move the cursor lead, and what the tab stops and the saved cursor are, told by position and
    from the characters that are read. */
module MotionLaws {
  import opened Options
  import opened Terminal
  import opened Dispatching
  import opened Machines
  import opened Interpreter
  import opened Consoles
  import opened ConsoleLaws
  import opened ParserLaws
  import opened SequenceLaws

  // ---------------------------------------------------------------- the cursor

  /** Only the cursor has changed: it is at the place, no wrap is pending, and characters combine there. */
  ghost predicate MovedTo(c: Console, d: Console, row: int, col: int) {
    d == c.(screen := c.screen.(row := row, col := col, pending := false), combCol := col, combRow := row)
  }

  lemma RowSet(c: Console, n: int)
    requires Shape(c.screen)
    ensures MovedTo(c, ToRow(c, n, true), NearestRow(c, c.screen.row + n), c.screen.col)
    ensures 0 <= n ==> MovedTo(c, ToRow(c, n, false), NearestRow(c, n + if c.origin then c.screen.top else 0), c.screen.col)
  {
    hide Grid;
  }

  lemma ColSet(c: Console, n: int)
    requires Shape(c.screen)
    ensures MovedTo(c, ToCol(c, n, true), NearestRow(c, c.screen.row), NearestCol(c, c.screen.col + n))
    ensures MovedTo(c, ToCol(c, n, false), NearestRow(c, c.screen.row), NearestCol(c, n))
  {
    hide Grid;
  }

  lemma MotionDispatched(f: Function, c: Console, ps: seq<int>)
    requires Wf(c) && IsMotion(f)
    ensures Wf(Settled(c)) && Dispatched(Some(f), c, ps) == Motion(f, if ClearsWrap(f) then Settled(c) else c, ps)
  {
    hide Motion, Edit, Setting, Clean, Grid;
  }

  lemma MotionKeys()
    ensures CsiFunction(['A' as int]) == Some(CursorUp) && CsiFunction(['B' as int]) == Some(CursorDown)
    ensures CsiFunction(['C' as int]) == Some(CursorForward) && CsiFunction(['D' as int]) == Some(CursorBack)
    ensures CsiFunction(['d' as int]) == Some(RowPosition)
    ensures CsiFunction(['G' as int]) == Some(ColumnPosition) == CsiFunction(['`' as int])
    ensures CsiFunction(['H' as int]) == Some(CursorPosition) == CsiFunction(['f' as int])
    ensures CsiFunction(['I' as int]) == Some(ForwardTabs) && CsiFunction(['Z' as int]) == Some(BackwardTabs)
  {
  }

  /** A motion with one number. */
  lemma ReadMotion(w: Widths, m: Machine, n: nat, final: char, f: Function)
    requires Wf(m.console) && 0x40 <= final as int <= 0x7E && n <= PARAM_MAX
    requires CsiFunction([final as int]) == Some(f) && IsMotion(f)
    ensures Wf(Settled(m.console)) && Shape(Settled(m.console).screen)
    ensures Shown(w, m, Csi(n, final)) == Motion(f, if ClearsWrap(f) then Settled(m.console) else m.console, [n])
  {
    hide Clean, Grid, Shown, CsiFunction, Dispatched, Csi, Motion, IsMotion, ClearsWrap;
    ReadCsi(w, m, n, final);
    MotionDispatched(f, m.console, [n]);
  }

  /** `ESC [ n A` to `ESC [ n D` */
  lemma CursorUpMeans(w: Widths, m: Machine, n: nat)
    requires Wf(m.console) && n <= PARAM_MAX
    ensures var c := m.console; MovedTo(c, Shown(w, m, Csi(n, 'A')), NearestRow(c, c.screen.row - Times(n)), c.screen.col)
  {
    hide Shown, Csi, CsiFunction, Wf, Shape, ToRow, ToCol, Autoscroll, Tab, NextLineOf;
    MotionKeys();
    ReadMotion(w, m, n, 'A', CursorUp);
    RowSet(Settled(m.console), -(Times(n) as int));
  }

  lemma CursorDownMeans(w: Widths, m: Machine, n: nat)
    requires Wf(m.console) && n <= PARAM_MAX
    ensures var c := m.console; MovedTo(c, Shown(w, m, Csi(n, 'B')), NearestRow(c, c.screen.row + Times(n)), c.screen.col)
  {
    hide Shown, Csi, CsiFunction, Wf, Shape, ToRow, ToCol, Autoscroll, Tab, NextLineOf;
    MotionKeys();
    ReadMotion(w, m, n, 'B', CursorDown);
    RowSet(Settled(m.console), Times(n));
  }

  lemma CursorForwardMeans(w: Widths, m: Machine, n: nat)
    requires Wf(m.console) && n <= PARAM_MAX
    ensures var c := m.console;
            MovedTo(c, Shown(w, m, Csi(n, 'C')), NearestRow(c, c.screen.row), NearestCol(c, c.screen.col + Times(n)))
  {
    hide Shown, Csi, CsiFunction, Wf, Shape, ToRow, ToCol, Autoscroll, Tab, NextLineOf;
    MotionKeys();
    ReadMotion(w, m, n, 'C', CursorForward);
    ColSet(Settled(m.console), Times(n));
  }

  lemma CursorBackMeans(w: Widths, m: Machine, n: nat)
    requires Wf(m.console) && n <= PARAM_MAX
    ensures var c := m.console;
            MovedTo(c, Shown(w, m, Csi(n, 'D')), NearestRow(c, c.screen.row), NearestCol(c, c.screen.col - Times(n)))
  {
    hide Shown, Csi, CsiFunction, Wf, Shape, ToRow, ToCol, Autoscroll, Tab, NextLineOf;
    MotionKeys();
    ReadMotion(w, m, n, 'D', CursorBack);
    ColSet(Settled(m.console), -(Times(n) as int));
  }

  /** The row that number `n` names: in origin mode rows are counted from the top margin. */
  function RowNamed(c: Console, n: nat): int {
    NearestRow(c, Times(n) - 1 + if c.origin then c.screen.top else 0)
  }

  /** `ESC [ n d` */
  lemma RowPositionMeans(w: Widths, m: Machine, n: nat)
    requires Wf(m.console) && n <= PARAM_MAX
    ensures var c := m.console; MovedTo(c, Shown(w, m, Csi(n, 'd')), RowNamed(c, n), c.screen.col)
  {
    hide Shown, Csi, CsiFunction, Wf, Shape, ToRow, ToCol, Autoscroll, Tab, NextLineOf;
    MotionKeys();
    ReadMotion(w, m, n, 'd', RowPosition);
    RowSet(Settled(m.console), Times(n) - 1);
  }

  /** `ESC [ n G` and its other spelling. */
  lemma ColumnPositionMeans(w: Widths, m: Machine, n: nat, final: char)
    requires Wf(m.console) && n <= PARAM_MAX && (final == 'G' || final == '`')
    ensures var c := m.console; MovedTo(c, Shown(w, m, Csi(n, final)), NearestRow(c, c.screen.row), NearestCol(c, Times(n) - 1))
  {
    hide Shown, Csi, CsiFunction, Wf, Shape, ToRow, ToCol, Autoscroll, Tab, NextLineOf;
    MotionKeys();
    ReadMotion(w, m, n, final, ColumnPosition);
    ColSet(Settled(m.console), Times(n) - 1);
  }

  lemma ToBoth(c: Console, y: nat, x: int)
    requires Shape(c.screen)
    ensures MovedTo(c, ToCol(ToRow(c, y, false), x, false), NearestRow(c, y + if c.origin then c.screen.top else 0), NearestCol(c, x))
  {
    hide Grid;
  }

  /** `ESC [ y ; x H` and its other spelling. */
  lemma PositionMeans(w: Widths, m: Machine, y: nat, x: nat, final: char)
    requires Wf(m.console) && y <= PARAM_MAX && x <= PARAM_MAX && (final == 'H' || final == 'f')
    ensures var c := m.console;
            MovedTo(c, Shown(w, m, Sequence(Joined([y, x]), final)), RowNamed(c, y), NearestCol(c, Times(x) - 1))
  {
    hide Shown, Sequence, Joined, CsiFunction, Clean, Grid, ToRow, ToCol, Autoscroll, Tab, NextLineOf, Dispatched;
    MotionKeys();
    var ps: seq<nat> := [y, x];
    ReadValues(w, m, ps, final);
    MotionDispatched(CursorPosition, m.console, ps);
    ToBoth(Settled(m.console), Times(y) - 1, Times(x) - 1);
  }

  // ---------------------------------------------------------------- tab stops

  /** Only the cursor's column has changed, and a pending wrap stays. */
  ghost predicate Tabbed(c: Console, d: Console, col: int) {
    d == c.(screen := c.screen.(row := NearestRow(c, c.screen.row), col := col), combCol := col, combRow := NearestRow(c, c.screen.row))
  }

  /** The `n`-th tab stop to the right of the cursor, or the last column if there are fewer. */
  ghost predicate StopAfter(c: Console, n: nat, col: int)
    requires Wf(c)
  {
    var from := c.screen.col + 1;
    if Stops(c.tabs, from, c.screen.width) < n then col == c.screen.width - 1
    else from <= col < c.screen.width && c.tabs[col] && Stops(c.tabs, from, col + 1) == n
  }

  /** The `n`-th tab stop to the left of the cursor, or the first column if there are fewer. */
  ghost predicate StopBefore(c: Console, n: nat, col: int)
    requires Wf(c)
  {
    var to := c.screen.col;
    if to <= 1 || Stops(c.tabs, 1, to) < n then col == 0
    else 0 < col < to && c.tabs[col] && Stops(c.tabs, col, to) == n
  }

  lemma {:induction false} StopsAdd(tabs: seq<bool>, i: nat, j: nat, k: nat)
    requires i <= j <= k <= |tabs|
    ensures Stops(tabs, i, k) == Stops(tabs, i, j) + Stops(tabs, j, k)
    decreases j - i
  {
    if i < j { StopsAdd(tabs, i + 1, j, k); }
  }

  lemma TabSet(c: Console, col: int)
    requires Wf(c)
    ensures var d := ToCol(c, col, false); Tabbed(c, d.(screen := d.screen.(pending := c.screen.pending)), NearestCol(c, col))
    ensures 0 <= col < c.screen.width ==> NearestCol(c, col) == col == ToCol(c, col, false).screen.col
  {
    hide Clean, Grid;
  }

  lemma TabForward(c: Console, n: nat)
    requires Wf(c) && 0 < n
    ensures var d := Tab(c, n); Tabbed(c, d, d.screen.col) && StopAfter(c, n, d.screen.col)
  {
    hide Clean, Grid, ToCol, TabAfter, TabBefore, Stops, Tabbed, NearestCol;
    var from := c.screen.col + 1;
    TabAfterMeans(c.tabs, from, n);
    var k := TabAfter(c.tabs, from, n);
    if k == -1 {
      TabSet(c, c.screen.width - 1);
    } else {
      StopsAdd(c.tabs, from, k + 1, |c.tabs|);
      TabSet(c, k);
    }
  }

  lemma TabBackward(c: Console, n: nat)
    requires Wf(c) && 0 < n
    ensures var d := Tab(c, -(n as int)); Tabbed(c, d, d.screen.col) && StopBefore(c, n, d.screen.col)
  {
    hide Clean, Grid, ToCol, TabAfter, TabBefore, Stops;
    var i := c.screen.col - 1;
    TabBeforeMeans(c.tabs, i, n);
    var k := TabBefore(c.tabs, i, n);
    TabSet(c, k);
    if 0 < k { StopsAdd(c.tabs, 1, k, i + 1); }
  }

  /** `ESC [ n I` */
  lemma ForwardTabsMeans(w: Widths, m: Machine, n: nat)
    requires Wf(m.console) && n <= PARAM_MAX
    ensures var c, d := m.console, Shown(w, m, Csi(n, 'I')); Tabbed(c, d, d.screen.col) && StopAfter(c, Times(n), d.screen.col)
  {
    hide Shown, Csi, CsiFunction, Wf, Shape, ToRow, ToCol, Autoscroll, Tab, NextLineOf, Tabbed, StopAfter;
    MotionKeys();
    ReadMotion(w, m, n, 'I', ForwardTabs);
    TabForward(m.console, Times(n));
  }

  /** `ESC [ n Z` */
  lemma BackwardTabsMeans(w: Widths, m: Machine, n: nat)
    requires Wf(m.console) && n <= PARAM_MAX
    ensures var c, d := m.console, Shown(w, m, Csi(n, 'Z')); Tabbed(c, d, d.screen.col) && StopBefore(c, Times(n), d.screen.col)
  {
    hide Shown, Csi, CsiFunction, Wf, Shape, ToRow, ToCol, Autoscroll, Tab, NextLineOf, Tabbed, StopBefore;
    MotionKeys();
    ReadMotion(w, m, n, 'Z', BackwardTabs);
    TabBackward(m.console, Times(n));
  }

  // ---------------------------------------------------------------- control characters

  lemma ReadControlCharacter(w: Widths, m: Machine, ch: int)
    requires Wf(m.console) && Executes(m.state) && Control(ch)
    ensures Shown(w, m, [ch]) == Dispatched(ControlFunction(ch), m.console, Parse(m.params))
  {
    hide Wf, Read, ReadAll, Dispatched, ControlFunction, Parse;
    ControlHere(w, m, ch);
    ReadOne(w, m, ch);
  }

  /** An escape character and a letter stand for an 8-bit control character. */
  lemma ReadEscaped(w: Widths, m: Machine, final: char)
    requires Wf(m.console) && 0x40 <= final as int <= 0x5F && Ends([], final as int)
    ensures Shown(w, m, [0x1B, final as int]) == Dispatched(ControlFunction(final as int + 0x40), m.console, Parse([]))
  {
    hide Wf, Read, ReadAll, Dispatched, ControlFunction, Parse, Ends;
    ReadEscapeSequence(w, m, [], final as int);
    assert [0x1B] + [] + [final as int] == [0x1B, final as int];
  }

  lemma ControlKeys()
    ensures forall ch | ch == 0x0A || ch == 0x0B || ch == 0x0C || ch == 0x84 :: ControlFunction(ch) == Some(Function.LineFeed)
    ensures ControlFunction(0x0D) == Some(Function.CarriageReturn) && ControlFunction(0x08) == Some(Function.Backspace)
    ensures ControlFunction(0x09) == Some(HorizontalTab) && ControlFunction(0x85) == Some(NextLine)
    ensures ControlFunction(0x88) == Some(SetTab) && ControlFunction(0x8D) == Some(ReverseIndex)
  {
  }

  /** Carriage return and backspace. */
  lemma ReturnMeans(w: Widths, m: Machine)
    requires Wf(m.console) && Executes(m.state)
    ensures var c := m.console;
            && MovedTo(c, Shown(w, m, [0x0D]), NearestRow(c, c.screen.row), 0)
            && MovedTo(c, Shown(w, m, [0x08]), NearestRow(c, c.screen.row), NearestCol(c, c.screen.col - 1))
  {
    hide Shown, Clean, Grid, Dispatched, ControlFunction, Parse, ToRow, ToCol, Autoscroll, Tab, NextLineOf, Executes;
    ControlKeys();
    ReadControlCharacter(w, m, 0x0D);
    ReadControlCharacter(w, m, 0x08);
    MotionDispatched(Function.CarriageReturn, m.console, Parse(m.params));
    MotionDispatched(Function.Backspace, m.console, Parse(m.params));
    ColSet(Settled(m.console), 0);
    ColSet(Settled(m.console), -1);
  }

  /** A horizontal tab. */
  lemma TabMeans(w: Widths, m: Machine)
    requires Wf(m.console) && Executes(m.state)
    ensures var c, d := m.console, Shown(w, m, [0x09]); Tabbed(c, d, d.screen.col) && StopAfter(c, 1, d.screen.col)
  {
    hide Shown, Wf, Dispatched, ControlFunction, Parse, ToRow, ToCol, Autoscroll, Tab, NextLineOf, Executes, Tabbed, StopAfter;
    ControlKeys();
    ReadControlCharacter(w, m, 0x09);
    MotionDispatched(HorizontalTab, m.console, Parse(m.params));
    TabForward(m.console, 1);
  }

  // ---------------------------------------------------------------- line feeds

  /** The row below. On the bottom margin the lines within the margins move up instead; a cursor on the first row would
      still leave a region that is only this row. */
  ghost predicate LineFed(c: Console, d: Console) {
    var s, t := c.screen, d.screen;
    var full := s.row == s.bottom;
    && d == c.(screen := s.(rows := t.rows, row := t.row, pending := false), combCol := t.col, combRow := t.row)
    && (if full then MovedUp(s.rows, t.rows, s.top, s.bottom, 1, BlankOf(s)) else t.rows == s.rows)
    && t.row == if full && (0 < s.row || c.origin || s.height == 1) then s.row else NearestRow(c, s.row + 1)
  }

  /** The row above, and the mirror image at the top margin. */
  ghost predicate LineBack(c: Console, d: Console) {
    var s, t := c.screen, d.screen;
    var full := s.row == s.top;
    && d == c.(screen := s.(rows := t.rows, row := t.row, pending := false), combCol := t.col, combRow := t.row)
    && (if full then MovedDown(s.rows, t.rows, s.top, s.bottom, 1, BlankOf(s)) else t.rows == s.rows)
    && t.row == if full && (s.row < s.height - 1 || c.origin || s.height == 1) then s.row else NearestRow(c, s.row - 1)
  }

  lemma ThereAndBack(c: Console, over: int)
    requires Shape(c.screen)
    ensures var d := ToRow(ToRow(c, -over, true), over, true);
            MovedTo(c, d, NearestRow(c, NearestRow(c, c.screen.row - over) + over), c.screen.col)
  {
    hide Grid, ToRow;
    RowSet(c, -over);
    RowSet(ToRow(c, -over, true), over);
  }

  lemma Fed(c: Console)
    requires Wf(c)
    ensures LineFed(c, Autoscroll(c, 1))
  {
    hide Clean, Grid, DeleteLines, InsertLines, ToRow, MovedUp, BlankRow;
    var s := c.screen;
    RowSet(c, 1);
    if s.row == s.bottom {
      LinesMoved(s, s.top, 1);
      ScrollByHeld(s, s.top, 1);
      ThereAndBack(c.(screen := DeleteLines(s, s.top, 1)), 1);
    }
  }

  lemma Unfed(c: Console)
    requires Wf(c)
    ensures LineBack(c, Autoscroll(c, -1))
  {
    hide Clean, Grid, DeleteLines, InsertLines, ToRow, MovedDown, BlankRow;
    var s := c.screen;
    RowSet(c, -1);
    if s.row == s.top {
      LinesMoved(s, s.top, 1);
      ScrollByHeld(s, s.top, 1);
      ThereAndBack(c.(screen := InsertLines(s, s.top, 1)), -1);
    }
  }

  /** A pending wrap does not matter. */
  lemma FedAnyway(c: Console, d: Console)
    ensures LineFed(Settled(c), d) <==> LineFed(c, d)
    ensures LineBack(Settled(c), d) <==> LineBack(c, d)
  {
    hide MovedUp, MovedDown, BlankRow;
  }

  /** A line feed, a vertical tab or a form feed. */
  lemma LineFeedMeans(w: Widths, m: Machine, ch: int)
    requires Wf(m.console) && Executes(m.state) && (ch == 0x0A || ch == 0x0B || ch == 0x0C)
    ensures LineFed(m.console, Shown(w, m, [ch]))
  {
    hide Shown, Clean, Grid, Dispatched, ControlFunction, Parse, ToRow, ToCol, Autoscroll, Tab, NextLineOf, Executes, LineFed;
    ControlKeys();
    ReadControlCharacter(w, m, ch);
    MotionDispatched(Function.LineFeed, m.console, Parse(m.params));
    Fed(Settled(m.console));
    FedAnyway(m.console, Shown(w, m, [ch]));
  }

  /** `ESC D` and `ESC M` */
  lemma IndexMeans(w: Widths, m: Machine)
    requires Wf(m.console)
    ensures LineFed(m.console, Shown(w, m, [0x1B, 'D' as int])) && LineBack(m.console, Shown(w, m, [0x1B, 'M' as int]))
  {
    hide Shown, Clean, Grid, Dispatched, ControlFunction, Parse, ToRow, ToCol, Autoscroll, Tab, NextLineOf, LineFed, LineBack;
    ControlKeys();
    ReadEscaped(w, m, 'D');
    ReadEscaped(w, m, 'M');
    MotionDispatched(Function.LineFeed, m.console, Parse([]));
    MotionDispatched(ReverseIndex, m.console, Parse([]));
    Fed(Settled(m.console));
    Unfed(Settled(m.console));
    FedAnyway(m.console, Shown(w, m, [0x1B, 'D' as int]));
    FedAnyway(m.console, Shown(w, m, [0x1B, 'M' as int]));
  }

  /** `ESC E`: the first column of the row below. */
  lemma NextLineMeans(w: Widths, m: Machine)
    requires Wf(m.console)
    ensures var c := m.console;
            LineFed(c.(screen := c.screen.(row := NearestRow(c, c.screen.row), col := 0)), Shown(w, m, [0x1B, 'E' as int]))
  {
    hide Shown, Clean, Grid, Dispatched, ControlFunction, Parse, ToRow, ToCol, Autoscroll, Tab, LineFed;
    ControlKeys();
    ReadEscaped(w, m, 'E');
    MotionDispatched(NextLine, m.console, Parse([]));
    var b := Settled(m.console);
    ColSet(b, 0);
    ToColHeld(b, 0, false);
    Fed(ToCol(b, 0, false));
    FirstThen(m.console, Shown(w, m, [0x1B, 'E' as int]));
  }

  lemma FirstThen(c: Console, d: Console)
    requires LineFed(c.(screen := c.screen.(row := NearestRow(c, c.screen.row), col := 0, pending := false), combCol := 0,
                        combRow := NearestRow(c, c.screen.row)), d)
    ensures LineFed(c.(screen := c.screen.(row := NearestRow(c, c.screen.row), col := 0)), d)
  {
    hide MovedUp, BlankRow;
  }
}
