/** What a printed character does in every mode, told cell by cell and from the character that is read. */
module PrintingLaws {
  import opened Terminal
  import opened Machines
  import opened Interpreter
  import opened Consoles
  import opened ConsoleLaws
  import opened ParserLaws
  import opened SequenceLaws
  import opened MotionLaws

  /** The cell that a character leaves in column `x` of the cursor's row. */
  function CellPrinted(s: Screen, x: int, ch: char, wide: bool, insert: bool): Cell
    requires Shape(s) && 0 <= x < s.width
  {
    var row, k := s.rows[s.row], if wide then 2 else 1;
    if x == s.col then Cell(Glyph(ch), s.rendition, wide, false, false)
    else if wide && x == s.col + 1 then Reset(s.rendition.background)
    else if insert && s.col + k <= x then row[x - k]
    else row[x]
  }

  /** The character is at the cursor, in insert mode with the rest of the row moved out of its way, and the cursor is behind
      it; beyond the last column it stays there, with a wrap pending. Marks combine where the character is. */
  ghost predicate PrintedHere(c: Console, d: Console, ch: char, wide: bool) {
    var s, t, k := c.screen, d.screen, if wide then 2 else 1;
    && Shape(s) && Grid(t.rows, s.width, s.height)
    && d == c.(screen := s.(rows := t.rows, row := NearestRow(c, s.row), col := NearestCol(c, s.col + k), pending := s.width <= s.col + k),
               combCol := s.col, combRow := s.row)
    && (forall y | 0 <= y < s.height && y != s.row :: t.rows[y] == s.rows[y])
    && forall x | 0 <= x < s.width :: t.rows[s.row][x] == CellPrinted(s, x, ch, wide, c.insert)
  }

  lemma RowPrinted(s: Screen, ch: char, wide: bool, insert: bool)
    requires Shape(s)
    ensures var row := PrintedRow(s.rows[s.row], s.col, ch, wide, s.rendition, insert);
            |row| == s.width && forall x | 0 <= x < s.width :: row[x] == CellPrinted(s, x, ch, wide, insert)
  {
    hide Clean, InsertCells;
    InsertCellsShift(s.rows[s.row], s.col, if wide then 2 else 1, s.rendition.background);
  }

  lemma WrittenHere(c: Console, ch: char, wide: bool)
    requires Wf(c)
    ensures var s := c.screen;
            var row := PrintedRow(CursorRow(s), s.col, ch, wide, s.rendition, c.insert);
            PrintedHere(c, Advance(c.(screen := WithRow(s, row)), if wide then 2 else 1), ch, wide)
  {
    hide Clean, PrintedRow, CellPrinted;
    RowPrinted(c.screen, ch, wide, c.insert);
  }

  /** Whether the character starts a new line, and what is left in the last column of the old one. */
  function Breaks(c: Console, wide: bool): bool {
    c.autowrap && (c.screen.pending || (wide && c.screen.col == c.screen.width - 1))
  }

  function LastCell(c: Console): Cell
    requires Shape(c.screen)
  {
    var s := c.screen;
    if s.pending then s.rows[s.row][s.width - 1].(wrap := true) else Reset(s.rendition.background)
  }

  /** The old line with its last cell marked or cleared, and the cursor in its first column. */
  function LineEnded(c: Console): Console
    requires Shape(c.screen)
  {
    var s := c.screen;
    c.(screen := s.(rows := s.rows[s.row := s.rows[s.row][s.width - 1 := LastCell(c)]], row := NearestRow(c, s.row), col := 0))
  }

  lemma Broken(c: Console, wide: bool)
    requires Wf(c) && Breaks(c, wide)
    ensures LineFed(LineEnded(c), BreakLine(c, wide))
  {
    hide Clean, Autoscroll, ToCol, LineFed;
    var s := c.screen;
    var row := if s.pending then SetWrap(CursorRow(s)) else CursorRow(s)[s.col := Reset(s.rendition.background)];
    var b := c.(screen := WithRow(s, row));
    RowWf(c, LastCell(c));
    assert row == CursorRow(s)[s.width - 1 := LastCell(c)];
    ColSet(b, 0);
    ToColHeld(b, 0, false);
    Fed(ToCol(b, 0, false));
    FirstThen(b, BreakLine(c, wide));
  }

  lemma RowWf(c: Console, last: Cell)
    requires Wf(c) && last == LastCell(c)
    ensures Wf(c.(screen := WithRow(c.screen, CursorRow(c.screen)[c.screen.width - 1 := last])))
  {
    assert CleanRow(c.screen.rows[c.screen.row]);
    assert CleanCell(c.screen.rows[c.screen.row][c.screen.width - 1]);
  }

  /** A printed character, in every mode. A character that starts a new line marks the end of the old one, so that the two
      belong together, or leaves it blank if it was too wide for it; then comes a line feed, and then the character. */
  ghost predicate PrintedAs(c: Console, d: Console, ch: char, wide: bool)
    requires Wf(c)
  {
    if Breaks(c, wide) then exists b: Console :: LineFed(LineEnded(c), b) && PrintedHere(b, d, ch, wide)
    else PrintedHere(c, d, ch, wide)
  }

  lemma Printed(c: Console, ch: char, wide: bool)
    requires Wf(c)
    ensures PrintedAs(c, PrintWide(c, ch, wide), ch, wide)
  {
    hide Clean, Grid, BreakLine, PrintedRow, Advance, WithRow, LineFed, PrintedHere, LineEnded;
    BreakHeld(c, wide);
    var b := BreakLine(c, wide);
    assert Wf(b) by { HeldWf(c, b); }
    WrittenHere(b, ch, wide);
    if Breaks(c, wide) { Broken(c, wide); } else { NotBroken(c, wide); }
  }

  lemma NotBroken(c: Console, wide: bool)
    requires Wf(c) && !Breaks(c, wide)
    ensures BreakLine(c, wide) == c
  {
    hide Clean, Grid;
  }

  lemma PrintMeans(w: Widths, m: Machine, ch: int)
    requires Wf(m.console) && m.state.Ground? && (0x20 <= ch <= 0x7F || 0xA0 <= ch)
    requires WidthOf(w, ch).Narrow? || WidthOf(w, ch).Wide?
    ensures PrintedAs(m.console, Shown(w, m, [ch]), CharAt(ch), WidthOf(w, ch).Wide?)
  {
    hide Wf, Read, ReadAll, PrintedAs, PrintWide;
    ReadPrinted(w, m, ch);
    ReadOne(w, m, ch);
    Printed(m.console, CharAt(ch), WidthOf(w, ch).Wide?);
  }

  /** With autowrap off, a character after the last column stays in the row and takes the place of the last one. */
  lemma StaysInRow(w: Widths, m: Machine, ch: int)
    requires Wf(m.console) && m.state.Ground? && (0x20 <= ch <= 0x7E || 0xA0 <= ch) && WidthOf(w, ch).Narrow?
    requires !m.console.autowrap && m.console.screen.col == m.console.screen.width - 1
    requires NearestRow(m.console, m.console.screen.row) == m.console.screen.row
    ensures var s, t := m.console.screen, Shown(w, m, [ch]).screen;
            && t.row == s.row && t.col == s.col && Grid(t.rows, s.width, s.height)
            && forall y, x | 0 <= y < s.height && 0 <= x < s.width ::
                 t.rows[y][x] == if y == s.row && x == s.col then Ink(CharAt(ch), s.rendition) else s.rows[y][x]
  {
    hide Clean, Shown, WidthOf;
    PrintMeans(w, m, ch);
  }

  /** With autowrap on, it starts the next row, which the end of the old one is marked for. */
  lemma StartsNextRow(w: Widths, m: Machine, ch: int)
    requires Wf(m.console) && m.state.Ground? && (0x20 <= ch <= 0x7E || 0xA0 <= ch) && WidthOf(w, ch).Narrow?
    requires var c, s := m.console, m.console.screen;
             c.autowrap && !c.origin && s.pending && s.row + 1 < s.height && s.row != s.bottom && 1 < s.width && !c.insert
    ensures var s, t := m.console.screen, Shown(w, m, [ch]).screen;
            && t.row == s.row + 1 && t.col == 1 && Grid(t.rows, s.width, s.height)
            && t.rows[s.row][s.width - 1] == s.rows[s.row][s.width - 1].(wrap := true)
            && t.rows[s.row + 1][0] == Ink(CharAt(ch), s.rendition)
            && forall y, x | 0 <= y < s.height && 0 <= x < s.width && !(y == s.row && x == s.width - 1) && !(y == s.row + 1 && x == 0) ::
                 t.rows[y][x] == s.rows[y][x]
  {
    hide Clean, Shown, WidthOf, MovedUp;
    PrintMeans(w, m, ch);
  }

  /** In insert mode, the rest of the row moves right by the width of the character. */
  lemma MovesRest(w: Widths, m: Machine, ch: int)
    requires Wf(m.console) && m.state.Ground? && (0x20 <= ch <= 0x7E || 0xA0 <= ch)
    requires WidthOf(w, ch).Narrow? || WidthOf(w, ch).Wide?
    requires m.console.insert && !Breaks(m.console, WidthOf(w, ch).Wide?)
    ensures var s, t, k := m.console.screen, Shown(w, m, [ch]).screen, if WidthOf(w, ch).Wide? then 2 else 1;
            Grid(t.rows, s.width, s.height) && forall x | s.col + k <= x < s.width :: t.rows[s.row][x] == s.rows[s.row][x - k]
  {
    hide Clean, Shown, WidthOf;
    PrintMeans(w, m, ch);
  }

  // ---------------------------------------------------------------- combining characters

  /** What is in the cell is joined by the character, if there is room; an empty cell then counts as one with a no-break
      space. */
  ghost predicate CellJoined(before: Cell, after: Cell, ch: char) {
    var text := TextOf(before.contents);
    && TextOf(after.contents) == text + (if SizeOf(text) < 32 then [ch] else [])
    && after == before.(contents := after.contents, fallback := before.fallback || before.contents.Empty?)
  }

  /** Only this cell has changed; and if it was empty, the cursor has moved on. */
  ghost predicate Combined(c: Console, d: Console, ch: char)
    requires Wf(c)
  {
    var s, t := c.screen, d.screen;
    if !CombinesOnScreen(c) then d == c
    else
      && Grid(t.rows, s.width, s.height)
      && (forall y | 0 <= y < s.height && y != c.combRow :: t.rows[y] == s.rows[y])
      && (forall x | 0 <= x < s.width && x != c.combCol :: t.rows[c.combRow][x] == s.rows[c.combRow][x])
      && CellJoined(s.rows[c.combRow][c.combCol], t.rows[c.combRow][c.combCol], ch)
      && (if s.rows[c.combRow][c.combCol].contents.Empty?
          then d == c.(screen := s.(rows := t.rows, row := NearestRow(c, s.row), col := NearestCol(c, s.col + 1), pending := s.width <= s.col + 1),
                       combCol := s.col, combRow := s.row)
          else d == c.(screen := s.(rows := t.rows)))
  }

  lemma AdvancedOne(c: Console)
    requires Wf(c)
    ensures var s := c.screen;
            Advance(c, 1)
            == c.(screen := s.(row := NearestRow(c, s.row), col := NearestCol(c, s.col + 1), pending := s.width <= s.col + 1),
                  combCol := s.col, combRow := s.row)
  {
    hide Clean, Grid;
  }

  lemma CombinedIs(c: Console, ch: char)
    requires Wf(c)
    ensures Combined(c, Combine(c, ch), ch)
  {
    hide Clean, Full, Appended, CellJoined, Advance;
    if CombinesOnScreen(c) {
      AdvancedOne(c);
      JoinedCell(c.screen.rows[c.combRow][c.combCol], ch);
    }
  }

  lemma JoinedCell(cell: Cell, ch: char)
    ensures var joined := if Full(cell.contents) then cell else cell.(contents := Appended(cell.contents, ch));
            CellJoined(cell, if cell.contents.Empty? then joined.(fallback := true) else joined, ch)
  {
    hide SizeOf;
    EmptySmall();
  }

  lemma CombineMeans(w: Widths, m: Machine, ch: int)
    requires Wf(m.console) && m.state.Ground? && (0x20 <= ch <= 0x7F || 0xA0 <= ch) && WidthOf(w, ch).Combining?
    ensures Combined(m.console, Shown(w, m, [ch]), CharAt(ch))
  {
    hide Wf, Read, ReadAll, Combine, Combined, WidthOf;
    ReadPrinted(w, m, ch);
    ReadOne(w, m, ch);
    CombinedIs(m.console, CharAt(ch));
  }

  lemma EmptySmall()
    ensures SizeOf([]) == 0
  {
  }

  /** What has no width is not shown. */
  lemma UnprintableMeans(w: Widths, m: Machine, ch: int)
    requires Wf(m.console) && m.state.Ground? && (0x20 <= ch <= 0x7F || 0xA0 <= ch) && WidthOf(w, ch).Unprintable?
    ensures Shown(w, m, [ch]) == m.console
  {
    hide Wf, Read, ReadAll;
    ReadPrinted(w, m, ch);
    ReadOne(w, m, ch);
  }
}
