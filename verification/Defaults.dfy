/** In the modes in which frames are written, the emulator does what the screen operations say. */
module Defaults {
  import opened Options
  import opened Terminal
  import opened Dispatching
  import opened Graphics
  import opened Consoles

  /** The operation that a control character stands for. */
  function ControlOp(ch: int): Option<Op> {
    if ch == 0x0A || ch == 0x0B || ch == 0x0C || ch == 0x84 then Some(Op.LineFeed)
    else if ch == 0x0D then Some(Op.CarriageReturn)
    else if ch == 0x08 then Some(Op.Backspace)
    else None
  }

  /** The operation that a control sequence stands for, by its last characters and its parameters. */
  function CsiOp(s: Screen, key: seq<int>, ps: seq<int>): Option<Op> {
    if key == ['H' as int] || key == ['f' as int] then Some(CursorTo(Positive(ps, 0, 1), Positive(ps, 1, 1)))
    else if key == ['K' as int] && ParamAt(ps, 0, 0) == 0 then Some(EraseToEnd)
    else if key == ['X' as int] then Some(EraseChars(Positive(ps, 0, 1)))
    else if key == ['J' as int] && ParamAt(ps, 0, 0) == 2 then Some(EraseAll)
    else if key == ['m' as int] then Some(SetRendition(Select(ps, 0, s.rendition)))
    else if key == ['r' as int] then Some(SetRegion(Positive(ps, 0, 1), Positive(ps, 1, s.height)))
    else if key == ['?' as int, 'h' as int] && ps == [25] then Some(ShowCursor(true))
    else if key == ['?' as int, 'l' as int] && ps == [25] then Some(ShowCursor(false))
    else None
  }

  /** `d` is in the default modes and shows `s`. */
  predicate Presents(d: Console, s: Screen) {
    Normal(d) && d.screen == s
  }

  lemma MoveSame(c: Console, n: int, relative: bool)
    requires Shape(c.screen) && Normal(c)
    ensures Presents(ToRow(c, n, relative), MoveRow(c.screen, if relative then c.screen.row + n else n))
    ensures Presents(ToCol(c, n, relative), MoveCol(c.screen, if relative then c.screen.col + n else n))
  {
    hide Grid;
  }

  lemma DownSame(c: Console)
    requires Shape(c.screen) && Normal(c)
    ensures Presents(Autoscroll(c, 1), Down(c.screen))
  {
    hide Grid, DeleteLines, ToRow;
    var s := c.screen;
    MoveSame(c, 1, true);
    if s.row == s.bottom {
      ScrollByHeld(s, s.top, 1);
      var d := c.(screen := DeleteLines(s, s.top, 1));
      DeleteLinesSame(s, s.top, 1);
      MoveSame(d, -1, true);
      ToRowHeld(d, -1, true);
      MoveSame(ToRow(d, -1, true), 1, true);
    }
  }

  lemma DeleteLinesSame(s: Screen, row: int, n: nat)
    requires Shape(s)
    ensures DeleteLines(s, row, n) == s.(rows := DeleteLines(s, row, n).rows)
  {
  }

  lemma PrintedSame(row: seq<Cell>, col: nat, ch: char, rendition: Renditions)
    requires col < |row|
    ensures PrintedRow(row, col, ch, false, rendition, false) == Painted(row, col, 1, Ink(ch, rendition))
  {
  }

  lemma BreakSame(c: Console)
    requires Shape(c.screen) && Normal(c)
    ensures Presents(BreakLine(c, false), if c.screen.pending then WrapLine(c.screen) else c.screen)
  {
    hide Grid, ToCol, Autoscroll, Down;
    var s := c.screen;
    var d := c.(screen := WithRow(s, SetWrap(CursorRow(s))));
    RowHeld(c, SetWrap(CursorRow(s)));
    if s.pending {
      SetRowKeepsShape(s, SetWrap(CursorRow(s)));
      MoveSame(d, 0, false);
      DownSame(ToCol(d, 0, false));
    }
  }

  lemma SetRowKeepsShape(s: Screen, row: seq<Cell>)
    requires Shape(s) && |row| == s.width
    ensures Shape(SetRow(s, s.row, row))
  {
  }

  /** A narrow character. */
  lemma PrintSame(c: Console, ch: char)
    requires Wf(c) && Normal(c)
    ensures Presents(Consoles.Print(c, ch, Narrow), PrintChar(c.screen, ch))
  {
    hide Grid, Clean, BreakLine, WrapLine, PrintedRow, Painted;
    BreakSame(c);
    BreakHeld(c, false);
    var s := BreakLine(c, false).screen;
    PrintedSame(CursorRow(s), s.col, ch, s.rendition);
  }

  lemma EraseLineSame(c: Console, num: nat)
    requires Shape(c.screen) && Normal(c) && 0 < num
    ensures Presents(EraseLinePart(c, 0), Erase(c.screen, c.screen.width))
    ensures Presents(EraseForward(c, num), Erase(c.screen, num))
  {
    hide Painted, Grid;
  }

  lemma EraseAllSame(c: Console)
    requires Shape(c.screen) && Normal(c)
    ensures Presents(EraseDisplayPart(c, 2),
              c.screen.(rows := BlankRows(c.screen.height, c.screen.width, c.screen.rendition.background)))
  {
    hide BlankRow, Grid;
  }

  lemma MarginsSame(c: Console, first: int, last: int)
    requires Shape(c.screen) && Normal(c)
    ensures Presents(MarginsOf(c, first, last), Margins(c.screen, first, last))
  {
    hide Grid;
  }

  /** Every control character and control sequence that the frame writer sends. */
  lemma ControlSame(c: Console, ch: int, ps: seq<int>)
    requires Wf(c) && Normal(c) && ch <= 255 && ControlOp(ch).Some?
    ensures Presents(Dispatched(ControlFunction(ch), c, ps), Step(c.screen, ControlOp(ch).value))
  {
    hide Edit, Setting, Grid, Clean, ToCol, ToRow, Autoscroll, Down;
    var d := Settled(c);
    DownSame(d);
    MoveSame(d, 0, false);
    MoveSame(d, -1, true);
  }

  lemma CursorSame(c: Console, ps: seq<int>)
    requires Wf(c) && Normal(c)
    ensures Presents(Dispatched(Some(CursorPosition), c, ps), Step(c.screen, CursorTo(Positive(ps, 0, 1), Positive(ps, 1, 1))))
  {
    hide Edit, Setting, Grid, Clean, ToCol, ToRow;
    var d := Settled(c);
    MoveSame(d, Positive(ps, 0, 1) - 1, false);
    var e := ToRow(d, Positive(ps, 0, 1) - 1, false);
    ToRowHeld(d, Positive(ps, 0, 1) - 1, false);
    MoveSame(e, Positive(ps, 1, 1) - 1, false);
  }

  lemma LineSame(c: Console, ps: seq<int>)
    requires Wf(c) && Normal(c) && ParamAt(ps, 0, 0) == 0
    ensures Presents(Dispatched(Some(EraseInLine), c, ps), Step(c.screen, EraseToEnd))
  {
    hide Motion, Setting, Grid, Clean, EraseLinePart, Erase;
    EraseLineSame(Settled(c), 1);
  }

  lemma DisplaySame(c: Console, ps: seq<int>)
    requires Wf(c) && Normal(c) && ParamAt(ps, 0, 0) == 2
    ensures Presents(Dispatched(Some(EraseInDisplay), c, ps), Step(c.screen, EraseAll))
  {
    hide Motion, Setting, Grid, Clean, EraseDisplayPart, BlankRows;
    EraseAllSame(Settled(c));
  }

  lemma CharactersSame(c: Console, ps: seq<int>)
    requires Wf(c) && Normal(c)
    ensures Presents(Dispatched(Some(EraseCharacters), c, ps), Step(c.screen, EraseChars(Positive(ps, 0, 1))))
  {
    hide Motion, Setting, Grid, Clean, EraseForward, Erase;
    EraseLineSame(Settled(c), Positive(ps, 0, 1));
  }

  lemma RegionSame(c: Console, ps: seq<int>)
    requires Wf(c) && Normal(c)
    ensures Presents(Dispatched(Some(SetMargins), c, ps),
              Step(c.screen, SetRegion(Positive(ps, 0, 1), Positive(ps, 1, c.screen.height))))
  {
    hide Motion, Edit, Grid, Clean, MarginsOf, Margins;
    MarginsSame(Settled(c), Positive(ps, 0, 1), Positive(ps, 1, c.screen.height));
  }

  lemma RenditionSame(c: Console, ps: seq<int>)
    requires Wf(c) && Normal(c)
    ensures Presents(Dispatched(Some(SelectRendition), c, ps), Step(c.screen, SetRendition(Select(ps, 0, c.screen.rendition))))
  {
    hide Motion, Edit, Grid, Clean, Select;
  }

  lemma VisibleSame(c: Console, on: bool)
    requires Wf(c) && Normal(c)
    ensures Presents(Dispatched(Some(if on then SetPrivateMode else ResetPrivateMode), c, [25]), Step(c.screen, ShowCursor(on)))
  {
    hide Motion, Edit, Grid, Clean, DecModes;
    OneMode(c, 25, on);
  }

  lemma OneMode(c: Console, mode: int, on: bool)
    requires 0 < mode
    ensures DecModes(c, [mode], 0, on) == DecMode(c, mode, on)
  {
    hide DecMode;
    var d := DecMode(c, mode, on);
    assert DecModes(d, [mode], 1, on) == d;
  }

  lemma Functions()
    ensures CsiFunction(['H' as int]) == CsiFunction(['f' as int]) == Some(CursorPosition)
    ensures CsiFunction(['K' as int]) == Some(EraseInLine) && CsiFunction(['J' as int]) == Some(EraseInDisplay)
    ensures CsiFunction(['X' as int]) == Some(EraseCharacters) && CsiFunction(['r' as int]) == Some(SetMargins)
    ensures CsiFunction(['m' as int]) == Some(SelectRendition)
    ensures CsiFunction(['?' as int, 'h' as int]) == Some(SetPrivateMode)
    ensures CsiFunction(['?' as int, 'l' as int]) == Some(ResetPrivateMode)
  {
  }

  lemma SequenceSame(c: Console, key: seq<int>, ps: seq<int>)
    requires Wf(c) && Normal(c) && CsiOp(c.screen, key, ps).Some?
    ensures Presents(Dispatched(CsiFunction(key), c, ps), Step(c.screen, CsiOp(c.screen, key, ps).value))
  {
    hide Wf, Normal, Dispatched, Step, CsiFunction, Select, Presents, ParamAt, Positive, Shape;
    assert Shape(c.screen) by { WfShape(c); }
    Functions();
    CursorSame(c, ps);
    if ParamAt(ps, 0, 0) == 0 { LineSame(c, ps); }
    if ParamAt(ps, 0, 0) == 2 { DisplaySame(c, ps); }
    CharactersSame(c, ps);
    RegionSame(c, ps);
    RenditionSame(c, ps);
    VisibleSame(c, true);
    VisibleSame(c, false);
  }

  lemma WfShape(c: Console)
    requires Wf(c)
    ensures Shape(c.screen)
  {
  }
}
