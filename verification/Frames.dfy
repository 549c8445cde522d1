/** Writing a whole frame: the scrolling shortcut, the rows, and the cursor. */
module Frames {
  import opened Terminal
  import opened Drawing
  import opened Displays

  /** The display moved up by `lines`, and `height` rows of the new frame are already there. */
  datatype Scroll = Scroll(lines: nat, height: nat)

  function FirstEqual(rows: seq<Row>, want: Row, from: nat): (k: nat)
    requires from <= |rows|
    ensures from <= k <= |rows|
    decreases |rows| - from
  {
    if from == |rows| || EqualRows(want, rows[from]) then from else FirstEqual(rows, want, from + 1)
  }

  function Matching(rows: seq<Row>, want: seq<Row>, shift: nat, n: nat): (m: nat)
    requires |want| == |rows| && shift + n <= |rows|
    ensures n <= m && shift + m <= |rows|
    decreases |rows| - n
  {
    if shift + n < |rows| && EqualRows(want[n], rows[shift + n]) then Matching(rows, want, shift, n + 1) else n
  }

  function PlanOf(rows: seq<Row>, want: seq<Row>): Scroll
    requires |want| == |rows| > 0
  {
    var k := FirstEqual(rows, want[0], 0);
    if k == 0 || k == |rows| then Scroll(0, 0) else Scroll(k, Matching(rows, want, k, 1))
  }

  ghost predicate Moved(rows: seq<Row>, want: seq<Row>, plan: Scroll) {
    && 0 < plan.lines && plan.lines + plan.height <= |rows| == |want|
    && forall i | 0 <= i < plan.height :: EqualRows(want[i], rows[plan.lines + i])
  }

  lemma {:induction false} MatchingEqual(rows: seq<Row>, want: seq<Row>, shift: nat, n: nat)
    requires |want| == |rows| && shift + n <= |rows|
    requires forall i | 0 <= i < n :: EqualRows(want[i], rows[shift + i])
    ensures forall i | 0 <= i < Matching(rows, want, shift, n) :: EqualRows(want[i], rows[shift + i])
    decreases |rows| - n
  {
    if shift + n < |rows| && EqualRows(want[n], rows[shift + n]) { MatchingEqual(rows, want, shift, n + 1); }
  }

  lemma {:induction false} FirstEqualFound(rows: seq<Row>, want: Row, from: nat)
    requires from <= |rows|
    ensures var k := FirstEqual(rows, want, from); k < |rows| ==> EqualRows(want, rows[k])
    decreases |rows| - from
  {
    if from < |rows| && !EqualRows(want, rows[from]) { FirstEqualFound(rows, want, from + 1); }
  }

  /** A planned scroll brings rows of the new frame to their place. */
  lemma PlanSound(rows: seq<Row>, want: seq<Row>)
    requires |want| == |rows| > 0
    ensures var plan := PlanOf(rows, want); 0 < plan.height ==> Moved(rows, want, plan)
  {
    var k := FirstEqual(rows, want[0], 0);
    FirstEqualFound(rows, want[0], 0);
    if 0 < k < |rows| {
      assert forall i | 0 <= i < 1 :: EqualRows(want[i], rows[k + i]);
      MatchingEqual(rows, want, k, 1);
    }
  }

  /** Looks for the first row of the new frame among the old ones, and for how many rows the two then agree. */
  method FindScroll(rows: seq<Row>, want: seq<Row>) returns (plan: Scroll)
    requires |want| == |rows| > 0
    ensures plan == PlanOf(rows, want)
  {
    var lines, height := 0, 0;
    var row := 0;
    while row < |rows|
      invariant 0 <= row <= |rows| && lines == 0 && height == 0
      invariant FirstEqual(rows, want[0], 0) == FirstEqual(rows, want[0], row)
    {
      if !EqualRows(want[0], rows[row]) {
        row := row + 1;
        continue;
      }
      if row == 0 {
        break;
      }
      lines, height := row, 1;
      var n := 1;
      while lines + n < |rows|
        invariant 1 <= n == height && lines + n <= |rows|
        invariant Matching(rows, want, lines, 1) == Matching(rows, want, lines, n)
      {
        if EqualRows(want[n], rows[lines + n]) {
          height := n + 1;
        } else {
          break;
        }
        n := n + 1;
      }
      break;
    }
    plan := Scroll(lines, height);
  }

  /** The first `last + 1` rows move up by `lines`, in place; blank rows come in below. */
  method ShiftRows(rows: seq<Row>, lines: nat, last: int, blank: Row) returns (moved: seq<Row>)
    requires 0 < lines <= last + 1 <= |rows|
    ensures moved == rows[lines..last + 1] + seq(lines, _ => blank) + rows[last + 1..]
  {
    moved := rows;
    for i := 0 to last + 1
      invariant |moved| == |rows|
      invariant forall k | 0 <= k < i :: moved[k] == if k + lines <= last then rows[k + lines] else blank
      invariant forall k | i <= k < |rows| :: moved[k] == rows[k]
    {
      moved := moved[i := if i + lines <= last then moved[i + lines] else blank];
    }
  }

  ghost predicate Pictured(screen: seq<seq<Cell>>, rows: seq<Row>) {
    |screen| == |rows| && forall i | 0 <= i < |rows| :: SameLooks(screen[i], rows[i].cells)
  }

  lemma PicturedMoves(screen: seq<seq<Cell>>, rows: seq<Row>, lines: nat, last: int, blank: Row)
    requires Pictured(screen, rows) && 0 < lines <= last + 1 <= |rows|
    ensures Pictured(ScrollUp(screen, 0, last, lines, blank.cells),
                     rows[lines..last + 1] + seq(lines, _ => blank) + rows[last + 1..])
  {
    hide SameLooks;
    assert SameLooks(blank.cells, blank.cells) by { LooksItself(blank.cells); }
  }

  lemma LooksItself(row: seq<Cell>)
    ensures SameLooks(row, row)
  {
  }

  /** Margins at the top of the screen and at row `last`. */
  lemma RegionSet(s: Screen, last: nat)
    requires Shape(s) && 0 < last < s.height
    ensures Step(s, SetRegion(1, last + 1)) == At(s, 0, 0).(top := 0, bottom := last)
    ensures Step(s, SetRegion(0, 0)) == At(s, 0, 0).(top := 0, bottom := s.height - 1)
  {
    hide Grid;
  }

  lemma ScrollWords(f: Frame, last: int)
    requires 0 <= last < f.height
    ensures Allowed(f, SetRegion(1, last + 1)) && Allowed(f, SetRegion(0, 0)) && Allowed(f, CursorTo(0, 0))
    ensures Allowed(f, CarriageReturn) && Allowed(f, LineFeed) && Allowed(f, EraseAll)
    ensures Allowed(f, ShowCursor(true)) && Allowed(f, ShowCursor(false)) && Allowed(f, ClearLink)
    ensures Allowed(f, SetRendition(Plain(0))) && Allowed(f, SetRendition(f.rendition))
  {
  }

  /** Scrolls within margins and forgets where the cursor is. */
  method ScrollRegion(frame: FrameState, lines: nat, last: int)
    requires frame.Synced() && 0 < lines <= last < frame.term.height && frame.rendition == Plain(0)
    modifies frame
    ensures frame.Synced() && frame.cursorX == frame.cursorY == -1 && !frame.behind
    ensures frame.term.width == old(frame.term).width && frame.term.height == old(frame.term).height
    ensures frame.term.rows == ScrollUp(old(frame.term).rows, 0, last, lines, BlankRow(frame.term.width, 0))
  {
    hide Run, Repeat, ScrollUp, BlankRow, Grid, Step, Allowed, Worded;
    ScrollWords(frame.target, last);
    RegionSet(frame.term, last);
    frame.Append(SetRegion(1, last + 1));
    frame.cursorX, frame.cursorY := -1, -1;
    frame.behind := false;
    frame.AppendSilentMove(last, 0);
    ScrollTimes(frame.term, lines);
    frame.AppendTimes(lines, LineFeed);
    RegionSet(frame.term, last);
    frame.Append(SetRegion(0, 0));
    frame.cursorX, frame.cursorY := -1, -1;
  }

  lemma LinkStep(s: Screen)
    requires Shape(s)
    ensures Step(s, ClearLink) == s.(pending := false)
  {
  }

  /** Scrolls the whole screen from its bottom row. */
  method ScrollWhole(frame: FrameState, lines: nat)
    requires frame.Synced() && frame.rendition == Plain(0)
    requires frame.term.row == frame.term.height - 1 && 0 < lines < frame.term.height
    modifies frame
    ensures frame.Synced() && frame.cursorX == 0 && frame.cursorY == old(frame.cursorY) && !frame.behind
    ensures frame.term == At(old(frame.term), old(frame.term).row, 0).(rows := frame.term.rows)
    ensures frame.term.rows
         == ScrollUp(old(frame.term).rows, 0, frame.term.height - 1, lines, BlankRow(frame.term.width, 0))
  {
    hide Run, Repeat, ScrollUp, BlankRow, Grid, Allowed, Worded;
    ScrollWords(frame.target, 0);
    frame.Append(CarriageReturn);
    frame.behind := false;
    ScrollTimes(frame.term, lines);
    frame.AppendTimes(lines, LineFeed);
    frame.cursorX := 0;
  }

  /** Scrolls the top `last + 1` rows of the terminal up by `lines`. */
  method ScrollTerminal(frame: FrameState, lines: nat, last: int, height: int)
    requires frame.Synced() && Follows(frame.behind, frame.cursorX, frame.cursorY, frame.term)
    requires 0 < lines <= last < height == frame.term.height == frame.target.height
    requires frame.cursorX < frame.term.width
    modifies frame
    ensures frame.Synced() && Tracked(frame.cursorX, frame.cursorY, frame.term) && frame.cursorX < frame.term.width
    ensures !frame.behind
    ensures frame.term.width == old(frame.term).width && frame.term.height == old(frame.term).height
    ensures frame.term.rows == ScrollUp(old(frame.term).rows, 0, last, lines, BlankRow(frame.term.width, 0))
  {
    hide Run, ScrollUp, BlankRow, Grid, Step, Allowed, FrameState.Recorded;
    ScrollWords(frame.target, last);
    frame.UpdateRendition(Plain(0), true);
    LinkStep(frame.term);
    frame.Append(ClearLink);
    if last + 1 == height && frame.cursorY + 1 == height {
      ScrollWhole(frame, lines);
    } else {
      ScrollRegion(frame, lines, last);
    }
  }

  /** What a row is compared with, and whether that is the very same row object. */
  datatype Old = Old(cells: seq<Cell>, same: bool)

  predicate SameSize(f: Frame, g: Frame) {
    f.width == g.width && f.height == g.height
  }

  /** How many rows scrolling has put in place. */
  function Placed(initialized: bool, last: Frame, f: Frame): nat
    requires FrameOk(last) && FrameOk(f) && (initialized ==> SameSize(last, f))
  {
    if initialized then PlanOf(last.rows, f.rows).height else 0
  }

  function OldAt(initialized: bool, last: Frame, f: Frame, y: nat): (o: Old)
    requires FrameOk(last) && FrameOk(f) && (initialized ==> SameSize(last, f)) && y < f.height
    ensures |o.cells| == f.width
  {
    if !initialized then Old(f.rows[y].cells, false)
    else
      var plan := PlanOf(last.rows, f.rows);
      if y < plan.lines + plan.height then Old(BlankRow(f.width, 0), false)
      else Old(last.rows[y].cells, last.rows[y] == f.rows[y])
  }

  predicate LastColumnWritten(d: Display, initialized: bool, last: Frame, f: Frame, y: nat, forced: bool)
    requires FrameOk(last) && FrameOk(f) && (initialized ==> SameSize(last, f)) && y < f.height
  {
    var o := OldAt(initialized, last, f, y);
    d.RowWritten(initialized, f.rows[y].cells, o.cells, o.same, forced)
  }

  /** Whether the cursor wraps into row `y`. */
  predicate Wraps(d: Display, initialized: bool, last: Frame, f: Frame, y: nat)
    requires FrameOk(last) && FrameOk(f) && (initialized ==> SameSize(last, f)) && y <= f.height
  {
    && Placed(initialized, last, f) < y < f.height
    && LastColumnWritten(d, initialized, last, f, y - 1, Wraps(d, initialized, last, f, y - 1))
    && f.rows[y - 1].cells[f.width - 1].wrap
  }

  /** Whether the bottom right corner of the screen is written. */
  predicate CornerWritten(d: Display, initialized: bool, last: Frame, f: Frame)
    requires FrameOk(last) && FrameOk(f) && (initialized ==> SameSize(last, f))
  {
    && Placed(initialized, last, f) < f.height
    && LastColumnWritten(d, initialized, last, f, f.height - 1, Wraps(d, initialized, last, f, f.height - 1))
  }

  /** The rows from `first` on are those that `OldAt` describes. */
  ghost predicate Staged(initialized: bool, last: Frame, f: Frame, rows: seq<Row>, first: nat)
    requires FrameOk(last) && FrameOk(f) && (initialized ==> SameSize(last, f))
  {
    && f.height <= |rows|
    && forall y | first <= y < f.height ::
         && f.width <= |rows[y].cells|
         && (initialized ==> var o := OldAt(initialized, last, f, y); rows[y].cells == o.cells && (rows[y] == f.rows[y]) == o.same)
  }

  /** A row is written as `OldAt` tells; without an old frame it does not matter what was there. */
  lemma StagedWritten(d: Display, initialized: bool, last: Frame, f: Frame, rows: seq<Row>, first: nat, y: nat, forced: bool)
    requires FrameOk(last) && FrameOk(f) && (initialized ==> SameSize(last, f))
    requires Staged(initialized, last, f, rows, first) && first <= y < f.height
    ensures |f.rows[y].cells| == f.width <= |rows[y].cells|
    ensures d.RowWritten(initialized, f.rows[y].cells, rows[y].cells, f.rows[y] == rows[y], forced)
         == LastColumnWritten(d, initialized, last, f, y, forced)
  {
  }

  /** Rows before `y` look like those of the frame, and the others like `rows` if that is known. */
  ghost predicate Partly(known: bool, screen: seq<seq<Cell>>, want: seq<Row>, rows: seq<Row>, y: nat) {
    && |screen| == |want| <= |rows| && y <= |want|
    && (forall i | 0 <= i < y :: SameLooks(screen[i], want[i].cells))
    && (known ==> forall i | y <= i < |want| :: SameLooks(screen[i], rows[i].cells))
  }

  lemma LooksTrans(a: seq<Cell>, b: seq<Cell>, c: seq<Cell>)
    requires SameLooks(a, b) && SameLooks(a, c)
    ensures SameLooks(b, c)
  {
  }

  lemma PartlyNext(known: bool, a: seq<seq<Cell>>, b: seq<seq<Cell>>, want: seq<Row>, rows: seq<Row>, y: nat)
    requires Partly(known, a, want, rows, y) && y < |want|
    requires OthersLook(a, b, y) && SameLooks(b[y], want[y].cells)
    ensures Partly(known, b, want, rows, y + 1)
  {
    hide SameLooks;
    forall i | 0 <= i < |want| && i != y
      ensures i < y ==> SameLooks(b[i], want[i].cells)
      ensures known && y < i ==> SameLooks(b[i], rows[i].cells)
    {
      if i < y { LooksTrans(a[i], b[i], want[i].cells); }
      if known && y < i { LooksTrans(a[i], b[i], rows[i].cells); }
    }
  }

  /** No row above the bottom row has changed. */
  predicate UnchangedAbove(last: Frame, f: Frame)
    requires FrameOk(last) && FrameOk(f) && SameSize(last, f)
  {
    forall y | 0 <= y < f.height - 1 :: f.rows[y].cells == last.rows[y].cells
  }

  /** Whether writing the bottom row with a cursor that is one column behind gets it right. */
  ghost predicate BottomRight(d: Display, last: Frame, f: Frame)
    requires FrameOk(last) && FrameOk(f) && SameSize(last, f)
  {
    d.RowRight(f.rows[f.height - 1].cells, last.rows[f.height - 1].cells, last.col)
  }

  /** Whether a cursor that starts one column behind does no harm: the display scrolls or a row above the bottom row
      changes, so that the writer addresses the cursor first, or the bottom row comes out right. */
  ghost predicate CellsRight(d: Display, last: Frame, f: Frame)
    requires FrameOk(last) && FrameOk(f) && SameSize(last, f)
  {
    !BottomOnly(last, f) || BottomRight(d, last, f)
  }

  /** Where the cursor is tracked after the bottom row if it is still behind, and -1 if it has been addressed. */
  function BottomRest(d: Display, last: Frame, f: Frame): int
    requires FrameOk(last) && FrameOk(f) && SameSize(last, f)
  {
    d.RowRest(f.rows[f.height - 1].cells, last.rows[f.height - 1].cells, last.col)
  }

  /** Only the bottom row is written, if anything. */
  predicate BottomOnly(last: Frame, f: Frame)
    requires FrameOk(last) && FrameOk(f) && SameSize(last, f)
  {
    PlanOf(last.rows, f.rows).height == 0 && UnchangedAbove(last, f)
  }

  /** Whether a cursor that starts one column behind ends so. Once it has been addressed, only an overrun puts it behind
      again. Otherwise it stays behind if it is moved by backspaces, or not at all. */
  predicate StaysBehind(d: Display, last: Frame, f: Frame)
    requires FrameOk(last) && FrameOk(f) && SameSize(last, f)
  {
    if !BottomOnly(last, f) || BottomRest(d, last, f) == -1 then Overrun(d, true, last, f)
    else f.row == f.height - 1 && Near(BottomRest(d, last, f), f.col)
  }

  /** What the bottom row looks like when it is written by a cursor that starts one column behind. */
  ghost predicate BottomShows(d: Display, last: Frame, f: Frame, rows: seq<seq<Cell>>)
    requires FrameOk(last) && FrameOk(f) && SameSize(last, f)
  {
    var cells, old_ := f.rows[f.height - 1].cells, last.rows[f.height - 1].cells;
    |rows| == f.height && Traced(d.RowTrace(cells, old_, last.col), true, rows[f.height - 1], cells, old_, f.width)
  }

  /** The bottom row looks so, and the cursor is tracked where it rests or has been addressed. */
  ghost predicate BottomDone(d: Display, last: Frame, f: Frame, rows: seq<seq<Cell>>, behind: bool, x: int)
    requires FrameOk(last) && FrameOk(f) && SameSize(last, f)
  {
    && BottomShows(d, last, f, rows)
    && behind == (BottomRest(d, last, f) != -1) && (behind ==> x == BottomRest(d, last, f))
  }

  lemma BottomIsDone(d: Display, last: Frame, f: Frame, rows: seq<seq<Cell>>, behind: bool, x: int)
    requires FrameOk(last) && FrameOk(f) && SameSize(last, f) && |rows| == f.height
    ensures d.Bottom(rows[f.height - 1], behind, x, f.rows[f.height - 1].cells, last.rows[f.height - 1].cells, last.col)
         == BottomDone(d, last, f, rows, behind, x)
  {
    hide Traced;
  }

  /** The rows from the top to before `y` have not changed. */
  ghost predicate Idle(rows: seq<Row>, f: Frame, y: nat)
    requires y <= |rows| && y <= |f.rows|
  {
    forall i | 0 <= i < y :: f.rows[i].cells == rows[i].cells
  }

  lemma NoChange(cells: seq<Cell>, old_: seq<Cell>)
    requires |cells| == |old_|
    ensures FirstChange(cells, old_, 0) == |cells| <==> cells == old_
  {
  }

  /** The bottom row decides whether the picture is right. */
  lemma LastRow(known: bool, a: seq<seq<Cell>>, b: seq<seq<Cell>>, want: seq<Row>, rows: seq<Row>)
    requires 0 < |want| && Partly(known, a, want, rows, |want| - 1) && OthersLook(a, b, |want| - 1)
    ensures Pictured(b, want) <==> SameLooks(b[|want| - 1], want[|want| - 1].cells)
  {
    hide SameLooks;
    forall i | 0 <= i < |want| - 1 ensures SameLooks(b[i], want[i].cells) { LooksTrans(a[i], b[i], want[i].cells); }
  }

  /** Writes the rows from `first` on. */
  method PutRows(d: Display, initialized: bool, frame: FrameState, last: Frame, f: Frame, rows: seq<Row>, first: nat)
    requires FrameOk(last) && FrameOk(f) && (initialized ==> SameSize(last, f))
    requires first == Placed(initialized, last, f) < f.height && Staged(initialized, last, f, rows, first)
    requires frame.Synced() && frame.term.width == f.width && frame.term.height == f.height && frame.target == f
    requires Follows(frame.behind, frame.cursorX, frame.cursorY, frame.term) && frame.cursorX < f.width
    requires frame.behind ==> initialized && first == 0 && rows == last.rows && frame.cursorX == last.col
    requires Partly(initialized, frame.term.rows, f.rows, rows, first)
    modifies frame
    ensures frame.Synced() && frame.term.width == f.width && frame.term.height == f.height
    ensures Follows(frame.behind, frame.cursorX, frame.cursorY, frame.term) && (!old(frame.behind) ==> !frame.behind)
    ensures Pictured(frame.term.rows, f.rows)
       <==> (old(frame.behind) ==> !UnchangedAbove(last, f) || BottomRight(d, last, f))
    ensures old(frame.behind) ==> if UnchangedAbove(last, f)
                                  then BottomDone(d, last, f, frame.term.rows, frame.behind, frame.cursorX) else !frame.behind
    ensures 1 < f.width ==> (frame.cursorX == f.width <==> CornerWritten(d, initialized, last, f))
    ensures 1 < f.width && frame.cursorX == f.width ==> frame.cursorY == f.height - 1
  {
    hide Run, Step, SameLooks, OthersLook, RowsOk, Partly, Staged, LastColumnWritten, Placed, Pictured, Idle, Trailing, FirstChange,
      BottomDone, FrameState.Recorded, Display.RowWritten, Display.RowRight, Display.Bottom;
    var wrap := false;
    var y := first;
    assert frame.behind ==> Idle(rows, f, 0) by { NoneIdle(rows, f); }
    while y < f.height
      invariant first <= y <= f.height
      invariant frame.Synced() && frame.term.width == f.width && frame.term.height == f.height
      invariant y < f.height ==> Partly(initialized, frame.term.rows, f.rows, rows, y)
      invariant !old(frame.behind) ==> !frame.behind
      invariant old(frame.behind) && y < f.height ==> frame.behind == Idle(rows, f, y)
      invariant frame.behind && y < f.height ==> frame.cursorX == last.col
      invariant y == f.height ==> (Pictured(frame.term.rows, f.rows)
                  <==> (old(frame.behind) && Idle(rows, f, f.height - 1) ==> BottomRight(d, last, f)))
      invariant y == f.height && old(frame.behind) ==> if Idle(rows, f, f.height - 1)
                  then BottomDone(d, last, f, frame.term.rows, frame.behind, frame.cursorX) else !frame.behind
      invariant wrap == Wraps(d, initialized, last, f, y)
      invariant Resting(frame.behind, frame.cursorX, frame.cursorY, frame.term, y, wrap)
      invariant !wrap && 1 < f.width
            ==> (frame.cursorX == f.width <==> y == f.height && CornerWritten(d, initialized, last, f))
      invariant !wrap && 1 < f.width && frame.cursorX == f.width ==> frame.cursorY == f.height - 1
    {
      StagedWritten(d, initialized, last, f, rows, first, y, wrap);
      PartlyRow(initialized, frame.term.rows, f.rows, rows, y);
      ghost var before := frame.term.rows;
      wrap := d.PutRow(initialized, frame, f, y, rows[y], wrap);
      if y + 1 < f.height {
        PartlyNext(initialized, before, frame.term.rows, f.rows, rows, y);
        if old(frame.behind) { OneMoreIdle(last, f, rows, y); }
      } else {
        LastRow(initialized, before, frame.term.rows, f.rows, rows);
        if old(frame.behind) { BottomIsDone(d, last, f, frame.term.rows, frame.behind, frame.cursorX); }
      }
      y := y + 1;
    }
    if old(frame.behind) { AllIdle(last, f); }
  }

  lemma NoneIdle(rows: seq<Row>, f: Frame)
    ensures Idle(rows, f, 0)
  {
  }

  lemma OneMoreIdle(last: Frame, f: Frame, rows: seq<Row>, y: nat)
    requires FrameOk(last) && FrameOk(f) && SameSize(last, f) && rows == last.rows && y < f.height
    ensures |f.rows[y].cells| == f.width == |rows[y].cells|
    ensures Idle(rows, f, y + 1) <==> Idle(rows, f, y) && FirstChange(f.rows[y].cells, rows[y].cells, 0) == f.width
  {
    hide FirstChange, CleanRow;
    NoChange(f.rows[y].cells, rows[y].cells);
  }

  lemma AllIdle(last: Frame, f: Frame)
    requires FrameOk(last) && FrameOk(f) && SameSize(last, f)
    ensures Idle(last.rows, f, f.height - 1) == UnchangedAbove(last, f)
  {
  }

  lemma PartlyRow(known: bool, screen: seq<seq<Cell>>, want: seq<Row>, rows: seq<Row>, y: nat)
    requires Partly(known, screen, want, rows, y) && y < |want|
    ensures y < |rows| && (known ==> SameLooks(screen[y], rows[y].cells))
  {
  }

  /** The terminal's cursor and rendition are those of the frame, or the cursor is one column behind. */
  ghost predicate Poised(s: Screen, f: Frame, behind: bool) {
    && Shape(s) && s.width == f.width && s.height == f.height && FullRegion(s)
    && s.row == f.row && s.col == f.col - Shift(behind) && !s.pending
    && s.rendition == f.rendition && s.visible == f.visible
    && (behind ==> f.row == f.height - 1)
  }

  /** The terminal shows the frame: the looks of its cells, and its cursor and rendition. */
  ghost predicate Shows(s: Screen, f: Frame) {
    Poised(s, f, false) && Pictured(s.rows, f.rows)
  }

  /** The old rows, made to fit the size of the new frame. */
  method FitRows(last: Frame, f: Frame) returns (rows: seq<Row>)
    requires FrameOk(last) && FrameOk(f)
    ensures SameSize(last, f) ==> rows == last.rows
    ensures f.height <= |rows| && forall i | 0 <= i < |rows| :: f.width <= |rows[i].cells|
  {
    rows := last.rows;
    if last.width < f.width {
      for i := 0 to |rows|
        invariant |rows| == last.height
        invariant forall k | 0 <= k < i :: f.width <= |rows[k].cells|
        invariant forall k | i <= k < |rows| :: rows[k] == last.rows[k]
      {
        var row := new Row(rows[i].cells + seq(f.width - last.width, _ => Reset(f.rendition.background)), rows[i].gen);
        rows := rows[i := row];
      }
    }
    if |rows| < f.height {
      var blank := new Row(BlankRow(f.width, 0), 0);
      rows := rows + seq(f.height - |rows|, _ => blank);
    }
  }

  lemma RegionReset(s: Screen)
    requires Shape(s)
    ensures var t := Step(s, SetRegion(0, 0)); FullRegion(t) && t.width == s.width && t.height == s.height
  {
    hide Grid;
  }

  lemma PlainSteps(s: Screen)
    requires Shape(s)
    ensures Step(s, SetRendition(Plain(0))) == s.(rendition := Plain(0))
    ensures Step(s, CursorTo(0, 0)) == At(s, 0, 0)
    ensures Step(s, EraseAll) == s.(rows := Step(s, EraseAll).rows, pending := false)
    ensures Step(s, ShowCursor(false)) == s.(visible := false)
  {
    hide Grid, BlankRow;
  }

  /** Clears a terminal about which nothing is known. */
  method StartOver(frame: FrameState)
    requires frame.Recorded()
    modifies frame
    ensures frame.Synced() && frame.cursorX == 0 && frame.cursorY == 0 && !frame.behind
    ensures Tracked(0, 0, frame.term)
    ensures frame.term.width == old(frame.term).width && frame.term.height == old(frame.term).height
  {
    hide Run, Grid, Step, Allowed, Worded;
    ScrollWords(frame.target, 0);
    RegionReset(frame.term);
    frame.Append(SetRegion(0, 0));
    PlainSteps(frame.term);
    frame.Append(SetRendition(Plain(0)));
    PlainSteps(frame.term);
    frame.Append(CursorTo(0, 0));
    PlainSteps(frame.term);
    frame.Append(EraseAll);
    PlainSteps(frame.term);
    frame.cursorX, frame.cursorY, frame.rendition := 0, 0, Plain(0);
    frame.behind := false;
    frame.cursorVisible := false;
    frame.Append(ShowCursor(false));
  }

  /** The shortcut for a display that moved up. */
  method TryScroll(frame: FrameState, last: Frame, f: Frame, gen: nat) returns (rows: seq<Row>, first: nat)
    requires FrameOk(last) && FrameOk(f) && SameSize(last, f)
    requires frame.Synced() && frame.term.width == f.width && frame.term.height == f.height && frame.target == f
    requires Follows(frame.behind, frame.cursorX, frame.cursorY, frame.term) && frame.cursorX < f.width
    requires Pictured(frame.term.rows, last.rows)
    modifies frame
    ensures frame.Synced() && frame.term.width == f.width && frame.term.height == f.height
    ensures Follows(frame.behind, frame.cursorX, frame.cursorY, frame.term) && frame.cursorX < f.width
    ensures frame.behind == (old(frame.behind) && first == 0)
    ensures first == 0 ==> rows == last.rows && frame.cursorX == old(frame.cursorX)
    ensures first == Placed(true, last, f) < f.height && Staged(true, last, f, rows, first)
    ensures Partly(true, frame.term.rows, f.rows, rows, first)
  {
    hide Run, Step, SameLooks, ScrollUp, Moved, Tracked, Trailing, Pictured, Partly, Staged, RowsOk, PlanOf, BlankRow,
      FrameState.Recorded;
    rows := last.rows;
    var plan := FindScroll(rows, f.rows);
    first := plan.height;
    PlanSound(rows, f.rows);
    if plan.height == 0 {
      StayedStaged(frame.term.rows, last, f);
    } else {
      assert 0 < plan.lines && plan.lines + plan.height <= f.height by { MovedBounds(rows, f.rows, plan); }
      var blank := new Row(BlankRow(f.width, 0), gen);
      var bottom := plan.lines + plan.height - 1;
      PicturedMoves(frame.term.rows, rows, plan.lines, bottom, blank);
      ScrollTerminal(frame, plan.lines, bottom, f.height);
      rows := ShiftRows(rows, plan.lines, bottom, blank);
      MovedPartly(frame.term.rows, last.rows, f.rows, plan, rows, blank);
      MovedStaged(last, f, rows, blank);
    }
  }

  lemma MovedBounds(rows: seq<Row>, want: seq<Row>, plan: Scroll)
    requires Moved(rows, want, plan)
    ensures 0 < plan.lines && plan.lines + plan.height <= |rows| == |want|
  {
  }

  lemma MovedPartly(screen: seq<seq<Cell>>, rows: seq<Row>, want: seq<Row>, plan: Scroll, moved: seq<Row>, blank: Row)
    requires Moved(rows, want, plan)
    requires moved == rows[plan.lines..plan.lines + plan.height] + seq(plan.lines, _ => blank)
                    + rows[plan.lines + plan.height..]
    requires Pictured(screen, moved)
    ensures Partly(true, screen, want, moved, plan.height)
  {
    hide SameLooks;
  }

  lemma StayedStaged(screen: seq<seq<Cell>>, last: Frame, f: Frame)
    requires FrameOk(last) && FrameOk(f) && SameSize(last, f) && PlanOf(last.rows, f.rows).height == 0
    requires Pictured(screen, last.rows)
    ensures Staged(true, last, f, last.rows, 0) && Partly(true, screen, f.rows, last.rows, 0)
  {
    hide SameLooks, CleanRow, FirstEqual;
  }

  lemma MovedStaged(last: Frame, f: Frame, moved: seq<Row>, blank: Row)
    requires FrameOk(last) && FrameOk(f) && SameSize(last, f)
    requires Moved(last.rows, f.rows, PlanOf(last.rows, f.rows))
    requires var plan := PlanOf(last.rows, f.rows);
             moved == last.rows[plan.lines..plan.lines + plan.height] + seq(plan.lines, _ => blank)
                    + last.rows[plan.lines + plan.height..]
    requires blank.cells == BlankRow(f.width, 0) && blank !in f.rows
    ensures Staged(true, last, f, moved, PlanOf(last.rows, f.rows).height)
  {
    hide CleanRow, PlanOf, BlankRow, EqualRows;
    assert |BlankRow(f.width, 0)| == f.width by { BlankLength(f.width, 0); }
  }

  lemma UnknownStaged(screen: seq<seq<Cell>>, last: Frame, f: Frame, rows: seq<Row>)
    requires FrameOk(last) && FrameOk(f) && |screen| == f.height <= |rows|
    requires forall i | 0 <= i < |rows| :: f.width <= |rows[i].cells|
    ensures Staged(false, last, f, rows, 0) && Partly(false, screen, f.rows, rows, 0)
  {
  }

  /** The corner of the screen has been written, and the cursor belongs at most four columns before its end, not
      in the first column: backspaces then take it one column too far. */
  predicate Overrun(d: Display, known: bool, last: Frame, f: Frame)
    requires FrameOk(last) && FrameOk(f) && (known ==> SameSize(last, f))
  {
    f.row == f.height - 1 && 0 < f.col && f.width - f.col < 5 && CornerWritten(d, known, last, f)
  }

  /** An overrun happens, for instance, when one character is put into the corner of a screen of two columns. */
  lemma OverrunHappens(d: Display, empty: Row, corner: Row)
    requires empty.cells == [Reset(0), Reset(0)]
    requires corner.cells == [Reset(0), Ink('A', Plain(0))]
    ensures FrameOk(Frame(2, 1, [empty], 0, 0, Plain(0), true)) && FrameOk(Frame(2, 1, [corner], 0, 1, Plain(0), true))
    ensures Overrun(d, true, Frame(2, 1, [empty], 0, 0, Plain(0), true), Frame(2, 1, [corner], 0, 1, Plain(0), true))
  {
    var last, f := Frame(2, 1, [empty], 0, 0, Plain(0), true), Frame(2, 1, [corner], 0, 1, Plain(0), true);
    assert corner.cells[1] != empty.cells[1];
    assert d.LastDrawn(true, corner.cells, empty.cells, 0);
    assert FirstEqual([empty], corner, 0) == FirstEqual([empty], corner, 1) == 1;
    assert !Wraps(d, true, last, f, 0);
  }

  lemma VisibleStep(s: Screen, on: bool)
    requires Shape(s)
    ensures Step(s, ShowCursor(on)) == s.(visible := on)
  {
  }

  /** Moves the cursor to where the frame has it. */
  method PlaceCursor(frame: FrameState, f: Frame, known: bool, ghost overrun: bool)
    requires FrameOk(f) && frame.Synced() && Follows(frame.behind, frame.cursorX, frame.cursorY, frame.term)
    requires frame.target == f && (frame.behind ==> known)
    requires frame.term.width == f.width && frame.term.height == f.height
    requires overrun == (f.row == f.height - 1 && 0 < f.col && f.width - f.col < 5 && frame.cursorX == f.width)
    requires 1 < f.width && frame.cursorX == f.width ==> frame.cursorY == f.height - 1
    modifies frame
    ensures frame.Synced()
    ensures frame.term == At(old(frame.term), f.row, f.col - Shift(frame.behind))
    ensures frame.behind ==> f.row == f.height - 1 && 0 < f.col
    ensures frame.behind == if old(frame.behind) then f.row == old(frame.cursorY) && Near(old(frame.cursorX), f.col)
                            else overrun
  {
    hide Run, Grid, RowsOk, Step, FrameState.Recorded;
    if !known || f.row != frame.cursorY || f.col != frame.cursorX {
      ghost var was := frame.behind;
      frame.AppendMove(f.row, f.col);
      if !was { frame.behind := overrun; }
    }
  }

  /** The cursor, its visibility and the rendition of the new frame. */
  method Finish(frame: FrameState, f: Frame, known: bool, ghost overrun: bool)
    requires FrameOk(f) && frame.Synced() && Follows(frame.behind, frame.cursorX, frame.cursorY, frame.term)
    requires frame.target == f && (frame.behind ==> known)
    requires frame.term.width == f.width && frame.term.height == f.height
    requires overrun == (f.row == f.height - 1 && 0 < f.col && f.width - f.col < 5 && frame.cursorX == f.width)
    requires 1 < f.width && frame.cursorX == f.width ==> frame.cursorY == f.height - 1
    modifies frame
    ensures frame.Synced() && frame.term.rows == old(frame.term).rows
    ensures Poised(frame.term, f, frame.behind) && (frame.behind ==> 0 < f.col)
    ensures frame.behind == if old(frame.behind) then f.row == old(frame.cursorY) && Near(old(frame.cursorX), f.col)
                            else overrun
  {
    hide Run, Grid, RowsOk, Tracked, Trailing, Near, Step, Allowed, Worded;
    ScrollWords(f, 0);
    PlaceCursor(frame, f, known, overrun);
    if !known || f.visible != frame.cursorVisible {
      VisibleStep(frame.term, f.visible);
      frame.Append(ShowCursor(f.visible));
      frame.cursorVisible := f.visible;
    }
    frame.UpdateRendition(f.rendition, !known);
    if !known {
      LinkStep(frame.term);
      frame.Append(ClearLink);
    }
  }

  /** The operations that take a terminal showing `last` to the frame `f`; without such a terminal, any terminal of the
      right size. The terminal's cursor may start one column behind. Then every cell looks as in `f` if and only if
      `CellsRight`, and the cursor ends in place if and only if not `StaysBehind`. Otherwise every cell looks as in `f`,
      and the cursor ends in place if and only if there is no overrun. */
  method NewFrame(d: Display, initialized: bool, last: Frame, f: Frame, gen: nat, ghost terminal: Screen, ghost behind: bool)
    returns (ops: seq<Op>, ghost after: bool)
    requires FrameOk(last) && FrameOk(f)
    requires Shape(terminal) && terminal.width == f.width && terminal.height == f.height
    requires initialized && SameSize(last, f) ==> Poised(terminal, last, behind) && Pictured(terminal.rows, last.rows)
    ensures Worded(f, ops)
    ensures var known := initialized && SameSize(last, f);
            && (Pictured(Run(terminal, ops).rows, f.rows) <==> (known && behind ==> CellsRight(d, last, f)))
            && (known && behind && BottomOnly(last, f) ==> BottomShows(d, last, f, Run(terminal, ops).rows))
            && after == if known && behind then StaysBehind(d, last, f) else Overrun(d, known, last, f)
    ensures Poised(Run(terminal, ops), f, after) && (after ==> 0 < f.col)
  {
    hide Run, Grid, Step, RowsOk, Pictured, Partly, Staged, CornerWritten, PlanOf, Worded, UnchangedAbove, BottomRight,
      BottomRest, BottomShows, Near;
    var known := initialized && SameSize(last, f);
    var frame := new FrameState(f, terminal, last.visible);
    if !known {
      StartOver(frame);
    } else {
      frame.cursorX, frame.cursorY, frame.rendition := last.col, last.row, last.rendition;
      frame.behind := behind;
    }
    var rows := FitRows(last, f);
    var first := 0;
    if known {
      rows, first := TryScroll(frame, last, f, gen);
    } else {
      UnknownStaged(frame.term.rows, last, f, rows);
    }
    PutRows(d, known, frame, last, f, rows, first);
    Finish(frame, f, known, Overrun(d, known, last, f));
    ops := frame.str;
    after := frame.behind;
  }

  /** The terminal shows a frame, with its cells right and its cursor in step or not. */
  lemma InStep(s: Screen, f: Frame, behind: bool)
    requires Poised(s, f, behind)
    ensures Shows(s, f) <==> !behind && Pictured(s.rows, f.rows)
  {
    hide Pictured, Grid;
  }

  /** Two frames in a row can go wrong. On a screen of two columns and one row, the first one puts an A into the corner
      and has its cursor there: an overrun leaves the real cursor in the first column. The second one has a B in the same
      place. */
  lemma TwoFrames(d: Display, a: Row, b: Row)
    requires a.cells == [Reset(0), Ink('A', Plain(0))] && b.cells == [Reset(0), Ink('B', Plain(0))]
    ensures FrameOk(Frame(2, 1, [a], 0, 1, Plain(0), true)) && FrameOk(Frame(2, 1, [b], 0, 1, Plain(0), true))
    ensures !CellsRight(d, Frame(2, 1, [a], 0, 1, Plain(0), true), Frame(2, 1, [b], 0, 1, Plain(0), true))
    ensures BottomOnly(Frame(2, 1, [a], 0, 1, Plain(0), true), Frame(2, 1, [b], 0, 1, Plain(0), true))
    ensures d.RowTrace(b.cells, a.cells, 1) == Mended(1, 2, false)
  {
    var last, f := Frame(2, 1, [a], 0, 1, Plain(0), true), Frame(2, 1, [b], 0, 1, Plain(0), true);
    assert a.cells[1] != b.cells[1];
    assert FirstEqual([a], b, 0) == FirstEqual([a], b, 1) == 1;
    assert FirstChange(b.cells, a.cells, 0) == FirstChange(b.cells, a.cells, 1) == 1;
    assert d.ApartEnd(b.cells, a.cells, 1, 0, Plain(0)) == d.ApartEnd(b.cells, a.cells, 2, 0, Plain(0)) == Stretch(2, false, 2);
    assert d.RowTrace(b.cells, a.cells, 1) == Mended(1, 2, false);
    assert LookOf(b.cells[0]) != LookOf(b.cells[1]);
    assert !Uniform(b.cells, 0, 1);
  }

  /** What the bottom row then shows: B and A instead of a blank and B. */
  lemma TwoFramesSeen(row: seq<Cell>, a: seq<Cell>, b: seq<Cell>)
    requires a == [Reset(0), Ink('A', Plain(0))] && b == [Reset(0), Ink('B', Plain(0))]
    requires Traced(Mended(1, 2, false), true, row, b, a, 2)
    ensures SameLooks(row, [Ink('B', Plain(0)), Ink('A', Plain(0))])
  {
  }

  /** The same frame again writes nothing: its cells stay right, and the cursor stays behind. */
  lemma SameFrameAgain(d: Display, f: Frame)
    requires FrameOk(f) && f.row == f.height - 1 && 0 < f.col
    ensures CellsRight(d, f, f) && StaysBehind(d, f, f)
  {
    hide RowsOk;
    var cells := f.rows[f.height - 1].cells;
    RowOk(f.rows, f.width, f.height, f.height - 1);
    LooksItself(cells);
    d.SameRowRight(cells, cells, f.col);
    assert FirstEqual(f.rows, f.rows[0], 0) == 0;
  }

  /** A frame that changes a row above the bottom row addresses the cursor. */
  lemma ChangeAbove(d: Display, last: Frame, f: Frame)
    requires FrameOk(last) && FrameOk(f) && SameSize(last, f) && !UnchangedAbove(last, f)
    ensures CellsRight(d, last, f) && StaysBehind(d, last, f) == Overrun(d, true, last, f)
  {
    hide CornerWritten, PlanOf, RowsOk;
  }

  /** On a cleared screen, the frame with the A ends in an overrun. */
  lemma FirstOverrun(d: Display, a: Row)
    requires a.cells == [Reset(0), Ink('A', Plain(0))]
    ensures FrameOk(Frame(2, 1, [a], 0, 1, Plain(0), true))
    ensures Overrun(d, false, Frame(2, 1, [a], 0, 1, Plain(0), true), Frame(2, 1, [a], 0, 1, Plain(0), true))
  {
    var f := Frame(2, 1, [a], 0, 1, Plain(0), true);
    assert d.LastDrawn(false, a.cells, a.cells, 0);
    assert !Wraps(d, false, f, f, 0);
  }

  /** What operations do apart from the rows does not depend on the rows. */
  lemma {:induction false} RowsAside(s: Screen, t: Screen, ops: seq<Op>)
    requires Shape(s) && Shape(t) && t == s.(rows := t.rows)
    ensures Run(t, ops) == Run(s, ops).(rows := Run(t, ops).rows)
  {
    hide Step, Clean, Grid;
    if ops != [] {
      var front, op := ops[..|ops| - 1], ops[|ops| - 1];
      RowsAside(s, t, front);
      StepAside(Run(s, front), Run(t, front), op);
    }
  }

  lemma DownAside(s: Screen, t: Screen)
    requires Shape(s) && Shape(t) && t == s.(rows := t.rows)
    ensures Down(t) == Down(s).(rows := Down(t).rows)
  {
    hide Grid, ScrollUp, BlankRow;
  }

  lemma PrintAside(s: Screen, t: Screen, ch: char)
    requires Shape(s) && Shape(t) && t == s.(rows := t.rows)
    ensures PrintChar(t, ch) == PrintChar(s, ch).(rows := PrintChar(t, ch).rows)
  {
    hide Clean, Painted, Down;
    if s.pending {
      var a, b := MoveCol(SetRow(s, s.row, SetWrap(s.rows[s.row])), 0), MoveCol(SetRow(t, t.row, SetWrap(t.rows[t.row])), 0);
      DownAside(a, b);
      WrapKeeps(s);
      WrapKeeps(t);
    }
  }

  lemma StepAside(s: Screen, t: Screen, op: Op)
    requires Shape(s) && Shape(t) && t == s.(rows := t.rows)
    ensures Step(t, op) == Step(s, op).(rows := Step(t, op).rows)
  {
    hide Grid, Painted, Down, PrintChar, BlankRows;
    match op
    case Print(ch) => PrintAside(s, t, ch);
    case LineFeed => DownAside(s.(pending := false), t.(pending := false));
    case _ =>
  }

  function CellsOf(rows: seq<Row>): seq<seq<Cell>> {
    seq(|rows|, i requires 0 <= i < |rows| => rows[i].cells)
  }

  lemma CellsPicture(f: Frame)
    requires FrameOk(f)
    ensures Pictured(CellsOf(f.rows), f.rows) && Grid(CellsOf(f.rows), f.width, f.height)
  {
    hide CleanRow;
  }

  /** The client, which keeps the last frame it wrote and never looks at the terminal. */
  class Client {
    const display: Display
    var localFramebuffer: Frame
    var repaintRequested: bool
    /** The terminal, and whether its cursor is one column before the last frame's. */
    ghost var term: Screen
    ghost var behind: bool

    ghost predicate Valid()
      reads this
    {
      && FrameOk(localFramebuffer) && Shape(term)
      && (!repaintRequested && term.width == localFramebuffer.width && term.height == localFramebuffer.height
          ==> Poised(term, localFramebuffer, behind))
    }

    constructor (display: Display, frame: Frame, ghost terminal: Screen)
      requires FrameOk(frame) && Shape(terminal)
      ensures Valid() && repaintRequested && !behind && term == terminal && localFramebuffer == frame
      ensures this.display == display
    {
      this.display, localFramebuffer, repaintRequested, term, behind := display, frame, true, terminal, false;
    }

    /** After a repaint the terminal shows the new frame's cells. Otherwise, if it showed the last frame's cells, it
        shows the new ones if and only if its cursor was in step or `CellsRight`. Whether the cursor is in step is settled
        by the two frames and by whether it was so before. */
    method OutputNewFrame(newState: Frame, gen: nat)
      requires Valid() && FrameOk(newState) && term.width == newState.width && term.height == newState.height
      modifies this
      ensures Valid() && !repaintRequested && localFramebuffer == newState && Poised(term, newState, behind)
      ensures var known := old(!repaintRequested) && SameSize(old(localFramebuffer), newState);
              && (known && Pictured(old(term).rows, old(localFramebuffer).rows)
                  ==> (Pictured(term.rows, newState.rows)
                       <==> (old(behind) ==> CellsRight(display, old(localFramebuffer), newState))))
              && (!known ==> Pictured(term.rows, newState.rows))
              && (known && Pictured(old(term).rows, old(localFramebuffer).rows) && old(behind)
                  && BottomOnly(old(localFramebuffer), newState)
                  ==> BottomShows(display, old(localFramebuffer), newState, term.rows))
              && (behind == if known && old(behind) then StaysBehind(display, old(localFramebuffer), newState)
                            else Overrun(display, known, old(localFramebuffer), newState))
              && (!known || Shows(old(term), old(localFramebuffer))
                  ==> (Shows(term, newState) <==> !Overrun(display, known, old(localFramebuffer), newState)))
    {
      hide Run, Pictured, Overrun, CellsRight, StaysBehind, BottomOnly, BottomShows, RowsOk, Grid, Clean;
      var known := !repaintRequested && SameSize(localFramebuffer, newState);
      CellsPicture(localFramebuffer);
      ghost var model := if known && !Pictured(term.rows, localFramebuffer.rows)
                         then term.(rows := CellsOf(localFramebuffer.rows)) else term;
      ghost var after;
      var diff;
      diff, after := NewFrame(display, !repaintRequested, localFramebuffer, newState, gen, model, behind);
      RowsAside(model, term, diff);
      term := Run(term, diff);
      behind := after;
      InStep(term, newState, behind);
      repaintRequested := false;
      localFramebuffer := newState;
    }
  }

  /** A session of three frames whose last one comes out wrong. The first ends in an overrun, the second is the same frame
      again, and the third has a B instead of the A. The terminal then shows B and A. */
  method ThreeFrames(display: Display, a: Row, b: Row, ghost terminal: Screen) returns (client: Client)
    requires a.cells == [Reset(0), Ink('A', Plain(0))] && b.cells == [Reset(0), Ink('B', Plain(0))]
    requires Shape(terminal) && terminal.width == 2 && terminal.height == 1
    ensures client.Valid() && |client.term.rows| == 1
    ensures SameLooks(client.term.rows[0], [Ink('B', Plain(0)), Ink('A', Plain(0))])
  {
    hide Pictured, CellsRight, StaysBehind, Overrun, BottomOnly, SameLooks, Display.RowTrace;
    var first, third := Frame(2, 1, [a], 0, 1, Plain(0), true), Frame(2, 1, [b], 0, 1, Plain(0), true);
    TwoFrames(display, a, b);
    FirstOverrun(display, a);
    SameFrameAgain(display, first);
    client := new Client(display, first, terminal);
    client.OutputNewFrame(first, 0);
    client.OutputNewFrame(first, 1);
    client.OutputNewFrame(third, 2);
    TwoFramesSeen(client.term.rows[0], a.cells, b.cells);
  }
}
