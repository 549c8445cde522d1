/** What runs of operations do to the picture on the screen. */
module Drawing {
  import opened Terminal

  ghost predicate SameLooks(a: seq<Cell>, b: seq<Cell>) {
    |a| == |b| && forall j | 0 <= j < |a| :: LookOf(a[j]) == LookOf(b[j])
  }

  /** Columns `from` to `to` look alike. */
  ghost predicate Agree(a: seq<Cell>, b: seq<Cell>, from: nat, to: nat)
    requires to <= |a| && to <= |b|
  {
    forall j | from <= j < to :: LookOf(a[j]) == LookOf(b[j])
  }

  function At(s: Screen, y: int, x: int): Screen {
    s.(row := y, col := x, pending := false)
  }

  /** The operation `op`, `n` times. */
  ghost function Repeat(s: Screen, op: Op, n: nat): (t: Screen)
    requires Shape(s)
    ensures Kept(s, t)
  {
    if n == 0 then s
    else
      var before := Repeat(s, op, n - 1);
      StepKeeps(before, op);
      Step(before, op)
  }

  lemma {:induction false} RunRepeat(s: Screen, ops: seq<Op>, op: Op, n: nat)
    requires Shape(s)
    ensures Run(s, ops + seq(n, _ => op)) == Repeat(Run(s, ops), op, n)
  {
    hide Step, Shape, Kept;
    var all := ops + seq(n, _ => op);
    if n == 0 {
      assert all == ops;
    } else {
      RunRepeat(s, ops, op, n - 1);
      assert all[..|all| - 1] == ops + seq(n - 1, _ => op);
    }
  }

  lemma Feed(s: Screen)
    requires Shape(s) && FullRegion(s) && s.row + 1 < s.height
    ensures Step(s, LineFeed) == At(s, s.row + 1, s.col)
  {
    hide Grid, DeleteLines;
  }

  lemma {:induction false} DownTimes(s: Screen, n: nat)
    requires Shape(s) && FullRegion(s) && !s.pending && s.row + n < s.height
    ensures Repeat(s, LineFeed, n) == At(s, s.row + n, s.col)
  {
    hide Grid, Step, Clean;
    if n > 0 {
      DownTimes(s, n - 1);
      Feed(Repeat(s, LineFeed, n - 1));
    }
  }

  lemma {:induction false} BackTimes(s: Screen, n: nat)
    requires Shape(s) && n <= s.col
    ensures Repeat(s, Backspace, n) == if n == 0 then s else At(s, s.row, s.col - n)
  {
    hide Grid;
    if n > 0 { BackTimes(s, n - 1); }
  }

  lemma PaintedMore(row: seq<Cell>, from: nat, n: nat, cell: Cell)
    requires from + n + 1 <= |row|
    ensures |Painted(row, from, n, cell)| == |row|
    ensures Painted(Painted(row, from, n, cell), from + n, 1, cell) == Painted(row, from, n + 1, cell)
  {
  }

  /** `n` copies of `cell` written from the cursor on. */
  function Written(s: Screen, n: nat, cell: Cell): Screen
    requires Shape(s) && s.col + n <= s.width
  {
    SetRow(s, s.row, Painted(s.rows[s.row], s.col, n, cell))
      .(col := if s.col + n < s.width then s.col + n else s.width - 1, pending := s.col + n >= s.width)
  }

  lemma PrintOnce(s: Screen, ch: char)
    requires Shape(s) && !s.pending
    ensures PrintChar(s, ch) == Written(s, 1, Ink(ch, s.rendition))
  {
    hide Painted, Grid;
  }

  lemma {:induction false} PrintTimes(s: Screen, ch: char, n: nat)
    requires Shape(s) && !s.pending && s.col + n <= s.width
    ensures Repeat(s, Print(ch), n) == Written(s, n, Ink(ch, s.rendition))
  {
    hide Painted, PrintChar, Clean;
    var cell := Ink(ch, s.rendition);
    var row := s.rows[s.row];
    if n == 0 {
      assert Painted(row, s.col, 0, cell) == row by { PaintedNone(row, s.col, cell); }
      assert s.rows[s.row := row] == s.rows;
    } else {
      PrintTimes(s, ch, n - 1);
      var t := Repeat(s, Print(ch), n - 1);
      PaintedMore(row, s.col, n - 1, cell);
      PrintOnce(t, ch);
    }
  }

  lemma ScrollMore(rows: seq<seq<Cell>>, last: int, n: nat, blank: seq<Cell>)
    requires n < last + 1 <= |rows|
    ensures |ScrollUp(rows, 0, last, n, blank)| == |rows|
    ensures ScrollUp(ScrollUp(rows, 0, last, n, blank), 0, last, 1, blank) == ScrollUp(rows, 0, last, n + 1, blank)
  {
  }

  /** On the bottom margin, line feeds scroll. */
  lemma {:induction false} ScrollTimes(s: Screen, n: nat)
    requires Shape(s) && !s.pending && s.top == 0 && s.row == s.bottom && 0 < s.bottom && n <= s.bottom + 1
    ensures Repeat(s, LineFeed, n)
         == s.(rows := ScrollUp(s.rows, 0, s.bottom, n, BlankRow(s.width, s.rendition.background)))
  {
    hide ScrollUp, BlankRow, Clean;
    var blank := BlankRow(s.width, s.rendition.background);
    if n == 0 {
      ScrollNone(s.rows, 0, s.bottom, blank);
    } else {
      ScrollTimes(s, n - 1);
      ScrollMore(s.rows, s.bottom, n - 1, blank);
    }
  }

  /** A character printed while a wrap is pending goes to the first column of the next row. */
  lemma PrintWrapped(s: Screen, ch: char)
    requires Shape(s) && FullRegion(s) && s.pending && s.row + 1 < s.height
    ensures PrintChar(s, ch)
         == Written(At(SetRow(s, s.row, SetWrap(s.rows[s.row])), s.row + 1, 0), 1, Ink(ch, s.rendition))
  {
    hide Painted;
    WrapKeeps(s);
  }

  /** The first `done` columns of `row` are drawn; the others still look like `old_` if that is known. */
  ghost predicate Progress(known: bool, row: seq<Cell>, want: seq<Cell>, old_: seq<Cell>, done: nat) {
    && done <= |want| == |row| <= |old_|
    && Agree(row, want, 0, done)
    && (known ==> Agree(row, old_, done, |row|))
  }

  ghost predicate BlankRun(want: seq<Cell>, from: nat, to: nat, rendition: Renditions)
    requires to <= |want|
  {
    forall j | from <= j < to :: want[j].contents.Empty? && want[j].rendition == rendition
  }

  lemma LastBlank(want: seq<Cell>, from: nat, rendition: Renditions)
    requires from < |want| && BlankRun(want, from, |want|, rendition)
    ensures want[|want| - 1].contents.Empty? && want[|want| - 1].rendition == rendition
  {
  }

  lemma PaintProgress(known: bool, row: seq<Cell>, want: seq<Cell>, old_: seq<Cell>, done: nat, n: nat, cell: Cell)
    requires Progress(known, row, want, old_, done) && done + n <= |want|
    requires forall j | done <= j < done + n :: LookOf(want[j]) == LookOf(cell)
    ensures Progress(known, Painted(row, done, n, cell), want, old_, done + n)
  {
  }

  lemma ProgressNone(known: bool, row: seq<Cell>, want: seq<Cell>, old_: seq<Cell>)
    requires |row| == |want| <= |old_| && (known ==> SameLooks(row, old_))
    ensures Progress(known, row, want, old_, 0)
  {
  }

  /** Every row but `y` looks the same. */
  ghost predicate OthersLook(a: seq<seq<Cell>>, b: seq<seq<Cell>>, y: int) {
    |a| == |b| && forall i | 0 <= i < |a| && i != y :: SameLooks(a[i], b[i])
  }

  lemma WrapUnseen(rows: seq<seq<Cell>>, i: nat, y: nat, row: seq<Cell>)
    requires i < y < |rows| && 0 < |rows[i]|
    ensures OthersLook(rows, rows[i := SetWrap(rows[i])][y := row], y)
  {
  }

  lemma ProgressSame(row: seq<Cell>, want: seq<Cell>, done: nat)
    requires Progress(true, row, want, want, done)
    ensures SameLooks(row, want)
  {
  }

  lemma OthersSame(rows: seq<seq<Cell>>)
    ensures forall y {:trigger OthersLook(rows, rows, y)} :: OthersLook(rows, rows, y)
  {
  }

  lemma OthersStill(a: seq<seq<Cell>>, b: seq<seq<Cell>>, y: int, row: seq<Cell>)
    requires OthersLook(a, b, y) && 0 <= y < |b|
    ensures OthersLook(a, b[y := row], y)
  {
  }

  // ---------------------------------------------------------------- a cursor that is one column behind

  /** What happened to a row: drawn in place; drawn one column too far left from column `x0` on; or drawn so up to
      column `x1` and in place after that. `erased` says that the stretch ended in an erasure up to the end of the row. */
  datatype Trace = Straight | Apart(x0: nat) | Mended(x0: nat, x1: nat, erased: bool)

  /** Columns `from` to `to` look like the columns after them. */
  ghost predicate Slid(row: seq<Cell>, want: seq<Cell>, from: nat, to: nat)
    requires to <= |row| && to < |want|
  {
    forall j | from <= j < to :: LookOf(row[j]) == LookOf(want[j + 1])
  }

  /** How `row` looks when the columns before `done` have been drawn. */
  ghost predicate Traced(g: Trace, known: bool, row: seq<Cell>, want: seq<Cell>, old_: seq<Cell>, done: nat) {
    match g
    case Straight => Progress(known, row, want, old_, done)
    case Apart(x0) =>
      && known && 0 < x0 < done <= |want| == |row| <= |old_|
      && Agree(row, want, 0, x0 - 1) && Slid(row, want, x0 - 1, done - 1) && Agree(row, old_, done - 1, |row|)
    case Mended(x0, x1, erased) =>
      && known && 0 < x0 < x1 <= done <= |want| == |row| <= |old_|
      && Agree(row, want, 0, x0 - 1) && Slid(row, want, x0 - 1, x1 - 1)
      && LookOf(row[x1 - 1]) == LookOf(if erased then want[x1 - 1] else old_[x1 - 1])
      && Agree(row, want, x1, done) && Agree(row, old_, done, |row|)
  }

  /** Drawing from column `x` on, with the cursor behind or not. */
  function Drawn(g: Trace, x: nat, behind: bool): Trace {
    if behind && g.Straight? then Apart(x) else g
  }

  /** The stretch ends before column `x`. */
  function Ended(g: Trace, x: nat): Trace {
    if g.Apart? then Mended(g.x0, x, false) else g
  }

  function Shift(behind: bool): nat {
    if behind then 1 else 0
  }

  lemma TracePaint(g: Trace, known: bool, row: seq<Cell>, want: seq<Cell>, old_: seq<Cell>, done: nat, n: nat, cell: Cell,
                   behind: bool)
    requires Traced(g, known, row, want, old_, done) && 0 < n && done + n <= |want|
    requires behind ==> known && 0 < done
    requires (g.Apart? ==> behind) && (g.Mended? ==> !behind)
    requires forall j | done <= j < done + n :: LookOf(want[j]) == LookOf(cell)
    ensures Traced(Drawn(g, done, behind), known, Painted(row, done - Shift(behind), n, cell), want, old_, done + n)
  {
  }

  lemma TraceBlank(g: Trace, known: bool, row: seq<Cell>, want: seq<Cell>, old_: seq<Cell>, done: nat, n: nat, cell: Cell,
                   behind: bool)
    requires Traced(g, known, row, want, old_, done) && 0 < n && done + n <= |want|
    requires behind ==> known && 0 < done
    requires (g.Apart? ==> behind) && (g.Mended? ==> !behind)
    requires BlankRun(want, done, done + n, cell.rendition) && LookOf(cell) == Blank(cell.rendition) && CleanRow(want)
    ensures Traced(Drawn(g, done, behind), known, Painted(row, done - Shift(behind), n, cell), want, old_, done + n)
  {
    hide Traced, Painted;
    TracePaint(g, known, row, want, old_, done, n, cell, behind);
  }

  /** An erasure up to the end of the row reaches as far as it should, but starts one column early. */
  lemma TraceErase(g: Trace, row: seq<Cell>, want: seq<Cell>, old_: seq<Cell>, done: nat, cell: Cell)
    requires Traced(g, true, row, want, old_, done) && 0 < done < |want| && !g.Mended?
    requires forall j | done <= j < |want| :: LookOf(want[j]) == LookOf(cell)
    ensures Traced(Mended(Drawn(g, done, true).x0, done + 1, true), true,
              Painted(row, done - 1, |want| - done + 1, cell), want, old_, |want|)
  {
  }

  lemma TraceEnd(g: Trace, known: bool, row: seq<Cell>, want: seq<Cell>, old_: seq<Cell>, done: nat)
    requires Traced(g, known, row, want, old_, done)
    ensures Traced(Ended(g, done), known, row, want, old_, done)
  {
  }

  lemma TraceSkip(g: Trace, row: seq<Cell>, want: seq<Cell>, old_: seq<Cell>, done: nat)
    requires Traced(g, true, row, want, old_, done) && done < |want| && want[done] == old_[done]
    ensures Traced(Ended(g, done), true, row, want, old_, done + 1)
  {
    TraceEnd(g, true, row, want, old_, done);
  }

  /** The columns from `from` to `to` all look alike. */
  ghost predicate Uniform(want: seq<Cell>, from: nat, to: nat)
    requires to < |want|
  {
    forall j | from <= j < to :: LookOf(want[j]) == LookOf(want[j + 1])
  }

  /** Whether a row is right after all: the cells in the stretch look alike, and so does the old cell that was left. */
  ghost predicate Lucky(g: Trace, want: seq<Cell>, old_: seq<Cell>) {
    g.Mended? ==>
      && 0 < g.x0 < g.x1 <= |want| <= |old_|
      && Uniform(want, g.x0 - 1, g.x1 - 1) && (g.erased || LookOf(old_[g.x1 - 1]) == LookOf(want[g.x1 - 1]))
  }

  lemma TraceDone(g: Trace, known: bool, row: seq<Cell>, want: seq<Cell>, old_: seq<Cell>)
    requires Traced(g, known, row, want, old_, |want|) && !g.Apart?
    ensures SameLooks(row, want) <==> Lucky(g, want, old_)
  {
    if g.Mended? {
      if SameLooks(row, want) {
        assert forall j | g.x0 - 1 <= j < g.x1 - 1 :: LookOf(want[j]) == LookOf(row[j]) == LookOf(want[j + 1]);
        assert LookOf(row[g.x1 - 1]) == LookOf(want[g.x1 - 1]);
      }
    }
  }
}
