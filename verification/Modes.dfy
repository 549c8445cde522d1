/** Tab stops, the saved cursor, resets, modes and margins, and what the modes do to characters, told from what is read. */
module ModeLaws {
  import opened Options
  import opened Terminal
  import opened Dispatching
  import opened Machines
  import opened Interpreter
  import opened Consoles
  import opened ConsoleLaws
  import opened ParserLaws
  import opened SequenceLaws
  import opened MotionLaws

  // ---------------------------------------------------------------- reading

  lemma SettingDispatched(f: Function, c: Console, ps: seq<int>)
    requires Wf(c) && !IsMotion(f) && !IsEdit(f)
    ensures Wf(Settled(c)) && Dispatched(Some(f), c, ps) == Setting(f, if ClearsWrap(f) then Settled(c) else c, ps)
  {
    hide Motion, Edit, Setting, Clean, Grid;
  }

  lemma SettingKeys()
    ensures CsiFunction(['g' as int]) == Some(ClearTab) && CsiFunction(['r' as int]) == Some(Function.SetMargins)
    ensures CsiFunction(['h' as int]) == Some(SetMode) && CsiFunction(['l' as int]) == Some(ResetMode)
    ensures CsiFunction(['m' as int]) == Some(SelectRendition)
    ensures CsiFunction(['?' as int, 'h' as int]) == Some(SetPrivateMode) && CsiFunction(['?' as int, 'l' as int]) == Some(ResetPrivateMode)
    ensures CsiFunction(['!' as int, 'p' as int]) == Some(PartialReset)
    ensures EscapeFunction(['7' as int]) == Some(SaveState) && EscapeFunction(['8' as int]) == Some(RestoreState)
    ensures EscapeFunction(['c' as int]) == Some(FullReset) && EscapeFunction(['#' as int, '8' as int]) == Some(Alignment)
  {
    assert ['#' as int, '8' as int][0] != '7' as int;
  }

  lemma ReadSetting(w: Widths, m: Machine, n: nat, final: char, f: Function)
    requires Wf(m.console) && 0x40 <= final as int <= 0x7E && n <= PARAM_MAX
    requires CsiFunction([final as int]) == Some(f) && !IsMotion(f) && !IsEdit(f)
    ensures Wf(Settled(m.console)) && Shown(w, m, Csi(n, final)) == Setting(f, if ClearsWrap(f) then Settled(m.console) else m.console, [n])
  {
    hide Wf, Shown, CsiFunction, Dispatched, Csi, Setting, IsMotion, IsEdit, ClearsWrap;
    ReadCsi(w, m, n, final);
    SettingDispatched(f, m.console, [n]);
  }

  /** An escape sequence that is dispatched by its characters. */
  lemma ReadEscapeKey(w: Widths, m: Machine, between: seq<int>, final: char)
    requires Wf(m.console) && |between| < 8 && (forall i | 0 <= i < |between| :: Between(between[i])) && Ends(between, final as int)
    requires between != [] || !(0x40 <= final as int <= 0x5F)
    ensures Shown(w, m, [0x1B] + between + [final as int])
         == Dispatched(EscapeFunction(between + [final as int]), m.console, Parse([]))
  {
    hide Wf, Read, ReadAll, Dispatched, EscapeFunction, Parse, Ends, ControlFunction;
    ReadEscapeSequence(w, m, between, final as int);
  }

  // ---------------------------------------------------------------- tab stops

  /** `ESC H` sets a tab stop at the cursor. */
  lemma SetTabMeans(w: Widths, m: Machine)
    requires Wf(m.console)
    ensures var c, d := m.console, Shown(w, m, [0x1B, 'H' as int]);
            && d == c.(screen := c.screen.(pending := false), tabs := d.tabs) && |d.tabs| == |c.tabs|
            && forall x | 0 <= x < |c.tabs| :: d.tabs[x] <==> c.tabs[x] || x == c.screen.col
  {
    hide Shown, Clean, Grid, Dispatched, ControlFunction, Parse;
    ControlKeys();
    ReadEscaped(w, m, 'H');
    SettingDispatched(SetTab, m.console, Parse([]));
  }

  /** `ESC [ n g` clears the one at the cursor, or all, or none. */
  lemma ClearTabMeans(w: Widths, m: Machine, which: nat)
    requires Wf(m.console) && which <= PARAM_MAX
    ensures var c, d := m.console, Shown(w, m, Csi(which, 'g'));
            && d == c.(tabs := d.tabs, defaultTabs := c.defaultTabs && which != 3) && |d.tabs| == |c.tabs|
            && forall x | 0 <= x < |c.tabs| :: d.tabs[x] <==> c.tabs[x] && which != 3 && !(which == 0 && x == c.screen.col)
  {
    hide Shown, Csi, CsiFunction, Clean, Grid;
    SettingKeys();
    ReadSetting(w, m, which, 'g', ClearTab);
  }

  // ---------------------------------------------------------------- the saved cursor

  /** `ESC 7` saves the cursor, the rendition and two modes. */
  lemma SaveMeans(w: Widths, m: Machine)
    requires Wf(m.console)
    ensures var c, s := m.console, m.console.screen;
            Shown(w, m, [0x1B, '7' as int])
            == c.(screen := s.(pending := false), save := Saved(s.col, s.row, s.rendition, c.autowrap, c.origin))
  {
    hide Shown, Wf, Dispatched, EscapeFunction, Parse;
    SettingKeys();
    ReadEscapeKey(w, m, [], '7');
    assert [0x1B] + [] + ['7' as int] == [0x1B, '7' as int] && [] + ['7' as int] == ['7' as int];
    SettingDispatched(SaveState, m.console, Parse([]));
  }

  /** `ESC 8` brings them back, the cursor as near as it may then be. */
  lemma RestoreMeans(w: Widths, m: Machine)
    requires Wf(m.console)
    ensures var c, v := m.console, m.console.save;
            var b := c.(autowrap := v.autowrap, origin := v.origin);
            var row, col := NearestRow(b, v.row), NearestCol(b, v.col);
            Shown(w, m, [0x1B, '8' as int])
            == b.(screen := c.screen.(row := row, col := col, rendition := v.rendition, pending := false), combCol := col, combRow := row)
  {
    hide Shown, Clean, Grid, Dispatched, EscapeFunction, Parse;
    SettingKeys();
    ReadEscapeKey(w, m, [], '8');
    assert [0x1B] + [] + ['8' as int] == [0x1B, '8' as int] && [] + ['8' as int] == ['8' as int];
    SettingDispatched(RestoreState, m.console, Parse([]));
  }

  // ---------------------------------------------------------------- resets

  /** `ESC c`: a new console of the same size. */
  lemma FullResetMeans(w: Widths, m: Machine)
    requires Wf(m.console)
    ensures var c, d := m.console, Shown(w, m, [0x1B, 'c' as int]);
            && Wf(d) && d.screen.width == c.screen.width && d.screen.height == c.screen.height
            && (forall y, x | 0 <= y < d.screen.height && 0 <= x < d.screen.width :: d.screen.rows[y][x] == Reset(0))
            && d.screen == d.screen.(row := 0, col := 0, pending := false, top := 0, bottom := d.screen.height - 1, rendition := Plain(0), visible := true)
            && d == d.(combCol := 0, combRow := 0, defaultTabs := true, save := Saved(0, 0, Plain(0), true, false),
                       origin := false, autowrap := true, insert := false)
            && forall x | 0 <= x < d.screen.width :: d.tabs[x] <==> x % 8 == 0
  {
    hide Shown, Dispatched, EscapeFunction, Parse, CleanCell;
    SettingKeys();
    ReadEscapeKey(w, m, [], 'c');
    assert [0x1B] + [] + ['c' as int] == [0x1B, 'c' as int] && [] + ['c' as int] == ['c' as int];
    SettingDispatched(FullReset, m.console, Parse([]));
    FreshWf(m.console.screen.width, m.console.screen.height);
  }

  /** `ESC [ ! p`: modes, margins, rendition and saved cursor as at the start; cells and cursor stay. */
  lemma SoftResetMeans(w: Widths, m: Machine)
    requires Wf(m.console)
    ensures var c, s := m.console, m.console.screen;
            Shown(w, m, [0x1B, '[' as int, '!' as int, 'p' as int])
            == c.(screen := s.(pending := false, top := 0, bottom := s.height - 1, rendition := Plain(0), visible := true),
                  save := Saved(0, 0, Plain(0), true, false), origin := false, insert := false)
  {
    hide Read, ReadAll, Clean, Grid, Dispatched, CsiFunction, Parse;
    SettingKeys();
    ReadControlSequence(w, m, [], [], ['!' as int], 'p' as int);
    assert [0x1B, '[' as int] + [] + [] + ['!' as int] + ['p' as int] == [0x1B, '[' as int, '!' as int, 'p' as int];
    assert [] + ['!' as int] + ['p' as int] == ['!' as int, 'p' as int];
    SettingDispatched(PartialReset, m.console, Parse([]));
  }

  /** `ESC # 8` fills the screen with the letter E. */
  lemma AlignmentMeans(w: Widths, m: Machine)
    requires Wf(m.console)
    ensures var c, d := m.console, Shown(w, m, [0x1B, '#' as int, '8' as int]);
            && OnlyCells(c, d)
            && forall y, x | 0 <= y < c.screen.height && 0 <= x < c.screen.width ::
                 d.screen.rows[y][x] == Ink('E', Plain(c.screen.rendition.background))
  {
    hide Shown, Clean, Dispatched, EscapeFunction, Parse;
    SettingKeys();
    ReadEscapeKey(w, m, ['#' as int], '8');
    assert [0x1B] + ['#' as int] + ['8' as int] == [0x1B, '#' as int, '8' as int] && ['#' as int] + ['8' as int] == ['#' as int, '8' as int];
    EditDispatched(Alignment, m.console, Parse([]));
  }

  // ---------------------------------------------------------------- modes

  /** Setting or resetting private modes. */
  function Private(ps: seq<nat>, on: bool): seq<int>
    requires ps != []
  {
    [0x1B, '[' as int, '?' as int] + Joined(ps) + [if on then 'h' as int else 'l' as int]
  }

  lemma ReadPrivateKey(w: Widths, m: Machine, body: seq<int>, final: int)
    requires Wf(m.console) && AllParams(body) && 0x40 <= final <= 0x7E
    ensures var d := Shown(w, m, [0x1B, '[' as int, '?' as int] + body + [final]);
            d == Dispatched(CsiFunction(['?' as int, final]), m.console, Parse(body)) && Wf(d)
  {
    hide Wf, Read, ReadAll, CsiFunction, Dispatched, Parse;
    var mark := ['?' as int];
    ReadControlSequence(w, m, mark, body, [], final);
    assert [0x1B, '[' as int] + mark + body + [] + [final] == [0x1B, '[' as int, '?' as int] + body + [final];
    assert mark + [] + [final] == ['?' as int, final];
  }

  lemma ReadPrivateModes(w: Widths, m: Machine, ps: seq<nat>, on: bool)
    requires Wf(m.console) && 0 < |ps| <= 16 && forall i | 0 <= i < |ps| :: ps[i] <= PARAM_MAX
    ensures Shown(w, m, Private(ps, on)) == DecModes(m.console, ps, 0, on) && Wf(DecModes(m.console, ps, 0, on))
  {
    hide Wf, Shown, CsiFunction, Dispatched, Parse, Joined, Tens, DecModes;
    FiveDigits();
    JoinedLength(ps, 5);
    JoinedChars(ps);
    ParseJoined(ps);
    SettingKeys();
    ReadPrivateKey(w, m, Joined(ps), if on then 'h' as int else 'l' as int);
    SettingDispatched(if on then SetPrivateMode else ResetPrivateMode, m.console, ps);
  }

  /** Modes are set one after the other. */
  lemma ModesInTurn(w: Widths, m: Machine, a: nat, b: nat, on: bool)
    requires Wf(m.console) && a <= PARAM_MAX && b <= PARAM_MAX
    ensures Wf(Shown(w, m, Private([a], on)))
    ensures Shown(w, m, Private([a, b], on)) == Shown(w, m.(console := Shown(w, m, Private([a], on))), Private([b], on))
  {
    hide Wf, Shown, Private, DecMode;
    ReadPrivateModes(w, m, [a], on);
    ReadPrivateModes(w, m, [a, b], on);
    ReadPrivateModes(w, m.(console := Shown(w, m, Private([a], on))), [b], on);
    OneMode(m.console, a, on);
    OneMode(DecMode(m.console, a, on), b, on);
    assert DecModes(DecMode(m.console, a, on), [a, b], 1, on) == DecModes(DecMode(DecMode(m.console, a, on), b, on), [a, b], 2, on);
  }

  lemma OneMode(c: Console, a: nat, on: bool)
    ensures DecModes(c, [a], 0, on) == DecMode(c, a, on)
  {
    hide DecMode;
    assert ParamAt([a], 0, 0) == a;
    assert DecModes(DecMode(c, a, on), [a], 1, on) == DecMode(c, a, on);
  }

  /** `ESC [ ? 7 h` and `ESC [ ? 25 h` switch autowrap and the cursor's visibility on, with `l` off; modes that are not
      known change nothing. */
  lemma SwitchMeans(w: Widths, m: Machine, mode: nat, on: bool)
    requires Wf(m.console) && mode <= PARAM_MAX && mode != 3 && mode != 6
    ensures var c := m.console;
            Shown(w, m, Private([mode], on))
            == if mode == 7 then c.(autowrap := on)
               else if mode == 25 then c.(screen := c.screen.(visible := on))
               else c
  {
    hide Wf, Shown, Private, DecModes;
    ReadPrivateModes(w, m, [mode], on);
    OneMode(m.console, mode, on);
  }

  /** The cursor is home: in the first column of the first row that it may be in. */
  ghost predicate AtHome(c: Console, d: Console) {
    MovedTo(c, d, if c.origin then c.screen.top else 0, 0)
  }

  lemma HomeIs(c: Console)
    requires Wf(c)
    ensures AtHome(c, Home(c))
  {
    hide Clean, Grid, ToRow, ToCol;
    ToBoth(c, 0, 0);
  }

  /** `ESC [ ? 6 h` switches origin mode on, and moves the cursor home as it was before. */
  lemma OriginModeMeans(w: Widths, m: Machine, on: bool)
    requires Wf(m.console)
    ensures var c, d := m.console, Shown(w, m, Private([6], on)); AtHome(c, d.(origin := c.origin)) && d.origin == on
  {
    hide Wf, Shown, Private, DecModes, Home;
    ReadPrivateModes(w, m, [6], on);
    OneMode(m.console, 6, on);
    HomeIs(m.console);
  }

  /** `ESC [ ? 3 h` moves the cursor home and clears the screen, and so does `l`. */
  lemma ColumnModeMeans(w: Widths, m: Machine, on: bool)
    requires Wf(m.console)
    ensures var c, d := m.console, Shown(w, m, Private([3], on));
            && AtHome(c, d.(screen := d.screen.(rows := c.screen.rows))) && Grid(d.screen.rows, c.screen.width, c.screen.height)
            && forall y, x | 0 <= y < c.screen.height && 0 <= x < c.screen.width ::
                 d.screen.rows[y][x] == Reset(c.screen.rendition.background)
  {
    hide Clean, Shown, Private, DecModes, Home, ClearRows;
    ReadPrivateModes(w, m, [3], on);
    OneMode(m.console, 3, on);
    HomeIs(m.console);
    ClearedRows(Home(m.console).screen, 0, m.console.screen.height);
  }

  /** `ESC [ 4 h` switches insert mode on, with `l` off; no other mode of this kind is known. */
  lemma InsertModeMeans(w: Widths, m: Machine, mode: nat, on: bool)
    requires Wf(m.console) && mode <= PARAM_MAX
    ensures var c := Settled(m.console);
            Shown(w, m, Csi(mode, if on then 'h' else 'l')) == if mode == 4 then c.(insert := on) else c
  {
    hide Wf, Shown, Csi, CsiFunction;
    SettingKeys();
    ReadSetting(w, m, mode, if on then 'h' else 'l', if on then SetMode else ResetMode);
    assert ParamAt([mode], 0, 0) == mode;
    var c := Settled(m.console);
    var d := if mode == 4 then c.(insert := on) else c;
    assert AnsiModes(d, [mode], 1, on) == d;
  }

  // ---------------------------------------------------------------- margins

  /** `ESC [ a ; b r`: the margins are rows `a` to `b`, as far as the screen goes, and the cursor goes home; a missing number
      stands for the first or the last row. Nothing happens unless `a` is less than `b` and on the screen. */
  lemma MarginsMean(w: Widths, m: Machine, a: nat, b: nat)
    requires Wf(m.console) && a <= PARAM_MAX && b <= PARAM_MAX
    ensures var c, d, s := m.console, Shown(w, m, Sequence(Joined([a, b]), 'r')), m.console.screen;
            var first, last := Times(a), if b == 0 then s.height else b;
            if first < last && first <= s.height
            then AtHome(c.(screen := s.(top := first - 1, bottom := Lesser(last, s.height) - 1)), d)
            else d == Settled(c)
  {
    hide Shown, Sequence, Joined, CsiFunction, Clean, Grid, Dispatched, MarginsOf;
    SettingKeys();
    var ps: seq<nat> := [a, b];
    ReadValues(w, m, ps, 'r');
    SettingDispatched(Function.SetMargins, m.console, ps);
    assert Consoles.Positive(ps, 0, 1) == Times(a);
    MarginsSet(Settled(m.console), Times(a), ParamAt(ps, 1, m.console.screen.height));
  }

  lemma MarginsSet(c: Console, first: int, last: int)
    requires Wf(c) && 0 < first && 0 < last
    ensures var d, s := MarginsOf(c, first, last), c.screen;
            if first < last && first <= s.height
            then AtHome(c.(screen := s.(top := first - 1, bottom := Lesser(last, s.height) - 1)), d)
            else d == c
  {
    hide Clean, Grid;
  }

  // ---------------------------------------------------------------- everything else

  /** The final characters of the control sequences that do something. */
  const FINALS: string := "ABCDGHfd`IZgJKXLM@PSThlrm"

  /** Every other control sequence, a report or an unknown one, only cancels a pending wrap. */
  lemma OtherSequences(w: Widths, m: Machine, n: nat, final: char)
    requires Wf(m.console) && n <= PARAM_MAX && 0x40 <= final as int <= 0x7E && final !in FINALS
    ensures Shown(w, m, Csi(n, final)) == Settled(m.console)
  {
    hide Wf, Shown, Csi;
    ReadCsi(w, m, n, final);
    OtherFinals(final);
  }

  lemma OtherFinals(final: char)
    requires 0x40 <= final as int <= 0x7E && final !in FINALS
    ensures CsiFunction([final as int]).None? || CsiFunction([final as int]) == Some(Report)
  {
    assert FINALS[0] == 'A' && FINALS[1] == 'B' && FINALS[2] == 'C' && FINALS[3] == 'D' && FINALS[4] == 'G' && FINALS[5] == 'H';
    assert FINALS[6] == 'f' && FINALS[7] == 'd' && FINALS[8] == '`' && FINALS[9] == 'I' && FINALS[10] == 'Z' && FINALS[11] == 'g';
    assert FINALS[12] == 'J' && FINALS[13] == 'K' && FINALS[14] == 'X' && FINALS[15] == 'L' && FINALS[16] == 'M' && FINALS[17] == '@';
    assert FINALS[18] == 'P' && FINALS[19] == 'S' && FINALS[20] == 'T' && FINALS[21] == 'h' && FINALS[22] == 'l' && FINALS[23] == 'r';
    assert FINALS[24] == 'm';
  }

  /** Every other control character only cancels a pending wrap. */
  lemma OtherControls(w: Widths, m: Machine, ch: int)
    requires Wf(m.console) && Executes(m.state) && Control(ch) && !(0x08 <= ch <= 0x0D)
    ensures Shown(w, m, [ch]) == Settled(m.console)
  {
    hide Wf, Shown, Parse, Executes;
    ReadControlCharacter(w, m, ch);
  }

  /** So does every other escape sequence without intermediate characters. */
  lemma OtherEscapes(w: Widths, m: Machine, final: char)
    requires Wf(m.console) && Ends([], final as int) && final !in "DEHM78c"
    ensures Shown(w, m, [0x1B, final as int]) == Settled(m.console)
  {
    hide Wf, Shown, Parse, Ends;
    assert "DEHM78c"[0] == 'D' && "DEHM78c"[1] == 'E' && "DEHM78c"[2] == 'H' && "DEHM78c"[3] == 'M';
    assert "DEHM78c"[4] == '7' && "DEHM78c"[5] == '8' && "DEHM78c"[6] == 'c';
    if 0x40 <= final as int <= 0x5F {
      ReadEscaped(w, m, final);
    } else {
      ReadEscapeKey(w, m, [], final);
      assert [0x1B] + [] + [final as int] == [0x1B, final as int] && [] + [final as int] == [final as int];
    }
  }

  // ---------------------------------------------------------------- a new size

  /** A cell after the size has changed: the wrap bit of an old row is lost with its width, and new cells are blank. */
  function CellKept(s: Screen, width: nat, y: nat, x: nat): Cell
    requires Shape(s)
  {
    if s.height <= y || s.width <= x then Reset(s.rendition.background)
    else if width != s.width && x == s.width - 1 then s.rows[y][x].(wrap := false)
    else s.rows[y][x]
  }

  lemma ResizeCells(s: Screen, width: nat, height: nat)
    requires Shape(s) && 0 < width && 0 < height
    ensures var t := Resize(s, width, height);
            Grid(t.rows, width, height) && forall y, x | 0 <= y < height && 0 <= x < width :: t.rows[y][x] == CellKept(s, width, y, x)
  {
    hide Clean;
  }

  /** Every cell that fits stays in its place. The margins become the whole screen if the size differs, new columns get the
      default tab stops or none, the cursor is kept where it may be, and a combining place off the screen is forgotten. */
  lemma ResizeMeans(c: Console, width: nat, height: nat)
    requires Wf(c) && 0 < width && 0 < height
    ensures var d, s := Resized(c, width, height), c.screen;
            var t, same, off := d.screen, width == s.width && height == s.height, width <= c.combCol || height <= c.combRow;
            && Grid(t.rows, width, height)
            && (forall y, x | 0 <= y < height && 0 <= x < width :: t.rows[y][x] == CellKept(s, width, y, x))
            && |d.tabs| == width && (forall x | 0 <= x < width :: d.tabs[x] <==> if x < s.width then c.tabs[x] else c.defaultTabs && x % 8 == 0)
            && t == s.(width := width, height := height, rows := t.rows, row := NearestRow(d, s.row), col := NearestCol(d, s.col),
                       top := if same then s.top else 0, bottom := if same then s.bottom else height - 1)
            && d == c.(screen := t, tabs := d.tabs, combCol := if off then -1 else c.combCol, combRow := if off then -1 else c.combRow)
  {
    hide Clean, Grid, Resize, CellKept;
    ResizeCells(c.screen, width, height);
  }
}
