/** The spelling of the frame writer's operations, and how the machine reads it back. */
module Interpreter {
  import opened Options
  import opened Terminal
  import opened Dispatching
  import opened Graphics
  import opened Machines
  import opened Defaults
  import Consoles
  import EscapeParser

  /** The operating system command that ends a hyperlink. */
  const NO_LINK: seq<int> := ['8' as int, ';' as int, ';' as int]

  // ---------------------------------------------------------------- spelling

  function Sequence(body: seq<int>, final: char): seq<int> {
    [0x1B, '[' as int] + body + [final as int]
  }

  /** The characters that the frame writer sends for an operation. */
  function Spell(op: Op): seq<int> {
    match op
    case Print(ch) => [ch as int]
    case CarriageReturn => [0x0D]
    case LineFeed => [0x0A]
    case Backspace => [0x08]
    case CursorTo(y, x) => Sequence(if y == 0 == x then [] else Joined([y, x]), 'H')
    case EraseToEnd => Sequence([], 'K')
    case EraseChars(n) => Sequence(Joined([n]), 'X')
    case EraseAll => Sequence(Joined([2]), 'J')
    case SetRendition(r) => Sequence(Joined(SgrParams(r)), 'm')
    case SetRegion(first, last) => Sequence(if first == 0 == last then [] else Joined([first, last]), 'r')
    case ShowCursor(on) => [0x1B, '[' as int, '?' as int] + Joined([25]) + [if on then 'h' as int else 'l' as int]
    case ClearLink => [0x1B, ']' as int] + NO_LINK + [0x1B, '\\' as int]
  }

  function SpellAll(ops: seq<Op>): seq<int> {
    if ops == [] then [] else SpellAll(ops[..|ops| - 1]) + Spell(ops[|ops| - 1])
  }

  /** Operations whose spelling the parser reads back: narrow characters, and parameters that are not too large. */
  predicate Speakable(w: Widths, op: Op) {
    match op
    case Print(ch) => (0x20 <= ch as int <= 0x7E || 0xA0 <= ch as int) && WidthOf(w, ch as int).Narrow?
    case CursorTo(y, x) => y <= PARAM_MAX && x <= PARAM_MAX
    case EraseChars(n) => n <= PARAM_MAX
    case SetRendition(r) => Reachable(r)
    case SetRegion(first, last) => first <= PARAM_MAX && last <= PARAM_MAX
    case _ => true
  }

  // ---------------------------------------------------------------- reading back

  /** Ready for the next operation, in the default modes. */
  ghost predicate Ready(m: Machine) {
    Consoles.Wf(m.console) && Consoles.Normal(m.console) && m.state.Ground?
  }

  lemma NoAction(w: Widths, m: Machine)
    requires Consoles.Wf(m.console)
    ensures ActAll(w, m, []) == m
  {
  }

  lemma OneAction(w: Widths, m: Machine, a: EscapeParser.Action)
    requires Consoles.Wf(m.console) && Asserted(a)
    ensures ActAll(w, m, [a]) == Act(w, m, a)
  {
    hide Act, Consoles.Wf;
    NoAction(w, Act(w, m, a));
  }

  lemma ReadOne(w: Widths, m: Machine, ch: int)
    requires Consoles.Wf(m.console)
    ensures ReadAll(w, m, [ch]) == Read(w, m, ch)
  {
    hide Read, Consoles.Wf;
    ReadNothing(w, Read(w, m, ch));
    assert [ch][1..] == [];
  }

  /** A character that causes one action. */
  lemma ReadSingle(w: Widths, m: Machine, ch: int, a: EscapeParser.Action)
    requires Consoles.Wf(m.console) && EscapeParser.Actions(m.state, ch) == [a]
    ensures Asserted(a) && Read(w, m, ch) == Act(w, m, a).(state := EscapeParser.After(m.state, ch))
  {
    hide Consoles.Wf, ActAll, Act, EscapeParser.Actions, EscapeParser.After;
    ActionsAsserted(m.state, ch);
    assert [a][0] == a;
    OneAction(w, m, a);
  }

  /** The introducer of a control sequence forgets older parameters. */
  lemma ReadIntroducer(w: Widths, m: Machine)
    requires Consoles.Wf(m.console) && m.state.Ground?
    ensures ReadAll(w, m, [0x1B, '[' as int]) == Machine(EscapeParser.CsiEntry, [], [], m.osc, m.console)
  {
    hide Consoles.Wf, Read, ReadAll, Performed;
    var e := Machine(EscapeParser.Escape, [], [], m.osc, m.console);
    ReadSingle(w, m, 0x1B, EscapeParser.Clear);
    ReadSingle(w, e, '[' as int, EscapeParser.Clear);
    ReadOne(w, m, 0x1B);
    ReadOne(w, e, '[' as int);
    assert [0x1B, '[' as int] == [0x1B] + ['[' as int];
    ReadAppend(w, m, [0x1B], ['[' as int]);
  }

  lemma ReadParam(w: Widths, m: Machine, ch: int)
    requires Consoles.Wf(m.console) && (m.state.CsiEntry? || m.state.CsiParam?) && ParamChar(ch) && |m.params| < 100
    ensures Read(w, m, ch) == m.(params := m.params + [ch], state := EscapeParser.CsiParam)
  {
    hide Consoles.Wf, Read, Performed;
    ReadSingle(w, m, ch, EscapeParser.Param(ch));
  }

  lemma {:induction false} ReadParams(w: Widths, m: Machine, body: seq<int>)
    requires Consoles.Wf(m.console) && (m.state.CsiEntry? || m.state.CsiParam?) && |m.params| + |body| <= 100
    requires forall i | 0 <= i < |body| :: ParamChar(body[i])
    ensures ReadAll(w, m, body)
         == m.(params := m.params + body, state := if body == [] then m.state else EscapeParser.CsiParam)
    decreases |body|
  {
    hide Consoles.Wf, Read;
    if body == [] {
      assert m.params + body == m.params;
    } else {
      ReadParam(w, m, body[0]);
      ReadParams(w, Read(w, m, body[0]), body[1..]);
      assert m.params + [body[0]] + body[1..] == m.params + body;
    }
  }

  lemma FinalTransition(s: EscapeParser.State, ch: int)
    requires (s.CsiEntry? || s.CsiParam?) && EscapeParser.Final(ch)
    ensures EscapeParser.Actions(s, ch) == [EscapeParser.CsiDispatch(ch)] && EscapeParser.After(s, ch).Ground?
  {
  }

  lemma ReadFinal(w: Widths, m: Machine, ch: int)
    requires Consoles.Wf(m.console) && (m.state.CsiEntry? || m.state.CsiParam?) && EscapeParser.Final(ch)
    ensures var chars := Collected(m.chars, ch);
            ReadAll(w, m, [ch]) == Performed(m.(chars := chars, state := EscapeParser.Ground), Consoles.CsiFunction(chars))
  {
    hide Consoles.Wf, Read, ReadAll, Consoles.Dispatched, Consoles.CsiFunction, Parse, Collected, EscapeParser.Actions,
      EscapeParser.After;
    FinalTransition(m.state, ch);
    ReadSingle(w, m, ch, EscapeParser.CsiDispatch(ch));
    ReadOne(w, m, ch);
  }

  /** A whole control sequence is dispatched with its parameters and its final character. */
  lemma ReadSequence(w: Widths, m: Machine, body: seq<int>, final: char)
    requires Consoles.Wf(m.console) && m.state.Ground? && EscapeParser.Final(final as int) && |body| <= 100
    requires forall i | 0 <= i < |body| :: ParamChar(body[i])
    ensures ReadAll(w, m, Sequence(body, final))
         == Performed(Machine(EscapeParser.Ground, body, [final as int], m.osc, m.console), Consoles.CsiFunction([final as int]))
  {
    hide Consoles.Wf, ReadAll, Performed, Consoles.CsiFunction;
    var introducer, last := [0x1B, '[' as int], [final as int];
    var entry := Machine(EscapeParser.CsiEntry, [], [], m.osc, m.console);
    ReadIntroducer(w, m);
    assert Sequence(body, final) == introducer + (body + last);
    ReadAppend(w, m, introducer, body + last);
    ReadParams(w, entry, body);
    ReadAppend(w, entry, body, last);
    assert [] + body == body && [] + [final as int] == [final as int];
    ReadFinal(w, entry.(params := body, state := if body == [] then EscapeParser.CsiEntry else EscapeParser.CsiParam), final as int);
  }

  /** Reading the spelling of one operation performs it and nothing else. */
  ghost predicate ReadsAs(w: Widths, m: Machine, op: Op)
    requires Consoles.Wf(m.console)
  {
    var n := ReadAll(w, m, Spell(op));
    Ready(n) && n.console.screen == Step(m.console.screen, op)
  }

  lemma CharacterTransition(ch: int)
    requires 0x20 <= ch <= 0x7E || 0xA0 <= ch
    ensures EscapeParser.Actions(EscapeParser.Ground, ch) == [EscapeParser.Print(ch)]
    ensures EscapeParser.After(EscapeParser.Ground, ch).Ground?
  {
  }

  lemma ReadCharacter(w: Widths, m: Machine, ch: char)
    requires Ready(m) && Speakable(w, Print(ch))
    ensures ReadsAs(w, m, Print(ch))
  {
    hide Consoles.Wf, Read, ReadAll, PrintChar, Consoles.Print, EscapeParser.Actions, EscapeParser.After;
    CharacterTransition(ch as int);
    ReadSingle(w, m, ch as int, EscapeParser.Print(ch as int));
    ReadOne(w, m, ch as int);
    PrintSame(m.console, ch);
  }

  lemma ControlTransition(ch: int)
    requires ch == 0x0A || ch == 0x0D || ch == 0x08
    ensures EscapeParser.Actions(EscapeParser.Ground, ch) == [EscapeParser.Execute(ch)]
    ensures EscapeParser.After(EscapeParser.Ground, ch).Ground?
  {
  }

  lemma ReadControl(w: Widths, m: Machine, op: Op)
    requires Ready(m) && (op == CarriageReturn || op == LineFeed || op == Backspace)
    ensures ReadsAs(w, m, op)
  {
    hide Consoles.Wf, Read, ReadAll, Step, Consoles.Dispatched, Consoles.ControlFunction, Parse, EscapeParser.Actions,
      EscapeParser.After;
    var ch := Spell(op)[0];
    ControlTransition(ch);
    ReadSingle(w, m, ch, EscapeParser.Execute(ch));
    ReadOne(w, m, ch);
    ControlSame(m.console, ch, Parse(m.params));
  }

  /** No parameters at all read as one that is missing. */
  lemma ParseNothing()
    ensures Parse([]) == [-1]
  {
    SemicolonFirst([]);
  }

  /** A control sequence that was read has its effect in the default modes. */
  lemma ReadMeans(w: Widths, m: Machine, n: Machine, body: seq<int>, key: seq<int>, ps: seq<int>, op: Op)
    requires Ready(m) && Parse(body) == ps && CsiOp(m.console.screen, key, ps) == Some(op)
    requires n == Performed(Machine(EscapeParser.Ground, body, key, m.osc, m.console), Consoles.CsiFunction(key))
    ensures Ready(n) && n.console.screen == Step(m.console.screen, op)
  {
    hide Consoles.Wf, Step, CsiOp, Parse, Consoles.Dispatched, Consoles.CsiFunction;
    SequenceSame(m.console, key, ps);
  }

  lemma ReadBare(w: Widths, m: Machine, op: Op)
    requires Ready(m) && (op == EraseToEnd || op == CursorTo(0, 0) || op == SetRegion(0, 0))
    ensures ReadsAs(w, m, op)
  {
    hide Consoles.Wf, Consoles.Normal, ReadAll, Parse, Performed, Consoles.CsiFunction, Erase;
    ParseNothing();
    var final := if op == EraseToEnd then 'K' else if op == CursorTo(0, 0) then 'H' else 'r';
    ReadSequence(w, m, [], final);
    var meant := CsiOp(m.console.screen, [final as int], [-1]).value;
    ReadMeans(w, m, ReadAll(w, m, Sequence([], final)), [], [final as int], [-1], meant);
  }

  /** A control sequence with written numbers is dispatched with those numbers. */
  lemma ReadNumbers(w: Widths, m: Machine, ps: seq<nat>, final: char, digits: nat, op: Op)
    requires Ready(m) && EscapeParser.Final(final as int)
    requires ps != [] && 0 < digits && (digits + 1) * |ps| <= 101
    requires forall i | 0 <= i < |ps| :: ps[i] <= PARAM_MAX && ps[i] < Tens(digits)
    requires CsiOp(m.console.screen, [final as int], ps) == Some(op)
    ensures var n := ReadAll(w, m, Sequence(Joined(ps), final)); Ready(n) && n.console.screen == Step(m.console.screen, op)
  {
    hide Consoles.Wf, Consoles.Normal, ReadAll, Performed, CsiOp, Parse, Joined, Sequence, Step, Consoles.CsiFunction, Tens;
    JoinedLength(ps, digits);
    JoinedChars(ps);
    ParseJoined(ps);
    ReadSequence(w, m, Joined(ps), final);
    ReadMeans(w, m, ReadAll(w, m, Sequence(Joined(ps), final)), Joined(ps), [final as int], ps, op);
  }

  lemma FiveDigits()
    ensures Tens(5) == 100000 && Tens(3) == 1000
  {
  }

  lemma ReadOneNumber(w: Widths, m: Machine, op: Op)
    requires Ready(m) && (op.EraseChars? || op.EraseAll?) && Speakable(w, op)
    ensures ReadsAs(w, m, op)
  {
    hide Ready, Consoles.Wf, ReadAll, Joined, Erase, Sequence, Tens, Select;
    FiveDigits();
    if op.EraseAll? {
      ReadNumbers(w, m, [2], 'J', 5, op);
    } else {
      ReadNumbers(w, m, [op.count], 'X', 5, EraseChars(Consoles.Positive([op.count], 0, 1)));
    }
  }

  lemma ReadTwoNumbers(w: Widths, m: Machine, op: Op)
    requires Ready(m) && (op.CursorTo? || op.SetRegion?) && Speakable(w, op)
    requires op != CursorTo(0, 0) && op != SetRegion(0, 0)
    ensures ReadsAs(w, m, op)
  {
    hide Consoles.Wf, Consoles.Normal, ReadAll, Joined, Sequence, Tens, Select, MoveRow, MoveCol, Margins;
    FiveDigits();
    if op.CursorTo? {
      var ps: seq<nat> := [op.y, op.x];
      ReadNumbers(w, m, ps, 'H', 5, CursorTo(Consoles.Positive(ps, 0, 1), Consoles.Positive(ps, 1, 1)));
    } else {
      var ps: seq<nat> := [op.first, op.last];
      ReadNumbers(w, m, ps, 'r', 5, SetRegion(Consoles.Positive(ps, 0, 1), Consoles.Positive(ps, 1, m.console.screen.height)));
    }
  }

  /** The control sequence for a rendition selects it, whatever was selected before. */
  lemma ReadRendition(w: Widths, m: Machine, r: Renditions)
    requires Ready(m) && Reachable(r)
    ensures ReadsAs(w, m, SetRendition(r))
  {
    hide Ready, Consoles.Wf, ReadAll, Joined, Step, Sequence, Tens, Select, SgrParams;
    FiveDigits();
    SgrBounds(r);
    SgrRoundTrip(r, m.console.screen.rendition);
    ReadNumbers(w, m, SgrParams(r), 'm', 3, SetRendition(r));
  }

  lemma ReadQuestion(w: Widths, m: Machine)
    requires Consoles.Wf(m.console) && m.state.CsiEntry? && m.chars == []
    ensures Read(w, m, '?' as int) == m.(chars := ['?' as int], state := EscapeParser.CsiParam)
  {
    hide Consoles.Wf, Read, Performed;
    ReadSingle(w, m, '?' as int, EscapeParser.Collect('?' as int));
  }

  /** A private control sequence carries its mark into the dispatch. */
  lemma ReadPrivate(w: Widths, m: Machine, body: seq<int>, final: int)
    requires Consoles.Wf(m.console) && m.state.Ground? && EscapeParser.Final(final) && |body| <= 100
    requires forall i | 0 <= i < |body| :: ParamChar(body[i])
    ensures var key := ['?' as int, final];
            ReadAll(w, m, [0x1B, '[' as int, '?' as int] + body + [final])
            == Performed(Machine(EscapeParser.Ground, body, key, m.osc, m.console), Consoles.CsiFunction(key))
  {
    hide Consoles.Wf, ReadAll, Read, Performed, Consoles.CsiFunction;
    var introducer, mark, last := [0x1B, '[' as int], ['?' as int], [final];
    var entry := Machine(EscapeParser.CsiEntry, [], [], m.osc, m.console);
    var marked := Machine(EscapeParser.CsiParam, [], mark, m.osc, m.console);
    ReadIntroducer(w, m);
    ReadAppend(w, m, introducer, mark + (body + last));
    assert [0x1B, '[' as int, '?' as int] + body + [final] == introducer + (mark + (body + last));
    ReadQuestion(w, entry);
    ReadOne(w, entry, '?' as int);
    ReadAppend(w, entry, mark, body + last);
    ReadParams(w, marked, body);
    ReadAppend(w, marked, body, last);
    assert [] + body == body && mark + [final] == ['?' as int, final];
    ReadFinal(w, marked.(params := body), final);
  }

  lemma ReadVisible(w: Widths, m: Machine, on: bool)
    requires Ready(m)
    ensures ReadsAs(w, m, ShowCursor(on))
  {
    hide Consoles.Wf, Consoles.Normal, ReadAll, Parse, Joined, Step, Tens, Performed, Consoles.CsiFunction;
    FiveDigits();
    JoinedLength([25], 5);
    JoinedChars([25]);
    ParseJoined([25]);
    var final := if on then 'h' as int else 'l' as int;
    ReadPrivate(w, m, Joined([25]), final);
    ReadMeans(w, m, ReadAll(w, m, Spell(ShowCursor(on))), Joined([25]), ['?' as int, final], [25], ShowCursor(on));
  }

  lemma ReadEscape(w: Widths, m: Machine)
    requires Consoles.Wf(m.console) && (m.state.Ground? || m.state.OscString?)
    ensures Read(w, m, 0x1B) == m.(state := EscapeParser.Escape, params := [], chars := [])
  {
    hide Consoles.Wf, Performed, ActAll;
    var clear := [EscapeParser.Clear];
    OneAction(w, m, EscapeParser.Clear);
    if m.state.OscString? {
      assert EscapeParser.Actions(m.state, 0x1B) == [EscapeParser.OscEnd] + clear;
      TwoActions(w, m, EscapeParser.OscEnd, EscapeParser.Clear);
    } else {
      assert EscapeParser.Actions(m.state, 0x1B) == clear;
    }
  }

  lemma TwoActions(w: Widths, m: Machine, a: EscapeParser.Action, b: EscapeParser.Action)
    requires Consoles.Wf(m.console) && Asserted(a) && Asserted(b)
    ensures ActAll(w, m, [a] + [b]) == Act(w, Act(w, m, a), b)
  {
    hide Act, Consoles.Wf;
    assert ([a] + [b])[0] == a && ([a] + [b])[1..] == [b];
    OneAction(w, Act(w, m, a), b);
  }

  lemma ReadOscStart(w: Widths, m: Machine)
    requires Consoles.Wf(m.console) && m.state.Escape?
    ensures Read(w, m, ']' as int) == m.(state := EscapeParser.OscString, osc := [])
  {
    hide Consoles.Wf, Read, Performed;
    ReadSingle(w, m, ']' as int, EscapeParser.OscStart);
  }

  lemma ReadOscPut(w: Widths, m: Machine, ch: int)
    requires Consoles.Wf(m.console) && m.state.OscString? && |m.osc| < 3 && 0x20 <= ch <= 0x7E
    ensures Read(w, m, ch) == m.(osc := m.osc + [ch])
  {
    hide Consoles.Wf, Read, Performed;
    ReadSingle(w, m, ch, EscapeParser.OscPut(ch));
  }

  /** The string terminator is an unknown control function. */
  lemma ReadTerminator(w: Widths, m: Machine)
    requires Consoles.Wf(m.console) && m.state.Escape? && m.chars == []
    ensures Read(w, m, '\\' as int) == m.(state := EscapeParser.Ground, console := Consoles.Settled(m.console))
  {
    hide Consoles.Wf, Read, Consoles.Perform, Parse;
    ReadSingle(w, m, '\\' as int, EscapeParser.EscDispatch('\\' as int));
  }

  /** Characters one by one. */
  lemma ReadCons(w: Widths, m: Machine, ch: int, text: seq<int>)
    requires Consoles.Wf(m.console)
    ensures ReadAll(w, m, [ch] + text) == ReadAll(w, Read(w, m, ch), text)
  {
    hide Read, Consoles.Wf;
    assert ([ch] + text)[1..] == text;
  }

  lemma ReadLink(w: Widths, m: Machine)
    requires Ready(m)
    ensures ReadsAs(w, m, ClearLink)
  {
    hide Consoles.Wf, Read, ReadAll;
    var e := m.(state := EscapeParser.Escape, params := [], chars := []);
    ReadEscape(w, m);
    ReadOscStart(w, e);
    var s0 := e.(state := EscapeParser.OscString, osc := []);
    ReadOscPut(w, s0, '8' as int);
    var s1 := s0.(osc := ['8' as int]);
    ReadOscPut(w, s1, ';' as int);
    var s2 := s0.(osc := ['8' as int, ';' as int]);
    ReadOscPut(w, s2, ';' as int);
    var s3 := s0.(osc := NO_LINK);
    ReadEscape(w, s3);
    var f := s3.(state := EscapeParser.Escape);
    ReadTerminator(w, f);
    assert s0.osc + ['8' as int] == s1.osc && s1.osc + [';' as int] == s2.osc && s2.osc + [';' as int] == s3.osc;
    var t6 := ['\\' as int];
    var t5, t4 := [0x1B] + t6, [';' as int] + ([0x1B] + t6);
    var t3 := [';' as int] + t4;
    var t2 := ['8' as int] + t3;
    var t1 := [']' as int] + t2;
    assert Spell(ClearLink) == [0x1B] + t1;
    ReadCons(w, m, 0x1B, t1);
    ReadCons(w, e, ']' as int, t2);
    ReadCons(w, s0, '8' as int, t3);
    ReadCons(w, s1, ';' as int, t4);
    ReadCons(w, s2, ';' as int, t5);
    ReadCons(w, s3, 0x1B, t6);
    ReadOne(w, f, '\\' as int);
  }

  /** The parser and the dispatcher read every operation back from its spelling. */
  lemma ReadOp(w: Widths, m: Machine, op: Op)
    requires Ready(m) && Speakable(w, op)
    ensures ReadsAs(w, m, op)
  {
    hide ReadsAs, Ready;
    match op
    case Print(ch) => ReadCharacter(w, m, ch);
    case CarriageReturn => ReadControl(w, m, op);
    case LineFeed => ReadControl(w, m, op);
    case Backspace => ReadControl(w, m, op);
    case CursorTo(y, x) => if op == CursorTo(0, 0) { ReadBare(w, m, op); } else { ReadTwoNumbers(w, m, op); }
    case EraseToEnd => ReadBare(w, m, op);
    case EraseChars(_) => ReadOneNumber(w, m, op);
    case EraseAll => ReadOneNumber(w, m, op);
    case SetRendition(r) => ReadRendition(w, m, r);
    case SetRegion(first, last) => if op == SetRegion(0, 0) { ReadBare(w, m, op); } else { ReadTwoNumbers(w, m, op); }
    case ShowCursor(on) => ReadVisible(w, m, on);
    case ClearLink => ReadLink(w, m);
  }

  /** Reading the spelling of a list of operations performs them. */
  lemma {:induction false} ReadOps(w: Widths, m: Machine, ops: seq<Op>)
    requires Ready(m) && forall i | 0 <= i < |ops| :: Speakable(w, ops[i])
    ensures var n := ReadAll(w, m, SpellAll(ops)); Ready(n) && n.console.screen == Run(m.console.screen, ops)
  {
    hide Consoles.Wf, Consoles.Normal, ReadAll, Speakable, Step, Spell, Kept;
    if ops == [] {
      ReadNothing(w, m);
    } else {
      var front, op := ops[..|ops| - 1], ops[|ops| - 1];
      ReadOps(w, m, front);
      ReadAppend(w, m, SpellAll(front), Spell(op));
      ReadOp(w, ReadAll(w, m, SpellAll(front)), op);
    }
  }
}
