/** What the escape sequence parser makes of whole strings of characters. */
module ParserLaws {
  import opened Dispatching
  import opened Machines
  import opened Interpreter
  import opened Consoles
  import EscapeParser

  // ---------------------------------------------------------------- one character

  /** Characters that mean the same in every state. */
  predicate Universal(ch: int) {
    ch == 0x18 || ch == 0x1A || ch == 0x1B || 0x80 <= ch <= 0x9F
  }

  /** Control characters that are executed where they stand. */
  predicate Control(ch: int) {
    0 <= ch <= 0x17 || ch == 0x19 || 0x1C <= ch <= 0x1F
  }

  predicate Letter(ch: int) {
    0x40 <= ch <= 0x7E || 0xA0 <= ch
  }

  /** Where the characters lead that mean the same in every state. */
  lemma Anywhere(s: EscapeParser.State, ch: int)
    requires Universal(ch)
    ensures EscapeParser.After(s, ch) ==
              if ch == 0x1B then EscapeParser.Escape
              else if ch == 0x90 then EscapeParser.DcsEntry
              else if ch == 0x9B then EscapeParser.CsiEntry
              else if ch == 0x9D then EscapeParser.OscString
              else if ch == 0x98 || ch == 0x9E || ch == 0x9F then EscapeParser.SosPmApcString
              else EscapeParser.Ground
  {
  }

  /** Which other characters leave the states of strings and of what is ignored, and where to. */
  lemma StringsLeft(ch: int)
    requires 0 <= ch && !Universal(ch)
    ensures EscapeParser.After(EscapeParser.OscString, ch) == if ch == 0x07 then EscapeParser.Ground else EscapeParser.OscString
    ensures EscapeParser.After(EscapeParser.SosPmApcString, ch) == EscapeParser.SosPmApcString
    ensures EscapeParser.After(EscapeParser.DcsPassthrough, ch) == EscapeParser.DcsPassthrough
    ensures EscapeParser.After(EscapeParser.DcsIgnore, ch) == EscapeParser.DcsIgnore
    ensures EscapeParser.After(EscapeParser.CsiIgnore, ch) == if Letter(ch) then EscapeParser.Ground else EscapeParser.CsiIgnore
    ensures EscapeParser.After(EscapeParser.Ground, ch) == EscapeParser.Ground
  {
  }

  /** The same for the states within a sequence. */
  lemma SequencesLeft(ch: int)
    requires 0 <= ch && !Universal(ch)
    ensures EscapeParser.After(EscapeParser.EscapeIntermediate, ch)
         == if 0x30 <= ch <= 0x3F || Letter(ch) then EscapeParser.Ground else EscapeParser.EscapeIntermediate
    ensures EscapeParser.After(EscapeParser.CsiIntermediate, ch)
         == if Letter(ch) then EscapeParser.Ground else if 0x30 <= ch <= 0x3F then EscapeParser.CsiIgnore
            else EscapeParser.CsiIntermediate
    ensures EscapeParser.After(EscapeParser.CsiParam, ch)
         == if Letter(ch) then EscapeParser.Ground else if 0x20 <= ch <= 0x2F then EscapeParser.CsiIntermediate
            else if ch == 0x3A || 0x3C <= ch <= 0x3F then EscapeParser.CsiIgnore else EscapeParser.CsiParam
    ensures EscapeParser.After(EscapeParser.CsiEntry, ch)
         == if Letter(ch) then EscapeParser.Ground else if 0x20 <= ch <= 0x2F then EscapeParser.CsiIntermediate
            else if ch == 0x3A then EscapeParser.CsiIgnore else if 0x30 <= ch <= 0x3F then EscapeParser.CsiParam
            else EscapeParser.CsiEntry
  {
  }

  lemma DeviceStringsLeft(ch: int)
    requires 0 <= ch && !Universal(ch)
    ensures EscapeParser.After(EscapeParser.DcsEntry, ch)
         == if Letter(ch) then EscapeParser.DcsPassthrough else if 0x20 <= ch <= 0x2F then EscapeParser.DcsIntermediate
            else if ch == 0x3A then EscapeParser.DcsIgnore else if 0x30 <= ch <= 0x3F then EscapeParser.DcsParam
            else EscapeParser.DcsEntry
    ensures EscapeParser.After(EscapeParser.DcsParam, ch)
         == if Letter(ch) then EscapeParser.DcsPassthrough else if 0x20 <= ch <= 0x2F then EscapeParser.DcsIntermediate
            else if ch == 0x3A || 0x3C <= ch <= 0x3F then EscapeParser.DcsIgnore else EscapeParser.DcsParam
    ensures EscapeParser.After(EscapeParser.DcsIntermediate, ch)
         == if Letter(ch) then EscapeParser.DcsPassthrough else if 0x30 <= ch <= 0x3F then EscapeParser.DcsIgnore
            else EscapeParser.DcsIntermediate
    ensures EscapeParser.After(EscapeParser.Escape, ch)
         == if ch == '[' as int then EscapeParser.CsiEntry else if ch == ']' as int then EscapeParser.OscString
            else if ch == 'P' as int then EscapeParser.DcsEntry
            else if ch == 'X' as int || ch == '^' as int || ch == '_' as int then EscapeParser.SosPmApcString
            else if 0x20 <= ch <= 0x2F then EscapeParser.EscapeIntermediate
            else if 0x30 <= ch <= 0x3F || Letter(ch) then EscapeParser.Ground else EscapeParser.Escape
  {
  }

  // ---------------------------------------------------------------- reading

  lemma ReadNone(w: Widths, m: Machine, ch: int)
    requires Wf(m.console) && EscapeParser.Actions(m.state, ch) == []
    ensures Read(w, m, ch) == m.(state := EscapeParser.After(m.state, ch))
  {
    hide Wf, ActAll, EscapeParser.Actions, EscapeParser.After;
    NoAction(w, m);
  }

  /** An escape character starts afresh from any state. */
  lemma ReadEscapeAnywhere(w: Widths, m: Machine)
    requires Wf(m.console)
    ensures Read(w, m, 0x1B) == Machine(EscapeParser.Escape, [], [], m.osc, m.console)
  {
    hide Wf, Performed, ActAll;
    var clear := [EscapeParser.Clear];
    OneAction(w, m, EscapeParser.Clear);
    if m.state.OscString? {
      assert EscapeParser.Actions(m.state, 0x1B) == [EscapeParser.OscEnd] + clear;
      TwoActions(w, m, EscapeParser.OscEnd, EscapeParser.Clear);
    } else if m.state.DcsPassthrough? {
      assert EscapeParser.Actions(m.state, 0x1B) == [EscapeParser.Unhook] + clear;
      TwoActions(w, m, EscapeParser.Unhook, EscapeParser.Clear);
    } else {
      assert EscapeParser.Actions(m.state, 0x1B) == clear;
    }
  }

  /** Cancelling leads to the ground from any state, and only cancels a pending wrap. */
  lemma Cancelled(w: Widths, m: Machine, ch: int)
    requires Wf(m.console) && (ch == 0x18 || ch == 0x1A)
    ensures Read(w, m, ch) == m.(state := EscapeParser.Ground, console := Settled(m.console))
  {
    hide Wf, ActAll, Perform, Parse;
    var execute := EscapeParser.Execute(ch);
    OneAction(w, m, execute);
    if m.state.OscString? {
      assert EscapeParser.Actions(m.state, ch) == [EscapeParser.OscEnd] + [execute];
      TwoActions(w, m, EscapeParser.OscEnd, execute);
    } else if m.state.DcsPassthrough? {
      assert EscapeParser.Actions(m.state, ch) == [EscapeParser.Unhook] + [execute];
      TwoActions(w, m, EscapeParser.Unhook, execute);
    } else {
      assert EscapeParser.Actions(m.state, ch) == [execute];
    }
  }

  /** The 8-bit string terminator does nothing else. */
  lemma Terminated(w: Widths, m: Machine)
    requires Wf(m.console)
    ensures Read(w, m, 0x9C) == m.(state := EscapeParser.Ground)
  {
    hide Wf, ActAll, Performed;
    if m.state.OscString? {
      assert EscapeParser.Actions(m.state, 0x9C) == [EscapeParser.OscEnd];
      OneAction(w, m, EscapeParser.OscEnd);
    } else if m.state.DcsPassthrough? {
      assert EscapeParser.Actions(m.state, 0x9C) == [EscapeParser.Unhook];
      OneAction(w, m, EscapeParser.Unhook);
    } else {
      assert EscapeParser.Actions(m.state, 0x9C) == [];
      NoAction(w, m);
    }
  }

  /** An 8-bit control character ends what went before and is executed. */
  lemma EightBit(w: Widths, m: Machine, ch: int)
    requires Wf(m.console) && (0x80 <= ch <= 0x8F || 0x91 <= ch <= 0x97 || ch == 0x99 || ch == 0x9A)
    ensures Read(w, m, ch) == Performed(m.(state := EscapeParser.Ground), ControlFunction(ch))
  {
    hide Wf, ActAll, Dispatched, Parse, ControlFunction;
    var execute := EscapeParser.Execute(ch);
    OneAction(w, m, execute);
    if m.state.OscString? {
      assert EscapeParser.Actions(m.state, ch) == [EscapeParser.OscEnd] + [execute];
      TwoActions(w, m, EscapeParser.OscEnd, execute);
    } else if m.state.DcsPassthrough? {
      assert EscapeParser.Actions(m.state, ch) == [EscapeParser.Unhook] + [execute];
      TwoActions(w, m, EscapeParser.Unhook, execute);
    } else {
      assert EscapeParser.Actions(m.state, ch) == [execute];
    }
  }

  // ---------------------------------------------------------------- operating system commands

  predicate Command(ch: int) {
    0x20 <= ch <= 0x7F
  }

  function Limited(osc: seq<int>, text: seq<int>): seq<int>
    requires |osc| <= MAXIMUM_CLIPBOARD_SIZE
  {
    var room := MAXIMUM_CLIPBOARD_SIZE - |osc|;
    osc + if |text| <= room then text else text[..room]
  }

  lemma PutTransition(ch: int)
    requires Command(ch)
    ensures EscapeParser.Actions(EscapeParser.OscString, ch) == [EscapeParser.OscPut(ch)]
    ensures EscapeParser.After(EscapeParser.OscString, ch).OscString?
  {
  }

  lemma {:induction false} ReadCommand(w: Widths, m: Machine, text: seq<int>)
    requires Wf(m.console) && m.state.OscString? && |m.osc| <= MAXIMUM_CLIPBOARD_SIZE
    requires forall i | 0 <= i < |text| :: Command(text[i])
    ensures ReadAll(w, m, text) == m.(osc := Limited(m.osc, text))
    decreases |text|
  {
    hide Wf, Read, EscapeParser.Actions, EscapeParser.After, Performed;
    if text == [] {
      assert m.osc + text == m.osc;
    } else {
      PutTransition(text[0]);
      ReadSingle(w, m, text[0], EscapeParser.OscPut(text[0]));
      var next := Read(w, m, text[0]);
      ReadCommand(w, next, text[1..]);
      if |m.osc| < MAXIMUM_CLIPBOARD_SIZE {
        assert m.osc + [text[0]] + text[1..] == m.osc + text;
        if |m.osc| + |text| > MAXIMUM_CLIPBOARD_SIZE {
          var room := MAXIMUM_CLIPBOARD_SIZE - |m.osc|;
          assert m.osc + [text[0]] + text[1..][..room - 1] == m.osc + text[..room];
        }
      } else {
        assert text[..0] == text[1..][..0] == [];
      }
    }
  }

  lemma ReadOpening(w: Widths, m: Machine)
    requires Wf(m.console)
    ensures ReadAll(w, m, [0x1B, ']' as int]) == Machine(EscapeParser.OscString, [], [], [], m.console)
  {
    hide Wf, Read, ReadAll;
    var e := Machine(EscapeParser.Escape, [], [], m.osc, m.console);
    ReadEscapeAnywhere(w, m);
    ReadOscStart(w, e);
    ReadOne(w, e, ']' as int);
    assert [0x1B, ']' as int] == [0x1B] + [']' as int];
    ReadCons(w, m, 0x1B, [']' as int]);
  }

  lemma ReadBell(w: Widths, m: Machine)
    requires Wf(m.console) && m.state.OscString?
    ensures Read(w, m, 0x07) == m.(state := EscapeParser.Ground)
  {
    hide Wf, Read, Performed;
    ReadSingle(w, m, 0x07, EscapeParser.OscEnd);
  }

  /** An operating system command from any state, ended by a bell or by the string terminator: its text is kept up to the
      limit, the parser is back on the ground, and nothing is seen of it. */
  lemma ReadSystemCommand(w: Widths, m: Machine, text: seq<int>, end: int)
    requires Wf(m.console) && (end == 0x07 || end == 0x9C) && forall i | 0 <= i < |text| :: Command(text[i])
    ensures ReadAll(w, m, [0x1B, ']' as int] + text + [end])
         == Machine(EscapeParser.Ground, [], [], Limited([], text), m.console)
  {
    hide Wf, Read, ReadAll, Limited;
    var opening := [0x1B, ']' as int];
    ReadOpening(w, m);
    assert opening + text + [end] == opening + (text + [end]);
    ReadAppend(w, m, opening, text + [end]);
    var s := Machine(EscapeParser.OscString, [], [], [], m.console);
    ReadCommand(w, s, text);
    ReadAppend(w, s, text, [end]);
    var t := s.(osc := Limited([], text));
    ReadOne(w, t, end);
    if end == 0x07 { ReadBell(w, t); } else { Terminated(w, t); }
  }

  // ---------------------------------------------------------------- device control and other strings

  predicate InString(s: EscapeParser.State) {
    s.DcsEntry? || s.DcsParam? || s.DcsIntermediate? || s.DcsPassthrough? || s.DcsIgnore? || s.SosPmApcString?
  }

  lemma StringTransition(s: EscapeParser.State, ch: int)
    requires InString(s) && 0 <= ch && !Universal(ch)
    ensures InString(EscapeParser.After(s, ch)) && (s.SosPmApcString? ==> EscapeParser.After(s, ch).SosPmApcString?)
  {
  }

  predicate Silent(a: EscapeParser.Action) {
    a.Collect? || a.Param? || a.Put? || a.Hook?
  }

  lemma {:induction false} SilentActs(w: Widths, m: Machine, actions: seq<EscapeParser.Action>)
    requires Wf(m.console) && AllAsserted(actions) && forall a <- actions :: Silent(a)
    ensures var n := ActAll(w, m, actions); n.console == m.console && n.osc == m.osc && n.state == m.state
    decreases |actions|
  {
    hide Wf, Performed;
    if actions != [] {
      assert Silent(actions[0]);
      SilentActs(w, Act(w, m, actions[0]), actions[1..]);
    }
  }

  /** Nothing within such a string is executed or seen. */
  lemma {:induction false} ReadInString(w: Widths, m: Machine, text: seq<int>)
    requires Wf(m.console) && InString(m.state) && forall i | 0 <= i < |text| :: 0 <= text[i] && !Universal(text[i])
    ensures var n := ReadAll(w, m, text); n.console == m.console && n.osc == m.osc && InString(n.state)
    decreases |text|
  {
    hide Wf, ActAll, AllAsserted, EscapeParser.Actions, EscapeParser.After, Silent, Universal;
    if text != [] {
      StringTransition(m.state, text[0]);
      ActionsAsserted(m.state, text[0]);
      assert forall a <- EscapeParser.Actions(m.state, text[0]) :: Silent(a) by { StringSilent(m.state, text[0]); }
      SilentActs(w, m, EscapeParser.Actions(m.state, text[0]));
      ReadInString(w, Read(w, m, text[0]), text[1..]);
    }
  }

  lemma StringSilent(s: EscapeParser.State, ch: int)
    requires InString(s) && 0 <= ch && !Universal(ch)
    ensures forall a <- EscapeParser.Actions(s, ch) :: Silent(a)
  {
    hide Universal, EscapeParser.Next;
    StringTransition(s, ch);
    StringRule(s, ch);
  }

  lemma StringRule(s: EscapeParser.State, ch: int)
    requires InString(s) && 0 <= ch && !Universal(ch)
    ensures var tx := EscapeParser.Next(s, ch);
            (tx.action.Ignore? || Silent(tx.action)) && (s.DcsPassthrough? ==> tx.Stay?) && (tx.Go? ==> !tx.next.DcsEntry?)
  {
  }

  lemma OpeningTransition(kind: int)
    requires kind == 'P' as int || kind == 'X' as int || kind == '^' as int || kind == '_' as int
    ensures EscapeParser.Actions(EscapeParser.Escape, kind) == (if kind == 'P' as int then [EscapeParser.Clear] else [])
    ensures InString(EscapeParser.After(EscapeParser.Escape, kind))
  {
  }

  /** A device control string, or one of the strings that are ignored, from any state: nothing is seen of it, whatever is
      in it. */
  lemma ReadIgnoredString(w: Widths, m: Machine, kind: int, text: seq<int>)
    requires Wf(m.console) && (kind == 'P' as int || kind == 'X' as int || kind == '^' as int || kind == '_' as int)
    requires forall i | 0 <= i < |text| :: 0 <= text[i] && !Universal(text[i])
    ensures var n := ReadAll(w, m, [0x1B, kind] + text + [0x9C]);
            n.state.Ground? && n.console == m.console && n.osc == m.osc
  {
    hide Wf, Read, ReadAll, EscapeParser.Actions, EscapeParser.After, Universal, Performed;
    ReadEscapeAnywhere(w, m);
    var e := Machine(EscapeParser.Escape, [], [], m.osc, m.console);
    OpeningTransition(kind);
    if kind == 'P' as int { ReadSingle(w, e, kind, EscapeParser.Clear); } else { ReadNone(w, e, kind); }
    var s := Read(w, e, kind);
    assert [0x1B, kind] + text + [0x9C] == [0x1B] + ([kind] + (text + [0x9C]));
    ReadCons(w, m, 0x1B, [kind] + (text + [0x9C]));
    ReadCons(w, e, kind, text + [0x9C]);
    ReadInString(w, s, text);
    ReadAppend(w, s, text, [0x9C]);
    var t := ReadAll(w, s, text);
    Terminated(w, t);
    ReadOne(w, t, 0x9C);
  }

  // ---------------------------------------------------------------- escape sequences

  predicate Between(ch: int) {
    0x20 <= ch <= 0x2F
  }

  lemma BetweenTransition(s: EscapeParser.State, ch: int)
    requires (s.Escape? || s.EscapeIntermediate?) && Between(ch)
    ensures EscapeParser.Actions(s, ch) == [EscapeParser.Collect(ch)] && EscapeParser.After(s, ch).EscapeIntermediate?
  {
  }

  lemma {:induction false} ReadIntermediates(w: Widths, m: Machine, text: seq<int>)
    requires Wf(m.console) && (m.state.Escape? || m.state.EscapeIntermediate?) && |m.chars| + |text| <= 8
    requires forall i | 0 <= i < |text| :: Between(text[i])
    ensures ReadAll(w, m, text)
         == m.(chars := m.chars + text, state := if text == [] then m.state else EscapeParser.EscapeIntermediate)
    decreases |text|
  {
    hide Wf, Read, EscapeParser.Actions, EscapeParser.After, Performed;
    if text == [] {
      assert m.chars + text == m.chars;
    } else {
      BetweenTransition(m.state, text[0]);
      ReadSingle(w, m, text[0], EscapeParser.Collect(text[0]));
      ReadIntermediates(w, Read(w, m, text[0]), text[1..]);
      assert m.chars + [text[0]] + text[1..] == m.chars + text;
    }
  }

  /** What may end an escape sequence: without intermediate characters, not the introducers of other sequences. */
  predicate Ends(between: seq<int>, final: int) {
    0x30 <= final <= 0x7E
    && (between == [] ==> final != 'P' as int && final != 'X' as int && final != '[' as int && final != ']' as int
                          && final != '^' as int && final != '_' as int)
  }

  lemma EndTransition(s: EscapeParser.State, ch: int)
    requires (s.Escape? && Ends([], ch)) || (s.EscapeIntermediate? && 0x30 <= ch <= 0x7E)
    ensures EscapeParser.Actions(s, ch) == [EscapeParser.EscDispatch(ch)] && EscapeParser.After(s, ch).Ground?
  {
  }

  /** An escape sequence from any state is dispatched with exactly its characters; without intermediate ones, an upper case
      letter or the like stands for the 8-bit control character. */
  lemma ReadEscapeSequence(w: Widths, m: Machine, between: seq<int>, final: int)
    requires Wf(m.console) && |between| < 8 && (forall i | 0 <= i < |between| :: Between(between[i])) && Ends(between, final)
    ensures var n := ReadAll(w, m, [0x1B] + between + [final]);
            if between == [] && 0x40 <= final <= 0x5F
            then n == Performed(Machine(EscapeParser.Ground, [], [], m.osc, m.console), ControlFunction(final + 0x40))
            else n == Performed(Machine(EscapeParser.Ground, [], between + [final], m.osc, m.console), EscapeFunction(between + [final]))
  {
    hide Wf, Read, ReadAll, EscapeParser.Actions, EscapeParser.After, Dispatched, ControlFunction, EscapeFunction, Parse;
    ReadEscapeAnywhere(w, m);
    var e := Machine(EscapeParser.Escape, [], [], m.osc, m.console);
    assert [0x1B] + between + [final] == [0x1B] + (between + [final]);
    ReadCons(w, m, 0x1B, between + [final]);
    ReadIntermediates(w, e, between);
    ReadAppend(w, e, between, [final]);
    var s := e.(chars := between, state := if between == [] then EscapeParser.Escape else EscapeParser.EscapeIntermediate);
    assert [] + between == between;
    EndTransition(s.state, final);
    ReadSingle(w, s, final, EscapeParser.EscDispatch(final));
    ReadOne(w, s, final);
  }

  // ---------------------------------------------------------------- control sequences

  /** Where control characters are executed. */
  predicate Executes(s: EscapeParser.State) {
    || s.Ground? || s.Escape? || s.EscapeIntermediate? || s.CsiEntry? || s.CsiParam? || s.CsiIntermediate? || s.CsiIgnore?
  }

  lemma ControlTransition(s: EscapeParser.State, ch: int)
    requires Executes(s) && Control(ch)
    ensures EscapeParser.Actions(s, ch) == [EscapeParser.Execute(ch)] && EscapeParser.After(s, ch) == s
  {
  }

  /** A control character is executed in the middle of a sequence, which goes on as if it had not been there. */
  lemma ControlHere(w: Widths, m: Machine, ch: int)
    requires Wf(m.console) && Executes(m.state) && Control(ch)
    ensures Read(w, m, ch) == Performed(m, ControlFunction(ch))
  {
    hide Wf, Read, EscapeParser.Actions, EscapeParser.After, Dispatched, ControlFunction, Parse;
    ControlTransition(m.state, ch);
    ReadSingle(w, m, ch, EscapeParser.Execute(ch));
  }

  lemma ReadIntroduced(w: Widths, m: Machine)
    requires Wf(m.console)
    ensures ReadAll(w, m, [0x1B, '[' as int]) == Machine(EscapeParser.CsiEntry, [], [], m.osc, m.console)
  {
    hide Wf, Read, ReadAll, Performed;
    var e := Machine(EscapeParser.Escape, [], [], m.osc, m.console);
    ReadEscapeAnywhere(w, m);
    ReadSingle(w, e, '[' as int, EscapeParser.Clear);
    ReadOne(w, e, '[' as int);
    assert [0x1B, '[' as int] == [0x1B] + ['[' as int];
    ReadCons(w, m, 0x1B, ['[' as int]);
  }

  /** At most one private mark. */
  predicate Mark(mark: seq<int>) {
    mark == [] || (|mark| == 1 && 0x3C <= mark[0] <= 0x3F)
  }

  lemma MarkTransition(ch: int)
    requires 0x3C <= ch <= 0x3F
    ensures EscapeParser.Actions(EscapeParser.CsiEntry, ch) == [EscapeParser.Collect(ch)]
    ensures EscapeParser.After(EscapeParser.CsiEntry, ch).CsiParam?
  {
  }

  lemma ReadMark(w: Widths, m: Machine, mark: seq<int>)
    requires Wf(m.console) && m.state.CsiEntry? && m.chars == [] && Mark(mark)
    ensures ReadAll(w, m, mark) == m.(chars := mark, state := if mark == [] then EscapeParser.CsiEntry else EscapeParser.CsiParam)
  {
    hide Wf, Read, EscapeParser.Actions, EscapeParser.After, Performed;
    if mark != [] {
      MarkTransition(mark[0]);
      ReadSingle(w, m, mark[0], EscapeParser.Collect(mark[0]));
      ReadOne(w, m, mark[0]);
      assert [mark[0]] == mark == [] + [mark[0]];
    }
  }

  predicate CsiOpen(s: EscapeParser.State) {
    s.CsiEntry? || s.CsiParam? || s.CsiIntermediate?
  }

  lemma CsiBetweenTransition(s: EscapeParser.State, ch: int)
    requires CsiOpen(s) && Between(ch)
    ensures EscapeParser.Actions(s, ch) == [EscapeParser.Collect(ch)] && EscapeParser.After(s, ch).CsiIntermediate?
  {
  }

  lemma {:induction false} ReadCsiIntermediates(w: Widths, m: Machine, text: seq<int>)
    requires Wf(m.console) && CsiOpen(m.state) && |m.chars| + |text| <= 8 && forall i | 0 <= i < |text| :: Between(text[i])
    ensures ReadAll(w, m, text)
         == m.(chars := m.chars + text, state := if text == [] then m.state else EscapeParser.CsiIntermediate)
    decreases |text|
  {
    hide Wf, Read, EscapeParser.Actions, EscapeParser.After, Performed;
    if text == [] {
      assert m.chars + text == m.chars;
    } else {
      CsiBetweenTransition(m.state, text[0]);
      ReadSingle(w, m, text[0], EscapeParser.Collect(text[0]));
      ReadCsiIntermediates(w, Read(w, m, text[0]), text[1..]);
      assert m.chars + [text[0]] + text[1..] == m.chars + text;
    }
  }

  lemma CsiEndTransition(s: EscapeParser.State, ch: int)
    requires CsiOpen(s) && 0x40 <= ch <= 0x7E
    ensures EscapeParser.Actions(s, ch) == [EscapeParser.CsiDispatch(ch)] && EscapeParser.After(s, ch).Ground?
  {
  }

  lemma ReadEnd(w: Widths, m: Machine, ch: int)
    requires Wf(m.console) && CsiOpen(m.state) && |m.chars| < 8 && 0x40 <= ch <= 0x7E
    ensures ReadAll(w, m, [ch])
         == Performed(m.(chars := m.chars + [ch], state := EscapeParser.Ground), CsiFunction(m.chars + [ch]))
  {
    hide Wf, Read, ReadAll, Dispatched, CsiFunction, Parse, EscapeParser.Actions, EscapeParser.After;
    CsiEndTransition(m.state, ch);
    ReadSingle(w, m, ch, EscapeParser.CsiDispatch(ch));
    ReadOne(w, m, ch);
  }

  ghost predicate AllParams(text: seq<int>) {
    |text| <= 100 && forall i | 0 <= i < |text| :: ParamChar(text[i])
  }

  ghost predicate AllBetween(text: seq<int>) {
    |text| < 7 && forall i | 0 <= i < |text| :: Between(text[i])
  }

  /** A control sequence from any state: mark, parameters, intermediate characters and final character. It is dispatched
      with the parameters and exactly these other characters. */
  lemma ReadControlSequence(w: Widths, m: Machine, mark: seq<int>, params: seq<int>, between: seq<int>, final: int)
    requires Wf(m.console) && Mark(mark) && AllParams(params) && AllBetween(between) && 0x40 <= final <= 0x7E
    ensures var key := mark + between + [final];
            ReadAll(w, m, [0x1B, '[' as int] + mark + params + between + [final])
            == Performed(Machine(EscapeParser.Ground, params, key, m.osc, m.console), CsiFunction(key))
  {
    hide Wf, Read, ReadAll, Performed, CsiFunction;
    var introducer, last := [0x1B, '[' as int], [final];
    var entry := Machine(EscapeParser.CsiEntry, [], [], m.osc, m.console);
    ReadIntroduced(w, m);
    assert introducer + mark + params + between + last == introducer + (mark + (params + (between + last)));
    ReadAppend(w, m, introducer, mark + (params + (between + last)));
    ReadMark(w, entry, mark);
    ReadAppend(w, entry, mark, params + (between + last));
    var marked := ReadAll(w, entry, mark);
    ReadParams(w, marked, params);
    ReadAppend(w, marked, params, between + last);
    var full := ReadAll(w, marked, params);
    assert [] + params == params;
    ReadCsiIntermediates(w, full, between);
    ReadAppend(w, full, between, last);
    ReadEnd(w, ReadAll(w, full, between), final);
  }

  /** A control character among the parameters: it is executed, and the sequence is dispatched as without it, to what the
      control character left. */
  lemma ControlInside(w: Widths, m: Machine, a: seq<int>, ch: int, b: seq<int>, final: int)
    requires Wf(m.console) && AllParams(a + b) && Control(ch) && 0x40 <= final <= 0x7E
    ensures var c := Dispatched(ControlFunction(ch), m.console, Parse(a));
            && Wf(c)
            && ReadAll(w, m, [0x1B, '[' as int] + a + [ch] + b + [final])
               == ReadAll(w, m.(console := c), [0x1B, '[' as int] + (a + b) + [final])
  {
    hide Wf, Read, ReadAll, Performed, CsiFunction, ControlFunction, Dispatched, Parse;
    var introducer, last := [0x1B, '[' as int], [final];
    var entry := Machine(EscapeParser.CsiEntry, [], [], m.osc, m.console);
    ReadIntroduced(w, m);
    assert introducer + a + [ch] + b + last == introducer + (a + ([ch] + (b + last)));
    ReadAppend(w, m, introducer, a + ([ch] + (b + last)));
    assert forall i | 0 <= i < |a| :: a[i] == (a + b)[i];
    assert forall i | 0 <= i < |b| :: b[i] == (a + b)[|a| + i];
    ReadParams(w, entry, a);
    ReadAppend(w, entry, a, [ch] + (b + last));
    var half := ReadAll(w, entry, a);
    assert [] + a == a;
    ControlHere(w, half, ch);
    ReadCons(w, half, ch, b + last);
    PerformedConsole(half, ch);
    var done := Performed(half, ControlFunction(ch));
    ReadParams(w, done, b);
    ReadAppend(w, done, b, last);
    ReadFinal(w, ReadAll(w, done, b), final);
    ReadControlSequence(w, m.(console := done.console), [], a + b, [], final);
    assert introducer + [] + (a + b) + [] + last == introducer + (a + b) + last;
    assert [] + [] + [final] == [final];
  }

  lemma PerformedConsole(m: Machine, ch: int)
    requires Wf(m.console) && Control(ch)
    ensures var n := Performed(m, ControlFunction(ch));
            n == m.(console := Dispatched(ControlFunction(ch), m.console, Parse(m.params))) && Wf(n.console)
  {
    hide Wf, Dispatched, ControlFunction, Parse;
  }

  // ---------------------------------------------------------------- malformed control sequences

  /** A colon anywhere, or a parameter or private mark too late, spoils a control sequence. */
  lemma Spoils(s: EscapeParser.State, ch: int)
    requires CsiOpen(s)
    requires ch == 0x3A || (s.CsiParam? && 0x3C <= ch <= 0x3F) || (s.CsiIntermediate? && 0x30 <= ch <= 0x3F)
    ensures EscapeParser.Actions(s, ch) == [] && EscapeParser.After(s, ch).CsiIgnore?
  {
  }

  lemma SpoiltTransition(ch: int)
    requires 0x20 <= ch <= 0x7E
    ensures EscapeParser.Actions(EscapeParser.CsiIgnore, ch) == []
    ensures EscapeParser.After(EscapeParser.CsiIgnore, ch) == if 0x40 <= ch then EscapeParser.Ground else EscapeParser.CsiIgnore
  {
  }

  /** It is then skipped up to its final character and not dispatched. */
  lemma {:induction false} ReadSpoilt(w: Widths, m: Machine, text: seq<int>, final: int)
    requires Wf(m.console) && m.state.CsiIgnore? && 0x40 <= final <= 0x7E && forall i | 0 <= i < |text| :: 0x20 <= text[i] <= 0x3F
    ensures ReadAll(w, m, text + [final]) == m.(state := EscapeParser.Ground)
    decreases |text|
  {
    hide Wf, Read, ReadAll, EscapeParser.Actions, EscapeParser.After;
    if text == [] {
      SpoiltTransition(final);
      ReadNone(w, m, final);
      ReadOne(w, m, final);
      assert text + [final] == [final];
    } else {
      SpoiltTransition(text[0]);
      ReadNone(w, m, text[0]);
      assert text + [final] == [text[0]] + (text[1..] + [final]);
      ReadCons(w, m, text[0], text[1..] + [final]);
      ReadSpoilt(w, m, text[1..], final);
    }
  }

  // ---------------------------------------------------------------- characters

  /** On the ground every other character is printed. */
  lemma ReadPrinted(w: Widths, m: Machine, ch: int)
    requires Wf(m.console) && m.state.Ground? && (0x20 <= ch <= 0x7F || 0xA0 <= ch)
    ensures Read(w, m, ch) == m.(console := Consoles.Print(m.console, CharAt(ch), WidthOf(w, ch)))
  {
    hide Wf, Read, Consoles.Print, EscapeParser.Actions, EscapeParser.After;
    PrintedTransition(ch);
    ReadSingle(w, m, ch, EscapeParser.Print(ch));
  }

  lemma PrintedTransition(ch: int)
    requires 0x20 <= ch <= 0x7F || 0xA0 <= ch
    ensures EscapeParser.Actions(EscapeParser.Ground, ch) == [EscapeParser.Print(ch)] && EscapeParser.After(EscapeParser.Ground, ch).Ground?
  {
  }
}
