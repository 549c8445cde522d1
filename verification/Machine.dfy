/** The emulator as a machine that reads bytes: decoder, parser and dispatcher together. */
module Machines {
  import opened Options
  import opened Terminal
  import opened Dispatching
  import opened Consoles
  import EscapeParser
  import Utf8

  /** What the system's `wcwidth` says of a character. */
  type Widths = int -> CharWidth

  datatype Machine = Machine(
    state: EscapeParser.State, params: seq<int>, chars: seq<int>, osc: seq<int>, console: Console)

  function WidthOf(w: Widths, ch: int): CharWidth {
    if ch == 0 then Unprintable else if 0xA0 <= ch <= 0xFF || 0x20 <= ch <= 0x7E then Narrow else w(ch)
  }

  /** The decoder gives the parser no other numbers than those of characters. */
  function CharAt(ch: int): char {
    if Utf8.IsScalar(ch) then ch as char else Utf8.REPLACEMENT as char
  }

  function Collected(chars: seq<int>, ch: int): seq<int> {
    if |chars| < 8 && ch <= 255 then chars + [ch] else chars
  }

  function Performed(m: Machine, f: Option<Function>): (n: Machine)
    requires Wf(m.console)
    ensures Wf(n.console)
  {
    DispatchedHeld(f, m.console, Parse(m.params));
    HeldWf(m.console, Dispatched(f, m.console, Parse(m.params)));
    m.(console := Dispatched(f, m.console, Parse(m.params)))
  }

  /** What the emulator and the dispatcher assert of an action. */
  predicate Asserted(a: EscapeParser.Action) {
    (a.Execute? ==> a.ch <= 255) && (a.Param? ==> ParamChar(a.ch))
  }

  /** What the emulator does on one action. Titles, the clipboard and links are not part of the machine. */
  function Act(w: Widths, m: Machine, a: EscapeParser.Action): (n: Machine)
    requires Wf(m.console) && Asserted(a)
    ensures Wf(n.console)
  {
    match a
    case Print(ch) =>
      PrintHeld(m.console, CharAt(ch), WidthOf(w, ch));
      HeldWf(m.console, Consoles.Print(m.console, CharAt(ch), WidthOf(w, ch)));
      m.(console := Consoles.Print(m.console, CharAt(ch), WidthOf(w, ch)))
    case Execute(ch) => Performed(m, ControlFunction(ch))
    case Clear => m.(params := [], chars := [])
    case Collect(ch) => m.(chars := Collected(m.chars, ch))
    case Param(ch) => if |m.params| < 100 then m.(params := m.params + [ch]) else m
    case CsiDispatch(ch) =>
      var chars := Collected(m.chars, ch);
      Performed(m.(chars := chars), CsiFunction(chars))
    case EscDispatch(ch) =>
      if m.chars == [] && 0x40 <= ch <= 0x5F then Performed(m, ControlFunction(ch + 0x40))
      else
        var chars := Collected(m.chars, ch);
        Performed(m.(chars := chars), EscapeFunction(chars))
    case OscStart => m.(osc := [])
    case OscPut(ch) => if |m.osc| < MAXIMUM_CLIPBOARD_SIZE then m.(osc := m.osc + [ch]) else m
    case OscEnd => m
    case Ignore => m
    case Hook => m
    case Put(_) => m
    case Unhook => m
  }

  ghost predicate AllAsserted(actions: seq<EscapeParser.Action>) {
    forall i | 0 <= i < |actions| :: Asserted(actions[i])
  }

  /** The parser executes only control characters and collects only digits and semicolons as parameters. */
  lemma ActionsAsserted(s: EscapeParser.State, ch: int)
    ensures AllAsserted(EscapeParser.Actions(s, ch))
  {
    hide EscapeParser.Rule, EscapeParser.Anywhere;
    RuleAsserted(s, if ch >= 0xA0 then 0x41 else ch, ch);
    AnywhereAsserted(ch);
  }

  lemma AnywhereAsserted(ch: int)
    ensures Asserted(EscapeParser.Anywhere(ch).action)
  {
  }

  lemma RuleAsserted(s: EscapeParser.State, c: int, ch: int)
    requires c == ch || (c == 0x41 && 0xA0 <= ch)
    ensures Asserted(EscapeParser.Rule(s, c, ch).action)
  {
  }

  function ActAll(w: Widths, m: Machine, actions: seq<EscapeParser.Action>): (n: Machine)
    requires Wf(m.console) && AllAsserted(actions)
    ensures Wf(n.console)
    decreases |actions|
  {
    if actions == [] then m else ActAll(w, Act(w, m, actions[0]), actions[1..])
  }

  /** Reads one character. */
  function Read(w: Widths, m: Machine, ch: int): (n: Machine)
    requires Wf(m.console)
    ensures Wf(n.console)
  {
    ActionsAsserted(m.state, ch);
    ActAll(w, m, EscapeParser.Actions(m.state, ch)).(state := EscapeParser.After(m.state, ch))
  }

  /** Reads characters, the first one first. */
  function ReadAll(w: Widths, m: Machine, text: seq<int>): (n: Machine)
    requires Wf(m.console)
    ensures Wf(n.console)
    decreases |text|
  {
    if text == [] then m else ReadAll(w, Read(w, m, text[0]), text[1..])
  }

  lemma {:induction false} ReadAppend(w: Widths, m: Machine, a: seq<int>, b: seq<int>)
    requires Wf(m.console)
    ensures ReadAll(w, m, a + b) == ReadAll(w, ReadAll(w, m, a), b)
    decreases |a|
  {
    hide Read, Wf;
    if a == [] {
      assert a + b == b;
    } else {
      assert (a + b)[0] == a[0] && (a + b)[1..] == a[1..] + b;
      ReadAppend(w, Read(w, m, a[0]), a[1..], b);
    }
  }

  lemma ReadNothing(w: Widths, m: Machine)
    requires Wf(m.console)
    ensures ReadAll(w, m, []) == m
  {
  }

  // ---------------------------------------------------------------- bytes and new sizes, in any order

  datatype Event = Octet(b: Utf8.CodeUnit) | NewSize(width: nat, height: nat)

  /** The bytes that the decoder holds back, and the machine. */
  datatype Receiver = Receiver(held: seq<Utf8.CodeUnit>, machine: Machine)

  /** A new terminal. */
  function Start(width: nat, height: nat): (t: Receiver)
    requires 0 < width && 0 < height
    ensures Wf(t.machine.console)
  {
    FreshWf(width, height);
    Receiver([], Machine(EscapeParser.Ground, [], [], [], Fresh(width, height)))
  }

  function Receive(w: Widths, t: Receiver, e: Event): (u: Receiver)
    requires Wf(t.machine.console)
    requires e.NewSize? ==> 0 < e.width && 0 < e.height
    ensures Wf(u.machine.console)
  {
    match e
    case Octet(b) =>
      var p := Utf8.Split(t.held + [b]);
      Receiver(p.rest, ReadAll(w, t.machine, Utf8.Points(p.done)))
    case NewSize(width, height) =>
      ResizedWf(t.machine.console, width, height);
      t.(machine := t.machine.(console := Resized(t.machine.console, width, height)))
  }

  ghost predicate Positive(events: seq<Event>) {
    forall i | 0 <= i < |events| && events[i].NewSize? :: 0 < events[i].width && 0 < events[i].height
  }

  /** Whatever bytes arrive and whatever positive sizes are set in between, the terminal stays well formed. */
  ghost function History(w: Widths, t: Receiver, events: seq<Event>): (u: Receiver)
    requires Wf(t.machine.console) && Positive(events)
    ensures Wf(u.machine.console)
  {
    if events == [] then t
    else Receive(w, History(w, t, events[..|events| - 1]), events[|events| - 1])
  }

  /** What the dispatcher collects is bounded, and parameters are digits and semicolons. */
  ghost predicate Bounded(m: Machine) {
    && |m.params| <= 100 && (forall i | 0 <= i < |m.params| :: ParamChar(m.params[i]))
    && |m.chars| <= 8 && |m.osc| <= MAXIMUM_CLIPBOARD_SIZE
  }

  lemma ActBounded(w: Widths, m: Machine, a: EscapeParser.Action)
    requires Wf(m.console) && Asserted(a) && Bounded(m)
    ensures Bounded(Act(w, m, a))
  {
    hide Wf, Dispatched, Consoles.Print, ControlFunction, CsiFunction, EscapeFunction, Parse;
  }

  lemma {:induction false} ActAllBounded(w: Widths, m: Machine, actions: seq<EscapeParser.Action>)
    requires Wf(m.console) && AllAsserted(actions) && Bounded(m)
    ensures Bounded(ActAll(w, m, actions))
    decreases |actions|
  {
    hide Wf, Act, Asserted, Bounded;
    if actions != [] {
      ActBounded(w, m, actions[0]);
      ActAllBounded(w, Act(w, m, actions[0]), actions[1..]);
    }
  }

  lemma {:induction false} ReadAllBounded(w: Widths, m: Machine, text: seq<int>)
    requires Wf(m.console) && Bounded(m)
    ensures Bounded(ReadAll(w, m, text))
    decreases |text|
  {
    hide Wf, ActAll, AllAsserted, EscapeParser.Actions, EscapeParser.After;
    if text != [] {
      ActionsAsserted(m.state, text[0]);
      ActAllBounded(w, m, EscapeParser.Actions(m.state, text[0]));
      ReadAllBounded(w, Read(w, m, text[0]), text[1..]);
    }
  }

  /** For every sequence of bytes and positive new sizes, a new terminal keeps its screen in shape, its cursor and its
      margins on the screen, one tab slot for each column, its empty cells narrow, and its buffers within their bounds.
      The assertions of the emulator and the dispatcher are the preconditions of `Act` and the assertion in `Combine`,
      so none of them fails on the way. */
  lemma {:induction false} EveryInput(w: Widths, width: nat, height: nat, events: seq<Event>)
    requires 0 < width && 0 < height && Positive(events)
    ensures var t := History(w, Start(width, height), events);
            Wf(t.machine.console) && Bounded(t.machine) && |t.held| < 4
    decreases |events|
  {
    hide Wf, ReadAll, Utf8.Split, Utf8.Points, Resized;
    if events != [] {
      var before := History(w, Start(width, height), events[..|events| - 1]);
      var e := events[|events| - 1];
      EveryInput(w, width, height, events[..|events| - 1]);
      if e.Octet? {
        Utf8.RestWaits(before.held + [e.b]);
        ReadAllBounded(w, before.machine, Utf8.Points(Utf8.Split(before.held + [e.b]).done));
      }
    }
  }

  function Octets(bytes: seq<Utf8.CodeUnit>): (events: seq<Event>)
    ensures Positive(events)
  {
    seq(|bytes|, i requires 0 <= i < |bytes| => Octet(bytes[i]))
  }

  /** Bytes that arrive one by one are read as the characters that the whole string stands for. */
  lemma {:induction false} OneByOne(w: Widths, t: Receiver, bytes: seq<Utf8.CodeUnit>)
    requires Wf(t.machine.console) && t.held == []
    ensures var p := Utf8.Split(bytes);
            History(w, t, Octets(bytes)) == Receiver(p.rest, ReadAll(w, t.machine, Utf8.Points(p.done)))
    decreases |bytes|
  {
    hide Wf, ReadAll, Utf8.Split, Utf8.Points;
    if bytes == [] {
      Utf8.SplitStep([]);
      Utf8.PointsNone();
      ReadNothing(w, t.machine);
    } else {
      var front, b := bytes[..|bytes| - 1], bytes[|bytes| - 1];
      var events := Octets(bytes);
      assert events[..|events| - 1] == Octets(front) && front + [b] == bytes;
      OneByOne(w, t, front);
      Utf8.SplitSnoc(front, b);
      var p, q := Utf8.Split(front), Utf8.Split(Utf8.Split(front).rest + [b]);
      Utf8.PointsAppend(p.done, q.done);
      ReadAppend(w, t.machine, Utf8.Points(p.done), Utf8.Points(q.done));
    }
  }
}
