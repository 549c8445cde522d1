/** The escape sequence parser: one transition for each character, and the actions it causes. Characters are
    code points. */
module EscapeParser {
  datatype State =
    | Ground | Escape | EscapeIntermediate
    | CsiEntry | CsiParam | CsiIntermediate | CsiIgnore
    | DcsEntry | DcsParam | DcsIntermediate | DcsPassthrough | DcsIgnore
    | OscString | SosPmApcString

  datatype Action =
    | Ignore | Print(ch: int) | Execute(ch: int) | Clear | Collect(ch: int) | Param(ch: int)
    | EscDispatch(ch: int) | CsiDispatch(ch: int)
    | Hook | Put(ch: int) | Unhook | OscStart | OscPut(ch: int) | OscEnd

  /** Stay in the state, or go to another one. */
  datatype Transition = Stay(action: Action) | Go(action: Action, next: State)

  predicate C0Prime(ch: int) {
    ch <= 0x17 || ch == 0x19 || 0x1C <= ch <= 0x1F
  }

  predicate Digits(ch: int) {
    0x30 <= ch <= 0x39 || ch == 0x3B
  }

  predicate Final(ch: int) {
    0x40 <= ch <= 0x7E
  }

  predicate Intermediate(ch: int) {
    0x20 <= ch <= 0x2F
  }

  function Enter(s: State): Action {
    match s
    case Escape => Clear
    case CsiEntry => Clear
    case DcsEntry => Clear
    case DcsPassthrough => Hook
    case OscString => OscStart
    case _ => Ignore
  }

  function Exit(s: State): Action {
    match s
    case DcsPassthrough => Unhook
    case OscString => OscEnd
    case _ => Ignore
  }

  /** The transitions that do not depend on the state. */
  function Anywhere(ch: int): Transition {
    if ch == 0x18 || ch == 0x1A || 0x80 <= ch <= 0x8F || 0x91 <= ch <= 0x97 || ch == 0x99 || ch == 0x9A then
      Go(Execute(ch), Ground)
    else if ch == 0x9C then Go(Ignore, Ground)
    else if ch == 0x1B then Go(Ignore, Escape)
    else if ch == 0x98 || ch == 0x9E || ch == 0x9F then Go(Ignore, SosPmApcString)
    else if ch == 0x90 then Go(Ignore, DcsEntry)
    else if ch == 0x9D then Go(Ignore, OscString)
    else if ch == 0x9B then Go(Ignore, CsiEntry)
    else Stay(Ignore)
  }

  /** The rule of each state; `ch` is what the action is given, and `c` what is looked at. */
  function Rule(s: State, c: int, ch: int): Transition {
    match s
    case Ground =>
      if C0Prime(c) then Stay(Execute(ch))
      else if 0x20 <= c <= 0x7F || 0xA0 <= c <= 0xFF then Stay(Print(ch))
      else Stay(Ignore)
    case Escape =>
      if C0Prime(c) then Stay(Execute(ch))
      else if Intermediate(c) then Go(Collect(ch), EscapeIntermediate)
      else if 0x30 <= c <= 0x4F || 0x51 <= c <= 0x57 || c == 0x59 || c == 0x5A || c == 0x5C || 0x60 <= c <= 0x7E then
        Go(EscDispatch(ch), Ground)
      else if c == 0x5B then Go(Ignore, CsiEntry)
      else if c == 0x5D then Go(Ignore, OscString)
      else if c == 0x50 then Go(Ignore, DcsEntry)
      else if c == 0x58 || c == 0x5E || c == 0x5F then Go(Ignore, SosPmApcString)
      else Stay(Ignore)
    case EscapeIntermediate =>
      if C0Prime(c) then Stay(Execute(ch))
      else if Intermediate(c) then Stay(Collect(ch))
      else if 0x30 <= c <= 0x7E then Go(EscDispatch(ch), Ground)
      else Stay(Ignore)
    case CsiEntry =>
      if C0Prime(c) then Stay(Execute(ch))
      else if Final(c) then Go(CsiDispatch(ch), Ground)
      else if Digits(c) then Go(Param(ch), CsiParam)
      else if 0x3C <= c <= 0x3F then Go(Collect(ch), CsiParam)
      else if c == 0x3A then Go(Ignore, CsiIgnore)
      else if Intermediate(c) then Go(Collect(ch), CsiIntermediate)
      else Stay(Ignore)
    case CsiParam =>
      if C0Prime(c) then Stay(Execute(ch))
      else if Digits(c) then Stay(Param(ch))
      else if c == 0x3A || 0x3C <= c <= 0x3F then Go(Ignore, CsiIgnore)
      else if Intermediate(c) then Go(Collect(ch), CsiIntermediate)
      else if Final(c) then Go(CsiDispatch(ch), Ground)
      else Stay(Ignore)
    case CsiIntermediate =>
      if C0Prime(c) then Stay(Execute(ch))
      else if Intermediate(c) then Stay(Collect(ch))
      else if Final(c) then Go(CsiDispatch(ch), Ground)
      else if 0x30 <= c <= 0x3F then Go(Ignore, CsiIgnore)
      else Stay(Ignore)
    case CsiIgnore =>
      if C0Prime(c) then Stay(Execute(ch))
      else if Final(c) then Go(Ignore, Ground)
      else Stay(Ignore)
    case DcsEntry =>
      if Intermediate(c) then Go(Collect(ch), DcsIntermediate)
      else if c == 0x3A then Go(Ignore, DcsIgnore)
      else if Digits(c) then Go(Param(ch), DcsParam)
      else if 0x3C <= c <= 0x3F then Go(Collect(ch), DcsParam)
      else if Final(c) then Go(Ignore, DcsPassthrough)
      else Stay(Ignore)
    case DcsParam =>
      if Digits(c) then Stay(Param(ch))
      else if c == 0x3A || 0x3C <= c <= 0x3F then Go(Ignore, DcsIgnore)
      else if Intermediate(c) then Go(Collect(ch), DcsIntermediate)
      else if Final(c) then Go(Ignore, DcsPassthrough)
      else Stay(Ignore)
    case DcsIntermediate =>
      if Intermediate(c) then Stay(Collect(ch))
      else if Final(c) then Go(Ignore, DcsPassthrough)
      else if 0x30 <= c <= 0x3F then Go(Ignore, DcsIgnore)
      else Stay(Ignore)
    case DcsPassthrough =>
      if C0Prime(c) || 0x20 <= c <= 0x7E then Stay(Put(ch)) else Stay(Ignore)
    case DcsIgnore => Stay(Ignore)
    case OscString =>
      if 0x20 <= c <= 0x7F then Stay(OscPut(ch))
      else if c == 0x07 then Go(Ignore, Ground)
      else Stay(Ignore)
    case SosPmApcString => Stay(Ignore)
  }

  /** High code points are parsed like the letter A. */
  function Next(s: State, ch: int): Transition {
    if Anywhere(ch).Go? then Anywhere(ch) else Rule(s, if ch >= 0xA0 then 0x41 else ch, ch)
  }

  function Unless(a: Action): seq<Action> {
    if a.Ignore? then [] else [a]
  }

  /** The actions of one character: leaving the old state, the transition's own, entering the new state. */
  function Actions(s: State, ch: int): seq<Action> {
    var tx := Next(s, ch);
    if tx.Go? then Unless(Exit(s)) + Unless(tx.action) + Unless(Enter(tx.next)) else Unless(tx.action)
  }

  function After(s: State, ch: int): State {
    var tx := Next(s, ch);
    if tx.Go? then tx.next else s
  }

  class Parser {
    var state: State

    constructor ()
      ensures state == Ground
    {
      state := Ground;
    }

    constructor Copy(other: Parser)
      ensures state == other.state
    {
      state := other.state;
    }

    /** Moves on by one character and appends the actions it causes. */
    method Input(ch: int, before: seq<Action>) returns (actions: seq<Action>)
      modifies this
      ensures state == After(old(state), ch) && actions == before + Actions(old(state), ch)
    {
      hide Anywhere, Rule;
      actions := before;
      var tx := Next(state, ch);
      if tx.Go? {
        actions := actions + Unless(Exit(state));
      }
      actions := actions + Unless(tx.action);
      if tx.Go? {
        actions := actions + Unless(Enter(tx.next));
        state := tx.next;
      }
    }
  }
}
