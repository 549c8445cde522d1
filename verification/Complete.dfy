/** The terminal that reads bytes in place: decoder, parser and emulator in one object, as in
    mosh/src/statesync/completeterminal.cc. */
module CompleteTerminals {
  import opened Terminal
  import opened Consoles
  import opened Emulators
  import opened SharedRows
  import opened Dispatching
  import EscapeParser
  import Machines
  import Utf8

  class Complete {
    const widths: Machines.Widths
    const decoder: Utf8.Utf8Parser
    const parser: EscapeParser.Parser
    const terminal: Emulator

    ghost predicate Valid()
      reads decoder, decoder.buf, terminal, terminal.pool, terminal.dispatch
    {
      decoder.Valid() && terminal.dispatch.Valid() && Wf(terminal.View())
    }

    /** The terminal as a value. */
    ghost function AsReceiver(): Machines.Receiver
      reads decoder, decoder.buf, parser, terminal, terminal.pool, terminal.dispatch
      requires decoder.bufLen <= decoder.buf.Length
    {
      Machines.Receiver(decoder.buf[..decoder.bufLen], terminal.AsMachine(parser.state))
    }

    constructor (widths: Machines.Widths, pool: Pool, width: nat, height: nat)
      requires pool.Valid() && 0 < width && 0 < height
      modifies pool
      ensures Valid() && AsReceiver() == Machines.Start(width, height) && terminal.pool == pool && this.widths == widths
    {
      this.widths := widths;
      decoder := new Utf8.Utf8Parser();
      parser := new EscapeParser.Parser();
      terminal := new Emulator(pool, width, height);
      new;
      FreshWf(width, height);
      assert terminal.View() == terminal.AsMachine(EscapeParser.Ground).console;
    }

    /** A copy shares the rows of its original, and nothing else. */
    constructor Copy(other: Complete)
      requires other.Valid()
      modifies other.terminal.pool
      ensures Valid() && AsReceiver() == old(other.AsReceiver()) && widths == other.widths
      ensures other.Valid() && other.AsReceiver() == old(other.AsReceiver())
      ensures terminal.pool == other.terminal.pool && terminal.frame != other.terminal.frame
      ensures fresh(decoder) && fresh(decoder.buf) && fresh(parser) && fresh(terminal) && fresh(terminal.dispatch)
    {
      hide Wf, Emulator.View, Emulator.Rows, Pool.Valid, Pool.Rows, Utf8.Utf8Parser.Valid, Dispatcher.Valid;
      WfRows(other.terminal);
      widths := other.widths;
      decoder := new Utf8.Utf8Parser.Copy(other.decoder);
      parser := new EscapeParser.Parser.Copy(other.parser);
      terminal := new Emulator.Copy(other.terminal);
    }

    /** The actions of one character. */
    method Perform(actions: seq<EscapeParser.Action>, ghost state: EscapeParser.State)
      requires Wf(terminal.View()) && terminal.dispatch.Valid() && Machines.AllAsserted(actions)
      modifies terminal.pool, terminal`ds, terminal.dispatch
      ensures terminal.Aside() == old(terminal.Aside())
      ensures Wf(terminal.View()) && terminal.dispatch.Valid()
      ensures terminal.AsMachine(state) == Machines.ActAll(widths, old(terminal.AsMachine(state)), actions)
    {
      hide Wf, Emulator.View, Emulator.Aside, Machines.Act, Dispatcher.Valid, Machines.Asserted;
      ghost var before := terminal.AsMachine(state);
      assert actions[0..] == actions;
      for i := 0 to |actions|
        invariant Wf(terminal.View()) && terminal.dispatch.Valid() && terminal.Aside() == old(terminal.Aside())
        invariant Machines.ActAll(widths, terminal.AsMachine(state), actions[i..]) == Machines.ActAll(widths, before, actions)
      {
        assert actions[i..][0] == actions[i] && actions[i..][1..] == actions[i + 1..];
        terminal.Act(widths, actions[i], state);
      }
    }

    /** One character. */
    method Read(ch: int)
      requires Wf(terminal.View()) && terminal.dispatch.Valid()
      modifies parser, terminal.pool, terminal`ds, terminal.dispatch
      ensures terminal.Aside() == old(terminal.Aside())
      ensures Wf(terminal.View()) && terminal.dispatch.Valid()
      ensures terminal.AsMachine(parser.state) == Machines.Read(widths, old(terminal.AsMachine(parser.state)), ch)
    {
      hide Wf, Emulator.View, Emulator.Aside, Machines.ActAll, Dispatcher.Valid, EscapeParser.Actions, EscapeParser.After;
      ghost var state := parser.state;
      Machines.ActionsAsserted(state, ch);
      var actions := parser.Input(ch, []);
      assert actions == EscapeParser.Actions(state, ch);
      Perform(actions, state);
    }

    method ReadText(text: seq<int>)
      requires Wf(terminal.View()) && terminal.dispatch.Valid()
      modifies parser, terminal.pool, terminal`ds, terminal.dispatch
      ensures terminal.Aside() == old(terminal.Aside())
      ensures Wf(terminal.View()) && terminal.dispatch.Valid()
      ensures terminal.AsMachine(parser.state) == Machines.ReadAll(widths, old(terminal.AsMachine(parser.state)), text)
    {
      hide Wf, Emulator.View, Emulator.Aside, Machines.Read, Dispatcher.Valid;
      ghost var before := terminal.AsMachine(parser.state);
      assert text[0..] == text;
      for i := 0 to |text|
        invariant Wf(terminal.View()) && terminal.dispatch.Valid() && terminal.Aside() == old(terminal.Aside())
        invariant Machines.ReadAll(widths, terminal.AsMachine(parser.state), text[i..]) == Machines.ReadAll(widths, before, text)
      {
        assert text[i..][0] == text[i] && text[i..][1..] == text[i + 1..];
        Read(text[i]);
      }
    }

    /** One byte, which completes any number of characters. */
    method ReadOctet(b: Utf8.CodeUnit)
      requires Valid()
      modifies decoder, decoder.buf, parser, terminal.pool, terminal`ds, terminal.dispatch
      ensures Valid() && terminal.Aside() == old(terminal.Aside())
      ensures AsReceiver() == Machines.Receive(widths, old(AsReceiver()), Machines.Octet(b))
    {
      hide Wf, Emulator.View, Emulator.Aside, Machines.ReadAll, Dispatcher.Valid, Utf8.Split, Utf8.Points;
      var n := |decoder.passed|;
      decoder.Input(b);
      ReadText(decoder.passed[n..]);
    }

    method Resize(width: nat, height: nat)
      requires Valid() && 0 < width && 0 < height
      modifies terminal.pool, terminal`ds
      ensures Valid() && terminal.Aside() == old(terminal.Aside())
      ensures AsReceiver() == Machines.Receive(widths, old(AsReceiver()), Machines.NewSize(width, height))
    {
      hide Wf, Emulator.View, Emulator.Aside, Resized, Dispatcher.Valid, Utf8.Split, Utf8.Points;
      terminal.Resize(width, height);
    }

    /** Bytes and new sizes, one after the other. The terminal does what its functions say, and no other framebuffer of
        the pool changes, however rows are shared. */
    method Act(events: seq<Machines.Event>)
      requires Valid() && Machines.Positive(events)
      modifies decoder, decoder.buf, parser, terminal.pool, terminal`ds, terminal.dispatch
      ensures Valid() && terminal.Aside() == old(terminal.Aside())
      ensures AsReceiver() == Machines.History(widths, old(AsReceiver()), events)
    {
      hide Wf, Emulator.View, Emulator.Aside, Machines.Receive, Dispatcher.Valid, Utf8.Split, Utf8.Points;
      ghost var before := AsReceiver();
      for i := 0 to |events|
        invariant Valid() && terminal.Aside() == old(terminal.Aside())
        invariant AsReceiver() == Machines.History(widths, before, events[..i])
      {
        assert events[..i + 1][..i] == events[..i];
        match events[i]
        case Octet(b) => ReadOctet(b);
        case NewSize(width, height) => Resize(width, height);
      }
      assert events[..|events|] == events;
    }
  }

  /** Two terminals over one pool: what one reads leaves the other as it is. */
  method ActBeside(complete: Complete, other: Emulator, events: seq<Machines.Event>)
    requires complete.Valid() && Machines.Positive(events)
    requires complete.terminal.pool == other.pool && complete.terminal.frame != other.frame
    requires complete.terminal != other && complete.terminal.dispatch != other.dispatch
    modifies complete.decoder, complete.decoder.buf, complete.parser
    modifies complete.terminal.pool, complete.terminal`ds, complete.terminal.dispatch
    ensures complete.Valid() && complete.AsReceiver() == Machines.History(complete.widths, old(complete.AsReceiver()), events)
    ensures forall state :: other.AsMachine(state) == old(other.AsMachine(state))
  {
    hide Wf, Emulator.Aside, Machines.History, Utf8.Split, Utf8.Points;
    FoundAside(complete.terminal, other);
    complete.Act(events);
    FoundAside(complete.terminal, other);
  }

  /** A copy taken before stays what it was, whatever is read afterwards. */
  method Snapshot(complete: Complete, events: seq<Machines.Event>) returns (copy: Complete)
    requires complete.Valid() && Machines.Positive(events)
    modifies complete.decoder, complete.decoder.buf, complete.parser
    modifies complete.terminal.pool, complete.terminal`ds, complete.terminal.dispatch
    ensures complete.Valid() && complete.AsReceiver() == Machines.History(complete.widths, old(complete.AsReceiver()), events)
    ensures copy.Valid() && copy.AsReceiver() == old(complete.AsReceiver())
  {
    hide Wf, Emulator.Rows, Emulator.View, Machines.History, Utf8.Split, Utf8.Points, Utf8.Utf8Parser.Valid, Dispatcher.Valid;
    copy := new Complete.Copy(complete);
    ActBeside(complete, copy.terminal, events);
  }
}
