/** The bytes of a frame, from the writer through the receiving terminal's decoder, parser and dispatcher. */
module Transmission {
  import opened Terminal
  import opened Displays
  import opened Frames
  import opened Machines
  import opened Interpreter
  import opened Graphics
  import opened Dispatching
  import Utf8

  /** Characters are narrow, renditions are such as the setters make, and sizes are not too large for parameters. */
  ghost predicate Legible(w: Widths, f: Frame) {
    && f.width <= PARAM_MAX && f.height <= PARAM_MAX && Reachable(f.rendition)
    && forall c | HasCell(f, c) :: Reachable(c.rendition) && Speakable(w, Print(CharOf(c)))
  }

  lemma AllowedSpeakable(w: Widths, f: Frame, op: Op)
    requires Legible(w, f) && Allowed(f, op)
    ensures Speakable(w, op)
  {
  }

  ghost predicate Scalars(text: seq<int>) {
    forall i | 0 <= i < |text| :: Utf8.IsScalar(text[i])
  }

  lemma ParamScalars(body: seq<int>)
    requires forall i | 0 <= i < |body| :: ParamChar(body[i])
    ensures Scalars(body)
  {
  }

  lemma NumbersScalars(ps: seq<nat>)
    requires ps != []
    ensures Scalars(Joined(ps))
  {
    hide Joined;
    JoinedChars(ps);
    ParamScalars(Joined(ps));
  }

  lemma SpellScalars(op: Op)
    ensures Scalars(Spell(op))
  {
    hide Joined, SgrParams;
    match op
    case CursorTo(y, x) => NumbersScalars([y, x]);
    case EraseChars(n) => NumbersScalars([n]);
    case EraseAll => NumbersScalars([2]);
    case SetRendition(r) => RenditionScalars(r);
    case SetRegion(first, last) => NumbersScalars([first, last]);
    case ShowCursor(_) => NumbersScalars([25]);
    case _ =>
  }

  lemma RenditionScalars(r: Renditions)
    ensures SgrParams(r) != [] && Scalars(Joined(SgrParams(r)))
  {
    NumbersScalars(SgrParams(r));
  }

  lemma {:induction false} TextScalars(ops: seq<Op>)
    ensures Scalars(SpellAll(ops))
  {
    hide Spell, Utf8.IsScalar;
    if ops != [] {
      TextScalars(ops[..|ops| - 1]);
      SpellScalars(ops[|ops| - 1]);
    }
  }

  /** A terminal that takes the bytes one by one has then read them all, is ready for more, and its screen is `s`. */
  ghost predicate Receives(w: Widths, m: Machine, bytes: seq<Utf8.CodeUnit>, s: Screen)
    requires Ready(m)
  {
    var t := History(w, Receiver([], m), Octets(bytes));
    t.held == [] && Ready(t.machine) && t.machine.console.screen == s
  }

  /** The bytes for a list of operations make the terminal perform exactly these. */
  lemma BytesPerform(w: Widths, m: Machine, f: Frame, ops: seq<Op>)
    requires Legible(w, f) && Worded(f, ops) && Ready(m)
    ensures Scalars(SpellAll(ops)) && Receives(w, m, Utf8.EncodeAll(SpellAll(ops)), Run(m.console.screen, ops))
  {
    hide Legible, Allowed, Speakable, SpellAll, ReadAll, Shape, Run, History, Utf8.Split, Utf8.Points, Utf8.EncodeAll;
    forall i | 0 <= i < |ops| ensures Speakable(w, ops[i]) { AllowedSpeakable(w, f, ops[i]); }
    TextScalars(ops);
    Utf8.RoundTrip(SpellAll(ops));
    ReadOps(w, m, ops);
    OneByOne(w, Receiver([], m), Utf8.EncodeAll(SpellAll(ops)));
  }

  /** The bytes that `Display::new_frame` returns, read one by one by a terminal that shows `last` with its cursor in step
      or one column behind, or by any terminal if nothing is known. */
  method NewFrameBytes(d: Display, initialized: bool, last: Frame, f: Frame, gen: nat, ghost w: Widths, ghost m: Machine,
                       ghost behind: bool)
    returns (bytes: seq<Utf8.CodeUnit>)
    requires FrameOk(last) && FrameOk(f) && Legible(w, f)
    requires Ready(m) && m.console.screen.width == f.width && m.console.screen.height == f.height
    requires initialized && SameSize(last, f)
         ==> Poised(m.console.screen, last, behind) && Pictured(m.console.screen.rows, last.rows)
    ensures var known := initialized && SameSize(last, f);
            exists s, after: bool :: Receives(w, m, bytes, s) && Poised(s, f, after)
                && (Pictured(s.rows, f.rows) <==> (known && behind ==> CellsRight(d, last, f)))
                && after == if known && behind then StaysBehind(d, last, f) else Overrun(d, known, last, f)
  {
    hide Legible, Run, Pictured, Overrun, CellsRight, StaysBehind, BottomOnly, BottomShows, Receives, Scalars, SpellAll, Poised, FrameOk;
    ghost var after;
    var ops;
    ops, after := NewFrame(d, initialized, last, f, gen, m.console.screen, behind);
    BytesPerform(w, m, f, ops);
    ScalarsMeans(SpellAll(ops));
    bytes := Utf8.EncodeAll(SpellAll(ops));
    assert Receives(w, m, bytes, Run(m.console.screen, ops)) && Poised(Run(m.console.screen, ops), f, after);
  }

  lemma ScalarsMeans(text: seq<int>)
    requires Scalars(text)
    ensures forall i | 0 <= i < |text| :: Utf8.IsScalar(text[i])
  {
  }
}
