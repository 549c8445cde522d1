/** Recovery: from every state that can be reached, three moves bring the other side up to date. */
module Recoveries {
  import opened Options
  import opened UserStreams
  import opened Protocol
  import opened Synchronization
  import opened Runs
  import opened Guarantees
  import opened Heartbeats

  // ------------------------------------------------------------- the sender falls back

  /** When every sent state is old, the sender assumes only what has been acknowledged. */
  lemma NothingRecent(s: Sender, t: TickInput)
    requires s.sent != [] && forall i | 0 <= i < |s.sent| :: s.sent[i].timestamp + t.timeout + ACK_DELAY <= t.now <= MAX64
    ensures var s1 := CalculateTimers(s, t.now, t.timeout, t.interval);
            s1.assumed == 0 && |s1.sent| == |s.sent| && s1.Front().num == s.Front().num
  {
    if |s.sent| > 1 { assert !Recent(s.sent[1], t.now, t.timeout); }
  }

  lemma CulledFront(states: seq<Stamped>)
    requires states != []
    ensures Culled(states) != [] && Culled(states)[0] == states[0]
  {
  }

  lemma SentAgainstFront(s: Sender, diff: UserMessage, t: TickInput)
    requires s.sent != [] && s.assumed == 0 && AddSentStateAsserts(s)
    ensures var inst := SendChosen(s, diff, t).1; inst.Some? ==> inst.value.oldNum == s.Front().num
  {
    hide Culled, Wrap;
    CulledFront(s.sent + [Stamped(t.now, EmptyAckNum(s), s.current)]);
    CulledFront(s.sent + [Stamped(t.now, DataNum(s), s.current)]);
  }

  /** A tick that comes late enough sends against the acknowledged state. */
  lemma FallsBack(s: Sender, t: TickInput)
    requires s.sent != [] && Paced(s) && TickAsserts(s, t) && t.hasAddr && t.interval <= SEND_INTERVAL_MAX
    requires forall i | 0 <= i < |s.sent| :: s.sent[i].timestamp + t.timeout + ACK_DELAY <= t.now <= MAX64
    requires s.Back().timestamp + ACK_INTERVAL <= t.now
    ensures Tick(s, t).1.Some? && Tick(s, t).1.value.oldNum == s.Front().num
  {
    hide CalculateTimers, SendChosen, Diff, TimersAsserts, AddSentStateAsserts, Paced;
    TickPaced(s, t);
    NothingRecent(s, t);
    var s1 := CalculateTimers(s, t.now, t.timeout, t.interval);
    if TickSends(s, t) {
      var (s2, diff) := ChooseBase(s1);
      SentAgainstFront(s2, diff, t);
    }
  }

  // ------------------------------------------------------------- clocks

  /** Clocks and the end of the quenching time fit in 64 bits. */
  predicate Timely(s: System) {
    s.a.clock <= MAX64 && s.b.clock <= MAX64 && s.a.rcv.quench <= MAX64 && s.b.rcv.quench <= MAX64
  }

  lemma StepATimely(s: System, act: Action)
    requires Timely(s) && EnabledA(s, act) && s.a.snd.sent != [] && s.a.rcv.received != []
    ensures Timely(StepA(s, act))
  {
    hide CalculateTimers, Tick, ProcessAck, InsertSorted, KeepFrom, Has, CutAll;
  }

  lemma NextTimely(s: System, m: Move, s1: System)
    requires Inv(s) && NumbersFree(s) && Next(s, m, s1) && Timely(s)
    ensures Timely(s1)
  {
    hide Inv, EnabledA, AssertsA, StepA;
    InvNonempty(s);
    NextInv(s, m, s1);
    match m
    case AtA(act) => StepATimely(s, act);
    case AtB(act) => StepATimely(Swap(s), act);
  }

  lemma {:induction false} RunTimely(run: seq<System>, moves: seq<Move>, n: nat)
    requires Sound(run, moves) && n <= |moves|
    ensures Timely(run[n])
  {
    hide Inv, Next, NumbersFree, Timely;
    if n == 0 {
      StartTimely(run[0]);
    } else {
      RunTimely(run, moves, n - 1);
      RunInv(run, moves, n - 1);
      NextTimely(run[n - 1], moves[n - 1], run[n]);
    }
  }

  lemma StartTimely(s: System)
    requires Start(s)
    ensures Timely(s)
  {
  }

  // ------------------------------------------------------------- three moves

  /** One more move. */
  lemma Extended(run: seq<System>, moves: seq<Move>, m: Move) returns (longer: seq<System>)
    requires Sound(run, moves) && Enabled(run[|moves|], m) && |moves| + 1 < MAX64 - 1
    ensures |longer| == |run| + 1 && longer[..|run|] == run && Sound(longer, moves + [m])
  {
    hide Inv, Enabled, Asserts, Step, NumbersFree, Start;
    var s := run[|moves|];
    var next := if Asserts(s, m) then Step(s, m) else s;
    longer := run + [next];
    forall i | 0 <= i < |moves + [m]| ensures Next(longer[i], (moves + [m])[i], longer[i + 1]) {
      if i < |moves| { assert Next(run[i], moves[i], run[i + 1]); }
    }
    ShortRunSound(longer, moves + [m]);
  }

  lemma SameFetched(s: System, k: nat)
    requires Inv(s) && k < |s.b.rcv.received|
    ensures Asserts(s, AtB(DoFetch))
    ensures var s1 := Step(s, AtB(DoFetch)); |s1.b.rcv.received| == |s.b.rcv.received| && Denoted(s1, k) == Denoted(s, k)
  {
    hide NumsOk, TimesOk, Denotes, HistoryOk, StrictlySorted, NetOk, AcksHeld;
    InvSwap(s);
    FetchKeeps(Swap(s));
    PrefixBack(s.ab.rbase, s.b.rcv.received[0].state, s.b.rcv.received[k].state);
  }

  lemma PrefixBack(base: Stream, front: Stream, state: Stream)
    requires front <= state
    ensures base + front + Cut(state, front) == base + state
  {
  }

  lemma {:induction false} PushedSame(moves: seq<Move>, more: seq<Move>)
    requires forall i | 0 <= i < |more| :: !(more[i].AtA? && more[i].act.Push?)
    ensures Pushed(moves + more) == Pushed(moves)
    decreases |more|
  {
    if more == [] {
      assert moves + more == moves;
    } else {
      var front := more[..|more| - 1];
      assert (moves + more)[..|moves + more| - 1] == moves + front;
      PushedSame(moves, front);
    }
  }

  /** Whatever has happened, and however the network has behaved: if `a` calls `tick` late enough, it sends; if what it
      sends arrives, even at a receiver whose queue has been full, `b` holds all that was produced at `a`; and asked
      for it, `b` has then handed out all of it. */
  lemma ThreeMoves(run: seq<System>, moves: seq<Move>, t: TickInput) returns (longer: seq<System>, inst: Inst, now: nat)
    requires Sound(run, moves) && (forall i | 0 <= i < |moves| :: Brisk(moves[i].act)) && |moves| + 3 < MAX64 - 1
    requires t.hasAddr && t.interval <= SEND_INTERVAL_MAX
    requires run[|moves|].a.clock + ACK_INTERVAL <= t.now && run[|moves|].a.clock + t.timeout + ACK_DELAY <= t.now <= MAX64
    ensures var more := [AtA(DoTick(t)), AtB(DoRecv(inst, now)), AtB(DoFetch)];
            && |longer| == |run| + 3 && longer[..|run|] == run && Sound(longer, moves + more)
            && SendsAt(longer, moves + more, |moves|, inst)
            && Delivered(longer, moves + more) == Pushed(moves)
  {
    hide Sound, Enabled, SendsAt, Brisk, Delivered, Denoted;
    var n := |moves|;
    assert |run| == n + 1 by { RunLength(run, moves); }
    var run2;
    run2, inst, now := TwoMoves(run, moves, t);
    var moves2 := moves + [AtA(DoTick(t)), AtB(DoRecv(inst, now))];
    assert Enabled(run2[n + 2], AtB(DoFetch)) by { FetchEnabled(run2[n + 2]); }
    longer := Extended(run2, moves2, AtB(DoFetch));
    var moves3 := moves + [AtA(DoTick(t)), AtB(DoRecv(inst, now)), AtB(DoFetch)];
    assert moves3 == moves2 + [AtB(DoFetch)];
    assert longer[n + 2] == run2[n + 2] && longer[n] == run2[n] && longer[..|run|] == run2[..|run|];
    Fetched(longer, moves3, n + 2);
    assert moves3[..n + 3] == moves3;
    StillSends(run2, moves2, longer, moves3, n, inst);
  }

  lemma StillSends(run: seq<System>, moves: seq<Move>, longer: seq<System>, more: seq<Move>, n: nat, inst: Inst)
    requires SendsAt(run, moves, n, inst) && n < |longer| && n < |more| && longer[n] == run[n] && more[n] == moves[n]
    ensures SendsAt(longer, more, n, inst)
  {
    hide Tick;
  }

  /** The tick and the arrival. */
  lemma TwoMoves(run: seq<System>, moves: seq<Move>, t: TickInput) returns (longer: seq<System>, inst: Inst, now: nat)
    requires Sound(run, moves) && (forall i | 0 <= i < |moves| :: Brisk(moves[i].act)) && |moves| + 2 < MAX64 - 1
    requires t.hasAddr && t.interval <= SEND_INTERVAL_MAX
    requires run[|moves|].a.clock + ACK_INTERVAL <= t.now && run[|moves|].a.clock + t.timeout + ACK_DELAY <= t.now <= MAX64
    ensures var more := [AtA(DoTick(t)), AtB(DoRecv(inst, now))];
            && |longer| == |run| + 2 && longer[..|run|] == run && Sound(longer, moves + more)
            && SendsAt(longer, moves + more, |moves|, inst)
            && longer[|moves| + 2].b.rcv.received != []
            && Denoted(longer[|moves| + 2], |longer[|moves| + 2].b.rcv.received| - 1) == Pushed(moves)
  {
    hide Sound, Enabled, Tick, Brisk, Denoted, Accepting, Pushed;
    var n := |moves|;
    assert |run| == n + 1 by { RunLength(run, moves); }
    var m0 := AtA(DoTick(t));
    TickNow(run, moves, t);
    var run1 := Extended(run, moves, m0);
    inst, now := TickArrives(run, moves, t, run1);
    var m1 := AtB(DoRecv(inst, now));
    longer := Extended(run1, moves + [m0], m1);
    var moves2 := moves + [m0, m1];
    assert moves + [m0] + [m1] == moves2;
    assert run1[n] == run[n] && longer[n] == run1[n] && longer[..|run|] == run1[..|run|];
    Convergence(longer, moves2, n, inst, now);
    assert moves2[..n + 2] == moves2;
    PushedSame(moves, [m0, m1]);
  }

  lemma RunLength(run: seq<System>, moves: seq<Move>)
    requires Sound(run, moves)
    ensures |run| == |moves| + 1
  {
  }

  lemma FetchEnabled(s: System)
    ensures Enabled(s, AtB(DoFetch))
  {
  }

  lemma Fetched(run: seq<System>, moves: seq<Move>, n: nat)
    requires Sound(run, moves) && n < |moves| && moves[n] == AtB(DoFetch) && run[n].b.rcv.received != []
    ensures Delivered(run, moves[..n + 1]) == Denoted(run[n], |run[n].b.rcv.received| - 1)
  {
    hide Inv, Asserts, Step, Next, NumbersFree, Start, Fetch;
    FetchComplete(run, moves, n);
    RunInv(run, moves, n + 1);
    RunInv(run, moves, n);
    SameFetched(run[n], |run[n].b.rcv.received| - 1);
  }

  lemma TickNow(run: seq<System>, moves: seq<Move>, t: TickInput)
    requires Sound(run, moves) && (forall i | 0 <= i < |moves| :: Brisk(moves[i].act))
    requires t.hasAddr && t.interval <= SEND_INTERVAL_MAX
    requires run[|moves|].a.clock + ACK_INTERVAL <= t.now && run[|moves|].a.clock + t.timeout + ACK_DELAY <= t.now <= MAX64
    ensures Enabled(run[|moves|], AtA(DoTick(t))) && run[|moves|].a.snd.sent != []
    ensures var sent := Tick(run[|moves|].a.snd, t).1; sent.Some? && sent.value.oldNum == run[|moves|].a.snd.Front().num
  {
    hide Asserts, Step, Next, NumbersFree, Start, Tick, TickAsserts, Paced, Brisk, NumsOk, Denotes, HistoryOk, NetOk, AcksHeld,
      StrictlySorted, ReceiverOk;
    var s := run[|moves|];
    RunInv(run, moves, |moves|);
    RunPaced(run, moves, |moves|);
    FreeAt(run, moves, |moves|);
    TickAllowed(s, t);
    FallsBack(s.a.snd, t);
  }

  /** What was sent can arrive, at a time when the receiver takes it. */
  lemma TickArrives(run: seq<System>, moves: seq<Move>, t: TickInput, longer: seq<System>) returns (inst: Inst, now: nat)
    requires Sound(run, moves) && run[|moves|].a.snd.sent != [] && Tick(run[|moves|].a.snd, t).1.Some?
    requires |longer| == |run| + 1 && longer[..|run|] == run && Sound(longer, moves + [AtA(DoTick(t))])
    ensures Tick(run[|moves|].a.snd, t).1 == Some(inst)
    ensures Accepting(run[|moves|].b.rcv, now) && Enabled(longer[|moves| + 1], AtB(DoRecv(inst, now)))
  {
    hide Inv, Asserts, Next, NumbersFree, Start, Tick;
    var s := run[|moves|];
    inst := Tick(s.a.snd, t).1.value;
    now := Max(s.b.clock, s.b.rcv.quench);
    RunTimely(run, moves, |moves|);
    assert longer[|moves|] == s && (moves + [AtA(DoTick(t))])[|moves|] == AtA(DoTick(t));
    RunInv(run, moves, |moves|);
    InvNonempty(s);
    RunInv(longer, moves + [AtA(DoTick(t))], |moves| + 1);
  }
}
