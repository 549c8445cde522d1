/** What the protocol guarantees over whole runs, from the start, with any scheduling of the
    two processes and any behaviour of the network. */
module Guarantees {
  import opened Options
  import opened UserStreams
  import opened Protocol
  import opened Synchronization
  import opened Runs

  /** One move. If an assertion of the source failed, anything could follow. */
  ghost predicate Next(s: System, m: Move, s1: System) {
    Enabled(s, m) && (Asserts(s, m) ==> s1 == Step(s, m))
  }

  ghost predicate Start(s: System) {
    exists nowA, nowB :: 0 <= nowA <= MAX64 && 0 <= nowB <= MAX64 && s == Initial(nowA, nowB)
  }

  ghost predicate IsRun(run: seq<System>, moves: seq<Move>) {
    && |run| == |moves| + 1
    && Start(run[0])
    && (forall i :: 0 <= i < |moves| ==> Next(run[i], moves[i], run[i + 1]))
  }

  /** Neither side is about to use the shutdown number for an ordinary state. */
  ghost predicate NumbersFree(s: System) {
    && (s.a.snd.sent != [] ==> NumbersLeft(s.a.snd))
    && (s.b.snd.sent != [] ==> NumbersLeft(s.b.snd))
  }

  /** A run in which no side runs out of ordinary numbers before it shuts down. */
  ghost predicate Sound(run: seq<System>, moves: seq<Move>) {
    IsRun(run, moves) && forall i :: 0 <= i < |run| ==> NumbersFree(run[i])
  }

  lemma OneEntryOk(now: nat)
    ensures var one := [Stamped(now, 0, [])];
            && NumsOk(one) && TimesOk(one, now) && StrictlySorted(one)
            && Denotes(one, [], map[0 := []]) && AcksHeld(one, 0, {})
  {
    assert [Stamped(now, 0, [])][0].num == 0;
  }

  lemma StartDirection(nowA: nat, nowB: nat)
    ensures var a, b := InitialEndpoint(nowA), InitialEndpoint(nowB);
            DirectionOk(a.snd, nowA, b.rcv, b.snd.ackNum, Link({}, [], map[0 := []], [], [], []), {})
  {
    hide NumsOk, TimesOk, Denotes, StrictlySorted, AcksHeld;
    OneEntryOk(nowA);
    OneEntryOk(nowB);
  }

  lemma StartInv(s: System)
    requires Start(s)
    ensures Inv(s) && NumbersFree(s)
  {
    hide DirectionOk;
    var nowA, nowB :| 0 <= nowA <= MAX64 && 0 <= nowB <= MAX64 && s == Initial(nowA, nowB);
    StartDirection(nowA, nowB);
    StartDirection(nowB, nowA);
  }

  lemma NextInv(s: System, m: Move, s1: System)
    requires Inv(s) && NumbersFree(s) && Next(s, m, s1)
    ensures Asserts(s, m) && s1 == Step(s, m) && Inv(s1)
  {
    hide DirectionOk, StepA, AssertsA, EnabledA;
    InvNonempty(s);
    match m
    case AtA(act) => StepAKeeps(s, act);
    case AtB(act) =>
      InvSwap(s);
      StepAKeeps(Swap(s), act);
      InvSwap(StepA(Swap(s), act));
  }

  lemma InvNonempty(s: System)
    requires Inv(s)
    ensures s.a.snd.sent != [] && s.b.snd.sent != [] && s.a.rcv.received != [] && s.b.rcv.received != []
  {
    hide NumsOk, TimesOk, Denotes, HistoryOk, StrictlySorted, NetOk, AcksHeld;
  }

  /** No assertion of the source fails in any run, and every reachable state is good. */
  lemma {:induction false} RunInv(run: seq<System>, moves: seq<Move>, n: nat)
    requires Sound(run, moves) && n <= |moves|
    ensures Inv(run[n])
    ensures forall i :: 0 <= i < n ==> Asserts(run[i], moves[i]) && run[i + 1] == Step(run[i], moves[i])
  {
    hide Inv, Asserts, Step, Next, Start, NumbersFree;
    if n == 0 {
      StartInv(run[0]);
    } else {
      RunInv(run, moves, n - 1);
      NextInv(run[n - 1], moves[n - 1], run[n]);
    }
  }

  // ----------------------------------------------- numbers in long runs

  ghost predicate Within(s: Sender, bound: nat) {
    s.sent != [] && (s.shutdown || s.Back().num <= bound)
  }

  /** One step of `a` uses at most one number, and none of those of `b`. */
  lemma StepAWithin(s: System, act: Action, bound: nat)
    requires Inv(s) && EnabledA(s, act) && NumbersLeft(s.a.snd) && Within(s.a.snd, bound)
    ensures AssertsA(s, act)
    ensures Within(StepA(s, act).a.snd, bound + 1) && StepA(s, act).b.snd == s.b.snd
  {
    hide NumsOk, TimesOk, Denotes, HistoryOk, StrictlySorted, NetOk, AcksHeld,
         CalculateTimers, Tick, Recv, ProcessAck, RecvAsserts, TickAsserts, FetchAsserts, TimersAsserts;
    StepAKeeps(s, act);
    match act
    case Push(e) =>
    case Wait(now, timeout, interval) => TimersKeep(s.a.snd, s.ab, s.a.clock, now, timeout, interval);
    case DoTick(t) =>
      TickKeeps(s.a.snd, s.ab, s.a.clock, t);
      ShutdownNumber(StepA(s, DoTick(t)));
    case DoRecv(inst, now) =>
      AckKeeps(s.a.snd, s.a.clock, s.b.rcv, s.b.snd.ackNum, s.ab, s.ba.net, inst);
      RecvReceiverKeeps(s.a, s.b.snd, s.b.clock, s.ba, s.ab.net, inst, now);
    case DoFetch =>
    case DoShutdown(now) =>
  }

  /** The shutdown number is only ever used while shutting down. */
  lemma ShutdownNumber(s: System)
    requires Inv(s)
    ensures s.a.snd.Back().num == MAX64 ==> s.a.snd.shutdown
  {
    hide NumsOk, TimesOk, StrictlySorted, NetOk, AcksHeld;
  }

  lemma {:induction false} RunWithin(run: seq<System>, moves: seq<Move>, n: nat)
    requires IsRun(run, moves) && n <= |moves| < MAX64 - 1
    ensures Inv(run[n]) && Within(run[n].a.snd, n) && Within(run[n].b.snd, n)
  {
    hide Inv, EnabledA, AssertsA, StepA, Start;
    if n == 0 {
      StartInv(run[0]);
      StartWithin(run[0]);
    } else {
      RunWithin(run, moves, n - 1);
      NextWithin(run[n - 1], moves[n - 1], run[n], n - 1);
    }
  }

  lemma StartWithin(s: System)
    requires Start(s)
    ensures Within(s.a.snd, 0) && Within(s.b.snd, 0)
  {
  }

  lemma NextWithin(s: System, m: Move, s1: System, bound: nat)
    requires Inv(s) && Next(s, m, s1) && bound < MAX64 - 1
    requires Within(s.a.snd, bound) && Within(s.b.snd, bound)
    ensures Inv(s1) && Within(s1.a.snd, bound + 1) && Within(s1.b.snd, bound + 1)
  {
    hide DirectionOk, EnabledA, AssertsA, StepA;
    NextInv(s, m, s1);
    match m
    case AtA(act) => StepAWithin(s, act, bound);
    case AtB(act) =>
      InvSwap(s);
      StepAWithin(Swap(s), act, bound);
  }

  /** Fewer than 2^64 - 2 moves cannot use up the numbers. */
  lemma ShortRunSound(run: seq<System>, moves: seq<Move>)
    requires IsRun(run, moves) && |moves| < MAX64 - 1
    ensures Sound(run, moves)
  {
    hide Inv, Start, Next;
    forall i | 0 <= i < |run|
      ensures NumbersFree(run[i])
    {
      RunWithin(run, moves, i);
    }
  }

  // ------------------------------------------------------------- symmetry

  function SwapMove(m: Move): Move {
    match m
    case AtA(act) => AtB(act)
    case AtB(act) => AtA(act)
  }

  function Mirror(run: seq<System>): (r: seq<System>)
    ensures |r| == |run| && forall i :: 0 <= i < |run| ==> r[i] == Swap(run[i])
  {
    seq(|run|, i requires 0 <= i < |run| => Swap(run[i]))
  }

  function MirrorMoves(moves: seq<Move>): (r: seq<Move>)
    ensures |r| == |moves| && forall i :: 0 <= i < |moves| ==> r[i] == SwapMove(moves[i])
  {
    seq(|moves|, i requires 0 <= i < |moves| => SwapMove(moves[i]))
  }

  lemma SwapNext(s: System, m: Move, s1: System)
    requires Next(s, m, s1)
    ensures Next(Swap(s), SwapMove(m), Swap(s1))
  {
    hide EnabledA, AssertsA, StepA;
    assert Swap(Swap(s)) == s;
    match m
    case AtA(act) =>
    case AtB(act) =>
  }

  /** Both sides run the same code, so what holds from `a` to `b` holds from `b` to `a`. */
  lemma MirrorSound(run: seq<System>, moves: seq<Move>)
    requires Sound(run, moves)
    ensures Sound(Mirror(run), MirrorMoves(moves))
  {
    hide Next, Start, NumbersFree, Swap, SwapMove;
    MirrorStart(run[0]);
    forall i | 0 <= i < |moves|
      ensures Next(Mirror(run)[i], MirrorMoves(moves)[i], Mirror(run)[i + 1])
    {
      SwapNext(run[i], moves[i], run[i + 1]);
    }
    forall i | 0 <= i < |run|
      ensures NumbersFree(Mirror(run)[i])
    {
      MirrorNumbers(run[i]);
    }
  }

  lemma MirrorStart(s: System)
    requires Start(s)
    ensures Start(Swap(s))
  {
    var nowA, nowB :| 0 <= nowA <= MAX64 && 0 <= nowB <= MAX64 && s == Initial(nowA, nowB);
    assert Swap(s) == Initial(nowB, nowA);
  }

  lemma MirrorNumbers(s: System)
    requires NumbersFree(s)
    ensures NumbersFree(Swap(s))
  {
  }

  // ------------------------------------------- histories and what happened

  /** The events that the application at `a` has produced. */
  function Pushed(moves: seq<Move>): Stream {
    if moves == [] then []
    else
      Pushed(moves[..|moves| - 1]) +
      match moves[|moves| - 1] case AtA(Push(e)) => [e] case _ => []
  }

  /** The events handed out so far at `b`, decoded, in order. */
  ghost function Delivered(run: seq<System>, moves: seq<Move>): Stream
    requires |moves| < |run|
  {
    if moves == [] then []
    else
      var n := |moves| - 1;
      Delivered(run, moves[..n]) +
      if moves[n] == AtB(DoFetch) && run[n].b.rcv.received != [] then Expand(Fetch(run[n].b.rcv).1) else []
  }

  /** How one step changes the records of the link from `a` to `b`. */
  lemma StepRecords(s: System, m: Move)
    requires Inv(s) && NumbersFree(s) && Enabled(s, m)
    ensures Asserts(s, m)
    ensures var s1 := Step(s, m);
            && s1.ab.stream == s.ab.stream + (match m case AtA(Push(e)) => [e] case _ => [])
            && s1.ab.delivered == s.ab.delivered + (if m == AtB(DoFetch) then Expand(Fetch(s.b.rcv).1) else [])
            && Extends(s.ab.hist, s1.ab.hist)
  {
    hide DirectionOk, EnabledA, AssertsA, CalculateTimers, Tick, Recv, Fetch;
    InvNonempty(s);
    NextInv(s, m, if Asserts(s, m) then Step(s, m) else s);
    if m.AtA? && m.act.DoTick? {
      TickStepKeeps(s, m.act.t);
    }
  }

  /** The records are what they claim to be. */
  lemma {:induction false} RecordsTrue(run: seq<System>, moves: seq<Move>, n: nat)
    requires Sound(run, moves) && n <= |moves|
    ensures run[n].ab.stream == Pushed(moves[..n])
    ensures run[n].ab.delivered == Delivered(run, moves[..n])
  {
    hide Inv, Asserts, Step, Next, NumbersFree, Fetch;
    if n == 0 {
      StartRecords(run[0]);
    } else {
      RecordsTrue(run, moves, n - 1);
      RunInv(run, moves, n);
      RunInv(run, moves, n - 1);
      RunNonempty(run, moves, n - 1);
      NextEnabled(run[n - 1], moves[n - 1], run[n]);
      StepRecords(run[n - 1], moves[n - 1]);
      assert moves[..n][..n - 1] == moves[..n - 1];
    }
  }

  lemma RunNonempty(run: seq<System>, moves: seq<Move>, n: nat)
    requires Sound(run, moves) && n <= |moves|
    ensures run[n].a.rcv.received != [] && run[n].b.rcv.received != []
    ensures run[n].a.snd.sent != [] && run[n].b.snd.sent != []
  {
    hide Next, NumbersFree, Start, DirectionOk, Inv;
    RunInv(run, moves, n);
    InvNonempty(run[n]);
  }

  lemma NextEnabled(s: System, m: Move, s1: System)
    requires Next(s, m, s1)
    ensures Enabled(s, m)
  {
    hide Enabled;
  }

  lemma StartRecords(s: System)
    requires Start(s)
    ensures s.ab.stream == [] && s.ab.delivered == [] && s.ab.hist == map[0 := []]
  {
  }

  /** No number is ever given a second meaning. */
  lemma {:induction false} NeverReassigned(run: seq<System>, moves: seq<Move>, i: nat, j: nat)
    requires Sound(run, moves) && i <= j <= |moves|
    ensures Extends(run[i].ab.hist, run[j].ab.hist)
    decreases j
  {
    hide Inv, Asserts, Step, Next, NumbersFree, Start, Enabled;
    if i < j {
      NeverReassigned(run, moves, i, j - 1);
      RunInv(run, moves, j - 1);
      RunInv(run, moves, j);
      NextEnabled(run[j - 1], moves[j - 1], run[j]);
      StepRecords(run[j - 1], moves[j - 1]);
    }
  }

  // --------------------------------------------------------- main results

  /** At move `i` the process `a` sends an instruction. */
  ghost predicate SendsAt(run: seq<System>, moves: seq<Move>, i: nat, inst: Inst) {
    && i < |moves| && i < |run|
    && moves[i].AtA? && moves[i].act.DoTick? && run[i].a.snd.sent != []
    && Tick(run[i].a.snd, moves[i].act.t).1 == Some(inst)
  }

  lemma SentMeans(run: seq<System>, moves: seq<Move>, i: nat, inst: Inst, j: nat)
    requires Sound(run, moves) && SendsAt(run, moves, i, inst) && i < j <= |moves|
    ensures inst in run[i + 1].ab.net
    ensures inst.newNum in run[j].ab.hist && run[j].ab.hist[inst.newNum] == Pushed(moves[..i])
  {
    hide Inv, Asserts, Step, Next, NumbersFree, Start, Tick;
    RunInv(run, moves, i + 1);
    RunNonempty(run, moves, i);
    RecordsTrue(run, moves, i);
    NeverReassigned(run, moves, i + 1, j);
    TickRecords(run[i], moves[i].act.t, inst);
  }

  lemma TickRecords(s: System, t: TickInput, inst: Inst)
    requires s.a.snd.sent != [] && s.a.rcv.received != [] && Tick(s.a.snd, t).1 == Some(inst)
    requires Asserts(s, AtA(DoTick(t)))
    ensures var l := Step(s, AtA(DoTick(t))).ab;
            inst in l.net && inst.newNum in l.hist && l.hist[inst.newNum] == s.ab.stream
  {
    hide Tick, TickAsserts;
  }

  /** The stream that entry `k` at `b` stands for: what was cut off, and what is left. */
  ghost function Denoted(s: System, k: nat): Stream
    requires k < |s.b.rcv.received|
  {
    s.ab.rbase + s.b.rcv.received[k].state
  }

  /** Agreement. Whatever the network does, any state that `b` holds under a number that `a`
      has sent is, put back behind what `b` has cut, exactly what the application at `a` had
      produced when it was sent. */
  lemma Agreement(run: seq<System>, moves: seq<Move>, i: nat, inst: Inst, j: nat, k: nat)
    requires Sound(run, moves) && SendsAt(run, moves, i, inst) && i < j <= |moves|
    requires k < |run[j].b.rcv.received| && run[j].b.rcv.received[k].num == inst.newNum
    ensures Denoted(run[j], k) == Pushed(moves[..i])
  {
    hide Asserts, Next, NumbersFree, Start, Tick, NumsOk, TimesOk, Denotes, HistoryOk, NetOk, AcksHeld, StrictlySorted;
    SentMeans(run, moves, i, inst, j);
    RunInv(run, moves, j);
    DenotesAt(run[j].b.rcv.received, k, run[j].ab.rbase, run[j].ab.hist);
  }

  /** Only sending gives a number a meaning. */
  lemma StepHist(s: System, m: Move, n: nat)
    requires Inv(s) && NumbersFree(s) && Enabled(s, m)
    requires Asserts(s, m) && n in Step(s, m).ab.hist && n !in s.ab.hist
    ensures s.a.snd.sent != [] && m.AtA? && m.act.DoTick? && Tick(s.a.snd, m.act.t).1.Some?
    ensures Tick(s.a.snd, m.act.t).1.value.newNum == n
  {
    hide DirectionOk, EnabledA, AssertsA, CalculateTimers, Tick, Recv, Fetch;
    InvNonempty(s);
  }

  lemma {:induction false} MeaningSent(run: seq<System>, moves: seq<Move>, j: nat, n: nat) returns (i: nat, inst: Inst)
    requires Sound(run, moves) && j <= |moves| && n in run[j].ab.hist && n != 0
    ensures i < j && SendsAt(run, moves, i, inst) && inst.newNum == n
    decreases j
  {
    hide Inv, Asserts, Step, Next, NumbersFree, Tick, Enabled;
    StartRecords(run[0]);
    if n in run[j - 1].ab.hist {
      i, inst := MeaningSent(run, moves, j - 1, n);
    } else {
      RunInv(run, moves, j);
      RunInv(run, moves, j - 1);
      NextEnabled(run[j - 1], moves[j - 1], run[j]);
      StepHist(run[j - 1], moves[j - 1], n);
      i, inst := j - 1, Tick(run[j - 1].a.snd, moves[j - 1].act.t).1.value;
    }
  }

  /** Agreement, for every entry. Whatever `b` holds is the empty state it started with, or has been sent by `a` and
      is exactly what the application at `a` had produced then. */
  lemma AgreementOnAll(run: seq<System>, moves: seq<Move>, j: nat, k: nat)
    requires Sound(run, moves) && j <= |moves| && k < |run[j].b.rcv.received|
    ensures var num := run[j].b.rcv.received[k].num;
            || (num == 0 && Denoted(run[j], k) == [])
            || exists i: nat, inst :: i < j && SendsAt(run, moves, i, inst) && inst.newNum == num
                                 && Denoted(run[j], k) == Pushed(moves[..i])
  {
    hide Asserts, Next, NumbersFree, Start, Tick, NumsOk, TimesOk, Denotes, HistoryOk, NetOk, AcksHeld, StrictlySorted;
    RunInv(run, moves, j);
    DenotesAt(run[j].b.rcv.received, k, run[j].ab.rbase, run[j].ab.hist);
    var num := run[j].b.rcv.received[k].num;
    if num == 0 {
      NeverReassigned(run, moves, 0, j);
      ZeroIsEmpty(run[0], run[j].ab.hist);
    } else {
      var i, inst := MeaningSent(run, moves, j, num);
      Agreement(run, moves, i, inst, j, k);
    }
  }

  lemma ZeroIsEmpty(s: System, hist: map<nat, Stream>)
    requires Start(s) && Extends(s.ab.hist, hist)
    ensures 0 in hist && hist[0] == []
  {
  }

  /** A number sent twice stands for the same stream both times. */
  lemma OneMeaning(run: seq<System>, moves: seq<Move>, i: nat, x: Inst, j: nat, y: Inst)
    requires Sound(run, moves) && SendsAt(run, moves, i, x) && SendsAt(run, moves, j, y)
    requires x.newNum == y.newNum
    ensures Pushed(moves[..i]) == Pushed(moves[..j])
  {
    hide Next, NumbersFree, Start, Tick;
    SentMeans(run, moves, i, x, |moves|);
    SentMeans(run, moves, j, y, |moves|);
  }

  /** In order and without gaps or repetition: what has been handed out at `b` is always a
      prefix of what was produced at `a`. */
  lemma ExactlyOnce(run: seq<System>, moves: seq<Move>, n: nat)
    requires Sound(run, moves) && n <= |moves|
    ensures Delivered(run, moves[..n]) <= Pushed(moves[..n])
  {
    hide Asserts, Next, NumbersFree, Start, NumsOk, TimesOk, Denotes, NetOk, AcksHeld, StrictlySorted;
    RecordsTrue(run, moves, n);
    RunInv(run, moves, n);
  }

  /** Complete: right after handing out, everything up to the newest received state has been
      handed out. */
  lemma FetchComplete(run: seq<System>, moves: seq<Move>, n: nat)
    requires Sound(run, moves) && n < |moves| && moves[n] == AtB(DoFetch)
    ensures run[n + 1].b.rcv.received != []
    ensures Delivered(run, moves[..n + 1]) == Denoted(run[n + 1], |run[n + 1].b.rcv.received| - 1)
  {
    hide Inv, Asserts, Step, Next, NumbersFree, Start, Fetch;
    RecordsTrue(run, moves, n + 1);
    RunInv(run, moves, n + 1);
    RunInv(run, moves, n);
    RunNonempty(run, moves, n + 1);
    FetchDenotes(run[n]);
  }

  lemma FetchDenotes(s: System)
    requires Inv(s)
    ensures Asserts(s, AtB(DoFetch))
    ensures var s1 := Step(s, AtB(DoFetch));
            s1.b.rcv.received != [] && s1.ab.delivered == Denoted(s1, |s1.b.rcv.received| - 1)
  {
    hide NumsOk, TimesOk, Denotes, HistoryOk, StrictlySorted, NetOk, AcksHeld, CutAll, FetchAsserts;
    InvSwap(s);
    FetchKeeps(Swap(s));
    var s1 := Step(s, AtB(DoFetch));
    DenotesAt(s1.b.rcv.received, |s1.b.rcv.received| - 1, s1.ab.rbase, s1.ab.hist);
  }

  /** No wedging. The receiver still holds the state the sender will fall back to, and no
      instruction in flight can take that, or its own reference state, away. */
  lemma NoWedging(run: seq<System>, moves: seq<Move>, n: nat)
    requires Sound(run, moves) && n <= |moves|
    ensures run[n].a.snd.sent != [] && run[n].b.rcv.received != []
    ensures Has(run[n].b.rcv.received, run[n].a.snd.Front().num)
    ensures run[n].a.snd.Front().num <= run[n].b.rcv.Newest().num
    ensures forall inst | inst in run[n].ab.net ::
              inst.throwawayNum <= inst.oldNum <= inst.newNum && inst.throwawayNum <= run[n].a.snd.Front().num
  {
    hide Asserts, Next, NumbersFree, Start, NumsOk, TimesOk, Denotes, HistoryOk, Diff;
    RunInv(run, moves, n);
  }

  // ------------------------------------------------------ convergence step

  /** The newest number the sender has used is beyond every number the receiver holds. */
  lemma NewestBound(s: System, k: nat)
    requires Inv(s) && k < |s.b.rcv.received|
    ensures s.b.rcv.received[k].num <= s.a.snd.Back().num
  {
    hide NumsOk, TimesOk, NetOk, StrictlySorted, AcksHeld;
  }

  /** The queue is not full, or it has been so for long enough. */
  predicate Accepting(r: Receiver, now: nat) {
    |r.received| <= RECEIVED_LIMIT || r.quench <= now
  }

  /** An instruction against a state that is held leaves its new state held, unless the
      queue is full. */
  lemma RecvStores(e: Endpoint, inst: Inst, now: nat)
    requires inst.version == PROTOCOL_VERSION
    requires Has(e.rcv.received, inst.oldNum) && Accepting(e.rcv, now)
    requires RecvAsserts(e.rcv, inst)
    ensures Has(Recv(e, inst, now).rcv.received, inst.newNum)
  {
    hide Has, InsertSorted, KeepFrom, ProcessAck, Wrap;
    if Applicable(e.rcv.received, inst) {
      var kept := KeepFrom(e.rcv.received, inst.throwawayNum);
      var k := IndexOf(kept, inst.oldNum);
      InsertedHas(kept, Stamped(now, inst.newNum, kept[k].state + Expand(inst.diff)));
    }
  }

  lemma InsertedHas(states: seq<Stamped>, e: Stamped)
    ensures Has(InsertSorted(states, e), e.num)
  {
    assert InsertSorted(states, e)[FirstAbove(states, e.num)].num == e.num;
  }

  lemma SortedLast(states: seq<Stamped>, i: nat)
    requires StrictlySorted(states) && i < |states|
    ensures i == |states| - 1 || states[i].num < states[|states| - 1].num
  {
  }

  /** Holding the sender's last number means holding everything that was pushed, when that
      number stands for it. */
  lemma HoldingLast(s: System)
    requires Inv(s) && Has(s.b.rcv.received, s.a.snd.Back().num)
    requires s.a.snd.Back().num in s.ab.hist && s.ab.hist[s.a.snd.Back().num] == s.ab.stream
    ensures s.b.rcv.received != [] && s.b.rcv.Newest().num == s.a.snd.Back().num
    ensures Denoted(s, |s.b.rcv.received| - 1) == s.ab.stream
  {
    hide NumsOk, TimesOk, Denotes, NetOk, HistoryOk, AcksHeld;
    var r := s.b.rcv.received;
    NewestBound(s, |r| - 1);
    var i :| 0 <= i < |r| && r[i].num == s.a.snd.Back().num;
    SortedLast(r, i);
    DenotesAt(r, |r| - 1, s.ab.rbase, s.ab.hist);
  }

  /** The tick of a convergence step: what goes out stands for all that was pushed. */
  lemma TickSendsAll(s: System, t: TickInput, inst: Inst)
    requires Inv(s) && EnabledA(s, DoTick(t)) && NumbersLeft(s.a.snd)
    requires Tick(s.a.snd, t).1 == Some(inst)
    ensures AssertsA(s, DoTick(t)) && Inv(StepA(s, DoTick(t)))
    ensures var s1 := StepA(s, DoTick(t));
            && s1.a.snd.sent != [] && s1.b == s.b && inst in s1.ab.net
            && s1.a.snd.Front().num == s.a.snd.Front().num
            && inst.newNum == s1.a.snd.Back().num && inst.newNum in s1.ab.hist
            && s1.ab.hist[inst.newNum] == s1.ab.stream == s.ab.stream
  {
    hide NumsOk, TimesOk, Denotes, HistoryOk, StrictlySorted, NetOk, AcksHeld, Tick, TickAsserts, Extends;
    TickStepKeeps(s, t);
    TickKeeps(s.a.snd, s.ab, s.a.clock, t);
  }

  /** Convergence. Whatever has happened before, if `a` sends against its acknowledged state
      and that instruction is what `b` receives next, then `b` has everything that the
      application at `a` has produced. */
  lemma Convergence(run: seq<System>, moves: seq<Move>, n: nat, inst: Inst, now: nat)
    requires Sound(run, moves) && SendsAt(run, moves, n, inst) && n + 2 <= |moves|
    requires inst.oldNum == run[n].a.snd.Front().num
    requires Accepting(run[n].b.rcv, now)
    requires moves[n + 1] == AtB(DoRecv(inst, now))
    ensures run[n + 2].b.rcv.received != []
    ensures Denoted(run[n + 2], |run[n + 2].b.rcv.received| - 1) == Pushed(moves[..n + 2])
  {
    hide Inv, Asserts, Step, Next, NumbersFree, Start, Tick, EnabledA, Enabled;
    RunInv(run, moves, n);
    RunInv(run, moves, n + 2);
    NextEnabled(run[n], moves[n], run[n + 1]);
    NextEnabled(run[n + 1], moves[n + 1], run[n + 2]);
    FreeAt(run, moves, n);
    ConvergenceStep(run[n], moves[n].act.t, inst, now, run[n + 1], run[n + 2]);
    RecordsTrue(run, moves, n + 2);
  }

  lemma FreeAt(run: seq<System>, moves: seq<Move>, n: nat)
    requires Sound(run, moves) && n < |run| && run[n].a.snd.sent != []
    ensures NumbersLeft(run[n].a.snd)
  {
    hide Next, Start;
    assert NumbersFree(run[n]);
  }

  lemma ConvergenceStep(s: System, t: TickInput, inst: Inst, now: nat, s1: System, s2: System)
    requires Inv(s) && Enabled(s, AtA(DoTick(t))) && NumbersLeft(s.a.snd)
    requires Tick(s.a.snd, t).1 == Some(inst) && inst.oldNum == s.a.snd.Front().num
    requires Accepting(s.b.rcv, now)
    requires Asserts(s, AtA(DoTick(t))) && s1 == Step(s, AtA(DoTick(t)))
    requires Asserts(s1, AtB(DoRecv(inst, now))) && s2 == Step(s1, AtB(DoRecv(inst, now)))
    requires Inv(s2)
    ensures s2.b.rcv.received != [] && Denoted(s2, |s2.b.rcv.received| - 1) == s2.ab.stream
  {
    hide NumsOk, TimesOk, Denotes, HistoryOk, StrictlySorted, Has, Tick, TickAsserts, Recv, RecvAsserts, ProcessAck, Diff;
    TickSendsAll(s, t, inst);
    RecvStores(s1.b, inst, now);
    HoldingLast(s2);
  }

  // ----------------------------------------------------------- a first exchange

  /** The first call of `tick` sends an empty acknowledgment. */
  lemma FirstTick(now: nat, t: TickInput, inst: Inst)
    requires t.hasAddr && t.now == now <= MAX64
    requires inst == Inst(PROTOCOL_VERSION, 0, 1, 0, 0, [], t.chaff)
    ensures Tick(InitialEndpoint(now).snd, t).1 == Some(inst)
  {
    var s := InitialEndpoint(now).snd;
    var s1 := CalculateTimers(s, t.now, t.timeout, t.interval);
    assert s1.assumed == 0 && s1.sent == [Stamped(now, 0, [])] && s1.current == [];
    assert s1.nextAck <= now;
    assert ChooseBase(s1) == (s1, []);
  }

  /** The results about sending and receiving are not empty: from the start, a first instruction can be sent and be
      received next, as `Agreement` and `Convergence` suppose. */
  lemma FirstExchange(now: nat, t: TickInput, inst: Inst) returns (run: seq<System>, moves: seq<Move>)
    requires t.hasAddr && t.now == now <= MAX64
    requires inst == Inst(PROTOCOL_VERSION, 0, 1, 0, 0, [], t.chaff)
    ensures Sound(run, moves) && SendsAt(run, moves, 0, inst)
    ensures |moves| == 2 && moves[1] == AtB(DoRecv(inst, now))
    ensures inst.oldNum == run[0].a.snd.Front().num && Accepting(run[0].b.rcv, now)
  {
    hide Inv, Asserts, Step, Tick;
    var s0, m0, m1 := Initial(now, now), AtA(DoTick(t)), AtB(DoRecv(inst, now));
    FirstTick(now, t, inst);
    assert Start(s0);
    StartInv(s0);
    FirstStep(s0, t, inst);
    var s1 := Step(s0, m0);
    var s2 := if Asserts(s1, m1) then Step(s1, m1) else s1;
    run, moves := [s0, s1, s2], [m0, m1];
    assert Next(run[0], moves[0], run[1]) && Next(run[1], moves[1], run[2]);
    ShortRunSound(run, moves);
  }

  lemma FirstStep(s: System, t: TickInput, inst: Inst)
    requires Inv(s) && NumbersFree(s) && Enabled(s, AtA(DoTick(t)))
    requires s.a.snd.sent != [] && Tick(s.a.snd, t).1 == Some(inst)
    ensures Asserts(s, AtA(DoTick(t)))
    ensures var s1 := Step(s, AtA(DoTick(t))); inst in s1.ab.net && s1.b == s.b
  {
    hide Inv, Tick, AssertsA, NumbersLeft;
    InvNonempty(s);
    StepAKeeps(s, DoTick(t));
  }

  // --------------------------------------------------------------- shutdown

  /** Shutdown loses nothing. Once the shutdown number is acknowledged, the other side holds
      everything that was ever produced, however often that number was sent. */
  lemma ShutdownComplete(run: seq<System>, moves: seq<Move>, n: nat)
    requires Sound(run, moves) && n <= |moves|
    requires run[n].a.snd.sent != [] && ShutdownAcknowledged(run[n].a.snd)
    ensures run[n].b.rcv.received != []
    ensures Denoted(run[n], |run[n].b.rcv.received| - 1) == Pushed(moves[..n])
  {
    hide Inv, Asserts, Step, Next, NumbersFree, Start;
    RunInv(run, moves, n);
    RecordsTrue(run, moves, n);
    ShutdownHolds(run[n]);
  }

  lemma ShutdownHolds(s: System)
    requires Inv(s) && s.a.snd.sent != [] && ShutdownAcknowledged(s.a.snd)
    ensures s.b.rcv.received != [] && Denoted(s, |s.b.rcv.received| - 1) == s.ab.stream
  {
    hide TimesOk, NetOk, StrictlySorted, Has;
    assert s.a.snd.Back().num == MAX64;
    HoldingLast(s);
  }

  // ------------------------------------------------------------ sender list

  /** The list of sent states never exceeds its limit, is in order of time and number, and
      the entry culled from it is never the base of the diff being sent. */
  lemma SentListBounded(run: seq<System>, moves: seq<Move>, n: nat)
    requires Sound(run, moves) && n <= |moves|
    ensures SenderLists(run[n].a.snd, run[n].a.clock)
    ensures forall t: TickInput :: EnabledA(run[n], DoTick(t)) ==> TickAsserts(run[n].a.snd, t)
  {
    hide NumsOk, TimesOk, Denotes, HistoryOk, StrictlySorted, NetOk, AcksHeld, TickAsserts, Asserts, Step, Next, Start;
    RunInv(run, moves, n);
    FreeAt(run, moves, n);
    forall t: TickInput | EnabledA(run[n], DoTick(t))
      ensures TickAsserts(run[n].a.snd, t)
    {
      TickKeeps(run[n].a.snd, run[n].ab, run[n].a.clock, t);
    }
  }
}
