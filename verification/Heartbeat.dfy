/** The timers over whole runs: no side stays silent for longer than the acknowledgment interval. */
module Heartbeats {
  import opened UserStreams
  import opened Protocol
  import opened Synchronization
  import opened Runs
  import opened Guarantees

  const SEND_INTERVAL_MAX := 250

  /** The send interval computed from the round trip time has an upper limit. */
  predicate Brisk(act: Action) {
    match act
    case Wait(_, _, interval) => interval <= SEND_INTERVAL_MAX
    case DoTick(t) => t.interval <= SEND_INTERVAL_MAX
    case _ => true
  }

  /** The next acknowledgment is due in time after the last sending, which the newest sent state is stamped with. */
  ghost predicate Paced(s: Sender) {
    s.sent != [] && s.nextAck <= s.Back().timestamp + ACK_INTERVAL
  }

  lemma TimersPaced(s: Sender, now: nat, timeout: nat, interval: nat)
    requires Paced(s) && interval <= SEND_INTERVAL_MAX
    ensures var s1 := CalculateTimers(s, now, timeout, interval);
            Paced(s1) && s1.Back().timestamp == s.Back().timestamp && s1.assumed < |s1.sent| == |s.sent|
  {
    hide Cut;
  }

  lemma AddBack(s: Sender, e: Stamped)
    ensures var s1 := AddSentState(s, e); s1.sent != [] && s1.Back() == e
  {
  }

  lemma SendPaced(s: Sender, diff: UserMessage, t: TickInput)
    requires Paced(s) && AddSentStateAsserts(s)
    ensures Paced(SendChosen(s, diff, t).0)
    ensures t.now >= s.nextAck ==> SendChosen(s, diff, t).1.Some?
  {
    hide AddSentState, MakeInst;
    AddBack(s, Stamped(t.now, EmptyAckNum(s), s.current));
    AddBack(s, Stamped(t.now, DataNum(s), s.current));
  }

  lemma TickPaced(s: Sender, t: TickInput)
    requires Paced(s) && TickAsserts(s, t) && t.interval <= SEND_INTERVAL_MAX
    ensures Paced(Tick(s, t).0)
    ensures t.hasAddr && t.now >= s.Back().timestamp + ACK_INTERVAL ==> Tick(s, t).1.Some?
  {
    hide CalculateTimers, SendChosen, Diff, TimersAsserts, AddSentStateAsserts;
    TimersPaced(s, t.now, t.timeout, t.interval);
    var s1 := CalculateTimers(s, t.now, t.timeout, t.interval);
    if TickSends(s, t) {
      var (s2, diff) := ChooseBase(s1);
      SendPaced(s2, diff, t);
    }
  }

  lemma RecvPaced(s: System, inst: Inst, now: nat)
    requires Inv(s) && inst in s.ba.net && Paced(s.a.snd)
    ensures Paced(Recv(s.a, inst, now).snd)
  {
    hide NumsOk, TimesOk, Denotes, HistoryOk, StrictlySorted, NetOk, AcksHeld, ProcessAck, InsertSorted, KeepFrom;
    AckKeeps(s.a.snd, s.a.clock, s.b.rcv, s.b.snd.ackNum, s.ab, s.ba.net, inst);
  }

  lemma StepAPaced(s: System, act: Action)
    requires Inv(s) && EnabledA(s, act) && NumbersLeft(s.a.snd) && Brisk(act)
    requires Paced(s.a.snd) && Paced(s.b.snd) && s.a.rcv.received != []
    ensures Paced(StepA(s, act).a.snd) && Paced(StepA(s, act).b.snd)
  {
    hide Inv, CalculateTimers, Tick, Recv, TickAsserts;
    match act
    case Wait(now, timeout, interval) => TimersPaced(s.a.snd, now, timeout, interval);
    case DoTick(t) =>
      TickAllowed(s, t);
      TickPaced(s.a.snd, t);
    case DoRecv(inst, now) => RecvPaced(s, inst, now);
    case _ =>
  }

  lemma TickAllowed(s: System, t: TickInput)
    requires Inv(s) && EnabledA(s, DoTick(t)) && NumbersLeft(s.a.snd)
    ensures TickAsserts(s.a.snd, t)
  {
    hide NumsOk, TimesOk, Denotes, HistoryOk, StrictlySorted, NetOk, AcksHeld, TickAsserts, Tick;
    TickKeeps(s.a.snd, s.ab, s.a.clock, t);
  }

  lemma NextPaced(s: System, m: Move, s1: System)
    requires Inv(s) && NumbersFree(s) && Next(s, m, s1) && Brisk(m.act)
    requires Paced(s.a.snd) && Paced(s.b.snd)
    ensures Paced(s1.a.snd) && Paced(s1.b.snd)
  {
    hide Inv, EnabledA, AssertsA, StepA;
    InvNonempty(s);
    NextInv(s, m, s1);
    match m
    case AtA(act) => StepAPaced(s, act);
    case AtB(act) =>
      InvSwap(s);
      StepAPaced(Swap(s), act);
  }

  lemma {:induction false} RunPaced(run: seq<System>, moves: seq<Move>, n: nat)
    requires Sound(run, moves) && n <= |moves| && forall i | 0 <= i < |moves| :: Brisk(moves[i].act)
    ensures Paced(run[n].a.snd) && Paced(run[n].b.snd)
  {
    hide Inv, Next, NumbersFree, Paced, Brisk;
    if n == 0 {
      StartPaced(run[0]);
    } else {
      RunPaced(run, moves, n - 1);
      RunInv(run, moves, n - 1);
      NextPaced(run[n - 1], moves[n - 1], run[n]);
    }
  }

  lemma StartPaced(s: System)
    requires Start(s)
    ensures Paced(s.a.snd) && Paced(s.b.snd)
  {
  }

  /** Heartbeat. In every run, a tick that comes an acknowledgment interval or more after the last sending sends
      again, provided there is someone to send to. */
  lemma Heartbeat(run: seq<System>, moves: seq<Move>, n: nat, t: TickInput)
    requires Sound(run, moves) && forall i | 0 <= i < |moves| :: Brisk(moves[i].act)
    requires n < |moves| && moves[n] == AtA(DoTick(t)) && t.hasAddr
    ensures run[n].a.snd.sent != []
    ensures t.now >= run[n].a.snd.Back().timestamp + ACK_INTERVAL ==> Tick(run[n].a.snd, t).1.Some?
  {
    hide Inv, Start, Tick, TickAsserts, NumbersFree, Asserts, Step;
    RunPaced(run, moves, n);
    RunInv(run, moves, n);
    NextEnabled(run[n], moves[n], run[n + 1]);
    FreeAt(run, moves, n);
    TickAllowed(run[n], t);
    assert Brisk(moves[n].act);
    TickPaced(run[n].a.snd, t);
  }

  lemma CutTwice(states: seq<Stamped>)
    requires states != []
    ensures var cut := CutAll(states, states[0].state);
            CutAll(cut, cut[0].state) == cut && forall s: Stream :: Cut(s, cut[0].state) == s
  {
  }

  lemma {:induction false} RecentSame(a: seq<Stamped>, b: seq<Stamped>, i: nat, now: nat, timeout: nat)
    requires 1 <= i <= |a| == |b| && forall j | 0 <= j < |a| :: a[j].timestamp == b[j].timestamp
    ensures LastRecent(a, i, now, timeout) == LastRecent(b, i, now, timeout)
    decreases |a| - i
  {
    if i < |a| && Recent(a[i], now, timeout) { RecentSame(a, b, i + 1, now, timeout); }
  }

  lemma SetTwice(s: Sender, now: nat, timeout: nat, interval: nat)
    requires s.sent != [] && s.assumed < |s.sent|
    ensures var s1 := SetTimers(s, now, timeout, interval); SetTimers(s1, now, timeout, interval) == s1
  {
    hide Wrap;
  }

  /** Calculating the timers again changes nothing. */
  lemma TimersTwice(s: Sender, now: nat, timeout: nat, interval: nat)
    requires s.sent != []
    ensures var s1 := CalculateTimers(s, now, timeout, interval); CalculateTimers(s1, now, timeout, interval) == s1
  {
    hide Recent, LastRecent, SetTimers, Cut, CutAll;
    var r := Rationalize(UpdateAssumed(s, now, timeout));
    var s1 := SetTimers(r, now, timeout, interval);
    SetKeeps(r, now, timeout, interval);
    CutTwice(s.sent);
    RecentSame(s.sent, s1.sent, 1, now, timeout);
    SetTwice(r, now, timeout, interval);
    assert Rationalize(UpdateAssumed(s1, now, timeout)) == s1;
  }

  lemma SetKeeps(s: Sender, now: nat, timeout: nat, interval: nat)
    requires s.sent != [] && s.assumed < |s.sent|
    ensures var s1 := SetTimers(s, now, timeout, interval);
            s1.sent == s.sent && s1.current == s.current && s1.assumed == s.assumed
  {
  }

  /** `wait_time` is zero if and only if a tick at the same moment passes its first check, and never longer than the
      acknowledgment interval. */
  lemma WaitThenTick(run: seq<System>, moves: seq<Move>, n: nat, t: TickInput)
    requires Sound(run, moves) && n <= |moves| && forall i | 0 <= i < |moves| :: Brisk(moves[i].act)
    requires t.hasAddr && t.interval <= SEND_INTERVAL_MAX && run[n].a.clock <= t.now <= MAX64
    ensures run[n].a.snd.sent != []
    ensures var s1 := CalculateTimers(run[n].a.snd, t.now, t.timeout, t.interval);
            && 0 <= WaitTime(s1, t.now, true) <= ACK_INTERVAL
            && s1.sent != [] && (WaitTime(s1, t.now, true) == 0 <==> TickSends(s1, t))
  {
    hide NumsOk, Denotes, HistoryOk, StrictlySorted, NetOk, AcksHeld, ReceiverOk, Next, Start, NumbersFree, Asserts, Step,
      CalculateTimers, Brisk;
    RunPaced(run, moves, n);
    RunInv(run, moves, n);
    var s := run[n].a.snd;
    TimersPaced(s, t.now, t.timeout, t.interval);
    TimersTwice(s, t.now, t.timeout, t.interval);
  }
}
