/** What follows for data, retransmissions and acknowledgments: they go out in time, and not before. */
module Promptness {
  import opened Options
  import opened UserStreams
  import opened Protocol
  import opened Synchronization
  import opened Runs
  import opened Guarantees
  import opened Heartbeats
  import opened Schedules

  // ------------------------------------------------------------- waiting

  /** When data will be sent if nothing else happens. */
  ghost function DataTime(run: seq<System>, moves: seq<Move>, n: nat, t: TickInput): nat
    requires Covers(run, moves, n) && run[n].a.snd.sent != []
  {
    var s := run[n].a.snd;
    var back := s.Back().timestamp;
    if Unsent(s) then Max(TimeAt(moves, FirstNotice(run, moves, n), t.now) + SEND_MINDELAY, back + t.interval)
    else if Outstanding(s) && Heard(run, moves, n, t.now) then
      back + if Stale(s, t.now, t.timeout) then t.interval else t.timeout + ACK_DELAY
    else MAX64
  }

  /** When an acknowledgment will be sent if nothing else happens. */
  ghost function ReplyTime(run: seq<System>, moves: seq<Move>, n: nat, t: TickInput): nat
    requires Covers(run, moves, n) && run[n].a.snd.sent != []
  {
    var back := run[n].a.snd.Back().timestamp;
    if Closing(run[n].a) then back + t.interval
    else if Quiet(run, moves, 0, n) then back
    else if Wanted(run, moves, n) then
      Min(back + ACK_INTERVAL, TimeAt(moves, FirstAsk(run, moves, n), t.now) + ACK_DELAY)
    else back + ACK_INTERVAL
  }

  /** Only a side that has been brought data has been asked. */
  lemma {:induction false} AskedWanted(run: seq<System>, moves: seq<Move>, n: nat)
    requires Covers(run, moves, n)
    ensures FirstAsk(run, moves, n).Some? ==> Wanted(run, moves, n)
  {
    hide Sends, Renews, Looks;
    if n > 0 { AskedWanted(run, moves, n - 1); }
  }

  /** The timers after a calculation. */
  lemma TimersAre(run: seq<System>, moves: seq<Move>, n: nat, t: TickInput)
    requires MayTick(run, moves, n, t)
    ensures Covers(run, moves, n) && run[n].a.snd.sent != []
    ensures var s1 := CalculateTimers(run[n].a.snd, t.now, t.timeout, t.interval);
            && s1.nextSend == DataTime(run, moves, n, t) && s1.nextAck == ReplyTime(run, moves, n, t) <= t.now + ACK_INTERVAL
  {
    hide NumsOk, TimesOk, Denotes, HistoryOk, NetOk, AcksHeld, StrictlySorted, Sound, Steady, CalculateTimers, FirstNotice, FirstAsk,
      Wanted, LastRenewal, Quiet, Heard, Stale;
    TimersMean(run, moves, n, t);
    RunTracked(run, moves, n);
    HeardLast(run, moves, n, t.now);
    AskedWanted(run, moves, n);
    var s := run[n].a.snd;
    SteadyRoom(t);
    assert t.interval <= SEND_INTERVAL_MAX by { SteadyInterval(t); }
    Calculated(s, run[n].ab, run[n].a.clock, t.now, t.timeout, t.interval);
    BackBefore(s, run[n].a.clock);
  }

  lemma SteadyInterval(t: TickInput)
    requires Steady(DoTick(t))
    ensures t.interval <= SEND_INTERVAL_MAX
  {
  }

  lemma SmallInt(x: nat)
    requires x <= ACK_INTERVAL
    ensures ToInt(x) == x
  {
  }

  /** `wait_time` is the time until the earlier of the two, and a side without a peer does not wake up. */
  lemma WaitExactly(run: seq<System>, moves: seq<Move>, n: nat, t: TickInput)
    requires MayTick(run, moves, n, t)
    ensures Covers(run, moves, n) && run[n].a.snd.sent != []
    ensures var s1 := CalculateTimers(run[n].a.snd, t.now, t.timeout, t.interval);
            var due := Min(DataTime(run, moves, n, t), ReplyTime(run, moves, n, t));
            && WaitTime(s1, t.now, true) == (if due <= t.now then 0 else due - t.now)
            && WaitTime(s1, t.now, false) == INT_MAX
  {
    hide CalculateTimers, DataTime, ReplyTime, MayTick, ToInt;
    TimersAre(run, moves, n, t);
    var due := Min(DataTime(run, moves, n, t), ReplyTime(run, moves, n, t));
    if due > t.now { SmallInt(due - t.now); }
  }

  // ------------------------------------------------------------- what is sent

  /** The diff that goes out is the one that was chosen. */
  lemma SentDiff(s: Sender, t: TickInput)
    requires s.sent != [] && Tick(s, t).1.Some?
    ensures var s1 := CalculateTimers(s, t.now, t.timeout, t.interval);
            s1.sent != [] && s1.assumed < |s1.sent| && Tick(s, t).1.value.diff == ChooseBase(s1).1
  {
    hide CalculateTimers, ChooseBase, AddSentState, AddSentStateAsserts;
    TimersLists(s, t.now, t.timeout, t.interval);
  }

  lemma TimersLists(s: Sender, now: nat, timeout: nat, interval: nat)
    requires s.sent != []
    ensures var s1 := CalculateTimers(s, now, timeout, interval); |s1.sent| == |s.sent| && s1.assumed < |s1.sent|
  {
  }

  /** New data, or old data that are thought to be lost, are sent as data; when nothing is outstanding, only
      acknowledgments are. */
  lemma DiffSent(s: Sender, l: Link, clock: nat, t: TickInput)
    requires SenderOk(s, l, clock) && clock <= t.now <= MAX64 && Tick(s, t).1.Some?
    ensures var diff := Tick(s, t).1.value.diff;
            && (Unsent(s) || (Outstanding(s) && Stale(s, t.now, t.timeout)) ==> diff != [])
            && (!Unsent(s) && !Outstanding(s) ==> diff == [])
  {
    hide NumsOk, TimesOk, Denotes, HistoryOk, CalculateTimers, Rationalize, UpdateAssumed, ChooseBase, Stale, Tick;
    SentDiff(s, t);
    Rebased(s, l, clock, t.now, t.timeout);
    SetLists(s, t.now, t.timeout, t.interval);
    TimersKeep(s, l, clock, t.now, t.timeout, t.interval);
    var s1 := CalculateTimers(s, t.now, t.timeout, t.interval);
    var l1 := l.(sbase := l.sbase + s.Front().state);
    EmptyChoice(s1, l1, t.now);
    if Outstanding(s) && Stale(s, t.now, t.timeout) { FrontNotAll(s1, l1, t.now); }
    if !Unsent(s) && !Outstanding(s) { NothingNew(s1, l1, t.now); }
  }

  lemma FrontNotAll(s: Sender, l: Link, clock: nat)
    requires SenderOk(s, l, clock) && s.assumed < |s.sent| && s.current != s.sent[s.assumed].state
    ensures s.current != s.Front().state
  {
    hide NumsOk, TimesOk, Denotes, HistoryOk;
    FrontIsPrefix(s, l, clock);
    DiffOfDenoted(s, l, clock, s.assumed);
    assert s.Front().state <= s.sent[s.assumed].state <= s.current;
  }

  lemma NothingNew(s: Sender, l: Link, clock: nat)
    requires SenderOk(s, l, clock) && s.assumed < |s.sent| && s.current == s.Front().state == s.sent[s.assumed].state
    ensures ChooseBase(s).1 == []
  {
    hide NumsOk, TimesOk, Denotes, HistoryOk, PrefersResend, Diff;
    DiffApply(s.current, s.current);
  }

  /** A tick of a run that sends: the number stands for all that was produced, the newest received state is acknowledged,
      and the diff is empty only if nothing is outstanding or nothing is thought to be lost. */
  lemma SendingMeans(run: seq<System>, moves: seq<Move>, n: nat, inst: Inst)
    requires Sound(run, moves) && SendsAt(run, moves, n, inst)
    ensures n < |moves| && |run| == |moves| + 1
    ensures inst.newNum in run[n + 1].ab.hist && run[n + 1].ab.hist[inst.newNum] == Pushed(moves[..n])
    ensures run[n].a.rcv.received != [] && inst.ackNum == run[n].a.rcv.Newest().num
    ensures var s, t := run[n].a.snd, moves[n].act.t;
            && (Unsent(s) || (Outstanding(s) && Stale(s, t.now, t.timeout)) ==> inst.diff != [])
            && (!Unsent(s) && !Outstanding(s) ==> inst.diff == [])
  {
    hide NumsOk, TimesOk, Denotes, HistoryOk, NetOk, AcksHeld, StrictlySorted, Start, NumbersFree, Tick, Stale, Asserts, Step, Pushed;
    RunInv(run, moves, n);
    NextEnabled(run[n], moves[n], run[n + 1]);
    SentMeans(run, moves, n, inst, n + 1);
    DiffSent(run[n].a.snd, run[n].ab, run[n].a.clock, moves[n].act.t);
    AckSent(run[n].a.snd, moves[n].act.t);
  }

  lemma AckSent(s: Sender, t: TickInput)
    requires s.sent != [] && Tick(s, t).1.Some?
    ensures Tick(s, t).1.value.ackNum == s.ackNum
  {
    hide CalculateTimers, ChooseBase, AddSentStateAsserts, EmptyAckNum, DataNum, Culled;
    SetKeepsRest(s, t.now, t.timeout, t.interval);
    TimersLists(s, t.now, t.timeout, t.interval);
    ChosenSame(CalculateTimers(s, t.now, t.timeout, t.interval));
  }

  // ------------------------------------------------------------- in time, and not before

  /** Move `n` is a tick of side `a`, with someone to send to. */
  ghost predicate TicksAt(run: seq<System>, moves: seq<Move>, n: nat, t: TickInput) {
    MayTick(run, moves, n, t) && n < |moves| && moves[n] == AtA(DoTick(t)) && t.hasAddr
  }

  lemma SendingAt(run: seq<System>, moves: seq<Move>, n: nat, t: TickInput) returns (inst: Inst)
    requires TicksAt(run, moves, n, t) && run[n].a.snd.sent != [] && Tick(run[n].a.snd, t).1.Some?
    ensures SendsAt(run, moves, n, inst)
  {
    hide Next, Start, NumbersFree, Steady, Tick;
    inst := Tick(run[n].a.snd, t).1.value;
  }

  lemma NoticedUnsent(run: seq<System>, moves: seq<Move>, i: nat, n: nat)
    requires Sound(run, moves) && n <= |moves| && (forall k | 0 <= k < n :: Steady(moves[k].act)) && Early(run[n].a.clock)
    requires Covers(run, moves, n) && Noticed(run, moves, i, n)
    ensures Unsent(run[n].a.snd)
  {
    hide Sound, Steady, FirstNotice, HeardTracked, AckTracked, Noticed;
    NoticeMeans(run, moves, n);
    RunTracked(run, moves, n);
  }

  /** New data that were noticed 8 ms ago or more go out, if the last sending is an interval ago or more: as data, under a
      number that stands for everything produced. */
  lemma NewsInTime(run: seq<System>, moves: seq<Move>, n: nat, i: nat, t: TickInput) returns (inst: Inst)
    requires TicksAt(run, moves, n, t) && Covers(run, moves, n) && run[n].a.snd.sent != []
    requires Noticed(run, moves, i, n) && TimeOf(moves[i].act) + SEND_MINDELAY <= t.now
    requires run[n].a.snd.Back().timestamp + t.interval <= t.now
    ensures SendsAt(run, moves, n, inst) && inst.diff != []
    ensures inst.newNum in run[n + 1].ab.hist && run[n + 1].ab.hist[inst.newNum] == Pushed(moves[..n])
  {
    hide Sound, Steady, Tick, Pushed, Noticed, SendsAt, Stale;
    NoticedUnsent(run, moves, i, n);
    assert NewsDue(run, moves, n, t);
    TickExactly(run, moves, n, t);
    inst := SendingAt(run, moves, n, t);
    SendingMeans(run, moves, n, inst);
  }

  /** They do not go out before, unless something is due anyway. */
  lemma NewsNotBefore(run: seq<System>, moves: seq<Move>, n: nat, t: TickInput)
    requires MayTick(run, moves, n, t) && Covers(run, moves, n) && Unsent(run[n].a.snd) && !AckDue(run, moves, n, t)
    requires t.now < run[n].a.snd.Back().timestamp + t.interval
          || forall i: nat | Noticed(run, moves, i, n) :: t.now < TimeOf(moves[i].act) + SEND_MINDELAY
    ensures Tick(run[n].a.snd, t).1.None?
  {
    hide Sound, Steady, Tick, Noticed, AckDue;
    TickExactly(run, moves, n, t);
  }

  /** What has not been acknowledged is sent again, as data, as long as the other side has been heard from within 10 s. */
  lemma LostSentAgain(run: seq<System>, moves: seq<Move>, n: nat, j: nat, t: TickInput) returns (inst: Inst)
    requires TicksAt(run, moves, n, t) && Covers(run, moves, n)
    requires j < n && Renews(run[j], moves[j], run[j + 1]) && t.now < TimeOf(moves[j].act) + ACTIVE_RETRY_TIMEOUT
    requires var s := run[n].a.snd;
             !Unsent(s) && Outstanding(s) && Stale(s, t.now, t.timeout) && s.Back().timestamp + t.interval <= t.now
    ensures SendsAt(run, moves, n, inst) && inst.diff != []
    ensures inst.newNum in run[n + 1].ab.hist && run[n + 1].ab.hist[inst.newNum] == Pushed(moves[..n])
  {
    hide Sound, Steady, Tick, Pushed, SendsAt, Stale, Renews;
    assert AgainDue(run, moves, n, t);
    TickExactly(run, moves, n, t);
    inst := SendingAt(run, moves, n, t);
    SendingMeans(run, moves, n, inst);
  }

  /** When nothing is outstanding, only acknowledgments are sent, when they are due. */
  lemma OnlyReplies(run: seq<System>, moves: seq<Move>, n: nat, t: TickInput)
    requires TicksAt(run, moves, n, t) && Covers(run, moves, n) && !Unsent(run[n].a.snd) && !Outstanding(run[n].a.snd)
    ensures run[n].a.snd.sent != [] && (Tick(run[n].a.snd, t).1.Some? <==> AckDue(run, moves, n, t))
    ensures Tick(run[n].a.snd, t).1.Some? ==> Tick(run[n].a.snd, t).1.value.diff == []
  {
    hide Sound, Steady, Tick, AckDue, Noticed, Stale, Heard;
    TickExactly(run, moves, n, t);
    if Tick(run[n].a.snd, t).1.Some? {
      var inst := SendingAt(run, moves, n, t);
      SendingMeans(run, moves, n, inst);
    }
  }

  // ------------------------------------------------------------- acknowledgments

  lemma StepNewest(s: System, m: Move, s1: System)
    requires Inv(s) && NumbersFree(s) && Next(s, m, s1)
    ensures s.a.rcv.received != [] && s1.a.rcv.received != [] && s.a.rcv.Newest().num <= s1.a.rcv.Newest().num
  {
    hide NumsOk, TimesOk, Denotes, HistoryOk, NetOk, AcksHeld, StrictlySorted, Recv, Tick, CalculateTimers, Has, RecvAsserts, TickAsserts,
      TimersAsserts, Diff, Cut;
    InvNonempty(s);
    NextInv(s, m, s1);
    if m.AtA? && m.act.DoRecv? { Received(s, m.act.inst, m.act.now); }
  }

  lemma {:induction false} NewestGrows(run: seq<System>, moves: seq<Move>, j: nat, n: nat)
    requires Sound(run, moves) && j <= n <= |moves|
    ensures run[j].a.rcv.received != [] && run[n].a.rcv.received != []
    ensures run[j].a.rcv.Newest().num <= run[n].a.rcv.Newest().num
    decreases n - j
  {
    hide Inv, Next, NumbersFree, Start;
    RunInv(run, moves, j);
    InvNonempty(run[j]);
    if j < n {
      NewestGrows(run, moves, j, n - 1);
      RunInv(run, moves, n - 1);
      StepNewest(run[n - 1], moves[n - 1], run[n]);
    }
  }

  /** Data that made the newest state are acknowledged: by the time of a tick 100 ms or more after the first look at the
      clock, an instruction has gone out that acknowledges this state or a newer one. */
  lemma RepliesSoon(run: seq<System>, moves: seq<Move>, j: nat, i: nat, n: nat, t: TickInput) returns (k: nat, inst: Inst)
    requires TicksAt(run, moves, n, t) && Covers(run, moves, n) && run[n].a.snd.sent != []
    requires j < i < n && Renews(run[j], moves[j], run[j + 1]) && moves[j].act.inst.diff != []
    requires Looks(moves[i]) && TimeOf(moves[i].act) + ACK_DELAY <= t.now
    requires Closing(run[n].a) ==> run[n].a.snd.Back().timestamp + t.interval <= t.now
    ensures j < k <= n && SendsAt(run, moves, k, inst) && moves[j].act.inst.newNum <= inst.ackNum
  {
    hide Sound, Steady, Tick, Looks;
    if Quiet(run, moves, j, n) {
      assert Brought(run, moves, j, i);
      assert Asked(run, moves, i, n);
      assert AckDue(run, moves, n, t);
      TickExactly(run, moves, n, t);
      k := n;
    } else {
      k :| j <= k < n && Sends(run[k], moves[k]);
    }
    inst := Tick(run[k].a.snd, moves[k].act.t).1.value;
    SendingMeans(run, moves, k, inst);
    NewestGrows(run, moves, j + 1, k);
  }

  // ------------------------------------------------------------- what it costs

  /** A diff against the acknowledged state is sent whenever it is no longer than one against the assumed state, or shorter
      than 1000 bytes and less than 100 bytes longer; so it never costs 100 bytes more, and short diffs can always be
      applied. */
  lemma ResendChoice(s: Sender)
    requires s.sent != [] && 0 < s.assumed < |s.sent|
    ensures var proposed, resend := WireSize(Diff(s.current, s.sent[s.assumed].state)), WireSize(Diff(s.current, s.Front().state));
            var (chosen, diff) := ChooseBase(s);
            && WireSize(diff) < proposed + 100
            && (resend < 100 || resend <= proposed ==> chosen.assumed == 0 && diff == Diff(s.current, s.Front().state))
            && (1000 <= resend && proposed < resend ==> chosen == s && diff == Diff(s.current, s.sent[s.assumed].state))
  {
    hide WireSize, Diff;
  }

  /** Beyond 32 entries the list loses exactly the eighteenth, and keeps the newest fifteen and the oldest. */
  lemma CulledOne(states: seq<Stamped>)
    requires |states| == 33
    ensures Culled(states) == states[..17] + states[18..]
  {
  }

  // ------------------------------------------------------------- a receiver that is flooded

  /** Move `j` stores a state although more than 1024 others are kept. */
  ghost predicate Crowds(s: System, m: Move, s1: System) {
    && m.AtA? && m.act.DoRecv?
    && !Has(s.a.rcv.received, m.act.inst.newNum) && Has(s1.a.rcv.received, m.act.inst.newNum)
    && |s1.a.rcv.received| > 1024 + 1
  }

  lemma InsertedLength(kept: seq<Stamped>, e: Stamped)
    ensures |InsertSorted(kept, e)| == |kept| + 1 && Has(InsertSorted(kept, e), e.num)
  {
    hide FirstAbove;
    var k := FirstAbove(kept, e.num);
    assert InsertSorted(kept, e)[k] == e;
  }

  lemma StoreQuenches(e: Endpoint, kept: seq<Stamped>, inst: Inst, now: nat)
    requires !Has(kept, inst.newNum) && now + QUENCH_TIME <= MAX64
    ensures var r := Store(e, kept, inst, now).rcv;
            var crowds := Has(r.received, inst.newNum) && |r.received| > 1024 + 1;
            && r.quench == (if crowds then now + 15000 else e.rcv.quench)
            && (crowds ==> e.rcv.quench <= now)
  {
    hide Has, InsertSorted, FirstAbove, IndexOf, Expand, Wrap;
    NoWrap(now + QUENCH_TIME);
    var k := IndexOf(kept, inst.oldNum);
    if k < |kept| { InsertedLength(kept, Stamped(now, inst.newNum, kept[k].state + Expand(inst.diff))); }
  }

  lemma RecvQuenches(s: System, inst: Inst, now: nat)
    requires Inv(s) && inst in s.ba.net && now + QUENCH_TIME <= MAX64
    ensures s.a.snd.sent != [] && s.a.rcv.received != []
    ensures var s1, m := StepA(s, DoRecv(inst, now)), AtA(DoRecv(inst, now));
            && s1.a.rcv.quench == (if Crowds(s, m, s1) then now + 15000 else s.a.rcv.quench)
            && (Crowds(s, m, s1) ==> s.a.rcv.quench <= now)
  {
    hide NumsOk, TimesOk, Denotes, HistoryOk, NetOk, AcksHeld, Store, KeepFrom, ProcessAck, Has, StrictlySorted;
    InvNonempty(s);
    assert inst.version == PROTOCOL_VERSION && inst.throwawayNum <= s.b.snd.Front().num by { InstAt(s.ba, s.b.snd.Front().num, inst); }
    if Applicable(s.a.rcv.received, inst) {
      var k := ThrowawayKeeps(s.a.rcv.received, inst.throwawayNum, s.b.snd.Front().num, s.ab.net);
      Schedules.Kept(s.a.rcv.received, inst.throwawayNum, k);
      var e1 := s.a.(snd := s.a.snd.(sent := ProcessAck(s.a.snd.sent, inst.ackNum)));
      StoreQuenches(e1, KeepFrom(s.a.rcv.received, inst.throwawayNum), inst, now);
    }
  }

  lemma StepQuenches(s: System, m: Move, s1: System)
    requires Inv(s) && NumbersFree(s) && Next(s, m, s1) && Early(s1.a.clock)
    ensures if Crowds(s, m, s1) then s.a.rcv.quench <= TimeOf(m.act) && s1.a.rcv.quench == TimeOf(m.act) + 15000
            else s1.a.rcv.quench == s.a.rcv.quench
  {
    hide NumsOk, TimesOk, Denotes, HistoryOk, NetOk, AcksHeld, StrictlySorted, Recv, Tick, CalculateTimers, Has, RecvAsserts, TickAsserts,
      TimersAsserts, Diff, Cut;
    InvNonempty(s);
    NextInv(s, m, s1);
    if m.AtA? && m.act.DoRecv? {
      assert s1.a.clock == m.act.now;
      RecvQuenches(s, m.act.inst, m.act.now);
    }
  }

  lemma RunQuenches(run: seq<System>, moves: seq<Move>, n: nat)
    requires Sound(run, moves) && n < |moves| && Early(run[n + 1].a.clock)
    ensures Early(run[n].a.clock)
    ensures if Crowds(run[n], moves[n], run[n + 1])
            then run[n].a.rcv.quench <= TimeOf(moves[n].act) && run[n + 1].a.rcv.quench == TimeOf(moves[n].act) + 15000
            else run[n + 1].a.rcv.quench == run[n].a.rcv.quench
  {
    hide Inv, Next, NumbersFree, Start, Crowds;
    RunInv(run, moves, n);
    ClocksGrow(run, moves, n, n + 1);
    StepQuenches(run[n], moves[n], run[n + 1]);
  }

  lemma {:induction false} QuenchLasts(run: seq<System>, moves: seq<Move>, j: nat, n: nat)
    requires Sound(run, moves) && j < n <= |moves| && Crowds(run[j], moves[j], run[j + 1]) && Early(run[n].a.clock)
    ensures TimeOf(moves[j].act) + 15000 <= run[n].a.rcv.quench
    decreases n
  {
    hide Next, NumbersFree, Start, Crowds;
    RunQuenches(run, moves, n - 1);
    if j < n - 1 { QuenchLasts(run, moves, j, n - 1); }
  }

  /** While more than 1024 states are kept, at most one more is stored in any 15 seconds. */
  lemma FloodLimited(run: seq<System>, moves: seq<Move>, j: nat, k: nat)
    requires Sound(run, moves) && j < k < |moves| && Early(run[k + 1].a.clock)
    requires Crowds(run[j], moves[j], run[j + 1]) && Crowds(run[k], moves[k], run[k + 1])
    ensures TimeOf(moves[j].act) + 15000 <= TimeOf(moves[k].act)
  {
    hide Next, NumbersFree, Start, Crowds;
    RunQuenches(run, moves, k);
    QuenchLasts(run, moves, j, k);
  }

  // ------------------------------------------------------------- giving up

  /** The first shutdown at `a`. */
  function FirstShutdown(moves: seq<Move>, n: nat): Option<nat>
    requires n <= |moves|
  {
    if n == 0 then None
    else if FirstShutdown(moves, n - 1).Some? then FirstShutdown(moves, n - 1)
    else if moves[n - 1].AtA? && moves[n - 1].act.DoShutdown? then Some(n - 1)
    else None
  }

  /** How often `a` has sent since then. */
  ghost function Tries(run: seq<System>, moves: seq<Move>, n: nat): nat
    requires Covers(run, moves, n)
  {
    if n == 0 then 0
    else Tries(run, moves, n - 1) + if Sends(run[n - 1], moves[n - 1]) && FirstShutdown(moves, n - 1).Some? then 1 else 0
  }

  ghost function ShutdownTime(moves: seq<Move>, n: nat): nat
    requires n <= |moves|
  {
    var first := FirstShutdown(moves, n);
    if first.Some? && first.value < |moves| && moves[first.value].act.DoShutdown? then moves[first.value].act.now else MAX64
  }

  ghost predicate ShutTracked(run: seq<System>, moves: seq<Move>, n: nat)
    requires Covers(run, moves, n)
  {
    var s := run[n].a.snd;
    && s.shutdown == FirstShutdown(moves, n).Some? && s.shutdownTries == Tries(run, moves, n)
    && s.shutdownStart == ShutdownTime(moves, n)
    && (s.shutdown ==> FirstShutdown(moves, n).value < n && s.shutdownStart <= run[n].a.clock)
  }

  /** During a shutdown, and only then, what is sent has the shutdown number. */
  lemma ChosenTries(s: Sender, diff: UserMessage, t: TickInput)
    requires s.sent != [] && AddSentStateAsserts(s) && NumbersLeft(s) && (s.Back().num == MAX64 ==> s.shutdown)
    ensures var (s2, inst) := SendChosen(s, diff, t);
            && s2.shutdown == s.shutdown && s2.shutdownStart == s.shutdownStart
            && s2.shutdownTries == s.shutdownTries + if inst.Some? && s.shutdown then 1 else 0
  {
    hide AddSentState;
    Added(s, Stamped(t.now, EmptyAckNum(s), s.current));
    Added(s, Stamped(t.now, DataNum(s), s.current));
  }

  lemma TickTries(s: Sender, l: Link, clock: nat, t: TickInput)
    requires SenderOk(s, l, clock) && clock <= t.now <= MAX64 && NumbersLeft(s) && TickAsserts(s, t)
    ensures var (s2, inst) := Tick(s, t);
            && s2.shutdown == s.shutdown && s2.shutdownStart == s.shutdownStart
            && s2.shutdownTries == s.shutdownTries + if inst.Some? && s.shutdown then 1 else 0
  {
    hide NumsOk, TimesOk, Denotes, CalculateTimers, ChooseBase, SendChosen, AddSentStateAsserts, TimersAsserts, DiffAsserts, TickSends;
    TimersKeep(s, l, clock, t.now, t.timeout, t.interval);
    TimersShut(s, t.now, t.timeout, t.interval);
    var s1 := CalculateTimers(s, t.now, t.timeout, t.interval);
    if TickSends(s, t) {
      var (s2, diff) := ChooseBase(s1);
      ChosenSame(s1);
      BackShut(s1, l.(sbase := l.sbase + s.Front().state), t.now);
      ChosenTries(s2, diff, t);
    }
  }

  lemma TimersShut(s: Sender, now: nat, timeout: nat, interval: nat)
    requires s.sent != []
    ensures var s1 := CalculateTimers(s, now, timeout, interval);
            && s1.shutdown == s.shutdown && s1.shutdownStart == s.shutdownStart && s1.shutdownTries == s.shutdownTries
            && s1.sent != [] && s1.assumed < |s1.sent| && s1.Back().num == s.Back().num
  {
    hide Cut;
  }

  lemma BackShut(s: Sender, l: Link, clock: nat)
    requires SenderOk(s, l, clock)
    ensures s.Back().num == MAX64 ==> s.shutdown
  {
    hide NumsOk, TimesOk;
  }

  lemma ShutStep(run: seq<System>, moves: seq<Move>, n: nat)
    requires Covers(run, moves, n + 1) && ShutTracked(run, moves, n) && Inv(run[n]) && NumbersFree(run[n])
    requires Next(run[n], moves[n], run[n + 1])
    ensures ShutTracked(run, moves, n + 1)
  {
    hide NumsOk, TimesOk, Denotes, HistoryOk, NetOk, AcksHeld, StrictlySorted, Recv, Tick, CalculateTimers, Has, RecvAsserts, TickAsserts,
      TimersAsserts, Diff, Cut, SenderOk, ReceiverOk;
    var s, m := run[n], moves[n];
    InvNonempty(s);
    NextInv(s, m, run[n + 1]);
    ClockGrows(s, m, run[n + 1]);
    if m.AtA? {
      match m.act
      case Wait(now, timeout, interval) => TimersShut(s.a.snd, now, timeout, interval);
      case DoTick(t) =>
        TickAllowed(s, t);
        TickTries(s.a.snd, s.ab, s.a.clock, t);
      case DoRecv(inst, now) => Received(s, inst, now);
      case _ =>
    }
  }

  lemma {:induction false} RunShut(run: seq<System>, moves: seq<Move>, n: nat)
    requires Sound(run, moves) && n <= |moves|
    ensures Covers(run, moves, n) && ShutTracked(run, moves, n)
  {
    hide Inv, Next, NumbersFree, ShutTracked, Start;
    if n == 0 {
      StartShut(run, moves);
    } else {
      RunShut(run, moves, n - 1);
      RunInv(run, moves, n - 1);
      ShutStep(run, moves, n - 1);
    }
  }

  lemma StartShut(run: seq<System>, moves: seq<Move>)
    requires Covers(run, moves, 0) && Start(run[0])
    ensures ShutTracked(run, moves, 0)
  {
  }

  /** A shutdown is given up, in every run, exactly when it has begun and 16 instructions have gone out since, or 10 s have
      passed. */
  lemma GivesUpExactly(run: seq<System>, moves: seq<Move>, n: nat, now: nat)
    requires Sound(run, moves) && n <= |moves| && run[n].a.clock <= now <= MAX64
    ensures Covers(run, moves, n)
    ensures ShutdownTimedOut(run[n].a.snd, now)
       <==> FirstShutdown(moves, n).Some? && (16 <= Tries(run, moves, n) || ShutdownTime(moves, n) + 10000 <= now)
  {
    hide Sound, FirstShutdown, Tries, ShutdownTime;
    RunShut(run, moves, n);
  }
}
