/** When a side sends, told by what has happened to it and not by its timers. Everything is said of side `a`; both
    sides run the same code. */
module Schedules {
  import opened Options
  import opened UserStreams
  import opened Protocol
  import opened Synchronization
  import opened Runs
  import opened Guarantees
  import opened Heartbeats

  /** How long new data are held back, so that more can join them. */
  const SEND_MINDELAY := 8

  // ------------------------------------------------------------- one calculation

  /** The current state is newer than the last one sent. */
  predicate Unsent(s: Sender) {
    s.sent != [] && s.current != s.Back().state
  }

  /** Something that was sent has not been acknowledged. */
  predicate Outstanding(s: Sender) {
    s.sent != [] && s.Back().state != s.Front().state
  }

  /** The oldest state that may be on its way was sent too long ago. */
  predicate Stale(s: Sender, now: nat, timeout: nat) {
    |s.sent| > 1 && s.sent[1].timestamp + timeout + ACK_DELAY <= now
  }

  /** Times stay clear of the end of the 64-bit range. */
  predicate Room(now: nat, timeout: nat, interval: nat) {
    now + ACTIVE_RETRY_TIMEOUT + timeout + interval < MAX64
  }

  function Min(a: nat, b: nat): nat {
    if a < b then a else b
  }

  lemma Behind(s: Sender, l: Link, clock: nat)
    requires SenderOk(s, l, clock)
    ensures s.Front().state <= s.Back().state <= s.current
    ensures s.current == s.Front().state ==> s.Back().state == s.current
  {
    hide NumsOk, TimesOk;
    BasePrefix(l.sbase, s.Back().state, s.current);
    BasePrefix(l.sbase, s.Front().state, s.Back().state);
  }

  lemma CutSame(x: Stream, y: Stream, prefix: Stream)
    requires prefix <= x && prefix <= y
    ensures Cut(x, prefix) == Cut(y, prefix) <==> x == y
  {
    assert x == prefix + x[|prefix|..] && y == prefix + y[|prefix|..];
  }

  /** The benefit of the doubt. */
  lemma Assumed(s: Sender, clock: nat, now: nat, timeout: nat)
    requires SenderLists(s, clock) && clock <= now <= MAX64
    ensures UpdateAssumed(s, now, timeout).assumed == if |s.sent| == 1 || Stale(s, now, timeout) then 0 else |s.sent| - 1
  {
    hide NumsOk;
    AssumedIsFrontOrBack(s, clock, now, timeout);
    if |s.sent| > 1 {
      assert Recent(s.sent[1], now, timeout) <==> !Stale(s, now, timeout);
    }
  }

  /** When to send next, by the clock that new data started. */
  function NextSend(s: Sender, now: nat, timeout: nat, interval: nat, started: nat): nat
    requires s.sent != []
  {
    if Unsent(s) then Max(started + s.minDelay, s.Back().timestamp + interval)
    else if Outstanding(s) && now < s.lastHeard + ACTIVE_RETRY_TIMEOUT then
      s.Back().timestamp + if Stale(s, now, timeout) then interval else timeout + ACK_DELAY
    else MAX64
  }

  lemma Rebased(s: Sender, l: Link, clock: nat, now: nat, timeout: nat)
    requires SenderOk(s, l, clock) && clock <= now <= MAX64
    ensures var r := Rationalize(UpdateAssumed(s, now, timeout));
            && |r.sent| == |s.sent| && r.assumed < |r.sent| && r.Back().timestamp == s.Back().timestamp
            && r == s.(assumed := r.assumed, current := r.current, sent := r.sent)
            && (r.current != r.Back().state <==> Unsent(s))
            && (!Unsent(s) ==> (r.current != r.Front().state <==> Outstanding(s))
                               && (r.current != r.sent[r.assumed].state <==> Outstanding(s) && Stale(s, now, timeout)))
  {
    hide NumsOk, TimesOk, Denotes, HistoryOk, LastRecent, Stale, Cut;
    FrontIsPrefix(s, l, clock);
    Assumed(s, clock, now, timeout);
    var known := s.Front().state;
    CutSame(s.current, s.Back().state, known);
    CutSame(s.current, known, known);
  }

  lemma Calculated(s: Sender, l: Link, clock: nat, now: nat, timeout: nat, interval: nat)
    requires SenderOk(s, l, clock) && clock <= now && Room(now, timeout, interval) && s.lastHeard <= now
    requires (s.delayClock == MAX64 || (Unsent(s) && s.delayClock <= now)) && s.minDelay == SEND_MINDELAY
    ensures var s1 := CalculateTimers(s, now, timeout, interval);
            && s1.delayClock == (if Unsent(s) && s.delayClock == MAX64 then now else s.delayClock)
            && s1.nextSend == NextSend(s, now, timeout, interval, s1.delayClock)
            && s1.nextAck == (if s.shutdown || s.ackNum == MAX64 then s.Back().timestamp + interval
                              else if s.pendingAck then Min(s.nextAck, now + ACK_DELAY) else s.nextAck)
  {
    hide NumsOk, Denotes, HistoryOk, Stale, Rationalize, UpdateAssumed, Wrap;
    Rebased(s, l, clock, now, timeout);
    var back := s.Back().timestamp;
    assert back <= now;
    NoWrap(now + ACK_DELAY);
    NoWrap(s.lastHeard + ACTIVE_RETRY_TIMEOUT);
    NoWrap(back + interval);
    NoWrap(back + timeout + ACK_DELAY);
    NoWrap((if s.delayClock == MAX64 then now else s.delayClock) + s.minDelay);
  }

  lemma NoWrap(x: nat)
    ensures x <= MAX64 ==> Wrap(x) == x
  {
  }

  // ------------------------------------------------------------- one tick

  /** There is something to send whenever it is time to send data. */
  lemma SomethingToSend(s: Sender, l: Link, clock: nat, t: TickInput)
    requires SenderOk(s, l, clock) && clock <= t.now && Room(t.now, t.timeout, t.interval) && s.lastHeard <= t.now
    requires (s.delayClock == MAX64 || (Unsent(s) && s.delayClock <= t.now)) && s.minDelay == SEND_MINDELAY
    ensures var s1 := CalculateTimers(s, t.now, t.timeout, t.interval);
            s1.sent != [] && s1.assumed < |s1.sent| && (s1.nextSend <= t.now ==> ChooseBase(s1).1 != [])
  {
    hide NumsOk, TimesOk, Denotes, HistoryOk, CalculateTimers, Rationalize, UpdateAssumed, ChooseBase, Stale;
    Calculated(s, l, clock, t.now, t.timeout, t.interval);
    Rebased(s, l, clock, t.now, t.timeout);
    SetLists(s, t.now, t.timeout, t.interval);
    TimersKeep(s, l, clock, t.now, t.timeout, t.interval);
    EmptyChoice(CalculateTimers(s, t.now, t.timeout, t.interval), l.(sbase := l.sbase + s.Front().state), t.now);
    if |s.sent| > 1 && !Stale(s, t.now, t.timeout) { BackFresh(s, clock, t.now, t.timeout); }
  }

  /** An empty diff means that the receiver is thought to have everything. */
  lemma EmptyChoice(s: Sender, l: Link, clock: nat)
    requires SenderOk(s, l, clock) && s.assumed < |s.sent| && (s.assumed == 0 || s.assumed == |s.sent| - 1)
    ensures ChooseBase(s).1 == [] ==> !Unsent(s) && (s.current == s.sent[s.assumed].state || s.current == s.Front().state)
  {
    hide NumsOk, TimesOk, Denotes, HistoryOk, Diff, PrefersResend;
    Behind(s, l, clock);
    DiffOfDenoted(s, l, clock, s.assumed);
    DiffOfDenoted(s, l, clock, 0);
    DiffApply(s.current, s.sent[s.assumed].state);
    DiffApply(s.current, s.Front().state);
  }

  lemma BackFresh(s: Sender, clock: nat, now: nat, timeout: nat)
    requires SenderLists(s, clock) && |s.sent| > 1 && !Stale(s, now, timeout)
    ensures now < s.Back().timestamp + timeout + ACK_DELAY
  {
    hide NumsOk;
  }

  lemma SetLists(s: Sender, now: nat, timeout: nat, interval: nat)
    requires s.sent != []
    ensures var s1, r := CalculateTimers(s, now, timeout, interval), Rationalize(UpdateAssumed(s, now, timeout));
            && s1 == r.(nextAck := s1.nextAck, nextSend := s1.nextSend, delayClock := s1.delayClock)
  {
  }

  /** A tick sends if and only if one of the two times has come, and after a silent one only the timers have been set. */
  lemma Ticked(s: Sender, l: Link, clock: nat, t: TickInput)
    requires SenderOk(s, l, clock) && clock <= t.now && Room(t.now, t.timeout, t.interval) && s.lastHeard <= t.now
    requires (s.delayClock == MAX64 || (Unsent(s) && s.delayClock <= t.now)) && s.minDelay == SEND_MINDELAY
    requires TickAsserts(s, t)
    ensures var s1, (s2, inst) := CalculateTimers(s, t.now, t.timeout, t.interval), Tick(s, t);
            && (inst.Some? <==> t.hasAddr && (s1.nextAck <= t.now || s1.nextSend <= t.now))
            && (if inst.Some? then AfterSending(s, s2, inst.value, t.now) else s2 == s1)
  {
    hide NumsOk, TimesOk, Denotes, HistoryOk, CalculateTimers, ChooseBase, SendChosen, AddSentStateAsserts, Room, TimersAsserts,
      DiffAsserts, NextSend;
    SomethingToSend(s, l, clock, t);
    var s1 := CalculateTimers(s, t.now, t.timeout, t.interval);
    SetKeepsRest(s, t.now, t.timeout, t.interval);
    if TickSends(s, t) {
      var (s2, diff) := ChooseBase(s1);
      ChosenSame(s1);
      assert t.now <= MAX64 by { RoomRange(t.now, t.timeout, t.interval); }
      TimersKeep(s, l, clock, t.now, t.timeout, t.interval);
      if s1.Back().num == MAX64 { ShutIsAll(s1, l.(sbase := l.sbase + s.Front().state), t.now); }
      Chosen(s2, diff, t);
    }
  }

  /** What sending does to the timers and to the newest sent state. */
  ghost predicate AfterSending(s: Sender, s2: Sender, inst: Inst, now: nat) {
    && s2.sent != [] && !Unsent(s2) && s2.Back().timestamp == now && inst.ackNum == s.ackNum
    && s2.delayClock == MAX64 && s2.nextAck == Wrap(now + ACK_INTERVAL) && !s2.pendingAck
    && s2.lastHeard == s.lastHeard && s2.minDelay == s.minDelay && s2.shutdown == s.shutdown && s2.ackNum == s.ackNum
  }

  lemma SetKeepsRest(s: Sender, now: nat, timeout: nat, interval: nat)
    requires s.sent != []
    ensures var s1 := CalculateTimers(s, now, timeout, interval);
            && s1.lastHeard == s.lastHeard && s1.minDelay == s.minDelay && s1.shutdown == s.shutdown && s1.ackNum == s.ackNum
            && s1.pendingAck == s.pendingAck
  {
    hide Cut;
  }

  lemma RoomRange(now: nat, timeout: nat, interval: nat)
    requires Room(now, timeout, interval)
    ensures now + ACK_INTERVAL <= MAX64
  {
  }

  /** The shutdown number stands for everything. */
  lemma ShutIsAll(s: Sender, l: Link, clock: nat)
    requires SenderOk(s, l, clock) && s.Back().num == MAX64
    ensures !Unsent(s)
  {
    hide NumsOk, TimesOk;
    assert l.sbase + s.Back().state == l.sbase + s.current;
    assert s.current == (l.sbase + s.current)[|l.sbase|..];
    assert s.Back().state == (l.sbase + s.Back().state)[|l.sbase|..];
  }

  lemma ChosenSame(s: Sender)
    requires s.sent != [] && s.assumed < |s.sent|
    ensures ChooseBase(s).0 == s.(assumed := ChooseBase(s).0.assumed)
  {
  }

  lemma Chosen(s: Sender, diff: UserMessage, t: TickInput)
    requires s.sent != [] && AddSentStateAsserts(s) && (s.Back().num == MAX64 ==> !Unsent(s))
    ensures var (s2, inst) := SendChosen(s, diff, t);
            && (inst.Some? <==> diff != [] || s.nextAck <= t.now)
            && (inst.Some? ==> AfterSending(s, s2, inst.value, t.now))
  {
    hide AddSentState;
    Added(s, Stamped(t.now, EmptyAckNum(s), s.current));
    Added(s, Stamped(t.now, DataNum(s), s.current));
  }

  lemma Added(s: Sender, e: Stamped)
    ensures var s1 := AddSentState(s, e);
            s1 == s.(sent := s1.sent, assumed := s1.assumed) && s1.sent != [] && s1.Back() == e
  {
  }

  // ------------------------------------------------------------- what has happened

  const MAX_RTO := 1000

  /** The limits that the source puts on the retransmission timeout and on the send interval. */
  predicate Steady(act: Action) {
    match act
    case Wait(_, timeout, interval) => timeout <= MAX_RTO && interval <= SEND_INTERVAL_MAX
    case DoTick(t) => t.timeout <= MAX_RTO && t.interval <= SEND_INTERVAL_MAX
    case _ => true
  }

  /** The side looks at its clock. */
  predicate Looks(m: Move) {
    m.AtA? && (m.act.Wait? || m.act.DoTick?)
  }

  function TimeOf(act: Action): nat {
    match act
    case Wait(now, _, _) => now
    case DoTick(t) => t.now
    case DoRecv(_, now) => now
    case _ => 0
  }

  ghost predicate Sends(s: System, m: Move) {
    m.AtA? && m.act.DoTick? && s.a.snd.sent != [] && Tick(s.a.snd, m.act.t).1.Some?
  }

  /** An instruction arrives that makes the newest received state. */
  ghost predicate Renews(s: System, m: Move, s1: System) {
    && m.AtA? && m.act.DoRecv?
    && !Has(s.a.rcv.received, m.act.inst.newNum)
    && s1.a.rcv.received != [] && s1.a.rcv.Newest().num == m.act.inst.newNum
  }

  /** Lengths fit. */
  predicate Covers(run: seq<System>, moves: seq<Move>, n: nat) {
    |run| == |moves| + 1 && n <= |moves|
  }

  /** Nothing is sent from move `i` to before move `n`. */
  ghost predicate Quiet(run: seq<System>, moves: seq<Move>, i: nat, n: nat)
    requires Covers(run, moves, n)
  {
    forall j | i <= j < n :: !Sends(run[j], moves[j])
  }

  /** The first look since the last sending that found new data. */
  ghost function FirstNotice(run: seq<System>, moves: seq<Move>, n: nat): Option<nat>
    requires Covers(run, moves, n)
  {
    if n == 0 || Sends(run[n - 1], moves[n - 1]) then None
    else if FirstNotice(run, moves, n - 1).Some? then FirstNotice(run, moves, n - 1)
    else if Looks(moves[n - 1]) && Unsent(run[n - 1].a.snd) then Some(n - 1)
    else None
  }

  /** Since the last sending, data have arrived that made the newest state. */
  ghost predicate Wanted(run: seq<System>, moves: seq<Move>, n: nat)
    requires Covers(run, moves, n)
  {
    n > 0 && !Sends(run[n - 1], moves[n - 1])
    && (Wanted(run, moves, n - 1) || (Renews(run[n - 1], moves[n - 1], run[n]) && moves[n - 1].act.inst.diff != []))
  }

  /** The first look since then. */
  ghost function FirstAsk(run: seq<System>, moves: seq<Move>, n: nat): Option<nat>
    requires Covers(run, moves, n)
  {
    if n == 0 || Sends(run[n - 1], moves[n - 1]) then None
    else if FirstAsk(run, moves, n - 1).Some? then FirstAsk(run, moves, n - 1)
    else if Looks(moves[n - 1]) && Wanted(run, moves, n - 1) then Some(n - 1)
    else None
  }

  /** The last time that the newest state changed. */
  ghost function LastRenewal(run: seq<System>, moves: seq<Move>, n: nat): Option<nat>
    requires Covers(run, moves, n)
  {
    if n == 0 then None
    else if Renews(run[n - 1], moves[n - 1], run[n]) then Some(n - 1)
    else LastRenewal(run, moves, n - 1)
  }

  /** A shutdown has begun on one side or the other. */
  predicate Closing(e: Endpoint) {
    e.snd.shutdown || (e.rcv.received != [] && e.rcv.Newest().num == MAX64)
  }

  // ------------------------------------------------------------- the timers follow

  ghost function TimeAt(moves: seq<Move>, i: Option<nat>, default_: nat): nat {
    if i.Some? && i.value < |moves| then TimeOf(moves[i.value].act) else default_
  }

  /** When an acknowledgment is due, as far as that is known without looking again. */
  ghost function AckTime(run: seq<System>, moves: seq<Move>, n: nat): nat
    requires Covers(run, moves, n)
  {
    var s := run[n].a.snd;
    var back := if s.sent == [] then 0 else s.Back().timestamp;
    if Quiet(run, moves, 0, n) then back
    else Min(back + ACK_INTERVAL, TimeAt(moves, FirstAsk(run, moves, n), back + ACK_INTERVAL) + ACK_DELAY)
  }

  ghost predicate NoticeTracked(run: seq<System>, moves: seq<Move>, n: nat)
    requires Covers(run, moves, n)
  {
    var s, i := run[n].a.snd, FirstNotice(run, moves, n);
    && s.delayClock == TimeAt(moves, i, MAX64)
    && (i.Some? ==> i.value < n && Unsent(s) && s.delayClock <= run[n].a.clock)
  }

  ghost predicate HeardTracked(run: seq<System>, moves: seq<Move>, n: nat)
    requires Covers(run, moves, n)
  {
    var s := run[n].a.snd;
    && s.minDelay == SEND_MINDELAY && s.lastHeard == TimeAt(moves, LastRenewal(run, moves, n), 0) <= run[n].a.clock
  }

  ghost predicate AckTracked(run: seq<System>, moves: seq<Move>, n: nat)
    requires Covers(run, moves, n)
  {
    var s := run[n].a.snd;
    && s.pendingAck == Wanted(run, moves, n)
    && (FirstAsk(run, moves, n).Some? ==> FirstAsk(run, moves, n).value < n)
    && TimeAt(moves, FirstAsk(run, moves, n), 0) <= run[n].a.clock
    && (!Closing(run[n].a) ==> s.nextAck == AckTime(run, moves, n))
  }

  ghost predicate Tracked(run: seq<System>, moves: seq<Move>, n: nat)
    requires Covers(run, moves, n)
  {
    NoticeTracked(run, moves, n) && HeardTracked(run, moves, n) && AckTracked(run, moves, n)
  }

  // ------------------------------------------------------------- one step

  lemma NewestHas(states: seq<Stamped>)
    requires states != []
    ensures Has(states, states[|states| - 1].num)
  {
  }

  lemma Kept(states: seq<Stamped>, num: nat, k: nat)
    requires k < |states| && KeepFrom(states, num) == states[k..]
    ensures var kept := KeepFrom(states, num);
            kept != [] && kept[|kept| - 1] == states[|states| - 1] && (forall x :: Has(kept, x) ==> Has(states, x))
  {
    hide KeepFrom;
    assert forall i | 0 <= i < |states| - k :: states[k..][i] == states[k + i];
  }

  lemma Accepted(e: Endpoint, kept: seq<Stamped>, entry: Stamped, inst: Inst, now: nat)
    requires kept != [] && !Has(kept, entry.num)
    ensures var e1 := Accept(e, kept, entry, inst, now);
            && e1.rcv.received != []
            && (if FirstAbove(kept, entry.num) == |kept|
                then e1.rcv.Newest() == entry
                     && e1.snd == e.snd.(ackNum := entry.num, lastHeard := now, pendingAck := e.snd.pendingAck || inst.diff != [])
                else e1.snd == e.snd && e1.rcv.Newest() == kept[|kept| - 1])
  {
    hide Wrap, Has, InsertSorted, FirstAbove;
    InsertedLast(kept, entry);
  }

  /** What storing leaves at the end of the list and in the sender. */
  ghost predicate StoredOk(e: Endpoint, e1: Endpoint, last: nat, inst: Inst, now: nat) {
    && e1.rcv.received != []
    && (if e1.rcv.Newest().num == inst.newNum
        then e1.snd == e.snd.(ackNum := inst.newNum, lastHeard := now, pendingAck := e.snd.pendingAck || inst.diff != [])
             && last < inst.newNum
        else e1.snd == e.snd && e1.rcv.Newest().num == last)
  }

  lemma Last(kept: seq<Stamped>, num: nat)
    requires kept != [] && !Has(kept, num)
    ensures kept[|kept| - 1].num != num && (FirstAbove(kept, num) == |kept| ==> kept[|kept| - 1].num < num)
  {
    hide FirstAbove;
    NewestHas(kept);
  }

  /** A state that is stored is the newest, or another one still is. */
  lemma Stored(e: Endpoint, kept: seq<Stamped>, inst: Inst, now: nat)
    requires kept != [] && !Has(kept, inst.newNum)
    ensures StoredOk(e, Store(e, kept, inst, now), kept[|kept| - 1].num, inst, now)
  {
    hide Expand, Has, Accept, FirstAbove, QueueFull, IndexOf;
    Last(kept, inst.newNum);
    var k := IndexOf(kept, inst.oldNum);
    if !QueueFull(kept, e.rcv.quench, now) && k != |kept| {
      Accepted(e, kept, Stamped(now, inst.newNum, kept[k].state + Expand(inst.diff)), inst, now);
    }
  }

  lemma InsertedLast(kept: seq<Stamped>, e: Stamped)
    requires kept != []
    ensures var r := InsertSorted(kept, e);
            r != [] && r[|r| - 1] == if FirstAbove(kept, e.num) == |kept| then e else kept[|kept| - 1]
  {
    hide FirstAbove;
  }

  /** What an instruction does to the sender's side. */
  lemma Received(s: System, inst: Inst, now: nat)
    requires Inv(s) && inst in s.ba.net
    ensures s.a.snd.sent != [] && s.a.rcv.received != []
    ensures var s1, m := StepA(s, DoRecv(inst, now)), AtA(DoRecv(inst, now));
            && s1.a.snd.sent != [] && s1.a.snd.Back() == s.a.snd.Back() && s1.a.rcv.received != []
            && s1.a.snd == s.a.snd.(sent := s1.a.snd.sent, ackNum := s1.a.rcv.Newest().num,
                                    lastHeard := if Renews(s, m, s1) then now else s.a.snd.lastHeard,
                                    pendingAck := s.a.snd.pendingAck || (Renews(s, m, s1) && inst.diff != []))
            && (if Renews(s, m, s1) then s.a.rcv.Newest().num < inst.newNum else s1.a.rcv.Newest().num == s.a.rcv.Newest().num)
  {
    hide NumsOk, TimesOk, Denotes, HistoryOk, NetOk, AcksHeld, Store, KeepFrom, ProcessAck, Has, StrictlySorted, FirstAbove;
    InvNonempty(s);
    AckKeeps(s.a.snd, s.a.clock, s.b.rcv, s.b.snd.ackNum, s.ab, s.ba.net, inst);
    assert inst.version == PROTOCOL_VERSION && inst.throwawayNum <= s.b.snd.Front().num by { InstAt(s.ba, s.b.snd.Front().num, inst); }
    NewestHas(s.a.rcv.received);
    if Applicable(s.a.rcv.received, inst) {
      var k := ThrowawayKeeps(s.a.rcv.received, inst.throwawayNum, s.b.snd.Front().num, s.ab.net);
      Kept(s.a.rcv.received, inst.throwawayNum, k);
      var kept := KeepFrom(s.a.rcv.received, inst.throwawayNum);
      var e1 := s.a.(snd := s.a.snd.(sent := ProcessAck(s.a.snd.sent, inst.ackNum)));
      Stored(e1, kept, inst, now);
    }
  }

  lemma InstAt(l: Link, front: nat, inst: Inst)
    requires NetOk(l.net, l.hist, front) && inst in l.net
    ensures inst.version == PROTOCOL_VERSION && inst.throwawayNum <= front
  {
  }

  /** A look at the clock that sends nothing. */
  ghost predicate LookStep(s: Sender, s1: Sender, now: nat) {
    && s.sent != [] && s1.sent != [] && s1.Back().timestamp == s.Back().timestamp && Unsent(s1) == Unsent(s)
    && s1.delayClock == (if Unsent(s) && s.delayClock == MAX64 then now else s.delayClock)
    && (!s.shutdown && s.ackNum != MAX64 ==> s1.nextAck == if s.pendingAck then Min(s.nextAck, now + ACK_DELAY) else s.nextAck)
    && s1.lastHeard == s.lastHeard && s1.minDelay == s.minDelay && s1.shutdown == s.shutdown && s1.ackNum == s.ackNum
    && s1.pendingAck == s.pendingAck
  }

  lemma Looked(s: Sender, l: Link, clock: nat, now: nat, timeout: nat, interval: nat)
    requires SenderOk(s, l, clock) && clock <= now && Room(now, timeout, interval) && s.lastHeard <= now
    requires (s.delayClock == MAX64 || (Unsent(s) && s.delayClock <= now)) && s.minDelay == SEND_MINDELAY
    ensures LookStep(s, CalculateTimers(s, now, timeout, interval), now)
  {
    hide NumsOk, TimesOk, Denotes, HistoryOk, CalculateTimers, Rationalize, UpdateAssumed, Stale, NextSend;
    Calculated(s, l, clock, now, timeout, interval);
    Rebased(s, l, clock, now, timeout);
    SetLists(s, now, timeout, interval);
    SetKeepsRest(s, now, timeout, interval);
  }

  /** Clocks have room for everything that is added to them. */
  predicate Early(clock: nat) {
    clock + ACTIVE_RETRY_TIMEOUT + QUENCH_TIME < MAX64
  }

  /** One more move that sends nothing. */
  lemma OneMore(run: seq<System>, moves: seq<Move>, n: nat)
    requires Covers(run, moves, n + 1) && !Sends(run[n], moves[n])
    ensures Quiet(run, moves, 0, n + 1) <==> Quiet(run, moves, 0, n)
    ensures var i, i1 := FirstNotice(run, moves, n), FirstNotice(run, moves, n + 1);
            i1 == if i.Some? then i else if Looks(moves[n]) && Unsent(run[n].a.snd) then Some(n) else None
    ensures var i, i1 := FirstAsk(run, moves, n), FirstAsk(run, moves, n + 1);
            i1 == if i.Some? then i else if Looks(moves[n]) && Wanted(run, moves, n) then Some(n) else None
    ensures var renews := Renews(run[n], moves[n], run[n + 1]);
            && LastRenewal(run, moves, n + 1) == (if renews then Some(n) else LastRenewal(run, moves, n))
            && Wanted(run, moves, n + 1) == (Wanted(run, moves, n) || (renews && moves[n].act.inst.diff != []))
  {
    hide Sends, Renews, Unsent, Looks;
  }

  lemma TrackLook(run: seq<System>, moves: seq<Move>, n: nat)
    requires Covers(run, moves, n + 1) && Tracked(run, moves, n) && Early(run[n + 1].a.clock) && Inv(run[n])
    requires Looks(moves[n]) && !Sends(run[n], moves[n]) && run[n].a.clock <= TimeOf(moves[n].act) == run[n + 1].a.clock
    requires LookStep(run[n].a.snd, run[n + 1].a.snd, run[n + 1].a.clock) && run[n + 1].a.rcv == run[n].a.rcv
    ensures Tracked(run, moves, n + 1)
  {
    hide NumsOk, Denotes, HistoryOk, NetOk, AcksHeld, StrictlySorted, Sends, Has, FirstNotice, FirstAsk, Wanted, LastRenewal, Quiet;
    OneMore(run, moves, n);
    assert run[n].a.snd.Back().timestamp <= run[n].a.clock;
  }

  lemma TrackSend(run: seq<System>, moves: seq<Move>, n: nat, inst: Inst)
    requires Covers(run, moves, n + 1) && Tracked(run, moves, n) && Early(run[n + 1].a.clock)
    requires Looks(moves[n]) && Sends(run[n], moves[n]) && run[n].a.clock <= TimeOf(moves[n].act) == run[n + 1].a.clock
    requires AfterSending(run[n].a.snd, run[n + 1].a.snd, inst, run[n + 1].a.clock) && run[n + 1].a.rcv == run[n].a.rcv
    ensures Tracked(run, moves, n + 1)
  {
    hide Sends, Has, Wrap;
    NoWrap(run[n + 1].a.clock + ACK_INTERVAL);
    assert !Quiet(run, moves, 0, n + 1);
  }

  lemma TrackRecv(run: seq<System>, moves: seq<Move>, n: nat)
    requires Covers(run, moves, n + 1) && Tracked(run, moves, n) && Inv(run[n])
    requires moves[n].AtA? && moves[n].act.DoRecv? && Next(run[n], moves[n], run[n + 1]) && Asserts(run[n], moves[n])
    ensures Tracked(run, moves, n + 1)
  {
    hide NumsOk, TimesOk, Denotes, HistoryOk, NetOk, AcksHeld, StrictlySorted, Recv, Has, RecvAsserts, FirstNotice, FirstAsk, Wanted,
      LastRenewal, Quiet;
    OneMore(run, moves, n);
    var inst, now := moves[n].act.inst, moves[n].act.now;
    Received(run[n], inst, now);
    assert run[n + 1] == StepA(run[n], DoRecv(inst, now)) && run[n + 1].a.clock == now;
    ShutStays(run[n], inst);
  }

  /** There is no number above that of the shutdown. */
  lemma ShutStays(s: System, inst: Inst)
    requires Inv(s) && inst in s.ba.net
    ensures inst.newNum <= MAX64
  {
    hide TimesOk, Denotes, AcksHeld, StrictlySorted;
    assert InstOk(inst, s.ba.hist, s.b.snd.Front().num);
  }

  /** Anything else. */
  ghost predicate Aside(e: Endpoint, e1: Endpoint) {
    && e1.snd.sent == e.snd.sent && e.snd.current <= e1.snd.current && e.clock <= e1.clock && e1.snd.nextAck == e.snd.nextAck
    && e1.snd.delayClock == e.snd.delayClock && e1.snd.pendingAck == e.snd.pendingAck && e1.snd.lastHeard == e.snd.lastHeard
    && e1.snd.minDelay == e.snd.minDelay && (Closing(e) ==> Closing(e1))
  }

  lemma TrackAside(run: seq<System>, moves: seq<Move>, n: nat)
    requires Covers(run, moves, n + 1) && Tracked(run, moves, n) && Inv(run[n]) && Aside(run[n].a, run[n + 1].a)
    requires !Looks(moves[n]) && !(moves[n].AtA? && moves[n].act.DoRecv?)
    ensures Tracked(run, moves, n + 1)
  {
    hide NumsOk, TimesOk, Denotes, HistoryOk, NetOk, AcksHeld, StrictlySorted, Has, Closing, FirstNotice, FirstAsk, Wanted,
      LastRenewal, Quiet;
    OneMore(run, moves, n);
    Behind(run[n].a.snd, run[n].ab, run[n].a.clock);
  }

  lemma StepAside(s: System, m: Move, s1: System)
    requires Asserts(s, m) && Enabled(s, m) && s1 == Step(s, m) && !Looks(m) && !(m.AtA? && m.act.DoRecv?)
    ensures Aside(s.a, s1.a)
  {
    hide CalculateTimers, Tick, Recv, RecvAsserts, TickAsserts, TimersAsserts;
  }

  lemma TrackStep(run: seq<System>, moves: seq<Move>, n: nat)
    requires Covers(run, moves, n + 1) && Tracked(run, moves, n) && Inv(run[n]) && NumbersFree(run[n])
    requires Next(run[n], moves[n], run[n + 1]) && Steady(moves[n].act) && Early(run[n + 1].a.clock)
    ensures Tracked(run, moves, n + 1)
  {
    hide NumsOk, TimesOk, Denotes, HistoryOk, NetOk, AcksHeld, StrictlySorted, AssertsA, Tick, CalculateTimers, AckTracked, Recv,
      TickAsserts, LookStep;
    var s, m := run[n], moves[n];
    NextInv(s, m, run[n + 1]);
    if !Looks(m) && !(m.AtA? && m.act.DoRecv?) {
      StepAside(s, m, run[n + 1]);
      TrackAside(run, moves, n);
    } else if m.act.DoRecv? {
      TrackRecv(run, moves, n);
    } else if m.act.Wait? {
      Looked(s.a.snd, s.ab, s.a.clock, m.act.now, m.act.timeout, m.act.interval);
      TrackLook(run, moves, n);
    } else {
      InvNonempty(s);
      TickAllowed(s, m.act.t);
      Ticked(s.a.snd, s.ab, s.a.clock, m.act.t);
      Looked(s.a.snd, s.ab, s.a.clock, m.act.t.now, m.act.t.timeout, m.act.t.interval);
      if Sends(s, m) {
        TrackSend(run, moves, n, Tick(s.a.snd, m.act.t).1.value);
      } else {
        TrackLook(run, moves, n);
      }
    }
  }

  lemma StartTracked(run: seq<System>, moves: seq<Move>)
    requires Covers(run, moves, 0) && Start(run[0])
    ensures Tracked(run, moves, 0)
  {
  }

  /** The clock never goes back. */
  lemma ClockGrows(s: System, m: Move, s1: System)
    requires Inv(s) && NumbersFree(s) && Next(s, m, s1)
    ensures s.a.clock <= s1.a.clock
  {
    hide Inv, AssertsA, CalculateTimers, Tick, Recv;
    NextInv(s, m, s1);
  }

  /** In every run the timers are what has happened. */
  lemma {:induction false} RunTracked(run: seq<System>, moves: seq<Move>, n: nat)
    requires Sound(run, moves) && n <= |moves| && (forall i | 0 <= i < n :: Steady(moves[i].act)) && Early(run[n].a.clock)
    ensures Covers(run, moves, n) && Tracked(run, moves, n)
  {
    hide Inv, Next, NumbersFree, Tracked, Steady, Start;
    if n == 0 {
      StartTracked(run, moves);
    } else {
      RunInv(run, moves, n - 1);
      ClockGrows(run[n - 1], moves[n - 1], run[n]);
      RunTracked(run, moves, n - 1);
      TrackStep(run, moves, n - 1);
    }
  }

  // ------------------------------------------------------------- what the history means

  /** Move `i` looked at the clock when there were new data, and nothing has been sent since. */
  ghost predicate Noticed(run: seq<System>, moves: seq<Move>, i: nat, n: nat)
    requires Covers(run, moves, n)
  {
    i < n && Looks(moves[i]) && Unsent(run[i].a.snd) && Quiet(run, moves, i, n)
  }

  /** Move `j` brought data that made the newest state, and nothing has been sent since. */
  ghost predicate Brought(run: seq<System>, moves: seq<Move>, j: nat, n: nat)
    requires Covers(run, moves, n)
  {
    j < n && Renews(run[j], moves[j], run[j + 1]) && moves[j].act.inst.diff != [] && Quiet(run, moves, j, n)
  }

  lemma {:induction false} NoticeMeans(run: seq<System>, moves: seq<Move>, n: nat)
    requires Covers(run, moves, n)
    ensures var first := FirstNotice(run, moves, n);
            && (first.Some? ==> Noticed(run, moves, first.value, n))
            && forall i: nat :: Noticed(run, moves, i, n) ==> first.Some? && first.value <= i
  {
    hide Sends, Unsent, Looks;
    if n > 0 {
      NoticeMeans(run, moves, n - 1);
      forall i: nat | Noticed(run, moves, i, n) ensures i == n - 1 || Noticed(run, moves, i, n - 1) {
      }
    }
  }

  lemma {:induction false} WantedMeans(run: seq<System>, moves: seq<Move>, n: nat)
    requires Covers(run, moves, n)
    ensures Wanted(run, moves, n) <==> exists j: nat :: Brought(run, moves, j, n)
  {
    hide Sends, Renews;
    if n > 0 {
      WantedMeans(run, moves, n - 1);
      forall j: nat | Brought(run, moves, j, n) ensures Wanted(run, moves, n) {
        if j < n - 1 { assert Brought(run, moves, j, n - 1); }
      }
      if Wanted(run, moves, n) {
        if Wanted(run, moves, n - 1) {
          var j: nat :| Brought(run, moves, j, n - 1);
          assert Brought(run, moves, j, n);
        } else {
          assert Brought(run, moves, n - 1, n);
        }
      }
    }
  }

  /** Move `i` looked at the clock after such data had been brought. */
  ghost predicate Asked(run: seq<System>, moves: seq<Move>, i: nat, n: nat)
    requires Covers(run, moves, n)
  {
    i < n && Looks(moves[i]) && Quiet(run, moves, i, n) && exists j: nat :: Brought(run, moves, j, i)
  }

  lemma {:induction false} AskMeans(run: seq<System>, moves: seq<Move>, n: nat)
    requires Covers(run, moves, n)
    ensures var first := FirstAsk(run, moves, n);
            && (first.Some? ==> Asked(run, moves, first.value, n))
            && forall i: nat :: Asked(run, moves, i, n) ==> first.Some? && first.value <= i
  {
    hide Sends, Looks, Wanted, Brought;
    if n > 0 {
      AskMeans(run, moves, n - 1);
      WantedMeans(run, moves, n - 1);
      forall i: nat | Asked(run, moves, i, n) ensures i == n - 1 || Asked(run, moves, i, n - 1) {
      }
    }
  }

  lemma {:induction false} RenewalMeans(run: seq<System>, moves: seq<Move>, n: nat)
    requires Covers(run, moves, n)
    ensures var last := LastRenewal(run, moves, n);
            && (last.Some? ==> last.value < n && Renews(run[last.value], moves[last.value], run[last.value + 1]))
            && forall j | 0 <= j < n && Renews(run[j], moves[j], run[j + 1]) :: last.Some? && j <= last.value
  {
    hide Renews;
    if n > 0 { RenewalMeans(run, moves, n - 1); }
  }

  lemma {:induction false} ClocksGrow(run: seq<System>, moves: seq<Move>, i: nat, n: nat)
    requires Sound(run, moves) && i <= n <= |moves|
    ensures run[i].a.clock <= run[n].a.clock
    decreases n - i
  {
    hide Inv, Next, NumbersFree, Start;
    if i < n {
      ClocksGrow(run, moves, i, n - 1);
      RunInv(run, moves, n - 1);
      ClockGrows(run[n - 1], moves[n - 1], run[n]);
    }
  }

  lemma TimeIsClock(s: System, m: Move, s1: System)
    requires Inv(s) && NumbersFree(s) && Next(s, m, s1) && m.AtA? && (Looks(m) || m.act.DoRecv?)
    ensures TimeOf(m.act) == s1.a.clock
  {
    hide Inv, AssertsA, CalculateTimers, Tick, Recv;
    NextInv(s, m, s1);
  }

  /** Later moves have later times. */
  lemma TimesGrow(run: seq<System>, moves: seq<Move>, i: nat, k: nat)
    requires Sound(run, moves) && i <= k < |moves| && moves[i].AtA? && moves[k].AtA?
    requires (Looks(moves[i]) || moves[i].act.DoRecv?) && (Looks(moves[k]) || moves[k].act.DoRecv?)
    ensures TimeOf(moves[i].act) <= TimeOf(moves[k].act)
  {
    hide Inv, Next, NumbersFree, Start, Looks;
    ClocksGrow(run, moves, i + 1, k + 1);
    RunInv(run, moves, i);
    RunInv(run, moves, k);
    TimeIsClock(run[i], moves[i], run[i + 1]);
    TimeIsClock(run[k], moves[k], run[k + 1]);
  }

  // ------------------------------------------------------------- when a tick sends

  /** New data, held back long enough and not too soon after the last sending. */
  ghost predicate NewsDue(run: seq<System>, moves: seq<Move>, n: nat, t: TickInput)
    requires Covers(run, moves, n)
  {
    var s := run[n].a.snd;
    && Unsent(s) && s.Back().timestamp + t.interval <= t.now
    && exists i: nat :: Noticed(run, moves, i, n) && TimeOf(moves[i].act) + SEND_MINDELAY <= t.now
  }

  /** The other side has been heard from lately. */
  ghost predicate Heard(run: seq<System>, moves: seq<Move>, n: nat, now: nat)
    requires Covers(run, moves, n)
  {
    || now < ACTIVE_RETRY_TIMEOUT
    || exists j :: 0 <= j < n && Renews(run[j], moves[j], run[j + 1]) && now < TimeOf(moves[j].act) + ACTIVE_RETRY_TIMEOUT
  }

  /** All has been sent, but has not been acknowledged for too long. */
  ghost predicate AgainDue(run: seq<System>, moves: seq<Move>, n: nat, t: TickInput)
    requires Covers(run, moves, n)
  {
    var s := run[n].a.snd;
    && !Unsent(s) && Outstanding(s) && Stale(s, t.now, t.timeout) && Heard(run, moves, n, t.now)
    && s.Back().timestamp + t.interval <= t.now
  }

  /** Nothing has been sent yet, or not for long; or data have come that were to be acknowledged by now. During a shutdown
      there is a sending at every interval. */
  ghost predicate AckDue(run: seq<System>, moves: seq<Move>, n: nat, t: TickInput)
    requires Covers(run, moves, n)
  {
    var s := run[n].a.snd;
    s.sent != [] &&
    if Closing(run[n].a) then s.Back().timestamp + t.interval <= t.now
    else
      || Quiet(run, moves, 0, n)
      || s.Back().timestamp + ACK_INTERVAL <= t.now
      || exists i: nat :: Asked(run, moves, i, n) && TimeOf(moves[i].act) + ACK_DELAY <= t.now
  }

  lemma NewsDueFirst(run: seq<System>, moves: seq<Move>, n: nat, now: nat)
    requires Sound(run, moves) && Covers(run, moves, n)
    ensures (exists i: nat :: Noticed(run, moves, i, n) && TimeOf(moves[i].act) + SEND_MINDELAY <= now)
        <==> TimeAt(moves, FirstNotice(run, moves, n), now) + SEND_MINDELAY <= now
  {
    hide Sound, FirstNotice, Quiet, Unsent;
    NoticeMeans(run, moves, n);
    var first := FirstNotice(run, moves, n);
    forall i: nat | Noticed(run, moves, i, n) ensures TimeAt(moves, first, now) <= TimeOf(moves[i].act) {
      TimesGrow(run, moves, first.value, i);
    }
  }

  lemma AskedFirst(run: seq<System>, moves: seq<Move>, n: nat, now: nat)
    requires Sound(run, moves) && Covers(run, moves, n)
    ensures (exists i: nat :: Asked(run, moves, i, n) && TimeOf(moves[i].act) + ACK_DELAY <= now)
        <==> TimeAt(moves, FirstAsk(run, moves, n), now) + ACK_DELAY <= now
  {
    hide Sound, FirstAsk, Quiet, Brought;
    AskMeans(run, moves, n);
    var first := FirstAsk(run, moves, n);
    forall i: nat | Asked(run, moves, i, n) ensures TimeAt(moves, first, now) <= TimeOf(moves[i].act) {
      TimesGrow(run, moves, first.value, i);
    }
  }

  lemma HeardLast(run: seq<System>, moves: seq<Move>, n: nat, now: nat)
    requires Sound(run, moves) && Covers(run, moves, n)
    ensures Heard(run, moves, n, now) <==> now < TimeAt(moves, LastRenewal(run, moves, n), 0) + ACTIVE_RETRY_TIMEOUT
  {
    hide Sound, LastRenewal, Has;
    RenewalMeans(run, moves, n);
    var last := LastRenewal(run, moves, n);
    forall j | 0 <= j < n && Renews(run[j], moves[j], run[j + 1]) ensures TimeOf(moves[j].act) <= TimeAt(moves, last, 0) {
      TimesGrow(run, moves, j, last.value);
    }
  }

  /** What a tick of side `a` may be in state `n` of a run. */
  ghost predicate MayTick(run: seq<System>, moves: seq<Move>, n: nat, t: TickInput) {
    && Sound(run, moves) && n <= |moves| && (forall i | 0 <= i < n :: Steady(moves[i].act)) && Steady(DoTick(t))
    && run[n].a.clock <= t.now && Early(t.now)
  }

  lemma Lengths(run: seq<System>, moves: seq<Move>, n: nat)
    requires Sound(run, moves) && n <= |moves|
    ensures Covers(run, moves, n)
  {
  }

  /** The two times that the timers are set to, told by what has happened. */
  lemma TimersMean(run: seq<System>, moves: seq<Move>, n: nat, t: TickInput)
    requires MayTick(run, moves, n, t)
    ensures Covers(run, moves, n) && run[n].a.snd.sent != [] && Inv(run[n])
    ensures var s1 := CalculateTimers(run[n].a.snd, t.now, t.timeout, t.interval);
            && (s1.nextSend <= t.now <==> NewsDue(run, moves, n, t) || AgainDue(run, moves, n, t))
            && (s1.nextAck <= t.now <==> AckDue(run, moves, n, t))
  {
    hide NumsOk, TimesOk, Denotes, HistoryOk, NetOk, AcksHeld, StrictlySorted, Sound, Steady, CalculateTimers, FirstNotice, FirstAsk,
      Wanted, LastRenewal, Quiet, Noticed, Asked, Heard, Stale;
    Lengths(run, moves, n);
    RunInv(run, moves, n);
    RunTracked(run, moves, n);
    NewsDueFirst(run, moves, n, t.now);
    AskedFirst(run, moves, n, t.now);
    HeardLast(run, moves, n, t.now);
    var s := run[n].a.snd;
    assert Room(t.now, t.timeout, t.interval) by { SteadyRoom(t); }
    Calculated(s, run[n].ab, run[n].a.clock, t.now, t.timeout, t.interval);
    BackBefore(s, run[n].a.clock);
    if |s.sent| > 1 && !Stale(s, t.now, t.timeout) { BackFresh(s, run[n].a.clock, t.now, t.timeout); }
  }

  lemma SteadyRoom(t: TickInput)
    requires Steady(DoTick(t)) && Early(t.now)
    ensures Room(t.now, t.timeout, t.interval)
  {
  }

  lemma BackBefore(s: Sender, clock: nat)
    requires SenderLists(s, clock)
    ensures s.Back().timestamp <= clock
  {
    hide NumsOk;
  }

  /** Exactly when a tick sends, in every run. */
  lemma TickExactly(run: seq<System>, moves: seq<Move>, n: nat, t: TickInput)
    requires MayTick(run, moves, n, t)
    ensures Covers(run, moves, n) && run[n].a.snd.sent != []
    ensures Tick(run[n].a.snd, t).1.Some?
       <==> t.hasAddr && (NewsDue(run, moves, n, t) || AgainDue(run, moves, n, t) || AckDue(run, moves, n, t))
  {
    hide NumsOk, TimesOk, Denotes, HistoryOk, NetOk, AcksHeld, StrictlySorted, Sound, Steady, CalculateTimers, NewsDue, AgainDue,
      AckDue, Tick, TickAsserts, FirstNotice, FirstAsk, Wanted, LastRenewal, Quiet;
    TimersMean(run, moves, n, t);
    RunTracked(run, moves, n);
    FreeAt(run, moves, n);
    TickAllowed(run[n], t);
    SteadyRoom(t);
    Ticked(run[n].a.snd, run[n].ab, run[n].a.clock, t);
  }
}
