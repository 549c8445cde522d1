/** What every step of the protocol keeps, and what follows for whole runs. */
module Runs {
  import opened UserStreams
  import opened Protocol
  import opened Synchronization

  // ---------------------------------------------------- receiver operations

  lemma SuffixDenotes(states: seq<Stamped>, k: nat, base: Stream, hist: map<nat, Stream>)
    requires k <= |states| && Denotes(states, base, hist)
    ensures Denotes(states[k..], base, hist)
  {
  }

  /** Throwing away below a number that the sender no longer needs loses nothing that has
      been acknowledged at or above the sender's oldest state. */
  lemma ThrowawayKeeps(states: seq<Stamped>, num: nat, front: nat, acks: set<Inst>) returns (k: nat)
    requires StrictlySorted(states) && AcksHeld(states, front, acks) && num <= front
    ensures k < |states| && KeepFrom(states, num) == states[k..]
    ensures forall i :: 0 <= i < k ==> states[i].num < num
    ensures StrictlySorted(states[k..]) && AcksHeld(states[k..], front, acks)
  {
    k := KeepFromIsSuffix(states, num);
    SuffixHas(states, k, front);
    forall i | i in acks && i.ackNum >= front
      ensures Has(states[k..], i.ackNum)
    {
      SuffixHas(states, k, i.ackNum);
    }
  }

  lemma InsertHas(states: seq<Stamped>, e: Stamped, num: nat)
    requires Has(states, num)
    ensures Has(InsertSorted(states, e), num)
  {
    var i :| 0 <= i < |states| && states[i].num == num;
    var k := FirstAbove(states, e.num);
    assert InsertSorted(states, e)[if i < k then i else i + 1].num == num;
  }

  lemma InsertAcks(states: seq<Stamped>, e: Stamped, front: nat, acks: set<Inst>)
    requires AcksHeld(states, front, acks)
    ensures AcksHeld(InsertSorted(states, e), front, acks)
  {
    hide InsertSorted, Has;
    InsertHas(states, e, front);
    forall i | i in acks && i.ackNum >= front
      ensures Has(InsertSorted(states, e), i.ackNum)
    {
      InsertHas(states, e, i.ackNum);
    }
  }

  lemma InsertAt(states: seq<Stamped>, e: Stamped)
    ensures var k := FirstAbove(states, e.num);
            var r := InsertSorted(states, e);
            && |r| == |states| + 1 && r[k] == e
            && (forall i :: 0 <= i < k ==> r[i] == states[i])
            && (forall i :: k < i < |r| ==> r[i] == states[i - 1])
  {
  }

  lemma InsertSorts(states: seq<Stamped>, e: Stamped)
    requires StrictlySorted(states) && !Has(states, e.num)
    ensures StrictlySorted(InsertSorted(states, e))
  {
    hide InsertSorted;
    InsertAt(states, e);
    var k := FirstAbove(states, e.num);
    assert forall i :: 0 <= i < k ==> states[i].num < e.num;
    assert forall i :: k <= i < |states| ==> states[i].num > e.num;
  }

  lemma InsertDenotes(states: seq<Stamped>, e: Stamped, base: Stream, hist: map<nat, Stream>)
    requires Denotes(states, base, hist) && e.num in hist && base + e.state == hist[e.num]
    ensures Denotes(InsertSorted(states, e), base, hist)
  {
    hide InsertSorted;
    InsertAt(states, e);
  }

  /** The diff, applied to the receiver's copy of the old state, is the new state. */
  lemma AppliedDenotes(base: Stream, old_: Stream, inst: Inst, hist: map<nat, Stream>, stream: Stream, front: nat, back: nat, shut: bool)
    requires InstOk(inst, hist, front) && HistoryOk(hist, stream, back, shut)
    requires base + old_ == hist[inst.oldNum]
    ensures base + (old_ + Expand(inst.diff)) == hist[inst.newNum]
  {
    hide Diff;
    DiffApply(hist[inst.newNum], hist[inst.oldNum]);
    assert base + (old_ + Expand(inst.diff)) == (base + old_) + Expand(inst.diff);
  }

  /** The reference state is found after throwing away. */
  lemma RecvFinds(received: seq<Stamped>, k: nat, inst: Inst)
    requires k < |received| && KeepFrom(received, inst.throwawayNum) == received[k..]
    requires forall i :: 0 <= i < k ==> received[i].num < inst.throwawayNum
    requires inst.throwawayNum <= inst.oldNum && Applicable(received, inst)
    ensures Has(received[k..], inst.oldNum) && !Has(received[k..], inst.newNum)
  {
    hide KeepFrom;
    SuffixHas(received, k, inst.oldNum);
    HasInSuffix(received, k, inst.newNum);
  }

  lemma HasInSuffix(states: seq<Stamped>, k: nat, num: nat)
    requires k <= |states|
    ensures Has(states[k..], num) ==> Has(states, num)
  {
    assert forall i :: 0 <= i < |states[k..]| ==> states[k..][i] == states[i + k];
  }

  /** Storing one more state keeps the receiver good. */
  lemma AcceptKeeps(e: Endpoint, kept: seq<Stamped>, entry: Stamped, inst: Inst, now: nat,
                    l: Link, front: nat, acks: set<Inst>)
    requires ReceiverOk(e.rcv.(received := kept), l) && AcksHeld(kept, front, acks)
    requires kept != [] && e.snd.ackNum == kept[|kept| - 1].num
    requires !Has(kept, entry.num) && entry.num in l.hist && l.rbase + entry.state == l.hist[entry.num]
    requires forall m, n :: m in l.hist && n in l.hist && m <= n ==> l.hist[m] <= l.hist[n]
    ensures var e1 := Accept(e, kept, entry, inst, now);
            && ReceiverOk(e1.rcv, l) && AcksHeld(e1.rcv.received, front, acks)
            && e1.snd.ackNum == e1.rcv.Newest().num && OnlyHeard(e.snd, e1.snd)
  {
    hide InsertSorted, StrictlySorted, Denotes, AcksHeld, Has, Wrap;
    InsertAt(kept, entry);
    InsertSorts(kept, entry);
    InsertDenotes(kept, entry, l.rbase, l.hist);
    InsertAcks(kept, entry, front, acks);
    var k := FirstAbove(kept, entry.num);
    if k == |kept| {
      assert kept[|kept| - 1].num <= entry.num;
    }
  }

  /** The fields of the sender that receiving a state may set. */
  ghost predicate OnlyHeard(s: Sender, s1: Sender) {
    s1 == s.(ackNum := s1.ackNum, lastHeard := s1.lastHeard, pendingAck := s1.pendingAck)
  }

  lemma StoreKeeps(e: Endpoint, kept: seq<Stamped>, inst: Inst, now: nat,
                   l: Link, front: nat, acks: set<Inst>, back: nat, shut: bool)
    requires ReceiverOk(e.rcv.(received := kept), l) && AcksHeld(kept, front, acks)
    requires kept != [] && e.snd.ackNum == kept[|kept| - 1].num
    requires Has(kept, inst.oldNum) && !Has(kept, inst.newNum)
    requires InstOk(inst, l.hist, front) && HistoryOk(l.hist, l.stream, back, shut)
    ensures var e1 := Store(e, kept, inst, now);
            && ReceiverOk(e1.rcv, l) && AcksHeld(e1.rcv.received, front, acks)
            && e1.snd.ackNum == e1.rcv.Newest().num && OnlyHeard(e.snd, e1.snd)
  {
    hide StrictlySorted, Denotes, AcksHeld, Has, Accept, Diff, QueueFull;
    var j := IndexOf(kept, inst.oldNum);
    DenotesAt(kept, j, l.rbase, l.hist);
    AppliedDenotes(l.rbase, kept[j].state, inst, l.hist, l.stream, front, back, shut);
    AcceptKeeps(e, kept, Stamped(now, inst.newNum, kept[j].state + Expand(inst.diff)), inst, now, l, front, acks);
  }

  /** Receiving, as far as the receiver is concerned. */
  lemma RecvReceiverKeeps(e: Endpoint, snd: Sender, clock: nat, l: Link, acks: set<Inst>, inst: Inst, now: nat)
    requires DirectionOk(snd, clock, e.rcv, e.snd.ackNum, l, acks) && inst in l.net
    ensures RecvAsserts(e.rcv, inst)
    ensures var e1 := Recv(e, inst, now);
            && DirectionOk(snd, clock, e1.rcv, e1.snd.ackNum, l, acks)
            && OnlyHeard(e.snd.(sent := ProcessAck(e.snd.sent, inst.ackNum)), e1.snd)
  {
    hide StrictlySorted, Denotes, AcksHeld, Has, KeepFrom, NumsOk, TimesOk, HistoryOk, Store, Applicable, ProcessAck, Diff;
    if Applicable(e.rcv.received, inst) {
      var front := snd.Front().num;
      var k := ThrowawayKeeps(e.rcv.received, inst.throwawayNum, front, acks);
      SuffixDenotes(e.rcv.received, k, l.rbase, l.hist);
      RecvFinds(e.rcv.received, k, inst);
      var e1 := e.(snd := e.snd.(sent := ProcessAck(e.snd.sent, inst.ackNum)));
      StoreKeeps(e1, e.rcv.received[k..], inst, now, l, front, acks, snd.Back().num, snd.shutdown);
    }
  }

  lemma DenotesAt(states: seq<Stamped>, i: nat, base: Stream, hist: map<nat, Stream>)
    requires i < |states| && Denotes(states, base, hist)
    ensures states[i].num in hist && base + states[i].state == hist[states[i].num]
  {
  }

  /** Processing an acknowledgment, as far as the sender is concerned. */
  lemma AckKeeps(snd: Sender, clock: nat, rcv: Receiver, ackNum: nat, l: Link, acks: set<Inst>, ack: Inst)
    requires DirectionOk(snd, clock, rcv, ackNum, l, acks) && ack in acks
    ensures DirectionOk(snd.(sent := ProcessAck(snd.sent, ack.ackNum)), clock, rcv, ackNum, l, acks)
    ensures var sent := ProcessAck(snd.sent, ack.ackNum); sent != [] && sent[|sent| - 1] == snd.Back()
    ensures Has(snd.sent, ack.ackNum) ==> ProcessAck(snd.sent, ack.ackNum)[0].num == ack.ackNum
  {
    hide Denotes, KeepFrom, TimesOk, NumsOk, HistoryOk, NetOk, StrictlySorted;
    if Has(snd.sent, ack.ackNum) {
      var k := AckSuffix(snd.sent, ack.ackNum);
      SuffixDenotes(snd.sent, k, l.sbase, l.hist);
      SuffixLists(snd.sent, k, clock);
      NetFront(l.net, l.hist, snd.Front().num, ack.ackNum);
    }
  }

  lemma AckSuffix(sent: seq<Stamped>, ack: nat) returns (k: nat)
    requires NumsOk(sent) && Has(sent, ack)
    ensures k < |sent| && KeepFrom(sent, ack) == sent[k..] && sent[k].num == ack && sent[0].num <= ack
  {
    hide KeepFrom;
    k := KeepFromIsSuffix(sent, ack);
    var i :| 0 <= i < |sent| && sent[i].num == ack;
    assert k <= i;
  }

  lemma SuffixLists(sent: seq<Stamped>, k: nat, clock: nat)
    requires k <= |sent| && NumsOk(sent) && TimesOk(sent, clock)
    ensures NumsOk(sent[k..]) && TimesOk(sent[k..], clock)
  {
  }

  lemma NetFront(net: set<Inst>, hist: map<nat, Stream>, front: nat, later: nat)
    requires NetOk(net, hist, front) && front <= later
    ensures NetOk(net, hist, later)
  {
  }

  // ------------------------------------------------------------------ steps

  ghost predicate AssertsA(s: System, act: Action) {
    && s.a.snd.sent != [] && s.a.rcv.received != []
    && match act
       case Push(e) => true
       case Wait(now, timeout, interval) => TimersAsserts(s.a.snd, now)
       case DoTick(t) => TickAsserts(s.a.snd, t)
       case DoRecv(inst, now) => RecvAsserts(s.a.rcv, inst) && ProcessAck(s.a.snd.sent, inst.ackNum) != []
       case DoFetch => FetchAsserts(s.a.rcv)
       case DoShutdown(now) => true
  }

  /** Every assertion that the source checks on the way through a step. */
  ghost predicate Asserts(s: System, m: Move) {
    match m
    case AtA(act) => AssertsA(s, act)
    case AtB(act) => AssertsA(Swap(s), act)
  }

  ghost function Step(s: System, m: Move): System
    requires Asserts(s, m)
  {
    match m
    case AtA(act) => StepA(s, act)
    case AtB(act) => Swap(StepA(Swap(s), act))
  }

  lemma PushKeeps(s: System, e: UserEvent)
    requires Inv(s) && EnabledA(s, Push(e))
    ensures AssertsA(s, Push(e)) && Inv(StepA(s, Push(e)))
  {
    hide NumsOk, TimesOk, Denotes, NetOk, StrictlySorted, AcksHeld;
    assert s.ab.sbase + (s.a.snd.current + [e]) == s.ab.stream + [e];
  }

  lemma ShutdownKeeps(s: System, now: nat)
    requires Inv(s) && EnabledA(s, DoShutdown(now))
    ensures AssertsA(s, DoShutdown(now)) && Inv(StepA(s, DoShutdown(now)))
  {
    hide NumsOk, Denotes, NetOk, StrictlySorted, AcksHeld;
  }

  lemma WaitKeeps(s: System, now: nat, timeout: nat, interval: nat)
    requires Inv(s) && EnabledA(s, Wait(now, timeout, interval))
    ensures AssertsA(s, Wait(now, timeout, interval)) && Inv(StepA(s, Wait(now, timeout, interval)))
  {
    hide NumsOk, TimesOk, Denotes, NetOk, HistoryOk, StrictlySorted, AcksHeld, CalculateTimers;
    TimersKeep(s.a.snd, s.ab, s.a.clock, now, timeout, interval);
  }

  lemma ReceiverExtends(r: Receiver, l: Link, l1: Link)
    requires ReceiverOk(r, l) && Extends(l.hist, l1.hist)
    requires l1.rbase == l.rbase && l1.delivered == l.delivered
    ensures ReceiverOk(r, l1)
  {
    hide StrictlySorted, Denotes;
    ExtendsKeeps(r.received, l.rbase, l.hist, l1.hist);
  }

  lemma AcksAdd(received: seq<Stamped>, front: nat, acks: set<Inst>, inst: Inst)
    requires AcksHeld(received, front, acks) && Has(received, inst.ackNum)
    ensures AcksHeld(received, front, acks + {inst})
  {
    hide Has;
  }

  lemma TickStepKeeps(s: System, t: TickInput)
    requires Inv(s) && EnabledA(s, DoTick(t)) && NumbersLeft(s.a.snd)
    ensures AssertsA(s, DoTick(t)) && Inv(StepA(s, DoTick(t)))
    ensures Extends(s.ab.hist, StepA(s, DoTick(t)).ab.hist)
  {
    hide NumsOk, TimesOk, Denotes, NetOk, HistoryOk, StrictlySorted, AcksHeld, Tick, TickAsserts, Extends, NumbersLeft;
    TickKeeps(s.a.snd, s.ab, s.a.clock, t);
    var s1 := StepA(s, DoTick(t));
    ReceiverExtends(s.b.rcv, s.ab, s1.ab);
    var inst := Tick(s.a.snd, t).1;
    if inst.Some? {
      assert s.a.rcv.Newest().num == inst.value.ackNum;
      AcksAdd(s.a.rcv.received, s.b.snd.Front().num, s.ab.net, inst.value);
    }
  }

  lemma SenderHeard(s: Sender, s1: Sender, l: Link, clock: nat, now: nat)
    requires SenderOk(s, l, clock) && OnlyHeard(s, s1) && clock <= now
    ensures SenderOk(s1, l, now)
  {
    hide NumsOk, Denotes, HistoryOk;
  }

  lemma RecvKeeps(s: System, inst: Inst, now: nat)
    requires Inv(s) && EnabledA(s, DoRecv(inst, now))
    ensures AssertsA(s, DoRecv(inst, now)) && Inv(StepA(s, DoRecv(inst, now)))
  {
    hide NumsOk, TimesOk, Denotes, HistoryOk, StrictlySorted, NetOk, AcksHeld, Recv, RecvAsserts, ProcessAck, Has;
    RecvReceiverKeeps(s.a, s.b.snd, s.b.clock, s.ba, s.ab.net, inst, now);
    AckKeeps(s.a.snd, s.a.clock, s.b.rcv, s.b.snd.ackNum, s.ab, s.ba.net, inst);
    var e1 := Recv(s.a, inst, now);
    SenderHeard(s.a.snd.(sent := ProcessAck(s.a.snd.sent, inst.ackNum)), e1.snd, s.ab, s.a.clock, now);
  }

  lemma CutSorted(states: seq<Stamped>, prefix: Stream)
    requires StrictlySorted(states)
    ensures StrictlySorted(CutAll(states, prefix))
  {
  }

  lemma CutHas(states: seq<Stamped>, prefix: Stream, num: nat)
    ensures Has(CutAll(states, prefix), num) <==> Has(states, num)
  {
    var cut := CutAll(states, prefix);
    assert forall i :: 0 <= i < |states| ==> cut[i].num == states[i].num;
  }

  lemma CutAcks(states: seq<Stamped>, prefix: Stream, front: nat, acks: set<Inst>)
    requires AcksHeld(states, front, acks)
    ensures AcksHeld(CutAll(states, prefix), front, acks)
  {
    hide Has, CutAll;
    CutHas(states, prefix, front);
    forall i | i in acks && i.ackNum >= front
      ensures Has(CutAll(states, prefix), i.ackNum)
    {
      CutHas(states, prefix, i.ackNum);
    }
  }

  /** The oldest received state is a prefix of all the others. */
  lemma OldestIsPrefix(received: seq<Stamped>, base: Stream, hist: map<nat, Stream>, stream: Stream, back: nat, shut: bool)
    requires received != [] && StrictlySorted(received)
    requires Denotes(received, base, hist) && HistoryOk(hist, stream, back, shut)
    ensures AllExtend(received, received[0].state)
  {
    forall i | 0 <= i < |received|
      ensures received[0].state <= received[i].state
    {
      BasePrefix(base, received[0].state, received[i].state);
    }
  }

  /** Handing over what has arrived: the prefix assertions hold, what is returned is exactly
      the events not returned before, and cutting the states changes no meaning. */
  lemma FetchKeepsReceiver(r: Receiver, l: Link, back: nat, shut: bool)
    requires ReceiverOk(r, l) && HistoryOk(l.hist, l.stream, back, shut)
    ensures FetchAsserts(r)
    ensures var (r1, diff) := Fetch(r);
            var l1 := l.(rbase := l.rbase + r.received[0].state, delivered := l.delivered + Expand(diff));
            && ReceiverOk(r1, l1)
            && l1.delivered == l.hist[r.Newest().num]
            && r1.Newest().num == r.Newest().num
  {
    hide StrictlySorted, Denotes, HistoryOk, AllExtend, Diff;
    var oldest := r.received[0].state;
    OldestIsPrefix(r.received, l.rbase, l.hist, l.stream, back, shut);
    CutDenotes(r.received, oldest, l.rbase, l.hist);
    CutSorted(r.received, oldest);
    DenotesAt(r.received, |r.received| - 1, l.rbase, l.hist);
    BasePrefix(l.rbase, r.last, r.Newest().state);
    DiffApply(r.Newest().state, r.last);
    var diff := Expand(Diff(r.Newest().state, r.last));
    assert l.rbase + (r.last + diff) == (l.rbase + r.last) + diff;
    var cut := CutAll(r.received, oldest);
    DenotesAt(cut, |cut| - 1, l.rbase + oldest, l.hist);
  }

  lemma FetchKeeps(s: System)
    requires Inv(s)
    ensures AssertsA(s, DoFetch) && Inv(StepA(s, DoFetch))
    ensures var l1 := StepA(s, DoFetch).ba; l1.delivered == l1.hist[s.a.rcv.Newest().num]
  {
    hide NumsOk, TimesOk, Denotes, HistoryOk, StrictlySorted, NetOk, AcksHeld, FetchAsserts, CutAll;
    FetchKeepsReceiver(s.a.rcv, s.ba, s.b.snd.Back().num, s.b.snd.shutdown);
    CutAcks(s.a.rcv.received, s.a.rcv.received[0].state, s.b.snd.Front().num, s.ab.net);
  }

  lemma InvSwap(s: System)
    requires Inv(s)
    ensures Inv(Swap(s))
  {
    hide SenderOk, ReceiverOk, NetOk, AcksHeld;
  }

  lemma StepAKeeps(s: System, act: Action)
    requires Inv(s) && EnabledA(s, act) && NumbersLeft(s.a.snd)
    ensures AssertsA(s, act) && Inv(StepA(s, act))
  {
    hide DirectionOk, StepA, AssertsA, NumbersLeft;
    match act
    case Push(e) => PushKeeps(s, e);
    case Wait(now, timeout, interval) => WaitKeeps(s, now, timeout, interval);
    case DoTick(t) => TickStepKeeps(s, t);
    case DoRecv(inst, now) => RecvKeeps(s, inst, now);
    case DoFetch => FetchKeeps(s);
    case DoShutdown(now) => ShutdownKeeps(s, now);
  }
}
