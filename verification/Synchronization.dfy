/** Two endpoints and the network between them. Every instruction ever sent stays in a set,
    and any member may be delivered any number of times, at any time, or never: the network
    loses, duplicates and reorders. History variables record what the protocol is about:
    the stream each side produced, the stream assigned to each number, and the events the
    other side has been handed. No operation of the protocol reads them. */
module Synchronization {
  import opened Options
  import opened UserStreams
  import opened Protocol

  /** One direction of travel, from a sender to the receiver at the other side. */
  datatype Link = Link(
    net: set<Inst>,
    stream: Stream,              // everything pushed by the sending side
    hist: map<nat, Stream>,      // the stream each number was assigned
    sbase: Stream,               // what the sender has cut from its states
    rbase: Stream,               // what the receiver has cut from its states
    delivered: Stream)           // what `get_remote_diff` has returned so far, decoded

  /** `ab` carries the instructions of `a`, `ba` those of `b`. */
  datatype System = System(a: Endpoint, b: Endpoint, ab: Link, ba: Link)

  datatype Action =
    | Push(e: UserEvent)                              // the application extends its state
    | Wait(now: nat, timeout: nat, interval: nat)     // `wait_time`
    | DoTick(t: TickInput)
    | DoRecv(inst: Inst, now: nat)                    // a whole instruction arrives
    | DoFetch                                         // `get_remote_diff`
    | DoShutdown(now: nat)

  datatype Move = AtA(act: Action) | AtB(act: Action)

  function Swap(s: System): System {
    System(s.b, s.a, s.ba, s.ab)
  }

  function Initial(nowA: nat, nowB: nat): System {
    var l := Link({}, [], map[0 := []], [], [], []);
    System(InitialEndpoint(nowA), InitialEndpoint(nowB), l, l)
  }

  /** Each machine's clock is monotone; only what was sent can arrive; and the application
      may not touch its state once shutdown has begun. */
  predicate EnabledA(s: System, act: Action) {
    match act
    case Push(e) => !s.a.snd.shutdown
    case Wait(now, timeout, interval) => s.a.clock <= now <= MAX64
    case DoTick(t) => s.a.clock <= t.now <= MAX64
    case DoRecv(inst, now) => s.a.clock <= now <= MAX64 && inst in s.ba.net
    case DoFetch => true
    case DoShutdown(now) => s.a.clock <= now <= MAX64
  }

  predicate Enabled(s: System, m: Move) {
    match m
    case AtA(act) => EnabledA(s, act)
    case AtB(act) => EnabledA(Swap(s), act)
  }

  /** Sending records the instruction and the stream its new number stands for. */
  function Record(l: Link, i: Option<Inst>): Link {
    match i
    case None => l
    case Some(inst) => l.(net := l.net + {inst}, hist := l.hist[inst.newNum := l.stream])
  }

  function StepA(s: System, act: Action): System
    requires s.a.snd.sent != [] && s.a.rcv.received != []
  {
    match act
    case Push(e) =>
      s.(a := s.a.(snd := s.a.snd.(current := s.a.snd.current + [e])), ab := s.ab.(stream := s.ab.stream + [e]))
    case Wait(now, timeout, interval) =>
      s.(a := s.a.(snd := CalculateTimers(s.a.snd, now, timeout, interval), clock := now),
         ab := s.ab.(sbase := s.ab.sbase + s.a.snd.Front().state))
    case DoTick(t) =>
      var (snd, inst) := Tick(s.a.snd, t);
      s.(a := s.a.(snd := snd, clock := t.now),
         ab := Record(s.ab.(sbase := s.ab.sbase + s.a.snd.Front().state), inst))
    case DoRecv(inst, now) =>
      s.(a := Recv(s.a, inst, now).(clock := now))
    case DoFetch =>
      var (rcv, diff) := Fetch(s.a.rcv);
      s.(a := s.a.(rcv := rcv),
         ba := s.ba.(rbase := s.ba.rbase + s.a.rcv.received[0].state, delivered := s.ba.delivered + Expand(diff)))
    case DoShutdown(now) =>
      s.(a := s.a.(snd := StartShutdown(s.a.snd, now), clock := now))
  }

  // -------------------------------------------------------------- invariant

  /** Numbers grow strictly, except for copies of the shutdown state at the end. */
  ghost predicate NumsOk(sent: seq<Stamped>) {
    && (forall i, j :: 0 <= i < j < |sent| ==> sent[i].num < sent[j].num || sent[i].num == sent[j].num == MAX64)
    && (forall i :: 0 <= i < |sent| ==> sent[i].num <= MAX64)
  }

  ghost predicate TimesOk(sent: seq<Stamped>, clock: nat) {
    && (forall i, j :: 0 <= i < j < |sent| ==> sent[i].timestamp <= sent[j].timestamp)
    && (forall i :: 0 <= i < |sent| ==> sent[i].timestamp <= clock)
  }

  ghost predicate SenderLists(s: Sender, clock: nat) {
    1 <= |s.sent| <= SENT_LIMIT && NumsOk(s.sent) && TimesOk(s.sent, clock)
  }

  /** Every entry of a list, put back behind what was cut, is the stream of its number. */
  ghost predicate Denotes(states: seq<Stamped>, base: Stream, hist: map<nat, Stream>) {
    forall i :: 0 <= i < |states| ==> states[i].num in hist && base + states[i].state == hist[states[i].num]
  }

  /** Numbers stand for ever longer prefixes of the stream; the shutdown number for all of it. */
  ghost predicate HistoryOk(hist: map<nat, Stream>, stream: Stream, back: nat, shutdown: bool) {
    && (forall n :: n in hist ==> n <= back && hist[n] <= stream)
    && (forall m, n :: m in hist && n in hist && m <= n ==> hist[m] <= hist[n])
    && (MAX64 in hist ==> shutdown && hist[MAX64] == stream)
  }

  ghost predicate SenderOk(s: Sender, l: Link, clock: nat) {
    && SenderLists(s, clock)
    && Denotes(s.sent, l.sbase, l.hist)
    && l.sbase + s.current == l.stream
    && HistoryOk(l.hist, l.stream, s.Back().num, s.shutdown)
  }

  /** An instruction carries the exact difference of two assigned streams, and asks the
      receiver to throw away only what the sender itself no longer needs. */
  ghost predicate InstOk(i: Inst, hist: map<nat, Stream>, front: nat) {
    && i.version == PROTOCOL_VERSION
    && i.oldNum in hist && i.newNum in hist && i.oldNum <= i.newNum
    && i.diff == Diff(hist[i.newNum], hist[i.oldNum])
    && i.throwawayNum <= i.oldNum && i.throwawayNum <= front
  }

  ghost predicate NetOk(net: set<Inst>, hist: map<nat, Stream>, front: nat) {
    forall i :: i in net ==> InstOk(i, hist, front)
  }

  ghost predicate StrictlySorted(states: seq<Stamped>) {
    forall i, j :: 0 <= i < j < |states| ==> states[i].num < states[j].num
  }

  ghost predicate ReceiverOk(r: Receiver, l: Link) {
    && r.received != []
    && StrictlySorted(r.received)
    && Denotes(r.received, l.rbase, l.hist)
    && l.rbase + r.last == l.delivered
    && r.Newest().num in l.hist && l.delivered <= l.hist[r.Newest().num]
  }

  /** Whatever has been or will be acknowledged at or above the sender's oldest number is
      still held by the receiver. */
  ghost predicate AcksHeld(received: seq<Stamped>, front: nat, acks: set<Inst>) {
    && Has(received, front)
    && (forall i :: i in acks && i.ackNum >= front ==> Has(received, i.ackNum))
  }

  /** One direction: the sender, the receiver at the other side, the number that side
      acknowledges, the link between them, and the instructions that carry acknowledgments. */
  ghost predicate DirectionOk(snd: Sender, clock: nat, rcv: Receiver, ackNum: nat, l: Link, acks: set<Inst>) {
    && SenderOk(snd, l, clock)
    && NetOk(l.net, l.hist, snd.Front().num)
    && ReceiverOk(rcv, l)
    && ackNum == rcv.Newest().num
    && AcksHeld(rcv.received, snd.Front().num, acks)
  }

  ghost predicate Inv(s: System) {
    && DirectionOk(s.a.snd, s.a.clock, s.b.rcv, s.b.snd.ackNum, s.ab, s.ba.net)
    && DirectionOk(s.b.snd, s.b.clock, s.a.rcv, s.a.snd.ackNum, s.ba, s.ab.net)
  }

  // ------------------------------------------------------------- list facts

  lemma SnocSuffix(states: seq<Stamped>, k: nat)
    requires k < |states|
    ensures states[..|states| - 1][k..] + [states[|states| - 1]] == states[k..]
  {
  }

  /** Throwing away where the small numbers come first cuts off a first part. */
  lemma {:induction false} KeepFromSuffix(states: seq<Stamped>, num: nat, k: nat)
    requires k <= |states|
    requires forall i :: 0 <= i < k ==> states[i].num < num
    requires forall i :: k <= i < |states| ==> states[i].num >= num
    ensures KeepFrom(states, num) == states[k..]
  {
    if states != [] {
      var n := |states| - 1;
      if k <= n {
        KeepFromSuffix(states[..n], num, k);
        SnocSuffix(states, k);
      } else {
        KeepFromSuffix(states[..n], num, n);
      }
    }
  }

  lemma KeepFromIsSuffix(states: seq<Stamped>, num: nat) returns (k: nat)
    requires forall i, j :: 0 <= i < j < |states| ==> states[i].num <= states[j].num
    ensures k <= |states| && KeepFrom(states, num) == states[k..]
    ensures forall i :: 0 <= i < k ==> states[i].num < num
    ensures forall i :: k <= i < |states| ==> states[i].num >= num
  {
    hide KeepFrom;
    k := 0;
    while k < |states| && states[k].num < num
      invariant 0 <= k <= |states|
      invariant forall i :: 0 <= i < k ==> states[i].num < num
    {
      k := k + 1;
    }
    KeepFromSuffix(states, num, k);
  }

  lemma SuffixHas(states: seq<Stamped>, k: nat, num: nat)
    requires k <= |states|
    requires forall i :: 0 <= i < k ==> states[i].num != num
    requires Has(states, num)
    ensures Has(states[k..], num)
  {
    var i :| 0 <= i < |states| && states[i].num == num;
    assert states[k..][i - k].num == num;
  }

  /** Cutting a common prefix moves it into the base and changes no meaning. */
  lemma CutDenotes(states: seq<Stamped>, prefix: Stream, base: Stream, hist: map<nat, Stream>)
    requires Denotes(states, base, hist) && AllExtend(states, prefix)
    ensures Denotes(CutAll(states, prefix), base + prefix, hist)
  {
    var cut := CutAll(states, prefix);
    forall i | 0 <= i < |cut|
      ensures cut[i].num in hist && base + prefix + cut[i].state == hist[cut[i].num]
    {
      assert prefix <= states[i].state;
      assert prefix + cut[i].state == states[i].state;
      assert base + prefix + cut[i].state == base + (prefix + cut[i].state);
    }
  }

  /** Prefixes can be compared with or without the common base. */
  lemma BasePrefix(base: Stream, x: Stream, y: Stream)
    requires base + x <= base + y
    ensures x <= y
    ensures Diff(base + y, base + x) == Diff(y, x)
  {
    assert (base + y)[|base|..] == y;
    assert x == (base + x)[|base|..] == (base + y)[..|base + x|][|base|..] == y[..|x|];
    assert (base + y)[|base + x|..] == y[|x|..];
  }

  // ------------------------------------------------------ sender operations

  /** The oldest sent state is a prefix of all the others and of the current state. */
  lemma FrontIsPrefix(s: Sender, l: Link, clock: nat)
    requires SenderOk(s, l, clock)
    ensures s.Front().state <= s.current && AllExtend(s.sent, s.Front().state)
  {
    BasePrefix(l.sbase, s.Front().state, s.current);
    forall i | 0 <= i < |s.sent|
      ensures s.Front().state <= s.sent[i].state
    {
      BasePrefix(l.sbase, s.Front().state, s.sent[i].state);
    }
  }

  /** With a monotone clock the benefit of the doubt goes to all unacknowledged states or
      to none of them. */
  lemma AssumedIsFrontOrBack(s: Sender, clock: nat, now: nat, timeout: nat)
    requires SenderLists(s, clock) && clock <= now <= MAX64
    ensures var k := UpdateAssumed(s, now, timeout).assumed; k == 0 || k == |s.sent| - 1
  {
    hide Recent;
    var k := LastRecent(s.sent, 1, now, timeout);
    if 0 < k && k + 1 < |s.sent| {
      RecentLater(s.sent[k], s.sent[k + 1], now, timeout);
    }
  }

  lemma RecentLater(x: Stamped, y: Stamped, now: nat, timeout: nat)
    requires x.timestamp <= y.timestamp <= now <= MAX64
    ensures Recent(x, now, timeout) ==> Recent(y, now, timeout)
  {
  }

  /** Recomputing the timers and cutting the acknowledged prefix keeps every meaning. */
  lemma TimersKeep(s: Sender, l: Link, clock: nat, now: nat, timeout: nat, interval: nat)
    requires SenderOk(s, l, clock) && clock <= now <= MAX64
    ensures TimersAsserts(s, now)
    ensures var s1 := CalculateTimers(s, now, timeout, interval);
            && SenderOk(s1, l.(sbase := l.sbase + s.Front().state), now)
            && |s1.sent| == |s.sent|
            && s1.Front().num == s.Front().num && s1.Back().num == s.Back().num
            && (s1.assumed == 0 || s1.assumed == |s1.sent| - 1)
            && s1.ackNum == s.ackNum && s1.shutdown == s.shutdown
  {
    hide NumsOk, TimesOk, Denotes, HistoryOk;
    FrontIsPrefix(s, l, clock);
    AssumedIsFrontOrBack(s, clock, now, timeout);
    var known := s.Front().state;
    CutDenotes(s.sent, known, l.sbase, l.hist);
    CutKeepsLists(s.sent, known, clock, now);
    assert known + Cut(s.current, known) == s.current;
    assert l.sbase + known + Cut(s.current, known) == l.sbase + (known + Cut(s.current, known));
  }

  lemma CutKeepsLists(sent: seq<Stamped>, prefix: Stream, clock: nat, now: nat)
    requires NumsOk(sent) && TimesOk(sent, clock) && clock <= now
    ensures NumsOk(CutAll(sent, prefix)) && TimesOk(CutAll(sent, prefix), now)
    ensures forall i :: 0 <= i < |sent| ==> sent[i].timestamp <= now
  {
  }

  /** A number that may be assigned to the current state. */
  ghost predicate NextNum(s: Sender, num: nat)
    requires s.sent != []
  {
    || (s.shutdown && s.Back().num <= num == MAX64)
    || num == s.Back().num + 1 < MAX64
  }

  /** Assigning the current stream to a next number changes no earlier assignment. */
  lemma RecordKeeps(s: Sender, l: Link, clock: nat, num: nat)
    requires SenderOk(s, l, clock) && NextNum(s, num)
    ensures Extends(l.hist, l.hist[num := l.stream])
    ensures HistoryOk(l.hist[num := l.stream], l.stream, num, s.shutdown)
  {
    hide NumsOk, TimesOk, Denotes;
  }

  /** No number is assigned anew. */
  ghost predicate Extends(hist: map<nat, Stream>, longer: map<nat, Stream>) {
    forall n :: n in hist ==> n in longer && longer[n] == hist[n]
  }

  lemma ExtendsAt(hist: map<nat, Stream>, longer: map<nat, Stream>, n: nat)
    requires Extends(hist, longer) && n in hist
    ensures n in longer && longer[n] == hist[n]
  {
  }

  lemma ExtendsKeeps(states: seq<Stamped>, base: Stream, hist: map<nat, Stream>, longer: map<nat, Stream>)
    requires Extends(hist, longer) && Denotes(states, base, hist)
    ensures Denotes(states, base, longer)
  {
  }

  lemma NetAdds(net: set<Inst>, hist: map<nat, Stream>, front: nat, inst: Inst)
    requires NetOk(net, hist, front) && InstOk(inst, hist, front)
    ensures NetOk(net + {inst}, hist, front)
  {
  }

  lemma NetExtends(net: set<Inst>, hist: map<nat, Stream>, longer: map<nat, Stream>, front: nat)
    requires Extends(hist, longer) && NetOk(net, hist, front)
    ensures NetOk(net, longer, front)
  {
  }

  lemma CulledKeeps(states: seq<Stamped>, clock: nat)
    requires NumsOk(states) && TimesOk(states, clock)
    ensures NumsOk(Culled(states)) && TimesOk(Culled(states), clock)
  {
  }

  lemma AppendKeeps(sent: seq<Stamped>, e: Stamped)
    requires sent != [] && NumsOk(sent) && TimesOk(sent, e.timestamp)
    requires sent[|sent| - 1].num < e.num <= MAX64 || sent[|sent| - 1].num == e.num == MAX64
    ensures NumsOk(sent + [e]) && TimesOk(sent + [e], e.timestamp)
  {
    assert forall i :: 0 <= i < |sent| ==> sent[i].num <= sent[|sent| - 1].num;
  }

  lemma AppendDenotes(sent: seq<Stamped>, e: Stamped, base: Stream, hist: map<nat, Stream>)
    requires Denotes(sent, base, hist) && e.num in hist && base + e.state == hist[e.num]
    ensures Denotes(Culled(sent + [e]), base, hist)
  {
  }

  /** Appending an entry for the next number keeps the list good and does not lose the
      diff base. */
  lemma AddKeeps(s: Sender, l: Link, now: nat, num: nat)
    requires SenderOk(s, l, now)
    requires s.assumed == 0 || s.assumed == |s.sent| - 1
    requires NextNum(s, num)
    ensures AddSentStateAsserts(s)
    ensures var s1 := AddSentState(s, Stamped(now, num, s.current));
            && SenderOk(s1, l.(hist := l.hist[num := l.stream]), now)
            && s1.assumed < |s1.sent| && s1.sent[s1.assumed] == s.sent[s.assumed]
            && s1.Front() == s.Front() && s1.Back() == Stamped(now, num, s.current)
  {
    hide NumsOk, TimesOk, Denotes, HistoryOk, Culled, CullPlace;
    var e := Stamped(now, num, s.current);
    AppendKeeps(s.sent, e);
    CulledKeeps(s.sent + [e], now);
    RecordKeeps(s, l, now, num);
    ExtendsKeeps(s.sent, l.sbase, l.hist, l.hist[num := l.stream]);
    AppendDenotes(s.sent, e, l.sbase, l.hist[num := l.stream]);
    CullSparesBase(s, e);
  }

  /** The entry in the middle is neither the first nor the last before the new one. */
  lemma CullSparesBase(s: Sender, e: Stamped)
    requires 1 <= |s.sent| <= SENT_LIMIT
    requires s.assumed == 0 || s.assumed == |s.sent| - 1
    ensures AddSentStateAsserts(s)
    ensures var s1 := AddSentState(s, e);
            && 1 <= |s1.sent| <= SENT_LIMIT && s1.assumed < |s1.sent|
            && s1.sent[s1.assumed] == s.sent[s.assumed]
            && s1.sent[0] == s.sent[0] && s1.sent[|s1.sent| - 1] == e
  {
  }

  // ------------------------------------------------------------------ tick

  /** The diff computed from cut states is the diff of the streams they stand for. */
  lemma DiffOfDenoted(s: Sender, l: Link, clock: nat, k: nat)
    requires SenderOk(s, l, clock) && k < |s.sent|
    ensures s.sent[k].num in l.hist
    ensures Diff(s.current, s.sent[k].state) == Diff(l.stream, l.hist[s.sent[k].num])
    ensures s.sent[k].state <= s.current
  {
    BasePrefix(l.sbase, s.sent[k].state, s.current);
  }

  /** The prefix assertions of `diff_from` hold for both states that `tick` compares with. */
  lemma BothPrefixes(s: Sender, l: Link, clock: nat)
    requires SenderOk(s, l, clock) && s.assumed < |s.sent|
    ensures DiffAsserts(s)
  {
    DiffOfDenoted(s, l, clock, s.assumed);
    DiffOfDenoted(s, l, clock, 0);
  }

  /** What sending, or not sending, may do to a sender and its link. */
  ghost predicate SentOk(s: Sender, l: Link, s1: Sender, inst: Option<Inst>, now: nat)
    requires s.sent != []
  {
    var l1 := Record(l, inst);
    && SenderOk(s1, l1, now) && NetOk(l1.net, l1.hist, s1.Front().num)
    && Extends(l.hist, l1.hist)
    && s1.Front().num == s.Front().num
    && s1.ackNum == s.ackNum
    && (inst.Some? ==> inst.value.ackNum == s.ackNum && inst.value.newNum == s1.Back().num)
    && s1.shutdown == s.shutdown
    && s.Back().num <= s1.Back().num
    && (s1.Back().num <= s.Back().num + 1 || s1.Back().num == MAX64)
  }

  lemma EmptyAckKeeps(s: Sender, l: Link, now: nat, chaff: seq<Byte>)
    requires SenderOk(s, l, now) && NetOk(l.net, l.hist, s.Front().num)
    requires s.assumed == 0 || s.assumed == |s.sent| - 1
    requires NextNum(s, EmptyAckNum(s))
    requires Diff(s.current, s.sent[s.assumed].state) == []
    ensures AddSentStateAsserts(s)
    ensures var (s1, inst) := SendEmptyAck(s, now, chaff); SentOk(s, l, s1.(delayClock := MAX64), Some(inst), now)
  {
    hide NumsOk, TimesOk, Denotes, HistoryOk, NetOk, Extends, Culled, CullPlace, Diff, Wrap;
    var num := EmptyAckNum(s);
    AddKeeps(s, l, now, num);
    RecordKeeps(s, l, now, num);
    DiffOfDenoted(s, l, now, s.assumed);
    NetExtends(l.net, l.hist, l.hist[num := l.stream], s.Front().num);
    AssumedNum(s, num);
    ExtendsAt(l.hist, l.hist[num := l.stream], s.sent[s.assumed].num);
    NetAdds(l.net, l.hist[num := l.stream], s.Front().num, SendEmptyAck(s, now, chaff).1);
  }

  /** Any entry may be the base for the next number, and the front may be thrown away to. */
  lemma AssumedNum(s: Sender, num: nat)
    requires s.sent != [] && s.assumed < |s.sent| && NumsOk(s.sent)
    requires NextNum(s, num) || num == s.Back().num
    ensures s.Front().num <= s.sent[s.assumed].num <= num
  {
  }

  lemma TouchKeeps(s: Sender, l: Link, now: nat)
    requires SenderOk(s, l, now)
    ensures SenderOk(s.(sent := s.sent[|s.sent| - 1 := s.Back().(timestamp := now)]), l, now)
  {
  }

  /** Sending the current state again under the number it already has. */
  lemma ResendKeeps(s: Sender, l: Link, now: nat, chaff: seq<Byte>)
    requires SenderOk(s, l, now) && NetOk(l.net, l.hist, s.Front().num)
    requires s.assumed < |s.sent| && DataNum(s) == s.Back().num
    requires AddSentStateAsserts(s)
    ensures DataSent(s, l, now, chaff)
  {
    hide NumsOk, TimesOk, Denotes, HistoryOk, Culled, CullPlace;
    DiffOfDenoted(s, l, now, s.assumed);
    AssumedNum(s, s.Back().num);
    TouchKeeps(s, l, now);
    BackIsCurrent(s, l, now);
    assert l.hist[s.Back().num := l.stream] == l.hist;
  }

  lemma NewDataKeeps(s: Sender, l: Link, now: nat, chaff: seq<Byte>)
    requires SenderOk(s, l, now) && NetOk(l.net, l.hist, s.Front().num)
    requires s.assumed == 0 || s.assumed == |s.sent| - 1
    requires NextNum(s, DataNum(s)) && DataNum(s) != s.Back().num
    ensures AddSentStateAsserts(s) && DataSent(s, l, now, chaff)
  {
    hide NumsOk, TimesOk, Denotes, HistoryOk, NetOk, Extends, Culled, CullPlace, Diff, Wrap;
    var num := DataNum(s);
    DiffOfDenoted(s, l, now, s.assumed);
    AssumedNum(s, num);
    AddKeeps(s, l, now, num);
    RecordKeeps(s, l, now, num);
    NetExtends(l.net, l.hist, l.hist[num := l.stream], s.Front().num);
    ExtendsAt(l.hist, l.hist[num := l.stream], s.sent[s.assumed].num);
    NetAdds(l.net, l.hist[num := l.stream], s.Front().num,
            SendToReceiver(s, now, Diff(s.current, s.sent[s.assumed].state), chaff).1);
  }

  ghost predicate DataSent(s: Sender, l: Link, now: nat, chaff: seq<Byte>)
    requires s.sent != [] && s.assumed < |s.sent| && AddSentStateAsserts(s)
  {
    var (s1, inst) := SendToReceiver(s, now, Diff(s.current, s.sent[s.assumed].state), chaff);
    SentOk(s, l, s1.(delayClock := MAX64), Some(inst), now)
  }

  lemma BackIsCurrent(s: Sender, l: Link, now: nat)
    requires SenderOk(s, l, now) && DataNum(s) == s.Back().num
    ensures s.Back().num in l.hist && l.hist[s.Back().num] == l.stream
  {
  }

  /** A next ordinary number is left, or ordinary numbers are no longer needed. */
  predicate NumbersLeft(s: Sender)
    requires s.sent != []
  {
    s.shutdown || s.Back().num < MAX64 - 1
  }

  lemma NumbersLeftNext(s: Sender, l: Link, clock: nat)
    requires SenderOk(s, l, clock) && NumbersLeft(s)
    ensures NextNum(s, EmptyAckNum(s))
    ensures DataNum(s) == s.Back().num || NextNum(s, DataNum(s))
  {
    hide TimesOk, Denotes, HistoryOk;
  }

  lemma SendChosenKeeps(s: Sender, l: Link, t: TickInput)
    requires SenderOk(s, l, t.now) && NetOk(l.net, l.hist, s.Front().num)
    requires s.assumed == 0 || s.assumed == |s.sent| - 1
    requires NumbersLeft(s)
    ensures AddSentStateAsserts(s)
    ensures var (s1, inst) := SendChosen(s, Diff(s.current, s.sent[s.assumed].state), t); SentOk(s, l, s1, inst, t.now)
  {
    hide NumsOk, TimesOk, Denotes, HistoryOk, NetOk, Diff, SendEmptyAck, SendToReceiver, AddSentStateAsserts;
    CullSparesBase(s, Stamped(t.now, 0, []));
    NumbersLeftNext(s, l, t.now);
    if Diff(s.current, s.sent[s.assumed].state) == [] {
      if t.now >= s.nextAck {
        EmptyAckKeeps(s, l, t.now, t.chaff);
      }
    } else if DataNum(s) == s.Back().num {
      ResendKeeps(s, l, t.now, t.chaff);
    } else {
      NewDataKeeps(s, l, t.now, t.chaff);
    }
  }

  /** One call of `tick`: no assertion fails, the diff base is never culled, and the sender,
      its history and its instructions stay good. */
  lemma TickKeeps(s: Sender, l: Link, clock: nat, t: TickInput)
    requires SenderOk(s, l, clock) && NetOk(l.net, l.hist, s.Front().num)
    requires clock <= t.now <= MAX64 && NumbersLeft(s)
    ensures TickAsserts(s, t)
    ensures var (s1, inst) := Tick(s, t); SentOk(s, l.(sbase := l.sbase + s.Front().state), s1, inst, t.now)
  {
    hide NumsOk, TimesOk, Denotes, HistoryOk, NetOk, CalculateTimers, SendChosen, AddSentStateAsserts, DiffAsserts, TickSends;
    TimersKeep(s, l, clock, t.now, t.timeout, t.interval);
    var s1 := CalculateTimers(s, t.now, t.timeout, t.interval);
    var l1 := l.(sbase := l.sbase + s.Front().state);
    BothPrefixes(s1, l1, t.now);
    SendChosenKeeps(ChooseBase(s1).0, l1, t);
  }
}
