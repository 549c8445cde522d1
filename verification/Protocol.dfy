/** The state synchronization protocol of mosh/src/network, one endpoint at a time: the
    numbered state lists, and what each operation does to them as a function of values.
    Every operation is total; the facts that the source asserts on the way are collected
    in predicates named ...Asserts. */
module Protocol {
  import opened Options
  import opened UserStreams

  /** `uint64_t( -1 )`: the number of the shutdown state, and "never" for the timers. */
  const MAX64: nat := 0xFFFF_FFFF_FFFF_FFFF

  const PROTOCOL_VERSION: nat := 2
  const ACK_INTERVAL: nat := 3000
  const ACK_DELAY: nat := 100
  const ACTIVE_RETRY_TIMEOUT: nat := 10000
  const SENT_LIMIT: nat := 32
  const CULL_FROM_END: nat := 16
  const RECEIVED_LIMIT: nat := 1024
  const QUENCH_TIME: nat := 15000
  const SHUTDOWN_RETRIES: nat := 16

  /** Unsigned 64-bit arithmetic. */
  function Wrap(x: int): nat {
    x % (MAX64 + 1)
  }

  datatype Stamped = Stamped(timestamp: nat, num: nat, state: Stream)

  /** The message of mosh/src/protobufs/transportinstruction.proto. */
  datatype Inst = Inst(version: nat, oldNum: nat, newNum: nat, ackNum: nat, throwawayNum: nat,
                       diff: UserMessage, chaff: seq<Byte>)

  // ------------------------------------------------------------ state lists

  predicate Has(states: seq<Stamped>, num: nat) {
    exists i :: 0 <= i < |states| && states[i].num == num
  }

  /** The first entry with a given number. */
  function IndexOf(states: seq<Stamped>, num: nat): (k: nat)
    ensures k <= |states|
    ensures k < |states| ==> states[k].num == num
    ensures forall i :: 0 <= i < k ==> states[i].num != num
    ensures k < |states| <==> Has(states, num)
  {
    if states == [] then 0
    else if states[0].num == num then 0
    else
      assert forall i :: 1 <= i < |states| ==> states[i] == states[1..][i - 1];
      1 + IndexOf(states[1..], num)
  }

  /** Erase every entry numbered below `num`. */
  function KeepFrom(states: seq<Stamped>, num: nat): (kept: seq<Stamped>)
    ensures |kept| <= |states|
  {
    if states == [] then []
    else
      var rest := KeepFrom(states[..|states| - 1], num);
      if states[|states| - 1].num < num then rest else rest + [states[|states| - 1]]
  }

  /** Insert before the first entry with a larger number, or at the end. */
  function InsertSorted(states: seq<Stamped>, s: Stamped): seq<Stamped> {
    var k := FirstAbove(states, s.num);
    states[..k] + [s] + states[k..]
  }

  function FirstAbove(states: seq<Stamped>, num: nat): (k: nat)
    ensures k <= |states|
    ensures k < |states| ==> states[k].num > num
    ensures forall i :: 0 <= i < k ==> states[i].num <= num
  {
    if states == [] then 0
    else if states[0].num > num then 0
    else
      assert forall i :: 1 <= i < |states| ==> states[i] == states[1..][i - 1];
      1 + FirstAbove(states[1..], num)
  }

  /** `subtract` on values. */
  function Cut(s: Stream, prefix: Stream): Stream {
    if prefix <= s then s[|prefix|..] else s
  }

  /** Cut the oldest state out of every state, itself included. */
  function CutAll(states: seq<Stamped>, prefix: Stream): (cut: seq<Stamped>)
    ensures |cut| == |states|
    ensures forall i :: 0 <= i < |states| ==> cut[i] == states[i].(state := Cut(states[i].state, prefix))
  {
    seq(|states|, i requires 0 <= i < |states| => states[i].(state := Cut(states[i].state, prefix)))
  }

  /** Every state begins with the given one: what the assertions in `subtract` check. */
  ghost predicate AllExtend(states: seq<Stamped>, prefix: Stream) {
    forall i :: 0 <= i < |states| ==> prefix <= states[i].state
  }

  // ----------------------------------------------------------------- sender

  datatype Sender = Sender(
    current: Stream,        // the state to be synchronized
    sent: seq<Stamped>,     // first: known to the receiver; last: sent last
    assumed: nat,           // index in `sent` of the assumed receiver state
    nextAck: nat,
    nextSend: nat,
    shutdown: bool,
    shutdownTries: nat,
    shutdownStart: nat,
    ackNum: nat,            // newest state received from the peer
    pendingAck: bool,
    minDelay: nat,
    lastHeard: nat,
    delayClock: nat)
  {
    function Front(): Stamped
      requires sent != []
    {
      sent[0]
    }

    function Back(): Stamped
      requires sent != []
    {
      sent[|sent| - 1]
    }
  }

  /** An entry sent recently enough to be given the benefit of the doubt. */
  predicate Recent(s: Stamped, now: nat, timeout: nat) {
    Wrap(now - s.timestamp) < timeout + ACK_DELAY
  }

  /** Starting behind entry `i - 1`, the last entry of the unbroken run of recent entries. */
  function LastRecent(sent: seq<Stamped>, i: nat, now: nat, timeout: nat): (k: nat)
    requires 1 <= i <= |sent|
    ensures i - 1 <= k < |sent|
    ensures forall j :: i <= j <= k ==> Recent(sent[j], now, timeout)
    ensures k + 1 < |sent| ==> !Recent(sent[k + 1], now, timeout)
    decreases |sent| - i
  {
    if i == |sent| || !Recent(sent[i], now, timeout) then i - 1
    else LastRecent(sent, i + 1, now, timeout)
  }

  ghost predicate TimersAsserts(s: Sender, now: nat) {
    && s.sent != []
    && (forall i :: 1 <= i < |s.sent| ==> now >= s.sent[i].timestamp)
    && s.sent[0].state <= s.current
    && AllExtend(s.sent, s.sent[0].state)
  }

  function UpdateAssumed(s: Sender, now: nat, timeout: nat): Sender
    requires s.sent != []
  {
    s.(assumed := LastRecent(s.sent, 1, now, timeout))
  }

  function Rationalize(s: Sender): Sender
    requires s.sent != []
  {
    var known := s.sent[0].state;
    s.(current := Cut(s.current, known), sent := CutAll(s.sent, known))
  }

  function Max(a: nat, b: nat): nat {
    if a < b then b else a
  }

  /** The two timers. `interval` is the send interval computed from the round trip time. */
  function SetTimers(s: Sender, now: nat, timeout: nat, interval: nat): Sender
    requires s.sent != [] && s.assumed < |s.sent|
  {
    var ack1 := if s.pendingAck && s.nextAck > Wrap(now + ACK_DELAY) then Wrap(now + ACK_DELAY) else s.nextAck;
    var active := Wrap(s.lastHeard + ACTIVE_RETRY_TIMEOUT) > now;
    var clock := if s.current != s.Back().state && s.delayClock == MAX64 then now else s.delayClock;
    var atRate := Wrap(s.Back().timestamp + interval);
    var send :=
      if s.current != s.Back().state then Max(Wrap(clock + s.minDelay), atRate)
      else if s.current != s.sent[s.assumed].state && active then
        if clock != MAX64 then Max(atRate, Wrap(clock + s.minDelay)) else atRate
      else if s.current != s.Front().state && active then Wrap(s.Back().timestamp + timeout + ACK_DELAY)
      else MAX64;
    var ack2 := if s.shutdown || s.ackNum == MAX64 then atRate else ack1;
    s.(nextAck := ack2, nextSend := send, delayClock := clock)
  }

  function CalculateTimers(s: Sender, now: nat, timeout: nat, interval: nat): Sender
    requires s.sent != []
  {
    SetTimers(Rationalize(UpdateAssumed(s, now, timeout)), now, timeout, interval)
  }

  const INT_MAX: int := 0x7FFF_FFFF

  /** The conversion of an unsigned 64-bit number to `int`. */
  function ToInt(x: nat): int {
    var low := x % 0x1_0000_0000;
    if low <= INT_MAX then low else low - 0x1_0000_0000
  }

  /** How long the caller may sleep, once the timers are calculated. */
  function WaitTime(s: Sender, now: nat, hasAddr: bool): int {
    var wakeup := if s.nextSend < s.nextAck then s.nextSend else s.nextAck;
    if !hasAddr then INT_MAX else if wakeup > now then ToInt(wakeup - now) else 0
  }

  /** The place that is erased when the list has grown too long. */
  function CullPlace(len: nat): (k: nat)
    requires len > SENT_LIMIT
  {
    len - CULL_FROM_END
  }

  /** Beyond 32 entries, erase the sixteenth from the end. */
  function Culled(states: seq<Stamped>): (r: seq<Stamped>)
    ensures |states| <= SENT_LIMIT ==> r == states
    ensures |states| > SENT_LIMIT ==> |r| == |states| - 1
    ensures forall i :: 0 <= i < |r| ==>
              r[i] == states[if |states| > SENT_LIMIT && i >= CullPlace(|states|) then i + 1 else i]
  {
    if |states| > SENT_LIMIT then
      var k := CullPlace(|states|);
      states[..k] + states[k + 1..]
    else states
  }

  /** Append and cull. The iterator to the assumed state keeps pointing at its entry. */
  function AddSentState(s: Sender, e: Stamped): Sender {
    s.(sent := Culled(s.sent + [e]),
       assumed := if |s.sent| + 1 > SENT_LIMIT && CullPlace(|s.sent| + 1) < s.assumed then s.assumed - 1 else s.assumed)
  }

  /** The iterator to the assumed state survives the culling. */
  predicate AddSentStateAsserts(s: Sender) {
    && s.assumed < |s.sent|
    && (|s.sent| + 1 > SENT_LIMIT ==> CullPlace(|s.sent| + 1) != s.assumed)
  }

  function MakeInst(s: Sender, diff: UserMessage, newNum: nat, chaff: seq<Byte>): Inst
    requires s.sent != [] && s.assumed < |s.sent|
  {
    Inst(PROTOCOL_VERSION, s.sent[s.assumed].num, newNum, s.ackNum, s.Front().num, diff, chaff)
  }

  function AfterSend(s: Sender, newNum: nat): Sender {
    s.(shutdownTries := if newNum == MAX64 then s.shutdownTries + 1 else s.shutdownTries, pendingAck := false)
  }

  function EmptyAckNum(s: Sender): nat
    requires s.sent != []
  {
    if s.shutdown then MAX64 else Wrap(s.Back().num + 1)
  }

  function DataNum(s: Sender): nat
    requires s.sent != []
  {
    if s.shutdown then MAX64
    else if s.current == s.Back().state then s.Back().num
    else Wrap(s.Back().num + 1)
  }

  /** Both kinds of sending return the new sender and the instruction that goes out. */
  function SendEmptyAck(s: Sender, now: nat, chaff: seq<Byte>): (r: (Sender, Inst))
    requires s.sent != [] && AddSentStateAsserts(s)
  {
    var num := EmptyAckNum(s);
    var s1 := AddSentState(s, Stamped(now, num, s.current));
    (AfterSend(s1, num).(nextAck := Wrap(now + ACK_INTERVAL), nextSend := MAX64), MakeInst(s1, [], num, chaff))
  }

  function SendToReceiver(s: Sender, now: nat, diff: UserMessage, chaff: seq<Byte>): (r: (Sender, Inst))
    requires s.sent != [] && AddSentStateAsserts(s)
  {
    var num := DataNum(s);
    var s1 := if num == s.Back().num then s.(sent := s.sent[|s.sent| - 1 := s.Back().(timestamp := now)])
              else AddSentState(s, Stamped(now, num, s.current));
    (AfterSend(s1, num).(assumed := |s1.sent| - 1, nextAck := Wrap(now + ACK_INTERVAL), nextSend := MAX64),
     MakeInst(s1, diff, num, chaff))
  }

  /** Resend from the acknowledged state when that costs little. */
  predicate PrefersResend(proposed: UserMessage, resend: UserMessage) {
    || WireSize(resend) <= WireSize(proposed)
    || (WireSize(resend) < 1000 && WireSize(resend) - WireSize(proposed) < 100)
  }

  function ChooseBase(s: Sender): (r: (Sender, UserMessage))
    requires s.sent != [] && s.assumed < |s.sent|
    ensures r.0 == s.(assumed := r.0.assumed)
    ensures r.0.assumed == s.assumed || r.0.assumed == 0
    ensures r.0.assumed < |s.sent| && r.1 == Diff(s.current, s.sent[r.0.assumed].state)
  {
    var proposed := Diff(s.current, s.sent[s.assumed].state);
    var resend := Diff(s.current, s.Front().state);
    if s.assumed != 0 && PrefersResend(proposed, resend) then (s.(assumed := 0), resend) else (s, proposed)
  }

  /** What the environment supplies to one call of `tick`. */
  datatype TickInput = TickInput(now: nat, hasAddr: bool, timeout: nat, interval: nat, chaff: seq<Byte>)

  /** The diff base and the first sending check of `tick`. */
  predicate TickSends(s: Sender, t: TickInput)
    requires s.sent != []
  {
    var s1 := CalculateTimers(s, t.now, t.timeout, t.interval);
    t.hasAddr && !(t.now < s1.nextAck && t.now < s1.nextSend)
  }

  /** Both states that the current one may be compared with are prefixes of it. */
  ghost predicate DiffAsserts(s: Sender) {
    s.assumed < |s.sent| && s.sent[s.assumed].state <= s.current && s.Front().state <= s.current
  }

  ghost predicate TickAsserts(s: Sender, t: TickInput) {
    && TimersAsserts(s, t.now)
    && (TickSends(s, t) ==>
          var s1 := CalculateTimers(s, t.now, t.timeout, t.interval);
          DiffAsserts(s1) && AddSentStateAsserts(ChooseBase(s1).0))
  }

  /** The sending part of `tick`, once the base is chosen. */
  function SendChosen(s: Sender, diff: UserMessage, t: TickInput): (r: (Sender, Option<Inst>))
    requires s.sent != [] && AddSentStateAsserts(s)
  {
    if diff == [] then
      if t.now >= s.nextAck then
        var (s1, inst) := SendEmptyAck(s, t.now, t.chaff);
        (s1.(delayClock := MAX64), Some(inst))
      else
        (s.(nextSend := MAX64, delayClock := MAX64), None)
    else
      var (s1, inst) := SendToReceiver(s, t.now, diff, t.chaff);
      (s1.(delayClock := MAX64), Some(inst))
  }

  function Tick(s: Sender, t: TickInput): (r: (Sender, Option<Inst>))
    requires s.sent != []
  {
    var s1 := CalculateTimers(s, t.now, t.timeout, t.interval);
    if !TickSends(s, t) then (s1, None)
    else
      var (s2, diff) := ChooseBase(s1);
      if !AddSentStateAsserts(s2) then (s1, None) else SendChosen(s2, diff, t)
  }

  /** Acknowledgments of states no longer in the list are ignored. */
  function ProcessAck(sent: seq<Stamped>, ack: nat): seq<Stamped> {
    if Has(sent, ack) then KeepFrom(sent, ack) else sent
  }

  function StartShutdown(s: Sender, now: nat): Sender {
    if s.shutdown then s else s.(shutdown := true, shutdownStart := now)
  }

  /** `get_shutdown_acknowledged`. */
  predicate ShutdownAcknowledged(s: Sender)
    requires s.sent != []
  {
    s.Front().num == MAX64
  }

  /** `shutdown_ack_timed_out`. */
  predicate ShutdownTimedOut(s: Sender, now: nat) {
    s.shutdown && (s.shutdownTries >= SHUTDOWN_RETRIES || Wrap(now - s.shutdownStart) >= ACTIVE_RETRY_TIMEOUT)
  }

  // --------------------------------------------------------------- receiver

  datatype Receiver = Receiver(received: seq<Stamped>, quench: nat, last: Stream) {
    function Newest(): Stamped
      requires received != []
    {
      received[|received| - 1]
    }
  }

  /** A process: its sender, its receiver and its own monotone clock. */
  datatype Endpoint = Endpoint(snd: Sender, rcv: Receiver, clock: nat)

  /** The instruction is for a state not yet held, against a state still held. */
  predicate Applicable(received: seq<Stamped>, inst: Inst) {
    !Has(received, inst.newNum) && Has(received, inst.oldNum)
  }

  /** Throwing away leaves a state, and leaves the reference state about to be copied. */
  predicate RecvAsserts(r: Receiver, inst: Inst) {
    Applicable(r.received, inst) ==>
      var kept := KeepFrom(r.received, inst.throwawayNum);
      kept != [] && Has(kept, inst.oldNum)
  }

  predicate QueueFull(kept: seq<Stamped>, quench: nat, now: nat) {
    |kept| > RECEIVED_LIMIT && now < quench
  }

  /** A new state is stored; the acknowledgment moves only if it is the newest one. */
  function Accept(e: Endpoint, kept: seq<Stamped>, entry: Stamped, inst: Inst, now: nat): Endpoint {
    var quench := if |kept| > RECEIVED_LIMIT then Wrap(now + QUENCH_TIME) else e.rcv.quench;
    var rcv := Receiver(InsertSorted(kept, entry), quench, e.rcv.last);
    if FirstAbove(kept, entry.num) < |kept| then e.(rcv := rcv)
    else
      e.(rcv := rcv, snd := e.snd.(ackNum := entry.num, lastHeard := now,
                                   pendingAck := e.snd.pendingAck || inst.diff != []))
  }

  /** After throwing away: drop the instruction if the queue is full, else apply its diff
      to a copy of the reference state and store the result. */
  function Store(e: Endpoint, kept: seq<Stamped>, inst: Inst, now: nat): Endpoint {
    var k := IndexOf(kept, inst.oldNum);
    if QueueFull(kept, e.rcv.quench, now) || k == |kept| then e.(rcv := e.rcv.(received := kept))
    else Accept(e, kept, Stamped(now, inst.newNum, kept[k].state + Expand(inst.diff)), inst, now)
  }

  function Recv(e: Endpoint, inst: Inst, now: nat): Endpoint {
    if inst.version != PROTOCOL_VERSION then e
    else
      var e1 := e.(snd := e.snd.(sent := ProcessAck(e.snd.sent, inst.ackNum)));
      if !Applicable(e.rcv.received, inst) then e1
      else Store(e1, KeepFrom(e.rcv.received, inst.throwawayNum), inst, now)
  }

  ghost predicate FetchAsserts(r: Receiver) {
    && r.received != []
    && r.last <= r.Newest().state
    && AllExtend(r.received, r.received[0].state)
  }

  /** `get_remote_diff`: the receiver afterwards and the diff it returns. */
  function Fetch(r: Receiver): (x: (Receiver, UserMessage))
    requires r.received != []
  {
    var cut := CutAll(r.received, r.received[0].state);
    (r.(received := cut, last := cut[|cut| - 1].state), Diff(r.Newest().state, r.last))
  }

  function InitialEndpoint(now: nat): Endpoint {
    Endpoint(
      Sender([], [Stamped(now, 0, [])], 0, now, now, false, 0, MAX64, 0, false, 8, 0, MAX64),
      Receiver([Stamped(now, 0, [])], 0, []),
      now)
  }
}
