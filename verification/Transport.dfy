/** The two classes that run the protocol, `TransportSender` and `Transport`, as they work:
    fields updated step by step, lists walked by position, entries erased and inserted in
    place. Each method is proved to compute its function in module Protocol. */
module TransportClasses {
  import opened Options
  import opened UserStreams
  import opened Protocol

  lemma KeepFromSnoc(states: seq<Stamped>, n: nat, num: nat)
    requires n < |states|
    ensures KeepFrom(states[..n + 1], num) ==
            KeepFrom(states[..n], num) + if states[n].num < num then [] else [states[n]]
  {
    assert states[..n + 1][..n] == states[..n];
  }

  lemma EraseAt(front: seq<Stamped>, rest: seq<Stamped>)
    requires rest != []
    ensures (front + rest)[..|front|] + (front + rest)[|front| + 1..] == front + rest[1..]
    ensures front + rest == front + [rest[0]] + rest[1..]
    ensures (front + rest)[|front|] == rest[0]
  {
  }

  /** Erase, while walking the list, every entry numbered below `num`. */
  method EraseBelow(states: seq<Stamped>, num: nat) returns (kept: seq<Stamped>)
    ensures kept == KeepFrom(states, num)
  {
    kept := states;
    var i := 0;
    ghost var seen, front, rest := 0, [], states;
    assert states[..0] == [] && KeepFrom([], num) == [];
    hide KeepFrom;
    while i < |kept|
      invariant 0 <= seen <= |states| && rest == states[seen..]
      invariant kept == front + rest && i == |front|
      invariant front == KeepFrom(states[..seen], num)
      decreases |rest|
    {
      KeepFromSnoc(states, seen, num);
      EraseAt(front, rest);
      if kept[i].num < num {
        kept := kept[..i] + kept[i + 1..];
      } else {
        i := i + 1;
        front := front + [rest[0]];
      }
      seen, rest := seen + 1, rest[1..];
    }
    assert states[..seen] == states;
  }

  /** Cut the first state out of all of them, from the back, the first one itself last. The
      prefix is read through the list each time, as through its address in the source. */
  method CutFromBack(states: seq<Stamped>) returns (cut: seq<Stamped>)
    requires states != [] && AllExtend(states, states[0].state)
    ensures cut == CutAll(states, states[0].state)
  {
    cut := states;
    var i := |states|;
    while i > 0
      invariant 0 <= i <= |states| == |cut|
      invariant forall j :: 0 <= j < i ==> cut[j] == states[j]
      invariant forall j :: i <= j < |states| ==> cut[j] == states[j].(state := Cut(states[j].state, states[0].state))
    {
      i := i - 1;
      assert cut[0].state <= cut[i].state;
      cut := cut[i := cut[i].(state := Cut(cut[i].state, cut[0].state))];
    }
  }

  /** A diff of two states; the older one has to be a prefix. */
  method DiffFrom(mine: Stream, existing: Stream) returns (diff: UserMessage)
    requires existing <= mine
    ensures diff == Diff(mine, existing)
  {
    var a := new UserStream();
    var b := new UserStream();
    a.actions, b.actions := mine, existing;
    diff := a.DiffFrom(b);
  }

  class TransportSender {
    var current: Stream
    var sent: seq<Stamped>
    var assumed: nat
    var nextAck: nat
    var nextSend: nat
    var shutdown: bool
    var shutdownTries: nat
    var shutdownStart: nat
    var ackNum: nat
    var pendingAck: bool
    var minDelay: nat
    var lastHeard: nat
    var delayClock: nat

    ghost function View(): Sender
      reads this
    {
      Sender(current, sent, assumed, nextAck, nextSend, shutdown, shutdownTries, shutdownStart,
             ackNum, pendingAck, minDelay, lastHeard, delayClock)
    }

    constructor (now: nat)
      ensures View() == InitialEndpoint(now).snd
    {
      current, sent, assumed, nextAck, nextSend := [], [Stamped(now, 0, [])], 0, now, now;
      shutdown, shutdownTries, shutdownStart, ackNum, pendingAck := false, 0, MAX64, 0, false;
      minDelay, lastHeard, delayClock := 8, 0, MAX64;
    }

    method UpdateAssumedReceiverState(now: nat, timeout: nat)
      requires sent != [] && forall i :: 1 <= i < |sent| ==> now >= sent[i].timestamp
      modifies this
      ensures View() == UpdateAssumed(old(View()), now, timeout)
    {
      assumed := 0;
      var i := 1;
      while i < |sent|
        invariant 1 <= i <= |sent| && sent == old(sent) && assumed == i - 1
        invariant View() == old(View()).(assumed := i - 1)
        invariant LastRecent(sent, 1, now, timeout) == LastRecent(sent, i, now, timeout)
      {
        assert now >= sent[i].timestamp;
        if Recent(sent[i], now, timeout) {
          assumed := i;
        } else {
          return;
        }
        i := i + 1;
      }
    }

    method RationalizeStates()
      requires sent != [] && sent[0].state <= current && AllExtend(sent, sent[0].state)
      modifies this
      ensures View() == Rationalize(old(View()))
    {
      current := Cut(current, sent[0].state);
      sent := CutFromBack(sent);
    }

    method CalculateTimers(now: nat, timeout: nat, interval: nat)
      requires TimersAsserts(View(), now)
      modifies this
      ensures View() == Protocol.CalculateTimers(old(View()), now, timeout, interval)
      ensures sent != [] && assumed < |sent|
    {
      hide LastRecent, Protocol.SetTimers;
      UpdateAssumedReceiverState(now, timeout);
      RationalizeStates();
      SetTimers(now, timeout, interval);
    }

    method WaitTime(now: nat, hasAddr: bool, timeout: nat, interval: nat) returns (wait: int)
      requires TimersAsserts(View(), now)
      modifies this
      ensures View() == Protocol.CalculateTimers(old(View()), now, timeout, interval)
      ensures wait == Protocol.WaitTime(View(), now, hasAddr)
    {
      hide Protocol.CalculateTimers;
      CalculateTimers(now, timeout, interval);
      var nextWakeup := nextAck;
      if nextSend < nextWakeup {
        nextWakeup := nextSend;
      }
      if !hasAddr {
        return INT_MAX;
      }
      if nextWakeup > now {
        return ToInt(nextWakeup - now);
      }
      return 0;
    }

    method SetTimers(now: nat, timeout: nat, interval: nat)
      requires sent != [] && assumed < |sent|
      modifies this
      ensures View() == Protocol.SetTimers(old(View()), now, timeout, interval)
      ensures sent == old(sent) && assumed == old(assumed)
    {
      hide Wrap, Max;
      var back := sent[|sent| - 1];
      if pendingAck && nextAck > Wrap(now + ACK_DELAY) {
        nextAck := Wrap(now + ACK_DELAY);
      }
      if current != back.state {
        if delayClock == MAX64 {
          delayClock := now;
        }
        nextSend := Max(Wrap(delayClock + minDelay), Wrap(back.timestamp + interval));
      } else if current != sent[assumed].state && Wrap(lastHeard + ACTIVE_RETRY_TIMEOUT) > now {
        nextSend := Wrap(back.timestamp + interval);
        if delayClock != MAX64 {
          nextSend := Max(nextSend, Wrap(delayClock + minDelay));
        }
      } else if current != sent[0].state && Wrap(lastHeard + ACTIVE_RETRY_TIMEOUT) > now {
        nextSend := Wrap(back.timestamp + timeout + ACK_DELAY);
      } else {
        nextSend := MAX64;
      }
      if shutdown || ackNum == MAX64 {
        nextAck := Wrap(back.timestamp + interval);
      }
    }

    method AddSentState(timestamp: nat, num: nat, state: Stream)
      requires AddSentStateAsserts(View())
      modifies this
      ensures View() == Protocol.AddSentState(old(View()), Stamped(timestamp, num, state))
    {
      sent := sent + [Stamped(timestamp, num, state)];
      if |sent| > SENT_LIMIT {
        var last := |sent|;
        var i := 0;
        while i < 16
          invariant 0 <= i <= 16 && last == |sent| - i
        {
          last := last - 1;
          i := i + 1;
        }
        sent := sent[..last] + sent[last + 1..];
        if last < assumed {
          assumed := assumed - 1;
        }
      }
    }

    method SendInFragments(diff: UserMessage, newNum: nat, chaff: seq<Byte>) returns (inst: Inst)
      requires sent != [] && assumed < |sent|
      modifies this
      ensures inst == MakeInst(old(View()), diff, newNum, chaff)
      ensures View() == AfterSend(old(View()), newNum)
    {
      inst := Inst(PROTOCOL_VERSION, sent[assumed].num, newNum, ackNum, sent[0].num, diff, chaff);
      if newNum == MAX64 {
        shutdownTries := shutdownTries + 1;
      }
      pendingAck := false;
    }

    method SendEmptyAck(now: nat, chaff: seq<Byte>) returns (inst: Inst)
      requires sent != [] && AddSentStateAsserts(View()) && now >= nextAck
      modifies this
      ensures (View(), inst) == Protocol.SendEmptyAck(old(View()), now, chaff)
      ensures nextSend == MAX64
    {
      hide Wrap, Culled, CullPlace;
      var newNum := Wrap(sent[|sent| - 1].num + 1);
      if shutdown {
        newNum := MAX64;
      }
      AddSentState(now, newNum, current);
      inst := SendInFragments([], newNum, chaff);
      nextAck := Wrap(now + ACK_INTERVAL);
      nextSend := MAX64;
    }

    method SendToReceiver(now: nat, diff: UserMessage, chaff: seq<Byte>) returns (inst: Inst)
      requires sent != [] && AddSentStateAsserts(View())
      modifies this
      ensures (View(), inst) == Protocol.SendToReceiver(old(View()), now, diff, chaff)
    {
      hide Wrap, Culled, CullPlace, MakeInst, Diff;
      var back := sent[|sent| - 1];
      var newNum;
      if current == back.state {
        newNum := back.num;
      } else {
        newNum := Wrap(back.num + 1);
      }
      if shutdown {
        newNum := MAX64;
      }
      if newNum == back.num {
        sent := sent[|sent| - 1 := back.(timestamp := now)];
      } else {
        AddSentState(now, newNum, current);
      }
      inst := SendInFragments(diff, newNum, chaff);
      assumed := |sent| - 1;
      nextAck := Wrap(now + ACK_INTERVAL);
      nextSend := MAX64;
    }

    method AttemptProspectiveResend(proposed: UserMessage) returns (diff: UserMessage)
      requires DiffAsserts(View()) && proposed == Diff(current, sent[assumed].state)
      modifies this
      ensures (View(), diff) == ChooseBase(old(View()))
    {
      diff := proposed;
      if assumed == 0 {
        return;
      }
      var resend := DiffFrom(current, sent[0].state);
      if PrefersResend(proposed, resend) {
        assumed := 0;
        diff := resend;
      }
    }

    method Tick(t: TickInput) returns (inst: Option<Inst>)
      requires TickAsserts(View(), t)
      modifies this
      ensures (View(), inst) == Protocol.Tick(old(View()), t)
    {
      hide Protocol.CalculateTimers, ChooseBase, Protocol.SendEmptyAck, Protocol.SendToReceiver, AddSentStateAsserts;
      inst := None;
      CalculateTimers(t.now, t.timeout, t.interval);
      if !t.hasAddr {
        return;
      }
      if t.now < nextAck && t.now < nextSend {
        return;
      }
      var diff := DiffFrom(current, sent[assumed].state);
      diff := AttemptProspectiveResend(diff);
      if diff == [] {
        if t.now >= nextAck {
          var i := SendEmptyAck(t.now, t.chaff);
          inst := Some(i);
          delayClock := MAX64;
        }
        if t.now >= nextSend {
          nextSend := MAX64;
          delayClock := MAX64;
        }
      } else if t.now >= nextSend || t.now >= nextAck {
        var i := SendToReceiver(t.now, diff, t.chaff);
        inst := Some(i);
        delayClock := MAX64;
      }
    }

    method ProcessAcknowledgmentThrough(ack: nat)
      modifies this
      ensures View() == old(View()).(sent := ProcessAck(old(sent), ack))
    {
      var i := 0;
      while i < |sent| && sent[i].num != ack
        invariant 0 <= i <= |sent| && View() == old(View())
        invariant forall j :: 0 <= j < i ==> sent[j].num != ack
      {
        i := i + 1;
      }
      if i < |sent| {
        assert sent[i].num == ack;
        sent := EraseBelow(sent, ack);
      }
    }

    method StartShutdown(now: nat)
      modifies this
      ensures View() == Protocol.StartShutdown(old(View()), now)
    {
      if !shutdown {
        shutdownStart := now;
        shutdown := true;
      }
    }

    method ShutdownAckTimedOut(now: nat) returns (out: bool)
      ensures out == ShutdownTimedOut(View(), now)
    {
      if shutdown {
        if shutdownTries >= SHUTDOWN_RETRIES {
          return true;
        } else if Wrap(now - shutdownStart) >= ACTIVE_RETRY_TIMEOUT {
          return true;
        }
      }
      return false;
    }
  }

  /** Both halves of an endpoint. */
  class Transport {
    const sender: TransportSender
    var received: seq<Stamped>
    var quench: nat
    var last: Stream
    ghost var clock: nat

    ghost function View(): Endpoint
      reads this, sender
    {
      Endpoint(sender.View(), Receiver(received, quench, last), clock)
    }

    constructor (now: nat)
      ensures View() == InitialEndpoint(now) && fresh(sender)
    {
      sender := new TransportSender(now);
      received, quench, last := [Stamped(now, 0, [])], 0, [];
      clock := now;
    }

    /** What `recv` does with an assembled instruction; false is the exception for a wrong
        protocol version. */
    method Recv(inst: Inst, now: nat) returns (ok: bool)
      requires RecvAsserts(Receiver(received, quench, last), inst)
      modifies this, sender
      ensures ok <==> inst.version == PROTOCOL_VERSION
      ensures View() == Protocol.Recv(old(View()), inst, now)
    {
      hide KeepFrom, ProcessAck, InsertSorted, FirstAbove, Expand, Wrap, Has;
      ok := inst.version == PROTOCOL_VERSION;
      if !ok {
        return;
      }
      sender.ProcessAcknowledgmentThrough(inst.ackNum);
      var found := Find(received, inst.newNum);
      if found < |received| {
        return;
      }
      var reference := Find(received, inst.oldNum);
      if reference == |received| {
        return;
      }
      ghost var before := received;
      received := EraseBelow(received, inst.throwawayNum);
      assert received != [];
      if |received| > RECEIVED_LIMIT && now < quench {
        return;
      }
      reference := Find(received, inst.oldNum);
      StoreNew(received[reference], inst, now);
    }

    /** The rest of `recv`: copy, apply, insert in order, and acknowledge a newest state. */
    method StoreNew(reference: Stamped, inst: Inst, now: nat)
      requires |received| > RECEIVED_LIMIT ==> now >= quench
      modifies this, sender
      ensures View() == Accept(old(View()), old(received),
                               Stamped(now, inst.newNum, reference.state + Expand(inst.diff)), inst, now)
    {
      hide Expand, Wrap, FirstAbove;
      if |received| > RECEIVED_LIMIT {
        quench := Wrap(now + QUENCH_TIME);
      }
      var entry := Stamped(now, inst.newNum, reference.state);
      EmptyMessage();
      if inst.diff != [] {
        entry := entry.(state := entry.state + Expand(inst.diff));
      }
      assert reference.state + [] == reference.state;
      var i := 0;
      while i < |received|
        invariant 0 <= i <= |received| == |old(received)|
        invariant View() == old(View()).(rcv := Receiver(old(received), quench, last))
        invariant forall j :: 0 <= j < i ==> received[j].num <= entry.num
        invariant quench == if |received| > RECEIVED_LIMIT then Wrap(now + QUENCH_TIME) else old(quench)
      {
        if received[i].num > entry.num {
          assert FirstAbove(received, entry.num) == i;
          received := received[..i] + [entry] + received[i..];
          return;
        }
        i := i + 1;
      }
      assert FirstAbove(received, entry.num) == |received|;
      assert received[..i] + [entry] + received[i..] == received + [entry];
      received := received + [entry];
      sender.ackNum := received[|received| - 1].num;
      sender.lastHeard := now;
      if inst.diff != [] {
        sender.pendingAck := true;
      }
    }

    method GetRemoteDiff() returns (diff: UserMessage)
      requires FetchAsserts(Receiver(received, quench, last))
      modifies this
      ensures (View().rcv, diff) == Fetch(old(View()).rcv)
      ensures View() == old(View()).(rcv := View().rcv)
    {
      hide Diff;
      diff := DiffFrom(received[|received| - 1].state, last);
      received := CutFromBack(received);
      last := received[|received| - 1].state;
    }
  }

  lemma EmptyMessage()
    ensures Expand([]) == []
  {
  }

  /** The loops that look for a number. */
  method Find(states: seq<Stamped>, num: nat) returns (i: nat)
    ensures i == IndexOf(states, num)
    ensures i <= |states| && (i < |states| <==> Has(states, num))
  {
    i := 0;
    while i < |states| && states[i].num != num
      invariant 0 <= i <= |states|
      invariant forall j :: 0 <= j < i ==> states[j].num != num
    {
      i := i + 1;
    }
  }
}
