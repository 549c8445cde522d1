/** Recovery over datagrams: a late tick, every fragment of what it sends in any order, and the application's request. */
module Deliveries {
  import opened Options
  import opened Protocol
  import opened Synchronization
  import opened Runs
  import opened Guarantees
  import opened Heartbeats
  import opened Recoveries
  import opened Fragments
  import opened Datagrams

  // ------------------------------------------------------------- one list of fragments

  /** The places of `n` fragments, each once. */
  ghost predicate Ordering(order: seq<nat>, n: nat) {
    && |order| == n
    && (forall i :: 0 <= i < n ==> order[i] < n)
    && (forall i, j :: 0 <= i < j < n ==> order[i] != order[j])
    && (forall k :: 0 <= k < n ==> k in order)
  }

  /** After `k` of the `n` fragments of a list. Until it is complete, all that came are there; afterwards, the first that
      came is not there any more. */
  ghost predicate Progress(a: Assembly, id: nat, n: nat, order: seq<nat>, k: nat, done: bool)
    requires k <= |order|
  {
    if done then k > 0 && a.id == id && (order[0] < |a.slots| ==> a.slots[order[0]].None?)
    else
      && (k > 0 ==> a.id == id)
      && forall i :: 0 <= i < k ==>
           order[i] < |a.slots| && a.slots[order[i]].Some? && (order[i] == n - 1 ==> a.total != -1)
  }

  /** What one fragment does to the places that matter. */
  lemma Added(a: Assembly, f: Fragment, list: seq<Fragment>)
    requires Numbered(list, f.id) && f.num < |list| && list[f.num] == f && (a.id == f.id ==> Collects(a, list))
    ensures var b := AddFragment(a, f).0;
            && b.id == f.id && f.num < |b.slots| && b.slots[f.num].Some? && (f.final ==> b.total != -1)
            && (a.id == f.id ==>
                  && (a.total != -1 ==> b.total != -1)
                  && (forall i :: 0 <= i < |a.slots| && a.slots[i].Some? ==> i < |b.slots| && b.slots[i].Some?)
                  && (forall i :: 0 <= i < |b.slots| && i != f.num && b.slots[i].Some? ==> i < |a.slots| && a.slots[i].Some?))
  {
    hide Count;
  }

  lemma AllCame(a: Assembly, id: nat, order: seq<nat>, n: nat)
    requires n > 0 && Ordering(order, n) && |a.slots| <= n && Progress(a, id, n, order, n, false)
    ensures a.total != -1 && forall i :: 0 <= i < |a.slots| ==> a.slots[i].Some?
  {
    forall k | 0 <= k < |a.slots|
      ensures a.slots[k].Some?
    {
      assert k in order;
    }
    assert n - 1 in order;
  }

  lemma AddProgress(a: Assembly, id: nat, list: seq<Fragment>, order: seq<nat>, k: nat, done: bool)
    requires Numbered(list, id) && Ordering(order, |list|) && k < |list|
    requires Progress(a, id, |list|, order, k, done) && (a.id == id ==> Collects(a, list))
    ensures var (b, complete) := AddFragment(a, list[order[k]]);
            if done then !complete && Progress(b, id, |list|, order, k + 1, true)
            else if complete then Progress(Emptied(b), id, |list|, order, k + 1, true)
            else k + 1 < |list| && Progress(b, id, |list|, order, k + 1, false)
  {
    hide Count, AddFragment, Complete;
    var f := list[order[k]];
    Added(a, f, list);
    AddCollects(a, f, list);
    var (b, complete) := AddFragment(a, f);
    if !done && k + 1 == |list| {
      AllCame(b, id, order, |list|);
    }
  }

  // ------------------------------------------------------------- one channel

  ghost predicate OnTheWay(ch: Channel, id: nat, inst: Inst) {
    id in ch.lists && id in ch.insts && ch.insts[id] == inst && Strings(ch.lists[id]) <= ch.net
  }

  lemma ChannelArrives(ch: Channel, id: nat, inst: Inst, order: seq<nat>, k: nat, done: bool, c: Codec)
    requires Lossless(c) && ChannelOk(ch, c) && OnTheWay(ch, id, inst)
    requires Ordering(order, |ch.lists[id]|) && k < |order| && Progress(ch.asm, id, |order|, order, k, done)
    ensures var x := ToString(ch.lists[id][order[k]]);
            && x in ch.net && ArriveAsserts(ch, x, c)
            && var (ch1, got) := Arrive(ch, x, c);
               && ch1 == ch.(asm := ch1.asm)
               && (got.Some? ==> !done && got.value == inst)
               && Progress(ch1.asm, id, |order|, order, k + 1, done || got.Some?)
               && (k + 1 == |order| ==> done || got.Some?)
  {
    hide AddFragment, ToString, Parse, Joined, Contents, Complete, AssemblyAsserts, Collects, Progress, Numbered;
    var list := ch.lists[id];
    assert ListOk(id, list, inst, c) && id <= MAX64;
    FragmentAt(list, id, order[k]);
    var x := ToString(list[order[k]]);
    assert x in Strings(list);
    ArriveKeeps(ch, x, c);
    AddProgress(ch.asm, id, list, order, k, done);
    assert Lossless(c) ==> c.decode(c.encode(inst)) == Some(inst);
  }

  lemma FragmentAt(list: seq<Fragment>, id: nat, i: nat)
    requires Numbered(list, id) && i < |list| && id <= MAX64
    ensures Parse(ToString(list[i])) == Some(list[i]) && list[i].id == id
  {
    hide Parse, ToString;
    ParseToString(list[i]);
  }

  // ------------------------------------------------------------- the whole system

  /** The datagrams of a list, arriving at `b` in the given order. */
  function Arrivals(list: seq<Fragment>, order: seq<nat>, now: nat): (r: seq<FullMove>)
    requires forall i :: 0 <= i < |order| ==> order[i] < |list|
    ensures |r| == |order|
  {
    seq(|order|, i requires 0 <= i < |order| => FullAtB(ArriveOver(ToString(list[order[i]]), now)))
  }

  /** Every run can be continued by any move that is enabled. */
  lemma FullExtended(frun: seq<Full>, fmoves: seq<FullMove>, m: FullMove, f1: Full, c: Codec)
    requires FullSound(frun, fmoves, c) && FullNext(frun[|fmoves|], m, f1, c) && FullFree(f1)
    ensures FullSound(frun + [f1], fmoves + [m], c)
  {
    hide FullNext, FullFree, Start;
  }

  /** Where the system is after `k` arrivals: in the channel only the assembly has changed, and the protocol has seen the
      instruction or not. */
  ghost predicate AfterArrivals(f: Full, f0: Full, s2: System, id: nat, order: seq<nat>, k: nat, done: bool)
    requires k <= |order|
  {
    && f == Full(if done then s2 else f0.sys, f0.ab.(asm := f.ab.asm), f0.ba)
    && Progress(f.ab.asm, id, |order|, order, k, done)
  }

  lemma OneArrives(f: Full, f0: Full, s2: System, id: nat, inst: Inst, order: seq<nat>, k: nat, done: bool, now: nat, c: Codec)
    returns (f1: Full, done1: bool)
    requires Lossless(c) && FullInv(f, c) && OnTheWay(f0.ab, id, inst)
    requires Ordering(order, |f0.ab.lists[id]|) && k < |order| && AfterArrivals(f, f0, s2, id, order, k, done)
    requires Asserts(f0.sys, AtB(DoRecv(inst, now))) && s2 == Step(f0.sys, AtB(DoRecv(inst, now)))
    requires f0.sys.b.clock <= now <= MAX64 && s2.b.clock <= now
    ensures FullNext(f, FullAtB(ArriveOver(ToString(f0.ab.lists[id][order[k]]), now)), f1, c)
    ensures AfterArrivals(f1, f0, s2, id, order, k + 1, done1) && (k + 1 == |order| ==> done1)
  {
    hide Progress, ToString, Arrive, ArriveAsserts, AssertsA, StepA, ChannelOk, DirectionOk;
    ChannelArrives(f.ab, id, inst, order, k, done, c);
    var x := ToString(f0.ab.lists[id][order[k]]);
    var (ch1, got) := Arrive(f.ab, x, c);
    f1 := Full(if got.Some? then s2 else f.sys, ch1, f.ba);
    done1 := done || got.Some?;
  }

  /** The first `k` datagrams arrive. */
  lemma {:induction false} ManyArrive(frun: seq<Full>, fmoves: seq<FullMove>, s2: System, id: nat, inst: Inst, order: seq<nat>,
                                      k: nat, now: nat, c: Codec)
    returns (longer: seq<Full>, done: bool)
    requires FullSound(frun, fmoves, c)
    requires var f0 := frun[|fmoves|];
             && FullInv(f0, c) && OnTheWay(f0.ab, id, inst) && Ordering(order, |f0.ab.lists[id]|) && k <= |order|
             && Asserts(f0.sys, AtB(DoRecv(inst, now))) && s2 == Step(f0.sys, AtB(DoRecv(inst, now)))
             && f0.sys.b.clock <= now <= MAX64 && s2.b.clock <= now && NumbersFree(s2)
    ensures |longer| == |frun| + k && longer[..|frun|] == frun
    ensures FullSound(longer, fmoves + Arrivals(frun[|fmoves|].ab.lists[id], order, now)[..k], c)
    ensures FullInv(longer[|fmoves| + k], c)
    ensures AfterArrivals(longer[|fmoves| + k], frun[|fmoves|], s2, id, order, k, done)
    ensures k == |order| > 0 ==> done
  {
    hide FullNext, Asserts, Step, FullInv, NumbersFree, Start;
    var n := |fmoves|;
    var f0 := frun[n];
    var moves := Arrivals(f0.ab.lists[id], order, now);
    if k == 0 {
      longer, done := frun, false;
      assert fmoves + moves[..0] == fmoves;
    } else {
      longer, done := ManyArrive(frun, fmoves, s2, id, inst, order, k - 1, now, c);
      var f := longer[n + k - 1];
      var f1, done1 := OneArrives(f, f0, s2, id, inst, order, k - 1, done, now, c);
      FullExtended(longer, fmoves + moves[..k - 1], moves[k - 1], f1, c);
      assert fmoves + moves[..k - 1] + [moves[k - 1]] == fmoves + moves[..k];
      FullNextRefines(f, moves[k - 1], f1, c);
      longer, done := longer + [f1], done1;
    }
  }

  // ------------------------------------------------------------- recovery

  lemma StepIds(f: Full, act: FullAction, c: Codec)
    requires FullEnabledA(f, act) && FullAssertsA(f, act, c) && f.ab.frag.nextId < MAX64
    ensures var f1 := FullStepA(f, act, c); f1.ab.frag.nextId <= f.ab.frag.nextId + 1 && f1.ba.frag == f.ba.frag
  {
    hide StepA, EnabledA, AssertsA, ArriveAsserts, AddFragment, Tick, FragmentsOf, Shadow;
  }

  /** Identifiers are used one by one. */
  lemma {:induction false} RunIds(frun: seq<Full>, fmoves: seq<FullMove>, c: Codec, n: nat)
    requires FullSound(frun, fmoves, c) && n <= |fmoves|
    ensures FullInv(frun[n], c) && frun[n].ab.frag.nextId <= n && frun[n].ba.frag.nextId <= n
  {
    hide FullInv, FullEnabledA, FullAssertsA, FullStepA, NumbersFree, Start;
    if n == 0 {
      StartFull(frun, fmoves, c);
    } else {
      RunIds(frun, fmoves, c, n - 1);
      var f := frun[n - 1];
      FullNextRefines(f, fmoves[n - 1], frun[n], c);
      match fmoves[n - 1]
      case FullAtA(act) => StepIds(f, act, c);
      case FullAtB(act) => StepIds(SwapFull(f), act, c);
    }
  }

  /** What a tick would send. */
  ghost function LateInst(f: Full, t: TickInput): Option<Inst> {
    if f.sys.a.snd.sent == [] then None else Tick(f.sys.a.snd, t).1
  }

  /** The fragments of what a tick would send; none if the encoding exceeds the compressor's buffer. */
  ghost function LateList(f: Full, t: TickInput, mtu: nat, c: Codec): seq<Fragment>
    requires mtu > HEADER_LEN
  {
    match LateInst(f, t)
    case None => []
    case Some(inst) =>
      if |c.encode(inst)| > PAYLOAD_LIMIT then []
      else FragmentsOf(NextFragmenter(f.ab.frag, inst, mtu - HEADER_LEN).nextId, c.encode(inst), mtu - HEADER_LEN)
  }

  lemma RecvClock(s: System, inst: Inst, now: nat, s1: System)
    requires Next(s, AtB(DoRecv(inst, now)), s1) && Asserts(s, AtB(DoRecv(inst, now)))
    ensures s.b.clock <= now <= MAX64 && s1.b.clock == now
  {
    hide Recv, ProcessAck, RecvAsserts;
  }

  /** The three moves of the protocol, one by one. */
  lemma LateMoves(run: seq<System>, moves: seq<Move>, t: TickInput)
    returns (s1: System, s2: System, s3: System, inst: Inst, now: nat)
    requires Sound(run, moves) && AllBrisk(moves) && |moves| + 3 < MAX64 - 1
    requires t.hasAddr && t.interval <= SEND_INTERVAL_MAX
    requires run[|moves|].a.clock + ACK_INTERVAL <= t.now && run[|moves|].a.clock + t.timeout + ACK_DELAY <= t.now <= MAX64
    ensures var s := run[|moves|];
            && s.a.snd.sent != [] && Tick(s.a.snd, t).1 == Some(inst)
            && Next(s, AtA(DoTick(t)), s1) && Next(s1, AtB(DoRecv(inst, now)), s2) && Next(s2, AtB(DoFetch), s3)
    ensures Asserts(s1, AtB(DoRecv(inst, now))) && s2 == Step(s1, AtB(DoRecv(inst, now)))
    ensures NumbersFree(s1) && NumbersFree(s2) && NumbersFree(s3) && Inv(s1) && Inv(s2) && s3.ab.delivered == Pushed(moves)
    ensures s1.b.clock <= now <= MAX64 && s2.b.clock == now
  {
    hide Inv, Asserts, Step, Next, NumbersFree, Start, Brisk, Tick, Delivered, Pushed;
    var longer;
    longer, inst, now := ThreeMoves(run, moves, t);
    var n := |moves|;
    var more := moves + [AtA(DoTick(t)), AtB(DoRecv(inst, now)), AtB(DoFetch)];
    s1, s2, s3 := longer[n + 1], longer[n + 2], longer[n + 3];
    assert longer[n] == run[n];
    assert more[n] == AtA(DoTick(t)) && more[n + 1] == AtB(DoRecv(inst, now)) && more[n + 2] == AtB(DoFetch);
    RunInv(longer, more, n + 1);
    RunInv(longer, more, n + 2);
    NextInv(s1, more[n + 1], s2);
    RecvClock(s1, inst, now, s2);
    RecordsTrue(longer, more, n + 3);
    assert more[..n + 3] == more;
  }

  /** What the tick would send fits in the compressor's buffer; otherwise the source throws an exception. */
  ghost predicate Encodable(f: Full, t: TickInput, c: Codec) {
    LateInst(f, t).Some? ==> |c.encode(LateInst(f, t).value)| <= PAYLOAD_LIMIT
  }

  /** The tick puts its fragments on the network. */
  lemma LateTick(f: Full, t: TickInput, mtu: nat, s1: System, inst: Inst, c: Codec) returns (f1: Full, id: nat)
    requires Lossless(c) && FullInv(f, c) && FullFree(f) && mtu >= MIN_MTU && Encodable(f, t, c)
    requires f.sys.a.snd.sent != [] && Tick(f.sys.a.snd, t).1 == Some(inst) && Next(f.sys, AtA(DoTick(t)), s1)
    ensures FullNext(f, FullAtA(TickOver(t, mtu)), f1, c) && f1.sys == s1 && f1.ba == f.ba && FullInv(f1, c)
    ensures OnTheWay(f1.ab, id, inst) && f1.ab.lists[id] == LateList(f, t, mtu, c) != []
    ensures f1.ab.frag.nextId <= f.ab.frag.nextId + 1 && f1.ab.asm == f.ab.asm
  {
    hide Inv, LinkedOk, StepA, AssertsA, Tick, FragmentsOf, Strings;
    InvNonempty(f.sys);
    FullStepAKeeps(f, TickOver(t, mtu), c);
    ShadowSteps(f, TickOver(t, mtu), c);
    f1 := FullStepA(f, TickOver(t, mtu), c);
    id := f1.ab.frag.nextId;
    EncodesSome(c, inst);
  }

  lemma EncodesSome(c: Codec, inst: Inst)
    requires Lossless(c)
    ensures c.encode(inst) != []
  {
    assert c.decode(c.encode(inst)) == Some(inst);
  }

  lemma LateFetch(f: Full, s3: System, c: Codec) returns (f3: Full)
    requires Next(f.sys, AtB(DoFetch), s3)
    ensures FullNext(f, FullAtB(Plain(DoFetch)), f3, c) && f3 == f.(sys := s3)
  {
    hide AssertsA, StepA;
    f3 := f.(sys := s3);
  }

  /** The tick and the arrivals. */
  lemma TickAndArrivals(frun: seq<Full>, fmoves: seq<FullMove>, t: TickInput, mtu: nat, order: seq<nat>, c: Codec,
                        s1: System, s2: System, inst: Inst, now: nat)
    returns (longer: seq<Full>)
    requires FullSound(frun, fmoves, c) && |fmoves| + 1 < MAX64 && mtu >= MIN_MTU
    requires var f := frun[|fmoves|];
             && Encodable(f, t, c) && Ordering(order, |LateList(f, t, mtu, c)|)
             && f.sys.a.snd.sent != [] && Tick(f.sys.a.snd, t).1 == Some(inst)
             && Next(f.sys, AtA(DoTick(t)), s1)
    requires Asserts(s1, AtB(DoRecv(inst, now))) && s2 == Step(s1, AtB(DoRecv(inst, now)))
    requires NumbersFree(s1) && NumbersFree(s2) && s1.b.clock <= now <= MAX64 && s2.b.clock == now
    ensures var list := LateList(frun[|fmoves|], t, mtu, c);
            var more := [FullAtA(TickOver(t, mtu))] + Arrivals(list, order, now);
            && list != [] && |longer| == |frun| + |more| && longer[..|frun|] == frun && FullSound(longer, fmoves + more, c)
            && longer[|fmoves + more|].sys == s2
  {
    hide Inv, Next, Asserts, Step, FullNext, FullInv, NumbersFree, Start, OnTheWay, LateList, Encodable, LateInst, Tick, Arrivals,
      Progress;
    var n := |fmoves|;
    RunIds(frun, fmoves, c, n);
    assert FullFree(frun[n]);
    var f1, id := LateTick(frun[n], t, mtu, s1, inst, c);
    var m0 := FullAtA(TickOver(t, mtu));
    FullExtended(frun, fmoves, m0, f1, c);
    var arrivals := Arrivals(LateList(frun[n], t, mtu, c), order, now);
    assert |fmoves + [m0]| == n + 1 && (frun + [f1])[n + 1] == f1;
    var done;
    longer, done := ManyArrive(frun + [f1], fmoves + [m0], s2, id, inst, order, |order|, now, c);
    assert fmoves + [m0] + arrivals[..|order|] == fmoves + ([m0] + arrivals);
    assert longer[..|frun|] == longer[..|frun| + 1][..|frun|] == frun;
  }

  /** What has been handed out can be read from the state. */
  lemma HandedOut(frun: seq<Full>, fmoves: seq<FullMove>, c: Codec)
    requires FullSound(frun, fmoves, c)
    ensures FullDelivered(frun, fmoves) == frun[|fmoves|].sys.ab.delivered
  {
    hide FullSound, Sound, FullDelivered, Delivered;
    var run, moves := RefinesProtocol(frun, fmoves, c, FullLength(frun, fmoves, c));
    assert fmoves[..|fmoves|] == fmoves && moves[..|moves|] == moves;
    RecordsTrue(run, moves, |moves|);
  }

  /** Recovery over datagrams. Whatever has happened, and however the network has behaved: if `a` calls `tick` late enough,
      and the datagrams that it then sends arrive, in any order, whatever the assembly of `b` had collected before, then
      `b` has handed out all that was produced at `a` once it is asked to. */
  lemma Recovery(frun: seq<Full>, fmoves: seq<FullMove>, t: TickInput, mtu: nat, order: seq<nat>, c: Codec)
    returns (longer: seq<Full>, now: nat)
    requires FullSound(frun, fmoves, c) && AllFullBrisk(fmoves) && |fmoves| + 3 < MAX64 - 1
    requires t.hasAddr && t.interval <= SEND_INTERVAL_MAX && mtu >= MIN_MTU
    requires var f := frun[|fmoves|];
             && f.sys.a.clock + ACK_INTERVAL <= t.now && f.sys.a.clock + t.timeout + ACK_DELAY <= t.now <= MAX64
             && Encodable(f, t, c) && Ordering(order, |LateList(f, t, mtu, c)|)
    ensures var list := LateList(frun[|fmoves|], t, mtu, c);
            var more := [FullAtA(TickOver(t, mtu))] + Arrivals(list, order, now) + [FullAtB(Plain(DoFetch))];
            && list != [] && |longer| == |frun| + |more| && longer[..|frun|] == frun && FullSound(longer, fmoves + more, c)
            && FullDelivered(longer, fmoves + more) == FullPushed(fmoves)
  {
    hide Inv, Next, Asserts, Step, FullNext, FullInv, NumbersFree, Start, Brisk, FullBrisk, Sound, LateList, Encodable, Pushed,
      FullPushed, FullDelivered, Arrivals, LateInst, Tick, Delivered;
    var n := |fmoves|;
    assert fmoves[..n] == fmoves;
    var run, moves := RefinesProtocol(frun, fmoves, c, n);
    var s1, s2, s3, inst;
    s1, s2, s3, inst, now := LateMoves(run, moves, t);
    longer := TickAndArrivals(frun, fmoves, t, mtu, order, c, s1, s2, inst, now);
    var more := [FullAtA(TickOver(t, mtu))] + Arrivals(LateList(frun[n], t, mtu, c), order, now);
    var m3 := FullAtB(Plain(DoFetch));
    var f2 := longer[|fmoves + more|];
    assert FullFree(f2);
    var f3 := LateFetch(f2, s3, c);
    FullExtended(longer, fmoves + more, m3, f3, c);
    longer := longer + [f3];
    assert fmoves + more + [m3] == fmoves + (more + [m3]);
    HandedOut(longer, fmoves + (more + [m3]), c);
  }
}
