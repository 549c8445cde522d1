/** The protocol over datagrams. Below the instructions of module Synchronization sit the
    fragmenter of the sender, a network of strings that loses, repeats and reorders, and the
    assembly of the receiver. Every run of this system is a run of the protocol alone. */
module Datagrams {
  import opened Options
  import opened UserStreams
  import opened Protocol
  import opened Synchronization
  import opened Runs
  import opened Guarantees
  import opened Heartbeats
  import opened Fragments

  /** One direction. `lists` and `insts` record what each identifier was used for. */
  datatype Channel = Channel(frag: FragmenterState, net: set<seq<Byte>>, asm: Assembly,
                             lists: map<nat, seq<Fragment>>, insts: map<nat, Inst>)

  const FRESH_CHANNEL: Channel := Channel(FRESH_FRAGMENTER, {}, FRESH_ASSEMBLY, map[], map[])

  function Strings(list: seq<Fragment>): set<seq<Byte>> {
    set i | 0 <= i < |list| :: ToString(list[i])
  }

  function Send(ch: Channel, inst: Inst, mtu: nat, c: Codec): Channel
    requires mtu > HEADER_LEN
  {
    var f := NextFragmenter(ch.frag, inst, mtu - HEADER_LEN);
    if |c.encode(inst)| > PAYLOAD_LIMIT then ch.(frag := f)
    else
      var list := FragmentsOf(f.nextId, c.encode(inst), mtu - HEADER_LEN);
      Channel(f, ch.net + Strings(list), ch.asm, ch.lists[f.nextId := list], ch.insts[f.nextId := inst])
  }

  predicate ArriveAsserts(ch: Channel, x: seq<Byte>, c: Codec) {
    && Parse(x).Some? && AssemblyAsserts(ch.asm, Parse(x).value)
    && var (asm, done) := AddFragment(ch.asm, Parse(x).value);
       done ==> Complete(asm) && c.decode(Joined(SlotContents(asm.slots))).Some?
  }

  /** A string arrives; the result is the instruction it completes, if any. */
  function Arrive(ch: Channel, x: seq<Byte>, c: Codec): (Channel, Option<Inst>)
    requires ArriveAsserts(ch, x, c)
  {
    var (asm, done) := AddFragment(ch.asm, Parse(x).value);
    if done then (ch.(asm := Emptied(asm)), c.decode(Joined(SlotContents(asm.slots))))
    else (ch.(asm := asm), None)
  }

  // -------------------------------------------------------------- invariant

  ghost predicate ListOk(id: nat, list: seq<Fragment>, inst: Inst, c: Codec) {
    Numbered(list, id) && Joined(Contents(list)) == c.encode(inst)
  }

  ghost predicate ListsOk(lists: map<nat, seq<Fragment>>, insts: map<nat, Inst>, nextId: nat, c: Codec) {
    && lists.Keys == insts.Keys
    && (forall id :: id in lists ==> id <= nextId && ListOk(id, lists[id], insts[id], c))
  }

  /** The identifier in use stands for the last instruction and size. */
  ghost predicate LastOk(f: FragmenterState, lists: map<nat, seq<Fragment>>, insts: map<nat, Inst>, c: Codec) {
    && f.nextId <= MAX64
    && (f.nextId in lists ==> f.nextId in insts && insts[f.nextId] == f.last && f.lastSize > 0
                              && lists[f.nextId] == FragmentsOf(f.nextId, c.encode(f.last), f.lastSize))
  }

  ghost predicate Carries(x: seq<Byte>, lists: map<nat, seq<Fragment>>) {
    && Parse(x).Some?
    && var f := Parse(x).value;
       f.id in lists && f.num < |lists[f.id]| && lists[f.id][f.num] == f
  }

  ghost predicate NetCarries(net: set<seq<Byte>>, lists: map<nat, seq<Fragment>>) {
    forall x :: x in net ==> Carries(x, lists)
  }

  ghost predicate AsmOk(a: Assembly, lists: map<nat, seq<Fragment>>) {
    if a.id in lists then Collects(a, lists[a.id]) else a == Assembly([], a.id, 0, -1)
  }

  ghost predicate ChannelOk(ch: Channel, c: Codec) {
    && ListsOk(ch.lists, ch.insts, ch.frag.nextId, c)
    && LastOk(ch.frag, ch.lists, ch.insts, c)
    && NetCarries(ch.net, ch.lists)
    && AsmOk(ch.asm, ch.lists)
  }

  lemma FreshChannelOk(c: Codec)
    ensures ChannelOk(FRESH_CHANNEL, c)
  {
  }

  /** Sending again under an identifier sends the same fragments again. */
  lemma SameIdSameList(ch: Channel, inst: Inst, size: nat, c: Codec)
    requires LastOk(ch.frag, ch.lists, ch.insts, c) && FragmenterAsserts(ch.frag, inst) && size > 0
    requires ListsOk(ch.lists, ch.insts, ch.frag.nextId, c) && ch.frag.nextId < MAX64
    ensures var f := NextFragmenter(ch.frag, inst, size);
            && ch.frag.nextId <= f.nextId <= ch.frag.nextId + 1
            && (f.nextId in ch.lists ==>
                  ch.insts[f.nextId] == inst && ch.lists[f.nextId] == FragmentsOf(f.nextId, c.encode(inst), size))
  {
    hide Chunks, FragmentsOf, ListOk;
  }

  lemma StringsCarried(id: nat, list: seq<Fragment>, lists: map<nat, seq<Fragment>>)
    requires id <= MAX64 && Numbered(list, id) && id in lists && lists[id] == list
    ensures NetCarries(Strings(list), lists)
  {
    hide ToString, Parse;
    forall x | x in Strings(list)
      ensures Carries(x, lists)
    {
      var i :| 0 <= i < |list| && x == ToString(list[i]);
      ParseToString(list[i]);
    }
  }

  lemma NetGrows(net: set<seq<Byte>>, lists: map<nat, seq<Fragment>>, id: nat, list: seq<Fragment>)
    requires NetCarries(net, lists) && (id in lists ==> lists[id] == list)
    ensures NetCarries(net, lists[id := list])
  {
    hide Parse;
  }

  lemma EmptyCollects(a: Assembly, list: seq<Fragment>)
    requires a == Assembly([], a.id, 0, -1)
    ensures Collects(a, list)
  {
  }

  lemma SendKeeps(ch: Channel, inst: Inst, mtu: nat, c: Codec)
    requires Lossless(c) && ChannelOk(ch, c) && FragmenterAsserts(ch.frag, inst)
    requires mtu >= MIN_MTU && ch.frag.nextId < MAX64
    ensures ChannelOk(Send(ch, inst, mtu, c), c)
    ensures var ch1 := Send(ch, inst, mtu, c);
            && ch1.frag.last == inst && ch1.insts.Values <= ch.insts.Values + {inst}
            && ch1.frag.nextId <= ch.frag.nextId + 1
  {
    hide NextFragmenter, FragmentsOf, ListOk, NetCarries, Collects;
    var size := mtu - HEADER_LEN;
    var f := NextFragmenter(ch.frag, inst, size);
    NextShape(ch.frag, inst, size);
    SameIdSameList(ch, inst, size, c);
    if |c.encode(inst)| <= PAYLOAD_LIMIT {
      var list := FragmentsOf(f.nextId, c.encode(inst), size);
      FragmentsFit(f.nextId, c.encode(inst), mtu);
      ListFits(f.nextId, list, inst, c);
      var lists := ch.lists[f.nextId := list];
      NetGrows(ch.net, ch.lists, f.nextId, list);
      StringsCarried(f.nextId, list, lists);
      NetJoin(ch.net, Strings(list), lists);
      if ch.asm.id == f.nextId && f.nextId !in ch.lists {
        EmptyCollects(ch.asm, list);
      }
    }
  }

  lemma NextShape(f: FragmenterState, inst: Inst, size: nat)
    ensures var f1 := NextFragmenter(f, inst, size); f1.last == inst && f1.lastSize == size
  {
  }

  lemma ListFits(id: nat, list: seq<Fragment>, inst: Inst, c: Codec)
    requires Numbered(list, id) && Joined(Contents(list)) == c.encode(inst)
    ensures ListOk(id, list, inst, c)
  {
  }

  lemma NetJoin(net: set<seq<Byte>>, more: set<seq<Byte>>, lists: map<nat, seq<Fragment>>)
    requires NetCarries(net, lists) && NetCarries(more, lists)
    ensures NetCarries(net + more, lists)
  {
    hide Carries;
  }

  /** Reassembly is sound: no assertion fails, and an assembled instruction is exactly one
      that was sent, whatever arrived in between. */
  lemma ArriveKeeps(ch: Channel, x: seq<Byte>, c: Codec)
    requires Lossless(c) && ChannelOk(ch, c) && x in ch.net
    ensures ArriveAsserts(ch, x, c)
    ensures var (ch1, done) := Arrive(ch, x, c);
            && ChannelOk(ch1, c)
            && ch1 == ch.(asm := ch1.asm)
            && (done.Some? ==> Parse(x).value.id in ch.insts && done.value == ch.insts[Parse(x).value.id])
  {
    hide Joined, Contents, Numbered, Complete, AssemblyAsserts, AddFragment, Parse;
    assert Carries(x, ch.lists);
    var f := Parse(x).value;
    var list := ch.lists[f.id];
    AddCollects(ch.asm, f, list);
    var (asm, done) := AddFragment(ch.asm, f);
    if done {
      CompleteSpells(asm, list);
      EmptyCollects(Emptied(asm), list);
    }
  }

  // --------------------------------------------------- the whole of two ends

  /** `ab` and `ba` are the channels below the links of the same name. */
  datatype Full = Full(sys: System, ab: Channel, ba: Channel)

  datatype FullAction =
    | Plain(act: Action)                       // anything that involves no datagram
    | TickOver(t: TickInput, mtu: nat)
    | ArriveOver(x: seq<Byte>, now: nat)       // one datagram arrives

  datatype FullMove = FullAtA(act: FullAction) | FullAtB(act: FullAction)

  function SwapFull(f: Full): Full {
    Full(Swap(f.sys), f.ba, f.ab)
  }

  ghost predicate FullEnabledA(f: Full, act: FullAction) {
    match act
    case Plain(p) => !p.DoTick? && !p.DoRecv? && EnabledA(f.sys, p)
    case TickOver(t, mtu) => EnabledA(f.sys, DoTick(t)) && mtu >= MIN_MTU
    case ArriveOver(x, now) => x in f.ba.net && f.sys.a.clock <= now <= MAX64
  }

  /** What the protocol alone does while the whole system takes a step. */
  ghost function Shadow(f: Full, act: FullAction, c: Codec): Option<Action>
    requires act.ArriveOver? ==> ArriveAsserts(f.ba, act.x, c)
  {
    match act
    case Plain(p) => Some(p)
    case TickOver(t, mtu) => Some(DoTick(t))
    case ArriveOver(x, now) =>
      match Arrive(f.ba, x, c).1
      case None => None
      case Some(inst) => Some(DoRecv(inst, now))
  }

  ghost predicate FullAssertsA(f: Full, act: FullAction, c: Codec) {
    && (act.ArriveOver? ==> ArriveAsserts(f.ba, act.x, c))
    && (Shadow(f, act, c).Some? ==> AssertsA(f.sys, Shadow(f, act, c).value))
    && (act.TickOver? ==> var inst := Tick(f.sys.a.snd, act.t).1;
                          inst.Some? ==> FragmenterAsserts(f.ab.frag, inst.value))
  }

  ghost function FullStepA(f: Full, act: FullAction, c: Codec): Full
    requires FullAssertsA(f, act, c) && (act.TickOver? ==> act.mtu > HEADER_LEN)
  {
    var shadow := Shadow(f, act, c);
    var sys := if shadow.Some? then StepA(f.sys, shadow.value) else f.sys;
    match act
    case Plain(p) => f.(sys := sys)
    case TickOver(t, mtu) =>
      var inst := Tick(f.sys.a.snd, t).1;
      Full(sys, if inst.Some? then Send(f.ab, inst.value, mtu, c) else f.ab, f.ba)
    case ArriveOver(x, now) => Full(sys, f.ab, Arrive(f.ba, x, c).0)
  }

  /** The channel has carried only instructions of its link. */
  ghost predicate LinkedOk(ch: Channel, net: set<Inst>, c: Codec) {
    && ChannelOk(ch, c)
    && ch.insts.Values <= net
    && (ch.frag.last in net || ch.frag.last == FRESH_FRAGMENTER.last)
  }

  ghost predicate FullInv(f: Full, c: Codec) {
    Inv(f.sys) && LinkedOk(f.ab, f.sys.ab.net, c) && LinkedOk(f.ba, f.sys.ba.net, c)
  }

  /** A diff is determined by the two numbers, so the fragmenter's assertion holds; at the
      start, where the remembered numbers are those of the shutdown state, because the diff
      from a state to itself is empty. */
  lemma DiffDetermined(x: Inst, y: Inst, hist: map<nat, Stream>, f1: nat, f2: nat)
    requires InstOk(x, hist, f1) && (InstOk(y, hist, f2) || y == FRESH_FRAGMENTER.last)
    requires x.oldNum == y.oldNum && x.newNum == y.newNum
    ensures x.diff == y.diff
  {
    if y == FRESH_FRAGMENTER.last {
      DiffApply(hist[x.newNum], hist[x.oldNum]);
    }
  }

  lemma TickOverKeeps(f: Full, t: TickInput, mtu: nat, c: Codec)
    requires Lossless(c) && FullInv(f, c) && FullEnabledA(f, TickOver(t, mtu))
    requires NumbersLeft(f.sys.a.snd) && f.ab.frag.nextId < MAX64
    ensures FullAssertsA(f, TickOver(t, mtu), c)
    ensures FullInv(FullStepA(f, TickOver(t, mtu), c), c)
  {
    hide DirectionOk, AssertsA, Tick, Send, ChannelOk, FragmenterAsserts, NumbersLeft;
    InvNonempty(f.sys);
    TickStepKeeps(f.sys, t);
    var inst := Tick(f.sys.a.snd, t).1;
    if inst.Some? {
      TickSendsAll(f.sys, t, inst.value);
      LastAgrees(StepA(f.sys, DoTick(t)), f.ab.frag, inst.value);
      SendKeeps(f.ab, inst.value, mtu, c);
    }
  }

  lemma LastAgrees(s: System, frag: FragmenterState, inst: Inst)
    requires Inv(s) && inst in s.ab.net
    requires frag.last in s.ab.net || frag.last == FRESH_FRAGMENTER.last
    ensures FragmenterAsserts(frag, inst)
  {
    hide SenderOk, ReceiverOk, AcksHeld, Diff;
    InvNonempty(s);
    var front := s.a.snd.Front().num;
    assert InstOk(inst, s.ab.hist, front);
    if inst.oldNum == frag.last.oldNum && inst.newNum == frag.last.newNum {
      DiffDetermined(inst, frag.last, s.ab.hist, front, front);
    }
  }

  lemma PlainKeeps(f: Full, p: Action, c: Codec)
    requires FullInv(f, c) && FullEnabledA(f, Plain(p)) && NumbersLeft(f.sys.a.snd)
    ensures FullAssertsA(f, Plain(p), c) && FullInv(FullStepA(f, Plain(p), c), c)
  {
    hide DirectionOk, AssertsA, ChannelOk, NumbersLeft, EnabledA, StepA;
    StepAKeeps(f.sys, p);
    PlainNets(f.sys, p);
  }

  /** Only a tick puts an instruction on the link. */
  lemma PlainNets(s: System, p: Action)
    requires AssertsA(s, p) && !p.DoTick?
    ensures StepA(s, p).ab.net == s.ab.net && StepA(s, p).ba.net == s.ba.net
  {
    hide CalculateTimers, Recv, Fetch, TimersAsserts, RecvAsserts, FetchAsserts, ProcessAck;
  }

  lemma ArriveOverKeeps(f: Full, x: seq<Byte>, now: nat, c: Codec)
    requires Lossless(c) && FullInv(f, c) && FullEnabledA(f, ArriveOver(x, now)) && NumbersLeft(f.sys.a.snd)
    ensures FullAssertsA(f, ArriveOver(x, now), c)
    ensures FullInv(FullStepA(f, ArriveOver(x, now), c), c)
    ensures var shadow := Shadow(f, ArriveOver(x, now), c); shadow.Some? ==> EnabledA(f.sys, shadow.value)
  {
    hide DirectionOk, AssertsA, Arrive, ArriveAsserts, ChannelOk, NumbersLeft, StepA;
    ArriveKeeps(f.ba, x, c);
    var done := Arrive(f.ba, x, c).1;
    if done.Some? {
      assert done.value in f.ba.insts.Values;
      StepAKeeps(f.sys, DoRecv(done.value, now));
      PlainNets(f.sys, DoRecv(done.value, now));
    }
  }

  lemma FullStepAKeeps(f: Full, act: FullAction, c: Codec)
    requires Lossless(c) && FullInv(f, c) && FullEnabledA(f, act)
    requires NumbersLeft(f.sys.a.snd) && f.ab.frag.nextId < MAX64
    ensures FullAssertsA(f, act, c) && FullInv(FullStepA(f, act, c), c)
    ensures Shadow(f, act, c).Some? ==> EnabledA(f.sys, Shadow(f, act, c).value)
  {
    hide FullInv, FullAssertsA, FullStepA, NumbersLeft, EnabledA;
    match act
    case Plain(p) => PlainKeeps(f, p, c);
    case TickOver(t, mtu) => TickOverKeeps(f, t, mtu, c);
    case ArriveOver(x, now) => ArriveOverKeeps(f, x, now, c);
  }

  // ------------------------------------------------------------- refinement

  ghost predicate FullAsserts(f: Full, m: FullMove, c: Codec) {
    match m
    case FullAtA(act) => FullAssertsA(f, act, c)
    case FullAtB(act) => FullAssertsA(SwapFull(f), act, c)
  }

  ghost predicate FullEnabled(f: Full, m: FullMove) {
    match m
    case FullAtA(act) => FullEnabledA(f, act)
    case FullAtB(act) => FullEnabledA(SwapFull(f), act)
  }

  ghost function FullStep(f: Full, m: FullMove, c: Codec): Full
    requires FullEnabled(f, m) && FullAsserts(f, m, c)
  {
    match m
    case FullAtA(act) => FullStepA(f, act, c)
    case FullAtB(act) => SwapFull(FullStepA(SwapFull(f), act, c))
  }

  ghost predicate FullNext(f: Full, m: FullMove, f1: Full, c: Codec) {
    FullEnabled(f, m) && (FullAsserts(f, m, c) ==> f1 == FullStep(f, m, c))
  }

  /** Neither side has used up its numbers or its fragment identifiers. */
  ghost predicate FullFree(f: Full) {
    NumbersFree(f.sys) && f.ab.frag.nextId < MAX64 && f.ba.frag.nextId < MAX64
  }

  ghost predicate FullSound(run: seq<Full>, moves: seq<FullMove>, c: Codec) {
    && Lossless(c)
    && |run| == |moves| + 1
    && Start(run[0].sys) && run[0].ab == FRESH_CHANNEL && run[0].ba == FRESH_CHANNEL
    && (forall i :: 0 <= i < |moves| ==> FullNext(run[i], moves[i], run[i + 1], c))
    && (forall i :: 0 <= i < |run| ==> FullFree(run[i]))
  }

  /** The protocol's view of a move. */
  ghost function ShadowMove(f: Full, m: FullMove, c: Codec): Option<Move>
    requires FullAsserts(f, m, c)
  {
    match m
    case FullAtA(act) => (match Shadow(f, act, c) case None => None case Some(p) => Some(AtA(p)))
    case FullAtB(act) => (match Shadow(SwapFull(f), act, c) case None => None case Some(p) => Some(AtB(p)))
  }

  lemma FullInvSwap(f: Full, c: Codec)
    requires FullInv(f, c)
    ensures FullInv(SwapFull(f), c)
  {
    hide Inv, LinkedOk;
    InvSwap(f.sys);
  }

  /** One move of the whole system is one move of the protocol, or none. */
  lemma FullNextRefines(f: Full, m: FullMove, f1: Full, c: Codec)
    requires Lossless(c) && FullInv(f, c) && FullFree(f) && FullNext(f, m, f1, c)
    ensures FullEnabled(f, m) && FullAsserts(f, m, c) && FullInv(f1, c)
    ensures match ShadowMove(f, m, c)
            case None => f1.sys == f.sys
            case Some(p) => Next(f.sys, p, f1.sys)
  {
    hide Inv, LinkedOk, FullAssertsA, StepA, EnabledA, AssertsA;
    InvNonempty(f.sys);
    match m
    case FullAtA(act) =>
      FullStepAKeeps(f, act, c);
      ShadowSteps(f, act, c);
    case FullAtB(act) =>
      FullInvSwap(f, c);
      FullStepAKeeps(SwapFull(f), act, c);
      ShadowSteps(SwapFull(f), act, c);
      FullInvSwap(FullStepA(SwapFull(f), act, c), c);
  }

  lemma ShadowSteps(f: Full, act: FullAction, c: Codec)
    requires FullEnabledA(f, act) && FullAssertsA(f, act, c)
    ensures var f1 := FullStepA(f, act, c);
            match Shadow(f, act, c)
            case None => f1.sys == f.sys
            case Some(p) => AssertsA(f.sys, p) && f1.sys == StepA(f.sys, p)
  {
    hide StepA, AssertsA, Send, Arrive, ArriveAsserts, Tick;
  }

  /** The events produced at `a`, and those handed out at `b`, over the whole system. */
  function FullPushed(moves: seq<FullMove>): Stream {
    if moves == [] then []
    else
      FullPushed(moves[..|moves| - 1]) + PushedBy(moves[|moves| - 1])
  }

  function PushedBy(m: FullMove): Stream {
    match m case FullAtA(Plain(Push(e))) => [e] case _ => []
  }

  ghost function DeliveredBy(f: Full, m: FullMove): Stream {
    if m == FullAtB(Plain(DoFetch)) && f.sys.b.rcv.received != [] then Expand(Fetch(f.sys.b.rcv).1) else []
  }

  ghost function FullDelivered(run: seq<Full>, moves: seq<FullMove>): Stream
    requires |moves| < |run|
  {
    if moves == [] then []
    else
      var n := |moves| - 1;
      FullDelivered(run, moves[..n]) + DeliveredBy(run[n], moves[n])
  }

  /** The send intervals of the whole system. */
  predicate FullBrisk(act: FullAction) {
    match act
    case Plain(p) => Brisk(p)
    case TickOver(t, mtu) => Brisk(DoTick(t))
    case ArriveOver(x, now) => true
  }

  predicate AllFullBrisk(moves: seq<FullMove>) {
    forall i | 0 <= i < |moves| :: FullBrisk(moves[i].act)
  }

  predicate AllBrisk(moves: seq<Move>) {
    forall i | 0 <= i < |moves| :: Brisk(moves[i].act)
  }

  lemma {:induction false} DeliveredPrefix(run: seq<System>, s: System, moves: seq<Move>)
    requires |moves| < |run|
    ensures Delivered(run + [s], moves) == Delivered(run, moves)
    decreases |moves|
  {
    hide Fetch;
    if moves != [] {
      DeliveredPrefix(run, s, moves[..|moves| - 1]);
    }
  }

  /** Adding one move to a run of the protocol. */
  lemma ExtendRun(run: seq<System>, moves: seq<Move>, m: Move, s: System)
    requires Sound(run, moves) && Next(run[|moves|], m, s) && NumbersFree(s)
    ensures Sound(run + [s], moves + [m])
    ensures Pushed(moves + [m]) == Pushed(moves) + (match m case AtA(Push(e)) => [e] case _ => [])
    ensures Delivered(run + [s], moves + [m]) == Delivered(run, moves) +
              if m == AtB(DoFetch) && run[|moves|].b.rcv.received != []
              then Expand(Fetch(run[|moves|].b.rcv).1) else []
  {
    hide Next, NumbersFree, Start, Fetch;
    assert (moves + [m])[..|moves|] == moves;
    DeliveredPrefix(run, s, moves);
  }

  /** One move of the whole system, added to a run of the protocol. */
  lemma RefinesOne(run: seq<System>, moves: seq<Move>, f: Full, m: FullMove, f1: Full, c: Codec)
    returns (run1: seq<System>, moves1: seq<Move>)
    requires Lossless(c) && FullInv(f, c) && FullFree(f) && FullNext(f, m, f1, c) && FullFree(f1)
    requires Sound(run, moves) && run[|moves|] == f.sys
    ensures FullAsserts(f, m, c) && FullInv(f1, c)
    ensures Sound(run1, moves1) && run1[|moves1|] == f1.sys && |moves1| <= |moves| + 1
    ensures Pushed(moves1) == Pushed(moves) + PushedBy(m)
    ensures Delivered(run1, moves1) == Delivered(run, moves) + DeliveredBy(f, m)
    ensures AllBrisk(moves) && FullBrisk(m.act) ==> AllBrisk(moves1)
  {
    hide Next, FullNext, FullAsserts, FullEnabled, NumbersFree, FullInv, Start, Fetch, ShadowMove, Enabled, Brisk, FullBrisk;
    FullNextRefines(f, m, f1, c);
    ShadowShape(f, m, c);
    run1, moves1 := run, moves;
    match ShadowMove(f, m, c) {
      case None =>
      case Some(p) =>
        ExtendRun(run, moves, p, f1.sys);
        run1, moves1 := run + [f1.sys], moves + [p];
    }
  }

  /** Refinement. For every run of the whole system there is a run of the protocol alone
      that ends in the same protocol state, with the same events produced and handed out;
      and no assertion of either layer fails. */
  lemma {:induction false} RefinesProtocol(frun: seq<Full>, fmoves: seq<FullMove>, c: Codec, n: nat)
    returns (run: seq<System>, moves: seq<Move>)
    requires FullSound(frun, fmoves, c) && n <= |fmoves|
    ensures Sound(run, moves) && run[|moves|] == frun[n].sys && |moves| <= n
    ensures Pushed(moves) == FullPushed(fmoves[..n])
    ensures Delivered(run, moves) == FullDelivered(frun, fmoves[..n])
    ensures FullInv(frun[n], c)
    ensures forall i :: 0 <= i < n ==> FullAsserts(frun[i], fmoves[i], c)
    ensures AllFullBrisk(fmoves) ==> AllBrisk(moves)
  {
    hide Next, FullNext, FullAsserts, FullEnabled, NumbersFree, FullInv, Start, Fetch, ShadowMove, Enabled, Brisk, FullBrisk,
      PushedBy, DeliveredBy;
    if n == 0 {
      run, moves := [frun[0].sys], [];
      StartFull(frun, fmoves, c);
    } else {
      run, moves := RefinesProtocol(frun, fmoves, c, n - 1);
      assert fmoves[..n][..n - 1] == fmoves[..n - 1];
      run, moves := RefinesOne(run, moves, frun[n - 1], fmoves[n - 1], frun[n], c);
    }
  }

  lemma StartFull(frun: seq<Full>, fmoves: seq<FullMove>, c: Codec)
    requires FullSound(frun, fmoves, c)
    ensures FullInv(frun[0], c) && Sound([frun[0].sys], [])
  {
    hide FullNext, ChannelOk, DirectionOk;
    StartInv(frun[0].sys);
    FreshChannelOk(c);
    assert FullFree(frun[0]);
  }

  /** The protocol's view keeps the application's part of a move as it is. */
  lemma ShadowShape(f: Full, m: FullMove, c: Codec)
    requires FullAsserts(f, m, c) && FullEnabled(f, m)
    ensures var p := ShadowMove(f, m, c);
            && (m.FullAtA? && m.act.Plain? ==> p == Some(AtA(m.act.act)))
            && (m.FullAtB? && m.act.Plain? ==> p == Some(AtB(m.act.act)))
            && (!m.act.Plain? ==> p.None? || p.value.act.DoTick? || p.value.act.DoRecv?)
            && (p.Some? && FullBrisk(m.act) ==> Brisk(p.value.act))
  {
    hide AssertsA, EnabledA, Arrive, ArriveAsserts, Tick;
  }

  /** End to end: over any network of datagrams, what has been handed out at one side is a
      prefix of what was produced at the other. */
  lemma EndToEnd(frun: seq<Full>, fmoves: seq<FullMove>, c: Codec)
    requires FullSound(frun, fmoves, c)
    ensures FullDelivered(frun, fmoves) <= FullPushed(fmoves)
  {
    hide Sound, FullSound;
    var run, moves := RefinesProtocol(frun, fmoves, c, FullLength(frun, fmoves, c));
    ExactlyOnceAll(run, moves);
    assert fmoves[..|fmoves|] == fmoves;
  }

  ghost function FullLength(frun: seq<Full>, fmoves: seq<FullMove>, c: Codec): (n: nat)
    requires FullSound(frun, fmoves, c)
    ensures n == |fmoves| && |frun| == n + 1
  {
    |fmoves|
  }

  lemma ExactlyOnceAll(run: seq<System>, moves: seq<Move>)
    requires Sound(run, moves)
    ensures Delivered(run, moves) <= Pushed(moves)
  {
    hide Next, NumbersFree, Start;
    ExactlyOnce(run, moves, |moves|);
    assert moves[..|moves|] == moves;
  }
}
