/** The server's acknowledgment of user input: the newest input frame that is old enough to have been echoed. */
module EchoAcks {
  const ECHO_TIMEOUT := 50
  const TWO64 := 0x1_0000_0000_0000_0000

  type Word = x: int | 0 <= x < TWO64

  datatype Entry = Entry(num: Word, time: Word)
  datatype Echo = Echo(history: seq<Entry>, ack: Word)

  /** Unsigned subtraction. */
  function Minus(a: Word, b: Word): Word {
    (a - b) % TWO64
  }

  predicate Late(e: Entry, now: Word) {
    e.time <= Minus(now, ECHO_TIMEOUT)
  }

  /** The number of the last late entry, or 0. */
  function Newest(history: seq<Entry>, now: Word): Word {
    if history == [] then 0
    else
      var last := history[|history| - 1];
      if Late(last, now) then last.num else Newest(history[..|history| - 1], now)
  }

  /** The entries that are not older than `num`. */
  function NotBelow(history: seq<Entry>, num: Word): seq<Entry> {
    if history == [] then []
    else
      var last := history[|history| - 1];
      NotBelow(history[..|history| - 1], num) + if last.num < num then [] else [last]
  }

  function SetAck(s: Echo, now: Word): Echo {
    var newest := Newest(s.history, now);
    Echo(NotBelow(s.history, newest), newest)
  }

  function Register(s: Echo, num: Word, now: Word): Echo {
    s.(history := s.history + [Entry(num, now)])
  }

  class Complete {
    var inputHistory: seq<Entry>
    var echoAck: Word

    ghost function View(): Echo
      reads this
    {
      Echo(inputHistory, echoAck)
    }

    constructor ()
      ensures View() == Echo([], 0)
    {
      inputHistory, echoAck := [], 0;
    }

    method RegisterInputFrame(num: Word, now: Word)
      modifies this`inputHistory
      ensures View() == Register(old(View()), num, now)
    {
      inputHistory := inputHistory + [Entry(num, now)];
    }

    method FindNewest(now: Word) returns (newest: Word)
      ensures newest == Newest(inputHistory, now)
    {
      hide Minus;
      newest := 0;
      for i := 0 to |inputHistory|
        invariant newest == Newest(inputHistory[..i], now)
      {
        assert inputHistory[..i + 1][..i] == inputHistory[..i];
        if inputHistory[i].time <= Minus(now, ECHO_TIMEOUT) {
          newest := inputHistory[i].num;
        }
      }
      assert inputHistory[..|inputHistory|] == inputHistory;
    }

    /** Erases old entries, one at a time. */
    method EraseBelow(newest: Word)
      modifies this`inputHistory
      ensures inputHistory == NotBelow(old(inputHistory), newest)
    {
      hide NotBelow;
      ghost var history, kept, k := inputHistory, [], 0;
      EraseNone(newest);
      assert history[..0] == [] && [] + history[0..] == history;
      var i := 0;
      while i < |inputHistory|
        invariant i == |kept| && 0 <= k <= |history|
        invariant kept == NotBelow(history[..k], newest)
        invariant inputHistory == kept + history[k..]
        decreases |history| - k
      {
        EraseStep(history, k, newest);
        Around(kept, history, k);
        if inputHistory[i].num < newest {
          inputHistory := inputHistory[..i] + inputHistory[i + 1..];
        } else {
          kept := kept + [inputHistory[i]];
          i := i + 1;
        }
        k := k + 1;
      }
      assert history[..|history|] == history;
    }

    method SetEchoAck(now: Word) returns (ret: bool)
      modifies this
      ensures View() == SetAck(old(View()), now)
      ensures ret == (echoAck != old(echoAck))
    {
      ret := false;
      var newest := FindNewest(now);
      EraseBelow(newest);
      if echoAck != newest {
        ret := true;
      }
      echoAck := newest;
    }
  }

  lemma EraseNone(newest: Word)
    ensures NotBelow([], newest) == []
  {
  }

  /** The entry at the border of two parts. */
  lemma Around(kept: seq<Entry>, history: seq<Entry>, k: nat)
    requires k < |history|
    ensures var all := kept + history[k..];
            && all[|kept|] == history[k]
            && all[..|kept|] + all[|kept| + 1..] == kept + history[k + 1..]
            && all == kept + [history[k]] + history[k + 1..]
  {
  }

  lemma EraseStep(history: seq<Entry>, k: nat, newest: Word)
    requires k < |history|
    ensures NotBelow(history[..k + 1], newest)
         == NotBelow(history[..k], newest) + (if history[k].num < newest then [] else [history[k]])
  {
    assert history[..k + 1][..k] == history[..k];
  }

  // ---------------------------------------------------------------- runs

  datatype Occurrence = Input(num: Word, time: Word) | Tick(time: Word)

  function After(events: seq<Occurrence>): Echo {
    if events == [] then Echo([], 0)
    else
      var s, e := After(events[..|events| - 1]), events[|events| - 1];
      if e.Input? then Register(s, e.num, e.time) else SetAck(s, e.time)
  }

  /** Time does not go back, and input frames have increasing numbers. */
  ghost predicate Ordered(events: seq<Occurrence>) {
    && (forall i, j | 0 <= i < j < |events| :: events[i].time <= events[j].time)
    && (forall i, j | 0 <= i < j < |events| && events[i].Input? && events[j].Input? :: events[i].num < events[j].num)
  }

  ghost predicate From(events: seq<Occurrence>, start: Word) {
    forall i | 0 <= i < |events| :: start <= events[i].time
  }

  ghost predicate Increasing(history: seq<Entry>) {
    forall i, j | 0 <= i < j < |history| :: history[i].num < history[j].num
  }

  /** The acknowledged entry is still in the history. */
  ghost predicate Kept(s: Echo, now: Word) {
    s.ack == 0 || exists k :: 0 <= k < |s.history| && s.history[k].num == s.ack && Late(s.history[k], now)
  }

  /** All entries come from input events. */
  ghost predicate FromInputs(history: seq<Entry>, events: seq<Occurrence>) {
    forall k | 0 <= k < |history| :: Input(history[k].num, history[k].time) in events
  }

  /** The newest late entry is not older than any late one. */
  lemma {:induction false} NewestIsLatest(history: seq<Entry>, now: Word, k: nat)
    requires Increasing(history) && k < |history| && Late(history[k], now)
    ensures history[k].num <= Newest(history, now)
    decreases |history|
  {
    var last := |history| - 1;
    if !Late(history[last], now) {
      assert history[..last][k] == history[k];
      NewestIsLatest(history[..last], now, k);
    }
  }

  lemma {:induction false} NewestFound(history: seq<Entry>, now: Word)
    ensures var n := Newest(history, now);
            n == 0 || exists k :: 0 <= k < |history| && history[k].num == n && Late(history[k], now)
    decreases |history|
  {
    if history != [] {
      var last := |history| - 1;
      if !Late(history[last], now) {
        NewestFound(history[..last], now);
        var n := Newest(history, now);
        if n != 0 {
          var k :| 0 <= k < last && history[..last][k].num == n && Late(history[..last][k], now);
          assert history[k].num == n && Late(history[k], now);
        }
      }
    }
  }

  /** Nothing else than old entries is erased, and the order stays. */
  lemma {:induction false} NotBelowKeeps(history: seq<Entry>, num: Word)
    ensures forall e :: e in NotBelow(history, num) <==> e in history && num <= e.num
    ensures Increasing(history) ==> Increasing(NotBelow(history, num))
    decreases |history|
  {
    if history != [] {
      var front := history[..|history| - 1];
      NotBelowKeeps(front, num);
      assert history == front + [history[|history| - 1]];
      if Increasing(history) {
        assert Increasing(front);
        assert forall k | 0 <= k < |NotBelow(front, num)| :: NotBelow(front, num)[k] in front;
      }
    }
  }

  lemma StaysLate(e: Entry, now: Word, later: Word)
    requires Late(e, now) && ECHO_TIMEOUT <= now <= later
    ensures Late(e, later)
  {
  }

  lemma KeptLater(s: Echo, now: Word, later: Word)
    requires Kept(s, now) && ECHO_TIMEOUT <= now <= later
    ensures Kept(s, later)
  {
    if s.ack != 0 {
      var k :| 0 <= k < |s.history| && s.history[k].num == s.ack && Late(s.history[k], now);
      StaysLate(s.history[k], now, later);
    }
  }

  lemma SetAckKeeps(s: Echo, now: Word)
    requires Increasing(s.history) && Kept(s, now)
    ensures s.ack <= SetAck(s, now).ack && Kept(SetAck(s, now), now) && Increasing(SetAck(s, now).history)
  {
    hide Late;
    if s.ack != 0 {
      var k :| 0 <= k < |s.history| && s.history[k].num == s.ack && Late(s.history[k], now);
      NewestIsLatest(s.history, now, k);
    }
    var t := SetAck(s, now);
    NewestFound(s.history, now);
    NotBelowKeeps(s.history, t.ack);
    if t.ack != 0 {
      var k :| 0 <= k < |s.history| && s.history[k].num == t.ack && Late(s.history[k], now);
      assert s.history[k] in t.history;
    }
  }

  function LastTime(events: seq<Occurrence>): Word {
    if events == [] then ECHO_TIMEOUT else events[|events| - 1].time
  }

  lemma OrderedPrefix(events: seq<Occurrence>, n: nat)
    requires Ordered(events) && n <= |events|
    ensures Ordered(events[..n])
    ensures From(events, ECHO_TIMEOUT) ==> From(events[..n], ECHO_TIMEOUT)
  {
  }

  /** A registered frame has a larger number than all entries. */
  lemma RegisterKeeps(s: Echo, events: seq<Occurrence>, e: Occurrence)
    requires Ordered(events + [e]) && e.Input? && Increasing(s.history) && FromInputs(s.history, events)
    ensures Increasing(Register(s, e.num, e.time).history)
    ensures FromInputs(Register(s, e.num, e.time).history, events + [e])
  {
    var all := events + [e];
    forall k | 0 <= k < |s.history| ensures s.history[k].num < e.num {
      var input := Input(s.history[k].num, s.history[k].time);
      var i :| 0 <= i < |events| && events[i] == input;
      assert all[i] == input && all[|events|] == e;
    }
  }

  lemma RegisterKept(s: Echo, num: Word, time: Word, now: Word)
    requires Kept(s, now)
    ensures Kept(Register(s, num, time), now)
  {
    if s.ack != 0 {
      var k :| 0 <= k < |s.history| && s.history[k].num == s.ack && Late(s.history[k], now);
      assert Register(s, num, time).history[k] == s.history[k];
    }
  }

  lemma ErasedFromInputs(s: Echo, now: Word, events: seq<Occurrence>, e: Occurrence)
    requires FromInputs(s.history, events)
    ensures FromInputs(SetAck(s, now).history, events + [e])
  {
    var t := SetAck(s, now);
    NotBelowKeeps(s.history, t.ack);
    forall k | 0 <= k < |t.history| ensures Input(t.history[k].num, t.history[k].time) in events + [e] {
      assert t.history[k] in s.history;
    }
  }

  /** What every run keeps, and that its last step does not lower the acknowledgment. */
  lemma {:induction false} RunKeeps(events: seq<Occurrence>)
    requires Ordered(events) && From(events, ECHO_TIMEOUT)
    ensures var s := After(events);
            Increasing(s.history) && FromInputs(s.history, events) && Kept(s, LastTime(events))
    ensures events != [] ==> After(events[..|events| - 1]).ack <= After(events).ack
    decreases |events|
  {
    hide Ordered, Increasing, FromInputs, Kept, SetAck;
    if events == [] {
      EmptyKeeps();
    } else {
      var front, e := events[..|events| - 1], events[|events| - 1];
      assert events == front + [e];
      OrderedPrefix(events, |front|);
      RunKeeps(front);
      var s := After(front);
      assert LastTime(front) <= e.time by { TimeGoesOn(events); }
      KeptLater(s, LastTime(front), e.time);
      if e.Input? {
        RegisterKeeps(s, front, e);
        RegisterKept(s, e.num, e.time, e.time);
      } else {
        SetAckKeeps(s, e.time);
        ErasedFromInputs(s, e.time, front, e);
      }
    }
  }

  lemma EmptyKeeps()
    ensures Increasing([]) && FromInputs([], []) && Kept(Echo([], 0), ECHO_TIMEOUT)
  {
  }

  lemma TimeGoesOn(events: seq<Occurrence>)
    requires Ordered(events) && From(events, ECHO_TIMEOUT) && events != []
    ensures ECHO_TIMEOUT <= LastTime(events[..|events| - 1]) <= events[|events| - 1].time
  {
  }

  lemma {:induction false} NotLower(events: seq<Occurrence>, i: nat, j: nat)
    requires Ordered(events) && From(events, ECHO_TIMEOUT) && i <= j <= |events|
    ensures After(events[..i]).ack <= After(events[..j]).ack
    decreases j - i
  {
    if i < j {
      OrderedPrefix(events, j);
      RunKeeps(events[..j]);
      assert events[..j][..j - 1] == events[..j - 1];
      NotLower(events, i, j - 1);
    }
  }

  /** The acknowledgment never decreases in runs whose clock starts at `start` or later. */
  ghost predicate NeverDecreases(start: Word) {
    forall events, i, j | Ordered(events) && From(events, start) && 0 <= i <= j <= |events| ::
      After(events[..i]).ack <= After(events[..j]).ack
  }

  lemma AfterOne(events: seq<Occurrence>, e: Occurrence)
    ensures var s := After(events);
            After(events + [e]) == if e.Input? then Register(s, e.num, e.time) else SetAck(s, e.time)
  {
    assert (events + [e])[..|events|] == events;
  }

  lemma SetAckOne(e: Entry, ack: Word, now: Word)
    ensures SetAck(Echo([e], ack), now) == Echo([e], if Late(e, now) then e.num else 0)
  {
    hide Late;
    assert [e][..0] == [];
    assert Newest([], now) == 0 && NotBelow([], Newest([e], now)) == [];
    assert [] + [e] == [e];
  }

  /** Before the clock reaches the timeout, the subtraction wraps around and acknowledges too early. */
  lemma TooEarly(start: Word)
    requires start < ECHO_TIMEOUT
    ensures !NeverDecreases(start)
  {
    hide After, SetAck;
    var first, second := [Input(1, 49)], [Input(1, 49), Tick(49)];
    var events := [Input(1, 49), Tick(49), Tick(50)];
    assert [] + [Input(1, 49)] == first && first + [Tick(49)] == second && second + [Tick(50)] == events;
    AfterNone();
    AfterOne([], Input(1, 49));
    assert [] + [Entry(1, 49)] == [Entry(1, 49)];
    AfterOne(first, Tick(49));
    AfterOne(second, Tick(50));
    SetAckOne(Entry(1, 49), 0, 49);
    SetAckOne(Entry(1, 49), 1, 50);
    assert events[..3] == events && events[..2] == second;
    assert Ordered(events) && From(events, start);
    assert After(events[..2]).ack == 1 && After(events[..3]).ack == 0;
  }

  lemma AfterNone()
    ensures After([]) == Echo([], 0)
  {
  }

  /** Exactly the clocks that start at the timeout or later are safe. */
  lemma EchoAckMonotone(start: Word)
    ensures NeverDecreases(start) <==> ECHO_TIMEOUT <= start
  {
    hide Ordered;
    if start < ECHO_TIMEOUT {
      TooEarly(start);
    } else {
      forall events, i, j | Ordered(events) && From(events, start) && 0 <= i <= j <= |events|
        ensures After(events[..i]).ack <= After(events[..j]).ack
      {
        NotLower(events, i, j);
      }
    }
  }

  // ---------------------------------------------------------------- what is acknowledged

  /** An input that is no longer in the history is older than the acknowledged one. */
  ghost predicate NoneLost(s: Echo, events: seq<Occurrence>) {
    forall e | e in events && e.Input? :: Entry(e.num, e.time) in s.history || e.num < s.ack
  }

  lemma LostLater(s: Echo, now: Word, events: seq<Occurrence>, e: Occurrence)
    requires NoneLost(s, events) && e.Tick? && s.ack <= SetAck(s, now).ack
    ensures NoneLost(SetAck(s, now), events + [e])
  {
    NotBelowKeeps(s.history, SetAck(s, now).ack);
  }

  lemma {:induction false} RunLosesNone(events: seq<Occurrence>)
    requires Ordered(events) && From(events, ECHO_TIMEOUT)
    ensures NoneLost(After(events), events)
    decreases |events|
  {
    hide Ordered, SetAck;
    if events != [] {
      var front, e := events[..|events| - 1], events[|events| - 1];
      assert events == front + [e];
      OrderedPrefix(events, |front|);
      RunLosesNone(front);
      RunKeeps(events);
      if e.Tick? { LostLater(After(front), e.time, front, e); }
    }
  }

  /** After every tick of a run, the acknowledgment is the newest input that was registered 50 ms ago or more, or 0 if there
      is none. */
  lemma AckExactly(events: seq<Occurrence>, now: Word)
    requires Ordered(events + [Tick(now)]) && From(events + [Tick(now)], 50)
    ensures var ack := After(events + [Tick(now)]).ack;
            && (ack == 0 || exists e :: e in events && e.Input? && e.num == ack && e.time + 50 <= now)
            && forall e | e in events && e.Input? && e.time + 50 <= now :: e.num <= ack
  {
    hide Ordered, SetAck;
    var all := events + [Tick(now)];
    OrderedPrefix(all, |events|);
    assert all[..|events|] == events && all[|events|] == Tick(now);
    RunKeeps(all);
    RunKeeps(events);
    RunLosesNone(events);
    AfterOne(events, Tick(now));
    AckOfInputs(After(events), events, now);
  }

  lemma AckOfInputs(s: Echo, events: seq<Occurrence>, now: Word)
    requires Increasing(s.history) && FromInputs(s.history, events) && NoneLost(s, events) && 50 <= now
    requires s.ack <= SetAck(s, now).ack
    ensures var ack := SetAck(s, now).ack;
            && (ack == 0 || exists e :: e in events && e.Input? && e.num == ack && e.time + 50 <= now)
            && forall e | e in events && e.Input? && e.time + 50 <= now :: e.num <= ack
  {
    var ack := Newest(s.history, now);
    NewestFound(s.history, now);
    if ack != 0 {
      var k :| 0 <= k < |s.history| && s.history[k].num == ack && Late(s.history[k], now);
      assert Input(s.history[k].num, s.history[k].time) in events;
    }
    forall e | e in events && e.Input? && e.time + 50 <= now ensures e.num <= ack {
      if Entry(e.num, e.time) in s.history {
        var k :| 0 <= k < |s.history| && s.history[k] == Entry(e.num, e.time);
        NewestIsLatest(s.history, now, k);
      }
    }
  }
}
