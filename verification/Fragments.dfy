/** Fragmentation and reassembly: mosh/src/network/transportfragment.cc. An instruction is
    encoded, cut into numbered fragments under an identifier, and put together again from
    whatever arrives. */
module Fragments {
  import opened Options
  import opened UserStreams
  import opened Protocol
  import opened BigEndian

  const HEADER_LEN: nat := 10
  const NUM_LIMIT: nat := 0x8000
  const PAYLOAD_LIMIT: nat := 2048 * 2048
  /** The smallest datagram size, less the overhead of packet and cipher. */
  const MIN_MTU: nat := 500 - 12 - 16

  /** Protobuf and zlib together: an encoding with an inverse, which never produces nothing. */
  datatype Codec = Codec(encode: Inst -> seq<Byte>, decode: seq<Byte> -> Option<Inst>)

  ghost predicate Lossless(c: Codec) {
    forall i :: c.decode(c.encode(i)) == Some(i) && c.encode(i) != []
  }

  datatype Fragment = Fragment(id: nat, num: nat, final: bool, contents: seq<Byte>)

  // -------------------------------------------------------------- wire form

  /** `tostring`; the fragment number must leave the top bit free. */
  function ToString(f: Fragment): seq<Byte> {
    Spell(f.id, 8) + Spell(f.num + if f.final then NUM_LIMIT else 0, 2) + f.contents
  }

  /** The parsing constructor; a string shorter than the header aborts. */
  function Parse(x: seq<Byte>): Option<Fragment> {
    if |x| < HEADER_LEN then None
    else
      var combined := Value(x[8..10]);
      Some(Fragment(Value(x[..8]), combined % NUM_LIMIT, combined >= NUM_LIMIT, x[10..]))
  }

  lemma ParseToString(f: Fragment)
    requires f.id <= MAX64 && f.num < NUM_LIMIT
    ensures Parse(ToString(f)) == Some(f)
    ensures |ToString(f)| == HEADER_LEN + |f.contents|
  {
    hide Spell, Value;
    Powers();
    var combined := f.num + if f.final then NUM_LIMIT else 0;
    SpellValue(f.id, 8);
    SpellValue(combined, 2);
    var x := ToString(f);
    assert x[..8] == Spell(f.id, 8) && x[8..10] == Spell(combined, 2) && x[10..] == f.contents;
  }

  /** On the wire: eight bytes of identifier, two bytes with the final bit above the number, and the contents. */
  lemma Layout(f: Fragment)
    requires f.id <= MAX64 && f.num < NUM_LIMIT
    ensures var x := ToString(f);
            && |x| == 10 + |f.contents| && x[10..] == f.contents && Value(x[..8]) == f.id
            && x[8] as int * 0x100 + x[9] as int == f.num + if f.final then 0x8000 else 0
  {
    Powers();
    SpellValue(f.id, 8);
    var x, combined := ToString(f), f.num + if f.final then NUM_LIMIT else 0;
    assert x[..8] == Spell(f.id, 8) && x[8] == Spell(combined, 2)[0] && x[9] == Spell(combined, 2)[1];
    assert Spell(combined / 256, 1)[0] as int == combined / 256;
  }

  /** Every string long enough is the string of exactly one fragment. */
  lemma ToStringParse(x: seq<Byte>)
    requires |x| >= HEADER_LEN
    ensures Parse(x).Some? && ToString(Parse(x).value) == x
    ensures Parse(x).value.id <= MAX64 && Parse(x).value.num < NUM_LIMIT
  {
    hide Spell, Value;
    Powers();
    ValueSpell(x[..8]);
    ValueSpell(x[8..10]);
    assert x == x[..8] + x[8..10] + x[10..];
  }

  // ---------------------------------------------------------- fragmentation

  /** The contents of the fragments: full ones, and what is left. */
  function Chunks(payload: seq<Byte>, size: nat): (c: seq<seq<Byte>>)
    requires size > 0
    ensures c == [] <==> payload == []
    ensures forall i :: 0 <= i < |c| ==> 0 < |c[i]| <= size
    decreases |payload|
  {
    if payload == [] then []
    else if |payload| <= size then [payload]
    else [payload[..size]] + Chunks(payload[size..], size)
  }

  function Joined(c: seq<seq<Byte>>): seq<Byte> {
    if c == [] then [] else Joined(c[..|c| - 1]) + c[|c| - 1]
  }

  lemma {:induction false} JoinedCons(x: seq<Byte>, c: seq<seq<Byte>>)
    ensures Joined([x] + c) == x + Joined(c)
    decreases |c|
  {
    if c == [] {
      assert ([x] + c)[..0] == [];
    } else {
      var n := |c| - 1;
      JoinedCons(x, c[..n]);
      assert ([x] + c)[..n + 1] == [x] + c[..n];
      assert x + (Joined(c[..n]) + c[n]) == (x + Joined(c[..n])) + c[n];
    }
  }

  /** Nothing is lost. */
  lemma {:induction false} ChunksJoin(payload: seq<Byte>, size: nat)
    requires size > 0
    ensures Joined(Chunks(payload, size)) == payload
    decreases |payload|
  {
    hide Joined;
    assert Joined([]) == [] by {
      EmptyJoined();
    }
    if |payload| > size {
      var rest := payload[size..];
      ChunksJoin(rest, size);
      JoinedCons(payload[..size], Chunks(rest, size));
      assert payload == payload[..size] + rest;
    } else if payload != [] {
      JoinedCons(payload, []);
      assert [payload] + [] == [payload];
    }
  }

  lemma EmptyJoined()
    ensures Joined([]) == []
  {
  }

  /** There are no more fragments than needed. */
  lemma {:induction false} ChunksCount(payload: seq<Byte>, size: nat)
    requires size >= MIN_MTU - HEADER_LEN && payload != []
    ensures (|Chunks(payload, size)| - 1) * (MIN_MTU - HEADER_LEN) < |payload|
    decreases |payload|
  {
    if |payload| > size {
      ChunksCount(payload[size..], size);
    }
  }

  /** The fragment list of a payload; the number is a 16-bit counter. */
  function FragmentsOf(id: nat, payload: seq<Byte>, size: nat): (r: seq<Fragment>)
    requires size > 0
    ensures r == [] <==> payload == []
  {
    var c := Chunks(payload, size);
    seq(|c|, i requires 0 <= i < |c| => Fragment(id, i % 0x1_0000, i == |c| - 1, c[i]))
  }

  /** A complete, correctly numbered list of fragments. */
  ghost predicate Numbered(list: seq<Fragment>, id: nat) {
    && 0 < |list| <= NUM_LIMIT
    && (forall i :: 0 <= i < |list| ==>
          list[i].id == id && list[i].num == i && (list[i].final <==> i == |list| - 1))
  }

  function Contents(list: seq<Fragment>): (c: seq<seq<Byte>>)
    ensures |c| == |list| && forall i :: 0 <= i < |c| ==> c[i] == list[i].contents
  {
    seq(|list|, i requires 0 <= i < |list| => list[i].contents)
  }

  /** For every payload the compressor can produce and every datagram size in use, the
      fragment number stays within 15 bits, every fragment fits, and the list spells the
      payload. */
  lemma FragmentsFit(id: nat, payload: seq<Byte>, mtu: nat)
    requires 0 < |payload| <= PAYLOAD_LIMIT && mtu >= MIN_MTU && id <= MAX64
    ensures var list := FragmentsOf(id, payload, mtu - HEADER_LEN);
            && Numbered(list, id)
            && Joined(Contents(list)) == payload
            && (forall i :: 0 <= i < |list| ==> |ToString(list[i])| <= mtu)
  {
    hide Joined, ToString;
    var size := mtu - HEADER_LEN;
    var c := Chunks(payload, size);
    ChunksJoin(payload, size);
    ChunksCount(payload, size);
    var list := FragmentsOf(id, payload, size);
    assert |list| == |c| <= NUM_LIMIT;
    assert forall i :: 0 <= i < |list| ==> list[i] == Fragment(id, i, i == |c| - 1, c[i]);
    assert Contents(list) == c;
    forall i | 0 <= i < |list|
      ensures |ToString(list[i])| <= mtu
    {
      ParseToString(list[i]);
    }
  }

  // ------------------------------------------------------------ identifiers

  datatype FragmenterState = FragmenterState(nextId: nat, last: Inst, lastSize: nat)

  const FRESH_FRAGMENTER: FragmenterState := FragmenterState(0, Inst(0, MAX64, MAX64, 0, 0, [], []), MAX64)

  /** Everything but the diff is compared. */
  predicate SameHeader(x: Inst, y: Inst) {
    x == y.(diff := x.diff)
  }

  function NextFragmenter(f: FragmenterState, inst: Inst, size: nat): FragmenterState {
    var same := SameHeader(inst, f.last) && f.lastSize == size;
    FragmenterState(if same then f.nextId else Wrap(f.nextId + 1), inst, size)
  }

  /** The same two states always have the same diff. */
  predicate FragmenterAsserts(f: FragmenterState, inst: Inst) {
    inst.oldNum == f.last.oldNum && inst.newNum == f.last.newNum ==> inst.diff == f.last.diff
  }

  class Fragmenter {
    var state: FragmenterState

    constructor ()
      ensures state == FRESH_FRAGMENTER
    {
      state := FRESH_FRAGMENTER;
    }

    /** None is the exception for an encoding that exceeds the compressor's buffer. */
    method MakeFragments(inst: Inst, mtu: nat, c: Codec) returns (r: Option<seq<Fragment>>)
      requires mtu > HEADER_LEN && FragmenterAsserts(state, inst)
      modifies this
      ensures state == NextFragmenter(old(state), inst, mtu - HEADER_LEN)
      ensures r == if |c.encode(inst)| > PAYLOAD_LIMIT then None
                   else Some(FragmentsOf(state.nextId, c.encode(inst), mtu - HEADER_LEN))
    {
      var size := mtu - HEADER_LEN;
      if !SameHeader(inst, state.last) || state.lastSize != size {
        state := state.(nextId := Wrap(state.nextId + 1));
      }
      state := state.(last := inst, lastSize := size);
      var payload := c.encode(inst);
      if |payload| > PAYLOAD_LIMIT {
        return None;
      }
      var list := SplitUp(state.nextId, payload, size);
      r := Some(list);
    }
  }

  /** The loop that takes fragments off the front of the payload. */
  method SplitUp(id: nat, whole: seq<Byte>, size: nat) returns (r: seq<Fragment>)
    requires size > 0
    ensures r == FragmentsOf(id, whole, size)
  {
    var payload := whole;
    ghost var c := Chunks(whole, size);
    var num := 0;
    r := [];
    ghost var n := 0;
    while payload != []
      invariant 0 <= n <= |c| && Chunks(payload, size) == c[n..]
      invariant num == n % 0x1_0000 && |r| == n
      invariant forall i :: 0 <= i < n ==> r[i] == Fragment(id, i % 0x1_0000, i == |c| - 1, c[i])
      decreases |payload|
    {
      var this_fragment, final;
      assert Chunks(payload, size)[0] == c[n];
      if |payload| > size {
        assert Chunks(payload, size)[1..] == Chunks(payload[size..], size);
        this_fragment, final := payload[..size], false;
        payload := payload[size..];
      } else {
        this_fragment, final := payload, true;
        payload := [];
      }
      r := r + [Fragment(id, num, final, this_fragment)];
      num := (num + 1) % 0x1_0000;
      n := n + 1;
      assert Chunks(payload, size) == c[n..];
    }
  }

  // ------------------------------------------------------------- reassembly

  datatype Assembly = Assembly(slots: seq<Option<Fragment>>, id: nat, arrived: int, total: int)

  const FRESH_ASSEMBLY: Assembly := Assembly([], MAX64, 0, -1)

  function Resized(slots: seq<Option<Fragment>>, n: nat): (r: seq<Option<Fragment>>)
    ensures |r| == n
    ensures forall i :: 0 <= i < n ==> r[i] == if i < |slots| then slots[i] else None
  {
    if n <= |slots| then slots[..n] else slots + seq(n - |slots|, i => None)
  }

  /** The first half of `add_fragment`: put the fragment in its place. */
  function Placed(a: Assembly, f: Fragment): Assembly {
    if a.id != f.id then
      Assembly(Resized([], f.num + 1)[f.num := Some(f)], f.id, 1, -1)
    else if f.num < |a.slots| && a.slots[f.num].Some? then a
    else
      var wider := if |a.slots| < f.num + 1 then Resized(a.slots, f.num + 1) else a.slots;
      a.(slots := wider[f.num := Some(f)], arrived := a.arrived + 1)
  }

  /** The second half: the final fragment tells how many there are. */
  function Closed(a: Assembly, f: Fragment): Assembly {
    if f.final then a.(slots := Resized(a.slots, f.num + 1), total := f.num + 1) else a
  }

  predicate AssemblyAsserts(a: Assembly, f: Fragment) {
    && (a.id == f.id && f.num < |a.slots| && a.slots[f.num].Some? ==> a.slots[f.num].value == f)
    && (f.final ==> |Placed(a, f).slots| <= f.num + 1)
    && var b := Closed(Placed(a, f), f); b.total != -1 ==> b.arrived <= b.total
  }

  function AddFragment(a: Assembly, f: Fragment): (Assembly, bool) {
    var b := Closed(Placed(a, f), f);
    (b, b.arrived == b.total)
  }

  /** `get_assembly`: the joined contents, and the emptied assembly, which keeps its identifier. */
  predicate Complete(a: Assembly) {
    a.arrived == a.total == |a.slots| && forall i :: 0 <= i < |a.slots| ==> a.slots[i].Some?
  }

  function SlotContents(slots: seq<Option<Fragment>>): (c: seq<seq<Byte>>)
    requires forall i :: 0 <= i < |slots| ==> slots[i].Some?
    ensures |c| == |slots| && forall i :: 0 <= i < |c| ==> c[i] == slots[i].value.contents
  {
    seq(|slots|, i requires 0 <= i < |slots| => slots[i].value.contents)
  }

  function Emptied(a: Assembly): Assembly {
    a.(slots := [], arrived := 0, total := -1)
  }

  class FragmentAssembly {
    var state: Assembly

    constructor ()
      ensures state == FRESH_ASSEMBLY
    {
      state := FRESH_ASSEMBLY;
    }

    method Add(f: Fragment) returns (done: bool)
      requires AssemblyAsserts(state, f)
      modifies this
      ensures (state, done) == AddFragment(old(state), f)
    {
      if state.id != f.id {
        state := Assembly(Resized([], f.num + 1)[f.num := Some(f)], f.id, 1, -1);
      } else if f.num < |state.slots| && state.slots[f.num].Some? {
        assert state.slots[f.num].value == f;
      } else {
        if |state.slots| < f.num + 1 {
          state := state.(slots := Resized(state.slots, f.num + 1));
        }
        state := state.(slots := state.slots[f.num := Some(f)], arrived := state.arrived + 1);
      }
      if f.final {
        assert |state.slots| <= f.num + 1;
        state := state.(total := f.num + 1, slots := Resized(state.slots, f.num + 1));
      }
      done := state.arrived == state.total;
    }

    method GetAssembly() returns (encoded: seq<Byte>)
      requires Complete(state)
      modifies this
      ensures encoded == Joined(SlotContents(old(state).slots))
      ensures state == Emptied(old(state))
    {
      encoded := [];
      var i := 0;
      ghost var c := SlotContents(state.slots);
      while i < state.total
        invariant 0 <= i <= |c| && state == old(state)
        invariant encoded == Joined(c[..i])
      {
        assert c[..i + 1][..i] == c[..i];
        encoded := encoded + state.slots[i].value.contents;
        i := i + 1;
      }
      assert c[..i] == c;
      state := Emptied(state);
    }
  }

  // -------------------------------------------------------- what is collected

  function Count(slots: seq<Option<Fragment>>): (n: nat)
    ensures n <= |slots|
  {
    if slots == [] then 0 else Count(slots[..|slots| - 1]) + if slots[|slots| - 1].Some? then 1 else 0
  }

  lemma {:induction false} CountFull(slots: seq<Option<Fragment>>)
    ensures Count(slots) == |slots| <==> forall i :: 0 <= i < |slots| ==> slots[i].Some?
  {
    if slots != [] {
      var n := |slots| - 1;
      CountFull(slots[..n]);
      assert forall i :: 0 <= i < n ==> slots[..n][i] == slots[i];
    }
  }

  lemma {:induction false} CountUpdate(slots: seq<Option<Fragment>>, k: nat, f: Fragment)
    requires k < |slots| && slots[k].None?
    ensures Count(slots[k := Some(f)]) == Count(slots) + 1
  {
    var n := |slots| - 1;
    if k == n {
      assert slots[k := Some(f)][..n] == slots[..n];
    } else {
      CountUpdate(slots[..n], k, f);
      assert slots[k := Some(f)][..n] == slots[..n][k := Some(f)];
    }
  }

  lemma {:induction false} CountWider(slots: seq<Option<Fragment>>, n: nat)
    requires n >= |slots|
    ensures Count(Resized(slots, n)) == Count(slots)
    decreases n
  {
    if n == |slots| {
      assert Resized(slots, n) == slots;
    } else {
      CountWider(slots, n - 1);
      assert Resized(slots, n)[..n - 1] == Resized(slots, n - 1);
    }
  }

  /** What has been collected belongs to one list of fragments. */
  ghost predicate Collects(a: Assembly, list: seq<Fragment>) {
    && |a.slots| <= |list|
    && (forall i :: 0 <= i < |a.slots| && a.slots[i].Some? ==> a.slots[i].value == list[i])
    && a.arrived == Count(a.slots)
    && (a.total == -1 || a.total == |a.slots| == |list|)
  }

  lemma PlacedCollects(a: Assembly, f: Fragment, list: seq<Fragment>)
    requires Numbered(list, f.id) && f.num < |list| && list[f.num] == f
    requires a.id == f.id ==> Collects(a, list)
    ensures Collects(Placed(a, f), list) && Placed(a, f).id == f.id
    ensures a.id == f.id && f.num < |a.slots| && a.slots[f.num].Some? ==> a.slots[f.num].value == f
  {
    hide Count, Numbered;
    if a.id != f.id {
      CountWider([], f.num + 1);
      CountUpdate(Resized([], f.num + 1), f.num, f);
      assert Count([]) == 0;
    } else if f.num < |a.slots| && a.slots[f.num].Some? {
    } else {
      var wider := if |a.slots| < f.num + 1 then Resized(a.slots, f.num + 1) else a.slots;
      CountWider(a.slots, |wider|);
      CountUpdate(wider, f.num, f);
    }
  }

  lemma ClosedCollects(a: Assembly, f: Fragment, list: seq<Fragment>)
    requires Numbered(list, f.id) && f.num < |list| && list[f.num] == f && Collects(a, list)
    ensures Collects(Closed(a, f), list)
    ensures f.final ==> |a.slots| <= f.num + 1
    ensures Closed(a, f).total != -1 ==> Closed(a, f).arrived <= Closed(a, f).total
  {
    hide Count;
    if f.final {
      CountWider(a.slots, f.num + 1);
    }
  }

  /** However fragments are lost, repeated, reordered or mixed with those of other lists, no
      assertion fails, and the assembly is complete exactly when every fragment of the list
      is there. */
  lemma AddCollects(a: Assembly, f: Fragment, list: seq<Fragment>)
    requires Numbered(list, f.id) && f.num < |list| && list[f.num] == f
    requires a.id == f.id ==> Collects(a, list)
    ensures AssemblyAsserts(a, f)
    ensures var (b, done) := AddFragment(a, f);
            && b.id == f.id && Collects(b, list)
            && (done ==> Complete(b) && |b.slots| == |list|)
            && (done <==> b.total != -1 && forall i :: 0 <= i < |b.slots| ==> b.slots[i].Some?)
  {
    hide Count, Numbered, Placed;
    PlacedCollects(a, f, list);
    ClosedCollects(Placed(a, f), f, list);
    CountFull(AddFragment(a, f).0.slots);
  }

  /** A complete assembly spells the payload of its list. */
  lemma CompleteSpells(a: Assembly, list: seq<Fragment>)
    requires Collects(a, list) && Complete(a) && |a.slots| == |list|
    ensures Joined(SlotContents(a.slots)) == Joined(Contents(list))
  {
    hide Joined;
    assert SlotContents(a.slots) == Contents(list);
  }
}
