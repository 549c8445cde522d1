/** The synchronized state of mosh/src/statesync: a stream of user events that is only
    ever extended at the back and cut at the front, and whose diffs are messages of
    coalesced keystrokes and resizes. */
module UserStreams {
  import opened Options

  newtype Byte = x: int | 0 <= x < 0x100
  newtype Int32 = x: int | -0x8000_0000 <= x < 0x8000_0000


  datatype UserEvent = UserByte(c: Byte) | Resize(width: Int32, height: Int32)

  /** One protobuf instruction: both extensions are optional and independent. */
  datatype Instruction = Instruction(keystroke: Option<seq<Byte>>, resize: Option<(Int32, Int32)>)

  type Stream = seq<UserEvent>
  type UserMessage = seq<Instruction>

  // ---------------------------------------------------------------- meaning

  /** The events that a string of bytes stands for. */
  function BytesAsEvents(keys: seq<Byte>): (events: Stream)
    ensures |events| == |keys|
  {
    seq(|keys|, i requires 0 <= i < |keys| => UserByte(keys[i]))
  }

  /** The events one instruction stands for; an instruction with no extension is skipped. */
  function Meaning(i: Instruction): Stream {
    match i.keystroke
    case Some(keys) => BytesAsEvents(keys)
    case None =>
      match i.resize
      case Some(dims) => [Resize(dims.0, dims.1)]
      case None => []
  }

  /** The events a whole message stands for. */
  function Expand(m: UserMessage): Stream {
    if m == [] then [] else Expand(m[..|m| - 1]) + Meaning(m[|m| - 1])
  }

  // ------------------------------------------------------------- coalescing

  /** Add one event to a message, joining a keystroke to a preceding keystroke. */
  function AddEvent(m: UserMessage, e: UserEvent): (r: UserMessage)
    ensures r != []
  {
    match e
    case UserByte(c) =>
      if m != [] && m[|m| - 1].keystroke.Some? then
        var last := m[|m| - 1];
        m[..|m| - 1] + [last.(keystroke := Some(last.keystroke.value + [c]))]
      else
        m + [Instruction(Some([c]), None)]
    case Resize(w, h) => m + [Instruction(None, Some((w, h)))]
  }

  /** The message that `diff_from` writes for a list of events. */
  function Coalesce(events: Stream): UserMessage {
    if events == [] then [] else AddEvent(Coalesce(events[..|events| - 1]), events[|events| - 1])
  }

  /** What `diff_from` writes: the coalesced rest of `mine` after the prefix `existing`. */
  function Diff(mine: Stream, existing: Stream): UserMessage {
    if existing <= mine then Coalesce(mine[|existing|..]) else []
  }

  lemma ExpandAddEvent(m: UserMessage, e: UserEvent)
    ensures Expand(AddEvent(m, e)) == Expand(m) + [e]
  {
    var r := AddEvent(m, e);
    if e.UserByte? && m != [] && m[|m| - 1].keystroke.Some? {
      assert r[..|r| - 1] == m[..|m| - 1];
      assert Meaning(r[|r| - 1]) == Meaning(m[|m| - 1]) + [e];
    } else {
      assert r[..|r| - 1] == m;
      assert Meaning(r[|r| - 1]) == [e];
    }
  }

  /** A diff, applied, gives back exactly the events it was made from, and it is the empty
      message only for the empty list of events. */
  lemma {:induction false} CoalesceRoundTrip(events: Stream)
    ensures Expand(Coalesce(events)) == events
    ensures Coalesce(events) == [] <==> events == []
  {
    hide Meaning, AddEvent;
    if events != [] {
      var k := |events| - 1;
      var m := Coalesce(events[..k]);
      CoalesceRoundTrip(events[..k]);
      assert Coalesce(events) == AddEvent(m, events[k]);
      assert Expand(AddEvent(m, events[k])) == events[..k] + [events[k]] by {
        ExpandAddEvent(m, events[k]);
      }
      assert events[..k] + [events[k]] == events;
    }
  }

  /** The written form is canonical: exactly one extension each, no empty keystroke, and
      no two neighbouring keystrokes, so it is the shortest message with its meaning. */
  ghost predicate Canonical(m: UserMessage) {
    && (forall i :: 0 <= i < |m| ==> m[i].keystroke.Some? != m[i].resize.Some?)
    && (forall i :: 0 <= i < |m| && m[i].keystroke.Some? ==> m[i].keystroke.value != [])
    && (forall i :: 0 <= i < |m| - 1 ==> m[i].keystroke.None? || m[i + 1].keystroke.None?)
  }

  lemma {:induction false} CoalesceCanonical(events: Stream)
    ensures Canonical(Coalesce(events))
  {
    if events != [] {
      var k := |events| - 1;
      CoalesceCanonical(events[..k]);
      var m := Coalesce(events[..k]);
      var r := AddEvent(m, events[k]);
      assert forall i :: 0 <= i < |r| - 1 ==> r[i].resize == m[i].resize && r[i].keystroke == m[i].keystroke;
      if |r| == |m| {
        assert r[|r| - 1].resize == m[|m| - 1].resize;
        assert forall i :: 0 <= i < |r| ==> (r[i].keystroke.Some? <==> m[i].keystroke.Some?);
      }
    }
  }

  /** Two canonical messages with the same meaning are the same message. */
  lemma {:induction false} CanonicalUnique(m: UserMessage, n: UserMessage)
    requires Canonical(m) && Canonical(n) && Expand(m) == Expand(n)
    ensures m == n
    decreases |m|
  {
    hide Meaning, Expand, Canonical;
    NonemptyMeaning(m);
    NonemptyMeaning(n);
    if m == [] || n == [] {
    } else {
      LastGroupsEqual(m, n);
      InitCanonical(m);
      InitCanonical(n);
      CanonicalUnique(m[..|m| - 1], n[..|n| - 1]);
      assert m == m[..|m| - 1] + [m[|m| - 1]] && n == n[..|n| - 1] + [n[|n| - 1]];
    }
  }

  lemma SplitEqual(p: Stream, x: Stream, q: Stream, y: Stream)
    requires p + x == q + y && |p| == |q|
    ensures p == q && x == y
  {
    assert p == (p + x)[..|p|] && q == (q + y)[..|q|];
    assert x == (p + x)[|p|..] && y == (q + y)[|q|..];
  }

  lemma InitCanonical(m: UserMessage)
    requires Canonical(m) && m != []
    ensures Canonical(m[..|m| - 1])
  {
  }

  lemma LastCanonical(m: UserMessage)
    requires Canonical(m) && m != []
    ensures Canonical([m[|m| - 1]])
  {
  }

  lemma LastGroupsEqual(m: UserMessage, n: UserMessage)
    requires Canonical(m) && Canonical(n) && Expand(m) == Expand(n) && m != [] && n != []
    ensures m[|m| - 1] == n[|n| - 1]
    ensures Expand(m[..|m| - 1]) == Expand(n[..|n| - 1])
  {
    hide Meaning, Canonical;
    var a, b := m[|m| - 1], n[|n| - 1];
    var p, q := Expand(m[..|m| - 1]), Expand(n[..|n| - 1]);
    LongerTail(m, n);
    LongerTail(n, m);
    assert p + Meaning(a) == q + Meaning(b) && |p| == |q|;
    SplitEqual(p, Meaning(a), q, Meaning(b));
    LastCanonical(m);
    LastCanonical(n);
    SameMeaningSameGroup(a, b);
  }

  lemma SameMeaningSameGroup(a: Instruction, b: Instruction)
    requires Canonical([a]) && Canonical([b]) && Meaning(a) == Meaning(b)
    ensures a == b
  {
    assert [a][0] == a && [b][0] == b;
    if a.keystroke.Some? {
      assert Meaning(a)[0].UserByte?;
      assert forall i :: 0 <= i < |a.keystroke.value| ==>
        UserByte(a.keystroke.value[i]) == Meaning(a)[i] == Meaning(b)[i] == UserByte(b.keystroke.value[i]);
      assert a.keystroke.value == b.keystroke.value;
    } else {
      assert Meaning(a)[0].Resize?;
    }
  }

  lemma NonemptyMeaning(m: UserMessage)
    requires Canonical(m)
    ensures m != [] ==> Meaning(m[|m| - 1]) != []
    ensures Expand(m) == [] <==> m == []
  {
    if m != [] {
      assert |Meaning(m[|m| - 1])| >= 1;
    }
  }

  /** In a canonical message the event just before a trailing keystroke is not a byte. */
  lemma EndsOutsideRun(m: UserMessage)
    requires Canonical(m) && m != []
    ensures var p := Expand(m[..|m| - 1]);
            m[|m| - 1].keystroke.Some? && p != [] ==> p[|p| - 1].Resize?
  {
    var m' := m[..|m| - 1];
    if m[|m| - 1].keystroke.Some? && Expand(m') != [] {
      assert m'[|m'| - 1] == m[|m| - 2];
      assert m[|m| - 2].keystroke.None?;
    }
  }

  /** Canonical messages of equal meaning cannot split their last group at different places. */
  lemma LongerTail(m: UserMessage, n: UserMessage)
    requires Canonical(m) && Canonical(n) && m != [] && n != []
    requires Expand(m) == Expand(n)
    ensures |Expand(m[..|m| - 1])| >= |Expand(n[..|n| - 1])|
  {
    var p, q := Expand(m[..|m| - 1]), Expand(n[..|n| - 1]);
    var a, b := m[|m| - 1], n[|n| - 1];
    EndsOutsideRun(n);
    NonemptyMeaning(n);
    if a.keystroke.Some? {
      RunIsMaximal(p, Meaning(a), q, Meaning(b));
    } else {
      assert |Meaning(a)| == 1;
    }
  }

  /** A tail of bytes reaches no further back than a group that starts outside a run. */
  lemma RunIsMaximal(p: Stream, x: Stream, q: Stream, y: Stream)
    requires p + x == q + y && y != []
    requires forall i :: 0 <= i < |x| ==> x[i].UserByte?
    requires q != [] && y[0].UserByte? ==> q[|q| - 1].Resize?
    ensures |p| >= |q|
  {
    if q != [] {
      assert (q + y)[|q|] == y[0] && (q + y)[|q| - 1] == q[|q| - 1];
      assert forall i :: |p| <= i < |p + x| ==> (p + x)[i].UserByte?;
    }
  }

  // -------------------------------------------------------------- wire size

  function VarintSize(n: nat): (size: nat)
    ensures size >= 1
  {
    if n < 0x80 then 1 else 1 + VarintSize(n / 0x80)
  }

  /** Bytes of a length-delimited field with a one-byte tag. */
  function FieldSize(len: nat): (size: nat)
    ensures size >= 2 && size > len
  {
    1 + VarintSize(len) + len
  }

  /** Protobuf writes a negative int32 as a ten-byte varint. */
  function Int32Size(x: Int32): nat {
    if x < 0 then 10 else VarintSize(x as int)
  }

  function InstructionSize(i: Instruction): nat {
    (match i.keystroke case None => 0 case Some(keys) => FieldSize(FieldSize(|keys|)))
    + (match i.resize case None => 0 case Some(d) => FieldSize(2 + Int32Size(d.0) + Int32Size(d.1)))
  }

  /** The number of bytes `SerializeAsString` writes. */
  function WireSize(m: UserMessage): (size: nat)
    ensures size == 0 <==> m == []
  {
    if m == [] then 0 else WireSize(m[..|m| - 1]) + FieldSize(InstructionSize(m[|m| - 1]))
  }

  // ------------------------------------------------------------------ class

  /** The class of mosh/src/statesync/user.h. */
  class UserStream {
    var actions: Stream

    constructor ()
      ensures actions == []
    {
      actions := [];
    }

    method PushBack(e: UserEvent)
      modifies this
      ensures actions == old(actions) + [e]
    {
      actions := actions + [e];
    }

    /** Removes a prefix; `prefix` may be this very object. The asserted facts are the
        precondition: the other stream is a prefix of this one. */
    method Subtract(prefix: UserStream)
      requires prefix.actions <= actions
      modifies this
      ensures old(actions) == old(prefix.actions) + actions
      ensures prefix != this ==> prefix.actions == old(prefix.actions)
    {
      if this == prefix {
        actions := [];
        return;
      }
      var i := 0;
      while i < |prefix.actions|
        invariant 0 <= i <= |prefix.actions|
        invariant prefix.actions == old(prefix.actions)
        invariant actions == old(actions)[i..]
      {
        assert actions != [];
        assert prefix.actions[i] == actions[0];
        actions := actions[1..];
        i := i + 1;
      }
    }

    method DiffFrom(existing: UserStream) returns (output: UserMessage)
      requires existing.actions <= actions
      ensures Expand(output) == actions[|existing.actions|..]
      ensures output == Diff(actions, existing.actions)
    {
      var it := 0;
      while it < |existing.actions|
        invariant 0 <= it <= |existing.actions|
      {
        assert it < |actions|;
        assert existing.actions[it] == actions[it];
        it := it + 1;
      }
      var rest := actions[it..];
      output := [];
      ghost var done := 0;
      while it < |actions|
        invariant |existing.actions| <= it <= |actions|
        invariant done == it - |existing.actions|
        invariant output == Coalesce(rest[..done])
      {
        assert rest[..done + 1][..done] == rest[..done];
        match actions[it] {
          case UserByte(c) =>
            if output != [] && output[|output| - 1].keystroke.Some? {
              var last := output[|output| - 1];
              output := output[|output| - 1 := last.(keystroke := Some(last.keystroke.value + [c]))];
              assert output == AddEvent(Coalesce(rest[..done]), rest[done]);
            } else {
              output := output + [Instruction(Some([c]), None)];
            }
          case Resize(w, h) =>
            output := output + [Instruction(None, Some((w, h)))];
        }
        it := it + 1;
        done := done + 1;
      }
      assert rest[..done] == rest;
      CoalesceRoundTrip(rest);
    }

    method ApplyString(input: UserMessage)
      modifies this
      ensures actions == old(actions) + Expand(input)
    {
      var i := 0;
      while i < |input|
        invariant 0 <= i <= |input|
        invariant actions == old(actions) + Expand(input[..i])
      {
        assert input[..i + 1][..i] == input[..i];
        ghost var before := actions;
        if input[i].keystroke.Some? {
          var bytes := input[i].keystroke.value;
          var loc := 0;
          while loc < |bytes|
            invariant 0 <= loc <= |bytes|
            invariant actions == before + BytesAsEvents(bytes)[..loc]
          {
            actions := actions + [UserByte(bytes[loc])];
            loc := loc + 1;
          }
        } else if input[i].resize.Some? {
          actions := actions + [Resize(input[i].resize.value.0, input[i].resize.value.1)];
        }
        i := i + 1;
      }
      assert input[..i] == input;
    }
  }

  /** Copying a stream, applying a diff to the copy and comparing gives back the sender's
      stream: the exactness that the protocol relies on. */
  lemma DiffApply(mine: Stream, existing: Stream)
    requires existing <= mine
    ensures existing + Expand(Diff(mine, existing)) == mine
    ensures Diff(mine, existing) == [] <==> mine == existing
  {
    CoalesceRoundTrip(mine[|existing|..]);
  }
}
