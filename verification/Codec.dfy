/** That there are lossless codecs: one that writes numbers in unary, with the proof that no two instructions are
    written alike, whatever follows them. */
module Codecs {
  import opened Options
  import opened UserStreams
  import opened Protocol
  import opened Fragments

  function Unary(n: nat): seq<Byte> {
    if n == 0 then [0] else [1] + Unary(n - 1)
  }

  function Counted(s: seq<Byte>): seq<Byte> {
    Unary(|s|) + s
  }

  function Signed(x: Int32): seq<Byte> {
    Unary(x as int + 0x8000_0000)
  }

  function Keys(k: Option<seq<Byte>>): seq<Byte> {
    match k case None => [0] case Some(s) => [1] + Counted(s)
  }

  function Size(r: Option<(Int32, Int32)>): seq<Byte> {
    match r case None => [0] case Some(r) => [1] + (Signed(r.0) + Signed(r.1))
  }

  function One(i: Instruction): seq<Byte> {
    Keys(i.keystroke) + Size(i.resize)
  }

  function All(m: UserMessage): seq<Byte> {
    if m == [] then [0] else [1] + (One(m[0]) + All(m[1..]))
  }

  function Encode(i: Inst): seq<Byte> {
    Unary(i.version) + (Unary(i.oldNum) + (Unary(i.newNum) + (Unary(i.ackNum) + (Unary(i.throwawayNum)
    + (All(i.diff) + Counted(i.chaff))))))
  }

  lemma Shift(a: seq<Byte>, s: seq<Byte>)
    ensures ([1] + a) + s == [1] + (a + s) && ([1] + (a + s))[1..] == a + s
  {
  }

  lemma {:induction false} UnaryApart(a: nat, b: nat, s: seq<Byte>, t: seq<Byte>)
    requires Unary(a) + s == Unary(b) + t
    ensures a == b && s == t
  {
    assert (Unary(a) + s)[0] == (if a == 0 then 0 else 1) && (Unary(b) + t)[0] == (if b == 0 then 0 else 1);
    if a == 0 || b == 0 {
      assert s == (Unary(a) + s)[1..] && t == (Unary(b) + t)[1..];
    } else {
      Shift(Unary(a - 1), s);
      Shift(Unary(b - 1), t);
      UnaryApart(a - 1, b - 1, s, t);
    }
  }

  lemma Join(a: seq<Byte>, b: seq<Byte>, c: seq<Byte>)
    ensures (a + b) + c == a + (b + c)
  {
  }

  lemma CountedApart(a: seq<Byte>, b: seq<Byte>, s: seq<Byte>, t: seq<Byte>)
    requires Counted(a) + s == Counted(b) + t
    ensures a == b && s == t
  {
    hide Unary;
    Join(Unary(|a|), a, s);
    Join(Unary(|b|), b, t);
    UnaryApart(|a|, |b|, a + s, b + t);
    assert a == (a + s)[..|a|] && b == (b + t)[..|b|] && s == (a + s)[|a|..] && t == (b + t)[|b|..];
  }

  lemma SignedApart(a: Int32, b: Int32, s: seq<Byte>, t: seq<Byte>)
    requires Signed(a) + s == Signed(b) + t
    ensures a == b && s == t
  {
    UnaryApart(a as int + 0x8000_0000, b as int + 0x8000_0000, s, t);
  }

  lemma KeysApart(a: Option<seq<Byte>>, b: Option<seq<Byte>>, s: seq<Byte>, t: seq<Byte>)
    requires Keys(a) + s == Keys(b) + t
    ensures a == b && s == t
  {
    hide Counted;
    assert (Keys(a) + s)[0] == (if a.None? then 0 else 1) && (Keys(b) + t)[0] == (if b.None? then 0 else 1);
    if a.None? {
      assert s == (Keys(a) + s)[1..] && t == (Keys(b) + t)[1..];
    } else {
      Shift(Counted(a.value), s);
      Shift(Counted(b.value), t);
      CountedApart(a.value, b.value, s, t);
    }
  }

  lemma SizeApart(a: Option<(Int32, Int32)>, b: Option<(Int32, Int32)>, s: seq<Byte>, t: seq<Byte>)
    requires Size(a) + s == Size(b) + t
    ensures a == b && s == t
  {
    hide Signed;
    assert (Size(a) + s)[0] == (if a.None? then 0 else 1) && (Size(b) + t)[0] == (if b.None? then 0 else 1);
    if a.None? {
      assert s == (Size(a) + s)[1..] && t == (Size(b) + t)[1..];
    } else {
      Shift(Signed(a.value.0) + Signed(a.value.1), s);
      Shift(Signed(b.value.0) + Signed(b.value.1), t);
      Join(Signed(a.value.0), Signed(a.value.1), s);
      Join(Signed(b.value.0), Signed(b.value.1), t);
      SignedApart(a.value.0, b.value.0, Signed(a.value.1) + s, Signed(b.value.1) + t);
      SignedApart(a.value.1, b.value.1, s, t);
    }
  }

  lemma OneApart(a: Instruction, b: Instruction, s: seq<Byte>, t: seq<Byte>)
    requires One(a) + s == One(b) + t
    ensures a == b && s == t
  {
    hide Keys, Size;
    Join(Keys(a.keystroke), Size(a.resize), s);
    Join(Keys(b.keystroke), Size(b.resize), t);
    KeysApart(a.keystroke, b.keystroke, Size(a.resize) + s, Size(b.resize) + t);
    SizeApart(a.resize, b.resize, s, t);
  }

  lemma {:induction false} AllApart(a: UserMessage, b: UserMessage, s: seq<Byte>, t: seq<Byte>)
    requires All(a) + s == All(b) + t
    ensures a == b && s == t
  {
    hide One;
    assert (All(a) + s)[0] == (if a == [] then 0 else 1) && (All(b) + t)[0] == (if b == [] then 0 else 1);
    if a == [] {
      assert s == (All(a) + s)[1..] && t == (All(b) + t)[1..];
    } else {
      Shift(One(a[0]) + All(a[1..]), s);
      Shift(One(b[0]) + All(b[1..]), t);
      Join(One(a[0]), All(a[1..]), s);
      Join(One(b[0]), All(b[1..]), t);
      OneApart(a[0], b[0], All(a[1..]) + s, All(b[1..]) + t);
      AllApart(a[1..], b[1..], s, t);
      assert a == [a[0]] + a[1..] && b == [b[0]] + b[1..];
    }
  }

  /** No two instructions have the same encoding. */
  lemma EncodeApart(i: Inst, j: Inst)
    requires Encode(i) == Encode(j)
    ensures i == j
  {
    hide Unary, All, Counted;
    var e5, f5 := All(i.diff) + Counted(i.chaff), All(j.diff) + Counted(j.chaff);
    var e4, f4 := Unary(i.throwawayNum) + e5, Unary(j.throwawayNum) + f5;
    var e3, f3 := Unary(i.ackNum) + e4, Unary(j.ackNum) + f4;
    var e2, f2 := Unary(i.newNum) + e3, Unary(j.newNum) + f3;
    var e1, f1 := Unary(i.oldNum) + e2, Unary(j.oldNum) + f2;
    UnaryApart(i.version, j.version, e1, f1);
    UnaryApart(i.oldNum, j.oldNum, e2, f2);
    UnaryApart(i.newNum, j.newNum, e3, f3);
    UnaryApart(i.ackNum, j.ackNum, e4, f4);
    UnaryApart(i.throwawayNum, j.throwawayNum, e5, f5);
    AllApart(i.diff, j.diff, Counted(i.chaff), Counted(j.chaff));
    assert Counted(i.chaff) + [] == Counted(i.chaff) && Counted(j.chaff) + [] == Counted(j.chaff);
    CountedApart(i.chaff, j.chaff, [], []);
  }

  ghost function Decode(x: seq<Byte>): Option<Inst> {
    if exists i :: Encode(i) == x then var i :| Encode(i) == x; Some(i) else None
  }

  /** So a lossless codec can be had, and nothing that is proved under that hypothesis is empty. */
  lemma LosslessExists() returns (c: Codec)
    ensures Lossless(c)
  {
    hide Encode;
    c := Codec(Encode, Decode);
    forall i: Inst ensures c.decode(c.encode(i)) == Some(i) && c.encode(i) != [] {
      var x := Encode(i);
      assert exists j :: Encode(j) == x;
      EncodeApart(i, Decode(x).value);
      NotNothing(i);
    }
  }

  lemma NotNothing(i: Inst)
    ensures Encode(i) != []
  {
  }
}
