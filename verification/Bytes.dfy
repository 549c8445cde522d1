/** Numbers in network byte order. */
module BigEndian {
  import opened UserStreams

  function Pow256(n: nat): (p: nat)
    ensures p > 0
  {
    if n == 0 then 1 else 256 * Pow256(n - 1)
  }

  /** The number that a string of bytes spells, most significant byte first. */
  function Value(s: seq<Byte>): (v: nat)
  {
    if s == [] then 0 else 256 * Value(s[..|s| - 1]) + s[|s| - 1] as int
  }

  /** The last `n` bytes of a number. */
  function Spell(v: nat, n: nat): (s: seq<Byte>)
    ensures |s| == n
  {
    if n == 0 then [] else Spell(v / 256, n - 1) + [(v % 256) as Byte]
  }

  lemma {:induction false} SpellValue(v: nat, n: nat)
    requires v < Pow256(n)
    ensures Value(Spell(v, n)) == v
  {
    if n > 0 {
      SpellValue(v / 256, n - 1);
      assert Spell(v, n)[..n - 1] == Spell(v / 256, n - 1);
    }
  }

  lemma {:induction false} ValueSpell(s: seq<Byte>)
    ensures Value(s) < Pow256(|s|) && Spell(Value(s), |s|) == s
  {
    if s != [] {
      var init := s[..|s| - 1];
      ValueSpell(init);
      assert Value(s) / 256 == Value(init) && Value(s) % 256 == s[|s| - 1] as int;
      assert s == init + [s[|s| - 1]];
    }
  }

  lemma Powers()
    ensures Pow256(2) == 0x1_0000 && Pow256(8) == 0x1_0000_0000_0000_0000
  {
    assert Pow256(4) == 0x1_0000_0000;
    assert Pow256(6) == 0x1_0000_0000_0000;
  }
}
