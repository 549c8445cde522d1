/** The implementation in mosh/src/crypto/ocb_internal.cc: four blocks at a time, incremental,
    with a cached nonce and a table of L values, over pairs of 64-bit words. It is proved to
    compute what module Ocb defines. Blocks are in the order of their bits in memory, so the
    byte swaps of little-endian machines do not appear. */
module OcbCode {
  import opened Ocb

  type Word = w: Bits | |w| == 64 witness Zeros(64)

  // ------------------------------------------------------ word operations

  function Shl(w: Word, k: nat): Word
    requires k <= 64
  {
    w[k..] + Zeros(k)
  }

  function Shr(w: Word, k: nat): Word
    requires k <= 64
  {
    Zeros(k) + w[..64 - k]
  }

  function Or(x: Word, y: Word): (r: Word)
    ensures forall i :: 0 <= i < 64 ==> r[i] == (x[i] || y[i])
  {
    seq(64, i requires 0 <= i < 64 => x[i] || y[i])
  }

  /** The signed shift that spreads the top bit, masked with 135. */
  function TopMask135(l: Word): (r: Word)
    ensures forall i :: 0 <= i < 64 ==> r[i] == (l[0] && (i == 56 || i >= 61))
  {
    seq(64, i requires 0 <= i < 64 => l[0] && (i == 56 || i >= 61))
  }

  /** `double_block`. */
  function DoubleBlock(b: Block): Block {
    var l: Word, r: Word := b[..64], b[64..];
    Xor(Shl(l, 1), Shr(r, 63)) + Xor(Shl(r, 1), TopMask135(l))
  }

  /** Doubling word by word, with the carry between them, is doubling. */
  lemma DoubleBlockDoubles(b: Block)
    ensures DoubleBlock(b) == Double(b)
  {
    var l: Word, r: Word := b[..64], b[64..];
    var hi, lo := Xor(Shl(l, 1), Shr(r, 63)), Xor(Shl(r, 1), TopMask135(l));
    var mask := Zeros(120) + [true, false, false, false, false, true, true, true];
    assert forall i :: 0 <= i < 63 ==> hi[i] == b[i + 1];
    assert hi[63] == b[64];
    assert forall i :: 0 <= i < 63 ==> lo[i] == (b[i + 65] != (b[0] && (i == 56 || i >= 61)));
    assert lo[63] == b[0];
    assert forall i :: 0 <= i < 128 ==> mask[i] == (i == 120 || i >= 125);
    assert forall i :: 0 <= i < 128 ==> Double(b)[i] == (hi + lo)[i];
  }

  // ------------------------------------------------------------- offset 0

  /** The three words kept for a nonce. */
  datatype Ktop = Ktop(k0: Word, k1: Word, k2: Word)

  function MakeKtop(ktop: Block): Ktop {
    var k0: Word, k1: Word := ktop[..64], ktop[64..];
    Ktop(k0, k1, Xor(Xor(k0, Shl(k0, 8)), Shr(k1, 56)))
  }

  /** `gen_offset`; a shift by 64 is avoided as the source avoids it. */
  function GenOffset(k: Ktop, bot: nat): Block
    requires bot < 64
  {
    if bot != 0 then Or(Shl(k.k0, bot), Shr(k.k1, 64 - bot)) + Or(Shl(k.k1, bot), Shr(k.k2, 64 - bot))
    else k.k0 + k.k1
  }

  lemma ThirdWord(ktop: Block)
    ensures MakeKtop(ktop).k0 + MakeKtop(ktop).k1 + MakeKtop(ktop).k2 == Stretch(ktop)
  {
    var k := MakeKtop(ktop);
    assert k.k0 + k.k1 == ktop;
    assert forall i :: 0 <= i < 64 ==> ktop[8..72][i] == if i < 56 then k.k0[i + 8] else k.k1[i - 56];
    assert k.k2 == Xor(ktop[0..64], ktop[8..72]);
  }

  lemma JoinedShift(x: Word, y: Word, bot: nat)
    requires 0 < bot < 64
    ensures Or(Shl(x, bot), Shr(y, 64 - bot)) == (x + y)[bot..bot + 64]
  {
    var r, s := Or(Shl(x, bot), Shr(y, 64 - bot)), (x + y)[bot..bot + 64];
    assert forall i :: 0 <= i < 64 - bot ==> r[i] == x[i + bot] && s[i] == x[i + bot];
    assert forall i :: 64 - bot <= i < 64 ==> r[i] == y[i + bot - 64] && s[i] == y[i + bot - 64];
  }

  /** The shifted words are the window of the stretched string. */
  lemma GenOffsetWindow(ktop: Block, bot: nat)
    requires bot < 64
    ensures GenOffset(MakeKtop(ktop), bot) == Stretch(ktop)[bot..bot + 128]
  {
    hide Shl, Shr, MakeKtop, Stretch;
    var k := MakeKtop(ktop);
    ThirdWord(ktop);
    var s := k.k0 + k.k1 + k.k2;
    if bot != 0 {
      JoinedShift(k.k0, k.k1, bot);
      JoinedShift(k.k1, k.k2, bot);
      assert (k.k0 + k.k1)[bot..bot + 64] == s[bot..bot + 64];
      assert (k.k1 + k.k2)[bot..bot + 64] == s[bot + 64..bot + 128];
      assert s[bot..bot + 128] == s[bot..bot + 64] + s[bot + 64..bot + 128];
    } else {
      assert s[0..128] == k.k0 + k.k1;
    }
  }

  /** What is cached: the formatted nonce with its last six bits cleared. */
  function TopOf(nonce: Bits): Block
    requires |nonce| == 96
  {
    FormattedNonce(nonce)[..122] + Zeros(6)
  }

  /** The formatted nonce carries a one bit, so it is never the initial value of the cache. */
  lemma TopNotZero(nonce: Bits)
    requires |nonce| == 96
    ensures TopOf(nonce) != ZERO
  {
    assert TopOf(nonce)[31];
  }

  // --------------------------------------------------- numbers of a batch

  lemma OddNtz(k: nat)
    ensures Ntz(2 * k + 1) == 0
  {
    assert (2 * k + 1) % 2 == 1;
  }

  lemma EvenNtz(k: nat)
    requires 0 < k
    ensures Ntz(2 * k) == 1 + Ntz(k)
  {
    assert (2 * k) % 2 == 0 && (2 * k) / 2 == k;
  }

  lemma NtzInBatch(n: nat)
    requires n % 4 == 0
    ensures Ntz(n + 1) == 0 && Ntz(n + 2) == 1 && Ntz(n + 3) == 0
  {
    hide Ntz;
    var k := n / 4;
    assert n == 4 * k;
    OddNtz(2 * k);
    OddNtz(2 * k + 1);
    OddNtz(k);
    EvenNtz(2 * k + 1);
  }

  /** Every index into the table of sixteen values is in range below 2^16 blocks. */
  lemma {:induction false} NtzBound(i: nat, k: nat)
    requires 0 < i < Pow2(k)
    ensures Ntz(i) < k
    decreases k
  {
    if i % 2 == 0 {
      NtzBound(i / 2, k - 1);
    }
  }

  lemma TableReaches(i: nat)
    requires 0 < i < 0x1_0000
    ensures Ntz(i) < 16
  {
    hide Ntz;
    assert Pow2(8) == 256;
    assert Pow2(12) == 4096;
    assert Pow2(16) == 0x1_0000;
    NtzBound(i, 16);
  }

  // ------------------------------------------- continuing a longer message

  lemma {:induction false} ChecksumPrefix(p: Bits, q: Bits, m: nat)
    requires 128 * m <= |p|
    ensures Checksum(p + q, m) == Checksum(p, m)
  {
    hide Xor;
    if m > 0 {
      ChecksumPrefix(p, q, m - 1);
      assert BlockAt(p + q, m - 1) == BlockAt(p, m - 1);
    }
  }

  lemma {:induction false} SumPrefix(c: Cipher, a: Bits, b: Bits, m: nat)
    requires 128 * m <= |a|
    ensures Sum(c, a + b, m) == Sum(c, a, m)
  {
    hide Xor, Offset;
    if m > 0 {
      SumPrefix(c, a, b, m - 1);
      assert BlockAt(a + b, m - 1) == BlockAt(a, m - 1);
    }
  }

  lemma {:induction false} CipherPrefix(c: Cipher, start: Block, p: Bits, q: Bits, m: nat)
    requires 128 * m <= |p|
    ensures CipherBlocks(c, start, p + q, m) == CipherBlocks(c, start, p, m)
  {
    hide Xor, Offset;
    if m > 0 {
      CipherPrefix(c, start, p, q, m - 1);
      assert BlockAt(p + q, m - 1) == BlockAt(p, m - 1);
    }
  }

  lemma {:induction false} PlainPrefix(c: Cipher, start: Block, x: Bits, y: Bits, m: nat)
    requires 128 * m <= |x|
    ensures PlainBlocks(c, start, x + y, m) == PlainBlocks(c, start, x, m)
  {
    hide Xor, Offset;
    if m > 0 {
      PlainPrefix(c, start, x, y, m - 1);
      assert BlockAt(x + y, m - 1) == BlockAt(x, m - 1);
    }
  }

  /** The four offsets of a batch; the third needs no L_0, because it cancels. */
  lemma BatchOffsets(c: Cipher, start: Block, n: nat)
    requires n % 4 == 0
    ensures Offset(c, start, n + 1) == Xor(Offset(c, start, n), L(c, 0))
    ensures Offset(c, start, n + 2) == Xor(Offset(c, start, n + 1), L(c, 1))
    ensures Offset(c, start, n + 3) == Xor(Offset(c, start, n + 2), L(c, 0))
    ensures Offset(c, start, n + 3) == Xor(Offset(c, start, n), L(c, 1))
    ensures Offset(c, start, n + 4) == Xor(Offset(c, start, n + 3), L(c, Ntz(n + 4)))
  {
    hide Xor, L, Ntz;
    NtzInBatch(n);
    var o, l0, l1 := Offset(c, start, n), L(c, 0), L(c, 1);
    XorAssoc(o, l0, l1);
    XorComm(l0, l1);
    XorAssoc(o, l1, l0);
    XorTwice(Xor(o, l1), l0);
  }

  /** One block as the code computes it. */
  function EncOne(c: Cipher, off: Block, b: Block): Block {
    Xor(c.enc(Xor(off, b)), off)
  }

  function DecOne(c: Cipher, off: Block, b: Block): Block {
    Xor(c.dec(Xor(off, b)), off)
  }

  lemma EncOneIs(c: Cipher, start: Block, t: Bits, i: nat)
    requires 128 * i + 128 <= |t|
    ensures EncOne(c, Offset(c, start, i + 1), BlockAt(t, i)) == CipherBlock(c, start, t, i)
  {
    hide Xor, Offset, BlockAt;
    var off := Offset(c, start, i + 1);
    XorComm(off, BlockAt(t, i));
    XorComm(off, c.enc(Xor(BlockAt(t, i), off)));
  }

  lemma DecOneIs(c: Cipher, start: Block, t: Bits, i: nat)
    requires 128 * i + 128 <= |t|
    ensures DecOne(c, Offset(c, start, i + 1), BlockAt(t, i)) == PlainBlock(c, start, t, i)
  {
    hide Xor, Offset, BlockAt;
    var off := Offset(c, start, i + 1);
    XorComm(off, BlockAt(t, i));
    XorComm(off, c.dec(Xor(BlockAt(t, i), off)));
  }

  /** Four blocks of ciphertext more. */
  lemma FourCipherBlocks(c: Cipher, start: Block, t: Bits, n: nat)
    requires 128 * (n + 4) <= |t|
    ensures CipherBlocks(c, start, t, n + 4) ==
            CipherBlocks(c, start, t, n) + CipherBlock(c, start, t, n) + CipherBlock(c, start, t, n + 1)
            + CipherBlock(c, start, t, n + 2) + CipherBlock(c, start, t, n + 3)
  {
    hide CipherBlock;
    assert CipherBlocks(c, start, t, n + 1) == CipherBlocks(c, start, t, n) + CipherBlock(c, start, t, n);
    assert CipherBlocks(c, start, t, n + 2) == CipherBlocks(c, start, t, n + 1) + CipherBlock(c, start, t, n + 1);
    assert CipherBlocks(c, start, t, n + 3) == CipherBlocks(c, start, t, n + 2) + CipherBlock(c, start, t, n + 2);
  }

  lemma FourPlainBlocks(c: Cipher, start: Block, t: Bits, n: nat)
    requires 128 * (n + 4) <= |t|
    ensures PlainBlocks(c, start, t, n + 4) ==
            PlainBlocks(c, start, t, n) + PlainBlock(c, start, t, n) + PlainBlock(c, start, t, n + 1)
            + PlainBlock(c, start, t, n + 2) + PlainBlock(c, start, t, n + 3)
  {
    hide PlainBlock;
    assert PlainBlocks(c, start, t, n + 1) == PlainBlocks(c, start, t, n) + PlainBlock(c, start, t, n);
    assert PlainBlocks(c, start, t, n + 2) == PlainBlocks(c, start, t, n + 1) + PlainBlock(c, start, t, n + 1);
    assert PlainBlocks(c, start, t, n + 3) == PlainBlocks(c, start, t, n + 2) + PlainBlock(c, start, t, n + 2);
  }

  lemma FourChecksum(t: Bits, n: nat)
    requires 128 * (n + 4) <= |t|
    ensures Checksum(t, n + 4) == Xor(Xor(Xor(Xor(Checksum(t, n), BlockAt(t, n)), BlockAt(t, n + 1)),
                                          BlockAt(t, n + 2)), BlockAt(t, n + 3))
  {
    hide Xor, BlockAt;
    assert Checksum(t, n + 1) == Xor(Checksum(t, n), BlockAt(t, n));
    assert Checksum(t, n + 2) == Xor(Checksum(t, n + 1), BlockAt(t, n + 1));
    assert Checksum(t, n + 3) == Xor(Checksum(t, n + 2), BlockAt(t, n + 2));
  }

  /** One contribution to the hash, as the code computes it. */
  function HashOne(c: Cipher, off: Block, b: Block): Block {
    c.enc(Xor(off, b))
  }

  lemma SumStep(c: Cipher, a: Bits, i: nat)
    requires 128 * i + 128 <= |a|
    ensures Sum(c, a, i + 1) == Xor(Sum(c, a, i), HashOne(c, Offset(c, ZERO, i + 1), BlockAt(a, i)))
  {
    hide Xor, Offset, BlockAt;
    XorComm(Offset(c, ZERO, i + 1), BlockAt(a, i));
  }

  lemma SubBlock(t: Bits, p: Bits, n: nat, i: nat)
    requires |t| == 128 * n + |p| && t[128 * n..] == p && 128 * i + 128 <= |p|
    ensures BlockAt(t, n + i) == BlockAt(p, i)
  {
  }
}
