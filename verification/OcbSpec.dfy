/** Authenticated encryption as sections 2 and 4 of RFC 7253 define it, one block at a time,
    over strings of bits. */
module Ocb {

  type Bits = seq<bool>
  type Block = b: Bits | |b| == 128 witness Zeros(128)

  const ZERO: Block := Zeros(128)

  /** A block cipher under one key, and its inverse. */
  datatype Cipher = Cipher(enc: Block -> Block, dec: Block -> Block)

  ghost predicate Bijective(c: Cipher) {
    forall b: Block :: c.dec(c.enc(b)) == b && c.enc(c.dec(b)) == b
  }

  // --------------------------------------------------------- bit strings

  function Xor(x: Bits, y: Bits): (r: Bits)
    requires |x| == |y|
    ensures |r| == |x|
  {
    seq(|x|, i requires 0 <= i < |x| => x[i] != y[i])
  }

  function Zeros(n: nat): (r: Bits)
    ensures |r| == n
  {
    seq(n, i => false)
  }

  lemma XorComm(x: Bits, y: Bits)
    requires |x| == |y|
    ensures Xor(x, y) == Xor(y, x)
  {
  }

  lemma XorAssoc(x: Bits, y: Bits, z: Bits)
    requires |x| == |y| == |z|
    ensures Xor(Xor(x, y), z) == Xor(x, Xor(y, z))
  {
  }

  /** Xoring twice with the same string changes nothing. */
  lemma XorTwice(x: Bits, y: Bits)
    requires |x| == |y|
    ensures Xor(Xor(x, y), y) == x
  {
  }

  lemma XorZero(x: Bits)
    ensures Xor(x, Zeros(|x|)) == x
  {
  }

  /** `double`: shift left one bit, and reduce. */
  function Double(s: Block): Block {
    var shifted := s[1..] + [false];
    if s[0] then Xor(shifted, Zeros(120) + [true, false, false, false, false, true, true, true]) else shifted
  }

  /** The number of trailing zeros. */
  function Ntz(i: nat): (n: nat)
    requires i > 0
  {
    if i % 2 == 1 then 0 else 1 + Ntz(i / 2)
  }

  /** `str2num`: the number that bits spell, most significant first. */
  function Num(s: Bits): nat {
    if s == [] then 0 else 2 * Num(s[..|s| - 1]) + if s[|s| - 1] then 1 else 0
  }

  /** Pad a string shorter than a block with a one and zeros. */
  function Padded(s: Bits): Block
    requires |s| < 128
  {
    s + [true] + Zeros(127 - |s|)
  }

  // ------------------------------------------------- key-dependent values

  function LStar(c: Cipher): Block {
    c.enc(ZERO)
  }

  function LDollar(c: Cipher): Block {
    Double(LStar(c))
  }

  function L(c: Cipher, i: nat): Block {
    if i == 0 then Double(LDollar(c)) else Double(L(c, i - 1))
  }

  // -------------------------------------------------------------- offsets

  function BlockAt(s: Bits, i: nat): Block
    requires 128 * i + 128 <= |s|
  {
    s[128 * i..128 * i + 128]
  }

  /** Offset_i, given Offset_0. */
  function Offset(c: Cipher, start: Block, i: nat): Block {
    if i == 0 then start else Xor(Offset(c, start, i - 1), L(c, Ntz(i)))
  }

  function FormattedNonce(nonce: Bits): Block
    requires |nonce| == 96
  {
    Zeros(7) + Zeros(24) + [true] + nonce
  }

  function Stretch(ktop: Block): Bits {
    ktop + Xor(ktop[0..64], ktop[8..72])
  }

  /** Offset_0 from the nonce. */
  function Offset0(c: Cipher, nonce: Bits): Block
    requires |nonce| == 96
  {
    var n := FormattedNonce(nonce);
    var bottom := Num(n[122..128]);
    NumBound(n[122..128]);
    assert Pow2(6) == 64;
    var ktop := c.enc(n[..122] + Zeros(6));
    Stretch(ktop)[bottom..bottom + 128]
  }

  function Pow2(n: nat): (p: nat)
    ensures p > 0
  {
    if n == 0 then 1 else 2 * Pow2(n - 1)
  }

  lemma {:induction false} NumBound(s: Bits)
    ensures Num(s) < Pow2(|s|)
  {
    if s != [] {
      NumBound(s[..|s| - 1]);
    }
  }

  // ----------------------------------------------------------------- HASH

  /** Sum_m over the first m blocks. */
  function Sum(c: Cipher, a: Bits, m: nat): Block
    requires 128 * m <= |a|
  {
    if m == 0 then ZERO
    else Xor(Sum(c, a, m - 1), c.enc(Xor(BlockAt(a, m - 1), Offset(c, ZERO, m))))
  }

  function Hash(c: Cipher, a: Bits): Block {
    var m := |a| / 128;
    var rest := a[128 * m..];
    if rest == [] then Sum(c, a, m)
    else Xor(Sum(c, a, m), c.enc(Xor(Padded(rest), Xor(Offset(c, ZERO, m), LStar(c)))))
  }

  // ------------------------------------------------------------ encryption

  function Checksum(p: Bits, m: nat): Block
    requires 128 * m <= |p|
  {
    if m == 0 then ZERO else Xor(Checksum(p, m - 1), BlockAt(p, m - 1))
  }

  function CipherBlock(c: Cipher, start: Block, p: Bits, i: nat): Block
    requires 128 * i + 128 <= |p|
  {
    Xor(Offset(c, start, i + 1), c.enc(Xor(BlockAt(p, i), Offset(c, start, i + 1))))
  }

  /** C_1 .. C_m. */
  function CipherBlocks(c: Cipher, start: Block, p: Bits, m: nat): (r: Bits)
    requires 128 * m <= |p|
    ensures |r| == 128 * m
  {
    if m == 0 then [] else CipherBlocks(c, start, p, m - 1) + CipherBlock(c, start, p, m - 1)
  }

  /** Tag from the final offset and checksum. */
  function TagOf(c: Cipher, checksum: Block, offset: Block, hash: Block): Block {
    Xor(c.enc(Xor(Xor(checksum, offset), LDollar(c))), hash)
  }

  function Ciphertext(c: Cipher, start: Block, p: Bits): (r: Bits)
    ensures |r| == |p|
  {
    var m := |p| / 128;
    var rest := p[128 * m..];
    CipherBlocks(c, start, p, m) +
    if rest == [] then []
    else Xor(rest, c.enc(Xor(Offset(c, start, m), LStar(c)))[..|rest|])
  }

  function Tag(c: Cipher, start: Block, p: Bits, hash: Block): Block {
    var m := |p| / 128;
    var rest := p[128 * m..];
    if rest == [] then TagOf(c, Checksum(p, m), Offset(c, start, m), hash)
    else TagOf(c, Xor(Checksum(p, m), Padded(rest)), Xor(Offset(c, start, m), LStar(c)), hash)
  }

  /** Section 4.2: the ciphertext with the tag behind it. */
  function Encrypt(c: Cipher, nonce: Bits, a: Bits, p: Bits): Bits
    requires |nonce| == 96
  {
    var start := Offset0(c, nonce);
    Ciphertext(c, start, p) + Tag(c, start, p, Hash(c, a))
  }

  // ------------------------------------------------------------ decryption

  function PlainBlock(c: Cipher, start: Block, x: Bits, i: nat): Block
    requires 128 * i + 128 <= |x|
  {
    Xor(Offset(c, start, i + 1), c.dec(Xor(BlockAt(x, i), Offset(c, start, i + 1))))
  }

  function PlainBlocks(c: Cipher, start: Block, x: Bits, m: nat): (r: Bits)
    requires 128 * m <= |x|
    ensures |r| == 128 * m
  {
    if m == 0 then [] else PlainBlocks(c, start, x, m - 1) + PlainBlock(c, start, x, m - 1)
  }

  function Plaintext(c: Cipher, start: Block, x: Bits): (r: Bits)
    ensures |r| == |x|
  {
    var m := |x| / 128;
    var rest := x[128 * m..];
    PlainBlocks(c, start, x, m) +
    if rest == [] then []
    else Xor(rest, c.enc(Xor(Offset(c, start, m), LStar(c)))[..|rest|])
  }

  datatype Opened = Invalid | Opened(plain: Bits)

  /** Section 4.3, on ciphertext with the tag behind it. */
  function Decrypt(c: Cipher, nonce: Bits, a: Bits, x: Bits): Opened
    requires |nonce| == 96 && |x| >= 128
  {
    var start := Offset0(c, nonce);
    var p := Plaintext(c, start, x[..|x| - 128]);
    if Tag(c, start, p, Hash(c, a)) == x[|x| - 128..] then Opened(p) else Invalid
  }

  // ------------------------------------------------------------ round trip

  lemma {:induction false} BlockOfCipherBlocks(c: Cipher, start: Block, p: Bits, m: nat, i: nat)
    requires 128 * m <= |p| && i < m
    ensures BlockAt(CipherBlocks(c, start, p, m), i) == CipherBlock(c, start, p, i)
    decreases m
  {
    hide CipherBlock;
    if i < m - 1 {
      BlockOfCipherBlocks(c, start, p, m - 1, i);
    }
  }

  lemma {:induction false} BlockOfPlainBlocks(c: Cipher, start: Block, x: Bits, m: nat, i: nat)
    requires 128 * m <= |x| && i < m
    ensures BlockAt(PlainBlocks(c, start, x, m), i) == PlainBlock(c, start, x, i)
    decreases m
  {
    hide PlainBlock;
    if i < m - 1 {
      BlockOfPlainBlocks(c, start, x, m - 1, i);
    }
  }

  /** One block: encryption and decryption undo each other. */
  lemma BlockInverse(c: Cipher, start: Block, p: Bits, x: Bits, i: nat)
    requires Bijective(c) && 128 * i + 128 <= |p| && 128 * i + 128 <= |x|
    ensures BlockAt(x, i) == CipherBlock(c, start, p, i) <==> BlockAt(p, i) == PlainBlock(c, start, x, i)
  {
    hide Xor, Offset, BlockAt;
    var off := Offset(c, start, i + 1);
    Whitening(c, off, BlockAt(p, i));
    Whitening(Cipher(c.dec, c.enc), off, BlockAt(x, i));
  }

  lemma Whitening(c: Cipher, off: Block, b: Block)
    requires forall x: Block :: c.dec(c.enc(x)) == x
    ensures Xor(off, c.dec(Xor(Xor(off, c.enc(Xor(b, off))), off))) == b
  {
    hide Xor;
    var y := c.enc(Xor(b, off));
    XorComm(off, y);
    XorTwice(y, off);
    XorComm(off, Xor(b, off));
    XorTwice(b, off);
  }

  lemma {:induction false} PlainOfCipherBlocks(c: Cipher, start: Block, p: Bits, x: Bits, m: nat)
    requires Bijective(c) && 128 * m <= |p| && 128 * m <= |x|
    requires forall i :: 0 <= i < m ==> BlockAt(x, i) == CipherBlock(c, start, p, i)
    ensures PlainBlocks(c, start, x, m) == p[..128 * m]
  {
    hide CipherBlock, PlainBlock;
    if m > 0 {
      PlainOfCipherBlocks(c, start, p, x, m - 1);
      BlockInverse(c, start, p, x, m - 1);
      assert p[..128 * m] == p[..128 * (m - 1)] + BlockAt(p, m - 1);
    }
  }

  lemma {:induction false} CipherOfPlainBlocks(c: Cipher, start: Block, p: Bits, x: Bits, m: nat)
    requires Bijective(c) && 128 * m <= |p| && 128 * m <= |x|
    requires forall i :: 0 <= i < m ==> BlockAt(p, i) == PlainBlock(c, start, x, i)
    ensures CipherBlocks(c, start, p, m) == x[..128 * m]
  {
    hide CipherBlock, PlainBlock;
    if m > 0 {
      CipherOfPlainBlocks(c, start, p, x, m - 1);
      BlockInverse(c, start, p, x, m - 1);
      assert x[..128 * m] == x[..128 * (m - 1)] + BlockAt(x, m - 1);
    }
  }

  lemma SplitTail(s: Bits, front: Bits, rest: Bits, m: nat)
    requires s == front + rest && |front| == 128 * m
    ensures s[..128 * m] == front && s[128 * m..] == rest
    ensures forall i :: 0 <= i < m ==> BlockAt(s, i) == BlockAt(front, i)
  {
  }

  /** For every length, decrypting a ciphertext gives the plaintext. */
  lemma PlainOfCipher(c: Cipher, start: Block, p: Bits)
    requires Bijective(c)
    ensures Plaintext(c, start, Ciphertext(c, start, p)) == p
  {
    hide BlockAt, CipherBlock, CipherBlocks, PlainBlocks, Xor, Offset;
    var m := |p| / 128;
    var rest := p[128 * m..];
    var x := Ciphertext(c, start, p);
    SplitTail(x, CipherBlocks(c, start, p, m), x[128 * m..], m);
    forall i | 0 <= i < m
      ensures BlockAt(x, i) == CipherBlock(c, start, p, i)
    {
      BlockOfCipherBlocks(c, start, p, m, i);
    }
    PlainOfCipherBlocks(c, start, p, x, m);
    if rest != [] {
      XorTwice(rest, c.enc(Xor(Offset(c, start, m), LStar(c)))[..|rest|]);
    }
    assert p == p[..128 * m] + rest;
  }

  /** And every string of that length is the ciphertext of its decryption. */
  lemma CipherOfPlain(c: Cipher, start: Block, x: Bits)
    requires Bijective(c)
    ensures Ciphertext(c, start, Plaintext(c, start, x)) == x
  {
    hide BlockAt, PlainBlock, CipherBlocks, PlainBlocks, Xor, Offset;
    var m := |x| / 128;
    var rest := x[128 * m..];
    var p := Plaintext(c, start, x);
    SplitTail(p, PlainBlocks(c, start, x, m), p[128 * m..], m);
    forall i | 0 <= i < m
      ensures BlockAt(p, i) == PlainBlock(c, start, x, i)
    {
      BlockOfPlainBlocks(c, start, x, m, i);
    }
    CipherOfPlainBlocks(c, start, p, x, m);
    if rest != [] {
      XorTwice(rest, c.enc(Xor(Offset(c, start, m), LStar(c)))[..|rest|]);
    }
    assert x == x[..128 * m] + rest;
  }

  /** Decryption accepts exactly the encryptions, and returns what was encrypted. */
  lemma OpensExactly(c: Cipher, nonce: Bits, a: Bits, x: Bits, p: Bits)
    requires Bijective(c) && |nonce| == 96 && |x| >= 128
    ensures Decrypt(c, nonce, a, x) == Opened(p) <==> x == Encrypt(c, nonce, a, p)
  {
    hide Ciphertext, Plaintext, Tag, Offset0, Hash;
    var start := Offset0(c, nonce);
    var body, tag := x[..|x| - 128], x[|x| - 128..];
    assert x == body + tag;
    PlainOfCipher(c, start, p);
    CipherOfPlain(c, start, body);
    if x == Encrypt(c, nonce, a, p) {
      assert body == Ciphertext(c, start, p) && tag == Tag(c, start, p, Hash(c, a));
    }
  }
}
