/** The context structure of mosh/src/crypto/ocb_internal.cc and the operations on it. */
module OcbContexts {
  import opened Options
  import opened Ocb
  import opened OcbCode

  const TABLE_SIZE: nat := 16
  /** Below this many blocks the table has every L value that is needed. */
  const BLOCK_LIMIT: nat := 0x1_0000


  /** The loop of `ae_init` that fills the table. */
  method MakeTable(c: Cipher, dollar: Block) returns (l: array<Block>)
    requires dollar == LDollar(c)
    ensures fresh(l) && l.Length == TABLE_SIZE && forall j :: 0 <= j < TABLE_SIZE ==> l[j] == L(c, j)
  {
    hide DoubleBlock, Double, L;
    LSteps(c);
    DoubleBlockDoubles(dollar);
    var tmp := DoubleBlock(dollar);
    l := new Block[TABLE_SIZE](i => ZERO);
    l[0] := tmp;
    var i := 1;
    while i < TABLE_SIZE
      invariant 1 <= i <= TABLE_SIZE && tmp == L(c, i - 1)
      invariant forall j :: 0 <= j < i ==> l[j] == L(c, j)
    {
      DoubleBlockDoubles(tmp);
      tmp := DoubleBlock(tmp);
      l[i] := tmp;
      i := i + 1;
    }
  }


  class AeContext {
    const cipher: Cipher
    const table: array<Block>
    var lstar: Block
    var ldollar: Block
    var offset: Block
    var checksum: Block
    var adOffset: Block
    var adChecksum: Block
    var cachedTop: Block
    var ktop: Ktop
    var blocks: nat
    var adBlocks: nat

    // What the message in progress is about.
    ghost var start: Block    // its Offset_0
    ghost var text: Bits      // what has been processed of it
    ghost var adText: Bits    // its associated data so far
    ghost var adWhole: bool   // whether that is all of it

    ghost predicate Valid()
      reads `lstar, `ldollar, `cachedTop, `ktop, table
      reads `adWhole, `adText, `adChecksum, `adBlocks, `adOffset
    {
      KeyValid() && AdValid()
    }

    /** The key-dependent values are right, and the cache, once used, fits its nonce. */
    ghost predicate KeyValid()
      reads `lstar, `ldollar, `cachedTop, `ktop, table
    {
      && table.Length == TABLE_SIZE
      && (forall i :: 0 <= i < TABLE_SIZE ==> table[i] == L(cipher, i))
      && lstar == LStar(cipher) && ldollar == LDollar(cipher)
      && (cachedTop != ZERO ==> ktop == MakeKtop(cipher.enc(cachedTop)))
    }

    /** The hash so far: of whole batches while data is still to come, else of everything. */
    ghost predicate AdValid()
      reads `adWhole, `adText, `adChecksum, `adBlocks, `adOffset
    {
      if adWhole then adChecksum == Hash(cipher, adText)
      else
        && |adText| == 128 * adBlocks && adBlocks % 4 == 0
        && adChecksum == Sum(cipher, adText, adBlocks)
        && adOffset == Offset(cipher, ZERO, adBlocks)
    }

    /** A message is being encrypted, and whole batches of it are done. */
    ghost predicate Encrypting()
      reads `text, `blocks, `offset, `start, `checksum
    {
      && |text| == 128 * blocks && blocks % 4 == 0
      && offset == Offset(cipher, start, blocks)
      && checksum == Checksum(text, blocks)
    }

    /** The same for decryption, where the checksum is that of the plaintext. */
    ghost predicate Decrypting()
      reads `text, `blocks, `offset, `start, `checksum
    {
      && |text| == 128 * blocks && blocks % 4 == 0
      && offset == Offset(cipher, start, blocks)
      && checksum == Checksum(PlainBlocks(cipher, start, text, blocks), blocks)
    }

    /** `ae_init`; the words kept for a nonce start with any value. */
    constructor (c: Cipher, garbage: Ktop)
      ensures cipher == c && Valid() && fresh(table)
      ensures adWhole && adText == []
    {
      cipher := c;
      ktop := garbage;
      cachedTop, adChecksum, adBlocks := ZERO, ZERO, 0;
      adWhole, adText := true, [];
      var star := c.enc(ZERO);
      var tmp := DoubleBlock(star);
      DoubleBlockDoubles(star);
      lstar, ldollar := star, tmp;
      offset, checksum, adOffset, blocks, start, text := ZERO, ZERO, ZERO, 0, ZERO, [];
      var l := MakeTable(c, tmp);
      table := l;
      HashEmpty(c);
    }

    /** `gen_offset_from_nonce`: the cipher is called only for a new top. */
    method GenOffsetFromNonce(nonce: Bits) returns (r: Block)
      requires Valid() && |nonce| == 96
      modifies this`cachedTop, this`ktop
      ensures Valid() && r == Offset0(cipher, nonce)
    {
      hide Hash, Sum, Offset, MakeKtop, GenOffset, Stretch, L;
      var tmp := Zeros(31) + [true] + nonce;
      assert tmp == FormattedNonce(nonce);
      var idx := Num(tmp[122..]);
      assert tmp[122..] == tmp[122..128];
      NumBound(tmp[122..]);
      assert Pow2(6) == 64;
      var top: Block := tmp[..122] + Zeros(6);
      TopNotZero(nonce);
      if top != cachedTop {
        cachedTop := top;
        ktop := MakeKtop(cipher.enc(top));
      }
      GenOffsetWindow(cipher.enc(top), idx);
      r := GenOffset(ktop, idx);
    }

    /** Encrypt whole batches of four blocks. `t` is the message so far with `p` behind it. */
    method EncryptBatches(p: Bits, ghost t: Bits) returns (ct: Bits)
      requires Valid() && blocks % 4 == 0
      requires |t| == 128 * blocks + |p| && t[128 * blocks..] == p && |t| < 128 * BLOCK_LIMIT
      requires offset == Offset(cipher, start, blocks) && checksum == Checksum(t, blocks)
      modifies this`offset, this`checksum, this`blocks
      ensures Valid() && blocks == old(blocks) + 4 * (|p| / 512)
      ensures offset == Offset(cipher, start, blocks) && checksum == Checksum(t, blocks)
      ensures CipherBlocks(cipher, start, t, old(blocks)) + ct == CipherBlocks(cipher, start, t, blocks)
    {
      hide KeyValid, AdValid, Offset, Xor, BlockAt, L, Ntz, CipherBlock, CipherBlocks, Checksum, EncOne;
      var i := |p| / 512;
      var k := 0;
      ct := [];
      var off, sum, blockNum := offset, checksum, blocks;
      while i != 0
        invariant Valid() && unchanged(this)
        invariant 0 <= i && k == 4 * (|p| / 512 - i) && blockNum == blocks + k
        invariant off == Offset(cipher, start, blockNum) && sum == Checksum(t, blockNum)
        invariant CipherBlocks(cipher, start, t, blocks) + ct == CipherBlocks(cipher, start, t, blockNum)
      {
        ghost var n := blockNum;
        BatchTable(n);
        BatchOffsets(cipher, start, n);
        SubBlock(t, p, blocks, k);
        SubBlock(t, p, blocks, k + 1);
        SubBlock(t, p, blocks, k + 2);
        SubBlock(t, p, blocks, k + 3);
        FourChecksum(t, n);
        FourCipherBlocks(cipher, start, t, n);
        EncOneIs(cipher, start, t, n);
        EncOneIs(cipher, start, t, n + 1);
        EncOneIs(cipher, start, t, n + 2);
        EncOneIs(cipher, start, t, n + 3);
        blockNum := blockNum + 4;
        var p0, p1, p2, p3 := BlockAt(p, k), BlockAt(p, k + 1), BlockAt(p, k + 2), BlockAt(p, k + 3);
        var oa0 := Xor(off, table[0]);
        var oa1 := Xor(oa0, table[1]);
        var oa2 := Xor(oa1, table[0]);
        var oa3 := Xor(oa2, table[Ntz(blockNum)]);
        sum := Xor(Xor(Xor(Xor(sum, p0), p1), p2), p3);
        ghost var before := ct;
        ct := ct + EncOne(cipher, oa0, p0) + EncOne(cipher, oa1, p1)
                 + EncOne(cipher, oa2, p2) + EncOne(cipher, oa3, p3);
        Append4(CipherBlocks(cipher, start, t, blocks), before, EncOne(cipher, oa0, p0), EncOne(cipher, oa1, p1),
                EncOne(cipher, oa2, p2), EncOne(cipher, oa3, p3));
        off := oa3;
        k := k + 4;
        i := i - 1;
      }
      offset, checksum, blocks := off, sum, blockNum;
    }

    /** The offsets of the full blocks left after the batches: two if there is room for two,
        and one more if there is room for one more. */
    method TailOffsets(off0: Block, len: nat, ghost first: Block, ghost n: nat) returns (k: nat, off: Block, oa: seq<Block>)
      requires KeyValid() && n % 4 == 0 && len < 512 && off0 == Offset(cipher, first, n)
      ensures k == len / 128 && off == Offset(cipher, first, n + k)
      ensures |oa| == k && forall j :: 0 <= j < k ==> oa[j] == Offset(cipher, first, n + j + 1)
    {
      hide Offset, Xor, L;
      BatchTable(n);
      BatchOffsets(cipher, first, n);
      k, off, oa := 0, off0, [];
      var remaining := len;
      if remaining >= 256 {
        oa := [Xor(off, table[0])];
        off := Xor(oa[0], table[1]);
        oa := oa + [off];
        remaining := remaining - 256;
        k := 2;
      }
      if remaining >= 128 {
        off := Xor(off, table[0]);
        oa := oa + [off];
        k := k + 1;
      }
    }

    /** Encrypt what is left after the batches, and make the tag. */
    method EncryptTail(rest: Bits, ghost t: Bits) returns (ct: Bits, tag: Block)
      requires KeyValid() && blocks % 4 == 0 && |rest| < 512
      requires |t| == 128 * blocks + |rest| && t[128 * blocks..] == rest
      requires offset == Offset(cipher, start, blocks) && checksum == Checksum(t, blocks)
      ensures CipherBlocks(cipher, start, t, blocks) + ct == Ciphertext(cipher, start, t)
      ensures tag == Tag(cipher, start, t, adChecksum)
    {
      hide Offset, Xor, L, CipherBlock, CipherBlocks, Checksum, Padded, KeyValid, Ciphertext, Tag, BlockAt, TagOf;
      var k, off, oa := TailOffsets(offset, |rest|, start, blocks);
      TailSplit(t, rest, blocks, k);
      TailMeaning(cipher, start, t, blocks + k, adChecksum);
      var ta, sum := TailInputs(rest, k, oa, t);
      var done, partial;
      done, partial, tag := Seal(rest[128 * k..], off, sum, ta);
      var full := TailCipher(done, oa, k, rest, t);
      ct := full + partial;
      Associate(CipherBlocks(cipher, start, t, blocks), full, partial);
    }

    /** The partial block and the tag; every cipher call of the tail happens here. */
    method Seal(x: Bits, off0: Block, sum0: Block, ta0: seq<Block>) returns (done: seq<Block>, partial: Bits, tag: Block)
      requires KeyValid() && |x| < 128
      ensures |done| >= |ta0| && forall j :: 0 <= j < |ta0| ==> done[j] == cipher.enc(ta0[j])
      ensures partial == if x == [] then [] else Xor(x, cipher.enc(Xor(off0, LStar(cipher)))[..|x|])
      ensures tag == if x == [] then TagOf(cipher, sum0, off0, adChecksum)
                     else TagOf(cipher, Xor(sum0, Padded(x)), Xor(off0, LStar(cipher)), adChecksum)
    {
      hide Offset, Xor, L, Padded, Hash, Sum, MakeKtop;
      var ta, off, sum := ta0, off0, sum0;
      var remaining, tmp := |x|, ZERO;
      if remaining > 0 {
        tmp := Padded(x);
        sum := Xor(sum, tmp);
        off := Xor(off, lstar);
        ta := ta + [off];
      }
      TagOrder(off, ldollar, sum);
      off := Xor(off, ldollar);
      ta := ta + [Xor(off, sum)];
      done := Ecb(cipher, ta);
      tag := Xor(done[|ta| - 1], adChecksum);
      partial := [];
      if remaining > 0 {
        PartialBlock(x, done[|ta0|]);
        partial := Xor(tmp, done[|ta0|])[..remaining];
      }
    }

    /** The inputs of the cipher for the full blocks, and their checksum. */
    method TailInputs(rest: Bits, k: nat, oa: seq<Block>, ghost t: Bits) returns (ta: seq<Block>, sum: Block)
      requires 128 * k <= |rest| && |oa| == k
      requires |t| == 128 * blocks + |rest| && t[128 * blocks..] == rest && checksum == Checksum(t, blocks)
      ensures |ta| == k && forall j :: 0 <= j < k ==> ta[j] == Xor(oa[j], BlockAt(rest, j))
      ensures sum == Checksum(t, blocks + k)
    {
      hide Xor, BlockAt;
      ta, sum := [], checksum;
      for j := 0 to k
        invariant |ta| == j && forall i :: 0 <= i < j ==> ta[i] == Xor(oa[i], BlockAt(rest, i))
        invariant sum == Checksum(t, blocks + j)
      {
        SubBlock(t, rest, blocks, j);
        ta := ta + [Xor(oa[j], BlockAt(rest, j))];
        sum := Xor(sum, BlockAt(rest, j));
      }
    }

    /** The ciphertext of the full blocks. */
    method TailCipher(done: seq<Block>, oa: seq<Block>, k: nat, rest: Bits, ghost t: Bits) returns (ct: Bits)
      requires |oa| == k <= |done| && 128 * k <= |rest|
      requires |t| == 128 * blocks + |rest| && t[128 * blocks..] == rest
      requires forall j :: 0 <= j < k ==> oa[j] == Offset(cipher, start, blocks + j + 1)
      requires forall j :: 0 <= j < k ==> done[j] == cipher.enc(Xor(oa[j], BlockAt(rest, j)))
      ensures CipherBlocks(cipher, start, t, blocks) + ct == CipherBlocks(cipher, start, t, blocks + k)
    {
      hide Xor, BlockAt, Offset, CipherBlock;
      ct := [];
      for j := 0 to k
        invariant CipherBlocks(cipher, start, t, blocks) + ct == CipherBlocks(cipher, start, t, blocks + j)
      {
        SubBlock(t, rest, blocks, j);
        EncOneIs(cipher, start, t, blocks + j);
        ghost var before := ct;
        ct := ct + Xor(done[j], oa[j]);
        assert CipherBlocks(cipher, start, t, blocks) + ct
            == (CipherBlocks(cipher, start, t, blocks) + before) + Xor(done[j], oa[j]);
      }
    }

    /** Decrypt whole batches of four blocks. */
    method DecryptBatches(x: Bits, ghost t: Bits) returns (pt: Bits)
      requires Valid() && blocks % 4 == 0
      requires |t| == 128 * blocks + |x| && t[128 * blocks..] == x && |t| < 128 * BLOCK_LIMIT
      requires offset == Offset(cipher, start, blocks)
      requires checksum == Checksum(PlainBlocks(cipher, start, t, blocks), blocks)
      modifies this`offset, this`checksum, this`blocks
      ensures Valid() && blocks == old(blocks) + 4 * (|x| / 512)
      ensures offset == Offset(cipher, start, blocks)
      ensures checksum == Checksum(PlainBlocks(cipher, start, t, blocks), blocks)
      ensures PlainBlocks(cipher, start, t, old(blocks)) + pt == PlainBlocks(cipher, start, t, blocks)
    {
      hide KeyValid, AdValid, Offset, Xor, BlockAt, L, Ntz, PlainBlock, PlainBlocks, Checksum, DecOne;
      var i := |x| / 512;
      var k := 0;
      pt := [];
      var off, sum, blockNum := offset, checksum, blocks;
      while i != 0
        invariant Valid() && unchanged(this)
        invariant 0 <= i && k == 4 * (|x| / 512 - i) && blockNum == blocks + k
        invariant off == Offset(cipher, start, blockNum)
        invariant sum == Checksum(PlainBlocks(cipher, start, t, blockNum), blockNum)
        invariant PlainBlocks(cipher, start, t, blocks) + pt == PlainBlocks(cipher, start, t, blockNum)
      {
        ghost var n := blockNum;
        BatchTable(n);
        BatchOffsets(cipher, start, n);
        SubBlock(t, x, blocks, k);
        SubBlock(t, x, blocks, k + 1);
        SubBlock(t, x, blocks, k + 2);
        SubBlock(t, x, blocks, k + 3);
        FourPlainChecksum(cipher, start, t, n);
        FourPlainBlocks(cipher, start, t, n);
        DecOneIs(cipher, start, t, n);
        DecOneIs(cipher, start, t, n + 1);
        DecOneIs(cipher, start, t, n + 2);
        DecOneIs(cipher, start, t, n + 3);
        blockNum := blockNum + 4;
        var oa0 := Xor(off, table[0]);
        var oa1 := Xor(oa0, table[1]);
        var oa2 := Xor(oa1, table[0]);
        var oa3 := Xor(oa2, table[Ntz(blockNum)]);
        var p0, p1 := DecOne(cipher, oa0, BlockAt(x, k)), DecOne(cipher, oa1, BlockAt(x, k + 1));
        var p2, p3 := DecOne(cipher, oa2, BlockAt(x, k + 2)), DecOne(cipher, oa3, BlockAt(x, k + 3));
        sum := Xor(Xor(Xor(Xor(sum, p0), p1), p2), p3);
        Append4(PlainBlocks(cipher, start, t, blocks), pt, p0, p1, p2, p3);
        pt := pt + p0 + p1 + p2 + p3;
        off := oa3;
        k := k + 4;
        i := i - 1;
      }
      offset, checksum, blocks := off, sum, blockNum;
    }

    /** Decrypt what is left after the batches, and make the expected tag. The checksum takes
        the partial block first and then the full blocks from the last to the first. */
    method DecryptTail(rest: Bits, ghost t: Bits) returns (pt: Bits, tag: Block)
      requires KeyValid() && blocks % 4 == 0 && |rest| < 512 && |rest| % 8 == 0
      requires |t| == 128 * blocks + |rest| && t[128 * blocks..] == rest
      requires offset == Offset(cipher, start, blocks)
      requires checksum == Checksum(PlainBlocks(cipher, start, t, blocks), blocks)
      ensures PlainBlocks(cipher, start, t, blocks) + pt == Plaintext(cipher, start, t)
      ensures tag == Tag(cipher, start, Plaintext(cipher, start, t), adChecksum)
    {
      hide Offset, Xor, L, LStar, PlainBlock, PlainBlocks, Checksum, Padded, KeyValid, Plaintext, Tag, BlockAt, TagOf;
      var k, off, oa := TailOffsets(offset, |rest|, start, blocks);
      TailSplit(t, rest, blocks, k);
      var partial, base, last := OpenPartial(rest[128 * k..], off);
      OpenedTail(cipher, start, t, blocks + k, partial, base, last, adChecksum);
      PlainSplits(cipher, start, t, blocks, blocks + k);
      var full, sum := TailPlain(oa, k, rest, t, Plaintext(cipher, start, t), base);
      pt := full + partial;
      Associate(PlainBlocks(cipher, start, t, blocks), full, partial);
      tag := ExpectedTag(last, sum);
    }

    method ExpectedTag(off: Block, sum: Block) returns (tag: Block)
      requires KeyValid()
      ensures tag == TagOf(cipher, sum, off, adChecksum)
    {
      hide Xor, L, Hash, Sum, MakeKtop;
      TagOrder(off, ldollar, sum);
      tag := Xor(cipher.enc(Xor(Xor(off, ldollar), sum)), adChecksum);
    }

    /** The partial block: its plaintext, its padded form for the checksum, its offset. */
    method OpenPartial(x: Bits, off0: Block) returns (partial: Bits, base: Block, off: Block)
      requires KeyValid() && |x| < 128 && |x| % 8 == 0
      ensures |partial| == |x|
      ensures partial == if x == [] then [] else Xor(x, cipher.enc(Xor(off0, LStar(cipher)))[..|x|])
      ensures base == if x == [] then ZERO else Padded(partial)
      ensures off == if x == [] then off0 else Xor(off0, LStar(cipher))
    {
      hide Xor, L, Hash, Sum, MakeKtop, Padded;
      partial, base, off := [], ZERO, off0;
      var remaining := |x|;
      if remaining > 0 {
        off := Xor(off, lstar);
        var pad := cipher.enc(off);
        RebuiltPad(x, pad);
        var tmp: Block := x + pad[remaining..];
        tmp := Xor(tmp, pad);
        tmp := tmp[..remaining] + [true] + Zeros(7) + tmp[remaining + 8..];
        partial := tmp[..remaining];
        base := tmp;
      }
    }

    /** The plaintext of the full blocks, and the checksum with them. */
    method TailPlain(oa: seq<Block>, k: nat, rest: Bits, ghost t: Bits, ghost p: Bits, base: Block) returns (pt: Bits, sum: Block)
      requires |oa| == k && 128 * k <= |rest|
      requires |t| == 128 * blocks + |rest| == |p| && t[128 * blocks..] == rest
      requires forall j :: 0 <= j < k ==> oa[j] == Offset(cipher, start, blocks + j + 1)
      requires checksum == Checksum(p, blocks)
      requires forall i :: blocks <= i < blocks + k ==> BlockAt(p, i) == PlainBlock(cipher, start, t, i)
      ensures PlainBlocks(cipher, start, t, blocks) + pt == PlainBlocks(cipher, start, t, blocks + k)
      ensures sum == Xor(Checksum(p, blocks + k), base)
    {
      hide Xor, BlockAt, Offset, PlainBlock;
      var plain: seq<Block> := [];
      pt := [];
      for j := 0 to k
        invariant |plain| == j && forall i :: 0 <= i < j ==> plain[i] == BlockAt(p, blocks + i)
        invariant PlainBlocks(cipher, start, t, blocks) + pt == PlainBlocks(cipher, start, t, blocks + j)
      {
        SubBlock(t, rest, blocks, j);
        DecOneIs(cipher, start, t, blocks + j);
        var b := Xor(cipher.dec(Xor(oa[j], BlockAt(rest, j))), oa[j]);
        assert PlainBlocks(cipher, start, t, blocks) + (pt + b) == (PlainBlocks(cipher, start, t, blocks) + pt) + b;
        pt := pt + b;
        plain := plain + [b];
      }
      sum := Xor(checksum, base);
      ghost var c0, ck := Checksum(p, blocks), Checksum(p, blocks + k);
      SwapXor(c0, base, ck);
      var j := k;
      while j != 0
        invariant 0 <= j <= k
        invariant Xor(sum, Checksum(p, blocks + j)) == Xor(Xor(ck, base), c0)
      {
        j := j - 1;
        MoveXor(sum, plain[j], Checksum(p, blocks + j));
        sum := Xor(sum, plain[j]);
      }
      XorTwice(sum, c0);
      XorTwice(Xor(ck, base), c0);
    }

    /** Hash whole batches of associated data. */
    method AdBatches(a: Bits, ghost t: Bits)
      requires Valid() && !adWhole
      requires t == adText + a && |t| < 128 * BLOCK_LIMIT
      modifies this`adOffset, this`adChecksum, this`adBlocks
      ensures adBlocks == old(adBlocks) + 4 * (|a| / 512)
      ensures adOffset == Offset(cipher, ZERO, adBlocks) && adChecksum == Sum(cipher, t, adBlocks)
    {
      hide Offset, Xor, BlockAt, L, Ntz, Sum, Hash, HashOne, MakeKtop;
      SumPrefix(cipher, adText, a, adBlocks);
      var i := |a| / 512;
      var k := 0;
      var off, sum, blockNum := adOffset, adChecksum, adBlocks;
      while i != 0
        invariant Valid() && unchanged(this)
        invariant 0 <= i && k == 4 * (|a| / 512 - i) && blockNum == adBlocks + k
        invariant off == Offset(cipher, ZERO, blockNum) && sum == Sum(cipher, t, blockNum)
      {
        ghost var n := blockNum;
        BatchTable(n);
        BatchOffsets(cipher, ZERO, n);
        SubBlock(t, a, adBlocks, k);
        SubBlock(t, a, adBlocks, k + 1);
        SubBlock(t, a, adBlocks, k + 2);
        SubBlock(t, a, adBlocks, k + 3);
        SumStep(cipher, t, n);
        SumStep(cipher, t, n + 1);
        SumStep(cipher, t, n + 2);
        SumStep(cipher, t, n + 3);
        blockNum := blockNum + 4;
        var oa0 := Xor(off, table[0]);
        var oa1 := Xor(oa0, table[1]);
        var oa2 := Xor(off, table[1]);
        off := Xor(oa2, table[Ntz(blockNum)]);
        sum := Xor(sum, HashOne(cipher, oa0, BlockAt(a, k)));
        sum := Xor(sum, HashOne(cipher, oa1, BlockAt(a, k + 1)));
        sum := Xor(sum, HashOne(cipher, oa2, BlockAt(a, k + 2)));
        sum := Xor(sum, HashOne(cipher, off, BlockAt(a, k + 3)));
        k := k + 4;
        i := i - 1;
      }
      adOffset, adChecksum, adBlocks := off, sum, blockNum;
    }

    /** Hash what is left; the contributions are added from the last to the first. */
    method AdTail(rest: Bits, sum0: Block, off0: Block, ghost t: Bits, ghost n: nat) returns (sum: Block)
      requires KeyValid() && n % 4 == 0 && |rest| < 512
      requires |t| == 128 * n + |rest| && t[128 * n..] == rest
      requires off0 == Offset(cipher, ZERO, n) && sum0 == Sum(cipher, t, n)
      ensures sum == Hash(cipher, t)
    {
      hide Offset, Xor, BlockAt, L, Sum, Hash, HashOne, MakeKtop, Padded;
      var k, off, oa := TailOffsets(off0, |rest|, ZERO, n);
      TailSplit(t, rest, n, k);
      HashMeaning(cipher, t, n + k);
      var ta, f := AdInputs(rest, k, oa, t, n);
      var remaining := |rest| - 128 * k;
      if remaining > 0 {
        off := Xor(off, lstar);
        XorComm(off, Padded(rest[128 * k..]));
        ta := ta + [Xor(off, Padded(rest[128 * k..]))];
        f := f + [Hash(cipher, t)];
      }
      var done := Ecb(cipher, ta);
      sum := XorDown(sum0, done, f);
    }

    /** The inputs of the cipher for the full blocks; `f` lists the sums they lead to. */
    method AdInputs(rest: Bits, k: nat, oa: seq<Block>, ghost t: Bits, ghost n: nat) returns (ta: seq<Block>, ghost f: seq<Block>)
      requires 128 * k <= |rest| && |oa| == k
      requires |t| == 128 * n + |rest| && t[128 * n..] == rest
      requires forall j :: 0 <= j < k ==> oa[j] == Offset(cipher, ZERO, n + j + 1)
      ensures |ta| == k && |f| == k + 1 && f[0] == Sum(cipher, t, n) && f[k] == Sum(cipher, t, n + k)
      ensures forall j :: 0 <= j < k ==> f[j + 1] == Xor(f[j], cipher.enc(ta[j]))
    {
      hide Xor, BlockAt, Offset, Sum;
      ta, f := [], [Sum(cipher, t, n)];
      for j := 0 to k
        invariant |ta| == j && |f| == j + 1 && f[0] == Sum(cipher, t, n) && f[j] == Sum(cipher, t, n + j)
        invariant forall i :: 0 <= i < j ==> f[i + 1] == Xor(f[i], cipher.enc(ta[i]))
      {
        SubBlock(t, rest, n, j);
        SumStep(cipher, t, n + j);
        ta := ta + [Xor(oa[j], BlockAt(rest, j))];
        f := f + [Sum(cipher, t, n + j + 1)];
      }
    }

    /** `process_ad`. */
    method ProcessAd(a: Bits, final: bool)
      requires Valid() && !adWhole && (!final ==> |a| % 512 == 0)
      requires |adText| + |a| < 128 * BLOCK_LIMIT
      modifies this`adOffset, this`adChecksum, this`adBlocks, this`adText, this`adWhole
      ensures Valid() && adText == old(adText) + a && adWhole == final
    {
      hide Offset, Xor, L, Sum, Hash, MakeKtop;
      ghost var t := adText + a;
      AdBatches(a, t);
      var rest := a[512 * (|a| / 512)..];
      assert t[128 * adBlocks..] == rest;
      if final {
        var sum := adChecksum;
        if |rest| > 0 {
          sum := AdTail(rest, adChecksum, adOffset, t, adBlocks);
        } else {
          HashMeaning(cipher, t, adBlocks);
        }
        adChecksum := sum;
      }
      adText, adWhole := t, final;
    }

    /** What `nonce` and `ad_len` of one call ask for: a new message may take over the
        associated data of the last one, and what is complete is not added to. */
    ghost predicate Usable(nonce: Option<Bits>, text0: Bits, a: Option<Bits>, final: bool)
      reads this
    {
      && (nonce.Some? ==> |nonce.value| == 96)
      && (!final ==> |text0| % 512 == 0 && (a.Some? ==> |a.value| % 512 == 0))
      && (nonce.Some? && a.None? ==> adWhole)
      && (nonce.None? && a.Some? && a.value != [] ==> !adWhole)
      && (if nonce.Some? then 0 else |text|) + |text0| < 128 * BLOCK_LIMIT
      && (a.Some? ==> (if nonce.Some? then 0 else |adText|) + |a.value| < 128 * BLOCK_LIMIT)
    }

    /** The associated data of the message after the call. */
    ghost function AdAfter(nonce: Option<Bits>, a: Option<Bits>): Bits
      reads this
    {
      if a.None? then adText else if nonce.Some? then a.value else adText + a.value
    }

    /** A nonce begins a new message; a negative length keeps the hash of the last one. */
    method NewMessage(nonce: Bits, keepAd: bool)
      requires Valid() && |nonce| == 96 && (keepAd ==> adWhole)
      modifies this
      ensures Valid() && start == Offset0(cipher, nonce) && text == [] && blocks == 0
      ensures Encrypting() && Decrypting()
      ensures if keepAd then adWhole && adText == old(adText) else !adWhole && adText == []
    {
      hide Offset0, KeyValid, AdValid, Encrypting, Decrypting;
      var first := GenOffsetFromNonce(nonce);
      Restart(first);
      RestartAd(keepAd);
    }

    method Restart(first: Block)
      modifies `offset, `checksum, `blocks, `start, `text
      ensures start == first && text == [] && blocks == 0 && Encrypting() && Decrypting()
    {
      hide Offset, Checksum, PlainBlocks;
      StartValues(cipher, first);
      offset, checksum, blocks := first, ZERO, 0;
      start, text := first, [];
    }

    method RestartAd(keepAd: bool)
      requires AdValid() && (keepAd ==> adWhole)
      modifies `adWhole, `adText, `adChecksum, `adBlocks, `adOffset
      ensures AdValid()
      ensures if keepAd then adWhole && adText == old(adText) else !adWhole && adText == []
    {
      hide Offset, Hash, Sum;
      StartValues(cipher, ZERO);
      adOffset, adBlocks := ZERO, 0;
      if !keepAd {
        adChecksum := ZERO;
        adText, adWhole := [], false;
      }
    }

    /** The associated data of one call, if there is any. */
    method TakeAd(a: Bits, final: bool)
      requires Valid() && (a != [] ==> !adWhole) && (!final ==> |a| % 512 == 0)
      requires |adText| + |a| < 128 * BLOCK_LIMIT || a == []
      modifies this`adOffset, this`adChecksum, this`adBlocks, this`adText, this`adWhole
      ensures Valid() && adText == old(adText) + a
      ensures adWhole == (final || old(adWhole))
    {
      hide Hash, Sum, Offset, MakeKtop, L, KeyValid;
      if |a| > 0 {
        ProcessAd(a, final);
      } else if final && !adWhole {
        HashMeaning(cipher, adText, adBlocks);
        adWhole := true;
      }
    }

    /** Encrypt one piece of a message in progress. */
    method EncryptPiece(p: Bits, final: bool) returns (ct: Bits, tag: Block)
      requires Valid() && Encrypting() && (!final ==> |p| % 512 == 0) && |text| + |p| < 128 * BLOCK_LIMIT
      modifies this`offset, this`checksum, this`blocks, this`text
      ensures Valid() && text == old(text) + p
      ensures ct == Ciphertext(cipher, start, text)[|old(text)|..]
      ensures final ==> tag == Tag(cipher, start, text, adChecksum)
      ensures !final ==> Encrypting()
    {
      hide Offset, KeyValid, AdValid, Checksum, PlainBlocks, CipherBlocks, Plaintext, Ciphertext, Tag, Xor, Padded, TagOf, LStar;
      ghost var t, n := text + p, blocks;
      ChecksumPrefix(text, p, blocks);
      assert t[128 * n..] == p;
      ct := EncryptBatches(p, t);
      tag := ZERO;
      var rest := p[512 * (|p| / 512)..];
      TailRest(t, p, n);
      if final {
        var more;
        more, tag := EncryptTail(rest, t);
        Associate(CipherBlocks(cipher, start, t, n), ct, more);
        ct := ct + more;
      } else {
        TailMeaning(cipher, start, t, blocks, ZERO);
      }
      Dropped(CipherBlocks(cipher, start, t, n), ct, Ciphertext(cipher, start, t));
      text := t;
    }

    /** `ae_encrypt`. However a message is divided into calls, their ciphertexts put together
        are the ciphertext of the whole, and the last one has its tag. */
    method AeEncrypt(nonce: Option<Bits>, p: Bits, a: Option<Bits>, final: bool) returns (ct: Bits, tag: Block)
      requires Valid() && Usable(nonce, p, a, final)
      requires nonce.None? ==> Encrypting()
      modifies this
      ensures Valid() && adText == old(AdAfter(nonce, a))
      ensures adWhole == (final || if nonce.Some? then a.None? else old(adWhole))
      ensures start == if nonce.Some? then Offset0(cipher, nonce.value) else old(start)
      ensures text == (if nonce.Some? then [] else old(text)) + p
      ensures ct == Ciphertext(cipher, start, text)[|text| - |p|..]
      ensures final ==> tag == Tag(cipher, start, text, Hash(cipher, adText))
      ensures !final ==> Encrypting()
    {
      hide Hash, Sum, Offset, Offset0, KeyValid, Checksum, CipherBlocks, PlainBlocks, Ciphertext, Tag;
      if nonce.Some? {
        NewMessage(nonce.value, a.None?);
      }
      TakeAd(if a.Some? then a.value else [], final);
      assert adText == old(AdAfter(nonce, a));
      ct, tag := EncryptPiece(p, final);
    }

    /** Decrypt one piece of a message in progress; the result is its plaintext and, for the
        last piece, the tag that it should have. */
    method DecryptPiece(x: Bits, final: bool) returns (pt: Bits, tag: Block)
      requires Valid() && Decrypting() && |text| + |x| < 128 * BLOCK_LIMIT
      requires if final then |x| % 8 == 0 else |x| % 512 == 0
      modifies this`offset, this`checksum, this`blocks, this`text
      ensures Valid() && text == old(text) + x
      ensures pt == Plaintext(cipher, start, text)[|old(text)|..]
      ensures final ==> tag == Tag(cipher, start, Plaintext(cipher, start, text), adChecksum)
      ensures !final ==> Decrypting()
    {
      hide Offset, KeyValid, AdValid, Checksum, PlainBlocks, CipherBlocks, Plaintext, Ciphertext, Tag, Xor, Padded, TagOf, LStar;
      ghost var t, n := text + x, blocks;
      PlainPrefix(cipher, start, text, x, blocks);
      assert t[128 * n..] == x;
      pt := DecryptBatches(x, t);
      tag := ZERO;
      var rest := x[512 * (|x| / 512)..];
      TailRest(t, x, n);
      if final {
        var more;
        more, tag := DecryptTail(rest, t);
        Associate(PlainBlocks(cipher, start, t, n), pt, more);
        pt := pt + more;
      } else {
        TailMeaning(cipher, start, t, blocks, ZERO);
      }
      Dropped(PlainBlocks(cipher, start, t, n), pt, Plaintext(cipher, start, t));
      text := t;
    }

    /** `ae_decrypt`, with the tag behind the last piece. */
    method AeDecrypt(nonce: Option<Bits>, x: Bits, a: Option<Bits>, final: bool) returns (r: Opened)
      requires final ==> |x| >= 128 && |x| % 8 == 0
      requires Valid() && Usable(nonce, Body(x, final), a, final)
      requires nonce.None? ==> Decrypting()
      modifies this
      ensures Valid() && adText == old(AdAfter(nonce, a))
      ensures adWhole == (final || if nonce.Some? then a.None? else old(adWhole))
      ensures start == if nonce.Some? then Offset0(cipher, nonce.value) else old(start)
      ensures text == (if nonce.Some? then [] else old(text)) + Body(x, final)
      ensures var p := Plaintext(cipher, start, text);
              r == if final && Tag(cipher, start, p, Hash(cipher, adText)) != x[|x| - 128..] then Invalid
                   else Opened(p[|text| - |Body(x, final)|..])
      ensures !final ==> Decrypting()
    {
      hide Hash, Sum, Offset, Offset0, KeyValid, Checksum, CipherBlocks, PlainBlocks, Plaintext, Tag;
      if nonce.Some? {
        NewMessage(nonce.value, a.None?);
      }
      TakeAd(if a.Some? then a.value else [], final);
      assert adText == old(AdAfter(nonce, a));
      var body := if final then x[..|x| - 128] else x;
      var pt, tag := DecryptPiece(body, final);
      r := if final && tag != x[|x| - 128..] then Invalid else Opened(pt);
    }

    /** The table is right for the batch after `n` blocks. */
    lemma BatchTable(n: nat)
      requires KeyValid() && n % 4 == 0
      ensures table.Length == TABLE_SIZE && table[0] == L(cipher, 0) && table[1] == L(cipher, 1)
      ensures n + 4 < BLOCK_LIMIT ==> Ntz(n + 4) < TABLE_SIZE && table[Ntz(n + 4)] == L(cipher, Ntz(n + 4))
    {
      hide L, Ntz;
      if n + 4 < BLOCK_LIMIT {
        TableReaches(n + 4);
      }
    }
  }

  /** The loop that encrypts blocks in place, from the last to the first. */
  method Ecb(c: Cipher, ta: seq<Block>) returns (done: seq<Block>)
    ensures |done| == |ta| && forall i :: 0 <= i < |ta| ==> done[i] == c.enc(ta[i])
  {
    done := ta;
    var n := |ta|;
    while n != 0
      invariant 0 <= n <= |ta| == |done|
      invariant forall i :: 0 <= i < n ==> done[i] == ta[i]
      invariant forall i :: n <= i < |ta| ==> done[i] == c.enc(ta[i])
    {
      n := n - 1;
      done := done[n := c.enc(done[n])];
    }
  }

  /** (a ^ b) ^ c == (c ^ b) ^ a. */
  lemma SwapXor(a: Block, b: Block, c: Block)
    ensures Xor(Xor(a, b), c) == Xor(Xor(c, b), a)
  {
    XorComm(Xor(a, b), c);
    XorComm(a, b);
    XorAssoc(c, b, a);
  }

  /** (s ^ p) ^ c == s ^ (c ^ p). */
  lemma MoveXor(s: Block, p: Block, c: Block)
    ensures Xor(Xor(s, p), c) == Xor(s, Xor(c, p))
  {
    XorAssoc(s, p, c);
    XorComm(p, c);
  }

  lemma XorZeroBlock(b: Block)
    ensures Xor(b, ZERO) == b
  {
    XorZero(b);
  }

  /** Copying the ciphertext over the pad and xoring with the pad leaves the plaintext and
      zeros; setting the byte behind it makes the padded plaintext. */
  lemma RebuiltPad(x: Bits, pad: Block)
    requires |x| < 128 && |x| % 8 == 0
    ensures var r := |x|;
            var tmp := Xor(x + pad[r..], pad);
            var p := Xor(x, pad[..r]);
            && r + 8 <= 128 && tmp[..r] == p
            && tmp[..r] + [true] + Zeros(7) + tmp[r + 8..] == Padded(p)
            && (tmp[..r] + [true] + Zeros(7) + tmp[r + 8..])[..r] == p
  {
  }

  /** How the plaintext of a whole message divides. */
  lemma PlainSplits(c: Cipher, start: Block, t: Bits, n: nat, m: nat)
    requires n <= m == |t| / 128
    ensures var p := Plaintext(c, start, t);
            && Checksum(p, n) == Checksum(PlainBlocks(c, start, t, n), n)
            && (forall i :: 0 <= i < m ==> BlockAt(p, i) == PlainBlock(c, start, t, i))
  {
    hide Xor, Offset, PlainBlock, PlainBlocks, Checksum, BlockAt;
    var p := Plaintext(c, start, t);
    var front := PlainBlocks(c, start, t, m);
    SplitTail(p, front, p[128 * m..], m);
    forall i | 0 <= i < m
      ensures BlockAt(p, i) == PlainBlock(c, start, t, i)
    {
      BlockOfPlainBlocks(c, start, t, m, i);
    }
    PlainTake(c, start, t, n, m);
    assert p == front[..128 * n] + p[128 * n..];
    ChecksumPrefix(front[..128 * n], p[128 * n..], n);
  }

  /** What the plaintext and the tag of a whole message are, from the parts of its tail. */
  lemma OpenedTail(c: Cipher, start: Block, t: Bits, m: nat, partial: Bits, base: Block, last: Block, hash: Block)
    requires m == |t| / 128
    requires var x := t[128 * m..];
             && partial == (if x == [] then [] else Xor(x, c.enc(Xor(Offset(c, start, m), LStar(c)))[..|x|]))
             && base == (if x == [] then ZERO else Padded(partial))
             && last == (if x == [] then Offset(c, start, m) else Xor(Offset(c, start, m), LStar(c)))
    ensures Plaintext(c, start, t) == PlainBlocks(c, start, t, m) + partial
    ensures var p := Plaintext(c, start, t); Tag(c, start, p, hash) == TagOf(c, Xor(Checksum(p, m), base), last, hash)
  {
    hide Xor, Offset, PlainBlocks, CipherBlocks, Checksum, Padded, TagOf, Plaintext, Tag, BlockAt, PlainBlock, Ciphertext;
    var p := Plaintext(c, start, t);
    TailMeaning(c, start, t, m, hash);
    TailMeaning(c, start, p, m, hash);
    assert p[128 * m..] == partial;
    XorZeroBlock(Checksum(p, m));
  }

  lemma {:induction false} PlainTake(c: Cipher, start: Block, t: Bits, n: nat, m: nat)
    requires n <= m && 128 * m <= |t|
    ensures PlainBlocks(c, start, t, m)[..128 * n] == PlainBlocks(c, start, t, n)
    decreases m
  {
    hide PlainBlock;
    if n < m {
      PlainTake(c, start, t, n, m - 1);
    }
  }

  lemma FourPlainChecksum(c: Cipher, start: Block, t: Bits, n: nat)
    requires 128 * (n + 4) <= |t|
    ensures Checksum(PlainBlocks(c, start, t, n + 4), n + 4) ==
            Xor(Xor(Xor(Xor(Checksum(PlainBlocks(c, start, t, n), n), PlainBlock(c, start, t, n)),
                        PlainBlock(c, start, t, n + 1)), PlainBlock(c, start, t, n + 2)), PlainBlock(c, start, t, n + 3))
  {
    hide Xor, PlainBlock, PlainBlocks, BlockAt, Checksum;
    var p, q := PlainBlocks(c, start, t, n), PlainBlocks(c, start, t, n + 4);
    PlainTake(c, start, t, n, n + 4);
    assert q == p + q[128 * n..];
    ChecksumPrefix(p, q[128 * n..], n);
    FourChecksum(q, n);
    BlockOfPlainBlocks(c, start, t, n + 4, n);
    BlockOfPlainBlocks(c, start, t, n + 4, n + 1);
    BlockOfPlainBlocks(c, start, t, n + 4, n + 2);
    BlockOfPlainBlocks(c, start, t, n + 4, n + 3);
  }

  lemma TailMeaning(c: Cipher, start: Block, t: Bits, m: nat, hash: Block)
    requires m == |t| / 128
    ensures var x := t[128 * m..];
            && |x| < 128
            && Ciphertext(c, start, t) == CipherBlocks(c, start, t, m) +
                 (if x == [] then [] else Xor(x, c.enc(Xor(Offset(c, start, m), LStar(c)))[..|x|]))
            && Plaintext(c, start, t) == PlainBlocks(c, start, t, m) +
                 (if x == [] then [] else Xor(x, c.enc(Xor(Offset(c, start, m), LStar(c)))[..|x|]))
            && Tag(c, start, t, hash) ==
                 if x == [] then TagOf(c, Checksum(t, m), Offset(c, start, m), hash)
                 else TagOf(c, Xor(Checksum(t, m), Padded(x)), Xor(Offset(c, start, m), LStar(c)), hash)
  {
    hide Xor, Offset, CipherBlocks, PlainBlocks, Checksum, Padded, TagOf;
  }

  /** Add contributions from the last to the first; `f` lists what adding them in order gives. */
  method XorDown(sum0: Block, done: seq<Block>, ghost f: seq<Block>) returns (sum: Block)
    requires |f| == |done| + 1 && f[0] == sum0
    requires forall j :: 0 <= j < |done| ==> f[j + 1] == Xor(f[j], done[j])
    ensures sum == f[|done|]
  {
    hide Xor;
    sum := sum0;
    var k := |done|;
    XorComm(sum, f[k]);
    while k != 0
      invariant 0 <= k <= |done|
      invariant Xor(sum, f[k]) == Xor(f[|done|], sum0)
    {
      k := k - 1;
      MoveXor(sum, done[k], f[k]);
      sum := Xor(sum, done[k]);
    }
    XorTwice(sum, sum0);
    XorTwice(f[|done|], sum0);
  }

  lemma HashMeaning(c: Cipher, t: Bits, m: nat)
    requires m == |t| / 128
    ensures var x := t[128 * m..];
            && |x| < 128
            && Hash(c, t) == if x == [] then Sum(c, t, m)
                             else Xor(Sum(c, t, m), c.enc(Xor(Padded(x), Xor(Offset(c, ZERO, m), LStar(c)))))
  {
    hide Xor, Offset, Sum, Padded;
  }

  lemma StartValues(c: Cipher, first: Block)
    ensures Offset(c, first, 0) == first && Offset(c, ZERO, 0) == ZERO
    ensures Checksum([], 0) == ZERO && Checksum(PlainBlocks(c, first, [], 0), 0) == ZERO && Sum(c, [], 0) == ZERO
  {
  }

  /** Without the tag behind the last piece. */
  function Body(x: Bits, final: bool): Bits
    requires final ==> |x| >= 128
  {
    if final then x[..|x| - 128] else x
  }

  lemma EightDivides(m: int)
    ensures (8 * m) % 8 == 0
  {
  }

  /** The bytes behind the batches are whole bytes. */
  lemma BytesLeft(n: nat, k: nat, r: nat)
    requires n == 512 * k + r && n % 8 == 0
    ensures r % 8 == 0
  {
    var q := n / 8;
    assert n == 8 * q;
    assert r == 8 * (q - 64 * k);
    EightDivides(q - 64 * k);
  }

  lemma BlocksOf(m: nat)
    ensures (128 * m) / 128 == m
  {
  }

  /** What is left after the batches. */
  lemma TailRest(t: Bits, x: Bits, n: nat)
    requires |t| == 128 * n + |x| && t[128 * n..] == x
    ensures var k := |x| / 512; t[128 * (n + 4 * k)..] == x[512 * k..] && |x[512 * k..]| < 512
    ensures |x| % 512 == 0 ==> |t| / 128 == n + 4 * (|x| / 512) && |t| == 128 * (|t| / 128)
    ensures |x| % 8 == 0 ==> |x[512 * (|x| / 512)..]| % 8 == 0
  {
    var k := |x| / 512;
    var r := |x| - 512 * k;
    assert 0 <= r < 512;
    if |x| % 8 == 0 { BytesLeft(|x|, k, r); }
    if |x| % 512 == 0 { BlocksOf(n + 4 * k); }
  }

  lemma Dropped(a: Bits, b: Bits, whole: Bits)
    requires a + b == whole
    ensures b == whole[|a|..]
  {
  }

  lemma Associate(a: Bits, b: Bits, c: Bits)
    ensures a + (b + c) == a + b + c
  {
  }

  lemma TailSplit(t: Bits, rest: Bits, n: nat, k: nat)
    requires |t| == 128 * n + |rest| && t[128 * n..] == rest && k == |rest| / 128
    ensures |t| / 128 == n + k && t[128 * (n + k)..] == rest[128 * k..]
  {
  }

  lemma TagOrder(off: Block, d: Block, sum: Block)
    ensures Xor(Xor(off, d), sum) == Xor(Xor(sum, off), d)
  {
    XorComm(Xor(off, d), sum);
    XorAssoc(sum, off, d);
  }

  /** Xoring a padded block and keeping its first part is xoring the first part. */
  lemma PartialBlock(x: Bits, pad: Block)
    requires |x| < 128
    ensures Xor(Padded(x), pad)[..|x|] == Xor(x, pad[..|x|])
  {
  }

  lemma LSteps(c: Cipher)
    ensures L(c, 0) == Double(LDollar(c))
    ensures forall i :: 0 < i ==> L(c, i) == Double(L(c, i - 1))
  {
    hide Double;
  }

  lemma HashEmpty(c: Cipher)
    ensures Hash(c, []) == ZERO
  {
  }

  lemma Append4(x: Bits, y: Bits, a: Bits, b: Bits, c: Bits, d: Bits)
    ensures x + (y + a + b + c + d) == (x + y) + a + b + c + d
  {
  }
}
