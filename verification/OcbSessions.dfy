/** Whole messages over the context: one call, many calls, and there and back. */
module OcbSessions {
  import opened Options
  import opened Ocb
  import opened OcbCode
  import opened OcbContexts

  /** One call computes section 4.2 of RFC 7253. */
  method EncryptOnce(ctx: AeContext, nonce: Bits, a: Bits, p: Bits) returns (x: Bits)
    requires ctx.Valid() && |nonce| == 96
    requires |p| < 128 * BLOCK_LIMIT && |a| < 128 * BLOCK_LIMIT
    modifies ctx
    ensures ctx.Valid() && ctx.adWhole && ctx.adText == a
    ensures x == Encrypt(ctx.cipher, nonce, a, p)
  {
    hide Ciphertext, Tag, Offset0, Hash;
    var ct, tag := ctx.AeEncrypt(Some(nonce), p, Some(a), true);
    assert ctx.text == p;
    x := ct + tag;
  }

  /** A negative length of associated data means that of the last message. */
  method EncryptSameAd(ctx: AeContext, nonce: Bits, p: Bits) returns (x: Bits)
    requires ctx.Valid() && ctx.adWhole && |nonce| == 96 && |p| < 128 * BLOCK_LIMIT
    modifies ctx
    ensures ctx.Valid() && ctx.adWhole && ctx.adText == old(ctx.adText)
    ensures x == Encrypt(ctx.cipher, nonce, old(ctx.adText), p)
  {
    hide Ciphertext, Tag, Offset0, Hash;
    var ct, tag := ctx.AeEncrypt(Some(nonce), p, None, true);
    assert ctx.text == p;
    x := ct + tag;
  }

  /** What one call is given of the associated data and of the text. */
  datatype Piece = Piece(ad: Bits, text: Bits)

  function Ads(pieces: seq<Piece>): Bits {
    if pieces == [] then [] else Ads(pieces[..|pieces| - 1]) + pieces[|pieces| - 1].ad
  }

  function Texts(pieces: seq<Piece>): Bits {
    if pieces == [] then [] else Texts(pieces[..|pieces| - 1]) + pieces[|pieces| - 1].text
  }

  /** Every call but the last one takes whole batches. */
  ghost predicate Batched(pieces: seq<Piece>) {
    forall i :: 0 <= i < |pieces| ==> |pieces[i].ad| % 512 == 0 && |pieces[i].text| % 512 == 0
  }

  /** Calls up to the `n`-th stay within the limits if all of them do. */
  lemma {:induction false} PiecesLength(pieces: seq<Piece>, n: nat)
    requires n <= |pieces|
    ensures |Ads(pieces[..n])| <= |Ads(pieces)| && |Texts(pieces[..n])| <= |Texts(pieces)|
    decreases |pieces|
  {
    if n < |pieces| {
      var m := |pieces| - 1;
      assert pieces[..m][..n] == pieces[..n];
      PiecesLength(pieces[..m], n);
    } else {
      assert pieces[..n] == pieces;
    }
  }

  lemma OnePiece(piece: Piece)
    ensures Ads([piece]) == piece.ad && Texts([piece]) == piece.text
  {
    assert [piece][..0] == [];
  }

  /** However associated data and text are divided into calls, the result is that of one call. */
  method EncryptInPieces(ctx: AeContext, nonce: Bits, pieces: seq<Piece>, last: Piece) returns (x: Bits)
    requires ctx.Valid() && |nonce| == 96 && Batched(pieces)
    requires |Ads(pieces)| + |last.ad| < 128 * BLOCK_LIMIT && |Texts(pieces)| + |last.text| < 128 * BLOCK_LIMIT
    modifies ctx
    ensures ctx.Valid()
    ensures x == Encrypt(ctx.cipher, nonce, Ads(pieces) + last.ad, Texts(pieces) + last.text)
  {
    hide Ciphertext, Tag, Offset0, Hash, AeContext.Valid, AeContext.Encrypting, Ads, Texts;
    assert Ads([]) == [] && Texts([]) == [] by { NoPieces(); }
    assert [] + last.ad == last.ad && [] + last.text == last.text;
    if pieces == [] {
      x := EncryptOnce(ctx, nonce, last.ad, last.text);
      return;
    }
    assert pieces[..1] == [pieces[0]];
    OnePiece(pieces[0]);
    PiecesLength(pieces, 1);
    x := Open(ctx, nonce, pieces[0]);
    for i := 1 to |pieces|
      invariant ctx.Valid() && ctx.Encrypting() && !ctx.adWhole && ctx.start == Offset0(ctx.cipher, nonce)
      invariant ctx.adText == Ads(pieces[..i]) && ctx.text == Texts(pieces[..i])
      invariant x == Ciphertext(ctx.cipher, ctx.start, ctx.text)
    {
      NextPiece(pieces, i);
      PiecesLength(pieces, i + 1);
      x := Continue(ctx, x, pieces[i]);
    }
    assert pieces[..|pieces|] == pieces;
    x := Finish(ctx, x, last);
  }

  lemma NoPieces()
    ensures Ads([]) == [] && Texts([]) == []
  {
  }

  lemma NextPiece(pieces: seq<Piece>, i: nat)
    requires i < |pieces|
    ensures Ads(pieces[..i + 1]) == Ads(pieces[..i]) + pieces[i].ad && Texts(pieces[..i + 1]) == Texts(pieces[..i]) + pieces[i].text
  {
    assert pieces[..i + 1][..i] == pieces[..i];
  }

  /** The pending call that begins a message. */
  method Open(ctx: AeContext, nonce: Bits, piece: Piece) returns (x: Bits)
    requires ctx.Valid() && |nonce| == 96 && |piece.ad| % 512 == 0 && |piece.text| % 512 == 0
    requires |piece.ad| < 128 * BLOCK_LIMIT && |piece.text| < 128 * BLOCK_LIMIT
    modifies ctx
    ensures ctx.Valid() && ctx.Encrypting() && !ctx.adWhole && ctx.start == Offset0(ctx.cipher, nonce)
    ensures ctx.adText == piece.ad && ctx.text == piece.text && x == Ciphertext(ctx.cipher, ctx.start, ctx.text)
  {
    hide Ciphertext, Tag, Offset0, Hash, Offset, Checksum;
    var tag;
    x, tag := ctx.AeEncrypt(Some(nonce), piece.text, Some(piece.ad), false);
    assert ctx.text == piece.text;
  }

  /** A pending call in the middle of a message. */
  method Continue(ctx: AeContext, x: Bits, piece: Piece) returns (y: Bits)
    requires ctx.Valid() && ctx.Encrypting() && !ctx.adWhole && x == Ciphertext(ctx.cipher, ctx.start, ctx.text)
    requires |piece.ad| % 512 == 0 && |piece.text| % 512 == 0
    requires |ctx.adText| + |piece.ad| < 128 * BLOCK_LIMIT && |ctx.text| + |piece.text| < 128 * BLOCK_LIMIT
    modifies ctx
    ensures ctx.Valid() && ctx.Encrypting() && !ctx.adWhole && ctx.start == old(ctx.start)
    ensures ctx.adText == old(ctx.adText) + piece.ad && ctx.text == old(ctx.text) + piece.text
    ensures y == Ciphertext(ctx.cipher, ctx.start, ctx.text)
  {
    hide Ciphertext, Tag, Offset0, Hash, CipherBlocks, Offset, Checksum, AeContext.Valid;
    var ct, tag := ctx.AeEncrypt(None, piece.text, Some(piece.ad), false);
    CiphertextPrefix(ctx.cipher, ctx.start, old(ctx.text), piece.text);
    y := x + ct;
  }

  /** The call that finishes a message. */
  method Finish(ctx: AeContext, x: Bits, last: Piece) returns (y: Bits)
    requires ctx.Valid() && ctx.Encrypting() && !ctx.adWhole && x == Ciphertext(ctx.cipher, ctx.start, ctx.text)
    requires |ctx.adText| + |last.ad| < 128 * BLOCK_LIMIT && |ctx.text| + |last.text| < 128 * BLOCK_LIMIT
    modifies ctx
    ensures ctx.Valid() && ctx.start == old(ctx.start)
    ensures ctx.adText == old(ctx.adText) + last.ad && ctx.text == old(ctx.text) + last.text
    ensures y == Ciphertext(ctx.cipher, ctx.start, ctx.text)
                 + Tag(ctx.cipher, ctx.start, ctx.text, Hash(ctx.cipher, ctx.adText))
  {
    hide Ciphertext, Tag, Offset0, Hash, CipherBlocks, Offset, Checksum, AeContext.Valid;
    var ct, tag := ctx.AeEncrypt(None, last.text, Some(last.ad), true);
    CiphertextPrefix(ctx.cipher, ctx.start, old(ctx.text), last.text);
    y := x + ct + tag;
    assert y == (x + ct) + tag;
  }

  // ---------------------------------------------------------------- decryption in pieces

  /** However associated data and ciphertext are divided into calls, the result is that of one call: the last call
      refuses the message or gives the rest of its plaintext. */
  method DecryptInPieces(ctx: AeContext, nonce: Bits, pieces: seq<Piece>, last: Piece) returns (r: Opened)
    requires ctx.Valid() && |nonce| == 96 && Batched(pieces) && 128 <= |last.text| && |last.text| % 8 == 0
    requires |Ads(pieces)| + |last.ad| < 128 * BLOCK_LIMIT && |Texts(pieces)| + |last.text| < 128 * BLOCK_LIMIT
    modifies ctx
    ensures ctx.Valid()
    ensures r == Decrypt(ctx.cipher, nonce, Ads(pieces) + last.ad, Texts(pieces) + last.text)
  {
    hide Plaintext, Tag, Offset0, Hash, AeContext.Valid, AeContext.Decrypting, Ads, Texts;
    assert Ads([]) == [] && Texts([]) == [] by { NoPieces(); }
    assert [] + last.ad == last.ad && [] + last.text == last.text;
    if pieces == [] {
      r := DecryptOnce(ctx, nonce, last.ad, last.text);
      return;
    }
    assert pieces[..1] == [pieces[0]];
    OnePiece(pieces[0]);
    PiecesLength(pieces, 1);
    var p := OpenDecryption(ctx, nonce, pieces[0]);
    for i := 1 to |pieces|
      invariant ctx.Valid() && ctx.Decrypting() && !ctx.adWhole && ctx.start == Offset0(ctx.cipher, nonce)
      invariant ctx.adText == Ads(pieces[..i]) && ctx.text == Texts(pieces[..i])
      invariant p == Plaintext(ctx.cipher, ctx.start, ctx.text)
    {
      NextPiece(pieces, i);
      PiecesLength(pieces, i + 1);
      p := ContinueDecryption(ctx, p, pieces[i]);
    }
    assert pieces[..|pieces|] == pieces;
    r := FinishDecryption(ctx, p, last);
    WholeBody(Texts(pieces), last.text);
  }

  lemma WholeBody(before: Bits, last: Bits)
    requires 128 <= |last|
    ensures var x := before + last; x[..|x| - 128] == before + last[..|last| - 128] && x[|x| - 128..] == last[|last| - 128..]
  {
  }

  method OpenDecryption(ctx: AeContext, nonce: Bits, piece: Piece) returns (p: Bits)
    requires ctx.Valid() && |nonce| == 96 && |piece.ad| % 512 == 0 && |piece.text| % 512 == 0
    requires |piece.ad| < 128 * BLOCK_LIMIT && |piece.text| < 128 * BLOCK_LIMIT
    modifies ctx
    ensures ctx.Valid() && ctx.Decrypting() && !ctx.adWhole && ctx.start == Offset0(ctx.cipher, nonce)
    ensures ctx.adText == piece.ad && ctx.text == piece.text && p == Plaintext(ctx.cipher, ctx.start, ctx.text)
  {
    hide Plaintext, Tag, Offset0, Hash, Offset, Checksum, PlainBlocks;
    var r := ctx.AeDecrypt(Some(nonce), piece.text, Some(piece.ad), false);
    assert ctx.text == piece.text;
    p := r.plain;
  }

  method ContinueDecryption(ctx: AeContext, p: Bits, piece: Piece) returns (q: Bits)
    requires ctx.Valid() && ctx.Decrypting() && !ctx.adWhole && p == Plaintext(ctx.cipher, ctx.start, ctx.text)
    requires |piece.ad| % 512 == 0 && |piece.text| % 512 == 0
    requires |ctx.adText| + |piece.ad| < 128 * BLOCK_LIMIT && |ctx.text| + |piece.text| < 128 * BLOCK_LIMIT
    modifies ctx
    ensures ctx.Valid() && ctx.Decrypting() && !ctx.adWhole && ctx.start == old(ctx.start)
    ensures ctx.adText == old(ctx.adText) + piece.ad && ctx.text == old(ctx.text) + piece.text
    ensures q == Plaintext(ctx.cipher, ctx.start, ctx.text)
  {
    hide Plaintext, Tag, Offset0, Hash, PlainBlocks, Offset, Checksum;
    var r := ctx.AeDecrypt(None, piece.text, Some(piece.ad), false);
    PlaintextPrefix(ctx.cipher, ctx.start, old(ctx.text), piece.text);
    q := p + r.plain;
  }

  /** The call that finishes a message and tells whether its tag is right. */
  method FinishDecryption(ctx: AeContext, p: Bits, last: Piece) returns (r: Opened)
    requires ctx.Valid() && ctx.Decrypting() && !ctx.adWhole && p == Plaintext(ctx.cipher, ctx.start, ctx.text)
    requires 128 <= |last.text| && |last.text| % 8 == 0
    requires |ctx.adText| + |last.ad| < 128 * BLOCK_LIMIT && |ctx.text| + |last.text| < 128 * BLOCK_LIMIT
    modifies ctx
    ensures ctx.Valid() && ctx.start == old(ctx.start)
    ensures ctx.adText == old(ctx.adText) + last.ad && ctx.text == old(ctx.text) + last.text[..|last.text| - 128]
    ensures var q := Plaintext(ctx.cipher, ctx.start, ctx.text);
            r == if Tag(ctx.cipher, ctx.start, q, Hash(ctx.cipher, ctx.adText)) == last.text[|last.text| - 128..] then Opened(q)
                 else Invalid
  {
    hide Plaintext, Tag, Offset0, Hash, PlainBlocks, Offset, Checksum;
    r := ctx.AeDecrypt(None, last.text, Some(last.ad), true);
    PlaintextPrefix(ctx.cipher, ctx.start, old(ctx.text), last.text[..|last.text| - 128]);
    if r.Opened? {
      r := Opened(p + r.plain);
    }
  }

  /** The plaintext of whole blocks is a prefix of that of a longer message. */
  lemma PlaintextPrefix(c: Cipher, start: Block, x: Bits, y: Bits)
    requires |x| % 128 == 0
    ensures Plaintext(c, start, x + y)[..|x|] == Plaintext(c, start, x)
  {
    hide Xor, Offset, PlainBlocks, Ciphertext, Tag, Plaintext;
    var n, m := |x| / 128, |x + y| / 128;
    TailMeaning(c, start, x, n, ZERO);
    TailMeaning(c, start, x + y, m, ZERO);
    PlainPrefix(c, start, x, y, n);
    PlainTake(c, start, x + y, n, m);
  }

  /** The ciphertext of whole blocks is a prefix of that of a longer message. */
  lemma CiphertextPrefix(c: Cipher, start: Block, p: Bits, q: Bits)
    requires |p| % 128 == 0
    ensures Ciphertext(c, start, p + q)[..|p|] == Ciphertext(c, start, p)
  {
    hide Xor, Offset, CipherBlock, CipherBlocks, Ciphertext, Tag, Plaintext;
    var n, m := |p| / 128, |p + q| / 128;
    TailMeaning(c, start, p, n, ZERO);
    TailMeaning(c, start, p + q, m, ZERO);
    CipherPrefix(c, start, p, q, n);
    CipherTake(c, start, p + q, n, m);
  }

  lemma {:induction false} CipherTake(c: Cipher, start: Block, t: Bits, n: nat, m: nat)
    requires n <= m && 128 * m <= |t|
    ensures CipherBlocks(c, start, t, m)[..128 * n] == CipherBlocks(c, start, t, n)
    decreases m
  {
    hide CipherBlock;
    if n < m {
      CipherTake(c, start, t, n, m - 1);
    }
  }

  /** One call computes section 4.3 of RFC 7253. */
  method DecryptOnce(ctx: AeContext, nonce: Bits, a: Bits, x: Bits) returns (r: Opened)
    requires ctx.Valid() && |nonce| == 96
    requires 128 <= |x| < 128 * BLOCK_LIMIT && |x| % 8 == 0 && |a| < 128 * BLOCK_LIMIT
    modifies ctx
    ensures ctx.Valid() && ctx.adWhole && ctx.adText == a
    ensures r == Decrypt(ctx.cipher, nonce, a, x)
  {
    hide Plaintext, Tag, Offset0, Hash;
    r := ctx.AeDecrypt(Some(nonce), x, Some(a), true);
    assert ctx.text == x[..|x| - 128];
  }

  /** What one context seals, another with the same key opens, and to the same plaintext. */
  method ThereAndBack(sealer: AeContext, opener: AeContext, nonce: Bits, a: Bits, p: Bits) returns (r: Opened)
    requires sealer != opener && sealer.Valid() && opener.Valid() && sealer.table != opener.table
    requires sealer.cipher == opener.cipher && Bijective(sealer.cipher)
    requires |nonce| == 96 && |p| % 8 == 0 && |p| + 128 < 128 * BLOCK_LIMIT && |a| < 128 * BLOCK_LIMIT
    modifies sealer, opener
    ensures r == Opened(p)
  {
    hide Encrypt, Decrypt;
    var x := EncryptOnce(sealer, nonce, a, p);
    EncryptLength(sealer.cipher, nonce, a, p);
    OpensExactly(sealer.cipher, nonce, a, x, p);
    r := DecryptOnce(opener, nonce, a, x);
  }

  lemma EncryptLength(c: Cipher, nonce: Bits, a: Bits, p: Bits)
    requires |nonce| == 96
    ensures |Encrypt(c, nonce, a, p)| == |p| + 128
  {
  }
}
