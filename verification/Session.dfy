/** Sessions: messages to encrypted strings and back. */
module Sessions {
  import opened Options
  import opened UserStreams
  import opened Ocb
  import opened OcbContexts
  import opened OcbCode
  import OcbSessions
  import opened Packets

  /** The last `k` binary digits of a number. */
  function Digits(n: nat, k: nat): (b: Bits)
    ensures |b| == k
  {
    if k == 0 then [] else Digits(n / 2, k - 1) + [n % 2 == 1]
  }

  lemma {:induction false} DigitsNum(n: nat, k: nat)
    requires n < Pow2(k)
    ensures Num(Digits(n, k)) == n
  {
    if k > 0 {
      DigitsNum(n / 2, k - 1);
      assert Digits(n, k)[..k - 1] == Digits(n / 2, k - 1);
    }
  }

  lemma {:induction false} NumDigits(b: Bits)
    ensures Num(b) < Pow2(|b|) && Digits(Num(b), |b|) == b
  {
    if b != [] {
      var front := b[..|b| - 1];
      NumDigits(front);
      assert b == front + [b[|b| - 1]];
    }
  }

  lemma ByteRange()
    ensures Pow2(8) == 0x100
  {
    assert Pow2(4) == 16;
  }

  /** Bytes as bits, the highest bit first. */
  function BitsOf(s: seq<Byte>): (b: Bits)
    ensures |b| == 8 * |s|
  {
    if s == [] then [] else BitsOf(s[..|s| - 1]) + Digits(s[|s| - 1] as int, 8)
  }

  /** Whole bytes from the end of the string. */
  function BytesOf(b: Bits): (s: seq<Byte>)
    ensures |s| == |b| / 8
  {
    if |b| < 8 then []
    else
      var k := |b| - 8;
      OneByte(b[k..]);
      BytesOf(b[..k]) + [Num(b[k..]) as Byte]
  }

  lemma OneByte(b: Bits)
    requires |b| == 8
    ensures Num(b) < 0x100
  {
    hide Num;
    NumDigits(b);
    ByteRange();
  }

  lemma {:induction false} BytesOfBits(s: seq<Byte>)
    ensures BytesOf(BitsOf(s)) == s
  {
    hide Digits;
    if s != [] {
      var front, last := s[..|s| - 1], s[|s| - 1];
      BytesOfBits(front);
      ByteRange();
      DigitsNum(last as int, 8);
      var b := BitsOf(s);
      assert b[..|b| - 8] == BitsOf(front) && b[|b| - 8..] == Digits(last as int, 8);
      assert s == front + [last];
    }
  }

  lemma {:induction false} BitsOfBytes(b: Bits)
    requires |b| % 8 == 0
    ensures BitsOf(BytesOf(b)) == b
  {
    hide Digits, Num;
    if b != [] {
      var k := |b| - 8;
      BitsOfBytes(b[..k]);
      NumDigits(b[k..]);
      ByteRange();
      var s := BytesOf(b);
      assert s[..|s| - 1] == BytesOf(b[..k]) && s[|s| - 1] as int == Num(b[k..]);
      assert b == b[..k] + b[k..];
    }
  }

  /** A nonce of which only the last eight bytes are sent. */
  ghost predicate WellFormed(m: Message) {
    |m.nonce| == 12 && m.nonce[..4] == FOUR_ZEROS && |m.text| + 16 <= RECEIVE_MTU
  }

  /** The string that is sent: eight bytes of the nonce, the ciphertext and the tag. */
  function Sealed(c: Cipher, m: Message): seq<Byte>
    requires WellFormed(m)
  {
    m.nonce[4..] + BytesOf(Encrypt(c, BitsOf(m.nonce), [], BitsOf(m.text)))
  }

  lemma SealedLength(c: Cipher, m: Message)
    requires WellFormed(m)
    ensures |Encrypt(c, BitsOf(m.nonce), [], BitsOf(m.text))| == 8 * |m.text| + 128
    ensures |Sealed(c, m)| == 8 + |m.text| + 16
  {
    hide Encrypt;
    OcbSessions.EncryptLength(c, BitsOf(m.nonce), [], BitsOf(m.text));
  }

  lemma OpenedBytes(c: Cipher, nonce: seq<Byte>, body: seq<Byte>, p: Bits)
    requires Bijective(c) && |nonce| == 12 && 16 <= |body|
    requires Decrypt(c, BitsOf(nonce), [], BitsOf(body)) == Opened(p)
    ensures |p| == 8 * |body| - 128
  {
    hide Encrypt, Decrypt;
    OpensExactly(c, BitsOf(nonce), [], BitsOf(body), p);
    OcbSessions.EncryptLength(c, BitsOf(nonce), [], p);
  }

  class Session {
    const ctx: AeContext

    constructor (c: Cipher, garbage: Ktop)
      ensures ctx.cipher == c && ctx.Valid() && fresh(ctx) && fresh(ctx.table)
    {
      ctx := new AeContext(c, garbage);
    }

    method Encrypt(m: Message) returns (s: seq<Byte>)
      requires ctx.Valid() && WellFormed(m)
      modifies ctx
      ensures ctx.Valid() && s == Sealed(ctx.cipher, m)
    {
      hide Ocb.Encrypt;
      SealedLength(ctx.cipher, m);
      var x := OcbSessions.EncryptOnce(ctx, BitsOf(m.nonce), [], BitsOf(m.text));
      s := m.nonce[4..] + BytesOf(x);
    }

    /** Opens exactly the strings that were sealed, whoever made them, and to the message that was sealed. */
    method Decrypt(s: seq<Byte>) returns (m: Option<Message>)
      requires ctx.Valid() && Bijective(ctx.cipher) && |s| <= 8 + RECEIVE_MTU
      modifies ctx
      ensures ctx.Valid()
      ensures m.Some? ==> WellFormed(m.value) && s == Sealed(ctx.cipher, m.value)
      ensures m.None? ==> forall n: Message | WellFormed(n) :: s != Sealed(ctx.cipher, n)
    {
      hide Ocb.Encrypt, Ocb.Decrypt, Sealed, BitsOf, BytesOf;
      if |s| < 24 {
        forall n: Message | WellFormed(n) ensures s != Sealed(ctx.cipher, n) { SealedLength(ctx.cipher, n); }
        return None;
      }
      var nonce, body := FOUR_ZEROS + s[..8], s[8..];
      var r := OcbSessions.DecryptOnce(ctx, BitsOf(nonce), [], BitsOf(body));
      match r
      case Invalid =>
        NothingSealed(ctx.cipher, s);
        return None;
      case Opened(p) =>
        OpenedBytes(ctx.cipher, nonce, body, p);
        SealedBack(ctx.cipher, s, p);
        return Some(Message(nonce, BytesOf(p)));
    }
  }

  lemma SealedBack(c: Cipher, s: seq<Byte>, p: Bits)
    requires Bijective(c) && 24 <= |s| <= 8 + RECEIVE_MTU && |p| == 8 * (|s| - 24)
    requires Decrypt(c, BitsOf(FOUR_ZEROS + s[..8]), [], BitsOf(s[8..])) == Opened(p)
    ensures var m := Message(FOUR_ZEROS + s[..8], BytesOf(p)); WellFormed(m) && s == Sealed(c, m)
  {
    hide Encrypt, Decrypt, BitsOf, BytesOf;
    var nonce := FOUR_ZEROS + s[..8];
    OpensExactly(c, BitsOf(nonce), [], BitsOf(s[8..]), p);
    BitsOfBytes(p);
    BytesOfBits(s[8..]);
    assert nonce[4..] == s[..8] && nonce[..4] == FOUR_ZEROS;
    assert s == s[..8] + s[8..];
  }

  lemma NothingSealed(c: Cipher, s: seq<Byte>)
    requires Bijective(c) && 24 <= |s|
    requires Decrypt(c, BitsOf(FOUR_ZEROS + s[..8]), [], BitsOf(s[8..])).Invalid?
    ensures forall n: Message | WellFormed(n) :: s != Sealed(c, n)
  {
    hide Encrypt, Decrypt, Sealed, BitsOf;
    forall n: Message | WellFormed(n) ensures s != Sealed(c, n) {
      SealedLength(c, n);
      if s == Sealed(c, n) { OpensSealed(c, n); }
    }
  }

  /** What is sealed opens. */
  lemma OpensSealed(c: Cipher, m: Message)
    requires Bijective(c) && WellFormed(m)
    ensures var s := Sealed(c, m);
            24 <= |s| && Decrypt(c, BitsOf(FOUR_ZEROS + s[..8]), [], BitsOf(s[8..])) == Opened(BitsOf(m.text))
  {
    hide Encrypt, Decrypt, BitsOf, BytesOf;
    var x := Encrypt(c, BitsOf(m.nonce), [], BitsOf(m.text));
    SealedLength(c, m);
    var s := Sealed(c, m);
    assert s[..8] == m.nonce[4..] && s[8..] == BytesOf(x);
    assert m.nonce == m.nonce[..4] + m.nonce[4..];
    BitsOfBytes(x);
    OpensExactly(c, BitsOf(m.nonce), [], x, BitsOf(m.text));
  }

  /** Different messages are sealed differently. */
  lemma SealedOnce(c: Cipher, m: Message, n: Message)
    requires Bijective(c) && WellFormed(m) && WellFormed(n) && Sealed(c, m) == Sealed(c, n)
    ensures m == n
  {
    hide Encrypt, Decrypt, BitsOf, BytesOf;
    OpensSealed(c, m);
    OpensSealed(c, n);
    BytesOfBits(m.text);
    BytesOfBits(n.text);
    var s := Sealed(c, m);
    assert s[..8] == m.nonce[4..] == n.nonce[4..];
    assert m.nonce == m.nonce[..4] + m.nonce[4..] && n.nonce == n.nonce[..4] + n.nonce[4..];
  }

  /** `Connection::recv_one`: opens a string and reads the packet in it. A packet of the own direction is refused. */
  method Receive(session: Session, s: seq<Byte>, server: bool) returns (p: Option<Packet>)
    requires session.ctx.Valid() && Bijective(session.ctx.cipher) && |s| <= 8 + RECEIVE_MTU
    modifies session.ctx
    ensures session.ctx.Valid()
    ensures forall m | WellFormed(m) && s == Sealed(session.ctx.cipher, m) ::
              p == if FromMessage(m).Some? && FromMessage(m).value.direction == DirectionOf(!server) then FromMessage(m) else None
    ensures p.Some? ==> exists m :: WellFormed(m) && s == Sealed(session.ctx.cipher, m)
  {
    hide Sealed, FromMessage;
    var message := session.Decrypt(s);
    if message.None? {
      return None;
    }
    forall m | WellFormed(m) && s == Sealed(session.ctx.cipher, m)
      ensures m == message.value
    {
      SealedOnce(session.ctx.cipher, m, message.value);
    }
    var packet := FromMessage(message.value);
    if packet.None? || packet.value.direction != DirectionOf(!server) {
      return None;
    }
    return packet;
  }

  /** What one side sends, the other opens and reads: number, direction, timestamps and payload. */
  method Across(connection: Connection, sender: Session, receiver: Session, x: Sending) returns (p: Option<Packet>)
    requires WithinBudget(connection.View()) && Fits(x) && Stamps(x)
    requires sender.ctx.Valid() && receiver.ctx.Valid() && sender.ctx.cipher == receiver.ctx.cipher
    requires Bijective(sender.ctx.cipher)
    modifies connection, sender.ctx, receiver.ctx
    ensures WithinBudget(connection.View()) && sender.ctx.Valid() && receiver.ctx.Valid()
    ensures var e := old(connection.View());
            p == if SendOne(e, x).1.Some? then Some(Packet(e.counter, e.direction, x.timestamp, x.timestampReply, x.payload)) else None
  {
    hide Sealed, FromMessage, ToMessage, SendOne;
    ghost var e := connection.View();
    SendOneKeeps(e, x);
    var m := connection.Send(x);
    if m.None? {
      return None;
    }
    SentCarries(e, x);
    SentWellFormed(e, x);
    var s := sender.Encrypt(m.value);
    SealedLength(sender.ctx.cipher, m.value);
    p := Receive(receiver, s, connection.direction == ToServer);
  }

  lemma SentWellFormed(e: Endpoint, x: Sending)
    requires Fits(x) && SendOne(e, x).1.Some?
    ensures WellFormed(SendOne(e, x).1.value)
  {
    var m := ToMessage(PacketAt(e, x));
    assert m.nonce[..4] == FOUR_ZEROS;
  }
}
