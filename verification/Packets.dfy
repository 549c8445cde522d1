/** Packets, their nonces, and the two counters that keep nonces from being used twice. */
module Packets {
  import opened Options
  import opened UserStreams
  import opened BigEndian

  const TWO63 := 0x8000_0000_0000_0000
  const TWO64 := 0x1_0000_0000_0000_0000
  const BLOCK_LIMIT := 0x8000_0000_0000
  const RECEIVE_MTU := 2048

  datatype Direction = ToServer | ToClient

  datatype Packet = Packet(number: nat, direction: Direction, timestamp: nat, timestampReply: nat, payload: seq<Byte>)

  datatype Message = Message(nonce: seq<Byte>, text: seq<Byte>)

  const FOUR_ZEROS: seq<Byte> := [0, 0, 0, 0]

  function NonceOf(value: nat): (n: seq<Byte>)
    ensures |n| == 12
  {
    FOUR_ZEROS + Spell(value, 8)
  }

  function NonceValue(nonce: seq<Byte>): nat
    requires |nonce| == 12
  {
    Value(nonce[4..])
  }

  /** The direction goes into the highest bit. */
  function DirectedNumber(d: Direction, number: nat): nat {
    (if d == ToClient then TWO63 else 0) + number % TWO63
  }

  function ToMessage(p: Packet): Message {
    Message(NonceOf(DirectedNumber(p.direction, p.number)),
            Spell(p.timestamp, 2) + Spell(p.timestampReply, 2) + p.payload)
  }

  /** Reading a packet fails if there is no room for the timestamps. */
  function FromMessage(m: Message): Option<Packet>
    requires |m.nonce| == 12
  {
    if |m.text| < 4 then None
    else
      var v := NonceValue(m.nonce);
      Some(Packet(v % TWO63, if v / TWO63 % 2 == 1 then ToClient else ToServer,
                  Value(m.text[..2]), Value(m.text[2..4]), m.text[4..]))
  }

  lemma NonceRoundTrip(value: nat)
    requires value < TWO64
    ensures NonceValue(NonceOf(value)) == value
  {
    Powers();
    SpellValue(value, 8);
    assert NonceOf(value)[4..] == Spell(value, 8);
  }

  lemma PacketRoundTrip(p: Packet)
    requires p.number < TWO63 && p.timestamp < 0x10000 && p.timestampReply < 0x10000
    ensures FromMessage(ToMessage(p)) == Some(p)
  {
    hide Spell, Value;
    Powers();
    NonceRoundTrip(DirectedNumber(p.direction, p.number));
    SpellValue(p.timestamp, 2);
    SpellValue(p.timestampReply, 2);
    var text := ToMessage(p).text;
    assert text[..2] == Spell(p.timestamp, 2) && text[2..4] == Spell(p.timestampReply, 2) && text[4..] == p.payload;
  }

  /** On the wire: two timestamps of two bytes each, high byte first, and the payload behind them. The nonce ends in eight
      bytes, of which the first bit is set on the way to the client. */
  lemma Layout(p: Packet)
    requires p.number < TWO63 && p.timestamp < 0x10000 && p.timestampReply < 0x10000
    ensures var t, n := ToMessage(p).text, ToMessage(p).nonce;
            && |t| == 4 + |p.payload| && t[4..] == p.payload
            && t[0] as int * 0x100 + t[1] as int == p.timestamp && t[2] as int * 0x100 + t[3] as int == p.timestampReply
            && n[..4] == [0, 0, 0, 0] && (0x80 <= n[4] as int <==> p.direction == ToClient)
            && Value(n[4..]) % TWO63 == p.number
  {
    hide Value;
    Powers();
    NonceRoundTrip(DirectedNumber(p.direction, p.number));
    TwoDigits(p.timestamp);
    TwoDigits(p.timestampReply);
    var v := DirectedNumber(p.direction, p.number);
    FirstDigit(v);
    assert NonceOf(v)[4] == Spell(v, 8)[0];
  }

  lemma TwoDigits(v: nat)
    requires v < 0x10000
    ensures Spell(v, 2)[0] as int * 0x100 + Spell(v, 2)[1] as int == v
  {
    assert Spell(v / 256, 1)[0] as int == v / 256;
  }

  lemma FirstDigit(v: nat)
    requires v < TWO64
    ensures 0x80 <= Spell(v, 8)[0] as int <==> TWO63 <= v
  {
    hide Spell;
    FirstAbove(v, 8);
    FirstAbove(v / 256, 7);
    FirstAbove(v / 256 / 256, 6);
    var w := v / 256 / 256 / 256;
    FirstAbove(w, 5);
    FirstAbove(w / 256, 4);
    FirstAbove(w / 256 / 256, 3);
    FirstAbove(w / 256 / 256 / 256, 2);
    FirstAbove(w / 256 / 256 / 256 / 256, 1);
  }

  lemma FirstAbove(v: nat, n: nat)
    requires 0 < n
    ensures Spell(v, n)[0] as int == if n == 1 then v % 256 else Spell(v / 256, n - 1)[0] as int
  {
  }

  /** Every message with a nonce of the right form is that of a packet. */
  lemma MessageRoundTrip(m: Message)
    requires |m.nonce| == 12 && m.nonce[..4] == FOUR_ZEROS && 4 <= |m.text|
    ensures ToMessage(FromMessage(m).value) == m
  {
    hide Spell, Value;
    Powers();
    var v := NonceValue(m.nonce);
    ValueSpell(m.nonce[4..]);
    ValueSpell(m.text[..2]);
    ValueSpell(m.text[2..4]);
    var p := FromMessage(m).value;
    assert DirectedNumber(p.direction, p.number) == v;
    assert m.nonce == m.nonce[..4] + m.nonce[4..];
    assert m.text == m.text[..2] + m.text[2..4] + m.text[4..];
  }

  // ---------------------------------------------------------------- sending

  /** One process: the number of its next packet, the blocks it has encrypted, and whether it still runs. */
  datatype Endpoint = Endpoint(direction: Direction, counter: nat, blocks: nat, alive: bool)

  function Blocks(length: nat): nat {
    length / 16 + if length % 16 != 0 then 1 else 0
  }

  datatype Sending = Sending(payload: seq<Byte>, timestamp: nat, timestampReply: nat)

  /** The text and the tag fit into the buffers. */
  predicate Fits(x: Sending) {
    4 + |x.payload| + 16 <= RECEIVE_MTU
  }

  function PacketAt(e: Endpoint, x: Sending): Packet {
    Packet(e.counter, e.direction, x.timestamp, x.timestampReply, x.payload)
  }

  /** A wrapped counter or a spent budget ends the process before the packet is sent. */
  function SendOne(e: Endpoint, x: Sending): (Endpoint, Option<Message>) {
    if !e.alive then (e, None)
    else
      var counter := (e.counter + 1) % TWO64;
      if counter == 0 then (e.(counter := 0, alive := false), None)
      else
        var m := ToMessage(PacketAt(e, x));
        var blocks := (e.blocks + Blocks(|m.text|)) % TWO64;
        if blocks / BLOCK_LIMIT != 0 then (e.(counter := counter, blocks := blocks, alive := false), None)
        else (e.(counter := counter, blocks := blocks), Some(m))
  }

  predicate Stamps(x: Sending) {
    x.timestamp < 0x10000 && x.timestampReply < 0x10000
  }

  /** What is sent reads back as a packet with the sender's number and direction, and with what was to be sent. */
  lemma SentCarries(e: Endpoint, x: Sending)
    requires WithinBudget(e) && Stamps(x) && SendOne(e, x).1.Some?
    ensures var m := SendOne(e, x).1.value;
            && |m.nonce| == 12
            && FromMessage(m) == Some(Packet(e.counter, e.direction, x.timestamp, x.timestampReply, x.payload))
  {
    hide ToMessage, FromMessage;
    var p := Packet(e.counter, e.direction, x.timestamp, x.timestampReply, x.payload);
    NonceLength(p);
    PacketRoundTrip(p);
  }

  /** A packet goes out if and only if the process is alive and the blocks of its text, the last of them perhaps partly
      filled, leave something of the budget. */
  lemma SentWithinBudget(e: Endpoint, x: Sending)
    requires WithinBudget(e) && Fits(x)
    ensures var spent := e.blocks + (4 + |x.payload| + 15) / 16;
            && (SendOne(e, x).1.Some? <==> e.alive && spent < BLOCK_LIMIT)
            && (SendOne(e, x).1.Some? ==> SendOne(e, x).0 == e.(counter := e.counter + 1, blocks := spent))
  {
    hide ToMessage, Blocks;
    NonceLength(PacketAt(e, x));
    RoundedUp(4 + |x.payload|);
  }

  lemma RoundedUp(length: nat)
    ensures Blocks(length) == (length + 15) / 16
  {
  }

  lemma NonceLength(p: Packet)
    ensures |ToMessage(p).nonce| == 12 && |ToMessage(p).text| == 4 + |p.payload|
  {
  }

  class Connection {
    const direction: Direction
    var counter: nat
    var blocksEncrypted: nat
    var alive: bool

    ghost function View(): Endpoint
      reads this
    {
      Endpoint(direction, counter, blocksEncrypted, alive)
    }

    constructor (direction: Direction)
      ensures View() == Endpoint(direction, 0, 0, true)
    {
      this.direction, counter, blocksEncrypted, alive := direction, 0, 0, true;
    }

    /** `Crypto::unique`; no number means an exception. */
    method Unique() returns (number: Option<nat>)
      requires counter < TWO64
      modifies this`counter
      ensures counter == (old(counter) + 1) % TWO64
      ensures number == if counter == 0 then None else Some(old(counter))
    {
      var result := counter;
      counter := (counter + 1) % TWO64;
      if counter == 0 {
        return None;
      }
      return Some(result);
    }

    /** The block budget of `Session::encrypt`. */
    method Spend(length: nat) returns (ok: bool)
      modifies this`blocksEncrypted
      ensures blocksEncrypted == (old(blocksEncrypted) + Blocks(length)) % TWO64
      ensures ok <==> blocksEncrypted < BLOCK_LIMIT
    {
      blocksEncrypted := (blocksEncrypted + length / 16) % TWO64;
      if length % 16 != 0 {
        blocksEncrypted := (blocksEncrypted + 1) % TWO64;
      }
      ok := blocksEncrypted / BLOCK_LIMIT == 0;
    }

    method Send(x: Sending) returns (m: Option<Message>)
      requires counter < TWO64 && Fits(x)
      modifies this
      ensures (View(), m) == SendOne(old(View()), x)
    {
      hide ToMessage;
      if !alive {
        return None;
      }
      var number := Unique();
      if number.None? {
        alive := false;
        return None;
      }
      var message := ToMessage(Packet(number.value, direction, x.timestamp, x.timestampReply, x.payload));
      var ok := Spend(|message.text|);
      if !ok {
        alive := false;
        return None;
      }
      return Some(message);
    }
  }

  // ---------------------------------------------------------------- runs

  datatype World = World(client: Endpoint, server: Endpoint, sent: seq<Message>)

  datatype Turn = Turn(byServer: bool, what: Sending)

  function Added(sent: seq<Message>, m: Option<Message>): seq<Message> {
    if m.Some? then sent + [m.value] else sent
  }

  function Happens(w: World, e: Turn): World {
    if e.byServer then
      var (server, m) := SendOne(w.server, e.what);
      w.(server := server, sent := Added(w.sent, m))
    else
      var (client, m) := SendOne(w.client, e.what);
      w.(client := client, sent := Added(w.sent, m))
  }

  /** Both processes from their start. */
  function After(events: seq<Turn>): World {
    if events == [] then World(Endpoint(ToServer, 0, 0, true), Endpoint(ToClient, 0, 0, true), [])
    else Happens(After(events[..|events| - 1]), events[|events| - 1])
  }

  /** Every packet costs at least one block, so the budget bounds the counter. */
  ghost predicate WithinBudget(e: Endpoint) {
    e.counter <= BLOCK_LIMIT && (e.alive ==> e.counter <= e.blocks < BLOCK_LIMIT)
  }

  /** The nonce carries a number that its sender has used already. */
  ghost predicate Used(w: World, nonce: seq<Byte>) {
    |nonce| == 12 && (NonceValue(nonce) < w.client.counter || TWO63 <= NonceValue(nonce) < TWO63 + w.server.counter)
  }

  ghost predicate AllUsed(w: World) {
    forall i | 0 <= i < |w.sent| :: Used(w, w.sent[i].nonce)
  }

  ghost predicate Distinct(sent: seq<Message>) {
    forall i, j | 0 <= i < j < |sent| :: sent[i].nonce != sent[j].nonce
  }

  ghost predicate Good(w: World) {
    && w.client.direction == ToServer && w.server.direction == ToClient
    && WithinBudget(w.client) && WithinBudget(w.server)
    && AllUsed(w) && Distinct(w.sent)
  }

  lemma SendOneKeeps(e: Endpoint, x: Sending)
    requires WithinBudget(e) && Fits(x)
    ensures var (f, m) := SendOne(e, x);
            && WithinBudget(f) && f.direction == e.direction && e.counter <= f.counter
            && (m.Some? ==> f.counter == e.counter + 1 && m.value.nonce == NonceOf(DirectedNumber(e.direction, e.counter))
                            && NonceValue(m.value.nonce) == (if e.direction == ToClient then TWO63 else 0) + e.counter)
  {
    hide Spell, Value, Blocks;
    NonceLength(PacketAt(e, x));
    RoundedUp(4 + |x.payload|);
    NonceRoundTrip(DirectedNumber(e.direction, e.counter));
  }

  /** A nonce that nobody has used differs from all that were sent. */
  lemma AddedKeeps(v: World, w: World, m: Message)
    requires AllUsed(v) && Distinct(v.sent) && w.sent == v.sent + [m]
    requires v.client.counter <= w.client.counter && v.server.counter <= w.server.counter
    requires !Used(v, m.nonce) && Used(w, m.nonce)
    ensures AllUsed(w) && Distinct(w.sent)
  {
  }

  lemma UsedLater(v: World, w: World)
    requires AllUsed(v) && w.sent == v.sent
    requires v.client.counter <= w.client.counter && v.server.counter <= w.server.counter
    ensures AllUsed(w)
  {
  }

  lemma HappensKeeps(w: World, e: Turn)
    requires Good(w) && Fits(e.what)
    ensures Good(Happens(w, e))
  {
    hide AllUsed, Distinct, SendOne;
    var side := if e.byServer then w.server else w.client;
    SendOneKeeps(side, e.what);
    var next := Happens(w, e);
    var m := SendOne(side, e.what).1;
    if m.Some? {
      AddedKeeps(w, next, m.value);
    } else {
      UsedLater(w, next);
    }
  }

  /** In every run of both processes, no two packets share a nonce. */
  lemma {:induction false} NoncesDistinct(events: seq<Turn>)
    requires forall i | 0 <= i < |events| :: Fits(events[i].what)
    ensures Good(After(events)) && Distinct(After(events).sent)
    decreases |events|
  {
    if events != [] {
      NoncesDistinct(events[..|events| - 1]);
      HappensKeeps(After(events[..|events| - 1]), events[|events| - 1]);
    }
  }

  // ---------------------------------------------------------------- what a run carries

  /** What one side was asked to send. */
  function Asked(events: seq<Turn>, byServer: bool): seq<Sending> {
    if events == [] then []
    else
      var e := events[|events| - 1];
      Asked(events[..|events| - 1], byServer) + if e.byServer == byServer then [e.what] else []
  }

  /** The packets of one direction among messages, as the other side reads them. */
  function PacketsOf(sent: seq<Message>, d: Direction): seq<Packet> {
    if sent == [] then []
    else
      var m := sent[|sent| - 1];
      PacketsOf(sent[..|sent| - 1], d) +
        if |m.nonce| == 12 && FromMessage(m).Some? && FromMessage(m).value.direction == d then [FromMessage(m).value] else []
  }

  function SideOf(w: World, byServer: bool): Endpoint {
    if byServer then w.server else w.client
  }

  function DirectionOf(byServer: bool): Direction {
    if byServer then ToClient else ToServer
  }

  /** The packets carry what was asked for, in order and numbered from 0, and all of it while the process is alive. */
  ghost predicate Carries(packets: seq<Packet>, asked: seq<Sending>, d: Direction, e: Endpoint) {
    && |packets| <= |asked| && (e.alive ==> |packets| == |asked| == e.counter)
    && forall i | 0 <= i < |packets| ::
         packets[i] == Packet(i, d, asked[i].timestamp, asked[i].timestampReply, asked[i].payload)
  }

  lemma HappensCarries(w: World, e: Turn, asked: seq<Sending>, byServer: bool)
    requires Good(w) && Fits(e.what) && Stamps(e.what)
    requires Carries(PacketsOf(w.sent, DirectionOf(byServer)), asked, DirectionOf(byServer), SideOf(w, byServer))
    ensures var w1, d := Happens(w, e), DirectionOf(byServer);
            Carries(PacketsOf(w1.sent, d), asked + (if e.byServer == byServer then [e.what] else []), d, SideOf(w1, byServer))
  {
    hide FromMessage, ToMessage, SendOne, PacketsOf, AllUsed, Distinct;
    var side := SideOf(w, e.byServer);
    var m := SendOne(side, e.what).1;
    SendOneKeeps(side, e.what);
    SendOneAlive(side, e.what);
    assert asked + [] == asked;
    if m.Some? {
      SentCarries(side, e.what);
      PacketsSnoc(w.sent, m.value, DirectionOf(byServer));
    }
  }

  lemma PacketsSnoc(sent: seq<Message>, m: Message, d: Direction)
    requires |m.nonce| == 12 && FromMessage(m).Some?
    ensures PacketsOf(sent + [m], d)
         == PacketsOf(sent, d) + if FromMessage(m).value.direction == d then [FromMessage(m).value] else []
  {
    hide FromMessage;
    assert (sent + [m])[..|sent|] == sent;
  }

  lemma {:induction false} RunCarries(events: seq<Turn>, byServer: bool)
    requires forall i | 0 <= i < |events| :: Fits(events[i].what) && Stamps(events[i].what)
    ensures var w, d := After(events), DirectionOf(byServer);
            Carries(PacketsOf(w.sent, d), Asked(events, byServer), d, SideOf(w, byServer))
    decreases |events|
  {
    hide PacketsOf, Carries, Good, Happens;
    if events == [] {
      StartCarries(byServer);
    } else {
      var front := events[..|events| - 1];
      RunCarries(front, byServer);
      NoncesDistinct(front);
      HappensCarries(After(front), events[|events| - 1], Asked(front, byServer), byServer);
    }
  }

  lemma StartCarries(byServer: bool)
    ensures var w, d := After([]), DirectionOf(byServer);
            Carries(PacketsOf(w.sent, d), Asked([], byServer), d, SideOf(w, byServer))
  {
  }

  lemma SendOneAlive(e: Endpoint, x: Sending)
    ensures var (f, m) := SendOne(e, x); f.alive <==> m.Some?
    ensures !e.alive ==> SendOne(e, x).1.None?
  {
    hide ToMessage;
  }
}
