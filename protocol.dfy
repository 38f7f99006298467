/**
 * The peer-to-peer wire format: the one-byte event kind that opens every packet and
 * the layouts of the packets the game sends.
 *
 * A Start or Restart packet is `[kind, count, id_1 .. id_count, deck]`, where each id
 * is 16 raw bytes and the deck is one card byte per card.
 */
module Protocol {
  import opened Util
  import CardCodec

  datatype SocketEvent = Start | Draw | Play | Restart | Name | Wild

  datatype SocketEventInitError = InvalidByte

  /** `Into<u8> for SocketEvent`. */
  function EventToByte(e: SocketEvent): (b: byte)
    ensures b <= 5
  {
    match e
    case Start => 0
    case Draw => 1
    case Play => 2
    case Restart => 3
    case Name => 4
    case Wild => 5
  }

  /** `TryFrom<u8> for SocketEvent`. */
  function EventFromByte(b: byte): (r: Result<SocketEvent, SocketEventInitError>)
    ensures r.Ok? <==> b <= 5
    ensures r.Ok? ==> EventToByte(r.value) == b
    ensures r.Err? ==> r.error == InvalidByte
  {
    match b
    case 0 => Ok(Start)
    case 1 => Ok(Draw)
    case 2 => Ok(Play)
    case 3 => Ok(Restart)
    case 4 => Ok(Name)
    case 5 => Ok(Wild)
    case _ => Err(InvalidByte)
  }

  /** The event byte is a bijection between the six kinds and 0..=5. */
  lemma EventByteBijection(e: SocketEvent, f: SocketEvent)
    ensures EventFromByte(EventToByte(e)) == Ok(e)
    ensures EventToByte(e) == EventToByte(f) ==> e == f
  {
  }

  // ---------------------------------------------------------------------------
  // Start / Restart packet

  /** The ids of the seat order, 16 bytes each, one after the other. */
  function IdBytes(order: seq<PeerId>): (b: seq<byte>)
    ensures |b| == 16 * |order|
  {
    if order == [] then [] else IdBytes(order[..|order| - 1]) + order[|order| - 1]
  }

  lemma {:induction false} IdBytesAt(order: seq<PeerId>, k: nat)
    requires k < |order|
    ensures IdBytes(order)[16 * k .. 16 * k + 16] == order[k]
  {
    var init := order[..|order| - 1];
    assert IdBytes(order) == IdBytes(init) + order[|order| - 1];
    if k < |order| - 1 {
      IdBytesAt(init, k);
      assert IdBytes(order)[16 * k .. 16 * k + 16] == IdBytes(init)[16 * k .. 16 * k + 16];
    } else {
      assert IdBytes(order)[16 * k .. 16 * k + 16] == IdBytes(order)[|IdBytes(init)|..];
    }
  }

  function StartKind(restart: bool): SocketEvent {
    if restart then Restart else Start
  }

  /** The packet `handle_start_game` broadcasts; the count byte is `len as u8`, which
      keeps only the low 8 bits. */
  function StartPacket(restart: bool, order: seq<PeerId>, deckOrder: seq<byte>): seq<byte> {
    [EventToByte(StartKind(restart)), |order| % 256] + IdBytes(order) + deckOrder
  }

  /** Builds the Start/Restart packet by pushing the header, each id and the deck bytes. */
  method BuildStartPacket(restart: bool, order: seq<PeerId>, deckOrder: seq<byte>) returns (packet: seq<byte>)
    ensures packet == StartPacket(restart, order, deckOrder)
  {
    packet := [EventToByte(if restart then Restart else Start)];
    packet := packet + [|order| % 256];
    var i := 0;
    while i < |order|
      invariant 0 <= i <= |order|
      invariant packet == [EventToByte(StartKind(restart)), |order| % 256] + IdBytes(order[..i])
    {
      assert order[..i + 1][..i] == order[..i];
      packet := packet + order[i];
      i := i + 1;
    }
    assert order[..i] == order;
    packet := packet + deckOrder;
  }

  /** Where the deck bytes start: after the two header bytes and `packet[1]` ids. */
  function IdsEnd(packet: seq<byte>): nat
    requires |packet| >= 2
  {
    2 + 16 * (packet[1] as int)
  }

  /** The seat order a packet long enough for its ids carries. */
  function ParsedOrder(packet: seq<byte>): (order: seq<PeerId>)
    requires |packet| >= 2 && IdsEnd(packet) <= |packet|
    ensures |order| == packet[1]
    ensures forall k :: 0 <= k < |order| ==> order[k] == packet[2 + 16 * k .. 2 + 16 * k + 16]
  {
    seq(packet[1], k requires 0 <= k < packet[1] => packet[2 + 16 * k .. 2 + 16 * k + 16])
  }

  /** The id-reading loop of `receive_messages`: reads `packet[1]` ids of 16 bytes from
      position 2, giving up as soon as the cursor reaches the end of the packet. Returns
      the order and the cursor, which is where the deck bytes start. */
  method ParseStartIds(packet: seq<byte>) returns (r: Option<(seq<PeerId>, nat)>)
    requires |packet| >= 2
    ensures r.None? <==> |packet| < IdsEnd(packet)
    ensures r.Some? ==> r.value.0 == ParsedOrder(packet) && r.value.1 == IdsEnd(packet)
  {
    var playerCount := packet[1];
    var order: seq<PeerId> := [];
    var currentPid: seq<byte> := [0, 0, 0, 0, 0, 0, 0, 0, 0, 0, 0, 0, 0, 0, 0, 0];
    var packetPos := 2;
    var n := 0;
    while n < playerCount
      invariant 0 <= n <= playerCount && |order| == n
      invariant packetPos == 2 + 16 * n <= |packet|
      invariant |currentPid| == 16
      invariant forall k :: 0 <= k < n ==> order[k] == packet[2 + 16 * k .. 2 + 16 * k + 16]
    {
      var i := 0;
      while i < 16
        invariant 0 <= i <= 16 && |currentPid| == 16
        invariant packetPos == 2 + 16 * n + i <= |packet|
        invariant currentPid[..i] == packet[2 + 16 * n .. packetPos]
      {
        if packetPos >= |packet| {
          assert |packet| < IdsEnd(packet);
          return None;
        }
        currentPid := currentPid[i := packet[packetPos]];
        packetPos := packetPos + 1;
        i := i + 1;
      }
      assert currentPid == currentPid[..16];
      order := order + [currentPid];
      n := n + 1;
    }
    r := Some((order, packetPos));
  }

  /** Parsing a built Start/Restart packet gives back its kind, its seat order and its
      deck bytes, as long as the order fits the count byte. */
  lemma StartPacketRoundTrip(restart: bool, order: seq<PeerId>, deckOrder: seq<byte>)
    requires |order| < 256
    ensures var p := StartPacket(restart, order, deckOrder);
      |p| >= 2 && EventFromByte(p[0]) == Ok(StartKind(restart)) &&
      IdsEnd(p) <= |p| && ParsedOrder(p) == order && p[IdsEnd(p)..] == deckOrder
  {
    var p := StartPacket(restart, order, deckOrder);
    var ids := IdBytes(order);
    assert p[1] == |order|;
    assert p[2..2 + |ids|] == ids;
    forall k | 0 <= k < |order| ensures ParsedOrder(p)[k] == order[k] {
      IdBytesAt(order, k);
      assert p[2 + 16 * k .. 2 + 16 * k + 16] == ids[16 * k .. 16 * k + 16];
    }
    assert p[IdsEnd(p)..] == deckOrder;
  }

  /** A seat order of 256 players or more wraps the count byte, so a parser reads fewer
      ids than were sent. */
  lemma StartPacketCountWraps(restart: bool, order: seq<PeerId>, deckOrder: seq<byte>)
    requires |order| >= 256
    ensures var p := StartPacket(restart, order, deckOrder);
      p[1] == |order| % 256 && IdsEnd(p) <= |p| && |ParsedOrder(p)| < |order|
  {
  }

  // ---------------------------------------------------------------------------
  // The other packets

  /** `[Draw]`, sent by `handle_draw_card`. */
  function DrawPacket(): seq<byte> {
    [EventToByte(Draw)]
  }

  /** `[Play, card]`, sent by `handle_play_card`. */
  function PlayPacket(c: CardCodec.Card): seq<byte>
    requires CardCodec.Encodable(c)
  {
    [EventToByte(Play), CardCodec.Encode(c)]
  }

  /** `[Wild, colour]`, sent by `handle_wild_color`. */
  function WildPacket(color: CardCodec.Color): seq<byte> {
    [EventToByte(Wild), CardCodec.ColorToByte(color)]
  }

  /** `[Name] + username bytes`, sent to a newly connected peer. */
  function NamePacket(username: seq<byte>): seq<byte> {
    [EventToByte(Name)] + username
  }

  /** Each packet opens with its kind; the play packet carries a canonical card and the
      wild packet a colour that decode back unchanged, and the name packet its bytes. */
  lemma PacketsDecode(c: CardCodec.Card, color: CardCodec.Color, username: seq<byte>)
    requires CardCodec.Encodable(c) && CardCodec.Canonical(c)
    ensures EventFromByte(DrawPacket()[0]) == Ok(Draw)
    ensures EventFromByte(PlayPacket(c)[0]) == Ok(Play) && CardCodec.Decode(PlayPacket(c)[1]) == c
    ensures EventFromByte(WildPacket(color)[0]) == Ok(Wild) && CardCodec.ColorFromByte(WildPacket(color)[1]) == Some(color)
    ensures EventFromByte(NamePacket(username)[0]) == Ok(Name) && NamePacket(username)[1..] == username
  {
    CardCodec.DecodeEncode(c);
    CardCodec.ColorByteBijection(color, color);
  }
}
