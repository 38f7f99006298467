/**
 * Card identity, its one-byte wire encoding, the colour byte and the play rule.
 *
 * Rust's `u8` arithmetic is checked: in `Into<u8> for Card` the subtraction
 * `iteration - 1` and the sum may overflow, which aborts the program. Such cards
 * are excluded by the precondition `Encodable`.
 */
module CardCodec {
  import opened Util

  datatype Color = Red | Yellow | Green | Blue | Wild

  datatype Value = Zero | One | Two | Three | Four | Five | Six | Seven | Eight | Nine | Skip | Reverse | DrawTwo

  /** `iteration` tells apart the physical copies of one colour and value. */
  datatype Card = Card(color: Color, value: Value, iteration: byte)

  /** Where a spawned card appears on screen. */
  datatype CardPosition = HandPos | DrawPos | OpponentDiscard(depth: nat) | DiscardPos(depth: nat)

  /** The pile a spawned card belongs to. */
  datatype CardType = HandCard | DiscardCard

  /** Request to the presentation layer to show a card. */
  datatype SpawnCard = SpawnCard(card: Card, position: CardPosition, cardType: CardType)

  // ---------------------------------------------------------------------------
  // Colour <-> byte

  function ColorToByte(c: Color): (b: byte)
    ensures b <= 4
    ensures b == 4 <==> c == Wild
  {
    match c
    case Red => 0
    case Yellow => 1
    case Green => 2
    case Blue => 3
    case Wild => 4
  }

  /** `From<u8> for CardColor`; `None` stands for the panic on a byte above 4. */
  function ColorFromByte(b: byte): (r: Option<Color>)
    ensures r.Some? <==> b <= 4
    ensures r.Some? ==> ColorToByte(r.value) == b
  {
    match b
    case 0 => Some(Red)
    case 1 => Some(Yellow)
    case 2 => Some(Green)
    case 3 => Some(Blue)
    case 4 => Some(Wild)
    case _ => None
  }

  /** The colour byte is a bijection between the five colours and 0..=4. */
  lemma ColorByteBijection(c: Color, d: Color)
    ensures ColorFromByte(ColorToByte(c)) == Some(c)
    ensures ColorToByte(c) == ColorToByte(d) ==> c == d
  {
  }

  // ---------------------------------------------------------------------------
  // Value index (the match arms of the card codec)

  function ValueIndex(v: Value): (i: nat)
    ensures i < 13
    ensures i == 7 <==> v == Seven
  {
    match v
    case Zero => 0
    case One => 1
    case Two => 2
    case Three => 3
    case Four => 4
    case Five => 5
    case Six => 6
    case Seven => 7
    case Eight => 8
    case Nine => 9
    case Skip => 10
    case Reverse => 11
    case DrawTwo => 12
  }

  function ValueAt(i: nat): (v: Value)
    requires i < 13
    ensures ValueIndex(v) == i
  {
    match i
    case 0 => Zero
    case 1 => One
    case 2 => Two
    case 3 => Three
    case 4 => Four
    case 5 => Five
    case 6 => Six
    case 7 => Seven
    case 8 => Eight
    case 9 => Nine
    case 10 => Skip
    case 11 => Reverse
    case 12 => DrawTwo
  }

  /** The colour for a quotient `value / 13` of a byte below 52. */
  function SuitAt(i: nat): (c: Color)
    requires i < 4
    ensures ColorToByte(c) == i
  {
    match i
    case 0 => Red
    case 1 => Yellow
    case 2 => Green
    case 3 => Blue
  }

  // ---------------------------------------------------------------------------
  // Card <-> byte

  /** The card encodes without `u8` overflow or underflow. */
  predicate Encodable(c: Card) {
    if c.color == Wild then c.iteration <= 151
    else 1 <= c.iteration && ColorToByte(c.color) * 13 + ValueIndex(c.value) + (c.iteration - 1) * 52 <= 255
  }

  /** `Into<u8> for Card`. */
  function Encode(c: Card): (b: byte)
    requires Encodable(c)
    ensures Canonical(c) ==> (b >= 104 <==> c.color == Wild)
  {
    if c.color == Wild then 104 + c.iteration
    else ColorToByte(c.color) * 13 + ValueIndex(c.value) + (c.iteration - 1) * 52
  }

  /** `From<u8> for Card`: total on bytes. */
  function Decode(b: byte): (c: Card)
    ensures Encodable(c)
  {
    if b >= 104 then Card(Wild, Seven, b - 104)
    else
      var (v, it) := if b <= 51 then (b, 1) else (b - 52, 2);
      Card(SuitAt(v / 13), ValueAt(v % 13), it)
  }

  /** The cards the codec maps back to themselves: coloured cards of iteration 1 or 2,
      and wild sevens. */
  predicate Canonical(c: Card) {
    if c.color == Wild then c.value == Seven && c.iteration <= 151
    else c.iteration == 1 || c.iteration == 2
  }

  /** A coloured card encodes to `colour*13 + value + (iteration-1)*52`, so iteration 1
      falls in 0..=51 and iteration 2 in 52..=103; a wild card encodes to `104 + iteration`. */
  lemma EncodeRanges(c: Card)
    requires Encodable(c)
    ensures c.color != Wild && c.iteration == 1 ==> Encode(c) == ColorToByte(c.color) * 13 + ValueIndex(c.value) <= 51
    ensures c.color != Wild && c.iteration == 2 ==> 52 <= Encode(c) <= 103
    ensures c.color == Wild ==> Encode(c) == 104 + c.iteration
  {
  }

  /** Encoding a wild card ignores its value field. */
  lemma EncodeIgnoresWildValue(c: Card, v: Value)
    requires Encodable(c) && c.color == Wild
    ensures Encodable(c.(value := v)) && Encode(c.(value := v)) == Encode(c)
  {
  }

  /** A byte from 104 up is the wild seven of iteration b-104; a lower byte has iteration 1
      up to 51 and 2 above, colour `(b mod 52)/13` and value `(b mod 52)%13`. */
  lemma DecodeShape(b: byte)
    ensures b >= 104 ==> Decode(b) == Card(Wild, Seven, b - 104)
    ensures b < 104 ==> Decode(b).iteration == (if b <= 51 then 1 else 2)
    ensures b < 104 ==> ColorToByte(Decode(b).color) == (b % 52) / 13
    ensures b < 104 ==> ValueIndex(Decode(b).value) == (b % 52) % 13
  {
    if b < 104 {
      var v := if b <= 51 then b else b - 52;
      assert b % 52 == v;
      assert Decode(b) == Card(SuitAt(v / 13), ValueAt(v % 13), if b <= 51 then 1 else 2);
    }
  }

  /** Every byte survives decoding then encoding. */
  lemma {:induction false} EncodeDecode(b: byte)
    ensures Encodable(Decode(b)) && Encode(Decode(b)) == b
    ensures Canonical(Decode(b))
  {
    if b < 104 {
      var v := if b <= 51 then b else b - 52;
      assert v == 13 * (v / 13) + v % 13;
    }
  }

  /** Exactly the canonical cards survive encoding then decoding. */
  lemma {:induction false} DecodeEncode(c: Card)
    requires Encodable(c)
    ensures Decode(Encode(c)) == c <==> Canonical(c)
  {
    var b := Encode(c);
    if Canonical(c) && c.color != Wild {
      var k := ColorToByte(c.color) * 13 + ValueIndex(c.value);
      assert k <= 51;
      assert b == k + (c.iteration - 1) * 52;
      var v := if b <= 51 then b else b - 52;
      assert v == k;
      assert v / 13 == ColorToByte(c.color);
      assert v % 13 == ValueIndex(c.value);
      ColorByteBijection(SuitAt(v / 13), c.color);
    }
    if Decode(b) == c {
      EncodeDecode(b);
    }
  }

  /** On canonical cards the encoding is injective. */
  lemma EncodeInjective(c: Card, d: Card)
    requires Canonical(c) && Canonical(d) && Encodable(c) && Encodable(d)
    requires Encode(c) == Encode(d)
    ensures c == d
  {
    DecodeEncode(c);
    DecodeEncode(d);
  }

  // ---------------------------------------------------------------------------
  // Play rule

  /** `can_play_on`: colours match, values match or the played card is wild, and the
      target is not an uncoloured wild. */
  predicate CanPlayOn(card: Card, top: Card) {
    (card.color == top.color || card.value == top.value || card.color == Wild) && top.color != Wild
  }

  /** An uncoloured wild on top blocks every card; on a coloured top a card is playable
      exactly when colour or value matches or it is wild. */
  lemma PlayRule(card: Card, top: Card)
    ensures top.color == Wild ==> !CanPlayOn(card, top)
    ensures top.color != Wild ==>
      (CanPlayOn(card, top) <==> card.color == top.color || card.value == top.value || card.color == Wild)
  {
  }

  /** Between two coloured cards the rule is symmetric. */
  lemma PlayRuleSymmetric(a: Card, b: Card)
    requires a.color != Wild && b.color != Wild
    ensures CanPlayOn(a, b) <==> CanPlayOn(b, a)
  {
  }
}
