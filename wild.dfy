/** The colour choice screen shown after the local player plays a wild. */
module WildScreen {
  import opened Util
  import CardCodec
  import DeckState
  import GameEvents
  import Protocol

  datatype ButtonAction = Red | Yellow | Green | Blue

  /** The colour each button stands for. */
  function ButtonColor(a: ButtonAction): (c: CardCodec.Color)
    ensures c != CardCodec.Color.Wild
  {
    match a
    case Red => CardCodec.Color.Red
    case Yellow => CardCodec.Color.Yellow
    case Green => CardCodec.Color.Green
    case Blue => CardCodec.Color.Blue
  }

  /** `ToString for ButtonAction`: the button label. */
  function ToString(a: ButtonAction): string {
    match a
    case Red => "red"
    case Yellow => "yellow"
    case Green => "green"
    case Blue => "blue"
  }

  /** The four buttons are the four colours, never Wild: every other colour has exactly
      one button, and the labels tell the buttons apart. */
  lemma ButtonsCoverColours(a: ButtonAction, b: ButtonAction, c: CardCodec.Color)
    ensures a != b ==> ButtonColor(a) != ButtonColor(b) && ToString(a) != ToString(b)
    ensures c != CardCodec.Color.Wild ==> exists x :: ButtonColor(x) == c
  {
    if c != CardCodec.Color.Wild {
      var x := match c
        case Red => Red
        case Yellow => Yellow
        case Green => Green
        case Blue => Blue;
      assert ButtonColor(x) == c;
    }
  }

  /** `handle_action`: a copy of the top discard card in the chosen colour goes on top,
      the choice is announced and the board is shown again. An empty pile panics. */
  method HandleAction(a: ButtonAction, discard: DeckState.DiscardCards) returns (events: seq<GameEvents.UiEvent>)
    requires |discard.cards| > 0
    modifies discard
    ensures var top := old(discard.cards)[|old(discard.cards)| - 1];
      discard.cards == old(discard.cards) + [top.(color := ButtonColor(a))]
    ensures events == [
      GameEvents.Spawn(CardCodec.SpawnCard(discard.cards[|discard.cards| - 1],
                                           CardCodec.DiscardPos(|discard.cards|), CardCodec.DiscardCard)),
      GameEvents.WildColorChosen(ButtonColor(a)),
      GameEvents.ShowBoard]
  {
    var cardColor := ButtonColor(a);
    var newCard := discard.cards[|discard.cards| - 1];
    newCard := newCard.(color := cardColor);
    discard.cards := discard.cards + [newCard];
    events := [GameEvents.Spawn(CardCodec.SpawnCard(newCard, CardCodec.DiscardPos(|discard.cards|), CardCodec.DiscardCard))];
    events := events + [GameEvents.WildColorChosen(cardColor)];
    events := events + [GameEvents.ShowBoard];
  }

  /** The chooser and the peers recolour alike: the colour byte the Wild packet carries
      decodes to the chosen colour. */
  lemma WildChoiceReachesPeers(a: ButtonAction)
    ensures var p := Protocol.WildPacket(ButtonColor(a));
      Protocol.EventFromByte(p[0]) == Ok(Protocol.SocketEvent.Wild) &&
      p[1] <= 3 && CardCodec.ColorFromByte(p[1]) == Some(ButtonColor(a))
  {
    CardCodec.ColorByteBijection(ButtonColor(a), ButtonColor(a));
  }
}
