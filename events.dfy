/** The events the game logic hands to the presentation layer and to the other systems. */
module GameEvents {
  import opened Util
  import opened CardCodec

  datatype UiEvent =
    | Spawn(spawn: SpawnCard)
    /** `Win`: a player has emptied their hand. */
    | Win(winner: PeerId)
    /** `DrawCard`: the local player drew a card. */
    | DrawCardIntent
    /** `PlayCard`: the local player played a card. */
    | PlayCardIntent(played: Card)
    /** `Wild`: the colour choice screen must open. */
    | WildPrompt
    /** `WildColor`: the local player chose a colour for a wild. */
    | WildColorChosen(chosen: Color)
    /** `StartGame`: the host starts (or restarts) a game with this seat order. */
    | StartGameIntent(order: seq<PeerId>, restart: bool)
    /** Screen state `Game` and menu state `Disabled`. */
    | EnterGame
    /** Game screen state `Game`: any win or colour overlay is closed. */
    | ShowBoard
    /** Server state `Client(code)` and menu state `Lobby`: join the room with this code. */
    | JoinRoom(code: nat)
    /** Menu state `Main`. */
    | MainMenu

  /** One spawn request per card, in order. */
  function Spawns(cards: seq<Card>, position: CardPosition, cardType: CardType): (r: seq<UiEvent>)
    ensures |r| == |cards|
    ensures forall k :: 0 <= k < |cards| ==> r[k] == Spawn(SpawnCard(cards[k], position, cardType))
  {
    if cards == [] then []
    else [Spawn(SpawnCard(cards[0], position, cardType))] + Spawns(cards[1..], position, cardType)
  }
}
