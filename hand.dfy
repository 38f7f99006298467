/** The local player's hand: playing a card from it onto the discard pile. */
module Hand {
  import opened Util
  import opened CardCodec
  import opened DeckState
  import opened TurnInfo
  import opened GameEvents

  /** `handle_card_click` goes ahead: we have an id, it is our turn, and the card can be
      played on the top discard card (any card can start an empty pile). */
  predicate MayPlay(card: Card, pile: seq<Card>, localId: Option<PeerId>, current: Option<PeerId>) {
    localId.Some? && current == localId &&
    (pile == [] || CanPlayOn(card, pile[|pile| - 1]))
  }

  /** `Vec::remove(i)`. */
  function RemoveAt(s: seq<Card>, i: nat): (r: seq<Card>)
    requires i < |s|
    ensures |r| == |s| - 1
    ensures forall k :: 0 <= k < i ==> r[k] == s[k]
    ensures forall k :: i <= k < |r| ==> r[k] == s[k + 1]
  {
    s[..i] + s[i + 1..]
  }

  /** Removing the first copy of a card takes exactly one copy out of the hand. */
  lemma RemoveFirstCopy(hand: seq<Card>, card: Card)
    requires card in hand
    ensures multiset(RemoveAt(hand, FirstIndex(hand, card))) == multiset(hand) - multiset{card}
    ensures multiset(RemoveAt(hand, FirstIndex(hand, card)))[card] == multiset(hand)[card] - 1
  {
    var i := FirstIndex(hand, card);
    assert hand == hand[..i] + [card] + hand[i + 1..];
    assert multiset(hand) == multiset(hand[..i]) + multiset{card} + multiset(hand[i + 1..]);
  }

  /** A click on a card of our hand: when allowed, the first copy of the card leaves the
      hand, goes on top of the discard pile and is announced, with the colour prompt
      first for a wild. Rust's `expect` demands that an allowed card is in the hand. */
  method HandleCardClick(card: Card, localId: Option<PeerId>, info: GameInfo, player: MainPlayer, discard: DiscardCards)
    returns (events: seq<UiEvent>)
    requires MayPlay(card, discard.cards, localId, info.currentPlayer) ==> card in player.cards
    modifies player, discard
    ensures MayPlay(card, old(discard.cards), localId, info.currentPlayer) ==>
      player.cards == RemoveAt(old(player.cards), FirstIndex(old(player.cards), card)) &&
      discard.cards == old(discard.cards) + [card] &&
      events == (if card.color == Wild then [WildPrompt] else []) + [PlayCardIntent(card)]
    ensures !MayPlay(card, old(discard.cards), localId, info.currentPlayer) ==>
      player.cards == old(player.cards) && discard.cards == old(discard.cards) && events == []
  {
    events := [];
    if localId.None? {
      return;
    }
    var ownId := localId.value;
    if info.currentPlayer.None? || ownId != info.currentPlayer.value {
      return;
    }
    if |discard.cards| > 0 {
      var topCard := discard.cards[|discard.cards| - 1];
      if !CanPlayOn(card, topCard) {
        return;
      }
    }
    var index := FirstIndex(player.cards, card);
    player.cards := player.cards[..index] + player.cards[index + 1..];
    discard.cards := discard.cards + [card];
    if card.color == Wild {
      events := events + [WildPrompt];
    }
    events := events + [PlayCardIntent(card)];
  }

  /** A play moves one card from the hand to the pile: nothing is created or lost. */
  lemma PlayMovesOneCard(hand: seq<Card>, pile: seq<Card>, card: Card)
    requires card in hand
    ensures var rest := RemoveAt(hand, FirstIndex(hand, card));
      multiset(rest) + multiset(pile + [card]) == multiset(hand) + multiset(pile)
  {
    RemoveFirstCopy(hand, card);
  }
}
