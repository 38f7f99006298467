/** The draw pile and the discard pile on the game board: drawing a card, and taking the
    discard pile back into an empty deck. */
module Board {
  import opened Util
  import opened CardCodec
  import opened DeckState
  import opened TurnInfo
  import opened GameEvents

  /** `draw_card` goes ahead: the top discard card is not an uncoloured wild, we have an
      id, it is our turn, and the deck is not empty. */
  predicate MayDraw(pile: seq<Card>, localId: Option<PeerId>, current: Option<PeerId>, deck: seq<Card>) {
    (pile == [] || pile[|pile| - 1].color != Wild) &&
    localId.Some? && current == localId && |deck| > 0
  }

  /** A click on the draw pile: the last card of the deck moves to the end of our hand and
      the draw is announced; otherwise nothing happens. */
  method DrawCard(localId: Option<PeerId>, info: GameInfo, deck: Deck, player: MainPlayer, discard: DiscardCards)
    returns (events: seq<UiEvent>)
    modifies deck, player
    ensures MayDraw(discard.cards, localId, info.currentPlayer, old(deck.cards)) ==>
      var card := old(deck.cards)[|old(deck.cards)| - 1];
      deck.cards == old(deck.cards)[..|old(deck.cards)| - 1] &&
      player.cards == old(player.cards) + [card] &&
      events == [Spawn(SpawnCard(card, DrawPos, HandCard)), DrawCardIntent]
    ensures !MayDraw(discard.cards, localId, info.currentPlayer, old(deck.cards)) ==>
      deck.cards == old(deck.cards) && player.cards == old(player.cards) && events == []
  {
    events := [];
    if |discard.cards| > 0 {
      var topCard := discard.cards[|discard.cards| - 1];
      if topCard.color == Wild {
        return;
      }
    }
    if localId.None? {
      return;
    }
    var ownId := localId.value;
    if info.currentPlayer.None? || ownId != info.currentPlayer.value {
      return;
    }
    DrawOne(deck.cards);
    var drawn := deck.Draw(1);
    if |drawn| == 0 {
      return;
    }
    var card := drawn[0];
    player.cards := player.cards + [card];
    events := [Spawn(SpawnCard(card, DrawPos, HandCard)), DrawCardIntent];
  }

  /** Drawing is the only way a card leaves the deck on our turn: it stays in play, moving
      from the deck to our hand. */
  lemma DrawMovesOneCard(deck: seq<Card>, hand: seq<Card>)
    requires |deck| > 0
    ensures var card := deck[|deck| - 1];
      multiset(deck[..|deck| - 1]) + multiset(hand + [card]) == multiset(deck) + multiset(hand)
  {
    assert deck == deck[..|deck| - 1] + [deck[|deck| - 1]];
  }

  /** A reclaimed seven becomes an uncoloured wild again; other cards keep their colour. */
  function ResetWild(c: Card): (r: Card)
    ensures r.value == c.value && r.iteration == c.iteration
    ensures r.color == (if c.value == Seven then Wild else c.color)
  {
    if c.value == Seven then c.(color := Wild) else c
  }

  function Reclaimed(cards: seq<Card>): (r: seq<Card>)
    ensures |r| == |cards|
  {
    seq(|cards|, k requires 0 <= k < |cards| => ResetWild(cards[k]))
  }

  /** The reclaim goes ahead: the deck is empty and the discard pile has more than its
      top card. */
  predicate MayReclaim(deck: seq<Card>, pile: seq<Card>) {
    |deck| == 0 && |pile| >= 2
  }

  /** `shuffle_discard_pile`: when the deck is empty, every discard card but the top one
      goes back into the deck, sevens reset to wild, and the deck is shuffled. */
  method ShuffleDiscardPile(deck: Deck, discard: DiscardCards, rng: nat -> nat)
    modifies deck, discard
    ensures MayReclaim(old(deck.cards), old(discard.cards)) ==>
      var pile := old(discard.cards);
      discard.cards == [pile[|pile| - 1]] &&
      multiset(deck.cards) == multiset(Reclaimed(pile[..|pile| - 1]))
    ensures !MayReclaim(old(deck.cards), old(discard.cards)) ==>
      deck.cards == old(deck.cards) && discard.cards == old(discard.cards)
  {
    if deck.IsEmpty() {
      var len := |discard.cards|;
      if len <= 1 {
        return;
      }
      var cards := discard.cards[..len - 1];
      discard.cards := discard.cards[len - 1..];
      var i := 0;
      while i < |cards|
        invariant 0 <= i <= |cards| == len - 1
        invariant forall k :: 0 <= k < i ==> cards[k] == ResetWild(old(discard.cards)[k])
        invariant forall k :: i <= k < |cards| ==> cards[k] == old(discard.cards)[k]
      {
        if cards[i].value == Seven {
          cards := cards[i := cards[i].(color := Wild)];
        }
        i := i + 1;
      }
      assert cards == Reclaimed(old(discard.cards)[..len - 1]);
      deck.cards := deck.cards + cards;
      deck.Shuffle(rng);
    }
  }

  /** The reclaim loses no card: the deck gets exactly the cards under the top, with only
      the colour of sevens changed. */
  lemma ReclaimKeepsCards(pile: seq<Card>)
    requires |pile| >= 2
    ensures |Reclaimed(pile[..|pile| - 1])| + 1 == |pile|
    ensures forall k :: 0 <= k < |pile| - 1 ==>
      Reclaimed(pile[..|pile| - 1])[k].value == pile[k].value &&
      Reclaimed(pile[..|pile| - 1])[k].iteration == pile[k].iteration &&
      (pile[k].value != Seven ==> Reclaimed(pile[..|pile| - 1])[k] == pile[k]) &&
      (pile[k].value == Seven ==> Reclaimed(pile[..|pile| - 1])[k].color == Wild)
  {
  }

  /** A wild that was played and then recoloured sits twice on the discard pile (the wild
      and its coloured copy), so reclaiming puts two identical wilds into the deck. */
  lemma ReclaimDuplicatesPlayedWild(it: byte, chosen: Color, top: Card)
    requires chosen != Wild
    ensures var wild := Card(Wild, Seven, it);
      var pile := [wild, wild.(color := chosen), top];
      MayReclaim([], pile) && multiset(Reclaimed(pile[..|pile| - 1]))[wild] == 2
  {
    var wild := Card(Wild, Seven, it);
    var pile := [wild, wild.(color := chosen), top];
    assert Reclaimed(pile[..|pile| - 1]) == [wild, wild];
  }
}
