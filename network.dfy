/**
 * Game events exchanged between peers and their effect on the shared game state.
 *
 * Every peer applies the same transitions to its own copy of the deck, the discard
 * pile, the turn state and the opponents' card counts, so the state stays in lockstep
 * without a server. The socket is not modelled: the local peer id is a parameter, the
 * packet a handler broadcasts is its result, and the events it raises for the other
 * systems are returned in order.
 *
 * A Rust panic (`unwrap`, `expect`, an index out of bounds, a `usize` underflow) is a
 * precondition of the handler that would panic; the dispatcher `ReceivePacket` checks
 * those conditions and reports `Panicked` instead of calling it.
 */
module Network {
  import opened Util
  import opened CardCodec
  import opened DeckState
  import opened TurnInfo
  import opened GameEvents
  import Protocol

  /** `PeerNames`: the usernames other peers announced. */
  class PeerNames {
    var names: map<PeerId, string>

    constructor ()
      ensures names == map[]
    {
      names := map[];
    }

    /** A Name event: the latest name announced by a peer wins. */
    method Insert(peer: PeerId, name: string)
      modifies this
      ensures names == old(names)[peer := name]
    {
      names := names[peer := name];
    }

    /** A peer disconnected: its name is forgotten. */
    method Remove(peer: PeerId)
      modifies this
      ensures names == old(names) - {peer}
    {
      names := names - {peer};
    }
  }

  // ---------------------------------------------------------------------------
  // Opponents of a new game

  function NameOf(names: map<PeerId, string>, pid: PeerId): string {
    if pid in names then names[pid] else "Unknown"
  }

  /** The opponent list a Start packet sets up (the `filter_map` over the order). */
  function OpponentsFrom(order: seq<PeerId>, own: PeerId, names: map<PeerId, string>): (list: seq<Opponent>)
    ensures OpponentIds(list) == Without(order, own)
    ensures forall k :: 0 <= k < |list| ==> list[k].cardCount == 5 && list[k].name == NameOf(names, list[k].id)
  {
    if order == [] then []
    else
      var head := if order[0] == own then [] else [Opponent(order[0], NameOf(names, order[0]), 5)];
      var tail := OpponentsFrom(order[1..], own, names);
      OpponentIdsConcat(head, tail);
      assert OpponentIds(head) == (if order[0] == own then [] else [order[0]]);
      head + tail
  }

  /** Every seat but our own becomes an opponent: with distinct seats that is one fewer
      opponent than seats, and each other seat appears. */
  lemma OpponentsFromSeats(order: seq<PeerId>, own: PeerId, names: map<PeerId, string>)
    requires Distinct(order) && own in order
    ensures |OpponentsFrom(order, own, names)| == |order| - 1
    ensures forall p :: p in OpponentIds(OpponentsFrom(order, own, names)) <==> p in order && p != own
  {
    WithoutDistinct(order, own);
  }

  // ---------------------------------------------------------------------------
  // Dealing (`initialize_game_start`)

  /** After the hands, the deck still holds a card for the discard pile, and a second
      one when that first card is an uncoloured wild. */
  predicate DiscardAvailable(rest: seq<Card>) {
    |rest| >= 1 && (rest[|rest| - 1].color == Wild ==> |rest| >= 2)
  }

  /** `initialize_game_start` completes without a panic: our id has a seat, the deck holds
      a full hand at that seat's offset, and the discard cards are there. */
  predicate CanDeal(cards: seq<Card>, order: seq<PeerId>, own: PeerId) {
    own in order && 5 * FirstIndex(order, own) + 5 <= |cards| &&
    DiscardAvailable(Remaining(cards, 5 * |order|))
  }

  /** The hand: the five cards at offset `5 * seat` from the FRONT of the deck. */
  function DealtHand(cards: seq<Card>, order: seq<PeerId>, own: PeerId): (hand: seq<Card>)
    requires CanDeal(cards, order, own)
    ensures |hand| == 5
  {
    var p := FirstIndex(order, own);
    cards[5 * p .. 5 * p + 5]
  }

  /** The cards that open the discard pile, bottom first, drawn from `rest`: its last
      card, and when that is an uncoloured wild also the card beneath it. */
  function OpeningDiscards(rest: seq<Card>): (d: seq<Card>)
    requires DiscardAvailable(rest)
  {
    var first := rest[|rest| - 1];
    if first.color == Wild then [first, rest[|rest| - 2]] else [first]
  }

  /** What dealing pushes onto the discard pile, bottom first, once `5 * n` cards were
      drawn off the end and thrown away. */
  function DealtDiscards(cards: seq<Card>, n: nat): (d: seq<Card>)
    requires DiscardAvailable(Remaining(cards, 5 * n))
  {
    OpeningDiscards(Remaining(cards, 5 * n))
  }

  /** The deck left after dealing. */
  function DealtDeck(cards: seq<Card>, n: nat): seq<Card>
    requires DiscardAvailable(Remaining(cards, 5 * n))
  {
    var rest := Remaining(cards, 5 * n);
    rest[..|rest| - |OpeningDiscards(rest)|]
  }

  /** The events of a deal: the top discard card spawns on the draw pile, each hand card
      in the hand, and the game screen opens. */
  function DealEvents(cards: seq<Card>, order: seq<PeerId>, own: PeerId): seq<UiEvent>
    requires CanDeal(cards, order, own)
  {
    var d := DealtDiscards(cards, |order|);
    [Spawn(SpawnCard(d[|d| - 1], DrawPos, DiscardCard))] + Spawns(DealtHand(cards, order, own), HandPos, HandCard) + [EnterGame]
  }

  /** Dealing splits the deck: a prefix stays, the discard cards are the cards just below
      the `min(5n, len)` thrown-away cards, and nothing else is created or lost. */
  lemma DealSplitsDeck(cards: seq<Card>, n: nat)
    requires DiscardAvailable(Remaining(cards, 5 * n))
    ensures DealtDeck(cards, n) + Reversed(DealtDiscards(cards, n)) == Remaining(cards, 5 * n)
    ensures |DealtDeck(cards, n)| + |DealtDiscards(cards, n)| + DrawCount(5 * n, |cards|) == |cards|
    ensures DealtDeck(cards, n) == cards[..|DealtDeck(cards, n)|]
  {
    var rest := Remaining(cards, 5 * n);
    var d := DealtDiscards(cards, n);
    var kept := DealtDeck(cards, n);
    assert rest[|rest| - |d|..] == Reversed(d);
    assert kept + rest[|rest| - |d|..] == rest;
  }

  /** A second card is dealt to the discard pile exactly when the first is an uncoloured
      wild, which then lies beneath the top. */
  lemma DealWildBeneath(cards: seq<Card>, n: nat)
    requires DiscardAvailable(Remaining(cards, 5 * n))
    ensures 1 <= |DealtDiscards(cards, n)| <= 2
    ensures |DealtDiscards(cards, n)| == 2 <==> DealtDiscards(cards, n)[0].color == Wild
  {
  }

  /** The card below a dealt wild may be a wild too: when the two cards just below the
      thrown-away ones are both uncoloured wilds, the second stays uncoloured on top and
      no card can be played on it. */
  lemma DoubleWildBlocksPlay(cards: seq<Card>, n: nat, c: Card)
    requires var rest := Remaining(cards, 5 * n);
      |rest| >= 2 && rest[|rest| - 1].color == Wild && rest[|rest| - 2].color == Wild
    ensures DiscardAvailable(Remaining(cards, 5 * n))
    ensures var d := DealtDiscards(cards, n);
      |d| == 2 && d[1].color == Wild && !CanPlayOn(c, d[1])
  {
  }

  /** Dealing does not take the hand out of the deck: when the deck is deep enough, the
      hand is still in the deck after the deal, at the same positions. */
  lemma DealHandStaysInDeck(cards: seq<Card>, order: seq<PeerId>, own: PeerId)
    requires CanDeal(cards, order, own) && 10 * |order| + 2 <= |cards|
    ensures var p := FirstIndex(order, own);
      5 * p + 5 <= |DealtDeck(cards, |order|)| &&
      DealtDeck(cards, |order|)[5 * p .. 5 * p + 5] == DealtHand(cards, order, own)
  {
    DealSplitsDeck(cards, |order|);
  }

  /** Two different seats get disjoint slices of the deck, so a deck of distinct cards
      never deals one card to two players. */
  lemma DealHandsDisjoint(cards: seq<Card>, order: seq<PeerId>, a: PeerId, b: PeerId)
    requires Distinct(cards) && a != b
    requires CanDeal(cards, order, a) && CanDeal(cards, order, b)
    ensures forall c :: c in DealtHand(cards, order, a) ==> c !in DealtHand(cards, order, b)
  {
    var pa := FirstIndex(order, a);
    var pb := FirstIndex(order, b);
    assert pa != pb;
    forall i, j | 0 <= i < 5 && 0 <= j < 5
      ensures DealtHand(cards, order, a)[i] != DealtHand(cards, order, b)[j]
    {
      assert 5 * pa + i != 5 * pb + j;
    }
  }

  // ---------------------------------------------------------------------------
  // Card effects (`handle_card_effect`)

  /** Who draws two cards for a DrawTwo. */
  datatype DrawTarget = NoTarget | LocalTarget | OpponentTarget(id: PeerId)

  /** `handle_card_effect` panics on a DrawTwo without a current player or without a
      local id. */
  predicate EffectPanics(v: Value, current: Option<PeerId>, localId: Option<PeerId>) {
    v == DrawTwo && (current.None? || localId.None?)
  }

  /** The player who draws for `v` when the turn has moved to `next`: nobody unless it is
      a DrawTwo and the next player is not the one who played it. */
  function DrawTwoTarget(v: Value, next: Option<PeerId>, cardPlayer: PeerId, localId: Option<PeerId>): (t: DrawTarget)
    requires !EffectPanics(v, next, localId)
    ensures v != DrawTwo ==> t == NoTarget
    ensures v == DrawTwo ==> (t == NoTarget <==> next.value == cardPlayer)
    ensures v == DrawTwo && next.value != cardPlayer ==> (t == LocalTarget <==> next == localId)
    ensures t.OpponentTarget? ==> next == Some(t.id) && next != localId && t.id != cardPlayer
  {
    if v != DrawTwo || next.value == cardPlayer then NoTarget
    else if next.value == localId.value then LocalTarget
    else OpponentTarget(next.value)
  }

  /** The turn state after the effect of `v`, from the turn state after the play. */
  function EffectTurn(v: Value, current: Option<PeerId>, order: seq<PeerId>, d: Direction): (r: (Option<PeerId>, Direction))
    requires current.Some? ==> current.value in order
    ensures r.0.Some? <==> current.Some?
    ensures r.0.Some? ==> r.0.value in order
    ensures r.1 == (if v == Reverse then Flip(d) else d)
  {
    match v
    case Skip => (NextPlayer(current, order, d), d)
    case Reverse => (NextPlayer(NextPlayer(current, order, Flip(d)), order, Flip(d)), Flip(d))
    case _ => (current, d)
  }

  /** With seats in the standard clockwise order, a Skip played at seat `i` gives the turn
      to seat `i+2` (mod n); only Skip and Reverse move the turn. */
  lemma SkipPassesOver(order: seq<PeerId>, i: nat, v: Value)
    requires Distinct(order) && i < |order|
    ensures var n := |order|;
      var next := NextPlayer(Some(order[i]), order, Clockwise);
      next == Some(order[(i + 1) % n]) &&
      (v == Skip ==> EffectTurn(v, next, order, Clockwise).0 == Some(order[((i + 1) % n + 1) % n])) &&
      (v != Skip && v != Reverse ==> EffectTurn(v, next, order, Clockwise) == (next, Clockwise))
  {
    NextPlayerAt(order, i);
    NextPlayerAt(order, (i + 1) % |order|);
  }

  /** A Reverse played by `p` flips the direction and hands the turn to the seat before
      `p`, that is, the seat after `p` in the new direction. */
  lemma ReverseTurnsBack(order: seq<PeerId>, p: PeerId, d: Direction)
    requires Distinct(order) && p in order
    ensures var next := NextPlayer(Some(p), order, d);
      EffectTurn(Reverse, next, order, d) == (NextPlayer(Some(p), order, Flip(d)), Flip(d))
  {
    NextPlayerUndo(order, p, d);
  }

  /** With two players a Reverse does not give its player another turn. */
  lemma TwoPlayerReverse(a: PeerId, b: PeerId, d: Direction)
    requires a != b
    ensures var order := [a, b];
      EffectTurn(Reverse, NextPlayer(Some(a), order, d), order, d).0 == Some(b)
  {
    var order := [a, b];
    ReverseTurnsBack(order, a, d);
    NextPlayerAt(order, 0);
  }

  function DeckAfterEffect(t: DrawTarget, deck: seq<Card>): seq<Card> {
    if t.NoTarget? then deck else Remaining(deck, 2)
  }

  function HandAfterEffect(t: DrawTarget, hand: seq<Card>, deck: seq<Card>): seq<Card> {
    if t.LocalTarget? then hand + Drawn(deck, 2) else hand
  }

  function OpponentsAfterEffect(t: DrawTarget, list: seq<Opponent>): seq<Opponent> {
    match t
    case OpponentTarget(id) => AddCount(list, id, 2)
    case _ => list
  }

  /** A DrawTwo moves `min(2, len)` cards off the deck. Drawn for us, they land in our
      hand, so no card is lost; drawn for an opponent, its count rises by 2 whatever the
      deck held. */
  lemma DrawTwoMovesCards(t: DrawTarget, deck: seq<Card>, hand: seq<Card>, list: seq<Opponent>)
    ensures |DeckAfterEffect(t, deck)| == |deck| - (if t.NoTarget? then 0 else DrawCount(2, |deck|))
    ensures t.LocalTarget? ==>
      multiset(HandAfterEffect(t, hand, deck)) + multiset(DeckAfterEffect(t, deck)) == multiset(hand) + multiset(deck)
    ensures t.OpponentTarget? && FindOpponent(list, t.id).Some? ==>
      TotalCards(OpponentsAfterEffect(t, list)) == TotalCards(list) + 2
    ensures !t.OpponentTarget? ==> OpponentsAfterEffect(t, list) == list
  {
    DrawSplitsPile(deck, 2);
    if t.LocalTarget? {
      var top := deck[|deck| - DrawCount(2, |deck|)..];
      assert Remaining(deck, 2) + top == deck;
      assert multiset(Drawn(deck, 2)) == multiset(top) by {
        ReversedMultiset(top);
      }
    }
    if t.OpponentTarget? {
      AddCountEffect(list, t.id, 2);
    }
  }

  lemma {:induction false} ReversedMultiset(s: seq<Card>)
    ensures multiset(Reversed(s)) == multiset(s)
  {
    if s != [] {
      ReversedMultiset(s[1..]);
      assert s == [s[0]] + s[1..];
    }
  }

  /** One spawn request per card, in order (the `for card in ..` spawn loops). */
  method SpawnAll(cards: seq<Card>, position: CardPosition, cardType: CardType) returns (events: seq<UiEvent>)
    ensures events == Spawns(cards, position, cardType)
  {
    events := [];
    var i := 0;
    while i < |cards|
      invariant 0 <= i <= |cards| && |events| == i
      invariant forall k :: 0 <= k < i ==> events[k] == Spawn(SpawnCard(cards[k], position, cardType))
    {
      events := events + [Spawn(SpawnCard(cards[i], position, cardType))];
      i := i + 1;
    }
  }

  /** The DrawTwo branch of `handle_card_effect`, once the turn has moved to `next`. */
  method GiveTwo(next: PeerId, cardPlayer: PeerId, ownPid: PeerId, player: MainPlayer, opponents: Opponents, deck: Deck)
    returns (events: seq<UiEvent>)
    modifies player, opponents, deck
    ensures var t := DrawTwoTarget(DrawTwo, Some(next), cardPlayer, Some(ownPid));
      deck.cards == DeckAfterEffect(t, old(deck.cards)) &&
      player.cards == HandAfterEffect(t, old(player.cards), old(deck.cards)) &&
      opponents.list == OpponentsAfterEffect(t, old(opponents.list)) &&
      events == (if t.LocalTarget? then Spawns(Drawn(old(deck.cards), 2), DrawPos, HandCard) else [])
  {
    events := [];
    if next == cardPlayer {
      return;
    }
    if next == ownPid {
      var cards := deck.Draw(2);
      if cards == [] {
        return;
      }
      player.cards := player.cards + cards;
      events := SpawnAll(cards, DrawPos, HandCard);
    } else {
      opponents.AddCards(next, 2);
      var ignored := deck.Draw(2);
    }
  }

  /** `handle_card_effect`: the turn moves for Skip and Reverse; a DrawTwo gives two cards
      to the next player unless it is the one who played it. */
  method HandleCardEffect(card: Card, cardPlayer: PeerId, localId: Option<PeerId>,
                          info: GameInfo, player: MainPlayer, opponents: Opponents, deck: Deck)
    returns (events: seq<UiEvent>)
    requires info.Valid()
    requires !EffectPanics(card.value, info.currentPlayer, localId)
    modifies info, player, opponents, deck
    ensures info.Valid() && info.order == old(info.order)
    ensures (info.currentPlayer, info.direction) ==
            EffectTurn(card.value, old(info.currentPlayer), old(info.order), old(info.direction))
    ensures var t := DrawTwoTarget(card.value, old(info.currentPlayer), cardPlayer, localId);
      deck.cards == DeckAfterEffect(t, old(deck.cards)) &&
      player.cards == HandAfterEffect(t, old(player.cards), old(deck.cards)) &&
      opponents.list == OpponentsAfterEffect(t, old(opponents.list)) &&
      events == (if t.LocalTarget? then Spawns(Drawn(old(deck.cards), 2), DrawPos, HandCard) else [])
  {
    events := [];
    if card.value == Skip {
      var ignored := info.AdvanceTurn();
    } else if card.value == Reverse {
      info.SwapDirection();
      var first := info.AdvanceTurn();
      var second := info.AdvanceTurn();
    } else if card.value == DrawTwo {
      events := GiveTwo(info.currentPlayer.value, cardPlayer, localId.value, player, opponents, deck);
    }
  }

  // ---------------------------------------------------------------------------
  // Received events

  /** A Draw event from `peer`: one card leaves the deck, the peer's count rises by one
      and the turn advances. */
  method ReceiveDraw(peer: PeerId, info: GameInfo, opponents: Opponents, deck: Deck)
    requires info.Valid()
    modifies info, opponents, deck
    ensures deck.cards == Remaining(old(deck.cards), 1)
    ensures opponents.list == AddCount(old(opponents.list), peer, 1)
    ensures info.Valid() && info.order == old(info.order) && info.direction == old(info.direction)
    ensures info.currentPlayer == NextPlayer(old(info.currentPlayer), old(info.order), old(info.direction))
  {
    var ignored := deck.Draw(1);
    opponents.AddCards(peer, 1);
    var next := info.AdvanceTurn();
  }

  /** A Play event from `peer` carrying card byte `b`: the card goes on the discard pile,
      the peer loses a card (and wins when it was its last), the turn advances and the
      card's effect applies with `peer` as its player. */
  method ReceivePlay(peer: PeerId, b: byte, localId: Option<PeerId>,
                     info: GameInfo, player: MainPlayer, opponents: Opponents, deck: Deck, discard: DiscardCards)
    returns (events: seq<UiEvent>)
    requires info.Valid()
    requires CanRemoveCard(opponents.list, peer)
    requires !EffectPanics(Decode(b).value, info.currentPlayer, localId)
    modifies info, player, opponents, deck, discard
    ensures discard.cards == old(discard.cards) + [Decode(b)]
    ensures info.Valid() && info.order == old(info.order)
    ensures var next := NextPlayer(old(info.currentPlayer), old(info.order), old(info.direction));
      var t := DrawTwoTarget(Decode(b).value, next, peer, localId);
      (info.currentPlayer, info.direction) == EffectTurn(Decode(b).value, next, old(info.order), old(info.direction)) &&
      deck.cards == DeckAfterEffect(t, old(deck.cards)) &&
      player.cards == HandAfterEffect(t, old(player.cards), old(deck.cards)) &&
      opponents.list == OpponentsAfterEffect(t, RemoveCount(old(opponents.list), peer)) &&
      events == [Spawn(SpawnCard(Decode(b), OpponentDiscard(|old(discard.cards)| + 1), DiscardCard))] +
                (if RemovesLastCard(old(opponents.list), peer) then [Win(peer)] else []) +
                (if t.LocalTarget? then Spawns(Drawn(old(deck.cards), 2), DrawPos, HandCard) else [])
  {
    var card := Decode(b);
    events := TakeOpponentCard(peer, card, opponents, discard);
    var next := info.AdvanceTurn();
    ghost var hand := player.cards;
    ghost var pile := deck.cards;
    assert hand == old(player.cards) && pile == old(deck.cards);
    var effects := HandleCardEffect(card, peer, localId, info, player, opponents, deck);
    events := events + effects;
    assert discard.cards == old(discard.cards) + [card];
  }

  /** The first half of a Play event: the card goes on the discard pile and the sender's
      count drops by one, a count reaching 0 announcing the sender as the winner. */
  method TakeOpponentCard(peer: PeerId, card: Card, opponents: Opponents, discard: DiscardCards)
    returns (events: seq<UiEvent>)
    requires CanRemoveCard(opponents.list, peer)
    modifies opponents, discard
    ensures discard.cards == old(discard.cards) + [card]
    ensures opponents.list == RemoveCount(old(opponents.list), peer)
    ensures events == [Spawn(SpawnCard(card, OpponentDiscard(|old(discard.cards)| + 1), DiscardCard))] +
                      (if RemovesLastCard(old(opponents.list), peer) then [Win(peer)] else [])
  {
    discard.cards := discard.cards + [card];
    events := [Spawn(SpawnCard(card, OpponentDiscard(|discard.cards|), DiscardCard))];
    var winner := opponents.RemoveCard(peer);
    if winner.Some? {
      events := events + [Win(winner.value)];
    }
  }

  /** A Wild event carrying colour byte `b`: a copy of the top discard card in that colour
      goes on top. */
  method ReceiveWild(b: byte, discard: DiscardCards) returns (events: seq<UiEvent>)
    requires b <= 4 && |discard.cards| > 0
    modifies discard
    ensures var top := old(discard.cards)[|old(discard.cards)| - 1];
      discard.cards == old(discard.cards) + [top.(color := ColorFromByte(b).value)]
    ensures events == [Spawn(SpawnCard(discard.cards[|discard.cards| - 1], DiscardPos(|discard.cards|), DiscardCard))]
  {
    var cardColor := ColorFromByte(b).value;
    var newCard := discard.cards[|discard.cards| - 1];
    newCard := newCard.(color := cardColor);
    discard.cards := discard.cards + [newCard];
    events := [Spawn(SpawnCard(newCard, DiscardPos(|discard.cards|), DiscardCard))];
  }

  /** `reset_game_state`: empty hand and discard pile, fresh turn state, every opponent
      back to 5 cards, and the board shown. */
  method ResetGameState(info: GameInfo, player: MainPlayer, opponents: Opponents, discard: DiscardCards)
    returns (events: seq<UiEvent>)
    modifies info, player, opponents, discard
    ensures info.Valid() && info.currentPlayer == None && info.order == [] && info.direction == Clockwise
    ensures player.cards == [] && discard.cards == []
    ensures |opponents.list| == |old(opponents.list)|
    ensures forall k :: 0 <= k < |opponents.list| ==> opponents.list[k] == old(opponents.list)[k].(cardCount := 5)
    ensures events == [ShowBoard]
  {
    info.Reset();
    player.Reset();
    discard.cards := [];
    opponents.ResetCounts();
    events := [ShowBoard];
  }

  /** The discard part of `initialize_game_start`: draws the opening discard cards off
      the deck onto the discard pile and returns the top one. */
  method DrawOpeningDiscards(deck: Deck, discard: DiscardCards) returns (card: Card)
    requires DiscardAvailable(deck.cards)
    modifies deck, discard
    ensures var d := OpeningDiscards(old(deck.cards));
      deck.cards == old(deck.cards)[..|old(deck.cards)| - |d|] &&
      discard.cards == old(discard.cards) + d && card == d[|d| - 1]
  {
    DrawOne(deck.cards);
    var drawn := deck.Draw(1);
    card := drawn[0];
    if card.color == Wild {
      discard.cards := discard.cards + [card];
      DrawOne(deck.cards);
      drawn := deck.Draw(1);
      card := drawn[0];
    }
    discard.cards := discard.cards + [card];
  }

  /** Dealing from `deck` for seat `own`: the hand is the slice at `5 * seat`, `5 * n`
      cards are drawn off the end and dropped, then the discard cards are drawn. */
  method InitializeGameStart(own: PeerId, info: GameInfo, player: MainPlayer, deck: Deck, discard: DiscardCards)
    returns (events: seq<UiEvent>)
    requires CanDeal(deck.cards, info.order, own)
    modifies player, deck, discard
    ensures player.cards == DealtHand(old(deck.cards), info.order, own)
    ensures deck.cards == DealtDeck(old(deck.cards), |info.order|)
    ensures discard.cards == old(discard.cards) + DealtDiscards(old(deck.cards), |info.order|)
    ensures events == DealEvents(old(deck.cards), info.order, own)
  {
    var ourPosition := FirstIndex(info.order, own);
    player.cards := deck.cards[ourPosition * 5 .. (ourPosition + 1) * 5];
    var thrown := deck.Draw(5 * |info.order|);
    var card := DrawOpeningDiscards(deck, discard);
    var hand := SpawnAll(player.cards, HandPos, HandCard);
    events := [Spawn(SpawnCard(card, DrawPos, DiscardCard))] + hand + [EnterGame];
  }

  /** A Start or Restart packet deals without a panic. */
  predicate StartDeals(packet: seq<byte>, localId: Option<PeerId>)
    requires |packet| >= 2 && Protocol.IdsEnd(packet) <= |packet|
  {
    localId.Some? &&
    CanDeal(DecodeAll(packet[Protocol.IdsEnd(packet)..]), Protocol.ParsedOrder(packet), localId.value)
  }

  /** A Start (or, with `restart`, Restart) packet: a restart first resets the game; then
      the seat order is read, and a packet too short for its ids ends the handling. A full
      packet sets up the opponents, the turn and the deck, and deals. */
  method ReceiveStart(restart: bool, packet: seq<byte>, localId: Option<PeerId>, names: PeerNames,
                      info: GameInfo, player: MainPlayer, opponents: Opponents, deck: Deck, discard: DiscardCards)
    returns (status: Status, events: seq<UiEvent>)
    requires |packet| >= 2 && info.Valid()
    requires Protocol.IdsEnd(packet) <= |packet| ==> StartDeals(packet, localId)
    modifies info, player, opponents, deck, discard
    ensures info.Valid() && status != Panicked
    ensures status == Dropped <==> |packet| < Protocol.IdsEnd(packet)
    ensures status == Dropped && !restart ==>
      info.currentPlayer == old(info.currentPlayer) && info.order == old(info.order) &&
      info.direction == old(info.direction) && player.cards == old(player.cards) &&
      opponents.list == old(opponents.list) && deck.cards == old(deck.cards) && discard.cards == old(discard.cards)
    ensures status == Dropped && restart ==>
      info.currentPlayer == None && info.order == [] && info.direction == Clockwise &&
      player.cards == [] && discard.cards == [] && deck.cards == old(deck.cards) &&
      |opponents.list| == |old(opponents.list)| &&
      forall k :: 0 <= k < |opponents.list| ==> opponents.list[k] == old(opponents.list)[k].(cardCount := 5)
    ensures status == Handled ==>
      var order := Protocol.ParsedOrder(packet);
      var own := localId.value;
      var cards := DecodeAll(packet[Protocol.IdsEnd(packet)..]);
      |order| > 0 &&
      opponents.list == OpponentsFrom(order, own, names.names) &&
      info.order == order && info.currentPlayer == Some(order[0]) &&
      info.direction == (if restart then Clockwise else old(info.direction)) &&
      player.cards == DealtHand(cards, order, own) &&
      deck.cards == DealtDeck(cards, |order|) &&
      discard.cards == (if restart then [] else old(discard.cards)) + DealtDiscards(cards, |order|) &&
      events == (if restart then [ShowBoard] else []) + DealEvents(cards, order, own)
    ensures status == Dropped ==> events == (if restart then [ShowBoard] else [])
  {
    events := [];
    if restart {
      events := ResetGameState(info, player, opponents, discard);
    }
    var parsed := Protocol.ParseStartIds(packet);
    if parsed.None? {
      return Dropped, events;
    }
    var order := parsed.value.0;
    var packetPos := parsed.value.1;
    var dealt := SetUpGame(order, packet[packetPos..], localId.value, names, info, player, opponents, deck, discard);
    events := events + dealt;
    status := Handled;
  }

  /** The part of a Start packet after the seat order: opponents, turn, deck and deal. */
  method SetUpGame(order: seq<PeerId>, deckBytes: seq<byte>, ownPid: PeerId, names: PeerNames,
                   info: GameInfo, player: MainPlayer, opponents: Opponents, deck: Deck, discard: DiscardCards)
    returns (events: seq<UiEvent>)
    requires CanDeal(DecodeAll(deckBytes), order, ownPid)
    modifies info, player, opponents, deck, discard
    ensures info.Valid() && |order| > 0
    ensures opponents.list == OpponentsFrom(order, ownPid, names.names)
    ensures info.order == order && info.currentPlayer == Some(order[0]) && info.direction == old(info.direction)
    ensures player.cards == DealtHand(DecodeAll(deckBytes), order, ownPid)
    ensures deck.cards == DealtDeck(DecodeAll(deckBytes), |order|)
    ensures discard.cards == old(discard.cards) + DealtDiscards(DecodeAll(deckBytes), |order|)
    ensures events == DealEvents(DecodeAll(deckBytes), order, ownPid)
  {
    opponents.list := OpponentsFrom(order, ownPid, names.names);
    info.order := order;
    info.currentPlayer := if |order| > 0 then Some(order[0]) else None;
    deck.LoadFrom(deckBytes);
    events := InitializeGameStart(ownPid, info, player, deck, discard);
  }

  // ---------------------------------------------------------------------------
  // The receive loop

  /** How handling one packet ended: it was applied, it was dropped (together with the
      rest of the frame's packets), or the program would have panicked. */
  datatype Status = Handled | Dropped | Panicked

  predicate StartPanics(packet: seq<byte>, localId: Option<PeerId>) {
    |packet| < 2 || (Protocol.IdsEnd(packet) <= |packet| && !StartDeals(packet, localId))
  }

  /** The packet makes `receive_messages` panic, given the state before it. */
  predicate PacketPanics(peer: PeerId, packet: seq<byte>, localId: Option<PeerId>,
                         current: Option<PeerId>, list: seq<Opponent>, pile: seq<Card>)
  {
    |packet| >= 1 && Protocol.EventFromByte(packet[0]).Ok? &&
    match Protocol.EventFromByte(packet[0]).value
    case Start => StartPanics(packet, localId)
    case Restart => StartPanics(packet, localId)
    case Draw => false
    case Play => |packet| < 2 || !CanRemoveCard(list, peer) || EffectPanics(Decode(packet[1]).value, current, localId)
    case Name => false
    case Wild => |packet| < 2 || packet[1] > 4 || pile == []
  }

  /** The packet makes `receive_messages` return early: it is empty, its kind byte is
      invalid, or it is a Start/Restart packet too short for its ids. */
  predicate PacketDropped(packet: seq<byte>) {
    |packet| == 0 || Protocol.EventFromByte(packet[0]).Err? ||
    (Protocol.EventFromByte(packet[0]).value in {Protocol.Start, Protocol.Restart} &&
     |packet| >= 2 && |packet| < Protocol.IdsEnd(packet))
  }

  /** The packet is non-empty and its kind byte is `kind`. */
  predicate KindIs(packet: seq<byte>, kind: Protocol.SocketEvent) {
    |packet| > 0 && Protocol.EventFromByte(packet[0]) == Ok(kind)
  }

  /** One packet of the `socket.receive()` loop. A panicking packet is reported and
      changes nothing; any other packet has the effect of the handler its kind byte
      names, and that handler touches nothing else. */
  method ReceivePacket(peer: PeerId, packet: seq<byte>, localId: Option<PeerId>, utf8: seq<byte> -> string,
                       names: PeerNames, info: GameInfo, player: MainPlayer, opponents: Opponents,
                       deck: Deck, discard: DiscardCards)
    returns (status: Status, events: seq<UiEvent>)
    requires info.Valid()
    modifies names, info, player, opponents, deck, discard
    ensures info.Valid()
    ensures status == Panicked <==>
      PacketPanics(peer, packet, localId, old(info.currentPlayer), old(opponents.list), old(discard.cards))
    ensures status == Dropped <==>
      !PacketPanics(peer, packet, localId, old(info.currentPlayer), old(opponents.list), old(discard.cards)) &&
      PacketDropped(packet)
    ensures status == Panicked || |packet| == 0 || Protocol.EventFromByte(packet[0]).Err? ==>
      unchanged(names, info, player, opponents, deck, discard) && events == []
    ensures KindIs(packet, Protocol.Name) ==>
      status == Handled && events == [] &&
      names.names == old(names.names)[peer := utf8(packet[1..])] &&
      unchanged(info, player, opponents, deck, discard)
    ensures status != Panicked && KindIs(packet, Protocol.Draw) ==>
      status == Handled && events == [] &&
      deck.cards == Remaining(old(deck.cards), 1) &&
      opponents.list == AddCount(old(opponents.list), peer, 1) &&
      info.order == old(info.order) && info.direction == old(info.direction) &&
      info.currentPlayer == NextPlayer(old(info.currentPlayer), old(info.order), old(info.direction)) &&
      unchanged(names, player, discard)
    ensures status != Panicked && KindIs(packet, Protocol.Wild) ==>
      status == Handled && |packet| >= 2 && |old(discard.cards)| > 0 &&
      var top := old(discard.cards)[|old(discard.cards)| - 1];
      discard.cards == old(discard.cards) + [top.(color := ColorFromByte(packet[1]).value)] &&
      events == [Spawn(SpawnCard(discard.cards[|discard.cards| - 1], DiscardPos(|discard.cards|), DiscardCard))] &&
      unchanged(names, info, player, opponents, deck)
    ensures status != Panicked && KindIs(packet, Protocol.Play) ==>
      status == Handled && |packet| >= 2 &&
      var card := Decode(packet[1]);
      var next := NextPlayer(old(info.currentPlayer), old(info.order), old(info.direction));
      var t := DrawTwoTarget(card.value, next, peer, localId);
      discard.cards == old(discard.cards) + [card] &&
      info.order == old(info.order) &&
      (info.currentPlayer, info.direction) == EffectTurn(card.value, next, old(info.order), old(info.direction)) &&
      deck.cards == DeckAfterEffect(t, old(deck.cards)) &&
      player.cards == HandAfterEffect(t, old(player.cards), old(deck.cards)) &&
      opponents.list == OpponentsAfterEffect(t, RemoveCount(old(opponents.list), peer)) &&
      events == [Spawn(SpawnCard(card, OpponentDiscard(|old(discard.cards)| + 1), DiscardCard))] +
                (if RemovesLastCard(old(opponents.list), peer) then [Win(peer)] else []) +
                (if t.LocalTarget? then Spawns(Drawn(old(deck.cards), 2), DrawPos, HandCard) else []) &&
      unchanged(names)
    ensures status != Panicked && (KindIs(packet, Protocol.Start) || KindIs(packet, Protocol.Restart)) ==>
      var restart := KindIs(packet, Protocol.Restart);
      |packet| >= 2 && unchanged(names) &&
      (status == Dropped <==> |packet| < Protocol.IdsEnd(packet)) &&
      (status == Dropped ==>
        events == (if restart then [ShowBoard] else []) && deck.cards == old(deck.cards) &&
        (!restart ==>
          info.currentPlayer == old(info.currentPlayer) && info.order == old(info.order) &&
          info.direction == old(info.direction) && player.cards == old(player.cards) &&
          opponents.list == old(opponents.list) && discard.cards == old(discard.cards)) &&
        (restart ==>
          info.currentPlayer == None && info.order == [] && info.direction == Clockwise &&
          player.cards == [] && discard.cards == [] && |opponents.list| == |old(opponents.list)| &&
          forall k :: 0 <= k < |opponents.list| ==> opponents.list[k] == old(opponents.list)[k].(cardCount := 5))) &&
      (status == Handled ==>
        var order := Protocol.ParsedOrder(packet);
        var own := localId.value;
        var cards := DecodeAll(packet[Protocol.IdsEnd(packet)..]);
        |order| > 0 &&
        opponents.list == OpponentsFrom(order, own, names.names) &&
        info.order == order && info.currentPlayer == Some(order[0]) &&
        info.direction == (if restart then Clockwise else old(info.direction)) &&
        player.cards == DealtHand(cards, order, own) &&
        deck.cards == DealtDeck(cards, |order|) &&
        discard.cards == (if restart then [] else old(discard.cards)) + DealtDiscards(cards, |order|) &&
        events == (if restart then [ShowBoard] else []) + DealEvents(cards, order, own))
  {
    events := [];
    if |packet| == 0 {
      return Dropped, events;
    }
    var decoded := Protocol.EventFromByte(packet[0]);
    if decoded.Err? {
      return Dropped, events;
    }
    if PacketPanics(peer, packet, localId, info.currentPlayer, opponents.list, discard.cards) {
      return Panicked, events;
    }
    status := Handled;
    match decoded.value {
      case Start =>
        status, events := ReceiveStart(false, packet, localId, names, info, player, opponents, deck, discard);
      case Restart =>
        status, events := ReceiveStart(true, packet, localId, names, info, player, opponents, deck, discard);
      case Draw =>
        ReceiveDraw(peer, info, opponents, deck);
      case Play =>
        events := ReceivePlay(peer, packet[1], localId, info, player, opponents, deck, discard);
      case Name =>
        names.Insert(peer, utf8(packet[1..]));
      case Wild =>
        events := ReceiveWild(packet[1], discard);
    }
  }

  /** The packets of one frame, handled in order until one is not handled: the rest of
      the frame is then lost. Returns how many packets were handled and the events. */
  method ReceiveMessages(batch: seq<(PeerId, seq<byte>)>, localId: Option<PeerId>, utf8: seq<byte> -> string,
                         names: PeerNames, info: GameInfo, player: MainPlayer, opponents: Opponents,
                         deck: Deck, discard: DiscardCards)
    returns (handled: nat, status: Status, events: seq<UiEvent>)
    requires info.Valid()
    modifies names, info, player, opponents, deck, discard
    ensures info.Valid()
    ensures handled <= |batch|
    ensures status == Handled <==> handled == |batch|
  {
    handled := 0;
    status := Handled;
    events := [];
    while handled < |batch|
      invariant 0 <= handled <= |batch| && info.Valid() && status == Handled
    {
      var one: seq<UiEvent>;
      status, one := ReceivePacket(batch[handled].0, batch[handled].1, localId, utf8,
                                   names, info, player, opponents, deck, discard);
      events := events + one;
      if status != Handled {
        return;
      }
      handled := handled + 1;
    }
  }

  // ---------------------------------------------------------------------------
  // Local actions

  /** `handle_start_game` on the host: sets the order and current player, broadcasts
      the Start/Restart packet with the deck order, and deals from its own deck. */
  method HandleStartGame(order: seq<PeerId>, restart: bool, localId: Option<PeerId>,
                         info: GameInfo, player: MainPlayer, deck: Deck, discard: DiscardCards)
    returns (packet: seq<byte>, events: seq<UiEvent>)
    requires forall c :: c in deck.cards ==> Encodable(c)
    requires localId.Some? && CanDeal(deck.cards, order, localId.value)
    modifies info, player, deck, discard
    ensures packet == Protocol.StartPacket(restart, order, EncodeAll(old(deck.cards)))
    ensures info.Valid() && info.order == order && info.currentPlayer == Some(order[0])
    ensures info.direction == old(info.direction)
    ensures player.cards == DealtHand(old(deck.cards), order, localId.value)
    ensures deck.cards == DealtDeck(old(deck.cards), |order|)
    ensures discard.cards == old(discard.cards) + DealtDiscards(old(deck.cards), |order|)
    ensures events == DealEvents(old(deck.cards), order, localId.value)
  {
    info.order := order;
    info.currentPlayer := if |order| > 0 then Some(order[0]) else None;
    packet := Protocol.BuildStartPacket(restart, order, deck.GetCardOrder());
    events := InitializeGameStart(localId.value, info, player, deck, discard);
  }

  /** Host and peers stay in lockstep: a peer that receives the host's packet reads the
      host's seat order and deck, so it deals exactly when the host does and to the same
      piles; only the hand depends on the seat. */
  lemma LockstepStart(restart: bool, order: seq<PeerId>, cards: seq<Card>, own: PeerId)
    requires |order| < 256
    requires forall c :: c in cards ==> Encodable(c) && Canonical(c)
    ensures var p := Protocol.StartPacket(restart, order, EncodeAll(cards));
      |p| >= 2 && Protocol.IdsEnd(p) <= |p| &&
      Protocol.ParsedOrder(p) == order && DecodeAll(p[Protocol.IdsEnd(p)..]) == cards &&
      (StartDeals(p, Some(own)) <==> CanDeal(cards, order, own))
  {
    Protocol.StartPacketRoundTrip(restart, order, EncodeAll(cards));
    CardOrderRoundTrip([], cards);
  }

  /** `handle_draw_card`: broadcasts a Draw packet and advances the turn. */
  method HandleDrawCard(info: GameInfo) returns (packet: seq<byte>)
    requires info.Valid()
    modifies info
    ensures packet == Protocol.DrawPacket()
    ensures info.Valid() && info.order == old(info.order) && info.direction == old(info.direction)
    ensures info.currentPlayer == NextPlayer(old(info.currentPlayer), old(info.order), old(info.direction))
  {
    packet := [Protocol.EventToByte(Protocol.Draw)];
    var next := info.AdvanceTurn();
  }

  /** `handle_play_card`: broadcasts the Play packet, advances the turn, applies the
      card's effect with us as its player and announces our win once the hand is empty;
      without a local id it stops after advancing the turn. */
  method HandlePlayCard(card: Card, localId: Option<PeerId>,
                        info: GameInfo, player: MainPlayer, opponents: Opponents, deck: Deck)
    returns (packet: seq<byte>, events: seq<UiEvent>)
    requires Encodable(card) && info.Valid()
    requires localId.Some? ==> !EffectPanics(card.value, info.currentPlayer, localId)
    modifies info, player, opponents, deck
    ensures packet == Protocol.PlayPacket(card)
    ensures info.Valid() && info.order == old(info.order)
    ensures var next := NextPlayer(old(info.currentPlayer), old(info.order), old(info.direction));
      if localId.None? then
        info.currentPlayer == next && info.direction == old(info.direction) &&
        player.cards == old(player.cards) && opponents.list == old(opponents.list) &&
        deck.cards == old(deck.cards) && events == []
      else
        var t := DrawTwoTarget(card.value, next, localId.value, localId);
        t != LocalTarget &&
        (info.currentPlayer, info.direction) == EffectTurn(card.value, next, old(info.order), old(info.direction)) &&
        deck.cards == DeckAfterEffect(t, old(deck.cards)) &&
        player.cards == old(player.cards) &&
        opponents.list == OpponentsAfterEffect(t, old(opponents.list)) &&
        events == (if player.cards == [] then [Win(localId.value)] else [])
  {
    packet := [Protocol.EventToByte(Protocol.Play), Encode(card)];
    events := [];
    var next := info.AdvanceTurn();
    if localId.None? {
      return;
    }
    var pid := localId.value;
    var effects := HandleCardEffect(card, pid, localId, info, player, opponents, deck);
    events := events + effects;
    if player.cards == [] {
      events := events + [Win(pid)];
    }
  }

  /** `handle_restart_game` (state part): the seat order rotated left by one becomes the
      order of the next game, after the game state is reset. Rotating an empty order
      panics. */
  method HandleRestartGame(info: GameInfo, player: MainPlayer, opponents: Opponents, discard: DiscardCards)
    returns (events: seq<UiEvent>)
    requires |info.order| > 0
    modifies info, player, opponents, discard
    ensures info.Valid() && info.currentPlayer == None && info.order == [] && info.direction == Clockwise
    ensures player.cards == [] && discard.cards == []
    ensures |opponents.list| == |old(opponents.list)|
    ensures forall k :: 0 <= k < |opponents.list| ==> opponents.list[k] == old(opponents.list)[k].(cardCount := 5)
    ensures events == [ShowBoard, StartGameIntent(RotateLeft(old(info.order)), true)]
  {
    var order := info.order[1..] + [info.order[0]];
    events := ResetGameState(info, player, opponents, discard);
    events := events + [StartGameIntent(order, true)];
  }

  /** The next game's first player is the previous game's second seat, and every seat
      moves one place forward (the rotation is a permutation). */
  lemma RestartRotatesSeats(order: seq<PeerId>)
    requires |order| > 0
    ensures RotateLeft(order)[0] == order[1 % |order|]
    ensures RotateLeft(order)[|order| - 1] == order[0]
    ensures |order| > 1 ==> RotateLeft(order)[..|order| - 1] == order[1..]
  {
  }

  /** `handle_wild_color`: broadcasts the chosen colour. */
  method HandleWildColor(color: Color) returns (packet: seq<byte>)
    ensures packet == Protocol.WildPacket(color)
    ensures Protocol.EventFromByte(packet[0]) == Ok(Protocol.Wild) && ColorFromByte(packet[1]) == Some(color)
  {
    packet := [Protocol.EventToByte(Protocol.Wild), ColorToByte(color)];
    ColorByteBijection(color, color);
  }

  /** A newly connected peer is sent our username; it stores the name we sent. */
  method PeerConnected(username: seq<byte>) returns (packet: seq<byte>)
    ensures packet == Protocol.NamePacket(username)
    ensures Protocol.EventFromByte(packet[0]) == Ok(Protocol.Name) && packet[1..] == username
  {
    packet := [Protocol.EventToByte(Protocol.Name)] + username;
  }
}
