/** Turn state (current player, seat order, direction) and the opponents' card counts. */
module TurnInfo {
  import opened Util

  datatype Direction = Clockwise | CounterClockwise

  function Flip(d: Direction): Direction {
    match d
    case Clockwise => CounterClockwise
    case CounterClockwise => Clockwise
  }

  /** Flipping changes the direction, and flipping twice restores it. */
  lemma FlipInvolution(d: Direction)
    ensures Flip(d) != d && Flip(Flip(d)) == d
  {
  }

  /** The seat after seat `i` of `n`: `i+1` clockwise, `i+n-1` counter-clockwise, modulo `n`. */
  function NextIndex(i: nat, n: nat, d: Direction): (j: nat)
    requires i < n
    ensures j < n
  {
    (match d
     case Clockwise => i + 1
     case CounterClockwise => i + n - 1) % n
  }

  /** The player `advance_turn` moves to; the seat of the current player is its first position. */
  function NextPlayer(current: Option<PeerId>, order: seq<PeerId>, d: Direction): (next: Option<PeerId>)
    requires current.Some? ==> current.value in order
    ensures next.Some? <==> current.Some?
    ensures next.Some? ==> next.value in order
  {
    match current
    case None => None
    case Some(p) => Some(order[NextIndex(FirstIndex(order, p), |order|, d)])
  }

  /** In a seat order without repeats, clockwise moves seat i to (i+1) mod n and
      counter-clockwise to (i+n-1) mod n. */
  lemma NextPlayerAt(order: seq<PeerId>, i: nat)
    requires Distinct(order) && i < |order|
    ensures NextPlayer(Some(order[i]), order, Clockwise) == Some(order[(i + 1) % |order|])
    ensures NextPlayer(Some(order[i]), order, CounterClockwise) == Some(order[(i + |order| - 1) % |order|])
  {
    FirstIndexOfDistinct(order, i);
  }

  /** Reducing a value below `2n` modulo `n` subtracts `n` at most once. */
  lemma ModOnce(x: nat, n: nat)
    requires 0 < n && x < 2 * n
    ensures x % n == (if x < n then x else x - n)
  {
    if x >= n {
      assert x == (x - n) + n;
      assert (x - n) % n == x - n;
    }
  }

  /** Seat arithmetic without `%`: clockwise wraps from the last seat to 0, counter-clockwise
      from 0 to the last seat. */
  lemma NextIndexCases(i: nat, n: nat, d: Direction)
    requires i < n
    ensures d == Clockwise ==> NextIndex(i, n, d) == (if i + 1 < n then i + 1 else 0)
    ensures d == CounterClockwise ==> NextIndex(i, n, d) == (if i > 0 then i - 1 else n - 1)
  {
    if d == Clockwise {
      ModOnce(i + 1, n);
    } else {
      ModOnce(i + n - 1, n);
    }
  }

  /** One seat forward then one seat back is the identity on seat indices. */
  lemma NextIndexUndo(i: nat, n: nat, d: Direction)
    requires i < n
    ensures NextIndex(NextIndex(i, n, d), n, Flip(d)) == i
  {
    NextIndexCases(i, n, d);
    NextIndexCases(NextIndex(i, n, d), n, Flip(d));
  }

  /** Moving one seat in one direction and then one seat in the other returns to the start. */
  lemma NextPlayerUndo(order: seq<PeerId>, p: PeerId, d: Direction)
    requires Distinct(order) && p in order
    ensures NextPlayer(NextPlayer(Some(p), order, d), order, Flip(d)) == Some(p)
  {
    var i := FirstIndex(order, p);
    var j := NextIndex(i, |order|, d);
    FirstIndexOfDistinct(order, j);
    NextIndexUndo(i, |order|, d);
  }

  class GameInfo {
    var currentPlayer: Option<PeerId>
    var order: seq<PeerId>
    var direction: Direction

    /** The current player, when set, has a seat. */
    ghost predicate Valid()
      reads this
    {
      currentPlayer.Some? ==> currentPlayer.value in order
    }

    /** `FromWorld for GameInfo`. */
    constructor ()
      ensures Valid()
      ensures currentPlayer == None && order == [] && direction == Clockwise
    {
      currentPlayer := None;
      order := [];
      direction := Clockwise;
    }

    method Reset()
      modifies this
      ensures Valid()
      ensures currentPlayer == None && order == [] && direction == Clockwise
    {
      currentPlayer := None;
      order := [];
      direction := Clockwise;
    }

    /** Moves to the next player in the order and returns it. Rust's `unwrap` of the
        position demands that the current player, if any, has a seat. */
    method AdvanceTurn() returns (next: Option<PeerId>)
      requires Valid()
      modifies this
      ensures Valid()
      ensures currentPlayer == NextPlayer(old(currentPlayer), old(order), old(direction))
      ensures next == currentPlayer
      ensures order == old(order) && direction == old(direction)
    {
      match currentPlayer {
        case Some(p) =>
          var currentIndex := FirstIndex(order, p);
          var nextIndex := (if direction == Clockwise then currentIndex + 1
                            else currentIndex + |order| - 1) % |order|;
          next := Some(order[nextIndex]);
        case None =>
          next := None;
      }
      currentPlayer := next;
    }

    method SwapDirection()
      modifies this
      ensures direction == Flip(old(direction))
      ensures currentPlayer == old(currentPlayer) && order == old(order)
    {
      direction := if direction == Clockwise then CounterClockwise else Clockwise;
    }
  }

  /** `Opponent`: a remote seat with its locally tracked card count. */
  datatype Opponent = Opponent(id: PeerId, name: string, cardCount: nat)

  /** Index of the first opponent with the given id: the loop `for .. iter_mut() { if .. break }`. */
  function FindOpponent(list: seq<Opponent>, id: PeerId): (r: Option<nat>)
    ensures r.Some? ==> r.value < |list| && list[r.value].id == id &&
                        forall j :: 0 <= j < r.value ==> list[j].id != id
    ensures r.None? ==> forall j :: 0 <= j < |list| ==> list[j].id != id
  {
    if |list| == 0 then None
    else if list[0].id == id then Some(0)
    else match FindOpponent(list[1..], id)
      case None => None
      case Some(k) => Some(k + 1)
  }

  /** The list after adding `k` cards to the first opponent with the given id. */
  function AddCount(list: seq<Opponent>, id: PeerId, k: nat): seq<Opponent>
  {
    match FindOpponent(list, id)
    case None => list
    case Some(i) => list[i := list[i].(cardCount := list[i].cardCount + k)]
  }

  /** Removing a card would underflow `usize` (a panic) exactly when the first opponent
      with the id holds none. */
  predicate CanRemoveCard(list: seq<Opponent>, id: PeerId) {
    match FindOpponent(list, id)
    case None => true
    case Some(i) => list[i].cardCount > 0
  }

  function RemoveCount(list: seq<Opponent>, id: PeerId): seq<Opponent>
    requires CanRemoveCard(list, id)
  {
    match FindOpponent(list, id)
    case None => list
    case Some(i) => list[i := list[i].(cardCount := list[i].cardCount - 1)]
  }

  /** Removing a card leaves the first opponent with the id holding none. */
  predicate RemovesLastCard(list: seq<Opponent>, id: PeerId) {
    match FindOpponent(list, id)
    case None => false
    case Some(i) => list[i].cardCount == 1
  }

  /** The ids of the opponents, in list order. */
  function OpponentIds(list: seq<Opponent>): (ids: seq<PeerId>)
    ensures |ids| == |list|
    ensures forall k :: 0 <= k < |list| ==> ids[k] == list[k].id
  {
    seq(|list|, k requires 0 <= k < |list| => list[k].id)
  }

  lemma OpponentIdsConcat(a: seq<Opponent>, b: seq<Opponent>)
    ensures OpponentIds(a + b) == OpponentIds(a) + OpponentIds(b)
  {
  }

  function TotalCards(list: seq<Opponent>): nat {
    if list == [] then 0 else list[0].cardCount + TotalCards(list[1..])
  }

  lemma {:induction false} TotalCardsUpdate(list: seq<Opponent>, i: nat, c: nat)
    requires i < |list|
    ensures TotalCards(list[i := list[i].(cardCount := c)]) == TotalCards(list) - list[i].cardCount + c
  {
    if i > 0 {
      TotalCardsUpdate(list[1..], i - 1, c);
      assert list[i := list[i].(cardCount := c)][1..] == list[1..][i - 1 := list[i].(cardCount := c)];
    }
  }

  /** Adding cards changes only the first matching opponent's count and raises the total
      by exactly `k` when the id is present; ids, names and order stay as they were. */
  lemma AddCountEffect(list: seq<Opponent>, id: PeerId, k: nat)
    ensures |AddCount(list, id, k)| == |list|
    ensures forall j :: 0 <= j < |list| ==>
      AddCount(list, id, k)[j].id == list[j].id && AddCount(list, id, k)[j].name == list[j].name
    ensures TotalCards(AddCount(list, id, k)) == TotalCards(list) + (if FindOpponent(list, id).Some? then k else 0)
  {
    if FindOpponent(list, id).Some? {
      var i := FindOpponent(list, id).value;
      TotalCardsUpdate(list, i, list[i].cardCount + k);
    }
  }

  /** Removing a card lowers the total by one when the id is present. */
  lemma RemoveCountEffect(list: seq<Opponent>, id: PeerId)
    requires CanRemoveCard(list, id)
    ensures |RemoveCount(list, id)| == |list|
    ensures TotalCards(RemoveCount(list, id)) == TotalCards(list) - (if FindOpponent(list, id).Some? then 1 else 0)
  {
    if FindOpponent(list, id).Some? {
      var i := FindOpponent(list, id).value;
      TotalCardsUpdate(list, i, list[i].cardCount - 1);
    }
  }

  /** `Opponents`: the remote seats of the current game. */
  class Opponents {
    var list: seq<Opponent>

    constructor ()
      ensures list == []
    {
      list := [];
    }

    /** Adds `k` to the count of the first opponent with the given id, if any. */
    method AddCards(id: PeerId, k: nat)
      modifies this
      ensures list == AddCount(old(list), id, k)
    {
      var i := 0;
      while i < |list|
        invariant 0 <= i <= |list| && list == old(list)
        invariant forall j :: 0 <= j < i ==> list[j].id != id
      {
        if list[i].id == id {
          list := list[i := list[i].(cardCount := list[i].cardCount + k)];
          return;
        }
        i := i + 1;
      }
    }

    /** Takes one card from the first opponent with the given id and reports it as the
        winner when its count reaches 0. */
    method RemoveCard(id: PeerId) returns (winner: Option<PeerId>)
      requires CanRemoveCard(list, id)
      modifies this
      ensures list == RemoveCount(old(list), id)
      ensures winner.Some? <==> RemovesLastCard(old(list), id)
      ensures winner.Some? ==> winner.value == id
    {
      winner := None;
      var i := 0;
      while i < |list|
        invariant 0 <= i <= |list| && list == old(list)
        invariant forall j :: 0 <= j < i ==> list[j].id != id
      {
        if list[i].id == id {
          list := list[i := list[i].(cardCount := list[i].cardCount - 1)];
          if list[i].cardCount == 0 {
            winner := Some(list[i].id);
          }
          return;
        }
        i := i + 1;
      }
    }

    /** Every opponent's count goes back to 5 (`reset_game_state`). */
    method ResetCounts()
      modifies this
      ensures |list| == |old(list)|
      ensures forall j :: 0 <= j < |list| ==> list[j] == old(list)[j].(cardCount := 5)
    {
      var i := 0;
      while i < |list|
        invariant 0 <= i <= |list| && |list| == |old(list)|
        invariant forall j :: 0 <= j < i ==> list[j] == old(list)[j].(cardCount := 5)
        invariant forall j :: i <= j < |list| ==> list[j] == old(list)[j]
      {
        list := list[i := list[i].(cardCount := 5)];
        i := i + 1;
      }
    }
  }
}
