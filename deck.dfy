/**
 * The draw pile, the discard pile and the local player's hand.
 * The end of `cards` is the top of the draw pile: `draw` pops from there.
 */
module DeckState {
  import opened Util
  import opened CardCodec

  // ---------------------------------------------------------------------------
  // The default deck

  const Suits: seq<Color> := [Red, Yellow, Green, Blue]

  /** Every value but Seven: the four wild sevens take the sevens' place. */
  const NumberedValues: seq<Value> := [Zero, One, Two, Three, Four, Five, Six, Eight, Nine, Skip, Reverse, DrawTwo]

  /** Iterations 1 and 2 of each value of `vs`, in that order, in colour `c`. */
  function Pairs(c: Color, vs: seq<Value>): seq<Card>
  {
    if vs == [] then []
    else Pairs(c, vs[..|vs| - 1]) + [Card(c, vs[|vs| - 1], 1), Card(c, vs[|vs| - 1], 2)]
  }

  function SuitBlocks(cs: seq<Color>, vs: seq<Value>): seq<Card>
  {
    if cs == [] then [] else SuitBlocks(cs[..|cs| - 1], vs) + Pairs(cs[|cs| - 1], vs)
  }

  /** The wild sevens of iterations 0 .. n-1. */
  function Wilds(n: nat): seq<Card>
    requires n <= 256
  {
    if n == 0 then [] else Wilds(n - 1) + [Card(Wild, Seven, n - 1)]
  }

  /** The order in which `default_cards` pushes its cards. */
  function StandardDeck(): seq<Card>
  {
    SuitBlocks(Suits, NumberedValues) + Wilds(4)
  }

  /** A card the default deck holds. */
  predicate IsStandardCard(c: Card) {
    if c.color == Wild then c.value == Seven && c.iteration < 4
    else c.value != Seven && (c.iteration == 1 || c.iteration == 2)
  }

  lemma {:induction false} PairsFacts(c: Color, vs: seq<Value>)
    ensures |Pairs(c, vs)| == 2 * |vs|
    ensures forall x :: x in Pairs(c, vs) <==> x.color == c && x.value in vs && (x.iteration == 1 || x.iteration == 2)
  {
    if vs != [] {
      var init := vs[..|vs| - 1];
      PairsFacts(c, init);
      assert vs == init + [vs[|vs| - 1]];
      forall x: Card ensures x.value in vs <==> x.value in init || x.value == vs[|vs| - 1] {
      }
    }
  }

  lemma {:induction false} PairsDistinct(c: Color, vs: seq<Value>)
    requires Distinct(vs)
    ensures Distinct(Pairs(c, vs))
  {
    if vs != [] {
      var init := vs[..|vs| - 1];
      var last := vs[|vs| - 1];
      assert Distinct(init);
      PairsDistinct(c, init);
      PairsFacts(c, init);
      assert last !in init;
      var a := Pairs(c, init);
      var b := [Card(c, last, 1), Card(c, last, 2)];
      forall i, j | 0 <= i < |a| && 0 <= j < |b|
        ensures a[i] != b[j]
      {
        assert a[i] in a;
      }
      DistinctConcat(a, b);
    }
  }

  lemma SuitBlocksFacts(cs: seq<Color>, vs: seq<Value>)
    ensures |SuitBlocks(cs, vs)| == |cs| * (2 * |vs|)
    ensures forall x :: x in SuitBlocks(cs, vs) <==>
      x.color in cs && x.value in vs && (x.iteration == 1 || x.iteration == 2)
  {
    SuitBlocksLength(cs, vs);
    forall x: Card
      ensures x in SuitBlocks(cs, vs) <==>
        x.color in cs && x.value in vs && (x.iteration == 1 || x.iteration == 2)
    {
      SuitBlocksMember(cs, vs, x);
    }
  }

  lemma {:induction false} SuitBlocksLength(cs: seq<Color>, vs: seq<Value>)
    ensures |SuitBlocks(cs, vs)| == |cs| * (2 * |vs|)
  {
    if cs != [] {
      SuitBlocksLength(cs[..|cs| - 1], vs);
      PairsFacts(cs[|cs| - 1], vs);
      var m := 2 * |vs|;
      assert |cs| * m == (|cs| - 1) * m + m;
    }
  }

  lemma {:induction false} SuitBlocksMember(cs: seq<Color>, vs: seq<Value>, x: Card)
    ensures x in SuitBlocks(cs, vs) <==>
      x.color in cs && x.value in vs && (x.iteration == 1 || x.iteration == 2)
  {
    if cs != [] {
      var init := cs[..|cs| - 1];
      SuitBlocksMember(init, vs, x);
      PairsFacts(cs[|cs| - 1], vs);
      assert cs == init + [cs[|cs| - 1]];
      assert x.color in cs <==> x.color in init || x.color == cs[|cs| - 1];
    }
  }

  lemma {:induction false} PairsColor(c: Color, vs: seq<Value>)
    ensures forall k :: 0 <= k < |Pairs(c, vs)| ==> Pairs(c, vs)[k].color == c
  {
    if vs != [] {
      PairsColor(c, vs[..|vs| - 1]);
    }
  }

  lemma {:induction false} SuitBlocksColors(cs: seq<Color>, vs: seq<Value>)
    ensures forall k :: 0 <= k < |SuitBlocks(cs, vs)| ==> SuitBlocks(cs, vs)[k].color in cs
  {
    if cs != [] {
      var init := cs[..|cs| - 1];
      SuitBlocksColors(init, vs);
      PairsColor(cs[|cs| - 1], vs);
      var a := SuitBlocks(init, vs);
      assert forall k :: 0 <= k < |a| ==> a[k].color in cs by {
        forall k | 0 <= k < |a|
          ensures a[k].color in cs
        {
          var x := a[k].color;
          var t :| 0 <= t < |init| && init[t] == x;
          assert cs[t] == x;
        }
      }
    }
  }

  lemma {:induction false} SuitBlocksDistinct(cs: seq<Color>, vs: seq<Value>)
    requires Distinct(cs) && Distinct(vs)
    ensures Distinct(SuitBlocks(cs, vs))
  {
    if cs != [] {
      var init := cs[..|cs| - 1];
      var last := cs[|cs| - 1];
      assert Distinct(init);
      SuitBlocksDistinct(init, vs);
      SuitBlocksColors(init, vs);
      PairsColor(last, vs);
      PairsDistinct(last, vs);
      assert last !in init;
      var a, b := SuitBlocks(init, vs), Pairs(last, vs);
      forall i, j | 0 <= i < |a| && 0 <= j < |b|
        ensures a[i] != b[j]
      {
        assert a[i].color in init;
      }
      DistinctConcat(a, b);
    }
  }

  lemma {:induction false} WildsFacts(n: nat)
    requires n <= 256
    ensures |Wilds(n)| == n
    ensures forall k :: 0 <= k < n ==> Wilds(n)[k] == Card(Wild, Seven, k)
  {
    if n > 0 {
      WildsFacts(n - 1);
    }
  }

  lemma InSuitBlocks(c: Card)
    ensures c in SuitBlocks(Suits, NumberedValues) <==> c.color != Wild && c.value != Seven && (c.iteration == 1 || c.iteration == 2)
  {
    assert forall x :: x in Suits <==> x != Wild;
    assert forall v :: v in NumberedValues <==> v != Seven;
    InBlocksOf(c, Suits);
  }

  lemma InBlocksOf(c: Card, cs: seq<Color>)
    requires forall x :: x in cs <==> x != Wild
    requires forall v :: v in NumberedValues <==> v != Seven
    ensures c in SuitBlocks(cs, NumberedValues) <==> c.color != Wild && c.value != Seven && (c.iteration == 1 || c.iteration == 2)
  {
    SuitBlocksFacts(cs, NumberedValues);
  }

  lemma InWilds(c: Card)
    ensures c in Wilds(4) <==> c.color == Wild && c.value == Seven && c.iteration < 4
  {
    WildsFacts(4);
    if c.color == Wild && c.value == Seven && c.iteration < 4 {
      assert Wilds(4)[c.iteration] == c;
    }
  }

  lemma StandardDeckMembership(c: Card)
    ensures c in StandardDeck() <==> IsStandardCard(c)
  {
    InSuitBlocks(c);
    InWilds(c);
  }

  lemma StandardDeckDistinct()
    ensures |StandardDeck()| == 100
    ensures Distinct(StandardDeck())
  {
    assert Distinct(Suits) && Wild !in Suits && Distinct(NumberedValues);
    BlocksThenWildsDistinct(Suits, NumberedValues, 4);
  }

  lemma BlocksThenWildsDistinct(cs: seq<Color>, vs: seq<Value>, n: nat)
    requires Distinct(cs) && Wild !in cs && n <= 256
    requires Distinct(vs)
    ensures |SuitBlocks(cs, vs) + Wilds(n)| == |cs| * (2 * |vs|) + n
    ensures Distinct(SuitBlocks(cs, vs) + Wilds(n))
  {
    SuitBlocksFacts(cs, vs);
    SuitBlocksDistinct(cs, vs);
    WildsFacts(n);
    var a, b := SuitBlocks(cs, vs), Wilds(n);
    forall i, j | 0 <= i < |a| && 0 <= j < |b|
      ensures a[i] != b[j]
    {
      assert a[i] in a;
    }
    DistinctConcat(a, b);
  }

  /** The default deck holds 100 distinct cards: iterations 1 and 2 of every colour and
      every value but Seven, and the wild sevens of iterations 0..3. */
  lemma StandardDeckContents()
    ensures |StandardDeck()| == 100
    ensures Distinct(StandardDeck())
    ensures forall c :: c in StandardDeck() <==> IsStandardCard(c)
  {
    StandardDeckDistinct();
    forall c: Card ensures c in StandardDeck() <==> IsStandardCard(c) {
      StandardDeckMembership(c);
    }
  }

  /** Every card of the default deck decodes back to itself after encoding. */
  lemma StandardDeckRoundTrip()
    ensures forall c :: c in StandardDeck() ==> Encodable(c) && Canonical(c) && Decode(Encode(c)) == c
  {
    StandardDeckContents();
    forall c | c in StandardDeck() ensures Encodable(c) && Canonical(c) && Decode(Encode(c)) == c {
      DecodeEncode(c);
    }
  }

  /** One colour's block of `default_cards`: the inner loop over the values. */
  method PushSuit(cards: seq<Card>, color: Color) returns (r: seq<Card>)
    ensures r == cards + Pairs(color, NumberedValues)
  {
    r := cards;
    var vi := 0;
    while vi < |NumberedValues|
      invariant 0 <= vi <= |NumberedValues|
      invariant r == cards + Pairs(color, NumberedValues[..vi])
    {
      var value := NumberedValues[vi];
      r := r + [Card(color, value, 1)];
      r := r + [Card(color, value, 2)];
      assert NumberedValues[..vi + 1][..vi] == NumberedValues[..vi];
      vi := vi + 1;
    }
    assert NumberedValues[..vi] == NumberedValues;
  }

  /** `Deck::default_cards`. */
  method DefaultCards() returns (cards: seq<Card>)
    ensures cards == StandardDeck()
  {
    var suits := PushSuits();
    cards := suits;
    var i := 0;
    while i < 4
      invariant 0 <= i <= 4
      invariant cards == suits + Wilds(i)
    {
      cards := cards + [Card(Wild, Seven, i)];
      i := i + 1;
    }
  }

  /** The outer loop of `default_cards` over the four colours. */
  method PushSuits() returns (cards: seq<Card>)
    ensures cards == SuitBlocks(Suits, NumberedValues)
  {
    cards := [];
    var ci := 0;
    while ci < |Suits|
      invariant 0 <= ci <= |Suits|
      invariant cards == SuitBlocks(Suits[..ci], NumberedValues)
    {
      cards := PushSuit(cards, Suits[ci]);
      assert Suits[..ci + 1][..ci] == Suits[..ci];
      ci := ci + 1;
    }
    assert Suits[..ci] == Suits;
  }

  // ---------------------------------------------------------------------------
  // Drawing

  /** How many cards `draw(n)` takes from a pile of `len`: `min(max(n, 0), len)`. */
  function DrawCount(n: int, len: nat): (k: nat)
    ensures k <= len && (n <= 0 ==> k == 0) && (n > 0 ==> k == Min(n, len))
  {
    if n <= 0 then 0 else Min(n, len)
  }

  /** The pile left after `draw(n)`. */
  function Remaining(cards: seq<Card>, n: int): seq<Card>
  {
    cards[..|cards| - DrawCount(n, |cards|)]
  }

  /** What `draw(n)` returns: the top cards, the topmost first. */
  function Drawn(cards: seq<Card>, n: int): seq<Card>
  {
    Reversed(cards[|cards| - DrawCount(n, |cards|)..])
  }

  /** `draw` never fails: it returns `min(max(n,0), len)` cards taken from the end, last card
      first, and leaves the rest of the pile untouched. */
  lemma DrawSplitsPile(cards: seq<Card>, n: int)
    ensures |Drawn(cards, n)| == DrawCount(n, |cards|)
    ensures |Remaining(cards, n)| + |Drawn(cards, n)| == |cards|
    ensures Remaining(cards, n) + Reversed(Drawn(cards, n)) == cards
    ensures forall k :: 0 <= k < |Drawn(cards, n)| ==> Drawn(cards, n)[k] == cards[|cards| - 1 - k]
  {
    var k := DrawCount(n, |cards|);
    var top := cards[|cards| - k..];
    ReversedTwice(top);
    assert cards[..|cards| - k] + top == cards;
    DrawnFromEnd(cards, k, Reversed(top));
  }

  lemma DrawnFromEnd(cards: seq<Card>, k: nat, drawn: seq<Card>)
    requires k <= |cards| && drawn == Reversed(cards[|cards| - k..])
    ensures forall j :: 0 <= j < k ==> drawn[j] == cards[|cards| - 1 - j]
  {
    var top := cards[|cards| - k..];
    forall j | 0 <= j < k
      ensures Reversed(top)[j] == cards[|cards| - 1 - j]
    {
      assert Reversed(top)[j] == top[k - 1 - j];
    }
  }

  /** Drawing one card from a non-empty pile takes its last card; from an empty pile it
      takes nothing. */
  lemma DrawOne(cards: seq<Card>)
    ensures |cards| > 0 ==> Drawn(cards, 1) == [cards[|cards| - 1]] && Remaining(cards, 1) == cards[..|cards| - 1]
    ensures |cards| == 0 ==> Drawn(cards, 1) == [] && Remaining(cards, 1) == []
  {
    if |cards| > 0 {
      assert cards[|cards| - 1..] == [cards[|cards| - 1]];
    }
  }

  // ---------------------------------------------------------------------------
  // Card order (the deck bytes of the start packet)

  function EncodeAll(cards: seq<Card>): (order: seq<byte>)
    requires forall c :: c in cards ==> Encodable(c)
    ensures |order| == |cards|
    ensures forall k :: 0 <= k < |cards| ==> order[k] == Encode(cards[k])
  {
    seq(|cards|, i requires 0 <= i < |cards| => Encode(cards[i]))
  }

  function DecodeAll(order: seq<byte>): (cards: seq<Card>)
    ensures |cards| == |order|
    ensures forall c :: c in cards ==> Encodable(c) && Canonical(c)
  {
    var r := seq(|order|, i requires 0 <= i < |order| => Decode(order[i]));
    assert forall i :: 0 <= i < |order| ==> Encodable(r[i]) && Canonical(r[i]) by {
      forall i | 0 <= i < |order| ensures Encodable(r[i]) && Canonical(r[i]) {
        EncodeDecode(order[i]);
      }
    }
    r
  }

  /** Loading a card order and reading it back gives the same bytes; reading the order of
      canonical cards and loading it gives the same cards. */
  lemma CardOrderRoundTrip(order: seq<byte>, cards: seq<Card>)
    ensures EncodeAll(DecodeAll(order)) == order
    ensures (forall c :: c in cards ==> Encodable(c) && Canonical(c)) ==> DecodeAll(EncodeAll(cards)) == cards
  {
    forall i | 0 <= i < |order| ensures EncodeAll(DecodeAll(order))[i] == order[i] {
      EncodeDecode(order[i]);
    }
    if forall c :: c in cards ==> Encodable(c) && Canonical(c) {
      forall i | 0 <= i < |cards| ensures DecodeAll(EncodeAll(cards))[i] == cards[i] {
        DecodeEncode(cards[i]);
      }
    }
  }

  // ---------------------------------------------------------------------------
  // Shuffling (`SliceRandom::shuffle`; the random source is a parameter)

  function Swap(s: seq<Card>, i: nat, j: nat): (r: seq<Card>)
    requires i < |s| && j < |s|
    ensures |r| == |s| && multiset(r) == multiset(s)
  {
    SwapMultiset(s, i, j);
    s[i := s[j]][j := s[i]]
  }

  lemma SwapMultiset(s: seq<Card>, i: nat, j: nat)
    requires i < |s| && j < |s|
    ensures multiset(s[i := s[j]][j := s[i]]) == multiset(s)
  {
    var t := s[i := s[j]];
    assert multiset(t) == multiset(s) - multiset{s[i]} + multiset{s[j]};
    assert multiset(t[j := s[i]]) == multiset(t) - multiset{t[j]} + multiset{s[i]};
  }

  class Deck {
    var cards: seq<Card>

    /** `Deck::new`: the default cards, unshuffled. */
    constructor ()
      ensures cards == StandardDeck()
    {
      var defaults := DefaultCards();
      cards := defaults;
    }

    /** Fisher-Yates from the end: step `i` swaps position `i` with `rng(k) % (i+1)`. */
    method Shuffle(rng: nat -> nat)
      modifies this
      ensures multiset(cards) == multiset(old(cards)) && |cards| == |old(cards)|
    {
      var i := |cards|;
      var step := 0;
      while i > 1
        invariant 0 <= i <= |cards|
        invariant multiset(cards) == multiset(old(cards)) && |cards| == |old(cards)|
      {
        i := i - 1;
        var j := rng(step) % (i + 1);
        cards := Swap(cards, i, j);
        step := step + 1;
      }
    }

    /** `get_card_order`: one byte per card, same order. */
    function GetCardOrder(): (order: seq<byte>)
      reads this
      requires forall c :: c in cards ==> Encodable(c)
      ensures |order| == |cards|
      ensures forall k :: 0 <= k < |cards| ==> order[k] == Encode(cards[k])
      ensures (forall c :: c in cards ==> Canonical(c)) ==> DecodeAll(order) == cards
    {
      CardOrderRoundTrip([], cards);
      EncodeAll(cards)
    }

    /** `load_from`: replaces the cards by the decoded bytes. */
    method LoadFrom(order: seq<byte>)
      modifies this
      ensures cards == DecodeAll(order)
    {
      cards := DecodeAll(order);
    }

    /** `draw`: pops up to `n` cards off the end. */
    method Draw(n: int) returns (drawn: seq<Card>)
      modifies this
      ensures cards == Remaining(old(cards), n)
      ensures drawn == Drawn(old(cards), n)
    {
      drawn := [];
      var i := 0;
      while i < n
        invariant 0 <= i && (n >= 0 ==> i <= n) && (n <= 0 ==> i == 0)
        invariant var k := Min(i, |old(cards)|);
          cards == old(cards)[..|old(cards)| - k] && drawn == Reversed(old(cards)[|old(cards)| - k..])
      {
        if |cards| > 0 {
          var card := cards[|cards| - 1];
          ghost var rest := old(cards)[|cards| - 1..];
          assert rest[1..] == old(cards)[|cards|..];
          cards := cards[..|cards| - 1];
          drawn := drawn + [card];
        }
        i := i + 1;
      }
      assert Min(i, |old(cards)|) == DrawCount(n, |old(cards)|);
    }

    /** `is_empty`. */
    function IsEmpty(): (r: bool)
      reads this
      ensures r <==> |cards| == 0
    {
      cards == []
    }
  }

  /** `DiscardCards`: the top is the last element. */
  class DiscardCards {
    var cards: seq<Card>

    constructor ()
      ensures cards == []
    {
      cards := [];
    }
  }

  /** `MainPlayer`: the local player's hand. */
  class MainPlayer {
    var cards: seq<Card>

    constructor ()
      ensures cards == []
    {
      cards := [];
    }

    method Reset()
      modifies this
      ensures cards == []
    {
      cards := [];
    }
  }
}
