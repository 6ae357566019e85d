/**
 * Card sets as 64-bit masks: bit `rank * 4 + suit` marks a card. Converts a list of
 * cards to its mask (`GetBitmapFrom`) and a mask to its cards in bit order
 * (`GetCardsFromBitmap`, the same nested loop as the `Hand(bitmap)` constructor).
 */
module CardBitmaps {
  import opened Words
  import opened Cards

  /** The bit of a card: `1ul << (rank * 4 + suit)`. */
  function CardBit(c: Card): nat {
    Pow2(Position(c))
  }

  /** The 52 bits that stand for cards, `0xF_FFFF_FFFF_FFFF`. */
  function CardMask(): nat {
    LowBits(52)
  }

  /** A card's bit is the bit at its own position, and at no other card's. */
  lemma CardBitHas(c: Card, d: Card)
    ensures Has(CardBit(c), Position(d)) <==> c == d
  {
    HasPow2(Position(c), Position(d));
    PositionInjective(c, d);
  }

  /** The mask of a list of cards, OR-ing card by card from the front as the `foreach` does. */
  function BitmapOf(cards: seq<Card>): nat {
    if cards == [] then 0 else Or(BitmapOf(cards[..|cards| - 1]), CardBit(cards[|cards| - 1]))
  }

  /** A mask of cards uses only the 52 low bits. */
  lemma {:induction false} BitmapOfBelow(cards: seq<Card>)
    ensures BitmapOf(cards) < Pow2(52)
  {
    if cards != [] {
      var init, last := cards[..|cards| - 1], cards[|cards| - 1];
      BitmapOfBelow(init);
      Pow2Monotone(Position(last) + 1, 52);
      OrBelow(BitmapOf(init), CardBit(last), 52);
    }
  }

  /** So it is a word. */
  lemma BitmapOfWord(cards: seq<Card>)
    ensures BitmapOf(cards) < WordLimit
  {
    BitmapOfBelow(cards);
    Pow2Monotone(52, 64);
    Pow2Word();
  }

  /** `GetBitmapFrom`. */
  method GetBitmapFrom(cards: seq<Card>) returns (bitmap: Word)
    ensures bitmap == BitmapOf(cards)
  {
    bitmap := 0;
    for i := 0 to |cards|
      invariant bitmap == BitmapOf(cards[..i])
    {
      assert cards[..i + 1][..i] == cards[..i];
      BitmapOfWord(cards[..i + 1]);
      bitmap := Or(bitmap, Pow2(cards[i].rank * 4 + cards[i].suit));
    }
    assert cards[..|cards|] == cards;
  }

  /** A card's bit is set in the mask exactly when the card is listed. */
  lemma {:induction false} BitmapOfHas(cards: seq<Card>, c: Card)
    ensures Has(BitmapOf(cards), Position(c)) <==> c in cards
  {
    if cards == [] {
      HasZero(Position(c));
    } else {
      var init, last := cards[..|cards| - 1], cards[|cards| - 1];
      BitmapOfHas(init, c);
      HasOr(BitmapOf(init), CardBit(last), Position(c));
      CardBitHas(last, c);
      assert cards == init + [last];
    }
  }

  /** Bit `p` of a mask of cards: a listed card's position, never 52 or above. */
  lemma BitmapOfBit(cards: seq<Card>, p: nat)
    ensures Has(BitmapOf(cards), p) <==> p < 52 && CardAt(p) in cards
  {
    if p < 52 {
      CardAtRoundTrip(p);
      BitmapOfHas(cards, CardAt(p));
    } else {
      BitmapOfBelow(cards);
      HasBelow(BitmapOf(cards), 52, p);
    }
  }

  /** The mask depends only on which cards are listed: not on their order, nor on repeats. */
  lemma BitmapOfSameCards(xs: seq<Card>, ys: seq<Card>)
    requires forall c :: c in xs <==> c in ys
    ensures BitmapOf(xs) == BitmapOf(ys)
  {
    forall p: nat
      ensures Has(BitmapOf(xs), p) == Has(BitmapOf(ys), p)
    {
      BitmapOfBit(xs, p);
      BitmapOfBit(ys, p);
    }
    Ext(BitmapOf(xs), BitmapOf(ys));
  }

  /** Reordering the cards does not change the mask. */
  lemma BitmapOfPermutation(xs: seq<Card>, ys: seq<Card>)
    requires multiset(xs) == multiset(ys)
    ensures BitmapOf(xs) == BitmapOf(ys)
  {
    forall c ensures c in xs <==> c in ys {
      assert c in xs <==> c in multiset(xs);
      assert c in ys <==> c in multiset(ys);
    }
    BitmapOfSameCards(xs, ys);
  }

  /** Adding a card that is already listed does not change the mask. */
  lemma RepeatedCard(xs: seq<Card>, c: Card)
    requires c in xs
    ensures BitmapOf(xs + [c]) == BitmapOf(xs)
  {
    BitmapOfSameCards(xs + [c], xs);
  }

  /** The cards of the positions below `p` whose bits are set in `bitmap`, in position order. */
  function CardsBelow(bitmap: nat, p: nat): seq<Card>
    requires p <= 52
  {
    if p == 0 then []
    else CardsBelow(bitmap, p - 1) + (if Has(bitmap, p - 1) then [CardAt(p - 1)] else [])
  }

  /** The cards of a mask, as the iterator yields them. */
  function CardsOf(bitmap: nat): seq<Card> {
    CardsBelow(bitmap, 52)
  }

  /**
   * `GetCardsFromBitmap`: the nested rank/suit loop, building each card from its two letters.
   * The iterator yields the cards one by one; here they are collected in order.
   */
  method GetCardsFromBitmap(bitmap: Word) returns (cards: seq<Card>)
    ensures cards == CardsOf(bitmap)
  {
    cards := [];
    for r := 0 to 13
      invariant cards == CardsBelow(bitmap, r * 4)
    {
      for s := 0 to 4
        invariant cards == CardsBelow(bitmap, r * 4 + s)
      {
        var shift := r * 4 + s;
        TestBit(bitmap, shift);
        CardsBelowNext(bitmap, Card(r, s));
        if And(Pow2(shift), bitmap) != 0 {
          var card := Parse([RankChars[r], SuitLetters[s]]);
          ParseLetters(Card(r, s));
          assert card.Ok? && card.value == Card(r, s);
          cards := cards + [card.value];
        }
      }
    }
  }

  /** One more position adds the card there when its bit is set. */
  lemma CardsBelowNext(bitmap: nat, c: Card)
    ensures CardsBelow(bitmap, Position(c) + 1) ==
            CardsBelow(bitmap, Position(c)) + (if Has(bitmap, Position(c)) then [c] else [])
  {
    PositionRoundTrip(c);
  }

  lemma {:induction false} CardsBelowHas(bitmap: nat, p: nat, c: Card)
    requires p <= 52
    ensures c in CardsBelow(bitmap, p) <==> Position(c) < p && Has(bitmap, Position(c))
  {
    if p > 0 {
      CardsBelowHas(bitmap, p - 1, c);
      PositionRoundTrip(c);
      CardAtRoundTrip(p - 1);
    }
  }

  /** The cards of a mask come in strictly increasing position, so without repetition. */
  lemma {:induction false} CardsBelowIncreasing(bitmap: nat, p: nat)
    requires p <= 52
    ensures forall i, j :: 0 <= i < j < |CardsBelow(bitmap, p)| ==>
              Position(CardsBelow(bitmap, p)[i]) < Position(CardsBelow(bitmap, p)[j])
    ensures forall i :: 0 <= i < |CardsBelow(bitmap, p)| ==> Position(CardsBelow(bitmap, p)[i]) < p
  {
    if p > 0 {
      CardsBelowIncreasing(bitmap, p - 1);
      CardAtRoundTrip(p - 1);
    }
  }

  lemma {:induction false} IgnoresHighBits(bitmap: nat, p: nat)
    requires p <= 52
    ensures CardsBelow(And(bitmap, CardMask()), p) == CardsBelow(bitmap, p)
  {
    if p > 0 {
      IgnoresHighBits(bitmap, p - 1);
      HasAnd(bitmap, CardMask(), p - 1);
      HasLowBits(52, p - 1);
    }
  }

  /** Exactly the cards whose bits are set, each once, in increasing bit order; bits 52 and above are ignored. */
  lemma CardsOfBitmap(bitmap: nat)
    ensures forall c :: c in CardsOf(bitmap) <==> Has(bitmap, Position(c))
    ensures forall i, j :: 0 <= i < j < |CardsOf(bitmap)| ==> Position(CardsOf(bitmap)[i]) < Position(CardsOf(bitmap)[j])
    ensures CardsOf(And(bitmap, CardMask())) == CardsOf(bitmap)
  {
    forall c ensures c in CardsOf(bitmap) <==> Has(bitmap, Position(c)) {
      CardsBelowHas(bitmap, 52, c);
    }
    CardsBelowIncreasing(bitmap, 52);
    IgnoresHighBits(bitmap, 52);
  }

  /** Converting a mask to cards and back keeps exactly its 52 card bits. */
  lemma RoundTrip(bitmap: nat)
    ensures BitmapOf(CardsOf(bitmap)) == And(bitmap, CardMask())
  {
    var b := BitmapOf(CardsOf(bitmap));
    forall p: nat
      ensures Has(b, p) == Has(And(bitmap, CardMask()), p)
    {
      BitmapOfBit(CardsOf(bitmap), p);
      HasAnd(bitmap, CardMask(), p);
      HasLowBits(52, p);
      if p < 52 {
        CardsBelowHas(bitmap, 52, CardAt(p));
        CardAtRoundTrip(p);
      }
    }
    Ext(b, And(bitmap, CardMask()));
  }

  /** Converting cards to a mask and back lists each distinct card once, in position order. */
  lemma CardsOfBitmapOf(cards: seq<Card>)
    ensures forall c :: c in CardsOf(BitmapOf(cards)) <==> c in cards
    ensures forall i, j :: 0 <= i < j < |CardsOf(BitmapOf(cards))| ==>
              Position(CardsOf(BitmapOf(cards))[i]) < Position(CardsOf(BitmapOf(cards))[j])
  {
    CardsOfBitmap(BitmapOf(cards));
    forall c ensures c in CardsOf(BitmapOf(cards)) <==> c in cards {
      BitmapOfHas(cards, c);
    }
  }
}
