/**
 * The deck used to deal random hands: an array of the 52 single-bit card words, a mask
 * of cards taken out of play and the index of the next card to deal. `Shuffle` is the
 * Fisher-Yates swap loop, with the random indices it would draw given as input; `Draw`
 * ORs the next cards into a hand, stepping over cards that were taken out.
 */
module Decks {
  import opened Wrappers
  import opened Words

  const DeckSize: nat := 52

  /** The words of a new deck: card `i` is `1ul << i`. */
  function NewCards(): (s: seq<Word>)
    ensures |s| == DeckSize
  {
    seq(DeckSize, i requires 0 <= i < DeckSize => ShiftBit(i))
  }

  // ---------------------------------------------------------------------------
  // Shuffling

  /** `s` with the entries at `i` and `j` exchanged. */
  function Swap(s: seq<Word>, i: nat, j: nat): (r: seq<Word>)
    requires i < |s| && j < |s|
    ensures |r| == |s|
  {
    s[j := s[i]][i := s[j]]
  }

  /** Exchanging two entries keeps the same entries. */
  lemma SwapPermutes(s: seq<Word>, i: nat, j: nat)
    requires i < |s| && j < |s|
    ensures multiset(Swap(s, i, j)) == multiset(s)
  {
  }

  /**
   * The picks a shuffle of `length` entries may use: the one for the step that swaps
   * index `n` (the `t`-th step, `n = length - 1 - t`) is one of `0..n`, as
   * `random.Next(n + 1)` returns.
   */
  predicate Picks(picks: seq<int>, length: nat) {
    && |picks| + 1 >= length
    && forall t :: 0 <= t < |picks| && t + 1 < length ==> 0 <= picks[t] < length - t
  }

  /**
   * The shuffle from the step where `n` entries are still to be placed: the entry at
   * `n - 1` is exchanged with the one at its pick, then the rest follow.
   */
  function Shuffled(s: seq<Word>, picks: seq<int>, n: nat): seq<Word>
    requires Picks(picks, |s|) && n <= |s|
    decreases n
  {
    if n <= 1 then s
    else Shuffled(Swap(s, n - 1, picks[|s| - n]), picks, n - 1)
  }

  /** Shuffling only moves entries: the deck keeps the same cards. */
  lemma {:induction false} ShuffledPermutes(s: seq<Word>, picks: seq<int>, n: nat)
    requires Picks(picks, |s|) && n <= |s|
    ensures |Shuffled(s, picks, n)| == |s|
    ensures multiset(Shuffled(s, picks, n)) == multiset(s)
    decreases n
  {
    if n > 1 {
      SwapPermutes(s, n - 1, picks[|s| - n]);
      ShuffledPermutes(Swap(s, n - 1, picks[|s| - n]), picks, n - 1);
    }
  }

  // ---------------------------------------------------------------------------
  // Drawing

  /** The first index from `p` whose card is not taken out, or `|cards|` when there is none. */
  function NextFree(cards: seq<Word>, removed: Word, p: nat): (q: nat)
    requires p <= |cards|
    ensures p <= q <= |cards|
    decreases |cards| - p
  {
    if p == |cards| || And(cards[p], removed) == 0 then p else NextFree(cards, removed, p + 1)
  }

  /** The cards passed over are all taken out, and the one found is in play. */
  lemma {:induction false} NextFreeSkips(cards: seq<Word>, removed: Word, p: nat)
    requires p <= |cards|
    ensures var q := NextFree(cards, removed, p);
      && (forall j :: p <= j < q ==> And(cards[j], removed) != 0)
      && (q < |cards| ==> And(cards[q], removed) == 0)
    decreases |cards| - p
  {
    if p < |cards| && And(cards[p], removed) != 0 {
      NextFreeSkips(cards, removed, p + 1);
    }
  }

  /** Indices into a deck of `n` entries. */
  predicate Within(indices: seq<nat>, n: nat) {
    forall j :: 0 <= j < |indices| ==> indices[j] < n
  }

  /** The cards still in play from index `p` on. */
  function FreeCount(cards: seq<Word>, removed: Word, p: nat): nat
    requires p <= |cards|
    decreases |cards| - p
  {
    if p == |cards| then 0
    else (if And(cards[p], removed) == 0 then 1 else 0) + FreeCount(cards, removed, p + 1)
  }

  /**
   * Where a draw stands: the indices dealt so far and the next position, or the position
   * at which `cards[position]` went out of range.
   */
  datatype Dealing = Dealt(indices: seq<nat>, next: nat) | OutOfRange(next: nat)

  /** The first `k` cards dealt from position `p`. */
  function Draws(cards: seq<Word>, removed: Word, p: nat, k: nat): (d: Dealing)
    requires p <= |cards|
    ensures d.next <= |cards|
    ensures d.Dealt? ==> Within(d.indices, |cards|)
  {
    if k == 0 then Dealt([], p)
    else match Draws(cards, removed, p, k - 1)
      case OutOfRange(q) => OutOfRange(q)
      case Dealt(indices, q) =>
        var free := NextFree(cards, removed, q);
        if free == |cards| then OutOfRange(free) else Dealt(indices + [free], free + 1)
  }

  /** One more card: the next card in play after the position, if there is one. */
  lemma DrawsStep(cards: seq<Word>, removed: Word, p: nat, k: nat, indices: seq<nat>, q: nat)
    requires p <= |cards| && Draws(cards, removed, p, k) == Dealt(indices, q)
    ensures var free := NextFree(cards, removed, q);
      Draws(cards, removed, p, k + 1) == if free == |cards| then OutOfRange(free) else Dealt(indices + [free], free + 1)
  {
  }

  /** One more index ORs one more card into the hand. */
  lemma HandStep(cards: seq<Word>, indices: seq<nat>, j: nat)
    requires j < |cards| && Within(indices, |cards|)
    ensures HandOf(cards, indices + [j]) == Or(HandOf(cards, indices), cards[j])
  {
    assert (indices + [j])[..|indices|] == indices;
  }

  /** Once out of range, a draw stays out of range at the same position. */
  lemma {:induction false} OutOfRangeStays(cards: seq<Word>, removed: Word, p: nat, k: nat, m: nat)
    requires p <= |cards| && k <= m && Draws(cards, removed, p, k).OutOfRange?
    ensures Draws(cards, removed, p, m) == Draws(cards, removed, p, k)
    decreases m
  {
    if k < m {
      OutOfRangeStays(cards, removed, p, k, m - 1);
    }
  }

  /**
   * `Draw`'s loop as a function: what the rest of a draw returns when `k` more cards are
   * to be dealt from position `p` into the partial hand `hand`.
   */
  function Finish(cards: seq<Word>, removed: Word, p: nat, k: nat, hand: Word): (Option<Word>, nat)
    requires p <= |cards|
    decreases k
  {
    if k == 0 then (Some(hand), p)
    else
      var free := NextFree(cards, removed, p);
      if free == |cards| then (None, free)
      else
        OrWord(hand, cards[free]);
        Finish(cards, removed, free + 1, k - 1, Or(hand, cards[free]))
  }

  /** What `Draw` returns for a dealing: the hand and the new position. */
  function Returned(cards: seq<Word>, d: Dealing): (Option<Word>, nat)
    requires d.Dealt? ==> Within(d.indices, |cards|)
  {
    match d
    case Dealt(indices, next) => (Some(HandOf(cards, indices)), next)
    case OutOfRange(next) => (None, next)
  }

  /** The rest of a draw after `i` of its `k` cards ends where the whole draw ends. */
  lemma {:induction false} FinishDraws(cards: seq<Word>, removed: Word, p: nat, i: nat, k: nat)
    requires p <= |cards| && i <= k && Draws(cards, removed, p, i).Dealt?
    ensures var d := Draws(cards, removed, p, i);
      Finish(cards, removed, d.next, k - i, HandOf(cards, d.indices)) == Returned(cards, Draws(cards, removed, p, k))
    decreases k - i
  {
    var d := Draws(cards, removed, p, i);
    if i == k {
      assert Finish(cards, removed, d.next, 0, HandOf(cards, d.indices)) == Returned(cards, d);
    } else if NextFree(cards, removed, d.next) == |cards| {
      FinishOutOfRange(cards, removed, p, i, k);
    } else {
      FinishDealt(cards, removed, p, i, k);
      FinishDraws(cards, removed, p, i + 1, k);
    }
  }

  /** A draw that finds no card in play after `i` cards ends out of range, whatever is left to draw. */
  lemma FinishOutOfRange(cards: seq<Word>, removed: Word, p: nat, i: nat, k: nat)
    requires p <= |cards| && i < k && Draws(cards, removed, p, i).Dealt?
    requires NextFree(cards, removed, Draws(cards, removed, p, i).next) == |cards|
    ensures var d := Draws(cards, removed, p, i);
      Finish(cards, removed, d.next, k - i, HandOf(cards, d.indices)) == Returned(cards, Draws(cards, removed, p, k))
  {
    var d := Draws(cards, removed, p, i);
    DrawsStep(cards, removed, p, i, d.indices, d.next);
    OutOfRangeStays(cards, removed, p, i + 1, k);
  }

  /** A card in play after `i` cards is ORed into the hand by both accounts of the draw. */
  lemma FinishDealt(cards: seq<Word>, removed: Word, p: nat, i: nat, k: nat)
    requires p <= |cards| && i < k && Draws(cards, removed, p, i).Dealt?
    requires NextFree(cards, removed, Draws(cards, removed, p, i).next) < |cards|
    ensures var d, e := Draws(cards, removed, p, i), Draws(cards, removed, p, i + 1);
      && e.Dealt?
      && Finish(cards, removed, d.next, k - i, HandOf(cards, d.indices))
        == Finish(cards, removed, e.next, k - (i + 1), HandOf(cards, e.indices))
  {
    var d := Draws(cards, removed, p, i);
    var free := NextFree(cards, removed, d.next);
    DrawsStep(cards, removed, p, i, d.indices, d.next);
    HandStep(cards, d.indices, free);
  }

  /** The OR of the cards at some indices, in order. */
  function HandOf(cards: seq<Word>, indices: seq<nat>): Word
    requires Within(indices, |cards|)
  {
    if indices == [] then 0
    else
      var init := HandOf(cards, indices[..|indices| - 1]);
      OrWord(init, cards[indices[|indices| - 1]]);
      Or(init, cards[indices[|indices| - 1]])
  }

  /**
   * A completed draw of `k` cards from `p` deals `k` distinct indices in increasing order
   * between `p` and the new position; each is a card in play, and every index passed over
   * is a card taken out.
   */
  lemma {:induction false} DrawsDeal(cards: seq<Word>, removed: Word, p: nat, k: nat)
    requires p <= |cards| && Draws(cards, removed, p, k).Dealt?
    ensures var d := Draws(cards, removed, p, k);
      && |d.indices| == k && p <= d.next
      && (forall j :: 0 <= j < k ==> p <= d.indices[j] < d.next && And(cards[d.indices[j]], removed) == 0)
      && (forall i, j :: 0 <= i < j < k ==> d.indices[i] < d.indices[j])
      && (forall q :: p <= q < d.next && q !in d.indices ==> And(cards[q], removed) != 0)
  {
    if k > 0 {
      DrawsDeal(cards, removed, p, k - 1);
      NextFreeSkips(cards, removed, Draws(cards, removed, p, k - 1).next);
    }
  }

  /** Dealt cards and passed-over cards account for every card in play from `p`. */
  lemma {:induction false} DrawsCount(cards: seq<Word>, removed: Word, p: nat, k: nat)
    requires p <= |cards|
    ensures var d := Draws(cards, removed, p, k);
      && (d.Dealt? ==> FreeCount(cards, removed, p) == k + FreeCount(cards, removed, d.next))
      && (d.OutOfRange? ==> FreeCount(cards, removed, p) < k && d.next == |cards|)
  {
    if k > 0 {
      DrawsCount(cards, removed, p, k - 1);
      var d := Draws(cards, removed, p, k - 1);
      if d.Dealt? {
        SkipCount(cards, removed, d.next);
        NextFreeSkips(cards, removed, d.next);
      }
    }
  }

  /** Stepping over taken-out cards does not change the count of cards in play. */
  lemma {:induction false} SkipCount(cards: seq<Word>, removed: Word, p: nat)
    requires p <= |cards|
    ensures FreeCount(cards, removed, p) == FreeCount(cards, removed, NextFree(cards, removed, p))
    decreases |cards| - p
  {
    if p < |cards| && And(cards[p], removed) != 0 {
      SkipCount(cards, removed, p + 1);
    }
  }

  /** A draw of `k` cards runs out of range exactly when fewer than `k` cards in play remain. */
  lemma DrawsOutOfRange(cards: seq<Word>, removed: Word, p: nat, k: nat)
    requires p <= |cards|
    ensures Draws(cards, removed, p, k).OutOfRange? <==> FreeCount(cards, removed, p) < k
  {
    DrawsCount(cards, removed, p, k);
  }

  /** Bits shared by neither `a` nor `b` with `r` are not shared by `a | b` either. */
  lemma OrDisjoint(a: nat, b: nat, r: nat)
    requires And(a, r) == 0 && And(b, r) == 0
    ensures And(Or(a, b), r) == 0
  {
    forall q: nat ensures Has(And(Or(a, b), r), q) == Has(0, q) {
      HasAnd(Or(a, b), r, q);
      HasOr(a, b, q);
      HasAnd(a, r, q);
      HasAnd(b, r, q);
      HasZero(q);
    }
    Ext(And(Or(a, b), r), 0);
  }

  /** A hand of cards in play shares no bit with the taken-out cards. */
  lemma {:induction false} HandAvoidsRemoved(cards: seq<Word>, removed: Word, indices: seq<nat>)
    requires forall j :: 0 <= j < |indices| ==> indices[j] < |cards| && And(cards[indices[j]], removed) == 0
    ensures And(HandOf(cards, indices), removed) == 0
  {
    if indices == [] {
      assert And(0, removed) == 0;
    } else {
      var init := indices[..|indices| - 1];
      HandAvoidsRemoved(cards, removed, init);
      OrDisjoint(HandOf(cards, init), cards[indices[|indices| - 1]], removed);
    }
  }

  // ---------------------------------------------------------------------------
  // The deck

  class Deck {
    var cards: array<Word>
    var removedCards: Word
    var position: int

    /** Fifty-two card words and a position from the top to just past the bottom. */
    predicate Valid()
      reads this
    {
      cards.Length == DeckSize && 0 <= position <= DeckSize
    }

    /** `new Deck(removedCards)`: card `i` is `1ul << i` and dealing starts at the top. */
    constructor (removedCards: Word)
      ensures Valid() && fresh(cards)
      ensures cards[..] == NewCards() && this.removedCards == removedCards && position == 0
    {
      this.removedCards := removedCards;
      var words := new Word[DeckSize];
      for i := 0 to DeckSize
        invariant forall j :: 0 <= j < i ==> words[j] == ShiftBit(j)
      {
        words[i] := ShiftBit(i);
      }
      cards := words;
      position := 0;
    }

    /** `CardsRemaining`: what is left below the position, taken-out cards included. */
    function CardsRemaining(): (n: int)
      requires Valid()
      reads this
      ensures 0 <= n <= DeckSize && n + position == DeckSize
    {
      DeckSize - position
    }

    /**
     * `Shuffle()`: for `n` from 51 down to 1 the entry at `n` is exchanged with the one at
     * a pick in `0..n`; then dealing restarts from the top.
     */
    method Shuffle(picks: seq<int>)
      requires Valid() && Picks(picks, cards.Length)
      modifies this`position, cards
      ensures Valid() && position == 0
      ensures cards[..] == Shuffled(old(cards[..]), picks, cards.Length)
      ensures multiset(cards[..]) == multiset(old(cards[..]))
    {
      var n := cards.Length;
      while n > 1
        invariant 0 <= n <= cards.Length
        invariant Shuffled(cards[..], picks, n) == Shuffled(old(cards[..]), picks, cards.Length)
      {
        n := n - 1;
        var k := picks[cards.Length - 1 - n];
        ghost var before := cards[..];
        var value := cards[k];
        cards[k] := cards[n];
        assert cards[..] == before[k := before[n]];
        cards[n] := value;
        assert cards[..] == Swap(before, n, k);
      }
      position := 0;
      ShuffledPermutes(old(cards[..]), picks, cards.Length);
    }

    /** The inner `while`: the position moves past taken-out cards, or to the end. */
    method SkipRemoved()
      requires Valid()
      modifies this`position
      ensures Valid() && position == NextFree(cards[..], removedCards, old(position))
    {
      while position < cards.Length && And(cards[position], removedCards) != 0
        invariant Valid() && old(position) <= position
        invariant NextFree(cards[..], removedCards, position) == NextFree(cards[..], removedCards, old(position))
        decreases cards.Length - position
      {
        position := position + 1;
      }
    }

    /**
     * One pass of `Draw`'s loop: skip taken-out cards, then deal the card at the
     * position and move past it. At the end of the array `cards[position]` throws
     * (`None`) with the position left at the end.
     */
    method DealNext() returns (card: Option<nat>)
      requires Valid()
      modifies this`position
      ensures Valid()
      ensures var free := NextFree(cards[..], removedCards, old(position));
        if free == cards.Length then card == None && position == free
        else card == Some(free) && position == free + 1
    {
      SkipRemoved();
      if position >= cards.Length {
        // `cards[position]` is out of range.
        return None;
      }
      card := Some(position);
      position := position + 1;
    }

    /**
     * `Draw(count)`: the OR of the next `count` cards in play, the position moving past
     * each dealt and each skipped card. Reaching the end of the array throws
     * (`None`), leaving the position there.
     */
    method Draw(count: int) returns (hand: Option<Word>)
      requires Valid()
      modifies this`position
      ensures Valid()
      ensures var k := if count < 0 then 0 else count;
        match Draws(cards[..], removedCards, old(position), k)
        case Dealt(indices, next) => hand == Some(HandOf(cards[..], indices)) && position == next
        case OutOfRange(next) => hand == None && position == next
    {
      ghost var deck, removed, start := cards[..], removedCards, position;
      ghost var k: nat := if count < 0 then 0 else count;
      var bitmap: Word := 0;
      var i := 0;
      while i < count
        invariant Valid() && cards[..] == deck && removedCards == removed
        invariant 0 <= i <= k
        invariant Finish(deck, removed, position, k - i, bitmap) == Finish(deck, removed, start, k, 0)
      {
        var card := DealNext();
        if card.None? {
          hand := None;
          DrawsFinish(deck, removed, start, k);
          return;
        }
        OrWord(bitmap, cards[card.value]);
        bitmap := Or(bitmap, cards[card.value]);
        i := i + 1;
      }
      hand := Some(bitmap);
      DrawsFinish(deck, removed, start, k);
    }
  }

  /** A draw of `k` from `p` returns what `Draws` deals. */
  lemma DrawsFinish(cards: seq<Word>, removed: Word, p: nat, k: nat)
    requires p <= |cards|
    ensures Finish(cards, removed, p, k, 0) == Returned(cards, Draws(cards, removed, p, k))
  {
    FinishDraws(cards, removed, p, 0, k);
  }

  /** A fresh deck holds every card once: 52 distinct single bits. */
  lemma NewCardsDistinct()
    ensures forall i, j :: 0 <= i < j < DeckSize ==> NewCards()[i] != NewCards()[j]
    ensures forall i, q: nat :: 0 <= i < DeckSize ==> (Has(NewCards()[i], q) <==> q == i)
  {
    forall i, q: nat | 0 <= i < DeckSize ensures Has(NewCards()[i], q) <==> q == i {
      SmallShift(i);
      HasPow2(i, q);
    }
    forall i, j | 0 <= i < j < DeckSize ensures NewCards()[i] != NewCards()[j] {
      SmallShift(i);
      SmallShift(j);
      HasPow2(i, i);
      HasPow2(j, i);
    }
  }
}
