/**
 * The table builder and the lookup of the evaluator. The constructor checks that the
 * enabled passes form a prefix of five-, six-, seven-card and sizes the hash map for one
 * entry per hand of every enabled size. The five-card pass stores, under each hand's
 * bitmap, the index of the hand's strength in the sorted list of distinct strengths; the
 * six- and seven-card passes store the largest value of the hand's subsets one card
 * smaller. `Evaluate` reads a value back as an `int`.
 */
module Evaluators {
  import opened Wrappers
  import opened Words
  import opened Cards
  import opened Strengths
  import opened CardBitmaps
  import opened SortedStrengths
  import opened Hands
  import opened HashMaps

  // ---------------------------------------------------------------------------
  // Set-up checks and table size

  /** The numbers of 5-, 6- and 7-card hands the passes fill in. */
  const FiveCardHands: nat := 2598960
  const SixCardHands: nat := 20358520
  const SevenCardHands: nat := 133784560

  /** `n * (n - 1) * ... * (n - k + 1)`. */
  function Falling(n: nat, k: nat): nat {
    if k == 0 then 1 else if n == 0 then 0 else n * Falling(n - 1, k - 1)
  }

  function Factorial(k: nat): nat {
    if k == 0 then 1 else k * Factorial(k - 1)
  }

  /** Each constant is the number of ways to choose that many cards out of 52. */
  lemma HandCounts()
    ensures FiveCardHands * Factorial(5) == Falling(52, 5)
    ensures SixCardHands * Factorial(6) == Falling(52, 6)
    ensures SevenCardHands * Factorial(7) == Falling(52, 7)
  {
    assert Falling(46, 0) == 1;
  }

  datatype SetupError = SixCardWithoutFiveCard | SevenCardWithoutSixCard

  /**
   * The constructor's argument checks, in the source's order, and then the table size it
   * asks for: one entry per hand of each enabled size. The sum fits the `int` it is
   * computed in.
   */
  function RequiredCapacity(fiveCard: bool, sixCard: bool, sevenCard: bool): (r: Result<nat, SetupError>)
    ensures r.Ok? <==> (sixCard ==> fiveCard) && (sevenCard ==> sixCard)
    ensures r == Err(SixCardWithoutFiveCard) <==> sixCard && !fiveCard
    ensures r.Ok? ==> r.value < 0x8000_0000
    ensures r.Ok? ==> (r.value == 0 <==> !fiveCard)
  {
    if sixCard && !fiveCard then Err(SixCardWithoutFiveCard)
    else if sevenCard && !sixCard then Err(SevenCardWithoutSixCard)
    else Ok((if fiveCard then FiveCardHands else 0)
          + (if sixCard then SixCardHands else 0)
          + (if sevenCard then SevenCardHands else 0))
  }

  /** With the passes enabled as a prefix, the size counts the hands of exactly the enabled sizes. */
  lemma CapacityCountsHands(fiveCard: bool, sixCard: bool, sevenCard: bool)
    requires RequiredCapacity(fiveCard, sixCard, sevenCard).Ok?
    ensures var c := RequiredCapacity(fiveCard, sixCard, sevenCard).value;
      && (sevenCard ==> c * Factorial(7) == Falling(52, 5) * 42 + Falling(52, 6) * 7 + Falling(52, 7))
      && (sixCard && !sevenCard ==> c * Factorial(6) == Falling(52, 5) * 6 + Falling(52, 6))
      && (fiveCard && !sixCard ==> c * Factorial(5) == Falling(52, 5))
  {
    HandCounts();
  }

  // ---------------------------------------------------------------------------
  // Combination bitmaps

  /** `positions.Aggregate(0ul, (acc, el) => acc | (1ul << el))`. */
  function PositionsBitmap(ps: seq<int>): Word {
    if ps == [] then 0
    else
      var init := PositionsBitmap(ps[..|ps| - 1]);
      OrWord(init, ShiftBit(ps[|ps| - 1]));
      Or(init, ShiftBit(ps[|ps| - 1]))
  }

  /** A combination of positions in `0..63` has exactly the bits of its positions. */
  lemma {:induction false} PositionsBitmapHas(ps: seq<int>, q: nat)
    requires forall i :: 0 <= i < |ps| ==> 0 <= ps[i] < 64
    ensures Has(PositionsBitmap(ps), q) <==> q in ps
  {
    if ps == [] {
      HasZero(q);
    } else {
      var init, last := ps[..|ps| - 1], ps[|ps| - 1];
      PositionsBitmapHas(init, q);
      HasOr(PositionsBitmap(init), ShiftBit(last), q);
      SmallShift(last);
      HasPow2(last, q);
      assert ps == init + [last];
    }
  }

  /** The cards at a list of positions. */
  function CardsAt(ps: seq<int>): seq<Card>
    requires forall i :: 0 <= i < |ps| ==> 0 <= ps[i] < 52
  {
    seq(|ps|, i requires 0 <= i < |ps| => CardAt(ps[i]))
  }

  /** `Enumerable.Range(base, 52)`: the positions a pass chooses its combinations from. */
  function SourcePositions(base: int): seq<int> {
    seq(52, i => base + i)
  }

  /**
   * Positions drawn from `SourcePositions(0)`, as the five-card pass draws them, are card
   * positions: their bitmap is the bitmap of the cards there.
   */
  lemma {:induction false} CardPositionsBitmap(ps: seq<int>)
    requires forall i :: 0 <= i < |ps| ==> ps[i] in SourcePositions(0)
    ensures forall i :: 0 <= i < |ps| ==> 0 <= ps[i] < 52
    ensures PositionsBitmap(ps) == BitmapOf(CardsAt(ps))
  {
    assert forall i :: 0 <= i < |ps| ==> 0 <= ps[i] < 52 by {
      forall i | 0 <= i < |ps| ensures 0 <= ps[i] < 52 {
        var k :| 0 <= k < 52 && SourcePositions(0)[k] == ps[i];
      }
    }
    if ps != [] {
      var init, last := ps[..|ps| - 1], ps[|ps| - 1];
      assert forall i :: 0 <= i < |init| ==> init[i] == ps[i];
      CardPositionsBitmap(init);
      var cards := CardsAt(ps);
      assert cards[..|ps| - 1] == CardsAt(init);
      CardAtRoundTrip(last);
      SmallShift(last);
      assert BitmapOf(cards) == Or(BitmapOf(CardsAt(init)), CardBit(cards[|ps| - 1]));
    }
  }

  /**
   * As written, the six- and seven-card passes choose from `SourcePositions(1)`, which
   * holds 52. The six-card hand 47..52 has the subset 48..52, whose bitmap has bit 52 and
   * so is the bitmap of no list of cards: the five-card pass never stored it.
   */
  lemma SixCardSubsetIsNoHand()
    ensures forall i :: 0 <= i < 6 ==> [47, 48, 49, 50, 51, 52][i] in SourcePositions(1)
    ensures forall cards: seq<Card> :: PositionsBitmap([48, 49, 50, 51, 52]) != BitmapOf(cards)
  {
    assert forall i :: 0 <= i < 6 ==> [47, 48, 49, 50, 51, 52][i] == SourcePositions(1)[46 + i];
    var subset := [48, 49, 50, 51, 52];
    PositionsBitmapHas(subset, 52);
    forall cards: seq<Card> ensures PositionsBitmap(subset) != BitmapOf(cards) {
      BitmapOfBelow(cards);
      HasBelow(BitmapOf(cards), 52, 52);
    }
  }

  /**
   * Hence, in a table whose only keys are card bitmaps (as after the five-card pass),
   * the six-card pass's lookup of that subset finds nothing: `this[key]` would probe
   * forever.
   */
  lemma SixCardLookupNeverReturns(d: seq<seq<Slot>>, count: nat, slots: nat, keys: seq<Word>)
    requires Shaped(d, count, slots)
    requires forall i :: 0 <= i < |keys| ==> keys[i] < Pow2(52)
    requires forall k: Word :: k != 0 && k !in keys ==> Lookup(d, count, slots, k) == None
    ensures Lookup(d, count, slots, PositionsBitmap([48, 49, 50, 51, 52])) == None
  {
    var subset := [48, 49, 50, 51, 52];
    var k := PositionsBitmap(subset);
    PositionsBitmapHas(subset, 52);
    HasZero(52);
    if k in keys {
      var i :| 0 <= i < |keys| && keys[i] == k;
      HasBelow(keys[i], 52, 52);
    }
  }

  // ---------------------------------------------------------------------------
  // The five-card pass

  /** The distinct-strength list holds classifier output, strictly increasing. */
  predicate StrengthOrder(unique: seq<HandStrength>) {
    AllWellFormed(unique) && Sorted(unique)
  }

  /** `new Hand(bitmap).GetStrength()`: the strength of a five-card hand, null for any other. */
  method Classify(bitmap: Word) returns (strength: Option<HandStrength>)
    ensures |CardsOf(bitmap)| != 5 ==> strength == None
    ensures |CardsOf(bitmap)| == 5 ==> strength == Some(PokerStrength(CardsOf(bitmap))) && WellFormed(strength.value)
  {
    var hand := new Hand.FromBitmap(bitmap);
    strength := hand.GetStrength();
    if strength.Some? {
      PokerStrengthWellFormed(CardsOf(bitmap));
    }
  }

  /** The loop that classifies every five-card hand of the pass, in order. */
  method HandStrengths(bitmaps: seq<Word>) returns (strengths: seq<HandStrength>)
    requires forall i :: 0 <= i < |bitmaps| ==> |CardsOf(bitmaps[i])| == 5
    ensures |strengths| == |bitmaps| && AllWellFormed(strengths)
    ensures forall i :: 0 <= i < |bitmaps| ==> strengths[i] == PokerStrength(CardsOf(bitmaps[i]))
  {
    strengths := [];
    for n := 0 to |bitmaps|
      invariant |strengths| == n && AllWellFormed(strengths)
      invariant forall i :: 0 <= i < n ==> strengths[i] == PokerStrength(CardsOf(bitmaps[i]))
    {
      var strength := Classify(bitmaps[n]);
      strengths := strengths + [strength.value];
    }
  }

  /**
   * The distinct strengths, collected with `BinaryInsert` into a list that stays sorted:
   * the list ends up holding each strength once and nothing else.
   */
  method DistinctStrengths(strengths: seq<HandStrength>) returns (unique: StrengthList)
    requires AllWellFormed(strengths) && |strengths| < ListLimit / 2
    ensures StrengthOrder(unique.items) && |unique.items| <= |strengths|
    ensures forall s :: s in unique.items <==> s in strengths
  {
    unique := new StrengthList();
    for n := 0 to |strengths|
      invariant StrengthOrder(unique.items) && |unique.items| <= n
      invariant forall s :: s in unique.items <==> s in strengths[..n]
    {
      ghost var before := unique.items;
      var inserted := BinaryInsert(unique, strengths[n]);
      if inserted.Some? {
        InsertAtMembers(before, inserted.value, strengths[n]);
      }
      assert strengths[..n + 1] == strengths[..n] + [strengths[n]];
    }
    assert strengths[..|strengths|] == strengths;
  }

  /** The first index of `x` in `xs`; in a sorted list, its only one. */
  function IndexOf(xs: seq<HandStrength>, x: HandStrength): (i: nat)
    requires x in xs
    ensures i < |xs| && xs[i] == x && x !in xs[..i]
  {
    if xs[0] == x then 0
    else
      assert xs == [xs[0]] + xs[1..];
      var j := IndexOf(xs[1..], x);
      assert xs[..j + 1] == [xs[0]] + xs[1..][..j];
      j + 1
  }

  /** A sorted list has each strength at one index only. */
  lemma SortedIndex(xs: seq<HandStrength>, i: nat)
    requires StrengthOrder(xs) && i < |xs|
    ensures IndexOf(xs, xs[i]) == i
  {
    var j := IndexOf(xs, xs[i]);
    if j < i {
      LessIrreflexive(xs[i]);
    }
  }

  /** A five-card hand with its strength among the distinct strengths. */
  predicate Listed(unique: seq<HandStrength>, bitmap: Word) {
    |CardsOf(bitmap)| == 5 && PokerStrength(CardsOf(bitmap)) in unique
  }

  /** The value the five-card pass stores for a hand: its strength's index. */
  function Rank(unique: seq<HandStrength>, bitmap: Word): nat
    requires Listed(unique, bitmap)
  {
    IndexOf(unique, PokerStrength(CardsOf(bitmap)))
  }

  /**
   * The stored values order hands as their strengths do: a smaller value is a weaker
   * hand and equal values are equal strengths.
   */
  lemma RanksOrderHands(unique: seq<HandStrength>, a: Word, b: Word)
    requires StrengthOrder(unique) && Listed(unique, a) && Listed(unique, b)
    ensures var sa, sb := PokerStrength(CardsOf(a)), PokerStrength(CardsOf(b));
      && (Rank(unique, a) < Rank(unique, b) <==> Less(sa, sb))
      && (Rank(unique, a) == Rank(unique, b) <==> sa == sb)
  {
    var sa, sb := PokerStrength(CardsOf(a)), PokerStrength(CardsOf(b));
    var i, j := Rank(unique, a), Rank(unique, b);
    PokerStrengthWellFormed(CardsOf(a));
    PokerStrengthWellFormed(CardsOf(b));
    LessTotal(sa, sb);
    if i == j {
      LessIrreflexive(sa);
    } else if j < i {
      assert Less(sb, sa);
    }
  }

  /** A map of `size * count` words with `count > 0` has no slot exactly when `size` is 0. */
  lemma NoWords(size: nat, count: nat)
    requires count > 0
    ensures size * count == 0 <==> size == 0
  {
    if size > 0 {
      MulMonotone(1, size, count);
    }
  }

  /**
   * What `handRankMap[key] = value` does to a map of `count` shards of `slots` slots,
   * given the contents and miss counter before and after and the outcome.
   */
  ghost predicate Assigned(before: seq<seq<Slot>>, after: seq<seq<Slot>>, missesBefore: int, missesAfter: int,
                           count: nat, slots: nat, key: Word, value: Word, r: Outcome<()>)
  {
    if slots == 0 then r == Faulted && after == before && missesAfter == missesBefore
    else
      && Shaped(before, count, slots)
      && match Insert(before, count, slots, key, value)
         case Full => r == Unending && after == before && missesAfter == missesBefore + slots
         case Inserted(contents, skipped) => r == Returned(()) && after == contents && missesAfter == missesBefore + skipped
  }

  /** `handRankMap[key] = value`, stated by `Assigned`. */
  method Assign(handRankMap: HashMap, key: Word, value: Word) returns (r: Outcome<()>)
    requires handRankMap.Valid()
    modifies handRankMap`misses, handRankMap.data
    ensures handRankMap.Valid()
    ensures Assigned(old(handRankMap.Contents()), handRankMap.Contents(), old(handRankMap.misses), handRankMap.misses,
                     handRankMap.count, handRankMap.size / 2, key, value, r)
  {
    NoWords(handRankMap.size, handRankMap.count);
    r := handRankMap.Set(key, value);
  }

  /**
   * One hand of the five-card pass: the hand of `bitmap` is classified, its strength
   * searched for in the distinct-strength list and the index stored under `bitmap`. A
   * bitmap that is not five cards, or a strength not in the list, throws.
   */
  method FiveCardStep(handRankMap: HashMap, unique: seq<HandStrength>, bitmap: Word) returns (r: Outcome<()>)
    requires handRankMap.Valid() && StrengthOrder(unique) && |unique| < ListLimit
    modifies handRankMap`misses, handRankMap.data
    ensures handRankMap.Valid()
    ensures !Listed(unique, bitmap) ==>
      && r == Faulted
      && handRankMap.Contents() == old(handRankMap.Contents()) && handRankMap.misses == old(handRankMap.misses)
    ensures Listed(unique, bitmap) ==>
      Assigned(old(handRankMap.Contents()), handRankMap.Contents(), old(handRankMap.misses), handRankMap.misses,
               handRankMap.count, handRankMap.size / 2, bitmap, Rank(unique, bitmap), r)
  {
    var strength := Classify(bitmap);
    if strength.None? {
      // `BinarySearch` calls `CompareTo` on the null strength.
      return Faulted;
    }
    var equivalence := BinarySearch(unique, strength.value);
    if !equivalence.Found? {
      // "hand not found", or `ElementAt` out of range.
      return Faulted;
    }
    SortedIndex(unique, equivalence.index);
    assert Listed(unique, bitmap) && Rank(unique, bitmap) == equivalence.index;
    r := Assign(handRankMap, bitmap, equivalence.index);
  }

  /** After `FiveCardPass` has stored the first `n` hands: each maps to its rank, other keys to nothing. */
  ghost predicate Filled(d: seq<seq<Slot>>, count: nat, slots: nat, unique: seq<HandStrength>, bitmaps: seq<Word>, n: nat)
    requires Shaped(d, count, slots) && n <= |bitmaps|
  {
    && (forall i :: 0 <= i < n ==>
          && Listed(unique, bitmaps[i])
          && Lookup(d, count, slots, bitmaps[i]).Some?
          && Lookup(d, count, slots, bitmaps[i]).value == Rank(unique, bitmaps[i]))
    && (forall k: Word :: k != 0 && k !in bitmaps[..n] ==> Lookup(d, count, slots, k) == None)
  }

  /** A five-card hand's bitmap is not 0. */
  lemma HandBitmapNonzero(bitmap: Word)
    requires |CardsOf(bitmap)| > 0
    ensures bitmap != 0
  {
    CardsOfBitmap(bitmap);
    assert CardsOf(bitmap)[0] in CardsOf(bitmap);
    HasZero(Position(CardsOf(bitmap)[0]));
  }

  /** Storing the next hand keeps `Filled` one hand further on. */
  lemma FillStep(d: seq<seq<Slot>>, count: nat, slots: nat, unique: seq<HandStrength>, bitmaps: seq<Word>, n: nat)
    requires Shaped(d, count, slots) && n < |bitmaps| && |unique| < ListLimit
    requires forall i, j :: 0 <= i < j < |bitmaps| ==> bitmaps[i] != bitmaps[j]
    requires Filled(d, count, slots, unique, bitmaps, n) && Listed(unique, bitmaps[n])
    requires Insert(d, count, slots, bitmaps[n], Rank(unique, bitmaps[n])).Inserted?
    ensures Filled(Insert(d, count, slots, bitmaps[n], Rank(unique, bitmaps[n])).contents, count, slots, unique, bitmaps, n + 1)
  {
    var key, value := bitmaps[n], Rank(unique, bitmaps[n]);
    var after := Insert(d, count, slots, key, value).contents;
    HandBitmapNonzero(key);
    assert key !in bitmaps[..n];
    LookupAfterInsert(d, count, slots, key, value);
    forall i | 0 <= i < n
      ensures Lookup(after, count, slots, bitmaps[i]) == Lookup(d, count, slots, bitmaps[i])
    {
      assert bitmaps[i] in bitmaps[..n];
      HandBitmapNonzero(bitmaps[i]);
      LookupOtherKey(d, count, slots, key, value, bitmaps[i]);
    }
    forall k: Word | k != 0 && k !in bitmaps[..n + 1]
      ensures Lookup(after, count, slots, k) == None
    {
      assert bitmaps[..n + 1] == bitmaps[..n] + [key];
      LookupOtherKey(d, count, slots, key, value, k);
    }
  }

  /**
   * The five-card pass's last loop over the distinct hand bitmaps, on a map fresh from
   * its constructor. When it completes, every hand maps to the index of its strength
   * and no other key is present; on a map with room it throws only on a hand that is not
   * listed. A map without room (a load factor of 0) throws at the first hand.
   */
  method FiveCardPass(handRankMap: HashMap, unique: seq<HandStrength>, bitmaps: seq<Word>) returns (r: Outcome<()>)
    requires handRankMap.Valid()
    requires handRankMap.Contents() == Empty(handRankMap.count, handRankMap.size / 2)
    requires StrengthOrder(unique) && |unique| < ListLimit
    requires forall i, j :: 0 <= i < j < |bitmaps| ==> bitmaps[i] != bitmaps[j]
    modifies handRankMap`misses, handRankMap.data
    ensures handRankMap.Valid()
    ensures handRankMap.size == 0 ==> r == (if |bitmaps| == 0 then Returned(()) else Faulted)
    ensures handRankMap.size > 0 ==> Shaped(handRankMap.Contents(), handRankMap.count, handRankMap.size / 2)
    ensures handRankMap.size > 0 && r == Returned(()) ==>
      Filled(handRankMap.Contents(), handRankMap.count, handRankMap.size / 2, unique, bitmaps, |bitmaps|)
    ensures handRankMap.size > 0 && r == Faulted ==> exists i :: 0 <= i < |bitmaps| && !Listed(unique, bitmaps[i])
  {
    var count, slots := handRankMap.count, handRankMap.size / 2;
    if slots > 0 {
      forall k: Word ensures Lookup(Empty(count, slots), count, slots, k) == None || k == 0 {
        EmptyLookup(count, slots, k);
      }
    }
    for n := 0 to |bitmaps|
      invariant handRankMap.Valid() && handRankMap.count == count && handRankMap.size / 2 == slots
      invariant slots == 0 ==> n == 0
      invariant slots > 0 ==> Shaped(handRankMap.Contents(), count, slots)
      invariant slots > 0 ==> Filled(handRankMap.Contents(), count, slots, unique, bitmaps, n)
    {
      ghost var before := handRankMap.Contents();
      r := FiveCardStep(handRankMap, unique, bitmaps[n]);
      if r != Returned(()) {
        return;
      }
      FillStep(before, count, slots, unique, bitmaps, n);
    }
    r := Returned(());
  }

  // ---------------------------------------------------------------------------
  // The six- and seven-card passes

  /** The largest of some values, as `List<ulong>.Max()`. */
  function MaxOf(values: seq<Word>): (m: Word)
    requires |values| > 0
    ensures m in values
    ensures forall i :: 0 <= i < |values| ==> values[i] <= m
  {
    if |values| == 1 then values[0]
    else
      var rest := MaxOf(values[1..]);
      assert forall i :: 1 <= i < |values| ==> values[i] == values[1..][i - 1];
      if values[0] < rest then rest else values[0]
  }

  /** The values stored for some keys, or `None` when a key is missing. */
  function LookupAll(d: seq<seq<Slot>>, count: nat, slots: nat, keys: seq<Word>): (r: Option<seq<Word>>)
    requires Shaped(d, count, slots)
  {
    if forall i :: 0 <= i < |keys| ==> Lookup(d, count, slots, keys[i]).Some? then
      Some(seq(|keys|, i requires 0 <= i < |keys| => Lookup(d, count, slots, keys[i]).value))
    else None
  }

  /** Keys that are all found give their values, in order. */
  lemma LookupAllFound(d: seq<seq<Slot>>, count: nat, slots: nat, keys: seq<Word>, values: seq<Word>)
    requires Shaped(d, count, slots) && |values| == |keys|
    requires forall j :: 0 <= j < |keys| ==> Lookup(d, count, slots, keys[j]) == Some(values[j])
    ensures LookupAll(d, count, slots, keys) == Some(values)
  {
    assert LookupAll(d, count, slots, keys).value == values;
  }

  /** The bitmaps of some combinations of positions. */
  function SubsetKeys(subsets: seq<seq<int>>): seq<Word> {
    seq(|subsets|, i requires 0 <= i < |subsets| => PositionsBitmap(subsets[i]))
  }

  /**
   * The inner loop of a six- or seven-card step: the value stored for each subset. It
   * stops at the first missing subset, whose lookup would never return.
   */
  method SubsetValues(handRankMap: HashMap, subsets: seq<seq<int>>) returns (r: Outcome<seq<Word>>)
    requires handRankMap.Valid()
    ensures handRankMap.size == 0 && |subsets| > 0 ==> r == Faulted
    ensures handRankMap.size == 0 && |subsets| == 0 ==> r == Returned([])
    ensures handRankMap.size > 0 ==>
      && Shaped(handRankMap.Contents(), handRankMap.count, handRankMap.size / 2)
      && r == match LookupAll(handRankMap.Contents(), handRankMap.count, handRankMap.size / 2, SubsetKeys(subsets))
        case Some(values) => Returned(values)
        case None => Unending
  {
    NoWords(handRankMap.size, handRankMap.count);
    ghost var d, count, slots := handRankMap.Contents(), handRankMap.count, handRankMap.size / 2;
    var values: seq<Word> := [];
    ghost var keys := SubsetKeys(subsets);
    for i := 0 to |subsets|
      invariant |values| == i && (slots == 0 ==> i == 0)
      invariant slots > 0 ==> forall j :: 0 <= j < i ==> Lookup(d, count, slots, keys[j]) == Some(values[j])
    {
      var subsetBitmap := PositionsBitmap(subsets[i]);
      var value := handRankMap.Get(subsetBitmap);
      match value {
        case Returned(v) =>
          assert keys[i] == subsetBitmap && Lookup(d, count, slots, subsetBitmap) == Some(v);
          values := values + [v];
        case Unending =>
          assert !(Lookup(d, count, slots, keys[i]).Some?);
          assert LookupAll(d, count, slots, keys) == None;
          return Unending;
        case Faulted =>
          return Faulted;
      }
    }
    if slots > 0 {
      LookupAllFound(d, count, slots, keys, values);
    }
    r := Returned(values);
  }

  /**
   * One hand of the six- or seven-card pass: the values stored for its subsets one card
   * smaller are read and their maximum is stored under the hand's bitmap. A missing
   * subset never returns; no subsets at all makes `Max()` throw.
   */
  method SubsetMaxStep(handRankMap: HashMap, cards: seq<int>, subsets: seq<seq<int>>) returns (r: Outcome<()>)
    requires handRankMap.Valid()
    modifies handRankMap`misses, handRankMap.data
    ensures handRankMap.Valid()
    ensures var values := if handRankMap.size == 0 then None
        else LookupAll(old(handRankMap.Contents()), handRankMap.count, handRankMap.size / 2, SubsetKeys(subsets));
      if handRankMap.size > 0 && values.Some? && |values.value| > 0 then
        Assigned(old(handRankMap.Contents()), handRankMap.Contents(), old(handRankMap.misses), handRankMap.misses,
                 handRankMap.count, handRankMap.size / 2, PositionsBitmap(cards), MaxOf(values.value), r)
      else
        && r == (if handRankMap.size > 0 && values.None? then Unending else Faulted)
        && handRankMap.Contents() == old(handRankMap.Contents()) && handRankMap.misses == old(handRankMap.misses)
  {
    NoWords(handRankMap.size, handRankMap.count);
    var values := SubsetValues(handRankMap, subsets);
    match values {
      case Faulted =>
        return Faulted;
      case Unending =>
        return Unending;
      case Returned(vs) =>
        if vs == [] {
          return Faulted;
        }
        var bitmap := PositionsBitmap(cards);
        r := Assign(handRankMap, bitmap, MaxOf(vs));
    }
  }

  /**
   * With the subsets' ranks stored, a six- or seven-card hand gets the rank of its best
   * subset: no subset is stronger, and one has exactly that strength.
   */
  lemma BestSubset(unique: seq<HandStrength>, subsetKeys: seq<Word>, values: seq<Word>)
    requires StrengthOrder(unique) && |values| == |subsetKeys| > 0
    requires forall i :: 0 <= i < |subsetKeys| ==> Listed(unique, subsetKeys[i]) && values[i] == Rank(unique, subsetKeys[i])
    ensures exists i :: 0 <= i < |subsetKeys| && MaxOf(values) == Rank(unique, subsetKeys[i])
    ensures forall i, j :: 0 <= i < |subsetKeys| && 0 <= j < |subsetKeys| && MaxOf(values) == Rank(unique, subsetKeys[j]) ==>
              var si, sj := PokerStrength(CardsOf(subsetKeys[i])), PokerStrength(CardsOf(subsetKeys[j]));
              Comparable(sj, si) && !Less(sj, si)
  {
    var m := MaxOf(values);
    var k :| 0 <= k < |values| && values[k] == m;
    forall i, j | 0 <= i < |subsetKeys| && 0 <= j < |subsetKeys| && m == Rank(unique, subsetKeys[j])
      ensures var si, sj := PokerStrength(CardsOf(subsetKeys[i])), PokerStrength(CardsOf(subsetKeys[j]));
        Comparable(sj, si) && !Less(sj, si)
    {
      RanksOrderHands(unique, subsetKeys[j], subsetKeys[i]);
    }
  }

  // ---------------------------------------------------------------------------
  // Evaluation

  /** `(int)` of a `ulong`: the low 32 bits, read as two's complement. */
  function Int32Of(w: Word): (n: int)
    ensures -0x8000_0000 <= n < 0x8000_0000
    ensures (n - w) % 0x1_0000_0000 == 0
    ensures w < 0x8000_0000 ==> n == w
  {
    var low := w % 0x1_0000_0000;
    if low < 0x8000_0000 then low else low - 0x1_0000_0000
  }

  /** The evaluator: the table of hand values, built by the passes above. */
  class Evaluator {
    var handRankMap: HashMap

    /**
     * The constructor up to the passes: an empty map of room for `requested` entries
     * (the enabled passes' hand count times the load factor).
     */
    constructor (requested: Uint)
      ensures fresh(handRankMap) && handRankMap.Valid() && handRankMap.misses == 0
      ensures handRankMap.Contents() == Empty(handRankMap.count, handRankMap.size / 2)
    {
      handRankMap := new HashMap(requested);
    }

    /**
     * `Evaluate(bitmap)`: the value stored for `bitmap`, cast to `int`. A missing bitmap
     * makes the map probe forever.
     */
    method Evaluate(bitmap: Word) returns (r: Outcome<int>)
      requires handRankMap.Valid()
      ensures handRankMap.size == 0 ==> r == Faulted
      ensures handRankMap.size > 0 ==>
        && Shaped(handRankMap.Contents(), handRankMap.count, handRankMap.size / 2)
        && r == match Lookup(handRankMap.Contents(), handRankMap.count, handRankMap.size / 2, bitmap)
          case Some(v) => Returned(Int32Of(v))
          case None => Unending
    {
      NoWords(handRankMap.size, handRankMap.count);
      var value := handRankMap.Get(bitmap);
      r := match value
        case Returned(v) => Returned(Int32Of(v))
        case Unending => Unending
        case Faulted => Faulted;
    }
  }

  /** After a completed five-card pass, evaluating a listed hand gives its strength's index. */
  lemma EvaluateFiveCard(d: seq<seq<Slot>>, count: nat, slots: nat, unique: seq<HandStrength>, bitmaps: seq<Word>, i: nat)
    requires Shaped(d, count, slots) && |unique| < ListLimit && i < |bitmaps|
    requires Filled(d, count, slots, unique, bitmaps, |bitmaps|)
    ensures Lookup(d, count, slots, bitmaps[i]).Some?
    ensures Int32Of(Lookup(d, count, slots, bitmaps[i]).value) == Rank(unique, bitmaps[i])
  {
  }

  /**
   * The evaluator's set-up: the argument checks, then a fresh map sized for `requested`
   * entries.
   */
  method NewEvaluator(fiveCard: bool, sixCard: bool, sevenCard: bool, requested: Uint)
    returns (r: Result<Evaluator, SetupError>)
    ensures r.Err? <==> RequiredCapacity(fiveCard, sixCard, sevenCard).Err?
    ensures r.Err? ==> r.error == RequiredCapacity(fiveCard, sixCard, sevenCard).error
    ensures r.Ok? ==>
      && fresh(r.value) && fresh(r.value.handRankMap) && r.value.handRankMap.Valid()
      && r.value.handRankMap.Contents() == Empty(r.value.handRankMap.count, r.value.handRankMap.size / 2)
  {
    if sixCard && !fiveCard {
      return Err(SixCardWithoutFiveCard);
    }
    if sevenCard && !sixCard {
      return Err(SevenCardWithoutSixCard);
    }
    var evaluator := new Evaluator(requested);
    r := Ok(evaluator);
  }
}
