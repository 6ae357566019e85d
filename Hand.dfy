/**
 * A hand of cards and its classifier: the cards are sorted by their prime key,
 * straights and flushes are recognised from prime products, rank groups are tallied,
 * and the first matching category, with its kickers, is the hand's strength.
 */
module Hands {
  import opened Wrappers
  import opened Factorization
  import opened Words
  import opened Cards
  import opened Strengths
  import opened CardBitmaps

  // ---------------------------------------------------------------------------
  // Sorting by the prime key

  predicate KeySorted(s: seq<Card>) {
    forall i, j :: 0 <= i < j < |s| ==> SortKey(s[i]) <= SortKey(s[j])
  }

  lemma ConsSorted(a: Card, s: seq<Card>)
    requires KeySorted(s) && (s == [] || SortKey(a) <= SortKey(s[0]))
    ensures KeySorted([a] + s)
  {
    var r := [a] + s;
    forall i, j | 0 <= i < j < |r| ensures SortKey(r[i]) <= SortKey(r[j]) {
      if i > 0 {
        assert r[i] == s[i - 1] && r[j] == s[j - 1];
      } else if j > 1 {
        assert r[j] == s[j - 1];
      }
    }
  }

  lemma TailSorted(s: seq<Card>)
    requires KeySorted(s) && s != []
    ensures KeySorted(s[1..]) && s == [s[0]] + s[1..]
    ensures forall i :: 0 < i < |s| ==> SortKey(s[0]) <= SortKey(s[i])
  {
  }

  function InsertByKey(c: Card, s: seq<Card>): (r: seq<Card>)
    requires KeySorted(s)
    ensures multiset(r) == multiset(s) + multiset{c}
    ensures KeySorted(r)
    ensures r[0] == c || r[0] == s[0]
  {
    if s == [] || SortKey(c) <= SortKey(s[0]) then
      ConsSorted(c, s);
      [c] + s
    else
      TailSorted(s);
      var rest := InsertByKey(c, s[1..]);
      ConsSorted(s[0], rest);
      [s[0]] + rest
  }

  /**
   * The ordering of the cards by `PrimeRank * 100 + PrimeSuit`. The key is injective,
   * so which sorting algorithm is used does not matter (see `SortByKeyUnique`).
   */
  function SortByKey(h: seq<Card>): (s: seq<Card>)
    ensures multiset(s) == multiset(h)
    ensures KeySorted(s)
  {
    if h == [] then []
    else
      assert h == [h[0]] + h[1..];
      InsertByKey(h[0], SortByKey(h[1..]))
  }

  /** A key-sorted permutation is unique: it is the result of `SortByKey`. */
  lemma {:induction false} KeySortedUnique(a: seq<Card>, b: seq<Card>)
    requires KeySorted(a) && KeySorted(b) && multiset(a) == multiset(b)
    ensures a == b
    decreases |a|
  {
    assert |a| == |multiset(a)| == |b|;
    if a != [] {
      TailSorted(a);
      TailSorted(b);
      assert a[0] in multiset(b) && b[0] in multiset(a);
      var i :| 0 <= i < |b| && b[i] == a[0];
      var j :| 0 <= j < |a| && a[j] == b[0];
      SortKeyOrder(a[0], b[0]);
      assert multiset(a[1..]) == multiset(a) - multiset{a[0]};
      assert multiset(b[1..]) == multiset(b) - multiset{b[0]};
      KeySortedUnique(a[1..], b[1..]);
    }
  }

  lemma SortByKeyUnique(h: seq<Card>, s: seq<Card>)
    requires KeySorted(s) && multiset(s) == multiset(h)
    ensures s == SortByKey(h)
  {
    KeySortedUnique(s, SortByKey(h));
  }

  /** Sorted by key means sorted by rank (and by suit within a rank). */
  lemma KeySortedRanks(s: seq<Card>, i: int, j: int)
    requires KeySorted(s) && 0 <= i < j < |s|
    ensures s[i].rank <= s[j].rank
  {
    SortKeyOrder(s[i], s[j]);
  }

  // ---------------------------------------------------------------------------
  // Prime products: straights and flushes

  function Ranks(h: seq<Card>): seq<nat> {
    seq(|h|, i requires 0 <= i < |h| => h[i].rank as nat)
  }

  function Suits(h: seq<Card>): seq<nat> {
    seq(|h|, i requires 0 <= i < |h| => h[i].suit as nat)
  }

  /** The product of the rank primes of the cards. */
  function RankProduct(h: seq<Card>): int {
    Product(RankPrimes, Ranks(h))
  }

  /** The product of the suit primes of the cards. */
  function SuitProduct(h: seq<Card>): int {
    Product(SuitPrimes, Suits(h))
  }

  /** The ten rank products of a straight, five-high (the wheel) first. */
  predicate StraightTest(rankProduct: int) {
    rankProduct == 8610 || rankProduct == 2310 || rankProduct == 15015 || rankProduct == 85085
    || rankProduct == 323323 || rankProduct == 1062347 || rankProduct == 2800733
    || rankProduct == 6678671 || rankProduct == 14535931 || rankProduct == 31367009
  }

  /** The four suit products of a flush: spades, hearts, diamonds, clubs. */
  predicate FlushTest(suitProduct: int) {
    suitProduct == 147008443 || suitProduct == 229345007
    || suitProduct == 418195493 || suitProduct == 714924299
  }

  /**
   * The ranks of the straight whose top card has rank `high`, lowest first. In the
   * five-high straight (`high` 3, the wheel) the ace stands below the two.
   */
  function Run(high: int): seq<nat>
    requires 3 <= high < 13
  {
    seq(5, k requires 0 <= k < 5 => if high - 4 + k < 0 then 12 else high - 4 + k)
  }

  /** Five cards of consecutive ranks. */
  predicate IsStraight(h: seq<Card>) {
    exists high :: 3 <= high < 13 && multiset(Ranks(h)) == multiset(Run(high))
  }

  /** All cards of one suit. */
  predicate IsFlush(h: seq<Card>) {
    forall c, d :: c in h && d in h ==> c.suit == d.suit
  }

  function Five(x: nat): seq<nat> {
    seq(5, k requires 0 <= k < 5 => x)
  }

  /** The rank products of the ten straights, five-high (the wheel) first. */
  const StraightProducts: seq<int> :=
    [8610, 2310, 15015, 85085, 323323, 1062347, 2800733, 6678671, 14535931, 31367009]

  /** The suit products of the four flushes, in suit order. */
  const FlushProducts: seq<int> := [147008443, 229345007, 418195493, 714924299]

  lemma ProductStep(t: seq<int>, xs: seq<nat>, k: nat)
    requires Indices(t, xs) && k < |xs|
    ensures Product(t, xs[k..]) == t[xs[k]] * Product(t, xs[k + 1..])
  {
    assert xs[k..][1..] == xs[k + 1..];
  }

  lemma ProductOfFive(t: seq<int>, xs: seq<nat>)
    requires Indices(t, xs) && |xs| == 5
    ensures Product(t, xs) == t[xs[0]] * (t[xs[1]] * (t[xs[2]] * (t[xs[3]] * t[xs[4]])))
  {
    ProductStep(t, xs, 4);
    ProductStep(t, xs, 3);
    ProductStep(t, xs, 2);
    ProductStep(t, xs, 1);
    ProductStep(t, xs, 0);
    assert xs[5..] == [] && xs[0..] == xs;
  }

  /** Each straight constant is the product of the rank primes of its run. */
  lemma RunProduct(high: int)
    requires 3 <= high < 13
    ensures Product(RankPrimes, Run(high)) == StraightProducts[high - 3]
  {
    var r := Run(high);
    ProductOfFive(RankPrimes, r);
    if high == 3 {
      assert r == [12, 0, 1, 2, 3];
    } else {
      assert r == [high - 4, high - 3, high - 2, high - 1, high];
      if high == 4 {
      } else if high == 5 {
      } else if high == 6 {
      } else if high == 7 {
      } else if high == 8 {
      } else if high == 9 {
      } else if high == 10 {
      } else if high == 11 {
      } else {
      }
    }
  }

  /** Each flush constant is the fifth power of its suit prime. */
  lemma FiveProduct(s: Suit)
    ensures Product(SuitPrimes, Five(s)) == FlushProducts[s]
  {
    ProductOfFive(SuitPrimes, Five(s));
    if s == 0 {
    } else if s == 1 {
    } else if s == 2 {
    } else {
    }
  }

  /** Equal rank products mean equal multisets of ranks (unique factorisation). */
  lemma StraightOfProduct(h: seq<Card>, high: int)
    requires 3 <= high < 13 && RankProduct(h) == StraightProducts[high - 3]
    ensures multiset(Ranks(h)) == multiset(Run(high))
  {
    CardPrimesDistinct();
    RunProduct(high);
    UniqueFactorization(RankPrimes, Ranks(h), Run(high));
  }

  lemma ProductOfStraight(h: seq<Card>, high: int)
    requires 3 <= high < 13 && multiset(Ranks(h)) == multiset(Run(high))
    ensures RankProduct(h) == StraightProducts[high - 3]
  {
    ProductOfPermutation(RankPrimes, Ranks(h), Run(high));
    RunProduct(high);
  }

  lemma FlushSuits(h: seq<Card>, s: Suit)
    requires multiset(Suits(h)) == multiset(Five(s))
    ensures forall c :: c in h ==> c.suit == s
  {
    forall c | c in h ensures c.suit == s {
      var i :| 0 <= i < |h| && h[i] == c;
      assert Suits(h)[i] in multiset(Five(s));
    }
  }

  lemma SuitsOfFlush(h: seq<Card>)
    requires |h| == 5 && IsFlush(h)
    ensures Suits(h) == Five(h[0].suit)
  {
    forall i | 0 <= i < 5 ensures Suits(h)[i] == h[0].suit {
      assert h[i] in h && h[0] in h;
    }
  }

  /** A rank product passes the straight test exactly when the five ranks form a straight. */
  lemma StraightTestIff(h: seq<Card>)
    ensures StraightTest(RankProduct(h)) <==> IsStraight(h)
  {
    var p := RankProduct(h);
    assert StraightTest(p) <==> p in StraightProducts;
    if p in StraightProducts {
      var k :| 0 <= k < 10 && StraightProducts[k] == p;
      StraightOfProduct(h, k + 3);
    }
    if IsStraight(h) {
      var high :| 3 <= high < 13 && multiset(Ranks(h)) == multiset(Run(high));
      ProductOfStraight(h, high);
    }
  }

  lemma FlushOfProduct(h: seq<Card>, s: Suit)
    requires SuitProduct(h) == FlushProducts[s]
    ensures multiset(Suits(h)) == multiset(Five(s))
  {
    CardPrimesDistinct();
    FiveProduct(s);
    UniqueFactorization(SuitPrimes, Suits(h), Five(s));
  }

  lemma FlushTestIff(h: seq<Card>)
    requires |h| == 5
    ensures FlushTest(SuitProduct(h)) <==> IsFlush(h)
  {
    var p := SuitProduct(h);
    assert FlushTest(p) <==> p in FlushProducts;
    if p in FlushProducts {
      var s :| 0 <= s < 4 && FlushProducts[s] == p;
      FlushOfProduct(h, s);
      FlushSuits(h, s);
    }
    if IsFlush(h) {
      SuitsOfFlush(h);
      FiveProduct(h[0].suit);
    }
  }

  // ---------------------------------------------------------------------------
  // The poker rules, stated on the multiset of ranks

  /** The highest rank below `top` held exactly `n` times, or -1 when there is none. */
  function HighestWith(m: multiset<nat>, n: nat, top: nat): (r: int)
    requires top <= 13
    ensures -1 <= r < top
    ensures r >= 0 ==> m[r] == n
    ensures forall q :: r < q < top ==> m[q] != n
  {
    if top == 0 then -1
    else if m[top - 1] == n then top - 1
    else HighestWith(m, n, top - 1)
  }

  function Repeat(x: int, n: nat): seq<int> {
    if n == 0 then [] else [x] + Repeat(x, n - 1)
  }

  /** The ranks below `top`, lowest first, each as often as it is held, leaving out the ranks in `ex`. */
  function Ascending(m: multiset<nat>, ex: set<int>, top: nat): seq<int>
    requires top <= 13
  {
    if top == 0 then []
    else Ascending(m, ex, top - 1) + Repeat(top - 1, if top - 1 in ex then 0 else m[top - 1])
  }

  function Reverse(xs: seq<int>): seq<int> {
    seq(|xs|, i requires 0 <= i < |xs| => xs[|xs| - 1 - i])
  }

  /**
   * The strength of a hand by the rules of poker, as the classifier ranks them: the
   * first category that applies, in the order straight flush, four of a kind, full
   * house, flush, straight, three of a kind, two pair, pair, high card. Flushes,
   * straights and high cards list all ranks from the highest down; the side cards of
   * a set or a pair follow it lowest first.
   */
  function PokerStrength(h: seq<Card>): HandStrength {
    Categorize(IsStraight(h), IsFlush(h), multiset(Ranks(h)))
  }

  /** The category and kickers of a hand given whether it is a straight, whether a flush, and its ranks. */
  function Categorize(straight: bool, flush: bool, m: multiset<nat>): HandStrength {
    var quads := HighestWith(m, 4, 13);
    var trips := HighestWith(m, 3, 13);
    var pair := HighestWith(m, 2, 13);
    var lowPair := if pair >= 0 then HighestWith(m, 2, pair) else -1;
    var all := Reverse(Ascending(m, {}, 13));
    if straight && flush then HandStrength(StraightFlush, all)
    else if quads >= 0 then HandStrength(FourOfAKind, [quads] + Ascending(m, {quads}, 13))
    else if trips >= 0 && pair >= 0 then HandStrength(FullHouse, [trips, pair])
    else if flush then HandStrength(Flush, all)
    else if straight then HandStrength(Straight, all)
    else if trips >= 0 then HandStrength(ThreeOfAKind, [trips] + Ascending(m, {trips}, 13))
    else if lowPair >= 0 then HandStrength(TwoPair, [pair, lowPair] + Ascending(m, {pair, lowPair}, 13))
    else if pair >= 0 then HandStrength(Pair, [pair] + Ascending(m, {pair}, 13))
    else HandStrength(HighCard, all)
  }

  /** The strength depends only on which cards are in the hand, not on their order. */
  lemma PokerStrengthPermutation(h1: seq<Card>, h2: seq<Card>)
    requires multiset(h1) == multiset(h2)
    ensures PokerStrength(h1) == PokerStrength(h2)
  {
    RanksPermutation(h1, h2);
    assert forall c :: c in h1 <==> c in h2 by {
      forall c ensures c in h1 <==> c in h2 {
        assert c in h1 <==> c in multiset(h1);
        assert c in h2 <==> c in multiset(h2);
      }
    }
  }

  lemma RanksCons(c: Card, s: seq<Card>)
    ensures Ranks([c] + s) == [c.rank as nat] + Ranks(s)
  {
  }

  lemma RanksSplit(s: seq<Card>, k: nat)
    requires k < |s|
    ensures multiset(Ranks(s)) == multiset{s[k].rank as nat} + multiset(Ranks(s[..k] + s[k + 1..]))
  {
    var rest := s[..k] + s[k + 1..];
    assert Ranks(s) == Ranks(s[..k]) + [s[k].rank as nat] + Ranks(s[k + 1..]);
    assert Ranks(rest) == Ranks(s[..k]) + Ranks(s[k + 1..]);
  }

  lemma RanksFirst(s: seq<Card>)
    requires s != []
    ensures multiset(Ranks(s)) == multiset{s[0].rank as nat} + multiset(Ranks(s[1..]))
  {
    assert Ranks(s) == [s[0].rank as nat] + Ranks(s[1..]);
  }

  /** Taking the same card out of two permutations leaves permutations. */
  lemma RemoveFirst(h1: seq<Card>, h2: seq<Card>, k: nat)
    requires multiset(h1) == multiset(h2) && h1 != [] && k < |h2| && h2[k] == h1[0]
    ensures multiset(h1[1..]) == multiset(h2[..k] + h2[k + 1..])
  {
    assert h2 == h2[..k] + [h2[k]] + h2[k + 1..];
    assert h1 == [h1[0]] + h1[1..];
    assert multiset(h1[1..]) == multiset(h1) - multiset{h1[0]};
  }

  lemma {:induction false} RanksPermutation(h1: seq<Card>, h2: seq<Card>)
    requires multiset(h1) == multiset(h2)
    ensures multiset(Ranks(h1)) == multiset(Ranks(h2))
    decreases |h1|
  {
    assert |h1| == |multiset(h1)| == |h2|;
    if h1 != [] {
      assert h1[0] in multiset(h2);
      var k :| 0 <= k < |h2| && h2[k] == h1[0];
      RemoveFirst(h1, h2, k);
      RanksPermutation(h1[1..], h2[..k] + h2[k + 1..]);
      RanksFirst(h1);
      RanksSplit(h2, k);
    }
  }

  // ---------------------------------------------------------------------------
  // Ranks of sorted cards

  /** `Cards.Where(rank not in ex).Select(rank)`: the ranks in card order, leaving out those in `ex`. */
  function RanksExcept(s: seq<Card>, ex: set<int>): seq<int> {
    if s == [] then []
    else (if s[0].rank in ex then [] else [s[0].rank as int]) + RanksExcept(s[1..], ex)
  }

  lemma {:induction false} AscendingNone(m: multiset<nat>, ex: set<int>, top: nat)
    requires top <= 13 && forall q :: q in m ==> q >= top
    ensures Ascending(m, ex, top) == []
  {
    if top > 0 {
      assert m[top - 1] == 0;
      AscendingNone(m, ex, top - 1);
    }
  }

  /** Adding a rank no higher than any other puts it at the front of the ascending list. */
  lemma {:induction false} AscendingAddLowest(x: nat, m: multiset<nat>, ex: set<int>, top: nat)
    requires x < top <= 13 && forall q :: q in m ==> q >= x
    ensures Ascending(multiset{x} + m, ex, top) == (if x in ex then [] else [x]) + Ascending(m, ex, top)
  {
    var m' := multiset{x} + m;
    if top - 1 == x {
      AscendingNone(m', ex, x);
      AscendingNone(m, ex, x);
      assert m'[x] == m[x] + 1;
    } else {
      AscendingAddLowest(x, m, ex, top - 1);
      assert m'[top - 1] == m[top - 1];
    }
  }

  /** Read in order, the ranks of key-sorted cards are the ranks lowest first. */
  lemma {:induction false} AscendingOfSorted(s: seq<Card>, ex: set<int>)
    requires KeySorted(s)
    ensures RanksExcept(s, ex) == Ascending(multiset(Ranks(s)), ex, 13)
  {
    if s == [] {
      assert Ranks(s) == [];
      AscendingNone(multiset{}, ex, 13);
    } else {
      TailSorted(s);
      AscendingOfSorted(s[1..], ex);
      RanksFirst(s);
      var rest := multiset(Ranks(s[1..]));
      forall q | q in rest
        ensures q >= s[0].rank
      {
        var i :| 0 <= i < |Ranks(s[1..])| && Ranks(s[1..])[i] == q;
        KeySortedRanks(s, 0, i + 1);
      }
      AscendingAddLowest(s[0].rank, rest, ex, 13);
    }
  }

  lemma {:induction false} RanksExceptNone(s: seq<Card>)
    ensures RanksExcept(s, {}) == Ranks(s)
  {
    if s != [] {
      RanksExceptNone(s[1..]);
      assert Ranks(s) == [s[0].rank as nat] + Ranks(s[1..]);
    }
  }

  /** Leaving out one or two ranks shortens the list by as many cards as hold them. */
  lemma {:induction false} RanksExceptLength(s: seq<Card>, x: int, y: int)
    ensures |RanksExcept(s, {})| == |s|
    ensures |RanksExcept(s, {x})| == |s| - multiset(Ranks(s))[x]
    ensures x != y ==> |RanksExcept(s, {x, y})| == |s| - multiset(Ranks(s))[x] - multiset(Ranks(s))[y]
  {
    if s != [] {
      RanksExceptLength(s[1..], x, y);
      RanksFirst(s);
    }
  }

  /** Five ranks: how long the ascending rank lists are. */
  ghost predicate FiveRanks(m: multiset<nat>) {
    && |Ascending(m, {}, 13)| == 5
    && (forall x :: |Ascending(m, {x}, 13)| + m[x] == 5)
    && (forall x, y :: x != y ==> |Ascending(m, {x, y}, 13)| + m[x] + m[y] == 5)
  }

  lemma FiveCardRanks(h: seq<Card>)
    requires |h| == 5
    ensures FiveRanks(multiset(Ranks(h)))
  {
    var s := SortByKey(h);
    assert |s| == |multiset(s)| == 5;
    RanksPermutation(h, s);
    AscendingOfSorted(s, {});
    RanksExceptLength(s, 0, 0);
    forall x ensures |Ascending(multiset(Ranks(h)), {x}, 13)| + multiset(Ranks(h))[x] == 5 {
      AscendingOfSorted(s, {x});
      RanksExceptLength(s, x, x);
    }
    forall x, y | x != y
      ensures |Ascending(multiset(Ranks(h)), {x, y}, 13)| + multiset(Ranks(h))[x] + multiset(Ranks(h))[y] == 5
    {
      AscendingOfSorted(s, {x, y});
      RanksExceptLength(s, x, y);
    }
  }

  lemma CategorizeWellFormed(straight: bool, flush: bool, m: multiset<nat>)
    requires FiveRanks(m)
    ensures WellFormed(Categorize(straight, flush, m))
  {
    var quads := HighestWith(m, 4, 13);
    var trips := HighestWith(m, 3, 13);
    var pair := HighestWith(m, 2, 13);
    assert |Ascending(m, {quads}, 13)| + m[quads] == 5;
    assert |Ascending(m, {trips}, 13)| + m[trips] == 5;
    assert |Ascending(m, {pair}, 13)| + m[pair] == 5;
    if pair >= 0 {
      var lowPair := HighestWith(m, 2, pair);
      assert |Ascending(m, {pair, lowPair}, 13)| + m[pair] + m[lowPair] == 5;
    }
  }

  /** Every hand of five cards gets a kicker list of its category's length. */
  lemma PokerStrengthWellFormed(h: seq<Card>)
    requires |h| == 5
    ensures WellFormed(PokerStrength(h))
  {
    FiveCardRanks(h);
    CategorizeWellFormed(IsStraight(h), IsFlush(h), multiset(Ranks(h)));
  }

  // ---------------------------------------------------------------------------
  // Grouping by rank

  /** The distinct values of `xs`, in order of first appearance. */
  function Distinct(xs: seq<nat>): (d: seq<nat>)
    ensures forall x :: x in d <==> x in xs
    ensures forall i, j :: 0 <= i < j < |d| ==> d[i] != d[j]
  {
    if xs == [] then []
    else
      var d := Distinct(xs[..|xs| - 1]);
      var x := xs[|xs| - 1];
      assert xs == xs[..|xs| - 1] + [x];
      if x in d then d else d + [x]
  }

  /** The distinct values of a sorted sequence come out strictly increasing. */
  lemma {:induction false} DistinctSorted(xs: seq<nat>)
    requires forall i, j :: 0 <= i < j < |xs| ==> xs[i] <= xs[j]
    ensures forall i, j :: 0 <= i < j < |Distinct(xs)| ==> Distinct(xs)[i] < Distinct(xs)[j]
  {
    if xs != [] {
      var front := xs[..|xs| - 1];
      DistinctSorted(front);
      var d := Distinct(front);
      forall i | 0 <= i < |d|
        ensures d[i] <= xs[|xs| - 1]
      {
        assert d[i] in front;
      }
    }
  }

  datatype Group = Group(rank: nat, count: nat)

  /** `GroupBy(card => card.Rank)`: a group per rank, in order of first appearance, with its size. */
  function GroupByRank(s: seq<Card>): (g: seq<Group>) {
    var keys := Distinct(Ranks(s));
    seq(|keys|, i requires 0 <= i < |keys| => Group(keys[i], multiset(Ranks(s))[keys[i]]))
  }

  /** Where the groups before `i` end: one past the rank of group `i - 1`. */
  function Top(groups: seq<Group>, i: nat): nat
    requires i <= |groups|
  {
    if i == 0 then 0 else groups[i - 1].rank + 1
  }

  function GroupRanks(g: seq<Group>): seq<nat> {
    seq(|g|, i requires 0 <= i < |g| => g[i].rank)
  }

  /** Groups in increasing rank order, one for every rank held, each with its size. */
  ghost predicate RankOrdered(g: seq<Group>, m: multiset<nat>) {
    && (forall i, j :: 0 <= i < j < |g| ==> g[i].rank < g[j].rank)
    && (forall i :: 0 <= i < |g| ==> g[i].rank < 13 && g[i].count == m[g[i].rank])
    && (forall q: nat :: q in m ==> q in GroupRanks(g))
  }

  /** The groups of key-sorted cards are rank ordered. */
  lemma GroupsOfSorted(s: seq<Card>)
    requires KeySorted(s)
    ensures RankOrdered(GroupByRank(s), multiset(Ranks(s)))
  {
    var xs := Ranks(s);
    forall i, j | 0 <= i < j < |xs| ensures xs[i] <= xs[j] {
      KeySortedRanks(s, i, j);
    }
    DistinctSorted(xs);
    var keys := Distinct(xs);
    var g := GroupByRank(s);
    assert GroupRanks(g) == keys;
    forall i | 0 <= i < |keys| ensures keys[i] < 13 {
      assert keys[i] in xs;
    }
  }

  /** No rank between the end of group `i - 1` and the start of group `i` is held. */
  lemma GroupGap(g: seq<Group>, m: multiset<nat>, i: nat)
    requires RankOrdered(g, m) && i <= |g|
    ensures forall q: nat :: Top(g, i) <= q < (if i < |g| then g[i].rank else 13) ==> m[q] == 0
  {
    forall q: nat | Top(g, i) <= q < (if i < |g| then g[i].rank else 13)
      ensures m[q] == 0
    {
      forall j | 0 <= j < |g| ensures g[j].rank != q {
        if j < i {
          assert g[j].rank <= g[i - 1].rank;
        }
      }
      assert q !in GroupRanks(g);
    }
  }

  lemma {:induction false} HighestWithGap(m: multiset<nat>, n: nat, lo: nat, hi: nat)
    requires 0 < n && lo <= hi <= 13
    requires forall q: nat :: lo <= q < hi ==> m[q] == 0
    ensures HighestWith(m, n, hi) == HighestWith(m, n, lo)
  {
    if lo < hi {
      HighestWithGap(m, n, lo, hi - 1);
    }
  }

  /** One group moves the highest rank held `n` times past that group's rank. */
  lemma TallyStep(g: seq<Group>, m: multiset<nat>, i: nat, n: nat)
    requires RankOrdered(g, m) && i < |g| && 0 < n
    ensures HighestWith(m, n, g[i].rank) == HighestWith(m, n, Top(g, i))
    ensures HighestWith(m, n, Top(g, i + 1))
         == if g[i].count == n then g[i].rank else HighestWith(m, n, Top(g, i))
  {
    GroupGap(g, m, i);
    HighestWithGap(m, n, Top(g, i), g[i].rank);
  }

  /** The rank of the last group among the first `i` that holds `n` cards, or -1. */
  function LastWith(g: seq<Group>, n: nat, i: nat): int
    requires i <= |g|
  {
    if i == 0 then -1
    else if g[i - 1].count == n then g[i - 1].rank
    else LastWith(g, n, i - 1)
  }

  /** The rank of the last but one group among the first `i` that holds `n` cards, or -1. */
  function SecondLastWith(g: seq<Group>, n: nat, i: nat): int
    requires i <= |g|
  {
    if i == 0 then -1
    else if g[i - 1].count == n then LastWith(g, n, i - 1)
    else SecondLastWith(g, n, i - 1)
  }

  /**
   * Over rank-ordered groups, the last group with `n` cards holds the highest such
   * rank, and the last but one the highest such rank below it.
   */
  lemma {:induction false} LastWithHighest(g: seq<Group>, m: multiset<nat>, n: nat, i: nat)
    requires RankOrdered(g, m) && i <= |g| && 0 < n
    ensures LastWith(g, n, i) == HighestWith(m, n, Top(g, i))
    ensures SecondLastWith(g, n, i)
         == if LastWith(g, n, i) >= 0 then HighestWith(m, n, LastWith(g, n, i)) else -1
  {
    if i > 0 {
      LastWithHighest(g, m, n, i - 1);
      TallyStep(g, m, i - 1, n);
    }
  }

  /** Once every group is seen, the last group with `n` cards holds the highest such rank. */
  lemma TallyEnd(g: seq<Group>, m: multiset<nat>, n: nat)
    requires RankOrdered(g, m) && 0 < n
    ensures LastWith(g, n, |g|) == HighestWith(m, n, 13)
    ensures SecondLastWith(g, n, |g|)
         == if LastWith(g, n, |g|) >= 0 then HighestWith(m, n, LastWith(g, n, |g|)) else -1
  {
    LastWithHighest(g, m, n, |g|);
    GroupGap(g, m, |g|);
    HighestWithGap(m, n, Top(g, |g|), 13);
  }

  /**
   * The tally over the rank groups: the rank held four times, the rank held three
   * times, and the two ranks held twice, the higher one as `onePair`.
   */
  method TallyGroups(cards: seq<Card>) returns (fourOfAKind: int, threeOfAKind: int, onePair: int, twoPair: int)
    requires KeySorted(cards)
    ensures fourOfAKind == HighestWith(multiset(Ranks(cards)), 4, 13)
    ensures threeOfAKind == HighestWith(multiset(Ranks(cards)), 3, 13)
    ensures onePair == HighestWith(multiset(Ranks(cards)), 2, 13)
    ensures twoPair == if onePair >= 0 then HighestWith(multiset(Ranks(cards)), 2, onePair) else -1
  {
    ghost var m := multiset(Ranks(cards));
    var groups := GroupByRank(cards);
    assert RankOrdered(groups, m) by { GroupsOfSorted(cards); }
    fourOfAKind, threeOfAKind, onePair, twoPair := -1, -1, -1, -1;
    for i := 0 to |groups|
      invariant fourOfAKind == LastWith(groups, 4, i)
      invariant threeOfAKind == LastWith(groups, 3, i)
      invariant onePair == LastWith(groups, 2, i)
      invariant twoPair == SecondLastWith(groups, 2, i)
    {
      var rank := groups[i].rank;
      var count := groups[i].count;
      if count == 4 {
        fourOfAKind := rank;
      } else if count == 3 {
        threeOfAKind := rank;
      } else if count == 2 {
        twoPair := onePair;
        onePair := rank;
      }
    }
    TallyEnd(groups, m, 4);
    TallyEnd(groups, m, 3);
    TallyEnd(groups, m, 2);
  }

  /**
   * What the classifier reads off the sorted hand: the prime tests decide straight and
   * flush, and the ranks in card order are the ranks lowest first.
   */
  lemma SortedStrength(h: seq<Card>, s: seq<Card>)
    requires |h| == 5 && s == SortByKey(h)
    ensures KeySorted(s)
    ensures PokerStrength(h)
         == Categorize(StraightTest(RankProduct(s)), FlushTest(SuitProduct(s)), multiset(Ranks(s)))
    ensures Reverse(Ranks(s)) == Reverse(Ascending(multiset(Ranks(s)), {}, 13))
  {
    assert |s| == 5 by { assert |multiset(s)| == |multiset(h)|; }
    StraightTestIff(s);
    FlushTestIff(s);
    PokerStrengthPermutation(h, s);
    RanksExceptNone(s);
    AscendingOfSorted(s, {});
  }

  // ---------------------------------------------------------------------------
  // The hand

  /** A hand: a list of cards that `GetStrength` puts in key order. */
  class Hand {
    var cards: seq<Card>

    /** An empty hand. */
    constructor ()
      ensures cards == []
    {
      cards := [];
    }

    /**
     * The hand of the cards in a bitmap: for each rank and, within it, each suit, the
     * card is added when its bit is set. Bits 52 to 63 are not looked at.
     */
    constructor FromBitmap(bitmap: Word)
      ensures cards == CardsOf(bitmap)
    {
      cards := [];
      new;
      for r := 0 to 13
        invariant cards == CardsBelow(bitmap, r * 4)
      {
        for s := 0 to 4
          invariant cards == CardsBelow(bitmap, r * 4 + s)
        {
          var shift := r * 4 + s;
          TestBit(bitmap, shift);
          CardsBelowNext(bitmap, Card(r, s));
          if And(Pow2(shift), bitmap) != 0 {
            var card := Parse([RankChars[r], SuitLetters[s]]);
            ParseLetters(Card(r, s));
            cards := cards + [card.value];
          }
        }
      }
    }

    /**
     * The strength of a five-card hand, or `None` for any other number of cards.
     * A five-card hand is left sorted by key.
     */
    method GetStrength() returns (strength: Option<HandStrength>)
      modifies this
      ensures |old(cards)| != 5 ==> strength == None && cards == old(cards)
      ensures |old(cards)| == 5 ==> cards == SortByKey(old(cards))
      ensures |old(cards)| == 5 ==> strength == Some(PokerStrength(old(cards)))
    {
      if |cards| != 5 {
        return None;
      }
      ghost var h := cards;
      cards := SortByKey(cards);
      var rankProduct := RankProduct(cards);
      var suitProduct := SuitProduct(cards);
      var straight := StraightTest(rankProduct);
      var flush := FlushTest(suitProduct);
      var fourOfAKind, threeOfAKind, onePair, twoPair := TallyGroups(cards);
      ghost var m := multiset(Ranks(cards));
      SortedStrength(h, cards);
      var ranking: HandRanking;
      var kickers: seq<int>;
      if straight && flush {
        ranking, kickers := StraightFlush, Reverse(Ranks(cards));
      } else if fourOfAKind >= 0 {
        AscendingOfSorted(cards, {fourOfAKind});
        ranking, kickers := FourOfAKind, [fourOfAKind] + RanksExcept(cards, {fourOfAKind});
      } else if threeOfAKind >= 0 && onePair >= 0 {
        ranking, kickers := FullHouse, [threeOfAKind, onePair];
      } else if flush {
        ranking, kickers := Flush, Reverse(Ranks(cards));
      } else if straight {
        ranking, kickers := Straight, Reverse(Ranks(cards));
      } else if threeOfAKind >= 0 {
        AscendingOfSorted(cards, {threeOfAKind});
        ranking, kickers := ThreeOfAKind, [threeOfAKind] + RanksExcept(cards, {threeOfAKind});
      } else if twoPair >= 0 {
        var high := if twoPair > onePair then twoPair else onePair;
        var low := if twoPair < onePair then twoPair else onePair;
        AscendingOfSorted(cards, {twoPair, onePair});
        assert {twoPair, onePair} == {onePair, twoPair};
        ranking, kickers := TwoPair, [high, low] + RanksExcept(cards, {twoPair, onePair});
      } else if onePair >= 0 {
        AscendingOfSorted(cards, {onePair});
        ranking, kickers := Pair, [onePair] + RanksExcept(cards, {onePair});
      } else {
        ranking, kickers := HighCard, Reverse(Ranks(cards));
      }
      strength := Some(HandStrength(ranking, kickers));
    }
  }
}
