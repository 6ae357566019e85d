# SnapCall hand evaluator, modelled in Dafny

SnapCall ranks poker hands of five, six or seven cards. It builds one large hash map from
card bitmaps to strength indices and then answers each query with a single lookup. Each of
the 52 cards is one bit of a 64-bit word: bit `rank * 4 + suit`.

The model covers the ranking core of the C# source:

- **Cards** (`Card.cs`): the prime numbers attached to ranks and suits, equality, the
  prime-product hash code, parsing from two letters, and display.
- **Hand strengths** (`HandStrength.cs`): the category and the kicker list, with
  `CompareTo` proved to be a strict total order on well-formed strengths.
- **Bitmaps** (`Utilities.cs`): `GetBitmapFrom` and `GetCardsFromBitmap`, proved to be
  inverse to each other up to the 12 bits above the deck.
- **Sorted strength lists** (`Utilities.cs`): `BinarySearch`, with its `uint` arithmetic
  wrap-around modelled exactly, and `BinaryInsert`.
- **The classifier** (`Hand.cs`): the bitmap constructor and `GetStrength`. The prime-product
  tests for straights and flushes are proved equal to the poker definitions. The group
  tally is proved to find the highest quads, trips, pair and second pair. The result is
  proved equal to `PokerStrength`, a rule-by-rule statement of the poker categories.
- **The hash map** (`HashMap.cs`): sharded open addressing with keys and values side by
  side. `Get` and `Set` are proved to compute `Lookup` and `Insert` on an abstract
  sequence of shards. A read after a write is proved to return the written value.
- **The evaluator** (`Evaluator.cs`): the argument checks, the table size, the five-card
  pass, one step of the six- and seven-card passes, and `Evaluate`. The five-card pass is
  proved to map every hand to the index of its strength among the distinct strengths. It
  follows that index order is strength order.
- **The deck** (`Deck.cs`): the constructor, `CardsRemaining`, `Shuffle` (proved a
  permutation) and `Draw`. `Draw` is proved to OR the next `count` cards that are not
  taken out, and to throw exactly when too few remain.

How C# features are rendered:

- `ulong` is `Words.Word`, a natural number below 2^64. OR, AND and shifts are defined
  bit by bit.
- `uint` and `int` wrap-around is written out where the source relies on it.
- A call that throws is an explicit outcome: `Faulted`, `OutOfRange`, `None` or an `Err`.
- A probe loop that never ends is `Unending`.

The classifier follows the code where the code and the documentation of the project
disagree. For three of a kind, four of a kind, two pair and pair, the side cards follow the
main ranks in ascending order. This is what `Where` over the prime-sorted cards gives. The
project's description lists them highest first.

## Model

| member | source | states |
|---|---|---|
| Cards.RankPrimesArePrime | Card.cs:19 | every number of the rank table is prime |
| Cards.SuitPrimesArePrime | Card.cs:20 | every number of the suit table is prime |
| Cards.CardPrimesDistinct | Card.cs:18-20 | the 17 rank and suit primes are pairwise distinct, within and across the two tables |
| Cards.PrimeRankMonotone | Card.cs:23-24 | `PrimeRank` orders cards as rank does, `PrimeSuit` as suit does, and every rank prime lies below every suit prime |
| Cards.Equals | Card.cs:26-29 | two cards are equal exactly when rank and suit agree |
| Cards.HashCodeInjective | Card.cs:31-35 | equal hash codes imply the same card, i.e. the uniqueness the comment promises |
| Cards.PairProduct | Card.cs:34 | the product of a prime table at two indices is the two primes multiplied, which is how the hash code is read as a factorization |
| Cards.Position | Utilities.cs:87 | the bit index `rank * 4 + suit` of a card is below 52 |
| Cards.PositionRoundTrip | Utilities.cs:72-76 | decoding a card's bit index gives back the card |
| Cards.CardAtRoundTrip | Utilities.cs:72-76 | encoding the card decoded from a bit index below 52 gives back the index |
| Cards.PositionInjective | Utilities.cs:87 | two cards share a bit index exactly when they are the same card |
| Cards.SortKeyOrder | Hand.cs:69-70 | the sort key `PrimeRank * 100 + PrimeSuit` orders cards by rank and then suit, and is equal only for the same card |
| Cards.ToUpperChar | Card.cs:40 | the model's ASCII upper-casing of one character: no `a`..`z` is left, letters stay letters, and only `a`..`z` change |
| Cards.ToUpper | Card.cs:40 | upper-casing keeps the length, leaves no `a`..`z`, and keeps every other character in place |
| Cards.ToUpperIdempotent | Card.cs:40 | upper-casing twice gives what upper-casing once gives |
| Cards.RankLetter | Card.cs:42-58 | each rank letter, in either case, parses to its rank |
| Cards.SuitLetter | Card.cs:59-66 | each suit letter, in either case, parses to its suit |
| Cards.Parse | Card.cs:38-67 | length other than 2 gives `WrongLength`, then a bad rank letter gives `BadRank`, then a bad suit letter gives `BadSuit`; a success reads the two upper-cased letters |
| Cards.ParseLetters | Card.cs:38-67 | parsing a card's two letters gives back the card |
| Cards.ParseLowerLetters | Card.cs:40 | the lower-case letters of a card parse to the same card |
| Cards.ParseIgnoresCase | Card.cs:40 | parsing an upper-cased string gives what parsing the string gives |
| Cards.DisplayString | Card.cs:69-75 | the display string has two characters, the first being the rank letter |
| Cards.DisplayNotParsable | Card.cs:59-75 | the display string's rank letter parses, but its suit glyph does not, so `ToString` output is rejected by the constructor |
| Strengths.Ordinal | HandStrength.cs:18-19 | categories are compared by their enum value, high card lowest and straight flush highest |
| Strengths.OrdinalInjective | HandStrength.cs:18-19 | two categories have the same enum value only when they are the same |
| Strengths.CompareKickers | HandStrength.cs:21-27 | the kicker comparison returns -1, 0 or 1 |
| Strengths.CompareTo | HandStrength.cs:16-28 | a higher category wins outright with 1 and a lower one loses with -1 |
| Strengths.FirstDifferenceDecides | HandStrength.cs:21-25 | the first kicker position where the lists differ decides the comparison |
| Strengths.CompareKickersZero | HandStrength.cs:21-27 | the kicker comparison is 0 exactly when the shorter list is a prefix of the other |
| Strengths.CompareKickersAntisymmetric | HandStrength.cs:21-27 | on lists of equal length, swapping the arguments negates the result |
| Strengths.CompareKickersTransitive | HandStrength.cs:21-27 | on lists of equal length, "less" is transitive |
| Strengths.CompareToZero | HandStrength.cs:16-28 | on comparable strengths, `CompareTo` is 0 exactly when the strengths are equal |
| Strengths.CompareToAntisymmetric | HandStrength.cs:16-28 | on comparable strengths, swapping the arguments negates the result |
| Strengths.CompareToTransitive | HandStrength.cs:16-28 | on well-formed strengths, "less" is transitive |
| Strengths.LessTotal | HandStrength.cs:16-28 | any two well-formed strengths are comparable, and exactly one of equal, less, or greater holds |
| SortedStrengths.LessIrreflexive | HandStrength.cs:16-28 | no well-formed strength is less than itself |
| SortedStrengths.GreaterIsLess | HandStrength.cs:16-28 | a positive `CompareTo` means the second strength is less than the first |
| Words.ShiftBit | Utilities.cs:87 | `1ul << p` has bit `p mod 64` set and every other bit clear, since C# shifts by the low six bits of the count |
| Words.HasOr | Utilities.cs:87 | a bit is set in `a \| b` exactly when it is set in `a` or in `b` |
| Words.HasAnd | Hand.cs:35 | a bit is set in `a & b` exactly when it is set in both |
| Words.HasPow2 | Hand.cs:35 | `1 << q` has bit `q` and no other bit |
| Words.TestBit | Hand.cs:35 | `(1ul << p) & w` is non-zero exactly when bit `p` of `w` is set |
| Words.OrWord | Utilities.cs:87 | the OR of two 64-bit words is a 64-bit word |
| Factorization.UniqueFactorization | Card.cs:31-35 | two products over a table of distinct primes are equal only if they multiply the same primes, counting repeats |
| Factorization.ProductOfPermutation | Hand.cs:74-75 | a product of primes does not depend on the order of its factors |
| Factorization.Euclid | Card.cs:31-35 | a prime that divides a product divides one of its factors |
| CardBitmaps.CardBitHas | Utilities.cs:87 | a card's bit is the bit of that card and of no other card |
| CardBitmaps.BitmapOfBelow | Utilities.cs:82-91 | a bitmap of cards uses only the low 52 bits |
| CardBitmaps.GetBitmapFrom | Utilities.cs:82-91 | the loop computes the OR of the cards' bits |
| CardBitmaps.BitmapOfHas | Utilities.cs:82-91 | a card's bit is set in the bitmap exactly when the card is in the list |
| CardBitmaps.BitmapOfBit | Utilities.cs:82-91 | a bit of the bitmap is set exactly when it is below 52 and its card is in the list |
| CardBitmaps.BitmapOfSameCards | Utilities.cs:82-91 | lists holding the same cards have the same bitmap, whatever the order and repeats |
| CardBitmaps.BitmapOfPermutation | Utilities.cs:82-91 | a permuted list has the same bitmap |
| CardBitmaps.RepeatedCard | Utilities.cs:82-91 | adding a card already in the list leaves the bitmap unchanged |
| CardBitmaps.GetCardsFromBitmap | Utilities.cs:61-80 | the nested loop lists the cards of the set bits, rank by rank and suit by suit |
| CardBitmaps.CardsBelowHas | Utilities.cs:61-80 | after the first `p` bit positions, a card is listed exactly when its position is below `p` and its bit is set |
| CardBitmaps.CardsBelowIncreasing | Utilities.cs:61-80 | the cards are listed in increasing bit position |
| CardBitmaps.IgnoresHighBits | Utilities.cs:61-80 | bits 52 to 63 do not change the cards listed |
| CardBitmaps.CardsOfBitmap | Utilities.cs:61-80 | a card is listed exactly when its bit is set, in increasing position, and the high bits are ignored |
| CardBitmaps.RoundTrip | Utilities.cs:61-91 | listing the cards of a bitmap and OR-ing them back gives the bitmap with its high bits cleared |
| CardBitmaps.CardsOfBitmapOf | Utilities.cs:61-91 | listing the cards of a list's bitmap gives the same cards, in increasing position |
| SortedStrengths.BelowLess | Utilities.cs:28 | in a sorted list, an element below the item has every earlier element below it too |
| SortedStrengths.AboveGreater | Utilities.cs:30 | in a sorted list, an element above the item has every later element above it too |
| SortedStrengths.Absent | Utilities.cs:20-23 | an item between a run of smaller and a run of larger elements is not in the list |
| SortedStrengths.AbsentAbove | Utilities.cs:20-23 | the same, when at least one element lies below the item |
| SortedStrengths.AbsentBelow | Utilities.cs:20-23 | an item below every element is not in the list |
| SortedStrengths.RaiseLow | Utilities.cs:28 | raising `low` past a smaller middle element keeps the search window and shrinks it |
| SortedStrengths.LowerHigh | Utilities.cs:30 | lowering `high` below a larger middle element keeps the window (or wraps `high` to 2^32 - 1) and shrinks it |
| SortedStrengths.BinarySearch | Utilities.cs:11-34 | it returns an index of the item exactly when the item is in the list. Otherwise it returns null when some element is smaller, and fails in `ElementAt` after `high` wraps when none is |
| SortedStrengths.InsertAt | Utilities.cs:46 | inserting at `i` puts the item at `i` and adds exactly it to the multiset of elements |
| SortedStrengths.InsertAtMembers | Utilities.cs:46 | after an insertion the members are the old members and the item |
| SortedStrengths.InsertSorted | Utilities.cs:44-48 | inserting between the smaller and the larger elements keeps the list sorted |
| SortedStrengths.StrengthList.constructor | Evaluator.cs:137 | the list starts empty |
| SortedStrengths.BinaryInsert | Utilities.cs:36-59 | an item already present returns null and changes nothing. Otherwise it is inserted at the returned index, and the list stays sorted |
| Hands.InsertByKey | Hand.cs:70 | inserting into a key-sorted list keeps it sorted and adds exactly that card |
| Hands.SortByKey | Hand.cs:70 | `OrderBy` on the prime key returns a key-sorted permutation of the cards |
| Hands.KeySortedUnique | Hand.cs:70 | two key-sorted permutations of the same cards are equal |
| Hands.SortByKeyUnique | Hand.cs:70 | any key-sorted permutation of a hand is the result of sorting it |
| Hands.KeySortedRanks | Hand.cs:69-70 | in the sorted hand, ranks are non-decreasing |
| Hands.ProductOfFive | Hand.cs:74-75 | the `Aggregate` product of five primes multiplies them all |
| Hands.RunProduct | Hand.cs:77-87 | each straight constant is the product of the rank primes of one run of five ranks, with the ace low in the first |
| Hands.FiveProduct | Hand.cs:89-93 | each flush constant is the fifth power of one suit prime |
| Hands.StraightOfProduct | Hand.cs:77-87 | a hand whose rank product is a straight constant holds exactly that run of ranks |
| Hands.ProductOfStraight | Hand.cs:77-87 | a hand holding a run of ranks has that run's straight constant as its rank product |
| Hands.FlushSuits | Hand.cs:89-93 | a hand whose suits are five of one suit is all of that suit |
| Hands.SuitsOfFlush | Hand.cs:89-93 | a five-card hand of one suit has five equal suits |
| Hands.FlushOfProduct | Hand.cs:89-93 | a suit product equal to a flush constant means five of that suit |
| Hands.StraightTestIff | Hand.cs:74-87 | the rank-product test holds exactly when the hand is five consecutive ranks, ace low or high |
| Hands.FlushTestIff | Hand.cs:75-93 | for five cards, the suit-product test holds exactly when all cards share a suit |
| Hands.HighestWith | Hand.cs:103-114 | the highest rank held exactly `n` times, or -1 when there is none |
| Hands.PokerStrengthPermutation | Hand.cs:62-181 | the strength depends only on which cards are in the hand, not on their order |
| Hands.RanksPermutation | Hand.cs:96 | permuted hands have the same multiset of ranks |
| Hands.AscendingOfSorted | Hand.cs:126-128 | on the sorted hand, the ranks other than the excluded ones come out in ascending order |
| Hands.RanksExceptNone | Hand.cs:120 | with nothing excluded, the ranks of the sorted hand are all its ranks in order |
| Hands.RanksExceptLength | Hand.cs:126-128 | leaving out one or two ranks leaves as many kickers as there are other cards |
| Hands.FiveCardRanks | Hand.cs:64 | a five-card hand has five ranks, each below 13 |
| Hands.CategorizeWellFormed | Hand.cs:116-181 | every category comes with a kicker list of the length that category uses |
| Hands.PokerStrengthWellFormed | Hand.cs:62-183 | every five-card hand gets a well-formed strength |
| Hands.Distinct | Hand.cs:96 | `GroupBy` keys: the same ranks, each once |
| Hands.DistinctSorted | Hand.cs:96 | on a sorted hand the group keys come out in increasing order |
| Hands.GroupsOfSorted | Hand.cs:96 | the groups of a sorted hand are its ranks in increasing order, each with its count |
| Hands.GroupGap | Hand.cs:96 | no card has a rank lying strictly between two consecutive groups |
| Hands.HighestWithGap | Hand.cs:103-114 | ranks with no cards do not change the highest rank held `n` times |
| Hands.TallyStep | Hand.cs:103-114 | one group of the tally updates the highest rank held `n` times |
| Hands.LastWithHighest | Hand.cs:103-114 | the last group of size `n` so far is the highest such rank, and the one before it is the next highest |
| Hands.TallyEnd | Hand.cs:103-114 | after all groups, the tally holds the highest and second highest ranks of each size |
| Hands.TallyGroups | Hand.cs:96-114 | the loop leaves the highest quads, trips and pair and the second-highest pair, each -1 when absent |
| Hands.SortedStrength | Hand.cs:70-181 | classifying the sorted hand with the product tests and the tally gives `PokerStrength` |
| Hands.Hand.constructor | Hand.cs:16-19 | a new hand holds no cards |
| Hands.Hand.FromBitmap | Hand.cs:21-42 | the hand holds the cards of the bitmap's set bits, in bit order |
| Hands.Hand.GetStrength | Hand.cs:62-190 | for five cards, the cards end up sorted and the result is their poker strength. For any other count, the result is null and the cards are unchanged |
| HashMaps.HomeIndex | HashMap.cs:83 | the home word `(key * 2) % TotalSize` lies inside the table and is even when the table size is |
| HashMaps.Probe | HashMap.cs:85-90 | the `t`-th probe from a slot stays inside the shard |
| HashMaps.ProbeMod | HashMap.cs:88-89 | stepping the word index by 2 and reducing mod `Size` visits slots `start`, `start + 1`, and so on, wrapping around |
| HashMaps.ProbeBelow | HashMap.cs:85-90 | the `t`-th probe is `start + t`, wrapped once |
| HashMaps.ProbePeriodic | HashMap.cs:85-90 | the probe sequence repeats with the number of slots as its period, so a loop that has not succeeded in one round never will |
| HashMaps.ProbeDistinct | HashMap.cs:96-106 | the probes of one round visit distinct slots |
| HashMaps.FirstProbe | HashMap.cs:85-90 | the first probe whose key matches, with no earlier match, or none in the round |
| HashMaps.FirstProbeUnique | HashMap.cs:85-90 | a matching probe with no earlier match is the first probe found |
| HashMaps.NeverFound | HashMap.cs:85-90 | a key not met in one round is not met at any later probe |
| HashMaps.PlaceOther | HashMap.cs:98-102 | filling a free slot does not change the lookup of any other non-zero key |
| HashMaps.PlaceKeepsEarlier | HashMap.cs:98-102 | filling the `t`-th probe leaves every earlier probe's slot unchanged |
| HashMaps.PlaceNew | HashMap.cs:96-106 | a key that was absent reads back the value just written |
| HashMaps.PlaceDuplicate | HashMap.cs:31-37 | writing a key that is already present leaves its lookup at the older value, since there is no duplicate check |
| HashMaps.TableWords | HashMap.cs:65 | `TotalSize = Size * Count` is positive and even |
| HashMaps.ShardBelow | HashMap.cs:84 | `index / Size` is a valid shard number |
| HashMaps.ShardOf | HashMap.cs:83-84 | a key's shard is below `Count` |
| HashMaps.Start | HashMap.cs:83-88 | a key's first slot lies inside its shard |
| HashMaps.Insert | HashMap.cs:92-107 | a write that completes keeps the table's shape |
| HashMaps.LookupAfterInsert | HashMap.cs:77-107 | reading a key just written for the first time returns its value |
| HashMaps.LookupOtherKey | HashMap.cs:77-107 | a write does not change the lookup of any other non-zero key |
| HashMaps.LookupDuplicate | HashMap.cs:31-37 | a second write of a present key is invisible to reads |
| HashMaps.EmptyLookup | HashMap.cs:66-72 | a new table has the right shape, and no non-zero key is found in it |
| HashMaps.CountStep | HashMap.cs:60 | doubling `Count` while the shard is too big keeps it a power of two |
| HashMaps.CountFor | HashMap.cs:59-60 | the loop stops at the smallest power of two whose shards are at most 10000000 words |
| HashMaps.ShardWords | HashMap.cs:62 | the corrected shard size: even, at most 10000000, and within 2 below `TotalSize / Count` |
| HashMaps.ShardCapacity | HashMap.cs:62-65 | the shards hold at least the requested number of words, less 2 per shard |
| HashMaps.OddSourceShardSize | HashMap.cs:57-62 | for the default request the source's `Size` is 6122735, which is odd |
| HashMaps.ValueWordOutsideShard | HashMap.cs:83-88 | with that odd `Size`, key 3061367 has its home at the last word of shard 0, so its value word is past the end |
| HashMaps.WriteSlot | HashMap.cs:100-101 | writing the two words of slot `j` changes slot `j` and nothing else |
| HashMaps.ProbeWord | HashMap.cs:88-89 | the word `index % Size` of the `t`-th probe and the one after it are the `t`-th probed slot |
| HashMaps.ZeroSlots | HashMap.cs:69 | a zeroed array is all free slots |
| HashMaps.FindKey | HashMap.cs:85-90 | the probe loop of a read returns what `ShardLookup` finds |
| HashMaps.PlaceKey | HashMap.cs:96-106 | the probe loop of a write fills the first free probed slot and reports how many probes it skipped |
| HashMaps.ShardCount | HashMap.cs:59-60 | the doubling loop computes `CountFor` |
| HashMaps.NewShards | HashMap.cs:63-71 | `Count` fresh, zeroed, distinct arrays of `Size` words |
| HashMaps.HashMap.constructor | HashMap.cs:54-73 | a new map has `Count` from the doubling loop over `size * 2` (wrapped mod 2^32), and `Size` equal to `TotalSize / Count` rounded down to an even number of words (`ShardWords`, the corrected half of the HashMap.cs:62 finding). It is empty and has no misses |
| HashMaps.HashMap.Locate | HashMap.cs:83-84 | the home word and shard of a key |
| HashMaps.HashMap.Get | HashMap.cs:79-91 | a read returns the value `Lookup` finds, never returns when there is none, and faults on an empty table |
| HashMaps.HashMap.Set | HashMap.cs:92-107 | a write stores `Insert`'s result, counts the occupied slots passed as misses, never returns on a full shard, and faults on an empty table |
| HashMaps.InsertShard | HashMap.cs:92-107 | the array written by the probe loop is `Insert`'s new shard |
| HashMaps.HomeOf | HashMap.cs:83-88 | the word index of a key's home splits into its shard and its first slot |
| Evaluators.HandCounts | Evaluator.cs:48 | 2598960, 20358520 and 133784560 are the numbers of 5-, 6- and 7-card hands from 52 cards |
| Evaluators.RequiredCapacity | Evaluator.cs:30-48 | six without five and seven without six are rejected in that order. Otherwise the size is the sum of the enabled counts, below 2^31 and zero exactly when five-card is off |
| Evaluators.CapacityCountsHands | Evaluator.cs:48 | the table size is the number of hands of each enabled size |
| Evaluators.PositionsBitmapHas | Evaluator.cs:121 | the `Aggregate` of `1ul << el` over positions below 64 has exactly those bits set |
| Evaluators.CardPositionsBitmap | Evaluator.cs:111-121 | positions from `Range(0, 52)` give the bitmap of the cards at those positions |
| Evaluators.SixCardSubsetIsNoHand | Evaluator.cs:165-175 | positions from `Range(1, 52)` include 52. The subset bitmap of 48..52 is the bitmap of no list of cards |
| Evaluators.SixCardLookupNeverReturns | Evaluator.cs:165-176 | in a table holding only card bitmaps, the lookup of that subset finds nothing, so the read never returns |
| Evaluators.Classify | Evaluator.cs:131-132 | building the hand of a bitmap and asking its strength gives the poker strength for five cards and null otherwise |
| Evaluators.HandStrengths | Evaluator.cs:126-133 | the strength of each five-card bitmap, in order |
| Evaluators.DistinctStrengths | Evaluator.cs:137-143 | `BinaryInsert` of every strength yields a sorted list holding each strength once and nothing else |
| Evaluators.IndexOf | Evaluator.cs:154 | the first index of a strength in the list |
| Evaluators.SortedIndex | Evaluator.cs:154 | in a strictly sorted list, an element's first index is its position |
| Evaluators.RanksOrderHands | Evaluator.cs:146-160 | the stored index of one hand is below another's exactly when its strength is less, and equal exactly when the strengths are equal |
| Evaluators.Assign | Evaluator.cs:158 | one map write, as `HashMap.Set` specifies it |
| Evaluators.FiveCardStep | Evaluator.cs:149-159 | a hand whose strength is not listed throws and changes nothing. Otherwise its bitmap is written with the index of its strength |
| Evaluators.HandBitmapNonzero | HashMap.cs:34 | a bitmap holding a card is a non-zero key |
| Evaluators.FillStep | Evaluator.cs:149-160 | writing one more hand keeps every earlier hand's lookup at its strength index |
| Evaluators.FiveCardPass | Evaluator.cs:146-160 | when the loop completes, every hand reads back its strength index and no other key is present. On a map with room it throws only if some hand's strength is not listed. On a map of no words (a load factor of 0) it throws at the first hand, as `% TotalSize` divides by zero |
| Evaluators.MaxOf | Evaluator.cs:179 | `Max()` is one of the values and no value exceeds it |
| Evaluators.LookupAllFound | Evaluator.cs:173-177 | when every subset is found, the collected values are the values found |
| Evaluators.SubsetValues | Evaluator.cs:172-177 | the subset loop returns the value of every subset, never returns when one is missing, and faults on an empty table |
| Evaluators.SubsetMaxStep | Evaluator.cs:168-179 | one step of the six- or seven-card pass writes the card set's bitmap with the largest subset value |
| Evaluators.BestSubset | Evaluator.cs:179 | the maximum subset index belongs to a subset whose strength no other subset beats |
| Evaluators.Int32Of | Evaluator.cs:86 | `(int)` of a `ulong` keeps the value mod 2^32 within the `int` range, and keeps small values unchanged |
| Evaluators.Evaluator.constructor | Evaluator.cs:48-49 | the evaluator starts with an empty map |
| Evaluators.Evaluator.Evaluate | Evaluator.cs:80-87 | a lookup returns the stored value cast to `int`, never returns for an absent key, and faults on an empty table |
| Evaluators.EvaluateFiveCard | Evaluator.cs:80-87 | after the five-card pass, evaluating any hand returns its strength index |
| Evaluators.NewEvaluator | Evaluator.cs:18-49 | the argument checks fail exactly as `RequiredCapacity` does; otherwise a fresh evaluator with an empty map is returned |
| Decks.NewCards | Deck.cs:26 | a new deck has 52 entries |
| Decks.NewCardsDistinct | Deck.cs:25-26 | the entries are 52 distinct single bits, entry `i` being bit `i` |
| Decks.Swap | Deck.cs:41-43 | the swap keeps the length |
| Decks.SwapPermutes | Deck.cs:41-43 | the swap is a permutation |
| Decks.ShuffledPermutes | Deck.cs:32-45 | the shuffle loop permutes the deck |
| Decks.NextFree | Deck.cs:57 | the skip loop stops at or after the position and at most at the end |
| Decks.NextFreeSkips | Deck.cs:57 | every entry skipped is taken out, and the entry stopped at, if any, is in play |
| Decks.Draws | Deck.cs:51-64 | the positions dealt lie inside the deck |
| Decks.DrawsStep | Deck.cs:54-62 | one more card is the next card in play after the position, or the draw goes out of range |
| Decks.HandStep | Deck.cs:60 | one more position ORs one more card into the hand |
| Decks.OutOfRangeStays | Deck.cs:57 | once out of range a draw stays there |
| Decks.FinishDraws | Deck.cs:53-63 | the rest of the loop from any point of a draw ends as the whole draw does |
| Decks.FinishOutOfRange | Deck.cs:57 | a draw that finds no card in play ends out of range |
| Decks.FinishDealt | Deck.cs:60-61 | a card in play is ORed in by both accounts of the draw |
| Decks.DrawsFinish | Deck.cs:51-64 | the loop's result is the OR of the cards `Draws` deals, or a throw |
| Decks.DrawsDeal | Deck.cs:54-62 | a completed draw deals `count` distinct positions in increasing order. Each is a card in play, and every position passed over is taken out |
| Decks.DrawsCount | Deck.cs:54-62 | the cards dealt and the cards in play left after the position add up to the cards in play before it |
| Decks.SkipCount | Deck.cs:57 | skipping taken-out cards does not change the count of cards in play |
| Decks.DrawsOutOfRange | Deck.cs:54-62 | a draw throws exactly when fewer than `count` cards in play remain |
| Decks.OrDisjoint | Deck.cs:60 | OR-ing words that avoid the taken-out bits gives a word that avoids them |
| Decks.HandAvoidsRemoved | Deck.cs:56-60 | a drawn hand shares no bit with the taken-out cards |
| Decks.Deck.constructor | Deck.cs:19-30 | card `i` is `1ul << i`, the taken-out cards are stored, and the position is 0 |
| Decks.Deck.CardsRemaining | Deck.cs:16-17 | `52 - position`, between 0 and 52, taken-out cards included |
| Decks.Deck.Shuffle | Deck.cs:32-48 | the cards become the Fisher-Yates shuffle of the old cards under the given picks, which is a permutation, and the position returns to 0 |
| Decks.Deck.SkipRemoved | Deck.cs:57 | the inner loop moves the position to the next card in play, or to the end |
| Decks.Deck.DealNext | Deck.cs:56-61 | one pass deals the next card in play and moves past it, or ends at the end of the array |
| Decks.Deck.Draw | Deck.cs:51-64 | the hand is the OR of the next `count` cards in play and the position moves past them. Reaching the end of the array throws, leaving the position there |

## Left out

- File loading and saving, protobuf serialization (`Serialize`, `Deserialize`, `LoadFromFile`, `SaveToFile`) and `HashMapEntry.ToBytes`: I/O and a foreign library.
- Console output, the debug counters and the set-up timer: output only.
- The Monte Carlo map (`GenerateMonteCarloMap`) and the `runCustom` branch: random simulation that is not part of ranking.
- `Combinatorics.Collections.Combinations`: a foreign library. The five-card pass takes the list of hand bitmaps as input, and one six- or seven-card step takes its subsets as input.
- `System.Random`: `Shuffle` takes the sequence of picks, each an arbitrary `k` in `0..n`.
- `HandFactory`, the interfaces `ICard`, `IHand` and `IHandFactory`, `Hand.PrintColoredCards`, `Hand.ToString` and the `SuitColors` table: not part of the ranking core.
- Evaluators.NewEvaluator: the floating-point product `minHashMapSize * loadFactor` and its cast are not modelled. The requested size is a parameter, and the constructor stops before the passes.
- Evaluators.SubsetMaxStep: the six- and seven-card passes are modelled one card set at a time, not as the loop over all combinations.
- Evaluators.HandStrengths: requires every bitmap to hold five cards. For other bitmaps the source would store a null strength, and the next loop would fail on it.
- Evaluators.DistinctStrengths: the `Dictionary` is modelled as the list of strengths in the order the bitmaps were enumerated. The source's enumeration order of a `Dictionary` is not specified; the result does not depend on it.
- Strengths.CompareTo: requires the second kicker list to be at least as long as the first when the categories tie. The source throws `ArgumentOutOfRangeException` only when the other list is a proper prefix of this one; when the lists differ within the shorter length it returns at the first difference, which the model leaves out. Every pair of well-formed strengths meets the requirement, since a category fixes the kicker count.
- Cards.Parse: upper-casing is ASCII-only, while C#'s `ToUpper()` maps other letters by culture-aware Unicode rules (`é` becomes `É`). Length is counted in Unicode scalar values, while C# counts UTF-16 code units, so a character outside the Basic Multilingual Plane counts once here and twice there. So a non-ASCII character that C# upper-cases to a card letter (`ſ`, the long s, becomes `S`) is accepted there and rejected here, and strings holding such characters can get a different error.
- SortedStrengths.BinarySearch: requires fewer than 2^31 elements. `(uint)list.Count` and the `int` cast in `ElementAt` are exact only then.
- SortedStrengths.BinaryInsert: requires fewer than 2^30 elements, so that the `int` sum `low + high` cannot overflow. Evaluators.DistinctStrengths inherits the bound.
- HashMaps.HashMap.Set: `Misses` is an unbounded integer. The source's `int` wraps past 2^31 - 1.
- HashMaps.HashMap.Get: probing that never finds the key is reported as `Unending` after one round of the shard. The source loops for ever, and `ProbePeriodic` shows that later rounds repeat the first.
- Deck `random` field and the `TODO` remark that `CardsRemaining` ignores taken-out cards: the model keeps the source's formula.

## Findings

| source | as written | input that shows it | evidently intended | confidence | as-written member | corrected member |
|---|---|---|---|---|---|---|
| Evaluator.cs:165,185 | the six- and seven-card passes take card positions from `Enumerable.Range(1, 52)`, i.e. 1..52 | the six cards at positions 47..52: their five-card subset 48..52 sets bit 52, which no five-card hand has, so `handRankMap[subsetBitmap]` probes for ever | `Enumerable.Range(0, 52)`, as in the five-card pass at line 111 | high; not executed | Evaluators.SixCardSubsetIsNoHand, Evaluators.SixCardLookupNeverReturns | Evaluators.CardPositionsBitmap |
| HashMap.cs:62,88,101 | `Size = TotalSize / Count` can be odd, but keys and values are stored in pairs of words | the default request 195927550 (1.25 times 156742040) gives `Count` 64 and `Size` 6122735. Key 3061367 has its home at word 6122734 of shard 0, so the value word `index % Size + 1` is past the end of the array | `Size` rounded down to an even number of words | high; not executed | HashMaps.SourceShardSize, HashMaps.OddSourceShardSize, HashMaps.ValueWordOutsideShard | HashMaps.ShardWords |
