/**
 * Cards of a 52-card deck: the two-character parser, the prime fingerprints of
 * ranks and suits, the deck position `rank * 4 + suit`, equality and the hash code.
 */
module Cards {
  import opened Wrappers
  import opened Factorization

  /** Rank Two .. Ace, as the enum's underlying value 0 .. 12. */
  type Rank = r: int | 0 <= r < 13
  /** Suit Spades, Hearts, Diamonds, Clubs, as 0 .. 3. */
  type Suit = s: int | 0 <= s < 4

  datatype Card = Card(rank: Rank, suit: Suit)

  datatype ParseError = WrongLength | BadRank | BadSuit

  /** The rank letters, in rank order; also the first character of a card's display form. */
  const RankChars: string := "23456789TJQKA"
  /** The suit letters the parser accepts, in suit order. */
  const SuitLetters: string := "SHDC"
  /** The suit symbols of the display form (spade, heart, diamond, club). */
  const SuitGlyphs: string := "\U{2660}\U{2665}\U{2666}\U{2663}"

  const RankPrimes: seq<int> := [2, 3, 5, 7, 11, 13, 17, 19, 23, 29, 31, 37, 41]
  const SuitPrimes: seq<int> := [43, 47, 53, 59]
  /** All seventeen fingerprint primes; suit `s` is entry `13 + s`. */
  const CardPrimes: seq<int> := [2, 3, 5, 7, 11, 13, 17, 19, 23, 29, 31, 37, 41, 43, 47, 53, 59]

  function PrimeRank(c: Card): int {
    RankPrimes[c.rank]
  }

  function PrimeSuit(c: Card): int {
    SuitPrimes[c.suit]
  }

  /**
   * Trial division for the rank primes, checked in steps of eight divisors
   * (the depth to which the verifier evaluates it by itself).
   */
  lemma RankPrimesArePrime()
    ensures forall i :: 0 <= i < |RankPrimes| ==> IsPrime(RankPrimes[i])
  {
    TrialDivision(2);
    TrialDivision(3);
    TrialDivision(5);
    TrialDivision(7);
    assert NoDivisorFrom(11, 3); TrialDivision(11);
    assert NoDivisorFrom(13, 5); TrialDivision(13);
    assert NoDivisorFrom(17, 9); TrialDivision(17);
    assert NoDivisorFrom(19, 11); assert NoDivisorFrom(19, 3); TrialDivision(19);
    assert NoDivisorFrom(23, 15); assert NoDivisorFrom(23, 7); TrialDivision(23);
    assert NoDivisorFrom(29, 21); assert NoDivisorFrom(29, 13); assert NoDivisorFrom(29, 5); TrialDivision(29);
    assert NoDivisorFrom(31, 23); assert NoDivisorFrom(31, 15); assert NoDivisorFrom(31, 7); TrialDivision(31);
    assert NoDivisorFrom(37, 29); assert NoDivisorFrom(37, 21); assert NoDivisorFrom(37, 13); assert NoDivisorFrom(37, 5); TrialDivision(37);
    assert NoDivisorFrom(41, 33); assert NoDivisorFrom(41, 25); assert NoDivisorFrom(41, 17); assert NoDivisorFrom(41, 9); TrialDivision(41);
  }

  lemma SuitPrimesArePrime()
    ensures forall i :: 0 <= i < |SuitPrimes| ==> IsPrime(SuitPrimes[i])
  {
    assert NoDivisorFrom(43, 35); assert NoDivisorFrom(43, 27); assert NoDivisorFrom(43, 19); assert NoDivisorFrom(43, 11); assert NoDivisorFrom(43, 3); TrialDivision(43);
    assert NoDivisorFrom(47, 39); assert NoDivisorFrom(47, 31); assert NoDivisorFrom(47, 23); assert NoDivisorFrom(47, 15); assert NoDivisorFrom(47, 7); TrialDivision(47);
    assert NoDivisorFrom(53, 45); assert NoDivisorFrom(53, 37); assert NoDivisorFrom(53, 29); assert NoDivisorFrom(53, 21); assert NoDivisorFrom(53, 13); assert NoDivisorFrom(53, 5); TrialDivision(53);
    assert NoDivisorFrom(59, 51); assert NoDivisorFrom(59, 43); assert NoDivisorFrom(59, 35); assert NoDivisorFrom(59, 27); assert NoDivisorFrom(59, 19); assert NoDivisorFrom(59, 11); assert NoDivisorFrom(59, 3); TrialDivision(59);
  }

  /** The seventeen fingerprint primes are primes and pairwise distinct. */
  lemma CardPrimesDistinct()
    ensures DistinctPrimes(CardPrimes)
    ensures DistinctPrimes(RankPrimes) && DistinctPrimes(SuitPrimes)
  {
    RankPrimesArePrime();
    SuitPrimesArePrime();
    assert RankPrimes == CardPrimes[..13] && SuitPrimes == CardPrimes[13..];
    IncreasingDistinct(CardPrimes);
    IncreasingDistinct(RankPrimes);
    IncreasingDistinct(SuitPrimes);
  }

  /** Rank primes grow with the rank, and every one is below every suit prime. */
  lemma PrimeRankMonotone(a: Card, b: Card)
    ensures a.rank < b.rank <==> PrimeRank(a) < PrimeRank(b)
    ensures a.suit < b.suit <==> PrimeSuit(a) < PrimeSuit(b)
    ensures 2 <= PrimeRank(a) <= 41 < 43 <= PrimeSuit(a) <= 59
  {
  }

  /** Value equality on rank and suit, as `Card.Equals`. */
  function Equals(a: Card, b: Card): (r: bool)
    ensures r <==> a == b
  {
    a.rank == b.rank && a.suit == b.suit
  }

  function HashCode(c: Card): int {
    PrimeRank(c) * PrimeSuit(c)
  }

  /** The hash code is unique per card: it is a product of two distinct fingerprint primes. */
  lemma HashCodeInjective(a: Card, b: Card)
    requires HashCode(a) == HashCode(b)
    ensures a == b
  {
    CardPrimesDistinct();
    var xs: seq<nat> := [a.rank, 13 + a.suit];
    var ys: seq<nat> := [b.rank, 13 + b.suit];
    PairProduct(CardPrimes, a.rank, 13 + a.suit);
    PairProduct(CardPrimes, b.rank, 13 + b.suit);
    UniqueFactorization(CardPrimes, xs, ys);
    assert a.rank in multiset(ys);
    assert 13 + a.suit in multiset(ys);
  }

  lemma PairProduct(t: seq<int>, x: nat, y: nat)
    requires x < |t| && y < |t|
    ensures Product(t, [x, y]) == t[x] * t[y]
  {
    assert [x, y][1..] == [y];
    assert Product(t, [y]) == t[y] * Product(t, []);
  }

  /** The deck position of a card: bit `rank * 4 + suit` of a card set. */
  function Position(c: Card): (p: nat)
    ensures p < 52
  {
    c.rank * 4 + c.suit
  }

  function CardAt(p: nat): Card
    requires p < 52
  {
    Card(p / 4, p % 4)
  }

  lemma PositionRoundTrip(c: Card)
    ensures CardAt(Position(c)) == c
  {
    DivModUnique(Position(c), 4, c.rank, c.suit);
  }

  lemma CardAtRoundTrip(p: nat)
    requires p < 52
    ensures Position(CardAt(p)) == p
  {
  }

  lemma PositionInjective(a: Card, b: Card)
    ensures Position(a) == Position(b) <==> a == b
  {
    if Position(a) == Position(b) {
      assert a.rank == b.rank;
    }
  }

  /** The ordering key used to sort the cards of a hand. */
  function SortKey(c: Card): int {
    PrimeRank(c) * 100 + PrimeSuit(c)
  }

  /** Sorting by the key sorts by rank, then suit: the key order is the position order. */
  lemma SortKeyOrder(a: Card, b: Card)
    ensures SortKey(a) < SortKey(b) <==> Position(a) < Position(b)
    ensures SortKey(a) == SortKey(b) <==> a == b
  {
    PrimeRankMonotone(a, b);
    PrimeRankMonotone(b, a);
  }

  /** ASCII upper-casing of one character: no lower-case letter is left, letters stay letters,
      and only lower-case letters change. */
  function ToUpperChar(ch: char): (u: char)
    ensures !('a' <= u <= 'z')
    ensures 'A' <= u <= 'Z' <==> 'A' <= ch <= 'Z' || 'a' <= ch <= 'z'
    ensures u != ch ==> 'a' <= ch <= 'z'
  {
    if 'a' <= ch <= 'z' then (ch as int - 32) as char else ch
  }

  /** Upper-casing of a string, character by character: the length is kept, no lower-case
      letter is left, and every other character stays where it was. */
  function ToUpper(s: string): (u: string)
    ensures |u| == |s|
    ensures forall i :: 0 <= i < |u| ==> !('a' <= u[i] <= 'z')
    ensures forall i :: 0 <= i < |s| && !('a' <= s[i] <= 'z') ==> u[i] == s[i]
  {
    seq(|s|, i requires 0 <= i < |s| => ToUpperChar(s[i]))
  }

  /** Upper-casing twice is upper-casing once. */
  lemma ToUpperIdempotent(s: string)
    ensures ToUpper(ToUpper(s)) == ToUpper(s)
  {
  }

  function ParseRank(ch: char): Option<Rank> {
    match ch
    case '2' => Some(0)
    case '3' => Some(1)
    case '4' => Some(2)
    case '5' => Some(3)
    case '6' => Some(4)
    case '7' => Some(5)
    case '8' => Some(6)
    case '9' => Some(7)
    case 'T' => Some(8)
    case 'J' => Some(9)
    case 'Q' => Some(10)
    case 'K' => Some(11)
    case 'A' => Some(12)
    case _ => None
  }

  function ParseSuit(ch: char): Option<Suit> {
    match ch
    case 'S' => Some(0)
    case 'H' => Some(1)
    case 'D' => Some(2)
    case 'C' => Some(3)
    case _ => None
  }

  /** The card constructor from a string: upper-case, then length, rank letter and suit letter are checked in that order. */
  function Parse(s: string): (r: Result<Card, ParseError>)
    ensures |s| != 2 ==> r == Err(WrongLength)
    ensures |s| == 2 && ToUpperChar(s[0]) !in RankChars ==> r == Err(BadRank)
    ensures |s| == 2 && ToUpperChar(s[0]) in RankChars && ToUpperChar(s[1]) !in SuitLetters ==> r == Err(BadSuit)
    ensures r.Ok? ==> |s| == 2 && RankChars[r.value.rank] == ToUpperChar(s[0]) && SuitLetters[r.value.suit] == ToUpperChar(s[1])
  {
    var chars := ToUpper(s);
    if |chars| != 2 then Err(WrongLength)
    else match ParseRank(chars[0])
      case None => Err(BadRank)
      case Some(rank) =>
        match ParseSuit(chars[1])
        case None => Err(BadSuit)
        case Some(suit) => Ok(Card(rank, suit))
  }

  /** The two-letter form `Hand(bitmap)` builds for a card: rank letter, suit letter. */
  function Letters(c: Card): string {
    [RankChars[c.rank], SuitLetters[c.suit]]
  }

  function LowerChar(ch: char): char {
    if 'A' <= ch <= 'Z' then (ch as int + 32) as char else ch
  }

  /** Each rank letter is upper case, in either case upper-cases to itself, and reads back as its rank. */
  lemma RankLetter(r: Rank)
    ensures ToUpperChar(RankChars[r]) == RankChars[r] && ToUpperChar(LowerChar(RankChars[r])) == RankChars[r]
    ensures ParseRank(RankChars[r]) == Some(r)
  {
  }

  lemma SuitLetter(s: Suit)
    ensures ToUpperChar(SuitLetters[s]) == SuitLetters[s] && ToUpperChar(LowerChar(SuitLetters[s])) == SuitLetters[s]
    ensures ParseSuit(SuitLetters[s]) == Some(s)
  {
  }

  /** The letters of a card parse back to that card. */
  lemma ParseLetters(c: Card)
    ensures Parse(Letters(c)) == Ok(c)
  {
    RankLetter(c.rank);
    SuitLetter(c.suit);
  }

  /** So do its letters in lower case. */
  lemma ParseLowerLetters(c: Card)
    ensures Parse([LowerChar(RankChars[c.rank]), LowerChar(SuitLetters[c.suit])]) == Ok(c)
  {
    RankLetter(c.rank);
    SuitLetter(c.suit);
  }

  /** Parsing ignores letter case: strings that agree after upper-casing parse alike. */
  lemma ParseIgnoresCase(s: string)
    ensures Parse(ToUpper(s)) == Parse(s)
  {
    assert ToUpper(ToUpper(s)) == ToUpper(s);
  }

  /** The display form: rank letter, then suit symbol. */
  function DisplayString(c: Card): (r: string)
    ensures |r| == 2 && r[0] == Letters(c)[0]
  {
    [RankChars[c.rank], SuitGlyphs[c.suit]]
  }

  /** The display form's rank letter is the one the parser reads, but its suit symbol is refused. */
  lemma DisplayNotParsable(c: Card)
    ensures ParseRank(ToUpperChar(DisplayString(c)[0])) == Some(c.rank)
    ensures Parse(DisplayString(c)) == Err(BadSuit)
  {
  }
}
