/**
 * The strength of a five-card hand: a category and a list of tie-breaking kickers,
 * compared category first and then kicker by kicker.
 */
module Strengths {

  /** The nine categories, weakest first; the order of declaration is the enum's order. */
  datatype HandRanking =
    | HighCard | Pair | TwoPair | ThreeOfAKind | Straight
    | Flush | FullHouse | FourOfAKind | StraightFlush

  /** The enum's underlying value. */
  function Ordinal(h: HandRanking): (n: nat)
    ensures n < 9
    ensures h == HighCard <==> n == 0
    ensures h == StraightFlush <==> n == 8
  {
    match h
    case HighCard => 0
    case Pair => 1
    case TwoPair => 2
    case ThreeOfAKind => 3
    case Straight => 4
    case Flush => 5
    case FullHouse => 6
    case FourOfAKind => 7
    case StraightFlush => 8
  }

  lemma OrdinalInjective(g: HandRanking, h: HandRanking)
    ensures Ordinal(g) == Ordinal(h) <==> g == h
  {
  }

  datatype HandStrength = HandStrength(ranking: HandRanking, kickers: seq<int>)

  /** How many kickers the classifier produces for each category. */
  function KickerCount(h: HandRanking): nat {
    match h
    case HighCard => 5
    case Pair => 4
    case TwoPair => 3
    case ThreeOfAKind => 3
    case Straight => 5
    case Flush => 5
    case FullHouse => 2
    case FourOfAKind => 2
    case StraightFlush => 5
  }

  /** A strength as the classifier produces it: the kicker list has its category's length. */
  predicate WellFormed(s: HandStrength) {
    |s.kickers| == KickerCount(s.ranking)
  }

  /**
   * The kicker loop of `CompareTo`: walk `xs`, reading `ys` at the same index, and
   * answer at the first difference. `ys` must be at least as long as `xs`.
   */
  function CompareKickers(xs: seq<int>, ys: seq<int>): (r: int)
    requires |xs| <= |ys|
    ensures -1 <= r <= 1
  {
    if xs == [] then 0
    else if xs[0] > ys[0] then 1
    else if xs[0] < ys[0] then -1
    else CompareKickers(xs[1..], ys[1..])
  }

  /** `CompareTo`: category first, then kickers; indexing `other`'s kickers needs enough of them. */
  function CompareTo(a: HandStrength, b: HandStrength): (r: int)
    requires a.ranking == b.ranking ==> |a.kickers| <= |b.kickers|
    ensures -1 <= r <= 1
    ensures Ordinal(a.ranking) > Ordinal(b.ranking) ==> r == 1
    ensures Ordinal(a.ranking) < Ordinal(b.ranking) ==> r == -1
  {
    if Ordinal(a.ranking) > Ordinal(b.ranking) then 1
    else if Ordinal(a.ranking) < Ordinal(b.ranking) then -1
    else CompareKickers(a.kickers, b.kickers)
  }

  /** The first differing kicker decides: its sign is the sign of the comparison. */
  lemma {:induction false} FirstDifferenceDecides(xs: seq<int>, ys: seq<int>, i: nat)
    requires |xs| <= |ys| && i < |xs|
    requires xs[..i] == ys[..i] && xs[i] != ys[i]
    ensures CompareKickers(xs, ys) == (if xs[i] > ys[i] then 1 else -1)
  {
    if i > 0 {
      assert xs[0] == xs[..i][0] == ys[..i][0] == ys[0];
      assert xs[1..][..i - 1] == xs[..i][1..] == ys[..i][1..] == ys[1..][..i - 1];
      FirstDifferenceDecides(xs[1..], ys[1..], i - 1);
    }
  }

  /** Without a difference the kickers compare equal: exactly when `xs` is a prefix of `ys`. */
  lemma {:induction false} CompareKickersZero(xs: seq<int>, ys: seq<int>)
    requires |xs| <= |ys|
    ensures CompareKickers(xs, ys) == 0 <==> xs == ys[..|xs|]
  {
    if xs != [] {
      CompareKickersZero(xs[1..], ys[1..]);
      assert ys[..|xs|] == [ys[0]] + ys[1..][..|xs| - 1];
      assert xs == [xs[0]] + xs[1..];
    }
  }

  /** With kicker lists of equal length the kicker order is antisymmetric. */
  lemma {:induction false} CompareKickersAntisymmetric(xs: seq<int>, ys: seq<int>)
    requires |xs| == |ys|
    ensures CompareKickers(xs, ys) == -CompareKickers(ys, xs)
  {
    if xs != [] && xs[0] == ys[0] {
      CompareKickersAntisymmetric(xs[1..], ys[1..]);
    }
  }

  /** With kicker lists of equal length the kicker order is transitive. */
  lemma {:induction false} CompareKickersTransitive(xs: seq<int>, ys: seq<int>, zs: seq<int>)
    requires |xs| == |ys| == |zs|
    requires CompareKickers(xs, ys) < 0 && CompareKickers(ys, zs) < 0
    ensures CompareKickers(xs, zs) < 0
  {
    if xs[0] == ys[0] && ys[0] == zs[0] {
      CompareKickersTransitive(xs[1..], ys[1..], zs[1..]);
    }
  }

  /** Strengths whose comparison is defined in both directions. */
  predicate Comparable(a: HandStrength, b: HandStrength) {
    a.ranking == b.ranking ==> |a.kickers| == |b.kickers|
  }

  predicate Less(a: HandStrength, b: HandStrength)
    requires Comparable(a, b)
  {
    CompareTo(a, b) < 0
  }

  /** Equal categories with equal kicker lists, and only those, compare as 0. */
  lemma CompareToZero(a: HandStrength, b: HandStrength)
    requires Comparable(a, b)
    ensures CompareTo(a, b) == 0 <==> a == b
  {
    if a.ranking == b.ranking {
      CompareKickersZero(a.kickers, b.kickers);
    } else {
      OrdinalInjective(a.ranking, b.ranking);
    }
  }

  lemma CompareToAntisymmetric(a: HandStrength, b: HandStrength)
    requires Comparable(a, b)
    ensures CompareTo(a, b) == -CompareTo(b, a)
  {
    if Ordinal(a.ranking) == Ordinal(b.ranking) {
      OrdinalInjective(a.ranking, b.ranking);
      CompareKickersAntisymmetric(a.kickers, b.kickers);
    }
  }

  lemma CompareToTransitive(a: HandStrength, b: HandStrength, c: HandStrength)
    requires WellFormed(a) && WellFormed(b) && WellFormed(c)
    requires CompareTo(a, b) < 0 && CompareTo(b, c) < 0
    ensures CompareTo(a, c) < 0
  {
    OrdinalInjective(a.ranking, b.ranking);
    OrdinalInjective(b.ranking, c.ranking);
    if a.ranking == b.ranking == c.ranking {
      CompareKickersTransitive(a.kickers, b.kickers, c.kickers);
    }
  }

  /** On classifier output `Less` is a strict total order. */
  lemma LessTotal(a: HandStrength, b: HandStrength)
    requires WellFormed(a) && WellFormed(b)
    ensures Comparable(a, b) && Comparable(b, a)
    ensures a == b || Less(a, b) || Less(b, a)
    ensures !(Less(a, b) && Less(b, a))
  {
    CompareToZero(a, b);
    CompareToAntisymmetric(a, b);
  }
}
