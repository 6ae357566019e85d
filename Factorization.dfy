/**
 * Elementary number theory behind the prime fingerprints of cards and hands:
 * Euclid's lemma and uniqueness of factorisation over a table of distinct primes.
 * A product of table entries determines the multiset of table indices it was built from.
 */
module Factorization {

  predicate Divides(d: int, n: int)
    requires d > 0
  {
    n % d == 0
  }

  ghost predicate IsPrime(p: int) {
    p >= 2 && forall d :: 2 <= d < p ==> !Divides(d, p)
  }

  /** Trial division: no divisor of `p` in `[d, p)`. */
  predicate NoDivisorFrom(p: int, d: int)
    requires d >= 2
    decreases p - d
  {
    d >= p || (p % d != 0 && NoDivisorFrom(p, d + 1))
  }

  lemma {:induction false} NoDivisorFromSound(p: int, d: int)
    requires d >= 2 && NoDivisorFrom(p, d)
    ensures forall e :: d <= e < p ==> !Divides(e, p)
    decreases p - d
  {
    if d < p {
      NoDivisorFromSound(p, d + 1);
    }
  }

  lemma TrialDivision(p: int)
    requires p >= 2 && NoDivisorFrom(p, 2)
    ensures IsPrime(p)
  {
    NoDivisorFromSound(p, 2);
  }

  /** Two primes of which one divides the other are equal. */
  lemma PrimeDividesPrime(p: int, q: int)
    requires IsPrime(p) && IsPrime(q) && Divides(p, q)
    ensures p == q
  {
    if p > q {
      DivModUnique(q, p, 0, q);
      assert false;
    } else if p < q {
      assert false;
    }
  }

  /** Division with remainder is unique. */
  lemma DivModUnique(n: int, p: int, q: int, r: int)
    requires p > 0 && 0 <= r < p && n == q * p + r
    ensures n % p == r && n / p == q
  {
    var q', r' := n / p, n % p;
    var k := q - q';
    assert k * p == r' - r by {
      assert q * p - q' * p == (q - q') * p;
    }
    if k != 0 {
      assert false;
    }
  }

  lemma MulMod(x: int, p: int)
    requires p > 0
    ensures (x * p) % p == 0
  {
    DivModUnique(x * p, p, x, 0);
  }

  lemma ModShift(y: int, k: int, p: int)
    requires p > 0
    ensures (y + k * p) % p == y % p
  {
    var q, r := y / p, y % p;
    assert y + k * p == (q + k) * p + r;
    DivModUnique(y + k * p, p, q + k, r);
  }

  /** Euclid's lemma for a factor below the prime, by descent on that factor. */
  lemma {:induction false} EuclidBelow(p: int, a: int, b: int)
    requires IsPrime(p) && 0 < a < p && b >= 0
    requires Divides(p, a * b)
    ensures Divides(p, b)
    decreases a
  {
    if a > 1 {
      var q, r := p / a, p % a;
      assert p == q * a + r;
      assert r != 0 by {
        if r == 0 {
          assert Divides(a, p);
          assert false;
        }
      }
      var m := (a * b) / p;
      assert a * b == p * m;
      calc {
        r * b;
        (p - q * a) * b;
        p * b - q * (a * b);
        p * b - q * (p * m);
        (b - q * m) * p;
      }
      assert r * b >= 0;
      MulMod(b - q * m, p);
      EuclidBelow(p, r, b);
    }
  }

  /** Euclid's lemma: a prime dividing a product of naturals divides a factor. */
  lemma Euclid(p: int, a: int, b: int)
    requires IsPrime(p) && a >= 0 && b >= 0
    requires Divides(p, a * b)
    ensures Divides(p, a) || Divides(p, b)
  {
    var a' := a % p;
    if a' != 0 {
      var q := a / p;
      assert a * b == a' * b + (q * b) * p by {
        assert a == q * p + a';
        assert (q * p + a') * b == a' * b + (q * b) * p;
      }
      ModShift(a' * b, q * b, p);
      EuclidBelow(p, a', b);
    }
  }

  /** A table of pairwise distinct primes. */
  ghost predicate DistinctPrimes(t: seq<int>) {
    (forall i :: 0 <= i < |t| ==> IsPrime(t[i])) &&
    (forall i, j :: 0 <= i < j < |t| ==> t[i] != t[j])
  }

  /** Adjacent entries increase, so all entries are pairwise distinct. */
  lemma {:induction false} IncreasingDistinct(t: seq<int>)
    requires forall i :: 0 <= i < |t| - 1 ==> t[i] < t[i + 1]
    ensures forall i, j :: 0 <= i < j < |t| ==> t[i] < t[j]
  {
    if |t| > 1 {
      IncreasingDistinct(t[1..]);
      forall i, j | 0 <= i < j < |t|
        ensures t[i] < t[j]
      {
        if i > 0 {
          assert t[1..][i - 1] < t[1..][j - 1];
        } else if j > 1 {
          assert t[1..][0] < t[1..][j - 1];
        }
      }
    }
  }

  predicate Indices(t: seq<int>, xs: seq<nat>) {
    forall k :: 0 <= k < |xs| ==> xs[k] < |t|
  }

  /** The product of the table entries designated by `xs`. */
  function Product(t: seq<int>, xs: seq<nat>): int
    requires Indices(t, xs)
  {
    if xs == [] then 1 else t[xs[0]] * Product(t, xs[1..])
  }

  lemma {:induction false} ProductPositive(t: seq<int>, xs: seq<nat>)
    requires DistinctPrimes(t) && Indices(t, xs)
    ensures Product(t, xs) >= 1
    ensures xs != [] ==> Product(t, xs) >= 2
  {
    if xs != [] {
      ProductPositive(t, xs[1..]);
      assert IsPrime(t[xs[0]]);
    }
  }

  /** A table prime that divides a product of table primes is one of its factors. */
  lemma {:induction false} PrimeOfProduct(t: seq<int>, i: nat, ys: seq<nat>)
    requires DistinctPrimes(t) && i < |t| && Indices(t, ys)
    requires Divides(t[i], Product(t, ys))
    ensures i in ys
  {
    assert IsPrime(t[i]);
    if ys == [] {
      DivModUnique(1, t[i], 0, 1);
      assert false;
    } else {
      var j := ys[0];
      assert IsPrime(t[j]);
      ProductPositive(t, ys[1..]);
      Euclid(t[i], t[j], Product(t, ys[1..]));
      if Divides(t[i], t[j]) {
        PrimeDividesPrime(t[i], t[j]);
        if i != j {
          assert false;
        }
      } else {
        PrimeOfProduct(t, i, ys[1..]);
      }
    }
  }

  /** Taking one factor out of a product. */
  lemma {:induction false} ProductRemove(t: seq<int>, ys: seq<nat>, k: nat)
    requires Indices(t, ys) && k < |ys|
    ensures Indices(t, ys[..k] + ys[k + 1..])
    ensures Product(t, ys) == t[ys[k]] * Product(t, ys[..k] + ys[k + 1..])
  {
    var rest := ys[..k] + ys[k + 1..];
    if k > 0 {
      ProductRemove(t, ys[1..], k - 1);
      assert ys[1..][..k - 1] + ys[1..][k..] == rest[1..];
      assert rest[0] == ys[0];
      var a, b, c := t[ys[0]], t[ys[k]], Product(t, rest[1..]);
      assert Product(t, ys) == a * (b * c);
      assert Product(t, rest) == a * c;
      assert a * (b * c) == b * (a * c);
    } else {
      assert rest == ys[1..];
    }
  }

  lemma MultisetRemove(ys: seq<nat>, k: nat)
    requires k < |ys|
    ensures multiset(ys) == multiset{ys[k]} + multiset(ys[..k] + ys[k + 1..])
  {
    assert ys == ys[..k] + [ys[k]] + ys[k + 1..];
  }

  /** Uniqueness of factorisation: equal products come from equal multisets of indices. */
  lemma {:induction false} UniqueFactorization(t: seq<int>, xs: seq<nat>, ys: seq<nat>)
    requires DistinctPrimes(t) && Indices(t, xs) && Indices(t, ys)
    requires Product(t, xs) == Product(t, ys)
    ensures multiset(xs) == multiset(ys)
    decreases |xs|
  {
    if xs == [] {
      ProductPositive(t, ys);
    } else {
      var i := xs[0];
      var p, n := t[i], Product(t, xs[1..]);
      assert IsPrime(p);
      assert Product(t, ys) == p * n;
      MulMod(n, p);
      assert n * p == p * n;
      PrimeOfProduct(t, i, ys);
      var k :| 0 <= k < |ys| && ys[k] == i;
      var rest := ys[..k] + ys[k + 1..];
      ProductRemove(t, ys, k);
      CancelFactor(p, n, Product(t, rest));
      UniqueFactorization(t, xs[1..], rest);
      MultisetRemove(ys, k);
      MultisetRemove(xs, 0);
      assert xs[..0] + xs[1..] == xs[1..];
    }
  }

  lemma CancelFactor(p: int, m: int, n: int)
    requires p > 0 && p * m == p * n
    ensures m == n
  {
    assert p * (m - n) == 0;
  }

  /** The product depends only on the multiset of indices. */
  lemma {:induction false} ProductOfPermutation(t: seq<int>, xs: seq<nat>, ys: seq<nat>)
    requires Indices(t, xs) && Indices(t, ys) && multiset(xs) == multiset(ys)
    ensures Product(t, xs) == Product(t, ys)
    decreases |xs|
  {
    if xs != [] {
      var i := xs[0];
      assert i in multiset(ys);
      var k :| 0 <= k < |ys| && ys[k] == i;
      var rest := ys[..k] + ys[k + 1..];
      ProductRemove(t, ys, k);
      MultisetRemove(ys, k);
      MultisetRemove(xs, 0);
      assert xs[..0] + xs[1..] == xs[1..];
      assert multiset(xs[1..]) == multiset(xs) - multiset{i};
      assert multiset(rest) == multiset(ys) - multiset{i};
      ProductOfPermutation(t, xs[1..], rest);
    } else {
      assert |ys| == |multiset(ys)| == 0;
    }
  }
}
