/**
 * The unsigned 64-bit words (`ulong`) that hold card sets and hash-map entries, as
 * naturals below 2^64. Bitwise OR and AND are defined bit by bit; `Has(w, p)` is bit
 * `p` of `w` and `Pow2(p)` is the single-bit word `1ul << p`. The lemmas turn OR, AND
 * and single bits into union, intersection and singletons of bit positions, and words
 * with the same bits are equal.
 */
module Words {

  const WordLimit: nat := 0x1_0000_0000_0000_0000

  /** A C# `ulong`. */
  type Word = w: nat | w < WordLimit

  /** `1ul << p`. */
  function Pow2(p: nat): (r: nat)
    ensures r > 0
  {
    if p == 0 then 1 else 2 * Pow2(p - 1)
  }

  /** Bit `p` of `w` is set. */
  predicate Has(w: nat, p: nat) {
    if p == 0 then w % 2 == 1 else Has(w / 2, p - 1)
  }

  /** Bitwise OR, `a | b`. */
  function Or(a: nat, b: nat): nat
    decreases a + b
  {
    if a == 0 && b == 0 then 0
    else 2 * Or(a / 2, b / 2) + (if a % 2 == 1 || b % 2 == 1 then 1 else 0)
  }

  /** Bitwise AND, `a & b`. */
  function And(a: nat, b: nat): nat
    decreases a + b
  {
    if a == 0 || b == 0 then 0
    else 2 * And(a / 2, b / 2) + (if a % 2 == 1 && b % 2 == 1 then 1 else 0)
  }

  /** The word whose bits are exactly those below `n`. */
  function LowBits(n: nat): nat {
    Pow2(n) - 1
  }

  lemma OrStep(a: nat, b: nat)
    ensures Or(a, b) % 2 == (if a % 2 == 1 || b % 2 == 1 then 1 else 0)
    ensures Or(a, b) / 2 == Or(a / 2, b / 2)
  {
  }

  lemma AndStep(a: nat, b: nat)
    ensures And(a, b) % 2 == (if a % 2 == 1 && b % 2 == 1 then 1 else 0)
    ensures And(a, b) / 2 == And(a / 2, b / 2)
  {
  }

  lemma {:induction false} HasZero(p: nat)
    ensures !Has(0, p)
  {
    if p > 0 {
      HasZero(p - 1);
    }
  }

  /** OR is union of bits. */
  lemma {:induction false} HasOr(a: nat, b: nat, p: nat)
    ensures Has(Or(a, b), p) <==> Has(a, p) || Has(b, p)
  {
    OrStep(a, b);
    if p > 0 {
      HasOr(a / 2, b / 2, p - 1);
    }
  }

  /** AND is intersection of bits. */
  lemma {:induction false} HasAnd(a: nat, b: nat, p: nat)
    ensures Has(And(a, b), p) <==> Has(a, p) && Has(b, p)
  {
    AndStep(a, b);
    if p > 0 {
      HasAnd(a / 2, b / 2, p - 1);
    }
  }

  /** `1ul << q` has bit `q` and no other. */
  lemma {:induction false} HasPow2(q: nat, p: nat)
    ensures Has(Pow2(q), p) <==> p == q
  {
    if q == 0 {
      if p > 0 {
        HasZero(p - 1);
      }
    } else if p > 0 {
      HasPow2(q - 1, p - 1);
    }
  }

  /** `LowBits(n)` has exactly the bits below `n`. */
  lemma {:induction false} HasLowBits(n: nat, p: nat)
    ensures Has(LowBits(n), p) <==> p < n
  {
    if n == 0 {
      HasZero(p);
    } else {
      assert LowBits(n) / 2 == LowBits(n - 1);
      if p > 0 {
        HasLowBits(n - 1, p - 1);
      }
    }
  }

  /** A word below `2^n` has no bit at `n` or above. */
  lemma {:induction false} HasBelow(w: nat, n: nat, p: nat)
    requires w < Pow2(n) && n <= p
    ensures !Has(w, p)
  {
    if n == 0 {
      HasZero(p);
    } else {
      HasBelow(w / 2, n - 1, p - 1);
    }
  }

  /** Words with the same bits are equal. */
  lemma {:induction false} Ext(a: nat, b: nat)
    requires forall p: nat :: Has(a, p) == Has(b, p)
    ensures a == b
    decreases a + b
  {
    if a != 0 || b != 0 {
      assert Has(a, 0) == Has(b, 0);
      forall p: nat
        ensures Has(a / 2, p) == Has(b / 2, p)
      {
        assert Has(a, p + 1) == Has(b, p + 1);
      }
      Ext(a / 2, b / 2);
    }
  }

  /** Testing bit `p` as `((1ul << p) & w) != 0`. */
  lemma TestBit(w: nat, p: nat)
    ensures And(Pow2(p), w) != 0 <==> Has(w, p)
  {
    HasAnd(Pow2(p), w, p);
    HasPow2(p, p);
    if And(Pow2(p), w) == 0 {
      HasZero(p);
    }
  }

  lemma {:induction false} OrBelow(a: nat, b: nat, n: nat)
    requires a < Pow2(n) && b < Pow2(n)
    ensures Or(a, b) < Pow2(n)
  {
    if n > 0 {
      OrBelow(a / 2, b / 2, n - 1);
    }
  }

  lemma {:induction false} AndBelow(a: nat, b: nat, n: nat)
    requires a < Pow2(n)
    ensures And(a, b) < Pow2(n)
  {
    if n > 0 {
      AndBelow(a / 2, b / 2, n - 1);
    }
  }

  lemma {:induction false} Pow2Monotone(p: nat, q: nat)
    requires p <= q
    ensures Pow2(p) <= Pow2(q)
  {
    if p < q {
      Pow2Monotone(p, q - 1);
    }
  }

  lemma {:induction false} Pow2Byte(p: nat)
    ensures Pow2(p + 8) == 256 * Pow2(p)
  {
    if p > 0 {
      Pow2Byte(p - 1);
    } else {
      assert Pow2(8) == 256;
    }
  }

  lemma Pow2Half()
    ensures Pow2(32) == 0x1_0000_0000
  {
    Pow2Byte(0);
    Pow2Byte(8);
    Pow2Byte(16);
    Pow2Byte(24);
  }

  lemma Pow2Word()
    ensures Pow2(64) == WordLimit
  {
    Pow2Half();
    Pow2Byte(32);
    Pow2Byte(40);
    Pow2Byte(48);
    Pow2Byte(56);
  }

  /** OR of two words, and a single bit below 64, are words. */
  lemma OrWord(a: Word, b: Word)
    ensures Or(a, b) < WordLimit
  {
    Pow2Word();
    OrBelow(a, b, 64);
  }

  lemma Pow2IsWord(p: nat)
    requires p < 64
    ensures Pow2(p) < WordLimit
  {
    Pow2Monotone(p + 1, 64);
    Pow2Word();
  }

  /** `1ul << p`: C# shifts a `ulong` by the low six bits of the count only, so the result is the
      single bit `p % 64`. */
  function ShiftBit(p: int): (w: Word)
    ensures forall q: nat :: Has(w, q) <==> q == p % 64
  {
    Pow2IsWord(p % 64);
    assert forall q: nat :: Has(Pow2(p % 64), q) <==> q == p % 64 by {
      forall q: nat ensures Has(Pow2(p % 64), q) <==> q == p % 64 {
        HasPow2(p % 64, q);
      }
    }
    Pow2(p % 64)
  }

  /** A count below 64 shifts by itself. */
  lemma SmallShift(p: int)
    requires 0 <= p < 64
    ensures ShiftBit(p) == Pow2(p)
  {
    assert p % 64 == p;
  }
}
