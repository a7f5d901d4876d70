/** Sets of small numbers kept as bits of 64-bit words. */
module Bitsets {
  /** Bit `r` of a word is selected by a shift of `r`. */
  function Shift(r: nat): bv6
    requires r < 64
  {
    r as bv6
  }

  function Mask(shift: bv6): bv64 {
    (1 as bv64) << shift
  }

  function And(a: bv64, b: bv64): bv64 {
    a & b
  }

  function Or(a: bv64, b: bv64): bv64 {
    a | b
  }

  predicate HasBit(word: bv64, shift: bv6) {
    And(word, Mask(shift)) != 0
  }

  function WithBit(word: bv64, shift: bv6): bv64 {
    Or(word, Mask(shift))
  }

  predicate Has(word: bv64, r: nat)
    requires r < 64
  {
    HasBit(word, Shift(r))
  }

  function With(word: bv64, r: nat): bv64
    requires r < 64
  {
    WithBit(word, Shift(r))
  }

  lemma ShiftIsLossless(r: nat)
    requires r < 64
    ensures Shift(r) as int == r
  {
  }

  lemma ShiftIsInjective(r: nat, q: nat)
    requires r < 64 && q < 64
    ensures Shift(r) == Shift(q) <==> r == q
  {
    hide Shift;
    ShiftIsLossless(r);
    ShiftIsLossless(q);
  }

  lemma MasksAreApart(a: bv6, b: bv6)
    ensures And(Mask(a), Mask(b)) == if a == b then Mask(a) else 0
    ensures Mask(a) != 0
  {
  }

  lemma AndDistributes(word: bv64, a: bv64, b: bv64)
    ensures And(Or(word, a), b) == Or(And(word, b), And(a, b))
  {
    assert (word | a) & b == (word & b) | (a & b);
  }

  lemma OrWithNothing(a: bv64, b: bv64)
    ensures Or(a, 0) == a && And(0, b) == 0 && (b != 0 ==> Or(a, b) != 0)
  {
  }

  lemma BitsAreApart(word: bv64, a: bv6, b: bv6)
    ensures HasBit(WithBit(word, a), b) <==> a == b || HasBit(word, b)
    ensures !HasBit(0, b)
  {
    hide Mask, And, Or;
    MasksAreApart(a, b);
    AndDistributes(word, Mask(a), Mask(b));
    OrWithNothing(And(word, Mask(b)), And(Mask(a), Mask(b)));
    OrWithNothing(0, Mask(b));
  }

  /** Setting one bit changes no other. */
  lemma WithSetsOne(word: bv64, r: nat, q: nat)
    requires r < 64 && q < 64
    ensures Has(With(word, r), q) <==> r == q || Has(word, q)
    ensures !Has(0, q)
  {
    hide Shift, HasBit, WithBit;
    ShiftIsInjective(r, q);
    BitsAreApart(word, Shift(r), Shift(q));
  }

  class Bitset {
    const words: array<bv64>

    /** Room for the numbers below `n`, holding none of them. */
    constructor (n: nat)
      ensures fresh(words) && Holds(n) && Members() == {}
    {
      hide Has, With;
      words := new bv64[(n + 63) / 64](_ => 0);
      new;
      forall i | 0 <= i < 64 * words.Length
        ensures !Has(words[i / 64], i % 64)
      {
        WithSetsOne(0, 0, i % 64);
      }
    }

    predicate Holds(n: nat) {
      n <= 64 * words.Length
    }

    ghost function Members(): set<nat>
      reads words
    {
      set i | 0 <= i < 64 * words.Length && Has(words[i / 64], i % 64)
    }

    predicate Test(i: nat)
      requires Holds(i + 1)
      reads words
      ensures Test(i) <==> i in Members()
    {
      Has(words[i / 64], i % 64)
    }

    method Set(i: nat)
      requires Holds(i + 1)
      modifies words
      ensures Members() == old(Members()) + {i}
    {
      hide Has, With;
      words[i / 64] := With(words[i / 64], i % 64);
      forall j | 0 <= j < 64 * words.Length
        ensures Has(words[j / 64], j % 64) <==> j == i || old(Has(words[j / 64], j % 64))
      {
        if j / 64 == i / 64 {
          WithSetsOne(old(words[i / 64]), i % 64, j % 64);
        }
      }
    }

    method Clear()
      modifies words
      ensures Members() == {}
    {
      hide Has, With;
      for k := 0 to words.Length
        invariant forall w | 0 <= w < k :: words[w] == 0
      {
        words[k] := 0;
      }
      forall i | 0 <= i < 64 * words.Length
        ensures !Has(words[i / 64], i % 64)
      {
        WithSetsOne(0, 0, i % 64);
      }
    }
  }
}
