/** The generator's identifiers: a mixing hash modulo 2^64, and the names derived
    from it. Words are natural numbers below 2^64 and wrap explicitly. */
module HashIds {
  import opened Texts

  const TWO_TO_64 := 0x1_0000_0000_0000_0000
  const TWO_TO_63 := 0x8000_0000_0000_0000

  type Word = x: nat | x < TWO_TO_64
  type Int64 = p: int | -TWO_TO_63 <= p < TWO_TO_63

  const GAMMA: Word := 0x9e3779b97f4a7c15
  const GAMMA_INVERSE: Word := 0xf1de83e19937733d
  const FIRST: Word := 0xbf58476d1ce4e5b9
  const FIRST_INVERSE: Word := 0x96de1b173f119089
  const SECOND: Word := 0x94d049bb133111eb
  const SECOND_INVERSE: Word := 0x319642b2d24d8ec3

  // ---- Bits of natural numbers ----------------------------------------------

  function Xor(a: nat, b: nat): nat
    decreases a + b
  {
    if a == 0 && b == 0 then 0 else 2 * Xor(a / 2, b / 2) + BitXor(a % 2, b % 2)
  }

  function BitXor(i: nat, j: nat): nat {
    if i == j then 0 else 1
  }

  function ShiftRight(a: nat, bits: nat): nat {
    if bits == 0 then a else ShiftRight(a / 2, bits - 1)
  }

  /** The low bits alone: conversion to a narrower unsigned integer. */
  function Low(a: nat, bits: nat): nat {
    if bits == 0 then 0 else 2 * Low(a / 2, bits - 1) + a % 2
  }

  function Pow2(bits: nat): nat {
    if bits == 0 then 1 else 2 * Pow2(bits - 1)
  }

  lemma XorHalves(a: nat, b: nat)
    ensures Xor(a, b) / 2 == Xor(a / 2, b / 2) && Xor(a, b) % 2 == BitXor(a % 2, b % 2)
    ensures Xor(a, b) == 2 * Xor(a / 2, b / 2) + BitXor(a % 2, b % 2)
  {
    assert Xor(a, b) == 2 * Xor(a / 2, b / 2) + BitXor(a % 2, b % 2);
  }

  lemma {:induction false} XorAssociates(a: nat, b: nat, c: nat)
    ensures Xor(Xor(a, b), c) == Xor(a, Xor(b, c))
    decreases a + b + c
  {
    if a + b + c > 0 {
      XorAssociates(a / 2, b / 2, c / 2);
      SameBits(a, b, c);
    }
  }

  lemma SameBits(a: nat, b: nat, c: nat)
    requires Xor(Xor(a / 2, b / 2), c / 2) == Xor(a / 2, Xor(b / 2, c / 2))
    ensures Xor(Xor(a, b), c) == Xor(a, Xor(b, c))
  {
    hide Xor, BitXor;
    XorHalves(a, b);
    XorHalves(b, c);
    XorHalves(Xor(a, b), c);
    XorHalves(a, Xor(b, c));
    BitXorAssociates(a % 2, b % 2, c % 2);
  }

  lemma BitXorAssociates(i: nat, j: nat, k: nat)
    requires i < 2 && j < 2 && k < 2
    ensures BitXor(BitXor(i, j), k) == BitXor(i, BitXor(j, k))
  {
  }

  lemma {:induction false} XorCancels(a: nat)
    ensures Xor(a, a) == 0 && Xor(0, a) == a == Xor(a, 0)
    decreases a
  {
    if a > 0 {
      XorCancels(a / 2);
    }
  }

  lemma {:induction false} ShiftOfXor(a: nat, b: nat, bits: nat)
    ensures ShiftRight(Xor(a, b), bits) == Xor(ShiftRight(a, bits), ShiftRight(b, bits))
    decreases bits
  {
    if bits > 0 {
      XorHalves(a, b);
      ShiftOfXor(a / 2, b / 2, bits - 1);
    }
  }

  lemma {:induction false} ShiftTwice(a: nat, s: nat, t: nat)
    ensures ShiftRight(ShiftRight(a, s), t) == ShiftRight(a, s + t)
    decreases s
  {
    if s > 0 {
      ShiftTwice(a / 2, s - 1, t);
    }
  }

  lemma {:induction false} ShiftedOut(a: nat, bits: nat)
    requires a < Pow2(bits)
    ensures ShiftRight(a, bits) == 0
    decreases bits
  {
    if bits > 0 {
      ShiftedOut(a / 2, bits - 1);
    }
  }

  lemma {:induction false} PowGrows(s: nat, t: nat)
    requires s <= t
    ensures Pow2(s) <= Pow2(t)
    decreases t
  {
    if s < t {
      PowGrows(s, t - 1);
    }
  }

  lemma {:induction false} XorStaysBelow(a: nat, b: nat, bits: nat)
    requires a < Pow2(bits) && b < Pow2(bits)
    ensures Xor(a, b) < Pow2(bits)
    decreases bits
  {
    if bits > 0 {
      XorStaysBelow(a / 2, b / 2, bits - 1);
      XorHalves(a, b);
    }
  }

  lemma {:induction false} ShiftStaysBelow(a: nat, s: nat)
    ensures ShiftRight(a, s) <= a
    decreases s
  {
    if s > 0 {
      ShiftStaysBelow(a / 2, s - 1);
    }
  }

  /** A number is its low bits and the rest. */
  lemma {:induction false} LowAndRest(a: nat, b: nat, bits: nat)
    requires Low(a, bits) == Low(b, bits) && ShiftRight(a, bits) == ShiftRight(b, bits)
    ensures a == b
    decreases bits
  {
    if bits > 0 {
      LowAndRest(a / 2, b / 2, bits - 1);
    }
  }

  lemma Pow2Of64()
    ensures Pow2(64) == TWO_TO_64
  {
    assert Pow2(8) == 256;
    PowAdds(8, 8);
    PowAdds(16, 16);
    PowAdds(32, 32);
  }

  lemma {:induction false} PowAdds(s: nat, t: nat)
    ensures Pow2(s + t) == Pow2(s) * Pow2(t)
    decreases s
  {
    if s > 0 {
      PowAdds(s - 1, t);
    }
  }

  // ---- One round ------------------------------------------------------------

  lemma ShiftedXorIsAWord(x: Word, y: Word, s: nat)
    ensures Xor(x, ShiftRight(y, s)) < TWO_TO_64
  {
    hide Xor, ShiftRight, Pow2;
    Pow2Of64();
    ShiftStaysBelow(y, s);
    XorStaysBelow(x, ShiftRight(y, s), 64);
  }

  /** x ^ (x >> s). */
  function XorShift(x: Word, s: nat): Word {
    ShiftedXorIsAWord(x, x, s);
    Xor(x, ShiftRight(x, s))
  }

  /** Undoes a shift of at least a third of the word. */
  function UnXorShift(z: Word, s: nat): Word {
    ShiftedXorIsAWord(z, z, s);
    ShiftedXorIsAWord(Xor(z, ShiftRight(z, s)), z, 2 * s);
    Xor(Xor(z, ShiftRight(z, s)), ShiftRight(z, 2 * s))
  }

  /** z ^ (z >> s) ^ (z >> 2s) undoes x ^ (x >> s), since what is shifted out
      three times over is gone. */
  lemma XorShiftUndone(x: Word, s: nat)
    requires 3 * s >= 64
    ensures UnXorShift(XorShift(x, s), s) == x
  {
    hide Xor, ShiftRight, Pow2;
    var a, b, c := ShiftRight(x, s), ShiftRight(x, 2 * s), ShiftRight(x, 3 * s);
    var z := Xor(x, a);
    ShiftTwice(x, s, s);
    ShiftTwice(x, s, 2 * s);
    ShiftOfXor(x, a, s);
    ShiftOfXor(x, a, 2 * s);
    assert ShiftRight(z, s) == Xor(a, b) && ShiftRight(z, 2 * s) == Xor(b, c);
    Pow2Of64();
    PowGrows(64, 3 * s);
    ShiftedOut(x, 3 * s);
    XorCancels(b);
    XorCancels(a);
    XorCancels(x);
    XorAssociates(x, a, Xor(a, b));
    XorAssociates(a, a, b);
    XorAssociates(x, b, b);
  }

  /** And the other way round. */
  lemma XorShiftRedone(z: Word, s: nat)
    requires 3 * s >= 64
    ensures XorShift(UnXorShift(z, s), s) == z
  {
    hide Xor, ShiftRight, Pow2;
    var a, b, c := ShiftRight(z, s), ShiftRight(z, 2 * s), ShiftRight(z, 3 * s);
    var y := Xor(z, a);
    ShiftTwice(z, s, s);
    ShiftTwice(z, 2 * s, s);
    ShiftOfXor(z, a, s);
    ShiftOfXor(y, b, s);
    Pow2Of64();
    PowGrows(64, 3 * s);
    ShiftedOut(z, 3 * s);
    XorCancels(Xor(a, b));
    XorCancels(z);
    XorAssociates(z, a, b);
    assert ShiftRight(Xor(y, b), s) == Xor(Xor(a, b), c) == Xor(a, b) by { XorCancels(Xor(a, b)); }
    XorAssociates(z, Xor(a, b), Xor(a, b));
  }

  // ---- Multiplication -------------------------------------------------------

  function Times(x: nat, factor: nat): Word {
    (x * factor) % TWO_TO_64
  }

  lemma WrapOnce(k: int, r: nat)
    ensures (k * TWO_TO_64 + r) % TWO_TO_64 == r % TWO_TO_64
  {
  }

  /** A factor with an inverse modulo 2^64 loses nothing. */
  lemma TimesUndone(x: Word, factor: nat, inverse: nat, k: nat)
    requires factor * inverse == k * TWO_TO_64 + 1
    ensures Times(Times(x, factor), inverse) == x
  {
    var q := (x * factor) / TWO_TO_64;
    var r := Times(x, factor);
    assert x * factor == q * TWO_TO_64 + r;
    assert r * inverse == (x * k - q * inverse) * TWO_TO_64 + x by {
      assert r == x * factor - q * TWO_TO_64;
      assert r * inverse == x * factor * inverse - q * TWO_TO_64 * inverse;
      assert x * factor * inverse == x * (factor * inverse) == x * (k * TWO_TO_64 + 1);
    }
    WrapOnce(x * k - q * inverse, x);
  }

  // ---- The hash -------------------------------------------------------------

  /** The word of a signed integer. */
  function WordOf(part: Int64): Word {
    part % TWO_TO_64
  }

  function Absorb(x: Word, part: Int64): Word {
    (x + Times(WordOf(part), GAMMA)) % TWO_TO_64
  }

  function Mix(x: Word): Word {
    XorShift(Times(XorShift(Times(XorShift(x, 30), FIRST), 27), SECOND), 31)
  }

  function Unmix(z: Word): Word {
    UnXorShift(Times(UnXorShift(Times(UnXorShift(z, 31), SECOND_INVERSE), 27), FIRST_INVERSE), 30)
  }

  function Round(x: Word, part: Int64): Word {
    Mix(Absorb(x, part))
  }

  function Unround(z: Word, part: Int64): Word {
    (Unmix(z) + TWO_TO_64 - Times(WordOf(part), GAMMA)) % TWO_TO_64
  }

  function Hash(seed: Int64, parts: seq<Int64>): Word {
    if parts == [] then (WordOf(seed) + GAMMA) % TWO_TO_64
    else Round(Hash(seed, parts[..|parts| - 1]), parts[|parts| - 1])
  }

  /** The source's loop over its accumulator. */
  method ComputeHash(seed: Int64, parts: seq<Int64>) returns (x: Word)
    ensures x == Hash(seed, parts)
  {
    hide XorShift, Times, WordOf;
    x := (WordOf(seed) + GAMMA) % TWO_TO_64;
    for i := 0 to |parts|
      invariant x == Hash(seed, parts[..i])
    {
      assert parts[..i + 1][..i] == parts[..i];
      x := (x + Times(WordOf(parts[i]), GAMMA)) % TWO_TO_64;
      x := XorShift(x, 30);
      x := Times(x, FIRST);
      x := XorShift(x, 27);
      x := Times(x, SECOND);
      x := XorShift(x, 31);
    }
    assert parts[..|parts|] == parts;
  }

  lemma MixIsABijection(x: Word)
    ensures Unmix(Mix(x)) == x && Mix(Unmix(x)) == x
  {
    hide XorShift, UnXorShift, Times;
    var a := XorShift(x, 30);
    var b := Times(a, FIRST);
    var c := XorShift(b, 27);
    var d := Times(c, SECOND);
    XorShiftUndone(d, 31);
    TimesUndone(c, SECOND, SECOND_INVERSE, 2077064247507883091);
    XorShiftUndone(b, 27);
    TimesUndone(a, FIRST, FIRST_INVERSE, 8125545580553827436);
    XorShiftUndone(x, 30);
    var p := UnXorShift(x, 31);
    var q := Times(p, SECOND_INVERSE);
    var r := UnXorShift(q, 27);
    var t := Times(r, FIRST_INVERSE);
    XorShiftRedone(t, 30);
    TimesUndone(r, FIRST_INVERSE, FIRST, 8125545580553827436);
    XorShiftRedone(q, 27);
    TimesUndone(p, SECOND_INVERSE, SECOND, 2077064247507883091);
    XorShiftRedone(x, 31);
  }

  /** For each part, a round is a bijection of the words. */
  lemma RoundIsABijection(x: Word, part: Int64)
    ensures Unround(Round(x, part), part) == x && Round(Unround(x, part), part) == x
  {
    hide Mix, Unmix, Times, WordOf;
    MixIsABijection(Absorb(x, part));
    MixIsABijection(x);
    MixIsABijection(Absorb(Unround(x, part), part));
  }

  /** And for each state, different parts lead to different words. */
  lemma RoundSeparatesParts(x: Word, p: Int64, q: Int64)
    requires p != q
    ensures Round(x, p) != Round(x, q)
  {
    hide Mix, Unmix, Times;
    MixIsABijection(Absorb(x, p));
    MixIsABijection(Absorb(x, q));
    TimesUndone(WordOf(p), GAMMA, GAMMA_INVERSE, 10771413168148108919);
    TimesUndone(WordOf(q), GAMMA, GAMMA_INVERSE, 10771413168148108919);
  }

  /** Tuples that differ in one position hash differently. */
  lemma {:induction false} HashSeparates(seed: Int64, a: seq<Int64>, b: seq<Int64>, k: nat)
    requires k < |a| == |b| && a[k] != b[k] && forall i | 0 <= i < |a| && i != k :: a[i] == b[i]
    ensures Hash(seed, a) != Hash(seed, b)
    decreases |a|
  {
    hide Round;
    var n := |a| - 1;
    var x, y := Hash(seed, a[..n]), Hash(seed, b[..n]);
    if k == n {
      assert a[..n] == b[..n];
      RoundSeparatesParts(x, a[n], b[n]);
    } else {
      HashSeparates(seed, a[..n], b[..n], k);
      RoundIsABijection(x, a[n]);
      RoundIsABijection(y, a[n]);
    }
  }
}
