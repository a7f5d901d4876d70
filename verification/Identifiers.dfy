/** The identifiers the generator derives from its hash, and why no two of them
    are the same. */
module Identifiers {
  import opened Texts
  import opened HashIds

  // ---- Numerals -------------------------------------------------------------

  const DIGITS := "0123456789ABCDEF"

  function Decimal(n: nat): string {
    if n < 10 then [DIGITS[n]] else Decimal(n / 10) + [DIGITS[n % 10]]
  }

  /** The lowest `width` hexadecimal digits, zeros included. */
  function Hex(n: nat, width: nat): string {
    if width == 0 then "" else Hex(n / 16, width - 1) + [DIGITS[n % 16]]
  }

  lemma DigitsDiffer(i: nat, j: nat)
    requires i < 16 && j < 16 && DIGITS[i] == DIGITS[j]
    ensures i == j && DIGITS[i] != '-'
  {
  }

  lemma {:induction false} DecimalIsInjective(n: nat, m: nat)
    requires Decimal(n) == Decimal(m)
    ensures n == m
    decreases n + m
  {
    var s, t := Decimal(n), Decimal(m);
    DecimalLength(n);
    DecimalLength(m);
    assert s[|s| - 1] == DIGITS[n % 10] && t[|t| - 1] == DIGITS[m % 10];
    DigitsDiffer(n % 10, m % 10);
    if n >= 10 && m >= 10 {
      assert s[..|s| - 1] == Decimal(n / 10) && t[..|t| - 1] == Decimal(m / 10);
      DecimalIsInjective(n / 10, m / 10);
    }
  }

  lemma DecimalLength(n: nat)
    ensures |Decimal(n)| >= 1 && (|Decimal(n)| == 1 <==> n < 10)
  {
  }

  lemma HexLast(n: nat, width: nat)
    requires width > 0
    ensures var s := Hex(n, width);
            |s| > 0 && s[|s| - 1] == DIGITS[n % 16] && s[..|s| - 1] == Hex(n / 16, width - 1)
  {
  }

  lemma QuotientStaysBelow(n: nat, width: nat)
    requires width > 0 && n < Pow2(4 * width)
    ensures n / 16 < Pow2(4 * (width - 1))
  {
    hide Pow2;
    PowAdds(4, 4 * (width - 1));
    PowOfFour();
  }

  lemma PowOfFour()
    ensures Pow2(4) == 16
  {
  }

  lemma {:induction false} HexIsInjective(n: nat, m: nat, width: nat)
    requires Hex(n, width) == Hex(m, width) && n < Pow2(4 * width) && m < Pow2(4 * width)
    ensures n == m
    decreases width
  {
    hide Hex;
    if width > 0 {
      HexLast(n, width);
      HexLast(m, width);
      DigitsDiffer(n % 16, m % 16);
      QuotientStaysBelow(n, width);
      QuotientStaysBelow(m, width);
      HexIsInjective(n / 16, m / 16, width - 1);
    }
  }

  lemma {:induction false} DecimalHasNoDash(n: nat)
    ensures '-' !in Decimal(n)
  {
    DigitsDiffer(n % 10, n % 10);
    if n >= 10 {
      DecimalHasNoDash(n / 10);
    }
  }

  lemma {:induction false} HexHasNoDash(n: nat, width: nat)
    ensures '-' !in Hex(n, width)
    decreases width
  {
    if width > 0 {
      DigitsDiffer(n % 16, n % 16);
      HexHasNoDash(n / 16, width - 1);
    }
  }

  lemma {:induction false} LowStaysBelow(a: nat, bits: nat)
    ensures Low(a, bits) < Pow2(bits)
    decreases bits
  {
    if bits > 0 {
      LowStaysBelow(a / 2, bits - 1);
    }
  }

  lemma {:induction false} ShiftStaysBelowPower(a: nat, s: nat, t: nat)
    requires a < Pow2(s + t)
    ensures ShiftRight(a, s) < Pow2(t)
    decreases s
  {
    if s > 0 {
      ShiftStaysBelowPower(a / 2, s - 1, t);
    }
  }

  // ---- Security identifiers -------------------------------------------------

  function DomainParts(seed: Int64, d: Int64): seq<string> {
    var h := Hash(seed, [1, d]);
    ["S", "1", "5", "21", Decimal(Low(h, 32)), Decimal(Low(ShiftRight(h, 32), 32)), Decimal(Low(Hash(seed, [2, d]), 32))]
  }

  function DomainSid(seed: Int64, d: Int64): string {
    Join(DomainParts(seed, d), '-')
  }

  /** The SID of whatever holds relative id `rid` in domain `d`. */
  function Sid(seed: Int64, d: Int64, rid: nat): string {
    DomainSid(seed, d) + "-" + Decimal(rid)
  }

  lemma {:induction false} LowPlusRest(a: nat, bits: nat)
    ensures a == Low(a, bits) + Pow2(bits) * ShiftRight(a, bits)
    decreases bits
  {
    if bits > 0 {
      LowPlusRest(a / 2, bits - 1);
      assert a == 2 * (a / 2) + a % 2;
    }
  }

  lemma ThirtyTwo()
    ensures Pow2(32) == 0x1_0000_0000 && Pow2(64) == TWO_TO_64
  {
    assert Pow2(8) == 256;
    PowAdds(8, 8);
    PowAdds(16, 16);
    Pow2Of64();
  }

  /** A domain's SID is S-1-5-21-a-b-c, where b and a are the high and the low half
      of the domain's first hash, and c is the low half of its second. */
  lemma DomainSidIsOfItsHashes(seed: Int64, d: Int64) returns (a: nat, b: nat, c: nat)
    ensures DomainSid(seed, d) == "S-1-5-21-" + Decimal(a) + "-" + Decimal(b) + "-" + Decimal(c)
    ensures b < 0x1_0000_0000 && a < 0x1_0000_0000 && c < 0x1_0000_0000
    ensures 0x1_0000_0000 * b + a == Hash(seed, [1, d])
    ensures c == Hash(seed, [2, d]) % 0x1_0000_0000
  {
    hide Hash, Decimal, Low, ShiftRight, Pow2;
    var h, g := Hash(seed, [1, d]), Hash(seed, [2, d]);
    a, b, c := Low(h, 32), Low(ShiftRight(h, 32), 32), Low(g, 32);
    ThirtyTwo();
    LowStaysBelow(h, 32);
    LowStaysBelow(g, 32);
    LowStaysBelow(ShiftRight(h, 32), 32);
    LowPlusRest(h, 32);
    LowPlusRest(g, 32);
    ShiftStaysBelowPower(h, 32, 32);
    LowOfSmall(ShiftRight(h, 32), 32);
    SevenParts(Decimal(a), Decimal(b), Decimal(c));
  }

  lemma {:induction false} LowOfSmall(a: nat, bits: nat)
    requires a < Pow2(bits)
    ensures Low(a, bits) == a
    decreases bits
  {
    if bits > 0 {
      LowOfSmall(a / 2, bits - 1);
    }
  }

  lemma JoinFirst(part: string, parts: seq<string>)
    requires parts != []
    ensures Join([part] + parts, '-') == part + "-" + Join(parts, '-')
  {
    assert ([part] + parts)[1..] == parts;
  }

  lemma SevenParts(a: string, b: string, c: string)
    ensures Join(["S", "1", "5", "21", a, b, c], '-') == "S-1-5-21-" + a + "-" + b + "-" + c
  {
    hide Join;
    JoinFirst(b, [c]);
    JoinFirst(a, [b, c]);
    JoinFirst("21", [a, b, c]);
    JoinFirst("5", ["21", a, b, c]);
    JoinFirst("1", ["5", "21", a, b, c]);
    JoinFirst("S", ["1", "5", "21", a, b, c]);
    JoinLast(c);
    assert [b] + [c] == [b, c] && [a] + [b, c] == [a, b, c] && ["21"] + [a, b, c] == ["21", a, b, c];
    assert ["5"] + ["21", a, b, c] == ["5", "21", a, b, c];
    assert ["1"] + ["5", "21", a, b, c] == ["1", "5", "21", a, b, c];
    assert ["S"] + ["1", "5", "21", a, b, c] == ["S", "1", "5", "21", a, b, c];
    Dashes(a + "-" + (b + "-" + c));
    assert a + "-" + (b + "-" + c) == a + "-" + b + "-" + c;
    assert "S-1-5-21-" + (a + "-" + b + "-" + c) == "S-1-5-21-" + a + "-" + b + "-" + c;
  }

  lemma JoinLast(c: string)
    ensures Join([c], '-') == c
  {
  }

  lemma Dashes(rest: string)
    ensures "S" + "-" + ("1" + "-" + ("5" + "-" + ("21" + "-" + rest))) == "S-1-5-21-" + rest
  {
  }

  lemma DomainPartsHaveNoDash(seed: Int64, d: Int64)
    ensures forall part | part in DomainParts(seed, d) :: '-' !in part
  {
    hide Hash, Low, ShiftRight, Decimal;
    var h := Hash(seed, [1, d]);
    DecimalHasNoDash(Low(h, 32));
    DecimalHasNoDash(Low(ShiftRight(h, 32), 32));
    DecimalHasNoDash(Low(Hash(seed, [2, d]), 32));
  }

  /** A 64-bit hash is its two 32-bit halves. */
  lemma HalvesDecide(h: Word, k: Word)
    requires Low(h, 32) == Low(k, 32) && Low(ShiftRight(h, 32), 32) == Low(ShiftRight(k, 32), 32)
    ensures h == k
  {
    hide Low, ShiftRight, Pow2;
    Pow2Of64();
    ShiftTwice(h, 32, 32);
    ShiftTwice(k, 32, 32);
    ShiftedOut(h, 64);
    ShiftedOut(k, 64);
    LowAndRest(ShiftRight(h, 32), ShiftRight(k, 32), 32);
    LowAndRest(h, k, 32);
  }

  /** Different domains have different parts. */
  lemma DomainPartsDiffer(seed: Int64, d: Int64, e: Int64)
    requires d != e
    ensures DomainParts(seed, d) != DomainParts(seed, e)
  {
    hide Hash, Low, ShiftRight, Decimal;
    var h, k := Hash(seed, [1, d]), Hash(seed, [1, e]);
    HashSeparates(seed, [1, d], [1, e], 1);
    if DomainParts(seed, d) == DomainParts(seed, e) {
      assert DomainParts(seed, d)[4] == DomainParts(seed, e)[4] && DomainParts(seed, d)[5] == DomainParts(seed, e)[5];
      DecimalIsInjective(Low(h, 32), Low(k, 32));
      DecimalIsInjective(Low(ShiftRight(h, 32), 32), Low(ShiftRight(k, 32), 32));
      HalvesDecide(h, k);
      assert false;
    }
  }

  lemma DomainSidsDiffer(seed: Int64, d: Int64, e: Int64)
    requires d != e
    ensures DomainSid(seed, d) != DomainSid(seed, e)
  {
    hide DomainParts;
    DomainPartsDiffer(seed, d, e);
    DomainPartsHaveNoDash(seed, d);
    DomainPartsHaveNoDash(seed, e);
    DomainPartsAreSome(seed, d);
    DomainPartsAreSome(seed, e);
    SplitJoin(DomainParts(seed, d), '-');
    SplitJoin(DomainParts(seed, e), '-');
  }

  lemma DomainPartsAreSome(seed: Int64, d: Int64)
    ensures DomainParts(seed, d) != []
  {
  }

  lemma SidParts(seed: Int64, d: Int64, rid: nat)
    ensures Split(Sid(seed, d, rid), '-') == DomainParts(seed, d) + [Decimal(rid)]
  {
    hide DomainParts, Decimal, Split, Join;
    DomainPartsHaveNoDash(seed, d);
    DomainPartsAreSome(seed, d);
    DecimalHasNoDash(rid);
    JoinMore(DomainParts(seed, d), '-', Decimal(rid));
    SplitJoin(DomainParts(seed, d) + [Decimal(rid)], '-');
  }

  /** A SID decides its domain and its relative id. */
  lemma SidsDiffer(seed: Int64, d: Int64, rid: nat, e: Int64, other: nat)
    requires d != e || rid != other
    ensures Sid(seed, d, rid) != Sid(seed, e, other)
  {
    hide DomainParts, Decimal, Split, Join, Sid;
    SidParts(seed, d, rid);
    SidParts(seed, e, other);
    if Sid(seed, d, rid) == Sid(seed, e, other) {
      var a, b := DomainParts(seed, d) + [Decimal(rid)], DomainParts(seed, e) + [Decimal(other)];
      assert a[..|a| - 1] == DomainParts(seed, d) && b[..|b| - 1] == DomainParts(seed, e);
      if d != e {
        DomainPartsDiffer(seed, d, e);
      } else {
        assert a[|a| - 1] == b[|b| - 1];
        DecimalIsInjective(rid, other);
      }
      assert false;
    }
  }

  const GROUP_BASE := 1_000
  const USER_BASE := 100_000_000
  const COMPUTER_BASE := 200_000_000

  datatype Principal = WellKnown(rid: nat) | Group(index: nat) | User(index: nat) | Computer(index: nat) {
    /** The class is no larger than its range of relative ids. */
    predicate InRange() {
      match this
      case WellKnown(rid) => rid < GROUP_BASE
      case Group(i) => GROUP_BASE + i < USER_BASE
      case User(i) => USER_BASE + i < COMPUTER_BASE
      case Computer(_) => true
    }

    function Rid(): nat {
      match this
      case WellKnown(rid) => rid
      case Group(i) => GROUP_BASE + i
      case User(i) => USER_BASE + i
      case Computer(i) => COMPUTER_BASE + i
    }
  }

  /** Every principal of every domain has a SID of its own. */
  lemma PrincipalsDiffer(seed: Int64, d: Int64, p: Principal, e: Int64, q: Principal)
    requires p.InRange() && q.InRange() && (d != e || p != q)
    ensures Sid(seed, d, p.Rid()) != Sid(seed, e, q.Rid())
  {
    SidsDiffer(seed, d, p.Rid(), e, q.Rid());
  }

  /** A class that outgrows its range runs into the next one. */
  lemma OutOfRangeCollides(seed: Int64, d: Int64)
    ensures Sid(seed, d, Group(USER_BASE - GROUP_BASE).Rid()) == Sid(seed, d, User(0).Rid())
  {
  }

  // ---- Object identifiers ---------------------------------------------------

  function GuidParts(h: Word, k: Word): seq<string> {
    [Hex(ShiftRight(h, 32), 8), Hex(Low(ShiftRight(h, 16), 16), 4), Hex(Low(h, 16), 4),
     Hex(ShiftRight(k, 48), 4), Hex(Low(k, 48), 12)]
  }

  function Guid(seed: Int64, kind: Int64, d: Int64, i: Int64): string {
    Join(GuidParts(Hash(seed, [3, kind, d, i]), Hash(seed, [4, kind, d, i])), '-')
  }

  lemma FourBits(n: nat, bits: nat)
    ensures ShiftRight(n, bits + 4) == ShiftRight(n / 16, bits)
    ensures Low(n, bits + 4) / 16 == Low(n / 16, bits) && Low(n, bits + 4) % 16 == n % 16
  {
    hide ShiftRight, Low;
    ShiftRightOne(n, bits + 4);
    ShiftRightOne(n / 2, bits + 3);
    ShiftRightOne(n / 4, bits + 2);
    ShiftRightOne(n / 8, bits + 1);
  }

  lemma ShiftRightOne(n: nat, bits: nat)
    requires bits > 0
    ensures ShiftRight(n, bits) == ShiftRight(n / 2, bits - 1)
    ensures Low(n, bits) == 2 * Low(n / 2, bits - 1) + n % 2
  {
  }

  /** Digits split where their bits do. */
  lemma {:induction false} HexSplits(n: nat, high: nat, low: nat)
    ensures Hex(n, high + low) == Hex(ShiftRight(n, 4 * low), high) + Hex(Low(n, 4 * low), low)
    decreases low
  {
    hide ShiftRight, Low;
    if low == 0 {
      NoBits(n);
    } else {
      HexSplits(n / 16, high, low - 1);
      FourBits(n, 4 * (low - 1));
      assert Hex(n, high + low) == Hex(n / 16, high + low - 1) + [DIGITS[n % 16]];
    }
  }

  lemma NoBits(n: nat)
    ensures ShiftRight(n, 0) == n
  {
  }

  /** Its dashes apart, a GUID is the digits of its two hashes. */
  lemma GuidIsOfItsHashes(h: Word, k: Word)
    ensures
      var p := GuidParts(h, k);
      && |p| == 5 && p[0] + p[1] + p[2] == Hex(h, 16) && p[3] + p[4] == Hex(k, 16)
      && |p[0]| == 8 && |p[1]| == |p[2]| == |p[3]| == 4 && |p[4]| == 12
  {
    hide Hex, Low, ShiftRight;
    HexSplits(h, 12, 4);
    HexSplits(ShiftRight(h, 16), 8, 4);
    ShiftTwice(h, 16, 16);
    HexSplits(k, 4, 12);
    HexLength(ShiftRight(h, 32), 8);
    HexLength(Low(ShiftRight(h, 16), 16), 4);
    HexLength(Low(h, 16), 4);
    HexLength(ShiftRight(k, 48), 4);
    HexLength(Low(k, 48), 12);
  }

  lemma {:induction false} HexLength(n: nat, width: nat)
    ensures |Hex(n, width)| == width
    decreases width
  {
    if width > 0 {
      HexLength(n / 16, width - 1);
    }
  }

  lemma GuidPartsHaveNoDash(h: Word, k: Word)
    ensures forall part | part in GuidParts(h, k) :: '-' !in part
  {
    hide Hex, Low, ShiftRight;
    HexHasNoDash(ShiftRight(h, 32), 8);
    HexHasNoDash(Low(ShiftRight(h, 16), 16), 4);
    HexHasNoDash(Low(h, 16), 4);
    HexHasNoDash(ShiftRight(k, 48), 4);
    HexHasNoDash(Low(k, 48), 12);
  }

  /** The first three groups of digits give the first hash back. */
  lemma GuidPartsDecide(h: Word, k: Word, h2: Word, k2: Word)
    requires GuidParts(h, k) == GuidParts(h2, k2)
    ensures h == h2
  {
    hide Hex, Low, ShiftRight, Pow2;
    var a, b := GuidParts(h, k), GuidParts(h2, k2);
    assert a[0] == b[0] && a[1] == b[1] && a[2] == b[2];
    Pow2Of64();
    forall w: Word
      ensures ShiftRight(w, 32) < Pow2(4 * 8) && Low(ShiftRight(w, 16), 16) < Pow2(4 * 4) && Low(w, 16) < Pow2(4 * 4)
    {
      ShiftStaysBelowPower(w, 32, 32);
      LowStaysBelow(ShiftRight(w, 16), 16);
      LowStaysBelow(w, 16);
    }
    HexIsInjective(ShiftRight(h, 32), ShiftRight(h2, 32), 8);
    HexIsInjective(Low(ShiftRight(h, 16), 16), Low(ShiftRight(h2, 16), 16), 4);
    HexIsInjective(Low(h, 16), Low(h2, 16), 4);
    ShiftTwice(h, 16, 16);
    ShiftTwice(h2, 16, 16);
    LowAndRest(ShiftRight(h, 16), ShiftRight(h2, 16), 16);
    LowAndRest(h, h2, 16);
  }

  /** Objects of one kind and domain have GUIDs of their own. */
  lemma GuidsDiffer(seed: Int64, kind: Int64, d: Int64, i: Int64, j: Int64)
    requires i != j
    ensures Guid(seed, kind, d, i) != Guid(seed, kind, d, j)
  {
    hide Hash, GuidParts;
    var h, k := Hash(seed, [3, kind, d, i]), Hash(seed, [4, kind, d, i]);
    var h2, k2 := Hash(seed, [3, kind, d, j]), Hash(seed, [4, kind, d, j]);
    HashSeparates(seed, [3, kind, d, i], [3, kind, d, j], 3);
    GuidPartsHaveNoDash(h, k);
    GuidPartsHaveNoDash(h2, k2);
    GuidPartsAreSome(h, k);
    GuidPartsAreSome(h2, k2);
    SplitJoin(GuidParts(h, k), '-');
    SplitJoin(GuidParts(h2, k2), '-');
    if Guid(seed, kind, d, i) == Guid(seed, kind, d, j) {
      GuidPartsDecide(h, k, h2, k2);
      assert false;
    }
  }

  lemma GuidPartsAreSome(h: Word, k: Word)
    ensures GuidParts(h, k) != []
  {
  }
}
