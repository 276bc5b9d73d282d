/** The conversion of integers to IEEE 754 doubles, as far as range tests depend on it: 53
    significant bits, to the nearest, ties to even. */
module Doubles {

  const SIGNIFICAND: int := 0x20_0000_0000_0000

  /** The spacing of doubles at a magnitude: the least of `u`, 2u, 4u, ... that leaves 53 bits. */
  function SpacingFrom(m: nat, u: nat): nat
    requires u > 0
    decreases m - u
  {
    if m < SIGNIFICAND * u then u else SpacingFrom(m, 2 * u)
  }

  /** To the nearer end of an interval; a tie goes to the end with the even multiple. */
  function Between(m: nat, low: nat, u: nat, even: bool): nat
    requires low <= m
  {
    if 2 * (m - low) < u || (2 * (m - low) == u && even) then low else low + u
  }

  function RoundTo(m: nat, u: nat): nat
    requires u > 0
  {
    Divides(m, u);
    Between(m, (m / u) * u, u, (m / u) % 2 == 0)
  }

  lemma {:induction false} SpacingPositive(m: nat, u: nat)
    requires u > 0
    ensures SpacingFrom(m, u) > 0
    decreases m - u
  {
    if m >= SIGNIFICAND * u { SpacingPositive(m, 2 * u); }
  }

  function Rounded(m: nat): nat {
    SpacingPositive(m, 1);
    RoundTo(m, SpacingFrom(m, 1))
  }

  function AsF64(n: int): int {
    if n < 0 then -(Rounded(-n) as int) else Rounded(n)
  }

  // ---------------------------------------------------------------- it is the nearest double

  ghost predicate IsPowerOfTwo(u: nat) {
    u == 1 || (u > 1 && u % 2 == 0 && IsPowerOfTwo(u / 2))
  }

  /** A whole number with at most 53 significant bits. */
  ghost predicate Representable(x: nat) {
    exists e: nat :: IsPowerOfTwo(e) && x % e == 0 && x / e < SIGNIFICAND
  }

  ghost predicate IsSpacing(m: nat, w: nat) {
    IsPowerOfTwo(w) && m < SIGNIFICAND * w && (w == 1 || SIGNIFICAND * w <= 2 * m)
  }

  lemma {:induction false} SpacingIs(m: nat, u: nat)
    requires IsPowerOfTwo(u) && u > 0 && (u == 1 || SIGNIFICAND * u <= 2 * m)
    ensures IsSpacing(m, SpacingFrom(m, u))
    decreases m - u
  {
    if m >= SIGNIFICAND * u {
      assert (2 * u) / 2 == u && (2 * u) % 2 == 0;
      SpacingIs(m, 2 * u);
    }
  }

  lemma {:induction false} PowersDivide(a: nat, b: nat)
    requires IsPowerOfTwo(a) && IsPowerOfTwo(b) && a <= b
    ensures b % a == 0
  {
    if a > 1 {
      PowersDivide(a / 2, b / 2);
      var c := (b / 2) / (a / 2);
      assert b / 2 == c * (a / 2);
      assert b == c * a;
      MultipleHasNoRest(c, a);
    }
  }

  lemma MultipleHasNoRest(c: nat, a: nat)
    requires a > 0
    ensures (c * a) % a == 0 && (c * a) / a == c
  {
    DivUnique(c * a, a, c, 0);
  }

  lemma {:induction false} Grows(a: int, b: int, u: nat)
    requires a < b
    ensures a * u + u <= b * u
    decreases b - a
  {
    Next(b - 1, u);
    if a < b - 1 { Grows(a, b - 1, u); }
  }

  lemma DivUnique(m: int, u: nat, q: int, r: nat)
    requires u > 0 && m == q * u + r && r < u
    ensures m / u == q && m % u == r
  {
    var q' := m / u;
    assert m == q' * u + m % u;
    if q' > q { Grows(q, q', u); }
    if q' < q { Grows(q', q, u); }
  }

  lemma Divides(m: nat, u: nat)
    requires u > 0
    ensures (m / u) * u <= m < (m / u) * u + u
  {
    assert m == (m / u) * u + m % u;
  }

  lemma BetweenNearest(m: nat, low: nat, u: nat, even: bool, x: nat)
    requires low <= m < low + u && (x <= low || x >= low + u)
    ensures Distance(m, Between(m, low, u, even)) <= Distance(m, x)
  {
  }

  /** No multiple of the spacing is nearer than the rounded one. */
  lemma RoundToNearest(m: nat, u: nat, c: nat)
    requires u > 0
    ensures Distance(m, RoundTo(m, u)) <= Distance(m, c * u)
  {
    Divides(m, u);
    NoneBetween(m / u, c, u);
    BetweenNearest(m, (m / u) * u, u, (m / u) % 2 == 0, c * u);
  }

  lemma NoneBetween(q: nat, c: nat, u: nat)
    ensures c * u <= q * u || c * u >= q * u + u
  {
    if c < q { Grows(c, q, u); } else if c > q { Grows(q, c, u); }
  }

  lemma Next(q: int, u: nat)
    ensures (q + 1) * u == q * u + u
  {
  }

  function Distance(a: int, b: int): int { if a < b then b - a else a - b }

  /** A representable number that is not below the finest multiples is a multiple of the spacing. */
  lemma CoarseIsMultiple(m: nat, w: nat, x: nat, e: nat)
    requires IsSpacing(m, w) && IsPowerOfTwo(e) && x % e == 0 && x / e < SIGNIFICAND && SIGNIFICAND * w <= 2 * x
    ensures x % w == 0
  {
    NotFiner(w, x, e);
    PowersDivide(w, e);
    var c, d := x / e, e / w;
    assert x == c * e && e == d * w;
    assert x == (c * d) * w by { Regroup(c, d, w); }
    MultipleHasNoRest(c * d, w);
  }

  lemma NotFiner(w: nat, x: nat, e: nat)
    requires IsPowerOfTwo(w) && IsPowerOfTwo(e) && x % e == 0 && x / e < SIGNIFICAND && SIGNIFICAND * w <= 2 * x
    ensures w <= e
  {
    if e < w { HalfFits(e, w); }
    assert x == (x / e) * e;
    Scaled(x / e, SIGNIFICAND, e);
  }

  lemma Regroup(c: nat, d: nat, w: nat)
    ensures c * (d * w) == (c * d) * w
  {
  }

  lemma Scaled(c: nat, s: nat, e: nat)
    requires c < s && e > 0
    ensures c * e < s * e
  {
    Grows(c, s, e);
  }

  lemma {:induction false} HalfFits(e: nat, w: nat)
    requires IsPowerOfTwo(e) && IsPowerOfTwo(w) && e < w
    ensures 2 * e <= w
  {
    if e > 1 { HalfFits(e / 2, w / 2); }
  }

  /** No whole number with 53 significant bits is nearer than the rounded one. */
  lemma RoundedIsNearest(m: nat, x: nat)
    requires Representable(x)
    ensures Distance(m, Rounded(m)) <= Distance(m, x)
  {
    SpacingIs(m, 1);
    var w := SpacingFrom(m, 1);
    var e: nat :| IsPowerOfTwo(e) && x % e == 0 && x / e < SIGNIFICAND;
    if w == 1 {
      RoundToNearest(m, 1, x);
    } else if SIGNIFICAND * w <= 2 * x {
      CoarseIsMultiple(m, w, x, e);
      RoundToNearest(m, w, x / w);
      assert x == (x / w) * w;
    } else {
      RoundToNearest(m, w, SIGNIFICAND / 2);
    }
  }

  lemma RoundedIsRepresentable(m: nat)
    ensures Representable(Rounded(m))
  {
    SpacingIs(m, 1);
    var w := SpacingFrom(m, 1);
    var q := m / w;
    QuotientBelow(m, w, SIGNIFICAND);
    Next(q, w);
    MultipleIsRepresentable(q, w);
    if q + 1 < SIGNIFICAND {
      MultipleIsRepresentable(q + 1, w);
    } else {
      TopIsRepresentable(w);
    }
  }

  lemma QuotientBelow(m: nat, w: nat, s: nat)
    requires w > 0 && m < s * w
    ensures m / w < s
  {
    Divides(m, w);
    if m / w >= s { Over(s, m / w, w); }
  }

  lemma TopIsRepresentable(w: nat)
    requires IsPowerOfTwo(w)
    ensures Representable(SIGNIFICAND * w)
  {
    assert (2 * w) / 2 == w && (2 * w) % 2 == 0;
    MultipleIsRepresentable(SIGNIFICAND / 2, 2 * w);
    assert SIGNIFICAND * w == (SIGNIFICAND / 2) * (2 * w);
  }

  lemma MultipleIsRepresentable(c: nat, e: nat)
    requires c < SIGNIFICAND && IsPowerOfTwo(e)
    ensures Representable(c * e)
  {
    MultipleHasNoRest(c, e);
  }

  lemma Over(a: nat, b: nat, u: nat)
    requires a <= b
    ensures a * u <= b * u
  {
    if a < b { Grows(a, b, u); }
  }

  // ---------------------------------------------------------------- the values range tests use

  /** Numbers below 53 bits are converted exactly. */
  lemma ExactBelow53Bits(n: int)
    requires -SIGNIFICAND < n < SIGNIFICAND
    ensures AsF64(n) == n
  {
    Units(if n < 0 then -n else n);
  }

  lemma Units(m: nat)
    requires m < SIGNIFICAND
    ensures Rounded(m) == m
  {
    assert m / 1 == m && m % 1 == 0;
  }

  const TWO63: int := 0x8000_0000_0000_0000
  const TWO64: int := 0x1_0000_0000_0000_0000

  lemma {:induction false} SpacingSkips(m: nat, u: nat)
    requires u > 0 && SIGNIFICAND * u <= m
    ensures SpacingFrom(m, u) == SpacingFrom(m, 2 * u)
  {
  }

  /** From two to the 63rd on doubles are 2048 apart; just below they are 1024 apart. */
  lemma SpacingAt63(m: nat)
    ensures TWO63 / 2 <= m < TWO63 ==> SpacingFrom(m, 1) == 1024
    ensures TWO63 <= m < TWO64 ==> SpacingFrom(m, 1) == 2048
    ensures TWO64 <= m < 2 * TWO64 ==> SpacingFrom(m, 1) == 4096
  {
    if m >= TWO63 / 2 {
      SpacingSkips(m, 1);
      SpacingSkips(m, 2);
      SpacingSkips(m, 4);
      SpacingSkips(m, 8);
      SpacingSkips(m, 16);
      SpacingSkips(m, 32);
      SpacingSkips(m, 64);
      SpacingSkips(m, 128);
      SpacingSkips(m, 256);
      SpacingSkips(m, 512);
      if m >= TWO63 { SpacingSkips(m, 1024); }
      if m >= TWO64 { SpacingSkips(m, 2048); }
    }
  }

  lemma LargeStaysLarge(m: nat)
    requires SIGNIFICAND <= m
    ensures 2 * Rounded(m) >= SIGNIFICAND * SpacingFrom(m, 1)
    ensures m < SIGNIFICAND * SpacingFrom(m, 1)
  {
    SpacingIs(m, 1);
    var w := SpacingFrom(m, 1);
    var q := m / w;
    Divides(m, w);
    Next(q, w);
    if 2 * q < SIGNIFICAND { Over(q + 1, SIGNIFICAND / 2, w); } else { Over(SIGNIFICAND / 2, q, w); }
  }

  /** What is converted to exactly two to the 63rd, among the numbers from there on. */
  lemma RoundsTo63(m: nat)
    requires TWO63 <= m
    ensures Rounded(m) >= TWO63
    ensures Rounded(m) == TWO63 <==> m <= TWO63 + 1024
  {
    SpacingAt63(m);
    if m < TWO64 { RoundAt(m, 2048); } else { LargeStaysLarge(m); }
  }

  lemma RoundsTo64(m: nat)
    requires TWO64 <= m
    ensures Rounded(m) >= TWO64
    ensures Rounded(m) == TWO64 <==> m <= TWO64 + 2048
  {
    SpacingAt63(m);
    if m < 2 * TWO64 { RoundAt(m, 4096); } else { LargeStaysLarge(m); }
  }

  lemma RoundAt(m: nat, u: nat)
    requires u > 0 && SpacingFrom(m, 1) == u && m / u <= SIGNIFICAND
    ensures Rounded(m) == RoundTo(m, u)
  {
  }

  /** The largest 64-bit numbers are converted to the power of two above them. */
  lemma LargestRoundUp()
    ensures AsF64(TWO63 - 1) == TWO63 && AsF64(TWO64 - 1) == TWO64
  {
    SpacingAt63(TWO63 - 1);
    SpacingAt63(TWO64 - 1);
  }

  lemma SmallestIsExact()
    ensures AsF64(-TWO63) == -TWO63
  {
    RoundsTo63(TWO63);
  }
}
