/** Q16.16 division by repeated 32/32-bit division with a kick-start estimate
    (application/fix_math/fix_math.c, clz and fix16_div). */
module FixDiv {
  import opened FixWord
  import opened Words

  // ----- What fix16_div computes -----

  /** The fraction the kick-start throws away when it shifts q * divider right
      by 17; zero for dividers below 2^20, where there is no kick-start. */
  function KickLoss(n: nat, d: nat): (e: nat)
    ensures e < 0x2_0000
  {
    if d >= 0x10_0000 then ((n / (d / 0x2_0000 + 1)) * d) % 0x2_0000 else 0
  }

  function Magnitude(n: nat, d: nat): int
    requires d > 0
  {
    (n * 0x2_0000 + KickLoss(n, d)) / (2 * d)
  }

  function Signed(negative: bool, m: int): int {
    if negative then -m else m
  }

  /** The value of fix16_div(a, b). */
  function DivValue(a: int, b: int): int {
    if b == 0 || Abs(a) >= 0x8000 * Abs(b) then OVERFLOW
    else Signed((a < 0) != (b < 0), Magnitude(Abs(a), Abs(b)))
  }

  // ----- Arithmetic the proofs use -----

  lemma QuotientIs(x: int, y: int, q: int, r: int)
    requires y > 0 && x == q * y + r && 0 <= r < y
    ensures x / y == q && x % y == r
  {
    var q', r' := x / y, x % y;
    assert (q - q') * y == r' - r;
    if q > q' { MulLe(1, q - q', y); }
    if q < q' { MulLe(q - q', -1, y); }
  }

  lemma DivMod(x: nat, y: nat)
    requires y > 0
    ensures x == (x / y) * y + x % y && 0 <= x % y < y && x / y >= 0
  {
  }

  lemma CancelFactor(c: nat, d: nat, w: nat)
    requires d > 0 && w > 0
    ensures d * w > 0 && (c * w) / (d * w) == c / d
  {
    var q, r := c / d, c % d;
    DivMod(c, d);
    ScaledDivision(c, d, q, r, w);
    QuotientIs(c * w, d * w, q, r * w);
  }

  lemma ScaledDivision(c: int, d: int, q: int, r: int, w: int)
    requires c == q * d + r && 0 <= r < d && w > 0
    ensures c * w == q * (d * w) + r * w && 0 <= r * w < d * w
  {
    Assoc(q, d, w);
    MulLe(0, r, w);
    MulLe(r, d - 1, w);
  }

  lemma LessScaled(a: int, b: int, w: int)
    requires w > 0
    ensures a < b <==> a * w < b * w
  {
    if a < b { assert (b - a) * w > 0; } else { assert (a - b) * w >= 0; }
  }

  lemma Pow2Monotone(m: nat, n: nat)
    requires m <= n
    ensures Pow2(m) <= Pow2(n)
  {
    Pow2Add(m, n - m);
    assert Pow2(m) * Pow2(n - m) >= Pow2(m);
  }

  lemma Assoc(x: int, y: int, z: int)
    ensures (x * y) * z == x * (y * z)
  {
  }

  lemma Regroup(q: int, d: int, r: int, p: int)
    ensures (q * d + r) * p == (q * p) * d + r * p
  {
    assert (q * d) * p == (q * p) * d;
  }

  // ----- Count leading zeros -----

  method Clz(x: Word) returns (r: nat)
    ensures x == 0 ==> r == 32
    ensures x != 0 ==> r <= 31 && TWO_31 <= x as int * Pow2(r) < TWO_32
  {
    if x == 0 { return 32; }
    r := 0;
    var y := x;
    while y < 0x1000_0000
      invariant Shifted(x, r, y)
      decreases TWO_32 - y
    {
      ClzStep(x, r, y, 4, 16);
      r, y := r + 4, y * 16;
    }
    while y < 0x8000_0000
      invariant Shifted(x, r, y)
      decreases TWO_32 - y
    {
      ClzStep(x, r, y, 1, 2);
      r, y := r + 1, y * 2;
    }
  }

  /** `y` is `x` moved left by `r` places and is still a 32-bit word. */
  ghost predicate Shifted(x: int, r: nat, y: int) {
    1 <= y < TWO_32 && y == x * Pow2(r) && r <= 31
  }

  lemma ClzStep(x: int, r: nat, y: int, k: nat, f: int)
    requires x >= 1 && Shifted(x, r, y) && y * f < TWO_32
    requires (k == 4 && f == 16) || (k == 1 && f == 2)
    ensures Shifted(x, r + k, y * f)
  {
    Pow2Values();
    Pow2Add(r, k);
    Assoc(x, Pow2(r), f);
    MulLe(1, x, Pow2(r + k));
    if r + k >= 32 { Pow2Monotone(32, r + k); assert false; }
  }

  // ----- The shift-and-divide loop -----

  /** With `bp + 1` bits of the quotient still open, the words stand for the
      scaled numerator `c`: 2c == 2*quot*d + rem * 2^(bp+1). */
  ghost predicate Dividing(c: int, d: int, quot: int, rem: int, bp: int) {
    && d > 0 && quot >= 0 && rem >= 0 && bp >= -1
    && 2 * (quot * d) + rem * Pow2(bp + 1) == 2 * c
    && (bp == -1 ==> rem < 2 * d)
    && (c < TWO_32 * d || quot == 0)
  }

  /** Moving `shift` bits into the remainder changes nothing. */
  lemma ShiftIn(c: int, d: int, quot: int, rem: int, bp: nat, shift: nat)
    requires shift <= bp && Dividing(c, d, quot, rem, bp)
    ensures Dividing(c, d, quot, rem * Pow2(shift), bp - shift)
  {
    Pow2Add(shift, bp - shift + 1);
    Assoc(rem, Pow2(shift), Pow2(bp - shift + 1));
    MulLe(0, rem, Pow2(shift));
  }

  /** One division of the loop: `div` and `rest` are quotient and remainder of
      the shifted remainder; the overflow test decides c >= 2^32 * d. */
  lemma DivideStep(c: int, d: int, quot: int, rem: int, bp: nat, div: int, rest: int)
    requires Dividing(c, d, quot, rem, bp) && bp <= 17
    requires rem == div * d + rest && 0 <= rest < d && div >= 0
    ensures (div >= Pow2(32 - bp)) <==> c >= TWO_32 * d
    ensures c < TWO_32 * d ==>
              && 0 <= div * Pow2(bp) && quot + div * Pow2(bp) < TWO_32
              && Dividing(c, d, quot + div * Pow2(bp), 2 * rest, bp - 1)
  {
    var p, o := Pow2(bp), Pow2(32 - bp);
    Pow2Values();
    Pow2Add(bp, 32 - bp);
    assert Pow2(bp + 1) == 2 * p;
    SplitNumerator(c, d, quot, rem, p, div, rest);
    if c < TWO_32 * d {
      NoOverflow(c, d, quot, div, rest, p, o);
      NextDividing(c, d, quot + div * p, rest, bp);
    } else {
      Overflows(c, d, div, rest, p, o);
    }
    hide Pow2, Dividing;
  }

  lemma NextDividing(c: int, d: int, quot: int, rest: int, bp: nat)
    requires 0 <= rest < d && quot >= 0 && 2 * (quot * d) + (2 * rest) * Pow2(bp) == 2 * c && c < TWO_32 * d
    ensures Dividing(c, d, quot, 2 * rest, bp - 1)
  {
    hide Pow2;
  }

  lemma SplitNumerator(c: int, d: int, quot: int, rem: int, p: int, div: int, rest: int)
    requires 2 * (quot * d) + rem * (2 * p) == 2 * c && rem == div * d + rest
    ensures c == (quot + div * p) * d + rest * p
    ensures 2 * ((quot + div * p) * d) + (2 * rest) * p == 2 * c
  {
    Regroup(div, d, rest, p);
    assert rem * (2 * p) == 2 * (rem * p);
    assert (quot + div * p) * d == quot * d + (div * p) * d;
    assert (2 * rest) * p == 2 * (rest * p);
  }

  lemma NoOverflow(c: int, d: int, quot: int, div: int, rest: int, p: int, o: int)
    requires d > 0 && quot >= 0 && div >= 0 && rest >= 0 && p > 0 && p * o == TWO_32
    requires c == (quot + div * p) * d + rest * p && c < TWO_32 * d
    ensures quot + div * p < TWO_32 && div * p >= 0 && div < o
  {
    MulLe(0, rest, p);
    MulLe(0, div, p);
    LessScaled(quot + div * p, TWO_32, d);
    LessScaled(div, o, p);
    assert o * p == p * o;
  }

  lemma Overflows(c: int, d: int, div: int, rest: int, p: int, o: int)
    requires 0 <= rest < d && p > 0 && p * o == TWO_32
    requires c == (0 + div * p) * d + rest * p && c >= TWO_32 * d
    ensures div >= o
  {
    Regroup(div, d, rest, p);
    Assoc(p, o, d);
    Commutes(p, o * d);
    LessScaled(div * d + rest, o * d, p);
    AtLeast(div, d, rest, o);
  }

  lemma Commutes(x: int, y: int)
    ensures x * y == y * x
  {
  }

  lemma AtLeast(div: int, d: int, rest: int, o: int)
    requires div * d + rest >= o * d && 0 <= rest < d
    ensures div >= o
  {
    if div < o {
      MulLe(div + 1, o, d);
      assert false;
    }
  }

  /** The loop ends with the whole quotient. */
  lemma Divided(c: int, d: int, quot: int, rem: int, bp: int)
    requires Dividing(c, d, quot, rem, bp) && (rem == 0 || bp == -1)
    ensures c / d == quot
  {
    if rem == 0 {
      QuotientIs(c, d, quot, 0);
    } else {
      assert Pow2(0) == 1;
      assert rem == 2 * (c - quot * d);
      QuotientIs(c, d, quot, c - quot * d);
    }
  }

  // ----- The kick-start and the stripping of factors of sixteen -----

  lemma KickStart(n: nat, d: nat)
    requires n < TWO_31 && 0x10_0000 <= d
    ensures var q := n / (d / 0x2_0000 + 1);
            && 0 <= (q * d) / 0x2_0000 <= n
            && q * d + (n - (q * d) / 0x2_0000) * 0x2_0000 == n * 0x2_0000 + KickLoss(n, d)
  {
    var s := d / 0x2_0000 + 1;
    var q := n / s;
    assert q * s <= n;
    assert d <= s * 0x2_0000;
    MulLe(d, s * 0x2_0000, q);
    assert q * d <= q * (s * 0x2_0000) == (q * s) * 0x2_0000;
  }

  /** The scaled numerator of the loop and the numerator of Magnitude are the
      same fraction. */
  lemma SameFraction(t: nat, d: nat, quot: nat, rem: nat, divider: nat, bp: nat)
    requires bp <= 17 && divider > 0
    requires quot * d + rem * 0x2_0000 == t && d == divider * Pow2(17 - bp)
    ensures var c := quot * divider + rem * Pow2(bp);
            && c / divider / 2 == t / (2 * d)
            && (c < TWO_32 * divider <==> t < TWO_32 * d)
  {
    var c, w := quot * divider + rem * Pow2(bp), Pow2(17 - bp);
    Pow2Values();
    Pow2Add(bp, 17 - bp);
    hide Pow2;
    ScaledNumerator(t, d, quot, rem, divider, Pow2(bp), w);
    FractionOf(t, d, c, divider, w);
  }

  lemma FractionOf(t: nat, d: nat, c: nat, divider: nat, w: nat)
    requires t == c * w && d == divider * w && (2 * divider) * w == 2 * d && divider > 0 && w > 0
    ensures d > 0 && c / divider / 2 == t / (2 * d) && (c < TWO_32 * divider <==> t < TWO_32 * d)
  {
    CancelFactor(c, 2 * divider, w);
    HalfQuotient(c, divider);
    LessScaled(c, TWO_32 * divider, w);
    Assoc(TWO_32, divider, w);
  }

  lemma ScaledNumerator(t: int, d: int, quot: int, rem: int, divider: int, p: int, w: int)
    requires p * w == 0x2_0000 && d == divider * w && t == quot * d + rem * 0x2_0000
    ensures t == (quot * divider + rem * p) * w && (2 * divider) * w == 2 * d
  {
    Assoc(quot, divider, w);
    Assoc(rem, p, w);
    Assoc(2, divider, w);
  }

  lemma StartDividing(d: int, quot: int, rem: int, bp: nat)
    requires d > 0 && quot >= 0 && rem >= 0
    requires quot * d + rem * Pow2(bp) < TWO_32 * d || quot == 0
    ensures Dividing(quot * d + rem * Pow2(bp), d, quot, rem, bp)
  {
    Assoc(2, rem, Pow2(bp));
    Assoc(rem, 2, Pow2(bp));
  }

  lemma HalfQuotient(c: nat, d: nat)
    requires d > 0
    ensures c / d / 2 == c / (2 * d)
  {
    var q, r := c / d, c % d;
    var h, o := q / 2, q % 2;
    assert c == (2 * h + o) * d + r == h * (2 * d) + (o * d + r);
    QuotientIs(c, 2 * d, h, o * d + r);
  }

  /** Overflow is decided by the operands alone. */
  lemma OverflowCondition(n: nat, d: nat)
    requires n < TWO_31 && d > 0
    ensures n * 0x2_0000 + KickLoss(n, d) < TWO_32 * d <==> n < 0x8000 * d
    ensures d >= 0x10_0000 ==> n < 0x8000 * d
    ensures n < 0x8000 * d ==> Magnitude(n, d) < TWO_31
  {
    var t := n * 0x2_0000 + KickLoss(n, d);
    if n < 0x8000 * d {
      if d >= 0x10_0000 { assert t < TWO_32 * d; }
      assert t / (2 * d) * (2 * d) <= t;
      if t / (2 * d) >= TWO_31 { MulLe(TWO_31, t / (2 * d), 2 * d); assert false; }
    }
  }

  function Wrap(x: int): (r: Word)
    ensures 0 <= x < TWO_32 ==> r == x
  {
    x % TWO_32
  }

  lemma ShiftFits(x: int, shift: nat, zeros: nat)
    requires x >= 0 && shift <= zeros && x * Pow2(zeros) < TWO_32
    ensures 0 <= x * Pow2(shift) < TWO_32
  {
    Pow2Monotone(shift, zeros);
    MulLe(Pow2(shift), Pow2(zeros), x);
    MulLe(0, x, Pow2(shift));
  }

  /** Shift the remainder as far as it goes without leaving the word. */
  method ShiftUp(ghost c: int, ghost d: int, ghost quotient: int, remainder: Word, bitPos: nat)
    returns (shifted: Word, left: nat)
    requires remainder != 0 && Dividing(c, d, quotient, remainder, bitPos)
    ensures left <= bitPos && Dividing(c, d, quotient, shifted, left)
  {
    var zeros := Clz(remainder);
    var shift := if zeros > bitPos then bitPos else zeros;
    ShiftFits(remainder, shift, zeros);
    ShiftIn(c, d, quotient, remainder, bitPos, shift);
    shifted := remainder as int * Pow2(shift);
    left := bitPos - shift;
  }

  /** The division of one iteration; `overflow` is the early return. */
  method DivideOnce(ghost c: int, divider: Word, quotient: Word, remainder: Word, bitPos: nat)
    returns (quotient': Word, rest: Word, overflow: bool)
    requires 0 < divider <= TWO_31 && bitPos <= 17
    requires Dividing(c, divider, quotient, remainder, bitPos)
    ensures overflow <==> c >= TWO_32 * divider as int
    ensures !overflow ==> Dividing(c, divider, quotient', rest, bitPos - 1)
  {
    var div := remainder / divider;
    rest := remainder % divider;
    DivMod(remainder, divider);
    DivideStep(c, divider, quotient, remainder, bitPos, div, rest);
    quotient' := Wrap(quotient as int + Wrap(div as int * Pow2(bitPos)) as int);
    overflow := div >= Pow2(32 - bitPos);
    rest := rest * 2;
  }

  /** The main loop of fix16_div. */
  method DivideLoop(ghost c: int, divider: Word, quotient0: Word, remainder0: Word, bitPos0: nat)
    returns (quotient: Word, overflow: bool)
    requires 0 < divider <= TWO_31 && bitPos0 <= 17
    requires Dividing(c, divider, quotient0, remainder0, bitPos0)
    ensures overflow <==> c >= TWO_32 * divider as int
    ensures !overflow ==> quotient as int == c / divider as int
  {
    quotient, overflow := quotient0, false;
    var remainder: Word := remainder0;
    var bitPos: int := bitPos0;
    while remainder != 0 && bitPos >= 0
      invariant -1 <= bitPos <= 17
      invariant Dividing(c, divider, quotient, remainder, bitPos)
      decreases bitPos
    {
      remainder, bitPos := ShiftUp(c, divider, quotient, remainder, bitPos);
      quotient, remainder, overflow := DivideOnce(c, divider, quotient, remainder, bitPos);
      if overflow { return; }
      bitPos := bitPos - 1;
    }
    Divided(c, divider, quotient, remainder, bitPos);
  }

  /** The estimate n / ((d >> 17) + 1) for large dividers. */
  method Estimate(n: Word, d: Word) returns (quotient: Word, remainder: Word)
    requires n < TWO_31 && 0 < d < TWO_31
    ensures quotient as int * d as int + remainder as int * 0x2_0000 == n as int * 0x2_0000 + KickLoss(n, d)
    ensures d < 0x10_0000 ==> quotient == 0
  {
    quotient, remainder := 0, n;
    if d >= 0x10_0000 {
      KickStart(n, d);
      quotient := remainder / (d / 0x2_0000 + 1);
      remainder := remainder - (quotient as int * d as int) / 0x2_0000;
    }
  }

  /** While the divider is a multiple of 16, divide it and skip four bits. */
  method StripFactors(d: Word) returns (divider: Word, bitPos: nat)
    requires d > 0
    ensures 0 < divider <= d && bitPos <= 17 && d as int == divider as int * Pow2(17 - bitPos)
  {
    divider, bitPos := d, 17;
    while divider % 16 == 0 && bitPos >= 4
      invariant 0 < divider <= d && bitPos <= 17
      invariant d as int == divider as int * Pow2(17 - bitPos)
      decreases bitPos
    {
      Strip(d, divider, 17 - bitPos);
      divider, bitPos := divider / 16, bitPos - 4;
    }
  }

  /** The unsigned part of fix16_div. */
  method DivideWords(n: Word, d: Word) returns (quotient: Word, overflow: bool)
    requires n < TWO_31 && 0 < d < TWO_31
    ensures overflow <==> n as int >= 0x8000 * d as int
    ensures !overflow ==> quotient as int / 2 == Magnitude(n, d)
  {
    var estimate, remainder := Estimate(n, d);
    var divider, bitPos := StripFactors(d);
    ghost var t := n as int * 0x2_0000 + KickLoss(n, d);
    OverflowCondition(n, d);
    SameFraction(t, d, estimate, remainder, divider, bitPos);
    StartDividing(divider, estimate, remainder, bitPos);
    ghost var c := estimate as int * divider as int + remainder as int * Pow2(bitPos);
    quotient, overflow := DivideLoop(c, divider, estimate, remainder, bitPos);
  }

  lemma Strip(d: int, divider: int, k: nat)
    requires divider % 16 == 0 && d == divider * Pow2(k)
    ensures d == divider / 16 * Pow2(k + 4)
  {
    Pow2Add(k, 4);
    Pow2Values();
    assert divider / 16 * (Pow2(k) * 16) == (divider / 16 * 16) * Pow2(k);
  }

  method Div(a: Fix16, b: Fix16) returns (r: Fix16)
    requires a != OVERFLOW && b != OVERFLOW   // -INT_MIN is not an int32_t
    ensures r == DivValue(a, b)
  {
    if b == 0 { return OVERFLOW; }
    var quotient, overflow := DivideWords(Abs(a), Abs(b));
    if overflow { return OVERFLOW; }
    OverflowCondition(Abs(a), Abs(b));
    var result: int := quotient / 2;
    r := if (a < 0) != (b < 0) then -result else result;
  }

  // ----- What the quotient is -----

  /** Overflow is reported exactly when |a| >= 2^15 * |b| (or b is zero). */
  lemma DivOverflowIff(a: Fix16, b: Fix16)
    requires a != OVERFLOW && b != OVERFLOW
    ensures DivValue(a, b) == OVERFLOW <==> b == 0 || Abs(a) >= 0x8000 * Abs(b)
  {
    if b != 0 { OverflowCondition(Abs(a), Abs(b)); }
  }

  lemma MagnitudeBracket(n: nat, d: nat)
    requires d > 0
    ensures Magnitude(n, d) * (2 * d) <= n * 0x2_0000 + KickLoss(n, d) < (Magnitude(n, d) + 1) * (2 * d)
  {
    DivMod(n * 0x2_0000 + KickLoss(n, d), 2 * d);
  }

  /** The magnitude is the truncated quotient |a|*2^16/|b| exactly when the
      kick-start loss does not carry into the next unit. */
  lemma DivExactIff(n: nat, d: nat)
    requires d > 0
    ensures Magnitude(n, d) == n * 0x1_0000 / d <==> (n * 0x2_0000) % (2 * d) + KickLoss(n, d) < 2 * d
  {
    CancelFactor(n * 0x1_0000, d, 2);
    var q, r, e := (n * 0x2_0000) / (2 * d), (n * 0x2_0000) % (2 * d), KickLoss(n, d);
    DivMod(n * 0x2_0000, 2 * d);
    assert d * 2 == 2 * d && q == n * 0x1_0000 / d;
    if r + e < 2 * d {
      QuotientIs(n * 0x2_0000 + e, 2 * d, q, r + e);
    } else {
      MagnitudeBracket(n, d);
    }
  }

  /** Below 2^20 there is no kick-start, so the quotient is exact. */
  lemma DivExactSmall(a: Fix16, b: Fix16)
    requires 0 < Abs(b) < 0x10_0000 && Abs(a) < 0x8000 * Abs(b)
    ensures DivValue(a, b) == Signed((a < 0) != (b < 0), Abs(a) * 0x1_0000 / Abs(b))
  {
    DivMod(Abs(a) * 0x2_0000, 2 * Abs(b));
    DivExactIff(Abs(a), Abs(b));
  }

  /** For larger dividers: more than exact - 1 and at most exact + 1/16. */
  lemma DivBoundsLarge(n: nat, d: nat)
    requires d >= 0x10_0000
    ensures Magnitude(n, d) * d > n * 0x1_0000 - d
    ensures 16 * (Magnitude(n, d) * d) <= 16 * (n * 0x1_0000) + d
  {
    var m := Magnitude(n, d);
    MagnitudeBracket(n, d);
    assert m * (2 * d) == 2 * (m * d);
    assert (m + 1) * (2 * d) == 2 * (m * d) + 2 * d;
  }

  /** The quotient of large dividers can be one unit too big. */
  lemma DivInexactExample()
    ensures DivValue(174769, 1048582) == 10923 && 174769 * 0x1_0000 / 1048582 == 10922
  {
    QuotientIs(1048582, 0x2_0000, 8, 6);
    QuotientIs(174769, 9, 19418, 7);
    QuotientIs(19418 * 1048582, 0x2_0000, 155344, 116508);
    QuotientIs(174769 * 0x2_0000 + 116508, 2 * 1048582, 10923, 116504);
    QuotientIs(174769 * 0x1_0000, 1048582, 10922, 1048580);
  }
}
