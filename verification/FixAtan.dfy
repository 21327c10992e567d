/** Q16.16 multiplication, the cubic atan2 and its direct-mapped cache
    (application/fix_math/fix_math.c, fix16_mul and fix16_atan2). */
module FixAtan {
  import opened FixWord
  import opened Words
  import opened FixDiv

  const ONE: int := 0x1_0000
  const PI_DIV_4: int := 0xC90F
  const THREE_PI_DIV_4: int := 0x2_5B2F

  /** fix16_mul: the top 17 bits of the 64-bit product must agree. */
  function Mul(a: int, b: int): (r: int)
    ensures -0x8000_0000_0000 <= a * b < 0x8000_0000_0000 ==> ONE * r <= a * b < ONE * (r + 1)
    ensures !(-0x8000_0000_0000 <= a * b < 0x8000_0000_0000) && Abs(a * b) <= 0x4000_0000_0000_0000 ==> r == OVERFLOW
  {
    var product := a * b;
    var upper := (product / 0x8000_0000_0000) % TWO_32;   // (uint32_t)(product >> 47)
    if product < 0 && upper != 0xFFFF_FFFF then OVERFLOW
    else if product >= 0 && upper != 0 then OVERFLOW
    else product / ONE
  }

  /** 0x3240 * r^3 - 0xFB50 * r in fixed point. */
  function Cubic(r: int): int {
    Mul(0x3240, Mul(Mul(r, r), r)) - Mul(0xFB50, r)
  }

  /** The angle before the sign of y is applied. */
  function Angle(y: int, x: int): int {
    if x >= 0 then Cubic(DivValue(x - Abs(y), x + Abs(y))) + PI_DIV_4
    else Cubic(DivValue(x + Abs(y), Abs(y) - x)) + THREE_PI_DIV_4
  }

  /** fix16_atan2 without its cache. */
  function Atan2Value(y: int, x: int): int {
    if y < 0 then -Angle(y, x) else Angle(y, x)
  }

  // ----- The range of the computed angle -----

  lemma RatioBounds(p: int, q: int)
    requires q > 0 && Abs(p) <= q < TWO_31
    ensures -ONE <= DivValue(p, q) <= ONE
    ensures p >= 0 ==> DivValue(p, q) >= 0
    ensures p <= 0 ==> DivValue(p, q) <= 0
  {
    var n, m := Abs(p), Magnitude(Abs(p), q);
    MagnitudeBracket(n, q);
    LossSmall(n, q);
    RatioValue(p, q);
    hide Magnitude, KickLoss, DivValue;
    RatioRange(n, q, m, KickLoss(n, q));
  }

  lemma RatioValue(p: int, q: int)
    requires q > 0 && Abs(p) <= q
    ensures DivValue(p, q) == if p < 0 then -Magnitude(Abs(p), q) else Magnitude(Abs(p), q)
  {
    hide Magnitude;
  }

  lemma LossSmall(n: nat, q: nat)
    ensures KickLoss(n, q) == 0 || KickLoss(n, q) < 2 * q
  {
  }

  lemma RatioRange(n: int, q: int, m: int, loss: int)
    requires 0 <= n <= q && q > 0 && 0 <= loss < 2 * q
    requires m * (2 * q) <= n * 0x2_0000 + loss < (m + 1) * (2 * q)
    ensures 0 <= m <= ONE
  {
    if m < 0 { MulLe(m + 1, 0, 2 * q); assert false; }
    if m > ONE { MulLe(ONE + 1, m, 2 * q); assert false; }
  }

  /** Rounding never takes the square or the cube below its tangent at one. */
  lemma TangentBounds(r: int)
    requires -ONE <= r <= ONE
    ensures var s := Mul(r, r); 0 <= s <= ONE && s >= 2 * Abs(r) - ONE
  {
    SquareRange(r);
  }

  lemma SquareRange(r: int)
    requires -ONE <= r <= ONE
    ensures 0 <= r * r <= ONE * ONE && r * r >= 2 * ONE * Abs(r) - ONE * ONE
  {
    var a := Abs(r);
    assert r * r == a * a;
    MulLe(a, ONE, a);
    assert (a - ONE) * (a - ONE) >= 0;
    assert (a - ONE) * (a - ONE) == a * a - 2 * ONE * a + ONE * ONE;
  }

  lemma CubeBounds(r: int)
    requires -ONE <= r <= ONE
    ensures var c := Mul(Mul(r, r), r);
            && (r >= 0 ==> 3 * r - 2 * ONE <= c <= r && c >= 0)
            && (r <= 0 ==> r <= c <= 3 * r + 2 * ONE && c <= 0)
  {
    var s := Mul(r, r);
    TangentBounds(r);
    SquareRange(r);
    CubeProduct(r, s);
  }

  lemma CubeProduct(r: int, s: int)
    requires -ONE <= r <= ONE && 0 <= s <= ONE && s >= 2 * Abs(r) - ONE
    requires r * r >= 2 * ONE * Abs(r) - ONE * ONE
    ensures r >= 0 ==> 0 <= s * r <= ONE * r && s * r >= 3 * ONE * r - 2 * ONE * ONE
    ensures r <= 0 ==> ONE * r <= s * r <= 0 && s * r <= 3 * ONE * r + 2 * ONE * ONE
  {
    var a := Abs(r);
    assert a * a == r * r;
    CubeMagnitude(a, s);
    if r < 0 { assert s * r == -(s * a); }
  }

  lemma CubeMagnitude(a: int, s: int)
    requires 0 <= a && 0 <= s <= ONE && s >= 2 * a - ONE && a * a >= 2 * ONE * a - ONE * ONE
    ensures 0 <= s * a <= ONE * a && s * a >= 3 * ONE * a - 2 * ONE * ONE
  {
    MulLe(0, s, a);
    MulLe(s, ONE, a);
    MulLe(2 * a - ONE, s, a);
    assert (2 * a - ONE) * a == 2 * (a * a) - ONE * a;
  }

  lemma CubicBounds(r: int)
    requires -ONE <= r <= ONE
    ensures r >= 0 ==> -51472 <= Cubic(r) <= 0
    ensures r <= 0 ==> 0 <= Cubic(r) <= 51472
  {
    CubeBounds(r);
  }

  /** Every computed angle lies in the octant of its argument, and so within
      one raw unit of [0, pi/2] for x >= 0 and of [pi/2, pi] for x < 0
      (102943 and 205887 are the raw words of pi/2 and pi). */
  lemma AngleOctant(y: int, x: int)
    requires (x, y) != (0, 0) && Abs(x) + Abs(y) < TWO_31
    ensures x >= Abs(y) ==> -1 <= Angle(y, x) <= PI_DIV_4
    ensures 0 <= x <= Abs(y) ==> PI_DIV_4 <= Angle(y, x) <= 102943
    ensures -Abs(y) <= x < 0 ==> 102943 <= Angle(y, x) <= THREE_PI_DIV_4
    ensures x < 0 && x <= -Abs(y) ==> THREE_PI_DIV_4 <= Angle(y, x) <= 205887
  {
    var p, q := if x >= 0 then x - Abs(y) else x + Abs(y), if x >= 0 then x + Abs(y) else Abs(y) - x;
    RatioBounds(p, q);
    CubicBounds(DivValue(p, q));
  }

  // ----- How close the cubic is -----

  /** `v` is within two units of (0x3240 r^3 - 0xFB50 r 2^32) / 2^48. */
  predicate NearCubic(v: int, r: int) {
    Abs(v * 0x1_0000_0000_0000 - (0x3240 * (r * r * r) - 0xFB50 * r * 0x1_0000_0000)) < 0x2_0000_0000_0000
  }

  /** `r` is within one unit of 2^16 p / q. */
  predicate NearRatio(r: int, p: int, q: int) {
    -0x1_0000 <= r <= 0x1_0000 && Abs(r * q - p * 0x1_0000) <= q
  }

  /** Four truncations cost less than two units: the result is that close to
      the exact value. */
  lemma CubicAccuracy(r: int)
    requires -0x1_0000 <= r <= 0x1_0000
    ensures NearCubic(Cubic(r), r)
  {
    TangentBounds(r);
    SquareRange(r);
    CubeBounds(r);
    var s := Mul(r, r);
    var c := Mul(s, r);
    CubeProduct(r, s);
    var k, l := Mul(0x3240, c), Mul(0xFB50, r);
    var e1, e2, e3, e4 := r * r - ONE * s, s * r - ONE * c, 0x3240 * c - ONE * k, 0xFB50 * r - ONE * l;
    assert 0 <= e1 < ONE && 0 <= e2 < ONE && 0 <= e3 < ONE && 0 <= e4 < ONE;
    hide Mul;
    Expanded(r, s, c, k, l, e1, e2, e3, e4);
    SmallProduct(e1, r);
  }

  lemma SmallProduct(e: int, r: int)
    requires 0 <= e < ONE && -ONE <= r <= ONE
    ensures -ONE * ONE <= e * r <= ONE * ONE
  {
    if r >= 0 { MulLe(e, ONE, r); } else { MulLe(e, ONE, -r); assert e * r == -(e * -r); }
  }

  lemma Expanded(r: int, s: int, c: int, k: int, l: int, e1: int, e2: int, e3: int, e4: int)
    requires r * r == ONE * s + e1 && s * r == ONE * c + e2 && 0x3240 * c == ONE * k + e3 && 0xFB50 * r == ONE * l + e4
    ensures (k - l) * 0x1_0000_0000_0000 - (0x3240 * (r * r * r) - 0xFB50 * r * 0x1_0000_0000)
            == -0x3240 * (e1 * r) - 0x3240 * ONE * e2 - 0x1_0000_0000 * e3 + 0x1_0000_0000 * e4
  {
    assert r * r * r == ONE * (s * r) + e1 * r by { assert (ONE * s + e1) * r == ONE * (s * r) + e1 * r; }
  }

  /** The ratio is within one unit of the exact one. */
  lemma RatioAccuracy(p: int, q: int)
    requires q > 0 && Abs(p) <= q < TWO_31
    ensures Abs(DivValue(p, q) * q - p * 0x1_0000) <= q
  {
    var n := Abs(p);
    MagnitudeBracket(n, q);
    LossSmall(n, q);
    RatioValue(p, q);
    var m := Magnitude(n, q);
    hide Magnitude, KickLoss, DivValue;
    RatioClose(n, q, m, KickLoss(n, q));
    if p < 0 { Negated(m, q); }
  }

  lemma Negated(m: int, q: int)
    ensures (-m) * q == -(m * q)
  {
  }

  lemma RatioClose(n: int, q: int, m: int, loss: int)
    requires q > 0 && 0 <= loss < 2 * q && m * (2 * q) <= n * 0x2_0000 + loss < (m + 1) * (2 * q)
    ensures -q <= m * q - n * 0x1_0000 <= q
  {
    assert m * (2 * q) == 2 * (m * q);
    assert (m + 1) * (2 * q) == 2 * (m * q) + 2 * q;
  }

  /** For every argument off the origin: with r a ratio within one unit of
      (x - |y|) / (x + |y|), or (x + |y|) / (|y| - x) for negative x, the angle, with the
      sign of y, is within two units of pi/4, or 3 pi/4, plus the cubic of r. */
  lemma Atan2Accuracy(y: int, x: int) returns (r: int)
    requires (x, y) != (0, 0) && Abs(x) + Abs(y) < TWO_31
    ensures if x >= 0 then NearRatio(r, x - Abs(y), x + Abs(y)) else NearRatio(r, x + Abs(y), Abs(y) - x)
    ensures var a := if y < 0 then -Atan2Value(y, x) else Atan2Value(y, x);
            NearCubic(a - if x >= 0 then 51471 else 154415, r)
  {
    var p, q := if x >= 0 then x - Abs(y) else x + Abs(y), if x >= 0 then x + Abs(y) else Abs(y) - x;
    hide DivValue, Cubic, NearCubic, NearRatio;
    r := DivValue(p, q);
    RatioBounds(p, q);
    RatioNear(p, q);
    CubicAccuracy(r);
  }

  lemma RatioNear(p: int, q: int)
    requires q > 0 && Abs(p) <= q < TWO_31
    ensures NearRatio(DivValue(p, q), p, q)
  {
    hide DivValue;
    RatioBounds(p, q);
    RatioAccuracy(p, q);
  }

  /** Odd in y, off the axis. */
  lemma Atan2Odd(y: int, x: int)
    requires y != 0
    ensures Atan2Value(-y, x) == -Atan2Value(y, x)
  {
    assert Angle(-y, x) == Angle(y, x);
  }

  // ----- The cache -----

  function ToWord(x: Fix16): bv32 {
    (x % TWO_32) as bv32
  }

  function Fold(w: bv32): bv12 {
    ((w ^ (w >> 20)) & 0x0FFF) as bv12
  }

  /** The slot of an argument pair, computed on 32-bit words. */
  function Hash(x: Fix16, y: Fix16): (h: nat)
    ensures h < 4096
  {
    Fold(ToWord(x) ^ ToWord(y)) as nat
  }

  lemma HashOrigin()
    ensures Hash(0, 0) == 0
  {
    assert ToWord(0) == 0;
    assert Fold(0) == 0;
  }

  /** The slot is the low twelve bits of x ^ y, folded with its high twelve. */
  lemma HashSlots(x: bv32, y: bv32)
    ensures Fold(x ^ y) == ((x ^ y ^ (x >> 20) ^ (y >> 20)) & 0xfff) as bv12
    ensures x < 0x1000 ==> Fold(x ^ 0) == x as bv12
    ensures Fold(x ^ x) == 0
  {
  }

  /** The three static arrays, zero at program start. */
  class AtanCache {
    const keyX: array<Fix16>
    const keyY: array<Fix16>
    const value: array<int>

    /** Every slot holds the right angle for its key, except that slot 0 may
        still hold the initial zero under the key (0, 0). */
    ghost predicate Valid()
      reads this, keyX, keyY, value
    {
      && keyX.Length == keyY.Length == value.Length == 4096
      && keyX != keyY
      && (forall h :: 0 <= h < 4096 ==> Right(h))
    }

    ghost predicate Right(h: int)
      requires keyX.Length == keyY.Length == value.Length == 4096 && 0 <= h < 4096
      reads keyX, keyY, value
    {
      || value[h] == Atan2Value(keyY[h], keyX[h])
      || (keyX[h] == 0 && keyY[h] == 0 && value[h] == 0)
    }

    ghost predicate Cold()
      requires Valid()
      reads this, keyX, keyY, value
    {
      keyX[0] == 0 && keyY[0] == 0 && value[0] == 0
    }

    constructor ()
      ensures Valid() && Cold() && fresh(keyX) && fresh(keyY) && fresh(value)
    {
      keyX := new Fix16[4096](_ => 0);
      keyY := new Fix16[4096](_ => 0);
      value := new int[4096](_ => 0);
    }

    /** fix16_atan2.  Off the origin the answer is the cache-free value; at the
        origin it is zero until slot 0 has been used for another key. */
    method Atan2(y: Fix16, x: Fix16) returns (angle: int)
      requires Valid() && Abs(x) + Abs(y) < TWO_31
      modifies keyX, keyY, value
      ensures Valid()
      ensures (x, y) != (0, 0) ==> angle == Atan2Value(y, x)
      ensures (x, y) == (0, 0) ==> angle == if old(Cold()) then 0 else Atan2Value(0, 0)
    {
      hide Atan2Value, Angle;
      var hash := Hash(x, y);
      HashOrigin();
      assert Right(hash);
      if keyX[hash] == x && keyY[hash] == y {
        return value[hash];
      }
      angle := Compute(y, x);
      keyX[hash], keyY[hash], value[hash] := x, y, angle;
      forall h | 0 <= h < 4096
        ensures Right(h)
      {
        assert old(Right(h));
      }
    }
  }

  /** The body of fix16_atan2 after a cache miss. */
  method Compute(y: Fix16, x: Fix16) returns (angle: int)
    requires Abs(x) + Abs(y) < TWO_31
    ensures angle == Atan2Value(y, x)
  {
    hide DivValue, Cubic, Mul;
    var mask := if y < 0 then -1 else 0;                            // y >> 31
    var absY: Fix16 := if mask == 0 then y else -(y + mask) - 1;    // (y + mask) ^ mask
    var r: int;
    if x >= 0 {
      r := Div(x - absY, x + absY);
      angle := Cubic(r) + PI_DIV_4;
    } else {
      r := Div(x + absY, absY - x);
      angle := Cubic(r) + THREE_PI_DIV_4;
    }
    if y < 0 { angle := -angle; }
  }

  /** Any sequence of calls on the initial cache, the origin excluded, answers
      as the cache-free computation does. */
  method Session(calls: seq<(Fix16, Fix16)>) returns (angles: seq<int>)
    requires forall c :: c in calls ==> c != (0, 0) && Abs(c.0) + Abs(c.1) < TWO_31
    ensures |angles| == |calls|
    ensures forall i :: 0 <= i < |calls| ==> angles[i] == Atan2Value(calls[i].0, calls[i].1)
  {
    var cache := new AtanCache();
    angles := [];
    for i := 0 to |calls|
      invariant cache.Valid() && fresh(cache) && fresh(cache.keyX) && fresh(cache.keyY) && fresh(cache.value)
      invariant |angles| == i
      invariant forall j :: 0 <= j < i ==> angles[j] == Atan2Value(calls[j].0, calls[j].1)
    {
      var angle := cache.Atan2(calls[i].0, calls[i].1);
      angles := angles + [angle];
    }
  }

  /** At the origin the two differ: the cold cache says 0, the code path past it
      1686685967. */
  lemma OriginDiffers()
    ensures Atan2Value(0, 0) == 1686685967
  {
    assert DivValue(0, 0) == OVERFLOW;
    assert OVERFLOW * OVERFLOW == 0x4000_0000_0000_0000;
    assert Mul(OVERFLOW, OVERFLOW) == OVERFLOW;
  }
}
