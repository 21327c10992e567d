/** Q16.16 words and the two-pass digit-by-digit square root
    (application/fix_math/fix_math.c, fix16_sqrt). */
module FixWord {

  const TWO_16: int := 0x1_0000
  const TWO_31: int := 0x8000_0000

  /** A `uint32_t` of the source.  Every assignment to a variable of this type
      is an obligation that the 32-bit operation behind it does not wrap. */
  type Word = x: int | 0 <= x < 0x1_0000_0000

  /** An `int32_t`/`fix16_t` of the source. */
  type Fix16 = x: int | -0x8000_0000 <= x < 0x8000_0000

  /** fix16_minimum and fix16_overflow are the same word, 0x80000000. */
  const OVERFLOW: Fix16 := -0x8000_0000

  function Abs(x: int): (r: int)
    ensures r >= 0 && (r == x || r == -x)
  {
    if x < 0 then -x else x
  }

  lemma MulLe(a: int, b: int, c: int)
    requires a <= b && 0 <= c
    ensures a * c <= b * c
  {
  }

  function Pow2(n: nat): (r: nat)
    ensures r >= 1
  {
    if n == 0 then 1 else 2 * Pow2(n - 1)
  }

  lemma {:induction false} Pow2Add(m: nat, n: nat)
    ensures Pow2(m + n) == Pow2(m) * Pow2(n)
  {
    if m > 0 {
      Pow2Add(m - 1, n);
      assert Pow2(m + n) == 2 * Pow2(m - 1 + n);
      assert 2 * (Pow2(m - 1) * Pow2(n)) == (2 * Pow2(m - 1)) * Pow2(n);
    }
  }

  lemma Pow2Values()
    ensures Pow2(4) == 16 && Pow2(8) == 256 && Pow2(16) == 65536 && Pow2(17) == 0x2_0000
    ensures Pow2(32) == 0x1_0000_0000
  {
    assert Pow2(4) == 16;
    Pow2Add(4, 4);
    Pow2Add(8, 8);
    Pow2Add(16, 1);
    Pow2Add(16, 16);
  }
}

module FixSqrt {
  import opened FixWord
  import opened Words

  /** `r` is the integer square root of `x`. */
  ghost predicate IsFloorRoot(x: int, r: int) {
    r >= 0 && r * r <= x < (r + 1) * (r + 1)
  }

  lemma FloorRootUnique(x: int, r: int, s: int)
    requires IsFloorRoot(x, r) && IsFloorRoot(x, s)
    ensures r == s
  {
    if r < s { SquareMonotone(r + 1, s); assert false; }
    if s < r { SquareMonotone(s + 1, r); assert false; }
  }

  lemma SquareMonotone(a: int, b: int)
    requires 0 <= a <= b
    ensures a * a <= b * b
  {
    assert a * a <= a * b;
    assert a * b <= b * b;
  }

  /** The integer square root, defined by counting up; the reference the word
      algorithm is measured against. */
  ghost function FloorRoot(x: nat): (r: nat)
    ensures IsFloorRoot(x, r)
  {
    if x == 0 then 0
    else
      var q := FloorRoot(x - 1);
      if (q + 1) * (q + 1) <= x then RootStep(x, q); q + 1 else q
  }

  lemma RootStep(x: nat, q: nat)
    requires x > 0 && q * q <= x - 1 < (q + 1) * (q + 1) <= x
    ensures x < (q + 2) * (q + 2)
  {
    assert (q + 2) * (q + 2) == (q + 1) * (q + 1) + 2 * q + 3;
  }

  /** One run of the `while (bit)` loop.  With weight `t` (a power of two), the
      partial root is `root`, `result == t * root` and `num` is what is left of
      the radicand `x`. */
  ghost predicate Digit(x: int, t: int, root: int, num: int, result: int) {
    && t >= 1 && root >= 0
    && num == x - root * root && num >= 0
    && result == t * root
    && x < (root + t) * (root + t)
  }

  lemma DigitTaken(x: int, s: int, root: int, num: int, result: int)
    requires s >= 1 && Digit(x, 2 * s, root, num, result)
    requires num >= result + s * s
    ensures result % 2 == 0
    ensures Digit(x, s, root + s, num - (result + s * s), result / 2 + s * s)
  {
    assert result == 2 * (s * root);
    assert (root + s) * (root + s) == root * root + 2 * (s * root) + s * s;
    assert s * (root + s) == s * root + s * s;
    assert root + s + s == root + 2 * s;
  }

  lemma DigitSkipped(x: int, s: int, root: int, num: int, result: int)
    requires s >= 1 && Digit(x, 2 * s, root, num, result)
    requires num < result + s * s
    ensures result % 2 == 0
    ensures Digit(x, s, root, num, result / 2)
  {
    assert result == 2 * (s * root);
    assert (root + s) * (root + s) == root * root + 2 * (s * root) + s * s;
  }

  /** The digit under test when `i` bits of the root are still open. */
  function BitOf(i: nat): nat {
    if i == 0 then 0 else Pow2(i - 1) * Pow2(i - 1)
  }

  lemma BitShift(i: nat)
    requires i >= 1
    ensures BitOf(i) / 4 == BitOf(i - 1) && BitOf(i) > 0
  {
    if i > 1 {
      var p := Pow2(i - 2);
      assert Pow2(i - 1) * Pow2(i - 1) == 4 * (p * p);
    }
  }

  /** One iteration of the loop on the words, taken or skipped. */
  lemma DigitStep(x: int, i: nat, root: int, num: int, result: int, bit: int)
    returns (root': int)
    requires i >= 1 && Digit(x, Pow2(i), root, num, result) && bit == BitOf(i)
    ensures num >= result + bit ==> Digit(x, Pow2(i - 1), root', num - (result + bit), result / 2 + bit)
    ensures num < result + bit ==> Digit(x, Pow2(i - 1), root', num, result / 2)
    ensures bit > 0 && bit / 4 == BitOf(i - 1) && result >= 0 && num >= 0
  {
    BitShift(i);
    assert Pow2(i) == 2 * Pow2(i - 1);
    hide Pow2, Digit;
    if num >= result + bit {
      DigitTaken(x, Pow2(i - 1), root, num, result);
      root' := root + Pow2(i - 1);
    } else {
      DigitSkipped(x, Pow2(i - 1), root, num, result);
      root' := root;
    }
  }

  /** The `while (bit)` loop: from a partial root of weight 2^k to the whole
      integer root, with every intermediate word below 2^32. */
  method DigitLoop(ghost x: int, ghost k: nat, num0: Word, result0: Word, bit0: Word, ghost root0: int)
    returns (num: Word, result: Word)
    requires Digit(x, Pow2(k), root0, num0, result0)
    requires bit0 == BitOf(k)
    requires result0 as int + 2 * (bit0 as int) < TWO_32
    ensures IsFloorRoot(x, result) && num == x - result * result
  {
    num, result := num0, result0;
    var bit := bit0;
    ghost var root := root0;
    ghost var i := k;
    while bit != 0
      invariant Digit(x, Pow2(i), root, num, result)
      invariant bit == BitOf(i)
      invariant result as int + 2 * (bit as int) < TWO_32
      decreases i
    {
      root := DigitStep(x, i, root, num, result, bit);
      var trial: Word := result + bit;
      if num >= trial {
        num := num - trial;
        result := result / 2 + bit;
      } else {
        result := result / 2;
      }
      bit := bit / 4;
      i := i - 1;
    }
    LastDigit(x, i, root, num, result);
  }

  lemma LastDigit(x: int, i: nat, root: int, num: int, result: int)
    requires Digit(x, Pow2(i), root, num, result) && BitOf(i) == 0
    ensures IsFloorRoot(x, result) && num == x - result * result
  {
    if i > 0 { BitShift(i); }
  }

  /** What the second pass takes the root of: the value shifted by 16, less
      2^14 when the first remainder does not fit in 16 bits (the source then
      subtracts 0x8000 where (root + 1/2)^2 calls for 0x4000). */
  ghost function Radicand(m: nat): (x: nat)
    ensures x <= m * TWO_16
  {
    if m - FloorRoot(m) * FloorRoot(m) <= 65535 then m * TWO_16
    else m * TWO_16 - 0x4000
  }

  /** The value fix16_sqrt computes. */
  ghost function SqrtValue(v: int): int {
    if v < 0 then -(FloorRoot(Radicand(-v)) as int) else FloorRoot(Radicand(v))
  }

  /** Before the first pass nothing of the root is known. */
  method StartBit(num: Word) returns (bit: Word, ghost i: nat)
    requires num < TWO_31
    ensures bit == BitOf(i) && bit <= 0x4000_0000
    ensures Digit(num, Pow2(i), 0, num, 0)
  {
    StartBits();
    if num >= 0x10_0000 {
      bit, i := 0x4000_0000, 16;
    } else {
      bit, i := 0x4_0000, 10;
    }
    while bit > num
      invariant bit == BitOf(i) && bit <= 0x4000_0000
      invariant num < Pow2(i) * Pow2(i)
      decreases i
    {
      BitShift(i);
      bit := bit / 4;
      i := i - 1;
    }
  }

  lemma StartBits()
    ensures BitOf(16) == 0x4000_0000 && Pow2(16) * Pow2(16) == TWO_32
    ensures BitOf(10) == 0x4_0000 && Pow2(10) * Pow2(10) == 0x10_0000
    ensures BitOf(8) == 0x4000 && Pow2(8) == 256
  {
    Pow2Values();
    assert Pow2(16) == 2 * Pow2(15);
    assert Pow2(8) == 2 * Pow2(7);
    assert Pow2(9) == 2 * Pow2(8);
    assert Pow2(10) == 2 * Pow2(9);
  }

  /** The two ways the source re-enters the loop for the low eight bits. */
  lemma SecondPass(m: nat, r: nat, num: int)
    requires m < TWO_31 && IsFloorRoot(m, r) && num == m - r * r
    ensures r <= 46340
    ensures num <= 65535 ==>
              Digit(m * TWO_16, 256, 256 * r, num * TWO_16, r * TWO_16)
    ensures num > 65535 ==>
              && 0 < num - r <= 46340
              && Digit(m * TWO_16 - 0x4000, 256, 256 * r + 128, (num - r) * TWO_16 - 0x8000, r * TWO_16 + 0x8000)
  {
    if r > 46340 { SquareMonotone(46341, r); assert false; }
    assert (r + 1) * (r + 1) == r * r + 2 * r + 1;
    assert (256 * r) * (256 * r) == TWO_16 * (r * r);
    assert (256 * r + 256) * (256 * r + 256) == TWO_16 * ((r + 1) * (r + 1));
    assert (256 * r + 128) * (256 * r + 128) == TWO_16 * (r * r) + TWO_16 * r + 0x4000;
    SquareMonotone(256 * r + 256, 256 * r + 128 + 256);
  }

  method Sqrt(inValue: Fix16) returns (r: Fix16)
    requires inValue != OVERFLOW   // -INT_MIN is not an int32_t
    ensures r == SqrtValue(inValue)
  {
    var neg := inValue < 0;
    var num: Word := if neg then -inValue else inValue;
    ghost var m: nat := num;
    var bit, i := StartBit(num);
    var result: Word := 0;
    num, result := DigitLoop(m, i, num, result, bit, 0);
    FloorRootUnique(m, result, FloorRoot(m));
    SecondPass(m, result, num);
    StartBits();
    ghost var root := 256 * (result as int);
    if num > 65535 {
      root := root + 128;
      num := num - result;
      num := num * 65536 - 0x8000;
      result := result * 65536 + 0x8000;
    } else {
      num := num * 65536;
      result := result * 65536;
    }
    num, result := DigitLoop(Radicand(m), 8, num, result, 0x4000, root);
    FloorRootUnique(Radicand(m), result, FloorRoot(Radicand(m)));
    RootBelow(Radicand(m), result);
    r := if neg then -(result as int) else result;
  }

  lemma RootBelow(x: int, r: int)
    requires IsFloorRoot(x, r) && x < TWO_31 * TWO_16
    ensures r < TWO_31
  {
    if r >= TWO_31 { SquareMonotone(TWO_31, r); assert false; }
  }

  /** The result is the exact floor root of v*2^16 precisely when the first
      remainder fits 16 bits or the missing 2^14 is available in the second. */
  lemma SqrtExactIff(m: nat)
    ensures SqrtValue(m) * SqrtValue(m) <= m * TWO_16
    ensures SqrtValue(m) == FloorRoot(m * TWO_16) <==>
            || m - FloorRoot(m) * FloorRoot(m) <= 65535
            || m * TWO_16 - FloorRoot(m * TWO_16) * FloorRoot(m * TWO_16) >= 0x4000
  {
    if m - FloorRoot(m) * FloorRoot(m) > 65535 {
      RootStays(m * TWO_16, FloorRoot(m * TWO_16), FloorRoot(m * TWO_16 - 0x4000));
    }
  }

  lemma RootStays(x: int, q: int, r: int)
    requires IsFloorRoot(x, q) && IsFloorRoot(x - 0x4000, r)
    ensures r == q <==> x - q * q >= 0x4000
  {
    if x - q * q >= 0x4000 {
      FloorRootUnique(x - 0x4000, q, r);
    }
  }

  /** In the large-remainder branch the result is off by less than one unit in
      the last place: r^2 + 2^14 <= v*2^16 < (r+1)^2 + 2^14. */
  lemma SqrtLargeRemainder(m: nat)
    requires m - FloorRoot(m) * FloorRoot(m) > 65535
    ensures var r := SqrtValue(m);
            r * r + 0x4000 <= m * TWO_16 < (r + 1) * (r + 1) + 0x4000
    ensures FloorRoot(m * TWO_16) - 1 <= SqrtValue(m) <= FloorRoot(m * TWO_16)
  {
    var x, q, r := m * TWO_16, FloorRoot(m * TWO_16), SqrtValue(m);
    RadicandLarge(m);
    RootsClose(x, q, r);
  }

  lemma RootsClose(x: int, q: int, r: int)
    requires IsFloorRoot(x, q) && IsFloorRoot(x - 0x4000, r) && r >= 0x4000
    ensures q - 1 <= r <= q
  {
    if r > q { SquareMonotone(q + 1, r); assert false; }
    if r < q - 1 {
      TwoBelow(q, r);
      assert false;
    }
  }

  lemma TwoBelow(q: int, r: int)
    requires 0 <= r < q - 1
    ensures q * q >= (r + 1) * (r + 1) + 2 * r + 3
  {
    SquareMonotone(r + 2, q);
  }

  lemma RadicandLarge(m: nat)
    requires m - FloorRoot(m) * FloorRoot(m) > 65535
    ensures FloorRoot(m * TWO_16 - 0x4000) >= 0x4000
  {
    var q := FloorRoot(m * TWO_16 - 0x4000);
    if q < 0x4000 {
      SquareMonotone(q + 1, 0x4000);
      assert false;
    }
  }

  lemma SqrtOdd(v: int)
    ensures SqrtValue(-v) == -SqrtValue(v)
  {
    if v == 0 {
      FloorRootUnique(0, 0, FloorRoot(0));
    }
  }

  /** Exactness does fail: 1082212352 (raw) has first remainder 65536, and the
      source answers 8421630 where the floor root is 8421631. */
  lemma SqrtInexactExample()
    ensures FloorRoot(1082212352 * TWO_16) == 8421631
    ensures SqrtValue(1082212352) == 8421630
  {
    FloorRootUnique(1082212352, 32896, FloorRoot(1082212352));
    FloorRootUnique(1082212352 * TWO_16, 8421631, FloorRoot(1082212352 * TWO_16));
    FloorRootUnique(1082212352 * TWO_16 - 0x4000, 8421630, FloorRoot(1082212352 * TWO_16 - 0x4000));
  }
}
