/**
 Mip arithmetic of src/context/TextureMipLevels.h against section 8.14.3 of the OpenGL 4.6
 specification: level i of a dimension n has size max(1, floor(n / 2^i)).
 */
module MipLevels {
  import opened Arithmetic

  lemma {:induction false} Pow2Adds(i: nat, j: nat)
    ensures Pow2(i + j) == Pow2(i) * Pow2(j)
  {
    if j > 0 {
      Pow2Adds(i, j - 1);
      Associate(Pow2(i), Pow2(j - 1));
    }
  }

  lemma Associate(x: nat, y: nat)
    ensures x * (2 * y) == 2 * (x * y)
  {
  }

  // Division is determined by its quotient and remainder.
  lemma QuotientUnique(b: int, d: nat, q: int, r: nat)
    requires d > 0 && b == d * q + r && r < d
    ensures b / d == q
  {
    var q', r' := b / d, b % d;
    assert b == d * q' + r';
    if q' < q {
      Gap(d, q', q);
    } else if q < q' {
      Gap(d, q, q');
    }
  }

  lemma Gap(d: nat, p: int, q: int)
    requires p < q
    ensures d * q >= d * p + d
  {
    var k := q - p;
    assert d * q == d * p + d * k;
    assert d * k >= d by { AtLeastOnce(d, k); }
  }

  lemma AtLeastOnce(d: nat, k: int)
    requires k >= 1
    ensures d * k >= d
  {
  }

  lemma DivideTwice(b: int, x: nat, y: nat)
    requires x > 0 && y > 0
    ensures x * y > 0 && b / x / y == b / (x * y)
  {
    var q, r := b / x, b % x;
    var q', r' := q / y, q % y;
    assert b == x * q + r && q == y * q' + r';
    Regroup(x, y, q', r');
    Gap(x, r', y);
    QuotientUnique(b, x * y, q', x * r' + r);
  }

  lemma Regroup(x: nat, y: nat, q: int, r: nat)
    requires x > 0 && y > 0
    ensures x * (y * q + r) == (x * y) * q + x * r && x * y > 0 && x * r >= 0
  {
  }

  // ----- the number of levels -----

  function LargestDimension(width: nat, height: nat, depth: nat): (n: nat)
    ensures n >= 1
  {
    Max(Max(width, Max(height, depth)), 1)
  }

  function LevelsOf(n: nat): (levels: nat)
    ensures levels >= 1
  {
    if n <= 1 then 1 else LevelsOf(n / 2) + 1
  }

  /** The number of levels is floor(log2) of the largest dimension, plus one. */
  lemma {:induction false} LevelsAreLog2(n: nat)
    requires n >= 1
    ensures Pow2(LevelsOf(n) - 1) <= n < Pow2(LevelsOf(n))
  {
    if n > 1 { LevelsAreLog2(n / 2); }
  }

  function LevelCount(width: nat, height: nat, depth: nat): (levels: nat)
    ensures levels >= 1
  {
    LevelsOf(LargestDimension(width, height, depth))
  }

  /** mipLevelCountForDimensions: the shift loop. */
  method MipLevelCountForDimensions(width: nat, height: nat, depth: nat) returns (levels: nat)
    ensures levels == LevelCount(width, height, depth)
    ensures levels >= 1 && Pow2(levels - 1) <= LargestDimension(width, height, depth) < Pow2(levels)
  {
    var maxDimension := Max(width, Max(height, depth));
    maxDimension := Max(maxDimension, 1);
    levels := 1;
    while maxDimension > 1
      invariant maxDimension >= 1 && levels >= 1
      invariant LevelsOf(maxDimension) + levels == LevelCount(width, height, depth) + 1
    {
      maxDimension := maxDimension / 2;
      levels := levels + 1;
    }
    LevelsAreLog2(LargestDimension(width, height, depth));
  }

  // ----- the size of a level -----

  // mipDimensionAtLevel for dimensions of `bits` bits; a right shift rounds down.
  function DimensionAtLevel(base: int, level: int, bits: nat): int {
    if level <= 0 then Max(base, 1)
    else if level >= bits then 1
    else Max(base / Pow2(level), 1)
  }

  predicate Fits(base: int, bits: nat) { -(Pow2(bits) as int) <= base < Pow2(bits) }

  /** The cut-off at the width of the type cannot be seen: every level has the size the
      specification gives it. */
  lemma SizeIsSpecified(base: int, level: nat, bits: nat)
    requires Fits(base, bits)
    ensures DimensionAtLevel(base, level, bits) == Max(base / Pow2(level), 1)
  {
    if level >= bits && level > 0 {
      Pow2Monotone(bits, level);
      SmallQuotient(base, Pow2(level));
    }
  }

  lemma SmallQuotient(b: int, d: nat)
    requires d > 0 && b < d
    ensures b / d <= 0
  {
    if b / d > 0 { AtLeastOnce(d, b / d); }
  }

  /** Level j of level i is level i + j. */
  lemma LevelsCompose(base: int, i: nat, j: nat, bits: nat)
    requires Fits(base, bits) && bits > 0
    ensures DimensionAtLevel(DimensionAtLevel(base, i, bits), j, bits) == DimensionAtLevel(base, i + j, bits)
  {
    var mid := DimensionAtLevel(base, i, bits);
    SizeIsSpecified(base, i, bits);
    QuotientBounds(base, Pow2(i));
    Pow2Monotone(1, bits);
    SizeIsSpecified(mid, j, bits);
    SizeIsSpecified(base, i + j, bits);
    DivideTwice(base, Pow2(i), Pow2(j));
    Pow2Adds(i, j);
    if base / Pow2(i) < 1 {
      QuotientSign(base / Pow2(i), Pow2(j));
      OneOver(Pow2(j));
    }
  }

  lemma QuotientBounds(b: int, d: nat)
    requires d > 0
    ensures b / d <= Max(b, 0)
  {
    if b / d > 0 {
      assert b == d * (b / d) + b % d;
      Shrinks(d, b / d);
    }
  }

  lemma Shrinks(d: nat, q: nat)
    requires d > 0
    ensures d * q >= q
  {
  }

  lemma QuotientSign(b: int, d: nat)
    requires d > 0 && b < 1
    ensures b / d < 1
  {
    SmallQuotient(b, d);
  }

  lemma OneOver(d: nat)
    requires d > 0
    ensures 1 / d <= 1
  {
  }

  lemma OneBelowPow(n: int, level: nat)
    ensures Max(n / Pow2(level), 1) == 1 <==> n < 2 * Pow2(level)
  {
    var p := Pow2(level);
    if n < 2 * p && n / p >= 2 { Gap(p, 1, n / p); }
  }

  // mipTailOffsetForDimensions
  function TailOffset(width: int, height: int, depth: int): nat {
    LevelCount(Max(width, 1), Max(height, 1), Max(depth, 1)) - 1
  }

  /** The tail offset is the first level at which all three dimensions have shrunk to 1. */
  lemma TailIffAllOne(width: int, height: int, depth: int, level: nat, bits: nat)
    requires Fits(width, bits) && Fits(height, bits) && Fits(depth, bits)
    ensures level >= TailOffset(width, height, depth)
            <==> DimensionAtLevel(width, level, bits) == DimensionAtLevel(height, level, bits)
                 == DimensionAtLevel(depth, level, bits) == 1
  {
    var n := LargestDimension(Max(width, 1), Max(height, 1), Max(depth, 1));
    LevelsAreLog2(n);
    SizeIsSpecified(width, level, bits);
    SizeIsSpecified(height, level, bits);
    SizeIsSpecified(depth, level, bits);
    OneBelowPow(width, level);
    OneBelowPow(height, level);
    OneBelowPow(depth, level);
    if level >= LevelsOf(n) - 1 {
      Pow2Monotone(LevelsOf(n) - 1, level);
    } else {
      Pow2Monotone(level + 1, LevelsOf(n) - 1);
    }
  }

  // ----- what Metal is asked for -----

  datatype Target = Texture1D | Texture1DArray | TextureBuffer | OtherTarget

  predicate RequiresSingleLevel(target: Target, use2DFor1D: bool) {
    ((target.Texture1D? || target.Texture1DArray?) && !use2DFor1D) || target.TextureBuffer?
  }

  function MetalLevelCount(target: Target, use2DFor1D: bool, requested: nat, width: nat, height: nat, depth: nat): nat {
    if RequiresSingleLevel(target, use2DFor1D) then 1
    else
      var natural := LevelCount(width, height, depth);
      if natural < requested then natural else requested
  }

  /** Every level that is requested, except the last, still has a dimension above 1: no level past
      the 1x1x1 one is ever requested. */
  lemma NoLevelBelowOne(
      target: Target, use2DFor1D: bool, requested: nat, width: nat, height: nat, depth: nat, level: nat)
    requires level + 1 < MetalLevelCount(target, use2DFor1D, requested, width, height, depth)
    ensures width >= 2 * Pow2(level) || height >= 2 * Pow2(level) || depth >= 2 * Pow2(level)
  {
    var n := LargestDimension(width, height, depth);
    LevelsAreLog2(n);
    Pow2Monotone(level + 1, LevelsOf(n) - 1);
  }

  /** Which levels Metal is asked for: one for a target that can have no more; otherwise level l exactly
      when it is requested and is level 0 or still has a dimension that halving l times leaves. */
  lemma LevelGivenIff(
      target: Target, use2DFor1D: bool, requested: nat, width: nat, height: nat, depth: nat, level: nat)
    ensures var single := target == TextureBuffer || (!use2DFor1D && (target == Texture1D || target == Texture1DArray));
            level < MetalLevelCount(target, use2DFor1D, requested, width, height, depth)
            <==> if single then level == 0
                 else level < requested
                      && (level == 0 || width >= Pow2(level) || height >= Pow2(level) || depth >= Pow2(level))
  {
    var n := LargestDimension(width, height, depth);
    LevelsAreLog2(n);
    if level < LevelsOf(n) {
      Pow2Monotone(level, LevelsOf(n) - 1);
    } else {
      Pow2Monotone(LevelsOf(n), level);
    }
    if level > 0 { Pow2Monotone(1, level); }
  }
}
