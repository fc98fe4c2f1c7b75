/**
 The alpha halves of DXT3 and DXT5 blocks: encodeExplicitAlpha and encodeInterpolatedAlpha of
 src/context/S3TCEncode.h against decodeExplicitAlphaDXT3 and decodeInterpolatedAlphaDXT5 of
 src/context/GLContextTexture.inc.mm.  A tile is given by its sixteen alpha values.
 */
module S3TCAlpha {
  import opened Arithmetic
  import opened Numerals
  import opened S3TCColor

  function Abs(x: int): nat { if x < 0 then -x else x }
  function Distance(x: int, y: int): nat { Abs(x - y) }

  // ----- DXT3 -----

  function Nibble(a: Byte): (n: int) ensures 0 <= n < 16 { (a * 15 + 127) / 255 }

  function ExplicitBlock(alphas: seq<Byte>): (block: seq<Byte>)
    requires |alphas| == 16
    ensures |block| == 8
  {
    seq(8, i requires 0 <= i < 8 => Nibble(alphas[2 * i + 1]) * 16 + Nibble(alphas[2 * i]))
  }

  function DecodeExplicit(block: seq<Byte>, i: nat): Byte
    requires |block| == 8 && i < 16
  {
    (if i % 2 == 1 then block[i / 2] / 16 else block[i / 2] % 16) * 17
  }

  method EncodeExplicitAlpha(alphas: seq<Byte>, out: array<Byte>, at: nat)
    requires |alphas| == 16 && at + 8 <= out.Length
    modifies out
    ensures Wrote(old(out[..]), out[..], at, ExplicitBlock(alphas))
  {
    for i := 0 to 8
      invariant forall k :: 0 <= k < out.Length ==>
                  out[k] == if at <= k < at + i then ExplicitBlock(alphas)[k - at] else old(out[k])
    {
      var x0: int, x1: int := alphas[2 * i], alphas[2 * i + 1];
      var a0, a1 := (x0 * 15 + 127) / 255, (x1 * 15 + 127) / 255;
      out[at + i] := a1 * 16 + a0;
    }
  }

  lemma NibbleBack(a: Byte)
    ensures Distance(a, Nibble(a) * 17) <= 8
    ensures 0 <= Nibble(a) * 17 < 256 && Nibble(Nibble(a) * 17) == Nibble(a)
  {
  }

  /** DXT3 alpha is off by at most 8, and encoding what was decoded gives the same block. */
  lemma ExplicitAlphaProjection(alphas: seq<Byte>, again: seq<Byte>)
    requires |alphas| == 16 && |again| == 16
    requires forall i :: 0 <= i < 16 ==> again[i] == DecodeExplicit(ExplicitBlock(alphas), i)
    ensures forall i :: 0 <= i < 16 ==> Distance(alphas[i], again[i]) <= 8
    ensures ExplicitBlock(again) == ExplicitBlock(alphas)
  {
    forall i | 0 <= i < 16 ensures again[i] == Nibble(alphas[i]) * 17 { ExplicitDecoded(alphas, i); }
    forall i | 0 <= i < 16
      ensures Distance(alphas[i], again[i]) <= 8 && Nibble(again[i]) == Nibble(alphas[i])
    {
      NibbleBack(alphas[i]);
    }
    SameNibbles(alphas, again);
  }

  lemma SameNibbles(alphas: seq<Byte>, again: seq<Byte>)
    requires |alphas| == 16 && |again| == 16
    requires forall i :: 0 <= i < 16 ==> Nibble(again[i]) == Nibble(alphas[i])
    ensures ExplicitBlock(again) == ExplicitBlock(alphas)
  {
    forall i | 0 <= i < 8 ensures ExplicitBlock(again)[i] == ExplicitBlock(alphas)[i] {
      assert Nibble(again[2 * i]) == Nibble(alphas[2 * i]) && Nibble(again[2 * i + 1]) == Nibble(alphas[2 * i + 1]);
    }
  }

  lemma ExplicitDecoded(alphas: seq<Byte>, i: nat)
    requires |alphas| == 16 && i < 16
    ensures DecodeExplicit(ExplicitBlock(alphas), i) == Nibble(alphas[i]) * 17
  {
    if i % 2 == 1 {
      assert 2 * (i / 2) + 1 == i;
    } else {
      assert 2 * (i / 2) == i;
    }
  }

  // Bits 4 * x to 4 * x + 3 of a row of sixteen bits, given as two bytes.
  function FourBits(low: int, high: int, x: nat): int {
    if x == 0 then low % 16 else if x == 1 then low / 16 else if x == 2 then high % 16 else high / 16
  }

  /** A DXT3 alpha block is four rows of sixteen bits, the leftmost texel in the lowest four; each
      four bits give the multiple of 17 closest to the alpha. */
  lemma ExplicitPlaces(alphas: seq<Byte>, y: nat, x: nat, q: nat)
    requires |alphas| == 16 && y < 4 && x < 4 && q < 16
    ensures var block := ExplicitBlock(alphas); var n := FourBits(block[2 * y], block[2 * y + 1], x);
            0 <= n < 16 && Distance(alphas[4 * y + x], 17 * n) <= Distance(alphas[4 * y + x], 17 * q)
  {
    hide Nibble, ExplicitBlock, FourBits;
    RowNibbles(alphas, y, x);
    NearestNibble(alphas[4 * y + x], q);
  }

  lemma NearestNibble(a: Byte, q: nat)
    requires q < 16
    ensures Distance(a, 17 * Nibble(a)) <= Distance(a, 17 * q)
  {
    hide Nibble;
    NibbleBack(a);
  }

  lemma RowNibbles(alphas: seq<Byte>, y: nat, x: nat)
    requires |alphas| == 16 && y < 4 && x < 4
    ensures FourBits(ExplicitBlock(alphas)[2 * y], ExplicitBlock(alphas)[2 * y + 1], x) == Nibble(alphas[4 * y + x])
  {
    hide Nibble;
    var block := ExplicitBlock(alphas);
    assert block[2 * y] == Nibble(alphas[4 * y + 1]) * 16 + Nibble(alphas[4 * y]);
    assert block[2 * y + 1] == Nibble(alphas[4 * y + 3]) * 16 + Nibble(alphas[4 * y + 2]);
  }

  // ----- DXT5: the encoder -----

  function AlphaLo(alphas: seq<Byte>): Byte {
    if alphas == [] then 255 else Min(AlphaLo(alphas[..|alphas| - 1]), alphas[|alphas| - 1])
  }
  function AlphaHi(alphas: seq<Byte>): Byte {
    if alphas == [] then 0 else Max(AlphaHi(alphas[..|alphas| - 1]), alphas[|alphas| - 1])
  }

  // The eight interpolated values, hi first, lo second.
  function Steps(hi: Byte, lo: Byte): (table: seq<int>)
    ensures |table| == 8
  {
    [hi, lo, (6 * hi + lo) / 7, (5 * hi + 2 * lo) / 7, (4 * hi + 3 * lo) / 7,
     (3 * hi + 4 * lo) / 7, (2 * hi + 5 * lo) / 7, (hi + 6 * lo) / 7]
  }

  // The first of the first n entries at least distance.
  function Closest(a: int, table: seq<int>, n: nat): (k: nat)
    requires 1 <= n <= |table|
    ensures k < n
    ensures forall j :: 0 <= j < n ==> Square(a - table[k]) <= Square(a - table[j])
    ensures forall j :: 0 <= j < k ==> Square(a - table[k]) < Square(a - table[j])
  {
    if n == 1 then 0
    else
      var k := Closest(a, table, n - 1);
      if Square(a - table[n - 1]) < Square(a - table[k]) then n - 1 else k
  }

  function AlphaIndices(alphas: seq<Byte>, table: seq<int>): (ks: seq<nat>)
    requires |table| == 8
    ensures |ks| == |alphas| && DigitsBelow(ks, 8)
  {
    seq(|alphas|, i requires 0 <= i < |alphas| => Closest(alphas[i], table, 8))
  }

  function Six(b: Byte): (bs: seq<Byte>) ensures |bs| == 6 { [b, b, b, b, b, b] }

  function AlphaBlock(alphas: seq<Byte>): (block: seq<Byte>)
    requires |alphas| == 16
    ensures |block| == 8
  {
    var hi, lo := AlphaHi(alphas), AlphaLo(alphas);
    if lo == hi then
      if hi == 0 then [0, 1] + Six(0xdb) else [hi, hi - 1] + Six(0)
    else
      [hi, lo] + Bytes(FromDigits(AlphaIndices(alphas, Steps(hi, lo)), 8), 6)
  }

  method FindClosest(a: Byte, table: seq<int>) returns (best: nat)
    requires |table| == 8
    ensures best == Closest(a, table, 8)
  {
    best := 0;
    var bestErr: int := -1;
    for k := 0 to 8
      invariant k == 0 ==> bestErr == -1
      invariant k > 0 ==> best == Closest(a, table, k) && bestErr == Square(a - table[best])
    {
      var err := Square(a - table[k]);
      if bestErr < 0 || err < bestErr {
        bestErr := err;
        best := k;
      }
    }
  }

  method PackAlphaIndices(alphas: seq<Byte>, table: seq<int>) returns (bits: nat)
    requires |table| == 8
    ensures bits == FromDigits(AlphaIndices(alphas, table), 8)
  {
    ghost var ks := AlphaIndices(alphas, table);
    bits := 0;
    for i := 0 to |alphas|
      invariant bits == FromDigits(ks[..i], 8)
    {
      var best := FindClosest(alphas[i], table);
      PackOneMore(ks, i, 8);
      bits := bits + best * Pow(8, i);   // bits |= best << (3 * i)
    }
    assert ks[..|alphas|] == ks;
  }

  method AlphaRange(alphas: seq<Byte>) returns (lo: Byte, hi: Byte)
    ensures lo == AlphaLo(alphas) && hi == AlphaHi(alphas)
  {
    lo, hi := 255, 0;
    for i := 0 to |alphas|
      invariant lo == AlphaLo(alphas[..i]) && hi == AlphaHi(alphas[..i])
    {
      assert alphas[..i + 1][..i] == alphas[..i];
      lo := Min(lo, alphas[i]);
      hi := Max(hi, alphas[i]);
    }
    assert alphas[..|alphas|] == alphas;
  }

  method WritePair(out: array<Byte>, at: nat, x: Byte, y: Byte)
    requires at + 2 <= out.Length
    modifies out
    ensures Wrote(old(out[..]), out[..], at, [x, y])
  {
    out[at] := x;
    out[at + 1] := y;
  }

  method Fill(out: array<Byte>, at: nat, b: Byte)
    requires at + 6 <= out.Length
    modifies out
    ensures Wrote(old(out[..]), out[..], at, Six(b))
  {
    for i := 0 to 6
      invariant forall k :: 0 <= k < out.Length ==> out[k] == if at <= k < at + i then b else old(out[k])
    {
      out[at + i] := b;
    }
  }

  /** encodeInterpolatedAlpha, in place. */
  method EncodeInterpolatedAlpha(alphas: seq<Byte>, out: array<Byte>, at: nat)
    requires |alphas| == 16 && at + 8 <= out.Length
    modifies out
    ensures Wrote(old(out[..]), out[..], at, AlphaBlock(alphas))
  {
    var lo, hi := AlphaRange(alphas);
    ghost var s0 := out[..];
    if lo == hi {
      WritePair(out, at, hi, if hi > 0 then hi - 1 else 1);
      ghost var s1 := out[..];
      if hi == 0 {
        Fill(out, at + 2, 0xdb);
        WroteTwice(s0, s1, out[..], at, [0, 1], Six(0xdb));
      } else {
        Fill(out, at + 2, 0);
        WroteTwice(s0, s1, out[..], at, [hi, hi - 1], Six(0));
      }
    } else {
      WritePair(out, at, hi, lo);
      ghost var s1 := out[..];
      var bits := PackAlphaIndices(alphas, Steps(hi, lo));
      WriteWord(out, at + 2, bits, 6);
      WroteTwice(s0, s1, out[..], at, [hi, lo], Bytes(bits, 6));
    }
  }

  // ----- DXT5: the decoder -----

  function DecoderTable(a0: Byte, a1: Byte): (table: seq<int>)
    ensures |table| == 8
  {
    if a0 > a1 then
      [a0, a1, (6 * a0 + a1) / 7, (5 * a0 + 2 * a1) / 7, (4 * a0 + 3 * a1) / 7,
       (3 * a0 + 4 * a1) / 7, (2 * a0 + 5 * a1) / 7, (a0 + 6 * a1) / 7]
    else
      [a0, a1, (4 * a0 + a1) / 5, (3 * a0 + 2 * a1) / 5, (2 * a0 + 3 * a1) / 5, (a0 + 4 * a1) / 5, 0, 255]
  }

  function StoredAlphaIndex(block: seq<Byte>, i: nat): (k: nat)
    requires |block| == 8
    ensures k < 8
  {
    DigitBelow(FromBytes(block[2..]), 8, i);
    Digit(FromBytes(block[2..]), 8, i)
  }

  function DecodeAlpha(block: seq<Byte>, i: nat): Byte
    requires |block| == 8
  {
    DecoderTable(block[0], block[1])[StoredAlphaIndex(block, i)]
  }

  function DecodeAlphas(block: seq<Byte>): (alphas: seq<Byte>)
    requires |block| == 8
    ensures |alphas| == 16
  {
    seq(16, i requires 0 <= i < 16 => DecodeAlpha(block, i))
  }

  // ----- DXT5: encoder against decoder -----

  // hi - lo of a tile.
  function Span(alphas: seq<Byte>): int { AlphaHi(alphas) - AlphaLo(alphas) }

  lemma {:induction false} InRange(alphas: seq<Byte>, i: nat)
    requires i < |alphas|
    ensures AlphaLo(alphas) <= alphas[i] <= AlphaHi(alphas)
  {
    if i < |alphas| - 1 { InRange(alphas[..|alphas| - 1], i); }
  }

  lemma {:induction false} RangeAttained(alphas: seq<Byte>) returns (atLo: nat, atHi: nat)
    requires alphas != []
    ensures atLo < |alphas| && alphas[atLo] == AlphaLo(alphas)
    ensures atHi < |alphas| && alphas[atHi] == AlphaHi(alphas)
  {
    var n := |alphas| - 1;
    atLo, atHi := n, n;
    if n > 0 {
      var l, h := RangeAttained(alphas[..n]);
      if AlphaLo(alphas) != alphas[n] { atLo := l; }
      if AlphaHi(alphas) != alphas[n] { atHi := h; }
    } else {
      assert alphas[..0] == [];
    }
  }

  // The range of a sequence is determined by its bounds being attained.
  lemma RangeIs(alphas: seq<Byte>, lo: Byte, hi: Byte, atLo: nat, atHi: nat)
    requires atLo < |alphas| && atHi < |alphas| && alphas[atLo] == lo && alphas[atHi] == hi
    requires forall i :: 0 <= i < |alphas| ==> lo <= alphas[i] <= hi
    ensures AlphaLo(alphas) == lo && AlphaHi(alphas) == hi
  {
    var l, h := RangeAttained(alphas);
    InRange(alphas, atLo);
    InRange(alphas, atHi);
  }

  lemma SquareOrder(x: int, y: int)
    ensures Square(x) <= Square(y) ==> Abs(x) <= Abs(y)
    ensures Square(x) == 0 <==> x == 0
  {
    if Abs(x) > Abs(y) { Strict(Abs(x), Abs(y)); }
    Strict(Abs(x) + 1, Abs(x));
    if x != 0 { Strict(Abs(x), 0); }
  }

  lemma Strict(x: nat, y: nat)
    requires x > y
    ensures x * x > y * y
  {
    Products(y + 1, x);
    assert (y + 1) * (y + 1) == y * y + 2 * y + 1;
  }

  lemma StepsInRange(hi: Byte, lo: Byte, k: nat)
    requires lo < hi && k < 8
    ensures lo <= Steps(hi, lo)[k] <= hi
    ensures Steps(hi, lo) == DecoderTable(hi, lo)
  {
  }

  // What a non-constant tile decodes to.
  lemma DecodedStep(alphas: seq<Byte>, i: nat)
    requires |alphas| == 16 && i < 16 && AlphaLo(alphas) < AlphaHi(alphas)
    ensures var table := Steps(AlphaHi(alphas), AlphaLo(alphas));
            DecodeAlpha(AlphaBlock(alphas), i) == table[Closest(alphas[i], table, 8)]
  {
    var hi, lo := AlphaHi(alphas), AlphaLo(alphas);
    var ks := AlphaIndices(alphas, Steps(hi, lo));
    assert AlphaBlock(alphas)[2..] == Bytes(FromDigits(ks, 8), 6);
    PackedIndices(ks, 8, 6, i);
    StepsInRange(hi, lo, 0);
  }

  /** Where an alpha block keeps what: two values, then eight 3-bit indices to three bytes, the first
      texel lowest. */
  lemma AlphaPlaces(block: seq<Byte>, h: nat, i: nat)
    requires |block| == 8 && h < 2 && i < 8
    ensures Word24(block[2 + 3 * h], block[3 + 3 * h], block[4 + 3 * h]) >= 0
    ensures StoredAlphaIndex(block, 8 * h + i)
            == Digit(Word24(block[2 + 3 * h], block[3 + 3 * h], block[4 + 3 * h]), 8, i)
  {
    hide Digit, FromBytes;
    IndexInHalf(block[2..], h, i);
  }

  /** The two values of a tile that is not constant are its highest and its lowest alpha. */
  lemma ExtremesStored(alphas: seq<Byte>, atLo: nat, atHi: nat)
    requires |alphas| == 16 && atLo < 16 && atHi < 16 && alphas[atLo] < alphas[atHi]
    requires forall j :: 0 <= j < 16 ==> alphas[atLo] <= alphas[j] <= alphas[atHi]
    ensures AlphaBlock(alphas)[0] == alphas[atHi] && AlphaBlock(alphas)[1] == alphas[atLo]
  {
    RangeIs(alphas, alphas[atLo], alphas[atHi], atLo, atHi);
  }

  lemma ClosestByDistance(a: int, table: seq<int>, j: nat)
    requires |table| == 8 && j < 8
    ensures var k := Closest(a, table, 8);
            && Distance(a, table[k]) <= Distance(a, table[j])
            && (j < k ==> Distance(a, table[k]) < Distance(a, table[j]))
  {
    var k := Closest(a, table, 8);
    SquareOrder(a - table[k], a - table[j]);
    SquareOrder(a - table[j], a - table[k]);
  }

  /** The stored index is the first of those whose value is closest. */
  lemma AlphaIndexIsFirstClosest(alphas: seq<Byte>, i: nat, j: nat)
    requires |alphas| == 16 && i < 16 && j < 8 && AlphaLo(alphas) < AlphaHi(alphas)
    ensures var block := AlphaBlock(alphas); var k := StoredAlphaIndex(block, i);
            var table := DecoderTable(block[0], block[1]);
            && Distance(alphas[i], table[k]) <= Distance(alphas[i], table[j])
            && (j < k ==> Distance(alphas[i], table[k]) < Distance(alphas[i], table[j]))
  {
    hide Steps, DecoderTable, Distance, FromDigits, Digit;
    var hi, lo := AlphaHi(alphas), AlphaLo(alphas);
    StoredIsClosest(alphas, i);
    StepsInRange(hi, lo, 0);
    ClosestByDistance(alphas[i], Steps(hi, lo), j);
  }

  lemma StoredIsClosest(alphas: seq<Byte>, i: nat)
    requires |alphas| == 16 && i < 16 && AlphaLo(alphas) < AlphaHi(alphas)
    ensures var block := AlphaBlock(alphas);
            && block[0] == AlphaHi(alphas) && block[1] == AlphaLo(alphas)
            && StoredAlphaIndex(block, i) == Closest(alphas[i], Steps(block[0], block[1]), 8)
  {
    hide Steps, Closest;
    var ks := AlphaIndices(alphas, Steps(AlphaHi(alphas), AlphaLo(alphas)));
    assert AlphaBlock(alphas)[2..] == Bytes(FromDigits(ks, 8), 6);
    PackedIndices(ks, 8, 6, i);
  }

  // The weighted sum that entry k divides, out of n parts.
  function Weighted(a0: Byte, a1: Byte, n: nat, k: nat): int { (n + 1 - k) * a0 + (k - 1) * a1 }

  lemma SeventhEntry(a0: Byte, a1: Byte, k: nat)
    requires a0 > a1 && 2 <= k < 8
    ensures DecoderTable(a0, a1)[k] == Weighted(a0, a1, 7, k) / 7
  {
    if k == 2 {
    } else if k == 3 {
    } else if k == 4 {
    } else if k == 5 {
    } else if k == 6 {
    } else {
      assert k == 7;
    }
  }

  lemma FifthEntry(a0: Byte, a1: Byte, k: nat)
    requires a0 <= a1 && 2 <= k < 6
    ensures DecoderTable(a0, a1)[k] == Weighted(a0, a1, 5, k) / 5
  {
    if k == 2 {
    } else if k == 3 {
    } else if k == 4 {
    } else {
      assert k == 5;
    }
  }

  lemma SeventhsAndFifths(y: int)
    ensures 7 * (y / 7) <= y < 7 * (y / 7) + 7 && 5 * (y / 5) <= y < 5 * (y / 5) + 5
  {
  }

  /** The value table of the S3TC extension: index 2 to 7 divide the range in sevenths when the first
      value is higher; otherwise 2 to 5 divide it in fifths, 6 is 0 and 7 is 255. */
  lemma DecoderTableSpacing(a0: Byte, a1: Byte, k: nat)
    requires k < 8
    ensures var x := DecoderTable(a0, a1)[k];
            && (k == 0 ==> x == a0) && (k == 1 ==> x == a1)
            && (a0 > a1 && k >= 2 ==> 7 * x <= (8 - k) * a0 + (k - 1) * a1 < 7 * x + 7)
            && (a0 <= a1 && 2 <= k <= 5 ==> 5 * x <= (6 - k) * a0 + (k - 1) * a1 < 5 * x + 5)
            && (a0 <= a1 && k >= 6 ==> x == if k == 6 then 0 else 255)
  {
    if a0 > a1 && k >= 2 {
      hide DecoderTable;
      SeventhEntry(a0, a1, k);
      SeventhsAndFifths(Weighted(a0, a1, 7, k));
    } else if a0 <= a1 && 2 <= k < 6 {
      hide DecoderTable;
      FifthEntry(a0, a1, k);
      SeventhsAndFifths(Weighted(a0, a1, 5, k));
    }
  }

  // A value of the table is its own closest entry, and the entry found for a is the first equal one.
  lemma ClosestOfClosest(a: int, table: seq<int>)
    requires |table| == 8
    ensures Closest(table[Closest(a, table, 8)], table, 8) == Closest(a, table, 8)
  {
    var k := Closest(a, table, 8);
    var j := Closest(table[k], table, 8);
    SquareOrder(table[k] - table[k], 0);
    SquareOrder(table[k] - table[j], 0);
    assert Square(table[k] - table[j]) <= Square(table[k] - table[k]);
    assert table[j] == table[k];
  }

  lemma ClosestOfEntry(table: seq<int>, k: nat)
    requires |table| == 8 && k < 8
    ensures table[Closest(table[k], table, 8)] == table[k]
  {
    var j := Closest(table[k], table, 8);
    SquareOrder(table[k] - table[k], 0);
    SquareOrder(table[k] - table[j], 0);
  }

  lemma DecodedAgain(alphas: seq<Byte>, i: nat)
    requires |alphas| == 16 && i < 16 && AlphaLo(alphas) < AlphaHi(alphas)
    ensures var table := Steps(AlphaHi(alphas), AlphaLo(alphas));
            var d := DecodeAlpha(AlphaBlock(alphas), i);
            && AlphaLo(alphas) <= d <= AlphaHi(alphas)
            && Closest(d, table, 8) == Closest(alphas[i], table, 8)
            && (alphas[i] == AlphaLo(alphas) || alphas[i] == AlphaHi(alphas) ==> d == alphas[i])
  {
    hide AlphaBlock, DecodeAlpha;
    var hi, lo := AlphaHi(alphas), AlphaLo(alphas);
    var table := Steps(hi, lo);
    DecodedStep(alphas, i);
    StepsInRange(hi, lo, Closest(alphas[i], table, 8));
    ClosestOfClosest(alphas[i], table);
    ClosestOfEntry(table, 0);
    ClosestOfEntry(table, 1);
  }

  lemma SameBlock(alphas: seq<Byte>, again: seq<Byte>)
    requires |alphas| == 16 && |again| == 16
    requires AlphaLo(again) == AlphaLo(alphas) < AlphaHi(alphas) == AlphaHi(again)
    requires var table := Steps(AlphaHi(alphas), AlphaLo(alphas));
             forall i :: 0 <= i < 16 ==> Closest(again[i], table, 8) == Closest(alphas[i], table, 8)
    ensures AlphaBlock(again) == AlphaBlock(alphas)
  {
    var table := Steps(AlphaHi(alphas), AlphaLo(alphas));
    assert AlphaIndices(again, table) == AlphaIndices(alphas, table);
  }

  /** For a tile that is not constant, decoding keeps the extremes, and encoding the decoded tile
      gives the same block byte for byte. */
  lemma VaryingTileProjection(alphas: seq<Byte>)
    requires |alphas| == 16 && AlphaLo(alphas) < AlphaHi(alphas)
    ensures var again := DecodeAlphas(AlphaBlock(alphas));
            && AlphaLo(again) == AlphaLo(alphas) && AlphaHi(again) == AlphaHi(alphas)
            && AlphaBlock(again) == AlphaBlock(alphas)
  {
    var again := DecodeAlphas(AlphaBlock(alphas));
    var hi, lo := AlphaHi(alphas), AlphaLo(alphas);
    var table := Steps(hi, lo);
    forall i | 0 <= i < 16
      ensures again[i] == DecodeAlpha(AlphaBlock(alphas), i) && lo <= again[i] <= hi
      ensures Closest(again[i], table, 8) == Closest(alphas[i], table, 8)
    {
      DecodedAgain(alphas, i);
    }
    var l, h := RangeAttained(alphas);
    DecodedAgain(alphas, l);
    DecodedAgain(alphas, h);
    RangeIs(again, lo, hi, l, h);
    SameBlock(alphas, again);
  }

  // The eight values again, in increasing order.
  function Rung(hi: Byte, lo: Byte, j: nat): int {
    if j == 0 then lo
    else if j == 1 then (hi + 6 * lo) / 7
    else if j == 2 then (2 * hi + 5 * lo) / 7
    else if j == 3 then (3 * hi + 4 * lo) / 7
    else if j == 4 then (4 * hi + 3 * lo) / 7
    else if j == 5 then (5 * hi + 2 * lo) / 7
    else if j == 6 then (6 * hi + lo) / 7
    else hi
  }

  // Where the table has rung j.
  function RungIndex(j: nat): (k: nat)
    requires j < 8
    ensures k < 8
  {
    if j == 0 then 1 else if j == 7 then 0 else 8 - j
  }

  lemma RungsAreSteps(hi: Byte, lo: Byte, j: nat)
    requires j < 8
    ensures Steps(hi, lo)[RungIndex(j)] == Rung(hi, lo, j)
  {
  }

  // Consecutive rungs are at most (hi - lo + 6) / 7 apart.
  lemma RungGap(hi: Byte, lo: Byte, j: nat)
    requires lo <= hi && j < 7
    ensures 0 <= 7 * (Rung(hi, lo, j + 1) - Rung(hi, lo, j)) <= hi as int - lo + 6
  {
    SeventhGap(7 * lo + j * (hi - lo), hi - lo);
  }

  lemma SeventhGap(x: int, d: nat)
    ensures 0 <= 7 * ((x + d) / 7 - x / 7) <= d + 6
  {
  }

  // Some rung is within half a gap of a.
  lemma {:induction false} RungNear(hi: Byte, lo: Byte, a: int, n: nat) returns (j: nat)
    requires lo <= hi && lo <= a <= Rung(hi, lo, n) && n < 8
    ensures j < 8 && 14 * Distance(a, Rung(hi, lo, j)) <= hi as int - lo + 6
  {
    if n == 0 {
      j := 0;
    } else if a <= Rung(hi, lo, n - 1) {
      j := RungNear(hi, lo, a, n - 1);
    } else {
      RungGap(hi, lo, n - 1);
      j := if 2 * a <= Rung(hi, lo, n - 1) + Rung(hi, lo, n) then n - 1 else n;
    }
  }

  /** Every alpha of a tile is reproduced within (hi - lo + 6) / 14. */
  lemma VaryingTileBound(alphas: seq<Byte>, i: nat)
    requires |alphas| == 16 && i < 16 && AlphaLo(alphas) < AlphaHi(alphas)
    ensures 14 * Distance(alphas[i], DecodeAlpha(AlphaBlock(alphas), i)) <= Span(alphas) + 6
  {
    var hi, lo := AlphaHi(alphas), AlphaLo(alphas);
    DecodedStep(alphas, i);
    InRange(alphas, i);
    var j := RungNear(hi, lo, alphas[i], 7);
    RungsAreSteps(hi, lo, j);
    NoFartherThan(alphas[i], Steps(hi, lo), RungIndex(j));
  }

  lemma NoFartherThan(a: int, table: seq<int>, k: nat)
    requires |table| == 8 && k < 8
    ensures Distance(a, table[Closest(a, table, 8)]) <= Distance(a, table[k])
  {
    SquareOrder(a - table[Closest(a, table, 8)], a - table[k]);
  }

  /** The bound is reached: between 0 and 8, alpha 7 is off by one. */
  lemma VaryingTileBoundTight(alphas: seq<Byte>, i: nat)
    requires |alphas| == 16 && i < 16 && AlphaLo(alphas) == 0 && AlphaHi(alphas) == 8 && alphas[i] == 7
    ensures 14 * Distance(alphas[i], DecodeAlpha(AlphaBlock(alphas), i)) == Span(alphas) + 6
  {
    DecodedStep(alphas, i);
    VaryingTileBound(alphas, i);
    SevenIsNoStep(AlphaHi(alphas), AlphaLo(alphas), Closest(alphas[i], Steps(AlphaHi(alphas), AlphaLo(alphas)), 8));
  }

  lemma SevenIsNoStep(hi: Byte, lo: Byte, k: nat)
    requires hi == 8 && lo == 0 && k < 8
    ensures Steps(hi, lo)[k] != 7
  {
  }

  predicate Constant(alphas: seq<Byte>, c: Byte) {
    forall i :: 0 <= i < |alphas| ==> alphas[i] == c
  }

  lemma ConstantRange(alphas: seq<Byte>, c: Byte)
    requires |alphas| == 16 && Constant(alphas, c)
    ensures AlphaLo(alphas) == c == AlphaHi(alphas)
  {
    RangeIs(alphas, c, c, 0, 0);
  }

  lemma EqualRangeIsConstant(alphas: seq<Byte>)
    requires AlphaLo(alphas) == AlphaHi(alphas)
    ensures Constant(alphas, AlphaHi(alphas))
  {
    forall i | 0 <= i < |alphas| ensures alphas[i] == AlphaHi(alphas) { InRange(alphas, i); }
  }

  lemma {:induction false} ZeroDigits(n: nat, i: nat)
    ensures Digit(0, 8, i) == 0 && FromBytes(seq(n, _ => 0)) == 0
    decreases n + i
  {
    if i > 0 { ZeroDigits(n, i - 1); }
    else if n > 0 {
      assert seq(n, _ => 0)[1..] == seq(n - 1, _ => 0);
      ZeroDigits(n - 1, 0);
    }
  }

  /** A constant tile other than 0 is reproduced exactly. */
  lemma ConstantTile(alphas: seq<Byte>, c: Byte)
    requires |alphas| == 16 && Constant(alphas, c) && c > 0
    ensures DecodeAlphas(AlphaBlock(alphas)) == alphas
  {
    ConstantRange(alphas, c);
    var block := AlphaBlock(alphas);
    assert block[2..] == Six(0) == seq(6, _ => 0);
    forall i | 0 <= i < 16 ensures DecodeAlpha(block, i) == c { ZeroDigits(6, i); }
  }

  /** The bytes of a constant tile: its value and the one below, so that the decoder uses eight values,
      then index 0 everywhere; the constantly 0 tile is 0, 1 and the fill byte. */
  lemma ConstantBytes(alphas: seq<Byte>, c: Byte)
    requires |alphas| == 16 && Constant(alphas, c)
    ensures var block := AlphaBlock(alphas);
            && (c > 0 ==> block == [c, c - 1, 0, 0, 0, 0, 0, 0])
            && (c == 0 ==> block == [0, 1, 0xdb, 0xdb, 0xdb, 0xdb, 0xdb, 0xdb])
  {
    ConstantRange(alphas, c);
  }

  // ----- the constant-zero tile -----

  lemma SixWord(b: Byte)
    ensures FromBytes(Six(b)) == b * 0x01_01_01_01_01_01
  {
    var s := Six(b);
    assert s[1..] == [b, b, b, b, b] && s[1..][1..] == [b, b, b, b];
    FourWord(b);
  }

  lemma FourWord(b: Byte)
    ensures FromBytes([b, b, b, b]) == b * 0x01_01_01_01
  {
    var s: seq<Byte> := [b, b, b, b];
    assert s[1..] == [b, b, b] && s[1..][1..] == [b, b] && s[1..][1..][1..] == [b] && s[1..][1..][1..][1..] == [];
    assert FromBytes([b]) == b;
    assert FromBytes([b, b]) == b + 256 * b;
    assert FromBytes([b, b, b]) == b + 256 * FromBytes([b, b]);
  }

  // The 3-bit digits of three bytes db db db, low digit first.
  function FillDigit(i: nat): nat {
    match i % 8
    case 0 => 3
    case 1 => 3
    case 2 => 7
    case 3 => 5
    case 4 => 5
    case 5 => 7
    case 6 => 6
    case _ => 6
  }

  function Fill24(i: nat): nat
    requires i <= 8
  {
    match i
    case 0 => 0xdbdbdb
    case 1 => 0x1b7b7b
    case 2 => 0x36f6f
    case 3 => 0x6ded
    case 4 => 0xdbd
    case 5 => 0x1b7
    case 6 => 0x36
    case 7 => 6
    case _ => 0
  }

  function Shifted(done: nat): nat
    requires done <= 8
  {
    match done
    case 0 => 0x100_0000
    case 1 => 0x20_0000
    case 2 => 0x4_0000
    case 3 => 0x8000
    case 4 => 0x1000
    case 5 => 0x200
    case 6 => 0x40
    case 7 => 8
    case _ => 1
  }

  lemma ShiftOne(x: nat, y: nat)
    ensures Low(x + 8 * y, 8) == x % 8 && Shift(x + 8 * y, 8) == x / 8 + y
  {
  }

  // Shifting the pattern by one index.
  lemma FillStep(done: nat, rest: nat)
    requires done < 8
    ensures var w := Fill24(done) + rest * Shifted(done);
            Low(w, 8) == FillDigit(done) && Shift(w, 8) == Fill24(done + 1) + rest * Shifted(done + 1)
  {
    assert Shifted(done) == 8 * Shifted(done + 1);
    assert rest * Shifted(done) == 8 * (rest * Shifted(done + 1));
    assert Fill24(done) % 8 == FillDigit(done) && Fill24(done) / 8 == Fill24(done + 1);
    ShiftOne(Fill24(done), rest * Shifted(done + 1));
  }

  // Below the second copy of the 24-bit pattern, shifted up, the first one is shifted out.
  lemma {:induction false} FillIndices(i: nat, done: nat, rest: nat)
    requires done <= 8 && i < 8 - done
    ensures Digit(Fill24(done) + rest * Shifted(done), 8, i) == FillDigit(done + i)
    decreases i
  {
    hide Fill24, Shifted, FillDigit;
    FillStep(done, rest);
    if i > 0 { FillIndices(i - 1, done + 1, rest); }
  }

  lemma {:induction false} ShiftedOut(done: nat, i: nat, rest: nat)
    requires done <= 8
    ensures Digit(Fill24(done) + rest * Shifted(done), 8, 8 - done + i) == Digit(rest, 8, i)
    decreases 8 - done
  {
    if done < 8 {
      hide FillDigit;
      FillStep(done, rest);
      ShiftedOut(done + 1, i, rest);
    }
  }

  // The sixteen digits of six bytes db.
  lemma FillDigits(i: nat)
    requires i < 16
    ensures Digit(FromBytes(Six(0xdb)), 8, i) == FillDigit(i)
  {
    SixWord(0xdb);
    assert FromBytes(Six(0xdb)) == Fill24(0) + Fill24(0) * Shifted(0);
    if i < 8 {
      FillIndices(i, 0, Fill24(0));
    } else {
      ShiftedOut(0, i - 8, Fill24(0));
      FillIndices(i - 8, 0, 0);
      assert (i - 8) % 8 == i % 8;
    }
  }

  /** The constant-zero tile is not reproduced: the fill byte 0xdb is not sixteen times index 6,
      and texels 2, 5, 10 and 13 decode to full opacity. */
  lemma ZeroTileDecodes(alphas: seq<Byte>, i: nat)
    requires |alphas| == 16 && Constant(alphas, 0) && i < 16
    ensures DecodeAlpha(AlphaBlock(alphas), i) == if i in {2, 5, 10, 13} then 255 else 0
  {
    ConstantRange(alphas, 0);
    assert AlphaBlock(alphas)[2..] == Six(0xdb);
    FillDigits(i);
    assert DecoderTable(0, 1) == [0, 1, 0, 0, 0, 0, 0, 255];
  }

  /** Index 6 sixteen times is the byte pattern b6 6d db twice; with it the tile would decode to 0
      everywhere, and it differs from the fill the encoder writes. */
  lemma IntendedZeroFill(i: nat)
    requires i < 16
    ensures var intended: seq<Byte> := [0xb6, 0x6d, 0xdb, 0xb6, 0x6d, 0xdb];
            && Bytes(FromDigits(seq(16, _ => 6), 8), 6) == intended
            && DecodeAlpha([0, 1] + intended, i) == 0
            && intended != Six(0xdb)
  {
    hide FromDigits, Bytes;
    var sixes: seq<nat> := seq(16, _ => 6);
    SixesValue(sixes);
    IntendedBytes(FromDigits(sixes, 8));
    PackedIndices(sixes, 8, 6, i);
    var block: seq<Byte> := [0, 1, 0xb6, 0x6d, 0xdb, 0xb6, 0x6d, 0xdb];
    assert block[2..] == [0xb6, 0x6d, 0xdb, 0xb6, 0x6d, 0xdb];
    assert block == [0, 1] + [0xb6, 0x6d, 0xdb, 0xb6, 0x6d, 0xdb];
  }

  lemma SixesValue(sixes: seq<nat>)
    requires |sixes| == 16 && forall i :: 0 <= i < |sixes| ==> sixes[i] == 6
    ensures FromDigits(sixes, 8) == 0xdb6d_b6db_6db6
  {
    SixesWord(sixes);
    PowDoubles(2);
    PowFour(256, 0);
    PowTwo(256, 4);
  }

  lemma IntendedBytes(w: nat)
    requires w == 0xdb6d_b6db_6db6
    ensures Bytes(w, 6) == [0xb6, 0x6d, 0xdb, 0xb6, 0x6d, 0xdb]
  {
    var w1, w2 := w / 0x100, w / 0x1_0000;
    var w3 := w / 0x100_0000;
    assert w1 == 0xdb_6db6_db6d && w2 == 0xdb6d_b6db && w3 == 0xdb_6db6;
    ThreeBytes(w, 6);
    ThreeBytes(w3, 3);
  }

  lemma ThreeBytes(w: nat, n: nat)
    requires n >= 3
    ensures Bytes(w, n) == [w % 256, w / 256 % 256, w / 65536 % 256] + Bytes(w / 16777216, n - 3)
  {
    assert Bytes(w, n) == [w % 256] + Bytes(w / 256, n - 1);
    assert Bytes(w / 256, n - 1) == [w / 256 % 256] + Bytes(w / 256 / 256, n - 2);
    assert w / 256 / 256 == w / 65536 && w / 65536 / 256 == w / 16777216;
    assert Bytes(w / 65536, n - 2) == [w / 65536 % 256] + Bytes(w / 16777216, n - 3);
  }

  lemma {:induction false} SixesWord(ks: seq<nat>)
    requires forall i :: 0 <= i < |ks| ==> ks[i] == 6
    ensures 7 * FromDigits(ks, 8) == 6 * (Pow(8, |ks|) as int - 1)
  {
    if ks != [] { SixesWord(ks[1..]); }
  }

  /** Encoding what was decoded reproduces the DXT5 alpha block if and only if the tile is not
      constantly 0; in that case the extremes survive and the error bound holds. */
  lemma AlphaProjectionIff(alphas: seq<Byte>)
    requires |alphas| == 16
    ensures var again := DecodeAlphas(AlphaBlock(alphas));
            && (AlphaBlock(again) == AlphaBlock(alphas) <==> !Constant(alphas, 0))
            && (!Constant(alphas, 0) ==>
                  && AlphaLo(again) == AlphaLo(alphas) && AlphaHi(again) == AlphaHi(alphas)
                  && forall i :: 0 <= i < 16 ==> 14 * Distance(alphas[i], again[i]) <= Span(alphas) + 6)
  {
    var again := DecodeAlphas(AlphaBlock(alphas));
    InRange(alphas, 0);
    if Constant(alphas, 0) {
      ZeroTileDiffers(alphas, again);
    } else if AlphaLo(alphas) == AlphaHi(alphas) {
      EqualRangeIsConstant(alphas);
      ConstantTile(alphas, AlphaHi(alphas));
    } else {
      VaryingTileProjection(alphas);
      forall i | 0 <= i < 16 ensures 14 * Distance(alphas[i], again[i]) <= Span(alphas) + 6 {
        VaryingTileBound(alphas, i);
      }
    }
  }

  lemma ZeroTileDiffers(alphas: seq<Byte>, again: seq<Byte>)
    requires |alphas| == 16 && Constant(alphas, 0) && again == DecodeAlphas(AlphaBlock(alphas))
    ensures AlphaBlock(again) != AlphaBlock(alphas)
  {
    ConstantRange(alphas, 0);
    ZeroTileDecodes(alphas, 2);
    InRange(again, 2);
    ZeroTileDecodes(alphas, 0);
    InRange(again, 0);
    assert AlphaBlock(again)[0] == 255;
  }
}
