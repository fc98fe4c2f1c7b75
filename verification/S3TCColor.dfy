/**
 The colour half of the S3TC block encoder (src/context/S3TCEncode.h) and of the decoder it must
 agree with (decodeS3TCLevelToRGBA8 in src/context/GLContextTexture.inc.mm).
 */
module S3TCColor {
  import opened Arithmetic
  import opened Numerals

  datatype Texel = Texel(r: Byte, g: Byte, b: Byte, a: Byte)
  datatype Rgb = Rgb(r: int, g: int, b: int)

  // The four encodable formats; Other is any other internal format.
  datatype Format = RgbDxt1 | RgbaDxt1 | RgbaDxt3 | RgbaDxt5 | Other

  // ----- 565 codes -----

  type Code = c: int | 0 <= c < 0x10000

  function Clamp(x: int): Byte { if x < 0 then 0 else if x > 255 then 255 else x }

  function Pack5(x: int): (q: int) ensures 0 <= q < 32 { (Clamp(x) * 31 + 127) / 255 }
  function Pack6(x: int): (q: int) ensures 0 <= q < 64 { (Clamp(x) * 63 + 127) / 255 }
  function Expand5(q: int): int { q * 255 / 31 }
  function Expand6(q: int): int { q * 255 / 63 }

  // (r5 << 11) | (g6 << 5) | b5
  function Pack565(c: Rgb): Code { Pack5(c.r) * 2048 + Pack6(c.g) * 32 + Pack5(c.b) }

  function Expand565(code: Code): (e: Rgb)
    ensures InByteRange(e)
  {
    Rgb(Expand5(code / 2048 % 32), Expand6(code / 32 % 64), Expand5(code % 32))
  }

  predicate InByteRange(c: Rgb) { 0 <= c.r < 256 && 0 <= c.g < 256 && 0 <= c.b < 256 }

  lemma Fields(code: Code, r5: int, g6: int, b5: int)
    requires 0 <= r5 < 32 && 0 <= g6 < 64 && 0 <= b5 < 32 && code == r5 * 2048 + g6 * 32 + b5
    ensures code / 2048 % 32 == r5 && code / 32 % 64 == g6 && code % 32 == b5
  {
  }

  // The quantised channels can be read back from a packed colour.
  lemma PackedFields(c: Rgb)
    ensures Expand565(Pack565(c)) == Rgb(Expand5(Pack5(c.r)), Expand6(Pack6(c.g)), Expand5(Pack5(c.b)))
  {
    Fields(Pack565(c), Pack5(c.r), Pack6(c.g), Pack5(c.b));
  }

  /** Red is the top five bits of a code, green the middle six, blue the low five. */
  lemma CodeFields(c: Rgb)
    ensures Pack565(c) / 2048 == (Clamp(c.r) * 31 + 127) / 255
    ensures Pack565(c) / 32 % 64 == (Clamp(c.g) * 63 + 127) / 255
    ensures Pack565(c) % 32 == (Clamp(c.b) * 31 + 127) / 255
  {
    Fields(Pack565(c), Pack5(c.r), Pack6(c.g), Pack5(c.b));
  }

  /** Every 16-bit code survives expansion and packing. */
  lemma PackExpand(code: Code)
    ensures Pack565(Expand565(code)) == code
  {
    Channel5(code / 2048 % 32);
    Channel6(code / 32 % 64);
    Channel5(code % 32);
    Recompose(code);
  }

  lemma Channel5(q: int)
    requires 0 <= q < 32
    ensures 0 <= Expand5(q) < 256 && Pack5(Expand5(q)) == q
  {
  }

  lemma Channel6(q: int)
    requires 0 <= q < 64
    ensures 0 <= Expand6(q) < 256 && Pack6(Expand6(q)) == q
  {
  }

  lemma Recompose(code: Code)
    ensures code / 2048 % 32 * 2048 + code / 32 % 64 * 32 + code % 32 == code
  {
    var high := code / 32;
    assert code / 2048 == high / 64 && high / 64 % 32 == high / 64;
    assert high / 64 * 64 + high % 64 == high;
  }

  /** Quantisation moves red and blue by -5..+4 and green by -2..+2 at most. */
  lemma ExpandPackBounds(c: Rgb)
    requires InByteRange(c)
    ensures var e := Expand565(Pack565(c));
            c.r - 5 <= e.r <= c.r + 4 && c.g - 2 <= e.g <= c.g + 2 && c.b - 5 <= e.b <= c.b + 4
  {
    PackedFields(c);
    GreenBound(c.g);
  }

  lemma GreenBound(x: int)
    requires 0 <= x < 256
    ensures x - 2 <= Expand6(Pack6(x)) <= x + 2
  {
    var q := (x * 63 + 127) / 255;
    // 255 q / 63 = 4 q + q / 21
    assert q * 255 / 63 == 4 * q + q / 21;
  }

  /** ... and every one of these extremes is reached. */
  lemma ExpandPackBoundsTight()
    ensures Expand565(Pack565(Rgb(37, 2, 37))) == Rgb(32, 0, 32)
    ensures Expand565(Pack565(Rgb(70, 83, 70))) == Rgb(74, 85, 74)
  {
    assert Pack5(37) == 4 && Pack6(2) == 0 && Pack5(70) == 9 && Pack6(83) == 21;
    Fields(4 * 2048 + 4, 4, 0, 4);
    Fields(9 * 2048 + 21 * 32 + 9, 9, 21, 9);
  }

  predicate Below(c: Rgb, d: Rgb) { c.r <= d.r && c.g <= d.g && c.b <= d.b }

  /** Packing is monotone channel by channel, so the upper corner of a box never packs below the
      lower one. */
  lemma PackMonotone(c: Rgb, d: Rgb)
    requires Below(c, d)
    ensures Pack5(c.r) <= Pack5(d.r) && Pack6(c.g) <= Pack6(d.g) && Pack5(c.b) <= Pack5(d.b)
    ensures Pack565(c) <= Pack565(d)
    ensures Pack565(c) == Pack565(d) ==>
              Pack5(c.r) == Pack5(d.r) && Pack6(c.g) == Pack6(d.g) && Pack5(c.b) == Pack5(d.b)
  {
  }

  // ----- bounding box -----

  // In punch-through mode transparent texels do not contribute colour.
  predicate Contributes(t: Texel, punch: bool) { !(punch && t.a < 128) }

  function BoxLo(ts: seq<Texel>, punch: bool): (c: Rgb)
    ensures InByteRange(c)
  {
    if ts == [] then Rgb(255, 255, 255)
    else
      var lo, t := BoxLo(ts[..|ts| - 1], punch), ts[|ts| - 1];
      if Contributes(t, punch) then Rgb(Min(lo.r, t.r), Min(lo.g, t.g), Min(lo.b, t.b)) else lo
  }

  function BoxHi(ts: seq<Texel>, punch: bool): (c: Rgb)
    ensures InByteRange(c)
  {
    if ts == [] then Rgb(0, 0, 0)
    else
      var hi, t := BoxHi(ts[..|ts| - 1], punch), ts[|ts| - 1];
      if Contributes(t, punch) then Rgb(Max(hi.r, t.r), Max(hi.g, t.g), Max(hi.b, t.b)) else hi
  }

  predicate AnyOpaque(ts: seq<Texel>, punch: bool) {
    exists i :: 0 <= i < |ts| && Contributes(ts[i], punch)
  }

  function ColorOf(t: Texel): Rgb { Rgb(t.r, t.g, t.b) }

  lemma {:induction false} InBox(ts: seq<Texel>, punch: bool, i: nat)
    requires i < |ts| && Contributes(ts[i], punch)
    ensures Below(BoxLo(ts, punch), ColorOf(ts[i])) && Below(ColorOf(ts[i]), BoxHi(ts, punch))
  {
    if i < |ts| - 1 { InBox(ts[..|ts| - 1], punch, i); }
  }

  // ----- ramp and nearest entry -----

  function Square(x: int): nat { if x < 0 then (-x) * (-x) else x * x }

  function Err(c: Rgb, e: Rgb): nat { Square(c.r - e.r) + Square(c.g - e.g) + Square(c.b - e.b) }

  function Ramp(c0: Code, c1: Code, punch: bool): (ramp: seq<Rgb>)
    ensures |ramp| == 4
  {
    var e0, e1 := Expand565(c0), Expand565(c1);
    if punch then
      [e0, e1, Rgb((e0.r + e1.r) / 2, (e0.g + e1.g) / 2, (e0.b + e1.b) / 2), Rgb(0, 0, 0)]
    else
      [e0, e1,
       Rgb((2 * e0.r + e1.r) / 3, (2 * e0.g + e1.g) / 3, (2 * e0.b + e1.b) / 3),
       Rgb((e0.r + 2 * e1.r) / 3, (e0.g + 2 * e1.g) / 3, (e0.b + 2 * e1.b) / 3)]
  }

  // The first entry of least error among the first n.
  function Nearest(c: Rgb, ramp: seq<Rgb>, n: nat): (k: nat)
    requires 1 <= n <= |ramp|
    ensures k < n
    ensures forall j :: 0 <= j < n ==> Err(c, ramp[k]) <= Err(c, ramp[j])
    ensures forall j :: 0 <= j < k ==> Err(c, ramp[k]) < Err(c, ramp[j])
  {
    if n == 1 then 0
    else
      var k := Nearest(c, ramp, n - 1);
      if Err(c, ramp[n - 1]) < Err(c, ramp[k]) then n - 1 else k
  }

  function Index(t: Texel, punch: bool, ramp: seq<Rgb>): (k: nat)
    requires |ramp| == 4
    ensures k < 4
  {
    if punch && t.a < 128 then 3 else Nearest(ColorOf(t), ramp, if punch then 3 else 4)
  }

  function Indices(ts: seq<Texel>, punch: bool, ramp: seq<Rgb>): (ks: seq<nat>)
    requires |ramp| == 4
    ensures |ks| == |ts| && DigitsBelow(ks, 4)
    ensures forall i :: 0 <= i < |ts| ==> ks[i] == Index(ts[i], punch, ramp)
  {
    seq(|ts|, i requires 0 <= i < |ts| => Index(ts[i], punch, ramp))
  }

  // ----- one block -----

  function LE16(v: Code): (bs: seq<Byte>) ensures |bs| == 2 { [v % 256, v / 256] }
  function ReadLE16(lo: Byte, hi: Byte): Code { lo + hi * 256 }

  datatype Endpoints = Endpoints(c0: Code, c1: Code)

  function BlockEndpoints(ts: seq<Texel>, punch: bool): Endpoints {
    var hi, lo := Pack565(BoxHi(ts, punch)), Pack565(BoxLo(ts, punch));
    if !AnyOpaque(ts, punch) then Endpoints(0, 0)
    else if (punch && hi > lo) || (!punch && hi < lo) then Endpoints(lo, hi)
    else Endpoints(hi, lo)
  }

  function BlockIndices(ts: seq<Texel>, punch: bool): (ks: seq<nat>)
    ensures |ks| == |ts| && DigitsBelow(ks, 4)
  {
    if !AnyOpaque(ts, punch) then seq(|ts|, _ => 3)
    else
      var e := BlockEndpoints(ts, punch);
      Indices(ts, punch, Ramp(e.c0, e.c1, punch))
  }

  function Layout(e: Endpoints, word: nat): (block: seq<Byte>)
    ensures |block| == 8
  {
    LE16(e.c0) + LE16(e.c1) + Bytes(word, 4)
  }

  function ColorBlock(ts: seq<Texel>, punch: bool): (block: seq<Byte>)
    requires |ts| == 16
    ensures |block| == 8
  {
    Layout(BlockEndpoints(ts, punch), FromDigits(BlockIndices(ts, punch), 4))
  }

  // The block written at offset `at`; everything else stays.
  ghost predicate Wrote(before: seq<Byte>, after: seq<Byte>, at: nat, block: seq<Byte>) {
    at + |block| <= |before| && after == before[..at] + block + before[at + |block|..]
  }

  method WriteLE16(out: array<Byte>, at: nat, v: Code)
    requires at + 2 <= out.Length
    modifies out
    ensures Wrote(old(out[..]), out[..], at, LE16(v))
  {
    out[at] := v % 256;
    out[at + 1] := v / 256 % 256;
  }

  method BoundingBox(ts: seq<Texel>, punch: bool) returns (lo: Rgb, hi: Rgb, anyOpaque: bool)
    ensures lo == BoxLo(ts, punch) && hi == BoxHi(ts, punch) && anyOpaque == AnyOpaque(ts, punch)
  {
    lo, hi, anyOpaque := Rgb(255, 255, 255), Rgb(0, 0, 0), false;
    for i := 0 to |ts|
      invariant lo == BoxLo(ts[..i], punch) && hi == BoxHi(ts[..i], punch)
      invariant anyOpaque == AnyOpaque(ts[..i], punch)
    {
      assert ts[..i + 1][..i] == ts[..i];
      if !(punch && ts[i].a < 128) {
        assert Contributes(ts[..i + 1][i], punch);
        anyOpaque := true;
        lo := Rgb(Min(lo.r, ts[i].r), Min(lo.g, ts[i].g), Min(lo.b, ts[i].b));
        hi := Rgb(Max(hi.r, ts[i].r), Max(hi.g, ts[i].g), Max(hi.b, ts[i].b));
      }
    }
    assert ts[..|ts|] == ts;
  }

  method FindNearest(c: Rgb, ramp: seq<Rgb>, rampCount: nat) returns (best: nat)
    requires 1 <= rampCount <= |ramp|
    ensures best == Nearest(c, ramp, rampCount)
  {
    best := 0;
    var bestErr: int := -1;
    for k := 0 to rampCount
      invariant k == 0 ==> bestErr == -1
      invariant k > 0 ==> best == Nearest(c, ramp, k) && bestErr == Err(c, ramp[best])
    {
      var err := Err(c, ramp[k]);
      if bestErr < 0 || err < bestErr {
        bestErr := err;
        best := k;
      }
    }
  }

  lemma PackOneMore(ks: seq<nat>, i: nat, b: Radix)
    requires i < |ks|
    ensures FromDigits(ks[..i + 1], b) == FromDigits(ks[..i], b) + ks[i] * Pow(b, i)
  {
    AppendDigit(ks[..i], ks[i], b);
    assert ks[..i + 1] == ks[..i] + [ks[i]];
  }

  method FindIndex(t: Texel, punch: bool, ramp: seq<Rgb>) returns (best: nat)
    requires |ramp| == 4
    ensures best == Index(t, punch, ramp)
  {
    if punch && t.a < 128 {
      best := 3;
    } else {
      best := FindNearest(ColorOf(t), ramp, if punch then 3 else 4);
    }
  }

  method PackIndices(ts: seq<Texel>, punch: bool, ramp: seq<Rgb>) returns (word: nat)
    requires |ramp| == 4
    ensures word == FromDigits(Indices(ts, punch, ramp), 4)
  {
    ghost var ks := Indices(ts, punch, ramp);
    word := 0;
    for i := 0 to |ts|
      invariant word == FromDigits(ks[..i], 4)
    {
      var best := FindIndex(ts[i], punch, ramp);
      PackOneMore(ks, i, 4);
      word := word + best * Pow(4, i);   // indices |= best << (2 * i)
    }
    assert ks[..|ts|] == ks;
  }

  method WriteWord(out: array<Byte>, at: nat, w: nat, n: nat)
    requires at + n <= out.Length
    modifies out
    ensures Wrote(old(out[..]), out[..], at, Bytes(w, n))
  {
    ghost var before := out[..];
    var rest := w;
    for b := 0 to n
      invariant out[..at] == before[..at] && out[at + b..] == before[at + b..]
      invariant out[at..at + b] + Bytes(rest, n - b) == Bytes(w, n)
    {
      out[at + b] := rest % 256;
      assert out[at..at + b + 1] == out[at..at + b] + [rest % 256];
      rest := rest / 256;
    }
    assert out[..] == out[..at] + out[at..at + n] + out[at + n..];
  }

  lemma WroteTwice(s0: seq<Byte>, s1: seq<Byte>, s2: seq<Byte>, at: nat, x: seq<Byte>, y: seq<Byte>)
    requires Wrote(s0, s1, at, x) && Wrote(s1, s2, at + |x|, y)
    ensures Wrote(s0, s2, at, x + y)
  {
    assert s1[..at + |x|] == s0[..at] + x;
    assert s1[at + |x| + |y|..] == s0[at + |x| + |y|..];
  }

  method WriteEndpoints(out: array<Byte>, at: nat, c0: Code, c1: Code)
    requires at + 4 <= out.Length
    modifies out
    ensures Wrote(old(out[..]), out[..], at, LE16(c0) + LE16(c1))
  {
    WriteLE16(out, at, c0);
    ghost var s1 := out[..];
    WriteLE16(out, at + 2, c1);
    WroteTwice(old(out[..]), s1, out[..], at, LE16(c0), LE16(c1));
  }

  method WriteBlock(out: array<Byte>, at: nat, e: Endpoints, word: nat)
    requires at + 8 <= out.Length
    modifies out
    ensures Wrote(old(out[..]), out[..], at, Layout(e, word))
  {
    WriteEndpoints(out, at, e.c0, e.c1);
    ghost var s1 := out[..];
    WriteWord(out, at + 4, word, 4);
    WroteTwice(old(out[..]), s1, out[..], at, LE16(e.c0) + LE16(e.c1), Bytes(word, 4));
  }

  // The canonical fully transparent block.
  method WriteTransparent(out: array<Byte>, at: nat)
    requires at + 8 <= out.Length
    modifies out
    ensures Wrote(old(out[..]), out[..], at, Layout(Endpoints(0, 0), 0xffff_ffff))
  {
    WriteEndpoints(out, at, 0, 0);
    ghost var s1 := out[..];
    out[at + 4], out[at + 5], out[at + 6], out[at + 7] := 0xff, 0xff, 0xff, 0xff;
    AllOnes();
    assert Wrote(s1, out[..], at + 4, [0xff, 0xff, 0xff, 0xff]);
    WroteTwice(old(out[..]), s1, out[..], at, LE16(0) + LE16(0), [0xff, 0xff, 0xff, 0xff]);
  }

  /** encodeColorBlock: bounding box, endpoints, index search and packing, in place. */
  method EncodeColorBlock(ts: seq<Texel>, punch: bool, out: array<Byte>, at: nat)
    requires |ts| == 16 && at + 8 <= out.Length
    modifies out
    ensures Wrote(old(out[..]), out[..], at, ColorBlock(ts, punch))
  {
    var lo, hi, anyOpaque := BoundingBox(ts, punch);
    if !anyOpaque {
      AllThree(BlockIndices(ts, punch));
      WriteTransparent(out, at);
    } else {
      var c0, c1 := Pack565(hi), Pack565(lo);
      if punch {
        if c0 > c1 { c0, c1 := c1, c0; }
      } else {
        if c0 < c1 { c0, c1 := c1, c0; }
      }
      var word := PackIndices(ts, punch, Ramp(c0, c1, punch));
      WriteBlock(out, at, Endpoints(c0, c1), word);
    }
  }

  // Sixteen times index 3 is the word 0xffffffff.
  lemma AllThree(ks: seq<nat>)
    requires |ks| == 16 && forall i :: 0 <= i < 16 ==> ks[i] == 3
    ensures FromDigits(ks, 4) == 0xffff_ffff
  {
    ThreesBelow(ks);
    PowDoubles(4);
    PowFour(256, 0);
    assert Pow(256, 0) == 1;
  }

  lemma AllOnes()
    ensures Bytes(0xffff_ffff, 4) == [0xff, 0xff, 0xff, 0xff]
  {
    assert Bytes(0xffff_ffff, 4) == [0xff] + Bytes(0xff_ffff, 3);
    assert Bytes(0xff_ffff, 3) == [0xff] + Bytes(0xffff, 2);
    assert Bytes(0xffff, 2) == [0xff] + Bytes(0xff, 1);
  }

  lemma {:induction false} ThreesBelow(ks: seq<nat>)
    requires forall i :: 0 <= i < |ks| ==> ks[i] == 3
    ensures FromDigits(ks, 4) == Pow(4, |ks|) - 1
  {
    if ks != [] { ThreesBelow(ks[1..]); }
  }

  // ----- the decoder -----

  function Opaque(c: Rgb): Texel requires InByteRange(c) { Texel(c.r, c.g, c.b, 255) }

  // buildColorTable: DXT3 and DXT5 always have four colours; both DXT1 formats take their mode
  // from the order of the endpoints, and differ in the alpha of index 3.
  function ColorTable(c0: Code, c1: Code, fmt: Format): (table: seq<Texel>)
    ensures |table| == 4
  {
    var e0, e1 := Expand565(c0), Expand565(c1);
    if fmt.RgbaDxt3? || fmt.RgbaDxt5? || c0 > c1 then
      [Opaque(e0), Opaque(e1),
       Opaque(Rgb((2 * e0.r + e1.r) / 3, (2 * e0.g + e1.g) / 3, (2 * e0.b + e1.b) / 3)),
       Opaque(Rgb((e0.r + 2 * e1.r) / 3, (e0.g + 2 * e1.g) / 3, (e0.b + 2 * e1.b) / 3))]
    else
      [Opaque(e0), Opaque(e1),
       Opaque(Rgb((e0.r + e1.r) / 2, (e0.g + e1.g) / 2, (e0.b + e1.b) / 2)),
       Texel(0, 0, 0, if fmt.RgbDxt1? then 255 else 0)]
  }

  function StoredEndpoints(block: seq<Byte>): Endpoints
    requires |block| == 8
  {
    Endpoints(ReadLE16(block[0], block[1]), ReadLE16(block[2], block[3]))
  }

  function StoredIndex(block: seq<Byte>, i: nat): (k: nat)
    requires |block| == 8
    ensures k < 4
  {
    DigitBelow(FromBytes(block[4..]), 4, i);
    Digit(FromBytes(block[4..]), 4, i)
  }

  lemma {:induction false} DigitBelow(w: nat, b: Radix, i: nat)
    ensures Digit(w, b, i) < b
    decreases i
  {
    if i > 0 { DigitBelow(Shift(w, b), b, i - 1); }
  }

  function DecodeColor(block: seq<Byte>, fmt: Format, i: nat): Texel
    requires |block| == 8
  {
    var e := StoredEndpoints(block);
    ColorTable(e.c0, e.c1, fmt)[StoredIndex(block, i)]
  }

  // ----- encoder against decoder -----

  lemma LayoutReadsBack(e: Endpoints, word: nat)
    ensures StoredEndpoints(Layout(e, word)) == e && Layout(e, word)[4..] == Bytes(word, 4)
  {
    var block := Layout(e, word);
    assert block[0] == LE16(e.c0)[0] && block[1] == LE16(e.c0)[1];
    assert block[2] == LE16(e.c1)[0] && block[3] == LE16(e.c1)[1];
  }

  /** What the decoder reads from a block is what the encoder chose. */
  lemma BlockReadsBack(ts: seq<Texel>, punch: bool, i: nat)
    requires |ts| == 16 && i < 16
    ensures StoredEndpoints(ColorBlock(ts, punch)) == BlockEndpoints(ts, punch)
    ensures StoredIndex(ColorBlock(ts, punch), i) == BlockIndices(ts, punch)[i]
  {
    var ks := BlockIndices(ts, punch);
    LayoutReadsBack(BlockEndpoints(ts, punch), FromDigits(ks, 4));
    PackedIndices(ks, 4, 4, i);
  }

  lemma BoxOrdered(ts: seq<Texel>, punch: bool)
    requires AnyOpaque(ts, punch)
    ensures Below(BoxLo(ts, punch), BoxHi(ts, punch))
  {
    var i :| 0 <= i < |ts| && Contributes(ts[i], punch);
    InBox(ts, punch, i);
  }

  lemma OpaqueEndpoints(ts: seq<Texel>)
    requires |ts| == 16
    ensures BlockEndpoints(ts, false) == Endpoints(Pack565(BoxHi(ts, false)), Pack565(BoxLo(ts, false)))
    ensures BlockEndpoints(ts, false).c0 >= BlockEndpoints(ts, false).c1
  {
    assert Contributes(ts[0], false);
    BoxOrdered(ts, false);
    PackMonotone(BoxLo(ts, false), BoxHi(ts, false));
  }

  lemma EqualEndpointsIndexZero(ts: seq<Texel>, i: nat)
    requires |ts| == 16 && i < 16 && BlockEndpoints(ts, false).c0 == BlockEndpoints(ts, false).c1
    ensures BlockIndices(ts, false)[i] == 0
  {
    assert Contributes(ts[0], false);
    EqualRamp(BlockEndpoints(ts, false).c0);
  }

  /** The order of the stored endpoints carries the mode: punch-through blocks have c0 <= c1, the
      others c0 >= c1 with the box corners unswapped, and an opaque block with c0 == c1, which a
      DXT1 decoder reads in three-colour mode, uses index 0 only. */
  lemma EndpointsCarryMode(ts: seq<Texel>, punch: bool, i: nat)
    requires |ts| == 16 && i < 16
    ensures var e := StoredEndpoints(ColorBlock(ts, punch));
            && (punch ==> e.c0 <= e.c1)
            && (!punch ==> e == Endpoints(Pack565(BoxHi(ts, false)), Pack565(BoxLo(ts, false))) && e.c0 >= e.c1)
            && (!punch && e.c0 == e.c1 ==> StoredIndex(ColorBlock(ts, punch), i) == 0)
  {
    BlockReadsBack(ts, punch, i);
    if !punch {
      OpaqueEndpoints(ts);
      if BlockEndpoints(ts, false).c0 == BlockEndpoints(ts, false).c1 { EqualEndpointsIndexZero(ts, i); }
    }
  }

  // ----- the endpoints are the corners of the tile -----

  // lo and hi bound the colours of a tile, and every bound is reached; in punch-through mode only
  // texels with an alpha of at least 128 count.
  predicate Corners(ts: seq<Texel>, punch: bool, lo: Rgb, hi: Rgb) {
    && (forall i :: 0 <= i < |ts| && (punch ==> ts[i].a >= 128) ==>
          lo.r <= ts[i].r <= hi.r && lo.g <= ts[i].g <= hi.g && lo.b <= ts[i].b <= hi.b)
    && (exists i :: 0 <= i < |ts| && (punch ==> ts[i].a >= 128) && ts[i].r == lo.r)
    && (exists i :: 0 <= i < |ts| && (punch ==> ts[i].a >= 128) && ts[i].g == lo.g)
    && (exists i :: 0 <= i < |ts| && (punch ==> ts[i].a >= 128) && ts[i].b == lo.b)
    && (exists i :: 0 <= i < |ts| && (punch ==> ts[i].a >= 128) && ts[i].r == hi.r)
    && (exists i :: 0 <= i < |ts| && (punch ==> ts[i].a >= 128) && ts[i].g == hi.g)
    && (exists i :: 0 <= i < |ts| && (punch ==> ts[i].a >= 128) && ts[i].b == hi.b)
  }

  lemma {:induction false} BoxWithin(ts: seq<Texel>, punch: bool, lo: Rgb, hi: Rgb)
    requires InByteRange(lo) && InByteRange(hi)
    requires forall i :: 0 <= i < |ts| && Contributes(ts[i], punch) ==>
               Below(lo, ColorOf(ts[i])) && Below(ColorOf(ts[i]), hi)
    ensures Below(lo, BoxLo(ts, punch)) && Below(BoxHi(ts, punch), hi)
  {
    if ts != [] { BoxWithin(ts[..|ts| - 1], punch, lo, hi); }
  }

  lemma BoxIsCorners(ts: seq<Texel>, punch: bool, lo: Rgb, hi: Rgb)
    requires Corners(ts, punch, lo, hi)
    ensures BoxLo(ts, punch) == lo && BoxHi(ts, punch) == hi && AnyOpaque(ts, punch)
  {
    forall i | 0 <= i < |ts| && Contributes(ts[i], punch)
      ensures Below(BoxLo(ts, punch), ColorOf(ts[i])) && Below(ColorOf(ts[i]), BoxHi(ts, punch))
    {
      InBox(ts, punch, i);
    }
    BoxWithin(ts, punch, lo, hi);
  }

  // Which texels reach the lower corner, channel by channel.
  lemma {:induction false} LowerReached(ts: seq<Texel>, punch: bool) returns (r: nat, g: nat, b: nat)
    requires AnyOpaque(ts, punch)
    ensures r < |ts| && Contributes(ts[r], punch) && ts[r].r == BoxLo(ts, punch).r
    ensures g < |ts| && Contributes(ts[g], punch) && ts[g].g == BoxLo(ts, punch).g
    ensures b < |ts| && Contributes(ts[b], punch) && ts[b].b == BoxLo(ts, punch).b
  {
    var n := |ts| - 1;
    r, g, b := n, n, n;
    if AnyOpaque(ts[..n], punch) {
      var r', g', b' := LowerReached(ts[..n], punch);
      var lo := BoxLo(ts, punch);
      if !Contributes(ts[n], punch) || ts[n].r != lo.r { r := r'; }
      if !Contributes(ts[n], punch) || ts[n].g != lo.g { g := g'; }
      if !Contributes(ts[n], punch) || ts[n].b != lo.b { b := b'; }
    } else {
      NothingBelow(ts[..n], punch);
    }
  }

  lemma {:induction false} UpperReached(ts: seq<Texel>, punch: bool) returns (r: nat, g: nat, b: nat)
    requires AnyOpaque(ts, punch)
    ensures r < |ts| && Contributes(ts[r], punch) && ts[r].r == BoxHi(ts, punch).r
    ensures g < |ts| && Contributes(ts[g], punch) && ts[g].g == BoxHi(ts, punch).g
    ensures b < |ts| && Contributes(ts[b], punch) && ts[b].b == BoxHi(ts, punch).b
  {
    var n := |ts| - 1;
    r, g, b := n, n, n;
    if AnyOpaque(ts[..n], punch) {
      var r', g', b' := UpperReached(ts[..n], punch);
      var hi := BoxHi(ts, punch);
      if !Contributes(ts[n], punch) || ts[n].r != hi.r { r := r'; }
      if !Contributes(ts[n], punch) || ts[n].g != hi.g { g := g'; }
      if !Contributes(ts[n], punch) || ts[n].b != hi.b { b := b'; }
    } else {
      NothingBelow(ts[..n], punch);
    }
  }

  lemma {:induction false} NothingBelow(ts: seq<Texel>, punch: bool)
    requires !AnyOpaque(ts, punch)
    ensures BoxLo(ts, punch) == Rgb(255, 255, 255) && BoxHi(ts, punch) == Rgb(0, 0, 0)
  {
    if ts != [] {
      var n := |ts| - 1;
      assert !Contributes(ts[n], punch);
      assert forall i :: 0 <= i < n ==> ts[..n][i] == ts[i];
      NothingBelow(ts[..n], punch);
    }
  }

  /** A tile with a contributing texel has corners. */
  lemma CornersExist(ts: seq<Texel>, punch: bool)
    requires AnyOpaque(ts, punch)
    ensures Corners(ts, punch, BoxLo(ts, punch), BoxHi(ts, punch))
  {
    forall i | 0 <= i < |ts| && Contributes(ts[i], punch)
      ensures Below(BoxLo(ts, punch), ColorOf(ts[i])) && Below(ColorOf(ts[i]), BoxHi(ts, punch))
    {
      InBox(ts, punch, i);
    }
    var r0, g0, b0 := LowerReached(ts, punch);
    var r1, g1, b1 := UpperReached(ts, punch);
  }

  /** The stored endpoints, in both modes, are the packed corners of the tile: the upper corner first,
      and the lower corner first in punch-through mode. */
  lemma EndpointsAreCorners(ts: seq<Texel>, punch: bool, lo: Rgb, hi: Rgb)
    requires |ts| == 16 && Corners(ts, punch, lo, hi)
    ensures StoredEndpoints(ColorBlock(ts, punch))
            == if punch then Endpoints(Pack565(lo), Pack565(hi)) else Endpoints(Pack565(hi), Pack565(lo))
  {
    hide Pack565;
    BlockReadsBack(ts, punch, 0);
    BoxIsCorners(ts, punch, lo, hi);
    BoxOrdered(ts, punch);
    PackMonotone(lo, hi);
  }

  /** A punch-through tile without an opaque texel has black endpoints and index 3 everywhere. */
  lemma TransparentTile(ts: seq<Texel>, i: nat)
    requires |ts| == 16 && i < 16 && forall j :: 0 <= j < 16 ==> ts[j].a < 128
    ensures StoredEndpoints(ColorBlock(ts, true)) == Endpoints(0, 0) && StoredIndex(ColorBlock(ts, true), i) == 3
  {
    BlockReadsBack(ts, true, i);
  }

  function Word16(low: int, high: int): int { low + 256 * high }

  // Bits 2 * x and 2 * x + 1 of a byte.
  function TwoBits(v: int, x: nat): int {
    if x == 0 then v % 4 else if x == 1 then v / 4 % 4 else if x == 2 then v / 16 % 4 else v / 64 % 4
  }

  /** Where a block keeps what: two little-endian codes, then one byte of four 2-bit indices for each
      row of the tile, the leftmost texel lowest. */
  lemma BlockPlaces(block: seq<Byte>, y: nat, x: nat)
    requires |block| == 8 && y < 4 && x < 4
    ensures StoredEndpoints(block).c0 == Word16(block[0], block[1])
    ensures StoredEndpoints(block).c1 == Word16(block[2], block[3])
    ensures StoredIndex(block, 4 * y + x) == TwoBits(block[4 + y], x)
  {
    hide FromBytes;
    IndexInByte(block[4..], y, x);
    DigitOfByte(block[4 + y], x);
  }

  lemma DigitOfByte(v: Byte, x: nat)
    requires x < 4
    ensures Digit(v, 4, x) == TwoBits(v, x)
  {
    var v1 := Shift(v, 4);
    var v2 := Shift(v1, 4);
    var v3 := Shift(v2, 4);
    assert v2 == v / 16 && v3 == v / 64;
    assert Digit(v, 4, 1) == Low(v1, 4) && Digit(v1, 4, 1) == Low(v2, 4) && Digit(v2, 4, 1) == Low(v3, 4);
  }

  lemma EqualRamp(c: Code)
    ensures var r := Ramp(c, c, false); r[0] == r[1] == r[2] == r[3]
  {
  }

  lemma SquareMonotone(x: int, y: int)
    requires -y <= x <= y
    ensures Square(x) <= Square(y)
  {
    if x < 0 { Products(-x, y); } else { Products(x, y); }
  }

  lemma Products(x: nat, y: nat)
    requires x <= y
    ensures x * x <= y * y
  {
    assert x * x <= x * y <= y * y;
  }

  // A colour whose box packs to one code is never closer to black than to that code.
  lemma BlackNotCloser(c: Rgb, lo: Rgb, hi: Rgb)
    requires InByteRange(lo) && InByteRange(hi) && Below(lo, c) && Below(c, hi) && Pack565(lo) == Pack565(hi)
    ensures Err(c, Expand565(Pack565(hi))) <= Err(c, Rgb(0, 0, 0))
  {
    hide Pack565, Expand565, Err;
    PackMonotone(lo, c);
    PackMonotone(c, hi);
    BetweenBlackAndTwice(c);
    CloserThanBlack(c, Expand565(Pack565(c)));
  }

  lemma CloserThanBlack(c: Rgb, e: Rgb)
    requires 0 <= e.r <= 2 * c.r && 0 <= e.g <= 2 * c.g && 0 <= e.b <= 2 * c.b
    ensures Err(c, e) <= Err(c, Rgb(0, 0, 0))
  {
    hide Square;
    SquareMonotone(c.r - e.r, c.r);
    SquareMonotone(c.g - e.g, c.g);
    SquareMonotone(c.b - e.b, c.b);
  }

  lemma BetweenBlackAndTwice(c: Rgb)
    requires InByteRange(c)
    ensures var e := Expand565(Pack565(c));
            0 <= e.r <= 2 * c.r && 0 <= e.g <= 2 * c.g && 0 <= e.b <= 2 * c.b
  {
    PackedFields(c);
    Halfway5(c.r);
    Halfway5(c.b);
    Halfway6(c.g);
  }

  lemma Halfway5(x: int)
    requires 0 <= x < 256
    ensures 0 <= Expand5(Pack5(x)) <= 2 * x
  {
  }

  lemma Halfway6(x: int)
    requires 0 <= x < 256
    ensures 0 <= Expand6(Pack6(x)) <= 2 * x
  {
  }

  // The formats whose decoder can be in the mode the encoder used.
  predicate ModeFits(fmt: Format, punch: bool) { !fmt.Other? && (punch ==> fmt.RgbaDxt1?) }

  // No opaque entry of the table is closer to the texel than what it decodes to.
  predicate NearestInTable(t: Texel, d: Texel, table: seq<Texel>) {
    d.a == 255 && forall k :: 0 <= k < |table| && table[k].a == 255 ==>
      Err(ColorOf(t), ColorOf(d)) <= Err(ColorOf(t), ColorOf(table[k]))
  }

  // Searching the first n entries of a ramp finds the nearest opaque entry of a table that
  // agrees with the ramp there and has no other opaque entry.
  lemma SearchIsNearest(t: Texel, ramp: seq<Rgb>, n: nat, table: seq<Texel>)
    requires 1 <= n <= |ramp| == |table|
    requires forall k :: 0 <= k < n ==> table[k].a == 255 && ColorOf(table[k]) == ramp[k]
    requires forall k :: n <= k < |table| ==> table[k].a != 255
    ensures NearestInTable(t, table[Nearest(ColorOf(t), ramp, n)], table)
  {
    var best := Nearest(ColorOf(t), ramp, n);
    assert forall j :: 0 <= j < n ==> Err(ColorOf(t), ramp[best]) <= Err(ColorOf(t), ramp[j]);
  }

  lemma ChosenIsNearest(ts: seq<Texel>, punch: bool, fmt: Format, i: nat)
    requires |ts| == 16 && i < 16 && ModeFits(fmt, punch) && Contributes(ts[i], punch)
    requires punch || BlockEndpoints(ts, punch).c0 > BlockEndpoints(ts, punch).c1 || fmt.RgbaDxt3? || fmt.RgbaDxt5?
    ensures var e := BlockEndpoints(ts, punch); var table := ColorTable(e.c0, e.c1, fmt);
            NearestInTable(ts[i], table[BlockIndices(ts, punch)[i]], table)
  {
    var e := BlockEndpoints(ts, punch);
    assert AnyOpaque(ts, punch);
    if !punch { OpaqueEndpoints(ts); }
    TableIsRamp(e, punch, fmt);
    SearchIsNearest(ts[i], Ramp(e.c0, e.c1, punch), if punch then 3 else 4, ColorTable(e.c0, e.c1, fmt));
  }

  lemma EqualEndpointsNearest(ts: seq<Texel>, fmt: Format, i: nat)
    requires |ts| == 16 && i < 16 && !fmt.Other?
    requires BlockEndpoints(ts, false).c0 == BlockEndpoints(ts, false).c1
    ensures var e := BlockEndpoints(ts, false); var table := ColorTable(e.c0, e.c1, fmt);
            NearestInTable(ts[i], table[0], table)
  {
    var e := BlockEndpoints(ts, false);
    OpaqueEndpoints(ts);
    assert Contributes(ts[i], false);
    InBox(ts, false, i);
    BlackNotCloser(ColorOf(ts[i]), BoxLo(ts, false), BoxHi(ts, false));
    TableIsRamp(e, false, fmt);
    EqualRamp(e.c0);
  }

  /** A texel below the alpha threshold of a punch-through block decodes to (0,0,0,0).  Any other
      texel decodes opaque, to a colour no farther from it than any opaque entry of the table
      the decoder itself builds for the block. */
  lemma DecodedIsNearest(ts: seq<Texel>, punch: bool, fmt: Format, i: nat)
    requires |ts| == 16 && i < 16 && ModeFits(fmt, punch)
    ensures var block := ColorBlock(ts, punch);
            var d := DecodeColor(block, fmt, i);
            && (!Contributes(ts[i], punch) ==> d == Texel(0, 0, 0, 0))
            && (Contributes(ts[i], punch) ==>
                  NearestInTable(ts[i], d, ColorTable(StoredEndpoints(block).c0, StoredEndpoints(block).c1, fmt)))
  {
    BlockReadsBack(ts, punch, i);
    EndpointsCarryMode(ts, punch, i);
    var e := BlockEndpoints(ts, punch);
    if !Contributes(ts[i], punch) {
      TableIsRamp(e, punch, fmt);
    } else if !punch && e.c0 == e.c1 {
      EqualEndpointsNearest(ts, fmt, i);
    } else {
      ChosenIsNearest(ts, punch, fmt, i);
    }
  }

  // The opaque entries of the decoder's table are the entries the encoder searched.
  lemma TableIsRamp(e: Endpoints, punch: bool, fmt: Format)
    requires ModeFits(fmt, punch) && (if punch then e.c0 <= e.c1 else e.c0 >= e.c1)
    ensures var table, ramp := ColorTable(e.c0, e.c1, fmt), Ramp(e.c0, e.c1, punch);
            && (forall k :: 0 <= k < 3 ==> table[k].a == 255 && ColorOf(table[k]) == ramp[k])
            && (punch ==> table[3] == Texel(0, 0, 0, 0))
            && (!punch && (e.c0 > e.c1 || fmt.RgbaDxt3? || fmt.RgbaDxt5?) ==>
                  table[3].a == 255 && ColorOf(table[3]) == ramp[3])
            && (!punch && e.c0 == e.c1 && (fmt.RgbDxt1? || fmt.RgbaDxt1?) ==> ColorOf(table[3]) == Rgb(0, 0, 0))
  {
  }

  lemma FirstFound(t: Texel, ramp: seq<Rgb>, n: nat, table: seq<Texel>, j: nat)
    requires 1 <= n <= |ramp| == |table| && j < Nearest(ColorOf(t), ramp, n)
    requires forall k :: 0 <= k < n ==> table[k].a == 255 && ColorOf(table[k]) == ramp[k]
    ensures table[j].a == 255
    ensures Err(ColorOf(t), ColorOf(table[Nearest(ColorOf(t), ramp, n)])) < Err(ColorOf(t), ColorOf(table[j]))
  {
    hide Err;
  }

  lemma ChosenIndex(ts: seq<Texel>, punch: bool, i: nat)
    requires |ts| == 16 && i < 16 && Contributes(ts[i], punch)
    ensures var e := BlockEndpoints(ts, punch);
            BlockIndices(ts, punch)[i]
            == Nearest(ColorOf(ts[i]), Ramp(e.c0, e.c1, punch), if punch then 3 else 4)
  {
    hide BlockEndpoints, Ramp, Nearest, Err;
    assert AnyOpaque(ts, punch);
  }

  lemma FirstChosen(ts: seq<Texel>, punch: bool, fmt: Format, i: nat, j: nat)
    requires |ts| == 16 && i < 16 && ModeFits(fmt, punch) && Contributes(ts[i], punch)
    requires j < BlockIndices(ts, punch)[i] && (punch ==> BlockEndpoints(ts, punch).c0 <= BlockEndpoints(ts, punch).c1)
    ensures var e := BlockEndpoints(ts, punch); var table := ColorTable(e.c0, e.c1, fmt);
            table[j].a == 255
            && Err(ColorOf(ts[i]), ColorOf(table[BlockIndices(ts, punch)[i]])) < Err(ColorOf(ts[i]), ColorOf(table[j]))
  {
    hide Err, Ramp, ColorTable, BlockEndpoints, BlockIndices, Nearest, ColorOf;
    var e := BlockEndpoints(ts, punch);
    ChosenIndex(ts, punch, i);
    if !punch { OpaqueEndpoints(ts); }
    if !punch && e.c0 == e.c1 {
      EqualEndpointsIndexZero(ts, i);
    } else {
      TableIsRamp(e, punch, fmt);
      FirstFound(ts[i], Ramp(e.c0, e.c1, punch), if punch then 3 else 4, ColorTable(e.c0, e.c1, fmt), j);
    }
  }

  /** The stored index is the first of the nearest ones. */
  lemma IndexIsFirstNearest(ts: seq<Texel>, punch: bool, fmt: Format, i: nat, j: nat)
    requires |ts| == 16 && i < 16 && ModeFits(fmt, punch) && Contributes(ts[i], punch)
    requires j < StoredIndex(ColorBlock(ts, punch), i)
    ensures var block := ColorBlock(ts, punch);
            var table := ColorTable(StoredEndpoints(block).c0, StoredEndpoints(block).c1, fmt);
            table[j].a == 255
            && Err(ColorOf(ts[i]), ColorOf(table[StoredIndex(block, i)])) < Err(ColorOf(ts[i]), ColorOf(table[j]))
  {
    hide ColorBlock, Err, ColorTable, StoredEndpoints, StoredIndex, BlockEndpoints, BlockIndices;
    BlockReadsBack(ts, punch, i);
    EndpointsCarryMode(ts, punch, i);
    FirstChosen(ts, punch, fmt, i, j);
  }

  // x is a third of y, rounded down.
  predicate Third(x: int, y: int) { 3 * x <= y < 3 * x + 3 }
  predicate Half(x: int, y: int) { 2 * x <= y < 2 * x + 2 }

  /** The table is that of the S3TC extension: with four colours the inner two divide the segment
      between the endpoints in thirds, with three the inner one halves it and index 3 is black. */
  lemma TableSpacing(c0: Code, c1: Code, fmt: Format)
    ensures var table := ColorTable(c0, c1, fmt); var e0, e1 := Expand565(c0), Expand565(c1);
            && ColorOf(table[0]) == e0 && ColorOf(table[1]) == e1
            && (fmt.RgbaDxt3? || fmt.RgbaDxt5? || c0 > c1 ==>
                  && Third(table[2].r, 2 * e0.r + e1.r) && Third(table[2].g, 2 * e0.g + e1.g)
                  && Third(table[2].b, 2 * e0.b + e1.b) && Third(table[3].r, e0.r + 2 * e1.r)
                  && Third(table[3].g, e0.g + 2 * e1.g) && Third(table[3].b, e0.b + 2 * e1.b)
                  && table[3].a == 255)
            && (!fmt.RgbaDxt3? && !fmt.RgbaDxt5? && c0 <= c1 ==>
                  && Half(table[2].r, e0.r + e1.r) && Half(table[2].g, e0.g + e1.g)
                  && Half(table[2].b, e0.b + e1.b)
                  && table[3] == Texel(0, 0, 0, if fmt.RgbDxt1? then 255 else 0))
            && table[0].a == table[1].a == table[2].a == 255
  {
  }

  // ----- flat tiles -----

  predicate Flat(ts: seq<Texel>, c: Rgb) {
    forall i :: 0 <= i < |ts| ==> ColorOf(ts[i]) == c
  }

  lemma {:induction false} FlatBox(ts: seq<Texel>, c: Rgb)
    requires ts != [] && Flat(ts, c)
    ensures BoxLo(ts, false) == c && BoxHi(ts, false) == c
  {
    if |ts| > 1 {
      FlatBox(ts[..|ts| - 1], c);
    } else {
      assert ts[..0] == [];
    }
    assert ColorOf(ts[|ts| - 1]) == c;
  }

  function DecodeTile(block: seq<Byte>, fmt: Format): (ts: seq<Texel>)
    requires |block| == 8
    ensures |ts| == 16
  {
    seq(16, i requires 0 <= i < 16 => DecodeColor(block, fmt, i))
  }

  /** A flat opaque tile decodes flat, within the quantisation bounds; it is reproduced exactly if
      and only if its colour is the expansion of some 565 code; and encoding the decoded tile
      gives the same block again. */
  lemma FlatTile(ts: seq<Texel>, c: Rgb, fmt: Format)
    requires |ts| == 16 && Flat(ts, c) && !fmt.Other?
    ensures var e := Expand565(Pack565(c));
            var out := DecodeTile(ColorBlock(ts, false), fmt);
            && Flat(out, e) && (forall i :: 0 <= i < 16 ==> out[i].a == 255)
            && c.r - 5 <= e.r <= c.r + 4 && c.g - 2 <= e.g <= c.g + 2 && c.b - 5 <= e.b <= c.b + 4
            && (e == c <==> exists code: Code :: Expand565(code) == c)
            && ColorBlock(out, false) == ColorBlock(ts, false)
  {
    hide ColorBlock, DecodeColor, Expand565, Pack565;
    var out := DecodeTile(ColorBlock(ts, false), fmt);
    assert ColorOf(ts[0]) == c;
    forall i | 0 <= i < 16 ensures out[i] == Opaque(Expand565(Pack565(c))) {
      FlatDecodes(ts, c, fmt, i);
    }
    ExpandPackBounds(c);
    forall other: Code | Expand565(other) == c ensures Expand565(Pack565(c)) == c { PackExpand(other); }
    PackExpand(Pack565(c));
    SameFlatBlock(ts, c, out, Expand565(Pack565(c)));
  }

  lemma FlatDecodes(ts: seq<Texel>, c: Rgb, fmt: Format, i: nat)
    requires |ts| == 16 && Flat(ts, c) && !fmt.Other? && i < 16
    ensures DecodeColor(ColorBlock(ts, false), fmt, i) == Opaque(Expand565(Pack565(c)))
  {
    FlatBlock(ts, c, i);
    BlockReadsBack(ts, false, i);
    TableIsRamp(BlockEndpoints(ts, false), false, fmt);
  }

  lemma FlatBlock(ts: seq<Texel>, c: Rgb, i: nat)
    requires |ts| == 16 && Flat(ts, c) && i < 16
    ensures BlockEndpoints(ts, false) == Endpoints(Pack565(c), Pack565(c))
    ensures BlockIndices(ts, false)[i] == 0
  {
    FlatBox(ts, c);
    assert Contributes(ts[0], false);
    EqualRamp(Pack565(c));
  }

  lemma SameFlatBlock(ts: seq<Texel>, c: Rgb, us: seq<Texel>, d: Rgb)
    requires |ts| == 16 && |us| == 16 && Flat(ts, c) && Flat(us, d) && Pack565(c) == Pack565(d)
    ensures ColorBlock(ts, false) == ColorBlock(us, false)
  {
    forall i | 0 <= i < 16 ensures BlockIndices(ts, false)[i] == 0 == BlockIndices(us, false)[i] {
      FlatBlock(ts, c, i);
      FlatBlock(us, d, i);
    }
    FlatBlock(ts, c, 0);
    FlatBlock(us, d, 0);
    assert BlockIndices(ts, false) == BlockIndices(us, false);
  }

  // ----- punch-through -----

  // What applyDXT1PunchThrough does to one texel.
  function PunchTexel(t: Texel): Texel {
    if t.a < 128 then Texel(0, 0, 0, 0) else t.(a := 255)
  }

  function PunchTile(ts: seq<Texel>): (us: seq<Texel>)
    ensures |us| == |ts| && forall i :: 0 <= i < |ts| ==> us[i] == PunchTexel(ts[i])
  {
    seq(|ts|, i requires 0 <= i < |ts| => PunchTexel(ts[i]))
  }

  predicate AnyTransparent(ts: seq<Texel>) {
    exists i :: 0 <= i < |ts| && ts[i].a < 128
  }

  lemma {:induction false} PunchBox(ts: seq<Texel>, punch: bool)
    requires punch || !AnyTransparent(ts)
    ensures BoxLo(PunchTile(ts), punch) == BoxLo(ts, punch) && BoxHi(PunchTile(ts), punch) == BoxHi(ts, punch)
  {
    if ts != [] {
      var n := |ts| - 1;
      PunchBox(ts[..n], punch);
      assert PunchTile(ts)[..n] == PunchTile(ts[..n]);
      assert ts[n].a < 128 ==> punch;
    }
  }

  /** The per-texel pass leaves every block of an alpha-capable DXT1 image as it was, although the
      encoder chooses its mode per block. */
  lemma PunchBlock(ts: seq<Texel>)
    requires |ts| == 16
    ensures AnyTransparent(PunchTile(ts)) == AnyTransparent(ts)
    ensures ColorBlock(PunchTile(ts), AnyTransparent(ts)) == ColorBlock(ts, AnyTransparent(ts))
  {
    var us, punch := PunchTile(ts), AnyTransparent(ts);
    forall i | 0 <= i < 16
      ensures Contributes(us[i], punch) == Contributes(ts[i], punch)
      ensures Contributes(ts[i], punch) ==> ColorOf(us[i]) == ColorOf(ts[i])
    {
      assert ts[i].a < 128 ==> punch;
    }
    assert AnyTransparent(us) == punch by {
      if punch {
        var i :| 0 <= i < 16 && ts[i].a < 128;
        assert us[i].a < 128;
      }
    }
    PunchBox(ts, punch);
    assert AnyOpaque(us, punch) == AnyOpaque(ts, punch) by {
      if AnyOpaque(ts, punch) {
        var i :| 0 <= i < 16 && Contributes(ts[i], punch);
        assert Contributes(us[i], punch);
      }
    }
    assert BlockEndpoints(us, punch) == BlockEndpoints(ts, punch);
    assert BlockIndices(us, punch) == BlockIndices(ts, punch);
  }
}
