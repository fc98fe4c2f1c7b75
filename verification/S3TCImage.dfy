/**
 Whole images: encodeImage and applyDXT1PunchThrough of src/context/S3TCEncode.h, and the texel
 fetch of decodeS3TCLevelToRGBA8 in src/context/GLContextTexture.inc.mm.
 */
module S3TCImage {
  import opened Arithmetic
  import opened Numerals
  import opened BlockLayout
  import opened S3TCColor
  import opened S3TCAlpha

  // A tightly packed RGBA8 image; bytes may be longer than the image.
  datatype Image = Image(bytes: seq<Byte>, width: nat, height: nat, depth: nat)

  function SliceTexels(m: Image): nat { Mul(m.height, m.width) }
  function TexelCount(m: Image): nat { Mul(m.depth, SliceTexels(m)) }

  predicate Valid(m: Image) {
    m.width > 0 && m.height > 0 && m.depth > 0 && 4 * TexelCount(m) <= |m.bytes|
  }

  // The index of texel (x, y) of slice z.
  function Pixel(m: Image, z: nat, y: nat, x: nat): nat { Mul(z, SliceTexels(m)) + Mul(y, m.width) + x }

  predicate InImage(m: Image, z: nat, y: nat, x: nat) { z < m.depth && y < m.height && x < m.width }

  lemma PixelInBounds(m: Image, z: nat, y: nat, x: nat)
    requires InImage(m, z, y, x)
    ensures Pixel(m, z, y, x) < TexelCount(m)
  {
    MulFits(y, m.height, m.width);
    MulFits(z, m.depth, SliceTexels(m));
  }

  function TexelAt(bytes: seq<Byte>, p: nat): Texel
    requires 4 * p + 4 <= |bytes|
  {
    Texel(bytes[4 * p], bytes[4 * p + 1], bytes[4 * p + 2], bytes[4 * p + 3])
  }

  function Fetch(m: Image, z: nat, y: nat, x: nat): Texel
    requires Valid(m) && InImage(m, z, y, x)
  {
    PixelInBounds(m, z, y, x);
    TexelAt(m.bytes, Pixel(m, z, y, x))
  }

  // ----- blocks -----

  function BlockBytes(fmt: Format): nat {
    match fmt
    case RgbDxt1 => 8
    case RgbaDxt1 => 8
    case RgbaDxt3 => 16
    case RgbaDxt5 => 16
    case Other => 0
  }

  function BlocksX(m: Image): nat { (m.width + 3) / 4 }
  function BlocksY(m: Image): nat { (m.height + 3) / 4 }

  // Edge blocks replicate the last real texel.
  function Last(i: nat, n: nat): (j: nat)
    requires n > 0
    ensures j < n && (i < n ==> j == i)
  {
    if i < n then i else n - 1
  }

  function Tile(m: Image, z: nat, row: nat, col: nat): (ts: seq<Texel>)
    requires Valid(m) && z < m.depth
    ensures |ts| == 16
  {
    seq(16, i requires 0 <= i < 16 =>
      Fetch(m, z, Last(row * 4 + i / 4, m.height), Last(col * 4 + i % 4, m.width)))
  }

  function Alphas(ts: seq<Texel>): (alphas: seq<Byte>)
    ensures |alphas| == |ts|
  {
    seq(|ts|, i requires 0 <= i < |ts| => ts[i].a)
  }

  function AlphaPart(fmt: Format, ts: seq<Texel>): (part: seq<Byte>)
    requires |ts| == 16
    ensures |part| == if fmt.RgbaDxt3? || fmt.RgbaDxt5? then 8 else 0
  {
    if fmt.RgbaDxt3? then ExplicitBlock(Alphas(ts))
    else if fmt.RgbaDxt5? then AlphaBlock(Alphas(ts))
    else []
  }

  // Alpha-capable DXT1 switches to the 3-colour mode when any texel of the tile is transparent.
  function PunchMode(fmt: Format, ts: seq<Texel>): bool { fmt.RgbaDxt1? && AnyTransparent(ts) }

  function EncodeBlock(fmt: Format, ts: seq<Texel>): (block: seq<Byte>)
    requires |ts| == 16 && !fmt.Other?
    ensures |block| == BlockBytes(fmt)
  {
    AlphaPart(fmt, ts) + ColorBlock(ts, PunchMode(fmt, ts))
  }

  // The pure map from (z, row, col) to encoded tiles.
  function RowBlocks(fmt: Format, m: Image, z: nat, row: nat): (blocks: seq<seq<Byte>>)
    requires Valid(m) && z < m.depth && !fmt.Other?
    ensures |blocks| == BlocksX(m) && Uniform(blocks, BlockBytes(fmt))
  {
    seq(BlocksX(m), col requires 0 <= col < BlocksX(m) => EncodeBlock(fmt, Tile(m, z, row, col)))
  }

  function SliceBlocks(fmt: Format, m: Image, z: nat): (slice: seq<seq<seq<Byte>>>)
    requires Valid(m) && z < m.depth && !fmt.Other?
    ensures SliceShape(slice, BlocksY(m), BlocksX(m), BlockBytes(fmt))
  {
    seq(BlocksY(m), row requires 0 <= row < BlocksY(m) => RowBlocks(fmt, m, z, row))
  }

  function Blocks(fmt: Format, m: Image): (grid: seq<seq<seq<seq<Byte>>>>)
    requires Valid(m) && !fmt.Other?
    ensures Shape(grid, m.depth, BlocksY(m), BlocksX(m), BlockBytes(fmt))
  {
    seq(m.depth, z requires 0 <= z < m.depth => SliceBlocks(fmt, m, z))
  }

  function Encoded(fmt: Format, m: Image): seq<Byte>
    requires Valid(m) && !fmt.Other?
  {
    GridBytes(Blocks(fmt, m))
  }

  function EncodedLength(fmt: Format, m: Image): nat {
    Mul(m.depth, Mul(BlocksY(m), Mul(BlocksX(m), BlockBytes(fmt))))
  }

  function OffsetOf(fmt: Format, m: Image, z: nat, row: nat, col: nat): nat {
    BlockOffset(BlocksY(m), BlocksX(m), BlockBytes(fmt), z, row, col)
  }

  predicate InGrid(m: Image, z: nat, row: nat, col: nat) {
    z < m.depth && row < BlocksY(m) && col < BlocksX(m)
  }

  /** The output has the length the encoder allocates, and the bytes at the offset of block
      (col, row) of slice z encode exactly that tile. */
  lemma EncodedLayout(fmt: Format, m: Image, z: nat, row: nat, col: nat)
    requires Valid(m) && !fmt.Other? && InGrid(m, z, row, col)
    ensures |Encoded(fmt, m)| == EncodedLength(fmt, m)
    ensures OffsetOf(fmt, m, z, row, col) + BlockBytes(fmt) <= |Encoded(fmt, m)|
    ensures Cut(Encoded(fmt, m), OffsetOf(fmt, m, z, row, col), BlockBytes(fmt))
            == EncodeBlock(fmt, Tile(m, z, row, col))
  {
    hide EncodeBlock;
    SlicesUniform(Blocks(fmt, m), m.depth, BlocksY(m), BlocksX(m), BlockBytes(fmt));
    GridHasBlock(Blocks(fmt, m), m.depth, BlocksY(m), BlocksX(m), BlockBytes(fmt), z, row, col);
  }

  // ----- the encoder -----

  method EncodeAlphaPart(fmt: Format, ts: seq<Texel>, out: array<Byte>, at: nat)
    requires |ts| == 16 && at + 8 <= out.Length && (fmt.RgbaDxt3? || fmt.RgbaDxt5?)
    modifies out
    ensures Wrote(old(out[..]), out[..], at, AlphaPart(fmt, ts))
  {
    if fmt.RgbaDxt3? {
      EncodeExplicitAlpha(Alphas(ts), out, at);
    } else {
      EncodeInterpolatedAlpha(Alphas(ts), out, at);
    }
  }

  method FindPunchThrough(fmt: Format, ts: seq<Texel>) returns (punch: bool)
    requires |ts| == 16
    ensures punch == PunchMode(fmt, ts)
  {
    punch := false;
    if fmt.RgbaDxt1? {
      for i := 0 to 16
        invariant !punch && forall j :: 0 <= j < i ==> ts[j].a >= 128
      {
        if ts[i].a < 128 { punch := true; break; }
      }
    }
  }

  method EncodeBlockInPlace(fmt: Format, ts: seq<Texel>, out: array<Byte>, at: nat)
    requires |ts| == 16 && !fmt.Other? && at + BlockBytes(fmt) <= out.Length
    modifies out
    ensures Wrote(old(out[..]), out[..], at, EncodeBlock(fmt, ts))
  {
    hide ColorBlock, AlphaPart, Wrote;
    if BlockBytes(fmt) == 8 {
      var punch := FindPunchThrough(fmt, ts);
      EncodeColorBlock(ts, punch, out, at);
      assert AlphaPart(fmt, ts) + ColorBlock(ts, punch) == ColorBlock(ts, punch);
    } else {
      ghost var s0 := out[..];
      EncodeAlphaPart(fmt, ts, out, at);
      ghost var s1 := out[..];
      EncodeColorBlock(ts, false, out, at + 8);
      WroteTwice(s0, s1, out[..], at, AlphaPart(fmt, ts), ColorBlock(ts, false));
    }
  }

  lemma TileEntry(m: Image, z: nat, row: nat, col: nat, ty: nat, tx: nat)
    requires Valid(m) && z < m.depth && ty < 4 && tx < 4
    ensures Tile(m, z, row, col)[4 * ty + tx] == Fetch(m, z, Last(row * 4 + ty, m.height), Last(col * 4 + tx, m.width))
  {
    hide Fetch;
    var i := 4 * ty + tx;
    assert i / 4 == ty && i % 4 == tx;
  }

  lemma TileAt(m: Image, z: nat, row: nat, col: nat, i: nat)
    requires Valid(m) && z < m.depth && i < 16
    ensures Tile(m, z, row, col)[i] == Fetch(m, z, Last(row * 4 + i / 4, m.height), Last(col * 4 + i % 4, m.width))
  {
    hide Fetch;
  }

  /** Slice by slice, row by row, texel by texel: where texel (x, y) of slice z is. */
  lemma PixelIsComputed(m: Image, z: nat, y: nat, x: nat)
    ensures Pixel(m, z, y, x) == z * (m.height * m.width) + y * m.width + x
  {
    MulIsProduct(m.height, m.width);
    MulIsProduct(z, m.height * m.width);
    MulIsProduct(y, m.width);
  }

  // The four bytes of texel (x, y) of slice z are r, g, b and a.
  ghost predicate BytesAre(m: Image, z: nat, y: nat, x: nat, t: Texel) {
    var p := 4 * (z * (m.height * m.width) + y * m.width + x);
    && 0 <= p && p + 4 <= |m.bytes|
    && m.bytes[p] == t.r && m.bytes[p + 1] == t.g && m.bytes[p + 2] == t.b && m.bytes[p + 3] == t.a
  }

  // ts is the 4x4 neighbourhood of block (col, row), with coordinates clamped to the image.
  ghost predicate Neighbourhood(m: Image, z: nat, row: nat, col: nat, ts: seq<Texel>)
    requires m.width > 0 && m.height > 0
  {
    && |ts| == 16
    && forall i :: 0 <= i < 16 ==>
         BytesAre(m, z, Min(4 * row + i / 4, m.height - 1), Min(4 * col + i % 4, m.width - 1), ts[i])
  }

  /** In terms of the bytes of the image: the tile loaded for a block is its clamped neighbourhood,
      and nothing else is. */
  lemma TileIsNeighbourhood(m: Image, z: nat, row: nat, col: nat, ts: seq<Texel>)
    requires Valid(m) && z < m.depth
    ensures Neighbourhood(m, z, row, col, ts) <==> ts == Tile(m, z, row, col)
  {
    forall i | 0 <= i < 16
      ensures BytesAre(m, z, Min(4 * row + i / 4, m.height - 1), Min(4 * col + i % 4, m.width - 1),
                       Tile(m, z, row, col)[i])
    {
      var y, x := Last(row * 4 + i / 4, m.height), Last(col * 4 + i % 4, m.width);
      TileAt(m, z, row, col, i);
      FetchedBytes(m, z, y, x);
    }
    if Neighbourhood(m, z, row, col, ts) {
      assert ts == Tile(m, z, row, col);
    }
  }

  lemma FetchedBytes(m: Image, z: nat, y: nat, x: nat)
    requires Valid(m) && InImage(m, z, y, x)
    ensures BytesAre(m, z, y, x, Fetch(m, z, y, x))
  {
    PixelInBounds(m, z, y, x);
    PixelIsComputed(m, z, y, x);
  }

  /** Bytes in, bytes out: the bytes of the output at the computed offset of a block are the encoding of
      its clamped neighbourhood in the input, in the right order. */
  lemma EncodedFromBytes(fmt: Format, m: Image, z: nat, row: nat, col: nat, ts: seq<Texel>)
    requires Valid(m) && !fmt.Other? && InGrid(m, z, row, col) && Neighbourhood(m, z, row, col, ts)
    ensures var b := BlockBytes(fmt); var across, down := (m.width + 3) / 4, (m.height + 3) / 4;
            && |Encoded(fmt, m)| == m.depth * across * down * b
            && OffsetOf(fmt, m, z, row, col) == z * across * down * b + (row * across + col) * b
    ensures OffsetOf(fmt, m, z, row, col) + BlockBytes(fmt) <= |Encoded(fmt, m)|
    ensures Cut(Encoded(fmt, m), OffsetOf(fmt, m, z, row, col), BlockBytes(fmt)) == EncodeBlock(fmt, ts)
  {
    hide EncodeBlock;
    TileIsNeighbourhood(m, z, row, col, ts);
    EncodedLayout(fmt, m, z, row, col);
    OffsetIsComputed(BlocksY(m), BlocksX(m), BlockBytes(fmt), z, row, col);
    SliceProduct(BlocksY(m), BlocksX(m), BlockBytes(fmt), m.depth);
  }

  // Copies the clamped 4x4 neighbourhood of block (col, row).
  method LoadTile(rgba8: array<Byte>, m: Image, z: nat, row: nat, col: nat) returns (ts: seq<Texel>)
    requires Valid(m) && m.bytes == rgba8[..] && z < m.depth
    ensures ts == Tile(m, z, row, col)
  {
    hide Pixel, Tile;
    ts := [];
    for ty := 0 to 4
      invariant ts == Tile(m, z, row, col)[..4 * ty]
    {
      var sy := Last(row * 4 + ty, m.height);
      for tx := 0 to 4
        invariant ts == Tile(m, z, row, col)[..4 * ty + tx]
      {
        var sx := Last(col * 4 + tx, m.width);
        PixelInBounds(m, z, sy, sx);
        var src := Pixel(m, z, sy, sx) * 4;
        TileEntry(m, z, row, col, ty, tx);
        ts := ts + [Texel(rgba8[src], rgba8[src + 1], rgba8[src + 2], rgba8[src + 3])];
      }
    }
  }

  lemma WroteNothing(s0: seq<Byte>, at: nat, parts: seq<seq<Byte>>)
    requires at <= |s0|
    ensures Wrote(s0, s0, at, Join(parts[..0]))
  {
    assert s0 == s0[..at] + [] + s0[at..];
  }

  // One more part behind those already written.
  lemma WroteNext(s0: seq<Byte>, s1: seq<Byte>, s2: seq<Byte>, at: nat, parts: seq<seq<Byte>>, len: nat, k: nat)
    requires k < |parts| && Uniform(parts, len)
    requires Wrote(s0, s1, at, Join(parts[..k])) && Wrote(s1, s2, at + Mul(k, len), parts[k])
    ensures Wrote(s0, s2, at, Join(parts[..k + 1]))
  {
    JoinLength(parts[..k], len);
    assert parts[..k + 1][..k] == parts[..k];
    WroteTwice(s0, s1, s2, at, Join(parts[..k]), parts[k]);
  }

  lemma RowAt(fmt: Format, m: Image, z: nat, row: nat)
    requires Valid(m) && z < m.depth && row < BlocksY(m) && !fmt.Other?
    ensures RowBytes(SliceBlocks(fmt, m, z))[row] == Join(RowBlocks(fmt, m, z, row))
  {
    hide EncodeBlock, Join;
  }

  lemma SliceAt(fmt: Format, m: Image, z: nat)
    requires Valid(m) && z < m.depth && !fmt.Other?
    ensures SliceBytes(Blocks(fmt, m))[z] == Join(RowBytes(SliceBlocks(fmt, m, z)))
  {
    hide EncodeBlock, Join;
  }

  method EncodeTile(fmt: Format, rgba8: array<Byte>, m: Image, z: nat, row: nat, col: nat, out: array<Byte>, at: nat)
    requires Valid(m) && m.bytes == rgba8[..] && !fmt.Other? && InGrid(m, z, row, col)
    requires at + BlockBytes(fmt) <= out.Length
    modifies out
    ensures Wrote(old(out[..]), out[..], at, RowBlocks(fmt, m, z, row)[col])
  {
    hide EncodeBlock;
    var ts := LoadTile(rgba8, m, z, row, col);
    EncodeBlockInPlace(fmt, ts, out, at);
  }

  method EncodeRow(fmt: Format, rgba8: array<Byte>, m: Image, z: nat, row: nat, out: array<Byte>, at: nat)
    requires Valid(m) && m.bytes == rgba8[..] && z < m.depth && row < BlocksY(m) && !fmt.Other? && out != rgba8
    requires at + Mul(BlocksX(m), BlockBytes(fmt)) <= out.Length
    modifies out
    ensures Wrote(old(out[..]), out[..], at, Join(RowBlocks(fmt, m, z, row)))
  {
    hide EncodeBlock, Wrote, Mul;
    ghost var parts, s0 := RowBlocks(fmt, m, z, row), out[..];
    var cols, b := BlocksX(m), BlockBytes(fmt);
    WroteNothing(s0, at, parts);
    for col := 0 to cols
      invariant Wrote(s0, out[..], at, Join(parts[..col]))
    {
      MulFits(col, cols, b);
      ghost var s1 := out[..];
      EncodeTile(fmt, rgba8, m, z, row, col, out, at + Mul(col, b));
      WroteNext(s0, s1, out[..], at, parts, b, col);
    }
    assert parts[..cols] == parts;
  }

  method EncodeSlice(fmt: Format, rgba8: array<Byte>, m: Image, z: nat, out: array<Byte>, at: nat)
    requires Valid(m) && m.bytes == rgba8[..] && z < m.depth && !fmt.Other? && out != rgba8
    requires at + Mul(BlocksY(m), Mul(BlocksX(m), BlockBytes(fmt))) <= out.Length
    modifies out
    ensures Wrote(old(out[..]), out[..], at, Join(RowBytes(SliceBlocks(fmt, m, z))))
  {
    hide SliceBlocks, RowBlocks, Join, Wrote, Mul;
    ghost var slice, s0 := SliceBlocks(fmt, m, z), out[..];
    var rows, cols, b := BlocksY(m), BlocksX(m), BlockBytes(fmt);
    RowsUniform(slice, rows, cols, b);
    WroteNothing(s0, at, RowBytes(slice));
    for row := 0 to rows
      invariant Wrote(s0, out[..], at, Join(RowBytes(slice)[..row]))
    {
      MulFits(row, rows, Mul(cols, b));
      ghost var s1 := out[..];
      EncodeRow(fmt, rgba8, m, z, row, out, at + Mul(row, Mul(cols, b)));
      RowAt(fmt, m, z, row);
      WroteNext(s0, s1, out[..], at, RowBytes(slice), Mul(cols, b), row);
    }
    assert RowBytes(slice)[..rows] == RowBytes(slice);
  }

  method EncodeSlices(fmt: Format, rgba8: array<Byte>, m: Image, out: array<Byte>)
    requires Valid(m) && m.bytes == rgba8[..] && !fmt.Other? && out != rgba8
    requires out.Length == EncodedLength(fmt, m)
    modifies out
    ensures Wrote(old(out[..]), out[..], 0, Encoded(fmt, m))
  {
    hide Blocks, SliceBlocks, Join, Wrote, Mul;
    ghost var grid, s0 := Blocks(fmt, m), out[..];
    var len := Mul(BlocksY(m), Mul(BlocksX(m), BlockBytes(fmt)));
    SlicesUniform(grid, m.depth, BlocksY(m), BlocksX(m), BlockBytes(fmt));
    WroteNothing(s0, 0, SliceBytes(grid));
    for z := 0 to m.depth
      invariant Wrote(s0, out[..], 0, Join(SliceBytes(grid)[..z]))
    {
      MulFits(z, m.depth, len);
      ghost var s1 := out[..];
      EncodeSlice(fmt, rgba8, m, z, out, Mul(z, len));
      SliceAt(fmt, m, z);
      WroteNext(s0, s1, out[..], 0, SliceBytes(grid), len, z);
    }
    assert SliceBytes(grid)[..m.depth] == SliceBytes(grid);
  }

  method EncodeValid(fmt: Format, rgba8: array<Byte>, m: Image) returns (out: array<Byte>)
    requires Valid(m) && m.bytes == rgba8[..] && !fmt.Other?
    ensures out[..] == Encoded(fmt, m)
  {
    hide EncodeBlock, Mul;
    out := new Byte[EncodedLength(fmt, m)](_ => 0);
    EncodeSlices(fmt, rgba8, m, out);
    SlicesUniform(Blocks(fmt, m), m.depth, BlocksY(m), BlocksX(m), BlockBytes(fmt));
  }

  /** encodeImage: refused inputs leave the caller's output as it is; otherwise it is replaced by the
      pure map from blocks to encoded tiles.  The caller passes at least width * height * depth
      texels. */
  method EncodeImage(fmt: Format, rgba8: array?<Byte>, width: nat, height: nat, depth: nat, previous: array<Byte>)
    returns (ok: bool, out: array<Byte>)
    requires rgba8 != null ==> 4 * Mul(depth, Mul(height, width)) <= rgba8.Length
    ensures ok <==> rgba8 != null && !fmt.Other? && width != 0 && height != 0 && depth != 0
    ensures ok ==> out[..] == Encoded(fmt, Image(rgba8[..], width, height, depth))
    ensures !ok ==> out == previous
  {
    hide EncodeBlock;
    if rgba8 == null || fmt.Other? || width == 0 || height == 0 || depth == 0 {
      return false, previous;
    }
    out := EncodeValid(fmt, rgba8, Image(rgba8[..], width, height, depth));
    ok := true;
  }

  // The first `count` texels have been through the pass, the rest is as before.
  ghost predicate Punched(before: seq<Byte>, after: seq<Byte>, count: nat) {
    && |after| == |before| && 4 * count <= |before|
    && (forall p :: 0 <= p < count ==> TexelAt(after, p) == PunchTexel(TexelAt(before, p)))
    && forall k :: 4 * count <= k < |before| ==> after[k] == before[k]
  }

  /** applyDXT1PunchThrough, in place. */
  method ApplyDXT1PunchThrough(fmt: Format, rgba8: array?<Byte>, texelCount: nat)
    requires rgba8 != null ==> 4 * texelCount <= rgba8.Length
    modifies rgba8
    ensures rgba8 != null && !fmt.RgbaDxt1? ==> rgba8[..] == old(rgba8[..])
    ensures rgba8 != null && fmt.RgbaDxt1? ==> Punched(old(rgba8[..]), rgba8[..], texelCount)
  {
    if !fmt.RgbaDxt1? { return; }
    if rgba8 == null { return; }
    for i := 0 to texelCount
      invariant Punched(old(rgba8[..]), rgba8[..], i)
    {
      PunchOne(rgba8, i);
      assert forall p :: 0 <= p < i ==> TexelAt(rgba8[..], p) == PunchTexel(TexelAt(old(rgba8[..]), p));
    }
  }

  method PunchOne(rgba8: array<Byte>, i: nat)
    requires 4 * i + 4 <= rgba8.Length
    modifies rgba8
    ensures TexelAt(rgba8[..], i) == PunchTexel(TexelAt(old(rgba8[..]), i))
    ensures forall k :: 0 <= k < rgba8.Length && !(4 * i <= k < 4 * i + 4) ==> rgba8[k] == old(rgba8[k])
  {
    var t := i * 4;
    if rgba8[t + 3] < 128 {
      rgba8[t], rgba8[t + 1], rgba8[t + 2], rgba8[t + 3] := 0, 0, 0, 0;
    } else {
      rgba8[t + 3] := 255;
    }
  }

  // ----- equal tiles give equal images -----

  // Slice z' of m' is encoded like slice z of m.
  ghost predicate SameBlocks(fmt: Format, m: Image, z: nat, m': Image, z': nat)
    requires Valid(m) && Valid(m') && z < m.depth && z' < m'.depth && !fmt.Other?
  {
    forall row: nat, col: nat :: row < BlocksY(m) && col < BlocksX(m) ==>
      EncodeBlock(fmt, Tile(m', z', row, col)) == EncodeBlock(fmt, Tile(m, z, row, col))
  }

  lemma SameSlice(fmt: Format, m: Image, z: nat, m': Image, z': nat)
    requires Valid(m) && Valid(m') && z < m.depth && z' < m'.depth && !fmt.Other?
    requires BlocksX(m) == BlocksX(m') && BlocksY(m) == BlocksY(m') && SameBlocks(fmt, m, z, m', z')
    ensures SliceBlocks(fmt, m', z') == SliceBlocks(fmt, m, z)
  {
    hide EncodeBlock;
    forall row | 0 <= row < BlocksY(m) ensures RowBlocks(fmt, m', z', row) == RowBlocks(fmt, m, z, row) {
      forall col | 0 <= col < BlocksX(m) ensures RowBlocks(fmt, m', z', row)[col] == RowBlocks(fmt, m, z, row)[col] {}
    }
  }

  lemma SameImage(fmt: Format, m: Image, m': Image)
    requires Valid(m) && Valid(m') && m'.depth == m.depth && BlocksX(m) == BlocksX(m') && BlocksY(m) == BlocksY(m')
    requires !fmt.Other? && forall z: nat :: z < m.depth ==> SameBlocks(fmt, m, z, m', z)
    ensures Encoded(fmt, m') == Encoded(fmt, m)
  {
    hide EncodeBlock;
    forall z: nat | z < m.depth ensures Blocks(fmt, m')[z] == Blocks(fmt, m)[z] { SameSlice(fmt, m, z, m', z); }
    assert Blocks(fmt, m') == Blocks(fmt, m);
  }

  // m' is m replicated at the right and bottom edges up to multiples of 4.
  ghost predicate PaddingOf(m: Image, m': Image)
    requires Valid(m) && Valid(m')
  {
    && m'.width == 4 * BlocksX(m) && m'.height == 4 * BlocksY(m) && m'.depth == m.depth
    && forall z: nat, y: nat, x: nat :: InImage(m', z, y, x) ==>
         Fetch(m', z, y, x) == Fetch(m, z, Last(y, m.height), Last(x, m.width))
  }

  lemma PaddedTile(m: Image, m': Image, z: nat, row: nat, col: nat)
    requires Valid(m) && Valid(m') && PaddingOf(m, m') && InGrid(m, z, row, col)
    ensures Tile(m', z, row, col) == Tile(m, z, row, col)
  {
    hide Fetch, Tile;
    forall i: nat | i < 16 ensures Tile(m', z, row, col)[i] == Tile(m, z, row, col)[i] {
      TileAt(m, z, row, col, i);
      TileAt(m', z, row, col, i);
      PaddedFetch(m, m', z, row * 4 + i / 4, col * 4 + i % 4);
    }
  }

  lemma PaddedFetch(m: Image, m': Image, z: nat, y: nat, x: nat)
    requires Valid(m) && Valid(m') && PaddingOf(m, m') && InImage(m', z, y, x)
    ensures Fetch(m', z, Last(y, m'.height), Last(x, m'.width)) == Fetch(m, z, Last(y, m.height), Last(x, m.width))
  {
  }

  /** Encoding clamps at the edges exactly as if the image had first been padded by replication. */
  lemma PaddingEncodesSame(fmt: Format, m: Image, m': Image)
    requires Valid(m) && Valid(m') && PaddingOf(m, m') && !fmt.Other?
    ensures Encoded(fmt, m') == Encoded(fmt, m)
  {
    hide EncodeBlock;
    forall z: nat | z < m.depth ensures SameBlocks(fmt, m, z, m', z) {
      forall row: nat, col: nat | row < BlocksY(m) && col < BlocksX(m)
        ensures Tile(m', z, row, col) == Tile(m, z, row, col)
      {
        PaddedTile(m, m', z, row, col);
      }
    }
    SameImage(fmt, m, m');
  }

  // Two images of the same width and height, one slice stack after the other.
  ghost predicate Stacked(m: Image, m': Image, both: Image) {
    && Valid(m) && Valid(m') && Valid(both) && |m.bytes| == 4 * TexelCount(m)
    && m'.width == m.width == both.width && m'.height == m.height == both.height
    && both.bytes == m.bytes + m'.bytes && both.depth == m.depth + m'.depth
  }

  /** Slices are independent: encoding a stack of two images concatenates their encodings. */
  lemma SlicesConcatenate(fmt: Format, m: Image, m': Image, both: Image)
    requires Stacked(m, m', both) && !fmt.Other?
    ensures Encoded(fmt, both) == Encoded(fmt, m) + Encoded(fmt, m')
  {
    hide EncodeBlock;
    forall z: nat | z < m.depth ensures Blocks(fmt, both)[z] == Blocks(fmt, m)[z] {
      LowerSlice(fmt, m, m', both, z);
    }
    forall z: nat | z < m'.depth ensures Blocks(fmt, both)[m.depth + z] == Blocks(fmt, m')[z] {
      UpperSlice(fmt, m, m', both, z);
    }
    assert Blocks(fmt, both) == Blocks(fmt, m) + Blocks(fmt, m');
    StackedBytes(Blocks(fmt, m), Blocks(fmt, m'));
  }

  lemma StackedBytes(grid: seq<seq<seq<seq<Byte>>>>, grid': seq<seq<seq<seq<Byte>>>>)
    ensures GridBytes(grid + grid') == GridBytes(grid) + GridBytes(grid')
  {
    assert SliceBytes(grid + grid') == SliceBytes(grid) + SliceBytes(grid');
    JoinConcat(SliceBytes(grid), SliceBytes(grid'));
  }

  lemma LowerFetch(m: Image, m': Image, both: Image, z: nat, y: nat, x: nat)
    requires Stacked(m, m', both) && InImage(m, z, y, x)
    ensures Fetch(both, z, y, x) == Fetch(m, z, y, x)
  {
    PixelInBounds(m, z, y, x);
  }

  lemma UpperFetch(m: Image, m': Image, both: Image, z: nat, y: nat, x: nat)
    requires Stacked(m, m', both) && InImage(m', z, y, x)
    ensures Fetch(both, m.depth + z, y, x) == Fetch(m', z, y, x)
  {
    PixelInBounds(m', z, y, x);
    MulAdds(m.depth, z, SliceTexels(m));
  }

  lemma LowerSlice(fmt: Format, m: Image, m': Image, both: Image, z: nat)
    requires Stacked(m, m', both) && z < m.depth && !fmt.Other?
    ensures SliceBlocks(fmt, both, z) == SliceBlocks(fmt, m, z)
  {
    hide EncodeBlock, Fetch;
    forall row: nat, col: nat ensures Tile(both, z, row, col) == Tile(m, z, row, col) {
      forall i | 0 <= i < 16 ensures Tile(both, z, row, col)[i] == Tile(m, z, row, col)[i] {
        LowerFetch(m, m', both, z, Last(row * 4 + i / 4, m.height), Last(col * 4 + i % 4, m.width));
      }
    }
    SameSlice(fmt, m, z, both, z);
  }

  lemma UpperSlice(fmt: Format, m: Image, m': Image, both: Image, z: nat)
    requires Stacked(m, m', both) && z < m'.depth && !fmt.Other?
    ensures SliceBlocks(fmt, both, m.depth + z) == SliceBlocks(fmt, m', z)
  {
    hide EncodeBlock, Fetch;
    forall row: nat, col: nat ensures Tile(both, m.depth + z, row, col) == Tile(m', z, row, col) {
      forall i | 0 <= i < 16 ensures Tile(both, m.depth + z, row, col)[i] == Tile(m', z, row, col)[i] {
        UpperFetch(m, m', both, z, Last(row * 4 + i / 4, m.height), Last(col * 4 + i % 4, m.width));
      }
    }
    SameSlice(fmt, m', z, both, m.depth + z);
  }

  // ----- decoding -----

  // The texel the decoder stores for local index i of a block.
  function DecodeTexel(fmt: Format, block: seq<Byte>, i: nat): Texel
    requires !fmt.Other? && |block| == BlockBytes(fmt) && i < 16
  {
    match fmt
    case RgbDxt1 => DecodeColor(block, fmt, i)
    case RgbaDxt1 => DecodeColor(block, fmt, i)
    case RgbaDxt3 => DecodeColor(block[8..], fmt, i).(a := DecodeExplicit(block[..8], i))
    case RgbaDxt5 => DecodeColor(block[8..], fmt, i).(a := DecodeAlpha(block[..8], i))
  }

  // What the colour half of the decoder yields for local index i of an encoded tile.
  function DecodedColor(fmt: Format, ts: seq<Texel>, i: nat): Texel
    requires |ts| == 16 && i < 16
  {
    DecodeColor(ColorBlock(ts, PunchMode(fmt, ts)), fmt, i)
  }

  // The two halves of a block are decoded independently.
  lemma HalvesDecode(fmt: Format, ts: seq<Texel>, i: nat)
    requires |ts| == 16 && !fmt.Other? && i < 16
    ensures DecodeTexel(fmt, EncodeBlock(fmt, ts), i) == match fmt
              case RgbaDxt3 => DecodedColor(fmt, ts, i).(a := DecodeExplicit(AlphaPart(fmt, ts), i))
              case RgbaDxt5 => DecodedColor(fmt, ts, i).(a := DecodeAlpha(AlphaPart(fmt, ts), i))
              case _ => DecodedColor(fmt, ts, i)
  {
    hide ColorBlock, AlphaBlock, ExplicitBlock, DecodeColor, DecodeAlpha, DecodeExplicit;
    var alpha, color := AlphaPart(fmt, ts), ColorBlock(ts, PunchMode(fmt, ts));
    if fmt.RgbaDxt3? || fmt.RgbaDxt5? {
      assert (alpha + color)[..8] == alpha && (alpha + color)[8..] == color;
    } else {
      assert alpha + color == color;
    }
  }

  // The decoder looks for the texel in the block it lies in.
  function DecodeAt(fmt: Format, m: Image, bytes: seq<Byte>, z: nat, y: nat, x: nat): Texel
    requires !fmt.Other? && OffsetOf(fmt, m, z, y / 4, x / 4) + BlockBytes(fmt) <= |bytes|
  {
    DecodeTexel(fmt, Cut(bytes, OffsetOf(fmt, m, z, y / 4, x / 4), BlockBytes(fmt)), LocalIndex(y, x))
  }

  function LocalIndex(y: nat, x: nat): (i: nat)
    ensures i < 16 && y / 4 * 4 + i / 4 == y && x / 4 * 4 + i % 4 == x
  {
    y % 4 * 4 + x % 4
  }

  function TileOf(m: Image, z: nat, y: nat, x: nat): (ts: seq<Texel>)
    requires Valid(m) && InImage(m, z, y, x)
    ensures |ts| == 16 && ts[LocalIndex(y, x)] == Fetch(m, z, y, x)
  {
    Tile(m, z, y / 4, x / 4)
  }

  /** The decoder finds the tile a texel was encoded in, at the right place. */
  lemma DecodeFindsTexel(fmt: Format, m: Image, z: nat, y: nat, x: nat)
    requires Valid(m) && !fmt.Other? && InImage(m, z, y, x)
    ensures OffsetOf(fmt, m, z, y / 4, x / 4) + BlockBytes(fmt) <= |Encoded(fmt, m)|
    ensures DecodeAt(fmt, m, Encoded(fmt, m), z, y, x)
            == DecodeTexel(fmt, EncodeBlock(fmt, TileOf(m, z, y, x)), LocalIndex(y, x))
  {
    hide EncodeBlock;
    EncodedLayout(fmt, m, z, y / 4, x / 4);
  }

  // Texel (x, y) of slice z after an encode and a decode.
  function RoundTrip(fmt: Format, m: Image, z: nat, y: nat, x: nat): Texel
    requires Valid(m) && !fmt.Other? && InImage(m, z, y, x)
  {
    DecodeFindsTexel(fmt, m, z, y, x);
    DecodeAt(fmt, m, Encoded(fmt, m), z, y, x)
  }

  // m after the punch-through pass.
  ghost predicate PunchedImage(m: Image, punched: Image) {
    && Valid(m) && punched == m.(bytes := punched.bytes) && Punched(m.bytes, punched.bytes, TexelCount(m))
  }

  lemma PunchedFetch(m: Image, punched: Image, z: nat, y: nat, x: nat)
    requires PunchedImage(m, punched) && InImage(m, z, y, x)
    ensures Fetch(punched, z, y, x) == PunchTexel(Fetch(m, z, y, x))
  {
    PixelInBounds(m, z, y, x);
  }

  lemma PunchedTileEncodes(ts: seq<Texel>)
    requires |ts| == 16
    ensures EncodeBlock(RgbaDxt1, PunchTile(ts)) == EncodeBlock(RgbaDxt1, ts)
  {
    hide ColorBlock;
    PunchBlock(ts);
  }

  lemma PunchedSlice(m: Image, punched: Image, z: nat)
    requires PunchedImage(m, punched) && z < m.depth
    ensures SameBlocks(RgbaDxt1, m, z, punched, z)
  {
    hide EncodeBlock;
    forall row: nat, col: nat | row < BlocksY(m) && col < BlocksX(m)
      ensures EncodeBlock(RgbaDxt1, Tile(punched, z, row, col)) == EncodeBlock(RgbaDxt1, Tile(m, z, row, col))
    {
      PunchedTile(m, punched, z, row, col);
      PunchedTileEncodes(Tile(m, z, row, col));
    }
  }

  lemma PunchedTile(m: Image, punched: Image, z: nat, row: nat, col: nat)
    requires PunchedImage(m, punched) && z < m.depth
    ensures Tile(punched, z, row, col) == PunchTile(Tile(m, z, row, col))
  {
    hide TexelAt, Pixel;
    forall i | 0 <= i < 16 ensures Tile(punched, z, row, col)[i] == PunchTexel(Tile(m, z, row, col)[i]) {
      PunchedFetch(m, punched, z, Last(row * 4 + i / 4, m.height), Last(col * 4 + i % 4, m.width));
    }
  }

  /** For alpha-capable DXT1 images of any size: the punch-through pass does not change the
      encoding. */
  lemma PunchThroughEncodesSame(m: Image, punched: Image)
    requires PunchedImage(m, punched)
    ensures Encoded(RgbaDxt1, punched) == Encoded(RgbaDxt1, m)
  {
    hide EncodeBlock;
    forall z: nat | z < m.depth ensures SameBlocks(RgbaDxt1, m, z, punched, z) { PunchedSlice(m, punched, z); }
    SameImage(RgbaDxt1, m, punched);
  }

  /** ... and the decoded image has the alpha the pass writes at every texel, and is (0,0,0,0)
      wherever the alpha was below 128. */
  lemma PunchThroughDecodes(m: Image, punched: Image, z: nat, y: nat, x: nat)
    requires PunchedImage(m, punched) && InImage(m, z, y, x)
    ensures RoundTrip(RgbaDxt1, m, z, y, x).a == Fetch(punched, z, y, x).a
    ensures Fetch(m, z, y, x).a >= 128 ==> RoundTrip(RgbaDxt1, m, z, y, x).a == 255
    ensures Fetch(m, z, y, x).a < 128 ==> RoundTrip(RgbaDxt1, m, z, y, x) == Texel(0, 0, 0, 0)
  {
    PunchedFetch(m, punched, z, y, x);
    DecodeFindsTexel(RgbaDxt1, m, z, y, x);
    PunchedTexelDecodes(TileOf(m, z, y, x), LocalIndex(y, x));
  }

  lemma PunchedTexelDecodes(ts: seq<Texel>, i: nat)
    requires |ts| == 16 && i < 16
    ensures var d := DecodeTexel(RgbaDxt1, EncodeBlock(RgbaDxt1, ts), i);
            && d.a == PunchTexel(ts[i]).a && (ts[i].a >= 128 ==> d.a == 255)
            && (ts[i].a < 128 ==> d == Texel(0, 0, 0, 0))
  {
    HalvesDecode(RgbaDxt1, ts, i);
    DecodedIsNearest(ts, AnyTransparent(ts), RgbaDxt1, i);
  }

  /** Alpha of the other formats at every texel of an image: DXT1 without alpha decodes opaque, and
      DXT3 alpha is off by at most 8. */
  lemma DecodedAlpha(m: Image, z: nat, y: nat, x: nat)
    requires Valid(m) && InImage(m, z, y, x)
    ensures RoundTrip(RgbDxt1, m, z, y, x).a == 255
    ensures Distance(Fetch(m, z, y, x).a, RoundTrip(RgbaDxt3, m, z, y, x).a) <= 8
  {
    var ts, i := TileOf(m, z, y, x), LocalIndex(y, x);
    DecodeFindsTexel(RgbDxt1, m, z, y, x);
    OpaqueTexelDecodes(ts, i);
    DecodeFindsTexel(RgbaDxt3, m, z, y, x);
    ExplicitTexelDecodes(ts, i);
  }

  lemma OpaqueTexelDecodes(ts: seq<Texel>, i: nat)
    requires |ts| == 16 && i < 16
    ensures DecodeTexel(RgbDxt1, EncodeBlock(RgbDxt1, ts), i).a == 255
  {
    HalvesDecode(RgbDxt1, ts, i);
    DecodedIsNearest(ts, false, RgbDxt1, i);
  }

  lemma ExplicitTexelDecodes(ts: seq<Texel>, i: nat)
    requires |ts| == 16 && i < 16
    ensures Distance(ts[i].a, DecodeTexel(RgbaDxt3, EncodeBlock(RgbaDxt3, ts), i).a) <= 8
  {
    HalvesDecode(RgbaDxt3, ts, i);
    ExplicitDecoded(Alphas(ts), i);
    NibbleBack(ts[i].a);
  }

  /** DXT5 alpha at every texel of an image: within the bound of its tile, unless the tile is
      constantly 0; then it is wrong, and fully opaque, at four texels of the block. */
  lemma InterpolatedAlpha(m: Image, z: nat, y: nat, x: nat)
    requires Valid(m) && InImage(m, z, y, x)
    ensures var alphas := Alphas(TileOf(m, z, y, x));
            var a, d := Fetch(m, z, y, x).a, RoundTrip(RgbaDxt5, m, z, y, x).a;
            && (!Constant(alphas, 0) ==> 14 * Distance(a, d) <= Span(alphas) + 6)
            && (Constant(alphas, 0) ==> d == if LocalIndex(y, x) in {2, 5, 10, 13} then 255 else 0)
  {
    DecodeFindsTexel(RgbaDxt5, m, z, y, x);
    InterpolatedTexelDecodes(TileOf(m, z, y, x), LocalIndex(y, x));
  }

  lemma InterpolatedTexelDecodes(ts: seq<Texel>, i: nat)
    requires |ts| == 16 && i < 16
    ensures var alphas := Alphas(ts); var d := DecodeTexel(RgbaDxt5, EncodeBlock(RgbaDxt5, ts), i).a;
            && (!Constant(alphas, 0) ==> 14 * Distance(ts[i].a, d) <= Span(alphas) + 6)
            && (Constant(alphas, 0) ==> d == if i in {2, 5, 10, 13} then 255 else 0)
  {
    hide ColorBlock, AlphaBlock, DecodeColor, DecodeAlpha;
    HalvesDecode(RgbaDxt5, ts, i);
    if Constant(Alphas(ts), 0) {
      ZeroTileDecodes(Alphas(ts), i);
    } else {
      var again := DecodeAlphas(AlphaBlock(Alphas(ts)));
      AlphaProjectionIff(Alphas(ts));
      assert 14 * Distance(Alphas(ts)[i], again[i]) <= Span(Alphas(ts)) + 6;
    }
  }

  // The table the decoder builds for a tile's colour block.
  function TableOf(fmt: Format, ts: seq<Texel>): (table: seq<Texel>)
    requires |ts| == 16
  {
    var e := StoredEndpoints(ColorBlock(ts, PunchMode(fmt, ts)));
    ColorTable(e.c0, e.c1, fmt)
  }

  /** Colour at every texel of an image, in every format: a texel the block does not treat as
      transparent decodes to a nearest opaque entry of the table the decoder builds for its block. */
  lemma DecodedColorIsNearest(fmt: Format, m: Image, z: nat, y: nat, x: nat)
    requires Valid(m) && !fmt.Other? && InImage(m, z, y, x)
    requires fmt.RgbaDxt1? ==> Fetch(m, z, y, x).a >= 128
    ensures NearestInTable(Fetch(m, z, y, x), RoundTrip(fmt, m, z, y, x).(a := 255), TableOf(fmt, TileOf(m, z, y, x)))
  {
    DecodeFindsTexel(fmt, m, z, y, x);
    NearestTexelDecodes(fmt, TileOf(m, z, y, x), LocalIndex(y, x));
  }

  lemma NearestTexelDecodes(fmt: Format, ts: seq<Texel>, i: nat)
    requires |ts| == 16 && i < 16 && !fmt.Other? && (fmt.RgbaDxt1? ==> ts[i].a >= 128)
    ensures NearestInTable(ts[i], DecodeTexel(fmt, EncodeBlock(fmt, ts), i).(a := 255), TableOf(fmt, ts))
  {
    hide ColorBlock, AlphaBlock, ExplicitBlock, DecodeColor, DecodeAlpha, ColorTable, EncodeBlock, DecodeTexel;
    HalvesDecode(fmt, ts, i);
    DecodedIsNearest(ts, PunchMode(fmt, ts), fmt, i);
  }

  // ----- encoding again -----

  // d is what decoding the encoded image m gives.
  ghost predicate DecodedImage(fmt: Format, m: Image, d: Image)
    requires Valid(m) && !fmt.Other?
  {
    && Valid(d) && d.width == m.width && d.height == m.height && d.depth == m.depth
    && forall z: nat, y: nat, x: nat :: InImage(m, z, y, x) ==> Fetch(d, z, y, x) == RoundTrip(fmt, m, z, y, x)
  }

  // Local index i of an edge block repeats the one that local index Real(i) was loaded from.
  function Real(m: Image, row: nat, col: nat, i: nat): (j: nat)
    requires m.width > 0 && m.height > 0 && row < BlocksY(m) && col < BlocksX(m) && i < 16
    ensures j < 16
  {
    LocalIndex(Last(row * 4 + i / 4, m.height), Last(col * 4 + i % 4, m.width))
  }

  // Clamping stays in the block: q is a row or column of blocks, t a place in it.
  lemma LastInBlock(q: nat, t: nat, n: nat)
    requires q < (n + 3) / 4 && t < 4
    ensures n > 0 && Last(q * 4 + t, n) / 4 == q
  {
  }

  lemma RealPlace(m: Image, z: nat, row: nat, col: nat, i: nat)
    requires Valid(m) && InGrid(m, z, row, col) && i < 16
    ensures var y, x := Last(row * 4 + i / 4, m.height), Last(col * 4 + i % 4, m.width);
            InImage(m, z, y, x) && y / 4 == row && x / 4 == col
  {
    hide Last;
    LastInBlock(row, i / 4, m.height);
    LastInBlock(col, i % 4, m.width);
  }

  // What local index i of a block was loaded from.
  lemma RealTexel(m: Image, z: nat, row: nat, col: nat, i: nat)
    requires Valid(m) && InGrid(m, z, row, col) && i < 16
    ensures var y, x := Last(row * 4 + i / 4, m.height), Last(col * 4 + i % 4, m.width);
            && InImage(m, z, y, x) && y / 4 == row && x / 4 == col
            && Tile(m, z, row, col)[i] == Fetch(m, z, y, x) == Tile(m, z, row, col)[Real(m, row, col, i)]
  {
    hide Fetch, Last, Tile, LocalIndex;
    RealPlace(m, z, row, col, i);
    TileAt(m, z, row, col, i);
    var y, x := Last(row * 4 + i / 4, m.height), Last(col * 4 + i % 4, m.width);
    assert TileOf(m, z, y, x)[LocalIndex(y, x)] == Fetch(m, z, y, x);
  }

  // Every texel of a tile of the decoded image is decoded from the same tile of m.
  lemma DecodedTile(fmt: Format, m: Image, d: Image, z: nat, row: nat, col: nat, i: nat)
    requires Valid(m) && !fmt.Other? && DecodedImage(fmt, m, d) && InGrid(m, z, row, col) && i < 16
    ensures var ts := Tile(m, z, row, col); var j := Real(m, row, col, i);
            && ts[i] == ts[j]
            && Tile(d, z, row, col)[i] == DecodeTexel(fmt, EncodeBlock(fmt, ts), j)
  {
    hide EncodeBlock, DecodeTexel, RoundTrip, DecodeAt, Fetch, Tile;
    RealTexel(m, z, row, col, i);
    RealTexel(d, z, row, col, i);
    RoundTripIs(fmt, m, z, Last(row * 4 + i / 4, m.height), Last(col * 4 + i % 4, m.width));
  }

  lemma RoundTripIs(fmt: Format, m: Image, z: nat, y: nat, x: nat)
    requires Valid(m) && !fmt.Other? && InImage(m, z, y, x)
    ensures RoundTrip(fmt, m, z, y, x) == DecodeTexel(fmt, EncodeBlock(fmt, TileOf(m, z, y, x)), LocalIndex(y, x))
  {
    hide EncodeBlock, DecodeTexel;
    DecodeFindsTexel(fmt, m, z, y, x);
  }

  // Decoding depends on the alpha of a texel, not on its place.
  lemma SameAlphaSameDecode(alphas: seq<Byte>, i: nat, j: nat)
    requires |alphas| == 16 && i < 16 && j < 16 && alphas[i] == alphas[j]
    ensures DecodeExplicit(ExplicitBlock(alphas), i) == DecodeExplicit(ExplicitBlock(alphas), j)
    ensures !Constant(alphas, 0) ==> DecodeAlpha(AlphaBlock(alphas), i) == DecodeAlpha(AlphaBlock(alphas), j)
  {
    hide AlphaBlock, DecodeAlpha, ExplicitBlock, DecodeExplicit;
    ExplicitDecoded(alphas, i);
    ExplicitDecoded(alphas, j);
    InRange(alphas, 0);
    if AlphaLo(alphas) < AlphaHi(alphas) {
      DecodedStep(alphas, i);
      DecodedStep(alphas, j);
    } else {
      EqualRangeIsConstant(alphas);
      if AlphaHi(alphas) > 0 {
        ConstantTile(alphas, AlphaHi(alphas));
        assert DecodeAlphas(AlphaBlock(alphas))[i] == DecodeAlphas(AlphaBlock(alphas))[j];
      }
    }
  }

  // How many of the n rows (columns) of an image are in row (column) q of its blocks.
  function TexelsIn(n: nat, q: nat): (k: nat)
    requires q < (n + 3) / 4
    ensures 1 <= k <= 4
  {
    if n - q * 4 < 4 then n - q * 4 else 4
  }

  lemma LastLocal(q: nat, t: nat, n: nat)
    requires q < (n + 3) / 4 && t < 4
    ensures Last(q * 4 + t, n) % 4 == Last(t, TexelsIn(n, q))
  {
    LastInBlock(q, t, n);
  }

  lemma RealIndex(m: Image, row: nat, col: nat, i: nat)
    requires m.width > 0 && m.height > 0 && row < BlocksY(m) && col < BlocksX(m) && i < 16
    ensures Real(m, row, col, i)
            == Last(i / 4, TexelsIn(m.height, row)) * 4 + Last(i % 4, TexelsIn(m.width, col))
  {
    LastLocal(row, i / 4, m.height);
    LastLocal(col, i % 4, m.width);
  }

  // A constantly 0 tile decodes to full opacity where its texels 2, 5, 10 and 13 were used.
  lemma ZeroTileAgain(m: Image, d: Image, z: nat, row: nat, col: nat, i: nat)
    requires Valid(m) && DecodedImage(RgbaDxt5, m, d) && InGrid(m, z, row, col) && i < 16
    requires Constant(Alphas(Tile(m, z, row, col)), 0)
    ensures Alphas(Tile(d, z, row, col))[i] == if Real(m, row, col, i) in {2, 5, 10, 13} then 255 else 0
  {
    hide AlphaBlock, DecodeAlpha, ColorBlock, DecodeColor, EncodeBlock, DecodeTexel, Tile;
    var ts, j := Tile(m, z, row, col), Real(m, row, col, i);
    DecodedTile(RgbaDxt5, m, d, z, row, col, i);
    HalvesDecode(RgbaDxt5, ts, j);
    ZeroTileDecodes(Alphas(ts), j);
  }

  // The block uses none of the texels 2, 5, 10 and 13.
  predicate Narrow(m: Image, row: nat, col: nat)
    requires row < BlocksY(m) && col < BlocksX(m)
  {
    TexelsIn(m.width, col) == 1 || (TexelsIn(m.width, col) == 2 && TexelsIn(m.height, row) == 1)
  }

  lemma ZeroTileReencodes(m: Image, d: Image, z: nat, row: nat, col: nat)
    requires Valid(m) && DecodedImage(RgbaDxt5, m, d) && InGrid(m, z, row, col)
    requires Constant(Alphas(Tile(m, z, row, col)), 0)
    ensures AlphaBlock(Alphas(Tile(d, z, row, col))) == AlphaBlock(Alphas(Tile(m, z, row, col)))
            <==> Narrow(m, row, col)
  {
    hide AlphaBlock, Tile, Real, TexelsIn, Fetch;
    var alphas, again := Alphas(Tile(m, z, row, col)), Alphas(Tile(d, z, row, col));
    if Narrow(m, row, col) {
      forall i: nat | i < 16 ensures again[i] == alphas[i] {
        RealIndex(m, row, col, i);
        ZeroTileAgain(m, d, z, row, col, i);
      }
      assert again == alphas;
    } else {
      var k := if TexelsIn(m.width, col) >= 3 then 2 else 5;
      RealIndex(m, row, col, k);
      ZeroTileAgain(m, d, z, row, col, k);
      FirstByteIsHighest(again);
      InRange(again, k);
      FirstByteIsHighest(alphas);
      ConstantRange(alphas, 0);
    }
  }

  lemma FirstByteIsHighest(alphas: seq<Byte>)
    requires |alphas| == 16
    ensures AlphaBlock(alphas)[0] == AlphaHi(alphas)
  {
  }

  // Outside the constantly 0 tile the decoded tile is the decoded block, edge texels included.
  lemma AlphasDecoded(fmt: Format, m: Image, d: Image, z: nat, row: nat, col: nat)
    requires Valid(m) && (fmt.RgbaDxt3? || fmt.RgbaDxt5?) && DecodedImage(fmt, m, d) && InGrid(m, z, row, col)
    requires fmt.RgbaDxt5? ==> !Constant(Alphas(Tile(m, z, row, col)), 0)
    ensures var alphas := Alphas(Tile(m, z, row, col));
            forall i: nat :: i < 16 ==>
              Alphas(Tile(d, z, row, col))[i]
              == if fmt.RgbaDxt3? then DecodeExplicit(ExplicitBlock(alphas), i)
                 else DecodeAlpha(AlphaBlock(alphas), i)
  {
    hide AlphaBlock, DecodeAlpha, ExplicitBlock, DecodeExplicit, ColorBlock, DecodeColor, EncodeBlock, DecodeTexel;
    hide Real;
    var ts := Tile(m, z, row, col);
    var alphas, again := Alphas(ts), Alphas(Tile(d, z, row, col));
    forall i: nat | i < 16
      ensures again[i] == if fmt.RgbaDxt3? then DecodeExplicit(ExplicitBlock(alphas), i)
                          else DecodeAlpha(AlphaBlock(alphas), i)
    {
      var j := Real(m, row, col, i);
      DecodedTile(fmt, m, d, z, row, col, i);
      HalvesDecode(fmt, ts, j);
      SameAlphaSameDecode(alphas, i, j);
    }
  }

  /** Encoding the decoded image again reproduces the alpha half of every DXT3 block, edge blocks
      included, and of a DXT5 block if and only if its tile is not constantly 0 or the block is at
      an edge that leaves it one texel wide, or two wide and one high. */
  lemma ReencodedAlpha(fmt: Format, m: Image, d: Image, z: nat, row: nat, col: nat)
    requires Valid(m) && (fmt.RgbaDxt3? || fmt.RgbaDxt5?) && DecodedImage(fmt, m, d) && InGrid(m, z, row, col)
    ensures AlphaPart(fmt, Tile(d, z, row, col)) == AlphaPart(fmt, Tile(m, z, row, col))
            <==> fmt.RgbaDxt3? || !Constant(Alphas(Tile(m, z, row, col)), 0) || Narrow(m, row, col)
  {
    hide AlphaBlock, DecodeAlpha, ExplicitBlock, DecodeExplicit, ColorBlock, DecodeColor, EncodeBlock, DecodeTexel;
    hide Narrow, Tile, Real;
    var ts := Tile(m, z, row, col);
    var alphas, again := Alphas(ts), Alphas(Tile(d, z, row, col));
    if fmt.RgbaDxt5? && Constant(alphas, 0) {
      ZeroTileReencodes(m, d, z, row, col);
    } else {
      AlphasDecoded(fmt, m, d, z, row, col);
      if fmt.RgbaDxt3? {
        ExplicitAlphaProjection(alphas, again);
      } else {
        assert again == DecodeAlphas(AlphaBlock(alphas));
        AlphaProjectionIff(alphas);
      }
    }
  }
}
