/**
 Where encodeImage of src/context/S3TCEncode.h puts its blocks: equally long parts joined row by
 row and slice by slice.  Nothing here depends on what a block holds.
 */
module BlockLayout {
  import opened Numerals

  // n * len as a repeated sum, which keeps non-linear arithmetic out of everything but the
  // lemmas about products.
  function Mul(n: nat, len: nat): nat {
    if n == 0 then 0 else Mul(n - 1, len) + len
  }

  lemma {:induction false} MulIsProduct(n: nat, len: nat)
    ensures Mul(n, len) == n * len
  {
    if n > 0 { MulIsProduct(n - 1, len); }
  }

  // Item i of n items of size len fits.
  lemma {:induction false} MulFits(i: nat, n: nat, len: nat)
    requires i < n
    ensures Mul(i, len) + len <= Mul(n, len)
  {
    if i < n - 1 { MulFits(i, n - 1, len); }
  }

  lemma {:induction false} MulAdds(i: nat, j: nat, len: nat)
    ensures Mul(i + j, len) == Mul(i, len) + Mul(j, len)
  {
    if j > 0 { MulAdds(i, j - 1, len); }
  }

  // ----- joining equally long parts -----

  function Join(parts: seq<seq<Byte>>): seq<Byte> {
    if parts == [] then [] else Join(parts[..|parts| - 1]) + parts[|parts| - 1]
  }

  predicate Uniform(parts: seq<seq<Byte>>, len: nat) {
    forall i :: 0 <= i < |parts| ==> |parts[i]| == len
  }

  lemma {:induction false} JoinLength(parts: seq<seq<Byte>>, len: nat)
    requires Uniform(parts, len)
    ensures |Join(parts)| == Mul(|parts|, len)
  {
    if parts != [] { JoinLength(parts[..|parts| - 1], len); }
  }

  // The n bytes at `at`.
  function Cut(bytes: seq<Byte>, at: nat, n: nat): (part: seq<Byte>)
    requires at + n <= |bytes|
    ensures |part| == n
  {
    bytes[at..at + n]
  }

  // Part i starts at i * len.
  lemma {:induction false} JoinAt(parts: seq<seq<Byte>>, len: nat, i: nat)
    requires Uniform(parts, len) && i < |parts|
    ensures Mul(i, len) + len <= |Join(parts)| && Cut(Join(parts), Mul(i, len), len) == parts[i]
  {
    var n := |parts| - 1;
    JoinLength(parts[..n], len);
    if i < n {
      JoinAt(parts[..n], len, i);
      assert Cut(Join(parts[..n]) + parts[n], Mul(i, len), len) == Cut(Join(parts[..n]), Mul(i, len), len);
    }
  }

  lemma CutOfCut(bytes: seq<Byte>, at: nat, n: nat, at': nat, n': nat)
    requires at + n <= |bytes| && at' + n' <= n
    ensures Cut(Cut(bytes, at, n), at', n') == Cut(bytes, at + at', n')
  {
    forall k | 0 <= k < n'
      ensures Cut(Cut(bytes, at, n), at', n')[k] == Cut(bytes, at + at', n')[k]
    {
      assert Cut(bytes, at, n)[at' + k] == bytes[at + (at' + k)];
    }
  }

  lemma {:induction false} JoinConcat(ps: seq<seq<Byte>>, qs: seq<seq<Byte>>)
    ensures Join(ps + qs) == Join(ps) + Join(qs)
  {
    if qs == [] {
      assert ps + qs == ps;
    } else {
      var n := |qs| - 1;
      assert (ps + qs)[..|ps + qs| - 1] == ps + qs[..n];
      JoinConcat(ps, qs[..n]);
    }
  }

  // ----- rows of blocks, slices of rows, and the whole grid -----

  function RowBytes(slice: seq<seq<seq<Byte>>>): (rows: seq<seq<Byte>>)
    ensures |rows| == |slice| && forall i :: 0 <= i < |slice| ==> rows[i] == Join(slice[i])
  {
    seq(|slice|, i requires 0 <= i < |slice| => Join(slice[i]))
  }

  function SliceBytes(grid: seq<seq<seq<seq<Byte>>>>): (slices: seq<seq<Byte>>)
    ensures |slices| == |grid| && forall z :: 0 <= z < |grid| ==> slices[z] == Join(RowBytes(grid[z]))
  {
    seq(|grid|, z requires 0 <= z < |grid| => Join(RowBytes(grid[z])))
  }

  function GridBytes(grid: seq<seq<seq<seq<Byte>>>>): seq<Byte> { Join(SliceBytes(grid)) }

  predicate SliceShape(slice: seq<seq<seq<Byte>>>, rows: nat, cols: nat, b: nat) {
    |slice| == rows && forall i :: 0 <= i < rows ==> |slice[i]| == cols && Uniform(slice[i], b)
  }

  predicate Shape(grid: seq<seq<seq<seq<Byte>>>>, depth: nat, rows: nat, cols: nat, b: nat) {
    |grid| == depth && forall z :: 0 <= z < depth ==> SliceShape(grid[z], rows, cols, b)
  }

  lemma RowsUniform(slice: seq<seq<seq<Byte>>>, rows: nat, cols: nat, b: nat)
    requires SliceShape(slice, rows, cols, b)
    ensures Uniform(RowBytes(slice), Mul(cols, b)) && |Join(RowBytes(slice))| == Mul(rows, Mul(cols, b))
  {
    forall i | 0 <= i < rows ensures |RowBytes(slice)[i]| == Mul(cols, b) { JoinLength(slice[i], b); }
    JoinLength(RowBytes(slice), Mul(cols, b));
  }

  lemma SlicesUniform(grid: seq<seq<seq<seq<Byte>>>>, depth: nat, rows: nat, cols: nat, b: nat)
    requires Shape(grid, depth, rows, cols, b)
    ensures Uniform(SliceBytes(grid), Mul(rows, Mul(cols, b)))
    ensures |GridBytes(grid)| == Mul(depth, Mul(rows, Mul(cols, b)))
  {
    forall z | 0 <= z < depth ensures |SliceBytes(grid)[z]| == Mul(rows, Mul(cols, b)) {
      RowsUniform(grid[z], rows, cols, b);
    }
    JoinLength(SliceBytes(grid), Mul(rows, Mul(cols, b)));
  }

  // Where block (col, row) of slice z starts.
  function BlockOffset(rows: nat, cols: nat, b: nat, z: nat, row: nat, col: nat): nat {
    Mul(z, Mul(rows, Mul(cols, b))) + (Mul(row, Mul(cols, b)) + Mul(col, b))
  }

  lemma SliceHasBlock(slice: seq<seq<seq<Byte>>>, rows: nat, cols: nat, b: nat, row: nat, col: nat)
    requires SliceShape(slice, rows, cols, b) && row < rows && col < cols
    ensures var bytes, at := Join(RowBytes(slice)), Mul(row, Mul(cols, b)) + Mul(col, b);
            at + b <= |bytes| && Cut(bytes, at, b) == slice[row][col]
  {
    var len := Mul(cols, b);
    RowsUniform(slice, rows, cols, b);
    JoinAt(RowBytes(slice), len, row);
    JoinLength(slice[row], b);
    JoinAt(slice[row], b, col);
    CutOfCut(Join(RowBytes(slice)), Mul(row, len), len, Mul(col, b), b);
  }

  lemma GridHasSlice(grid: seq<seq<seq<seq<Byte>>>>, depth: nat, rows: nat, cols: nat, b: nat, z: nat)
    requires Shape(grid, depth, rows, cols, b) && z < depth
    ensures var len := Mul(rows, Mul(cols, b));
            && Mul(z, len) + len <= |GridBytes(grid)|
            && Cut(GridBytes(grid), Mul(z, len), len) == Join(RowBytes(grid[z]))
  {
    SlicesUniform(grid, depth, rows, cols, b);
    JoinAt(SliceBytes(grid), Mul(rows, Mul(cols, b)), z);
  }

  /** Every block is found at its offset. */
  lemma GridHasBlock(grid: seq<seq<seq<seq<Byte>>>>, depth: nat, rows: nat, cols: nat, b: nat,
                     z: nat, row: nat, col: nat)
    requires Shape(grid, depth, rows, cols, b) && z < depth && row < rows && col < cols
    ensures var at := BlockOffset(rows, cols, b, z, row, col);
            at + b <= |GridBytes(grid)| && Cut(GridBytes(grid), at, b) == grid[z][row][col]
  {
    var len := Mul(rows, Mul(cols, b));
    GridHasSlice(grid, depth, rows, cols, b, z);
    SliceHasBlock(grid[z], rows, cols, b, row, col);
    CutOfCut(GridBytes(grid), Mul(z, len), len, Mul(row, Mul(cols, b)) + Mul(col, b), b);
  }

  lemma Associate(x: nat, y: nat, z: nat)
    ensures x * (y * z) == (x * y) * z
  {
  }

  lemma Distribute(x: nat, y: nat, z: nat)
    ensures (x + y) * z == x * z + y * z
  {
  }

  /** It is the offset the encoder and the decoder compute. */
  lemma OffsetIsComputed(rows: nat, cols: nat, b: nat, z: nat, row: nat, col: nat)
    ensures BlockOffset(rows, cols, b, z, row, col) == z * cols * rows * b + (row * cols + col) * b
  {
    SliceProduct(rows, cols, b, z);
    MulIsProduct(cols, b);
    MulIsProduct(row, cols * b);
    MulIsProduct(col, b);
    Associate(row, cols, b);
    Distribute(row * cols, col, b);
  }

  lemma SliceProduct(rows: nat, cols: nat, b: nat, z: nat)
    ensures Mul(z, Mul(rows, Mul(cols, b))) == z * cols * rows * b
  {
    MulIsProduct(cols, b);
    MulIsProduct(rows, cols * b);
    MulIsProduct(z, rows * (cols * b));
    Associate(rows, cols, b);
    Associate(z, rows * cols, b);
    Associate(z, cols, rows);
  }

  /** Two different blocks do not overlap. */
  lemma BlocksDisjoint(rows: nat, cols: nat, b: nat, z: nat, row: nat, col: nat, z': nat, row': nat, col': nat)
    requires row < rows && col < cols && row' < rows && col' < cols
    requires z < z' || (z == z' && (row < row' || (row == row' && col < col')))
    ensures BlockOffset(rows, cols, b, z, row, col) + b <= BlockOffset(rows, cols, b, z', row', col')
  {
    MulFits(col, cols, b);
    MulFits(row, rows, Mul(cols, b));
    if z < z' {
      MulFits(z, z', Mul(rows, Mul(cols, b)));
      MulMonotone(z + 1, z', Mul(rows, Mul(cols, b)));
    } else if row < row' {
      MulMonotone(row + 1, row', Mul(cols, b));
    } else {
      MulMonotone(col + 1, col', b);
    }
  }

  lemma {:induction false} MulMonotone(i: nat, j: nat, len: nat)
    requires i <= j
    ensures Mul(i, len) <= Mul(j, len)
  {
    if i < j { MulMonotone(i, j - 1, len); }
  }
}
