/** The index functions of the aliasing engine (Quantum/src/matrix.c): a matrix
    header reads logical element i (row-major in the header's own shape) at
    physical offset row_idx(i) of a flat buffer. A transpose view shares its
    parent's buffer and holds the parent's two functions swapped. */
module Indexing {
  import opened Grid
  import opened Dense

  /** Which of the two index functions a header slot holds. */
  datatype Layout = RowMajor | ColMajor

  /** The function in the other slot. */
  function Other(f: Layout): (g: Layout)
    ensures g != f
  {
    if f == RowMajor then ColMajor else RowMajor
  }

  /** _matrix_idx_col_major as written, over unbounded integers. */
  function ColMajorAsWritten(rows: int, cols: int, i: int): int
    requires cols != 0
  {
    i * rows + (i / cols) * (1 - rows * cols)
  }

  /** The column-major formula, read on a rows x cols header, sends position
      i = q * cols + p to p * rows + q, which is inside the buffer. */
  lemma ColMajorClosedForm(rows: int, cols: int, i: int)
    requires rows >= 1 && cols >= 1 && 0 <= i < rows * cols
    ensures ColMajorAsWritten(rows, cols, i) == (i % cols) * rows + i / cols
    ensures 0 <= ColMajorAsWritten(rows, cols, i) < rows * cols
  {
    var q, p := i / cols, i % cols;
    OffsetSplit(i, rows, cols);
    assert i * rows == q * cols * rows + p * rows by {
      assert i == q * cols + p;
    }
    assert q * (1 - rows * cols) == q - q * cols * rows;
    CellBounds(p, q, cols, rows);
  }

  /** The physical offset of logical position i on a rows x cols header. */
  function Index(f: Layout, rows: int, cols: int, i: int): (j: int)
    requires rows >= 1 && cols >= 1 && 0 <= i < rows * cols
    ensures 0 <= j < rows * cols
  {
    if f == RowMajor then i
    else
      ColMajorClosedForm(rows, cols, i);
      ColMajorAsWritten(rows, cols, i)
  }

  /** On a single row or a single column the column-major function is the
      identity. */
  lemma ColMajorOnVector(rows: int, cols: int, i: int)
    requires rows >= 1 && cols >= 1 && 0 <= i < rows * cols
    requires rows == 1 || cols == 1
    ensures Index(ColMajor, rows, cols, i) == i
  {
    if rows == 1 {
      assert i / cols == 0;
      assert ColMajorAsWritten(1, cols, i) == i * 1 + 0 * (1 - cols);
    } else {
      assert i / 1 == i;
      assert ColMajorAsWritten(rows, 1, i) == i * rows + i * (1 - rows);
    }
  }

  /** Different logical positions never share a physical offset. */
  lemma IndexInjective(f: Layout, rows: int, cols: int, i: int, j: int)
    requires rows >= 1 && cols >= 1 && 0 <= i < rows * cols && 0 <= j < rows * cols
    ensures Index(f, rows, cols, i) == Index(f, rows, cols, j) ==> i == j
  {
    if f == ColMajor && Index(f, rows, cols, i) == Index(f, rows, cols, j) {
      ColMajorClosedForm(rows, cols, i);
      ColMajorClosedForm(rows, cols, j);
      OffsetSplit(i, rows, cols);
      OffsetSplit(j, rows, cols);
      CellDivMod(i % cols, i / cols, rows);
      CellDivMod(j % cols, j / cols, rows);
    }
  }

  /** Cell (c, r) of a cols x rows view holding the swapped function reads the
      same physical offset as cell (r, c) of the rows x cols header. */
  lemma IndexSwap(f: Layout, rows: int, cols: int, r: int, c: int)
    requires rows >= 1 && cols >= 1 && 0 <= r < rows && 0 <= c < cols
    ensures 0 <= c * rows + r < cols * rows && 0 <= r * cols + c < rows * cols
    ensures Index(Other(f), cols, rows, c * rows + r) == Index(f, rows, cols, r * cols + c)
  {
    CellBounds(c, r, cols, rows);
    CellBounds(r, c, rows, cols);
    if f == RowMajor {
      ColMajorClosedForm(cols, rows, c * rows + r);
      CellDivMod(c, r, rows);
    } else {
      ColMajorClosedForm(rows, cols, r * cols + c);
      CellDivMod(r, c, cols);
    }
  }

  /** The logical (row-major) contents of a header reading buffer `phys`. */
  function Logical(f: Layout, rows: int, cols: int, phys: seq<real>): (s: seq<real>)
    requires rows >= 1 && cols >= 1 && |phys| == rows * cols
    ensures |s| == rows * cols
  {
    seq(rows * cols, i requires 0 <= i < rows * cols => phys[Index(f, rows, cols, i)])
  }

  /** Through the row-major function a header sees its buffer as it is. */
  lemma LogicalRowMajor(rows: int, cols: int, phys: seq<real>)
    requires rows >= 1 && cols >= 1 && |phys| == rows * cols
    ensures Logical(RowMajor, rows, cols, phys) == phys
  {
  }

  /** A transpose view sees the transpose of its parent's logical contents. */
  lemma LogicalOfView(f: Layout, rows: int, cols: int, phys: seq<real>)
    requires rows >= 1 && cols >= 1 && |phys| == rows * cols
    ensures Logical(Other(f), cols, rows, phys) == Transposed(Logical(f, rows, cols, phys), rows, cols)
  {
    var v := Logical(Other(f), cols, rows, phys);
    var s := Logical(f, rows, cols, phys);
    forall i | 0 <= i < rows * cols
      ensures v[i] == Transposed(s, rows, cols)[i]
    {
      OffsetSplit(i, cols, rows);
      var c, r := i / rows, i % rows;
      IndexSwap(f, rows, cols, r, c);
      TransposedCell(s, rows, cols, r, c);
    }
  }

  /** Writing logical position i changes no other logical position. */
  lemma LogicalUpdate(f: Layout, rows: int, cols: int, phys: seq<real>, i: int, x: real)
    requires rows >= 1 && cols >= 1 && |phys| == rows * cols && 0 <= i < rows * cols
    ensures Logical(f, rows, cols, phys[Index(f, rows, cols, i) := x]) ==
      Logical(f, rows, cols, phys)[i := x]
  {
    var after := Logical(f, rows, cols, phys[Index(f, rows, cols, i) := x]);
    var before := Logical(f, rows, cols, phys)[i := x];
    forall j | 0 <= j < rows * cols
      ensures after[j] == before[j]
    {
      IndexInjective(f, rows, cols, i, j);
    }
  }

  // size_t arithmetic: the C function computes the formula modulo 2^64, where
  // (1 - size) wraps to 2^64 + 1 - size.

  const WORD: int := 0x1_0000_0000_0000_0000

  /** _matrix_idx_col_major evaluated in 64-bit unsigned arithmetic. */
  function ColMajorWord(rows: nat, cols: nat, i: nat): nat
    requires cols != 0
  {
    ((i * rows) % WORD + ((i / cols) * ((1 - rows * cols) % WORD)) % WORD) % WORD
  }

  /** For every buffer size that fits a size_t, the wrapped computation gives
      the same offset as the unbounded one. */
  lemma ColMajorWordAgrees(rows: nat, cols: nat, i: nat)
    requires rows >= 1 && cols >= 1 && i < rows * cols <= WORD
    ensures ColMajorWord(rows, cols, i) == ColMajorAsWritten(rows, cols, i)
  {
    var x, q, m := i * rows, i / cols, 1 - rows * cols;
    ModOfProduct(q, m, WORD);
    ModOfSum(x, q * m, WORD);
    ColMajorClosedForm(rows, cols, i);
    SmallMod(x + q * m, WORD);
  }

  /** Reducing a factor modulo w does not change the product modulo w. */
  lemma ModOfProduct(q: int, m: int, w: int)
    requires w > 0
    ensures (q * (m % w)) % w == (q * m) % w
  {
    var k := m / w;
    assert m == w * k + m % w;
    assert q * m == w * (q * k) + q * (m % w);
    ModShift(q * k, q * (m % w), w);
  }

  /** Reducing the terms modulo w does not change the sum modulo w. */
  lemma ModOfSum(a: int, b: int, w: int)
    requires w > 0
    ensures (a % w + b % w) % w == (a + b) % w
  {
    assert a == w * (a / w) + a % w;
    assert b == w * (b / w) + b % w;
    assert a + b == w * (a / w + b / w) + (a % w + b % w);
    ModShift(a / w + b / w, a % w + b % w, w);
  }

  /** Adding a multiple of w does not change a value modulo w. */
  lemma ModShift(t: int, x: int, w: int)
    requires w > 0
    ensures (w * t + x) % w == x % w
  {
    var y := w * t + x;
    assert y == w * (t + x / w) + x % w;
    ModUnique(y, t + x / w, x % w, w);
  }

  /** Euclidean remainder is unique. */
  lemma ModUnique(y: int, q: int, r: int, w: int)
    requires w > 0 && 0 <= r < w && y == w * q + r
    ensures y % w == r
  {
    var d := y / w - q;
    assert w * d == r - y % w;
    if d >= 1 { MulAtLeast(d, w); }
    if d <= -1 { MulAtLeast(-d, w); }
  }

  lemma SmallMod(y: int, w: int)
    requires 0 <= y < w
    ensures y % w == y
  {
  }
}
