/** The mathematics every draft of the engine is measured against: matrices as
    row-major sequences of reals, with the textbook product, transpose and
    element-wise operations. */
module Dense {
  import opened Grid

  /** Sum of u[k] * v[k], accumulated front to back as the engines' loops do. */
  function Dot(u: seq<real>, v: seq<real>): real
    requires |u| == |v|
  {
    if |u| == 0 then 0.0 else Dot(u[..|u| - 1], v[..|v| - 1]) + u[|u| - 1] * v[|v| - 1]
  }

  /** Row r of an R x C matrix. */
  function Row(a: seq<real>, R: nat, C: nat, r: nat): (row: seq<real>)
    requires |a| == R * C && r < R
    ensures |row| == C
  {
    seq(C, c requires 0 <= c < C => Cell(a, R, C, r, c))
  }

  /** Column c of an R x C matrix. */
  function Col(a: seq<real>, R: nat, C: nat, c: nat): (col: seq<real>)
    requires |a| == R * C && c < C
    ensures |col| == R
  {
    seq(R, r requires 0 <= r < R => Cell(a, R, C, r, c))
  }

  /** The textbook product of an R x K matrix by a K x C matrix. */
  function Product(a: seq<real>, b: seq<real>, R: nat, K: nat, C: nat): (p: seq<real>)
    requires |a| == R * K && |b| == K * C
    ensures |p| == R * C
  {
    seq(R * C, i requires 0 <= i < R * C =>
      OffsetSplit(i, R, C);
      Dot(Row(a, R, K, i / C), Col(b, K, C, i % C)))
  }

  /** The C x R transpose of an R x C matrix. */
  function Transposed(s: seq<real>, R: nat, C: nat): (t: seq<real>)
    requires |s| == R * C
    ensures |t| == R * C
  {
    seq(R * C, i requires 0 <= i < R * C =>
      OffsetSplit(i, C, R);
      Cell(s, R, C, i % R, i / R))
  }

  /** Cell (r, c) of a product is row r of the left factor dotted with column c of the right. */
  lemma ProductCell(a: seq<real>, b: seq<real>, R: nat, K: nat, C: nat, r: nat, c: nat)
    requires |a| == R * K && |b| == K * C && r < R && c < C
    ensures Cell(Product(a, b, R, K, C), R, C, r, c) == Dot(Row(a, R, K, r), Col(b, K, C, c))
  {
    var p := Product(a, b, R, K, C);
    var i := r * C + c;
    CellBounds(r, c, R, C);
    CellDivMod(r, c, C);
    assert Cell(p, R, C, r, c) == p[i];
    assert p[i] == Dot(Row(a, R, K, i / C), Col(b, K, C, i % C));
  }

  /** Cell (c, r) of the transpose is cell (r, c) of the original. */
  lemma TransposedCell(s: seq<real>, R: nat, C: nat, r: nat, c: nat)
    requires |s| == R * C && r < R && c < C
    ensures Cell(Transposed(s, R, C), C, R, c, r) == Cell(s, R, C, r, c)
  {
    var t := Transposed(s, R, C);
    var i := c * R + r;
    CellBounds(c, r, C, R);
    CellDivMod(c, r, R);
    assert Cell(t, C, R, c, r) == t[i];
    assert t[i] == Cell(s, R, C, i % R, i / R);
  }

  /** Transposing twice gives the matrix back. */
  lemma TransposedInvolution(s: seq<real>, R: nat, C: nat)
    requires |s| == R * C
    ensures Transposed(Transposed(s, R, C), C, R) == s
  {
    var t := Transposed(s, R, C);
    var u := Transposed(t, C, R);
    forall i | 0 <= i < |s|
      ensures u[i] == s[i]
    {
      OffsetSplit(i, R, C);
      var r, c := i / C, i % C;
      CellDivMod(r, c, C);
      TransposedCell(t, C, R, c, r);
      TransposedCell(s, R, C, r, c);
    }
  }

  /** A row of the transpose is a column of the original. */
  lemma TransposedRow(s: seq<real>, R: nat, C: nat, c: nat)
    requires |s| == R * C && c < C
    ensures Row(Transposed(s, R, C), C, R, c) == Col(s, R, C, c)
  {
    forall r | 0 <= r < R
      ensures Row(Transposed(s, R, C), C, R, c)[r] == Col(s, R, C, c)[r]
    {
      TransposedCell(s, R, C, r, c);
    }
  }

  /** A column of the transpose is a row of the original. */
  lemma TransposedCol(s: seq<real>, R: nat, C: nat, r: nat)
    requires |s| == R * C && r < R
    ensures Col(Transposed(s, R, C), C, R, r) == Row(s, R, C, r)
  {
    forall c | 0 <= c < C
      ensures Col(Transposed(s, R, C), C, R, r)[c] == Row(s, R, C, r)[c]
    {
      TransposedCell(s, R, C, r, c);
    }
  }

  /** The four element-wise merges. */
  datatype Op = Add | Sub | Mul | Div

  /** Division is defined only for a non-zero divisor. */
  predicate Defined(op: Op, y: real) {
    !op.Div? || y != 0.0
  }

  function Apply(op: Op, x: real, y: real): real
    requires Defined(op, y)
  {
    match op
    case Add => x + y
    case Sub => x - y
    case Mul => x * y
    case Div => x / y
  }

  /** No element of s is zero. */
  predicate NoZero(s: seq<real>) {
    forall k :: 0 <= k < |s| ==> s[k] != 0.0
  }

  /** The element-wise merge of two equally long sequences. */
  function ZipWith(op: Op, a: seq<real>, b: seq<real>): (r: seq<real>)
    requires |a| == |b| && (op.Div? ==> NoZero(b))
    ensures |r| == |a|
  {
    seq(|a|, i requires 0 <= i < |a| => Apply(op, a[i], b[i]))
  }

  /** Every element multiplied by k. */
  function Scale(s: seq<real>, k: real): (r: seq<real>)
    ensures |r| == |s|
  {
    seq(|s|, i requires 0 <= i < |s| => s[i] * k)
  }

  /** Every element divided by a non-zero k. */
  function DivideBy(s: seq<real>, k: real): (r: seq<real>)
    requires k != 0.0
    ensures |r| == |s|
  {
    seq(|s|, i requires 0 <= i < |s| => s[i] / k)
  }

  /** One more term of a dot product accumulated front to back. */
  lemma DotStep(u: seq<real>, v: seq<real>, i: int)
    requires |u| == |v| && 0 <= i < |u|
    ensures Dot(u[..i + 1], v[..i + 1]) == Dot(u[..i], v[..i]) + u[i] * v[i]
  {
    assert u[..i + 1][..i] == u[..i];
    assert v[..i + 1][..i] == v[..i];
  }

  /** The accumulator of a front-to-back dot product after one more term. */
  lemma DotAccumulate(u: seq<real>, v: seq<real>, i: int, acc: real, x: real, y: real)
    requires |u| == |v| && 0 <= i < |u|
    requires acc == Dot(u[..i], v[..i]) && x == u[i] && y == v[i]
    ensures acc + x * y == Dot(u[..i + 1], v[..i + 1])
  {
    DotStep(u, v, i);
  }

  /** Subtracting and adding back the same matrix gives the original. */
  lemma SubThenAdd(a: seq<real>, b: seq<real>)
    requires |a| == |b|
    ensures ZipWith(Add, ZipWith(Sub, a, b), b) == a
  {
  }

  /** Multiplying and dividing by the same matrix without zeros gives the original. */
  lemma MulThenDiv(a: seq<real>, b: seq<real>)
    requires |a| == |b| && NoZero(b)
    ensures ZipWith(Div, ZipWith(Mul, a, b), b) == a
  {
    var m := ZipWith(Mul, a, b);
    forall i | 0 <= i < |a|
      ensures m[i] / b[i] == a[i]
    {
      assert m[i] == a[i] * b[i];
    }
  }

  /** Scaling by a non-zero k and dividing by k gives the original. */
  lemma ScaleThenDivide(s: seq<real>, k: real)
    requires k != 0.0
    ensures DivideBy(Scale(s, k), k) == s
  {
    var m := Scale(s, k);
    forall i | 0 <= i < |s|
      ensures m[i] / k == s[i]
    {
      assert m[i] == s[i] * k;
    }
  }

  /** Element-wise merges commute with transposition: merging two transpose
      views gives the transpose of merging the originals. */
  lemma TransposedZipWith(op: Op, a: seq<real>, b: seq<real>, R: nat, C: nat)
    requires |a| == R * C && |b| == R * C && (op.Div? ==> NoZero(b))
    ensures op.Div? ==> NoZero(Transposed(b, R, C))
    ensures Transposed(ZipWith(op, a, b), R, C) == ZipWith(op, Transposed(a, R, C), Transposed(b, R, C))
  {
    var z := ZipWith(op, a, b);
    var ta, tb, tz := Transposed(a, R, C), Transposed(b, R, C), Transposed(z, R, C);
    forall i | 0 <= i < R * C
      ensures 0 <= (i % R) * C + i / R < R * C
      ensures ta[i] == a[(i % R) * C + i / R] && tb[i] == b[(i % R) * C + i / R]
      ensures tz[i] == z[(i % R) * C + i / R]
    {
      OffsetSplit(i, C, R);
      CellBounds(i % R, i / R, R, C);
    }
    if op.Div? {
      assert NoZero(tb);
    }
    assert tz == ZipWith(op, ta, tb);
  }

  /** The dot product does not depend on the order of its factors. */
  lemma {:induction false} DotCommutes(u: seq<real>, v: seq<real>)
    requires |u| == |v|
    ensures Dot(u, v) == Dot(v, u)
  {
    if |u| > 0 {
      DotCommutes(u[..|u| - 1], v[..|v| - 1]);
    }
  }

  /** The transpose of a product is the product of the transposes in the
      other order. */
  lemma TransposedProduct(a: seq<real>, b: seq<real>, R: nat, K: nat, C: nat)
    requires |a| == R * K && |b| == K * C
    ensures Transposed(Product(a, b, R, K, C), R, C) ==
      Product(Transposed(b, K, C), Transposed(a, R, K), C, K, R)
  {
    var p := Product(a, b, R, K, C);
    var ta, tb := Transposed(a, R, K), Transposed(b, K, C);
    var lhs, rhs := Transposed(p, R, C), Product(tb, ta, C, K, R);
    forall i | 0 <= i < C * R
      ensures lhs[i] == rhs[i]
    {
      OffsetSplit(i, C, R);
      var c, r := i / R, i % R;
      CellDivMod(c, r, R);
      TransposedCell(p, R, C, r, c);
      ProductCell(a, b, R, K, C, r, c);
      ProductCell(tb, ta, C, K, R, c, r);
      TransposedRow(b, K, C, c);
      TransposedCol(a, R, K, r);
      DotCommutes(Row(a, R, K, r), Col(b, K, C, c));
    }
  }
}
