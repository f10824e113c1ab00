/** The pure-Python reference matrix (matrix.py). A matrix is its shape, the
    list handed to its constructor, and a pair of row and column iterator
    factories. The transpose shares the list and swaps the two factories, so
    its rows are the columns of the matrix whose constructor made them. The
    constructor never compares the list with the shape: a short list fails
    with IndexError only when the elements are read, and items past
    rows * cols are never read. */
module PyReference {
  import opened Grid
  import opened Host
  import opened Dense
  import opened Indexing

  /** `store` is the constructor's list; `flipped` says whether the iterator
      factories are swapped with respect to the matrix that made them. */
  datatype Matrix = Matrix(rows: int, cols: int, store: seq<real>, flipped: bool) {
    /** Every matrix the constructor accepts has positive dims. */
    predicate Valid() {
      rows >= 1 && cols >= 1
    }

    /** The list holds every element the iterators read. */
    predicate Loaded() {
      |store| >= rows * cols
    }

    /** How the iterators walk the list: along it, or down its columns. */
    function Walk(): Layout {
      if flipped then ColMajor else RowMajor
    }

    /** The elements the `data` generator yields, in order. */
    function Contents(): (s: seq<real>)
      requires Valid() && Loaded()
      ensures |s| == rows * cols
    {
      Logical(Walk(), rows, cols, store[..rows * cols])
    }
  }

  /** Matrix.__init__: rows, then cols, must be positive (ValueError); the
      list is kept as it is. */
  function New(rows: int, cols: int, data: seq<real>): (r: Result<Matrix>)
    ensures r.Ok? <==> rows >= 1 && cols >= 1
    ensures r.Ok? ==> r.value.Valid() && !r.value.flipped && r.value.store == data
    ensures r.Ok? ==> r.value.rows == rows && r.value.cols == cols
    ensures r.Err? ==> r.error == ValueError
  {
    if rows <= 0 then Err(ValueError)
    else if cols <= 0 then Err(ValueError)
    else Ok(Matrix(rows, cols, data, false))
  }

  /** The `data` property, consumed: the elements in row-major order, or
      IndexError when the list is too short. */
  function Data(m: Matrix): (r: Result<seq<real>>)
    requires m.Valid()
    ensures r.Ok? <==> m.Loaded()
    ensures r.Ok? ==> |r.value| == m.rows * m.cols
    ensures r.Err? ==> r.error == IndexError
  {
    if m.Loaded() then Ok(m.Contents()) else Err(IndexError)
  }

  /** __len__. */
  function Len(m: Matrix): (n: int)
    requires m.Valid()
    ensures n >= 1
    ensures m.Loaded() ==> n == |Data(m).value|
  {
    m.rows * m.cols
  }

  /** Matrix.compress: equal shapes (ValueError otherwise); element i of the
      result is f of element i of each operand, read through `data`. */
  function Compress(a: Matrix, b: Matrix, f: (real, real) -> real): (r: Result<Matrix>)
    requires a.Valid() && b.Valid()
    ensures r.Ok? ==> r.value.Valid() && r.value.Loaded() && r.value.rows == a.rows && r.value.cols == a.cols
  {
    if a.cols != b.cols || a.rows != b.rows then Err(ValueError)
    else if !a.Loaded() || !b.Loaded() then Err(IndexError)
    else
      var ea, eb := a.Contents(), b.Contents();
      New(a.rows, a.cols, seq(a.rows * a.cols, i requires 0 <= i < a.rows * a.cols => f(ea[i], eb[i])))
  }

  /** __add__, __sub__ and __mul__: compress with +, - and *. */
  function Plus(a: Matrix, b: Matrix): Result<Matrix>
    requires a.Valid() && b.Valid()
  {
    Compress(a, b, (x, y) => x + y)
  }

  function Minus(a: Matrix, b: Matrix): Result<Matrix>
    requires a.Valid() && b.Valid()
  {
    Compress(a, b, (x, y) => x - y)
  }

  function Times(a: Matrix, b: Matrix): Result<Matrix>
    requires a.Valid() && b.Valid()
  {
    Compress(a, b, (x, y) => x * y)
  }

  /** __matmul__: ValueError unless a.cols == b.rows; cell (r, c) is the sum of
      the pairwise products of row r of a and column c of b. */
  function MatMul(a: Matrix, b: Matrix): (r: Result<Matrix>)
    requires a.Valid() && b.Valid()
    ensures r.Ok? ==> r.value.Valid() && r.value.Loaded() && r.value.rows == a.rows && r.value.cols == b.cols
  {
    if a.cols != b.rows then Err(ValueError)
    else if !a.Loaded() || !b.Loaded() then Err(IndexError)
    else New(a.rows, b.cols, Product(a.Contents(), b.Contents(), a.rows, a.cols, b.cols))
  }

  /** The `t` property: the same list, the shape swapped, the factories swapped. */
  function T(m: Matrix): (t: Matrix)
    requires m.Valid()
    ensures t.Valid()
  {
    Matrix(m.cols, m.rows, m.store, !m.flipped)
  }

  /** __eq__: equal shapes, then the two `data` generators are zipped and
      compared pair by pair, stopping at the first difference. */
  function Eq(a: Matrix, b: Matrix): Result<bool>
    requires a.Valid() && b.Valid()
  {
    if a.rows != b.rows || a.cols != b.cols then Ok(false) else EqFrom(a, b, 0)
  }

  /** The comparison from position i on: a's element is read first, then
      b's; reading past the end of a list is an IndexError. */
  function EqFrom(a: Matrix, b: Matrix, i: int): Result<bool>
    requires a.Valid() && b.Valid() && a.rows == b.rows && a.cols == b.cols
    requires 0 <= i <= a.rows * a.cols
    decreases a.rows * a.cols - i
  {
    if i == a.rows * a.cols then Ok(true)
    else
      var ia, ib := Index(a.Walk(), a.rows, a.cols, i), Index(b.Walk(), b.rows, b.cols, i);
      if ia >= |a.store| then Err(IndexError)
      else if ib >= |b.store| then Err(IndexError)
      else if a.store[ia] != b.store[ib] then Ok(false)
      else EqFrom(a, b, i + 1)
  }

  /** Matrix.const: a list of rows * cols copies of val. */
  function Const(rows: int, cols: int, val: real): Result<Matrix> {
    New(rows, cols, seq(if rows * cols > 0 then rows * cols else 0, _ => val))
  }

  /** Matrix.zeros. */
  function Zeros(rows: int, cols: int): Result<Matrix> {
    Const(rows, cols, 0.0)
  }

  /** A const matrix holds exactly rows * cols copies of the value, and the
      constructor rejects non-positive dims. */
  lemma ConstSpec(rows: int, cols: int, val: real)
    ensures Const(rows, cols, val).Ok? <==> rows >= 1 && cols >= 1
    ensures Const(rows, cols, val).Err? ==> Const(rows, cols, val).error == ValueError
    ensures Const(rows, cols, val).Ok? ==>
      Data(Const(rows, cols, val).value) == Ok(seq(rows * cols, _ => val))
  {
    if rows >= 1 && cols >= 1 {
      var m := Const(rows, cols, val).value;
      LogicalRowMajor(rows, cols, m.store[..rows * cols]);
      assert m.store[..rows * cols] == m.store;
    }
  }

  /** Compress is defined exactly on equal shapes with both lists long
      enough, and combines the elements pairwise in row-major order. */
  lemma CompressSpec(a: Matrix, b: Matrix, f: (real, real) -> real)
    requires a.Valid() && b.Valid()
    ensures a.rows != b.rows || a.cols != b.cols ==> Compress(a, b, f) == Err(ValueError)
    ensures a.rows == b.rows && a.cols == b.cols ==>
      (Compress(a, b, f).Ok? <==> a.Loaded() && b.Loaded())
    ensures Compress(a, b, f).Ok? ==>
      var d := Data(Compress(a, b, f).value);
      d.Ok? && |d.value| == a.rows * a.cols &&
      forall i :: 0 <= i < |d.value| ==> d.value[i] == f(a.Contents()[i], b.Contents()[i])
  {
    var r := Compress(a, b, f);
    if r.Ok? {
      LogicalRowMajor(r.value.rows, r.value.cols, r.value.store[..r.value.rows * r.value.cols]);
      assert r.value.store[..r.value.rows * r.value.cols] == r.value.store;
    }
  }

  /** The three operators are the engines' element-wise merges. */
  lemma OperatorsAreMerges(a: Matrix, b: Matrix)
    requires a.Valid() && b.Valid() && a.rows == b.rows && a.cols == b.cols && a.Loaded() && b.Loaded()
    ensures Data(Plus(a, b).value) == Ok(ZipWith(Add, a.Contents(), b.Contents()))
    ensures Data(Minus(a, b).value) == Ok(ZipWith(Sub, a.Contents(), b.Contents()))
    ensures Data(Times(a, b).value) == Ok(ZipWith(Mul, a.Contents(), b.Contents()))
  {
    var ea, eb := a.Contents(), b.Contents();
    CompressSpec(a, b, (x, y) => x + y);
    CompressSpec(a, b, (x, y) => x - y);
    CompressSpec(a, b, (x, y) => x * y);
    var plus, minus, times := Data(Plus(a, b).value).value, Data(Minus(a, b).value).value, Data(Times(a, b).value).value;
    forall i | 0 <= i < |ea|
      ensures plus[i] == ZipWith(Add, ea, eb)[i]
      ensures minus[i] == ZipWith(Sub, ea, eb)[i]
      ensures times[i] == ZipWith(Mul, ea, eb)[i]
    {
    }
    assert plus == ZipWith(Add, ea, eb);
    assert minus == ZipWith(Sub, ea, eb);
    assert times == ZipWith(Mul, ea, eb);
  }

  /** @ is defined exactly when the inner dims agree and both lists are long
      enough; the result is the textbook product. */
  lemma MatMulSpec(a: Matrix, b: Matrix)
    requires a.Valid() && b.Valid()
    ensures a.cols != b.rows ==> MatMul(a, b) == Err(ValueError)
    ensures a.cols == b.rows ==> (MatMul(a, b).Ok? <==> a.Loaded() && b.Loaded())
    ensures MatMul(a, b).Ok? ==>
      Data(MatMul(a, b).value) == Ok(Product(a.Contents(), b.Contents(), a.rows, a.cols, b.cols))
  {
    var r := MatMul(a, b);
    if r.Ok? {
      var m := r.value;
      LogicalRowMajor(m.rows, m.cols, m.store[..m.rows * m.cols]);
      assert m.store[..m.rows * m.cols] == m.store;
    }
  }

  /** The transpose shares the list, swaps the dims, and yields the
      transposed elements. */
  lemma TransposeSpec(m: Matrix)
    requires m.Valid()
    ensures T(m).rows == m.cols && T(m).cols == m.rows && T(m).store == m.store
    ensures T(m).Loaded() <==> m.Loaded()
    ensures m.Loaded() ==> T(m).Contents() == Transposed(m.Contents(), m.rows, m.cols)
  {
    if m.Loaded() {
      var phys := m.store[..m.rows * m.cols];
      assert m.store[..m.cols * m.rows] == phys;
      LogicalOfView(m.Walk(), m.rows, m.cols, phys);
    }
  }

  /** Transposing twice gives the same matrix back. */
  lemma TransposeTwice(m: Matrix)
    requires m.Valid()
    ensures T(T(m)) == m
  {
  }

  /** With both lists long enough, == holds exactly when the shapes and the
      elements agree. */
  lemma EqSpec(a: Matrix, b: Matrix)
    requires a.Valid() && b.Valid() && a.Loaded() && b.Loaded()
    ensures Eq(a, b) == Ok(a.rows == b.rows && a.cols == b.cols && a.Contents() == b.Contents())
  {
    if a.rows == b.rows && a.cols == b.cols {
      EqFromSpec(a, b, 0);
      assert a.Contents()[0..] == a.Contents() && b.Contents()[0..] == b.Contents();
    }
  }

  lemma {:induction false} EqFromSpec(a: Matrix, b: Matrix, i: int)
    requires a.Valid() && b.Valid() && a.Loaded() && b.Loaded() && a.rows == b.rows && a.cols == b.cols
    requires 0 <= i <= a.rows * a.cols
    ensures EqFrom(a, b, i) == Ok(a.Contents()[i..] == b.Contents()[i..])
    decreases a.rows * a.cols - i
  {
    if i < a.rows * a.cols {
      EqFromSpec(a, b, i + 1);
      ContentsAt(a, i);
      ContentsAt(b, i);
      SuffixEquality(a.Contents(), b.Contents(), i);
    }
  }

  /** Logical element i is read from inside the list. */
  lemma ContentsAt(m: Matrix, i: int)
    requires m.Valid() && m.Loaded() && 0 <= i < m.rows * m.cols
    ensures Index(m.Walk(), m.rows, m.cols, i) < |m.store|
    ensures m.store[Index(m.Walk(), m.rows, m.cols, i)] == m.Contents()[i]
  {
  }

  /** Two suffixes are equal when their first elements and the rest are. */
  lemma SuffixEquality(s: seq<real>, t: seq<real>, i: int)
    requires |s| == |t| && 0 <= i < |s|
    ensures (s[i..] == t[i..]) == (s[i] == t[i] && s[i + 1..] == t[i + 1..])
  {
    assert s[i..] == [s[i]] + s[i + 1..];
    assert t[i..] == [t[i]] + t[i + 1..];
  }

  /** A sum of n products of x by y is n * x * y. */
  lemma {:induction false} DotOfConstants(u: seq<real>, v: seq<real>, x: real, y: real)
    requires |u| == |v|
    requires forall i :: 0 <= i < |u| ==> u[i] == x && v[i] == y
    ensures Dot(u, v) == |u| as real * x * y
  {
    if |u| > 0 {
      DotOfConstants(u[..|u| - 1], v[..|v| - 1], x, y);
    }
  }

  /** The product of an R x K matrix of x's by a K x C matrix of y's holds
      K * x * y everywhere. */
  lemma ProductOfConstants(R: nat, K: nat, C: nat, x: real, y: real)
    ensures Product(seq(R * K, _ => x), seq(K * C, _ => y), R, K, C) == seq(R * C, _ => K as real * x * y)
  {
    var a, b := seq(R * K, _ => x), seq(K * C, _ => y);
    var p := Product(a, b, R, K, C);
    forall i | 0 <= i < R * C
      ensures p[i] == K as real * x * y
    {
      OffsetSplit(i, R, C);
      ConstantCell(R, K, C, x, y, i / C, i % C);
    }
  }

  /** One cell of that product: a row of x's dotted with a column of y's. */
  lemma ConstantCell(R: nat, K: nat, C: nat, x: real, y: real, r: nat, c: nat)
    requires r < R && c < C
    ensures Dot(Row(seq(R * K, _ => x), R, K, r), Col(seq(K * C, _ => y), K, C, c)) == K as real * x * y
  {
    var u, v := Row(seq(R * K, _ => x), R, K, r), Col(seq(K * C, _ => y), K, C, c);
    forall k | 0 <= k < K
      ensures u[k] == x && v[k] == y
    {
      CellBounds(r, k, R, K);
      CellBounds(k, c, K, C);
    }
    DotOfConstants(u, v, x, y);
  }

  // The cases of tests/matrix_test.py, stated as lemmas.

  /** testZeros and testConst: every element of zeros(3, 3) is 0 and every
      element of const(3, 3, 5) is 5. */
  lemma ZerosAndConstHoldTheirValue()
    ensures Zeros(3, 3).Ok? && Data(Zeros(3, 3).value) == Ok(seq(9, _ => 0.0))
    ensures Const(3, 3, 5.0).Ok? && Data(Const(3, 3, 5.0).value) == Ok(seq(9, _ => 5.0))
  {
    ConstSpec(3, 3, 0.0);
    ConstSpec(3, 3, 5.0);
  }

  /** testConstNegDimFail1: const with rows = -1 is a ValueError. */
  lemma NegativeRowsRejected()
    ensures Const(-1, 3, 4.0) == Err(ValueError)
  {
  }

  /** testMatMul1: const(4, 6, 3) @ const(6, 5, 4) == const(4, 5, 72). */
  lemma ConstTimesConst()
    ensures MatMul(Const(4, 6, 3.0).value, Const(6, 5, 4.0).value).Ok?
    ensures Eq(MatMul(Const(4, 6, 3.0).value, Const(6, 5, 4.0).value).value, Const(4, 5, 72.0).value) == Ok(true)
  {
    var a, b, e := Const(4, 6, 3.0).value, Const(6, 5, 4.0).value, Const(4, 5, 72.0).value;
    ConstSpec(4, 6, 3.0);
    ConstSpec(6, 5, 4.0);
    ConstSpec(4, 5, 72.0);
    MatMulSpec(a, b);
    ProductOfConstants(4, 6, 5, 3.0, 4.0);
    var p := MatMul(a, b).value;
    assert p.Contents() == Data(p).value;
    EqSpec(p, e);
  }

  /** A dot product of three terms, written out. */
  lemma DotOfThree(u: seq<real>, v: seq<real>)
    requires |u| == 3 && |v| == 3
    ensures Dot(u, v) == u[0] * v[0] + u[1] * v[1] + u[2] * v[2]
  {
    assert u[..0] == [] && v[..0] == [];
    DotStep(u, v, 0);
    DotStep(u, v, 1);
    DotStep(u, v, 2);
    assert u[..3] == u && v[..3] == v;
  }

  /** Cell (r, c) of a 3 x 3 product, written out. */
  lemma ProductOfThreeAt(a: seq<real>, b: seq<real>, r: int, c: int)
    requires |a| == 9 && |b| == 9 && 0 <= r < 3 && 0 <= c < 3
    ensures Product(a, b, 3, 3, 3)[r * 3 + c] ==
      a[r * 3] * b[c] + a[r * 3 + 1] * b[3 + c] + a[r * 3 + 2] * b[6 + c]
  {
    ProductCell(a, b, 3, 3, 3, r, c);
    DotOfThree(Row(a, 3, 3, r), Col(b, 3, 3, c));
  }

  /** The arithmetic of testMatMul2. */
  lemma SquareOfOneToNine(s: seq<real>)
    requires s == [1.0, 2.0, 3.0, 4.0, 5.0, 6.0, 7.0, 8.0, 9.0]
    ensures Product(s, s, 3, 3, 3) == [30.0, 36.0, 42.0, 66.0, 81.0, 96.0, 102.0, 126.0, 150.0]
  {
    var p := Product(s, s, 3, 3, 3);
    ProductOfThreeAt(s, s, 0, 0);
    assert p[0] == 30.0;
    ProductOfThreeAt(s, s, 0, 1);
    assert p[1] == 36.0;
    ProductOfThreeAt(s, s, 0, 2);
    assert p[2] == 42.0;
    ProductOfThreeAt(s, s, 1, 0);
    assert p[3] == 66.0;
    ProductOfThreeAt(s, s, 1, 1);
    assert p[4] == 81.0;
    ProductOfThreeAt(s, s, 1, 2);
    assert p[5] == 96.0;
    ProductOfThreeAt(s, s, 2, 0);
    assert p[6] == 102.0;
    ProductOfThreeAt(s, s, 2, 1);
    assert p[7] == 126.0;
    ProductOfThreeAt(s, s, 2, 2);
    assert p[8] == 150.0;
  }

  /** The 3 x 3 matrix [1..9], transposed. */
  lemma TransposeOfOneToNine(s: seq<real>)
    requires s == [1.0, 2.0, 3.0, 4.0, 5.0, 6.0, 7.0, 8.0, 9.0]
    ensures Transposed(s, 3, 3) == [1.0, 4.0, 7.0, 2.0, 5.0, 8.0, 3.0, 6.0, 9.0]
  {
    var t := Transposed(s, 3, 3);
    assert t[0] == 1.0 && t[1] == 4.0 && t[2] == 7.0;
    assert t[3] == 2.0 && t[4] == 5.0 && t[5] == 8.0;
    assert t[6] == 3.0 && t[7] == 6.0 && t[8] == 9.0;
  }

  /** testMatMul2: [1..9] as 3 x 3, squared, is [30, 36, 42, 66, 81, 96,
      102, 126, 150]. */
  lemma SquareOfThreeByThree()
    ensures MatMul(Matrix(3, 3, [1.0, 2.0, 3.0, 4.0, 5.0, 6.0, 7.0, 8.0, 9.0], false),
                   Matrix(3, 3, [1.0, 2.0, 3.0, 4.0, 5.0, 6.0, 7.0, 8.0, 9.0], false)).Ok?
    ensures Eq(MatMul(Matrix(3, 3, [1.0, 2.0, 3.0, 4.0, 5.0, 6.0, 7.0, 8.0, 9.0], false),
                      Matrix(3, 3, [1.0, 2.0, 3.0, 4.0, 5.0, 6.0, 7.0, 8.0, 9.0], false)).value,
               Matrix(3, 3, [30.0, 36.0, 42.0, 66.0, 81.0, 96.0, 102.0, 126.0, 150.0], false)) == Ok(true)
  {
    var s := [1.0, 2.0, 3.0, 4.0, 5.0, 6.0, 7.0, 8.0, 9.0];
    var m := Matrix(3, 3, s, false);
    var e := Matrix(3, 3, [30.0, 36.0, 42.0, 66.0, 81.0, 96.0, 102.0, 126.0, 150.0], false);
    LogicalRowMajor(3, 3, s);
    LogicalRowMajor(3, 3, e.store);
    assert s[..9] == s && e.store[..9] == e.store;
    MatMulSpec(m, m);
    SquareOfOneToNine(s);
    var q := MatMul(m, m).value;
    assert q.Contents() == Data(q).value;
    EqSpec(q, e);
  }

  /** testMatMulFail1: a 6 x 5 matrix @ a 4 x 6 matrix is a ValueError. */
  lemma IncompatibleMatMulRejected()
    ensures MatMul(Const(6, 5, 4.0).value, Const(4, 6, 3.0).value) == Err(ValueError)
  {
  }

  /** testMatAddFail1: adding a 4 x 6 and a 6 x 5 matrix is a ValueError. */
  lemma IncompatibleAddRejected()
    ensures Plus(Const(4, 6, 3.0).value, Const(6, 5, 4.0).value) == Err(ValueError)
  {
  }

  /** testTranspose1: the transpose of [1..9] as 3 x 3 equals [1, 4, 7, 2,
      5, 8, 3, 6, 9]. */
  lemma TransposeOfThreeByThree()
    ensures Eq(T(Matrix(3, 3, [1.0, 2.0, 3.0, 4.0, 5.0, 6.0, 7.0, 8.0, 9.0], false)),
               Matrix(3, 3, [1.0, 4.0, 7.0, 2.0, 5.0, 8.0, 3.0, 6.0, 9.0], false)) == Ok(true)
  {
    var m := Matrix(3, 3, [1.0, 2.0, 3.0, 4.0, 5.0, 6.0, 7.0, 8.0, 9.0], false);
    var e := Matrix(3, 3, [1.0, 4.0, 7.0, 2.0, 5.0, 8.0, 3.0, 6.0, 9.0], false);
    TransposeSpec(m);
    LogicalRowMajor(3, 3, m.store);
    LogicalRowMajor(3, 3, e.store);
    assert m.store[..9] == m.store && e.store[..9] == e.store;
    TransposeOfOneToNine(m.store);
    EqSpec(T(m), e);
  }

  /** testMatAdd1: [1..9] + [1..9] is [2, 4, .., 18]. */
  lemma AddToItself()
    ensures Plus(Matrix(3, 3, [1.0, 2.0, 3.0, 4.0, 5.0, 6.0, 7.0, 8.0, 9.0], false),
                 Matrix(3, 3, [1.0, 2.0, 3.0, 4.0, 5.0, 6.0, 7.0, 8.0, 9.0], false)).Ok?
    ensures Eq(Plus(Matrix(3, 3, [1.0, 2.0, 3.0, 4.0, 5.0, 6.0, 7.0, 8.0, 9.0], false),
                    Matrix(3, 3, [1.0, 2.0, 3.0, 4.0, 5.0, 6.0, 7.0, 8.0, 9.0], false)).value,
               Matrix(3, 3, [2.0, 4.0, 6.0, 8.0, 10.0, 12.0, 14.0, 16.0, 18.0], false)) == Ok(true)
  {
    var m := Matrix(3, 3, [1.0, 2.0, 3.0, 4.0, 5.0, 6.0, 7.0, 8.0, 9.0], false);
    var e := Matrix(3, 3, [2.0, 4.0, 6.0, 8.0, 10.0, 12.0, 14.0, 16.0, 18.0], false);
    LogicalRowMajor(3, 3, m.store);
    LogicalRowMajor(3, 3, e.store);
    assert m.store[..9] == m.store && e.store[..9] == e.store;
    CompressSpec(m, m, (x, y) => x + y);
    var s := Plus(m, m).value;
    assert s.Contents() == Data(s).value;
    EqSpec(s, e);
  }
}
