/** What the aliasing engine (Quantum/src/matrix.c) promises, as functions on
    values: dims parsing, the outcome of each constructor, the element-wise map,
    and the product its matmul loop computes. The class in module Quantum is
    proved against these. */
module QuantumSpec {
  import opened Grid
  import opened Host
  import opened Dense
  import opened Indexing

  /** The outcome of _matrix_parse_dims on a `dims` argument. `initial` is what
      dims[0] held before the call (the caller's default row count); dims[1]
      is reset to 1 before the tuple is read. */
  function Dims(py: PyValue, initial: int): Result<(int, int)> {
    if !py.Tuple? then Err(TypeError)
    else if |py.items| > 2 then Err(ValueError)
    else if exists k :: 0 <= k < |py.items| && !py.items[k].Int? then Err(TypeError)
    else
      var rows := if |py.items| >= 1 then py.items[0].i else initial;
      var cols := if |py.items| == 2 then py.items[1].i else 1;
      if rows < 1 || cols < 1 then Err(ValueError) else Ok((rows, cols))
  }

  /** Parsed dims are positive; a 1-tuple (n,) means n rows and one column; an
      empty tuple keeps the caller's default row count; a non-tuple or a
      non-int entry is a TypeError; more than two entries or a dim below 1 is a
      ValueError. */
  lemma DimsSpec(py: PyValue, initial: int)
    ensures Dims(py, initial).Ok? ==> Dims(py, initial).value.0 >= 1 && Dims(py, initial).value.1 >= 1
    ensures !py.Tuple? ==> Dims(py, initial) == Err(TypeError)
    ensures py.Tuple? && |py.items| > 2 ==> Dims(py, initial) == Err(ValueError)
    ensures py.Tuple? && |py.items| <= 2 && (exists k :: 0 <= k < |py.items| && !py.items[k].Int?) ==>
      Dims(py, initial) == Err(TypeError)
    ensures py.Tuple? && |py.items| == 0 ==>
      Dims(py, initial) == if initial >= 1 then Ok((initial, 1)) else Err(ValueError)
    ensures py.Tuple? && |py.items| == 1 && py.items[0].Int? ==>
      Dims(py, initial) == if py.items[0].i >= 1 then Ok((py.items[0].i, 1)) else Err(ValueError)
    ensures py.Tuple? && |py.items| == 2 && py.items[0].Int? && py.items[1].Int? ==>
      Dims(py, initial) ==
        if py.items[0].i >= 1 && py.items[1].i >= 1 then Ok((py.items[0].i, py.items[1].i))
        else Err(ValueError)
  {
  }

  /** The dims a constructor uses: (default, 1) when no `dims` is given. */
  function DimsOr(dims: Option<PyValue>, default: int): Result<(int, int)> {
    if dims.None? then (if default >= 1 then Ok((default, 1)) else Err(ValueError))
    else Dims(dims.value, default)
  }

  /** _matrix_init_from_scalar: dims default to (1, 1). */
  function FromScalar(x: real, dims: Option<PyValue>): Result<Built> {
    match DimsOr(dims, 1)
    case Err(e) => Err(e)
    case Ok(d) => Ok(Built(d.0, d.1, seq(d.0 * d.1, _ => x)))
  }

  /** _matrix_init_from_1d_list: dims default to (N, 1) and must hold exactly N
      elements; every item must be a number. */
  function FromFlat(items: seq<PyValue>, dims: Option<PyValue>): Result<Built> {
    match DimsOr(dims, |items|)
    case Err(e) => Err(e)
    case Ok(d) =>
      if d.0 * d.1 != |items| then Err(ValueError)
      else match Convert(items, false)
        case None => Err(TypeError)
        case Some(v) => Ok(Built(d.0, d.1, v))
  }

  /** _matrix_init_from_2d_list: the shape is (number of rows, length of the
      first row); explicit dims must equal it. `uninit` is the indeterminate
      value the C code leaves in dims_received[0] (see README). */
  function FromNested(rows: seq<PyValue>, dims: Option<PyValue>, uninit: int): Result<Built>
    requires |rows| >= 1 && rows[0].List?
  {
    var R, C := |rows|, |rows[0].items|;
    if C < 1 then Err(ValueError)
    else if dims.Some? && Dims(dims.value, uninit).Err? then Err(Dims(dims.value, uninit).error)
    else if dims.Some? && Dims(dims.value, uninit).value != (R, C) then Err(ValueError)
    else match FlattenRows(rows, C, false)
      case Err(e) => Err(e)
      case Ok(v) => Ok(Built(R, C, v))
  }

  /** matrix_init's dispatch on the kind of `data` (a Matrix argument is the copy
      constructor, modelled separately). */
  function Build(data: PyValue, dims: Option<PyValue>, uninit: int): Result<Built> {
    if IsNumber(data) then FromScalar(AsReal(data), dims)
    else if data.List? then
      if |data.items| < 1 then Err(ValueError)
      else if IsNumber(data.items[0]) then FromFlat(data.items, dims)
      else if data.items[0].List? then FromNested(data.items, dims, uninit)
      else Err(NotImplementedError)
    else Err(NotImplementedError)
  }

  /** What gauss and uniform build once their arguments pass: dims default
      to (1, 1) and element i is samples(i). */
  function Sampled(dims: Option<PyValue>, samples: nat -> real): Result<Built> {
    match DimsOr(dims, 1)
    case Err(e) => Err(e)
    case Ok(d) => Ok(Built(d.0, d.1, seq(d.0 * d.1, i requires 0 <= i => samples(i))))
  }

  /** Every matrix a constructor builds has positive dims and exactly
      rows * cols elements. */
  lemma BuildShape(data: PyValue, dims: Option<PyValue>, uninit: int)
    requires Build(data, dims, uninit).Ok?
    ensures var b := Build(data, dims, uninit).value;
      b.rows >= 1 && b.cols >= 1 && |b.elements| == b.rows * b.cols
  {
    if !IsNumber(data) && data.List? && !IsNumber(data.items[0]) {
      FlattenRowsValues(data.items, |data.items[0].items|, false);
    }
  }

  /** A scalar fills every one of the rows * cols elements; without dims the
      matrix is 1 x 1. */
  lemma ScalarFills(x: PyValue, dims: Option<PyValue>, uninit: int, i: int)
    requires IsNumber(x) && Build(x, dims, uninit).Ok?
    requires 0 <= i < |Build(x, dims, uninit).value.elements|
    ensures Build(x, dims, uninit).value.elements[i] == AsReal(x)
    ensures dims.None? ==> Build(x, dims, uninit).value.rows == 1 && Build(x, dims, uninit).value.cols == 1
  {
  }

  /** A flat list of N numbers without dims is an N x 1 column holding the list;
      with dims it succeeds exactly when rows * cols == N and every item is a number. */
  lemma FlatListSpec(items: seq<PyValue>, dims: Option<PyValue>, uninit: int)
    requires |items| >= 1 && IsNumber(items[0])
    ensures var b := Build(List(items), dims, uninit);
      (b.Ok? <==> DimsOr(dims, |items|).Ok? &&
                  DimsOr(dims, |items|).value.0 * DimsOr(dims, |items|).value.1 == |items| &&
                  forall k :: 0 <= k < |items| ==> IsNumber(items[k])) &&
      (b.Ok? ==> forall k :: 0 <= k < |items| ==> b.value.elements[k] == AsReal(items[k])) &&
      (dims.None? && b.Ok? ==> b.value.rows == |items| && b.value.cols == 1)
  {
  }

  /** A nested list succeeds exactly when its first row is non-empty, explicit
      dims (if any) parse and equal the inferred shape, and every row is a list
      of exactly that many numbers; its elements are then the rows in order. */
  lemma NestedListSpec(rows: seq<PyValue>, dims: Option<PyValue>, uninit: int)
    requires |rows| >= 1 && rows[0].List?
    ensures var b := Build(List(rows), dims, uninit);
      var R, C := |rows|, |rows[0].items|;
      (b.Ok? <==> (C >= 1 &&
                   (dims.Some? ==> Dims(dims.value, uninit) == Ok((R, C))) &&
                   forall k :: 0 <= k < R ==> GoodRow(rows[k], C, false))) &&
      (b.Ok? ==> (b.value.rows == R && b.value.cols == C && |b.value.elements| == R * C &&
                  forall r, c :: 0 <= r < R && 0 <= c < C ==>
                    Cell(b.value.elements, R, C, r, c) == AsReal(rows[r].items[c])))
  {
    var R, C := |rows|, |rows[0].items|;
    if IsNumber(rows[0]) {
      assert false;
    }
    FlattenRowsOk(rows, C, false);
    if Build(List(rows), dims, uninit).Ok? {
      FlattenRowsValues(rows, C, false);
      forall k | 0 <= k < R
        ensures GoodRow(rows[k], C, false)
      {
      }
    }
  }

  // The element-wise map. A callback either raises (None) or returns a value.

  /** The callback returned a number for this element. */
  predicate Mappable(v: Option<PyValue>) {
    v.Some? && IsNumber(v.value)
  }

  /** The position of the first element whose callback fails (|s| if none). */
  function FirstFailure(f: real -> Option<PyValue>, s: seq<real>): (k: nat)
    ensures k <= |s|
    ensures forall j :: 0 <= j < k ==> Mappable(f(s[j]))
    ensures k < |s| ==> !Mappable(f(s[k]))
  {
    if |s| == 0 || !Mappable(f(s[0])) then 0 else 1 + FirstFailure(f, s[1..])
  }

  /** A position where every earlier callback succeeded and this one fails
      (or the end) is the first failure. */
  lemma FirstFailureAt(f: real -> Option<PyValue>, s: seq<real>, i: int)
    requires 0 <= i <= |s| && forall j :: 0 <= j < i ==> Mappable(f(s[j]))
    requires i < |s| ==> !Mappable(f(s[i]))
    ensures FirstFailure(f, s) == i
  {
  }

  /** `base` with its first k elements replaced by the mapped first k
      elements of `s`, the sequence the callback is given. */
  function MapPrefix(f: real -> Option<PyValue>, s: seq<real>, base: seq<real>, k: int): (r: seq<real>)
    requires |base| == |s| && 0 <= k <= |s| && forall j :: 0 <= j < k ==> Mappable(f(s[j]))
    ensures |r| == |s|
  {
    seq(|s|, j requires 0 <= j < |s| && (j < k ==> Mappable(f(s[j]))) => if j < k then AsReal(f(s[j]).value) else base[j])
  }

  // The product as matrix_number_matmul computes it.

  /** Cell (r, c) is row r of `a` dotted with the K values the loop reads for
      column c: positions c * K .. c * K + K - 1 of `loaded`, which is the right
      operand's buffer read through its col_idx function evaluated on its own
      (K x C) shape. */
  function WrittenProduct(a: seq<real>, loaded: seq<real>, R: nat, K: nat, C: nat): (p: seq<real>)
    requires |a| == R * K && |loaded| == K * C
    ensures |p| == R * C
  {
    assert |loaded| == C * K;
    seq(R * C, i requires 0 <= i < R * C =>
      OffsetSplit(i, R, C);
      Dot(Row(a, R, K, i / C), Row(loaded, C, K, i % C)))
  }

  /** Cell (r, c) of the written product. */
  lemma WrittenProductCell(a: seq<real>, loaded: seq<real>, R: nat, K: nat, C: nat, r: nat, c: nat)
    requires |a| == R * K && |loaded| == K * C && r < R && c < C
    ensures 0 <= r * C + c < R * C
    ensures WrittenProduct(a, loaded, R, K, C)[r * C + c] == Dot(Row(a, R, K, r), Row(loaded, C, K, c))
  {
    CellBounds(r, c, R, C);
    CellDivMod(r, c, C);
  }

  /** When the values read are the transpose of the right operand, the written
      product is the textbook product. */
  lemma WrittenProductOfTranspose(a: seq<real>, b: seq<real>, R: nat, K: nat, C: nat)
    requires |a| == R * K && |b| == K * C
    ensures WrittenProduct(a, Transposed(b, K, C), R, K, C) == Product(a, b, R, K, C)
  {
    var w := WrittenProduct(a, Transposed(b, K, C), R, K, C);
    var p := Product(a, b, R, K, C);
    forall i | 0 <= i < R * C
      ensures w[i] == p[i]
    {
      OffsetSplit(i, R, C);
      TransposedRow(b, K, C, i % C);
    }
  }

  /** What matmul reads from the right operand b: its buffer through b.col_idx
      on b's own shape. It is b's transpose whenever col_idx is the identity (b
      is a transpose view of a row-major matrix), b is square, or b is a single
      row or a single column. */
  lemma ColumnReadsAreTranspose(f: Layout, K: nat, C: nat, phys: seq<real>)
    requires K >= 1 && C >= 1 && |phys| == K * C
    requires Other(f) == RowMajor || K == C || K == 1 || C == 1
    ensures Logical(Other(f), K, C, phys) == Transposed(Logical(f, K, C, phys), K, C)
  {
    LogicalOfView(f, K, C, phys);
    var x := Logical(Other(f), K, C, phys);
    var y := Logical(Other(f), C, K, phys);
    assert x == y by {
      forall i | 0 <= i < K * C
        ensures x[i] == y[i]
      {
        if Other(f) == ColMajor && K != C {
          ColMajorOnVector(K, C, i);
          ColMajorOnVector(C, K, i);
        }
      }
    }
  }

  /** In every other case the reads are not the transpose: on a row-major
      K x C matrix with K, C >= 2 and K != C holding 0, 1, 2, ..., position 1
      of the column reads is K while the transpose has C there. */
  lemma ColumnReadsDifferOtherwise(K: nat, C: nat)
    requires K >= 2 && C >= 2 && K != C
    ensures var phys := seq(K * C, i => i as real);
      Logical(ColMajor, K, C, phys) != Transposed(Logical(RowMajor, K, C, phys), K, C)
  {
    var phys := seq(K * C, i => i as real);
    LogicalRowMajor(K, C, phys);
    ColumnReadAtOne(K, C, phys);
    TransposeAtOne(K, C, phys);
    assert phys[K] != phys[C];
  }

  /** Position 1 of the column reads of a K x C buffer is offset K. */
  lemma ColumnReadAtOne(K: nat, C: nat, phys: seq<real>)
    requires K >= 2 && C >= 2 && |phys| == K * C
    ensures K < K * C && Logical(ColMajor, K, C, phys)[1] == phys[K]
  {
    CellBounds(1, 0, C, K);
    assert 1 / C == 0;
    assert ColMajorAsWritten(K, C, 1) == 1 * K + 0 * (1 - K * C);
  }

  /** Position 1 of the transpose of a K x C matrix is its offset C. */
  lemma TransposeAtOne(K: nat, C: nat, s: seq<real>)
    requires K >= 2 && C >= 2 && |s| == K * C
    ensures C < K * C && Transposed(s, K, C)[1] == s[C]
  {
    CellBounds(1, 0, K, C);
    assert 1 % K == 1 && 1 / K == 0;
    assert Cell(s, K, C, 1, 0) == s[1 * C + 0];
  }

  /** With a row-major, non-square right operand the written product differs
      from the textbook one: [[1, 0]] times [[1, 2, 3], [4, 5, 6]] gives
      [1, 5, 4] instead of [1, 2, 3]. */
  lemma WrittenProductCounterexample()
    ensures var b := [1.0, 2.0, 3.0, 4.0, 5.0, 6.0];
      var a := [1.0, 0.0];
      var loaded := Logical(ColMajor, 2, 3, b);
      WrittenProduct(a, loaded, 1, 2, 3) == [1.0, 5.0, 4.0] &&
      Product(a, Logical(RowMajor, 2, 3, b), 1, 2, 3) == [1.0, 2.0, 3.0]
  {
    var b := [1.0, 2.0, 3.0, 4.0, 5.0, 6.0];
    var a := [1.0, 0.0];
    var loaded := Logical(ColMajor, 2, 3, b);
    ColMajorReadsExample(b);
    var w := WrittenProduct(a, loaded, 1, 2, 3);
    assert Row(a, 1, 2, 0) == [1.0, 0.0] by {
      assert Cell(a, 1, 2, 0, 0) == a[0] && Cell(a, 1, 2, 0, 1) == a[1];
    }
    assert Row(loaded, 3, 2, 0) == [1.0, 3.0] by {
      assert Cell(loaded, 3, 2, 0, 0) == loaded[0] && Cell(loaded, 3, 2, 0, 1) == loaded[1];
    }
    assert Row(loaded, 3, 2, 1) == [5.0, 2.0] by {
      assert Cell(loaded, 3, 2, 1, 0) == loaded[2] && Cell(loaded, 3, 2, 1, 1) == loaded[3];
    }
    assert Row(loaded, 3, 2, 2) == [4.0, 6.0] by {
      assert Cell(loaded, 3, 2, 2, 0) == loaded[4] && Cell(loaded, 3, 2, 2, 1) == loaded[5];
    }
    DotPair(1.0, 0.0, 1.0, 3.0);
    DotPair(1.0, 0.0, 5.0, 2.0);
    DotPair(1.0, 0.0, 4.0, 6.0);
    assert w[0] == 1.0 && w[1] == 5.0 && w[2] == 4.0;
    assert w == [1.0, 5.0, 4.0];
    assert Logical(RowMajor, 2, 3, b) == b;
    var p := Product(a, b, 1, 2, 3);
    assert Col(b, 2, 3, 0) == [1.0, 4.0] by {
      assert Cell(b, 2, 3, 0, 0) == b[0] && Cell(b, 2, 3, 1, 0) == b[3];
    }
    assert Col(b, 2, 3, 1) == [2.0, 5.0] by {
      assert Cell(b, 2, 3, 0, 1) == b[1] && Cell(b, 2, 3, 1, 1) == b[4];
    }
    assert Col(b, 2, 3, 2) == [3.0, 6.0] by {
      assert Cell(b, 2, 3, 0, 2) == b[2] && Cell(b, 2, 3, 1, 2) == b[5];
    }
    DotPair(1.0, 0.0, 1.0, 4.0);
    DotPair(1.0, 0.0, 2.0, 5.0);
    DotPair(1.0, 0.0, 3.0, 6.0);
    assert p[0] == 1.0 && p[1] == 2.0 && p[2] == 3.0;
    assert p == [1.0, 2.0, 3.0];
  }

  /** The dot product of two pairs. */
  lemma DotPair(x0: real, x1: real, y0: real, y1: real)
    ensures Dot([x0, x1], [y0, y1]) == x0 * y0 + x1 * y1
  {
    assert [x0, x1][..1] == [x0] && [y0, y1][..1] == [y0];
    assert [x0][..0] == [] && [y0][..0] == [];
    assert Dot([x0], [y0]) == Dot([], []) + x0 * y0;
    assert Dot([x0, x1], [y0, y1]) == Dot([x0], [y0]) + x1 * y1;
  }

  /** The column-major function on a 2 x 3 header visits offsets 0, 2, 4, 1, 3, 5. */
  lemma ColMajorReadsExample(b: seq<real>)
    requires |b| == 6
    ensures Logical(ColMajor, 2, 3, b) == [b[0], b[2], b[4], b[1], b[3], b[5]]
  {
    var loaded := Logical(ColMajor, 2, 3, b);
    forall i | 0 <= i < 6
      ensures loaded[i] == b[(i % 3) * 2 + i / 3]
    {
      ColMajorClosedForm(2, 3, i);
    }
    assert loaded[1] == b[2] && loaded[2] == b[4] && loaded[3] == b[1] && loaded[4] == b[3];
  }
}
