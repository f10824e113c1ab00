/** The aliasing engine (Quantum/src/matrix.c). A Matrix is a header over a
    flat buffer: rows, cols, size, the buffer, and two index functions. Logical
    element i (row-major in the header's own shape) lives at offset
    row_idx(i). The transpose is a second header over the same buffer with the
    shape and the two functions swapped; the two headers point at each other
    until one of them is mapped or freed. */
module Quantum {
  import opened Grid
  import opened Host
  import opened Dense
  import opened Indexing
  import opened QuantumSpec

  /** _matrix_parse_dims: reads a tuple of at most two positive ints into
      dims, resetting dims[1] to 1 first. On failure dims may have been
      partly written. */
  method ParseDims(py: PyValue, dims: array<int>) returns (err: Option<Error>)
    requires dims.Length == 2
    modifies dims
    ensures err.None? <==> Dims(py, old(dims[0])).Ok?
    ensures err.None? ==> dims[0] == Dims(py, old(dims[0])).value.0 && dims[1] == Dims(py, old(dims[0])).value.1
    ensures err.Some? ==> err.value == Dims(py, old(dims[0])).error
  {
    ghost var initial := dims[0];
    dims[1] := 1;
    if !py.Tuple? {
      return Some(TypeError);
    }
    if |py.items| > 2 {
      return Some(ValueError);
    }
    var i := 0;
    while i < |py.items|
      invariant 0 <= i <= |py.items|
      invariant forall k :: 0 <= k < i ==> py.items[k].Int?
      invariant dims[0] == if i >= 1 then py.items[0].i else initial
      invariant dims[1] == if i >= 2 then py.items[1].i else 1
    {
      if !py.items[i].Int? {
        return Some(TypeError);
      }
      dims[i] := py.items[i].i;
      i := i + 1;
    }
    if dims[0] < 1 || dims[1] < 1 {
      return Some(ValueError);
    }
    return None;
  }

  class Matrix {
    var rows: int
    var cols: int
    var size: int
    var data: array?<real>
    var rowIdx: Layout
    var colIdx: Layout
    /** The partner header sharing `data`, once the transpose was asked for. */
    var transpose: Matrix?
    /** The tuple `data` returns, built on first request. */
    var cachedData: Option<seq<real>>
    /** The strings repr() and str() return, built on first request. */
    var cachedRepr: Option<string>
    var cachedStr: Option<string>

    /** matrix_new: an empty header with the row-major function in row_idx. */
    constructor ()
      ensures rows == 0 && cols == 0 && size == 0 && data == null
      ensures rowIdx == RowMajor && colIdx == ColMajor && transpose == null
      ensures cachedData == None && cachedRepr == None && cachedStr == None
    {
      rows, cols, size := 0, 0, 0;
      data := null;
      rowIdx, colIdx := RowMajor, ColMajor;
      transpose := null;
      cachedData, cachedRepr, cachedStr := None, None, None;
    }

    /** A header with positive dims over a buffer of exactly rows * cols
        elements, holding one function in each slot. */
    ghost predicate Shaped()
      reads this
    {
      rows >= 1 && cols >= 1 && size == rows * cols &&
      data != null && data.Length == size && colIdx == Other(rowIdx)
    }

    /** The logical, row-major contents. */
    ghost function Elements(): (e: seq<real>)
      reads this, data
      requires Shaped()
      ensures |e| == rows * cols
    {
      Logical(rowIdx, rows, cols, data[..])
    }

    /** t is this header's transpose: same buffer, shape and functions swapped,
        linked back. */
    ghost predicate LinkedTo(t: Matrix)
      reads this, t
    {
      t.transpose == this && t.data == data && t.rows == cols && t.cols == rows &&
      t.size == size && t.rowIdx == colIdx && t.colIdx == rowIdx
    }

    /** The structural invariant every reachable header keeps: well shaped,
        and a partner is linked back. A cached `data` tuple may be stale (see
        ReinitAsWritten). */
    ghost predicate Linked()
      reads this, transpose
    {
      Shaped() && (transpose != null ==> LinkedTo(transpose))
    }

    /** The header invariant: linked, and a cached `data` tuple (this
        header's or the partner's) agrees with the shared buffer. */
    ghost predicate Valid()
      reads this, data, transpose
    {
      Linked() &&
      (cachedData.Some? ==> cachedData.value == Elements()) &&
      (transpose != null ==>
        LinkedTo(transpose) &&
        (transpose.cachedData.Some? ==> transpose.cachedData.value == Logical(colIdx, cols, rows, data[..])))
    }

    /** A freshly built, unshared row-major header holding `b`. */
    ghost predicate Holds(b: Built)
      reads this, data
    {
      Shaped() && transpose == null && rowIdx == RowMajor &&
      cachedData == None && cachedRepr == None && cachedStr == None &&
      rows == b.rows && cols == b.cols && Elements() == b.elements
    }

    /** The partner of a linked header is itself linked and sees the
        transpose. */
    lemma PartnerLinked()
      requires Linked() && transpose != null
      ensures transpose.Linked()
      ensures transpose.Elements() == Transposed(Elements(), rows, cols)
    {
      LogicalOfView(rowIdx, rows, cols, data[..]);
    }

    /** The partner of a valid header is itself valid. */
    lemma PartnerValid()
      requires Valid() && transpose != null
      ensures transpose.Valid()
      ensures transpose.Elements() == Transposed(Elements(), rows, cols)
    {
      PartnerLinked();
    }

    /** _matrix_create_from_dims: a fresh row-major header over a fresh buffer
        whose contents are not specified. */
    static method CreateFromDims(rows: int, cols: int) returns (m: Matrix)
      requires rows >= 1 && cols >= 1
      ensures fresh(m) && fresh(m.data)
      ensures m.Shaped() && m.rows == rows && m.cols == cols && m.rowIdx == RowMajor
      ensures m.transpose == null && m.cachedData == None && m.cachedRepr == None && m.cachedStr == None
    {
      m := new Matrix();
      m.rows, m.cols, m.size := rows, cols, rows * cols;
      m.data := new real[rows * cols];
    }
  
    /** matrix_get_data: the logical contents in row-major order, built on the
        first request and cached; a tuple already cached is returned as it is,
        so on a valid header it is the contents. */
    method GetData() returns (snapshot: seq<real>)
      requires Shaped()
      modifies this`cachedData
      ensures cachedData == Some(snapshot)
      ensures old(cachedData).Some? ==> snapshot == old(cachedData).value
      ensures old(cachedData).None? ==> snapshot == Elements()
      ensures old(Valid()) ==> Valid() && snapshot == Elements()
    {
      if cachedData.None? {
        var acc := [];
        var i := 0;
        while i < size
          invariant 0 <= i <= size && |acc| == i
          invariant forall j :: 0 <= j < i ==> acc[j] == Elements()[j]
        {
          acc := acc + [data[Index(rowIdx, rows, cols, i)]];
          i := i + 1;
        }
        cachedData := Some(acc);
      }
      snapshot := cachedData.value;
    }

    /** matrix_get_transpose: the first request builds a header over the same
        buffer with the shape and the index functions swapped and links the
        two; later requests return the same header. */
    method GetTranspose() returns (t: Matrix)
      requires Linked()
      modifies this`transpose
      ensures Linked() && transpose == t && t.Linked() && t.transpose == this
      ensures old(Valid()) ==> Valid() && t.Valid()
      ensures old(transpose) != null ==> t == old(transpose)
      ensures old(transpose) == null ==>
        fresh(t) && t.cachedData == None && t.cachedRepr == None && t.cachedStr == None
      ensures t.data == data && t.rows == cols && t.cols == rows
      ensures t.Elements() == Transposed(Elements(), rows, cols)
    {
      if transpose == null {
        t := new Matrix();
        t.rows, t.cols, t.size := cols, rows, size;
        t.data := data;
        t.transpose := this;
        t.rowIdx, t.colIdx := colIdx, rowIdx;
        transpose := t;
      } else {
        t := transpose;
      }
      PartnerLinked();
    }

    /** _matrix_unbind_state_objects: breaks the link with the partner (this
        header keeps a private copy of the buffer when keepData holds, and
        loses its buffer otherwise) and drops the cached tuple and strings.
        The partner keeps the old buffer. */
    method Unbind(keepData: bool)
      requires Linked()
      modifies this, transpose
      ensures transpose == null
      ensures cachedData == None && cachedRepr == None && cachedStr == None
      ensures rows == old(rows) && cols == old(cols) && size == old(size)
      ensures rowIdx == old(rowIdx) && colIdx == old(colIdx)
      ensures old(transpose) == null ==> data == old(data)
      ensures old(transpose) != null && keepData ==> fresh(data) && data[..] == old(data[..])
      ensures old(transpose) != null && !keepData ==> data == null
      ensures data != null ==> Valid() && Elements() == old(Elements())
      ensures old(transpose) != null ==> Detached(old(transpose)) && old(transpose).Linked()
      ensures old(transpose) != null && old(Valid()) ==> old(transpose).Valid()
    {
      if transpose != null {
        var t := transpose;
        data := null;
        if keepData {
          var buf := new real[size];
          forall i | 0 <= i < size {
            buf[i] := t.data[i];
          }
          data := buf;
        }
        t.transpose := null;
        transpose := null;
      }
      cachedData, cachedRepr, cachedStr := None, None, None;
    }

    /** What matrix_map hands the callback as element i: item i of the tuple
        `data` returns, which is a cached tuple as it is (stale after
        ReinitAsWritten) or else the contents. */
    ghost function MapSource(): (s: seq<real>)
      reads this, data
      requires Shaped() && (cachedData.Some? ==> |cachedData.value| >= size)
      ensures |s| == size
    {
      if cachedData.Some? then cachedData.value[..size] else Elements()
    }

    /** matrix_map: takes the `data` tuple, unlinks from the partner keeping a
        private buffer, then replaces element i by f(item i of the tuple),
        front to back. A callback that raises stops with ValueError, one that
        returns a non-number stops with TypeError; the elements already
        mapped stay mapped and the rest keep their old values. The partner
        keeps the old contents. On a valid header the tuple is the contents. */
    method Map(f: real -> Option<PyValue>) returns (r: Result<Matrix>)
      requires Linked()
      requires cachedData.Some? ==> |cachedData.value| >= size
      modifies this, data, transpose
      ensures Valid() && transpose == null
      ensures cachedData == None && cachedRepr == None && cachedStr == None
      ensures rows == old(rows) && cols == old(cols) && rowIdx == old(rowIdx)
      ensures old(transpose) == null ==> data == old(data)
      ensures old(transpose) != null ==> fresh(data)
      ensures old(transpose) != null ==>
        Detached(old(transpose)) && old(transpose).Linked() &&
        old(transpose).Elements() == old(transpose.Elements())
      ensures old(transpose) != null && old(Valid()) ==> old(transpose).Valid()
      ensures old(Valid()) ==> old(MapSource()) == old(Elements())
      ensures var s := old(MapSource()); var k := FirstFailure(f, s);
        (r.Ok? <==> k == |s|) &&
        (r.Ok? ==> r.value == this) &&
        (k < |s| ==> r == Err(if f(s[k]).None? then ValueError else TypeError)) &&
        Elements() == MapPrefix(f, s, old(Elements()), k)
    {
      ghost var items := MapSource();
      ghost var base := Elements();
      var snapshot := GetData();
      assert snapshot[..size] == items;
      if transpose != null {
        PartnerLinked();
      }
      Unbind(true);
      r := MapInPlace(f, snapshot, items, base);
    }

    /** The loop of matrix_map on an unlinked header holding `base`: element
        i becomes f(snapshot[i]) until the first callback that fails. */
    method MapInPlace(f: real -> Option<PyValue>, snapshot: seq<real>, ghost items: seq<real>, ghost base: seq<real>)
      returns (r: Result<Matrix>)
      requires Shaped() && |snapshot| >= size && items == snapshot[..size] && Elements() == base
      modifies data
      ensures var k := FirstFailure(f, items);
        (r.Ok? <==> k == size) &&
        (r.Ok? ==> r.value == this) &&
        (k < size ==> r == Err(if f(items[k]).None? then ValueError else TypeError)) &&
        Elements() == MapPrefix(f, items, base, k)
    {
      var i := 0;
      while i < size
        invariant 0 <= i <= size
        invariant forall j :: 0 <= j < i ==> Mappable(f(items[j]))
        invariant Elements() == MapPrefix(f, items, base, i)
      {
        var mapped := f(snapshot[i]);
        assert snapshot[i] == items[i];
        if mapped.None? || !IsNumber(mapped.value) {
          FirstFailureAt(f, items, i);
        }
        if mapped.None? {
          return Err(ValueError);
        }
        if !IsNumber(mapped.value) {
          return Err(TypeError);
        }
        ghost var before := data[..];
        var x := AsReal(mapped.value);
        data[Index(rowIdx, rows, cols, i)] := x;
        LogicalUpdate(rowIdx, rows, cols, before, i, x);
        assert MapPrefix(f, items, base, i)[i := x] == MapPrefix(f, items, base, i + 1);
        i := i + 1;
      }
      FirstFailureAt(f, items, i);
      return Ok(this);
    }

    /** _matrix_init_copy_matrix: a new header with the source's shape, a
        byte-for-byte copy of its buffer and the source's index functions (so
        the copy of a transpose view keeps the column-major layout). */
    static method Copy(src: Matrix) returns (m: Matrix)
      requires src.Shaped()
      ensures fresh(m) && fresh(m.data) && m.Valid() && m.transpose == null
      ensures m.rows == src.rows && m.cols == src.cols
      ensures m.rowIdx == src.rowIdx && m.colIdx == src.colIdx
      ensures m.data[..] == src.data[..] && m.Elements() == src.Elements()
      ensures m.cachedData == None && m.cachedRepr == None && m.cachedStr == None
    {
      m := new Matrix();
      m.rows, m.cols, m.size := src.rows, src.cols, src.size;
      var buf := new real[src.size];
      forall i | 0 <= i < src.size {
        buf[i] := src.data[i];
      }
      m.data := buf;
      m.rowIdx, m.colIdx := src.rowIdx, src.colIdx;
    }

    /** _matrix_init_from_scalar: dims default to (1, 1); every element is the scalar. */
    static method InitFromScalar(x: PyValue, dims: Option<PyValue>) returns (r: Result<Matrix>)
      requires IsNumber(x)
      ensures r.Ok? <==> FromScalar(AsReal(x), dims).Ok?
      ensures r.Err? ==> r.error == FromScalar(AsReal(x), dims).error
      ensures r.Ok? ==> fresh(r.value) && fresh(r.value.data) && r.value.Holds(FromScalar(AsReal(x), dims).value)
    {
      var d := new int[2];
      d[0], d[1] := 1, 1;
      if dims.Some? {
        var err := ParseDims(dims.value, d);
        if err.Some? {
          return Err(err.value);
        }
      }
      var scalar := AsReal(x);
      var m := CreateFromDims(d[0], d[1]);
      for i := 0 to m.size
        modifies m.data
        invariant forall j :: 0 <= j < i ==> m.data[j] == scalar
      {
        m.data[i] := scalar;
      }
      LogicalRowMajor(m.rows, m.cols, m.data[..]);
      return Ok(m);
    }

    /** _matrix_init_from_1d_list: dims default to (N, 1) and must hold exactly
        the N items, which are stored in order; a non-number item is a TypeError. */
    static method InitFromFlat(items: seq<PyValue>, dims: Option<PyValue>) returns (r: Result<Matrix>)
      requires |items| >= 1
      ensures r.Ok? <==> FromFlat(items, dims).Ok?
      ensures r.Err? ==> r.error == FromFlat(items, dims).error
      ensures r.Ok? ==> fresh(r.value) && fresh(r.value.data) && r.value.Holds(FromFlat(items, dims).value)
    {
      var d := new int[2];
      d[0], d[1] := |items|, 1;
      if dims.Some? {
        var err := ParseDims(dims.value, d);
        if err.Some? {
          return Err(err.value);
        }
      }
      if d[0] * d[1] != |items| {
        return Err(ValueError);
      }
      var m := CreateFromDims(d[0], d[1]);
      for i := 0 to m.size
        modifies m.data
        invariant forall j :: 0 <= j < i ==> IsNumber(items[j]) && m.data[j] == AsReal(items[j])
      {
        if !IsNumber(items[i]) {
          return Err(TypeError);
        }
        m.data[i] := AsReal(items[i]);
      }
      LogicalRowMajor(m.rows, m.cols, m.data[..]);
      assert m.data[..] == Convert(items, false).value;
      return Ok(m);
    }

    /** _matrix_init_from_2d_list: the shape is (number of rows, length of the
        first row), explicit dims must equal it, and the rows are copied in
        order; the first row that is not a list, has the wrong length or holds
        a non-number decides the error. `uninit` stands for the indeterminate
        value the C code leaves in dims_received[0] before parsing. */
    static method InitFromNested(rowList: seq<PyValue>, dims: Option<PyValue>, uninit: int) returns (r: Result<Matrix>)
      requires |rowList| >= 1 && rowList[0].List?
      ensures r.Ok? <==> FromNested(rowList, dims, uninit).Ok?
      ensures r.Err? ==> r.error == FromNested(rowList, dims, uninit).error
      ensures r.Ok? ==> fresh(r.value) && fresh(r.value.data) && r.value.Holds(FromNested(rowList, dims, uninit).value)
    {
      var R, C := |rowList|, |rowList[0].items|;
      if C < 1 {
        return Err(ValueError);
      }
      if dims.Some? {
        var received := new int[2];
        received[0] := uninit;
        var err := ParseDims(dims.value, received);
        if err.Some? {
          return Err(err.value);
        }
        if R != received[0] || C != received[1] {
          return Err(ValueError);
        }
      }
      assert FromNested(rowList, dims, uninit) ==
        match FlattenRows(rowList, C, false)
        case Err(e) => Err(e)
        case Ok(v) => Ok(Built(R, C, v));
      var m := CreateFromDims(R, C);
      var err := StoreRows(m.data, rowList, C, false);
      if err.Some? {
        return Err(err.value);
      }
      LogicalRowMajor(m.rows, m.cols, m.data[..]);
      return Ok(m);
    }

    /** What matrix_number_matmul reads when this header is its right operand:
        the buffer through col_idx, evaluated on this header's own shape. */
    ghost function ColumnReads(): (e: seq<real>)
      reads this, data
      requires Shaped()
      ensures |e| == rows * cols
    {
      Logical(colIdx, rows, cols, data[..])
    }

    /** _matrix_number_merge with one of the four merge functions: equal
        shapes or ValueError; the result is a fresh row-major matrix holding
        op applied element by element; a zero divisor stops the division with
        ZeroDivisionError. */
    static method Merge(a: Matrix, b: Matrix, op: Op) returns (r: Result<Matrix>)
      requires a.Shaped() && b.Shaped()
      ensures a.rows != b.rows || a.cols != b.cols ==> r == Err(ValueError)
      ensures a.rows == b.rows && a.cols == b.cols ==>
        (r.Ok? <==> (op.Div? ==> NoZero(b.Elements()))) &&
        (r.Err? ==> r.error == ZeroDivisionError) &&
        (r.Ok? ==> fresh(r.value) && fresh(r.value.data) &&
                   r.value.Holds(Built(a.rows, a.cols, ZipWith(op, a.Elements(), b.Elements()))))
    {
      if a.rows != b.rows || a.cols != b.cols {
        return Err(ValueError);
      }
      var res := CreateFromDims(a.rows, a.cols);
      ghost var ea, eb := a.Elements(), b.Elements();
      for i := 0 to a.size
        modifies res.data
        invariant forall j :: 0 <= j < i ==> Defined(op, eb[j]) && res.data[j] == Apply(op, ea[j], eb[j])
      {
        var x := a.data[Index(a.rowIdx, a.rows, a.cols, i)];
        var y := b.data[Index(b.rowIdx, b.rows, b.cols, i)];
        assert x == ea[i] && y == eb[i];
        if op.Div? && y == 0.0 {
          return Err(ZeroDivisionError);
        }
        res.data[i] := Apply(op, x, y);
      }
      LogicalRowMajor(res.rows, res.cols, res.data[..]);
      ghost var merged := ZipWith(op, ea, eb);
      forall j | 0 <= j < |merged|
        ensures res.data[j] == merged[j]
      {
      }
      assert res.data[..] == merged;
      return Ok(res);
    }

    /** _matrix_number_scalar_mul: a fresh row-major matrix with every element
        multiplied by k. */
    static method ScalarMul(m: Matrix, k: real) returns (res: Matrix)
      requires m.Shaped()
      ensures fresh(res) && fresh(res.data) && res.Holds(Built(m.rows, m.cols, Scale(m.Elements(), k)))
    {
      res := CreateFromDims(m.rows, m.cols);
      ghost var e := m.Elements();
      for i := 0 to res.size
        modifies res.data
        invariant forall j :: 0 <= j < i ==> res.data[j] == e[j] * k
      {
        res.data[i] := m.data[Index(m.rowIdx, m.rows, m.cols, i)] * k;
      }
      LogicalRowMajor(res.rows, res.cols, res.data[..]);
      ghost var scaled := Scale(e, k);
      assert |scaled| == res.data.Length;
      forall j | 0 <= j < |scaled|
        ensures res.data[j] == scaled[j]
      {
      }
      assert res.data[..] == scaled;
    }

    /** _matrix_number_scalar_div: ZeroDivisionError for k == 0 (before any
        allocation), otherwise a fresh row-major matrix with every element
        divided by k. */
    static method ScalarDiv(m: Matrix, k: real) returns (r: Result<Matrix>)
      requires m.Shaped()
      ensures k == 0.0 ==> r == Err(ZeroDivisionError)
      ensures k != 0.0 ==>
        (r.Ok? && fresh(r.value) && fresh(r.value.data) &&
         r.value.Holds(Built(m.rows, m.cols, DivideBy(m.Elements(), k))))
    {
      if k == 0.0 {
        return Err(ZeroDivisionError);
      }
      var res := CreateFromDims(m.rows, m.cols);
      ghost var e := m.Elements();
      for i := 0 to res.size
        modifies res.data
        invariant forall j :: 0 <= j < i ==> res.data[j] == e[j] / k
      {
        res.data[i] := m.data[Index(m.rowIdx, m.rows, m.cols, i)] / k;
      }
      LogicalRowMajor(res.rows, res.cols, res.data[..]);
      ghost var divided := DivideBy(e, k);
      forall j | 0 <= j < |divided|
        ensures res.data[j] == divided[j]
      {
      }
      assert res.data[..] == divided;
      return Ok(res);
    }

    /** matrix_number_matmul as written: an R x K by K x C product whose inner
        loop reads the right operand at col_idx(c * K + i) on the right
        operand's own shape. */
    static method MatMulAsWritten(a: Matrix, b: Matrix) returns (r: Result<Matrix>)
      requires a.Shaped() && b.Shaped()
      ensures a.cols != b.rows ==> r == Err(ValueError)
      ensures a.cols == b.rows ==>
        (r.Ok? && fresh(r.value) && fresh(r.value.data) &&
         r.value.Holds(Built(a.rows, b.cols, WrittenProduct(a.Elements(), b.ColumnReads(), a.rows, a.cols, b.cols))))
    {
      if a.cols != b.rows {
        return Err(ValueError);
      }
      var R, K, C := a.rows, a.cols, b.cols;
      var res := CreateFromDims(R, C);
      ghost var W := WrittenProduct(a.Elements(), b.ColumnReads(), R, K, C);
      var ptr := 0;
      for rowI := 0 to R
        modifies res.data
        invariant ptr == rowI * C && ptr <= R * C
        invariant forall j :: 0 <= j < ptr ==> res.data[j] == W[j]
      {
        CellBounds(rowI, C - 1, R, C);
        for colI := 0 to C
          modifies res.data
          invariant ptr == rowI * C + colI && rowI * C + C <= R * C
          invariant forall j :: 0 <= j < ptr ==> res.data[j] == W[j]
        {
          WrittenProductCell(a.Elements(), b.ColumnReads(), R, K, C, rowI, colI);
          AccumulateWritten(a, b, res.data, ptr, rowI, colI);
          ptr := ptr + 1;
        }
        SuccMul(rowI, C);
      }
      LogicalRowMajor(R, C, res.data[..]);
      return Ok(res);
    }

    /** The innermost loop of matrix_number_matmul as written: cell `ptr` of
        the result becomes row rowI of the left operand dotted with the K
        values read at col_idx(colI * K + i) of the right operand. */
    static method AccumulateWritten(a: Matrix, b: Matrix, out: array<real>, ptr: int, rowI: int, colI: int)
      requires a.Shaped() && b.Shaped() && a.cols == b.rows
      requires 0 <= rowI < a.rows && 0 <= colI < b.cols && 0 <= ptr < out.Length
      requires out != a.data && out != b.data
      modifies out
      ensures out[ptr] == Dot(Row(a.Elements(), a.rows, a.cols, rowI), Row(b.ColumnReads(), b.cols, b.rows, colI))
      ensures forall j :: 0 <= j < out.Length && j != ptr ==> out[j] == old(out[j])
    {
      var R, K, C := a.rows, a.cols, b.cols;
      ghost var A, B := a.Elements(), b.ColumnReads();
      ghost var u, v := Row(A, R, K, rowI), Row(B, C, K, colI);
      out[ptr] := 0.0;
      assert u[..0] == [] && v[..0] == [];
      for i := 0 to K
        invariant out[ptr] == Dot(u[..i], v[..i])
        invariant forall j :: 0 <= j < out.Length && j != ptr ==> out[j] == old(out[j])
      {
        CellBounds(rowI, i, R, K);
        CellBounds(colI, i, C, K);
        var x := a.data[Index(a.rowIdx, R, K, rowI * K + i)];
        var y := b.data[Index(b.colIdx, K, C, colI * K + i)];
        assert x == A[rowI * K + i] == u[i];
        assert y == B[colI * K + i] == v[i];
        DotAccumulate(u, v, i, out[ptr], x, y);
        out[ptr] := out[ptr] + x * y;
      }
      assert u[..K] == u && v[..K] == v;
    }

    /** matrix_number_matmul with the right operand read through row_idx at
        k * C + c, which is what the textbook product needs. */
    static method MatMul(a: Matrix, b: Matrix) returns (r: Result<Matrix>)
      requires a.Shaped() && b.Shaped()
      ensures a.cols != b.rows ==> r == Err(ValueError)
      ensures a.cols == b.rows ==>
        (r.Ok? && fresh(r.value) && fresh(r.value.data) &&
         r.value.Holds(Built(a.rows, b.cols, Product(a.Elements(), b.Elements(), a.rows, a.cols, b.cols))))
    {
      if a.cols != b.rows {
        return Err(ValueError);
      }
      var R, K, C := a.rows, a.cols, b.cols;
      var res := CreateFromDims(R, C);
      ghost var P := Product(a.Elements(), b.Elements(), R, K, C);
      var ptr := 0;
      for rowI := 0 to R
        modifies res.data
        invariant ptr == rowI * C && ptr <= R * C
        invariant forall j :: 0 <= j < ptr ==> res.data[j] == P[j]
      {
        CellBounds(rowI, C - 1, R, C);
        for colI := 0 to C
          modifies res.data
          invariant ptr == rowI * C + colI && rowI * C + C <= R * C
          invariant forall j :: 0 <= j < ptr ==> res.data[j] == P[j]
        {
          ProductCell(a.Elements(), b.Elements(), R, K, C, rowI, colI);
          CellBounds(rowI, colI, R, C);
          Accumulate(a, b, res.data, ptr, rowI, colI);
          assert res.data[ptr] == Cell(P, R, C, rowI, colI);
          ptr := ptr + 1;
        }
        SuccMul(rowI, C);
      }
      LogicalRowMajor(R, C, res.data[..]);
      return Ok(res);
    }

    /** The corrected innermost loop: cell `ptr` becomes row rowI of the left
        operand dotted with column colI of the right operand. */
    static method Accumulate(a: Matrix, b: Matrix, out: array<real>, ptr: int, rowI: int, colI: int)
      requires a.Shaped() && b.Shaped() && a.cols == b.rows
      requires 0 <= rowI < a.rows && 0 <= colI < b.cols && 0 <= ptr < out.Length
      requires out != a.data && out != b.data
      modifies out
      ensures out[ptr] == Dot(Row(a.Elements(), a.rows, a.cols, rowI), Col(b.Elements(), b.rows, b.cols, colI))
      ensures forall j :: 0 <= j < out.Length && j != ptr ==> out[j] == old(out[j])
    {
      var R, K, C := a.rows, a.cols, b.cols;
      ghost var A, B := a.Elements(), b.Elements();
      ghost var u, v := Row(A, R, K, rowI), Col(B, K, C, colI);
      out[ptr] := 0.0;
      assert u[..0] == [] && v[..0] == [];
      for i := 0 to K
        invariant out[ptr] == Dot(u[..i], v[..i])
        invariant forall j :: 0 <= j < out.Length && j != ptr ==> out[j] == old(out[j])
      {
        CellBounds(rowI, i, R, K);
        CellBounds(i, colI, K, C);
        var x := a.data[Index(a.rowIdx, R, K, rowI * K + i)];
        var y := b.data[Index(b.rowIdx, K, C, i * C + colI)];
        assert x == A[rowI * K + i] == u[i];
        assert y == B[i * C + colI] == v[i];
        DotAccumulate(u, v, i, out[ptr], x, y);
        out[ptr] := out[ptr] + x * y;
      }
      assert u[..K] == u && v[..K] == v;
    }

    /** matrix_init: a Matrix argument is copied (dims ignored), a number,
        flat list or nested list is built as its constructor says, an empty
        list is a ValueError and anything else NotImplementedError. */
    static method Init(data: Operand, dims: Option<PyValue>, uninit: int) returns (r: Result<Matrix>)
      requires data.Mat? ==> data.m.Shaped()
      ensures data.Mat? ==>
        (r.Ok? && fresh(r.value) && fresh(r.value.data) && r.value.Valid() && r.value.transpose == null &&
         r.value.rows == data.m.rows && r.value.cols == data.m.cols && r.value.rowIdx == data.m.rowIdx &&
         r.value.Elements() == data.m.Elements())
      ensures data.Val? ==> Delivers(r, Build(data.v, dims, uninit))
      ensures data.Val? && r.Ok? ==> fresh(r.value) && fresh(r.value.data)
    {
      if data.Mat? {
        var m := Copy(data.m);
        return Ok(m);
      }
      var v := data.v;
      if IsNumber(v) {
        r := InitFromScalar(v, dims);
      } else if v.List? {
        if |v.items| < 1 {
          return Err(ValueError);
        }
        var first := v.items[0];
        if IsNumber(first) {
          r := InitFromFlat(v.items, dims);
        } else if first.List? {
          r := InitFromNested(v.items, dims, uninit);
        } else {
          return Err(NotImplementedError);
        }
      } else {
        return Err(NotImplementedError);
      }
    }

    /** matrix_clear: a header sharing its buffer is unlinked from its
        partner and loses the buffer (dropping its cached tuple and strings);
        an unshared header only frees its buffer and keeps its cached tuple,
        strings and index functions. A header never initialised has nothing
        to clear. */
    method Clear()
      requires Linked() || (data == null && transpose == null)
      modifies this, transpose
      ensures data == null && transpose == null
      ensures rows == old(rows) && cols == old(cols) && size == old(size)
      ensures rowIdx == old(rowIdx) && colIdx == old(colIdx)
      ensures old(transpose) == null ==>
        cachedData == old(cachedData) && cachedRepr == old(cachedRepr) && cachedStr == old(cachedStr)
      ensures old(transpose) != null ==>
        cachedData == None && cachedRepr == None && cachedStr == None &&
        Detached(old(transpose)) && old(transpose).Linked()
      ensures old(transpose) != null && old(Valid()) ==> old(transpose).Valid()
    {
      if data != null {
        if transpose != null {
          Unbind(false);
        } else {
          data := null;
        }
      }
    }

    /** matrix_init called again on a live object (`m.__init__(...)`), as
        written: matrix_clear, then the construction Init performs, into this
        header. The new shape and buffer are installed, but an unshared
        header keeps its cached `data` tuple and strings, and a built value
        (not a copy) keeps the old index functions, so a former transpose
        view reads its new row-major buffer column-major. The value is built
        before the header is cleared; the two orders agree because the
        argument is not this header and clearing changes no buffer. */
    method ReinitAsWritten(arg: Operand, dims: Option<PyValue>, uninit: int) returns (err: Option<Error>)
      requires Linked()
      requires arg.Mat? ==> arg.m.Shaped() && arg.m != this
      modifies this, transpose
      ensures transpose == null
      ensures old(transpose) != null ==> Detached(old(transpose)) && old(transpose).Linked()
      ensures old(transpose) != null && old(Valid()) ==> old(transpose).Valid()
      ensures old(transpose) == null ==>
        cachedData == old(cachedData) && cachedRepr == old(cachedRepr) && cachedStr == old(cachedStr)
      ensures old(transpose) != null ==>
        cachedData == None && cachedRepr == None && cachedStr == None
      ensures arg.Mat? ==>
        err.None? && fresh(data) && Shaped() && rows == old(arg.m.rows) && cols == old(arg.m.cols) &&
        rowIdx == old(arg.m.rowIdx) && Elements() == old(arg.m.Elements())
      ensures arg.Val? ==> (err.None? <==> Build(arg.v, dims, uninit).Ok?)
      ensures arg.Val? && err.Some? ==> err.value == Build(arg.v, dims, uninit).error
      ensures arg.Val? && err.None? ==>
        fresh(data) && Shaped() && rowIdx == old(rowIdx) &&
        rows == Build(arg.v, dims, uninit).value.rows && cols == Build(arg.v, dims, uninit).value.cols &&
        data[..] == Build(arg.v, dims, uninit).value.elements
    {
      var built := Init(arg, dims, uninit);
      if built.Err? {
        Clear();
        return Some(built.error);
      }
      var m := built.value;
      if arg.Val? {
        LogicalRowMajor(m.rows, m.cols, m.data[..]);
      }
      ghost var contents := m.Elements();
      ghost var phys := m.data[..];
      Clear();
      rows, cols, size, data := m.rows, m.cols, m.size, m.data;
      assert data[..] == phys;
      if arg.Mat? {
        rowIdx, colIdx := m.rowIdx, m.colIdx;
        assert Elements() == contents;
      }
      return None;
    }

    /** Re-initialisation as evidently intended: as ReinitAsWritten, then the
        cached tuple and strings are dropped and a built value gets the
        row-major function, so the header is valid and holds what a fresh
        constructor call would hold. */
    method Reinit(arg: Operand, dims: Option<PyValue>, uninit: int) returns (err: Option<Error>)
      requires Linked()
      requires arg.Mat? ==> arg.m.Shaped() && arg.m != this
      modifies this, transpose
      ensures transpose == null
      ensures old(transpose) != null ==> Detached(old(transpose)) && old(transpose).Linked()
      ensures old(transpose) != null && old(Valid()) ==> old(transpose).Valid()
      ensures arg.Mat? ==>
        err.None? && fresh(data) && Valid() && rows == old(arg.m.rows) && cols == old(arg.m.cols) &&
        Elements() == old(arg.m.Elements())
      ensures arg.Val? ==> (err.None? <==> Build(arg.v, dims, uninit).Ok?)
      ensures arg.Val? && err.Some? ==> err.value == Build(arg.v, dims, uninit).error
      ensures arg.Val? && err.None? ==> fresh(data) && Valid() && Holds(Build(arg.v, dims, uninit).value)
    {
      err := ReinitAsWritten(arg, dims, uninit);
      cachedData, cachedRepr, cachedStr := None, None, None;
      if arg.Val? {
        rowIdx, colIdx := RowMajor, ColMajor;
        if err.None? {
          LogicalRowMajor(rows, cols, data[..]);
        }
      }
    }

    /** matrix_class_gauss and matrix_class_uniform after their argument
        checks: dims default to (1, 1) and element i is the i-th value the
        reseeded generator returns, `samples(i)`. */
    static method Sample(dims: Option<PyValue>, samples: nat -> real) returns (r: Result<Matrix>)
      ensures Delivers(r, Sampled(dims, samples))
      ensures r.Ok? ==> fresh(r.value) && fresh(r.value.data)
    {
      var d := new int[2];
      d[0], d[1] := 1, 1;
      if dims.Some? {
        var err := ParseDims(dims.value, d);
        if err.Some? {
          return Err(err.value);
        }
      }
      var m := CreateFromDims(d[0], d[1]);
      for i := 0 to m.size
        modifies m.data
        invariant forall j :: 0 <= j < i ==> m.data[j] == samples(j)
      {
        m.data[i] := samples(i);
      }
      LogicalRowMajor(m.rows, m.cols, m.data[..]);
      return Ok(m);
    }

    /** matrix_class_gauss: any (mu, sigma) is accepted; `samples` stands for
        the successive values gauss(mu, sigma) returns after set_seed(seed). */
    static method Gauss(dims: Option<PyValue>, samples: nat -> real) returns (r: Result<Matrix>)
      ensures Delivers(r, Sampled(dims, samples))
      ensures r.Ok? ==> fresh(r.value) && fresh(r.value.data)
    {
      r := Sample(dims, samples);
    }

    /** matrix_class_uniform: a lower bound above the upper bound is a
        ValueError, checked before dims; `samples` stands for the successive
        values uniform(lower, upper) returns after set_seed(seed). */
    static method Uniform(lower: real, upper: real, dims: Option<PyValue>, samples: nat -> real) returns (r: Result<Matrix>)
      ensures lower > upper ==> r == Err(ValueError)
      ensures lower <= upper ==> Delivers(r, Sampled(dims, samples))
      ensures r.Ok? ==> fresh(r.value) && fresh(r.value.data)
    {
      if lower > upper {
        return Err(ValueError);
      }
      r := Sample(dims, samples);
    }
  }

  /** The partner was unlinked and nothing else about it changed. */
  twostate predicate Detached(t: Matrix)
    reads t
  {
    t.transpose == null && t.rows == old(t.rows) && t.cols == old(t.cols) &&
    t.size == old(t.size) && t.data == old(t.data) &&
    t.rowIdx == old(t.rowIdx) && t.colIdx == old(t.colIdx) &&
    t.cachedData == old(t.cachedData) && t.cachedRepr == old(t.cachedRepr) &&
    t.cachedStr == old(t.cachedStr)
  }

  /** An argument of a constructor or an operator: a Matrix or another Python value. */
  datatype Operand = Mat(m: Matrix) | Val(v: PyValue)

  /** r is the matrix (or the error) the outcome o describes. */
  ghost predicate Delivers(r: Result<Matrix>, o: Result<Built>)
    reads if r.Ok? then {r.value} else {}, if r.Ok? then {r.value.data} else {}
  {
    (r.Ok? <==> o.Ok?) &&
    (r.Err? ==> r.error == o.error) &&
    (r.Ok? ==> r.value.Holds(o.value))
  }

  /** Both headers have the same shape and the same logical contents. */
  ghost predicate SameMatrix(a: Matrix, b: Matrix)
    reads a, a.data, b, b.data
    requires a.Shaped() && b.Shaped()
  {
    a.rows == b.rows && a.cols == b.cols && a.Elements() == b.Elements()
  }

  /** _matrix_not_equal: different sizes, different shapes, or some logical
      position where the two differ. */
  method NotEqual(a: Matrix, b: Matrix) returns (ne: bool)
    requires a.Shaped() && b.Shaped()
    ensures ne <==> !SameMatrix(a, b)
  {
    if a.size != b.size {
      return true;
    }
    if a.rows != b.rows || a.cols != b.cols {
      return true;
    }
    for i := 0 to a.size
      invariant a.Elements()[..i] == b.Elements()[..i]
    {
      if a.data[Index(a.rowIdx, a.rows, a.cols, i)] != b.data[Index(b.rowIdx, b.rows, b.cols, i)] {
        assert a.Elements()[i] != b.Elements()[i];
        return true;
      }
      assert a.Elements()[..i + 1] == a.Elements()[..i] + [a.Elements()[i]];
      assert b.Elements()[..i + 1] == b.Elements()[..i] + [b.Elements()[i]];
    }
    assert a.Elements()[..a.size] == a.Elements() && b.Elements()[..a.size] == b.Elements();
    return false;
  }

  /** The six rich comparisons. */
  datatype Comparison = Lt | Le | Eq | Ne | Gt | Ge

  /** matrix_richcompare: == and != against a Matrix compare shape and
      contents; every other combination is a TypeError. */
  method RichCompare(self: Matrix, other: Operand, op: Comparison) returns (r: Result<bool>)
    requires self.Shaped() && (other.Mat? ==> other.m.Shaped())
    ensures other.Mat? && op == Eq ==> r == Ok(SameMatrix(self, other.m))
    ensures other.Mat? && op == Ne ==> r == Ok(!SameMatrix(self, other.m))
    ensures !(other.Mat? && (op == Eq || op == Ne)) ==> r == Err(TypeError)
  {
    if other.Mat? && (op == Eq || op == Ne) {
      var ne := NotEqual(self, other.m);
      return Ok(if op == Eq then !ne else ne);
    }
    return Err(TypeError);
  }

  /** The outcome of _matrix_number_merge with op. */
  ghost function MergeOutcome(a: Matrix, b: Matrix, op: Op): Result<Built>
    reads a, a.data, b, b.data
    requires a.Shaped() && b.Shaped()
  {
    if a.rows != b.rows || a.cols != b.cols then Err(ValueError)
    else if op.Div? && !NoZero(b.Elements()) then Err(ZeroDivisionError)
    else Ok(Built(a.rows, a.cols, ZipWith(op, a.Elements(), b.Elements())))
  }

  /** The outcome of _matrix_number_scalar_mul. */
  ghost function ScaleOutcome(m: Matrix, k: real): Result<Built>
    reads m, m.data
    requires m.Shaped()
  {
    Ok(Built(m.rows, m.cols, Scale(m.Elements(), k)))
  }

  /** The outcome of _matrix_number_scalar_div. */
  ghost function DivideOutcome(m: Matrix, k: real): Result<Built>
    reads m, m.data
    requires m.Shaped()
  {
    if k == 0.0 then Err(ZeroDivisionError) else Ok(Built(m.rows, m.cols, DivideBy(m.Elements(), k)))
  }

  /** The outcome of matrix_number_matmul as written. */
  ghost function MatMulOutcome(a: Matrix, b: Matrix): Result<Built>
    reads a, a.data, b, b.data
    requires a.Shaped() && b.Shaped()
  {
    if a.cols != b.rows then Err(ValueError)
    else Ok(Built(a.rows, b.cols, WrittenProduct(a.Elements(), b.ColumnReads(), a.rows, a.cols, b.cols)))
  }

  ghost predicate ShapedOperand(x: Operand)
    reads if x.Mat? then {x.m} else {}
  {
    x.Mat? ==> x.m.Shaped()
  }

  /** matrix_number_add/sub/mul/div/matmul: which operation an operator
      applies to which operands. Two matrices merge (or multiply for @); a
      matrix and a number, in either order, scale for *; a matrix over a
      number divides for /; anything else is a TypeError. */
  ghost function BinaryOutcome(sym: Symbol, x: Operand, y: Operand): Result<Built>
    reads if x.Mat? then {x.m} else {}, if x.Mat? then {x.m.data} else {}
    reads if y.Mat? then {y.m} else {}, if y.Mat? then {y.m.data} else {}
    requires ShapedOperand(x) && ShapedOperand(y)
  {
    match sym
    case Plus => if x.Mat? && y.Mat? then MergeOutcome(x.m, y.m, Add) else Err(TypeError)
    case Minus => if x.Mat? && y.Mat? then MergeOutcome(x.m, y.m, Sub) else Err(TypeError)
    case Star =>
      if x.Mat? && y.Mat? then MergeOutcome(x.m, y.m, Mul)
      else if x.Mat? && IsNumber(y.v) then ScaleOutcome(x.m, AsReal(y.v))
      else if y.Mat? && IsNumber(x.v) then ScaleOutcome(y.m, AsReal(x.v))
      else Err(TypeError)
    case Slash =>
      if x.Mat? && y.Mat? then MergeOutcome(x.m, y.m, Div)
      else if x.Mat? && IsNumber(y.v) then DivideOutcome(x.m, AsReal(y.v))
      else Err(TypeError)
    case At => if x.Mat? && y.Mat? then MatMulOutcome(x.m, y.m) else Err(TypeError)
  }

  /** The number protocol of the Matrix type. */
  method Binary(sym: Symbol, x: Operand, y: Operand) returns (r: Result<Matrix>)
    requires ShapedOperand(x) && ShapedOperand(y)
    ensures Delivers(r, BinaryOutcome(sym, x, y))
    ensures r.Ok? ==> fresh(r.value) && fresh(r.value.data)
  {
    match sym
    case Plus =>
      if x.Mat? && y.Mat? { r := Matrix.Merge(x.m, y.m, Add); } else { r := Err(TypeError); }
    case Minus =>
      if x.Mat? && y.Mat? { r := Matrix.Merge(x.m, y.m, Sub); } else { r := Err(TypeError); }
    case Star =>
      if x.Mat? && y.Mat? {
        r := Matrix.Merge(x.m, y.m, Mul);
      } else if x.Mat? && IsNumber(y.v) {
        var m := Matrix.ScalarMul(x.m, AsReal(y.v));
        r := Ok(m);
      } else if y.Mat? && IsNumber(x.v) {
        var m := Matrix.ScalarMul(y.m, AsReal(x.v));
        r := Ok(m);
      } else {
        r := Err(TypeError);
      }
    case Slash =>
      if x.Mat? && y.Mat? {
        r := Matrix.Merge(x.m, y.m, Div);
      } else if x.Mat? && IsNumber(y.v) {
        r := Matrix.ScalarDiv(x.m, AsReal(y.v));
      } else {
        r := Err(TypeError);
      }
    case At =>
      if x.Mat? && y.Mat? { r := Matrix.MatMulAsWritten(x.m, y.m); } else { r := Err(TypeError); }
  }

  /** A number times a matrix is the matrix times the number. */
  lemma ScalarMulCommutes(m: Matrix, k: PyValue)
    requires m.Shaped() && IsNumber(k)
    ensures BinaryOutcome(Star, Val(k), Mat(m)) == BinaryOutcome(Star, Mat(m), Val(k))
    ensures BinaryOutcome(Star, Mat(m), Val(k)).Ok?
  {
  }

  /** Only matrix / number divides; number / matrix is a TypeError. */
  lemma NumberOverMatrix(m: Matrix, k: PyValue)
    requires m.Shaped()
    ensures BinaryOutcome(Slash, Val(k), Mat(m)) == Err(TypeError)
    ensures IsNumber(k) ==> (BinaryOutcome(Slash, Mat(m), Val(k)).Ok? <==> AsReal(k) != 0.0)
  {
  }

  /** Merging the transpose views of two matrices gives the transpose of
      merging the matrices, error cases included. */
  lemma MergeOfTransposes(a: Matrix, b: Matrix, op: Op)
    requires a.Valid() && b.Valid() && a.transpose != null && b.transpose != null
    ensures a.transpose.Shaped() && b.transpose.Shaped()
    ensures MergeOutcome(a.transpose, b.transpose, op).Ok? <==> MergeOutcome(a, b, op).Ok?
    ensures MergeOutcome(a, b, op).Ok? ==>
      MergeOutcome(a.transpose, b.transpose, op).value ==
        Built(a.cols, a.rows, Transposed(MergeOutcome(a, b, op).value.elements, a.rows, a.cols))
  {
    a.PartnerValid();
    b.PartnerValid();
    if a.rows == b.rows && a.cols == b.cols {
      var ea, eb := a.Elements(), b.Elements();
      var tb := b.transpose.Elements();
      if op.Div? && !NoZero(eb) {
        var k :| 0 <= k < |eb| && eb[k] == 0.0;
        OffsetSplit(k, b.rows, b.cols);
        TransposedCell(eb, b.rows, b.cols, k / b.cols, k % b.cols);
        CellBounds(k % b.cols, k / b.cols, b.cols, b.rows);
        assert tb[(k % b.cols) * b.rows + k / b.cols] == 0.0;
      } else {
        TransposedZipWith(op, ea, eb, a.rows, a.cols);
      }
    }
  }

  /** The written matmul is the textbook product whenever what it reads from
      the right operand is that operand's transpose: when the right operand is
      a transpose view of a row-major matrix, square, or a single row or column. */
  lemma MatMulCorrectWhen(a: Matrix, b: Matrix)
    requires a.Shaped() && b.Shaped() && a.cols == b.rows
    requires b.colIdx == RowMajor || b.rows == b.cols || b.rows == 1 || b.cols == 1
    ensures MatMulOutcome(a, b) == Ok(Built(a.rows, b.cols, Product(a.Elements(), b.Elements(), a.rows, a.cols, b.cols)))
  {
    ColumnReadsAreTranspose(b.rowIdx, b.rows, b.cols, b.data[..]);
    WrittenProductOfTranspose(a.Elements(), b.Elements(), a.rows, a.cols, b.cols);
  }

  /** `m = Matrix([1, 2]); m.data; m.__init__([3, 4]); m.data`: the second
      request returns the tuple cached before re-initialisation, (1, 2),
      while the buffer holds 3 and 4. */
  method StaleDataAfterReinit() returns (before: seq<real>, after: seq<real>, held: seq<real>)
    ensures before == [1.0, 2.0] && after == [1.0, 2.0] && held == [3.0, 4.0]
  {
    var first := List([Int(1), Int(2)]);
    var second := List([Int(3), Int(4)]);
    FlatPairBuilds(1, 2);
    FlatPairBuilds(3, 4);
    var r := Matrix.Init(Val(first), None, 0);
    var m := r.value;
    before := m.GetData();
    var err := m.ReinitAsWritten(Val(second), None, 0);
    after := m.GetData();
    held := m.data[..];
  }

  /** `m = Matrix([1, 2]); m.data; m.__init__([3, 4]); m.map(lambda x: x + 10)`:
      map calls the function on the stale tuple's items, so the buffer ends
      up holding 11 and 12, and the 3 and 4 are lost. */
  method StaleMapAfterReinit() returns (mapped: seq<real>)
    ensures mapped == [11.0, 12.0]
  {
    FlatPairBuilds(1, 2);
    FlatPairBuilds(3, 4);
    var r := Matrix.Init(Val(List([Int(1), Int(2)])), None, 0);
    var m := r.value;
    var before := m.GetData();
    var err := m.ReinitAsWritten(Val(List([Int(3), Int(4)])), None, 0);
    assert m.Linked() && m.rowIdx == RowMajor && m.cachedData == Some([1.0, 2.0]);
    assert m.data[..] == [3.0, 4.0];
    LogicalRowMajor(m.rows, m.cols, m.data[..]);
    assert m.MapSource() == [1.0, 2.0] && m.Elements() == [3.0, 4.0];
    var f := (x: real) => Some(Float(x + 10.0));
    MapBoth(f, [1.0, 2.0], [3.0, 4.0]);
    var res := m.Map(f);
    LogicalRowMajor(m.rows, m.cols, m.data[..]);
    mapped := m.data[..];
  }

  /** When both callbacks on a two-item tuple succeed, both elements are mapped. */
  lemma MapBoth(f: real -> Option<PyValue>, s: seq<real>, base: seq<real>)
    requires |s| == 2 && |base| == 2 && Mappable(f(s[0])) && Mappable(f(s[1]))
    ensures FirstFailure(f, s) == 2
    ensures MapPrefix(f, s, base, 2) == [AsReal(f(s[0]).value), AsReal(f(s[1]).value)]
  {
    FirstFailureAt(f, s, 2);
  }

  /** A flat list of two ints builds a 2 x 1 matrix holding them. */
  lemma FlatPairBuilds(x: int, y: int)
    ensures Build(List([Int(x), Int(y)]), None, 0) == Ok(Built(2, 1, [x as real, y as real]))
  {
    var items := [Int(x), Int(y)];
    FlatListSpec(items, None, 0);
    assert DimsOr(None, 2) == Ok((2, 1));
    assert IsNumber(items[0]) && IsNumber(items[1]);
    var b := Build(List(items), None, 0);
    assert b.Ok?;
    BuildShape(List(items), None, 0);
    assert b.value.elements == [x as real, y as real] by {
      assert b.value.elements[0] == AsReal(items[0]) && b.value.elements[1] == AsReal(items[1]);
    }
  }

  /** `m = Matrix([1, 2, 3, 4, 5, 6], dims=(2, 3)); t = m.T;
      t.__init__([1, 2, 3, 4, 5, 6], dims=(2, 3)); t.data`: the former view
      keeps the column-major function, so it reads (1, 3, 5, 2, 4, 6) instead
      of (1, 2, 3, 4, 5, 6). */
  method ScrambledViewAfterReinit() returns (after: seq<real>)
    ensures after == [1.0, 3.0, 5.0, 2.0, 4.0, 6.0]
  {
    var six := List([Int(1), Int(2), Int(3), Int(4), Int(5), Int(6)]);
    var dims := Some(Tuple([Int(2), Int(3)]));
    FlatSixBuilds();
    var r := Matrix.Init(Val(six), dims, 0);
    var m := r.value;
    var t := m.GetTranspose();
    var err := t.ReinitAsWritten(Val(six), dims, 0);
    ColMajorReadsExample([1.0, 2.0, 3.0, 4.0, 5.0, 6.0]);
    after := t.GetData();
  }

  /** 1, ..., 6 with dims (2, 3) builds the 2 x 3 matrix holding them in order. */
  lemma FlatSixBuilds()
    ensures Build(List([Int(1), Int(2), Int(3), Int(4), Int(5), Int(6)]), Some(Tuple([Int(2), Int(3)])), 0) ==
      Ok(Built(2, 3, [1.0, 2.0, 3.0, 4.0, 5.0, 6.0]))
  {
    var items := [Int(1), Int(2), Int(3), Int(4), Int(5), Int(6)];
    var dims := Some(Tuple([Int(2), Int(3)]));
    assert Dims(dims.value, 6) == Ok((2, 3)) by {
      assert forall k :: 0 <= k < 2 ==> dims.value.items[k].Int?;
    }
    FlatListSpec(items, dims, 0);
    assert forall k :: 0 <= k < 6 ==> IsNumber(items[k]);
    var b := Build(List(items), dims, 0);
    assert b.Ok?;
    BuildShape(List(items), dims, 0);
    assert b.value.rows == 2 && b.value.cols == 3;
    assert b.value.elements == [1.0, 2.0, 3.0, 4.0, 5.0, 6.0] by {
      forall k | 0 <= k < 6
        ensures b.value.elements[k] == (k + 1) as real
      {
        assert AsReal(items[k]) == (k + 1) as real;
      }
    }
  }
}
