/** The copying engine (c_extensions/matrix1.c). A Matrix owns a plain
    row-major buffer of rows * cols elements. The transpose is a second
    Matrix holding a transposed copy, made on the first request and linked
    both ways. Every operator builds a fresh result by walking raw pointers
    over the buffers. */
module CopyingMatrix {
  import opened Grid
  import opened Host
  import opened Dense

  /** matrix_load_dims: rows must be an int, then cols must be an int
      (TypeError), then both must be positive (ValueError). */
  function LoadedDims(pyRows: PyValue, pyCols: PyValue): (r: Result<(int, int)>)
    ensures r.Ok? ==> pyRows.Int? && pyCols.Int? && r.value == (pyRows.i, pyCols.i)
    ensures r.Ok? ==> r.value.0 >= 1 && r.value.1 >= 1
    ensures r.Err? ==> (r.error == ValueError <==> pyRows.Int? && pyCols.Int?)
  {
    if !pyRows.Int? || !pyCols.Int? then Err(TypeError)
    else if pyRows.i <= 0 || pyCols.i <= 0 then Err(ValueError)
    else Ok((pyRows.i, pyCols.i))
  }

  /** matrix_from_zeros. */
  function Zeros(pyRows: PyValue, pyCols: PyValue): Result<Built> {
    match LoadedDims(pyRows, pyCols)
    case Err(e) => Err(e)
    case Ok(d) => Ok(Built(d.0, d.1, seq(d.0 * d.1, _ => 0.0)))
  }

  /** matrix_from_value: the value is checked (NotImplementedError) before
      the dims. */
  function Filled(pyRows: PyValue, pyCols: PyValue, val: PyValue): Result<Built> {
    if !IsNumber(val) then Err(NotImplementedError)
    else match LoadedDims(pyRows, pyCols)
      case Err(e) => Err(e)
      case Ok(d) => Ok(Built(d.0, d.1, seq(d.0 * d.1, _ => AsReal(val))))
  }

  /** matrix_from_array: dims first, then a list (TypeError) of exactly
      rows * cols items (ValueError), each an int or a float
      (NotImplementedError). */
  function FromArray(pyRows: PyValue, pyCols: PyValue, pyData: PyValue): Result<Built> {
    match LoadedDims(pyRows, pyCols)
    case Err(e) => Err(e)
    case Ok(d) =>
      if !pyData.List? then Err(TypeError)
      else if |pyData.items| != d.0 * d.1 then Err(ValueError)
      else match Convert(pyData.items, false)
        case None => Err(NotImplementedError)
        case Some(v) => Ok(Built(d.0, d.1, v))
  }

  /** matrix_init: a list (TypeError) of at least one row (ValueError) whose
      first row is a list (TypeError) of at least one item (ValueError); the
      rows are then converted in order, ints only. */
  function FromRows(data2d: PyValue): Result<Built> {
    if !data2d.List? then Err(TypeError)
    else if |data2d.items| < 1 then Err(ValueError)
    else if !data2d.items[0].List? then Err(TypeError)
    else if |data2d.items[0].items| < 1 then Err(ValueError)
    else
      var R, C := |data2d.items|, |data2d.items[0].items|;
      match FlattenRows(data2d.items, C, true)
      case Err(e) => Err(e)
      case Ok(v) => Ok(Built(R, C, v))
  }

  /** MatrixNumber_merge with one of the four compress functions. */
  function MergeOf(x: Built, y: Built, op: Op): (r: Result<Built>)
    requires x.WellShaped() && y.WellShaped()
    ensures r.Ok? ==> r.value.WellShaped() && r.value.rows == x.rows && r.value.cols == x.cols
  {
    if x.rows != y.rows || x.cols != y.cols then Err(ValueError)
    else if op.Div? && !NoZero(y.elements) then Err(ZeroDivisionError)
    else Ok(Built(x.rows, x.cols, ZipWith(op, x.elements, y.elements)))
  }

  /** MatrixNumber_scalar_multiply. */
  function ScaledOf(x: Built, k: real): Result<Built> {
    Ok(Built(x.rows, x.cols, Scale(x.elements, k)))
  }

  /** MatrixNumber_scalar_divide. */
  function DividedOf(x: Built, k: real): Result<Built> {
    if k == 0.0 then Err(ZeroDivisionError) else Ok(Built(x.rows, x.cols, DivideBy(x.elements, k)))
  }

  /** matrix_number_matmul. */
  function ProductOf(x: Built, y: Built): (r: Result<Built>)
    requires x.WellShaped() && y.WellShaped()
    ensures r.Ok? <==> x.cols == y.rows
    ensures r.Ok? ==> r.value.WellShaped() && r.value.rows == x.rows && r.value.cols == y.cols
  {
    if x.cols != y.rows then Err(ValueError)
    else Ok(Built(x.rows, y.cols, Product(x.elements, y.elements, x.rows, x.cols, y.cols)))
  }

  /** What matrix_get_transpose's copy holds. */
  function TransposeOf(x: Built): (t: Built)
    requires x.WellShaped()
    ensures t.WellShaped() && t.rows == x.cols && t.cols == x.rows
  {
    Built(x.cols, x.rows, Transposed(x.elements, x.rows, x.cols))
  }

  /** An operand as its value: a matrix's shape and contents, or a Python value. */
  datatype Arg = M(b: Built) | V(v: PyValue)

  predicate WellShapedArg(x: Arg) {
    x.M? ==> x.b.WellShaped()
  }

  /** matrix_number_add/subtract/multiply/divide/matmul: two matrices merge
      (or multiply for @); a matrix and a number, in either order, scale for
      *; a matrix over a number divides for /; anything else is a TypeError. */
  function BinaryOf(sym: Symbol, x: Arg, y: Arg): Result<Built>
    requires WellShapedArg(x) && WellShapedArg(y)
  {
    match sym
    case Plus => if x.M? && y.M? then MergeOf(x.b, y.b, Add) else Err(TypeError)
    case Minus => if x.M? && y.M? then MergeOf(x.b, y.b, Sub) else Err(TypeError)
    case Star =>
      if x.M? && y.M? then MergeOf(x.b, y.b, Mul)
      else if x.M? && IsNumber(y.v) then ScaledOf(x.b, AsReal(y.v))
      else if y.M? && IsNumber(x.v) then ScaledOf(y.b, AsReal(x.v))
      else Err(TypeError)
    case Slash =>
      if x.M? && y.M? then MergeOf(x.b, y.b, Div)
      else if x.M? && IsNumber(y.v) then DividedOf(x.b, AsReal(y.v))
      else Err(TypeError)
    case At => if x.M? && y.M? then ProductOf(x.b, y.b) else Err(TypeError)
  }

  class Matrix {
    var rows: int
    var cols: int
    var size: int
    var data: array?<real>
    /** The transposed copy, once it was asked for. */
    var transpose: Matrix?
    /** The tuple `data` returns, built on first request. */
    var cachedData: Option<seq<real>>

    /** matrix_new: zero dims, no buffer, no transpose, nothing cached. */
    constructor ()
      ensures rows == 0 && cols == 0 && size == 0 && data == null
      ensures transpose == null && cachedData == None
    {
      rows, cols, size := 0, 0, 0;
      data := null;
      transpose := null;
      cachedData := None;
    }

    /** Positive dims over a buffer of exactly rows * cols elements. */
    ghost predicate Shaped()
      reads this
    {
      rows >= 1 && cols >= 1 && size == rows * cols && data != null && data.Length == size
    }

    /** Shape and contents. */
    ghost function Value(): (b: Built)
      reads this, data
      requires Shaped()
      ensures b.WellShaped()
    {
      Built(rows, cols, data[..])
    }

    /** What every reachable matrix keeps on its own: well shaped, and a
        cached tuple agrees with the buffer (`__init__` drops the tuple with
        the buffer). */
    ghost predicate Coherent()
      reads this, data
    {
      Shaped() && (cachedData.Some? ==> cachedData.value == data[..])
    }

    /** The object invariant: coherent, and a transpose is linked back, has
        its own buffer holding the transposed contents, and a coherent cache
        of its own. A former partner of a re-initialised matrix is coherent
        but not valid: its link still points at the re-initialised matrix. */
    ghost predicate Valid()
      reads this, data, transpose, if transpose != null then {transpose.data} else {}
    {
      Coherent() &&
      (transpose != null ==>
        transpose.transpose == this && transpose.Shaped() &&
        transpose.rows == cols && transpose.cols == rows && transpose.data != data &&
        transpose.data[..] == Transposed(data[..], rows, cols) &&
        (transpose.cachedData.Some? ==> transpose.cachedData.value == transpose.data[..]))
    }

    /** A freshly built, unlinked matrix holding `b`. */
    ghost predicate Holds(b: Built)
      reads this, data
    {
      Shaped() && transpose == null && cachedData == None && Value() == b
    }

    /** The transpose of a valid matrix is valid, and transposing it back
        gives this matrix's contents. */
    lemma PartnerValid()
      requires Valid() && transpose != null
      ensures transpose.Valid()
      ensures Transposed(transpose.data[..], cols, rows) == data[..]
    {
      TransposedInvolution(data[..], rows, cols);
    }

    /** matrix_load_dims: rows is stored once it is known to be an int, cols
        once it is too, and size only when both are positive. */
    method LoadDims(pyRows: PyValue, pyCols: PyValue) returns (err: Option<Error>)
      modifies this`rows, this`cols, this`size
      ensures err.None? <==> LoadedDims(pyRows, pyCols).Ok?
      ensures err.Some? ==> err.value == LoadedDims(pyRows, pyCols).error
      ensures rows == if pyRows.Int? then pyRows.i else old(rows)
      ensures cols == if pyRows.Int? && pyCols.Int? then pyCols.i else old(cols)
      ensures size == if err.None? then rows * cols else old(size)
    {
      if !pyRows.Int? {
        return Some(TypeError);
      }
      rows := pyRows.i;
      if !pyCols.Int? {
        return Some(TypeError);
      }
      cols := pyCols.i;
      if rows <= 0 || cols <= 0 {
        return Some(ValueError);
      }
      size := rows * cols;
      return None;
    }

    /** freshMatrix: a new matrix of the given dims over a fresh buffer whose
        contents are not specified. */
    static method Fresh(rows: int, cols: int) returns (m: Matrix)
      requires rows >= 1 && cols >= 1
      ensures fresh(m) && fresh(m.data) && m.Shaped() && m.rows == rows && m.cols == cols
      ensures m.transpose == null && m.cachedData == None
    {
      m := new Matrix();
      m.rows, m.cols, m.size := rows, cols, rows * cols;
      m.data := new real[rows * cols];
    }

    /** matrix_from_zeros: a zero-filled (calloc) buffer. */
    static method FromZeros(pyRows: PyValue, pyCols: PyValue) returns (r: Result<Matrix>)
      ensures Delivers(r, Zeros(pyRows, pyCols))
      ensures r.Ok? ==> fresh(r.value) && fresh(r.value.data)
    {
      var m := new Matrix();
      var err := m.LoadDims(pyRows, pyCols);
      if err.Some? {
        return Err(err.value);
      }
      m.data := new real[m.size](_ => 0.0);
      assert m.data[..] == seq(m.rows * m.cols, _ => 0.0);
      return Ok(m);
    }

    /** matrix_from_value: every element is the value. */
    static method FromValue(pyRows: PyValue, pyCols: PyValue, val: PyValue) returns (r: Result<Matrix>)
      ensures Delivers(r, Filled(pyRows, pyCols, val))
      ensures r.Ok? ==> fresh(r.value) && fresh(r.value.data)
    {
      var m := new Matrix();
      if !IsNumber(val) {
        return Err(NotImplementedError);
      }
      var x := AsReal(val);
      var err := m.LoadDims(pyRows, pyCols);
      if err.Some? {
        return Err(err.value);
      }
      m.data := new real[m.size];
      for i := 0 to m.size
        modifies m.data
        invariant forall j :: 0 <= j < i ==> m.data[j] == x
      {
        m.data[i] := x;
      }
      assert m.data[..] == seq(m.rows * m.cols, _ => x);
      return Ok(m);
    }

    /** matrix_from_array: item i of the list becomes element i. */
    static method FromList(pyRows: PyValue, pyCols: PyValue, pyData: PyValue) returns (r: Result<Matrix>)
      ensures Delivers(r, FromArray(pyRows, pyCols, pyData))
      ensures r.Ok? ==> fresh(r.value) && fresh(r.value.data)
    {
      var m := new Matrix();
      var err := m.LoadDims(pyRows, pyCols);
      if err.Some? {
        return Err(err.value);
      }
      if !pyData.List? {
        return Err(TypeError);
      }
      var items := pyData.items;
      if m.size != |items| {
        return Err(ValueError);
      }
      m.data := new real[m.size];
      for i := 0 to m.size
        modifies m.data
        invariant forall j :: 0 <= j < i ==> IsNumber(items[j]) && m.data[j] == AsReal(items[j])
      {
        var item := items[i];
        if item.Int? {
          m.data[i] := item.i as real;
        } else if item.Float? {
          m.data[i] := item.x;
        } else {
          return Err(NotImplementedError);
        }
      }
      assert m.data[..] == Convert(items, false).value;
      return Ok(m);
    }

    /** matrix_init on an existing object: its old buffer, transpose and
        cached tuple are dropped first; then the nested list is validated and
        copied row by row through a running pointer. The first row that is
        not a list, has the wrong length or holds a non-int decides the error. */
    method Init(data2d: PyValue) returns (err: Option<Error>)
      modifies this
      ensures transpose == null && cachedData == None
      ensures err.None? <==> FromRows(data2d).Ok?
      ensures err.Some? ==> err.value == FromRows(data2d).error
      ensures err.None? ==> fresh(data) && Holds(FromRows(data2d).value)
    {
      data, transpose, cachedData := null, null, None;
      if !data2d.List? {
        return Some(TypeError);
      }
      var rowList := data2d.items;
      rows := |rowList|;
      if rows < 1 {
        return Some(ValueError);
      }
      var first := rowList[0];
      if !first.List? {
        return Some(TypeError);
      }
      cols := |first.items|;
      if cols < 1 {
        return Some(ValueError);
      }
      size := rows * cols;
      var buf := new real[size];
      data := buf;
      err := StoreRows(buf, rowList, cols, true);
      if err.None? {
        assert Holds(FromRows(data2d).value);
      }
    }

    /** Re-initialisation as evidently intended: the former transpose's
        link back is cleared too, so it no longer hands out this matrix as
        its transpose and is a valid matrix on its own. */
    method Reinit(data2d: PyValue) returns (err: Option<Error>)
      modifies this, transpose
      ensures transpose == null && cachedData == None
      ensures err.None? <==> FromRows(data2d).Ok?
      ensures err.Some? ==> err.value == FromRows(data2d).error
      ensures err.None? ==> fresh(data) && Holds(FromRows(data2d).value)
      ensures old(transpose) != null && old(transpose) != this ==>
        old(transpose).transpose == null && old(transpose).rows == old(transpose.rows) &&
        old(transpose).cols == old(transpose.cols) && old(transpose).data == old(transpose.data) &&
        old(transpose).cachedData == old(transpose.cachedData)
      ensures old(transpose) != null && old(Valid()) ==> old(transpose).Valid()
    {
      var partner := transpose;
      if partner != null {
        partner.transpose := null;
      }
      err := Init(data2d);
    }

    /** matrix_get_data: the elements in order, built on the first request
        and cached. */
    method GetData() returns (snapshot: seq<real>)
      requires Coherent()
      modifies this`cachedData
      ensures Coherent() && snapshot == data[..] && cachedData == Some(snapshot)
      ensures old(Valid()) ==> Valid()
    {
      if cachedData.None? {
        var acc := [];
        for i := 0 to size
          invariant acc == data[..i]
        {
          acc := acc + [data[i]];
        }
        cachedData := Some(acc);
      }
      snapshot := cachedData.value;
    }

    /** matrix_get_transpose: the first request allocates a cols x rows matrix
        and copies element (r, c) to (c, r) by walking one pointer along this
        buffer and a second one down the columns of the new buffer, stepping
        back by size - 1 at the end of every row; later requests return
        whatever the link holds, which on a valid matrix is its transpose and
        on a former partner of a re-initialised matrix is that matrix. */
    method GetTranspose() returns (t: Matrix)
      requires Coherent()
      modifies this`transpose
      ensures transpose == t
      ensures old(transpose) != null ==> t == old(transpose)
      ensures old(transpose) == null ==> fresh(t) && fresh(t.data) && t.cachedData == None
      ensures old(transpose) == null || old(Valid()) ==>
        Valid() && t.Valid() && t.transpose == this &&
        t.rows == cols && t.cols == rows && t.data[..] == Transposed(data[..], rows, cols)
    {
      if transpose != null {
        t := transpose;
        if Valid() {
          PartnerValid();
        }
        return;
      }
      t := new Matrix();
      t.rows, t.cols := cols, rows;
      t.size := t.rows * t.cols;
      t.data := new real[t.size];
      CopyTransposed(data, t.data, rows, cols);
      t.transpose := this;
      transpose := t;
      PartnerValid();
    }

    /** The copy loop of matrix_get_transpose: element (r, c) of the R x C
        source is written to offset c * R + r of the destination; the source
        pointer advances by one, the destination pointer by R, and steps back
        by R * C - 1 at the end of each source row, to the next column start. */
    static method CopyTransposed(src: array<real>, dst: array<real>, R: int, C: int)
      requires R >= 1 && C >= 1 && src.Length == R * C && dst.Length == R * C && src != dst
      modifies dst
      ensures dst[..] == Transposed(src[..], R, C)
    {
      ghost var T := Transposed(src[..], R, C);
      var selfPtr, transPtr := 0, 0;
      for selfRowI := 0 to R
        invariant selfPtr == selfRowI * C && transPtr == selfRowI
        invariant forall i :: 0 <= i < R * C && i % R < selfRowI ==> dst[i] == T[i]
      {
        selfPtr, transPtr := CopyRow(src, dst, R, C, selfRowI, selfPtr, transPtr);
        transPtr := transPtr - (R * C - 1);
        SuccMul(selfRowI, C);
      }
      forall i | 0 <= i < R * C
        ensures dst[i] == T[i]
      {
        OffsetSplit(i, C, R);
      }
    }

    /** One source row of the transpose copy loop: row r of the source is
        written down column r of the destination. */
    static method CopyRow(src: array<real>, dst: array<real>, R: int, C: int, r: int,
                          selfStart: int, transStart: int) returns (selfPtr: int, transPtr: int)
      requires R >= 1 && C >= 1 && src.Length == R * C && dst.Length == R * C && src != dst
      requires 0 <= r < R && selfStart == r * C && transStart == r
      requires forall i :: 0 <= i < R * C && i % R < r ==> dst[i] == Transposed(src[..], R, C)[i]
      modifies dst
      ensures selfPtr == r * C + C && transPtr == C * R + r
      ensures forall i :: 0 <= i < R * C && i % R <= r ==> dst[i] == Transposed(src[..], R, C)[i]
    {
      ghost var T := Transposed(src[..], R, C);
      selfPtr, transPtr := selfStart, transStart;
      for c := 0 to C
        invariant selfPtr == r * C + c && transPtr == c * R + r
        invariant forall i :: 0 <= i < R * C && (i % R < r || (i % R == r && i / R < c)) ==> dst[i] == T[i]
      {
        CellBounds(c, r, C, R);
        CellBounds(r, c, R, C);
        CellDivMod(c, r, R);
        TransposedCell(src[..], R, C, r, c);
        ghost var before := dst[..];
        dst[transPtr] := src[selfPtr];
        forall i | 0 <= i < R * C && (i % R < r || (i % R == r && i / R < c + 1))
          ensures dst[i] == T[i]
        {
          OffsetSplit(i, C, R);
          if i != transPtr {
            assert dst[i] == before[i];
          }
        }
        transPtr := transPtr + R;
        selfPtr := selfPtr + 1;
        SuccMul(c, R);
      }
      forall i | 0 <= i < R * C && i % R == r
        ensures i / R < C
      {
        OffsetSplit(i, C, R);
      }
    }

    /** One of the four compress functions: walks the three buffers together
        writing a[i] op b[i]; the division stops at the first zero divisor and
        reports failure. */
    static method Compress(op: Op, a: array<real>, b: array<real>, res: array<real>, size: int) returns (ok: bool)
      requires a.Length == size && b.Length == size && res.Length == size
      requires res != a && res != b
      modifies res
      ensures ok <==> (op.Div? ==> NoZero(b[..]))
      ensures ok ==> res[..] == ZipWith(op, a[..], b[..])
    {
      for i := 0 to size
        invariant forall j :: 0 <= j < i ==> Defined(op, b[j]) && res[j] == Apply(op, a[j], b[j])
      {
        if op.Div? && b[i] == 0.0 {
          assert b[..][i] == 0.0;
          return false;
        }
        res[i] := Apply(op, a[i], b[i]);
      }
      return true;
    }

    /** MatrixNumber_merge: equal shapes or ValueError, then the compress
        function into a fresh matrix. */
    static method Merge(a: Matrix, b: Matrix, op: Op) returns (r: Result<Matrix>)
      requires a.Shaped() && b.Shaped()
      ensures Delivers(r, MergeOf(a.Value(), b.Value(), op))
      ensures r.Ok? ==> fresh(r.value) && fresh(r.value.data)
    {
      if a.rows != b.rows || a.cols != b.cols {
        return Err(ValueError);
      }
      var res := Fresh(a.rows, a.cols);
      var ok := Compress(op, a.data, b.data, res.data, a.size);
      if !ok {
        return Err(ZeroDivisionError);
      }
      return Ok(res);
    }

    /** MatrixNumber_scalar_multiply: every element times k, into a fresh matrix. */
    static method ScalarMultiply(m: Matrix, k: real) returns (res: Matrix)
      requires m.Shaped()
      ensures fresh(res) && fresh(res.data) && res.Holds(ScaledOf(m.Value(), k).value)
    {
      res := Fresh(m.rows, m.cols);
      for i := 0 to m.size
        modifies res.data
        invariant forall j :: 0 <= j < i ==> res.data[j] == m.data[j] * k
      {
        res.data[i] := m.data[i] * k;
      }
      ghost var scaled := Scale(m.data[..], k);
      forall j | 0 <= j < |scaled|
        ensures res.data[j] == scaled[j]
      {
      }
      assert res.data[..] == scaled;
    }

    /** MatrixNumber_scalar_divide: ZeroDivisionError for k == 0 before any
        allocation, otherwise every element over k, into a fresh matrix. */
    static method ScalarDivide(m: Matrix, k: real) returns (r: Result<Matrix>)
      requires m.Shaped()
      ensures Delivers(r, DividedOf(m.Value(), k))
      ensures r.Ok? ==> fresh(r.value) && fresh(r.value.data)
    {
      if k == 0.0 {
        return Err(ZeroDivisionError);
      }
      var res := Fresh(m.rows, m.cols);
      for i := 0 to m.size
        modifies res.data
        invariant forall j :: 0 <= j < i ==> res.data[j] == m.data[j] / k
      {
        res.data[i] := m.data[i] / k;
      }
      assert res.data[..] == DivideBy(m.data[..], k);
      return Ok(res);
    }

    /** matrix_number_matmul: for every result cell the left pointer runs
        along a row while the right pointer runs down a column; the right
        pointer then steps back by size - 1 to the top of the next column and
        the left one back to the start of the row, except after the last
        column, where the left pointer is left at the next row and the right
        one is reset to the buffer start. */
    static method MatMul(a: Matrix, b: Matrix) returns (r: Result<Matrix>)
      requires a.Shaped() && b.Shaped()
      ensures Delivers(r, ProductOf(a.Value(), b.Value()))
      ensures r.Ok? ==> fresh(r.value) && fresh(r.value.data)
    {
      if a.cols != b.rows {
        return Err(ValueError);
      }
      var res := Fresh(a.rows, b.cols);
      var R, K, C := a.rows, a.cols, b.cols;
      ghost var P := Product(a.data[..], b.data[..], R, K, C);
      var mat1Ptr, mat2Ptr, dotPtr := 0, 0, 0;
      for rowI := 0 to res.rows
        modifies res.data
        invariant mat1Ptr == rowI * K && mat2Ptr == 0 && dotPtr == rowI * C && dotPtr <= R * C
        invariant forall j :: 0 <= j < dotPtr ==> res.data[j] == P[j]
      {
        mat1Ptr, mat2Ptr, dotPtr := ProductRow(a, b, res.data, rowI, P, mat1Ptr, dotPtr);
        mat2Ptr := 0;
        SuccMul(rowI, K);
        SuccMul(rowI, C);
        MulAtMost(rowI + 1, R, C);
      }
      assert res.data[..] == P;
      return Ok(res);
    }

    /** One pass of the while loop of matrix_number_matmul: fills row rowI of
        the result cell by cell. After each cell the right pointer steps back
        by size - 1 to the top of the next column and, except after the last
        cell, the left one goes back to the start of the row. */
    static method ProductRow(a: Matrix, b: Matrix, out: array<real>, rowI: int,
                             ghost P: seq<real>, mat1Start: int, dotStart: int)
      returns (mat1Ptr: int, mat2Ptr: int, dotPtr: int)
      requires a.Shaped() && b.Shaped() && a.cols == b.rows
      requires 0 <= rowI < a.rows && out.Length == a.rows * b.cols
      requires out != a.data && out != b.data
      requires P == Product(a.data[..], b.data[..], a.rows, a.cols, b.cols)
      requires mat1Start == rowI * a.cols && dotStart == rowI * b.cols
      requires forall j :: 0 <= j < dotStart ==> out[j] == P[j]
      modifies out
      ensures mat1Ptr == mat1Start + a.cols && mat2Ptr == b.cols && dotPtr == dotStart + b.cols
      ensures dotPtr <= out.Length == |P|
      ensures forall j :: 0 <= j < dotPtr ==> out[j] == P[j]
    {
      var R, K, C := a.rows, a.cols, b.cols;
      CellBounds(rowI, C - 1, R, C);
      var colI := 0;
      mat1Ptr, mat2Ptr, dotPtr := mat1Start, 0, dotStart;
      while true
        invariant 0 <= colI < C && rowI * C + C <= R * C
        invariant mat1Ptr == rowI * K && mat2Ptr == colI && dotPtr == rowI * C + colI
        invariant forall j :: 0 <= j < dotPtr ==> out[j] == P[j]
        decreases C - colI
      {
        ProductCell(a.data[..], b.data[..], R, K, C, rowI, colI);
        CellBounds(rowI, colI, R, C);
        mat1Ptr, mat2Ptr := DotCell(a, b, out, dotPtr, rowI, colI, mat1Ptr, mat2Ptr);
        assert out[dotPtr] == P[dotPtr];
        dotPtr := dotPtr + 1;
        colI := colI + 1;
        mat2Ptr := mat2Ptr - (b.size - 1);
        if colI == C {
          break;
        }
        mat1Ptr := mat1Ptr - a.cols;
      }
    }

    /** The innermost loop of matrix_number_matmul: zeroes cell dotPtr and
        accumulates row rowI of a times column colI of b into it, the left
        pointer stepping by 1 and the right one by b's column count. */
    static method DotCell(a: Matrix, b: Matrix, out: array<real>, dotPtr: int, rowI: int, colI: int,
                          mat1Start: int, mat2Start: int) returns (mat1Ptr: int, mat2Ptr: int)
      requires a.Shaped() && b.Shaped() && a.cols == b.rows
      requires 0 <= rowI < a.rows && 0 <= colI < b.cols && 0 <= dotPtr < out.Length
      requires out != a.data && out != b.data
      requires mat1Start == rowI * a.cols && mat2Start == colI
      modifies out
      ensures mat1Ptr == mat1Start + a.cols && mat2Ptr == a.cols * b.cols + colI
      ensures out[dotPtr] == Dot(Row(a.data[..], a.rows, a.cols, rowI), Col(b.data[..], b.rows, b.cols, colI))
      ensures forall j :: 0 <= j < out.Length && j != dotPtr ==> out[j] == old(out[j])
    {
      var R, K, C := a.rows, a.cols, b.cols;
      ghost var u, v := Row(a.data[..], R, K, rowI), Col(b.data[..], K, C, colI);
      out[dotPtr] := 0.0;
      mat1Ptr, mat2Ptr := mat1Start, mat2Start;
      assert u[..0] == [] && v[..0] == [];
      for i := 0 to K
        invariant mat1Ptr == rowI * K + i && mat2Ptr == i * C + colI
        invariant out[dotPtr] == Dot(u[..i], v[..i])
        invariant forall j :: 0 <= j < out.Length && j != dotPtr ==> out[j] == old(out[j])
      {
        CellBounds(rowI, i, R, K);
        CellBounds(i, colI, K, C);
        var x, y := a.data[mat1Ptr], b.data[mat2Ptr];
        assert x == u[i];
        assert y == v[i];
        DotAccumulate(u, v, i, out[dotPtr], x, y);
        out[dotPtr] := out[dotPtr] + x * y;
        mat1Ptr := mat1Ptr + 1;
        mat2Ptr := mat2Ptr + C;
        SuccMul(i, C);
      }
      assert u[..K] == u && v[..K] == v;
    }
  }

  /** r is the matrix (or the error) the outcome o describes. */
  ghost predicate Delivers(r: Result<Matrix>, o: Result<Built>)
    reads if r.Ok? then {r.value} else {}, if r.Ok? then {r.value.data} else {}
  {
    (r.Ok? <==> o.Ok?) &&
    (r.Err? ==> r.error == o.error) &&
    (r.Ok? ==> r.value.Holds(o.value))
  }

  /** An argument of an operator: a Matrix or another Python value. */
  datatype Operand = Mat(m: Matrix) | Val(v: PyValue)

  ghost predicate ShapedOperand(x: Operand)
    reads if x.Mat? then {x.m} else {}
  {
    x.Mat? ==> x.m.Shaped()
  }

  /** The value an operand stands for. */
  ghost function ArgOf(x: Operand): (a: Arg)
    reads if x.Mat? then {x.m} else {}, if x.Mat? then {x.m.data} else {}
    requires ShapedOperand(x)
    ensures WellShapedArg(a) && (a.M? <==> x.Mat?)
  {
    if x.Mat? then M(x.m.Value()) else V(x.v)
  }

  /** The number protocol of the Matrix type. */
  method Binary(sym: Symbol, x: Operand, y: Operand) returns (r: Result<Matrix>)
    requires ShapedOperand(x) && ShapedOperand(y)
    ensures Delivers(r, BinaryOf(sym, ArgOf(x), ArgOf(y)))
    ensures r.Ok? ==> fresh(r.value) && fresh(r.value.data)
  {
    match sym
    case Plus =>
      if x.Mat? && y.Mat? { r := Matrix.Merge(x.m, y.m, Add); } else { r := Err(TypeError); }
    case Minus =>
      if x.Mat? && y.Mat? { r := Matrix.Merge(x.m, y.m, Sub); } else { r := Err(TypeError); }
    case Star =>
      if x.Mat? && y.Mat? {
        r := Matrix.Merge(x.m, y.m, Mul);
      } else if x.Mat? && IsNumber(y.v) {
        var m := Matrix.ScalarMultiply(x.m, AsReal(y.v));
        r := Ok(m);
      } else if y.Mat? && IsNumber(x.v) {
        var m := Matrix.ScalarMultiply(y.m, AsReal(x.v));
        r := Ok(m);
      } else {
        r := Err(TypeError);
      }
    case Slash =>
      if x.Mat? && y.Mat? {
        r := Matrix.Merge(x.m, y.m, Div);
      } else if x.Mat? && IsNumber(y.v) {
        r := Matrix.ScalarDivide(x.m, AsReal(y.v));
      } else {
        r := Err(TypeError);
      }
    case At =>
      if x.Mat? && y.Mat? { r := Matrix.MatMul(x.m, y.m); } else { r := Err(TypeError); }
  }

  /** A zero fill is a fill with the int 0. */
  lemma ZerosAreFilledWithZero(pyRows: PyValue, pyCols: PyValue)
    ensures Filled(pyRows, pyCols, Int(0)) == Zeros(pyRows, pyCols)
  {
  }

  /** A fill holds exactly rows * cols copies of the value, and fails only on
      a non-number value or bad dims. */
  lemma FilledSpec(pyRows: PyValue, pyCols: PyValue, val: PyValue)
    ensures Filled(pyRows, pyCols, val).Ok? <==> IsNumber(val) && LoadedDims(pyRows, pyCols).Ok?
    ensures Filled(pyRows, pyCols, val).Ok? ==>
      var b := Filled(pyRows, pyCols, val).value;
      b.WellShaped() && (forall i :: 0 <= i < |b.elements| ==> b.elements[i] == AsReal(val))
  {
  }

  /** A flat list builds a matrix exactly when the dims load, the list has
      rows * cols items and all of them are numbers; element i is item i. */
  lemma FromArraySpec(pyRows: PyValue, pyCols: PyValue, pyData: PyValue)
    ensures var r := FromArray(pyRows, pyCols, pyData);
      (r.Ok? <==> LoadedDims(pyRows, pyCols).Ok? && pyData.List? &&
                  |pyData.items| == pyRows.i * pyCols.i &&
                  forall k :: 0 <= k < |pyData.items| ==> IsNumber(pyData.items[k])) &&
      (r.Ok? ==> r.value.WellShaped() &&
                 forall k :: 0 <= k < |pyData.items| ==> r.value.elements[k] == AsReal(pyData.items[k]))
  {
  }

  /** A nested list builds a matrix exactly when it is a non-empty list whose
      first row is a non-empty list and every row is a list of that many ints;
      the result is its rows laid end to end. */
  lemma FromRowsSpec(data2d: PyValue)
    ensures var r := FromRows(data2d);
      (r.Ok? <==> data2d.List? && |data2d.items| >= 1 && data2d.items[0].List? &&
                  |data2d.items[0].items| >= 1 &&
                  forall k :: 0 <= k < |data2d.items| ==>
                    GoodRow(data2d.items[k], |data2d.items[0].items|, true)) &&
      (r.Ok? ==> (r.value.WellShaped() &&
         r.value.rows == |data2d.items| && r.value.cols == |data2d.items[0].items| &&
         forall i, j :: 0 <= i < r.value.rows && 0 <= j < r.value.cols ==>
           data2d.items[i].List? && j < |data2d.items[i].items| && IsNumber(data2d.items[i].items[j]) &&
           Cell(r.value.elements, r.value.rows, r.value.cols, i, j) == AsReal(data2d.items[i].items[j])))
  {
    if data2d.List? && |data2d.items| >= 1 && data2d.items[0].List? && |data2d.items[0].items| >= 1 {
      var C := |data2d.items[0].items|;
      FlattenRowsOk(data2d.items, C, true);
      if FlattenRows(data2d.items, C, true).Ok? {
        FlattenRowsValues(data2d.items, C, true);
      }
    }
  }

  /** Transposing the copy back gives the original. */
  lemma TransposeTwice(x: Built)
    requires x.WellShaped()
    ensures TransposeOf(TransposeOf(x)) == x
  {
    TransposedInvolution(x.elements, x.rows, x.cols);
  }

  /** The transpose of a product is the product of the transposes in the
      other order; the reversed product of the transposes is defined exactly
      when the product is. */
  lemma ProductOfTransposes(x: Built, y: Built)
    requires x.WellShaped() && y.WellShaped()
    ensures ProductOf(TransposeOf(y), TransposeOf(x)).Ok? <==> ProductOf(x, y).Ok?
    ensures ProductOf(x, y).Ok? ==>
      ProductOf(TransposeOf(y), TransposeOf(x)) == Ok(TransposeOf(ProductOf(x, y).value))
  {
    if x.cols == y.rows {
      TransposedProduct(x.elements, y.elements, x.rows, x.cols, y.cols);
    }
  }

  /** Subtracting and adding back the same matrix gives the original. */
  lemma SubThenAddBack(x: Built, y: Built)
    requires x.WellShaped() && y.WellShaped() && x.rows == y.rows && x.cols == y.cols
    ensures MergeOf(x, y, Sub).Ok?
    ensures MergeOf(MergeOf(x, y, Sub).value, y, Add) == Ok(x)
  {
    SubThenAdd(x.elements, y.elements);
  }

  /** Scaling by a non-zero k and dividing by k gives the original. */
  lemma ScaleThenDivideBack(x: Built, k: real)
    requires x.WellShaped() && k != 0.0
    ensures DividedOf(ScaledOf(x, k).value, k) == Ok(x)
  {
    ScaleThenDivide(x.elements, k);
  }

  /** A number times a matrix is the matrix times the number; only
      matrix / number divides. */
  lemma ScalarOperands(x: Built, k: PyValue)
    requires x.WellShaped()
    ensures BinaryOf(Star, V(k), M(x)) == BinaryOf(Star, M(x), V(k))
    ensures BinaryOf(Slash, V(k), M(x)) == Err(TypeError)
    ensures IsNumber(k) ==> (BinaryOf(Slash, M(x), V(k)).Ok? <==> AsReal(k) != 0.0)
  {
  }

  /** `m = Matrix([[1, 2]]); t = m.T; m.__init__([[5, 6, 7]]); t.T`: the
      clear in `__init__` drops only m's link, so t.T still returns m, which
      now holds [[5, 6, 7]] and is not the transpose of t = [[1], [2]]. */
  method StaleTransposeAfterInit() returns (sameObject: bool, backRows: int, backCols: int, backData: seq<real>, tData: seq<real>)
    ensures sameObject && backRows == 1 && backCols == 3
    ensures backData == [5.0, 6.0, 7.0] && tData == [1.0, 2.0]
  {
    OneRowBuilds([Int(1), Int(2)]);
    OneRowBuilds([Int(5), Int(6), Int(7)]);
    var m := new Matrix();
    var e1 := m.Init(List([List([Int(1), Int(2)])]));
    var t := m.GetTranspose();
    assert t.data[..] == [1.0, 2.0] by {
      assert Transposed([1.0, 2.0], 1, 2)[1] == Cell([1.0, 2.0], 1, 2, 0, 1);
    }
    var e2 := m.Init(List([List([Int(5), Int(6), Int(7)])]));
    var back := t.GetTranspose();
    sameObject := back == m;
    backRows, backCols, backData := back.rows, back.cols, back.data[..];
    tData := t.data[..];
  }

  /** A single row of ints builds the 1 x n matrix holding them. */
  lemma OneRowBuilds(row: seq<PyValue>)
    requires |row| >= 1 && forall k :: 0 <= k < |row| ==> row[k].Int?
    ensures FromRows(List([List(row)])) == Ok(Built(1, |row|, seq(|row|, k requires 0 <= k < |row| => row[k].i as real)))
  {
    var d := List([List(row)]);
    FromRowsSpec(d);
    assert GoodRow(d.items[0], |row|, true);
    var b := FromRows(d).value;
    var want := seq(|row|, k requires 0 <= k < |row| => row[k].i as real);
    assert b.rows == 1 && b.cols == |row| && |b.elements| == |row|;
    forall k | 0 <= k < |row|
      ensures b.elements[k] == want[k]
    {
      assert Cell(b.elements, 1, |row|, 0, k) == AsReal(row[k]);
    }
    assert b.elements == want;
  }
}
