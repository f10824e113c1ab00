/** The Python values the engines receive, the error kinds they raise, and the
    validators that turn Python lists into element buffers. Every draft of the
    engine accepts elements through these. */
module Host {
  import opened Grid

  /** A Python object as the engines see it; a float is modelled exactly as a real. */
  datatype PyValue =
    | Int(i: int)
    | Float(x: real)
    | List(items: seq<PyValue>)
    | Tuple(items: seq<PyValue>)
    | Opaque

  /** The Python exception classes the engines raise (messages are not modelled). */
  datatype Error = TypeError | ValueError | ZeroDivisionError | NotImplementedError | IndexError

  datatype Option<T> = None | Some(value: T)

  datatype Result<T> = Ok(value: T) | Err(error: Error)

  /** Shape and row-major contents of a freshly built matrix. */
  datatype Built = Built(rows: int, cols: int, elements: seq<real>) {
    /** Positive dims and exactly rows * cols elements. */
    predicate WellShaped() {
      rows >= 1 && cols >= 1 && |elements| == rows * cols
    }
  }

  /** The five binary operators of the number protocol: + - * / @. */
  datatype Symbol = Plus | Minus | Star | Slash | At

  /** A Python int or float. */
  predicate IsNumber(v: PyValue) {
    v.Int? || v.Float?
  }

  /** What an element check lets through: any number, or Python ints only. */
  predicate Accepts(intsOnly: bool, v: PyValue) {
    if intsOnly then v.Int? else IsNumber(v)
  }

  /** The double a number converts to. */
  function AsReal(v: PyValue): real
    requires IsNumber(v)
  {
    if v.Int? then v.i as real else v.x
  }

  /** Converts a flat list item by item, front to back, stopping at the first
      item the check rejects. */
  function Convert(items: seq<PyValue>, intsOnly: bool): (r: Option<seq<real>>)
    ensures r.Some? <==> forall k :: 0 <= k < |items| ==> Accepts(intsOnly, items[k])
    ensures r.Some? ==> |r.value| == |items|
    ensures r.Some? ==> forall k :: 0 <= k < |items| ==> IsNumber(items[k]) && r.value[k] == AsReal(items[k])
  {
    if |items| == 0 then Some([])
    else
      var last := items[|items| - 1];
      match Convert(items[..|items| - 1], intsOnly)
      case None => None
      case Some(p) => if Accepts(intsOnly, last) then Some(p + [AsReal(last)]) else None
  }

  /** The inner loop of both nested-list constructors: validates the items of
      one row front to back and stores each at the running offset, stopping at
      the first item the check rejects. The cells before the row are kept. */
  method StoreRow(buf: array<real>, base: int, items: seq<PyValue>, intsOnly: bool) returns (ok: bool)
    requires 0 <= base && base + |items| <= buf.Length
    modifies buf
    ensures ok <==> Convert(items, intsOnly).Some?
    ensures buf[..base] == old(buf[..base])
    ensures ok ==> buf[base..base + |items|] == Convert(items, intsOnly).value
  {
    for k := 0 to |items|
      invariant buf[..base] == old(buf[..base])
      invariant forall j :: 0 <= j < k ==> Accepts(intsOnly, items[j]) && buf[base + j] == AsReal(items[j])
    {
      if !Accepts(intsOnly, items[k]) {
        return false;
      }
      buf[base + k] := AsReal(items[k]);
    }
    return true;
  }

  /** The row loop of both nested-list constructors: each row must be a list
      of exactly `cols` items, and its items are stored at the running offset.
      The outcome is the flattening of the whole list. */
  method StoreRows(buf: array<real>, rows: seq<PyValue>, cols: nat, intsOnly: bool) returns (err: Option<Error>)
    requires buf.Length == |rows| * cols
    modifies buf
    ensures err.None? <==> FlattenRows(rows, cols, intsOnly).Ok?
    ensures err.Some? ==> FlattenRows(rows, cols, intsOnly) == Err(err.value)
    ensures err.None? ==> buf[..] == FlattenRows(rows, cols, intsOnly).value
  {
    var R := |rows|;
    var offset := 0;
    for r := 0 to R
      invariant offset == r * cols && offset <= R * cols
      invariant FlattenRows(rows[..r], cols, intsOnly) == Ok(buf[..offset])
    {
      var row := rows[r];
      if !row.List? || |row.items| != cols {
        FlattenRowsFailsAt(rows, r, cols, intsOnly);
        return if !row.List? then Some(TypeError) else Some(ValueError);
      }
      ghost var done := buf[..offset];
      SuccMul(r, cols);
      MulAtMost(r + 1, R, cols);
      var ok := StoreRow(buf, offset, row.items, intsOnly);
      if !ok {
        FlattenRowsFailsAt(rows, r, cols, intsOnly);
        return Some(TypeError);
      }
      var v := Convert(row.items, intsOnly).value;
      assert buf[..offset + cols] == buf[..offset] + buf[offset..offset + cols];
      FlattenRowsStep(rows, r, cols, intsOnly, done, v);
      offset := offset + cols;
    }
    assert rows[..R] == rows;
    assert buf[..] == buf[..offset];
    return None;
  }

  /** One row of a nested list: it must be a list (TypeError) of exactly `cols`
      items (ValueError), each accepted (TypeError). */
  function ConvertRow(row: PyValue, cols: int, intsOnly: bool): Result<seq<real>> {
    if !row.List? then Err(TypeError)
    else if |row.items| != cols then Err(ValueError)
    else match Convert(row.items, intsOnly)
      case None => Err(TypeError)
      case Some(v) => Ok(v)
  }

  predicate GoodRow(row: PyValue, cols: int, intsOnly: bool) {
    row.List? && |row.items| == cols &&
    forall k :: 0 <= k < cols ==> Accepts(intsOnly, row.items[k])
  }

  /** Converts a nested list row by row, front to back; the error is the one of
      the first row that fails. */
  function FlattenRows(rows: seq<PyValue>, cols: nat, intsOnly: bool): Result<seq<real>> {
    if |rows| == 0 then Ok([])
    else match FlattenRows(rows[..|rows| - 1], cols, intsOnly)
      case Err(e) => Err(e)
      case Ok(p) =>
        match ConvertRow(rows[|rows| - 1], cols, intsOnly)
        case Err(e) => Err(e)
        case Ok(v) => Ok(p + v)
  }

  /** A nested list flattens exactly when every row is a list of `cols`
      accepted items. */
  lemma {:induction false} FlattenRowsOk(rows: seq<PyValue>, cols: nat, intsOnly: bool)
    ensures FlattenRows(rows, cols, intsOnly).Ok? <==>
      forall k :: 0 <= k < |rows| ==> GoodRow(rows[k], cols, intsOnly)
  {
    if |rows| > 0 {
      var front := rows[..|rows| - 1];
      FlattenRowsOk(front, cols, intsOnly);
      assert forall k :: 0 <= k < |rows| - 1 ==> front[k] == rows[k];
    }
  }

  /** A flattened nested list is row-major: row r's item c sits at cell (r, c). */
  lemma {:induction false} FlattenRowsValues(rows: seq<PyValue>, cols: nat, intsOnly: bool)
    requires FlattenRows(rows, cols, intsOnly).Ok?
    ensures forall r :: 0 <= r < |rows| ==> GoodRow(rows[r], cols, intsOnly)
    ensures |FlattenRows(rows, cols, intsOnly).value| == |rows| * cols
    ensures forall r, c ::
      (0 <= r < |rows| && 0 <= c < cols && rows[r].List? &&
       c < |rows[r].items| && IsNumber(rows[r].items[c])) ==>
      Cell(FlattenRows(rows, cols, intsOnly).value, |rows|, cols, r, c) == AsReal(rows[r].items[c])
  {
    FlattenRowsOk(rows, cols, intsOnly);
    if |rows| > 0 {
      var n := |rows| - 1;
      var front := rows[..n];
      FlattenRowsValues(front, cols, intsOnly);
      var p := FlattenRows(front, cols, intsOnly).value;
      var v := ConvertRow(rows[n], cols, intsOnly).value;
      var flat := p + v;
      assert FlattenRows(rows, cols, intsOnly).value == flat;
      assert |rows| == n + 1;
      SuccMul(n, cols);
      forall r, c | 0 <= r < |rows| && 0 <= c < cols && rows[r].List? &&
        c < |rows[r].items| && IsNumber(rows[r].items[c])
        ensures Cell(flat, |rows|, cols, r, c) == AsReal(rows[r].items[c])
      {
        CellOfAppend(p, v, n, cols, r, c);
        if r < n {
          assert front[r] == rows[r];
        }
      }
    }
  }

  /** Appending a row to a grid keeps the old cells and adds the new row last. */
  lemma CellOfAppend<T>(p: seq<T>, v: seq<T>, n: nat, cols: nat, r: int, c: int)
    requires |p| == n * cols && |v| == cols && 0 <= r <= n && 0 <= c < cols
    ensures |p + v| == (n + 1) * cols
    ensures Cell(p + v, n + 1, cols, r, c) == if r < n then Cell(p, n, cols, r, c) else v[c]
  {
    assert (n + 1) * cols == n * cols + cols;
    if r < n {
      CellBounds(r, c, n, cols);
    }
  }

  /** The first row that fails decides the error: a row that is not a list or
      holds a non-number gives TypeError, a row of the wrong length ValueError. */
  lemma {:induction false} FlattenRowsError(rows: seq<PyValue>, cols: nat, intsOnly: bool)
    requires FlattenRows(rows, cols, intsOnly).Err?
    ensures exists k :: (0 <= k < |rows| &&
      (forall j :: 0 <= j < k ==> ConvertRow(rows[j], cols, intsOnly).Ok?) &&
      ConvertRow(rows[k], cols, intsOnly) == FlattenRows(rows, cols, intsOnly))
  {
    var n := |rows| - 1;
    var front := rows[..n];
    assert forall j :: 0 <= j < n ==> front[j] == rows[j];
    if FlattenRows(front, cols, intsOnly).Err? {
      FlattenRowsError(front, cols, intsOnly);
      var k :| 0 <= k < n &&
        (forall j :: 0 <= j < k ==> ConvertRow(front[j], cols, intsOnly).Ok?) &&
        ConvertRow(front[k], cols, intsOnly) == FlattenRows(front, cols, intsOnly);
      assert ConvertRow(rows[k], cols, intsOnly) == FlattenRows(rows, cols, intsOnly);
    } else {
      FlattenRowsOkPrefix(front, cols, intsOnly);
      assert ConvertRow(rows[n], cols, intsOnly) == FlattenRows(rows, cols, intsOnly);
    }
  }

  lemma {:induction false} FlattenRowsOkPrefix(rows: seq<PyValue>, cols: nat, intsOnly: bool)
    requires FlattenRows(rows, cols, intsOnly).Ok?
    ensures forall j :: 0 <= j < |rows| ==> ConvertRow(rows[j], cols, intsOnly).Ok?
  {
    if |rows| > 0 {
      var front := rows[..|rows| - 1];
      FlattenRowsOkPrefix(front, cols, intsOnly);
      assert forall j :: 0 <= j < |rows| - 1 ==> front[j] == rows[j];
    }
  }

  /** Once a prefix of the rows fails, the whole list fails with the same error. */
  lemma {:induction false} FlattenRowsErrPrefix(rows: seq<PyValue>, n: int, cols: nat, intsOnly: bool)
    requires 0 <= n <= |rows| && FlattenRows(rows[..n], cols, intsOnly).Err?
    ensures FlattenRows(rows, cols, intsOnly) == FlattenRows(rows[..n], cols, intsOnly)
    decreases |rows|
  {
    if n < |rows| {
      var front := rows[..|rows| - 1];
      assert front[..n] == rows[..n];
      FlattenRowsErrPrefix(front, n, cols, intsOnly);
    } else {
      assert rows[..n] == rows;
    }
  }

  /** Converting one more row appends it to the rows converted so far. */
  lemma FlattenRowsStep(rows: seq<PyValue>, n: int, cols: nat, intsOnly: bool, p: seq<real>, v: seq<real>)
    requires 0 <= n < |rows|
    requires FlattenRows(rows[..n], cols, intsOnly) == Ok(p)
    requires ConvertRow(rows[n], cols, intsOnly) == Ok(v)
    ensures FlattenRows(rows[..n + 1], cols, intsOnly) == Ok(p + v)
  {
    assert rows[..n + 1][..n] == rows[..n];
  }

  /** If the rows before n convert and row n does not, the whole list fails
      with row n's error. */
  lemma FlattenRowsFailsAt(rows: seq<PyValue>, n: int, cols: nat, intsOnly: bool)
    requires 0 <= n < |rows|
    requires FlattenRows(rows[..n], cols, intsOnly).Ok?
    requires ConvertRow(rows[n], cols, intsOnly).Err?
    ensures FlattenRows(rows, cols, intsOnly) == ConvertRow(rows[n], cols, intsOnly)
  {
    assert rows[..n + 1][..n] == rows[..n];
    FlattenRowsErrPrefix(rows, n + 1, cols, intsOnly);
  }
}
