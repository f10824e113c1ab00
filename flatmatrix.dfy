/** The first C draft (c_extensions/matrix.c): a matrix object that holds its
    shape, its length and an unordered buffer filled from a flat Python list of
    ints. Its initialiser reports failure by returning -1, without raising a
    Python exception. */
module FlatMatrix {
  import opened Host
  import CopyingMatrix

  /** The length of the longest prefix of `items` made of Python ints. */
  function IntPrefix(items: seq<PyValue>): (n: nat)
    ensures n <= |items|
    ensures forall j :: 0 <= j < n ==> items[j].Int?
    ensures n < |items| ==> !items[n].Int?
  {
    if |items| == 0 || !items[0].Int? then 0
    else
      var n := IntPrefix(items[1..]);
      assert forall j :: 1 <= j < n + 1 ==> items[j] == items[1..][j - 1];
      n + 1
  }

  /** Converting one more accepted item appends its value. */
  lemma ConvertStep(items: seq<PyValue>, i: int, intsOnly: bool)
    requires 0 <= i < |items| && Convert(items[..i], intsOnly).Some? && Accepts(intsOnly, items[i])
    ensures Convert(items[..i + 1], intsOnly) == Some(Convert(items[..i], intsOnly).value + [AsReal(items[i])])
  {
    assert items[..i + 1][..i] == items[..i];
  }

  /** The arguments reach the allocation: positive dims and a list of exactly
      rows * cols items. */
  predicate Allocates(r: int, c: int, pyData: PyValue) {
    r > 0 && c > 0 && pyData.List? && |pyData.items| == r * c
  }

  /** The arguments Matrix_init accepts: they reach the allocation and every
      item is an int. */
  predicate Accepted(r: int, c: int, pyData: PyValue) {
    Allocates(r, c, pyData) && IntPrefix(pyData.items) == |pyData.items|
  }

  class Matrix {
    var rows: int
    var cols: int
    var len: int
    var unorderedData: array?<real>

    /** A successfully initialised object: positive dims, and a buffer of
        exactly rows * cols elements. */
    ghost predicate Valid()
      reads this
    {
      rows > 0 && cols > 0 && len == rows * cols &&
      unorderedData != null && unorderedData.Length == len
    }

    /** Matrix_new: every field zero and no buffer. */
    constructor ()
      ensures rows == 0 && cols == 0 && len == 0 && unorderedData == null
      ensures !Valid()
    {
      rows, cols, len, unorderedData := 0, 0, 0, null;
    }

    /** Matrix_init with already parsed `rows` and `cols`: the dims are
        stored first, whatever follows. It fails (-1) on a non-positive dim,
        then on data that is not a list (the length is stored once it is), then
        on a length other than rows * cols; otherwise it replaces the buffer
        with a fresh one of that length and copies the items front to back,
        failing at the first item that is not an int and leaving the items
        before it copied. */
    method Init(r: int, c: int, pyData: PyValue) returns (status: int)
      modifies this
      ensures status == 0 || status == -1
      ensures rows == r && cols == c
      ensures status == 0 <==> Accepted(r, c, pyData)
      ensures r > 0 && c > 0 && pyData.List? ==> len == |pyData.items|
      ensures !(r > 0 && c > 0 && pyData.List?) ==> len == old(len)
      ensures !Allocates(r, c, pyData) ==> unorderedData == old(unorderedData)
      ensures Allocates(r, c, pyData) ==>
        fresh(unorderedData) && unorderedData.Length == len &&
        unorderedData[..IntPrefix(pyData.items)] ==
          Convert(pyData.items[..IntPrefix(pyData.items)], true).value
      ensures status == 0 ==> Valid() && unorderedData[..] == Convert(pyData.items, true).value
    {
      rows, cols := r, c;
      if rows <= 0 || cols <= 0 {
        return -1;
      }
      if !pyData.List? {
        return -1;
      }
      var items := pyData.items;
      len := |items|;
      if len != rows * cols {
        return -1;
      }
      var buf := new real[len];
      unorderedData := buf;
      for i := 0 to len
        modifies buf
        invariant forall j :: 0 <= j < i ==> items[j].Int?
        invariant buf[..i] == Convert(items[..i], true).value
      {
        var item := items[i];
        if !item.Int? {
          assert IntPrefix(items) == i;
          return -1;
        }
        buf[i] := item.i as real;
        ConvertStep(items, i, true);
        assert buf[..i + 1] == buf[..i] + [buf[i]];
      }
      assert items[..len] == items;
      assert buf[..len] == buf[..];
      return 0;
    }
  }

  /** Every list this draft accepts is accepted with the same elements by the
      copying engine's matrix_from_array, which in addition accepts floats:
      the two agree exactly on int-only lists. */
  lemma AcceptedAgreesWithFromArray(r: int, c: int, pyData: PyValue)
    ensures Accepted(r, c, pyData) <==>
      CopyingMatrix.FromArray(Int(r), Int(c), pyData).Ok? &&
      pyData.List? && Convert(pyData.items, true).Some?
    ensures Accepted(r, c, pyData) ==>
      CopyingMatrix.FromArray(Int(r), Int(c), pyData) ==
        Ok(Built(r, c, Convert(pyData.items, true).value))
  {
    if pyData.List? {
      var items := pyData.items;
      var p := IntPrefix(items);
      if p < |items| {
        assert !Accepts(true, items[p]);
      }
      if Convert(items, true).Some? {
        assert Convert(items, false).Some?;
        assert Convert(items, false).value == Convert(items, true).value;
      }
    }
  }
}
