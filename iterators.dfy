/** The column-major pointer iterator (c_extensions/matrix_iter.c). Pointers
    are modelled as integer addresses; `start` is the address of element 0 of
    a row-major rows x cols buffer. */
module MatrixIterator {
  import opened Grid
  import Indexing

  /** Offset of the k-th element of a column-major walk over a row-major
      R x C buffer: row k % R of column k / R. */
  function ColOffset(R: int, C: int, k: int): (off: int)
    requires R >= 1 && C >= 1 && 0 <= k < R * C
    ensures 0 <= off < R * C
  {
    OffsetSplit(k, C, R);
    CellBounds(k % R, k / R, R, C);
    (k % R) * C + k / R
  }

  /** How nextInCol moves an offset: down one row, and back to the top of the
      next column once it reaches or passes the end. */
  function ColStep(R: int, C: int, off: int): int {
    if off + C >= R * C then off + C - (R * C - 1) else off + C
  }

  /** One step of nextInCol moves the walk from element k to element k + 1. */
  lemma ColStepWalks(R: int, C: int, k: int)
    requires R >= 1 && C >= 1 && 0 <= k && k + 1 < R * C
    ensures ColStep(R, C, ColOffset(R, C, k)) == ColOffset(R, C, k + 1)
  {
    OffsetSplit(k, C, R);
    var q, m := k / R, k % R;
    assert ColOffset(R, C, k) == m * C + q;
    if m + 1 < R {
      CellDivMod(q, m + 1, R);
      StepDown(R, C, q, m);
    } else {
      assert k + 1 == (q + 1) * R + 0;
      CellDivMod(q + 1, 0, R);
      StepAcross(R, C, q);
    }
  }

  /** Inside a column the step moves down one row. */
  lemma StepDown(R: int, C: int, q: int, m: int)
    requires 0 <= q < C && 0 <= m && m + 1 < R
    ensures ColStep(R, C, m * C + q) == (m + 1) * C + q
  {
    SuccMul(m, C);
    CellBounds(m + 1, q, R, C);
  }

  /** From the last row the step moves to the top of the next column. */
  lemma StepAcross(R: int, C: int, q: int)
    requires R >= 1 && 0 <= q < C
    ensures ColStep(R, C, (R - 1) * C + q) == q + 1
  {
    SuccMul(R - 1, C);
  }

  /** The walk is the logical order of a transpose view: element k of the walk
      over an R x C buffer is where the column-major index function of the
      C x R view sends position k. */
  lemma ColWalkIsTransposeView(R: int, C: int, k: int)
    requires R >= 1 && C >= 1 && 0 <= k < R * C
    ensures ColOffset(R, C, k) == Indexing.Index(Indexing.ColMajor, C, R, k)
  {
    Indexing.ColMajorClosedForm(C, R, k);
  }

  /** The first R * C steps of the walk visit every offset exactly once. */
  lemma ColWalkVisitsOnce(R: int, C: int, j: int, k: int)
    requires R >= 1 && C >= 1 && 0 <= j < R * C && 0 <= k < R * C
    ensures ColOffset(R, C, j) == ColOffset(R, C, k) <==> j == k
  {
    ColWalkIsTransposeView(R, C, j);
    ColWalkIsTransposeView(R, C, k);
    Indexing.IndexInjective(Indexing.ColMajor, C, R, j, k);
  }

  /** The walk does not come back to the start: one more step after the last
      element lands on address start + C (for a one-row matrix, the end
      address). */
  lemma ColWalkAfterLast(R: int, C: int)
    requires R >= 1 && C >= 1
    ensures ColStep(R, C, ColOffset(R, C, R * C - 1)) == C
  {
    var k := R * C - 1;
    assert k == (C - 1) * R + (R - 1);
    CellDivMod(C - 1, R - 1, R);
  }

  class MatrixIter {
    var rows: int
    var cols: int
    var size: int
    var start: int
    var end: int
    var ptr: int
    /** nextInRow and nextInCol calls since the last init or reset. */
    ghost var rowCalls: nat
    ghost var colCalls: nat

    /** The fields init establishes, on a matrix with at least one cell. */
    ghost predicate Valid()
      reads this
    {
      rows >= 1 && cols >= 1 && size == rows * cols && end == start + size
    }

    /** Only nextInRow since the reset: the pointer has moved one cell per call. */
    ghost predicate InRowWalk()
      reads this
    {
      Valid() && colCalls == 0 && ptr == start + rowCalls
    }

    /** Only nextInCol since the reset: while calls remain below size, the
        pointer is at the next element of the column-major walk. */
    ghost predicate InColumnWalk()
      reads this
    {
      Valid() && rowCalls == 0 &&
      (colCalls < size ==> ptr == start + ColOffset(rows, cols, colCalls))
    }

    /** MatrixIter_init: size is rows * cols, end lies size cells after the
        start, and the pointer is at the start. */
    method Init(rows: int, cols: int, data: int)
      modifies this
      ensures this.rows == rows && this.cols == cols && size == rows * cols
      ensures start == data && end == data + size && ptr == data
      ensures rowCalls == 0 && colCalls == 0
      ensures rows >= 1 && cols >= 1 ==> InRowWalk() && InColumnWalk()
    {
      this.rows, this.cols := rows, cols;
      size := rows * cols;
      start := data;
      end := data + size;
      ptr := data;
      rowCalls, colCalls := 0, 0;
    }

    /** MatrixIter_reset: back to the start, nothing else changes. */
    method Reset()
      modifies this`ptr, this`rowCalls, this`colCalls
      ensures ptr == start && rowCalls == 0 && colCalls == 0
      ensures Valid() ==> InRowWalk() && InColumnWalk()
    {
      ptr := start;
      rowCalls, colCalls := 0, 0;
    }

    /** MatrixIter_nextInRow: returns the pointer and advances it one cell. */
    method NextInRow() returns (res: int)
      modifies this`ptr, this`rowCalls
      ensures res == old(ptr) && ptr == old(ptr) + 1 && rowCalls == old(rowCalls) + 1
      ensures old(InRowWalk()) ==> InRowWalk() && res == start + old(rowCalls)
    {
      res := ptr;
      ptr := ptr + 1;
      rowCalls := rowCalls + 1;
    }

    /** MatrixIter_nextInCol: returns the pointer and moves it down a row,
        stepping back size - 1 cells when it reaches or passes the end. From a
        reset, call k (k < size) returns row k % rows of column k / rows. */
    method NextInCol() returns (res: int)
      modifies this`ptr, this`colCalls
      ensures res == old(ptr) && colCalls == old(colCalls) + 1
      ensures ptr == if old(ptr) + cols >= end then old(ptr) + cols - (size - 1) else old(ptr) + cols
      ensures old(InColumnWalk()) ==> InColumnWalk()
      ensures old(InColumnWalk()) && old(colCalls) < size ==>
        res == start + ColOffset(rows, cols, old(colCalls)) && start <= res < end
    {
      res := ptr;
      ptr := ptr + cols;
      if ptr >= end {
        ptr := ptr - (size - 1);
      }
      colCalls := colCalls + 1;
      if old(InColumnWalk()) && colCalls < size {
        ColStepWalks(rows, cols, colCalls - 1);
      }
    }
  }
}

/** The strided pointer iterator (c_extensions/iterstate.c): no operation
    checks bounds. Pointers are modelled as integer addresses. */
module IterationState {
  import opened Grid

  /** The k-th address of a strided walk hits the stop address len cells
      after the start exactly when the stride divides len and k is the
      quotient; otherwise the walk passes the stop address forever. */
  lemma StridedStops(len: int, step: int, k: nat)
    requires step > 0
    ensures k * step == len <==> len % step == 0 && k == len / step
  {
    if k * step == len {
      CellDivMod(k, 0, step);
    }
  }

  class IterState {
    var start: int
    var stop: int
    var ptr: int
    var step: int
    /** next calls since the last init or reset. */
    ghost var taken: nat

    /** The pointer has moved one stride per next call. */
    ghost predicate Tracking()
      reads this
    {
      ptr == start + taken * step
    }

    /** IterState_init: stop lies len cells after start, the pointer is at the
        start and the stride is stored. */
    method Init(start: int, len: int, step: int)
      modifies this
      ensures this.start == start && stop == start + len && ptr == start && this.step == step
      ensures taken == 0 && Tracking()
    {
      this.start := start;
      stop := start + len;
      ptr := start;
      this.step := step;
      taken := 0;
    }

    /** IterState_next: returns the pointer and advances it one stride. */
    method Next() returns (ret: int)
      modifies this`ptr, this`taken
      ensures ret == old(ptr) && ptr == old(ptr) + step && taken == old(taken) + 1
      ensures old(Tracking()) ==> Tracking()
    {
      ret := ptr;
      ptr := ptr + step;
      taken := taken + 1;
      SuccMul(old(taken), step);
    }

    /** IterState_has_next: the pointer is not at the stop address. After k
        next calls from the start with a positive stride that divides the
        length, this is false exactly when k is length / stride. */
    method HasNext() returns (b: bool)
      ensures b <==> ptr != stop
      ensures Tracking() && step > 0 ==>
        (!b <==> (stop - start) % step == 0 && taken == (stop - start) / step)
    {
      b := ptr != stop;
      if step > 0 {
        StridedStops(stop - start, step, taken);
      }
    }

    /** IterState_reset: back to the start; start, stop and stride are kept. */
    method Reset()
      modifies this`ptr, this`taken
      ensures ptr == start && taken == 0 && Tracking()
    {
      ptr := start;
      taken := 0;
    }
  }
}
