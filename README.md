# Dense matrices for a Python GAN toolkit, modelled in Dafny

The repository grows one dense-matrix type through three drafts. Around them
sit a few small C helpers from the same extension-writing exercise. This
project models:

- **The Quantum engine** (`Quantum/src/matrix.c`), module `Quantum`, with its
  specification functions in `QuantumSpec`. A `Matrix` owns a physical
  buffer plus two index functions, `row_idx` and `col_idx`, which map a
  logical position to a physical offset. Its transpose is a second object
  that shares the same buffer with the two index functions swapped. The two
  objects are linked both ways and are severed by `unbind`. The model covers:
  - the constructors (copy, scalar, flat list, nested list, gauss and uniform);
  - calling `__init__` again on a live object, and `matrix_clear`;
  - dims parsing;
  - `data` and its cache, `T`, `unbind` and `map`;
  - equality;
  - the four arithmetic operators and `@`.
- **The copying engine** (`c_extensions/matrix1.c`), module `CopyingMatrix`.
  A `Matrix` owns a plain row-major buffer. Its transpose is a transposed
  copy, made on the first request and linked both ways. The model covers the
  constructors, `__init__`, `data`, `T`, the operators and the raw-pointer
  loops behind them.
- **The first C draft** (`c_extensions/matrix.c`), module `FlatMatrix`: an
  object holding a shape and an unordered buffer filled from a flat list of
  ints. Its initialiser reports failure by returning -1.
- **The pure-Python reference** (`matrix.py`), module `PyReference`. A matrix
  is a value: dims, the constructor's list, and whether the iterator
  factories are swapped. The model also includes the cases from
  `tests/matrix_test.py`, stated as lemmas.
- **The pointer iterators** `c_extensions/matrix_iter.c` and
  `c_extensions/iterstate.c`, modules `MatrixIterator` and `IterationState`.
- **The Fibonacci helpers** `c_extensions/example_module.c` and
  `c_extensions/fib.py`, module `Fibonacci`.

Three modules are shared by the drafts:

- `Grid` holds index arithmetic.
- `Dense` holds the mathematical matrix: dot products, rows, columns, the
  product, the transpose and element-wise operators.
- `Indexing` holds the Quantum index functions. Element values are `real`
  (the sources use C `double`).

Python values are a small datatype, `Host.PyValue`. CPython exceptions are
`Host.Error` values carried in a `Result`. Pointers into buffers are modelled
as integer addresses.

What the Quantum engine's code does:

- **Copying a matrix.** `Matrix(other)` copies the *physical* buffer with
  `memcpy` and keeps the source's `row_idx`/`col_idx`, so the copy of a
  transpose view is again read column-major. Its logical contents are those
  of the source. This is `Quantum.Matrix.Copy`.
- **Detaching with `keep_data`.** `unbind` with `keep_data` copies the
  physical buffer and keeps the index functions. This is
  `Quantum.Matrix.Unbind`.
- **The column-major index function.** `_matrix_idx_col_major` evaluates
  `i * rows + (i / cols) * (1 - size)` in `size_t`, with wrap-around.
  `Indexing.ColMajorWordAgrees` proves it equals `(i % cols) * rows + i / cols`
  for every buffer that fits a 64-bit `size_t`.

## Model

| member | source | states |
|---|---|---|
| Indexing.ColMajorClosedForm | Quantum/src/matrix.c:880-882 | the column-major index function equals (i % cols) * rows + i / cols and stays inside the buffer |
| Indexing.ColMajorWordAgrees | Quantum/src/matrix.c:880-882 | evaluating the formula in 64-bit `size_t` with wrap-around gives the same offset as exact arithmetic |
| Indexing.Index | Quantum/src/matrix.c:876-882 | both index functions send a logical position into the buffer |
| Indexing.ColMajorOnVector | Quantum/src/matrix.c:880-882 | on a single row or a single column the column-major function is the identity |
| Indexing.IndexInjective | Quantum/src/matrix.c:876-882 | no two logical positions share a physical cell |
| Indexing.IndexSwap | Quantum/src/matrix.c:668-695 | cell (r, c) under one index function is cell (c, r) of the swapped view |
| Indexing.LogicalOfView | Quantum/src/matrix.c:668-695 | the logical contents of the transpose view are the transpose of the logical contents |
| Indexing.LogicalUpdate | Quantum/src/matrix.c:129-173 | writing through `row_idx` at position i changes logical element i only |
| Quantum.ParseDims | Quantum/src/matrix.c:176-217 | succeeds exactly when `QuantumSpec.Dims` accepts the tuple, and on success `dims` holds `Dims`'s value; otherwise it reports `Dims`'s error (the array may then be partly written) |
| QuantumSpec.DimsSpec | Quantum/src/matrix.c:176-217 | non-tuple or non-int entry: TypeError; more than two entries or a dim below 1: ValueError; (n,) means n x 1; () keeps the caller's default |
| Quantum.Matrix.constructor | Quantum/src/matrix.c:299-317 | a new object has zero dims, no buffer, row-major index functions, no transpose and empty caches |
| Quantum.Matrix.PartnerLinked | Quantum/src/matrix.c:668-695 | the partner of a linked header is linked back and holds the transpose of the logical contents, whatever the caches hold |
| Quantum.Matrix.PartnerValid | Quantum/src/matrix.c:668-695 | a linked transpose is itself valid and holds the transpose of the logical contents |
| Quantum.Matrix.CreateFromDims | Quantum/src/matrix.c:609-617 | a fresh row-major matrix of the given shape with a fresh buffer |
| Quantum.Matrix.GetData | Quantum/src/matrix.c:652-666 | returns a tuple already cached as it is, and otherwise the logical contents in row-major order, which it caches; on a valid header the result is the contents |
| Quantum.Matrix.GetTranspose | Quantum/src/matrix.c:668-695 | on any linked header (stale cache allowed): returns the cached partner, or makes one that shares the buffer with swapped dims and index functions; either way it is linked both ways and holds the transpose, and both are valid when the header was |
| Quantum.Matrix.Unbind | Quantum/src/matrix.c:571-590 | on any linked header: clears every cache and the link; when linked, keeps a fresh copy of the physical buffer or drops it, and leaves the former partner linked to nothing on the old buffer (valid when the header was) |
| Quantum.Matrix.Map | Quantum/src/matrix.c:129-173 | on any linked header: detaches, then writes f(item i of the `data` tuple) in place through `row_idx` up to the first callback that fails (ValueError) or returns a non-number (TypeError); the elements before it are mapped and the rest keep their old values; on a valid header the tuple is the contents |
| Quantum.Matrix.MapInPlace | Quantum/src/matrix.c:139-168 | the loop of `map`: element i becomes f(item i) up to the first failing callback, whose kind decides the error |
| Quantum.StaleMapAfterReinit | Quantum/src/matrix.c:138-168 | after `m = Matrix([1, 2]); m.data; m.__init__([3, 4])`, `m.map(lambda x: x + 10)` leaves 11, 12 in the buffer |
| QuantumSpec.FirstFailure | Quantum/src/matrix.c:137-166 | the position of the first failing callback: every earlier one succeeded |
| QuantumSpec.FirstFailureAt | Quantum/src/matrix.c:137-166 | any position before which all callbacks succeed, and at which one fails, is the first failure |
| Quantum.Matrix.Copy | Quantum/src/matrix.c:424-434 | from any well-shaped source: a fresh matrix with the same shape, the same index functions, a byte-for-byte copy of the physical buffer and the same logical contents |
| Quantum.Matrix.InitFromScalar | Quantum/src/matrix.c:436-451 | succeeds exactly when `QuantumSpec.FromScalar` does and holds its value |
| Quantum.Matrix.InitFromFlat | Quantum/src/matrix.c:453-483 | succeeds exactly when `QuantumSpec.FromFlat` does, holds its value and otherwise returns its error |
| Quantum.Matrix.InitFromNested | Quantum/src/matrix.c:485-557 | succeeds exactly when `QuantumSpec.FromNested` does, holds its value and otherwise returns its error |
| QuantumSpec.BuildShape | Quantum/src/matrix.c:353-396 | every matrix a constructor builds has positive dims and rows * cols elements |
| QuantumSpec.ScalarFills | Quantum/src/matrix.c:436-451 | a scalar fills every cell; without dims the matrix is 1 x 1 |
| QuantumSpec.FlatListSpec | Quantum/src/matrix.c:453-483 | a flat list is accepted exactly when the dims hold all N items and each is a number; element k is item k; default shape N x 1 |
| QuantumSpec.NestedListSpec | Quantum/src/matrix.c:485-557 | a nested list is accepted exactly when the first row is non-empty, explicit dims match, and every row is a list of that length holding numbers; cell (r, c) is item c of row r |
| Quantum.Matrix.Init | Quantum/src/matrix.c:353-396 | on a new object: a matrix argument is copied with its index functions; any other argument gives what `QuantumSpec.Build` gives, error included |
| Quantum.Matrix.Clear | Quantum/src/matrix.c:403-416 | a linked header is unlinked and loses its buffer and caches, leaving the partner valid and otherwise unchanged; an unshared header loses only its buffer and keeps its cached tuple, strings and index functions |
| Quantum.Matrix.ReinitAsWritten | Quantum/src/matrix.c:353-396 | `__init__` on a live object: clears it, then installs the new shape and buffer (a copy, or what `QuantumSpec.Build` gives, error included); an unshared header keeps its old caches, and a built value keeps the old index functions |
| Quantum.Matrix.Reinit | Quantum/src/matrix.c:353-416 | corrected re-initialisation: on success the header is valid and holds exactly what a fresh constructor call holds; errors are `QuantumSpec.Build`'s |
| Quantum.StaleDataAfterReinit | Quantum/src/matrix.c:403-416 | after `m = Matrix([1, 2]); m.data; m.__init__([3, 4])` the buffer holds 3, 4 but `m.data` still returns (1, 2) |
| Quantum.ScrambledViewAfterReinit | Quantum/src/matrix.c:436-483 | a transpose view re-initialised with 1..6 and dims (2, 3) reads (1, 3, 5, 2, 4, 6) |
| Quantum.Matrix.Gauss | Quantum/src/matrix.c:64-88 | dims default to (1, 1) and element i is sample i |
| Quantum.Matrix.Uniform | Quantum/src/matrix.c:90-127 | lower above upper is a ValueError; otherwise as gauss |
| Quantum.NotEqual | Quantum/src/matrix.c:592-600 | true exactly when the shapes differ or some logical element differs |
| Quantum.RichCompare | Quantum/src/matrix.c:319-351 | == and != against a matrix compare shape and logical contents; any other comparison or operand is a TypeError |
| Quantum.Matrix.Merge | Quantum/src/matrix.c:785-795 | different shapes: ValueError; division with a zero in the divisor: ZeroDivisionError; otherwise a fresh matrix holding the element-wise result in logical order |
| Quantum.Matrix.ScalarMul | Quantum/src/matrix.c:797-805 | a fresh matrix holding every element times k |
| Quantum.Matrix.ScalarDiv | Quantum/src/matrix.c:807-821 | division by zero is a ZeroDivisionError; otherwise every element divided by k |
| Quantum.Binary | Quantum/src/matrix.c:698-737 | the operators dispatch as `QuantumSpec` states: matrix with matrix merges or multiplies, a number scales on either side of *, a matrix over a number divides, anything else is a TypeError |
| Quantum.ScalarMulCommutes | Quantum/src/matrix.c:710-719 | k * m and m * k give the same matrix |
| Quantum.NumberOverMatrix | Quantum/src/matrix.c:730-737 | number / matrix is a TypeError; matrix / number fails exactly when the number is zero |
| Quantum.MergeOfTransposes | Quantum/src/matrix.c:785-795 | merging two transposes succeeds exactly when merging the originals does, and gives the transpose of that result |
| Quantum.Matrix.MatMulAsWritten | Quantum/src/matrix.c:742-782 | with matching inner dims, the code computes row r of a dotted with row c of b's column reads (`WrittenProduct`); otherwise ValueError |
| Quantum.Matrix.AccumulateWritten | Quantum/src/matrix.c:764-775 | the inner loop stores that dot product in one output cell and changes no other cell |
| QuantumSpec.WrittenProductCell | Quantum/src/matrix.c:764-775 | cell (r, c) of the as-written product is the dot product of row r of a with row c of the column reads |
| QuantumSpec.WrittenProductOfTranspose | Quantum/src/matrix.c:764-775 | when the column reads are the transpose of b, the as-written loop computes the true product |
| QuantumSpec.ColumnReadsAreTranspose | Quantum/src/matrix.c:770-771 | reading b through `col_idx` gives the transpose of b whenever b is a transpose view, square, or a single row or column |
| QuantumSpec.ColumnReadsDifferOtherwise | Quantum/src/matrix.c:770-771 | in every other case (row-major, both dims at least 2, not square) the reads are not the transpose: a buffer holding 0, 1, 2, ... differs at position 1 |
| QuantumSpec.WrittenProductCounterexample | Quantum/src/matrix.c:770-771 | [[1, 0]] @ [[1, 2, 3], [4, 5, 6]] as written gives [1, 5, 4], while the product is [1, 2, 3] |
| Quantum.MatMulCorrectWhen | Quantum/src/matrix.c:742-782 | the code's product is the true product whenever b is a transpose view, square, or a single row or column |
| Quantum.Matrix.MatMul | Quantum/src/matrix.c:742-782 | corrected: with matching inner dims, a fresh matrix holding the true product; otherwise ValueError |
| Quantum.Matrix.Accumulate | Quantum/src/matrix.c:764-775 | corrected inner loop: one output cell gets row r of a dotted with column c of b; no other cell changes |
| Host.Convert | c_extensions/matrix1.c:394-405 | converting a list of items succeeds exactly when every item is accepted (an int, or, where floats are allowed, a float), and keeps each value in order |
| Host.StoreRow | c_extensions/matrix1.c:394-405 | copies one row into the buffer at its offset exactly when every item converts; cells before the offset are untouched |
| Host.StoreRows | c_extensions/matrix1.c:375-406 | fills the buffer row by row; succeeds exactly when `FlattenRows` does and then holds its value, otherwise reports the first row's error |
| Host.FlattenRowsOk | c_extensions/matrix1.c:375-406 | flattening succeeds exactly when every row is a list of the right length with accepted items |
| Host.FlattenRowsValues | c_extensions/matrix1.c:375-406 | on success the result has rows * cols elements and cell (r, c) is item c of row r |
| Host.FlattenRowsError | c_extensions/matrix1.c:375-406 | on failure the error is that of the first bad row |
| CopyingMatrix.LoadedDims | c_extensions/matrix1.c:182-209 | rows and then cols must be ints (TypeError) and both positive (ValueError) |
| CopyingMatrix.Matrix.constructor | c_extensions/matrix1.c:310-323 | a new object has zero dims, no buffer, no transpose and no cached data |
| CopyingMatrix.Matrix.PartnerValid | c_extensions/matrix1.c:264-294 | a linked transpose is valid and transposing its buffer back gives this buffer |
| CopyingMatrix.Matrix.LoadDims | c_extensions/matrix1.c:182-209 | stores each dim once it is known to be an int, and the size only once both pass |
| CopyingMatrix.Matrix.Fresh | c_extensions/matrix1.c:161-169 | a fresh matrix of the given shape with a fresh buffer |
| CopyingMatrix.Matrix.FromZeros | c_extensions/matrix1.c:6-21 | delivers `Zeros`: the dims checks, then rows * cols zeros |
| CopyingMatrix.ZerosAreFilledWithZero | c_extensions/matrix1.c:6-57 | zeros(r, c) is value(r, c, 0) |
| CopyingMatrix.Matrix.FromValue | c_extensions/matrix1.c:23-57 | delivers `Filled`: the value must be a number (NotImplementedError), checked before the dims |
| CopyingMatrix.FilledSpec | c_extensions/matrix1.c:23-57 | value(r, c, v) succeeds exactly when v is a number and the dims load, and every element is v |
| CopyingMatrix.Matrix.FromList | c_extensions/matrix1.c:59-110 | delivers `FromArray`: dims, then a list (TypeError) of exactly rows * cols numbers (ValueError, NotImplementedError) |
| CopyingMatrix.FromArraySpec | c_extensions/matrix1.c:59-110 | from_array succeeds exactly when the dims load and the list holds rows * cols numbers; element k is item k |
| CopyingMatrix.Matrix.Init | c_extensions/matrix1.c:325-408 | succeeds exactly when `FromRows` does and then holds its value; otherwise reports its error; this matrix's link and cache are cleared, while a former transpose keeps its link back to it |
| CopyingMatrix.Matrix.Reinit | c_extensions/matrix1.c:325-436 | corrected `__init__`: as Init, and the former transpose's link back is cleared too, leaving it a valid matrix on its own |
| CopyingMatrix.StaleTransposeAfterInit | c_extensions/matrix1.c:428-436 | after `m = Matrix([[1, 2]]); t = m.T; m.__init__([[5, 6, 7]])`, `t.T` is m itself, holding [[5, 6, 7]], not the transpose of t |
| CopyingMatrix.FromRowsSpec | c_extensions/matrix1.c:325-408 | `__init__` accepts exactly a non-empty list whose first row is a non-empty list and whose every row is a list of that length holding ints; cell (i, j) is item j of row i |
| CopyingMatrix.Matrix.GetData | c_extensions/matrix1.c:246-262 | on any coherent matrix, linked or not: returns the buffer's contents and caches them |
| CopyingMatrix.Matrix.GetTranspose | c_extensions/matrix1.c:264-294 | returns whatever the link holds, or a fresh matrix holding the transposed copy, linked both ways; on a valid matrix the result is always its linked transpose |
| CopyingMatrix.Matrix.CopyTransposed | c_extensions/matrix1.c:277-286 | the pointer walk writes exactly the transpose of the source into the destination |
| CopyingMatrix.Matrix.CopyRow | c_extensions/matrix1.c:280-285 | one row of the walk writes that row's column of the transpose; the source pointer ends one row on and the transpose pointer rows * cols cells on, which the rewind brings to the next column |
| CopyingMatrix.TransposeTwice | c_extensions/matrix1.c:264-294 | transposing twice gives back the matrix |
| CopyingMatrix.Matrix.Compress | c_extensions/matrix1.c:463-519 | the element-wise loop fails exactly when dividing by a zero, and otherwise writes the element-wise result |
| CopyingMatrix.MergeOf | c_extensions/matrix1.c:463-475 | a merge result has the operands' shape |
| CopyingMatrix.Matrix.Merge | c_extensions/matrix1.c:463-475 | delivers `MergeOf`: different shapes are a ValueError, a zero divisor a ZeroDivisionError |
| CopyingMatrix.SubThenAddBack | c_extensions/matrix1.c:477-495 | (x - y) + y == x |
| CopyingMatrix.Matrix.ScalarMultiply | c_extensions/matrix1.c:521-529 | a fresh matrix holding every element times k |
| CopyingMatrix.Matrix.ScalarDivide | c_extensions/matrix1.c:531-543 | delivers `DividedOf`: zero is a ZeroDivisionError, otherwise every element divided by k |
| CopyingMatrix.ScaleThenDivideBack | c_extensions/matrix1.c:521-543 | (x * k) / k == x for k other than zero |
| CopyingMatrix.ProductOf | c_extensions/matrix1.c:600-643 | the product exists exactly when the inner dims match and has shape rows(x) x cols(y) |
| CopyingMatrix.Matrix.MatMul | c_extensions/matrix1.c:600-643 | delivers `ProductOf`: the textbook product, or ValueError |
| CopyingMatrix.Matrix.ProductRow | c_extensions/matrix1.c:624-638 | one pass of the while loop fills row r of the result with the true product, keeps the cells before it, and leaves the left pointer one row on and the right one at column count |
| CopyingMatrix.Matrix.DotCell | c_extensions/matrix1.c:626-634 | the inner pointer loop stores row r of a dotted with column c of b in one cell, leaves every other cell alone, and ends with the pointers one row on and one column past the end |
| CopyingMatrix.ProductOfTransposes | c_extensions/matrix1.c:600-643 | yᵀ @ xᵀ exists exactly when x @ y does and equals (x @ y)ᵀ |
| CopyingMatrix.TransposeOf | c_extensions/matrix1.c:264-294 | a transpose swaps the dims and stays well shaped |
| CopyingMatrix.ArgOf | c_extensions/matrix1.c:545-598 | a matrix operand becomes its value, anything else stays a Python value |
| CopyingMatrix.Binary | c_extensions/matrix1.c:545-598 | the operators dispatch as `BinaryOf` states |
| CopyingMatrix.ScalarOperands | c_extensions/matrix1.c:565-598 | k * m equals m * k; number / matrix is a TypeError; matrix / number fails exactly when the number is zero |
| FlatMatrix.IntPrefix | c_extensions/matrix.c:68-73 | the length of the longest run of ints at the head of the list |
| FlatMatrix.Matrix.constructor | c_extensions/matrix.c:33-43 | a new object has zero dims, zero length and no buffer |
| FlatMatrix.Matrix.Init | c_extensions/matrix.c:45-75 | returns 0 exactly for positive dims and a list of rows * cols ints, then holding them in order; otherwise -1, with the dims stored, the length stored once the data is a list, and the ints before the first non-int copied |
| FlatMatrix.AcceptedAgreesWithFromArray | c_extensions/matrix.c:45-75 | this initialiser accepts exactly the int-only lists that the copying engine's from_array accepts, with the same elements |
| PyReference.New | matrix.py:12-34 | the constructor accepts exactly positive dims (ValueError otherwise) and keeps the list as given |
| PyReference.Data | matrix.py:73-75 | reading the elements fails with IndexError exactly when the list is shorter than rows * cols |
| PyReference.Len | matrix.py:41-42 | the length is rows * cols, the number of elements `data` yields |
| PyReference.Compress | matrix.py:104-112 | a combined matrix has the operands' shape |
| PyReference.CompressSpec | matrix.py:104-112 | different shapes are a ValueError; otherwise the result is f applied to each pair of elements in order |
| PyReference.OperatorsAreMerges | matrix.py:45-54 | +, - and * are element-wise |
| PyReference.MatMul | matrix.py:63-70 | a product has shape rows(a) x cols(b) |
| PyReference.MatMulSpec | matrix.py:63-70 | mismatched inner dims are a ValueError; otherwise the elements are the textbook product |
| PyReference.T | matrix.py:78-82 | a transpose is a matrix of the same kind |
| PyReference.TransposeSpec | matrix.py:78-82 | the transpose swaps the dims, shares the list and yields the transposed elements |
| PyReference.TransposeTwice | matrix.py:78-82 | transposing twice gives back the same matrix |
| PyReference.EqSpec | matrix.py:57-60 | == holds exactly when the dims and all elements agree |
| PyReference.EqFromSpec | matrix.py:57-60 | the element-by-element comparison from position i decides whether the suffixes agree |
| PyReference.ContentsAt | matrix.py:73-82 | element i is the list item the iterator reads, row-major or down the columns |
| PyReference.ConstSpec | matrix.py:89-96 | const(r, c, v) holds r * c copies of v; non-positive dims are a ValueError |
| PyReference.ProductOfConstants | matrix.py:63-70 | the product of two constant matrices is the constant K * x * y |
| PyReference.ZerosAndConstHoldTheirValue | tests/matrix_test.py:10-15 | zeros(3, 3) yields nine zeros and const(3, 3, 5) nine fives |
| PyReference.NegativeRowsRejected | tests/matrix_test.py:18-23 | const(-1, 3, 4) is rejected |
| PyReference.ConstTimesConst | tests/matrix_test.py:26-31 | const(4, 6, 3) @ const(6, 5, 4) equals const(4, 5, 72) |
| PyReference.SquareOfThreeByThree | tests/matrix_test.py:34-46 | the square of [[1, 2, 3], [4, 5, 6], [7, 8, 9]] is [[30, 36, 42], [66, 81, 96], [102, 126, 150]] |
| PyReference.IncompatibleMatMulRejected | tests/matrix_test.py:49-56 | const(6, 5) @ const(4, 6) is a ValueError |
| PyReference.AddToItself | tests/matrix_test.py:59-71 | adding [[1..9]] to itself doubles every element |
| PyReference.IncompatibleAddRejected | tests/matrix_test.py:74-81 | adding a 4 x 6 to a 6 x 5 matrix is a ValueError |
| PyReference.TransposeOfThreeByThree | tests/matrix_test.py:84-96 | the transpose of [[1..9]] is [[1, 4, 7], [2, 5, 8], [3, 6, 9]] |
| MatrixIterator.ColOffset | c_extensions/matrix_iter.c:32-39 | element k of the column walk lies inside the buffer |
| MatrixIterator.ColStepWalks | c_extensions/matrix_iter.c:32-39 | one nextInCol step moves the walk from element k to element k + 1 |
| MatrixIterator.ColWalkIsTransposeView | c_extensions/matrix_iter.c:32-39 | the column walk reads the buffer in the order of a column-major transpose view |
| MatrixIterator.ColWalkVisitsOnce | c_extensions/matrix_iter.c:32-39 | the first rows * cols steps visit every cell exactly once |
| MatrixIterator.ColWalkAfterLast | c_extensions/matrix_iter.c:32-39 | the step after the last cell lands on start + cols, not back on the start (for a one-row matrix this is the end address) |
| MatrixIterator.MatrixIter.Init | c_extensions/matrix_iter.c:13-20 | size is rows * cols, end is size cells after the start, and the pointer is at the start |
| MatrixIterator.MatrixIter.Reset | c_extensions/matrix_iter.c:22-24 | the pointer goes back to the start, which starts a fresh walk |
| MatrixIterator.MatrixIter.NextInRow | c_extensions/matrix_iter.c:26-30 | returns the pointer and advances it one cell; from a reset, call k returns start + k |
| MatrixIterator.MatrixIter.NextInCol | c_extensions/matrix_iter.c:32-39 | returns the pointer and moves it down a row, or back to the top of the next column; from a reset, call k < size returns row k % rows of column k / rows, inside the buffer |
| IterationState.StridedStops | c_extensions/iterstate.c:19-27 | the k-th stride lands on the stop address exactly when the stride divides the length and k is the quotient |
| IterationState.IterState.Init | c_extensions/iterstate.c:12-17 | stop lies len cells after start; the pointer is at the start |
| IterationState.IterState.Next | c_extensions/iterstate.c:19-23 | returns the pointer and advances it one stride |
| IterationState.IterState.HasNext | c_extensions/iterstate.c:25-27 | true exactly while the pointer is not at the stop address; with a positive stride it becomes false exactly after length / stride calls, and never when the stride does not divide the length |
| IterationState.IterState.Reset | c_extensions/iterstate.c:30-32 | back to the start; start, stop and stride kept |
| Fibonacci.FibValue | c_extensions/example_module.c:13-16 | the value fibC computes: 0 below 1, otherwise the n-th Fibonacci number |
| Fibonacci.ShiftedStep | c_extensions/example_module.c:5-11 | one step of the recursive seq is one more step of the shifted sequence |
| Fibonacci.ShiftedIsFib | c_extensions/example_module.c:13-16 | starting from (0, 1) the shifted sequence is the Fibonacci sequence |
| Fibonacci.Seq | c_extensions/example_module.c:5-11 | seq writes the pair (F(n), F(n + 1)) of the shifted sequence into the first two slots and returns the first |
| Fibonacci.FibC | c_extensions/example_module.c:13-16 | fibC(n) is the n-th Fibonacci number (0 for n < 1) |
| Fibonacci.MySeq | c_extensions/fib.py:4-10 | mySeq adds the sum of the whole list at each step, which is the C seq with c = 0 on a two-item list |
| Fibonacci.MyFib | c_extensions/fib.py:12-14 | myFib(n) is the n-th Fibonacci number (0 for n < 1) |
| Fibonacci.IntRange | c_extensions/example_module.c:13-16 | with 32-bit int, every value fibC computes is exact up to n = 45; at n = 46 the last sum, F(47), exceeds INT_MAX |

## Left out

- CPython plumbing is not modelled: argument parsing, type objects, module
  tables, reference counts, garbage collection and leaks. Operands are
  `Host.PyValue` values or model matrices.
- Error message texts are not modelled; each error is its exception class.
- Allocation failure is not modelled: every `malloc` succeeds.
  - Quantum's `unbind` on an allocation failure, which leaves `data` null
    while still linked, is therefore not modelled.
- Floating point is not modelled. Elements are exact reals, so overflow,
  rounding and NaN are out. `PyLong_AsDouble` conversion is exact.
- Random numbers are not modelled. Quantum's gauss and uniform take their
  samples as a parameter (`samples`). The copying engine's
  `matrix_from_gauss` and `matrix_from_uniform` are not modelled: they are
  the dims checks of `LoadedDims` followed by random fills.
- `repr` and `str` text is not modelled, in all three drafts. Quantum's
  cached strings are modelled only as caches that `unbind` and `map` clear.
- The activation functions of the copying engine (`c_extensions/matrix1.c:655-759`)
  are not modelled. The same goes for its `matrix_clear` and dealloc: `clear`
  frees the buffer without nulling it, and the model has no freed state.
- `matrix.py` leaves three things unmodelled:
  - `generate` and `display` (a callback-driven fill and printing);
  - element types: the Python element type `T` is modelled as `real`;
  - `__repr__`.
- In `c_extensions/matrix.c`, the getters `getRows`/`getCols`, `Matrix_repr`
  and the number slots that return placeholder strings are not modelled.
- Quantum.Matrix.Map: a cached tuple shorter than the buffer is excluded by
  the precondition. Re-initialising to a larger size after `data` was read
  leaves one, and `matrix_map` then reads past the tuple's end, which has no
  defined result.
- Quantum.Matrix.Map: the check that the argument is callable (TypeError) is
  not modelled. `f` is always a function, returning `None` for a callback
  that raised.
- Quantum.Matrix.InitFromNested: when explicit dims are given, the code
  compares them against an uninitialised `dims_received[0]`. That
  indeterminate value is the parameter `uninit`.
- Integer widths: a single dimension beyond `long` is not modelled.
  `PyLong_AsLong` returns -1 for it (`Quantum/src/matrix.c:205`,
  `c_extensions/matrix1.c:189`, `197`), so the code raises ValueError,
  while `QuantumSpec.Dims` and `CopyingMatrix.LoadedDims` accept any
  positive int.
- Integer widths: `long` and `size_t` overflow of rows * cols, pointer
  arithmetic and iterator counters are not modelled. The exception is the
  column-major index, which `Indexing.ColMajorWordAgrees` proves correct
  under wrap-around.
- Fibonacci.FibC: computed over unbounded integers. `Fibonacci.IntRange`
  states where 32-bit `int` stops being exact. The benchmark call
  `fib(10000)` in `c_extensions/fib.py` and its timing are not modelled.
- Fibonacci.MySeq: requires at least two list items. A shorter list raises
  IndexError in Python, which is not modelled.
- Fibonacci.MySeq: recursion depth is not modelled. `mySeq(target, arr)`
  nests target + 1 calls, and CPython's default recursion limit of 1000
  raises RecursionError past it; the model returns a value for every target.
- Fibonacci.MyFib: for the same reason the model returns F(n) for every n,
  while CPython stops with RecursionError once the nesting passes the
  default limit of 1000. That includes `myFib(1000)`, which `fibPy`
  (`c_extensions/fib.py:21-22`) calls; `fibPy` itself is not modelled.
- Fibonacci.Seq: requires an array of at least two ints, as the C code
  assumes without checking.
- Quantum.Matrix.Init: models the constructor on a new object, where
  `matrix_clear` has nothing to clear. Calling `__init__` again on a live
  object is `Quantum.Matrix.ReinitAsWritten`.
- Quantum.Matrix.ReinitAsWritten: on failure, the shape fields and the
  partly filled buffer the C initialisers leave behind are not modelled,
  and neither is the dangling `data` pointer of an unshared header. The
  model promises only that the header is unlinked. Re-initialising a
  matrix from itself (`m.__init__(m)`) reads a freed buffer in C and is
  excluded by the precondition.
- FlatMatrix.Matrix.Init: takes `rows` and `cols` as already parsed `long`
  values; the parse failure of the C code is not modelled.
- The iterators model pointers as integer addresses. Dereferencing them is
  not modelled.

## Findings

| source | as written | input that shows it | evidently intended | confidence | as-written member | corrected member |
|---|---|---|---|---|---|---|
| Quantum/src/matrix.c:770-771 | the product reads `mat2` through `mat2->col_idx`, which is the column-major formula on `mat2`'s own shape; for a row-major `mat2` that is not square this reads the wrong cells | [[1, 0]] @ [[1, 2, 3], [4, 5, 6]] gives [1, 5, 4] | the textbook product [1, 2, 3]: read element (i, col) of `mat2` through `row_idx` at i * cols + col | not executed | QuantumSpec.WrittenProductCounterexample | Quantum.Matrix.MatMul |
| Quantum/src/matrix.c:403-416 | `matrix_clear` frees an unshared header's buffer but keeps the cached `data` tuple (and the `repr`/`str` strings), and `matrix_init` does not drop them either, so `data` keeps returning the old contents after `__init__` | `m = Matrix([1, 2]); m.data; m.__init__([3, 4]); m.data` gives (1, 2) while the buffer holds 3, 4 | (3, 4): re-initialisation drops the cached objects | not executed | Quantum.StaleDataAfterReinit | Quantum.Matrix.Reinit |
| Quantum/src/matrix.c:436-557 | the scalar and list initialisers set the shape and fill the buffer in row-major order but never reset `row_idx`/`col_idx`, so a former transpose view keeps the column-major function | `m = Matrix([1, 2, 3, 4, 5, 6], dims=(2, 3)); t = m.T; t.__init__([1, 2, 3, 4, 5, 6], dims=(2, 3)); t.data` gives (1, 3, 5, 2, 4, 6) | (1, 2, 3, 4, 5, 6): a built value is read row-major | not executed | Quantum.ScrambledViewAfterReinit | Quantum.Matrix.Reinit |
| Quantum/src/matrix.c:138-168 | `matrix_map` maps the items of the tuple `matrix_get_data` returns, which after re-initialisation is the stale cached one, and writes the results over the new buffer | `m = Matrix([1, 2]); m.data; m.__init__([3, 4]); m.map(lambda x: x + 10)` leaves 11, 12; with `m.__init__([3, 4, 5, 6])` it reads past the 2-item tuple | 13, 14: re-initialisation drops the cached tuple, so `map` sees the new contents | not executed | Quantum.StaleMapAfterReinit | Quantum.Matrix.Reinit |
| c_extensions/matrix1.c:428-436 | `matrix_clear`, which `__init__` calls first, drops only this matrix's `transpose`; the former transpose keeps its link back, and `matrix_get_transpose` (264-265) returns it | `m = Matrix([[1, 2]]); t = m.T; m.__init__([[5, 6, 7]]); t.T` returns m, now [[5, 6, 7]] | [[1, 2]]: the former transpose's link is cleared and `t.T` builds a fresh transpose of t | not executed | CopyingMatrix.StaleTransposeAfterInit | CopyingMatrix.Matrix.Reinit |
