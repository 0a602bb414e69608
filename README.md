# Hana sandbox matrix, modelled in Dafny

`test/sandbox/matrix.cpp` in Boost.Hana builds a small immutable matrix
on top of the library's lists. A matrix stores a list of rows. Each row is a
list of cells. The file defines:

- the constructors `row`, `matrix` and `vector`;
- the accessors `rows()`, `columns()`, `size()` and `at(i, j)`;
- `transpose`;
- `elementwise(f)` and the operators `+ - * /` built on it;
- `fmap`, the Functor instance;
- `==`, the Comparable instance.

Every operation makes a new storage list from the old one. Nothing is
changed in place.

The model has three modules:

- `Lists` (`lists.dfy`): the list algorithms the matrix uses (`fmap`,
  `zip_with`, `zip`, `all`), written as recursive functions on sequences.
  Each one has a contract that states the result element by element.
- `Matrices` (`matrix.dfy`): `Matrix<T>` is a datatype over
  `seq<seq<T>>`. It has the accessors as member functions, the
  constructors, and the operations with their contracts. Beside them are
  the lemmas: transposing twice is the identity, the functor laws,
  equality is cellwise, `m + m` doubles every cell, `m - m` is zero, and
  subtraction undoes addition.
- `MatrixTests` (`matrix_tests.dfy`): the file's seven test functions,
  stated as lemmas about concrete matrices.

`row(entries...)` only packs its arguments into a list, so the model writes
a row as the sequence display `[entries...]`.

Four behaviours of the source that are easy to get wrong:

- Transposing twice gives back the matrix only when it has at least one
  column. `zip` over rows with no cells returns no rows at all. That
  result has no first row, so `columns()` cannot be taken on it
  (`TransposeOfColumnless`).
- `elementwise` does not check the shapes of its operands. Its equal-shape
  requirement is a precondition (`SameShape`), not an error result.
- `==` compares whole rows as lists. So two matrices are equal exactly
  when their storages are equal (`Equal`). For rectangular matrices this
  is the same as equal shape plus equal cells (`EqualCellwise`).
- `matrix()` with no rows is refused, just like ragged rows. It takes
  `head` and `tail` of its row list, and both fail on an empty list.

## Model

| member | source | states |
|---|---|---|
| `Lists.Map` | test/sandbox/matrix.cpp:89 | list `fmap`: same length, element `i` is `f` of element `i` |
| `Lists.ZipWith` | test/sandbox/matrix.cpp:45 | list `zip_with` on equal-length lists: same length, element `i` is `f(a[i], b[i])` |
| `Lists.All` | test/sandbox/matrix.cpp:73-75 | `all(p, s)` holds exactly when every element satisfies `p` |
| `Lists.Zip` | test/sandbox/matrix.cpp:39 | `zip` of lists of a common length `n`: `n` lists, each as long as the argument count, with `r[j][i] == lists[i][j]` |
| `Matrices.Matrix.Rows` | test/sandbox/matrix.cpp:27-28 | the row count; it is zero only for empty storage |
| `Matrices.Matrix.Columns` | test/sandbox/matrix.cpp:24-25 | the length of the first row; in a rectangular matrix, every row has that many cells |
| `Matrices.Matrix.Size` | test/sandbox/matrix.cpp:30-31 | `rows() * columns()`; in a rectangular matrix this is the number of cells counted row by row |
| `Matrices.Matrix.At` | test/sandbox/matrix.cpp:33-35 | for `i < rows()` and `j` inside row `i`, the result is a cell of row `i` |
| `Matrices.MatrixOf` | test/sandbox/matrix.cpp:71-80 | succeeds exactly when there is at least one row and every row is as long as the first; the matrix stores exactly the given rows; zero rows gives `NoRows` |
| `Matrices.MatrixOfAccessors` | test/sandbox/matrix.cpp:24-35 | a built matrix has `rows()` = number of rows, `columns()` = length of the first row, `size()` = their product, and `at(i, j)` = the cell supplied at row `i`, column `j` |
| `Matrices.UniformCellCount` | test/sandbox/matrix.cpp:30-31 | rows that all have `n` cells hold `rows * n` cells (the partner of `size()`) |
| `Matrices.Vector` | test/sandbox/matrix.cpp:82 | succeeds exactly when there is at least one entry; the result is rectangular, `n` by 1, with `at(i, 0)` = entry `i` |
| `Matrices.Transpose` | test/sandbox/matrix.cpp:38-41 | rows = `m.columns()`, each row has `m.rows()` cells, `at(j, i)` = `m.at(i, j)`, rectangular with columns = `m.rows()` when `m` has a column |
| `Matrices.TransposeTranspose` | test/sandbox/matrix.cpp:38-41 | transposing twice gives back every rectangular matrix with at least one column |
| `Matrices.TransposeOfColumnless` | test/sandbox/matrix.cpp:38-41 | a matrix with no columns transposes to empty storage, which is not a valid matrix |
| `Matrices.Elementwise` | test/sandbox/matrix.cpp:43-48 | on same-shaped operands whose cell pairs `f` accepts: result has the first operand's shape, cell `(i, j)` = `f(a.at(i, j), b.at(i, j))`, and stays rectangular |
| `Matrices.Add` | test/sandbox/matrix.cpp:50-52 | same shape, each cell is the sum of the operands' cells |
| `Matrices.Sub` | test/sandbox/matrix.cpp:54-56 | same shape, each cell is the difference of the operands' cells |
| `Matrices.Mul` | test/sandbox/matrix.cpp:58-60 | same shape, each cell is the product of the operands' cells (not the matrix product) |
| `Matrices.Div` | test/sandbox/matrix.cpp:62-64 | `Elementwise` of `TruncDiv`, like the other three operators; same shape and a divisor with no zero cell: each cell is the truncating quotient of the operands' cells |
| `Matrices.TruncDiv` | test/sandbox/matrix.cpp:64 | the scalar `_/_` on `int` cells: the quotient is non-negative when the operands have the same sign and non-positive otherwise; `TruncDivRemainder` characterises it fully |
| `Matrices.TruncDivRemainder` | test/sandbox/matrix.cpp:62-64 | the quotient used by `/` leaves a remainder smaller in magnitude than the divisor, with the dividend's sign or zero (C++ integer division) |
| `Matrices.TruncDivNatural` | test/sandbox/matrix.cpp:62-64 | on a non-negative dividend and a positive divisor that quotient is ordinary division |
| `Matrices.AddSelfDoubles` | test/sandbox/matrix.cpp:163-164 | `m + m` is `m` with every cell doubled |
| `Matrices.SubSelfZero` | test/sandbox/matrix.cpp:165 | `m - m` has the shape of `m` and zero in every cell |
| `Matrices.SubUndoesAdd` | test/sandbox/matrix.cpp:50-56 | `(a + b) - b == a` for same-shaped operands |
| `Matrices.MulByOnes` | test/sandbox/matrix.cpp:58-60 | multiplying cellwise by a same-shaped matrix of ones gives the matrix back |
| `Matrices.DivByOnes` | test/sandbox/matrix.cpp:62-64 | dividing cellwise by a same-shaped matrix of ones gives the matrix back |
| `Matrices.Fmap` | test/sandbox/matrix.cpp:86-91 | same shape, cell `(i, j)` = `f(m.at(i, j))`, stays rectangular |
| `Matrices.FmapIdentity` | test/sandbox/matrix.cpp:86-91 | mapping the identity gives the matrix back |
| `Matrices.FmapComposition` | test/sandbox/matrix.cpp:86-91 | mapping `f` and then `g` equals mapping `g ∘ f` |
| `Matrices.Equal` | test/sandbox/matrix.cpp:97-101 | on matrices with at least one row: true exactly when the two storages are equal |
| `Matrices.CellwiseEqual` | test/sandbox/matrix.cpp:97-101 | same shape and equal cells at every position imply the matrices are equal |
| `Matrices.EqualCellwise` | test/sandbox/matrix.cpp:97-101 | for rectangular matrices: equal exactly when rows, columns and every pair of cells agree, so one differing cell or a differing shape makes them unequal |
| `Matrices.EqualIsEquivalence` | test/sandbox/matrix.cpp:94-102 | equality is reflexive, symmetric and transitive |
| `MatrixTests.TestSizes` | test/sandbox/matrix.cpp:106-114 | a 2 by 3 matrix has size 6, 3 columns and 2 rows |
| `MatrixTests.TestAt` | test/sandbox/matrix.cpp:116-133 | each of the nine cells of a 3 by 3 matrix reads back as supplied |
| `MatrixTests.TestComparable` | test/sandbox/matrix.cpp:135-145 | `MatrixOf` accepts every operand, and the seven equal / unequal comparisons of the test hold |
| `MatrixTests.TestFunctor` | test/sandbox/matrix.cpp:147-160 | both matrices are accepted by `MatrixOf`; adding one to every cell of the first gives the second |
| `MatrixTests.TestOperators` | test/sandbox/matrix.cpp:162-166 | all three matrices are accepted by `MatrixOf`; `m + m` and `m - m` on the 2 by 2 matrix give the expected ones |
| `MatrixTests.TestVector` | test/sandbox/matrix.cpp:168-173 | a four-entry vector has size 4, 4 rows and 1 column |
| `MatrixTests.TestTranspose` | test/sandbox/matrix.cpp:175-187 | both matrices are accepted by `MatrixOf`; the 2 by 3 one transposes to the 3 by 2 one |

## Left out

- Per-cell heterogeneity: the source mixes `int`, `char` and Hana's
  compile-time constants (`int_<7>`, `char_<'5'>`) in one matrix. The model
  has a single cell type `T`, and the arithmetic uses `int`. The test lemmas
  replace character cells with the integers they spell.
- Floating-point cells (`9.3`, `2.2`, `4.2f`) appear only in the tests.
  The test lemmas use integers in their place.
- Compile-time checking: `static_assert`, `BOOST_HANA_STATIC_ASSERT`, the
  `operators::enable` template parameter and the `main` driver. A rejected
  `matrix(...)` becomes an `Err` result. A test assertion becomes a lemma.
- Hana's own list algorithms are not modelled. `Lists` gives each one the
  meaning the matrix relies on on well-shaped input. On lists of unequal
  length it makes no claim, because it imposes an equal-length precondition.
- `Matrices.Elementwise`: the source accepts any number of matrices. The
  model combines exactly two, the arity the operators use.
- `Matrices.Matrix.At`: its own contract only places the cell in row `i`.
  That the cell is exactly the one supplied at `(i, j)` is stated by
  `MatrixOfAccessors`.
- `Matrices.Equal`: like `columns()`, it needs both matrices to have at
  least one row (`head` of an empty list is ill-formed). The model states
  nothing for empty storage.
- `Matrices.Div`: division by a zero cell is undefined in C++. The model
  excludes it with the `NoZeroCell` precondition.
- `Matrices.Add`, `Matrices.Sub`, `Matrices.Mul`, `Matrices.Div`,
  `Matrices.TruncDiv`: the cells are unbounded integers. C++ `int` cells
  have a fixed width. Signed overflow, including `INT_MIN / -1`, is
  undefined behaviour there and is ill-formed in a constant expression.
  So `AddSelfDoubles`, `SubUndoesAdd`, `MulByOnes` and `DivByOnes` hold
  for the C++ operators only when no cell operation overflows.
