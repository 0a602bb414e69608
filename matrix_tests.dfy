/**
  The concrete cases from the matrix test functions, stated as lemmas over
  integer cells (the character and floating-point cells of the C++ tests are
  replaced by the integers they spell). Every operand is built with
  `MatrixOf`, as the C++ tests build theirs with `matrix(...)`.
 */
module MatrixTests {
  import opened Matrices

  /** The matrix `matrix(rows...)` builds from rows it accepts. */
  function Built(rows: seq<seq<int>>): Matrix<int>
    requires MatrixOf(rows).Ok?
  {
    MatrixOf(rows).value
  }

  /** `test_sizes`: a 2 by 3 matrix has 6 cells. */
  lemma TestSizes()
    ensures var r := MatrixOf([[1, 2, 3], [4, 5, 6]]);
      r.Ok? && r.value.Size() == 6 && r.value.Columns() == 3 && r.value.Rows() == 2
  {
  }

  /** `test_at`: every cell of a 3 by 3 matrix is read back where it was placed. */
  lemma TestAt()
    ensures var r := MatrixOf([[1, 2, 3], [4, 5, 6], [7, 8, 9]]);
      && r.Ok?
      && r.value.At(0, 0) == 1 && r.value.At(0, 1) == 2 && r.value.At(0, 2) == 3
      && r.value.At(1, 0) == 4 && r.value.At(1, 1) == 5 && r.value.At(1, 2) == 6
      && r.value.At(2, 0) == 7 && r.value.At(2, 1) == 8 && r.value.At(2, 2) == 9
  {
  }

  /** `test_comparable`: equal matrices compare equal; one differing cell or a differing shape makes them unequal. */
  lemma TestComparable()
    ensures MatrixOf([[1, 2]]).Ok? && MatrixOf([[1, 5]]).Ok?
    ensures MatrixOf([[1, 2], [3, 4]]).Ok? && MatrixOf([[1, 2], [0, 4]]).Ok? && MatrixOf([[0, 2], [3, 4]]).Ok?
    ensures MatrixOf([[1], [2]]).Ok? && MatrixOf([[3, 4], [5, 6]]).Ok? && MatrixOf([[3, 4]]).Ok?
    ensures Equal(Built([[1, 2]]), Built([[1, 2]]))
    ensures !Equal(Built([[1, 2]]), Built([[1, 5]]))
    ensures Equal(Built([[1, 2], [3, 4]]), Built([[1, 2], [3, 4]]))
    ensures !Equal(Built([[1, 2], [3, 4]]), Built([[1, 2], [0, 4]]))
    ensures !Equal(Built([[1, 2], [3, 4]]), Built([[0, 2], [3, 4]]))
    ensures !Equal(Built([[1], [2]]), Built([[3, 4], [5, 6]]))
    ensures !Equal(Built([[1], [2]]), Built([[3, 4]]))
  {
    assert Built([[1, 2]]).At(0, 1) != Built([[1, 5]]).At(0, 1);
    assert Built([[1, 2], [3, 4]]).At(1, 0) != Built([[1, 2], [0, 4]]).At(1, 0);
    assert Built([[1, 2], [3, 4]]).At(0, 0) != Built([[0, 2], [3, 4]]).At(0, 0);
  }

  /** `test_functor`: adding one to every cell of a 3 by 3 matrix. */
  lemma TestFunctor()
    ensures MatrixOf([[1, 2, 3], [4, 5, 6], [7, 8, 9]]).Ok? && MatrixOf([[2, 3, 4], [5, 6, 7], [8, 9, 10]]).Ok?
    ensures Equal(Fmap((x: int) => x + 1, Built([[1, 2, 3], [4, 5, 6], [7, 8, 9]])),
                  Built([[2, 3, 4], [5, 6, 7], [8, 9, 10]]))
  {
    var m := Built([[1, 2, 3], [4, 5, 6], [7, 8, 9]]);
    CellwiseEqual(Fmap((x: int) => x + 1, m), Built([[2, 3, 4], [5, 6, 7], [8, 9, 10]]));
  }

  /** `test_operators`: `m + m` and `m - m` on a 2 by 2 matrix. */
  lemma TestOperators()
    ensures MatrixOf([[1, 2], [3, 4]]).Ok? && MatrixOf([[2, 4], [6, 8]]).Ok? && MatrixOf([[0, 0], [0, 0]]).Ok?
    ensures var m := Built([[1, 2], [3, 4]]);
      && Equal(Add(m, m), Built([[2, 4], [6, 8]]))
      && Equal(Sub(m, m), Built([[0, 0], [0, 0]]))
  {
    var m := Built([[1, 2], [3, 4]]);
    CellwiseEqual(Add(m, m), Built([[2, 4], [6, 8]]));
    CellwiseEqual(Sub(m, m), Built([[0, 0], [0, 0]]));
  }

  /** `test_vector`: a vector of four entries is a 4 by 1 matrix. */
  lemma TestVector()
    ensures var v := Vector([1, 2, 3, 4]);
      v.Ok? && v.value.Size() == 4 && v.value.Rows() == 4 && v.value.Columns() == 1
  {
  }

  /** `test_transpose`: a 2 by 3 matrix transposes to the 3 by 2 matrix of its columns. */
  lemma TestTranspose()
    ensures MatrixOf([[1, 2, 3], [4, 5, 6]]).Ok? && MatrixOf([[1, 4], [2, 5], [3, 6]]).Ok?
    ensures Equal(Transpose(Built([[1, 2, 3], [4, 5, 6]])), Built([[1, 4], [2, 5], [3, 6]]))
  {
    var m := Built([[1, 2, 3], [4, 5, 6]]);
    var expected := Built([[1, 4], [2, 5], [3, 6]]);
    assert m.storage[0][1] == 2 && m.storage[1][2] == 6;
    CellwiseEqual(Transpose(m), expected);
  }
}
