/**
  A matrix as an immutable list of rows, each row a list of cells. Every
  operation builds a new storage list from the old one with the list
  algorithms of module Lists; nothing is ever updated in place.
 */
module Matrices {
  import opened Lists

  /** Why `MatrixOf` refuses its rows. */
  datatype ShapeError =
    | NoRows              // there is no first row to take the column count from
    | RowLengthMismatch   // some row is not as long as the first one

  datatype Result<T> = Ok(value: T) | Err(error: ShapeError)

  datatype Matrix<T> = Matrix(storage: seq<seq<T>>)
  {
    /** The shape every matrix made by `MatrixOf` has: at least one row, all as long as the first. */
    ghost predicate Rectangular()
    {
      |storage| > 0 && AllOfLength(storage, |storage[0]|)
    }

    /** The number of rows. */
    function Rows(): (n: nat)
      ensures n == 0 <==> storage == []
    {
      |storage|
    }

    /** The number of columns, read off the first row. */
    function Columns(): (n: nat)
      requires |storage| > 0
      ensures Rectangular() ==> forall i :: 0 <= i < |storage| ==> |storage[i]| == n
    {
      |storage[0]|
    }

    /** The number of cells. */
    function Size(): (n: nat)
      requires |storage| > 0
      ensures Rectangular() ==> n == CellCount(storage)
    {
      SizeIsCellCount(storage);
      Rows() * Columns()
    }

    /** The cell in row `i`, column `j`. */
    function At(i: nat, j: nat): (x: T)
      requires i < Rows() && j < |storage[i]|
      ensures x in storage[i]
    {
      storage[i][j]
    }
  }

  /** The total number of cells, counted row by row. */
  function CellCount<T>(rows: seq<seq<T>>): nat
  {
    if rows == [] then 0 else |rows[0]| + CellCount(rows[1..])
  }

  /** Rows that all have `n` cells hold `|rows| * n` cells. */
  lemma {:induction false} UniformCellCount<T>(rows: seq<seq<T>>, n: nat)
    requires AllOfLength(rows, n)
    ensures CellCount(rows) == |rows| * n
  {
    if rows != [] {
      assert AllOfLength(rows[1..], n) by {
        forall i | 0 <= i < |rows| - 1 ensures |rows[1..][i]| == n {
          assert rows[1..][i] == rows[i + 1];
        }
      }
      UniformCellCount(rows[1..], n);
    }
  }

  lemma SizeIsCellCount<T>(rows: seq<seq<T>>)
    requires |rows| > 0
    ensures Matrix(rows).Rectangular() ==> |rows| * |rows[0]| == CellCount(rows)
  {
    if Matrix(rows).Rectangular() {
      UniformCellCount(rows, |rows[0]|);
    }
  }

  // ---------------------------------------------------------------------------
  // Construction

  /**
    `matrix(rows...)`: the rows, in order, as a matrix, provided there is a
    first row and every later row is as long as it.
   */
  function MatrixOf<T>(rows: seq<seq<T>>): (r: Result<Matrix<T>>)
    ensures r.Ok? <==> |rows| > 0 && forall i :: 0 <= i < |rows| ==> |rows[i]| == |rows[0]|
    ensures r.Ok? ==> r.value.storage == rows && r.value.Rectangular()
    ensures r == Err(NoRows) <==> rows == []
  {
    if rows == [] then Err(NoRows)
    else
      var sameLength := All((row: seq<T>) => |row| == |rows[0]|, rows[1..]);
      if sameLength then
        assert forall i :: 1 <= i < |rows| ==> rows[1..][i - 1] == rows[i];
        Ok(Matrix(rows))
      else
        assert exists i :: 0 <= i < |rows| - 1 && |rows[1..][i]| != |rows[0]|;
        Err(RowLengthMismatch)
  }

  /** `vector(entries...)`: a column vector, one single-cell row per entry. */
  function Vector<T>(entries: seq<T>): (r: Result<Matrix<T>>)
    ensures r.Ok? <==> |entries| > 0
    ensures r.Ok? ==> r.value.Rectangular() && r.value.Rows() == |entries| && r.value.Columns() == 1
    ensures r.Ok? ==> forall i :: 0 <= i < |entries| ==> r.value.At(i, 0) == entries[i]
  {
    MatrixOf(Map((x: T) => [x], entries))
  }

  /** A matrix built by `MatrixOf` reports the shape of its rows and holds each supplied cell where it was placed. */
  lemma MatrixOfAccessors<T>(rows: seq<seq<T>>)
    requires MatrixOf(rows).Ok?
    ensures var m := MatrixOf(rows).value;
      && m.Rows() == |rows| && m.Columns() == |rows[0]| && m.Size() == |rows| * |rows[0]|
      && forall i, j :: 0 <= i < m.Rows() && 0 <= j < m.Columns() ==> m.At(i, j) == rows[i][j]
  {
  }

  /** Two matrices with the same shape and the same cell at every position are the same matrix. */
  lemma {:induction false} CellwiseEqual<T>(a: Matrix<T>, b: Matrix<T>)
    requires SameShape(a, b)
    requires forall i, j :: 0 <= i < a.Rows() && 0 <= j < |a.storage[i]| ==> a.At(i, j) == b.At(i, j)
    ensures a == b
  {
    forall i | 0 <= i < |a.storage| ensures a.storage[i] == b.storage[i] {
      forall j | 0 <= j < |a.storage[i]| ensures a.storage[i][j] == b.storage[i][j] {
        assert a.At(i, j) == b.At(i, j);
      }
    }
  }

  // ---------------------------------------------------------------------------
  // Transpose

  /** `transpose(m)`: column `j` of `m` becomes row `j` of the result. */
  function Transpose<T>(m: Matrix<T>): (r: Matrix<T>)
    requires m.Rectangular()
    ensures r.Rows() == m.Columns()
    ensures forall j :: 0 <= j < r.Rows() ==> |r.storage[j]| == m.Rows()
    ensures forall j, i :: 0 <= j < r.Rows() && 0 <= i < m.Rows() ==> r.At(j, i) == m.At(i, j)
    ensures m.Columns() > 0 ==> r.Rectangular() && r.Columns() == m.Rows()
  {
    Matrix(Zip(m.storage))
  }

  /** Transposing twice gives back every matrix that has at least one column. */
  lemma TransposeTranspose<T>(m: Matrix<T>)
    requires m.Rectangular() && m.Columns() > 0
    ensures Transpose(Transpose(m)) == m
  {
    var t := Transpose(m);
    var tt := Transpose(t);
    assert |tt.storage| == |m.storage|;
    forall i | 0 <= i < |m.storage| ensures tt.storage[i] == m.storage[i] {
      assert |tt.storage[i]| == |m.storage[i]|;
      forall j | 0 <= j < |m.storage[i]| ensures tt.storage[i][j] == m.storage[i][j] {
        assert tt.At(i, j) == t.At(j, i) == m.At(i, j);
      }
    }
  }

  /** A matrix with no columns transposes to no rows at all, which is not a matrix `MatrixOf` would build. */
  lemma TransposeOfColumnless<T>(m: Matrix<T>)
    requires m.Rectangular() && m.Columns() == 0
    ensures Transpose(m).storage == []
    ensures !Transpose(m).Rectangular()
  {
  }

  // ---------------------------------------------------------------------------
  // Elementwise combination

  /** `a` and `b` have the same number of rows and each row of `a` is as long as the row of `b` beside it. */
  ghost predicate SameShape<A, B>(a: Matrix<A>, b: Matrix<B>)
  {
    |a.storage| == |b.storage| && forall i :: 0 <= i < |a.storage| ==> |a.storage[i]| == |b.storage[i]|
  }

  /** `f` may be applied to the cells of `a` and `b` at every position. */
  ghost predicate Applicable<A, B, C>(f: (A, B) --> C, a: Matrix<A>, b: Matrix<B>)
    requires SameShape(a, b)
  {
    forall i, j :: 0 <= i < |a.storage| && 0 <= j < |a.storage[i]| ==> f.requires(a.storage[i][j], b.storage[i][j])
  }

  /** `elementwise(f)(a, b)`: the matrix of `f` applied to the cells of `a` and `b` at each position. */
  function Elementwise<A, B, C>(f: (A, B) --> C, a: Matrix<A>, b: Matrix<B>): (r: Matrix<C>)
    requires SameShape(a, b) && Applicable(f, a, b)
    ensures SameShape(r, a)
    ensures forall i, j :: 0 <= i < a.Rows() && 0 <= j < |a.storage[i]| ==> r.At(i, j) == f(a.At(i, j), b.At(i, j))
    ensures a.Rectangular() ==> r.Rectangular()
  {
    var combineRows := (ra: seq<A>, rb: seq<B>) requires Zippable(f, ra, rb) => ZipWith(f, ra, rb);
    assert forall i :: 0 <= i < |a.storage| ==> Zippable(f, a.storage[i], b.storage[i]);
    Matrix(ZipWith(combineRows, a.storage, b.storage))
  }

  function Abs(x: int): nat
  {
    if x < 0 then -x else x
  }

  /** Integer division as C++ does it: the quotient is truncated toward zero. */
  function TruncDiv(x: int, y: int): (q: int)
    requires y != 0
    ensures (x < 0) == (y < 0) ==> q >= 0
    ensures (x < 0) != (y < 0) ==> q <= 0
  {
    var magnitude := Abs(x) / Abs(y);
    if (x < 0) == (y < 0) then magnitude else -magnitude
  }

  /**
    The truncated quotient leaves a remainder smaller in magnitude than the
    divisor and never of the opposite sign to the dividend, which is how C++
    defines integer division.
   */
  lemma TruncDivRemainder(x: int, y: int)
    requires y != 0
    ensures var rem := x - TruncDiv(x, y) * y; Abs(rem) < Abs(y) && (rem == 0 || (rem < 0 <==> x < 0))
  {
    var ax: int, ay: int := Abs(x), Abs(y);
    var m: int, rem: int := ax / ay, ax % ay;
    assert ax == m * ay + rem && 0 <= rem < ay;
    var q := TruncDiv(x, y);
    assert q == (if (x < 0) == (y < 0) then m else -m);
    assert x == (if x < 0 then -ax else ax);
    assert y == (if y < 0 then -ay else ay);
    SignedProduct(x < 0, y < 0, m, ay);
  }

  /** A quotient of magnitude `m` carrying the sign rule of truncating division, times a divisor of magnitude `ay`. */
  lemma SignedProduct(negX: bool, negY: bool, m: int, ay: int)
    ensures (if negX == negY then m else -m) * (if negY then -ay else ay) == (if negX then -(m * ay) else m * ay)
  {
  }

  /** On a non-negative dividend and a positive divisor the truncated quotient is the ordinary one. */
  lemma TruncDivNatural(x: int, y: int)
    requires x >= 0 && y > 0
    ensures TruncDiv(x, y) == x / y
  {
  }

  /** `m1 + m2` */
  function Add(a: Matrix<int>, b: Matrix<int>): (r: Matrix<int>)
    requires SameShape(a, b)
    ensures SameShape(r, a)
    ensures forall i, j :: 0 <= i < a.Rows() && 0 <= j < |a.storage[i]| ==> r.At(i, j) == a.At(i, j) + b.At(i, j)
  {
    Elementwise((x: int, y: int) => x + y, a, b)
  }

  /** `m1 - m2` */
  function Sub(a: Matrix<int>, b: Matrix<int>): (r: Matrix<int>)
    requires SameShape(a, b)
    ensures SameShape(r, a)
    ensures forall i, j :: 0 <= i < a.Rows() && 0 <= j < |a.storage[i]| ==> r.At(i, j) == a.At(i, j) - b.At(i, j)
  {
    Elementwise((x: int, y: int) => x - y, a, b)
  }

  /** `m1 * m2`: the cellwise product, not the matrix product. */
  function Mul(a: Matrix<int>, b: Matrix<int>): (r: Matrix<int>)
    requires SameShape(a, b)
    ensures SameShape(r, a)
    ensures forall i, j :: 0 <= i < a.Rows() && 0 <= j < |a.storage[i]| ==> r.At(i, j) == a.At(i, j) * b.At(i, j)
  {
    Elementwise((x: int, y: int) => x * y, a, b)
  }

  /** No cell of `m` is zero. */
  ghost predicate NoZeroCell(m: Matrix<int>)
  {
    forall i, j :: 0 <= i < |m.storage| && 0 <= j < |m.storage[i]| ==> m.storage[i][j] != 0
  }

  /** `m1 / m2`: the cellwise truncating quotient. */
  function Div(a: Matrix<int>, b: Matrix<int>): (r: Matrix<int>)
    requires SameShape(a, b) && NoZeroCell(b)
    ensures SameShape(r, a)
    ensures forall i, j :: 0 <= i < a.Rows() && 0 <= j < |a.storage[i]| ==> r.At(i, j) == TruncDiv(a.At(i, j), b.At(i, j))
  {
    Elementwise((x: int, y: int) requires y != 0 => TruncDiv(x, y), a, b)
  }

  // ---------------------------------------------------------------------------
  // Functor and Comparable

  /** `fmap(f, m)`: the matrix of `f` applied to every cell of `m`. */
  function Fmap<T, U>(f: T -> U, m: Matrix<T>): (r: Matrix<U>)
    ensures SameShape(r, m)
    ensures forall i, j :: 0 <= i < m.Rows() && 0 <= j < |m.storage[i]| ==> r.At(i, j) == f(m.At(i, j))
    ensures m.Rectangular() ==> r.Rectangular()
  {
    Matrix(Map((row: seq<T>) => Map(f, row), m.storage))
  }

  /**
    `m1 == m2`: same number of rows, same number of columns, and every row of
    `m1` equal, as a list, to the row of `m2` beside it.
   */
  function Equal<T(==)>(m1: Matrix<T>, m2: Matrix<T>): (r: bool)
    requires |m1.storage| > 0 && |m2.storage| > 0
    ensures r <==> m1 == m2
  {
    && m1.Rows() == m2.Rows()
    && m1.Columns() == m2.Columns()
    && All((b: bool) => b, ZipWith((r1: seq<T>, r2: seq<T>) => r1 == r2, m1.storage, m2.storage))
  }

  /** Two matrices whose rows are all as long are equal exactly when their shapes agree and every pair of cells does. */
  lemma EqualCellwise<T>(m1: Matrix<T>, m2: Matrix<T>)
    requires m1.Rectangular() && m2.Rectangular()
    ensures Equal(m1, m2) <==>
      && m1.Rows() == m2.Rows() && m1.Columns() == m2.Columns()
      && forall i, j :: 0 <= i < m1.Rows() && 0 <= j < m1.Columns() ==> m1.At(i, j) == m2.At(i, j)
  {
    if m1.Rows() == m2.Rows() && m1.Columns() == m2.Columns()
      && forall i, j :: 0 <= i < m1.Rows() && 0 <= j < m1.Columns() ==> m1.At(i, j) == m2.At(i, j)
    {
      CellwiseEqual(m1, m2);
    }
  }

  /** Matrix equality is reflexive, symmetric and transitive. */
  lemma EqualIsEquivalence<T>(m1: Matrix<T>, m2: Matrix<T>, m3: Matrix<T>)
    requires |m1.storage| > 0 && |m2.storage| > 0 && |m3.storage| > 0
    ensures Equal(m1, m1)
    ensures Equal(m1, m2) ==> Equal(m2, m1)
    ensures Equal(m1, m2) && Equal(m2, m3) ==> Equal(m1, m3)
  {
  }

  /** Mapping the identity over a matrix gives it back. */
  lemma FmapIdentity<T>(m: Matrix<T>)
    ensures Fmap((x: T) => x, m) == m
  {
    CellwiseEqual(Fmap((x: T) => x, m), m);
  }

  /** Mapping `f` and then `g` is mapping their composition. */
  lemma FmapComposition<T, U, V>(f: T -> U, g: U -> V, m: Matrix<T>)
    ensures Fmap(g, Fmap(f, m)) == Fmap((x: T) => g(f(x)), m)
  {
    CellwiseEqual(Fmap(g, Fmap(f, m)), Fmap((x: T) => g(f(x)), m));
  }

  /** `m + m` doubles every cell. */
  lemma AddSelfDoubles(m: Matrix<int>)
    ensures Add(m, m) == Fmap((x: int) => 2 * x, m)
  {
    CellwiseEqual(Add(m, m), Fmap((x: int) => 2 * x, m));
  }

  /** `m - m` has a zero in every cell. */
  lemma SubSelfZero(m: Matrix<int>)
    ensures Sub(m, m) == Fmap((x: int) => 0, m)
  {
    CellwiseEqual(Sub(m, m), Fmap((x: int) => 0, m));
  }

  /** Subtracting `b` undoes adding it. */
  lemma SubUndoesAdd(a: Matrix<int>, b: Matrix<int>)
    requires SameShape(a, b)
    ensures Sub(Add(a, b), b) == a
  {
    CellwiseEqual(Sub(Add(a, b), b), a);
  }

  /** Cellwise multiplication by a matrix of ones changes nothing; it is not the matrix product. */
  lemma MulByOnes(m: Matrix<int>)
    ensures Mul(m, Fmap((x: int) => 1, m)) == m
  {
    CellwiseEqual(Mul(m, Fmap((x: int) => 1, m)), m);
  }

  /** Dividing cellwise by a matrix of ones changes nothing. */
  lemma DivByOnes(m: Matrix<int>)
    ensures Div(m, Fmap((x: int) => 1, m)) == m
  {
    var ones := Fmap((x: int) => 1, m);
    CellwiseEqual(Div(m, ones), m);
  }
}
