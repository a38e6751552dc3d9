/** The covariance of the ratings: products of the inverse, the noise matrix and the inverse transposed, and the
    centring of the result when no anchor holds the ratings in place. */
module Covariance {
  import opened Sums
  import opened Laplacian

  type Matrix = (nat, nat) -> real

  function RowOf(m: Matrix, i: nat): Vector {
    (j: nat) => m(i, j)
  }

  function ColumnOf(m: Matrix, j: nat): Vector {
    (i: nat) => m(i, j)
  }

  function Transposed(m: Matrix): Matrix {
    (i: nat, j: nat) => m(j, i)
  }

  /** The product of two matrices, the first of which has `n` columns. */
  function Product(a: Matrix, b: Matrix, n: nat): Matrix {
    (i: nat, j: nat) => Dot(RowOf(a, i), ColumnOf(b, j), n)
  }

  /** A row vector times a matrix of `n` rows. */
  function Applied(x: Vector, m: Matrix, n: nat): Vector {
    (j: nat) => Dot(x, ColumnOf(m, j), n)
  }

  /** The quadratic form of a square matrix. */
  function Quadratic(m: Matrix, x: Vector, n: nat): real {
    Dot(Applied(x, m, n), x, n)
  }

  ghost predicate NeverNegative(m: Matrix, n: nat) {
    forall x: Vector :: Quadratic(m, x, n) >= 0.0
  }

  /** a · m · a transposed. */
  function Sandwich(a: Matrix, m: Matrix, n: nat): Matrix {
    Product(Product(a, m, n), Transposed(a), n)
  }

  lemma {:induction false} DotFactor(f: real, u: Vector, v: Vector, w: Vector, n: nat)
    requires forall i: nat | i < n :: w(i) == f * u(i)
    ensures Dot(w, v, n) == f * Dot(u, v, n)
  {
    if n > 0 {
      DotFactor(f, u, v, w, n - 1);
      Distribute(Dot(u, v, n - 1), u(n - 1) * v(n - 1), f);
      assert w(n - 1) * v(n - 1) == f * (u(n - 1) * v(n - 1)) by {
        Associate(f, u(n - 1), v(n - 1));
      }
    }
  }

  lemma Associate(a: real, b: real, c: real)
    ensures (a * b) * c == a * (b * c)
  {
  }

  /** A matrix times a column vector of `k` entries. */
  function Through(m: Matrix, v: Vector, k: nat): Vector {
    (i: nat) => Dot(RowOf(m, i), v, k)
  }

  function Scaled(f: real, u: Vector): Vector {
    (j: nat) => f * u(j)
  }

  lemma OneRowMore(x: Vector, m: Matrix, v: Vector, n: nat, k: nat)
    requires n > 0
    ensures Dot(Applied(x, m, n), v, k) == Dot(Applied(x, m, n - 1), v, k) + x(n - 1) * Dot(RowOf(m, n - 1), v, k)
  {
    var last := Scaled(x(n - 1), RowOf(m, n - 1));
    DotFactor(x(n - 1), RowOf(m, n - 1), v, last, k);
    forall j: nat | j < k
      ensures Applied(x, m, n)(j) == Applied(x, m, n - 1)(j) + last(j)
    {
      assert ColumnOf(m, j)(n - 1) == RowOf(m, n - 1)(j);
    }
    DotPlus(Applied(x, m, n - 1), last, Applied(x, m, n), v, k);
  }

  /** Row times matrix times column does not depend on the brackets. */
  lemma {:induction false} Brackets(x: Vector, m: Matrix, v: Vector, n: nat, k: nat)
    ensures Dot(x, Through(m, v, k), n) == Dot(Applied(x, m, n), v, k)
  {
    if n == 0 {
      DotZero(Applied(x, m, 0), v, k);
    } else {
      Brackets(x, m, v, n - 1, k);
      OneRowMore(x, m, v, n, k);
    }
  }

  /** A diagonal entry of the sandwich is the quadratic form of the matrix at a row of the bread. */
  lemma SandwichDiagonal(a: Matrix, m: Matrix, n: nat, i: nat)
    ensures Sandwich(a, m, n)(i, i) == Quadratic(m, RowOf(a, i), n)
  {
    DotSame(RowOf(Product(a, m, n), i), Applied(RowOf(a, i), m, n),
            ColumnOf(Transposed(a), i), RowOf(a, i), n);
  }

  /** The quadratic form of the sandwich is that of the matrix at the vector carried through the bread. */
  lemma SandwichForm(a: Matrix, m: Matrix, x: Vector, n: nat)
    ensures Quadratic(Sandwich(a, m, n), x, n) == Quadratic(m, Applied(x, a, n), n)
  {
    var y := Applied(x, a, n);
    var through := Through(a, Applied(y, m, n), n);
    forall j: nat | j < n
      ensures Applied(x, Sandwich(a, m, n), n)(j) == through(j)
    {
      SandwichColumn(a, m, x, n, j);
    }
    DotSame(Applied(x, Sandwich(a, m, n), n), through, x, x, n);
    DotSwap(through, x, n);
    Brackets(x, a, Applied(y, m, n), n, n);
    DotSwap(y, Applied(y, m, n), n);
  }

  lemma SandwichColumn(a: Matrix, m: Matrix, x: Vector, n: nat, j: nat)
    ensures Dot(x, ColumnOf(Sandwich(a, m, n), j), n) == Dot(RowOf(a, j), Applied(Applied(x, a, n), m, n), n)
  {
    var y, column := Applied(x, a, n), ColumnOf(Transposed(a), j);
    DotSame(x, x, ColumnOf(Sandwich(a, m, n), j), Through(Product(a, m, n), column, n), n);
    Brackets(x, Product(a, m, n), column, n, n);
    forall c: nat | c < n
      ensures Applied(x, Product(a, m, n), n)(c) == Applied(y, m, n)(c)
    {
      DotSame(x, x, ColumnOf(Product(a, m, n), c), Through(a, ColumnOf(m, c), n), n);
      Brackets(x, a, ColumnOf(m, c), n, n);
    }
    DotSame(Applied(x, Product(a, m, n), n), Applied(y, m, n), column, RowOf(a, j), n);
    DotSwap(Applied(y, m, n), RowOf(a, j), n);
  }

  // ---------------------------------------------------------------- what the program computes

  /** The noise matrix at the listed rows and columns. */
  function Reduced(noises: seq<Edge>, list: seq<nat>): Matrix {
    (r: nat, c: nat) => if r < |list| && c < |list| then Cell(noises, list[r], list[c]) else 0.0
  }

  /** inverse · noise · inverse transposed. */
  function ReducedCovariance(inverse: Matrix, noises: seq<Edge>, list: seq<nat>): Matrix {
    Sandwich(inverse, Reduced(noises, list), |list|)
  }

  /** The covariance of all engines: zero in the row and the column of every engine that is not listed. */
  function Extended(m: Matrix, list: seq<nat>): Matrix {
    (i: nat, j: nat) => ScatterAt(list, (r: nat) => ScatterAt(list, RowOf(m, r), j), i)
  }

  function Center(n: nat): Matrix {
    (i: nat, j: nat) => (if i == j then 1.0 else 0.0) - if n == 0 then 0.0 else 1.0 / n as real
  }

  /** Without an anchor, the covariance of the ratings measured from their mean. */
  function Centered(m: Matrix, n: nat): Matrix {
    Sandwich(Center(n), m, n)
  }

  lemma NoiseNeverNegative(noises: seq<Edge>, n: nat, list: seq<nat>)
    requires ValidEdges(noises, n) && (forall e <- noises :: e.weight >= 0.0) && Distinct(list, n)
    ensures NeverNegative(Reduced(noises, list), |list|)
  {
    forall y: Vector
      ensures Quadratic(Reduced(noises, list), y, |list|) >= 0.0
    {
      var m, k := Reduced(noises, list), |list|;
      forall c: nat | c < k
        ensures Applied(y, m, k)(c) == ReducedTimes(noises, list, y)(c)
      {
        var row := Gather(list, Row(noises, list[c]));
        forall r: nat | r < k
          ensures ColumnOf(m, c)(r) == row(r)
        {
          Symmetric(noises, list[r], list[c]);
        }
        DotSame(y, y, ColumnOf(m, c), row, k);
        DotSwap(y, row, k);
      }
      DotSame(Applied(y, m, k), ReducedTimes(noises, list, y), y, y, k);
      ReducedFormNonNegative(noises, n, list, y);
    }
  }

  /** Rows and columns of zeros add nothing to the quadratic form. */
  lemma ExtendedForm(m: Matrix, n: nat, list: seq<nat>, x: Vector)
    requires Distinct(list, n)
    ensures Quadratic(Extended(m, list), x, n) == Quadratic(m, Gather(list, x), |list|)
  {
    var y, k := Gather(list, x), |list|;
    forall j: nat | j < n
      ensures Applied(x, Extended(m, list), n)(j) == Scatter(list, Applied(y, m, k))(j)
    {
      var column := (r: nat) => ScatterAt(list, RowOf(m, r), j);
      DotSame(x, x, ColumnOf(Extended(m, list), j), Scatter(list, column), n);
      DotSwap(x, Scatter(list, column), n);
      GatherDot(list, column, x, n);
      if j in list {
        var c: nat :| c < k && list[c] == j;
        ScatterListed(list, Applied(y, m, k), n, c);
        forall r: nat | r < k
          ensures column(r) == ColumnOf(m, c)(r)
        {
          ScatterListed(list, RowOf(m, r), n, c);
        }
        DotSame(y, y, column, ColumnOf(m, c), k);
      } else {
        ScatterUnlisted(list, Applied(y, m, k), j);
        forall r: nat | r < k
          ensures column(r) == 0.0
        {
          ScatterUnlisted(list, RowOf(m, r), j);
        }
        DotSwap(y, column, k);
        DotZero(column, y, k);
      }
    }
    DotSame(Applied(x, Extended(m, list), n), Scatter(list, Applied(y, m, k)), x, x, n);
    GatherDot(list, Applied(y, m, k), x, n);
    DotSwap(y, Applied(y, m, k), k);
  }

  /**
   * No variance whose root is taken is negative, with an anchor or, after centring, without one, whatever matrix the
   * solver returned for the inverse: the guard before the square root changes nothing in exact arithmetic.
   */
  lemma VariancesNeverNegative(inverse: Matrix, noises: seq<Edge>, n: nat, list: seq<nat>, i: nat)
    requires ValidEdges(noises, n) && (forall e <- noises :: e.weight >= 0.0) && Distinct(list, n)
    ensures Extended(ReducedCovariance(inverse, noises, list), list)(i, i) >= 0.0
    ensures Centered(Extended(ReducedCovariance(inverse, noises, list), list), n)(i, i) >= 0.0
  {
    var k, covariance := |list|, ReducedCovariance(inverse, noises, list);
    NoiseNeverNegative(noises, n, list);
    if i in list {
      var r: nat :| r < k && list[r] == i;
      ScatterListed(list, RowOf(covariance, r), n, r);
      ScatterListed(list, (q: nat) => ScatterAt(list, RowOf(covariance, q), i), n, r);
      SandwichDiagonal(inverse, Reduced(noises, list), k, r);
    } else {
      ScatterUnlisted(list, (q: nat) => ScatterAt(list, RowOf(covariance, q), i), i);
    }
    var x := RowOf(Center(n), i);
    SandwichDiagonal(Center(n), Extended(covariance, list), n, i);
    ExtendedForm(covariance, n, list, x);
    SandwichForm(inverse, Reduced(noises, list), Gather(list, x), k);
  }
}
