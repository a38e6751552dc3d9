/** Finite sums of products of reals, and the total of a map of natural numbers. */
module Sums {

  type Vector = nat -> real

  /** The sum of the products of two vectors up to index `n`. */
  function Dot(u: Vector, v: Vector, n: nat): real {
    if n == 0 then 0.0 else Dot(u, v, n - 1) + u(n - 1) * v(n - 1)
  }

  ghost predicate Same(u: Vector, v: Vector, n: nat) {
    forall i: nat | i < n :: u(i) == v(i)
  }

  lemma {:induction false} DotSame(u: Vector, u': Vector, v: Vector, v': Vector, n: nat)
    requires Same(u, u', n) && Same(v, v', n)
    ensures Dot(u, v, n) == Dot(u', v', n)
  {
    if n > 0 {
      DotSame(u, u', v, v', n - 1);
    }
  }

  lemma Distribute(a: real, b: real, c: real)
    ensures (a + b) * c == a * c + b * c
    ensures c * (a + b) == c * a + c * b
  {
  }

  lemma {:induction false} DotPlus(a: Vector, b: Vector, u: Vector, v: Vector, n: nat)
    requires forall i: nat | i < n :: u(i) == a(i) + b(i)
    ensures Dot(u, v, n) == Dot(a, v, n) + Dot(b, v, n)
  {
    if n > 0 {
      DotPlus(a, b, u, v, n - 1);
      Distribute(a(n - 1), b(n - 1), v(n - 1));
    }
  }

  lemma {:induction false} DotSwap(u: Vector, v: Vector, n: nat)
    ensures Dot(u, v, n) == Dot(v, u, n)
  {
    if n > 0 {
      DotSwap(u, v, n - 1);
    }
  }

  lemma {:induction false} DotZero(u: Vector, v: Vector, n: nat)
    requires forall i: nat | i < n :: u(i) == 0.0
    ensures Dot(u, v, n) == 0.0
  {
    if n > 0 {
      DotZero(u, v, n - 1);
    }
  }

  /** A vector that is zero everywhere but at `a` picks one product. */
  lemma {:induction false} DotSingle(u: Vector, v: Vector, n: nat, a: nat)
    requires a < n && forall i: nat | i < n && i != a :: u(i) == 0.0
    ensures Dot(u, v, n) == u(a) * v(a)
  {
    if a == n - 1 {
      DotZero(u, v, n - 1);
    } else {
      DotSingle(u, v, n - 1, a);
    }
  }

  lemma {:induction false} DotPair(u: Vector, v: Vector, n: nat, a: nat, b: nat)
    requires a < b < n && forall i: nat | i < n && i != a && i != b :: u(i) == 0.0
    ensures Dot(u, v, n) == u(a) * v(a) + u(b) * v(b)
  {
    if b == n - 1 {
      DotSingle(u, v, n - 1, a);
    } else {
      DotPair(u, v, n - 1, a, b);
    }
  }

  // ---------------------------------------------------------------- totals of maps

  ghost function Total<K>(m: map<K, nat>): nat
  {
    if m == map[] then 0
    else
      var k :| k in m;
      m[k] + Total(m - {k})
  }

  lemma {:induction false} TotalSplit<K>(m: map<K, nat>, k: K)
    requires k in m
    ensures Total(m) == m[k] + Total(m - {k})
    decreases |m|
  {
    var picked :| picked in m && Total(m) == m[picked] + Total(m - {picked});
    if picked != k {
      TotalSplit(m - {picked}, k);
      TotalSplit(m - {k}, picked);
      assert m - {picked} - {k} == m - {k} - {picked};
    }
  }

  lemma TotalPut<K>(m: map<K, nat>, m': map<K, nat>, k: K, v: nat)
    requires m' == m[k := v]
    ensures Total(m') + (if k in m then m[k] else 0) == Total(m) + v
  {
    TotalSplit(m', k);
    assert m' - {k} == m - {k};
    if k in m {
      TotalSplit(m, k);
    } else {
      assert m - {k} == m;
    }
  }

  lemma TotalDrop<K>(m: map<K, nat>, m': map<K, nat>, k: K)
    requires m' == m - {k}
    ensures Total(m') + (if k in m then m[k] else 0) == Total(m)
  {
    if k in m {
      TotalSplit(m, k);
    } else {
      assert m' == m;
    }
  }

  /** The sum of a list of numbers. */
  function SumOf(values: seq<real>): real {
    if values == [] then 0.0 else SumOf(values[..|values| - 1]) + values[|values| - 1]
  }
}
