/**
 `_solve_3x3` of tools/analyze_current_loop.py: Gauss-Jordan elimination with
 partial pivoting, over exact reals instead of floats.
 */
module LinearSolver {
  import opened Options

  /** One row of the augmented matrix: three coefficients and the right-hand side. */
  datatype Row = Row(c0: real, c1: real, c2: real, rhs: real) {
    function At(k: int): real
      requires 0 <= k < 3
    {
      if k == 0 then c0 else if k == 1 then c1 else c2
    }

    function Scaled(divisor: real): Row
      requires divisor != 0.0
    {
      Row(c0 / divisor, c1 / divisor, c2 / divisor, rhs / divisor)
    }

    function Minus(scale: real, pivot: Row): Row {
      Row(c0 - scale * pivot.c0, c1 - scale * pivot.c1, c2 - scale * pivot.c2, rhs - scale * pivot.rhs)
    }
  }

  datatype Triple = Triple(x: real, y: real, z: real)

  type System = s: seq<Row> | |s| == 3 witness [Row(0.0, 0.0, 0.0, 0.0), Row(0.0, 0.0, 0.0, 0.0), Row(0.0, 0.0, 0.0, 0.0)]

  function Residual(row: Row, t: Triple): real {
    row.c0 * t.x + row.c1 * t.y + row.c2 * t.z - row.rhs
  }

  ghost predicate Solves(s: System, t: Triple) {
    Residual(s[0], t) == 0.0 && Residual(s[1], t) == 0.0 && Residual(s[2], t) == 0.0
  }

  /** The same triples solve both systems. */
  ghost predicate Equivalent(a: System, b: System) {
    forall t :: Solves(a, t) <==> Solves(b, t)
  }

  function Abs(x: real): real {
    if x < 0.0 then -x else x
  }

  // ---- row operations keep the solution set ----

  lemma ScaledResidual(row: Row, d: real, t: Triple)
    requires d != 0.0
    ensures Residual(row.Scaled(d), t) * d == Residual(row, t)
  {
    Quotient(row.c0, d, t.x);
    Quotient(row.c1, d, t.y);
    Quotient(row.c2, d, t.z);
    Quotient(row.rhs, d, 1.0);
  }

  lemma Quotient(a: real, d: real, x: real)
    requires d != 0.0
    ensures a / d * x * d == a * x
  {
    assert a / d * d == a;
    assert a / d * x * d == a / d * d * x;
  }

  lemma MinusResidual(row: Row, scale: real, pivot: Row, t: Triple)
    ensures Residual(row.Minus(scale, pivot), t) == Residual(row, t) - scale * Residual(pivot, t)
  {
  }

  lemma SwapKeeps(s: System, i: int, j: int)
    requires 0 <= i < 3 && 0 <= j < 3
    ensures Equivalent(s, s[i := s[j]][j := s[i]])
  {
  }

  lemma ScaleKeeps(s: System, i: int, d: real)
    requires 0 <= i < 3 && d != 0.0
    ensures Equivalent(s, s[i := s[i].Scaled(d)])
  {
    hide Residual;
    forall t
      ensures Solves(s, t) <==> Solves(s[i := s[i].Scaled(d)], t)
    {
      ScaledResidual(s[i], d, t);
      ZeroProduct(Residual(s[i].Scaled(d), t), d);
    }
  }

  lemma ZeroProduct(x: real, d: real)
    requires d != 0.0
    ensures x * d == 0.0 <==> x == 0.0
  {
  }

  lemma EliminateKeeps(s: System, i: int, scale: real, p: int)
    requires 0 <= i < 3 && 0 <= p < 3 && i != p
    ensures Equivalent(s, s[i := s[i].Minus(scale, s[p])])
  {
    hide Residual;
    forall t
      ensures Solves(s, t) <==> Solves(s[i := s[i].Minus(scale, s[p])], t)
    {
      MinusResidual(s[i], scale, s[p], t);
    }
  }

  // ---- one column ----

  /** The first k columns are those of the identity. */
  ghost predicate Reduced(s: System, k: int) {
    forall r, c :: 0 <= r < 3 && 0 <= c < k && c < 3 ==> s[r].At(c) == if r == c then 1.0 else 0.0
  }

  /** The first row in column..last with the largest entry of the column. */
  function PivotUpTo(s: System, column: int, last: int): (pivot: int)
    requires 0 <= column <= last < 3
    ensures column <= pivot <= last
    ensures forall r :: column <= r <= last ==> Abs(s[r].At(column)) <= Abs(s[pivot].At(column))
    ensures forall r :: column <= r < pivot ==> Abs(s[r].At(column)) < Abs(s[pivot].At(column))
  {
    if last == column then column
    else
      var before := PivotUpTo(s, column, last - 1);
      if Abs(s[last].At(column)) > Abs(s[before].At(column)) then last else before
  }

  function Pivot(s: System, column: int): real
    requires 0 <= column < 3
  {
    s[PivotUpTo(s, column, 2)].At(column)
  }

  function Swapped(s: System, i: int, j: int): System
    requires 0 <= i < 3 && 0 <= j < 3
  {
    s[i := s[j]][j := s[i]]
  }

  function Normalised(s: System, k: int): System
    requires 0 <= k < 3 && s[k].At(k) != 0.0
  {
    s[k := s[k].Scaled(s[k].At(k))]
  }

  /** Rows 0..n without their entry in column k. */
  function Cleared(s: System, k: int, n: int): System
    requires 0 <= k < 3 && 0 <= n <= 3
    decreases n
  {
    if n == 0 then s
    else
      var a := Cleared(s, k, n - 1);
      if n - 1 == k then a else a[n - 1 := a[n - 1].Minus(a[n - 1].At(k), a[k])]
  }

  /** Swap, normalise and eliminate: one pass of the outer loop. */
  function Reduce(s: System, k: int): System
    requires 0 <= k < 3 && Pivot(s, k) != 0.0
  {
    Cleared(Normalised(Swapped(s, k, PivotUpTo(s, k, 2)), k), k, 3)
  }

  lemma SwapReduced(s: System, k: int, pivot: int)
    requires 0 <= k <= pivot < 3 && Reduced(s, k)
    ensures Reduced(s[k := s[pivot]][pivot := s[k]], k)
  {
  }

  lemma ScaleReduced(s: System, k: int, d: real)
    requires 0 <= k < 3 && Reduced(s, k) && d != 0.0
    ensures Reduced(s[k := s[k].Scaled(d)], k)
  {
    forall c | 0 <= c < k
      ensures s[k].Scaled(d).At(c) == 0.0
    {
      assert s[k].At(c) == 0.0;
    }
  }

  lemma EliminateReduced(s: System, k: int, row: int, scale: real)
    requires 0 <= k < 3 && 0 <= row < 3 && row != k && Reduced(s, k)
    ensures Reduced(s[row := s[row].Minus(scale, s[k])], k)
  {
    forall c | 0 <= c < k
      ensures s[row].Minus(scale, s[k]).At(c) == s[row].At(c)
    {
      assert s[k].At(c) == 0.0;
    }
  }

  /** Clearing keeps the solution set and the finished columns, and clears its rows. */
  lemma {:induction false} ClearedKeeps(s: System, k: int, n: int)
    requires 0 <= k < 3 && 0 <= n <= 3 && Reduced(s, k) && s[k].At(k) == 1.0
    ensures
      var a := Cleared(s, k, n);
      && Equivalent(s, a) && Reduced(a, k) && a[k] == s[k]
      && forall r :: 0 <= r < n && r != k ==> a[r].At(k) == 0.0
    decreases n
  {
    hide Residual, Solves, Equivalent, Reduced;
    if n == 0 {
      EquivalentSelf(s);
    } else {
      ClearedKeeps(s, k, n - 1);
      var a := Cleared(s, k, n - 1);
      if n - 1 != k {
        var scale := a[n - 1].At(k);
        EliminateKeeps(a, n - 1, scale, k);
        EliminateReduced(a, k, n - 1, scale);
        EliminatedEntry(a[n - 1], a[k], k);
        EquivalentTrans(s, a, Cleared(s, k, n));
      }
    }
  }

  lemma ReduceKeeps(s: System, k: int)
    requires 0 <= k < 3 && Reduced(s, k) && Pivot(s, k) != 0.0
    ensures Equivalent(s, Reduce(s, k)) && Reduced(Reduce(s, k), k + 1)
  {
    hide Residual, Solves, Equivalent, Reduced, Cleared;
    var pivot := PivotUpTo(s, k, 2);
    var a := Swapped(s, k, pivot);
    SwapKeeps(s, k, pivot);
    SwapReduced(s, k, pivot);
    ScaleKeeps(a, k, a[k].At(k));
    ScaleReduced(a, k, a[k].At(k));
    var b := Normalised(a, k);
    PivotBecomesOne(a[k], k);
    ClearedKeeps(b, k, 3);
    EquivalentTrans(s, a, b);
    EquivalentTrans(s, b, Reduce(s, k));
    OneMoreColumn(Reduce(s, k), k);
  }

  lemma PivotBecomesOne(row: Row, k: int)
    requires 0 <= k < 3 && row.At(k) != 0.0
    ensures row.Scaled(row.At(k)).At(k) == 1.0
  {
  }

  lemma OneMoreColumn(a: System, k: int)
    requires 0 <= k < 3 && Reduced(a, k) && a[k].At(k) == 1.0
    requires forall r :: 0 <= r < 3 && r != k ==> a[r].At(k) == 0.0
    ensures Reduced(a, k + 1)
  {
  }

  method FindPivot(s: System, column: int) returns (pivot: int)
    requires 0 <= column < 3
    ensures pivot == PivotUpTo(s, column, 2)
  {
    pivot := column;
    for r := column + 1 to 3
      invariant pivot == PivotUpTo(s, column, r - 1)
    {
      if Abs(s[r].At(column)) > Abs(s[pivot].At(column)) {
        pivot := r;
      }
    }
  }

  method ReduceColumn(s: System, column: int, pivot: int) returns (a: System)
    requires 0 <= column < 3 && pivot == PivotUpTo(s, column, 2) && Pivot(s, column) != 0.0
    ensures a == Reduce(s, column)
  {
    a := s[column := s[pivot]][pivot := s[column]];
    var divisor := a[column].At(column);
    a := a[column := a[column].Scaled(divisor)];
    ghost var normalised := a;
    for row := 0 to 3
      invariant a == Cleared(normalised, column, row)
    {
      if row != column {
        var scale := a[row].At(column);
        a := a[row := a[row].Minus(scale, a[column])];
      }
    }
  }

  // ---- the solver ----

  const THRESHOLD: real := 0.000000000001

  /** The augmented matrix before column c is treated; it stays as it is once a pivot is missing. */
  function Stage(s: System, c: int): System
    requires 0 <= c <= 3
  {
    if c == 0 then s
    else
      var a := Stage(s, c - 1);
      if NoPivot(a, c - 1) then a else Reduce(a, c - 1)
  }

  /** No usable pivot is left in column c. */
  predicate NoPivot(s: System, c: int)
    requires 0 <= c < 3
    ensures NoPivot(s, c) <==> forall r :: c <= r < 3 ==> Abs(s[r].At(c)) < THRESHOLD
  {
    Abs(Pivot(s, c)) < THRESHOLD
  }

  /** Column c is the first one whose pivot is missing. */
  predicate RefusedAt(s: System, c: int) {
    && 0 <= c < 3
    && NoPivot(Stage(s, c), c)
    && forall k :: 0 <= k < c ==> !NoPivot(Stage(s, k), k)
  }

  ghost predicate Refused(s: System) {
    exists c :: RefusedAt(s, c)
  }

  /** As long as pivots are found, a stage is equivalent to the system and reduced. */
  lemma {:induction false} StageKeeps(s: System, c: int)
    requires 0 <= c <= 3 && forall k :: 0 <= k < c ==> !NoPivot(Stage(s, k), k)
    ensures Equivalent(s, Stage(s, c)) && Reduced(Stage(s, c), c)
    decreases c
  {
    hide Residual, Solves, Equivalent, Reduced, Reduce;
    if c == 0 {
      EquivalentSelf(s);
      NothingReduced(s);
    } else {
      var a := Stage(s, c - 1);
      assert !NoPivot(a, c - 1);
      StageKeeps(s, c - 1);
      ReduceKeeps(a, c - 1);
      EquivalentTrans(s, a, Stage(s, c));
    }
  }

  lemma NothingReduced(s: System)
    ensures Reduced(s, 0)
  {
  }

  lemma EquivalentSelf(s: System)
    ensures Equivalent(s, s)
  {
  }

  lemma EliminatedEntry(row: Row, pivot: Row, k: int)
    requires 0 <= k < 3 && pivot.At(k) == 1.0
    ensures row.Minus(row.At(k), pivot).At(k) == 0.0
  {
  }

  lemma EquivalentTrans(a: System, b: System, c: System)
    requires Equivalent(a, b) && Equivalent(b, c)
    ensures Equivalent(a, c)
  {
    hide Solves;
  }

  /** `_solve_3x3`: None is the ValueError, raised exactly when a pivot is missing. */
  method Solve(system: System) returns (r: Option<Triple>)
    ensures r.Some? ==> forall t :: Solves(system, t) <==> t == r.value
    ensures r.None? <==> Refused(system)
  {
    hide Solves, NoPivot, Reduced, Reduce;
    var a := system;
    for column := 0 to 3
      invariant a == Stage(system, column)
      invariant forall k :: 0 <= k < column ==> !NoPivot(Stage(system, k), k)
    {
      var pivot := FindPivot(a, column);
      PivotOrRefusal(a, column);
      if Abs(a[pivot].At(column)) < THRESHOLD {
        assert RefusedAt(system, column);
        return None;
      }
      a := ReduceColumn(a, column, pivot);
    }
    var solution := Triple(a[0].rhs, a[1].rhs, a[2].rhs);
    StageKeeps(system, 3);
    IdentitySolves(a, solution);
    return Some(solution);
  }

  lemma PivotOrRefusal(a: System, c: int)
    requires 0 <= c < 3
    ensures NoPivot(a, c) <==> Abs(Pivot(a, c)) < THRESHOLD
    ensures !NoPivot(a, c) ==> Pivot(a, c) != 0.0
  {
  }

  lemma IdentitySolves(a: System, s: Triple)
    requires Reduced(a, 3) && s == Triple(a[0].rhs, a[1].rhs, a[2].rhs)
    ensures forall t :: Solves(a, t) <==> t == s
  {
    forall t
      ensures Solves(a, t) <==> t == s
    {
      IdentityRow(a, 0, t);
      IdentityRow(a, 1, t);
      IdentityRow(a, 2, t);
    }
  }

  lemma IdentityRow(a: System, r: int, t: Triple)
    requires Reduced(a, 3) && 0 <= r < 3
    ensures Residual(a[r], t) == (if r == 0 then t.x else if r == 1 then t.y else t.z) - a[r].rhs
  {
    assert a[r].At(0) == if r == 0 then 1.0 else 0.0;
    assert a[r].At(1) == if r == 1 then 1.0 else 0.0;
    assert a[r].At(2) == if r == 2 then 1.0 else 0.0;
  }
}
