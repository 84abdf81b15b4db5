/**
 What it means that `_solve_3x3` refuses a system, in terms of the determinant
 of its matrix.
 */
module SolverRefusal {
  import opened LinearSolver

  /** The components of the cross product of two rows. */
  function Minor(a: Row, b: Row, k: int): real
    requires 0 <= k < 3
  {
    if k == 0 then a.c1 * b.c2 - a.c2 * b.c1
    else if k == 1 then a.c2 * b.c0 - a.c0 * b.c2
    else a.c0 * b.c1 - a.c1 * b.c0
  }

  function Det3(a: Row, b: Row, c: Row): real {
    a.c0 * Minor(b, c, 0) + a.c1 * Minor(b, c, 1) + a.c2 * Minor(b, c, 2)
  }

  function Det(s: System): real { Det3(s[0], s[1], s[2]) }

  // ---- row operations and the determinant ----

  lemma DetCycle(a: Row, b: Row, c: Row)
    ensures Det3(a, b, c) == Det3(b, c, a)
  {}

  lemma DetSwap(a: Row, b: Row, c: Row)
    ensures Det3(b, a, c) == -Det3(a, b, c)
  {}

  lemma MinorScaled(a: Row, d: real, k: int, e: real)
    requires d != 0.0 && 0 <= k < 3
    ensures a.Scaled(d).At(k) * e * d == a.At(k) * e
  {
    Quotient(a.At(k), d, e);
  }

  lemma DetScaled(a: Row, b: Row, c: Row, d: real)
    requires d != 0.0
    ensures Det3(a.Scaled(d), b, c) * d == Det3(a, b, c)
  {
    hide Minor;
    MinorScaled(a, d, 0, Minor(b, c, 0));
    MinorScaled(a, d, 1, Minor(b, c, 1));
    MinorScaled(a, d, 2, Minor(b, c, 2));
  }

  lemma DetMinus(a: Row, b: Row, c: Row, scale: real)
    ensures Det3(a.Minus(scale, b), b, c) == Det3(a, b, c)
  {}

  lemma SwappedDet(s: System, i: int, j: int)
    requires 0 <= i <= j < 3
    ensures Abs(Det(Swapped(s, i, j))) == Abs(Det(s))
  {
    hide Det3;
    DetSwap(s[0], s[1], s[2]);
    DetCycle(s[0], s[1], s[2]);
    DetSwap(s[1], s[2], s[0]);
    DetCycle(s[2], s[1], s[0]);
    DetCycle(s[0], s[2], s[1]);
  }

  lemma NormalisedDet(s: System, k: int)
    requires 0 <= k < 3 && s[k].At(k) != 0.0
    ensures Det(Normalised(s, k)) * s[k].At(k) == Det(s)
  {
    hide Det3;
    var d, t := s[k].At(k), Normalised(s, k);
    RotatedDet(s, k);
    RotatedDet(t, k);
    DetScaled(s[k], s[(k + 1) % 3], s[(k + 2) % 3], d);
  }

  /** The determinant with row k first. */
  lemma RotatedDet(s: System, k: int)
    requires 0 <= k < 3
    ensures Det(s) == Det3(s[k], s[(k + 1) % 3], s[(k + 2) % 3])
  {
    hide Det3;
    DetCycle(s[0], s[1], s[2]);
    DetCycle(s[1], s[2], s[0]);
  }

  lemma EliminatedDet(s: System, r: int, k: int, scale: real)
    requires 0 <= k < 3 && 0 <= r < 3 && r != k
    ensures Det(s[r := s[r].Minus(scale, s[k])]) == Det(s)
  {
    hide Det3;
    var t := s[r := s[r].Minus(scale, s[k])];
    RotatedDet(s, r);
    RotatedDet(t, r);
    var o := 3 - r - k;
    DetMinus(s[r], s[k], s[o], scale);
    if k != (r + 1) % 3 {
      DetFlip(s[r], s[k], s[o]);
      DetFlip(t[r], s[k], s[o]);
    }
  }

  lemma DetFlip(a: Row, b: Row, c: Row)
    ensures Det3(a, c, b) == -Det3(a, b, c)
  {
    hide Det3;
    DetCycle(a, c, b);
    DetSwap(b, c, a);
    DetCycle(a, b, c);
  }

  lemma {:induction false} ClearedDet(s: System, k: int, n: int)
    requires 0 <= k < 3 && 0 <= n <= 3
    ensures Det(Cleared(s, k, n)) == Det(s)
    decreases n
  {
    hide Det;
    if n > 0 {
      ClearedDet(s, k, n - 1);
      var a := Cleared(s, k, n - 1);
      if n - 1 != k {
        EliminatedDet(a, n - 1, k, a[n - 1].At(k));
      }
    }
  }

  /** One column of elimination divides the determinant by its pivot. */
  lemma ReduceDet(s: System, k: int)
    requires 0 <= k < 3 && Pivot(s, k) != 0.0
    ensures Abs(Det(s)) == Abs(Pivot(s, k)) * Abs(Det(Reduce(s, k)))
  {
    hide Det, Cleared, Abs;
    var pivot := PivotUpTo(s, k, 2);
    var a := Swapped(s, k, pivot);
    SwappedDet(s, k, pivot);
    NormalisedDet(a, k);
    ClearedDet(Normalised(a, k), k, 3);
    Factored(Det(Normalised(a, k)), a[k].At(k), Det(a));
  }

  lemma Factored(x: real, y: real, z: real)
    requires x * y == z
    ensures Abs(z) == Abs(y) * Abs(x)
  {
    AbsProduct(x, y);
  }

  lemma AbsProduct(x: real, y: real)
    ensures Abs(x * y) == Abs(y) * Abs(x)
  {}

  // ---- stages ----

  /** The product of the pivots of the columns below c. */
  function PivotProduct(s: System, c: int): real
    requires 0 <= c <= 3
  {
    if c == 0 then 1.0 else PivotProduct(s, c - 1) * Abs(Pivot(Stage(s, c - 1), c - 1))
  }

  lemma {:induction false} StageDet(s: System, c: int)
    requires 0 <= c <= 3 && forall k :: 0 <= k < c ==> !NoPivot(Stage(s, k), k)
    ensures Abs(Det(s)) == PivotProduct(s, c) * Abs(Det(Stage(s, c)))
    decreases c
  {
    hide Det, Reduce, NoPivot, Pivot, Abs;
    if c > 0 {
      var a := Stage(s, c - 1);
      assert !NoPivot(a, c - 1);
      PivotOrRefusal(a, c - 1);
      StageDet(s, c - 1);
      ReduceDet(a, c - 1);
      var before, pivot, after := PivotProduct(s, c - 1), Abs(Pivot(a, c - 1)), Abs(Det(Stage(s, c)));
      assert PivotProduct(s, c) == before * pivot;
      Regroup(before, pivot, after);
    } else {
      assert PivotProduct(s, 0) == 1.0 && Stage(s, 0) == s;
    }
  }

  lemma Regroup(x: real, y: real, z: real)
    ensures x * (y * z) == (x * y) * z
  {}

  lemma {:induction false} PivotProductBound(s: System, c: int)
    requires 0 <= c <= 3 && forall k :: 0 <= k < c ==> !NoPivot(Stage(s, k), k)
    ensures PivotProduct(s, c) >= Power(c) > 0.0
    decreases c
  {
    hide NoPivot, Stage, Pivot, Abs;
    if c > 0 {
      var a := Stage(s, c - 1);
      assert !NoPivot(a, c - 1);
      PivotOrRefusal(a, c - 1);
      PivotProductBound(s, c - 1);
      var before, pivot := PivotProduct(s, c - 1), Abs(Pivot(a, c - 1));
      assert PivotProduct(s, c) == before * pivot && Power(c) == Power(c - 1) * THRESHOLD;
      ProductBound(before, Power(c - 1), pivot);
    }
  }

  /** The threshold to the power n. */
  function Power(n: nat): real {
    if n == 0 then 1.0 else Power(n - 1) * THRESHOLD
  }

  lemma ProductBound(x: real, y: real, p: real)
    requires x >= y > 0.0 && p >= THRESHOLD
    ensures x * p >= y * THRESHOLD > 0.0
  {
    assert x * p >= y * p;
    assert y * p >= y * THRESHOLD;
  }

  lemma IdentityDet(s: System)
    requires Reduced(s, 3)
    ensures Det(s) == 1.0
  {
    IdentityEntries(s, 0);
    IdentityEntries(s, 1);
    IdentityEntries(s, 2);
  }

  lemma IdentityEntries(s: System, r: int)
    requires Reduced(s, 3) && 0 <= r < 3
    ensures s[r].c0 == (if r == 0 then 1.0 else 0.0)
    ensures s[r].c1 == (if r == 1 then 1.0 else 0.0)
    ensures s[r].c2 == (if r == 2 then 1.0 else 0.0)
  {
    assert s[r].At(0) == s[r].c0 && s[r].At(1) == s[r].c1 && s[r].At(2) == s[r].c2;
  }

  // ---- what a verdict means ----

  /** A system that is not refused has a determinant of exactly its three pivots. */
  lemma AcceptedDet(s: System)
    requires !Refused(s)
    ensures Abs(Det(s)) == PivotProduct(s, 3) >= Power(3) > 0.0
  {
    hide Det, NoPivot;
    NoneMissing(s, 3);
    StageDet(s, 3);
    StageKeeps(s, 3);
    IdentityDet(Stage(s, 3));
    PivotProductBound(s, 3);
  }

  lemma {:induction false} NoneMissing(s: System, c: int)
    requires 0 <= c <= 3 && !Refused(s)
    ensures forall k :: 0 <= k < c ==> !NoPivot(Stage(s, k), k)
    decreases c
  {
    hide NoPivot, Stage;
    if c > 0 {
      NoneMissing(s, c - 1);
      assert !RefusedAt(s, c - 1);
    }
  }

  /** A system that is not refused has exactly one solution. */
  lemma AcceptedHasOne(s: System) returns (t: Triple)
    requires !Refused(s)
    ensures forall q :: Solves(s, q) <==> q == t
  {
    hide NoPivot, Stage, Solves, Reduced;
    NoneMissing(s, 3);
    StageKeeps(s, 3);
    var a := Stage(s, 3);
    t := Triple(a[0].rhs, a[1].rhs, a[2].rhs);
    IdentitySolves(a, t);
  }

  /** A matrix that sends some nonzero triple to zero is refused. */
  lemma KernelIsRefused(s: System, d: Triple)
    requires d != Triple(0.0, 0.0, 0.0)
    requires forall r :: 0 <= r < 3 ==> Residual(s[r], d) + s[r].rhs == 0.0
    ensures Refused(s)
  {
    hide Refused;
    if !Refused(s) {
      var t := AcceptedHasOne(s);
      assert Solves(s, t);
      MovedSolves(s, t, d);
      assert false;
    }
  }

  lemma MovedSolves(s: System, t: Triple, d: Triple)
    requires Solves(s, t)
    requires forall r :: 0 <= r < 3 ==> Residual(s[r], d) + s[r].rhs == 0.0
    ensures Solves(s, Triple(t.x + d.x, t.y + d.y, t.z + d.z))
  {
    forall r | 0 <= r < 3 ensures Residual(s[r], Triple(t.x + d.x, t.y + d.y, t.z + d.z)) == Residual(s[r], t) {
      assert Residual(s[r], d) + s[r].rhs == 0.0;
      ResidualMoves(s[r], t, d);
    }
  }

  lemma ResidualMoves(row: Row, t: Triple, d: Triple)
    ensures Residual(row, Triple(t.x + d.x, t.y + d.y, t.z + d.z)) == Residual(row, t) + (Residual(row, d) + row.rhs)
  {}

  /** Every singular matrix is refused, whatever its right-hand sides. */
  lemma SingularIsRefused(s: System)
    requires Det(s) == 0.0
    ensures Refused(s)
  {
    if !Refused(s) {
      AcceptedDet(s);
    }
  }

  function Cofactor(s: System, r: int, c: int): real
    requires 0 <= r < 3 && 0 <= c < 3
  {
    Minor(s[(r + 1) % 3], s[(r + 2) % 3], c)
  }

  /** One term of the expansion of the determinant along column c. */
  function Term(s: System, r: int, c: int): real
    requires 0 <= r < 3 && 0 <= c < 3
  {
    s[r].At(c) * Cofactor(s, r, c)
  }

  lemma DetAlongColumn(s: System, c: int)
    requires 0 <= c < 3
    ensures Det(s) == Term(s, 0, c) + Term(s, 1, c) + Term(s, 2, c)
  {}

  /** Above a reduced part the terms vanish. */
  lemma ReducedTerm(s: System, r: int, c: int)
    requires 0 <= r < c < 3 && Reduced(s, c)
    ensures Term(s, r, c) == 0.0
  {
    var a, b := s[(r + 1) % 3], s[(r + 2) % 3];
    assert a.At(r) == 0.0 && b.At(r) == 0.0;
  }

  /** The cofactors that a missing pivot in column c leaves in play. */
  function Spread(s: System, c: int): real
    requires 0 <= c < 3
  {
    Abs(Cofactor(s, 2, c)) + (if c < 2 then Abs(Cofactor(s, 1, c)) else 0.0) + (if c < 1 then Abs(Cofactor(s, 0, c)) else 0.0)
  }

  lemma SmallTerm(x: real, y: real, t: real)
    requires Abs(x) <= THRESHOLD && t == x * y
    ensures Abs(t) <= THRESHOLD * Abs(y)
  {
    AbsProduct(x, y);
  }

  lemma SmallEntry(s: System, r: int, c: int)
    requires 0 <= c <= r < 3 && NoPivot(s, c)
    ensures Abs(s[r].At(c)) <= THRESHOLD
  {}

  lemma TinyTerm(s: System, r: int, c: int)
    requires 0 <= c <= r < 3 && NoPivot(s, c)
    ensures Abs(Term(s, r, c)) <= THRESHOLD * Abs(Cofactor(s, r, c))
  {
    hide Cofactor, NoPivot;
    SmallEntry(s, r, c);
    SmallTerm(s[r].At(c), Cofactor(s, r, c), Term(s, r, c));
  }

  lemma TinyColumn(s: System, c: int)
    requires 0 <= c < 3 && Reduced(s, c) && NoPivot(s, c)
    ensures Abs(Det(s)) <= THRESHOLD * Spread(s, c)
  {
    hide Det, Cofactor, Reduced, NoPivot, Term;
    DetAlongColumn(s, c);
    TinyTerm(s, 2, c);
    if c < 2 {
      TinyTerm(s, 1, c);
    } else {
      ReducedTerm(s, 1, c);
    }
    if c < 1 {
      TinyTerm(s, 0, c);
    } else {
      ReducedTerm(s, 0, c);
    }
    TinySum(c, Term(s, 0, c), Term(s, 1, c), Term(s, 2, c),
            Abs(Cofactor(s, 0, c)), Abs(Cofactor(s, 1, c)), Abs(Cofactor(s, 2, c)));
  }

  lemma TinySum(c: int, t0: real, t1: real, t2: real, x0: real, x1: real, x2: real)
    requires Abs(t2) <= THRESHOLD * x2
    requires if c < 2 then Abs(t1) <= THRESHOLD * x1 else t1 == 0.0
    requires if c < 1 then Abs(t0) <= THRESHOLD * x0 else t0 == 0.0
    ensures Abs(t0 + t1 + t2) <= THRESHOLD * (x2 + (if c < 2 then x1 else 0.0) + (if c < 1 then x0 else 0.0))
  {}

  /**
   A refusal at column c bounds the determinant: the pivots found so far, times
   the threshold, times the cofactors of the column that failed.
   */
  lemma RefusalBound(s: System, c: int)
    requires RefusedAt(s, c)
    ensures Abs(Det(s)) <= PivotProduct(s, c) * (THRESHOLD * Spread(Stage(s, c), c))
  {
    hide Det, Spread, NoPivot, Stage, PivotProduct, Abs, Power, Reduced;
    StageDet(s, c);
    StageKeeps(s, c);
    PivotProductBound(s, c);
    TinyColumn(Stage(s, c), c);
    Scale(PivotProduct(s, c), Abs(Det(Stage(s, c))), THRESHOLD * Spread(Stage(s, c), c));
  }

  lemma Scale(p: real, x: real, y: real)
    requires p > 0.0 && x <= y
    ensures p * x <= p * y
  {}

  // ---- the threshold ----

  function Diagonal(a: real, b: real, c: real, x: real, y: real, z: real): System {
    [Row(a, 0.0, 0.0, x), Row(0.0, b, 0.0, y), Row(0.0, 0.0, c, z)]
  }

  lemma DiagonalPivots(a: real, b: real, c: real, x: real, y: real, z: real)
    ensures Pivot(Diagonal(a, b, c, x, y, z), 0) == a
    ensures Pivot(Diagonal(a, b, c, x, y, z), 1) == b
    ensures Pivot(Diagonal(a, b, c, x, y, z), 2) == c
    ensures a != 0.0 ==> PivotUpTo(Diagonal(a, b, c, x, y, z), 0, 2) == 0
    ensures b != 0.0 ==> PivotUpTo(Diagonal(a, b, c, x, y, z), 1, 2) == 1
    ensures c != 0.0 ==> PivotUpTo(Diagonal(a, b, c, x, y, z), 2, 2) == 2
  {
    var s := Diagonal(a, b, c, x, y, z);
    assert PivotUpTo(s, 0, 1) == 0 && PivotUpTo(s, 0, 2) == 0;
    assert PivotUpTo(s, 1, 1) == 1 && PivotUpTo(s, 1, 2) == 1;
  }

  lemma Quotients(a: real)
    requires a != 0.0
    ensures a / a == 1.0 && 0.0 / a == 0.0
  {
    assert 0.0 / a * a == 0.0;
    ZeroProduct(0.0 / a, a);
  }

  lemma NothingToClear(row: Row, pivot: Row)
    ensures row.Minus(0.0, pivot) == row
  {}

  lemma DiagonalFirst(a: real, b: real, c: real, x: real, y: real, z: real)
    requires a != 0.0
    ensures Pivot(Diagonal(a, b, c, x, y, z), 0) != 0.0
    ensures Reduce(Diagonal(a, b, c, x, y, z), 0) == Diagonal(1.0, b, c, x / a, y, z)
  {
    DiagonalPivots(a, b, c, x, y, z);
    var s := Diagonal(a, b, c, x, y, z);
    assert Swapped(s, 0, 0) == s;
    var n := Normalised(s, 0);
    Quotients(a);
    assert n[0] == Row(1.0, 0.0, 0.0, x / a);
    assert n == Diagonal(1.0, b, c, x / a, y, z);
    NothingToClear(n[1], n[0]);
    NothingToClear(n[2], n[0]);
    assert Cleared(n, 0, 1) == n;
    assert Cleared(n, 0, 2) == n;
    assert Cleared(n, 0, 3) == n;
  }

  lemma DiagonalSecond(a: real, b: real, c: real, x: real, y: real, z: real)
    requires b != 0.0
    ensures Pivot(Diagonal(a, b, c, x, y, z), 1) != 0.0
    ensures Reduce(Diagonal(a, b, c, x, y, z), 1) == Diagonal(a, 1.0, c, x, y / b, z)
  {
    DiagonalPivots(a, b, c, x, y, z);
    var s := Diagonal(a, b, c, x, y, z);
    assert Swapped(s, 1, 1) == s;
    var n := Normalised(s, 1);
    Quotients(b);
    assert n[1] == Row(0.0, 1.0, 0.0, y / b);
    assert n == Diagonal(a, 1.0, c, x, y / b, z);
    NothingToClear(n[0], n[1]);
    NothingToClear(n[2], n[1]);
    assert Cleared(n, 1, 1) == n;
    assert Cleared(n, 1, 2) == n;
    assert Cleared(n, 1, 3) == n;
  }

  /** A diagonal system is refused exactly when one of its entries is smaller than 1e-12. */
  lemma DiagonalRefusedIff(a: real, b: real, c: real, x: real, y: real, z: real)
    ensures Refused(Diagonal(a, b, c, x, y, z)) <==>
            Abs(a) < 0.000000000001 || Abs(b) < 0.000000000001 || Abs(c) < 0.000000000001
  {
    hide Reduce, Pivot, Diagonal, NoPivot;
    var s := Diagonal(a, b, c, x, y, z);
    DiagonalPivots(a, b, c, x, y, z);
    PivotOrRefusal(s, 0);
    if Abs(a) < 0.000000000001 {
      assert RefusedAt(s, 0);
    } else {
      DiagonalFirst(a, b, c, x, y, z);
      var t := Diagonal(1.0, b, c, x / a, y, z);
      assert Stage(s, 1) == t;
      DiagonalPivots(1.0, b, c, x / a, y, z);
      PivotOrRefusal(t, 1);
      if Abs(b) < 0.000000000001 {
        assert RefusedAt(s, 1);
      } else {
        DiagonalSecond(1.0, b, c, x / a, y, z);
        var u := Diagonal(1.0, 1.0, c, x / a, y / b, z);
        assert Stage(s, 2) == u;
        DiagonalPivots(1.0, 1.0, c, x / a, y / b, z);
        PivotOrRefusal(u, 2);
        assert Abs(c) < 0.000000000001 ==> RefusedAt(s, 2);
      }
    }
  }

  lemma DiagonalDet(a: real, b: real, c: real, x: real, y: real, z: real)
    ensures Det(Diagonal(a, b, c, x, y, z)) == a * (b * c)
  {}

  lemma DiagonalResidual(a: real, b: real, c: real, rhs: real, t: Triple)
    ensures Residual(Row(a, 0.0, 0.0, rhs), t) == a * t.x - rhs
    ensures Residual(Row(0.0, b, 0.0, rhs), t) == b * t.y - rhs
    ensures Residual(Row(0.0, 0.0, c, rhs), t) == c * t.z - rhs
  {}

  lemma TinySolution(t: Triple)
    ensures Solves(Diagonal(0.0000000000001, 1.0, 1.0, 1.0, 1.0, 1.0), t) <==> t == Triple(10000000000000.0, 1.0, 1.0)
  {
    hide Residual;
    DiagonalResidual(0.0000000000001, 1.0, 1.0, 1.0, t);
  }

  /** The threshold is absolute, so a solvable system can be refused too. */
  lemma SolvableButRefused() returns (s: System)
    ensures Det(s) != 0.0 && Refused(s)
    ensures forall t :: Solves(s, t) <==> t == Triple(10000000000000.0, 1.0, 1.0)
  {
    hide Det, Diagonal, Solves, Refused;
    s := Diagonal(0.0000000000001, 1.0, 1.0, 1.0, 1.0, 1.0);
    DiagonalDet(0.0000000000001, 1.0, 1.0, 1.0, 1.0, 1.0);
    DiagonalRefusedIff(0.0000000000001, 1.0, 1.0, 1.0, 1.0, 1.0);
    forall t ensures Solves(s, t) <==> t == Triple(10000000000000.0, 1.0, 1.0) {
      TinySolution(t);
    }
  }
}
