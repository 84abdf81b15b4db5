/**
 The fits of tools/analyze_current_loop.py: `_fit_sine` and `_fit_quadrature`
 build the normal equations of a three-term linear model and solve them. The
 basis values (cosine, sine, reference samples) are the rows; reals are exact.
 */
module LeastSquares {
  import opened LinearSolver
  import opened Options
  import SolverRefusal

  /** The basis functions at one sample. */
  datatype Basis = Basis(b0: real, b1: real, b2: real) {
    function At(i: int): real
      requires 0 <= i < 3
    {
      if i == 0 then b0 else if i == 1 then b1 else b2
    }
  }

  function Predict(b: Basis, t: Triple): real {
    b.b0 * t.x + b.b1 * t.y + b.b2 * t.z
  }

  /** The (i, j) entry of the normal matrix. */
  function Gram(rows: seq<Basis>, i: int, j: int): real
    requires 0 <= i < 3 && 0 <= j < 3
  {
    if rows == [] then 0.0 else rows[0].At(i) * rows[0].At(j) + Gram(rows[1..], i, j)
  }

  /** Entry i of the projected vector; `zip` stops at the shorter list. */
  function Projected(rows: seq<Basis>, values: seq<real>, i: int): real
    requires 0 <= i < 3
  {
    if rows == [] || values == [] then 0.0
    else rows[0].At(i) * values[0] + Projected(rows[1..], values[1..], i)
  }

  function NormalRow(rows: seq<Basis>, values: seq<real>, i: int): Row
    requires 0 <= i < 3
  {
    Row(Gram(rows, i, 0), Gram(rows, i, 1), Gram(rows, i, 2), Projected(rows, values, i))
  }

  function NormalSystem(rows: seq<Basis>, values: seq<real>): System {
    [NormalRow(rows, values, 0), NormalRow(rows, values, 1), NormalRow(rows, values, 2)]
  }

  /** The sum of squared residuals of a candidate triple. */
  ghost function SquaredError(rows: seq<Basis>, values: seq<real>, t: Triple): real
    requires |rows| == |values|
  {
    if rows == [] then 0.0
    else
      var e := values[0] - Predict(rows[0], t);
      e * e + SquaredError(rows[1..], values[1..], t)
  }

  /** The normal equations and their solution, common to both fits. */
  method Fit(rows: seq<Basis>, values: seq<real>) returns (r: Option<Triple>)
    ensures r.Some? ==> forall t :: Solves(NormalSystem(rows, values), t) <==> t == r.value
    ensures r.Some? && |rows| == |values| ==>
              forall t :: SquaredError(rows, values, r.value) <= SquaredError(rows, values, t)
    ensures r.Some? && |rows| == |values| ==>
              forall t :: SquaredError(rows, values, t) == SquaredError(rows, values, r.value) ==> t == r.value
    ensures r.None? <==> Refused(NormalSystem(rows, values))
    ensures Dependent(rows) ==> r.None?
  {
    hide NormalSystem, Solves, Refused, Dependent;
    r := Solve(NormalSystem(rows, values));
    if Dependent(rows) {
      DependentIsRefused(rows, values);
    }
    if r.Some? && |rows| == |values| {
      forall t
        ensures SquaredError(rows, values, r.value) <= SquaredError(rows, values, t)
        ensures SquaredError(rows, values, t) == SquaredError(rows, values, r.value) ==> t == r.value
      {
        SolutionIsBest(rows, values, r.value, t);
      }
    }
  }

  /**
   `_fit_quadrature`, and with the cosines and sines of the sample times as
   references `_fit_sine`, up to the polar form of the result.
   */
  method FitQuadrature(primary: seq<real>, quadrature: seq<real>, measured: seq<real>) returns (r: Option<Triple>)
    ensures r.Some? && |primary| == |quadrature| == |measured| ==>
              forall t :: Misfit(primary, quadrature, measured, r.value) <= Misfit(primary, quadrature, measured, t)
    ensures r.Some? && |primary| == |quadrature| == |measured| ==>
              forall t :: Misfit(primary, quadrature, measured, t) == Misfit(primary, quadrature, measured, r.value)
                          ==> t == r.value
    ensures r.None? <==> Refused(NormalSystem(QuadratureRows(primary, quadrature), measured))
    ensures NotSpanning(primary, quadrature) ==> r.None?
  {
    hide Refused, Dependent, NotSpanning, Solves;
    var rows := QuadratureRows(primary, quadrature);
    r := Fit(rows, measured);
    if NotSpanning(primary, quadrature) {
      NotSpanningIsDependent(primary, quadrature);
    }
    if r.Some? && |primary| == |quadrature| == |measured| {
      MisfitIsSquaredError(primary, quadrature, measured, r.value);
      forall t
        ensures Misfit(primary, quadrature, measured, r.value) <= Misfit(primary, quadrature, measured, t)
        ensures Misfit(primary, quadrature, measured, t) == Misfit(primary, quadrature, measured, r.value) ==> t == r.value
      {
        MisfitIsSquaredError(primary, quadrature, measured, t);
      }
    }
  }

  /** The rows of both fits: two references and a constant; `zip` stops at the shorter list. */
  function QuadratureRows(primary: seq<real>, quadrature: seq<real>): (rows: seq<Basis>)
    ensures |rows| == if |primary| <= |quadrature| then |primary| else |quadrature|
    ensures forall i :: 0 <= i < |rows| ==> rows[i] == Basis(primary[i], quadrature[i], 1.0)
  {
    if primary == [] || quadrature == [] then []
    else [Basis(primary[0], quadrature[0], 1.0)] + QuadratureRows(primary[1..], quadrature[1..])
  }

  /** The squared distance of a measured signal from a combination of two references and an offset. */
  ghost function Misfit(primary: seq<real>, quadrature: seq<real>, measured: seq<real>, t: Triple): real
    requires |primary| == |quadrature| == |measured|
  {
    if measured == [] then 0.0
    else
      var e := measured[0] - (t.x * primary[0] + t.y * quadrature[0] + t.z);
      e * e + Misfit(primary[1..], quadrature[1..], measured[1..], t)
  }

  lemma {:induction false} MisfitIsSquaredError(primary: seq<real>, quadrature: seq<real>, measured: seq<real>, t: Triple)
    requires |primary| == |quadrature| == |measured|
    ensures Misfit(primary, quadrature, measured, t) == SquaredError(QuadratureRows(primary, quadrature), measured, t)
    decreases |measured|
  {
    var rows := QuadratureRows(primary, quadrature);
    if measured != [] {
      MisfitIsSquaredError(primary[1..], quadrature[1..], measured[1..], t);
      assert rows[1..] == QuadratureRows(primary[1..], quadrature[1..]);
      assert Predict(rows[0], t) == t.x * primary[0] + t.y * quadrature[0] + t.z;
    }
  }

  // ---- captures that do not determine a fit ----

  const ZERO: Triple := Triple(0.0, 0.0, 0.0)

  /** Some combination of the basis functions vanishes at every sample. */
  ghost predicate Dependent(rows: seq<Basis>) {
    exists d :: d != ZERO && Vanishes(rows, d)
  }

  ghost predicate Vanishes(rows: seq<Basis>, d: Triple) {
    forall i :: 0 <= i < |rows| ==> Predict(rows[i], d) == 0.0
  }

  /** The two references and the constant are linearly dependent over the capture. */
  ghost predicate NotSpanning(primary: seq<real>, quadrature: seq<real>) {
    exists d :: d != ZERO && CombinesToZero(primary, quadrature, d)
  }

  ghost predicate CombinesToZero(primary: seq<real>, quadrature: seq<real>, d: Triple) {
    forall i :: 0 <= i < |primary| && i < |quadrature| ==> d.x * primary[i] + d.y * quadrature[i] + d.z == 0.0
  }

  lemma NotSpanningIsDependent(primary: seq<real>, quadrature: seq<real>)
    requires NotSpanning(primary, quadrature)
    ensures Dependent(QuadratureRows(primary, quadrature))
  {
    hide QuadratureRows, Predict;
    var d :| d != ZERO && CombinesToZero(primary, quadrature, d);
    var rows := QuadratureRows(primary, quadrature);
    forall i | 0 <= i < |rows| ensures Predict(rows[i], d) == 0.0 {
      assert d.x * primary[i] + d.y * quadrature[i] + d.z == 0.0;
      PredictOf(primary[i], quadrature[i], d);
    }
    assert Vanishes(rows, d);
  }

  lemma PredictOf(p: real, q: real, d: Triple)
    ensures Predict(Basis(p, q, 1.0), d) == d.x * p + d.y * q + d.z
  {}

  /** A dependent capture of any length is refused, whatever was measured. */
  lemma DependentIsRefused(rows: seq<Basis>, values: seq<real>)
    requires Dependent(rows)
    ensures Refused(NormalSystem(rows, values))
  {
    hide Refused, NormalRow;
    var d :| d != ZERO && Vanishes(rows, d);
    var s := NormalSystem(rows, values);
    forall r | 0 <= r < 3 ensures Residual(s[r], d) + s[r].rhs == 0.0 {
      GramVanishes(rows, values, r, d);
    }
    SolverRefusal.KernelIsRefused(s, d);
  }

  lemma GramVanishes(rows: seq<Basis>, values: seq<real>, i: int, d: Triple)
    requires 0 <= i < 3 && Vanishes(rows, d)
    ensures var row := NormalRow(rows, values, i); Residual(row, d) + row.rhs == 0.0
  {
    hide Gram, Projected, Vanishes;
    GramCombination(rows, i, d);
  }

  /** A row of the normal matrix applied to a triple. */
  ghost function Applied(g0: real, g1: real, g2: real, d: Triple): real {
    g0 * d.x + g1 * d.y + g2 * d.z
  }

  lemma {:induction false} GramCombination(rows: seq<Basis>, i: int, d: Triple)
    requires 0 <= i < 3 && Vanishes(rows, d)
    ensures Applied(Gram(rows, i, 0), Gram(rows, i, 1), Gram(rows, i, 2), d) == 0.0
    decreases |rows|
  {
    hide Predict, Applied;
    if rows != [] {
      var b := rows[0];
      GramCombination(rows[1..], i, d);
      CombinationStep(b.At(i), b, d, Gram(rows[1..], i, 0), Gram(rows[1..], i, 1), Gram(rows[1..], i, 2),
                      Gram(rows, i, 0), Gram(rows, i, 1), Gram(rows, i, 2));
    } else {
      AppliedZero(d);
    }
  }

  lemma CombinationStep(a: real, b: Basis, d: Triple, g0: real, g1: real, g2: real, h0: real, h1: real, h2: real)
    requires Predict(b, d) == 0.0 && Applied(g0, g1, g2, d) == 0.0
    requires h0 == a * b.b0 + g0 && h1 == a * b.b1 + g1 && h2 == a * b.b2 + g2
    ensures Applied(h0, h1, h2, d) == 0.0
  {
    assert Applied(h0, h1, h2, d) == a * Predict(b, d) + Applied(g0, g1, g2, d);
  }

  lemma AppliedZero(d: Triple)
    ensures Applied(0.0, 0.0, 0.0, d) == 0.0
  {}

  // ---- optimality ----

  function Difference(t: Triple, s: Triple): Triple {
    Triple(t.x - s.x, t.y - s.y, t.z - s.z)
  }

  /** The residuals of s against the prediction of a step d. */
  ghost function Cross(rows: seq<Basis>, values: seq<real>, s: Triple, d: Triple): real
    requires |rows| == |values|
  {
    if rows == [] then 0.0
    else (values[0] - Predict(rows[0], s)) * Predict(rows[0], d) + Cross(rows[1..], values[1..], s, d)
  }

  ghost function Energy(rows: seq<Basis>, d: Triple): (e: real)
    ensures e >= 0.0
  {
    if rows == [] then 0.0
    else
      Square(Predict(rows[0], d));
      Predict(rows[0], d) * Predict(rows[0], d) + Energy(rows[1..], d)
  }

  lemma Square(x: real)
    ensures x * x >= 0.0
  {
  }

  lemma PredictDifference(b: Basis, t: Triple, s: Triple)
    ensures Predict(b, t) == Predict(b, s) + Predict(b, Difference(t, s))
  {
  }

  lemma SquareOfDifference(a: real, b: real)
    ensures (a - b) * (a - b) == a * a - 2.0 * (a * b) + b * b
  {
  }

  /** The error of t, expanded around s. */
  lemma {:induction false} ErrorExpansion(rows: seq<Basis>, values: seq<real>, t: Triple, s: Triple)
    requires |rows| == |values|
    ensures SquaredError(rows, values, t) ==
            SquaredError(rows, values, s) - 2.0 * Cross(rows, values, s, Difference(t, s))
            + Energy(rows, Difference(t, s))
    decreases rows
  {
    if rows != [] {
      hide Predict, Difference;
      var d := Difference(t, s);
      ErrorExpansion(rows[1..], values[1..], t, s);
      PredictDifference(rows[0], t, s);
      ExpansionStep(values[0], Predict(rows[0], t), Predict(rows[0], s), Predict(rows[0], d),
                    SquaredError(rows[1..], values[1..], t), SquaredError(rows[1..], values[1..], s),
                    Cross(rows[1..], values[1..], s, d), Energy(rows[1..], d));
    }
  }

  lemma ExpansionStep(v: real, pt: real, ps: real, pd: real, et: real, es: real, c: real, e: real)
    requires pt == ps + pd && et == es - 2.0 * c + e
    ensures (v - pt) * (v - pt) + et == ((v - ps) * (v - ps) + es) - 2.0 * ((v - ps) * pd + c) + (pd * pd + e)
  {
    assert v - pt == (v - ps) - pd;
    SquareOfDifference(v - ps, pd);
  }

  /** What is left of the normal equations at s, seen along d. */
  ghost function Slope(rows: seq<Basis>, values: seq<real>, s: Triple, d: Triple): real {
    - d.x * Residual(NormalRow(rows, values, 0), s)
    - d.y * Residual(NormalRow(rows, values, 1), s)
    - d.z * Residual(NormalRow(rows, values, 2), s)
  }

  lemma {:induction false} CrossIsSlope(rows: seq<Basis>, values: seq<real>, s: Triple, d: Triple)
    requires |rows| == |values|
    ensures Cross(rows, values, s, d) == Slope(rows, values, s, d)
    decreases rows
  {
    if rows != [] {
      hide Predict, Slope;
      CrossIsSlope(rows[1..], values[1..], s, d);
      SlopeStep(rows, values, s, d);
    }
  }

  /** One sample's share in the normal equations. */
  ghost function Share(b: Basis, v: real, s: Triple, i: int): real
    requires 0 <= i < 3
  {
    b.At(i) * b.b0 * s.x + b.At(i) * b.b1 * s.y + b.At(i) * b.b2 * s.z - b.At(i) * v
  }

  lemma ResidualStep(rows: seq<Basis>, values: seq<real>, s: Triple, i: int)
    requires |rows| == |values| && rows != [] && 0 <= i < 3
    ensures Residual(NormalRow(rows, values, i), s) ==
            Share(rows[0], values[0], s, i) + Residual(NormalRow(rows[1..], values[1..], i), s)
  {
    hide NormalRow, Residual, Basis.At;
    var b, v, rest := rows[0], values[0], NormalRow(rows[1..], values[1..], i);
    var p, q, r, w := b.At(i) * b.b0, b.At(i) * b.b1, b.At(i) * b.b2, b.At(i) * v;
    NormalRowStep(rows, values, i);
    assert NormalRow(rows, values, i) == Row(p + rest.c0, q + rest.c1, r + rest.c2, w + rest.rhs);
    ResidualAdds(p, q, r, w, rest, s);
    assert Share(b, v, s, i) == p * s.x + q * s.y + r * s.z - w;
  }

  lemma NormalRowStep(rows: seq<Basis>, values: seq<real>, i: int)
    requires |rows| == |values| && rows != [] && 0 <= i < 3
    ensures
      var b, v, rest := rows[0], values[0], NormalRow(rows[1..], values[1..], i);
      NormalRow(rows, values, i) ==
      Row(b.At(i) * b.b0 + rest.c0, b.At(i) * b.b1 + rest.c1, b.At(i) * b.b2 + rest.c2, b.At(i) * v + rest.rhs)
  {
    hide Gram, Projected, Basis.At;
    var b := rows[0];
    Entries(b);
    GramStep(rows, i, 0, b.b0);
    GramStep(rows, i, 1, b.b1);
    GramStep(rows, i, 2, b.b2);
    ProjectedStep(rows, values, i);
  }

  lemma GramStep(rows: seq<Basis>, i: int, j: int, entry: real)
    requires rows != [] && 0 <= i < 3 && 0 <= j < 3 && rows[0].At(j) == entry
    ensures Gram(rows, i, j) == rows[0].At(i) * entry + Gram(rows[1..], i, j)
  {
    hide Basis.At;
  }

  lemma ProjectedStep(rows: seq<Basis>, values: seq<real>, i: int)
    requires rows != [] && values != [] && 0 <= i < 3
    ensures Projected(rows, values, i) == rows[0].At(i) * values[0] + Projected(rows[1..], values[1..], i)
  {
  }

  lemma Entries(b: Basis)
    ensures b.At(0) == b.b0 && b.At(1) == b.b1 && b.At(2) == b.b2
  {
  }

  lemma ResidualAdds(p: real, q: real, r: real, w: real, rest: Row, s: Triple)
    ensures Residual(Row(p + rest.c0, q + rest.c1, r + rest.c2, w + rest.rhs), s) ==
            (p * s.x + q * s.y + r * s.z - w) + Residual(rest, s)
  {
  }

  lemma ShareIsGradient(b: Basis, v: real, s: Triple, i: int)
    requires 0 <= i < 3
    ensures Share(b, v, s, i) == b.At(i) * (Predict(b, s) - v)
  {
  }

  lemma SlopeStep(rows: seq<Basis>, values: seq<real>, s: Triple, d: Triple)
    requires |rows| == |values| && rows != []
    ensures Slope(rows, values, s, d) ==
            (values[0] - Predict(rows[0], s)) * Predict(rows[0], d) + Slope(rows[1..], values[1..], s, d)
  {
    hide Residual, NormalRow, Share;
    var b, v := rows[0], values[0];
    ResidualStep(rows, values, s, 0);
    ResidualStep(rows, values, s, 1);
    ResidualStep(rows, values, s, 2);
    ShareIsGradient(b, v, s, 0);
    ShareIsGradient(b, v, s, 1);
    ShareIsGradient(b, v, s, 2);
    Gradient(b, Predict(b, s) - v, d,
             Residual(NormalRow(rows[1..], values[1..], 0), s),
             Residual(NormalRow(rows[1..], values[1..], 1), s),
             Residual(NormalRow(rows[1..], values[1..], 2), s));
  }

  lemma Gradient(b: Basis, e: real, d: Triple, r0: real, r1: real, r2: real)
    ensures - d.x * (b.b0 * e + r0) - d.y * (b.b1 * e + r1) - d.z * (b.b2 * e + r2)
         == -e * Predict(b, d) + (- d.x * r0 - d.y * r1 - d.z * r2)
  {
  }

  /**
   Global optimality: the triple that solves the normal equations, and no
   other, minimises the squared error over all real triples.
   */
  lemma SolutionIsBest(rows: seq<Basis>, values: seq<real>, s: Triple, t: Triple)
    requires |rows| == |values|
    requires forall q :: Solves(NormalSystem(rows, values), q) <==> q == s
    ensures SquaredError(rows, values, s) <= SquaredError(rows, values, t)
    ensures SquaredError(rows, values, t) == SquaredError(rows, values, s) ==> t == s
  {
    hide Residual, SquaredError, Cross, Energy, NormalRow;
    var d := Difference(t, s);
    assert Solves(NormalSystem(rows, values), s);
    ErrorExpansion(rows, values, t, s);
    CrossIsSlope(rows, values, s, d);
    if Energy(rows, d) == 0.0 {
      NoEnergyNoChange(rows, values, s, t, 0);
      NoEnergyNoChange(rows, values, s, t, 1);
      NoEnergyNoChange(rows, values, s, t, 2);
      assert Solves(NormalSystem(rows, values), t);
    }
  }

  /** A step that changes no prediction changes no normal equation. */
  lemma {:induction false} NoEnergyNoChange(rows: seq<Basis>, values: seq<real>, s: Triple, t: Triple, i: int)
    requires |rows| == |values| && 0 <= i < 3
    requires Energy(rows, Difference(t, s)) == 0.0
    ensures Residual(NormalRow(rows, values, i), t) == Residual(NormalRow(rows, values, i), s)
    decreases rows
  {
    if rows == [] {
      assert NormalRow(rows, values, i) == Row(0.0, 0.0, 0.0, 0.0);
    } else {
      NoChangeStep(rows, values, s, t, i);
      NoEnergyNoChange(rows[1..], values[1..], s, t, i);
    }
  }

  lemma NoChangeStep(rows: seq<Basis>, values: seq<real>, s: Triple, t: Triple, i: int)
    requires |rows| == |values| && 0 <= i < 3 && rows != []
    requires Energy(rows, Difference(t, s)) == 0.0
    ensures Energy(rows[1..], Difference(t, s)) == 0.0
    ensures
      Residual(NormalRow(rows, values, i), t) - Residual(NormalRow(rows[1..], values[1..], i), t) ==
      Residual(NormalRow(rows, values, i), s) - Residual(NormalRow(rows[1..], values[1..], i), s)
  {
    hide Residual, NormalRow, Predict, Share, Difference, Basis.At;
    ZeroSum(Predict(rows[0], Difference(t, s)), Energy(rows[1..], Difference(t, s)));
    PredictDifference(rows[0], t, s);
    ResidualStep(rows, values, s, i);
    ResidualStep(rows, values, t, i);
    ShareIsGradient(rows[0], values[0], s, i);
    ShareIsGradient(rows[0], values[0], t, i);
  }

  lemma ZeroSum(p: real, rest: real)
    requires p * p + rest == 0.0 && rest >= 0.0
    ensures p == 0.0 && rest == 0.0
  {
    NonzeroSquare(p);
  }

  lemma NonzeroSquare(p: real)
    ensures p * p >= 0.0
    ensures p * p == 0.0 ==> p == 0.0
  {
    if p != 0.0 {
      assert p * p / p == p;
    }
  }
}
