/** The penalized logistic objective `krlogit_fn_trunc` and its gradient
    `krlogit_gr_trunc` over a truncated eigenbasis `Utrunc` (n-by-r) with
    eigenvalues `D` (length r), as a matched value/gradient pair for an
    external optimizer. */
module Logit {
  import opened Linalg

  /** The optimizer's flat parameter vector `par`, split: the r kernel
      coefficients and the trailing intercept. */
  datatype Params = Params(coef: Vec, beta0: real)

  /** `par.subvec(0, par.n_elem - 2)` and `par(par.n_elem - 1)`. Armadillo
      raises an index error unless `par` has at least two entries. */
  function SplitPar(par: Vec): (p: Params)
    requires |par| >= 2
    ensures |p.coef| == |par| - 1
    ensures FlattenPar(p) == par
  {
    Params(par[..|par| - 1], par[|par| - 1])
  }

  function FlattenPar(p: Params): Vec
  {
    p.coef + [p.beta0]
  }

  /** Splitting a flattened parameter structure gives it back. */
  lemma SplitFlattenPar(p: Params)
    requires |p.coef| >= 1
    ensures SplitPar(FlattenPar(p)) == p
  {
    assert FlattenPar(p)[..|p.coef|] == p.coef;
  }

  /** `par` has length r + 1, `Utrunc` is n-by-r, `D` has length r, `y` length n. */
  predicate LogitShape(par: Vec, U: Mat, D: Vec, y: Vec)
  {
    |par| >= 2 && IsMat(U, |y|, |par| - 1) && |D| == |par| - 1
  }

  /** No eigenvalue is zero, so `1.0/D` and `lambda/D` are defined. */
  predicate NonZero(D: Vec)
  {
    forall j :: 0 <= j < |D| ==> D[j] != 0.0
  }

  /** Every kernel coefficient in `par` (all entries but the last) is zero. */
  predicate ZeroCoef(par: Vec)
  {
    forall j :: 0 <= j < |par| - 1 ==> par[j] == 0.0
  }

  /** Per observation: `y % log(1 + exp(-(beta0 + Ud))) + (1 - y) % log(1 + exp(beta0 + Ud))`. */
  function LogLossTerms(y: Vec, ud: Vec, beta0: real, lib: Libm): (t: Vec)
    requires |ud| == |y|
    ensures |t| == |y|
  {
    seq(|y|, i requires 0 <= i < |y| =>
      y[i] * lib.log(1.0 + lib.exp(-(beta0 + ud[i]))) + (1.0 - y[i]) * lib.log(1.0 + lib.exp(beta0 + ud[i])))
  }

  /** The unpenalized part of the objective: the summed log losses. */
  function DataLoss(par: Vec, U: Mat, y: Vec, lib: Libm): real
    requires |par| >= 2 && IsMat(U, |y|, |par| - 1)
  {
    var p := SplitPar(par);
    Sum(LogLossTerms(y, MatVec(U, p.coef), p.beta0, lib))
  }

  /** One coefficient's share of the penalty, `coef_j * ((1.0/D_j) * coef_j)`. */
  function PenaltyTerm(c: real, d: real): real
    requires d != 0.0
  {
    c * ((1.0 / d) * c)
  }

  /** One coefficient's entry of the penalty gradient, `2 * (lambda / D_j) * coef_j`. */
  function PenaltySlope(c: real, d: real, lam: real): real
    requires d != 0.0
  {
    2.0 * (lam / d) * c
  }

  /** The second-order change `(lambda / d) * t^2` of a penalty term moved by `t`. */
  function Curvature(d: real, lam: real, t: real): real
    requires d != 0.0
  {
    (lam / d) * Pow2(t)
  }

  function PenaltyTerms(coef: Vec, D: Vec): (t: Vec)
    requires |D| == |coef| && NonZero(D)
    ensures |t| == |coef|
  {
    seq(|coef|, j requires 0 <= j < |coef| => PenaltyTerm(coef[j], D[j]))
  }

  /** `coef.t() * ((1.0/D) % coef)`: each coefficient weighted inversely by its eigenvalue. */
  function Penalty(coef: Vec, D: Vec): real
    requires |D| == |coef| && NonZero(D)
  {
    Sum(PenaltyTerms(coef, D))
  }

  /** `krlogit_fn_trunc`: the penalized negative log-likelihood. */
  function KrlogitFnTrunc(par: Vec, U: Mat, D: Vec, y: Vec, lam: real, lib: Libm): (v: real)
    requires LogitShape(par, U, D, y) && NonZero(D)
    ensures lam >= 0.0 && Positive(D) ==> v >= DataLoss(par, U, y, lib)
    ensures ZeroCoef(par) ==> v == DataLoss(par, U, y, lib)
  {
    var coef := SplitPar(par).coef;
    assert lam >= 0.0 && Positive(D) ==> lam * Penalty(coef, D) >= 0.0 by {
      if lam >= 0.0 && Positive(D) {
        PenaltyNonNegative(coef, D, lam);
      }
    }
    assert ZeroCoef(par) ==> Penalty(coef, D) == 0.0 by {
      if ZeroCoef(par) {
        SumOfZeros(PenaltyTerms(coef, D));
      }
    }
    DataLoss(par, U, y, lib) + lam * Penalty(coef, D)
  }

  /** `1 / (1 + exp(-eta))`; the denominator is at least one. */
  function Sigmoid(eta: real, lib: Libm): real
    requires ExpNonNegative(lib)
  {
    1.0 / (1.0 + lib.exp(-eta))
  }

  /** `resid = y - 1 / (1 + exp(-Utrunc * coef - beta0))`: the labels minus the
      fitted probabilities at the linear predictor `beta0 + Utrunc * coef` that
      the objective uses too. */
  function Residuals(par: Vec, U: Mat, y: Vec, lib: Libm): (r: Vec)
    requires |par| >= 2 && IsMat(U, |y|, |par| - 1)
    requires ExpNonNegative(lib)
    ensures |r| == |y|
  {
    var p := SplitPar(par);
    var ud := MatVec(U, p.coef);
    seq(|y|, i requires 0 <= i < |y| => y[i] - Sigmoid(p.beta0 + ud[i], lib))
  }

  /** Per observation `sigma(eta_i) - y_i` at the linear predictor
      `eta_i = beta0 + (Utrunc * coef)_i`: the negated residual. */
  function Errors(par: Vec, U: Mat, y: Vec, lib: Libm): (e: Vec)
    requires |par| >= 2 && IsMat(U, |y|, |par| - 1)
    requires ExpNonNegative(lib)
    ensures |e| == |y|
    ensures forall i :: 0 <= i < |y| ==> e[i] == -Residuals(par, U, y, lib)[i]
  {
    var p := SplitPar(par);
    var ud := MatVec(U, p.coef);
    seq(|y|, i requires 0 <= i < |y| => Sigmoid(p.beta0 + ud[i], lib) - y[i])
  }

  /** `krlogit_gr_trunc`: a vector as long as `par` whose coefficient block is
      `-Utrunc.t() * resid + 2 * (lambda / D) % coef` and whose last entry is
      `-accu(resid)`. */
  function KrlogitGrTrunc(par: Vec, U: Mat, D: Vec, y: Vec, lam: real, lib: Libm): (g: Vec)
    requires LogitShape(par, U, D, y) && NonZero(D)
    requires ExpNonNegative(lib)
    ensures |g| == |par|
    ensures g[|par| - 1] == -Sum(Residuals(par, U, y, lib))
    ensures forall j :: 0 <= j < |par| - 1 ==>
      g[j] == -TMatVec(U, |par| - 1, Residuals(par, U, y, lib))[j] + PenaltySlope(par[j], D[j], lam)
  {
    var coef := SplitPar(par).coef;
    var r := |coef|;
    var resid := Residuals(par, U, y, lib);
    var ut := TMatVec(U, r, resid);
    seq(r, j requires 0 <= j < r => -ut[j] + PenaltySlope(coef[j], D[j], lam)) + [-Sum(resid)]
  }

  /** The data part of the coefficient block is built from the per-observation
      term `sigma(eta_i) - y_i`: entry `j < r` is `sum_i U[i,j] (sigma(eta_i) - y_i)`
      plus the penalty slope, the chain-rule shape of the derivative of the
      summed log loss in coefficient `j`. */
  lemma GradientCoefEntry(par: Vec, U: Mat, D: Vec, y: Vec, lam: real, lib: Libm, j: nat)
    requires LogitShape(par, U, D, y) && NonZero(D) && ExpNonNegative(lib)
    requires j < |par| - 1
    ensures KrlogitGrTrunc(par, U, D, y, lam, lib)[j]
         == TMatVec(U, |par| - 1, Errors(par, U, y, lib))[j] + PenaltySlope(par[j], D[j], lam)
  {
    var r := |par| - 1;
    var resid := Residuals(par, U, y, lib);
    var e := Errors(par, U, y, lib);
    assert TMatVec(U, r, e)[j] == Dot(Column(U, j), e);
    assert TMatVec(U, r, resid)[j] == Dot(Column(U, j), resid);
    DotNegated(Column(U, j), resid, e);
  }

  /** The intercept entry is `sum_i (sigma(eta_i) - y_i)`, built from the same
      per-observation term as the coefficient block. */
  lemma GradientInterceptEntry(par: Vec, U: Mat, D: Vec, y: Vec, lam: real, lib: Libm)
    requires LogitShape(par, U, D, y) && NonZero(D) && ExpNonNegative(lib)
    ensures KrlogitGrTrunc(par, U, D, y, lam, lib)[|par| - 1] == Sum(Errors(par, U, y, lib))
  {
    var resid := Residuals(par, U, y, lib);
    var g := KrlogitGrTrunc(par, U, D, y, lam, lib);
    assert g[|par| - 1] == -Sum(resid);
    SumNegated(resid, Errors(par, U, y, lib));
  }

  /** One penalty term moved by `t`: the change is `t` times the slope plus a
      second-order term. */
  lemma PenaltyTermStep(c: real, d: real, lam: real, t: real)
    requires d != 0.0
    ensures lam * (PenaltyTerm(c + t, d) - PenaltyTerm(c, d)) == t * PenaltySlope(c, d, lam) + Curvature(d, lam, t)
  {
    var e := 1.0 / d;
    calc {
      lam * (PenaltyTerm(c + t, d) - PenaltyTerm(c, d));
      == lam * ((c + t) * (e * (c + t)) - c * (e * c));
      == lam * (2.0 * e * c * t + e * (t * t));
      == t * (2.0 * (lam * e) * c) + (lam * e) * (t * t);
      == { assert lam / d == lam * e; }
         t * PenaltySlope(c, d, lam) + (lam / d) * Pow2(t);
    }
  }

  /** The penalty changes under a step `t` in coefficient `j` by `t` times the
      gradient's penalty entry plus a second-order term: the gradient's
      penalty part is exactly the derivative of the objective's penalty. */
  lemma PenaltyStep(coef: Vec, D: Vec, lam: real, j: nat, t: real)
    requires |D| == |coef| && NonZero(D) && j < |coef|
    ensures lam * Penalty(coef[j := coef[j] + t], D)
         == lam * Penalty(coef, D) + t * PenaltySlope(coef[j], D[j], lam) + Curvature(D[j], lam, t)
  {
    var terms := PenaltyTerms(coef, D);
    var before, after := terms[j], PenaltyTerm(coef[j] + t, D[j]);
    var p := Sum(terms);
    calc {
      lam * Penalty(coef[j := coef[j] + t], D);
      == { MovedPenalty(coef, D, j, t); }
      lam * (p - before + after);
      == lam * p + lam * (after - before);
      == { PenaltyTermStep(coef[j], D[j], lam, t); }
      lam * p + t * PenaltySlope(coef[j], D[j], lam) + Curvature(D[j], lam, t);
    }
  }

  /** Moving coefficient `j` replaces its penalty term and leaves the others. */
  lemma MovedPenalty(coef: Vec, D: Vec, j: nat, t: real)
    requires |D| == |coef| && NonZero(D) && j < |coef|
    ensures Penalty(coef[j := coef[j] + t], D)
         == Penalty(coef, D) - PenaltyTerm(coef[j], D[j]) + PenaltyTerm(coef[j] + t, D[j])
  {
    var terms := PenaltyTerms(coef, D);
    var after := PenaltyTerm(coef[j] + t, D[j]);
    assert PenaltyTerms(coef[j := coef[j] + t], D) == terms[j := after];
    SumUpdate(terms, j, after);
  }

  /** Moving coefficient `j` by `t` changes the objective, apart from its data
      part, by `t` times `PenaltySlope(par[j], D[j], lam)` plus
      `(lambda/D_j) t^2`. `PenaltySlope` is the penalty part of the
      gradient's entry `j` (see `KrlogitGrTrunc`), so that part is exactly
      the derivative of the objective's penalty. */
  lemma ObjectivePenaltyStep(par: Vec, U: Mat, D: Vec, y: Vec, lam: real, lib: Libm, j: nat, t: real)
    requires LogitShape(par, U, D, y) && NonZero(D)
    requires j < |par| - 1
    ensures var moved := par[j := par[j] + t];
      KrlogitFnTrunc(moved, U, D, y, lam, lib) - DataLoss(moved, U, y, lib)
      == KrlogitFnTrunc(par, U, D, y, lam, lib) - DataLoss(par, U, y, lib)
         + t * PenaltySlope(par[j], D[j], lam) + Curvature(D[j], lam, t)
  {
    MovedPenaltyPart(par, U, D, y, lam, lib, j, t);
    PenaltyPart(par, U, D, y, lam, lib);
    ParPenaltyStep(par, D, lam, j, t);
  }

  /** `PenaltyStep` for the coefficients held in `par`. */
  lemma ParPenaltyStep(par: Vec, D: Vec, lam: real, j: nat, t: real)
    requires |par| >= 2 && |D| == |par| - 1 && NonZero(D) && j < |par| - 1
    ensures var coef := SplitPar(par).coef;
      lam * Penalty(coef[j := coef[j] + t], D)
      == lam * Penalty(coef, D) + t * PenaltySlope(par[j], D[j], lam) + Curvature(D[j], lam, t)
  {
    var coef := SplitPar(par).coef;
    PenaltyStep(coef, D, lam, j, t);
    assert coef[j] == par[j];
  }

  /** After moving coefficient `j` by `t`, the objective minus its data part
      is `lambda` times the penalty of the moved coefficients. */
  lemma MovedPenaltyPart(par: Vec, U: Mat, D: Vec, y: Vec, lam: real, lib: Libm, j: nat, t: real)
    requires LogitShape(par, U, D, y) && NonZero(D)
    requires j < |par| - 1
    ensures var moved := par[j := par[j] + t];
      var coef := SplitPar(par).coef;
      KrlogitFnTrunc(moved, U, D, y, lam, lib) - DataLoss(moved, U, y, lib)
      == lam * Penalty(coef[j := coef[j] + t], D)
  {
    PenaltyPart(par[j := par[j] + t], U, D, y, lam, lib);
    MovedCoef(par, j, t);
  }

  /** Moving entry `j < r` of `par` moves coefficient `j` and nothing else. */
  lemma MovedCoef(par: Vec, j: nat, t: real)
    requires |par| >= 2 && j < |par| - 1
    ensures SplitPar(par[j := par[j] + t]).coef == SplitPar(par).coef[j := SplitPar(par).coef[j] + t]
  {
  }

  /** The objective minus its data part is `lambda` times the penalty. */
  lemma PenaltyPart(par: Vec, U: Mat, D: Vec, y: Vec, lam: real, lib: Libm)
    requires LogitShape(par, U, D, y) && NonZero(D)
    ensures KrlogitFnTrunc(par, U, D, y, lam, lib) - DataLoss(par, U, y, lib) == lam * Penalty(SplitPar(par).coef, D)
  {
  }

  /** The intercept is not penalized: changing `beta0` leaves the penalty
      alone, and the gradient's intercept entry does not depend on `lambda`. */
  lemma InterceptUnpenalized(par: Vec, U: Mat, D: Vec, y: Vec, lam: real, otherLambda: real, lib: Libm, v: real)
    requires LogitShape(par, U, D, y) && NonZero(D) && ExpNonNegative(lib)
    ensures var moved := par[|par| - 1 := v];
      KrlogitFnTrunc(moved, U, D, y, lam, lib) - DataLoss(moved, U, y, lib)
      == KrlogitFnTrunc(par, U, D, y, lam, lib) - DataLoss(par, U, y, lib)
    ensures KrlogitGrTrunc(par, U, D, y, lam, lib)[|par| - 1] == KrlogitGrTrunc(par, U, D, y, otherLambda, lib)[|par| - 1]
  {
    var moved := par[|par| - 1 := v];
    assert SplitPar(moved).coef == SplitPar(par).coef;
  }

  /** With `lambda >= 0` and positive eigenvalues the penalty is non-negative. */
  lemma PenaltyNonNegative(coef: Vec, D: Vec, lam: real)
    requires |D| == |coef| && forall j :: 0 <= j < |D| ==> D[j] > 0.0
    requires lam >= 0.0
    ensures lam * Penalty(coef, D) >= 0.0
  {
    var terms := PenaltyTerms(coef, D);
    forall j | 0 <= j < |coef| ensures terms[j] >= 0.0 {
      PenaltyTermSign(coef[j], D[j]);
    }
    SumNonNegative(terms);
    assert Penalty(coef, D) >= 0.0;
    calc { lam * Penalty(coef, D); >= 0.0 * Penalty(coef, D); == 0.0; }
  }

  /** With positive eigenvalues the penalty vanishes exactly when every coefficient does. */
  lemma PenaltyZeroIff(coef: Vec, D: Vec)
    requires |D| == |coef| && forall j :: 0 <= j < |D| ==> D[j] > 0.0
    ensures Penalty(coef, D) == 0.0 <==> forall j :: 0 <= j < |coef| ==> coef[j] == 0.0
  {
    var terms := PenaltyTerms(coef, D);
    forall j | 0 <= j < |coef|
      ensures terms[j] >= 0.0 && (coef[j] != 0.0 ==> terms[j] > 0.0) && (coef[j] == 0.0 ==> terms[j] == 0.0)
    {
      PenaltyTermSign(coef[j], D[j]);
    }
    SumZeroIff(terms);
  }

  /** A penalty term with `d > 0` is non-negative, and zero exactly when `c` is. */
  lemma PenaltyTermSign(c: real, d: real)
    requires d > 0.0
    ensures PenaltyTerm(c, d) >= 0.0
    ensures c != 0.0 ==> PenaltyTerm(c, d) > 0.0
    ensures c == 0.0 ==> PenaltyTerm(c, d) == 0.0
  {
    var e := 1.0 / d;
    assert e > 0.0;
    Pow2Sign(c);
    calc { PenaltyTerm(c, d); == c * (e * c); == e * Pow2(c); }
    if c != 0.0 {
      calc { e * Pow2(c); > 0.0 * Pow2(c); == 0.0; }
    } else {
      calc { e * Pow2(c); == e * 0.0; == 0.0; }
    }
  }

  /** With every coefficient zero the basis and the penalty drop out: the
      objective is the log loss of the intercept alone. */
  lemma ObjectiveAtZeroCoef(par: Vec, U: Mat, D: Vec, y: Vec, lam: real, lib: Libm)
    requires LogitShape(par, U, D, y) && NonZero(D)
    requires forall j :: 0 <= j < |par| - 1 ==> par[j] == 0.0
    ensures KrlogitFnTrunc(par, U, D, y, lam, lib)
         == Sum(LogLossTerms(y, seq(|y|, i => 0.0), par[|par| - 1], lib))
  {
    var p := SplitPar(par);
    MatVecOfZeroVector(U, p.coef);
    assert MatVec(U, p.coef) == seq(|y|, i => 0.0);
    SumOfZeros(PenaltyTerms(p.coef, D));
  }
}
