/** `solve_for_c_ls_trunc`: ridge regression of `y` on the truncated
    eigenbasis `Utrunc` (n-by-r) with eigenvalues `D`, returning the
    coefficients and the leave-one-out error `Le`. */
module LeastSquares {
  import opened Linalg
  import opened Scaling

  /** `1 / (1 + lambda / d)`: how much ridge penalty `lambda` shrinks the
      direction with eigenvalue `d`. */
  function ShrinkFactor(d: real, lam: real): real
    requires d != 0.0 && 1.0 + lam / d != 0.0
  {
    1.0 / (1.0 + lam / d)
  }

  /** Every factor `1 / (1 + lambda / D_j)` is defined. */
  predicate Shrinkable(D: Vec, lam: real)
  {
    forall j :: 0 <= j < |D| ==> D[j] != 0.0 && 1.0 + lam / D[j] != 0.0
  }

  /** `Ginv = 1 / (1 + lambda / D)`. */
  function ShrinkFactors(D: Vec, lam: real): (g: Vec)
    requires Shrinkable(D, lam)
    ensures |g| == |D|
    ensures forall j :: 0 <= j < |D| ==> g[j] * (1.0 + lam / D[j]) == 1.0
    ensures lam >= 0.0 && Positive(D) ==> forall j :: 0 <= j < |D| ==> 0.0 < g[j] <= 1.0
  {
    var g := seq(|D|, j requires 0 <= j < |D| => ShrinkFactor(D[j], lam));
    assert forall j :: 0 <= j < |D| ==> g[j] * (1.0 + lam / D[j]) == 1.0 by {
      forall j | 0 <= j < |D| ensures g[j] * (1.0 + lam / D[j]) == 1.0 {
        ShrinkFactorInverse(D[j], lam);
      }
    }
    assert lam >= 0.0 && Positive(D) ==> forall j :: 0 <= j < |D| ==> 0.0 < g[j] <= 1.0 by {
      if lam >= 0.0 && Positive(D) {
        forall j | 0 <= j < |D| ensures 0.0 < g[j] <= 1.0 {
          ShrinkFactorBounds(D[j], lam);
        }
      }
    }
    g
  }

  /** The factor is the reciprocal of `1 + lambda / d`. */
  lemma ShrinkFactorInverse(d: real, lam: real)
    requires d != 0.0 && 1.0 + lam / d != 0.0
    ensures ShrinkFactor(d, lam) * (1.0 + lam / d) == 1.0
  {
  }

  /** With `lambda >= 0` and a positive eigenvalue the factor lies in (0, 1]. */
  lemma ShrinkFactorBounds(d: real, lam: real)
    requires d > 0.0 && lam >= 0.0
    ensures 1.0 + lam / d != 0.0
    ensures 0.0 < ShrinkFactor(d, lam) <= 1.0
  {
    var q := lam / d;
    assert q >= 0.0;
    var s := ShrinkFactor(d, lam);
    assert s * (1.0 + q) == 1.0;
  }

  /** The factor is one exactly when there is no penalty. */
  lemma ShrinkFactorOneIff(d: real, lam: real)
    requires d != 0.0 && 1.0 + lam / d != 0.0
    ensures ShrinkFactor(d, lam) == 1.0 <==> lam == 0.0
  {
    var q := lam / d;
    assert ShrinkFactor(d, lam) * (1.0 + q) == 1.0;
    assert q * d == lam;
  }

  /** A larger penalty shrinks more. */
  lemma ShrinkFactorMonotone(d: real, lambda1: real, lambda2: real)
    requires d > 0.0 && 0.0 <= lambda1 <= lambda2
    ensures 1.0 + lambda1 / d != 0.0 && 1.0 + lambda2 / d != 0.0
    ensures ShrinkFactor(d, lambda2) <= ShrinkFactor(d, lambda1)
  {
    var q1, q2 := lambda1 / d, lambda2 / d;
    assert 0.0 <= q1 <= q2 by {
      calc { q2 - q1; == (lambda2 - lambda1) / d; >= 0.0; }
    }
    var s1, s2 := ShrinkFactor(d, lambda1), ShrinkFactor(d, lambda2);
    assert s1 * (1.0 + q1) == 1.0 && s2 * (1.0 + q2) == 1.0;
    ShrinkFactorBounds(d, lambda2);
    calc {
      s2;
      == s2 * (s1 * (1.0 + q1));
      == s1 * (s2 * (1.0 + q1));
      <= { assert s2 * (1.0 + q1) <= s2 * (1.0 + q2); }
         s1 * (s2 * (1.0 + q2));
      == s1;
    }
  }

  /** The hat matrix `mult_diag(Utrunc, Ginv) * Utrunc.t()`, n-by-n. */
  function HatMatrix(U: Mat, r: nat, g: Vec): (h: Mat)
    requires IsMat(U, |U|, r) && r <= |g|
    ensures IsMat(h, |U|, |U|)
  {
    MatMul(ScaleColumns(U, r, g), Transpose(U, r), |U|)
  }

  /** `diagvec` of the hat matrix: the leverages. */
  function HatDiag(U: Mat, r: nat, g: Vec): (h: Vec)
    requires IsMat(U, |U|, r) && r <= |g|
    ensures |h| == |U|
    ensures forall i :: 0 <= i < |U| ==> h[i] == Sum(LeverageTerms(U, r, g, i))
    ensures (forall j :: 0 <= j < r ==> g[j] >= 0.0) ==> forall i :: 0 <= i < |U| ==> h[i] >= 0.0
  {
    var h := seq(|U|, i requires 0 <= i < |U| => HatMatrix(U, r, g)[i][i]);
    assert forall i :: 0 <= i < |U| ==> h[i] == Sum(LeverageTerms(U, r, g, i)) by {
      forall i | 0 <= i < |U| ensures h[i] == Sum(LeverageTerms(U, r, g, i)) {
        HatDiagIsLeverage(U, r, g, i);
      }
    }
    assert (forall j :: 0 <= j < r ==> g[j] >= 0.0) ==> forall i :: 0 <= i < |U| ==> h[i] >= 0.0 by {
      if forall j :: 0 <= j < r ==> g[j] >= 0.0 {
        forall i | 0 <= i < |U| ensures h[i] >= 0.0 {
          LeverageNonNegative(U, r, g, i);
        }
      }
    }
    h
  }

  /** The terms `Ginv_j * U[i,j]^2` of a leverage. */
  function LeverageTerms(U: Mat, r: nat, g: Vec, i: nat): (t: Vec)
    requires IsMat(U, |U|, r) && r <= |g| && i < |U|
    ensures |t| == r
  {
    seq(r, j requires 0 <= j < r => g[j] * Pow2(U[i][j]))
  }

  /** The terms `U[i,j] * Ginv_j * U[m,j]` of hat matrix entry `(i, m)`. */
  function CrossTerms(U: Mat, r: nat, g: Vec, i: nat, m: nat): (t: Vec)
    requires IsMat(U, |U|, r) && r <= |g| && i < |U| && m < |U|
    ensures |t| == r
  {
    seq(r, j requires 0 <= j < r => (U[i][j] * g[j]) * U[m][j])
  }

  /** Entry `(i, m)` of the hat matrix is `sum_j U[i,j] * Ginv_j * U[m,j]`. */
  lemma HatMatrixEntry(U: Mat, r: nat, g: Vec, i: nat, m: nat)
    requires IsMat(U, |U|, r) && r <= |g| && i < |U| && m < |U|
    ensures HatMatrix(U, r, g)[i][m] == Sum(CrossTerms(U, r, g, i, m))
  {
    var t := Products(ScaleColumns(U, r, g)[i], Column(Transpose(U, r), m));
    forall j | 0 <= j < r ensures t[j] == CrossTerms(U, r, g, i, m)[j] {
      assert Column(Transpose(U, r), m)[j] == Column(U, j)[m];
    }
    assert t == CrossTerms(U, r, g, i, m);
  }

  /** Leverage `h_i = sum_j U[i,j]^2 * Ginv_j`. */
  lemma HatDiagIsLeverage(U: Mat, r: nat, g: Vec, i: nat)
    requires IsMat(U, |U|, r) && r <= |g| && i < |U|
    ensures HatMatrix(U, r, g)[i][i] == Sum(LeverageTerms(U, r, g, i))
  {
    HatMatrixEntry(U, r, g, i, i);
    var a := CrossTerms(U, r, g, i, i);
    forall j | 0 <= j < r ensures a[j] == LeverageTerms(U, r, g, i)[j] {
      calc { a[j]; == (U[i][j] * g[j]) * U[i][j]; == g[j] * (U[i][j] * U[i][j]); }
    }
    assert a == LeverageTerms(U, r, g, i);
  }

  /** With non-negative factors every leverage is non-negative. */
  lemma LeverageNonNegative(U: Mat, r: nat, g: Vec, i: nat)
    requires IsMat(U, |U|, r) && r <= |g| && i < |U|
    requires forall j :: 0 <= j < r ==> g[j] >= 0.0
    ensures Sum(LeverageTerms(U, r, g, i)) >= 0.0
  {
    var t := LeverageTerms(U, r, g, i);
    forall j | 0 <= j < r ensures t[j] >= 0.0 {
      Pow2Sign(U[i][j]);
      calc { t[j]; == g[j] * Pow2(U[i][j]); >= 0.0 * Pow2(U[i][j]); == 0.0; }
    }
    SumNonNegative(t);
  }

  /** The hat matrix is symmetric. */
  lemma HatMatrixSymmetric(U: Mat, r: nat, g: Vec, i: nat, m: nat)
    requires IsMat(U, |U|, r) && r <= |g| && i < |U| && m < |U|
    ensures HatMatrix(U, r, g)[i][m] == HatMatrix(U, r, g)[m][i]
  {
    HatMatrixEntry(U, r, g, i, m);
    HatMatrixEntry(U, r, g, m, i);
    var a := CrossTerms(U, r, g, i, m);
    var b := CrossTerms(U, r, g, m, i);
    forall j | 0 <= j < r ensures a[j] == b[j] {
      calc { a[j]; == (U[i][j] * g[j]) * U[m][j]; == (U[m][j] * g[j]) * U[i][j]; }
    }
    assert a == b;
  }

  /** One entry of `tempLoss`: `y_i - (fitted_i - h_i * y_i) / (1 - h_i)`,
      the label minus the prediction made without observation `i`. */
  function LooResidual(yi: real, fi: real, hi: real): real
    requires hi != 1.0
  {
    yi - (fi - hi * yi) / (1.0 - hi)
  }

  /** The residual scaled by `1 / (1 - h_i)`: the formula the commented-out
      line computes gives the same leave-one-out residual. */
  lemma LooResidualShortcut(yi: real, fi: real, hi: real)
    requires hi != 1.0
    ensures LooResidual(yi, fi, hi) == (yi - fi) / (1.0 - hi)
  {
    var q := 1.0 - hi;
    calc {
      LooResidual(yi, fi, hi);
      == yi - (fi - hi * yi) / q;
      == (yi * q) / q - (fi - hi * yi) / q;
      == (yi * q - (fi - hi * yi)) / q;
      == { assert yi * q - (fi - hi * yi) == yi - fi; }
         (yi - fi) / q;
    }
  }

  /** `tempLoss` for the fitted values `fitted` and leverages `h`. */
  function LooResiduals(y: Vec, fitted: Vec, h: Vec): (e: Vec)
    requires |fitted| == |y| && |h| == |y|
    requires forall i :: 0 <= i < |h| ==> h[i] != 1.0
    ensures |e| == |y|
    ensures forall i :: 0 <= i < |y| ==> e[i] == (y[i] - fitted[i]) / (1.0 - h[i])
  {
    var e := seq(|y|, i requires 0 <= i < |y| => LooResidual(y[i], fitted[i], h[i]));
    assert forall i :: 0 <= i < |y| ==> e[i] == (y[i] - fitted[i]) / (1.0 - h[i]) by {
      forall i | 0 <= i < |y| ensures e[i] == (y[i] - fitted[i]) / (1.0 - h[i]) {
        LooResidualShortcut(y[i], fitted[i], h[i]);
      }
    }
    e
  }

  /** The squares `((y_i - fitted_i) / (1 - h_i))^2` of the leave-one-out residuals. */
  function LooSquares(y: Vec, fitted: Vec, h: Vec): (t: Vec)
    requires |fitted| == |y| && |h| == |y|
    requires forall i :: 0 <= i < |h| ==> h[i] != 1.0
    ensures |t| == |y|
  {
    seq(|y|, i requires 0 <= i < |y| => Pow2((y[i] - fitted[i]) / (1.0 - h[i])))
  }

  /** A vector's inner product with itself is never negative. */
  lemma SelfDotNonNegative(v: Vec)
    ensures Dot(v, v) >= 0.0
  {
    var t := Products(v, v);
    forall i | 0 <= i < |v| ensures t[i] >= 0.0 {
      Pow2Sign(v[i]);
    }
    SumNonNegative(t);
  }

  /** What `solve_for_c_ls_trunc` returns. */
  datatype LsFit = LsFit(coeffs: Vec, le: real)

  /** `Utrunc` is n-by-r with r >= 1 eigenvalues; `mult_diag` reads `Ginv(0)`
      even when it scales a single column, so `D` may not be empty. */
  predicate LsShape(y: Vec, U: Mat, D: Vec)
  {
    |D| >= 1 && IsMat(U, |y|, |D|)
  }

  /** The factors are defined and no leverage is one, so `tempLoss` divides by non-zero values. */
  predicate LooDefined(U: Mat, D: Vec, lam: real)
    requires IsMat(U, |U|, |D|)
  {
    Shrinkable(D, lam) &&
    forall i :: 0 <= i < |U| ==> HatDiag(U, |D|, ShrinkFactors(D, lam))[i] != 1.0
  }

  /** The leave-one-out part shared by both coefficient rules: fitted values
      `Utrunc * coeffs`, residuals and `Le = tempLoss.t() * tempLoss`. */
  function LooFit(y: Vec, U: Mat, D: Vec, lam: real, coeffs: Vec): (fit: LsFit)
    requires LsShape(y, U, D) && LooDefined(U, D, lam) && |coeffs| == |D|
    ensures fit.coeffs == coeffs
    ensures fit.le == Sum(LooSquares(y, MatVec(U, coeffs), HatDiag(U, |D|, ShrinkFactors(D, lam))))
    ensures fit.le >= 0.0
  {
    var f, h := MatVec(U, coeffs), HatDiag(U, |D|, ShrinkFactors(D, lam));
    var loss := LooResiduals(y, f, h);
    SelfDotNonNegative(loss);
    LooResidualsSquared(y, f, h);
    LsFit(coeffs, Dot(loss, loss))
  }

  /** `tempLoss.t() * tempLoss` is the sum of the squared shortcut residuals. */
  lemma LooResidualsSquared(y: Vec, fitted: Vec, h: Vec)
    requires |fitted| == |y| && |h| == |y|
    requires forall i :: 0 <= i < |h| ==> h[i] != 1.0
    ensures Dot(LooResiduals(y, fitted, h), LooResiduals(y, fitted, h)) == Sum(LooSquares(y, fitted, h))
  {
    var e := LooResiduals(y, fitted, h);
    var sq := LooSquares(y, fitted, h);
    forall i | 0 <= i < |y| ensures Products(e, e)[i] == sq[i] {
      assert e[i] == (y[i] - fitted[i]) / (1.0 - h[i]);
    }
    assert Products(e, e) == sq;
  }

  /** `Utrunc.t() * y` as the r-by-1 matrix it is in Armadillo. */
  function AsColumn(v: Vec): (m: Mat)
    ensures IsMat(m, |v|, 1)
  {
    seq(|v|, i requires 0 <= i < |v| => [v[i]])
  }

  /** `mult_diag(Utrunc.t() * y, Ginv)` as written: the argument has one
      column, so the loop of `mult_diag` runs once and every entry is
      scaled by `Ginv(0)`. */
  function AsWrittenCoeffs(y: Vec, U: Mat, D: Vec, lam: real): (c: Vec)
    requires LsShape(y, U, D) && Shrinkable(D, lam)
    ensures |c| == |D|
    ensures forall k :: 0 <= k < |D| ==> c[k] == TMatVec(U, |D|, y)[k] * ShrinkFactor(D[0], lam)
  {
    Column(ScaleColumns(AsColumn(TMatVec(U, |D|, y)), 1, ShrinkFactors(D, lam)), 0)
  }

  /** `solve_for_c_ls_trunc` as written. */
  function SolveForCLsTrunc(y: Vec, U: Mat, D: Vec, lam: real): (fit: LsFit)
    requires LsShape(y, U, D) && LooDefined(U, D, lam)
    ensures |fit.coeffs| == |D|
    ensures forall k :: 0 <= k < |D| ==> fit.coeffs[k] == TMatVec(U, |D|, y)[k] * ShrinkFactor(D[0], lam)
    ensures fit.le == Sum(LooSquares(y, MatVec(U, fit.coeffs), HatDiag(U, |D|, ShrinkFactors(D, lam))))
    ensures fit.le >= 0.0
  {
    LooFit(y, U, D, lam, AsWrittenCoeffs(y, U, D, lam))
  }

  /** The ridge coefficients `Ginv % (Utrunc.t() * y)`: each direction shrunk by its own factor. */
  function RidgeCoeffs(y: Vec, U: Mat, D: Vec, lam: real): (c: Vec)
    requires LsShape(y, U, D) && Shrinkable(D, lam)
    ensures |c| == |D|
  {
    var uty := TMatVec(U, |D|, y);
    seq(|D|, k requires 0 <= k < |D| => ShrinkFactor(D[k], lam) * uty[k])
  }

  /** `solve_for_c_ls_trunc` with each coefficient scaled by its own factor. */
  function SolveForCLsTruncIntended(y: Vec, U: Mat, D: Vec, lam: real): (fit: LsFit)
    requires LsShape(y, U, D) && LooDefined(U, D, lam)
    ensures fit.coeffs == RidgeCoeffs(y, U, D, lam)
    ensures fit.le == Sum(LooSquares(y, MatVec(U, fit.coeffs), HatDiag(U, |D|, ShrinkFactors(D, lam))))
    ensures fit.le >= 0.0
  {
    LooFit(y, U, D, lam, RidgeCoeffs(y, U, D, lam))
  }

  /** The two rules agree whenever every direction has the same factor as
      the first, in particular when `lambda == 0` or all eigenvalues are equal. */
  lemma AsWrittenAgreesWhenUniform(y: Vec, U: Mat, D: Vec, lam: real)
    requires LsShape(y, U, D) && LooDefined(U, D, lam)
    requires forall k :: 0 <= k < |D| ==> ShrinkFactor(D[k], lam) == ShrinkFactor(D[0], lam)
    ensures SolveForCLsTrunc(y, U, D, lam) == SolveForCLsTruncIntended(y, U, D, lam)
  {
    var c1, c2 := AsWrittenCoeffs(y, U, D, lam), RidgeCoeffs(y, U, D, lam);
    forall k | 0 <= k < |D| ensures c1[k] == c2[k] {
      var u := TMatVec(U, |D|, y)[k];
      assert c1[k] == u * ShrinkFactor(D[0], lam);
      assert c2[k] == ShrinkFactor(D[k], lam) * u;
    }
    assert c1 == c2;
  }

  /** Without a penalty the ridge coefficients are `Utrunc.t() * y`. */
  lemma RidgeCoeffsAtZeroPenalty(y: Vec, U: Mat, D: Vec)
    requires LsShape(y, U, D) && Shrinkable(D, 0.0)
    ensures RidgeCoeffs(y, U, D, 0.0) == TMatVec(U, |D|, y)
  {
    var c := RidgeCoeffs(y, U, D, 0.0);
    forall k | 0 <= k < |D| ensures c[k] == TMatVec(U, |D|, y)[k] {
      ShrinkFactorOneIff(D[k], 0.0);
    }
  }

  /** With `lambda >= 0` and positive eigenvalues each ridge coefficient has
      the sign of `(Utrunc.t() * y)_k` and no larger a magnitude. */
  lemma RidgeCoeffsShrink(y: Vec, U: Mat, D: Vec, lam: real, k: nat)
    requires LsShape(y, U, D) && lam >= 0.0
    requires forall j :: 0 <= j < |D| ==> D[j] > 0.0
    requires k < |D|
    ensures Shrinkable(D, lam)
    ensures RidgeCoeffs(y, U, D, lam)[k] * TMatVec(U, |D|, y)[k] >= 0.0
    ensures Pow2(RidgeCoeffs(y, U, D, lam)[k]) <= Pow2(TMatVec(U, |D|, y)[k])
  {
    forall j | 0 <= j < |D| ensures 1.0 + lam / D[j] != 0.0 {
      ShrinkFactorBounds(D[j], lam);
    }
    var s := ShrinkFactor(D[k], lam);
    var u := TMatVec(U, |D|, y)[k];
    ShrinkFactorBounds(D[k], lam);
    Pow2Sign(u);
    calc { (s * u) * u; == s * Pow2(u); >= 0.0 * Pow2(u); == 0.0; }
    calc {
      Pow2(s * u);
      == (s * s) * Pow2(u);
      <= { assert s * s <= 1.0 by { calc { s * s; <= s * 1.0; <= 1.0; } } }
         1.0 * Pow2(u);
      == Pow2(u);
    }
  }

  /** The double sum behind `(Utrunc * coeffs)_i`: term `(k, m)` is
      `U[i,k] Ginv_k * U[m,k] y_m`. */
  function FitTerms(y: Vec, U: Mat, r: nat, g: Vec, i: nat): (a: Mat)
    requires IsMat(U, |y|, r) && r <= |g| && i < |U|
    ensures IsMat(a, r, |U|)
  {
    seq(r, k requires 0 <= k < r => seq(|U|, m requires 0 <= m < |U| => (U[i][k] * g[k]) * (U[m][k] * y[m])))
  }

  /** Row `k` of the double sum adds up to term `k` of `(Utrunc * coeffs)_i`. */
  lemma FitTermsRows(y: Vec, U: Mat, D: Vec, lam: real, i: nat)
    requires LsShape(y, U, D) && Shrinkable(D, lam) && i < |U|
    ensures RowSums(FitTerms(y, U, |D|, ShrinkFactors(D, lam), i)) == Products(U[i], RidgeCoeffs(y, U, D, lam))
  {
    var a := FitTerms(y, U, |D|, ShrinkFactors(D, lam), i);
    var c := RidgeCoeffs(y, U, D, lam);
    forall k | 0 <= k < |D| ensures RowSums(a)[k] == Products(U[i], c)[k] {
      FitTermsRow(y, U, D, lam, i, k);
    }
  }

  lemma FitTermsRow(y: Vec, U: Mat, D: Vec, lam: real, i: nat, k: nat)
    requires LsShape(y, U, D) && Shrinkable(D, lam) && i < |U| && k < |D|
    ensures Sum(FitTerms(y, U, |D|, ShrinkFactors(D, lam), i)[k]) == U[i][k] * RidgeCoeffs(y, U, D, lam)[k]
  {
    var g := ShrinkFactors(D, lam);
    var row := FitTerms(y, U, |D|, g, i)[k];
    var uty := TMatVec(U, |D|, y);
    SumScale(U[i][k] * g[k], Products(Column(U, k), y), row);
    assert RidgeCoeffs(y, U, D, lam)[k] == g[k] * uty[k];
    calc {
      U[i][k] * (g[k] * uty[k]);
      == (U[i][k] * g[k]) * uty[k];
    }
  }

  /** Column `m` of the double sum adds up to term `m` of `(H * y)_i`. */
  lemma FitTermsColumns(y: Vec, U: Mat, r: nat, g: Vec, i: nat)
    requires IsMat(U, |y|, r) && r <= |g| && i < |U|
    ensures ColumnSums(FitTerms(y, U, r, g, i), |U|) == Products(HatMatrix(U, r, g)[i], y)
  {
    var a := FitTerms(y, U, r, g, i);
    var H := HatMatrix(U, r, g);
    forall m | 0 <= m < |U| ensures ColumnSums(a, |U|)[m] == Products(H[i], y)[m] {
      var hm := CrossTerms(U, r, g, i, m);
      forall k | 0 <= k < r ensures Column(a, m)[k] == y[m] * hm[k] {
        calc {
          Column(a, m)[k];
          == (U[i][k] * g[k]) * (U[m][k] * y[m]);
          == y[m] * ((U[i][k] * g[k]) * U[m][k]);
        }
      }
      SumScale(y[m], hm, Column(a, m));
      HatMatrixEntry(U, r, g, i, m);
    }
  }

  /** With the ridge coefficients the fitted values are the hat matrix
      applied to `y`: the leverages the leave-one-out formula divides by
      belong to the smoother that produced the fit. */
  lemma RidgeFitIsHatTimesY(y: Vec, U: Mat, D: Vec, lam: real, i: nat)
    requires LsShape(y, U, D) && Shrinkable(D, lam) && i < |U|
    ensures MatVec(U, RidgeCoeffs(y, U, D, lam))[i]
         == MatVec(HatMatrix(U, |D|, ShrinkFactors(D, lam)), y)[i]
  {
    var g := ShrinkFactors(D, lam);
    SumRowsColumns(FitTerms(y, U, |D|, g, i), |U|);
    FitTermsRows(y, U, D, lam, i);
    FitTermsColumns(y, U, |D|, g, i);
  }

  /** A two-term sum. */
  lemma SumPair(u: real, v: real)
    ensures Sum([u, v]) == u + v
  {
    assert [u][..0] == [];
    assert Sum([u]) == u;
    assert [u, v][..1] == [u];
  }

  /** `Utrunc.t() * y` on the 2-by-2 identity basis is `y`. */
  lemma IdentityBasisProjection(y: Vec)
    requires |y| == 2
    ensures TMatVec([[1.0, 0.0], [0.0, 1.0]], 2, y) == y
  {
    var U := [[1.0, 0.0], [0.0, 1.0]];
    assert Products(Column(U, 0), y) == [y[0], 0.0];
    SumPair(y[0], 0.0);
    assert Products(Column(U, 1), y) == [0.0, y[1]];
    SumPair(0.0, y[1]);
  }

  /** The second fitted value on the 2-by-2 identity basis is the second coefficient. */
  lemma IdentityBasisFit(c: Vec)
    requires |c| == 2
    ensures MatVec([[1.0, 0.0], [0.0, 1.0]], c)[1] == c[1]
  {
    var U := [[1.0, 0.0], [0.0, 1.0]];
    assert Products(U[1], c) == [0.0, c[1]];
    SumPair(0.0, c[1]);
  }

  /** On the identity basis with eigenvalues 1 and 2, `lambda = 1` and
      `y = (1, 1)`, the code gives the second coefficient `1/2` where the
      ridge rule gives `2/3`, and its fitted value is not the hat matrix
      applied to `y`. */
  lemma AsWrittenCounterexample()
    ensures var U, D, y := [[1.0, 0.0], [0.0, 1.0]], [1.0, 2.0], [1.0, 1.0];
      LsShape(y, U, D) && Shrinkable(D, 1.0) &&
      AsWrittenCoeffs(y, U, D, 1.0)[1] == 0.5 &&
      RidgeCoeffs(y, U, D, 1.0)[1] == 2.0 / 3.0 &&
      MatVec(U, AsWrittenCoeffs(y, U, D, 1.0))[1] != MatVec(HatMatrix(U, 2, ShrinkFactors(D, 1.0)), y)[1]
  {
    var U, D, y := [[1.0, 0.0], [0.0, 1.0]], [1.0, 2.0], [1.0, 1.0];
    assert LsShape(y, U, D);
    assert ShrinkFactor(1.0, 1.0) == 0.5;
    assert ShrinkFactor(2.0, 1.0) == 2.0 / 3.0;
    IdentityBasisProjection(y);
    var c := AsWrittenCoeffs(y, U, D, 1.0);
    var rc := RidgeCoeffs(y, U, D, 1.0);
    assert c[1] == 0.5;
    assert rc[1] == 2.0 / 3.0;
    IdentityBasisFit(c);
    IdentityBasisFit(rc);
    RidgeFitIsHatTimesY(y, U, D, 1.0, 1);
  }
}
