# KRLS kernel and ridge routines in Dafny

This project models the numerical core of the KRLS package's C++ file
`src/rcpparma_fns.cpp` (kernel-based regularized least squares, built on
RcppArmadillo). It covers:

- the Gaussian kernel routines `euc_dist`, `kern_gauss_1d`, `kern_gauss` and
  `new_gauss_kern`;
- the column-scaling helper `mult_diag`;
- the truncated penalized logistic objective `krlogit_fn_trunc` and its
  gradient `krlogit_gr_trunc`;
- the truncated ridge solve `solve_for_c_ls_trunc`, with its leave-one-out
  error;
- the pointwise marginal effects `pwmfx`.

Numbers are Dafny `real`s. A matrix is a sequence of rows (`Linalg.Mat`).
`exp`, `log` and `sqrt` are the fields of a `Libm` value passed in, so
nothing is assumed about them beyond the facts a lemma states as a
precondition: `sqrt(0) == 0`, and `exp(z) >= 0`. Division by zero and
Armadillo's shape and bounds errors become preconditions. The penalty weight
`lambda` of the C++ routines is the parameter `lam` in the Dafny.

Routines that work by updating a buffer in a loop are methods over `array2`,
proved against specification functions:

- `euc_dist` accumulates in a loop.
- `kern_gauss` and `new_gauss_kern` fill a matrix with nested loops.
- `mult_diag` assigns one column per iteration.
- `pwmfx` runs a triple loop over `out` and `distmat`. Its innermost loop is
  `AccumulateRow`, one pass of its row loop is `EffectRow`, the row loop is
  `FillEffects`, and one iteration of its column loop is `FillColumn`.

The single-expression routines are functions: `kern_gauss_1d`, the logistic
objective and gradient, and `solve_for_c_ls_trunc`.

Modules:

- `Linalg` (linalg.dfy): vectors, matrices, `accu`-style sums and the products
  built from them, with lemmas about sums.
- `Kernels` (kernels.dfy): distance and Gaussian kernels.
- `Scaling` (scaling.dfy): `mult_diag`.
- `Logit` (logit.dfy): `krlogit_fn_trunc` and `krlogit_gr_trunc`.
- `LeastSquares` (least_squares.dfy): `solve_for_c_ls_trunc`.
- `MarginalEffects` (marginal_effects.dfy): `pwmfx`.

Three behaviours of the code are easy to overlook. The model follows the code
in each:

- `solve_for_c_ls_trunc` passes `Utrunc.t() * y`, an r-by-1 column, to
  `mult_diag` (src/rcpparma_fns.cpp:203). Its column loop then runs once, so
  only `Ginv(0)` is read and every coefficient is scaled by it; see
  "Findings".
- The variance row of `pwmfx` (src/rcpparma_fns.cpp:259-260) never reads
  `coefhat`. An all-zero `coefhat` makes the effect rows zero (`Effect`), but
  not the variance row; that row is zero for a constant column
  (`EffectVariance`).
- `mult_diag` (src/rcpparma_fns.cpp:131) reads only `d(0)` to
  `d(ncols - 1)`, so a longer `d` is accepted and its tail ignored
  (`ScaleColumnsReadsPrefix`).

## Model

| member | source | states |
|---|---|---|
| Kernels.Distance | src/rcpparma_fns.cpp:60-68 | the distance of a row to itself is `sqrt(0)`, and for rows of equal length the arguments can be swapped inside the square root |
| Kernels.EucDist | src/rcpparma_fns.cpp:60-68 | the loop returns `sqrt` of the sum of `(x1[i]-x2[i])^2` over the entries of `x1`; `x2` must be at least as long |
| Kernels.SqDistNonNegative | src/rcpparma_fns.cpp:61-66 | the accumulated sum of squares is never negative |
| Kernels.SqDistSymmetric | src/rcpparma_fns.cpp:61-66 | swapping two rows of equal length leaves the sum of squares unchanged |
| Kernels.SqDistZeroIff | src/rcpparma_fns.cpp:61-66 | the sum of squares is zero exactly when `x1` equals the leading entries of `x2` |
| Kernels.DistanceSymmetric | src/rcpparma_fns.cpp:60-68 | `euc_dist` is symmetric for rows of equal length |
| Kernels.DistanceToSelf | src/rcpparma_fns.cpp:60-68 | the distance of a row to itself is `sqrt(0)` |
| Kernels.KernGauss1d | src/rcpparma_fns.cpp:74-77 | the kernel value is non-negative when `exp` is, and is `exp(0)` when the squared distance is zero and `sqrt(0) == 0` |
| Kernels.KernGauss1dSelf | src/rcpparma_fns.cpp:74-77 | a row against itself gives `exp(0)` when `sqrt(0) == 0` |
| Kernels.KernGauss1dSymmetric | src/rcpparma_fns.cpp:74-77 | the kernel is symmetric in its two rows |
| Kernels.KernGauss | src/rcpparma_fns.cpp:84-101 | the result is a fresh n-by-n array with a unit diagonal, is symmetric, and holds `kern_gauss_1d(x[i], x[j], b)` off the diagonal |
| Kernels.NewGaussKern | src/rcpparma_fns.cpp:107-119 | the result is a fresh n1-by-n2 array and entry `(i, j)` is `kern_gauss_1d(newx[i], oldx[j], b)` |
| Scaling.MultDiag | src/rcpparma_fns.cpp:128-134 | the result is a fresh array with the shape of `x` and entry `(r, c)` is `x[r][c] * d[c]`; `d` needs at least as many entries as `x` has columns |
| Scaling.ScaleColumnsByOnes | src/rcpparma_fns.cpp:128-134 | an all-ones `d` returns `x` unchanged |
| Scaling.ScaleColumnsReadsPrefix | src/rcpparma_fns.cpp:130-131 | entries of `d` past the column count make no difference |
| Scaling.ScaleColumnsIsDiagProduct | src/rcpparma_fns.cpp:128-134 | column scaling equals the product `x * diagmat(d)` |
| Logit.SplitPar | src/rcpparma_fns.cpp:19-20 | `coef` is `par` without its last entry and `beta0` is that entry; flattening them back gives `par` |
| Logit.SplitFlattenPar | src/rcpparma_fns.cpp:19-20 | splitting a flattened coefficient/intercept pair gives it back |
| Logit.KrlogitFnTrunc | src/rcpparma_fns.cpp:13-29 | with `lambda >= 0` and positive eigenvalues the objective is at least its log-loss part; with every coefficient zero it equals the log-loss part |
| Logit.KrlogitGrTrunc | src/rcpparma_fns.cpp:33-49 | the gradient is as long as `par`; its last entry is `-sum(resid)`; entry `j` of the coefficient block is `-(Utrunc.t() * resid)_j + 2 (lambda/D_j) coef_j` |
| Logit.GradientCoefEntry | src/rcpparma_fns.cpp:41-45 | entry `j` of the coefficient block is `(Utrunc.t() * e)_j + 2 (lambda/D_j) coef_j`, with `e_i = sigmoid(beta0 + (Utrunc * coef)_i) - y_i`: the chain-rule shape of a gradient of summed per-row losses plus the penalty |
| Logit.GradientInterceptEntry | src/rcpparma_fns.cpp:41-46 | the last entry is `sum_i e_i`, with the same `e` |
| Logit.PenaltyTermStep | src/rcpparma_fns.cpp:25 | moving one coefficient by `t` changes `lambda * coef_j^2 / D_j` by `t` times the slope `2 (lambda/D_j) coef_j` plus `(lambda/D_j) t^2` |
| Logit.PenaltyStep | src/rcpparma_fns.cpp:25 | the same first- and second-order change holds for the whole penalty `coef.t() * ((1/D) % coef)` |
| Logit.ObjectivePenaltyStep | src/rcpparma_fns.cpp:13-49 | moving `par[j]` by `t` changes the objective, apart from its log-loss part, by `t` times the penalty part of gradient entry `j` plus `(lambda/D_j) t^2`, so the gradient's penalty block is the derivative of the objective's penalty |
| Logit.InterceptUnpenalized | src/rcpparma_fns.cpp:20-46 | changing `beta0` leaves the penalty unchanged, and the gradient's last entry does not depend on `lambda` |
| Logit.PenaltyNonNegative | src/rcpparma_fns.cpp:25 | with `lambda >= 0` and positive eigenvalues the penalty term is non-negative |
| Logit.PenaltyZeroIff | src/rcpparma_fns.cpp:25 | with positive eigenvalues the penalty is zero exactly when every coefficient is zero |
| Logit.PenaltyTermSign | src/rcpparma_fns.cpp:25 | one term `coef_j * ((1/D_j) * coef_j)` is non-negative for `D_j > 0`, and zero exactly when `coef_j` is zero |
| Logit.ObjectiveAtZeroCoef | src/rcpparma_fns.cpp:19-25 | with every coefficient zero the objective is the log loss of the intercept alone |
| LeastSquares.ShrinkFactors | src/rcpparma_fns.cpp:201 | `Ginv` has one entry per eigenvalue, each the reciprocal of `1 + lambda/D_j`, and all lie in (0, 1] when `lambda >= 0` and every `D_j > 0` |
| LeastSquares.ShrinkFactorBounds | src/rcpparma_fns.cpp:201 | with `lambda >= 0` and `D_j > 0`, `Ginv_j` is defined and lies in (0, 1] |
| LeastSquares.ShrinkFactorOneIff | src/rcpparma_fns.cpp:201 | `Ginv_j == 1` exactly when `lambda == 0` |
| LeastSquares.ShrinkFactorMonotone | src/rcpparma_fns.cpp:201 | a larger `lambda` gives a smaller `Ginv_j` |
| LeastSquares.HatMatrixEntry | src/rcpparma_fns.cpp:205 | entry `(i, m)` of `mult_diag(Utrunc, Ginv) * Utrunc.t()` is `sum_j U[i,j] Ginv_j U[m,j]` |
| LeastSquares.HatDiagIsLeverage | src/rcpparma_fns.cpp:205 | diagonal entry `(i, i)` of the hat matrix is `sum_j Ginv_j U[i,j]^2` |
| LeastSquares.LeverageNonNegative | src/rcpparma_fns.cpp:205 | with non-negative `Ginv` every leverage `sum_j Ginv_j U[i,j]^2` is non-negative |
| LeastSquares.HatDiag | src/rcpparma_fns.cpp:205 | `diagvec` of the hat matrix has one entry per row, entry `i` is the leverage `sum_j Ginv_j U[i,j]^2`, and all are non-negative when `Ginv` is |
| LeastSquares.HatMatrixSymmetric | src/rcpparma_fns.cpp:205 | the hat matrix is symmetric |
| LeastSquares.LooResidualShortcut | src/rcpparma_fns.cpp:204-205 | each entry of `tempLoss`, `y_i - (fitted_i - h_i y_i)/(1 - h_i)`, equals `(y_i - fitted_i)/(1 - h_i)`, the formula on the commented-out line |
| LeastSquares.LooResiduals | src/rcpparma_fns.cpp:204-205 | `tempLoss` has one entry per observation, entry `i` being `(y_i - fitted_i)/(1 - h_i)` |
| LeastSquares.LooResidualsSquared | src/rcpparma_fns.cpp:205-206 | `tempLoss.t() * tempLoss` is the sum over `i` of `((y_i - fitted_i)/(1 - h_i))^2` |
| LeastSquares.LooFit | src/rcpparma_fns.cpp:205-206 | the returned coefficients are the ones given, and `Le` is the sum over `i` of `((y_i - fitted_i)/(1 - h_i))^2`, with `fitted = Utrunc * coeffs` and `h` the leverages, hence non-negative |
| LeastSquares.AsWrittenCoeffs | src/rcpparma_fns.cpp:203 | `mult_diag` applied to the r-by-1 matrix `Utrunc.t() * y` scales every entry by `Ginv(0)` |
| LeastSquares.SolveForCLsTrunc | src/rcpparma_fns.cpp:196-210 | as written: r coefficients `(Utrunc.t() * y)_k * Ginv_0`, and `Le` the sum of `((y_i - fitted_i)/(1 - h_i))^2` for the fit of those coefficients, hence non-negative; needs r >= 1 and every `h_i != 1` |
| LeastSquares.SolveForCLsTruncIntended | src/rcpparma_fns.cpp:196-210 | corrected: the coefficients are `Ginv_k * (Utrunc.t() * y)_k`, and `Le` the sum of `((y_i - fitted_i)/(1 - h_i))^2` for the fit of those coefficients, hence non-negative |
| LeastSquares.AsWrittenAgreesWhenUniform | src/rcpparma_fns.cpp:201-203 | the written and corrected results coincide whenever every `Ginv_k` equals `Ginv_0`, for example when `lambda == 0` |
| LeastSquares.RidgeCoeffsAtZeroPenalty | src/rcpparma_fns.cpp:201-203 | with `lambda == 0` the corrected coefficients are `Utrunc.t() * y` |
| LeastSquares.RidgeCoeffsShrink | src/rcpparma_fns.cpp:201-203 | with `lambda >= 0` and positive eigenvalues each corrected coefficient keeps the sign of `(Utrunc.t() * y)_k` and is no larger in magnitude |
| LeastSquares.RidgeFitIsHatTimesY | src/rcpparma_fns.cpp:203-205 | with the corrected coefficients, `Utrunc * coeffs` equals the hat matrix applied to `y`, so the leverages in `tempLoss` belong to the fit |
| LeastSquares.AsWrittenCounterexample | src/rcpparma_fns.cpp:203 | on the identity basis with `D = (1, 2)`, `lambda = 1`, `y = (1, 1)`, the second coefficient is `1/2` where the corrected rule gives `2/3`, and the written fit is not the hat matrix applied to `y` |
| MarginalEffects.DistMatAntisymmetric | src/rcpparma_fns.cpp:253 | `distmat(i, i) == 0` and `distmat(i, i2) == -distmat(i2, i)` |
| MarginalEffects.AccumulateRow | src/rcpparma_fns.cpp:251-255 | the inner loop fills row `i` of `distmat` with `x(i, j) - x(i2, j)`, leaves the other rows alone, and leaves `val` equal to `sum_i2 coefhat(i2) k(i, i2) distmat(i, i2)` |
| MarginalEffects.Effect | src/rcpparma_fns.cpp:251-257 | the effect `-(p(i)/b) * val` is zero when `coefhat` is all zero, and zero when column `j` is constant across observations |
| MarginalEffects.EffectRow | src/rcpparma_fns.cpp:251-257 | one pass of the row loop fills row `i` of `distmat`, writes the effect into `out(i, j)` and changes no other entry of `out` |
| MarginalEffects.FillEffects | src/rcpparma_fns.cpp:250-258 | the row loop writes the n effects into column `j`, changes no other entry of `out`, and leaves `distmat` holding the differences of column `j` |
| MarginalEffects.EffectVariance | src/rcpparma_fns.cpp:259-260 | the variance row is zero when column `j` is constant across observations |
| MarginalEffects.ZeroDistKNoVariance | src/rcpparma_fns.cpp:260 | a zero `distk` gives a zero variance whatever `vcovc` and `p2` are |
| MarginalEffects.VarianceRow | src/rcpparma_fns.cpp:259-260 | from a filled `distmat`, `distk = k % distmat` and the value `1/(b n)^2 * accu(p2.t() * distk.t() * vcovc * distk)` |
| MarginalEffects.FillColumn | src/rcpparma_fns.cpp:250-260 | one column iteration writes the n effects and the variance into column `j` and leaves every other column unchanged |
| MarginalEffects.Pwmfx | src/rcpparma_fns.cpp:234-265 | the result is a fresh (n+1)-by-ncols array; row `i < n` of column `j` is `-(p(i)/b) * sum_i2 coefhat(i2) k(i, i2) (x(i, j) - x(i2, j))`, and row n is the variance of the average effect |
| MarginalEffects.EffectLinearInCoef | src/rcpparma_fns.cpp:251-257 | the effects are additive in `coefhat` |
| MarginalEffects.ConstantColumnZeroDistK | src/rcpparma_fns.cpp:259 | for a constant column `distk` is the zero matrix |

## Left out

- `eigsym` (src/rcpparma_fns.cpp:172-180) only delegates to Armadillo's `eig_sym`, a foreign library call.
- `lambda_search` (src/rcpparma_fns.cpp:184-192) is a stub that always returns 42.
- `solve_for_c_ls` (src/rcpparma_fns.cpp:214-229) depends on `inv_sympd`, a foreign matrix inverse.
- `krlogit_gr_trunc2` (src/rcpparma_fns.cpp:139-165) accumulates into a `penalty` vector that is not explicitly initialised (line 153). Its penalty has no stated relation to the objective.
- The `Rcpp::List` wrapping, the export attributes and the build glue are not modelled. Both fields of the list are modelled as the `LsFit` datatype.
- Floating-point rounding and overflow are not modelled. Neither are the infinities and NaNs that IEEE division by zero produces. Every divisor is required non-zero instead: `b`, `D_j`, `1 + lambda/D_j`, `1 - h_i`, and `b * n` for the variance row.
- Armadillo's size and bounds exceptions are modelled as preconditions on shapes: `|par| >= 2`, `|x1| <= |x2|`, `r >= 1` for `Ginv(0)`, and the shapes of `k`, `vcovc`, `p` and `coefhat` in `pwmfx`.
- Pwmfx: an empty `x` with at least one column is excluded. The source then divides by `pow(b * 0, 2)` and writes a NaN into row 0.
- Armadillo may associate the product in the variance row of `pwmfx` differently. Over the reals the order does not matter, so one order is fixed.
- KrlogitGrTrunc: the data block is tied to the objective only by its chain-rule shape (`GradientCoefEntry`, `GradientInterceptEntry`). That `sigmoid(eta_i) - y_i` is the derivative of the log loss of row `i` needs derivatives of `exp` and `log`, which are not modelled.
- SolveForCLsTrunc: `D` must have exactly r entries (`LsShape`). The source also accepts a longer `D` and ignores its tail, as `mult_diag` does.
- ObjectivePenaltyStep: covers the penalty parts only. That the data part of `KrlogitGrTrunc` is the derivative of the log loss needs derivatives of `exp` and `log`, which are not modelled.
- The C++ `int` loop counters are unbounded integers here. The sizes involved cannot overflow them in practice.

## Findings

| source | as written | input that shows it | evidently intended | confidence | as-written member | corrected member |
|---|---|---|---|---|---|---|
| src/rcpparma_fns.cpp:203 | `mult_diag(Utrunc.t() * y, Ginv)` receives an r-by-1 matrix, so its loop runs once and every coefficient is scaled by `Ginv(0)` | `Utrunc` the 2-by-2 identity, `D = (1, 2)`, `lambda = 1`, `y = (1, 1)`: `coeffs = (1/2, 1/2)` and fitted values `(1/2, 1/2)`, while the hat matrix applied to `y` is `(1/2, 2/3)` | `coeffs_k = Ginv_k * (Utrunc.t() * y)_k`, so that the fitted values are the hat matrix applied to `y` and the leave-one-out error uses the leverages of that fit | high; not executed | LeastSquares.AsWrittenCounterexample | LeastSquares.RidgeFitIsHatTimesY |
