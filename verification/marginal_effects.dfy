/** `pwmfx`: pointwise marginal effects of each input column on the fitted
    values of a Gaussian-kernel fit, and per column the variance of their
    average, from the kernel matrix `k`, the data `x`, the coefficients
    `coefhat`, their covariance `vcovc`, the fitted values `p` and the
    bandwidth `b`. */
module MarginalEffects {
  import opened Linalg

  /** `k` is n-by-n, `x` is n-by-cols, `coefhat` has at least n entries and
      `p` exactly n: what the effect rows index and multiply. */
  predicate EffectShape(k: Mat, x: Mat, cols: nat, coefhat: Vec, p: Vec)
  {
    IsMat(k, |x|, |x|) && IsMat(x, |x|, cols) && |coefhat| >= |x| && |p| == |x|
  }

  /** What the variance row multiplies: `k` and `vcovc` n-by-n, `p` of length n. */
  predicate VarianceShape(k: Mat, x: Mat, cols: nat, vcovc: Mat, p: Vec)
  {
    IsMat(k, |x|, |x|) && IsMat(x, |x|, cols) && |p| == |x| && IsMat(vcovc, |x|, |x|)
  }

  /** The first `n` coefficients are zero. */
  predicate ZeroCoefs(coefhat: Vec, n: nat)
    requires n <= |coefhat|
  {
    forall i2 :: 0 <= i2 < n ==> coefhat[i2] == 0.0
  }

  /** Column `j` of `x` holds the same value in every row. */
  predicate ConstantColumn(x: Mat, cols: nat, j: nat)
    requires IsMat(x, |x|, cols) && j < cols
  {
    forall a :: 0 <= a < |x| ==> x[a][j] == x[0][j]
  }

  /** `distmat` once column `j` is processed: entry `(a, c)` is `x(a, j) - x(c, j)`. */
  function DistMat(x: Mat, cols: nat, j: nat): (dm: Mat)
    requires IsMat(x, |x|, cols) && j < cols
    ensures IsMat(dm, |x|, |x|)
  {
    seq(|x|, a requires 0 <= a < |x| => seq(|x|, c requires 0 <= c < |x| => x[a][j] - x[c][j]))
  }

  /** The differences vanish on the diagonal and change sign under transposition. */
  lemma DistMatAntisymmetric(x: Mat, cols: nat, j: nat, a: nat, c: nat)
    requires IsMat(x, |x|, cols) && j < cols && a < |x| && c < |x|
    ensures DistMat(x, cols, j)[a][a] == 0.0
    ensures DistMat(x, cols, j)[a][c] == -DistMat(x, cols, j)[c][a]
  {
  }

  /** One increment of `val`: `coefhat(i2) * k(i, i2) * distmat(i, i2)`. */
  function EffectTerm(coef: real, kv: real, dist: real): real
  {
    coef * kv * dist
  }

  /** The terms that `val` accumulates for row `i`. */
  function EffectTerms(k: Mat, x: Mat, cols: nat, j: nat, coefhat: Vec, i: nat): (t: Vec)
    requires IsMat(k, |x|, |x|) && IsMat(x, |x|, cols) && |coefhat| >= |x| && j < cols && i < |x|
    ensures |t| == |x|
  {
    seq(|x|, i2 requires 0 <= i2 < |x| => EffectTerm(coefhat[i2], k[i][i2], x[i][j] - x[i2][j]))
  }

  /** `out(i, j) = -(p(i) / b) * val`. */
  function Effect(k: Mat, x: Mat, cols: nat, j: nat, coefhat: Vec, p: Vec, b: real, i: nat): (e: real)
    requires EffectShape(k, x, cols, coefhat, p)
    requires j < cols && i < |x| && b != 0.0
    ensures ZeroCoefs(coefhat, |x|) ==> e == 0.0
    ensures ConstantColumn(x, cols, j) ==> e == 0.0
  {
    var t := EffectTerms(k, x, cols, j, coefhat, i);
    assert ZeroCoefs(coefhat, |x|) ==> Sum(t) == 0.0 by {
      if ZeroCoefs(coefhat, |x|) {
        SumOfZeros(t);
      }
    }
    assert ConstantColumn(x, cols, j) ==> Sum(t) == 0.0 by {
      if ConstantColumn(x, cols, j) {
        forall i2 | 0 <= i2 < |x| ensures t[i2] == 0.0 {
          assert x[i][j] - x[i2][j] == 0.0;
        }
        SumOfZeros(t);
      }
    }
    -(p[i] / b) * Sum(t)
  }

  /** `distk = k % distmat`. */
  function DistK(k: Mat, x: Mat, cols: nat, j: nat): (dk: Mat)
    requires IsMat(k, |x|, |x|) && IsMat(x, |x|, cols) && j < cols
    ensures IsMat(dk, |x|, |x|)
  {
    var dm := DistMat(x, cols, j);
    seq(|x|, a requires 0 <= a < |x| => seq(|x|, c requires 0 <= c < |x| => k[a][c] * dm[a][c]))
  }

  /** `1 / pow(b * n, 2) * accu(p2.t() * distk.t() * vcovc * distk)` for an
      n-by-n `distk`, the row vector written as
      `((distk.t() * (vcovc.t() * (distk * p2))).t()`. */
  function AccuVariance(dk: Mat, vcovc: Mat, p2: Vec, b: real): real
    requires |dk| >= 1 && IsMat(dk, |dk|, |dk|) && IsMat(vcovc, |dk|, |dk|) && |p2| == |dk|
    requires b != 0.0
  {
    var n := |dk|;
    Pow2Sign(b * (n as real));
    1.0 / Pow2(b * (n as real)) * Sum(TMatVec(dk, n, TMatVec(vcovc, n, MatVec(dk, p2))))
  }

  /** What row n of column `j` holds: the variance of the average effect. */
  function EffectVariance(k: Mat, x: Mat, cols: nat, j: nat, vcovc: Mat, p: Vec, b: real): (v: real)
    requires VarianceShape(k, x, cols, vcovc, p) && j < cols
    requires b != 0.0 && |x| >= 1
    ensures ConstantColumn(x, cols, j) ==> v == 0.0
  {
    var dk := DistK(k, x, cols, j);
    assert ConstantColumn(x, cols, j) ==> AccuVariance(dk, vcovc, Squares(p), b) == 0.0 by {
      if ConstantColumn(x, cols, j) {
        ConstantColumnZeroDistK(k, x, cols, j);
        ZeroDistKNoVariance(dk, vcovc, Squares(p), b);
      }
    }
    AccuVariance(dk, vcovc, Squares(p), b)
  }

  /** With a zero `distk` the variance is zero. */
  lemma ZeroDistKNoVariance(dk: Mat, vcovc: Mat, p2: Vec, b: real)
    requires |dk| >= 1 && IsMat(dk, |dk|, |dk|) && IsMat(vcovc, |dk|, |dk|) && |p2| == |dk|
    requires b != 0.0
    requires forall a, c :: 0 <= a < |dk| && 0 <= c < |dk| ==> dk[a][c] == 0.0
    ensures AccuVariance(dk, vcovc, p2, b) == 0.0
  {
    var n := |dk|;
    var w := MatVec(dk, p2);
    MatVecOfZeroMatrix(dk, p2);
    var z := TMatVec(vcovc, n, w);
    TMatVecOfZeroVector(vcovc, n, w);
    TMatVecOfZeroVector(dk, n, z);
    SumOfZeros(TMatVec(dk, n, z));
  }

  /** The inner loop of `pwmfx` for row `i` of column `j`: fills row `i` of
      `distmat` with `x(i, j) - x(i2, j)` and returns `val`, the sum of the
      effect terms. */
  method AccumulateRow(k: Mat, x: Mat, cols: nat, j: nat, coefhat: Vec, i: nat, distmat: array2<real>)
    returns (val: real)
    requires IsMat(k, |x|, |x|) && IsMat(x, |x|, cols) && |coefhat| >= |x| && j < cols && i < |x|
    requires distmat.Length0 == |x| && distmat.Length1 == |x|
    modifies distmat
    ensures val == Sum(EffectTerms(k, x, cols, j, coefhat, i))
    ensures forall c :: 0 <= c < |x| ==> distmat[i, c] == x[i][j] - x[c][j]
    ensures forall a, c :: 0 <= a < |x| && 0 <= c < |x| && a != i ==> distmat[a, c] == old(distmat[a, c])
  {
    var n := |x|;
    var terms := EffectTerms(k, x, cols, j, coefhat, i);
    val := 0.0;
    var i2 := 0;
    while i2 < n
      invariant 0 <= i2 <= n
      invariant val == Sum(terms[..i2])
      invariant forall c :: 0 <= c < i2 ==> distmat[i, c] == x[i][j] - x[c][j]
      invariant forall a, c :: 0 <= a < n && 0 <= c < n && a != i ==> distmat[a, c] == old(distmat[a, c])
    {
      SumStep(terms, i2);
      distmat[i, i2] := x[i][j] - x[i2][j];
      val := val + EffectTerm(coefhat[i2], k[i][i2], distmat[i, i2]);
      i2 := i2 + 1;
    }
    assert terms[..n] == terms;
  }

  /** `distk = k % distmat` and the variance of the average effect, once
      `distmat` holds the differences of column `j`. */
  method VarianceRow(k: Mat, x: Mat, cols: nat, j: nat, vcovc: Mat, p2: Vec, b: real, distmat: array2<real>)
    returns (v: real)
    requires IsMat(k, |x|, |x|) && IsMat(x, |x|, cols) && IsMat(vcovc, |x|, |x|) && |p2| == |x| && j < cols
    requires b != 0.0 && |x| >= 1
    requires distmat.Length0 == |x| && distmat.Length1 == |x|
    requires forall a, c :: 0 <= a < |x| && 0 <= c < |x| ==> distmat[a, c] == x[a][j] - x[c][j]
    ensures v == AccuVariance(DistK(k, x, cols, j), vcovc, p2, b)
  {
    var n := |x|;
    var distk := seq(n, a requires 0 <= a < n reads distmat =>
      seq(n, c requires 0 <= c < n reads distmat => k[a][c] * distmat[a, c]));
    forall a | 0 <= a < n ensures distk[a] == DistK(k, x, cols, j)[a] {
      forall c | 0 <= c < n ensures distk[a][c] == DistK(k, x, cols, j)[a][c] {
        assert distmat[a, c] == DistMat(x, cols, j)[a][c];
      }
    }
    assert distk == DistK(k, x, cols, j);
    v := AccuVariance(distk, vcovc, p2, b);
  }

  /** Entry `(a, c)` of the result of `pwmfx`: an effect in rows 0..n-1, the
      variance of their average in row n. */
  function PwmfxEntry(k: Mat, x: Mat, cols: nat, coefhat: Vec, vcovc: Mat, p: Vec, b: real, a: nat, c: nat): real
    requires EffectShape(k, x, cols, coefhat, p) && IsMat(vcovc, |x|, |x|)
    requires b != 0.0 && |x| >= 1 && a <= |x| && c < cols
  {
    if a < |x| then Effect(k, x, cols, c, coefhat, p, b, a) else EffectVariance(k, x, cols, c, vcovc, p, b)
  }

  /** The row loop of `pwmfx` for column `j`: writes the effects into rows
      0..n-1 of column `j` of `out` and leaves `distmat` holding the
      differences of column `j`. */
  method FillEffects(k: Mat, x: Mat, cols: nat, j: nat, coefhat: Vec, p: Vec, b: real,
                     out: array2<real>, distmat: array2<real>)
    requires EffectShape(k, x, cols, coefhat, p) && j < cols && b != 0.0
    requires out.Length0 == |x| + 1 && out.Length1 == cols
    requires distmat.Length0 == |x| && distmat.Length1 == |x| && distmat != out
    modifies out, distmat
    ensures forall a :: 0 <= a < |x| ==> out[a, j] == Effect(k, x, cols, j, coefhat, p, b, a)
    ensures forall a, c :: 0 <= a <= |x| && 0 <= c < cols && (c != j || a == |x|) ==> out[a, c] == old(out[a, c])
    ensures forall a, c :: 0 <= a < |x| && 0 <= c < |x| ==> distmat[a, c] == x[a][j] - x[c][j]
  {
    var n := |x|;
    var i := 0;
    while i < n
      invariant 0 <= i <= n
      invariant forall a :: 0 <= a < i ==> out[a, j] == Effect(k, x, cols, j, coefhat, p, b, a)
      invariant forall a, c :: 0 <= a <= n && 0 <= c < cols && (c != j || a >= i) ==> out[a, c] == old(out[a, c])
      invariant forall a, c :: 0 <= a < i && 0 <= c < n ==> distmat[a, c] == x[a][j] - x[c][j]
    {
      EffectRow(k, x, cols, j, coefhat, p, b, i, out, distmat);
      i := i + 1;
    }
  }

  /** One pass of the row loop of `pwmfx`: accumulates `val` for row `i`,
      filling row `i` of `distmat`, and writes `out(i, j) = -(p(i) / b) * val`. */
  method EffectRow(k: Mat, x: Mat, cols: nat, j: nat, coefhat: Vec, p: Vec, b: real, i: nat,
                   out: array2<real>, distmat: array2<real>)
    requires EffectShape(k, x, cols, coefhat, p) && j < cols && i < |x| && b != 0.0
    requires out.Length0 == |x| + 1 && out.Length1 == cols
    requires distmat.Length0 == |x| && distmat.Length1 == |x| && distmat != out
    modifies out, distmat
    ensures out[i, j] == Effect(k, x, cols, j, coefhat, p, b, i)
    ensures forall a, c :: 0 <= a <= |x| && 0 <= c < cols && (a != i || c != j) ==> out[a, c] == old(out[a, c])
    ensures forall c :: 0 <= c < |x| ==> distmat[i, c] == x[i][j] - x[c][j]
    ensures forall a, c :: 0 <= a < |x| && 0 <= c < |x| && a != i ==> distmat[a, c] == old(distmat[a, c])
  {
    var val := AccumulateRow(k, x, cols, j, coefhat, i, distmat);
    out[i, j] := -(p[i] / b) * val;
  }

  /** One iteration of the column loop of `pwmfx`: the row loop writes the
      effects of column `j` into rows 0..n-1 of `out`, leaving `distmat`
      holding the differences of column `j`, then row n gets the variance. */
  method FillColumn(k: Mat, x: Mat, cols: nat, j: nat, coefhat: Vec, vcovc: Mat, p: Vec, p2: Vec, b: real,
                    out: array2<real>, distmat: array2<real>)
    requires EffectShape(k, x, cols, coefhat, p) && IsMat(vcovc, |x|, |x|) && p2 == Squares(p)
    requires j < cols && b != 0.0 && |x| >= 1
    requires out.Length0 == |x| + 1 && out.Length1 == cols
    requires distmat.Length0 == |x| && distmat.Length1 == |x| && distmat != out
    modifies out, distmat
    ensures forall a :: 0 <= a <= |x| ==> out[a, j] == PwmfxEntry(k, x, cols, coefhat, vcovc, p, b, a, j)
    ensures forall a, c :: 0 <= a <= |x| && 0 <= c < cols && c != j ==> out[a, c] == old(out[a, c])
  {
    FillEffects(k, x, cols, j, coefhat, p, b, out, distmat);
    out[|x|, j] := VarianceRow(k, x, cols, j, vcovc, p2, b, distmat);
  }

  /** `pwmfx`: for each column `j`, fills `distmat` and accumulates `val`
      row by row to write the effects into rows 0..n-1 of column `j`, then
      writes the variance of their average into row n. */
  method Pwmfx(k: Mat, x: Mat, cols: nat, coefhat: Vec, vcovc: Mat, p: Vec, b: real) returns (out: array2<real>)
    requires EffectShape(k, x, cols, coefhat, p) && IsMat(vcovc, |x|, |x|)
    requires b != 0.0 && (cols > 0 ==> |x| >= 1)
    ensures fresh(out)
    ensures out.Length0 == |x| + 1 && out.Length1 == cols
    ensures forall i, j :: 0 <= i < |x| && 0 <= j < cols ==>
      out[i, j] == Effect(k, x, cols, j, coefhat, p, b, i)
    ensures forall j :: 0 <= j < cols ==>
      out[|x|, j] == EffectVariance(k, x, cols, j, vcovc, p, b)
  {
    var n := |x|;
    out := new real[n + 1, cols];
    var distmat := new real[n, n];
    var p2 := Squares(p);
    var j := 0;
    while j < cols
      invariant 0 <= j <= cols
      invariant forall a, c :: 0 <= a <= n && 0 <= c < j ==> out[a, c] == PwmfxEntry(k, x, cols, coefhat, vcovc, p, b, a, c)
    {
      FillColumn(k, x, cols, j, coefhat, vcovc, p, p2, b, out, distmat);
      j := j + 1;
    }
  }

  /** The effects are linear in the coefficients. */
  lemma EffectLinearInCoef(k: Mat, x: Mat, cols: nat, j: nat, c1: Vec, c2: Vec, c3: Vec, p: Vec, b: real, i: nat)
    requires EffectShape(k, x, cols, c1, p) && |c2| >= |x| && |c3| >= |x|
    requires j < cols && i < |x| && b != 0.0
    requires forall i2 :: 0 <= i2 < |x| ==> c3[i2] == c1[i2] + c2[i2]
    ensures Effect(k, x, cols, j, c3, p, b, i)
         == Effect(k, x, cols, j, c1, p, b, i) + Effect(k, x, cols, j, c2, p, b, i)
  {
    var t1 := EffectTerms(k, x, cols, j, c1, i);
    var t2 := EffectTerms(k, x, cols, j, c2, i);
    var t3 := EffectTerms(k, x, cols, j, c3, i);
    forall i2 | 0 <= i2 < |x| ensures t3[i2] == t1[i2] + t2[i2] {
      var w := k[i][i2] * (x[i][j] - x[i2][j]);
      calc {
        t3[i2];
        == c3[i2] * k[i][i2] * (x[i][j] - x[i2][j]);
        == (c1[i2] + c2[i2]) * w;
        == c1[i2] * w + c2[i2] * w;
        == t1[i2] + t2[i2];
      }
    }
    SumAdd(t1, t2, t3);
    var f := -(p[i] / b);
    calc {
      f * Sum(t3);
      == f * (Sum(t1) + Sum(t2));
      == f * Sum(t1) + f * Sum(t2);
    }
  }

  /** For a constant column `distk` is the zero matrix. */
  lemma ConstantColumnZeroDistK(k: Mat, x: Mat, cols: nat, j: nat)
    requires IsMat(k, |x|, |x|) && IsMat(x, |x|, cols) && j < cols
    requires ConstantColumn(x, cols, j)
    ensures forall a, c :: 0 <= a < |x| && 0 <= c < |x| ==> DistK(k, x, cols, j)[a][c] == 0.0
  {
    forall a, c | 0 <= a < |x| && 0 <= c < |x| ensures DistK(k, x, cols, j)[a][c] == 0.0 {
      assert DistMat(x, cols, j)[a][c] == 0.0;
    }
  }
}
