/** Dense real vectors and matrices in the shape Armadillo's `arma::vec` and
    `arma::mat` give them, the sums and products the kernel routines are built
    from, and the C math library functions they call, left uninterpreted. */
module Linalg {

  type Vec = seq<real>

  /** A matrix as its sequence of rows. */
  type Mat = seq<seq<real>>

  /** `a` has `rows` rows of `cols` entries each. */
  predicate IsMat(a: Mat, rows: nat, cols: nat)
  {
    |a| == rows && forall i :: 0 <= i < |a| ==> |a[i]| == cols
  }

  /** `exp`, `log` and `sqrt` of the C math library. Only the facts stated
      where they are used are assumed of them; rounding is not modelled. */
  datatype Libm = Libm(exp: real -> real, log: real -> real, sqrt: real -> real)

  /** `exp` never returns a negative value (IEEE `exp` underflows to 0, never below). */
  ghost predicate ExpNonNegative(lib: Libm)
  {
    forall z :: lib.exp(z) >= 0.0
  }

  /** Every entry is positive. */
  predicate Positive(v: Vec)
  {
    forall i :: 0 <= i < |v| ==> v[i] > 0.0
  }

  /** `pow(u, 2)`. */
  function Pow2(u: real): real
  {
    u * u
  }

  /** A square is never negative, and positive unless `u` is zero. */
  lemma Pow2Sign(u: real)
    ensures Pow2(u) >= 0.0
    ensures u != 0.0 ==> Pow2(u) > 0.0
  {
    if u > 0.0 {
      calc { Pow2(u); == u * u; > 0.0; }
    } else if u < 0.0 {
      calc { Pow2(u); == (-u) * (-u); > 0.0; }
    } else {
      calc { Pow2(u); == 0.0 * 0.0; == 0.0; }
    }
  }

  /** Left-to-right accumulation `acc += s[i]`, as `accu` and the source's loops do it. */
  function Sum(s: Vec): real
  {
    if |s| == 0 then 0.0 else Sum(s[..|s| - 1]) + s[|s| - 1]
  }

  /** One more step of an accumulation loop. */
  lemma SumStep(s: Vec, i: nat)
    requires i < |s|
    ensures Sum(s[..i + 1]) == Sum(s[..i]) + s[i]
  {
    assert s[..i + 1][..i] == s[..i];
  }

  lemma {:induction false} SumNonNegative(s: Vec)
    requires forall i :: 0 <= i < |s| ==> s[i] >= 0.0
    ensures Sum(s) >= 0.0
  {
    if |s| > 0 {
      SumNonNegative(s[..|s| - 1]);
    }
  }

  lemma {:induction false} SumOfZeros(s: Vec)
    requires forall i :: 0 <= i < |s| ==> s[i] == 0.0
    ensures Sum(s) == 0.0
  {
    if |s| > 0 {
      SumOfZeros(s[..|s| - 1]);
    }
  }

  /** A sum of non-negative terms is zero exactly when every term is. */
  lemma {:induction false} SumZeroIff(s: Vec)
    requires forall i :: 0 <= i < |s| ==> s[i] >= 0.0
    ensures Sum(s) == 0.0 <==> forall i :: 0 <= i < |s| ==> s[i] == 0.0
  {
    if |s| > 0 {
      var front := s[..|s| - 1];
      SumZeroIff(front);
      SumNonNegative(front);
      if Sum(s) == 0.0 {
        forall i | 0 <= i < |s| ensures s[i] == 0.0 {
          if i < |s| - 1 { assert s[i] == front[i]; }
        }
      } else if forall i :: 0 <= i < |s| ==> s[i] == 0.0 {
        SumOfZeros(s);
      }
    }
  }

  /** Replacing one term changes the sum by the difference. */
  lemma {:induction false} SumUpdate(s: Vec, j: nat, v: real)
    requires j < |s|
    ensures Sum(s[j := v]) == Sum(s) - s[j] + v
  {
    var t := s[j := v];
    if j < |s| - 1 {
      assert t[..|t| - 1] == s[..|s| - 1][j := v];
      SumUpdate(s[..|s| - 1], j, v);
    } else {
      assert t[..|t| - 1] == s[..|s| - 1];
    }
  }

  /** A sum whose terms are all zero but the j-th is that term. */
  lemma SumSingle(s: Vec, j: nat)
    requires j < |s|
    requires forall i :: 0 <= i < |s| && i != j ==> s[i] == 0.0
    ensures Sum(s) == s[j]
  {
    var z := seq(|s|, i => 0.0);
    SumOfZeros(z);
    SumUpdate(z, j, s[j]);
    assert z[j := s[j]] == s;
  }

  /** Sum of the pointwise sum of two vectors. */
  lemma {:induction false} SumAdd(a: Vec, b: Vec, c: Vec)
    requires |a| == |b| == |c|
    requires forall i :: 0 <= i < |c| ==> c[i] == a[i] + b[i]
    ensures Sum(c) == Sum(a) + Sum(b)
  {
    if |c| > 0 {
      var m := |c| - 1;
      SumAdd(a[..m], b[..m], c[..m]);
    }
  }

  /** Sum of a vector scaled by a constant. */
  lemma {:induction false} SumScale(k: real, a: Vec, c: Vec)
    requires |a| == |c|
    requires forall i :: 0 <= i < |c| ==> c[i] == k * a[i]
    ensures Sum(c) == k * Sum(a)
  {
    if |c| > 0 {
      var m := |c| - 1;
      SumScale(k, a[..m], c[..m]);
    }
  }

  /** The termwise products a[i]*b[i] over the entries of `a`. */
  function Products(a: Vec, b: Vec): (t: Vec)
    requires |a| <= |b|
    ensures |t| == |a|
  {
    seq(|a|, i requires 0 <= i < |a| => a[i] * b[i])
  }

  /** Inner product over the entries of `a`. */
  function Dot(a: Vec, b: Vec): real
    requires |a| <= |b|
  {
    Sum(Products(a, b))
  }

  /** Column `c` of `a`. */
  function Column(a: Mat, c: nat): (col: Vec)
    requires forall i :: 0 <= i < |a| ==> c < |a[i]|
    ensures |col| == |a|
  {
    seq(|a|, i requires 0 <= i < |a| => a[i][c])
  }

  /** `a * v`. */
  function MatVec(a: Mat, v: Vec): (r: Vec)
    requires forall i :: 0 <= i < |a| ==> |a[i]| <= |v|
    ensures |r| == |a|
  {
    seq(|a|, i requires 0 <= i < |a| => Dot(a[i], v))
  }

  /** `a.t() * v` for a `|v|`-by-`cols` matrix `a`; also the row form of `v.t() * a`. */
  function TMatVec(a: Mat, cols: nat, v: Vec): (r: Vec)
    requires IsMat(a, |v|, cols)
    ensures |r| == cols
  {
    seq(cols, c requires 0 <= c < cols => Dot(Column(a, c), v))
  }

  /** `a.t()`. */
  function Transpose(a: Mat, cols: nat): (t: Mat)
    requires IsMat(a, |a|, cols)
    ensures IsMat(t, cols, |a|)
  {
    seq(cols, c requires 0 <= c < cols => Column(a, c))
  }

  /** `a * b` for a `|b|`-by-`cols` matrix `b`. */
  function MatMul(a: Mat, b: Mat, cols: nat): (m: Mat)
    requires IsMat(a, |a|, |b|) && IsMat(b, |b|, cols)
    ensures IsMat(m, |a|, cols)
  {
    seq(|a|, i requires 0 <= i < |a| => seq(cols, c requires 0 <= c < cols => Dot(a[i], Column(b, c))))
  }

  /** Entrywise squares, `pow(v, 2)`. */
  function Squares(v: Vec): (s: Vec)
    ensures |s| == |v|
  {
    seq(|v|, i requires 0 <= i < |v| => Pow2(v[i]))
  }

  /** A matrix-vector product with the zero matrix is the zero vector. */
  lemma MatVecOfZeroMatrix(a: Mat, v: Vec)
    requires forall i :: 0 <= i < |a| ==> |a[i]| <= |v|
    requires forall i, c :: 0 <= i < |a| && 0 <= c < |a[i]| ==> a[i][c] == 0.0
    ensures forall i :: 0 <= i < |a| ==> MatVec(a, v)[i] == 0.0
  {
    forall i | 0 <= i < |a| ensures MatVec(a, v)[i] == 0.0 {
      SumOfZeros(Products(a[i], v));
    }
  }

  /** A matrix-vector product with the zero vector is the zero vector. */
  lemma MatVecOfZeroVector(a: Mat, v: Vec)
    requires forall i :: 0 <= i < |a| ==> |a[i]| <= |v|
    requires forall c :: 0 <= c < |v| ==> v[c] == 0.0
    ensures forall i :: 0 <= i < |a| ==> MatVec(a, v)[i] == 0.0
  {
    forall i | 0 <= i < |a| ensures MatVec(a, v)[i] == 0.0 {
      SumOfZeros(Products(a[i], v));
    }
  }

  /** `a.t() * v` with the zero vector `v` is the zero vector. */
  lemma TMatVecOfZeroVector(a: Mat, cols: nat, v: Vec)
    requires IsMat(a, |v|, cols)
    requires forall i :: 0 <= i < |v| ==> v[i] == 0.0
    ensures forall c :: 0 <= c < cols ==> TMatVec(a, cols, v)[c] == 0.0
  {
    forall c | 0 <= c < cols ensures TMatVec(a, cols, v)[c] == 0.0 {
      SumOfZeros(Products(Column(a, c), v));
    }
  }

  /** The sum of a negated vector is negated. */
  lemma SumNegated(v: Vec, w: Vec)
    requires |v| == |w|
    requires forall i :: 0 <= i < |w| ==> w[i] == -v[i]
    ensures Sum(w) == -Sum(v)
  {
    SumScale(-1.0, v, w);
  }

  /** An inner product with a negated vector is negated. */
  lemma DotNegated(a: Vec, v: Vec, w: Vec)
    requires |a| <= |v| && |a| <= |w|
    requires forall i :: 0 <= i < |a| ==> w[i] == -v[i]
    ensures Dot(a, w) == -Dot(a, v)
  {
    var pv, pw := Products(a, v), Products(a, w);
    forall i | 0 <= i < |a| ensures pw[i] == -1.0 * pv[i] {
      calc { pw[i]; == a[i] * w[i]; == a[i] * -v[i]; == -1.0 * (a[i] * v[i]); }
    }
    SumScale(-1.0, pv, pw);
  }

  /** The sum of each row of `a`. */
  function RowSums(a: Mat): (s: Vec)
    ensures |s| == |a|
  {
    seq(|a|, k requires 0 <= k < |a| => Sum(a[k]))
  }

  /** The sum of each column of a `cols`-column matrix `a`. */
  function ColumnSums(a: Mat, cols: nat): (s: Vec)
    requires IsMat(a, |a|, cols)
    ensures |s| == cols
  {
    seq(cols, m requires 0 <= m < cols => Sum(Column(a, m)))
  }

  /** Summing a matrix row by row or column by column gives the same total. */
  lemma {:induction false} SumRowsColumns(a: Mat, cols: nat)
    requires IsMat(a, |a|, cols)
    ensures Sum(RowSums(a)) == Sum(ColumnSums(a, cols))
  {
    if |a| == 0 {
      forall m | 0 <= m < cols ensures ColumnSums(a, cols)[m] == 0.0 {
        assert Column(a, m) == [];
      }
      SumOfZeros(ColumnSums(a, cols));
    } else {
      var last := |a| - 1;
      var front := a[..last];
      SumRowsColumns(front, cols);
      assert RowSums(a)[..last] == RowSums(front);
      forall m | 0 <= m < cols
        ensures ColumnSums(a, cols)[m] == ColumnSums(front, cols)[m] + a[last][m]
      {
        assert Column(a, m)[..last] == Column(front, m);
      }
      SumAdd(ColumnSums(front, cols), a[last], ColumnSums(a, cols));
    }
  }
}
