/** Euclidean distance and Gaussian kernels: `euc_dist`, `kern_gauss_1d`,
    `kern_gauss` (a data set with itself) and `new_gauss_kern` (new rows
    against old rows). */
module Kernels {
  import opened Linalg

  /** The squares (x1[i] - x2[i])^2 that `euc_dist` accumulates, one per entry of `x1`. */
  function SqDiffs(x1: Vec, x2: Vec): (t: Vec)
    requires |x1| <= |x2|
    ensures |t| == |x1|
  {
    seq(|x1|, i requires 0 <= i < |x1| => Pow2(x1[i] - x2[i]))
  }

  /** The squared distance: the accumulator of `euc_dist` when its loop ends. */
  function SqDist(x1: Vec, x2: Vec): real
    requires |x1| <= |x2|
  {
    Sum(SqDiffs(x1, x2))
  }

  /** What `euc_dist` returns: `sqrt` of the squared distance. */
  function Distance(x1: Vec, x2: Vec, lib: Libm): (d: real)
    requires |x1| <= |x2|
    ensures x1 == x2 ==> d == lib.sqrt(0.0)
    ensures |x1| == |x2| ==> d == lib.sqrt(SqDist(x2, x1))
  {
    SqDistZeroIff(x1, x2);
    assert |x1| == |x2| ==> SqDist(x1, x2) == SqDist(x2, x1) by {
      if |x1| == |x2| {
        SqDistSymmetric(x1, x2);
      }
    }
    lib.sqrt(SqDist(x1, x2))
  }

  /** `euc_dist`: accumulates the squared differences over the entries of `x1`,
      then takes the square root. `x2` must have at least as many entries. */
  method EucDist(x1: Vec, x2: Vec, lib: Libm) returns (d: real)
    requires |x1| <= |x2|
    ensures d == Distance(x1, x2, lib)
  {
    var out := 0.0;
    var n := |x1|;
    var i := 0;
    while i < n
      invariant 0 <= i <= n
      invariant out == Sum(SqDiffs(x1, x2)[..i])
    {
      SumStep(SqDiffs(x1, x2), i);
      out := out + Pow2(x1[i] - x2[i]);
      i := i + 1;
    }
    assert SqDiffs(x1, x2)[..n] == SqDiffs(x1, x2);
    d := lib.sqrt(out);
  }

  lemma SqDistNonNegative(x1: Vec, x2: Vec)
    requires |x1| <= |x2|
    ensures SqDist(x1, x2) >= 0.0
  {
    SumNonNegative(SqDiffs(x1, x2));
  }

  /** Swapping two rows of the same length does not change the distance. */
  lemma SqDistSymmetric(x1: Vec, x2: Vec)
    requires |x1| == |x2|
    ensures SqDist(x1, x2) == SqDist(x2, x1)
  {
    assert SqDiffs(x1, x2) == SqDiffs(x2, x1) by {
      forall i | 0 <= i < |x1|
        ensures SqDiffs(x1, x2)[i] == SqDiffs(x2, x1)[i]
      {
        var u := x1[i] - x2[i];
        assert x2[i] - x1[i] == -u;
        assert Pow2(-u) == Pow2(u);
      }
    }
  }

  /** The squared distance is zero exactly when `x1` agrees with the
      corresponding leading entries of `x2`. */
  lemma SqDistZeroIff(x1: Vec, x2: Vec)
    requires |x1| <= |x2|
    ensures SqDist(x1, x2) == 0.0 <==> x1 == x2[..|x1|]
  {
    var t := SqDiffs(x1, x2);
    forall i | 0 <= i < |t| ensures t[i] >= 0.0 && (x1[i] != x2[i] ==> t[i] > 0.0) {
      Pow2Sign(x1[i] - x2[i]);
    }
    SumZeroIff(t);
    if x1 == x2[..|x1|] {
      forall i | 0 <= i < |t| ensures t[i] == 0.0 {
        assert x1[i] - x2[i] == 0.0;
      }
    }
  }

  lemma DistanceSymmetric(x1: Vec, x2: Vec, lib: Libm)
    requires |x1| == |x2|
    ensures Distance(x1, x2, lib) == Distance(x2, x1, lib)
  {
    SqDistSymmetric(x1, x2);
  }

  /** The distance of a row to itself is `sqrt(0)`. */
  lemma DistanceToSelf(x: Vec, lib: Libm)
    ensures Distance(x, x, lib) == lib.sqrt(0.0)
  {
    SqDistZeroIff(x, x);
  }

  /** `kern_gauss_1d`: `exp(-pow(euc_dist(x1, x2), 2) / b)`. When `x1` agrees
      with the leading entries of `x2` (`SqDistZeroIff`) the value is `exp(0)`. */
  function KernGauss1d(x1: Vec, x2: Vec, b: real, lib: Libm): (kv: real)
    requires |x1| <= |x2|
    requires b != 0.0
    ensures ExpNonNegative(lib) ==> kv >= 0.0
    ensures lib.sqrt(0.0) == 0.0 && SqDist(x1, x2) == 0.0 ==> kv == lib.exp(0.0)
  {
    lib.exp(-Pow2(Distance(x1, x2, lib)) / b)
  }

  /** A row against itself gives `exp(0)`, because `sqrt(0) == 0`. */
  lemma KernGauss1dSelf(x: Vec, b: real, lib: Libm)
    requires b != 0.0
    requires lib.sqrt(0.0) == 0.0
    ensures KernGauss1d(x, x, b, lib) == lib.exp(0.0)
  {
    DistanceToSelf(x, lib);
  }

  lemma KernGauss1dSymmetric(x1: Vec, x2: Vec, b: real, lib: Libm)
    requires |x1| == |x2|
    requires b != 0.0
    ensures KernGauss1d(x1, x2, b, lib) == KernGauss1d(x2, x1, b, lib)
  {
    DistanceSymmetric(x1, x2, lib);
  }

  /** Every row of `x` has the same number of entries, as the rows of an `arma::mat` do. */
  predicate SameRowLength(x: Mat)
  {
    forall i, j :: 0 <= i < |x| && 0 <= j < |x| ==> |x[i]| == |x[j]|
  }

  /** `kern_gauss`: the n-by-n kernel matrix of the rows of `x`. It starts as
      all ones and only the strict upper triangle is computed, each value
      written to both mirrored cells, so the diagonal stays one. */
  method KernGauss(x: Mat, b: real, lib: Libm) returns (out: array2<real>)
    requires SameRowLength(x)
    requires b != 0.0
    ensures fresh(out)
    ensures out.Length0 == |x| && out.Length1 == |x|
    ensures forall i :: 0 <= i < |x| ==> out[i, i] == 1.0
    ensures forall i, j :: 0 <= i < |x| && 0 <= j < |x| ==> out[i, j] == out[j, i]
    ensures forall i, j :: 0 <= i < |x| && 0 <= j < |x| && i != j ==>
      out[i, j] == KernGauss1d(x[i], x[j], b, lib)
  {
    var n := |x|;
    out := new real[n, n]((_, _) => 1.0);
    var i := 0;
    while i < n
      invariant 0 <= i <= n
      invariant forall r :: 0 <= r < n ==> out[r, r] == 1.0
      invariant forall r, c :: 0 <= r < c < n ==>
        out[c, r] == out[r, c] && out[r, c] == (if r < i then KernGauss1d(x[r], x[c], b, lib) else 1.0)
    {
      var j := i + 1;
      while j < n
        invariant i + 1 <= j <= n
        invariant forall r :: 0 <= r < n ==> out[r, r] == 1.0
        invariant forall r, c :: 0 <= r < c < n ==>
          out[c, r] == out[r, c] &&
          out[r, c] == (if r < i || (r == i && c < j) then KernGauss1d(x[r], x[c], b, lib) else 1.0)
      {
        var val := KernGauss1d(x[i], x[j], b, lib);
        out[i, j] := val;
        out[j, i] := val;
        j := j + 1;
      }
      i := i + 1;
    }
    forall r, c | 0 <= r < c < n
      ensures KernGauss1d(x[c], x[r], b, lib) == KernGauss1d(x[r], x[c], b, lib)
    {
      KernGauss1dSymmetric(x[c], x[r], b, lib);
    }
  }

  /** `new_gauss_kern`: the n1-by-n2 cross-kernel matrix of the rows of `newx`
      against the rows of `oldx`, every entry computed. */
  method NewGaussKern(newx: Mat, oldx: Mat, b: real, lib: Libm) returns (out: array2<real>)
    requires forall i, j :: 0 <= i < |newx| && 0 <= j < |oldx| ==> |newx[i]| <= |oldx[j]|
    requires b != 0.0
    ensures fresh(out)
    ensures out.Length0 == |newx| && out.Length1 == |oldx|
    ensures forall i, j :: 0 <= i < |newx| && 0 <= j < |oldx| ==>
      out[i, j] == KernGauss1d(newx[i], oldx[j], b, lib)
  {
    var n1 := |newx|;
    var n2 := |oldx|;
    out := new real[n1, n2];
    var i := 0;
    while i < n1
      invariant 0 <= i <= n1
      invariant forall r, c :: 0 <= r < i && 0 <= c < n2 ==> out[r, c] == KernGauss1d(newx[r], oldx[c], b, lib)
    {
      var j := 0;
      while j < n2
        invariant 0 <= j <= n2
        invariant forall r, c :: 0 <= r < i && 0 <= c < n2 ==> out[r, c] == KernGauss1d(newx[r], oldx[c], b, lib)
        invariant forall c :: 0 <= c < j ==> out[i, c] == KernGauss1d(newx[i], oldx[c], b, lib)
      {
        out[i, j] := KernGauss1d(newx[i], oldx[j], b, lib);
        j := j + 1;
      }
      i := i + 1;
    }
  }
}
