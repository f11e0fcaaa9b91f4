/** `mult_diag`: column-wise scaling, the right product with a diagonal matrix. */
module Scaling {
  import opened Linalg

  /** Column `c` of `x` times `d[c]`, for every column of a `cols`-column `x`. */
  function ScaleColumns(x: Mat, cols: nat, d: Vec): (r: Mat)
    requires IsMat(x, |x|, cols) && cols <= |d|
    ensures IsMat(r, |x|, cols)
  {
    seq(|x|, i requires 0 <= i < |x| => seq(cols, c requires 0 <= c < cols => x[i][c] * d[c]))
  }

  /** `mult_diag`: a fresh matrix of the shape of `x` whose column `j` is
      assigned column `j` of `x` times `d(j)`, one column per iteration. Only
      the first `cols` entries of `d` are read. */
  method MultDiag(x: Mat, cols: nat, d: Vec) returns (out: array2<real>)
    requires IsMat(x, |x|, cols) && cols <= |d|
    ensures fresh(out)
    ensures out.Length0 == |x| && out.Length1 == cols
    ensures forall r, c :: 0 <= r < |x| && 0 <= c < cols ==> out[r, c] == ScaleColumns(x, cols, d)[r][c]
  {
    var rows := |x|;
    out := new real[rows, cols];
    var j := 0;
    while j < cols
      invariant 0 <= j <= cols
      invariant forall r, c :: 0 <= r < rows && 0 <= c < j ==> out[r, c] == x[r][c] * d[c]
    {
      // out.col(j) = x.col(j) * d(j)
      forall r | 0 <= r < rows {
        out[r, j] := x[r][j] * d[j];
      }
      j := j + 1;
    }
  }

  /** An all-ones `d` leaves `x` unchanged. */
  lemma ScaleColumnsByOnes(x: Mat, cols: nat, d: Vec)
    requires IsMat(x, |x|, cols) && cols <= |d|
    requires forall c :: 0 <= c < cols ==> d[c] == 1.0
    ensures ScaleColumns(x, cols, d) == x
  {
    var r := ScaleColumns(x, cols, d);
    forall i | 0 <= i < |x| ensures r[i] == x[i] {
      assert forall c :: 0 <= c < cols ==> r[i][c] == x[i][c];
    }
  }

  /** Only `d[..cols]` matters: entries of `d` past the column count are never read. */
  lemma ScaleColumnsReadsPrefix(x: Mat, cols: nat, d1: Vec, d2: Vec)
    requires IsMat(x, |x|, cols) && cols <= |d1| && cols <= |d2|
    requires d1[..cols] == d2[..cols]
    ensures ScaleColumns(x, cols, d1) == ScaleColumns(x, cols, d2)
  {
    var r1, r2 := ScaleColumns(x, cols, d1), ScaleColumns(x, cols, d2);
    forall i | 0 <= i < |x| ensures r1[i] == r2[i] {
      forall c | 0 <= c < cols ensures r1[i][c] == r2[i][c] {
        assert d1[c] == d1[..cols][c];
      }
    }
  }

  /** The `cols`-by-`cols` diagonal matrix with `d[..cols]` on its diagonal. */
  function Diag(d: Vec, cols: nat): (m: Mat)
    requires cols <= |d|
    ensures IsMat(m, cols, cols)
  {
    seq(cols, k requires 0 <= k < cols => seq(cols, c requires 0 <= c < cols => if k == c then d[k] else 0.0))
  }

  /** Column scaling is the matrix product `x * diagmat(d)`. */
  lemma ScaleColumnsIsDiagProduct(x: Mat, cols: nat, d: Vec)
    requires IsMat(x, |x|, cols) && cols <= |d|
    ensures ScaleColumns(x, cols, d) == MatMul(x, Diag(d, cols), cols)
  {
    var dm := Diag(d, cols);
    var lhs, rhs := ScaleColumns(x, cols, d), MatMul(x, dm, cols);
    forall i | 0 <= i < |x| ensures lhs[i] == rhs[i] {
      forall c | 0 <= c < cols ensures lhs[i][c] == rhs[i][c] {
        var t := Products(x[i], Column(dm, c));
        forall k | 0 <= k < cols && k != c ensures t[k] == 0.0 {
          assert Column(dm, c)[k] == 0.0;
        }
        SumSingle(t, c);
      }
    }
  }
}
