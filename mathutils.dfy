/** The dense linear-algebra kernel: matrices are sequences of rows. Each operation
    that the original fills with nested loops is a method proved equal to a
    specification function; the algebraic facts are lemmas about those functions. */
module MathUtils {
  import opened Numeric

  type Vector = seq<real>
  type Matrix = seq<seq<real>>

  /** `M` has `m` rows of `n` entries each. */
  predicate IsMatrix(M: Matrix, m: nat, n: nat)
  {
    |M| == m && forall i :: 0 <= i < m ==> |M[i]| == n
  }

  /** Linear interpolation from `a` (t = 0) to `b` (t = 1). */
  function Lerp(a: real, b: real, t: real): (r: real)
    ensures t == 0.0 ==> r == a
    ensures t == 1.0 ==> r == b
  {
    a + (b - a) * t
  }

  /** For `t` in [0, 1] the interpolant lies between the two end points. */
  lemma LerpBetween(a: real, b: real, t: real)
    requires 0.0 <= t <= 1.0
    ensures a <= b ==> a <= Lerp(a, b, t) <= b
    ensures b <= a ==> b <= Lerp(a, b, t) <= a
  {
    assert Lerp(a, b, t) == a + (b - a) * t;
    assert b - Lerp(a, b, t) == (b - a) * (1.0 - t);
    if a <= b {
      MulNonNegative(b - a, t);
      MulNonNegative(b - a, 1.0 - t);
    } else {
      MulNonNegative(a - b, t);
      MulNonNegative(a - b, 1.0 - t);
      assert (b - a) * t == -((a - b) * t);
      assert (b - a) * (1.0 - t) == -((a - b) * (1.0 - t));
    }
  }

  // ---------------------------------------------------------------------------
  // Specification functions

  function Identity(n: nat): (I: Matrix)
    ensures IsMatrix(I, n, n)
  {
    seq(n, i => seq(n, j => if i == j then 1.0 else 0.0))
  }

  /** Unit vector `e_j` of length `n`. */
  function Unit(n: nat, j: nat): Vector
  {
    seq(n, k => if k == j then 1.0 else 0.0)
  }

  /** `a[0]*b[0] + ... + a[k-1]*b[k-1]`, accumulated left to right. */
  function DotUpTo(a: Vector, b: Vector, k: nat): real
    requires k <= |a| && k <= |b|
  {
    if k == 0 then 0.0 else DotUpTo(a, b, k - 1) + a[k - 1] * b[k - 1]
  }

  function Dot(a: Vector, b: Vector): real
    requires |a| == |b|
  {
    DotUpTo(a, b, |a|)
  }

  function Column(M: Matrix, j: nat): (c: Vector)
    requires forall i :: 0 <= i < |M| ==> j < |M[i]|
  {
    seq(|M|, i requires 0 <= i < |M| => M[i][j])
  }

  function Add(A: Matrix, B: Matrix): Matrix
    requires 0 < |A| && IsMatrix(A, |A|, |A[0]|) && IsMatrix(B, |A|, |A[0]|)
  {
    seq(|A|, i requires 0 <= i < |A| => seq(|A[0]|, j requires 0 <= j < |A[0]| => A[i][j] + B[i][j]))
  }

  function ScalarMul(A: Matrix, s: real): Matrix
    requires 0 < |A| && IsMatrix(A, |A|, |A[0]|)
  {
    seq(|A|, i requires 0 <= i < |A| => seq(|A[0]|, j requires 0 <= j < |A[0]| => A[i][j] * s))
  }

  function Transpose(A: Matrix): (T: Matrix)
    requires 0 < |A| && IsMatrix(A, |A|, |A[0]|)
    ensures IsMatrix(T, |A[0]|, |A|)
  {
    seq(|A[0]|, i requires 0 <= i < |A[0]| => seq(|A|, j requires 0 <= j < |A| => A[j][i]))
  }

  /** `Mul(A, B)[i][j]` is row `i` of `A` dotted with column `j` of `B`. */
  function Mul(A: Matrix, B: Matrix): (C: Matrix)
    requires 0 < |A| && IsMatrix(A, |A|, |B|)
    requires 0 < |B| && IsMatrix(B, |B|, |B[0]|)
    ensures IsMatrix(C, |A|, |B[0]|)
  {
    seq(|A|, i requires 0 <= i < |A| =>
      seq(|B[0]|, j requires 0 <= j < |B[0]| => Dot(A[i], Column(B, j))))
  }

  function MatVec(M: Matrix, v: Vector): Vector
    requires IsMatrix(M, |M|, |v|)
  {
    seq(|M|, i requires 0 <= i < |M| => Dot(M[i], v))
  }

  /** `vecAdd`: maps over `a`, so the result has `a`'s length. */
  function VecAdd(a: Vector, b: Vector): (r: Vector)
    requires |a| <= |b|
    ensures |r| == |a|
  {
    seq(|a|, i requires 0 <= i < |a| => a[i] + b[i])
  }

  /** `vecSubtract`: maps over `a`, so the result has `a`'s length. */
  function VecSub(a: Vector, b: Vector): (r: Vector)
    requires |a| <= |b|
    ensures |r| == |a|
  {
    seq(|a|, i requires 0 <= i < |a| => a[i] - b[i])
  }

  /** Two matrices of one shape with the same entries are equal. */
  lemma MatrixExt(A: Matrix, B: Matrix, m: nat, n: nat)
    requires IsMatrix(A, m, n) && IsMatrix(B, m, n)
    requires forall i, j :: 0 <= i < m && 0 <= j < n ==> A[i][j] == B[i][j]
    ensures A == B
  {
    forall i | 0 <= i < m
      ensures A[i] == B[i]
    {
    }
  }

  // ---------------------------------------------------------------------------
  // The kernel's operations

  method MatIdentity(n: nat) returns (I: Matrix)
    ensures IsMatrix(I, n, n)
    ensures forall i, j :: 0 <= i < n && 0 <= j < n ==> I[i][j] == if i == j then 1.0 else 0.0
    ensures I == Identity(n)
  {
    I := [];
    for i := 0 to n
      invariant IsMatrix(I, i, n)
      invariant forall r, c :: 0 <= r < i && 0 <= c < n ==> I[r][c] == if r == c then 1.0 else 0.0
    {
      var row := [];
      for j := 0 to n
        invariant |row| == j
        invariant forall c :: 0 <= c < j ==> row[c] == if i == c then 1.0 else 0.0
      {
        row := row + [if i == j then 1.0 else 0.0];
      }
      I := I + [row];
    }
    MatrixExt(I, Identity(n), n, n);
  }

  method MatAdd(A: Matrix, B: Matrix) returns (C: Matrix)
    requires 0 < |A| && IsMatrix(A, |A|, |A[0]|) && IsMatrix(B, |A|, |A[0]|)
    ensures IsMatrix(C, |A|, |A[0]|)
    ensures forall i, j :: 0 <= i < |A| && 0 <= j < |A[0]| ==> C[i][j] == A[i][j] + B[i][j]
    ensures C == Add(A, B)
  {
    var m, n := |A|, |A[0]|;
    C := [];
    for i := 0 to m
      invariant IsMatrix(C, i, n)
      invariant forall r, c :: 0 <= r < i && 0 <= c < n ==> C[r][c] == A[r][c] + B[r][c]
    {
      var row := [];
      for j := 0 to n
        invariant |row| == j
        invariant forall c :: 0 <= c < j ==> row[c] == A[i][c] + B[i][c]
      {
        row := row + [A[i][j] + B[i][j]];
      }
      C := C + [row];
    }
    MatrixExt(C, Add(A, B), m, n);
  }

  method MatMult(A: Matrix, B: Matrix) returns (C: Matrix)
    requires 0 < |A| && IsMatrix(A, |A|, |B|)
    requires 0 < |B| && IsMatrix(B, |B|, |B[0]|)
    ensures IsMatrix(C, |A|, |B[0]|)
    ensures forall i, j :: 0 <= i < |A| && 0 <= j < |B[0]| ==> C[i][j] == Dot(A[i], Column(B, j))
    ensures C == Mul(A, B)
  {
    var m, n, p := |A|, |A[0]|, |B[0]|;
    C := [];
    for i := 0 to m
      invariant IsMatrix(C, i, p)
      invariant forall r, c :: 0 <= r < i && 0 <= c < p ==> C[r][c] == Dot(A[r], Column(B, c))
    {
      var row := [];
      for j := 0 to p
        invariant |row| == j
        invariant forall c :: 0 <= c < j ==> row[c] == Dot(A[i], Column(B, c))
      {
        var sum := 0.0;
        for k := 0 to n
          invariant sum == DotUpTo(A[i], Column(B, j), k)
        {
          sum := sum + A[i][k] * B[k][j];
        }
        row := row + [sum];
      }
      C := C + [row];
    }
    MatrixExt(C, Mul(A, B), m, p);
  }

  method MatTranspose(A: Matrix) returns (T: Matrix)
    requires 0 < |A| && IsMatrix(A, |A|, |A[0]|)
    ensures IsMatrix(T, |A[0]|, |A|)
    ensures forall i, j :: 0 <= i < |A[0]| && 0 <= j < |A| ==> T[i][j] == A[j][i]
    ensures T == Transpose(A)
  {
    var m, n := |A|, |A[0]|;
    T := [];
    for i := 0 to n
      invariant IsMatrix(T, i, m)
      invariant forall r, c :: 0 <= r < i && 0 <= c < m ==> T[r][c] == A[c][r]
    {
      var row := [];
      for j := 0 to m
        invariant |row| == j
        invariant forall c :: 0 <= c < j ==> row[c] == A[c][i]
      {
        row := row + [A[j][i]];
      }
      T := T + [row];
    }
    MatrixExt(T, Transpose(A), n, m);
  }

  method MatScalarMultiply(A: Matrix, scalar: real) returns (C: Matrix)
    requires 0 < |A| && IsMatrix(A, |A|, |A[0]|)
    ensures IsMatrix(C, |A|, |A[0]|)
    ensures forall i, j :: 0 <= i < |A| && 0 <= j < |A[0]| ==> C[i][j] == A[i][j] * scalar
    ensures C == ScalarMul(A, scalar)
  {
    var m, n := |A|, |A[0]|;
    C := [];
    for i := 0 to m
      invariant IsMatrix(C, i, n)
      invariant forall r, c :: 0 <= r < i && 0 <= c < n ==> C[r][c] == A[r][c] * scalar
    {
      var row := [];
      for j := 0 to n
        invariant |row| == j
        invariant forall c :: 0 <= c < j ==> row[c] == A[i][c] * scalar
      {
        row := row + [A[i][j] * scalar];
      }
      C := C + [row];
    }
    MatrixExt(C, ScalarMul(A, scalar), m, n);
  }

  method MatVecMult(M: Matrix, v: Vector) returns (result: Vector)
    requires IsMatrix(M, |M|, |v|)
    ensures |result| == |M|
    ensures forall i :: 0 <= i < |M| ==> result[i] == Dot(M[i], v)
    ensures result == MatVec(M, v)
  {
    var m := |M|;
    result := seq(m, _ => 0.0);
    for i := 0 to m
      invariant |result| == m
      invariant forall r :: 0 <= r < i ==> result[r] == Dot(M[r], v)
    {
      var sum := 0.0;
      for j := 0 to |v|
        invariant sum == DotUpTo(M[i], v, j)
      {
        sum := sum + M[i][j] * v[j];
      }
      result := result[i := sum];
    }
  }

  // ---------------------------------------------------------------------------
  // Algebraic facts

  lemma {:induction false} DotUpToUnitRight(a: Vector, n: nat, j: nat, k: nat)
    requires |a| == n && k <= n
    ensures DotUpTo(a, Unit(n, j), k) == if j < k then a[j] else 0.0
  {
    if k > 0 {
      DotUpToUnitRight(a, n, j, k - 1);
    }
  }

  lemma {:induction false} DotUpToUnitLeft(a: Vector, n: nat, j: nat, k: nat)
    requires |a| == n && k <= n
    ensures DotUpTo(Unit(n, j), a, k) == if j < k then a[j] else 0.0
  {
    if k > 0 {
      DotUpToUnitLeft(a, n, j, k - 1);
    }
  }

  /** The identity matrix is a left unit of `matMult`. */
  lemma MulIdentityLeft(A: Matrix)
    requires 0 < |A| && 0 < |A[0]| && IsMatrix(A, |A|, |A[0]|)
    ensures Mul(Identity(|A|), A) == A
  {
    var m, n := |A|, |A[0]|;
    var I := Identity(m);
    forall i, j | 0 <= i < m && 0 <= j < n
      ensures Mul(I, A)[i][j] == A[i][j]
    {
      assert I[i] == Unit(m, i);
      DotUpToUnitLeft(Column(A, j), m, i, m);
    }
    MatrixExt(Mul(I, A), A, m, n);
  }

  /** The identity matrix is a right unit of `matMult`. */
  lemma MulIdentityRight(A: Matrix)
    requires 0 < |A| && 0 < |A[0]| && IsMatrix(A, |A|, |A[0]|)
    ensures Mul(A, Identity(|A[0]|)) == A
  {
    var m, n := |A|, |A[0]|;
    var I := Identity(n);
    forall i, j | 0 <= i < m && 0 <= j < n
      ensures Mul(A, I)[i][j] == A[i][j]
    {
      assert Column(I, j) == Unit(n, j);
      DotUpToUnitRight(A[i], n, j, n);
    }
    MatrixExt(Mul(A, I), A, m, n);
  }

  /** Transposing twice gives the matrix back. */
  lemma TransposeInvolution(A: Matrix)
    requires 0 < |A| && 0 < |A[0]| && IsMatrix(A, |A|, |A[0]|)
    ensures Transpose(Transpose(A)) == A
  {
    var T := Transpose(A);
    assert IsMatrix(T, |A[0]|, |A|);
    forall i | 0 <= i < |A|
      ensures Transpose(T)[i] == A[i]
    {
    }
  }

  /** Subtracting and adding back the same vector is a round trip, both ways. */
  lemma VecSubAddRoundTrip(a: Vector, b: Vector)
    requires |a| <= |b|
    ensures VecAdd(VecSub(a, b), b) == a
    ensures VecSub(VecAdd(a, b), b) == a
  {
  }

  /** `M` is square and equal to its transpose. */
  predicate Symmetric(M: Matrix)
  {
    IsMatrix(M, |M|, |M|) && forall i, j :: 0 <= i < |M| && 0 <= j < |M| ==> M[i][j] == M[j][i]
  }

  lemma {:induction false} DotUpToCommutes(a: Vector, b: Vector, k: nat)
    requires k <= |a| && k <= |b|
    ensures DotUpTo(a, b, k) == DotUpTo(b, a, k)
  {
    if k > 0 {
      DotUpToCommutes(a, b, k - 1);
    }
  }

  lemma {:induction false} DotUpToZero(z: Vector, b: Vector, k: nat)
    requires k <= |z| && k <= |b|
    requires forall c :: 0 <= c < k ==> z[c] == 0.0
    ensures DotUpTo(z, b, k) == 0.0
  {
    if k > 0 {
      DotUpToZero(z, b, k - 1);
    }
  }

  /** The row vector `a` (its first `L` entries) times the matching rows of `B`. */
  function VecMat(a: Vector, B: Matrix, n: nat, L: nat): (r: Vector)
    requires L <= |a| && L <= |B| && IsMatrix(B, |B|, n)
    ensures |r| == n
  {
    seq(n, k requires 0 <= k < n => DotUpTo(a, Column(B, k), L))
  }

  /** `(a B) c == a (B c)`: the two orders of a double sum agree. */
  lemma {:induction false} VecMatDot(a: Vector, B: Matrix, c: Vector, L: nat)
    requires L <= |a| == |B| && IsMatrix(B, |B|, |c|)
    ensures DotUpTo(VecMat(a, B, |c|, L), c, |c|) == DotUpTo(a, MatVec(B, c), L)
  {
    var n := |c|;
    if L == 0 {
      DotUpToZero(VecMat(a, B, n, 0), c, n);
    } else {
      VecMatDot(a, B, c, L - 1);
      var v, v' := VecMat(a, B, n, L - 1), VecMat(a, B, n, L);
      forall k | 0 <= k < n
        ensures v'[k] == v[k] - (-a[L - 1]) * B[L - 1][k]
      {
        assert Column(B, k)[L - 1] == B[L - 1][k];
      }
      DotUpToCombination(v, B[L - 1], v', c, -a[L - 1], n);
      assert MatVec(B, c)[L - 1] == DotUpTo(B[L - 1], c, n);
    }
  }

  /** `matMult` is associative. */
  lemma MulAssociative(A: Matrix, B: Matrix, C: Matrix)
    requires 0 < |A| && IsMatrix(A, |A|, |B|)
    requires 0 < |B| && IsMatrix(B, |B|, |C|)
    requires 0 < |C| && IsMatrix(C, |C|, |C[0]|)
    ensures Mul(Mul(A, B), C) == Mul(A, Mul(B, C))
  {
    var m, r := |A|, |C[0]|;
    forall i, j | 0 <= i < m && 0 <= j < r
      ensures Mul(Mul(A, B), C)[i][j] == Mul(A, Mul(B, C))[i][j]
    {
      var c := Column(C, j);
      assert Mul(A, B)[i] == VecMat(A[i], B, |C|, |B|);
      assert Column(Mul(B, C), j) == MatVec(B, c);
      VecMatDot(A[i], B, c, |B|);
    }
    MatrixExt(Mul(Mul(A, B), C), Mul(A, Mul(B, C)), m, r);
  }

  /** The transpose of a product is the product of the transposes, in reverse order. */
  lemma TransposeMul(A: Matrix, B: Matrix)
    requires 0 < |A| && IsMatrix(A, |A|, |B|)
    requires 0 < |B| && 0 < |B[0]| && IsMatrix(B, |B|, |B[0]|)
    ensures Transpose(Mul(A, B)) == Mul(Transpose(B), Transpose(A))
  {
    var m, n := |A|, |B[0]|;
    var At, Bt := Transpose(A), Transpose(B);
    forall j, i | 0 <= j < n && 0 <= i < m
      ensures Transpose(Mul(A, B))[j][i] == Mul(Bt, At)[j][i]
    {
      assert Bt[j] == Column(B, j);
      assert Column(At, i) == A[i];
      DotUpToCommutes(A[i], Column(B, j), |B|);
    }
    MatrixExt(Transpose(Mul(A, B)), Mul(Bt, At), n, m);
  }

  /** A square matrix is symmetric exactly when it equals its transpose. */
  lemma SymmetricIffTransposeFixed(M: Matrix)
    requires 0 < |M| && IsMatrix(M, |M|, |M|)
    ensures Symmetric(M) <==> Transpose(M) == M
  {
    if Symmetric(M) {
      MatrixExt(Transpose(M), M, |M|, |M|);
    }
    if Transpose(M) == M {
      forall i, j | 0 <= i < |M| && 0 <= j < |M|
        ensures M[i][j] == M[j][i]
      {
        assert Transpose(M)[i][j] == M[j][i];
      }
    }
  }

  // ---------------------------------------------------------------------------
  // Gauss-Jordan inverse

  /** Pivots of smaller magnitude are treated as zero. */
  const PivotEpsilon: real := 0.0000000001

  /** The outcome of `matInverse`: the inverse, or the "matrix is singular" error it throws. */
  datatype Result<T> = Ok(value: T) | SingularMatrixError

  /** An `n` by `2n` augmented matrix. */
  predicate IsAugmented(M: Matrix)
  {
    IsMatrix(M, |M|, 2 * |M|)
  }

  /** `[A | I]`: every row of `A` followed by the same row of the identity. */
  function Augment(A: Matrix): (M: Matrix)
    requires IsMatrix(A, |A|, |A|)
    ensures |M| == |A| && IsAugmented(M)
  {
    seq(|A|, i requires 0 <= i < |A| => A[i] + Unit(|A|, i))
  }

  /** Every entry of column `i` from the diagonal down is below the pivot threshold. */
  predicate ColumnVanishes(M: Matrix, i: nat)
    requires IsAugmented(M) && i < |M|
  {
    forall k :: i <= k < |M| ==> Abs(M[k][i]) < PivotEpsilon
  }

  /** The search for a replacement pivot row, scanning down from row `r`:
      the first row whose entry in column `i` reaches the threshold, or `|M|`. */
  function FindSwapRow(M: Matrix, i: nat, r: nat): (s: nat)
    requires IsAugmented(M) && i < r <= |M|
    ensures r <= s <= |M|
    ensures s < |M| ==> Abs(M[s][i]) >= PivotEpsilon
    decreases |M| - r
  {
    if r < |M| && Abs(M[r][i]) < PivotEpsilon then FindSwapRow(M, i, r + 1) else r
  }

  /** The search skips exactly the rows below the threshold: it runs off the end
      if and only if every row from `r` on is below it. */
  lemma {:induction false} FindSwapRowSkipsSmall(M: Matrix, i: nat, r: nat)
    requires IsAugmented(M) && i < r <= |M|
    ensures forall k :: r <= k < FindSwapRow(M, i, r) ==> Abs(M[k][i]) < PivotEpsilon
    ensures FindSwapRow(M, i, r) == |M| <==> forall k :: r <= k < |M| ==> Abs(M[k][i]) < PivotEpsilon
    decreases |M| - r
  {
    if r < |M| && Abs(M[r][i]) < PivotEpsilon {
      FindSwapRowSkipsSmall(M, i, r + 1);
    }
  }

  /** The row that supplies the pivot of column `i`: row `i` itself unless its entry is
      below the threshold, otherwise a row strictly below it, or `|M|` if none qualifies. */
  function PivotRow(M: Matrix, i: nat): (s: nat)
    requires IsAugmented(M) && i < |M|
    ensures i <= s <= |M|
    ensures s != i ==> Abs(M[i][i]) < PivotEpsilon
    ensures s < |M| ==> Abs(M[s][i]) >= PivotEpsilon
  {
    if Abs(M[i][i]) < PivotEpsilon then FindSwapRow(M, i, i + 1) else i
  }

  /** No pivot row exists exactly when column `i` vanishes from the diagonal down. */
  lemma PivotRowMissingIff(M: Matrix, i: nat)
    requires IsAugmented(M) && i < |M|
    ensures PivotRow(M, i) == |M| <==> ColumnVanishes(M, i)
  {
    if Abs(M[i][i]) < PivotEpsilon {
      FindSwapRowSkipsSmall(M, i, i + 1);
    }
  }

  function SwapRows(M: Matrix, i: nat, s: nat): Matrix
    requires i < |M| && s < |M|
  {
    M[i := M[s]][s := M[i]]
  }

  function ScaleRow(row: Vector, pivot: real): (r: Vector)
    requires pivot != 0.0
    ensures |r| == |row|
  {
    seq(|row|, j requires 0 <= j < |row| => row[j] / pivot)
  }

  function SubtractMultiple(row: Vector, pivotRow: Vector, factor: real): (r: Vector)
    requires |row| == |pivotRow|
    ensures |r| == |row|
  {
    seq(|row|, j requires 0 <= j < |row| => row[j] - factor * pivotRow[j])
  }

  /** Clears column `i` in every row but `i`, using row `i` (whose pivot is 1). */
  function EliminateColumn(M: Matrix, i: nat): (r: Matrix)
    requires IsAugmented(M) && i < |M|
    ensures |r| == |M| && IsAugmented(r)
  {
    seq(|M|, k requires 0 <= k < |M| =>
      if k == i then M[i] else SubtractMultiple(M[k], M[i], M[k][i]))
  }

  /** Row `i` exchanged with the pivot row chosen for column `i`, when that is another row. */
  function BringPivotUp(M: Matrix, i: nat): (r: Matrix)
    requires IsAugmented(M) && i < |M| && PivotRow(M, i) < |M|
    ensures |r| == |M| && IsAugmented(r)
    ensures Abs(r[i][i]) >= PivotEpsilon
  {
    var s := PivotRow(M, i);
    if s == i then M else SwapRows(M, i, s)
  }

  /** Row `i` divided by its pivot `M[i][i]`. */
  function NormalizePivotRow(M: Matrix, i: nat): (r: Matrix)
    requires IsAugmented(M) && i < |M| && M[i][i] != 0.0
    ensures |r| == |M| && IsAugmented(r)
  {
    M[i := ScaleRow(M[i], M[i][i])]
  }

  /** One pass of the outer loop, at column `i`: choose the pivot row (failing when the
      column vanishes), swap it into place, divide it by the pivot, eliminate. */
  function PivotStep(M: Matrix, i: nat): (r: Result<Matrix>)
    requires IsAugmented(M) && i < |M|
    ensures r.Ok? ==> |r.value| == |M| && IsAugmented(r.value)
  {
    if PivotRow(M, i) == |M| then SingularMatrixError
    else Ok(EliminateColumn(NormalizePivotRow(BringPivotUp(M, i), i), i))
  }

  /** A pass fails exactly when its column vanishes from the diagonal down. */
  lemma PivotStepFailsIff(M: Matrix, i: nat)
    requires IsAugmented(M) && i < |M|
    ensures PivotStep(M, i).SingularMatrixError? <==> ColumnVanishes(M, i)
  {
    PivotRowMissingIff(M, i);
  }

  /** Columns `i .. |M|-1` processed in turn, stopping at the first that vanishes. */
  function ReduceFrom(M: Matrix, i: nat): (r: Result<Matrix>)
    requires IsAugmented(M) && i <= |M|
    ensures r.Ok? ==> |r.value| == |M| && IsAugmented(r.value)
    decreases |M| - i
  {
    if i == |M| then Ok(M)
    else
      match PivotStep(M, i)
      case SingularMatrixError => SingularMatrixError
      case Ok(M') => ReduceFrom(M', i + 1)
  }

  function RightHalf(M: Matrix): (R: Matrix)
    requires IsAugmented(M)
    ensures IsMatrix(R, |M|, |M|)
  {
    seq(|M|, i requires 0 <= i < |M| => M[i][|M|..2 * |M|])
  }

  /** `matInverse(A)`: the right half of the fully reduced augmented matrix. */
  function Inverse(A: Matrix): (r: Result<Matrix>)
    requires IsMatrix(A, |A|, |A|)
    ensures r.Ok? ==> IsMatrix(r.value, |A|, |A|)
  {
    match ReduceFrom(Augment(A), 0)
    case SingularMatrixError => SingularMatrixError
    case Ok(M) => Ok(RightHalf(M))
  }

  // Why a successful inversion is a left inverse: every pass keeps two facts about the
  // augmented matrix, that its first columns are those of the identity and that the left
  // half of every row is the right half of that row times `A`.

  /** Columns `0 .. i-1` of `M` are those of the identity. */
  ghost predicate UnitColumns(M: Matrix, i: nat)
    requires IsAugmented(M) && i <= |M|
  {
    forall k, j :: 0 <= k < |M| && 0 <= j < i ==> M[k][j] == if k == j then 1.0 else 0.0
  }

  /** The left half of `row` is its right half times `A`. */
  ghost predicate RowConsistent(row: Vector, A: Matrix)
    requires IsMatrix(A, |A|, |A|)
  {
    |row| == 2 * |A| && forall j :: 0 <= j < |A| ==> row[j] == Dot(row[|A|..], Column(A, j))
  }

  ghost predicate Consistent(M: Matrix, A: Matrix)
    requires IsMatrix(A, |A|, |A|)
  {
    forall k :: 0 <= k < |M| ==> RowConsistent(M[k], A)
  }

  /** Dividing one factor entry-wise by `p` divides the dot product by `p`. */
  lemma {:induction false} DotUpToScaled(a: Vector, a': Vector, b: Vector, p: real, k: nat)
    requires p != 0.0 && k <= |a| && k <= |a'| && k <= |b|
    requires forall c :: 0 <= c < k ==> a'[c] == a[c] / p
    ensures DotUpTo(a', b, k) == DotUpTo(a, b, k) / p
  {
    if k > 0 {
      DotUpToScaled(a, a', b, p, k - 1);
      var x, y := DotUpTo(a, b, k - 1), a[k - 1] * b[k - 1];
      assert a'[k - 1] * b[k - 1] == y / p;
      assert x / p + y / p == (x + y) / p;
    }
  }

  /** The dot product is linear in its first factor. */
  lemma {:induction false} DotUpToCombination(a: Vector, q: Vector, a': Vector, b: Vector, f: real, k: nat)
    requires k <= |a| && k <= |q| && k <= |a'| && k <= |b|
    requires forall c :: 0 <= c < k ==> a'[c] == a[c] - f * q[c]
    ensures DotUpTo(a', b, k) == DotUpTo(a, b, k) - f * DotUpTo(q, b, k)
  {
    if k > 0 {
      DotUpToCombination(a, q, a', b, f, k - 1);
      assert a'[k - 1] * b[k - 1] == a[k - 1] * b[k - 1] - f * (q[k - 1] * b[k - 1]);
      assert f * DotUpTo(q, b, k) == f * DotUpTo(q, b, k - 1) + f * (q[k - 1] * b[k - 1]);
    }
  }

  /** An entry combined like the rows it belongs to is the combined row's dot product. */
  lemma CombinedEntry(a: Vector, q: Vector, a': Vector, b: Vector, f: real, x: real, y: real, z: real)
    requires |a| == |q| == |a'| == |b|
    requires forall c :: 0 <= c < |a| ==> a'[c] == a[c] - f * q[c]
    requires x == Dot(a, b) && y == Dot(q, b) && z == x - f * y
    ensures z == Dot(a', b)
  {
    DotUpToCombination(a, q, a', b, f, |a|);
  }

  lemma ScaleRowConsistent(row: Vector, A: Matrix, p: real)
    requires IsMatrix(A, |A|, |A|) && RowConsistent(row, A) && p != 0.0
    ensures RowConsistent(ScaleRow(row, p), A)
  {
    var n, r := |A|, ScaleRow(row, p);
    forall c | 0 <= c < n
      ensures r[n..][c] == row[n..][c] / p
    {
      assert r[n..][c] == r[n + c];
    }
    forall j | 0 <= j < n
      ensures r[j] == Dot(r[n..], Column(A, j))
    {
      DotUpToScaled(row[n..], r[n..], Column(A, j), p, n);
    }
  }

  lemma SubtractMultipleConsistent(row: Vector, pivotRow: Vector, A: Matrix, f: real)
    requires IsMatrix(A, |A|, |A|) && RowConsistent(row, A) && RowConsistent(pivotRow, A)
    ensures RowConsistent(SubtractMultiple(row, pivotRow, f), A)
  {
    var n, r := |A|, SubtractMultiple(row, pivotRow, f);
    forall c | 0 <= c < n
      ensures r[n..][c] == row[n..][c] - f * pivotRow[n..][c]
    {
      assert r[n..][c] == r[n + c];
    }
    forall j | 0 <= j < n
      ensures r[j] == Dot(r[n..], Column(A, j))
    {
      CombinedEntry(row[n..], pivotRow[n..], r[n..], Column(A, j), f, row[j], pivotRow[j], r[j]);
    }
  }

  /** `[A | I]` satisfies both facts before the first pass. */
  lemma AugmentConsistent(A: Matrix)
    requires IsMatrix(A, |A|, |A|)
    ensures UnitColumns(Augment(A), 0) && Consistent(Augment(A), A)
  {
    var n, M := |A|, Augment(A);
    forall k, j | 0 <= k < n && 0 <= j < n
      ensures M[k][j] == Dot(M[k][n..], Column(A, j))
    {
      assert M[k][n..] == Unit(n, k);
      DotUpToUnitLeft(Column(A, j), n, k, n);
    }
  }

  lemma BringPivotUpKeeps(M: Matrix, i: nat, A: Matrix)
    requires IsMatrix(A, |A|, |A|) && IsAugmented(M) && |M| == |A| && i < |M| && PivotRow(M, i) < |M|
    requires UnitColumns(M, i) && Consistent(M, A)
    ensures UnitColumns(BringPivotUp(M, i), i) && Consistent(BringPivotUp(M, i), A)
  {
    var s, B := PivotRow(M, i), BringPivotUp(M, i);
    forall k | 0 <= k < |M|
      ensures B[k] == M[if k == i then s else if k == s then i else k]
    {
    }
  }

  lemma NormalizePivotRowKeeps(M: Matrix, i: nat, A: Matrix)
    requires IsMatrix(A, |A|, |A|) && IsAugmented(M) && |M| == |A| && i < |M| && M[i][i] != 0.0
    requires UnitColumns(M, i) && Consistent(M, A)
    ensures UnitColumns(NormalizePivotRow(M, i), i) && Consistent(NormalizePivotRow(M, i), A)
    ensures NormalizePivotRow(M, i)[i][i] == 1.0
  {
    var p, N := M[i][i], NormalizePivotRow(M, i);
    assert N[i] == ScaleRow(M[i], p);
    assert N[i][i] == p / p == 1.0;
    forall j | 0 <= j < i
      ensures N[i][j] == 0.0
    {
      assert M[i][j] == 0.0;
    }
    ScaleRowConsistent(M[i], A, p);
  }

  lemma EliminateColumnKeeps(M: Matrix, i: nat, A: Matrix)
    requires IsMatrix(A, |A|, |A|) && IsAugmented(M) && |M| == |A| && i < |M| && M[i][i] == 1.0
    requires UnitColumns(M, i) && Consistent(M, A)
    ensures UnitColumns(EliminateColumn(M, i), i + 1) && Consistent(EliminateColumn(M, i), A)
  {
    EliminateColumnConsistent(M, i, A);
    EliminateColumnUnit(M, i);
  }

  /** Elimination clears column `i` outside the pivot and leaves earlier unit columns alone. */
  lemma EliminateColumnUnit(M: Matrix, i: nat)
    requires IsAugmented(M) && i < |M| && M[i][i] == 1.0 && UnitColumns(M, i)
    ensures UnitColumns(EliminateColumn(M, i), i + 1)
  {
    var E := EliminateColumn(M, i);
    assert E[i] == M[i];
    forall k, j | 0 <= k < |M| && k != i && 0 <= j <= i
      ensures E[k][j] == if k == j then 1.0 else 0.0
    {
      var f := M[k][i];
      assert E[k] == SubtractMultiple(M[k], M[i], f);
      assert E[k][j] == M[k][j] - f * M[i][j];
      if j < i {
        assert M[i][j] == 0.0 && M[k][j] == if k == j then 1.0 else 0.0;
      } else {
        assert M[i][j] == 1.0;
      }
    }
  }

  lemma EliminateColumnConsistent(M: Matrix, i: nat, A: Matrix)
    requires IsMatrix(A, |A|, |A|) && IsAugmented(M) && |M| == |A| && i < |M| && Consistent(M, A)
    ensures Consistent(EliminateColumn(M, i), A)
  {
    var E := EliminateColumn(M, i);
    forall k | 0 <= k < |M|
      ensures RowConsistent(E[k], A)
    {
      if k != i {
        SubtractMultipleConsistent(M[k], M[i], A, M[k][i]);
      }
    }
  }

  lemma PivotStepKeeps(M: Matrix, i: nat, A: Matrix)
    requires IsMatrix(A, |A|, |A|) && IsAugmented(M) && |M| == |A| && i < |M|
    requires UnitColumns(M, i) && Consistent(M, A)
    ensures PivotStep(M, i).Ok? ==>
      UnitColumns(PivotStep(M, i).value, i + 1) && Consistent(PivotStep(M, i).value, A)
  {
    if PivotRow(M, i) < |M| {
      var M1 := BringPivotUp(M, i);
      BringPivotUpKeeps(M, i, A);
      var M2 := NormalizePivotRow(M1, i);
      NormalizePivotRowKeeps(M1, i, A);
      EliminateColumnKeeps(M2, i, A);
    }
  }

  lemma {:induction false} ReduceFromKeeps(M: Matrix, i: nat, A: Matrix)
    requires IsMatrix(A, |A|, |A|) && IsAugmented(M) && |M| == |A| && i <= |M|
    requires UnitColumns(M, i) && Consistent(M, A)
    ensures ReduceFrom(M, i).Ok? ==>
      UnitColumns(ReduceFrom(M, i).value, |M|) && Consistent(ReduceFrom(M, i).value, A)
    decreases |M| - i
  {
    if i < |M| {
      PivotStepKeeps(M, i, A);
      if PivotStep(M, i).Ok? {
        ReduceFromKeeps(PivotStep(M, i).value, i + 1, A);
      }
    }
  }

  /** What `matInverse` returns, when it returns, is a left inverse of its argument. */
  lemma InverseIsLeftInverse(A: Matrix)
    requires 0 < |A| && IsMatrix(A, |A|, |A|) && Inverse(A).Ok?
    ensures Mul(Inverse(A).value, A) == Identity(|A|)
  {
    AugmentConsistent(A);
    ReduceFromKeeps(Augment(A), 0, A);
    ReducedIsLeftInverse(ReduceFrom(Augment(A), 0).value, A);
  }

  /** Once all columns are unit columns, the right half times `A` is the identity. */
  lemma ReducedIsLeftInverse(M: Matrix, A: Matrix)
    requires 0 < |A| && IsMatrix(A, |A|, |A|) && IsAugmented(M) && |M| == |A|
    requires UnitColumns(M, |M|) && Consistent(M, A)
    ensures Mul(RightHalf(M), A) == Identity(|A|)
  {
    var n, R := |A|, RightHalf(M);
    forall k, j | 0 <= k < n && 0 <= j < n
      ensures Mul(R, A)[k][j] == Identity(n)[k][j]
    {
      assert R[k] == M[k][n..];
      assert RowConsistent(M[k], A);
    }
    MatrixExt(Mul(R, A), Identity(n), n, n);
  }

  /** The loop dividing every entry of row `i` of the augmented matrix by the pivot. */
  method DivideRow(M: array<seq<real>>, i: nat, pivot: real)
    requires i < M.Length && pivot != 0.0
    modifies M
    ensures M[..] == old(M[..])[i := ScaleRow(old(M[i]), pivot)]
  {
    ghost var row := M[i];
    var len := |M[i]|;
    for j := 0 to len
      invariant |M[i]| == |row|
      invariant forall c :: 0 <= c < j ==> M[i][c] == row[c] / pivot
      invariant forall c :: j <= c < |row| ==> M[i][c] == row[c]
      invariant forall k :: 0 <= k < M.Length && k != i ==> M[k] == old(M[k])
    {
      M[i] := M[i][j := M[i][j] / pivot];
    }
    assert M[i] == ScaleRow(row, pivot);
  }

  /** The loop subtracting `factor` times row `i` from row `k`, entry by entry. */
  method SubtractRowMultiple(M: array<seq<real>>, k: nat, i: nat, factor: real)
    requires k < M.Length && i < M.Length && k != i && |M[k]| == |M[i]|
    modifies M
    ensures M[..] == old(M[..])[k := SubtractMultiple(old(M[k]), old(M[i]), factor)]
  {
    ghost var row, pivotRow := M[k], M[i];
    var len := |M[k]|;
    for j := 0 to len
      invariant |M[k]| == |row| && M[i] == pivotRow
      invariant forall c :: 0 <= c < j ==> M[k][c] == row[c] - factor * pivotRow[c]
      invariant forall c :: j <= c < |row| ==> M[k][c] == row[c]
      invariant forall l :: 0 <= l < M.Length && l != k ==> M[l] == old(M[l])
    {
      M[k] := M[k][j := M[k][j] - factor * M[i][j]];
    }
    forall c | 0 <= c < len
      ensures M[k][c] == SubtractMultiple(row, pivotRow, factor)[c]
    {
    }
    assert M[k] == SubtractMultiple(row, pivotRow, factor);
  }

  /** The loop over the other rows `k`, each reduced by `M[k][i]` times row `i`. */
  method EliminateInPlace(M: array<seq<real>>, i: nat)
    requires IsAugmented(M[..]) && i < M.Length
    modifies M
    ensures M[..] == EliminateColumn(old(M[..]), i)
  {
    ghost var M2 := M[..];
    var n := M.Length;
    for k := 0 to n
      invariant forall kk :: 0 <= kk < n ==>
        M[kk] == if kk < k && kk != i then SubtractMultiple(M2[kk], M2[i], M2[kk][i]) else M2[kk]
    {
      if k != i {
        var factor := M[k][i];
        SubtractRowMultiple(M, k, i, factor);
      }
    }
    assert M[..] == EliminateColumn(M2, i);
  }

  /** Reads the pivot `M[i][i]`; when it is below the threshold, searches down column `i`
      for a replacement and swaps that row into place. Reports whether a pivot was found. */
  method SwapInPivot(M: array<seq<real>>, i: nat) returns (found: bool)
    requires IsAugmented(M[..]) && i < M.Length
    modifies M
    ensures found <==> !ColumnVanishes(old(M[..]), i)
    ensures found <==> PivotRow(old(M[..]), i) < M.Length
    ensures found ==> M[..] == BringPivotUp(old(M[..]), i)
    ensures !found ==> M[..] == old(M[..])
  {
    ghost var M0 := M[..];
    PivotRowMissingIff(M0, i);
    var n := M.Length;
    var pivot := M[i][i];
    found := true;
    if Abs(pivot) < PivotEpsilon {
      var swapRow := i + 1;
      while swapRow < n && Abs(M[swapRow][i]) < PivotEpsilon
        invariant i + 1 <= swapRow <= n
        invariant FindSwapRow(M0, i, i + 1) == FindSwapRow(M0, i, swapRow)
        decreases n - swapRow
      {
        swapRow := swapRow + 1;
      }
      if swapRow == n {
        found := false;
      } else {
        M[i], M[swapRow] := M[swapRow], M[i];
        assert M[..] == SwapRows(M0, i, swapRow);
      }
    }
  }

  /** The copy of `A`, each row extended by the matching row of the identity. */
  method AugmentedCopy(A: Matrix) returns (M: array<seq<real>>)
    requires IsMatrix(A, |A|, |A|)
    ensures fresh(M) && M[..] == Augment(A)
  {
    var n := |A|;
    var I := MatIdentity(n);
    M := new seq<real>[n];
    for i := 0 to n
      invariant forall k :: 0 <= k < i ==> M[k] == A[k]
    {
      M[i] := A[i];
    }
    for i := 0 to n
      invariant forall k :: 0 <= k < i ==> M[k] == A[k] + I[k]
      invariant forall k :: i <= k < n ==> M[k] == A[k]
    {
      M[i] := M[i] + I[i];
    }
    forall k | 0 <= k < n
      ensures M[k] == Augment(A)[k]
    {
      assert I[k] == Unit(n, k);
    }
    assert M[..] == Augment(A);
  }

  /** The loop slicing the right half `[n, 2n)` out of every row. */
  method RightHalfOf(M: array<seq<real>>) returns (inv: Matrix)
    requires IsAugmented(M[..])
    ensures inv == RightHalf(M[..])
  {
    var n := M.Length;
    inv := [];
    for i := 0 to n
      invariant inv == RightHalf(M[..])[..i]
    {
      inv := inv + [M[i][n..2 * n]];
    }
  }

  /** Gauss-Jordan inversion with row swapping, on a copy of `A` held as an array of rows. */
  method MatInverse(A: Matrix) returns (r: Result<Matrix>)
    requires IsMatrix(A, |A|, |A|)
    ensures r == Inverse(A)
    ensures r.Ok? && 0 < |A| ==> Mul(r.value, A) == Identity(|A|)
  {
    var n := |A|;
    var M := AugmentedCopy(A);
    for i := 0 to n
      invariant |M[..]| == n && IsAugmented(M[..])
      invariant ReduceFrom(M[..], i) == ReduceFrom(Augment(A), 0)
    {
      ghost var M0 := M[..];
      var found := SwapInPivot(M, i);
      PivotStepFailsIff(M0, i);
      if !found {
        return SingularMatrixError;
      }
      var pivot := M[i][i];
      ghost var M1 := M[..];
      DivideRow(M, i, pivot);
      assert M[..] == NormalizePivotRow(M1, i);
      EliminateInPlace(M, i);
      assert Ok(M[..]) == PivotStep(M0, i);
    }
    var inv := RightHalfOf(M);
    r := Ok(inv);
    if 0 < n {
      InverseIsLeftInverse(A);
    }
  }

  // ---------------------------------------------------------------------------
  // Forward-difference Jacobian

  /** The step `numericalJacobian` uses unless told otherwise. */
  const JacobianEpsilon: real := 0.00001

  /** `x` with component `j` moved by `epsilon`. */
  function Perturb(x: Vector, j: nat, epsilon: real): (x1: Vector)
    requires j < |x|
    ensures |x1| == |x| && x1[j] == x[j] + epsilon
    ensures forall k :: 0 <= k < |x| && k != j ==> x1[k] == x[k]
  {
    x[j := x[j] + epsilon]
  }

  /** `f` can be evaluated at `x` and at every perturbed point, and no perturbed output
      is shorter than `f(x, dt)`, whose length fixes the number of rows. */
  ghost predicate JacobianDefined(f: (Vector, real) --> Vector, x: Vector, dt: real, epsilon: real)
  {
    epsilon != 0.0 && f.requires(x, dt) &&
    forall j :: 0 <= j < |x| ==>
      f.requires(Perturb(x, j, epsilon), dt) && |f(x, dt)| <= |f(Perturb(x, j, epsilon), dt)|
  }

  /** Entry `(i, j)` is the forward difference of output `i` along input `j`. */
  function Jacobian(f: (Vector, real) --> Vector, x: Vector, dt: real, epsilon: real): (J: Matrix)
    requires JacobianDefined(f, x, dt, epsilon)
    ensures IsMatrix(J, |f(x, dt)|, |x|)
  {
    var f0 := f(x, dt);
    seq(|f0|, i requires 0 <= i < |f0| =>
      seq(|x|, j requires 0 <= j < |x| => (f(Perturb(x, j, epsilon), dt)[i] - f0[i]) / epsilon))
  }

  /** `numericalJacobian(f, x, dt, epsilon)`: the rows start as zeros and are filled one
      column at a time, each column from one extra evaluation of `f`. Callers that omit
      `epsilon` pass `JacobianEpsilon`. */
  method NumericalJacobian(f: (Vector, real) --> Vector, x: Vector, dt: real, epsilon: real) returns (J: Matrix)
    requires JacobianDefined(f, x, dt, epsilon)
    ensures J == Jacobian(f, x, dt, epsilon)
  {
    var f0 := f(x, dt);
    var m, n := |f0|, |x|;
    var rows := new seq<real>[m](_ => []);
    for i := 0 to m
      invariant forall k :: 0 <= k < i ==> rows[k] == seq(n, _ => 0.0)
    {
      rows[i] := seq(n, _ => 0.0);
    }
    for j := 0 to n
      invariant forall k :: 0 <= k < m ==> |rows[k]| == n
      invariant forall k, c :: 0 <= k < m && 0 <= c < n ==>
        rows[k][c] == if c < j then Jacobian(f, x, dt, epsilon)[k][c] else 0.0
    {
      var x1 := x[j := x[j] + epsilon];
      assert x1 == Perturb(x, j, epsilon);
      var f1 := f(x1, dt);
      for i := 0 to m
        invariant forall k :: 0 <= k < m ==> |rows[k]| == n
        invariant forall k, c :: 0 <= k < m && 0 <= c < n ==>
          rows[k][c] == if c < j || (c == j && k < i) then Jacobian(f, x, dt, epsilon)[k][c] else 0.0
      {
        rows[i] := rows[i][j := (f1[i] - f0[i]) / epsilon];
      }
    }
    J := rows[..];
    MatrixExt(J, Jacobian(f, x, dt, epsilon), m, n);
  }

  /** Moving one input of a dot product moves it by that input's coefficient times the step. */
  lemma {:induction false} DotUpToPerturb(a: Vector, x: Vector, j: nat, epsilon: real, k: nat)
    requires j < |x| && k <= |a| && k <= |x|
    ensures DotUpTo(a, Perturb(x, j, epsilon), k) ==
      DotUpTo(a, x, k) + (if j < k then a[j] * epsilon else 0.0)
  {
    if k > 0 {
      DotUpToPerturb(a, x, j, epsilon, k - 1);
      if j == k - 1 {
        assert a[j] * (x[j] + epsilon) == a[j] * x[j] + a[j] * epsilon;
      }
    }
  }

  /** Forward differences are exact on a linear map: the Jacobian of `v -> M v` is `M`. */
  lemma JacobianOfLinearMap(M: Matrix, x: Vector, dt: real, epsilon: real)
    requires epsilon != 0.0 && IsMatrix(M, |M|, |x|)
    ensures JacobianDefined((v: Vector, t: real) requires |v| == |x| => MatVec(M, v), x, dt, epsilon)
    ensures Jacobian((v: Vector, t: real) requires |v| == |x| => MatVec(M, v), x, dt, epsilon) == M
  {
    var f := (v: Vector, t: real) requires |v| == |x| => MatVec(M, v);
    var J := Jacobian(f, x, dt, epsilon);
    forall i, j | 0 <= i < |M| && 0 <= j < |x|
      ensures J[i][j] == M[i][j]
    {
      DotUpToPerturb(M[i], x, j, epsilon, |x|);
      assert J[i][j] == (M[i][j] * epsilon) / epsilon;
    }
    MatrixExt(J, M, |M|, |x|);
  }
}
