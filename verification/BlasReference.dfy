/**
 What the Level 3 routines compute, element by element, on the arguments as the caller
 passes them: the CBLAS codes 111 to 113 for the transpositions, 121 and 122 for the
 triangle, 131 and 132 for the diagonal, 141 and 142 for the side.
 */
module BlasReference {
  import opened Complex
  import opened TileTasks

  /** Element (i, j) of op(X). */
  function Op(trans: int, s: Store, x: Matrix, i: int, j: int): Scalar {
    if trans == 111 then s(x, i, j)
    else if trans == 112 then s(x, j, i)
    else Scalar(s(x, j, i).re, -s(x, j, i).im)
  }

  /** Element (i, j) of the triangular matrix A. */
  function Triangle(uplo: int, diag: int, s: Store, i: int, j: int): Scalar {
    if i == j then if diag == 132 then ONE else s(MatA, i, i)
    else if if uplo == 121 then i < j else j < i then s(MatA, i, j)
    else ZERO
  }

  function OpTriangle(uplo: int, trans: int, diag: int, s: Store, i: int, j: int): Scalar {
    if trans == 111 then Triangle(uplo, diag, s, i, j)
    else if trans == 112 then Triangle(uplo, diag, s, j, i)
    else Scalar(Triangle(uplo, diag, s, j, i).re, -Triangle(uplo, diag, s, j, i).im)
  }

  /** Element (i, j) of the symmetric matrix A, of which one triangle is stored. */
  function Symmetric(uplo: int, s: Store, i: int, j: int): Scalar {
    if i == j then s(MatA, i, i)
    else if (i < j) == (uplo == 121) then s(MatA, i, j)
    else s(MatA, j, i)
  }

  // ----- Inner products -----

  /** The first len products of (op(A) X)(i, j), or of (X op(A))(i, j). */
  function TriangularSum(side: int, uplo: int, trans: int, diag: int, s: Store, x: Store, i: int, j: int,
                         len: nat): Scalar
  {
    if len == 0 then ZERO
    else Add(TriangularSum(side, uplo, trans, diag, s, x, i, j, len - 1),
             if side == 141 then Mul(OpTriangle(uplo, trans, diag, s, i, len - 1), x(MatB, len - 1, j))
             else Mul(x(MatB, i, len - 1), OpTriangle(uplo, trans, diag, s, len - 1, j)))
  }

  /** The first len products of (op(A) op(B))(i, j). */
  function GemmSum(transA: int, transB: int, s: Store, i: int, j: int, len: nat): Scalar {
    if len == 0 then ZERO
    else Add(GemmSum(transA, transB, s, i, j, len - 1),
             Mul(Op(transA, s, MatA, i, len - 1), Op(transB, s, MatB, len - 1, j)))
  }

  /** The first len products of (A B)(i, j), or of (B A)(i, j). */
  function SymmSum(side: int, uplo: int, s: Store, i: int, j: int, len: nat): Scalar {
    if len == 0 then ZERO
    else Add(SymmSum(side, uplo, s, i, j, len - 1),
             if side == 141 then Mul(Symmetric(uplo, s, i, len - 1), s(MatB, len - 1, j))
             else Mul(s(MatB, i, len - 1), Symmetric(uplo, s, len - 1, j)))
  }

  /** The first len products of (A A^T)(i, j), or of (A^T A)(i, j). */
  function SyrkSum(trans: int, s: Store, i: int, j: int, len: nat): Scalar {
    if len == 0 then ZERO
    else Add(SyrkSum(trans, s, i, j, len - 1),
             if trans == 111 then Mul(s(MatA, i, len - 1), s(MatA, j, len - 1))
             else Mul(s(MatA, len - 1, i), s(MatA, len - 1, j)))
  }

  // ----- Results -----

  /** Nothing changes but the elements of x with row below m and column below n. */
  ghost predicate OnlyInside(s: Store, s': Store, x: Matrix, m: nat, n: nat) {
    forall y, i, j :: !(y == x && 0 <= i < m && 0 <= j < n) ==> s'(y, i, j) == s(y, i, j)
  }

  /** B is m x n; on return it holds the X with op(A) X = alpha B, or X op(A) = alpha B. */
  ghost predicate TrsmResult(side: int, uplo: int, trans: int, diag: int, m: nat, n: nat, alpha: Scalar,
                             s: Store, s': Store)
  {
    && OnlyInside(s, s', MatB, m, n)
    && forall i, j :: 0 <= i < m && 0 <= j < n ==>
         TriangularSum(side, uplo, trans, diag, s, s', i, j, if side == 141 then m else n)
           == Mul(alpha, s(MatB, i, j))
  }

  /** On return B holds alpha op(A) B, or alpha B op(A). */
  ghost predicate TrmmResult(side: int, uplo: int, trans: int, diag: int, m: nat, n: nat, alpha: Scalar,
                             s: Store, s': Store)
  {
    && OnlyInside(s, s', MatB, m, n)
    && forall i, j :: 0 <= i < m && 0 <= j < n ==>
         s'(MatB, i, j)
           == Mul(alpha, TriangularSum(side, uplo, trans, diag, s, s, i, j, if side == 141 then m else n))
  }

  /** C is m x n; on return it holds alpha op(A) op(B) + beta C. */
  ghost predicate GemmResult(transA: int, transB: int, m: nat, n: nat, k: nat, alpha: Scalar, beta: Scalar,
                             s: Store, s': Store)
  {
    && OnlyInside(s, s', MatC, m, n)
    && forall i, j :: 0 <= i < m && 0 <= j < n ==>
         s'(MatC, i, j)
           == Add(Mul(alpha, GemmSum(transA, transB, s, i, j, k)), Mul(beta, s(MatC, i, j)))
  }

  /** On return C holds alpha A B + beta C, or alpha B A + beta C. */
  ghost predicate SymmResult(side: int, uplo: int, m: nat, n: nat, alpha: Scalar, beta: Scalar, s: Store, s': Store) {
    && OnlyInside(s, s', MatC, m, n)
    && forall i, j :: 0 <= i < m && 0 <= j < n ==>
         s'(MatC, i, j)
           == Add(Mul(alpha, SymmSum(side, uplo, s, i, j, if side == 141 then m else n)), Mul(beta, s(MatC, i, j)))
  }

  /** On return the stored triangle of C holds alpha A A^T + beta C, or alpha A^T A + beta C. */
  ghost predicate SyrkResult(uplo: int, trans: int, n: nat, k: nat, alpha: Scalar, beta: Scalar, s: Store, s': Store) {
    && (forall y, i, j :: !(y == MatC && 0 <= i < n && 0 <= j < n && (if uplo == 121 then i <= j else j <= i)) ==>
          s'(y, i, j) == s(y, i, j))
    && forall i, j :: 0 <= i < n && 0 <= j < n && (if uplo == 121 then i <= j else j <= i) ==>
         s'(MatC, i, j) == Add(Mul(alpha, SyrkSum(trans, s, i, j, k)), Mul(beta, s(MatC, i, j)))
  }

  /** No element that a solve of this order divides by vanishes. */
  ghost predicate RegularOperand(diag: int, order: nat, s: Store) {
    diag == 132 || forall r :: 0 <= r < order ==> s(MatA, r, r) != ZERO
  }
}
