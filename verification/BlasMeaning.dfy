/** The whole-matrix tasks mean what the routines promise on the caller's arguments. */
module BlasMeaning {
  import opened Complex
  import opened TileTasks
  import opened Cblas
  import opened BlasReference

  lemma WholeAt(nb: nat, s: Store, x: Matrix, i: int, j: int)
    ensures At(nb, s, Tile(x, 0, 0), i, j) == s(x, i, j)
  {
  }

  /** The kernel's contract of a task on whole matrices. */
  lemma WholeKernel(nb: nat, t: Task, s: Store, s': Store)
    requires Out(t).m == 0 && Out(t).n == 0
    ensures Kernel(nb, t, s, s') <==>
            && (forall x, i, j :: !(x == Out(t).mat && Written(t, i, j)) ==> s'(x, i, j) == s(x, i, j))
            && forall i, j :: Written(t, i, j) ==> Computes(nb, t, s, s', i, j)
  {
    hide Computes, Written;
    assert forall x, i, j :: Overwrites(nb, t, x, i, j) <==> x == Out(t).mat && Written(t, i, j);
  }

  // ----- Inner products -----

  lemma OpIs(nb: nat, trans: int, s: Store, x: Matrix, i: int, j: int)
    requires IsTrans(trans)
    ensures OpAt(nb, s, TransOf(trans), Tile(x, 0, 0), i, j) == Op(trans, s, x, i, j)
  {
  }

  lemma TriangleIs(nb: nat, uplo: int, diag: int, s: Store, i: int, j: int)
    requires IsUplo(uplo) && IsDiag(diag)
    ensures TriAt(nb, s, UploOf(uplo), DiagOf(diag), Tile(MatA, 0, 0), i, j) == Triangle(uplo, diag, s, i, j)
  {
    hide At;
    WholeAt(nb, s, MatA, i, j);
  }

  lemma OpTriangleIs(nb: nat, uplo: int, trans: int, diag: int, s: Store, i: int, j: int)
    requires IsTrans(trans) && IsUplo(uplo) && IsDiag(diag)
    ensures OpTriAt(nb, s, TransOf(trans), UploOf(uplo), DiagOf(diag), Tile(MatA, 0, 0), i, j)
         == OpTriangle(uplo, trans, diag, s, i, j)
  {
    hide At;
    TriangleIs(nb, uplo, diag, s, i, j);
    TriangleIs(nb, uplo, diag, s, j, i);
    hide TriAt, Triangle;
  }

  lemma SymmetricIs(nb: nat, uplo: int, s: Store, i: int, j: int)
    requires IsUplo(uplo)
    ensures SymAt(nb, s, UploOf(uplo), Tile(MatA, 0, 0), i, j) == Symmetric(uplo, s, i, j)
  {
  }

  lemma {:induction false} TriangularSumIs(nb: nat, t: Task, side: int, uplo: int, trans: int, diag: int, s: Store,
                                           x: Store, i: int, j: int, len: nat)
    requires (t.Trsm? || t.Trmm?) && t.a == Tile(MatA, 0, 0) && t.b == Tile(MatB, 0, 0)
    requires IsSide(side) && IsTrans(trans) && IsUplo(uplo) && IsDiag(diag)
    requires t.side == SideOf(side) && t.uplo == UploOf(uplo) && t.transA == TransOf(trans) && t.diag == DiagOf(diag)
    ensures Sum(nb, t, s, x, i, j, 0, len) == TriangularSum(side, uplo, trans, diag, s, x, i, j, len)
  {
    hide Mul, Add, OpTriangle, OpTriAt;
    if len > 0 {
      TriangularSumIs(nb, t, side, uplo, trans, diag, s, x, i, j, len - 1);
      OpTriangleIs(nb, uplo, trans, diag, s, i, len - 1);
      OpTriangleIs(nb, uplo, trans, diag, s, len - 1, j);
    }
  }

  lemma {:induction false} GemmSumIs(nb: nat, t: Task, transA: int, transB: int, s: Store, i: int, j: int, len: nat)
    requires t.Gemm? && t.a == Tile(MatA, 0, 0) && t.b == Tile(MatB, 0, 0) && IsTrans(transA) && IsTrans(transB)
    requires t.transA == TransOf(transA) && t.transB == TransOf(transB)
    ensures Sum(nb, t, s, s, i, j, 0, len) == GemmSum(transA, transB, s, i, j, len)
  {
    hide Mul, Add, Op, OpAt;
    if len > 0 {
      GemmSumIs(nb, t, transA, transB, s, i, j, len - 1);
      OpIs(nb, transA, s, MatA, i, len - 1);
      OpIs(nb, transB, s, MatB, len - 1, j);
    }
  }

  lemma {:induction false} SymmSumIs(nb: nat, t: Task, side: int, uplo: int, s: Store, i: int, j: int, len: nat)
    requires t.Symm? && t.a == Tile(MatA, 0, 0) && t.b == Tile(MatB, 0, 0) && IsSide(side) && IsUplo(uplo)
    requires t.side == SideOf(side) && t.uplo == UploOf(uplo)
    ensures Sum(nb, t, s, s, i, j, 0, len) == SymmSum(side, uplo, s, i, j, len)
  {
    hide Mul, Add, Symmetric, SymAt;
    if len > 0 {
      SymmSumIs(nb, t, side, uplo, s, i, j, len - 1);
      SymmetricIs(nb, uplo, s, i, len - 1);
      SymmetricIs(nb, uplo, s, len - 1, j);
    }
  }

  lemma {:induction false} SyrkSumIs(nb: nat, t: Task, trans: int, s: Store, i: int, j: int, len: nat)
    requires t.Syrk? && t.a == Tile(MatA, 0, 0) && (trans == CBLAS_NO_TRANS || trans == CBLAS_TRANS)
    requires t.trans == TransOf(trans)
    ensures Sum(nb, t, s, s, i, j, 0, len) == SyrkSum(trans, s, i, j, len)
  {
    hide Mul, Add;
    if len > 0 {
      SyrkSumIs(nb, t, trans, s, i, j, len - 1);
    }
  }

  // ----- Results -----

  lemma TrsmMeans(nb: nat, t: Task, side: int, uplo: int, trans: int, diag: int, m: nat, n: nat, alpha: Scalar,
                  s: Store, s': Store)
    requires IsSide(side) && IsTrans(trans) && IsUplo(uplo) && IsDiag(diag)
    requires t == Trsm(SideOf(side), UploOf(uplo), TransOf(trans), DiagOf(diag), m, n, alpha,
                       Tile(MatA, 0, 0), Tile(MatB, 0, 0))
    ensures Kernel(nb, t, s, s') <==> TrsmResult(side, uplo, trans, diag, m, n, alpha, s, s')
  {
    hide Sum, TriangularSum, Mul, At, Kernel;
    WholeKernel(nb, t, s, s');
    forall i, j | 0 <= i < m && 0 <= j < n
      ensures Computes(nb, t, s, s', i, j) <==>
              TriangularSum(side, uplo, trans, diag, s, s', i, j, if side == 141 then m else n)
                == Mul(alpha, s(MatB, i, j))
    {
      WholeAt(nb, s, MatB, i, j);
      TriangularSumIs(nb, t, side, uplo, trans, diag, s, s', i, j, if side == 141 then m else n);
    }
    hide Computes;
  }

  lemma TrmmMeans(nb: nat, t: Task, side: int, uplo: int, trans: int, diag: int, m: nat, n: nat, alpha: Scalar,
                  s: Store, s': Store)
    requires IsSide(side) && IsTrans(trans) && IsUplo(uplo) && IsDiag(diag)
    requires t == Trmm(SideOf(side), UploOf(uplo), TransOf(trans), DiagOf(diag), m, n, alpha,
                       Tile(MatA, 0, 0), Tile(MatB, 0, 0))
    ensures Kernel(nb, t, s, s') <==> TrmmResult(side, uplo, trans, diag, m, n, alpha, s, s')
  {
    hide Sum, TriangularSum, Mul, At, Kernel;
    WholeKernel(nb, t, s, s');
    forall i, j | 0 <= i < m && 0 <= j < n
      ensures Computes(nb, t, s, s', i, j) <==>
              s'(MatB, i, j)
                == Mul(alpha, TriangularSum(side, uplo, trans, diag, s, s, i, j, if side == 141 then m else n))
    {
      WholeAt(nb, s', MatB, i, j);
      TriangularSumIs(nb, t, side, uplo, trans, diag, s, s, i, j, if side == 141 then m else n);
    }
    hide Computes;
  }

  lemma GemmMeans(nb: nat, t: Task, transA: int, transB: int, m: nat, n: nat, k: nat, alpha: Scalar, beta: Scalar,
                  s: Store, s': Store)
    requires IsTrans(transA) && IsTrans(transB)
    requires t == Gemm(TransOf(transA), TransOf(transB), m, n, k, alpha, Tile(MatA, 0, 0), Tile(MatB, 0, 0),
                       beta, Tile(MatC, 0, 0))
    ensures Kernel(nb, t, s, s') <==> GemmResult(transA, transB, m, n, k, alpha, beta, s, s')
  {
    hide Sum, GemmSum, Mul, Add, At, Kernel;
    WholeKernel(nb, t, s, s');
    forall i, j | 0 <= i < m && 0 <= j < n
      ensures Computes(nb, t, s, s', i, j) <==>
              s'(MatC, i, j)
                == Add(Mul(alpha, GemmSum(transA, transB, s, i, j, k)), Mul(beta, s(MatC, i, j)))
    {
      WholeAt(nb, s, MatC, i, j);
      WholeAt(nb, s', MatC, i, j);
      GemmSumIs(nb, t, transA, transB, s, i, j, k);
    }
    hide Computes;
  }

  lemma SymmMeans(nb: nat, t: Task, side: int, uplo: int, m: nat, n: nat, alpha: Scalar, beta: Scalar,
                  s: Store, s': Store)
    requires IsSide(side) && IsUplo(uplo)
    requires t == Symm(SideOf(side), UploOf(uplo), m, n, alpha, Tile(MatA, 0, 0), Tile(MatB, 0, 0),
                       beta, Tile(MatC, 0, 0))
    ensures Kernel(nb, t, s, s') <==> SymmResult(side, uplo, m, n, alpha, beta, s, s')
  {
    hide Sum, SymmSum, Mul, Add, At, Kernel;
    WholeKernel(nb, t, s, s');
    forall i, j | 0 <= i < m && 0 <= j < n
      ensures Computes(nb, t, s, s', i, j) <==>
              s'(MatC, i, j)
                == Add(Mul(alpha, SymmSum(side, uplo, s, i, j, if side == 141 then m else n)),
                       Mul(beta, s(MatC, i, j)))
    {
      WholeAt(nb, s, MatC, i, j);
      WholeAt(nb, s', MatC, i, j);
      SymmSumIs(nb, t, side, uplo, s, i, j, if side == 141 then m else n);
    }
    hide Computes;
  }

  lemma SyrkMeans(nb: nat, t: Task, uplo: int, trans: int, n: nat, k: nat, alpha: Scalar, beta: Scalar,
                  s: Store, s': Store)
    requires IsUplo(uplo) && (trans == CBLAS_NO_TRANS || trans == CBLAS_TRANS)
    requires t == Syrk(UploOf(uplo), TransOf(trans), n, k, alpha, Tile(MatA, 0, 0), beta, Tile(MatC, 0, 0))
    ensures Kernel(nb, t, s, s') <==> SyrkResult(uplo, trans, n, k, alpha, beta, s, s')
  {
    hide Sum, SyrkSum, Mul, Add, At, Kernel;
    WholeKernel(nb, t, s, s');
    forall i, j | 0 <= i < n && 0 <= j < n && Stored(UploOf(uplo), i, j)
      ensures Computes(nb, t, s, s', i, j) <==>
              s'(MatC, i, j) == Add(Mul(alpha, SyrkSum(trans, s, i, j, k)), Mul(beta, s(MatC, i, j)))
    {
      WholeAt(nb, s, MatC, i, j);
      WholeAt(nb, s', MatC, i, j);
      SyrkSumIs(nb, t, trans, s, i, j, k);
    }
    hide Computes;
  }
}
