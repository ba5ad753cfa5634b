/**
 xkblas_zgemm_async: the loops that emit the tile tasks of
 C := alpha op(A) op(B) + beta C.
 */
module Zgemm {
  import opened Complex
  import opened TileTasks
  import opened Strips
  import opened Products
  import opened Schedules
  import opened Cblas
  import opened BlasReference
  import opened BlasMeaning

  /** The whole-matrix operation. */
  function Whole(transA: int, transB: int, m: nat, n: nat, k: nat, alpha: Scalar, beta: Scalar): Task {
    Gemm(TransOf(transA), TransOf(transB), m, n, k, alpha, Tile(MatA, 0, 0), Tile(MatB, 0, 0), beta, Tile(MatC, 0, 0))
  }

  /** The tasks of one tile of C: one of four inner loops, by the two transpositions. */
  method TileLoop(w: Task, nb: nat, m: nat, n: nat, tempmm: nat, tempnn: nat, before: seq<Task>)
    returns (tasks: seq<Task>)
    requires Shaped(w, nb) && w.Gemm? && Active(w, nb, m, n)
    requires tempmm == Extent(Rows(w), nb, m) && tempnn == Extent(w.n, nb, n)
    requires Emitted(w, nb, before, RowMajor(m, n), Kt(w, nb), 0, 0)
    ensures Emitted(w, nb, tasks, RowMajor(m, n), Kt(w, nb), Kt(w, nb), 0)
  {
    hide Emitted, Extent, Active, Tiles;
    tasks := before;
    var kt := Kt(w, nb);
    if w.transA == NoTrans {
      if w.transB == NoTrans {
        for k := 0 to kt
          invariant Emitted(w, nb, tasks, RowMajor(m, n), kt, k, 0)
        {
          var tempkn := if k == kt - 1 then w.k - k * nb else nb;
          var zbeta := if k == 0 then w.beta else ONE;
          Extents(w, nb, m, n, k);
          Emit(w, nb, tasks, RowMajor(m, n), kt, k, 0);
          tasks := tasks + [Gemm(w.transA, w.transB, tempmm, tempnn, tempkn,
                                 w.alpha, Tile(MatA, m, k), Tile(MatB, k, n), zbeta, Tile(MatC, m, n))];
        }
      } else {
        for k := 0 to kt
          invariant Emitted(w, nb, tasks, RowMajor(m, n), kt, k, 0)
        {
          var tempkn := if k == kt - 1 then w.k - k * nb else nb;
          var zbeta := if k == 0 then w.beta else ONE;
          Extents(w, nb, m, n, k);
          Emit(w, nb, tasks, RowMajor(m, n), kt, k, 0);
          tasks := tasks + [Gemm(w.transA, w.transB, tempmm, tempnn, tempkn,
                                 w.alpha, Tile(MatA, m, k), Tile(MatB, n, k), zbeta, Tile(MatC, m, n))];
        }
      }
    } else {
      if w.transB == NoTrans {
        for k := 0 to kt
          invariant Emitted(w, nb, tasks, RowMajor(m, n), kt, k, 0)
        {
          var tempkm := if k == kt - 1 then w.k - k * nb else nb;
          var zbeta := if k == 0 then w.beta else ONE;
          Extents(w, nb, m, n, k);
          Emit(w, nb, tasks, RowMajor(m, n), kt, k, 0);
          tasks := tasks + [Gemm(w.transA, w.transB, tempmm, tempnn, tempkm,
                                 w.alpha, Tile(MatA, k, m), Tile(MatB, k, n), zbeta, Tile(MatC, m, n))];
        }
      } else {
        for k := 0 to kt
          invariant Emitted(w, nb, tasks, RowMajor(m, n), kt, k, 0)
        {
          var tempkm := if k == kt - 1 then w.k - k * nb else nb;
          var zbeta := if k == 0 then w.beta else ONE;
          Extents(w, nb, m, n, k);
          Emit(w, nb, tasks, RowMajor(m, n), kt, k, 0);
          tasks := tasks + [Gemm(w.transA, w.transB, tempmm, tempnn, tempkm,
                                 w.alpha, Tile(MatA, k, m), Tile(MatB, n, k), zbeta, Tile(MatC, m, n))];
        }
      }
    }
  }

  method Loops(w: Task, nb: nat) returns (tasks: seq<Task>)
    requires Shaped(w, nb) && w.Gemm?
    ensures Emits(w, nb, tasks)
    ensures w.k == 0 ==> tasks == []
  {
    tasks := [];
    var mt, nt, kt := Mt(w, nb), Nt(w, nb), Kt(w, nb);
    Start(w, nb, RowMajor(0, 0), kt);
    hide Extent, Emits, Emitted, Tiles;
    for m := 0 to mt
      invariant Emitted(w, nb, tasks, RowMajor(m, 0), kt, 0, 0)
    {
      var tempmm := if m == mt - 1 then w.m - m * nb else nb;
      for n := 0 to nt
        invariant Emitted(w, nb, tasks, RowMajor(m, n), kt, 0, 0)
      {
        var tempnn := if n == nt - 1 then w.n - n * nb else nb;
        Extents(w, nb, m, n, 0);
        tasks := TileLoop(w, nb, m, n, tempmm, tempnn, tasks);
        TileDone(w, nb, tasks, RowMajor(m, n), kt, 0);
      }
      LineEnds(w, nb, tasks, RowMajor(m, nt), kt, 0);
    }
    PassEnds(w, nb, tasks, RowMajor(mt, 0), RowMajor(0, 0), kt, 0, 0);
    Finished(w, nb, tasks, RowMajor(0, 0));
  }

  /** The product that is computed is the one the caller asks for. */
  lemma InCallersTerms(transA: int, transB: int, m: nat, n: nat, k: nat, alpha: Scalar, beta: Scalar, nb: nat)
    requires IsTrans(transA) && IsTrans(transB)
    ensures forall s, s' :: Kernel(nb, Whole(transA, transB, m, n, k, alpha, beta), s, s') <==>
                            GemmResult(transA, transB, m, n, k, alpha, beta, s, s')
  {
    hide Kernel, GemmResult;
    forall s, s'
      ensures Kernel(nb, Whole(transA, transB, m, n, k, alpha, beta), s, s') <==>
              GemmResult(transA, transB, m, n, k, alpha, beta, s, s')
    {
      GemmMeans(nb, Whole(transA, transB, m, n, k, alpha, beta), transA, transB, m, n, k, alpha, beta, s, s');
    }
  }

  /**
   In every legal schedule the emitted tasks compute alpha op(A) op(B) + beta C,
   exactly when the inner dimension is not empty or there is nothing to scale.
   */
  method ZgemmAsync(transA: Int32, transB: Int32, m: Int32, n: Int32, k: Int32, alpha: Scalar, lda: Int32, ldb: Int32,
                    beta: Scalar, ldc: Int32, nb: nat) returns (aborted: bool, tasks: seq<Task>)
    requires nb > 0
    ensures !aborted <==>
              && 111 <= transA <= 113 && 111 <= transB <= 113 && m >= 0 && n >= 0 && k >= 0
              && (lda < 0 || (lda >= 1 && lda >= if transA == 111 then m else k))
              && (ldb < 0 || (ldb >= 1 && ldb >= if transB == 111 then k else n))
              && (ldc < 0 || (ldc >= 1 && ldc >= m))
    ensures aborted || m == 0 || n == 0 ==> tasks == []
    ensures !aborted && m > 0 && n > 0 ==>
              ((forall sched, s, s' :: Legal(tasks, sched) ==>
                  (Run(nb, Pick(tasks, sched), s, s') <==>
                   GemmResult(transA, transB, m, n, k, alpha, beta, s, s'))) <==>
               k > 0 || beta == ONE)
  {
    tasks := [];
    if transA < CBLAS_NO_TRANS || transA > CBLAS_CONJ_TRANS { return true, tasks; }
    if transB < CBLAS_NO_TRANS || transB > CBLAS_CONJ_TRANS { return true, tasks; }
    var am: Int32 := if transA == CBLAS_NO_TRANS then m else k;
    var bm: Int32 := if transB == CBLAS_NO_TRANS then k else n;
    if m < 0 { return true, tasks; }
    if n < 0 { return true, tasks; }
    if k < 0 { return true, tasks; }
    LdTest(lda, am);
    if SizeT(lda) < MaxSize(1, SizeT(am)) { return true, tasks; }
    LdTest(ldb, bm);
    if SizeT(ldb) < MaxSize(1, SizeT(bm)) { return true, tasks; }
    LdTest(ldc, m);
    if SizeT(ldc) < MaxSize(1, SizeT(m)) { return true, tasks; }
    aborted := false;
    if m == 0 || n == 0 { return; }
    var w := Whole(transA, transB, m, n, k, alpha, beta);
    InCallersTerms(transA, transB, m, n, k, alpha, beta, nb);
    if (alpha == ZERO || k == 0) && beta == ONE {
      NothingToDo(w, nb);
      return;
    }
    tasks := Loops(w, nb);
    if k > 0 {
      EmitsImplements(w, nb, tasks);
    } else {
      NotScaled(w, nb);
    }
  }
}
