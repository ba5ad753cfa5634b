/**
 xkblas_zsymm_async: the loops that emit the tile tasks of
 C := alpha A B + beta C or C := alpha B A + beta C, with A symmetric and only
 one triangle of its tiles read.
 */
module Zsymm {
  import opened Complex
  import opened TileTasks
  import opened Strips
  import opened Products
  import opened Schedules
  import opened Cblas
  import opened BlasReference
  import opened BlasMeaning

  /** The whole-matrix operation. */
  function Whole(side: int, uplo: int, m: nat, n: nat, alpha: Scalar, beta: Scalar): Task {
    Symm(SideOf(side), UploOf(uplo), m, n, alpha, Tile(MatA, 0, 0), Tile(MatB, 0, 0), beta, Tile(MatC, 0, 0))
  }

  /** The task inserted for tile (m, n) and inner tile k. */
  function LeftTask(w: Task, m: nat, n: nat, k: nat, tempmm: nat, tempnn: nat, tempkm: nat, zbeta: Scalar): Task
    requires w.Symm?
  {
    if w.uplo == Lower then
      if k < m then
        Gemm(NoTrans, NoTrans, tempmm, tempnn, tempkm, w.alpha, Tile(MatA, m, k), Tile(MatB, k, n), zbeta,
            Tile(MatC, m, n))
      else if k == m then
        Symm(w.side, w.uplo, tempmm, tempnn, w.alpha, Tile(MatA, k, k), Tile(MatB, k, n), zbeta, Tile(MatC, m, n))
      else
        Gemm(TRANS, NoTrans, tempmm, tempnn, tempkm, w.alpha, Tile(MatA, k, m), Tile(MatB, k, n), zbeta,
            Tile(MatC, m, n))
    else
      if k < m then
        Gemm(TRANS, NoTrans, tempmm, tempnn, tempkm, w.alpha, Tile(MatA, k, m), Tile(MatB, k, n), zbeta,
            Tile(MatC, m, n))
      else if k == m then
        Symm(w.side, w.uplo, tempmm, tempnn, w.alpha, Tile(MatA, k, k), Tile(MatB, k, n), zbeta, Tile(MatC, m, n))
      else
        Gemm(NoTrans, NoTrans, tempmm, tempnn, tempkm, w.alpha, Tile(MatA, m, k), Tile(MatB, k, n), zbeta,
            Tile(MatC, m, n))
  }

  lemma LeftTaskIs(w: Task, nb: nat, m: nat, n: nat, k: nat)
    requires Shaped(w, nb) && w.Symm? && w.side == Left
    ensures TileTask(w, nb, m, n, k) ==
            LeftTask(w, m, n, k, Extent(w.m, nb, m), Extent(w.n, nb, n), Extent(Inner(w), nb, k),
                     if k == 0 then w.beta else ONE)
  {
    hide Extent;
  }

  /** The innermost loop: column n of the tiles of C, for inner tile k. */
  method LeftColumn(w: Task, nb: nat, n: nat, k: nat, tempnn: nat, tempkm: nat, zbeta: Scalar, before: seq<Task>)
    returns (tasks: seq<Task>)
    requires Shaped(w, nb) && w.Symm? && w.side == Left && n < Nt(w, nb) && k < Kt(w, nb)
    requires tempnn == Extent(w.n, nb, n) && tempkm == Extent(w.m, nb, k)
    requires zbeta == if k == 0 then w.beta else ONE
    requires Emitted(w, nb, before, ColumnMajor(0, n), k + 1, k, k)
    ensures Emitted(w, nb, tasks, ColumnMajor(Mt(w, nb), n), k + 1, k, k)
  {
    hide Extent, Emitted, TileTask, LeftTask, Tiles;
    tasks := before;
    var mt := Mt(w, nb);
    for m := 0 to mt
      invariant Emitted(w, nb, tasks, ColumnMajor(m, n), k + 1, k, k)
    {
      var tempmm := if m == mt - 1 then w.m - m * nb else nb;
      Extents(w, nb, m, n, k);
      Emit(w, nb, tasks, ColumnMajor(m, n), k + 1, k, k);
      LeftTaskIs(w, nb, m, n, k);
      tasks := tasks + [LeftTask(w, m, n, k, tempmm, tempnn, tempkm, zbeta)];
      TileDone(w, nb, tasks, ColumnMajor(m, n), k + 1, k);
    }
  }

  method LeftLoops(w: Task, nb: nat) returns (tasks: seq<Task>)
    requires Shaped(w, nb) && w.Symm? && w.side == Left
    ensures Emits(w, nb, tasks)
  {
    tasks := [];
    var mt, nt := Mt(w, nb), Nt(w, nb);
    Start(w, nb, ColumnMajor(0, 0), 0);
    hide Extent, Emits, Emitted, TileTask, LeftTask, RightTask, Tiles;
    for k := 0 to mt
      invariant Emitted(w, nb, tasks, ColumnMajor(0, 0), k, k, k)
    {
      var tempkm := if k == mt - 1 then w.m - k * nb else nb;
      var zbeta := if k == 0 then w.beta else ONE;
      PassStarts(w, nb, tasks, ColumnMajor(0, 0), k + 1, k);
      for n := 0 to nt
        invariant Emitted(w, nb, tasks, ColumnMajor(0, n), k + 1, k, k)
      {
        var tempnn := if n == nt - 1 then w.n - n * nb else nb;
        Extents(w, nb, 0, n, k);
        tasks := LeftColumn(w, nb, n, k, tempnn, tempkm, zbeta, tasks);
        LineEnds(w, nb, tasks, ColumnMajor(mt, n), k + 1, k);
      }
      PassEnds(w, nb, tasks, ColumnMajor(0, nt), ColumnMajor(0, 0), k + 1, k, k);
    }
    Finished(w, nb, tasks, ColumnMajor(0, 0));
  }

  /** The task inserted for tile (m, n) and inner tile k. */
  function RightTask(w: Task, m: nat, n: nat, k: nat, tempmm: nat, tempnn: nat, tempkn: nat, zbeta: Scalar): Task
    requires w.Symm?
  {
    if w.uplo == Lower then
      if k < n then
        Gemm(NoTrans, TRANS, tempmm, tempnn, tempkn, w.alpha, Tile(MatB, m, k), Tile(MatA, n, k), zbeta,
            Tile(MatC, m, n))
      else if k == n then
        Symm(Right, w.uplo, tempmm, tempnn, w.alpha, Tile(MatA, k, k), Tile(MatB, m, k), zbeta, Tile(MatC, m, n))
      else
        Gemm(NoTrans, NoTrans, tempmm, tempnn, tempkn, w.alpha, Tile(MatB, m, k), Tile(MatA, k, n), zbeta,
            Tile(MatC, m, n))
    else
      if k < n then
        Gemm(NoTrans, NoTrans, tempmm, tempnn, tempkn, w.alpha, Tile(MatB, m, k), Tile(MatA, k, n), zbeta,
            Tile(MatC, m, n))
      else if k == n then
        Symm(Right, w.uplo, tempmm, tempnn, w.alpha, Tile(MatA, k, k), Tile(MatB, m, k), zbeta, Tile(MatC, m, n))
      else
        Gemm(NoTrans, TRANS, tempmm, tempnn, tempkn, w.alpha, Tile(MatB, m, k), Tile(MatA, n, k), zbeta,
            Tile(MatC, m, n))
  }

  lemma RightTaskIs(w: Task, nb: nat, m: nat, n: nat, k: nat)
    requires Shaped(w, nb) && w.Symm? && w.side == Right
    ensures TileTask(w, nb, m, n, k) ==
            RightTask(w, m, n, k, Extent(w.m, nb, m), Extent(w.n, nb, n), Extent(Inner(w), nb, k),
                     if k == 0 then w.beta else ONE)
  {
    hide Extent;
  }

  /** The innermost loop: row m of the tiles of C, for inner tile k. */
  method RightRow(w: Task, nb: nat, m: nat, k: nat, tempmm: nat, tempkn: nat, zbeta: Scalar, before: seq<Task>)
    returns (tasks: seq<Task>)
    requires Shaped(w, nb) && w.Symm? && w.side == Right && m < Mt(w, nb) && k < Kt(w, nb)
    requires tempmm == Extent(w.m, nb, m) && tempkn == Extent(w.n, nb, k)
    requires zbeta == if k == 0 then w.beta else ONE
    requires Emitted(w, nb, before, RowMajor(m, 0), k + 1, k, k)
    ensures Emitted(w, nb, tasks, RowMajor(m, Nt(w, nb)), k + 1, k, k)
  {
    hide Extent, Emitted, TileTask, RightTask, Tiles;
    tasks := before;
    var nt := Nt(w, nb);
    for n := 0 to nt
      invariant Emitted(w, nb, tasks, RowMajor(m, n), k + 1, k, k)
    {
      var tempnn := if n == nt - 1 then w.n - n * nb else nb;
      Extents(w, nb, m, n, k);
      Emit(w, nb, tasks, RowMajor(m, n), k + 1, k, k);
      RightTaskIs(w, nb, m, n, k);
      tasks := tasks + [RightTask(w, m, n, k, tempmm, tempnn, tempkn, zbeta)];
      TileDone(w, nb, tasks, RowMajor(m, n), k + 1, k);
    }
  }

  method RightLoops(w: Task, nb: nat) returns (tasks: seq<Task>)
    requires Shaped(w, nb) && w.Symm? && w.side == Right
    ensures Emits(w, nb, tasks)
  {
    tasks := [];
    var mt, nt := Mt(w, nb), Nt(w, nb);
    Start(w, nb, RowMajor(0, 0), 0);
    hide Extent, Emits, Emitted, TileTask, LeftTask, RightTask, Tiles;
    for k := 0 to nt
      invariant Emitted(w, nb, tasks, RowMajor(0, 0), k, k, k)
    {
      var tempkn := if k == nt - 1 then w.n - k * nb else nb;
      var zbeta := if k == 0 then w.beta else ONE;
      PassStarts(w, nb, tasks, RowMajor(0, 0), k + 1, k);
      for m := 0 to mt
        invariant Emitted(w, nb, tasks, RowMajor(m, 0), k + 1, k, k)
      {
        var tempmm := if m == mt - 1 then w.m - m * nb else nb;
        Extents(w, nb, m, 0, k);
        tasks := RightRow(w, nb, m, k, tempmm, tempkn, zbeta, tasks);
        LineEnds(w, nb, tasks, RowMajor(m, nt), k + 1, k);
      }
      PassEnds(w, nb, tasks, RowMajor(mt, 0), RowMajor(0, 0), k + 1, k, k);
    }
    Finished(w, nb, tasks, RowMajor(0, 0));
  }

  /** The product that is computed is the one the caller asks for. */
  lemma InCallersTerms(side: int, uplo: int, m: nat, n: nat, alpha: Scalar, beta: Scalar, nb: nat)
    requires IsSide(side) && IsUplo(uplo)
    ensures forall s, s' :: Kernel(nb, Whole(side, uplo, m, n, alpha, beta), s, s') <==>
                            SymmResult(side, uplo, m, n, alpha, beta, s, s')
  {
    hide Kernel, SymmResult;
    forall s, s'
      ensures Kernel(nb, Whole(side, uplo, m, n, alpha, beta), s, s') <==>
              SymmResult(side, uplo, m, n, alpha, beta, s, s')
    {
      SymmMeans(nb, Whole(side, uplo, m, n, alpha, beta), side, uplo, m, n, alpha, beta, s, s');
    }
  }

  /**
   In every legal schedule the emitted tasks compute alpha A B + beta C (side =
   left) or alpha B A + beta C (side = right), with A read through one triangle.
   */
  method ZsymmAsync(side: Int32, uplo: Int32, m: Int32, n: Int32, alpha: Scalar, lda: Int32, ldb: Int32,
                    beta: Scalar, ldc: Int32, nb: nat) returns (aborted: bool, tasks: seq<Task>)
    requires nb > 0
    ensures !aborted <==>
              && (side == 141 || side == 142) && (uplo == 121 || uplo == 122) && m >= 0 && n >= 0
              && (lda < 0 || (lda >= 1 && lda >= if side == 141 then m else n))
              && (ldb < 0 || (ldb >= 1 && ldb >= m)) && (ldc < 0 || (ldc >= 1 && ldc >= m))
    ensures aborted || m == 0 || n == 0 ==> tasks == []
    ensures !aborted && m > 0 && n > 0 ==>
              forall sched, s, s' :: Legal(tasks, sched) ==>
                (Run(nb, Pick(tasks, sched), s, s') <==> SymmResult(side, uplo, m, n, alpha, beta, s, s'))
  {
    tasks := [];
    if side != CBLAS_LEFT && side != CBLAS_RIGHT { return true, tasks; }
    if uplo != CBLAS_LOWER && uplo != CBLAS_UPPER { return true, tasks; }
    var am: Int32 := if side == CBLAS_LEFT then m else n;
    if m < 0 { return true, tasks; }
    if n < 0 { return true, tasks; }
    LdTest(lda, am);
    if SizeT(lda) < MaxSize(1, SizeT(am)) { return true, tasks; }
    LdTest(ldb, m);
    if SizeT(ldb) < MaxSize(1, SizeT(m)) { return true, tasks; }
    LdTest(ldc, m);
    if SizeT(ldc) < MaxSize(1, SizeT(m)) { return true, tasks; }
    aborted := false;
    if m == 0 || n == 0 { return; }
    var w := Whole(side, uplo, m, n, alpha, beta);
    InCallersTerms(side, uplo, m, n, alpha, beta, nb);
    if alpha == ZERO && beta == ONE {
      NothingToDo(w, nb);
      return;
    }
    if side == CBLAS_LEFT {
      tasks := LeftLoops(w, nb);
    } else {
      tasks := RightLoops(w, nb);
    }
    EmitsImplements(w, nb, tasks);
  }
}
