/**
 xkblas_ztrmm_async: the eight loop nests that emit the tile tasks of an
 in-place triangular product, with the argument checks in front of them.
 */
module Ztrmm {
  import opened Complex
  import opened TileTasks
  import opened Schedules
  import opened Strips
  import opened Triangular
  import opened TrmmProof
  import opened Results
  import opened Cblas
  import opened BlasReference
  import opened BlasMeaning

  // ----- The eight loop nests -----

  /** CblasLeft / CblasUpper / CblasNoTrans */
  method LeftUpperNoTrans(p: Problem) returns (tasks: seq<Task>)
    requires p.Shaped() && p.op == DoMultiply && p.side == Left && p.uplo == Upper && p.trans == NoTrans
    ensures Emits(p, tasks)
  {
    hide Emitted, Emits, Extent, Tiles, Begin;
    Start(p);
    tasks := [];
    var mt, nt, mb := p.T(), p.Q(), p.nb;
    for m := 0 to mt
      invariant Emitted(p, tasks, m, 0, 0, 0, 0)
    {
      var tempmm := if m == mt - 1 then p.rows - m * mb else mb;
      ghost var step := m;
      Aim(p, tasks, step, mt - step, 0);
      for n := 0 to nt
        invariant Emitted(p, tasks, step, n, mt - step, 0, 0)
      {
        var tempnn := if n == nt - 1 then p.cols - n * mb else mb;
        Extents(p, m, n);
        Emit(p, tasks, step, n, mt - step, 0, 0);
        tasks := tasks + [Trmm(p.side, p.uplo, p.trans, p.diag, tempmm, tempnn,
                               p.alpha, Tile(MatA, m, m),
                                        Tile(MatB, m, n))];
        for k := m + 1 to mt
          invariant Emitted(p, tasks, step, n, mt - step, k - m, 0)
        {
          var tempk := if k == mt - 1 then p.rows - k * mb else mb;
          Extents(p, k, n);
          Emit(p, tasks, step, n, mt - step, k - m, 0);
          tasks := tasks + [Gemm(p.trans, NoTrans, tempmm, tempnn, tempk,
                                 p.alpha, Tile(MatA, m, k),
                                          Tile(MatB, k, n),
                                 ONE,     Tile(MatB, m, n))];
        }
        NextStrip(p, tasks, step, n, mt - step, 0);
      }
      Rewind(p, tasks, step, nt, mt - step, 0, 0);
      NextStep(p, tasks, step);
    }
    Finished(p, tasks);
  }

  /** CblasLeft / CblasUpper / Cblas[Conj]Trans */
  method LeftUpperTrans(p: Problem) returns (tasks: seq<Task>)
    requires p.Shaped() && p.op == DoMultiply && p.side == Left && p.uplo == Upper && p.trans != NoTrans
    ensures Emits(p, tasks)
  {
    hide Emitted, Emits, Extent, Tiles, Begin;
    Start(p);
    tasks := [];
    var mt, nt, mb := p.T(), p.Q(), p.nb;
    for m := mt downto 0
      invariant Emitted(p, tasks, mt - m, 0, 0, 0, 0)
    {
      var tempmm := if m == mt - 1 then p.rows - m * mb else mb;
      ghost var step := mt - 1 - m;
      Aim(p, tasks, step, mt - step, 0);
      for n := 0 to nt
        invariant Emitted(p, tasks, step, n, mt - step, 0, 0)
      {
        var tempnn := if n == nt - 1 then p.cols - n * mb else mb;
        Extents(p, m, n);
        Emit(p, tasks, step, n, mt - step, 0, 0);
        tasks := tasks + [Trmm(p.side, p.uplo, p.trans, p.diag, tempmm, tempnn,
                               p.alpha, Tile(MatA, m, m),
                                        Tile(MatB, m, n))];
        for k := 0 to m
          invariant Emitted(p, tasks, step, n, mt - step, k + 1, 0)
        {
          Extents(p, k, n);
          Emit(p, tasks, step, n, mt - step, k + 1, 0);
          tasks := tasks + [Gemm(p.trans, NoTrans, tempmm, tempnn, mb,
                                 p.alpha, Tile(MatA, k, m),
                                          Tile(MatB, k, n),
                                 ONE,     Tile(MatB, m, n))];
        }
        NextStrip(p, tasks, step, n, mt - step, 0);
      }
      Rewind(p, tasks, step, nt, mt - step, 0, 0);
      NextStep(p, tasks, step);
    }
    Finished(p, tasks);
  }

  /** CblasLeft / CblasLower / CblasNoTrans */
  method LeftLowerNoTrans(p: Problem) returns (tasks: seq<Task>)
    requires p.Shaped() && p.op == DoMultiply && p.side == Left && p.uplo == Lower && p.trans == NoTrans
    ensures Emits(p, tasks)
  {
    hide Emitted, Emits, Extent, Tiles, Begin;
    Start(p);
    tasks := [];
    var mt, nt, mb := p.T(), p.Q(), p.nb;
    for m := mt downto 0
      invariant Emitted(p, tasks, mt - m, 0, 0, 0, 0)
    {
      var tempmm := if m == mt - 1 then p.rows - m * mb else mb;
      ghost var step := mt - 1 - m;
      assert p.Block(step) == m;
      Aim(p, tasks, step, mt - step, 0);
      for n := 0 to nt
        invariant Emitted(p, tasks, step, n, mt - step, 0, 0)
      {
        var tempnn := if n == nt - 1 then p.cols - n * mb else mb;
        Extents(p, m, n);
        Emit(p, tasks, step, n, mt - step, 0, 0);
        tasks := tasks + [Trmm(p.side, p.uplo, p.trans, p.diag, tempmm, tempnn,
                               p.alpha, Tile(MatA, m, m),
                                        Tile(MatB, m, n))];
        for k := 0 to m
          invariant Emitted(p, tasks, step, n, mt - step, k + 1, 0)
        {
          Extents(p, k, n);
          Emit(p, tasks, step, n, mt - step, k + 1, 0);
          tasks := tasks + [Gemm(p.trans, NoTrans, tempmm, tempnn, mb,
                                 p.alpha, Tile(MatA, m, k),
                                          Tile(MatB, k, n),
                                 ONE,     Tile(MatB, m, n))];
        }
        NextStrip(p, tasks, step, n, mt - step, 0);
      }
      Rewind(p, tasks, step, nt, mt - step, 0, 0);
      NextStep(p, tasks, step);
    }
    Finished(p, tasks);
  }

  /** CblasLeft / CblasLower / Cblas[Conj]Trans */
  method LeftLowerTrans(p: Problem) returns (tasks: seq<Task>)
    requires p.Shaped() && p.op == DoMultiply && p.side == Left && p.uplo == Lower && p.trans != NoTrans
    ensures Emits(p, tasks)
  {
    hide Emitted, Emits, Extent, Tiles, Begin;
    Start(p);
    tasks := [];
    var mt, nt, mb := p.T(), p.Q(), p.nb;
    for m := 0 to mt
      invariant Emitted(p, tasks, m, 0, 0, 0, 0)
    {
      var tempmm := if m == mt - 1 then p.rows - m * mb else mb;
      ghost var step := m;
      Aim(p, tasks, step, mt - step, 0);
      for n := 0 to nt
        invariant Emitted(p, tasks, step, n, mt - step, 0, 0)
      {
        var tempnn := if n == nt - 1 then p.cols - n * mb else mb;
        Extents(p, m, n);
        Emit(p, tasks, step, n, mt - step, 0, 0);
        tasks := tasks + [Trmm(p.side, p.uplo, p.trans, p.diag, tempmm, tempnn,
                               p.alpha, Tile(MatA, m, m),
                                        Tile(MatB, m, n))];
        for k := m + 1 to mt
          invariant Emitted(p, tasks, step, n, mt - step, k - m, 0)
        {
          var tempk := if k == mt - 1 then p.rows - k * mb else mb;
          Extents(p, k, n);
          Emit(p, tasks, step, n, mt - step, k - m, 0);
          tasks := tasks + [Gemm(p.trans, NoTrans, tempmm, tempnn, tempk,
                                 p.alpha, Tile(MatA, k, m),
                                          Tile(MatB, k, n),
                                 ONE,     Tile(MatB, m, n))];
        }
        NextStrip(p, tasks, step, n, mt - step, 0);
      }
      Rewind(p, tasks, step, nt, mt - step, 0, 0);
      NextStep(p, tasks, step);
    }
    Finished(p, tasks);
  }

  /** CblasRight / CblasUpper / CblasNoTrans */
  method RightUpperNoTrans(p: Problem) returns (tasks: seq<Task>)
    requires p.Shaped() && p.op == DoMultiply && p.side == Right && p.uplo == Upper && p.trans == NoTrans
    ensures Emits(p, tasks)
  {
    hide Emitted, Emits, Extent, Tiles, Begin;
    Start(p);
    tasks := [];
    var nt, mt, mb := p.T(), p.Q(), p.nb;
    for n := nt downto 0
      invariant Emitted(p, tasks, nt - n, 0, 0, 0, 0)
    {
      var tempnn := if n == nt - 1 then p.cols - n * mb else mb;
      ghost var step := nt - 1 - n;
      Aim(p, tasks, step, nt - step, 0);
      for m := 0 to mt
        invariant Emitted(p, tasks, step, m, nt - step, 0, 0)
      {
        var tempmm := if m == mt - 1 then p.rows - m * mb else mb;
        Extents(p, n, m);
        Emit(p, tasks, step, m, nt - step, 0, 0);
        tasks := tasks + [Trmm(p.side, p.uplo, p.trans, p.diag, tempmm, tempnn,
                               p.alpha, Tile(MatA, n, n),
                                        Tile(MatB, m, n))];
        for k := 0 to n
          invariant Emitted(p, tasks, step, m, nt - step, k + 1, 0)
        {
          Extents(p, k, m);
          Emit(p, tasks, step, m, nt - step, k + 1, 0);
          tasks := tasks + [Gemm(NoTrans, p.trans, tempmm, tempnn, mb,
                                 p.alpha, Tile(MatB, m, k),
                                          Tile(MatA, k, n),
                                 ONE,     Tile(MatB, m, n))];
        }
        NextStrip(p, tasks, step, m, nt - step, 0);
      }
      Rewind(p, tasks, step, mt, nt - step, 0, 0);
      NextStep(p, tasks, step);
    }
    Finished(p, tasks);
  }

  /** CblasRight / CblasUpper / Cblas[Conj]Trans */
  method RightUpperTrans(p: Problem) returns (tasks: seq<Task>)
    requires p.Shaped() && p.op == DoMultiply && p.side == Right && p.uplo == Upper && p.trans != NoTrans
    ensures Emits(p, tasks)
  {
    hide Emitted, Emits, Extent, Tiles, Begin;
    Start(p);
    tasks := [];
    var nt, mt, mb := p.T(), p.Q(), p.nb;
    for n := 0 to nt
      invariant Emitted(p, tasks, n, 0, 0, 0, 0)
    {
      var tempnn := if n == nt - 1 then p.cols - n * mb else mb;
      ghost var step := n;
      Aim(p, tasks, step, nt - step, 0);
      for m := 0 to mt
        invariant Emitted(p, tasks, step, m, nt - step, 0, 0)
      {
        var tempmm := if m == mt - 1 then p.rows - m * mb else mb;
        Extents(p, n, m);
        Emit(p, tasks, step, m, nt - step, 0, 0);
        tasks := tasks + [Trmm(p.side, p.uplo, p.trans, p.diag, tempmm, tempnn,
                               p.alpha, Tile(MatA, n, n),
                                        Tile(MatB, m, n))];
        for k := n + 1 to nt
          invariant Emitted(p, tasks, step, m, nt - step, k - n, 0)
        {
          var tempk := if k == nt - 1 then p.cols - k * mb else mb;
          Extents(p, k, m);
          Emit(p, tasks, step, m, nt - step, k - n, 0);
          tasks := tasks + [Gemm(NoTrans, p.trans, tempmm, tempnn, tempk,
                                 p.alpha, Tile(MatB, m, k),
                                          Tile(MatA, n, k),
                                 ONE,     Tile(MatB, m, n))];
        }
        NextStrip(p, tasks, step, m, nt - step, 0);
      }
      Rewind(p, tasks, step, mt, nt - step, 0, 0);
      NextStep(p, tasks, step);
    }
    Finished(p, tasks);
  }

  /** CblasRight / CblasLower / CblasNoTrans */
  method RightLowerNoTrans(p: Problem) returns (tasks: seq<Task>)
    requires p.Shaped() && p.op == DoMultiply && p.side == Right && p.uplo == Lower && p.trans == NoTrans
    ensures Emits(p, tasks)
  {
    hide Emitted, Emits, Extent, Tiles, Begin;
    Start(p);
    tasks := [];
    var nt, mt, mb := p.T(), p.Q(), p.nb;
    for n := 0 to nt
      invariant Emitted(p, tasks, n, 0, 0, 0, 0)
    {
      var tempnn := if n == nt - 1 then p.cols - n * mb else mb;
      ghost var step := n;
      Aim(p, tasks, step, nt - step, 0);
      for m := 0 to mt
        invariant Emitted(p, tasks, step, m, nt - step, 0, 0)
      {
        var tempmm := if m == mt - 1 then p.rows - m * mb else mb;
        Extents(p, n, m);
        Emit(p, tasks, step, m, nt - step, 0, 0);
        tasks := tasks + [Trmm(p.side, p.uplo, p.trans, p.diag, tempmm, tempnn,
                               p.alpha, Tile(MatA, n, n),
                                        Tile(MatB, m, n))];
        for k := n + 1 to nt
          invariant Emitted(p, tasks, step, m, nt - step, k - n, 0)
        {
          var tempk := if k == nt - 1 then p.cols - k * mb else mb;
          Extents(p, k, m);
          Emit(p, tasks, step, m, nt - step, k - n, 0);
          tasks := tasks + [Gemm(NoTrans, p.trans, tempmm, tempnn, tempk,
                                 p.alpha, Tile(MatB, m, k),
                                          Tile(MatA, k, n),
                                 ONE,     Tile(MatB, m, n))];
        }
        NextStrip(p, tasks, step, m, nt - step, 0);
      }
      Rewind(p, tasks, step, mt, nt - step, 0, 0);
      NextStep(p, tasks, step);
    }
    Finished(p, tasks);
  }

  /** CblasRight / CblasLower / Cblas[Conj]Trans */
  method RightLowerTrans(p: Problem) returns (tasks: seq<Task>)
    requires p.Shaped() && p.op == DoMultiply && p.side == Right && p.uplo == Lower && p.trans != NoTrans
    ensures Emits(p, tasks)
  {
    hide Emitted, Emits, Extent, Tiles, Begin;
    Start(p);
    tasks := [];
    var nt, mt, mb := p.T(), p.Q(), p.nb;
    for n := nt downto 0
      invariant Emitted(p, tasks, nt - n, 0, 0, 0, 0)
    {
      var tempnn := if n == nt - 1 then p.cols - n * mb else mb;
      ghost var step := nt - 1 - n;
      Aim(p, tasks, step, nt - step, 0);
      for m := 0 to mt
        invariant Emitted(p, tasks, step, m, nt - step, 0, 0)
      {
        var tempmm := if m == mt - 1 then p.rows - m * mb else mb;
        Extents(p, n, m);
        Emit(p, tasks, step, m, nt - step, 0, 0);
        tasks := tasks + [Trmm(p.side, p.uplo, p.trans, p.diag, tempmm, tempnn,
                               p.alpha, Tile(MatA, n, n),
                                        Tile(MatB, m, n))];
        for k := 0 to n
          invariant Emitted(p, tasks, step, m, nt - step, k + 1, 0)
        {
          Extents(p, k, m);
          Emit(p, tasks, step, m, nt - step, k + 1, 0);
          tasks := tasks + [Gemm(NoTrans, p.trans, tempmm, tempnn, mb,
                                 p.alpha, Tile(MatB, m, k),
                                          Tile(MatA, n, k),
                                 ONE,     Tile(MatB, m, n))];
        }
        NextStrip(p, tasks, step, m, nt - step, 0);
      }
      Rewind(p, tasks, step, mt, nt - step, 0, 0);
      NextStep(p, tasks, step);
    }
    Finished(p, tasks);
  }

  // ----- The entry point -----

  function ProblemOf(side: int, uplo: int, transA: int, diag: int, n: nat, nrhs: nat, alpha: Scalar, nb: nat): Problem {
    Problem(DoMultiply, SideOf(side), UploOf(uplo), TransOf(transA), DiagOf(diag), n, nrhs, alpha, ZERO, nb)
  }

  /**
   The emitted tasks, run in program order or in any legal schedule, overwrite
   B by alpha op(A) B (side = left) or alpha B op(A) (side = right).
   */
  method ZtrmmAsync(side: Int32, uplo: Int32, transA: Int32, diag: Int32, n: Int32, nrhs: Int32, alpha: Scalar,
                    lda: Int32, ldb: Int32, nb: nat) returns (aborted: bool, tasks: seq<Task>)
    requires nb > 0
    ensures !aborted <==>
              && (side == 141 || side == 142) && (uplo == 121 || uplo == 122) && 111 <= transA <= 113
              && (diag == 131 || diag == 132) && n >= 0 && nrhs >= 0
              && (lda < 0 || (lda >= 1 && lda >= if side == 141 then n else nrhs))
              && (ldb < 0 || (ldb >= 1 && ldb >= n))
    ensures aborted || n == 0 || nrhs == 0 ==> tasks == []
    ensures !aborted && n > 0 && nrhs > 0 ==>
              forall sched, s, s' :: Legal(tasks, sched) ==>
                (Run(nb, Pick(tasks, sched), s, s') <==>
                 TrmmResult(side, uplo, transA, diag, n, nrhs, alpha, s, s'))
  {
    tasks := [];
    var na: Int32 := if side == CBLAS_LEFT then n else nrhs;
    if side != CBLAS_LEFT && side != CBLAS_RIGHT { return true, tasks; }
    if uplo != CBLAS_UPPER && uplo != CBLAS_LOWER { return true, tasks; }
    if transA != CBLAS_CONJ_TRANS && transA != CBLAS_NO_TRANS && transA != CBLAS_TRANS { return true, tasks; }
    if diag != CBLAS_UNIT && diag != CBLAS_NON_UNIT { return true, tasks; }
    if n < 0 { return true, tasks; }
    if nrhs < 0 { return true, tasks; }
    LdTest(lda, na);
    if SizeT(lda) < MaxSize(1, SizeT(na)) { return true, tasks; }
    LdTest(ldb, n);
    if SizeT(ldb) < MaxSize(1, SizeT(n)) { return true, tasks; }
    aborted := false;
    if n == 0 || nrhs == 0 { return; }

    var p := ProblemOf(side, uplo, transA, diag, n, nrhs, alpha, nb);
    if side == CBLAS_LEFT {
      if uplo == CBLAS_UPPER {
        if transA == CBLAS_NO_TRANS { tasks := LeftUpperNoTrans(p); } else { tasks := LeftUpperTrans(p); }
      } else {
        if transA == CBLAS_NO_TRANS { tasks := LeftLowerNoTrans(p); } else { tasks := LeftLowerTrans(p); }
      }
    } else {
      if uplo == CBLAS_UPPER {
        if transA == CBLAS_NO_TRANS { tasks := RightUpperNoTrans(p); } else { tasks := RightUpperTrans(p); }
      } else {
        if transA == CBLAS_NO_TRANS { tasks := RightLowerNoTrans(p); } else { tasks := RightLowerTrans(p); }
      }
    }
    AnySchedule(p, tasks);
    hide *;
    forall sched, s, s' | Legal(tasks, sched)
      ensures Run(nb, Pick(tasks, sched), s, s') <==>
              TrmmResult(side, uplo, transA, diag, n, nrhs, alpha, s, s')
    {
      InCallersTerms(side, uplo, transA, diag, n, nrhs, alpha, nb, s, s');
    }
  }

  /** The product that is computed is the one the caller asks for. */
  lemma InCallersTerms(side: int, uplo: int, transA: int, diag: int, n: nat, nrhs: nat, alpha: Scalar, nb: nat,
                       s: Store, s': Store)
    requires IsSide(side) && IsUplo(uplo) && IsTrans(transA) && IsDiag(diag)
    ensures var p := ProblemOf(side, uplo, transA, diag, n, nrhs, alpha, nb);
            && p.nb == nb
            && (Kernel(nb, p.Whole(), s, s') <==> TrmmResult(side, uplo, transA, diag, n, nrhs, alpha, s, s'))
  {
    hide Kernel, TrmmResult;
    var p := ProblemOf(side, uplo, transA, diag, n, nrhs, alpha, nb);
    TrmmMeans(nb, p.Whole(), side, uplo, transA, diag, n, nrhs, alpha, s, s');
  }

  lemma AnySchedule(p: Problem, tasks: seq<Task>)
    requires p.Shaped() && p.op == DoMultiply && Emits(p, tasks)
    ensures forall sched, s, s' :: Legal(tasks, sched) ==>
              (Run(p.nb, Pick(tasks, sched), s, s') <==> Kernel(p.nb, p.Whole(), s, s'))
  {
    forall sched, s, s' | Legal(tasks, sched)
      ensures Run(p.nb, Pick(tasks, sched), s, s') <==> Kernel(p.nb, p.Whole(), s, s')
    {
      LegalScheduleEquivalent(p.nb, tasks, sched, s, s');
      assert forall t :: t in tasks ==> Anchored(p, t);
      hide Run, Step, Pick, Legal, Emits;
      forall r | Run(p.nb, tasks, s, r)
        ensures Kernel(p.nb, p.Whole(), s, r)
      {
        TiledProduct(p, tasks, s, r);
      }
      Equivalent(p.nb, tasks, p.Whole(), s, s');
    }
  }
}
