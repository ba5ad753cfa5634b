/**
 xkblas_ztrsm_async: the eight loop nests that emit the tile tasks of a
 triangular solve, with the argument checks in front of them.
 */
module Ztrsm {
  import opened Complex
  import opened TileTasks
  import opened Schedules
  import opened Strips
  import opened Triangular
  import opened TrsmProof
  import opened SolveExact
  import opened ZeroSolve
  import opened Cblas
  import opened BlasReference
  import opened BlasMeaning

  // ----- The eight loop nests -----

  /** CblasLeft / CblasUpper / CblasNoTrans */
  method LeftUpperNoTrans(p: Problem) returns (tasks: seq<Task>)
    requires p.Shaped() && p.op == DoSolve && p.side == Left && p.uplo == Upper && p.trans == NoTrans
    ensures Emits(p, tasks)
  {
    hide Emitted, Emits, Extent, Tiles, Begin;
    Start(p);
    tasks := [];
    var mt, nt, mb := p.T(), p.Q(), p.nb;
    for k := 0 to mt
      invariant Emitted(p, tasks, k, 0, 0, 0, 0)
    {
      var tempkm := if k == 0 then p.rows - (mt - 1) * mb else mb;
      var lalpha := if k == 0 then p.alpha else ONE;
      Aim(p, tasks, k, 1, 0);
      for n := 0 to nt
        invariant Emitted(p, tasks, k, n, 1, 0, 0)
      {
        var tempnn := if n == nt - 1 then p.cols - n * mb else mb;
        Extents(p, p.Block(k), n);
        Emit(p, tasks, k, n, 1, 0, 0);
        tasks := tasks + [Trsm(p.side, p.uplo, p.trans, p.diag, tempkm, tempnn,
                               lalpha, Tile(MatA, mt - 1 - k, mt - 1 - k),
                                       Tile(MatB, mt - 1 - k, n))];
        NextStrip(p, tasks, k, n, 1, 0);
      }
      Rewind(p, tasks, k, nt, 1, 0, 0);
      for m := k + 1 to mt
        invariant Emitted(p, tasks, k, 0, m - k, m - k, m - k)
      {
        Aim(p, tasks, k, m - k + 1, m - k);
        for n := 0 to nt
          invariant Emitted(p, tasks, k, n, m - k + 1, m - k, m - k)
        {
          var tempnn := if n == nt - 1 then p.cols - n * mb else mb;
          Extents(p, p.Block(k), n);
          Extents(p, p.Block(m), n);
          Emit(p, tasks, k, n, m - k + 1, m - k, m - k);
          tasks := tasks + [Gemm(NoTrans, NoTrans, mb, tempnn, tempkm,
                                 MINUS_ONE, Tile(MatA, mt - 1 - m, mt - 1 - k),
                                            Tile(MatB, mt - 1 - k, n),
                                 lalpha,    Tile(MatB, mt - 1 - m, n))];
          NextStrip(p, tasks, k, n, m - k + 1, m - k);
        }
        Rewind(p, tasks, k, nt, m - k + 1, m - k, m - k);
      }
      NextStep(p, tasks, k);
    }
    Finished(p, tasks);
  }

  /** CblasLeft / CblasUpper / Cblas[Conj]Trans */
  method LeftUpperTrans(p: Problem) returns (tasks: seq<Task>)
    requires p.Shaped() && p.op == DoSolve && p.side == Left && p.uplo == Upper && p.trans != NoTrans
    ensures Emits(p, tasks)
  {
    hide Emitted, Emits, Extent, Tiles, Begin;
    Start(p);
    tasks := [];
    var mt, nt, mb := p.T(), p.Q(), p.nb;
    for k := 0 to mt
      invariant Emitted(p, tasks, k, 0, 0, 0, 0)
    {
      var tempkm := if k == mt - 1 then p.rows - k * mb else mb;
      var lalpha := if k == 0 then p.alpha else ONE;
      Aim(p, tasks, k, 1, 0);
      for n := 0 to nt
        invariant Emitted(p, tasks, k, n, 1, 0, 0)
      {
        var tempnn := if n == nt - 1 then p.cols - n * mb else mb;
        Extents(p, p.Block(k), n);
        Emit(p, tasks, k, n, 1, 0, 0);
        tasks := tasks + [Trsm(p.side, p.uplo, p.trans, p.diag, tempkm, tempnn,
                               lalpha, Tile(MatA, k, k),
                                       Tile(MatB, k, n))];
        NextStrip(p, tasks, k, n, 1, 0);
      }
      Rewind(p, tasks, k, nt, 1, 0, 0);
      for m := k + 1 to mt
        invariant Emitted(p, tasks, k, 0, m - k, m - k, m - k)
      {
        var tempmm := if m == mt - 1 then p.rows - m * mb else mb;
        Aim(p, tasks, k, m - k + 1, m - k);
        for n := 0 to nt
          invariant Emitted(p, tasks, k, n, m - k + 1, m - k, m - k)
        {
          var tempnn := if n == nt - 1 then p.cols - n * mb else mb;
          Extents(p, p.Block(k), n);
          Extents(p, p.Block(m), n);
          Emit(p, tasks, k, n, m - k + 1, m - k, m - k);
          tasks := tasks + [Gemm(p.trans, NoTrans, tempmm, tempnn, mb,
                                 MINUS_ONE, Tile(MatA, k, m),
                                            Tile(MatB, k, n),
                                 lalpha,    Tile(MatB, m, n))];
          NextStrip(p, tasks, k, n, m - k + 1, m - k);
        }
        Rewind(p, tasks, k, nt, m - k + 1, m - k, m - k);
      }
      NextStep(p, tasks, k);
    }
    Finished(p, tasks);
  }

  /** CblasLeft / CblasLower / CblasNoTrans */
  method LeftLowerNoTrans(p: Problem) returns (tasks: seq<Task>)
    requires p.Shaped() && p.op == DoSolve && p.side == Left && p.uplo == Lower && p.trans == NoTrans
    ensures Emits(p, tasks)
  {
    hide Emitted, Emits, Extent, Tiles, Begin;
    Start(p);
    tasks := [];
    var mt, nt, mb := p.T(), p.Q(), p.nb;
    for k := 0 to mt
      invariant Emitted(p, tasks, k, 0, 0, 0, 0)
    {
      var tempkm := if k == mt - 1 then p.rows - k * mb else mb;
      var lalpha := if k == 0 then p.alpha else ONE;
      Aim(p, tasks, k, 1, 0);
      for n := 0 to nt
        invariant Emitted(p, tasks, k, n, 1, 0, 0)
      {
        var tempnn := if n == nt - 1 then p.cols - n * mb else mb;
        Extents(p, p.Block(k), n);
        Emit(p, tasks, k, n, 1, 0, 0);
        tasks := tasks + [Trsm(p.side, p.uplo, p.trans, p.diag, tempkm, tempnn,
                               lalpha, Tile(MatA, k, k),
                                       Tile(MatB, k, n))];
        NextStrip(p, tasks, k, n, 1, 0);
      }
      Rewind(p, tasks, k, nt, 1, 0, 0);
      for m := k + 1 to mt
        invariant Emitted(p, tasks, k, 0, m - k, m - k, m - k)
      {
        var tempmm := if m == mt - 1 then p.rows - m * mb else mb;
        Aim(p, tasks, k, m - k + 1, m - k);
        for n := 0 to nt
          invariant Emitted(p, tasks, k, n, m - k + 1, m - k, m - k)
        {
          var tempnn := if n == nt - 1 then p.cols - n * mb else mb;
          Extents(p, p.Block(k), n);
          Extents(p, p.Block(m), n);
          Emit(p, tasks, k, n, m - k + 1, m - k, m - k);
          tasks := tasks + [Gemm(NoTrans, NoTrans, tempmm, tempnn, mb,
                                 MINUS_ONE, Tile(MatA, m, k),
                                            Tile(MatB, k, n),
                                 lalpha,    Tile(MatB, m, n))];
          NextStrip(p, tasks, k, n, m - k + 1, m - k);
        }
        Rewind(p, tasks, k, nt, m - k + 1, m - k, m - k);
      }
      NextStep(p, tasks, k);
    }
    Finished(p, tasks);
  }

  /** CblasLeft / CblasLower / Cblas[Conj]Trans */
  method LeftLowerTrans(p: Problem) returns (tasks: seq<Task>)
    requires p.Shaped() && p.op == DoSolve && p.side == Left && p.uplo == Lower && p.trans != NoTrans
    ensures Emits(p, tasks)
  {
    hide Emitted, Emits, Extent, Tiles, Begin;
    Start(p);
    tasks := [];
    var mt, nt, mb := p.T(), p.Q(), p.nb;
    for k := 0 to mt
      invariant Emitted(p, tasks, k, 0, 0, 0, 0)
    {
      var tempkm := if k == 0 then p.rows - (mt - 1) * mb else mb;
      var lalpha := if k == 0 then p.alpha else ONE;
      Aim(p, tasks, k, 1, 0);
      for n := 0 to nt
        invariant Emitted(p, tasks, k, n, 1, 0, 0)
      {
        var tempnn := if n == nt - 1 then p.cols - n * mb else mb;
        Extents(p, p.Block(k), n);
        Emit(p, tasks, k, n, 1, 0, 0);
        tasks := tasks + [Trsm(p.side, p.uplo, p.trans, p.diag, tempkm, tempnn,
                               lalpha, Tile(MatA, mt - 1 - k, mt - 1 - k),
                                       Tile(MatB, mt - 1 - k, n))];
        NextStrip(p, tasks, k, n, 1, 0);
      }
      Rewind(p, tasks, k, nt, 1, 0, 0);
      for m := k + 1 to mt
        invariant Emitted(p, tasks, k, 0, m - k, m - k, m - k)
      {
        Aim(p, tasks, k, m - k + 1, m - k);
        for n := 0 to nt
          invariant Emitted(p, tasks, k, n, m - k + 1, m - k, m - k)
        {
          var tempnn := if n == nt - 1 then p.cols - n * mb else mb;
          Extents(p, p.Block(k), n);
          Extents(p, p.Block(m), n);
          Emit(p, tasks, k, n, m - k + 1, m - k, m - k);
          tasks := tasks + [Gemm(p.trans, NoTrans, mb, tempnn, tempkm,
                                 MINUS_ONE, Tile(MatA, mt - 1 - k, mt - 1 - m),
                                            Tile(MatB, mt - 1 - k, n),
                                 lalpha,    Tile(MatB, mt - 1 - m, n))];
          NextStrip(p, tasks, k, n, m - k + 1, m - k);
        }
        Rewind(p, tasks, k, nt, m - k + 1, m - k, m - k);
      }
      NextStep(p, tasks, k);
    }
    Finished(p, tasks);
  }

  /** CblasRight / CblasUpper / CblasNoTrans */
  method RightUpperNoTrans(p: Problem) returns (tasks: seq<Task>)
    requires p.Shaped() && p.op == DoSolve && p.side == Right && p.uplo == Upper && p.trans == NoTrans
    ensures Emits(p, tasks)
  {
    hide Emitted, Emits, Extent, Tiles, Begin;
    Start(p);
    tasks := [];
    var nt, mt, mb := p.T(), p.Q(), p.nb;
    for k := 0 to nt
      invariant Emitted(p, tasks, k, 0, 0, 0, 0)
    {
      var tempkn := if k == nt - 1 then p.cols - k * mb else mb;
      var lalpha := if k == 0 then p.alpha else ONE;
      Aim(p, tasks, k, 1, 0);
      for m := 0 to mt
        invariant Emitted(p, tasks, k, m, 1, 0, 0)
      {
        var tempmm := if m == mt - 1 then p.rows - m * mb else mb;
        Extents(p, k, m);
        Emit(p, tasks, k, m, 1, 0, 0);
        tasks := tasks + [Trsm(p.side, p.uplo, p.trans, p.diag, tempmm, tempkn,
                               lalpha, Tile(MatA, k, k),
                                       Tile(MatB, m, k))];
        NextStrip(p, tasks, k, m, 1, 0);
      }
      Rewind(p, tasks, k, mt, 1, 0, 0);
      Aim(p, tasks, k, nt - k, 1);
      for m := 0 to mt
        invariant Emitted(p, tasks, k, m, nt - k, 1, 1)
      {
        var tempmm := if m == mt - 1 then p.rows - m * mb else mb;
        for n := k + 1 to nt
          invariant Emitted(p, tasks, k, m, nt - k, n - k, 1)
        {
          var tempnn := if n == nt - 1 then p.cols - n * mb else mb;
          Extents(p, k, m);
          Extents(p, n, m);
          Emit(p, tasks, k, m, nt - k, n - k, 1);
          tasks := tasks + [Gemm(NoTrans, NoTrans, tempmm, tempnn, mb,
                                 MINUS_ONE, Tile(MatB, m, k),
                                            Tile(MatA, k, n),
                                 lalpha,    Tile(MatB, m, n))];
        }
        NextStrip(p, tasks, k, m, nt - k, 1);
      }
      Rewind(p, tasks, k, mt, nt - k, 1, 1);
      NextStep(p, tasks, k);
    }
    Finished(p, tasks);
  }

  /** CblasRight / CblasUpper / Cblas[Conj]Trans */
  method RightUpperTrans(p: Problem) returns (tasks: seq<Task>)
    requires p.Shaped() && p.op == DoSolve && p.side == Right && p.uplo == Upper && p.trans != NoTrans
    ensures Emits(p, tasks)
  {
    hide Emitted, Emits, Extent, Tiles, Begin;
    Start(p);
    tasks := [];
    var nt, mt, mb := p.T(), p.Q(), p.nb;
    for k := 0 to nt
      invariant Emitted(p, tasks, k, 0, 0, 0, 0)
    {
      var tempkn := if k == 0 then p.cols - (nt - 1) * mb else mb;
      Aim(p, tasks, k, nt - k, 0);
      for m := 0 to mt
        invariant Emitted(p, tasks, k, m, nt - k, 0, 0)
      {
        var tempmm := if m == mt - 1 then p.rows - m * mb else mb;
        Extents(p, p.Block(k), m);
        Emit(p, tasks, k, m, nt - k, 0, 0);
        tasks := tasks + [Trsm(p.side, p.uplo, p.trans, p.diag, tempmm, tempkn,
                               p.alpha, Tile(MatA, nt - 1 - k, nt - 1 - k),
                                        Tile(MatB, m, nt - 1 - k))];
        for n := k + 1 to nt
          invariant Emitted(p, tasks, k, m, nt - k, n - k, 0)
        {
          Extents(p, p.Block(k), m);
          Extents(p, p.Block(n), m);
          Emit(p, tasks, k, m, nt - k, n - k, 0);
          tasks := tasks + [Gemm(NoTrans, p.trans, tempmm, mb, tempkn,
                                 p.minv, Tile(MatB, m, nt - 1 - k),
                                         Tile(MatA, nt - 1 - n, nt - 1 - k),
                                 ONE, Tile(MatB, m, nt - 1 - n))];
        }
        NextStrip(p, tasks, k, m, nt - k, 0);
      }
      Rewind(p, tasks, k, mt, nt - k, 0, 0);
      NextStep(p, tasks, k);
    }
    Finished(p, tasks);
  }

  /** CblasRight / CblasLower / CblasNoTrans */
  method RightLowerNoTrans(p: Problem) returns (tasks: seq<Task>)
    requires p.Shaped() && p.op == DoSolve && p.side == Right && p.uplo == Lower && p.trans == NoTrans
    ensures Emits(p, tasks)
  {
    hide Emitted, Emits, Extent, Tiles, Begin;
    Start(p);
    tasks := [];
    var nt, mt, mb := p.T(), p.Q(), p.nb;
    for k := 0 to nt
      invariant Emitted(p, tasks, k, 0, 0, 0, 0)
    {
      var tempkn := if k == 0 then p.cols - (nt - 1) * mb else mb;
      var lalpha := if k == 0 then p.alpha else ONE;
      Aim(p, tasks, k, nt - k, 0);
      for m := 0 to mt
        invariant Emitted(p, tasks, k, m, nt - k, 0, 0)
      {
        var tempmm := if m == mt - 1 then p.rows - m * mb else mb;
        Extents(p, p.Block(k), m);
        Emit(p, tasks, k, m, nt - k, 0, 0);
        tasks := tasks + [Trsm(p.side, p.uplo, p.trans, p.diag, tempmm, tempkn,
                               lalpha, Tile(MatA, nt - 1 - k, nt - 1 - k),
                                       Tile(MatB, m, nt - 1 - k))];
        for n := k + 1 to nt
          invariant Emitted(p, tasks, k, m, nt - k, n - k, 0)
        {
          Extents(p, p.Block(k), m);
          Extents(p, p.Block(n), m);
          Emit(p, tasks, k, m, nt - k, n - k, 0);
          tasks := tasks + [Gemm(NoTrans, NoTrans, tempmm, mb, tempkn,
                                 MINUS_ONE, Tile(MatB, m, nt - 1 - k),
                                            Tile(MatA, nt - 1 - k, nt - 1 - n),
                                 lalpha, Tile(MatB, m, nt - 1 - n))];
        }
        NextStrip(p, tasks, k, m, nt - k, 0);
      }
      Rewind(p, tasks, k, mt, nt - k, 0, 0);
      NextStep(p, tasks, k);
    }
    Finished(p, tasks);
  }

  /** CblasRight / CblasLower / Cblas[Conj]Trans */
  method RightLowerTrans(p: Problem) returns (tasks: seq<Task>)
    requires p.Shaped() && p.op == DoSolve && p.side == Right && p.uplo == Lower && p.trans != NoTrans
    ensures Emits(p, tasks)
  {
    hide Emitted, Emits, Extent, Tiles, Begin;
    Start(p);
    tasks := [];
    var nt, mt, mb := p.T(), p.Q(), p.nb;
    for k := 0 to nt
      invariant Emitted(p, tasks, k, 0, 0, 0, 0)
    {
      var tempkn := if k == nt - 1 then p.cols - k * mb else mb;
      Aim(p, tasks, k, nt - k, 0);
      for m := 0 to mt
        invariant Emitted(p, tasks, k, m, nt - k, 0, 0)
      {
        var tempmm := if m == mt - 1 then p.rows - m * mb else mb;
        Extents(p, p.Block(k), m);
        Emit(p, tasks, k, m, nt - k, 0, 0);
        tasks := tasks + [Trsm(p.side, p.uplo, p.trans, p.diag, tempmm, tempkn,
                               p.alpha, Tile(MatA, k, k),
                                        Tile(MatB, m, k))];
        for n := k + 1 to nt
          invariant Emitted(p, tasks, k, m, nt - k, n - k, 0)
        {
          var tempnn := if n == nt - 1 then p.cols - n * mb else mb;
          Extents(p, p.Block(k), m);
          Extents(p, p.Block(n), m);
          Emit(p, tasks, k, m, nt - k, n - k, 0);
          tasks := tasks + [Gemm(NoTrans, p.trans, tempmm, tempnn, mb,
                                 p.minv, Tile(MatB, m, k),
                                         Tile(MatA, n, k),
                                 ONE, Tile(MatB, m, n))];
        }
        NextStrip(p, tasks, k, m, nt - k, 0);
      }
      Rewind(p, tasks, k, mt, nt - k, 0, 0);
      NextStep(p, tasks, k);
    }
    Finished(p, tasks);
  }

  // ----- The entry point -----

  /** -1/alpha; for alpha = 0 it has no exact value, and quotient is whatever the division gives. */
  function MinusInverse(alpha: Scalar, quotient: Scalar): (r: Scalar)
    ensures alpha != ZERO ==> Mul(alpha, r) == MINUS_ONE
  {
    if alpha == ZERO then quotient else
      MulNegOne(alpha);
      Neg(Complex.Inv(alpha))
  }

  lemma MulNegOne(x: Scalar)
    requires x != ZERO
    ensures Mul(x, Neg(Complex.Inv(x))) == MINUS_ONE
  {
    MulNeg(x, Complex.Inv(x));
  }

  function ProblemOf(side: int, uplo: int, transA: int, diag: int, n: nat, nrhs: nat, alpha: Scalar,
                     quotient: Scalar, nb: nat): Problem {
    Problem(DoSolve, SideOf(side), UploOf(uplo), TransOf(transA), DiagOf(diag),
            n, nrhs, alpha, MinusInverse(alpha, quotient), nb)
  }

  /**
   The emitted tasks, run in program order or in any legal schedule, solve
   op(A) X = alpha B (side = left) or X op(A) = alpha B (side = right) in place.
   If A has no zero on a diagonal that is divided by, they reach exactly the solution,
   for alpha = 0 whatever value the quotient -1/alpha is given.
   */
  method ZtrsmAsync(side: Int32, uplo: Int32, transA: Int32, diag: Int32, n: Int32, nrhs: Int32, alpha: Scalar,
                    lda: Int32, ldb: Int32, nb: nat, quotient: Scalar) returns (aborted: bool, tasks: seq<Task>)
    requires nb > 0
    ensures !aborted <==>
              && (side == 141 || side == 142) && (uplo == 121 || uplo == 122) && 111 <= transA <= 113
              && (diag == 131 || diag == 132) && n >= 0 && nrhs >= 0
              && (lda < 0 || (lda >= 1 && lda >= if side == 141 then n else nrhs))
              && (ldb < 0 || (ldb >= 1 && ldb >= n))
    ensures aborted || n == 0 || nrhs == 0 ==> tasks == []
    ensures !aborted && n > 0 && nrhs > 0 ==>
              forall sched, s, s' :: Legal(tasks, sched) ==>
                && (RegularOperand(diag, if side == 141 then n else nrhs, s) ==>
                      (Run(nb, Pick(tasks, sched), s, s') <==>
                       TrsmResult(side, uplo, transA, diag, n, nrhs, alpha, s, s')))
                && (alpha != ZERO || side == 141 || transA == 111 || nrhs <= nb ==>
                      Run(nb, Pick(tasks, sched), s, s') ==>
                        TrsmResult(side, uplo, transA, diag, n, nrhs, alpha, s, s'))
  {
    tasks := [];
    var na: Int32 := if side == CBLAS_LEFT then n else nrhs;
    if side != CBLAS_LEFT && side != CBLAS_RIGHT { return true, tasks; }
    if uplo != CBLAS_UPPER && uplo != CBLAS_LOWER { return true, tasks; }
    if transA < CBLAS_NO_TRANS || transA > CBLAS_CONJ_TRANS { return true, tasks; }
    if diag != CBLAS_UNIT && diag != CBLAS_NON_UNIT { return true, tasks; }
    if n < 0 { return true, tasks; }
    if nrhs < 0 { return true, tasks; }
    LdTest(lda, na);
    if SizeT(lda) < MaxSize(1, SizeT(na)) { return true, tasks; }
    LdTest(ldb, n);
    if SizeT(ldb) < MaxSize(1, SizeT(n)) { return true, tasks; }
    aborted := false;
    if n == 0 || nrhs == 0 { return; }

    var p := ProblemOf(side, uplo, transA, diag, n, nrhs, alpha, quotient, nb);
    if side == CBLAS_LEFT {
      if uplo == CBLAS_UPPER {
        if transA == CBLAS_NO_TRANS { tasks := LeftUpperNoTrans(p); } else { tasks := LeftUpperTrans(p); }
      } else {
        if transA == CBLAS_NO_TRANS { tasks := LeftLowerNoTrans(p); } else { tasks := LeftLowerTrans(p); }
      }
    } else {
      if uplo == CBLAS_UPPER {
        if transA == CBLAS_NO_TRANS { tasks := RightUpperNoTrans(p); } else { tasks := RightUpperTrans(p); }
      } else {
        if transA == CBLAS_NO_TRANS { tasks := RightLowerNoTrans(p); } else { tasks := RightLowerTrans(p); }
      }
    }
    AnySchedule(p, tasks);
    hide *;
    forall sched, s, s' | Legal(tasks, sched)
      ensures RegularOperand(diag, if side == 141 then n else nrhs, s) ==>
                (Run(nb, Pick(tasks, sched), s, s') <==>
                 TrsmResult(side, uplo, transA, diag, n, nrhs, alpha, s, s'))
      ensures alpha != ZERO || side == 141 || transA == 111 || nrhs <= nb ==>
                Run(nb, Pick(tasks, sched), s, s') ==> TrsmResult(side, uplo, transA, diag, n, nrhs, alpha, s, s')
    {
      InCallersTerms(side, uplo, transA, diag, n, nrhs, alpha, quotient, nb, s, s');
    }
  }

  /** The problem that is solved is the one the caller passes. */
  lemma InCallersTerms(side: int, uplo: int, transA: int, diag: int, n: nat, nrhs: nat, alpha: Scalar,
                       quotient: Scalar, nb: nat, s: Store, s': Store)
    requires IsSide(side) && IsUplo(uplo) && IsTrans(transA) && IsDiag(diag) && n > 0 && nrhs > 0 && nb > 0
    ensures var p := ProblemOf(side, uplo, transA, diag, n, nrhs, alpha, quotient, nb);
            && p.nb == nb && p.op == DoSolve && p.Shaped()
            && (p.Valid() || (p.UsesInverse() && p.alpha == ZERO))
            && (alpha != ZERO || side == 141 || transA == 111 || nrhs <= nb ==> p.Valid())
            && (Regular(p, s) <==> RegularOperand(diag, if side == 141 then n else nrhs, s))
            && (Kernel(nb, p.Whole(), s, s') <==> TrsmResult(side, uplo, transA, diag, n, nrhs, alpha, s, s'))
  {
    hide Kernel, TrsmResult, Mul, Complex.Inv;
    var p := ProblemOf(side, uplo, transA, diag, n, nrhs, alpha, quotient, nb);
    TrsmMeans(nb, p.Whole(), side, uplo, transA, diag, n, nrhs, alpha, s, s');
    if nrhs <= nb {
      TilesCover(nrhs, nb, 1);
    }
  }

  lemma AnySchedule(p: Problem, tasks: seq<Task>)
    requires p.Shaped() && p.op == DoSolve && (p.Valid() || (p.UsesInverse() && p.alpha == ZERO)) && Emits(p, tasks)
    ensures forall sched, s, s' :: Legal(tasks, sched) ==>
              && (Regular(p, s) ==> (Run(p.nb, Pick(tasks, sched), s, s') <==> Kernel(p.nb, p.Whole(), s, s')))
              && (p.Valid() ==> Run(p.nb, Pick(tasks, sched), s, s') ==> Kernel(p.nb, p.Whole(), s, s'))
  {
    forall sched, s, s' | Legal(tasks, sched)
      ensures Regular(p, s) ==> (Run(p.nb, Pick(tasks, sched), s, s') <==> Kernel(p.nb, p.Whole(), s, s'))
      ensures p.Valid() ==> Run(p.nb, Pick(tasks, sched), s, s') ==> Kernel(p.nb, p.Whole(), s, s')
    {
      hide Run, Step, Legal, Pick, Regular;
      LegalScheduleEquivalent(p.nb, tasks, sched, s, s');
      if p.Valid() && Run(p.nb, tasks, s, s') {
        TiledSolve(p, tasks, s, s');
      }
      if p.Valid() && Regular(p, s) {
        TiledSolveExact(p, tasks, s, s');
      }
      if !p.Valid() && Regular(p, s) {
        ZeroExact(p, tasks, s, s');
      }
    }
  }
}
