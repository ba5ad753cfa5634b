/**
 xkblas_zsyrk_async: the loops that emit the tile tasks of
 C := alpha A A^T + beta C or C := alpha A^T A + beta C, of which only one
 triangle is computed.
 */
module Zsyrk {
  import opened Complex
  import opened TileTasks
  import opened Schedules
  import opened Strips
  import opened Products
  import opened Results
  import opened Cblas
  import opened BlasReference
  import opened BlasMeaning

  /** The whole-matrix operation. */
  function Whole(uplo: int, trans: int, n: nat, k: nat, alpha: Scalar, beta: Scalar): Task {
    Syrk(UploOf(uplo), TransOf(trans), n, k, alpha, Tile(MatA, 0, 0), beta, Tile(MatC, 0, 0))
  }

  /** The loops run over n, then over m > n: tile (m, n) of the lower triangle or (n, m) of the upper one. */
  function CursorAt(uplo: Uplo, m: nat, n: nat): Cursor {
    if uplo == Lower then ColumnMajor(m, n) else RowMajor(n, m)
  }

  /** The diagonal tile (n, n). */
  method DiagonalTile(w: Task, nb: nat, n: nat, tempnn: nat, before: seq<Task>)
    returns (tasks: seq<Task>)
    requires Shaped(w, nb) && w.Syrk? && Active(w, nb, n, n)
    requires tempnn == Extent(w.n, nb, n)
    requires Emitted(w, nb, before, CursorAt(w.uplo, n, n), Kt(w, nb), 0, 0)
    ensures Emitted(w, nb, tasks, CursorAt(w.uplo, n, n), Kt(w, nb), Kt(w, nb), 0)
  {
    hide Emitted, Extent, Active, Tiles;
    tasks := before;
    var kt, c := Kt(w, nb), CursorAt(w.uplo, n, n);
    if w.trans == NoTrans {
      for k := 0 to kt
        invariant Emitted(w, nb, tasks, c, kt, k, 0)
      {
        var tempk := if k == kt - 1 then w.k - k * nb else nb;
        var zbeta := if k == 0 then w.beta else ONE;
        Extents(w, nb, c.m, c.n, k);
        Emit(w, nb, tasks, c, kt, k, 0);
        tasks := tasks + [Syrk(w.uplo, w.trans, tempnn, tempk,
                               w.alpha, Tile(MatA, n, k), zbeta, Tile(MatC, n, n))];
      }
    } else {
      for k := 0 to kt
        invariant Emitted(w, nb, tasks, c, kt, k, 0)
      {
        var tempk := if k == kt - 1 then w.k - k * nb else nb;
        var zbeta := if k == 0 then w.beta else ONE;
        Extents(w, nb, c.m, c.n, k);
        Emit(w, nb, tasks, c, kt, k, 0);
        tasks := tasks + [Syrk(w.uplo, w.trans, tempnn, tempk,
                               w.alpha, Tile(MatA, k, n), zbeta, Tile(MatC, n, n))];
      }
    }
  }

  /** A tile (m, n) below the diagonal. */
  method LowerTile(w: Task, nb: nat, m: nat, n: nat, tempmm: nat, tempnn: nat, before: seq<Task>)
    returns (tasks: seq<Task>)
    requires Shaped(w, nb) && w.Syrk? && w.uplo == Lower && n < m && Active(w, nb, m, n)
    requires tempmm == Extent(w.n, nb, m) && tempnn == Extent(w.n, nb, n)
    requires Emitted(w, nb, before, CursorAt(w.uplo, m, n), Kt(w, nb), 0, 0)
    ensures Emitted(w, nb, tasks, CursorAt(w.uplo, m, n), Kt(w, nb), Kt(w, nb), 0)
  {
    hide Emitted, Extent, Active, Tiles;
    tasks := before;
    var kt, c := Kt(w, nb), CursorAt(w.uplo, m, n);
    if w.trans == NoTrans {
      for k := 0 to kt
        invariant Emitted(w, nb, tasks, c, kt, k, 0)
      {
        var tempk := if k == kt - 1 then w.k - k * nb else nb;
        var zbeta := if k == 0 then w.beta else ONE;
        Extents(w, nb, c.m, c.n, k);
        Emit(w, nb, tasks, c, kt, k, 0);
        tasks := tasks + [Gemm(w.trans, TRANS, tempmm, tempnn, tempk,
                               w.alpha, Tile(MatA, m, k), Tile(MatA, n, k), zbeta, Tile(MatC, m, n))];
      }
    } else {
      for k := 0 to kt
        invariant Emitted(w, nb, tasks, c, kt, k, 0)
      {
        var tempk := if k == kt - 1 then w.k - k * nb else nb;
        var zbeta := if k == 0 then w.beta else ONE;
        Extents(w, nb, c.m, c.n, k);
        Emit(w, nb, tasks, c, kt, k, 0);
        tasks := tasks + [Gemm(w.trans, NoTrans, tempmm, tempnn, tempk,
                               w.alpha, Tile(MatA, k, m), Tile(MatA, k, n), zbeta, Tile(MatC, m, n))];
      }
    }
  }

  /** A tile (n, m) above the diagonal. */
  method UpperTile(w: Task, nb: nat, m: nat, n: nat, tempmm: nat, tempnn: nat, before: seq<Task>)
    returns (tasks: seq<Task>)
    requires Shaped(w, nb) && w.Syrk? && w.uplo == Upper && n < m && Active(w, nb, n, m)
    requires tempmm == Extent(w.n, nb, m) && tempnn == Extent(w.n, nb, n)
    requires Emitted(w, nb, before, CursorAt(w.uplo, m, n), Kt(w, nb), 0, 0)
    ensures Emitted(w, nb, tasks, CursorAt(w.uplo, m, n), Kt(w, nb), Kt(w, nb), 0)
  {
    hide Emitted, Extent, Active, Tiles;
    tasks := before;
    var kt, c := Kt(w, nb), CursorAt(w.uplo, m, n);
    if w.trans == NoTrans {
      for k := 0 to kt
        invariant Emitted(w, nb, tasks, c, kt, k, 0)
      {
        var tempk := if k == kt - 1 then w.k - k * nb else nb;
        var zbeta := if k == 0 then w.beta else ONE;
        Extents(w, nb, c.m, c.n, k);
        Emit(w, nb, tasks, c, kt, k, 0);
        tasks := tasks + [Gemm(w.trans, TRANS, tempnn, tempmm, tempk,
                               w.alpha, Tile(MatA, n, k), Tile(MatA, m, k), zbeta, Tile(MatC, n, m))];
      }
    } else {
      for k := 0 to kt
        invariant Emitted(w, nb, tasks, c, kt, k, 0)
      {
        var tempk := if k == kt - 1 then w.k - k * nb else nb;
        var zbeta := if k == 0 then w.beta else ONE;
        Extents(w, nb, c.m, c.n, k);
        Emit(w, nb, tasks, c, kt, k, 0);
        tasks := tasks + [Gemm(w.trans, NoTrans, tempnn, tempmm, tempk,
                               w.alpha, Tile(MatA, k, n), Tile(MatA, k, m), zbeta, Tile(MatC, n, m))];
      }
    }
  }

  /** Row or column n of the stored triangle: the diagonal tile, then the tiles beyond it. */
  method Line(w: Task, nb: nat, n: nat, tempnn: nat, before: seq<Task>) returns (tasks: seq<Task>)
    requires Shaped(w, nb) && w.Syrk? && n < Nt(w, nb) && tempnn == Extent(w.n, nb, n)
    requires Emitted(w, nb, before, CursorAt(w.uplo, n, n), Kt(w, nb), 0, 0)
    ensures Emitted(w, nb, tasks, CursorAt(w.uplo, Mt(w, nb), n), Kt(w, nb), 0, 0)
  {
    hide Emitted, Extent, Tiles;
    tasks := DiagonalTile(w, nb, n, tempnn, before);
    var mt, kt := Mt(w, nb), Kt(w, nb);
    TileDone(w, nb, tasks, CursorAt(w.uplo, n, n), kt, 0);
    if w.uplo == Lower {
      for m := n + 1 to mt
        invariant Emitted(w, nb, tasks, CursorAt(w.uplo, m, n), kt, 0, 0)
      {
        var tempmm := if m == mt - 1 then w.n - m * nb else nb;
        Extents(w, nb, m, n, 0);
        tasks := LowerTile(w, nb, m, n, tempmm, tempnn, tasks);
        TileDone(w, nb, tasks, CursorAt(w.uplo, m, n), kt, 0);
      }
    } else {
      for m := n + 1 to mt
        invariant Emitted(w, nb, tasks, CursorAt(w.uplo, m, n), kt, 0, 0)
      {
        var tempmm := if m == mt - 1 then w.n - m * nb else nb;
        Extents(w, nb, m, n, 0);
        tasks := UpperTile(w, nb, m, n, tempmm, tempnn, tasks);
        TileDone(w, nb, tasks, CursorAt(w.uplo, m, n), kt, 0);
      }
    }
  }

  /** The next line starts at its diagonal tile: the tiles before it are not stored. */
  lemma SkipToDiagonal(w: Task, nb: nat, tasks: seq<Task>, n: nat)
    requires Shaped(w, nb) && w.Syrk?
    requires Emitted(w, nb, tasks, CursorAt(w.uplo, Mt(w, nb), n), Kt(w, nb), 0, 0)
    ensures Emitted(w, nb, tasks, CursorAt(w.uplo, n + 1, n + 1), Kt(w, nb), 0, 0)
  {
    hide Emitted;
    MoveTo(w, nb, tasks, CursorAt(w.uplo, Mt(w, nb), n), Kt(w, nb), 0, 0,
           CursorAt(w.uplo, n + 1, n + 1), Kt(w, nb), 0, 0);
  }

  method Loops(w: Task, nb: nat) returns (tasks: seq<Task>)
    requires Shaped(w, nb) && w.Syrk?
    ensures Emits(w, nb, tasks)
    ensures w.k == 0 ==> tasks == []
  {
    hide Emitted, Extent, Emits, Tiles;
    tasks := [];
    var nt, kt := Nt(w, nb), Kt(w, nb);
    Start(w, nb, CursorAt(w.uplo, 0, 0), kt);
    for n := 0 to nt
      invariant Emitted(w, nb, tasks, CursorAt(w.uplo, n, n), kt, 0, 0)
    {
      var tempnn := if n == nt - 1 then w.n - n * nb else nb;
      Extents(w, nb, n, n, 0);
      tasks := Line(w, nb, n, tempnn, tasks);
      SkipToDiagonal(w, nb, tasks, n);
    }
    PassEnds(w, nb, tasks, CursorAt(w.uplo, nt, nt), CursorAt(w.uplo, 0, 0), kt, 0, 0);
    Finished(w, nb, tasks, CursorAt(w.uplo, 0, 0));
  }

  /** The update that is computed is the one the caller asks for. */
  lemma InCallersTerms(uplo: int, trans: int, n: nat, k: nat, alpha: Scalar, beta: Scalar, nb: nat)
    requires IsUplo(uplo) && (trans == CBLAS_NO_TRANS || trans == CBLAS_TRANS)
    ensures forall s, s' :: Kernel(nb, Whole(uplo, trans, n, k, alpha, beta), s, s') <==>
                            SyrkResult(uplo, trans, n, k, alpha, beta, s, s')
  {
    hide Kernel, SyrkResult;
    forall s, s'
      ensures Kernel(nb, Whole(uplo, trans, n, k, alpha, beta), s, s') <==>
              SyrkResult(uplo, trans, n, k, alpha, beta, s, s')
    {
      SyrkMeans(nb, Whole(uplo, trans, n, k, alpha, beta), uplo, trans, n, k, alpha, beta, s, s');
    }
  }

  /**
   In every legal schedule the emitted tasks update the stored triangle of C
   and leave the rest alone, exactly when the inner dimension is not empty or
   there is nothing to scale, and C is not dropped on tiles of two rows or more.
   */
  method ZsyrkAsync(uplo: Int32, trans: Int32, n: Int32, k: Int32, alpha: Scalar, lda: Int32,
                    beta: Scalar, ldc: Int32, nb: nat) returns (aborted: bool, tasks: seq<Task>)
    requires nb > 0
    ensures !aborted <==>
              && (uplo == 121 || uplo == 122) && (trans == 111 || trans == 112) && n >= 0 && k >= 0
              && (lda < 0 || (lda >= 1 && lda >= if trans == 111 then n else k))
              && (ldc < 0 || (ldc >= 1 && ldc >= n))
    ensures aborted || n == 0 ==> tasks == []
    ensures !aborted && n > 0 ==>
              ((forall sched, s, s' :: Legal(tasks, sched) ==>
                  (Run(nb, Pick(tasks, sched), s, s') <==> SyrkResult(uplo, trans, n, k, alpha, beta, s, s'))) <==>
               (k > 0 || beta == ONE) && (beta != ZERO || n == 1 || nb == 1))
  {
    tasks := [];
    if uplo != CBLAS_UPPER && uplo != CBLAS_LOWER { return true, tasks; }
    if trans != CBLAS_NO_TRANS && trans != CBLAS_TRANS { return true, tasks; }
    var am: Int32 := if trans == CBLAS_NO_TRANS then n else k;
    if n < 0 { return true, tasks; }
    if k < 0 { return true, tasks; }
    LdTest(lda, am);
    if SizeT(lda) < MaxSize(1, SizeT(am)) { return true, tasks; }
    LdTest(ldc, n);
    if SizeT(ldc) < MaxSize(1, SizeT(n)) { return true, tasks; }
    aborted := false;
    if n == 0 { return; }
    var w := Whole(uplo, trans, n, k, alpha, beta);
    InCallersTerms(uplo, trans, n, k, alpha, beta, nb);
    if (alpha == ZERO || k == 0) && beta == ONE {
      NothingToDo(w, nb);
      return;
    }
    tasks := Loops(w, nb);
    if k > 0 && Settled(w, nb) {
      EmitsImplements(w, nb, tasks);
    } else if k > 0 {
      UnsettledFails(w, nb, tasks);
    } else {
      NotScaled(w, nb);
    }
  }

  /** The smallest failing input, C := A A^T of order two: its one task may change element (0, 1) of C. */
  lemma TriangleLost() returns (s: Store, s': Store)
    ensures var w := Whole(CBLAS_LOWER, CBLAS_NO_TRANS, 2, 1, ONE, ZERO);
            && TileTask(w, 2, 0, 0, 0) == w && Kt(w, 2) == 1 && Run(2, [w], s, s')
            && s(MatC, 0, 1) == ZERO && s'(MatC, 0, 1) == ONE && !Kernel(2, w, s, s')
            && !SyrkResult(122, 111, 2, 1, ONE, ZERO, s, s')
  {
    hide *;
    var w := Whole(CBLAS_LOWER, CBLAS_NO_TRANS, 2, 1, ONE, ZERO);
    s := (x, i, j) => ZERO;
    SmallTask();
    s' := ResultStore(2, w, s, ONE);
    StepResult(2, w, s, ONE);
    CornerLost(w, s);
    SmallMeans(s, s');
    RunOne(2, w, s, s');
  }

  lemma SmallMeans(s: Store, s': Store)
    ensures Kernel(2, Whole(CBLAS_LOWER, CBLAS_NO_TRANS, 2, 1, ONE, ZERO), s, s') <==>
            SyrkResult(122, 111, 2, 1, ONE, ZERO, s, s')
  {
    hide Kernel, SyrkResult, Whole;
    InCallersTerms(CBLAS_LOWER, CBLAS_NO_TRANS, 2, 1, ONE, ZERO, 2);
  }

  lemma SmallTask()
    ensures var w := Whole(CBLAS_LOWER, CBLAS_NO_TRANS, 2, 1, ONE, ZERO);
            && w.Syrk? && w.uplo == Lower && WriteOnly(w) && w.c == Tile(MatC, 0, 0) && w.n == 2
            && WellSized(2, w) && TileTask(w, 2, 0, 0, 0) == w && Kt(w, 2) == 1
  {
    hide TileTask, Kt;
    OneTile(Whole(CBLAS_LOWER, CBLAS_NO_TRANS, 2, 1, ONE, ZERO), 2);
  }

  /** An update that fits one tile is its own task. */
  lemma OneTile(w: Task, nb: nat)
    requires w.Syrk? && IsProduct(w) && 0 < w.n <= nb && 0 < w.k <= nb
    ensures TileTask(w, nb, 0, 0, 0) == w && Kt(w, nb) == 1
  {
    hide Extent, Tiles;
    FitsOne(w.n, nb);
    FitsOne(w.k, nb);
  }

  lemma FitsOne(dim: nat, nb: nat)
    requires 0 < dim <= nb
    ensures Tiles(dim, nb) == 1 && Extent(dim, nb, 0) == dim
  {
  }

  lemma RunOne(nb: nat, t: Task, s: Store, s': Store)
    requires Step(nb, t, s, s')
    ensures Run(nb, [t], s, s')
  {
    hide Step;
    RunSnoc(nb, [], t, s, s, s');
    assert [] + [t] == [t];
  }

  lemma CornerLost(w: Task, s: Store)
    requires w.Syrk? && w.uplo == Lower && WriteOnly(w) && w.c == Tile(MatC, 0, 0) && w.n == 2
    requires s(MatC, 0, 1) == ZERO
    ensures var s' := ResultStore(2, w, s, ONE); s'(MatC, 0, 1) == ONE && !Kernel(2, w, s, s')
  {
    hide Computes, ResultAt;
    assert Touches(2, w, MatC, 0, 1) && !Overwrites(2, w, MatC, 0, 1);
  }

  // ----- Declared access modes -----

  /** A task that declares W is run on a tile whose previous contents were never fetched. */
  ghost predicate OutputFixed(nb: nat, t: Task) {
    forall s, r, s', r' ::
      SameInputs(nb, t, s, r) && Kernel(nb, t, s, s') && Kernel(nb, t, r, r') ==>
        forall i, j :: 0 <= i < Rows(t) && 0 <= j < t.n ==> At(nb, r', Out(t), i, j) == At(nb, s', Out(t), i, j)
  }

  /** With beta = 0, the declared inputs determine every element the kernel writes. */
  lemma WrittenFixed(nb: nat, t: Task, s: Store, r: Store, s': Store, r': Store, i: int, j: int)
    requires (t.Gemm? || t.Syrk?) && WellSized(nb, t) && t.beta == ZERO && Written(t, i, j)
    requires SameInputs(nb, t, s, r) && Kernel(nb, t, s, s') && Kernel(nb, t, r, r')
    ensures At(nb, r', t.c, i, j) == At(nb, s', t.c, i, j)
  {
    hide Mul, Add, Sum, SameInputs;
    assert Computes(nb, t, s, s', i, j) && Computes(nb, t, r, r', i, j);
    SumInputs(nb, t, s, s, r, r, i, j);
    MulZero(At(nb, s, t.c, i, j));
    MulZero(At(nb, r, t.c, i, j));
  }

  /** For gemm the declaration is sound: the whole output tile is written. */
  lemma GemmWriteOnlySound(nb: nat, t: Task)
    requires t.Gemm? && WellSized(nb, t) && t.beta == ZERO
    ensures OutputFixed(nb, t)
  {
    hide SameInputs, Kernel;
    forall s, r, s', r', i, j | SameInputs(nb, t, s, r) && Kernel(nb, t, s, s') && Kernel(nb, t, r, r') &&
                                0 <= i < Rows(t) && 0 <= j < t.n
      ensures At(nb, r', t.c, i, j) == At(nb, s', t.c, i, j)
    {
      WrittenFixed(nb, t, s, r, s', r', i, j);
    }
  }

  function Flat(v: Scalar, w: Scalar): Store {
    (x, i, j) => if x == MatC then v else w
  }

  /** A store in which t has been run on Flat(v, ZERO): the stored triangle is cleared. */
  function Cleared(nb: nat, t: Task, v: Scalar): Store {
    (x, i, j) => if Overwrites(nb, t, x, i, j) then ZERO else Flat(v, ZERO)(x, i, j)
  }

  lemma ClearedIsKernel(nb: nat, t: Task, v: Scalar)
    requires t.Syrk? && t.beta == ZERO && t.a.mat != MatC && t.c.mat == MatC
    ensures Kernel(nb, t, Flat(v, ZERO), Cleared(nb, t, v))
  {
    hide Computes;
    forall i, j | Written(t, i, j)
      ensures Computes(nb, t, Flat(v, ZERO), Cleared(nb, t, v), i, j)
    {
      ClearedComputes(nb, t, v, i, j);
    }
  }

  lemma ClearedComputes(nb: nat, t: Task, v: Scalar, i: int, j: int)
    requires t.Syrk? && t.beta == ZERO && t.a.mat != MatC && t.c.mat == MatC && Written(t, i, j)
    ensures Computes(nb, t, Flat(v, ZERO), Cleared(nb, t, v), i, j)
  {
    hide Mul, Add, Sum;
    var s, s' := Flat(v, ZERO), Cleared(nb, t, v);
    assert Overwrites(nb, t, MatC, t.c.m * nb + i, t.c.n * nb + j);
    MulZero(ZERO);
    assert forall l :: Term(nb, t, s, s, i, j, l) == ZERO;
    SumZero(nb, t, s, s, i, j, 0, Inner(t));
    MulZero(t.alpha);
    MulZero(At(nb, s, t.c, i, j));
    AddZero(ZERO);
  }

  /**
   For syrk with beta = 0 it is sound only on tiles of at most one element: the
   opposite triangle of a diagonal tile keeps whatever the buffer held.
   */
  lemma SyrkWriteOnlySound(nb: nat, t: Task)
    requires t.Syrk? && WellSized(nb, t) && t.beta == ZERO && t.a.mat != MatC && t.c.mat == MatC
    ensures OutputFixed(nb, t) <==> t.n <= 1
  {
    hide Kernel;
    if t.n <= 1 {
      hide SameInputs;
      forall s, r, s', r', i, j | SameInputs(nb, t, s, r) && Kernel(nb, t, s, s') && Kernel(nb, t, r, r') &&
                                  0 <= i < Rows(t) && 0 <= j < t.n
        ensures At(nb, r', t.c, i, j) == At(nb, s', t.c, i, j)
      {
        WrittenFixed(nb, t, s, r, s', r', i, j);
      }
    } else {
      OppositeTriangleKept(nb, t);
    }
  }

  lemma OppositeTriangleKept(nb: nat, t: Task)
    requires t.Syrk? && WellSized(nb, t) && t.beta == ZERO && t.a.mat != MatC && t.c.mat == MatC && t.n > 1
    ensures !OutputFixed(nb, t)
  {
    hide Kernel;
    ClearedIsKernel(nb, t, ZERO);
    ClearedIsKernel(nb, t, ONE);
    assert SameInputs(nb, t, Flat(ZERO, ZERO), Flat(ONE, ZERO));
    var i, j := if t.uplo == Upper then 1 else 0, if t.uplo == Upper then 0 else 1;
    assert !Overwrites(nb, t, MatC, t.c.m * nb + i, t.c.n * nb + j);
    assert At(nb, Cleared(nb, t, ZERO), t.c, i, j) == ZERO;
    assert At(nb, Cleared(nb, t, ONE), t.c, i, j) == ONE;
  }
}
