/**
 Products that accumulate into C: the tasks that blas/zgemm.c, blas/zsymm.c and
 blas/zsyrk.c emit for one tile of C, and the proof that a task list made of
 them computes alpha (product) + beta C over the whole matrix, with beta
 applied once per tile.
 */
module Products {
  import opened Complex
  import opened TileTasks
  import opened Schedules
  import opened Results
  import opened Strips

  /** CblasTrans. */
  const TRANS := TileTasks.Trans.Trans

  /** A whole-matrix product with operands A, B and C. */
  predicate IsProduct(w: Task) {
    && (w.Gemm? || w.Symm? || (w.Syrk? && w.trans != ConjTrans))
    && w.a == Tile(MatA, 0, 0) && w.c == Tile(MatC, 0, 0)
    && (w.Syrk? || w.b == Tile(MatB, 0, 0))
  }

  predicate Shaped(w: Task, nb: nat) { IsProduct(w) && nb > 0 && Rows(w) > 0 && w.n > 0 }

  function Mt(w: Task, nb: nat): nat requires nb > 0 { Tiles(Rows(w), nb) }
  function Nt(w: Task, nb: nat): nat requires nb > 0 { Tiles(w.n, nb) }
  function Kt(w: Task, nb: nat): nat requires nb > 0 { Tiles(Inner(w), nb) }

  /** The tiles of C that are computed. */
  predicate Active(w: Task, nb: nat, m: nat, n: nat)
    requires nb > 0
  {
    m < Mt(w, nb) && n < Nt(w, nb) && (w.Syrk? ==> Stored(w.uplo, m, n))
  }

  /** The task that adds the k-th inner tile to tile (m, n) of C. */
  function TileTask(w: Task, nb: nat, m: nat, n: nat, k: nat): Task
    requires nb > 0 && IsProduct(w)
  {
    var e, f, g := Extent(Rows(w), nb, m), Extent(w.n, nb, n), Extent(Inner(w), nb, k);
    var c := Tile(MatC, m, n);
    var beta := if k == 0 then w.beta else ONE;
    match w
    case Gemm(ta, tb, _, _, _, alpha, _, _, _, _) =>
      Gemm(ta, tb, e, f, g, alpha, if ta == NoTrans then Tile(MatA, m, k) else Tile(MatA, k, m),
           if tb == NoTrans then Tile(MatB, k, n) else Tile(MatB, n, k), beta, c)
    case Symm(Left, uplo, _, _, alpha, _, _, _, _) =>
      if k == m then Symm(Left, uplo, e, f, alpha, Tile(MatA, k, k), Tile(MatB, k, n), beta, c)
      else if (k < m) == (uplo == Lower) then
        Gemm(NoTrans, NoTrans, e, f, g, alpha, Tile(MatA, m, k), Tile(MatB, k, n), beta, c)
      else Gemm(TRANS, NoTrans, e, f, g, alpha, Tile(MatA, k, m), Tile(MatB, k, n), beta, c)
    case Symm(Right, uplo, _, _, alpha, _, _, _, _) =>
      if k == n then Symm(Right, uplo, e, f, alpha, Tile(MatA, k, k), Tile(MatB, m, k), beta, c)
      else if (k < n) == (uplo == Lower) then
        Gemm(NoTrans, TRANS, e, f, g, alpha, Tile(MatB, m, k), Tile(MatA, n, k), beta, c)
      else Gemm(NoTrans, NoTrans, e, f, g, alpha, Tile(MatB, m, k), Tile(MatA, k, n), beta, c)
    case Syrk(uplo, trans, _, _, alpha, _, _, _) =>
      var a, b := if trans == NoTrans then Tile(MatA, m, k) else Tile(MatA, k, m),
                  if trans == NoTrans then Tile(MatA, n, k) else Tile(MatA, k, n);
      if m == n then Syrk(uplo, trans, f, g, alpha, b, beta, c)
      else Gemm(trans, if trans == NoTrans then TRANS else NoTrans, e, f, g, alpha, a, b, beta, c)
  }

  function TileList(w: Task, nb: nat, m: nat, n: nat, c: nat): seq<Task>
    requires nb > 0 && IsProduct(w)
  {
    if c == 0 then [] else TileList(w, nb, m, n, c - 1) + [TileTask(w, nb, m, n, c - 1)]
  }

  // ----- Tile terms in whole-matrix coordinates -----

  lemma SymmetricTile(nb: nat, s: Store, uplo: Uplo, x: nat, y: nat, i: int, l: int)
    requires 0 <= i < nb && 0 <= l < nb
    ensures SymAt(nb, s, uplo, Tile(MatA, 0, 0), x * nb + i, y * nb + l) ==
            if x == y then SymAt(nb, s, uplo, Tile(MatA, x, x), i, l)
            else if (y < x) == (uplo == Lower) then At(nb, s, Tile(MatA, x, y), i, l)
            else At(nb, s, Tile(MatA, y, x), l, i)
  {
    if x < y {
      TileOrder(nb, x, y);
    } else if y < x {
      TileOrder(nb, y, x);
    }
  }

  lemma SymmTerm(w: Task, nb: nat, m: nat, n: nat, k: nat, s: Store, i: int, j: int, d: int)
    requires nb > 0 && IsProduct(w) && w.Symm? && 0 <= i < nb && 0 <= j < nb && 0 <= d < nb
    ensures TermFrom(nb, TileTask(w, nb, m, n, k), s, s, i, j, 0, d) ==
            TermFrom(nb, w, s, s, m * nb + i, n * nb + j, k * nb, d)
  {
    hide Mul, Extent, SymAt;
    if w.side == Left {
      SymmetricTile(nb, s, w.uplo, m, k, i, d);
    } else {
      SymmetricTile(nb, s, w.uplo, k, n, d, j);
    }
  }

  lemma GemmTerm(w: Task, nb: nat, m: nat, n: nat, k: nat, s: Store, i: int, j: int, d: int)
    requires nb > 0 && IsProduct(w) && w.Gemm?
    ensures TermFrom(nb, TileTask(w, nb, m, n, k), s, s, i, j, 0, d) ==
            TermFrom(nb, w, s, s, m * nb + i, n * nb + j, k * nb, d)
  {
    hide Mul, Extent;
    var t := TileTask(w, nb, m, n, k);
    assert OpAt(nb, s, t.transA, t.a, i, d) == OpAt(nb, s, w.transA, w.a, m * nb + i, k * nb + d);
    assert OpAt(nb, s, t.transB, t.b, d, j) == OpAt(nb, s, w.transB, w.b, k * nb + d, n * nb + j);
  }

  lemma SyrkTerm(w: Task, nb: nat, m: nat, n: nat, k: nat, s: Store, i: int, j: int, d: int)
    requires nb > 0 && IsProduct(w) && w.Syrk?
    ensures TermFrom(nb, TileTask(w, nb, m, n, k), s, s, i, j, 0, d) ==
            TermFrom(nb, w, s, s, m * nb + i, n * nb + j, k * nb, d)
  {
    hide Mul, Extent;
    if w.trans == NoTrans {
      assert At(nb, s, w.a, m * nb + i, k * nb + d) == At(nb, s, Tile(MatA, m, k), i, d);
      assert At(nb, s, w.a, n * nb + j, k * nb + d) == At(nb, s, Tile(MatA, n, k), j, d);
    } else {
      assert At(nb, s, w.a, k * nb + d, m * nb + i) == At(nb, s, Tile(MatA, k, m), d, i);
      assert At(nb, s, w.a, k * nb + d, n * nb + j) == At(nb, s, Tile(MatA, k, n), d, j);
    }
  }

  lemma TileTerm(w: Task, nb: nat, m: nat, n: nat, k: nat, s: Store, i: int, j: int, d: int)
    requires nb > 0 && IsProduct(w) && 0 <= i < nb && 0 <= j < nb && 0 <= d < nb
    ensures TermFrom(nb, TileTask(w, nb, m, n, k), s, s, i, j, 0, d) ==
            TermFrom(nb, w, s, s, m * nb + i, n * nb + j, k * nb, d)
  {
    assert w.Gemm? || w.Symm? || w.Syrk?;
    hide *;
    if w.Symm? {
      SymmTerm(w, nb, m, n, k, s, i, j, d);
    } else if w.Gemm? {
      GemmTerm(w, nb, m, n, k, s, i, j, d);
    } else {
      SyrkTerm(w, nb, m, n, k, s, i, j, d);
    }
  }

  /** The parts of a tile task that do not depend on which product it belongs to. */
  lemma TileShape(w: Task, nb: nat, m: nat, n: nat, k: nat)
    requires nb > 0 && IsProduct(w)
    ensures var t := TileTask(w, nb, m, n, k);
            && !t.Trsm? && !t.Trmm?
            && Out(t) == Tile(MatC, m, n)
            && Rows(t) == Extent(Rows(w), nb, m) && t.n == Extent(w.n, nb, n)
            && t.alpha == w.alpha && t.beta == (if k == 0 then w.beta else ONE)
            && (t.Syrk? <==> w.Syrk? && m == n) && (t.Syrk? ==> t.uplo == w.uplo)
            && Inner(t) == Extent(Inner(w), nb, k)
  {
    hide Extent;
  }

  /** (i, j) lies in tile (m, n) of C and is written by the whole operation. */
  predicate Elem(w: Task, nb: nat, m: nat, n: nat, i: int, j: int) {
    && Begin(Rows(w), nb, m) <= i < Begin(Rows(w), nb, m + 1)
    && Begin(w.n, nb, n) <= j < Begin(w.n, nb, n + 1)
    && Written(w, i, j)
  }

  lemma TileWrites(w: Task, nb: nat, m: nat, n: nat, k: nat, i: int, j: int)
    requires Shaped(w, nb) && Active(w, nb, m, n)
    ensures Overwrites(nb, TileTask(w, nb, m, n, k), MatC, i, j) <==> Elem(w, nb, m, n, i, j)
  {
    TileShape(w, nb, m, n, k);
    hide TileTask, Extent, IsProduct;
    TilesCover(Rows(w), nb, m);
    TilesCover(w.n, nb, n);
    if w.Syrk? && m * nb <= i < m * nb + nb && n * nb <= j < n * nb + nb {
      StoredInTile(w.uplo, nb, m, n, i, j);
    }
    hide Stored;
  }

  /** In a tile off the diagonal every element of the triangle is stored, in one on it those of its own triangle. */
  lemma StoredInTile(uplo: Uplo, nb: nat, m: nat, n: nat, i: int, j: int)
    requires Stored(uplo, m, n) && m * nb <= i < m * nb + nb && n * nb <= j < n * nb + nb
    ensures Stored(uplo, i, j) <==> (m == n ==> Stored(uplo, i - m * nb, j - n * nb))
  {
    if m < n {
      TileOrder(nb, m, n);
    } else if n < m {
      TileOrder(nb, n, m);
    }
  }

  /** The inner product of the k-th task is the k-th piece of the whole inner product. */
  lemma TileSum(w: Task, nb: nat, m: nat, n: nat, k: nat, s: Store, i: int, j: int)
    requires Shaped(w, nb) && Active(w, nb, m, n) && k < Kt(w, nb) && Elem(w, nb, m, n, i, j)
    ensures var t := TileTask(w, nb, m, n, k);
            Sum(nb, t, s, s, i - m * nb, j - n * nb, 0, Inner(t)) ==
            Sum(nb, w, s, s, i, j, Begin(Inner(w), nb, k), Begin(Inner(w), nb, k + 1))
  {
    hide Mul, Term, Sum, Written, TileTask, Extent, IsProduct;
    TilesCover(Rows(w), nb, m);
    TilesCover(w.n, nb, n);
    TilesCover(Inner(w), nb, k);
    var t, i', j' := TileTask(w, nb, m, n, k), i - m * nb, j - n * nb;
    TileShape(w, nb, m, n, k);
    forall d | 0 <= d < Inner(t)
      ensures TermFrom(nb, t, s, s, i', j', 0, d) == TermFrom(nb, w, s, s, i, j, k * nb, d)
    {
      TileTerm(w, nb, m, n, k, s, i', j', d);
    }
    SumMatch(nb, t, s, s, i', j', 0, w, s, s, i, j, k * nb, Inner(t));
  }

  // ----- One tile -----

  function CAt(s: Store, i: int, j: int): Scalar { s(MatC, i, j) }

  ghost predicate SameAB(s0: Store, s: Store) {
    forall x, i, j :: x != MatC ==> s(x, i, j) == s0(x, i, j)
  }

  /** C(i, j) after c > 0 tasks: alpha times the first c inner tiles, plus beta times its first value. */
  function Value(w: Task, nb: nat, s0: Store, i: int, j: int, c: nat): Scalar
    requires IsProduct(w)
  {
    Add(Mul(w.alpha, Sum(nb, w, s0, s0, i, j, 0, Begin(Inner(w), nb, c))), Mul(w.beta, CAt(s0, i, j)))
  }

  ghost predicate Inv(w: Task, nb: nat, m: nat, n: nat, c: nat, s0: Store, s: Store)
    requires IsProduct(w)
  {
    && SameAB(s0, s)
    && (forall i, j :: Elem(w, nb, m, n, i, j) ==>
          CAt(s, i, j) == if c == 0 then CAt(s0, i, j) else Value(w, nb, s0, i, j, c))
  }

  lemma SameSum(w: Task, nb: nat, s0: Store, s: Store, i: int, j: int, lo: int, hi: int)
    requires IsProduct(w) && SameAB(s0, s)
    ensures Sum(nb, w, s, s, i, j, lo, hi) == Sum(nb, w, s0, s0, i, j, lo, hi)
  {
    if lo < hi {
      forall d | 0 <= d < hi - lo
        ensures TermFrom(nb, w, s, s, i, j, lo, d) == TermFrom(nb, w, s0, s0, i, j, lo, d)
      {
        hide Mul;
      }
      SumMatch(nb, w, s, s, i, j, lo, w, s0, s0, i, j, lo, hi - lo);
    }
  }

  lemma AddTile(w: Task, nb: nat, m: nat, n: nat, k: nat, s0: Store, s: Store, s': Store, i: int, j: int)
    requires Shaped(w, nb) && Active(w, nb, m, n) && k < Kt(w, nb) && Elem(w, nb, m, n, i, j)
    requires SameAB(s0, s) && Step(nb, TileTask(w, nb, m, n, k), s, s')
    ensures CAt(s', i, j) ==
            Add(Mul(w.alpha, Sum(nb, w, s0, s0, i, j, Begin(Inner(w), nb, k), Begin(Inner(w), nb, k + 1))),
                Mul(if k == 0 then w.beta else ONE, CAt(s, i, j)))
  {
    hide Add, Mul, Term, Sum, Begin, Elem, Overwrites, Step, SameAB, Extent, Active, TileTask;
    TileShape(w, nb, m, n, k);
    var t := TileTask(w, nb, m, n, k);
    TileWrites(w, nb, m, n, k, i, j);
    StepComputes(nb, t, s, s', i, j);
    TileSum(w, nb, m, n, k, s, i, j);
    SameSum(w, nb, s0, s, i, j, Begin(Inner(w), nb, k), Begin(Inner(w), nb, k + 1));
  }

  lemma NextElem(w: Task, nb: nat, m: nat, n: nat, k: nat, s0: Store, s: Store, s': Store, i: int, j: int)
    requires Shaped(w, nb) && Active(w, nb, m, n) && k < Kt(w, nb) && Elem(w, nb, m, n, i, j)
    requires Inv(w, nb, m, n, k, s0, s) && Step(nb, TileTask(w, nb, m, n, k), s, s')
    ensures CAt(s', i, j) == Value(w, nb, s0, i, j, k + 1)
  {
    hide Add, Mul, Sum, Elem, Step, SameAB, Extent, Active;
    AddTile(w, nb, m, n, k, s0, s, s', i, j);
    var kd := Inner(w);
    BeginMonotone(kd, nb, 0, k);
    BeginMonotone(kd, nb, k, k + 1);
    if k > 0 {
      SumSplit(nb, w, s0, s0, i, j, 0, Begin(kd, nb, k), Begin(kd, nb, k + 1));
      AccumulatesOnto(w.alpha, Sum(nb, w, s0, s0, i, j, 0, Begin(kd, nb, k)),
                      Sum(nb, w, s0, s0, i, j, Begin(kd, nb, k), Begin(kd, nb, k + 1)),
                      Mul(w.beta, CAt(s0, i, j)));
    }
  }

  lemma NextInv(w: Task, nb: nat, m: nat, n: nat, k: nat, s0: Store, s: Store, s': Store)
    requires Shaped(w, nb) && Active(w, nb, m, n) && k < Kt(w, nb)
    requires Inv(w, nb, m, n, k, s0, s) && Step(nb, TileTask(w, nb, m, n, k), s, s')
    ensures Inv(w, nb, m, n, k + 1, s0, s')
  {
    hide Elem, TileTask, Value, Computes;
    TileShape(w, nb, m, n, k);
    forall i, j | Elem(w, nb, m, n, i, j)
      ensures CAt(s', i, j) == Value(w, nb, s0, i, j, k + 1)
    {
      NextElem(w, nb, m, n, k, s0, s, s', i, j);
    }
  }

  lemma StartInv(w: Task, nb: nat, m: nat, n: nat, s0: Store, s: Store)
    requires Shaped(w, nb) && Run(nb, TileList(w, nb, m, n, 0), s0, s)
    ensures Inv(w, nb, m, n, 0, s0, s)
  {
    hide Elem;
  }

  lemma LastTask(w: Task, nb: nat, m: nat, n: nat, c: nat, s0: Store, s: Store) returns (mid: Store)
    requires Shaped(w, nb) && Run(nb, TileList(w, nb, m, n, c + 1), s0, s)
    ensures Run(nb, TileList(w, nb, m, n, c), s0, mid) && Step(nb, TileTask(w, nb, m, n, c), mid, s)
  {
    mid := RunUnsnoc(nb, TileList(w, nb, m, n, c), TileTask(w, nb, m, n, c), s0, s);
  }

  lemma {:induction false} TileInv(w: Task, nb: nat, m: nat, n: nat, c: nat, s0: Store, s: Store)
    requires Shaped(w, nb) && Active(w, nb, m, n) && c <= Kt(w, nb)
    requires Run(nb, TileList(w, nb, m, n, c), s0, s)
    ensures Inv(w, nb, m, n, c, s0, s)
  {
    hide *;
    if c == 0 {
      StartInv(w, nb, m, n, s0, s);
    } else {
      var mid := LastTask(w, nb, m, n, c - 1, s0, s);
      TileInv(w, nb, m, n, c - 1, s0, mid);
      NextInv(w, nb, m, n, c - 1, s0, mid, s);
    }
  }

  // ----- The theorem -----

  ghost predicate Emits(w: Task, nb: nat, tasks: seq<Task>)
    requires nb > 0 && IsProduct(w)
  {
    && AllWellSized(nb, tasks)
    && (forall m: nat, n: nat :: Active(w, nb, m, n) ==>
          AllConfined(MatC, Single(m, n), tasks) && Kept(tasks, Single(m, n)) == TileList(w, nb, m, n, Kt(w, nb)))
    && (forall t, x, i, j :: t in tasks && Overwrites(nb, t, x, i, j) ==> Overwrites(nb, w, x, i, j))
    && (forall t :: t in tasks ==> !t.Trsm? && PartOf(w, t))
  }

  /** A syrk task belongs to a syrk operation, is no larger, and drops C only if the operation does. */
  predicate PartOf(w: Task, t: Task) {
    t.Syrk? ==> w.Syrk? && t.n <= w.n && (t.beta == ZERO ==> w.beta == ZERO)
  }

  /** No tile of C is declared write-only and written in part: syrk with beta = 0 does so on tiles of two rows. */
  predicate Settled(w: Task, nb: nat) {
    w.Syrk? && w.beta == ZERO ==> w.n <= 1 || nb == 1
  }

  lemma SettledTouches(w: Task, nb: nat, t: Task, x: Matrix, i: int, j: int)
    requires Settled(w, nb) && PartOf(w, t) && WellSized(nb, t)
    ensures Touches(nb, t, x, i, j) <==> Overwrites(nb, t, x, i, j)
  {
  }

  lemma ComputedAt(w: Task, nb: nat, tasks: seq<Task>, s0: Store, s: Store, i: int, j: int)
    requires Shaped(w, nb) && Inner(w) > 0 && Emits(w, nb, tasks) && Run(nb, tasks, s0, s) && Written(w, i, j)
    ensures Computes(nb, w, s0, s, i, j)
  {
    hide Add, Mul, Sum, Run, AllConfined, AllWellSized;
    var m := TileOf(Rows(w), nb, i);
    var n := TileOf(w.n, nb, j);
    if w.Syrk? && m < n {
      TileOrder(nb, m, n);
    } else if w.Syrk? && n < m {
      TileOrder(nb, n, m);
    }
    var y := Project(nb, MatC, Single(m, n), tasks, s0, s);
    TileInv(w, nb, m, n, Kt(w, nb), s0, y);
    assert Elem(w, nb, m, n, i, j);
    TilesCover(Inner(w), nb, Kt(w, nb));
    TilesCover(Inner(w), nb, 0);
    assert CAt(s, i, j) == CAt(y, i, j);
  }

  /** A list that emits these tiles computes the whole product, once the inner dimension is not empty. */
  lemma TiledProduct(w: Task, nb: nat, tasks: seq<Task>, s0: Store, s: Store)
    requires Shaped(w, nb) && Inner(w) > 0 && Settled(w, nb) && Emits(w, nb, tasks) && Run(nb, tasks, s0, s)
    ensures Kernel(nb, w, s0, s)
  {
    hide Computes, Kept, Run;
    forall i, j | Written(w, i, j)
      ensures Computes(nb, w, s0, s, i, j)
    {
      ComputedAt(w, nb, tasks, s0, s, i, j);
    }
    forall x, i, j | !Overwrites(nb, w, x, i, j)
      ensures s(x, i, j) == s0(x, i, j)
    {
      forall t | t in tasks
        ensures !Touches(nb, t, x, i, j)
      {
        SettledTouches(w, nb, t, x, i, j);
      }
      RunUntouched(nb, tasks, s0, s, x, i, j);
    }
  }

  /** In every legal schedule the tasks reach exactly the result of w. */
  ghost predicate Implements(w: Task, nb: nat, tasks: seq<Task>) {
    forall sched, s, s' :: Legal(tasks, sched) ==> (Run(nb, Pick(tasks, sched), s, s') <==> Kernel(nb, w, s, s'))
  }

  lemma EmitsImplements(w: Task, nb: nat, tasks: seq<Task>)
    requires Shaped(w, nb) && Inner(w) > 0 && Settled(w, nb) && Emits(w, nb, tasks)
    ensures Implements(w, nb, tasks)
  {
    forall sched, s, s' | Legal(tasks, sched)
      ensures Run(nb, Pick(tasks, sched), s, s') <==> Kernel(nb, w, s, s')
    {
      LegalScheduleEquivalent(nb, tasks, sched, s, s');
      assert forall t :: t in tasks ==> !t.Trsm?;
      hide Run, Kernel, Pick, Legal;
      forall r | Run(nb, tasks, s, r)
        ensures Kernel(nb, w, s, r)
      {
        TiledProduct(w, nb, tasks, s, r);
      }
      Equivalent(nb, tasks, w, s, s');
    }
  }

  /** In program order every task is run in its turn. */
  /** The element of the first tile of C that the kernel of a syrk leaves alone. */
  function OppositeRow(w: Task): int requires w.Syrk? { if w.uplo == Upper then 1 else 0 }
  function OppositeColumn(w: Task): int requires w.Syrk? { if w.uplo == Upper then 0 else 1 }

  /** A list that is not settled loses that element: its first task on the tile declares the tile write-only. */
  lemma FirstTaskLoses(w: Task, nb: nat, tasks: seq<Task>)
    requires Shaped(w, nb) && Inner(w) > 0 && !Settled(w, nb) && Emits(w, nb, tasks)
    ensures Loses(nb, tasks, MatC, OppositeRow(w), OppositeColumn(w))
  {
    TilesCover(w.n, nb, 0);
    TilesCover(Inner(w), nb, 0);
    var t := TileTask(w, nb, 0, 0, 0);
    TileShape(w, nb, 0, 0, 0);
    assert Active(w, nb, 0, 0);
    assert t in Kept(tasks, Single(0, 0)) by { FirstListed(w, nb, 0, 0, Kt(w, nb)); }
    KeptMember(tasks, Single(0, 0), t);
    hide TileTask, Emits;
    assert Touches(nb, t, MatC, OppositeRow(w), OppositeColumn(w));
  }

  lemma {:induction false} FirstListed(w: Task, nb: nat, m: nat, n: nat, c: nat)
    requires nb > 0 && IsProduct(w) && c > 0
    ensures TileTask(w, nb, m, n, 0) in TileList(w, nb, m, n, c)
  {
    if c > 1 {
      FirstListed(w, nb, m, n, c - 1);
    }
  }

  lemma {:induction false} KeptMember(tasks: seq<Task>, z: Strip, t: Task)
    requires t in Kept(tasks, z)
    ensures t in tasks
  {
    if tasks != [] {
      assert tasks == Front(tasks) + [Last(tasks)];
      if t in Kept(Front(tasks), z) {
        KeptMember(Front(tasks), z, t);
      }
    }
  }

  lemma NoneWrites(w: Task, nb: nat, tasks: seq<Task>)
    requires nb > 0 && w.Syrk? && IsProduct(w) && Emits(w, nb, tasks)
    ensures !Overwrites(nb, w, MatC, OppositeRow(w), OppositeColumn(w))
    ensures forall t :: t in tasks ==> !t.Trsm? && !Overwrites(nb, t, MatC, OppositeRow(w), OppositeColumn(w))
  {
    hide AllWellSized, AllConfined, Kept, TileList, Active, Kt, PartOf;
  }

  /** Such a list does not implement the operation: the lost element ends as whatever the buffer held. */
  lemma UnsettledFails(w: Task, nb: nat, tasks: seq<Task>)
    requires Shaped(w, nb) && Inner(w) > 0 && !Settled(w, nb) && Emits(w, nb, tasks)
    ensures !Implements(w, nb, tasks)
  {
    hide Emits, Legal, Pick, Run, Overwrites, Loses, Kernel, OppositeRow, OppositeColumn;
    FirstTaskLoses(w, nb, tasks);
    NoneWrites(w, nb, tasks);
    var s: Store := (x, i, j) => ZERO;
    var i, j := OppositeRow(w), OppositeColumn(w);
    var sched := ProgramOrder(tasks);
    RunReaches(nb, tasks, s, ONE);
    LossFails(nb, w, tasks, s, i, j);
  }

  /** A list that loses an element which the operation leaves alone can end outside its contract. */
  lemma LossFails(nb: nat, w: Task, tasks: seq<Task>, s: Store, i: int, j: int)
    requires !Overwrites(nb, w, MatC, i, j) && Loses(nb, tasks, MatC, i, j) && s(MatC, i, j) == ZERO
    requires forall t :: t in tasks ==> !t.Trsm? && !Overwrites(nb, t, MatC, i, j)
    ensures !Kernel(nb, w, s, Reached(nb, tasks, s, ONE))
  {
    hide Computes, Loses, Overwrites, Reached;
    LostElement(nb, tasks, s, ONE, MatC, i, j);
  }

  /** Leaving C alone is right when the product vanishes and beta is one. */
  lemma NothingToDo(w: Task, nb: nat)
    requires Shaped(w, nb) && (w.alpha == ZERO || Inner(w) == 0) && w.beta == ONE
    ensures Implements(w, nb, [])
  {
    forall sched, s, s' | Legal([], sched)
      ensures Run(nb, Pick([], sched), s, s') <==> Kernel(nb, w, s, s')
    {
      assert Pick([], sched) == [];
      forall r | Run(nb, [], s, r)
        ensures Kernel(nb, w, s, r)
      {
        UnchangedStep(w, nb, s, r);
      }
      Equivalent(nb, [], w, s, s');
    }
  }

  lemma UnchangedStep(w: Task, nb: nat, s: Store, s': Store)
    requires Shaped(w, nb) && (w.alpha == ZERO || Inner(w) == 0) && w.beta == ONE
    requires forall x, i, j :: s'(x, i, j) == s(x, i, j)
    ensures Kernel(nb, w, s, s')
  {
    forall i, j | Written(w, i, j)
      ensures Computes(nb, w, s, s', i, j)
    {
      UnchangedComputes(w, nb, s, s', i, j);
    }
  }

  lemma UnchangedComputes(w: Task, nb: nat, s: Store, s': Store, i: int, j: int)
    requires Shaped(w, nb) && (w.alpha == ZERO || Inner(w) == 0) && w.beta == ONE
    requires forall x, i, j :: s'(x, i, j) == s(x, i, j)
    ensures Computes(nb, w, s, s', i, j)
  {
    var d, v := Sum(nb, w, s, s, i, j, 0, Inner(w)), At(nb, s, w.c, i, j);
    assert Mul(w.alpha, d) == ZERO by {
      MulZero(d);
      MulZero(w.alpha);
    }
    hide Mul, Add, Sum;
    MulOne(v);
    AddZero(v);
  }

  /** With an empty inner dimension no task is emitted, and C should still have been scaled by beta. */
  lemma NotScaled(w: Task, nb: nat)
    requires Shaped(w, nb) && Inner(w) == 0 && w.beta != ONE
    ensures !Implements(w, nb, [])
  {
    var s: Store := (x, i, j) => ONE;
    assert Pick([], []) == [];
    assert Legal([], []) && Run(nb, Pick([], []), s, s);
    assert Written(w, 0, 0);
    if Kernel(nb, w, s, s) {
      assert Computes(nb, w, s, s, 0, 0);
      MulZero(w.alpha);
      MulOne(w.beta);
      assert false;
    }
  }

  // ----- How far each tile has got -----

  /** The tile the loops are at, in the order in which they visit the tiles of C. */
  datatype Cursor = RowMajor(m: nat, n: nat) | ColumnMajor(m: nat, n: nat)

  predicate Passed(c: Cursor, m: nat, n: nat) {
    match c
    case RowMajor(cm, cn) => m < cm || (m == cm && n < cn)
    case ColumnMajor(cm, cn) => n < cn || (n == cn && m < cm)
  }

  /** Tiles before the cursor have hi tasks, the tile at the cursor cur, later tiles lo. */
  function Stage(c: Cursor, hi: nat, cur: nat, lo: nat, m: nat, n: nat): nat {
    if Passed(c, m, n) then hi else if m == c.m && n == c.n then cur else lo
  }

  ghost predicate StaysInside(w: Task, nb: nat, t: Task) {
    && WellSized(nb, t) && !t.Trsm?
    && (forall m: nat, n: nat :: Confined(MatC, Single(m, n), t))
    && (forall x, i, j :: Overwrites(nb, t, x, i, j) ==> Overwrites(nb, w, x, i, j)) && PartOf(w, t)
  }

  ghost predicate Emitted(w: Task, nb: nat, tasks: seq<Task>, c: Cursor, hi: nat, cur: nat, lo: nat) {
    && Shaped(w, nb)
    && (Kt(w, nb) == 0 ==> tasks == [])
    && (forall t :: t in tasks ==> StaysInside(w, nb, t))
    && (forall m: nat, n: nat :: Active(w, nb, m, n) ==>
          Kept(tasks, Single(m, n)) == TileList(w, nb, m, n, Stage(c, hi, cur, lo, m, n)))
  }

  lemma TileStaysInside(w: Task, nb: nat, m: nat, n: nat, k: nat)
    requires Shaped(w, nb) && Active(w, nb, m, n)
    ensures StaysInside(w, nb, TileTask(w, nb, m, n, k))
  {
    TileReads(w, nb, m, n, k);
    TileShape(w, nb, m, n, k);
    TilePart(w, nb, m, n, k);
    hide TileTask, Extent, Overwrites, Accesses;
    var t := TileTask(w, nb, m, n, k);
    forall x, i, j | Overwrites(nb, t, x, i, j)
      ensures Overwrites(nb, w, x, i, j)
    {
      TileInside(w, nb, m, n, k, x, i, j);
    }
  }

  lemma TilePart(w: Task, nb: nat, m: nat, n: nat, k: nat)
    requires Shaped(w, nb)
    ensures PartOf(w, TileTask(w, nb, m, n, k))
  {
    TileShape(w, nb, m, n, k);
    hide TileTask, IsProduct;
  }

  lemma TileReads(w: Task, nb: nat, m: nat, n: nat, k: nat)
    requires Shaped(w, nb)
    ensures var t := TileTask(w, nb, m, n, k);
            !t.Trsm? && forall a :: a in Accesses(t) && a.tile.mat == MatC ==> a.tile == Tile(MatC, m, n)
  {
    hide Extent;
  }

  lemma TileInside(w: Task, nb: nat, m: nat, n: nat, k: nat, x: Matrix, i: int, j: int)
    requires Shaped(w, nb) && Active(w, nb, m, n) && Overwrites(nb, TileTask(w, nb, m, n, k), x, i, j)
    ensures Overwrites(nb, w, x, i, j)
  {
    TileShape(w, nb, m, n, k);
    hide TileTask, Extent;
    TileWrites(w, nb, m, n, k, i, j);
  }

  /** Emitting the next task of the tile at the cursor. */
  lemma Emit(w: Task, nb: nat, tasks: seq<Task>, c: Cursor, hi: nat, cur: nat, lo: nat)
    requires Emitted(w, nb, tasks, c, hi, cur, lo) && Active(w, nb, c.m, c.n) && cur < Kt(w, nb)
    ensures Emitted(w, nb, tasks + [TileTask(w, nb, c.m, c.n, cur)], c, hi, cur + 1, lo)
  {
    TileShape(w, nb, c.m, c.n, cur);
    hide StaysInside, TileTask, Active;
    var t := TileTask(w, nb, c.m, c.n, cur);
    TileStaysInside(w, nb, c.m, c.n, cur);
    forall m: nat, n: nat | Active(w, nb, m, n)
      ensures Kept(tasks + [t], Single(m, n)) == TileList(w, nb, m, n, Stage(c, hi, cur + 1, lo, m, n))
    {
      KeptSnoc(tasks, t, Single(m, n));
    }
  }

  /** The same progress, described from another cursor. */
  lemma MoveTo(w: Task, nb: nat, tasks: seq<Task>, c: Cursor, hi: nat, cur: nat, lo: nat,
               c': Cursor, hi': nat, cur': nat, lo': nat)
    requires Emitted(w, nb, tasks, c, hi, cur, lo)
    requires forall m: nat, n: nat :: Active(w, nb, m, n) ==>
               Stage(c, hi, cur, lo, m, n) == Stage(c', hi', cur', lo', m, n)
    ensures Emitted(w, nb, tasks, c', hi', cur', lo')
  {
    hide StaysInside, Kept, Active;
  }

  function NextTile(c: Cursor): Cursor {
    match c
    case RowMajor(m, n) => RowMajor(m, n + 1)
    case ColumnMajor(m, n) => ColumnMajor(m + 1, n)
  }

  function NextLine(c: Cursor): Cursor {
    match c
    case RowMajor(m, n) => RowMajor(m + 1, 0)
    case ColumnMajor(m, n) => ColumnMajor(0, n + 1)
  }

  /** The cursor has left its row or column of tiles. */
  predicate LineDone(w: Task, nb: nat, c: Cursor)
    requires nb > 0
  {
    if c.RowMajor? then c.n == Nt(w, nb) else c.m == Mt(w, nb)
  }

  lemma TileDone(w: Task, nb: nat, tasks: seq<Task>, c: Cursor, hi: nat, lo: nat)
    requires Emitted(w, nb, tasks, c, hi, hi, lo)
    ensures Emitted(w, nb, tasks, NextTile(c), hi, lo, lo)
  {
    hide Emitted;
    MoveTo(w, nb, tasks, c, hi, hi, lo, NextTile(c), hi, lo, lo);
  }

  lemma LineEnds(w: Task, nb: nat, tasks: seq<Task>, c: Cursor, hi: nat, lo: nat)
    requires Shaped(w, nb) && LineDone(w, nb, c) && Emitted(w, nb, tasks, c, hi, lo, lo)
    ensures Emitted(w, nb, tasks, NextLine(c), hi, lo, lo)
  {
    hide Emitted;
    MoveTo(w, nb, tasks, c, hi, lo, lo, NextLine(c), hi, lo, lo);
  }

  /** A pass that will bring every tile from lo to hi. */
  lemma PassStarts(w: Task, nb: nat, tasks: seq<Task>, c: Cursor, hi: nat, lo: nat)
    requires c.m == 0 && c.n == 0 && Emitted(w, nb, tasks, c, lo, lo, lo)
    ensures Emitted(w, nb, tasks, c, hi, lo, lo)
  {
    hide Emitted;
    MoveTo(w, nb, tasks, c, lo, lo, lo, c, hi, lo, lo);
  }

  lemma PassEnds(w: Task, nb: nat, tasks: seq<Task>, c: Cursor, c': Cursor, hi: nat, cur: nat, lo: nat)
    requires Shaped(w, nb) && Emitted(w, nb, tasks, c, hi, cur, lo)
    requires if c.RowMajor? then c.m == Mt(w, nb) else c.n == Nt(w, nb)
    ensures Emitted(w, nb, tasks, c', hi, hi, hi)
  {
    hide Emitted;
    MoveTo(w, nb, tasks, c, hi, cur, lo, c', hi, hi, hi);
  }

  lemma Start(w: Task, nb: nat, c: Cursor, hi: nat)
    requires Shaped(w, nb) && c.m == 0 && c.n == 0
    ensures Emitted(w, nb, [], c, hi, 0, 0)
  {
  }

  lemma Finished(w: Task, nb: nat, tasks: seq<Task>, c: Cursor)
    requires Shaped(w, nb) && Emitted(w, nb, tasks, c, Kt(w, nb), Kt(w, nb), Kt(w, nb))
    ensures Emits(w, nb, tasks)
    ensures Inner(w) == 0 ==> tasks == []
  {
    hide Kept, TileList;
    TilesCover(Inner(w), nb, 0);
  }

  /** The extents the loops compute are those of the tiles they name. */
  lemma Extents(w: Task, nb: nat, m: nat, n: nat, k: nat)
    requires Shaped(w, nb)
    ensures m < Mt(w, nb) ==> Extent(Rows(w), nb, m) == if m == Mt(w, nb) - 1 then Rows(w) - m * nb else nb
    ensures n < Nt(w, nb) ==> Extent(w.n, nb, n) == if n == Nt(w, nb) - 1 then w.n - n * nb else nb
    ensures k < Kt(w, nb) ==> Extent(Inner(w), nb, k) == if k == Kt(w, nb) - 1 then Inner(w) - k * nb else nb
  {
    TilesCover(Rows(w), nb, m);
    TilesCover(w.n, nb, n);
    TilesCover(Inner(w), nb, k);
  }
}
