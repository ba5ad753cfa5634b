/**
 Tile tasks and what they compute.

 A store gives every element of the operand matrices. A task names tiles (the
 handles of blas/xkblas.c) and carries its own extents; element (i, j) of tile
 (m, n) is element (m*nb + i, n*nb + j) of the matrix. The kernels behind the
 tasks are foreign code, so a task is a relation between stores: the contract
 of the BLAS routine it calls. The whole-matrix routine is the same contract
 with the tile (0, 0) and the full extents, so a tiled algorithm is correct
 when its task list refines that one task.
 */
module TileTasks {
  import opened Complex

  datatype Trans = NoTrans | Trans | ConjTrans
  datatype Side = Left | Right
  datatype Uplo = Upper | Lower
  datatype Diag = NonUnit | Unit

  datatype Matrix = MatA | MatB | MatC
  datatype Tile = Tile(mat: Matrix, m: nat, n: nat)

  type Store = (Matrix, int, int) -> Scalar

  datatype Task =
    | Gemm(transA: Trans, transB: Trans, m: nat, n: nat, k: nat, alpha: Scalar, a: Tile, b: Tile,
           beta: Scalar, c: Tile)
    | Symm(side: Side, uplo: Uplo, m: nat, n: nat, alpha: Scalar, a: Tile, b: Tile, beta: Scalar, c: Tile)
    | Syrk(uplo: Uplo, trans: Trans, n: nat, k: nat, alpha: Scalar, a: Tile, beta: Scalar, c: Tile)
    | Trmm(side: Side, uplo: Uplo, transA: Trans, diag: Diag, m: nat, n: nat, alpha: Scalar, a: Tile, b: Tile)
    | Trsm(side: Side, uplo: Uplo, transA: Trans, diag: Diag, m: nat, n: nat, alpha: Scalar, a: Tile, b: Tile)

  // ----- Elements of tiles -----

  function At(nb: nat, s: Store, t: Tile, i: int, j: int): Scalar {
    s(t.mat, t.m * nb + i, t.n * nb + j)
  }

  function OpAt(nb: nat, s: Store, trans: Trans, t: Tile, i: int, j: int): Scalar {
    match trans
    case NoTrans => At(nb, s, t, i, j)
    case Trans => At(nb, s, t, j, i)
    case ConjTrans => Conj(At(nb, s, t, j, i))
  }

  /** Is (i, j) in the stored triangle? */
  predicate Stored(uplo: Uplo, i: int, j: int) {
    if uplo == Upper then i <= j else j <= i
  }

  /** A triangular operand: nothing outside its triangle is read, and no unit diagonal is. */
  function TriAt(nb: nat, s: Store, uplo: Uplo, diag: Diag, t: Tile, i: int, j: int): Scalar {
    if !Stored(uplo, i, j) then ZERO
    else if i == j && diag == Unit then ONE
    else At(nb, s, t, i, j)
  }

  function OpTriAt(nb: nat, s: Store, trans: Trans, uplo: Uplo, diag: Diag, t: Tile, i: int, j: int): Scalar {
    match trans
    case NoTrans => TriAt(nb, s, uplo, diag, t, i, j)
    case Trans => TriAt(nb, s, uplo, diag, t, j, i)
    case ConjTrans => Conj(TriAt(nb, s, uplo, diag, t, j, i))
  }

  /** A symmetric operand of which only one triangle is read. */
  function SymAt(nb: nat, s: Store, uplo: Uplo, t: Tile, i: int, j: int): Scalar {
    if Stored(uplo, i, j) then At(nb, s, t, i, j) else At(nb, s, t, j, i)
  }

  // ----- The shape of a task -----

  function Out(t: Task): Tile {
    if t.Trmm? || t.Trsm? then t.b else t.c
  }

  function Rows(t: Task): nat {
    if t.Syrk? then t.n else t.m
  }

  /** The extent of the inner product. */
  function Inner(t: Task): nat {
    if t.Gemm? || t.Syrk? then t.k else if t.side == Left then t.m else t.n
  }

  /** Is (i, j) an element of the output tile that the kernel writes? */
  predicate Written(t: Task, i: int, j: int) {
    0 <= i < Rows(t) && 0 <= j < t.n && (t.Syrk? ==> Stored(t.uplo, i, j))
  }

  /** The l-th product of the inner product for (i, j); x supplies the in-out operand of trsm and trmm. */
  function Term(nb: nat, t: Task, s: Store, x: Store, i: int, j: int, l: int): Scalar {
    match t
    case Gemm(ta, tb, _, _, _, _, a, b, _, _) =>
      Mul(OpAt(nb, s, ta, a, i, l), OpAt(nb, s, tb, b, l, j))
    case Symm(Left, uplo, _, _, _, a, b, _, _) =>
      Mul(SymAt(nb, s, uplo, a, i, l), At(nb, s, b, l, j))
    case Symm(Right, uplo, _, _, _, a, b, _, _) =>
      Mul(At(nb, s, b, i, l), SymAt(nb, s, uplo, a, l, j))
    case Syrk(_, trans, _, _, _, a, _, _) =>
      if trans == NoTrans then Mul(At(nb, s, a, i, l), At(nb, s, a, j, l))
      else Mul(At(nb, s, a, l, i), At(nb, s, a, l, j))
    case _ =>
      if t.side == Left
      then Mul(OpTriAt(nb, s, t.transA, t.uplo, t.diag, t.a, i, l), At(nb, x, t.b, l, j))
      else Mul(At(nb, x, t.b, i, l), OpTriAt(nb, s, t.transA, t.uplo, t.diag, t.a, l, j))
  }

  function Sum(nb: nat, t: Task, s: Store, x: Store, i: int, j: int, lo: int, hi: int): Scalar
    decreases hi - lo
  {
    if hi <= lo then ZERO
    else Add(Sum(nb, t, s, x, i, j, lo, hi - 1), Term(nb, t, s, x, i, j, hi - 1))
  }

  // ----- Meaning -----

  /** The kernel's contract at (i, j), from store s to store s'. */
  predicate Computes(nb: nat, t: Task, s: Store, s': Store, i: int, j: int) {
    match t
    case Trsm(_, _, _, _, _, _, alpha, _, b) =>
      Sum(nb, t, s, s', i, j, 0, Inner(t)) == Mul(alpha, At(nb, s, b, i, j))
    case Trmm(_, _, _, _, _, _, alpha, _, b) =>
      At(nb, s', b, i, j) == Mul(alpha, Sum(nb, t, s, s, i, j, 0, Inner(t)))
    case _ =>
      At(nb, s', t.c, i, j) ==
      Add(Mul(t.alpha, Sum(nb, t, s, s, i, j, 0, Inner(t))), Mul(t.beta, At(nb, s, t.c, i, j)))
  }

  /** The kernel writes element (i, j) of matrix x. */
  predicate Overwrites(nb: nat, t: Task, x: Matrix, i: int, j: int) {
    x == Out(t).mat && Written(t, i - Out(t).m * nb, j - Out(t).n * nb)
  }

  /** What the kernel does when its tiles are at hand; for a whole-matrix task, the routine's own contract. */
  ghost predicate Kernel(nb: nat, t: Task, s: Store, s': Store) {
    && (forall x, i, j :: !Overwrites(nb, t, x, i, j) ==> s'(x, i, j) == s(x, i, j))
    && forall i, j :: Written(t, i, j) ==> Computes(nb, t, s, s', i, j)
  }

  /**
   The output tile is declared write-only: the runtime does not fetch it, so the
   kernel finds in it whatever the buffer held, and the whole tile counts as new.
   */
  predicate WriteOnly(t: Task) {
    (t.Gemm? || t.Syrk?) && t.beta == ZERO
  }

  /** Is (i, j) an element of the output tile that is new after the task? */
  predicate Held(t: Task, i: int, j: int) {
    0 <= i < Rows(t) && 0 <= j < t.n && (WriteOnly(t) || Written(t, i, j))
  }

  predicate Touches(nb: nat, t: Task, x: Matrix, i: int, j: int) {
    x == Out(t).mat && Held(t, i - Out(t).m * nb, j - Out(t).n * nb)
  }

  ghost predicate Unchanged(nb: nat, t: Task, s: Store, s': Store) {
    forall x, i, j :: !Touches(nb, t, x, i, j) ==> s'(x, i, j) == s(x, i, j)
  }

  /** A task as the runtime runs it; `StepRefills` below says that this is the kernel on a refilled tile. */
  ghost predicate Step(nb: nat, t: Task, s: Store, s': Store) {
    && Unchanged(nb, t, s, s')
    && forall i, j :: Written(t, i, j) ==> Computes(nb, t, s, s', i, j)
  }

  /** Only a syrk task leaves part of its output tile alone. */
  lemma TouchesOverwrites(nb: nat, t: Task, x: Matrix, i: int, j: int)
    requires !t.Syrk?
    ensures Touches(nb, t, x, i, j) <==> Overwrites(nb, t, x, i, j)
  {
  }

  /** A task that declares no output write-only runs as its kernel does. */
  lemma StepIsKernel(nb: nat, t: Task, s: Store, s': Store)
    requires !WriteOnly(t)
    ensures Step(nb, t, s, s') <==> Kernel(nb, t, s, s')
  {
    hide Computes;
  }

  function Front(tasks: seq<Task>): seq<Task>
    requires tasks != []
  {
    tasks[..|tasks| - 1]
  }

  function Last(tasks: seq<Task>): Task
    requires tasks != []
  {
    tasks[|tasks| - 1]
  }

  /** The tasks run one after the other from s to s'. */
  ghost predicate Run(nb: nat, tasks: seq<Task>, s: Store, s': Store) {
    if tasks == [] then forall x, i, j :: s'(x, i, j) == s(x, i, j)
    else exists mid: Store :: Run(nb, Front(tasks), s, mid) && Step(nb, Last(tasks), mid, s')
  }

  /** The contract at an element given in matrix coordinates. */
  lemma StepComputes(nb: nat, t: Task, s: Store, s': Store, i: int, j: int)
    requires Step(nb, t, s, s') && Overwrites(nb, t, Out(t).mat, i, j)
    ensures var o := Out(t);
            Computes(nb, t, s, s', i - o.m * nb, j - o.n * nb) &&
            At(nb, s, o, i - o.m * nb, j - o.n * nb) == s(o.mat, i, j) &&
            At(nb, s', o, i - o.m * nb, j - o.n * nb) == s'(o.mat, i, j)
  {
    hide Computes;
    assert Written(t, i - Out(t).m * nb, j - Out(t).n * nb);
  }

  lemma KernelComputes(nb: nat, t: Task, s: Store, s': Store, i: int, j: int)
    requires Kernel(nb, t, s, s') && Overwrites(nb, t, Out(t).mat, i, j)
    ensures var o := Out(t);
            Computes(nb, t, s, s', i - o.m * nb, j - o.n * nb) &&
            At(nb, s', o, i - o.m * nb, j - o.n * nb) == s'(o.mat, i, j)
  {
    hide Computes;
    assert Written(t, i - Out(t).m * nb, j - Out(t).n * nb);
  }

  // ----- Declared accesses -----

  datatype Mode = R | W | RW
  datatype Access = Access(tile: Tile, mode: Mode)

  /** The accesses a task declares when it is inserted. */
  function Accesses(t: Task): seq<Access> {
    match t
    case Gemm(_, _, _, _, _, _, a, b, _, c) =>
      [Access(a, R), Access(b, R), Access(c, if WriteOnly(t) then W else RW)]
    case Symm(_, _, _, _, _, a, b, _, c) => [Access(a, R), Access(b, R), Access(c, RW)]
    case Syrk(_, _, _, _, _, a, _, c) => [Access(a, R), Access(c, if WriteOnly(t) then W else RW)]
    case _ => [Access(t.a, R), Access(t.b, RW)]
  }

  /** What is declared of the operands and of the output: only a dropped C of gemm or syrk is write-only. */
  lemma DeclaredModes(t: Task)
    ensures Access(t.a, R) in Accesses(t) && (t.Gemm? || t.Symm? ==> Access(t.b, R) in Accesses(t))
    ensures Access(if t.Trsm? || t.Trmm? then t.b else t.c,
                   if (t.Gemm? || t.Syrk?) && t.beta == ZERO then W else RW) in Accesses(t)
    ensures |Accesses(t)| == if t.Gemm? || t.Symm? then 3 else 2
  {
    var a := Accesses(t);
    assert a[0] in a && a[1] in a && a[|a| - 1] in a;
  }

  /** Two accesses to one tile may overlap in time only when both read. */
  predicate Concurrent(m: Mode, m': Mode) {
    m == R && m' == R
  }

  predicate Conflict(t: Task, u: Task) {
    exists x, y :: x in Accesses(t) && y in Accesses(u) && x.tile == y.tile && !Concurrent(x.mode, y.mode)
  }

  /** No extent exceeds the tile size. */
  predicate WellSized(nb: nat, t: Task) {
    nb > 0 && Rows(t) <= nb && t.n <= nb && Inner(t) <= nb
  }

  ghost predicate SameTile(nb: nat, s: Store, s': Store, t: Tile) {
    forall i, j :: 0 <= i < nb && 0 <= j < nb ==> At(nb, s', t, i, j) == At(nb, s, t, i, j)
  }

  /** s and s' agree on every tile the task declares it reads. */
  ghost predicate SameInputs(nb: nat, t: Task, s: Store, s': Store) {
    forall x :: x in Accesses(t) && x.mode != W ==> SameTile(nb, s, s', x.tile)
  }

  lemma TileOrder(nb: nat, m: nat, m': nat)
    requires m < m'
    ensures m * nb + nb <= m' * nb
  {
    var d := m' - m - 1;
    assert m' * nb == (m + 1 + d) * nb == m * nb + nb + d * nb;
  }

  lemma TilesDisjoint(nb: nat, m: nat, i: int, m': nat)
    requires 0 <= i < nb
    ensures 0 <= m * nb + i - m' * nb < nb ==> m == m'
  {
    if m < m' {
      TileOrder(nb, m, m');
    } else if m' < m {
      TileOrder(nb, m', m);
    }
  }

  // ----- Sums -----

  lemma {:induction false} SumSplit(nb: nat, t: Task, s: Store, x: Store, i: int, j: int, lo: int, mid: int, hi: int)
    requires lo <= mid <= hi
    ensures Sum(nb, t, s, x, i, j, lo, hi) == Add(Sum(nb, t, s, x, i, j, lo, mid), Sum(nb, t, s, x, i, j, mid, hi))
    decreases hi - mid
  {
    if mid < hi {
      SumSplit(nb, t, s, x, i, j, lo, mid, hi - 1);
      AddAssoc(Sum(nb, t, s, x, i, j, lo, mid), Sum(nb, t, s, x, i, j, mid, hi - 1), Term(nb, t, s, x, i, j, hi - 1));
    }
  }

  function TermFrom(nb: nat, t: Task, s: Store, x: Store, i: int, j: int, lo: int, d: int): Scalar {
    Term(nb, t, s, x, i, j, lo + d)
  }

  /** Two inner products agree when their terms do. */
  lemma {:induction false} SumMatch(nb: nat, t: Task, s: Store, x: Store, i: int, j: int, lo: int,
                                    u: Task, r: Store, y: Store, i': int, j': int, lo': int, n: nat)
    requires forall d :: 0 <= d < n ==>
               TermFrom(nb, t, s, x, i, j, lo, d) == TermFrom(nb, u, r, y, i', j', lo', d)
    ensures Sum(nb, t, s, x, i, j, lo, lo + n) == Sum(nb, u, r, y, i', j', lo', lo' + n)
  {
    if n > 0 {
      SumMatch(nb, t, s, x, i, j, lo, u, r, y, i', j', lo', n - 1);
      assert TermFrom(nb, t, s, x, i, j, lo, n - 1) == TermFrom(nb, u, r, y, i', j', lo', n - 1);
    }
  }

  lemma {:induction false} SumZero(nb: nat, t: Task, s: Store, x: Store, i: int, j: int, lo: int, hi: int)
    requires forall l :: lo <= l < hi ==> Term(nb, t, s, x, i, j, l) == ZERO
    ensures Sum(nb, t, s, x, i, j, lo, hi) == ZERO
    decreases hi - lo
  {
    if lo < hi {
      SumZero(nb, t, s, x, i, j, lo, hi - 1);
    }
  }

  // ----- A task only depends on what it declares -----

  lemma TermInputs(nb: nat, t: Task, s: Store, x: Store, r: Store, y: Store, i: int, j: int, l: int)
    requires WellSized(nb, t) && SameInputs(nb, t, s, r)
    requires t.Trsm? || t.Trmm? ==> SameTile(nb, x, y, t.b)
    requires 0 <= i < Rows(t) && 0 <= j < t.n && 0 <= l < Inner(t)
    ensures Term(nb, t, s, x, i, j, l) == Term(nb, t, r, y, i, j, l)
  {
    assert forall a :: a in Accesses(t) && a.mode == R ==> SameTile(nb, s, r, a.tile);
    assert Access(t.a, R) in Accesses(t);
    if t.Gemm? || t.Symm? {
      assert Access(t.b, R) in Accesses(t);
    }
  }

  lemma SumInputs(nb: nat, t: Task, s: Store, x: Store, r: Store, y: Store, i: int, j: int)
    requires WellSized(nb, t) && SameInputs(nb, t, s, r)
    requires t.Trsm? || t.Trmm? ==> SameTile(nb, x, y, t.b)
    requires 0 <= i < Rows(t) && 0 <= j < t.n
    ensures Sum(nb, t, s, x, i, j, 0, Inner(t)) == Sum(nb, t, r, y, i, j, 0, Inner(t))
  {
    forall d | 0 <= d < Inner(t)
      ensures TermFrom(nb, t, s, x, i, j, 0, d) == TermFrom(nb, t, r, y, i, j, 0, d)
    {
      TermInputs(nb, t, s, x, r, y, i, j, d);
    }
    SumMatch(nb, t, s, x, i, j, 0, t, r, y, i, j, 0, Inner(t));
  }

  /** The result of t in s', grafted onto another store r. */
  function Graft(nb: nat, t: Task, s': Store, r: Store): Store {
    (x, i, j) => if Touches(nb, t, x, i, j) then s'(x, i, j) else r(x, i, j)
  }

  /** A step can be replayed from any store that agrees on the inputs, with the same output. */
  lemma Replay(nb: nat, t: Task, s: Store, s': Store, r: Store)
    requires WellSized(nb, t) && Step(nb, t, s, s') && SameInputs(nb, t, s, r)
    ensures Step(nb, t, r, Graft(nb, t, s', r))
  {
    var r' := Graft(nb, t, s', r);
    forall i, j | Written(t, i, j)
      ensures Computes(nb, t, r, r', i, j)
    {
      assert Computes(nb, t, s, s', i, j);
      ReplayAt(nb, t, s, s', r, i, j);
    }
  }

  lemma ReplayAt(nb: nat, t: Task, s: Store, s': Store, r: Store, i: int, j: int)
    requires WellSized(nb, t) && Step(nb, t, s, s') && SameInputs(nb, t, s, r)
    requires Written(t, i, j)
    ensures Computes(nb, t, r, Graft(nb, t, s', r), i, j)
  {
    hide Add, Mul, Sum;
    var r' := Graft(nb, t, s', r);
    assert Touches(nb, t, Out(t).mat, Out(t).m * nb + i, Out(t).n * nb + j);
    assert At(nb, r', Out(t), i, j) == At(nb, s', Out(t), i, j);
    var own := Access(Out(t), if WriteOnly(t) then W else RW);
    assert own in Accesses(t);
    if own.mode == RW {
      assert SameTile(nb, s, r, Out(t));
      if t.Trsm? {
        GraftTile(nb, t, s, s', r);
        SumInputs(nb, t, s, s', r, r', i, j);
      } else {
        SumInputs(nb, t, s, s, r, r, i, j);
      }
    } else {
      SumInputs(nb, t, s, s, r, r, i, j);
      MulZero(At(nb, s, Out(t), i, j));
      MulZero(At(nb, r, Out(t), i, j));
    }
  }

  lemma GraftTile(nb: nat, t: Task, s: Store, s': Store, r: Store)
    requires Unchanged(nb, t, s, s') && SameTile(nb, s, r, Out(t))
    ensures SameTile(nb, s', Graft(nb, t, s', r), Out(t))
  {
    forall i, j | 0 <= i < nb && 0 <= j < nb
      ensures At(nb, Graft(nb, t, s', r), Out(t), i, j) == At(nb, s', Out(t), i, j)
    {
      assert At(nb, r, Out(t), i, j) == At(nb, s, Out(t), i, j);
    }
  }

  // ----- A write-only tile is refilled -----

  /** s0 is s with anything in the output tile of a task that declares it write-only. */
  ghost predicate Refilled(nb: nat, t: Task, s: Store, s0: Store) {
    forall x, i, j :: !(WriteOnly(t) && Touches(nb, t, x, i, j)) ==> s0(x, i, j) == s(x, i, j)
  }

  /** The task reads no tile that it declares write-only. */
  predicate ReadsApart(t: Task) {
    WriteOnly(t) ==> forall a :: a in Accesses(t) && a.mode == R ==> a.tile != Out(t)
  }

  lemma RefilledInputs(nb: nat, t: Task, s: Store, s0: Store)
    requires WellSized(nb, t) && ReadsApart(t) && Refilled(nb, t, s, s0)
    ensures SameInputs(nb, t, s, s0)
  {
    forall a, i, j | a in Accesses(t) && a.mode != W && 0 <= i < nb && 0 <= j < nb
      ensures At(nb, s0, a.tile, i, j) == At(nb, s, a.tile, i, j)
    {
      TilesDisjoint(nb, a.tile.m, i, Out(t).m);
      TilesDisjoint(nb, a.tile.n, j, Out(t).n);
    }
  }

  lemma RefilledComputes(nb: nat, t: Task, s: Store, s0: Store, s': Store, i: int, j: int)
    requires WellSized(nb, t) && WriteOnly(t) && ReadsApart(t) && Refilled(nb, t, s, s0) && Written(t, i, j)
    ensures Computes(nb, t, s, s', i, j) <==> Computes(nb, t, s0, s', i, j)
  {
    RefilledInputs(nb, t, s, s0);
    hide Add, Mul, Sum, Refilled, ReadsApart;
    SumInputs(nb, t, s, s, s0, s0, i, j);
    MulZero(At(nb, s, t.c, i, j));
    MulZero(At(nb, s0, t.c, i, j));
  }

  /** A task runs as its kernel does from some refilled store. */
  lemma StepRefills(nb: nat, t: Task, s: Store, s': Store)
    requires WellSized(nb, t) && ReadsApart(t)
    ensures Step(nb, t, s, s') <==> exists s0: Store :: Refilled(nb, t, s, s0) && Kernel(nb, t, s0, s')
  {
    hide Computes;
    if Step(nb, t, s, s') {
      var s0: Store := (x, i, j) => if WriteOnly(t) && Touches(nb, t, x, i, j) then s'(x, i, j) else s(x, i, j);
      assert Refilled(nb, t, s, s0);
      if WriteOnly(t) {
        forall i, j | Written(t, i, j)
          ensures Computes(nb, t, s0, s', i, j)
        {
          RefilledComputes(nb, t, s, s0, s', i, j);
        }
        assert Kernel(nb, t, s0, s');
      } else {
        assert Kernel(nb, t, s, s') && Refilled(nb, t, s, s);
      }
    }
    if s0: Store :| Refilled(nb, t, s, s0) && Kernel(nb, t, s0, s') {
      KernelSteps(nb, t, s, s0, s');
    }
  }

  lemma KernelSteps(nb: nat, t: Task, s: Store, s0: Store, s': Store)
    requires WellSized(nb, t) && ReadsApart(t) && Refilled(nb, t, s, s0) && Kernel(nb, t, s0, s')
    ensures Step(nb, t, s, s')
  {
    hide Computes;
    forall i, j | Written(t, i, j)
      ensures Computes(nb, t, s, s', i, j)
    {
      if WriteOnly(t) {
        RefilledComputes(nb, t, s, s0, s', i, j);
      } else {
        SameComputes(nb, t, s0, s, s', i, j);
      }
    }
  }

  /** Only the elements of the first store matter. */
  lemma SameComputes(nb: nat, t: Task, s: Store, r: Store, s': Store, i: int, j: int)
    requires Computes(nb, t, s, s', i, j) && forall x, p, q :: r(x, p, q) == s(x, p, q)
    ensures Computes(nb, t, r, s', i, j)
  {
    var x, y := if t.Trsm? then s' else s, if t.Trsm? then s' else r;
    SameSums(nb, t, s, r, x, y, i, j);
    hide Sum, Mul, Add, Term;
  }

  lemma SameSums(nb: nat, t: Task, s: Store, r: Store, x: Store, y: Store, i: int, j: int)
    requires forall z, p, q :: r(z, p, q) == s(z, p, q) && y(z, p, q) == x(z, p, q)
    ensures Sum(nb, t, s, x, i, j, 0, Inner(t)) == Sum(nb, t, r, y, i, j, 0, Inner(t))
  {
    forall d | 0 <= d < Inner(t)
      ensures TermFrom(nb, t, s, x, i, j, 0, d) == TermFrom(nb, t, r, y, i, j, 0, d)
    {
      hide Mul;
    }
    SumMatch(nb, t, s, x, i, j, 0, t, r, y, i, j, 0, Inner(t));
  }
}
