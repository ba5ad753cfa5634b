/**
 Triangular solves and products, tile by tile: the tasks that blas/ztrsm.c and
 blas/ztrmm.c emit for one strip of B, and the bookkeeping of their loops.
 */
module Triangular {
  import opened Complex
  import opened TileTasks
  import opened Schedules
  import opened Strips

  const MINUS_ONE := Neg(ONE)

  datatype Operation = DoSolve | DoMultiply

  /** One call: B is rows x cols; minv is the caller's -1/alpha, which only solves use. */
  datatype Problem = Problem(op: Operation, side: Side, uplo: Uplo, trans: Trans, diag: Diag, rows: nat, cols: nat,
                             alpha: Scalar, minv: Scalar, nb: nat)
  {
    /** The order of A: the dimension of B along which the algorithm advances. */
    function Order(): nat { if side == Left then rows else cols }

    /** The other dimension of B; its tiles are independent of each other. */
    function Other(): nat { if side == Left then cols else rows }

    function T(): nat requires nb > 0 { Tiles(Order(), nb) }
    function Q(): nat requires nb > 0 { Tiles(Other(), nb) }

    /** Does (i, j) of the result depend on the rows (or columns) of B from i (or j) upwards? */
    predicate UpperLike() { (side == Left) == ((uplo == Upper) == (trans == NoTrans)) }

    /** Solves start where nothing is unknown, products where nothing is needed any more. */
    predicate Descending() { (op == DoSolve) == UpperLike() }

    /** The two solves that scale every tile by alpha and every update by -1/alpha. */
    predicate UsesInverse() { side == Right && trans != NoTrans }

    predicate Shaped() { nb > 0 && rows > 0 && cols > 0 }

    /** minv is the inverse of alpha wherever an update is scaled by it. */
    predicate Valid() { Shaped() && (UsesInverse() && T() > 1 ==> Mul(alpha, minv) == MINUS_ONE) }

    /** The tile of step k. */
    function Block(k: nat): nat
      requires nb > 0 && k < T()
    {
      if Descending() then T() - 1 - k else k
    }

    /** The step of tile x. */
    function StepOf(x: nat): nat
      requires nb > 0 && x < T()
    {
      if Descending() then T() - 1 - x else x
    }

    function BTile(x: nat, q: nat): Tile {
      if side == Left then Tile(MatB, x, q) else Tile(MatB, q, x)
    }

    function Scale(k: nat): Scalar { if UsesInverse() || k == 0 then alpha else ONE }

    /** The tile of A that couples tile x of B to tile y of the result. */
    function ATile(y: nat, x: nat): Tile {
      if (side == Left) == (trans == NoTrans) then Tile(MatA, y, x) else Tile(MatA, x, y)
    }

    /** The whole-matrix operation. */
    function Whole(): Task {
      if op == DoSolve
      then Trsm(side, uplo, trans, diag, rows, cols, alpha, Tile(MatA, 0, 0), Tile(MatB, 0, 0))
      else Trmm(side, uplo, trans, diag, rows, cols, alpha, Tile(MatA, 0, 0), Tile(MatB, 0, 0))
    }

    function StripOf(q: nat): Strip { if side == Left then Column(q) else Row(q) }

    /** The tile that the task at this stage of step k writes is the tile of step Target. */
    function Target(k: nat, stage: nat): nat { if op == DoSolve then k + stage else k }
  }

  /** The triangular task on the diagonal tile of step k. */
  function Diagonal(p: Problem, k: nat, q: nat): Task
    requires p.nb > 0 && k < p.T()
  {
    var x := p.Block(k);
    var e, f := Extent(p.Order(), p.nb, x), Extent(p.Other(), p.nb, q);
    var m, n := if p.side == Left then e else f, if p.side == Left then f else e;
    if p.op == DoSolve
    then Trsm(p.side, p.uplo, p.trans, p.diag, m, n, p.Scale(k), Tile(MatA, x, x), p.BTile(x, q))
    else Trmm(p.side, p.uplo, p.trans, p.diag, m, n, p.alpha, Tile(MatA, x, x), p.BTile(x, q))
  }

  /** Tile y of B += gamma * (tile x of B combined with its tile of A), after scaling by beta. */
  function Couple(p: Problem, x: nat, y: nat, q: nat, gamma: Scalar, beta: Scalar): Task
    requires p.nb > 0
  {
    var e, g, f := Extent(p.Order(), p.nb, x), Extent(p.Order(), p.nb, y), Extent(p.Other(), p.nb, q);
    if p.side == Left
    then Gemm(p.trans, NoTrans, g, f, e, gamma, p.ATile(y, x), p.BTile(x, q), beta, p.BTile(y, q))
    else Gemm(NoTrans, p.trans, f, g, e, gamma, p.BTile(x, q), p.ATile(y, x), beta, p.BTile(y, q))
  }

  /** A solve subtracts the contribution of the tile just solved from a tile still to be solved. */
  function Update(p: Problem, k: nat, m: nat, q: nat): Task
    requires p.nb > 0 && k < p.T() && m < p.T()
  {
    Couple(p, p.Block(k), p.Block(m), q,
           if p.UsesInverse() then p.minv else MINUS_ONE, if p.UsesInverse() then ONE else p.Scale(k))
  }

  /** The c-th tile, from 0, that a product adds to the tile of step k; it has not been overwritten yet. */
  function Source(p: Problem, k: nat, c: nat): nat
    requires p.nb > 0 && k < p.T()
  {
    if p.Descending() then c else p.Block(k) + 1 + c
  }

  function Accumulate(p: Problem, k: nat, c: nat, q: nat): Task
    requires p.nb > 0 && k < p.T()
  {
    Couple(p, Source(p, k, c), p.Block(k), q, p.alpha, ONE)
  }

  function Next(p: Problem, q: nat, k: nat, stage: nat): Task
    requires p.nb > 0 && k + stage < p.T()
  {
    if stage == 0 then Diagonal(p, k, q)
    else if p.op == DoSolve then Update(p, k, k + stage, q)
    else Accumulate(p, k, stage - 1, q)
  }

  /** The tasks of strip q before step k, then the first `stage` tasks of step k. */
  function StripTasks(p: Problem, q: nat, k: nat, stage: nat): seq<Task>
    requires p.nb > 0 && k + stage <= p.T()
    decreases k, stage
  {
    if stage > 0 then StripTasks(p, q, k, stage - 1) + [Next(p, q, k, stage - 1)]
    else if k == 0 then []
    else StripTasks(p, q, k - 1, p.T() - (k - 1))
  }

  /** The last task of a strip prefix. */
  lemma LastTask(p: Problem, q: nat, k: nat, stage: nat, s0: Store, s: Store) returns (mid: Store)
    requires p.nb > 0 && k + stage < p.T() && Run(p.nb, StripTasks(p, q, k, stage + 1), s0, s)
    ensures Run(p.nb, StripTasks(p, q, k, stage), s0, mid) && Step(p.nb, Next(p, q, k, stage), mid, s)
  {
    mid := RunUnsnoc(p.nb, StripTasks(p, q, k, stage), Next(p, q, k, stage), s0, s);
  }

  /** A prefix that starts a step is one that finished the step before it. */
  lemma StepBoundary(p: Problem, q: nat, k: nat)
    requires p.nb > 0 && k < p.T()
    ensures StripTasks(p, q, k + 1, 0) == StripTasks(p, q, k, p.T() - k)
    ensures StripTasks(p, q, 0, 0) == []
  {
  }

  // ----- Elements of a strip -----

  /** (i, j) lies in strip q, in the tile solved in step b. */
  predicate Elem(p: Problem, q: nat, i: int, j: int, b: nat)
    requires p.nb > 0
  {
    var r, c := if p.side == Left then i else j, if p.side == Left then j else i;
    && b < p.T()
    && Begin(p.Order(), p.nb, p.Block(b)) <= r < Begin(p.Order(), p.nb, p.Block(b) + 1)
    && Begin(p.Other(), p.nb, q) <= c < Begin(p.Other(), p.nb, q + 1)
  }

  /** Distinct steps work on disjoint rows. */
  lemma BlocksDisjoint(p: Problem, b: nat, b': nat, l: int)
    requires p.nb > 0 && b < p.T() && b' < p.T()
    requires Begin(p.Order(), p.nb, p.Block(b)) <= l < Begin(p.Order(), p.nb, p.Block(b) + 1)
    requires Begin(p.Order(), p.nb, p.Block(b')) <= l < Begin(p.Order(), p.nb, p.Block(b') + 1)
    ensures b == b'
  {
    if p.Block(b) < p.Block(b') {
      BeginMonotone(p.Order(), p.nb, p.Block(b) + 1, p.Block(b'));
    } else if p.Block(b') < p.Block(b) {
      BeginMonotone(p.Order(), p.nb, p.Block(b') + 1, p.Block(b));
    }
  }

  lemma NotElem(p: Problem, q: nat, i: int, j: int, b: nat, b': nat)
    requires p.nb > 0 && Elem(p, q, i, j, b) && b != b'
    ensures !Elem(p, q, i, j, b')
  {
    if Elem(p, q, i, j, b') {
      BlocksDisjoint(p, b, b', if p.side == Left then i else j);
    }
  }

  lemma NextShape(p: Problem, q: nat, k: nat, stage: nat)
    requires p.nb > 0 && k + stage < p.T()
    ensures var t, y := Next(p, q, k, stage), p.Block(p.Target(k, stage));
            var e, f := Extent(p.Order(), p.nb, y), Extent(p.Other(), p.nb, q);
            && !t.Syrk? && Out(t) == p.BTile(y, q)
            && Rows(t) == (if p.side == Left then e else f) && t.n == (if p.side == Left then f else e)
  {
    hide Extent, Tiles;
  }

  /** What a task of strip q writes: the elements of its tile. */
  lemma NextTouches(p: Problem, q: nat, k: nat, stage: nat, i: int, j: int)
    requires p.Shaped() && k + stage < p.T() && q < p.Q()
    ensures Touches(p.nb, Next(p, q, k, stage), MatB, i, j) <==> Elem(p, q, i, j, p.Target(k, stage))
    ensures Overwrites(p.nb, Next(p, q, k, stage), MatB, i, j) <==> Elem(p, q, i, j, p.Target(k, stage))
  {
    TilesCover(p.Order(), p.nb, p.Block(p.Target(k, stage)));
    TilesCover(p.Other(), p.nb, q);
    NextShape(p, q, k, stage);
    TouchesOverwrites(p.nb, Next(p, q, k, stage), MatB, i, j);
    hide Touches, Tiles, Begin, Extent, Next;
  }

  lemma OnlyItsTile(p: Problem, q: nat, k: nat, stage: nat, s: Store, s': Store)
    requires p.Shaped() && k + stage < p.T() && q < p.Q() && Step(p.nb, Next(p, q, k, stage), s, s')
    ensures forall i, j :: !Elem(p, q, i, j, p.Target(k, stage)) ==> BAt(s', i, j) == BAt(s, i, j)
    ensures forall x, i, j :: x != MatB ==> s'(x, i, j) == s(x, i, j)
  {
    hide Elem, Written, Computes;
    forall i, j | !Elem(p, q, i, j, p.Target(k, stage))
      ensures BAt(s', i, j) == BAt(s, i, j)
    {
      NextTouches(p, q, k, stage, i, j);
    }
  }

  function BAt(s: Store, i: int, j: int): Scalar { s(MatB, i, j) }

  // ----- Tile terms in whole-matrix coordinates -----

  lemma OffTriangle(p: Problem, s0: Store, s: Store, i: int, j: int, l: int)
    requires p.nb > 0
    requires var r := if p.side == Left then i else j; if p.UpperLike() then l < r else r < l
    ensures Term(p.nb, p.Whole(), s0, s, i, j, l) == ZERO
  {
    var w := p.Whole();
    if p.side == Left {
      assert OpTriAt(p.nb, s0, p.trans, p.uplo, p.diag, w.a, i, l) == ZERO;
      MulZero(At(p.nb, s, w.b, l, j));
    } else {
      assert OpTriAt(p.nb, s0, p.trans, p.uplo, p.diag, w.a, l, j) == ZERO;
      MulZero(At(p.nb, s, w.b, i, l));
    }
  }

  ghost predicate SameA(s0: Store, s: Store) {
    forall x, i, j :: x != MatB ==> s(x, i, j) == s0(x, i, j)
  }

  lemma DiagonalTile(nb: nat, s0: Store, s: Store, trans: Trans, uplo: Uplo, diag: Diag, x: nat, i: int, l: int)
    requires SameA(s0, s)
    ensures OpTriAt(nb, s, trans, uplo, diag, Tile(MatA, x, x), i, l) ==
            OpTriAt(nb, s0, trans, uplo, diag, Tile(MatA, 0, 0), x * nb + i, x * nb + l)
  {
  }

  /** Off the diagonal, a stored tile of A is a tile of the triangular matrix. */
  lemma OffDiagonalTile(nb: nat, s0: Store, s: Store, trans: Trans, uplo: Uplo, diag: Diag,
                        x: nat, y: nat, i: int, l: int)
    requires SameA(s0, s) && 0 <= i < nb && 0 <= l < nb
    requires x != y && (x < y <==> ((uplo == Upper) == (trans == NoTrans)))
    ensures OpAt(nb, s, trans, if trans == NoTrans then Tile(MatA, x, y) else Tile(MatA, y, x), i, l) ==
            OpTriAt(nb, s0, trans, uplo, diag, Tile(MatA, 0, 0), x * nb + i, y * nb + l)
  {
    if x < y {
      TileOrder(nb, x, y);
    } else {
      TileOrder(nb, y, x);
    }
  }

  lemma DiagonalTerm(p: Problem, q: nat, k: nat, s0: Store, s: Store, s': Store, i: int, j: int, d: int)
    requires p.Shaped() && k < p.T() && SameA(s0, s)
    ensures var t, x := Diagonal(p, k, q), p.Block(k);
            TermFrom(p.nb, t, s, s', i, j, 0, d) ==
            TermFrom(p.nb, p.Whole(), s0, s', t.b.m * p.nb + i, t.b.n * p.nb + j, x * p.nb, d)
  {
    hide Mul, OpTriAt;
    var x := p.Block(k);
    if p.side == Left {
      DiagonalTile(p.nb, s0, s, p.trans, p.uplo, p.diag, x, i, d);
    } else {
      DiagonalTile(p.nb, s0, s, p.trans, p.uplo, p.diag, x, d, j);
    }
  }

  lemma DiagonalSum(p: Problem, q: nat, k: nat, s0: Store, s: Store, s': Store, i: int, j: int)
    requires p.Shaped() && k < p.T() && SameA(s0, s)
    ensures var x, t := p.Block(k), Diagonal(p, k, q);
            Sum(p.nb, t, s, s', i - t.b.m * p.nb, j - t.b.n * p.nb, 0, Inner(t)) ==
            Sum(p.nb, p.Whole(), s0, s', i, j, Begin(p.Order(), p.nb, x), Begin(p.Order(), p.nb, x + 1))
  {
    hide Mul, Term, Sum, SameA;
    var nb, x, t, w := p.nb, p.Block(k), Diagonal(p, k, q), p.Whole();
    TilesCover(p.Order(), nb, x);
    var i', j' := i - t.b.m * nb, j - t.b.n * nb;
    forall d | 0 <= d < Inner(t)
      ensures TermFrom(nb, t, s, s', i', j', 0, d) == TermFrom(nb, w, s0, s', i, j, x * nb, d)
    {
      DiagonalTerm(p, q, k, s0, s, s', i', j', d);
    }
    SumMatch(nb, t, s, s', i', j', 0, w, s0, s', i, j, x * nb, Inner(t));
  }

  lemma CoupleTerm(p: Problem, q: nat, x: nat, y: nat, gamma: Scalar, beta: Scalar,
                   s0: Store, s: Store, i: int, j: int, d: int)
    requires p.Shaped() && SameA(s0, s) && x != y && (y < x <==> p.UpperLike())
    requires 0 <= d < p.nb && 0 <= i < p.nb && 0 <= j < p.nb
    ensures var t := Couple(p, x, y, q, gamma, beta);
            TermFrom(p.nb, t, s, s, i, j, 0, d) ==
            TermFrom(p.nb, p.Whole(), s0, s, t.c.m * p.nb + i, t.c.n * p.nb + j, x * p.nb, d)
  {
    hide Mul, OpTriAt;
    if p.side == Left {
      OffDiagonalTile(p.nb, s0, s, p.trans, p.uplo, p.diag, y, x, i, d);
    } else {
      OffDiagonalTile(p.nb, s0, s, p.trans, p.uplo, p.diag, x, y, d, j);
    }
  }

  /** What a coupling adds, read in whole-matrix coordinates: the contribution of tile x. */
  lemma CoupleSum(p: Problem, q: nat, x: nat, y: nat, gamma: Scalar, beta: Scalar,
                  s0: Store, s: Store, i: int, j: int)
    requires p.Shaped() && SameA(s0, s) && x < p.T() && y < p.T() && q < p.Q()
    requires x != y && (y < x <==> p.UpperLike())
    requires Elem(p, q, i, j, p.StepOf(y))
    ensures var t := Couple(p, x, y, q, gamma, beta);
            Sum(p.nb, t, s, s, i - t.c.m * p.nb, j - t.c.n * p.nb, 0, Inner(t)) ==
            Sum(p.nb, p.Whole(), s0, s, i, j, Begin(p.Order(), p.nb, x), Begin(p.Order(), p.nb, x + 1))
  {
    hide Mul, Term, Sum, SameA;
    var n, nb, t, w := p.Order(), p.nb, Couple(p, x, y, q, gamma, beta), p.Whole();
    TilesCover(n, nb, x);
    TilesCover(n, nb, y);
    TilesCover(p.Other(), nb, q);
    var i', j' := i - t.c.m * nb, j - t.c.n * nb;
    forall d | 0 <= d < Inner(t)
      ensures TermFrom(nb, t, s, s, i', j', 0, d) == TermFrom(nb, w, s0, s, i, j, x * nb, d)
    {
      CoupleTerm(p, q, x, y, gamma, beta, s0, s, i', j', d);
    }
    SumMatch(nb, t, s, s, i', j', 0, w, s0, s, i, j, x * nb, Inner(t));
  }

  // ----- Task lists made of strips -----

  /** Every strip of the list is the strip above, and nothing else is written. */
  ghost predicate Emits(p: Problem, tasks: seq<Task>)
    requires p.nb > 0
  {
    && AllWellSized(p.nb, tasks)
    && (forall q :: 0 <= q < p.Q() ==>
          AllConfined(MatB, p.StripOf(q), tasks) && Kept(tasks, p.StripOf(q)) == StripTasks(p, q, p.T(), 0))
    && (forall t, x, i, j :: t in tasks && Touches(p.nb, t, x, i, j) ==> Overwrites(p.nb, p.Whole(), x, i, j))
    && (forall t :: t in tasks ==> Anchored(p, t))
  }

  /** Triangular tasks use diagonal tiles of A; every task writes B. */
  predicate Anchored(p: Problem, t: Task) {
    && Out(t).mat == MatB && (t.Gemm? || (if p.op == DoSolve then t.Trsm? else t.Trmm?))
    && (t.Trsm? ==> t.a.mat == MatA && t.a.m == t.a.n && t.diag == p.diag && t.a.m * p.nb + Inner(t) <= p.Order())
  }

  lemma NextAnchored(p: Problem, q: nat, k: nat, stage: nat)
    requires p.Shaped() && q < p.Q() && k + stage < p.T()
    ensures Anchored(p, Next(p, q, k, stage))
  {
    TilesCover(p.Order(), p.nb, p.Block(k));
  }

  // ----- How far each strip has got -----

  /** Strips before `split` have emitted hi tasks of the current step, strip `split` cur, later strips lo. */
  function Stage(q: nat, split: nat, hi: nat, cur: nat, lo: nat): nat {
    if q < split then hi else if q == split then cur else lo
  }

  ghost predicate StaysInside(p: Problem, t: Task)
    requires p.nb > 0
  {
    && WellSized(p.nb, t) && Anchored(p, t)
    && (forall q :: 0 <= q < p.Q() ==> Confined(MatB, p.StripOf(q), t))
    && (forall x, i, j :: Touches(p.nb, t, x, i, j) ==> Overwrites(p.nb, p.Whole(), x, i, j))
  }

  ghost predicate Emitted(p: Problem, tasks: seq<Task>, k: nat, split: nat, hi: nat, cur: nat, lo: nat)
  {
    && p.Shaped()
    && k + hi <= p.T() && k + cur <= p.T() && k + lo <= p.T()
    && (forall t :: t in tasks ==> StaysInside(p, t))
    && (forall q :: 0 <= q < p.Q() ==>
          Kept(tasks, p.StripOf(q)) == StripTasks(p, q, k, Stage(q, split, hi, cur, lo)))
  }

  lemma NextStaysInside(p: Problem, q: nat, k: nat, stage: nat)
    requires p.Shaped() && q < p.Q() && k + stage < p.T()
    ensures StaysInside(p, Next(p, q, k, stage))
    ensures InStrip(p.StripOf(q), Out(Next(p, q, k, stage)))
    ensures forall q' :: 0 <= q' < p.Q() && q' != q ==> !InStrip(p.StripOf(q'), Out(Next(p, q, k, stage)))
  {
    hide Extent, Touches, Anchored;
    var t := Next(p, q, k, stage);
    NextAnchored(p, q, k, stage);
    forall x, i, j | Touches(p.nb, t, x, i, j)
      ensures Overwrites(p.nb, p.Whole(), x, i, j)
    {
      InsideWhole(p, q, k, stage, x, i, j);
    }
  }

  lemma InsideWhole(p: Problem, q: nat, k: nat, stage: nat, x: Matrix, i: int, j: int)
    requires p.Shaped() && q < p.Q() && k + stage < p.T() && Touches(p.nb, Next(p, q, k, stage), x, i, j)
    ensures Overwrites(p.nb, p.Whole(), x, i, j)
  {
    assert x == MatB;
    NextTouches(p, q, k, stage, i, j);
  }

  /** Emitting the next task of strip `split`. */
  lemma Emit(p: Problem, tasks: seq<Task>, k: nat, split: nat, hi: nat, cur: nat, lo: nat)
    requires Emitted(p, tasks, k, split, hi, cur, lo) && split < p.Q() && k + cur < p.T()
    ensures Emitted(p, tasks + [Next(p, split, k, cur)], k, split, hi, cur + 1, lo)
  {
    hide StaysInside, Touches, Next;
    var t := Next(p, split, k, cur);
    NextStaysInside(p, split, k, cur);
    forall q | 0 <= q < p.Q()
      ensures Kept(tasks + [t], p.StripOf(q)) == StripTasks(p, q, k, Stage(q, split, hi, cur + 1, lo))
    {
      KeptSnoc(tasks, t, p.StripOf(q));
    }
  }

  /** A pass over the strips that will bring each of them to hi. */
  lemma Aim(p: Problem, tasks: seq<Task>, k: nat, hi: nat, lo: nat)
    requires Emitted(p, tasks, k, 0, lo, lo, lo) && k + hi <= p.T()
    ensures Emitted(p, tasks, k, 0, hi, lo, lo)
  {
    hide StaysInside, Kept;
    forall q: nat
      ensures Stage(q, 0, lo, lo, lo) == Stage(q, 0, hi, lo, lo)
    {
    }
  }

  /** The same progress with the cursor moved to the next strip. */
  lemma NextStrip(p: Problem, tasks: seq<Task>, k: nat, split: nat, hi: nat, lo: nat)
    requires Emitted(p, tasks, k, split, hi, hi, lo) && k + lo <= p.T()
    ensures Emitted(p, tasks, k, split + 1, hi, lo, lo)
  {
    hide StaysInside, Kept;
    forall q | 0 <= q < p.Q()
      ensures Stage(q, split, hi, hi, lo) == Stage(q, split + 1, hi, lo, lo)
    {
    }
  }

  /** Once every strip has reached hi, the cursor may restart from the first strip. */
  lemma Rewind(p: Problem, tasks: seq<Task>, k: nat, split: nat, hi: nat, cur: nat, lo: nat)
    requires Emitted(p, tasks, k, split, hi, cur, lo) && split >= p.Q()
    ensures Emitted(p, tasks, k, 0, hi, hi, hi)
  {
    hide StaysInside, Kept;
    forall q | 0 <= q < p.Q()
      ensures Stage(q, split, hi, cur, lo) == Stage(q, 0, hi, hi, hi)
    {
    }
  }

  /** A finished step is the start of the next one. */
  lemma NextStep(p: Problem, tasks: seq<Task>, k: nat)
    requires p.Shaped() && k < p.T() && Emitted(p, tasks, k, 0, p.T() - k, p.T() - k, p.T() - k)
    ensures Emitted(p, tasks, k + 1, 0, 0, 0, 0)
  {
    hide StaysInside, Kept;
    forall q | 0 <= q < p.Q()
      ensures StripTasks(p, q, k + 1, Stage(q, 0, 0, 0, 0)) == StripTasks(p, q, k, p.T() - k)
    {
    }
  }

  lemma Start(p: Problem)
    requires p.Shaped()
    ensures Emitted(p, [], 0, 0, 0, 0, 0)
  {
  }

  lemma Finished(p: Problem, tasks: seq<Task>)
    requires p.Shaped() && Emitted(p, tasks, p.T(), 0, 0, 0, 0)
    ensures Emits(p, tasks)
  {
  }

  /** The extents the loops compute are those of the tiles they name. */
  lemma Extents(p: Problem, x: nat, q: nat)
    requires p.Shaped()
    ensures x < p.T() ==> Extent(p.Order(), p.nb, x) ==
                          if x == p.T() - 1 then p.Order() - x * p.nb else p.nb
    ensures q < p.Q() ==> Extent(p.Other(), p.nb, q) ==
                          if q == p.Q() - 1 then p.Other() - q * p.nb else p.nb
  {
    TilesCover(p.Order(), p.nb, x);
    TilesCover(p.Other(), p.nb, q);
  }
}
