/**
 The two solves that scale by -1/alpha, with alpha = 0: every tile is itself solved with
 alpha = 0, so a regular operand gives X = 0 whatever the quotient -1/alpha is.
 */
module ZeroSolve {
  import opened Complex
  import opened TileTasks
  import opened Schedules
  import opened Strips
  import opened Triangular
  import opened SolveExact
  import Solvable

  /** Zeros meet the contract of a solve with alpha = 0. */
  lemma ZeroComputes(nb: nat, t: Task, s: Store, z: Store, i: int, j: int)
    requires t.Trsm? && t.alpha == ZERO && Written(t, i, j)
    requires forall i', j' :: Written(t, i', j') ==> At(nb, z, t.b, i', j') == ZERO
    ensures Computes(nb, t, s, z, i, j)
  {
    hide Sum, Mul, Term;
    forall l | 0 <= l < Inner(t)
      ensures Term(nb, t, s, z, i, j, l) == ZERO
    {
      Solvable.TermIs(nb, t, s, z, i, j, l);
      assert Written(t, if t.side == Left then l else i, if t.side == Left then j else l);
      MulZero(Solvable.Coef(nb, t, s, Solvable.Row(t, i, j), l));
    }
    SumZero(nb, t, s, z, i, j, 0, Inner(t));
    MulZero(At(nb, s, t.b, i, j));
  }

  /** A solve with alpha = 0 and a nonsingular operand clears its tile. */
  lemma SolveClears(nb: nat, t: Task, s: Store, s': Store, i: int, j: int)
    requires t.Trsm? && t.alpha == ZERO && Solvable.Nonsingular(nb, t, s) && Step(nb, t, s, s')
    requires Overwrites(nb, t, t.b.mat, i, j)
    ensures s'(t.b.mat, i, j) == ZERO
  {
    hide Solvable.Nonsingular, Step, Overwrites;
    var z := Zeros(nb, t, s);
    ZerosStep(nb, t, s);
    Solvable.SolutionUnique(nb, t, s, s', z);
  }

  /** The store in which the kernel of a task has written zeros. */
  function Zeros(nb: nat, t: Task, s: Store): Store {
    (x: Matrix, i: int, j: int) => if Overwrites(nb, t, x, i, j) then ZERO else s(x, i, j)
  }

  lemma ZerosStep(nb: nat, t: Task, s: Store)
    requires t.Trsm? && t.alpha == ZERO
    ensures Step(nb, t, s, Zeros(nb, t, s))
  {
    hide Computes;
    var z := Zeros(nb, t, s);
    forall i, j | Written(t, i, j)
      ensures At(nb, z, t.b, i, j) == ZERO
    {
      WrittenPlace(nb, t, i, j);
    }
    forall i, j | Written(t, i, j)
      ensures Computes(nb, t, s, z, i, j)
    {
      ZeroComputes(nb, t, s, z, i, j);
    }
    assert Kernel(nb, t, s, z);
    StepIsKernel(nb, t, s, z);
  }

  lemma WrittenPlace(nb: nat, t: Task, i: int, j: int)
    requires t.Trsm? && Written(t, i, j)
    ensures Overwrites(nb, t, t.b.mat, t.b.m * nb + i, t.b.n * nb + j)
  {
  }

  /** After `stage` tasks of step k, the tiles solved so far are zero. */
  ghost predicate Cleared(p: Problem, q: nat, k: nat, stage: nat, s0: Store, s: Store)
    requires p.nb > 0
  {
    && SameA(s0, s)
    && forall i, j, b: nat :: Elem(p, q, i, j, b) && (b < k || (b == k && stage > 0)) ==> BAt(s, i, j) == ZERO
  }

  /** Such a call, with any quotient. */
  ghost predicate ZeroCall(p: Problem, s: Store) {
    p.Shaped() && p.op == DoSolve && p.UsesInverse() && p.alpha == ZERO && Regular(p, s)
  }

  lemma DiagonalClears(p: Problem, q: nat, k: nat, s0: Store, s: Store, s': Store, i: int, j: int)
    requires ZeroCall(p, s0) && k < p.T() && q < p.Q() && SameA(s0, s) && Elem(p, q, i, j, k)
    requires Step(p.nb, Diagonal(p, k, q), s, s')
    ensures BAt(s', i, j) == ZERO
  {
    var t := Diagonal(p, k, q);
    assert t.Trsm? && t.alpha == ZERO && t.b.mat == MatB;
    hide Step, Elem, Overwrites, Diagonal, Regular, SameA;
    NextTouches(p, q, k, 0, i, j);
    NextAnchored(p, q, k, 0);
    DiagonalTileRegular(p, t, s0, s);
    SolveClears(p.nb, t, s, s', i, j);
  }

  lemma NextClears(p: Problem, q: nat, k: nat, stage: nat, s0: Store, s: Store, s': Store)
    requires ZeroCall(p, s0) && k + stage < p.T() && q < p.Q()
    requires Cleared(p, q, k, stage, s0, s) && Step(p.nb, Next(p, q, k, stage), s, s')
    ensures Cleared(p, q, k, stage + 1, s0, s')
  {
    hide Step, Elem, Regular;
    OnlyItsTile(p, q, k, stage, s, s');
    forall i, j, b: nat | Elem(p, q, i, j, b) && b <= k
      ensures BAt(s', i, j) == ZERO
    {
      if b == k && stage == 0 {
        DiagonalClears(p, q, k, s0, s, s', i, j);
      } else {
        NotElem(p, q, i, j, b, k + stage);
      }
    }
  }

  lemma StripStarts(p: Problem, q: nat, s0: Store, s: Store)
    requires p.nb > 0 && Run(p.nb, StripTasks(p, q, 0, 0), s0, s)
    ensures SameA(s0, s)
  {
  }

  /** The tiles of a strip are cleared one after the other. */
  lemma {:induction false} StripClears(p: Problem, q: nat, k: nat, stage: nat, s0: Store, s: Store)
    requires ZeroCall(p, s0) && q < p.Q() && k + stage <= p.T() && Run(p.nb, StripTasks(p, q, k, stage), s0, s)
    ensures Cleared(p, q, k, stage, s0, s)
    decreases k, stage
  {
    hide Regular, Elem, Run, Tiles, SameA, StripTasks;
    if stage > 0 {
      hide Cleared;
      var mid := LastTask(p, q, k, stage - 1, s0, s);
      StripClears(p, q, k, stage - 1, s0, mid);
      NextClears(p, q, k, stage - 1, s0, mid, s);
    } else if k == 0 {
      StripStarts(p, q, s0, s);
    } else {
      StepBoundary(p, q, k - 1);
      StripClears(p, q, k - 1, p.T() - (k - 1), s0, s);
    }
  }

  lemma AllCleared(p: Problem, tasks: seq<Task>, s0: Store, s: Store, i: int, j: int)
    requires ZeroCall(p, s0) && Emits(p, tasks) && Run(p.nb, tasks, s0, s) && Written(p.Whole(), i, j)
    ensures BAt(s, i, j) == ZERO
  {
    hide Run, Kept, AllConfined, AllWellSized, Begin, Regular;
    var q := TileOf(p.Other(), p.nb, if p.side == Left then j else i);
    var y := Project(p.nb, MatB, p.StripOf(q), tasks, s0, s);
    StripClears(p, q, p.T(), 0, s0, y);
    var x := TileOf(p.Order(), p.nb, if p.side == Left then i else j);
    var b := if p.Descending() then p.T() - 1 - x else x;
    assert Elem(p, q, i, j, b);
  }

  lemma TiledZero(p: Problem, tasks: seq<Task>, s0: Store, s: Store)
    requires ZeroCall(p, s0) && Emits(p, tasks) && Run(p.nb, tasks, s0, s)
    ensures Kernel(p.nb, p.Whole(), s0, s)
  {
    hide Computes, Kept, Run, Regular;
    forall i, j | Written(p.Whole(), i, j)
      ensures At(p.nb, s, p.Whole().b, i, j) == ZERO
    {
      AllCleared(p, tasks, s0, s, i, j);
    }
    forall i, j | Written(p.Whole(), i, j)
      ensures Computes(p.nb, p.Whole(), s0, s, i, j)
    {
      ZeroComputes(p.nb, p.Whole(), s0, s, i, j);
    }
    forall x, i, j | !Overwrites(p.nb, p.Whole(), x, i, j)
      ensures s(x, i, j) == s0(x, i, j)
    {
      RunUntouched(p.nb, tasks, s0, s, x, i, j);
    }
  }

  /** With alpha = 0 and a regular operand the list is equivalent to the whole solve, for every quotient. */
  lemma ZeroExact(p: Problem, tasks: seq<Task>, s: Store, s': Store)
    requires ZeroCall(p, s) && Emits(p, tasks)
    ensures Run(p.nb, tasks, s, s') <==> Kernel(p.nb, p.Whole(), s, s')
  {
    var r := RunExists(p, tasks, s);
    hide Run, Emits, Regular;
    TiledZero(p, tasks, s, r);
    if Run(p.nb, tasks, s, s') {
      TiledZero(p, tasks, s, s');
    }
    if Kernel(p.nb, p.Whole(), s, s') {
      UniqueReached(p, tasks, s, r, s');
    }
  }
}
