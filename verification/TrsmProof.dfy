/**
 Tiled triangular solve: a task list made of the strips of Triangular solves
 op(A) X = alpha B, or X op(A) = alpha B, over the whole matrix.
 */
module TrsmProof {
  import opened Complex
  import opened TileTasks
  import opened Schedules
  import opened Strips
  import opened Triangular

  /** The rows of X known after c steps: [Lo(c), Hi(c)). */
  function Lo(p: Problem, c: nat): nat
    requires p.nb > 0 && c <= p.T()
  {
    if p.Descending() then Begin(p.Order(), p.nb, p.T() - c) else 0
  }

  function Hi(p: Problem, c: nat): nat
    requires p.nb > 0 && c <= p.T()
  {
    if p.Descending() then p.Order() else Begin(p.Order(), p.nb, c)
  }

  /** The part of (op(A) X)(i, j), or (X op(A))(i, j), that the first c steps contribute. */
  function Known(p: Problem, s0: Store, s: Store, i: int, j: int, c: nat): Scalar
    requires p.nb > 0 && c <= p.T()
  {
    Sum(p.nb, p.Whole(), s0, s, i, j, Lo(p, c), Hi(p, c))
  }

  ghost predicate Solved(p: Problem, s0: Store, s: Store, i: int, j: int, c: nat)
    requires p.nb > 0 && c <= p.T()
  {
    Known(p, s0, s, i, j, c) == Mul(p.alpha, BAt(s0, i, j))
  }

  ghost predicate Reduced(p: Problem, s0: Store, s: Store, i: int, j: int, c: nat)
    requires p.nb > 0 && c <= p.T()
  {
    Add(Mul(p.Scale(c), BAt(s, i, j)), Known(p, s0, s, i, j, c)) == Mul(p.alpha, BAt(s0, i, j))
  }

  /** The invariant of (i, j), whose tile is solved in step b, after `stage` tasks of step k. */
  ghost predicate ElemInv(p: Problem, k: nat, stage: nat, s0: Store, s: Store, i: int, j: int, b: nat)
    requires p.nb > 0 && k + stage <= p.T()
  {
    if stage == 0 then
      if b < k then Solved(p, s0, s, i, j, k) else Reduced(p, s0, s, i, j, k)
    else
      if b <= k then Solved(p, s0, s, i, j, k + 1)
      else if b < k + stage then Reduced(p, s0, s, i, j, k + 1)
      else Reduced(p, s0, s, i, j, k)
  }

  ghost predicate Inv(p: Problem, q: nat, k: nat, stage: nat, s0: Store, s: Store)
    requires p.nb > 0 && k + stage <= p.T()
  {
    && SameA(s0, s)
    && (forall i, j, b :: Elem(p, q, i, j, b) ==> ElemInv(p, k, stage, s0, s, i, j, b))
  }

  // ----- Geometry -----

  /** The tile of step k is exactly what step k adds to the known rows. */
  lemma Advance(p: Problem, s0: Store, s: Store, i: int, j: int, k: nat)
    requires p.nb > 0 && k < p.T()
    ensures var x := p.Block(k);
            Known(p, s0, s, i, j, k + 1) ==
            Add(Known(p, s0, s, i, j, k),
                Sum(p.nb, p.Whole(), s0, s, i, j, Begin(p.Order(), p.nb, x), Begin(p.Order(), p.nb, x + 1)))
  {
    hide Sum, Add, Begin;
    var n, nb, x := p.Order(), p.nb, p.Block(k);
    BeginMonotone(n, nb, x, x + 1);
    TilesCover(n, nb, p.T());
    if p.Descending() {
      BeginMonotone(n, nb, x + 1, p.T());
      SumSplit(nb, p.Whole(), s0, s, i, j, Begin(n, nb, x), Begin(n, nb, x + 1), n);
      AddComm(Sum(nb, p.Whole(), s0, s, i, j, Begin(n, nb, x), Begin(n, nb, x + 1)), Known(p, s0, s, i, j, k));
    } else {
      SumSplit(nb, p.Whole(), s0, s, i, j, 0, Begin(n, nb, x), Begin(n, nb, x + 1));
    }
  }

  /** Rows known after c steps are rows of tiles solved in the first c steps. */
  lemma KnownRow(p: Problem, c: nat, l: nat) returns (b: nat)
    requires p.nb > 0 && c <= p.T() && Lo(p, c) <= l < Hi(p, c)
    ensures b < c && Begin(p.Order(), p.nb, p.Block(b)) <= l < Begin(p.Order(), p.nb, p.Block(b) + 1)
  {
    var n, nb := p.Order(), p.nb;
    TilesCover(n, nb, p.T());
    BeginMonotone(n, nb, c, p.T());
    var x := TileOf(n, nb, l);
    b := if p.Descending() then p.T() - 1 - x else x;
    if b >= c {
      if p.Descending() {
        BeginMonotone(n, nb, x + 1, p.T() - c);
      } else {
        BeginMonotone(n, nb, c, x);
      }
      assert false;
    }
  }

  // ----- Steps -----

  lemma KnownTerm(p: Problem, q: nat, s0: Store, s: Store, s': Store, i: int, j: int, c: nat, m: nat, d: nat)
    requires p.nb > 0 && p.op == DoSolve && c <= m < p.T() && d < Hi(p, c) - Lo(p, c)
    requires forall i, j :: !Elem(p, q, i, j, m) ==> BAt(s', i, j) == BAt(s, i, j)
    ensures TermFrom(p.nb, p.Whole(), s0, s', i, j, Lo(p, c), d) == TermFrom(p.nb, p.Whole(), s0, s, i, j, Lo(p, c), d)
  {
    var l := Lo(p, c) + d;
    var b := KnownRow(p, c, l);
    var i', j' := if p.side == Left then l else i, if p.side == Left then j else l;
    assert BAt(s', i', j') == BAt(s, i', j') by {
      hide Begin, Lo, Hi;
      if Elem(p, q, i', j', m) {
        BlocksDisjoint(p, b, m, l);
      }
    }
  }

  /** Known rows do not change while a later tile is written. */
  lemma KnownSame(p: Problem, q: nat, s0: Store, s: Store, s': Store, i: int, j: int, c: nat, m: nat)
    requires p.nb > 0 && p.op == DoSolve && c <= m < p.T()
    requires forall i, j :: !Elem(p, q, i, j, m) ==> BAt(s', i, j) == BAt(s, i, j)
    ensures Known(p, s0, s', i, j, c) == Known(p, s0, s, i, j, c)
  {
    hide Elem, TermFrom, Lo, Hi, Sum, Begin;
    forall d | 0 <= d < Hi(p, c) - Lo(p, c)
      ensures TermFrom(p.nb, p.Whole(), s0, s', i, j, Lo(p, c), d)
                == TermFrom(p.nb, p.Whole(), s0, s, i, j, Lo(p, c), d)
    {
      KnownTerm(p, q, s0, s, s', i, j, c, m, d);
    }
    SameTerms(p.nb, p.Whole(), s0, s, s', i, j, Lo(p, c), Hi(p, c));
  }

  lemma SameTerms(nb: nat, w: Task, s0: Store, s: Store, s': Store, i: int, j: int, lo: nat, hi: nat)
    requires forall d :: 0 <= d < hi - lo ==>
                TermFrom(nb, w, s0, s', i, j, lo, d) == TermFrom(nb, w, s0, s, i, j, lo, d)
    ensures Sum(nb, w, s0, s', i, j, lo, hi) == Sum(nb, w, s0, s, i, j, lo, hi)
  {
    if lo < hi {
      SumMatch(nb, w, s0, s', i, j, lo, w, s0, s, i, j, lo, hi - lo);
    }
  }

  /** A tile solved later contributes nothing to a row solved earlier: op(A) is triangular. */
  lemma NoContribution(p: Problem, s0: Store, s: Store, q: nat, i: int, j: int, b: nat, k: nat)
    requires p.nb > 0 && p.op == DoSolve && b < k < p.T() && Elem(p, q, i, j, b)
    ensures var x := p.Block(k);
            Sum(p.nb, p.Whole(), s0, s, i, j, Begin(p.Order(), p.nb, x), Begin(p.Order(), p.nb, x + 1)) == ZERO
  {
    var n, nb, x, y, w := p.Order(), p.nb, p.Block(k), p.Block(b), p.Whole();
    var r := if p.side == Left then i else j;
    forall l | Begin(n, nb, x) <= l < Begin(n, nb, x + 1)
      ensures Term(nb, w, s0, s, i, j, l) == ZERO
    {
      if p.Descending() {
        BeginMonotone(n, nb, x + 1, y);
        assert l < r;
      } else {
        BeginMonotone(n, nb, y + 1, x);
        assert r < l;
      }
      OffTriangle(p, s0, s, i, j, l);
    }
    SumZero(nb, w, s0, s, i, j, Begin(n, nb, x), Begin(n, nb, x + 1));
  }

  /** The tile solve, read in whole-matrix coordinates. */
  lemma SolveAt(p: Problem, q: nat, k: nat, s0: Store, s: Store, s': Store, i: int, j: int)
    requires p.Valid() && p.op == DoSolve && k < p.T() && q < p.Q() && Elem(p, q, i, j, k) && SameA(s0, s)
    requires Step(p.nb, Diagonal(p, k, q), s, s')
    ensures var x := p.Block(k);
            Sum(p.nb, p.Whole(), s0, s', i, j, Begin(p.Order(), p.nb, x), Begin(p.Order(), p.nb, x + 1)) ==
            Mul(p.Scale(k), BAt(s, i, j))
  {
    hide Mul, Term, Sum, Begin, Elem, Touches, Overwrites, Step, SameA, Extent;
    NextTouches(p, q, k, 0, i, j);
    StepComputes(p.nb, Diagonal(p, k, q), s, s', i, j);
    DiagonalSum(p, q, k, s0, s, s', i, j);
  }

  /** The update, read in whole-matrix coordinates. */
  lemma UpdateAt(p: Problem, q: nat, k: nat, m: nat, s0: Store, s: Store, s': Store, i: int, j: int)
    requires p.Valid() && p.op == DoSolve && k < m < p.T() && q < p.Q() && Elem(p, q, i, j, m) && SameA(s0, s)
    requires Step(p.nb, Update(p, k, m, q), s, s')
    ensures var x, t := p.Block(k), Update(p, k, m, q);
            var g := Sum(p.nb, p.Whole(), s0, s, i, j, Begin(p.Order(), p.nb, x), Begin(p.Order(), p.nb, x + 1));
            BAt(s', i, j) == Add(Mul(t.alpha, g), Mul(t.beta, BAt(s, i, j)))
  {
    hide Add, Mul, Term, Sum, Begin, Elem, Touches, Overwrites, Step, SameA, Extent;
    NextTouches(p, q, k, m - k, i, j);
    StepComputes(p.nb, Update(p, k, m, q), s, s', i, j);
    var t := Update(p, k, m, q);
    CoupleSum(p, q, p.Block(k), p.Block(m), t.alpha, t.beta, s0, s, i, j);
  }

  lemma SolveKeepsElem(p: Problem, q: nat, k: nat, s0: Store, s: Store, s': Store, i: int, j: int, b: nat)
    requires p.Valid() && p.op == DoSolve && k < p.T() && q < p.Q()
    requires Inv(p, q, k, 0, s0, s) && Step(p.nb, Diagonal(p, k, q), s, s') && Elem(p, q, i, j, b)
    ensures ElemInv(p, k, 1, s0, s', i, j, b)
  {
    hide Add, Mul, Sum, Begin, Elem, Step, Known, SameA;
    assert ElemInv(p, k, 0, s0, s, i, j, b);
    hide Inv;
    OnlyItsTile(p, q, k, 0, s, s');
    KnownSame(p, q, s0, s, s', i, j, k, k);
    Advance(p, s0, s', i, j, k);
    if b < k {
      NoContribution(p, s0, s', q, i, j, b, k);
      AddZero(Known(p, s0, s', i, j, k));
    } else if b == k {
      SolveAt(p, q, k, s0, s, s', i, j);
      var x := p.Block(k);
      Completes(Mul(p.Scale(k), BAt(s, i, j)), Known(p, s0, s', i, j, k),
                Sum(p.nb, p.Whole(), s0, s', i, j, Begin(p.Order(), p.nb, x), Begin(p.Order(), p.nb, x + 1)),
                Mul(p.alpha, BAt(s0, i, j)));
    } else {
      NotElem(p, q, i, j, b, k);
    }
  }

  lemma UpdateKeepsElem(p: Problem, q: nat, k: nat, stage: nat, s0: Store, s: Store, s': Store, i: int, j: int, b: nat)
    requires p.Valid() && p.op == DoSolve && stage > 0 && k + stage < p.T() && q < p.Q()
    requires Inv(p, q, k, stage, s0, s) && Step(p.nb, Update(p, k, k + stage, q), s, s') && Elem(p, q, i, j, b)
    ensures ElemInv(p, k, stage + 1, s0, s', i, j, b)
  {
    hide Add, Mul, Sum, Begin, Elem, Step, Known, SameA, Extent;
    var m := k + stage;
    assert ElemInv(p, k, stage, s0, s, i, j, b);
    hide Inv;
    OnlyItsTile(p, q, k, stage, s, s');
    KnownSame(p, q, s0, s, s', i, j, k, m);
    KnownSame(p, q, s0, s, s', i, j, k + 1, m);
    if b == m {
      UpdateAt(p, q, k, m, s0, s, s', i, j);
      Advance(p, s0, s, i, j, k);
      UpdateScales(p, q, k, m);
      var x, t := p.Block(k), Update(p, k, m, q);
      Subtracts(p.Scale(k), p.Scale(k + 1), t.alpha, t.beta, BAt(s, i, j),
                Sum(p.nb, p.Whole(), s0, s, i, j, Begin(p.Order(), p.nb, x), Begin(p.Order(), p.nb, x + 1)),
                Known(p, s0, s, i, j, k), Mul(p.alpha, BAt(s0, i, j)));
    } else {
      NotElem(p, q, i, j, b, m);
    }
  }

  lemma UpdateScales(p: Problem, q: nat, k: nat, m: nat)
    requires p.Valid() && p.op == DoSolve && k < m < p.T()
    ensures var t := Update(p, k, m, q);
            Mul(p.Scale(k + 1), t.alpha) == MINUS_ONE && Mul(p.Scale(k + 1), t.beta) == p.Scale(k)
  {
    hide Mul, Extent;
    MulOne(MINUS_ONE);
    MulOne(p.Scale(k));
  }

  lemma NextKeeps(p: Problem, q: nat, k: nat, stage: nat, s0: Store, s: Store, s': Store)
    requires p.Valid() && p.op == DoSolve && k + stage < p.T() && q < p.Q()
    requires Inv(p, q, k, stage, s0, s) && Step(p.nb, Next(p, q, k, stage), s, s')
    ensures Inv(p, q, k, stage + 1, s0, s')
  {
    OnlyItsTile(p, q, k, stage, s, s');
    forall i, j, b | Elem(p, q, i, j, b)
      ensures ElemInv(p, k, stage + 1, s0, s', i, j, b)
    {
      hide ElemInv, Step;
      if stage == 0 {
        SolveKeepsElem(p, q, k, s0, s, s', i, j, b);
      } else {
        UpdateKeepsElem(p, q, k, stage, s0, s, s', i, j, b);
      }
    }
  }

  lemma StartInv(p: Problem, q: nat, s0: Store, s: Store)
    requires p.Valid() && p.op == DoSolve && Run(p.nb, StripTasks(p, q, 0, 0), s0, s)
    ensures Inv(p, q, 0, 0, s0, s)
  {
    forall i, j, b | Elem(p, q, i, j, b)
      ensures ElemInv(p, 0, 0, s0, s, i, j, b)
    {
      TilesCover(p.Order(), p.nb, p.T());
      assert Known(p, s0, s, i, j, 0) == ZERO;
      AddZero(Mul(p.alpha, BAt(s0, i, j)));
    }
  }

  lemma StepEnds(p: Problem, q: nat, k: nat, s0: Store, s: Store)
    requires p.Valid() && p.op == DoSolve && k < p.T() && Inv(p, q, k, p.T() - k, s0, s)
    ensures Inv(p, q, k + 1, 0, s0, s)
  {
    hide Solved, Reduced, SameA, Begin;
    forall i, j, b | Elem(p, q, i, j, b)
      ensures ElemInv(p, k + 1, 0, s0, s, i, j, b)
    {
      assert ElemInv(p, k, p.T() - k, s0, s, i, j, b);
    }
  }

  /** The invariant holds along the whole strip, by induction over its tasks. */
  lemma {:induction false} StripInv(p: Problem, q: nat, k: nat, stage: nat, s0: Store, s: Store)
    requires p.Valid() && p.op == DoSolve && q < p.Q() && k + stage <= p.T()
    requires Run(p.nb, StripTasks(p, q, k, stage), s0, s)
    ensures Inv(p, q, k, stage, s0, s)
    decreases k, stage, 1
  {
    hide Inv, Run;
    if stage > 0 {
      WithinStep(p, q, k, stage - 1, s0, s);
    } else if k == 0 {
      StartInv(p, q, s0, s);
    } else {
      AcrossSteps(p, q, k - 1, s0, s);
    }
  }

  lemma {:induction false} WithinStep(p: Problem, q: nat, k: nat, stage: nat, s0: Store, s: Store)
    requires p.Valid() && p.op == DoSolve && q < p.Q() && k + stage < p.T()
    requires Run(p.nb, StripTasks(p, q, k, stage + 1), s0, s)
    ensures Inv(p, q, k, stage + 1, s0, s)
    decreases k, stage + 1, 0
  {
    var mid := LastTask(p, q, k, stage, s0, s);
    StripInv(p, q, k, stage, s0, mid);
    NextKeeps(p, q, k, stage, s0, mid, s);
  }

  lemma {:induction false} AcrossSteps(p: Problem, q: nat, k: nat, s0: Store, s: Store)
    requires p.Valid() && p.op == DoSolve && q < p.Q() && k < p.T()
    requires Run(p.nb, StripTasks(p, q, k + 1, 0), s0, s)
    ensures Inv(p, q, k + 1, 0, s0, s)
    decreases k + 1, 0, 0
  {
    StepBoundary(p, q, k);
    StripInv(p, q, k, p.T() - k, s0, s);
    StepEnds(p, q, k, s0, s);
  }

  // ----- The theorem -----

  lemma StripSum(p: Problem, q: nat, s0: Store, s: Store, y: Store, i: int, j: int)
    requires p.Shaped() && p.op == DoSolve && Agree(p.nb, MatB, p.StripOf(q), s, y)
    requires var c := if p.side == Left then j else i; q * p.nb <= c < q * p.nb + p.nb
    ensures Sum(p.nb, p.Whole(), s0, s, i, j, 0, p.Order()) == Sum(p.nb, p.Whole(), s0, y, i, j, 0, p.Order())
  {
    hide Mul, Sum;
    forall d | 0 <= d < p.Order()
      ensures TermFrom(p.nb, p.Whole(), s0, s, i, j, 0, d) == TermFrom(p.nb, p.Whole(), s0, y, i, j, 0, d)
    {
    }
    SumMatch(p.nb, p.Whole(), s0, s, i, j, 0, p.Whole(), s0, y, i, j, 0, p.Order());
  }

  /** At the end of its strip, every element is solved over all of A. */
  lemma StripSolved(p: Problem, q: nat, s0: Store, y: Store, i: int, j: int)
    requires p.Valid() && p.op == DoSolve && Inv(p, q, p.T(), 0, s0, y)
    requires var r, c := if p.side == Left then i else j, if p.side == Left then j else i;
             0 <= r < p.Order() && Begin(p.Other(), p.nb, q) <= c < Begin(p.Other(), p.nb, q + 1)
    ensures Sum(p.nb, p.Whole(), s0, y, i, j, 0, p.Order()) == Mul(p.alpha, BAt(s0, i, j))
  {
    hide Mul, Sum;
    TilesCover(p.Order(), p.nb, p.T());
    assert Lo(p, p.T()) == 0 && Hi(p, p.T()) == p.Order();
    hide Begin, Tiles, Lo, Hi;
    var x := TileOf(p.Order(), p.nb, if p.side == Left then i else j);
    var b := if p.Descending() then p.T() - 1 - x else x;
    assert Elem(p, q, i, j, b);
    assert ElemInv(p, p.T(), 0, s0, y, i, j, b);
  }

  lemma SolvedAt(p: Problem, tasks: seq<Task>, s0: Store, s: Store, i: int, j: int)
    requires p.Valid() && p.op == DoSolve && Emits(p, tasks) && Run(p.nb, tasks, s0, s) && Written(p.Whole(), i, j)
    ensures Computes(p.nb, p.Whole(), s0, s, i, j)
  {
    hide Mul, Sum, Run, Kept, AllConfined, AllWellSized, Agree, Inv, Begin;
    var q := TileOf(p.Other(), p.nb, if p.side == Left then j else i);
    var y := Project(p.nb, MatB, p.StripOf(q), tasks, s0, s);
    StripInv(p, q, p.T(), 0, s0, y);
    StripSolved(p, q, s0, y, i, j);
    StripSum(p, q, s0, s, y, i, j);
  }

  /** A list that emits these strips solves the whole system: op(A) X = alpha B or X op(A) = alpha B. */
  lemma TiledSolve(p: Problem, tasks: seq<Task>, s0: Store, s: Store)
    requires p.Valid() && p.op == DoSolve && Emits(p, tasks) && Run(p.nb, tasks, s0, s)
    ensures Kernel(p.nb, p.Whole(), s0, s)
  {
    hide Computes, Kept, Run;
    forall i, j | Written(p.Whole(), i, j)
      ensures Computes(p.nb, p.Whole(), s0, s, i, j)
    {
      SolvedAt(p, tasks, s0, s, i, j);
    }
    forall x, i, j | !Overwrites(p.nb, p.Whole(), x, i, j)
      ensures s(x, i, j) == s0(x, i, j)
    {
      RunUntouched(p.nb, tasks, s0, s, x, i, j);
    }
  }
}
