/** The tiled solve reaches the solution of the whole system and nothing else. */
module SolveExact {
  import opened Complex
  import opened TileTasks
  import opened Results
  import opened Triangular
  import opened Solvable
  import opened TrsmProof

  /** No diagonal element that the solve divides by vanishes. */
  ghost predicate Regular(p: Problem, s: Store) {
    p.diag == Unit || forall r :: 0 <= r < p.Order() ==> s(MatA, r, r) != ZERO
  }

  lemma DiagonalTileRegular(p: Problem, t: Task, s: Store, mid: Store)
    requires p.nb > 0 && p.op == DoSolve && Regular(p, s) && SameA(s, mid) && t.Trsm? && Anchored(p, t)
    ensures Nonsingular(p.nb, t, mid)
  {
    forall r | 0 <= r < Inner(t)
      ensures Coef(p.nb, t, mid, r, r) != ZERO
    {
      var d := t.a.m * p.nb + r;
      assert d < p.Order() && mid(MatA, d, d) == s(MatA, d, d);
    }
  }

  lemma WholeRegular(p: Problem, s: Store)
    requires p.op == DoSolve && Regular(p, s)
    ensures Nonsingular(p.nb, p.Whole(), s)
  {
    forall r | 0 <= r < p.Order()
      ensures Coef(p.nb, p.Whole(), s, r, r) != ZERO
    {
    }
  }

  /** With a regular operand every task of the list has a result, whatever the order. */
  lemma {:induction false} RunExists(p: Problem, tasks: seq<Task>, s: Store) returns (s': Store)
    requires p.nb > 0 && p.op == DoSolve && Regular(p, s) && forall t :: t in tasks ==> Anchored(p, t)
    ensures Run(p.nb, tasks, s, s') && SameA(s, s')
  {
    if tasks == [] {
      s' := s;
    } else {
      hide Regular, Step, Anchored;
      var mid := RunExists(p, Front(tasks), s);
      var t := Last(tasks);
      assert Anchored(p, t);
      assert t.Gemm? || t.Trsm? by { TaskKinds(p, t); }
      if t.Gemm? {
        s' := ResultStore(p.nb, t, mid, ZERO);
        StepResult(p.nb, t, mid, ZERO);
      } else {
        DiagonalTileRegular(p, t, s, mid);
        s' := SolutionExists(p.nb, t, mid);
      }
      KeepsA(p, t, mid, s');
    }
  }

  lemma TaskKinds(p: Problem, t: Task)
    requires p.op == DoSolve && Anchored(p, t)
    ensures t.Gemm? || t.Trsm?
  {
  }

  lemma KeepsA(p: Problem, t: Task, s: Store, s': Store)
    requires Anchored(p, t) && Step(p.nb, t, s, s')
    ensures SameA(s, s')
  {
  }

  /** A list that reaches one solution reaches every one, because there is no other. */
  lemma UniqueReached(p: Problem, tasks: seq<Task>, s: Store, r: Store, s': Store)
    requires p.op == DoSolve && Regular(p, s) && Run(p.nb, tasks, s, r)
    requires Kernel(p.nb, p.Whole(), s, r) && Kernel(p.nb, p.Whole(), s, s')
    ensures Run(p.nb, tasks, s, s')
  {
    hide Run, Step;
    WholeRegular(p, s);
    StepIsKernel(p.nb, p.Whole(), s, s');
    StepIsKernel(p.nb, p.Whole(), s, r);
    SolutionUnique(p.nb, p.Whole(), s, s', r);
    RunExtensional(p.nb, tasks, s, r, s');
  }

  /** With a regular operand the list reaches exactly the solution of the whole system. */
  lemma TiledSolveExact(p: Problem, tasks: seq<Task>, s: Store, s': Store)
    requires p.Valid() && p.op == DoSolve && Emits(p, tasks) && Regular(p, s)
    ensures Run(p.nb, tasks, s, s') <==> Kernel(p.nb, p.Whole(), s, s')
  {
    var r := RunExists(p, tasks, s);
    hide Run, Step, Emits;
    TiledSolve(p, tasks, s, r);
    if Run(p.nb, tasks, s, s') {
      TiledSolve(p, tasks, s, s');
    }
    if Kernel(p.nb, p.Whole(), s, s') {
      UniqueReached(p, tasks, s, r, s');
    }
  }
}
