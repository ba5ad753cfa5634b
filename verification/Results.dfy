/** Every task but a solve has exactly one result, so a list of them reaches exactly one store. */
module Results {
  import opened Complex
  import opened TileTasks
  import opened Schedules

  function ResultAt(nb: nat, t: Task, s: Store, i: int, j: int): Scalar
    requires !t.Trsm?
  {
    if t.Trmm? then Mul(t.alpha, Sum(nb, t, s, s, i, j, 0, Inner(t)))
    else Add(Mul(t.alpha, Sum(nb, t, s, s, i, j, 0, Inner(t))), Mul(t.beta, At(nb, s, t.c, i, j)))
  }

  /** The result of a task; where it leaves a write-only tile as the buffer held it, that is v. */
  function ResultStore(nb: nat, t: Task, s: Store, v: Scalar): Store
    requires !t.Trsm?
  {
    (x: Matrix, i: int, j: int) =>
      if Overwrites(nb, t, x, i, j) then ResultAt(nb, t, s, i - Out(t).m * nb, j - Out(t).n * nb)
      else if Touches(nb, t, x, i, j) then v
      else s(x, i, j)
  }

  lemma ComputesIs(nb: nat, t: Task, s: Store, s': Store, i: int, j: int)
    requires !t.Trsm?
    ensures Computes(nb, t, s, s', i, j) <==> At(nb, s', Out(t), i, j) == ResultAt(nb, t, s, i, j)
  {
    hide Sum, Mul, Add, At;
  }

  lemma StoredResult(nb: nat, t: Task, s: Store, v: Scalar, i: int, j: int)
    requires !t.Trsm? && Written(t, i, j)
    ensures At(nb, ResultStore(nb, t, s, v), Out(t), i, j) == ResultAt(nb, t, s, i, j)
  {
    hide ResultAt, Written, Out;
    var x, y := Out(t).m * nb + i, Out(t).n * nb + j;
    assert x - Out(t).m * nb == i && y - Out(t).n * nb == j;
    assert Overwrites(nb, t, Out(t).mat, x, y);
  }

  lemma StepResult(nb: nat, t: Task, s: Store, v: Scalar)
    requires !t.Trsm?
    ensures Step(nb, t, s, ResultStore(nb, t, s, v))
  {
    forall i, j | Written(t, i, j)
      ensures Computes(nb, t, s, ResultStore(nb, t, s, v), i, j)
    {
      StoredResult(nb, t, s, v, i, j);
      ComputesIs(nb, t, s, ResultStore(nb, t, s, v), i, j);
    }
    hide Computes, ResultAt, Written;
  }

  lemma KernelUnique(nb: nat, t: Task, s: Store, x: Store, y: Store)
    requires !t.Trsm? && Kernel(nb, t, s, x) && Kernel(nb, t, s, y)
    ensures forall m, i, j :: x(m, i, j) == y(m, i, j)
  {
    hide Computes, ResultAt;
    forall m, i, j
      ensures x(m, i, j) == y(m, i, j)
    {
      if Overwrites(nb, t, m, i, j) {
        var i', j' := i - Out(t).m * nb, j - Out(t).n * nb;
        KernelComputes(nb, t, s, x, i, j);
        KernelComputes(nb, t, s, y, i, j);
        ComputesIs(nb, t, s, x, i', j');
        ComputesIs(nb, t, s, y, i', j');
      }
    }
  }

  /** The store that a list reaches when every buffer held v. */
  function Reached(nb: nat, tasks: seq<Task>, s: Store, v: Scalar): Store
    requires forall t :: t in tasks ==> !t.Trsm?
  {
    if tasks == [] then s else ResultStore(nb, Last(tasks), Reached(nb, Front(tasks), s, v), v)
  }

  lemma {:induction false} RunReaches(nb: nat, tasks: seq<Task>, s: Store, v: Scalar)
    requires forall t :: t in tasks ==> !t.Trsm?
    ensures Run(nb, tasks, s, Reached(nb, tasks, s, v))
  {
    if tasks != [] {
      hide Step, ResultStore;
      RunReaches(nb, Front(tasks), s, v);
      StepResult(nb, Last(tasks), Reached(nb, Front(tasks), s, v), v);
    }
  }

  lemma RunExtensional(nb: nat, tasks: seq<Task>, s: Store, s': Store, r: Store)
    requires Run(nb, tasks, s, s') && forall x, i, j :: r(x, i, j) == s'(x, i, j)
    ensures Run(nb, tasks, s, r)
  {
    if tasks != [] {
      hide Step;
      var mid :| Run(nb, Front(tasks), s, mid) && Step(nb, Last(tasks), mid, s');
      StepExtensional(nb, Last(tasks), mid, s', r);
    }
  }

  /** A list that refines a task with one result is equivalent to it. */
  lemma Equivalent(nb: nat, tasks: seq<Task>, w: Task, s: Store, s': Store)
    requires !w.Trsm? && forall t :: t in tasks ==> !t.Trsm?
    requires forall r :: Run(nb, tasks, s, r) ==> Kernel(nb, w, s, r)
    ensures Run(nb, tasks, s, s') <==> Kernel(nb, w, s, s')
  {
    hide Run, Kernel, Reached;
    var r := Reached(nb, tasks, s, ZERO);
    RunReaches(nb, tasks, s, ZERO);
    if Kernel(nb, w, s, s') {
      KernelUnique(nb, w, s, s', r);
      RunExtensional(nb, tasks, s, r, s');
    }
  }

  // ----- What a write-only tile may lose -----

  /** Some task declares the tile of (i, j) write-only and does not write (i, j). */
  ghost predicate Loses(nb: nat, tasks: seq<Task>, x: Matrix, i: int, j: int) {
    exists t :: t in tasks && Touches(nb, t, x, i, j) && !Overwrites(nb, t, x, i, j)
  }

  /** An element that no task writes and some task loses ends as the buffer's contents. */
  lemma {:induction false} LostElement(nb: nat, tasks: seq<Task>, s: Store, v: Scalar, x: Matrix, i: int, j: int)
    requires forall t :: t in tasks ==> !t.Trsm? && !Overwrites(nb, t, x, i, j)
    ensures Reached(nb, tasks, s, v)(x, i, j) == if Loses(nb, tasks, x, i, j) then v else s(x, i, j)
  {
    if tasks != [] {
      var t, front := Last(tasks), Front(tasks);
      LostElement(nb, front, s, v, x, i, j);
      assert tasks == front + [t];
      hide Overwrites, Touches;
      assert Loses(nb, tasks, x, i, j) <==> Loses(nb, front, x, i, j) || Touches(nb, t, x, i, j);
    }
  }
}
