/**
 The runtime may execute tasks in any order that keeps program order between
 tasks whose declared accesses to a common tile are not concurrent. Every such
 schedule can end in exactly the stores in which program order can end.
 */
module Schedules {
  import opened TileTasks

  /** sched is an ordering of the task numbers 0 .. n-1. */
  ghost predicate Ordering(sched: seq<nat>, n: nat) {
    && |sched| == n
    && (forall p :: 0 <= p < n ==> sched[p] < n)
    && (forall i: nat :: i < n ==> i in sched)
    && (forall p, q :: 0 <= p < q < n ==> sched[p] != sched[q])
  }

  /** Conflicting tasks are executed in program order. */
  ghost predicate Legal(prog: seq<Task>, sched: seq<nat>) {
    && Ordering(sched, |prog|)
    && forall p, q :: 0 <= p < q < |sched| && Conflict(prog[sched[p]], prog[sched[q]]) ==> sched[p] < sched[q]
  }

  ghost function Pick(prog: seq<Task>, sched: seq<nat>): seq<Task>
    requires forall p :: 0 <= p < |sched| ==> sched[p] < |prog|
  {
    seq(|sched|, p requires 0 <= p < |sched| => prog[sched[p]])
  }

  // ----- Which schedules there are -----

  lemma ConflictSymmetric(t: Task, u: Task)
    ensures Conflict(t, u) <==> Conflict(u, t)
  {
  }

  /** Is x one of the tiles the task works on? */
  predicate Names(t: Task, x: Tile) {
    t.a == x || (!t.Syrk? && t.b == x) || (!t.Trsm? && !t.Trmm? && t.c == x)
  }

  /** The tile that the task changes. */
  function Result(t: Task): Tile {
    if t.Trsm? || t.Trmm? then t.b else t.c
  }

  /** Two tasks are kept in order exactly when one changes a tile that the other works on. */
  lemma ConflictExact(t: Task, u: Task)
    ensures Conflict(t, u) <==> Names(u, Result(t)) || Names(t, Result(u))
  {
    NamedAccess(t);
    NamedAccess(u);
    hide Accesses, Names, Result;
    if Names(u, Result(t)) {
      var x :| x in Accesses(t) && x.tile == Result(t) && x.mode != R;
      var y :| y in Accesses(u) && y.tile == Result(t);
    }
    if Names(t, Result(u)) {
      var y :| y in Accesses(u) && y.tile == Result(u) && y.mode != R;
      var x :| x in Accesses(t) && x.tile == Result(u);
    }
  }

  lemma NamedAccess(t: Task)
    ensures forall x: Tile :: Names(t, x) <==> exists a :: a in Accesses(t) && a.tile == x
    ensures exists a :: a in Accesses(t) && a.tile == Result(t) && a.mode != R
    ensures forall a :: a in Accesses(t) && a.mode != R ==> a.tile == Result(t)
  {
    var a := Accesses(t);
    assert a[0] in a && a[0].tile == t.a && a[1] in a && (!t.Syrk? ==> a[1].tile == t.b);
    assert a[|a| - 1] in a && a[|a| - 1].tile == Result(t);
  }

  /** Program order is one. */
  lemma ProgramOrder(tasks: seq<Task>) returns (sched: seq<nat>)
    ensures Legal(tasks, sched) && Pick(tasks, sched) == tasks
  {
    sched := seq(|tasks|, p => p);
    hide Conflict;
    forall p: nat | p < |tasks|
      ensures p in sched
    {
      assert sched[p] == p;
    }
  }

  /** Neighbours of a schedule that change different tiles and do not read each other's may change places. */
  lemma ExchangeLegal(prog: seq<Task>, sched: seq<nat>, q: nat)
    requires Legal(prog, sched) && q + 1 < |sched|
    requires var t, u := prog[sched[q]], prog[sched[q + 1]]; !Names(u, Result(t)) && !Names(t, Result(u))
    ensures var sched' := sched[q := sched[q + 1]][q + 1 := sched[q]];
            && Legal(prog, sched')
            && Pick(prog, sched')
                 == Pick(prog, sched)[q := prog[sched[q + 1]]][q + 1 := prog[sched[q]]]
  {
    hide Conflict, Names, Result;
    var sched' := sched[q := sched[q + 1]][q + 1 := sched[q]];
    ConflictExact(prog[sched[q]], prog[sched[q + 1]]);
    ConflictSymmetric(prog[sched[q]], prog[sched[q + 1]]);
    ExchangeOrdering(sched, |prog|, q);
    forall p, r | 0 <= p < r < |sched'| && Conflict(prog[sched'[p]], prog[sched'[r]])
      ensures sched'[p] < sched'[r]
    {
      var p', r' := Exchanged(q, p), Exchanged(q, r);
      assert sched'[p] == sched[p'] && sched'[r] == sched[r'];
    }
  }

  function Exchanged(q: nat, p: int): int { if p == q then q + 1 else if p == q + 1 then q else p }

  lemma ExchangeOrdering(sched: seq<nat>, n: nat, q: nat)
    requires Ordering(sched, n) && q + 1 < |sched|
    ensures Ordering(sched[q := sched[q + 1]][q + 1 := sched[q]], n)
  {
    var sched' := sched[q := sched[q + 1]][q + 1 := sched[q]];
    forall i: nat | i < n
      ensures i in sched'
    {
      assert i in sched;
      var p :| 0 <= p < |sched| && sched[p] == i;
      assert sched'[Exchanged(q, p)] == i;
    }
    assert forall p :: 0 <= p < n ==> sched'[p] == sched[Exchanged(q, p)];
  }

  ghost predicate AllWellSized(nb: nat, tasks: seq<Task>) {
    forall t :: t in tasks ==> WellSized(nb, t)
  }

  // ----- Swapping two independent tasks -----

  /** A task leaves alone every tile that an independent task accesses. */
  lemma Untouched(nb: nat, t: Task, u: Task, s: Store, s': Store)
    requires WellSized(nb, t) && !Conflict(t, u) && Step(nb, t, s, s')
    ensures forall a :: a in Accesses(u) ==> SameTile(nb, s, s', a.tile)
  {
    forall a | a in Accesses(u)
      ensures SameTile(nb, s, s', a.tile)
    {
      var own := Accesses(t)[|Accesses(t)| - 1];
      assert own in Accesses(t) && own.tile == Out(t) && own.mode != R;
      forall i, j | 0 <= i < nb && 0 <= j < nb
        ensures At(nb, s', a.tile, i, j) == At(nb, s, a.tile, i, j)
      {
        TilesDisjoint(nb, a.tile.m, i, Out(t).m);
        TilesDisjoint(nb, a.tile.n, j, Out(t).n);
      }
    }
  }

  ghost predicate TwoSteps(nb: nat, t: Task, u: Task, s: Store, s': Store) {
    exists mid: Store :: Step(nb, t, s, mid) && Step(nb, u, mid, s')
  }

  /** A step only fixes the elements of the store it ends in. */
  lemma StepExtensional(nb: nat, t: Task, s: Store, s': Store, r: Store)
    requires Step(nb, t, s, s')
    requires forall x, i, j :: r(x, i, j) == s'(x, i, j)
    ensures Step(nb, t, s, r)
  {
    forall i, j | Written(t, i, j)
      ensures Computes(nb, t, s, r, i, j)
    {
      hide Computes;
      assert Computes(nb, t, s, s', i, j);
      SameSums(nb, t, s, s, s', r, i, j);
      ComputesSame(nb, t, s, s', r, i, j);
    }
    hide Computes;
  }

  lemma ComputesSame(nb: nat, t: Task, s: Store, s': Store, r: Store, i: int, j: int)
    requires forall x, p, q :: r(x, p, q) == s'(x, p, q)
    requires Sum(nb, t, s, s', i, j, 0, Inner(t)) == Sum(nb, t, s, r, i, j, 0, Inner(t))
    requires Computes(nb, t, s, s', i, j)
    ensures Computes(nb, t, s, r, i, j)
  {
  }

  lemma Swap(nb: nat, t: Task, u: Task, s: Store, s': Store)
    requires WellSized(nb, t) && WellSized(nb, u) && !Conflict(t, u)
    requires TwoSteps(nb, t, u, s, s')
    ensures TwoSteps(nb, u, t, s, s')
  {
    var mid: Store :| Step(nb, t, s, mid) && Step(nb, u, mid, s');
    ConflictSymmetric(t, u);
    Untouched(nb, t, u, s, mid);
    var mid' := Graft(nb, u, s', s);
    assert SameInputs(nb, u, mid, s);
    Replay(nb, u, mid, s', s);
    Untouched(nb, u, t, s, mid');
    Replay(nb, t, s, mid, mid');
    SwapEnds(nb, t, u, s, mid, s');
    StepExtensional(nb, t, mid', Graft(nb, t, mid, mid'), s');
  }

  lemma SwapEnds(nb: nat, t: Task, u: Task, s: Store, mid: Store, s': Store)
    requires WellSized(nb, t) && WellSized(nb, u) && !Conflict(t, u)
    requires Unchanged(nb, t, s, mid) && Unchanged(nb, u, mid, s')
    ensures forall x, i, j :: s'(x, i, j) == Graft(nb, t, mid, Graft(nb, u, s', s))(x, i, j)
  {
    forall x, i, j
      ensures s'(x, i, j) == Graft(nb, t, mid, Graft(nb, u, s', s))(x, i, j)
    {
      if Touches(nb, t, x, i, j) && Touches(nb, u, x, i, j) {
        var a := Accesses(t)[|Accesses(t)| - 1];
        var b := Accesses(u)[|Accesses(u)| - 1];
        assert a in Accesses(t) && b in Accesses(u) && a.tile == Out(t) && b.tile == Out(u);
        TilesDisjoint(nb, Out(t).m, i - Out(t).m * nb, Out(u).m);
        TilesDisjoint(nb, Out(t).n, j - Out(t).n * nb, Out(u).n);
      }
    }
  }

  // ----- Runs -----

  lemma RunSnoc(nb: nat, tasks: seq<Task>, t: Task, s: Store, mid: Store, s': Store)
    requires Run(nb, tasks, s, mid) && Step(nb, t, mid, s')
    ensures Run(nb, tasks + [t], s, s')
  {
    assert Front(tasks + [t]) == tasks && Last(tasks + [t]) == t;
  }

  lemma RunUnsnoc(nb: nat, tasks: seq<Task>, t: Task, s: Store, s': Store) returns (mid: Store)
    requires Run(nb, tasks + [t], s, s')
    ensures Run(nb, tasks, s, mid) && Step(nb, t, mid, s')
  {
    assert Front(tasks + [t]) == tasks && Last(tasks + [t]) == t;
    mid :| Run(nb, tasks, s, mid) && Step(nb, t, mid, s');
  }

  lemma SwapLast(nb: nat, tasks: seq<Task>, t: Task, u: Task, s: Store, s': Store)
    requires WellSized(nb, t) && WellSized(nb, u) && !Conflict(t, u)
    requires Run(nb, tasks + [t] + [u], s, s')
    ensures Run(nb, tasks + [u] + [t], s, s')
  {
    var s2 := RunUnsnoc(nb, tasks + [t], u, s, s');
    var s1 := RunUnsnoc(nb, tasks, t, s, s2);
    assert TwoSteps(nb, t, u, s1, s');
    Swap(nb, t, u, s1, s');
    var s2': Store :| Step(nb, u, s1, s2') && Step(nb, t, s2', s');
    RunSnoc(nb, tasks, u, s, s1, s2');
    RunSnoc(nb, tasks + [u], t, s, s2', s');
  }

  /** A task moves past a block of tasks it is independent of. */
  lemma {:induction false} Bubble(nb: nat, pre: seq<Task>, t: Task, post: seq<Task>, s: Store, s': Store)
    requires WellSized(nb, t) && AllWellSized(nb, post)
    requires forall u :: u in post ==> !Conflict(t, u)
    ensures Run(nb, pre + [t] + post, s, s') <==> Run(nb, pre + post + [t], s, s')
    decreases |post|
  {
    if post == [] {
      assert pre + [t] + post == pre + post + [t];
    } else {
      var u, rest := Last(post), Front(post);
      assert post == rest + [u];
      assert pre + [t] + post == (pre + [t] + rest) + [u];
      assert pre + post + [t] == (pre + rest) + [u] + [t];
      ConflictSymmetric(t, u);
      if Run(nb, pre + [t] + post, s, s') {
        var mid := RunUnsnoc(nb, pre + [t] + rest, u, s, s');
        Bubble(nb, pre, t, rest, s, mid);
        RunSnoc(nb, pre + rest + [t], u, s, mid, s');
        SwapLast(nb, pre + rest, t, u, s, s');
      }
      if Run(nb, pre + post + [t], s, s') {
        SwapLast(nb, pre + rest, u, t, s, s');
        var mid := RunUnsnoc(nb, pre + rest + [t], u, s, s');
        Bubble(nb, pre, t, rest, s, mid);
        RunSnoc(nb, pre + [t] + rest, u, s, mid, s');
      }
    }
  }

  // ----- The theorem -----

  lemma WithoutLast(prog: seq<Task>, sched: seq<nat>, p: nat)
    requires prog != [] && Legal(prog, sched) && p < |sched| && sched[p] == |prog| - 1
    ensures Legal(Front(prog), sched[..p] + sched[p + 1..])
    ensures forall q :: p < q < |sched| ==> !Conflict(Last(prog), prog[sched[q]])
  {
    hide Conflict, Ordering;
    OrderingWithout(sched, |prog| - 1, p);
    RestInOrder(prog, sched, p);
  }

  lemma OrderingWithout(sched: seq<nat>, n: nat, p: nat)
    requires Ordering(sched, n + 1) && p < |sched| && sched[p] == n
    ensures Ordering(sched[..p] + sched[p + 1..], n)
    ensures forall q :: 0 <= q < |sched| ==> sched[q] <= n && (q != p ==> sched[q] < n)
  {
    var rest := sched[..p] + sched[p + 1..];
    assert forall q :: 0 <= q < |rest| ==> rest[q] == sched[if q < p then q else q + 1];
    forall i: nat | i < n
      ensures i in rest
    {
      assert i in sched;
      var q :| 0 <= q < |sched| && sched[q] == i;
      assert rest[if q < p then q else q - 1] == i;
    }
  }

  lemma RestInOrder(prog: seq<Task>, sched: seq<nat>, p: nat)
    requires prog != [] && p < |sched| && sched[p] == |prog| - 1
    requires forall q :: 0 <= q < |sched| ==> sched[q] < |prog| && (q != p ==> sched[q] < |prog| - 1)
    requires forall q, r :: 0 <= q < r < |sched| && Conflict(prog[sched[q]], prog[sched[r]]) ==> sched[q] < sched[r]
    ensures var rest := sched[..p] + sched[p + 1..];
            && (forall q :: 0 <= q < |rest| ==> rest[q] < |Front(prog)|)
            && forall q, r :: 0 <= q < r < |rest| && Conflict(Front(prog)[rest[q]], Front(prog)[rest[r]]) ==>
                 rest[q] < rest[r]
    ensures forall q :: p < q < |sched| ==> !Conflict(Last(prog), prog[sched[q]])
  {
    hide Conflict;
    var rest := sched[..p] + sched[p + 1..];
    forall q, r | 0 <= q < r < |rest| && Conflict(prog[rest[q]], prog[rest[r]])
      ensures rest[q] < rest[r]
    {
      var q', r' := if q < p then q else q + 1, if r < p then r else r + 1;
      assert rest[q] == sched[q'] && rest[r] == sched[r'];
    }
  }

  lemma PickAround(prog: seq<Task>, sched: seq<nat>, p: nat)
    requires prog != [] && p < |sched| && sched[p] == |prog| - 1
    requires forall q :: 0 <= q < |sched| ==> sched[q] < |prog| && (q != p ==> sched[q] < |prog| - 1)
    ensures Pick(prog, sched) == Pick(prog, sched[..p]) + [Last(prog)] + Pick(prog, sched[p + 1..])
    ensures Pick(Front(prog), sched[..p] + sched[p + 1..]) == Pick(prog, sched[..p]) + Pick(prog, sched[p + 1..])
  {
  }

  /** The last task of the program splits the schedule into the tasks before it and those, independent of it, behind. */
  lemma SplitAtLast(prog: seq<Task>, sched: seq<nat>) returns (pre: seq<Task>, post: seq<Task>, rest: seq<nat>)
    requires prog != [] && Legal(prog, sched)
    ensures Legal(Front(prog), rest)
    ensures Pick(prog, sched) == pre + [Last(prog)] + post && Pick(Front(prog), rest) == pre + post
    ensures forall u :: u in post ==> u in prog && !Conflict(Last(prog), u)
  {
    hide Conflict;
    assert |prog| - 1 in sched;
    var p :| 0 <= p < |sched| && sched[p] == |prog| - 1;
    WithoutLast(prog, sched, p);
    rest := sched[..p] + sched[p + 1..];
    pre, post := Pick(prog, sched[..p]), Pick(prog, sched[p + 1..]);
    PickAround(prog, sched, p);
  }

  /** Any legal schedule reaches exactly the stores that program order reaches. */
  lemma {:induction false} LegalScheduleEquivalent(nb: nat, prog: seq<Task>, sched: seq<nat>, s: Store, s': Store)
    requires AllWellSized(nb, prog) && Legal(prog, sched)
    ensures Run(nb, Pick(prog, sched), s, s') <==> Run(nb, prog, s, s')
    decreases |prog|
  {
    if prog == [] {
      assert Pick(prog, sched) == prog;
    } else {
      hide Conflict, Run, WellSized, Pick, Legal;
      var t := Last(prog);
      var pre, post, rest := SplitAtLast(prog, sched);
      Bubble(nb, pre, t, post, s, s');
      assert prog == Front(prog) + [t];
      if Run(nb, pre + post + [t], s, s') {
        var mid := RunUnsnoc(nb, pre + post, t, s, s');
        LegalScheduleEquivalent(nb, Front(prog), rest, s, mid);
        RunSnoc(nb, Front(prog), t, s, mid, s');
      }
      if Run(nb, prog, s, s') {
        var mid := RunUnsnoc(nb, Front(prog), t, s, s');
        LegalScheduleEquivalent(nb, Front(prog), rest, s, mid);
        RunSnoc(nb, pre + post, t, s, mid, s');
      }
    }
  }
}
