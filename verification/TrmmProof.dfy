/**
 Tiled in-place triangular product: a task list made of the strips of
 Triangular overwrites B by alpha op(A) B, or alpha B op(A), of the B it
 started from. Every coupling reads a tile that has not been overwritten yet.
 */
module TrmmProof {
  import opened Complex
  import opened TileTasks
  import opened Schedules
  import opened Strips
  import opened Triangular

  /** The contribution of the rows (or columns) lo .. hi-1 of the original B. */
  function Part(p: Problem, s0: Store, i: int, j: int, lo: int, hi: int): Scalar {
    Sum(p.nb, p.Whole(), s0, s0, i, j, lo, hi)
  }

  function TileBegin(p: Problem, x: nat): nat { Begin(p.Order(), p.nb, x) }

  /** What the tile of step k holds, up to alpha, after stage > 0 tasks of step k. */
  function Partial(p: Problem, s0: Store, i: int, j: int, k: nat, stage: nat): Scalar
    requires p.nb > 0 && k < p.T() && stage > 0
  {
    var x := p.Block(k);
    if p.Descending()
    then Add(Part(p, s0, i, j, TileBegin(p, x), TileBegin(p, x + 1)), Part(p, s0, i, j, 0, TileBegin(p, stage - 1)))
    else Part(p, s0, i, j, TileBegin(p, x), TileBegin(p, x + stage))
  }

  ghost predicate ElemInv(p: Problem, k: nat, stage: nat, s0: Store, s: Store, i: int, j: int, b: nat)
    requires p.nb > 0 && k + stage <= p.T()
  {
    if b < k then BAt(s, i, j) == Mul(p.alpha, Part(p, s0, i, j, 0, p.Order()))
    else if b == k && stage > 0 then BAt(s, i, j) == Mul(p.alpha, Partial(p, s0, i, j, k, stage))
    else BAt(s, i, j) == BAt(s0, i, j)
  }

  ghost predicate Inv(p: Problem, q: nat, k: nat, stage: nat, s0: Store, s: Store)
    requires p.nb > 0 && k + stage <= p.T()
  {
    && SameA(s0, s)
    && (forall i, j, b :: Elem(p, q, i, j, b) ==> ElemInv(p, k, stage, s0, s, i, j, b))
  }

  /** Rows (or columns) on the far side of the diagonal contribute nothing. */
  lemma NoPart(p: Problem, s0: Store, q: nat, i: int, j: int, b: nat, lo: int, hi: int)
    requires p.nb > 0 && p.op == DoMultiply && Elem(p, q, i, j, b)
    requires if p.Descending() then TileBegin(p, p.Block(b) + 1) <= lo else hi <= TileBegin(p, p.Block(b))
    ensures Part(p, s0, i, j, lo, hi) == ZERO
  {
    forall l | lo <= l < hi
      ensures Term(p.nb, p.Whole(), s0, s0, i, j, l) == ZERO
    {
      OffTriangle(p, s0, s0, i, j, l);
    }
    SumZero(p.nb, p.Whole(), s0, s0, i, j, lo, hi);
  }

  lemma ThreeParts(p: Problem, s0: Store, i: int, j: int, a: int, b: int, n: int)
    requires p.op == DoMultiply && 0 <= a <= b <= n && Part(p, s0, i, j, b, n) == ZERO
    ensures Add(Part(p, s0, i, j, a, b), Part(p, s0, i, j, 0, a)) == Part(p, s0, i, j, 0, n)
  {
    hide Sum, Add;
    SumSplit(p.nb, p.Whole(), s0, s0, i, j, 0, a, b);
    AddComm(Part(p, s0, i, j, 0, a), Part(p, s0, i, j, a, b));
    SumSplit(p.nb, p.Whole(), s0, s0, i, j, 0, b, n);
    AddZero(Part(p, s0, i, j, 0, b));
  }

  lemma DescendingComplete(p: Problem, s0: Store, q: nat, i: int, j: int, k: nat)
    requires p.Shaped() && p.op == DoMultiply && k < p.T() && Elem(p, q, i, j, k) && p.Descending()
    ensures Partial(p, s0, i, j, k, p.T() - k) == Part(p, s0, i, j, 0, p.Order())
  {
    var n, x := p.Order(), p.Block(k);
    hide Part, Add, Elem;
    TilesCover(n, p.nb, p.T());
    BeginMonotone(n, p.nb, x, x + 1);
    BeginMonotone(n, p.nb, x + 1, p.T());
    hide Begin, Tiles;
    NoPart(p, s0, q, i, j, k, TileBegin(p, x + 1), n);
    ThreeParts(p, s0, i, j, TileBegin(p, x), TileBegin(p, x + 1), n);
  }

  lemma AscendingComplete(p: Problem, s0: Store, q: nat, i: int, j: int, k: nat)
    requires p.Shaped() && p.op == DoMultiply && k < p.T() && Elem(p, q, i, j, k) && !p.Descending()
    ensures Partial(p, s0, i, j, k, p.T() - k) == Part(p, s0, i, j, 0, p.Order())
  {
    var n, x := p.Order(), p.Block(k);
    hide Sum, Add, Elem;
    TilesCover(n, p.nb, p.T());
    BeginMonotone(n, p.nb, x, x + 1);
    BeginMonotone(n, p.nb, x + 1, p.T());
    hide Begin, Tiles;
    SumSplit(p.nb, p.Whole(), s0, s0, i, j, 0, TileBegin(p, x), n);
    NoPart(p, s0, q, i, j, k, 0, TileBegin(p, x));
    AddZero(Part(p, s0, i, j, TileBegin(p, x), n));
  }

  /** After all tasks of its step, a tile holds its whole product. */
  lemma PartialComplete(p: Problem, s0: Store, q: nat, i: int, j: int, k: nat)
    requires p.Shaped() && p.op == DoMultiply && k < p.T() && Elem(p, q, i, j, k)
    ensures Partial(p, s0, i, j, k, p.T() - k) == Part(p, s0, i, j, 0, p.Order())
  {
    hide Partial, Part, Elem;
    if p.Descending() {
      DescendingComplete(p, s0, q, i, j, k);
    } else {
      AscendingComplete(p, s0, q, i, j, k);
    }
  }

  /** One more coupling extends the partial product by its tile. */
  lemma PartialExtends(p: Problem, s0: Store, i: int, j: int, k: nat, stage: nat)
    requires p.Shaped() && k + stage < p.T() && stage > 0
    ensures var y := Source(p, k, stage - 1);
            Partial(p, s0, i, j, k, stage + 1) ==
            Add(Partial(p, s0, i, j, k, stage), Part(p, s0, i, j, TileBegin(p, y), TileBegin(p, y + 1)))
  {
    hide Sum, Add;
    var n, x, y := p.Order(), p.Block(k), Source(p, k, stage - 1);
    BeginMonotone(n, p.nb, y, y + 1);
    if p.Descending() {
      SumSplit(p.nb, p.Whole(), s0, s0, i, j, 0, TileBegin(p, y), TileBegin(p, y + 1));
      AddAssoc(Part(p, s0, i, j, TileBegin(p, x), TileBegin(p, x + 1)), Part(p, s0, i, j, 0, TileBegin(p, y)),
               Part(p, s0, i, j, TileBegin(p, y), TileBegin(p, y + 1)));
    } else {
      BeginMonotone(n, p.nb, x, y);
      SumSplit(p.nb, p.Whole(), s0, s0, i, j, TileBegin(p, x), TileBegin(p, y), TileBegin(p, y + 1));
    }
  }

  /** A tile that has not been written still gives its original contribution. */
  lemma FreshPart(p: Problem, q: nat, k: nat, stage: nat, s0: Store, s: Store, i: int, j: int, b: nat, y: nat)
    requires p.Shaped() && k + stage <= p.T() && Inv(p, q, k, stage, s0, s) && Elem(p, q, i, j, b)
    requires y < p.T() && (p.StepOf(y) > k || (p.StepOf(y) == k && stage == 0))
    ensures Sum(p.nb, p.Whole(), s0, s, i, j, TileBegin(p, y), TileBegin(p, y + 1)) ==
            Part(p, s0, i, j, TileBegin(p, y), TileBegin(p, y + 1))
  {
    hide Mul, Sum;
    var w, lo, hi := p.Whole(), TileBegin(p, y), TileBegin(p, y + 1);
    BeginMonotone(p.Order(), p.nb, y, y + 1);
    forall d | 0 <= d < hi - lo
      ensures TermFrom(p.nb, w, s0, s, i, j, lo, d) == TermFrom(p.nb, w, s0, s0, i, j, lo, d)
    {
      var i', j' := if p.side == Left then lo + d else i, if p.side == Left then j else lo + d;
      assert Elem(p, q, i', j', p.StepOf(y));
      assert ElemInv(p, k, stage, s0, s, i', j', p.StepOf(y));
      assert BAt(s, i', j') == BAt(s0, i', j');
    }
    SumMatch(p.nb, w, s0, s, i, j, lo, w, s0, s0, i, j, lo, hi - lo);
  }

  // ----- Steps -----

  lemma MultiplyAt(p: Problem, q: nat, k: nat, s0: Store, s: Store, s': Store, i: int, j: int)
    requires p.Shaped() && p.op == DoMultiply && k < p.T() && q < p.Q() && Elem(p, q, i, j, k)
    requires Inv(p, q, k, 0, s0, s) && Step(p.nb, Diagonal(p, k, q), s, s')
    ensures BAt(s', i, j) == Mul(p.alpha, Part(p, s0, i, j, TileBegin(p, p.Block(k)), TileBegin(p, p.Block(k) + 1)))
  {
    hide Mul, Term, Sum, Begin, Elem, Touches, Overwrites, Step, SameA, Extent, ElemInv;
    assert SameA(s0, s);
    hide Inv;
    NextTouches(p, q, k, 0, i, j);
    StepComputes(p.nb, Diagonal(p, k, q), s, s', i, j);
    DiagonalSum(p, q, k, s0, s, s, i, j);
    FreshPart(p, q, k, 0, s0, s, i, j, k, p.Block(k));
  }

  lemma AccumulateAt(p: Problem, q: nat, k: nat, stage: nat, s0: Store, s: Store, s': Store, i: int, j: int)
    requires p.Shaped() && p.op == DoMultiply && k + stage < p.T() && stage > 0 && q < p.Q() && Elem(p, q, i, j, k)
    requires Inv(p, q, k, stage, s0, s) && Step(p.nb, Accumulate(p, k, stage - 1, q), s, s')
    ensures var y := Source(p, k, stage - 1);
            BAt(s', i, j) ==
            Add(Mul(p.alpha, Part(p, s0, i, j, TileBegin(p, y), TileBegin(p, y + 1))), Mul(ONE, BAt(s, i, j)))
  {
    hide Add, Mul, Term, Sum, Begin, Elem, Touches, Overwrites, Step, SameA, Extent, ElemInv;
    assert SameA(s0, s);
    hide Inv;
    var y := Source(p, k, stage - 1);
    NextTouches(p, q, k, stage, i, j);
    StepComputes(p.nb, Accumulate(p, k, stage - 1, q), s, s', i, j);
    CoupleSum(p, q, y, p.Block(k), p.alpha, ONE, s0, s, i, j);
    FreshPart(p, q, k, stage, s0, s, i, j, k, y);
  }

  lemma NextKeepsElem(p: Problem, q: nat, k: nat, stage: nat, s0: Store, s: Store, s': Store, i: int, j: int, b: nat)
    requires p.Shaped() && p.op == DoMultiply && k + stage < p.T() && q < p.Q()
    requires Inv(p, q, k, stage, s0, s) && Step(p.nb, Next(p, q, k, stage), s, s') && Elem(p, q, i, j, b)
    ensures ElemInv(p, k, stage + 1, s0, s', i, j, b)
  {
    hide Add, Mul, Sum, Begin, Elem, Step, SameA, Extent, Part;
    assert ElemInv(p, k, stage, s0, s, i, j, b);
    hide Inv;
    OnlyItsTile(p, q, k, stage, s, s');
    if b != k {
      NotElem(p, q, i, j, b, k);
    } else if stage == 0 {
      MultiplyAt(p, q, k, s0, s, s', i, j);
      FirstPartial(p, s0, i, j, k);
    } else {
      AccumulateAt(p, q, k, stage, s0, s, s', i, j);
      PartialExtends(p, s0, i, j, k, stage);
      var y := Source(p, k, stage - 1);
      Accumulates(p.alpha, Partial(p, s0, i, j, k, stage), Part(p, s0, i, j, TileBegin(p, y), TileBegin(p, y + 1)));
    }
  }

  lemma FirstPartial(p: Problem, s0: Store, i: int, j: int, k: nat)
    requires p.Shaped() && k < p.T()
    ensures Partial(p, s0, i, j, k, 1) == Part(p, s0, i, j, TileBegin(p, p.Block(k)), TileBegin(p, p.Block(k) + 1))
  {
    AddZero(Part(p, s0, i, j, TileBegin(p, p.Block(k)), TileBegin(p, p.Block(k) + 1)));
  }

  lemma NextKeeps(p: Problem, q: nat, k: nat, stage: nat, s0: Store, s: Store, s': Store)
    requires p.Shaped() && p.op == DoMultiply && k + stage < p.T() && q < p.Q()
    requires Inv(p, q, k, stage, s0, s) && Step(p.nb, Next(p, q, k, stage), s, s')
    ensures Inv(p, q, k, stage + 1, s0, s')
  {
    hide ElemInv, Step, Elem;
    OnlyItsTile(p, q, k, stage, s, s');
    forall i, j, b | Elem(p, q, i, j, b)
      ensures ElemInv(p, k, stage + 1, s0, s', i, j, b)
    {
      NextKeepsElem(p, q, k, stage, s0, s, s', i, j, b);
    }
  }

  lemma StepEnds(p: Problem, q: nat, k: nat, s0: Store, s: Store)
    requires p.Shaped() && p.op == DoMultiply && k < p.T() && Inv(p, q, k, p.T() - k, s0, s)
    ensures Inv(p, q, k + 1, 0, s0, s)
  {
    hide Mul, Part, Elem, Partial, SameA;
    forall i, j, b | Elem(p, q, i, j, b)
      ensures ElemInv(p, k + 1, 0, s0, s, i, j, b)
    {
      assert ElemInv(p, k, p.T() - k, s0, s, i, j, b);
      if b == k {
        PartialComplete(p, s0, q, i, j, k);
      }
    }
  }

  lemma StartInv(p: Problem, q: nat, s0: Store, s: Store)
    requires p.Shaped() && Run(p.nb, StripTasks(p, q, 0, 0), s0, s)
    ensures Inv(p, q, 0, 0, s0, s)
  {
    hide Elem;
  }

  /** The invariant holds along the whole strip, by induction over its tasks. */
  lemma {:induction false} StripInv(p: Problem, q: nat, k: nat, stage: nat, s0: Store, s: Store)
    requires p.Shaped() && p.op == DoMultiply && q < p.Q() && k + stage <= p.T()
    requires Run(p.nb, StripTasks(p, q, k, stage), s0, s)
    ensures Inv(p, q, k, stage, s0, s)
    decreases k, stage, 1
  {
    if stage > 0 {
      WithinStep(p, q, k, stage - 1, s0, s);
    } else if k == 0 {
      StartInv(p, q, s0, s);
    } else {
      AcrossSteps(p, q, k - 1, s0, s);
    }
  }

  lemma {:induction false} WithinStep(p: Problem, q: nat, k: nat, stage: nat, s0: Store, s: Store)
    requires p.Shaped() && p.op == DoMultiply && q < p.Q() && k + stage < p.T()
    requires Run(p.nb, StripTasks(p, q, k, stage + 1), s0, s)
    ensures Inv(p, q, k, stage + 1, s0, s)
    decreases k, stage + 1, 0
  {
    var mid := LastTask(p, q, k, stage, s0, s);
    StripInv(p, q, k, stage, s0, mid);
    NextKeeps(p, q, k, stage, s0, mid, s);
  }

  lemma {:induction false} AcrossSteps(p: Problem, q: nat, k: nat, s0: Store, s: Store)
    requires p.Shaped() && p.op == DoMultiply && q < p.Q() && k < p.T()
    requires Run(p.nb, StripTasks(p, q, k + 1, 0), s0, s)
    ensures Inv(p, q, k + 1, 0, s0, s)
    decreases k + 1, 0, 0
  {
    StepBoundary(p, q, k);
    StripInv(p, q, k, p.T() - k, s0, s);
    StepEnds(p, q, k, s0, s);
  }

  // ----- The theorem -----

  lemma MultipliedAt(p: Problem, tasks: seq<Task>, s0: Store, s: Store, i: int, j: int)
    requires p.Shaped() && p.op == DoMultiply && Emits(p, tasks) && Run(p.nb, tasks, s0, s) && Written(p.Whole(), i, j)
    ensures Computes(p.nb, p.Whole(), s0, s, i, j)
  {
    hide Mul, Sum, Run, Kept, AllConfined, AllWellSized;
    var q := TileOf(p.Other(), p.nb, if p.side == Left then j else i);
    var x := TileOf(p.Order(), p.nb, if p.side == Left then i else j);
    var y := Project(p.nb, MatB, p.StripOf(q), tasks, s0, s);
    StripInv(p, q, p.T(), 0, s0, y);
    assert Elem(p, q, i, j, p.StepOf(x));
    assert ElemInv(p, p.T(), 0, s0, y, i, j, p.StepOf(x));
    assert BAt(s, i, j) == BAt(y, i, j);
  }

  /** A list that emits these strips computes the whole product in place. */
  lemma TiledProduct(p: Problem, tasks: seq<Task>, s0: Store, s: Store)
    requires p.Shaped() && p.op == DoMultiply && Emits(p, tasks) && Run(p.nb, tasks, s0, s)
    ensures Kernel(p.nb, p.Whole(), s0, s)
  {
    hide Computes, Kept, Run;
    forall i, j | Written(p.Whole(), i, j)
      ensures Computes(p.nb, p.Whole(), s0, s, i, j)
    {
      MultipliedAt(p, tasks, s0, s, i, j);
    }
    forall x, i, j | !Overwrites(p.nb, p.Whole(), x, i, j)
      ensures s(x, i, j) == s0(x, i, j)
    {
      RunUntouched(p.nb, tasks, s0, s, x, i, j);
    }
  }
}
