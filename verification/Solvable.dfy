/**
 The contract of the triangular solve is met by exactly one result when no
 diagonal element of A vanishes: substitution computes it.
 */
module Solvable {
  import opened Complex
  import opened TileTasks

  /** The order of the triangular operand and the row, or column, that (i, j) belongs to. */
  function Row(t: Task, i: int, j: int): int
    requires t.Trsm?
  {
    if t.side == Left then i else j
  }

  /** Does row r depend on the rows after it, rather than on those before it? */
  predicate UpperLike(t: Task)
    requires t.Trsm?
  {
    (t.side == Left) == ((t.uplo == Upper) == (t.transA == NoTrans))
  }

  function Coef(nb: nat, t: Task, s: Store, r: int, l: int): Scalar
    requires t.Trsm?
  {
    if t.side == Left then OpTriAt(nb, s, t.transA, t.uplo, t.diag, t.a, r, l)
    else OpTriAt(nb, s, t.transA, t.uplo, t.diag, t.a, l, r)
  }

  /** The unknown that the l-th coefficient of (i, j) multiplies. */
  function Unknown(nb: nat, t: Task, x: Store, i: int, j: int, l: int): Scalar
    requires t.Trsm?
  {
    if t.side == Left then At(nb, x, t.b, l, j) else At(nb, x, t.b, i, l)
  }

  ghost predicate Nonsingular(nb: nat, t: Task, s: Store)
    requires t.Trsm?
  {
    forall r :: 0 <= r < Inner(t) ==> Coef(nb, t, s, r, r) != ZERO
  }

  lemma TermIs(nb: nat, t: Task, s: Store, x: Store, i: int, j: int, l: int)
    requires t.Trsm?
    ensures Term(nb, t, s, x, i, j, l) == Mul(Coef(nb, t, s, Row(t, i, j), l), Unknown(nb, t, x, i, j, l))
  {
    MulComm(Coef(nb, t, s, Row(t, i, j), l), Unknown(nb, t, x, i, j, l));
  }

  lemma OffDiagonal(nb: nat, t: Task, s: Store, x: Store, i: int, j: int, l: int)
    requires t.Trsm? && (if UpperLike(t) then l < Row(t, i, j) else Row(t, i, j) < l)
    ensures Term(nb, t, s, x, i, j, l) == ZERO
  {
    TermIs(nb, t, s, x, i, j, l);
    MulZero(Unknown(nb, t, x, i, j, l));
  }

  /** The part of the inner product of (i, j) that involves other rows. */
  function Others(nb: nat, t: Task, s: Store, x: Store, i: int, j: int): Scalar
    requires t.Trsm?
  {
    if UpperLike(t) then Sum(nb, t, s, x, i, j, Row(t, i, j) + 1, Inner(t)) else Sum(nb, t, s, x, i, j, 0, Row(t, i, j))
  }

  lemma SumIs(nb: nat, t: Task, s: Store, x: Store, i: int, j: int)
    requires t.Trsm? && Written(t, i, j)
    ensures var r := Row(t, i, j);
            Sum(nb, t, s, x, i, j, 0, Inner(t)) ==
            Add(Mul(Coef(nb, t, s, r, r), At(nb, x, t.b, i, j)), Others(nb, t, s, x, i, j))
  {
    var r, n := Row(t, i, j), Inner(t);
    var d := Mul(Coef(nb, t, s, r, r), At(nb, x, t.b, i, j));
    TermIs(nb, t, s, x, i, j, r);
    assert Sum(nb, t, s, x, i, j, r, r) == ZERO;
    AddZero(d);
    assert Sum(nb, t, s, x, i, j, r, r + 1) == d;
    hide Sum, Add, Mul, Coef, At, Term;
    SumSplit(nb, t, s, x, i, j, 0, r, n);
    SumSplit(nb, t, s, x, i, j, r, r + 1, n);
    if UpperLike(t) {
      forall l | 0 <= l < r ensures Term(nb, t, s, x, i, j, l) == ZERO { OffDiagonal(nb, t, s, x, i, j, l); }
      SumZero(nb, t, s, x, i, j, 0, r);
      AddZero(Sum(nb, t, s, x, i, j, r, n));
    } else {
      forall l | r + 1 <= l < n ensures Term(nb, t, s, x, i, j, l) == ZERO { OffDiagonal(nb, t, s, x, i, j, l); }
      SumZero(nb, t, s, x, i, j, r + 1, n);
      AddZero(d);
      AddComm(Sum(nb, t, s, x, i, j, 0, r), d);
    }
  }

  /** The step of the substitution at which a row is solved. */
  function StepOf(t: Task, r: int): int
    requires t.Trsm?
  {
    if UpperLike(t) then Inner(t) - 1 - r else r
  }

  /** Two stores that agree on the rows solved before (i, j) give it the same other part. */
  lemma OthersSame(nb: nat, t: Task, s: Store, x: Store, y: Store, i: int, j: int)
    requires t.Trsm? && Written(t, i, j)
    requires forall i', j' :: Written(t, i', j') && StepOf(t, Row(t, i', j')) < StepOf(t, Row(t, i, j)) ==>
               At(nb, x, t.b, i', j') == At(nb, y, t.b, i', j')
    ensures Others(nb, t, s, x, i, j) == Others(nb, t, s, y, i, j)
  {
    hide Sum, Mul, Add, Coef;
    var r := Row(t, i, j);
    var lo, n := if UpperLike(t) then r + 1 else 0, if UpperLike(t) then Inner(t) - 1 - r else r;
    forall d | 0 <= d < n
      ensures TermFrom(nb, t, s, x, i, j, lo, d) == TermFrom(nb, t, s, y, i, j, lo, d)
    {
      var i', j' := if t.side == Left then lo + d else i, if t.side == Left then j else lo + d;
      assert Written(t, i', j') && StepOf(t, Row(t, i', j')) < StepOf(t, r);
      assert At(nb, x, t.b, i', j') == At(nb, y, t.b, i', j');
    }
    SumMatch(nb, t, s, x, i, j, lo, t, s, y, i, j, lo, n);
  }

  // ----- Substitution -----

  function Value(nb: nat, t: Task, s: Store, y: Store, i: int, j: int): Scalar
    requires t.Trsm?
  {
    var c := Coef(nb, t, s, Row(t, i, j), Row(t, i, j));
    if c == ZERO then ZERO
    else Mul(Inv(c), Add(Mul(t.alpha, At(nb, s, t.b, i, j)), Neg(Others(nb, t, s, y, i, j))))
  }

  /** The store after the first k rows have been solved. */
  function Substitute(nb: nat, t: Task, s: Store, k: nat): Store
    requires t.Trsm?
  {
    if k == 0 then s
    else
      var y := Substitute(nb, t, s, k - 1);
      (x: Matrix, i: int, j: int) =>
        var i', j' := i - t.b.m * nb, j - t.b.n * nb;
        if x == t.b.mat && Written(t, i', j') && StepOf(t, Row(t, i', j')) == k - 1 then Value(nb, t, s, y, i', j')
        else y(x, i, j)
  }

  lemma {:induction false} Outside(nb: nat, t: Task, s: Store, k: nat, x: Matrix, i: int, j: int)
    requires t.Trsm? && !Overwrites(nb, t, x, i, j)
    ensures Substitute(nb, t, s, k)(x, i, j) == s(x, i, j)
  {
    hide Value, Written;
    if k > 0 {
      Outside(nb, t, s, k - 1, x, i, j);
    }
  }

  lemma {:induction false} SolvedStays(nb: nat, t: Task, s: Store, k: nat, i: int, j: int)
    requires t.Trsm? && Written(t, i, j) && StepOf(t, Row(t, i, j)) < k
    ensures At(nb, Substitute(nb, t, s, k), t.b, i, j) ==
            Value(nb, t, s, Substitute(nb, t, s, StepOf(t, Row(t, i, j))), i, j)
  {
    if StepOf(t, Row(t, i, j)) < k - 1 {
      SolvedStays(nb, t, s, k - 1, i, j);
    }
  }

  /** c (c^-1 (a - o)) + o = a */
  lemma Cancels(c: Scalar, a: Scalar, o: Scalar)
    requires c != ZERO
    ensures Add(Mul(c, Mul(Inv(c), Add(a, Neg(o)))), o) == a
  {
    MulAssoc(c, Inv(c), Add(a, Neg(o)));
    MulOne(Add(a, Neg(o)));
  }

  lemma SubstituteComputes(nb: nat, t: Task, s: Store, i: int, j: int)
    requires t.Trsm? && Nonsingular(nb, t, s) && Written(t, i, j)
    ensures Computes(nb, t, s, Substitute(nb, t, s, Inner(t)), i, j)
  {
    hide Substitute, Sum, Term, Coef, Others, Mul, Add, At;
    var y, k := Substitute(nb, t, s, Inner(t)), StepOf(t, Row(t, i, j));
    var x := Substitute(nb, t, s, k);
    SolvedStays(nb, t, s, Inner(t), i, j);
    forall i', j' | Written(t, i', j') && StepOf(t, Row(t, i', j')) < k
      ensures At(nb, y, t.b, i', j') == At(nb, x, t.b, i', j')
    {
      SolvedStays(nb, t, s, Inner(t), i', j');
      SolvedStays(nb, t, s, k, i', j');
    }
    OthersSame(nb, t, s, y, x, i, j);
    SumIs(nb, t, s, y, i, j);
    Cancels(Coef(nb, t, s, Row(t, i, j), Row(t, i, j)), Mul(t.alpha, At(nb, s, t.b, i, j)), Others(nb, t, s, x, i, j));
  }

  /** A solve with a nonsingular operand has a result. */
  lemma SolutionExists(nb: nat, t: Task, s: Store) returns (s': Store)
    requires t.Trsm? && Nonsingular(nb, t, s)
    ensures Step(nb, t, s, s')
  {
    hide Computes, Nonsingular;
    s' := Substitute(nb, t, s, Inner(t));
    forall x, i, j | !Touches(nb, t, x, i, j)
      ensures s'(x, i, j) == s(x, i, j)
    {
      Outside(nb, t, s, Inner(t), x, i, j);
    }
    forall i, j | Written(t, i, j)
      ensures Computes(nb, t, s, s', i, j)
    {
      SubstituteComputes(nb, t, s, i, j);
    }
  }

  lemma CancelLeft(c: Scalar, x: Scalar, y: Scalar, o: Scalar)
    requires c != ZERO && Add(Mul(c, x), o) == Add(Mul(c, y), o)
    ensures x == y
  {
    assert Mul(c, x) == Mul(c, y);
    MulComm(c, Inv(c));
    MulAssoc(Inv(c), c, x);
    MulAssoc(Inv(c), c, y);
    MulOne(x);
    MulOne(y);
  }

  lemma {:induction false} RowUnique(nb: nat, t: Task, s: Store, x: Store, y: Store, i: int, j: int)
    requires t.Trsm? && Nonsingular(nb, t, s) && Step(nb, t, s, x) && Step(nb, t, s, y) && Written(t, i, j)
    ensures At(nb, x, t.b, i, j) == At(nb, y, t.b, i, j)
    decreases StepOf(t, Row(t, i, j))
  {
    forall i', j' | Written(t, i', j') && StepOf(t, Row(t, i', j')) < StepOf(t, Row(t, i, j))
      ensures At(nb, x, t.b, i', j') == At(nb, y, t.b, i', j')
    {
      RowUnique(nb, t, s, x, y, i', j');
    }
    OthersSame(nb, t, s, x, y, i, j);
    SumIs(nb, t, s, x, i, j);
    SumIs(nb, t, s, y, i, j);
    assert Computes(nb, t, s, x, i, j) && Computes(nb, t, s, y, i, j);
    CancelLeft(Coef(nb, t, s, Row(t, i, j), Row(t, i, j)), At(nb, x, t.b, i, j), At(nb, y, t.b, i, j),
        Others(nb, t, s, x, i, j));
  }

  /** A solve with a nonsingular operand has one result only. */
  lemma SolutionUnique(nb: nat, t: Task, s: Store, x: Store, y: Store)
    requires t.Trsm? && Nonsingular(nb, t, s) && Step(nb, t, s, x) && Step(nb, t, s, y)
    ensures forall m, i, j :: x(m, i, j) == y(m, i, j)
  {
    hide Nonsingular, Computes;
    forall m, i, j
      ensures x(m, i, j) == y(m, i, j)
    {
      if Touches(nb, t, m, i, j) {
        RowUnique(nb, t, s, x, y, i - t.b.m * nb, j - t.b.n * nb);
      }
    }
  }
}
