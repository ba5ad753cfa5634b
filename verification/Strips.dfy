/**
 Tilings of a dimension, and the projection of a task list onto a strip of
 tiles: when no task outside the strip writes what a task inside it uses, the
 tasks inside the strip can be run on their own, with the same result there.
 */
module Strips {
  import opened TileTasks
  import opened Schedules

  // ----- Tiling one dimension -----

  /** The number of tiles of a dimension. */
  function Tiles(dim: nat, nb: nat): nat
    requires nb > 0
  {
    (dim + nb - 1) / nb
  }

  /** Where tile x begins; tile x + 1 begins where tile x ends. */
  function Begin(dim: nat, nb: nat, x: nat): nat {
    if x * nb < dim then x * nb else dim
  }

  function Extent(dim: nat, nb: nat, x: nat): (e: nat)
    requires nb > 0
    ensures e == Begin(dim, nb, x + 1) - Begin(dim, nb, x)
    ensures e <= nb
  {
    TileOrder(nb, x, x + 1);
    Begin(dim, nb, x + 1) - Begin(dim, nb, x)
  }

  /** Tiles 0 .. t-1 cover the dimension, and only the last one may be ragged. */
  lemma TilesCover(dim: nat, nb: nat, x: nat)
    requires nb > 0
    ensures x < Tiles(dim, nb) ==>
              Begin(dim, nb, x) == x * nb < dim &&
              Extent(dim, nb, x) == if x == Tiles(dim, nb) - 1 then dim - x * nb else nb
    ensures x >= Tiles(dim, nb) ==> Begin(dim, nb, x) == dim
  {
    var t := Tiles(dim, nb);
    assert (t - 1) * nb < dim <= t * nb by {
      assert (dim + nb - 1) == t * nb + (dim + nb - 1) % nb;
      assert (t - 1) * nb == t * nb - nb;
    }
    assert (x + 1) * nb == x * nb + nb;
    if x < t - 1 {
      TileOrder(nb, x, t - 1);
    } else if x > t {
      TileOrder(nb, t, x);
    }
  }

  /** The tile that holds an index. */
  lemma TileOf(dim: nat, nb: nat, i: nat) returns (x: nat)
    requires nb > 0 && i < dim
    ensures x < Tiles(dim, nb)
    ensures x * nb <= i < x * nb + nb
    ensures Begin(dim, nb, x) <= i < Begin(dim, nb, x + 1)
  {
    x := i / nb;
    assert i == x * nb + i % nb;
    assert (x + 1) * nb == x * nb + nb;
    if x >= Tiles(dim, nb) {
      TilesCover(dim, nb, Tiles(dim, nb));
      if x > Tiles(dim, nb) {
        TileOrder(nb, Tiles(dim, nb), x);
      }
      assert false;
    }
    TilesCover(dim, nb, x);
  }

  lemma BeginMonotone(dim: nat, nb: nat, x: nat, y: nat)
    requires x <= y
    ensures Begin(dim, nb, x) <= Begin(dim, nb, y)
  {
    if x < y {
      TileOrder(nb, x, y);
    }
  }

  // ----- Strips -----

  datatype Strip = Row(q: nat) | Column(q: nat) | Single(m: nat, n: nat)

  predicate InStrip(z: Strip, t: Tile) {
    match z
    case Row(q) => t.m == q
    case Column(q) => t.n == q
    case Single(m, n) => t.m == m && t.n == n
  }

  predicate StripHas(nb: nat, z: Strip, i: int, j: int) {
    match z
    case Row(q) => q * nb <= i < q * nb + nb
    case Column(q) => q * nb <= j < q * nb + nb
    case Single(m, n) => m * nb <= i < m * nb + nb && n * nb <= j < n * nb + nb
  }

  /** The tasks that write a tile of the strip, in order. */
  function Kept(tasks: seq<Task>, z: Strip): seq<Task> {
    if tasks == [] then []
    else if InStrip(z, Out(Last(tasks))) then Kept(Front(tasks), z) + [Last(tasks)]
    else Kept(Front(tasks), z)
  }

  lemma KeptSnoc(tasks: seq<Task>, t: Task, z: Strip)
    ensures Kept(tasks + [t], z) == if InStrip(z, Out(t)) then Kept(tasks, z) + [t] else Kept(tasks, z)
  {
    assert Front(tasks + [t]) == tasks;
  }

  /** The task writes matrix w, and if it writes in the strip it uses no tile of w outside it. */
  predicate Confined(w: Matrix, z: Strip, t: Task) {
    && Out(t).mat == w
    && (InStrip(z, Out(t)) ==> forall a :: a in Accesses(t) && a.tile.mat == w ==> InStrip(z, a.tile))
  }

  ghost predicate AllConfined(w: Matrix, z: Strip, tasks: seq<Task>) {
    forall t :: t in tasks ==> Confined(w, z, t)
  }

  /** s and r agree on the strip of w and on every other matrix. */
  ghost predicate Agree(nb: nat, w: Matrix, z: Strip, s: Store, r: Store) {
    forall x, i, j :: x != w || StripHas(nb, z, i, j) ==> r(x, i, j) == s(x, i, j)
  }

  lemma TileInStrip(nb: nat, z: Strip, t: Tile, i: int, j: int)
    requires 0 <= i < nb && 0 <= j < nb
    ensures StripHas(nb, z, t.m * nb + i, t.n * nb + j) <==> InStrip(z, t)
  {
    match z
    case Row(q) => TilesDisjoint(nb, t.m, i, q);
    case Column(q) => TilesDisjoint(nb, t.n, j, q);
    case Single(m, n) => TilesDisjoint(nb, t.m, i, m); TilesDisjoint(nb, t.n, j, n);
  }

  lemma AgreeInputs(nb: nat, w: Matrix, z: Strip, t: Task, s: Store, r: Store)
    requires Agree(nb, w, z, s, r) && Confined(w, z, t) && InStrip(z, Out(t))
    ensures SameInputs(nb, t, s, r)
  {
    forall a, i, j | a in Accesses(t) && 0 <= i < nb && 0 <= j < nb
      ensures At(nb, r, a.tile, i, j) == At(nb, s, a.tile, i, j)
    {
      TileInStrip(nb, z, a.tile, i, j);
    }
  }

  lemma OutsideStrip(nb: nat, z: Strip, t: Task, x: Matrix, i: int, j: int)
    requires WellSized(nb, t) && !InStrip(z, Out(t)) && Touches(nb, t, x, i, j)
    ensures !StripHas(nb, z, i, j)
  {
    TileInStrip(nb, z, Out(t), i - Out(t).m * nb, j - Out(t).n * nb);
  }

  lemma StepInside(nb: nat, w: Matrix, z: Strip, t: Task, s: Store, s': Store, r0: Store) returns (r: Store)
    requires WellSized(nb, t) && Confined(w, z, t) && InStrip(z, Out(t))
    requires Step(nb, t, s, s') && Agree(nb, w, z, s, r0)
    ensures Step(nb, t, r0, r) && Agree(nb, w, z, s', r)
  {
    AgreeInputs(nb, w, z, t, s, r0);
    Replay(nb, t, s, s', r0);
    r := Graft(nb, t, s', r0);
  }

  lemma StepOutside(nb: nat, w: Matrix, z: Strip, t: Task, s: Store, s': Store, r0: Store)
    requires WellSized(nb, t) && !InStrip(z, Out(t)) && Confined(w, z, t)
    requires Step(nb, t, s, s') && Agree(nb, w, z, s, r0)
    ensures Agree(nb, w, z, s', r0)
  {
    forall x, i, j | x != w || StripHas(nb, z, i, j)
      ensures r0(x, i, j) == s'(x, i, j)
    {
      if Touches(nb, t, x, i, j) {
        OutsideStrip(nb, z, t, x, i, j);
      }
    }
  }

  /** Running the whole list, seen from the strip, is running the strip's own tasks. */
  lemma {:induction false} Project(nb: nat, w: Matrix, z: Strip, tasks: seq<Task>, s: Store, s': Store)
    returns (r: Store)
    requires AllWellSized(nb, tasks) && AllConfined(w, z, tasks)
    requires Run(nb, tasks, s, s')
    ensures Run(nb, Kept(tasks, z), s, r)
    ensures Agree(nb, w, z, s', r)
    decreases |tasks|
  {
    if tasks == [] {
      r := s;
    } else {
      hide Run, Step, Agree, Confined, InStrip;
      var t, front := Last(tasks), Front(tasks);
      assert tasks == front + [t];
      var mid := RunUnsnoc(nb, front, t, s, s');
      var r0 := Project(nb, w, z, front, s, mid);
      KeptSnoc(front, t, z);
      if InStrip(z, Out(t)) {
        r := StepInside(nb, w, z, t, mid, s', r0);
        RunSnoc(nb, Kept(front, z), t, s, r0, r);
      } else {
        StepOutside(nb, w, z, t, mid, s', r0);
        r := r0;
      }
    }
  }

  /** Elements that no task of the list touches keep their value. */
  lemma {:induction false} RunUntouched(nb: nat, tasks: seq<Task>, s: Store, s': Store, x: Matrix, i: int, j: int)
    requires Run(nb, tasks, s, s')
    requires forall t :: t in tasks ==> !Touches(nb, t, x, i, j)
    ensures s'(x, i, j) == s(x, i, j)
    decreases |tasks|
  {
    if tasks != [] {
      assert tasks == Front(tasks) + [Last(tasks)];
      var mid := RunUnsnoc(nb, Front(tasks), Last(tasks), s, s');
      RunUntouched(nb, Front(tasks), s, mid, x, i, j);
    }
  }
}
