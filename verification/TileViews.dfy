/** The tile views of a matrix in memory (xkblas_init_matrix_handle): column major, leading dimension ld. */
module TileViews {
  import opened Strips
  import TileTasks

  const NO_DOMAIN: nat := 0xFFFF

  datatype Matrix = Matrix(addr: nat, M: nat, N: nat, ld: nat, eltsize: nat, mb: nat, nb: nat)

  /** The address of element (i, j). */
  function Element(a: Matrix, i: nat, j: nat): nat { a.addr + (i + j * a.ld) * a.eltsize }

  /** The address of tile (m, n). */
  function Base(a: Matrix, m: nat, n: nat): nat { a.addr + (m * a.mb + n * a.nb * a.ld) * a.eltsize }

  /** The address of element (i, j) of the view of tile (m, n). */
  function ViewElement(a: Matrix, m: nat, n: nat, i: nat, j: nat): nat { Base(a, m, n) + (i + j * a.ld) * a.eltsize }

  predicate Inside(a: Matrix, i: nat, j: nat) { i < a.M && j < a.N }

  predicate IsTile(a: Matrix, m: nat, n: nat)
    requires a.mb > 0 && a.nb > 0
  {
    m < Tiles(a.M, a.mb) && n < Tiles(a.N, a.nb)
  }

  /** (i, j) lies in the view of tile (m, n). */
  predicate InView(a: Matrix, m: nat, n: nat, i: nat, j: nat)
    requires a.mb > 0 && a.nb > 0
  {
    i < Extent(a.M, a.mb, m) && j < Extent(a.N, a.nb, n)
  }

  /** Through the view, an element has the address it has in the matrix. */
  lemma SameAddress(a: Matrix, m: nat, n: nat, i: nat, j: nat)
    ensures ViewElement(a, m, n, i, j) == Element(a, m * a.mb + i, n * a.nb + j)
  {
    assert (n * a.nb + j) * a.ld == n * a.nb * a.ld + j * a.ld;
    var tile, rest := m * a.mb + n * a.nb * a.ld, i + j * a.ld;
    assert tile * a.eltsize + rest * a.eltsize == (tile + rest) * a.eltsize;
  }

  lemma Gap(nb: nat, x: nat, y: nat)
    ensures x < y ==> x * nb + nb <= y * nb
  {
    if x < y { TileTasks.TileOrder(nb, x, y); }
  }

  /** An index lies in one tile only. */
  lemma OneStrip(nb: nat, x: nat, y: nat, i: nat, j: nat)
    requires i < nb && j < nb && x * nb + i == y * nb + j
    ensures x == y && i == j
  {
    Gap(nb, x, y);
    Gap(nb, y, x);
  }

  /** Element (i, j) of the matrix is element (vi, vj) of tile (m, n). */
  predicate Place(a: Matrix, i: nat, j: nat, m: nat, n: nat, vi: nat, vj: nat)
    requires a.mb > 0 && a.nb > 0
  {
    IsTile(a, m, n) && InView(a, m, n, vi, vj) && i == m * a.mb + vi && j == n * a.nb + vj
  }

  lemma OnePlace(a: Matrix, i: nat, j: nat, m: nat, n: nat, vi: nat, vj: nat, m': nat, n': nat, vi': nat, vj': nat)
    requires a.mb > 0 && a.nb > 0 && Place(a, i, j, m, n, vi, vj) && Place(a, i, j, m', n', vi', vj')
    ensures m' == m && n' == n && vi' == vi && vj' == vj
  {
    hide Begin, Tiles;
    OneStrip(a.mb, m, m', vi, vi');
    OneStrip(a.nb, n, n', vj, vj');
  }

  /** Every element of the matrix lies in exactly one view, at exactly one place, with its own address. */
  lemma ViewsPartition(a: Matrix, i: nat, j: nat) returns (m: nat, n: nat, vi: nat, vj: nat)
    requires a.mb > 0 && a.nb > 0 && Inside(a, i, j)
    ensures Place(a, i, j, m, n, vi, vj) && ViewElement(a, m, n, vi, vj) == Element(a, i, j)
    ensures forall m': nat, n': nat, vi': nat, vj': nat ::
              Place(a, i, j, m', n', vi', vj') ==> m' == m && n' == n && vi' == vi && vj' == vj
  {
    m := TileOf(a.M, a.mb, i);
    n := TileOf(a.N, a.nb, j);
    vi, vj := i - m * a.mb, j - n * a.nb;
    TilesCover(a.M, a.mb, m);
    TilesCover(a.N, a.nb, n);
    SameAddress(a, m, n, vi, vj);
    assert Place(a, i, j, m, n, vi, vj);
    hide Place, ViewElement, Element;
    forall m': nat, n': nat, vi': nat, vj': nat | Place(a, i, j, m', n', vi', vj')
      ensures m' == m && n' == n && vi' == vi && vj' == vj
    {
      OnePlace(a, i, j, m, n, vi, vj, m', n', vi', vj');
    }
  }

  /** A place of a view is an element of the matrix. */
  lemma ViewInside(a: Matrix, m: nat, n: nat, i: nat, j: nat)
    requires a.mb > 0 && a.nb > 0 && IsTile(a, m, n) && InView(a, m, n, i, j)
    ensures Inside(a, m * a.mb + i, n * a.nb + j)
  {
    TilesCover(a.M, a.mb, m);
    TilesCover(a.N, a.nb, n);
  }

  /** x is a byte of the element at the address. */
  predicate Covers(a: Matrix, address: nat, x: nat) { address <= x < address + a.eltsize }

  lemma OffsetsOrdered(a: Matrix, p: nat, q: nat, x: nat)
    requires Covers(a, a.addr + p * a.eltsize, x) && Covers(a, a.addr + q * a.eltsize, x)
    ensures p == q
  {
    Gap(a.eltsize, p, q);
    Gap(a.eltsize, q, p);
  }

  /** With ld >= M, or in a single column, no two elements share a byte. */
  lemma ElementsApart(a: Matrix, i: nat, j: nat, i': nat, j': nat, x: nat)
    requires (a.ld >= a.M || a.N <= 1) && Inside(a, i, j) && Inside(a, i', j')
    requires Covers(a, Element(a, i, j), x) && Covers(a, Element(a, i', j'), x)
    ensures i == i' && j == j'
  {
    OffsetsOrdered(a, i + j * a.ld, i' + j' * a.ld, x);
    hide Element, Covers;
    if a.ld >= a.M { OneStrip(a.ld, j, j', i, i'); }
  }

  /** x is a byte of element (i, j) of the view of tile (m, n). */
  predicate Owns(a: Matrix, m: nat, n: nat, i: nat, j: nat, x: nat)
    requires a.mb > 0 && a.nb > 0
  {
    IsTile(a, m, n) && InView(a, m, n, i, j) && Covers(a, ViewElement(a, m, n, i, j), x)
  }

  ghost predicate ViewsApart(a: Matrix)
    requires a.mb > 0 && a.nb > 0
  {
    forall m: nat, n: nat, i: nat, j: nat, m': nat, n': nat, i': nat, j': nat, x: nat ::
      Owns(a, m, n, i, j, x) && Owns(a, m', n', i', j', x) ==> m == m' && n == n' && i == i' && j == j'
  }

  /** The views share no byte if and only if the leading dimension spans a column, or there is only one column. */
  lemma ViewsApartExact(a: Matrix)
    requires a.mb > 0 && a.nb > 0 && a.eltsize > 0
    ensures ViewsApart(a) <==> a.ld >= a.M || a.N <= 1
  {
    if a.ld >= a.M || a.N <= 1 {
      hide Owns;
      forall m: nat, n: nat, i: nat, j: nat, m': nat, n': nat, i': nat, j': nat, x: nat |
        Owns(a, m, n, i, j, x) && Owns(a, m', n', i', j', x)
        ensures m == m' && n == n' && i == i' && j == j'
      {
        OneOwner(a, m, n, i, j, m', n', i', j', x);
      }
    } else {
      Overlap(a);
    }
  }

  lemma OneOwner(a: Matrix, m: nat, n: nat, i: nat, j: nat, m': nat, n': nat, i': nat, j': nat, x: nat)
    requires a.mb > 0 && a.nb > 0 && (a.ld >= a.M || a.N <= 1)
    requires Owns(a, m, n, i, j, x) && Owns(a, m', n', i', j', x)
    ensures m == m' && n == n' && i == i' && j == j'
  {
    SameAddress(a, m, n, i, j);
    SameAddress(a, m', n', i', j');
    ViewInside(a, m, n, i, j);
    ViewInside(a, m', n', i', j');
    var (r, c) := (m * a.mb + i, n * a.nb + j);
    var (r', c') := (m' * a.mb + i', n' * a.nb + j');
    ElementsApart(a, r, c, r', c', x);
    OnePlace(a, r, c, m, n, i, j, m', n', i', j');
  }

  /** The last rows of a column run into the next one. */
  lemma Overlap(a: Matrix)
    requires a.mb > 0 && a.nb > 0 && a.eltsize > 0 && a.ld < a.M && a.N > 1
    ensures !ViewsApart(a)
  {
    var m, n, i, j := ViewsPartition(a, a.ld, 0);
    var m', n', i', j' := ViewsPartition(a, 0, 1);
    var x := Element(a, a.ld, 0);
    assert Element(a, 0, 1) == x;
    assert Owns(a, m, n, i, j, x) && Owns(a, m', n', i', j', x);
  }

  // ----- The table of handles -----

  function TableRow(x: nat, nt: nat): nat
    requires nt > 0
  {
    x / nt
  }

  function TableColumn(x: nat, nt: nat): nat
    requires nt > 0
  {
    x % nt
  }

  lemma TableIndex(nt: nat, m: nat, n: nat)
    requires n < nt
    ensures TableRow(m * nt + n, nt) == m && TableColumn(m * nt + n, nt) == n
  {
    var q, r := (m * nt + n) / nt, (m * nt + n) % nt;
    assert q * nt + r == m * nt + n;
    OneStrip(nt, q, m, r, n);
  }

  class Descriptor {
    var a: Matrix
    var mt: nat
    var nt: nat
    var capacity: nat
    var handle: array<nat>
    var ldid: array<nat>

    predicate Valid()
      reads this
    {
      handle.Length == ldid.Length == capacity && handle != ldid
    }

    constructor ()
      ensures Valid() && capacity == 0 && fresh(handle) && fresh(ldid)
    {
      a, mt, nt, capacity := Matrix(0, 0, 0, 0, 0, 1, 1), 0, 0, 0;
      handle, ldid := new nat[0], new nat[0];
    }

    /** The table is made large enough, and holds the address of every tile, row by row of tiles. */
    method Init(matrix: Matrix)
      requires Valid() && matrix.mb > 0 && matrix.nb > 0
      modifies this, handle, ldid
      ensures Valid() && a == matrix && mt == Tiles(a.M, a.mb) && nt == Tiles(a.N, a.nb) && mt * nt <= capacity
      ensures capacity == if mt * nt >= old(capacity) then mt * nt else old(capacity)
      ensures forall m: nat, n: nat :: m < mt && n < nt ==> HoldsTile(m, n)
    {
      hide Tiles, Entered, HoldsTile;
      a, mt, nt := matrix, Tiles(matrix.M, matrix.mb), Tiles(matrix.N, matrix.nb);
      if mt * nt >= capacity {
        capacity := mt * nt;
        handle, ldid := new nat[capacity], new nat[capacity];
      }
      Fill();
      forall m: nat, n: nat | m < mt && n < nt
        ensures HoldsTile(m, n)
      {
        EnteredAt(m, n);
      }
    }

    /** The table holds the address of tile (m, n) in its place, and no domain for it. */
    ghost predicate HoldsTile(m: nat, n: nat)
      reads this, handle, ldid
    {
      var x := m * nt + n;
      x < handle.Length && x < ldid.Length && handle[x] == Base(a, m, n) && ldid[x] == 0xFFFF
    }

    lemma EnteredAt(m: nat, n: nat)
      requires m < mt && n < nt && forall x :: 0 <= x < mt * nt ==> Entered(x)
      ensures HoldsTile(m, n)
    {
      hide Base, TableRow, TableColumn;
      TableIndex(nt, m, n);
      Gap(nt, m, mt);
      assert Entered(m * nt + n);
    }

    ghost predicate Entered(x: int)
      reads this, handle, ldid
    {
      0 <= x < handle.Length && x < ldid.Length && nt > 0
      && handle[x] == Base(a, TableRow(x, nt), TableColumn(x, nt)) && ldid[x] == NO_DOMAIN
    }

    method Fill()
      requires Valid() && mt * nt <= capacity
      modifies handle, ldid
      ensures forall x :: 0 <= x < mt * nt ==> Entered(x)
    {
      hide Base, TableRow, TableColumn;
      ghost var start := 0;
      for m := 0 to mt
        invariant start == m * nt && forall x :: 0 <= x < start ==> Entered(x)
      {
        FillRow(m);
        start := start + nt;
      }
    }

    /** One row of tiles. */
    method FillRow(m: nat)
      requires Valid() && m < mt && mt * nt <= capacity && forall x :: 0 <= x < m * nt ==> Entered(x)
      modifies handle, ldid
      ensures forall x :: 0 <= x < m * nt + nt ==> Entered(x)
    {
      hide Base, TableRow, TableColumn;
      Gap(nt, m, mt);
      var start := m * nt;
      for n := 0 to nt
        invariant forall x :: 0 <= x < start + n ==> Entered(x)
      {
        TableIndex(nt, m, n);
        var x := start + n;
        label Before:
        handle[x] := Base(a, m, n);
        ldid[x] := NO_DOMAIN;
        assert Entered(x);
        forall y | 0 <= y < x
          ensures Entered(y)
        {
          assert old@Before(Entered(y));
        }
      }
    }
  }
}
