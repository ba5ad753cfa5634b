/** Registering a work buffer: every piece is taken, then every piece is cleared and given back. */
module Registration {
  import opened Machine
  import opened Segments
  import opened WorkList
  import opened WorkBuffer

  /** Where piece i begins. */
  function Offset(i: nat): nat { PIECE * i }

  lemma OffsetStep(i: nat)
    ensures Offset(i + 1) == Offset(i) + PIECE && Offset(0) == 0
  {
  }

  lemma OffsetOrder(i: nat, j: nat)
    requires i <= j
    ensures Offset(i) <= Offset(j)
  {
  }

  function Min(a: nat, b: nat): nat { if a < b then a else b }

  /** Piece i of a buffer of the given size. */
  function Piece(ptr: nat, size: nat, i: nat): Segment
    requires Offset(i) <= size
  {
    Segment(ptr + Offset(i), Min(PIECE, size - Offset(i)), false)
  }

  /** The first n pieces are live. */
  function Pieces(ptr: nat, size: nat, n: nat): seq<Segment>
    requires n > 0 ==> Offset(n - 1) <= size
  {
    seq(n, i requires 0 <= i < n => Piece(ptr, size, i))
  }

  /** The buffer while its pieces are taken: n pieces, and the rest, if any, free. */
  function Taken(ptr: nat, size: nat, n: nat): seq<Segment>
    requires n > 0 ==> Offset(n - 1) <= size
  {
    Pieces(ptr, size, n) + if Offset(n) < size then [Segment(ptr + Offset(n), size - Offset(n), true)] else []
  }

  /** The buffer while its n pieces are given back in order, j of them so far. */
  function Given(ptr: nat, size: nat, n: nat, j: nat): seq<Segment>
    requires j <= n && (n > 0 ==> Offset(n - 1) <= size)
  {
    (if j == 0 then [] else [Segment(ptr, Min(Offset(j), size), true)]) + Pieces(ptr, size, n)[j..]
  }

  lemma TakePiece(ptr: nat, size: nat, n: nat, k: nat)
    requires Offset(n) < size
    ensures var segs, piece := Taken(ptr, size, n), Min(PIECE, size - Offset(n));
            && |segs| == n + 1 && segs[n] == Segment(ptr + Offset(n), size - Offset(n), true)
            && (forall i :: 0 <= i < n ==> !segs[i].free)
            && Take(segs, n, piece, piece < segs[n].size) == Taken(ptr, size, n + 1)
            && (IsFirstFit(segs, k, piece) ==> k == n)
  {
    assert Offset(n + 1) == Offset(n) + PIECE;
    var segs := Taken(ptr, size, n);
    assert Pieces(ptr, size, n + 1) == Pieces(ptr, size, n) + [Piece(ptr, size, n)];
  }

  lemma GivenAt(ptr: nat, size: nat, n: nat, j: nat)
    requires j < n && Offset(n - 1) < size <= Offset(n)
    ensures var segs, k := Given(ptr, size, n, j), if j == 0 then 0 else 1;
            && |segs| == n - j + k && segs[k] == Piece(ptr, size, j) && segs[k + 1..] == Pieces(ptr, size, n)[j + 1..]
            && (k + 1 < |segs| ==> !segs[k + 1].free)
            && (k == 1 ==> segs[0] == Segment(ptr, Min(Offset(j), size), true))
  {
    var segs, k, pieces := Given(ptr, size, n, j), if j == 0 then 0 else 1, Pieces(ptr, size, n);
    assert pieces[j..] == [pieces[j]] + pieces[j + 1..];
    assert j + 1 < n ==> segs[k + 1] == pieces[j + 1];
  }

  lemma GivenNext(ptr: nat, size: nat, n: nat, j: nat)
    requires j < n && Offset(n - 1) < size <= Offset(n)
    ensures Given(ptr, size, n, j + 1) == [Segment(ptr, Min(Offset(j + 1), size), true)] + Pieces(ptr, size, n)[j + 1..]
    ensures Offset(j + 1) == Offset(j) + PIECE && Offset(j) <= Offset(n - 1)
  {
    OffsetStep(j);
    OffsetOrder(j, n - 1);
  }

  lemma GivePiece(ptr: nat, size: nat, n: nat, j: nat)
    requires j < n && Offset(n - 1) < size <= Offset(n)
    ensures var segs, k := Given(ptr, size, n, j), if j == 0 then 0 else 1;
            At(segs, k, ptr + Offset(j)) && Give(segs, k) == Given(ptr, size, n, j + 1)
  {
    hide Given, Pieces, Offset;
    var segs, k := Given(ptr, size, n, j), if j == 0 then 0 else 1;
    GivenAt(ptr, size, n, j);
    GivenNext(ptr, size, n, j);
    OffsetStep(0);
    assert !FreeAt(segs, k + 1) && (k == 1 ==> FreeAt(segs, 0));
    assert Merged(segs, k) == Segment(ptr, Min(Offset(j + 1), size), true);
    assert Give(segs, k) == [Merged(segs, k)] + segs[k + 1..];
  }

  lemma SamePlace(segs: seq<Segment>, base: nat, total: nat, k: nat, k': nat, ptr: nat)
    requires WellFormed(segs, base, total) && At(segs, k, ptr) && At(segs, k', ptr)
    ensures k == k'
  {
    if k < k' { InOrder(segs, base, total, k, k'); } else if k' < k { InOrder(segs, base, total, k', k); }
  }

  lemma AlignedIs(x: nat)
    ensures x <= Aligned(x) < x + 8 && (Aligned(x) == x <==> x % 8 == 0)
    ensures x <= PIECE ==> Aligned(x) <= PIECE
  {
  }

  /** A whole piece is aligned; the rest is aligned when the whole buffer is. */
  lemma PieceAligned(size: nat, n: nat)
    requires Offset(n) < size
    ensures Min(PIECE, size - Offset(n)) % 8 == 0 <==> Offset(n + 1) <= size || size % 8 == 0
  {
    var q := PIECE / 8 * n;
    assert Offset(n) == 8 * q && Offset(n + 1) == Offset(n) + PIECE;
    assert size == (size - Offset(n)) + 8 * q;
  }

  /** One piece is taken, unless the alignment asks for more than is left. */
  method TakeOne(b: Buffer, ptr: nat, size: nat, ghost n: nat, min: nat) returns (r: Outcome)
    requires b.Valid() && b.total == size < WORD && Offset(n) < size && b.segs == Taken(ptr, size, n)
    requires min == Min(PIECE, size - Offset(n))
    modifies b
    ensures b.Valid() && (r.Returns? <==> min % 8 == 0)
    ensures r.Returns? ==> b.segs == Taken(ptr, size, n + 1)
    ensures !r.Returns? ==> r == if size < Aligned(min) then Exits else Waits
  {
    ghost var k: nat;
    AlignedIs(min);
    AlignedWraps(min);
    ghost var segs := b.segs;
    r, k := b.GetWorkPos(min);
    TakePiece(ptr, size, n, k);
    hide Taken, WellFormed, Take, Aligned, AlignedWord;
    assert segs[n].size == size - Offset(n);
    if min % 8 == 0 {
      assert Fits(segs[n], min);
    }
  }

  lemma Ends(ptr: nat, size: nat, n: nat)
    ensures size > 0 ==> Taken(ptr, size, 0) == [Segment(ptr, size, true)]
    ensures n > 0 && Offset(n - 1) < size <= Offset(n) ==>
              && Taken(ptr, size, n) == Pieces(ptr, size, n) == Given(ptr, size, n, 0)
              && Given(ptr, size, n, n) == [Segment(ptr, size, true)]
  {
    if n > 0 && Offset(n - 1) < size <= Offset(n) {
      assert Pieces(ptr, size, n)[n..] == [];
    }
  }

  /** The outcome for a piece, in terms of the whole buffer. */
  lemma PieceOutcome(size: nat, n: nat, min: nat)
    requires Offset(n) < size && min == Min(PIECE, size - Offset(n))
    ensures Offset(n + 1) == Offset(n) + PIECE
    ensures min % 8 == 0 <==> Offset(n + 1) <= size || size % 8 == 0
    ensures min % 8 != 0 ==> (size < Aligned(min) <==> size < PIECE)
    ensures Offset(n + 1) == size ==> size % 8 == 0
  {
    PieceAligned(size, n);
    assert Offset(n + 1) == 8 * (PIECE / 8 * (n + 1));
    AlignedIs(min);
    OffsetStep(n);
    if n > 0 { OffsetOrder(1, n); }
  }

  /** The first loop of the registration: take every piece. */
  method TakeAll(b: Buffer, ptr: nat, size: nat) returns (r: Outcome, ghost n: nat)
    requires b.segs == [Segment(ptr, size, true)] && b.total == size < 0x1_0000_0000_0000_0000
    requires size > 0 ==> b.Valid()
    modifies b
    ensures r.Returns? <==> size % 8 == 0
    ensures size % 8 != 0 ==> r == if size < 0x4000_0000 then Exits else Waits
    ensures size > 0 ==>
              b.Valid() && (r.Returns? ==> n > 0 && Offset(n - 1) < size <= Offset(n) && b.segs == Pieces(ptr, size, n))
    ensures size == 0 ==> b.segs == old(b.segs)
  {
    hide Represents, WellFormed, Aligned, Taken, Offset, Pieces, Given;
    var pos, keep := ptr, size;
    n := 0;
    r := Returns(NULL);
    Ends(ptr, size, 0);
    OffsetStep(0);
    while pos < ptr + size
      invariant r.Returns? && keep + (pos - ptr) == size && pos == ptr + Min(Offset(n), size)
      invariant n > 0 ==> Offset(n - 1) < size
      invariant if size > 0 then b.Valid() && b.segs == Taken(ptr, size, n) else b.segs == old(b.segs)
      invariant n == 0 ==> Offset(0) == 0
      invariant keep == 0 ==> size % 8 == 0
      decreases keep
    {
      var min := if keep < PIECE then keep else PIECE;
      PieceOutcome(size, n, min);
      r := TakeOne(b, ptr, size, n, min);
      if !r.Returns? {
        return;
      }
      pos := pos + min;
      keep := keep - min;
      n := n + 1;
    }
    Ends(ptr, size, n);
  }

  /** One piece is given back. */
  method GiveOne(b: Buffer, ptr: nat, size: nat, ghost n: nat, ghost j: nat, pos: nat) returns (r: Outcome)
    requires j < n && Offset(n - 1) < size <= Offset(n) && pos == ptr + Offset(j)
    requires b.Valid() && b.total == size && b.base == ptr && b.segs == Given(ptr, size, n, j)
    modifies b
    ensures b.Valid() && r == Returns(NULL) && b.segs == Given(ptr, size, n, j + 1)
  {
    hide Represents, WellFormed, Given, Give, Offset;
    GivePiece(ptr, size, n, j);
    ghost var segs, k := b.segs, if j == 0 then 0 else 1;
    ghost var place: nat;
    r, place := b.FreeWorkPos(pos);
    assert segs[k].ptr == pos && !segs[k].free;
    SamePlace(segs, ptr, size, place, k, pos);
  }

  /** The second loop of the registration, in the thread that clears the memory: give every piece back. */
  method GiveAll(b: Buffer, ptr: nat, size: nat, ghost n: nat) returns (r: Outcome)
    requires b.total == size && b.base == ptr
    requires if size == 0 then b.segs == [Segment(ptr, size, true)] else
               b.Valid() && n > 0 && Offset(n - 1) < size <= Offset(n) && b.segs == Pieces(ptr, size, n)
    modifies b
    ensures r == Returns(NULL) && b.segs == [Segment(ptr, size, true)] && (size > 0 ==> b.Valid())
  {
    hide Represents, WellFormed, Taken, Offset, Pieces, Given;
    var pos := ptr;
    ghost var j := 0;
    r := Returns(NULL);
    Ends(ptr, size, n);
    OffsetStep(0);
    while pos < ptr + size
      invariant r == Returns(NULL) && j <= n && pos == ptr + Offset(j)
      invariant if size > 0 then b.Valid() && b.segs == Given(ptr, size, n, j) else j == 0 && b.segs == old(b.segs)
      decreases n - j
    {
      OffsetStep(j);
      r := GiveOne(b, ptr, size, n, j, pos);
      pos := pos + PIECE;
      j := j + 1;
    }
    if size > 0 && j < n { OffsetOrder(j, n - 1); }
  }

  /** xkblas_register_work_buffer: it ends, with the whole buffer free, exactly for a multiple of eight bytes. */
  method Register(ptr: nat, size: nat) returns (r: Outcome, b: Buffer)
    requires size < 0x1_0000_0000_0000_0000
    ensures fresh(b) && (b.Valid() <==> size > 0)
    ensures r.Returns? <==> size % 8 == 0
    ensures r.Returns? ==> b.segs == [Segment(ptr, size, true)]
    ensures !r.Returns? ==> r == if size < 0x4000_0000 then Exits else Waits
  {
    b := new Buffer(ptr, size);
    ghost var n: nat;
    r, n := TakeAll(b, ptr, size);
    if r.Returns? {
      r := GiveAll(b, ptr, size, n);
    }
  }
}
