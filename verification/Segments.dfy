/**
 The abstract form of the two address-ordered allocators: a run of memory cut
 into consecutive segments, each free or live.
 */
module Segments {
  datatype Segment = Segment(ptr: nat, size: nat, free: bool)

  // ----- Shape -----

  /** Segment k starts where the one before ends, and is not free next to a free one. */
  predicate Follows(segs: seq<Segment>, k: int) {
    0 < k < |segs| ==>
      segs[k].ptr == segs[k - 1].ptr + segs[k - 1].size && !(segs[k - 1].free && segs[k].free)
  }

  /** The segments fill [base, base + total) exactly and no two neighbours are free. */
  ghost predicate WellFormed(segs: seq<Segment>, base: nat, total: nat) {
    && segs != [] && segs[0].ptr == base
    && (forall k :: 0 <= k < |segs| ==> segs[k].size > 0)
    && (forall k :: Follows(segs, k))
    && segs[|segs| - 1].ptr + segs[|segs| - 1].size == base + total
  }

  function Live(segs: seq<Segment>): set<Segment> {
    set k | 0 <= k < |segs| && !segs[k].free :: segs[k]
  }

  function Bytes(segs: seq<Segment>): nat {
    if segs == [] then 0 else Bytes(segs[..|segs| - 1]) + segs[|segs| - 1].size
  }

  lemma {:induction false} InOrder(segs: seq<Segment>, base: nat, total: nat, i: nat, j: nat)
    requires WellFormed(segs, base, total) && i < j < |segs|
    ensures segs[i].ptr + segs[i].size <= segs[j].ptr && segs[i].ptr < segs[j].ptr
    decreases j
  {
    if i < j - 1 {
      InOrder(segs, base, total, i, j - 1);
    }
    assert Follows(segs, j);
  }

  /** Distinct segments never overlap. */
  lemma Disjoint(segs: seq<Segment>, base: nat, total: nat, i: nat, j: nat, a: nat)
    requires WellFormed(segs, base, total) && i < |segs| && j < |segs| && i != j
    requires segs[i].ptr <= a < segs[i].ptr + segs[i].size
    ensures !(segs[j].ptr <= a < segs[j].ptr + segs[j].size)
  {
    if i < j {
      InOrder(segs, base, total, i, j);
    } else {
      InOrder(segs, base, total, j, i);
    }
  }

  lemma {:induction false} BytesUpTo(segs: seq<Segment>, base: nat, total: nat, n: nat)
    requires WellFormed(segs, base, total) && n < |segs|
    ensures base + Bytes(segs[..n]) == segs[n].ptr
  {
    if n > 0 {
      BytesUpTo(segs, base, total, n - 1);
      assert segs[..n][..n - 1] == segs[..n - 1];
      assert Follows(segs, n);
    }
  }

  /** The bytes of all segments together are those of the run. */
  lemma Conserved(segs: seq<Segment>, base: nat, total: nat)
    requires WellFormed(segs, base, total)
    ensures Bytes(segs) == total
  {
    BytesUpTo(segs, base, total, |segs| - 1);
  }

  /** When nothing is live a single free segment spans the run. */
  lemma NothingLive(segs: seq<Segment>, base: nat, total: nat)
    requires WellFormed(segs, base, total) && Live(segs) == {}
    ensures segs == [Segment(base, total, true)]
  {
    assert forall k :: 0 <= k < |segs| && !segs[k].free ==> segs[k] in Live(segs);
    assert Follows(segs, 1);
  }

  // ----- Taking -----

  /** Take size bytes at the front of segment k; what is left over stays free when split. */
  function Take(segs: seq<Segment>, k: nat, size: nat, split: bool): seq<Segment>
    requires k < |segs| && size <= segs[k].size
  {
    if split then
      segs[..k] + [Segment(segs[k].ptr, size, false), Segment(segs[k].ptr + size, segs[k].size - size, true)] +
          segs[k + 1..]
    else segs[k := segs[k].(free := false)]
  }

  lemma TakeKeeps(segs: seq<Segment>, k: nat, size: nat, split: bool, base: nat, total: nat)
    requires WellFormed(segs, base, total) && k < |segs| && segs[k].free && 0 < size <= segs[k].size
    requires split ==> size < segs[k].size
    ensures WellFormed(Take(segs, k, size, split), base, total)
  {
    var segs' := Take(segs, k, size, split);
    forall j
      ensures Follows(segs', j)
    {
      assert Follows(segs, j) && Follows(segs, j - 1);
    }
  }

  /** Taking adds one live segment, at the front of a free one, and touches no other. */
  lemma TakeLive(segs: seq<Segment>, k: nat, size: nat, split: bool)
    requires k < |segs| && segs[k].free && size <= segs[k].size
    ensures Live(Take(segs, k, size, split))
              == Live(segs) + {Segment(segs[k].ptr, if split then size else segs[k].size, false)}
  {
    var segs' := Take(segs, k, size, split);
    var s := Segment(segs[k].ptr, if split then size else segs[k].size, false);
    assert segs'[k] == s;
    assert forall j :: 0 <= j < k ==> segs'[j] == segs[j];
    if split {
      assert forall j :: k + 1 < j < |segs'| ==> segs'[j] == segs[j - 1];
      assert forall j :: k < j < |segs| ==> segs[j] == segs'[j + 1];
    }
    forall x | x in Live(segs)
      ensures x in Live(segs')
    {
      var j :| 0 <= j < |segs| && !segs[j].free && segs[j] == x;
      assert segs'[if split && j > k then j + 1 else j] == x;
    }
    forall x | x in Live(segs')
      ensures x in Live(segs) + {s}
    {
      var j :| 0 <= j < |segs'| && !segs'[j].free && segs'[j] == x;
      if j != k {
        assert segs[if split && j > k then j - 1 else j] == x;
      }
    }
  }

  // ----- Giving back -----

  predicate FreeAt(segs: seq<Segment>, k: int) { 0 <= k < |segs| && segs[k].free }

  /** The segment that segment k becomes part of when it is given back. */
  function Merged(segs: seq<Segment>, k: nat): Segment
    requires k < |segs|
  {
    var lo := if FreeAt(segs, k - 1) then k - 1 else k;
    var before := if FreeAt(segs, k - 1) then segs[k - 1].size else 0;
    var after := if FreeAt(segs, k + 1) then segs[k + 1].size else 0;
    Segment(segs[lo].ptr, before + segs[k].size + after, true)
  }

  /** Segment k becomes free and merges with its free neighbours. */
  function Give(segs: seq<Segment>, k: nat): seq<Segment>
    requires k < |segs|
  {
    segs[..if FreeAt(segs, k - 1) then k - 1 else k] + [Merged(segs, k)] +
    segs[if FreeAt(segs, k + 1) then k + 2 else k + 1..]
  }

  /** Give, element by element. */
  lemma GiveAt(segs: seq<Segment>, k: nat)
    requires k < |segs|
    ensures var segs', lo := Give(segs, k), if FreeAt(segs, k - 1) then k - 1 else k;
            var gap := (if FreeAt(segs, k - 1) then 1 else 0) + (if FreeAt(segs, k + 1) then 1 else 0);
            && |segs'| == |segs| - gap && lo < |segs'| && segs'[lo] == Merged(segs, k)
            && (forall j {:trigger segs'[j]} :: 0 <= j < lo ==> segs'[j] == segs[j])
            && (forall j {:trigger segs'[j]} :: lo < j < |segs'| ==> segs'[j] == segs[j + gap])
  {
  }

  lemma GiveKeeps(segs: seq<Segment>, k: nat, base: nat, total: nat)
    requires WellFormed(segs, base, total) && k < |segs| && !segs[k].free
    ensures WellFormed(Give(segs, k), base, total)
  {
    GiveAt(segs, k);
    hide Give, Follows;
    var segs' := Give(segs, k);
    forall j
      ensures Follows(segs', j)
    {
      GiveFollows(segs, k, j);
    }
    GiveEnds(segs, k);
  }

  lemma GiveFollows(segs: seq<Segment>, k: nat, j: int)
    requires k < |segs| && !segs[k].free && forall i :: Follows(segs, i)
    ensures Follows(Give(segs, k), j)
  {
    GiveAt(segs, k);
    hide Give;
    var gap := (if FreeAt(segs, k - 1) then 1 else 0) + (if FreeAt(segs, k + 1) then 1 else 0);
    assert Follows(segs, k - 1) && Follows(segs, k) && Follows(segs, k + 1) && Follows(segs, k + 2);
    assert Follows(segs, j) && Follows(segs, j + gap);
  }

  lemma GiveEnds(segs: seq<Segment>, k: nat)
    requires k < |segs| && forall i :: Follows(segs, i)
    ensures var segs' := Give(segs, k); var z, z' := segs[|segs| - 1], segs'[|segs'| - 1];
            segs'[0].ptr == segs[0].ptr && z'.ptr + z'.size == z.ptr + z.size
  {
    GiveAt(segs, k);
    hide Give;
    assert Follows(segs, k) && Follows(segs, k + 1);
  }

  /** Giving back removes one live segment and touches no other. */
  lemma GiveLive(segs: seq<Segment>, k: nat, base: nat, total: nat)
    requires WellFormed(segs, base, total) && k < |segs| && !segs[k].free
    ensures Live(Give(segs, k)) == Live(segs) - {segs[k]}
  {
    hide Give, WellFormed, Merged;
    forall x | x in Live(segs) && x != segs[k]
      ensures x in Live(Give(segs, k))
    {
      StaysLive(segs, k, x);
    }
    forall x | x in Live(Give(segs, k))
      ensures x in Live(segs) && x != segs[k]
    {
      WasLive(segs, k, x, base, total);
    }
  }

  lemma StaysLive(segs: seq<Segment>, k: nat, x: Segment)
    requires k < |segs| && !segs[k].free && x in Live(segs) && x != segs[k]
    ensures x in Live(Give(segs, k))
  {
    GiveAt(segs, k);
    hide Give, Merged;
    var segs' := Give(segs, k);
    var gap := (if FreeAt(segs, k - 1) then 1 else 0) + (if FreeAt(segs, k + 1) then 1 else 0);
    var j :| 0 <= j < |segs| && !segs[j].free && segs[j] == x;
    assert segs'[if j < k then j else j - gap] == x;
  }

  lemma WasLive(segs: seq<Segment>, k: nat, x: Segment, base: nat, total: nat)
    requires WellFormed(segs, base, total) && k < |segs| && !segs[k].free && x in Live(Give(segs, k))
    ensures x in Live(segs) && x.ptr != segs[k].ptr
  {
    GiveAt(segs, k);
    assert Merged(segs, k).free;
    hide Give, WellFormed, Merged;
    var segs' := Give(segs, k);
    var lo := if FreeAt(segs, k - 1) then k - 1 else k;
    var gap := (if FreeAt(segs, k - 1) then 1 else 0) + (if FreeAt(segs, k + 1) then 1 else 0);
    var j :| 0 <= j < |segs'| && !segs'[j].free && segs'[j] == x;
    var i := if j < lo then j else j + gap;
    assert segs[i] == x && i != k;
    if i < k {
      InOrder(segs, base, total, i, k);
    } else {
      InOrder(segs, base, total, k, i);
    }
  }

  // ----- Cutting and joining, as the code does it -----

  function Cut(segs: seq<Segment>, k: nat, size: nat): seq<Segment>
    requires k < |segs| && size <= segs[k].size
  {
    segs[..k] + [Segment(segs[k].ptr, size, true), Segment(segs[k].ptr + size, segs[k].size - size, true)] +
        segs[k + 1..]
  }

  function Join(segs: seq<Segment>, k: nat): seq<Segment>
    requires k + 1 < |segs|
  {
    segs[..k] + [Segment(segs[k].ptr, segs[k].size + segs[k + 1].size, true)] + segs[k + 2..]
  }

  /** The second half of giving back segment k: it joins a free segment before it. */
  function JoinPrev(segs: seq<Segment>, k: nat): seq<Segment>
    requires k < |segs|
  {
    if FreeAt(segs, k - 1) then Join(segs, k - 1) else segs[k := segs[k].(free := true)]
  }

  /** Giving back, as the code does it: join with the next chunk, then with the one before. */
  lemma GiveJoin(segs: seq<Segment>, k: nat)
    requires k < |segs| && !segs[k].free
    ensures FreeAt(segs, k + 1) ==> k < |Join(segs, k)| && Give(segs, k) == JoinPrev(Join(segs, k), k)
    ensures !FreeAt(segs, k + 1) ==> Give(segs, k) == JoinPrev(segs, k)
  {
    if FreeAt(segs, k + 1) {
      var joined := Join(segs, k);
      assert joined[..k] == segs[..k] && joined[k + 1..] == segs[k + 2..];
      assert joined[k] == Segment(segs[k].ptr, segs[k].size + segs[k + 1].size, true);
      hide Join;
      JoinPrevIs(joined, k);
      assert k > 0 ==>
          joined[k - 1] == joined[..k][k - 1] == segs[k - 1]
              && joined[..k - 1] == joined[..k][..k - 1] == segs[..k - 1];
    } else {
      JoinPrevIs(segs, k);
    }
  }

  lemma JoinPrevIs(segs: seq<Segment>, k: nat)
    requires k < |segs|
    ensures FreeAt(segs, k - 1) ==>
              JoinPrev(segs, k)
                  == segs[..k - 1] + [Segment(segs[k - 1].ptr, segs[k - 1].size + segs[k].size, true)] + segs[k + 1..]
    ensures !FreeAt(segs, k - 1) ==>
              JoinPrev(segs, k) == segs[..k] + [Segment(segs[k].ptr, segs[k].size, true)] + segs[k + 1..]
  {
  }

  // ----- Giving everything back -----

  /** Where a live segment lies, by its address. */
  predicate At(segs: seq<Segment>, k: nat, ptr: nat) { k < |segs| && segs[k].ptr == ptr && !segs[k].free }

  /** Give back the segments at the listed addresses, one after the other. */
  ghost predicate GivesBack(segs: seq<Segment>, ptrs: seq<nat>, segs': seq<Segment>)
    decreases |ptrs|
  {
    if ptrs == [] then segs' == segs
    else exists k: nat :: At(segs, k, ptrs[0]) && GivesBack(Give(segs, k), ptrs[1..], segs')
  }

  /** Giving back every live segment, in any order, leaves one free segment over the whole run. */
  lemma {:induction false} AllBack(segs: seq<Segment>, ptrs: seq<nat>, segs': seq<Segment>, base: nat, total: nat)
    requires WellFormed(segs, base, total) && GivesBack(segs, ptrs, segs')
    requires forall x :: x in Live(segs) ==> x.ptr in ptrs
    ensures segs' == [Segment(base, total, true)]
    decreases |ptrs|
  {
    if ptrs == [] {
      assert Live(segs) == {};
      NothingLive(segs, base, total);
    } else {
      var k: nat :| At(segs, k, ptrs[0]) && GivesBack(Give(segs, k), ptrs[1..], segs');
      GiveKeeps(segs, k, base, total);
      GiveLive(segs, k, base, total);
      forall x | x in Live(Give(segs, k))
        ensures x.ptr in ptrs[1..]
      {
        WasLive(segs, k, x, base, total);
      }
      AllBack(Give(segs, k), ptrs[1..], segs', base, total);
    }
  }
}
