/**
 The unified work buffer (xkblas_get_work_pos, xkblas_free_work_pos and
 xkblas_register_work_buffer): one registered run of memory cut into segments,
 handed out first fit. The segments are records in linked lists.
 */
module WorkBuffer {
  import opened Machine
  import opened Segments
  import opened LinkedList
  import opened WorkList

  const PIECE: nat := 0x4000_0000

  /** A call returns, ends the process, or waits for another thread to give memory back. */
  datatype Outcome = Returns(ptr: nat) | Exits | Waits

  function Aligned(request: nat): nat { (request + 7) / 8 * 8 }

  /** The same in 64 bits. */
  function AlignedWord(request: nat): nat { (request + 7) % WORD / 8 * 8 }

  lemma AlignedWraps(request: nat)
    requires 0 < request < 0x1_0000_0000_0000_0000
    ensures AlignedWord(request) > 0 <==> request <= 0xFFFF_FFFF_FFFF_FFF8
    ensures request <= 0xFFFF_FFFF_FFFF_FFF8 ==> AlignedWord(request) == Aligned(request)
    ensures AlignedWord(request) == if request <= 0xFFFF_FFFF_FFFF_FFF8 then (request + 7) / 8 * 8 else 0
  {
  }

  /**
   What an allocation makes of the segment it finds is sound exactly for the requests
   whose rounding does not wrap around: the others get an empty segment.
   */
  lemma RequestExact(segs: seq<Segment>, base: nat, total: nat, k: nat, request: nat)
    requires WellFormed(segs, base, total) && 0 < request < 0x1_0000_0000_0000_0000
    requires IsFirstFit(segs, k, AlignedWord(request))
    ensures var size := AlignedWord(request);
            WellFormed(Segments.Take(segs, k, size, size < segs[k].size), base, total) <==>
            request <= 0xFFFF_FFFF_FFFF_FFF8
  {
    AlignedWraps(request);
    hide AlignedWord;
    var size := AlignedWord(request);
    if size > 0 {
      TakeKeeps(segs, k, size, size < segs[k].size, base, total);
    } else {
      assert Segments.Take(segs, k, size, size < segs[k].size)[k].size == 0;
    }
  }

  predicate Fits(s: Segment, size: nat) { s.free && s.size >= size }

  predicate IsFirstFit(segs: seq<Segment>, k: nat, size: nat) {
    && k < |segs| && Fits(segs[k], size)
    && (forall i :: 0 <= i < k ==> !Fits(segs[i], size))
  }

  lemma Walk(m: Store, head: nat, ids: seq<nat>, k: nat)
    requires List(m, head, ids) && k < |ids|
    ensures ids[k] in m && m[ids[k]] == Links(IdAt(ids, k - 1), IdAt(ids, k + 1)) && ids[k] != NULL
    ensures forall j :: 0 <= j < |ids| && j != k ==> ids[j] != ids[k]
    ensures IdAt(ids, k + 1) != NULL ==> k + 1 < |ids| && ids[k + 1] in m
    ensures IdAt(ids, k - 1) != NULL ==> k - 1 >= 0 && ids[k - 1] in m
  {
    assert LinkedAt(m, ids, k) && LinkedAt(m, ids, k + 1) && LinkedAt(m, ids, k - 1);
  }

  class Buffer {
    var info: map<nat, Info>
    var chain: Store
    var frees: Store
    var first: nat
    var freeList: nat
    var brk: nat
    const total: nat
    ghost const base: nat
    ghost var ids: seq<nat>
    ghost var segs: seq<Segment>

    function View(): State
      reads this
    {
      State(info, chain, frees, first, freeList)
    }

    ghost predicate Sound()
      reads this
    {
      Represents(View(), ids, segs) && NULL < brk && forall id :: id in info ==> id < brk
    }

    ghost predicate Valid()
      reads this
    {
      Sound() && WellFormed(segs, base, total)
    }

    constructor (ptr: nat, size: nat)
      ensures Sound() && base == ptr && total == size && segs == [Segment(ptr, size, true)]
      ensures Valid() <==> size > 0
    {
      info, chain, frees := map[1 := Info(size, true, ptr)], map[1 := Links(NULL, NULL)], map[1 := Links(NULL, NULL)];
      first, freeList, brk, total, base := 1, 1, 2, size, ptr;
      ids, segs := [1], [Segment(ptr, size, true)];
      new;
      StartRepresents(ptr, size);
    }

    // ----- Walks -----

    /** The walk of the free list in search of room. */
    method FindFirstFit(size: nat) returns (curr: nat, ghost k: nat)
      requires Sound()
      ensures curr == NULL <==> forall i :: 0 <= i < |segs| ==> !Fits(segs[i], size)
      ensures curr != NULL ==> IsFirstFit(segs, k, size) && k < |ids| && ids[k] == curr
    {
      ghost var fids, f := FreeIds(ids, segs), 0;
      hide Represents, FreeIds, FreeBefore;
      curr, k := freeList, 0;
      HeadNode(View(), ids, segs);
      while curr != NULL && info[curr].size < size
        invariant f <= |fids| && curr == IdAt(fids, f)
        invariant curr != NULL ==> f < |fids| && curr in info && curr in frees
        invariant NoFitBefore(ids, segs, f, size)
        decreases |fids| - f
      {
        FreeNode(View(), ids, segs, f);
        NoFitNext(View(), ids, segs, f, size);
        curr := frees[curr].next;
        f := f + 1;
        if f < |fids| { FreeNode(View(), ids, segs, f); }
      }
      if curr != NULL {
        k := FreePosition(ids, segs, f);
        NodeFacts(View(), ids, segs, k);
        FirstOfAll(ids, segs, f, k, size);
      } else {
        NoneAtAll(ids, segs, size);
      }
    }

    /** The walk of the chain in search of an address. */
    method FindAddress(ptr: nat) returns (curr: nat, ghost k: nat)
      requires Valid()
      ensures curr == NULL <==> forall i :: 0 <= i < |segs| ==> segs[i].ptr != ptr
      ensures curr != NULL ==> k < |segs| == |ids| && ids[k] == curr && segs[k].ptr == ptr
    {
      curr, k := first, 0;
      while curr != NULL && info[curr].ptr < ptr
        invariant k <= |ids| == |segs| && curr == IdAt(ids, k)
        invariant curr != NULL ==> k < |ids| && curr in info && curr in chain
        invariant forall i :: 0 <= i < k ==> segs[i].ptr < ptr
        decreases |ids| - k
      {
        SegmentInfo(View(), ids, segs, k);
        Walk(chain, first, ids, k);
        curr := chain[curr].next;
        k := k + 1;
        if k < |ids| { SegmentInfo(View(), ids, segs, k); }
      }
      if curr != NULL {
        SegmentInfo(View(), ids, segs, k);
        Later(segs, base, total, k);
        if info[curr].ptr > ptr {
          curr := NULL;
        }
      }
    }

    // ----- Relinking -----

    /** r enters the chain behind c. */
    method ChainInsert(c: nat, r: nat)
      requires c in chain && NULL !in chain && r !in chain && r != NULL
      requires chain[c].next != NULL ==> chain[c].next in chain && chain[c].next != c
      modifies this`chain
      ensures chain == InsertAfter(old(chain), c, r, first)
    {
      chain := chain[r := Links(c, chain[c].next)];
      if chain[c].next != NULL {
        chain := chain[chain[c].next := chain[chain[c].next].(prev := r)];
      }
      chain := chain[c := chain[c].(next := r)];
    }

    /** r enters the free list behind c. */
    method FreesInsert(c: nat, r: nat)
      requires c in frees && NULL !in frees && r !in frees && r != NULL
      requires frees[c].next != NULL ==> frees[c].next in frees && frees[c].next != c
      modifies this`frees
      ensures frees == InsertAfter(old(frees), c, r, freeList)
    {
      frees := frees[r := Links(c, frees[c].next)];
      if frees[r].next != NULL {
        frees := frees[frees[r].next := frees[frees[r].next].(prev := r)];
      }
      frees := frees[c := frees[c].(next := r)];
    }

    /** Segment c keeps size bytes; the remainder is linked in behind it, in both lists. */
    method SplitSegment(c: nat, size: nat)
      requires c in info && c in chain && c in frees && size <= info[c].size
      requires NULL !in chain && NULL !in frees && brk !in info && brk !in chain && brk !in frees && brk != NULL
      requires chain[c].next != NULL ==> chain[c].next in chain && chain[c].next != c
      requires frees[c].next != NULL ==> frees[c].next in frees && frees[c].next != c
      modifies this`info, this`chain, this`frees, this`brk
      ensures View() == SplitState(old(View()), c, size, old(brk)) && brk == old(brk) + 1
    {
      hide InsertAfter;
      var r := brk;
      brk := brk + 1;
      info := info[r := Info(info[c].size - size, true, info[c].ptr + size)];
      ChainInsert(c, r);
      FreesInsert(c, r);
      info := info[c := info[c].(size := size)];
    }

    /** Segment c leaves the free list. */
    method TakeSegment(c: nat)
      requires c in info && c in frees && NULL !in frees
      requires frees[c].next != NULL ==> frees[c].next in frees && frees[c].next != c && frees[c].next != frees[c].prev
      requires frees[c].prev != NULL ==> frees[c].prev in frees && frees[c].prev != c
      requires frees[c].prev == NULL <==> freeList == c
      modifies this`info, this`frees, this`freeList
      ensures View() == TakeState(old(View()), c)
    {
      info := info[c := info[c].(free := false)];
      if frees[c].next != NULL {
        frees := frees[frees[c].next := frees[frees[c].next].(prev := frees[c].prev)];
      }
      if frees[c].prev != NULL {
        frees := frees[frees[c].prev := frees[frees[c].prev].(next := frees[c].next)];
      } else {
        freeList := frees[c].next;
      }
      frees := frees[c := Links(NULL, NULL)];
    }

    /** c, which is not the first, leaves the chain; its record is released. */
    method ChainDelete(prev: nat, c: nat)
      requires c in chain && prev in chain && c != prev && NULL !in chain && chain[prev].next == c
                && chain[c].prev == prev
      requires chain[c].next != NULL ==> chain[c].next in chain && chain[c].next != c && chain[c].next != prev
      modifies this`chain
      ensures chain == Remove(old(chain), c) - {c}
    {
      chain := chain[prev := chain[prev].(next := chain[c].next)];
      if chain[prev].next != NULL {
        chain := chain[chain[prev].next := chain[chain[prev].next].(prev := prev)];
      }
      chain := chain - {c};
    }

    /** c takes the place of next in the free list. */
    method FreesRename(c: nat, next: nat)
      requires c in frees && next in frees && c != next && NULL !in frees
      requires frees[next].next != NULL ==>
                 frees[next].next in frees && frees[next].next != c && frees[next].next != next
                     && frees[next].next != frees[next].prev
      requires frees[next].prev != NULL ==>
                  frees[next].prev in frees && frees[next].prev != c && frees[next].prev != next
      requires frees[next].prev == NULL <==> freeList == next
      modifies this`frees, this`freeList
      ensures frees == Rename(old(frees), next, c) - {next}
      ensures freeList == if old(freeList) == next then c else old(freeList)
    {
      ghost var before := frees;
      frees := frees[c := frees[c].(next := frees[next].next)];
      if frees[c].next != NULL {
        frees := frees[frees[c].next := frees[frees[c].next].(prev := c)];
      }
      frees := frees[c := frees[c].(prev := frees[next].prev)];
      if frees[c].prev != NULL {
        frees := frees[frees[c].prev := frees[frees[c].prev].(next := c)];
      } else {
        freeList := c;
      }
      assert frees == Rename(before, next, c);
      frees := frees - {next};
    }

    /** c leaves the free list, in which prev precedes it; its record is released. */
    method FreesDelete(prev: nat, c: nat)
      requires c in frees && prev in frees && c != prev && NULL !in frees && frees[prev].next == c
                && frees[c].prev == prev
      requires frees[c].next != NULL ==> frees[c].next in frees && frees[c].next != c && frees[c].next != prev
      modifies this`frees
      ensures frees == Remove(old(frees), c) - {c}
    {
      frees := frees[prev := frees[prev].(next := frees[c].next)];
      if frees[prev].next != NULL {
        frees := frees[frees[prev].next := frees[frees[prev].next].(prev := prev)];
      }
      frees := frees - {c};
    }

    /** c enters the free list behind last, or in front when there is none; next is what follows. */
    method InsertFree(c: nat, last: nat, next: nat)
      requires c in info && c in frees && NULL !in frees && c != last && c != next
      requires last != NULL ==> last in frees && next == frees[last].next
      requires last == NULL ==> next == freeList
      requires freeList == NULL ==> last == NULL
      requires next != NULL ==> next in frees && next != last
      modifies this`info, this`frees, this`freeList
      ensures View() == GiveState(old(View()), c, last)
    {
      info := info[c := info[c].(free := true)];
      if freeList == NULL {
        frees := frees[c := Links(NULL, NULL)];
        freeList := c;
      } else {
        if last == NULL {
          frees := frees[c := Links(NULL, freeList)];
          freeList := c;
        } else {
          frees := frees[c := Links(last, next)];
        }
        if frees[c].prev != NULL {
          frees := frees[frees[c].prev := frees[frees[c].prev].(next := c)];
        }
        if frees[c].next != NULL {
          frees := frees[frees[c].next := frees[frees[c].next].(prev := c)];
        }
      }
    }

    // ----- The steps of an allocation -----

    method Split(c: nat, size: nat, ghost k: nat)
      requires Sound() && k < |ids| == |segs| && ids[k] == c && Fits(segs[k], size)
      modifies this
      ensures Sound() && segs == Cut(old(segs), k, size) && ids == Inserted(old(ids), k + 1, old(brk))
                && first == old(first)
    {
      hide Represents, Cut, Inserted, InsertAfter;
      NodeFacts(View(), ids, segs, k);
      ListedNode(View(), ids, segs, k);
      SplitRepresents(View(), ids, segs, k, size, brk);
      SplitSegment(c, size);
      ids, segs := Inserted(ids, k + 1, old(brk)), Cut(segs, k, size);
    }

    method Take(c: nat, ghost k: nat)
      requires Sound() && k < |ids| == |segs| && ids[k] == c && segs[k].free
      modifies this
      ensures Sound() && segs == old(segs)[k := old(segs)[k].(free := false)] && first == old(first)
    {
      hide Represents, Remove;
      NodeFacts(View(), ids, segs, k);
      ListedNode(View(), ids, segs, k);
      TakeRepresents(View(), ids, segs, k);
      TakeSegment(c);
      segs := segs[k := segs[k].(free := false)];
    }

    /** The free segment at k is cut down to size and taken. */
    method TakeAt(curr: nat, size: nat, ghost k: nat)
      requires Sound() && k < |ids| == |segs| && ids[k] == curr && Fits(segs[k], size)
      modifies this
      ensures Sound() && first == old(first)
      ensures segs == Segments.Take(old(segs), k, size, size < old(segs)[k].size)
    {
      SegmentInfo(View(), ids, segs, k);
      hide Represents;
      if info[curr].size - size > 0 {
        CutTaken(segs, k, size);
        Split(curr, size, k);
        hide Cut;
        InsertedAt(old(ids), k + 1, old(brk));
      }
      Take(curr, k);
    }

    /**
     xkblas_get_work_pos, up to the point where it would wait. The lists always stay right; a
     request whose rounding wraps around gets an empty segment, and only then is the tiling lost.
     */
    method GetWorkPos(request: nat) returns (r: Outcome, ghost k: nat)
      requires Valid() && request < 0x1_0000_0000_0000_0000
      modifies this
      ensures Sound() && first == old(first)
      ensures Valid() <==> request <= 0xFFFF_FFFF_FFFF_FFF8 || r == Waits
      ensures request == 0 ==> r == Returns(NULL) && segs == old(segs)
      ensures request != 0 ==>
                var size := if request <= 0xFFFF_FFFF_FFFF_FFF8 then (request + 7) / 8 * 8 else 0;
                match r
                case Exits => total < size && segs == old(segs)
                case Waits =>
                  && total >= size && segs == old(segs)
                  && (forall i :: 0 <= i < |segs| && segs[i].free ==> segs[i].size < size)
                case Returns(ptr) =>
                  && IsFirstFit(old(segs), k, size) && ptr == old(segs)[k].ptr
                  && old(segs)[k].free && old(segs)[k].size >= size
                  && (forall i :: 0 <= i < k && old(segs)[i].free ==> old(segs)[i].size < size)
                  && segs == Segments.Take(old(segs), k, size, size < old(segs)[k].size)
    {
      k := 0;
      if request == 0 {
        return Returns(NULL), 0;
      }
      var size := AlignedWord(request);
      AlignedWraps(request);
      if total < size {
        return Exits, 0;
      }
      var curr: nat;
      curr, k := FindFirstFit(size);
      if curr == NULL {
        return Waits, 0;
      }
      RequestExact(segs, base, total, k, request);
      SegmentInfo(View(), ids, segs, k);
      hide Represents, WellFormed, AlignedWord, Segments.Take;
      r := Returns(info[curr].ptr);
      TakeAt(curr, size, k);
    }

    // ----- The steps of giving back -----

    /** The segment at k goes together with its free successor. */
    method JoinNext(c: nat, next: nat, ghost k: nat)
      requires Sound() && k + 1 < |ids| == |segs| && ids[k] == c && ids[k + 1] == next && !segs[k].free
                && segs[k + 1].free
      modifies this
      ensures Sound() && segs == Join(old(segs), k) && ids == Removed(old(ids), k + 1) && first == old(first)
    {
      hide Represents, InfoPart, Remove, Rename, Removed, Join;
      NodeFacts(View(), ids, segs, k);
      NodeFacts(View(), ids, segs, k + 1);
      ListedNode(View(), ids, segs, k + 1);
      NotListed(View(), ids, segs, k + 1, k);
      NextRepresents(View(), ids, segs, k);
      info := info[c := Info(info[c].size + info[next].size, true, info[c].ptr)];
      ChainDelete(c, next);
      FreesRename(c, next);
      info := info - {next};
      ids, segs := Removed(ids, k + 1), Join(segs, k);
    }

    /** The segment at k + 1 goes into its free predecessor. */
    method JoinPrevious(prev: nat, c: nat, listed: bool, ghost k: nat)
      requires Sound() && k + 1 < |ids| == |segs| && ids[k] == prev && ids[k + 1] == c && segs[k].free
                && listed == segs[k + 1].free
      modifies this
      ensures Sound() && segs == Join(old(segs), k) && ids == Removed(old(ids), k + 1) && first == old(first)
    {
      hide Represents, InfoPart, Remove, Removed, Join;
      NodeFacts(View(), ids, segs, k);
      NodeFacts(View(), ids, segs, k + 1);
      if listed {
        ListedNode(View(), ids, segs, k + 1);
        Neighbours(View(), ids, segs, k);
      }
      PrevRepresents(View(), ids, segs, k);
      info := info[prev := info[prev].(size := info[prev].size + info[c].size)];
      ChainDelete(prev, c);
      if listed {
        FreesDelete(prev, c);
      } else {
        frees := frees - {c};
      }
      info := info - {c};
      ids, segs := Removed(ids, k + 1), Join(segs, k);
    }

    /** The place of the segment at k in the free list, which is ordered by address. */
    method FindPlace(c: nat, ghost k: nat) returns (last: nat, next: nat)
      requires Valid() && k < |ids| == |segs| && ids[k] == c && !segs[k].free && c in info
      ensures last == IdAt(FreeIds(ids, segs), FreeBefore(ids, segs, k) - 1)
      ensures next == IdAt(FreeIds(ids, segs), FreeBefore(ids, segs, k))
    {
      ghost var fids, f, place := FreeIds(ids, segs), 0, FreeBefore(ids, segs, k);
      last, next := NULL, freeList;
      assert last == IdAt(fids, -1);
      hide Represents, WellFormed, FreeIds, FreeBefore, IdAt;
      HeadNode(View(), ids, segs);
      FreeBound(ids, segs, k);
      PlaceStep(View(), ids, segs, base, total, k, f);
      StepMeans(View(), c, next, IdAt(fids, f + 1), f < place);
      hide StepFacts;
      while next != NULL && info[next].ptr <= info[c].ptr
        invariant f <= place && place <= |fids| && next == IdAt(fids, f) && last == IdAt(fids, f - 1)
        invariant StepFacts(View(), c, next, IdAt(fids, f + 1), f < place)
        invariant next != NULL ==> next in info && next in frees && frees[next].next == IdAt(fids, f + 1)
        invariant next != NULL && info[next].ptr <= info[c].ptr <==> f < place
        decreases |fids| - f
      {
        last := next;
        next := frees[next].next;
        f := f + 1;
        PlaceStep(View(), ids, segs, base, total, k, f);
        StepMeans(View(), c, next, IdAt(fids, f + 1), f < place);
      }
    }

    /** The segment at k enters the free list on its own. */
    method GiveAlone(c: nat, ghost k: nat)
      requires Valid() && k < |ids| == |segs| && ids[k] == c && !segs[k].free
      modifies this
      ensures Sound() && segs == old(segs)[k := old(segs)[k].(free := true)] && first == old(first)
    {
      hide Represents, WellFormed, InsertAfter, FreeIds, FreeBefore, IdAt;
      NodeFacts(View(), ids, segs, k);
      PlaceFacts(View(), ids, segs, k);
      GiveRepresents(View(), ids, segs, k);
      var last, next := FindPlace(c, k);
      InsertFree(c, last, next);
      segs := segs[k := segs[k].(free := true)];
    }

    /** The live segment at k is given back and joined with its free neighbours. */
    method GiveAt(curr: nat, ghost k: nat)
      requires Valid() && k < |ids| == |segs| && ids[k] == curr && !segs[k].free
                && WellFormed(Give(segs, k), base, total)
      modifies this
      ensures Valid() && segs == Give(old(segs), k) && first == old(first)
    {
      hide Represents, WellFormed, Give, Join, Removed;
      GiveJoin(segs, k);
      NodeFacts(View(), ids, segs, k);
      if k + 1 < |ids| { NodeFacts(View(), ids, segs, k + 1); }
      var inserted := false;
      var next := chain[curr].next;
      if next != NULL && info[next].free {
        AfterJoin(ids, segs, k);
        JoinNext(curr, next, k);
        inserted := true;
      }
      AtPlace(this, curr, k);
      var prev := chain[curr].prev;
      if prev != NULL && info[prev].free {
        JoinPrevious(prev, curr, inserted, k - 1);
      } else if !inserted {
        GiveAlone(curr, k);
      }
    }

    /** xkblas_free_work_pos: only the address of a live segment can be given back. */
    method FreeWorkPos(ptr: nat) returns (r: Outcome, ghost k: nat)
      requires Valid()
      modifies this
      ensures Valid() && first == old(first)
      ensures r == Exits <==> forall i :: 0 <= i < |old(segs)| ==> !(old(segs)[i].ptr == ptr && !old(segs)[i].free)
      ensures r == Exits ==> segs == old(segs)
      ensures r != Exits ==> At(old(segs), k, ptr) && segs == Give(old(segs), k) && r == Returns(NULL)
    {
      var curr: nat;
      curr, k := FindAddress(ptr);
      if curr != NULL {
        SegmentInfo(View(), ids, segs, k);
        OnlyOne(segs, base, total, k);
      }
      if curr == NULL || info[curr].free {
        return Exits, 0;
      }
      GiveKeeps(segs, k, base, total);
      GiveJoin(segs, k);
      r := Returns(NULL);
      GiveAt(curr, k);
    }

    /** coherency_check: it walks the chain and would end the process at the first record that fails a test. */
    method CoherencyCheck() returns (ok: bool)
      requires Valid()
      ensures ok
    {
      hide Represents, WellFormed, IdAt, CoherentAt;
      ok := true;
      var curr := first;
      ghost var k := 0;
      ChainWalk(View(), ids, segs, 0);
      while curr != NULL
        invariant ok && k <= |ids| && curr == IdAt(ids, k) && (curr != NULL <==> k < |ids|)
        invariant curr != NULL ==> curr in chain && Resolved(View(), curr)
        decreases |ids| - k
      {
        ChainWalk(View(), ids, segs, k);
        AllCoherent(View(), ids, segs, base, total, k);
        ok := ok && CoherentAt(View(), curr);
        curr := chain[curr].next;
        k := k + 1;
        ChainWalk(View(), ids, segs, k);
      }
    }
  }

  lemma StartRepresents(ptr: nat, size: nat)
    ensures var alone := map[1 := Links(NULL, NULL)]; var segs := [Segment(ptr, size, true)];
            && Represents(State(map[1 := Info(size, true, ptr)], alone, alone, 1, 1), [1], segs)
            && (WellFormed(segs, ptr, size) <==> size > 0)
  {
    var alone, segs: seq<Segment> := map[1 := Links(NULL, NULL)], [Segment(ptr, size, true)];
    assert [1][..0] == [] && segs[..0] == [];
    assert FreeIds([1], segs) == [1];
    hide FreeIds;
    assert List(alone, 1, [1]) by { assert forall k :: LinkedAt(alone, [1], k); }
    hide List;
  }

  // ----- What the walks see -----

  /** The f-th node of the free list. */
  lemma FreeNode(st: State, ids: seq<nat>, segs: seq<Segment>, f: nat)
    requires Represents(st, ids, segs) && f < |FreeIds(ids, segs)|
    ensures var id := FreeIds(ids, segs)[f];
            && id != NULL && id in st.info && id in st.frees
            && st.frees[id] == Links(IdAt(FreeIds(ids, segs), f - 1), IdAt(FreeIds(ids, segs), f + 1))
    ensures IdAt(FreeIds(ids, segs), f + 1) != NULL ==> f + 1 < |FreeIds(ids, segs)|
  {
    Walk(st.frees, st.head, FreeIds(ids, segs), f);
  }

  /** What the records say of the segment at k. */
  lemma NodeFacts(st: State, ids: seq<nat>, segs: seq<Segment>, k: nat)
    requires Represents(st, ids, segs) && k < |ids|
    ensures |ids| == |segs|
    ensures var c := ids[k];
            && c in st.info && c in st.chain && c in st.frees && c != NULL
            && st.info[c] == Info(segs[k].size, segs[k].free, segs[k].ptr)
            && NULL !in st.chain && NULL !in st.frees && st.chain.Keys == st.info.Keys && st.frees.Keys == st.info.Keys
            && st.chain[c] == Links(IdAt(ids, k - 1), IdAt(ids, k + 1))
            && (st.chain[c].next != NULL ==>
                   st.chain[c].next in st.chain && st.chain[c].next != c && st.chain[c].next != st.chain[c].prev)
            && (st.chain[c].prev != NULL ==> st.chain[c].prev in st.chain && st.chain[c].prev != c)
            && (k + 1 < |ids| <==> st.chain[c].next != NULL) && (k > 0 <==> st.chain[c].prev != NULL)
  {
    SegmentInfo(st, ids, segs, k);
    ChainNode(st, ids, segs, k);
    Walk(st.chain, st.first, ids, k);
    if k + 1 < |ids| { SegmentInfo(st, ids, segs, k + 1); }
    if k > 0 { SegmentInfo(st, ids, segs, k - 1); }
  }

  /** The head of the free list. */
  lemma HeadNode(st: State, ids: seq<nat>, segs: seq<Segment>)
    requires Represents(st, ids, segs)
    ensures |ids| == |segs| && st.head == IdAt(FreeIds(ids, segs), 0)
    ensures st.head != NULL ==> |FreeIds(ids, segs)| > 0 && st.head in st.info && st.head in st.frees
  {
    if |FreeIds(ids, segs)| > 0 {
      FreeNode(st, ids, segs, 0);
    }
  }

  lemma ChainNode(st: State, ids: seq<nat>, segs: seq<Segment>, k: nat)
    requires Represents(st, ids, segs) && k < |ids|
    ensures var c := ids[k];
            && c in st.chain && NULL !in st.chain && NULL !in st.frees && NULL !in st.info
            && st.chain[c] == Links(IdAt(ids, k - 1), IdAt(ids, k + 1))
            && (st.chain[c].next != NULL ==>
                   st.chain[c].next in st.chain && st.chain[c].next != c && st.chain[c].next != st.chain[c].prev)
            && (st.chain[c].prev != NULL ==> st.chain[c].prev in st.chain && st.chain[c].prev != c)
  {
    Walk(st.chain, st.first, ids, k);
  }

  /** The links of a free segment lead to other free segments. */
  lemma ListedNode(st: State, ids: seq<nat>, segs: seq<Segment>, k: nat)
    requires Represents(st, ids, segs) && k < |ids| && segs[k].free
    ensures var c := ids[k];
            && c in st.frees && NULL !in st.frees
            && (st.frees[c].next != NULL ==>
                   st.frees[c].next in st.frees && st.frees[c].next != c && st.frees[c].next != st.frees[c].prev)
            && (st.frees[c].prev != NULL ==> st.frees[c].prev in st.frees && st.frees[c].prev != c)
            && (st.frees[c].prev == NULL <==> st.head == c)
  {
    FreeAtIndex(ids, segs, k);
    Walk(st.frees, st.head, FreeIds(ids, segs), FreeBefore(ids, segs, k));
  }

  lemma CutTaken(segs: seq<Segment>, k: nat, size: nat)
    requires k < |segs| && size <= segs[k].size
    ensures var cut := Cut(segs, k, size);
            k < |cut| && cut[k].free && cut[k := cut[k].(free := false)] == Segments.Take(segs, k, size, true)
  {
  }

  /** The links of a free segment do not lead to a live one. */
  lemma NotListed(st: State, ids: seq<nat>, segs: seq<Segment>, k: nat, j: nat)
    requires Represents(st, ids, segs) && k < |ids| && segs[k].free && j < |ids| && !segs[j].free && ids[k] in st.frees
    ensures st.frees[ids[k]].next != ids[j] && st.frees[ids[k]].prev != ids[j]
  {
    var f, fids := FreeBefore(ids, segs, k), FreeIds(ids, segs);
    FreeAtIndex(ids, segs, k);
    Walk(st.frees, st.head, fids, f);
    LiveNotListed(ids, segs, j);
    SegmentInfo(st, ids, segs, j);
    assert f + 1 < |fids| ==> fids[f + 1] in fids;
    assert f > 0 ==> fids[f - 1] in fids;
  }

  /** Two free neighbours are neighbours in the free list. */
  lemma Neighbours(st: State, ids: seq<nat>, segs: seq<Segment>, k: nat)
    requires Represents(st, ids, segs) && k + 1 < |ids| && segs[k].free && segs[k + 1].free
    ensures ids[k] in st.frees && ids[k + 1] in st.frees
    ensures st.frees[ids[k]].next == ids[k + 1] && st.frees[ids[k + 1]].prev == ids[k]
  {
    var f := FreeBefore(ids, segs, k);
    FreeAtIndex(ids, segs, k);
    JoinPrevFree(ids, segs, k);
    Walk(st.frees, st.head, FreeIds(ids, segs), f);
    Walk(st.frees, st.head, FreeIds(ids, segs), f + 1);
  }

  lemma FreeBound(ids: seq<nat>, segs: seq<Segment>, k: nat)
    requires |ids| == |segs| && k < |ids|
    ensures FreeBefore(ids, segs, k) <= |FreeIds(ids, segs)|
  {
    FreeSplit(ids, segs, k);
  }

  /** The free list is ordered by address. */
  lemma AddressOrder(st: State, ids: seq<nat>, segs: seq<Segment>, base: nat, total: nat, k: nat, f: nat)
    requires Represents(st, ids, segs) && WellFormed(segs, base, total) && k < |ids| && !segs[k].free
              && f < |FreeIds(ids, segs)|
    ensures FreeIds(ids, segs)[f] in st.info && ids[k] in st.info
    ensures st.info[FreeIds(ids, segs)[f]].ptr <= st.info[ids[k]].ptr <==> f < FreeBefore(ids, segs, k)
  {
    var p := FreePosition(ids, segs, f);
    SegmentInfo(st, ids, segs, p);
    SegmentInfo(st, ids, segs, k);
    if p < k {
      InOrder(segs, base, total, p, k);
      FreeMonotone(ids, segs, p, k);
    } else {
      InOrder(segs, base, total, k, p);
      FreeMonotone(ids, segs, k, p);
    }
  }

  /** next is a free segment before c exactly when before is set, and after is what follows it. */
  predicate StepFacts(st: State, c: nat, next: nat, after: nat, before: bool) {
    && c in st.info && (next != NULL ==> next in st.info && next in st.frees && st.frees[next].next == after)
    && (next != NULL && st.info[next].ptr <= st.info[c].ptr <==> before)
  }

  lemma StepMeans(st: State, c: nat, next: nat, after: nat, before: bool)
    requires StepFacts(st, c, next, after, before)
    ensures c in st.info && (next != NULL ==> next in st.info && next in st.frees && st.frees[next].next == after)
    ensures next != NULL && st.info[next].ptr <= st.info[c].ptr <==> before
  {
  }

  /** One step of the walk to the place of the segment at k. */
  lemma PlaceStep(st: State, ids: seq<nat>, segs: seq<Segment>, base: nat, total: nat, k: nat, f: nat)
    requires Represents(st, ids, segs) && WellFormed(segs, base, total) && k < |ids| && !segs[k].free
    requires f <= |FreeIds(ids, segs)|
    ensures StepFacts(st, ids[k], IdAt(FreeIds(ids, segs), f), IdAt(FreeIds(ids, segs), f + 1),
              f < FreeBefore(ids, segs, k))
  {
    SegmentInfo(st, ids, segs, k);
    FreeBound(ids, segs, k);
    hide FreeBefore;
    if f < |FreeIds(ids, segs)| {
      FreeNode(st, ids, segs, f);
      AddressOrder(st, ids, segs, base, total, k, f);
    }
  }

  lemma PlaceFacts(st: State, ids: seq<nat>, segs: seq<Segment>, k: nat)
    requires Represents(st, ids, segs) && k < |ids| && !segs[k].free
    ensures var c, last, next := ids[k], IdAt(FreeIds(ids, segs), FreeBefore(ids, segs, k) - 1),
              IdAt(FreeIds(ids, segs), FreeBefore(ids, segs, k));
            && c in st.frees && NULL !in st.frees && c != last && c != next
            && (last != NULL ==> last in st.frees && next == st.frees[last].next)
            && (last == NULL ==> next == st.head) && (st.head == NULL ==> last == NULL)
            && (next != NULL ==> next in st.frees && next != last)
  {
    var f, fids := FreeBefore(ids, segs, k), FreeIds(ids, segs);
    SegmentInfo(st, ids, segs, k);
    FreeBound(ids, segs, k);
    LiveNotListed(ids, segs, k);
    HeadNode(st, ids, segs);
    hide FreeBefore, FreeIds;
    BetweenNodes(st.frees, st.head, fids, f);
  }

  /** The two nodes around a place of a list. */
  lemma BetweenNodes(m: Store, head: nat, ids: seq<nat>, f: nat)
    requires List(m, head, ids) && f <= |ids|
    ensures var last, next := IdAt(ids, f - 1), IdAt(ids, f);
            && (last != NULL ==> last in m && next == m[last].next && last in ids)
            && (last == NULL ==> next == head) && (head == NULL ==> last == NULL)
            && (next != NULL ==> next in m && next != last && next in ids)
  {
    if f > 0 {
      Walk(m, head, ids, f - 1);
      Walk(m, head, ids, 0);
    }
    if f < |ids| {
      Walk(m, head, ids, f);
    }
  }

  lemma AfterJoin(ids: seq<nat>, segs: seq<Segment>, k: nat)
    requires |ids| == |segs| && k + 1 < |ids|
    ensures var ids', segs' := Removed(ids, k + 1), Join(segs, k);
            && |ids'| == |segs'| && k < |ids'| && ids'[k] == ids[k] && segs'[k].free
            && (k > 0 ==> ids'[k - 1] == ids[k - 1])
            && FreeAt(segs', k - 1) == FreeAt(segs, k - 1) && (!FreeAt(segs', k - 1) ==> JoinPrev(segs', k) == segs')
  {
  }

  lemma AtPlace(b: Buffer, c: nat, k: nat)
    requires b.Sound() && k < |b.ids| == |b.segs| && b.ids[k] == c
    ensures c in b.chain && c in b.info && b.info[c].free == b.segs[k].free && b.chain[c].prev == IdAt(b.ids, k - 1)
    ensures b.chain[c].prev != NULL <==> k > 0
    ensures k > 0 ==> b.ids[k - 1] in b.info && b.info[b.ids[k - 1]].free == FreeAt(b.segs, k - 1)
  {
    SegmentInfo(b.View(), b.ids, b.segs, k);
    ChainNode(b.View(), b.ids, b.segs, k);
    if k > 0 {
      SegmentInfo(b.View(), b.ids, b.segs, k - 1);
    }
  }

  lemma OnlyOne(segs: seq<Segment>, base: nat, total: nat, k: nat)
    requires WellFormed(segs, base, total) && k < |segs|
    ensures forall i :: 0 <= i < |segs| && i != k ==> segs[i].ptr != segs[k].ptr
  {
    forall i | 0 <= i < |segs| && i != k
      ensures segs[i].ptr != segs[k].ptr
    {
      if i < k { InOrder(segs, base, total, i, k); } else { InOrder(segs, base, total, k, i); }
    }
  }

  /** None of the first f free segments fits. */
  ghost predicate NoFitBefore(ids: seq<nat>, segs: seq<Segment>, f: nat, size: nat)
    requires |ids| == |segs|
  {
    forall i {:trigger FreeBefore(ids, segs, i)} :: 0 <= i < |segs| && FreeBefore(ids, segs, i) < f ==>
          !Fits(segs[i], size)
  }

  lemma NoFitNext(st: State, ids: seq<nat>, segs: seq<Segment>, f: nat, size: nat)
    requires Represents(st, ids, segs) && f < |FreeIds(ids, segs)| && NoFitBefore(ids, segs, f, size)
    requires FreeIds(ids, segs)[f] in st.info && st.info[FreeIds(ids, segs)[f]].size < size
    ensures NoFitBefore(ids, segs, f + 1, size)
  {
    var k := FreePosition(ids, segs, f);
    SegmentInfo(st, ids, segs, k);
    forall i {:trigger FreeBefore(ids, segs, i)} | 0 <= i < |segs| && FreeBefore(ids, segs, i) < f + 1
      ensures !Fits(segs[i], size)
    {
      if segs[i].free && i < k {
        FreeMonotone(ids, segs, i, k);
      } else if k < i {
        FreeMonotone(ids, segs, k, i);
      }
    }
  }

  lemma FirstOfAll(ids: seq<nat>, segs: seq<Segment>, f: nat, k: nat, size: nat)
    requires |ids| == |segs| && k < |segs| && segs[k].free && segs[k].size >= size
    requires FreeBefore(ids, segs, k) == f && NoFitBefore(ids, segs, f, size)
    ensures IsFirstFit(segs, k, size)
  {
    forall i | 0 <= i < k
      ensures !Fits(segs[i], size)
    {
      FreeMonotone(ids, segs, i, k);
    }
  }

  lemma NoneAtAll(ids: seq<nat>, segs: seq<Segment>, size: nat)
    requires |ids| == |segs| && NoFitBefore(ids, segs, |FreeIds(ids, segs)|, size)
    ensures forall i :: 0 <= i < |segs| ==> !Fits(segs[i], size)
  {
    forall i | 0 <= i < |segs|
      ensures !Fits(segs[i], size)
    {
      if segs[i].free {
        FreeAtIndex(ids, segs, i);
      }
    }
  }

  lemma Later(segs: seq<Segment>, base: nat, total: nat, k: nat)
    requires WellFormed(segs, base, total) && k < |segs|
    ensures forall i :: k < i < |segs| ==> segs[i].ptr > segs[k].ptr
  {
    forall i | k < i < |segs|
      ensures segs[i].ptr > segs[k].ptr
    {
      InOrder(segs, base, total, k, i);
    }
  }

  // ----- The coherency check -----

  predicate Known(st: State, id: nat) { id == NULL || (id in st.info && id in st.chain && id in st.frees) }

  /** The links of id lead to records. */
  predicate Resolved(st: State, id: nat) {
    && id != NULL && Known(st, id)
    && Known(st, st.chain[id].prev) && Known(st, st.chain[id].next)
    && Known(st, st.frees[id].prev) && Known(st, st.frees[id].next)
  }

  /** The tests made on one record. */
  predicate CoherentAt(st: State, c: nat)
    requires Resolved(st, c)
  {
    var (i, l, f) := (st.info[c], st.chain[c], st.frees[c]);
    && (if l.prev != NULL then st.info[l.prev].ptr < i.ptr && st.chain[l.prev].next == c else f.prev == NULL)
    && (if l.next != NULL then st.info[l.next].ptr > i.ptr && st.chain[l.next].prev == c else f.next == NULL)
    && (if i.free then
          && (if f.prev != NULL then st.info[f.prev].ptr < i.ptr && st.frees[f.prev].next == c else c == st.head)
          && (f.next != NULL ==> st.info[f.next].ptr > i.ptr && st.frees[f.next].prev == c)
        else f.prev == NULL && f.next == NULL)
  }

  lemma ChainWalk(st: State, ids: seq<nat>, segs: seq<Segment>, k: nat)
    requires Represents(st, ids, segs) && k <= |ids|
    ensures |ids| == |segs| && st.first == IdAt(ids, 0) && (IdAt(ids, k) != NULL <==> k < |ids|)
    ensures k < |ids| ==> IdAt(ids, k) == ids[k] && Resolved(st, ids[k]) && st.chain[ids[k]].next == IdAt(ids, k + 1)
  {
    if k < |ids| {
      NodeFacts(st, ids, segs, k);
      if segs[k].free {
        ListedNode(st, ids, segs, k);
      }
    }
  }

  lemma ChainCoherent(st: State, ids: seq<nat>, segs: seq<Segment>, base: nat, total: nat, k: nat)
    requires Represents(st, ids, segs) && WellFormed(segs, base, total) && k < |ids| && Resolved(st, ids[k])
    ensures var (i, l) := (st.info[ids[k]], st.chain[ids[k]]);
            && (l.prev != NULL ==> st.info[l.prev].ptr < i.ptr && st.chain[l.prev].next == ids[k])
            && (l.next != NULL ==> st.info[l.next].ptr > i.ptr && st.chain[l.next].prev == ids[k])
            && (l.prev == NULL <==> k == 0) && (l.next == NULL <==> k + 1 == |ids|)
  {
    hide Represents, WellFormed;
    NodeFacts(st, ids, segs, k);
    if k > 0 {
      NodeFacts(st, ids, segs, k - 1);
      InOrder(segs, base, total, k - 1, k);
    }
    if k + 1 < |ids| {
      NodeFacts(st, ids, segs, k + 1);
      InOrder(segs, base, total, k, k + 1);
    }
  }

  /** The neighbours of a free segment in the list lie around it in memory. */
  lemma FreeCoherent(st: State, ids: seq<nat>, segs: seq<Segment>, base: nat, total: nat, k: nat)
    requires Represents(st, ids, segs) && WellFormed(segs, base, total) && k < |ids| && Resolved(st, ids[k])
              && segs[k].free
    ensures var (i, f) := (st.info[ids[k]], st.frees[ids[k]]);
            && (if f.prev != NULL then st.info[f.prev].ptr < i.ptr && st.frees[f.prev].next == ids[k]
                else ids[k] == st.head)
            && (f.next != NULL ==> st.info[f.next].ptr > i.ptr && st.frees[f.next].prev == ids[k])
            && (k == 0 ==> f.prev == NULL) && (k + 1 == |ids| ==> f.next == NULL)
  {
    hide Represents, WellFormed, FreeIds, FreeBefore;
    NodeFacts(st, ids, segs, k);
    var f, fids := FreeBefore(ids, segs, k), FreeIds(ids, segs);
    ListedNode(st, ids, segs, k);
    FreeAtIndex(ids, segs, k);
    FreeNode(st, ids, segs, f);
    if f > 0 {
      FreeNode(st, ids, segs, f - 1);
      FreeBetween(st, ids, segs, base, total, f - 1, k);
    }
    if f + 1 < |fids| {
      FreeNode(st, ids, segs, f + 1);
      FreeBetween(st, ids, segs, base, total, f + 1, k);
    }
  }

  lemma FreeBetween(st: State, ids: seq<nat>, segs: seq<Segment>, base: nat, total: nat, f: nat, k: nat)
    requires Represents(st, ids, segs) && WellFormed(segs, base, total) && f < |FreeIds(ids, segs)| && k < |ids|
              && segs[k].free
    requires f != FreeBefore(ids, segs, k)
    ensures FreeIds(ids, segs)[f] in st.info && ids[k] in st.info
    ensures st.info[FreeIds(ids, segs)[f]].ptr < st.info[ids[k]].ptr <==> f < FreeBefore(ids, segs, k)
    ensures st.info[FreeIds(ids, segs)[f]].ptr != st.info[ids[k]].ptr
    ensures if f < FreeBefore(ids, segs, k) then k > 0 else k + 1 < |ids|
  {
    var p := FreePosition(ids, segs, f);
    NodeFacts(st, ids, segs, p);
    NodeFacts(st, ids, segs, k);
    hide Represents;
    if p < k {
      InOrder(segs, base, total, p, k);
      FreeMonotone(ids, segs, p, k);
    } else {
      InOrder(segs, base, total, k, p);
      FreeMonotone(ids, segs, k, p);
    }
  }

  /** No test of the check fails. */
  lemma AllCoherent(st: State, ids: seq<nat>, segs: seq<Segment>, base: nat, total: nat, k: nat)
    requires Represents(st, ids, segs) && WellFormed(segs, base, total) && k < |ids| && Resolved(st, ids[k])
    ensures CoherentAt(st, ids[k])
  {
    NodeFacts(st, ids, segs, k);
    LiveLinks(st, ids, segs, k);
    hide Represents, WellFormed;
    ChainCoherent(st, ids, segs, base, total, k);
    if segs[k].free {
      FreeCoherent(st, ids, segs, base, total, k);
    }
  }

  lemma LiveLinks(st: State, ids: seq<nat>, segs: seq<Segment>, k: nat)
    requires Represents(st, ids, segs) && k < |ids| && ids[k] in st.frees
    ensures |ids| == |segs| && (!segs[k].free ==> st.frees[ids[k]] == Links(NULL, NULL))
  {
  }
}
