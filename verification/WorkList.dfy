/**
 The records behind the work buffer: every segment is in a doubly linked chain,
 the free ones also in a doubly linked list of their own, both in address order.
 */
module WorkList {
  import opened Machine
  import opened Segments
  import opened LinkedList

  datatype Info = Info(size: nat, free: bool, ptr: nat)

  // ----- The free ones, in order -----

  function One(id: nat, s: Segment): seq<nat> { if s.free then [id] else [] }

  function FreeIds(ids: seq<nat>, segs: seq<Segment>): seq<nat>
    requires |ids| == |segs|
  {
    if ids == [] then []
    else FreeIds(ids[..|ids| - 1], segs[..|segs| - 1]) + One(ids[|ids| - 1], segs[|segs| - 1])
  }

  lemma FreeLast(ids: seq<nat>, segs: seq<Segment>, n: nat)
    requires |ids| == |segs| == n + 1
    ensures FreeIds(ids, segs) == FreeIds(ids[..n], segs[..n]) + One(ids[n], segs[n])
  {
  }

  lemma Nothing()
    ensures FreeIds([], []) == []
  {
  }

  lemma {:induction false} FreeConcat(ids: seq<nat>, segs: seq<Segment>, ids': seq<nat>, segs': seq<Segment>)
    requires |ids| == |segs| && |ids'| == |segs'|
    ensures FreeIds(ids + ids', segs + segs') == FreeIds(ids, segs) + FreeIds(ids', segs')
  {
    hide FreeIds, One;
    if ids' == [] {
      Nothing();
      assert ids + ids' == ids && segs + segs' == segs;
    } else {
      var n := |ids'| - 1;
      var all, sall := ids + ids', segs + segs';
      FreeLast(all, sall, |ids| + n);
      FreeLast(ids', segs', n);
      assert all[..|ids| + n] == ids + ids'[..n];
      assert sall[..|ids| + n] == segs + segs'[..n];
      FreeConcat(ids, segs, ids'[..n], segs'[..n]);
    }
  }

  /** The number of free segments before position k. */
  function FreeBefore(ids: seq<nat>, segs: seq<Segment>, k: nat): nat
    requires |ids| == |segs| && k <= |ids|
  {
    |FreeIds(ids[..k], segs[..k])|
  }

  lemma FreePieces(a: seq<nat>, sa: seq<Segment>, x: nat, s: Segment, b: seq<nat>, sb: seq<Segment>)
    requires |a| == |sa| && |b| == |sb|
    ensures FreeIds(a + [x] + b, sa + [s] + sb) == FreeIds(a, sa) + One(x, s) + FreeIds(b, sb)
  {
    assert FreeIds([x], [s]) == One(x, s);
    hide FreeIds, One;
    FreeConcat(a, sa, [x], [s]);
    FreeConcat(a + [x], sa + [s], b, sb);
  }

  lemma FreeCons(x: nat, s: Segment, b: seq<nat>, sb: seq<Segment>)
    requires |b| == |sb|
    ensures FreeIds([x] + b, [s] + sb) == One(x, s) + FreeIds(b, sb)
  {
    assert FreeIds([x], [s]) == One(x, s);
    hide FreeIds, One;
    FreeConcat([x], [s], b, sb);
  }

  /** The free ones before, at and after position k. */
  lemma FreeSplit(ids: seq<nat>, segs: seq<Segment>, k: nat)
    requires |ids| == |segs| && k < |ids|
    ensures FreeIds(ids, segs)
              == FreeIds(ids[..k], segs[..k]) + One(ids[k], segs[k]) + FreeIds(ids[k + 1..], segs[k + 1..])
  {
    hide FreeIds, One;
    FreePieces(ids[..k], segs[..k], ids[k], segs[k], ids[k + 1..], segs[k + 1..]);
    assert ids == ids[..k] + [ids[k]] + ids[k + 1..] && segs == segs[..k] + [segs[k]] + segs[k + 1..];
  }

  lemma {:induction false} FreeAtIndex(ids: seq<nat>, segs: seq<Segment>, k: nat)
    requires |ids| == |segs| && k < |ids| && segs[k].free
    ensures var f := FreeBefore(ids, segs, k); f < |FreeIds(ids, segs)| && FreeIds(ids, segs)[f] == ids[k]
  {
    FreeSplit(ids, segs, k);
  }

  /** Where the f-th free one lies in the chain. */
  lemma {:induction false} FreePosition(ids: seq<nat>, segs: seq<Segment>, f: nat) returns (k: nat)
    requires |ids| == |segs| && f < |FreeIds(ids, segs)|
    ensures k < |ids| && segs[k].free && FreeBefore(ids, segs, k) == f && ids[k] == FreeIds(ids, segs)[f]
  {
    var n := |ids| - 1;
    if segs[n].free && f == |FreeIds(ids[..n], segs[..n])| {
      k := n;
    } else {
      k := FreePosition(ids[..n], segs[..n], f);
      assert ids[..n][..k] == ids[..k] && segs[..n][..k] == segs[..k];
    }
  }

  lemma FreeMonotone(ids: seq<nat>, segs: seq<Segment>, i: nat, j: nat)
    requires |ids| == |segs| && i < j <= |ids|
    ensures FreeBefore(ids, segs, i) <= FreeBefore(ids, segs, j)
    ensures segs[i].free ==> FreeBefore(ids, segs, i) < FreeBefore(ids, segs, j)
  {
    FreeSplit(ids[..j], segs[..j], i);
    assert ids[..j][..i] == ids[..i] && segs[..j][..i] == segs[..i];
  }

  // ----- What each operation does to the free ones -----

  lemma CutFree(ids: seq<nat>, segs: seq<Segment>, k: nat, size: nat, r: nat)
    requires |ids| == |segs| && k < |ids| && segs[k].free && size <= segs[k].size
    ensures var fids := FreeIds(ids, segs);
            && FreeBefore(ids, segs, k) + 1 <= |fids| && |Inserted(ids, k + 1, r)| == |Cut(segs, k, size)|
            && FreeIds(Inserted(ids, k + 1, r), Cut(segs, k, size)) == Inserted(fids, FreeBefore(ids, segs, k) + 1, r)
  {
    var s, s' := Segment(segs[k].ptr, size, true), Segment(segs[k].ptr + size, segs[k].size - size, true);
    var a, sa, b, sb := ids[..k], segs[..k], ids[k + 1..], segs[k + 1..];
    FreeOne(ids[k], s);
    FreeOne(r, s');
    FreeOne(ids[k], segs[k]);
    CutPieces(ids, segs, k, size, r);
    hide FreeIds, Cut, One, Inserted;
    FreeSplit(ids, segs, k);
    FreePieces(a, sa, ids[k], s, [r] + b, [s'] + sb);
    FreeCons(r, s', b, sb);
    Middle(FreeIds(a, sa), ids[k], FreeIds(b, sb), r);
  }

  lemma CutPieces(ids: seq<nat>, segs: seq<Segment>, k: nat, size: nat, r: nat)
    requires |ids| == |segs| && k < |ids| && size <= segs[k].size
    ensures Inserted(ids, k + 1, r) == ids[..k] + [ids[k]] + ([r] + ids[k + 1..])
    ensures Cut(segs, k, size) == segs[..k] + [Segment(segs[k].ptr, size, true)] +
                                  ([Segment(segs[k].ptr + size, segs[k].size - size, true)] + segs[k + 1..])
  {
  }

  lemma Middle(a: seq<nat>, x: nat, b: seq<nat>, r: nat)
    ensures Inserted(a + [x] + b, |a| + 1, r) == a + [x] + ([r] + b)
    ensures Inserted(a + [] + b, |a|, r) == a + [r] + b
    ensures Removed(a + [x] + b, |a|) == a + [] + b
    ensures (a + [x] + b)[|a| := r] == a + [r] + b
  {
  }

  lemma TakeFree(ids: seq<nat>, segs: seq<Segment>, k: nat)
    requires |ids| == |segs| && k < |ids| && segs[k].free
    ensures var f, fids := FreeBefore(ids, segs, k), FreeIds(ids, segs);
            f < |fids| && FreeIds(ids, segs[k := segs[k].(free := false)]) == Removed(fids, f)
  {
    var segs' := segs[k := segs[k].(free := false)];
    assert segs'[..k] == segs[..k] && segs'[k + 1..] == segs[k + 1..];
    hide FreeIds;
    FreeSplit(ids, segs, k);
    FreeSplit(ids, segs', k);
    Middle(FreeIds(ids[..k], segs[..k]), ids[k], FreeIds(ids[k + 1..], segs[k + 1..]), NULL);
  }

  lemma GiveFree(ids: seq<nat>, segs: seq<Segment>, k: nat)
    requires |ids| == |segs| && k < |ids| && !segs[k].free
    ensures var f, fids := FreeBefore(ids, segs, k), FreeIds(ids, segs);
            f <= |fids| && FreeIds(ids, segs[k := segs[k].(free := true)]) == Inserted(fids, f, ids[k])
  {
    var segs' := segs[k := segs[k].(free := true)];
    assert segs'[..k] == segs[..k] && segs'[k + 1..] == segs[k + 1..];
    hide FreeIds;
    FreeSplit(ids, segs, k);
    FreeSplit(ids, segs', k);
    Middle(FreeIds(ids[..k], segs[..k]), NULL, FreeIds(ids[k + 1..], segs[k + 1..]), ids[k]);
  }

  /** The free ones around a pair of neighbours. */
  lemma FreePair(ids: seq<nat>, segs: seq<Segment>, k: nat)
    requires |ids| == |segs| && k + 1 < |ids|
    ensures FreeIds(ids, segs) ==
            FreeIds(ids[..k], segs[..k]) + One(ids[k], segs[k]) +
                (One(ids[k + 1], segs[k + 1]) + FreeIds(ids[k + 2..], segs[k + 2..]))
  {
    hide FreeIds, One;
    FreeSplit(ids, segs, k);
    FreeCons(ids[k + 1], segs[k + 1], ids[k + 2..], segs[k + 2..]);
    assert ids[k + 1..] == [ids[k + 1]] + ids[k + 2..];
    assert segs[k + 1..] == [segs[k + 1]] + segs[k + 2..];
  }

  /** The free ones once the second has been joined into the first. */
  lemma FreeJoined(ids: seq<nat>, segs: seq<Segment>, k: nat)
    requires |ids| == |segs| && k + 1 < |ids|
    ensures |Removed(ids, k + 1)| == |Join(segs, k)|
    ensures FreeIds(Removed(ids, k + 1), Join(segs, k)) ==
            FreeIds(ids[..k], segs[..k]) + [ids[k]] + FreeIds(ids[k + 2..], segs[k + 2..])
  {
    var joined := Segment(segs[k].ptr, segs[k].size + segs[k + 1].size, true);
    FreeOne(ids[k], joined);
    hide FreeIds, One;
    assert Removed(ids, k + 1) == ids[..k] + [ids[k]] + ids[k + 2..];
    assert Join(segs, k) == segs[..k] + [joined] + segs[k + 2..];
    hide Removed, Join;
    FreePieces(ids[..k], segs[..k], ids[k], joined, ids[k + 2..], segs[k + 2..]);
  }

  lemma FreeOne(id: nat, s: Segment)
    requires s.free
    ensures One(id, s) == [id]
  {
  }

  /** A free successor is joined into a live segment, which takes its place in the list. */
  lemma JoinNextFree(ids: seq<nat>, segs: seq<Segment>, k: nat)
    requires |ids| == |segs| && k + 1 < |ids| && !segs[k].free && segs[k + 1].free
    ensures |Removed(ids, k + 1)| == |Join(segs, k)|
    ensures var f, fids := FreeBefore(ids, segs, k), FreeIds(ids, segs);
            f < |fids| && fids[f] == ids[k + 1] && FreeIds(Removed(ids, k + 1), Join(segs, k)) == fids[f := ids[k]]
  {
    hide FreeIds, Join, Removed;
    FreePair(ids, segs, k);
    FreeJoined(ids, segs, k);
  }

  /** A live segment is joined into its free predecessor: the list stays. */
  lemma JoinPrevLive(ids: seq<nat>, segs: seq<Segment>, k: nat)
    requires |ids| == |segs| && k + 1 < |ids| && segs[k].free && !segs[k + 1].free
    ensures |Removed(ids, k + 1)| == |Join(segs, k)|
    ensures FreeIds(Removed(ids, k + 1), Join(segs, k)) == FreeIds(ids, segs)
  {
    hide FreeIds, Join, Removed;
    FreePair(ids, segs, k);
    FreeJoined(ids, segs, k);
  }

  /** A free segment is joined into its free predecessor and leaves the list. */
  lemma JoinPrevFree(ids: seq<nat>, segs: seq<Segment>, k: nat)
    requires |ids| == |segs| && k + 1 < |ids| && segs[k].free && segs[k + 1].free
    ensures |Removed(ids, k + 1)| == |Join(segs, k)|
    ensures var f, fids := FreeBefore(ids, segs, k) + 1, FreeIds(ids, segs);
            f < |fids| && fids[f] == ids[k + 1] && FreeIds(Removed(ids, k + 1), Join(segs, k)) == Removed(fids, f)
  {
    hide FreeIds, Join;
    FreePair(ids, segs, k);
    FreeJoined(ids, segs, k);
  }

  // ----- The records -----

  /** first is the first segment, head the first free one. */
  datatype State = State(info: map<nat, Info>, chain: Store, frees: Store, first: nat, head: nat)

  ghost predicate Described(info: map<nat, Info>, ids: seq<nat>, segs: seq<Segment>)
    requires |ids| == |segs|
  {
    forall k :: 0 <= k < |ids| ==> ids[k] in info && info[ids[k]] == Info(segs[k].size, segs[k].free, segs[k].ptr)
  }

  /** Live segments have no links in the free list. */
  ghost predicate Unlisted(frees: Store, ids: seq<nat>, segs: seq<Segment>)
    requires |ids| == |segs|
  {
    forall k :: 0 <= k < |ids| && !segs[k].free ==> ids[k] in frees && frees[ids[k]] == Links(NULL, NULL)
  }

  ghost predicate InfoPart(st: State, ids: seq<nat>, segs: seq<Segment>) {
    && |ids| == |segs| && Distinct(ids) && Described(st.info, ids, segs)
    && st.chain.Keys == st.info.Keys && st.frees.Keys == st.info.Keys
    && (forall id :: id in st.info ==> id in ids)
  }

  ghost predicate FreePart(frees: Store, head: nat, ids: seq<nat>, segs: seq<Segment>)
    requires |ids| == |segs|
  {
    List(frees, head, FreeIds(ids, segs)) && Unlisted(frees, ids, segs)
  }

  ghost predicate Represents(st: State, ids: seq<nat>, segs: seq<Segment>) {
    InfoPart(st, ids, segs) && List(st.chain, st.first, ids) && FreePart(st.frees, st.head, ids, segs)
  }

  // ----- Operations on the records -----

  function SplitState(st: State, c: nat, size: nat, r: nat): State
    requires c in st.info && size <= st.info[c].size
  {
    var i := st.info[c];
    st.(info := st.info[r := Info(i.size - size, true, i.ptr + size)][c := i.(size := size)],
        chain := InsertAfter(st.chain, c, r, st.first), frees := InsertAfter(st.frees, c, r, st.head))
  }

  function TakeState(st: State, c: nat): State
    requires c in st.info && c in st.frees
  {
    st.(info := st.info[c := st.info[c].(free := false)], frees := Remove(st.frees, c)[c := Links(NULL, NULL)],
        head := if st.head == c then st.frees[c].next else st.head)
  }

  /** The free successor next goes into c, which takes its place in the free list. */
  function NextState(st: State, c: nat, next: nat): State
    requires c in st.info && next in st.info && next in st.chain && next in st.frees
  {
    var i := st.info[c];
    st.(info := st.info[c := Info(i.size + st.info[next].size, true, i.ptr)] - {next},
        chain := Remove(st.chain, next) - {next}, frees := Rename(st.frees, next, c) - {next},
        head := if st.head == next then c else st.head)
  }

  /** c goes into its free predecessor, and leaves the free list if it is in it. */
  function PrevState(st: State, prev: nat, c: nat, listed: bool): State
    requires c in st.info && prev in st.info && c in st.chain && c in st.frees
  {
    var i := st.info[prev];
    st.(info := st.info[prev := i.(size := i.size + st.info[c].size)] - {c},
        chain := Remove(st.chain, c) - {c}, frees := (if listed then Remove(st.frees, c) else st.frees) - {c})
  }

  /** c enters the free list behind last, or in front. */
  function GiveState(st: State, c: nat, last: nat): State
    requires c in st.info
  {
    st.(info := st.info[c := st.info[c].(free := true)], frees := InsertAfter(st.frees, last, c, st.head),
        head := if last == NULL then c else st.head)
  }

  // ----- They refine the operations on segments -----

  lemma {:induction false} FreeMember(ids: seq<nat>, segs: seq<Segment>, id: nat)
    requires |ids| == |segs| && id in FreeIds(ids, segs)
    ensures exists k :: 0 <= k < |ids| && ids[k] == id && segs[k].free
  {
    var f :| 0 <= f < |FreeIds(ids, segs)| && FreeIds(ids, segs)[f] == id;
    var k := FreePosition(ids, segs, f);
  }

  lemma LiveNotListed(ids: seq<nat>, segs: seq<Segment>, j: nat)
    requires |ids| == |segs| && Distinct(ids) && j < |ids| && !segs[j].free
    ensures ids[j] !in FreeIds(ids, segs)
  {
    if ids[j] in FreeIds(ids, segs) {
      FreeMember(ids, segs, ids[j]);
    }
  }

  /** Live segments stay without links when only listed ones change theirs. */
  lemma StillUnlisted(frees: Store, frees': Store, ids: seq<nat>, segs: seq<Segment>, x: nat)
    requires |ids| == |segs| && Distinct(ids) && Unlisted(frees, ids, segs)
    requires Outside(frees, frees', FreeIds(ids, segs) + [x])
    ensures forall j :: 0 <= j < |ids| && !segs[j].free && ids[j] != x ==>
                ids[j] in frees' && frees'[ids[j]] == Links(NULL, NULL)
  {
    forall j | 0 <= j < |ids| && !segs[j].free && ids[j] != x
      ensures ids[j] in frees' && frees'[ids[j]] == Links(NULL, NULL)
    {
      LiveNotListed(ids, segs, j);
    }
  }

  lemma SegmentInfo(st: State, ids: seq<nat>, segs: seq<Segment>, k: nat)
    requires InfoPart(st, ids, segs) && k < |ids|
    ensures ids[k] in st.info && ids[k] in st.chain && ids[k] in st.frees && ids[k] != NULL
    ensures st.info[ids[k]] == Info(segs[k].size, segs[k].free, segs[k].ptr)
  {
  }

  // Splitting

  lemma SplitFree(frees: Store, head: nat, ids: seq<nat>, segs: seq<Segment>, k: nat, size: nat, r: nat)
    requires |ids| == |segs| && Distinct(ids) && FreePart(frees, head, ids, segs) && k < |ids| && segs[k].free
    requires size <= segs[k].size && r !in ids && r != NULL
    ensures |Inserted(ids, k + 1, r)| == |Cut(segs, k, size)|
    ensures var frees' := InsertAfter(frees, ids[k], r, head);
            && List(frees', head, FreeIds(Inserted(ids, k + 1, r), Cut(segs, k, size)))
                 && frees'.Keys == frees.Keys + {r}
            && forall j :: 0 <= j < |ids| && !segs[j].free ==> ids[j] in frees' && frees'[ids[j]] == Links(NULL, NULL)
  {
    hide FreeIds, InsertAfter, Inserted, Cut, List, Unlisted;
    var f, fids := FreeBefore(ids, segs, k), FreeIds(ids, segs);
    CutFree(ids, segs, k, size, r);
    FreeAtIndex(ids, segs, k);
    if r in fids { FreeMember(ids, segs, r); }
    assert ids[k] != NULL;
    ListInsert(frees, head, fids, f + 1, r);
    StillUnlisted(frees, InsertAfter(frees, ids[k], r, head), ids, segs, r);
  }

  lemma SplitUnlisted(frees': Store, ids: seq<nat>, segs: seq<Segment>, k: nat, size: nat, r: nat)
    requires |ids| == |segs| && k < |ids| && size <= segs[k].size
    requires forall j :: 0 <= j < |ids| && !segs[j].free ==> ids[j] in frees' && frees'[ids[j]] == Links(NULL, NULL)
    ensures |Inserted(ids, k + 1, r)| == |Cut(segs, k, size)|
    ensures Unlisted(frees', Inserted(ids, k + 1, r), Cut(segs, k, size))
  {
    var ids', segs' := Inserted(ids, k + 1, r), Cut(segs, k, size);
    forall j | 0 <= j < |ids'| && !segs'[j].free
      ensures ids'[j] in frees' && frees'[ids'[j]] == Links(NULL, NULL)
    {
      var i := if j < k then j else j - 1;
      assert j != k && j != k + 1;
      assert segs'[j] == segs[i] && ids'[j] == ids[i];
    }
  }

  lemma NewId(st: State, ids: seq<nat>, segs: seq<Segment>, r: nat)
    requires InfoPart(st, ids, segs) && r !in st.info
    ensures r !in ids
  {
  }

  lemma InsertMembers(ids: seq<nat>, k: nat, r: nat)
    requires k <= |ids|
    ensures forall id :: id in Inserted(ids, k, r) <==> id in ids || id == r
  {
    assert ids == ids[..k] + ids[k..];
  }

  lemma SplitInfo(st: State, ids: seq<nat>, segs: seq<Segment>, k: nat, size: nat, r: nat)
    requires InfoPart(st, ids, segs) && k < |ids| && segs[k].free && size <= segs[k].size && r !in st.info && r != NULL
    requires ids[k] in st.info && st.info[ids[k]].size == segs[k].size
    requires var st' := SplitState(st, ids[k], size, r);
             st'.chain.Keys == st.chain.Keys + {r} && st'.frees.Keys == st.frees.Keys + {r}
    ensures InfoPart(SplitState(st, ids[k], size, r), Inserted(ids, k + 1, r), Cut(segs, k, size))
  {
    hide Cut, Inserted, InsertAfter, Described, Distinct;
    NewId(st, ids, segs, r);
    SplitDescribed(st, ids, segs, k, size, r);
    InsertDistinct(ids, k + 1, r);
    InsertMembers(ids, k + 1, r);
  }

  lemma SplitRepresents(st: State, ids: seq<nat>, segs: seq<Segment>, k: nat, size: nat, r: nat)
    requires Represents(st, ids, segs) && k < |ids| && segs[k].free && size <= segs[k].size && r !in st.info
              && r != NULL
    ensures ids[k] in st.info && st.info[ids[k]].size == segs[k].size
    ensures Represents(SplitState(st, ids[k], size, r), Inserted(ids, k + 1, r), Cut(segs, k, size))
  {
    SegmentInfo(st, ids, segs, k);
    assert Distinct(ids) && r !in ids && |ids| == |segs|;
    hide InfoPart, Cut, Inserted, InsertAfter, Distinct, List, FreeIds, Unlisted;
    ListInsert(st.chain, st.first, ids, k + 1, r);
    SplitFree(st.frees, st.head, ids, segs, k, size, r);
    SplitUnlisted(InsertAfter(st.frees, ids[k], r, st.head), ids, segs, k, size, r);
    SplitInfo(st, ids, segs, k, size, r);
  }

  lemma SplitDescribed(st: State, ids: seq<nat>, segs: seq<Segment>, k: nat, size: nat, r: nat)
    requires |ids| == |segs| && Distinct(ids) && Described(st.info, ids, segs) && k < |ids| && segs[k].free
    requires ids[k] in st.info && size <= segs[k].size == st.info[ids[k]].size && r !in st.info
    ensures var st', ids', segs' := SplitState(st, ids[k], size, r), Inserted(ids, k + 1, r), Cut(segs, k, size);
            && |ids'| == |segs'| && Described(st'.info, ids', segs') && IdAt(ids', 0) == IdAt(ids, 0)
            && (forall id :: id in ids || id == r ==> id in ids')
            && (forall j :: 0 <= j < |ids'| && !segs'[j].free ==>
                   exists i :: 0 <= i < |ids| && ids'[j] == ids[i] && !segs[i].free)
  {
    var st', ids', segs' := SplitState(st, ids[k], size, r), Inserted(ids, k + 1, r), Cut(segs, k, size);
    InsertedAt(ids, k + 1, r);
    hide Inserted, InsertAfter;
    assert segs'[k] == Segment(segs[k].ptr, size, true);
    assert segs'[k + 1] == Segment(segs[k].ptr + size, segs[k].size - size, true);
    forall j | 0 <= j < |ids'|
      ensures ids'[j] in st'.info && st'.info[ids'[j]] == Info(segs'[j].size, segs'[j].free, segs'[j].ptr)
      ensures !segs'[j].free ==> exists i :: 0 <= i < |ids| && ids'[j] == ids[i] && !segs[i].free
    {
      if j < k {
        assert segs'[j] == segs[j] && ids'[j] == ids[j];
      } else if j > k + 1 {
        assert segs'[j] == segs[j - 1] && ids'[j] == ids[j - 1];
      }
    }
    forall id | id in ids
      ensures id in ids'
    {
      var i :| 0 <= i < |ids| && ids[i] == id;
      assert ids'[if i <= k then i else i + 1] == id;
    }
    assert ids'[k + 1] == r;
  }

  // Taking

  lemma StateInfo(st: State, ids: seq<nat>, segs: seq<Segment>, st': State, k: nat, free: bool)
    requires InfoPart(st, ids, segs) && k < |ids| && ids[k] in st.info
    requires st'.info == st.info[ids[k] := st.info[ids[k]].(free := free)]
    requires st'.chain == st.chain && st'.frees.Keys == st.frees.Keys
    ensures InfoPart(st', ids, segs[k := segs[k].(free := free)])
  {
  }

  lemma TakeFreePart(frees: Store, head: nat, ids: seq<nat>, segs: seq<Segment>, k: nat)
    requires |ids| == |segs| && Distinct(ids) && FreePart(frees, head, ids, segs) && k < |ids| && segs[k].free
    ensures ids[k] in frees
    ensures var c := ids[k]; var frees' := Remove(frees, c)[c := Links(NULL, NULL)];
            && FreePart(frees', if head == c then frees[c].next else head, ids, segs[k := segs[k].(free := false)])
            && frees'.Keys == frees.Keys
  {
    hide FreeIds, Remove;
    TakeFree(ids, segs, k);
    FreeAtIndex(ids, segs, k);
    ListRemove(frees, head, FreeIds(ids, segs), FreeBefore(ids, segs, k), Links(NULL, NULL));
    var frees' := Remove(frees, ids[k])[ids[k] := Links(NULL, NULL)];
    StillUnlisted(frees, frees', ids, segs, ids[k]);
    hide List;
  }

  lemma TakeRepresents(st: State, ids: seq<nat>, segs: seq<Segment>, k: nat)
    requires Represents(st, ids, segs) && k < |ids| && segs[k].free
    ensures ids[k] in st.info && ids[k] in st.frees
    ensures Represents(TakeState(st, ids[k]), ids, segs[k := segs[k].(free := false)])
  {
    SegmentInfo(st, ids, segs, k);
    assert Distinct(ids) && |ids| == |segs|;
    hide FreePart, InfoPart, Distinct, List, Remove;
    TakeFreePart(st.frees, st.head, ids, segs, k);
    StateInfo(st, ids, segs, TakeState(st, ids[k]), k, false);
  }

  // Giving back

  lemma GiveFreePart(frees: Store, head: nat, ids: seq<nat>, segs: seq<Segment>, k: nat)
    requires |ids| == |segs| && Distinct(ids) && FreePart(frees, head, ids, segs) && k < |ids| && !segs[k].free
              && ids[k] in frees
    ensures var last := IdAt(FreeIds(ids, segs), FreeBefore(ids, segs, k) - 1);
            var frees' := InsertAfter(frees, last, ids[k], head);
            && FreePart(frees', if last == NULL then ids[k] else head, ids, segs[k := segs[k].(free := true)])
            && frees'.Keys == frees.Keys
  {
    hide FreeIds, InsertAfter;
    GiveFree(ids, segs, k);
    LiveNotListed(ids, segs, k);
    ListInsert(frees, head, FreeIds(ids, segs), FreeBefore(ids, segs, k), ids[k]);
    var last := IdAt(FreeIds(ids, segs), FreeBefore(ids, segs, k) - 1);
    StillUnlisted(frees, InsertAfter(frees, last, ids[k], head), ids, segs, ids[k]);
    hide List;
  }

  lemma GiveRepresents(st: State, ids: seq<nat>, segs: seq<Segment>, k: nat)
    requires Represents(st, ids, segs) && k < |ids| && !segs[k].free
    ensures ids[k] in st.info
    ensures var last := IdAt(FreeIds(ids, segs), FreeBefore(ids, segs, k) - 1);
            Represents(GiveState(st, ids[k], last), ids, segs[k := segs[k].(free := true)])
  {
    SegmentInfo(st, ids, segs, k);
    assert Distinct(ids) && |ids| == |segs|;
    hide FreePart, InfoPart, Distinct, List, FreeIds, InsertAfter, IdAt, FreeBefore;
    GiveFreePart(st.frees, st.head, ids, segs, k);
    var last := IdAt(FreeIds(ids, segs), FreeBefore(ids, segs, k) - 1);
    StateInfo(st, ids, segs, GiveState(st, ids[k], last), k, true);
  }

  // Joining

  lemma JoinDescribed(info: map<nat, Info>, ids: seq<nat>, segs: seq<Segment>, k: nat)
    requires |ids| == |segs| && Distinct(ids) && Described(info, ids, segs) && k + 1 < |ids|
    ensures var info' := info[ids[k] := Info(segs[k].size + segs[k + 1].size, true, segs[k].ptr)] - {ids[k + 1]};
            var ids', segs' := Removed(ids, k + 1), Join(segs, k);
            && |ids'| == |segs'| && Described(info', ids', segs')
            && (forall id :: id in ids && id != ids[k + 1] ==> id in ids')
  {
    var info' := info[ids[k] := Info(segs[k].size + segs[k + 1].size, true, segs[k].ptr)] - {ids[k + 1]};
    var ids', segs' := Removed(ids, k + 1), Join(segs, k);
    RemovedAt(ids, k + 1);
    hide Removed;
    forall j | 0 <= j < |ids'|
      ensures ids'[j] in info' && info'[ids'[j]] == Info(segs'[j].size, segs'[j].free, segs'[j].ptr)
    {
      var i := if j <= k then j else j + 1;
      assert ids'[j] == ids[i];
      if j != k {
        assert segs'[j] == segs[i];
      }
    }
    forall id | id in ids && id != ids[k + 1]
      ensures id in ids'
    {
      var i :| 0 <= i < |ids| && ids[i] == id;
      assert ids'[if i <= k then i else i - 1] == id;
    }
  }

  lemma RemoveDistinct(ids: seq<nat>, k: nat)
    requires Distinct(ids) && k < |ids|
    ensures Distinct(Removed(ids, k))
  {
    RemovedAt(ids, k);
    hide Removed;
  }

  lemma JoinInfo(st: State, ids: seq<nat>, segs: seq<Segment>, st': State, k: nat)
    requires InfoPart(st, ids, segs) && k + 1 < |ids|
    requires st'.info == st.info[ids[k] := Info(segs[k].size + segs[k + 1].size, true, segs[k].ptr)] - {ids[k + 1]}
    requires ids[k] in st.info && st'.chain.Keys == st.chain.Keys - {ids[k + 1]}
              && st'.frees.Keys == st.frees.Keys - {ids[k + 1]}
    ensures InfoPart(st', Removed(ids, k + 1), Join(segs, k))
  {
    JoinDescribed(st.info, ids, segs, k);
    RemoveDistinct(ids, k + 1);
    assert ids[k] != ids[k + 1];
    hide Removed, Join, Described, Distinct;
  }

  lemma JoinUnlisted(frees': Store, ids: seq<nat>, segs: seq<Segment>, k: nat)
    requires |ids| == |segs| && k + 1 < |ids|
    requires forall j :: 0 <= j < |ids| && j != k && j != k + 1 && !segs[j].free ==>
                ids[j] in frees' && frees'[ids[j]] == Links(NULL, NULL)
    ensures |Removed(ids, k + 1)| == |Join(segs, k)| && Unlisted(frees', Removed(ids, k + 1), Join(segs, k))
  {
    var ids', segs' := Removed(ids, k + 1), Join(segs, k);
    forall j | 0 <= j < |ids'| && !segs'[j].free
      ensures ids'[j] in frees' && frees'[ids'[j]] == Links(NULL, NULL)
    {
      var i := if j < k then j else j + 1;
      assert j != k;
      assert segs'[j] == segs[i] && ids'[j] == ids[i];
    }
  }

  lemma NextFreePart(frees: Store, head: nat, ids: seq<nat>, segs: seq<Segment>, k: nat)
    requires |ids| == |segs| && Distinct(ids) && FreePart(frees, head, ids, segs)
    requires k + 1 < |ids| && !segs[k].free && segs[k + 1].free && ids[k] in frees
    ensures |Removed(ids, k + 1)| == |Join(segs, k)| && ids[k + 1] in frees
    ensures var frees' := Rename(frees, ids[k + 1], ids[k]) - {ids[k + 1]};
            && FreePart(frees', if head == ids[k + 1] then ids[k] else head, Removed(ids, k + 1), Join(segs, k))
            && frees'.Keys == frees.Keys - {ids[k + 1]}
  {
    hide FreeIds, Rename;
    JoinNextFree(ids, segs, k);
    LiveNotListed(ids, segs, k);
    ListRename(frees, head, FreeIds(ids, segs), FreeBefore(ids, segs, k), ids[k]);
    var frees' := Rename(frees, ids[k + 1], ids[k]) - {ids[k + 1]};
    StillUnlisted(frees, frees', ids, segs, ids[k]);
    hide List, Removed, Join;
    JoinUnlisted(frees', ids, segs, k);
  }

  lemma NotFirst(st: State, ids: seq<nat>, segs: seq<Segment>, k: nat)
    requires InfoPart(st, ids, segs) && List(st.chain, st.first, ids) && 0 < k < |ids|
    ensures Distinct(ids) && |ids| == |segs| && st.first != ids[k]
  {
  }

  lemma NextRepresents(st: State, ids: seq<nat>, segs: seq<Segment>, k: nat)
    requires Represents(st, ids, segs) && k + 1 < |ids| && !segs[k].free && segs[k + 1].free
    ensures ids[k] in st.info && ids[k + 1] in st.info && ids[k + 1] in st.chain && ids[k + 1] in st.frees
    ensures Represents(NextState(st, ids[k], ids[k + 1]), Removed(ids, k + 1), Join(segs, k))
  {
    hide FreePart, InfoPart, Distinct, List, Rename, Remove, Removed, Join;
    SegmentInfo(st, ids, segs, k);
    SegmentInfo(st, ids, segs, k + 1);
    NotFirst(st, ids, segs, k + 1);
    NextFreePart(st.frees, st.head, ids, segs, k);
    ListDelete(st.chain, st.first, ids, k + 1);
    JoinInfo(st, ids, segs, NextState(st, ids[k], ids[k + 1]), k);
  }

  lemma PrevFreePart(frees: Store, head: nat, ids: seq<nat>, segs: seq<Segment>, k: nat)
    requires |ids| == |segs| && Distinct(ids) && FreePart(frees, head, ids, segs)
    requires k + 1 < |ids| && segs[k].free && ids[k + 1] in frees
    ensures |Removed(ids, k + 1)| == |Join(segs, k)|
    ensures var frees' := (if segs[k + 1].free then Remove(frees, ids[k + 1]) else frees) - {ids[k + 1]};
            FreePart(frees', head, Removed(ids, k + 1), Join(segs, k)) && frees'.Keys == frees.Keys - {ids[k + 1]}
  {
    var c, fids := ids[k + 1], FreeIds(ids, segs);
    var frees' := (if segs[k + 1].free then Remove(frees, c) else frees) - {c};
    hide FreeIds, Remove;
    if segs[k + 1].free {
      JoinPrevFree(ids, segs, k);
      ListDelete(frees, head, fids, FreeBefore(ids, segs, k) + 1);
      assert head != c;
    } else {
      JoinPrevLive(ids, segs, k);
      LiveNotListed(ids, segs, k + 1);
      ListForget(frees, head, fids, c);
    }
    StillUnlisted(frees, frees', ids, segs, c);
    hide List, Removed, Join;
    JoinUnlisted(frees', ids, segs, k);
  }

  lemma PrevRepresents(st: State, ids: seq<nat>, segs: seq<Segment>, k: nat)
    requires Represents(st, ids, segs) && k + 1 < |ids| && segs[k].free
    ensures ids[k] in st.info && ids[k + 1] in st.info && ids[k + 1] in st.chain && ids[k + 1] in st.frees
    ensures Represents(PrevState(st, ids[k], ids[k + 1], segs[k + 1].free), Removed(ids, k + 1), Join(segs, k))
  {
    hide FreePart, InfoPart, Distinct, List, Remove, Removed, Join;
    SegmentInfo(st, ids, segs, k);
    SegmentInfo(st, ids, segs, k + 1);
    NotFirst(st, ids, segs, k + 1);
    PrevFreePart(st.frees, st.head, ids, segs, k);
    ListDelete(st.chain, st.first, ids, k + 1);
    JoinInfo(st, ids, segs, PrevState(st, ids[k], ids[k + 1], segs[k + 1].free), k);
  }
}
