/**
 The heap of a device: chunks chained in address order, the free ones linked in
 a list of their own (kaapi_memory_alloc and kaapi_memory_free). Chunks are
 records in a store addressed by references, as malloc hands them out.
 */
module DeviceHeap {
  import opened Machine
  import opened Segments

  const CHUNK_BYTES: nat := 48

  datatype Chunk = Chunk(size: nat, free: bool, ptr: nat, prev: nat, next: nat, freelink: nat)

  // ----- How a store represents segments -----

  /** The first free chunk at or after position k. */
  function FirstFree(chain: seq<nat>, segs: seq<Segment>, k: nat): nat
    requires |chain| == |segs|
    decreases |segs| - k
  {
    if k >= |segs| then NULL else if segs[k].free then chain[k] else FirstFree(chain, segs, k + 1)
  }

  /** The chunk at position k: its extent, its neighbours, and the next free chunk if it is free. */
  function ChunkFor(chain: seq<nat>, segs: seq<Segment>, k: nat): Chunk
    requires |chain| == |segs| && k < |segs|
  {
    Chunk(segs[k].size, segs[k].free, segs[k].ptr, IdAt(chain, k - 1), IdAt(chain, k + 1),
          if segs[k].free then FirstFree(chain, segs, k + 1) else NULL)
  }

  predicate Stored(nodes: map<nat, Chunk>, chain: seq<nat>, segs: seq<Segment>, k: int)
    requires |chain| == |segs|
  {
    0 <= k < |chain| ==> chain[k] in nodes && nodes[chain[k]] == ChunkFor(chain, segs, k)
  }

  ghost predicate Represents(nodes: map<nat, Chunk>, head: nat, chain: seq<nat>, segs: seq<Segment>) {
    && |chain| == |segs| && Distinct(chain)
    && (forall k :: Stored(nodes, chain, segs, k))
    && head == FirstFree(chain, segs, 0)
  }

  // ----- The free list -----

  /** The free list from a position depends only on what lies from there on. */
  lemma {:induction false} FreeShift(chain: seq<nat>, segs: seq<Segment>, k: nat, chain': seq<nat>,
                                     segs': seq<Segment>, k': nat)
    requires |chain| == |segs| && |chain'| == |segs'| && k <= |segs| && k' <= |segs'| && |segs| - k == |segs'| - k'
    requires forall i :: k <= i < |segs| ==> chain'[i - k + k'] == chain[i] && segs'[i - k + k'].free == segs[i].free
    ensures FirstFree(chain, segs, k) == FirstFree(chain', segs', k')
    decreases |segs| - k
  {
    if k < |segs| {
      assert chain'[k'] == chain[k] && segs'[k'].free == segs[k].free;
      FreeShift(chain, segs, k + 1, chain', segs', k' + 1);
    }
  }

  /** Two lists that agree up to m and from m on agree everywhere before. */
  lemma {:induction false} FreePrefix(chain: seq<nat>, segs: seq<Segment>, chain': seq<nat>, segs': seq<Segment>,
                                      k: nat, m: nat)
    requires |chain| == |segs| && |chain'| == |segs'| && k <= m <= |segs| && m <= |segs'|
    requires forall i :: k <= i < m ==> chain'[i] == chain[i] && segs'[i].free == segs[i].free
    requires FirstFree(chain, segs, m) == FirstFree(chain', segs', m)
    ensures FirstFree(chain, segs, k) == FirstFree(chain', segs', k)
    decreases m - k
  {
    if k < m {
      FreePrefix(chain, segs, chain', segs', k + 1, m);
    }
  }

  /** Up to a common free chunk nothing behind it matters. */
  lemma FreeStop(chain: seq<nat>, segs: seq<Segment>, chain': seq<nat>, segs': seq<Segment>, k: nat, m: nat)
    requires |chain| == |segs| && |chain'| == |segs'| && k <= m < |segs| && m < |segs'|
    requires forall i :: k <= i <= m ==> chain'[i] == chain[i] && segs'[i].free == segs[i].free
    requires segs[m].free
    ensures FirstFree(chain, segs, k) == FirstFree(chain', segs', k)
  {
    FreePrefix(chain, segs, chain', segs', k, m);
  }

  lemma {:induction false} FreeSkip(chain: seq<nat>, segs: seq<Segment>, k: nat, m: nat)
    requires |chain| == |segs| && k <= m <= |segs| && forall i :: k <= i < m ==> !segs[i].free
    ensures FirstFree(chain, segs, k) == FirstFree(chain, segs, m)
    decreases m - k
  {
    if k < m {
      FreeSkip(chain, segs, k + 1, m);
    }
  }

  /** The first free chunk is at a position. */
  lemma {:induction false} FreeAtPosition(chain: seq<nat>, segs: seq<Segment>, k: nat) returns (m: nat)
    requires |chain| == |segs| && k <= |segs| && Distinct(chain)
    ensures k <= m <= |segs| && FirstFree(chain, segs, k) == IdAt(chain, m)
    ensures (forall i :: k <= i < m ==> !segs[i].free) && (m < |segs| ==> segs[m].free)
    ensures m == |segs| <==> FirstFree(chain, segs, k) == NULL
    decreases |segs| - k
  {
    if k == |segs| || segs[k].free {
      m := k;
    } else {
      m := FreeAtPosition(chain, segs, k + 1);
    }
  }

  // ----- Replacing a stretch of the chain -----

  /** chain' is chain with the stretch [a, b) replaced by a stretch that ends at b'. */
  predicate Replaces(chain: seq<nat>, segs: seq<Segment>, a: nat, b: nat, chain': seq<nat>, segs': seq<Segment>,
                     b': nat) {
    && |chain| == |segs| && |chain'| == |segs'| && a <= b <= |chain| && a <= b' <= |chain'|
    && |chain| - b == |chain'| - b'
    && (forall j {:trigger chain[j]} {:trigger segs[j]} :: 0 <= j < a ==> chain'[j] == chain[j] && segs'[j] == segs[j])
    && (forall j {:trigger chain[j]} {:trigger segs[j]} ::
          b <= j < |chain| ==> chain'[j - b + b'] == chain[j] && segs'[j - b + b'] == segs[j])
  }

  /** The store that follows: outside the stretch only the two pointers into it change. */
  ghost predicate Patched(nodes: map<nat, Chunk>, nodes': map<nat, Chunk>, chain: seq<nat>, a: nat, b: nat,
                          chain': seq<nat>, b': nat)
    requires a <= b <= |chain|
  {
    && (forall j :: 0 <= j < |chain| && !(a <= j < b) ==> chain[j] in nodes && chain[j] in nodes')
    && (forall j :: 0 <= j < |chain| && (j < a - 1 || j > b) ==> nodes'[chain[j]] == nodes[chain[j]])
    && (a > 0 ==> nodes'[chain[a - 1]] == nodes[chain[a - 1]].(next := IdAt(chain', a)))
    && (b < |chain| ==> nodes'[chain[b]] == nodes[chain[b]].(prev := IdAt(chain', b' - 1)))
  }

  lemma AroundSame(chain: seq<nat>, segs: seq<Segment>, a: nat, b: nat, chain': seq<nat>, segs': seq<Segment>, b': nat)
    requires Replaces(chain, segs, a, b, chain', segs', b')
    ensures FirstFree(chain, segs, b) == FirstFree(chain', segs', b')
    ensures IdAt(chain, a - 1) == IdAt(chain', a - 1) && IdAt(chain, b) == IdAt(chain', b')
  {
    FreeShift(chain, segs, b, chain', segs', b');
  }

  lemma StoredBefore(nodes: map<nat, Chunk>, nodes': map<nat, Chunk>, chain: seq<nat>, segs: seq<Segment>,
                     a: nat, b: nat,
                     chain': seq<nat>, segs': seq<Segment>, b': nat, j: nat)
    requires Replaces(chain, segs, a, b, chain', segs', b') && Patched(nodes, nodes', chain, a, b, chain', b')
    requires FirstFree(chain, segs, a) == FirstFree(chain', segs', a)
    requires j < a && Stored(nodes, chain, segs, j)
    ensures Stored(nodes', chain', segs', j)
  {
    FreePrefix(chain, segs, chain', segs', j + 1, a);
    assert IdAt(chain, j - 1) == IdAt(chain', j - 1);
    assert j < a - 1 ==> IdAt(chain, j + 1) == IdAt(chain', j + 1);
  }

  lemma StoredAfter(nodes: map<nat, Chunk>, nodes': map<nat, Chunk>, chain: seq<nat>, segs: seq<Segment>,
                    a: nat, b: nat,
                    chain': seq<nat>, segs': seq<Segment>, b': nat, j: nat)
    requires Replaces(chain, segs, a, b, chain', segs', b') && Patched(nodes, nodes', chain, a, b, chain', b')
    requires b <= j < |chain| && Stored(nodes, chain, segs, j) && a < b
    ensures Stored(nodes', chain', segs', j - b + b')
  {
    FreeShift(chain, segs, j + 1, chain', segs', j + 1 - b + b');
    assert IdAt(chain, j + 1) == IdAt(chain', j + 1 - b + b');
    assert j > b ==> IdAt(chain, j - 1) == IdAt(chain', j - 1 - b + b');
  }

  lemma ReplaceRepresents(nodes: map<nat, Chunk>, nodes': map<nat, Chunk>, head: nat, chain: seq<nat>,
                          segs: seq<Segment>,
                          a: nat, b: nat, chain': seq<nat>, segs': seq<Segment>, b': nat)
    requires Represents(nodes, head, chain, segs) && a < b
    requires Replaces(chain, segs, a, b, chain', segs', b') && Patched(nodes, nodes', chain, a, b, chain', b')
    requires FirstFree(chain, segs, a) == FirstFree(chain', segs', a) && Distinct(chain')
    requires forall j :: a <= j < b' ==> Stored(nodes', chain', segs', j)
    ensures Represents(nodes', head, chain', segs')
  {
    hide FirstFree, ChunkFor, Distinct, Patched;
    FreePrefix(chain, segs, chain', segs', 0, a);
    hide Replaces;
    forall j
      ensures Stored(nodes', chain', segs', j)
    {
      if 0 <= j < a {
        assert Stored(nodes, chain, segs, j);
        StoredBefore(nodes, nodes', chain, segs, a, b, chain', segs', b', j);
      } else if b' <= j < |chain'| {
        assert Stored(nodes, chain, segs, j - b' + b);
        StoredAfter(nodes, nodes', chain, segs, a, b, chain', segs', b', j - b' + b);
      }
    }
  }

  // ----- Requests -----

  /** size_t arithmetic: round up to a multiple of 8, at least the size of a chunk record. */
  function Rounded(request: nat): nat {
    var size := (request + 7) % WORD / 8 * 8;
    if size < CHUNK_BYTES then CHUNK_BYTES else size
  }

  predicate Fits(s: Segment, size: nat) { s.free && s.size >= size }

  /** A chunk is split unless the remainder is less than half the request. */
  predicate Splits(s: Segment, size: nat) { s.size >= size && 2 * (s.size - size) >= size }

  /** p is the position of the last free chunk before k, or -1. */
  predicate LastFreeBefore(segs: seq<Segment>, p: int, k: nat) {
    && -1 <= p < k <= |segs| && (p >= 0 ==> segs[p].free)
    && (forall i :: p < i < k ==> !segs[i].free)
  }

  predicate IsLastFit(segs: seq<Segment>, k: nat, size: nat) {
    && k < |segs| && Fits(segs[k], size)
    && (forall i :: k < i < |segs| ==> !Fits(segs[i], size))
  }

  function Insert(chain: seq<nat>, k: nat, r: nat): seq<nat>
    requires k < |chain|
  {
    chain[..k + 1] + [r] + chain[k + 1..]
  }

  /** The live chunks, by reference, with their address and size. */
  function Handles(m: map<nat, Chunk>): map<nat, (nat, nat)> {
    map id | id in m && !m[id].free :: (m[id].ptr, m[id].size)
  }

  // ----- Pointer surgery -----

  type Store = map<nat, Chunk>

  function LinkPrev(m: Store, id: nat, v: nat): Store { if id in m then m[id := m[id].(prev := v)] else m }
  function LinkNext(m: Store, id: nat, v: nat): Store { if id in m then m[id := m[id].(next := v)] else m }

  /** A remainder r is linked in behind c, in the chain and in the free list. */
  function SplitStore(m: Store, c: nat, size: nat, r: nat): Store
    requires c in m && size <= m[c].size
  {
    LinkPrev(m, m[c].next, r)[r := Chunk(m[c].size - size, true, m[c].ptr + size, c, m[c].next, m[c].freelink)]
                            [c := m[c].(next := r, size := size, freelink := r)]
  }

  /** c goes into next. */
  function NextStore(m: Store, c: nat, next: nat): Store
    requires c in m && next in m
  {
    LinkNext(m, m[c].prev, next)[next := m[next].(prev := m[c].prev, size := m[next].size + m[c].size, ptr := m[c].ptr)]
  }

  /** c goes into prev, whose place in the free list is given. */
  function PrevStore(m: Store, prev: nat, c: nat, link: nat): Store
    requires c in m && prev in m
  {
    LinkPrev(m, m[c].next, prev)[
      prev := m[prev].(next := m[c].next, size := m[prev].size + m[c].size, freelink := link)]
  }

  /** What splitting chunk k does to the store. */
  ghost predicate SplitNodes(nodes: map<nat, Chunk>, nodes': map<nat, Chunk>, chain: seq<nat>, segs: seq<Segment>,
                             k: nat, size: nat, r: nat)
    requires |chain| == |segs| && k < |segs| && size <= segs[k].size
  {
    && r !in nodes && r != NULL && r in nodes'
    && (forall j :: 0 <= j < |chain| ==> chain[j] in nodes && chain[j] in nodes')
    && nodes'[r]
         == Chunk(segs[k].size - size, true, segs[k].ptr + size, chain[k], IdAt(chain, k + 1), nodes[chain[k]].freelink)
    && nodes'[chain[k]] == nodes[chain[k]].(next := r, size := size, freelink := r)
    && (k + 1 < |chain| ==> nodes'[chain[k + 1]] == nodes[chain[k + 1]].(prev := r))
    && (forall j :: 0 <= j < |chain| && (j < k || j > k + 1) ==> nodes'[chain[j]] == nodes[chain[j]])
  }

  lemma SplitSurgery(m: Store, head: nat, chain: seq<nat>, segs: seq<Segment>, k: nat, size: nat, r: nat)
    requires Represents(m, head, chain, segs) && k < |segs| && size <= segs[k].size && r !in m && r != NULL
    ensures chain[k] in m && m[chain[k]].size == segs[k].size
    ensures SplitNodes(m, SplitStore(m, chain[k], size, r), chain, segs, k, size, r)
  {
    AllStored(m, head, chain, segs);
    assert Stored(m, chain, segs, k) && Stored(m, chain, segs, k + 1);
    hide FirstFree, Represents, Stored;
  }

  lemma CutAt(chain: seq<nat>, segs: seq<Segment>, k: nat, size: nat, r: nat)
    requires |chain| == |segs| && k < |segs| && size <= segs[k].size
    ensures var chain', segs' := Insert(chain, k, r), Cut(segs, k, size);
            && |chain'| == |segs'| && k + 1 < |chain'| && Replaces(chain, segs, k, k + 1, chain', segs', k + 2)
            && chain'[k] == chain[k] && chain'[k + 1] == r
            && segs'[k] == Segment(segs[k].ptr, size, true)
            && segs'[k + 1] == Segment(segs[k].ptr + size, segs[k].size - size, true)
  {
  }

  lemma SplitStored(nodes: map<nat, Chunk>, nodes': map<nat, Chunk>, head: nat, chain: seq<nat>, segs: seq<Segment>,
                    k: nat, size: nat, r: nat)
    requires Represents(nodes, head, chain, segs) && k < |segs| && segs[k].free && size <= segs[k].size
    requires SplitNodes(nodes, nodes', chain, segs, k, size, r)
    ensures var chain', segs' := Insert(chain, k, r), Cut(segs, k, size);
            && Stored(nodes', chain', segs', k) && Stored(nodes', chain', segs', k + 1)
            && FirstFree(chain, segs, k) == FirstFree(chain', segs', k)
  {
    var chain', segs' := Insert(chain, k, r), Cut(segs, k, size);
    assert Stored(nodes, chain, segs, k);
    hide Represents, Insert, Cut, Replaces;
    CutAt(chain, segs, k, size, r);
    AroundSame(chain, segs, k, k + 1, chain', segs', k + 2);
    assert IdAt(chain', k + 1) == r && IdAt(chain', k) == chain[k];
    hide IdAt;
    assert FirstFree(chain', segs', k + 1) == r;
  }

  lemma SplitPatched(nodes: map<nat, Chunk>, nodes': map<nat, Chunk>, head: nat, chain: seq<nat>, segs: seq<Segment>,
                     k: nat, size: nat, r: nat)
    requires Represents(nodes, head, chain, segs) && k < |segs| && segs[k].free && size <= segs[k].size
    requires SplitNodes(nodes, nodes', chain, segs, k, size, r)
    ensures Patched(nodes, nodes', chain, k, k + 1, Insert(chain, k, r), k + 2)
  {
    assert Stored(nodes, chain, segs, k - 1);
    hide Represents, FirstFree, Cut;
    var chain' := Insert(chain, k, r);
    assert chain'[k] == chain[k] && chain'[k + 1] == r;
    hide Insert;
  }

  lemma SplitRepresents(nodes: map<nat, Chunk>, nodes': map<nat, Chunk>, head: nat, chain: seq<nat>, segs: seq<Segment>,
                        k: nat, size: nat, r: nat)
    requires Represents(nodes, head, chain, segs) && k < |segs| && segs[k].free && size <= segs[k].size
    requires SplitNodes(nodes, nodes', chain, segs, k, size, r)
    ensures Represents(nodes', head, Insert(chain, k, r), Cut(segs, k, size))
  {
    assert |Insert(chain, k, r)| == |Cut(segs, k, size)|;
    assert r !in nodes && r != NULL;
    hide Patched, Replaces, FirstFree, Insert, Cut, SplitNodes, Stored, Represents;
    CutAt(chain, segs, k, size, r);
    SplitStored(nodes, nodes', head, chain, segs, k, size, r);
    SplitPatched(nodes, nodes', head, chain, segs, k, size, r);
    InsertDistinct(nodes, head, chain, segs, k, r);
    ReplaceRepresents(nodes, nodes', head, chain, segs, k, k + 1, Insert(chain, k, r), Cut(segs, k, size), k + 2);
  }

  lemma InsertDistinct(nodes: map<nat, Chunk>, head: nat, chain: seq<nat>, segs: seq<Segment>, k: nat, r: nat)
    requires Represents(nodes, head, chain, segs) && k < |chain| && r !in nodes && r != NULL
    ensures Distinct(Insert(chain, k, r))
  {
    AllStored(nodes, head, chain, segs);
    var chain' := Insert(chain, k, r);
    assert forall j :: 0 <= j < |chain'| ==>
        chain'[j] == (if j <= k then chain[j] else if j == k + 1 then r else chain[j - 1]);
  }

  lemma ChainDistinct(nodes: map<nat, Chunk>, head: nat, chain: seq<nat>, segs: seq<Segment>)
    requires Represents(nodes, head, chain, segs)
    ensures Distinct(chain) && |chain| == |segs|
  {
  }

  /** The neighbours of a chunk are the neighbouring chunks. */
  lemma NeighboursOf(nodes: map<nat, Chunk>, head: nat, chain: seq<nat>, segs: seq<Segment>, k: nat)
    requires Represents(nodes, head, chain, segs) && k < |chain|
    ensures chain[k] in nodes
    ensures var c := nodes[chain[k]];
            && c.size == segs[k].size && c.ptr == segs[k].ptr && c.free == segs[k].free
            && c.prev == IdAt(chain, k - 1) && c.next == IdAt(chain, k + 1)
            && c.freelink == (if segs[k].free then FirstFree(chain, segs, k + 1) else NULL)
            && (c.prev != NULL ==> c.prev in nodes && c.prev != chain[k] && c.prev != c.next)
            && (c.next != NULL ==> c.next in nodes && c.next != chain[k])
  {
    AllStored(nodes, head, chain, segs);
    assert Stored(nodes, chain, segs, k);
  }

  lemma AllStored(nodes: map<nat, Chunk>, head: nat, chain: seq<nat>, segs: seq<Segment>)
    requires Represents(nodes, head, chain, segs)
    ensures forall j :: 0 <= j < |chain| ==> chain[j] in nodes
  {
    forall j | 0 <= j < |chain|
      ensures chain[j] in nodes
    {
      assert Stored(nodes, chain, segs, j);
    }
  }
  // ----- Joining two neighbours -----

  function Without(chain: seq<nat>, k: nat, x: nat): seq<nat>
    requires k + 1 < |chain|
  {
    chain[..k] + [x] + chain[k + 2..]
  }

  /** What joining chunks k and k + 1 under the name x does to the store. */
  ghost predicate JoinNodes(nodes: map<nat, Chunk>, nodes': map<nat, Chunk>, chain: seq<nat>, segs: seq<Segment>,
                            k: nat, x: nat)
    requires |chain| == |segs| && k + 1 < |segs|
  {
    && (forall j :: 0 <= j < |chain| ==> chain[j] in nodes && chain[j] in nodes')
    && x == (if segs[k].free then chain[k] else chain[k + 1]) && (segs[k].free || segs[k + 1].free)
    && nodes'[x] == Chunk(segs[k].size + segs[k + 1].size, true, segs[k].ptr, IdAt(chain, k - 1), IdAt(chain, k + 2),
                          if segs[k + 1].free then nodes[chain[k + 1]].freelink else nodes[chain[k]].freelink)
    && (k > 0 ==> nodes'[chain[k - 1]] == nodes[chain[k - 1]].(next := x))
    && (k + 2 < |chain| ==> nodes'[chain[k + 2]] == nodes[chain[k + 2]].(prev := x))
    && (forall j :: 0 <= j < |chain| && (j < k - 1 || j > k + 2) ==> nodes'[chain[j]] == nodes[chain[j]])
  }

  lemma JoinAt(chain: seq<nat>, segs: seq<Segment>, k: nat, x: nat)
    requires |chain| == |segs| && k + 1 < |segs|
    ensures var chain', segs' := Without(chain, k, x), Join(segs, k);
            && |chain'| == |segs'| && k < |chain'| && Replaces(chain, segs, k, k + 2, chain', segs', k + 1)
            && chain'[k] == x && segs'[k] == Segment(segs[k].ptr, segs[k].size + segs[k + 1].size, true)
  {
  }

  lemma JoinDistinct(chain: seq<nat>, k: nat, x: nat)
    requires Distinct(chain) && k + 1 < |chain| && (x == chain[k] || x == chain[k + 1])
    ensures Distinct(Without(chain, k, x))
  {
    var chain' := Without(chain, k, x);
    assert forall j :: 0 <= j < |chain'| ==>
        chain'[j] == (if j < k then chain[j] else if j == k then x else chain[j + 1]);
  }

  lemma JoinStored(nodes: map<nat, Chunk>, nodes': map<nat, Chunk>, head: nat, chain: seq<nat>, segs: seq<Segment>,
                   k: nat, x: nat)
    requires Represents(nodes, head, chain, segs) && k + 1 < |segs| && JoinNodes(nodes, nodes', chain, segs, k, x)
    ensures var chain', segs' := Without(chain, k, x), Join(segs, k);
            Stored(nodes', chain', segs', k) && FirstFree(chain, segs, k) == FirstFree(chain', segs', k) == x
  {
    var chain', segs' := Without(chain, k, x), Join(segs, k);
    assert Stored(nodes, chain, segs, k) && Stored(nodes, chain, segs, k + 1);
    hide Represents, Without, Join, Replaces, IdAt;
    JoinAt(chain, segs, k, x);
    AroundSame(chain, segs, k, k + 2, chain', segs', k + 1);
  }

  lemma JoinRepresents(nodes: map<nat, Chunk>, nodes': map<nat, Chunk>, head: nat, chain: seq<nat>, segs: seq<Segment>,
                       k: nat, x: nat)
    requires Represents(nodes, head, chain, segs) && k + 1 < |segs| && JoinNodes(nodes, nodes', chain, segs, k, x)
    ensures Represents(nodes', head, Without(chain, k, x), Join(segs, k))
  {
    var chain', segs' := Without(chain, k, x), Join(segs, k);
    JoinAt(chain, segs, k, x);
    JoinDistinct(chain, k, x);
    JoinStored(nodes, nodes', head, chain, segs, k, x);
    hide Without, Join, FirstFree, Stored, Represents;
    assert Patched(nodes, nodes', chain, k, k + 2, chain', k + 1);
    hide Patched, Replaces, JoinNodes;
    ReplaceRepresents(nodes, nodes', head, chain, segs, k, k + 2, chain', segs', k + 1);
  }

  // ----- Entering and leaving the free list -----

  /** What changing the state of chunk k does to the store, p being the last free chunk before it. */
  ghost predicate FlipNodes(nodes: map<nat, Chunk>, nodes': map<nat, Chunk>, head: nat, head': nat, chain: seq<nat>,
                            segs: seq<Segment>, k: nat, p: int)
    requires |chain| == |segs| && k < |segs| && -1 <= p < k
  {
    var link := if segs[k].free then FirstFree(chain, segs, k + 1) else chain[k];
    && (forall j :: 0 <= j < |chain| ==> chain[j] in nodes && chain[j] in nodes')
    && nodes'[chain[k]]
         == nodes[chain[k]].(free := !segs[k].free,
             freelink := if segs[k].free then NULL else FirstFree(chain, segs, k + 1))
    && head' == (if p >= 0 then head else link)
    && (p >= 0 ==> nodes'[chain[p]] == nodes[chain[p]].(freelink := link))
    && (forall j :: 0 <= j < |chain| && j != k && j != p ==> nodes'[chain[j]] == nodes[chain[j]])
  }

  /** Flipping the state of chunk k changes the free list only as seen from its predecessor in it. */
  lemma FlipFree(chain: seq<nat>, segs: seq<Segment>, k: nat, p: int, j: nat)
    requires |chain| == |segs| && k < |segs| && LastFreeBefore(segs, p, k)
    ensures var segs' := segs[k := segs[k].(free := !segs[k].free)];
            && (j > k ==> FirstFree(chain, segs', j) == FirstFree(chain, segs, j))
            && (j <= p ==> FirstFree(chain, segs', j) == FirstFree(chain, segs, j))
            && (p < j <= k ==>
                   FirstFree(chain, segs', j) == if segs[k].free then FirstFree(chain, segs, k + 1) else chain[k])
  {
    var segs' := segs[k := segs[k].(free := !segs[k].free)];
    if k < j <= |segs| {
      FreePrefix(chain, segs, chain, segs', j, |segs|);
    } else if j <= p {
      FreeStop(chain, segs, chain, segs', j, p);
    } else if j <= k {
      FreeSkip(chain, segs', j, k);
      FreePrefix(chain, segs, chain, segs', k + 1, |segs|);
    }
  }

  lemma FlipRepresents(nodes: map<nat, Chunk>, nodes': map<nat, Chunk>, head: nat, head': nat, chain: seq<nat>,
                       segs: seq<Segment>, k: nat, p: int)
    requires Represents(nodes, head, chain, segs) && k < |segs| && LastFreeBefore(segs, p, k)
    requires FlipNodes(nodes, nodes', head, head', chain, segs, k, p)
    ensures Represents(nodes', head', chain, segs[k := segs[k].(free := !segs[k].free)])
  {
    var segs' := segs[k := segs[k].(free := !segs[k].free)];
    FlipFree(chain, segs, k, p, 0);
    forall j
      ensures Stored(nodes', chain, segs', j)
    {
      if 0 <= j < |chain| {
        assert Stored(nodes, chain, segs, j);
        FlipFree(chain, segs, k, p, j + 1);
      }
    }
  }

  class Device {
    var nodes: map<nat, Chunk>
    var freeList: nat
    var main: bool
    var brk: nat
    ghost var chain: seq<nat>
    ghost var segs: seq<Segment>

    ghost var base: nat
    ghost var total: nat

    /** Before the first request the device is empty; afterwards its chunks tile the memory that was reserved. */
    ghost predicate Valid()
      reads this
    {
      if main then Linked() && (forall id :: id in nodes ==> id in chain) && (WellFormed(segs, base, total) || Bare())
      else nodes == map[] && freeList == NULL && brk == 1 && chain == [] && segs == []
    }

    /** A device without memory has one empty chunk. */
    ghost predicate Bare()
      reads this
    {
      total == 0 && segs == [Segment(base, 0, true)]
    }

    ghost predicate Linked()
      reads this
    {
      && Represents(nodes, freeList, chain, segs)
      && NULL < brk && (forall id :: id in nodes ==> NULL != id < brk)
    }

    /** The free-list walk: every fitting chunk is a candidate, and the last one wins. */
    method FindLastFit(size: nat) returns (curr: nat, prevFree: nat, ghost k: nat, ghost p: int)
      requires Linked()
      ensures curr == NULL ==> forall i :: 0 <= i < |segs| ==> !Fits(segs[i], size)
      ensures curr != NULL ==> IsLastFit(segs, k, size) && chain[k] == curr && LastFreeBefore(segs, p, k)
      ensures curr != NULL ==> prevFree == IdAt(chain, p)
    {
      var c, before := freeList, NULL;
      curr, prevFree, k, p := NULL, NULL, 0, -1;
      ghost var q := -1;
      ghost var pos := FreeAtPosition(chain, segs, 0);
      while c != NULL
        invariant LastFreeBefore(segs, q, pos) && before == IdAt(chain, q)
        invariant c == IdAt(chain, pos) && (pos < |segs| ==> segs[pos].free)
        invariant curr == NULL ==> forall i :: 0 <= i < pos ==> !Fits(segs[i], size)
        invariant curr != NULL ==> k < pos && Fits(segs[k], size) && chain[k] == curr && LastFreeBefore(segs, p, k)
        invariant curr != NULL ==> prevFree == IdAt(chain, p) && forall i :: k < i < pos ==> !Fits(segs[i], size)
        decreases |segs| - pos
      {
        assert Stored(nodes, chain, segs, pos);
        if nodes[c].size >= size {
          curr, prevFree := c, before;
          k, p := pos, q;
        }
        before := c;
        c := nodes[c].freelink;
        q := pos;
        pos := FreeAtPosition(chain, segs, pos + 1);
      }
    }

    /** Cut chunk c in two; the remainder is linked in behind it. */
    method CutChunk(c: nat, size: nat)
      requires c in nodes && size <= nodes[c].size && NULL !in nodes && brk !in nodes
      requires nodes[c].next != NULL ==> nodes[c].next in nodes && nodes[c].next != c
      modifies this`nodes, this`brk
      ensures nodes == SplitStore(old(nodes), c, size, old(brk)) && brk == old(brk) + 1
    {
      var r := brk;
      brk := brk + 1;
      var currSize := nodes[c].size;
      var next := nodes[c].next;
      nodes := nodes[r := Chunk(currSize - size, true, size + nodes[c].ptr, c, next, NULL)];
      if next != NULL {
        nodes := nodes[next := nodes[next].(prev := r)];
      }
      nodes := nodes[c := nodes[c].(next := r, size := size)];
      nodes := nodes[r := nodes[r].(freelink := nodes[c].freelink)];
      nodes := nodes[c := nodes[c].(freelink := r)];
    }

    /** The free chunk at k is cut in two; both parts stay free. */
    method Split(c: nat, size: nat, ghost k: nat)
      requires Linked() && k < |segs| && chain[k] == c && segs[k].free && size <= segs[k].size && c in nodes
      modifies this`nodes, this`brk, this`chain, this`segs
      ensures Linked() && segs == Cut(old(segs), k, size) && chain == Insert(old(chain), k, old(brk))
      ensures size <= old(nodes[c].size) && nodes == SplitStore(old(nodes), c, size, old(brk)) && brk == old(brk) + 1
    {
      SplitSurgery(nodes, freeList, chain, segs, k, size, brk);
      NeighboursOf(nodes, freeList, chain, segs, k);
      hide FirstFree, Insert, Cut, Represents, SplitNodes;
      CutChunk(c, size);
      SplitRepresents(old(nodes), nodes, freeList, chain, segs, k, size, old(brk));
      chain, segs := Insert(chain, k, old(brk)), Cut(segs, k, size);
    }

    /** Take the free chunk c off the free list. */
    method Unlink(c: nat, prevFree: nat, ghost k: nat, ghost p: int)
      requires Linked() && k < |segs| && chain[k] == c && segs[k].free && c in nodes
      requires LastFreeBefore(segs, p, k) && prevFree == IdAt(chain, p)
      modifies this`nodes, this`freeList, this`segs
      ensures Linked() && segs == old(segs)[k := old(segs)[k].(free := false)]
      ensures nodes.Keys == old(nodes.Keys)
      ensures Handles(nodes) == Handles(old(nodes))[c := (old(segs)[k].ptr, old(segs)[k].size)]
    {
      FreeListAt(nodes, freeList, chain, segs, k, p);
      NeighboursOf(nodes, freeList, chain, segs, k);
      hide Represents, FirstFree;
      if prevFree != NULL {
        nodes := nodes[prevFree := nodes[prevFree].(freelink := nodes[c].freelink)];
      } else {
        freeList := nodes[c].freelink;
      }
      nodes := nodes[c := nodes[c].(free := false, freelink := NULL)];
      FlipRepresents(old(nodes), nodes, old(freeList), freeList, chain, segs, k, p);
      segs := segs[k := segs[k].(free := false)];
    }

    /** Pointers of c going into next. */
    method MergeIntoNext(c: nat, next: nat)
      requires c in nodes && next in nodes && c != next && NULL !in nodes
      requires nodes[c].prev != NULL ==> nodes[c].prev in nodes && nodes[c].prev != next && nodes[c].prev != c
      modifies this`nodes
      ensures nodes == NextStore(old(nodes), c, next)
    {
      nodes := nodes[next := nodes[next].(prev := nodes[c].prev)];
      if nodes[c].prev != NULL {
        nodes := nodes[nodes[c].prev := nodes[nodes[c].prev].(next := next)];
      }
      nodes := nodes[next := nodes[next].(size := nodes[next].size + nodes[c].size)];
      nodes := nodes[next := nodes[next].(ptr := nodes[c].ptr)];
    }

    /** Pointers of c going into prev; prev keeps its place in the free list. */
    method MergeIntoPrev(prev: nat, c: nat)
      requires c in nodes && prev in nodes && c != prev && NULL !in nodes
      requires nodes[c].next != NULL ==> nodes[c].next in nodes && nodes[c].next != prev && nodes[c].next != c
      modifies this`nodes
      ensures nodes == PrevStore(old(nodes), prev, c, old(nodes[prev].freelink))
    {
      nodes := nodes[prev := nodes[prev].(next := nodes[c].next)];
      if nodes[c].next != NULL {
        nodes := nodes[nodes[c].next := nodes[nodes[c].next].(prev := prev)];
      }
      nodes := nodes[prev := nodes[prev].(size := nodes[prev].size + nodes[c].size)];
    }

    /** Pointers of the free chunk next going into prev, which takes its place in the free list. */
    method MergeFree(prev: nat, next: nat)
      requires next in nodes && prev in nodes && next != prev && NULL !in nodes
      requires nodes[next].next != NULL ==>
                  nodes[next].next in nodes && nodes[next].next != prev && nodes[next].next != next
      modifies this`nodes
      ensures nodes == PrevStore(old(nodes), prev, next, old(nodes[next].freelink)) - {next}
    {
      nodes := nodes[prev := nodes[prev].(size := nodes[prev].size + nodes[next].size)];
      nodes := nodes[prev := nodes[prev].(next := nodes[next].next)];
      if nodes[next].next != NULL {
        nodes := nodes[nodes[next].next := nodes[nodes[next].next].(prev := prev)];
      }
      nodes := nodes[prev := nodes[prev].(freelink := nodes[next].freelink)];
      nodes := nodes - {next};
    }

    /** The chunk at k, just released, is absorbed by its free successor. */
    method AbsorbIntoNext(c: nat, next: nat, ghost k: nat)
      requires c in nodes && next in nodes && k + 1 < |segs| == |chain| && chain[k] == c && chain[k + 1] == next
                && NULL !in nodes
      requires Represents(nodes[c := nodes[c].(free := false)], freeList, chain, segs)
      requires !segs[k].free && segs[k + 1].free
      modifies this`nodes, this`chain, this`segs
      ensures Represents(nodes, freeList, chain, segs)
      ensures segs == Join(old(segs), k) && chain == Without(old(chain), k, next)
      ensures nodes == NextStore(old(nodes), c, next)
    {
      ghost var was := nodes[c := nodes[c].(free := false)];
      NeighboursOf(was, freeList, chain, segs, k);
      NextSurgery(nodes, freeList, chain, segs, k);
      hide FirstFree, Join, Without, Represents, JoinNodes, NextStore;
      assert c != next;
      MergeIntoNext(c, next);
      JoinRepresents(was, nodes, freeList, chain, segs, k, next);
      chain, segs := Without(chain, k, next), Join(segs, k);
    }

    /** The chunk at k + 1, just released, is absorbed by its free predecessor. */
    method AbsorbIntoPrev(prev: nat, c: nat, ghost k: nat)
      requires c in nodes && prev in nodes && k + 1 < |segs| == |chain| && chain[k] == prev && chain[k + 1] == c
                && NULL !in nodes
      requires Represents(nodes[c := nodes[c].(free := false)], freeList, chain, segs)
      requires segs[k].free && !segs[k + 1].free
      modifies this`nodes, this`chain, this`segs
      ensures Represents(nodes, freeList, chain, segs)
      ensures segs == Join(old(segs), k) && chain == Without(old(chain), k, prev)
      ensures nodes == PrevStore(old(nodes), prev, c, old(nodes[prev].freelink))
    {
      ghost var was := nodes[c := nodes[c].(free := false)];
      NeighboursOf(was, freeList, chain, segs, k + 1);
      PrevSurgery(nodes, freeList, chain, segs, k, nodes[prev].freelink, was[c]);
      hide FirstFree, Join, Without, Represents, JoinNodes, PrevStore;
      MergeIntoPrev(prev, c);
      JoinRepresents(was, nodes, freeList, chain, segs, k, prev);
      chain, segs := Without(chain, k, prev), Join(segs, k);
    }

    /** The free chunks at k and k + 1 become one. */
    method JoinFree(prev: nat, next: nat, ghost k: nat)
      requires prev in nodes && next in nodes && k + 1 < |segs| == |chain| && chain[k] == prev
                && chain[k + 1] == next && NULL !in nodes
      requires Represents(nodes, freeList, chain, segs) && segs[k].free && segs[k + 1].free
      modifies this`nodes, this`chain, this`segs
      ensures Represents(nodes, freeList, chain, segs)
      ensures segs == Join(old(segs), k) && chain == Without(old(chain), k, prev)
      ensures nodes == PrevStore(old(nodes), prev, next, old(nodes[next].freelink)) - {next}
    {
      NeighboursOf(nodes, freeList, chain, segs, k + 1);
      assert nodes == nodes[next := nodes[next]];
      PrevSurgery(nodes, freeList, chain, segs, k, nodes[next].freelink, nodes[next]);
      ghost var joined := PrevStore(nodes, prev, next, nodes[next].freelink);
      Absent(chain, k, prev, next);
      hide FirstFree, Join, Without, Represents, JoinNodes, PrevStore;
      MergeFree(prev, next);
      JoinRepresents(old(nodes), joined, freeList, chain, segs, k, prev);
      chain, segs := Without(chain, k, prev), Join(segs, k);
      Discard(joined, freeList, chain, segs, next);
    }

    /** Walk back from chunk c to the last free chunk before it. */
    method FindFreeBefore(c: nat, ghost k: nat) returns (prev: nat, ghost p: int)
      requires c in nodes && k < |segs| == |chain| && chain[k] == c
      requires Represents(nodes[c := nodes[c].(free := false)], freeList, chain, segs)
      ensures LastFreeBefore(segs, p, k) && prev == IdAt(chain, p)
    {
      ghost var was := nodes[c := nodes[c].(free := false)];
      NeighboursOf(was, freeList, chain, segs, k);
      prev := nodes[c].prev;
      p := k - 1;
      while prev != NULL && !nodes[prev].free
        invariant -1 <= p < k && prev == IdAt(chain, p) && (p >= 0 ==> prev in nodes)
        invariant forall i :: p < i < k ==> !segs[i].free
        decreases p
      {
        NeighboursOf(was, freeList, chain, segs, p);
        prev := nodes[prev].prev;
        p := p - 1;
      }
      if p >= 0 {
        NeighboursOf(was, freeList, chain, segs, p);
      }
    }

    /** The chunk at k, just released, enters the free list behind the last free chunk before it. */
    method InsertFree(c: nat, ghost k: nat)
      requires c in nodes && k < |segs| == |chain| && chain[k] == c && nodes[c].free
      requires Represents(nodes[c := nodes[c].(free := false)], freeList, chain, segs) && !segs[k].free
      modifies this`nodes, this`freeList, this`segs
      ensures Represents(nodes, freeList, chain, segs) && segs == old(segs)[k := old(segs)[k].(free := true)]
      ensures nodes.Keys == old(nodes.Keys) && Handles(nodes) == Handles(old(nodes))
    {
      ghost var was := nodes[c := nodes[c].(free := false)];
      var prev: nat;
      ghost var p: int;
      prev, p := FindFreeBefore(c, k);
      FreeListAt(was, freeList, chain, segs, k, p);
      hide Represents, FirstFree, Handles;
      if prev == NULL {
        nodes := nodes[c := nodes[c].(freelink := freeList)];
        freeList := c;
      } else {
        nodes := nodes[c := nodes[c].(freelink := nodes[prev].freelink)];
        nodes := nodes[prev := nodes[prev].(freelink := c)];
      }
      FlipRepresents(was, nodes, old(freeList), freeList, chain, segs, k, p);
      segs := segs[k := segs[k].(free := true)];
      SameHandles(old(nodes), nodes);
    }

    constructor ()
      ensures Valid() && !main
    {
      nodes, freeList, main, brk := map[], NULL, false, 1;
      chain, segs, base, total := [], [], 0, 0;
    }

    /**
     The first request reserves the memory of the device as one free chunk. start is what the
     driver returned for it, NULL when it has no memory to give: the process then ends.
     */
    method Reserve(limit: nat, start: nat) returns (ok: bool)
      requires Valid() && !main
      modifies this
      ensures Valid() && (ok <==> start != NULL) && (main <==> ok) && Handles(nodes) == map[]
      ensures segs == if ok then [Segment(start, limit / 8 * 8, true)] else []
      ensures ok ==> base == start && total == limit / 8 * 8
    {
      ok := start != NULL;
      if !ok {
        return;
      }
      var c := brk;
      brk := brk + 1;
      nodes := map[c := Chunk(limit / 8 * 8, true, start, NULL, NULL, NULL)];
      freeList, main := c, true;
      chain, segs, base, total := [c], [Segment(start, limit / 8 * 8, true)], start, limit / 8 * 8;
      assert forall k :: Stored(nodes, chain, segs, k);
    }

    /** The free chunk at k is cut down to size when the remainder is worth it. */
    method CutDown(c: nat, size: nat, ghost k: nat, ghost p: int)
      requires Linked() && (forall id :: id in nodes ==> id in chain)
      requires k < |segs| && chain[k] == c && Fits(segs[k], size) && LastFreeBefore(segs, p, k)
      modifies this`nodes, this`brk, this`chain, this`segs
      ensures Linked() && (forall id :: id in nodes ==> id in chain) && Handles(nodes) == Handles(old(nodes))
      ensures k < |segs| && chain[k] == c && c in nodes && segs[k].free
      ensures LastFreeBefore(segs, p, k) && IdAt(chain, p) == old(IdAt(chain, p))
      ensures segs[k := segs[k].(free := false)] == Take(old(segs), k, size, Splits(old(segs)[k], size))
    {
      NeighboursOf(nodes, freeList, chain, segs, k);
      assert |chain| == |segs|;
      hide Represents, Handles, LastFreeBefore;
      if 2 * (nodes[c].size - size) >= size {
        InsertMember(chain, k, brk);
        CutTake(segs, k, size, p);
        CutHandles(nodes, c, size, brk);
        hide Insert, Cut, SplitStore, Take, IdAt;
        Split(c, size, k);
        NeighboursOf(nodes, freeList, chain, segs, k);
      }
    }

    /** Hand out the free chunk at k. */
    method TakeChunk(c: nat, prevFree: nat, size: nat, ghost k: nat, ghost p: int)
      requires Valid() && main && k < |segs| && chain[k] == c && Fits(segs[k], size) && size > 0
      requires LastFreeBefore(segs, p, k) && prevFree == IdAt(chain, p)
      modifies this`nodes, this`freeList, this`brk, this`chain, this`segs
      ensures Valid() && segs == Take(old(segs), k, size, Splits(old(segs)[k], size))
      ensures Handles(nodes) == Handles(old(nodes))[c := (segs[k].ptr, segs[k].size)]
      ensures c in nodes && c in old(nodes) && old(nodes)[c].free && nodes[c].ptr == segs[k].ptr
    {
      NeighboursOf(nodes, freeList, chain, segs, k);
      TakeKeeps(segs, k, size, Splits(segs[k], size), base, total);
      hide Represents, WellFormed, Handles, LastFreeBefore, Take;
      CutDown(c, size, k, p);
      Unlink(c, prevFree, k, p);
      NeighboursOf(nodes, freeList, chain, segs, k);
    }

    /** kaapi_memory_alloc: NULL, or the last free chunk that fits, cut down to the request when it is much larger. */
    method Alloc(request: nat, limit: nat, start: nat) returns (ok: bool, c: nat, ptr: nat, ghost k: nat)
      requires Valid()
      modifies this
      ensures Valid() && (main <==> ok) && (ok <==> old(main) || start != NULL)
      ensures ok ==>
                if old(main) then base == old(base) && total == old(total)
                else base == start && total == limit / 8 * 8
      ensures var size, was := Rounded(request), if old(main) then old(segs) else [Segment(start, limit / 8 * 8, true)];
              if !ok then segs == [] && Handles(nodes) == map[]
              else if c == NULL then
                && (forall i :: 0 <= i < |was| && was[i].free ==> was[i].size < size)
                && segs == was && Handles(nodes) == Handles(old(nodes))
              else
                && IsLastFit(was, k, size) && segs == Take(was, k, size, Splits(was[k], size)) && ptr == was[k].ptr
                && was[k].free && (forall i :: k < i < |was| && was[i].free ==> was[i].size < size)
                && size <= segs[k].size && 2 * segs[k].size < 3 * size
                && segs[k].size == (if 2 * (was[k].size - size) >= size then size else was[k].size)
                && c !in Handles(old(nodes)) && Handles(nodes) == Handles(old(nodes))[c := (ptr, segs[k].size)]
    {
      var size := (request + 7) % WORD / 8 * 8;
      if size < CHUNK_BYTES {
        size := CHUNK_BYTES;
      }
      hide Represents, WellFormed, LastFreeBefore;
      ok := true;
      if freeList == NULL && !main {
        ok := Reserve(limit, start);
        assert Handles(old(nodes)) == map[];
        if !ok {
          return false, NULL, 0, 0;
        }
      }
      var prevFree: nat;
      ghost var p: int;
      c, prevFree, k, p := FindLastFit(size);
      ptr := 0;
      if c != NULL {
        TakeChunk(c, prevFree, size, k, p);
        ptr := nodes[c].ptr;
      }
    }

    /** The store holds the chain and, besides, the record of a chunk that is on its way out. */
    ghost predicate Leaving(c: nat)
      reads this
    {
      && Represents(nodes, freeList, chain, segs) && main && c in nodes && nodes[c].free && c !in chain
      && NULL < brk && (forall id :: id in nodes ==> NULL != id < brk && (id in chain || id == c))
    }

    /** The record of c is released; nothing else changes. */
    method Dispose(c: nat)
      requires Leaving(c) && WellFormed(segs, base, total)
      modifies this`nodes
      ensures Valid() && Handles(nodes) == Handles(old(nodes))
    {
      Discard(nodes, freeList, chain, segs, c);
      nodes := nodes - {c};
    }

    /** The end of a free whose chunk, at k, went into its successor next. */
    method FinishMerged(c: nat, next: nat, ghost k: nat)
      requires Leaving(c) && k < |segs| && chain[k] == next && segs[k].free && nodes[c].prev == IdAt(chain, k - 1)
      requires WellFormed(JoinPrev(segs, k), base, total)
      modifies this`nodes, this`chain, this`segs
      ensures Valid() && main && Handles(nodes) == Handles(old(nodes)) && segs == JoinPrev(old(segs), k)
    {
      assert !FreeAt(segs, k - 1) ==> JoinPrev(segs, k) == segs;
      NeighboursOf(nodes, freeList, chain, segs, k);
      var prev := nodes[c].prev;
      if prev != NULL {
        NeighboursOf(nodes, freeList, chain, segs, k - 1);
        if nodes[prev].free {
          JoinMember(chain, k - 1, prev, next);
          PrevHandles(nodes, prev, next, nodes[next].freelink);
          hide Represents, WellFormed, Handles, PrevStore;
          JoinFree(prev, next, k - 1);
        }
      }
      Dispose(c);
    }

    /** The chunk at k has been marked free and nothing else has been done. */
    ghost predicate Released(c: nat, k: nat)
      reads this
    {
      && main && k < |segs| == |chain| && chain[k] == c && c in nodes && nodes[c].free && !segs[k].free
      && Represents(nodes[c := nodes[c].(free := false)], freeList, chain, segs)
      && NULL < brk && (forall id :: id in nodes ==> NULL != id < brk && id in chain)
      && WellFormed(Give(segs, k), base, total)
    }

    /** The chunk at k goes into its free successor and leaves the chain. */
    method LeaveForward(c: nat, next: nat, ghost k: nat)
      requires Released(c, k) && FreeAt(segs, k + 1) && next == IdAt(chain, k + 1) && next in nodes && nodes[next].free
      modifies this`nodes, this`chain, this`segs
      ensures Leaving(c) && segs == Join(old(segs), k) && k < |segs| && chain[k] == next && segs[k].free
      ensures nodes[c].prev == IdAt(chain, k - 1) && Handles(nodes) == Handles(old(nodes))
    {
      NeighboursOf(nodes[c := nodes[c].(free := false)], freeList, chain, segs, k);
      assert Distinct(chain);
      hide Represents, WellFormed, Handles, Give, Join;
      NextHandles(nodes, c, next);
      JoinMember(chain, k, next, c);
      NextAt(chain, segs, k, next);
      hide NextStore, Without, FreeAt, Distinct, IdAt;
      AbsorbIntoNext(c, next, k);
    }

    /** The chunk at k goes into its free predecessor and leaves the chain. */
    method LeaveBackward(prev: nat, c: nat, ghost k: nat)
      requires Released(c, k) && FreeAt(segs, k - 1) && prev == IdAt(chain, k - 1) && prev in nodes && nodes[prev].free
      modifies this`nodes, this`chain, this`segs
      ensures Leaving(c) && segs == Join(old(segs), k - 1) && Handles(nodes) == Handles(old(nodes))
    {
      hide Represents, WellFormed, Handles, Give, Join, PrevStore, Without, Distinct;
      NeighboursOf(nodes[c := nodes[c].(free := false)], freeList, chain, segs, k);
      ChainDistinct(nodes[c := nodes[c].(free := false)], freeList, chain, segs);
      PrevHandles(nodes, prev, c, nodes[prev].freelink);
      JoinMember(chain, k - 1, prev, c);
      AbsorbIntoPrev(prev, c, k - 1);
    }

    /** The chunk at k has a free successor. */
    method FreeWithNext(c: nat, next: nat, ghost k: nat)
      requires Released(c, k) && FreeAt(segs, k + 1) && next == IdAt(chain, k + 1) && next in nodes && nodes[next].free
      modifies this`nodes, this`chain, this`segs
      ensures Valid() && main && Handles(nodes) == Handles(old(nodes)) && segs == Give(old(segs), k)
    {
      GiveJoin(segs, k);
      hide Represents, WellFormed, Handles, Give, Join, JoinPrev;
      LeaveForward(c, next, k);
      FinishMerged(c, next, k);
    }

    /** The chunk at k has no free successor. */
    method FreeWithoutNext(c: nat, ghost k: nat)
      requires Released(c, k) && !FreeAt(segs, k + 1)
      modifies this`nodes, this`freeList, this`chain, this`segs
      ensures Valid() && main && Handles(nodes) == Handles(old(nodes)) && segs == Give(old(segs), k)
    {
      GiveJoin(segs, k);
      NeighboursOf(nodes[c := nodes[c].(free := false)], freeList, chain, segs, k);
      if k > 0 {
        NeighboursOf(nodes[c := nodes[c].(free := false)], freeList, chain, segs, k - 1);
      }
      assert |chain| == |segs|;
      hide Represents, WellFormed, Handles, Give, Join, Distinct;
      var prev := nodes[c].prev;
      if prev != NULL && nodes[prev].free {
        LeaveBackward(prev, c, k);
        Dispose(c);
      } else {
        InsertFree(c, k);
      }
    }

    /** Where a live chunk stands in the chain. */
    lemma LivePlace(c: nat) returns (k: nat)
      requires Valid() && c in Handles(nodes)
      ensures main && k < |chain| == |segs| && chain[k] == c && c in nodes && !nodes[c].free && !segs[k].free
      ensures Represents(nodes, freeList, chain, segs) && WellFormed(segs, base, total)
    {
      assert |chain| == |segs|;
      k :| 0 <= k < |chain| && chain[k] == c;
      hide Represents;
      NeighboursOf(nodes, freeList, chain, segs, k);
    }

    method MarkFree(c: nat) returns (ghost k: nat)
      requires Valid() && c in Handles(nodes)
      modifies this`nodes
      ensures Released(c, k) && Handles(nodes) == Handles(old(nodes)) - {c}
      ensures nodes[c].next == IdAt(chain, k + 1) && (nodes[c].next != NULL ==> nodes[c].next in nodes)
      ensures FreeAt(segs, k + 1) <==> nodes[c].next != NULL && nodes[nodes[c].next].free
    {
      hide Represents, WellFormed, Handles, Give, Distinct;
      k := LivePlace(c);
      NeighboursOf(nodes, freeList, chain, segs, k);
      if k + 1 < |chain| {
        NeighboursOf(nodes, freeList, chain, segs, k + 1);
      }
      GiveKeeps(segs, k, base, total);
      MarkHandles(nodes, c);
      nodes := nodes[c := nodes[c].(free := true)];
    }

    /** kaapi_memory_free: the chunk becomes free and merges with its free neighbours; NULL is ignored. */
    method Free(c: nat) returns (ghost k: nat)
      requires Valid() && (c != NULL ==> c in Handles(nodes))
      modifies this`nodes, this`freeList, this`chain, this`segs
      ensures Valid()
      ensures c == NULL ==> nodes == old(nodes) && segs == old(segs)
      ensures c != NULL ==> k < |old(chain)| == |old(segs)| && old(chain)[k] == c && segs == Give(old(segs), k)
      ensures Handles(nodes) == Handles(old(nodes)) - {c}
    {
      k := 0;
      if c == NULL {
        assert NULL !in Handles(nodes);
        return;
      }
      hide Represents, WellFormed, Handles, Give, FreeAt;
      k := MarkFree(c);
      var next := nodes[c].next;
      if next != NULL && nodes[next].free {
        FreeWithNext(c, next, k);
      } else {
        FreeWithoutNext(c, k);
      }
    }
  }

  /** Where the free list points just before position k. */
  lemma FreeListAt(m: Store, head: nat, chain: seq<nat>, segs: seq<Segment>, k: nat, p: int)
    requires Represents(m, head, chain, segs) && k < |segs| && LastFreeBefore(segs, p, k)
    ensures forall j :: 0 <= j < |chain| ==>
                chain[j] in m && (j != k ==> chain[j] != chain[k]) && (j != p >= 0 ==> chain[j] != chain[p])
    ensures (if p >= 0 then m[chain[p]].freelink else head) == FirstFree(chain, segs, k)
    ensures m[chain[k]].freelink == if segs[k].free then FirstFree(chain, segs, k + 1) else NULL
    ensures forall j :: 0 <= j < |chain| ==> chain[j] != NULL
  {
    AllStored(m, head, chain, segs);
    assert Stored(m, chain, segs, k) && Stored(m, chain, segs, p);
    FreeSkip(chain, segs, p + 1, k);
  }

  lemma SameHandles(m: Store, m': Store)
    requires m.Keys == m'.Keys
    requires forall id :: id in m ==> m'[id].ptr == m[id].ptr && m'[id].size == m[id].size && m'[id].free == m[id].free
    ensures Handles(m) == Handles(m')
  {
  }

  lemma PrevSurgery(m: Store, head: nat, chain: seq<nat>, segs: seq<Segment>, k: nat, link: nat, live: Chunk)
    requires k + 1 < |chain| == |segs| && chain[k] in m && chain[k + 1] in m && segs[k].free
    requires live == m[chain[k + 1]].(free := segs[k + 1].free)
    requires Represents(m[chain[k + 1] := live], head, chain, segs)
    requires link == (if segs[k + 1].free then m[chain[k + 1]].freelink else m[chain[k]].freelink)
    ensures chain[k] != chain[k + 1]
    ensures JoinNodes(m[chain[k + 1] := live], PrevStore(m, chain[k], chain[k + 1], link), chain, segs, k, chain[k])
  {
    var was := m[chain[k + 1] := live];
    AllStored(was, head, chain, segs);
    assert Stored(was, chain, segs, k) && Stored(was, chain, segs, k + 1) && Stored(was, chain, segs, k - 1);
    hide FirstFree, Represents, Stored;
  }

  lemma NextSurgery(m: Store, head: nat, chain: seq<nat>, segs: seq<Segment>, k: nat)
    requires k + 1 < |chain| == |segs| && chain[k] in m && chain[k + 1] in m && !segs[k].free && segs[k + 1].free
    requires Represents(m[chain[k] := m[chain[k]].(free := false)], head, chain, segs)
    ensures chain[k] != chain[k + 1]
    ensures JoinNodes(m[chain[k] := m[chain[k]].(free := false)], NextStore(m, chain[k], chain[k + 1]),
              chain, segs, k, chain[k + 1])
  {
    var was := m[chain[k] := m[chain[k]].(free := false)];
    AllStored(was, head, chain, segs);
    assert Stored(was, chain, segs, k) && Stored(was, chain, segs, k + 1) && Stored(was, chain, segs, k + 2);
    hide FirstFree, Represents, Stored;
  }

  lemma Absent(chain: seq<nat>, k: nat, x: nat, y: nat)
    requires Distinct(chain) && k + 1 < |chain| && {x, y} == {chain[k], chain[k + 1]}
    ensures y !in Without(chain, k, x)
  {
    assert x != y;
    var chain' := Without(chain, k, x);
    assert forall j :: 0 <= j < |chain'| ==>
        chain'[j] == (if j < k then chain[j] else if j == k then x else chain[j + 1]);
  }

  /** A record outside the chain may be freed. */
  lemma Discard(nodes: map<nat, Chunk>, head: nat, chain: seq<nat>, segs: seq<Segment>, id: nat)
    requires Represents(nodes, head, chain, segs) && id !in chain
    ensures Represents(nodes - {id}, head, chain, segs)
  {
    forall j
      ensures Stored(nodes - {id}, chain, segs, j)
    {
      assert Stored(nodes, chain, segs, j);
    }
  }

  // ----- The operations on segments -----

  /** A cut that is then taken is a split take; the free chunk before it is not affected. */
  lemma CutTake(segs: seq<Segment>, k: nat, size: nat, p: int)
    requires k < |segs| && size <= segs[k].size && LastFreeBefore(segs, p, k)
    ensures var cut := Cut(segs, k, size);
            |cut| == |segs| + 1 && cut[k].free && LastFreeBefore(cut, p, k)
            && cut[k := cut[k].(free := false)] == Take(segs, k, size, true)
  {
  }

  /** A cut leaves the live chunks alone. */
  lemma CutHandles(m: Store, c: nat, size: nat, r: nat)
    requires c in m && m[c].free && size <= m[c].size && r !in m
    ensures Handles(SplitStore(m, c, size, r)) == Handles(m)
    ensures SplitStore(m, c, size, r).Keys == m.Keys + {r}
  {
  }

  lemma InsertMember(chain: seq<nat>, k: nat, r: nat)
    requires k < |chain|
    ensures r in Insert(chain, k, r) && (forall x :: x in chain ==> x in Insert(chain, k, r))
    ensures Insert(chain, k, r)[k] == chain[k] && forall j :: j < k ==> IdAt(Insert(chain, k, r), j) == IdAt(chain, j)
  {
    assert chain == chain[..k + 1] + chain[k + 1..];
    assert Insert(chain, k, r)[k + 1] == r;
  }

  /** Joining under the name x drops y from the chain, and nothing else. */
  lemma JoinMember(chain: seq<nat>, k: nat, x: nat, y: nat)
    requires Distinct(chain) && k + 1 < |chain| && {x, y} == {chain[k], chain[k + 1]}
    ensures y !in Without(chain, k, x) && forall id :: id in chain && id != y ==> id in Without(chain, k, x)
    ensures forall id :: id in Without(chain, k, x) ==> id in chain
  {
    Absent(chain, k, x, y);
    assert chain == chain[..k] + [chain[k], chain[k + 1]] + chain[k + 2..];
  }

  lemma PrevHandles(m: Store, prev: nat, c: nat, link: nat)
    requires c in m && prev in m && c != prev && m[c].free && m[prev].free
    ensures var m' := PrevStore(m, prev, c, link);
            && m'.Keys == m.Keys && Handles(m') == Handles(m) && Handles(m' - {c}) == Handles(m)
            && (m[c].next != c ==> m'[c] == m[c])
            && (forall id :: id in m && id != prev && id != m[c].next ==> m'[id] == m[id])
            && (forall id :: id in m ==> m'[id].free == m[id].free)
  {
  }

  lemma NextHandles(m: Store, c: nat, next: nat)
    requires c in m && next in m && c != next && m[c].free && m[next].free && m[c].prev != c && m[c].prev != next
    ensures var m' := NextStore(m, c, next);
            m'.Keys == m.Keys && Handles(m') == Handles(m) && m'[c] == m[c]
  {
  }

  lemma NextAt(chain: seq<nat>, segs: seq<Segment>, k: nat, x: nat)
    requires |chain| == |segs| && k + 1 < |segs|
    ensures var chain', segs' := Without(chain, k, x), Join(segs, k);
            && |chain'| == |segs'| && k < |segs'| && chain'[k] == x && segs'[k].free
            && IdAt(chain', k - 1) == IdAt(chain, k - 1) && FreeAt(segs', k - 1) == FreeAt(segs, k - 1)
  {
  }

  lemma MarkHandles(m: Store, c: nat)
    requires c in m && !m[c].free
    ensures var m' := m[c := m[c].(free := true)];
            m'[c := m'[c].(free := false)] == m && Handles(m') == Handles(m) - {c}
  {
  }

  // ----- What callers rely on -----

  /** Two live chunks never overlap, and both lie inside the reserved memory. */
  lemma LiveDisjoint(d: Device, c: nat, c': nat)
    requires d.Valid() && c in Handles(d.nodes) && c' in Handles(d.nodes) && c != c'
    ensures var ((p, n), (q, m)) := (Handles(d.nodes)[c], Handles(d.nodes)[c']);
            && (p + n <= q || q + m <= p)
            && d.base <= p && p + n <= d.base + d.total && n > 0
  {
    var i :| 0 <= i < |d.chain| && d.chain[i] == c;
    var j :| 0 <= j < |d.chain| && d.chain[j] == c';
    NeighboursOf(d.nodes, d.freeList, d.chain, d.segs, i);
    NeighboursOf(d.nodes, d.freeList, d.chain, d.segs, j);
    hide Represents;
    if i < j {
      InOrder(d.segs, d.base, d.total, i, j);
    } else {
      InOrder(d.segs, d.base, d.total, j, i);
    }
    Inside(d.segs, d.base, d.total, i);
  }

  lemma Inside(segs: seq<Segment>, base: nat, total: nat, i: nat)
    requires WellFormed(segs, base, total) && i < |segs|
    ensures base <= segs[i].ptr && segs[i].ptr + segs[i].size <= base + total
  {
    if i > 0 {
      InOrder(segs, base, total, 0, i);
    }
    if i < |segs| - 1 {
      InOrder(segs, base, total, i, |segs| - 1);
    }
  }

  /** When no chunk is live, one free chunk spans the reserved memory again. */
  lemma AllReturned(d: Device)
    requires d.Valid() && d.main && Handles(d.nodes) == map[]
    ensures d.segs == [Segment(d.base, d.total, true)] && d.freeList in d.nodes
    ensures d.nodes[d.freeList] == Chunk(d.total, true, d.base, NULL, NULL, NULL) && d.nodes.Keys == {d.freeList}
  {
    forall k | 0 <= k < |d.segs|
      ensures d.segs[k].free
    {
      NeighboursOf(d.nodes, d.freeList, d.chain, d.segs, k);
      assert d.chain[k] !in Handles(d.nodes);
    }
    assert Live(d.segs) == {};
    if !d.Bare() {
      NothingLive(d.segs, d.base, d.total);
    }
    NeighboursOf(d.nodes, d.freeList, d.chain, d.segs, 0);
  }

  /** A request is rounded up to a multiple of 8 and covered, unless rounding it wraps around. */
  lemma RoundedCovers(request: nat)
    requires request < 0x1_0000_0000_0000_0000
    ensures Rounded(request) % 8 == 0 && Rounded(request) >= 48
    ensures Rounded(request) >= request <==> request <= 0xFFFF_FFFF_FFFF_FFF8
    ensures 48 <= request <= 0xFFFF_FFFF_FFFF_FFF8 ==> Rounded(request) < request + 8
    ensures request < 48 || request > 0xFFFF_FFFF_FFFF_FFF8 ==> Rounded(request) == 48
  {
  }
}
