/** The records behind the hash map: chains of entries that live in blocks, and lists of blocks. */
module HashChains {
  import opened Machine

  const BLOC_ENTRIES: nat := 2048

  datatype Ref = Nowhere | At(bloc: nat, slot: nat)
  datatype Words = Words(first: nat, second: nat)
  datatype Entry = Entry(key: nat, u: Words, next: Ref)
  datatype Bloc = Bloc(data: seq<Entry>, pos: nat, next: nat)
  type Memory = map<nat, Bloc>

  function Deref(m: Memory, r: Ref): Entry {
    if r.At? && r.bloc in m && r.slot < |m[r.bloc].data| then m[r.bloc].data[r.slot] else Entry(0, Words(0, 0), Nowhere)
  }

  /** r is a slot that has been handed out. */
  predicate InUse(m: Memory, r: Ref) {
    r.At? && r.bloc in m && r.slot < m[r.bloc].pos <= |m[r.bloc].data|
  }

  // ----- Chains, oldest entry first -----

  function Last(chain: seq<Ref>): Ref { if chain == [] then Nowhere else chain[|chain| - 1] }

  predicate ChainAt(m: Memory, chain: seq<Ref>, k: int) {
    0 <= k < |chain| ==> InUse(m, chain[k]) && Deref(m, chain[k]).next == Last(chain[..k])
  }

  ghost predicate Chain(m: Memory, chain: seq<Ref>) { forall k :: ChainAt(m, chain, k) }

  /** The newest entry with a key. */
  function Lookup(m: Memory, chain: seq<Ref>, key: nat): Ref {
    if chain == [] then Nowhere
    else if Deref(m, Last(chain)).key == key then Last(chain)
    else Lookup(m, chain[..|chain| - 1], key)
  }

  /** The entries of a chain are what they were. */
  ghost predicate Same(m: Memory, m': Memory, chain: seq<Ref>) {
    forall r :: r in chain && InUse(m, r) ==> InUse(m', r) && Deref(m', r) == Deref(m, r)
  }

  lemma SameChain(m: Memory, m': Memory, chain: seq<Ref>)
    requires Chain(m, chain) && Same(m, m', chain)
    ensures Chain(m', chain)
  {
    forall k
      ensures ChainAt(m', chain, k)
    {
      assert ChainAt(m, chain, k);
    }
  }

  lemma {:induction false} SameLookup(m: Memory, m': Memory, chain: seq<Ref>, key: nat)
    requires forall r :: r in chain ==> Deref(m', r).key == Deref(m, r).key
    ensures Lookup(m', chain, key) == Lookup(m, chain, key)
  {
    if chain != [] {
      SameLookup(m, m', chain[..|chain| - 1], key);
    }
  }

  lemma ChainInUse(m: Memory, chain: seq<Ref>, r: Ref)
    requires Chain(m, chain) && r in chain
    ensures InUse(m, r)
  {
    var k :| 0 <= k < |chain| && chain[k] == r;
    assert ChainAt(m, chain, k);
  }

  lemma {:induction false} LookupFinds(m: Memory, chain: seq<Ref>, key: nat)
    ensures var r := Lookup(m, chain, key);
            && (r != Nowhere && Chain(m, chain) ==> r in chain && Deref(m, r).key == key)
            && (r == Nowhere && Chain(m, chain) ==> forall x :: x in chain ==> Deref(m, x).key != key)
  {
    if chain != [] && Chain(m, chain) {
      var front := chain[..|chain| - 1];
      assert Chain(m, front) by {
        forall k
          ensures ChainAt(m, front, k)
        {
          assert ChainAt(m, chain, k);
          if 0 <= k < |front| { assert front[..k] == chain[..k]; }
        }
      }
      LookupFinds(m, front, key);
      assert ChainAt(m, chain, |chain| - 1);
      assert chain == front + [Last(chain)];
    }
  }

  lemma ChainGrows(m: Memory, chain: seq<Ref>, r: Ref)
    requires Chain(m, chain) && InUse(m, r) && Deref(m, r).next == Last(chain)
    ensures Chain(m, chain + [r])
  {
    var chain' := chain + [r];
    forall k
      ensures ChainAt(m, chain', k)
    {
      assert ChainAt(m, chain, k);
      if 0 <= k < |chain'| { assert chain'[..k] == chain[..k]; }
    }
  }

  lemma LookupGrows(m: Memory, chain: seq<Ref>, r: Ref, key: nat)
    ensures Lookup(m, chain + [r], key) == if Deref(m, r).key == key then r else Lookup(m, chain, key)
  {
    assert (chain + [r])[..|chain|] == chain;
  }

  // ----- Buckets -----

  function Index(hash: nat -> nat, size: nat, key: nat): nat
    requires size > 0
  {
    hash(key) % size
  }

  /** Every bucket heads the chain of the entries whose keys fall there, none in a free block. */
  ghost predicate Buckets(m: Memory, entries: seq<Ref>, chains: seq<seq<Ref>>, hash: nat -> nat, free: seq<nat>) {
    && 0 < |entries| == |chains|
    && (forall b :: 0 <= b < |chains| ==> Chain(m, chains[b]) && entries[b] == Last(chains[b]))
    && (forall b, r :: 0 <= b < |chains| && r in chains[b] ==> Stored(m, r, hash, |chains|, b, free))
  }

  predicate Stored(m: Memory, r: Ref, hash: nat -> nat, size: nat, b: nat, free: seq<nat>)
    requires size > 0
  {
    r.At? && r.bloc !in free && Index(hash, size, Deref(m, r).key) == b
  }

  /** What the chains hold, as a map: the newest entry of each key. */
  ghost predicate Holds(m: Memory, chains: seq<seq<Ref>>, hash: nat -> nat, contents: map<nat, Words>)
    requires |chains| > 0
  {
    forall key :: HoldsKey(m, chains[Index(hash, |chains|, key)], contents, key)
  }

  predicate HoldsKey(m: Memory, chain: seq<Ref>, contents: map<nat, Words>, key: nat) {
    var r := Lookup(m, chain, key);
    (key in contents <==> r != Nowhere) && (key in contents ==> contents[key] == Deref(m, r).u)
  }

  // ----- Lists of blocks -----

  predicate BlocAt(m: Memory, list: seq<nat>, k: int) {
    0 <= k < |list| ==> list[k] in m && m[list[k]].next == IdAt(list, k + 1)
  }

  ghost predicate BlocList(m: Memory, head: nat, list: seq<nat>) {
    && head == IdAt(list, 0)
    && (forall k :: 0 <= k < |list| ==> list[k] != NULL)
    && (forall i, j :: 0 <= i < j < |list| ==> list[i] != list[j])
    && (forall k :: BlocAt(m, list, k))
  }

  /**
   The blocks: those on the free list, those on the list of allocated ones, and those
   on neither. One of the two lists is empty.
   */
  ghost predicate Pool(m: Memory, freebloc: nat, allbloc: nat, free: seq<nat>, all: seq<nat>, apart: set<nat>) {
    && BlocList(m, freebloc, free) && BlocList(m, allbloc, all)
    && (free == [] || all == [])
    && m.Keys == (set b | b in free) + (set b | b in all) + apart
    && (forall b :: b in apart ==> b !in free && b !in all && b != NULL)
    && (forall b :: b in m ==> |m[b].data| == BLOC_ENTRIES)
  }

  lemma BlocsSame(m: Memory, m': Memory, head: nat, list: seq<nat>)
    requires BlocList(m, head, list) && forall b :: b in list && b in m ==> b in m' && m'[b].next == m[b].next
    ensures BlocList(m', head, list)
  {
    forall k
      ensures BlocAt(m', list, k)
    {
      assert BlocAt(m, list, k);
    }
  }

  /** A change inside a block keeps the lists. */
  lemma PoolSame(m: Memory, freebloc: nat, allbloc: nat, free: seq<nat>, all: seq<nat>, apart: set<nat>, b: nat,
                 x: Bloc)
    requires Pool(m, freebloc, allbloc, free, all, apart)
    requires b in m && x.next == m[b].next && |x.data| == BLOC_ENTRIES
    ensures Pool(m[b := x], freebloc, allbloc, free, all, apart)
  {
    BlocsSame(m, m[b := x], freebloc, free);
    BlocsSame(m, m[b := x], allbloc, all);
    hide BlocList;
  }

  /** The first free block is taken: it is on no list from then on. */
  lemma PoolReuse(m: Memory, freebloc: nat, allbloc: nat, free: seq<nat>, all: seq<nat>, apart: set<nat>)
    requires Pool(m, freebloc, allbloc, free, all, apart) && freebloc != NULL
    ensures free != [] && freebloc == free[0] && freebloc in m && freebloc !in free[1..]
    ensures Pool(m, m[freebloc].next, allbloc, free[1..], all, apart + {freebloc})
  {
    assert BlocAt(m, free, 0);
    forall k
      ensures BlocAt(m, free[1..], k)
    {
      assert BlocAt(m, free, k + 1);
    }
    assert (set b | b in free) == (set b | b in free[1..]) + {freebloc};
  }

  /** A new block is linked in front of the allocated ones. */
  lemma PoolNew(m: Memory, allbloc: nat, free: seq<nat>, all: seq<nat>, apart: set<nat>, b: nat, x: Bloc)
    requires Pool(m, NULL, allbloc, free, all, apart) && b !in m && b != NULL && |x.data| == BLOC_ENTRIES
    requires x.next == allbloc
    ensures free == [] && Pool(m[b := x], NULL, b, [], [b] + all, apart)
  {
    var m', all' := m[b := x], [b] + all;
    forall k
      ensures BlocAt(m', all', k)
    {
      assert BlocAt(m, all, k - 1);
    }
    assert b !in all;
    assert (set c | c in all') == (set c | c in all) + {b};
  }

  /** Clearing turns the allocated blocks into free ones. */
  lemma PoolClear(m: Memory, freebloc: nat, allbloc: nat, free: seq<nat>, all: seq<nat>, apart: set<nat>)
    requires Pool(m, freebloc, allbloc, free, all, apart)
    ensures (allbloc != NULL ==> freebloc == NULL) && (allbloc != NULL <==> all != [])
    ensures if allbloc != NULL then Pool(m, allbloc, NULL, all, [], apart) else Pool(m, freebloc, NULL, free, [], apart)
  {
    assert forall k :: BlocAt(m, [], k);
  }

  // ----- Steps -----

  /** Blocks outside the chains may change, and free blocks may be taken. */
  lemma BucketsSame(m: Memory, m': Memory, entries: seq<Ref>, chains: seq<seq<Ref>>, hash: nat -> nat,
                    free: seq<nat>, free': seq<nat>, contents: map<nat, Words>)
    requires Buckets(m, entries, chains, hash, free) && Holds(m, chains, hash, contents)
    requires forall b :: 0 <= b < |chains| ==> Same(m, m', chains[b])
    requires forall x :: x in free' ==> x in free
    ensures Buckets(m', entries, chains, hash, free') && Holds(m', chains, hash, contents)
  {
    forall b | 0 <= b < |chains|
      ensures Chain(m', chains[b])
      ensures forall r :: r in chains[b] ==> Deref(m', r) == Deref(m, r)
    {
      SameChain(m, m', chains[b]);
      forall r | r in chains[b]
        ensures Deref(m', r) == Deref(m, r)
      {
        ChainInUse(m, chains[b], r);
      }
    }
    forall key
      ensures HoldsKey(m', chains[Index(hash, |chains|, key)], contents, key)
    {
      var chain := chains[Index(hash, |chains|, key)];
      assert HoldsKey(m, chain, contents, key);
      SameLookup(m, m', chain, key);
      LookupFinds(m, chain, key);
    }
  }

  /** Taking a block that is free or new leaves the chains alone. */
  lemma TakenSame(m: Memory, entries: seq<Ref>, chains: seq<seq<Ref>>, hash: nat -> nat, free: seq<nat>, b: nat,
                  x: Bloc)
    requires Buckets(m, entries, chains, hash, free) && (b in m ==> b in free)
    ensures forall c :: 0 <= c < |chains| ==> Same(m, m[b := x], chains[c])
  {
    forall c, r | 0 <= c < |chains| && r in chains[c]
      ensures r.At? && r.bloc !in free
    {
      assert Stored(m, r, hash, |chains|, c, free);
    }
  }

  /** The next slot of a block is filled and handed out. */
  function Filled(m: Memory, b: nat, e: Entry): Memory
    requires b in m && m[b].pos < |m[b].data|
  {
    m[b := m[b].(data := m[b].data[m[b].pos := e], pos := m[b].pos + 1)]
  }

  lemma FilledSame(m: Memory, b: nat, e: Entry, chain: seq<Ref>)
    requires b in m && m[b].pos < |m[b].data|
    ensures Same(m, Filled(m, b, e), chain)
    ensures InUse(Filled(m, b, e), At(b, m[b].pos)) && Deref(Filled(m, b, e), At(b, m[b].pos)) == e
  {
  }

  /** An entry enters the bucket of its key in front. */
  lemma InsertKeeps(m: Memory, entries: seq<Ref>, chains: seq<seq<Ref>>, hash: nat -> nat, free: seq<nat>,
                    contents: map<nat, Words>, r: Ref, key: nat, u: Words)
    requires Buckets(m, entries, chains, hash, free) && Holds(m, chains, hash, contents)
    requires InUse(m, r) && r.bloc !in free
    requires Deref(m, r) == Entry(key, u, entries[Index(hash, |chains|, key)])
    ensures var b := Index(hash, |chains|, key); var chains' := chains[b := chains[b] + [r]];
            && Buckets(m, entries[b := r], chains', hash, free)
            && Holds(m, chains', hash, contents[key := u])
  {
    var b := Index(hash, |chains|, key);
    var chains' := chains[b := chains[b] + [r]];
    ChainGrows(m, chains[b], r);
    forall c, x | 0 <= c < |chains'| && x in chains'[c]
      ensures Stored(m, x, hash, |chains'|, c, free)
    {
      assert x in chains[c] ==> Stored(m, x, hash, |chains|, c, free);
    }
    forall k
      ensures HoldsKey(m, chains'[Index(hash, |chains'|, k)], contents[key := u], k)
    {
      var c := Index(hash, |chains|, k);
      assert HoldsKey(m, chains[c], contents, k);
      LookupGrows(m, chains[b], r, k);
    }
  }

  /** The words of the entry found for a key are changed. */
  function Rewritten(m: Memory, r: Ref, u: Words): Memory
    requires InUse(m, r)
  {
    m[r.bloc := m[r.bloc].(data := m[r.bloc].data[r.slot := m[r.bloc].data[r.slot].(u := u)])]
  }

  lemma RewriteKeeps(m: Memory, entries: seq<Ref>, chains: seq<seq<Ref>>, hash: nat -> nat, free: seq<nat>,
                     contents: map<nat, Words>, key: nat, u: Words)
    requires Buckets(m, entries, chains, hash, free) && Holds(m, chains, hash, contents) && key in contents
    ensures var r := Lookup(m, chains[Index(hash, |chains|, key)], key);
            && InUse(m, r)
            && Buckets(Rewritten(m, r, u), entries, chains, hash, free)
            && Holds(Rewritten(m, r, u), chains, hash, contents[key := u])
  {
    var b := Index(hash, |chains|, key);
    var r := Lookup(m, chains[b], key);
    assert HoldsKey(m, chains[b], contents, key);
    LookupFinds(m, chains[b], key);
    ChainInUse(m, chains[b], r);
    var m' := Rewritten(m, r, u);
    forall x
      ensures InUse(m', x) == InUse(m, x) && Deref(m', x).next == Deref(m, x).next
                && Deref(m', x).key == Deref(m, x).key
      ensures x != r ==> Deref(m', x) == Deref(m, x)
    {
    }
    forall c | 0 <= c < |chains|
      ensures Chain(m', chains[c])
    {
      assert forall k :: ChainAt(m, chains[c], k) ==> ChainAt(m', chains[c], k);
    }
    forall c, x | 0 <= c < |chains| && x in chains[c]
      ensures Stored(m', x, hash, |chains|, c, free)
    {
      assert Stored(m, x, hash, |chains|, c, free);
    }
    forall k
      ensures HoldsKey(m', chains[Index(hash, |chains|, k)], contents[key := u], k)
    {
      var chain := chains[Index(hash, |chains|, k)];
      assert HoldsKey(m, chain, contents, k);
      SameLookup(m, m', chain, k);
      LookupFinds(m, chain, k);
    }
  }

  /** Empty buckets. */
  lemma EmptyBuckets(m: Memory, entries: seq<Ref>, chains: seq<seq<Ref>>, hash: nat -> nat, free: seq<nat>)
    requires 0 < |entries| == |chains|
    requires forall b :: 0 <= b < |chains| ==> chains[b] == [] && entries[b] == Nowhere
    ensures Buckets(m, entries, chains, hash, free) && Holds(m, chains, hash, map[])
  {
  }
}
