/** The chained hash map with reuse of blocks (kaapi_hashmap), as a partial map from keys to words. */
module HashTable {
  import opened Machine
  import opened HashChains

  function Pow2(n: nat): (r: nat)
    ensures r > 0
  {
    if n == 0 then 1 else 2 * Pow2(n - 1)
  }

  class HashMap {
    const entries: array<Ref>
    const hash: nat -> nat
    var currentbloc: nat
    var freebloc: nat
    var allallocatedbloc: nat
    var blocs: Memory
    ghost var contents: map<nat, Words>
    ghost var chains: seq<seq<Ref>>
    ghost var free: seq<nat>
    ghost var all: seq<nat>
    /** Blocks on neither list: the caller's first one, and every block that was taken from the free list. */
    ghost var apart: set<nat>

    ghost predicate Stores()
      reads this, entries
    {
      && Buckets(blocs, entries[..], chains, hash, free) && Holds(blocs, chains, hash, contents)
      && Pool(blocs, freebloc, allallocatedbloc, free, all, apart)
    }

    ghost predicate Valid()
      reads this, entries
    {
      Stores() && (currentbloc != NULL ==> Usable(blocs, free, currentbloc))
    }

    /** The bucket of a key, and the newest entry with that key. */
    ghost function Newest(key: nat): Ref
      requires |chains| > 0
      reads this
    {
      Lookup(blocs, chains[Index(hash, |chains|, key)], key)
    }

    /** How an insertion uses the blocks: only a reused one leaves both lists. */
    ghost predicate Blocks(current: nat, free0: seq<nat>, all0: seq<nat>, apart0: set<nat>, addr: nat)
      reads this
    {
      if current != NULL then free == free0 && all == all0 && apart == apart0
      else if free0 == [] then free == [] && all == [addr] + all0 && apart == apart0
      else free == free0[1..] && all == all0 && apart == apart0 + {free0[0]}
    }

    lemma HasBuckets()
      requires Stores()
      ensures |chains| > 0
    {
    }

    /** initbloc is NULL or a block of the caller. */
    constructor (powsize: nat, initbloc: nat, raw: Bloc, h: nat -> nat)
      requires powsize <= 20 && |raw.data| == BLOC_ENTRIES
      ensures Valid() && fresh(entries) && entries.Length == Pow2(powsize) && contents == map[] && hash == h
      ensures currentbloc == initbloc
      ensures apart == (if initbloc == NULL then {} else {initbloc}) && all == free == []
    {
      var buckets := new Ref[Pow2(powsize)](_ => Nowhere);
      entries, hash, currentbloc, freebloc, allallocatedbloc := buckets, h, initbloc, NULL, NULL;
      blocs := if initbloc == NULL then map[] else map[initbloc := raw.(pos := 0)];
      contents, chains, free, all := map[], seq(Pow2(powsize), _ => []), [], [];
      apart := if initbloc == NULL then {} else {initbloc};
      new;
      EmptyBuckets(blocs, entries[..], chains, hash, free);
      EmptyPool(blocs, apart);
    }

    /** The walk of a bucket. */
    method Find(key: nat) returns (entry: Ref)
      requires Valid()
      ensures entry == Newest(key) && (entry == Nowhere <==> key !in contents)
      ensures entry != Nowhere ==> InUse(blocs, entry) && Deref(blocs, entry).key == key
                                   && Deref(blocs, entry).u == contents[key]
    {
      hide Pool, Holds, Lookup;
      ghost var chain := chains[Index(hash, |chains|, key)];
      ghost var k := |chain|;
      FoundIs(blocs, entries[..], chains, hash, free, contents, key);
      entry := entries[Index(hash, entries.Length, key)];
      assert chain[..k] == chain;
      while entry != Nowhere
        invariant 0 <= k <= |chain| && entry == Last(chain[..k]) && Lookup(blocs, chain[..k], key) == Newest(key)
        decreases k
      {
        assert ChainAt(blocs, chain, k - 1);
        LookupStep(blocs, chain, k, key);
        if Deref(blocs, entry).key == key { return; }
        entry := Deref(blocs, entry).next;
        k := k - 1;
      }
      assert k == 0 by { assert ChainAt(blocs, chain, k - 1); }
      assert chain[..k] == [];
      LookupNone(blocs, key);
    }

    /** The map is emptied; its blocks become free. */
    method Clear()
      requires Valid()
      modifies this, entries
      ensures Valid() && contents == map[] && apart == old(apart)
      ensures free == (if old(all) != [] then old(all) else old(free)) && all == [] && currentbloc == NULL
    {
      hide Buckets, Holds, Pool;
      BucketCount(blocs, entries[..], chains, hash, free);
      if currentbloc != NULL {
        BlocSize(blocs, freebloc, allallocatedbloc, free, all, apart, currentbloc);
        PoolSame(blocs, freebloc, allallocatedbloc, free, all, apart, currentbloc, blocs[currentbloc].(pos := 0));
        blocs := blocs[currentbloc := blocs[currentbloc].(pos := 0)];
      }
      PoolClear(blocs, freebloc, allallocatedbloc, free, all, apart);
      if allallocatedbloc != NULL {
        assert freebloc == NULL;
        freebloc, free := allallocatedbloc, all;
      }
      allallocatedbloc, currentbloc, all := NULL, NULL, [];
      EraseBuckets();
    }

    method EraseBuckets()
      requires entries.Length > 0
      modifies `chains, `contents, entries
      ensures Buckets(blocs, entries[..], chains, hash, free) && Holds(blocs, chains, hash, contents)
      ensures contents == map[]
    {
      hide Buckets, Holds;
      forall i | 0 <= i < entries.Length { entries[i] := Nowhere; }
      chains, contents := seq(entries.Length, _ => []), map[];
      EmptyBuckets(blocs, entries[..], chains, hash, free);
    }

    /** A block with room: the first free one, or a new one at the address that malloc returns. */
    method AllocateBloc(addr: nat, raw: Bloc)
      requires Stores() && addr !in blocs && addr != NULL && |raw.data| == BLOC_ENTRIES
      modifies this
      ensures Stores() && Usable(blocs, free, currentbloc) && contents == old(contents) && chains == old(chains)
      ensures Blocks(NULL, old(free), old(all), old(apart), addr)
      ensures currentbloc == if old(free) == [] then addr else old(free)[0]
    {
      hide Buckets, Holds, Pool;
      ghost var goal: Memory := blocs;
      currentbloc := freebloc;
      if currentbloc == NULL {
        currentbloc := addr;
        ghost var x := raw.(next := allallocatedbloc, pos := 0);
        goal := blocs[addr := x];
        PoolNew(blocs, allallocatedbloc, free, all, apart, addr, x);
        TakenSame(blocs, entries[..], chains, hash, free, addr, x);
        BucketsSame(blocs, blocs[addr := x], entries[..], chains, hash, free, free, contents);
        blocs := blocs[addr := raw.(next := allallocatedbloc)];
        allallocatedbloc := addr;
        all := [addr] + all;
      } else {
        PoolReuse(blocs, freebloc, allallocatedbloc, free, all, apart);
        ghost var x := blocs[currentbloc].(pos := 0);
        goal := blocs[currentbloc := x];
        BlocSize(blocs, freebloc, allallocatedbloc, free, all, apart, currentbloc);
        PoolSame(blocs, blocs[freebloc].next, allallocatedbloc, free[1..], all, apart + {freebloc}, currentbloc, x);
        TakenSame(blocs, entries[..], chains, hash, free, currentbloc, x);
        BucketsSame(blocs, blocs[currentbloc := x], entries[..], chains, hash, free, free[1..], contents);
        freebloc := blocs[currentbloc].next;
        apart, free := apart + {currentbloc}, free[1..];
      }
      blocs := blocs[currentbloc := blocs[currentbloc].(pos := 0)];
      assert blocs == goal;
    }

    /** A new entry in front of its bucket, its words zeroed. */
    method Insert(key: nat, addr: nat, raw: Bloc) returns (entry: Ref)
      requires Valid() && addr !in blocs && addr != NULL && |raw.data| == 2048
      modifies this, entries
      ensures Valid() && contents == old(contents)[key := Words(0, 0)]
      ensures |chains| > 0 && entry == Newest(key) && InUse(blocs, entry) && entry.bloc !in free
      ensures Deref(blocs, entry).key == key && Deref(blocs, entry).u == Words(0, 0)
      ensures Blocks(old(currentbloc), old(free), old(all), old(apart), addr)
      ensures entries.Length > 0
      ensures forall b :: 0 <= b < entries.Length ==>
                entries[b] == if b == hash(key) % entries.Length then entry else old(entries[b])
    {
      hide Stores, Usable, Lookup, Deref, InUse;
      if currentbloc == NULL { AllocateBloc(addr, raw); }
      entry := TakeSlot(key);
      PutFirst(key, entry);
    }

    /** The next slot of the current block is filled; a full block is left. */
    method TakeSlot(key: nat) returns (entry: Ref)
      requires Stores() && Usable(blocs, free, currentbloc)
      modifies `blocs, `currentbloc
      ensures Valid() && InUse(blocs, entry) && entry.bloc !in free && |chains| == entries.Length > 0
      ensures Deref(blocs, entry) == Entry(key, Words(0, 0), entries[Index(hash, |chains|, key)])
    {
      hide Buckets, Holds, Pool;
      BucketCount(blocs, entries[..], chains, hash, free);
      var pos, e := blocs[currentbloc].pos, Entry(key, Words(0, 0), entries[Index(hash, entries.Length, key)]);
      entry := At(currentbloc, pos);
      FillKeeps(blocs, entries[..], chains, hash, free, contents, currentbloc, e);
      BlocSize(blocs, freebloc, allallocatedbloc, free, all, apart, currentbloc);
      PoolSame(blocs, freebloc, allallocatedbloc, free, all, apart, currentbloc,
               blocs[currentbloc].(data := blocs[currentbloc].data[pos := e], pos := pos + 1));
      blocs := Filled(blocs, currentbloc, e);
      if blocs[currentbloc].pos == BLOC_ENTRIES { currentbloc := NULL; }
    }

    /** A filled slot becomes the first entry of its bucket. */
    method PutFirst(key: nat, entry: Ref)
      requires Valid() && InUse(blocs, entry) && entry.bloc !in free && |chains| == entries.Length > 0
      requires Deref(blocs, entry) == Entry(key, Words(0, 0), entries[Index(hash, |chains|, key)])
      modifies `chains, `contents, entries
      ensures Valid() && contents == old(contents)[key := Words(0, 0)] && |chains| > 0 && entry == Newest(key)
      ensures forall b :: 0 <= b < entries.Length ==>
                entries[b] == if b == hash(key) % entries.Length then entry else old(entries[b])
    {
      hide Buckets, Holds, Pool, Lookup;
      var b := Index(hash, entries.Length, key);
      InsertKeeps(blocs, entries[..], chains, hash, free, contents, entry, key, Words(0, 0));
      LookupGrows(blocs, chains[b], entry, key);
      ghost var entries' := entries[..][b := entry];
      entries[b] := entry;
      assert entries[..] == entries';
      chains, contents := chains[b := chains[b] + [entry]], contents[key := Words(0, 0)];
    }

    method FindInsert(key: nat, addr: nat, raw: Bloc) returns (entry: Ref)
      requires Valid() && addr !in blocs && addr != NULL && |raw.data| == 2048
      modifies this, entries
      ensures Valid() && |chains| > 0 && entry == Newest(key) && InUse(blocs, entry)
      ensures contents == if key in old(contents) then old(contents) else old(contents)[key := Words(0, 0)]
      ensures Deref(blocs, entry).key == key && Deref(blocs, entry).u == contents[key]
      ensures key in old(contents) ==> free == old(free) && all == old(all) && apart == old(apart)
      ensures key !in old(contents) ==> Blocks(old(currentbloc), old(free), old(all), old(apart), addr)
    {
      hide Stores, Usable;
      entry := Find(key);
      assert |chains| > 0 by { HasBuckets(); }
      if entry == Nowhere { entry := Insert(key, addr, raw); }
    }

    /** The owner of an entry stores its words. */
    method Store(key: nat, u: Words)
      requires Valid() && key in contents
      modifies this
      ensures Valid() && contents == old(contents)[key := u]
      ensures free == old(free) && all == old(all) && apart == old(apart)
    {
      hide Buckets, Holds, Pool;
      var entry := Find(key);
      RewriteKeeps(blocs, entries[..], chains, hash, free, contents, key, u);
      BlocSize(blocs, freebloc, allallocatedbloc, free, all, apart, entry.bloc);
      PoolSame(blocs, freebloc, allallocatedbloc, free, all, apart, entry.bloc, Rewritten(blocs, entry, u)[entry.bloc]);
      blocs := Rewritten(blocs, entry, u);
      contents := contents[key := u];
    }

    /** The entry of a key never lies in a free block, and one of the block lists is empty. */
    lemma LiveNotFree(key: nat)
      requires Valid() && key in contents
      ensures |chains| > 0 && Newest(key).At? && Newest(key).bloc !in free
      ensures freebloc == NULL || allallocatedbloc == NULL
    {
      FoundIs(blocs, entries[..], chains, hash, free, contents, key);
      var b := Index(hash, |chains|, key);
      LookupFinds(blocs, chains[b], key);
      assert Newest(key) in chains[b];
      assert Stored(blocs, Newest(key), hash, |chains|, b, free);
    }

    /** The blocks of one list are released. */
    method DestroyList(head: nat, ghost list: seq<nat>)
      requires BlocList(blocs, head, list)
      modifies `blocs
      ensures blocs == old(blocs) - set b | b in list
    {
      var curr := head;
      ghost var k := 0;
      while curr != NULL
        invariant 0 <= k <= |list| && curr == IdAt(list, k) && blocs == old(blocs) - set b | b in list[..k]
        decreases |list| - k
      {
        assert BlocAt(old(blocs), list, k);
        assert list[..k + 1] == list[..k] + [curr];
        var next := blocs[curr].next;
        blocs := blocs - {curr};
        curr, k := next, k + 1;
      }
      assert list[..k] == list;
    }

    /** Everything on a list is released; what is on neither list is not. */
    method Destroy()
      requires Valid()
      modifies this
      ensures blocs.Keys == old(apart) && freebloc == allallocatedbloc == currentbloc == NULL
    {
      ghost var m := blocs;
      DestroyList(allallocatedbloc, all);
      BlocsSame(m, blocs, freebloc, free);
      DestroyList(freebloc, free);
      currentbloc, freebloc, allallocatedbloc := NULL, NULL, NULL;
    }
  }

  /** Insert, clear, insert, destroy: the block that malloc gave at addr is reused, and never released. */
  method Leak(key: nat, addr: nat, unused: nat, raw: Bloc, hash: nat -> nat, powsize: nat) returns (m: HashMap)
    requires powsize <= 20 && |raw.data| == BLOC_ENTRIES && addr != NULL && unused != NULL && addr != unused
    ensures fresh(m) && m.blocs.Keys == {addr} && m.freebloc == m.allallocatedbloc == m.currentbloc == NULL
  {
    hide Buckets, Holds, Pool, HashChains.BlocList;
    m := new HashMap(powsize, NULL, raw, hash);
    BlocsAre(m.blocs, m.freebloc, m.allallocatedbloc, m.free, m.all, m.apart);
    var entry := m.Insert(key, addr, raw);
    BlocsAre(m.blocs, m.freebloc, m.allallocatedbloc, m.free, m.all, m.apart);
    m.Clear();
    BlocsAre(m.blocs, m.freebloc, m.allallocatedbloc, m.free, m.all, m.apart);
    entry := m.Insert(key, unused, raw);
    m.Destroy();
  }

  lemma BlocsAre(m: Memory, freebloc: nat, allbloc: nat, free: seq<nat>, all: seq<nat>, apart: set<nat>)
    requires Pool(m, freebloc, allbloc, free, all, apart)
    ensures m.Keys == (set b | b in free) + (set b | b in all) + apart
  {
  }

  lemma BucketCount(m: Memory, entries: seq<Ref>, chains: seq<seq<Ref>>, hash: nat -> nat, free: seq<nat>)
    requires Buckets(m, entries, chains, hash, free)
    ensures 0 < |entries| == |chains|
  {
  }

  lemma FillKeeps(m: Memory, entries: seq<Ref>, chains: seq<seq<Ref>>, hash: nat -> nat, free: seq<nat>,
                  contents: map<nat, Words>, b: nat, e: Entry)
    requires Buckets(m, entries, chains, hash, free) && Holds(m, chains, hash, contents)
    requires b in m && m[b].pos < |m[b].data|
    ensures var m' := Filled(m, b, e);
            && Buckets(m', entries, chains, hash, free) && Holds(m', chains, hash, contents)
            && InUse(m', At(b, m[b].pos)) && Deref(m', At(b, m[b].pos)) == e
  {
    FilledSame(m, b, e, []);
    forall c | 0 <= c < |chains|
      ensures Same(m, Filled(m, b, e), chains[c])
    {
      FilledSame(m, b, e, chains[c]);
    }
    hide Same, Filled, Deref, InUse;
    BucketsSame(m, Filled(m, b, e), entries, chains, hash, free, free, contents);
  }

  predicate Usable(m: Memory, free: seq<nat>, b: nat) {
    b != NULL && b in m && b !in free && m[b].pos < |m[b].data|
  }

  lemma EmptyPool(m: Memory, apart: set<nat>)
    requires m.Keys == apart && NULL !in apart && forall b :: b in m ==> |m[b].data| == BLOC_ENTRIES
    ensures Pool(m, NULL, NULL, [], [], apart)
  {
    assert forall k :: BlocAt(m, [], k);
  }

  lemma BlocSize(m: Memory, freebloc: nat, allbloc: nat, free: seq<nat>, all: seq<nat>, apart: set<nat>, b: nat)
    requires Pool(m, freebloc, allbloc, free, all, apart) && b in m
    ensures |m[b].data| == BLOC_ENTRIES
  {
  }

  lemma FoundIs(m: Memory, entries: seq<Ref>, chains: seq<seq<Ref>>, hash: nat -> nat, free: seq<nat>,
                contents: map<nat, Words>, key: nat)
    requires Buckets(m, entries, chains, hash, free) && Holds(m, chains, hash, contents)
    ensures var chain := chains[Index(hash, |chains|, key)]; var r := Lookup(m, chain, key);
            && Chain(m, chain) && entries[Index(hash, |chains|, key)] == Last(chain)
            && (r == Nowhere <==> key !in contents)
            && (r != Nowhere ==> InUse(m, r) && Deref(m, r).key == key && Deref(m, r).u == contents[key])
  {
    var chain := chains[Index(hash, |chains|, key)];
    assert HoldsKey(m, chain, contents, key);
    LookupFinds(m, chain, key);
    if Lookup(m, chain, key) != Nowhere { ChainInUse(m, chain, Lookup(m, chain, key)); }
  }

  lemma LookupStep(m: Memory, chain: seq<Ref>, k: nat, key: nat)
    requires 0 < k <= |chain|
    ensures Lookup(m, chain[..k], key)
         == if Deref(m, chain[k - 1]).key == key then chain[k - 1] else Lookup(m, chain[..k - 1], key)
  {
    assert chain[..k][..k - 1] == chain[..k - 1];
  }

  lemma LookupNone(m: Memory, key: nat)
    ensures Lookup(m, [], key) == Nowhere
  {
  }
}
