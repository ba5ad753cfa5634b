/**
 The records behind the software cache: entries on two doubly linked lists with head
 and tail, entries given back on a free list, and the replica's pointers to its entry
 and list.
 */
module CacheLists {
  import opened Machine
  import opened LinkedList
  import opened CacheOrder
  import opened ListPairs

  datatype Heads = Heads(beg: nat, end: nat)

  // ----- The linked lists -----

  ghost predicate IsList(m: Store, h: Heads, ids: seq<nat>) {
    List(m, h.beg, ids) && h.end == IdAt(ids, |ids| - 1)
  }

  predicate FreeAt(m: Store, free: seq<nat>, k: int) {
    0 <= k < |free| ==> free[k] in m && m[free[k]].next == IdAt(free, k + 1)
  }

  ghost predicate IsFree(m: Store, head: nat, free: seq<nat>) {
    Distinct(free) && head == IdAt(free, 0) && forall k :: FreeAt(m, free, k)
  }

  predicate Apart(a: seq<nat>, b: seq<nat>) { forall x :: x in a ==> x !in b }

  /** The two lists and the free list are sound and share no entry. */
  ghost predicate Sound(m: Store, heads: Pair<Heads>, freelist: nat, ids: Pair<seq<nat>>, free: seq<nat>) {
    && IsList(m, heads.ro, ids.ro) && IsList(m, heads.rw, ids.rw) && IsFree(m, freelist, free)
    && Apart(ids.ro, ids.rw) && Apart(ids.ro, free) && Apart(ids.rw, free)
  }

  function Other(w: Which): Which { if w.RO? then RW else RO }

  lemma FreeSame(m: Store, m': Store, head: nat, free: seq<nat>)
    requires IsFree(m, head, free) && forall id :: id in free && id in m ==> id in m' && m'[id] == m[id]
    ensures IsFree(m', head, free)
  {
    forall k
      ensures FreeAt(m', free, k)
    {
      assert FreeAt(m, free, k);
    }
  }

  /** A change of the links of one list, and of entries on none, keeps the others. */
  lemma OthersSame(m: Store, m': Store, heads: Pair<Heads>, freelist: nat, ids: Pair<seq<nat>>, free: seq<nat>,
                   w: Which, touched: seq<nat>)
    requires Sound(m, heads, freelist, ids, free) && Outside(m, m', touched) && NULL !in m'
    requires forall id :: id in touched ==> id !in ids.Get(Other(w)) && id !in free
    ensures IsList(m', heads.Get(Other(w)), ids.Get(Other(w))) && IsFree(m', freelist, free)
  {
    SameLinks(m, m', ids.Get(Other(w)));
    FreeSame(m, m', freelist, free);
  }

  lemma RemovedMembers(ids: seq<nat>, k: nat)
    requires k < |ids| && Distinct(ids)
    ensures forall x :: x in Removed(ids, k) <==> x in ids && x != ids[k]
  {
    RemovedAt(ids, k);
    forall x | x in ids && x != ids[k]
      ensures x in Removed(ids, k)
    {
      var j :| 0 <= j < |ids| && ids[j] == x;
      assert Removed(ids, k)[if j < k then j else j - 1] == x;
    }
  }

  function Shortened(h: Heads, l: Links): Heads {
    Heads(if l.prev == NULL then l.next else h.beg, if l.next == NULL then l.prev else h.end)
  }

  /** The entry at k leaves its list. */
  lemma RemoveSound(m: Store, heads: Pair<Heads>, freelist: nat, ids: Pair<seq<nat>>, free: seq<nat>,
                    w: Which, k: nat, left: Links)
    requires Sound(m, heads, freelist, ids, free) && k < |ids.Get(w)|
    ensures ids.Get(w)[k] in m
    ensures var id := ids.Get(w)[k];
            && Sound(Remove(m, id)[id := left], heads.Set(w, Shortened(heads.Get(w), m[id])), freelist,
                     ids.Set(w, Removed(ids.Get(w), k)), free)
            && Remove(m, id)[id := left].Keys == m.Keys
  {
    var mine := ids.Get(w);
    ListRemove(m, heads.Get(w).beg, mine, k, left);
    var id, m', h' := mine[k], Remove(m, mine[k])[mine[k] := left], Shortened(heads.Get(w), m[mine[k]]);
    assert LinkedAt(m, mine, k);
    RemovedMembers(mine, k);
    RemovedAt(mine, k);
    OthersSame(m, m', heads, freelist, ids, free, w, mine);
    assert IsList(m', h', Removed(mine, k)) by {
      assert heads.Get(w).beg == id <==> k == 0;
      hide Linked, Removed, Remove;
    }
  }

  function Lengthened(h: Heads, id: nat): Heads { Heads(id, if h.beg == NULL then id else h.end) }

  /** An entry on no list enters one in front. */
  lemma PushSound(m: Store, heads: Pair<Heads>, freelist: nat, ids: Pair<seq<nat>>, free: seq<nat>, w: Which, id: nat)
    requires Sound(m, heads, freelist, ids, free) && id != NULL
    requires id !in ids.ro && id !in ids.rw && id !in free
    ensures var m' := InsertAfter(m, NULL, id, heads.Get(w).beg);
            && Sound(m', heads.Set(w, Lengthened(heads.Get(w), id)), freelist, ids.Set(w, [id] + ids.Get(w)), free)
            && m'.Keys == m.Keys + {id}
  {
    var mine := ids.Get(w);
    ListInsert(m, heads.Get(w).beg, mine, 0, id);
    assert Inserted(mine, 0, id) == [id] + mine;
    OthersSame(m, InsertAfter(m, NULL, id, heads.Get(w).beg), heads, freelist, ids, free, w, mine + [id]);
    hide InsertAfter, Inserted, Linked;
  }

  /** An entry on no list joins the free list. */
  lemma FreedSound(m: Store, heads: Pair<Heads>, freelist: nat, ids: Pair<seq<nat>>, free: seq<nat>, id: nat)
    requires Sound(m, heads, freelist, ids, free) && id in m && m[id].next == freelist && id != NULL
    requires id !in ids.ro && id !in ids.rw && id !in free
    ensures Sound(m, heads, id, ids, [id] + free)
  {
    var free' := [id] + free;
    hide List;
    forall k
      ensures FreeAt(m, free', k)
    {
      assert FreeAt(m, free, k - 1);
    }
  }

  /** The first entry of the free list is taken. */
  lemma ReusedSound(m: Store, heads: Pair<Heads>, freelist: nat, ids: Pair<seq<nat>>, free: seq<nat>)
    requires Sound(m, heads, freelist, ids, free) && freelist != NULL
    ensures free != [] && freelist == free[0] && freelist in m && Sound(m, heads, m[freelist].next, ids, free[1..])
    ensures freelist !in ids.ro && freelist !in ids.rw && freelist !in free[1..]
  {
    hide List;
    assert FreeAt(m, free, 0);
    forall k
      ensures FreeAt(m, free[1..], k)
    {
      assert FreeAt(m, free, k + 1);
    }
  }

  // ----- Entries and replicas -----

  predicate Points(tile: map<nat, nat>, entry: map<nat, nat>, list: map<nat, Which>, id: nat, w: Which) {
    && id in tile && tile[id] in entry && entry[tile[id]] == id && tile[id] in list && list[tile[id]] == w
  }

  ghost predicate AllPoint(tile: map<nat, nat>, entry: map<nat, nat>, list: map<nat, Which>, ids: Pair<seq<nat>>) {
    forall w, id :: id in ids.Get(w) ==> Points(tile, entry, list, id, w)
  }

  ghost predicate AllCached(tile: map<nat, nat>, entry: map<nat, nat>, list: map<nat, Which>, ids: Pair<seq<nat>>) {
    && (forall t :: t in entry <==> t in list)
    && forall t :: t in entry ==> entry[t] in ids.Get(list[t]) && entry[t] in tile && tile[entry[t]] == t
  }

  /** Entries on a list and cached replicas point to each other. */
  ghost predicate Agree(tile: map<nat, nat>, entry: map<nat, nat>, list: map<nat, Which>, ids: Pair<seq<nat>>) {
    AllPoint(tile, entry, list, ids) && AllCached(tile, entry, list, ids)
  }

  /** rest is ids without the entry id. */
  ghost predicate Less(ids: Pair<seq<nat>>, rest: Pair<seq<nat>>, id: nat) {
    forall w, x :: x in rest.Get(w) <==> x in ids.Get(w) && x != id
  }

  lemma TouchPoints(tile: map<nat, nat>, entry: map<nat, nat>, list: map<nat, Which>, ids: Pair<seq<nat>>,
                    rest: Pair<seq<nat>>, t: nat, id: nat, w: Which)
    requires AllPoint(tile, entry, list, ids) && Less(ids, rest, id) && (t in entry ==> entry[t] == id)
    ensures AllPoint(tile[id := t], entry[t := id], list[t := w], rest.Set(w, [id] + rest.Get(w)))
  {
    forall w', x | x in rest.Set(w, [id] + rest.Get(w)).Get(w')
      ensures Points(tile[id := t], entry[t := id], list[t := w], x, w')
    {
      assert x in rest.Get(w') <==> x in ids.Get(w') && x != id;
      assert x != id ==> Points(tile, entry, list, x, w');
    }
  }

  lemma TouchCached(tile: map<nat, nat>, entry: map<nat, nat>, list: map<nat, Which>, ids: Pair<seq<nat>>,
                    rest: Pair<seq<nat>>, t: nat, id: nat, w: Which)
    requires AllCached(tile, entry, list, ids) && Less(ids, rest, id)
    requires forall u :: u in entry && u != t ==> entry[u] != id
    ensures AllCached(tile[id := t], entry[t := id], list[t := w], rest.Set(w, [id] + rest.Get(w)))
  {
    var ids', tile', entry', list' := rest.Set(w, [id] + rest.Get(w)), tile[id := t], entry[t := id], list[t := w];
    forall u | u in entry'
      ensures u in list' && entry'[u] in ids'.Get(list'[u]) && entry'[u] in tile' && tile'[entry'[u]] == u
    {
      assert u != t ==> entry[u] in ids.Get(list[u]) && entry[u] != id && entry[u] in rest.Get(list[u]);
    }
  }

  /** A replica gets an entry in front of a list. */
  lemma TouchAgrees(tile: map<nat, nat>, entry: map<nat, nat>, list: map<nat, Which>, ids: Pair<seq<nat>>,
                    rest: Pair<seq<nat>>, t: nat, id: nat, w: Which)
    requires Agree(tile, entry, list, ids) && Less(ids, rest, id)
    requires t in entry ==> entry[t] == id
    requires t !in entry ==> id !in ids.ro && id !in ids.rw
    ensures Agree(tile[id := t], entry[t := id], list[t := w], rest.Set(w, [id] + rest.Get(w)))
  {
    TouchPoints(tile, entry, list, ids, rest, t, id, w);
    forall u | u in entry && u != t
      ensures entry[u] != id
    {
      assert entry[u] in ids.Get(list[u]) && tile[entry[u]] == u;
    }
    TouchCached(tile, entry, list, ids, rest, t, id, w);
  }

  /** A replica loses its entry. */
  lemma EvictAgrees(tile: map<nat, nat>, entry: map<nat, nat>, list: map<nat, Which>, ids: Pair<seq<nat>>,
                    rest: Pair<seq<nat>>, id: nat, w: Which)
    requires Agree(tile, entry, list, ids) && id in ids.Get(w) && Less(ids, rest, id)
    ensures Points(tile, entry, list, id, w)
    ensures Agree(tile, entry - {tile[id]}, list - {tile[id]}, rest)
  {
    var t := tile[id];
    forall w', x | x in rest.Get(w')
      ensures Points(tile, entry - {t}, list - {t}, x, w')
    {
      assert x in ids.Get(w') && x != id;
      assert Points(tile, entry, list, x, w');
    }
    forall u | u in entry && u != t
      ensures u in list && entry[u] in rest.Get(list[u])
    {
      assert entry[u] in ids.Get(list[u]) && entry[u] != id;
    }
  }

  // ----- The tiles in the order of the lists -----

  function Name(tile: map<nat, nat>, id: nat): nat { if id in tile then tile[id] else 0 }

  function Names(tile: map<nat, nat>, ids: seq<nat>): (r: seq<nat>)
    ensures |r| == |ids| && forall i :: 0 <= i < |ids| ==> r[i] == Name(tile, ids[i])
  {
    seq(|ids|, i requires 0 <= i < |ids| => Name(tile, ids[i]))
  }

  function OrderOf(tile: map<nat, nat>, ids: Pair<seq<nat>>): Order { Pair(Names(tile, ids.ro), Names(tile, ids.rw)) }

  lemma {:induction false} WithoutAbsent(s: seq<nat>, t: nat)
    requires t !in s
    ensures Without(s, t) == s
  {
    if s != [] { WithoutAbsent(s[1..], t); }
  }

  lemma {:induction false} WithoutAt(s: seq<nat>, k: nat)
    requires k < |s| && forall j :: 0 <= j < |s| && j != k ==> s[j] != s[k]
    ensures Without(s, s[k]) == Removed(s, k)
  {
    if k == 0 {
      WithoutAbsent(s[1..], s[k]);
      assert Removed(s, 0) == s[1..];
    } else {
      WithoutAt(s[1..], k - 1);
      assert Removed(s, k) == [s[0]] + Removed(s[1..], k - 1);
    }
  }

  lemma NamesRemoved(tile: map<nat, nat>, ids: seq<nat>, k: nat)
    requires k < |ids|
    ensures Names(tile, Removed(ids, k)) == Removed(Names(tile, ids), k)
  {
    RemovedAt(ids, k);
    RemovedAt(Names(tile, ids), k);
  }
}
