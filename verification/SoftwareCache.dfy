/** The software cache of one device (kaapi_memory_cache_touch and the eviction passes). */
module SoftwareCache {
  import opened Machine
  import opened LinkedList
  import opened CacheOrder
  import opened ListPairs
  import opened CacheLists
  import opened EvictionRounds

  class Cache {
    var links: Store
    var tile: map<nat, nat>
    var heads: Pair<Heads>
    var freelist: nat
    var made: nat
    var cacheentry: map<nat, nat>
    var cachelist: map<nat, Which>
    const bytes: nat -> nat
    ghost var ids: Pair<seq<nat>>
    ghost var free: seq<nat>

    ghost predicate Linked()
      reads this
    {
      Sound(links, heads, freelist, ids, free) && forall id :: id in links ==> id <= made
    }

    ghost predicate Valid()
      reads this
    {
      Linked() && Agree(tile, cacheentry, cachelist, ids)
    }

    ghost function Order(): Order
      reads this
    {
      OrderOf(tile, ids)
    }

    constructor (view: nat -> nat)
      ensures Valid() && Order() == Pair([], []) && bytes == view
    {
      links, tile, heads, freelist, made := map[], map[], Pair(Heads(NULL, NULL), Heads(NULL, NULL)), NULL, 0;
      cacheentry, cachelist, bytes, ids, free := map[], map[], view, Pair([], []), [];
    }

    // ----- List surgery -----

    /** An entry for a new replica, given back earlier or never used. */
    method AllocateEntry() returns (id: nat)
      requires Linked()
      modifies `links, `freelist, `made, `free
      ensures Linked() && id != NULL && id in links && id !in ids.ro && id !in ids.rw && id !in free
      ensures if old(freelist) != NULL then id == old(freelist) && made == old(made) && [id] + free == old(free)
              else id == made == old(made) + 1 && free == old(free) == []
    {
      id := freelist;
      if id == NULL {
        made := made + 1;
        id := made;
        NewEntry(links, heads, freelist, ids, free, id);
        links := links[id := Links(NULL, NULL)];
      } else {
        ReusedSound(links, heads, freelist, ids, free);
        freelist := links[id].next;
        free := free[1..];
      }
    }

    /** An entry leaves its list; its links become left. */
    method Unlink(w: Which, id: nat, left: Links, ghost k: nat)
      requires Linked() && k < |ids.Get(w)| && ids.Get(w)[k] == id
      modifies `links, `heads, `ids
      ensures Linked() && ids == old(ids).Set(w, Removed(old(ids).Get(w), k))
      ensures id in links && links[id] == left
    {
      RemoveSound(links, heads, freelist, ids, free, w, k, left);
      hide Sound;
      ghost var m, h := links, heads.Get(w);
      var list, l := heads.Get(w), links[id];
      if l.next != NULL { links := SetPrev(links, l.next, l.prev); } else { list := list.(end := l.prev); }
      if l.prev != NULL { links := SetNext(links, l.prev, l.next); } else { list := list.(beg := l.next); }
      links := links[id := left];
      assert links == Remove(m, id)[id := left];
      assert list == Shortened(h, l);
      heads := heads.Set(w, list);
      ids := ids.Set(w, Removed(ids.Get(w), k));
    }

    /** An entry on no list enters one in front. */
    method PushFront(w: Which, id: nat)
      requires Linked() && id != NULL && id in links && id !in ids.ro && id !in ids.rw && id !in free
      modifies `links, `heads, `ids
      ensures Linked() && ids == old(ids).Set(w, [id] + old(ids).Get(w))
    {
      PushSound(links, heads, freelist, ids, free, w, id);
      assert heads.Get(w).beg != NULL ==> heads.Get(w).beg in links && heads.Get(w).beg != id by {
        assert LinkedAt(links, ids.Get(w), 0);
      }
      assert NULL !in links;
      hide Sound;
      ghost var m, h := links, heads.Get(w);
      var list := heads.Get(w);
      links := links[id := Links(NULL, list.beg)];
      if list.beg == NULL { list := list.(end := id); } else { links := SetPrev(links, list.beg, id); }
      list := list.(beg := id);
      assert links == InsertAfter(m, NULL, id, h.beg);
      heads := heads.Set(w, list);
      ids := ids.Set(w, [id] + ids.Get(w));
    }

    // ----- Touching -----

    /** An entry for t that is on no list: its own, taken from its list, or a new one. */
    method Detach(t: nat) returns (id: nat, ghost k: nat)
      requires Valid()
      modifies `links, `heads, `freelist, `made, `ids, `free
      ensures Linked() && Detached(cacheentry, cachelist, old(ids), ids, t, id, k)
      ensures id != NULL && id in links && id !in ids.ro && id !in ids.rw && id !in free
    {
      k := 0;
      if t !in cacheentry {
        hide Sound;
        id := AllocateEntry();
      } else {
        id := cacheentry[t];
        k := CachedAt(tile, cacheentry, cachelist, ids, t);
        RemovedLess(ids, cachelist[t], k);
        FreshOnceRemoved(ids, free, cachelist[t], k);
        hide Sound, Less;
        Unlink(cachelist[t], id, Links(NULL, NULL), k);
      }
    }

    /** The replica of t moves to the front of the list it now belongs to. */
    method Touch(t: nat, write: bool, hostValid: bool)
      requires Valid()
      modifies this
      ensures Valid() && Order() == Touched(old(Order()), t, write, hostValid)
    {
      hide Sound, Detached, Agree, OrderOf, Touched, Distinct;
      SoundDistinct(links, heads, freelist, ids, free);
      ghost var tile0, entry0, list0, ids0 := tile, cacheentry, cachelist, ids;
      var w := NewList(cachelist, t, write, hostValid);
      var id, k := Detach(t);
      ghost var rest := ids;
      PushFront(w, id);
      tile, cacheentry, cachelist := tile[id := t], cacheentry[t := id], cachelist[t := w];
      TouchKeeps(tile0, entry0, list0, ids0, rest, t, id, write, hostValid, k);
    }

    // ----- Eviction -----

    /** The entry at k is erased: its replica forgets it, and it joins the free list. */
    method Erase(w: Which, id: nat, ghost k: nat)
      requires Valid() && k < |ids.Get(w)| && ids.Get(w)[k] == id
      modifies `links, `heads, `ids, `free, `freelist, `cacheentry, `cachelist
      ensures Valid() && ids == old(ids).Set(w, Removed(old(ids).Get(w), k))
    {
      hide Sound, Agree, Less;
      EraseAgrees(links, heads, freelist, tile, cacheentry, cachelist, ids, free, w, k);
      var t := tile[id];
      cachelist, cacheentry := cachelist - {t}, cacheentry - {t};
      Unlink(w, id, Links(NULL, freelist), k);
      FreedSound(links, heads, freelist, ids, free, id);
      freelist, free := id, [id] + free;
    }

    /** One pass over a list, from its least recently used entry on. */
    method EvictFromList(w: Which, evictable: set<nat>, size: nat) returns (rest: nat, ghost gone: seq<nat>)
      requires Valid() && size < WORD
      modifies `links, `heads, `ids, `free, `freelist, `cacheentry, `cachelist
      ensures Valid()
      ensures var r := Sweep(old(Order()).Get(w), evictable, bytes, Aim(size));
              Order() == old(Order()).Set(w, r.kept) && gone == r.evicted && rest == Missing(size, r.left)
    {
      hide Sound, Agree, Sweep, Passing, OrderOf;
      ghost var before, k: nat := OrderOf(tile, ids), |ids.Get(w)|;
      var curr := heads.Get(w).end;
      var size2: nat := Aim(size);
      gone := [];
      PassingFrom(links, heads, freelist, tile, ids, free, w, evictable, bytes, Aim(size));
      while curr != NULL && size2 > 0
        invariant Valid() && ids.Get(Other(w)) == old(ids).Get(Other(w))
        invariant Passing(tile, ids.Get(w), before.Get(w), evictable, bytes, Aim(size), k, curr, size2, gone)
        decreases k
      {
        PassingAt(tile, ids.Get(w), before.Get(w), evictable, bytes, Aim(size), k, curr, size2, gone);
        EntryAt(links, heads, freelist, tile, cacheentry, cachelist, ids, free, w, k - 1);
        SoundDistinct(links, heads, freelist, ids, free);
        PassingNext(tile, ids.Get(w), before.Get(w), evictable, bytes, Aim(size), k, curr, size2, gone);
        var pcurr, t := links[curr].prev, tile[curr];
        if t in evictable {
          Erase(w, curr, k - 1);
          size2 := if size2 < bytes(t) then 0 else size2 - bytes(t);
          gone := [t] + gone;
        }
        curr, k := pcurr, k - 1;
      }
      PassingEnds(tile, ids, old(ids), w, before, evictable, bytes, Aim(size), k, curr, size2, gone);
      rest := if size2 <= size then 0 else size2 - size;
    }

    /** At most two passes over a list, with the device polled after one that fell short. */
    method EvictTwice(w: Which, size: nat, start: nat, polls: nat -> set<nat>, ghost total: nat, ghost gone0: seq<nat>,
                      ghost flag: bool)
      returns (rest: nat, polled: nat, ghost gone: seq<nat>)
      requires Valid() && Progress(total, size, gone0, bytes) && size > 0
      requires start + 1 < 8 && ListAt(flag, start) == ListAt(flag, start + 1) == w
      modifies `links, `heads, `ids, `free, `freelist, `cacheentry, `cachelist
      ensures Valid() && Progress(total, rest, gone, bytes) && (total >= WORD / 2 ==> rest == 0)
      ensures forall o :: Took(o, old(Order()), gone0, polls) ==> Took(o, Order(), gone, polls)
      ensures rest > 0 ==> polled == start + 2
      ensures Reaches(old(Order()), flag, start, size, gone0, Order(), start + 2, rest, gone, polls, bytes)
    {
      hide Sound, Agree, Sweep, OrderOf, Total, Progress, Took, Reaches, ListAt;
      var cnt, again := 0, true;
      rest, polled, gone := size, start, gone0;
      ReachesFrom(Order(), flag, start, size, gone0, polls, bytes);
      while again
        invariant Valid() && Progress(total, rest, gone, bytes) && cnt <= 2 && (again ==> rest > 0 && cnt < 2)
        invariant !again && total >= WORD / 2 ==> rest == 0
        invariant forall o :: Took(o, old(Order()), gone0, polls) ==> Took(o, Order(), gone, polls)
        invariant (rest > 0 ==> polled == start + cnt) && (!again && rest > 0 ==> cnt == 2)
        invariant Reaches(old(Order()), flag, start, size, gone0, Order(), start + cnt, rest, gone, polls, bytes)
        decreases 2 - cnt, again
      {
        ghost var j := start + cnt;
        ReachesPass(old(Order()), flag, start, size, gone0, Order(), j, rest, gone, polls, bytes);
        PassProgress(total, rest, gone, Order(), w, polls(polled), bytes);
        TookMore(Order(), w, polled, rest, gone, polls, bytes);
        ghost var g;
        rest, g := EvictFromList(w, polls(polled), rest);
        gone := gone + g;
        if rest > 0 {
          cnt := cnt + 1;
          polled := polled + 1;
        }
        again := rest > 0 && cnt < 2;
        ReachesMet(old(Order()), flag, start, size, gone0, Order(), j + 1, rest, gone, polls, bytes);
      }
      ReachesMet(old(Order()), flag, start, size, gone0, Order(), start + cnt, rest, gone, polls, bytes);
    }

    /** Passes over both lists, twice around, until the request is met. */
    method Evict(size: nat, flag: bool, polls: nat -> set<nat>) returns (ok: bool, ghost gone: seq<nat>)
      requires Valid() && size < 0x1_0000_0000_0000_0000
      modifies `links, `heads, `ids, `free, `freelist, `cacheentry, `cachelist
      ensures Valid() && Took(old(Order()), Order(), gone, polls)
      ensures ok <==> size >= 0x8000_0000_0000_0000 || Total(gone, bytes) >= size
      ensures var first, second := if flag then RW else RO, if flag then RO else RW;
              && (!ok ==> forall t :: t in Order().Get(first) ==>
                            t !in polls(0) && t !in polls(1) && t !in polls(4) && t !in polls(5))
              && (!ok ==> forall t :: t in Order().Get(second) ==>
                            t !in polls(2) && t !in polls(3) && t !in polls(6) && t !in polls(7))
              && (Order().Get(second) != old(Order()).Get(second) ==>
                    && Total(Only(old(Order()).Get(first), polls(0), true), bytes) < size
                    && forall t :: t in Order().Get(first) ==> t !in polls(0) && t !in polls(1))
    {
      hide Sound, Agree, OrderOf, Total, Progress, Reaches, Only;
      var rest, polled, l := size, 0, 0;
      gone := [];
      ProgressFrom(size, bytes);
      assert Took(Order(), Order(), gone, polls);
      hide Took;
      TheLists(flag);
      ReachesFrom(Order(), flag, 0, size, [], polls, bytes);
      while l < 4
        invariant Valid() && Progress(size, rest, gone, bytes) && Took(old(Order()), Order(), gone, polls)
        invariant 0 <= l <= 4 && (l > 0 && size >= WORD / 2 ==> rest == 0) && (rest > 0 ==> polled == 2 * l)
        invariant Reaches(old(Order()), flag, 0, size, [], Order(), 2 * l, rest, gone, polls, bytes)
      {
        if rest > 0 {
          ghost var now, rest0, gone0 := Order(), rest, gone;
          var w := if flag == (l % 2 == 0) then RW else RO;
          rest, polled, gone := EvictTwice(w, rest, polled, polls, size, gone, flag);
          ReachesOn(old(Order()), flag, 0, size, [], now, 2 * l, rest0, gone0, Order(), 2 * l + 2, rest, gone,
              polls, bytes);
        } else {
          ReachesMet(old(Order()), flag, 0, size, [], Order(), 2 * l, rest, gone, polls, bytes);
        }
        l := l + 1;
      }
      ProgressEnds(size, rest, gone, bytes);
      ok := rest == 0;
      ReachesEnds(old(Order()), flag, size, Order(), rest, gone, polls, bytes);
    }

    // ----- Walks -----

    /** The consistency check of both lists. */
    method Check() returns (ok: bool)
      requires Valid()
      ensures ok
    {
      ok := CheckList(RO);
      var rest := CheckList(RW);
      ok := ok && rest;
    }

    /** Every entry is the one its replica names, on the list its replica names. */
    method CheckList(w: Which) returns (ok: bool)
      requires Valid()
      ensures ok
    {
      hide Sound, Agree;
      ghost var k := 0;
      var curr := heads.Get(w).beg;
      ok := true;
      ListEnds(links, heads, freelist, ids, free, w);
      while curr != NULL
        invariant ok && 0 <= k <= |ids.Get(w)| && curr == IdAt(ids.Get(w), k) && (curr == NULL <==> k == |ids.Get(w)|)
        decreases |ids.Get(w)| - k
      {
        EntryAt(links, heads, freelist, tile, cacheentry, cachelist, ids, free, w, k);
        NextEntry(links, heads, freelist, ids, free, w, k);
        var t := tile[curr];
        if t in cacheentry && cacheentry[t] != curr { ok := false; }
        if t in cachelist && cachelist[t] != w { ok := false; }
        curr := links[curr].next;
        k := k + 1;
      }
    }

    /** Copies to the host the tiles of the written list that are stale there. */
    method WriteBackAll(stale: set<nat>) returns (sent: seq<nat>)
      requires Valid()
      ensures sent == Only(Order().rw, stale, true)
    {
      hide Sound, Agree, Only;
      ghost var k := 0;
      ghost var names := Names(tile, ids.rw);
      var curr := heads.rw.beg;
      sent := [];
      ListEnds(links, heads, freelist, ids, free, RW);
      assert Only(names[..0], stale, true) == [] by { OnlyNone(stale); }
      while curr != NULL
        invariant 0 <= k <= |ids.rw| && curr == IdAt(ids.rw, k) && (curr == NULL <==> k == |ids.rw|)
        invariant sent == Only(names[..k], stale, true)
        decreases |ids.rw| - k
      {
        EntryAt(links, heads, freelist, tile, cacheentry, cachelist, ids, free, RW, k);
        NextEntry(links, heads, freelist, ids, free, RW, k);
        OnlyAppend(names[..k], names[k], stale, true);
        assert names[..k + 1] == names[..k] + [names[k]];
        if tile[curr] in stale { sent := sent + [tile[curr]]; }
        curr := links[curr].next;
        k := k + 1;
      }
      assert names[..k] == names;
    }
  }

  function Tally(o: Order): multiset<nat> { multiset(o.ro) + multiset(o.rw) }

  /** What is left of the request, after some passes. */
  ghost predicate Progress(size: nat, rest: nat, gone: seq<nat>, bytes: nat -> nat) {
    && rest <= size < WORD
    && if size < WORD / 2 then rest == Monus(size, Total(gone, bytes)) else rest == 0 || rest == size
  }

  lemma ProgressFrom(size: nat, bytes: nat -> nat)
    requires size < WORD
    ensures Progress(size, size, [], bytes)
  {
  }

  lemma ProgressEnds(size: nat, rest: nat, gone: seq<nat>, bytes: nat -> nat)
    requires Progress(size, rest, gone, bytes) && (size >= WORD / 2 ==> rest == 0)
    ensures rest == 0 <==> size >= WORD / 2 || Total(gone, bytes) >= size
  {
  }

  /** The evicted tiles are exactly those missing from the lists, and each could be evicted at some time. */
  ghost predicate Took(before: Order, now: Order, gone: seq<nat>, polls: nat -> set<nat>) {
    && Tally(now) + multiset(gone) == Tally(before)
    && forall t :: t in gone ==> exists i: nat :: t in polls(i)
  }

  lemma PassProgress(size: nat, rest: nat, gone: seq<nat>, o: Order, w: Which, evictable: set<nat>, bytes: nat -> nat)
    requires Progress(size, rest, gone, bytes) && rest > 0
    ensures rest < WORD
    ensures var r := Sweep(o.Get(w), evictable, bytes, Aim(rest));
            && Progress(size, Missing(rest, r.left), gone + r.evicted, bytes)
            && (size >= WORD / 2 ==> Missing(rest, r.left) == 0)
  {
    PassReports(o.Get(w), evictable, bytes, rest);
    TotalConcat(gone, Sweep(o.Get(w), evictable, bytes, Aim(rest)).evicted, bytes);
    hide Sweep, Total, Aim;
  }

  lemma TookMore(o: Order, w: Which, polled: nat, rest: nat, gone: seq<nat>, polls: nat -> set<nat>, bytes: nat -> nat)
    ensures var r := Sweep(o.Get(w), polls(polled), bytes, Aim(rest));
            forall before :: Took(before, o, gone, polls) ==> Took(before, o.Set(w, r.kept), gone + r.evicted, polls)
  {
    SweepSplits(o.Get(w), polls(polled), bytes, Aim(rest));
    var front, back := SweepCuts(o.Get(w), polls(polled), bytes, Aim(rest));
    OnlyMembers(back, polls(polled), true);
    hide Sweep, Total, Only, Aim;
  }

  lemma EraseAgrees(m: Store, heads: Pair<Heads>, freelist: nat, tile: map<nat, nat>, entry: map<nat, nat>,
                    list: map<nat, Which>, ids: Pair<seq<nat>>, free: seq<nat>, w: Which, k: nat)
    requires Sound(m, heads, freelist, ids, free) && Agree(tile, entry, list, ids) && k < |ids.Get(w)|
    ensures var id, rest := ids.Get(w)[k], ids.Set(w, Removed(ids.Get(w), k));
            && id in tile && id != NULL && id !in rest.ro && id !in rest.rw && id !in free
            && Agree(tile, entry - {tile[id]}, list - {tile[id]}, rest)
  {
    RemovedLess(ids, w, k);
    FreshOnceRemoved(ids, free, w, k);
    hide Sound, Removed;
    EvictAgrees(tile, entry, list, ids, ids.Set(w, Removed(ids.Get(w), k)), ids.Get(w)[k], w);
  }

  lemma ListEnds(m: Store, heads: Pair<Heads>, freelist: nat, ids: Pair<seq<nat>>, free: seq<nat>, w: Which)
    requires Sound(m, heads, freelist, ids, free)
    ensures heads.Get(w).beg == IdAt(ids.Get(w), 0) && heads.Get(w).end == IdAt(ids.Get(w), |ids.Get(w)| - 1)
    ensures heads.Get(w).end == NULL <==> ids.Get(w) == []
    ensures heads.Get(w).beg == NULL <==> ids.Get(w) == []
  {
  }

  lemma NextEntry(m: Store, heads: Pair<Heads>, freelist: nat, ids: Pair<seq<nat>>, free: seq<nat>, w: Which, k: nat)
    requires Sound(m, heads, freelist, ids, free) && k < |ids.Get(w)|
    ensures IdAt(ids.Get(w), k + 1) == NULL <==> k + 1 == |ids.Get(w)|
  {
  }

  lemma OnlyNone(evictable: set<nat>)
    ensures Only([], evictable, true) == []
  {
  }

  lemma EntryAt(m: Store, heads: Pair<Heads>, freelist: nat, tile: map<nat, nat>, entry: map<nat, nat>,
                list: map<nat, Which>, ids: Pair<seq<nat>>, free: seq<nat>, w: Which, k: nat)
    requires Sound(m, heads, freelist, ids, free) && Agree(tile, entry, list, ids) && k < |ids.Get(w)|
    ensures var id := ids.Get(w)[k];
            && id in m && m[id] == Links(IdAt(ids.Get(w), k - 1), IdAt(ids.Get(w), k + 1)) && id != NULL
            && Points(tile, entry, list, id, w)
  {
    assert LinkedAt(m, ids.Get(w), k);
    assert ids.Get(w)[k] in ids.Get(w);
  }

  /** The names around a visited entry, kept or erased. */
  lemma Visited(tile: map<nat, nat>, ids: seq<nat>, k: nat)
    requires k < |ids|
    ensures var names, names' := Names(tile, ids), Names(tile, Removed(ids, k));
            && names[k..] == [names[k]] + names[k + 1..]
            && names'[..k] == names[..k] && names'[k..] == names[k + 1..]
            && k <= |Removed(ids, k)| && IdAt(Removed(ids, k), k - 1) == IdAt(ids, k - 1)
  {
    NamesRemoved(tile, ids, k);
  }

  /** A pass that stands at k, with tail kept and gone evicted behind it. */
  ghost predicate Continues(s: seq<nat>, evictable: set<nat>, bytes: nat -> nat, need0: nat, k: nat, need: nat,
                            tail: seq<nat>, gone: seq<nat>)
  {
    && k <= |s|
    && var r := Sweep(s[..k], evictable, bytes, need);
       Sweep(s, evictable, bytes, need0) == Swept(r.kept + tail, r.evicted + gone, r.left)
  }

  lemma ContinuesNext(s: seq<nat>, evictable: set<nat>, bytes: nat -> nat, need0: nat, k: nat, need: nat,
                      tail: seq<nat>, gone: seq<nat>)
    requires Continues(s, evictable, bytes, need0, k, need, tail, gone) && k > 0 && need > 0
    ensures var t := s[k - 1];
            if t in evictable
            then Continues(s, evictable, bytes, need0, k - 1, Monus(need, bytes(t)), tail, [t] + gone)
            else Continues(s, evictable, bytes, need0, k - 1, need, [t] + tail, gone)
  {
    var t := s[k - 1];
    assert s[..k][..k - 1] == s[..k - 1];
    var r := Sweep(s[..k - 1], evictable, bytes, if t in evictable then Monus(need, bytes(t)) else need);
    assert (r.evicted + [t]) + gone == r.evicted + ([t] + gone);
    assert (r.kept + [t]) + tail == r.kept + ([t] + tail);
  }

  lemma ContinuesEnds(s: seq<nat>, evictable: set<nat>, bytes: nat -> nat, need0: nat, k: nat, need: nat,
                      tail: seq<nat>, gone: seq<nat>)
    requires Continues(s, evictable, bytes, need0, k, need, tail, gone) && (k == 0 || need == 0)
    ensures Sweep(s, evictable, bytes, need0) == Swept(s[..k] + tail, gone, need)
  {
    assert need == 0 || s[..k] == [];
    assert Sweep(s[..k], evictable, bytes, need) == Swept(s[..k], [], need);
    hide Sweep;
    assert [] + gone == gone;
  }

  /** The pass stands at entry k - 1 of a list that was s when it began. */
  ghost predicate Passing(tile: map<nat, nat>, ids: seq<nat>, s: seq<nat>, evictable: set<nat>, bytes: nat -> nat,
                          need0: nat, k: nat, curr: nat, need: nat, gone: seq<nat>)
  {
    && k <= |ids| && k <= |s| && curr == IdAt(ids, k - 1) && (curr == NULL <==> k == 0)
    && Names(tile, ids)[..k] == s[..k]
    && Continues(s, evictable, bytes, need0, k, need, Names(tile, ids)[k..], gone)
  }

  lemma PassingFrom(m: Store, heads: Pair<Heads>, freelist: nat, tile: map<nat, nat>, ids: Pair<seq<nat>>,
                    free: seq<nat>, w: Which, evictable: set<nat>, bytes: nat -> nat, need: nat)
    requires Sound(m, heads, freelist, ids, free)
    ensures Passing(tile, ids.Get(w), OrderOf(tile, ids).Get(w), evictable, bytes, need,
                    |ids.Get(w)|, heads.Get(w).end, need, [])
  {
    var s := Names(tile, ids.Get(w));
    assert s[..|s|] == s && s[|s|..] == [];
    hide Sweep;
  }

  lemma PassingAt(tile: map<nat, nat>, ids: seq<nat>, s: seq<nat>, evictable: set<nat>, bytes: nat -> nat,
                  need0: nat, k: nat, curr: nat, need: nat, gone: seq<nat>)
    requires Passing(tile, ids, s, evictable, bytes, need0, k, curr, need, gone)
    ensures curr != NULL ==> 0 < k <= |ids| && curr == ids[k - 1]
  {
  }

  lemma PassingNext(tile: map<nat, nat>, ids: seq<nat>, s: seq<nat>, evictable: set<nat>, bytes: nat -> nat,
                    need0: nat, k: nat, curr: nat, need: nat, gone: seq<nat>)
    requires Passing(tile, ids, s, evictable, bytes, need0, k, curr, need, gone)
    requires curr != NULL && need > 0 && Distinct(ids) && curr in tile
    ensures var t := tile[curr];
            if t in evictable
            then Passing(tile, Removed(ids, k - 1), s, evictable, bytes, need0, k - 1, IdAt(ids, k - 2),
                         Monus(need, bytes(t)), [t] + gone)
            else Passing(tile, ids, s, evictable, bytes, need0, k - 1, IdAt(ids, k - 2), need, gone)
  {
    var names := Names(tile, ids);
    ContinuesNext(s, evictable, bytes, need0, k, need, names[k..], gone);
    hide Continues, Removed;
    Visited(tile, ids, k - 1);
    assert tile[curr] == names[..k][k - 1] == s[k - 1];
    assert s[..k - 1] == s[..k][..k - 1] == names[..k - 1];
  }

  lemma PassingEnds(tile: map<nat, nat>, ids: Pair<seq<nat>>, ids0: Pair<seq<nat>>, w: Which, before: Order,
                    evictable: set<nat>, bytes: nat -> nat, need0: nat, k: nat, curr: nat, need: nat, gone: seq<nat>)
    requires before == OrderOf(tile, ids0) && ids.Get(Other(w)) == ids0.Get(Other(w))
    requires Passing(tile, ids.Get(w), before.Get(w), evictable, bytes, need0, k, curr, need, gone)
    requires curr == NULL || need == 0
    ensures var r := Sweep(before.Get(w), evictable, bytes, need0);
            OrderOf(tile, ids) == before.Set(w, r.kept) && gone == r.evicted && need == r.left
  {
    var names := Names(tile, ids.Get(w));
    ContinuesEnds(before.Get(w), evictable, bytes, need0, k, need, names[k..], gone);
    hide Sweep;
    assert names[..k] + names[k..] == names;
  }

  /** rest is ids without the entry of t, which is id; a new tile has none. */
  ghost predicate Detached(entry: map<nat, nat>, list: map<nat, Which>, ids: Pair<seq<nat>>, rest: Pair<seq<nat>>,
                           t: nat, id: nat, k: nat)
  {
    && id !in rest.ro && id !in rest.rw && Less(ids, rest, id)
    && (t !in entry ==> rest == ids)
    && (t in entry ==>
          && t in list && k < |ids.Get(list[t])| && ids.Get(list[t])[k] == entry[t] == id
          && rest == ids.Set(list[t], Removed(ids.Get(list[t]), k)))
  }

  lemma SoundDistinct(m: Store, heads: Pair<Heads>, freelist: nat, ids: Pair<seq<nat>>, free: seq<nat>)
    requires Sound(m, heads, freelist, ids, free)
    ensures Distinct(ids.ro) && Distinct(ids.rw)
  {
  }

  /** The list of a touched replica: that of its mode, unless it was written and the host copy is stale. */
  function NewList(list: map<nat, Which>, t: nat, write: bool, hostValid: bool): Which {
    if write || (t in list && list[t] == RW && !hostValid) then RW else RO
  }

  lemma NewEntry(m: Store, heads: Pair<Heads>, freelist: nat, ids: Pair<seq<nat>>, free: seq<nat>, id: nat)
    requires Sound(m, heads, freelist, ids, free) && id !in m && id != NULL
    ensures Sound(m[id := Links(NULL, NULL)], heads, freelist, ids, free)
    ensures id !in ids.ro && id !in ids.rw && id !in free
  {
    var m' := m[id := Links(NULL, NULL)];
    Members(m, ids.ro);
    Members(m, ids.rw);
    forall k | 0 <= k < |free|
      ensures free[k] in m
    {
      assert FreeAt(m, free, k);
    }
    SameLinks(m, m', ids.ro);
    SameLinks(m, m', ids.rw);
    FreeSame(m, m', freelist, free);
  }

  lemma CachedAt(tile: map<nat, nat>, entry: map<nat, nat>, list: map<nat, Which>, ids: Pair<seq<nat>>, t: nat)
    returns (k: nat)
    requires Agree(tile, entry, list, ids) && t in entry
    ensures t in list && k < |ids.Get(list[t])| && ids.Get(list[t])[k] == entry[t]
  {
    k :| 0 <= k < |ids.Get(list[t])| && ids.Get(list[t])[k] == entry[t];
  }

  lemma RemovedLess(ids: Pair<seq<nat>>, w: Which, k: nat)
    requires k < |ids.Get(w)| && Distinct(ids.Get(w)) && Apart(ids.ro, ids.rw)
    ensures Less(ids, ids.Set(w, Removed(ids.Get(w), k)), ids.Get(w)[k])
  {
    RemovedMembers(ids.Get(w), k);
  }

  lemma FreshOnceRemoved(ids: Pair<seq<nat>>, free: seq<nat>, w: Which, k: nat)
    requires k < |ids.Get(w)| && Distinct(ids.Get(w)) && Apart(ids.ro, ids.rw) && Apart(ids.ro, free)
              && Apart(ids.rw, free)
    ensures var id, rest := ids.Get(w)[k], ids.Set(w, Removed(ids.Get(w), k));
            id != NULL && id !in rest.ro && id !in rest.rw && id !in free
  {
    RemovedMembers(ids.Get(w), k);
  }

  // ----- The order of the tiles -----

  /** A tile is on the list its replica names, and nowhere else. */
  lemma NamedOn(tile: map<nat, nat>, entry: map<nat, nat>, list: map<nat, Which>, ids: Pair<seq<nat>>, t: nat, w: Which)
    requires Agree(tile, entry, list, ids)
    ensures t in Names(tile, ids.Get(w)) <==> t in entry && list[t] == w
  {
    var names := Names(tile, ids.Get(w));
    if t in names {
      var i :| 0 <= i < |names| && names[i] == t;
      assert ids.Get(w)[i] in ids.Get(w);
      assert Points(tile, entry, list, ids.Get(w)[i], w);
    }
    if t in entry && list[t] == w {
      var i := CachedAt(tile, entry, list, ids, t);
      assert names[i] == t;
    }
  }

  /** The names of a list are distinct. */
  lemma NamedOnce(tile: map<nat, nat>, entry: map<nat, nat>, list: map<nat, Which>, ids: Pair<seq<nat>>, w: Which,
                  i: nat, j: nat)
    requires Agree(tile, entry, list, ids) && Distinct(ids.Get(w)) && i < j < |ids.Get(w)|
    ensures Names(tile, ids.Get(w))[i] != Names(tile, ids.Get(w))[j]
  {
    assert ids.Get(w)[i] in ids.Get(w) && ids.Get(w)[j] in ids.Get(w);
    assert Points(tile, entry, list, ids.Get(w)[i], w) && Points(tile, entry, list, ids.Get(w)[j], w);
  }

  /** Without the tile, a list is the same or has lost the one entry. */
  lemma WithoutNames(tile: map<nat, nat>, entry: map<nat, nat>, list: map<nat, Which>, ids: Pair<seq<nat>>, t: nat,
                     w: Which, k: nat)
    requires Agree(tile, entry, list, ids) && Distinct(ids.Get(w))
    requires t in entry && list[t] == w ==> k < |ids.Get(w)| && ids.Get(w)[k] == entry[t]
    ensures Without(Names(tile, ids.Get(w)), t)
         == Names(tile, if t in entry && list[t] == w then Removed(ids.Get(w), k) else ids.Get(w))
  {
    NamedOn(tile, entry, list, ids, t, w);
    var names := Names(tile, ids.Get(w));
    if t in entry && list[t] == w {
      forall j | 0 <= j < |names| && j != k
        ensures names[j] != names[k]
      {
        if j < k { NamedOnce(tile, entry, list, ids, w, j, k); } else { NamedOnce(tile, entry, list, ids, w, k, j); }
      }
      WithoutAt(names, k);
      NamesRemoved(tile, ids.Get(w), k);
    } else {
      WithoutAbsent(names, t);
    }
  }

  lemma NamesUnaffected(tile: map<nat, nat>, ids: seq<nat>, id: nat, t: nat)
    requires id !in ids
    ensures Names(tile[id := t], ids) == Names(tile, ids)
    ensures Names(tile[id := t], [id] + ids) == [t] + Names(tile, ids)
  {
  }

  lemma TouchOrder(tile: map<nat, nat>, entry: map<nat, nat>, list: map<nat, Which>, ids: Pair<seq<nat>>,
                   rest: Pair<seq<nat>>, t: nat, id: nat, write: bool, hostValid: bool, k: nat)
    requires Agree(tile, entry, list, ids) && Distinct(ids.ro) && Distinct(ids.rw)
    requires Detached(entry, list, ids, rest, t, id, k)
    ensures var w := NewList(list, t, write, hostValid);
            OrderOf(tile[id := t], rest.Set(w, [id] + rest.Get(w))) == Touched(OrderOf(tile, ids), t, write, hostValid)
  {
    WithoutNames(tile, entry, list, ids, t, RO, k);
    WithoutNames(tile, entry, list, ids, t, RW, k);
    NamedOn(tile, entry, list, ids, t, RW);
    NamesUnaffected(tile, rest.ro, id, t);
    NamesUnaffected(tile, rest.rw, id, t);
    assert t in entry <==> t in list;
    hide Agree, Names, Without;
  }

  lemma TouchKeeps(tile: map<nat, nat>, entry: map<nat, nat>, list: map<nat, Which>, ids: Pair<seq<nat>>,
                   rest: Pair<seq<nat>>, t: nat, id: nat, write: bool, hostValid: bool, k: nat)
    requires Agree(tile, entry, list, ids) && Distinct(ids.ro) && Distinct(ids.rw)
    requires Detached(entry, list, ids, rest, t, id, k)
    ensures var w := NewList(list, t, write, hostValid);
            && Agree(tile[id := t], entry[t := id], list[t := w], rest.Set(w, [id] + rest.Get(w)))
            && OrderOf(tile[id := t], rest.Set(w, [id] + rest.Get(w)))
                 == Touched(OrderOf(tile, ids), t, write, hostValid)
  {
    TouchOrder(tile, entry, list, ids, rest, t, id, write, hostValid, k);
    hide Agree, Less;
    TouchAgrees(tile, entry, list, ids, rest, t, id, NewList(list, t, write, hostValid));
  }
}
