/**
 The replica directory of one tile (kaapi_metadata_info): which address spaces
 hold a valid copy, have a buffer, or are receiving one, with the pin counts and
 the callback lists. Address space 0 is the host.
 */
module Replicas {
  import opened TileTasks

  const MAX_NODES: nat := 16
  const HOST: nat := 0

  /** What runs when data arrives: wake a task, forward to another replica, or anything else. */
  datatype Callback = Notify(task: nat) | Resend(dest: nat) | Other

  /** An asynchronous copy that has been posted and has not completed. */
  datatype Copy = Copy(src: nat, dst: nat)

  datatype Dir = Dir(valid: set<nat>, alloc: set<nat>, xfer: set<nat>, pins: seq<nat>, cbk: seq<seq<Callback>>,
                     posted: seq<Copy>)

  predicate Sized(d: Dir) {
    && |d.pins| == MAX_NODES && |d.cbk| == MAX_NODES
    && (forall l :: l in d.valid ==> l < MAX_NODES)
    && (forall l :: l in d.alloc ==> l < MAX_NODES)
    && (forall l :: l in d.xfer ==> l < MAX_NODES)
    && (forall c :: c in d.posted ==> c.src < MAX_NODES && c.dst < MAX_NODES)
    && (forall l, c :: 0 <= l < MAX_NODES && c in d.cbk[l] && c.Resend? ==> c.dest < MAX_NODES)
  }

  predicate Reads(m: Mode) { m != W }
  predicate Writes(m: Mode) { m != R }

  // ----- Specification of the operations -----

  /** The first callback sits in the replica; later ones are chained right behind it. */
  function AddCallback(list: seq<Callback>, c: Callback): seq<Callback> {
    if list == [] then [c] else [list[0], c] + list[1..]
  }

  function Register(d: Dir, l: nat, c: Callback): Dir
    requires l < |d.cbk|
  {
    d.(cbk := d.cbk[l := AddCallback(d.cbk[l], c)])
  }

  /** The list has the callbacks it had and these, whatever the order. */
  predicate Gains(list: seq<Callback>, list': seq<Callback>, more: seq<Callback>) {
    multiset(list') == multiset(list) + multiset(more)
  }

  lemma AddGains(list: seq<Callback>, c: Callback)
    ensures Gains(list, AddCallback(list, c), [c]) && AddCallback(list, c)[0] == (list + [c])[0]
  {
    if list != [] {
      assert list == [list[0]] + list[1..];
    }
  }

  /** kaapi_dsm_fetch_on, once its source has been selected. */
  function Fetch(d: Dir, dst: nat, src: nat, c: Callback): Dir
    requires Sized(d) && dst < MAX_NODES && src < MAX_NODES
  {
    if dst in d.valid then d
    else if dst in d.xfer then Register(d, dst, c)
    else if src in d.xfer then Register(Register(d, dst, c).(xfer := d.xfer + {dst}), src, Resend(dst))
    else Register(d, dst, c).(xfer := d.xfer + {dst}, posted := d.posted + [Copy(src, dst)])
  }

  /** What a fetch does to each callback list. */
  lemma FetchGains(d: Dir, dst: nat, src: nat, c: Callback)
    requires Sized(d) && dst < MAX_NODES && src < MAX_NODES
    ensures var d' := Fetch(d, dst, src, c);
            && |d'.cbk| == MAX_NODES
            && forall l :: 0 <= l < MAX_NODES ==>
                 Gains(d.cbk[l], d'.cbk[l],
                       if l == dst && dst !in d.valid then [c]
                      else if l == src && dst !in d.valid && dst !in d.xfer && src in d.xfer then [Resend(dst)] else [])
  {
    hide AddCallback, Gains;
    AddGains(d.cbk[dst], c);
    AddGains(d.cbk[src], Resend(dst));
    forall l | 0 <= l < MAX_NODES
      ensures Gains(d.cbk[l], d.cbk[l], [])
    {
      GainsNothing(d.cbk[l]);
    }
  }

  lemma GainsNothing(list: seq<Callback>)
    ensures Gains(list, list, [])
  {
  }

  function Pin(d: Dir, l: nat): Dir
    requires l < |d.pins|
  {
    d.(pins := d.pins[l := d.pins[l] + 1])
  }

  /** kaapi_dsm_acquire_data for task t. */
  function Acquire(d: Dir, l: nat, m: Mode, src: nat, t: nat): Dir
    requires Sized(d) && l < MAX_NODES && src < MAX_NODES
  {
    var d1 := Pin(d, l).(alloc := d.alloc + {l});
    var d2 := if Reads(m) then Fetch(d1, l, src, Notify(t)) else d1;
    if Writes(m) then d2.(valid := {l}) else d2
  }

  /** kaapi_dsm_release_data. */
  function Release(d: Dir, l: nat): Dir
    requires l < |d.pins| && d.pins[l] > 0
  {
    d.(pins := d.pins[l := d.pins[l] - 1])
  }

  /** kaapi_dsm_prefetch_on. */
  function Prefetch(d: Dir, l: nat, src: nat): Dir
    requires Sized(d) && l < MAX_NODES && src < MAX_NODES
  {
    Fetch(d.(alloc := d.alloc + {l}), l, src, Other)
  }

  /** The test under which a cache entry is evicted. */
  predicate Removable(d: Dir, l: nat)
    requires l < |d.pins|
  {
    d.pins[l] == 0 && d.valid - {l} != {}
  }

  /** The same, of a replica that has a buffer; the code asserts this of every cached one. */
  predicate Evictable(d: Dir, l: nat)
    requires l < |d.pins|
  {
    l in d.alloc && Removable(d, l)
  }

  lemma OthersHold(valid: set<nat>, l: nat)
    ensures valid - {l} != {} <==> exists x :: x in valid && x != l
  {
    if valid - {l} != {} {
      var x :| x in valid - {l};
    }
    if x :| x in valid && x != l {
      assert x in valid - {l};
    }
  }

  /** An unpinned replica that is not valid can always be evicted, as long as there is a valid one. */
  lemma IdleRemovable(d: Dir, l: nat)
    requires l < |d.pins| && d.pins[l] == 0 && l !in d.valid && d.valid != {}
    ensures Removable(d, l)
  {
    assert d.valid - {l} == d.valid;
  }

  function Evict(d: Dir, l: nat): Dir {
    d.(valid := d.valid - {l}, alloc := d.alloc - {l})
  }

  /** The copies that the callbacks of a receiving replica post. */
  function Forwards(list: seq<Callback>, l: nat): seq<Copy> {
    if list == [] then []
    else (if list[0].Resend? then [Copy(l, list[0].dest)] else []) + Forwards(list[1..], l)
  }

  /** The tasks that the callbacks of a receiving replica wake. */
  function Woken(list: seq<Callback>): seq<nat> {
    if list == [] then []
    else (if list[0].Notify? then [list[0].task] else []) + Woken(list[1..])
  }

  /** The receive callback, at the completion of the n-th posted copy. */
  function Receive(d: Dir, n: nat): Dir
    requires Sized(d) && n < |d.posted|
  {
    var l := d.posted[n].dst;
    d.(valid := d.valid + {l}, xfer := d.xfer - {l}, cbk := d.cbk[l := []],
       posted := d.posted[..n] + d.posted[n + 1..] + Forwards(d.cbk[l], l))
  }

  /** What _kaapi_get_source_lid may return: the host only when no device holds or awaits the data. */
  predicate MaySelect(d: Dir, src: nat) {
    if d.valid - {HOST} == {} && d.xfer - {HOST} == {} then src == HOST
    else if d.valid - {HOST} != {} then src in d.valid - {HOST}
    else src in d.xfer - {HOST}
  }

  /** A device that holds the data comes first, then one that awaits it, and the host last. */
  lemma SelectsExactly(d: Dir, src: nat)
    ensures MaySelect(d, src) <==>
            if exists l :: l in d.valid && l != 0 then src in d.valid && src != 0
            else if exists l :: l in d.xfer && l != 0 then src in d.xfer && src != 0
            else src == 0
  {
    OthersHold(d.valid, HOST);
    OthersHold(d.xfer, HOST);
  }

  /** Whatever is selected holds the data or is about to. */
  lemma SelectedHolds(d: Dir, src: nat)
    requires d.valid != {} && MaySelect(d, src)
    ensures src in d.valid || src in d.xfer
  {
    if d.valid - {HOST} == {} && d.xfer - {HOST} == {} {
      var v :| v in d.valid;
      assert v == HOST || v in d.valid - {HOST};
    }
  }

  lemma CallbackStep(list: seq<Callback>, k: nat, l: nat)
    requires k < |list|
    ensures Woken(list[k..]) == (if list[k].Notify? then [list[k].task] else []) + Woken(list[k + 1..])
    ensures Forwards(list[k..], l)
              == (if list[k].Resend? then [Copy(l, list[k].dest)] else []) + Forwards(list[k + 1..], l)
  {
    assert list[k..][1..] == list[k + 1..];
  }

  /** The callbacks wake the tasks they name and forward to the replicas they name, once per callback. */
  lemma {:induction false} ListCounts(list: seq<Callback>, l: nat)
    ensures forall t :: multiset(Woken(list))[t] == multiset(list)[Notify(t)]
    ensures forall c :: multiset(Forwards(list, l))[c] == if c.src == l then multiset(list)[Resend(c.dst)] else 0
  {
    if list != [] {
      ListCounts(list[1..], l);
      assert list == [list[0]] + list[1..];
      assert multiset(list) == multiset{list[0]} + multiset(list[1..]);
      var c := list[0];
      assert multiset(Woken(list)) == multiset(if c.Notify? then [c.task] else []) + multiset(Woken(list[1..]));
      assert multiset(Forwards(list, l))
          == multiset(if c.Resend? then [Copy(l, c.dest)] else []) + multiset(Forwards(list[1..], l));
      hide Woken, Forwards;
    }
  }

  lemma RemoveCount(s: seq<Copy>, n: nat)
    requires n < |s|
    ensures multiset(s[..n] + s[n + 1..]) == multiset(s) - multiset{s[n]} && s[n] in multiset(s)
  {
    assert s == s[..n] + [s[n]] + s[n + 1..];
  }

  /** What a delivery does to the posted copies. */
  lemma ReceiveCounts(d: Dir, n: nat)
    requires Sized(d) && n < |d.posted|
    ensures var l := d.posted[n].dst; var list, posted := d.cbk[l], Receive(d, n).posted;
            && (forall t :: multiset(Woken(list))[t] == multiset(list)[Notify(t)])
            && |posted| >= n && posted[..n] == d.posted[..n]
            && (forall c :: multiset(posted)[c] == multiset(d.posted)[c] - (if c == d.posted[n] then 1 else 0)
                                                   + (if c.src == l then multiset(list)[Resend(c.dst)] else 0))
  {
    var l := d.posted[n].dst;
    assert d.posted[n] in d.posted;
    ListCounts(d.cbk[l], l);
    RemoveCount(d.posted, n);
    hide Woken, Forwards;
    var rest := d.posted[..n] + d.posted[n + 1..];
    assert Receive(d, n).posted == rest + Forwards(d.cbk[l], l);
    assert multiset(rest + Forwards(d.cbk[l], l)) == multiset(rest) + multiset(Forwards(d.cbk[l], l));
  }

  // ----- The directory as an object -----

  const EINPROGRESS := 115

  class Metadata {
    var valid: set<nat>
    var alloc: set<nat>
    var xfer: set<nat>
    var pinned: seq<nat>
    var callbacks: seq<seq<Callback>>
    var posted: seq<Copy>

    function View(): Dir
      reads this
    {
      Dir(valid, alloc, xfer, pinned, callbacks, posted)
    }

    /** A new tile is valid, allocated and pinned on the host only. */
    constructor ()
      ensures Sized(View())
      ensures valid == alloc == {0} && xfer == {} && posted == []
      ensures pinned == [1] + seq(15, _ => 0)
      ensures callbacks == seq(16, _ => [])
    {
      valid, alloc, xfer, posted := {HOST}, {HOST}, {}, [];
      pinned := [1] + seq(MAX_NODES - 1, _ => 0);
      callbacks := seq(MAX_NODES, _ => []);
    }

    /** _allocate_callback followed by the caller's initialisation of the entry. */
    method RegisterCallback(l: nat, c: Callback)
      requires l < |callbacks|
      modifies this`callbacks
      ensures View() == Register(old(View()), l, c)
      ensures var list := old(callbacks[l]);
              callbacks == old(callbacks)[l := if list == [] then [c] else [list[0], c] + list[1..]]
    {
      if callbacks[l] == [] {
        callbacks := callbacks[l := [c]];
      } else {
        callbacks := callbacks[l := [callbacks[l][0], c] + callbacks[l][1..]];
      }
    }

    method FetchOn(dst: nat, src: nat, c: Callback) returns (err: int)
      requires Sized(View()) && dst < MAX_NODES && src < MAX_NODES
      modifies this
      ensures View() == Fetch(old(View()), dst, src, c)
      ensures err == (if dst in old(valid) then 0 else 115)
      ensures valid == old(valid) && alloc == old(alloc) && pinned == old(pinned)
      ensures xfer == if err == 0 then old(xfer) else old(xfer) + {dst}
      ensures posted == if err == 0 || dst in old(xfer) || src in old(xfer) then old(posted)
                        else old(posted) + [Copy(src, dst)]
      ensures |callbacks| == MAX_NODES
      ensures forall l :: 0 <= l < MAX_NODES ==>
                Gains(old(callbacks[l]), callbacks[l],
                      if l == dst && err != 0 then [c]
                      else if l == src && err != 0 && dst !in old(xfer) && src in old(xfer) then [Resend(dst)] else [])
    {
      FetchGains(View(), dst, src, c);
      hide Gains, AddCallback;
      if dst in valid {
        return 0;
      }
      var r, cb := dst, c;
      var d2d := src in xfer && dst !in xfer;
      if d2d {
        RegisterCallback(dst, c);
        xfer := xfer + {dst};
        r, cb := src, Resend(dst);
      }
      RegisterCallback(r, cb);
      if dst in xfer {
        return EINPROGRESS;
      }
      xfer := xfer + {dst};
      posted := posted + [Copy(src, dst)];
      return EINPROGRESS;
    }

    method AcquireData(l: nat, m: Mode, src: nat, t: nat) returns (err: int)
      requires Sized(View()) && l < MAX_NODES && src < MAX_NODES
      modifies this
      ensures View() == Acquire(old(View()), l, m, src, t)
      ensures err == (if l in old(valid) || m == W then 0 else 115)
      ensures valid == (if m == R then old(valid) else {l}) && alloc == old(alloc) + {l}
      ensures pinned == old(pinned)[l := old(pinned[l]) + 1]
      ensures xfer == if err == 0 then old(xfer) else old(xfer) + {l}
      ensures posted == if err == 0 || l in old(xfer) || src in old(xfer) then old(posted)
                        else old(posted) + [Copy(src, l)]
      ensures |callbacks| == MAX_NODES
      ensures forall x :: 0 <= x < MAX_NODES ==>
                Gains(old(callbacks[x]), callbacks[x],
                      if x == l && err != 0 then [Notify(t)]
                      else if x == src && err != 0 && l !in old(xfer) && src in old(xfer) then [Resend(l)] else [])
    {
      hide Gains;
      forall x | 0 <= x < MAX_NODES
        ensures Gains(callbacks[x], callbacks[x], [])
      {
        GainsNothing(callbacks[x]);
      }
      err := 0;
      pinned := pinned[l := pinned[l] + 1];
      if l !in alloc {
        alloc := alloc + {l};
      }
      assert alloc == old(alloc) + {l};
      if Reads(m) {
        if l !in valid {
          err := FetchOn(l, src, Notify(t));
        }
      }
      if Writes(m) {
        valid := {l};
      }
    }

    method ReleaseData(l: nat)
      requires Sized(View()) && l < MAX_NODES && pinned[l] > 0
      modifies this`pinned
      ensures View() == Release(old(View()), l)
      ensures pinned == old(pinned)[l := old(pinned[l]) - 1]
    {
      pinned := pinned[l := pinned[l] - 1];
    }

    method PrefetchOn(l: nat, src: nat) returns (err: int)
      requires Sized(View()) && l < MAX_NODES && src < MAX_NODES
      modifies this
      ensures View() == Prefetch(old(View()), l, src)
      ensures err == (if l in old(valid) then 0 else 115)
      ensures valid == old(valid) && alloc == old(alloc) + {l} && pinned == old(pinned)
      ensures xfer == if err == 0 then old(xfer) else old(xfer) + {l}
      ensures posted == if err == 0 || l in old(xfer) || src in old(xfer) then old(posted)
                        else old(posted) + [Copy(src, l)]
      ensures |callbacks| == MAX_NODES
      ensures forall x :: 0 <= x < MAX_NODES ==>
                Gains(old(callbacks[x]), callbacks[x],
                      if x == l && err != 0 then [Other]
                      else if x == src && err != 0 && l !in old(xfer) && src in old(xfer) then [Resend(l)] else [])
    {
      hide Gains;
      forall x | 0 <= x < MAX_NODES
        ensures Gains(callbacks[x], callbacks[x], [])
      {
        GainsNothing(callbacks[x]);
      }
      if l !in alloc {
        alloc := alloc + {l};
      }
      assert alloc == old(alloc) + {l};
      if l !in valid {
        err := FetchOn(l, src, Other);
      } else {
        err := 0;
      }
    }

    /** One entry of an eviction pass. */
    method TryEvict(l: nat) returns (evicted: bool)
      requires Sized(View()) && l < MAX_NODES
      modifies this
      ensures evicted <==> Removable(old(View()), l)
      ensures evicted <==> old(pinned[l]) == 0 && exists x :: x in old(valid) && x != l
      ensures View() == if evicted then Evict(old(View()), l) else old(View())
      ensures valid == (if evicted then old(valid) - {l} else old(valid))
      ensures alloc == (if evicted then old(alloc) - {l} else old(alloc))
      ensures xfer == old(xfer) && pinned == old(pinned) && callbacks == old(callbacks) && posted == old(posted)
    {
      OthersHold(valid, l);
      evicted := pinned[l] == 0 && valid - {l} != {};
      if evicted {
        valid := valid - {l};
        alloc := alloc - {l};
      }
    }

    /** callback_activate_replica_on_receive_cbk: marks the replica and runs its callbacks in list order. */
    method OnReceive(n: nat) returns (woken: seq<nat>)
      requires Sized(View()) && n < |posted|
      modifies this
      ensures View() == Receive(old(View()), n)
      ensures woken == Woken(old(callbacks[posted[n].dst]))
      ensures var l := old(posted[n]).dst;
              && valid == old(valid) + {l} && xfer == old(xfer) - {l} && alloc == old(alloc) && pinned == old(pinned)
              && callbacks == old(callbacks)[l := []]
    {
      var l := posted[n].dst;
      posted := posted[..n] + posted[n + 1..];
      valid := valid + {l};
      xfer := xfer - {l};
      var list := callbacks[l];
      var k := 0;
      woken := [];
      ghost var rest := posted;
      while k < |list|
        invariant 0 <= k <= |list|
        invariant woken + Woken(list[k..]) == Woken(list)
        invariant posted + Forwards(list[k..], l) == rest + Forwards(list, l)
        invariant valid == old(valid) + {l} && xfer == old(xfer) - {l}
        invariant alloc == old(alloc) && pinned == old(pinned) && callbacks == old(callbacks)
      {
        CallbackStep(list, k, l);
        hide Woken, Forwards;
        match list[k] {
          case Notify(t) => woken := woken + [t];
          case Resend(d) => posted := posted + [Copy(l, d)];
          case Other =>
        }
        k := k + 1;
      }
      assert list[k..] == [];
      callbacks := callbacks[l := []];
    }
  }
}
