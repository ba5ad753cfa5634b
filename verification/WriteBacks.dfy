/**
 Write-back over whole runs: the caches of all devices, coupled to the directory of one
 tile. A device writes back the tiles of its written list whose host copy is stale.
 */
module WriteBacks {
  import opened TileTasks
  import opened Replicas
  import opened Transfers
  import opened Coherence
  import opened CoherenceSteps
  import opened CoherenceRuns
  import opened ListPairs
  import Cache = CacheOrder

  /** The tile's directory and tasks, and the cache lists of every device. */
  datatype World = World(sys: Sys, lists: seq<Cache.Order>)

  /** A step of the protocol on the tile, a touch of another tile, or an eviction pass of a device. */
  datatype Act =
    | OnTile(e: Event)
    | Elsewhere(lid: nat, tile: nat, write: bool, hostValid: bool)
    | EvictPass(lid: nat, which: Which, others: set<nat>, size: nat)

  /** Everything a run depends on: the program, the tile, and the sizes of the views. */
  datatype Setting = Setting(prog: Program, tile: nat, bytes: nat -> nat)

  function Begin(c: Setting): World {
    World(Start(c.prog), seq(MAX_NODES, _ => Pair([], [])))
  }

  /** One eviction pass: the tile is passed over unless its replica is unpinned and valid elsewhere. */
  function SweptBy(c: Setting, w: World, a: Act): Cache.Swept
    requires a.EvictPass? && a.lid < |w.lists| && a.lid < |w.sys.dir.pins|
  {
    var evictable := a.others - {c.tile} + if Removable(w.sys.dir, a.lid) then {c.tile} else {};
    Cache.Sweep(w.lists[a.lid].Get(a.which), evictable, c.bytes, Cache.Aim(a.size))
  }

  ghost predicate Sound(c: Setting, w: World) {
    Shaped(c.prog, w.sys) && |w.lists| == MAX_NODES
  }

  /** The pass of a takes the tile from device l. */
  predicate EvictsAt(c: Setting, w: World, a: Act, l: nat) {
    && a.EvictPass? && a.lid == l && l < |w.lists| && l < |w.sys.dir.pins|
    && c.tile in SweptBy(c, w, a).evicted
  }

  /** What data flow, the code's own tests and its tacit assumptions make possible. */
  ghost predicate Possible(c: Setting, w: World, a: Act) {
    && Sound(c, w)
    && match a
       case OnTile(e) => !e.EEvict? && Allowed(c.prog, w.sys, e) && Assumed(c.prog, w.sys, e)
       case Elsewhere(l, u, _, _) => HOST < l < MAX_NODES && u != c.tile
       case EvictPass(l, _, _, _) =>
         HOST < l < MAX_NODES && (EvictsAt(c, w, a, l) ==> forall x :: x in w.sys.dir.posted ==> x.src != l)
  }

  function Without(s: Sys, l: nat): Sys
    requires l < |s.mem|
  {
    s.(dir := Replicas.Evict(s.dir, l), mem := s.mem[l := Garbage])
  }

  ghost function Next(c: Setting, w: World, a: Act): World
    requires Possible(c, w, a)
  {
    match a
    case OnTile(e) =>
      var s := Apply(c.prog, w.sys, e);
      World(s, if e.EAcquire? && e.lid != HOST
               then w.lists[e.lid := Cache.Touched(w.lists[e.lid], c.tile, Writes(c.prog[e.task]), HOST in s.dir.valid)]
               else w.lists)
    case Elsewhere(l, u, write, hostValid) =>
      w.(lists := w.lists[l := Cache.Touched(w.lists[l], u, write, hostValid)])
    case EvictPass(l, which, _, _) =>
      World(if EvictsAt(c, w, a, l) then Without(w.sys, l) else w.sys,
            w.lists[l := w.lists[l].Set(which, SweptBy(c, w, a).kept)])
  }

  /** ws are the worlds that the acts lead through. */
  ghost predicate Trace(c: Setting, acts: seq<Act>, ws: seq<World>) {
    && |ws| == |acts| + 1 && ws[0] == Begin(c)
    && forall k :: 0 <= k < |acts| ==> Possible(c, ws[k], acts[k]) && ws[k + 1] == Next(c, ws[k], acts[k])
  }

  /** Nothing is left out: each step of the protocol within its assumption, other tiles, and passes of any kind. */
  lemma EverythingPossible(c: Setting, w: World, l: nat, u: nat)
    requires Sound(c, w) && 0 < l < 16
    ensures forall e :: Allowed(c.prog, w.sys, e) && Assumed(c.prog, w.sys, e) && !e.EEvict? ==>
              Possible(c, w, OnTile(e))
    ensures u != c.tile ==> forall write, hostValid :: Possible(c, w, Elsewhere(l, u, write, hostValid))
    ensures (forall x :: x in w.sys.dir.posted ==> x.src != l) ==>
              forall which, others, size :: Possible(c, w, EvictPass(l, which, others, size))
  {
    hide Allowed, Assumed, Shaped, EvictsAt;
  }

  // ----- The tile on the lists -----

  predicate Cached(c: Setting, w: World, l: nat) {
    l < |w.lists| && (c.tile in w.lists[l].ro || c.tile in w.lists[l].rw)
  }

  /** The tile is on at most one list of a device, once, and only where it has a buffer. */
  ghost predicate Coupled(c: Setting, w: World) {
    && Sound(c, w)
    && (forall l :: 0 <= l < MAX_NODES ==> OnceEach(w.lists[l]))
    && (forall l: nat :: Cached(c, w, l) ==> l != HOST && l in w.sys.dir.alloc)
  }

  ghost predicate OnceEach(o: Cache.Order) {
    Cache.EachOnce(o.ro) && Cache.EachOnce(o.rw) && forall t :: t in o.ro ==> t !in o.rw
  }

  lemma ThinnedOnce(s: seq<nat>, s': seq<nat>, at: seq<nat>)
    requires Cache.EachOnce(s) && Cache.IsThinning(s, s', at)
    ensures Cache.EachOnce(s') && forall x :: x in s' ==> x in s
  {
    forall i, j | 0 <= i < j < |s'|
      ensures s'[i] != s'[j]
    {
      assert at[i] < at[j];
    }
    forall i | 0 <= i < |s'|
      ensures s'[i] in s
    {
      assert at[i] < |s|;
    }
  }

  lemma TouchTidy(o: Cache.Order, t: nat, write: bool, hostValid: bool)
    requires OnceEach(o)
    ensures OnceEach(Cache.Touched(o, t, write, hostValid))
  {
    var at := Cache.WithoutThins(o.ro, t);
    ThinnedOnce(o.ro, Cache.Without(o.ro, t), at);
    at := Cache.WithoutThins(o.rw, t);
    ThinnedOnce(o.rw, Cache.Without(o.rw, t), at);
    FrontOnce(Cache.Without(o.ro, t), t);
    FrontOnce(Cache.Without(o.rw, t), t);
    hide Cache.EachOnce;
  }

  lemma FrontOnce(s: seq<nat>, t: nat)
    requires Cache.EachOnce(s) && t !in s
    ensures Cache.EachOnce([t] + s)
  {
    var s' := [t] + s;
    assert forall i :: 0 < i < |s'| ==> s'[i] == s[i - 1];
  }

  lemma SweepTidy(o: Cache.Order, which: Which, evictable: set<nat>, bytes: nat -> nat, need: nat)
    requires OnceEach(o)
    ensures var r := Cache.Sweep(o.Get(which), evictable, bytes, need);
            && OnceEach(o.Set(which, r.kept))
            && (forall x :: x in r.evicted ==> x in o.Get(which) && x in evictable && x !in r.kept)
            && (forall x :: x in o.Get(which) ==> x in r.kept || x in r.evicted)
            && (forall x :: x in r.kept ==> x in o.Get(which))
  {
    var s := o.Get(which);
    var r := Cache.Sweep(s, evictable, bytes, need);
    var at := Cache.SweepThins(s, evictable, bytes, need);
    ThinnedOnce(s, r.kept, at);
    Cache.SweepSplits(s, evictable, bytes, need);
    var front, back := Cache.SweepCuts(s, evictable, bytes, need);
    Cache.OnlyMembers(back, evictable, true);
    hide Cache.Sweep, Cache.Only, Cache.IsThinning;
    forall x
      ensures x in s <==> x in r.kept || x in r.evicted
      ensures x in r.evicted ==> x !in r.kept
    {
      assert multiset(r.kept)[x] + multiset(r.evicted)[x] == multiset(s)[x];
      OnceCount(s, x);
    }
  }

  lemma {:induction false} OnceCount(s: seq<nat>, x: nat)
    requires Cache.EachOnce(s)
    ensures multiset(s)[x] <= 1
  {
    if s != [] {
      assert s == [s[0]] + s[1..];
      OnceCount(s[1..], x);
      assert x == s[0] ==> x !in s[1..];
    }
  }

  // ----- Steps -----

  /** How a touch moves the tile of a cache. */
  lemma TouchMoves(o: Cache.Order, t: nat, u: nat, write: bool, hostValid: bool)
    requires OnceEach(o)
    ensures var o' := Cache.Touched(o, u, write, hostValid);
            && OnceEach(o')
            && (u != t ==> (t in o'.ro <==> t in o.ro) && (t in o'.rw <==> t in o.rw))
            && (u == t ==> (t in o'.rw <==> write || (t in o.rw && !hostValid)) && (t in o'.ro || t in o'.rw))
  {
    TouchTidy(o, u, write, hostValid);
    hide Cache.EachOnce, Cache.Without;
  }

  /** How a pass moves it. */
  lemma PassMoves(c: Setting, w: World, a: Act, l: nat)
    requires Coupled(c, w) && a.EvictPass? && a.lid == l && HOST < l < MAX_NODES
    ensures var o, o' := w.lists[l], w.lists[l].Set(a.which, SweptBy(c, w, a).kept);
            && OnceEach(o')
            && (EvictsAt(c, w, a, l) ==>
                   Cached(c, w, l) && Removable(w.sys.dir, l) && c.tile !in o'.ro && c.tile !in o'.rw)
            && (!EvictsAt(c, w, a, l) ==>
                   (c.tile in o'.ro <==> c.tile in o.ro) && (c.tile in o'.rw <==> c.tile in o.rw))
  {
    var evictable := a.others - {c.tile} + if Removable(w.sys.dir, l) then {c.tile} else {};
    SweepTidy(w.lists[l], a.which, evictable, c.bytes, Cache.Aim(a.size));
    hide Cache.Sweep, Cache.EachOnce, Cache.Aim, Shaped;
  }

  /** Apart from evictions, no step takes a buffer away. */
  lemma AllocGrows(prog: Program, s: Sys, e: Event)
    requires Inv(prog, s) && Allowed(prog, s, e) && !e.EEvict?
    ensures s.dir.alloc <= Apply(prog, s, e).dir.alloc
    ensures e.EAcquire? ==> e.lid in Apply(prog, s, e).dir.alloc
  {
    match e
    case EAcquire(i, l, src) => AcquireView(s.dir, l, prog[i], src, i); hide Replicas.Acquire;
    case EPrefetch(src) => PrefetchView(s.dir, src); hide Replicas.Prefetch;
    case EDeliver(n) => DeliverView(prog, s, n);
    case _ =>
  }

  lemma InvShaped(prog: Program, s: Sys)
    requires Inv(prog, s)
    ensures Shaped(prog, s)
  {
  }

  lemma TileStep(c: Setting, w: World, e: Event)
    requires Coupled(c, w) && Inv(c.prog, w.sys) && Possible(c, w, OnTile(e))
    ensures Coupled(c, Next(c, w, OnTile(e))) && Inv(c.prog, Next(c, w, OnTile(e)).sys)
  {
    hide Inv, Apply, Cache.Touched, OnceEach, Allowed, Assumed;
    if e.EAcquire? { AcquireBounds(c, w, e); }
    StepKeeps(c.prog, w.sys, e);
    var s := Apply(c.prog, w.sys, e);
    InvShaped(c.prog, s);
    AllocGrows(c.prog, w.sys, e);
    if e.EAcquire? && e.lid != HOST {
      TouchMoves(w.lists[e.lid], c.tile, c.tile, Writes(c.prog[e.task]), HOST in s.dir.valid);
    }
    hide Shaped;
    var w' := Next(c, w, OnTile(e));
    assert forall l: nat :: Cached(c, w', l) ==> Cached(c, w, l) || (e.EAcquire? && e.lid == l != HOST);
  }

  lemma AcquireBounds(c: Setting, w: World, e: Event)
    requires Sound(c, w) && Allowed(c.prog, w.sys, e) && e.EAcquire?
    ensures e.lid < MAX_NODES && e.task < |c.prog|
  {
  }

  lemma PassStep(c: Setting, w: World, a: Act)
    requires Coupled(c, w) && Inv(c.prog, w.sys) && Possible(c, w, a) && a.EvictPass?
    ensures Coupled(c, Next(c, w, a)) && Inv(c.prog, Next(c, w, a).sys)
  {
    hide Inv, OnceEach, SweptBy;
    PassMoves(c, w, a, a.lid);
    if EvictsAt(c, w, a, a.lid) {
      assert Allowed(c.prog, w.sys, EEvict(a.lid)) && Assumed(c.prog, w.sys, EEvict(a.lid));
      assert Without(w.sys, a.lid) == Apply(c.prog, w.sys, EEvict(a.lid));
      StepKeeps(c.prog, w.sys, EEvict(a.lid));
      InvShaped(c.prog, Without(w.sys, a.lid));
    }
    hide Shaped, EvictsAt;
    var w' := Next(c, w, a);
    assert forall l: nat :: Cached(c, w', l) ==> Cached(c, w, l) && !EvictsAt(c, w, a, l);
  }

  lemma StepCoupled(c: Setting, w: World, a: Act)
    requires Coupled(c, w) && Inv(c.prog, w.sys) && Possible(c, w, a)
    ensures Coupled(c, Next(c, w, a)) && Inv(c.prog, Next(c, w, a).sys)
  {
    match a {
      case OnTile(e) => TileStep(c, w, e);
      case EvictPass(_, _, _, _) => PassStep(c, w, a);
      case Elsewhere(l, u, write, hostValid) =>
        TouchMoves(w.lists[l], c.tile, u, write, hostValid);
        hide Inv, OnceEach, Cache.Touched, Shaped;
    }
  }

  lemma {:induction false} TraceCoupled(c: Setting, acts: seq<Act>, ws: seq<World>, k: nat)
    requires Trace(c, acts, ws) && k < |ws|
    ensures Coupled(c, ws[k]) && Inv(c.prog, ws[k].sys)
  {
    hide Inv, Possible, Next, Coupled;
    if k == 0 {
      StartInv(c.prog);
      BeginCoupled(c);
    } else {
      TraceCoupled(c, acts, ws, k - 1);
      assert Possible(c, ws[k - 1], acts[k - 1]);
      StepCoupled(c, ws[k - 1], acts[k - 1]);
      assert ws[k] == ws[k - 1 + 1];
    }
  }

  lemma BeginCoupled(c: Setting)
    ensures Coupled(c, Begin(c))
  {
  }

  /** In every run the cached replica that a pass takes has a buffer: the assertion before it is freed holds. */
  lemma ListedAllocated(c: Setting, acts: seq<Act>, ws: seq<World>, k: nat, l: nat)
    requires Trace(c, acts, ws) && k < |ws| && Cached(c, ws[k], l)
    ensures l in ws[k].sys.dir.alloc && !(c.tile in ws[k].lists[l].ro && c.tile in ws[k].lists[l].rw)
  {
    TraceCoupled(c, acts, ws, k);
    hide Inv, Trace;
  }

  // ----- Who writes back -----

  /** The act is an acquire of the tile on device l, for writing or not. */
  predicate Acquires(c: Setting, a: Act, l: nat, write: bool) {
    a.OnTile? && a.e.EAcquire? && a.e.lid == l && a.e.task < |c.prog| && Writes(c.prog[a.e.task]) == write
  }

  /** Act k writes the tile on device l. */
  predicate WritesAt(c: Setting, acts: seq<Act>, k: int, l: nat) {
    0 <= k < |acts| && Acquires(c, acts[k], l, true)
  }

  /** Act j takes the tile off the written list of device l: it evicts it, or reads it while the host copy is valid. */
  predicate Drops(c: Setting, acts: seq<Act>, ws: seq<World>, j: int, l: nat)
    requires |ws| == |acts| + 1
  {
    && 0 <= j < |acts|
    && (EvictsAt(c, ws[j], acts[j], l) || (Acquires(c, acts[j], l, false) && HOST in ws[j + 1].sys.dir.valid))
  }

  /** Within the first n acts, device l wrote the tile and has not dropped it since. */
  ghost predicate WroteAndKept(c: Setting, acts: seq<Act>, ws: seq<World>, l: nat, n: nat)
    requires |ws| == |acts| + 1
  {
    exists k :: k < n && WritesAt(c, acts, k, l) && forall j :: k < j < n ==> !Drops(c, acts, ws, j, l)
  }

  lemma ListStep(c: Setting, w: World, a: Act, l: nat)
    requires Coupled(c, w) && Inv(c.prog, w.sys) && Possible(c, w, a) && HOST < l < MAX_NODES
    ensures var w' := Next(c, w, a);
            && l < |w'.lists|
            && (c.tile in w'.lists[l].rw <==>
                  Acquires(c, a, l, true) ||
                  (c.tile in w.lists[l].rw && !EvictsAt(c, w, a, l)
                   && !(Acquires(c, a, l, false) && HOST in w'.sys.dir.valid)))
  {
    match a {
      case OnTile(e) =>
        if e.EAcquire? { AcquireBounds(c, w, e); }
        hide Inv, Shaped, Apply, Allowed, Assumed, Cache.Touched, OnceEach;
        var s := Next(c, w, a).sys;
        if e.EAcquire? && e.lid == l {
          TouchMoves(w.lists[l], c.tile, c.tile, Writes(c.prog[e.task]), HOST in s.dir.valid);
        }
      case EvictPass(_, _, _, _) =>
        hide Inv, Shaped, SweptBy, OnceEach;
        PassMoves(c, w, a, a.lid);
      case Elsewhere(k, u, write, hostValid) =>
        hide Inv, Shaped, OnceEach, Cache.Touched;
        TouchMoves(w.lists[k], c.tile, u, write, hostValid);
    }
  }

  /** After any number of acts, the tile is on the written list of a device exactly when it wrote it and kept it. */
  lemma {:induction false} OnWritten(c: Setting, acts: seq<Act>, ws: seq<World>, l: nat, n: nat)
    requires Trace(c, acts, ws) && HOST < l < MAX_NODES && n <= |acts|
    ensures l < |ws[n].lists|
    ensures c.tile in ws[n].lists[l].rw <==> WroteAndKept(c, acts, ws, l, n)
  {
    if n > 0 {
      hide *;
      OnWritten(c, acts, ws, l, n - 1);
      WrittenStep(c, acts, ws, l, n - 1);
    }
  }

  lemma WrittenStep(c: Setting, acts: seq<Act>, ws: seq<World>, l: nat, n: nat)
    requires Trace(c, acts, ws) && HOST < l < MAX_NODES && n < |acts| && l < |ws[n].lists|
    requires c.tile in ws[n].lists[l].rw <==> WroteAndKept(c, acts, ws, l, n)
    ensures l < |ws[n + 1].lists|
    ensures c.tile in ws[n + 1].lists[l].rw <==> WroteAndKept(c, acts, ws, l, n + 1)
  {
    hide Inv, Coupled, Next, Possible, Acquires, EvictsAt, WroteAndKept;
    TraceCoupled(c, acts, ws, n);
    assert Possible(c, ws[n], acts[n]) && ws[n + 1] == Next(c, ws[n], acts[n]);
    hide Trace;
    ListStep(c, ws[n], acts[n], l);
    KeptStep(c, acts, ws, l, n + 1);
  }

  lemma KeptStep(c: Setting, acts: seq<Act>, ws: seq<World>, l: nat, n: nat)
    requires |ws| == |acts| + 1 && 0 < n <= |acts|
    ensures WroteAndKept(c, acts, ws, l, n) <==>
            WritesAt(c, acts, n - 1, l) || (WroteAndKept(c, acts, ws, l, n - 1) && !Drops(c, acts, ws, n - 1, l))
  {
    hide WritesAt, Drops;
    if WroteAndKept(c, acts, ws, l, n) {
      var k :| k < n && WritesAt(c, acts, k, l) && forall j :: k < j < n ==> !Drops(c, acts, ws, j, l);
      if k < n - 1 {
        assert WroteAndKept(c, acts, ws, l, n - 1);
      }
    }
    if WroteAndKept(c, acts, ws, l, n - 1) && !Drops(c, acts, ws, n - 1, l) {
      var k :| k < n - 1 && WritesAt(c, acts, k, l) && forall j :: k < j < n - 1 ==> !Drops(c, acts, ws, j, l);
      assert forall j :: k < j < n ==> !Drops(c, acts, ws, j, l);
    }
  }

  /** The tile is among those that device l sends when asked to write back: stale on the host, valid here. */
  predicate Sends(c: Setting, w: World, l: nat) {
    && HOST < l < |w.lists|
    && var stale := if HOST !in w.sys.dir.valid && l in w.sys.dir.valid then {c.tile} else {};
       c.tile in Cache.Only(w.lists[l].rw, stale, true)
  }

  /**
   In every run, a tile whose host copy is stale is sent by some device exactly when a
   device with a valid copy wrote it and has since neither evicted it nor read it while
   the host copy was valid.
   */
  lemma WriteBackExact(c: Setting, acts: seq<Act>, ws: seq<World>)
    requires Trace(c, acts, ws) && HOST !in ws[|acts|].sys.dir.valid
    ensures (exists l :: Sends(c, ws[|acts|], l)) <==>
            exists l :: l in ws[|acts|].sys.dir.valid && WroteAndKept(c, acts, ws, l, |acts|)
  {
    var w := ws[|acts|];
    TraceCoupled(c, acts, ws, |acts|);
    assert forall l :: l in w.sys.dir.valid ==> HOST < l < MAX_NODES && l < |w.lists|;
    assert |w.lists| == MAX_NODES;
    hide Inv, Coupled, Trace, WroteAndKept, Cache.Only;
    forall l: nat | HOST < l < MAX_NODES
      ensures Sends(c, w, l) <==> l in w.sys.dir.valid && WroteAndKept(c, acts, ws, l, |acts|)
    {
      OnWritten(c, acts, ws, l, |acts|);
      var stale := if l in w.sys.dir.valid then {c.tile} else {};
      Cache.OnlyMembers(w.lists[l].rw, stale, true);
    }
  }

  // ----- A tile that nobody writes back -----

  lemma Extend(c: Setting, acts: seq<Act>, ws: seq<World>, a: Act)
    requires Trace(c, acts, ws) && Possible(c, ws[|acts|], a)
    ensures Trace(c, acts + [a], ws + [Next(c, ws[|acts|], a)])
  {
    hide Possible, Next;
    var acts', ws' := acts + [a], ws + [Next(c, ws[|acts|], a)];
    forall k | 0 <= k < |acts'|
      ensures Possible(c, ws'[k], acts'[k]) && ws'[k + 1] == Next(c, ws'[k], acts'[k])
    {
      if k < |acts| {
        assert ws'[k] == ws[k] && ws'[k + 1] == ws[k + 1] && acts'[k] == acts[k];
      }
    }
  }

  /** The directory, the phases and the two lists that matter. */
  ghost predicate Stage(c: Setting, w: World, d: Dir, p: Phase, q: Phase, one: Cache.Order, two: Cache.Order) {
    && Sound(c, w) && w.sys.dir == d && w.sys.phase == [p, q]
    && w.lists[1] == one && w.lists[2] == two
    && (forall l :: 0 <= l < MAX_NODES && l != 1 && l != 2 ==> w.lists[l] == Pair([], []))
  }

  predicate Simple(c: Setting) { c.prog == [W, R] }

  /** The first task writes the tile on device 1. */
  lemma WrittenThere(c: Setting) returns (acts: seq<Act>, ws: seq<World>)
    requires Simple(c)
    ensures Trace(c, acts, ws)
    ensures Stage(c, ws[|acts|], NewDir().(valid := {1}, alloc := {HOST, 1}), Done, Pending, Pair([], [c.tile]),
              Pair([], []))
  {
    var w0 := Begin(c);
    var a0, a1, a2 := OnTile(EAcquire(0, 1, HOST)), OnTile(EExecute(0)), OnTile(ERelease(0));
    assert Possible(c, w0, a0);
    var w1 := Next(c, w0, a0);
    assert w1.lists[1] == Pair([], [c.tile]) by { assert [c.tile] + [] == [c.tile]; }
    assert Possible(c, w1, a1);
    var w2 := Next(c, w1, a1);
    assert Possible(c, w2, a2);
    var w3 := Next(c, w2, a2);
    assert w3.sys.dir.pins == NewDir().pins && w3.sys.dir.cbk == NewDir().cbk;
    assert w3.sys.phase == [Done, Pending];
    hide Possible, Next;
    Extend(c, [], [w0], a0);
    Extend(c, [] + [a0], [w0] + [w1], a1);
    Extend(c, [] + [a0] + [a1], [w0] + [w1] + [w2], a2);
    acts, ws := [] + [a0] + [a1] + [a2], [w0] + [w1] + [w2] + [w3];
  }

  /** The second task reads it on device 2, which fetches it from device 1. */
  lemma ReadElsewhere(c: Setting) returns (acts: seq<Act>, ws: seq<World>)
    requires Simple(c)
    ensures Trace(c, acts, ws)
    ensures Stage(c, ws[|acts|], NewDir().(valid := {1, 2}, alloc := {HOST, 1, 2}), Done, Done,
                  Pair([], [c.tile]), Pair([c.tile], []))
  {
    acts, ws := WrittenThere(c);
    var w0 := ws[|acts|];
    var w1 := FetchedFrom(c, w0);
    Extend(c, acts, ws, OnTile(EAcquire(1, 2, 1)));
    acts, ws := acts + [OnTile(EAcquire(1, 2, 1))], ws + [w1];
    var w2 := Arrived(c, w1);
    Extend(c, acts, ws, OnTile(EDeliver(0)));
    acts, ws := acts + [OnTile(EDeliver(0))], ws + [w2];
    var w3 := RanAndReleased(c, w2);
    Extend(c, acts, ws, OnTile(EExecute(1)));
    acts, ws := acts + [OnTile(EExecute(1))], ws + [Next(c, w2, OnTile(EExecute(1)))];
    Extend(c, acts, ws, OnTile(ERelease(1)));
    acts, ws := acts + [OnTile(ERelease(1))], ws + [w3];
  }

  lemma FetchedFrom(c: Setting, w: World) returns (w': World)
    requires Simple(c)
    requires Stage(c, w, NewDir().(valid := {1}, alloc := {HOST, 1}), Done, Pending, Pair([], [c.tile]), Pair([], []))
    ensures Possible(c, w, OnTile(EAcquire(1, 2, 1))) && w' == Next(c, w, OnTile(EAcquire(1, 2, 1)))
    ensures Stage(c, w', NewDir().(valid := {1}, alloc := {HOST, 1, 2}, xfer := {2}, pins := NewDir().pins[2 := 1],
                                   cbk := NewDir().cbk[2 := [Notify(1)]], posted := [Copy(1, 2)]),
                  Done, Waiting(2), Pair([], [c.tile]), Pair([c.tile], []))
  {
    var a := OnTile(EAcquire(1, 2, 1));
    assert Possible(c, w, a);
    w' := Next(c, w, a);
    assert w'.lists[2] == Pair([c.tile], []) by { assert [c.tile] + [] == [c.tile]; }
    assert w'.sys.dir.alloc == {HOST, 1, 2};
    assert w'.sys.phase == [Done, Waiting(2)];
  }

  lemma Arrived(c: Setting, w: World) returns (w': World)
    requires Simple(c)
    requires Stage(c, w, NewDir().(valid := {1}, alloc := {HOST, 1, 2}, xfer := {2}, pins := NewDir().pins[2 := 1],
                                   cbk := NewDir().cbk[2 := [Notify(1)]], posted := [Copy(1, 2)]),
                   Done, Waiting(2), Pair([], [c.tile]), Pair([c.tile], []))
    ensures Possible(c, w, OnTile(EDeliver(0))) && w' == Next(c, w, OnTile(EDeliver(0)))
    ensures Stage(c, w', NewDir().(valid := {1, 2}, alloc := {HOST, 1, 2}, pins := NewDir().pins[2 := 1]),
                  Done, Ready(2), Pair([], [c.tile]), Pair([c.tile], []))
  {
    w' := Next(c, w, OnTile(EDeliver(0)));
    WokenIs([Notify(1)], 0);
    WokenIs([Notify(1)], 1);
    assert [Notify(1)][1..] == [];
    assert w'.sys.phase == [Done, Ready(2)];
    assert w'.sys.dir.cbk == NewDir().cbk;
  }

  lemma RanAndReleased(c: Setting, w: World) returns (w': World)
    requires Simple(c)
    requires Stage(c, w, NewDir().(valid := {1, 2}, alloc := {HOST, 1, 2}, pins := NewDir().pins[2 := 1]),
                   Done, Ready(2), Pair([], [c.tile]), Pair([c.tile], []))
    ensures Possible(c, w, OnTile(EExecute(1)))
    ensures var w1 := Next(c, w, OnTile(EExecute(1)));
            Possible(c, w1, OnTile(ERelease(1))) && w' == Next(c, w1, OnTile(ERelease(1)))
    ensures Stage(c, w', NewDir().(valid := {1, 2}, alloc := {HOST, 1, 2}), Done, Done,
                  Pair([], [c.tile]), Pair([c.tile], []))
  {
    var w1 := Next(c, w, OnTile(EExecute(1)));
    w' := Next(c, w1, OnTile(ERelease(1)));
    assert w'.sys.dir.pins == NewDir().pins;
    assert w'.sys.phase == [Done, Done];
  }

  /**
   Then device 1 evicts it. Every step was allowed and every assumption met; no task is
   left, the host copy is stale, the only valid copy is on the read list of device 2, and
   no device sends it.
   */
  lemma WriteBackMisses(c: Setting) returns (acts: seq<Act>, ws: seq<World>)
    requires Simple(c)
    ensures Trace(c, acts, ws)
    ensures var w := ws[|acts|]; w.sys.dir.valid == {2} && w.sys.phase == [Done, Done] && forall l :: !Sends(c, w, l)
  {
    acts, ws := ReadElsewhere(c);
    var w := ws[|acts|];
    var a := EvictPass(1, Which.RW, {}, 1);
    TraceCoupled(c, acts, ws, |acts|);
    SweptLast(c, w);
    hide Inv, Trace, SweptBy;
    assert Possible(c, w, a);
    var w' := Next(c, w, a);
    assert w'.sys.dir.valid == {2};
    assert forall l :: 0 <= l < MAX_NODES ==> w'.lists[l].rw == [];
    NoneSend(c, w');
    hide Possible, Next;
    Extend(c, acts, ws, a);
    acts, ws := acts + [a], ws + [w'];
  }

  lemma SweptLast(c: Setting, w: World)
    requires Stage(c, w, NewDir().(valid := {1, 2}, alloc := {HOST, 1, 2}), Done, Done, Pair([], [c.tile]),
              Pair([c.tile], []))
    ensures SweptBy(c, w, EvictPass(1, Which.RW, {}, 1)).kept == []
    ensures SweptBy(c, w, EvictPass(1, Which.RW, {}, 1)).evicted == [c.tile]
  {
    assert 2 in w.sys.dir.valid - {1};
    assert Removable(w.sys.dir, 1);
    var a := EvictPass(1, Which.RW, {}, 1);
    assert a.others - {c.tile} + {c.tile} == {c.tile} && w.lists[1].Get(Which.RW) == [c.tile];
    assert [c.tile][..0] == [];
    var need := Cache.Monus(2, c.bytes(c.tile));
    assert Cache.Sweep([], {c.tile}, c.bytes, need) == Cache.Swept([], [], need);
    assert Cache.Sweep([c.tile], {c.tile}, c.bytes, 2) == Cache.Swept([], [] + [c.tile], need);
    assert Cache.Aim(1) == 2;
  }

  lemma NoneSend(c: Setting, w: World)
    requires |w.lists| == MAX_NODES && forall l :: 0 <= l < MAX_NODES ==> w.lists[l].rw == []
    ensures forall l :: !Sends(c, w, l)
  {
  }
}
