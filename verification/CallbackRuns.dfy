/** Callbacks over whole runs: each one that is registered runs exactly once, or is still registered. */
module CallbackRuns {
  import opened Replicas
  import opened Transfers
  import opened Coherence
  import opened CoherenceSteps
  import opened CoherenceRuns

  /** A callback at the replica whose data it waits for. */
  datatype Due = Due(lid: nat, callback: Callback)

  function ListedAt(l: nat, list: seq<Callback>): multiset<Due> {
    if list == [] then multiset{} else multiset{Due(l, list[0])} + ListedAt(l, list[1..])
  }

  /** All registered callbacks. */
  function Listed(cbk: seq<seq<Callback>>): multiset<Due> {
    if cbk == [] then multiset{} else Listed(cbk[..|cbk| - 1]) + ListedAt(|cbk| - 1, cbk[|cbk| - 1])
  }

  /** What a fetch registers: nothing if the destination is valid, else its callback, and a forward if it chains one. */
  function FetchAsks(d: Dir, dst: nat, src: nat, c: Callback): multiset<Due> {
    if dst in d.valid then multiset{}
    else multiset{Due(dst, c)} + if dst !in d.xfer && src in d.xfer then multiset{Due(src, Resend(dst))} else multiset{}
  }

  function Asks(prog: Program, s: Sys, e: Event): multiset<Due> {
    match e
    case EAcquire(i, l, src) =>
      if i < |prog| && Reads(prog[i]) then FetchAsks(s.dir, l, src, Notify(i)) else multiset{}
    case EPrefetch(src) => FetchAsks(s.dir, HOST, src, Other)
    case _ => multiset{}
  }

  /** What a delivery runs: all that is registered at its destination. */
  function Runs(s: Sys, e: Event): multiset<Due> {
    if e.EDeliver? && e.n < |s.dir.posted| && s.dir.posted[e.n].dst < |s.dir.cbk|
    then ListedAt(s.dir.posted[e.n].dst, s.dir.cbk[s.dir.posted[e.n].dst])
    else multiset{}
  }

  lemma AddListed(l: nat, list: seq<Callback>, c: Callback)
    ensures ListedAt(l, AddCallback(list, c)) == ListedAt(l, list) + multiset{Due(l, c)}
  {
    if list != [] {
      var more := AddCallback(list, c);
      assert more[1..] == [c] + list[1..] && more[1..][1..] == list[1..];
    }
  }

  lemma {:induction false} ListedUpdate(cbk: seq<seq<Callback>>, l: nat, list: seq<Callback>)
    requires l < |cbk|
    ensures Listed(cbk[l := list]) + ListedAt(l, cbk[l]) == Listed(cbk) + ListedAt(l, list)
  {
    hide ListedAt;
    var n := |cbk| - 1;
    var cbk' := cbk[l := list];
    if l == n {
      assert cbk'[..n] == cbk[..n];
      assert Listed(cbk') == Listed(cbk[..n]) + ListedAt(n, list);
      Among(Listed(cbk[..n]), ListedAt(n, list), Listed(cbk[..n]), ListedAt(n, cbk[n]), multiset{});
    } else {
      ListedUpdate(cbk[..n], l, list);
      assert cbk'[..n] == cbk[..n][l := list];
      assert Listed(cbk') == Listed(cbk[..n][l := list]) + ListedAt(n, cbk[n]);
      Among(Listed(cbk[..n][l := list]), ListedAt(l, cbk[l]), Listed(cbk[..n]), ListedAt(l, list), ListedAt(n, cbk[n]));
    }
  }

  lemma Among(a: multiset<Due>, k: multiset<Due>, b: multiset<Due>, m: multiset<Due>, x: multiset<Due>)
    ensures a + k == b + m ==> (a + x) + k == (b + x) + m
    ensures a + k + m == a + m + k
  {
    assert (a + x) + k == (a + k) + x && (b + x) + m == (b + m) + x;
  }

  lemma RegisterListed(cbk: seq<seq<Callback>>, l: nat, c: Callback)
    requires l < |cbk|
    ensures Listed(cbk[l := AddCallback(cbk[l], c)]) == Listed(cbk) + multiset{Due(l, c)}
  {
    AddListed(l, cbk[l], c);
    ListedUpdate(cbk, l, AddCallback(cbk[l], c));
    hide Listed, ListedAt, AddCallback;
    Cancel(Listed(cbk[l := AddCallback(cbk[l], c)]), Listed(cbk), ListedAt(l, cbk[l]), multiset{Due(l, c)});
  }

  lemma Cancel(a: multiset<Due>, b: multiset<Due>, k: multiset<Due>, m: multiset<Due>)
    requires a + k == b + (k + m)
    ensures a == b + m
  {
    forall x
      ensures a[x] == (b + m)[x]
    {
      assert (a + k)[x] == (b + (k + m))[x];
    }
  }

  lemma FetchListed(d: Dir, dst: nat, src: nat, c: Callback)
    requires Sized(d) && dst < MAX_NODES && src < MAX_NODES
    ensures Listed(Fetch(d, dst, src, c).cbk) == Listed(d.cbk) + FetchAsks(d, dst, src, c)
  {
    if dst !in d.valid {
      RegisterListed(d.cbk, dst, c);
      var cbk := d.cbk[dst := AddCallback(d.cbk[dst], c)];
      RegisterListed(cbk, src, Resend(dst));
      hide Listed, AddCallback;
    }
  }

  lemma AcquireCallbacks(prog: Program, s: Sys, i: nat, l: nat, src: nat)
    requires Shaped(prog, s) && Allowed(prog, s, EAcquire(i, l, src))
    ensures Listed(Apply(prog, s, EAcquire(i, l, src)).dir.cbk)
              == Listed(s.dir.cbk) + Asks(prog, s, EAcquire(i, l, src))
  {
    hide Listed, Fetch, FlowAfterFetch, MayStart, Replicas.Acquire, FetchAsks;
    AcquireView(s.dir, l, prog[i], src, i);
    FetchListed(s.dir, l, src, Notify(i));
  }

  lemma PrefetchCallbacks(prog: Program, s: Sys, src: nat)
    requires Shaped(prog, s) && Allowed(prog, s, EPrefetch(src))
    ensures Listed(Apply(prog, s, EPrefetch(src)).dir.cbk) == Listed(s.dir.cbk) + Asks(prog, s, EPrefetch(src))
  {
    FetchListed(s.dir.(alloc := s.dir.alloc + {HOST}), HOST, src, Other);
    hide Listed, Fetch, FlowAfterFetch;
  }

  lemma DeliverCallbacks(prog: Program, s: Sys, n: nat)
    requires Shaped(prog, s) && Allowed(prog, s, EDeliver(n))
    ensures Listed(Apply(prog, s, EDeliver(n)).dir.cbk) + Runs(s, EDeliver(n)) == Listed(s.dir.cbk)
  {
    assert s.dir.posted[n] in s.dir.posted;
    ListedUpdate(s.dir.cbk, s.dir.posted[n].dst, []);
    hide Listed;
    assert Apply(prog, s, EDeliver(n)).dir.cbk == s.dir.cbk[s.dir.posted[n].dst := []];
  }

  lemma StepCallbacks(prog: Program, s: Sys, e: Event)
    requires Shaped(prog, s) && Allowed(prog, s, e)
    ensures Listed(s.dir.cbk) + Asks(prog, s, e) == Listed(Apply(prog, s, e).dir.cbk) + Runs(s, e)
  {
    hide Listed, ListedAt, FetchAsks;
    match e {
      case EAcquire(i, l, src) => AcquireCallbacks(prog, s, i, l, src); hide Apply;
      case EPrefetch(src) => PrefetchCallbacks(prog, s, src); hide Apply;
      case EDeliver(n) => DeliverCallbacks(prog, s, n); hide Apply;
      case _ => assert Apply(prog, s, e).dir.cbk == s.dir.cbk;
    }
  }

  /** What a run registers, and what it runs. */
  ghost function AskedIn(prog: Program, s: Sys, es: seq<Event>): multiset<Due>
    decreases |es|
  {
    if es == [] || !Shaped(prog, s) || !Allowed(prog, s, es[0]) then multiset{}
    else Asks(prog, s, es[0]) + AskedIn(prog, Apply(prog, s, es[0]), es[1..])
  }

  ghost function RunIn(prog: Program, s: Sys, es: seq<Event>): multiset<Due>
    decreases |es|
  {
    if es == [] || !Shaped(prog, s) || !Allowed(prog, s, es[0]) then multiset{}
    else Runs(s, es[0]) + RunIn(prog, Apply(prog, s, es[0]), es[1..])
  }

  lemma Chain(a: multiset<Due>, i: multiset<Due>, b: multiset<Due>, o: multiset<Due>, p: multiset<Due>,
              f: multiset<Due>, h: multiset<Due>)
    requires a + i == b + o && b + p == f + h
    ensures a + (i + p) == f + (o + h)
  {
    assert a + (i + p) == (a + i) + p == (b + p) + o == f + (o + h);
  }

  /** In every run, what was registered and what is registered on the way is what runs and what is registered still. */
  lemma {:induction false} CallbacksBalance(prog: Program, s: Sys, es: seq<Event>, s': Sys, tacit: bool)
    requires RunFrom(prog, s, es, s', tacit)
    ensures Listed(s.dir.cbk) + AskedIn(prog, s, es) == Listed(s'.dir.cbk) + RunIn(prog, s, es)
    decreases |es|
  {
    hide Listed, Apply, Allowed, Assumed, Shaped, Asks, Runs;
    if es != [] {
      var mid := Apply(prog, s, es[0]);
      StepCallbacks(prog, s, es[0]);
      CallbacksBalance(prog, mid, es[1..], s', tacit);
      Chain(Listed(s.dir.cbk), Asks(prog, s, es[0]), Listed(mid.dir.cbk), Runs(s, es[0]),
            AskedIn(prog, mid, es[1..]), Listed(s'.dir.cbk), RunIn(prog, mid, es[1..]));
    }
  }

  lemma {:induction false} NoneListed(cbk: seq<seq<Callback>>)
    requires forall l :: 0 <= l < |cbk| ==> cbk[l] == []
    ensures Listed(cbk) == multiset{}
  {
    if cbk != [] { NoneListed(cbk[..|cbk| - 1]); }
  }

  /** Once no transfer is under way, every callback that was ever registered has run exactly once. */
  lemma EachRunsOnce(prog: Program, es: seq<Event>, s: Sys)
    requires CoherenceRuns.Run(prog, es, s)
    ensures AskedIn(prog, Start(prog), es) == Listed(s.dir.cbk) + RunIn(prog, Start(prog), es)
    ensures s.dir.xfer == {} ==> AskedIn(prog, Start(prog), es) == RunIn(prog, Start(prog), es)
  {
    NoneListed(Start(prog).dir.cbk);
    Reachable(prog, es, s);
    if s.dir.xfer == {} {
      NoneListed(s.dir.cbk);
    }
    hide RunFrom, Inv, Listed, AskedIn, RunIn;
    CallbacksBalance(prog, Start(prog), es, s, true);
  }
}
