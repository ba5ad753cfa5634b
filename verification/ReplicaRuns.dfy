/**
 The directory object takes the steps of the protocol: its results say what the runtime
 does with the task that called.
 */
module ReplicaRuns {
  import opened TileTasks
  import opened Replicas
  import opened Transfers
  import opened Coherence
  import opened CoherenceSteps

  /** The protocol leaves nothing out: whatever the code's own tests let through is a step. */
  lemma EverythingAllowed(prog: Program, s: Sys, l: nat, src: nat)
    requires Inv(prog, s) && l < 16 && MaySelect(s.dir, src)
    ensures forall i: nat :: i < |prog| && s.phase[i] == Pending && MayStart(prog, s.phase, i) ==>
              Allowed(prog, s, EAcquire(i, l, src))
    ensures forall i: nat :: i < |prog| && s.phase[i].Ready? ==> Allowed(prog, s, EExecute(i))
    ensures forall i: nat :: i < |prog| && s.phase[i].Executed? ==> Allowed(prog, s, ERelease(i))
    ensures forall n: nat :: n < |s.dir.posted| ==> Allowed(prog, s, EDeliver(n))
    ensures l in s.dir.alloc && s.dir.pins[l] == 0 && (exists x :: x in s.dir.valid && x != l) ==>
              Allowed(prog, s, EEvict(l))
    ensures Allowed(prog, s, EPrefetch(src))
  {
    hide InvFlow, InvTasks, InvData, MayStart, MaySelect;
    SelectedHolds(s.dir, src);
    OthersHold(s.dir.valid, l);
    forall i: nat | i < |prog| && s.phase[i].Executed?
      ensures Allowed(prog, s, ERelease(i))
    {
      if s.phase[i].lid < MAX_NODES && s.dir.pins[s.phase[i].lid] == 0 {
        PinnedWhileUsed(prog, s, s.phase[i].lid);
      }
    }
  }

  /** An acquire returns EINPROGRESS exactly when the task has to wait for its data. */
  method AcquireFor(md: Metadata, prog: Program, s: Sys, i: nat, l: nat, src: nat) returns (err: int)
    requires Shaped(prog, s) && Allowed(prog, s, EAcquire(i, l, src)) && md.View() == s.dir && InvTasks(s)
    modifies md
    ensures err == 115 <==> l < |md.callbacks| && Notify(i) in md.callbacks[l]
    ensures md.View() == Apply(prog, s, EAcquire(i, l, src)).dir
    ensures err == 115 <==> Apply(prog, s, EAcquire(i, l, src)).phase[i] == Waiting(l)
    ensures err == 0 <==> Apply(prog, s, EAcquire(i, l, src)).phase[i] == Ready(l)
  {
    hide MayStart, Replicas.Acquire, FlowAfterFetch;
    assert !Has(s.dir, l, Notify(i));
    ghost var list := md.callbacks[l];
    err := md.AcquireData(l, prog[i], src, i);
    Registered(list, md.callbacks[l], i, src == l && err != 0 && l !in s.dir.xfer && src in s.dir.xfer, err != 0, l);
  }

  lemma Registered(list: seq<Callback>, list': seq<Callback>, i: nat, forwards: bool, waits: bool, l: nat)
    requires Notify(i) !in list
    requires Gains(list, list', if waits then [Notify(i)] else if forwards then [Resend(l)] else [])
    ensures Notify(i) in list' <==> waits
  {
    assert Notify(i) in list' <==> Notify(i) in multiset(list');
    assert Notify(i) !in multiset(list);
  }

  /** A release is the protocol's. */
  method ReleaseFor(md: Metadata, prog: Program, s: Sys, i: nat)
    requires Shaped(prog, s) && Allowed(prog, s, ERelease(i)) && md.View() == s.dir
    modifies md
    ensures md.View() == Apply(prog, s, ERelease(i)).dir
  {
    md.ReleaseData(s.phase[i].lid);
  }

  /** A delivery wakes exactly the tasks that wait at its destination. */
  method DeliverFor(md: Metadata, prog: Program, s: Sys, n: nat) returns (woken: seq<nat>)
    requires InvCore(prog, s) && Allowed(prog, s, EDeliver(n)) && md.View() == s.dir
    modifies md
    ensures md.View() == Apply(prog, s, EDeliver(n)).dir
    ensures forall t :: 0 <= t < |prog| ==>
              (t in woken <==> s.phase[t] == Waiting(s.dir.posted[n].dst))
              && (t in woken <==> Apply(prog, s, EDeliver(n)).phase[t] != s.phase[t])
  {
    DeliverWakes(prog, s, n);
    WhoWakes(prog, s, n);
    hide InvFlow, InvTasks, InvPins, MayStart, Woken, Receive, Wake;
    woken := md.OnReceive(n);
  }

  lemma WhoWakes(prog: Program, s: Sys, n: nat)
    requires InvCore(prog, s) && n < |s.dir.posted|
    ensures s.dir.posted[n].dst < |s.dir.cbk|
    ensures var l := s.dir.posted[n].dst;
            forall t: nat :: t < |s.phase| ==> (t in Woken(s.dir.cbk[l]) <==> s.phase[t] == Waiting(l))
  {
    var l := s.dir.posted[n].dst;
    assert s.dir.posted[n] in s.dir.posted;
    hide InvFlow, InvPins, Woken, InvOrder;
    forall t: nat | t < |s.phase|
      ensures t in Woken(s.dir.cbk[l]) <==> s.phase[t] == Waiting(l)
    {
      WokenIs(s.dir.cbk[l], t);
      assert Has(s.dir, l, Notify(t)) <==> s.phase[t] == Waiting(l);
    }
  }

  /** An eviction takes place exactly when the protocol allows it of a replica with a buffer. */
  method EvictFor(md: Metadata, prog: Program, s: Sys, l: nat) returns (evicted: bool)
    requires Shaped(prog, s) && l in s.dir.alloc && l < MAX_NODES && md.View() == s.dir
    modifies md
    ensures evicted <==> Allowed(prog, s, EEvict(l))
    ensures md.View() == if evicted then Apply(prog, s, EEvict(l)).dir else s.dir
  {
    evicted := md.TryEvict(l);
  }

  /** A write-back returns EINPROGRESS exactly when the host is to receive. */
  method PrefetchFor(md: Metadata, prog: Program, s: Sys, src: nat) returns (err: int)
    requires Shaped(prog, s) && Allowed(prog, s, EPrefetch(src)) && md.View() == s.dir
    modifies md
    ensures md.View() == Apply(prog, s, EPrefetch(src)).dir
    ensures err == 115 <==> HOST in md.xfer && HOST !in s.dir.valid
    ensures err == 0 <==> HOST in s.dir.valid
  {
    hide Replicas.Prefetch, FlowAfterFetch;
    err := md.PrefetchOn(HOST, src);
  }
}
