/** What the coherence protocol guarantees over every run. */
module CoherenceRuns {
  import opened TileTasks
  import opened Replicas
  import opened Transfers
  import opened Coherence
  import opened CoherenceSteps

  /** A run from s to s'; with tacit, every step also meets what the code assumes of its environment. */
  ghost predicate RunFrom(prog: Program, s: Sys, es: seq<Event>, s': Sys, tacit: bool)
    decreases |es|
  {
    if es == [] then s' == s
    else
      && Shaped(prog, s) && Allowed(prog, s, es[0]) && (tacit ==> Assumed(prog, s, es[0]))
      && RunFrom(prog, Apply(prog, s, es[0]), es[1..], s', tacit)
  }

  ghost predicate Run(prog: Program, es: seq<Event>, s: Sys) {
    RunFrom(prog, Start(prog), es, s, true)
  }

  /** A run goes on with any step that is allowed and meets its assumption. */
  lemma {:induction false} RunGoesOn(prog: Program, s: Sys, es: seq<Event>, s': Sys, e: Event)
    requires RunFrom(prog, s, es, s', true) && Shaped(prog, s') && Allowed(prog, s', e) && Assumed(prog, s', e)
    ensures RunFrom(prog, s, es + [e], Apply(prog, s', e), true)
    decreases |es|
  {
    hide Shaped, Allowed, Assumed, Apply;
    if es == [] {
      assert [e][1..] == [];
      assert es + [e] == [e];
    } else {
      assert (es + [e])[1..] == es[1..] + [e];
      RunGoesOn(prog, Apply(prog, s, es[0]), es[1..], s', e);
    }
  }

  // ----- Safety -----

  lemma {:induction false} NobodyUses(phase: seq<Phase>, l: nat)
    requires forall t :: 0 <= t < |phase| ==> phase[t] == Pending
    ensures Users(phase, l) == 0
  {
    if phase != [] {
      NobodyUses(phase[..|phase| - 1], l);
    }
  }

  lemma {:induction false} NothingWritten(prog: Program, phase: seq<Phase>, n: nat)
    requires n <= |prog| && n <= |phase| && forall t :: 0 <= t < |phase| ==> phase[t] == Pending
    ensures Current(prog, phase, n) == Initial
  {
    if n > 0 {
      NothingWritten(prog, phase, n - 1);
    }
  }

  lemma StartInv(prog: Program)
    ensures Inv(prog, Start(prog))
  {
    var s := Start(prog);
    NothingWritten(prog, s.phase, |prog|);
    forall l | 0 <= l < MAX_NODES
      ensures Users(s.phase, l) == 0
    {
      NobodyUses(s.phase, l);
    }
  }

  lemma {:induction false} RunKeeps(prog: Program, s: Sys, es: seq<Event>, s': Sys)
    requires Inv(prog, s) && RunFrom(prog, s, es, s', true)
    ensures Inv(prog, s')
    decreases |es|
  {
    hide InvCore, InvData, Allowed, Assumed, Apply;
    if es != [] {
      StepKeeps(prog, s, es[0]);
      RunKeeps(prog, Apply(prog, s, es[0]), es[1..], s');
    }
  }

  /** The invariant holds in every reachable state. */
  lemma Reachable(prog: Program, es: seq<Event>, s: Sys)
    requires Run(prog, es, s)
    ensures Inv(prog, s)
  {
    hide InvCore, InvData, RunFrom;
    StartInv(prog);
    RunKeeps(prog, Start(prog), es, s);
  }

  /** The value that task n finds if the tasks run one after the other. */
  function LastWrite(prog: Program, n: nat): Value
    requires n <= |prog|
  {
    if n == 0 then Initial else if Writes(prog[n - 1]) then By(n - 1) else LastWrite(prog, n - 1)
  }

  /** It is that of the last of the first n tasks that does not only read. */
  lemma {:induction false} LastWriteIs(prog: Program, n: nat)
    requires n <= |prog|
    ensures forall j: nat :: LastWrite(prog, n) == By(j) <==>
                             j < n && prog[j] != R && forall i :: j < i < n ==> prog[i] == R
    ensures LastWrite(prog, n) == Initial <==> forall i :: 0 <= i < n ==> prog[i] == R
  {
    if n > 0 {
      LastWriteIs(prog, n - 1);
      if prog[n - 1] == R {
        assert LastWrite(prog, n) == LastWrite(prog, n - 1);
        hide LastWrite;
      }
    }
  }

  lemma {:induction false} CurrentIsLastWrite(prog: Program, phase: seq<Phase>, i: nat, n: nat)
    requires i <= n <= |prog| == |phase|
    requires forall j :: 0 <= j < i && Writes(prog[j]) ==> phase[j] == Done
    requires forall j :: i <= j < n && Writes(prog[j]) ==> !phase[j].Executed? && !phase[j].Done?
    ensures Current(prog, phase, n) == LastWrite(prog, i)
  {
    if n > i {
      CurrentIsLastWrite(prog, phase, i, n - 1);
    } else if n > 0 {
      if !Writes(prog[n - 1]) {
        CurrentIsLastWrite(prog, phase, i - 1, n - 1);
      }
    }
  }

  lemma CurrentForReader(prog: Program, s: Sys, i: nat)
    requires InvOrder(prog, s) && i < |prog| && s.phase[i].Ready?
    ensures Current(prog, s.phase, |prog|) == LastWrite(prog, i)
  {
    assert MayStart(prog, s.phase, i);
    forall j | i < j < |prog| && Writes(prog[j])
      ensures !s.phase[j].Executed? && !s.phase[j].Done?
    {
      assert !Concurrent(prog[i], prog[j]);
    }
    CurrentIsLastWrite(prog, s.phase, i, |prog|);
  }

  lemma ReadyHolds(prog: Program, s: Sys, i: nat)
    requires Inv(prog, s) && i < |prog| && s.phase[i].Ready? && Reads(prog[i])
    ensures s.phase[i].lid < |s.mem| && s.mem[s.phase[i].lid] == LastWrite(prog, i)
  {
    CurrentForReader(prog, s, i);
    hide InvFlow, InvTasks, InvPins, Current;
    if w: nat :| Writing(prog, s.phase, w) {
      SoleWriter(prog, s, w);
      assert w == i;
    }
  }

  /** A task whose transfers are delivered reads the last write in program order, whatever the schedule. */
  lemma ReadsLastWrite(prog: Program, es: seq<Event>, s: Sys, i: nat)
    requires Run(prog, es, s) && i < |prog| && i < |s.phase| && s.phase[i].Ready? && prog[i] != W
    ensures s.phase[i].lid < |s.mem| && s.mem[s.phase[i].lid] == LastWrite(prog, i)
  {
    hide Run, InvData;
    Reachable(prog, es, s);
    ReadyHolds(prog, s, i);
  }

  /** Once every task is done, every valid copy, the host's in particular, holds the last write. */
  lemma FinalValue(prog: Program, es: seq<Event>, s: Sys, l: nat)
    requires Run(prog, es, s) && (forall i :: 0 <= i < |s.phase| ==> s.phase[i] == Done)
    requires l in s.dir.valid
    ensures l < |s.mem| && s.mem[l] == LastWrite(prog, |prog|)
  {
    Reachable(prog, es, s);
    CurrentIsLastWrite(prog, s.phase, |prog|, |prog|);
    hide Run, InvFlow, InvTasks, InvPins, Current;
  }

  /** Eviction never takes a replica in use, in transfer, or the last valid one. */
  lemma EvictionSafe(prog: Program, es: seq<Event>, s: Sys, l: nat)
    requires Run(prog, es, s) && l < |s.dir.pins| && Evictable(s.dir, l)
    ensures l != HOST && l !in s.dir.xfer && (s.dir.valid - {l}) * s.dir.alloc != {}
    ensures forall t :: 0 <= t < |s.phase| && InUse(s.phase[t]) ==> s.phase[t].lid != l
  {
    hide RunFrom;
    Reachable(prog, es, s);
    PinnedWhileUsed(prog, s, l);
    hide InvFlow, InvTasks, InvPins, InvData;
    var v :| v in s.dir.valid - {l};
    assert v in (s.dir.valid - {l}) * s.dir.alloc;
  }

  // ----- Transfers -----

  /** A destination has one copy in flight at most, and it is not valid for anyone to read from. */
  lemma OneCopyEach(prog: Program, es: seq<Event>, s: Sys, a: nat, b: nat)
    requires Run(prog, es, s) && a < b < |s.dir.posted|
    ensures s.dir.posted[a].dst != s.dir.posted[b].dst
  {
    hide RunFrom;
    Reachable(prog, es, s);
    hide InvTasks, InvPins, InvData, Has;
    OneCarrier(s.dir, s.flow, a);
  }

  /** When data arrives at l and is sent on, the next destination is not valid yet. */
  lemma ForwardsNeeded(prog: Program, es: seq<Event>, s: Sys, n: nat, x: nat)
    requires Run(prog, es, s) && n < |s.dir.posted| && Has(s.dir, s.dir.posted[n].dst, Resend(x))
    ensures x !in s.dir.valid + {s.dir.posted[n].dst} && x in s.dir.xfer
  {
    hide RunFrom;
    Reachable(prog, es, s);
    hide InvTasks, InvPins, InvOrder, Has, Tidy, Sized, Current;
    var l := s.dir.posted[n].dst;
    assert s.dir.posted[n] in s.dir.posted && Carried(s.dir, s.flow, x);
    assert x in s.dir.xfer && l in s.dir.xfer && x != l;
  }

  lemma {:induction false} WokenDistinct(list: seq<Callback>)
    requires NoRepeats(list)
    ensures forall a, b :: 0 <= a < b < |Woken(list)| ==> Woken(list)[a] != Woken(list)[b]
  {
    if list != [] {
      var rest := list[1..];
      assert forall a, b :: 0 <= a < b < |rest| && rest[a] == rest[b] ==> list[a + 1] == list[b + 1];
      WokenDistinct(rest);
      if list[0].Notify? {
        WokenIs(rest, list[0].task);
        assert forall b :: 0 <= b < |rest| ==> rest[b] == list[b + 1] != list[0];
        assert list[0].task !in Woken(rest);
      }
    }
  }

  /** An arrival runs the callback of each task that waits there once, and of no other task. */
  lemma CallbacksOnce(prog: Program, es: seq<Event>, s: Sys, n: nat, t: nat)
    requires Run(prog, es, s) && n < |s.dir.posted|
    ensures s.dir.posted[n].dst < |s.dir.cbk|
    ensures var woken := Woken(s.dir.cbk[s.dir.posted[n].dst]);
            && multiset(woken)[t] <= 1
            && (t in woken <==> t < |s.phase| && s.phase[t] == Waiting(s.dir.posted[n].dst))
  {
    hide RunFrom;
    Reachable(prog, es, s);
    var l := s.dir.posted[n].dst;
    assert s.dir.posted[n] in s.dir.posted && l in s.flow;
    var woken := Woken(s.dir.cbk[l]);
    assert forall a, b :: 0 <= a < b < |woken| ==> woken[a] != woken[b] by {
      hide InvTasks, InvPins, InvData, Has;
      WokenDistinct(s.dir.cbk[l]);
    }
    hide InvFlow, InvPins, InvData, InvOrder;
    WokenIs(s.dir.cbk[l], t);
    assert Has(s.dir, l, Notify(t)) <==> t in woken;
    Distinct(woken, t);
  }

  lemma {:induction false} Distinct(list: seq<nat>, t: nat)
    requires forall a, b :: 0 <= a < b < |list| ==> list[a] != list[b]
    ensures multiset(list)[t] <= 1
  {
    if list != [] {
      assert list == [list[0]] + list[1..];
      Distinct(list[1..], t);
      assert t == list[0] ==> t !in list[1..];
    }
  }

  // ----- Progress -----

  /** While some replica receives, a copy is posted: forwarding cannot deadlock. */
  lemma AlwaysACopy(prog: Program, es: seq<Event>, s: Sys)
    requires Run(prog, es, s) && s.dir.xfer != {}
    ensures s.dir.posted != []
  {
    hide InvCore, InvData;
    Reachable(prog, es, s);
    CanDeliver(prog, s);
  }

  lemma DeliveryShrinks(prog: Program, s: Sys, n: nat)
    requires InvCore(prog, s) && Allowed(prog, s, EDeliver(n))
    ensures |Apply(prog, s, EDeliver(n)).dir.xfer| == |s.dir.xfer| - 1
  {
    hide InvCore, InvData, Apply, Allowed;
    DeliverView(prog, s, n);
  }

  predicate Deliveries(es: seq<Event>) { forall k :: 0 <= k < |es| ==> es[k].EDeliver? }

  /** Every delivery ends exactly one transfer, so a run of deliveries cannot be longer than xfer is large. */
  lemma {:induction false} DeliveriesBounded(prog: Program, s: Sys, es: seq<Event>, s': Sys)
    requires Inv(prog, s) && Deliveries(es) && RunFrom(prog, s, es, s', true)
    ensures |es| + |s'.dir.xfer| == |s.dir.xfer|
    decreases |es|
  {
    hide InvCore, InvData, Apply, Allowed, Assumed;
    if es != [] {
      assert es[0].EDeliver?;
      assert forall k :: 0 <= k < |es| - 1 ==> es[1..][k] == es[k + 1];
      DeliveryShrinks(prog, s, es[0].n);
      StepKeeps(prog, s, es[0]);
      DeliveriesBounded(prog, Apply(prog, s, es[0]), es[1..], s');
    }
  }

  /** Nobody waits once the transfers are over. */
  lemma NobodyWaits(prog: Program, s: Sys, t: nat)
    requires InvCore(prog, s) && t < |s.phase| && s.phase[t].Waiting?
    ensures s.phase[t].lid in s.dir.xfer
  {
    hide InvPins, InvData;
    assert Has(s.dir, s.phase[t].lid, Notify(t));
  }

  lemma AllWoken(prog: Program, s: Sys)
    requires InvCore(prog, s) && s.dir.xfer == {}
    ensures forall t :: 0 <= t < |s.phase| ==> !s.phase[t].Waiting?
  {
    hide InvCore, InvData;
    forall t | 0 <= t < |s.phase| && s.phase[t].Waiting?
      ensures false
    {
      NobodyWaits(prog, s, t);
    }
  }

  lemma CanDeliver(prog: Program, s: Sys)
    requires InvCore(prog, s) && s.dir.xfer != {}
    ensures Shaped(prog, s) && s.dir.posted != [] && Allowed(prog, s, EDeliver(0)) && Assumed(prog, s, EDeliver(0))
  {
    hide InvTasks, InvPins, InvData, Has;
    var x :| x in s.dir.xfer;
    CopyBehind(s.dir, s.flow, x);
  }

  /** From every state of the invariant, delivering what is posted wakes every waiting task in |xfer| steps. */
  lemma {:induction false} AllArrive(prog: Program, s: Sys) returns (es: seq<Event>, s': Sys)
    requires Inv(prog, s)
    ensures Deliveries(es) && |es| == |s.dir.xfer| && RunFrom(prog, s, es, s', true) && Inv(prog, s')
    ensures s'.dir.xfer == {} && forall t :: 0 <= t < |s'.phase| ==> !s'.phase[t].Waiting?
    decreases |s.dir.xfer|
  {
    hide InvCore, InvData, Apply, Allowed, Assumed, Sized;
    if s.dir.xfer == {} {
      es, s' := [], s;
      AllWoken(prog, s);
    } else {
      CanDeliver(prog, s);
      DeliveryShrinks(prog, s, 0);
      StepKeeps(prog, s, EDeliver(0));
      var rest;
      rest, s' := AllArrive(prog, Apply(prog, s, EDeliver(0)));
      es := [EDeliver(0)] + rest;
      assert es[1..] == rest;
    }
  }

  /** A selected source stays usable until the fetch commits, unless it is evicted or a writer acquires. */
  lemma SelectionStable(prog: Program, s: Sys, e: Event, src: nat)
    requires Inv(prog, s) && Allowed(prog, s, e) && Holds(s.dir, src)
    requires e != EEvict(src) && (e.EAcquire? ==> !Writes(prog[e.task]))
    ensures Holds(Apply(prog, s, e).dir, src)
  {
    hide InvFlow, InvTasks, InvPins, InvData, MayStart;
    match e
    case EAcquire(i, l, k) => AcquireView(s.dir, l, prog[i], k, i);
    case EPrefetch(k) => PrefetchView(s.dir, k);
    case EDeliver(n) => DeliverView(prog, s, n);
    case _ =>
  }

  // ----- Why the assumptions are there -----

  lemma {:induction false} RunConcat(prog: Program, s: Sys, es: seq<Event>, s1: Sys, es': seq<Event>, s2: Sys)
    requires RunFrom(prog, s, es, s1, false) && RunFrom(prog, s1, es', s2, false)
    ensures RunFrom(prog, s, es + es', s2, false)
    decreases |es|
  {
    hide Apply, Allowed, Shaped;
    if es == [] {
      assert es + es' == es';
    } else {
      assert (es + es')[1..] == es[1..] + es';
      RunConcat(prog, Apply(prog, s, es[0]), es[1..], s1, es', s2);
    }
  }

  lemma RunStep(prog: Program, s: Sys, e: Event)
    requires Shaped(prog, s) && Allowed(prog, s, e)
    ensures RunFrom(prog, s, [e], Apply(prog, s, e), false)
  {
    hide Apply, Allowed, Shaped;
    assert [e][1..] == [];
    assert RunFrom(prog, Apply(prog, s, e), [], Apply(prog, s, e), false);
  }

  /** The first task writes the tile on device 1. */
  lemma WriteOnDevice(prog: Program) returns (es: seq<Event>, s: Sys)
    requires |prog| > 0 && prog[0] == W
    ensures RunFrom(prog, Start(prog), es, s, false) && Shaped(prog, s)
    ensures s.dir == Start(prog).dir.(valid := {1}, alloc := {HOST, 1})
    ensures s.mem == Start(prog).mem[1 := By(0)] && s.phase == Start(prog).phase[0 := Done]
  {
    var s0 := Start(prog);
    var s1 := Apply(prog, s0, EAcquire(0, 1, HOST));
    var s2 := Apply(prog, s1, EExecute(0));
    s := Apply(prog, s2, ERelease(0));
    assert s.dir.pins == s0.dir.pins;
    hide Apply;
    RunStep(prog, s0, EAcquire(0, 1, HOST));
    RunStep(prog, s1, EExecute(0));
    RunStep(prog, s2, ERelease(0));
    hide RunFrom;
    es := [EAcquire(0, 1, HOST)] + [EExecute(0)] + [ERelease(0)];
    RunConcat(prog, s0, [EAcquire(0, 1, HOST)], s1, [EExecute(0)], s2);
    RunConcat(prog, s0, [EAcquire(0, 1, HOST)] + [EExecute(0)], s2, [ERelease(0)], s);
  }

  /** Then the application asks for the tile back, and the copy to the host is posted. */
  lemma WriteBackPosted(prog: Program) returns (es: seq<Event>, s: Sys)
    requires |prog| > 0 && prog[0] == W
    ensures RunFrom(prog, Start(prog), es, s, false) && Shaped(prog, s)
    ensures s.dir == Start(prog).dir.(valid := {1}, alloc := {HOST, 1}, xfer := {HOST},
                                      cbk := Start(prog).dir.cbk[HOST := [Other]], posted := [Copy(1, HOST)])
    ensures s.mem == Start(prog).mem[1 := By(0)] && s.phase == Start(prog).phase[0 := Done]
  {
    hide RunFrom;
    var s3: Sys;
    es, s3 := WriteOnDevice(prog);
    s := Apply(prog, s3, EPrefetch(1));
    RunStep(prog, s3, EPrefetch(1));
    RunConcat(prog, Start(prog), es, s3, [EPrefetch(1)], s);
    es := es + [EPrefetch(1)];
    assert s.dir.alloc == {HOST, 1};
  }

  /** The second task writes on the host without waiting for the copy. */
  lemma WriteOnHost(prog: Program) returns (es: seq<Event>, s: Sys)
    requires |prog| > 1 && prog[0] == prog[1] == W
    ensures RunFrom(prog, Start(prog), es, s, false) && Shaped(prog, s)
    ensures s.dir == Start(prog).dir.(valid := {HOST}, alloc := {HOST, 1}, xfer := {HOST},
                                      cbk := Start(prog).dir.cbk[HOST := [Other]], posted := [Copy(1, HOST)])
    ensures s.mem == Start(prog).mem[1 := By(0)][HOST := By(1)]
    ensures s.phase == Start(prog).phase[0 := Done][1 := Done]
  {
    hide RunFrom;
    var s4: Sys;
    es, s4 := WriteBackPosted(prog);
    var s5 := Apply(prog, s4, EAcquire(1, HOST, 1));
    assert s5.dir.alloc == {HOST, 1};
    var s6 := Apply(prog, s5, EExecute(1));
    s := Apply(prog, s6, ERelease(1));
    assert s.dir.pins == s4.dir.pins;
    hide Apply;
    RunStep(prog, s4, EAcquire(1, HOST, 1));
    RunStep(prog, s5, EExecute(1));
    RunStep(prog, s6, ERelease(1));
    RunConcat(prog, Start(prog), es, s4, [EAcquire(1, HOST, 1)], s5);
    RunConcat(prog, Start(prog), es + [EAcquire(1, HOST, 1)], s5, [EExecute(1)], s6);
    RunConcat(prog, Start(prog), es + [EAcquire(1, HOST, 1)] + [EExecute(1)], s6, [ERelease(1)], s);
    es := es + [EAcquire(1, HOST, 1)] + [EExecute(1)] + [ERelease(1)];
  }

  /**
   A write-back that is still in flight when the next writer acquires the tile
   lands on top of the new value: the reader after it finds the old one.
   */
  lemma WriteBackOvertakes() returns (es: seq<Event>, s: Sys)
    ensures RunFrom([W, W, R], Start([W, W, R]), es, s, false)
    ensures |s.phase| == 3 && s.phase[2] == Ready(HOST) && |s.mem| == MAX_NODES
    ensures s.mem[HOST] == By(0) && LastWrite([W, W, R], 2) == By(1)
  {
    hide RunFrom;
    var prog := [W, W, R];
    var s7: Sys;
    es, s7 := WriteOnHost(prog);
    var s8 := Apply(prog, s7, EDeliver(0));
    s := Apply(prog, s8, EAcquire(2, HOST, HOST));
    hide Apply;
    RunStep(prog, s7, EDeliver(0));
    RunStep(prog, s8, EAcquire(2, HOST, HOST));
    RunConcat(prog, Start(prog), es, s7, [EDeliver(0)], s8);
    RunConcat(prog, Start(prog), es + [EDeliver(0)], s8, [EAcquire(2, HOST, HOST)], s);
    es := es + [EDeliver(0)] + [EAcquire(2, HOST, HOST)];
  }

  /** The write-back has arrived. */
  lemma WrittenBack(prog: Program) returns (es: seq<Event>, s: Sys)
    requires |prog| > 1 && prog[0] == W && prog[1] == R
    ensures RunFrom(prog, Start(prog), es, s, false) && Shaped(prog, s)
    ensures s.dir == Start(prog).dir.(valid := {HOST, 1}, alloc := {HOST, 1})
    ensures s.mem == Start(prog).mem[1 := By(0)][HOST := By(0)] && s.phase == Start(prog).phase[0 := Done]
  {
    hide RunFrom;
    var s4: Sys;
    es, s4 := WriteBackPosted(prog);
    s := Apply(prog, s4, EDeliver(0));
    assert s4.dir.cbk[HOST := []] == Start(prog).dir.cbk;
    assert s.dir.valid == {HOST, 1} && s.dir.posted == [] && s.dir.xfer == {};
    hide Apply;
    RunStep(prog, s4, EDeliver(0));
    RunConcat(prog, Start(prog), es, s4, [EDeliver(0)], s);
    es := es + [EDeliver(0)];
  }

  /** Both the host and device 1 hold the tile, and device 2 fetches it from device 1. */
  lemma ReadFromDevice(prog: Program) returns (es: seq<Event>, s: Sys)
    requires |prog| > 1 && prog[0] == W && prog[1] == R
    ensures RunFrom(prog, Start(prog), es, s, false) && Shaped(prog, s)
    ensures s.dir.valid == {HOST, 1} && s.dir.alloc == {HOST, 1, 2} && s.dir.pins[1] == 0
    ensures s.dir.posted == [Copy(1, 2)] && s.dir.cbk[2] == [Notify(1)]
    ensures s.phase[1] == Waiting(2)
  {
    hide RunFrom;
    var s5: Sys;
    es, s5 := WrittenBack(prog);
    s := Apply(prog, s5, EAcquire(1, 2, 1));
    hide Apply;
    RunStep(prog, s5, EAcquire(1, 2, 1));
    RunConcat(prog, Start(prog), es, s5, [EAcquire(1, 2, 1)], s);
    es := es + [EAcquire(1, 2, 1)];
  }

  /** Nothing pins the source of a copy: it may be evicted before the copy completes, and the reader finds garbage. */
  lemma SourceEvicted() returns (es: seq<Event>, s: Sys)
    ensures RunFrom([W, R], Start([W, R]), es, s, false)
    ensures |s.phase| == 2 && s.phase[1] == Ready(2) && |s.mem| == MAX_NODES && s.mem[2] == Garbage
  {
    hide RunFrom;
    var prog := [W, R];
    var s6: Sys;
    es, s6 := ReadFromDevice(prog);
    assert HOST in s6.dir.valid - {1};
    var s7 := Apply(prog, s6, EEvict(1));
    s := Apply(prog, s7, EDeliver(0));
    WokenIs([Notify(1)], 1);
    hide Apply;
    RunStep(prog, s6, EEvict(1));
    RunStep(prog, s7, EDeliver(0));
    RunConcat(prog, Start(prog), es, s6, [EEvict(1)], s7);
    RunConcat(prog, Start(prog), es + [EEvict(1)], s7, [EDeliver(0)], s);
    es := es + [EEvict(1)] + [EDeliver(0)];
  }
}
