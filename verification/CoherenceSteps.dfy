/** Each step of the coherence protocol keeps the invariant. */
module CoherenceSteps {
  import opened TileTasks
  import opened Replicas
  import opened Transfers
  import opened Coherence

  // ----- Order -----

  lemma OrderKept(prog: Program, s: Sys, s': Sys)
    requires InvOrder(prog, s) && |s'.phase| == |prog|
    requires forall i :: 0 <= i < |prog| && s.phase[i] == Done ==> s'.phase[i] == Done
    requires forall i :: 0 <= i < |prog| && s'.phase[i] != Pending ==>
                s.phase[i] != Pending || MayStart(prog, s.phase, i)
    ensures InvOrder(prog, s')
  {
  }

  /** While a writer uses the tile, nobody else does. */
  lemma SoleWriter(prog: Program, s: Sys, w: nat)
    requires InvOrder(prog, s) && w < |prog| && Writes(prog[w]) && s.phase[w] != Done
    requires InUse(s.phase[w]) || MayStart(prog, s.phase, w)
    ensures forall j :: 0 <= j < w ==> s.phase[j] == Done
    ensures forall j :: w < j < |prog| ==> s.phase[j] == Pending
  {
    assert MayStart(prog, s.phase, w);
    forall j | w < j < |prog|
      ensures s.phase[j] == Pending
    {
      assert !Concurrent(prog[w], prog[j]);
    }
  }

  /** A reader that may start excludes writers. */
  lemma NoWriter(prog: Program, s: Sys, i: nat)
    requires InvOrder(prog, s) && i < |prog| && s.phase[i] != Done && MayStart(prog, s.phase, i)
    ensures forall j: nat :: j != i ==> !Writing(prog, s.phase, j)
  {
    forall j: nat | j != i && Writing(prog, s.phase, j)
      ensures false
    {
      SoleWriter(prog, s, j);
    }
  }

  lemma {:induction false} CurrentSame(prog: Program, phase: seq<Phase>, phase': seq<Phase>, n: nat)
    requires n <= |prog| && |phase| == |phase'| == |prog|
    requires forall j :: 0 <= j < n && Writes(prog[j]) ==>
               (phase[j].Executed? || phase[j].Done? <==> phase'[j].Executed? || phase'[j].Done?)
    ensures Current(prog, phase, n) == Current(prog, phase', n)
  {
    if n > 0 {
      CurrentSame(prog, phase, phase', n - 1);
    }
  }

  lemma {:induction false} CurrentIs(prog: Program, phase: seq<Phase>, w: nat, n: nat)
    requires w < n <= |prog| && |phase| == |prog| && Writes(prog[w]) && (phase[w].Executed? || phase[w].Done?)
    requires forall j :: w < j < n ==> phase[j] == Pending
    ensures Current(prog, phase, n) == By(w)
  {
    if w < n - 1 {
      CurrentIs(prog, phase, w, n - 1);
    }
  }

  // ----- Pins -----

  lemma {:induction false} UsersUpdate(phase: seq<Phase>, i: nat, ph: Phase, l: nat)
    requires i < |phase|
    ensures Users(phase[i := ph], l) + UsesAt(phase[i], l) == Users(phase, l) + UsesAt(ph, l)
  {
    var n := |phase| - 1;
    if i == n {
      assert phase[i := ph][..n] == phase[..n];
    } else {
      UsersUpdate(phase[..n], i, ph, l);
      assert phase[i := ph][..n] == phase[..n][i := ph];
    }
  }

  lemma {:induction false} UsersSame(phase: seq<Phase>, phase': seq<Phase>, l: nat)
    requires |phase| == |phase'|
    requires forall t :: 0 <= t < |phase| ==> UsesAt(phase[t], l) == UsesAt(phase'[t], l)
    ensures Users(phase, l) == Users(phase', l)
  {
    if phase != [] {
      var n := |phase| - 1;
      UsersSame(phase[..n], phase'[..n], l);
      assert UsesAt(phase[n], l) == UsesAt(phase'[n], l);
    }
  }

  lemma {:induction false} UsersPositive(phase: seq<Phase>, t: nat, l: nat)
    requires t < |phase| && InUse(phase[t]) && phase[t].lid == l
    ensures Users(phase, l) > 0
  {
    var n := |phase| - 1;
    if t < n {
      UsersPositive(phase[..n], t, l);
    }
  }

  /** Everything in use is pinned, and so is everything that receives. */
  lemma PinnedWhileUsed(prog: Program, s: Sys, l: nat)
    requires InvCore(prog, s) && l < MAX_NODES && s.dir.pins[l] == 0
    ensures l !in s.dir.xfer && l != HOST
    ensures forall t :: 0 <= t < |s.phase| && InUse(s.phase[t]) ==> s.phase[t].lid != l
  {
    hide InvFlow, InvData, InvOrder, Has;
    forall t | 0 <= t < |s.phase| && InUse(s.phase[t])
      ensures s.phase[t].lid != l
    {
      if s.phase[t].lid == l {
        UsersPositive(s.phase, t, l);
      }
    }
  }

  /** One task moves to another phase; its pin moves with it. */
  lemma PinsUpdate(s: Sys, s': Sys, i: nat, l: nat)
    requires InvPins(s) && i < |s.phase| == |s'.phase| && l < MAX_NODES == |s'.dir.pins|
    requires s'.phase == s.phase[i := s'.phase[i]]
    requires InUse(s.phase[i]) ==> s.phase[i].lid == l
    requires InUse(s'.phase[i]) ==> s'.phase[i].lid == l
    requires s'.dir.pins == s.dir.pins[l := s'.dir.pins[l]]
    requires s'.dir.pins[l] + UsesAt(s.phase[i], l) == s.dir.pins[l] + UsesAt(s'.phase[i], l)
    ensures InvPins(s')
  {
    forall k | 0 <= k < MAX_NODES
      ensures s'.dir.pins[k] == Users(s'.phase, k) + (if k == HOST then 1 else 0)
    {
      UsersUpdate(s.phase, i, s'.phase[i], k);
    }
  }

  // ----- Acquire -----

  lemma AcquireView(d: Dir, l: nat, m: Mode, src: nat, t: nat)
    requires Sized(d) && l < MAX_NODES && src < MAX_NODES
    ensures var d' := Replicas.Acquire(d, l, m, src, t);
            && d'.xfer == (if Reads(m) && l !in d.valid then d.xfer + {l} else d.xfer)
            && d'.valid == (if Writes(m) then {l} else d.valid)
            && d'.alloc == d.alloc + {l} && d'.pins == d.pins[l := d.pins[l] + 1]
            && d'.posted == (if Reads(m) && l !in d.valid && l !in d.xfer && src !in d.xfer
                             then d.posted + [Copy(src, l)] else d.posted)
            && d'.cbk == (if Reads(m) then Fetch(d, l, src, Notify(t)).cbk else d.cbk)
  {
  }

  lemma FetchHas(d: Dir, dst: nat, src: nat, c: Callback)
    requires Sized(d) && dst < MAX_NODES && src < MAX_NODES
    ensures forall l: nat, t: nat {:trigger Has(Fetch(d, dst, src, c), l, Notify(t))} ::
              Has(Fetch(d, dst, src, c), l, Notify(t)) <==>
              Has(d, l, Notify(t)) || (dst !in d.valid && l == dst && c == Notify(t))
  {
    if dst !in d.valid {
      RegisterHas(d, dst, c);
      var d1 := Register(d, dst, c).(xfer := d.xfer + {dst});
      assert forall l: nat, x :: Has(d1, l, x) <==> Has(Register(d, dst, c), l, x);
      RegisterHas(d1, src, Resend(dst));
    }
  }

  lemma HasSame(d: Dir, d': Dir)
    requires d.cbk == d'.cbk
    ensures forall l: nat, x :: Has(d, l, x) <==> Has(d', l, x)
  {
  }

  /** Nothing is posted unless some replica receives. */
  lemma Quiet(d: Dir, flow: map<nat, Transfer>)
    requires InvFlow(d, flow)
    ensures d.xfer == {} ==> d.posted == []
  {
    hide Has, Tidy, Sized, Carried;
    if d.posted != [] {
      assert d.posted[0] in d.posted;
    }
  }

  /** Before a task acquires, the replicas are settled. */
  lemma SettledBefore(prog: Program, s: Sys, i: nat)
    requires Inv(prog, s) && i < |prog| && s.phase[i] == Pending && MayStart(prog, s.phase, i)
    ensures Settled(s, Current(prog, s.phase, |prog|))
    ensures forall j: nat :: !Writing(prog, s.phase, j)
  {
    hide InvSets, InvFlow, InvTasks, InvPins, Settled, Preparing, Current;
    NoWriter(prog, s, i);
    assert !Writing(prog, s.phase, i);
  }

  lemma AcquireFlow(prog: Program, s: Sys, i: nat, l: nat, src: nat)
    requires Inv(prog, s) && Allowed(prog, s, EAcquire(i, l, src))
    ensures var s' := Apply(prog, s, EAcquire(i, l, src)); InvFlow(s'.dir, s'.flow)
  {
    hide Carried, Purposeful, Tidy, InvPins, InvData, Has, Current;
    SettledBefore(prog, s, i);
    var d1 := Pin(s.dir, l).(alloc := s.dir.alloc + {l});
    FlowSame(s.dir, d1, s.flow);
    HasSame(s.dir, d1);
    var d2 := if Reads(prog[i]) then Fetch(d1, l, src, Notify(i)) else d1;
    var s' := Apply(prog, s, EAcquire(i, l, src));
    assert InvFlow(d2, s'.flow) by {
      if Reads(prog[i]) {
        FetchFlow(d1, s.flow, l, src, Notify(i));
      }
    }
    AcquireFrame(s.dir, l, prog[i], src, i, d2);
    FlowSame(d2, s'.dir, s'.flow);
  }

  lemma AcquireFrame(d: Dir, l: nat, m: Mode, src: nat, t: nat, d2: Dir)
    requires Sized(d) && l < MAX_NODES && src < MAX_NODES && Sized(d2)
    requires d2 == (var d1 := Pin(d, l).(alloc := d.alloc + {l}); if Reads(m) then Fetch(d1, l, src, Notify(t)) else d1)
    ensures var d' := Replicas.Acquire(d, l, m, src, t);
            Sized(d') && d'.xfer == d2.xfer && d'.posted == d2.posted && d'.cbk == d2.cbk
  {
  }

  lemma AcquireTasks(prog: Program, s: Sys, i: nat, l: nat, src: nat)
    requires Inv(prog, s) && Allowed(prog, s, EAcquire(i, l, src))
    ensures InvTasks(Apply(prog, s, EAcquire(i, l, src)))
  {
    hide Has, Fetch, InvFlow, InvData, InvPins, MayStart, FlowAfterFetch;
    var s' := Apply(prog, s, EAcquire(i, l, src));
    FetchHas(s.dir, l, src, Notify(i));
    AcquireView(s.dir, l, prog[i], src, i);
    HasSame(s'.dir, if Reads(prog[i]) then Fetch(s.dir, l, src, Notify(i)) else s.dir);
    hide Replicas.Acquire;
    WaitingKept(s, s', i);
    forall t | 0 <= t < |s'.phase| && s'.phase[t].Waiting?
      ensures Has(s'.dir, s'.phase[t].lid, Notify(t))
    {
      if t != i {
        assert s'.phase[t] == s.phase[t];
      }
    }
  }

  /** A receiving replica keeps its waiting task when only task i, which did not wait, moves. */
  lemma WaitingKept(s: Sys, s': Sys, i: nat)
    requires InvTasks(s) && i < |s.phase| == |s'.phase| && !s.phase[i].Waiting?
    requires s'.phase == s.phase[i := s'.phase[i]]
    requires forall x :: x in s'.dir.xfer && x !in s.dir.xfer ==> s'.phase[i] == Waiting(x)
    ensures forall x :: x in s'.dir.xfer && x != HOST ==> exists t :: 0 <= t < |s'.phase| && s'.phase[t] == Waiting(x)
  {
    hide Has;
    forall x | x in s'.dir.xfer && x != HOST
      ensures exists t :: 0 <= t < |s'.phase| && s'.phase[t] == Waiting(x)
    {
      if x in s.dir.xfer {
        var t :| 0 <= t < |s.phase| && s.phase[t] == Waiting(x);
        assert s'.phase[t] == Waiting(x);
      } else {
        assert s'.phase[i] == Waiting(x);
      }
    }
  }

  lemma AcquireRest(prog: Program, s: Sys, i: nat, l: nat, src: nat)
    requires Inv(prog, s) && Allowed(prog, s, EAcquire(i, l, src))
    ensures var s' := Apply(prog, s, EAcquire(i, l, src)); InvSets(s') && InvPins(s') && InvOrder(prog, s')
  {
    var s' := Apply(prog, s, EAcquire(i, l, src));
    AcquireFlow(prog, s, i, l, src);
    hide InvFlow, InvData, InvTasks, Has, Fetch, InvPins;
    assert InvOrder(prog, s') by { OrderKept(prog, s, s'); }
    AcquireView(s.dir, l, prog[i], src, i);
    assert InvSets(s');
    hide Sized, InvSets;
    PinsUpdate(s, s', i, l);
  }

  // ----- Data -----

  /** InvData when nobody prepares to write. */
  lemma DataSettled(prog: Program, s: Sys, v: Value)
    requires |s.phase| == |prog| && Sized(s.dir) && |s.mem| == MAX_NODES && v == Current(prog, s.phase, |prog|)
    requires forall i :: 0 <= i < |prog| && (s.phase[i].Ready? || s.phase[i].Executed?) ==>
                s.phase[i].lid in s.dir.valid
    requires forall i: nat :: !Writing(prog, s.phase, i)
    requires Settled(s, v)
    ensures InvData(prog, s)
  {
  }

  /** InvData while task w, alone, prepares to write. */
  lemma DataPreparing(prog: Program, s: Sys, w: nat, v: Value)
    requires |s.phase| == |prog| && Sized(s.dir) && |s.mem| == MAX_NODES && v == Current(prog, s.phase, |prog|)
    requires w < |prog| && (forall j :: 0 <= j < |prog| && j != w ==> !InUse(s.phase[j]))
    requires Writing(prog, s.phase, w) && Preparing(prog, s, w, v)
    requires forall c :: c in s.dir.posted ==> s.mem[c.src] == v
    ensures InvData(prog, s)
  {
  }

  /** The replicas stay settled when a replica that is not valid starts to receive. */
  lemma SettledFetch(s: Sys, s': Sys, l: nat, src: nat, v: Value)
    requires Sized(s.dir) && Sized(s'.dir) && |s.mem| == |s'.mem| == MAX_NODES && l < MAX_NODES
    requires Settled(s, v) && Holds(s.dir, src) && s.dir.valid <= s.dir.alloc
    requires s'.dir.valid == s.dir.valid
    requires s'.dir.xfer == if l !in s.dir.valid then s.dir.xfer + {l} else s.dir.xfer
    requires forall c :: c in s'.dir.posted ==> c in s.dir.posted || (c == Copy(src, l) && src !in s.dir.xfer)
    requires s'.mem == if l in s.dir.alloc then s.mem else s.mem[l := Garbage]
    ensures Settled(s', v)
  {
  }

  lemma ReadData(prog: Program, s: Sys, i: nat, l: nat, src: nat)
    requires Inv(prog, s) && Allowed(prog, s, EAcquire(i, l, src)) && !Writes(prog[i])
    requires Sized(Apply(prog, s, EAcquire(i, l, src)).dir)
    ensures InvData(prog, Apply(prog, s, EAcquire(i, l, src)))
  {
    var s' := Apply(prog, s, EAcquire(i, l, src));
    hide InvFlow, InvPins, Has, Fetch, Sized, InvTasks, Settled, Preparing;
    SettledBefore(prog, s, i);
    CurrentSame(prog, s.phase, s'.phase, |prog|);
    AcquireView(s.dir, l, prog[i], src, i);
    hide Replicas.Acquire, Current, InvOrder, MayStart;
    var v := Current(prog, s.phase, |prog|);
    SettledFetch(s, s', l, src, v);
    assert forall j: nat :: Writing(prog, s'.phase, j) ==> Writing(prog, s.phase, j);
    DataSettled(prog, s', v);
  }

  /** What the acquire of a writer does to the directory, the buffers and the phases. */
  lemma WriterView(prog: Program, s: Sys, i: nat, l: nat, src: nat)
    requires Shaped(prog, s) && Allowed(prog, s, EAcquire(i, l, src)) && Writes(prog[i])
    ensures var s' := Apply(prog, s, EAcquire(i, l, src)); var fetches := Reads(prog[i]) && l !in s.dir.valid;
            && s'.dir.valid == {l} && s'.dir.xfer == (if fetches then s.dir.xfer + {l} else s.dir.xfer)
            && s'.dir.posted == (if fetches && l !in s.dir.xfer && src !in s.dir.xfer
                                 then s.dir.posted + [Copy(src, l)] else s.dir.posted)
            && s'.mem == (if l in s.dir.alloc then s.mem else s.mem[l := Garbage])
            && s'.phase == s.phase[i := if fetches then Waiting(l) else Ready(l)]
  {
    AcquireView(s.dir, l, prog[i], src, i);
    hide Replicas.Acquire, Fetch, FlowAfterFetch, MayStart;
  }

  /** Every copy posted then comes from a replica that holds the value. */
  lemma SourcesHold(prog: Program, s: Sys, i: nat, l: nat, src: nat, v: Value)
    requires Shaped(prog, s) && Allowed(prog, s, EAcquire(i, l, src)) && Writes(prog[i])
    requires Settled(s, v) && s.dir.valid <= s.dir.alloc && s.dir.xfer <= s.dir.alloc
    ensures var s' := Apply(prog, s, EAcquire(i, l, src));
            |s'.mem| == MAX_NODES && forall c :: c in s'.dir.posted ==> c.src < MAX_NODES && s'.mem[c.src] == v
  {
    WriterView(prog, s, i, l, src);
    var s' := Apply(prog, s, EAcquire(i, l, src));
    assert Holds(s.dir, src);
    hide Apply, Allowed;
    forall c | c in s'.dir.posted
      ensures c.src < MAX_NODES && s'.mem[c.src] == v
    {
      assert c.src in s.dir.valid;
      assert c.src < MAX_NODES;
    }
  }

  lemma WriteData(prog: Program, s: Sys, i: nat, l: nat, src: nat)
    requires Inv(prog, s) && Allowed(prog, s, EAcquire(i, l, src)) && Assumed(prog, s, EAcquire(i, l, src))
    requires Writes(prog[i]) && Sized(Apply(prog, s, EAcquire(i, l, src)).dir)
    ensures InvData(prog, Apply(prog, s, EAcquire(i, l, src)))
  {
    var s' := Apply(prog, s, EAcquire(i, l, src));
    hide InvFlow, InvPins, Has, Fetch, Sized, InvTasks, InvData, Apply;
    SettledBefore(prog, s, i);
    SoleWriter(prog, s, i);
    WriterView(prog, s, i, l, src);
    CurrentSame(prog, s.phase, s'.phase, |prog|);
    SourcesHold(prog, s, i, l, src, Current(prog, s.phase, |prog|));
    hide Current, InvOrder, MayStart;
    DataPreparing(prog, s', i, Current(prog, s.phase, |prog|));
  }

  lemma AcquireKeeps(prog: Program, s: Sys, i: nat, l: nat, src: nat)
    requires Inv(prog, s) && Allowed(prog, s, EAcquire(i, l, src)) && Assumed(prog, s, EAcquire(i, l, src))
    ensures Inv(prog, Apply(prog, s, EAcquire(i, l, src)))
  {
    hide InvFlow, InvPins, InvTasks, InvData, Replicas.Acquire, FlowAfterFetch;
    AcquireFlow(prog, s, i, l, src);
    AcquireTasks(prog, s, i, l, src);
    AcquireRest(prog, s, i, l, src);
    if Writes(prog[i]) {
      WriteData(prog, s, i, l, src);
    } else {
      ReadData(prog, s, i, l, src);
    }
  }

  // ----- Execute and release -----

  lemma ExecuteData(prog: Program, s: Sys, i: nat)
    requires Inv(prog, s) && Allowed(prog, s, EExecute(i))
    ensures InvData(prog, Apply(prog, s, EExecute(i)))
  {
    var s' := Apply(prog, s, EExecute(i));
    hide InvFlow, InvPins, Has, InvTasks;
    if Writes(prog[i]) {
      assert Writing(prog, s.phase, i);
      SoleWriter(prog, s, i);
      CurrentIs(prog, s'.phase, i, |prog|);
      Quiet(s.dir, s.flow);
      hide Sized, Current, InvOrder, MayStart;
      DataSettled(prog, s', By(i));
    } else {
      CurrentSame(prog, s.phase, s'.phase, |prog|);
      hide Sized, Current, InvOrder, MayStart;
      DataSame(prog, s, s');
    }
  }

  /** Nothing that InvData speaks of has changed, but for one task that has moved past its body. */
  lemma DataSame(prog: Program, s: Sys, s': Sys)
    requires |s.phase| == |s'.phase| == |prog| && Sized(s.dir) && Sized(s'.dir) && |s.mem| == MAX_NODES
    requires InvData(prog, s) && s'.mem == s.mem
    requires s'.dir.valid == s.dir.valid && s'.dir.xfer == s.dir.xfer && s'.dir.posted == s.dir.posted
    requires Current(prog, s'.phase, |prog|) == Current(prog, s.phase, |prog|)
    requires forall i :: 0 <= i < |prog| && (s'.phase[i].Ready? || s'.phase[i].Executed?) ==>
               (s.phase[i].Ready? || s.phase[i].Executed?) && s'.phase[i].lid == s.phase[i].lid
    requires forall i: nat :: Writing(prog, s'.phase, i) <==> Writing(prog, s.phase, i)
    requires forall i: nat :: Writing(prog, s'.phase, i) ==> s'.phase[i] == s.phase[i]
    ensures InvData(prog, s')
  {
    hide Sized, Current;
  }

  lemma ExecuteKeeps(prog: Program, s: Sys, i: nat)
    requires Inv(prog, s) && Allowed(prog, s, EExecute(i))
    ensures Inv(prog, Apply(prog, s, EExecute(i)))
  {
    ExecuteData(prog, s, i);
    hide InvCore, InvData;
    ExecuteCore(prog, s, i);
  }

  lemma ExecuteCore(prog: Program, s: Sys, i: nat)
    requires InvCore(prog, s) && Allowed(prog, s, EExecute(i))
    ensures InvCore(prog, Apply(prog, s, EExecute(i)))
  {
    hide InvFlow;
    var s' := Apply(prog, s, EExecute(i));
    assert InvTasks(s') by { hide Has; WaitingKept(s, s', i); }
    hide InvTasks;
    OrderKept(prog, s, s');
    PinsUpdate(s, s', i, s.phase[i].lid);
  }

  lemma ReleaseKeeps(prog: Program, s: Sys, i: nat)
    requires Inv(prog, s) && Allowed(prog, s, ERelease(i))
    ensures Inv(prog, Apply(prog, s, ERelease(i)))
  {
    hide Has, Carried, Purposeful, Tidy, Settled, Preparing, MayStart;
    var s' := Apply(prog, s, ERelease(i));
    FlowSame(s.dir, s'.dir, s.flow);
    hide InvFlow;
    CurrentSame(prog, s.phase, s'.phase, |prog|);
    hide Current;
    DataSame(prog, s, s');
    hide InvData;
    HasSame(s.dir, s'.dir);
    WaitingKept(s, s', i);
    OrderKept(prog, s, s');
    PinsUpdate(s, s', i, s.phase[i].lid);
  }

  // ----- Evict -----

  lemma EvictData(prog: Program, s: Sys, l: nat)
    requires Inv(prog, s) && Allowed(prog, s, EEvict(l)) && Assumed(prog, s, EEvict(l))
    ensures Sized(Apply(prog, s, EEvict(l)).dir)
    ensures InvData(prog, Apply(prog, s, EEvict(l)))
  {
    hide InvFlow, InvPins, Has, InvTasks, Current, MayStart;
    PinnedWhileUsed(prog, s, l);
    var s' := Apply(prog, s, EEvict(l));
    var v := Current(prog, s.phase, |prog|);
    if w: nat :| Writing(prog, s.phase, w) {
      SoleWriter(prog, s, w);
      hide InvOrder;
      assert InUse(s.phase[w]);
      DataPreparing(prog, s', w, v);
    } else {
      hide InvOrder;
      assert Settled(s', v);
      DataSettled(prog, s', v);
    }
  }

  lemma EvictKeeps(prog: Program, s: Sys, l: nat)
    requires Inv(prog, s) && Allowed(prog, s, EEvict(l)) && Assumed(prog, s, EEvict(l))
    ensures Inv(prog, Apply(prog, s, EEvict(l)))
  {
    hide InvCore, InvData, Apply, Allowed, Assumed;
    EvictData(prog, s, l);
    EvictCore(prog, s, l);
  }

  lemma EvictCore(prog: Program, s: Sys, l: nat)
    requires InvCore(prog, s) && Allowed(prog, s, EEvict(l))
    ensures InvCore(prog, Apply(prog, s, EEvict(l)))
  {
    hide InvData, Carried, Purposeful, Tidy, InvPins, MayStart, Has;
    PinnedWhileUsed(prog, s, l);
    var s' := Apply(prog, s, EEvict(l));
    FlowSame(s.dir, s'.dir, s.flow);
    hide InvFlow;
    assert InvTasks(s') by { HasSame(s.dir, s'.dir); }
    hide InvTasks;
    SamePhases(prog, s, s');
  }

  // ----- Prefetch -----

  lemma PrefetchView(d: Dir, src: nat)
    requires Sized(d) && src < MAX_NODES
    ensures var d' := Replicas.Prefetch(d, HOST, src);
            && d'.xfer == (if HOST !in d.valid then d.xfer + {HOST} else d.xfer)
            && d'.valid == d.valid && d'.alloc == d.alloc + {HOST} && d'.pins == d.pins
            && d'.posted == (if HOST !in d.valid && HOST !in d.xfer && src !in d.xfer
                             then d.posted + [Copy(src, HOST)] else d.posted)
            && d'.cbk == Fetch(d, HOST, src, Other).cbk
  {
  }

  lemma PrefetchFlow(prog: Program, s: Sys, src: nat)
    requires Inv(prog, s) && Allowed(prog, s, EPrefetch(src)) && HOST !in s.dir.valid
    requires forall c :: c in s.dir.posted ==> c.src in s.dir.valid
    ensures var s' := Apply(prog, s, EPrefetch(src)); InvFlow(s'.dir, s'.flow)
  {
    hide Carried, Purposeful, Tidy, InvPins, InvData, Has, Current, InvTasks;
    var d1 := s.dir.(alloc := s.dir.alloc + {HOST});
    FlowSame(s.dir, d1, s.flow);
    FetchFlow(d1, s.flow, HOST, src, Other);
  }

  lemma PrefetchTasks(prog: Program, s: Sys, src: nat)
    requires Inv(prog, s) && Allowed(prog, s, EPrefetch(src))
    ensures InvTasks(Apply(prog, s, EPrefetch(src)))
  {
    hide Has, Fetch, InvFlow, InvData, InvPins, MayStart, FlowAfterFetch;
    var s' := Apply(prog, s, EPrefetch(src));
    FetchHas(s.dir, HOST, src, Other);
    PrefetchView(s.dir, src);
    hide Replicas.Prefetch;
    HasSame(s'.dir, Fetch(s.dir, HOST, src, Other));
    assert forall x :: x in s'.dir.xfer && x != HOST ==> x in s.dir.xfer;
  }

  lemma PrefetchKeeps(prog: Program, s: Sys, src: nat)
    requires Inv(prog, s) && Allowed(prog, s, EPrefetch(src)) && Assumed(prog, s, EPrefetch(src))
    ensures Inv(prog, Apply(prog, s, EPrefetch(src)))
  {
    var s' := Apply(prog, s, EPrefetch(src));
    if HOST in s.dir.valid {
      assert s.dir.alloc + {HOST} == s.dir.alloc;
      assert s' == s;
    } else {
      hide Current, InvTasks, InvOrder, InvPins, Carried, Purposeful, Tidy, Has, Fetch, Preparing;
      var v := Current(prog, s.phase, |prog|);
      assert Settled(s, v);
      PrefetchFlow(prog, s, src);
      PrefetchTasks(prog, s, src);
      PrefetchView(s.dir, src);
      hide InvFlow, Replicas.Prefetch;
      assert InvOrder(prog, s') && InvPins(s') by { SamePhases(prog, s, s'); }
      SettledFetch(s, s', HOST, src, v);
      hide Settled;
      DataSettled(prog, s', v);
    }
  }

  lemma SamePhases(prog: Program, s: Sys, s': Sys)
    requires s.phase == s'.phase && s.dir.pins == s'.dir.pins
    ensures InvOrder(prog, s) ==> InvOrder(prog, s')
    ensures InvPins(s) ==> InvPins(s')
  {
  }

  // ----- Deliver -----

  /** A delivery wakes exactly the tasks that wait there: each registered callback runs once. */
  lemma DeliverWakes(prog: Program, s: Sys, n: nat)
    requires InvCore(prog, s) && Allowed(prog, s, EDeliver(n))
    ensures var l, s' := s.dir.posted[n].dst, Apply(prog, s, EDeliver(n));
            && |s'.phase| == |s.phase|
            && forall t :: 0 <= t < |s.phase| ==>
                   s'.phase[t] == if s.phase[t] == Waiting(l) then Ready(l) else s.phase[t]
  {
    var l, s' := s.dir.posted[n].dst, Apply(prog, s, EDeliver(n));
    assert s.dir.posted[n] in s.dir.posted;
    hide InvData, InvFlow, InvPins, Woken, InvOrder;
    forall t | 0 <= t < |s.phase|
      ensures s'.phase[t] == if s.phase[t] == Waiting(l) then Ready(l) else s.phase[t]
    {
      WokenIs(s.dir.cbk[l], t);
      assert Has(s.dir, l, Notify(t)) <==> s.phase[t] == Waiting(l);
    }
  }

  lemma DeliverView(prog: Program, s: Sys, n: nat)
    requires InvCore(prog, s) && Allowed(prog, s, EDeliver(n))
    ensures var c, s' := s.dir.posted[n], Apply(prog, s, EDeliver(n));
            && c.dst < MAX_NODES && c.src < MAX_NODES && c.dst in s.dir.xfer
            && Sized(s'.dir) && s'.dir.valid == s.dir.valid + {c.dst} && s'.dir.xfer == s.dir.xfer - {c.dst}
            && s'.dir.alloc == s.dir.alloc && s'.dir.pins == s.dir.pins
            && s'.mem == s.mem[c.dst := s.mem[c.src]] && s'.flow == s.flow - {c.dst}
  {
    hide InvTasks, InvData, InvPins, Wake, Woken, Forwards, Has, Carried, Tidy;
    assert s.dir.posted[n] in s.dir.posted;
    ReceiveSized(s.dir, n);
  }

  lemma DeliverTasks(prog: Program, s: Sys, n: nat)
    requires InvCore(prog, s) && Allowed(prog, s, EDeliver(n))
    ensures InvTasks(Apply(prog, s, EDeliver(n)))
  {
    var s' := Apply(prog, s, EDeliver(n));
    var l := s.dir.posted[n].dst;
    HasSame(s'.dir, Receive(s.dir, n));
    hide Has, InvFlow, InvData, InvPins, InvOrder, Receive, Apply, Sized, Wake;
    ReceiveSized(s.dir, n);
    DeliverWakes(prog, s, n);
    DeliverView(prog, s, n);
    WokenTasks(s, s', l);
  }

  lemma WokenTasks(s: Sys, s': Sys, l: nat)
    requires InvTasks(s) && |s'.phase| == |s.phase| && s'.dir.xfer == s.dir.xfer - {l}
    requires forall t :: 0 <= t < |s.phase| ==> s'.phase[t] == if s.phase[t] == Waiting(l) then Ready(l) else s.phase[t]
    requires forall k: nat, x :: Has(s'.dir, k, x) <==> Has(s.dir, k, x) && k != l
    ensures InvTasks(s')
  {
    hide Has;
    forall x | x in s'.dir.xfer && x != HOST
      ensures exists t :: 0 <= t < |s'.phase| && s'.phase[t] == Waiting(x)
    {
      var t :| 0 <= t < |s.phase| && s.phase[t] == Waiting(x);
      assert s'.phase[t] == Waiting(x);
    }
  }

  lemma DeliverRest(prog: Program, s: Sys, n: nat)
    requires InvCore(prog, s) && Allowed(prog, s, EDeliver(n))
    ensures var s' := Apply(prog, s, EDeliver(n)); InvSets(s') && InvPins(s') && InvOrder(prog, s')
  {
    hide InvTasks, InvData, InvFlow, Apply;
    var l, s' := s.dir.posted[n].dst, Apply(prog, s, EDeliver(n));
    DeliverView(prog, s, n);
    DeliverWakes(prog, s, n);
    assert InvSets(s');
    hide Sized, InvSets;
    OrderKept(prog, s, s');
    forall k | 0 <= k < MAX_NODES
      ensures Users(s'.phase, k) == Users(s.phase, k)
    {
      UsersSame(s.phase, s'.phase, k);
    }
  }

  /** The copies that are posted after a delivery come from replicas that hold the value. */
  lemma DeliveredSources(prog: Program, s: Sys, n: nat, v: Value)
    requires InvFlow(s.dir, s.flow) && |s.mem| == MAX_NODES && n < |s.dir.posted|
    requires forall c :: c in s.dir.posted ==> s.mem[c.src] == v
    ensures var l, d' := s.dir.posted[n].dst, Receive(s.dir, n);
            && Sized(d') && l < MAX_NODES && s.dir.posted[n].src < MAX_NODES
            && (forall c :: c in d'.posted ==> c.src == l || (c in s.dir.posted && c.src != l))
            && (forall c :: c in d'.posted ==> s.mem[l := s.mem[s.dir.posted[n].src]][c.src] == v)
  {
    var l := s.dir.posted[n].dst;
    assert s.dir.posted[n] in s.dir.posted;
    ReceiveSized(s.dir, n);
    OneCarrier(s.dir, s.flow, n);
    hide Has, Receive, Carried, Tidy, Purposeful;
    forall c | c in Receive(s.dir, n).posted
      ensures c.src == l || (c in s.dir.posted && c.src != l)
    {
      ReceivedCopies(s.dir, s.flow, n, c);
    }
  }

  /** What a delivery does to the fields that InvData speaks of. */
  ghost predicate Delivered(s: Sys, s': Sys, l: nat, v: Value)
    requires l < MAX_NODES && |s.mem| == |s'.mem| == MAX_NODES && Sized(s'.dir)
  {
    && |s'.phase| == |s.phase|
    && (forall t :: 0 <= t < |s.phase| ==> s'.phase[t] == if s.phase[t] == Waiting(l) then Ready(l) else s.phase[t])
    && s'.dir.valid == s.dir.valid + {l} && s'.dir.xfer == s.dir.xfer - {l} && l in s.dir.xfer
    && s'.mem == s.mem[l := v]
    && (forall c :: c in s'.dir.posted ==> c.src == l || (c in s.dir.posted && c.src != l))
    && (forall c :: c in s'.dir.posted ==> s'.mem[c.src] == v)
  }

  lemma DeliverPreparing(prog: Program, s: Sys, s': Sys, l: nat, w: nat)
    requires InvOrder(prog, s) && InvSets(s) && InvData(prog, s) && Writing(prog, s.phase, w)
    requires l < MAX_NODES && |s'.mem| == MAX_NODES && Sized(s'.dir)
    requires Delivered(s, s', l, Current(prog, s.phase, |prog|))
    requires Current(prog, s'.phase, |prog|) == Current(prog, s.phase, |prog|)
    ensures InvData(prog, s')
  {
    hide Current, MayStart;
    SoleWriter(prog, s, w);
    assert s.phase[w] == Waiting(l) && s'.phase[w] == Ready(l);
    assert s'.dir.valid == {l} && s'.dir.xfer == {};
    DataPreparing(prog, s', w, Current(prog, s.phase, |prog|));
  }

  lemma DeliverSettled(prog: Program, s: Sys, s': Sys, l: nat)
    requires |s.phase| == |prog| && InvSets(s) && InvData(prog, s) && forall w: nat :: !Writing(prog, s.phase, w)
    requires l < MAX_NODES && |s'.mem| == MAX_NODES && Sized(s'.dir)
    requires Delivered(s, s', l, Current(prog, s.phase, |prog|))
    requires Current(prog, s'.phase, |prog|) == Current(prog, s.phase, |prog|)
    ensures InvData(prog, s')
  {
    hide Current, Preparing;
    assert forall w: nat :: Writing(prog, s'.phase, w) ==> Writing(prog, s.phase, w);
    assert Settled(s', Current(prog, s.phase, |prog|));
    DataSettled(prog, s', Current(prog, s.phase, |prog|));
  }

  lemma DeliverData(prog: Program, s: Sys, n: nat)
    requires Inv(prog, s) && Allowed(prog, s, EDeliver(n)) && Sized(Apply(prog, s, EDeliver(n)).dir)
    ensures InvData(prog, Apply(prog, s, EDeliver(n)))
  {
    var v := Current(prog, s.phase, |prog|);
    var l, s' := s.dir.posted[n].dst, Apply(prog, s, EDeliver(n));
    assert s'.dir == Receive(s.dir, n);
    hide InvPins, InvTasks, Current, Apply, Receive, Settled, Preparing, Purposeful, Tidy, Carried, MayStart;
    assert s.dir.posted[n] in s.dir.posted;
    DeliverWakes(prog, s, n);
    DeliverView(prog, s, n);
    CurrentSame(prog, s.phase, s'.phase, |prog|);
    DeliveredSources(prog, s, n, v);
    assert Delivered(s, s', l, v);
    if w: nat :| Writing(prog, s.phase, w) {
      DeliverPreparing(prog, s, s', l, w);
    } else {
      DeliverSettled(prog, s, s', l);
    }
  }

  lemma DeliverCore(prog: Program, s: Sys, n: nat)
    requires InvCore(prog, s) && Allowed(prog, s, EDeliver(n))
    ensures InvCore(prog, Apply(prog, s, EDeliver(n)))
  {
    hide InvTasks, InvPins, Carried, Purposeful, Tidy, InvData;
    ReceiveFlow(s.dir, s.flow, n);
    DeliverTasks(prog, s, n);
    DeliverRest(prog, s, n);
  }

  lemma DeliverKeeps(prog: Program, s: Sys, n: nat)
    requires Inv(prog, s) && Allowed(prog, s, EDeliver(n))
    ensures Inv(prog, Apply(prog, s, EDeliver(n)))
  {
    DeliverCore(prog, s, n);
    hide InvFlow, InvTasks, InvPins, InvOrder, InvData, Apply;
    DeliverData(prog, s, n);
  }

  // ----- Every step -----

  lemma StepKeeps(prog: Program, s: Sys, e: Event)
    requires Inv(prog, s) && Allowed(prog, s, e) && Assumed(prog, s, e)
    ensures Inv(prog, Apply(prog, s, e))
  {
    hide Inv, Apply, Allowed, Assumed;
    match e
    case EAcquire(i, l, src) => AcquireKeeps(prog, s, i, l, src);
    case EExecute(i) => ExecuteKeeps(prog, s, i);
    case ERelease(i) => ReleaseKeeps(prog, s, i);
    case EDeliver(n) => DeliverKeeps(prog, s, n);
    case EEvict(l) => EvictKeeps(prog, s, l);
    case EPrefetch(src) => PrefetchKeeps(prog, s, src);
  }

  lemma {:induction false} CurrentIsData(prog: Program, phase: seq<Phase>, n: nat)
    requires n <= |prog| && n <= |phase|
    ensures Current(prog, phase, n) != Garbage
  {
    if n > 0 {
      CurrentIsData(prog, phase, n - 1);
    }
  }

  // ----- What the buffers cannot hold -----

  lemma StepHistory(prog: Program, s: Sys, e: Event)
    requires InvCore(prog, s) && Allowed(prog, s, e) && History(prog, s)
    ensures History(prog, Apply(prog, s, e))
  {
    hide InvFlow, InvPins, InvOrder, Has, Fetch, FlowAfterFetch, MayStart;
    if e.EDeliver? {
      DeliverWakes(prog, s, e.n);
      DeliverView(prog, s, e.n);
      hide Apply, InvTasks, Sized;
    } else {
      hide InvTasks, Sized;
    }
  }
}
