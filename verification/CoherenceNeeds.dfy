/**
 What the code assumes of its environment is necessary: after any step that breaks an
 assumption, deliveries and task bodies alone lead to a state with wrong data.
 */
module CoherenceNeeds {
  import opened TileTasks
  import opened Replicas
  import opened Transfers
  import opened Coherence
  import opened CoherenceSteps
  import opened CoherenceRuns

  /** A task that is ready to read finds the last write before it in program order. */
  ghost predicate ReadersRight(prog: Program, s: Sys) {
    forall i :: 0 <= i < |prog| && i < |s.phase| && s.phase[i].Ready? && Reads(prog[i]) ==>
      s.phase[i].lid < |s.mem| && s.mem[s.phase[i].lid] == LastWrite(prog, i)
  }

  /** While no writer prepares, every valid replica that receives nothing holds the current value. */
  ghost predicate CopiesRight(prog: Program, s: Sys) {
    |s.phase| == |prog| && (forall i: nat :: !Writing(prog, s.phase, i)) ==>
      forall l :: l in s.dir.valid && l !in s.dir.xfer ==>
        l < |s.mem| && s.mem[l] == Current(prog, s.phase, |prog|)
  }

  ghost predicate Right(prog: Program, s: Sys) { ReadersRight(prog, s) && CopiesRight(prog, s) }

  /** Transfers complete and task bodies run; nothing else happens. */
  predicate Finishing(es: seq<Event>) { forall k :: 0 <= k < |es| ==> es[k].EDeliver? || es[k].EExecute? }

  // ----- With the assumptions -----

  lemma InvRight(prog: Program, s: Sys)
    requires Inv(prog, s)
    ensures Right(prog, s)
  {
    forall i | 0 <= i < |prog| && s.phase[i].Ready? && Reads(prog[i])
      ensures s.phase[i].lid < |s.mem| && s.mem[s.phase[i].lid] == LastWrite(prog, i)
    {
      ReadyHolds(prog, s, i);
    }
    hide InvFlow, InvTasks, InvPins, Current, MayStart, LastWrite;
  }

  lemma {:induction false} FinishingKeeps(prog: Program, s: Sys, es: seq<Event>, s': Sys)
    requires Inv(prog, s) && Finishing(es) && RunFrom(prog, s, es, s', false)
    ensures Inv(prog, s')
    decreases |es|
  {
    hide InvCore, InvData, Apply;
    if es != [] {
      assert es[0].EDeliver? || es[0].EExecute?;
      assert forall k :: 0 <= k < |es| - 1 ==> es[1..][k] == es[k + 1];
      StepKeeps(prog, s, es[0]);
      FinishingKeeps(prog, Apply(prog, s, es[0]), es[1..], s');
    }
  }

  // ----- A stale copy on the host -----

  /** Every posted copy carries u. */
  ghost predicate Fed(s: Sys, u: Value) {
    forall c :: c in s.dir.posted ==> c.src < |s.mem| && s.mem[c.src] == u
  }

  /** The host has u, or will have. */
  predicate HostGets(s: Sys, u: Value) {
    HOST in s.dir.xfer || (HOST in s.dir.valid && |s.mem| > 0 && s.mem[HOST] == u)
  }

  /** Once all has arrived, the writer's body makes the host's copy stale. */
  lemma BodyStales(prog: Program, s: Sys, i: nat, u: Value)
    requires InvCore(prog, s) && s.dir.xfer == {} && Writing(prog, s.phase, i)
    requires s.phase[i].lid != HOST && HostGets(s, u) && u != By(i)
    ensures Allowed(prog, s, EExecute(i)) && !Right(prog, Apply(prog, s, EExecute(i)))
  {
    AllWoken(prog, s);
    var s' := Apply(prog, s, EExecute(i));
    SoleWriter(prog, s, i);
    CurrentIs(prog, s'.phase, i, |prog|);
    hide InvFlow, InvTasks, InvPins, MayStart, Current;
    assert forall j: nat :: !Writing(prog, s'.phase, j);
    assert HOST in s'.dir.valid && HOST !in s'.dir.xfer && s'.mem[HOST] == u;
  }

  lemma DeliverFed(prog: Program, s: Sys, i: nat, u: Value)
    requires InvCore(prog, s) && s.dir.posted != [] && Writing(prog, s.phase, i) && Fed(s, u) && HostGets(s, u)
    ensures Allowed(prog, s, EDeliver(0))
    ensures var s' := Apply(prog, s, EDeliver(0));
            && InvCore(prog, s') && Writing(prog, s'.phase, i) && s'.phase[i].lid == s.phase[i].lid
            && Fed(s', u) && HostGets(s', u)
  {
    hide InvFlow, InvTasks, InvPins, MayStart, Wake, Woken, Forwards;
    DeliveredSources(prog, s, 0, u);
    var s' := Apply(prog, s, EDeliver(0));
    assert s'.dir == Receive(s.dir, 0);
    assert s.dir.posted[0] in s.dir.posted;
    DeliverCore(prog, s, 0);
    DeliverView(prog, s, 0);
    DeliverWakes(prog, s, 0);
    hide InvCore, Apply, Receive;
  }

  lemma {:induction false} FinishStale(prog: Program, s: Sys, i: nat, u: Value) returns (es: seq<Event>, s': Sys)
    requires InvCore(prog, s) && Writing(prog, s.phase, i) && s.phase[i].lid != HOST
    requires Fed(s, u) && HostGets(s, u) && u != By(i)
    ensures Finishing(es) && RunFrom(prog, s, es, s', false) && !Right(prog, s')
    decreases |s.dir.xfer|
  {
    assert Shaped(prog, s);
    hide InvCore, Apply, Allowed, Right, Shaped, Fed, HostGets, Writing;
    if s.dir.xfer == {} {
      BodyStales(prog, s, i, u);
      es, s' := [EExecute(i)], Apply(prog, s, EExecute(i));
      RunStep(prog, s, EExecute(i));
    } else {
      CanDeliver(prog, s);
      DeliverFed(prog, s, i, u);
      DeliveryShrinks(prog, s, 0);
      var rest;
      rest, s' := FinishStale(prog, Apply(prog, s, EDeliver(0)), i, u);
      RunStep(prog, s, EDeliver(0));
      RunConcat(prog, s, [EDeliver(0)], Apply(prog, s, EDeliver(0)), rest, s');
      es := [EDeliver(0)] + rest;
    }
  }

  // ----- A writer that does not wait -----

  /** When a writer may start, only the host can be receiving. */
  lemma OnlyHostReceives(prog: Program, s: Sys, i: nat)
    requires Inv(prog, s) && i < |prog| && s.phase[i] == Pending && MayStart(prog, s.phase, i) && Writes(prog[i])
    ensures s.dir.xfer <= {HOST}
  {
    SoleWriter(prog, s, i);
    hide InvFlow, InvPins, InvData, Has, MayStart;
    forall x | x in s.dir.xfer
      ensures x == HOST
    {
    }
  }

  /** The value is not that of a task that has not written. */
  lemma CurrentIsPast(prog: Program, s: Sys, i: nat, l: nat)
    requires History(prog, s) && l < |s.mem| && i < |s.phase| && !HasWritten(s.phase, i)
    ensures s.mem[l] != By(i)
  {
  }

  lemma AcquireCore(prog: Program, s: Sys, i: nat, l: nat, src: nat)
    requires Inv(prog, s) && Allowed(prog, s, EAcquire(i, l, src))
    ensures InvCore(prog, Apply(prog, s, EAcquire(i, l, src)))
  {
    AcquireFlow(prog, s, i, l, src);
    AcquireTasks(prog, s, i, l, src);
    AcquireRest(prog, s, i, l, src);
    hide Apply, Inv, InvSets, InvFlow, InvTasks, InvPins, InvOrder;
  }

  lemma AcquireFed(prog: Program, s: Sys, i: nat, l: nat, src: nat)
    requires Inv(prog, s) && Allowed(prog, s, EAcquire(i, l, src)) && Writes(prog[i]) && s.dir.xfer == {HOST}
    ensures var s' := Apply(prog, s, EAcquire(i, l, src)); var v := Current(prog, s.phase, |prog|);
            && InvCore(prog, s') && Writing(prog, s'.phase, i) && s'.phase[i].lid == l
            && Fed(s', v) && HostGets(s', v)
  {
    hide InvFlow, InvTasks, InvPins, InvData, MayStart, Current, Apply, Settled;
    AcquireCore(prog, s, i, l, src);
    assert Shaped(prog, s);
    SettledBefore(prog, s, i);
    WriterView(prog, s, i, l, src);
    SourcesHold(prog, s, i, l, src, Current(prog, s.phase, |prog|));
    hide Inv, InvCore, Allowed;
  }

  lemma ValueIsPast(prog: Program, s: Sys, i: nat)
    requires Inv(prog, s) && History(prog, s) && i < |prog| && s.phase[i] == Pending && MayStart(prog, s.phase, i)
    ensures Current(prog, s.phase, |prog|) != By(i)
  {
    SettledBefore(prog, s, i);
    var x :| x in s.dir.valid;
    assert x < MAX_NODES && s.mem[x] == Current(prog, s.phase, |prog|);
    hide Inv, Current;
    CurrentIsPast(prog, s, i, x);
  }

  /** On the host itself the body runs first, and the copy that is under way lands on top. */
  lemma OverwrittenOnHost(prog: Program, s: Sys, i: nat, u: Value) returns (es: seq<Event>, s': Sys)
    requires InvCore(prog, s) && s.dir.xfer == {HOST} && Writing(prog, s.phase, i) && s.phase[i] == Ready(HOST)
    requires Fed(s, u) && u != By(i)
    ensures Finishing(es) && RunFrom(prog, s, es, s', false) && !Right(prog, s')
  {
    hide InvFlow, InvTasks, InvPins, MayStart, Current;
    var s1 := Apply(prog, s, EExecute(i));
    CanDeliver(prog, s);
    ExecuteCore(prog, s, i);
    assert s1.dir == s.dir && s1.mem == s.mem[HOST := By(i)];
    OneCarrier(s.dir, s.flow, 0);
    assert s.dir.posted[0] in s.dir.posted;
    DeliverView(prog, s1, 0);
    DeliverWakes(prog, s1, 0);
    s' := Apply(prog, s1, EDeliver(0));
    es := [EExecute(i)] + [EDeliver(0)];
    SoleWriter(prog, s, i);
    CurrentIs(prog, s'.phase, i, |prog|);
    assert Shaped(prog, s) && Shaped(prog, s1);
    hide InvCore, Apply;
    assert forall j: nat :: !Writing(prog, s'.phase, j);
    assert HOST in s'.dir.valid && HOST !in s'.dir.xfer && s'.mem[HOST] == u;
    RunStep(prog, s, EExecute(i));
    RunStep(prog, s1, EDeliver(0));
    RunConcat(prog, s, [EExecute(i)], s1, [EDeliver(0)], s');
  }

  lemma AcquireNeeds(prog: Program, s: Sys, i: nat, l: nat, src: nat) returns (es: seq<Event>, s': Sys)
    requires Inv(prog, s) && History(prog, s) && Allowed(prog, s, EAcquire(i, l, src))
    requires !Assumed(prog, s, EAcquire(i, l, src))
    ensures Finishing(es) && RunFrom(prog, Apply(prog, s, EAcquire(i, l, src)), es, s', false) && !Right(prog, s')
  {
    OnlyHostReceives(prog, s, i);
    assert s.dir.xfer == {HOST};
    ValueIsPast(prog, s, i);
    AcquireFed(prog, s, i, l, src);
    var s1, v := Apply(prog, s, EAcquire(i, l, src)), Current(prog, s.phase, |prog|);
    if l == HOST {
      assert prog[i] == W && s1.phase[i] == Ready(HOST) && s1.dir.xfer == {HOST};
      hide Inv, InvCore, Apply, Right;
      es, s' := OverwrittenOnHost(prog, s1, i, v);
    } else {
      hide Inv, InvCore, Apply, Right;
      es, s' := FinishStale(prog, s1, i, v);
    }
  }

  // ----- A source that does not stay -----

  lemma {:induction false} LastWriteIsData(prog: Program, n: nat)
    requires n <= |prog|
    ensures LastWrite(prog, n) != Garbage
  {
    if n > 0 {
      LastWriteIsData(prog, n - 1);
    }
  }

  /** Garbage is delivered; whoever waited for it, or anyone after, finds it. */
  lemma GarbageArrives(prog: Program, s: Sys, n: nat)
    requires InvCore(prog, s) && History(prog, s) && n < |s.dir.posted|
    requires s.dir.posted[n].src < |s.mem| && s.mem[s.dir.posted[n].src] == Garbage
    requires forall w: nat :: Writing(prog, s.phase, w) ==> s.phase[w] == Waiting(s.dir.posted[n].dst)
    ensures Allowed(prog, s, EDeliver(n)) && !Right(prog, Apply(prog, s, EDeliver(n)))
  {
    var l, s' := s.dir.posted[n].dst, Apply(prog, s, EDeliver(n));
    DeliverWakes(prog, s, n);
    DeliverView(prog, s, n);
    CurrentIsData(prog, s'.phase, |prog|);
    hide InvCore, Apply, Current;
    assert s'.mem[l] == Garbage;
    if w: nat :| Writing(prog, s.phase, w) {
      assert s'.phase[w] == Ready(l) && Reads(prog[w]);
      LastWriteIsData(prog, w);
    } else {
      assert forall w: nat :: Writing(prog, s'.phase, w) ==> Writing(prog, s.phase, w);
    }
  }

  lemma EvictNeeds(prog: Program, s: Sys, l: nat) returns (es: seq<Event>, s': Sys)
    requires Inv(prog, s) && History(prog, s) && Allowed(prog, s, EEvict(l)) && !Assumed(prog, s, EEvict(l))
    ensures Finishing(es) && RunFrom(prog, Apply(prog, s, EEvict(l)), es, s', false) && !Right(prog, s')
  {
    var s1 := Apply(prog, s, EEvict(l));
    var c :| c in s.dir.posted && c.src == l;
    var n :| 0 <= n < |s.dir.posted| && s.dir.posted[n] == c;
    EvictCore(prog, s, l);
    StepHistory(prog, s, EEvict(l));
    assert s1.mem[l] == Garbage && s1.dir.posted == s.dir.posted && s1.phase == s.phase;
    forall w: nat | Writing(prog, s.phase, w)
      ensures s.phase[w] == Waiting(c.dst)
    {
      WriterAwaits(prog, s, w, c);
    }
    assert Shaped(prog, s1);
    hide Inv, InvCore, Apply, Right;
    GarbageArrives(prog, s1, n);
    RunStep(prog, s1, EDeliver(n));
    es, s' := [EDeliver(n)], Apply(prog, s1, EDeliver(n));
  }

  /** While a writer prepares, the only copy under way is the one it waits for. */
  lemma WriterAwaits(prog: Program, s: Sys, w: nat, c: Copy)
    requires Inv(prog, s) && Writing(prog, s.phase, w) && c in s.dir.posted
    ensures s.phase[w] == Waiting(c.dst)
  {
    assert |s.phase| == |prog|;
    hide InvTasks, InvPins, InvOrder, Has, Tidy, Current;
    assert Preparing(prog, s, w, Current(prog, s.phase, |prog|));
    assert c.dst in s.dir.xfer;
  }

  // ----- A write-back while a writer prepares -----

  lemma PrefetchFed(prog: Program, s: Sys, w: nat, src: nat)
    requires Inv(prog, s) && Allowed(prog, s, EPrefetch(src)) && HOST !in s.dir.valid
    requires Writing(prog, s.phase, w) && s.phase[w].Ready?
    ensures src == s.phase[w].lid != HOST && src < |s.mem|
    ensures var s' := Apply(prog, s, EPrefetch(src));
            && InvCore(prog, s') && s'.phase == s.phase && Fed(s', s.mem[src]) && HostGets(s', s.mem[src])
            && s'.dir.posted == [Copy(src, HOST)] && s'.dir.xfer == {HOST} && s'.mem == s.mem
  {
    hide InvFlow, InvTasks, InvPins, MayStart, Current, Has;
    var s' := Apply(prog, s, EPrefetch(src));
    assert Preparing(prog, s, w, Current(prog, s.phase, |prog|));
    Quiet(s.dir, s.flow);
    PrefetchFlow(prog, s, src);
    PrefetchTasks(prog, s, src);
    PrefetchView(s.dir, src);
    SamePhases(prog, s, s');
    hide InvOrder, InvData, Fetch, Replicas.Prefetch, FlowAfterFetch;
  }

  lemma PrefetchReady(prog: Program, s: Sys, w: nat, src: nat) returns (es: seq<Event>, s': Sys)
    requires Inv(prog, s) && History(prog, s) && Allowed(prog, s, EPrefetch(src)) && HOST !in s.dir.valid
    requires Writing(prog, s.phase, w) && s.phase[w].Ready?
    ensures Finishing(es) && RunFrom(prog, Apply(prog, s, EPrefetch(src)), es, s', false) && !Right(prog, s')
  {
    assert Shaped(prog, s);
    hide InvCore, InvData, Apply, Right, Shaped;
    PrefetchFed(prog, s, w, src);
    CurrentIsPast(prog, s, w, src);
    es, s' := FinishStale(prog, Apply(prog, s, EPrefetch(src)), w, s.mem[src]);
  }

  predicate NoResend(list: seq<Callback>) { forall c :: c in list ==> !c.Resend? }

  /** A replica that alone receives does so by one copy, and forwards to nobody. */
  lemma SingleCopy(d: Dir, flow: map<nat, Transfer>, x: nat)
    requires InvFlow(d, flow) && d.xfer == {x}
    ensures |d.posted| == 1 && d.posted[0].dst == x && x < |d.cbk| && NoResend(d.cbk[x])
  {
    CopyBehind(d, flow, x);
    assert |d.posted| > 1 ==> d.posted[0] != d.posted[1];
    assert forall k :: 0 <= k < |d.posted| ==> d.posted[k] in d.posted && d.posted[k] == Copy(flow[x].src, x);
    assert Carried(d, flow, x);
    assert forall c :: c in d.cbk[x] && c.Resend? ==> Has(d, x, Resend(c.dest));
  }

  lemma {:induction false} NoForwards(list: seq<Callback>, l: nat)
    requires NoResend(list)
    ensures Forwards(list, l) == []
  {
    if list != [] {
      assert list[0] in list && forall c :: c in list[1..] ==> c in list;
      NoForwards(list[1..], l);
    }
  }

  lemma OneForward(list: seq<Callback>, l: nat, x: nat)
    requires NoResend(list)
    ensures Forwards(AddCallback(list, Resend(x)), l) == [Copy(l, x)]
  {
    NoForwards(list, l);
    var more := AddCallback(list, Resend(x));
    if list == [] {
      assert more[1..] == [];
    } else {
      assert list[0] in list && forall c :: c in list[1..] ==> c in list;
      NoForwards(list[1..], l);
      assert more[1..] == [Resend(x)] + list[1..] && more[1..][1..] == list[1..];
    }
  }

  /** Asking for the forward and then delivering leaves the directory as delivering and then posting does. */
  lemma ForwardCommutes(d: Dir, flow: map<nat, Transfer>, x: nat)
    requires InvFlow(d, flow) && d.xfer == {x} && x != HOST && x in d.valid && HOST !in d.valid && HOST in d.alloc
    ensures |d.posted| == 1 && x < MAX_NODES && Sized(Prefetch(d, HOST, x)) && |Prefetch(d, HOST, x).posted| == 1
    ensures Sized(Receive(d, 0)) && Receive(Prefetch(d, HOST, x), 0) == Prefetch(Receive(d, 0), HOST, x)
  {
    SingleCopy(d, flow, x);
    hide InvFlow;
    ReceiveSized(d, 0);
    OneForward(d.cbk[x], x, HOST);
    NoForwards(d.cbk[x], x);
    RegisterSized(d, HOST, Other);
    var d1 := Register(d, HOST, Other).(xfer := d.xfer + {HOST});
    assert Sized(d1);
    RegisterSized(d1, x, Resend(HOST));
    assert d.alloc + {HOST} == d.alloc;
    assert Prefetch(d, HOST, x) == Register(d1, x, Resend(HOST));
    var a, b := Receive(Prefetch(d, HOST, x), 0), Prefetch(Receive(d, 0), HOST, x);
    assert a.cbk == b.cbk;
    assert a.posted == b.posted == [Copy(x, HOST)];
    assert a.xfer == b.xfer == {HOST};
    assert a.valid == b.valid;
  }

  /** Only the source of a lone transfer matters, not its depth. */
  lemma DepthFree(d: Dir, flow: map<nat, Transfer>, flow': map<nat, Transfer>, x: nat)
    requires InvFlow(d, flow) && flow.Keys == flow'.Keys == {x} && flow'[x].src == flow[x].src
    ensures InvFlow(d, flow')
  {
    assert Carried(d, flow, x);
    assert Carried(d, flow', x);
  }

  lemma SameWoken(phase: seq<Phase>, list: seq<Callback>, l: nat, x: nat)
    ensures Wake(phase, Woken(AddCallback(list, Resend(x))), l) == Wake(phase, Woken(list), l)
  {
    forall t | 0 <= t < |phase|
      ensures t in Woken(AddCallback(list, Resend(x))) <==> t in Woken(list)
    {
      WokenIs(list, t);
      WokenIs(AddCallback(list, Resend(x)), t);
      Added(list, Resend(x), Notify(t));
    }
    hide AddCallback, Woken;
  }

  /** A state in which replica x alone is valid, and alone receives. */
  ghost predicate Lone(prog: Program, s: Sys, x: nat) {
    && Shaped(prog, s) && InvFlow(s.dir, s.flow) && x < MAX_NODES && x != HOST && HOST in s.dir.alloc
    && s.dir.valid == s.dir.xfer == {x} && |s.dir.posted| == 1 && s.dir.posted[0].dst == x
    && s.dir.posted[0].src < MAX_NODES
  }

  lemma WaitsAlone(prog: Program, s: Sys, w: nat)
    requires Inv(prog, s) && Writing(prog, s.phase, w) && s.phase[w].Waiting? && HOST !in s.dir.valid
    ensures Lone(prog, s, s.phase[w].lid)
  {
    assert |s.phase| == |prog|;
    hide InvTasks, InvPins, InvOrder, Has, Current;
    assert Preparing(prog, s, w, Current(prog, s.phase, |prog|));
    SingleCopy(s.dir, s.flow, s.phase[w].lid);
    hide InvFlow, InvData;
    assert s.dir.posted[0] in s.dir.posted;
  }

  /** The write-back is asked for first, and waits for the writer's copy. */
  lemma PrefetchFirst(prog: Program, s: Sys, x: nat)
    requires Lone(prog, s, x)
    ensures Allowed(prog, s, EPrefetch(x))
    ensures var s1 := Apply(prog, s, EPrefetch(x));
            && Shaped(prog, s1) && Allowed(prog, s1, EDeliver(0)) && s1.phase == s.phase && Sized(s1.dir)
            && s1.dir == Prefetch(s.dir, HOST, x) && |s1.dir.posted| == 1
            && var s2 := Apply(prog, s1, EDeliver(0));
               && s2.dir == Receive(s1.dir, 0) && s2.mem == s.mem[x := s.mem[s.dir.posted[0].src]]
               && s2.phase == Wake(s.phase, Woken(s.dir.cbk[x]), x)
               && s2.flow.Keys == {HOST} && s2.flow[HOST].src == x
  {
    ForwardCommutes(s.dir, s.flow, x);
    PrefetchView(s.dir, x);
    SameWoken(s.phase, s.dir.cbk[x], x, HOST);
    assert Prefetch(s.dir, HOST, x).cbk[x] == AddCallback(s.dir.cbk[x], Resend(HOST));
    hide InvFlow, Receive, Wake, Woken, AddCallback, Replicas.Prefetch, Sized;
    var s1 := Apply(prog, s, EPrefetch(x));
    assert s1.dir.posted == s.dir.posted && s1.flow.Keys == {x, HOST} && s1.mem == s.mem;
  }

  /** The writer's copy arrives first. */
  lemma DeliverFirst(prog: Program, s: Sys, x: nat)
    requires Lone(prog, s, x)
    ensures Allowed(prog, s, EDeliver(0))
    ensures var t1 := Apply(prog, s, EDeliver(0));
            && Shaped(prog, t1) && Allowed(prog, t1, EPrefetch(x)) && HOST !in t1.dir.valid
            && t1.dir == Receive(s.dir, 0) && t1.phase == Wake(s.phase, Woken(s.dir.cbk[x]), x)
            && var t2 := Apply(prog, t1, EPrefetch(x));
               && t2.dir == Prefetch(t1.dir, HOST, x) && t2.mem == s.mem[x := s.mem[s.dir.posted[0].src]]
               && t2.phase == t1.phase && t2.flow.Keys == {HOST} && t2.flow[HOST].src == x
  {
    ReceiveSized(s.dir, 0);
    var t1 := Apply(prog, s, EDeliver(0));
    assert t1.dir.valid == {x} && t1.dir.xfer == {} && t1.dir.alloc == s.dir.alloc;
    hide InvFlow, Receive, Wake, Woken, Sized, Replicas.Prefetch;
  }

  /** Once the writer's copy is there, both orders agree but for the depth of the forward. */
  lemma ForwardFed(prog: Program, s: Sys, w: nat, x: nat)
    requires Inv(prog, s) && History(prog, s) && Lone(prog, s, x)
    requires Writing(prog, s.phase, w) && s.phase[w] == Waiting(x)
    ensures Allowed(prog, s, EPrefetch(x))
    ensures var s1 := Apply(prog, s, EPrefetch(x));
            && Shaped(prog, s1) && Allowed(prog, s1, EDeliver(0))
            && var s2 := Apply(prog, s1, EDeliver(0));
               && InvCore(prog, s2) && Writing(prog, s2.phase, w) && s2.phase[w].lid == x < |s2.mem|
               && Fed(s2, s2.mem[x]) && HostGets(s2, s2.mem[x]) && s2.mem[x] != By(w)
  {
    ForwardCommutes(s.dir, s.flow, x);
    PrefetchFirst(prog, s, x);
    DeliverFirst(prog, s, x);
    DeliverKeeps(prog, s, 0);
    StepHistory(prog, s, EDeliver(0));
    DeliverWakes(prog, s, 0);
    var s1, t1 := Apply(prog, s, EPrefetch(x)), Apply(prog, s, EDeliver(0));
    assert t1.phase[w] == Ready(x) && Writing(prog, t1.phase, w);
    hide Inv, History, Apply, Receive, Replicas.Prefetch, Lone, Wake, Shaped;
    PrefetchFed(prog, t1, w, x);
    ForwardSame(prog, Apply(prog, t1, EPrefetch(x)), Apply(prog, s1, EDeliver(0)), w, x);
    NotYetWritten(prog, t1, w, x);
  }

  lemma NotYetWritten(prog: Program, s: Sys, w: nat, x: nat)
    requires History(prog, s) && Writing(prog, s.phase, w) && x < |s.mem|
    ensures s.mem[x] != By(w)
  {
  }

  lemma ForwardSame(prog: Program, t: Sys, s: Sys, w: nat, x: nat)
    requires InvCore(prog, t) && s.dir == t.dir && s.mem == t.mem && s.phase == t.phase && x < |t.mem|
    requires t.flow.Keys == s.flow.Keys == {HOST} && s.flow[HOST].src == t.flow[HOST].src
    requires Fed(t, t.mem[x]) && HostGets(t, t.mem[x])
    ensures InvCore(prog, s) && Fed(s, s.mem[x]) && HostGets(s, s.mem[x])
  {
    DepthFree(t.dir, t.flow, s.flow, HOST);
    hide InvFlow;
    SameCore(prog, t, s);
  }

  lemma PrefetchWaiting(prog: Program, s: Sys, w: nat, src: nat) returns (es: seq<Event>, s': Sys)
    requires Inv(prog, s) && History(prog, s) && Allowed(prog, s, EPrefetch(src)) && HOST !in s.dir.valid
    requires Writing(prog, s.phase, w) && s.phase[w].Waiting?
    ensures Finishing(es) && RunFrom(prog, Apply(prog, s, EPrefetch(src)), es, s', false) && !Right(prog, s')
  {
    hide InvCore, InvData, Apply, Right;
    WaitsAlone(prog, s, w);
    ForwardFed(prog, s, w, src);
    hide Lone, Shaped, History, Fed, HostGets;
    var s1 := Apply(prog, s, EPrefetch(src));
    var s2 := Apply(prog, s1, EDeliver(0));
    var rest;
    rest, s' := FinishStale(prog, s2, w, s2.mem[src]);
    RunStep(prog, s1, EDeliver(0));
    RunConcat(prog, s1, [EDeliver(0)], s2, rest, s');
    es := [EDeliver(0)] + rest;
  }

  lemma SameCore(prog: Program, s: Sys, s': Sys)
    requires InvCore(prog, s) && s'.dir == s.dir && s'.mem == s.mem && s'.phase == s.phase
    requires InvFlow(s'.dir, s'.flow)
    ensures InvCore(prog, s')
  {
    assert s'.flow.Keys == s'.dir.xfer;
    hide InvFlow, Has;
    SamePhases(prog, s, s');
    hide InvPins, InvOrder;
  }

  lemma PrefetchNeeds(prog: Program, s: Sys, src: nat) returns (es: seq<Event>, s': Sys)
    requires Inv(prog, s) && History(prog, s) && Allowed(prog, s, EPrefetch(src))
    requires !Assumed(prog, s, EPrefetch(src))
    ensures Finishing(es) && RunFrom(prog, Apply(prog, s, EPrefetch(src)), es, s', false) && !Right(prog, s')
  {
    var w :| 0 <= w < |prog| && Writing(prog, s.phase, w);
    hide InvCore, InvData, Apply, Right;
    if s.phase[w].Ready? {
      es, s' := PrefetchReady(prog, s, w, src);
    } else {
      es, s' := PrefetchWaiting(prog, s, w, src);
    }
  }

  // ----- Exactly -----

  lemma AssumptionNeeded(prog: Program, s: Sys, e: Event) returns (es: seq<Event>, s': Sys)
    requires Inv(prog, s) && History(prog, s) && Allowed(prog, s, e) && !Assumed(prog, s, e)
    ensures Finishing(es) && RunFrom(prog, Apply(prog, s, e), es, s', false) && !Right(prog, s')
  {
    hide InvCore, InvData, Apply, Right, Allowed;
    match e
    case EAcquire(i, l, src) => es, s' := AcquireNeeds(prog, s, i, l, src);
    case EEvict(l) => es, s' := EvictNeeds(prog, s, l);
    case EPrefetch(src) => es, s' := PrefetchNeeds(prog, s, src);
  }

  /**
   A step that data flow allows meets the code's tacit assumption exactly when, however
   the transfers and bodies that are then due run, no reader and no copy is wrong.
   */
  lemma AssumptionsExact(prog: Program, s: Sys, e: Event)
    requires Inv(prog, s) && History(prog, s) && Allowed(prog, s, e)
    ensures Assumed(prog, s, e) <==>
            forall es, s' :: Finishing(es) && RunFrom(prog, Apply(prog, s, e), es, s', false) ==> Right(prog, s')
  {
    assert Shaped(prog, s);
    hide InvCore, InvData, Apply, Right, Allowed, Assumed, RunFrom, Finishing;
    if Assumed(prog, s, e) {
      StepKeeps(prog, s, e);
      forall es, s' | Finishing(es) && RunFrom(prog, Apply(prog, s, e), es, s', false)
        ensures Right(prog, s')
      {
        FinishingKeeps(prog, Apply(prog, s, e), es, s');
        InvRight(prog, s');
      }
    } else {
      var es, s' := AssumptionNeeded(prog, s, e);
    }
  }

  lemma {:induction false} RunHistory(prog: Program, s: Sys, es: seq<Event>, s': Sys)
    requires Inv(prog, s) && History(prog, s) && RunFrom(prog, s, es, s', true)
    ensures Inv(prog, s') && History(prog, s')
    decreases |es|
  {
    hide InvCore, InvData, Allowed, Assumed, Apply, History;
    if es != [] {
      StepKeeps(prog, s, es[0]);
      StepHistory(prog, s, es[0]);
      RunHistory(prog, Apply(prog, s, es[0]), es[1..], s');
    }
  }

  /** In every reachable state the assumption of the next step is exactly what keeps the data right. */
  lemma ReachableExact(prog: Program, es: seq<Event>, s: Sys, e: Event)
    requires CoherenceRuns.Run(prog, es, s) && Shaped(prog, s) && Allowed(prog, s, e)
    ensures Assumed(prog, s, e) <==>
            forall es', s' :: Finishing(es') && RunFrom(prog, Apply(prog, s, e), es', s', false) ==> Right(prog, s')
  {
    StartInv(prog);
    assert History(prog, Start(prog));
    hide InvCore, InvData, Apply, Allowed, Assumed, RunFrom, History, Right, Finishing;
    RunHistory(prog, Start(prog), es, s);
    AssumptionsExact(prog, s, e);
  }
}
