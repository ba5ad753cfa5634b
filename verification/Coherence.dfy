/**
 The coherence protocol of one tile over whole runs. Tasks access the tile in
 the modes they declared; the runtime starts a task once every earlier task in
 conflict with it is done. Buffers hold ghost values that say which task
 produced them.
 */
module Coherence {
  import opened TileTasks
  import opened Replicas
  import opened Transfers

  /** The bytes of a buffer: nobody's, the application's, or those a task produced. */
  datatype Value = Garbage | Initial | By(task: nat)

  datatype Phase = Pending | Waiting(lid: nat) | Ready(lid: nat) | Executed(lid: nat) | Done

  /** flow is auxiliary: it records the transfers that are under way. */
  datatype Sys = Sys(dir: Dir, mem: seq<Value>, phase: seq<Phase>, flow: map<nat, Transfer>)

  /** EPrefetch is the write-back to the host, the only prefetch the library issues. */
  datatype Event =
    | EAcquire(task: nat, lid: nat, src: nat)
    | EExecute(task: nat)
    | ERelease(task: nat)
    | EDeliver(n: nat)
    | EEvict(lid: nat)
    | EPrefetch(src: nat)

  type Program = seq<Mode>

  predicate InUse(ph: Phase) { ph.Waiting? || ph.Ready? || ph.Executed? }

  /** A task that will write but has not written yet. */
  predicate Writing(prog: Program, phase: seq<Phase>, i: nat) {
    i < |prog| && i < |phase| && Writes(prog[i]) && (phase[i].Waiting? || phase[i].Ready?)
  }

  /** Data flow: every earlier task in conflict with task i is done. */
  predicate MayStart(prog: Program, phase: seq<Phase>, i: nat)
    requires |phase| == |prog| && i < |prog|
  {
    forall j :: 0 <= j < i && !Concurrent(prog[j], prog[i]) ==> phase[j] == Done
  }

  /** A reader may start when every earlier writer is done, and a writer when every earlier task is. */
  lemma StartsExactly(prog: Program, phase: seq<Phase>, i: nat)
    requires |phase| == |prog| && i < |prog|
    ensures prog[i] == R ==> (MayStart(prog, phase, i) <==> forall j :: 0 <= j < i && prog[j] != R ==> phase[j] == Done)
    ensures prog[i] != R ==> (MayStart(prog, phase, i) <==> forall j :: 0 <= j < i ==> phase[j] == Done)
  {
    assert forall j :: 0 <= j < i ==> (Concurrent(prog[j], prog[i]) <==> prog[j] == R && prog[i] == R);
  }

  /** The directory of a new tile. */
  function NewDir(): Dir {
    Dir({HOST}, {HOST}, {}, [1] + seq(MAX_NODES - 1, _ => 0), seq(MAX_NODES, _ => []), [])
  }

  function Start(prog: Program): Sys {
    Sys(NewDir(), [Initial] + seq(MAX_NODES - 1, _ => Garbage), seq(|prog|, _ => Pending), map[])
  }

  // ----- Steps -----

  ghost predicate Shaped(prog: Program, s: Sys) {
    && Sized(s.dir) && |s.mem| == MAX_NODES && |s.phase| == |prog|
    && s.flow.Keys == s.dir.xfer
  }

  /** What data flow and the code's own tests guarantee of a step. */
  predicate Allowed(prog: Program, s: Sys, e: Event)
    requires |s.phase| == |prog| && Sized(s.dir)
  {
    match e
    case EAcquire(i, l, src) =>
      i < |prog| && s.phase[i] == Pending && MayStart(prog, s.phase, i) && l < MAX_NODES && Holds(s.dir, src)
    case EExecute(i) => i < |prog| && s.phase[i].Ready?
    case ERelease(i) =>
      i < |prog| && s.phase[i].Executed? && s.phase[i].lid < MAX_NODES && s.dir.pins[s.phase[i].lid] > 0
    case EDeliver(n) => n < |s.dir.posted|
    case EEvict(l) => l < MAX_NODES && Evictable(s.dir, l)
    case EPrefetch(src) => Holds(s.dir, src)
  }

  /**
   What the code relies on and does not enforce: a writer acquires the tile when
   no write-back is under way (other than the very copy it waits for), sources
   stay in place, and nothing is written back while a writer prepares.
   */
  predicate Assumed(prog: Program, s: Sys, e: Event)
    requires |s.phase| == |prog| && Sized(s.dir) && Allowed(prog, s, e)
  {
    match e
    case EAcquire(i, l, _) => Writes(prog[i]) ==> s.dir.xfer <= if Reads(prog[i]) then {l} else {}
    case EEvict(l) => forall c :: c in s.dir.posted ==> c.src != l
    case EPrefetch(_) => HOST in s.dir.valid || forall i :: 0 <= i < |prog| ==> !Writing(prog, s.phase, i)
    case _ => true
  }

  /** The tasks woken by a delivery at l become ready there. */
  function Wake(phase: seq<Phase>, woken: seq<nat>, l: nat): seq<Phase> {
    seq(|phase|, t requires 0 <= t < |phase| => if t in woken then Ready(l) else phase[t])
  }

  function Apply(prog: Program, s: Sys, e: Event): Sys
    requires Shaped(prog, s) && Allowed(prog, s, e)
  {
    match e
    case EAcquire(i, l, src) =>
      var m := prog[i];
      s.(dir := Replicas.Acquire(s.dir, l, m, src, i),
         mem := if l in s.dir.alloc then s.mem else s.mem[l := Garbage],
         phase := s.phase[i := if Reads(m) && l !in s.dir.valid then Waiting(l) else Ready(l)],
         flow := if Reads(m) then FlowAfterFetch(s.dir, s.flow, l, src) else s.flow)
    case EExecute(i) =>
      var l := s.phase[i].lid;
      s.(mem := if Writes(prog[i]) && l < |s.mem| then s.mem[l := By(i)] else s.mem, phase := s.phase[i := Executed(l)])
    case ERelease(i) =>
      s.(dir := Replicas.Release(s.dir, s.phase[i].lid), phase := s.phase[i := Done])
    case EDeliver(n) =>
      var c := s.dir.posted[n];
      s.(dir := Receive(s.dir, n), mem := s.mem[c.dst := s.mem[c.src]],
         phase := Wake(s.phase, Woken(s.dir.cbk[c.dst]), c.dst), flow := s.flow - {c.dst})
    case EEvict(l) =>
      s.(dir := Replicas.Evict(s.dir, l), mem := s.mem[l := Garbage])
    case EPrefetch(src) =>
      s.(dir := Replicas.Prefetch(s.dir, HOST, src),
         mem := if HOST in s.dir.alloc then s.mem else s.mem[HOST := Garbage],
         flow := FlowAfterFetch(s.dir, s.flow, HOST, src))
  }

  // ----- The invariant -----

  ghost predicate InvSets(s: Sys) {
    && Sized(s.dir) && |s.mem| == MAX_NODES && s.flow.Keys == s.dir.xfer
    && HOST in s.dir.alloc && s.dir.valid != {}
    && s.dir.valid <= s.dir.alloc && s.dir.xfer <= s.dir.alloc
  }

  /** A task waits at a replica exactly while its callback is registered there. */
  ghost predicate InvTasks(s: Sys) {
    && (forall l: nat, t: nat {:trigger Has(s.dir, l, Notify(t))} ::
          Has(s.dir, l, Notify(t)) ==> t < |s.phase| && s.phase[t] == Waiting(l))
    && (forall t :: 0 <= t < |s.phase| && s.phase[t].Waiting? ==> Has(s.dir, s.phase[t].lid, Notify(t)))
    && (forall x :: x in s.dir.xfer && x != HOST ==> exists t :: 0 <= t < |s.phase| && s.phase[t] == Waiting(x))
  }

  function UsesAt(ph: Phase, l: nat): nat { if InUse(ph) && ph.lid == l then 1 else 0 }

  function Users(phase: seq<Phase>, l: nat): nat {
    if phase == [] then 0 else Users(phase[..|phase| - 1], l) + UsesAt(phase[|phase| - 1], l)
  }

  /** Every task that uses a replica has it pinned; the application pins the host. */
  ghost predicate InvPins(s: Sys) {
    && |s.dir.pins| == MAX_NODES
    && (forall l :: 0 <= l < MAX_NODES ==> s.dir.pins[l] == Users(s.phase, l) + (if l == HOST then 1 else 0))
    && (forall t :: 0 <= t < |s.phase| && InUse(s.phase[t]) ==> s.phase[t].lid < MAX_NODES)
  }

  ghost predicate InvOrder(prog: Program, s: Sys) {
    && |s.phase| == |prog|
    && (forall i :: 0 <= i < |prog| && s.phase[i] != Pending ==> MayStart(prog, s.phase, i))
  }

  /** The value of the tile: that of the last writer that has executed. */
  function Current(prog: Program, phase: seq<Phase>, n: nat): Value
    requires n <= |prog| && n <= |phase|
  {
    if n == 0 then Initial
    else if Writes(prog[n - 1]) && (phase[n - 1].Executed? || phase[n - 1].Done?) then By(n - 1)
    else Current(prog, phase, n - 1)
  }

  /** While task i prepares to write, its replica is the only valid one, even if the data is still arriving. */
  ghost predicate Preparing(prog: Program, s: Sys, i: nat, v: Value)
    requires i < |prog| && i < |s.phase| && s.phase[i] != Pending && s.phase[i] != Done && |s.mem| == MAX_NODES
  {
    && s.phase[i].lid < MAX_NODES && s.dir.valid == {s.phase[i].lid}
    && s.dir.xfer == (if s.phase[i].Waiting? then {s.phase[i].lid} else {})
    && (s.phase[i].Ready? && Reads(prog[i]) ==> s.mem[s.phase[i].lid] == v)
  }

  /** While nobody prepares to write, every valid replica holds the value. */
  ghost predicate Settled(s: Sys, v: Value)
    requires Sized(s.dir) && |s.mem| == MAX_NODES
  {
    && s.dir.valid !! s.dir.xfer
    && (forall c :: c in s.dir.posted ==> c.src in s.dir.valid)
    && (forall l :: l in s.dir.valid ==> s.mem[l] == v)
  }

  ghost predicate InvData(prog: Program, s: Sys)
    requires |s.phase| == |prog| && Sized(s.dir) && |s.mem| == MAX_NODES
  {
    var v := Current(prog, s.phase, |prog|);
    && (forall i :: 0 <= i < |prog| && (s.phase[i].Ready? || s.phase[i].Executed?) ==> s.phase[i].lid in s.dir.valid)
    && (forall c :: c in s.dir.posted ==> s.mem[c.src] == v)
    && (forall i: nat :: Writing(prog, s.phase, i) ==> Preparing(prog, s, i, v))
    && ((forall i: nat :: !Writing(prog, s.phase, i)) ==> Settled(s, v))
  }

  /** All of the invariant but what the buffers hold. */
  ghost predicate InvCore(prog: Program, s: Sys) {
    InvSets(s) && InvFlow(s.dir, s.flow) && InvTasks(s) && InvPins(s) && InvOrder(prog, s)
  }

  ghost predicate Inv(prog: Program, s: Sys) {
    InvCore(prog, s) && InvData(prog, s)
  }

  predicate HasWritten(phase: seq<Phase>, i: nat) {
    i < |phase| && (phase[i].Executed? || phase[i].Done?)
  }

  /** No buffer holds the value of a task that has not executed, and only readers wait. */
  ghost predicate History(prog: Program, s: Sys) {
    && |s.phase| == |prog|
    && (forall l :: 0 <= l < |s.mem| && s.mem[l].By? ==> HasWritten(s.phase, s.mem[l].task))
    && (forall i :: 0 <= i < |prog| && s.phase[i].Waiting? ==> Reads(prog[i]))
  }
}
