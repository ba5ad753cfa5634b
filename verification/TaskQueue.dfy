/**
 The task queue of a locality domain (kaapi_fifo_queue): a ring of task
 references between a head and a tail, with holes where tasks were taken out of
 the middle. Each operation runs under the queue's lock.
 */
module TaskQueue {
  const NONE: nat := 0
  const QUEUE_DEFAULT_SIZE: nat := 16384

  // ----- A deque with holes -----

  /** The tasks in the queue, however many holes lie between them. */
  function Live(slots: seq<nat>): multiset<nat> {
    multiset(slots)[NONE := 0]
  }

  /** How many they are. */
  function Count(slots: seq<nat>): nat { |Live(slots)| }

  lemma LiveAppend(slots: seq<nat>, t: nat)
    requires t != NONE
    ensures Live(slots + [t]) == Live(slots) + multiset{t}
    ensures Live([t] + slots) == Live(slots) + multiset{t}
  {
  }

  lemma LiveTail(slots: seq<nat>)
    requires slots != []
    ensures Live(slots[1..]) == if slots[0] == NONE then Live(slots) else Live(slots) - multiset{slots[0]}
  {
    assert slots == [slots[0]] + slots[1..];
  }

  lemma LiveDrop(slots: seq<nat>)
    requires slots != [] && slots[|slots| - 1] == NONE
    ensures Live(slots[..|slots| - 1]) == Live(slots)
  {
    assert slots == slots[..|slots| - 1] + [NONE];
  }

  lemma LiveHole(slots: seq<nat>, k: nat)
    requires k < |slots|
    ensures Live(slots[k := NONE]) == if slots[k] == NONE then Live(slots) else Live(slots) - multiset{slots[k]}
  {
    assert slots == slots[..k] + [slots[k]] + slots[k + 1..];
    assert slots[k := NONE] == slots[..k] + [NONE] + slots[k + 1..];
  }

  /** Take the task out of slot k: the tail shrinks when it was the last, otherwise a hole stays. */
  function TakeBack(slots: seq<nat>, k: nat): seq<nat>
    requires k < |slots|
  {
    if k + 1 == |slots| then slots[..k] else slots[k := NONE]
  }

  /** Take the task out of slot k: the head advances when it was the first, otherwise a hole stays. */
  function TakeFront(slots: seq<nat>, k: nat): seq<nat>
    requires k < |slots|
  {
    if k == 0 then slots[1..] else slots[k := NONE]
  }

  /** Taking a task removes it, once, and keeps all the others. */
  lemma TakeLive(slots: seq<nat>, k: nat)
    requires k < |slots|
    ensures var rest := if slots[k] == NONE then Live(slots) else Live(slots) - multiset{slots[k]};
            Live(TakeBack(slots, k)) == rest && Live(TakeFront(slots, k)) == rest
  {
    LiveHole(slots, k);
    if k + 1 == |slots| {
      LiveDrop(slots[k := NONE]);
      assert slots[k := NONE][..k] == slots[..k];
    }
    if k == 0 {
      LiveTail(slots);
    }
  }

  lemma LiveMember(slots: seq<nat>, k: nat)
    requires k < |slots| && slots[k] != NONE
    ensures slots[k] in Live(slots) && |Live(slots) - multiset{slots[k]}| == |Live(slots)| - 1
  {
    assert slots[k] in multiset(slots);
  }

  /** Taking slot k lowers the number of tasks by one, unless it was a hole. */
  lemma TakeCount(slots: seq<nat>, k: nat)
    requires k < |slots|
    ensures Count(TakeBack(slots, k)) == Count(TakeFront(slots, k))
              == Count(slots) - (if slots[k] == NONE then 0 else 1)
  {
    TakeLive(slots, k);
    if slots[k] != NONE {
      LiveMember(slots, k);
    }
  }

  lemma AppendCount(slots: seq<nat>, t: nat)
    requires t != NONE
    ensures Count(slots + [t]) == Count([t] + slots) == Count(slots) + 1
  {
    LiveAppend(slots, t);
  }

  // ----- Whole runs -----

  /** TakeOut is a pop with affinity, StealAt a steal of either kind that found a task. */
  datatype Op = PushBack(task: nat) | PushFront(task: nat) | PopFirst | TakeOut(k: nat) | StealAt(k: nat)

  predicate Possible(slots: seq<nat>, op: Op) {
    match op
    case PushBack(t) => t != NONE
    case PushFront(t) => t != NONE
    case PopFirst => slots != []
    case TakeOut(k) => k < |slots|
    case StealAt(k) => k < |slots| && slots[k] != NONE
  }

  function After(slots: seq<nat>, op: Op): seq<nat>
    requires Possible(slots, op)
  {
    match op
    case PushBack(t) => slots + [t]
    case PushFront(t) => [t] + slots
    case PopFirst => TakeFront(slots, 0)
    case TakeOut(k) => TakeFront(slots, k)
    case StealAt(k) => TakeBack(slots, k)
  }

  /** The slot that an operation empties. */
  function Slot(slots: seq<nat>, op: Op): (t: nat)
    requires Possible(slots, op)
  {
    match op
    case PopFirst => slots[0]
    case TakeOut(k) => slots[k]
    case StealAt(k) => slots[k]
    case _ => NONE
  }

  /** The task that an operation brings in, and the task that it gives out. */
  function In(op: Op): multiset<nat> {
    if op.PushBack? || op.PushFront? then multiset{op.task} else multiset{}
  }

  function Out(slots: seq<nat>, op: Op): multiset<nat>
    requires Possible(slots, op)
  {
    if Slot(slots, op) != NONE then multiset{Slot(slots, op)} else multiset{}
  }

  predicate Runs(slots: seq<nat>, ops: seq<Op>)
    decreases |ops|
  {
    ops == [] || (Possible(slots, ops[0]) && Runs(After(slots, ops[0]), ops[1..]))
  }

  function Final(slots: seq<nat>, ops: seq<Op>): seq<nat>
    requires Runs(slots, ops)
    decreases |ops|
  {
    if ops == [] then slots else Final(After(slots, ops[0]), ops[1..])
  }

  function Pushed(ops: seq<Op>): multiset<nat> {
    if ops == [] then multiset{} else In(ops[0]) + Pushed(ops[1..])
  }

  function Handed(slots: seq<nat>, ops: seq<Op>): multiset<nat>
    requires Runs(slots, ops)
    decreases |ops|
  {
    if ops == [] then multiset{} else Out(slots, ops[0]) + Handed(After(slots, ops[0]), ops[1..])
  }

  lemma StepBalance(slots: seq<nat>, op: Op)
    requires Possible(slots, op)
    ensures Live(slots) + In(op) == Live(After(slots, op)) + Out(slots, op)
  {
    if op.PushBack? || op.PushFront? {
      LiveAppend(slots, op.task);
      assert Out(slots, op) == multiset{};
    } else {
      TakeBalance(slots, if op.PopFirst? then 0 else op.k);
      hide Live, TakeFront, TakeBack;
      assert In(op) == multiset{};
    }
  }

  lemma TakeBalance(slots: seq<nat>, k: nat)
    requires k < |slots|
    ensures var out := if slots[k] == NONE then multiset{} else multiset{slots[k]};
            Live(slots) == Live(TakeFront(slots, k)) + out == Live(TakeBack(slots, k)) + out
  {
    TakeLive(slots, k);
    hide Live, TakeFront, TakeBack;
    if slots[k] != NONE {
      LiveMember(slots, k);
    }
  }

  lemma Regroup(a: multiset<nat>, i: multiset<nat>, b: multiset<nat>, o: multiset<nat>, p: multiset<nat>,
                f: multiset<nat>, h: multiset<nat>)
    requires a + i == b + o && b + p == f + h
    ensures a + (i + p) == f + (o + h)
  {
    calc {
      a + (i + p);
      (a + i) + p;
      (b + o) + p;
      (b + p) + o;
      (f + h) + o;
      f + (o + h);
    }
  }

  /** Every task that was in the queue or was pushed is handed out once or is still there: none is lost or doubled. */
  lemma {:induction false} NothingLost(slots: seq<nat>, ops: seq<Op>)
    requires Runs(slots, ops)
    ensures Live(slots) + Pushed(ops) == Live(Final(slots, ops)) + Handed(slots, ops)
    decreases |ops|
  {
    if ops != [] {
      hide Live, In, Out, After, Possible;
      var mid, rest := After(slots, ops[0]), ops[1..];
      StepBalance(slots, ops[0]);
      NothingLost(mid, rest);
      Regroup(Live(slots), In(ops[0]), Live(mid), Out(slots, ops[0]), Pushed(rest), Live(Final(mid, rest)),
          Handed(mid, rest));
    }
  }

  // ----- The counters over whole runs -----

  /** By how much an operation raises push_count and pop_count; a pop with affinity counts whatever it takes. */
  function PushStep(op: Op): nat { if op.PushBack? || op.PushFront? then 1 else 0 }

  function PopStep(slots: seq<nat>, op: Op): nat
    requires Possible(slots, op)
  {
    if op.TakeOut? || op.StealAt? then 1 else if op.PopFirst? && slots[0] != NONE then 1 else 0
  }

  function HoleStep(slots: seq<nat>, op: Op): nat
    requires Possible(slots, op)
  {
    if op.TakeOut? && slots[op.k] == NONE then 1 else 0
  }

  function PushCount(ops: seq<Op>): nat {
    if ops == [] then 0 else PushStep(ops[0]) + PushCount(ops[1..])
  }

  function PopCount(slots: seq<nat>, ops: seq<Op>): nat
    requires Runs(slots, ops)
    decreases |ops|
  {
    if ops == [] then 0 else PopStep(slots, ops[0]) + PopCount(After(slots, ops[0]), ops[1..])
  }

  /** The holes that pops with affinity have taken. */
  function HolesTaken(slots: seq<nat>, ops: seq<Op>): nat
    requires Runs(slots, ops)
    decreases |ops|
  {
    if ops == [] then 0 else HoleStep(slots, ops[0]) + HolesTaken(After(slots, ops[0]), ops[1..])
  }

  lemma StepCount(slots: seq<nat>, op: Op)
    requires Possible(slots, op)
    ensures Count(slots) + PushStep(op) - PopStep(slots, op) == Count(After(slots, op)) - HoleStep(slots, op)
  {
    if op.PushBack? || op.PushFront? {
      AppendCount(slots, op.task);
    } else {
      TakeCount(slots, if op.PopFirst? then 0 else op.k);
      hide Count, TakeFront, TakeBack;
    }
  }

  lemma {:induction false} CountsRun(slots: seq<nat>, ops: seq<Op>)
    requires Runs(slots, ops)
    ensures Count(slots) + PushCount(ops) - PopCount(slots, ops) == Count(Final(slots, ops)) - HolesTaken(slots, ops)
    decreases |ops|
  {
    if ops != [] {
      hide Count, After, Possible, PushStep, PopStep, HoleStep;
      StepCount(slots, ops[0]);
      CountsRun(After(slots, ops[0]), ops[1..]);
    }
  }

  /**
   Over every run from an empty queue, push_count - pop_count is the number of tasks
   exactly when no pop with affinity took a hole; without such pops it always is.
   */
  lemma CountersExact(ops: seq<Op>)
    requires Runs([], ops)
    ensures PushCount(ops) - PopCount([], ops) == Count(Final([], ops)) <==> HolesTaken([], ops) == 0
    ensures (forall op :: op in ops ==> !op.TakeOut?) ==> HolesTaken([], ops) == 0
  {
    CountsRun([], ops);
    assert Live([]) == multiset{};
    if forall op :: op in ops ==> !op.TakeOut? {
      NoHoles([], ops);
    }
  }

  lemma {:induction false} NoHoles(slots: seq<nat>, ops: seq<Op>)
    requires Runs(slots, ops) && forall op :: op in ops ==> !op.TakeOut?
    ensures HolesTaken(slots, ops) == 0
    decreases |ops|
  {
    if ops != [] {
      NoHoles(After(slots, ops[0]), ops[1..]);
    }
  }

  /** The smallest run in which the counters drift: a hole is left between two tasks and then popped with affinity. */
  lemma CountersDrift(a: nat, b: nat)
    requires a != NONE && b != NONE
    ensures var ops := [PushBack(a), PushBack(b), TakeOut(1), TakeOut(0), TakeOut(0)];
            Runs([], ops) && Final([], ops) == [] && PushCount(ops) - PopCount([], ops) == -1
  {
    var o2, o3, o4 := TakeOut(1), TakeOut(0), TakeOut(0);
    DriftEnds(a, b);
    var last := [PushBack(b), o2, o3, o4];
    assert last[1..] == [o2, o3, o4] && After([a], PushBack(b)) == [a, b];
    assert Runs([a], last) && Final([a], last) == [] && PopCount([a], last) == 3 && PushCount(last) == 1;
    var ops := [PushBack(a)] + last;
    assert ops == [PushBack(a), PushBack(b), o2, o3, o4];
    assert ops[1..] == last && After([], PushBack(a)) == [a];
    hide After;
    assert Runs([], ops) && Final([], ops) == [] && PopCount([], ops) == 3 && PushCount(ops) == 2;
  }

  lemma DriftEnds(a: nat, b: nat)
    requires a != NONE && b != NONE
    ensures var ops := [TakeOut(1), TakeOut(0), TakeOut(0)];
            Runs([a, b], ops) && Final([a, b], ops) == [] && PopCount([a, b], ops) == 3 && PushCount(ops) == 0
  {
    var o2, o3 := TakeOut(1), TakeOut(0);
    assert [o3][1..] == [] && After([NONE], o3) == [];
    assert Runs([NONE], [o3]) && Final([NONE], [o3]) == [] && PopCount([NONE], [o3]) == 1 && PushCount([o3]) == 0;
    assert [o3, o3][1..] == [o3] && After([a, NONE], o3) == [NONE];
    assert Runs([a, NONE], [o3, o3]) && Final([a, NONE], [o3, o3]) == [];
    assert PopCount([a, NONE], [o3, o3]) == 2 && PushCount([o3, o3]) == 0;
    assert [o2, o3, o3][1..] == [o3, o3] && After([a, b], o2) == [a, NONE];
  }

  // ----- What the scans look for -----

  /** Slot k holds a task that thieves may take. */
  predicate Stealable(slots: seq<nat>, pinned: set<nat>, k: int) {
    0 <= k < |slots| && slots[k] != NONE && slots[k] !in pinned
  }

  predicate IsLastStealable(slots: seq<nat>, pinned: set<nat>, k: int) {
    Stealable(slots, pinned, k) && forall j :: k < j < |slots| ==> !Stealable(slots, pinned, j)
  }

  /** Only unstealable tasks are left, and one of them is in the first slot. */
  predicate OnlyPinned(slots: seq<nat>, pinned: set<nat>) {
    && slots != [] && slots[0] != NONE
    && forall j :: 0 <= j < |slots| && slots[j] != NONE ==> slots[j] in pinned
  }

  lemma NoneStealable(slots: seq<nat>, pinned: set<nat>)
    requires forall j :: 0 <= j < |slots| ==> !Stealable(slots, pinned, j)
    ensures OnlyPinned(slots, pinned) <==> slots != [] && slots[0] != NONE
  {
    assert forall j :: 0 <= j < |slots| && slots[j] != NONE ==> !Stealable(slots, pinned, j);
  }

  lemma LastStealable(slots: seq<nat>, pinned: set<nat>, k: nat)
    requires IsLastStealable(slots, pinned, k)
    ensures forall j :: k < j < |slots| ==> slots[j] == NONE || slots[j] in pinned
  {
    forall j | k < j < |slots|
      ensures slots[j] == NONE || slots[j] in pinned
    {
      assert !Stealable(slots, pinned, j);
    }
  }

  /** Slot k holds the first task with a positive score, or is the first slot when there is none. */
  predicate IsFirstGood(slots: seq<nat>, good: nat -> bool, k: int) {
    && 0 <= k < |slots|
    && (forall j :: 0 <= j < k ==> slots[j] == NONE || !good(slots[j]))
    && (slots[k] == NONE || !good(slots[k]) ==>
          k == 0 && forall j :: 0 <= j < |slots| ==> slots[j] == NONE || !good(slots[j]))
  }

  lemma FirstGoodMeans(slots: seq<nat>, good: nat -> bool, k: nat)
    requires IsFirstGood(slots, good, k)
    ensures forall j :: 0 <= j < k ==> slots[j] == NONE || !good(slots[j])
    ensures slots[k] == NONE || !good(slots[k]) ==>
              k == 0 && forall j :: 0 <= j < |slots| ==> slots[j] == NONE || !good(slots[j])
    ensures TakeFront(slots, k) == if k == 0 then slots[1..] else slots[k := NONE]
  {
  }

  datatype Score = Score(a: nat, b: nat, c: nat, d: nat)
  datatype Option = None | Some(score: Score)

  const MAX_HISTORY: nat := 16

  /** is_maxscore: the first component that differs decides. */
  predicate Better(x: Score, y: Score) {
    if x.a != y.a then x.a > y.a
    else if x.b != y.b then x.b > y.b
    else if x.c != y.c then x.c > y.c
    else x.d > y.d
  }

  /** x is the greater one in dictionary order. */
  predicate Above(x: seq<nat>, y: seq<nat>) {
    |x| == |y| && exists i {:trigger x[i]} :: 0 <= i < |x| && x[..i] == y[..i] && x[i] > y[i]
  }

  lemma BetterIsAbove(x: Score, y: Score)
    ensures Better(x, y) <==> Above([x.a, x.b, x.c, x.d], [y.a, y.b, y.c, y.d])
  {
    var xs, ys := [x.a, x.b, x.c, x.d], [y.a, y.b, y.c, y.d];
    var i := if x.a != y.a then 0 else if x.b != y.b then 1 else if x.c != y.c then 2 else 3;
    assert xs[..i] == ys[..i];
    assert xs[i] > ys[i] <==> Better(x, y);
  }

  /** Slot k holds a task with an affinity to the device. */
  predicate Scored(slots: seq<nat>, pinned: set<nat>, score: nat -> Option, k: int) {
    Stealable(slots, pinned, k) && score(slots[k]).Some? && Better(score(slots[k]).score, Score(0, 0, 0, 0))
  }

  /** Slot k has the best score from m on, and the first to have it when scanning from the tail. */
  predicate IsBest(slots: seq<nat>, pinned: set<nat>, score: nat -> Option, k: int, m: nat) {
    && Scored(slots, pinned, score, k) && m <= k
    && (forall j :: m <= j < |slots| && Scored(slots, pinned, score, j) ==>
           !Better(score(slots[j]).score, score(slots[k]).score))
    && (forall j :: k < j < |slots| && Scored(slots, pinned, score, j) ==>
           Better(score(slots[k]).score, score(slots[j]).score))
  }

  /** Slot k improves on every slot behind it. */
  predicate Improves(slots: seq<nat>, pinned: set<nat>, score: nat -> Option, k: int) {
    && Scored(slots, pinned, score, k)
    && forall j :: k < j < |slots| && Scored(slots, pinned, score, j) ==>
         Better(score(slots[k]).score, score(slots[j]).score)
  }

  /** How many slots from m on improve on those behind them. */
  function Improvements(slots: seq<nat>, pinned: set<nat>, score: nat -> Option, m: nat): nat
    decreases |slots| - m
  {
    if m >= |slots| then 0
    else Improvements(slots, pinned, score, m + 1) + if Improves(slots, pinned, score, m) then 1 else 0
  }

  /** How many slots from m on hold a task with an affinity. */
  function ScoredFrom(slots: seq<nat>, pinned: set<nat>, score: nat -> Option, m: nat): nat
    decreases |slots| - m
  {
    if m >= |slots| then 0
    else ScoredFrom(slots, pinned, score, m + 1) + if Scored(slots, pinned, score, m) then 1 else 0
  }

  lemma {:induction false} ScoredMore(slots: seq<nat>, pinned: set<nat>, score: nat -> Option, m: nat)
    ensures Improvements(slots, pinned, score, m) <= ScoredFrom(slots, pinned, score, m)
              <= ScoredFrom(slots, pinned, score, 0)
  {
    ScoredAll(slots, pinned, score, m);
    ImprovedScored(slots, pinned, score, m);
  }

  lemma {:induction false} ScoredAll(slots: seq<nat>, pinned: set<nat>, score: nat -> Option, m: nat)
    ensures ScoredFrom(slots, pinned, score, m) <= ScoredFrom(slots, pinned, score, 0)
  {
    hide Scored;
    if m > 0 { ScoredAll(slots, pinned, score, m - 1); }
  }

  lemma {:induction false} ImprovedScored(slots: seq<nat>, pinned: set<nat>, score: nat -> Option, m: nat)
    ensures Improvements(slots, pinned, score, m) <= ScoredFrom(slots, pinned, score, m)
    decreases |slots| - m
  {
    hide Scored;
    if m < |slots| { ImprovedScored(slots, pinned, score, m + 1); }
  }

  // ----- Positions in the ring -----

  lemma {:induction false} AtLeast(n: nat, k: nat)
    requires k >= 1
    ensures n * k >= n
  {
    if k > 1 {
      AtLeast(n, k - 1);
      assert n * k == n * (k - 1) + n;
    }
  }

  lemma Multiple(n: nat, k: int)
    requires k != 0
    ensures n * k >= n || n * k <= 0 - n
  {
    if k >= 1 {
      AtLeast(n, k);
    } else {
      AtLeast(n, -k);
      assert n * k == 0 - n * -k;
    }
  }

  /** The entry of the ring that position h + i falls on. */
  function Entry(n: nat, h: nat, i: nat): (e: nat)
    requires n > 0
    ensures e < n
  {
    (h + i) % n
  }

  /** Positions less than a ring apart never share an entry. */
  lemma Apart(n: nat, h: nat, i: nat, j: nat)
    requires n > 0 && i < j < i + n
    ensures Entry(n, h, i) != Entry(n, h, j)
  {
    var a, b := h + i, h + j;
    var k := b / n - a / n;
    assert b - a == n * k + (b % n - a % n);
    if k != 0 {
      Multiple(n, k);
    }
  }

  /** What the ring shows from position h on. */
  function Ring(a: seq<nat>, h: nat, len: nat): seq<nat>
    requires |a| > 0
  {
    seq(len, i requires 0 <= i < len => a[Entry(|a|, h, i)])
  }

  lemma RingSet(a: seq<nat>, h: nat, len: nat, k: nat, v: nat)
    requires k < len <= |a| && |a| > 0
    ensures Ring(a[Entry(|a|, h, k) := v], h, len) == Ring(a, h, len)[k := v]
  {
    hide Entry;
    forall i | 0 <= i < len && i != k
      ensures Entry(|a|, h, i) != Entry(|a|, h, k)
    {
      if i < k { Apart(|a|, h, i, k); } else { Apart(|a|, h, k, i); }
    }
  }

  lemma RingAppend(a: seq<nat>, h: nat, len: nat, v: nat)
    requires len < |a|
    ensures Ring(a[Entry(|a|, h, len) := v], h, len + 1) == Ring(a, h, len) + [v]
  {
    RingSet(a, h, len + 1, len, v);
    assert Ring(a, h, len + 1)[..len] == Ring(a, h, len);
  }

  lemma RingPrepend(a: seq<nat>, h: nat, len: nat, v: nat)
    requires len < |a| && h > 0
    ensures Ring(a[Entry(|a|, h - 1, 0) := v], h - 1, len + 1) == [v] + Ring(a, h, len)
  {
    RingSet(a, h - 1, len + 1, 0, v);
    assert Ring(a, h - 1, len + 1)[1..] == Ring(a, h, len);
  }

  /** Emptying an entry of the ring takes the task out of its slot. */
  lemma RingTake(a: seq<nat>, h: nat, len: nat, k: nat)
    requires k < len <= |a|
    ensures var a' := a[Entry(|a|, h, k) := NONE]; var was := Ring(a, h, len);
            && was[k] == a[Entry(|a|, h, k)]
            && (if k + 1 == len then Ring(a', h, len - 1) else Ring(a', h, len)) == TakeBack(was, k)
            && (if k == 0 then Ring(a', h + 1, len - 1) else Ring(a', h, len)) == TakeFront(was, k)
  {
    var a', was := a[Entry(|a|, h, k) := NONE], Ring(a, h, len);
    assert was[k] == a[Entry(|a|, h, k)] && |was| == len;
    hide Entry;
    RingSet(a, h, len, k, NONE);
    RingTail(a', h, len);
    hide Ring;
    assert k + 1 == len ==> was[k := NONE][..k] == was[..k];
    assert k == 0 ==> was[k := NONE][1..] == was[1..];
  }

  lemma RingTail(a: seq<nat>, h: nat, len: nat)
    requires 0 < len && |a| > 0
    ensures Ring(a, h + 1, len - 1) == Ring(a, h, len)[1..] && Ring(a, h, len - 1) == Ring(a, h, len)[..len - 1]
  {
  }

  /** C's remainder truncates toward zero. */
  function Remainder(a: int, n: nat): int
    requires n > 0
  {
    if a >= 0 then a % n else -((-a) % n)
  }

  /** The index of an owner push: an entry of the ring, unless the head has run down to zero. */
  lemma IndexBefore(n: nat, h: nat)
    requires n > 1
    ensures Remainder(h - 1, n) == if h == 0 then -1 else Entry(n, h - 1, 0)
  {
  }

  // ----- The queue -----

  /** An owner push is done, refused because the ring is full, or stores outside the ring. */
  datatype PushResult = Done | Full | Outside(index: int)

  class Queue {
    var data: array?<nat>
    var tail: int
    var head: int
    var pushCount: nat
    var popCount: int
    var waiterPush: bool
    /** The holes that pops with affinity have counted as tasks. */
    ghost var holes: nat

    ghost predicate InShape()
      reads this
    {
      if data == null then head == tail == 0
      else data.Length == QUEUE_DEFAULT_SIZE && 0 <= head <= tail <= head + data.Length
    }

    ghost function Slots(): (r: seq<nat>)
      requires InShape()
      reads this, data
      ensures |r| == tail - head
    {
      if data == null then [] else Ring(data[..], head, tail - head)
    }

    ghost predicate Valid()
      reads this, data
    {
      InShape() && pushCount - popCount == Count(Slots()) - holes
    }

    constructor ()
      ensures Valid() && Slots() == [] && data == null && pushCount == popCount == holes == 0
    {
      data, tail, head, pushCount, popCount, waiterPush, holes := null, 0, 0, 0, 0, false, 0;
    }

    /** kaapi_fifo_queue_size: it is the number of tasks exactly when no hole was counted, or no task is left. */
    method Size() returns (n: nat)
      requires Valid()
      ensures n == Count(Slots()) <==> holes == 0 || Count(Slots()) == 0
    {
      n := if pushCount > popCount then pushCount - popCount else 0;
    }

    method Allocate()
      requires Valid()
      modifies this
      ensures Valid() && data != null && Slots() == old(Slots())
      ensures pushCount == old(pushCount) && popCount == old(popCount) && holes == old(holes)
      ensures old(data) != null ==> data == old(data) && head == old(head) && tail == old(tail)
      ensures old(data) == null ==> fresh(data) && head == tail == QUEUE_DEFAULT_SIZE / 2
    {
      if data == null {
        data := new nat[QUEUE_DEFAULT_SIZE](_ => NONE);
        tail := QUEUE_DEFAULT_SIZE / 2;
        head := QUEUE_DEFAULT_SIZE / 2;
      }
    }

    /** One attempt of kaapi_fifo_queue_push: it is refused, and the caller waits, when the ring is full. */
    method Push(t: nat) returns (done: bool)
      requires Valid() && t != NONE
      modifies this, data
      ensures Valid() && (old(data) != null ==> data == old(data)) && (old(data) == null ==> fresh(data))
      ensures (done <==> |old(Slots())| < 16384) && waiterPush == !done
      ensures Slots() == if done then old(Slots()) + [t] else old(Slots())
      ensures pushCount == old(pushCount) + (if done then 1 else 0) && popCount == old(popCount) && holes == old(holes)
    {
      hide Count, Live;
      Allocate();
      AppendCount(Slots(), t);
      done := tail - head < data.Length;
      waiterPush := !done;
      if done {
        assert tail % data.Length == Entry(data.Length, head, tail - head);
        hide Entry, Ring;
        RingAppend(data[..], head, tail - head, t);
        data[tail % data.Length] := t;
        tail := tail + 1;
        pushCount := pushCount + 1;
      }
    }

    /**
     One attempt of kaapi_fifo_queue_owner_push. The head is not checked: when it has run
     down to zero the index is negative, and the store goes outside the ring.
     */
    method OwnerPush(t: nat) returns (r: PushResult)
      requires Valid() && t != NONE
      modifies this, data
      ensures Valid() && (old(data) != null ==> data == old(data)) && (old(data) == null ==> fresh(data))
      ensures (r == Full <==> |old(Slots())| >= 16384) && waiterPush == (r == Full)
      ensures r.Outside? <==> old(data) != null && old(head) == 0 && |old(Slots())| < 16384
      ensures r.Outside? ==> r.index == -1
      ensures Slots() == if r == Done then [t] + old(Slots()) else old(Slots())
      ensures pushCount == old(pushCount) + (if r == Done then 1 else 0) && popCount == old(popCount)
                && holes == old(holes)
      ensures tail == (if old(data) == null then QUEUE_DEFAULT_SIZE / 2 else old(tail))
      ensures head == (if old(data) == null then QUEUE_DEFAULT_SIZE / 2 else old(head)) - (if r == Done then 1 else 0)
    {
      hide Count, Live, Remainder, Entry, Ring;
      Allocate();
      AppendCount(Slots(), t);
      IndexBefore(data.Length, head);
      waiterPush := tail - head >= data.Length;
      if waiterPush {
        return Full;
      }
      var idx := Remainder(head - 1, data.Length);
      if idx < 0 {
        return Outside(idx);
      }
      RingPrepend(data[..], head, tail - head, t);
      head := head - 1;
      data[idx] := t;
      pushCount := pushCount + 1;
      r := Done;
    }

    /** Position p gives its task away; the tail shrinks when p was the last. */
    method RemoveBack(p: int) returns (t: nat)
      requires Valid() && head <= p < tail && Slots()[p - head] != NONE
      modifies this, data
      ensures Valid() && data == old(data) && head == old(head)
      ensures t == old(Slots())[p - head] && Slots() == TakeBack(old(Slots()), p - head)
      ensures pushCount == old(pushCount) && popCount == old(popCount) + 1 && holes == old(holes)
      ensures waiterPush == old(waiterPush)
    {
      hide Count, Live, Ring, TakeBack, TakeFront;
      ghost var k := p - head;
      TakeCount(Slots(), k);
      RingTake(data[..], head, tail - head, k);
      var idx := p % data.Length;
      assert idx == Entry(data.Length, head, k);
      hide Entry;
      t := data[idx];
      data[idx] := NONE;
      popCount := popCount + 1;
      if 1 + p == tail {
        tail := tail - 1;
      }
    }

    /** Position p gives its task away; the head advances when p was the first. */
    method ClearFront(p: int) returns (t: nat)
      requires InShape() && head <= p < tail
      modifies this`head, data
      ensures InShape()
      ensures t == old(Slots())[p - old(head)] && Slots() == TakeFront(old(Slots()), p - old(head))
    {
      hide Ring, TakeBack, TakeFront;
      ghost var k := p - head;
      RingTake(data[..], head, tail - head, k);
      var idx := p % data.Length;
      assert idx == Entry(data.Length, head, k);
      hide Entry;
      t := data[idx];
      data[idx] := NONE;
      if p == head {
        head := head + 1;
      }
    }

    /** kaapi_fifo_queue_pop: the first slot, which may be a hole. */
    method Pop() returns (t: nat)
      requires Valid()
      modifies this, data
      ensures Valid() && data == old(data)
      ensures t == if old(Slots()) == [] then NONE else old(Slots())[0]
      ensures Slots() == if old(Slots()) == [] then [] else old(Slots())[1..]
      ensures pushCount == old(pushCount) && popCount == old(popCount) + (if t == NONE then 0 else 1)
      ensures holes == old(holes) && waiterPush == old(waiterPush)
    {
      hide Count, Live, Ring;
      t := NONE;
      if head < tail {
        TakeCount(Slots(), 0);
        t := ClearFront(head);
        if t != NONE {
          popCount := popCount + 1;
        }
      }
    }

    /** The task at position p. */
    function At(p: int): (t: nat)
      requires InShape() && head <= p < tail
      reads this, data
      ensures t == Slots()[p - head]
    {
      data[p % data.Length]
    }

    /** Scan from the tail for a task that is not marked unstealable; t is the last slot looked at. */
    method FindStealable(pinned: set<nat>) returns (found: bool, i: int, t: nat)
      requires Valid()
      ensures found ==> head <= i < tail && IsLastStealable(Slots(), pinned, i - head) && t == Slots()[i - head]
      ensures !found ==> forall j :: 0 <= j < |Slots()| ==> !Stealable(Slots(), pinned, j)
      ensures !found ==> t == if Slots() == [] then NONE else Slots()[0]
    {
      hide Ring;
      i, found, t := tail, false, NONE;
      while i > head
        invariant head <= i <= tail && !found
        invariant forall j :: i - head <= j < |Slots()| ==> !Stealable(Slots(), pinned, j)
        invariant t == if i == tail then NONE else Slots()[i - head]
      {
        i := i - 1;
        t := At(i);
        if t != NONE && t !in pinned {
          return true, i, t;
        }
      }
    }

    /**
     kaapi_fifo_queue_steal: the last task that is not marked unstealable. A task that stays
     in the queue is returned exactly when only unstealable ones are left and one is first.
     */
    method Steal(pinned: set<nat>) returns (t: nat, ghost k: int)
      requires Valid()
      modifies this, data
      ensures Valid() && data == old(data) && pushCount == old(pushCount) && holes == old(holes)
      ensures waiterPush == old(waiterPush)
      ensures k >= 0 ==> IsLastStealable(old(Slots()), pinned, k) && t == old(Slots())[k]
      ensures k >= 0 ==> t != NONE && t !in pinned && forall j :: k < j < |old(Slots())| ==>
                           old(Slots())[j] == NONE || old(Slots())[j] in pinned
      ensures k >= 0 ==>
                && Slots() == (if k + 1 == |old(Slots())| then old(Slots())[..k] else old(Slots())[k := NONE])
                && popCount == old(popCount) + 1
      ensures k < 0 ==> forall j :: 0 <= j < |old(Slots())| ==> !Stealable(old(Slots()), pinned, j)
      ensures k < 0 ==> Slots() == old(Slots()) && popCount == old(popCount)
      ensures t != NONE && k < 0 <==> OnlyPinned(old(Slots()), pinned)
      ensures OnlyPinned(old(Slots()), pinned) ==> t == Slots()[0] && t in Live(Slots())
      ensures !OnlyPinned(old(Slots()), pinned) ==>
                Live(old(Slots())) == Live(Slots()) + if t == NONE then multiset{} else multiset{t}
    {
      hide Ring, Live, Count;
      var found: bool, i: int;
      found, i, t := FindStealable(pinned);
      k := -1;
      if found {
        k := i - head;
        assert Stealable(Slots(), pinned, k) && !OnlyPinned(Slots(), pinned);
        TakeBalance(Slots(), k);
        LastStealable(Slots(), pinned, k);
        t := RemoveBack(i);
      } else {
        NoneStealable(Slots(), pinned);
        if t != NONE { LiveMember(Slots(), 0); }
      }
    }

    /** Scan from the head for a task with a positive score. */
    method FindGood(good: nat -> bool) returns (best: int)
      requires Valid() && head < tail
      ensures head <= best < tail
      ensures IsFirstGood(Slots(), good, best - head)
    {
      hide Ring;
      best := head;
      var i := head;
      while i < tail
        invariant head <= i <= tail
        invariant forall j :: 0 <= j < i - head ==> Slots()[j] == NONE || !good(Slots()[j])
      {
        var task := At(i);
        if task != NONE && good(task) {
          return i;
        }
        i := i + 1;
      }
    }

    /** kaapi_fifo_queue_pop_with_affinity: the first task with a positive score, otherwise the first slot. */
    method PopWithAffinity(good: nat -> bool) returns (t: nat, ghost k: nat)
      requires Valid()
      modifies this, data
      ensures Valid() && data == old(data) && pushCount == old(pushCount) && waiterPush == old(waiterPush)
      ensures holes == old(holes) + (if old(Slots()) != [] && t == NONE then 1 else 0)
      ensures old(Slots()) == [] ==> t == NONE && Slots() == [] && popCount == old(popCount)
      ensures old(Slots()) != [] ==>
                && k < |old(Slots())| && t == old(Slots())[k]
                && Slots() == (if k == 0 then old(Slots())[1..] else old(Slots())[k := NONE])
                && (forall j :: 0 <= j < k ==> old(Slots())[j] == NONE || !good(old(Slots())[j]))
                && (t == NONE || !good(t) ==>
                      k == 0 && forall j :: 0 <= j < |old(Slots())| ==>
                                  old(Slots())[j] == NONE || !good(old(Slots())[j]))
                && popCount == old(popCount) + 1
    {
      hide Ring, Count, Live;
      t, k := NONE, 0;
      if head < tail {
        var best := FindGood(good);
        k := best - head;
        TakeCount(Slots(), k);
        FirstGoodMeans(Slots(), good, k);
        hide IsFirstGood, TakeFront, TakeBack;
        t := ClearFront(best);
        popCount := popCount + 1;
        if t == NONE { holes := holes + 1; }
      }
    }

    /** Scan from the tail for the best score, giving up after MAX_HISTORY improvements; m is the last slot seen. */
    method FindBest(pinned: set<nat>, score: nat -> Option) returns (found: bool, best: int, ghost m: nat)
      requires Valid()
      ensures m <= |Slots()|
      ensures found ==> head + m <= best < tail && IsBest(Slots(), pinned, score, best - head, m)
      ensures !found ==> m == 0 && forall j :: 0 <= j < |Slots()| ==> !Scored(Slots(), pinned, score, j)
      ensures Improvements(Slots(), pinned, score, m) <= 16
      ensures m > 0 ==> Improvements(Slots(), pinned, score, m) == 16
    {
      hide Ring;
      ghost var slots := Slots();
      var i, history, max := tail, 0, Score(0, 0, 0, 0);
      best, found, m := 0, false, |slots|;
      while i > head
        invariant head <= i <= tail && m == i - head && 0 <= history < MAX_HISTORY && (found <==> history > 0)
        invariant forall j :: m <= j < |slots| && Scored(slots, pinned, score, j) ==>
                    !Better(score(slots[j]).score, max)
        invariant found ==> head + m <= best < tail && Scored(slots, pinned, score, best - head)
        invariant found ==> max == score(slots[best - head]).score && Better(max, Score(0, 0, 0, 0))
        invariant found ==>
                    forall j :: best - head < j < |slots| && Scored(slots, pinned, score, j) ==>
                          Better(max, score(slots[j]).score)
        invariant !found ==> max == Score(0, 0, 0, 0)
        invariant history == Improvements(slots, pinned, score, m)
        decreases i
      {
        i := i - 1;
        m := i - head;
        var task := At(i);
        assert task == slots[m];
        if task == NONE || task in pinned {
          continue;
        }
        var r := score(task);
        if r.Some? && Better(r.score, max) {
          max, best, found := r.score, i, true;
          history := history + 1;
          if history == MAX_HISTORY {
            return;
          }
        }
      }
    }

    /** kaapi_fifo_queue_steal_with_affinity. */
    method StealWithAffinity(pinned: set<nat>, score: nat -> Option) returns (t: nat, ghost k: int, ghost m: nat)
      requires Valid()
      modifies this, data
      ensures Valid() && data == old(data) && pushCount == old(pushCount) && holes == old(holes)
      ensures waiterPush == old(waiterPush)
      ensures k >= 0 ==> IsBest(old(Slots()), pinned, score, k, m) && t == old(Slots())[k]
      ensures k >= 0 ==> t != NONE && t !in pinned && score(t).Some?
      ensures k >= 0 ==>
                && Slots() == (if k + 1 == |old(Slots())| then old(Slots())[..k] else old(Slots())[k := NONE])
                && popCount == old(popCount) + 1
      ensures k < 0 ==> forall j :: 0 <= j < |old(Slots())| ==> !Scored(old(Slots()), pinned, score, j)
      ensures k < 0 ==> t == NONE && Slots() == old(Slots()) && popCount == old(popCount)
      ensures m > 0 ==> Improvements(old(Slots()), pinned, score, m) == 16
      ensures ScoredFrom(old(Slots()), pinned, score, 0) < 16 ==> m == 0
    {
      hide Ring, Count, Live, Improvements, ScoredFrom;
      var found: bool, best: int;
      found, best, m := FindBest(pinned, score);
      ScoredMore(Slots(), pinned, score, m);
      t, k := NONE, -1;
      if found {
        k := best - head;
        t := RemoveBack(best);
      }
    }
  }

  /** From a new queue, half a ring of owner pushes runs the head down to zero; the next one stores outside the ring. */
  method RunDown(t: nat) returns (q: Queue, r: PushResult)
    requires t != NONE
    ensures fresh(q) && q.pushCount == 8192 && q.popCount == 0 && r == Outside(-1)
  {
    q := new Queue();
    r := q.OwnerPush(t);
    var i := 1;
    while i < QUEUE_DEFAULT_SIZE / 2
      invariant fresh(q) && q.data != null && fresh(q.data) && q.Valid() && 1 <= i <= QUEUE_DEFAULT_SIZE / 2
      invariant q.head == QUEUE_DEFAULT_SIZE / 2 - i && q.tail == QUEUE_DEFAULT_SIZE / 2
      invariant q.pushCount == i && q.popCount == 0
    {
      r := q.OwnerPush(t);
      i := i + 1;
    }
    r := q.OwnerPush(t);
  }
}
