/**
 The cyclic barrier of a team (kaapi_team_barrier_wait) as a machine whose steps
 are its atomic reads and writes. Any number of threads use it any number of
 times; left counts the episodes a thread has left.
 */
module Barrier {
  const CYCLES: nat := 3

  /** Where a thread is: outside, having read the cycle, waiting, or being the last to arrive. */
  datatype Point = Outside | Entered | Waits | Cleans | Switches

  datatype Thread = Thread(at: Point, current: nat, left: nat)

  /** episode is auxiliary: the number of times the cycle has been switched. */
  datatype Team = Team(cycle: nat, count: seq<nat>, threads: seq<Thread>, episode: nat)

  function Next(cycle: nat): nat { (cycle + 1) % CYCLES }

  /** kaapi_barrier_init. */
  function Init(n: nat): Team {
    Team(0, [0, 0, 0], seq(n, _ => Thread(Outside, 0, 0)), 0)
  }

  predicate Shaped(s: Team) {
    && |s.count| == CYCLES && s.cycle < CYCLES
    && forall i :: 0 <= i < |s.threads| ==> s.threads[i].current < CYCLES
  }

  /** A thread that waits may step only when the cycle has moved; every other thread may always step. */
  predicate CanStep(s: Team, i: nat) {
    i < |s.threads| && (s.threads[i].at == Waits ==> s.cycle == Next(s.threads[i].current))
  }

  function Step(s: Team, i: nat): Team
    requires Shaped(s) && CanStep(s, i)
  {
    var t := s.threads[i];
    match t.at
    case Outside => s.(threads := s.threads[i := t.(at := Entered, current := s.cycle)])
    case Entered =>
      var arrived := s.count[t.current] + 1;
      s.(count := s.count[t.current := arrived],
         threads := s.threads[i := t.(at := if arrived == |s.threads| then Cleans else Waits)])
    case Cleans => s.(count := s.count[Next(Next(t.current)) := 0], threads := s.threads[i := t.(at := Switches)])
    case Switches =>
      s.(cycle := Next(t.current), threads := s.threads[i := t.(at := Outside, left := t.left + 1)],
         episode := s.episode + 1)
    case Waits => s.(threads := s.threads[i := t.(at := Outside, left := t.left + 1)])
  }

  // ----- The invariant -----

  predicate Inside(p: Point) { p == Waits || p == Cleans || p == Switches }

  /** Thread t has arrived at episode e. */
  predicate Arrived(t: Thread, e: nat) { t.left > e || (t.left == e && Inside(t.at)) }

  function Arrivals(ts: seq<Thread>, e: nat): nat {
    if ts == [] then 0 else Arrivals(ts[..|ts| - 1], e) + if Arrived(ts[|ts| - 1], e) then 1 else 0
  }

  predicate Closing(p: Point) { p == Cleans || p == Switches }

  ghost predicate Inv(s: Team) {
    var n, e := |s.threads|, s.episode;
    && Shaped(s) && s.cycle == e % CYCLES
    && (forall i :: 0 <= i < n ==> s.threads[i].left == e || (s.threads[i].left + 1 == e && s.threads[i].at == Waits))
    && (forall i :: 0 <= i < n && s.threads[i].at != Outside ==> s.threads[i].current == s.threads[i].left % CYCLES)
    && s.count[s.cycle] == Arrivals(s.threads, e)
    && s.count[Next(s.cycle)] == 0
    && (forall i :: 0 <= i < n && s.threads[i].at == Switches ==> s.count[Next(Next(s.cycle))] == 0)
    && (forall i :: 0 <= i < n && Closing(s.threads[i].at) ==> Arrivals(s.threads, e) == n)
    && (forall i, j :: 0 <= i < j < n ==> !Closing(s.threads[i].at) || !Closing(s.threads[j].at))
    && (n > 0 && Arrivals(s.threads, e) == n ==> exists i :: 0 <= i < n && Closing(s.threads[i].at))
  }

  // ----- Counting arrivals -----

  lemma {:induction false} ArrivalsUpdate(ts: seq<Thread>, i: nat, t: Thread, e: nat)
    requires i < |ts|
    ensures Arrivals(ts[i := t], e) + (if Arrived(ts[i], e) then 1 else 0)
              == Arrivals(ts, e) + (if Arrived(t, e) then 1 else 0)
  {
    var n := |ts| - 1;
    if i == n {
      assert ts[i := t][..n] == ts[..n];
    } else {
      ArrivalsUpdate(ts[..n], i, t, e);
      assert ts[i := t][..n] == ts[..n][i := t];
    }
  }

  /** Everyone is counted exactly when everyone has arrived. */
  lemma {:induction false} ArrivalsAll(ts: seq<Thread>, e: nat)
    ensures Arrivals(ts, e) <= |ts|
    ensures Arrivals(ts, e) == |ts| <==> forall i :: 0 <= i < |ts| ==> Arrived(ts[i], e)
  {
    if ts != [] {
      var n := |ts| - 1;
      ArrivalsAll(ts[..n], e);
      assert forall i :: 0 <= i < n ==> ts[..n][i] == ts[i];
    }
  }

  lemma {:induction false} ArrivalsNone(ts: seq<Thread>, e: nat)
    requires forall i :: 0 <= i < |ts| ==> !Arrived(ts[i], e)
    ensures Arrivals(ts, e) == 0
  {
    if ts != [] {
      ArrivalsNone(ts[..|ts| - 1], e);
    }
  }

  // ----- Steps -----

  lemma Cycles(e: nat)
    ensures Next(e % CYCLES) == (e + 1) % CYCLES
    ensures Next(Next(e % CYCLES)) != e % CYCLES && Next(e % CYCLES) != e % CYCLES
    ensures Next(Next(e % CYCLES)) != Next(e % CYCLES) && Next(Next(Next(e % CYCLES))) == e % CYCLES
  {
  }

  lemma EnterKeeps(s: Team, i: nat)
    requires Inv(s) && CanStep(s, i) && s.threads[i].at == Outside
    ensures Inv(Step(s, i))
  {
    ArrivalsUpdate(s.threads, i, s.threads[i].(at := Entered, current := s.cycle), s.episode);
    var s' := Step(s, i);
    if j :| 0 <= j < |s.threads| && Closing(s.threads[j].at) {
      assert Closing(s'.threads[j].at);
    }
  }

  lemma ArriveKeeps(s: Team, i: nat)
    requires Inv(s) && CanStep(s, i) && s.threads[i].at == Entered
    ensures Inv(Step(s, i))
  {
    var s' := Step(s, i);
    Cycles(s.episode);
    ArrivalsUpdate(s.threads, i, s'.threads[i], s.episode);
    ArrivalsAll(s.threads, s.episode);
    assert !Arrived(s.threads[i], s.episode);
  }

  lemma CleanKeeps(s: Team, i: nat)
    requires Inv(s) && CanStep(s, i) && s.threads[i].at == Cleans
    ensures Inv(Step(s, i))
  {
    var s' := Step(s, i);
    Cycles(s.episode);
    ArrivalsUpdate(s.threads, i, s'.threads[i], s.episode);
    assert Closing(s'.threads[i].at);
  }

  lemma LeaveKeeps(s: Team, i: nat)
    requires Inv(s) && CanStep(s, i) && s.threads[i].at == Waits
    ensures Inv(Step(s, i))
  {
    var s' := Step(s, i);
    Cycles(s.threads[i].left);
    Cycles(s.episode);
    assert s.threads[i].left + 1 == s.episode;
    ArrivalsUpdate(s.threads, i, s'.threads[i], s.episode);
    if j :| 0 <= j < |s.threads| && Closing(s.threads[j].at) {
      assert Closing(s'.threads[j].at);
    }
  }

  lemma SwitchKeeps(s: Team, i: nat)
    requires Inv(s) && CanStep(s, i) && s.threads[i].at == Switches
    ensures Inv(Step(s, i))
  {
    var s' := Step(s, i);
    Cycles(s.episode);
    Cycles(s.episode + 1);
    ArrivalsAll(s.threads, s.episode);
    assert s.threads[i].left == s.episode;
    forall j | 0 <= j < |s.threads|
      ensures !Arrived(s'.threads[j], s.episode + 1) && !Closing(s'.threads[j].at)
      ensures s'.threads[j].left == s.episode + 1 || (s'.threads[j].left == s.episode && s'.threads[j].at == Waits)
    {
      assert Arrived(s.threads[j], s.episode);
    }
    ArrivalsNone(s'.threads, s.episode + 1);
  }

  lemma StepKeeps(s: Team, i: nat)
    requires Inv(s) && CanStep(s, i)
    ensures Inv(Step(s, i))
  {
    hide Inv, Step;
    match s.threads[i].at
    case Outside => EnterKeeps(s, i);
    case Entered => ArriveKeeps(s, i);
    case Cleans => CleanKeeps(s, i);
    case Switches => SwitchKeeps(s, i);
    case Waits => LeaveKeeps(s, i);
  }

  // ----- Runs -----

  /** es lists the threads that step, in order. */
  ghost predicate RunFrom(s: Team, es: seq<nat>, s': Team)
    decreases |es|
  {
    if es == [] then s' == s
    else Shaped(s) && CanStep(s, es[0]) && RunFrom(Step(s, es[0]), es[1..], s')
  }

  /** A run goes on with any step of a thread that can take one. */
  lemma {:induction false} RunGoesOn(s: Team, es: seq<nat>, s': Team, i: nat)
    requires RunFrom(s, es, s') && Shaped(s') && CanStep(s', i)
    ensures RunFrom(s, es + [i], Step(s', i))
    decreases |es|
  {
    hide Shaped, CanStep, Step;
    if es == [] {
      assert [i][1..] == [];
      assert es + [i] == [i];
    } else {
      assert (es + [i])[1..] == es[1..] + [i];
      RunGoesOn(Step(s, es[0]), es[1..], s', i);
    }
  }

  lemma {:induction false} RunKeeps(s: Team, es: seq<nat>, s': Team)
    requires Inv(s) && RunFrom(s, es, s')
    ensures Inv(s') && |s'.threads| == |s.threads|
    ensures Total(s'.threads) >= Total(s.threads) + |es|
    decreases |es|
  {
    hide Inv;
    if es != [] {
      StepKeeps(s, es[0]);
      StepAdvances(s, es[0]);
      RunKeeps(Step(s, es[0]), es[1..], s');
    }
  }

  lemma InitInv(n: nat)
    ensures Inv(Init(n))
    ensures Total(Init(n).threads) == 0
  {
    var ts := Init(n).threads;
    ArrivalsNone(ts, 0);
    TotalZero(ts);
  }

  // ----- Progress -----

  function Rank(t: Thread): nat {
    4 * t.left + match t.at case Outside => 0 case Entered => 1 case Waits => 2 case Cleans => 2 case Switches => 3
  }

  function Total(ts: seq<Thread>): nat {
    if ts == [] then 0 else Total(ts[..|ts| - 1]) + Rank(ts[|ts| - 1])
  }

  lemma {:induction false} TotalUpdate(ts: seq<Thread>, i: nat, t: Thread)
    requires i < |ts|
    ensures Total(ts[i := t]) + Rank(ts[i]) == Total(ts) + Rank(t)
  {
    var n := |ts| - 1;
    if i == n {
      assert ts[i := t][..n] == ts[..n];
    } else {
      TotalUpdate(ts[..n], i, t);
      assert ts[i := t][..n] == ts[..n][i := t];
    }
  }

  lemma {:induction false} TotalZero(ts: seq<Thread>)
    requires forall i :: 0 <= i < |ts| ==> Rank(ts[i]) == 0
    ensures Total(ts) == 0
  {
    if ts != [] {
      TotalZero(ts[..|ts| - 1]);
    }
  }

  lemma {:induction false} TotalBound(ts: seq<Thread>, m: nat)
    requires forall i :: 0 <= i < |ts| ==> ts[i].left <= m
    ensures Total(ts) <= |ts| * (4 * m + 3)
  {
    if ts != [] {
      var n, k := |ts| - 1, 4 * m + 3;
      TotalBound(ts[..n], m);
      assert Rank(ts[n]) <= k;
      assert (n + 1) * k == n * k + k;
    }
  }

  lemma StepAdvances(s: Team, i: nat)
    requires Shaped(s) && CanStep(s, i)
    ensures |Step(s, i).threads| == |s.threads| && Total(Step(s, i).threads) >= Total(s.threads) + 1
  {
    TotalUpdate(s.threads, i, Step(s, i).threads[i]);
  }

  // ----- What the barrier promises -----

  /** Threads are at most one episode apart, and the counter in use counts exactly the arrivals at the episode. */
  lemma Together(n: nat, es: seq<nat>, s: Team, i: nat, j: nat)
    requires RunFrom(Init(n), es, s) && i < |s.threads| && j < |s.threads|
    ensures |s.threads| == n && |s.count| == CYCLES && s.cycle < CYCLES
    ensures s.threads[i].left <= s.threads[j].left + 1
    ensures s.count[s.cycle] == Arrivals(s.threads, s.episode)
  {
    InitInv(n);
    RunKeeps(Init(n), es, s);
  }

  /** No thread leaves an episode before every thread has arrived at it. */
  lemma NobodyLeavesEarly(n: nat, es: seq<nat>, s: Team, i: nat, j: nat)
    requires RunFrom(Init(n), es, s) && Shaped(s) && CanStep(s, i) && j < |s.threads|
    requires Step(s, i).threads[i].left > s.threads[i].left
    ensures Arrived(s.threads[j], s.threads[i].left)
  {
    InitInv(n);
    RunKeeps(Init(n), es, s);
    ArrivalsAll(s.threads, s.episode);
    Cycles(s.threads[i].left);
  }

  /** The counter of an episode stands at zero when the episode opens. */
  lemma FreshCounter(n: nat, es: seq<nat>, s: Team, i: nat)
    requires RunFrom(Init(n), es, s) && Shaped(s) && CanStep(s, i) && Step(s, i).cycle != s.cycle
    ensures var s' := Step(s, i); s'.cycle < CYCLES && s'.count[s'.cycle] == 0 && s'.cycle == Next(s.cycle)
  {
    InitInv(n);
    RunKeeps(Init(n), es, s);
    Cycles(s.episode);
  }

  /** Some thread can always step. */
  lemma NoDeadlock(n: nat, es: seq<nat>, s: Team)
    requires RunFrom(Init(n), es, s) && n > 0
    ensures exists i: nat :: CanStep(s, i)
  {
    InitInv(n);
    RunKeeps(Init(n), es, s);
    ArrivalsAll(s.threads, s.episode);
    if i :| 0 <= i < n && (s.threads[i].at != Waits || s.threads[i].left + 1 == s.episode) {
      Cycles(s.threads[i].left);
      assert CanStep(s, i);
    }
  }

  /** Whatever the schedule, a long enough run brings every thread through every episode. */
  lemma EveryoneAdvances(n: nat, es: seq<nat>, s: Team, m: nat, j: nat)
    requires RunFrom(Init(n), es, s) && |es| > n * (4 * m + 3) && j < |s.threads|
    ensures s.threads[j].left >= m
  {
    InitInv(n);
    RunKeeps(Init(n), es, s);
    if s.threads[j].left < m {
      forall i | 0 <= i < |s.threads|
        ensures s.threads[i].left <= m
      {
        Together(n, es, s, i, j);
      }
      TotalBound(s.threads, m);
    }
  }
}
