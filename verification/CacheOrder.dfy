/**
 What the software cache of a device promises: its tiles lie on two lists, one for
 tiles that were only read and one for tiles that were written, each ordered by last
 use; an eviction pass takes the least recently used tiles it may take.
 */
module CacheOrder {
  import opened ListPairs
  import opened Machine

  /** The tiles of the two lists, most recently used first. */
  type Order = Pair<seq<nat>>

  function Without(s: seq<nat>, t: nat): (r: seq<nat>)
    ensures forall x :: x in r <==> x in s && x != t
  {
    if s == [] then []
    else if s[0] == t then Without(s[1..], t)
    else [s[0]] + Without(s[1..], t)
  }

  /** The list on which a touched tile ends: a tile whose host copy is stale stays with the written ones. */
  function Target(o: Order, t: nat, write: bool, hostValid: bool): Which {
    if write || (t in o.rw && !hostValid) then RW else RO
  }

  function Touched(o: Order, t: nat, write: bool, hostValid: bool): Order {
    var w := Target(o, t, write, hostValid);
    var rest := Pair(Without(o.ro, t), Without(o.rw, t));
    rest.Set(w, [t] + rest.Get(w))
  }

  // ----- Eviction -----

  function Monus(a: nat, b: nat): nat { if a <= b then 0 else a - b }

  /** The tiles of s that may be evicted, or those that may not. */
  function Only(s: seq<nat>, evictable: set<nat>, yes: bool): seq<nat> {
    if s == [] then []
    else
      var rest := Only(s[..|s| - 1], evictable, yes);
      if (s[|s| - 1] in evictable) == yes then rest + [s[|s| - 1]] else rest
  }

  function Total(s: seq<nat>, bytes: nat -> nat): nat {
    if s == [] then 0 else Total(s[..|s| - 1], bytes) + bytes(s[|s| - 1])
  }

  datatype Swept = Swept(kept: seq<nat>, evicted: seq<nat>, left: nat)

  /** One pass from the least recently used tile on, until enough is evicted. */
  function Sweep(s: seq<nat>, evictable: set<nat>, bytes: nat -> nat, need: nat): Swept {
    if s == [] || need == 0 then Swept(s, [], need)
    else
      var t, rest := s[|s| - 1], s[..|s| - 1];
      if t in evictable then
        var r := Sweep(rest, evictable, bytes, Monus(need, bytes(t)));
        Swept(r.kept, r.evicted + [t], r.left)
      else
        var r := Sweep(rest, evictable, bytes, need);
        Swept(r.kept + [t], r.evicted, r.left)
  }

  lemma OnlyAppend(s: seq<nat>, t: nat, evictable: set<nat>, yes: bool)
    ensures Only(s + [t], evictable, yes)
         == Only(s, evictable, yes) + (if (t in evictable) == yes then [t] else [])
  {
    assert (s + [t])[..|s|] == s;
  }

  lemma TotalAppend(s: seq<nat>, t: nat, bytes: nat -> nat)
    ensures Total(s + [t], bytes) == Total(s, bytes) + bytes(t)
  {
    assert (s + [t])[..|s|] == s;
  }

  lemma {:induction false} TotalConcat(s: seq<nat>, s': seq<nat>, bytes: nat -> nat)
    ensures Total(s + s', bytes) == Total(s, bytes) + Total(s', bytes)
  {
    if s' == [] {
      assert s + s' == s;
    } else {
      TotalConcat(s, s'[..|s'| - 1], bytes);
      assert s + s' == (s + s'[..|s'| - 1]) + [s'[|s'| - 1]];
      TotalAppend(s + s'[..|s'| - 1], s'[|s'| - 1], bytes);
    }
  }

  /** A pass cuts the list: everything evictable behind the cut goes, nothing before it, and no more than needed. */
  ghost predicate IsCut(
    front: seq<nat>, back: seq<nat>, evictable: set<nat>, bytes: nat -> nat, need: nat, r: Swept)
  {
    && r.kept == front + Only(back, evictable, false)
    && r.evicted == Only(back, evictable, true)
    && r.left == Monus(need, Total(r.evicted, bytes))
    && (front != [] ==> r.left == 0)
    && (back != [] ==> need > Total(Only(back[1..], evictable, true), bytes))
  }

  lemma {:induction false} SweepCuts(s: seq<nat>, evictable: set<nat>, bytes: nat -> nat, need: nat)
    returns (front: seq<nat>, back: seq<nat>)
    ensures s == front + back && IsCut(front, back, evictable, bytes, need, Sweep(s, evictable, bytes, need))
  {
    if s == [] || need == 0 {
      front, back := s, [];
    } else {
      var n, t := |s| - 1, s[|s| - 1];
      var need' := if t in evictable then Monus(need, bytes(t)) else need;
      var back';
      front, back' := SweepCuts(s[..n], evictable, bytes, need');
      back := back' + [t];
      assert s == s[..n] + [t] == front + back;
      var r := Sweep(s[..n], evictable, bytes, need');
      assert Sweep(s, evictable, bytes, need) ==
             if t in evictable then Swept(r.kept, r.evicted + [t], r.left) else Swept(r.kept + [t], r.evicted, r.left);
      hide IsCut, Sweep;
      CutExtends(front, back', t, evictable, bytes, need, r);
    }
  }

  lemma CutExtends(
    front: seq<nat>, back: seq<nat>, t: nat, evictable: set<nat>, bytes: nat -> nat, need: nat, r: Swept)
    requires need > 0
    requires IsCut(front, back, evictable, bytes, if t in evictable then Monus(need, bytes(t)) else need, r)
    ensures IsCut(front, back + [t], evictable, bytes, need,
              if t in evictable then Swept(r.kept, r.evicted + [t], r.left) else Swept(r.kept + [t], r.evicted, r.left))
  {
    hide Only, Total;
    OnlyAppend(back, t, evictable, true);
    OnlyAppend(back, t, evictable, false);
    TotalAppend(r.evicted, t, bytes);
    NeedExtends(back, t, evictable, bytes, need);
    assert front + (Only(back, evictable, false) + [t]) == (front + Only(back, evictable, false)) + [t];
  }

  lemma NeedExtends(back: seq<nat>, t: nat, evictable: set<nat>, bytes: nat -> nat, need: nat)
    requires need > 0
    requires var need' := if t in evictable then Monus(need, bytes(t)) else need;
             back != [] ==> need' > Total(Only(back[1..], evictable, true), bytes)
    ensures need > Total(Only((back + [t])[1..], evictable, true), bytes)
  {
    if back == [] {
      assert (back + [t])[1..] == [];
    } else {
      hide Only, Total;
      assert (back + [t])[1..] == back[1..] + [t];
      OnlyAppend(back[1..], t, evictable, true);
      TotalAppend(Only(back[1..], evictable, true), t, bytes);
    }
  }

  lemma {:induction false} OnlyMembers(s: seq<nat>, evictable: set<nat>, yes: bool)
    ensures forall x :: x in Only(s, evictable, yes) <==> x in s && (x in evictable) == yes
  {
    if s != [] {
      OnlyMembers(s[..|s| - 1], evictable, yes);
      assert s == s[..|s| - 1] + [s[|s| - 1]];
    }
  }

  predicate EachOnce(s: seq<nat>) { forall i, j :: 0 <= i < j < |s| ==> s[i] != s[j] }

  lemma Sides(front: seq<nat>, back: seq<nat>, i: nat)
    requires EachOnce(front + back) && i < |front| + |back|
    ensures ((front + back)[i] in front <==> i < |front|) && ((front + back)[i] in back <==> i >= |front|)
  {
    var s := front + back;
    assert forall k :: 0 <= k < |front| ==> front[k] == s[k];
    assert forall k :: 0 <= k < |back| ==> back[k] == s[|front| + k];
  }

  /** No evictable tile is kept that was used less recently than an evicted one. */
  lemma KeepsNoOlder(s: seq<nat>, evictable: set<nat>, bytes: nat -> nat, need: nat, i: nat, j: nat)
    requires EachOnce(s) && i < j < |s|
    ensures var r := Sweep(s, evictable, bytes, need);
            && (s[i] in r.kept <==> s[i] !in r.evicted)
            && (s[i] in r.evicted && s[j] in evictable ==> s[j] in r.evicted)
  {
    var front, back := SweepCuts(s, evictable, bytes, need);
    OnlyMembers(back, evictable, true);
    OnlyMembers(back, evictable, false);
    Sides(front, back, i);
    Sides(front, back, j);
    hide Only, EachOnce, Sweep, Total;
  }

  lemma {:induction false} OnlySplits(s: seq<nat>, evictable: set<nat>)
    ensures multiset(Only(s, evictable, true)) + multiset(Only(s, evictable, false)) == multiset(s)
  {
    if s != [] {
      OnlySplits(s[..|s| - 1], evictable);
      assert s == s[..|s| - 1] + [s[|s| - 1]];
    }
  }

  /** A pass neither invents nor loses a tile. */
  lemma SweepSplits(s: seq<nat>, evictable: set<nat>, bytes: nat -> nat, need: nat)
    ensures var r := Sweep(s, evictable, bytes, need); multiset(r.kept) + multiset(r.evicted) == multiset(s)
  {
    var front, back := SweepCuts(s, evictable, bytes, need);
    OnlySplits(back, evictable);
  }

  /** A pass aims at twice the request, in 64 bits, and reports what is missing of the request. */
  function Aim(size: nat): nat { 2 * size % WORD }
  function Missing(size: nat, left: nat): nat { Monus(left, size) }

  /** Below half the address space a pass reports the request less the evicted bytes; above, always nothing. */
  lemma PassReports(s: seq<nat>, evictable: set<nat>, bytes: nat -> nat, size: nat)
    requires size < 0x1_0000_0000_0000_0000
    ensures var r := Sweep(s, evictable, bytes, Aim(size));
            Missing(size, r.left) ==
              if size < 0x8000_0000_0000_0000 then Monus(size, Total(r.evicted, bytes)) else 0
  {
    hide Sweep, Aim, Total, Only;
    var front, back := SweepCuts(s, evictable, bytes, Aim(size));
    AimIs(size);
  }

  lemma AimIs(size: nat)
    requires size < WORD
    ensures Aim(size) == if size < WORD / 2 then 2 * size else 2 * size - WORD
  {
  }

  // ----- Runs -----

  datatype Op = Touch(tile: nat, write: bool, hostValid: bool) | Pass(which: Which, evictable: set<nat>, size: nat)

  function Step(o: Order, op: Op, bytes: nat -> nat): Order {
    match op
    case Touch(t, write, hostValid) => Touched(o, t, write, hostValid)
    case Pass(w, evictable, size) => o.Set(w, Sweep(o.Get(w), evictable, bytes, Aim(size)).kept)
  }

  function After(run: seq<Op>, bytes: nat -> nat): Order {
    if run == [] then Pair([], []) else Step(After(run[..|run| - 1], bytes), run[|run| - 1], bytes)
  }

  /** When a tile was last touched; -1 if never. */
  function LastTouch(run: seq<Op>, t: nat): int {
    if run == [] then -1
    else if run[|run| - 1].Touch? && run[|run| - 1].tile == t then |run| - 1
    else LastTouch(run[..|run| - 1], t)
  }

  lemma {:induction false} LastTouchBound(run: seq<Op>, t: nat)
    ensures -1 <= LastTouch(run, t) < |run|
  {
    if run != [] { LastTouchBound(run[..|run| - 1], t); }
  }

  /** Each list is ordered by last use, most recent first. */
  ghost predicate ByLastUse(run: seq<Op>, s: seq<nat>) {
    && (forall i :: 0 <= i < |s| ==> LastTouch(run, s[i]) >= 0)
    && (forall i, j :: 0 <= i < j < |s| ==> LastTouch(run, s[i]) > LastTouch(run, s[j]))
  }

  /** s' keeps the tiles of s at the positions at, in order. */
  ghost predicate IsThinning(s: seq<nat>, s': seq<nat>, at: seq<nat>) {
    && |at| == |s'|
    && (forall i {:trigger at[i]} :: 0 <= i < |at| ==> at[i] < |s| && s'[i] == s[at[i]])
    && (forall i, j :: 0 <= i < j < |at| ==> at[i] < at[j])
  }

  lemma {:induction false} WithoutThins(s: seq<nat>, t: nat) returns (at: seq<nat>)
    ensures IsThinning(s, Without(s, t), at)
  {
    if s == [] {
      at := [];
    } else {
      var at' := WithoutThins(s[1..], t);
      at := Shifted(s, Without(s[1..], t), at');
      if s[0] != t { at := [0] + at; }
    }
  }

  lemma Shifted(s: seq<nat>, s': seq<nat>, at': seq<nat>) returns (at: seq<nat>)
    requires s != [] && IsThinning(s[1..], s', at')
    ensures IsThinning(s, s', at) && forall i :: 0 <= i < |at| ==> at[i] > 0
  {
    at := seq(|at'|, i requires 0 <= i < |at'| => at'[i] + 1);
    forall i | 0 <= i < |at|
      ensures at[i] < |s| && s'[i] == s[at[i]]
    {
      assert at'[i] < |s[1..]|;
    }
  }

  /** A thinning of all but the last tile, with the last tile or without it. */
  lemma ThinningLast(s: seq<nat>, s': seq<nat>, at': seq<nat>, keep: bool) returns (at: seq<nat>)
    requires s != [] && IsThinning(s[..|s| - 1], s', at')
    ensures IsThinning(s, if keep then s' + [s[|s| - 1]] else s', at)
  {
    at := if keep then at' + [|s| - 1] else at';
    if keep {
      ThinningAdds(s[..|s| - 1], s[|s| - 1], s', at');
    } else {
      ThinningKeeps(s[..|s| - 1], s[|s| - 1], s', at');
    }
    assert s == s[..|s| - 1] + [s[|s| - 1]];
    hide IsThinning;
  }

  lemma ThinningKeeps(s: seq<nat>, t: nat, s': seq<nat>, at: seq<nat>)
    requires IsThinning(s, s', at)
    ensures IsThinning(s + [t], s', at)
  {
  }

  lemma ThinningAdds(s: seq<nat>, t: nat, s': seq<nat>, at: seq<nat>)
    requires IsThinning(s, s', at)
    ensures IsThinning(s + [t], s' + [t], at + [|s|])
  {
    var at' := at + [|s|];
    forall i, j | 0 <= i < j < |at'|
      ensures at'[i] < at'[j]
    {
      assert at[i] < |s|;
    }
  }

  lemma {:induction false} SweepThins(s: seq<nat>, evictable: set<nat>, bytes: nat -> nat, need: nat)
    returns (at: seq<nat>)
    ensures IsThinning(s, Sweep(s, evictable, bytes, need).kept, at)
  {
    if s == [] || need == 0 {
      at := seq(|s|, i => i);
    } else {
      var n, t := |s| - 1, s[|s| - 1];
      var need' := if t in evictable then Monus(need, bytes(t)) else need;
      var at' := SweepThins(s[..n], evictable, bytes, need');
      var kept := Sweep(s[..n], evictable, bytes, need').kept;
      assert Sweep(s, evictable, bytes, need).kept == if t in evictable then kept else kept + [t];
      hide Sweep, IsThinning;
      at := ThinningLast(s, kept, at', t !in evictable);
    }
  }

  lemma ThinningOrdered(run: seq<Op>, s: seq<nat>, s': seq<nat>, at: seq<nat>)
    requires ByLastUse(run, s) && IsThinning(s, s', at)
    ensures ByLastUse(run, s') && forall x :: x in s' ==> x in s
  {
    forall i, j | 0 <= i < j < |s'|
      ensures LastTouch(run, s'[i]) > LastTouch(run, s'[j])
    {
      assert at[i] < at[j];
    }
    forall i | 0 <= i < |s'|
      ensures LastTouch(run, s'[i]) >= 0 && s'[i] in s
    {
      assert at[i] < |s|;
    }
  }

  /** A touch of another tile, or a pass, does not change when a tile was last used. */
  lemma OrderedNext(run: seq<Op>, op: Op, s: seq<nat>)
    requires ByLastUse(run, s) && (op.Touch? ==> op.tile !in s)
    ensures ByLastUse(run + [op], s)
    ensures op.Touch? ==> ByLastUse(run + [op], [op.tile] + s)
  {
    assert (run + [op])[..|run|] == run;
    assert forall x :: x in s ==> LastTouch(run + [op], x) == LastTouch(run, x);
    forall i | 0 <= i < |s|
      ensures LastTouch(run, s[i]) < |run|
    {
      LastTouchBound(run, s[i]);
    }
    if op.Touch? {
      assert LastTouch(run + [op], op.tile) == |run|;
      var s' := [op.tile] + s;
      assert forall i :: 0 < i < |s'| ==> s'[i] == s[i - 1];
    }
  }

  /**
   After every run of touches and eviction passes, a tile is at most once in the
   cache, and both lists are ordered by last use.
   */
  lemma {:induction false} LeastRecentlyUsed(run: seq<Op>, bytes: nat -> nat)
    ensures var o := After(run, bytes);
            && ByLastUse(run, o.ro) && ByLastUse(run, o.rw)
            && EachOnce(o.ro) && EachOnce(o.rw) && (forall t :: t in o.ro ==> t !in o.rw)
  {
    if run != [] {
      var before, op := run[..|run| - 1], run[|run| - 1];
      assert run == before + [op];
      LeastRecentlyUsed(before, bytes);
      StepOrdered(before, op, After(before, bytes), bytes);
    }
  }

  lemma StepOrdered(run: seq<Op>, op: Op, o: Order, bytes: nat -> nat)
    requires ByLastUse(run, o.ro) && ByLastUse(run, o.rw) && forall t :: t in o.ro ==> t !in o.rw
    ensures var o' := Step(o, op, bytes);
            && ByLastUse(run + [op], o'.ro) && ByLastUse(run + [op], o'.rw)
            && EachOnce(o'.ro) && EachOnce(o'.rw) && (forall t :: t in o'.ro ==> t !in o'.rw)
  {
    match op
    case Touch(t, write, hostValid) =>
      var at := WithoutThins(o.ro, t);
      ThinningOrdered(run, o.ro, Without(o.ro, t), at);
      at := WithoutThins(o.rw, t);
      ThinningOrdered(run, o.rw, Without(o.rw, t), at);
      OrderedNext(run, op, Without(o.ro, t));
      OrderedNext(run, op, Without(o.rw, t));
    case Pass(w, evictable, size) =>
      var at := SweepThins(o.Get(w), evictable, bytes, Aim(size));
      ThinningOrdered(run, o.Get(w), Sweep(o.Get(w), evictable, bytes, Aim(size)).kept, at);
      OrderedNext(run, op, o.ro);
      OrderedNext(run, op, o.rw);
      OrderedNext(run, op, Sweep(o.Get(w), evictable, bytes, Aim(size)).kept);
  }

  // ----- The written list -----

  /** Once on the written list and not evicted, a tile stays there while its host copy is stale. */
  lemma {:induction false} WrittenStays(run: seq<Op>, more: seq<Op>, t: nat, bytes: nat -> nat)
    requires t in After(run, bytes).rw
    requires forall op :: op in more ==> if op.Touch? then op.tile == t ==> !op.hostValid else t !in op.evictable
    ensures t in After(run + more, bytes).rw
  {
    hide Step;
    if more == [] {
      assert run + more == run;
    } else {
      var before, op := more[..|more| - 1], more[|more| - 1];
      assert op in more && forall x :: x in before ==> x in more;
      WrittenStays(run, before, t, bytes);
      StepStays(After(run + before, bytes), op, t, bytes);
      AfterAppend(run + before, op, bytes);
      assert run + more == (run + before) + [op];
    }
  }

  lemma AfterAppend(run: seq<Op>, op: Op, bytes: nat -> nat)
    ensures After(run + [op], bytes) == Step(After(run, bytes), op, bytes)
  {
    hide Step;
    assert (run + [op])[..|run|] == run;
  }

  lemma StepStays(o: Order, op: Op, t: nat, bytes: nat -> nat)
    requires t in o.rw && if op.Touch? then op.tile == t ==> !op.hostValid else t !in op.evictable
    ensures t in Step(o, op, bytes).rw
  {
    if op.Pass? {
      var front, back := SweepCuts(o.Get(op.which), op.evictable, bytes, Aim(op.size));
      OnlyMembers(back, op.evictable, false);
      hide Sweep, Only;
    }
  }
}
