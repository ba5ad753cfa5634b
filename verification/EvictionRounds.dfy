/**
 A whole eviction: up to eight passes, two over each list and twice around, the device
 polled after each pass that fell short.
 */
module EvictionRounds {
  import opened Machine
  import opened ListPairs
  import opened CacheOrder

  /** The list of pass j; flag says that the written list comes first. */
  function ListAt(flag: bool, j: nat): Which { if flag == (j / 2 % 2 == 0) then RW else RO }

  /** What the passes leave: the lists, the tiles that went, and what is missing of the request. */
  datatype Outcome = Outcome(order: Order, gone: seq<nat>, rest: nat)

  /** The passes from the j-th on, with rest bytes still wanted. */
  function Passes(o: Order, flag: bool, j: nat, rest: nat, polls: nat -> set<nat>, bytes: nat -> nat): Outcome
    decreases 8 - j
  {
    if j >= 8 || rest == 0 then Outcome(o, [], rest)
    else
      var w := ListAt(flag, j);
      var r := Sweep(o.Get(w), polls(j), bytes, Aim(rest));
      var next := Passes(o.Set(w, r.kept), flag, j + 1, Missing(rest, r.left), polls, bytes);
      Outcome(next.order, r.evicted + next.gone, next.rest)
  }

  /** Two passes over the one list, two over the other, and again. */
  lemma TheLists(flag: bool)
    ensures var first, second := if flag then RW else RO, if flag then RO else RW;
            && ListAt(flag, 0) == ListAt(flag, 1) == ListAt(flag, 4) == ListAt(flag, 5) == first
            && ListAt(flag, 2) == ListAt(flag, 3) == ListAt(flag, 6) == ListAt(flag, 7) == second
  {
  }

  /** Once the request is met nothing more is done. */
  lemma PassesMet(o: Order, flag: bool, j: nat, polls: nat -> set<nat>, bytes: nat -> nat)
    ensures Passes(o, flag, j, 0, polls, bytes) == Outcome(o, [], 0)
  {
  }

  lemma PassesStep(o: Order, flag: bool, j: nat, rest: nat, polls: nat -> set<nat>, bytes: nat -> nat)
    requires j < 8 && rest > 0
    ensures var w := ListAt(flag, j); var r := Sweep(o.Get(w), polls(j), bytes, Aim(rest));
            var next := Passes(o.Set(w, r.kept), flag, j + 1, Missing(rest, r.left), polls, bytes);
            Passes(o, flag, j, rest, polls, bytes) == Outcome(next.order, r.evicted + next.gone, next.rest)
  {
  }

  // ----- Some of the passes done -----

  /** What the passes from j0 on make of o0 is what those from j on make of o. */
  ghost predicate Reaches(o0: Order, flag: bool, j0: nat, rest0: nat, gone0: seq<nat>, o: Order, j: nat, rest: nat,
                            gone: seq<nat>, polls: nat -> set<nat>, bytes: nat -> nat)
  {
    var r0, r := Passes(o0, flag, j0, rest0, polls, bytes), Passes(o, flag, j, rest, polls, bytes);
    r0.order == r.order && gone0 + r0.gone == gone + r.gone && r0.rest == r.rest
  }

  lemma ReachesFrom(o: Order, flag: bool, j: nat, rest: nat, gone: seq<nat>, polls: nat -> set<nat>, bytes: nat -> nat)
    ensures Reaches(o, flag, j, rest, gone, o, j, rest, gone, polls, bytes)
  {
  }

  lemma ReachesPass(o0: Order, flag: bool, j0: nat, rest0: nat, gone0: seq<nat>, o: Order, j: nat, rest: nat,
                      gone: seq<nat>, polls: nat -> set<nat>, bytes: nat -> nat)
    requires Reaches(o0, flag, j0, rest0, gone0, o, j, rest, gone, polls, bytes) && j < 8 && rest > 0
    ensures var w := ListAt(flag, j); var r := Sweep(o.Get(w), polls(j), bytes, Aim(rest));
            Reaches(o0, flag, j0, rest0, gone0, o.Set(w, r.kept), j + 1, Missing(rest, r.left), gone + r.evicted,
                      polls, bytes)
  {
    PassesStep(o, flag, j, rest, polls, bytes);
    hide Passes, Sweep, ListAt, Aim;
  }

  /** Once the request is met, it does not matter which pass would be next. */
  lemma ReachesMet(o0: Order, flag: bool, j0: nat, rest0: nat, gone0: seq<nat>, o: Order, j: nat, rest: nat,
                     gone: seq<nat>, polls: nat -> set<nat>, bytes: nat -> nat)
    requires Reaches(o0, flag, j0, rest0, gone0, o, j, rest, gone, polls, bytes)
    ensures rest == 0 ==> forall i: nat :: Reaches(o0, flag, j0, rest0, gone0, o, i, rest, gone, polls, bytes)
  {
    if rest == 0 {
      forall i: nat
        ensures Reaches(o0, flag, j0, rest0, gone0, o, i, rest, gone, polls, bytes)
      {
        PassesMet(o, flag, i, polls, bytes);
        PassesMet(o, flag, j, polls, bytes);
      }
    }
  }

  lemma ReachesOn(o0: Order, flag: bool, j0: nat, rest0: nat, gone0: seq<nat>,
                    o1: Order, j1: nat, rest1: nat, gone1: seq<nat>, o2: Order, j2: nat, rest2: nat, gone2: seq<nat>,
                    polls: nat -> set<nat>, bytes: nat -> nat)
    requires Reaches(o0, flag, j0, rest0, gone0, o1, j1, rest1, gone1, polls, bytes)
    requires Reaches(o1, flag, j1, rest1, gone1, o2, j2, rest2, gone2, polls, bytes)
    ensures Reaches(o0, flag, j0, rest0, gone0, o2, j2, rest2, gone2, polls, bytes)
  {
    hide Passes;
  }

  /** After the eighth pass the lists are what the passes make of them, and so have the properties below. */
  lemma ReachesEnds(o0: Order, flag: bool, size: nat, o: Order, rest: nat, gone: seq<nat>, polls: nat -> set<nat>,
                      bytes: nat -> nat)
    requires size < WORD && Reaches(o0, flag, 0, size, [], o, 8, rest, gone, polls, bytes)
    ensures var first, second := if flag then RW else RO, if flag then RO else RW;
            && (rest > 0 ==> forall t :: t in o.Get(first) ==>
                               t !in polls(0) && t !in polls(1) && t !in polls(4) && t !in polls(5))
            && (rest > 0 ==> forall t :: t in o.Get(second) ==>
                               t !in polls(2) && t !in polls(3) && t !in polls(6) && t !in polls(7))
            && (o.Get(second) != o0.Get(second) ==>
                  && Total(Only(o0.Get(first), polls(0), true), bytes) < size
                  && forall t :: t in o.Get(first) ==> t !in polls(0) && t !in polls(1))
  {
    assert Passes(o, flag, 8, rest, polls, bytes) == Outcome(o, [], rest);
    hide Passes, Only, Total, ListAt;
    SecondOnlyAfterFirst(o0, flag, size, polls, bytes);
    TheLists(flag);
    if rest > 0 {
      forall i: nat | i < 8
        ensures forall t :: t in o.Get(ListAt(flag, i)) ==> t !in polls(i)
      {
        FailureMeansNone(o0, flag, 0, size, polls, bytes, i);
      }
    }
  }

  // ----- What a pass that falls short has done -----

  /** It met the whole list: everything evictable is gone, and it was not enough. */
  lemma ShortPass(s: seq<nat>, evictable: set<nat>, bytes: nat -> nat, rest: nat)
    requires rest < WORD && Missing(rest, Sweep(s, evictable, bytes, Aim(rest)).left) > 0
    ensures var r := Sweep(s, evictable, bytes, Aim(rest));
            && r.evicted == Only(s, evictable, true) && Total(r.evicted, bytes) < rest
            && forall t :: t in r.kept ==> t !in evictable
  {
    hide Sweep, Only, Total, Aim;
    PassReports(s, evictable, bytes, rest);
    var front, back := SweepCuts(s, evictable, bytes, Aim(rest));
    assert back == s;
    OnlyMembers(s, evictable, false);
  }

  lemma PassShrinks(s: seq<nat>, evictable: set<nat>, bytes: nat -> nat, need: nat)
    ensures var r := Sweep(s, evictable, bytes, need); forall t :: t in r.kept ==> t in s
  {
    hide Sweep, Only;
    var front, back := SweepCuts(s, evictable, bytes, need);
    OnlyMembers(back, evictable, false);
  }

  lemma {:induction false} PassesShrink(o: Order, flag: bool, j: nat, rest: nat, polls: nat -> set<nat>,
                                        bytes: nat -> nat)
    ensures var o' := Passes(o, flag, j, rest, polls, bytes).order;
            (forall t :: t in o'.ro ==> t in o.ro) && (forall t :: t in o'.rw ==> t in o.rw)
    decreases 8 - j
  {
    if j < 8 && rest > 0 {
      var w := ListAt(flag, j);
      var r := Sweep(o.Get(w), polls(j), bytes, Aim(rest));
      PassShrinks(o.Get(w), polls(j), bytes, Aim(rest));
      hide Sweep, ListAt, Aim;
      PassesShrink(o.Set(w, r.kept), flag, j + 1, Missing(rest, r.left), polls, bytes);
    }
  }

  /** When the passes fail, no tile that was evictable at pass i is left on the list of that pass. */
  lemma {:induction false} FailureMeansNone(o: Order, flag: bool, j: nat, rest: nat, polls: nat -> set<nat>,
                                            bytes: nat -> nat, i: nat)
    requires j <= i < 8 && rest < WORD && Passes(o, flag, j, rest, polls, bytes).rest > 0
    ensures forall t :: t in Passes(o, flag, j, rest, polls, bytes).order.Get(ListAt(flag, i)) ==> t !in polls(i)
    decreases 8 - j
  {
    var w := ListAt(flag, j);
    var r := Sweep(o.Get(w), polls(j), bytes, Aim(rest));
    var o', rest' := o.Set(w, r.kept), Missing(rest, r.left);
    PassesStep(o, flag, j, rest, polls, bytes);
    PassesMet(o', flag, j + 1, polls, bytes);
    ShortPass(o.Get(w), polls(j), bytes, rest);
    RestLess(o.Get(w), polls(j), bytes, rest);
    hide Sweep, ListAt, Passes, Aim, Only, Total;
    if i == j {
      PassesShrink(o', flag, j + 1, rest', polls, bytes);
      assert o'.Get(w) == r.kept;
    } else {
      FailureMeansNone(o', flag, j + 1, rest', polls, bytes, i);
    }
  }

  lemma RestLess(s: seq<nat>, evictable: set<nat>, bytes: nat -> nat, rest: nat)
    requires rest < WORD
    ensures Missing(rest, Sweep(s, evictable, bytes, Aim(rest)).left) <= rest
  {
    hide Sweep, Total, Aim;
    PassReports(s, evictable, bytes, rest);
  }

  /**
   The second list loses a tile only if both passes over the first one met everything
   evictable there and still fell short.
   */
  lemma SecondOnlyAfterFirst(o: Order, flag: bool, size: nat, polls: nat -> set<nat>, bytes: nat -> nat)
    requires size < WORD
    ensures var first, second := if flag then RW else RO, if flag then RO else RW;
            var o' := Passes(o, flag, 0, size, polls, bytes).order;
            o'.Get(second) != o.Get(second) ==>
              && Total(Only(o.Get(first), polls(0), true), bytes) < size
              && forall t :: t in o'.Get(first) ==> t !in polls(0) && t !in polls(1)
  {
    hide Sweep, Aim, ListAt, Passes, Only, Total;
    var first, second := if flag then RW else RO, if flag then RO else RW;
    TheLists(flag);
    var o' := Passes(o, flag, 0, size, polls, bytes).order;
    if o'.Get(second) != o.Get(second) {
      var o1, rest1 := FirstShort(o, flag, 0, size, polls, bytes, first, second);
      var o2, rest2 := FirstShort(o1, flag, 1, rest1, polls, bytes, first, second);
      PassesShrink(o2, flag, 2, rest2, polls, bytes);
    }
  }

  /** A pass over the first list, when the second list changes later on. */
  lemma FirstShort(o: Order, flag: bool, j: nat, rest: nat, polls: nat -> set<nat>, bytes: nat -> nat,
                   first: Which, second: Which) returns (o': Order, rest': nat)
    requires j < 8 && rest < WORD && ListAt(flag, j) == first != second
    requires Passes(o, flag, j, rest, polls, bytes).order.Get(second) != o.Get(second)
    ensures rest' <= rest && o'.Get(second) == o.Get(second)
    ensures Passes(o, flag, j, rest, polls, bytes).order == Passes(o', flag, j + 1, rest', polls, bytes).order
    ensures forall t :: t in o'.Get(first) ==> t in o.Get(first) && t !in polls(j)
    ensures Total(Only(o.Get(first), polls(j), true), bytes) < rest
  {
    PassesMet(o, flag, j, polls, bytes);
    var r := Sweep(o.Get(first), polls(j), bytes, Aim(rest));
    o', rest' := o.Set(first, r.kept), Missing(rest, r.left);
    PassesStep(o, flag, j, rest, polls, bytes);
    PassesMet(o', flag, j + 1, polls, bytes);
    ShortPass(o.Get(first), polls(j), bytes, rest);
    RestLess(o.Get(first), polls(j), bytes, rest);
    PassShrinks(o.Get(first), polls(j), bytes, Aim(rest));
    hide Sweep, Aim, ListAt, Passes, Only, Total;
  }
}
