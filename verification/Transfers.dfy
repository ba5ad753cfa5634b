/**
 Transfers of one tile between address spaces: the copies that are posted and
 the callbacks that will forward data on arrival. Each receiving replica has
 exactly one carrier, and following the carriers backwards reaches a posted
 copy.
 */
module Transfers {
  import opened Replicas

  /** Where the data for a receiving replica comes from, and how many forwards it is away from a posted copy. */
  datatype Transfer = Transfer(src: nat, depth: nat)

  predicate Holds(d: Dir, src: nat) { src in d.valid || src in d.xfer }

  function FlowAfterFetch(d: Dir, flow: map<nat, Transfer>, dst: nat, src: nat): map<nat, Transfer>
    requires flow.Keys == d.xfer
  {
    if dst in d.valid || dst in d.xfer then flow
    else flow[dst := Transfer(src, if src in d.xfer then flow[src].depth + 1 else 0)]
  }

  predicate Has(d: Dir, l: nat, c: Callback) { l < |d.cbk| && c in d.cbk[l] }

  /** The transfer to x is carried: by a posted copy, or by a callback of a replica that receives it earlier. */
  ghost predicate Carried(d: Dir, flow: map<nat, Transfer>, x: nat)
    requires x in flow
  {
    var src := flow[x].src;
    && src != x && src < MAX_NODES
    && if src in flow then flow[src].depth < flow[x].depth && Has(d, src, Resend(x)) else Copy(src, x) in d.posted
  }

  /** Every posted copy and every forwarding callback carries a transfer that is under way. */
  ghost predicate Purposeful(d: Dir, flow: map<nat, Transfer>) {
    && (forall c :: c in d.posted ==> c.dst in flow && flow[c.dst].src == c.src && c.src !in flow)
    && (forall l: nat, x: nat {:trigger Has(d, l, Resend(x))} :: Has(d, l, Resend(x)) ==>
           x in flow && flow[x].src == l && l in flow)
  }

  /** Callbacks are registered at the receiving replicas only, and nothing is registered or posted twice. */
  ghost predicate Tidy(d: Dir, flow: map<nat, Transfer>) {
    && (forall l: nat :: l < |d.cbk| ==> (l in flow <==> d.cbk[l] != []) && NoRepeats(d.cbk[l]))
    && (forall a, b :: 0 <= a < b < |d.posted| ==> d.posted[a] != d.posted[b])
  }

  /** Transfers: each receiving replica has exactly one carrier, and the carriers form no cycle. */
  ghost predicate InvFlow(d: Dir, flow: map<nat, Transfer>) {
    && Sized(d) && flow.Keys == d.xfer
    && (forall x {:trigger Carried(d, flow, x)} :: x in flow ==> Carried(d, flow, x))
    && Purposeful(d, flow)
    && Tidy(d, flow)
  }

  /** No task is notified twice and no forward is requested twice. */
  ghost predicate NoRepeats(list: seq<Callback>) {
    forall a, b :: 0 <= a < b < |list| && list[a] == list[b] ==> list[a] == Other
  }

  // ----- Callback lists -----

  lemma Added(list: seq<Callback>, c: Callback, x: Callback)
    ensures x in AddCallback(list, c) <==> x == c || x in list
  {
    if list != [] {
      assert list == [list[0]] + list[1..];
    }
  }

  lemma AddedNoRepeats(list: seq<Callback>, c: Callback)
    requires NoRepeats(list) && (c == Other || c !in list)
    ensures NoRepeats(AddCallback(list, c))
  {
    if list != [] {
      var l2 := AddCallback(list, c);
      forall a, b | 0 <= a < b < |l2| && l2[a] == l2[b]
        ensures l2[a] == Other
      {
        if a != 1 && b != 1 {
          assert list[if a == 0 then 0 else a - 1] == l2[a] && list[b - 1] == l2[b];
        }
      }
    }
  }

  lemma {:induction false} WokenIs(list: seq<Callback>, t: nat)
    ensures t in Woken(list) <==> Notify(t) in list
  {
    if list != [] {
      WokenIs(list[1..], t);
      assert list == [list[0]] + list[1..];
    }
  }

  lemma {:induction false} ForwardsIs(list: seq<Callback>, l: nat, c: Copy)
    ensures c in Forwards(list, l) <==> c.src == l && Resend(c.dst) in list
  {
    if list != [] {
      ForwardsIs(list[1..], l, c);
      assert list == [list[0]] + list[1..];
    }
  }

  lemma {:induction false} ForwardsDistinct(list: seq<Callback>, l: nat)
    requires NoRepeats(list)
    ensures forall a, b :: 0 <= a < b < |Forwards(list, l)| ==> Forwards(list, l)[a] != Forwards(list, l)[b]
  {
    if list != [] {
      var rest := list[1..];
      assert forall a, b :: 0 <= a < b < |rest| && rest[a] == rest[b] ==> list[a + 1] == list[b + 1];
      ForwardsDistinct(rest, l);
      if list[0].Resend? {
        var c := Copy(l, list[0].dest);
        ForwardsIs(rest, l, c);
        assert forall b :: 0 <= b < |rest| ==> rest[b] == list[b + 1] != list[0];
        assert c !in Forwards(rest, l);
      }
    }
  }

  // ----- Fetching -----

  /** A fetch, with its callback, keeps every transfer carried exactly once and free of cycles. */
  lemma FetchFlow(d: Dir, flow: map<nat, Transfer>, dst: nat, src: nat, c: Callback)
    requires InvFlow(d, flow) && dst < MAX_NODES && src < MAX_NODES && Holds(d, src)
    requires forall c :: c in d.posted ==> c.src in d.valid
    requires !c.Resend? && (c == Other || !Has(d, dst, c))
    ensures InvFlow(Fetch(d, dst, src, c), FlowAfterFetch(d, flow, dst, src))
  {
    if dst in d.valid {
    } else if dst in d.xfer {
      RegisterFlow(d, flow, dst, c);
    } else if src in d.xfer {
      ForwardFlow(d, flow, dst, src, c);
    } else {
      PostFlow(d, flow, dst, src, c);
    }
  }

  lemma RegisterHas(d: Dir, l: nat, c: Callback)
    requires l < |d.cbk|
    ensures forall l': nat, x :: Has(Register(d, l, c), l', x) <==> Has(d, l', x) || (l' == l && x == c)
  {
    forall x ensures x in AddCallback(d.cbk[l], c) <==> x == c || x in d.cbk[l] { Added(d.cbk[l], c, x); }
  }

  lemma RegisterTidy(d: Dir, flow: map<nat, Transfer>, l: nat, c: Callback)
    requires l < |d.cbk| && Tidy(d, flow) && (c == Other || !Has(d, l, c))
    ensures Tidy(Register(d, l, c), flow[l := Transfer(0, 0)])
  {
    AddedNoRepeats(d.cbk[l], c);
  }

  lemma TidySameKeys(d: Dir, flow: map<nat, Transfer>, flow': map<nat, Transfer>)
    requires Tidy(d, flow) && flow.Keys == flow'.Keys
    ensures Tidy(d, flow')
  {
  }

  /** What registering a callback at a receiving replica keeps, apart from the carriers. */
  lemma RegisterFacts(d: Dir, flow: map<nat, Transfer>, l: nat, c: Callback)
    requires Sized(d) && Tidy(d, flow) && l < MAX_NODES && l in flow
    requires (c.Resend? ==> c.dest < MAX_NODES) && (c == Other || !Has(d, l, c))
    ensures |d.cbk| == MAX_NODES
    ensures var d' := Register(d, l, c);
            && Sized(d') && Tidy(d', flow)
            && (forall l': nat, x :: Has(d', l', x) <==> Has(d, l', x) || (l' == l && x == c))
  {
    RegisterHas(d, l, c);
    RegisterTidy(d, flow, l, c);
    RegisterSized(d, l, c);
    TidySameKeys(Register(d, l, c), flow[l := Transfer(0, 0)], flow);
  }

  lemma RegisterFlow(d: Dir, flow: map<nat, Transfer>, dst: nat, c: Callback)
    requires InvFlow(d, flow) && dst < MAX_NODES && dst in d.xfer
    requires !c.Resend? && (c == Other || !Has(d, dst, c))
    ensures InvFlow(Register(d, dst, c), flow)
  {
    hide Has, AddCallback, Sized, Tidy;
    RegisterFacts(d, flow, dst, c);
    var d' := Register(d, dst, c);
    SamePurpose(d, d', flow);
  }

  /** Callbacks that forward nothing do not matter to the transfers. */
  lemma SamePurpose(d: Dir, d': Dir, flow: map<nat, Transfer>)
    requires InvFlow(d, flow) && Sized(d') && Tidy(d', flow) && d'.xfer == d.xfer && d'.posted == d.posted
    requires forall l: nat, x: nat :: Has(d', l, Resend(x)) <==> Has(d, l, Resend(x))
    ensures InvFlow(d', flow)
  {
    hide Has, Sized, Tidy;
    forall l: nat, x: nat | Has(d', l, Resend(x))
      ensures x in flow && flow[x].src == l && l in flow
    {
      assert Has(d, l, Resend(x));
    }
    forall x | x in flow
      ensures Carried(d', flow, x)
    {
      assert Carried(d, flow, x);
    }
  }

  lemma RegisterSized(d: Dir, l: nat, c: Callback)
    requires Sized(d) && l < MAX_NODES && (c.Resend? ==> c.dest < MAX_NODES)
    ensures Sized(Register(d, l, c))
  {
    forall x ensures x in AddCallback(d.cbk[l], c) <==> x == c || x in d.cbk[l] { Added(d.cbk[l], c, x); }
  }

  /** A free replica has no callback, and nothing is on its way to it or through it. */
  lemma FreeReplica(d: Dir, flow: map<nat, Transfer>, x: nat)
    requires InvFlow(d, flow) && x < MAX_NODES && x !in d.xfer
    ensures forall c :: !Has(d, x, c)
    ensures forall c :: c in d.posted ==> c.dst != x
    ensures forall l: nat :: !Has(d, l, Resend(x))
    ensures |d.cbk| == MAX_NODES
  {
  }

  /** The carriers of the other transfers are still there once copies and callbacks have been added. */
  lemma StillCarried(d: Dir, d': Dir, flow: map<nat, Transfer>, flow': map<nat, Transfer>, dst: nat, x: nat)
    requires x in flow && dst !in flow && Carried(d, flow, x) && Copy(dst, x) !in d.posted
    requires flow'.Keys == flow.Keys + {dst} && forall y :: y in flow ==> flow'[y] == flow[y]
    requires forall l: nat, y: nat {:trigger Has(d', l, Resend(y))} :: Has(d, l, Resend(y)) ==> Has(d', l, Resend(y))
    requires forall c :: c in d.posted ==> c in d'.posted
    ensures Carried(d', flow', x)
  {
    hide Has;
  }

  lemma PostPurpose(d: Dir, d': Dir, flow: map<nat, Transfer>, flow': map<nat, Transfer>, dst: nat, src: nat)
    requires Purposeful(d, flow) && dst !in flow && src !in flow && src != dst
    requires flow' == flow[dst := Transfer(src, 0)]
    requires forall c :: c in d'.posted ==> c in d.posted || c == Copy(src, dst)
    requires forall c :: c in d.posted ==> c.src != dst
    requires forall l: nat, x: nat {:trigger Has(d', l, Resend(x))} :: Has(d', l, Resend(x)) ==> Has(d, l, Resend(x))
    ensures Purposeful(d', flow')
  {
    hide Has;
  }

  lemma PostFlow(d: Dir, flow: map<nat, Transfer>, dst: nat, src: nat, c: Callback)
    requires InvFlow(d, flow) && dst < MAX_NODES && src < MAX_NODES && src in d.valid
    requires dst !in d.valid && dst !in d.xfer && src !in d.xfer && !c.Resend?
    requires forall c :: c in d.posted ==> c.src != dst
    ensures InvFlow(Fetch(d, dst, src, c), FlowAfterFetch(d, flow, dst, src))
  {
    hide Has, AddCallback, Sized, Tidy, Purposeful;
    FreeReplica(d, flow, dst);
    var d1 := Register(d, dst, c);
    var d', flow' := Fetch(d, dst, src, c), FlowAfterFetch(d, flow, dst, src);
    RegisterHas(d, dst, c);
    RegisterTidy(d, flow, dst, c);
    RegisterSized(d, dst, c);
    TidySameKeys(d1, flow[dst := Transfer(0, 0)], flow');
    PostTidy(d1, flow', Copy(src, dst));
    PostHas(d1, Copy(src, dst));
    PostPurpose(d, d', flow, flow', dst, src);
    forall x | x in flow'
      ensures Carried(d', flow', x)
    {
      if x != dst {
        assert Carried(d, flow, x);
        assert Copy(dst, x) !in d.posted;
        hide Carried;
        StillCarried(d, d', flow, flow', dst, x);
      }
    }
  }

  lemma PostHas(d: Dir, c: Copy)
    ensures var d' := d.(xfer := d.xfer + {c.dst}, posted := d.posted + [c]);
            && (forall l: nat, x :: Has(d', l, x) <==> Has(d, l, x))
            && (Sized(d) && c.src < MAX_NODES && c.dst < MAX_NODES ==> Sized(d'))
  {
  }

  lemma PostTidy(d: Dir, flow: map<nat, Transfer>, c: Copy)
    requires Tidy(d, flow) && c !in d.posted
    ensures Tidy(d.(xfer := d.xfer + {c.dst}, posted := d.posted + [c]), flow)
  {
  }

  lemma ForwardFacts(d: Dir, flow: map<nat, Transfer>, dst: nat, src: nat, c: Callback)
    requires InvFlow(d, flow) && dst < MAX_NODES && src < MAX_NODES
    requires dst !in d.valid && dst !in d.xfer && src in d.xfer && !c.Resend?
    ensures var d', flow' := Fetch(d, dst, src, c), FlowAfterFetch(d, flow, dst, src);
            && Sized(d') && Tidy(d', flow')
            && (forall l: nat, x :: Has(d', l, x) <==>
                  Has(d, l, x) || (l == dst && x == c) || (l == src && x == Resend(dst)))
  {
    hide Has, AddCallback, Sized, Tidy;
    FreeReplica(d, flow, dst);
    var d1 := Register(d, dst, c).(xfer := d.xfer + {dst});
    var flow' := FlowAfterFetch(d, flow, dst, src);
    RegisterHas(d, dst, c);
    RegisterTidy(d, flow, dst, c);
    RegisterSized(d, dst, c);
    TidySameKeys(Register(d, dst, c), flow[dst := Transfer(0, 0)], flow');
    MarkSame(Register(d, dst, c), flow', dst);
    RegisterFacts(d1, flow', src, Resend(dst));
  }

  lemma ForwardPurpose(d: Dir, d': Dir, flow: map<nat, Transfer>, flow': map<nat, Transfer>, dst: nat, src: nat)
    requires Purposeful(d, flow) && dst !in flow && src in flow
    requires flow' == flow[dst := Transfer(src, flow[src].depth + 1)] && d'.posted == d.posted
    requires forall c :: c in d.posted ==> c.src != dst
    requires forall l: nat, x: nat {:trigger Has(d', l, Resend(x))} ::
               Has(d', l, Resend(x)) ==> Has(d, l, Resend(x)) || (l == src && x == dst)
    ensures Purposeful(d', flow')
  {
    hide Has;
  }

  lemma ForwardFlow(d: Dir, flow: map<nat, Transfer>, dst: nat, src: nat, c: Callback)
    requires InvFlow(d, flow) && dst < MAX_NODES && src < MAX_NODES
    requires dst !in d.valid && dst !in d.xfer && src in d.xfer && !c.Resend?
    requires forall c :: c in d.posted ==> c.src != dst
    ensures InvFlow(Fetch(d, dst, src, c), FlowAfterFetch(d, flow, dst, src))
  {
    hide Has, AddCallback, Sized, Tidy, Purposeful;
    FreeReplica(d, flow, dst);
    ForwardFacts(d, flow, dst, src, c);
    var d', flow' := Fetch(d, dst, src, c), FlowAfterFetch(d, flow, dst, src);
    ForwardPurpose(d, d', flow, flow', dst, src);
    forall x | x in flow'
      ensures Carried(d', flow', x)
    {
      if x != dst {
        assert Carried(d, flow, x);
        assert Copy(dst, x) !in d.posted;
        hide Carried;
        StillCarried(d, d', flow, flow', dst, x);
      }
    }
  }

  lemma MarkSame(d: Dir, flow: map<nat, Transfer>, dst: nat)
    requires dst < MAX_NODES
    ensures var d' := d.(xfer := d.xfer + {dst});
            && (forall l: nat, x :: Has(d', l, x) <==> Has(d, l, x))
            && (Sized(d) ==> Sized(d')) && (Tidy(d, flow) ==> Tidy(d', flow))
  {
  }

  // ----- Receiving -----

  /** No other copy is on its way to a destination, and nothing forwards to it. */
  lemma OneCarrier(d: Dir, flow: map<nat, Transfer>, n: nat)
    requires InvFlow(d, flow) && n < |d.posted|
    ensures forall c :: c in d.posted && c.dst == d.posted[n].dst ==> c == d.posted[n]
    ensures forall l: nat :: !Has(d, l, Resend(d.posted[n].dst))
    ensures forall c :: c in d.posted ==> c.src != d.posted[n].dst
  {
    hide Has, Sized, Tidy;
    assert d.posted[n] in d.posted;
  }

  lemma Removed(copies: seq<Copy>, n: nat, c: Copy)
    requires n < |copies| && forall a, b :: 0 <= a < b < |copies| ==> copies[a] != copies[b]
    ensures c in copies[..n] + copies[n + 1..] <==> c in copies && c != copies[n]
  {
    var rest := copies[..n] + copies[n + 1..];
    if c in copies && c != copies[n] {
      var a :| 0 <= a < |copies| && copies[a] == c;
      assert rest[if a < n then a else a - 1] == c;
    }
    if c in rest {
      var a :| 0 <= a < |rest| && rest[a] == c;
      assert copies[if a < n then a else a + 1] == c;
    }
  }

  lemma ReceivedCopies(d: Dir, flow: map<nat, Transfer>, n: nat, c: Copy)
    requires InvFlow(d, flow) && n < |d.posted|
    ensures c in Receive(d, n).posted <==>
            (c in d.posted && c != d.posted[n]) || (c.src == d.posted[n].dst && Has(d, d.posted[n].dst, Resend(c.dst)))
  {
    hide Purposeful, Carried;
    ForwardsIs(d.cbk[d.posted[n].dst], d.posted[n].dst, c);
    Removed(d.posted, n, c);
  }

  lemma ReceiveTidy(d: Dir, flow: map<nat, Transfer>, n: nat)
    requires InvFlow(d, flow) && n < |d.posted|
    ensures Tidy(Receive(d, n), flow - {d.posted[n].dst})
  {
    var l := d.posted[n].dst;
    OneCarrier(d, flow, n);
    ForwardsDistinct(d.cbk[l], l);
    var rest, more := d.posted[..n] + d.posted[n + 1..], Forwards(d.cbk[l], l);
    assert forall a :: 0 <= a < |rest| ==> rest[a] == d.posted[if a < n then a else a + 1];
    forall a, b | 0 <= a < |rest| && 0 <= b < |more|
      ensures rest[a] != more[b]
    {
      ForwardsIs(d.cbk[l], l, more[b]);
      assert rest[a] in d.posted;
    }
  }

  lemma ReceiveSized(d: Dir, n: nat)
    requires Sized(d) && n < |d.posted|
    ensures Sized(Receive(d, n))
    ensures forall l: nat, x :: Has(Receive(d, n), l, x) <==> Has(d, l, x) && l != d.posted[n].dst
  {
    var l := d.posted[n].dst;
    forall c | c in Receive(d, n).posted
      ensures c.src < MAX_NODES && c.dst < MAX_NODES
    {
      ForwardsIs(d.cbk[l], l, c);
    }
  }

  lemma ReceivePurpose(d: Dir, flow: map<nat, Transfer>, n: nat, c: Copy)
    requires InvFlow(d, flow) && n < |d.posted| && c in Receive(d, n).posted
    ensures c.dst in flow && flow[c.dst].src == c.src
    ensures c.dst != d.posted[n].dst && (c.src == d.posted[n].dst || c.src !in flow)
  {
    hide Has, Tidy, Sized, Receive;
    ReceivedCopies(d, flow, n, c);
    OneCarrier(d, flow, n);
    if c.src == d.posted[n].dst {
      assert d.posted[n] in d.posted;
      assert Carried(d, flow, c.dst);
    }
  }

  lemma ReceiveCarried(d: Dir, flow: map<nat, Transfer>, n: nat, x: nat)
    requires InvFlow(d, flow) && n < |d.posted| && x in flow && x != d.posted[n].dst
    ensures Carried(Receive(d, n), flow - {d.posted[n].dst}, x)
  {
    hide Has, Tidy, Sized, Receive, Purposeful;
    assert Carried(d, flow, x);
    ReceivedCopies(d, flow, n, Copy(flow[x].src, x));
    ReceiveSized(d, n);
  }

  /** A delivery ends one transfer and keeps all the others carried. */
  lemma ReceiveFlow(d: Dir, flow: map<nat, Transfer>, n: nat)
    requires InvFlow(d, flow) && n < |d.posted|
    ensures InvFlow(Receive(d, n), flow - {d.posted[n].dst})
  {
    hide Has, Tidy, Carried, Sized;
    var d', flow' := Receive(d, n), flow - {d.posted[n].dst};
    assert d.posted[n] in d.posted;
    ReceiveTidy(d, flow, n);
    ReceiveSized(d, n);
    forall c | c in d'.posted
      ensures c.dst in flow' && flow'[c.dst].src == c.src && c.src !in flow'
    {
      ReceivePurpose(d, flow, n, c);
    }
    OneCarrier(d, flow, n);
    forall x | x in flow'
      ensures Carried(d', flow', x)
    {
      ReceiveCarried(d, flow, n, x);
    }
  }

  // ----- Frames and progress -----

  lemma FlowSame(d: Dir, d': Dir, flow: map<nat, Transfer>)
    requires InvFlow(d, flow) && Sized(d') && d'.xfer == d.xfer && d'.posted == d.posted && d'.cbk == d.cbk
    ensures InvFlow(d', flow)
  {
    hide Sized, Tidy;
    assert Tidy(d', flow) by { TidySame(d, d', flow); }
    SamePurpose(d, d', flow);
  }

  lemma TidySame(d: Dir, d': Dir, flow: map<nat, Transfer>)
    requires Tidy(d, flow) && d'.posted == d.posted && d'.cbk == d.cbk
    ensures Tidy(d', flow)
  {
  }

  /** Behind every replica that receives there is a posted copy: nothing waits in a circle. */
  lemma {:induction false} CopyBehind(d: Dir, flow: map<nat, Transfer>, x: nat)
    requires InvFlow(d, flow) && x in d.xfer
    ensures d.posted != []
    decreases flow[x].depth
  {
    assert Carried(d, flow, x);
    if flow[x].src in flow {
      CopyBehind(d, flow, flow[x].src);
    }
  }
}
