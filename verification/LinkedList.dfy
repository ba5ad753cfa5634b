/** Doubly linked lists in a store: what inserting, removing and renaming a node do to the list. */
module LinkedList {
  import opened Machine

  datatype Links = Links(prev: nat, next: nat)
  type Store = map<nat, Links>

  predicate LinkedAt(m: Store, ids: seq<nat>, k: int) {
    0 <= k < |ids| ==> ids[k] in m && m[ids[k]] == Links(IdAt(ids, k - 1), IdAt(ids, k + 1))
  }

  /** The nodes of ids, in this order, form a list. */
  ghost predicate Linked(m: Store, ids: seq<nat>) {
    Distinct(ids) && forall k :: LinkedAt(m, ids, k)
  }

  // ----- Operations on the links -----

  function SetNext(m: Store, id: nat, v: nat): Store { if id in m then m[id := m[id].(next := v)] else m }
  function SetPrev(m: Store, id: nat, v: nat): Store { if id in m then m[id := m[id].(prev := v)] else m }

  /** r enters the list behind c; c = NULL means in front of head. */
  function InsertAfter(m: Store, c: nat, r: nat, head: nat): Store {
    var next := if c in m then m[c].next else head;
    SetNext(SetPrev(m, next, r), c, r)[r := Links(c, next)]
  }

  /** c leaves the list. */
  function Remove(m: Store, c: nat): Store
    requires c in m
  {
    SetNext(SetPrev(m, m[c].next, m[c].prev), m[c].prev, m[c].next)
  }

  /** x takes the place of c. */
  function Rename(m: Store, c: nat, x: nat): Store
    requires c in m
  {
    SetNext(SetPrev(m, m[c].next, x), m[c].prev, x)[x := m[c]]
  }

  // ----- Operations on the order -----

  function Inserted(ids: seq<nat>, k: nat, r: nat): seq<nat>
    requires k <= |ids|
  {
    ids[..k] + [r] + ids[k..]
  }

  function Removed(ids: seq<nat>, k: nat): seq<nat>
    requires k < |ids|
  {
    ids[..k] + ids[k + 1..]
  }

  // ----- They agree -----

  /** Nodes outside the list keep their links. */
  ghost predicate Outside(m: Store, m': Store, ids: seq<nat>) {
    forall id :: id in m && id !in ids ==> id in m' && m'[id] == m[id]
  }

  lemma InsertedAt(ids: seq<nat>, k: nat, r: nat)
    requires k <= |ids|
    ensures var ids' := Inserted(ids, k, r);
            |ids'| == |ids| + 1 && ids'[k] == r && (forall j {:trigger ids'[j]} :: 0 <= j < |ids'| && j != k ==>
              ids'[j] == (if j < k then ids[j] else ids[j - 1]))
    ensures forall j {:trigger IdAt(Inserted(ids, k, r), j)} ::
              IdAt(Inserted(ids, k, r), j) == if j < k then IdAt(ids, j) else if j == k then r else IdAt(ids, j - 1)
  {
  }

  lemma InsertDistinct(ids: seq<nat>, k: nat, r: nat)
    requires Distinct(ids) && k <= |ids| && r !in ids && r != NULL
    ensures Distinct(Inserted(ids, k, r))
  {
    InsertedAt(ids, k, r);
    hide Inserted;
  }

  lemma InsertLinkedAt(m: Store, ids: seq<nat>, k: nat, r: nat, j: int)
    requires Distinct(ids) && k <= |ids| && r !in ids && r != NULL && NULL !in m
    requires LinkedAt(m, ids, k - 1) && LinkedAt(m, ids, k) && LinkedAt(m, ids, if j < k then j else j - 1)
    ensures LinkedAt(InsertAfter(m, IdAt(ids, k - 1), r, IdAt(ids, 0)), Inserted(ids, k, r), j)
  {
    InsertedAt(ids, k, r);
    hide Inserted;
  }

  lemma InsertLinked(m: Store, ids: seq<nat>, k: nat, r: nat)
    requires Linked(m, ids) && k <= |ids| && r !in ids && r != NULL && NULL !in m
    ensures Linked(InsertAfter(m, IdAt(ids, k - 1), r, IdAt(ids, 0)), Inserted(ids, k, r))
  {
    var ids', m' := Inserted(ids, k, r), InsertAfter(m, IdAt(ids, k - 1), r, IdAt(ids, 0));
    InsertDistinct(ids, k, r);
    hide Inserted, InsertAfter, Distinct, LinkedAt;
    forall j
      ensures LinkedAt(m', ids', j)
    {
      assert LinkedAt(m, ids, k - 1) && LinkedAt(m, ids, k) && LinkedAt(m, ids, if j < k then j else j - 1);
      InsertLinkedAt(m, ids, k, r, j);
    }
  }

  lemma InsertOutside(m: Store, ids: seq<nat>, k: nat, r: nat)
    requires Linked(m, ids) && k <= |ids| && NULL !in m
    ensures var m' := InsertAfter(m, IdAt(ids, k - 1), r, IdAt(ids, 0));
            m'.Keys == m.Keys + {r} && Outside(m, m', ids + [r])
  {
    assert LinkedAt(m, ids, k - 1) && LinkedAt(m, ids, k);
  }

  lemma RemovedAt(ids: seq<nat>, k: nat)
    requires k < |ids|
    ensures var ids' := Removed(ids, k);
            |ids'| == |ids| - 1 && (forall j {:trigger ids'[j]} :: 0 <= j < |ids'| ==>
              ids'[j] == (if j < k then ids[j] else ids[j + 1]))
    ensures forall j {:trigger IdAt(Removed(ids, k), j)} ::
              IdAt(Removed(ids, k), j) == if j < k then IdAt(ids, j) else IdAt(ids, j + 1)
  {
  }

  lemma RemoveLinked(m: Store, ids: seq<nat>, k: nat)
    requires Linked(m, ids) && k < |ids| && NULL !in m
    ensures ids[k] in m && Linked(Remove(m, ids[k]), Removed(ids, k)) && ids[k] !in Removed(ids, k)
    ensures Remove(m, ids[k]).Keys == m.Keys && Outside(m, Remove(m, ids[k]), ids)
  {
    assert LinkedAt(m, ids, k) && LinkedAt(m, ids, k - 1) && LinkedAt(m, ids, k + 1);
    var ids', m' := Removed(ids, k), Remove(m, ids[k]);
    RemovedAt(ids, k);
    hide Removed;
    forall j
      ensures LinkedAt(m', ids', j)
    {
      assert LinkedAt(m, ids, j) && LinkedAt(m, ids, j + 1);
    }
  }

  lemma RenameLinked(m: Store, ids: seq<nat>, k: nat, x: nat)
    requires Linked(m, ids) && k < |ids| && x !in ids && x != NULL && NULL !in m
    ensures ids[k] in m && Linked(Rename(m, ids[k], x), ids[k := x]) && ids[k] !in ids[k := x]
    ensures Rename(m, ids[k], x).Keys == m.Keys + {x} && Outside(m, Rename(m, ids[k], x), ids + [x])
  {
    assert LinkedAt(m, ids, k) && LinkedAt(m, ids, k - 1) && LinkedAt(m, ids, k + 1);
    var m', ids' := Rename(m, ids[k], x), ids[k := x];
    forall j
      ensures LinkedAt(m', ids', j)
    {
      assert LinkedAt(m, ids, j);
    }
  }

  lemma Members(m: Store, ids: seq<nat>)
    requires Linked(m, ids)
    ensures forall id :: id in ids ==> id in m
  {
    forall id | id in ids
      ensures id in m
    {
      var k :| 0 <= k < |ids| && ids[k] == id;
      assert LinkedAt(m, ids, k);
    }
  }

  /** Only the links of the listed nodes matter. */
  lemma SameLinks(m: Store, m': Store, ids: seq<nat>)
    requires Linked(m, ids) && forall id :: id in ids && id in m ==> id in m' && m'[id] == m[id]
    ensures Linked(m', ids)
  {
    forall j
      ensures LinkedAt(m', ids, j)
    {
      assert LinkedAt(m, ids, j);
    }
  }

  // ----- Lists with a head -----

  ghost predicate List(m: Store, head: nat, ids: seq<nat>) {
    Linked(m, ids) && head == IdAt(ids, 0) && NULL !in m
  }

  /** r enters behind position k - 1. */
  lemma ListInsert(m: Store, head: nat, ids: seq<nat>, k: nat, r: nat)
    requires List(m, head, ids) && k <= |ids| && r !in ids && r != NULL
    ensures var last := IdAt(ids, k - 1); var m' := InsertAfter(m, last, r, head);
            && List(m', if last == NULL then r else head, Inserted(ids, k, r))
            && m'.Keys == m.Keys + {r} && Outside(m, m', ids + [r])
  {
    InsertLinked(m, ids, k, r);
    InsertOutside(m, ids, k, r);
    assert IdAt(ids, k - 1) == NULL <==> k == 0;
    hide Linked, InsertAfter;
    InsertedAt(ids, k, r);
  }

  /** The node at k leaves; its own links may be put to another use. */
  lemma ListRemove(m: Store, head: nat, ids: seq<nat>, k: nat, left: Links)
    requires List(m, head, ids) && k < |ids|
    ensures ids[k] in m
    ensures var c := ids[k]; var m' := Remove(m, c)[c := left];
            && List(m', if head == c then m[c].next else head, Removed(ids, k))
            && m'.Keys == m.Keys && Outside(m, m', ids)
  {
    var c := ids[k];
    RemoveLinked(m, ids, k);
    assert LinkedAt(m, ids, k);
    assert head == c <==> k == 0;
    SameLinks(Remove(m, c), Remove(m, c)[c := left], Removed(ids, k));
    hide Linked, Remove;
    RemovedAt(ids, k);
  }

  /** The node at k leaves and its record is freed. */
  lemma ListDelete(m: Store, head: nat, ids: seq<nat>, k: nat)
    requires List(m, head, ids) && k < |ids|
    ensures ids[k] in m
    ensures var c := ids[k]; var m' := Remove(m, c) - {c};
            && List(m', if head == c then m[c].next else head, Removed(ids, k))
            && m'.Keys == m.Keys - {c} && Outside(m, m', ids)
  {
    var c := ids[k];
    RemoveLinked(m, ids, k);
    assert LinkedAt(m, ids, k);
    assert head == c <==> k == 0;
    SameLinks(Remove(m, c), Remove(m, c) - {c}, Removed(ids, k));
    hide Linked, Remove;
    RemovedAt(ids, k);
  }

  /** x takes the place of the node at k, whose record is freed. */
  lemma ListRename(m: Store, head: nat, ids: seq<nat>, k: nat, x: nat)
    requires List(m, head, ids) && k < |ids| && x !in ids && x != NULL
    ensures ids[k] in m
    ensures var c := ids[k]; var m' := Rename(m, c, x) - {c};
            && List(m', if head == c then x else head, ids[k := x])
            && m'.Keys == m.Keys + {x} - {c} && Outside(m, m', ids + [x])
  {
    var c := ids[k];
    RenameLinked(m, ids, k, x);
    assert head == c <==> k == 0;
    SameLinks(Rename(m, c, x), Rename(m, c, x) - {c}, ids[k := x]);
    hide Linked, Rename;
  }

  /** A record outside the list is freed. */
  lemma ListForget(m: Store, head: nat, ids: seq<nat>, c: nat)
    requires List(m, head, ids) && c !in ids
    ensures List(m - {c}, head, ids)
  {
    SameLinks(m, m - {c}, ids);
  }
}
