// lib/kernel/list.c: doubly linked intrusive lists between two sentinels. A list is the sequence of
// its elements; a ghost sequence of nodes, the sentinels with them, says in which order the links
// run.
module Lists {
  import opened Seqs

  // list_elem_t: embedded in the records that are listed, so it carries no data of its own.
  class ListElem {
    var prev: ListElem?
    var next: ListElem?

    constructor ()
      ensures prev == null && next == null
    {
      prev, next := null, null;
    }
  }

  // Every two neighbours of s point at each other, and the ends point nowhere.
  ghost predicate Linked(s: seq<ListElem>)
    reads s
  {
    && |s| >= 2 && s[0].prev == null && s[|s| - 1].next == null
    && (forall i :: 0 <= i < |s| - 1 ==> s[i].next == s[i + 1])
    && (forall i :: 1 <= i < |s| ==> s[i].prev == s[i - 1])
  }

  // The sequence with e put in front of position k, and with position k taken out.
  function Inserted<T>(s: seq<T>, k: nat, e: T): (r: seq<T>)
    requires k <= |s|
    ensures |r| == |s| + 1 && forall i :: 0 <= i < |r| ==>
        r[i] == if i < k then s[i] else if i == k then e else s[i - 1]
  {
    s[..k] + [e] + s[k..]
  }

  function Removed<T>(s: seq<T>, k: nat): (r: seq<T>)
    requires k < |s|
    ensures |r| == |s| - 1 && forall i :: 0 <= i < |r| ==> r[i] == if i < k then s[i] else s[i + 1]
  {
    s[..k] + s[k + 1..]
  }

  // Without the two ends, insertion and removal are one position earlier.
  lemma InsertedInside<T>(s: seq<T>, k: nat, e: T)
    requires k + 1 < |s|
    ensures Inserted(s, k + 1, e)[1..|s|] == Inserted(s[1..|s| - 1], k, e)
  {
  }

  lemma RemovedInside<T>(s: seq<T>, k: nat)
    requires k + 2 < |s|
    ensures Removed(s, k + 1)[1..|s| - 2] == Removed(s[1..|s| - 1], k)
  {
  }

  lemma RemovedIsGone<T>(s: seq<T>, k: nat)
    requires k < |s| && Distinct(s)
    ensures Distinct(Removed(s, k)) && s[k] !in Removed(s, k)
  {
  }

  // Links of s but for the one behind and the one in front of the gap after position k.
  ghost predicate LinkedBut(s: seq<ListElem>, k: nat, front: nat)
    reads s
  {
    && k < front < |s| && s[0].prev == null && s[|s| - 1].next == null
    && (forall i :: 0 <= i < |s| - 1 && i != k ==> s[i].next == s[i + 1])
    && (forall i :: 1 <= i < |s| && i != front ==> s[i].prev == s[i - 1])
  }

  method ListInsertBefore(before: ListElem, elem: ListElem)
    requires before.prev != null && before != elem && before.prev != elem && before.prev != before
    modifies before`prev, before.prev`next, elem
    ensures old(before.prev).next == elem && elem.prev == old(before.prev)
    ensures elem.next == before && before.prev == elem
  {
    before.prev.next := elem;
    elem.prev := before.prev;
    elem.next := before;
    before.prev := elem;
  }

  method ListRemove(elem: ListElem)
    requires elem.prev != null && elem.next != null && elem.prev != elem && elem.next != elem
    modifies elem.prev`next, elem.next`prev
    ensures elem.prev.next == elem.next && elem.next.prev == elem.prev
  {
    elem.prev.next := elem.next;
    elem.next.prev := elem.prev;
  }

  // list_insert_before on the nodes of a list.
  method InsertInto(ghost s: seq<ListElem>, before: ListElem, elem: ListElem, ghost k: nat)
    requires Distinct(s) && Linked(s) && elem !in s && k + 1 < |s| && before == s[k + 1]
    modifies s, elem
    ensures Linked(Inserted(s, k + 1, elem))
  {
    assert before.prev == s[k];
    ListInsertBefore(before, elem);
    assert LinkedBut(s, k, k + 1);
  }

  // list_remove on the nodes of a list.
  method RemoveFrom(ghost s: seq<ListElem>, elem: ListElem, ghost k: nat)
    requires Distinct(s) && Linked(s) && k + 2 < |s| && elem == s[k + 1]
    modifies s
    ensures Linked(Removed(s, k + 1))
  {
    assert elem.prev == s[k] && elem.next == s[k + 2];
    ListRemove(elem);
    assert LinkedBut(s, k, k + 2);
  }

  class List {
    const head: ListElem
    const tail: ListElem
    ghost var nodes: seq<ListElem>    // head, the listed elements in order, tail

    ghost predicate Valid()
      reads this, nodes
    {
      && |nodes| >= 2 && nodes[0] == head && nodes[|nodes| - 1] == tail
      && Distinct(nodes) && Linked(nodes)
    }

    // The listed elements: what the rest of the kernel sees of a list.
    ghost function Elems(): seq<ListElem>
      requires |nodes| >= 2
      reads this
    {
      nodes[1..|nodes| - 1]
    }

    constructor ()
      ensures Valid() && Elems() == [] && fresh(nodes)
    {
      var h := new ListElem();
      var t := new ListElem();
      head, tail := h, t;
      nodes := [h, t];
      new;
      head.prev := null;
      head.next := tail;
      tail.prev := head;
      tail.next := null;
    }

    // list_insert_before, for a before that stands on this list or is its tail.
    method InsertBefore(before: ListElem, elem: ListElem, ghost k: nat)
      requires Valid() && elem !in nodes
      requires k <= |nodes| - 2 && before == nodes[k + 1]
      modifies this, nodes, elem
      ensures Valid() && Elems() == Inserted(old(Elems()), k, elem)
      ensures nodes == Inserted(old(nodes), k + 1, elem)
    {
      ghost var was := nodes;
      InsertedInside(was, k, elem);
      InsertInto(was, before, elem, k);
      nodes := Inserted(was, k + 1, elem);
    }

    method Push(elem: ListElem)
      requires Valid() && elem !in nodes
      modifies this, nodes, elem
      ensures Valid() && Elems() == [elem] + old(Elems())
      ensures nodes == Inserted(old(nodes), 1, elem)
    {
      assert head.next == nodes[1];
      InsertBefore(head.next, elem, 0);
    }

    method Append(elem: ListElem)
      requires Valid() && elem !in nodes
      modifies this, nodes, elem
      ensures Valid() && Elems() == old(Elems()) + [elem]
      ensures nodes == Inserted(old(nodes), |old(nodes)| - 1, elem)
    {
      InsertBefore(tail, elem, |nodes| - 2);
    }

    method Remove(elem: ListElem, ghost k: nat)
      requires Valid() && k < |nodes| - 2 && elem == nodes[k + 1]
      modifies this, nodes
      ensures Valid() && Elems() == Removed(old(Elems()), k)
      ensures nodes == Removed(old(nodes), k + 1) && elem !in nodes
    {
      ghost var was := nodes;
      RemovedInside(was, k);
      RemovedIsGone(was, k + 1);
      RemoveFrom(was, elem, k);
      nodes := Removed(was, k + 1);
    }

    method Pop() returns (elem: ListElem)
      requires Valid() && Elems() != []
      modifies this, nodes
      ensures Valid() && [elem] + Elems() == old(Elems())
      ensures nodes == Removed(old(nodes), 1) && elem !in nodes
    {
      assert head.next == nodes[1];
      elem := head.next;
      Remove(elem, 0);
    }

    method IsEmpty() returns (r: bool)
      requires Valid()
      ensures r <==> Elems() == []
    {
      assert head.next == nodes[1];
      r := head.next == tail;
    }

    method Find(obj: ListElem) returns (r: bool)
      requires Valid() && obj != tail
      ensures r <==> obj in Elems()
    {
      assert head.next == nodes[1];
      var elem: ListElem? := head.next;
      ghost var k := 0;
      while elem != tail && elem != null
        invariant k <= |Elems()| && elem == nodes[k + 1]
        invariant obj !in Elems()[..k]
        decreases |Elems()| - k
      {
        if elem == obj {
          assert Elems()[k] == obj;
          return true;
        }
        assert elem.next == nodes[k + 2];
        elem := elem.next;
        k := k + 1;
      }
      return false;
    }

    // list_traversal with a callback that only looks: the first element it accepts.
    method Traversal(func: ListElem -> bool) returns (r: ListElem?)
      requires Valid()
      ensures r == null ==> forall e :: e in Elems() ==> !func(e)
      ensures r != null ==> exists k ::
        (0 <= k < |Elems()| && r == Elems()[k] && func(r) && forall j :: 0 <= j < k ==> !func(Elems()[j]))
    {
      assert head.next == nodes[1];
      var elem: ListElem? := head.next;
      var empty := IsEmpty();
      if empty {
        return null;
      }
      ghost var k := 0;
      while elem != tail
        invariant k <= |Elems()| && elem == nodes[k + 1]
        invariant forall j :: 0 <= j < k ==> !func(Elems()[j])
        decreases |Elems()| - k
      {
        assert elem == Elems()[k];
        if func(elem) {
          return elem;
        }
        assert elem.next == nodes[k + 2];
        elem := elem.next;
        k := k + 1;
      }
      return null;
    }

    method Length() returns (length: nat)
      requires Valid()
      ensures length == |Elems()|
    {
      assert head.next == nodes[1];
      var elem: ListElem? := head.next;
      length := 0;
      while elem != tail
        invariant length <= |Elems()| && elem == nodes[length + 1]
        decreases |Elems()| - length
      {
        assert elem.next == nodes[length + 2];
        length := length + 1;
        elem := elem.next;
      }
    }
  }

  // sema_up wakes a waiter by popping its tag off one list and pushing it onto another: no other
  // list is touched, and no element is lost or listed twice.
  method PopPush(from: List, to: List, others: set<List>) returns (elem: ListElem)
    requires from.Valid() && to.Valid() && from.Elems() != [] && from != to
    requires forall e :: e in from.nodes ==> e !in to.nodes
    requires forall l :: l in others ==> l.Valid() && l != from && l != to
    requires forall l, e :: l in others && e in l.nodes ==> e !in from.nodes && e !in to.nodes
    modifies from, from.nodes, to, to.nodes
    ensures from.Valid() && to.Valid()
    ensures [elem] + from.Elems() == old(from.Elems()) && to.Elems() == [elem] + old(to.Elems())
    ensures forall l :: l in others ==> l.Valid() && l.Elems() == old(l.Elems())
  {
    assert forall i :: 0 <= i < |to.nodes| ==> to.nodes[i] !in from.nodes;
    assert forall l, i :: l in others && 0 <= i < |l.nodes| ==> l.nodes[i] !in from.nodes && l.nodes[i] !in to.nodes;
    elem := from.Pop();
    assert to.Valid();
    assert forall l :: l in others ==> l.Valid();
    assert elem == old(from.nodes)[1];
    to.Push(elem);
  }
}
