/** Circular doubly linked lists with a sentinel, and the two ways to relink them. */
module Rings {
  import opened Lists

  /** A ring node; data is what the C structure holds beside its two links. */
  class Link<T> {
    var data: T
    var prev: Link<T>
    var next: Link<T>

    /** A node that is a ring of its own. */
    constructor (data: T)
      ensures this.data == data && prev == this && next == this
    {
      this.data := data;
      prev, next := this, this;
    }
  }

  /** The nodes met by walking once around, from the sentinel back to it. */
  ghost function Cycle<T>(head: Link<T>, ns: seq<Link<T>>): seq<Link<T>> {
    [head] + ns + [head]
  }

  /** next leads once around through ns and prev leads back; no node occurs twice. */
  ghost predicate Linked<T>(head: Link<T>, ns: seq<Link<T>>)
    reads head`prev, head`next, ns`prev, ns`next
  {
    var c := Cycle(head, ns);
    && head !in ns
    && Distinct(ns)
    && (forall i :: 0 <= i <= |ns| ==> c[i].next == c[i + 1])
    && (forall i :: 1 <= i <= |ns| + 1 ==> c[i].prev == c[i - 1])
  }

  lemma CycleDistinct<T>(head: Link<T>, ns: seq<Link<T>>)
    requires Linked(head, ns)
    ensures var c := Cycle(head, ns);
            && (forall i, j :: 0 <= i < j <= |ns| ==> c[i] != c[j])
            && (forall i, j :: 1 <= i < j <= |ns| + 1 ==> c[i] != c[j])
  {
    var c := Cycle(head, ns);
    assert forall i :: 1 <= i <= |ns| ==> c[i] == ns[i - 1];
  }

  /** Two nodes point at each other. */
  ghost predicate Joined<T>(x: Link<T>, y: Link<T>)
    reads x`next, y`prev
  {
    x.next == y && y.prev == x
  }

  /** Once a is linked between positions k and k + 1 the ring runs through it. */
  lemma LinkedWith<T>(head: Link<T>, ns: seq<Link<T>>, k: nat, a: Link<T>)
    requires k <= |ns| && head !in ns && Distinct(ns) && a != head && a !in ns
    requires var c := Cycle(head, ns);
             && c[k].next == a && a.prev == c[k] && a.next == c[k + 1] && c[k + 1].prev == a
             && forall i :: 0 <= i <= |ns| && i != k ==> Joined(c[i], c[i + 1])
    ensures Linked(head, Insert(ns, k, a))
  {
    var c, d := Cycle(head, ns), Cycle(head, Insert(ns, k, a));
    assert forall i :: 0 <= i < |d| ==> d[i] == if i <= k then c[i] else if i == k + 1 then a else c[i - 1];
    InsertMembers(ns, k, a);
    forall i | 0 <= i < |d| - 1
      ensures Joined(d[i], d[i + 1])
    {
      if i < k {
        assert Joined(c[i], c[i + 1]);
      } else if k + 1 < i {
        assert Joined(c[i - 1], c[i]);
      }
    }
    AllJoined(head, Insert(ns, k, a));
  }

  /** Once positions k and k + 2 are linked the ring runs around position k + 1. */
  lemma LinkedWithout<T>(head: Link<T>, ns: seq<Link<T>>, k: nat)
    requires k < |ns| && head !in ns && Distinct(ns)
    requires var c := Cycle(head, ns);
             && c[k].next == c[k + 2] && c[k + 2].prev == c[k]
             && forall i :: 0 <= i <= |ns| && i != k && i != k + 1 ==> Joined(c[i], c[i + 1])
    ensures Linked(head, Remove(ns, k))
  {
    var c, d := Cycle(head, ns), Cycle(head, Remove(ns, k));
    assert forall i :: 0 <= i < |d| ==> d[i] == if i <= k then c[i] else c[i + 1];
    RemoveMembers(ns, k);
    forall i | 0 <= i < |d| - 1
      ensures Joined(d[i], d[i + 1])
    {
      if i < k {
        assert Joined(c[i], c[i + 1]);
      } else if k < i {
        assert Joined(c[i + 1], c[i + 2]);
      }
    }
    AllJoined(head, Remove(ns, k));
  }

  lemma AllJoined<T>(head: Link<T>, ns: seq<Link<T>>)
    requires head !in ns && Distinct(ns)
    ensures Linked(head, ns) <==> forall i :: 0 <= i <= |ns| ==> Joined(Cycle(head, ns)[i], Cycle(head, ns)[i + 1])
  {
    var c := Cycle(head, ns);
    if Linked(head, ns) {
      forall i | 0 <= i <= |ns|
        ensures Joined(c[i], c[i + 1])
      {
        assert c[i].next == c[i + 1] && c[i + 1].prev == c[i + 1 - 1];
      }
    }
    if forall i :: 0 <= i <= |ns| ==> Joined(c[i], c[i + 1]) {
      forall i | 1 <= i <= |ns| + 1
        ensures c[i].prev == c[i - 1]
      {
        assert Joined(c[i - 1], c[i]);
      }
      forall i | 0 <= i <= |ns|
        ensures c[i].next == c[i + 1]
      {
        assert Joined(c[i], c[i + 1]);
      }
    }
  }

  /** Link a in front of b, which stands at position k of the ring (|ns| for the sentinel). */
  method RelinkBefore<T>(a: Link<T>, b: Link<T>, ghost head: Link<T>, ghost ns: seq<Link<T>>, ghost k: nat)
    requires Linked(head, ns) && k <= |ns| && b == Cycle(head, ns)[k + 1]
    requires a != head && a !in ns
    modifies a`prev, a`next, b`prev, b.prev`next
    ensures Linked(head, Insert(ns, k, a))
  {
    hide Insert;
    ghost var c := Cycle(head, ns);
    CycleDistinct(head, ns);
    AllJoined(head, ns);
    assert Joined(c[k], c[k + 1]) && forall i :: 0 <= i < |c| ==> c[i] != a;
    a.prev := b.prev;
    a.next := b;
    b.prev := a;
    a.prev.next := a;
    assert forall i :: 0 <= i <= |ns| && i != k ==> Joined(c[i], c[i + 1]);
    LinkedWith(head, ns, k, a);
  }

  /** Unlink x, which stands at position k. */
  method RelinkAround<T>(x: Link<T>, ghost head: Link<T>, ghost ns: seq<Link<T>>, ghost k: nat)
    requires Linked(head, ns) && k < |ns| && ns[k] == x
    modifies x.next`prev, x.prev`next
    ensures Linked(head, Remove(ns, k))
  {
    hide Remove;
    ghost var c := Cycle(head, ns);
    assert c[k + 1] == x;
    CycleDistinct(head, ns);
    AllJoined(head, ns);
    assert Joined(c[k], c[k + 1]) && Joined(c[k + 1], c[k + 2]);
    x.next.prev := x.prev;
    x.prev.next := x.next;
    assert forall i :: 0 <= i <= |ns| && i != k && i != k + 1 ==> Joined(c[i], c[i + 1]);
    LinkedWithout(head, ns, k);
  }

  lemma MembersOf<T>(ns: seq<Link<T>>, members: set<Link<T>>)
    requires Elems(ns) == members
    ensures (forall n :: n in members ==> n in ns) && (forall n :: n in ns ==> n in members)
  {
  }

  lemma DataInsert<T>(ns: seq<Link<T>>, view: seq<T>, k: nat, a: Link<T>)
    requires |ns| == |view| && k <= |ns| && forall i :: 0 <= i < |ns| ==> ns[i].data == view[i]
    ensures |Insert(ns, k, a)| == |Insert(view, k, a.data)|
    ensures forall i :: 0 <= i < |Insert(ns, k, a)| ==> Insert(ns, k, a)[i].data == Insert(view, k, a.data)[i]
  {
  }

  lemma DataRemove<T>(ns: seq<Link<T>>, view: seq<T>, k: nat)
    requires |ns| == |view| && k < |ns| && forall i :: 0 <= i < |ns| ==> ns[i].data == view[i]
    ensures |Remove(ns, k)| == |Remove(view, k)|
    ensures forall i :: 0 <= i < |Remove(ns, k)| ==> Remove(ns, k)[i].data == Remove(view, k)[i]
  {
  }

  /** A sentinel and, in ghost fields, the nodes linked to it and the values they carry. */
  class Ring<T> {
    const head: Link<T>
    ghost var nodes: seq<Link<T>>
    ghost var members: set<Link<T>>
    ghost var view: seq<T>

    ghost function Repr(): set<object>
      reads this
    {
      {this, head} + members
    }

    ghost predicate Valid()
      reads this, Repr()
    {
      && head !in members
      && (forall n :: n in members ==> n in nodes)
      && (forall n :: n in nodes ==> n in members)
      && Linked(head, nodes)
      && |nodes| == |view|
      && (forall i :: 0 <= i < |nodes| ==> nodes[i].data == view[i])
    }

    constructor (data: T)
      ensures Valid() && fresh(Repr()) && nodes == [] && view == [] && members == {}
    {
      head := new Link(data);
      nodes, members, view := [], {}, [];
    }

    /** Make the sentinel a ring of its own again. */
    method Reset(data: T)
      requires head !in members
      modifies this, head
      ensures Valid() && nodes == [] && view == [] && members == {}
    {
      head.data := data;
      head.prev, head.next := head, head;
      nodes, members, view := [], {}, [];
    }

    /** The node at position k, or the sentinel outside the list. */
    ghost function At(k: int): Link<T>
      reads this
    {
      if 0 <= k < |nodes| then nodes[k] else head
    }

    /** What the links and the data of the node at position k are. */
    lemma Here(k: nat)
      requires Valid() && k <= |nodes|
      ensures At(k).prev == At(k - 1)
      ensures k < |nodes| ==>
                nodes[k].next == At(k + 1) && nodes[k].data == view[k] && nodes[k] != head && nodes[k] in members
      ensures head.next == At(0) && |nodes| == |view|
      ensures forall j :: -1 <= j <= |nodes| ==> At(j) in Repr()
      ensures k + 1 < |nodes| ==> nodes[k] != nodes[k + 1]
    {
      var c := Cycle(head, nodes);
      assert c[k + 1] == At(k) && c[k] == At(k - 1);
      assert k < |nodes| ==> c[k + 2] == At(k + 1);
      assert c[0].next == c[1];
    }

    lemma Members()
      requires Valid()
      ensures Distinct(nodes) && Elems(nodes) == members
    {
    }

    /** Store data in the node at position k. */
    method Store(x: Link<T>, data: T, ghost k: nat)
      requires Valid() && k < |nodes| && x == nodes[k]
      modifies this`view, x`data
      ensures Valid()
      ensures view == old(view)[k := data]
    {
      x.data := data;
      view := view[k := data];
    }

    /** Link a in front of b, which stands at position k (|nodes| for the sentinel). */
    method LinkBefore(a: Link<T>, b: Link<T>, ghost k: nat)
      requires Valid() && k <= |nodes| && b == At(k) && a !in Repr()
      modifies this, a`prev, a`next, head`prev, head`next, members`prev, members`next
      ensures Valid()
      ensures nodes == Insert(old(nodes), k, a) && members == old(members) + {a}
      ensures view == Insert(old(view), k, a.data)
    {
      hide Linked, Distinct, Insert, Elems;
      Here(k);
      Members();
      assert b == Cycle(head, nodes)[k + 1] && b.prev == At(k - 1) && b.prev in Repr();
      ElemsInsert(nodes, k, a);
      RelinkBefore(a, b, head, nodes, k);
      DataInsert(nodes, view, k, a);
      nodes, members, view := Insert(nodes, k, a), members + {a}, Insert(view, k, a.data);
      MembersOf(nodes, members);
    }

    /** Unlink x, which stands at position k. */
    method LinkUnlink(x: Link<T>, ghost k: nat)
      requires Valid() && k < |nodes| && x == nodes[k]
      modifies this, head`prev, head`next, members`prev, members`next
      ensures Valid()
      ensures nodes == Remove(old(nodes), k) && members == old(members) - {x}
      ensures view == Remove(old(view), k)
    {
      hide Linked, Distinct, Remove, Elems;
      Here(k);
      Members();
      assert At(k + 1) in Repr() && At(k - 1) in Repr();
      RemoveMembers(nodes, k);
      RelinkAround(x, head, nodes, k);
      DataRemove(nodes, view, k);
      nodes, members, view := Remove(nodes, k), members - {x}, Remove(view, k);
    }
  }
}
