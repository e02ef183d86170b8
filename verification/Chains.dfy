/** Singly linked lists that end in null, as the C code links and unlinks them. */
module Chains {
  import opened Lists

  class Cell<T> {
    var data: T
    var next: Cell?<T>

    constructor (data: T)
      ensures this.data == data && next == null
    {
      this.data := data;
      next := null;
    }
  }

  /** The cell at position k, or null outside the list. */
  ghost function At<T>(cells: seq<Cell<T>>, k: int): Cell?<T> {
    if 0 <= k < |cells| then cells[k] else null
  }

  lemma AtPrefix<T>(s: seq<Cell<T>>, t: seq<Cell<T>>, k: int)
    requires s <= t && k < |s|
    ensures At(s, k) == At(t, k)
  {
  }

  /** Following next from first meets exactly these cells. */
  ghost predicate Path<T>(first: Cell?<T>, cells: seq<Cell<T>>)
    reads cells`next
  {
    && first == At(cells, 0)
    && forall i :: 0 <= i < |cells| ==> cells[i].next == At(cells, i + 1)
  }

  /** Once the links lead around the cell at position k, they form the path without it. */
  lemma PathAround<T>(first: Cell?<T>, cells: seq<Cell<T>>, k: nat)
    requires k < |cells|
    requires first == At(cells, if k == 0 then 1 else 0)
    requires forall i :: 0 <= i < |cells| && i != k ==>
               cells[i].next == At(cells, if i + 1 == k then k + 1 else i + 1)
    ensures Path(first, Remove(cells, k))
  {
    var d := Remove(cells, k);
    forall i | 0 <= i < |d|
      ensures d[i].next == At(d, i + 1)
    {
      var j := if i < k then i else i + 1;
      assert d[i] == cells[j];
    }
  }

  ghost predicate Shows<T>(cells: seq<Cell<T>>, view: seq<T>)
    reads cells`data
  {
    |cells| == |view| && forall i :: 0 <= i < |cells| ==> cells[i].data == view[i]
  }

  lemma PathAt<T>(first: Cell?<T>, cells: seq<Cell<T>>, view: seq<T>, k: nat)
    requires Path(first, cells) && Shows(cells, view) && k <= |cells|
    ensures first == At(cells, 0) && |cells| == |view|
    ensures k < |cells| ==> cells[k].next == At(cells, k + 1) && cells[k].data == view[k]
  {
  }

  lemma ShowsRemove<T>(cells: seq<Cell<T>>, view: seq<T>, k: nat)
    requires Shows(cells, view) && k < |cells|
    ensures Shows(Remove(cells, k), Remove(view, k))
  {
  }

  /** A cell spliced in behind position k of a path. */
  lemma PathInsert<T>(first: Cell?<T>, cells: seq<Cell<T>>, k: nat, c: Cell<T>)
    requires k < |cells| && first == cells[0]
    requires forall i :: 0 <= i < |cells| && i != k ==> cells[i].next == At(cells, i + 1)
    requires cells[k].next == c && c.next == At(cells, k + 1)
    ensures Path(first, Insert(cells, k + 1, c))
  {
    var d := Insert(cells, k + 1, c);
    forall i | 0 <= i < |d|
      ensures d[i].next == At(d, i + 1)
    {
      if i <= k {
        assert d[i] == cells[i];
      } else if i > k + 1 {
        assert d[i] == cells[i - 1];
      }
    }
  }

  /** Splice c in behind the cell at position k. */
  method SpliceAfter<T>(parent: Cell<T>, c: Cell<T>, ghost first: Cell?<T>, ghost cells: seq<Cell<T>>, ghost k: nat)
    requires k < |cells| && parent == cells[k] && Path(first, cells) && Distinct(cells) && c !in cells
    modifies parent`next, c`next
    ensures Path(first, Insert(cells, k + 1, c))
  {
    hide Insert;
    assert parent.next == At(cells, k + 1);
    c.next := parent.next;
    parent.next := c;
    assert forall i :: 0 <= i < |cells| && i != k ==> cells[i] != parent;
    PathInsert(first, cells, k, c);
  }

  lemma SinglePath<T>(c: Cell<T>)
    requires c.next == null
    ensures Path(c, [c]) && Shows([c], [c.data]) && Distinct([c]) && Elems([c]) == {c}
  {
  }

  /** A list head and, in ghost fields, its cells and the values they carry. */
  class Chain<T> {
    var first: Cell?<T>
    ghost var cells: seq<Cell<T>>
    ghost var members: set<Cell<T>>
    ghost var view: seq<T>

    ghost function Repr(): set<object>
      reads this
    {
      {this} + members
    }

    ghost predicate Valid()
      reads this, Repr()
    {
      && members == Elems(cells)
      && Distinct(cells)
      && Path(first, cells)
      && Shows(cells, view)
    }

    constructor ()
      ensures Valid() && fresh(Repr()) && first == null && cells == [] && view == [] && members == {}
    {
      first, cells, members, view := null, [], {}, [];
    }

    lemma Here(k: nat)
      requires Valid() && k <= |cells|
      ensures k < |cells| ==>
                cells[k].next == At(cells, k + 1) && cells[k].data == view[k] && cells[k] in members
      ensures first == At(cells, 0) && |cells| == |view|
    {
      PathAt(first, cells, view, k);
    }

    /** Make c the head of the list. */
    method PushFront(c: Cell<T>)
      requires Valid() && c !in members
      modifies this, c`next
      ensures Valid()
      ensures cells == [c] + old(cells) && members == old(members) + {c}
      ensures view == [c.data] + old(view)
    {
      hide Elems, Distinct;
      ElemsCons(c, cells);
      c.next := first;
      first := c;
      cells, members, view := [c] + cells, members + {c}, [c.data] + view;
    }

    /** Let the cell before position k, or the head, point past the cell at k. */
    method Bypass(prev: Cell?<T>, c: Cell<T>, ghost k: nat)
      requires Valid() && k < |cells| && c == cells[k] && prev == At(cells, k - 1)
      modifies this`first, members`next
      ensures Path(first, Remove(cells, k))
      ensures c.next == old(c.next)
    {
      assert c.next == At(cells, k + 1);
      if prev == null {
        first := c.next;
      } else {
        prev.next := c.next;
      }
      PathAround(first, cells, k);
    }

    /** Unlink the cell at position k, which prev precedes if there is one. */
    method Unlink(prev: Cell?<T>, c: Cell<T>, ghost k: nat)
      requires Valid() && k < |cells| == |view| && c == cells[k] && prev == At(cells, k - 1)
      modifies Repr()
      ensures Valid()
      ensures cells == Remove(old(cells), k) && members == old(members) - {c}
      ensures view == Remove(old(view), k)
      ensures c.next == old(c.next) && c.data == old(c.data)
    {
      hide Path, Shows, Remove, Elems, Distinct, At;
      Bypass(prev, c, k);
      ElemsRemove(cells, k);
      ShowsRemove(cells, view, k);
      assert Path(first, Remove(cells, k)) && Shows(Remove(cells, k), Remove(view, k));
      assert Distinct(Remove(cells, k)) && members - {c} == Elems(Remove(cells, k));
      cells, members, view := Remove(cells, k), members - {c}, Remove(view, k);
    }

    /** Store c into the empty slot at the end of the list. */
    method Append(last: Cell?<T>, c: Cell<T>)
      requires Valid() && last == At(cells, |cells| - 1) && c !in members && c.next == null
      modifies this, members`next
      ensures Valid()
      ensures cells == old(cells) + [c] && members == old(members) + {c}
      ensures view == old(view) + [c.data]
    {
      hide Elems, Distinct;
      if last == null {
        first := c;
      } else {
        last.next := c;
      }
      ElemsAppend(cells, c);
      cells, members, view := cells + [c], members + {c}, view + [c.data];
    }

    /** Forget the list. */
    method Clear()
      modifies this
      ensures Valid() && cells == [] && view == [] && members == {}
    {
      first, cells, members, view := null, [], {}, [];
    }
  }
}
