/** Sequences: the two edits that linked lists undergo, and their elements. */
module Lists {
  function Insert<T>(s: seq<T>, k: nat, x: T): seq<T>
    requires k <= |s|
  {
    s[..k] + [x] + s[k..]
  }

  function Remove<T>(s: seq<T>, k: nat): seq<T>
    requires k < |s|
  {
    s[..k] + s[k + 1..]
  }

  lemma InsertFirst<T>(s: seq<T>, x: T)
    ensures Insert(s, 0, x) == [x] + s
  {
  }

  lemma InsertAtEnd<T>(s: seq<T>, x: T)
    ensures Insert(s, |s|, x) == s + [x]
  {
  }

  ghost predicate Distinct<T>(s: seq<T>) {
    forall i, j :: 0 <= i < j < |s| ==> s[i] != s[j]
  }

  lemma RemoveMembers<T>(s: seq<T>, k: nat)
    requires Distinct(s) && k < |s|
    ensures Distinct(Remove(s, k)) && s[k] !in Remove(s, k)
    ensures forall x :: x in Remove(s, k) ==> x in s
    ensures forall x :: x in s && x != s[k] ==> x in Remove(s, k)
  {
    forall x | x in s && x != s[k]
      ensures x in Remove(s, k)
    {
      var i :| 0 <= i < |s| && s[i] == x;
      assert x == Remove(s, k)[if i < k then i else i - 1];
    }
  }

  lemma InsertMembers<T>(s: seq<T>, k: nat, a: T)
    requires Distinct(s) && k <= |s| && a !in s
    ensures Distinct(Insert(s, k, a))
    ensures forall x :: x in Insert(s, k, a) <==> x in s || x == a
  {
    var t := Insert(s, k, a);
    assert t[k] == a;
    forall x | x in s
      ensures x in t
    {
      var i :| 0 <= i < |s| && s[i] == x;
      assert x == t[if i < k then i else i + 1];
    }
  }

  ghost function Elems<T>(s: seq<T>): (e: set<T>)
    ensures forall i :: 0 <= i < |s| ==> s[i] in e
  {
    set x | x in s
  }

  lemma ElemsRemove<T>(s: seq<T>, k: nat)
    requires Distinct(s) && k < |s|
    ensures Distinct(Remove(s, k)) && Elems(Remove(s, k)) == Elems(s) - {s[k]}
  {
    RemoveMembers(s, k);
  }

  lemma ElemsCons<T>(x: T, s: seq<T>)
    ensures Elems([x] + s) == {x} + Elems(s)
    ensures Distinct([x] + s) <==> x !in s && Distinct(s)
  {
    var t := [x] + s;
    assert t[1..] == s;
    if Distinct(t) {
      assert forall i :: 0 <= i < |s| ==> t[i + 1] == s[i];
    }
  }

  lemma ElemsInsert<T>(s: seq<T>, k: nat, x: T)
    requires k <= |s|
    ensures Elems(Insert(s, k, x)) == Elems(s) + {x}
    ensures x !in Elems(s) && Distinct(s) ==> Distinct(Insert(s, k, x))
  {
    var t := Insert(s, k, x);
    assert forall y :: y in s <==> y in s[..k] || y in s[k..];
    assert forall y :: y in t <==> y in s[..k] || y == x || y in s[k..];
  }

  lemma ElemsAppend<T>(s: seq<T>, x: T)
    ensures Elems(s + [x]) == Elems(s) + {x}
    ensures x !in Elems(s) && Distinct(s) ==> Distinct(s + [x])
  {
  }

  /** Taking out the first of what is left from k on. */
  lemma ElemsFrom<T>(s: seq<T>, k: nat)
    requires k < |s| && Distinct(s)
    ensures Elems(s[k..]) - {s[k]} == Elems(s[k + 1..]) && s[k] in Elems(s[k..])
  {
    var rest := s[k + 1..];
    assert s[k..] == [s[k]] + rest;
    ElemsCons(s[k], rest);
    assert s[k] !in rest;
  }

  lemma HasMember<T>(s: seq<T>)
    requires s != []
    ensures exists x :: x in s
  {
    assert s[0] in s;
  }

  function Min(x: nat, y: nat): (m: nat)
    ensures m <= x && m <= y && (m == x || m == y)
  {
    if x < y then x else y
  }
}
