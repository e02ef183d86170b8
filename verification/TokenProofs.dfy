/** The reference-count equation, over every API call and every run of calls. */
module TokenProofs {
  import opened Lists
  import opened Results
  import opened TokenSpec
  import opened Word

  // ---- counting references ----

  /** The keys that m sends to v. */
  function Fiber<K(==), V(==)>(m: map<K, V>, v: V): set<K> {
    set k | k in m && m[k] == v
  }

  lemma FiberAdd<K, V>(m: map<K, V>, k: K, w: V, v: V)
    requires k !in m
    ensures |Fiber(m[k := w], v)| == |Fiber(m, v)| + (if v == w then 1 else 0)
  {
    if v == w {
      assert Fiber(m[k := w], v) == Fiber(m, v) + {k};
    } else {
      assert Fiber(m[k := w], v) == Fiber(m, v);
    }
  }

  lemma FiberRemove<K, V>(m: map<K, V>, k: K, v: V)
    requires k in m
    ensures |Fiber(m - {k}, v)| == |Fiber(m, v)| - (if v == m[k] then 1 else 0)
  {
    if v == m[k] {
      assert Fiber(m, v) == Fiber(m - {k}, v) + {k};
    } else {
      assert Fiber(m - {k}, v) == Fiber(m, v);
    }
  }

  lemma FiberSet<K, V>(m: map<K, V>, k: K, w: V, v: V)
    requires k in m
    ensures |Fiber(m[k := w], v)| ==
            |Fiber(m, v)| - (if v == m[k] then 1 else 0) + (if v == w then 1 else 0)
  {
    FiberRemove(m, k, v);
    FiberAdd(m - {k}, k, w, v);
    assert (m - {k})[k := w] == m[k := w];
  }

  /** All references to t: the client's, one per open handle, one per properties object. */
  function Held<T(==), H(==), P(==)>(s: Shell<T, H, P>, t: T): nat {
    Owned(s, t) + |Fiber(s.handles, t)| + |Fiber(s.parents, Wrapped(t))|
  }

  // ---- the invariant ----

  /** The ring is the set of live wrappers, each once; no adapter token is used twice. */
  ghost predicate CoreInv<T>(c: Core<T>) {
    && (forall t :: t in c.tokens ==> c.tokens[t].magic == WRAPPED_TOKEN_MAGIC)
    && Distinct(c.ring)
    && Elems(c.ring) == c.tokens.Keys
    && Distinct(c.destroyed)
    && (forall t :: t in c.tokens ==> c.tokens[t].raw !in c.destroyed)
    && (forall t, u :: t in c.tokens && u in c.tokens && c.tokens[t].raw == c.tokens[u].raw ==> t == u)
  }

  ghost predicate HoldersLive<T, H, P>(s: Shell<T, H, P>) {
    && (forall t :: t in s.owned ==> t in s.core.tokens && 0 < s.owned[t])
    && (forall h :: h in s.handles ==> s.handles[h] in s.core.tokens)
    && (forall p :: p in s.parents ==> s.parents[p].Wrapped? ==> s.parents[p].token in s.core.tokens)
  }

  /** Each live wrapper counts its references exactly, and has at least one. */
  ghost predicate Counted<T, H, P>(s: Shell<T, H, P>) {
    forall t :: t in s.core.tokens ==> s.core.tokens[t].refCount == Held(s, t) && 0 < Held(s, t)
  }

  ghost predicate Inv<T, H, P>(s: Shell<T, H, P>) {
    CoreInv(s.core) && HoldersLive(s) && Counted(s)
  }

  // ---- one reference more, one reference less ----

  lemma WithoutElems<T>(s: seq<T>, t: T)
    requires Distinct(s)
    ensures Distinct(Without(s, t)) && Elems(Without(s, t)) == Elems(s) - {t}
  {
    if s != [] {
      var tail := s[1..];
      assert s == [s[0]] + tail;
      ElemsCons(s[0], tail);
      if s[0] == t {
      } else {
        WithoutElems(tail, t);
        ElemsCons(s[0], Without(tail, t));
        assert s[0] !in Elems(Without(tail, t));
      }
    }
  }

  lemma {:induction false} WithoutIsRemove<T>(s: seq<T>, k: nat)
    requires Distinct(s) && k < |s|
    ensures Without(s, s[k]) == Remove(s, k)
  {
    var tail := s[1..];
    assert s == [s[0]] + tail;
    if k == 0 {
      assert Remove(s, 0) == tail;
    } else {
      ElemsCons(s[0], tail);
      assert tail[k - 1] == s[k];
      WithoutIsRemove(tail, k - 1);
      assert Remove(s, k) == [s[0]] + Remove(tail, k - 1);
    }
  }

  /** Taking a reference to a live wrapper changes its count and nothing else. */
  lemma UprefCore<T>(c: Core<T>, t: T)
    requires CoreInv(c) && t in c.tokens && 0 < c.tokens[t].refCount < TWO_32 - 1
    ensures CoreInv(Upref(c, t))
    ensures Upref(c, t).ring == c.ring && Upref(c, t).tokens.Keys == c.tokens.Keys
    ensures Upref(c, t).tokens[t].refCount == c.tokens[t].refCount + 1
    ensures forall u :: u in c.tokens && u != t ==> Upref(c, t).tokens[u] == c.tokens[u]
  {
    hide Distinct, Elems;
  }

  /** Dropping one removes the wrapper exactly when it was the last. */
  lemma DownrefCore<T>(c: Core<T>, t: T)
    requires CoreInv(c) && t in c.tokens && 0 < c.tokens[t].refCount
    ensures CoreInv(Downref(c, t))
    ensures Downref(c, t).tokens.Keys == if c.tokens[t].refCount == 1 then c.tokens.Keys - {t} else c.tokens.Keys
    ensures c.tokens[t].refCount != 1 ==> Downref(c, t).tokens[t].refCount == c.tokens[t].refCount - 1
    ensures forall u :: u in c.tokens && u != t ==> Downref(c, t).tokens[u] == c.tokens[u]
  {
    hide Distinct, Elems;
    WithoutElems(c.ring, t);
    if c.tokens[t].refCount == 1 && c.tokens[t].adapter.canDestroy {
      AppendDistinct(c.destroyed, c.tokens[t].raw);
    }
  }

  lemma AppendDistinct<V>(s: seq<V>, x: V)
    requires Distinct(s) && x !in s
    ensures Distinct(s + [x])
    ensures forall y :: y in s + [x] <==> y in s || y == x
  {
  }

  /**
   * A reference more together with its new holder keeps the invariant exactly when the
   * 32-bit count has room for it.
   */
  lemma UprefLive<T, H, P>(s: Shell<T, H, P>, s': Shell<T, H, P>, t: T)
    requires Inv(s) && t in s.core.tokens
    requires s'.core == Upref(s.core, t) && HoldersLive(s'.(core := s.core))
    requires forall u :: u in s.core.tokens ==> Held(s', u) == Held(s, u) + (if u == t then 1 else 0)
    ensures Inv(s') <==> Held(s, t) < TWO_32 - 1
    ensures Inv(s') ==> s'.core.ring == s.core.ring
  {
    hide CoreInv, Upref, Held;
    if Held(s, t) < TWO_32 - 1 {
      UprefCore(s.core, t);
    } else {
      UprefWraps(s.core, t);
    }
  }

  lemma UprefWraps<T>(c: Core<T>, t: T)
    requires t in c.tokens && c.tokens[t].refCount == TWO_32 - 1
    ensures t in Upref(c, t).tokens && Upref(c, t).tokens[t].refCount == 0
  {
  }

  lemma DownrefLive<T, H, P>(s: Shell<T, H, P>, s': Shell<T, H, P>, t: T)
    requires Inv(s) && t in s.core.tokens
    requires s'.core == Downref(s.core, t) && HoldersLive(s'.(core := s.core))
    requires forall u :: u in s.core.tokens ==> Held(s', u) == Held(s, u) - (if u == t then 1 else 0)
    ensures Inv(s')
    ensures t in s'.core.tokens <==> 1 < Held(s, t)
  {
    hide CoreInv, Downref, Held;
    DownrefCore(s.core, t);
    if Held(s, t) == 1 {
      NoHolders(s', t);
    }
  }

  lemma NoHolders<T, H, P>(s: Shell<T, H, P>, t: T)
    requires Held(s, t) == 0 && (t in s.owned ==> 0 < s.owned[t])
    ensures t !in s.owned
    ensures forall h :: h in s.handles ==> s.handles[h] != t
    ensures forall p :: p in s.parents ==> s.parents[p] != Wrapped(t)
  {
    assert Fiber(s.handles, t) == {};
    assert Fiber(s.parents, Wrapped(t)) == {};
    forall h | h in s.handles
      ensures s.handles[h] != t
    {
      assert h !in Fiber(s.handles, t);
    }
    forall p | p in s.parents
      ensures s.parents[p] != Wrapped(t)
    {
      assert p !in Fiber(s.parents, Wrapped(t));
    }
  }

  // ---- the API calls ----

  lemma AllocateCore<T>(c: Core<T>, t: T, raw: int, adapter: Adapter)
    requires CoreInv(c) && t !in c.tokens && raw !in c.destroyed
    requires forall u :: u in c.tokens ==> c.tokens[u].raw != raw
    ensures CoreInv(Allocate(c, t, raw, adapter))
    ensures Allocate(c, t, raw, adapter).tokens == c.tokens[t := TokenData(WRAPPED_TOKEN_MAGIC, raw, 1, adapter)]
    ensures Allocate(c, t, raw, adapter).ring == [t] + c.ring
  {
    hide Distinct, Elems;
    ElemsCons(t, c.ring);
    MemberOfElems(t, c.ring);
  }

  lemma NewTokenKeeps<T, H, P>(s: Shell<T, H, P>, t: T, raw: int, adapter: Adapter)
    requires Inv(s) && t !in s.core.tokens && raw !in s.core.destroyed
    requires forall u :: u in s.core.tokens ==> s.core.tokens[u].raw != raw
    ensures Inv(NewToken(s, t, raw, adapter))
  {
    hide CoreInv, Allocate;
    AllocateCore(s.core, t, raw, adapter);
    assert Fiber(s.handles, t) == {} && Fiber(s.parents, Wrapped(t)) == {};
  }

  lemma FailedCloneKeeps<T, H, P>(s: Shell<T, H, P>, raw: int)
    requires Inv(s) && raw !in s.core.destroyed
    requires forall u :: u in s.core.tokens ==> s.core.tokens[u].raw != raw
    ensures Inv(FailedClone(s, raw))
  {
    hide Distinct, Elems;
    AppendDistinct(s.core.destroyed, raw);
    assert forall u :: u in s.core.tokens ==> Held(FailedClone(s, raw), u) == Held(s, u);
  }

  lemma MemberOfElems<V>(x: V, s: seq<V>)
    ensures x in s <==> x in Elems(s)
  {
  }

  lemma DestroyTokenKeeps<T, H, P>(s: Shell<T, H, P>, t: T)
    requires Inv(s) && t in s.core.tokens && 0 < Owned(s, t)
    ensures Inv(DestroyToken(s, t))
  {
    hide CoreInv, Downref, Counted;
    DownrefLive(s, DestroyToken(s, t), t);
  }

  lemma OpenKeeps<T, H, P>(s: Shell<T, H, P>, t: T, h: H)
    requires Inv(s) && t in s.core.tokens && h !in s.handles
    ensures Inv(Open(s, t, h)) <==> Held(s, t) < TWO_32 - 1
  {
    hide CoreInv, Upref, Counted, Fiber;
    forall u | u in s.core.tokens
      ensures Held(Open(s, t, h), u) == Held(s, u) + (if u == t then 1 else 0)
    {
      FiberAdd(s.handles, h, t, u);
    }
    UprefLive(s, Open(s, t, h), t);
  }

  lemma CloseKeeps<T, H, P>(s: Shell<T, H, P>, h: H)
    requires Inv(s) && h in s.handles
    ensures Inv(Close(s, h))
  {
    hide CoreInv, Downref, Counted, Fiber;
    var t := s.handles[h];
    forall u | u in s.core.tokens
      ensures Held(Close(s, h), u) == Held(s, u) - (if u == t then 1 else 0)
    {
      FiberRemove(s.handles, h, u);
    }
    DownrefLive(s, Close(s, h), t);
  }

  /** Replacing a parent that is not a wrapped token by another such touches no count. */
  lemma SetFreeParentKeeps<T, H, P>(s: Shell<T, H, P>, p: P, parent: Parent<T>)
    requires Inv(s) && !parent.Wrapped? && (p in s.parents ==> !s.parents[p].Wrapped?)
    ensures Inv(s.(parents := s.parents[p := parent]))
  {
    hide CoreInv, Fiber;
    var s' := s.(parents := s.parents[p := parent]);
    forall u | u in s.core.tokens
      ensures Held(s', u) == Held(s, u)
    {
      if p in s.parents {
        FiberSet(s.parents, p, parent, Wrapped(u));
      } else {
        FiberAdd(s.parents, p, parent, Wrapped(u));
      }
    }
  }

  /** There is room for one more reference to an optional token. */
  ghost predicate Room<T, H, P>(s: Shell<T, H, P>, parent: Option<T>) {
    parent.Some? ==> parent.value in s.core.tokens && Held(s, parent.value) < TWO_32 - 1
  }

  lemma AttachKeeps<T, H, P>(s: Shell<T, H, P>, p: P, parent: Option<T>)
    requires Inv(s) && (parent.Some? ==> parent.value in s.core.tokens) && (p in s.parents ==> !s.parents[p].Wrapped?)
    ensures Inv(Attach(s, p, parent)) <==> Room(s, parent)
    ensures Room(s, parent) ==> Attach(s, p, parent).core.ring == s.core.ring
  {
    hide CoreInv, Upref, Counted, Fiber;
    match parent
    case None =>
      SetFreeParentKeeps(s, p, NoParent);
    case Some(t) =>
      var s' := Attach(s, p, parent);
      forall u | u in s.core.tokens
        ensures Held(s', u) == Held(s, u) + (if u == t then 1 else 0)
      {
        if p in s.parents {
          FiberSet(s.parents, p, Wrapped(t), Wrapped(u));
        } else {
          FiberAdd(s.parents, p, Wrapped(t), Wrapped(u));
        }
      }
      UprefLive(s, s', t);
  }

  lemma DetachKeeps<T, H, P>(s: Shell<T, H, P>, p: P)
    requires Inv(s) && p in s.parents
    ensures Inv(Detach(s, p))
    ensures Detach(s, p).parents == s.parents[p := NoParent]
    ensures Detach(s, p).handles == s.handles && Detach(s, p).owned == s.owned
    ensures forall t :: t in s.core.tokens ==>
              (t in Detach(s, p).core.tokens <==> !(s.parents[p] == Wrapped(t) && Held(s, t) == 1))
  {
    hide CoreInv, Downref, Counted, Fiber;
    var s' := Detach(s, p);
    match s.parents[p]
    case Wrapped(t) =>
      forall u | u in s.core.tokens
        ensures Held(s', u) == Held(s, u) - (if u == t then 1 else 0)
      {
        FiberSet(s.parents, p, NoParent, Wrapped(u));
      }
      DownrefLive(s, s', t);
      DetachCore(s, t);
    case _ =>
      SetFreeParentKeeps(s, p, NoParent);
  }

  lemma DetachCore<T, H, P>(s: Shell<T, H, P>, t: T)
    requires Inv(s) && t in s.core.tokens
    ensures forall u :: u in s.core.tokens && u != t ==> u in Downref(s.core, t).tokens
  {
    DownrefCore(s.core, t);
  }

  /**
   * fpgaPropertiesSetParent: the token it is given outlives the drop of the old parent
   * exactly when that drop does not take its last reference.
   */
  lemma NewParentSurvivesIff<T, H, P>(s: Shell<T, H, P>, p: P, t: T)
    requires Inv(s) && p in s.parents && t in s.core.tokens
    ensures t in Detach(s, p).core.tokens <==> !(s.parents[p] == Wrapped(t) && Held(s, t) == 1)
    ensures 0 < Owned(s, t) ==> t in Detach(s, p).core.tokens
  {
    DetachKeeps(s, p);
    if s.parents[p] == Wrapped(t) {
      assert p in Fiber(s.parents, Wrapped(t));
      assert Fiber(s.parents, Wrapped(t)) != {};
    }
  }

  lemma RemoveParentKeeps<T, H, P>(s: Shell<T, H, P>, p: P)
    requires Inv(s) && p in s.parents && !s.parents[p].Wrapped?
    ensures Inv(s.(parents := s.parents - {p}))
  {
    hide CoreInv, Fiber;
    var s' := s.(parents := s.parents - {p});
    forall u | u in s.core.tokens
      ensures Held(s', u) == Held(s, u)
    {
      FiberRemove(s.parents, p, Wrapped(u));
    }
  }

  // ---- finding a parent ----

  /** A scan passes this wrapper by. */
  ghost predicate PassedBy(d: TokenData, query: int -> Query, q: Query)
    requires q.Accelerator?
  {
    d.adapter.canUpdate ==>
      && query(d.raw) != Fails
      && query(d.raw) != Device(q.segment, q.bus, q.device)
  }

  /**
   * The parent is the newest wrapper on the ring that is a device at the child's address,
   * provided no newer one fails to answer.
   */
  lemma {:induction false} FindParentNewest<T>(ring: seq<T>, tokens: map<T, TokenData>, query: int -> Query, q: Query)
    requires q.Accelerator? && forall i :: 0 <= i < |ring| ==> ring[i] in tokens
    ensures FindParent(ring, tokens, query, q).Some? <==>
              exists k :: 0 <= k < |ring| && IsNewestMatch(ring, tokens, query, q, k)
    ensures forall k :: 0 <= k < |ring| && IsNewestMatch(ring, tokens, query, q, k) ==>
              FindParent(ring, tokens, query, q) == Some(ring[k])
  {
    if ring != [] {
      var tail := ring[1..];
      FindParentNewest(tail, tokens, query, q);
      var here := PassedBy(tokens[ring[0]], query, q);
      forall k | 0 <= k < |tail|
        ensures IsNewestMatch(ring, tokens, query, q, k + 1) <==> here && IsNewestMatch(tail, tokens, query, q, k)
      {
        MatchInTail(ring, tokens, query, q, k);
      }
      if here {
        if k :| 0 <= k < |tail| && IsNewestMatch(tail, tokens, query, q, k) {
          assert IsNewestMatch(ring, tokens, query, q, k + 1);
        }
        forall k | 0 <= k < |ring| && IsNewestMatch(ring, tokens, query, q, k)
          ensures 0 < k && IsNewestMatch(tail, tokens, query, q, k - 1)
        {
        }
      } else {
        assert FindParent(ring, tokens, query, q).Some? ==> IsNewestMatch(ring, tokens, query, q, 0);
        forall k | 0 < k < |ring|
          ensures !IsNewestMatch(ring, tokens, query, q, k)
        {
          assert 0 <= 0 < k && !PassedBy(tokens[ring[0]], query, q);
        }
      }
    }
  }

  ghost predicate IsNewestMatch<T>(ring: seq<T>, tokens: map<T, TokenData>, query: int -> Query, q: Query, k: nat)
    requires q.Accelerator? && k < |ring| && forall i :: 0 <= i < |ring| ==> ring[i] in tokens
  {
    var d := tokens[ring[k]];
    && d.adapter.canUpdate && query(d.raw) == Device(q.segment, q.bus, q.device)
    && forall j :: 0 <= j < k ==> PassedBy(tokens[ring[j]], query, q)
  }

  lemma MatchInTail<T>(ring: seq<T>, tokens: map<T, TokenData>, query: int -> Query, q: Query, k: nat)
    requires q.Accelerator? && k + 1 < |ring| && forall i :: 0 <= i < |ring| ==> ring[i] in tokens
    ensures IsNewestMatch(ring, tokens, query, q, k + 1) <==>
              PassedBy(tokens[ring[0]], query, q) && IsNewestMatch(ring[1..], tokens, query, q, k)
  {
    var tail := ring[1..];
    if PassedBy(tokens[ring[0]], query, q) && IsNewestMatch(tail, tokens, query, q, k) {
      forall j | 0 <= j < k + 1
        ensures PassedBy(tokens[ring[j]], query, q)
      {
        assert j != 0 ==> ring[j] == tail[j - 1];
      }
    }
    if IsNewestMatch(ring, tokens, query, q, k + 1) {
      forall j | 0 <= j < k
        ensures PassedBy(tokens[tail[j]], query, q)
      {
        assert tail[j] == ring[j + 1];
      }
    }
  }

  /** A parent is a live wrapper other than the child, and needs room for one reference. */
  lemma ParentIsLiveDevice<T>(c: Core<T>, child: T, query: int -> Query, mallocOk: bool)
    requires CoreInv(c) && child in c.tokens
    ensures forall i :: 0 <= i < |c.ring| ==> c.ring[i] in c.tokens
    ensures var r := ParentOf(c, child, query, mallocOk);
            r.Some? ==> r.value in c.tokens && r.value != child && query(c.tokens[r.value].raw).Device?
  {
    forall i | 0 <= i < |c.ring|
      ensures c.ring[i] in c.tokens
    {
      assert c.ring[i] in Elems(c.ring);
    }
    var q := query(c.tokens[child].raw);
    if q.Accelerator? {
      FindParentNewest(c.ring, c.tokens, query, q);
      if FindParent(c.ring, c.tokens, query, q).Some? {
        var k :| 0 <= k < |c.ring| && IsNewestMatch(c.ring, c.tokens, query, q, k);
        assert c.ring[k] in c.tokens;
      }
    }
  }
}
