/** What each API call does to the references: who holds what afterwards, and which wrapper is gone. */
module TokenEffects {
  import opened Lists
  import opened Results
  import opened TokenSpec
  import opened TokenProofs
  import opened TokenRuns

  function One<T(==)>(o: Option<T>, t: T): nat {
    if o == Some(t) then 1 else 0
  }

  /** dropped was held once only. */
  ghost predicate Ends<T, H, P>(s: Shell<T, H, P>, dropped: Option<T>) {
    dropped.Some? && Held(s, dropped.value) == 1
  }

  /**
   * From s to s' one reference to dropped is given up and one to taken is new. A wrapper that
   * nothing holds any longer is off the ring, and destroyed if its adapter can do that;
   * every other wrapper keeps its place, and all it has but its count.
   */
  ghost predicate Moved<T, H, P>(s: Shell<T, H, P>, s': Shell<T, H, P>, dropped: Option<T>, taken: Option<T>)
    requires dropped.Some? ==> dropped.value in s.core.tokens
  {
    && (forall t :: t in s.core.tokens ==> Held(s', t) == Held(s, t) - One(dropped, t) + One(taken, t))
    && s'.core.tokens.Keys == (if Ends(s, dropped) then s.core.tokens.Keys - {dropped.value} else s.core.tokens.Keys)
    && (forall t :: t in s'.core.tokens ==> Kept(s.core.tokens, s'.core.tokens, t, Held(s', t)))
    && (if Ends(s, dropped) then TakenOut(s.core.ring, s'.core.ring, dropped.value) else s'.core.ring == s.core.ring)
    && s'.core.destroyed ==
       s.core.destroyed + if Ends(s, dropped) then Destroys(s.core.tokens[dropped.value]) else []
  }

  ghost predicate Kept<T>(m: map<T, TokenData>, m': map<T, TokenData>, t: T, n: nat)
    requires t in m'
  {
    && t in m && m'[t].refCount == n
    && m'[t].magic == m[t].magic && m'[t].raw == m[t].raw && m'[t].adapter == m[t].adapter
  }

  ghost predicate TakenOut<T>(ring: seq<T>, ring': seq<T>, t: T) {
    exists k :: 0 <= k < |ring| && ring[k] == t && ring' == Remove(ring, k)
  }

  function Destroys(d: TokenData): seq<int> {
    if d.adapter.canDestroy then [d.raw] else []
  }

  // ---- one reference ----

  lemma DropMoves<T, H, P>(s: Shell<T, H, P>, s': Shell<T, H, P>, t: T)
    requires Inv(s) && t in s.core.tokens
    requires s'.core == Downref(s.core, t) && HoldersLive(s'.(core := s.core))
    requires forall u :: u in s.core.tokens ==> Held(s', u) == Held(s, u) - One(Some(t), u)
    ensures Inv(s') && Moved(s, s', Some(t), None)
  {
    hide Held, Distinct, Elems;
    DownrefLive(s, s', t);
    DownrefCore(s.core, t);
    MemberOfElems(t, s.core.ring);
    var k :| 0 <= k < |s.core.ring| && s.core.ring[k] == t;
    WithoutIsRemove(s.core.ring, k);
  }

  lemma TakeMoves<T, H, P>(s: Shell<T, H, P>, s': Shell<T, H, P>, t: T)
    requires Inv(s) && Room(s, Some(t))
    requires s'.core == Upref(s.core, t) && HoldersLive(s'.(core := s.core))
    requires forall u :: u in s.core.tokens ==> Held(s', u) == Held(s, u) + One(Some(t), u)
    ensures Inv(s') && Moved(s, s', None, Some(t))
  {
    hide Held, Distinct, Elems;
    UprefLive(s, s', t);
    UprefCore(s.core, t);
  }

  /** What is not live is held by nobody. */
  lemma GoneIsFree<T, H, P>(s: Shell<T, H, P>, t: T)
    requires Inv(s) && t !in s.core.tokens
    ensures Held(s, t) == 0
  {
    assert Fiber(s.handles, t) == {} && Fiber(s.parents, Wrapped(t)) == {};
  }

  /** First one given up, then one taken. */
  lemma MovedBoth<T, H, P>(
      s: Shell<T, H, P>, m: Shell<T, H, P>, s': Shell<T, H, P>, dropped: Option<T>, taken: Option<T>)
    requires dropped.Some? ==> dropped.value in s.core.tokens
    requires Moved(s, m, dropped, None) && Moved(m, s', None, taken) && Inv(s')
    requires taken.Some? ==> taken.value in m.core.tokens
    ensures Moved(s, s', dropped, taken)
  {
    hide Held, Inv, TakenOut;
    if Ends(s, dropped) {
      GoneIsFree(s', dropped.value);
    }
  }

  // ---- the API calls ----

  /** fpgaClose: the handle is gone, and with it its reference to the token. */
  lemma CloseDoes<T, H, P>(s: Shell<T, H, P>, h: H)
    requires Inv(s) && h in s.handles
    ensures Close(s, h).handles == s.handles - {h}
    ensures Close(s, h).owned == s.owned && Close(s, h).parents == s.parents
    ensures Moved(s, Close(s, h), Some(s.handles[h]), None)
    ensures s.handles[h] in Close(s, h).core.tokens <==> 1 < Held(s, s.handles[h])
  {
    hide Moved, CoreInv, Counted, Downref, Fiber;
    var t := s.handles[h];
    forall u | u in s.core.tokens
      ensures Held(Close(s, h), u) == Held(s, u) - One(Some(t), u)
    {
      FiberRemove(s.handles, h, u);
    }
    DropMoves(s, Close(s, h), t);
    DownrefLive(s, Close(s, h), t);
  }

  /** fpgaOpen: the handle refers to the token and holds a reference to it. */
  lemma OpenDoes<T, H, P>(s: Shell<T, H, P>, t: T, h: H)
    requires Inv(s) && Room(s, Some(t)) && h !in s.handles
    ensures Open(s, t, h).handles == s.handles[h := t]
    ensures Open(s, t, h).owned == s.owned && Open(s, t, h).parents == s.parents
    ensures Moved(s, Open(s, t, h), None, Some(t))
  {
    hide Moved, CoreInv, Counted, Upref, Fiber;
    forall u | u in s.core.tokens
      ensures Held(Open(s, t, h), u) == Held(s, u) + One(Some(t), u)
    {
      FiberAdd(s.handles, h, t, u);
    }
    TakeMoves(s, Open(s, t, h), t);
  }

  /** Closing the handle just opened leaves everything as it was. */
  lemma OpenThenClose<T, H, P>(s: Shell<T, H, P>, t: T, h: H)
    requires Inv(s) && Room(s, Some(t)) && h !in s.handles
    ensures h in Open(s, t, h).handles && Open(s, t, h).handles[h] in Open(s, t, h).core.tokens
    ensures Close(Open(s, t, h), h) == s
  {
    hide CoreInv, Held;
    var c := Upref(s.core, t);
    assert c.tokens[t].refCount == s.core.tokens[t].refCount + 1;
    assert Downref(c, t).tokens == s.core.tokens;
    assert s.handles[h := t] - {h} == s.handles;
  }

  /** fpgaDestroyToken: the client has one reference to the token less. */
  lemma DestroyTokenDoes<T, H, P>(s: Shell<T, H, P>, t: T)
    requires Inv(s) && t in s.core.tokens && 0 < Owned(s, t)
    ensures forall u :: Owned(DestroyToken(s, t), u) == Owned(s, u) - One(Some(t), u)
    ensures DestroyToken(s, t).handles == s.handles && DestroyToken(s, t).parents == s.parents
    ensures Moved(s, DestroyToken(s, t), Some(t), None)
  {
    hide Moved, CoreInv, Counted, Downref, Fiber;
    DropMoves(s, DestroyToken(s, t), t);
  }

  /** What a release of a reference to t returns. */
  lemma DownrefTells<T, H, P>(s: Shell<T, H, P>, t: T, destroyed: FpgaResult)
    requires Inv(s) && t in s.core.tokens
    ensures 1 < Held(s, t) ==> DownrefResult(s.core, t, destroyed) == Ok
    ensures Held(s, t) == 1 && s.core.tokens[t].adapter.canDestroy ==>
              DownrefResult(s.core, t, destroyed) == destroyed
    ensures Held(s, t) == 1 && !s.core.tokens[t].adapter.canDestroy ==>
              DownrefResult(s.core, t, destroyed) == NotSupported
  {
  }

  /** A token new to the client: held once, first on the ring, all others as they were. */
  lemma NewTokenDoes<T, H, P>(s: Shell<T, H, P>, t: T, raw: int, adapter: Adapter)
    requires Inv(s) && t !in s.core.tokens && raw !in s.core.destroyed
    requires forall u :: u in s.core.tokens ==> s.core.tokens[u].raw != raw
    ensures forall u :: Owned(NewToken(s, t, raw, adapter), u) == Owned(s, u) + One(Some(t), u)
    ensures forall u :: Held(NewToken(s, t, raw, adapter), u) == Held(s, u) + One(Some(t), u)
    ensures NewToken(s, t, raw, adapter).handles == s.handles && NewToken(s, t, raw, adapter).parents == s.parents
    ensures NewToken(s, t, raw, adapter).core.ring == [t] + s.core.ring
    ensures NewToken(s, t, raw, adapter).core.tokens ==
              s.core.tokens[t := TokenData(WRAPPED_TOKEN_MAGIC, raw, 1, adapter)]
    ensures NewToken(s, t, raw, adapter).core.destroyed == s.core.destroyed
  {
    hide CoreInv, Fiber;
    AllocateCore(s.core, t, raw, adapter);
  }

  /** A clone without a wrapper is destroyed; nothing else happens. */
  lemma FailedCloneDoes<T, H, P>(s: Shell<T, H, P>, raw: int)
    ensures FailedClone(s, raw).core.destroyed == s.core.destroyed + [raw]
    ensures FailedClone(s, raw).(core := s.core) == s
    ensures FailedClone(s, raw).core.(destroyed := s.core.destroyed) == s.core
  {
  }

  /** The reference of an optional parent, taken by a p that holds none. */
  lemma AttachDoes<T, H, P>(s: Shell<T, H, P>, p: P, parent: Option<T>)
    requires Inv(s) && Room(s, parent) && (p in s.parents ==> !s.parents[p].Wrapped?)
    ensures Attach(s, p, parent).parents == s.parents[p := AsParent(parent)]
    ensures Attach(s, p, parent).handles == s.handles && Attach(s, p, parent).owned == s.owned
    ensures Inv(Attach(s, p, parent)) && Moved(s, Attach(s, p, parent), None, parent)
  {
    hide Moved, CoreInv, Counted, Upref, Fiber;
    AttachKeeps(s, p, parent);
    match parent
    case None =>
      FreeParentMoves(s, p, NoParent);
    case Some(t) =>
      forall u | u in s.core.tokens
        ensures Held(Attach(s, p, parent), u) == Held(s, u) + One(parent, u)
      {
        if p in s.parents {
          FiberSet(s.parents, p, Wrapped(t), Wrapped(u));
        } else {
          FiberAdd(s.parents, p, Wrapped(t), Wrapped(u));
        }
      }
      TakeMoves(s, Attach(s, p, parent), t);
  }

  function AsParent<T>(o: Option<T>): Parent<T> {
    match o
    case None => NoParent
    case Some(t) => Wrapped(t)
  }

  /** A parent that is not a wrapped token is no reference. */
  lemma FreeParentMoves<T, H, P>(s: Shell<T, H, P>, p: P, parent: Parent<T>)
    requires Inv(s) && !parent.Wrapped? && (p in s.parents ==> !s.parents[p].Wrapped?)
    ensures Moved(s, s.(parents := s.parents[p := parent]), None, None)
  {
    hide CoreInv, Fiber;
    var s' := s.(parents := s.parents[p := parent]);
    forall u | u in s.core.tokens
      ensures Held(s', u) == Held(s, u)
    {
      if p in s.parents {
        FiberSet(s.parents, p, parent, Wrapped(u));
      } else {
        FiberAdd(s.parents, p, parent, Wrapped(u));
      }
    }
  }

  /** fpgaClearProperties: no parent, and no reference to the old one. */
  lemma DetachDoes<T, H, P>(s: Shell<T, H, P>, p: P)
    requires Inv(s) && p in s.parents
    requires s.parents[p].Wrapped? ==> s.parents[p].token in s.core.tokens
    ensures Detach(s, p).parents == s.parents[p := NoParent]
    ensures Detach(s, p).handles == s.handles && Detach(s, p).owned == s.owned
    ensures Inv(Detach(s, p)) && Moved(s, Detach(s, p), AsOption(s.parents[p]), None)
  {
    hide Moved, CoreInv, Counted, Downref, Fiber;
    DetachKeeps(s, p);
    match s.parents[p]
    case Wrapped(t) =>
      forall u | u in s.core.tokens
        ensures Held(Detach(s, p), u) == Held(s, u) - One(Some(t), u)
      {
        FiberSet(s.parents, p, NoParent, Wrapped(u));
      }
      DropMoves(s, Detach(s, p), t);
    case _ =>
      FreeParentMoves(s, p, NoParent);
  }

  /** fpgaDestroyProperties: the object is gone, and the reference it held. */
  lemma DestroyPropertiesDoes<T, H, P>(s: Shell<T, H, P>, p: P)
    requires Inv(s) && p in s.parents
    requires s.parents[p].Wrapped? ==> s.parents[p].token in s.core.tokens
    ensures DestroyProperties(s, p).parents == s.parents - {p}
    ensures DestroyProperties(s, p).handles == s.handles && DestroyProperties(s, p).owned == s.owned
    ensures Moved(s, DestroyProperties(s, p), AsOption(s.parents[p]), None)
  {
    hide Moved, Inv, Detach, Held;
    var m, s' := Detach(s, p), DestroyProperties(s, p);
    DetachDoes(s, p);
    RemoveParentKeeps(m, p);
    assert m.parents - {p} == s.parents - {p};
    assert Moved(m, s', None, None) by {
      RemovedMoves(m, p);
    }
    MovedBoth(s, m, s', AsOption(s.parents[p]), None);
  }

  lemma RemovedMoves<T, H, P>(s: Shell<T, H, P>, p: P)
    requires Inv(s) && p in s.parents && !s.parents[p].Wrapped?
    ensures Moved(s, s.(parents := s.parents - {p}), None, None)
  {
    hide CoreInv, Fiber;
    var s' := s.(parents := s.parents - {p});
    forall u | u in s.core.tokens
      ensures Held(s', u) == Held(s, u)
    {
      FiberRemove(s.parents, p, Wrapped(u));
    }
  }

  /** fpgaPropertiesSetParent: one reference goes from the old parent to the new one. */
  lemma SetParentDoes<T, H, P>(s: Shell<T, H, P>, p: P, parent: Parent<T>)
    requires Inv(s) && p in s.parents
    requires s.parents[p].Wrapped? ==> s.parents[p].token in s.core.tokens
    requires parent.Wrapped? ==> parent.token in Detach(s, p).core.tokens
    requires Room(Detached(s, p), AsOption(parent))
    ensures SetParent(s, p, parent).parents == s.parents[p := parent]
    ensures SetParent(s, p, parent).handles == s.handles && SetParent(s, p, parent).owned == s.owned
    ensures Moved(s, SetParent(s, p, parent), AsOption(s.parents[p]), AsOption(parent))
  {
    hide Moved, Inv, Detach, Attach, Held;
    var m, s' := Detach(s, p), SetParent(s, p, parent);
    DetachDoes(s, p);
    if parent.Wrapped? {
      AttachDoes(m, p, Some(parent.token));
    } else {
      FreeParentMoves(m, p, parent);
      SetFreeParentKeeps(m, p, parent);
    }
    assert m.parents[p := parent] == s.parents[p := parent];
    MovedBoth(s, m, s', AsOption(s.parents[p]), AsOption(parent));
  }

  /** fpgaUpdateProperties: the old parent is given up, and the one found taken if the adapter succeeds. */
  lemma UpdatePropertiesDoes<T, H, P>(s: Shell<T, H, P>, p: P, adapterOk: bool, parent: Option<T>)
    requires Inv(s) && p in s.parents
    requires s.parents[p].Wrapped? ==> s.parents[p].token in s.core.tokens
    requires adapterOk ==> Room(Detached(s, p), parent) && (parent.Some? ==> parent.value in Detach(s, p).core.tokens)
    ensures var s' := UpdateProperties(s, p, adapterOk, parent);
            && s'.parents == s.parents[p := if adapterOk then AsParent(parent) else NoParent]
            && s'.handles == s.handles && s'.owned == s.owned
            && Moved(s, s', AsOption(s.parents[p]), if adapterOk then parent else None)
  {
    hide Moved, Inv, Detach, Attach, Held;
    var m := Detach(s, p);
    DetachDoes(s, p);
    if adapterOk {
      AttachDoes(m, p, parent);
      assert m.parents[p := AsParent(parent)] == s.parents[p := AsParent(parent)];
      MovedBoth(s, m, Attach(m, p, parent), AsOption(s.parents[p]), parent);
    }
  }

  /** fpgaCloneProperties: the same parent, with a reference of its own. */
  lemma ClonePropertiesDoes<T, H, P>(s: Shell<T, H, P>, src: P, dst: P)
    requires Inv(s) && src in s.parents && dst !in s.parents
    requires s.parents[src].Wrapped? ==> s.parents[src].token in s.core.tokens
    requires Room(s, AsOption(s.parents[src]))
    ensures CloneProperties(s, src, dst).parents == s.parents[dst := s.parents[src]]
    ensures CloneProperties(s, src, dst).handles == s.handles && CloneProperties(s, src, dst).owned == s.owned
    ensures Moved(s, CloneProperties(s, src, dst), None, AsOption(s.parents[src]))
  {
    hide Moved, Inv, Attach, Held;
    if s.parents[src].Wrapped? {
      AttachDoes(s, dst, Some(s.parents[src].token));
    } else {
      FreeParentMoves(s, dst, s.parents[src]);
    }
  }

  /** fpgaGetProperties without a token: an object without a parent. */
  lemma NewPropertiesDoes<T, H, P>(s: Shell<T, H, P>, p: P)
    requires Inv(s) && p !in s.parents
    ensures NewProperties(s, p).parents == s.parents[p := NoParent]
    ensures NewProperties(s, p).handles == s.handles && NewProperties(s, p).owned == s.owned
    ensures Moved(s, NewProperties(s, p), None, None)
  {
    hide Moved;
    FreeParentMoves(s, p, NoParent);
  }

  // ---- the parent ----

  /**
   * A token has a parent exactly when its adapter answers, there is memory for the scan, it
   * is an accelerator, and some device on the ring at its address comes before every wrapper
   * that fails to answer; the parent is the newest such device.
   */
  lemma ParentIff<T>(c: Core<T>, child: T, query: int -> Query, mallocOk: bool)
    requires CoreInv(c) && child in c.tokens
    ensures forall i :: 0 <= i < |c.ring| ==> c.ring[i] in c.tokens
    ensures var q := query(c.tokens[child].raw);
            && (ParentOf(c, child, query, mallocOk).Some? <==>
                  && c.tokens[child].adapter.canUpdate && mallocOk && q.Accelerator?
                  && exists k :: 0 <= k < |c.ring| && IsNewestMatch(c.ring, c.tokens, query, q, k))
            && (c.tokens[child].adapter.canUpdate && mallocOk && q.Accelerator? ==>
                  forall k :: 0 <= k < |c.ring| && IsNewestMatch(c.ring, c.tokens, query, q, k) ==>
                    ParentOf(c, child, query, mallocOk) == Some(c.ring[k]))
  {
    ParentIsLiveDevice(c, child, query, mallocOk);
    var q := query(c.tokens[child].raw);
    if q.Accelerator? {
      FindParentNewest(c.ring, c.tokens, query, q);
    }
  }
}
