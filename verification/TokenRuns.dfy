/** What the token wrappers promise over whole runs of API calls. */
module TokenRuns {
  import opened Lists
  import opened Results
  import opened TokenSpec
  import opened Word
  import opened TokenProofs

  /** One API call that got as far as touching references, with what it was answered. */
  datatype Op<T, H, P> =
    | ANewToken(t: T, raw: int, adapter: Adapter)
    | AFailedClone(raw: int)
    | ADestroyToken(t: T)
    | AOpen(t: T, h: H)
    | AClose(h: H)
    | ANewProperties(p: P)
    | AGetProperties(t: T, p: P, query: int -> Query, mallocOk: bool)
    | AUpdateProperties(t: T, p: P, adapterOk: bool, query: int -> Query, mallocOk: bool)
    | ADestroyProperties(p: P)
    | ACloneProperties(src: P, dst: P)
    | AClearProperties(p: P)
    | ASetParent(p: P, parent: Parent<T>)

  /** The parent a scan finds in s for the properties of t; none outside the invariant. */
  ghost function Found<T, H, P>(s: Shell<T, H, P>, t: T, query: int -> Query, mallocOk: bool): Option<T>
    requires Inv(s) && t in s.core.tokens
  {
    ParentIsLiveDevice(s.core, t, query, mallocOk);
    ParentOf(s.core, t, query, mallocOk)
  }

  /**
   * What callers owe: they use live tokens, handles and properties; they give back only
   * tokens of their own; a token they pass survives the drop of an old parent; and no
   * token is held 2^32 - 1 times.
   */
  ghost predicate Allowed<T, H, P>(s: Shell<T, H, P>, op: Op<T, H, P>)
    requires Inv(s)
  {
    match op
    case ANewToken(t, raw, _) =>
      t !in s.core.tokens && raw !in s.core.destroyed && forall u :: u in s.core.tokens ==> s.core.tokens[u].raw != raw
    case AFailedClone(raw) =>
      raw !in s.core.destroyed && forall u :: u in s.core.tokens ==> s.core.tokens[u].raw != raw
    case ADestroyToken(t) => t in s.core.tokens && 0 < Owned(s, t)
    case AOpen(t, h) => t in s.core.tokens && h !in s.handles && Held(s, t) < TWO_32 - 1
    case AClose(h) => h in s.handles
    case ANewProperties(p) => p !in s.parents
    case AGetProperties(t, p, query, mallocOk) =>
      t in s.core.tokens && p !in s.parents && Room(s, Found(s, t, query, mallocOk))
    case AUpdateProperties(t, p, _, query, mallocOk) =>
      && t in s.core.tokens && p in s.parents && Survives(s, p, t)
      && Room(Detached(s, p), Found(Detached(s, p), t, query, mallocOk))
    case ADestroyProperties(p) => p in s.parents
    case ACloneProperties(src, dst) =>
      src in s.parents && dst !in s.parents && Room(s, AsOption(s.parents[src]))
    case AClearProperties(p) => p in s.parents
    case ASetParent(p, parent) =>
      && p in s.parents
      && (parent.Wrapped? ==>
            parent.token in s.core.tokens && Survives(s, p, parent.token) && Room(Detached(s, p), Some(parent.token)))
  }

  function AsOption<T>(parent: Parent<T>): Option<T> {
    if parent.Wrapped? then Some(parent.token) else None
  }

  /** Dropping the parent of p does not take the last reference to t. */
  ghost predicate Survives<T, H, P>(s: Shell<T, H, P>, p: P, t: T)
    requires p in s.parents
  {
    !(s.parents[p] == Wrapped(t) && Held(s, t) == 1)
  }

  ghost function Detached<T, H, P>(s: Shell<T, H, P>, p: P): (s': Shell<T, H, P>)
    requires Inv(s) && p in s.parents
    ensures Inv(s') && s'.parents == s.parents[p := NoParent]
    ensures forall t :: t in s.core.tokens && Survives(s, p, t) ==> t in s'.core.tokens
  {
    DetachKeeps(s, p);
    Detach(s, p)
  }

  ghost function Step<T, H, P>(s: Shell<T, H, P>, op: Op<T, H, P>): Shell<T, H, P>
    requires Inv(s) && Allowed(s, op)
  {
    match op
    case ANewToken(t, raw, adapter) => NewToken(s, t, raw, adapter)
    case AFailedClone(raw) => FailedClone(s, raw)
    case ADestroyToken(t) => DestroyToken(s, t)
    case AOpen(t, h) => Open(s, t, h)
    case AClose(h) => Close(s, h)
    case ANewProperties(p) => NewProperties(s, p)
    case AGetProperties(t, p, query, mallocOk) => Attach(s, p, Found(s, t, query, mallocOk))
    case AUpdateProperties(t, p, adapterOk, query, mallocOk) =>
      UpdateProperties(s, p, adapterOk, Found(Detached(s, p), t, query, mallocOk))
    case ADestroyProperties(p) => DestroyProperties(s, p)
    case ACloneProperties(src, dst) => CloneProperties(s, src, dst)
    case AClearProperties(p) => Detach(s, p)
    case ASetParent(p, parent) => SetParent(s, p, parent)
  }

  lemma ChangeParentKeeps<T, H, P>(s: Shell<T, H, P>, op: Op<T, H, P>)
    requires Inv(s) && Allowed(s, op)
    requires op.AUpdateProperties? || op.ASetParent? || op.AClearProperties? || op.ADestroyProperties?
    ensures Inv(Step(s, op))
  {
    hide Inv, Detach, Attach, Held;
    var s' := Detached(s, op.p);
    match op
    case AUpdateProperties(t, p, adapterOk, query, mallocOk) =>
      if adapterOk {
        AttachKeeps(s', p, Found(s', t, query, mallocOk));
      }
    case ASetParent(p, parent) =>
      if parent.Wrapped? {
        AttachKeeps(s', p, Some(parent.token));
      } else {
        SetFreeParentKeeps(s', p, parent);
      }
    case AClearProperties(p) =>
    case ADestroyProperties(p) =>
      RemoveParentKeeps(s', p);
  }

  lemma StepKeeps<T, H, P>(s: Shell<T, H, P>, op: Op<T, H, P>)
    requires Inv(s) && Allowed(s, op)
    ensures Inv(Step(s, op))
  {
    hide Inv, Detach, Attach, Found, Held;
    match op
    case ANewToken(t, raw, adapter) => NewTokenKeeps(s, t, raw, adapter);
    case AFailedClone(raw) => FailedCloneKeeps(s, raw);
    case ADestroyToken(t) => DestroyTokenKeeps(s, t);
    case AOpen(t, h) => OpenKeeps(s, t, h);
    case AClose(h) => CloseKeeps(s, h);
    case ANewProperties(p) => SetFreeParentKeeps(s, p, NoParent);
    case AGetProperties(t, p, query, mallocOk) => AttachKeeps(s, p, Found(s, t, query, mallocOk));
    case ACloneProperties(src, dst) =>
      if s.parents[src].Wrapped? {
        AttachKeeps(s, dst, Some(s.parents[src].token));
      } else {
        SetFreeParentKeeps(s, dst, s.parents[src]);
      }
    case _ => ChangeParentKeeps(s, op);
  }

  /** The state after an allowed run, which keeps the reference-count equation throughout. */
  ghost predicate Runs<T, H, P>(s: Shell<T, H, P>, ops: seq<Op<T, H, P>>, end: Shell<T, H, P>)
    requires Inv(s)
    decreases |ops|
  {
    if ops == [] then end == s
    else Allowed(s, ops[0]) && (StepKeeps(s, ops[0]); Runs(Step(s, ops[0]), ops[1..], end))
  }

  /**
   * After every allowed run of API calls each live wrapper's ref_count is the number of the
   * client's references, open handles and properties with it as parent, and the ring holds
   * exactly the wrappers for which that number is positive.
   */
  lemma {:induction false} RunCountsExactly<T, H, P>(s: Shell<T, H, P>, ops: seq<Op<T, H, P>>, end: Shell<T, H, P>)
    requires Inv(s) && Runs(s, ops, end)
    ensures Inv(end)
    ensures forall t :: t in end.core.tokens ==> end.core.tokens[t].refCount == Held(end, t)
    ensures forall t :: t in end.core.ring ==> 0 < Held(end, t)
    ensures forall t :: t !in end.core.ring ==> Held(end, t) == 0
    decreases |ops|
  {
    if ops == [] {
      forall t | t in s.core.ring
        ensures 0 < Held(s, t)
      {
        MemberOfElems(t, s.core.ring);
      }
      forall t | t !in s.core.ring
        ensures Held(s, t) == 0
      {
        MemberOfElems(t, s.core.ring);
        assert Fiber(s.handles, t) == {} && Fiber(s.parents, Wrapped(t)) == {};
      }
    } else {
      StepKeeps(s, ops[0]);
      RunCountsExactly(Step(s, ops[0]), ops[1..], end);
    }
  }

  /**
   * The adapter destroys each of its tokens at most once, and never one from which a handle
   * is still open.
   */
  lemma DestroyedOnceAndNeverWhileOpen<T, H, P>(
      s: Shell<T, H, P>, ops: seq<Op<T, H, P>>, end: Shell<T, H, P>)
    requires Inv(s) && Runs(s, ops, end)
    ensures Distinct(end.core.destroyed)
    ensures forall h :: h in end.handles ==>
              && end.handles[h] in end.core.tokens
              && end.core.tokens[end.handles[h]].raw !in end.core.destroyed
  {
    RunCountsExactly(s, ops, end);
  }

  /** Once everything is given back no wrapper is left. */
  lemma AllReturnedLeavesNothing<T, H, P>(s: Shell<T, H, P>, ops: seq<Op<T, H, P>>, end: Shell<T, H, P>)
    requires Inv(s) && Runs(s, ops, end)
    requires end.owned == map[] && end.handles == map[]
    requires forall p :: p in end.parents ==> !end.parents[p].Wrapped?
    ensures end.core.ring == [] && end.core.tokens == map[]
  {
    RunCountsExactly(s, ops, end);
    forall t
      ensures Held(end, t) == 0
    {
      assert Fiber(end.handles, t) == {} && Fiber(end.parents, Wrapped(t)) == {};
    }
    if end.core.ring != [] {
      HasMember(end.core.ring);
      assert false;
    }
    assert end.core.tokens.Keys == Elems<T>([]);
    assert end.core.tokens == map[];
  }

  /** A token of the client's own, or one with a handle open on it, is never taken away. */
  lemma OwnedOrOpenIsLive<T, H, P>(s: Shell<T, H, P>, t: T)
    requires Inv(s) && (0 < Owned(s, t) || exists h :: h in s.handles && s.handles[h] == t)
    ensures t in s.core.tokens && t in s.core.ring
  {
    MemberOfElems(t, s.core.ring);
  }
}
