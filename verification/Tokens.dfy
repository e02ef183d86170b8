/** The ring of wrapped tokens, relinked in place. */
module TokenRing {
  import opened Lists
  import opened Rings
  import opened Results
  import opened TokenSpec
  import opened Word
  import opened TokenProofs

  type WrappedToken = Link<TokenData>

  class TokenList {
    const ring: Ring<TokenData>

    /** The live wrappers and the adapters' destroy calls so far. */
    ghost var core: Core<WrappedToken>

    ghost function Repr(): set<object>
      reads this, ring
    {
      {this} + ring.Repr() + core.tokens.Keys
    }

    /** The heap holds what core says; a wrapper need not be on the ring yet. */
    ghost predicate Ties()
      reads this, ring, Repr()
    {
      && this !in ring.Repr() && ring.head !in core.tokens.Keys
      && ring.Valid()
      && core.ring == ring.nodes
      && ring.members <= core.tokens.Keys
      && forall t :: t in core.tokens ==> t.data == core.tokens[t]
    }

    ghost predicate Valid()
      reads this, ring, Repr()
    {
      Ties() && CoreInv(core)
    }

    constructor ()
      ensures Valid() && fresh(Repr()) && core == Core([], map[], [])
    {
      ring := new Ring(TokenData(0, 0, 0, Adapter(0, false, false, false, false, false, false, false)));
      core := Core([], map[], []);
    }

    /** Give a live wrapper new data, whether it is on the ring or not. */
    method SetData(wt: WrappedToken, d: TokenData)
      requires Ties() && wt in core.tokens
      modifies this`core, ring`view, wt`data
      ensures Ties() && core == old(core).(tokens := old(core.tokens)[wt := d])
    {
      wt.data := d;
      core := core.(tokens := core.tokens[wt := d]);
      if wt in ring.members {
        ghost var k :| 0 <= k < |ring.nodes| && ring.nodes[k] == wt;
        ring.view := ring.view[k := d];
      }
    }

    method Upref(wt: WrappedToken)
      requires Ties() && wt in core.tokens
      requires wt in ring.members <==> 0 < core.tokens[wt].refCount
      modifies Repr()
      ensures Ties() && core == TokenSpec.Upref(old(core), wt)
    {
      hide Linked, Distinct, Elems, Ring.Valid;
      SetData(wt, wt.data.(refCount := Wrap32(wt.data.refCount + 1)));
      if wt.data.refCount == 1 {
        LinkFirst(wt);
      }
    }

    /** Link a wrapper between the sentinel and what follows it. */
    method LinkFirst(wt: WrappedToken)
      requires Ties() && wt in core.tokens && wt !in ring.members
      modifies Repr()
      ensures Ties() && Repr() == old(Repr()) && core == old(core).(ring := [wt] + old(core.ring))
    {
      hide Linked, Distinct, Elems, Insert;
      InsertFirst(ring.nodes, wt);
      ring.Here(0);
      ring.LinkBefore(wt, ring.head.next, 0);
      core := core.(ring := [wt] + core.ring);
    }

    method Allocate(raw: int, adapter: Adapter, mallocOk: bool) returns (wt: Link?<TokenData>)
      requires Valid()
      modifies Repr()
      ensures Ties() && fresh(Repr() - old(Repr()))
      ensures wt != null <==> mallocOk
      ensures wt == null ==> core == old(core) && Repr() == old(Repr())
      ensures wt != null ==> fresh(wt) && core == TokenSpec.Allocate(old(core), wt, raw, adapter)
    {
      hide Linked;
      if !mallocOk {
        return null;
      }
      var node := new Link(TokenData(WRAPPED_TOKEN_MAGIC, raw, 0, adapter));
      core := core.(tokens := core.tokens[node := node.data]);
      Upref(node);
      return node;
    }

    /** Take a live wrapper off the ring. */
    method Unlink(wt: WrappedToken)
      requires Ties() && Distinct(core.ring) && wt in core.tokens && wt in Elems(core.ring)
      modifies Repr()
      ensures Ties() && Repr() == old(Repr()) && wt !in ring.members
      ensures core == old(core).(ring := Without(old(core.ring), wt))
    {
      hide Linked, Without, Remove;
      MemberOfElems(wt, ring.nodes);
      ghost var k :| 0 <= k < |ring.nodes| && ring.nodes[k] == wt;
      WithoutIsRemove(ring.nodes, k);
      ring.Here(k);
      ring.LinkUnlink(wt, k);
      core := core.(ring := ring.nodes);
    }

    /** The end of a wrapper: unlinked, its magic cleared, its token destroyed, itself freed. */
    method Dispose(wt: WrappedToken, destroyed: FpgaResult) returns (res: FpgaResult)
      requires Valid() && wt in core.tokens
      modifies Repr()
      ensures Ties() && Repr() <= old(Repr())
      ensures core == Core(Without(old(core.ring), wt), old(core.tokens) - {wt},
                           if old(core.tokens)[wt].adapter.canDestroy
                           then old(core.destroyed) + [old(core.tokens)[wt].raw] else old(core.destroyed))
      ensures res == if old(core.tokens)[wt].adapter.canDestroy then destroyed else NotSupported
    {
      hide Linked, Without, Distinct, Elems, Ring.Valid;
      Unlink(wt);
      wt.data := wt.data.(magic := 0);
      core := core.(tokens := core.tokens - {wt});
      if wt.data.adapter.canDestroy {
        core := core.(destroyed := core.destroyed + [wt.data.raw]);
        return destroyed;
      }
      return NotSupported;
    }

    method Downref(wt: WrappedToken, destroyed: FpgaResult) returns (res: FpgaResult)
      requires Valid() && wt in core.tokens
      modifies Repr()
      ensures Ties() && Repr() <= old(Repr())
      ensures core == TokenSpec.Downref(old(core), wt)
      ensures res == DownrefResult(old(core), wt, destroyed)
    {
      hide Linked, Without;
      var n := Wrap32(wt.data.refCount - 1);
      if n == 0 {
        res := Dispose(wt, destroyed);
      } else {
        SetData(wt, wt.data.(refCount := n));
        res := Ok;
      }
    }

    /**
     * opae_get_parent_token with what the adapters answer in query and malloc in mallocOk,
     * up to the reference that the caller then takes.
     */
    method GetParentToken(child: WrappedToken, query: int -> Query, mallocOk: bool)
      returns (parent: Link?<TokenData>)
      requires Valid() && child in core.tokens
      ensures forall i :: 0 <= i < |core.ring| ==> core.ring[i] in core.tokens
      ensures parent == FromOption(ParentOf(core, child, query, mallocOk))
    {
      ParentIsLiveDevice(core, child, query, mallocOk);
      if !child.data.adapter.canUpdate || !mallocOk {
        return null;
      }
      match query(child.data.raw) {
        case Accelerator(segment, bus, device) =>
          parent := Scan(query, segment, bus, device);
        case _ =>
          parent := null;
      }
    }

    /** The walk over the ring, newest wrapper first. */
    method Scan(query: int -> Query, segment: int, bus: int, device: int) returns (parent: Link?<TokenData>)
      requires Ties() && forall i :: 0 <= i < |core.ring| ==> core.ring[i] in core.tokens
      ensures parent == FromOption(FindParent(core.ring, core.tokens, query, Accelerator(segment, bus, device)))
    {
      hide Linked;
      ghost var q := Accelerator(segment, bus, device);
      ring.Here(0);
      var p := ring.head.next;
      ghost var k := 0;
      assert core.ring[0..] == core.ring;
      while p != ring.head
        invariant k <= |ring.nodes| && p == ring.At(k)
        invariant FindParent(core.ring[k..], core.tokens, query, q) == FindParent(core.ring, core.tokens, query, q)
        decreases |ring.nodes| - k
      {
        ring.Here(k);
        assert core.ring[k..][0] == p && core.ring[k..][1..] == core.ring[k + 1..];
        if p.data.adapter.canUpdate {
          match query(p.data.raw) {
            case Fails =>
              return null;
            case Device(s, b, d) =>
              if s == segment && b == bus && d == device {
                return p;
              }
            case _ =>
          }
        }
        p, k := p.next, k + 1;
      }
      return null;
    }
  }

  function FromOption(o: Option<WrappedToken>): Link?<TokenData> {
    if o.Some? then o.value else null
  }
}
