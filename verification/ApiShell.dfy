/** Handles, properties objects and the API calls that move references between them. */
module ApiShellState {
  import opened Results
  import opened Rings
  import opened TokenSpec
  import opened TokenProofs
  import opened TokenRuns
  import opened TokenRing

  const WRAPPED_HANDLE_MAGIC: int := 0x6e616877
  const PROPERTY_MAGIC: int := 0x4650474150524f50

  /** An fpga_token: null, a wrapper of this library, or a token of an adapter. */
  datatype TokenPtr = NullPtr | WrappedPtr(w: WrappedToken) | RawPtr(raw: int)

  class WrappedHandle {
    var magic: int
    var token: WrappedToken
    var adapter: Adapter

    constructor (token: WrappedToken, adapter: Adapter)
      ensures magic == WRAPPED_HANDLE_MAGIC && this.token == token && this.adapter == adapter
    {
      magic, this.token, this.adapter := WRAPPED_HANDLE_MAGIC, token, adapter;
    }
  }

  class Properties {
    var magic: int
    var parentValid: bool
    var parent: TokenPtr

    constructor ()
      ensures magic == PROPERTY_MAGIC && !parentValid && parent == NullPtr
    {
      magic, parentValid, parent := PROPERTY_MAGIC, false, NullPtr;
    }

    ghost function Parent(): Parent<WrappedToken>
      reads this
    {
      AsParent(parentValid, parent)
    }
  }

  /** What the parent field means: nothing unless its valid bit is set. */
  function AsParent(valid: bool, parent: TokenPtr): Parent<WrappedToken> {
    if !valid then NoParent
    else
      match parent
      case WrappedPtr(w) => Wrapped(w)
      case RawPtr(raw) => Unwrapped(raw)
      case NullPtr => NoParent
  }

  type State = Shell<WrappedToken, WrappedHandle, Properties>

  class ApiShell {
    const tokens: TokenList
    ghost var state: State

    ghost function Repr(): set<object>
      reads this, tokens, tokens.ring
    {
      {this} + tokens.Repr() + state.handles.Keys + state.parents.Keys
    }

    /** Handles and properties hold what state says and are apart from the tokens. */
    ghost predicate HoldersTie()
      reads this, tokens, tokens.ring, Repr()
    {
      && this !in tokens.Repr()
      && (forall h :: h in state.handles ==> h !in tokens.Repr())
      && (forall p :: p in state.parents ==> p !in tokens.Repr())
      && (forall h :: h in state.handles ==> h.magic == WRAPPED_HANDLE_MAGIC && h.token == state.handles[h])
      && (forall p :: p in state.parents ==> p.magic == PROPERTY_MAGIC && p.Parent() == state.parents[p])
    }

    ghost predicate Ties()
      reads this, tokens, tokens.ring, Repr()
    {
      HoldersTie() && tokens.Ties() && state.core == tokens.core
    }

    ghost predicate Valid()
      reads this, tokens, tokens.ring, Repr()
    {
      Ties() && Inv(state)
    }

    constructor ()
      ensures Valid() && fresh(Repr())
      ensures state == Shell(Core([], map[], []), map[], map[], map[])
    {
      tokens := new TokenList();
      state := Shell(Core([], map[], []), map[], map[], map[]);
    }

    // ---- references of properties objects ----

    /** A live wrapper is on the ring, with at least one reference and a valid magic. */
    lemma Live(w: WrappedToken)
      requires Valid() && w in state.core.tokens
      ensures w in tokens.ring.members && 0 < state.core.tokens[w].refCount == Held(state, w)
      ensures w.data == state.core.tokens[w] && w.data.magic == WRAPPED_TOKEN_MAGIC
    {
    }

    /** One reference more, with the ghost state following; its holder comes next. */
    method TakeReference(w: WrappedToken)
      requires Valid() && Room(state, Some(w))
      modifies tokens.Repr(), this`state
      ensures Ties() && Repr() == old(Repr())
      ensures state == old(state).(core := Upref(old(state).core, w))
    {
      hide Inv, Linked, Held, Upref, Ring.Valid;
      Live(w);
      UprefKeys(state.core, w);
      tokens.Upref(w);
      state := state.(core := tokens.core);
    }

    lemma UprefKeys(c: Core<WrappedToken>, w: WrappedToken)
      requires w in c.tokens
      ensures Upref(c, w).tokens.Keys == c.tokens.Keys
    {
    }

    /** Set the parent of p and the bit that makes it valid. */
    method Store(p: Properties, valid: bool, parent: TokenPtr)
      requires Ties() && p in state.parents
      modifies p, this`state
      ensures Ties() && Repr() == old(Repr())
      ensures state == old(state).(parents := old(state).parents[p := AsParent(valid, parent)])
    {
      hide TokenList.Ties, TokenList.Repr, AsParent;
      p.parentValid, p.parent := valid, parent;
      state := state.(parents := state.parents[p := AsParent(valid, parent)]);
    }

    /** Give p a parent, if there is one, and take the reference for it. */
    method AttachParent(p: Properties, parent: WrappedToken)
      requires Valid() && p in state.parents && !state.parents[p].Wrapped?
      requires Room(state, Some(parent))
      modifies Repr()
      ensures Valid() && Repr() == old(Repr())
      ensures state == Attach(old(state), p, Some(parent))
    {
      hide Inv, Ties, Held, Upref;
      AttachKeeps(state, p, Some(parent));
      TakeReference(parent);
      Store(p, true, WrappedPtr(parent));
    }

    /** Drop a reference whose holder is already gone from the ghost state. */
    method DropReference(w: WrappedToken, destroyed: FpgaResult) returns (res: FpgaResult)
      requires Ties() && CoreInv(state.core) && w in state.core.tokens
      modifies tokens.Repr(), this`state
      ensures Ties() && Repr() <= old(Repr())
      ensures state == old(state).(core := Downref(old(state).core, w))
      ensures res == DownrefResult(old(state).core, w, destroyed)
    {
      hide Linked, Downref, Ring.Valid, TokenList.Ties;
      res := tokens.Downref(w, destroyed);
      state := state.(core := tokens.core);
    }

    /** Leave p without a parent, dropping the reference of a wrapped one. */
    method DetachParent(p: Properties, destroyed: FpgaResult)
      requires Valid() && p in state.parents
      modifies Repr()
      ensures Valid() && Repr() <= old(Repr())
      ensures state == Detach(old(state), p)
      ensures p.Parent() == NoParent
    {
      hide Ties, Inv, Downref, Held;
      DetachKeeps(state, p);
      ParentOfLive(p);
      if p.parentValid && p.parent.WrappedPtr? {
        InvCore();
        ParentHeld(p);
        Live(p.parent.w);
        if p.parent.w.data.magic == WRAPPED_TOKEN_MAGIC {
          var _ := DropReference(p.parent.w, destroyed);
        }
      }
      Store(p, false, NullPtr);
      ParentOfLive(p);
    }

    lemma ParentOfLive(p: Properties)
      requires Ties() && p in state.parents
      ensures state.parents[p] == AsParent(p.parentValid, p.parent)
    {
    }

    lemma ParentHeld(p: Properties)
      requires Inv(state) && p in state.parents && state.parents[p].Wrapped?
      ensures state.parents[p].token in state.core.tokens
    {
    }

    // ---- tokens and handles ----

    /** A pointer a client may pass: null, foreign, or a live wrapper. */
    ghost predicate Passable(token: TokenPtr)
      reads this
    {
      token.WrappedPtr? ==> token.w in state.core.tokens
    }

    /** opae_validate_wrapped_token; no adapter token begins with the wrapper's magic. */
    method Validate(token: TokenPtr) returns (w: Link?<TokenData>)
      requires Valid() && Passable(token)
      ensures w == if token.WrappedPtr? then token.w else null
      ensures w != null ==> w.data == state.core.tokens[w]
    {
      if token.WrappedPtr? {
        Live(token.w);
      }
      if token.WrappedPtr? && token.w.data.magic == WRAPPED_TOKEN_MAGIC {
        return token.w;
      }
      return null;
    }

    method FpgaDestroyToken(token: TokenPtr, destroyed: FpgaResult) returns (res: FpgaResult)
      requires Valid() && Passable(token)
      requires token.WrappedPtr? ==> 0 < Owned(state, token.w)
      modifies Repr()
      ensures Valid() && Repr() <= old(Repr())
      ensures !token.WrappedPtr? ==> res == InvalidParam && state == old(state)
      ensures token.WrappedPtr? ==>
                && state == DestroyToken(old(state), token.w)
                && res == DownrefResult(old(state).core, token.w, destroyed)
    {
      hide Ties, Downref, Held, Inv, DestroyToken;
      var w := Validate(token);
      if w == null {
        return InvalidParam;
      }
      res := ReleaseOwned(w, destroyed);
    }

    /** opae_destroy_wrapped_token for a reference of the client's own. */
    method ReleaseOwned(w: WrappedToken, destroyed: FpgaResult) returns (res: FpgaResult)
      requires Valid() && w in state.core.tokens && 0 < Owned(state, w)
      modifies Repr()
      ensures Valid() && Repr() <= old(Repr())
      ensures state == DestroyToken(old(state), w) && res == DownrefResult(old(state).core, w, destroyed)
    {
      hide Ties, Downref, Held, Inv;
      InvCore();
      DestroyTokenKeeps(state, w);
      res := DropReference(w, destroyed);
      Disown(w);
    }

    /** The client's reference to w is gone. */
    ghost method Disown(w: WrappedToken)
      requires Ties() && 0 < Owned(state, w)
      modifies this`state
      ensures Ties() && Repr() == old(Repr())
      ensures state == old(state).(owned := if Owned(old(state), w) == 1 then old(state).owned - {w}
                                            else old(state).owned[w := old(state).owned[w] - 1])
    {
      hide TokenList.Ties;
      state := state.(owned := if Owned(state, w) == 1 then state.owned - {w}
                               else state.owned[w := state.owned[w] - 1]);
    }

    /** A wrapper for a token the adapter has just given to the client; null without memory. */
    method WrapNew(raw: int, adapter: Adapter, mallocOk: bool) returns (w: Link?<TokenData>)
      requires Valid() && raw !in state.core.destroyed
      requires forall u :: u in state.core.tokens ==> state.core.tokens[u].raw != raw
      modifies Repr()
      ensures Valid() && fresh(Repr() - old(Repr()))
      ensures w != null <==> mallocOk
      ensures w == null ==> state == old(state) && Repr() == old(Repr())
      ensures w != null ==> fresh(w) && state == NewToken(old(state), w, raw, adapter)
    {
      hide TokenList.Ties, Allocate, Inv, HoldersTie;
      w := AllocateBeside(raw, adapter, mallocOk);
      if w != null {
        NewTokenKeeps(state, w, raw, adapter);
        Own(w);
      }
    }

    /** A new wrapper is apart from all handles and properties. */
    method AllocateBeside(raw: int, adapter: Adapter, mallocOk: bool) returns (w: Link?<TokenData>)
      requires Valid()
      modifies tokens.Repr()
      ensures HoldersTie() && tokens.Ties() && fresh(Repr() - old(Repr()))
      ensures w != null <==> mallocOk
      ensures w == null ==> tokens.core == old(tokens.core) && Repr() == old(Repr())
      ensures w != null ==> fresh(w) && tokens.core == Allocate(old(tokens.core), w, raw, adapter)
    {
      hide TokenList.Ties, Allocate, Inv, CoreInv;
      InvCore();
      w := tokens.Allocate(raw, adapter, mallocOk);
    }

    /** The client has its first reference to a new wrapper. */
    ghost method Own(w: WrappedToken)
      requires HoldersTie() && tokens.Ties()
      modifies this`state
      ensures Ties() && Repr() == old(Repr())
      ensures state == old(state).(core := tokens.core, owned := old(state).owned[w := 1])
    {
      hide TokenList.Ties;
      state := state.(core := tokens.core, owned := state.owned[w := 1]);
    }

    lemma InvCore()
      requires Inv(state)
      ensures CoreInv(state.core)
    {
    }

    method FpgaCloneToken(src: TokenPtr, cloned: FpgaResult, raw: int, mallocOk: bool, destroyed: FpgaResult)
      returns (res: FpgaResult, dst: Link?<TokenData>)
      requires Valid() && Passable(src) && raw !in state.core.destroyed
      requires forall u :: u in state.core.tokens ==> state.core.tokens[u].raw != raw
      modifies Repr()
      ensures Valid() && fresh(Repr() - old(Repr()))
      ensures dst != null <==> res == Ok
      ensures dst != null ==>
                && src.WrappedPtr? && fresh(dst)
                && state == NewToken(old(state), dst, raw, old(state).core.tokens[src.w].adapter)
      ensures dst == null && src.WrappedPtr? && res == NoMemory && cloned == Ok ==>
                state == FailedClone(old(state), raw)
      ensures dst == null && !(res == NoMemory && cloned == Ok) ==> state == old(state)
      ensures res == if !src.WrappedPtr? then InvalidParam
                     else if !old(state).core.tokens[src.w].adapter.canClone then NotSupported
                     else if !old(state).core.tokens[src.w].adapter.canDestroy then NotSupported
                     else if cloned != Ok then cloned
                     else if !mallocOk then NoMemory else Ok
    {
      hide Ties, Inv, Allocate;
      var w := Validate(src);
      if w == null {
        return InvalidParam, null;
      }
      var adapter := w.data.adapter;
      if !adapter.canClone || !adapter.canDestroy {
        return NotSupported, null;
      }
      if cloned != Ok {
        return cloned, null;
      }
      dst := WrapNew(raw, adapter, mallocOk);
      if dst == null {
        FailedCloneKeeps(state, raw);
        NoteDestroyed(raw);
        return NoMemory, null;
      }
      return Ok, dst;
    }

    /** The adapter destroys a token that never got a wrapper. */
    ghost method NoteDestroyed(raw: int)
      requires Ties()
      modifies this`state, tokens`core
      ensures Ties() && Repr() == old(Repr()) && state == FailedClone(old(state), raw)
    {
      hide Linked, Ring.Valid;
      state := FailedClone(state, raw);
      tokens.core := state.core;
    }

    method FpgaOpen(token: TokenPtr, adapterOpen: FpgaResult, mallocOk: bool)
      returns (res: FpgaResult, handle: WrappedHandle?)
      requires Valid() && Passable(token) && (token.WrappedPtr? ==> Room(state, Some(token.w)))
      modifies Repr()
      ensures Valid() && fresh(Repr() - old(Repr()))
      ensures handle != null <==> res == Ok
      ensures handle == null ==> state == old(state)
      ensures handle != null ==>
                && token.WrappedPtr? && fresh(handle) && state == Open(old(state), token.w, handle)
                && handle.adapter == old(state).core.tokens[token.w].adapter
      ensures res == if !token.WrappedPtr? then InvalidParam
                     else if !old(state).core.tokens[token.w].adapter.canOpen then NotSupported
                     else if !old(state).core.tokens[token.w].adapter.canClose then NotSupported
                     else if adapterOpen != Ok then adapterOpen
                     else if !mallocOk then NoMemory else Ok
    {
      hide Ties, Inv, Upref, Held, Open;
      var w := Validate(token);
      if w == null {
        return InvalidParam, null;
      }
      var adapter := w.data.adapter;
      if !adapter.canOpen || !adapter.canClose {
        return NotSupported, null;
      }
      if adapterOpen != Ok {
        return adapterOpen, null;
      }
      if !mallocOk {
        return NoMemory, null;
      }
      handle := NewHandle(w, adapter);
      return Ok, handle;
    }

    /** opae_allocate_wrapped_handle with memory. */
    method NewHandle(w: WrappedToken, adapter: Adapter) returns (h: WrappedHandle)
      requires Valid() && Room(state, Some(w))
      modifies Repr()
      ensures Valid() && fresh(Repr() - old(Repr())) && fresh(h)
      ensures state == Open(old(state), w, h) && h.adapter == adapter
    {
      hide Ties, Upref, Inv, Held;
      h := new WrappedHandle(w, adapter);
      ghost var before := Repr();
      assert h !in state.handles && h !in before;
      OpenKeeps(state, w, h);
      TakeReference(w);
      Remember(h, w);
    }

    /** A new wrapped handle counts from now on. */
    ghost method Remember(h: WrappedHandle, w: WrappedToken)
      requires Ties() && h !in Repr() && h.magic == WRAPPED_HANDLE_MAGIC && h.token == w
      modifies this`state
      ensures Ties() && Repr() == old(Repr()) + {h}
      ensures state == old(state).(handles := old(state).handles[h := w])
    {
      hide TokenList.Ties;
      state := state.(handles := state.handles[h := w]);
    }

    method FpgaClose(handle: WrappedHandle?, closed: FpgaResult, destroyed: FpgaResult) returns (res: FpgaResult)
      requires Valid() && (handle != null ==> handle in state.handles)
      modifies Repr()
      ensures Valid() && Repr() <= old(Repr())
      ensures res == if handle == null then InvalidParam
                     else if !old(handle.adapter.canClose) then NotSupported
                     else closed
      ensures state == if handle != null && old(handle.adapter.canClose) then Close(old(state), handle) else old(state)
    {
      if handle == null || handle.magic != WRAPPED_HANDLE_MAGIC {
        return InvalidParam;
      }
      if !handle.adapter.canClose {
        return NotSupported;
      }
      DestroyHandle(handle, destroyed);
      return closed;
    }

    /** opae_destroy_wrapped_handle */
    method DestroyHandle(h: WrappedHandle, destroyed: FpgaResult)
      requires Valid() && h in state.handles
      modifies Repr()
      ensures Valid() && Repr() <= old(Repr()) && state == Close(old(state), h)
    {
      hide Ties, Downref, Held, Inv;
      InvCore();
      HandleToken(h);
      CloseKeeps(state, h);
      var _ := DropReference(h.token, destroyed);
      Forget(h);
    }

    lemma HandleToken(h: WrappedHandle)
      requires Ties() && Inv(state) && h in state.handles
      ensures h.token == state.handles[h] && h.token in state.core.tokens
    {
    }

    /** The wrapped handle is freed. */
    method Forget(h: WrappedHandle)
      requires Ties() && h in state.handles
      modifies h, this`state
      ensures Ties() && Repr() <= old(Repr()) && state == old(state).(handles := old(state).handles - {h})
    {
      hide TokenList.Ties;
      h.magic := 0;
      state := state.(handles := state.handles - {h});
    }

    // ---- properties objects ----

    /** opae_properties_create with memory. */
    method CreateProperties() returns (p: Properties)
      requires Valid()
      modifies this`state
      ensures Valid() && fresh(p) && Repr() == old(Repr()) + {p}
      ensures state == NewProperties(old(state), p) && p.Parent() == NoParent
    {
      hide TokenList.Ties, Inv;
      p := new Properties();
      assert p !in state.parents;
      SetFreeParentKeeps(state, p, NoParent);
      state := NewProperties(state, p);
    }

    /** Set the parent of p, which has none, to what the scan finds for child. */
    method AttachParentOf(child: WrappedToken, p: Properties, query: int -> Query, mallocOk: bool)
      requires Valid() && child in state.core.tokens && p in state.parents && state.parents[p] == NoParent
      requires Room(state, Found(state, child, query, mallocOk))
      modifies Repr()
      ensures Valid() && Repr() == old(Repr())
      ensures state == Attach(old(state), p, Found(old(state), child, query, mallocOk))
    {
      hide TokenList.Ties, Inv, Attach, Room, Upref, Linked, Ring.Valid;
      InvCore();
      ParentIsLiveDevice(state.core, child, query, mallocOk);
      var parent := tokens.GetParentToken(child, query, mallocOk);
      if parent == null {
        AttachNothing(state, p);
        return;
      }
      AttachParent(p, parent);
    }

    lemma AttachNothing(s: State, p: Properties)
      requires p in s.parents && s.parents[p] == NoParent
      ensures Attach(s, p, None) == s
    {
      assert s.parents[p := NoParent] == s.parents;
    }

    lemma AttachNew(s: State, p: Properties, parent: Option<WrappedToken>)
      requires parent.Some? ==> parent.value in s.core.tokens
      ensures Attach(NewProperties(s, p), p, parent) == Attach(s, p, parent)
    {
    }

    /** The common end of fpgaGetProperties and fpgaGetPropertiesFromHandle. */
    method NewPropertiesOf(child: WrappedToken, query: int -> Query, mallocOk: bool) returns (p: Properties)
      requires Valid() && child in state.core.tokens
      requires Room(state, Found(state, child, query, mallocOk))
      modifies Repr()
      ensures Valid() && fresh(p) && Repr() == old(Repr()) + {p}
      ensures state == Attach(old(state), p, Found(old(state), child, query, mallocOk))
    {
      hide Ties, Inv, Attach, Upref, Held;
      ghost var s := state;
      p := CreateProperties();
      RoomKept(s, p, Found(s, child, query, mallocOk));
      AttachParentOf(child, p, query, mallocOk);
      AttachNew(s, p, Found(s, child, query, mallocOk));
    }

    lemma RoomKept(s: State, p: Properties, parent: Option<WrappedToken>)
      requires p !in s.parents && Room(s, parent)
      ensures Room(NewProperties(s, p), parent)
    {
      if parent.Some? {
        FiberAdd(s.parents, p, NoParent, Wrapped(parent.value));
      }
    }

    method FpgaGetProperties(token: TokenPtr, createOk: bool, got: FpgaResult, query: int -> Query, mallocOk: bool)
      returns (res: FpgaResult, p: Properties?)
      requires Valid() && Passable(token)
      requires token.WrappedPtr? ==> Room(state, Found(state, token.w, query, mallocOk))
      modifies Repr()
      ensures Valid() && fresh(Repr() - old(Repr()))
      ensures p != null <==> res == Ok
      ensures p == null ==> state == old(state)
      ensures p != null ==>
                && fresh(p) && !token.RawPtr?
                && state == if token == NullPtr then NewProperties(old(state), p)
                            else Attach(old(state), p, Found(old(state), token.w, query, mallocOk))
      ensures res == if token == NullPtr then (if createOk then Ok else NoMemory)
                     else if !token.WrappedPtr? then InvalidParam
                     else if !old(state).core.tokens[token.w].adapter.canGet then NotSupported
                     else got
    {
      hide Ties, Inv, Attach, Room;
      var w := Validate(token);
      if token == NullPtr {
        if !createOk {
          return NoMemory, null;
        }
        p := CreateProperties();
        return Ok, p;
      }
      if w == null {
        return InvalidParam, null;
      }
      if !w.data.adapter.canGet {
        return NotSupported, null;
      }
      if got != Ok {
        return got, null;
      }
      p := NewPropertiesOf(w, query, mallocOk);
      return Ok, p;
    }

    method FpgaGetPropertiesFromHandle(h: WrappedHandle?, got: FpgaResult, query: int -> Query, mallocOk: bool)
      returns (res: FpgaResult, p: Properties?)
      requires Valid() && (h != null ==> h in state.handles)
      requires h != null ==> h.token in state.core.tokens && Room(state, Found(state, h.token, query, mallocOk))
      modifies Repr()
      ensures Valid() && fresh(Repr() - old(Repr()))
      ensures p != null <==> res == Ok
      ensures p == null ==> state == old(state)
      ensures p != null ==>
                && h != null && fresh(p)
                && state == Attach(old(state), p, Found(old(state), old(h.token), query, mallocOk))
      ensures res == if h == null then InvalidParam
                     else if !old(h.adapter.canGetFromHandle) then NotSupported
                     else got
    {
      hide Inv, Attach, Room;
      if h == null || h.magic != WRAPPED_HANDLE_MAGIC {
        return InvalidParam, null;
      }
      if !h.adapter.canGetFromHandle {
        return NotSupported, null;
      }
      if got != Ok {
        return got, null;
      }
      p := NewPropertiesOf(h.token, query, mallocOk);
      return Ok, p;
    }

    method FpgaUpdateProperties(token: TokenPtr, p: Properties, updated: FpgaResult, query: int -> Query,
                                mallocOk: bool, destroyed: FpgaResult)
      returns (res: FpgaResult)
      requires Valid() && Passable(token) && p in state.parents
      requires token.WrappedPtr? ==>
                 && Survives(state, p, token.w)
                 && Room(Detached(state, p), Found(Detached(state, p), token.w, query, mallocOk))
      modifies Repr()
      ensures Valid() && Repr() <= old(Repr())
      ensures res == if !token.WrappedPtr? then InvalidParam
                     else if !old(state).core.tokens[token.w].adapter.canUpdate then NotSupported
                     else updated
      ensures state == if token.WrappedPtr? && old(state).core.tokens[token.w].adapter.canUpdate
                       then UpdateProperties(old(state), p, updated == Ok,
                                             Found(Detached(old(state), p), token.w, query, mallocOk))
                       else old(state)
    {
      hide Ties, Inv, Attach, Room, Detach, Found, Survives;
      var w := Validate(token);
      if w == null {
        return InvalidParam;
      }
      if !w.data.adapter.canUpdate {
        return NotSupported;
      }
      ghost var detached := Detached(state, p);
      DetachParent(p, destroyed);
      if updated != Ok {
        return updated;
      }
      AttachParentOf(w, p, query, mallocOk);
      return Ok;
    }

    method FpgaDestroyProperties(p: Properties, destroyed: FpgaResult)
      requires Valid() && p in state.parents
      modifies Repr()
      ensures Valid() && Repr() <= old(Repr())
      ensures state == DestroyProperties(old(state), p)
    {
      hide Ties, Inv, Detach;
      DetachKeeps(state, p);
      DetachParent(p, destroyed);
      RemoveParentKeeps(state, p);
      Discard(p);
    }

    /** The properties object is freed. */
    method Discard(p: Properties)
      requires Ties() && p in state.parents
      modifies p, this`state
      ensures Ties() && Repr() <= old(Repr()) && state == old(state).(parents := old(state).parents - {p})
    {
      hide TokenList.Ties;
      p.magic := 0;
      state := state.(parents := state.parents - {p});
    }

    method FpgaClearProperties(p: Properties, destroyed: FpgaResult)
      requires Valid() && p in state.parents
      modifies Repr()
      ensures Valid() && Repr() <= old(Repr()) && state == Detach(old(state), p)
    {
      DetachParent(p, destroyed);
    }

    /** Give the new properties dst the parent of src. */
    method CopyParent(src: Properties, dst: Properties, ghost s: State)
      requires Valid() && src in s.parents && dst !in s.parents && state == NewProperties(s, dst)
      requires Inv(s) && Room(s, AsOption(s.parents[src]))
      modifies Repr()
      ensures Valid() && Repr() == old(Repr())
      ensures state == CloneProperties(s, src, dst)
    {
      hide Ties, Inv, Upref, Held, Room, Attach;
      ParentOfLive(src);
      if src.parentValid && src.parent.WrappedPtr? {
        RoomKept(s, dst, Some(src.parent.w));
        ParentHeld(src);
        AttachNew(s, dst, Some(src.parent.w));
        AttachParent(dst, src.parent.w);
      } else {
        SetFreeParentKeeps(state, dst, src.Parent());
        Store(dst, src.parentValid, src.parent);
      }
    }

    method FpgaCloneProperties(src: Properties, mallocOk: bool) returns (res: FpgaResult, dst: Properties?)
      requires Valid() && src in state.parents && Room(state, AsOption(state.parents[src]))
      modifies Repr()
      ensures Valid() && fresh(Repr() - old(Repr()))
      ensures dst != null <==> mallocOk
      ensures res == if mallocOk then Ok else Exception
      ensures dst == null ==> state == old(state)
      ensures dst != null ==> fresh(dst) && state == CloneProperties(old(state), src, dst)
    {
      hide Ties, Inv, Upref, Held, CloneProperties, Room;
      if !mallocOk {
        return Exception, null;
      }
      ghost var s := state;
      dst := CreateProperties();
      CopyParent(src, dst, s);
      return Ok, dst;
    }

    method FpgaPropertiesSetParent(p: Properties, parent: TokenPtr, destroyed: FpgaResult) returns (res: FpgaResult)
      requires Valid() && Passable(parent) && p in state.parents
      requires parent.WrappedPtr? ==>
                 Survives(state, p, parent.w) && Room(Detached(state, p), Some(parent.w))
      modifies Repr()
      ensures Valid() && Repr() <= old(Repr())
      ensures parent == NullPtr ==> res == InvalidParam && state == old(state)
      ensures parent != NullPtr ==>
                res == Ok && state == SetParent(old(state), p, AsParent(true, parent))
    {
      hide TokenList.Ties, Inv, Upref, Detach, Survives;
      if parent == NullPtr {
        return InvalidParam;
      }
      ghost var detached := Detached(state, p);
      DetachParent(p, destroyed);
      if parent.WrappedPtr? {
        AttachParent(p, parent.w);
      } else {
        SetFreeParentKeeps(state, p, AsParent(true, parent));
        Store(p, true, parent);
      }
      return Ok;
    }
  }
}
