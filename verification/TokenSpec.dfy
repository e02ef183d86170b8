/**
 * The token wrappers of the API shell and everything that holds a reference to one:
 * the client, open handles and properties objects with a parent. Each API call is a
 * function from state to state; what adapters and malloc answer are arguments.
 * T, H and P are the identities of wrapped tokens, wrapped handles and properties.
 */
module TokenSpec {
  import opened Results
  import opened Word

  const WRAPPED_TOKEN_MAGIC: int := 0x6b6f7477

  /** Which entries of an adapter table are filled in. */
  datatype Adapter = Adapter(
    id: nat,
    canOpen: bool, canClose: bool,
    canClone: bool, canDestroy: bool,
    canGet: bool, canGetFromHandle: bool, canUpdate: bool)

  /** raw is the adapter's own token. */
  datatype TokenData = TokenData(magic: int, raw: int, refCount: u32, adapter: Adapter)

  /** The global ring, newest first, the live wrappers, and what adapters were told to destroy. */
  datatype Core<T> = Core(ring: seq<T>, tokens: map<T, TokenData>, destroyed: seq<int>)

  datatype Parent<T> = NoParent | Wrapped(token: T) | Unwrapped(raw: int)

  datatype Shell<T, H, P> = Shell(
    core: Core<T>,
    owned: map<T, nat>,
    handles: map<H, T>,
    parents: map<P, Parent<T>>)

  // ---- the reference count ----

  /** opae_upref_wrapped_token: the first reference puts the wrapper on the ring. */
  function Upref<T(==)>(c: Core<T>, t: T): Core<T>
    requires t in c.tokens
  {
    var d := c.tokens[t];
    var n := Wrap32(d.refCount + 1);
    Core(if n == 1 then [t] + c.ring else c.ring, c.tokens[t := d.(refCount := n)], c.destroyed)
  }

  function Allocate<T(==)>(c: Core<T>, t: T, raw: int, adapter: Adapter): Core<T> {
    Upref(c.(tokens := c.tokens[t := TokenData(WRAPPED_TOKEN_MAGIC, raw, 0, adapter)]), t)
  }

  function Without<T(==)>(s: seq<T>, t: T): seq<T> {
    if s == [] then [] else if s[0] == t then s[1..] else [s[0]] + Without(s[1..], t)
  }

  /** opae_downref_wrapped_token: the last reference unlinks, destroys and frees. */
  function Downref<T(==)>(c: Core<T>, t: T): Core<T>
    requires t in c.tokens
  {
    var d := c.tokens[t];
    var n := Wrap32(d.refCount - 1);
    if n == 0 then
      Core(Without(c.ring, t), c.tokens - {t}, if d.adapter.canDestroy then c.destroyed + [d.raw] else c.destroyed)
    else
      c.(tokens := c.tokens[t := d.(refCount := n)])
  }

  /** What the downref returns, given what the adapter's destroy would. */
  function DownrefResult<T(==)>(c: Core<T>, t: T, destroyed: FpgaResult): FpgaResult
    requires t in c.tokens
  {
    if Wrap32(c.tokens[t].refCount - 1) != 0 then Ok
    else if c.tokens[t].adapter.canDestroy then destroyed
    else NotSupported
  }

  // ---- looking for a parent ----

  /** What updating a properties object from one token tells about that token. */
  datatype Query =
    | Fails
    | Incomplete
    | Device(segment: int, bus: int, device: int)
    | Accelerator(segment: int, bus: int, device: int)

  /** The scan of opae_get_parent_token over the ring for a device at the address of q. */
  function FindParent<T(==)>(ring: seq<T>, tokens: map<T, TokenData>, query: int -> Query, q: Query): Option<T>
    requires q.Accelerator? && forall i :: 0 <= i < |ring| ==> ring[i] in tokens
  {
    if ring == [] then None
    else
      var d := tokens[ring[0]];
      if !d.adapter.canUpdate then FindParent(ring[1..], tokens, query, q)
      else
        match query(d.raw)
        case Fails => None
        case Device(s, b, v) =>
          if s == q.segment && b == q.bus && v == q.device then Some(ring[0])
          else FindParent(ring[1..], tokens, query, q)
        case _ => FindParent(ring[1..], tokens, query, q)
  }

  /** opae_get_parent_token, without the reference it takes. Only an accelerator has a parent. */
  function ParentOf<T(==)>(c: Core<T>, child: T, query: int -> Query, mallocOk: bool): Option<T>
    requires child in c.tokens && forall i :: 0 <= i < |c.ring| ==> c.ring[i] in c.tokens
  {
    var d := c.tokens[child];
    if !d.adapter.canUpdate || !mallocOk then None
    else if query(d.raw).Accelerator? then FindParent(c.ring, c.tokens, query, query(d.raw))
    else None
  }

  // ---- the API calls ----

  function Owned<T(==), H, P>(s: Shell<T, H, P>, t: T): nat {
    if t in s.owned then s.owned[t] else 0
  }

  /** A new wrapper for the client: by fpgaEnumerate or fpgaCloneToken. */
  function NewToken<T(==), H, P>(s: Shell<T, H, P>, t: T, raw: int, adapter: Adapter): Shell<T, H, P> {
    s.(core := Allocate(s.core, t, raw, adapter), owned := s.owned[t := 1])
  }

  /** fpgaCloneToken without memory for a wrapper: the clone is destroyed again. */
  function FailedClone<T, H, P>(s: Shell<T, H, P>, raw: int): Shell<T, H, P> {
    s.(core := s.core.(destroyed := s.core.destroyed + [raw]))
  }

  function DestroyToken<T(==), H, P>(s: Shell<T, H, P>, t: T): Shell<T, H, P>
    requires t in s.core.tokens && 0 < Owned(s, t)
  {
    s.(core := Downref(s.core, t),
       owned := if Owned(s, t) == 1 then s.owned - {t} else s.owned[t := s.owned[t] - 1])
  }

  /** fpgaOpen once the adapter has opened and malloc has given the wrapped handle h. */
  function Open<T(==), H(==), P>(s: Shell<T, H, P>, t: T, h: H): Shell<T, H, P>
    requires t in s.core.tokens
  {
    s.(core := Upref(s.core, t), handles := s.handles[h := t])
  }

  function Close<T(==), H(==), P>(s: Shell<T, H, P>, h: H): Shell<T, H, P>
    requires h in s.handles && s.handles[h] in s.core.tokens
  {
    s.(core := Downref(s.core, s.handles[h]), handles := s.handles - {h})
  }

  /** fpgaGetProperties without a token. */
  function NewProperties<T(==), H, P(==)>(s: Shell<T, H, P>, p: P): Shell<T, H, P> {
    s.(parents := s.parents[p := NoParent])
  }

  /** Set the parent of p to an optional wrapped token, taking a reference to it. */
  function Attach<T(==), H, P(==)>(s: Shell<T, H, P>, p: P, parent: Option<T>): Shell<T, H, P>
    requires parent.Some? ==> parent.value in s.core.tokens
  {
    match parent
    case None => s.(parents := s.parents[p := NoParent])
    case Some(t) => s.(core := Upref(s.core, t), parents := s.parents[p := Wrapped(t)])
  }

  /** Leave p without a parent, dropping the reference of a wrapped one. */
  function Detach<T(==), H, P(==)>(s: Shell<T, H, P>, p: P): Shell<T, H, P>
    requires p in s.parents && (s.parents[p].Wrapped? ==> s.parents[p].token in s.core.tokens)
  {
    var s' := s.(parents := s.parents[p := NoParent]);
    match s.parents[p]
    case Wrapped(t) => s'.(core := Downref(s.core, t))
    case _ => s'
  }

  /** fpgaPropertiesSetParent: the old parent is dropped before the new one is taken. */
  function SetParent<T(==), H, P(==)>(s: Shell<T, H, P>, p: P, parent: Parent<T>): Shell<T, H, P>
    requires p in s.parents && (s.parents[p].Wrapped? ==> s.parents[p].token in s.core.tokens)
    requires parent.Wrapped? ==> parent.token in Detach(s, p).core.tokens
  {
    var s' := Detach(s, p);
    match parent
    case Wrapped(t) => Attach(s', p, Some(t))
    case _ => s'.(parents := s'.parents[p := parent])
  }

  function DestroyProperties<T(==), H, P(==)>(s: Shell<T, H, P>, p: P): Shell<T, H, P>
    requires p in s.parents && (s.parents[p].Wrapped? ==> s.parents[p].token in s.core.tokens)
  {
    var s' := Detach(s, p);
    s'.(parents := s'.parents - {p})
  }

  function CloneProperties<T(==), H, P(==)>(s: Shell<T, H, P>, src: P, dst: P): Shell<T, H, P>
    requires src in s.parents && (s.parents[src].Wrapped? ==> s.parents[src].token in s.core.tokens)
  {
    match s.parents[src]
    case Wrapped(t) => Attach(s, dst, Some(t))
    case other => s.(parents := s.parents[dst := other])
  }

  /** fpgaUpdateProperties: the parent is gone even when the adapter then fails. */
  function UpdateProperties<T(==), H, P(==)>(
      s: Shell<T, H, P>, p: P, adapterOk: bool, parent: Option<T>): Shell<T, H, P>
    requires p in s.parents && (s.parents[p].Wrapped? ==> s.parents[p].token in s.core.tokens)
    requires adapterOk && parent.Some? ==> parent.value in Detach(s, p).core.tokens
  {
    if adapterOk then Attach(Detach(s, p), p, parent) else Detach(s, p)
  }
}
