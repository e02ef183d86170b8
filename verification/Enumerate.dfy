/** fpgaEnumerate: filters unwrapped in place and restored, tokens stored in an array. */
module Enumeration {
  import opened Lists
  import opened Results
  import opened Rings
  import opened TokenSpec
  import opened Word
  import opened TokenProofs
  import opened EnumerateSpec
  import opened EnumerateWraps
  import opened ApiShellState
  import opened TokenRing

  // ---- filters ----

  /** How a filter looks when the call begins. */
  datatype Kind = Invalid | Parentless | WrappedParent | ForeignParent

  ghost function KindOf(p: Properties?): Kind
    reads p, if p != null && p.parent.WrappedPtr? then {p.parent.w} else {}
  {
    if p == null || p.magic != PROPERTY_MAGIC then Invalid
    else if !p.parentValid then Parentless
    else if p.parent.WrappedPtr? && p.parent.w.data.magic == WRAPPED_TOKEN_MAGIC then WrappedParent
    else ForeignParent
  }

  /**
   * What unwrapping the filters from i on comes to, with n parents unwrapped before: a filter
   * listed a second time holds an adapter's token by then, and is refused.
   */
  ghost function Unwrapping(fs: seq<Properties?>, kinds: seq<Kind>, i: nat, n: nat, mallocOk: nat -> bool): FpgaResult
    requires i <= |fs| == |kinds|
    decreases |fs| - i
  {
    if i == |fs| then Ok
    else
      match kinds[i]
      case Invalid => InvalidParam
      case Parentless => Unwrapping(fs, kinds, i + 1, n, mallocOk)
      case ForeignParent => InvalidParam
      case WrappedParent =>
        if fs[i] in fs[..i] then InvalidParam
        else if !mallocOk(n) then NoMemory
        else Unwrapping(fs, kinds, i + 1, n + 1, mallocOk)
  }

  /** How many parents there are to unwrap. */
  function NumWrapped(kinds: seq<Kind>): nat {
    if kinds == [] then 0 else (if kinds[0] == WrappedParent then 1 else 0) + NumWrapped(kinds[1..])
  }

  /** Filters that can be unwrapped: none invalid or foreign, and none with a wrapped parent behind itself. */
  ghost predicate Unwrappable(fs: seq<Properties?>, kinds: seq<Kind>, i: nat)
    requires |fs| == |kinds|
  {
    forall j :: i <= j < |fs| ==>
      kinds[j] == Parentless || (kinds[j] == WrappedParent && fs[j] !in fs[..j])
  }

  /**
   * Unwrapping succeeds exactly when every filter can be unwrapped and there is memory for
   * one fixup for each wrapped parent; without enough memory or with none to spare, a
   * failure says which of the two it met first.
   */
  lemma {:induction false} UnwrappingOkIff(
      fs: seq<Properties?>, kinds: seq<Kind>, i: nat, n: nat, mallocOk: nat -> bool)
    requires i <= |fs| == |kinds|
    ensures var r := Unwrapping(fs, kinds, i, n, mallocOk);
            && (r == Ok <==> Unwrappable(fs, kinds, i) && Granted(mallocOk, n, NumWrapped(kinds[i..])))
            && (r != Ok ==> r == InvalidParam || r == NoMemory)
            && (r == InvalidParam ==> !Unwrappable(fs, kinds, i))
            && (r == NoMemory ==> !Granted(mallocOk, n, NumWrapped(kinds[i..])))
    decreases |fs| - i
  {
    if i < |fs| {
      assert kinds[i..][1..] == kinds[i + 1..];
      UnwrappingOkIff(fs, kinds, i + 1, n, mallocOk);
      UnwrappingOkIff(fs, kinds, i + 1, n + 1, mallocOk);
    }
  }

  /** A filter whose parent was replaced, and the wrapper to put back. */
  datatype Fixup = Fixup(prop: Properties, token: WrappedToken)

  ghost function Objects(fs: seq<Properties?>): set<Properties> {
    set p: Properties | p in fs
  }

  /** The filters that have a fixup. */
  ghost function Props(fixups: seq<Fixup>): (ps: set<Properties>)
    ensures forall i :: 0 <= i < |fixups| ==> fixups[i].prop in ps
  {
    if fixups == [] then {} else {fixups[0].prop} + Props(fixups[1..])
  }

  lemma NoProps()
    ensures Props([]) == {}
  {
  }

  lemma PropsCons(f: Fixup, fixups: seq<Fixup>)
    ensures Props([f] + fixups) == {f.prop} + Props(fixups)
  {
    assert ([f] + fixups)[1..] == fixups;
  }

  type Parents = map<Properties, TokenPtr>

  /**
   * Of the filters, whose parents were once as in was, exactly those with a fixup are
   * changed, and each fixup knows the parent to put back.
   */
  ghost predicate Remembered(fixups: seq<Fixup>, was: Parents)
    reads was.Keys
  {
    && Props(fixups) <= was.Keys
    && (forall i, j :: 0 <= i < j < |fixups| ==> fixups[i].prop != fixups[j].prop)
    && (forall i :: 0 <= i < |fixups| ==> was[fixups[i].prop] == WrappedPtr(fixups[i].token))
    && (forall p :: p in Props(fixups) ==> p.magic == PROPERTY_MAGIC && p.parentValid && p.parent.RawPtr?)
    && (forall p :: p in was.Keys - Props(fixups) ==> p.parent == was[p])
  }

  lemma NothingChanged(was: Parents)
    requires forall p :: p in was ==> p.parent == was[p]
    ensures Remembered([], was)
  {
  }

  lemma InProps(fixups: seq<Fixup>, p: Properties)
    ensures p in Props(fixups) <==> exists i :: 0 <= i < |fixups| && fixups[i].prop == p
  {
    if fixups != [] {
      InProps(fixups[1..], p);
      if p in Props(fixups) && p != fixups[0].prop {
        var i :| 0 <= i < |fixups[1..]| && fixups[1..][i].prop == p;
        assert fixups[i + 1].prop == p;
      }
    }
  }

  /** The loop that puts back the wrapped parents. */
  method Restore(fixups: seq<Fixup>, ghost was: Parents)
    requires Remembered(fixups, was)
    modifies was.Keys`parent
    ensures forall p :: p in was ==> p.parent == was[p]
  {
    var k := 0;
    while k < |fixups|
      invariant 0 <= k <= |fixups|
      invariant forall i :: 0 <= i < k ==> fixups[i].prop.parent == was[fixups[i].prop]
      invariant forall p :: p in was.Keys - Props(fixups) ==> p.parent == was[p]
    {
      var p := fixups[k].prop;
      if p.magic == PROPERTY_MAGIC {
        p.parent := WrappedPtr(fixups[k].token);
      }
      k := k + 1;
    }
    forall p | p in was
      ensures p.parent == was[p]
    {
      InProps(fixups, p);
    }
  }

  /** One filter, in the state it is in now. */
  method UnwrapOne(p: Properties?, fixups: seq<Fixup>, mallocOk: bool, ghost was: Parents)
    returns (res: FpgaResult, longer: seq<Fixup>)
    requires Remembered(fixups, was) && (p != null ==> p in was)
    modifies was.Keys`parent
    ensures Remembered(longer, was)
    ensures match old(KindOf(p))
            case Parentless => res == Ok && longer == fixups
            case WrappedParent =>
              if mallocOk then
                && res == Ok && |longer| == |fixups| + 1 && Props(longer) == {p} + Props(fixups)
                && p.parent == RawPtr(old(p.parent.w.data.raw))
              else res == NoMemory && longer == fixups
            case _ => res == InvalidParam && longer == fixups
    ensures forall q :: q in was ==> KindOf(q) == if q in Props(longer) then ForeignParent else old(KindOf(q))
  {
    longer := fixups;
    if p == null || p.magic != PROPERTY_MAGIC {
      return InvalidParam, fixups;
    }
    if p.parentValid {
      if !p.parent.WrappedPtr? || p.parent.w.data.magic != WRAPPED_TOKEN_MAGIC {
        return InvalidParam, fixups;
      }
      if !mallocOk {
        return NoMemory, fixups;
      }
      var w := p.parent.w;
      PropsCons(Fixup(p, w), fixups);
      longer := [Fixup(p, w)] + fixups;
      p.parent := RawPtr(w.data.raw);
    }
    res := Ok;
  }

  /** The loop that unwraps wrapped parents, newest fixup first. */
  method Unwrap(fs: seq<Properties?>, ghost kinds: seq<Kind>, mallocOk: nat -> bool, ghost was: Parents)
    returns (res: FpgaResult, fixups: seq<Fixup>)
    requires |kinds| == |fs| && forall i :: 0 <= i < |fs| ==> kinds[i] == KindOf(fs[i])
    requires Remembered([], was) && was.Keys == Objects(fs)
    modifies was.Keys`parent
    ensures Remembered(fixups, was)
    ensures res == Unwrapping(fs, kinds, 0, 0, mallocOk)
  {
    hide Props, KindOf, Remembered;
    fixups, res := [], Ok;
    NoProps();
    var i := 0;
    while i < |fs|
      invariant 0 <= i <= |fs| && res == Ok
      invariant Remembered(fixups, was)
      invariant Unwrapping(fs, kinds, i, |fixups|, mallocOk) == Unwrapping(fs, kinds, 0, 0, mallocOk)
      invariant forall p :: p in Props(fixups) ==> p in fs[..i]
      invariant forall j :: 0 <= j < i && kinds[j] == WrappedParent ==> fs[j] in Props(fixups)
      invariant forall j :: 0 <= j < |fs| && fs[j] in Props(fixups) ==> kinds[j] == WrappedParent
      invariant forall j :: 0 <= j < |fs| ==>
                  KindOf(fs[j]) == if fs[j] in Props(fixups) then ForeignParent else kinds[j]
    {
      assert fs[..i + 1] == fs[..i] + [fs[i]];
      assert KindOf(fs[i]) == if fs[i] in Props(fixups) then ForeignParent else kinds[i];
      res, fixups := UnwrapOne(fs[i], fixups, mallocOk(|fixups|), was);
      if res != Ok {
        return;
      }
      i := i + 1;
    }
  }

  // ---- tokens ----

  /** From a point on, the array still holds what it held before. */
  ghost predicate KeptFrom<T>(now: seq<T>, before: seq<T>, from: nat) {
    |now| == |before| && from <= |now| && forall k :: from <= k < |now| ==> now[k] == before[k]
  }

  lemma KeptLater<T>(c: seq<T>, b: seq<T>, a: seq<T>, i: nat, j: nat)
    requires KeptFrom(b, a, i) && KeptFrom(c, b, j) && i <= j
    ensures KeptFrom(c, a, j)
  {
  }

  /** The array begins with these wrappers. */
  ghost predicate Holds(contents: seq<Link?<TokenData>>, ws: seq<WrappedToken>) {
    |ws| <= |contents| && forall i :: 0 <= i < |ws| ==> contents[i] == ws[i]
  }

  lemma KeptBehind<T>(contents: seq<T>, i: nat, x: T)
    requires i < |contents|
    ensures KeptFrom(contents[i := x], contents, i + 1)
  {
  }

  lemma HoldsOne(contents: seq<Link?<TokenData>>, ws: seq<WrappedToken>, w: WrappedToken)
    requires Holds(contents, ws) && |ws| < |contents|
    ensures Holds(contents[|ws| := w], ws + [w])
  {
  }

  /** The changing part of opae_enumeration_context, with the caller's array and the token ring. */
  class EnumContext {
    const list: TokenList
    const tokens: array?<Link?<TokenData>>
    const max: nat
    var written: nat
    var numMatches: u32
    var errors: nat

    /** The ring as it was, the wrappers made since, and the tokens they are for. */
    ghost const base: Core<WrappedToken>
    ghost var ws: seq<WrappedToken>
    ghost var stored: seq<Token>

    constructor (list: TokenList, tokens: array?<Link?<TokenData>>, max: nat)
      requires list.Valid() && tokens !in list.Repr()
      requires if tokens == null then max == 0 else max <= tokens.Length
      ensures this.list == list && this.tokens == tokens && this.max == max && base == list.core
      ensures Valid() && ws == [] && Model() == START
    {
      WroteNothing(list.core);
      this.list, this.tokens, this.max := list, tokens, max;
      written, numMatches, errors := 0, 0, 0;
      base, ws, stored := list.core, [], [];
    }

    ghost predicate Valid()
      reads this, tokens, list, list.ring, list.Repr()
    {
      && this !in list.Repr() && tokens !in list.Repr()
      && list.Valid()
      && |ws| == |stored| == written <= max
      && (if tokens == null then max == 0 else max <= tokens.Length)
      && Holds(Contents(), ws)
      && Wrote(base, list.core, ws, stored)
    }

    ghost function Contents(): seq<Link?<TokenData>>
      reads this, tokens
    {
      if tokens == null then [] else tokens[..]
    }

    ghost function Model(): Context
      reads this
    {
      Context(stored, numMatches, errors)
    }

    /** Wrap one token and store the wrapper; without memory, count an error. */
    method StoreOne(raw: int, adapter: Adapter, mallocOk: bool, ghost rest: seq<Token>) returns (ok: bool)
      requires Valid() && tokens != null && written < max
      requires NewTokens(list.core, [Token(raw, adapter)] + rest)
      modifies this, tokens, list.Repr()
      ensures Valid() && ok == mallocOk && fresh(list.Repr() - old(list.Repr()))
      ensures KeptFrom(Contents(), old(Contents()), written)
      ensures ok ==>
                && Model() == old(Model()).(written := old(stored) + [Token(raw, adapter)])
                && NewTokens(list.core, rest)
      ensures !ok ==> Model() == old(Model()).(errors := old(errors) + 1)
    {
      hide NewTokens, Wrote, Holds, Allocate, TokenList.Ties, CoreInv, Linked, Distinct, Elems, KeptFrom;
      NothingYet(this);
      var wt := list.Allocate(raw, adapter, mallocOk);
      if wt == null {
        errors := errors + 1;
        return false;
      }
      var w: WrappedToken := wt;
      WroteOne(base, old(list.core), ws, stored, w, Token(raw, adapter), rest);
      StoreNew(w, Token(raw, adapter));
      return true;
    }

    /** The next slot of the array takes a wrapper that is on the ring by now. */
    method StoreNew(w: WrappedToken, ghost t: Token)
      requires this !in list.Repr() && tokens !in list.Repr() && list.Valid()
      requires tokens != null && |ws| == |stored| == written < max <= tokens.Length
      requires Holds(Contents(), ws) && Wrote(base, list.core, ws + [w], stored + [t])
      modifies this, tokens
      ensures Valid() && KeptFrom(Contents(), old(Contents()), written)
      ensures Model() == old(Model()).(written := old(stored) + [t])
    {
      hide NewTokens, Wrote, Holds, TokenList.Ties, CoreInv, Linked, Distinct, Elems, KeptFrom;
      HoldsOne(Contents(), ws, w);
      KeptBehind(Contents(), written, w);
      tokens[written] := w;
      written := written + 1;
      ws, stored := ws + [w], stored + [t];
    }

    /** Wrap and store the adapter's tokens, as many as there is room for. */
    method StoreAll(a: Source, mallocOk: nat -> bool, ghost rest: seq<Token>) returns (stop: bool)
      requires Valid() && tokens != null && NewTokens(list.core, Tagged(a) + rest)
      modifies this, tokens, list.Repr()
      ensures Valid() && fresh(list.Repr() - old(list.Repr()))
      ensures old(written) <= written && KeptFrom(Contents(), old(Contents()), written)
      ensures (stop, Model()) == Store(old(Model()), Tagged(a), max, mallocOk)
      ensures !stop ==> NewTokens(list.core, rest)
    {
      hide NewTokens, Wrote, Holds, TokenList.Ties, TokenList.Valid, KeptFrom, EnumContext.Contents;
      var space := max - written;
      if |a.matches| < space {
        space := |a.matches|;
      }
      var i := 0;
      NothingYet(this);
      assert Tagged(a)[0..] == Tagged(a);
      while i < space
        invariant 0 <= i <= space && i <= |a.matches|
        invariant Valid() && written == old(written) + i && fresh(list.Repr() - old(list.Repr()))
        invariant KeptFrom(Contents(), old(Contents()), written)
        invariant NewTokens(list.core, Tagged(a)[i..] + rest)
        invariant Store(Model(), Tagged(a)[i..], max, mallocOk) == Store(old(Model()), Tagged(a), max, mallocOk)
      {
        ghost var before, w := Contents(), written;
        assert Tagged(a)[i..] == [Token(a.matches[i], a.adapter)] + Tagged(a)[i + 1..];
        assert Tagged(a)[i..] + rest == [Token(a.matches[i], a.adapter)] + (Tagged(a)[i + 1..] + rest);
        var ok := StoreOne(a.matches[i], a.adapter, mallocOk(written), Tagged(a)[i + 1..] + rest);
        KeptLater(Contents(), before, old(Contents()), w, written);
        if !ok {
          return true;
        }
        i := i + 1;
      }
      NewTokensRest(list.core, Tagged(a)[i..], rest);
      return written == max;
    }

    /** opae_enumerate */
    method Visit(a: Source, mallocOk: nat -> bool, ghost rest: seq<Token>) returns (stop: bool)
      requires Valid() && (tokens != null ==> NewTokens(list.core, Found(a) + rest))
      modifies this, tokens, list.Repr()
      ensures Valid() && fresh(list.Repr() - old(list.Repr()))
      ensures old(written) <= written && KeptFrom(Contents(), old(Contents()), written)
      ensures (stop, Model()) == EnumerateSpec.Visit(old(Model()), a, tokens != null, max, mallocOk)
      ensures !stop && tokens != null ==> NewTokens(list.core, rest)
    {
      hide Store, Tagged, NewTokens, Wrote, Holds, TokenList.Ties, TokenList.Valid;
      if tokens != null {
        NewTokensRest(list.core, Found(a), rest);
      }
      if tokens != null && max - written == 0 {
        return true;
      }
      if !a.canEnumerate {
        return false;
      }
      if a.res != Ok {
        errors := errors + 1;
        return false;
      }
      numMatches := Wrap32(numMatches + |a.matches|);
      if tokens == null {
        return false;
      }
      stop := StoreAll(a, mallocOk, rest);
    }

    /** opae_plugin_mgr_for_each_adapter */
    method ForEachAdapter(sources: seq<Source>, mallocOk: nat -> bool)
      requires Valid() && (tokens != null ==> NewTokens(list.core, AllTokens(sources)))
      modifies this, tokens, list.Repr()
      ensures Valid() && fresh(list.Repr() - old(list.Repr()))
      ensures old(written) <= written && KeptFrom(Contents(), old(Contents()), written)
      ensures Model() == ForEach(old(Model()), sources, tokens != null, max, mallocOk)
    {
      hide EnumerateSpec.Visit, KeptFrom, EnumContext.Contents, Found;
      hide NewTokens, Wrote, Holds, TokenList.Ties, TokenList.Valid;
      NothingYet(this);
      var i := 0;
      assert sources[0..] == sources;
      while i < |sources|
        invariant 0 <= i <= |sources| && Valid() && fresh(list.Repr() - old(list.Repr()))
        invariant old(written) <= written && KeptFrom(Contents(), old(Contents()), written)
        invariant tokens != null ==> NewTokens(list.core, AllTokens(sources[i..]))
        invariant ForEach(Model(), sources[i..], tokens != null, max, mallocOk) ==
                  ForEach(old(Model()), sources, tokens != null, max, mallocOk)
      {
        assert sources[i..][1..] == sources[i + 1..];
        ghost var w, before := written, Contents();
        var stop := Visit(sources[i], mallocOk, AllTokens(sources[i + 1..]));
        KeptLater(Contents(), before, old(Contents()), w, written);
        if stop {
          return;
        }
        i := i + 1;
      }
    }
  }

  lemma NothingYet(context: EnumContext)
    requires context.written <= context.max
    requires if context.tokens == null then context.max == 0 else context.max <= context.tokens.Length
    ensures KeptFrom(context.Contents(), context.Contents(), context.written)
  {
  }

  // ---- the call ----

  /** The filters that the caller passes. */
  function Passed(filters: Option<seq<Properties?>>, numFilters: nat): seq<Properties?>
    requires filters.Some? ==> numFilters <= |filters.value|
  {
    if filters.Some? then filters.value[..numFilters] else []
  }

  /** The call once its parameters are accepted and the adapters' token array is there. */
  method EnumerateFiltered(fs: seq<Properties?>, context: EnumContext, sources: seq<Source>,
                           fixupOk: nat -> bool, mallocOk: nat -> bool, ghost kinds: seq<Kind>, ghost was: Parents)
    returns (res: FpgaResult)
    requires |kinds| == |fs| && forall i :: 0 <= i < |fs| ==> kinds[i] == KindOf(fs[i])
    requires Remembered([], was) && was.Keys == Objects(fs) && was.Keys !! context.list.Repr()
    requires context.Valid() && context.Model() == START
    requires context.tokens != null ==> NewTokens(context.list.core, AllTokens(sources))
    modifies was.Keys`parent, context, context.tokens, context.list.Repr()
    ensures forall p :: p in was ==> p.parent == was[p]
    ensures context.Valid() && fresh(context.list.Repr() - old(context.list.Repr()))
    ensures KeptFrom(context.Contents(), old(context.Contents()), context.written)
    ensures var unwrapped := Unwrapping(fs, kinds, 0, 0, fixupOk);
            if unwrapped != Ok then res == unwrapped && context.Model() == START
            else
              && context.Model() == ForEach(START, sources, context.tokens != null, context.max, mallocOk)
              && res == if context.errors > 0 then Exception else Ok
  {
    hide Remembered, Unwrapping, ForEach, KindOf, Objects, KeptFrom;
    hide NewTokens, Wrote, Holds, TokenList.Ties, TokenList.Valid, AllTokens;
    NothingYet(context);
    var fixups;
    res, fixups := Unwrap(fs, kinds, fixupOk, was);
    if res == Ok {
      context.ForEachAdapter(sources, mallocOk);
      res := if context.errors > 0 then Exception else Ok;
    }
    Restore(fixups, was);
  }

  /** The call with its parameters accepted, from the enumeration context on. */
  method EnumerateAccepted(list: TokenList, fs: seq<Properties?>, tokens: array?<Link?<TokenData>>, maxTokens: nat,
                           sources: seq<Source>, fixupOk: nat -> bool, mallocOk: nat -> bool, ghost kinds: seq<Kind>)
    returns (res: FpgaResult, numMatches: u32, ghost ws: seq<WrappedToken>)
    requires if tokens == null then maxTokens == 0 else maxTokens <= tokens.Length
    requires list.Valid() && tokens !in list.Repr() && Objects(fs) !! list.Repr()
    requires tokens != null ==> NewTokens(list.core, AllTokens(sources))
    requires |kinds| == |fs| && forall i :: 0 <= i < |fs| ==> kinds[i] == KindOf(fs[i])
    modifies Objects(fs)`parent, tokens, list.Repr()
    ensures forall p :: p in Objects(fs) ==> p.parent == old(p.parent)
    ensures list.Valid() && fresh(list.Repr() - old(list.Repr()))
    ensures tokens != null ==> Holds(tokens[..], ws) && KeptFrom(tokens[..], old(tokens[..]), |ws|)
    ensures var unwrapped := Unwrapping(fs, kinds, 0, 0, fixupOk);
            var end := ForEach(START, sources, tokens != null, maxTokens, mallocOk);
            if unwrapped != Ok then res == unwrapped && numMatches == 0 && Wrote(old(list.core), list.core, ws, [])
            else
              && res == (if end.errors > 0 then Exception else Ok)
              && numMatches == end.numMatches && |end.written| <= maxTokens
              && Wrote(old(list.core), list.core, ws, end.written)
  {
    hide Unwrapping, ForEach, KindOf, KeptFrom, Wrote, Holds, NewTokens, AllTokens;
    hide TokenList.Ties, TokenList.Valid;
    ghost var was: Parents := map p | p in Objects(fs) :: p.parent;
    NothingChanged(was);
    var context := new EnumContext(list, tokens, maxTokens);
    res := EnumerateFiltered(fs, context, sources, fixupOk, mallocOk, kinds, was);
    numMatches, ws := context.numMatches, context.ws;
  }

  /**
   * fpgaEnumerate. Whatever the outcome, every filter has its parent back at the end. The
   * wrappers stored, ws, are those newly made on the ring, one for each token of the result.
   */
  method FpgaEnumerate(list: TokenList, filters: Option<seq<Properties?>>, numFilters: nat,
                       tokens: array?<Link?<TokenData>>, maxTokens: nat, sources: seq<Source>,
                       callocOk: bool, fixupOk: nat -> bool, mallocOk: nat -> bool, ghost kinds: seq<Kind>)
    returns (res: FpgaResult, numMatches: u32, ghost ws: seq<WrappedToken>)
    requires filters.Some? ==> numFilters <= |filters.value|
    requires tokens != null ==> maxTokens <= tokens.Length
    requires list.Valid() && tokens !in list.Repr() && Objects(Passed(filters, numFilters)) !! list.Repr()
    requires tokens != null ==> NewTokens(list.core, AllTokens(sources))
    requires var fs := Passed(filters, numFilters);
             |kinds| == |fs| && forall i :: 0 <= i < |fs| ==> kinds[i] == KindOf(fs[i])
    modifies Objects(Passed(filters, numFilters))`parent, tokens, list.Repr()
    ensures forall p :: p in Objects(Passed(filters, numFilters)) ==> p.parent == old(p.parent)
    ensures list.Valid() && fresh(list.Repr() - old(list.Repr()))
    ensures tokens != null ==> Holds(tokens[..], ws) && KeptFrom(tokens[..], old(tokens[..]), |ws|)
    ensures var checked := CheckParams(maxTokens, tokens != null, numFilters, filters.Some?);
            var unwrapped := Unwrapping(Passed(filters, numFilters), kinds, 0, 0, fixupOk);
            var end := ForEach(START, sources, tokens != null, maxTokens, mallocOk);
            if checked != Ok || (tokens != null && !callocOk) || unwrapped != Ok then
              && res == (if checked != Ok then checked else if tokens != null && !callocOk then NoMemory else unwrapped)
              && numMatches == 0 && Wrote(old(list.core), list.core, ws, [])
            else
              && res == (if end.errors > 0 then Exception else Ok)
              && numMatches == end.numMatches
              && |end.written| <= maxTokens
              && Wrote(old(list.core), list.core, ws, end.written)
  {
    hide Unwrapping, ForEach, KindOf, KeptFrom, Wrote, Holds, NewTokens, AllTokens, Objects;
    hide TokenList.Ties, TokenList.Valid, TokenList.Repr;
    ws := [];
    WroteNothing(list.core);
    if tokens != null {
      NothingHeld(tokens[..]);
    }
    if (0 < maxTokens && tokens == null) || (0 < numFilters && filters.None?) || (numFilters == 0 && filters.Some?) {
      return InvalidParam, 0, ws;
    }
    if tokens != null && !callocOk {
      return NoMemory, 0, ws;
    }
    var fs := Passed(filters, numFilters);
    res, numMatches, ws := EnumerateAccepted(list, fs, tokens, maxTokens, sources, fixupOk, mallocOk, kinds);
  }

  lemma NothingHeld(contents: seq<Link?<TokenData>>)
    ensures Holds(contents, []) && KeptFrom(contents, contents, 0)
  {
  }
}
