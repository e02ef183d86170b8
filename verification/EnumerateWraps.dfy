/** The wrappers that fpgaEnumerate makes: one reference each, on the ring, owned by the client. */
module EnumerateWraps {
  import opened Lists
  import opened TokenSpec
  import opened TokenProofs
  import opened EnumerateSpec

  /** Wrapping the tokens ts one after the other, in the wrappers ws. */
  function WrapAll<T(==)>(c: Core<T>, ws: seq<T>, ts: seq<Token>): Core<T>
    requires |ws| == |ts|
  {
    if ws == [] then c
    else
      var n := |ws| - 1;
      Allocate(WrapAll(c, ws[..n], ts[..n]), ws[n], ts[n].raw, ts[n].adapter)
  }

  lemma WrapOneMore<T>(c: Core<T>, ws: seq<T>, ts: seq<Token>, w: T, t: Token)
    requires |ws| == |ts|
    ensures WrapAll(c, ws + [w], ts + [t]) == Allocate(WrapAll(c, ws, ts), w, t.raw, t.adapter)
  {
    assert (ws + [w])[..|ws|] == ws && (ts + [t])[..|ts|] == ts;
  }

  /** Adapters hand out tokens that are new: no wrapper holds them, none was destroyed, none comes twice. */
  ghost predicate NewTokens<T>(c: Core<T>, ts: seq<Token>) {
    && (forall i :: 0 <= i < |ts| ==> ts[i].raw !in c.destroyed)
    && (forall i, u :: 0 <= i < |ts| && u in c.tokens ==> c.tokens[u].raw != ts[i].raw)
    && (forall i, j :: 0 <= i < j < |ts| ==> ts[i].raw != ts[j].raw)
  }

  lemma NewTokensRest<T>(c: Core<T>, front: seq<Token>, rest: seq<Token>)
    requires NewTokens(c, front + rest)
    ensures NewTokens(c, rest)
  {
    assert forall i :: 0 <= i < |rest| ==> rest[i] == (front + rest)[|front| + i];
  }

  /** Once the first is wrapped the others are still new. */
  lemma NewTokensStep<T>(c: Core<T>, w: T, ts: seq<Token>)
    requires ts != [] && CoreInv(c) && w !in c.tokens && NewTokens(c, ts)
    ensures CoreInv(Allocate(c, w, ts[0].raw, ts[0].adapter))
    ensures NewTokens(Allocate(c, w, ts[0].raw, ts[0].adapter), ts[1..])
  {
    hide CoreInv, Allocate;
    AllocateCore(c, w, ts[0].raw, ts[0].adapter);
    AllocateDestroysNone(c, w, ts[0].raw, ts[0].adapter);
    assert forall i :: 0 <= i < |ts[1..]| ==> ts[1..][i] == ts[i + 1];
  }

  lemma AllocateDestroysNone<T>(c: Core<T>, w: T, raw: int, adapter: Adapter)
    ensures Allocate(c, w, raw, adapter).destroyed == c.destroyed
  {
  }

  /** Each new wrapper has one reference and carries its token and adapter; the others are as before. */
  ghost predicate TokensAre<T>(c: Core<T>, c': Core<T>, ws: seq<T>, ts: seq<Token>)
    requires |ws| == |ts|
  {
    && c'.tokens.Keys == c.tokens.Keys + Elems(ws)
    && (forall i :: 0 <= i < |ws| ==>
          (ws[i] in c'.tokens && c'.tokens[ws[i]] == TokenData(WRAPPED_TOKEN_MAGIC, ts[i].raw, 1, ts[i].adapter)))
    && (forall u :: u in c.tokens ==> u in c'.tokens && c'.tokens[u] == c.tokens[u])
  }

  /** The ring has the new wrappers in front, the newest first. */
  ghost predicate RingIs<T>(c: Core<T>, c': Core<T>, ws: seq<T>) {
    && |c'.ring| == |ws| + |c.ring| && c'.ring[|ws|..] == c.ring
    && (forall i :: 0 <= i < |ws| ==> c'.ring[|ws| - 1 - i] == ws[i])
  }

  lemma TokensStep<T>(c: Core<T>, c': Core<T>, c'': Core<T>, ws: seq<T>, ts: seq<Token>, w: T, t: Token)
    requires |ws| == |ts| && TokensAre(c, c', ws, ts) && w !in c'.tokens
    requires c''.tokens == c'.tokens[w := TokenData(WRAPPED_TOKEN_MAGIC, t.raw, 1, t.adapter)]
    ensures TokensAre(c, c'', ws + [w], ts + [t])
  {
    hide Elems;
    ElemsAppend(ws, w);
  }

  lemma RingStep<T>(c: Core<T>, c': Core<T>, c'': Core<T>, ws: seq<T>, w: T)
    requires RingIs(c, c', ws) && c''.ring == [w] + c'.ring
    ensures RingIs(c, c'', ws + [w])
  {
  }

  lemma NotYetThere<T>(c: Core<T>, c': Core<T>, ws: seq<T>, ts: seq<Token>, n: nat)
    requires n < |ws| == |ts| && Distinct(ws) && (forall i :: 0 <= i < |ws| ==> ws[i] !in c.tokens)
    requires NewTokens(c, ts) && TokensAre(c, c', ws[..n], ts[..n])
    ensures ts[n].raw !in c.destroyed && ws[n] !in c'.tokens
    ensures forall u :: u in c'.tokens ==> c'.tokens[u].raw != ts[n].raw
  {
    forall u | u in c'.tokens
      ensures c'.tokens[u].raw != ts[n].raw
    {
      if u !in c.tokens {
        var i :| 0 <= i < |ws[..n]| && ws[..n][i] == u;
        assert c'.tokens[ws[..n][i]].raw == ts[..n][i].raw;
      }
    }
  }

  lemma NothingWrapped<T>(c: Core<T>)
    ensures TokensAre(c, c, [], []) && RingIs(c, c, [])
  {
  }

  /** What wrapping the tokens of an enumeration comes to. */
  lemma {:induction false} WrapAllKeeps<T>(c: Core<T>, ws: seq<T>, ts: seq<Token>)
    requires |ws| == |ts| && CoreInv(c) && NewTokens(c, ts)
    requires Distinct(ws) && forall i :: 0 <= i < |ws| ==> ws[i] !in c.tokens
    ensures var c' := WrapAll(c, ws, ts);
            CoreInv(c') && c'.destroyed == c.destroyed && TokensAre(c, c', ws, ts) && RingIs(c, c', ws)
    decreases |ws|
  {
    hide CoreInv, Allocate, TokensAre, RingIs, Distinct, NewTokens, Elems;
    NothingWrapped(c);
    if ws != [] {
      var n := |ws| - 1;
      var before := WrapAll(c, ws[..n], ts[..n]);
      PrefixStays(c, ws, ts, n);
      WrapAllKeeps(c, ws[..n], ts[..n]);
      NotYetThere(c, before, ws, ts, n);
      AllocateCore(before, ws[n], ts[n].raw, ts[n].adapter);
      AllocateDestroysNone(before, ws[n], ts[n].raw, ts[n].adapter);
      assert ws == ws[..n] + [ws[n]] && ts == ts[..n] + [ts[n]];
      TokensStep(c, before, WrapAll(c, ws, ts), ws[..n], ts[..n], ws[n], ts[n]);
      RingStep(c, before, WrapAll(c, ws, ts), ws[..n], ws[n]);
    }
  }

  lemma PrefixStays<T>(c: Core<T>, ws: seq<T>, ts: seq<Token>, n: nat)
    requires |ws| == |ts| && n <= |ws| && Distinct(ws) && NewTokens(c, ts)
    ensures Distinct(ws[..n]) && NewTokens(c, ts[..n])
  {
  }

  /** Since base, distinct new wrappers were made for these tokens, and nothing else happened. */
  ghost predicate Wrote<T>(base: Core<T>, c: Core<T>, ws: seq<T>, ts: seq<Token>) {
    && |ws| == |ts| && c == WrapAll(base, ws, ts) && Distinct(ws)
    && base.tokens.Keys <= c.tokens.Keys
    && (forall i :: 0 <= i < |ws| ==> ws[i] !in base.tokens && ws[i] in c.tokens)
  }

  lemma WroteNothing<T>(c: Core<T>)
    ensures Wrote(c, c, [], [])
  {
  }

  lemma WroteOne<T>(base: Core<T>, c: Core<T>, ws: seq<T>, ts: seq<Token>, w: T, t: Token, rest: seq<Token>)
    requires Wrote(base, c, ws, ts) && CoreInv(c) && w !in c.tokens && NewTokens(c, [t] + rest)
    ensures var c' := Allocate(c, w, t.raw, t.adapter);
            Wrote(base, c', ws + [w], ts + [t]) && CoreInv(c') && NewTokens(c', rest)
  {
    hide CoreInv, NewTokens, Allocate, WrapAll;
    NewTokensStep(c, w, [t] + rest);
    assert ([t] + rest)[1..] == rest;
    NewTokensUnwrapped(c, t, rest);
    AllocateCore(c, w, t.raw, t.adapter);
    WrapOneMore(base, ws, ts, w, t);
  }

  lemma NewTokensUnwrapped<T>(c: Core<T>, t: Token, rest: seq<Token>)
    requires NewTokens(c, [t] + rest)
    ensures t.raw !in c.destroyed && forall u :: u in c.tokens ==> c.tokens[u].raw != t.raw
  {
    assert ([t] + rest)[0] == t;
  }

  /** The same with the client's new references noted. */
  function Enumerated<T(==), H, P>(s: Shell<T, H, P>, ws: seq<T>, ts: seq<Token>): Shell<T, H, P>
    requires |ws| == |ts|
  {
    if ws == [] then s
    else
      var n := |ws| - 1;
      NewToken(Enumerated(s, ws[..n], ts[..n]), ws[n], ts[n].raw, ts[n].adapter)
  }

  /** So an enumeration keeps the reference-count equation of the whole shell. */
  lemma {:induction false} EnumeratedKeeps<T, H, P>(s: Shell<T, H, P>, ws: seq<T>, ts: seq<Token>)
    requires |ws| == |ts| && Inv(s) && NewTokens(s.core, ts)
    requires Distinct(ws) && forall i :: 0 <= i < |ws| ==> ws[i] !in s.core.tokens
    ensures Inv(Enumerated(s, ws, ts))
    ensures Enumerated(s, ws, ts).core == WrapAll(s.core, ws, ts)
    decreases |ws|
  {
    hide CoreInv, Allocate, Held, Counted, HoldersLive, Distinct;
    if ws != [] {
      var n := |ws| - 1;
      PrefixStays(s.core, ws, ts, n);
      EnumeratedKeeps(s, ws[..n], ts[..n]);
      WrapAllKeeps(s.core, ws[..n], ts[..n]);
      NotYetThere(s.core, WrapAll(s.core, ws[..n], ts[..n]), ws, ts, n);
      NewTokenKeeps(Enumerated(s, ws[..n], ts[..n]), ws[n], ts[n].raw, ts[n].adapter);
    }
  }
}
