/** What fpgaEnumerate writes, counts and returns, read off the adapters alone. */
module EnumerateEffects {
  import opened Lists
  import opened Results
  import opened Word
  import opened EnumerateSpec

  /** An adapter that can enumerate and does not manage to. */
  predicate Fails(a: Source) {
    a.canEnumerate && a.res != Ok
  }

  /** With a token array the walk comes to adapter i only if those before it have not filled the array. */
  predicate Reached(sources: seq<Source>, wanted: bool, max: nat, i: nat)
    requires i <= |sources|
  {
    wanted ==> |AllTokens(sources[..i])| < max
  }

  function Failing(sources: seq<Source>, wanted: bool, max: nat): set<nat> {
    set i: nat | i < |sources| && Fails(sources[i]) && Reached(sources, wanted, max, i)
  }

  // ---- which token is where ----

  /** How many tokens the adapters that answer have between them. */
  function Total(sources: seq<Source>): nat {
    if sources == [] then 0
    else (if sources[0].canEnumerate && sources[0].res == Ok then |sources[0].matches| else 0) + Total(sources[1..])
  }

  lemma {:induction false} TotalIsAll(sources: seq<Source>)
    ensures |AllTokens(sources)| == Total(sources)
  {
    if sources != [] {
      TotalIsAll(sources[1..]);
    }
  }

  /** Token j of adapter i stands behind all those of the adapters before. */
  lemma TokenAt(sources: seq<Source>, i: nat, j: nat)
    requires i < |sources| && sources[i].canEnumerate && sources[i].res == Ok && j < |sources[i].matches|
    ensures Total(sources[..i]) + j < |AllTokens(sources)|
    ensures AllTokens(sources)[Total(sources[..i]) + j] == Token(sources[i].matches[j], sources[i].adapter)
  {
    hide AllTokens, Total;
    SplitTokens(sources, i);
    TotalIsAll(sources[..i]);
    assert sources[i..] == [sources[i]] + sources[i + 1..];
    AllTokensCons(sources[i], sources[i + 1..]);
  }

  /**
   * With memory, as many tokens are written as there are, up to max, and match j of adapter
   * i is the one behind all matches of the adapters before it, under its own adapter.
   */
  lemma WrittenInOrder(sources: seq<Source>, max: nat, mallocOk: nat -> bool, i: nat, j: nat)
    requires forall n :: mallocOk(n)
    requires i < |sources| && sources[i].canEnumerate && sources[i].res == Ok && j < |sources[i].matches|
    ensures var written := ForEach(START, sources, true, max, mallocOk).written;
            && |written| == Min(Total(sources), max)
            && (Total(sources[..i]) + j < max ==>
                  && Total(sources[..i]) + j < |written|
                  && written[Total(sources[..i]) + j] == Token(sources[i].matches[j], sources[i].adapter))
  {
    hide AllTokens, Total, ForEach;
    WritesFirstTokens(START, sources, max, mallocOk);
    TotalIsAll(sources);
    TokenAt(sources, i, j);
  }

  // ---- counting ----

  function FailSet(sources: seq<Source>): set<nat> {
    set i: nat | i < |sources| && Fails(sources[i])
  }

  lemma FailSetAppend(s: seq<Source>, b: Source)
    ensures |FailSet(s + [b])| == |FailSet(s)| + if Fails(b) then 1 else 0
  {
    assert FailSet(s + [b]) == FailSet(s) + (if Fails(b) then {|s|} else {});
  }

  lemma {:induction false} FailSetCons(a: Source, s: seq<Source>)
    ensures |FailSet([a] + s)| == (if Fails(a) then 1 else 0) + |FailSet(s)|
    decreases |s|
  {
    if s == [] {
      assert [a] + s == [] + [a];
      FailSetAppend([], a);
    } else {
      var front, b := s[..|s| - 1], s[|s| - 1];
      FailSetCons(a, front);
      FailSetAppend(front, b);
      FailSetAppend([a] + front, b);
      assert front + [b] == s && [a] + front + [b] == [a] + s;
    }
  }

  lemma VisitErrors(ctx: Context, a: Source, wanted: bool, max: nat, mallocOk: nat -> bool)
    requires |ctx.written| <= max && !(wanted && max <= |ctx.written|) && forall n :: mallocOk(n)
    ensures var ctx' := Visit(ctx, a, wanted, max, mallocOk).1;
            ctx'.errors == ctx.errors + (if Fails(a) then 1 else 0) && |ctx'.written| <= max
  {
    if Answers(a) && wanted {
      StoreTakesPrefix(ctx.(numMatches := Wrap32(ctx.numMatches + |a.matches|)), Tagged(a), max, mallocOk);
    }
  }

  lemma {:induction false} ErrorsOfVisited(
      ctx: Context, sources: seq<Source>, wanted: bool, max: nat, mallocOk: nat -> bool)
    requires |ctx.written| <= max && forall n :: mallocOk(n)
    ensures var k := Visited(ctx, sources, wanted, max, mallocOk);
            ForEach(ctx, sources, wanted, max, mallocOk).errors == ctx.errors + |FailSet(sources[..k])|
    decreases |sources|
  {
    hide Visit, FailSet;
    assert FailSet([]) == {} by {
      NoFailures();
    }
    if sources != [] && !(wanted && max <= |ctx.written|) {
      var a, rest := sources[0], sources[1..];
      var (stop, ctx') := Visit(ctx, a, wanted, max, mallocOk);
      VisitErrors(ctx, a, wanted, max, mallocOk);
      var k := Visited(ctx, sources, wanted, max, mallocOk);
      assert sources[..k] == [a] + rest[..k - 1];
      FailSetCons(a, rest[..k - 1]);
      if stop {
        assert rest[..0] == [];
      } else {
        ErrorsOfVisited(ctx', rest, wanted, max, mallocOk);
      }
    } else {
      assert sources[..0] == [];
      if sources != [] {
        VisitFull(ctx, sources[0], max, mallocOk);
      }
    }
  }

  lemma NoFailures()
    ensures FailSet([]) == {}
  {
  }

  lemma TokensGrow(sources: seq<Source>, i: nat, j: nat)
    requires i <= j <= |sources|
    ensures |AllTokens(sources[..i])| <= |AllTokens(sources[..j])|
  {
    SplitTokens(sources[..j], i);
    assert sources[..j][..i] == sources[..i];
  }

  lemma VisitedIffReached(sources: seq<Source>, wanted: bool, max: nat, mallocOk: nat -> bool, i: nat)
    requires i < |sources| && forall n :: mallocOk(n)
    ensures Reached(sources, wanted, max, i) <==> i < Visited(START, sources, wanted, max, mallocOk)
  {
    var k := Visited(START, sources, wanted, max, mallocOk);
    if !wanted {
      CountOnlyVisitsAll(START, sources, max, mallocOk);
    } else if i < k {
      NotYetFull(START, sources, max, mallocOk, i);
    } else {
      VisitedAllOrFull(START, sources, max, mallocOk);
      TokensGrow(sources, k, i);
    }
  }

  // ---- the result ----

  /**
   * With memory, the errors counted are the adapters that fail among those the walk comes
   * to; so fpgaEnumerate returns Ok exactly when no such adapter fails.
   */
  lemma ErrorsAreFailures(sources: seq<Source>, wanted: bool, max: nat, mallocOk: nat -> bool)
    requires forall n :: mallocOk(n)
    ensures ForEach(START, sources, wanted, max, mallocOk).errors == |Failing(sources, wanted, max)|
    ensures ForEach(START, sources, wanted, max, mallocOk).errors == 0 <==>
            forall i :: 0 <= i < |sources| && Fails(sources[i]) ==> !Reached(sources, wanted, max, i)
  {
    hide ForEach, Visited, Reached;
    ErrorsOfVisited(START, sources, wanted, max, mallocOk);
    var k := Visited(START, sources, wanted, max, mallocOk);
    forall i: nat | i < |sources|
      ensures Reached(sources, wanted, max, i) <==> i < k
    {
      VisitedIffReached(sources, wanted, max, mallocOk, i);
    }
    assert Failing(sources, wanted, max) == FailSet(sources[..k]);
    forall i | 0 <= i < |sources| && Fails(sources[i]) && Reached(sources, wanted, max, i)
      ensures i in Failing(sources, wanted, max)
    {
    }
  }

  // ---- without memory ----

  /** The first refused wrapper ends the storing with one error. */
  lemma {:induction false} StoreRefused(ctx: Context, ts: seq<Token>, max: nat, mallocOk: nat -> bool, n: nat)
    requires |ctx.written| <= n < max && n < |ctx.written| + |ts|
    requires !mallocOk(n) && forall m: nat :: m < n ==> mallocOk(m)
    ensures Store(ctx, ts, max, mallocOk) ==
            (true, ctx.(written := ctx.written + ts[..n - |ctx.written|], errors := ctx.errors + 1))
    decreases |ts|
  {
    if |ctx.written| < n {
      StoreRefused(ctx.(written := ctx.written + [ts[0]]), ts[1..], max, mallocOk, n);
      assert ctx.written + [ts[0]] + ts[1..][..n - |ctx.written| - 1] == ctx.written + ts[..n - |ctx.written|];
    } else {
      assert ctx.written + ts[..0] == ctx.written;
    }
  }

  lemma {:induction false} StoreNotRefused(ctx: Context, ts: seq<Token>, max: nat, mallocOk: nat -> bool, n: nat)
    requires |ctx.written| + |ts| <= n < max && forall m: nat :: m < n ==> mallocOk(m)
    ensures Store(ctx, ts, max, mallocOk) == (false, ctx.(written := ctx.written + ts))
    decreases |ts|
  {
    if ts != [] {
      StoreNotRefused(ctx.(written := ctx.written + [ts[0]]), ts[1..], max, mallocOk, n);
      assert ctx.written + [ts[0]] + ts[1..] == ctx.written + ts;
    } else {
      assert ctx.written + ts == ctx.written;
    }
  }

  /** Running out of memory at wrapper n is like having room for one more only, and an error. */
  lemma {:induction false} LikeFull(
      ctx: Context, sources: seq<Source>, max: nat, mallocOk: nat -> bool, yes: nat -> bool, n: nat)
    requires |ctx.written| <= n < max && n < |ctx.written| + |AllTokens(sources)|
    requires !mallocOk(n) && (forall m: nat :: m < n ==> mallocOk(m)) && forall m :: yes(m)
    ensures var end, full := ForEach(ctx, sources, true, max, mallocOk), ForEach(ctx, sources, true, n + 1, yes);
            && |full.written| == n + 1 && end.written == full.written[..n]
            && end.numMatches == full.numMatches && end.errors == full.errors + 1
    decreases |sources|
  {
    hide Store, Tagged;
    var a, rest := sources[0], sources[1..];
    if Answers(a) {
      var ts, counted := Tagged(a), ctx.(numMatches := Wrap32(ctx.numMatches + |a.matches|));
      if |ctx.written| + |ts| <= n {
        StoreNotRefused(counted, ts, max, mallocOk, n);
        StoreNotRefused(counted, ts, n + 1, yes, n);
        LikeFull(counted.(written := ctx.written + ts), rest, max, mallocOk, yes, n);
      } else {
        StoreRefused(counted, ts, max, mallocOk, n);
        StoreTakesPrefix(counted, ts, n + 1, yes);
      }
    } else {
      LikeFull(Visit(ctx, a, true, max, mallocOk).1, rest, max, mallocOk, yes, n);
    }
  }

  /**
   * When malloc refuses the wrapper of token n, the tokens before it are written, and the
   * errors are this one and the adapters that fail before the one that token is from.
   */
  lemma OutOfMemory(sources: seq<Source>, max: nat, mallocOk: nat -> bool, n: nat)
    requires n < max && n < |AllTokens(sources)| && !mallocOk(n) && forall m: nat :: m < n ==> mallocOk(m)
    ensures var end := ForEach(START, sources, true, max, mallocOk);
            && end.written == AllTokens(sources)[..n]
            && end.errors == |Failing(sources, true, n + 1)| + 1
  {
    hide ForEach, AllTokens;
    var yes := (m: nat) => true;
    LikeFull(START, sources, max, mallocOk, yes, n);
    WritesFirstTokens(START, sources, n + 1, yes);
    ErrorsAreFailures(sources, true, n + 1, yes);
  }
}
