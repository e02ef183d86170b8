/** fpgaEnumerate over several adapters: which tokens it writes and how many it reports. */
module EnumerateSpec {
  import opened Lists
  import opened Results
  import opened TokenSpec
  import opened Word

  /** A wrapped token as the caller sees it: the adapter's token and whose it is. */
  datatype Token = Token(raw: int, adapter: Adapter)

  /**
   * One adapter and what its fpgaEnumerate answers: a code, and on success all the tokens
   * that match; it stores as many of them as the caller has room for.
   */
  datatype Source = Source(adapter: Adapter, canEnumerate: bool, res: FpgaResult, matches: seq<int>)

  /** The part of the enumeration context that changes. */
  datatype Context = Context(written: seq<Token>, numMatches: u32, errors: nat)

  function Answers(a: Source): bool {
    a.canEnumerate && a.res == Ok
  }

  function Tagged(a: Source): seq<Token> {
    seq(|a.matches|, i requires 0 <= i < |a.matches| => Token(a.matches[i], a.adapter))
  }

  /** Wrap and store tokens until there are none, no room, or no memory. */
  function Store(ctx: Context, ts: seq<Token>, max: nat, mallocOk: nat -> bool): (bool, Context)
    decreases |ts|
  {
    if ts == [] || max <= |ctx.written| then (|ctx.written| == max, ctx)
    else if !mallocOk(|ctx.written|) then (true, ctx.(errors := ctx.errors + 1))
    else Store(ctx.(written := ctx.written + [ts[0]]), ts[1..], max, mallocOk)
  }

  /** The callback opae_enumerate; the flag says that the walk over the adapters stops. */
  function Visit(ctx: Context, a: Source, wanted: bool, max: nat, mallocOk: nat -> bool): (bool, Context) {
    if wanted && max <= |ctx.written| then (true, ctx)
    else if !a.canEnumerate then (false, ctx)
    else if a.res != Ok then (false, ctx.(errors := ctx.errors + 1))
    else
      var ctx' := ctx.(numMatches := Wrap32(ctx.numMatches + |a.matches|));
      if !wanted then (false, ctx') else Store(ctx', Tagged(a), max, mallocOk)
  }

  /** opae_plugin_mgr_for_each_adapter with that callback. */
  function ForEach(ctx: Context, sources: seq<Source>, wanted: bool, max: nat, mallocOk: nat -> bool): Context
    decreases |sources|
  {
    if sources == [] then ctx
    else
      var (stop, ctx') := Visit(ctx, sources[0], wanted, max, mallocOk);
      if stop then ctx' else ForEach(ctx', sources[1..], wanted, max, mallocOk)
  }

  // ---- what is to be found ----

  /** What an adapter contributes: nothing unless it answers. */
  function Found(a: Source): seq<Token> {
    if Answers(a) then Tagged(a) else []
  }

  /** Every matching token of every answering adapter, in adapter order. */
  function AllTokens(sources: seq<Source>): seq<Token> {
    if sources == [] then []
    else Found(sources[0]) + AllTokens(sources[1..])
  }

  // ---- storing ----

  lemma {:induction false} StoreTakesPrefix(ctx: Context, ts: seq<Token>, max: nat, mallocOk: nat -> bool)
    requires |ctx.written| <= max && forall n :: mallocOk(n)
    ensures var (stop, ctx') := Store(ctx, ts, max, mallocOk);
            && ctx'.written == ctx.written + ts[..Min(|ts|, max - |ctx.written|)]
            && ctx'.numMatches == ctx.numMatches && ctx'.errors == ctx.errors
            && (stop <==> |ctx'.written| == max)
    decreases |ts|
  {
    if ts != [] && |ctx.written| < max {
      StoreTakesPrefix(ctx.(written := ctx.written + [ts[0]]), ts[1..], max, mallocOk);
      var n := Min(|ts|, max - |ctx.written|);
      assert ts[..n] == [ts[0]] + ts[1..][..n - 1];
    }
  }

  /** Even when memory runs out, what is stored is a prefix that fits. */
  lemma {:induction false} StoreBounded(ctx: Context, ts: seq<Token>, max: nat, mallocOk: nat -> bool)
    requires |ctx.written| <= max
    ensures var (_, ctx') := Store(ctx, ts, max, mallocOk);
            && ctx.written <= ctx'.written && |ctx'.written| <= max
            && ctx'.written <= ctx.written + ts
    decreases |ts|
  {
    if ts != [] && |ctx.written| < max && mallocOk(|ctx.written|) {
      StoreBounded(ctx.(written := ctx.written + [ts[0]]), ts[1..], max, mallocOk);
      assert ctx.written + [ts[0]] + ts[1..] == ctx.written + ts;
    }
  }

  // ---- the whole enumeration ----

  /**
   * With memory, exactly the first max tokens of all adapters together are written, in
   * adapter order and each with its adapter, whatever adapters fail.
   */
  lemma {:induction false} WritesFirstTokens(ctx: Context, sources: seq<Source>, max: nat, mallocOk: nat -> bool)
    requires |ctx.written| <= max && forall n :: mallocOk(n)
    ensures ForEach(ctx, sources, true, max, mallocOk).written ==
            ctx.written + AllTokens(sources)[..Min(|AllTokens(sources)|, max - |ctx.written|)]
    decreases |sources|
  {
    hide Visit, Found, Min;
    if sources == [] {
    } else if |ctx.written| == max {
      VisitFull(ctx, sources[0], max, mallocOk);
    } else {
      var a, rest := sources[0], sources[1..];
      var (stop, ctx') := Visit(ctx, a, true, max, mallocOk);
      VisitTakes(ctx, a, max, mallocOk);
      var room := max - |ctx.written|;
      var front := Found(a)[..Min(|Found(a)|, room)];
      PrefixOfConcat(Found(a), AllTokens(rest), room);
      var back := AllTokens(rest)[..Min(|AllTokens(rest)|, max - |ctx'.written|)];
      if !stop {
        WritesFirstTokens(ctx', rest, max, mallocOk);
      }
      assert ctx.written + front + back == ctx.written + (front + back);
    }
  }

  lemma VisitFull(ctx: Context, a: Source, max: nat, mallocOk: nat -> bool)
    requires max <= |ctx.written|
    ensures Visit(ctx, a, true, max, mallocOk) == (true, ctx)
  {
  }

  /** One visit with room left takes the front of what the adapter found. */
  lemma VisitTakes(ctx: Context, a: Source, max: nat, mallocOk: nat -> bool)
    requires |ctx.written| < max && forall n :: mallocOk(n)
    ensures var (stop, ctx') := Visit(ctx, a, true, max, mallocOk);
            && ctx'.written == ctx.written + Found(a)[..Min(|Found(a)|, max - |ctx.written|)]
            && (stop <==> |ctx'.written| == max)
  {
    if Answers(a) {
      StoreTakesPrefix(ctx.(numMatches := Wrap32(ctx.numMatches + |a.matches|)), Tagged(a), max, mallocOk);
    }
  }

  lemma PrefixOfConcat<T>(s: seq<T>, t: seq<T>, n: nat)
    ensures var m := Min(|s|, n);
            (s + t)[..Min(|s + t|, n)] == s[..m] + t[..Min(|t|, n - m)]
  {
  }

  /** The adapters that are visited before the walk stops. */
  function Visited(ctx: Context, sources: seq<Source>, wanted: bool, max: nat, mallocOk: nat -> bool): (k: nat)
    ensures k <= |sources|
    decreases |sources|
  {
    if sources == [] || (wanted && max <= |ctx.written|) then 0
    else
      var (stop, ctx') := Visit(ctx, sources[0], wanted, max, mallocOk);
      if stop then 1 else 1 + Visited(ctx', sources[1..], wanted, max, mallocOk)
  }

  lemma {:induction false} CountsVisited(
      ctx: Context, sources: seq<Source>, wanted: bool, max: nat, mallocOk: nat -> bool)
    requires |ctx.written| <= max
    ensures var k := Visited(ctx, sources, wanted, max, mallocOk);
            ForEach(ctx, sources, wanted, max, mallocOk).numMatches ==
            Wrap32(ctx.numMatches + |AllTokens(sources[..k])|)
    decreases |sources|
  {
    hide Store, Tagged;
    if sources != [] && !(wanted && max <= |ctx.written|) {
      var a, rest := sources[0], sources[1..];
      var (stop, ctx') := Visit(ctx, a, wanted, max, mallocOk);
      VisitCounts(ctx, a, wanted, max, mallocOk);
      var k := Visited(ctx, sources, wanted, max, mallocOk);
      assert sources[..k] == [a] + rest[..k - 1];
      AllTokensCons(a, rest[..k - 1]);
      if !stop {
        CountsVisited(ctx', rest, wanted, max, mallocOk);
        Wrap32Sum(ctx.numMatches + |Found(a)|, |AllTokens(rest[..k - 1])|);
      }
    }
  }

  lemma VisitCounts(ctx: Context, a: Source, wanted: bool, max: nat, mallocOk: nat -> bool)
    requires |ctx.written| <= max && !(wanted && max <= |ctx.written|)
    ensures var ctx' := Visit(ctx, a, wanted, max, mallocOk).1;
            ctx'.numMatches == Wrap32(ctx.numMatches + |Found(a)|) && |ctx'.written| <= max
  {
    if Answers(a) && wanted {
      var counted := ctx.(numMatches := Wrap32(ctx.numMatches + |a.matches|));
      StoreKeepsCount(counted, Tagged(a), max, mallocOk);
      StoreBounded(counted, Tagged(a), max, mallocOk);
    }
  }

  lemma AllTokensCons(a: Source, rest: seq<Source>)
    ensures AllTokens([a] + rest) == Found(a) + AllTokens(rest)
  {
    assert ([a] + rest)[1..] == rest;
  }

  lemma {:induction false} StoreKeepsCount(ctx: Context, ts: seq<Token>, max: nat, mallocOk: nat -> bool)
    ensures Store(ctx, ts, max, mallocOk).1.numMatches == ctx.numMatches
    decreases |ts|
  {
    if ts != [] && |ctx.written| < max && mallocOk(|ctx.written|) {
      StoreKeepsCount(ctx.(written := ctx.written + [ts[0]]), ts[1..], max, mallocOk);
    }
  }

  lemma {:induction false} AllTokensSplit(x: seq<Source>, y: seq<Source>)
    ensures AllTokens(x + y) == AllTokens(x) + AllTokens(y)
    decreases |x|
  {
    if x == [] {
      assert x + y == y;
    } else {
      assert x + y == [x[0]] + (x[1..] + y);
      AllTokensCons(x[0], x[1..] + y);
      AllTokensSplit(x[1..], y);
    }
  }

  const START: Context := Context([], 0, 0)

  /** The first adapters have enough matches to fill the array, and some adapter behind them has one too. */
  ghost predicate MatchesBehindFull(sources: seq<Source>, max: nat) {
    exists i :: 0 <= i <= |sources| && max <= |AllTokens(sources[..i])| && AllTokens(sources[i..]) != []
  }

  /**
   * fpgaEnumerate with a token array: it writes min(max, total) tokens, and that is also
   * min(max, *num_matches). *num_matches falls short of the total exactly when there is a
   * match in some adapter behind those whose matches fill the array.
   */
  lemma EnumerateCounts(sources: seq<Source>, max: nat, mallocOk: nat -> bool)
    requires |AllTokens(sources)| < TWO_32 && forall n :: mallocOk(n)
    ensures var end := ForEach(START, sources, true, max, mallocOk);
            && end.written == AllTokens(sources)[..Min(|AllTokens(sources)|, max)]
            && |end.written| == Min(max, end.numMatches)
            && end.numMatches <= |AllTokens(sources)|
            && (end.numMatches < |AllTokens(sources)| <==> MatchesBehindFull(sources, max))
  {
    hide ForEach, Visited, AllTokens;
    WritesFirstTokens(START, sources, max, mallocOk);
    CountsVisited(START, sources, true, max, mallocOk);
    var k := Visited(START, sources, true, max, mallocOk);
    SplitTokens(sources, k);
    VisitedAllOrFull(START, sources, max, mallocOk);
    if k == |sources| {
      NoTokens(sources);
    }
    if i :| 0 <= i <= |sources| && max <= |AllTokens(sources[..i])| && AllTokens(sources[i..]) != [] {
      SplitTokens(sources, i);
      if i < k {
        NotYetFull(START, sources, max, mallocOk, i);
      }
      SplitTokens(sources[k..], i - k);
      assert sources[k..][i - k..] == sources[i..];
    }
  }

  lemma NoTokens(sources: seq<Source>)
    ensures AllTokens(sources[|sources|..]) == []
  {
  }

  lemma SplitTokens(sources: seq<Source>, i: nat)
    requires i <= |sources|
    ensures AllTokens(sources) == AllTokens(sources[..i]) + AllTokens(sources[i..])
  {
    assert sources == sources[..i] + sources[i..];
    AllTokensSplit(sources[..i], sources[i..]);
  }

  /** The walk goes on only as long as the adapters visited have not filled the array. */
  lemma {:induction false} NotYetFull(ctx: Context, sources: seq<Source>, max: nat, mallocOk: nat -> bool, i: nat)
    requires |ctx.written| <= max && forall n :: mallocOk(n)
    requires i < Visited(ctx, sources, true, max, mallocOk)
    ensures |ctx.written| + |AllTokens(sources[..i])| < max
    decreases |sources|
  {
    hide Visit, Found;
    if i == 0 {
      assert AllTokens(sources[..0]) == [];
    } else {
      var a, rest := sources[0], sources[1..];
      var ctx' := Visit(ctx, a, true, max, mallocOk).1;
      VisitTakes(ctx, a, max, mallocOk);
      NotYetFull(ctx', rest, max, mallocOk, i - 1);
      assert sources[..i] == [a] + rest[..i - 1];
      AllTokensCons(a, rest[..i - 1]);
    }
  }

  /** Two adapters with one match each and room for one token: one is reported, two there are. */
  lemma CountFallsShort(a: Source, b: Source, mallocOk: nat -> bool)
    requires Answers(a) && Answers(b) && |a.matches| == |b.matches| == 1 && forall n :: mallocOk(n)
    ensures ForEach(START, [a, b], true, 1, mallocOk).numMatches == 1
    ensures |AllTokens([a, b])| == 2
  {
    assert [a, b] == [a] + [b] && [b] == [b] + [];
    AllTokensCons(a, [b]);
    AllTokensCons(b, []);
    StoreTakesPrefix(START.(numMatches := 1), Tagged(a), 1, mallocOk);
  }

  lemma {:induction false} VisitedAllOrFull(ctx: Context, sources: seq<Source>, max: nat, mallocOk: nat -> bool)
    requires |ctx.written| <= max && forall n :: mallocOk(n)
    ensures var k := Visited(ctx, sources, true, max, mallocOk);
            k == |sources| || |ctx.written| + |AllTokens(sources[..k])| >= max
    decreases |sources|
  {
    if sources != [] && |ctx.written| < max {
      var a, rest := sources[0], sources[1..];
      var (stop, ctx') := Visit(ctx, a, true, max, mallocOk);
      if Answers(a) {
        StoreTakesPrefix(ctx.(numMatches := Wrap32(ctx.numMatches + |a.matches|)), Tagged(a), max, mallocOk);
      }
      var k := Visited(ctx, sources, true, max, mallocOk);
      assert sources[..k] == [a] + rest[..k - 1];
      AllTokensCons(a, rest[..k - 1]);
      if !stop {
        VisitedAllOrFull(ctx', rest, max, mallocOk);
      }
    }
  }

  /** Without a token array the walk visits every adapter, so the count is the total. */
  lemma {:induction false} CountOnlyVisitsAll(ctx: Context, sources: seq<Source>, max: nat, mallocOk: nat -> bool)
    ensures Visited(ctx, sources, false, max, mallocOk) == |sources|
    decreases |sources|
  {
    if sources != [] {
      CountOnlyVisitsAll(Visit(ctx, sources[0], false, max, mallocOk).1, sources[1..], max, mallocOk);
    }
  }

  /** So the count is the total over all adapters, as far as 32 bits can tell. */
  lemma CountOnlyIsTotal(sources: seq<Source>, mallocOk: nat -> bool)
    ensures ForEach(START, sources, false, 0, mallocOk).numMatches == Wrap32(|AllTokens(sources)|)
  {
    CountOnlyVisitsAll(START, sources, 0, mallocOk);
    CountsVisited(START, sources, false, 0, mallocOk);
    assert sources[..|sources|] == sources;
  }

  /** Memory failing anywhere, no slot past max is ever written. */
  lemma {:induction false} NeverPastMax(
      ctx: Context, sources: seq<Source>, wanted: bool, max: nat, mallocOk: nat -> bool)
    requires |ctx.written| <= max
    ensures |ForEach(ctx, sources, wanted, max, mallocOk).written| <= max
    ensures ctx.written <= ForEach(ctx, sources, wanted, max, mallocOk).written
    decreases |sources|
  {
    if sources != [] {
      var a := sources[0];
      var (stop, ctx') := Visit(ctx, a, wanted, max, mallocOk);
      if wanted && |ctx.written| < max && Answers(a) {
        StoreBounded(ctx.(numMatches := Wrap32(ctx.numMatches + |a.matches|)), Tagged(a), max, mallocOk);
      }
      if !stop {
        NeverPastMax(ctx', sources[1..], wanted, max, mallocOk);
      }
    }
  }
}
