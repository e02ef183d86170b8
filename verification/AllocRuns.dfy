/** What the allocator promises over whole runs of its operations. */
module AllocRuns {
  import opened Word
  import opened Blocks
  import opened Lists
  import opened AllocSpec
  import opened AllocProofs

  /** One call, with the answer malloc would give it if asked. */
  datatype Op =
    | AddRegion(region: Block, mallocOk: bool)
    | Take(size: u64, mallocOk: bool)
    | Return(base: u64, mallocOk: bool)

  function Step(st: Alloc, op: Op): Alloc {
    match op
    case AddRegion(r, mallocOk) => st.(free := AddFree(st.free, r.address, r.size, mallocOk).1)
    case Take(size, mallocOk) => Get(st, size, mallocOk).2
    case Return(base, mallocOk) => Put(st, base, mallocOk).1
  }

  function Run(st: Alloc, ops: seq<Op>): Alloc
    decreases |ops|
  {
    if ops == [] then st else Run(Step(st, ops[0]), ops[1..])
  }

  /** An address the allocator knows of, free or handed out. */
  ghost predicate Tracked(st: Alloc, a: int) {
    Covers(st.free, a) || Covers(st.inUse, a)
  }

  /** What callers owe: positive sizes, and new regions off everything tracked and off hole. */
  ghost predicate Allowed(st: Alloc, op: Op, hole: int) {
    match op
    case AddRegion(r, _) =>
      r.WellFormed() && !r.Holds(hole) && DisjointFromAll(r, st.free) && DisjointFromAll(r, st.inUse)
    case Take(size, _) => 0 < size
    case Return(_, _) => true
  }

  ghost predicate AllowedRun(st: Alloc, ops: seq<Op>, hole: int)
    decreases |ops|
  {
    ops == [] || (Allowed(st, ops[0], hole) && AllowedRun(Step(st, ops[0]), ops[1..], hole))
  }

  /** The invariant together with an address that was never handed to the allocator. */
  ghost predicate Good(st: Alloc, hole: int) {
    Inv(st) && 0 <= hole < TWO_64 && !Tracked(st, hole)
  }

  // ---- single steps ----

  lemma AddRegionKeeps(st: Alloc, r: Block, mallocOk: bool, hole: int)
    requires Good(st, hole) && Allowed(st, AddRegion(r, mallocOk), hole)
    ensures Good(Step(st, AddRegion(r, mallocOk)), hole)
    ensures forall a :: Tracked(Step(st, AddRegion(r, mallocOk)), a) <==> Tracked(st, a) || (mallocOk && r.Holds(a))
  {
    if mallocOk {
      AddFreeKeeps(st.free, r, hole);
      var free' := AddFree(st.free, r.address, r.size, true).1;
      UsedStayDisjoint(st, r, free');
    }
  }

  lemma UsedStayDisjoint(st: Alloc, r: Block, free': seq<Block>)
    requires Inv(st) && Canonical(free') && r.WellFormed() && DisjointFromAll(r, st.inUse)
    requires forall a :: Covers(free', a) ==> Covers(st.free, a) || r.Holds(a)
    ensures forall i :: 0 <= i < |st.inUse| ==> DisjointFromAll(st.inUse[i], free')
  {
    forall i | 0 <= i < |st.inUse|
      ensures DisjointFromAll(st.inUse[i], free')
    {
      DisjointByAddress(st.inUse[i], st.free);
      DisjointByAddress(st.inUse[i], free');
    }
  }

  lemma TakeKeeps(st: Alloc, size: u64, mallocOk: bool, hole: int)
    requires Good(st, hole) && 0 < size
    ensures Good(Get(st, size, mallocOk).2, hole)
    ensures forall a :: Tracked(Get(st, size, mallocOk).2, a) <==> Tracked(st, a)
  {
    var (code, address, st') := Get(st, size, mallocOk);
    if code == OK {
      var k := FirstFit(st.free, size);
      var cut := Block(st.free[k].address, size);
      CutFrontKeeps(st.free, k, size);
      assert st'.free == CutFront(st.free, k, size);
      assert st'.inUse == st.inUse + [cut];
      CutIsApart(st, k, cut);
      forall a
        ensures Covers(st'.inUse, a) <==> Covers(st.inUse, a) || cut.Holds(a)
        ensures cut.Holds(a) ==> Covers(st.free, a)
      {
        CoversConcat(st.inUse, [cut], a);
        CoversOne(cut, a);
        if cut.Holds(a) {
          assert st.free[k].Holds(a);
        }
      }
      UsedStayDisjoint(st, cut, st'.free);
      DisjointByAddress(cut, st'.free);
      AppendUsed(st, cut);
    }
  }

  lemma CutIsApart(st: Alloc, k: nat, cut: Block)
    requires Inv(st) && k < |st.free| && cut.address == st.free[k].address && cut.size <= st.free[k].size
    ensures DisjointFromAll(cut, st.inUse)
  {
    forall i | 0 <= i < |st.inUse|
      ensures st.inUse[i].Disjoint(cut)
    {
      assert st.free[k].Disjoint(st.inUse[i]);
    }
  }

  lemma AppendUsed(st: Alloc, b: Block)
    requires Inv(st) && DisjointFromAll(b, st.inUse)
    ensures PairwiseDisjoint(st.inUse + [b])
  {
  }

  lemma ReturnKeeps(st: Alloc, base: u64, mallocOk: bool, hole: int)
    requires Good(st, hole)
    ensures Good(Put(st, base, mallocOk).1, hole)
    ensures forall a :: Tracked(Put(st, base, mallocOk).1, a) ==> Tracked(st, a)
    ensures mallocOk ==> forall a :: Tracked(Put(st, base, mallocOk).1, a) <==> Tracked(st, a)
    ensures Put(st, base, mallocOk).0 != DOUBLE_FREE
    ensures mallocOk ==> (Put(st, base, mallocOk).0 == OK <==> FindBase(st.inUse, base) < |st.inUse|)
  {
    var k := FindBase(st.inUse, base);
    if k < |st.inUse| {
      var b := st.inUse[k];
      var rest := st.(inUse := Remove(st.inUse, k));
      RemoveUsed(st, k);
      forall a
        ensures Tracked(st, a) <==> Tracked(rest, a) || b.Holds(a)
      {
        CoversAround(st.inUse, k, a);
      }
      assert Put(st, base, mallocOk).1 == Step(rest, AddRegion(b, mallocOk));
      AddRegionKeeps(rest, b, mallocOk, hole);
      if mallocOk {
        AddFreeKeeps(rest.free, b, hole);
      }
    }
  }

  lemma RemoveUsed(st: Alloc, k: nat)
    requires Inv(st) && k < |st.inUse|
    ensures Inv(st.(inUse := Remove(st.inUse, k)))
    ensures DisjointFromAll(st.inUse[k], Remove(st.inUse, k))
  {
  }

  lemma StepKeeps(st: Alloc, op: Op, hole: int)
    requires Good(st, hole) && Allowed(st, op, hole)
    ensures Good(Step(st, op), hole)
    ensures forall a :: Tracked(Step(st, op), a) ==> Tracked(st, a) || (op.AddRegion? && op.region.Holds(a))
    ensures op.mallocOk ==> forall a ::
              Tracked(Step(st, op), a) <==> Tracked(st, a) || (op.AddRegion? && op.region.Holds(a))
  {
    match op
    case AddRegion(r, mallocOk) => AddRegionKeeps(st, r, mallocOk, hole);
    case Take(size, mallocOk) => TakeKeeps(st, size, mallocOk, hole);
    case Return(base, mallocOk) => ReturnKeeps(st, base, mallocOk, hole);
  }

  // ---- whole runs ----

  /** Safety: every allowed run, with malloc failing at will, keeps the invariant. */
  lemma {:induction false} RunKeeps(st: Alloc, ops: seq<Op>, hole: int)
    requires Good(st, hole) && AllowedRun(st, ops, hole)
    ensures Good(Run(st, ops), hole)
    decreases |ops|
  {
    if ops != [] {
      StepKeeps(st, ops[0], hole);
      RunKeeps(Step(st, ops[0]), ops[1..], hole);
    }
  }

  /**
   * What callers owe, read off the calls alone: positive sizes, and regions that are well
   * formed, off hole and off one another.
   */
  ghost predicate Orderly(ops: seq<Op>, hole: int) {
    && (forall i :: 0 <= i < |ops| ==>
          match ops[i]
          case AddRegion(r, _) => r.WellFormed() && !r.Holds(hole)
          case Take(size, _) => 0 < size
          case Return(_, _) => true)
    && (forall i, j :: 0 <= i < j < |ops| && ops[i].AddRegion? && ops[j].AddRegion? ==>
          ops[i].region.Disjoint(ops[j].region))
  }

  /** No region still to come overlaps what is tracked now. */
  ghost predicate Clear(st: Alloc, ops: seq<Op>) {
    forall i :: 0 <= i < |ops| && ops[i].AddRegion? ==>
      DisjointFromAll(ops[i].region, st.free) && DisjointFromAll(ops[i].region, st.inUse)
  }

  /** Orderly calls are allowed in every state that they lead to. */
  lemma {:induction false} OrderlyIsAllowed(st: Alloc, ops: seq<Op>, hole: int)
    requires Good(st, hole) && Orderly(ops, hole) && Clear(st, ops)
    ensures AllowedRun(st, ops, hole)
    decreases |ops|
  {
    hide Good, Step, DisjointFromAll;
    if ops != [] {
      StepKeeps(st, ops[0], hole);
      forall i | 0 <= i < |ops[1..]| && ops[1..][i].AddRegion?
        ensures DisjointFromAll(ops[1..][i].region, Step(st, ops[0]).free)
        ensures DisjointFromAll(ops[1..][i].region, Step(st, ops[0]).inUse)
      {
        assert ops[1..][i] == ops[i + 1];
        StaysClear(st, ops[0], ops[i + 1].region, hole);
      }
      OrderlyIsAllowed(Step(st, ops[0]), ops[1..], hole);
    }
  }

  lemma StaysClear(st: Alloc, op: Op, r: Block, hole: int)
    requires Good(st, hole) && Allowed(st, op, hole) && r.WellFormed()
    requires DisjointFromAll(r, st.free) && DisjointFromAll(r, st.inUse)
    requires op.AddRegion? ==> op.region.Disjoint(r)
    ensures DisjointFromAll(r, Step(st, op).free) && DisjointFromAll(r, Step(st, op).inUse)
  {
    hide Step;
    var st' := Step(st, op);
    StepKeeps(st, op, hole);
    DisjointByAddress(r, st.free);
    DisjointByAddress(r, st.inUse);
    forall a | r.Holds(a)
      ensures !Tracked(st', a)
    {
      assert !Tracked(st, a);
    }
    DisjointByAddress(r, st'.free);
    DisjointByAddress(r, st'.inUse);
  }

  /** Every run of orderly calls from the empty allocator keeps the invariant. */
  lemma OrderlyRunKeeps(ops: seq<Op>, hole: int)
    requires 0 <= hole < TWO_64 && Orderly(ops, hole)
    ensures Good(Run(EMPTY, ops), hole)
  {
    OrderlyIsAllowed(EMPTY, ops, hole);
    RunKeeps(EMPTY, ops, hole);
  }

  ghost predicate MallocWorks(ops: seq<Op>) {
    forall i :: 0 <= i < |ops| ==> ops[i].mallocOk
  }

  /** The regions that a run adds, in order. */
  function Added(ops: seq<Op>): seq<Block> {
    if ops == [] then []
    else (if ops[0].AddRegion? then [ops[0].region] else []) + Added(ops[1..])
  }

  /** The same run without its gets and puts. */
  function OnlyAdds(ops: seq<Op>): seq<Op> {
    if ops == [] then []
    else (if ops[0].AddRegion? then [ops[0]] else []) + OnlyAdds(ops[1..])
  }

  lemma AddedCovers(op: Op, rest: seq<Op>, a: int)
    ensures Covers(Added([op] + rest), a) <==> (op.AddRegion? && op.region.Holds(a)) || Covers(Added(rest), a)
  {
    var here := if op.AddRegion? then [op.region] else [];
    assert ([op] + rest)[1..] == rest;
    assert Added([op] + rest) == here + Added(rest);
    CoversConcat(here, Added(rest), a);
    if op.AddRegion? {
      CoversOne(op.region, a);
    }
  }

  /** Conservation: free and handed-out addresses together are the regions added so far. */
  lemma {:induction false} RunConserves(st: Alloc, ops: seq<Op>, hole: int)
    requires Good(st, hole) && AllowedRun(st, ops, hole) && MallocWorks(ops)
    ensures forall a :: Tracked(Run(st, ops), a) <==> Tracked(st, a) || Covers(Added(ops), a)
    decreases |ops|
  {
    if ops != [] {
      var st' := Step(st, ops[0]);
      StepKeeps(st, ops[0], hole);
      RunConserves(st', ops[1..], hole);
      forall a
        ensures Tracked(Run(st, ops), a) <==> Tracked(st, a) || Covers(Added(ops), a)
      {
        assert [ops[0]] + ops[1..] == ops;
        AddedCovers(ops[0], ops[1..], a);
      }
    }
  }

  /** adds has everything free that st tracks. */
  ghost predicate SameSpace(st: Alloc, adds: Alloc) {
    adds.inUse == [] && forall a :: Covers(adds.free, a) <==> Tracked(st, a)
  }

  lemma AddBoth(st: Alloc, adds: Alloc, op: Op, hole: int)
    requires Good(st, hole) && Good(adds, hole) && SameSpace(st, adds)
    requires Allowed(st, op, hole) && op.mallocOk && op.AddRegion?
    ensures Good(Step(adds, op), hole) && SameSpace(Step(st, op), Step(adds, op))
  {
    RegionFreshForAdds(st, adds, op.region);
    StepKeeps(st, op, hole);
    StepKeeps(adds, op, hole);
    forall a
      ensures Covers(Step(adds, op).free, a) <==> Tracked(Step(st, op), a)
    {
      assert Tracked(Step(adds, op), a) <==> Tracked(adds, a) || op.region.Holds(a);
      assert Tracked(Step(st, op), a) <==> Tracked(st, a) || op.region.Holds(a);
    }
  }

  lemma {:induction false} AddsInStep(st: Alloc, adds: Alloc, ops: seq<Op>, hole: int)
    requires Good(st, hole) && Good(adds, hole) && SameSpace(st, adds)
    requires AllowedRun(st, ops, hole) && MallocWorks(ops)
    ensures Good(Run(adds, OnlyAdds(ops)), hole)
    ensures SameSpace(Run(st, ops), Run(adds, OnlyAdds(ops)))
    decreases |ops|
  {
    if ops != [] {
      var op, rest := ops[0], ops[1..];
      StepKeeps(st, op, hole);
      if op.AddRegion? {
        AddBoth(st, adds, op, hole);
        AddsInStep(Step(st, op), Step(adds, op), rest, hole);
        RunFirst(adds, op, OnlyAdds(rest));
      } else {
        assert SameSpace(Step(st, op), adds);
        AddsInStep(Step(st, op), adds, rest, hole);
        assert OnlyAdds(ops) == OnlyAdds(rest);
      }
    }
  }

  lemma RunFirst(st: Alloc, op: Op, rest: seq<Op>)
    ensures Run(st, [op] + rest) == Run(Step(st, op), rest)
  {
    assert ([op] + rest)[1..] == rest;
  }

  lemma RegionFreshForAdds(st: Alloc, adds: Alloc, r: Block)
    requires Inv(st) && Inv(adds) && SameSpace(st, adds) && r.WellFormed()
    requires DisjointFromAll(r, st.free) && DisjointFromAll(r, st.inUse)
    ensures DisjointFromAll(r, adds.free)
  {
    DisjointByAddress(r, st.free);
    DisjointByAddress(r, st.inUse);
    DisjointByAddress(r, adds.free);
  }

  /**
   * Restoration: a run that ends with nothing handed out leaves exactly the free list
   * that adding the same regions, and doing nothing else, would give. The gets and puts
   * may come in any order and interleave with the additions.
   */
  lemma AllReturnedRestores(ops: seq<Op>, hole: int)
    requires 0 <= hole < TWO_64 && Orderly(ops, hole) && MallocWorks(ops)
    requires Run(EMPTY, ops).inUse == []
    ensures Run(EMPTY, ops) == Run(EMPTY, OnlyAdds(ops))
    ensures forall a :: Covers(Run(EMPTY, ops).free, a) <==> Covers(Added(ops), a)
  {
    OrderlyIsAllowed(EMPTY, ops, hole);
    var st, adds := Run(EMPTY, ops), Run(EMPTY, OnlyAdds(ops));
    AddsInStep(EMPTY, EMPTY, ops, hole);
    RunKeeps(EMPTY, ops, hole);
    RunConserves(EMPTY, ops, hole);
    CanonicalUnique(st.free, adds.free);
  }

  /** A get followed by the put of what it returned changes nothing. */
  lemma GetThenPut(st: Alloc, size: u64, mallocOk: bool, hole: int)
    requires Good(st, hole) && 0 < size && Get(st, size, mallocOk).0 == OK
    ensures var (_, address, st') := Get(st, size, mallocOk);
            Put(st', address, true) == (OK, st)
  {
    var (_, address, st') := Get(st, size, mallocOk);
    TakeKeeps(st, size, mallocOk, hole);
    LastUsed(st, size, mallocOk);
    BaseIsUnique(st', |st.inUse|);
    ReturnKeeps(st', address, true, hole);
    SameFree(st, Put(st', address, true).1);
  }

  lemma LastUsed(st: Alloc, size: u64, mallocOk: bool)
    requires Get(st, size, mallocOk).0 == OK
    ensures var (_, address, st') := Get(st, size, mallocOk);
            && |st'.inUse| == |st.inUse| + 1
            && st'.inUse[|st.inUse|] == Block(address, size)
            && Remove(st'.inUse, |st.inUse|) == st.inUse
  {
  }

  lemma SameFree(x: Alloc, y: Alloc)
    requires Inv(x) && Inv(y) && x.inUse == y.inUse
    requires forall a :: Tracked(x, a) <==> Tracked(y, a)
    ensures x == y
  {
    forall a
      ensures Covers(x.free, a) <==> Covers(y.free, a)
    {
      assert Tracked(x, a) <==> Tracked(y, a);
      NotBoth(x, a);
      NotBoth(y, a);
    }
    CanonicalUnique(x.free, y.free);
  }

  lemma BaseIsUnique(st: Alloc, n: nat)
    requires Inv(st) && n < |st.inUse|
    ensures FindBase(st.inUse, st.inUse[n].address) == n
  {
    var k := FindBase(st.inUse, st.inUse[n].address);
    assert k < n ==> st.inUse[k].Disjoint(st.inUse[n]);
  }

  lemma NotBoth(st: Alloc, a: int)
    requires Inv(st)
    ensures !(Covers(st.free, a) && Covers(st.inUse, a))
  {
    if Covers(st.inUse, a) {
      var i :| 0 <= i < |st.inUse| && st.inUse[i].Holds(a);
      DisjointByAddress(st.inUse[i], st.free);
    }
  }

  /**
   * mem_alloc_put with a working malloc succeeds exactly on the bases of live
   * allocations, and never meets the double-free return of mem_alloc_add_free.
   */
  lemma PutExactlyLiveBases(st: Alloc, base: u64, hole: int)
    requires Good(st, hole)
    ensures Put(st, base, true).0 == OK <==> exists i :: 0 <= i < |st.inUse| && st.inUse[i].address == base
    ensures Put(st, base, true).0 == FAILED ==> Put(st, base, true).1 == st
    ensures forall mallocOk :: Put(st, base, mallocOk).0 != DOUBLE_FREE
  {
    forall mallocOk
      ensures Put(st, base, mallocOk).0 != DOUBLE_FREE
    {
      ReturnKeeps(st, base, mallocOk, hole);
    }
    ReturnKeeps(st, base, true, hole);
  }

  /** A get keeps the state sound exactly when the size is not zero. */
  lemma GetKeepsIffPositive(st: Alloc, size: u64, mallocOk: bool, hole: int)
    requires Good(st, hole) && Get(st, size, mallocOk).0 == OK
    ensures Good(Get(st, size, mallocOk).2, hole) <==> 0 < size
    ensures size == 0 ==>
              Get(Get(st, size, mallocOk).2, 0, true).1 == Get(st, size, mallocOk).1
  {
    var (_, address, st') := Get(st, size, mallocOk);
    if 0 < size {
      TakeKeeps(st, size, mallocOk, hole);
    } else {
      assert FirstFit(st.free, 0) == 0 && FirstFit(st'.free, 0) == 0;
      assert st'.inUse[|st.inUse|] == Block(address, 0);
    }
  }

  /** With a failing malloc, mem_alloc_put forgets the range it was to give back. */
  lemma PutLosesRangeWithoutMalloc(st: Alloc, base: u64, hole: int)
    requires Good(st, hole) && FindBase(st.inUse, base) < |st.inUse|
    ensures Put(st, base, false).0 == FAILED
    ensures !Tracked(Put(st, base, false).1, base)
  {
    var k := FindBase(st.inUse, base);
    var b := st.inUse[k];
    RemoveUsed(st, k);
    DisjointByAddress(b, st.free);
    DisjointByAddress(b, Remove(st.inUse, k));
    assert b.Holds(base);
  }
}
