/** Discovery of the IOVA ranges, and page alignment from there to every buffer. */
module VfioPages {
  import opened Word
  import opened Masks
  import opened Blocks
  import opened Lists
  import opened AllocSpec
  import AllocRuns
  import opened BufferSizes
  import opened VfioSpec
  import opened VfioRuns

  predicate OnPage(b: Block, page: u64)
    requires 0 < page
  {
    b.address % page == 0 && b.size % page == 0
  }

  ghost predicate OnPages(bs: seq<Block>, page: u64)
    requires 0 < page
  {
    forall i :: 0 <= i < |bs| ==> OnPage(bs[i], page)
  }

  ghost predicate AllOnPages(st: Alloc, page: u64)
    requires 0 < page
  {
    OnPages(st.free, page) && OnPages(st.inUse, page)
  }

  // ---- multiples of the page ----

  lemma SumMultiple(x: nat, y: nat, m: nat)
    requires 0 < m && x % m == 0 && y % m == 0
    ensures (x + y) % m == 0
    ensures y <= x ==> (x - y) % m == 0
  {
    var p := Quotient(x, m);
    var q := Quotient(y, m);
    SumOfMultiples(p, q, m);
    if y < x {
      DifferenceOfMultiples(p, q, m);
    }
  }

  lemma Quotient(x: nat, m: nat) returns (q: nat)
    requires 0 < m && x % m == 0
    ensures x == m * q
  {
    q := x / m;
  }

  lemma SumOfMultiples(p: int, q: int, m: nat)
    requires 0 < m && 0 <= p && 0 <= q
    ensures (m * p + m * q) % m == 0
  {
    Distribute(m, p, -q);
    MultipleMod(p + q, m);
  }

  lemma DifferenceOfMultiples(p: nat, q: nat, m: nat)
    requires 0 < m && m * q < m * p
    ensures (m * p - m * q) % m == 0
  {
    Distribute(m, p, q);
    MultipleMod(p - q, m);
  }

  /** Wrapping at 2^64 keeps a multiple of a power of two a multiple of it. */
  lemma WrapSumMultiple(x: u64, y: u64, k: nat)
    requires k < 64 && x % Pow2(k) == 0 && y % Pow2(k) == 0
    ensures Wrap(x + y) % Pow2(k) == 0
  {
    hide Pow2, Wrap;
    Powers();
    Pow2Monotone(k, 64);
    SumMultiple(x, y, Pow2(k));
    if x + y < TWO_64 {
      WrapBelow(x + y);
    } else {
      WrapOnce(x + y);
      SumMultiple(x + y, TWO_64, Pow2(k));
    }
  }

  // ---- the allocator keeps to pages ----

  lemma TryMergeOnPages(bs: seq<Block>, j: int, k: nat)
    requires k < 64 && 0 < Pow2(k) < TWO_64 && OnPages(bs, Pow2(k))
    ensures OnPages(TryMerge(bs, j), Pow2(k))
  {
    if Touches(bs, j) {
      WrapSumMultiple(bs[j].size, bs[j + 1].size, k);
    }
  }

  lemma AddFreeOnPages(free: seq<Block>, r: Block, mallocOk: bool, k: nat)
    requires k < 64 && 0 < Pow2(k) < TWO_64 && OnPages(free, Pow2(k)) && OnPage(r, Pow2(k))
    ensures OnPages(AddFree(free, r.address, r.size, mallocOk).1, Pow2(k))
  {
    var pos: int := InsertPos(free, r.address);
    var bs := Insert(free, pos, r);
    assert OnPages(bs, Pow2(k));
    TryMergeOnPages(bs, pos - 1, k);
    TryMergeOnPages(TryMerge(bs, pos - 1), if Touches(bs, pos - 1) then pos - 1 else pos, k);
  }

  lemma GetOnPages(st: Alloc, size: u64, mallocOk: bool, k: nat)
    requires k < 64 && 0 < Pow2(k) < TWO_64 && AllOnPages(st, Pow2(k)) && size % Pow2(k) == 0
    ensures AllOnPages(Get(st, size, mallocOk).2, Pow2(k))
  {
    var n := FirstFit(st.free, size);
    if n < |st.free| {
      var b := st.free[n];
      assert OnPage(b, Pow2(k));
      WrapSumMultiple(b.address, size, k);
      SumMultiple(b.size, size, Pow2(k));
    }
  }

  lemma PutOnPages(st: Alloc, address: u64, mallocOk: bool, k: nat)
    requires k < 64 && 0 < Pow2(k) < TWO_64 && AllOnPages(st, Pow2(k))
    ensures AllOnPages(Put(st, address, mallocOk).1, Pow2(k))
  {
    var n := FindBase(st.inUse, address);
    if n < |st.inUse| {
      assert OnPage(st.inUse[n], Pow2(k));
      AddFreeOnPages(st.free, st.inUse[n], mallocOk, k);
    }
  }

  // ---- the buffers keep to pages ----

  /**
   * From page-aligned free ranges, every run of allocations and frees gives page-aligned
   * IOVA blocks only.
   */
  lemma {:induction false} RunOnPages(v: Vfio, ops: seq<Op>, k: nat)
    requires AllRoundable(ops, k)
    ensures 0 < Pow2(k) < TWO_64
    ensures AllOnPages(v.alloc, Pow2(k)) ==> AllOnPages(Run(v, ops, Pow2(k)).alloc, Pow2(k))
    decreases |ops|
  {
    Mask64(0, k);
    if ops != [] && AllOnPages(v.alloc, Pow2(k)) {
      match ops[0] {
        case Map(size, env) =>
          if size != 0 {
            ReservedSizeIsLeastMultiple(size, k);
            GetOnPages(v.alloc, ReservedSize(size, Pow2(k)), env.linkOk, k);
          }
        case Unmap(ptr, linkOk) =>
          var n := FindPtr(v.buffers, ptr);
          if n < |v.buffers| {
            PutOnPages(v.alloc, v.buffers[n].iova, linkOk, k);
          }
      }
      RunOnPages(Step(v, ops[0], Pow2(k)), ops[1..], k);
    }
  }

  /** Hence the IOVA and the size of every recorded buffer are multiples of the page. */
  lemma BuffersOnPages(v: Vfio, page: u64, i: nat)
    requires 0 < page && OwnsOwnBlock(v) && AllOnPages(v.alloc, page) && i < |v.buffers|
    ensures v.buffers[i].iova % page == 0 && v.buffers[i].size % page == 0
  {
    var n := InUseOf(v, i);
    assert OnPage(v.alloc.inUse[n], page);
  }

  // ---- discovery ----

  /** The block that a discovered range adds; the width wraps to 0 for the whole space. */
  function RangeBlock(r: Range): Block {
    Block(r.start, Wrap(r.end + 1 - r.start))
  }

  function RangeOps(ranges: seq<Range>): seq<AllocRuns.Op> {
    if ranges == [] then []
    else
      (if ranges[0].nodeOk then [AllocRuns.AddRegion(RangeBlock(ranges[0]), ranges[0].linkOk)] else [])
      + RangeOps(ranges[1..])
  }

  /** The discovery loop is a run of mem_alloc_add_free calls. */
  lemma {:induction false} DiscoverIsRun(free: seq<Block>, ranges: seq<Range>)
    ensures Alloc(Discover(free, ranges), []) == AllocRuns.Run(Alloc(free, []), RangeOps(ranges))
    decreases |ranges|
  {
    if ranges != [] {
      var r := ranges[0];
      var rest := RangeOps(ranges[1..]);
      if r.nodeOk {
        var op := AllocRuns.AddRegion(RangeBlock(r), r.linkOk);
        AllocRuns.RunFirst(Alloc(free, []), op, rest);
        DiscoverIsRun(AddFree(free, r.start, Wrap(r.end + 1 - r.start), r.linkOk).1, ranges[1..]);
      } else {
        assert RangeOps(ranges) == rest;
        DiscoverIsRun(free, ranges[1..]);
      }
    }
  }

  /** The ranges that are taken note of are not empty, end below 2^64, and leave out hole and one another. */
  ghost predicate Separate(ranges: seq<Range>, hole: int) {
    && (forall i :: 0 <= i < |ranges| && ranges[i].nodeOk ==>
          RangeBlock(ranges[i]).WellFormed() && !RangeBlock(ranges[i]).Holds(hole))
    && (forall i, j :: 0 <= i < j < |ranges| && ranges[i].nodeOk && ranges[j].nodeOk ==>
          RangeBlock(ranges[i]).Disjoint(RangeBlock(ranges[j])))
  }

  ghost predicate FromRange(op: AllocRuns.Op, ranges: seq<Range>) {
    op.AddRegion? && exists i :: 0 <= i < |ranges| && ranges[i].nodeOk && RangeBlock(ranges[i]) == op.region
  }

  lemma {:induction false} RangeOpsAreRanges(ranges: seq<Range>)
    ensures forall n :: 0 <= n < |RangeOps(ranges)| ==> FromRange(RangeOps(ranges)[n], ranges)
  {
    if ranges != [] {
      var rest := RangeOps(ranges[1..]);
      RangeOpsAreRanges(ranges[1..]);
      forall n | 0 <= n < |RangeOps(ranges)|
        ensures FromRange(RangeOps(ranges)[n], ranges)
      {
        var m := n - if ranges[0].nodeOk then 1 else 0;
        if m < 0 {
          assert RangeBlock(ranges[0]) == RangeOps(ranges)[n].region;
        } else {
          assert RangeOps(ranges)[n] == rest[m] && FromRange(rest[m], ranges[1..]);
          var i :| 0 <= i < |ranges[1..]| && ranges[1..][i].nodeOk && RangeBlock(ranges[1..][i]) == rest[m].region;
          assert ranges[i + 1] == ranges[1..][i];
        }
      }
    }
  }

  /** Discovery of separate ranges is an orderly run. */
  lemma {:induction false} RangeOpsOrderly(ranges: seq<Range>, hole: int)
    requires Separate(ranges, hole)
    ensures AllocRuns.Orderly(RangeOps(ranges), hole)
  {
    hide RangeBlock, Block.Disjoint, Block.WellFormed, Block.Holds;
    if ranges != [] {
      assert forall i :: 0 <= i < |ranges[1..]| ==> ranges[1..][i] == ranges[i + 1];
      RangeOpsOrderly(ranges[1..], hole);
      RangeOpsAreRanges(ranges[1..]);
      var rest := RangeOps(ranges[1..]);
      forall n | 0 <= n < |rest| && ranges[0].nodeOk
        ensures RangeBlock(ranges[0]).Disjoint(rest[n].region)
      {
        assert FromRange(rest[n], ranges[1..]);
        var i :| 0 <= i < |ranges[1..]| && ranges[1..][i].nodeOk && RangeBlock(ranges[1..][i]) == rest[n].region;
        assert ranges[1..][i] == ranges[i + 1];
      }
    }
  }

  /** Separate ranges set up a sound device, which is page-aligned if they all are. */
  lemma DiscoverSound(ranges: seq<Range>, k: nat, hole: int)
    requires k < 64 && 0 <= hole < TWO_64 && Separate(ranges, hole)
    ensures 0 < Pow2(k) < TWO_64
    ensures Sound(Vfio([], Alloc(Discover([], ranges), [])), hole)
    ensures (forall i :: 0 <= i < |ranges| ==> OnPage(RangeBlock(ranges[i]), Pow2(k))) ==>
              AllOnPages(Alloc(Discover([], ranges), []), Pow2(k))
  {
    Mask64(0, k);
    DiscoverIsRun([], ranges);
    RangeOpsOrderly(ranges, hole);
    AllocRuns.OrderlyRunKeeps(RangeOps(ranges), hole);
    if forall i :: 0 <= i < |ranges| ==> OnPage(RangeBlock(ranges[i]), Pow2(k)) {
      DiscoverOnPages([], ranges, k);
    }
  }

  /** The address lies in a reported range for which both mallocs worked. */
  ghost predicate InRanges(ranges: seq<Range>, a: int) {
    exists i :: 0 <= i < |ranges| && InRange(ranges[i], a)
  }

  predicate InRange(r: Range, a: int) {
    r.nodeOk && r.linkOk && r.start <= a <= r.end
  }

  lemma InRangesCons(r: Range, ranges: seq<Range>, a: int)
    ensures InRanges([r] + ranges, a) <==> InRange(r, a) || InRanges(ranges, a)
  {
    var all := [r] + ranges;
    assert forall i :: 0 <= i < |ranges| ==> all[i + 1] == ranges[i];
    if InRange(r, a) {
      assert InRange(all[0], a);
    }
    if InRanges(ranges, a) {
      var i :| 0 <= i < |ranges| && InRange(ranges[i], a);
      assert InRange(all[i + 1], a);
    }
  }

  /** Discovery frees exactly the addresses of the reported ranges, both ends included. */
  lemma DiscoverCovers(ranges: seq<Range>, hole: int)
    requires 0 <= hole < TWO_64 && Separate(ranges, hole)
    requires forall i :: 0 <= i < |ranges| ==> ranges[i].start <= ranges[i].end
    ensures forall a :: Covers(Discover([], ranges), a) <==> InRanges(ranges, a)
  {
    DiscoverAdds([], ranges, hole);
    assert forall a :: !Covers([], a);
  }

  lemma {:induction false} DiscoverAdds(free: seq<Block>, ranges: seq<Range>, hole: int)
    requires AllocRuns.Good(Alloc(free, []), hole) && Separate(ranges, hole)
    requires forall i :: 0 <= i < |ranges| ==> ranges[i].start <= ranges[i].end
    requires forall i :: 0 <= i < |ranges| && ranges[i].nodeOk ==> DisjointFromAll(RangeBlock(ranges[i]), free)
    ensures forall a :: Covers(Discover(free, ranges), a) <==> Covers(free, a) || InRanges(ranges, a)
    decreases |ranges|
  {
    hide AddFree, DisjointFromAll, Covers, AllocRuns.Good, InRanges, RangeBlock;
    if ranges != [] {
      var r, rest := ranges[0], ranges[1..];
      assert ranges == [r] + rest;
      assert forall i :: 0 <= i < |rest| ==> rest[i] == ranges[i + 1];
      var free' := if r.nodeOk then AddFree(free, r.start, Wrap(r.end + 1 - r.start), r.linkOk).1 else free;
      if r.nodeOk {
        AddRange(free, r, rest, hole);
      }
      DiscoverAdds(free', rest, hole);
      forall a
        ensures InRanges(ranges, a) <==> InRange(r, a) || InRanges(rest, a)
      {
        InRangesCons(r, rest, a);
      }
    } else {
      assert forall a :: !InRanges([], a) by {
        NoRanges();
      }
    }
  }

  lemma NoRanges()
    ensures forall a :: !InRanges([], a)
  {
  }

  lemma AddRange(free: seq<Block>, r: Range, rest: seq<Range>, hole: int)
    requires AllocRuns.Good(Alloc(free, []), hole) && Separate([r] + rest, hole) && r.nodeOk && r.start <= r.end
    requires DisjointFromAll(RangeBlock(r), free)
    requires forall i :: 0 <= i < |rest| && rest[i].nodeOk ==> DisjointFromAll(RangeBlock(rest[i]), free)
    ensures var free' := AddFree(free, r.start, Wrap(r.end + 1 - r.start), r.linkOk).1;
            && AllocRuns.Good(Alloc(free', []), hole)
            && (forall i :: 0 <= i < |rest| && rest[i].nodeOk ==> DisjointFromAll(RangeBlock(rest[i]), free'))
            && forall a :: Covers(free', a) <==> Covers(free, a) || InRange(r, a)
  {
    hide AddFree, AllocRuns.Good, Block.Disjoint;
    var all := [r] + rest;
    assert all[0] == r && forall i :: 0 <= i < |rest| ==> all[i + 1] == rest[i];
    var st, op := Alloc(free, []), AllocRuns.AddRegion(RangeBlock(r), r.linkOk);
    AllocRuns.AddRegionKeeps(st, RangeBlock(r), r.linkOk, hole);
    forall i | 0 <= i < |rest| && rest[i].nodeOk
      ensures DisjointFromAll(RangeBlock(rest[i]), AllocRuns.Step(st, op).free)
    {
      AllocRuns.StaysClear(st, op, RangeBlock(rest[i]), hole);
    }
    forall a
      ensures RangeBlock(r).Holds(a) <==> r.start <= a <= r.end
    {
      HoldsRange(r, a);
    }
    assert forall a :: AllocRuns.Tracked(AllocRuns.Step(st, op), a) <==> Covers(AllocRuns.Step(st, op).free, a);
    assert forall a :: AllocRuns.Tracked(st, a) <==> Covers(free, a);
  }

  lemma HoldsRange(r: Range, a: int)
    requires r.start <= r.end && RangeBlock(r).WellFormed()
    ensures RangeBlock(r).Holds(a) <==> r.start <= a <= r.end
  {
    if r.end + 1 - r.start < TWO_64 {
      WrapBelow(r.end + 1 - r.start);
    }
  }

  lemma {:induction false} DiscoverOnPages(free: seq<Block>, ranges: seq<Range>, k: nat)
    requires k < 64 && 0 < Pow2(k) < TWO_64 && OnPages(free, Pow2(k))
    requires forall i :: 0 <= i < |ranges| ==> OnPage(RangeBlock(ranges[i]), Pow2(k))
    ensures OnPages(Discover(free, ranges), Pow2(k))
    decreases |ranges|
  {
    hide AddFree, OnPages, OnPage, Pow2;
    if ranges != [] {
      var r := ranges[0];
      if r.nodeOk {
        AddFreeOnPages(free, RangeBlock(r), r.linkOk, k);
        DiscoverOnPages(AddFree(free, r.start, Wrap(r.end + 1 - r.start), r.linkOk).1, ranges[1..], k);
      } else {
        DiscoverOnPages(free, ranges[1..], k);
      }
    }
  }
}
