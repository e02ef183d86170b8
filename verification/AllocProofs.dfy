/** What one allocator operation keeps and returns. */
module AllocProofs {
  import opened Word
  import opened Blocks
  import opened Lists
  import opened AllocSpec

  /** The state the allocator must be in between calls. */
  ghost predicate Inv(st: Alloc) {
    && Canonical(st.free)
    && (forall i :: 0 <= i < |st.inUse| ==> st.inUse[i].WellFormed())
    && PairwiseDisjoint(st.inUse)
    && (forall i :: 0 <= i < |st.inUse| ==> DisjointFromAll(st.inUse[i], st.free))
  }

  /** An address of the 64-bit space that bs leaves out. */
  ghost predicate Hole(bs: seq<Block>, hole: int) {
    0 <= hole < TWO_64 && !Covers(bs, hole)
  }

  // ---- adding a region ----

  /** Canonical, except that blocks i and i + 1 may touch for lo <= i < hi. */
  ghost predicate AlmostCanonical(bs: seq<Block>, lo: int, hi: int) {
    && (forall i :: 0 <= i < |bs| ==> bs[i].WellFormed())
    && (forall i, j :: 0 <= i < j < |bs| ==> bs[i].End() <= bs[j].address)
    && (forall i, j :: 0 <= i < j < |bs| && !(j == i + 1 && lo <= i < hi) ==> bs[i].End() < bs[j].address)
  }

  lemma InsertAlmostCanonical(free: seq<Block>, r: Block)
    requires Canonical(free) && r.WellFormed() && DisjointFromAll(r, free)
    ensures var k := InsertPos(free, r.address);
            AlmostCanonical(Insert(free, k, r), k - 1, k + 1)
  {
    var k := InsertPos(free, r.address);
    var bs := Insert(free, k, r);
    forall i, j | 0 <= i < j < |bs|
      ensures bs[i].End() <= bs[j].address
      ensures !(j == i + 1 && k - 1 <= i < k + 1) ==> bs[i].End() < bs[j].address
    {
      if i < k && 0 < k {
        assert free[k - 1].Disjoint(r);
      }
      if k < |free| {
        assert free[k].Disjoint(r);
      }
    }
  }

  lemma InsertCovers(bs: seq<Block>, k: nat, b: Block, a: int)
    requires k <= |bs|
    ensures Covers(Insert(bs, k, b), a) <==> Covers(bs, a) || b.Holds(a)
  {
    var ins := Insert(bs, k, b);
    assert ins[..k] + ins[k + 1..] == bs;
    CoversAround(ins, k, a);
  }

  /** One merge step closes the leftmost doubtful gap and covers the same addresses. */
  lemma TryMergeStep(bs: seq<Block>, j: int, hi: int, hole: int)
    requires -1 <= j < hi <= |bs| && AlmostCanonical(bs, j, hi) && Hole(bs, hole)
    ensures var m := TryMerge(bs, j);
            && Hole(m, hole)
            && (forall a :: Covers(m, a) <==> Covers(bs, a))
            && (if Touches(bs, j) then AlmostCanonical(m, j, hi - 1) else AlmostCanonical(m, j + 1, hi))
  {
    if Touches(bs, j) {
      MergeCovers(bs, j, hole);
      MergeAlmostCanonical(bs, j, hi, hole);
    }
  }

  lemma MergedBlock(bs: seq<Block>, j: nat, hole: int)
    requires j + 1 < |bs| && bs[j].WellFormed() && bs[j + 1].WellFormed()
    requires bs[j].End() <= bs[j + 1].address && Touches(bs, j) && Hole(bs, hole)
    ensures bs[j].End() == bs[j + 1].address
    ensures var m := MergeAt(bs, j)[j];
            && m.WellFormed() && m.address == bs[j].address && m.End() == bs[j + 1].End()
  {
    assert !bs[j].Holds(hole) && !bs[j + 1].Holds(hole);
  }

  lemma MergeCovers(bs: seq<Block>, j: nat, hole: int)
    requires j + 1 < |bs| && bs[j].WellFormed() && bs[j + 1].WellFormed()
    requires bs[j].End() <= bs[j + 1].address && Touches(bs, j) && Hole(bs, hole)
    ensures forall a :: Covers(MergeAt(bs, j), a) <==> Covers(bs, a)
  {
    MergedBlock(bs, j, hole);
    var m := MergeAt(bs, j);
    forall a
      ensures Covers(m, a) <==> Covers(bs, a)
    {
      CoversAround(m, j, a);
      CoversAround(bs, j, a);
      var rest := bs[..j] + bs[j + 1..];
      CoversAround(rest, j, a);
      assert rest[..j] + rest[j + 1..] == m[..j] + m[j + 1..];
    }
  }

  lemma MergeAlmostCanonical(bs: seq<Block>, j: nat, hi: int, hole: int)
    requires j < hi <= |bs| && AlmostCanonical(bs, j, hi) && Touches(bs, j) && Hole(bs, hole)
    ensures AlmostCanonical(MergeAt(bs, j), j, hi - 1)
  {
    MergedBlock(bs, j, hole);
    var m := MergeAt(bs, j);
    forall i | 0 <= i < |m|
      ensures m[i] == if i < j then bs[i] else if i == j then m[j] else bs[i + 1]
    {
    }
  }

  lemma CoalesceKeeps(bs: seq<Block>, k: int, hole: int)
    requires 0 <= k < |bs| && AlmostCanonical(bs, k - 1, k + 1) && Hole(bs, hole)
    ensures Canonical(Coalesce(bs, k))
    ensures forall a :: Covers(Coalesce(bs, k), a) <==> Covers(bs, a)
  {
    TryMergeStep(bs, k - 1, k + 1, hole);
    var left := TryMerge(bs, k - 1);
    if Touches(bs, k - 1) {
      TryMergeStep(left, k - 1, k, hole);
    } else {
      TryMergeStep(left, k, k + 1, hole);
    }
  }

  /** A disjoint region that leaves a hole is added exactly, and the list stays canonical. */
  lemma AddFreeKeeps(free: seq<Block>, r: Block, hole: int)
    requires Canonical(free) && r.WellFormed() && DisjointFromAll(r, free)
    requires Hole(free, hole) && !r.Holds(hole)
    ensures AddFree(free, r.address, r.size, true).0 == OK
    ensures Canonical(AddFree(free, r.address, r.size, true).1)
    ensures forall a :: Covers(AddFree(free, r.address, r.size, true).1, a) <==> Covers(free, a) || r.Holds(a)
  {
    if free != [] {
      assert free[0].Disjoint(r);
    }
    var k := InsertPos(free, r.address);
    var bs := Insert(free, k, r);
    InsertAlmostCanonical(free, r);
    forall a
      ensures Covers(bs, a) <==> Covers(free, a) || r.Holds(a)
    {
      InsertCovers(free, k, r, a);
    }
    CoalesceKeeps(bs, k, hole);
  }

  /** The region was taken in, the list is canonical and covers exactly the region more. */
  ghost predicate AddedExactly(free: seq<Block>, r: Block) {
    var (code, free') := AddFree(free, r.address, r.size, true);
    && code == OK
    && Canonical(free')
    && forall a :: Covers(free', a) <==> Covers(free, a) || r.Holds(a)
  }

  /**
   * When mem_alloc_add_free does its job: exactly when the region is disjoint from
   * the free blocks and the two together do not fill the whole 64-bit space.
   */
  lemma AddFreeExact(free: seq<Block>, r: Block)
    requires Canonical(free) && r.WellFormed()
    ensures AddedExactly(free, r)
       <==> DisjointFromAll(r, free) && exists hole :: Hole(free, hole) && !r.Holds(hole)
  {
    if DisjointFromAll(r, free) && exists hole :: Hole(free, hole) && !r.Holds(hole) {
      var hole :| Hole(free, hole) && !r.Holds(hole);
      AddFreeKeeps(free, r, hole);
    }
    if AddedExactly(free, r) {
      if !DisjointFromAll(r, free) {
        OverlapNotCanonical(free, r);
        assert false;
      }
      var hole := CanonicalHasHole(AddFree(free, r.address, r.size, true).1);
      assert Hole(free, hole) && !r.Holds(hole);
    }
  }

  /** No list of 64-bit blocks in canonical form can cover the whole space. */
  lemma CanonicalHasHole(bs: seq<Block>) returns (hole: int)
    requires Canonical(bs)
    ensures Hole(bs, hole)
  {
    if FreeRun(bs, 0, TWO_64) {
      var k := RunInOneBlock(bs, 0, TWO_64);
      assert false;
    }
    hole :| 0 <= hole < 0 + TWO_64 && !Covers(bs, hole);
  }

  /** A region that overlaps free space is refused or breaks the list. */
  lemma OverlapNotCanonical(free: seq<Block>, r: Block)
    requires Canonical(free) && r.WellFormed() && !DisjointFromAll(r, free)
    ensures AddFree(free, r.address, r.size, true).0 == OK ==>
              !Canonical(AddFree(free, r.address, r.size, true).1)
  {
    var k := InsertPos(free, r.address);
    if 0 < k && !free[k - 1].Disjoint(r) {
      OverlapPrevious(free, r);
    } else {
      OverlapsNext(free, r);
      OverlapNext(free, r);
    }
  }

  lemma OverlapPrevious(free: seq<Block>, r: Block)
    requires Canonical(free) && r.WellFormed()
    requires var k := InsertPos(free, r.address); 0 < k && !free[k - 1].Disjoint(r)
    ensures var k := InsertPos(free, r.address);
            !Canonical(Coalesce(Insert(free, k, r), k))
  {
    var k := InsertPos(free, r.address);
    var bs := Insert(free, k, r);
    assert !Touches(bs, k - 1);
    var free' := TryMerge(bs, k);
    assert free'[k - 1] == free[k - 1] && free'[k].address == r.address;
  }

  lemma OverlapNext(free: seq<Block>, r: Block)
    requires Canonical(free) && r.WellFormed()
    requires var k := InsertPos(free, r.address);
             k < |free| && r.address <= free[k].address < r.End() && (k == 0 || free[k - 1].Disjoint(r))
    ensures var k := InsertPos(free, r.address);
            !Canonical(Coalesce(Insert(free, k, r), k))
  {
    hide Coalesce;
    var k := InsertPos(free, r.address);
    var bs := Insert(free, k, r);
    assert bs[k] == r && bs[k + 1] == free[k];
    assert 0 < k ==> bs[k - 1] == free[k - 1];
    CoalesceOverlap(bs, k);
  }

  lemma CoalesceOverlap(bs: seq<Block>, k: int)
    requires 0 <= k && k + 1 < |bs| && bs[k].WellFormed()
    requires bs[k].address <= bs[k + 1].address < bs[k].End()
    requires 0 < k ==>
               && bs[k - 1].WellFormed()
               && bs[k - 1].address < bs[k].address && bs[k - 1].End() <= bs[k].address
    ensures !Canonical(Coalesce(bs, k))
  {
    if Touches(bs, k - 1) {
      JoinedOverlap(bs[k - 1], bs[k], bs[k + 1]);
      var left := MergeAt(bs, k - 1);
      assert left[k] == bs[k + 1];
      assert !Touches(left, k - 1);
      CollisionNotCanonical(left, k - 1);
    } else {
      SumsApart(bs[k], bs[k + 1]);
      CollisionNotCanonical(bs, k);
    }
  }

  lemma CollisionNotCanonical(bs: seq<Block>, j: nat)
    requires j + 1 < |bs| && (bs[j].size == 0 || bs[j + 1].address < bs[j].End())
    ensures !Canonical(bs)
  {
  }

  /** A region that reaches past the start of the next block never touches it. */
  lemma SumsApart(r: Block, next: Block)
    requires r.WellFormed() && r.address <= next.address < r.End()
    ensures Wrap(r.address + r.size) != next.address
  {
  }

  lemma JoinedOverlap(p: Block, r: Block, next: Block)
    requires p.WellFormed() && r.WellFormed() && p.address < r.address && p.End() <= r.address
    requires Wrap(p.address + p.size) == r.address && r.address <= next.address < r.End()
    ensures var l := Block(p.address, Wrap(p.size + r.size));
            && (l.size == 0 || l.End() == r.End())
            && Wrap(l.address + l.size) != next.address
  {
    assert p.End() == r.address;
  }

  lemma OverlapsNext(free: seq<Block>, r: Block)
    requires Canonical(free) && r.WellFormed() && !DisjointFromAll(r, free)
    requires var k := InsertPos(free, r.address); k == 0 || free[k - 1].Disjoint(r)
    ensures var k := InsertPos(free, r.address);
            k < |free| && r.address <= free[k].address < r.End()
  {
    var i :| 0 <= i < |free| && !free[i].Disjoint(r);
  }

  /**
   * The whole space handed over in two halves: the sum of the sizes wraps to zero and
   * the single block that is left holds no address at all.
   */
  lemma WholeSpaceIsLost()
    ensures var half := TWO_64 / 2;
            var free := AddFree([], 0, half, true).1;
            && free == [Block(0, half)]
            && AddFree(free, half, half, true) == (OK, [Block(0, 0)])
  {
    var half := TWO_64 / 2;
    var free := AddFree([], 0, half, true).1;
    assert free == [Block(0, half)];
    assert InsertPos(free, half, 1) == 1;
    var bs := Insert(free, 1, Block(half, half));
    assert bs == [Block(0, half), Block(half, half)];
    assert MergeAt(bs, 0) == [Block(0, 0)];
  }

  // ---- taking a block ----

  /** Enough consecutive addresses are free somewhere. */
  ghost predicate Available(free: seq<Block>, size: int) {
    exists a :: 0 <= a < TWO_64 && FreeRun(free, a, size)
  }

  /** The first fit is found exactly when a run of that many free addresses exists. */
  lemma FitIffAvailable(free: seq<Block>, size: u64)
    requires Canonical(free) && 0 < size
    ensures FirstFit(free, size) < |free| <==> Available(free, size)
    ensures forall a :: FreeRun(free, a, size) ==>
              FirstFit(free, size) < |free| && free[FirstFit(free, size)].address <= a
  {
    var k := FirstFit(free, size);
    if k < |free| {
      BlockIsRun(free, k, size);
    }
    forall a | FreeRun(free, a, size)
      ensures k < |free| && free[k].address <= a
    {
      var j := RunInOneBlock(free, a, size);
      assert k <= j;
    }
  }

  lemma BlockIsRun(free: seq<Block>, k: nat, size: int)
    requires k < |free| && size <= free[k].size
    ensures FreeRun(free, free[k].address, size)
  {
    forall x | free[k].address <= x < free[k].address + size
      ensures Covers(free, x)
    {
      assert free[k].Holds(x);
    }
  }

  /**
   * mem_alloc_get with a working malloc: it succeeds exactly when some run of size
   * free addresses exists, and then returns the lowest base of such a run.
   */
  lemma GetLowestFit(st: Alloc, size: u64)
    requires Canonical(st.free) && 0 < size
    ensures Get(st, size, true).0 == OK <==> Available(st.free, size)
    ensures Get(st, size, true).0 == OK ==>
              && FreeRun(st.free, Get(st, size, true).1, size)
              && forall a :: FreeRun(st.free, a, size) ==> Get(st, size, true).1 <= a
  {
    FitIffAvailable(st.free, size);
    var k := FirstFit(st.free, size);
    if k < |st.free| {
      BlockIsRun(st.free, k, size);
    }
  }

  /** There is room, and malloc gives the node for a split unless the first fit is an exact one. */
  ghost predicate Reservable(st: Alloc, size: u64, mallocOk: bool) {
    && Available(st.free, size)
    && (mallocOk || exists k: nat :: IsFirstFit(st.free, size, k) && st.free[k].size == size)
  }

  ghost predicate IsFirstFit(free: seq<Block>, size: u64, k: nat) {
    k < |free| && size <= free[k].size && forall i :: 0 <= i < k ==> free[i].size < size
  }

  /** When a get succeeds, read off the free list, the size and malloc alone. */
  lemma GetSucceedsIff(st: Alloc, size: u64, mallocOk: bool)
    requires Canonical(st.free) && 0 < size
    ensures Get(st, size, mallocOk).0 == OK <==> Reservable(st, size, mallocOk)
  {
    hide Available;
    FitIffAvailable(st.free, size);
    var k := FirstFit(st.free, size);
    if k < |st.free| {
      assert IsFirstFit(st.free, size, k);
      forall j: nat | IsFirstFit(st.free, size, j)
        ensures j == k
      {
      }
    }
  }

  /** A get that fails for any reason leaves both lists as they were. */
  lemma FailedGetChangesNothing(st: Alloc, size: u64, mallocOk: bool)
    ensures Get(st, size, mallocOk).0 != OK ==> Get(st, size, mallocOk).2 == st
    ensures Get(st, size, mallocOk).0 != OK && mallocOk ==> FirstFit(st.free, size) == |st.free|
  {
  }

  /** Cutting size addresses off the front of a free block, or removing it on an exact fit. */
  function CutFront(free: seq<Block>, k: nat, size: u64): seq<Block>
    requires k < |free| && size <= free[k].size
  {
    if free[k].size == size then Remove(free, k)
    else free[k := Block(Wrap(free[k].address + size), free[k].size - size)]
  }

  lemma CutFrontKeeps(free: seq<Block>, k: nat, size: u64)
    requires Canonical(free) && k < |free| && 0 < size <= free[k].size
    ensures Canonical(CutFront(free, k, size))
    ensures var cut := Block(free[k].address, size);
            && cut.WellFormed()
            && forall a :: Covers(CutFront(free, k, size), a) <==> Covers(free, a) && !cut.Holds(a)
  {
    var free' := CutFront(free, k, size);
    var cut := Block(free[k].address, size);
    forall a
      ensures Covers(free', a) <==> Covers(free, a) && !cut.Holds(a)
    {
      CoversAround(free, k, a);
      if free[k].size != size {
        CoversAround(free', k, a);
        assert free'[..k] + free'[k + 1..] == free[..k] + free[k + 1..];
      }
      if free[k].Holds(a) {
        RestMisses(free, k, a);
      }
    }
  }

  lemma RestMisses(free: seq<Block>, k: nat, a: int)
    requires Canonical(free) && k < |free| && free[k].Holds(a)
    ensures !Covers(free[..k] + free[k + 1..], a)
  {
  }
}
