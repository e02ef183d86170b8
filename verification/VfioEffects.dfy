/** When the calls of the buffer layer succeed, and what exactly they do then. */
module VfioEffects {
  import opened Word
  import opened Masks
  import opened Blocks
  import opened Lists
  import opened AllocSpec
  import opened AllocProofs
  import opened AllocRuns
  import opened BufferSizes
  import opened VfioSpec
  import opened VfioRuns

  /**
   * A range can be reserved for size, rounded to pages. A size whose rounding wraps asks for
   * nothing, which any free block gives.
   */
  ghost predicate HasRoom(st: Alloc, size: u64, k: nat, linkOk: bool)
    requires k < 64 && 0 < Pow2(k) < TWO_64
  {
    if Roundable(size, k) then Reservable(st, ReservedSize(size, Pow2(k)), linkOk) else st.free != [] && linkOk
  }

  lemma GetIffRoom(st: Alloc, size: u64, k: nat, linkOk: bool)
    requires Canonical(st.free) && 0 < size && k < 64
    ensures 0 < Pow2(k) < TWO_64
    ensures Get(st, ReservedSize(size, Pow2(k)), linkOk).0 == OK <==> HasRoom(st, size, k, linkOk)
  {
    hide Reservable, Pow2, ReservedSize;
    ReservedSizeIsLeastMultiple(size, k);
    if Roundable(size, k) {
      GetSucceedsIff(st, ReservedSize(size, Pow2(k)), linkOk);
    } else if st.free != [] {
      assert FirstFit(st.free, 0) == 0;
    }
  }

  /** What an allocation returns, read off size, free space and what it is answered. */
  lemma AllocateCode(v: Vfio, size: u64, k: nat, env: Env)
    requires Canonical(v.alloc.free) && k < 64
    ensures 0 < Pow2(k) < TWO_64
    ensures var code := Allocate(v, size, Pow2(k), env).code;
            && (code == OK <==>
                  && size != 0 && HasRoom(v.alloc, size, k, env.linkOk)
                  && env.mmapOk && env.dmaOk && env.nodeOk)
            && (code == ZERO_SIZE <==> size == 0)
            && (code == NO_IOVA <==> size != 0 && !HasRoom(v.alloc, size, k, env.linkOk))
            && (code == NO_MAPPING <==>
                  size != 0 && HasRoom(v.alloc, size, k, env.linkOk) && !(env.mmapOk && env.dmaOk))
  {
    hide HasRoom, Pow2, ReservedSize, Get;
    Mask64(0, k);
    if size != 0 {
      GetIffRoom(v.alloc, size, k, env.linkOk);
    }
  }

  /** A get takes the lowest run that is long enough, and just that. */
  lemma GetDoes(st: Alloc, size: u64, linkOk: bool)
    requires Canonical(st.free) && 0 < size && Get(st, size, linkOk).0 == OK
    ensures var (_, base, st') := Get(st, size, linkOk);
            && FreeRun(st.free, base, size)
            && (forall a :: FreeRun(st.free, a, size) ==> base <= a)
            && st'.inUse == st.inUse + [Block(base, size)]
            && Canonical(st'.free)
            && (forall a :: Covers(st'.free, a) <==> Covers(st.free, a) && !Block(base, size).Holds(a))
  {
    hide FreeRun, Canonical, Covers;
    var k := FirstFit(st.free, size);
    FitIffAvailable(st.free, size);
    BlockIsRun(st.free, k, size);
    CutFrontKeeps(st.free, k, size);
    assert Get(st, size, linkOk).2.free == CutFront(st.free, k, size);
  }

  /**
   * An allocation that works gives the address of the mapping, the size rounded to pages and
   * the lowest IOVA with that many free addresses; it records exactly that, newest first,
   * and takes exactly that range.
   */
  lemma AllocateDoes(v: Vfio, size: u64, k: nat, env: Env)
    requires Canonical(v.alloc.free) && Roundable(size, k)
    requires 0 < Pow2(k) < TWO_64 && Allocate(v, size, Pow2(k), env).code == OK
    ensures var r := Allocate(v, size, Pow2(k), env);
            && r.vaddr == env.vaddr
            && size <= r.size < size + Pow2(k) && r.size % Pow2(k) == 0
            && r.v.buffers == [Buffer(env.vaddr, r.size, r.iova)] + v.buffers
            && r.v.alloc.inUse == v.alloc.inUse + [Block(r.iova, r.size)]
            && FreeRun(v.alloc.free, r.iova, r.size)
            && (forall a :: FreeRun(v.alloc.free, a, r.size) ==> r.iova <= a)
            && (forall a :: Covers(r.v.alloc.free, a) <==>
                              Covers(v.alloc.free, a) && !Block(r.iova, r.size).Holds(a))
  {
    hide FreeRun, Canonical, Covers, ReservedSize, Get, Pow2;
    ReservedSizeIsLeastMultiple(size, k);
    GetDoes(v.alloc, ReservedSize(size, Pow2(k)), env.linkOk);
  }

  /** What a failing allocation leaves: the buffers as they were, and the range behind a failed mapping taken. */
  lemma FailedAllocateDoes(v: Vfio, size: u64, k: nat, env: Env)
    requires Canonical(v.alloc.free) && Roundable(size, k)
    requires 0 < Pow2(k) < TWO_64 && Allocate(v, size, Pow2(k), env).code != OK
    ensures var r := Allocate(v, size, Pow2(k), env);
            && r.v.buffers == v.buffers
            && (r.code in {ZERO_SIZE, NO_IOVA} ==> r.v == v)
            && (r.code !in {ZERO_SIZE, NO_IOVA} ==>
                  exists base: u64 :: r.v.alloc.inUse == v.alloc.inUse + [Block(base, ReservedSize(size, Pow2(k)))])
  {
    hide FreeRun, Canonical, Covers, ReservedSize, Get, Pow2;
    if size != 0 {
      ReservedSizeIsLeastMultiple(size, k);
      if Get(v.alloc, ReservedSize(size, Pow2(k)), env.linkOk).0 == OK {
        GetDoes(v.alloc, ReservedSize(size, Pow2(k)), env.linkOk);
      }
    }
  }

  /** A free finds its buffer exactly when one is recorded at the address; otherwise nothing happens. */
  lemma FreeCode(v: Vfio, ptr: int, linkOk: bool)
    ensures Free(v, ptr, linkOk).0 == OK <==> exists k :: 0 <= k < |v.buffers| && v.buffers[k].ptr == ptr
    ensures Free(v, ptr, linkOk).0 != OK ==> Free(v, ptr, linkOk) == (NO_BUFFER, v)
  {
    var k := FindPtr(v.buffers, ptr);
    if k < |v.buffers| {
      assert v.buffers[k].ptr == ptr;
    }
  }

  /**
   * A free of any recorded buffer, newest or not, takes that buffer off the list and its
   * block out of use; the range is free again unless malloc fails.
   */
  lemma FreeDoes(v: Vfio, k: nat, linkOk: bool, hole: int)
    requires Sound(v, hole) && k < |v.buffers|
    requires forall i :: 0 <= i < k ==> v.buffers[i].ptr != v.buffers[k].ptr
    ensures var (code, v') := Free(v, v.buffers[k].ptr, linkOk);
            var b := Owned(v.buffers)[k];
            && code == OK
            && v'.buffers == Remove(v.buffers, k)
            && multiset(v'.alloc.inUse) == multiset(v.alloc.inUse) - multiset{b}
            && (linkOk ==> forall a :: Covers(v'.alloc.free, a) <==> Covers(v.alloc.free, a) || b.Holds(a))
            && (!linkOk ==> v'.alloc.free == v.alloc.free)
  {
    hide Remove, Owned, Inv, AddFree, Covers;
    var n := InUseOf(v, k);
    assert FindPtr(v.buffers, v.buffers[k].ptr) == k;
    OwnedAt(v.buffers, k);
    PutRemoves(v.alloc, n, linkOk);
    MultisetRemove(v.alloc.inUse, n);
    if linkOk {
      PutFrees(v.alloc, n, hole);
    } else {
      PutRefused(v.alloc, v.buffers[k].iova);
    }
  }

  lemma PutRefused(st: Alloc, base: u64)
    ensures Put(st, base, false).1.free == st.free
  {
  }

  /** With malloc, giving back block n frees exactly its addresses. */
  lemma PutFrees(st: Alloc, n: nat, hole: int)
    requires Good(st, hole) && n < |st.inUse|
    ensures forall a :: Covers(Put(st, st.inUse[n].address, true).1.free, a) <==>
                          Covers(st.free, a) || st.inUse[n].Holds(a)
  {
    hide AddFree;
    BaseIsUnique(st, n);
    PutRemoves(st, n, true);
    var st' := Put(st, st.inUse[n].address, true).1;
    ReturnKeeps(st, st.inUse[n].address, true, hole);
    forall a
      ensures Covers(st'.free, a) <==> Covers(st.free, a) || st.inUse[n].Holds(a)
    {
      CoversAround(st.inUse, n, a);
      NotBoth(st, a);
      NotBoth(st', a);
      RemovedIsApart(st, n, a);
      assert Tracked(st', a) <==> Tracked(st, a);
      assert Remove(st.inUse, n) == st.inUse[..n] + st.inUse[n + 1..];
    }
  }

  lemma RemovedIsApart(st: Alloc, n: nat, a: int)
    requires Inv(st) && n < |st.inUse|
    ensures st.inUse[n].Holds(a) ==> !Covers(Remove(st.inUse, n), a)
  {
    RemoveUsed(st, n);
  }
}
