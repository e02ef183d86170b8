/** What the buffer layer keeps over whole runs. */
module VfioRuns {
  import opened Word
  import opened Masks
  import opened Blocks
  import opened Lists
  import opened AllocSpec
  import opened AllocProofs
  import opened AllocRuns
  import opened BufferSizes
  import opened VfioSpec

  /** The IOVA blocks that the recorded buffers stand for. */
  function Owned(bs: seq<Buffer>): seq<Block> {
    seq(|bs|, i requires 0 <= i < |bs| => Block(bs[i].iova, bs[i].size))
  }

  /** Every recorded buffer owns a block of its own among those in use. */
  ghost predicate OwnsOwnBlock(v: Vfio) {
    multiset(Owned(v.buffers)) <= multiset(v.alloc.inUse)
  }

  /** And every block in use belongs to a recorded buffer. */
  ghost predicate OwnsAll(v: Vfio) {
    multiset(Owned(v.buffers)) == multiset(v.alloc.inUse)
  }

  ghost predicate Sound(v: Vfio, hole: int) {
    Good(v.alloc, hole) && OwnsOwnBlock(v)
  }

  // ---- multisets of blocks ----

  lemma OwnedCons(b: Buffer, bs: seq<Buffer>)
    ensures Owned([b] + bs) == [Block(b.iova, b.size)] + Owned(bs)
  {
  }

  lemma OwnedRemove(bs: seq<Buffer>, k: nat)
    requires k < |bs|
    ensures Owned(Remove(bs, k)) == Remove(Owned(bs), k)
  {
  }

  lemma MultisetRemove<T>(s: seq<T>, k: nat)
    requires k < |s|
    ensures multiset(Remove(s, k)) == multiset(s) - multiset{s[k]}
  {
    assert s == s[..k] + [s[k]] + s[k + 1..];
  }

  lemma InUseOf(v: Vfio, i: nat) returns (k: nat)
    requires OwnsOwnBlock(v) && i < |v.buffers|
    ensures k < |v.alloc.inUse| && v.alloc.inUse[k] == Block(v.buffers[i].iova, v.buffers[i].size)
  {
    var b := Owned(v.buffers)[i];
    assert b in multiset(Owned(v.buffers));
    assert b in multiset(v.alloc.inUse);
    k :| 0 <= k < |v.alloc.inUse| && v.alloc.inUse[k] == b;
  }

  // ---- steps ----

  /** What a caller owes: a size whose rounding to pages stays below 2^64. */
  ghost predicate Roundable(size: u64, k: nat) {
    k < 64 && size <= TWO_64 - Pow2(k)
  }

  lemma AllocateKeeps(v: Vfio, size: u64, k: nat, env: Env, hole: int)
    requires Sound(v, hole) && Roundable(size, k)
    ensures 0 < Pow2(k) < TWO_64
    ensures Sound(Allocate(v, size, Pow2(k), env).v, hole)
    ensures OwnsAll(v) && Allocate(v, size, Pow2(k), env).code in {OK, NO_IOVA, ZERO_SIZE} ==>
              OwnsAll(Allocate(v, size, Pow2(k), env).v)
  {
    Mask64(0, k);
    if size != 0 {
      ReservedSizeIsLeastMultiple(size, k);
      var size' := ReservedSize(size, Pow2(k));
      var (code, iova, alloc) := Get(v.alloc, size', env.linkOk);
      if code == OK {
        TakeKeeps(v.alloc, size', env.linkOk, hole);
        UseOneMore(v, size', env, hole);
      }
    }
  }

  lemma UseOneMore(v: Vfio, size: u64, env: Env, hole: int)
    requires OwnsOwnBlock(v) && Get(v.alloc, size, env.linkOk).0 == OK
    ensures var (_, iova, alloc) := Get(v.alloc, size, env.linkOk);
            && OwnsOwnBlock(v.(alloc := alloc))
            && OwnsOwnBlock(Vfio([Buffer(env.vaddr, size, iova)] + v.buffers, alloc))
            && (OwnsAll(v) ==> OwnsAll(Vfio([Buffer(env.vaddr, size, iova)] + v.buffers, alloc)))
  {
    var (_, iova, alloc) := Get(v.alloc, size, env.linkOk);
    LastUsed(v.alloc, size, env.linkOk);
    MultisetRemove(alloc.inUse, |v.alloc.inUse|);
    OwnedCons(Buffer(env.vaddr, size, iova), v.buffers);
  }

  lemma PutRemoves(st: Alloc, n: nat, linkOk: bool)
    requires Inv(st) && n < |st.inUse|
    ensures Put(st, st.inUse[n].address, linkOk).1.inUse == Remove(st.inUse, n)
  {
    hide Remove, AddFree;
    BaseIsUnique(st, n);
  }

  lemma FreeKeeps(v: Vfio, ptr: int, linkOk: bool, hole: int)
    requires Sound(v, hole)
    ensures Sound(Free(v, ptr, linkOk).1, hole)
    ensures OwnsAll(v) ==> OwnsAll(Free(v, ptr, linkOk).1)
  {
    hide Put, Remove, Owned, Inv;
    var k := FindPtr(v.buffers, ptr);
    if k < |v.buffers| {
      var n := InUseOf(v, k);
      ReturnKeeps(v.alloc, v.buffers[k].iova, linkOk, hole);
      PutRemoves(v.alloc, n, linkOk);
      MultisetRemove(v.alloc.inUse, n);
      OwnedAt(v.buffers, k);
      OwnedRemove(v.buffers, k);
      MultisetRemove(Owned(v.buffers), k);
    }
  }

  lemma OwnedAt(bs: seq<Buffer>, k: nat)
    requires k < |bs|
    ensures |Owned(bs)| == |bs| && Owned(bs)[k] == Block(bs[k].iova, bs[k].size)
  {
  }

  /** Distinct recorded buffers never share an address of the IOVA space. */
  lemma BuffersDisjoint(v: Vfio, hole: int, i: nat, j: nat)
    requires Sound(v, hole) && i < j < |v.buffers|
    ensures Owned(v.buffers)[i].Disjoint(Owned(v.buffers)[j])
  {
    var o := Owned(v.buffers);
    var a := InUseOf(v, i);
    var b := InUseOf(v, j);
    if a == b {
      assert o == o[..j] + [o[j]] + o[j + 1..];
      assert o[i] in o[..j];
      assert multiset(o)[o[j]] >= 2;
      OnceInUse(v.alloc, a);
      assert false;
    }
    assert v.alloc.inUse[a].Disjoint(v.alloc.inUse[b]);
  }

  lemma OnceInUse(st: Alloc, a: nat)
    requires Inv(st) && a < |st.inUse|
    ensures multiset(st.inUse)[st.inUse[a]] == 1
  {
    MultisetRemove(st.inUse, a);
    forall i | 0 <= i < |Remove(st.inUse, a)|
      ensures Remove(st.inUse, a)[i] != st.inUse[a]
    {
      var n := if i < a then i else i + 1;
      assert n < |st.inUse| && Remove(st.inUse, a)[i] == st.inUse[n];
      assert if n < a then st.inUse[n].Disjoint(st.inUse[a]) else st.inUse[a].Disjoint(st.inUse[n]);
    }
    assert st.inUse[a] !in Remove(st.inUse, a);
    assert multiset(Remove(st.inUse, a))[st.inUse[a]] == 0;
    assert st.inUse[a] in multiset(st.inUse);
    assert multiset(st.inUse)[st.inUse[a]] - 1 == multiset(Remove(st.inUse, a))[st.inUse[a]];
  }

  // ---- whole runs ----

  datatype Op =
    | Map(size: u64, env: Env)
    | Unmap(ptr: int, linkOk: bool)

  function Step(v: Vfio, op: Op, page: u64): Vfio
    requires 0 < page
  {
    match op
    case Map(size, env) => Allocate(v, size, page, env).v
    case Unmap(ptr, linkOk) => Free(v, ptr, linkOk).1
  }

  function Run(v: Vfio, ops: seq<Op>, page: u64): Vfio
    requires 0 < page
    decreases |ops|
  {
    if ops == [] then v else Run(Step(v, ops[0], page), ops[1..], page)
  }

  ghost predicate AllRoundable(ops: seq<Op>, k: nat) {
    k < 64 && forall i :: 0 <= i < |ops| ==> ops[i].Map? ==> Roundable(ops[i].size, k)
  }

  /** No allocation fails behind its reservation. */
  ghost predicate MappingsWork(ops: seq<Op>) {
    forall i :: 0 <= i < |ops| && ops[i].Map? ==> ops[i].env.mmapOk && ops[i].env.dmaOk && ops[i].env.nodeOk
  }

  /** No free is refused the node for the range it gives back. */
  ghost predicate FreesWork(ops: seq<Op>) {
    forall i :: 0 <= i < |ops| && ops[i].Unmap? ==> ops[i].linkOk
  }

  lemma StepKeeps(v: Vfio, op: Op, k: nat, hole: int)
    requires Sound(v, hole) && (op.Map? ==> Roundable(op.size, k)) && k < 64
    ensures 0 < Pow2(k) < TWO_64
    ensures Sound(Step(v, op, Pow2(k)), hole)
    ensures (op.Map? ==> op.env.mmapOk && op.env.dmaOk && op.env.nodeOk) && OwnsAll(v) ==>
              OwnsAll(Step(v, op, Pow2(k)))
    ensures (op.Unmap? ==> op.linkOk) ==>
              forall a :: Tracked(Step(v, op, Pow2(k)).alloc, a) <==> Tracked(v.alloc, a)
  {
    Mask64(0, k);
    match op
    case Map(size, env) =>
      AllocateKeeps(v, size, k, env, hole);
      if size != 0 {
        ReservedSizeIsLeastMultiple(size, k);
        TakeKeeps(v.alloc, ReservedSize(size, Pow2(k)), env.linkOk, hole);
      }
    case Unmap(ptr, linkOk) =>
      FreeKeeps(v, ptr, linkOk, hole);
      if FindPtr(v.buffers, ptr) < |v.buffers| {
        ReturnKeeps(v.alloc, v.buffers[FindPtr(v.buffers, ptr)].iova, linkOk, hole);
      }
  }

  /**
   * Through every run of allocations and frees, with mmap, the ioctl and malloc failing at
   * will, each recorded buffer owns one block in use of its base and size.
   */
  lemma {:induction false} RunKeeps(v: Vfio, ops: seq<Op>, k: nat, hole: int)
    requires Sound(v, hole) && AllRoundable(ops, k)
    ensures 0 < Pow2(k) < TWO_64
    ensures Sound(Run(v, ops, Pow2(k)), hole)
    decreases |ops|
  {
    Mask64(0, k);
    if ops != [] {
      StepKeeps(v, ops[0], k, hole);
      RunKeeps(Step(v, ops[0], Pow2(k)), ops[1..], k, hole);
    }
  }

  /**
   * As long as no allocation fails behind its reservation, buffers and blocks in use
   * correspond one to one, malloc failing at will inside the allocator.
   */
  lemma {:induction false} RunOwnsAll(v: Vfio, ops: seq<Op>, k: nat, hole: int)
    requires Sound(v, hole) && OwnsAll(v) && AllRoundable(ops, k) && MappingsWork(ops)
    ensures 0 < Pow2(k) < TWO_64
    ensures OwnsAll(Run(v, ops, Pow2(k))) && Sound(Run(v, ops, Pow2(k)), hole)
    decreases |ops|
  {
    Mask64(0, k);
    if ops != [] {
      StepKeeps(v, ops[0], k, hole);
      RunOwnsAll(Step(v, ops[0], Pow2(k)), ops[1..], k, hole);
    }
  }

  /**
   * No run loses IOVA space as long as malloc gives frees their nodes, whatever fails in
   * the allocations.
   */
  lemma {:induction false} RunConservesSpace(v: Vfio, ops: seq<Op>, k: nat, hole: int)
    requires Sound(v, hole) && AllRoundable(ops, k) && FreesWork(ops)
    ensures 0 < Pow2(k) < TWO_64
    ensures forall a :: Tracked(Run(v, ops, Pow2(k)).alloc, a) <==> Tracked(v.alloc, a)
    decreases |ops|
  {
    Mask64(0, k);
    if ops != [] {
      StepKeeps(v, ops[0], k, hole);
      RunConservesSpace(Step(v, ops[0], Pow2(k)), ops[1..], k, hole);
    }
  }

  // ---- closing the device ----

  lemma {:induction false} PutAllEmpties(v: Vfio, linkOk: seq<bool>, hole: int)
    requires Sound(v, hole) && OwnsAll(v) && |v.buffers| <= |linkOk|
    ensures Inv(PutAll(v.alloc, v.buffers, linkOk)) && PutAll(v.alloc, v.buffers, linkOk).inUse == []
    ensures (forall i :: 0 <= i < |v.buffers| ==> linkOk[i]) ==>
              forall a :: Tracked(PutAll(v.alloc, v.buffers, linkOk), a) <==> Tracked(v.alloc, a)
    decreases |v.buffers|
  {
    if v.buffers == [] {
      assert |multiset(v.alloc.inUse)| == |multiset(Owned(v.buffers))| == 0;
    } else {
      var v' := PopFirst(v, linkOk[0], hole);
      PutAllEmpties(v', linkOk[1..], hole);
    }
  }

  /** Giving back the first buffer is a free of its pointer. */
  lemma PopFirst(v: Vfio, linkOk: bool, hole: int) returns (v': Vfio)
    requires Sound(v, hole) && OwnsAll(v) && v.buffers != []
    ensures v' == Vfio(v.buffers[1..], Put(v.alloc, v.buffers[0].iova, linkOk).1)
    ensures Sound(v', hole) && OwnsAll(v')
    ensures linkOk ==> forall a :: Tracked(v'.alloc, a) <==> Tracked(v.alloc, a)
  {
    FreeKeeps(v, v.buffers[0].ptr, linkOk, hole);
    ReturnKeeps(v.alloc, v.buffers[0].iova, linkOk, hole);
    v' := Free(v, v.buffers[0].ptr, linkOk).1;
  }

  /**
   * A device whose allocations did not fail behind their reservations, and whose frees were
   * not refused a node, has exactly the discovered free list when its buffers are given back.
   */
  lemma CloseRestoresDiscovered(free: seq<Block>, ops: seq<Op>, k: nat, hole: int, linkOk: seq<bool>)
    requires Canonical(free) && Hole(free, hole) && AllRoundable(ops, k) && MappingsWork(ops) && FreesWork(ops)
    requires forall i :: 0 <= i < |linkOk| ==> linkOk[i]
    ensures 0 < Pow2(k) < TWO_64
    ensures var v := Run(Vfio([], Alloc(free, [])), ops, Pow2(k));
            |v.buffers| <= |linkOk| ==> PutAll(v.alloc, v.buffers, linkOk) == Alloc(free, [])
  {
    Mask64(0, k);
    var v0 := Vfio([], Alloc(free, []));
    RunOwnsAll(v0, ops, k, hole);
    RunConservesSpace(v0, ops, k, hole);
    var v := Run(v0, ops, Pow2(k));
    if |v.buffers| <= |linkOk| {
      PutAllEmpties(v, linkOk, hole);
      SameFree(PutAll(v.alloc, v.buffers, linkOk), v0.alloc);
    }
  }

  // ---- one allocation and its free ----

  /** Freeing the buffer just allocated restores the device, if mmap gave a new address. */
  lemma AllocateThenFree(v: Vfio, size: u64, k: nat, env: Env, hole: int)
    requires Sound(v, hole) && Roundable(size, k) && FindPtr(v.buffers, env.vaddr) == |v.buffers|
    ensures 0 < Pow2(k) < TWO_64
    ensures var r := Allocate(v, size, Pow2(k), env);
            r.code == OK ==> Free(r.v, env.vaddr, true) == (OK, v)
  {
    Mask64(0, k);
    var r := Allocate(v, size, Pow2(k), env);
    if r.code == OK {
      ReservedSizeIsLeastMultiple(size, k);
      GetThenPut(v.alloc, r.size, env.linkOk, hole);
      assert Remove(r.v.buffers, 0) == v.buffers;
    }
  }

  /** Once an address is reserved, the device stays sound exactly when the size is roundable. */
  lemma AllocateKeepsIffRoundable(v: Vfio, size: u64, k: nat, env: Env, hole: int)
    requires Sound(v, hole) && k < 64 && 0 < size
    ensures 0 < Pow2(k) < TWO_64
    ensures Allocate(v, size, Pow2(k), env).code != NO_IOVA ==>
              (Sound(Allocate(v, size, Pow2(k), env).v, hole) <==> Roundable(size, k))
  {
    ReservedSizeIsLeastMultiple(size, k);
    var size' := ReservedSize(size, Pow2(k));
    if Roundable(size, k) {
      AllocateKeeps(v, size, k, env, hole);
    } else if Get(v.alloc, size', env.linkOk).0 == OK {
      GetKeepsIffPositive(v.alloc, size', env.linkOk, hole);
    }
  }

  lemma FailureLeaks(v: Vfio, size: u64, page: u64, env: Env)
    requires 0 < page && Allocate(v, size, page, env).code in {NO_MAPPING, NO_MEMORY}
    ensures var v' := Allocate(v, size, page, env).v;
            v'.buffers == v.buffers && |v'.alloc.inUse| == |v.alloc.inUse| + 1
  {
    hide Get, ReservedSize;
    LastUsed(v.alloc, ReservedSize(size, page), env.linkOk);
  }

  lemma SameSizes(v: Vfio)
    requires OwnsAll(v)
    ensures |v.alloc.inUse| == |v.buffers|
  {
    assert |multiset(v.alloc.inUse)| == |multiset(Owned(v.buffers))|;
  }

  /**
   * An allocation keeps the one-to-one correspondence exactly when it is for nothing, or
   * there is no range to reserve, or mapping, ioctl and node behind the reservation work:
   * opae_vfio_buffer_allocate never gives a reserved range back.
   */
  lemma AllocateKeepsAllIff(v: Vfio, size: u64, k: nat, env: Env, hole: int)
    requires Sound(v, hole) && OwnsAll(v) && Roundable(size, k)
    ensures 0 < Pow2(k) < TWO_64
    ensures OwnsAll(Allocate(v, size, Pow2(k), env).v) <==>
            || size == 0
            || !Reservable(v.alloc, ReservedSize(size, Pow2(k)), env.linkOk)
            || (env.mmapOk && env.dmaOk && env.nodeOk)
  {
    hide OwnsAll, Reservable, Get;
    Mask64(0, k);
    AllocateKeeps(v, size, k, env, hole);
    var a := Allocate(v, size, Pow2(k), env);
    if size != 0 {
      ReservedSizeIsLeastMultiple(size, k);
      GetSucceedsIff(v.alloc, ReservedSize(size, Pow2(k)), env.linkOk);
    }
    if a.code in {NO_MAPPING, NO_MEMORY} {
      FailureLeaks(v, size, Pow2(k), env);
      SameSizes(v);
      if OwnsAll(a.v) {
        SameSizes(a.v);
      }
    }
  }
}
