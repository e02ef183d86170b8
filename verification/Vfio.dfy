/** One VFIO device: its list of DMA buffers and its IOVA allocator, updated in place. */
module VfioDevice {
  import opened Word
  import opened Lists
  import opened Chains
  import opened AllocSpec
  import opened AllocProofs
  import opened BufferSizes
  import opened VfioSpec
  import MemAllocator

  class OpaeVfio {
    const contBuffers: Chain<Buffer>
    const iovaAlloc: MemAllocator.MemAlloc

    /** The buffer nodes that malloc gave out and that were not given back to it. */
    ghost var heap: set<Cell<Buffer>>

    ghost function Repr(): set<object>
      reads contBuffers, iovaAlloc, iovaAlloc.free, iovaAlloc.inUse
    {
      {this} + contBuffers.Repr() + iovaAlloc.Repr()
    }

    ghost predicate Apart()
      reads this, contBuffers, iovaAlloc, iovaAlloc.free, iovaAlloc.inUse, Repr()
    {
      && contBuffers.Repr() !! iovaAlloc.Repr()
      && this !in contBuffers.Repr() && this !in iovaAlloc.Repr()
      && contBuffers.Valid() && iovaAlloc.Valid()
    }

    ghost predicate Valid()
      reads this, contBuffers, iovaAlloc, iovaAlloc.free, iovaAlloc.inUse, Repr()
    {
      Apart() && heap == contBuffers.members
    }

    ghost function Model(): Vfio
      reads contBuffers, iovaAlloc.free, iovaAlloc.inUse
    {
      Vfio(contBuffers.view, iovaAlloc.Model())
    }

    /** Where the predicates above look is part of the footprint. */
    lemma Footprint()
      ensures {this, contBuffers, iovaAlloc, iovaAlloc.free, iovaAlloc.inUse} <= Repr()
    {
    }

    constructor ()
      ensures Valid() && fresh(Repr()) && Model() == Vfio([], EMPTY) && heap == {}
    {
      contBuffers := new Chain();
      iovaAlloc := new MemAllocator.MemAlloc();
      heap := {};
    }

    /** One reported range; without memory for its bookkeeping it is skipped. */
    method AddRange(r: Range)
      requires Valid()
      modifies iovaAlloc.Repr()
      ensures Valid() && fresh(iovaAlloc.Repr() - old(iovaAlloc.Repr()))
      ensures iovaAlloc.free.view == if r.nodeOk
              then AddFree(old(iovaAlloc.free.view), r.start, Wrap(r.end + 1 - r.start), r.linkOk).1
              else old(iovaAlloc.free.view)
      ensures iovaAlloc.inUse.view == old(iovaAlloc.inUse.view)
    {
      hide Path, Shows, Elems, Distinct, AddFree, Chain.Valid, MemAllocator.MemAlloc.Valid;
      if r.nodeOk {
        var _ := iovaAlloc.AddFree(r.start, Wrap(r.end + 1 - r.start), r.linkOk);
      }
    }

    /** The add-free loop of opae_vfio_iova_discover. */
    method IovaDiscover(ranges: seq<Range>)
      requires Valid()
      modifies iovaAlloc.Repr()
      ensures Valid() && fresh(iovaAlloc.Repr() - old(iovaAlloc.Repr()))
      ensures iovaAlloc.free.view == Discover(old(iovaAlloc.free.view), ranges)
      ensures iovaAlloc.inUse.view == old(iovaAlloc.inUse.view)
    {
      hide Path, Shows, Elems, Distinct, AddFree, Chain.Valid, MemAllocator.MemAlloc.Valid, Valid;
      var i := 0;
      assert ranges[0..] == ranges;
      while i < |ranges|
        invariant 0 <= i <= |ranges|
        invariant Valid() && fresh(iovaAlloc.Repr() - old(iovaAlloc.Repr()))
        invariant iovaAlloc.inUse.view == old(iovaAlloc.inUse.view)
        invariant Discover(iovaAlloc.free.view, ranges[i..]) == Discover(old(iovaAlloc.free.view), ranges)
      {
        assert ranges[i..][0] == ranges[i] && ranges[i..][1..] == ranges[i + 1..];
        AddRange(ranges[i]);
        i := i + 1;
      }
    }

    method IovaReserve(size: u64, page: u64, linkOk: bool) returns (code: int, size': u64, iova: u64)
      requires Valid() && 0 < page
      modifies Repr()
      ensures Valid() && fresh(Repr() - old(Repr()))
      ensures contBuffers.view == old(contBuffers.view)
      ensures size' == ReservedSize(size, page)
      ensures (code, iova, iovaAlloc.Model()) == Get(old(iovaAlloc.Model()), size', linkOk)
    {
      hide Path, Shows, Get, MemAllocator.MemAlloc.Apart;
      size' := ReservedSize(size, page);
      code, iova := iovaAlloc.Get(size', linkOk);
    }

    /** A node for the new buffer, at the head of cont_buffers. */
    method Record(b: Buffer)
      requires Valid()
      modifies Repr()
      ensures Valid() && fresh(Repr() - old(Repr()))
      ensures Model() == Vfio([b] + old(contBuffers.view), old(iovaAlloc.Model()))
    {
      hide Path, Shows, Elems, Distinct, MemAllocator.MemAlloc.Valid;
      var node := new Cell(b);
      heap := heap + {node};
      contBuffers.PushFront(node);
    }

    method BufferAllocate(size: u64, page: u64, env: Env)
      returns (code: int, size': u64, vaddr: int, iova: u64)
      requires Valid() && 0 < page
      modifies Repr()
      ensures Valid() && fresh(Repr() - old(Repr()))
      ensures Allocation(code, size', vaddr, iova, Model()) == Allocate(old(Model()), size, page, env)
    {
      hide Path, Shows, Get, MemAllocator.MemAlloc.Apart, ReservedSize, Chain.Valid;
      if size == 0 {
        return ZERO_SIZE, size, 0, 0;
      }
      var ioaddr;
      code, size', ioaddr := IovaReserve(size, page, env.linkOk);
      FailedGetChangesNothing(old(iovaAlloc.Model()), size', env.linkOk);
      if code != OK {
        return NO_IOVA, size', 0, 0;
      }
      if !env.mmapOk || !env.dmaOk {
        return NO_MAPPING, size', 0, 0;
      }
      if !env.nodeOk {
        return NO_MEMORY, size', 0, 0;
      }
      Record(Buffer(env.vaddr, size', ioaddr));
      return OK, size', env.vaddr, ioaddr;
    }

    /** opae_vfio_destroy_buffer: unmap, give back and free every buffer from b on. */
    method DestroyBuffer(b: Cell?<Buffer>, ghost cells: seq<Cell<Buffer>>, ghost bufs: seq<Buffer>, linkOk: seq<bool>)
      requires iovaAlloc.Valid() && Path(b, cells) && Shows(cells, bufs)
      requires Elems(cells) <= heap && Elems(cells) !! iovaAlloc.Repr() && this !in iovaAlloc.Repr()
      requires |cells| <= |linkOk|
      modifies this`heap, iovaAlloc.Repr()
      ensures iovaAlloc.Valid() && fresh(iovaAlloc.Repr() - old(iovaAlloc.Repr()))
      ensures heap == old(heap) - Elems(cells)
      ensures |bufs| == |cells| && iovaAlloc.Model() == PutAll(old(iovaAlloc.Model()), bufs, linkOk)
    {
      hide Put, PutAll, MemAllocator.MemAlloc.Valid, Elems, Distinct, iovaAlloc.Model, Path, Shows;
      var p := b;
      var i := 0;
      PathAt(b, cells, bufs, 0);
      assert bufs[0..] == bufs && linkOk[0..] == linkOk;
      ElemsOfPrefix(cells, 0);
      while p != null
        invariant i <= |cells| == |bufs| && p == At(cells, i)
        invariant iovaAlloc.Valid() && fresh(iovaAlloc.Repr() - old(iovaAlloc.Repr()))
        invariant Path(b, cells) && Shows(cells, bufs)
        invariant PutAll(iovaAlloc.Model(), bufs[i..], linkOk[i..]) == PutAll(old(iovaAlloc.Model()), bufs, linkOk)
        invariant heap == old(heap) - Elems(cells[..i])
        decreases |cells| - i
      {
        PathAt(b, cells, bufs, i);
        var trash := p;
        p := p.next;
        PutAllStep(iovaAlloc.Model(), bufs, linkOk, i);
        var _ := iovaAlloc.Put(trash.data.iova, linkOk[i]);
        ElemsOfPrefix(cells, i);
        heap := heap - {trash};
        i := i + 1;
      }
      assert cells[..i] == cells;
      PutAllNone(iovaAlloc.Model(), bufs[i..], linkOk[i..]);
    }

    lemma PutAllNone(alloc: Alloc, bs: seq<Buffer>, linkOk: seq<bool>)
      requires bs == []
      ensures PutAll(alloc, bs, linkOk) == alloc
    {
    }

    lemma ElemsOfPrefix(cells: seq<Cell<Buffer>>, i: nat)
      requires i <= |cells|
      ensures Elems(cells[..0]) == {}
      ensures i < |cells| ==> Elems(cells[..i + 1]) == Elems(cells[..i]) + {cells[i]}
    {
      if i < |cells| {
        assert cells[..i + 1] == cells[..i] + [cells[i]];
      }
    }

    /** The search of opae_vfio_buffer_free. */
    method FindBuffer(buf: int) returns (prev: Cell?<Buffer>, b: Cell?<Buffer>, ghost k: nat)
      requires contBuffers.Valid()
      ensures k == FindPtr(contBuffers.view, buf) <= |contBuffers.cells| == |contBuffers.view|
      ensures b == At(contBuffers.cells, k) && prev == At(contBuffers.cells, k - 1)
    {
      hide Distinct, Elems;
      contBuffers.Here(0);
      b, prev, k := contBuffers.first, null, 0;
      while b != null && b.data.ptr != buf
        invariant k <= |contBuffers.cells| == |contBuffers.view|
        invariant b == At(contBuffers.cells, k) && prev == At(contBuffers.cells, k - 1)
        invariant FindPtr(contBuffers.view, buf, k) == FindPtr(contBuffers.view, buf)
        decreases |contBuffers.cells| - k
      {
        contBuffers.Here(k);
        prev, b, k := b, b.next, k + 1;
      }
      contBuffers.Here(k);
    }

    /** Take a buffer off the list; it ends no other list then. */
    method TakeOut(prev: Cell?<Buffer>, b: Cell<Buffer>, ghost k: nat)
      requires Valid() && k < |contBuffers.cells| && b == contBuffers.cells[k] && prev == At(contBuffers.cells, k - 1)
      modifies contBuffers.Repr()
      ensures Apart() && Repr() == old(Repr()) - {b} && b !in iovaAlloc.Repr()
      ensures heap == contBuffers.members + {b} && b !in contBuffers.members
      ensures k < |old(contBuffers.view)| && contBuffers.view == Remove(old(contBuffers.view), k)
      ensures b.next == null && b.data == old(contBuffers.view)[k]
    {
      hide Remove, Path, Shows, Elems, Distinct, MemAllocator.MemAlloc.Valid;
      contBuffers.Here(k);
      contBuffers.Unlink(prev, b, k);
      b.next := null;
    }

    method BufferFree(buf: int, linkOk: bool) returns (code: int)
      requires Valid()
      modifies Repr()
      ensures Valid() && fresh(Repr() - old(Repr()))
      ensures (code, Model()) == Free(old(Model()), buf, linkOk)
    {
      hide Put, PutAll, MemAllocator.MemAlloc.Valid, Remove, Path, Shows, Elems, Distinct;
      var prev, b;
      ghost var k;
      prev, b, k := FindBuffer(buf);
      if b == null {
        return NO_BUFFER;
      }
      TakeOut(prev, b, k);
      SinglePath(b);
      PutAllOne(iovaAlloc.Model(), b.data, linkOk);
      DestroyBuffer(b, [b], [b.data], [linkOk]);
      return OK;
    }

    /** The part of opae_vfio_destroy that gives back buffers and IOVA space. */
    method Destroy(linkOk: seq<bool>)
      requires Valid() && |contBuffers.cells| <= |linkOk|
      modifies Repr()
      ensures Valid() && fresh(Repr() - old(Repr()))
      ensures heap == {} && iovaAlloc.heap == {}
      ensures Model() == Vfio([], EMPTY)
    {
      hide PutAll, MemAllocator.MemAlloc.Apart, Distinct, Elems, Path, Shows;
      contBuffers.Here(0);
      DestroyBuffer(contBuffers.first, contBuffers.cells, contBuffers.view, linkOk);
      contBuffers.Clear();
      iovaAlloc.Destroy();
    }
  }
}
