/** The DMA buffers of one VFIO device on top of its IOVA allocator, as functions on values. */
module VfioSpec {
  import opened Word
  import opened Blocks
  import opened Lists
  import opened AllocSpec
  import opened BufferSizes

  datatype Buffer = Buffer(ptr: int, size: u64, iova: u64)

  /** cont_buffers, most recent first, and iova_alloc. */
  datatype Vfio = Vfio(buffers: seq<Buffer>, alloc: Alloc)

  /** What the calls outside the library answer during one allocation. */
  datatype Env = Env(
    linkOk: bool,    // malloc of an allocator node
    mmapOk: bool,
    vaddr: int,      // what mmap returns
    dmaOk: bool,     // the MAP_DMA ioctl
    nodeOk: bool)    // malloc of the buffer node

  datatype Allocation = Allocation(code: int, size: u64, vaddr: int, iova: u64, v: Vfio)

  const ZERO_SIZE: int := 2
  const NO_IOVA: int := 4
  const NO_MAPPING: int := 5
  const NO_MEMORY: int := 6
  const NO_BUFFER: int := 3

  /** opae_vfio_buffer_allocate. The reservation is kept on every path behind it. */
  function Allocate(v: Vfio, size: u64, page: u64, env: Env): Allocation
    requires 0 < page
  {
    if size == 0 then Allocation(ZERO_SIZE, size, 0, 0, v)
    else
      var size' := ReservedSize(size, page);
      var (code, iova, alloc) := Get(v.alloc, size', env.linkOk);
      if code != OK then Allocation(NO_IOVA, size', 0, 0, v)
      else if !env.mmapOk || !env.dmaOk then
        Allocation(NO_MAPPING, size', 0, 0, v.(alloc := alloc))
      else if !env.nodeOk then
        Allocation(NO_MEMORY, size', 0, 0, v.(alloc := alloc))
      else
        Allocation(OK, size', env.vaddr, iova,
                   Vfio([Buffer(env.vaddr, size', iova)] + v.buffers, alloc))
  }

  /** The first index, not before start, of a buffer mapped at ptr. */
  function FindPtr(bs: seq<Buffer>, ptr: int, start: nat := 0): (k: nat)
    requires start <= |bs|
    ensures start <= k <= |bs|
    ensures forall i :: start <= i < k ==> bs[i].ptr != ptr
    ensures k < |bs| ==> bs[k].ptr == ptr
    decreases |bs| - start
  {
    if start < |bs| && bs[start].ptr != ptr then FindPtr(bs, ptr, start + 1) else start
  }

  /** opae_vfio_buffer_free. A failing put goes unnoticed. */
  function Free(v: Vfio, ptr: int, linkOk: bool): (int, Vfio) {
    var k := FindPtr(v.buffers, ptr);
    if k == |v.buffers| then (NO_BUFFER, v)
    else (OK, Vfio(Remove(v.buffers, k), Put(v.alloc, v.buffers[k].iova, linkOk).1))
  }

  /** opae_vfio_destroy_buffer on a list of buffers; linkOk says what malloc answers in turn. */
  function PutAll(alloc: Alloc, bs: seq<Buffer>, linkOk: seq<bool>): Alloc
    requires |bs| <= |linkOk|
    decreases |bs|
  {
    if bs == [] then alloc
    else PutAll(Put(alloc, bs[0].iova, linkOk[0]).1, bs[1..], linkOk[1..])
  }

  lemma PutAllOne(alloc: Alloc, b: Buffer, linkOk: bool)
    ensures PutAll(alloc, [b], [linkOk]) == Put(alloc, b.iova, linkOk).1
  {
    assert PutAll(Put(alloc, b.iova, linkOk).1, [], []) == Put(alloc, b.iova, linkOk).1;
    assert [b][1..] == [] && [linkOk][1..] == [];
  }

  lemma PutAllStep(alloc: Alloc, bs: seq<Buffer>, linkOk: seq<bool>, i: nat)
    requires i < |bs| <= |linkOk|
    ensures PutAll(alloc, bs[i..], linkOk[i..]) ==
            PutAll(Put(alloc, bs[i].iova, linkOk[i]).1, bs[i + 1..], linkOk[i + 1..])
  {
    assert bs[i..][1..] == bs[i + 1..] && linkOk[i..][1..] == linkOk[i + 1..];
  }

  /** An IOVA range as the kernel reports it, both ends included. */
  datatype Range = Range(start: u64, end: u64, nodeOk: bool, linkOk: bool)

  /** The add-free loop of opae_vfio_iova_discover. A range whose node is missing is skipped. */
  function Discover(free: seq<Block>, ranges: seq<Range>): seq<Block>
    decreases |ranges|
  {
    if ranges == [] then free
    else
      var r := ranges[0];
      Discover(if r.nodeOk then AddFree(free, r.start, Wrap(r.end + 1 - r.start), r.linkOk).1 else free,
               ranges[1..])
  }
}
