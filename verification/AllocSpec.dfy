/**
 * What each operation of the logical address allocator does to the two lists it
 * keeps, as functions on sequences of blocks. Every 64-bit sum wraps as in C.
 */
module AllocSpec {
  import opened Word
  import opened Blocks
  import opened Lists

  datatype Alloc = Alloc(free: seq<Block>, inUse: seq<Block>)

  const EMPTY: Alloc := Alloc([], [])

  // Return codes of the allocator.
  const OK: int := 0
  const FAILED: int := 1
  const DOUBLE_FREE: int := 2

  /** The first index, not before start, whose block does not begin below address. */
  function InsertPos(bs: seq<Block>, address: u64, start: nat := 0): (k: nat)
    requires start <= |bs|
    ensures start <= k <= |bs|
    ensures forall i :: start <= i < k ==> bs[i].address < address
    ensures k < |bs| ==> address <= bs[k].address
    decreases |bs| - start
  {
    if start < |bs| && bs[start].address < address
    then InsertPos(bs, address, start + 1)
    else start
  }

  /** Whether block j ends, in 64-bit arithmetic, where block j + 1 begins. */
  predicate Touches(bs: seq<Block>, j: int) {
    0 <= j && j + 1 < |bs| && Wrap(bs[j].address + bs[j].size) == bs[j + 1].address
  }

  function MergeAt(bs: seq<Block>, j: nat): seq<Block>
    requires j + 1 < |bs|
  {
    bs[..j] + [Block(bs[j].address, Wrap(bs[j].size + bs[j + 1].size))] + bs[j + 2..]
  }

  lemma MergeByRemoval(bs: seq<Block>, j: nat)
    requires j + 1 < |bs|
    ensures var b := Block(bs[j].address, Wrap(bs[j + 1].size + bs[j].size));
            MergeAt(bs, j) == Remove(bs[j + 1 := b], j)
  {
  }

  function TryMerge(bs: seq<Block>, j: int): seq<Block> {
    if Touches(bs, j) then MergeAt(bs, j) else bs
  }

  /** Join block k with its left neighbour and then the result with its right one. */
  function Coalesce(bs: seq<Block>, k: nat): seq<Block>
    requires k < |bs|
  {
    TryMerge(TryMerge(bs, k - 1), if Touches(bs, k - 1) then k - 1 else k)
  }

  function AddFree(free: seq<Block>, address: u64, size: u64, mallocOk: bool): (int, seq<Block>) {
    if !mallocOk then (FAILED, free)
    else if free != [] && address == free[0].address then (DOUBLE_FREE, free)
    else
      var k := InsertPos(free, address);
      (OK, Coalesce(Insert(free, k, Block(address, size)), k))
  }

  /** The first index, not before start, of a block of at least size addresses. */
  function FirstFit(bs: seq<Block>, size: u64, start: nat := 0): (k: nat)
    requires start <= |bs|
    ensures start <= k <= |bs|
    ensures forall i :: start <= i < k ==> bs[i].size < size
    ensures k < |bs| ==> size <= bs[k].size
    decreases |bs| - start
  {
    if start < |bs| && bs[start].size < size then FirstFit(bs, size, start + 1) else start
  }

  /** Taking size addresses from the front of free block k, and the address handed out. */
  function TakeAt(st: Alloc, k: nat, size: u64, mallocOk: bool): (int, u64, Alloc)
    requires k < |st.free| && size <= st.free[k].size
  {
    var b := st.free[k];
    if b.size == size then
      (OK, b.address, Alloc(Remove(st.free, k), st.inUse + [b]))
    else if !mallocOk then (FAILED, 0, st)
    else
      (OK, b.address,
       Alloc(st.free[k := Block(Wrap(b.address + size), b.size - size)],
             st.inUse + [Block(b.address, size)]))
  }

  function Get(st: Alloc, size: u64, mallocOk: bool): (int, u64, Alloc) {
    var k := FirstFit(st.free, size);
    if k == |st.free| then (FAILED, 0, st) else TakeAt(st, k, size, mallocOk)
  }

  /** The first index, not before start, of a block based at address. */
  function FindBase(bs: seq<Block>, address: u64, start: nat := 0): (k: nat)
    requires start <= |bs|
    ensures start <= k <= |bs|
    ensures forall i :: start <= i < k ==> bs[i].address != address
    ensures k < |bs| ==> bs[k].address == address
    decreases |bs| - start
  {
    if start < |bs| && bs[start].address != address then FindBase(bs, address, start + 1) else start
  }

  function Put(st: Alloc, address: u64, mallocOk: bool): (int, Alloc) {
    var k := FindBase(st.inUse, address);
    if k == |st.inUse| then (FAILED, st)
    else
      var (code, free) := AddFree(st.free, address, st.inUse[k].size, mallocOk);
      (code, Alloc(free, Remove(st.inUse, k)))
  }
}
