/** When the plugin's buffer calls succeed, and what they hand out and take back. */
module PluginEffects {
  import opened Word
  import opened Masks
  import opened Blocks
  import opened Lists
  import opened BufferSizes
  import opened AllocSpec
  import opened VfioSpec
  import opened VfioRuns
  import opened VfioEffects
  import opened Results
  import opened PluginBuffers
  import opened PluginRuns

  /**
   * What a prepare returns, read off the length, the free space and what it is answered: it
   * works exactly when the length can be rounded, a range of that size can be reserved, and
   * mapping, ioctl, buffer node and list entry all work.
   */
  lemma PrepareCode<D>(entries: seq<Entry<D>>, d: D, v: Vfio, len: u64, k: nat, env: Env, entryOk: bool, linkOk: bool)
    requires Canonical(v.alloc.free) && k < 64
    ensures 0 < Pow2(k) < TWO_64
    ensures var code := Prepare(entries, d, v, len, Pow2(k), env, entryOk, linkOk).code;
            var mapped := && len <= TWO_64 - HUGE_1G && HasRoom(v.alloc, PreparedSize(len), k, env.linkOk)
                          && env.mmapOk && env.dmaOk && env.nodeOk;
            && (code == Ok <==> mapped && entryOk)
            && (code == NoMemory <==> mapped && !entryOk)
            && (code == Exception <==> !mapped)
  {
    hide HasRoom, Pow2, ReservedSize, Get, PreparedSize, Allocate, Free;
    PreparedSizeFits(len);
    if len <= PAGE_4K {
      PreparedInOnePage(len);
    }
    AllocateCode(v, PreparedSize(len), k, env);
  }

  /**
   * A prepare that works hands out the address of the mapping under the id after the newest
   * one; the device's newest buffer and the newest entry both are that mapping, with the
   * same IOVA and size, and nothing else is changed in either list.
   */
  lemma PrepareDoes<D>(
      entries: seq<Entry<D>>, d: D, v: Vfio, len: u64, page: u64, env: Env, entryOk: bool, linkOk: bool)
    requires 0 < page
    ensures var r := Prepare(entries, d, v, len, page, env, entryOk, linkOk);
            r.code == Ok ==>
              && r.vaddr == env.vaddr
              && r.wsid == (if entries == [] then 0 else (entries[0].wsid + 1) % TWO_64)
              && r.entries != [] && r.entries[1..] == entries
              && r.entries[0].wsid == r.wsid && r.entries[0].vaddr == env.vaddr && r.entries[0].device == d
              && r.v.buffers != [] && r.v.buffers[1..] == v.buffers
              && r.v.buffers[0] == Buffer(env.vaddr, r.entries[0].size, r.entries[0].iova)
              && IOAddress(r.entries, r.wsid) == (Ok, r.v.buffers[0].iova)
  {
    hide ReservedSize, Get, PreparedSize;
  }

  /** A prepare that fails leaves the list of entries and the device's buffers alone. */
  lemma FailedPrepareDoes<D>(
      entries: seq<Entry<D>>, d: D, v: Vfio, len: u64, page: u64, env: Env, entryOk: bool, linkOk: bool)
    requires 0 < page && FindPtr(v.buffers, env.vaddr) == |v.buffers|
    ensures var r := Prepare(entries, d, v, len, page, env, entryOk, linkOk);
            r.code != Ok ==> r.entries == entries && r.v.buffers == v.buffers
  {
    hide ReservedSize, Get, PreparedSize, Put;
    var a := Allocate(v, PreparedSize(len), page, env);
    if a.code == OK {
      assert FindPtr(a.v.buffers, a.vaddr) == 0;
      assert Remove(a.v.buffers, 0) == v.buffers;
    }
  }

  /**
   * Releasing the id a prepare has just returned gives back exactly what it took, and so
   * does a prepare that gets no memory for its entry, if mmap gave an address that is new.
   */
  lemma PrepareThenRelease<D>(
      entries: seq<Entry<D>>, d: D, v: Vfio, len: u64, k: nat, env: Env, entryOk: bool, hole: int)
    requires Sound(v, hole) && Roundable(PreparedSize(len), k) && FindPtr(v.buffers, env.vaddr) == |v.buffers|
    ensures 0 < Pow2(k) < TWO_64
    ensures var r := Prepare(entries, d, v, len, Pow2(k), env, entryOk, true);
            && (r.code == Ok ==> Release(r.entries, r.v, r.wsid, true) == (Ok, entries, v))
            && (r.code == NoMemory ==> r.v == v)
  {
    hide Pow2, PreparedSize, ReservedSize, Get, Put;
    AllocateThenFree(v, PreparedSize(len), k, env, hole);
    var r := Prepare(entries, d, v, len, Pow2(k), env, entryOk, true);
    if r.code == Ok {
      assert FindWsid(r.entries, r.wsid) == 0;
      assert Remove(r.entries, 0) == entries;
    }
  }

  ghost predicate Listed<D>(entries: seq<Entry<D>>, wsid: u64) {
    exists k :: 0 <= k < |entries| && entries[k].wsid == wsid
  }

  /** A release finds its id exactly when it is listed; otherwise nothing happens. */
  lemma ReleaseCode<D>(entries: seq<Entry<D>>, v: Vfio, wsid: u64, linkOk: bool)
    ensures Release(entries, v, wsid, linkOk).0 == Ok <==> Listed(entries, wsid)
    ensures Release(entries, v, wsid, linkOk).0 != Ok ==>
              Release(entries, v, wsid, linkOk) == (NotFound, entries, v)
    ensures IOAddress(entries, wsid).0 == Ok <==> Listed(entries, wsid)
    ensures IOAddress(entries, wsid).0 != Ok ==> IOAddress(entries, wsid) == (NotFound, 0)
  {
    hide Free;
    var k := FindWsid(entries, wsid);
    if k < |entries| {
      assert entries[k].wsid == wsid;
    }
  }

  /** The IO address of a listed id is the IOVA of its entry, wherever that is in the list. */
  lemma IOAddressDoes<D>(entries: seq<Entry<D>>, k: nat)
    requires Decreasing(entries) && k < |entries|
    ensures IOAddress(entries, entries[k].wsid) == (Ok, entries[k].iova)
  {
    DecreasingFind(entries, k);
  }

  /**
   * A release of any listed id, newest or not, through the device that prepared it takes
   * that entry off the list and exactly its buffer off the device's own.
   */
  lemma ReleaseDoes<D>(entries: seq<Entry<D>>, v: Vfio, k: nat, linkOk: bool) returns (n: nat)
    requires Decreasing(entries) && k < |entries|
    requires EntriesOf(entries, entries[k].device) == v.buffers && DistinctPtrs(v.buffers)
    ensures var e := entries[k];
            var (code, entries', v') := Release(entries, v, e.wsid, linkOk);
            && code == Ok
            && entries' == Remove(entries, k)
            && n < |v.buffers|
            && v.buffers[n] == Buffer(e.vaddr, e.size, e.iova)
            && v'.buffers == Remove(v.buffers, n)
            && v' == Free(v, e.vaddr, linkOk).1
  {
    hide Remove, EntriesOf, Decreasing, Put;
    DecreasingFind(entries, k);
    n := EntriesOfRemove(entries, k, entries[k].device);
    DistinctFind(v.buffers, n);
  }
}
