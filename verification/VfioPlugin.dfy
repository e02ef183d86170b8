/** The VFIO plugin's global buffer list, linked in place, working on device objects. */
module VfioPluginState {
  import opened Word
  import opened Lists
  import opened Chains
  import opened Results
  import opened BufferSizes
  import opened VfioSpec
  import opened PluginBuffers
  import VfioDevice
  import AllocSpec

  type Device = VfioDevice.OpaeVfio

  class VfioPlugin {
    const buffers: Chain<Entry<Device>>

    ghost function Repr(): set<object>
      reads buffers
    {
      {this} + buffers.Repr()
    }

    ghost predicate Valid()
      reads buffers, buffers.Repr()
    {
      this !in buffers.Repr() && buffers.Valid()
    }

    constructor ()
      ensures Valid() && fresh(Repr()) && buffers.view == []
    {
      buffers := new Chain();
    }

    /** Put a buffer at the head of the list, under the id after that of the old head. */
    method Push(virt: int, iova: u64, size: u64, v: Device) returns (wsid: u64)
      requires Valid()
      modifies Repr()
      ensures Valid() && fresh(Repr() - old(Repr()))
      ensures wsid == NextWsid(old(buffers.view))
      ensures buffers.view == [Entry(virt, iova, wsid, size, v)] + old(buffers.view)
    {
      hide Path, Shows, Elems, Distinct;
      buffers.Here(0);
      wsid := if buffers.first == null then 0 else Wrap(buffers.first.data.wsid + 1);
      var buffer := new Cell(Entry(virt, iova, wsid, size, v));
      buffers.PushFront(buffer);
    }

    /** An entry for a buffer that v has mapped; without memory for it the buffer is given back. */
    method Enter(v: Device, virt: int, iova: u64, size: u64, entryOk: bool, linkOk: bool)
      returns (res: FpgaResult, wsid: u64)
      requires Valid() && v.Valid() && Repr() !! v.Repr()
      modifies Repr(), v.Repr()
      ensures Valid() && v.Valid() && Repr() !! v.Repr()
      ensures fresh(Repr() - old(Repr())) && fresh(v.Repr() - old(v.Repr()))
      ensures if entryOk then
                && res == Ok && wsid == NextWsid(old(buffers.view)) && v.Model() == old(v.Model())
                && buffers.view == [Entry(virt, iova, wsid, size, v)] + old(buffers.view)
              else
                && res == NoMemory && wsid == 0 && buffers.view == old(buffers.view)
                && v.Model() == Free(old(v.Model()), virt, linkOk).1
    {
      hide Path, Shows, Elems, Distinct, Free, Device.Valid, Chain.Valid;
      v.Footprint();
      if !entryOk {
        var _ := v.BufferFree(virt, linkOk);
        return NoMemory, 0;
      }
      wsid := Push(virt, iova, size, v);
      return Ok, wsid;
    }

    method PrepareBuffer(v: Device, len: u64, page: u64, env: Env, entryOk: bool, linkOk: bool)
      returns (res: FpgaResult, vaddr: int, wsid: u64)
      requires Valid() && v.Valid() && Repr() !! v.Repr() && 0 < page
      modifies Repr(), v.Repr()
      ensures Valid() && v.Valid() && Repr() !! v.Repr()
      ensures fresh(Repr() - old(Repr())) && fresh(v.Repr() - old(v.Repr()))
      ensures Prepared(res, vaddr, wsid, buffers.view, v.Model()) ==
              Prepare(old(buffers.view), v, old(v.Model()), len, page, env, entryOk, linkOk)
    {
      hide Path, Shows, Elems, Distinct, Allocate, Free, PreparedSize;
      hide Device.Valid, Device.Model, Chain.Valid, NextWsid;
      v.Footprint();
      var sz := PreparedSize(len);
      var code, virt, iova;
      code, sz, virt, iova := v.BufferAllocate(sz, page, env);
      if code != AllocSpec.OK {
        return Exception, 0, 0;
      }
      res, wsid := Enter(v, virt, iova, sz, entryOk, linkOk);
      return res, if res == Ok then virt else 0, wsid;
    }

    /** The list walk shared by the two lookups below. */
    method Find(wsid: u64) returns (prev: Cell?<Entry<Device>>, p: Cell?<Entry<Device>>, ghost k: nat)
      requires Valid()
      ensures k == FindWsid(buffers.view, wsid) <= |buffers.cells| == |buffers.view|
      ensures p == At(buffers.cells, k) && prev == At(buffers.cells, k - 1)
      ensures p != null ==> p in buffers.members && p.data == buffers.view[k]
    {
      hide Distinct, Elems;
      buffers.Here(0);
      p, prev, k := buffers.first, null, 0;
      while p != null && p.data.wsid != wsid
        invariant k <= |buffers.cells| == |buffers.view|
        invariant p == At(buffers.cells, k) && prev == At(buffers.cells, k - 1)
        invariant FindWsid(buffers.view, wsid, k) == FindWsid(buffers.view, wsid)
        decreases |buffers.cells| - k
      {
        buffers.Here(k);
        prev, p, k := p, p.next, k + 1;
      }
      buffers.Here(k);
    }

    /** Take an entry off the list, which concerns no device. */
    method TakeOut(prev: Cell?<Entry<Device>>, p: Cell<Entry<Device>>, ghost k: nat, ghost v: Device)
      requires Valid() && v.Valid() && Repr() !! v.Repr()
      requires k < |buffers.cells| == |buffers.view| && p == At(buffers.cells, k) && prev == At(buffers.cells, k - 1)
      modifies Repr()
      ensures Valid() && v.Valid() && Repr() <= old(Repr()) && v.Repr() == old(v.Repr())
      ensures buffers.view == Remove(old(buffers.view), k) && v.Model() == old(v.Model())
    {
      hide Path, Shows, Distinct, Elems, Device.Valid, Remove;
      v.Footprint();
      buffers.Unlink(prev, p, k);
    }

    method ReleaseBuffer(v: Device, wsid: u64, linkOk: bool) returns (res: FpgaResult)
      requires Valid() && v.Valid() && Repr() !! v.Repr()
      modifies Repr(), v.Repr()
      ensures Valid() && v.Valid() && Repr() !! v.Repr()
      ensures fresh(Repr() - old(Repr())) && fresh(v.Repr() - old(v.Repr()))
      ensures (res, buffers.view, v.Model()) == Release(old(buffers.view), old(v.Model()), wsid, linkOk)
    {
      hide Path, Shows, Distinct, Elems, Free, Device.Valid, Device.Model, Chain.Valid, Remove, FindWsid;
      v.Footprint();
      var prev, p;
      ghost var k;
      prev, p, k := Find(wsid);
      if p == null {
        return NotFound;
      }
      var _ := v.BufferFree(p.data.vaddr, linkOk);
      TakeOut(prev, p, k, v);
      return Ok;
    }

    method GetIOAddress(wsid: u64) returns (res: FpgaResult, ioaddr: u64)
      requires Valid()
      ensures (res, ioaddr) == IOAddress(buffers.view, wsid)
    {
      var prev, p;
      ghost var k;
      prev, p, k := Find(wsid);
      if p == null {
        return NotFound, 0;
      }
      return Ok, p.data.iova;
    }
  }
}
