/** The VFIO plugin's list of buffers, keyed by workspace id, over any number of devices. */
module PluginBuffers {
  import opened Word
  import opened Lists
  import opened BufferSizes
  import opened AllocSpec
  import opened VfioSpec
  import opened Results

  datatype Entry<D> = Entry(vaddr: int, iova: u64, wsid: u64, size: u64, device: D)

  /** The id of the next buffer: one more than the most recent one still listed. */
  function NextWsid<D>(entries: seq<Entry<D>>): u64 {
    if entries == [] then 0 else Wrap(entries[0].wsid + 1)
  }

  datatype Prepared<D> = Prepared(code: FpgaResult, vaddr: int, wsid: u64, entries: seq<Entry<D>>, v: Vfio)

  /** vfio_fpgaPrepareBuffer on device d, whose state is v. */
  function Prepare<D>(entries: seq<Entry<D>>, d: D, v: Vfio, len: u64, page: u64, env: Env,
                      entryOk: bool, linkOk: bool): Prepared<D>
    requires 0 < page
  {
    var a := Allocate(v, PreparedSize(len), page, env);
    if a.code != OK then Prepared(Exception, 0, 0, entries, a.v)
    else if !entryOk then Prepared(NoMemory, 0, 0, entries, Free(a.v, a.vaddr, linkOk).1)
    else
      var e := Entry(a.vaddr, a.iova, NextWsid(entries), a.size, d);
      Prepared(Ok, a.vaddr, e.wsid, [e] + entries, a.v)
  }

  /** The first index, not before start, of an entry with this id. */
  function FindWsid<D>(entries: seq<Entry<D>>, wsid: u64, start: nat := 0): (k: nat)
    requires start <= |entries|
    ensures start <= k <= |entries|
    ensures forall i :: start <= i < k ==> entries[i].wsid != wsid
    ensures k < |entries| ==> entries[k].wsid == wsid
    decreases |entries| - start
  {
    if start < |entries| && entries[start].wsid != wsid then FindWsid(entries, wsid, start + 1) else start
  }

  /** vfio_fpgaReleaseBuffer through a handle of the device whose state is v. */
  function Release<D>(entries: seq<Entry<D>>, v: Vfio, wsid: u64, linkOk: bool): (FpgaResult, seq<Entry<D>>, Vfio) {
    var k := FindWsid(entries, wsid);
    if k == |entries| then (NotFound, entries, v)
    else (Ok, Remove(entries, k), Free(v, entries[k].vaddr, linkOk).1)
  }

  /** vfio_fpgaGetIOAddress; the address is 0 when the id is unknown. */
  function IOAddress<D>(entries: seq<Entry<D>>, wsid: u64): (FpgaResult, u64) {
    var k := FindWsid(entries, wsid);
    if k == |entries| then (NotFound, 0) else (Ok, entries[k].iova)
  }
}

/** What the plugin's list promises over whole runs. */
module PluginRuns {
  import opened Word
  import opened Lists
  import opened BufferSizes
  import opened AllocSpec
  import opened VfioSpec
  import opened Results
  import opened PluginBuffers

  datatype Plugin<!D> = Plugin(entries: seq<Entry<D>>, devices: map<D, Vfio>)

  /** A call through a handle of device d, or the opening or closing of d. */
  datatype Op<D> =
    | PrepareOp(d: D, len: u64, env: Env, entryOk: bool, linkOk: bool)
    | ReleaseOp(d: D, wsid: u64, linkOk: bool)
    | OpenOp(d: D, alloc: Alloc)
    | CloseOp(d: D)

  /**
   * One step. Without an open device there is no handle to call through, and an open device
   * is not opened again; such steps do nothing. Closing leaves the entries as they are.
   */
  function Step<D>(p: Plugin<D>, op: Op<D>, page: u64): Plugin<D>
    requires 0 < page
  {
    match op
    case PrepareOp(d, len, env, entryOk, linkOk) =>
      if d !in p.devices then p
      else
        var r := Prepare(p.entries, d, p.devices[d], len, page, env, entryOk, linkOk);
        Plugin(r.entries, p.devices[d := r.v])
    case ReleaseOp(d, wsid, linkOk) =>
      if d !in p.devices then p
      else
        var (code, entries, v) := Release(p.entries, p.devices[d], wsid, linkOk);
        Plugin(entries, p.devices[d := v])
    case OpenOp(d, alloc) =>
      if d in p.devices then p else Plugin(p.entries, p.devices[d := Vfio([], alloc)])
    case CloseOp(d) => Plugin(p.entries, p.devices - {d})
  }

  function Run<D>(p: Plugin<D>, ops: seq<Op<D>>, page: u64): Plugin<D>
    requires 0 < page
    decreases |ops|
  {
    if ops == [] then p else Run(Step(p, ops[0], page), ops[1..], page)
  }

  // ---- ids ----

  ghost predicate Decreasing<D>(entries: seq<Entry<D>>) {
    forall i, j :: 0 <= i < j < |entries| ==> entries[j].wsid < entries[i].wsid
  }

  /** A prepare keeps the ids decreasing exactly when there is an id left above the newest. */
  lemma PrepareDecreasingIff<D>(entries: seq<Entry<D>>, d: D, v: Vfio, len: u64, page: u64, env: Env, linkOk: bool)
    requires 0 < page && Decreasing(entries)
    requires Prepare(entries, d, v, len, page, env, true, linkOk).code == Ok
    ensures Decreasing(Prepare(entries, d, v, len, page, env, true, linkOk).entries)
       <==> (entries == [] || entries[0].wsid < TWO_64 - 1)
  {
    hide Allocate, PreparedSize, Decreasing;
    var entries' := Prepare(entries, d, v, len, page, env, true, linkOk).entries;
    assert entries' == [entries'[0]] + entries;
    ConsDecreasing(entries'[0], entries);
  }

  lemma ConsDecreasing<D>(e: Entry<D>, entries: seq<Entry<D>>)
    requires Decreasing(entries) && e.wsid == NextWsid(entries)
    ensures Decreasing([e] + entries) <==> (entries == [] || entries[0].wsid < TWO_64 - 1)
  {
    var all := [e] + entries;
    assert forall i :: 0 <= i < |entries| ==> all[i + 1] == entries[i];
    if entries != [] && entries[0].wsid == TWO_64 - 1 {
      assert all[0].wsid == 0 && all[1].wsid == TWO_64 - 1;
    }
  }

  lemma ReleaseDecreasing<D>(entries: seq<Entry<D>>, v: Vfio, wsid: u64, linkOk: bool)
    requires Decreasing(entries)
    ensures Decreasing(Release(entries, v, wsid, linkOk).1)
  {
  }

  ghost predicate IdsBelow<D>(entries: seq<Entry<D>>, n: nat) {
    forall i :: 0 <= i < |entries| ==> entries[i].wsid < n
  }

  function Prepares<D>(ops: seq<Op<D>>): nat {
    if ops == [] then 0 else (if ops[0].PrepareOp? then 1 else 0) + Prepares(ops[1..])
  }

  /**
   * After every run of opens, closes, prepares and releases the ids fall along the list, so
   * none repeats, unless it has as many prepares as there are ids left; from an empty list
   * that takes 2^64 of them.
   */
  lemma {:induction false} RunDecreasing<D>(p: Plugin<D>, ops: seq<Op<D>>, page: u64, n: nat)
    requires 0 < page && Decreasing(p.entries)
    requires IdsBelow(p.entries, n) && n + Prepares(ops) <= TWO_64
    ensures Decreasing(Run(p, ops, page).entries)
    ensures IdsBelow(Run(p, ops, page).entries, n + Prepares(ops))
    decreases |ops|
  {
    hide Step, Decreasing, IdsBelow;
    if ops != [] {
      StepDecreasing(p, ops[0], page, n);
      RunDecreasing(Step(p, ops[0], page), ops[1..], page, if ops[0].PrepareOp? then n + 1 else n);
    }
  }

  lemma StepDecreasing<D>(p: Plugin<D>, op: Op<D>, page: u64, n: nat)
    requires 0 < page && Decreasing(p.entries) && IdsBelow(p.entries, n)
    requires op.PrepareOp? ==> n < TWO_64
    ensures Decreasing(Step(p, op, page).entries)
    ensures IdsBelow(Step(p, op, page).entries, if op.PrepareOp? then n + 1 else n)
  {
    hide Allocate, PreparedSize, Free;
    match op
    case PrepareOp(d, len, env, entryOk, linkOk) =>
      if d in p.devices && entryOk && Prepare(p.entries, d, p.devices[d], len, page, env, true, linkOk).code == Ok {
        PrepareDecreasingIff(p.entries, d, p.devices[d], len, page, env, linkOk);
      }
    case ReleaseOp(d, wsid, linkOk) =>
      if d in p.devices {
        ReleaseDecreasing(p.entries, p.devices[d], wsid, linkOk);
      }
    case _ =>
  }

  // ---- addresses ----

  lemma DecreasingFind<D>(entries: seq<Entry<D>>, k: nat)
    requires Decreasing(entries) && k < |entries|
    ensures FindWsid(entries, entries[k].wsid) == k
  {
    var f := FindWsid(entries, entries[k].wsid);
    assert f <= k;
  }

  lemma AddressStays<D>(p: Plugin<D>, op: Op<D>, page: u64, n: nat, wsid: u64)
    requires 0 < page && Decreasing(p.entries) && IdsBelow(p.entries, n) && (op.PrepareOp? ==> n < TWO_64)
    requires IOAddress(p.entries, wsid).0 == Ok && !(op.ReleaseOp? && op.wsid == wsid)
    ensures IOAddress(Step(p, op, page).entries, wsid) == IOAddress(p.entries, wsid)
  {
    hide Allocate, PreparedSize, Free;
    StepDecreasing(p, op, page, n);
    var k := FindWsid(p.entries, wsid);
    var entries' := Step(p, op, page).entries;
    var k' := if |entries'| == |p.entries| then k
              else if |entries'| > |p.entries| then k + 1
              else if op.ReleaseOp? && FindWsid(p.entries, op.wsid) < k then k - 1
              else k;
    assert entries'[k'] == p.entries[k];
    DecreasingFind(entries', k');
  }

  /** Until its id is released, a prepared buffer's IO address is what prepare had reserved. */
  lemma {:induction false} AddressUntilReleased<D>(p: Plugin<D>, ops: seq<Op<D>>, page: u64, n: nat, wsid: u64)
    requires 0 < page && Decreasing(p.entries)
    requires IdsBelow(p.entries, n) && n + Prepares(ops) <= TWO_64
    requires IOAddress(p.entries, wsid).0 == Ok
    requires forall i :: 0 <= i < |ops| ==> !(ops[i].ReleaseOp? && ops[i].wsid == wsid)
    ensures IOAddress(Run(p, ops, page).entries, wsid) == IOAddress(p.entries, wsid)
    decreases |ops|
  {
    hide Step, Decreasing, IdsBelow, IOAddress;
    if ops != [] {
      AddressStays(p, ops[0], page, n, wsid);
      StepDecreasing(p, ops[0], page, n);
      AddressUntilReleased(Step(p, ops[0], page), ops[1..], page, if ops[0].PrepareOp? then n + 1 else n, wsid);
    }
  }

  lemma PreparedAddress<D>(entries: seq<Entry<D>>, d: D, v: Vfio, len: u64, page: u64, env: Env, linkOk: bool)
    requires 0 < page
    ensures var r := Prepare(entries, d, v, len, page, env, true, linkOk);
            r.code == Ok ==>
              IOAddress(r.entries, r.wsid) == (Ok, Allocate(v, PreparedSize(len), page, env).iova)
  {
  }

  // ---- agreement with the devices ----

  function AsBuffer<D>(e: Entry<D>): Buffer {
    Buffer(e.vaddr, e.size, e.iova)
  }

  /** The entries of device d, as that device records them. */
  function EntriesOf<D(==)>(entries: seq<Entry<D>>, d: D): seq<Buffer> {
    if entries == [] then []
    else (if entries[0].device == d then [AsBuffer(entries[0])] else []) + EntriesOf(entries[1..], d)
  }

  ghost predicate DistinctPtrs(bs: seq<Buffer>) {
    forall i, j :: 0 <= i < j < |bs| ==> bs[i].ptr != bs[j].ptr
  }

  /** Every device's own list is the plugin's list restricted to it, in the same order. */
  ghost predicate Agrees<D>(p: Plugin<D>) {
    forall d :: d in p.devices ==> EntriesOf(p.entries, d) == p.devices[d].buffers && DistinctPtrs(p.devices[d].buffers)
  }

  /** No entry is left over from an earlier life of device d. */
  ghost predicate NoneNames<D>(entries: seq<Entry<D>>, d: D) {
    forall i :: 0 <= i < |entries| ==> entries[i].device != d
  }

  /**
   * mmap gives an address that is not mapped; a release goes through the preparing handle; a
   * device is not opened where entries of an earlier one are still listed.
   */
  ghost predicate Proper<D>(p: Plugin<D>, op: Op<D>) {
    match op
    case PrepareOp(d, _, env, _, _) =>
      d in p.devices ==> FindPtr(p.devices[d].buffers, env.vaddr) == |p.devices[d].buffers|
    case ReleaseOp(d, wsid, _) =>
      var k := FindWsid(p.entries, wsid);
      d in p.devices && k < |p.entries| ==> p.entries[k].device == d
    case OpenOp(d, _) => d in p.devices || NoneNames(p.entries, d)
    case CloseOp(_) => true
  }

  lemma {:induction false} NoneNamesIff<D>(entries: seq<Entry<D>>, d: D)
    ensures NoneNames(entries, d) <==> EntriesOf(entries, d) == []
  {
    if entries != [] {
      NoneNamesIff(entries[1..], d);
      assert forall i :: 0 < i < |entries| ==> entries[i] == entries[1..][i - 1];
    }
  }

  /** Opening a device keeps the lists in agreement exactly when no entry is left over. */
  lemma OpenAgreesIff<D>(p: Plugin<D>, d: D, alloc: Alloc, page: u64)
    requires 0 < page && Agrees(p) && d !in p.devices
    ensures Agrees(Step(p, OpenOp(d, alloc), page)) <==> NoneNames(p.entries, d)
  {
    hide EntriesOf, NoneNames;
    NoneNamesIff(p.entries, d);
    var p' := Step(p, OpenOp(d, alloc), page);
    assert p'.devices[d].buffers == [];
  }

  lemma {:induction false} EntriesOfRemove<D>(entries: seq<Entry<D>>, k: nat, d: D) returns (n: nat)
    requires k < |entries|
    ensures entries[k].device != d ==> EntriesOf(Remove(entries, k), d) == EntriesOf(entries, d)
    ensures entries[k].device == d ==>
              && n < |EntriesOf(entries, d)|
              && EntriesOf(entries, d)[n] == AsBuffer(entries[k])
              && EntriesOf(Remove(entries, k), d) == Remove(EntriesOf(entries, d), n)
  {
    var e, tail := entries[0], entries[1..];
    assert entries == [e] + tail;
    EntriesOfCons(e, tail, d);
    if k == 0 {
      n := 0;
      assert Remove(entries, 0) == tail;
    } else {
      var m := EntriesOfRemove(tail, k - 1, d);
      var here := if e.device == d then [AsBuffer(e)] else [];
      n := |here| + m;
      assert Remove(entries, k) == [e] + Remove(tail, k - 1);
      EntriesOfCons(e, Remove(tail, k - 1), d);
      if entries[k].device == d {
        RemoveBehind(here, EntriesOf(tail, d), m);
      }
    }
  }

  lemma RemoveBehind<T>(s: seq<T>, t: seq<T>, m: nat)
    requires m < |t|
    ensures Remove(s + t, |s| + m) == s + Remove(t, m)
    ensures (s + t)[|s| + m] == t[m]
  {
  }

  lemma DistinctFind(bs: seq<Buffer>, n: nat)
    requires DistinctPtrs(bs) && n < |bs|
    ensures FindPtr(bs, bs[n].ptr) == n
  {
    var f := FindPtr(bs, bs[n].ptr);
    assert f <= n;
  }

  lemma EntriesOfCons<D>(e: Entry<D>, entries: seq<Entry<D>>, d: D)
    ensures EntriesOf([e] + entries, d) == (if e.device == d then [AsBuffer(e)] else []) + EntriesOf(entries, d)
  {
    assert ([e] + entries)[1..] == entries;
  }

  lemma PrepareAgrees<D>(p: Plugin<D>, op: Op<D>, page: u64)
    requires 0 < page && op.PrepareOp? && op.d in p.devices && Agrees(p) && Proper(p, op)
    ensures Agrees(Step(p, op, page))
  {
    var p' := Step(p, op, page);
    var v := p.devices[op.d];
    var a := Allocate(v, PreparedSize(op.len), page, op.env);
    if a.code == OK && !op.entryOk {
      assert FindPtr(a.v.buffers, a.vaddr) == 0;
      assert Remove(a.v.buffers, 0) == v.buffers;
    }
    forall d | d in p'.devices
      ensures EntriesOf(p'.entries, d) == p'.devices[d].buffers && DistinctPtrs(p'.devices[d].buffers)
    {
      if a.code == OK && op.entryOk {
        EntriesOfCons(p'.entries[0], p.entries, d);
        assert p'.entries == [p'.entries[0]] + p.entries;
      }
    }
  }

  lemma ReleaseAgrees<D>(p: Plugin<D>, op: Op<D>, page: u64)
    requires 0 < page && op.ReleaseOp? && op.d in p.devices && Agrees(p) && Proper(p, op)
    ensures Agrees(Step(p, op, page))
  {
    hide Remove, EntriesOf;
    var k := FindWsid(p.entries, op.wsid);
    if k < |p.entries| {
      var p' := Step(p, op, page);
      forall d | d in p'.devices
        ensures EntriesOf(p'.entries, d) == p'.devices[d].buffers && DistinctPtrs(p'.devices[d].buffers)
      {
        var n := EntriesOfRemove(p.entries, k, d);
        if d == op.d {
          DistinctFind(p.devices[d].buffers, n);
          RemoveDistinctPtrs(p.devices[d].buffers, n);
        }
      }
    }
  }

  /**
   * Releasing a listed id keeps the lists in agreement exactly when it goes through the
   * device that prepared the buffer; through another one, that device keeps its buffer.
   */
  lemma ReleaseAgreesIff<D>(p: Plugin<D>, d: D, wsid: u64, linkOk: bool, page: u64)
    requires 0 < page && d in p.devices && Agrees(p)
    requires var k := FindWsid(p.entries, wsid); k < |p.entries| && p.entries[k].device in p.devices
    ensures Agrees(Step(p, ReleaseOp(d, wsid, linkOk), page)) <==> p.entries[FindWsid(p.entries, wsid)].device == d
  {
    var k := FindWsid(p.entries, wsid);
    var e := p.entries[k].device;
    if e == d {
      ReleaseAgrees(p, ReleaseOp(d, wsid, linkOk), page);
    } else {
      hide EntriesOf, Remove;
      var p' := Step(p, ReleaseOp(d, wsid, linkOk), page);
      var n := EntriesOfRemove(p.entries, k, e);
      assert p'.devices[e] == p.devices[e];
      ShorterByOne(EntriesOf(p.entries, e), n);
    }
  }

  lemma ShorterByOne<T>(s: seq<T>, n: nat)
    requires n < |s|
    ensures Remove(s, n) != s
  {
    assert |Remove(s, n)| == |s| - 1;
  }

  lemma RemoveDistinctPtrs(bs: seq<Buffer>, n: nat)
    requires DistinctPtrs(bs) && n < |bs|
    ensures DistinctPtrs(Remove(bs, n))
  {
  }

  lemma StepAgrees<D>(p: Plugin<D>, op: Op<D>, page: u64)
    requires 0 < page && Agrees(p) && Proper(p, op)
    ensures Agrees(Step(p, op, page))
  {
    hide EntriesOf, DistinctPtrs, NoneNames;
    match op
    case PrepareOp(d, _, _, _, _) =>
      if d in p.devices {
        PrepareAgrees(p, op, page);
      }
    case ReleaseOp(d, _, _) =>
      if d in p.devices {
        ReleaseAgrees(p, op, page);
      }
    case OpenOp(d, alloc) =>
      if d !in p.devices {
        OpenAgreesIff(p, d, alloc, page);
      }
    case CloseOp(_) =>
  }

  ghost predicate ProperThroughout<D>(p: Plugin<D>, ops: seq<Op<D>>, page: u64)
    requires 0 < page
    decreases |ops|
  {
    ops == [] || (Proper(p, ops[0]) && ProperThroughout(Step(p, ops[0], page), ops[1..], page))
  }

  /**
   * Through every proper run the plugin's list and the lists of the open devices agree,
   * while devices come and go.
   */
  lemma {:induction false} RunAgrees<D>(p: Plugin<D>, ops: seq<Op<D>>, page: u64)
    requires 0 < page && Agrees(p) && ProperThroughout(p, ops, page)
    ensures Agrees(Run(p, ops, page))
    decreases |ops|
  {
    hide Step, Agrees, Proper;
    if ops != [] {
      StepAgrees(p, ops[0], page);
      RunAgrees(Step(p, ops[0], page), ops[1..], page);
    }
  }
}
