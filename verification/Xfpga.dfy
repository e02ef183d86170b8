/** The device list of the native plugin, built by splicing nodes and then walked once. */
module Xfpga {
  import opened Results
  import opened Lists
  import opened Chains
  import opened XfpgaSpec

  /** struct dev_list without its next pointer. */
  datatype DevData = DevData(attr: Attr, parent: Cell?<DevData>, fme: Cell?<DevData>)

  type DevNode = Cell<DevData>

  function NoDevice(): DevData {
    DevData(Attr("", "", FpgaDevice, 0, 0, 0, 0, 0, 0, ZERO), null, null)
  }

  function RegionAttr(d: Device): Attr {
    Attr(d.path, "", FpgaDevice, d.segment, d.bus, d.device, d.function_, d.vendorId, d.deviceId, ZERO)
  }

  lemma NoSync(d: Device)
    ensures RegionAttr(d).sync == ZERO
  {
  }

  /** The fields that enumeration fills in, for the node that stands for spots[k]. */
  predicate Fits(data: DevData, nodes: seq<DevNode>, spots: seq<Spot>, k: nat)
    requires k < |nodes| == |spots|
  {
    var attr := data.attr.(sync := ZERO);
    match spots[k]
    case Head => attr.devpath == ""
    case Region(d) => attr == RegionAttr(d) && (d.fme.None? ==> data.fme == null)
    case Fme(d) =>
      && d.fme.Some? && attr == AttrOf(d, d.fme.value, FpgaDevice, ZERO)
      && data.fme == nodes[k] && 0 < k && data.parent == nodes[k - 1] && spots[k - 1] == Region(d)
    case Afu(d) =>
      && d.port.Some? && attr == AttrOf(d, d.port.value, FpgaAccelerator, ZERO)
      && 0 < k && data.fme == (if d.fme.Some? then nodes[k - 1] else null)
      && spots[k - 1] == if d.fme.Some? then Fme(d) else Region(d)
  }

  /** The nodes that are there already are not affected by a new one behind them. */
  lemma FitsExtend(nodes: seq<DevNode>, spots: seq<Spot>, node: DevNode, spot: Spot)
    requires |nodes| == |spots|
    ensures forall data, k :: 0 <= k < |nodes| && Fits(data, nodes, spots, k) ==>
              Fits(data, nodes + [node], spots + [spot], k)
  {
  }

  lemma FitsRegion(nodes: seq<DevNode>, spots: seq<Spot>, node: DevNode, d: Device, parent: DevNode)
    requires |nodes| == |spots|
    ensures Fits(DevData(RegionAttr(d), parent, null), nodes + [node], spots + [Region(d)], |nodes|)
  {
  }

  lemma FitsFme(nodes: seq<DevNode>, spots: seq<Spot>, node: DevNode, d: Device, r: Resource, parent: DevData)
    requires 0 < |nodes| == |spots| && spots[|spots| - 1] == Region(d) && d.fme == Some(r)
    requires Fits(parent, nodes, spots, |nodes| - 1) && parent.attr.sync == ZERO
    ensures Fits(parent.(fme := node), nodes, spots, |nodes| - 1)
    ensures var attr := parent.attr.(path := r.path, devpath := DevPath(r), objtype := FpgaDevice);
            Fits(DevData(attr, nodes[|nodes| - 1], node), nodes + [node], spots + [Fme(d)], |nodes|)
  {
  }

  lemma FitsAfu(nodes: seq<DevNode>, spots: seq<Spot>, node: DevNode, d: Device, r: Resource, parent: DevData)
    requires 0 < |nodes| == |spots| && d.port == Some(r)
    requires spots[|spots| - 1] == if d.fme.Some? then Fme(d) else Region(d)
    requires Fits(parent, nodes, spots, |nodes| - 1) && parent.attr.sync == ZERO
    ensures var attr := parent.attr.(path := r.path, devpath := DevPath(r), objtype := FpgaAccelerator);
            Fits(DevData(attr, nodes[|nodes| - 1], parent.fme), nodes + [node], spots + [Afu(d)], |nodes|)
  {
  }

  lemma FitsSync(data: DevData, sync: Sync, nodes: seq<DevNode>, spots: seq<Spot>, k: nat)
    requires k < |nodes| == |spots| && Fits(data, nodes, spots, k)
    ensures Fits(data.(attr := data.attr.(sync := sync)), nodes, spots, k)
  {
  }

  lemma {:induction false} GroupsPrefix(devs: seq<Device>, ports: bool, i: nat)
    requires i <= |devs|
    ensures |Groups(devs[..i], ports)| <= |Groups(devs, ports)|
    decreases |devs|
  {
    if i == |devs| {
      assert devs[..i] == devs;
    } else {
      GroupsPrefix(devs[..|devs| - 1], ports, i);
      assert devs[..|devs| - 1][..i] == devs[..i];
    }
  }

  /** Nothing is read from the hardware before its turn, and then an FME knows its socket. */
  ghost predicate Ready(nodes: seq<DevNode>, spots: seq<Spot>, i: nat, sys: System)
    requires |nodes| == |spots|
    reads nodes`data
  {
    forall k :: 0 <= k < |spots| ==>
      var sync := nodes[k].data.attr.sync;
      && (i <= k && (spots[k].Fme? || spots[k].Afu?) ==> sync == ZERO)
      && (k < i && spots[k].Fme? ==> sync.socketId == SocketOf(spots[k].dev, sys))
  }

  lemma HeadFirst(nodes: seq<DevNode>)
    requires 0 < |nodes| && Path(nodes[0], nodes)
    ensures nodes[0].next == At(nodes, 1)
  {
  }

  lemma FirstStays(nodes: seq<DevNode>, k: nat, node: DevNode)
    requires 0 < k <= |nodes|
    ensures |Insert(nodes, k, node)| == |nodes| + 1 && Insert(nodes, k, node)[0] == nodes[0]
  {
  }

  class DevList {
    const callocOk: nat -> bool
    const head: DevNode
    var calls: nat
    ghost var nodes: seq<DevNode>
    ghost var members: set<DevNode>
    ghost var spots: seq<Spot>

    constructor (callocOk: nat -> bool)
      ensures this.callocOk == callocOk && calls == 0 && Valid() && spots == [Head] && fresh(members)
      ensures Untouched()
    {
      this.callocOk := callocOk;
      var h := new Cell(NoDevice());
      head, calls, nodes, members, spots := h, 0, [h], {h}, [Head];
    }

    ghost predicate Chained()
      reads this, members`next
    {
      && members == Elems(nodes)
      && 0 < |nodes| && nodes[0] == head && Path(head, nodes) && Distinct(nodes)
    }

    ghost predicate Valid()
      reads this, members
    {
      && |nodes| == |spots| && Chained()
      && forall k :: 0 <= k < |nodes| ==> Fits(nodes[k].data, nodes, spots, k)
    }

    /** add_dev: a node spliced in behind its parent, wherever that stands. */
    method AddDev(path: string, devpath: string, parent: DevNode, ghost k: nat) returns (pdev: Cell?<DevData>)
      requires Chained() && k < |nodes| && parent == nodes[k]
      modifies this`calls, this`nodes, this`members, parent`next
      ensures Chained() && calls == old(calls) + 1
      ensures pdev != null <==> callocOk(old(calls))
      ensures pdev == null ==> nodes == old(nodes) && members == old(members)
      ensures pdev != null ==>
                && fresh(pdev) && members == old(members) + {pdev}
                && (var node: DevNode := pdev; nodes == Insert(old(nodes), k + 1, node))
                && pdev.data == NoDevice().(attr := NoDevice().attr.(path := path, devpath := devpath),
                                            parent := parent)
    {
      hide NoDevice, Elems, Insert, Path, Distinct;
      calls := calls + 1;
      if !callocOk(calls - 1) {
        return null;
      }
      var blank := NoDevice();
      var node := new Cell(blank.(attr := blank.attr.(path := path, devpath := devpath), parent := parent));
      SpliceAfter(parent, node, head, nodes, k);
      FirstStays(nodes, k + 1, node);
      ElemsInsert(nodes, k + 1, node);
      nodes, members := Insert(nodes, k + 1, node), members + {node};
      return node;
    }

    /** Walk from a node to the last one of the list. */
    method Last(from: DevNode, ghost j: nat) returns (pdev: DevNode)
      requires Chained() && j < |nodes| && from == nodes[j]
      ensures pdev == nodes[|nodes| - 1]
    {
      ghost var k := j;
      pdev := from;
      while pdev.next != null
        invariant j <= k < |nodes| && pdev == nodes[k]
        decreases |nodes| - k
      {
        pdev, k := pdev.next, k + 1;
      }
    }

    /** Until the walk begins, nothing is read from the hardware. */
    ghost predicate Untouched()
      reads this, nodes`data
    {
      forall k :: 0 <= k < |nodes| ==> nodes[k].data.attr.sync == ZERO
    }

    /** What every step that adds nodes for the spots ss promises. */
    twostate predicate Grown(ss: seq<Spot>)
      reads this, members
    {
      && Valid() && Untouched()
      && old(nodes) <= nodes && fresh(members - old(members))
      && spots == old(spots) + ss && calls == old(calls) + |ss|
    }

    /** The container node of a device. */
    method AddRegion(d: Device, last: DevNode) returns (pdev: Cell?<DevData>)
      requires Valid() && Untouched() && last == nodes[|nodes| - 1]
      modifies this, members
      ensures pdev == null <==> !callocOk(old(calls))
      ensures pdev != null ==>
                && |nodes| == |old(nodes)| + 1 && Grown([Region(d)])
                && pdev == nodes[|nodes| - 1] && pdev.data.fme == null
    {
      hide Path, Distinct, Elems, Fits, RegionAttr, Insert;
      pdev := AddDev(d.path, "", last, |nodes| - 1);
      if pdev != null {
        InsertAtEnd<DevNode>(old(nodes), pdev);
        FitsRegion(old(nodes), spots, pdev, d, last);
        FitsExtend(old(nodes), spots, pdev, Region(d));
        NoSync(d);
        pdev.data := pdev.data.(attr := RegionAttr(d));
        spots := spots + [Region(d)];
      }
    }

    method EnumFme(r: Resource, parent: DevNode, ghost d: Device) returns (res: FpgaResult)
      requires Valid() && Untouched() && parent == nodes[|nodes| - 1]
      requires spots[|nodes| - 1] == Region(d) && d.fme == Some(r)
      modifies this, members
      ensures res == if callocOk(old(calls)) then Ok else NoMemory
      ensures res == Ok ==> Grown([Fme(d)])
    {
      hide Path, Fits, AttrOf, DevPath, Insert;
      var pdev := AddDev(r.path, DevPath(r), parent, |nodes| - 1);
      if pdev == null {
        return NoMemory;
      }
      InsertAtEnd<DevNode>(old(nodes), pdev);
      FitsFme(old(nodes), spots, pdev, d, r, parent.data);
      FitsExtend(old(nodes), spots, pdev, Fme(d));
      var a := parent.data.attr;
      pdev.data := pdev.data.(attr := pdev.data.attr.(
        objtype := FpgaDevice, segment := a.segment, bus := a.bus, device := a.device,
        function_ := a.function_, vendorId := a.vendorId, deviceId := a.deviceId), fme := pdev);
      parent.data := parent.data.(fme := pdev);
      spots := spots + [Fme(d)];
      return Ok;
    }

    method EnumAfu(r: Resource, parent: DevNode, ghost d: Device) returns (res: FpgaResult)
      requires Valid() && Untouched() && parent == nodes[|nodes| - 1] && d.port == Some(r)
      requires spots[|nodes| - 1] == if d.fme.Some? then Fme(d) else Region(d)
      modifies this, members
      ensures res == if callocOk(old(calls)) then Ok else NoMemory
      ensures res == Ok ==> Grown([Afu(d)])
    {
      hide Path, Distinct, Fits, AttrOf, DevPath, Insert;
      var pdev := AddDev(r.path, DevPath(r), parent, |nodes| - 1);
      if pdev == null {
        return NoMemory;
      }
      InsertAtEnd<DevNode>(old(nodes), pdev);
      FitsAfu(old(nodes), spots, pdev, d, r, parent.data);
      FitsExtend(old(nodes), spots, pdev, Afu(d));
      var a := parent.data.attr;
      pdev.data := pdev.data.(attr := pdev.data.attr.(
        objtype := FpgaAccelerator, segment := a.segment, bus := a.bus, device := a.device,
        function_ := a.function_, vendorId := a.vendorId, deviceId := a.deviceId), fme := parent.data.fme);
      spots := spots + [Afu(d)];
      return Ok;
    }

    /** The container node and the FME of a device. */
    method AddDevice(d: Device) returns (res: FpgaResult, region: Cell?<DevData>)
      requires Valid() && Untouched()
      modifies this, members
      ensures res == if Granted(callocOk, old(calls), if d.fme.Some? then 2 else 1) then Ok else NoMemory
      ensures res == Ok ==>
                && Grown([Region(d)] + if d.fme.Some? then [Fme(d)] else [])
                && |old(nodes)| < |nodes| && region == nodes[|old(nodes)|]
    {
      hide Path, Distinct, Elems, Fits, DevList.Untouched;
      var last := Last(head, 0);
      region := AddRegion(d, last);
      if region == null {
        return NoMemory, null;
      }
      res := Ok;
      if d.fme.Some? {
        res := EnumFme(d.fme.value, region, d);
      }
    }

    /** enum_regions */
    method EnumRegions(d: Device, ports: bool) returns (res: FpgaResult)
      requires Valid() && Untouched()
      modifies this, members
      ensures res == if Granted(callocOk, old(calls), |Group(d, ports)|) then Ok else NoMemory
      ensures res == Ok ==> Grown(Group(d, ports))
    {
      hide Path, Distinct, Elems, Fits, DevList.Untouched;
      var region;
      res, region := AddDevice(d);
      if res != Ok {
        return;
      }
      var last := Last(region, |old(nodes)|);
      if d.port.Some? && ports {
        res := EnumAfu(d.port.value, last, d);
      }
    }

    /** out_free_trash: free every node behind the head; live are those not freed yet. */
    method FreeNodes() returns (ghost live: set<DevNode>)
      requires Chained()
      ensures live == {}
    {
      hide Distinct;
      HeadFirst(nodes);
      live := Elems(nodes[1..]);
      var p := head.next;
      ghost var k := 1;
      while p != null
        invariant 1 <= k <= |nodes| && p == At(nodes, k)
        invariant live == Elems(nodes[k..])
        decreases |nodes| - k
      {
        var trash := p;
        p := p.next;
        ElemsFrom<DevNode>(nodes, k);
        live := live - {trash};
        k := k + 1;
      }
    }

    /** sysfs_foreach_device over enum_regions */
    method EnumDevices(devs: seq<Device>, ports: bool) returns (res: FpgaResult)
      requires Valid() && Untouched() && spots == [Head] && calls == 0
      modifies this, members
      ensures res == if Granted(callocOk, 0, |Groups(devs, ports)|) then Ok else NoMemory
      ensures res == Ok ==> Grown(Groups(devs, ports))
    {
      hide Path, Distinct, Elems, Fits, DevList.Untouched, DevList.Valid, Group;
      res := Ok;
      var i := 0;
      while i < |devs|
        invariant 0 <= i <= |devs| && res == Ok
        invariant Grown(Groups(devs[..i], ports)) && Granted(callocOk, 0, calls)
      {
        ghost var before := Groups(devs[..i], ports);
        assert devs[..i + 1][..i] == devs[..i];
        GroupsPrefix(devs, ports, i + 1);
        res := EnumRegions(devs[i], ports);
        if res != Ok {
          return;
        }
        i := i + 1;
      }
      assert devs[..i] == devs;
    }

    /** Write what was read for one node. */
    method SetSync(p: DevNode, sync: Sync, ghost k: nat)
      requires Valid() && k < |nodes| && p == nodes[k]
      modifies p`data
      ensures Valid()
      ensures p.data == old(p.data).(attr := old(p.data.attr).(sync := sync))
      ensures forall j :: 0 <= j < |nodes| && j != k ==> nodes[j].data == old(nodes[j].data)
    {
      hide Path, Elems, Fits;
      FitsSync(p.data, sync, nodes, spots, k);
      p.data := p.data.(attr := p.data.attr.(sync := sync));
    }

    method SyncFme(p: DevNode, sys: System, ghost k: nat) returns (res: FpgaResult)
      requires Valid() && k < |nodes| && p == nodes[k] && spots[k].Fme? && Ready(nodes, spots, k, sys)
      modifies members`data
      ensures Valid() && Ready(nodes, spots, k + 1, sys)
      ensures FmeAttrs(spots[k].dev, sys) == if res == Ok then [p.data.attr] else []
    {
      hide Path, Distinct, Elems, VersionOf;
      var attr := p.data.attr;
      var info := sys.fme(attr.path, attr.devpath);
      if info.None? {
        return NotFound;
      }
      var parent := p.data.parent;
      assert parent == nodes[k - 1];
      SetSync(p, FmeSync(info.value), k);
      SetSync(parent, parent.data.attr.sync.(socketId := p.data.attr.sync.socketId), k - 1);
      return Ok;
    }

    method SyncAfu(p: DevNode, sys: System, ghost k: nat) returns (res: FpgaResult)
      requires Valid() && k < |nodes| && p == nodes[k] && spots[k].Afu? && Ready(nodes, spots, k, sys)
      modifies members`data
      ensures Valid() && Ready(nodes, spots, k + 1, sys)
      ensures AfuAttrs(spots[k].dev, sys) == if res == Ok then [p.data.attr] else []
    {
      hide Path, Distinct, Elems, FmeSync;
      var attr := p.data.attr;
      var info := sys.afu(attr.path, attr.devpath);
      if info.None? {
        return NotFound;
      }
      var socket := attr.sync.socketId;
      if p.data.fme != null {
        socket := p.data.fme.data.attr.sync.socketId;
      }
      SetSync(p, AfuSync(info.value, socket), k);
      return Ok;
    }

    /** Containers are passed over, and so is what cannot be synchronized. */
    method Visit(p: DevNode, sys: System, ghost k: nat) returns (found: bool)
      requires Valid() && k < |nodes| && p == nodes[k] && Ready(nodes, spots, k, sys)
      modifies members`data
      ensures Valid() && Ready(nodes, spots, k + 1, sys)
      ensures SpotAttrs(spots[k], sys) == if found then [p.data.attr] else []
    {
      hide Path, Distinct, Elems, FmeAttrs, AfuAttrs, FmeSync, AfuSync;
      if p.data.attr.devpath == "" {
        return false;
      }
      var res;
      if p.data.attr.objtype == FpgaDevice {
        res := SyncFme(p, sys, k);
      } else {
        res := SyncAfu(p, sys, k);
      }
      return res == Ok;
    }
  }

  // ---- filters ----

  /** The fields that mean one thing for devices and another for accelerators. */
  method MatchesUnion(a: Attr, f: Filter) returns (res: bool)
    requires Says(f.objtype, a.objtype)
    ensures res == UnionMatches(a, f)
  {
    if f.objtype == Some(FpgaDevice) {
      if f.bit32 {
        if a.objtype != FpgaDevice || a.sync.slots != f.fpga.slots {
          return false;
        }
      }
      if f.bit33 {
        if a.objtype != FpgaDevice || a.sync.bitstream != f.fpga.bbsId {
          return false;
        }
      }
      if f.bit34 {
        if a.objtype != FpgaDevice || a.sync.version != f.fpga.version {
          return false;
        }
      }
    } else if f.objtype == Some(FpgaAccelerator) {
      if f.bit32 {
        if a.objtype != FpgaAccelerator || a.sync.state != f.accelerator.state {
          return false;
        }
      }
      if f.bit33 {
        if a.objtype != FpgaAccelerator || a.sync.mmios != f.accelerator.mmios {
          return false;
        }
      }
      if f.bit34 {
        if a.objtype != FpgaAccelerator || a.sync.irqs != f.accelerator.irqs {
          return false;
        }
      }
    }
    return true;
  }

  lemma FieldsSayType(a: Attr, f: Filter, sys: System)
    ensures FieldsMatch(a, f, sys) ==> Says(f.objtype, a.objtype)
  {
  }

  method MatchesParent(a: Attr, f: Filter, sys: System) returns (res: bool)
    ensures res == ParentMatches(a, f.parent, sys)
  {
    if f.parent.Some? {
      if a.objtype != FpgaAccelerator || f.parent.value.None? {
        return false;
      }
      var spath, buffer := sys.fmePath(a.path), sys.realPath(f.parent.value.value);
      if spath.None? || buffer.None? || spath.value != buffer.value {
        return false;
      }
    }
    return true;
  }

  method MatchesPlace(a: Attr, f: Filter) returns (res: bool)
    ensures res == PlaceMatches(a, f)
  {
    if f.segment.Some? && f.segment.value != a.segment {
      return false;
    }
    if f.bus.Some? && f.bus.value != a.bus {
      return false;
    }
    if f.device.Some? && f.device.value != a.device {
      return false;
    }
    if f.function_.Some? && f.function_.value != a.function_ {
      return false;
    }
    return true;
  }

  method MatchesFields(a: Attr, f: Filter, sys: System) returns (res: bool)
    ensures res == FieldsMatch(a, f, sys)
  {
    hide PlaceMatches;
    if f.objtype.Some? && f.objtype.value != a.objtype {
      return false;
    }
    var place := MatchesPlace(a, f);
    if !place {
      return false;
    }
    if f.socketId.Some? && f.socketId.value != a.sync.socketId {
      return false;
    }
    if f.guid.Some? && f.guid.value != a.sync.guid {
      return false;
    }
    if f.objectId.Some? {
      var objectId := sys.objectId(a.path);
      if objectId.None? || f.objectId.value != objectId.value {
        return false;
      }
    }
    if f.vendorId.Some? && f.vendorId.value != a.vendorId {
      return false;
    }
    if f.deviceId.Some? && f.deviceId.value != a.deviceId {
      return false;
    }
    if f.numErrors.Some? && sys.numErrors(a.path + "/errors") != f.numErrors.value {
      return false;
    }
    return true;
  }

  /** matches_filter */
  method MatchesFilter(a: Attr, f: Filter, sys: System) returns (res: bool)
    ensures res == Matches(a, f, sys)
  {
    hide ParentMatches, UnionMatches, FieldsMatch;
    res := MatchesParent(a, f, sys);
    if res {
      res := MatchesFields(a, f, sys);
    }
    if res {
      FieldsSayType(a, f, sys);
      res := MatchesUnion(a, f);
    }
  }

  method MatchesFilters(a: Attr, fs: seq<Filter>, sys: System) returns (res: bool)
    ensures res == MatchesAny(a, fs, sys)
  {
    hide Matches;
    if |fs| == 0 {
      return true;
    }
    var i := 0;
    while i < |fs|
      invariant 0 <= i <= |fs|
      invariant forall j :: 0 <= j < i ==> !Matches(a, fs[j], sys)
    {
      var match_ := MatchesFilter(a, fs[i], sys);
      if match_ {
        return true;
      }
      i := i + 1;
    }
    return false;
  }

  /** include_afu */
  method IncludeAfu(fs: seq<Filter>) returns (res: bool)
    ensures res == IncludesAfu(fs)
  {
    if |fs| == 0 {
      return true;
    }
    var i := 0;
    while i < |fs|
      invariant 0 <= i <= |fs|
      invariant forall j :: 0 <= j < i ==> fs[j].objtype == Some(FpgaDevice)
    {
      if fs[i].objtype.Some? {
        if fs[i].objtype.value == FpgaAccelerator {
          return true;
        }
      } else {
        return true;
      }
      i := i + 1;
    }
    return false;
  }

  // ---- tokens ----

  datatype XToken = XToken(path: string, devpath: string)

  /** Every match that there is room for gets its token. */
  predicate AllMade(matched: seq<Attr>, max: nat, sys: System) {
    forall j :: 0 <= j < Min(|matched|, max) ==> sys.makesToken(matched[j].path, j)
  }

  /** The first matches have their tokens, and nothing else in the array has changed. */
  ghost predicate Stored(now: seq<Option<XToken>>, before: seq<Option<XToken>>, matched: seq<Attr>, max: nat) {
    && |now| == |before| && max <= |now|
    && (forall j :: 0 <= j < Min(|matched|, max) ==> now[j] == Some(XToken(matched[j].path, matched[j].devpath)))
    && (forall j :: Min(|matched|, max) <= j < |now| ==> now[j] == before[j])
  }

  ghost function Contents(tokens: array?<Option<XToken>>): seq<Option<XToken>>
    reads tokens
  {
    if tokens == null then [] else tokens[..]
  }

  /** Count one more match and store its token if there is room; without one, give up. */
  method StoreToken(a: Attr, ghost matched: seq<Attr>, tokens: array?<Option<XToken>>, max: nat, n: nat, sys: System,
                    ghost before: seq<Option<XToken>>)
    returns (ok: bool)
    requires n == |matched| && (tokens == null ==> max == 0) && AllMade(matched, max, sys)
    requires Stored(Contents(tokens), before, matched, max)
    modifies tokens
    ensures ok == AllMade(matched + [a], max, sys)
    ensures ok ==> Stored(Contents(tokens), before, matched + [a], max)
    ensures !ok ==> |Contents(tokens)| == |before| && Contents(tokens)[max..] == before[max..]
  {
    if n < max {
      tokens[n] := if sys.makesToken(a.path, n) then Some(XToken(a.path, a.devpath)) else None;
      if tokens[n].None? {
        assert (matched + [a])[n] == a;
        return false;
      }
    }
    return true;
  }

  /** The matches among the nodes from i on. */
  function Left(spots: seq<Spot>, i: nat, fs: seq<Filter>, sys: System): seq<Attr>
    requires i <= |spots|
  {
    Matching(ListAttrs(spots[i..], sys), fs, sys)
  }

  lemma LeftStep(spots: seq<Spot>, i: nat, fs: seq<Filter>, sys: System)
    requires i < |spots|
    ensures Left(spots, i, fs, sys) == Matching(SpotAttrs(spots[i], sys), fs, sys) + Left(spots, i + 1, fs, sys)
  {
    hide Matching, SpotAttrs;
    assert spots[i..][1..] == spots[i + 1..];
    MatchingConcat(SpotAttrs(spots[i], sys), ListAttrs(spots[i + 1..], sys), fs, sys);
  }

  lemma MatchingOne(a: Attr, fs: seq<Filter>, sys: System)
    ensures Matching([a], fs, sys) == if MatchesAny(a, fs, sys) then [a] else []
  {
    assert [a][1..] == [];
  }

  lemma AllMadePrefix(x: seq<Attr>, y: seq<Attr>, max: nat, sys: System)
    requires AllMade(x + y, max, sys)
    ensures AllMade(x, max, sys)
  {
    assert forall j :: 0 <= j < |x| ==> (x + y)[j] == x[j];
  }

  lemma NothingStored(before: seq<Option<XToken>>, max: nat, sys: System)
    requires max <= |before|
    ensures AllMade([], max, sys) && Stored(before, before, [], max)
  {
  }

  lemma NothingLeft(spots: seq<Spot>, fs: seq<Filter>, sys: System)
    ensures Left(spots, |spots|, fs, sys) == []
  {
  }

  /** One node: synchronized, and put to the filters. */
  method Examine(list: DevList, p: DevNode, fs: seq<Filter>, sys: System, ghost i: nat) returns (found: bool)
    requires list.Valid() && i < |list.nodes| && p == list.nodes[i] && Ready(list.nodes, list.spots, i, sys)
    modifies list.members`data
    ensures list.Valid() && Ready(list.nodes, list.spots, i + 1, sys)
    ensures Left(list.spots, i, fs, sys) ==
            (if found then [p.data.attr] else []) + Left(list.spots, i + 1, fs, sys)
  {
    hide Path, Distinct, Elems, Fits, MatchesAny, SpotAttrs, Left, Ready, Matching;
    LeftStep(list.spots, i, fs, sys);
    found := list.Visit(p, sys, i);
    if found {
      MatchingOne(p.data.attr, fs, sys);
      found := MatchesFilters(p.data.attr, fs, sys);
    } else {
      NothingMatching(fs, sys);
    }
  }

  lemma NodeAt(nodes: seq<DevNode>, i: nat)
    requires i <= |nodes|
    ensures if i < |nodes| then At(nodes, i) == nodes[i] else At(nodes, i) == null
  {
  }

  lemma SkipHead(list: DevList, fs: seq<Filter>, sys: System)
    requires list.Valid() && list.spots[0] == Head && Ready(list.nodes, list.spots, 0, sys)
    ensures Ready(list.nodes, list.spots, 1, sys) && list.head.next == At(list.nodes, 1)
    ensures Left(list.spots, 0, fs, sys) == [] + Left(list.spots, 1, fs, sys)
  {
    hide Left, Fits, Distinct, Elems;
    LeftStep(list.spots, 0, fs, sys);
    NothingMatching(fs, sys);
  }

  lemma NextNode(nodes: seq<DevNode>, i: nat)
    requires 0 < |nodes| && Path(nodes[0], nodes) && i < |nodes|
    ensures nodes[i].next == At(nodes, i + 1)
  {
  }

  /** The loop over the device list. */
  method Collect(list: DevList, fs: seq<Filter>, sys: System, tokens: array?<Option<XToken>>, max: nat)
    returns (res: FpgaResult, n: nat)
    requires list.Valid() && list.spots[0] == Head && Ready(list.nodes, list.spots, 0, sys)
    requires if tokens == null then max == 0 else max <= tokens.Length
    modifies list.members`data, tokens
    ensures list.Valid()
    ensures var matched := Left(list.spots, 0, fs, sys);
            if AllMade(matched, max, sys)
            then res == Ok && n == |matched| && Stored(Contents(tokens), old(Contents(tokens)), matched, max)
            else
              && res == NoMemory && n == 0 && |Contents(tokens)| == |old(Contents(tokens))|
              && Contents(tokens)[max..] == old(Contents(tokens))[max..]
  {
    hide Path, Distinct, Elems, Fits, Stored, AllMade, Left, Ready, At;
    n := 0;
    ghost var before := Contents(tokens);
    ghost var matched, i: nat := [], 1;
    NothingStored(before, max, sys);
    SkipHead(list, fs, sys);
    var p := list.head.next;
    while p != null
      invariant list.Valid() && i <= |list.nodes| && p == At(list.nodes, i)
      invariant Ready(list.nodes, list.spots, i, sys)
      invariant n == |matched| && AllMade(matched, max, sys)
      invariant Stored(Contents(tokens), before, matched, max)
      invariant Left(list.spots, 0, fs, sys) == matched + Left(list.spots, i, fs, sys)
      decreases |list.nodes| - i
    {
      NodeAt(list.nodes, i);
      ghost var left := Left(list.spots, i, fs, sys);
      var found := Examine(list, p, fs, sys, i);
      if found {
        ghost var rest := Left(list.spots, i + 1, fs, sys);
        assert matched + ([p.data.attr] + rest) == (matched + [p.data.attr]) + rest;
        var ok := StoreToken(p.data.attr, matched, tokens, max, n, sys, before);
        if !ok {
          if AllMade((matched + [p.data.attr]) + rest, max, sys) {
            AllMadePrefix(matched + [p.data.attr], rest, max, sys);
          }
          return NoMemory, 0;
        }
        matched := matched + [p.data.attr];
        n := n + 1;
      }
      NextNode(list.nodes, i);
      p, i := p.next, i + 1;
    }
    NodeAt(list.nodes, i);
    NothingLeft(list.spots, fs, sys);
    assert matched + [] == matched;
    return Ok, n;
  }

  /** How many nodes the devices need beside the head. */
  function NodesNeeded(devs: seq<Device>, fs: seq<Filter>): nat {
    |Groups(devs, IncludesAfu(fs))|
  }

  /** The list for the devices, ports only if some filter may want one, and the walk over it. */
  method EnumerateDevices(fs: seq<Filter>, tokens: array?<Option<XToken>>, max: nat, devs: seq<Device>,
                          callocOk: nat -> bool, sys: System)
    returns (res: FpgaResult, n: nat, ghost leaked: set<DevNode>)
    requires if tokens == null then max == 0 else max <= tokens.Length
    modifies tokens
    ensures Granted(callocOk, 0, NodesNeeded(devs, fs)) ==> leaked == {}
    ensures var matched := Matching(Candidates(devs, true, sys), fs, sys);
            if !Granted(callocOk, 0, NodesNeeded(devs, fs)) then
              res == NoMemory && n == 0 && Contents(tokens) == old(Contents(tokens))
            else if AllMade(matched, max, sys) then
              res == Ok && n == |matched| && Stored(Contents(tokens), old(Contents(tokens)), matched, max)
            else
              && res == NoMemory && n == 0 && |Contents(tokens)| == |old(Contents(tokens))|
              && Contents(tokens)[max..] == old(Contents(tokens))[max..]
  {
    hide Matching, Candidates, IncludesAfu, Stored, AllMade, Granted, Groups, Fits, Path, Distinct, Elems;
    var ports := IncludeAfu(fs);
    var list := new DevList(callocOk);
    res := list.EnumDevices(devs, ports);
    if res != Ok {
      return res, 0, list.members - {list.head};
    }
    MatchesInList(devs, fs, sys);
    res, n := Collect(list, fs, sys, tokens, max);
    leaked := list.FreeNodes();
  }

  /** The matches among the nodes are the matches among all candidates. */
  lemma MatchesInList(devs: seq<Device>, fs: seq<Filter>, sys: System)
    ensures Left([Head] + Groups(devs, IncludesAfu(fs)), 0, fs, sys) == Matching(Candidates(devs, true, sys), fs, sys)
  {
    hide Matching, Candidates, Groups, IncludesAfu;
    var groups := Groups(devs, IncludesAfu(fs));
    SkippingPortsIsSafe(devs, fs, sys);
    GroupsAttrs(devs, IncludesAfu(fs), sys);
    ListAttrsConcat([Head], groups, sys);
    assert ([Head] + groups)[0..] == [Head] + groups && [Head][1..] == [];
    assert ListAttrs([Head], sys) == [] && [] + ListAttrs(groups, sys) == ListAttrs(groups, sys);
  }

  /**
   * xfpga_fpgaEnumerate, given what looking for devices in sysfs returned. The nodes of the
   * device list are all freed, unless one of them could not be allocated.
   */
  method XfpgaEnumerate(filters: Option<seq<Filter>>, numFilters: nat, tokens: array?<Option<XToken>>, max: nat,
                        sysfs: FpgaResult, devs: seq<Device>, callocOk: nat -> bool, sys: System)
    returns (res: FpgaResult, n: nat, ghost leaked: set<DevNode>)
    requires filters.Some? ==> numFilters <= |filters.value|
    requires tokens != null ==> max <= tokens.Length
    modifies tokens
    ensures var fs := if filters.Some? then filters.value[..numFilters] else [];
            Granted(callocOk, 0, NodesNeeded(devs, fs)) ==> leaked == {}
    ensures var checked := CheckParams(max, tokens != null, numFilters, filters.Some?);
            var fs := if filters.Some? then filters.value[..numFilters] else [];
            var matched := Matching(Candidates(devs, true, sys), fs, sys);
            if checked != Ok || sysfs != Ok || !Granted(callocOk, 0, NodesNeeded(devs, fs)) then
              && res == (if checked != Ok then checked else if sysfs != Ok then sysfs else NoMemory)
              && n == 0 && Contents(tokens) == old(Contents(tokens))
            else if AllMade(matched, max, sys) then
              res == Ok && n == |matched| && Stored(Contents(tokens), old(Contents(tokens)), matched, max)
            else
              && res == NoMemory && n == 0 && |Contents(tokens)| == |old(Contents(tokens))|
              && Contents(tokens)[max..] == old(Contents(tokens))[max..]
  {
    hide Matching, Candidates, IncludesAfu, Stored, AllMade, Granted, Groups;
    if 0 < max && tokens == null {
      return InvalidParam, 0, {};
    }
    if 0 < numFilters && filters.None? {
      return InvalidParam, 0, {};
    }
    if numFilters == 0 && filters.Some? {
      return InvalidParam, 0, {};
    }
    if sysfs != Ok {
      return sysfs, 0, {};
    }
    var fs := if filters.Some? then filters.value[..numFilters] else [];
    res, n, leaked := EnumerateDevices(fs, tokens, max, devs, callocOk, sys);
  }
}
