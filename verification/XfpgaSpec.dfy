/** Which tokens the native plugin enumerates, and why ports may sometimes be skipped. */
module XfpgaSpec {
  import opened Word
  import opened Results

  datatype ObjType = FpgaDevice | FpgaAccelerator
  datatype State = Assigned | Unassigned
  datatype Version = Version(major: int, minor: int, patch: int)

  // ---- the devices and what sysfs says of them ----

  /** The directory of an FME or port, and its name in /dev. */
  datatype Resource = Resource(path: string, name: string)

  datatype Device = Device(
    path: string, segment: int, bus: int, device: int, function_: int, vendorId: int, deviceId: int,
    fme: Option<Resource>, port: Option<Resource>)

  /** Attributes of an FME; one that cannot be read counts as 0. */
  datatype FmeInfo = FmeInfo(guid: int, socket: u64, slots: u64, bitstream: u64)

  /** A port that cannot be opened is in use; one that can may still refuse its information. */
  datatype PortInfo = PortInfo(regions: u32, userInterrupts: bool, interrupts: u32)
  datatype AfuInfo = AfuInfo(guid: int, opens: bool, port: Option<PortInfo>)

  /**
   * The file system: the information on an FME or AFU whose two paths are as they should
   * be, the lookups of the filters, and whether the n-th token for a path can be made.
   */
  datatype System = System(
    fme: (string, string) -> Option<FmeInfo>,
    afu: (string, string) -> Option<AfuInfo>,
    fmePath: string -> Option<string>,
    realPath: string -> Option<string>,
    objectId: string -> Option<int>,
    numErrors: string -> int,
    makesToken: (string, nat) -> bool)

  function DevPath(r: Resource): string {
    "/dev/" + r.name
  }

  // ---- candidates ----

  /** What is read from the hardware, all zero before. */
  datatype Sync = Sync(
    guid: int, socketId: int, slots: u32, bitstream: u64, version: Version,
    state: State, mmios: u32, irqs: u32)

  const ZERO := Sync(0, 0, 0, 0, Version(0, 0, 0), Assigned, 0, 0)

  datatype Attr = Attr(
    path: string, devpath: string, objtype: ObjType,
    segment: int, bus: int, device: int, function_: int, vendorId: int, deviceId: int,
    sync: Sync)

  function AttrOf(d: Device, r: Resource, objtype: ObjType, sync: Sync): Attr {
    Attr(r.path, DevPath(r), objtype, d.segment, d.bus, d.device, d.function_, d.vendorId, d.deviceId, sync)
  }

  function VersionOf(bitstream: u64): Version {
    Version(bitstream / 0x100_0000_0000_0000 % 16, bitstream / 0x10_0000_0000_0000 % 16,
            bitstream / 0x1_0000_0000_0000 % 16)
  }

  function FmeSync(info: FmeInfo): Sync {
    ZERO.(guid := info.guid, socketId := info.socket % 256, slots := Wrap32(info.slots),
          bitstream := info.bitstream, version := VersionOf(info.bitstream))
  }

  function AfuSync(info: AfuInfo, socket: int): Sync {
    var known := info.opens && info.port.Some?;
    ZERO.(guid := info.guid, socketId := socket,
          state := if info.opens then Unassigned else Assigned,
          mmios := if known then info.port.value.regions else 0,
          irqs := if known && info.port.value.userInterrupts then info.port.value.interrupts else 0)
  }

  function FmeOf(d: Device, sys: System): Option<FmeInfo> {
    if d.fme.Some? then sys.fme(d.fme.value.path, DevPath(d.fme.value)) else None
  }

  function AfuOf(d: Device, sys: System): Option<AfuInfo> {
    if d.port.Some? then sys.afu(d.port.value.path, DevPath(d.port.value)) else None
  }

  /** The socket of a device is known to its FME alone. */
  function SocketOf(d: Device, sys: System): int {
    if FmeOf(d, sys).Some? then FmeOf(d, sys).value.socket % 256 else 0
  }

  function FmeAttrs(d: Device, sys: System): seq<Attr> {
    if FmeOf(d, sys).Some? then [AttrOf(d, d.fme.value, FpgaDevice, FmeSync(FmeOf(d, sys).value))] else []
  }

  function AfuAttrs(d: Device, sys: System): seq<Attr> {
    if AfuOf(d, sys).Some?
    then [AttrOf(d, d.port.value, FpgaAccelerator, AfuSync(AfuOf(d, sys).value, SocketOf(d, sys)))] else []
  }

  /** Every FME and, if ports are read, every AFU that answers, in order. */
  function Candidates(devs: seq<Device>, ports: bool, sys: System): seq<Attr> {
    if devs == [] then []
    else FmeAttrs(devs[0], sys) + (if ports then AfuAttrs(devs[0], sys) else []) + Candidates(devs[1..], ports, sys)
  }

  // ---- filters ----

  /**
   * A filter states the fields that are valid in it. The last three validity bits and the
   * union they guard mean one thing for devices and another for accelerators.
   */
  datatype Filter = Filter(
    parent: Option<Option<string>>, objtype: Option<ObjType>,
    segment: Option<int>, bus: Option<int>, device: Option<int>, function_: Option<int>,
    socketId: Option<int>, guid: Option<int>, objectId: Option<int>,
    vendorId: Option<int>, deviceId: Option<int>, numErrors: Option<int>,
    bit32: bool, bit33: bool, bit34: bool, fpga: FpgaFields, accelerator: AcceleratorFields)

  datatype FpgaFields = FpgaFields(slots: int, bbsId: int, version: Version)
  datatype AcceleratorFields = AcceleratorFields(state: State, mmios: int, irqs: int)

  predicate Says<T(==)>(field: Option<T>, value: T) {
    field.Some? ==> field.value == value
  }

  /** An accelerator lies below the device that the filter names as parent. */
  predicate ParentMatches(a: Attr, parent: Option<Option<string>>, sys: System) {
    parent.Some? ==>
      && a.objtype == FpgaAccelerator && parent.value.Some?
      && sys.fmePath(a.path).Some?
      && sys.fmePath(a.path) == sys.realPath(parent.value.value)
  }

  predicate UnionMatches(a: Attr, f: Filter) {
    match f.objtype
    case None => true
    case Some(FpgaDevice) =>
      && (f.bit32 ==> a.sync.slots == f.fpga.slots)
      && (f.bit33 ==> a.sync.bitstream == f.fpga.bbsId)
      && (f.bit34 ==> a.sync.version == f.fpga.version)
    case Some(FpgaAccelerator) =>
      && (f.bit32 ==> a.sync.state == f.accelerator.state)
      && (f.bit33 ==> a.sync.mmios == f.accelerator.mmios)
      && (f.bit34 ==> a.sync.irqs == f.accelerator.irqs)
  }

  predicate PlaceMatches(a: Attr, f: Filter) {
    Says(f.segment, a.segment) && Says(f.bus, a.bus) && Says(f.device, a.device) && Says(f.function_, a.function_)
  }

  predicate FieldsMatch(a: Attr, f: Filter, sys: System) {
    && Says(f.objtype, a.objtype) && PlaceMatches(a, f)
    && Says(f.socketId, a.sync.socketId) && Says(f.guid, a.sync.guid)
    && (f.objectId.Some? ==> sys.objectId(a.path) == f.objectId)
    && Says(f.vendorId, a.vendorId) && Says(f.deviceId, a.deviceId)
    && Says(f.numErrors, sys.numErrors(a.path + "/errors"))
  }

  /** The device agrees with every field that the filter states. */
  predicate Matches(a: Attr, f: Filter, sys: System) {
    ParentMatches(a, f.parent, sys) && FieldsMatch(a, f, sys) && UnionMatches(a, f)
  }

  predicate MatchesAny(a: Attr, fs: seq<Filter>, sys: System) {
    fs == [] || exists i :: 0 <= i < |fs| && Matches(a, fs[i], sys)
  }

  function Matching(attrs: seq<Attr>, fs: seq<Filter>, sys: System): seq<Attr> {
    if attrs == [] then []
    else (if MatchesAny(attrs[0], fs, sys) then [attrs[0]] else []) + Matching(attrs[1..], fs, sys)
  }

  /** Some filter leaves room for an accelerator. */
  predicate IncludesAfu(fs: seq<Filter>) {
    fs == [] || exists i :: 0 <= i < |fs| && Says(fs[i].objtype, FpgaAccelerator)
  }

  lemma {:induction false} MatchingConcat(x: seq<Attr>, y: seq<Attr>, fs: seq<Filter>, sys: System)
    ensures Matching(x + y, fs, sys) == Matching(x, fs, sys) + Matching(y, fs, sys)
  {
    if x == [] {
      assert x + y == y;
    } else {
      assert (x + y)[1..] == x[1..] + y;
      MatchingConcat(x[1..], y, fs, sys);
    }
  }

  lemma NothingMatching(fs: seq<Filter>, sys: System)
    ensures Matching([], fs, sys) == []
  {
  }

  lemma MatchingFirst(devs: seq<Device>, ports: bool, fs: seq<Filter>, sys: System)
    requires devs != []
    ensures Matching(Candidates(devs, ports, sys), fs, sys) ==
            Matching(FmeAttrs(devs[0], sys), fs, sys)
            + (if ports then Matching(AfuAttrs(devs[0], sys), fs, sys) else [])
            + Matching(Candidates(devs[1..], ports, sys), fs, sys)
  {
    hide Matching, FmeAttrs, AfuAttrs;
    var fme := FmeAttrs(devs[0], sys);
    var afu := if ports then AfuAttrs(devs[0], sys) else [];
    MatchingConcat(fme + afu, Candidates(devs[1..], ports, sys), fs, sys);
    MatchingConcat(fme, afu, fs, sys);
    NothingMatching(fs, sys);
  }

  /** Not reading the ports loses no match, whatever the devices and the filters. */
  lemma {:induction false} SkippingPortsIsSafe(devs: seq<Device>, fs: seq<Filter>, sys: System)
    ensures Matching(Candidates(devs, IncludesAfu(fs), sys), fs, sys) ==
            Matching(Candidates(devs, true, sys), fs, sys)
  {
    hide Matching, IncludesAfu, FmeAttrs, AfuAttrs;
    if devs != [] && !IncludesAfu(fs) {
      SkippingPortsIsSafe(devs[1..], fs, sys);
      AfuUnmatched(devs[0], fs, sys);
      MatchingFirst(devs, false, fs, sys);
      MatchingFirst(devs, true, fs, sys);
    }
  }

  lemma AfuUnmatched(d: Device, fs: seq<Filter>, sys: System)
    requires !IncludesAfu(fs)
    ensures Matching(AfuAttrs(d, sys), fs, sys) == []
  {
    if AfuOf(d, sys).Some? {
      var a := AfuAttrs(d, sys)[0];
      forall i | 0 <= i < |fs|
        ensures !Matches(a, fs[i], sys)
      {
        assert !Says(fs[i].objtype, FpgaAccelerator);
      }
    }
  }

  // ---- the list that enumeration walks ----

  /** What a node of the device list stands for. */
  datatype Spot = Head | Region(dev: Device) | Fme(dev: Device) | Afu(dev: Device)

  function Group(d: Device, ports: bool): seq<Spot> {
    [Region(d)] + (if d.fme.Some? then [Fme(d)] else []) + (if d.port.Some? && ports then [Afu(d)] else [])
  }

  function Groups(devs: seq<Device>, ports: bool): seq<Spot> {
    if devs == [] then [] else Groups(devs[..|devs| - 1], ports) + Group(devs[|devs| - 1], ports)
  }

  /** An AFU follows the FME of its own device, if there is one. */
  predicate Ordered(spots: seq<Spot>) {
    forall k :: 0 <= k < |spots| && spots[k].Afu? && spots[k].dev.fme.Some? ==>
      0 < k && spots[k - 1] == Fme(spots[k].dev)
  }

  lemma {:induction false} GroupsOrdered(devs: seq<Device>, ports: bool)
    ensures Ordered(Groups(devs, ports))
  {
    if devs != [] {
      GroupsOrdered(devs[..|devs| - 1], ports);
    }
  }

  function SpotAttrs(s: Spot, sys: System): seq<Attr> {
    match s
    case Fme(d) => FmeAttrs(d, sys)
    case Afu(d) => AfuAttrs(d, sys)
    case _ => []
  }

  function ListAttrs(spots: seq<Spot>, sys: System): seq<Attr> {
    if spots == [] then [] else SpotAttrs(spots[0], sys) + ListAttrs(spots[1..], sys)
  }

  lemma {:induction false} ListAttrsConcat(x: seq<Spot>, y: seq<Spot>, sys: System)
    ensures ListAttrs(x + y, sys) == ListAttrs(x, sys) + ListAttrs(y, sys)
  {
    if x == [] {
      assert x + y == y;
    } else {
      assert (x + y)[1..] == x[1..] + y;
      ListAttrsConcat(x[1..], y, sys);
    }
  }

  lemma {:induction false} CandidatesConcat(x: seq<Device>, y: seq<Device>, ports: bool, sys: System)
    ensures Candidates(x + y, ports, sys) == Candidates(x, ports, sys) + Candidates(y, ports, sys)
  {
    if x == [] {
      assert x + y == y;
    } else {
      assert (x + y)[1..] == x[1..] + y;
      CandidatesConcat(x[1..], y, ports, sys);
    }
  }

  lemma GroupAttrs(d: Device, ports: bool, sys: System)
    ensures ListAttrs(Group(d, ports), sys) == Candidates([d], ports, sys)
  {
    hide AttrOf, AfuSync, FmeSync;
    var fme := if d.fme.Some? then [Fme(d)] else [];
    var afu := if d.port.Some? && ports then [Afu(d)] else [];
    ListAttrsConcat([Region(d)] + fme, afu, sys);
    ListAttrsConcat([Region(d)], fme, sys);
    assert [Region(d)][1..] == [] && [Fme(d)][1..] == [] && [Afu(d)][1..] == [] && [d][1..] == [];
  }

  /** The list stands for exactly the candidates of the devices. */
  lemma {:induction false} GroupsAttrs(devs: seq<Device>, ports: bool, sys: System)
    ensures ListAttrs(Groups(devs, ports), sys) == Candidates(devs, ports, sys)
  {
    hide Group, SpotAttrs, FmeAttrs, AfuAttrs;
    if devs != [] {
      var init, d := devs[..|devs| - 1], devs[|devs| - 1];
      GroupsAttrs(init, ports, sys);
      GroupAttrs(d, ports, sys);
      ListAttrsConcat(Groups(init, ports), Group(d, ports), sys);
      CandidatesConcat(init, [d], ports, sys);
      assert devs == init + [d];
    }
  }
}
