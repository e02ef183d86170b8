/** What filters select, one filter or several, and what the candidates say of the hardware. */
module XfpgaEffects {
  import opened Lists
  import opened Results
  import opened Word
  import opened XfpgaSpec

  // ---- several filters ----

  /** The elements of s that lie in picked, in their order. */
  function Chosen<T(==)>(s: seq<T>, picked: set<T>): seq<T> {
    if s == [] then [] else (if s[0] in picked then [s[0]] else []) + Chosen(s[1..], picked)
  }

  /** A candidate is among the matches exactly when it is one of the candidates and some filter fits it. */
  lemma {:induction false} MatchingElems(attrs: seq<Attr>, fs: seq<Filter>, sys: System, a: Attr)
    ensures a in Matching(attrs, fs, sys) <==> a in attrs && MatchesAny(a, fs, sys)
  {
    if attrs != [] {
      MatchingElems(attrs[1..], fs, sys, a);
      assert attrs == [attrs[0]] + attrs[1..];
    }
  }

  lemma {:induction false} MatchingIsChosen(attrs: seq<Attr>, fs: seq<Filter>, sys: System, picked: set<Attr>)
    requires forall i :: 0 <= i < |attrs| ==> (attrs[i] in picked <==> MatchesAny(attrs[i], fs, sys))
    ensures Matching(attrs, fs, sys) == Chosen(attrs, picked)
  {
    hide MatchesAny;
    if attrs != [] {
      assert forall i :: 0 <= i < |attrs[1..]| ==> attrs[1..][i] == attrs[i + 1];
      MatchingIsChosen(attrs[1..], fs, sys, picked);
    }
  }

  /**
   * Filters combine by "or": with two lists, none empty, a candidate is written exactly if
   * one of them alone would write it, and the candidates keep their order.
   */
  lemma FiltersUnite(attrs: seq<Attr>, fs: seq<Filter>, gs: seq<Filter>, sys: System)
    requires fs != [] && gs != []
    ensures Matching(attrs, fs + gs, sys) ==
            Chosen(attrs, Elems(Matching(attrs, fs, sys)) + Elems(Matching(attrs, gs, sys)))
  {
    hide Matches;
    var picked := Elems(Matching(attrs, fs, sys)) + Elems(Matching(attrs, gs, sys));
    forall i | 0 <= i < |attrs|
      ensures attrs[i] in picked <==> MatchesAny(attrs[i], fs + gs, sys)
    {
      MatchingElems(attrs, fs, sys, attrs[i]);
      MatchingElems(attrs, gs, sys, attrs[i]);
      AnyOfBoth(attrs[i], fs, gs, sys);
    }
    MatchingIsChosen(attrs, fs + gs, sys, picked);
  }

  lemma AnyOfBoth(a: Attr, fs: seq<Filter>, gs: seq<Filter>, sys: System)
    requires fs != [] && gs != []
    ensures MatchesAny(a, fs + gs, sys) <==> MatchesAny(a, fs, sys) || MatchesAny(a, gs, sys)
  {
    hide Matches;
    if MatchesAny(a, fs, sys) {
      var i :| 0 <= i < |fs| && Matches(a, fs[i], sys);
      assert Matches(a, (fs + gs)[i], sys);
    }
    if MatchesAny(a, gs, sys) {
      var i :| 0 <= i < |gs| && Matches(a, gs[i], sys);
      assert Matches(a, (fs + gs)[|fs| + i], sys);
    }
  }

  /** No filter at all selects every candidate. */
  lemma {:induction false} NoFilterSelectsAll(attrs: seq<Attr>, sys: System)
    ensures Matching(attrs, [], sys) == attrs
  {
    if attrs != [] {
      NoFilterSelectsAll(attrs[1..], sys);
      assert attrs == [attrs[0]] + attrs[1..];
    }
  }

  /** A filter appended to others loses no match. */
  lemma MoreFiltersLoseNothing(attrs: seq<Attr>, fs: seq<Filter>, f: Filter, sys: System, a: Attr)
    requires fs != [] && a in Matching(attrs, fs, sys)
    ensures a in Matching(attrs, fs + [f], sys)
  {
    hide Matches;
    MatchingElems(attrs, fs, sys, a);
    MatchingElems(attrs, fs + [f], sys, a);
    AnyOfBoth(a, fs, [f], sys);
  }

  /** A candidate is written exactly when some single filter alone would have it written. */
  lemma WrittenIffOneFilter(attrs: seq<Attr>, fs: seq<Filter>, sys: System, a: Attr)
    requires fs != []
    ensures a in Matching(attrs, fs, sys) <==>
            exists i :: 0 <= i < |fs| && a in Matching(attrs, [fs[i]], sys)
  {
    hide Matches;
    MatchingElems(attrs, fs, sys, a);
    forall i | 0 <= i < |fs|
      ensures a in Matching(attrs, [fs[i]], sys) <==> a in attrs && Matches(a, fs[i], sys)
    {
      MatchingElems(attrs, [fs[i]], sys, a);
      assert [fs[i]][0] == fs[i];
    }
  }

  /** A single filter selects exactly the candidates that it matches. */
  lemma OneFilterSelects(attrs: seq<Attr>, f: Filter, sys: System, a: Attr)
    ensures a in Matching(attrs, [f], sys) <==> a in attrs && Matches(a, f, sys)
  {
    hide Matches;
    MatchingElems(attrs, [f], sys, a);
    assert [f][0] == f;
  }

  /** Ports are read unless every filter, and there is one, asks for devices. */
  lemma PortsReadIff(fs: seq<Filter>)
    ensures !IncludesAfu(fs) <==> fs != [] && forall i :: 0 <= i < |fs| ==> fs[i].objtype == Some(FpgaDevice)
  {
    forall i | 0 <= i < |fs|
      ensures Says(fs[i].objtype, FpgaAccelerator) <==> fs[i].objtype != Some(FpgaDevice)
    {
      assert fs[i].objtype.None? || fs[i].objtype.value.FpgaDevice? || fs[i].objtype.value.FpgaAccelerator?;
    }
    if !IncludesAfu(fs) {
      assert forall i :: 0 <= i < |fs| ==> !Says(fs[i].objtype, FpgaAccelerator);
    }
  }

  // ---- the fields of one filter ----

  const NO_FPGA := FpgaFields(0, 0, Version(0, 0, 0))
  const NO_ACCELERATOR := AcceleratorFields(Assigned, 0, 0)

  /** The filter that states nothing. */
  const ANY := Filter(None, None, None, None, None, None, None, None, None, None, None, None,
                      false, false, false, NO_FPGA, NO_ACCELERATOR)

  datatype Field =
    | TheParent | TheType | TheSegment | TheBus | TheDevice | TheFunction | TheSocket | TheGuid | TheObjectId
    | TheVendor | TheDeviceId | TheErrors | Bit32 | Bit33 | Bit34

  /** One field of f alone; the three union bits need the object type to be read. */
  function Only(f: Filter, field: Field): Filter {
    match field
    case TheParent => ANY.(parent := f.parent)
    case TheType => ANY.(objtype := f.objtype)
    case TheSegment => ANY.(segment := f.segment)
    case TheBus => ANY.(bus := f.bus)
    case TheDevice => ANY.(device := f.device)
    case TheFunction => ANY.(function_ := f.function_)
    case TheSocket => ANY.(socketId := f.socketId)
    case TheGuid => ANY.(guid := f.guid)
    case TheObjectId => ANY.(objectId := f.objectId)
    case TheVendor => ANY.(vendorId := f.vendorId)
    case TheDeviceId => ANY.(deviceId := f.deviceId)
    case TheErrors => ANY.(numErrors := f.numErrors)
    case Bit32 => ANY.(objtype := f.objtype, bit32 := f.bit32, fpga := f.fpga, accelerator := f.accelerator)
    case Bit33 => ANY.(objtype := f.objtype, bit33 := f.bit33, fpga := f.fpga, accelerator := f.accelerator)
    case Bit34 => ANY.(objtype := f.objtype, bit34 := f.bit34, fpga := f.fpga, accelerator := f.accelerator)
  }

  /** a agrees with what f states in one field. */
  predicate Agrees(a: Attr, f: Filter, sys: System, field: Field) {
    match field
    case TheParent => ParentMatches(a, f.parent, sys)
    case TheType => Says(f.objtype, a.objtype)
    case TheSegment => Says(f.segment, a.segment)
    case TheBus => Says(f.bus, a.bus)
    case TheDevice => Says(f.device, a.device)
    case TheFunction => Says(f.function_, a.function_)
    case TheSocket => Says(f.socketId, a.sync.socketId)
    case TheGuid => Says(f.guid, a.sync.guid)
    case TheObjectId => f.objectId.Some? ==> sys.objectId(a.path) == f.objectId
    case TheVendor => Says(f.vendorId, a.vendorId)
    case TheDeviceId => Says(f.deviceId, a.deviceId)
    case TheErrors => Says(f.numErrors, sys.numErrors(a.path + "/errors"))
    case _ => UnionMatches(a, Only(f, field)) && Says(f.objtype, a.objtype)
  }

  lemma OnlyAgrees(a: Attr, f: Filter, sys: System, field: Field)
    ensures Matches(a, Only(f, field), sys) <==> Agrees(a, f, sys, field)
  {
  }

  lemma AgreesThroughout(a: Attr, f: Filter, sys: System)
    requires forall field: Field :: Agrees(a, f, sys, field)
    ensures Matches(a, f, sys)
  {
    assert Agrees(a, f, sys, TheParent) && Agrees(a, f, sys, TheType) && Agrees(a, f, sys, TheSegment);
    assert Agrees(a, f, sys, TheBus) && Agrees(a, f, sys, TheDevice) && Agrees(a, f, sys, TheFunction);
    assert Agrees(a, f, sys, TheSocket) && Agrees(a, f, sys, TheGuid) && Agrees(a, f, sys, TheObjectId);
    assert Agrees(a, f, sys, TheErrors) && Agrees(a, f, sys, TheVendor) && Agrees(a, f, sys, TheDeviceId);
    assert Agrees(a, f, sys, Bit32) && Agrees(a, f, sys, Bit33) && Agrees(a, f, sys, Bit34);
  }

  lemma MatchAgrees(a: Attr, f: Filter, sys: System, field: Field)
    requires Matches(a, f, sys)
    ensures Agrees(a, f, sys, field)
  {
  }

  /** The fields of a filter combine by "and": it matches exactly when each field alone does. */
  lemma FieldsUnite(a: Attr, f: Filter, sys: System)
    ensures Matches(a, f, sys) <==> forall field: Field :: Matches(a, Only(f, field), sys)
  {
    hide Matches, Only, Agrees;
    forall field: Field
      ensures Matches(a, Only(f, field), sys) <==> Agrees(a, f, sys, field)
    {
      OnlyAgrees(a, f, sys, field);
    }
    if Matches(a, f, sys) {
      forall field: Field
        ensures Agrees(a, f, sys, field)
      {
        MatchAgrees(a, f, sys, field);
      }
    } else if forall field: Field :: Agrees(a, f, sys, field) {
      AgreesThroughout(a, f, sys);
    }
  }

  /** What each field outside parent and union means when it is the only one stated. */
  lemma OneFieldMeans(a: Attr, sys: System, t: ObjType, x: int)
    ensures Matches(a, ANY, sys)
    ensures Matches(a, ANY.(objtype := Some(t)), sys) <==> a.objtype == t
    ensures Matches(a, ANY.(segment := Some(x)), sys) <==> a.segment == x
    ensures Matches(a, ANY.(bus := Some(x)), sys) <==> a.bus == x
    ensures Matches(a, ANY.(device := Some(x)), sys) <==> a.device == x
    ensures Matches(a, ANY.(function_ := Some(x)), sys) <==> a.function_ == x
    ensures Matches(a, ANY.(socketId := Some(x)), sys) <==> a.sync.socketId == x
    ensures Matches(a, ANY.(guid := Some(x)), sys) <==> a.sync.guid == x
    ensures Matches(a, ANY.(objectId := Some(x)), sys) <==> sys.objectId(a.path) == Some(x)
    ensures Matches(a, ANY.(vendorId := Some(x)), sys) <==> a.vendorId == x
    ensures Matches(a, ANY.(deviceId := Some(x)), sys) <==> a.deviceId == x
    ensures Matches(a, ANY.(numErrors := Some(x)), sys) <==> sys.numErrors(a.path + "/errors") == x
  {
  }

  /** A parent is stated for accelerators only, and is the one whose real path is their FME's. */
  lemma ParentMeans(a: Attr, sys: System, parent: string)
    ensures !Matches(a, ANY.(parent := Some(None)), sys)
    ensures Matches(a, ANY.(parent := Some(Some(parent))), sys) <==>
            a.objtype == FpgaAccelerator && exists p ::
              sys.fmePath(a.path) == Some(p) && sys.realPath(parent) == Some(p)
  {
    if sys.fmePath(a.path).Some? {
      assert sys.fmePath(a.path) == Some(sys.fmePath(a.path).value);
    }
  }

  /** What the union bits mean for each object type; without a type they are not read. */
  lemma UnionMeans(a: Attr, sys: System, x: FpgaFields, y: AcceleratorFields)
    ensures var f := ANY.(objtype := Some(FpgaDevice), fpga := x, accelerator := y);
            && (Matches(a, f.(bit32 := true), sys) <==> a.objtype == FpgaDevice && a.sync.slots == x.slots)
            && (Matches(a, f.(bit33 := true), sys) <==> a.objtype == FpgaDevice && a.sync.bitstream == x.bbsId)
            && (Matches(a, f.(bit34 := true), sys) <==> a.objtype == FpgaDevice && a.sync.version == x.version)
    ensures var f := ANY.(objtype := Some(FpgaAccelerator), fpga := x, accelerator := y);
            && (Matches(a, f.(bit32 := true), sys) <==> a.objtype == FpgaAccelerator && a.sync.state == y.state)
            && (Matches(a, f.(bit33 := true), sys) <==> a.objtype == FpgaAccelerator && a.sync.mmios == y.mmios)
            && (Matches(a, f.(bit34 := true), sys) <==> a.objtype == FpgaAccelerator && a.sync.irqs == y.irqs)
    ensures Matches(a, ANY.(bit32 := true, bit33 := true, bit34 := true, fpga := x, accelerator := y), sys)
  {
  }

  /** The filter made from what a itself says. */
  function Own(a: Attr, sys: System): Filter {
    Filter(None, Some(a.objtype), Some(a.segment), Some(a.bus), Some(a.device), Some(a.function_),
           Some(a.sync.socketId), Some(a.sync.guid), sys.objectId(a.path), Some(a.vendorId), Some(a.deviceId),
           Some(sys.numErrors(a.path + "/errors")), true, true, true,
           FpgaFields(a.sync.slots, a.sync.bitstream, a.sync.version),
           AcceleratorFields(a.sync.state, a.sync.mmios, a.sync.irqs))
  }

  /** A candidate matches the filter made from itself, and only candidates equal to it in all that is stated do. */
  lemma OwnFilterSelects(a: Attr, b: Attr, sys: System)
    ensures Matches(a, Own(a, sys), sys)
    ensures Matches(b, Own(a, sys), sys) <==>
            && b.objtype == a.objtype
            && b.segment == a.segment && b.bus == a.bus && b.device == a.device && b.function_ == a.function_
            && b.vendorId == a.vendorId && b.deviceId == a.deviceId
            && b.sync.socketId == a.sync.socketId && b.sync.guid == a.sync.guid
            && (sys.objectId(a.path).Some? ==> sys.objectId(b.path) == sys.objectId(a.path))
            && sys.numErrors(b.path + "/errors") == sys.numErrors(a.path + "/errors")
            && (a.objtype == FpgaDevice ==>
                  b.sync.slots == a.sync.slots && b.sync.bitstream == a.sync.bitstream
                  && b.sync.version == a.sync.version)
            && (a.objtype == FpgaAccelerator ==>
                  b.sync.state == a.sync.state && b.sync.mmios == a.sync.mmios && b.sync.irqs == a.sync.irqs)
  {
  }

  // ---- what the candidates say ----

  /** a is resource r of device d, of type t. */
  predicate Stands(a: Attr, d: Device, r: Resource, t: ObjType) {
    && a.path == r.path && a.devpath == "/dev/" + r.name && a.objtype == t
    && a.segment == d.segment && a.bus == d.bus && a.device == d.device && a.function_ == d.function_
    && a.vendorId == d.vendorId && a.deviceId == d.deviceId
  }

  /** What FME and AFU of a device tell, if they are there and answer. */
  function FmeAnswer(d: Device, sys: System): Option<FmeInfo> {
    match d.fme
    case None => None
    case Some(r) => sys.fme(r.path, "/dev/" + r.name)
  }

  function AfuAnswer(d: Device, sys: System): Option<AfuInfo> {
    match d.port
    case None => None
    case Some(r) => sys.afu(r.path, "/dev/" + r.name)
  }

  function Count(fme: bool, afu: bool): nat {
    (if fme then 1 else 0) + (if afu then 1 else 0)
  }

  /** The candidates of one device: its FME if that answers, then its AFU if ports are read and it answers. */
  lemma CandidatesOfOne(d: Device, ports: bool, sys: System)
    ensures var fme, afu := FmeAnswer(d, sys), AfuAnswer(d, sys);
            var cs := Candidates([d], ports, sys);
            && |cs| == Count(fme.Some?, ports && afu.Some?)
            && (fme.Some? ==> Stands(cs[0], d, d.fme.value, FpgaDevice) && SaysFme(cs[0].sync, fme.value))
            && (ports && afu.Some? ==>
                  && Stands(cs[|cs| - 1], d, d.port.value, FpgaAccelerator)
                  && SaysAfu(cs[|cs| - 1].sync, afu.value)
                  && cs[|cs| - 1].sync.socketId == if fme.Some? then cs[0].sync.socketId else 0)
  {
    hide VersionOf;
    assert [d][1..] == [];
    assert Candidates([], ports, sys) == [];
    if FmeAnswer(d, sys).Some? {
      VersionDigits(FmeAnswer(d, sys).value.bitstream);
    }
  }

  lemma VersionDigits(bitstream: u64)
    ensures IsVersion(bitstream, VersionOf(bitstream))
  {
    hide Digits;
    var low, q := bitstream % 0x1_0000_0000_0000, bitstream / 0x1_0000_0000_0000;
    FourDigits(q, q / 4096, VersionOf(bitstream));
    assert HasDigits(bitstream, VersionOf(bitstream), q / 4096, low);
  }

  lemma FourDigits(q: nat, top: nat, v: Version)
    requires top == q / 4096 && v == Version(q / 256 % 16, q / 16 % 16, q % 16)
    ensures q == Digits(top, v)
  {
    hide Digits;
    var a, b := q / 16, q / 256;
    TwoSteps(q, 16);
    TwoSteps(q, 256);
    assert q == 16 * a + v.patch && a == 16 * b + v.minor && b == 16 * top + v.major;
    DigitsOf(q, a, b, top, v);
  }

  lemma TwoSteps(q: nat, m: nat)
    requires m == 16 || m == 256
    ensures q / (16 * m) == q / m / 16
  {
  }

  lemma DigitsOf(q: nat, a: nat, b: nat, top: nat, v: Version)
    requires q == 16 * a + v.patch && a == 16 * b + v.minor && b == 16 * top + v.major
    ensures q == Digits(top, v)
  {
  }

  /** 32 bits of the slots, 8 of the socket, and the three digits of the version from the bitstream id. */
  ghost predicate SaysFme(s: Sync, info: FmeInfo) {
    && s.guid == info.guid && s.bitstream == info.bitstream
    && s.slots == info.slots % 0x1_0000_0000 && s.socketId == info.socket % 0x100
    && IsVersion(info.bitstream, s.version)
  }

  /** The three hexadecimal digits of the bitstream id above its lowest 48 bits, the patch level lowest. */
  ghost predicate IsVersion(bitstream: u64, v: Version) {
    exists top: nat, low: nat :: HasDigits(bitstream, v, top, low)
  }

  predicate HasDigits(bitstream: u64, v: Version, top: nat, low: nat) {
    && 0 <= v.major < 16 && 0 <= v.minor < 16 && 0 <= v.patch < 16 && low < 0x1_0000_0000_0000
    && bitstream == Digits(top, v) * 0x1_0000_0000_0000 + low
  }

  function Digits(top: int, v: Version): int {
    ((top * 16 + v.major) * 16 + v.minor) * 16 + v.patch
  }

  /** In use unless it opens, and without regions or interrupts unless its information can be read. */
  ghost predicate SaysAfu(s: Sync, info: AfuInfo) {
    && s.guid == info.guid
    && (s.state == Unassigned <==> info.opens)
    && (info.opens && info.port.Some? ==>
          && s.mmios == info.port.value.regions
          && s.irqs == (if info.port.value.userInterrupts then info.port.value.interrupts else 0))
    && (!info.opens || info.port.None? ==> s.mmios == 0 && s.irqs == 0)
  }
}
