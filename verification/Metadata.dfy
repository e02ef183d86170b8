/** Parsing and releasing metadata on a heap that knows which allocations are live. */
module Metadata {
  import opened Results
  import opened MetadataSpec

  class Str {
    const text: string

    constructor (text: string)
      ensures this.text == text
    {
      this.text := text;
    }
  }

  /** One element of the calloc'ed array. */
  datatype Cluster = Cluster(totalContexts: int, name: Str?, uuid: Str?)

  const BLANK := Cluster(0, null, null)

  /** malloc, whose n-th call succeeds if mallocOk(n), and free, which wants a live pointer. */
  class Heap {
    const mallocOk: nat -> bool
    var calls: nat
    ghost var live: set<object>

    method NewString(text: string) returns (p: Str?)
      modifies this
      ensures calls == old(calls) + 1
      ensures p != null <==> mallocOk(old(calls))
      ensures if p == null then live == old(live)
              else fresh(p) && p.text == text && live == old(live) + {p}
    {
      calls := calls + 1;
      if !mallocOk(calls - 1) {
        return null;
      }
      p := new Str(text);
      live := live + {p};
    }

    method NewClusters(n: nat) returns (a: array?<Cluster>)
      modifies this
      ensures calls == old(calls) + 1
      ensures a != null <==> mallocOk(old(calls))
      ensures if a == null then live == old(live)
              else fresh(a) && a.Length == n && live == old(live) + {a} && forall i :: 0 <= i < n ==> a[i] == BLANK
    {
      calls := calls + 1;
      if !mallocOk(calls - 1) {
        return null;
      }
      a := new Cluster[n](_ => BLANK);
      live := live + {a};
    }

    method Free(p: object?)
      requires p != null ==> p in live
      modifies this`live
      ensures live == if p == null then old(live) else old(live) - {p}
    {
      if p != null {
        live := live - {p};
      }
    }
  }

  // ---- clusters ----

  function Pointers(c: Cluster): set<object> {
    (if c.name == null then {} else {c.name}) + (if c.uuid == null then {} else {c.uuid})
  }

  /** The strings of the clusters. */
  function Strings(cs: seq<Cluster>): set<object> {
    if cs == [] then {} else Strings(cs[..|cs| - 1]) + Pointers(cs[|cs| - 1])
  }

  lemma StringsAppend(cs: seq<Cluster>, c: Cluster)
    ensures Strings(cs + [c]) == Strings(cs) + Pointers(c)
  {
    assert (cs + [c])[..|cs|] == cs;
  }

  /** All strings are there, and none is used twice. */
  predicate Filled(cs: seq<Cluster>) {
    cs == [] ||
    var c := cs[|cs| - 1];
    && Filled(cs[..|cs| - 1])
    && c.name != null && c.uuid != null && c.name != c.uuid
    && Pointers(c) !! Strings(cs[..|cs| - 1])
  }

  lemma FilledAppend(cs: seq<Cluster>, c: Cluster)
    requires c.name != null && c.uuid != null && c.name != c.uuid
    requires Filled(cs) && Pointers(c) !! Strings(cs)
    ensures Filled(cs + [c])
  {
    assert (cs + [c])[..|cs|] == cs;
  }

  /** What holds up to the end holds up to any earlier point. */
  lemma {:induction false} FilledPrefix(cs: seq<Cluster>, n: nat)
    requires Filled(cs) && n <= |cs|
    ensures Filled(cs[..n]) && Strings(cs[..n]) <= Strings(cs)
    decreases |cs|
  {
    if n < |cs| {
      FilledPrefix(cs[..|cs| - 1], n);
      assert cs[..|cs| - 1][..n] == cs[..n];
    } else {
      assert cs[..n] == cs;
    }
  }

  function InfoOf(c: Cluster): ClusterInfo
    requires c.name != null && c.uuid != null
  {
    ClusterInfo(c.totalContexts, c.name.text, c.uuid.text)
  }

  /** The clusters carry what the JSON objects say. */
  predicate Carry(cs: seq<Cluster>, js: seq<Json>) {
    |cs| == |js| && forall i :: 0 <= i < |cs| ==>
      cs[i].name != null && cs[i].uuid != null && ClusterOk(js[i]) && InfoOf(cs[i]) == ClusterOf(js[i])
  }

  lemma CarryAppend(cs: seq<Cluster>, js: seq<Json>, c: Cluster, j: Json)
    requires Carry(cs, js)
    requires c.name != null && c.uuid != null && ClusterOk(j) && InfoOf(c) == ClusterOf(j)
    ensures Carry(cs + [c], js + [j])
  {
  }

  lemma NoClusters()
    ensures Filled([]) && Strings([]) == {} && Carry([], [])
  {
  }

  /** opae_bitstream_parse_accelerator_cluster_v1, on &clusters[i] */
  method ParseCluster(j: Json, a: array<Cluster>, i: nat, heap: Heap) returns (res: FpgaResult)
    requires i < a.Length && a[i] == BLANK
    modifies heap, a
    ensures res == ClusterResult(j, old(heap.calls), heap.mallocOk)
    ensures a[..] == old(a[..])[i := a[i]]
    ensures res != Ok ==> heap.live == old(heap.live) && Pointers(a[i]) == {}
    ensures res == Ok ==>
              && ClusterOk(j) && heap.calls == old(heap.calls) + 2
              && a[i].name != null && a[i].uuid != null && a[i].name != a[i].uuid
              && fresh(a[i].name) && fresh(a[i].uuid)
              && InfoOf(a[i]) == ClusterOf(j) && a[i].totalContexts == ClusterOf(j).totalContexts
              && a[i].name.text == ClusterOf(j).name && a[i].uuid.text == ClusterOf(j).uuid
              && heap.live == old(heap.live) + Pointers(a[i])
  {
    var total := GetInt(j, "total-contexts");
    if total.None? {
      return Exception;
    }
    a[i] := a[i].(totalContexts := total.value);
    var name := GetString(j, "name");
    if name.None? {
      return Exception;
    }
    var p := heap.NewString(name.value);
    a[i] := a[i].(name := p);
    if p == null {
      return NoMemory;
    }
    var uuid := GetString(j, "accelerator-type-uuid");
    if uuid.None? {
      res := Exception;
    } else {
      var q := heap.NewString(uuid.value);
      a[i] := a[i].(uuid := q);
      res := if q == null then NoMemory else Ok;
    }
    if res != Ok {
      heap.Free(a[i].name);
      a[i] := a[i].(name := null);
    }
  }

  /** Free the strings of the first n clusters. */
  method FreeStrings(a: array<Cluster>, n: nat, heap: Heap)
    requires n <= a.Length && Filled(a[..n]) && Strings(a[..n]) <= heap.live
    modifies heap`live
    ensures heap.live == old(heap.live) - Strings(a[..n])
  {
    var k := 0;
    while k < n
      invariant 0 <= k <= n
      invariant heap.live == old(heap.live) - Strings(a[..k])
    {
      assert a[..n][..k + 1] == a[..k] + [a[k]] && a[..k + 1] == a[..k] + [a[k]];
      FilledPrefix(a[..n], k + 1);
      StringsAppend(a[..k], a[k]);
      assert a[..k + 1][..k] == a[..k];
      heap.Free(a[k].name);
      heap.Free(a[k].uuid);
      k := k + 1;
    }
  }

  /** The loop over the clusters of an image; n is how many it has filled. */
  method ParseClusters(js: seq<Json>, a: array<Cluster>, heap: Heap) returns (res: FpgaResult, n: nat)
    requires a.Length == |js| && forall i :: 0 <= i < a.Length ==> a[i] == BLANK
    modifies heap, a
    ensures n <= a.Length && Filled(a[..n]) && Strings(a[..n]) !! old(heap.live)
    ensures forall o :: o in Strings(a[..n]) ==> fresh(o)
    ensures heap.live == old(heap.live) + Strings(a[..n])
    ensures res == ClustersResult(js, old(heap.calls), heap.mallocOk)
    ensures res == Ok ==> n == a.Length && Carry(a[..], js) && heap.calls == old(heap.calls) + 2 * |js|
  {
    hide ClusterOk, ClusterResult, InfoOf, ClusterOf, Filled, Strings, Carry;
    res, n := Ok, 0;
    NoClusters();
    assert a[..0] == [] && js[..0] == [];
    assert js[0..] == js;
    while n < |js|
      invariant 0 <= n <= |js| && res == Ok
      invariant Filled(a[..n]) && Carry(a[..n], js[..n])
      invariant forall o :: o in Strings(a[..n]) ==> fresh(o)
      invariant heap.live == old(heap.live) + Strings(a[..n])
      invariant forall i :: n <= i < a.Length ==> a[i] == BLANK
      invariant heap.calls == old(heap.calls) + 2 * n
      invariant ClustersResult(js[n..], heap.calls, heap.mallocOk) == ClustersResult(js, old(heap.calls), heap.mallocOk)
    {
      assert js[n..][1..] == js[n + 1..];
      ghost var before := a[..n];
      res := ParseCluster(js[n], a, n, heap);
      assert a[..n] == before;
      if res != Ok {
        return;
      }
      assert a[..n + 1] == before + [a[n]];
      StringsAppend(before, a[n]);
      FilledAppend(before, a[n]);
      CarryAppend(before, js[..n], a[n], js[n]);
      assert js[..n + 1] == js[..n] + [js[n]];
      n := n + 1;
    }
    assert a[..n] == a[..] && js[..n] == js;
  }

  // ---- the image ----

  predicate Named(cs: seq<Cluster>) {
    forall i :: 0 <= i < |cs| ==> cs[i].name != null && cs[i].uuid != null
  }

  function InfosOf(cs: seq<Cluster>): seq<ClusterInfo>
    requires Named(cs)
  {
    seq(|cs|, i requires 0 <= i < |cs| => InfoOf(cs[i]))
  }

  lemma CarriedInfos(cs: seq<Cluster>, js: seq<Json>)
    requires Carry(cs, js)
    ensures Named(cs) && ClustersOk(js) && InfosOf(cs) == ClustersOf(js)
  {
  }

  /** An optional number, looked for as a double and then as an int; 0 when it is neither. */
  method ReadQuantity(j: Json, name: string) returns (q: real)
    ensures q == Quantity(j, name)
  {
    var d := GetDouble(j, name);
    if d.Some? {
      return d.value;
    }
    var ival := 0;
    var n := GetInt(j, name);
    if n.Some? {
      ival := n.value;
    }
    return ival as real;
  }

  /** The image that is embedded in the metadata; only its strings and array are allocated. */
  class AfuImage {
    var high: real
    var low: real
    var power: real
    var magicNo: int
    var interfaceUuid: Str?
    var numClusters: nat
    var clusters: array?<Cluster>

    constructor ()
      ensures Owned(0) == {} && interfaceUuid == null && clusters == null
    {
      high, low, power, magicNo, numClusters := 0.0, 0.0, 0.0, 0, 0;
      interfaceUuid, clusters := null, null;
    }

    /** What the image has allocated while the first n clusters are filled. */
    ghost function Owned(n: nat): set<object>
      requires clusters != null ==> n <= clusters.Length
      reads this, clusters
    {
      (if interfaceUuid == null then {} else {interfaceUuid})
      + (if clusters == null then {} else {clusters} + Strings(clusters[..n]))
    }

    /** The first n clusters are filled, and no allocation serves twice. */
    ghost predicate Sound(n: nat)
      reads this, clusters
    {
      clusters != null ==>
        && n <= clusters.Length && Filled(clusters[..n]) && clusters !in Strings(clusters[..n])
        && (interfaceUuid != null ==> interfaceUuid !in Strings(clusters[..n]))
    }

    ghost predicate Valid()
      reads this, clusters
    {
      && interfaceUuid != null && clusters != null && numClusters == clusters.Length
      && Sound(numClusters) && Named(clusters[..])
    }

    ghost function Info(): ImageInfo
      requires Valid()
      reads this, clusters
    {
      ImageInfo(high, low, power, interfaceUuid.text, InfosOf(clusters[..]))
    }

    /** The label out_free, and the image's share of releasing the metadata. */
    method FreeAll(n: nat, heap: Heap)
      requires Sound(n) && Owned(n) <= heap.live
      modifies this`interfaceUuid, this`clusters, heap`live
      ensures heap.live == old(heap.live) - old(Owned(n))
      ensures interfaceUuid == null && clusters == null
    {
      if clusters != null {
        FreeStrings(clusters, n, heap);
        heap.Free(clusters);
        clusters := null;
      }
      heap.Free(interfaceUuid);
      interfaceUuid := null;
    }

    /** Quantities, magic number and interface. */
    method ParseHeader(j: Json, parseUuid: string -> Option<int>, heap: Heap)
      returns (res: FpgaResult, id: Option<int>)
      requires interfaceUuid == null && clusters == null
      modifies this, heap
      ensures clusters == null && (interfaceUuid != null ==> fresh(interfaceUuid))
      ensures heap.live == old(heap.live) + Owned(0)
      ensures res == HeaderResult(j, parseUuid, old(heap.calls), heap.mallocOk)
      ensures id.Some? <==> res == Ok
      ensures res == Ok ==>
                && heap.calls == old(heap.calls) + 1
                && interfaceUuid != null && GetString(j, "interface-uuid") == Some(interfaceUuid.text)
                && id == parseUuid(interfaceUuid.text)
                && high == Quantity(j, "clock-frequency-high") && low == Quantity(j, "clock-frequency-low")
                && power == Quantity(j, "power")
    {
      hide Quantity, Strings, GetString, GetInt;
      high := ReadQuantity(j, "clock-frequency-high");
      low := ReadQuantity(j, "clock-frequency-low");
      power := ReadQuantity(j, "power");
      var magic := GetInt(j, "magic-no");
      if magic.None? {
        return Exception, None;
      }
      magicNo := magic.value;
      if magicNo != OPAE_LEGACY_BITSTREAM_MAGIC {
        return Exception, None;
      }
      var uuid := GetString(j, "interface-uuid");
      if uuid.None? {
        return Exception, None;
      }
      interfaceUuid := heap.NewString(uuid.value);
      if interfaceUuid == null {
        return NoMemory, None;
      }
      id := parseUuid(interfaceUuid.text);
      res := if id.Some? then Ok else Exception;
    }

    /** The clusters; n is how many are filled at the end. */
    method ParseList(j: Json, heap: Heap) returns (res: FpgaResult, n: nat)
      requires clusters == null && interfaceUuid != null && interfaceUuid in heap.live
      modifies this`clusters, this`numClusters, heap
      ensures Sound(n) && fresh(Owned(n) - {interfaceUuid}) && heap.live == old(heap.live) + Owned(n)
      ensures res == ListResult(j, old(heap.calls), heap.mallocOk)
      ensures res == Ok ==>
                && Valid() && n == numClusters && ClusterList(j).Some? && numClusters == |ClusterList(j).value|
                && ClustersOk(ClusterList(j).value) && InfosOf(clusters[..]) == ClustersOf(ClusterList(j).value)
                && heap.calls == old(heap.calls) + 1 + 2 * numClusters
    {
      hide Strings, Filled, Carry, ClustersResult, ClustersOf, InfosOf, Named, ClusterList, ClustersOk;
      n := 0;
      var list := ClusterList(j);
      if list.None? {
        return Exception, 0;
      }
      numClusters := |list.value|;
      clusters := heap.NewClusters(numClusters);
      if clusters == null {
        return NoMemory, 0;
      }
      res, n := ParseClusters(list.value, clusters, heap);
      if res == Ok {
        assert clusters[..n] == clusters[..];
        CarriedInfos(clusters[..], list.value);
      }
    }

    /** opae_bitstream_parse_afu_image_v1 */
    method Parse(j: Json, parseUuid: string -> Option<int>, heap: Heap)
      returns (res: FpgaResult, id: Option<int>)
      requires interfaceUuid == null && clusters == null
      modifies this, heap
      ensures res == ImageResult(j, parseUuid, old(heap.calls), heap.mallocOk)
      ensures res != Ok ==> heap.live == old(heap.live) && interfaceUuid == null && clusters == null
      ensures res == Ok ==>
                && ImageOk(j, parseUuid) && Valid() && Info() == ImageOf(j, parseUuid)
                && id == Some(InterfaceOf(j, parseUuid))
                && fresh(Owned(numClusters)) && heap.live == old(heap.live) + Owned(numClusters)
                && numClusters == |ClusterList(j).value| && heap.calls == old(heap.calls) + 2 + 2 * numClusters
    {
      hide Strings, Filled, Named, HeaderResult, ListResult, InfosOf;
      hide ClusterList, ClustersOf, GetString, GetInt, Quantity, ClustersOk;
      hide AfuImage.Valid;
      var n := 0;
      res, id := ParseHeader(j, parseUuid, heap);
      if res == Ok {
        HeaderOk(j, parseUuid, heap.calls - 1, heap.mallocOk);
        res, n := ParseList(j, heap);
      }
      if res != Ok {
        FreeAll(n, heap);
      }
    }
  }

  // ---- the metadata ----

  class MetadataV1 {
    const version: int := 1
    const image: AfuImage
    var platformName: Str?

    constructor ()
      ensures fresh(image) && image.interfaceUuid == null && image.clusters == null && platformName == null
    {
      image := new AfuImage();
      platformName := null;
    }

    ghost predicate Valid()
      reads this, image, image.clusters
    {
      && image.Valid() && this !in image.Owned(image.numClusters)
      && (platformName != null ==> platformName !in image.Owned(image.numClusters))
    }

    /** Every allocation that belongs to the metadata, itself included. */
    ghost function Owned(): set<object>
      requires Valid()
      reads this, image, image.clusters
    {
      {this} + image.Owned(image.numClusters) + (if platformName == null then {} else {platformName})
    }
  }

  /**
   * opae_bitstream_parse_metadata_v1. It returns metadata exactly when the tree is well formed
   * and memory suffices, though the platform name may go missing; otherwise nothing it
   * allocated remains.
   */
  method ParseMetadata(root: Json, parseUuid: string -> Option<int>, heap: Heap)
    returns (md: MetadataV1?, id: Option<int>)
    modifies heap
    ensures md != null <==> Parses(root, parseUuid, old(heap.calls), heap.mallocOk)
    ensures md == null ==> heap.live == old(heap.live)
    ensures md != null ==>
              && md.Valid() && fresh(md) && fresh(md.image) && fresh(md.Owned())
              && heap.live == old(heap.live) + md.Owned()
              && MetadataOk(root, parseUuid) && md.image.Info() == ImageOf(Field(root, "afu-image").value, parseUuid)
              && id == Some(InterfaceOf(Field(root, "afu-image").value, parseUuid))
              && (if GetString(root, "platform-name").Some? && heap.mallocOk(old(heap.calls) + 1)
                  then md.platformName != null && md.platformName.text == GetString(root, "platform-name").value
                  else md.platformName == null)
  {
    hide ImageOk, ImageResult, ImageOf, InterfaceOf, GetString, Parses, AfuImage.Info, AfuImage.Valid, Strings;
    ParsesIff(root, parseUuid, heap.calls, heap.mallocOk);
    heap.calls := heap.calls + 1;
    if !heap.mallocOk(heap.calls - 1) {
      return null, None;
    }
    md := new MetadataV1();
    heap.live := heap.live + {md};
    var name := GetString(root, "platform-name");
    if name.Some? {
      md.platformName := heap.NewString(name.value);
    }
    var image := Field(root, "afu-image");
    var res := Exception;
    id := None;
    if image.Some? {
      res, id := md.image.Parse(image.value, parseUuid, heap);
    }
    if res != Ok {
      heap.Free(md.platformName);
      heap.Free(md);
      return null, id;
    }
  }

  /** opae_bitstream_release_metadata_v1 frees what the parse allocated, each once. */
  method ReleaseMetadata(md: MetadataV1, heap: Heap)
    requires md.Valid() && md.Owned() <= heap.live
    modifies md.image, heap`live
    ensures heap.live == old(heap.live) - old(md.Owned())
  {
    hide Strings, Filled, Named;
    md.image.FreeAll(md.image.numClusters, heap);
    heap.Free(md.platformName);
    heap.Free(md);
  }

  /** Whatever was live before is live after, and nothing else, on every tree and every heap. */
  method ParseAndRelease(root: Json, parseUuid: string -> Option<int>, heap: Heap)
    modifies heap
    ensures heap.live == old(heap.live)
  {
    var md, _ := ParseMetadata(root, parseUuid, heap);
    if md != null {
      ReleaseMetadata(md, heap);
    }
  }
}
