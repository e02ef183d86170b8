/** Version 1 bitstream metadata: which JSON trees parse, and into what. */
module MetadataSpec {
  import opened Results

  datatype Json =
    | Null
    | Bool(flag: bool)
    | Int(number: int)
    | Double(value: real)
    | String(text: string)
    | Array(items: seq<Json>)
    | Object(fields: map<string, Json>)

  const OPAE_LEGACY_BITSTREAM_MAGIC: int := 0x1d1f8680

  // ---- the three getters ----

  function Field(j: Json, name: string): Option<Json> {
    if j.Object? && name in j.fields then Some(j.fields[name]) else None
  }

  /** A C string ends at its first zero byte. */
  function CString(s: string): string {
    if s == "" || s[0] == '\0' then "" else [s[0]] + CString(s[1..])
  }

  /** json-c saturates a 64-bit number when asked for an int. */
  function Saturate(n: int): int {
    if n < -0x8000_0000 then -0x8000_0000 else if 0x7fff_ffff < n then 0x7fff_ffff else n
  }

  function GetString(j: Json, name: string): Option<string> {
    var f := Field(j, name);
    if f.Some? && f.value.String? then Some(CString(f.value.text)) else None
  }

  function GetInt(j: Json, name: string): Option<int> {
    var f := Field(j, name);
    if f.Some? && f.value.Int? then Some(Saturate(f.value.number)) else None
  }

  function GetDouble(j: Json, name: string): Option<real> {
    var f := Field(j, name);
    if f.Some? && f.value.Double? then Some(f.value.value) else None
  }

  /** An optional quantity, written as either kind of number. */
  function Quantity(j: Json, name: string): real {
    if GetDouble(j, name).Some? then GetDouble(j, name).value
    else if GetInt(j, name).Some? then GetInt(j, name).value as real
    else 0.0
  }

  // ---- what a parse yields ----

  datatype ClusterInfo = ClusterInfo(totalContexts: int, name: string, uuid: string)

  datatype ImageInfo = ImageInfo(
    high: real, low: real, power: real, interfaceUuid: string, clusters: seq<ClusterInfo>)

  predicate ClusterOk(j: Json) {
    GetInt(j, "total-contexts").Some? && GetString(j, "name").Some? && GetString(j, "accelerator-type-uuid").Some?
  }

  function ClusterOf(j: Json): ClusterInfo
    requires ClusterOk(j)
  {
    ClusterInfo(GetInt(j, "total-contexts").value, GetString(j, "name").value,
                GetString(j, "accelerator-type-uuid").value)
  }

  predicate ClustersOk(js: seq<Json>) {
    forall i :: 0 <= i < |js| ==> ClusterOk(js[i])
  }

  function ClustersOf(js: seq<Json>): seq<ClusterInfo>
    requires ClustersOk(js)
  {
    seq(|js|, i requires 0 <= i < |js| => ClusterOf(js[i]))
  }

  /** The clusters of an image, if they are a list. */
  function ClusterList(j: Json): Option<seq<Json>> {
    var f := Field(j, "accelerator-clusters");
    if f.Some? && f.value.Array? then Some(f.value.items) else None
  }

  predicate ImageOk(j: Json, parseUuid: string -> Option<int>) {
    && GetInt(j, "magic-no") == Some(OPAE_LEGACY_BITSTREAM_MAGIC)
    && GetString(j, "interface-uuid").Some? && parseUuid(GetString(j, "interface-uuid").value).Some?
    && ClusterList(j).Some? && ClustersOk(ClusterList(j).value)
  }

  function ImageOf(j: Json, parseUuid: string -> Option<int>): ImageInfo
    requires ImageOk(j, parseUuid)
  {
    ImageInfo(Quantity(j, "clock-frequency-high"), Quantity(j, "clock-frequency-low"), Quantity(j, "power"),
              GetString(j, "interface-uuid").value, ClustersOf(ClusterList(j).value))
  }

  /** The interface id, as uuid_parse reads it. */
  function InterfaceOf(j: Json, parseUuid: string -> Option<int>): int
    requires ImageOk(j, parseUuid)
  {
    parseUuid(GetString(j, "interface-uuid").value).value
  }

  predicate MetadataOk(root: Json, parseUuid: string -> Option<int>) {
    Field(root, "afu-image").Some? && ImageOk(Field(root, "afu-image").value, parseUuid)
  }

  // ---- what a parse returns, malloc refusing some of its calls ----

  function ClusterResult(j: Json, m: nat, mallocOk: nat -> bool): FpgaResult {
    if GetInt(j, "total-contexts").None? || GetString(j, "name").None? then Exception
    else if !mallocOk(m) then NoMemory
    else if GetString(j, "accelerator-type-uuid").None? then Exception
    else if !mallocOk(m + 1) then NoMemory
    else Ok
  }

  function ClustersResult(js: seq<Json>, m: nat, mallocOk: nat -> bool): FpgaResult {
    if js == [] then Ok
    else if ClusterResult(js[0], m, mallocOk) != Ok then ClusterResult(js[0], m, mallocOk)
    else ClustersResult(js[1..], m + 2, mallocOk)
  }

  function HeaderResult(j: Json, parseUuid: string -> Option<int>, m: nat, mallocOk: nat -> bool): FpgaResult {
    if GetInt(j, "magic-no") != Some(OPAE_LEGACY_BITSTREAM_MAGIC) || GetString(j, "interface-uuid").None? then Exception
    else if !mallocOk(m) then NoMemory
    else if !parseUuid(GetString(j, "interface-uuid").value).Some? then Exception
    else Ok
  }

  lemma HeaderOk(j: Json, parseUuid: string -> Option<int>, m: nat, mallocOk: nat -> bool)
    requires HeaderResult(j, parseUuid, m, mallocOk) == Ok
    ensures GetInt(j, "magic-no") == Some(OPAE_LEGACY_BITSTREAM_MAGIC)
    ensures GetString(j, "interface-uuid").Some? && parseUuid(GetString(j, "interface-uuid").value).Some?
  {
  }

  function ListResult(j: Json, m: nat, mallocOk: nat -> bool): FpgaResult {
    if ClusterList(j).None? then Exception
    else if !mallocOk(m) then NoMemory
    else ClustersResult(ClusterList(j).value, m + 1, mallocOk)
  }

  function ImageResult(j: Json, parseUuid: string -> Option<int>, m: nat, mallocOk: nat -> bool): FpgaResult {
    var header := HeaderResult(j, parseUuid, m, mallocOk);
    if header != Ok then header else ListResult(j, m + 1, mallocOk)
  }

  lemma {:induction false} ClustersResultOk(js: seq<Json>, m: nat, mallocOk: nat -> bool)
    ensures ClustersResult(js, m, mallocOk) == Ok <==> ClustersOk(js) && Granted(mallocOk, m, 2 * |js|)
  {
    if js != [] {
      ClustersResultOk(js[1..], m + 2, mallocOk);
      if ClustersOk(js[1..]) && ClusterOk(js[0]) {
        forall i | 0 <= i < |js|
          ensures ClusterOk(js[i])
        {
          if i > 0 {
            assert js[i] == js[1..][i - 1];
          }
        }
      }
    }
  }

  /**
   * An image parses exactly when the tree is well formed and every malloc that its strings
   * and clusters need is granted: two, and two more for each cluster.
   */
  lemma ImageParsesIff(j: Json, parseUuid: string -> Option<int>, m: nat, mallocOk: nat -> bool)
    ensures ImageResult(j, parseUuid, m, mallocOk) == Ok <==>
            ImageOk(j, parseUuid) && Granted(mallocOk, m, 2 + 2 * |ClusterList(j).value|)
  {
    if ClusterList(j).Some? {
      ClustersResultOk(ClusterList(j).value, m + 2, mallocOk);
    }
  }

  /** How many of the malloc calls go to the metadata and its platform name. */
  function Preamble(root: Json): nat {
    if GetString(root, "platform-name").Some? then 2 else 1
  }

  /** The tree is well formed, and memory suffices for all but the platform name. */
  predicate Parses(root: Json, parseUuid: string -> Option<int>, m: nat, mallocOk: nat -> bool) {
    && MetadataOk(root, parseUuid) && mallocOk(m)
    && Granted(mallocOk, m + Preamble(root), 2 + 2 * |ClusterList(Field(root, "afu-image").value).value|)
  }

  lemma ParsesIff(root: Json, parseUuid: string -> Option<int>, m: nat, mallocOk: nat -> bool)
    ensures Parses(root, parseUuid, m, mallocOk) <==>
            && mallocOk(m) && Field(root, "afu-image").Some?
            && ImageResult(Field(root, "afu-image").value, parseUuid, m + Preamble(root), mallocOk) == Ok
  {
    if Field(root, "afu-image").Some? {
      ImageParsesIff(Field(root, "afu-image").value, parseUuid, m + Preamble(root), mallocOk);
    }
  }
}
