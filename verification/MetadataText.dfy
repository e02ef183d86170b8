/** Writing metadata as JSON, and reading back what was written. */
module MetadataText {
  import opened Results
  import opened MetadataSpec

  /** How an optional number may be written, or not. */
  datatype Number = Fraction(x: real) | Whole(n: int) | Missing | NoNumber(other: Json)

  datatype ImageText = ImageText(
    high: Number, low: Number, power: Number, interfaceUuid: string, clusters: seq<ClusterInfo>)

  // ---- writing ----

  function Put(fields: map<string, Json>, name: string, number: Number): map<string, Json> {
    match number
    case Fraction(x) => fields[name := Double(x)]
    case Whole(n) => fields[name := Int(n)]
    case Missing => fields
    case NoNumber(other) => fields[name := other]
  }

  function WriteCluster(c: ClusterInfo): Json {
    Object(map["total-contexts" := Int(c.totalContexts), "name" := String(c.name),
               "accelerator-type-uuid" := String(c.uuid)])
  }

  function WriteClusters(cs: seq<ClusterInfo>): seq<Json> {
    seq(|cs|, i requires 0 <= i < |cs| => WriteCluster(cs[i]))
  }

  function WriteImage(t: ImageText): Json {
    var required := map["magic-no" := Int(0x1d1f8680), "interface-uuid" := String(t.interfaceUuid),
                        "accelerator-clusters" := Array(WriteClusters(t.clusters))];
    Object(Put(Put(Put(required, "clock-frequency-high", t.high), "clock-frequency-low", t.low), "power", t.power))
  }

  function WriteMetadata(t: ImageText, platformName: Option<string>): Json {
    var fields := map["version" := Int(1), "afu-image" := WriteImage(t)];
    Object(if platformName.Some? then fields["platform-name" := String(platformName.value)] else fields)
  }

  // ---- what can be read back ----

  predicate InRange(n: int) {
    -0x8000_0000 <= n <= 0x7fff_ffff
  }

  predicate Writable(t: ImageText) {
    && NumberFits(t.high) && NumberFits(t.low) && NumberFits(t.power)
    && '\0' !in t.interfaceUuid
    && forall i :: 0 <= i < |t.clusters| ==> ClusterFits(t.clusters[i])
  }

  predicate NumberFits(number: Number) {
    && (number.Whole? ==> InRange(number.n))
    && (number.NoNumber? ==> !number.other.Int? && !number.other.Double?)
  }

  predicate ClusterFits(c: ClusterInfo) {
    InRange(c.totalContexts) && '\0' !in c.name && '\0' !in c.uuid
  }

  function ValueOf(number: Number): real {
    match number
    case Fraction(x) => x
    case Whole(n) => n as real
    case _ => 0.0
  }

  // ---- strings and numbers ----

  /** s is what comes before the first zero byte of text, or all of it if there is none. */
  predicate ReadsAs(text: string, s: string) {
    '\0' !in s && s <= text && (|s| < |text| ==> text[|s|] == '\0')
  }

  lemma {:induction false} CStringReads(text: string)
    ensures ReadsAs(text, CString(text))
  {
    if text != "" && text[0] != '\0' {
      CStringReads(text[1..]);
      assert text == [text[0]] + text[1..];
    }
  }

  lemma NotLonger(text: string, s: string, c: string)
    requires ReadsAs(text, s) && ReadsAs(text, c)
    ensures |s| <= |c|
  {
    forall k | 0 <= k < |s|
      ensures text[k] != '\0'
    {
      assert s[k] in s && text[k] == s[k];
    }
  }

  /** What a C program reads is determined by that. */
  lemma CStringIff(text: string, s: string)
    ensures CString(text) == s <==> ReadsAs(text, s)
  {
    CStringReads(text);
    if ReadsAs(text, s) {
      NotLonger(text, s, CString(text));
      NotLonger(text, CString(text), s);
      assert s == text[..|s|] == CString(text);
    }
  }

  /** An int that fits is read as it is, and any other as the end of the range that is nearest. */
  lemma SaturateNearest(n: int)
    ensures InRange(Saturate(n))
    ensures InRange(n) ==> Saturate(n) == n
    ensures forall k :: InRange(k) ==> (n <= k ==> Saturate(n) <= k) && (k <= n ==> k <= Saturate(n))
  {
  }

  lemma QuantityPut(j: Json, name: string, number: Number)
    requires j.Object? && NumberFits(number)
    requires match number
             case Fraction(x) => Field(j, name) == Some(Double(x))
             case Whole(n) => Field(j, name) == Some(Int(n))
             case Missing => Field(j, name) == None
             case NoNumber(other) => Field(j, name) == Some(other)
    ensures Quantity(j, name) == ValueOf(number)
  {
  }

  lemma ClusterRoundTrip(c: ClusterInfo)
    requires ClusterFits(c)
    ensures ClusterOk(WriteCluster(c)) && ClusterOf(WriteCluster(c)) == c
  {
    CStringIff(c.name, c.name);
    CStringIff(c.uuid, c.uuid);
  }

  lemma FieldsOfImage(t: ImageText)
    ensures var j := WriteImage(t);
            && Field(j, "magic-no") == Some(Int(0x1d1f8680))
            && Field(j, "interface-uuid") == Some(String(t.interfaceUuid))
            && Field(j, "accelerator-clusters") == Some(Array(WriteClusters(t.clusters)))
  {
    hide WriteClusters, Put;
    DistinctKeys();
    var required := map["magic-no" := Int(0x1d1f8680), "interface-uuid" := String(t.interfaceUuid),
                        "accelerator-clusters" := Array(WriteClusters(t.clusters))];
    var high := Put(required, "clock-frequency-high", t.high);
    var low := Put(high, "clock-frequency-low", t.low);
    forall key | key in required
      ensures key in Put(low, "power", t.power) && Put(low, "power", t.power)[key] == required[key]
    {
      PutKeeps(required, "clock-frequency-high", t.high, key);
      PutKeeps(high, "clock-frequency-low", t.low, key);
      PutKeeps(low, "power", t.power, key);
    }
  }

  lemma PutKeeps(fields: map<string, Json>, name: string, number: Number, key: string)
    requires key in fields && key != name
    ensures key in Put(fields, name, number) && Put(fields, name, number)[key] == fields[key]
  {
  }

  /** No two of the names of an image are the same; most differ in length. */
  lemma DistinctKeys()
    ensures "clock-frequency-high" != "accelerator-clusters"
    ensures "clock-frequency-low" != "clock-frequency-high"
  {
    assert "clock-frequency-high"[0] == 'c' && "accelerator-clusters"[0] == 'a';
    assert |"clock-frequency-low"| != |"clock-frequency-high"|;
  }

  // ---- round trips ----

  /**
   * Reading a written image gives back exactly what was written: the three quantities in
   * either notation and 0 without one, the interface, and each cluster with its number of
   * contexts, its name and its id. It parses whenever the interface is a uuid.
   */
  lemma ImageRoundTrip(t: ImageText, parseUuid: string -> Option<int>)
    requires Writable(t)
    ensures ImageOk(WriteImage(t), parseUuid) <==> parseUuid(t.interfaceUuid).Some?
    ensures ImageOk(WriteImage(t), parseUuid) ==>
              && ImageOf(WriteImage(t), parseUuid) ==
                 ImageInfo(ValueOf(t.high), ValueOf(t.low), ValueOf(t.power), t.interfaceUuid, t.clusters)
              && Some(InterfaceOf(WriteImage(t), parseUuid)) == parseUuid(t.interfaceUuid)
  {
    hide ClusterOk, ClusterOf, WriteCluster, Quantity, CString, WriteImage;
    var j := WriteImage(t);
    FieldsOfImage(t);
    CStringIff(t.interfaceUuid, t.interfaceUuid);
    ClustersRoundTrip(t.clusters);
    QuantitiesRoundTrip(t);
  }

  lemma ClustersRoundTrip(cs: seq<ClusterInfo>)
    requires forall i :: 0 <= i < |cs| ==> ClusterFits(cs[i])
    ensures ClustersOk(WriteClusters(cs)) && ClustersOf(WriteClusters(cs)) == cs
  {
    hide ClusterOk, ClusterOf, WriteCluster, ClusterFits;
    forall i | 0 <= i < |cs|
      ensures ClusterOk(WriteClusters(cs)[i]) && ClusterOf(WriteClusters(cs)[i]) == cs[i]
    {
      ClusterRoundTrip(cs[i]);
    }
  }

  lemma QuantitiesRoundTrip(t: ImageText)
    requires Writable(t)
    ensures var j := WriteImage(t);
            && Quantity(j, "clock-frequency-high") == ValueOf(t.high)
            && Quantity(j, "clock-frequency-low") == ValueOf(t.low)
            && Quantity(j, "power") == ValueOf(t.power)
  {
    hide Quantity, WriteClusters, ValueOf;
    DistinctKeys();
    var j := WriteImage(t);
    QuantityPut(j, "clock-frequency-high", t.high);
    QuantityPut(j, "clock-frequency-low", t.low);
    QuantityPut(j, "power", t.power);
  }

  /**
   * The same for whole metadata. It parses exactly when the interface is a uuid and memory
   * suffices: for the metadata, the interface, the array and two strings of each cluster; the
   * call for a platform name stands behind the first and may be refused.
   */
  lemma MetadataRoundTrip(
      t: ImageText, platformName: Option<string>, parseUuid: string -> Option<int>, m: nat, mallocOk: nat -> bool)
    requires Writable(t) && (platformName.Some? ==> '\0' !in platformName.value)
    ensures var root := WriteMetadata(t, platformName);
            && (Parses(root, parseUuid, m, mallocOk) <==>
                  && parseUuid(t.interfaceUuid).Some? && mallocOk(m)
                  && Granted(mallocOk, if platformName.Some? then m + 2 else m + 1, 2 + 2 * |t.clusters|))
            && (Parses(root, parseUuid, m, mallocOk) ==>
                  ImageOf(Field(root, "afu-image").value, parseUuid) ==
                  ImageInfo(ValueOf(t.high), ValueOf(t.low), ValueOf(t.power), t.interfaceUuid, t.clusters))
            && GetString(root, "platform-name") == platformName
  {
    hide ImageOk, ImageOf, WriteImage, CString, ValueOf, Writable, WriteClusters, Granted;
    ImageRoundTrip(t, parseUuid);
    FieldsOfImage(t);
    assert |WriteClusters(t.clusters)| == |t.clusters| by {
      AsManyClusters(t.clusters);
    }
    if platformName.Some? {
      CStringIff(platformName.value, platformName.value);
    }
  }

  lemma AsManyClusters(cs: seq<ClusterInfo>)
    ensures |WriteClusters(cs)| == |cs|
  {
  }

  // ---- what does not parse ----

  predicate HasInt(j: Json, name: string) {
    j.Object? && name in j.fields && j.fields[name].Int?
  }

  predicate HasString(j: Json, name: string) {
    j.Object? && name in j.fields && j.fields[name].String?
  }

  predicate ClusterComplete(j: Json) {
    HasInt(j, "total-contexts") && HasString(j, "name") && HasString(j, "accelerator-type-uuid")
  }

  /**
   * Any tree: it parses exactly when it is an object with the magic number, an interface
   * whose text up to the first zero byte is a uuid, and a list of complete clusters.
   */
  lemma ImageOkIff(j: Json, parseUuid: string -> Option<int>)
    ensures ImageOk(j, parseUuid) <==>
            && HasInt(j, "magic-no") && j.fields["magic-no"].number == 0x1d1f8680
            && HasString(j, "interface-uuid")
            && (exists s :: ReadsAs(j.fields["interface-uuid"].text, s) && parseUuid(s).Some?)
            && "accelerator-clusters" in j.fields && j.fields["accelerator-clusters"].Array?
            && forall i :: 0 <= i < |j.fields["accelerator-clusters"].items| ==>
                 ClusterComplete(j.fields["accelerator-clusters"].items[i])
  {
    if HasString(j, "interface-uuid") {
      var text := j.fields["interface-uuid"].text;
      CStringReads(text);
      forall s | ReadsAs(text, s)
        ensures s == CString(text)
      {
        CStringIff(text, s);
      }
    }
    forall c: Json
      ensures ClusterOk(c) <==> ClusterComplete(c)
    {
    }
  }
}
