/** The GCE Persistent Disk translator (plugins/gce_pd.go). */
module GcePd {
  import opened Wrappers
  import opened Strconv
  import opened VolumeId
  import opened Api

  const GcePdDriverName: string := "com.google.csi.gcepd"
  const PartitionKey: string := "partition"

  /** The spec has a persistent volume whose source is a GCE PD. */
  predicate HasPvGcePd(spec: Spec) {
    spec.persistentVolume.Some? && spec.persistentVolume.value.gcePersistentDisk.Some?
  }

  /** The spec has an inline volume whose source is a GCE PD. */
  predicate HasInlineGcePd(spec: Spec) {
    spec.volume.Some? && spec.volume.value.gcePersistentDisk.Some?
  }

  /** Whether this plugin handles the spec; never fails, reads only its argument. */
  function CanSupport(spec: Spec): (b: bool)
    ensures b <==> HasPvGcePd(spec) || HasInlineGcePd(spec)
  {
    (spec.persistentVolume.Some? && spec.persistentVolume.value.gcePersistentDisk.Some?)
      || (spec.volume.Some? && spec.volume.value.gcePersistentDisk.Some?)
  }

  /** In-tree spec to CSI source; only persistent-volume GCE PDs translate. */
  function TranslateToCsi(spec: Spec): (r: Result<CsiSource, TranslationError>)
    ensures r.Ok? <==> HasPvGcePd(spec)
    ensures r.Ok? ==>
      var disk := spec.persistentVolume.value.gcePersistentDisk.value;
      && r.value.driver == GcePdDriverName
      && r.value.volumeHandle == GenerateUnderspecifiedVolumeId(disk.pdName, true)
      && r.value.readOnly == disk.readOnly
      && r.value.fsType == disk.fsType
      && r.value.volumeAttributes.Keys == {PartitionKey}
      && r.value.volumeAttributes[PartitionKey] == FormatInt(disk.partition)
    ensures !HasPvGcePd(spec) && HasInlineGcePd(spec) ==> r == Err(InlineNotSupported)
    ensures !HasPvGcePd(spec) && !HasInlineGcePd(spec) ==> r == Err(NotGcePdVolume(spec))
  {
    if spec.persistentVolume.Some? && spec.persistentVolume.value.gcePersistentDisk.Some? then
      var pdSource := spec.persistentVolume.value.gcePersistentDisk.value;
      Ok(CsiSource(
        GcePdDriverName,
        GenerateUnderspecifiedVolumeId(pdSource.pdName, true),
        pdSource.readOnly,
        pdSource.fsType,
        map[PartitionKey := FormatInt(pdSource.partition)]))
    else if spec.volume.Some? && spec.volume.value.gcePersistentDisk.Some? then
      Err(InlineNotSupported)
    else
      Err(NotGcePdVolume(spec))
  }

  /**
   * CSI source to in-tree spec: decode the handle, copy ReadOnly and FSType,
   * and parse the partition attribute when present (absent leaves 0). The
   * parsed int is narrowed with Go's int32(...) conversion.
   */
  function TranslateToInTree(source: CsiSource): (r: Result<Spec, TranslationError>)
    ensures VolumeIdToKey(source.volumeHandle).Err? ==> r == Err(BadVolumeHandle(source.volumeHandle))
    ensures VolumeIdToKey(source.volumeHandle).Ok? && PartitionKey in source.volumeAttributes
      && Atoi(source.volumeAttributes[PartitionKey]).None?
      ==> r == Err(BadPartition(source.volumeAttributes[PartitionKey]))
    ensures r.Ok? <==> (
      && VolumeIdToKey(source.volumeHandle).Ok?
      && (PartitionKey in source.volumeAttributes ==> Atoi(source.volumeAttributes[PartitionKey]).Some?))
    ensures r.Ok? ==>
      && r.value.volume.None?
      && HasPvGcePd(r.value)
      && var disk := r.value.persistentVolume.value.gcePersistentDisk.value;
      && disk.pdName == VolumeIdToKey(source.volumeHandle).value.name
      && disk.fsType == source.fsType
      && disk.readOnly == source.readOnly
      && disk.partition == (if PartitionKey in source.volumeAttributes
                            then WrapInt32(Atoi(source.volumeAttributes[PartitionKey]).value)
                            else 0)
  {
    match VolumeIdToKey(source.volumeHandle)
    case Err(_) => Err(BadVolumeHandle(source.volumeHandle))
    case Ok(key) =>
      var disk := GcePersistentDisk(key.name, source.fsType, 0, source.readOnly);
      if PartitionKey in source.volumeAttributes then
        var partition := source.volumeAttributes[PartitionKey];
        match Atoi(partition)
        case None => Err(BadPartition(partition))
        case Some(partInt) => Ok(PvSpec(disk.(partition := WrapInt32(partInt))))
      else
        Ok(PvSpec(disk))
  }

  /** CanSupport holds exactly when the forward translation does not reject the spec's shape. */
  lemma CanSupportIffShapeAccepted(spec: Spec)
    ensures CanSupport(spec) <==> TranslateToCsi(spec) != Err(NotGcePdVolume(spec))
  {
  }

  /** The forward handle is always of the zonal form, whatever the disk name. */
  lemma ForwardHandleNeverRegional(spec: Spec)
    requires HasPvGcePd(spec)
    ensures var parts := Split(TranslateToCsi(spec).value.volumeHandle);
      |parts| >= SegmentCount && parts[2] == "zones"
  {
    var name := spec.persistentVolume.value.gcePersistentDisk.value.pdName;
    SplitJoin(HandleSegments(name, true));
  }

  /** For a slash-free disk name, the forward handle decodes to that name in an unspecified zone. */
  lemma ForwardHandleDecodes(spec: Spec)
    requires HasPvGcePd(spec)
    requires '/' !in spec.persistentVolume.value.gcePersistentDisk.value.pdName
    ensures VolumeIdToKey(TranslateToCsi(spec).value.volumeHandle)
      == Ok(Key(spec.persistentVolume.value.gcePersistentDisk.value.pdName, Zone(Unspecified)))
  {
    GenerateThenDecode(spec.persistentVolume.value.gcePersistentDisk.value.pdName, true);
  }

  /** The partition attribute is the canonical base-10 text of the partition and parses back to it. */
  lemma ForwardPartitionParses(spec: Spec)
    requires HasPvGcePd(spec)
    ensures var text := TranslateToCsi(spec).value.volumeAttributes[PartitionKey];
      var p := spec.persistentVolume.value.gcePersistentDisk.value.partition;
      Canonical(text) && Atoi(text) == Some(p) && WrapInt32(p) == p
  {
    var p := spec.persistentVolume.value.gcePersistentDisk.value.partition;
    FormatIntRoundTrip(p);
  }

  /**
   * Round trip in-tree -> CSI -> in-tree: a spec with a persistent-volume GCE
   * PD whose name is slash-free comes back as that disk, field for field.
   * (An inline volume that sat beside it is not carried over.)
   */
  lemma RoundTrip(spec: Spec)
    requires HasPvGcePd(spec)
    requires '/' !in spec.persistentVolume.value.gcePersistentDisk.value.pdName
    ensures TranslateToInTree(TranslateToCsi(spec).value)
      == Ok(PvSpec(spec.persistentVolume.value.gcePersistentDisk.value))
  {
    ForwardHandleDecodes(spec);
    ForwardPartitionParses(spec);
  }

  /** The round trip of RoundTrip fails, at the handle, exactly for disk names holding a '/'. */
  lemma RoundTripFailsOnSlash(spec: Spec)
    requires HasPvGcePd(spec)
    requires '/' in spec.persistentVolume.value.gcePersistentDisk.value.pdName
    ensures var csi := TranslateToCsi(spec).value;
      TranslateToInTree(csi) == Err(BadVolumeHandle(csi.volumeHandle))
  {
    GenerateWithSlashFails(spec.persistentVolume.value.gcePersistentDisk.value.pdName, true);
  }

  /**
   * Round trip CSI -> in-tree -> CSI, for a source of the shape the forward
   * direction produces: this driver, a zonal underspecified handle of a
   * slash-free name, and a canonical int32 partition as the only attribute.
   */
  lemma CsiRoundTrip(source: CsiSource, name: string, partition: string)
    requires source.driver == GcePdDriverName
    requires '/' !in name && source.volumeHandle == GenerateUnderspecifiedVolumeId(name, true)
    requires Canonical(partition) && Atoi(partition).Some?
    requires MinInt32 <= Atoi(partition).value <= MaxInt32
    requires source.volumeAttributes == map[PartitionKey := partition]
    ensures TranslateToInTree(source).Ok?
    ensures TranslateToCsi(TranslateToInTree(source).value) == Ok(source)
  {
    GenerateThenDecode(name, true);
    AtoiCanonicalRoundTrip(partition);
  }

  /** A partition attribute outside int32 is narrowed as Go's int32(...) does, not rejected. */
  lemma PartitionNarrowed(source: CsiSource, v: int)
    requires VolumeIdToKey(source.volumeHandle).Ok?
    requires MinInt64 <= v <= MaxInt64
    requires PartitionKey in source.volumeAttributes && source.volumeAttributes[PartitionKey] == FormatInt(v)
    ensures TranslateToInTree(source).Ok?
    ensures TranslateToInTree(source).value.persistentVolume.value.gcePersistentDisk.value.partition == WrapInt32(v)
  {
    FormatIntRoundTrip(v);
  }

  /** Reverse translation with no partition attribute: partition 0, and the handle's name. */
  lemma AbsentPartitionIsZero(source: CsiSource)
    requires VolumeIdToKey(source.volumeHandle).Ok?
    requires PartitionKey !in source.volumeAttributes
    ensures TranslateToInTree(source)
      == Ok(PvSpec(GcePersistentDisk(VolumeIdToKey(source.volumeHandle).value.name, source.fsType, 0, source.readOnly)))
  {
  }

  /** A non-numeric partition ("abc") on an otherwise valid source fails with no spec. */
  lemma NonNumericPartitionFails(source: CsiSource)
    requires source.volumeHandle == GenerateUnderspecifiedVolumeId("test-disk", true)
    requires source.volumeAttributes == map[PartitionKey := "abc"]
    ensures TranslateToInTree(source) == Err(BadPartition("abc"))
  {
    GenerateThenDecode("test-disk", true);
    AtoiRejectsNonDigit("abc", 0);
  }

  /** A handle that is not a path fails to decode, before any field is looked at. */
  lemma MalformedHandleFails(source: CsiSource)
    requires source.volumeHandle == "not-a-valid-path"
    ensures TranslateToInTree(source) == Err(BadVolumeHandle("not-a-valid-path"))
  {
    SplitNoSlash("not-a-valid-path");
  }

  /** An inline-only GCE PD gets the "not yet supported" error, not the shape error. */
  lemma InlineOnlyNotSupported(disk: GcePersistentDisk)
    ensures var spec := Spec(None, Some(VolumeSource(Some(disk))));
      CanSupport(spec)
      && TranslateToCsi(spec) == Err(InlineNotSupported)
      && TranslateToCsi(spec) != Err(NotGcePdVolume(spec))
  {
  }
}
