/**
 * The fields of the Kubernetes volume API records that the translator reads
 * or writes. A nil pointer field is None; the spec or source passed to a
 * translation is a value and is never nil. `volume.Spec` is the one descriptor the
 * plugin and the registry pass around in both directions: it carries an
 * optional persistent-volume source and an optional inline volume source,
 * each with an optional GCE PD sub-record.
 */
module Api {
  import opened Wrappers
  import opened Strconv

  /** `v1.GCEPersistentDiskVolumeSource`. */
  datatype GcePersistentDisk = GcePersistentDisk(pdName: string, fsType: string, partition: Int32, readOnly: bool)

  /** `v1.PersistentVolumeSource` (of `PersistentVolume.Spec`), its GCE PD field only. */
  datatype PersistentVolumeSource = PersistentVolumeSource(gcePersistentDisk: Option<GcePersistentDisk>)

  /** `v1.Volume` (an inline volume), its GCE PD field only. */
  datatype VolumeSource = VolumeSource(gcePersistentDisk: Option<GcePersistentDisk>)

  /** `volume.Spec`. */
  datatype Spec = Spec(persistentVolume: Option<PersistentVolumeSource>, volume: Option<VolumeSource>)

  /** `v1.CSIPersistentVolumeSource`. */
  datatype CsiSource = CsiSource(
    driver: string,
    volumeHandle: string,
    readOnly: bool,
    fsType: string,
    volumeAttributes: map<string, string>)

  /** The translation errors, one per distinct error return; message text is not modelled. */
  datatype TranslationError =
    | InlineNotSupported
    | NotGcePdVolume(spec: Spec)
    | BadVolumeHandle(handle: string)
    | BadPartition(raw: string)
    | NoPluginForSpec(spec: Spec)
    | NoPluginForDriver(driver: string)

  /** A spec holding exactly one persistent-volume GCE PD and nothing else. */
  function PvSpec(disk: GcePersistentDisk): (spec: Spec) {
    Spec(Some(PersistentVolumeSource(Some(disk))), None)
  }
}
