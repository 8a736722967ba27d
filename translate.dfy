/**
 * The translation registry (translate.go): a read-only table of in-tree
 * plugins keyed by CSI driver name, a forward dispatcher that picks a plugin
 * by capability and a reverse dispatcher that picks one by driver name.
 * Go iterates its map in no fixed order; the table here is a sequence with
 * distinct keys and every property is stated without reference to order.
 */
module Translate {
  import opened Wrappers
  import opened VolumeId
  import opened Api
  import opened Plugins
  import GcePd

  type Registry = seq<(string, InTreePlugin)>

  /** The registry, fixed at initialisation: one entry, the GCE PD plugin under its driver name. */
  const InTreePlugins: Registry := [(GcePd.GcePdDriverName, GcePdPlugin)]

  predicate DistinctKeys(table: Registry) {
    forall i, j | 0 <= i < j < |table| :: table[i].0 != table[j].0
  }

  predicate Registered(table: Registry, driver: string) {
    exists i | 0 <= i < |table| :: table[i].0 == driver
  }

  /** A registered plugin that supports the spec, if any. */
  function FindSupporting(table: Registry, spec: Spec): (r: Option<InTreePlugin>)
    ensures r.Some? ==> exists i | 0 <= i < |table| :: table[i].1 == r.value && r.value.CanSupport(spec)
    ensures r.None? <==> forall i | 0 <= i < |table| :: !table[i].1.CanSupport(spec)
  {
    if table == [] then None
    else if table[0].1.CanSupport(spec) then Some(table[0].1)
    else FindSupporting(table[1..], spec)
  }

  /** The plugin registered under exactly the given driver name, if any. */
  function FindByName(table: Registry, driver: string): (r: Option<InTreePlugin>)
    ensures r.Some? ==> exists i | 0 <= i < |table| :: table[i] == (driver, r.value)
    ensures r.None? <==> !Registered(table, driver)
  {
    if table == [] then None
    else if table[0].0 == driver then Some(table[0].1)
    else FindByName(table[1..], driver)
  }

  /** With distinct keys, the name lookup finds the one entry under that name, wherever it sits. */
  lemma FindByNameUnique(table: Registry, i: nat)
    requires DistinctKeys(table) && i < |table|
    ensures FindByName(table, table[i].0) == Some(table[i].1)
  {
  }

  /** In-tree spec to CSI source, through a registered plugin that supports it. */
  function TranslateToCsi(spec: Spec): (r: Result<CsiSource, TranslationError>)
    ensures r != Err(NoPluginForSpec(spec)) <==>
      exists i | 0 <= i < |InTreePlugins| :: InTreePlugins[i].1.CanSupport(spec)
    ensures r != Err(NoPluginForSpec(spec)) ==>
      exists i | 0 <= i < |InTreePlugins| ::
        InTreePlugins[i].1.CanSupport(spec) && r == InTreePlugins[i].1.TranslateToCsi(spec)
  {
    match FindSupporting(InTreePlugins, spec)
    case None => Err(NoPluginForSpec(spec))
    case Some(plugin) => plugin.TranslateToCsi(spec)
  }

  /** CSI source to in-tree spec, through the plugin registered under the source's driver name. */
  function TranslateToInTree(source: CsiSource): (r: Result<Spec, TranslationError>)
    ensures r == Err(NoPluginForDriver(source.driver)) <==> !Registered(InTreePlugins, source.driver)
    ensures Registered(InTreePlugins, source.driver) ==>
      exists i | 0 <= i < |InTreePlugins| ::
        InTreePlugins[i].0 == source.driver && r == InTreePlugins[i].1.TranslateToInTree(source)
  {
    match FindByName(InTreePlugins, source.driver)
    case None => Err(NoPluginForDriver(source.driver))
    case Some(plugin) => plugin.TranslateToInTree(source)
  }

  /** The registry has exactly one entry, keyed by the GCE PD driver name. */
  lemma RegistryContents()
    ensures DistinctKeys(InTreePlugins)
    ensures forall driver :: Registered(InTreePlugins, driver) <==> driver == GcePd.GcePdDriverName
    ensures FindByName(InTreePlugins, GcePd.GcePdDriverName) == Some(GcePdPlugin)
  {
    FindByNameUnique(InTreePlugins, 0);
  }

  /** The forward dispatcher never reports the plugin's shape error: it only calls plugins that support the spec. */
  lemma NoShapeErrorFromRegistry(spec: Spec)
    ensures TranslateToCsi(spec) != Err(NotGcePdVolume(spec))
    ensures !GcePd.CanSupport(spec) ==> TranslateToCsi(spec) == Err(NoPluginForSpec(spec))
  {
  }

  /** The driver named by a forward translation is a registry key that routes back to the same plugin. */
  lemma ForwardDriverRoutesBack(spec: Spec)
    requires TranslateToCsi(spec).Ok?
    ensures Registered(InTreePlugins, TranslateToCsi(spec).value.driver)
    ensures FindByName(InTreePlugins, TranslateToCsi(spec).value.driver) == FindSupporting(InTreePlugins, spec)
  {
  }

  /** An unregistered driver name fails with the lookup error whatever the rest of the source holds. */
  lemma UnregisteredDriverFails(source: CsiSource)
    requires source.driver != GcePd.GcePdDriverName
    ensures TranslateToInTree(source) == Err(NoPluginForDriver(source.driver))
  {
  }

  /**
   * Round trip through both dispatchers: a spec holding a persistent-volume
   * GCE PD with a slash-free name comes back as that disk.
   */
  lemma RoundTrip(spec: Spec)
    requires GcePd.HasPvGcePd(spec)
    requires '/' !in spec.persistentVolume.value.gcePersistentDisk.value.pdName
    ensures TranslateToCsi(spec).Ok?
    ensures TranslateToInTree(TranslateToCsi(spec).value)
      == Ok(PvSpec(spec.persistentVolume.value.gcePersistentDisk.value))
  {
    RegistryContents();
    GcePd.RoundTrip(spec);
  }

  /** The stability test: {test-disk, ext4, 0, false} goes to the expected CSI source and back unchanged. */
  lemma TranslationStability()
    ensures var spec := PvSpec(GcePersistentDisk("test-disk", "ext4", 0, false));
      && TranslateToCsi(spec) == Ok(CsiSource(
           "com.google.csi.gcepd",
           "projects/UNSPECIFIED/zones/UNSPECIFIED/disks/test-disk",
           false,
           "ext4",
           map["partition" := "0"]))
      && TranslateToInTree(TranslateToCsi(spec).value) == Ok(spec)
  {
    var spec := PvSpec(GcePersistentDisk("test-disk", "ext4", 0, false));
    assert Strconv.FormatInt(0) == "0";
    TestDiskHandle();
    assert '/' !in "test-disk";
    RoundTrip(spec);
  }

  /** An inline-only GCE PD is claimed by the GCE PD plugin and fails with "not yet supported". */
  lemma InlineOnlyNotSupported(disk: GcePersistentDisk)
    ensures TranslateToCsi(Spec(None, Some(VolumeSource(Some(disk))))) == Err(InlineNotSupported)
  {
  }
}
