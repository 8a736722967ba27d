/**
 * The in-tree plugin interface (plugins/in_tree_volume.go) as a closed set
 * of plugins: each variant dispatches to its driver's translator. Only the
 * GCE PD plugin exists.
 */
module Plugins {
  import opened Wrappers
  import opened Api
  import GcePd

  datatype InTreePlugin = GcePdPlugin {

    /** The CSI driver name this plugin translates to and from. */
    function DriverName(): (name: string) {
      match this
      case GcePdPlugin => GcePd.GcePdDriverName
    }

    /** Whether the plugin handles the spec; a spec it rejects never translates. */
    function CanSupport(spec: Spec): (b: bool)
      ensures !b ==> GcePd.TranslateToCsi(spec).Err?
    {
      match this
      case GcePdPlugin => GcePd.CanSupport(spec)
    }

    /** A successful translation is of a supported spec and names this plugin's driver. */
    function TranslateToCsi(spec: Spec): (r: Result<CsiSource, TranslationError>)
      ensures r.Ok? ==> CanSupport(spec) && r.value.driver == DriverName()
    {
      match this
      case GcePdPlugin => GcePd.TranslateToCsi(spec)
    }

    /** A successful reverse translation yields a spec this plugin supports. */
    function TranslateToInTree(source: CsiSource): (r: Result<Spec, TranslationError>)
      ensures r.Ok? ==> CanSupport(r.value)
    {
      match this
      case GcePdPlugin => GcePd.TranslateToInTree(source)
    }
  }
}
