# GCE PD in-tree / CSI volume translation, modelled in Dafny

This project models the core of a Kubernetes CSI-migration library: the
translation of a volume descriptor between the legacy in-tree GCE
Persistent Disk form (`PDName`, `FSType`, `Partition`, `ReadOnly`) and the
generic CSI form (`Driver`, `VolumeHandle`, `ReadOnly`, `FSType`,
`VolumeAttributes`), and the registry that routes each translation to a
plugin.

- `wrappers.dfy` (`Wrappers`): Option (Go's nil) and Result (Go's `(value, error)`).
- `strconv.dfy` (`Strconv`): `strconv.FormatInt(..., 10)`, `strconv.Atoi`
  (64-bit `int`: optional sign, at least one digit, int64 range) and Go's
  `int32(...)` narrowing, with the decimal codec's round trips in both
  directions.
- `volume_id.dfy` (`VolumeId`): the volume-handle codec
  `GenerateUnderspecifiedVolumeID` / `VolumeIDToKey` of the GCE PD CSI
  driver's `common` package. That package is not part of this model; its
  format is an ASSUMPTION: `projects/UNSPECIFIED/zones/UNSPECIFIED/disks/<name>`
  (or `regions` for a regional disk), decoded by `strings.Split` on `/`,
  requiring exactly six segments and `zones` or `regions` as the third, with
  the disk name taken from the sixth. Under this assumption the handle of a
  disk name decodes back to it exactly when the name holds no `/`.
- `api.dfy` (`Api`): the fields of the Kubernetes API records that are read or
  written, and a small error datatype with one constructor per distinct error
  return.
- `gce_pd.dfy` (`GcePd`): the GCE PD plugin, `CanSupport`, `TranslateToCsi`,
  `TranslateToInTree`, and the lemmas about them.
- `plugins.dfy` (`Plugins`): the plugin interface as a closed datatype with
  one variant, `GcePdPlugin`, that dispatches to `GcePd`.
- `translate.dfy` (`Translate`): the registry table and the two dispatchers.

Descriptor choice. The source files disagree on the descriptor type. The
interface in plugins/in_tree_volume.go:21-36 speaks of
`PersistentVolumeSource`, plugins/gce_pd.go takes and returns `volume.Spec`,
and translate.go passes `PersistentVolumeSource` to the plugin. The model
uses one record, `Api.Spec`, in every place. It follows plugins/gce_pd.go and
translate_test.go, which passes a `volume.Spec`. `Spec` holds an optional
persistent volume and an optional inline volume, each with an optional GCE
PD, so every nil test at plugins/gce_pd.go:39-54 and 92-93 can be expressed.

Registry. Go's map has no iteration order. The table is a sequence of
`(driver name, plugin)` pairs with distinct keys. Each dispatcher property is
stated over "some entry" and not "the first entry".

Behaviour the model exposes. The reverse path narrows a parsed partition
with `int32(...)`. An attribute such as `"4294967297"` is therefore accepted
and becomes partition 1 (`GcePd.PartitionNarrowed`). A round trip through
both directions drops an inline volume that sat beside the persistent one.

## Model

| member | source | states |
|---|---|---|
| `Strconv.WrapInt32` | plugins/gce_pd.go:83 | the int32 conversion keeps int32 values unchanged and otherwise yields the int32 congruent to the input modulo 2^32 |
| `Strconv.Atoi` | plugins/gce_pd.go:79-82 | a successful parse comes only from a string of one or more digits behind an optional sign (a lone "+" or "-" fails) and yields an int64 |
| `Strconv.FormatInt` | plugins/gce_pd.go:47 | base-10 formatting yields digits with an optional '-', no leading zero and no "-0" |
| `Strconv.FormatIntRoundTrip` | plugins/gce_pd.go:47 | parsing the base-10 text of any int64 gives the same number back |
| `Strconv.AtoiCanonicalRoundTrip` | plugins/gce_pd.go:79 | formatting the number parsed from a canonical string gives that string back |
| `Strconv.AtoiRejectsNonDigit` | plugins/gce_pd.go:79-82 | a non-digit character (other than a leading sign) makes the parse fail |
| `Strconv.AtoiValue` | plugins/gce_pd.go:79 | a string of one or more digits, alone or behind '+' or '-', parses to the number it denotes when that fits in int64, and fails otherwise ("-0" is 0) |
| `Strconv.AtoiPlusSign` | plugins/gce_pd.go:79 | an explicit '+' before the digits parses exactly as the digits alone ("+7" is 7) |
| `Strconv.AtoiLeadingZero` | plugins/gce_pd.go:79 | an extra leading zero before a non-empty digit string is accepted and ignored, with or without a sign ("007" parses as "07", so as 7) |
| `Strconv.AtoiOutOfRange` | plugins/gce_pd.go:79-82 | the decimal text of any number outside int64 fails to parse |
| `Strconv.Int32AtoiRoundTrip` | plugins/gce_pd.go:83 | an int32 partition formatted, parsed and narrowed comes back unchanged |
| `VolumeId.GenerateUnderspecifiedVolumeId` | plugins/gce_pd.go:43 | the handle is the six segments projects, UNSPECIFIED, zones or regions, UNSPECIFIED, disks and the disk name, joined with '/' |
| `VolumeId.VolumeIdToKey` | plugins/gce_pd.go:61-64 | decoding fails exactly when the handle does not split into six segments with "zones" or "regions" third; on success the key's name is the sixth segment and holds no '/' |
| `VolumeId.GenerateThenDecode` | plugins/gce_pd.go:43 | the generated handle of a slash-free disk name decodes to that name with the requested topology and an unspecified location |
| `VolumeId.GenerateWithSlashFails` | plugins/gce_pd.go:61-64 | the handle generated for a disk name containing '/' does not decode |
| `GcePd.CanSupport` | plugins/gce_pd.go:91-94 | true exactly when the persistent-volume GCE PD or the inline GCE PD is present |
| `GcePd.CanSupportIffShapeAccepted` | plugins/gce_pd.go:39-54 | CanSupport holds exactly when the forward translation does not return the "not a GCE PD volume" error |
| `GcePd.TranslateToCsi` | plugins/gce_pd.go:36-55 | succeeds exactly when the persistent volume carries a GCE PD; then Driver is the GCE PD driver name, the handle is the zonal underspecified ID of PDName, ReadOnly and FSType are copied, and the attributes are exactly {"partition": base-10 Partition}; an inline-only disk gives the "not yet supported" error and no disk at all gives the shape error |
| `GcePd.TranslateToInTree` | plugins/gce_pd.go:60-86 | an undecodable handle fails with the handle error; a present, unparsable partition fails with the partition error; it succeeds exactly otherwise, with a persistent-volume-only spec whose PDName is the decoded name, FSType and ReadOnly copied, and Partition the narrowed parse or 0 when absent |
| `GcePd.ForwardHandleNeverRegional` | plugins/gce_pd.go:37-43 | the forward handle always has "zones" as its topology segment, whatever the disk name |
| `GcePd.ForwardHandleDecodes` | plugins/gce_pd.go:43 | for a slash-free disk name the forward handle decodes to that name in an unspecified zone |
| `GcePd.ForwardPartitionParses` | plugins/gce_pd.go:46-48 | the partition attribute is canonical base-10 text that parses, and narrows, back to the partition |
| `GcePd.RoundTrip` | plugins/gce_pd.go:36-86 | in-tree to CSI and back gives the persistent-volume GCE PD unchanged, field for field, for any slash-free name and any int32 partition |
| `GcePd.RoundTripFailsOnSlash` | plugins/gce_pd.go:61-64 | for a disk name containing '/' the same round trip fails with the handle error |
| `GcePd.CsiRoundTrip` | plugins/gce_pd.go:60-86 | CSI to in-tree and back gives the CSI source unchanged when it has the forward shape: this driver, a zonal underspecified handle, a canonical int32 partition as the only attribute |
| `GcePd.PartitionNarrowed` | plugins/gce_pd.go:79-83 | a partition attribute holding any int64 is accepted and narrowed to int32, not rejected |
| `GcePd.AbsentPartitionIsZero` | plugins/gce_pd.go:65-78 | with no partition attribute the result is the decoded disk with Partition 0 |
| `GcePd.NonNumericPartitionFails` | plugins/gce_pd.go:79-82 | partition "abc" on a valid handle fails with the partition error and no spec |
| `GcePd.MalformedHandleFails` | plugins/gce_pd.go:61-64 | the handle "not-a-valid-path" fails with the handle error whatever the other fields hold |
| `GcePd.InlineOnlyNotSupported` | plugins/gce_pd.go:51-52 | an inline-only GCE PD is supported but fails with "not yet supported", which differs from the shape error |
| `Plugins.InTreePlugin.CanSupport` | plugins/in_tree_volume.go:32-35 | a spec the plugin does not support fails to translate |
| `Plugins.InTreePlugin.TranslateToCsi` | plugins/in_tree_volume.go:22-25 | a successful translation is of a supported spec and names the plugin's own driver |
| `Plugins.InTreePlugin.TranslateToInTree` | plugins/in_tree_volume.go:27-30 | a successful reverse translation yields a spec the plugin supports |
| `Translate.FindSupporting` | translate.go:34-38 | returns a registered plugin that supports the spec, and nothing exactly when no registered plugin does |
| `Translate.FindByName` | translate.go:46-50 | returns a plugin registered under exactly the given name, and nothing exactly when the name is not a key |
| `Translate.FindByNameUnique` | translate.go:24-28 | with distinct keys the name lookup returns the plugin of that key's entry, wherever the entry sits |
| `Translate.TranslateToCsi` | translate.go:33-40 | fails with the "no plugin" error exactly when no registered plugin supports the spec; otherwise returns the result of a registered plugin that supports it |
| `Translate.TranslateToInTree` | translate.go:45-52 | fails with the "no plugin for driver" error exactly when the driver name is not registered; otherwise returns the result of the plugin registered under that name |
| `Translate.RegistryContents` | translate.go:24-28 | the registry has distinct keys and exactly one registered name, the GCE PD driver name, which maps to the GCE PD plugin |
| `Translate.NoShapeErrorFromRegistry` | translate.go:34-39 | the forward dispatcher never returns the plugin's shape error; an unsupported spec gives the "no plugin" error |
| `Translate.ForwardDriverRoutesBack` | translate.go:26 | the driver name of a successful forward translation is registered and routes back to the plugin that produced it |
| `Translate.UnregisteredDriverFails` | translate.go:51 | any source whose driver is not the GCE PD driver name fails with the "no plugin for driver" error |
| `Translate.RoundTrip` | translate.go:33-52 | through both dispatchers, in-tree to CSI and back gives the persistent-volume GCE PD unchanged for any slash-free name |
| `Translate.TranslationStability` | translate_test.go:25-63 | {test-disk, ext4, 0, false} translates to driver com.google.csi.gcepd, handle projects/UNSPECIFIED/zones/UNSPECIFIED/disks/test-disk, attributes {"partition": "0"}, and back to the same spec |
| `Translate.InlineOnlyNotSupported` | translate.go:33-37 | through the registry an inline-only GCE PD fails with "not yet supported" |

## Left out

- The internals of `GenerateUnderspecifiedVolumeID` / `VolumeIDToKey`. The dependency that defines them is not part of this model. `VolumeId` states an assumed format, described above.
- Error message text and the `%v` / `%#v` renderings. Errors are constructors of `Api.TranslationError`. The underlying causes of the handle and partition errors are not kept.
- `Strconv.Atoi`: its error value is `None`. The syntax-versus-range distinction Go reports is not modelled, and neither is the fact that Go reports a range error before a later syntax error. Go's `int` is taken to be 64 bits.
- Go map iteration order in both dispatchers. The properties hold for any order.
- The type mismatch between the interface (plugins/in_tree_volume.go:21-36), the plugin and the registry. One descriptor record is used, as explained above.
- Regional disks on the forward path. That path always encodes a zonal handle, and the regional TODO at plugins/gce_pd.go:37-38 is not implemented.
- The Kubernetes API fields that the translator neither reads nor writes. The pointer identity that `reflect.DeepEqual` ignores is not modelled either.
- A nil spec or CSI source argument cannot be expressed: `Api.Spec` and `Api.CsiSource` are values, not pointers. The source dereferences these arguments without a check (plugins/gce_pd.go:39, 61 and 92; translate.go:35 through `CanSupport`; translate.go:47, which reads `source.Driver`), so in Go a nil argument panics. `CanSupport` therefore has no "false on nil input" case to model.
- Concurrency. The registry is a constant, so a write after initialisation cannot be expressed.
