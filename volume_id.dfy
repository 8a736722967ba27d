/**
 * The volume-handle codec of the GCE PD CSI driver's `common` package
 * (`GenerateUnderspecifiedVolumeID`, `VolumeIDToKey`). That package is not
 * part of this model; its behaviour here is an ASSUMED format:
 *   zonal     projects/{project}/zones/{zone}/disks/{name}
 *   regional  projects/{project}/regions/{region}/disks/{name}
 * with "UNSPECIFIED" for the unknown project and location, and a decoder
 * that splits on '/', demands exactly six segments and the word "zones" or
 * "regions" in the third, and takes the disk name from the sixth.
 */
module VolumeId {
  import opened Wrappers

  const Unspecified: string := "UNSPECIFIED"
  const SegmentCount: nat := 6

  datatype Topology = Zone(zone: string) | Region(region: string)

  /** The decoded key: the disk name and where it lives. */
  datatype Key = Key(name: string, topology: Topology)

  datatype IdError = WrongSegmentCount(id: string) | UnknownTopology(id: string)

  /** Index of the first '/' in s, or |s| when there is none. */
  function IndexOfSlash(s: string): (k: nat)
    ensures k <= |s|
    ensures k < |s| ==> s[k] == '/'
    ensures forall i | 0 <= i < k :: s[i] != '/'
  {
    if s == [] || s[0] == '/' then 0 else 1 + IndexOfSlash(s[1..])
  }

  /** `strings.Split(s, "/")`: slash-free segments that rejoin to the input. */
  function Split(s: string): (parts: seq<string>)
    ensures |parts| > 0
    ensures forall i | 0 <= i < |parts| :: '/' !in parts[i]
    ensures Join(parts) == s
    decreases |s|
  {
    var k := IndexOfSlash(s);
    if k == |s| then [s]
    else
      var rest := Split(s[k + 1..]);
      var parts := [s[..k]] + rest;
      assert parts[1..] == rest;
      assert s == s[..k] + "/" + s[k + 1..];
      parts
  }

  /** `strings.Join(parts, "/")`. */
  function Join(parts: seq<string>): (s: string)
    requires |parts| > 0
  {
    if |parts| == 1 then parts[0] else parts[0] + "/" + Join(parts[1..])
  }

  function CountSlashes(s: string): (n: nat) {
    if s == [] then 0 else (if s[0] == '/' then 1 else 0) + CountSlashes(s[1..])
  }

  function TopologyWord(isZonal: bool): (word: string) {
    if isZonal then "zones" else "regions"
  }

  /** The six segments of an underspecified handle. */
  function HandleSegments(diskName: string, isZonal: bool): (parts: seq<string>) {
    ["projects", Unspecified, TopologyWord(isZonal), Unspecified, "disks", diskName]
  }

  /** The Sprintf rendering of the handle format equals its six segments joined with '/'. */
  lemma FormatIsJoin(diskName: string, isZonal: bool)
    ensures "projects/" + Unspecified + "/" + TopologyWord(isZonal) + "/" + Unspecified + "/disks/" + diskName
      == Join(HandleSegments(diskName, isZonal))
  {
    var parts := HandleSegments(diskName, isZonal);
    assert Join(parts[5..]) == diskName;
    assert Join(parts[4..]) == "disks/" + diskName;
    assert Join(parts[3..]) == Unspecified + "/disks/" + diskName;
    assert Join(parts[2..]) == TopologyWord(isZonal) + "/" + Unspecified + "/disks/" + diskName;
    assert Join(parts[1..]) == Unspecified + "/" + TopologyWord(isZonal) + "/" + Unspecified + "/disks/" + diskName;
  }

  /**
   * The handle for a disk with unknown project and location, a Sprintf of
   * the format above: the six segments joined with '/'.
   */
  function GenerateUnderspecifiedVolumeId(diskName: string, isZonal: bool): (id: string)
    ensures id == Join(HandleSegments(diskName, isZonal))
  {
    FormatIsJoin(diskName, isZonal);
    "projects/" + Unspecified + "/" + TopologyWord(isZonal) + "/" + Unspecified + "/disks/" + diskName
  }

  /** Decodes a handle into its key, rejecting every other shape. */
  function VolumeIdToKey(id: string): (r: Result<Key, IdError>)
    ensures r.Err? <==> |Split(id)| != SegmentCount || Split(id)[2] !in {"zones", "regions"}
    ensures r.Ok? ==> r.value.name == Split(id)[5] && '/' !in r.value.name
  {
    var parts := Split(id);
    if |parts| != SegmentCount then Err(WrongSegmentCount(id))
    else if parts[2] == "zones" then Ok(Key(parts[5], Zone(parts[3])))
    else if parts[2] == "regions" then Ok(Key(parts[5], Region(parts[3])))
    else Err(UnknownTopology(id))
  }

  lemma SplitNoSlash(s: string)
    requires '/' !in s
    ensures Split(s) == [s]
  {
  }

  /** Split stops at the first separator: a slash-free head comes off as one segment. */
  lemma SplitCons(p: string, rest: string)
    requires '/' !in p
    ensures Split(p + "/" + rest) == [p] + Split(rest)
  {
    var s := p + "/" + rest;
    var k := IndexOfSlash(s);
    assert s[|p|] == '/';
    assert forall i | 0 <= i < |p| :: s[i] == p[i];
    assert k == |p|;
    assert s[..|p|] == p;
    assert s[|p| + 1..] == rest;
  }

  lemma ConsAppend<T>(x: T, a: seq<T>, b: seq<T>)
    ensures [x] + (a + b) == ([x] + a) + b
  {
  }

  lemma ConsInit<T>(s: seq<T>)
    requires |s| > 1
    ensures [s[0]] + s[1..][..|s| - 2] == s[..|s| - 1]
  {
  }

  /**
   * Splitting a joined list whose segments other than the last are
   * slash-free gives those segments back, followed by the split of the last.
   */
  lemma {:induction false} SplitJoin(parts: seq<string>)
    requires |parts| > 0
    requires forall i | 0 <= i < |parts| - 1 :: '/' !in parts[i]
    ensures Split(Join(parts)) == parts[..|parts| - 1] + Split(parts[|parts| - 1])
  {
    if |parts| > 1 {
      var n, rest := |parts|, parts[1..];
      SplitCons(parts[0], Join(rest));
      SplitJoin(rest);
      ConsAppend(parts[0], rest[..n - 2], Split(parts[n - 1]));
      ConsInit(parts);
    }
  }

  lemma {:induction false} CountSlashesAppend(a: string, b: string)
    ensures CountSlashes(a + b) == CountSlashes(a) + CountSlashes(b)
  {
    if a == [] {
      assert a + b == b;
    } else {
      assert (a + b)[0] == a[0];
      assert (a + b)[1..] == a[1..] + b;
      CountSlashesAppend(a[1..], b);
    }
  }

  lemma {:induction false} CountSlashesPositive(s: string)
    ensures CountSlashes(s) > 0 <==> '/' in s
  {
    if s != [] {
      CountSlashesPositive(s[1..]);
      assert s == [s[0]] + s[1..];
    }
  }

  /** Split yields one segment more than there are separators. */
  lemma {:induction false} SplitLength(s: string)
    ensures |Split(s)| == CountSlashes(s) + 1
    decreases |s|
  {
    var k := IndexOfSlash(s);
    assert s == s[..k] + s[k..];
    CountSlashesAppend(s[..k], s[k..]);
    CountSlashesPositive(s[..k]);
    if k < |s| {
      assert s[k..] == [s[k]] + s[k + 1..];
      SplitLength(s[k + 1..]);
    } else {
      assert s[k..] == [];
    }
  }

  /**
   * Codec law: the handle of a slash-free disk name decodes to a key with
   * that name and the requested topology, with unspecified location.
   */
  lemma GenerateThenDecode(diskName: string, isZonal: bool)
    requires '/' !in diskName
    ensures VolumeIdToKey(GenerateUnderspecifiedVolumeId(diskName, isZonal))
      == Ok(Key(diskName, if isZonal then Zone(Unspecified) else Region(Unspecified)))
  {
    SplitJoin(HandleSegments(diskName, isZonal));
    SplitNoSlash(diskName);
  }

  /** A disk name containing '/' yields a handle that does not decode. */
  lemma GenerateWithSlashFails(diskName: string, isZonal: bool)
    requires '/' in diskName
    ensures VolumeIdToKey(GenerateUnderspecifiedVolumeId(diskName, isZonal)).Err?
  {
    SplitJoin(HandleSegments(diskName, isZonal));
    CountSlashesPositive(diskName);
    SplitLength(diskName);
  }

  /** The handle of the disk "test-disk", spelled out. */
  lemma TestDiskHandle()
    ensures GenerateUnderspecifiedVolumeId("test-disk", true)
      == "projects/UNSPECIFIED/zones/UNSPECIFIED/disks/test-disk"
  {
    assert Unspecified == "UNSPECIFIED" && TopologyWord(true) == "zones";
    assert "projects/" + "UNSPECIFIED" == "projects/UNSPECIFIED";
    assert "projects/UNSPECIFIED" + "/" + "zones" == "projects/UNSPECIFIED/zones";
    assert "projects/UNSPECIFIED/zones" + "/" + "UNSPECIFIED" == "projects/UNSPECIFIED/zones/UNSPECIFIED";
    assert "projects/UNSPECIFIED/zones/UNSPECIFIED" + "/disks/" + "test-disk"
      == "projects/UNSPECIFIED/zones/UNSPECIFIED/disks/test-disk";
  }
}
