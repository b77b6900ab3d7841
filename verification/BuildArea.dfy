// The ZFS dataset that holds the build data: what is in it now, and the
// snapshots taken of it.  The zfs commands themselves are outside the
// program; this module says what each one does when it takes effect.
module BuildArea {
  import opened Wrappers

  // Contents of the build data area: file path to file contents.
  type BuildData = map<string, string>

  datatype Snapshot = Snapshot(name: string, contents: BuildData)

  // `snaps` is in creation order and holds the `.step_` snapshots only.
  // The `@empty` snapshot is older than all of them; `empty` is what it holds.
  datatype Area = Area(live: BuildData, empty: Option<BuildData>, snaps: seq<Snapshot>)

  const EMPTY: BuildData := map[]

  // Position of the snapshot called `name`, or |snaps| when there is none.
  function Position(snaps: seq<Snapshot>, name: string): (k: nat)
    ensures k <= |snaps|
    ensures k < |snaps| ==> snaps[k].name == name
    ensures forall j :: 0 <= j < k ==> snaps[j].name != name
  {
    if snaps == [] || snaps[0].name == name then 0 else 1 + Position(snaps[1..], name)
  }

  ghost predicate Holds(snaps: seq<Snapshot>, name: string)
  {
    Position(snaps, name) < |snaps|
  }

  // zfs snapshot: refused when the name is already taken.
  function Snapshotted(a: Area, name: string): Area
  {
    if Position(a.snaps, name) < |a.snaps| then a
    else a.(snaps := a.snaps + [Snapshot(name, a.live)])
  }

  // zfs rollback -r: restores the snapshot and drops every later one.
  function RolledBack(a: Area, name: string): Area
  {
    var k := Position(a.snaps, name);
    if k < |a.snaps| then a.(live := a.snaps[k].contents, snaps := a.snaps[..k + 1]) else a
  }

  // zfs destroy of one snapshot.
  function Destroyed(a: Area, name: string): Area
  {
    var k := Position(a.snaps, name);
    if k < |a.snaps| then a.(snaps := a.snaps[..k] + a.snaps[k + 1..]) else a
  }

  // zfs rollback -r to @empty.
  function RolledBackToEmpty(a: Area): Area
  {
    if a.empty.Some? then Area(a.empty.value, a.empty, []) else a
  }

  // zfs destroy -r of the dataset: its data and all its snapshots.
  function DatasetDestroyed(a: Area): Area
  {
    Area(EMPTY, None, [])
  }

  // zfs snapshot of @empty, of whatever data there is.
  function EmptySnapshotted(a: Area): Area
  {
    if a.empty.None? then a.(empty := Some(a.live)) else a
  }

  // The one mutable dataset a build works on.
  class Pool {
    var area: Area

    constructor (a: Area)
      ensures area == a
    {
      area := a;
    }
  }
}
