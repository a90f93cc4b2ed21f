/**
  The part of the EC2 service the handler talks to: the volumes it lists, and a store of
  snapshots it creates, tags, deletes and copies between regions. The provider's failures
  are not decided here: the snapshots whose deletion fails and the copies that fail are
  given as data.
 */
module Ec2 {
  import opened Wrappers
  import opened PyStr

  /** A snapshot; its identifier is its position in the store. Deletion clears `live`. */
  datatype Snapshot = Snapshot(
    region: string,
    description: string,
    tags: map<string, string>,
    completed: bool,
    live: bool)

  /**
    The first attachment of a volume and the tags of the instance it is attached to; an
    instance without any tag has empty `instanceTags`, which the service's resource reports
    as `tags` being None.
   */
  datatype Attachment = Attachment(instanceId: string, device: string, instanceTags: map<string, string>)

  datatype Volume = Volume(
    id: string,
    region: string,
    status: string,
    tags: map<string, string>,
    attachment: Option<Attachment>)

  /** What the service holds or decides on its own: the volumes and which requests fail. */
  datatype Provider = Provider(volumes: seq<Volume>, deleteFails: set<nat>, copyFails: set<(nat, string)>)

  /** The text of a snapshot identifier. */
  function SnapshotIdText(id: nat): string {
    "snap-" + NatText(id)
  }

  // ---------------------------------------------------------------------------
  // The store's operations on values

  /** `create_snapshot` (or the copy's result): a new, pending, untagged-or-tagged snapshot at the end. */
  function AddSnapshot(snaps: seq<Snapshot>, region: string, description: string, tags: map<string, string>): (r: seq<Snapshot>)
    ensures |r| == |snaps| + 1 && r[..|snaps|] == snaps
    ensures r[|snaps|] == Snapshot(region, description, tags, false, true)
  {
    snaps + [Snapshot(region, description, tags, false, true)]
  }

  /** `create_tags`: the given tags are added to the snapshot's, replacing keys it already has. */
  function Retag(snaps: seq<Snapshot>, id: nat, tags: map<string, string>): (r: seq<Snapshot>)
    requires id < |snaps|
    ensures |r| == |snaps|
    ensures forall i | 0 <= i < |r| && i != id :: r[i] == snaps[i]
    ensures r[id] == snaps[id].(tags := snaps[id].tags + tags)
  {
    snaps[id := snaps[id].(tags := snaps[id].tags + tags)]
  }

  /** `delete`: the snapshot is gone from every later listing. */
  function MarkDeleted(snaps: seq<Snapshot>, id: nat): (r: seq<Snapshot>)
    requires id < |snaps|
    ensures |r| == |snaps|
    ensures forall i | 0 <= i < |r| && i != id :: r[i] == snaps[i]
    ensures r[id] == snaps[id].(live := false)
  {
    snaps[id := snaps[id].(live := false)]
  }

  /** A delete succeeds on a snapshot that still exists, unless the service refuses it. */
  predicate Deletable(snaps: seq<Snapshot>, provider: Provider, id: nat) {
    id < |snaps| && snaps[id].live && id !in provider.deleteFails
  }

  /** A copy succeeds from a snapshot that still exists, unless the service refuses it. */
  predicate Copyable(snaps: seq<Snapshot>, provider: Provider, id: nat, destination: string) {
    id < |snaps| && snaps[id].live && (id, destination) !in provider.copyFails
  }

  /** The descriptions of the existing snapshots of a region, which a description filter matches. */
  function RegionDescriptions(snaps: seq<Snapshot>, region: string): set<string> {
    set i | 0 <= i < |snaps| && snaps[i].live && snaps[i].region == region :: snaps[i].description
  }

  /** The volume filter: in the region, carrying the tag key, and available or in use. */
  predicate VolumeListed(v: Volume, region: string, key: string) {
    v.region == region && key in v.tags && (v.status == "available" || v.status == "in-use")
  }

  /** `describe_volumes` with the tag-key and status filters. */
  function ListVolumes(volumes: seq<Volume>, region: string, key: string): (r: seq<Volume>)
    ensures |r| <= |volumes|
    ensures forall j | 0 <= j < |r| :: VolumeListed(r[j], region, key)
  {
    if volumes == [] then []
    else
      var last := volumes[|volumes| - 1];
      ListVolumes(volumes[..|volumes| - 1], region, key) + (if VolumeListed(last, region, key) then [last] else [])
  }

  /** The snapshot filter of the expiry pass: existing, in the region, carrying the tag key, completed. */
  predicate SnapshotListed(s: Snapshot, region: string, key: string) {
    s.live && s.completed && s.region == region && key in s.tags
  }

  /** The listed snapshots among the first `n`, in store order, each with the record the listing returns. */
  function ListCompletedBelow(snaps: seq<Snapshot>, region: string, key: string, n: nat): (r: seq<(nat, Snapshot)>)
    requires n <= |snaps|
    ensures forall j | 0 <= j < |r| :: r[j].0 < n && r[j].1 == snaps[r[j].0] && SnapshotListed(r[j].1, region, key)
    ensures forall j, k | 0 <= j < k < |r| :: r[j].0 < r[k].0
  {
    if n == 0 then []
    else
      ListCompletedBelow(snaps, region, key, n - 1)
        + (if SnapshotListed(snaps[n - 1], region, key) then [(n - 1, snaps[n - 1])] else [])
  }

  /** `describe_snapshots` with the tag-key and status filters. */
  function ListCompleted(snaps: seq<Snapshot>, region: string, key: string): (r: seq<(nat, Snapshot)>)
    ensures forall j | 0 <= j < |r| :: r[j].0 < |snaps| && r[j].1 == snaps[r[j].0] && SnapshotListed(r[j].1, region, key)
    ensures forall j, k | 0 <= j < k < |r| :: r[j].0 < r[k].0
  {
    ListCompletedBelow(snaps, region, key, |snaps|)
  }

  /** Tagging the snapshot just added is the same as adding it with the merged tags. */
  lemma RetagAdded(snaps: seq<Snapshot>, region: string, description: string, tags: map<string, string>, more: map<string, string>)
    ensures Retag(AddSnapshot(snaps, region, description, tags), |snaps|, more)
         == AddSnapshot(snaps, region, description, tags + more)
  {
    var r := Retag(AddSnapshot(snaps, region, description, tags), |snaps|, more);
    assert r[..|snaps|] == snaps;
    assert r == r[..|snaps|] + [r[|snaps|]];
  }

  /** `create_tags` with one key is the map update of that key. */
  lemma MergeOne(m: map<string, string>, k: string, x: string)
    ensures m + map[k := x] == m[k := x]
    ensures map[] + m == m
  {
  }

  // ---------------------------------------------------------------------------
  // Properties of the listings

  /** Every volume that passes the filters is listed. */
  lemma {:induction false} ListVolumesComplete(volumes: seq<Volume>, region: string, key: string, v: Volume)
    ensures v in ListVolumes(volumes, region, key) <==> v in volumes && VolumeListed(v, region, key)
    decreases |volumes|
  {
    if volumes != [] {
      var init := volumes[..|volumes| - 1];
      ListVolumesComplete(init, region, key, v);
      assert volumes == init + [volumes[|volumes| - 1]];
    }
  }

  /** Every snapshot that passes the filters is listed. */
  lemma {:induction false} ListCompletedComplete(snaps: seq<Snapshot>, region: string, key: string, n: nat, i: nat)
    requires i < n <= |snaps| && SnapshotListed(snaps[i], region, key)
    ensures exists j | 0 <= j < |ListCompletedBelow(snaps, region, key, n)| :: ListCompletedBelow(snaps, region, key, n)[j].0 == i
    decreases n
  {
    var r := ListCompletedBelow(snaps, region, key, n);
    if i == n - 1 {
      assert r[|r| - 1].0 == i;
    } else {
      ListCompletedComplete(snaps, region, key, n - 1, i);
      var j :| 0 <= j < |ListCompletedBelow(snaps, region, key, n - 1)| && ListCompletedBelow(snaps, region, key, n - 1)[j].0 == i;
      assert r[j].0 == i;
    }
  }

  // ---------------------------------------------------------------------------
  // The service as a mutable object

  class Cloud {
    var snaps: seq<Snapshot>
    const provider: Provider

    constructor(snaps: seq<Snapshot>, provider: Provider)
      ensures this.snaps == snaps && this.provider == provider
    {
      this.snaps := snaps;
      this.provider := provider;
    }

    method DescribeVolumes(region: string, key: string) returns (volumes: seq<Volume>)
      ensures volumes == ListVolumes(provider.volumes, region, key)
    {
      volumes := ListVolumes(provider.volumes, region, key);
    }

    /** `describe_snapshots` with a description filter, reduced to whether anything matched. */
    method DescriptionTaken(region: string, description: string) returns (taken: bool)
      ensures taken <==> description in RegionDescriptions(snaps, region)
    {
      taken := description in RegionDescriptions(snaps, region);
    }

    method DescribeCompleted(region: string, key: string) returns (listing: seq<(nat, Snapshot)>)
      ensures listing == ListCompleted(snaps, region, key)
    {
      listing := ListCompleted(snaps, region, key);
    }

    /** Loading a snapshot resource: its current record, or nothing once it is deleted. */
    method Load(id: nat) returns (s: Option<Snapshot>)
      ensures s.Some? <==> id < |snaps| && snaps[id].live
      ensures s.Some? ==> s.value == snaps[id]
    {
      if id < |snaps| && snaps[id].live {
        s := Some(snaps[id]);
      } else {
        s := None;
      }
    }

    method CreateSnapshot(region: string, description: string) returns (id: nat)
      modifies this
      ensures id == |old(snaps)|
      ensures snaps == AddSnapshot(old(snaps), region, description, map[])
    {
      id := |snaps|;
      snaps := AddSnapshot(snaps, region, description, map[]);
    }

    method CreateTags(id: nat, tags: map<string, string>)
      requires id < |snaps|
      modifies this
      ensures snaps == Retag(old(snaps), id, tags)
    {
      snaps := Retag(snaps, id, tags);
    }

    method Delete(id: nat) returns (ok: bool)
      requires id < |snaps|
      modifies this
      ensures ok <==> Deletable(old(snaps), provider, id)
      ensures snaps == if ok then MarkDeleted(old(snaps), id) else old(snaps)
    {
      ok := Deletable(snaps, provider, id);
      if ok {
        snaps := MarkDeleted(snaps, id);
      }
    }

    /** `copy` into `destination`: a new pending snapshot there, or a failure that changes nothing. */
    method Copy(id: nat, destination: string, description: string) returns (target: Option<nat>)
      modifies this
      ensures target.Some? <==> Copyable(old(snaps), provider, id, destination)
      ensures target.Some? ==> target.value == |old(snaps)| && snaps == AddSnapshot(old(snaps), destination, description, map[])
      ensures target.None? ==> snaps == old(snaps)
    {
      if Copyable(snaps, provider, id, destination) {
        target := Some(|snaps|);
        snaps := AddSnapshot(snaps, destination, description, map[]);
      } else {
        target := None;
      }
    }
  }
}
