/**
  The handler as the program runs it: loops over regions, volumes, listed snapshots and
  destinations that call the service one request at a time. Each method is proved to leave
  the service in the state the corresponding fold of `Manager` describes.
 */
module Handler {
  import opened Wrappers
  import opened Calendar
  import opened VolumePolicy
  import opened SnapshotTag
  import opened Ec2
  import opened Regions
  import opened Manager

  /** One listed volume of the creation pass. */
  method SnapshotVolume(cloud: Cloud, env: Env, region: string, v: Volume, name0: Option<string>)
    returns (name: Option<string>, abort: Option<Abort>)
    requires ValidDate(env.today) && env.tagKey in v.tags
    modifies cloud
    ensures Progress(cloud.snaps, name, abort) == VolumeStep(env, region, Progress(old(cloud.snaps), name0, None), v)
  {
    ghost var p0 := Progress(cloud.snaps, name0, None);
    VolumeStepEnds(env, region, p0, v);
    name := name0;
    abort := None;
    var policy := DerivePolicy(DecodeVolumeTag(v.tags[env.tagKey]), env.defaultRetention);
    var expiry := AddDays(env.today, policy.retentionDays);
    if expiry.None? {
      abort := Some(DateOverflow);
      assert VolumePlan(env, v, name0) == Overflow;
      return;
    }
    if !policy.enabled || IsSkipped(policy, env.today) {
      assert VolumePlan(env, v, name0) == Ignore;
      return;
    }
    var instanceId := "-";
    var device := "-";
    if v.attachment.Some? && v.attachment.value.instanceTags == map[] {
      abort := Some(UntaggedInstance);
      assert VolumePlan(env, v, name0) == Untagged;
      return;
    }
    if v.attachment.Some? {
      instanceId := v.attachment.value.instanceId;
      device := v.attachment.value.device;
      if "Name" in v.attachment.value.instanceTags {
        name := Some(v.attachment.value.instanceTags["Name"]);
      }
    } else {
      name := Some("-");
    }
    assert name == InstanceName(v.attachment, name0);
    if name.None? {
      abort := Some(NoInstanceName);
      assert VolumePlan(env, v, name0) == Unnamed;
      return;
    }
    var description := Description(v.id, instanceId, name.value, device, DescriptionLabel(policy, env.today, env.timestamp));
    assert instanceId == InstanceId(v.attachment) && device == Device(v.attachment);
    assert VolumePlan(env, v, name0) == Take(description, NewSnapshotTags(env, v, policy, expiry.value), name.value);
    VolumeStepTake(env, region, p0, v, description, NewSnapshotTags(env, v, policy, expiry.value), name.value);
    var taken := cloud.DescriptionTaken(region, description);
    if !taken {
      CreateTagged(cloud, env, region, v, policy, expiry.value, description);
    }
  }

  /** `create_snapshot`, then the volume's tags when `copytags` is set, then the management tag. */
  method CreateTagged(cloud: Cloud, env: Env, region: string, v: Volume, policy: Policy, expiry: Date, description: string)
    requires ValidDate(expiry)
    modifies cloud
    ensures cloud.snaps == AddSnapshot(old(cloud.snaps), region, description, NewSnapshotTags(env, v, policy, expiry))
  {
    ghost var before := cloud.snaps;
    var id := cloud.CreateSnapshot(region, description);
    ghost var copied: map<string, string> := map[];
    if policy.copyTags {
      cloud.CreateTags(id, v.tags);
      RetagAdded(before, region, description, map[], v.tags);
      copied := v.tags;
      MergeOne(v.tags, env.tagKey, "");
    }
    assert cloud.snaps == AddSnapshot(before, region, description, copied);
    var managed := map[env.tagKey := EncodeSnapshotTag(expiry, policy.copyTo)];
    cloud.CreateTags(id, managed);
    RetagAdded(before, region, description, copied, managed);
    MergeOne(copied, env.tagKey, EncodeSnapshotTag(expiry, policy.copyTo));
  }

  /** The creation pass of a region: every listed volume in turn, until one raises. */
  method CreateSnapshots(cloud: Cloud, env: Env, region: string, name0: Option<string>)
    returns (name: Option<string>, abort: Option<Abort>)
    requires ValidDate(env.today)
    modifies cloud
    ensures AllTagged(ListVolumes(cloud.provider.volumes, region, env.tagKey), env.tagKey)
    ensures Progress(cloud.snaps, name, abort)
         == VolumePass(env, region, Progress(old(cloud.snaps), name0, None), ListVolumes(cloud.provider.volumes, region, env.tagKey))
  {
    var volumes := cloud.DescribeVolumes(region, env.tagKey);
    assert AllTagged(volumes, env.tagKey);
    ghost var start := Progress(cloud.snaps, name0, None);
    name := name0;
    abort := None;
    var i := 0;
    while i < |volumes| && abort.None?
      invariant 0 <= i <= |volumes|
      invariant Progress(cloud.snaps, name, abort) == VolumePass(env, region, start, volumes[..i])
    {
      VolumePassSnoc(env, region, start, volumes, i);
      name, abort := SnapshotVolume(cloud, env, region, volumes[i], name);
      i := i + 1;
    }
    if abort.Some? {
      VolumePassStops(env, region, start, volumes, i);
    } else {
      assert volumes[..i] == volumes;
    }
  }

  /** The copy loop of one snapshot over the destinations read from its tag. */
  method CopyToDestinations(cloud: Cloud, env: Env, region: string, id: nat, expiry: Date, destinations: seq<string>)
    requires ValidDate(expiry) && id < |cloud.snaps|
    modifies cloud
    ensures cloud.snaps == CopyLoop(env, cloud.provider, region, id, expiry, destinations, old(cloud.snaps), destinations)
  {
    var j := 0;
    while j < |destinations|
      invariant 0 <= j <= |destinations|
      invariant cloud.snaps == CopyLoop(env, cloud.provider, region, id, expiry, destinations, old(cloud.snaps), destinations[..j])
    {
      assert destinations[..j + 1][..j] == destinations[..j];
      var destination := destinations[j];
      if destination in env.regions {
        var source := cloud.Load(id);
        if source.Some? {
          var description := source.value.description + CopySuffix(id, region);
          var target := cloud.Copy(id, destination, description);
          if target.Some? {
            cloud.CreateTags(target.value, source.value.tags);
            cloud.CreateTags(target.value, map[env.tagKey := TargetTag(expiry)]);
            cloud.CreateTags(id, map[env.tagKey := EncodeSnapshotTag(expiry, Remaining(destinations, env.regions))]);
          }
        }
      }
      j := j + 1;
    }
    assert destinations[..j] == destinations;
  }

  /** One listed snapshot of the expiry pass. */
  method ManageSnapshot(cloud: Cloud, env: Env, region: string, name: Option<string>, listed: (nat, Snapshot))
    returns (abort: Option<Abort>)
    requires ValidDate(env.today) && listed.0 < |cloud.snaps| && env.tagKey in listed.1.tags
    modifies cloud
    ensures Progress(cloud.snaps, name, abort) == SnapshotStep(env, cloud.provider, region, Progress(old(cloud.snaps), name, None), listed)
  {
    abort := None;
    var id := listed.0;
    var value := listed.1.tags[env.tagKey];
    match ReadSnapshotTagAsWritten(value)
    case Skipped(_) =>
    case Aborted =>
      abort := Some(if value == "" then EmptyTagValue else BadExpiryDate);
    case Read(expiry, destinations) =>
      if ShouldExpire(expiry, env.today) {
        var deleted := cloud.Delete(id);
      }
      CopyToDestinations(cloud, env, region, id, expiry, destinations);
  }

  /** The expiry pass of a region over the snapshots completed when it starts. */
  method ExpireSnapshots(cloud: Cloud, env: Env, region: string, name: Option<string>)
    returns (abort: Option<Abort>)
    requires ValidDate(env.today)
    modifies cloud
    ensures ListingFits(ListCompleted(old(cloud.snaps), region, env.tagKey), |old(cloud.snaps)|, env.tagKey)
    ensures Progress(cloud.snaps, name, abort)
         == ExpirePass(env, cloud.provider, region, Progress(old(cloud.snaps), name, None), ListCompleted(old(cloud.snaps), region, env.tagKey))
  {
    var listing := cloud.DescribeCompleted(region, env.tagKey);
    assert ListingFits(listing, |cloud.snaps|, env.tagKey);
    ghost var start := Progress(cloud.snaps, name, None);
    abort := None;
    var i := 0;
    while i < |listing| && abort.None?
      invariant 0 <= i <= |listing|
      invariant Progress(cloud.snaps, name, abort) == ExpirePass(env, cloud.provider, region, start, listing[..i])
    {
      ExpirePassSnoc(env, cloud.provider, region, start, listing, i);
      abort := ManageSnapshot(cloud, env, region, name, listing[i]);
      i := i + 1;
    }
    if abort.Some? {
      ExpirePassStops(env, cloud.provider, region, start, listing, i);
    } else {
      assert listing[..i] == listing;
    }
  }

  /** One region: the creation pass, then, unless it raised, the expiry pass. */
  method ManageRegion(cloud: Cloud, env: Env, region: string, name0: Option<string>)
    returns (name: Option<string>, abort: Option<Abort>)
    requires ValidDate(env.today)
    modifies cloud
    ensures Progress(cloud.snaps, name, abort) == RegionPass(env, cloud.provider, Progress(old(cloud.snaps), name0, None), region)
  {
    name, abort := CreateSnapshots(cloud, env, region, name0);
    var created := Progress(cloud.snaps, name, abort);
    if abort.None? {
      abort := ExpireSnapshots(cloud, env, region, name);
    } else {
      ExpirePassFromAborted(env, cloud.provider, region, created, ListCompleted(created.snaps, region, env.tagKey));
    }
  }

  /**
    `lambda_handler`, with the region list the module read when it was loaded (the override
    `custom`, or else the `discovered` regions the service reported): every region of the
    list in turn, until an uncaught error.
   */
  method HandleInvocation(cloud: Cloud, today: Date, timestamp: string, custom: Option<string>, discovered: seq<string>,
                          defaultRetention: int, tagKey: string)
    returns (abort: Option<Abort>)
    requires ValidDate(today)
    modifies cloud
    ensures var env := Env(today, timestamp, RegionList(custom, discovered), defaultRetention, tagKey);
            cloud.snaps == Run(env, cloud.provider, old(cloud.snaps)).snaps
            && abort == Run(env, cloud.provider, old(cloud.snaps)).abort
  {
    var env := Env(today, timestamp, RegionList(custom, discovered), defaultRetention, tagKey);
    ghost var start := Progress(cloud.snaps, None, None);
    var name: Option<string> := None;
    abort := None;
    var i := 0;
    while i < |env.regions| && abort.None?
      invariant 0 <= i <= |env.regions|
      invariant Progress(cloud.snaps, name, abort) == RunRegions(env, cloud.provider, start, env.regions[..i])
    {
      RunRegionsSnoc(env, cloud.provider, start, env.regions, i);
      name, abort := ManageRegion(cloud, env, env.regions[i], name);
      i := i + 1;
    }
    if abort.Some? {
      RunRegionsStops(env, cloud.provider, start, env.regions, i);
    } else {
      assert env.regions[..i] == env.regions;
    }
  }
}
