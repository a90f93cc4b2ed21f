/**
  The handler: for each region in turn, a creation pass over the tagged volumes and then an
  expiry-and-copy pass over the completed tagged snapshots. The passes are specified as
  folds over the listings (`VolumePass`, `ExpirePass`, `RunRegions`) and carried out by
  methods with loops over a `Cloud` that are proved to end in the state those folds give.
 */
module Manager {
  import opened Wrappers
  import opened PyStr
  import opened Calendar
  import opened VolumePolicy
  import opened SnapshotTag
  import opened Ec2

  /**
    What the handler reads at its start: today's date, the timestamp text of an `always`
    description, the region list, the default retention and the management tag key.
   */
  datatype Env = Env(today: Date, timestamp: string, regions: seq<string>, defaultRetention: int, tagKey: string)

  /** The uncaught errors that end a run early. */
  datatype Abort =
    | DateOverflow      // today plus the retention is past the last representable date
    | UntaggedInstance  // an attached instance with no tags at all, whose `tags` is None
    | NoInstanceName    // an attached instance without a Name tag before any name was set
    | BadExpiryDate     // a snapshot tag whose first part `strptime` rejects
    | EmptyTagValue     // a snapshot tag with an empty value, which reaches `strptime` on stale locals

  /** The store, the handler's `instance_name` variable (unset at first) and whether the run has ended. */
  datatype Progress = Progress(snaps: seq<Snapshot>, instanceName: Option<string>, abort: Option<Abort>)

  // ---------------------------------------------------------------------------
  // Creation pass

  /** The instance id, device and instance name the description uses; `"-"` for an unattached volume. */
  function InstanceId(a: Option<Attachment>): string {
    if a.Some? then a.value.instanceId else "-"
  }

  function Device(a: Option<Attachment>): string {
    if a.Some? then a.value.device else "-"
  }

  /**
    The `instance_name` after looking at the volume's attachment: `"-"` when unattached, the
    instance's Name tag when it has one, and otherwise whatever the variable held before.
   */
  function InstanceName(a: Option<Attachment>, current: Option<string>): Option<string> {
    if a.None? then Some("-")
    else if "Name" in a.value.instanceTags then Some(a.value.instanceTags["Name"])
    else current
  }

  /** The tags a new snapshot ends with: the volume's own when `copytags` is set, then the management tag. */
  function NewSnapshotTags(env: Env, v: Volume, p: Policy, expiry: Date): map<string, string>
    requires ValidDate(expiry)
  {
    (if p.copyTags then v.tags else map[])[env.tagKey := EncodeSnapshotTag(expiry, p.copyTo)]
  }

  /** What the handler decides for one listed volume, given the current `instance_name`. */
  datatype Plan =
    | Overflow                                                         // the expiry date raises
    | Ignore                                                           // disabled, or skipped today
    | Untagged                                                         // iterating the instance's tags raises
    | Unnamed                                                          // the name is read before it is set
    | Take(description: string, tags: map<string, string>, name: string)

  function VolumePlan(env: Env, v: Volume, current: Option<string>): Plan
    requires ValidDate(env.today) && env.tagKey in v.tags
  {
    var p := DerivePolicy(DecodeVolumeTag(v.tags[env.tagKey]), env.defaultRetention);
    var expiry := AddDays(env.today, p.retentionDays);
    if expiry.None? then Overflow
    else if !p.enabled || IsSkipped(p, env.today) then Ignore
    else if v.attachment.Some? && v.attachment.value.instanceTags == map[] then Untagged
    else
      var name := InstanceName(v.attachment, current);
      if name.None? then Unnamed
      else
        Take(Description(v.id, InstanceId(v.attachment), name.value, Device(v.attachment),
                         DescriptionLabel(p, env.today, env.timestamp)),
             NewSnapshotTags(env, v, p, expiry.value),
             name.value)
  }

  /** One volume: once the run has ended nothing happens; a description already present is not taken again. */
  function VolumeStep(env: Env, region: string, p: Progress, v: Volume): (r: Progress)
    requires ValidDate(env.today) && env.tagKey in v.tags
    ensures |r.snaps| >= |p.snaps|
  {
    if p.abort.Some? then p
    else
      match VolumePlan(env, v, p.instanceName)
      case Overflow => p.(abort := Some(DateOverflow))
      case Ignore => p
      case Untagged => p.(abort := Some(UntaggedInstance))
      case Unnamed => p.(abort := Some(NoInstanceName))
      case Take(description, tags, name) =>
        if description in RegionDescriptions(p.snaps, region) then p.(instanceName := Some(name))
        else Progress(AddSnapshot(p.snaps, region, description, tags), Some(name), None)
  }

  predicate AllTagged(volumes: seq<Volume>, key: string) {
    forall j | 0 <= j < |volumes| :: key in volumes[j].tags
  }

  /** The creation pass over the listed volumes, in listing order. */
  function VolumePass(env: Env, region: string, p: Progress, volumes: seq<Volume>): (r: Progress)
    requires ValidDate(env.today) && AllTagged(volumes, env.tagKey)
    ensures |r.snaps| >= |p.snaps|
    decreases |volumes|
  {
    if volumes == [] then p
    else
      var n := |volumes| - 1;
      VolumeStep(env, region, VolumePass(env, region, p, volumes[..n]), volumes[n])
  }

  // ---------------------------------------------------------------------------
  // Expiry and copy pass

  /** `' [Copy of ({}) from ({})]'`, appended to the source's description. */
  function CopySuffix(id: nat, region: string): string {
    " [Copy of (" + SnapshotIdText(id) + ") from (" + region + ")]"
  }

  /**
    One destination of the copy loop. Outside the region list nothing happens; otherwise the
    source is loaded, copied, the copy tagged with the source's tags and then `expiry;None`,
    and the source retagged with the destinations outside the region list. A deleted source or
    a refused copy changes nothing.
   */
  function CopyStep(env: Env, provider: Provider, region: string, id: nat, expiry: Date,
                    destinations: seq<string>, snaps: seq<Snapshot>, destination: string): (r: seq<Snapshot>)
    requires ValidDate(expiry) && id < |snaps|
    ensures |r| >= |snaps|
  {
    if destination !in env.regions || !Copyable(snaps, provider, id, destination) then snaps
    else
      var source := snaps[id];
      var target := |snaps|;
      var s1 := AddSnapshot(snaps, destination, source.description + CopySuffix(id, region), map[]);
      var s2 := Retag(s1, target, source.tags);
      var s3 := Retag(s2, target, map[env.tagKey := TargetTag(expiry)]);
      Retag(s3, id, map[env.tagKey := EncodeSnapshotTag(expiry, Remaining(destinations, env.regions))])
  }

  /** The copy loop over `todo`, the destinations read from the tag, in order. */
  function CopyLoop(env: Env, provider: Provider, region: string, id: nat, expiry: Date,
                    destinations: seq<string>, snaps: seq<Snapshot>, todo: seq<string>): (r: seq<Snapshot>)
    requires ValidDate(expiry) && id < |snaps|
    ensures |r| >= |snaps|
    decreases |todo|
  {
    if todo == [] then snaps
    else
      var n := |todo| - 1;
      CopyStep(env, provider, region, id, expiry, destinations, CopyLoop(env, provider, region, id, expiry, destinations, snaps, todo[..n]), todo[n])
  }

  /**
    One listed snapshot, read through the record the listing returned and as the source reads
    it: a non-empty tag that does not split is skipped, a bad date or an empty tag ends the
    run, and otherwise the snapshot is deleted when it has expired (and the service accepts)
    and then the copy loop runs.
   */
  function SnapshotStep(env: Env, provider: Provider, region: string, p: Progress, listed: (nat, Snapshot)): (r: Progress)
    requires ValidDate(env.today) && listed.0 < |p.snaps| && env.tagKey in listed.1.tags
    ensures |r.snaps| >= |p.snaps|
  {
    if p.abort.Some? then p
    else
      var id := listed.0;
      var value := listed.1.tags[env.tagKey];
      match ReadSnapshotTagAsWritten(value)
      case Skipped(_) => p
      case Aborted => p.(abort := Some(if value == "" then EmptyTagValue else BadExpiryDate))
      case Read(expiry, destinations) =>
        p.(snaps := ExpireAndCopy(env, provider, region, id, expiry, destinations, p.snaps))
  }

  /** The snapshot is deleted when it has expired and the service accepts, then the copy loop runs. */
  function ExpireAndCopy(env: Env, provider: Provider, region: string, id: nat, expiry: Date,
                         destinations: seq<string>, snaps: seq<Snapshot>): (r: seq<Snapshot>)
    requires ValidDate(env.today) && ValidDate(expiry) && id < |snaps|
    ensures |r| >= |snaps|
  {
    var afterDelete := if ShouldExpire(expiry, env.today) && Deletable(snaps, provider, id)
                       then MarkDeleted(snaps, id) else snaps;
    CopyLoop(env, provider, region, id, expiry, destinations, afterDelete, destinations)
  }

  predicate ListingFits(listing: seq<(nat, Snapshot)>, n: nat, key: string) {
    forall j | 0 <= j < |listing| :: listing[j].0 < n && key in listing[j].1.tags
  }

  /** The expiry pass over the listing, in listing order. */
  function ExpirePass(env: Env, provider: Provider, region: string, p: Progress, listing: seq<(nat, Snapshot)>): (r: Progress)
    requires ValidDate(env.today) && ListingFits(listing, |p.snaps|, env.tagKey)
    ensures |r.snaps| >= |p.snaps|
    decreases |listing|
  {
    if listing == [] then p
    else
      var n := |listing| - 1;
      var q := ExpirePass(env, provider, region, p, listing[..n]);
      SnapshotStep(env, provider, region, q, listing[n])
  }

  // ---------------------------------------------------------------------------
  // Regions and the whole run

  /** One region: the creation pass, then the expiry pass over what is completed at that point. */
  function RegionPass(env: Env, provider: Provider, p: Progress, region: string): (r: Progress)
    requires ValidDate(env.today)
    ensures |r.snaps| >= |p.snaps|
  {
    var volumes := ListVolumes(provider.volumes, region, env.tagKey);
    var q := VolumePass(env, region, p, volumes);
    ExpirePass(env, provider, region, q, ListCompleted(q.snaps, region, env.tagKey))
  }

  function RunRegions(env: Env, provider: Provider, p: Progress, regions: seq<string>): (r: Progress)
    requires ValidDate(env.today)
    ensures |r.snaps| >= |p.snaps|
    decreases |regions|
  {
    if regions == [] then p
    else
      var n := |regions| - 1;
      RegionPass(env, provider, RunRegions(env, provider, p, regions[..n]), regions[n])
  }

  /** A whole invocation of the handler from a given store. */
  function Run(env: Env, provider: Provider, snaps: seq<Snapshot>): (r: Progress)
    requires ValidDate(env.today)
    ensures |r.snaps| >= |snaps|
  {
    RunRegions(env, provider, Progress(snaps, None, None), env.regions)
  }

  /** One more volume is one more step. */
  lemma VolumePassSnoc(env: Env, region: string, p: Progress, volumes: seq<Volume>, i: nat)
    requires ValidDate(env.today) && AllTagged(volumes, env.tagKey) && i < |volumes|
    ensures VolumePass(env, region, p, volumes[..i + 1]) == VolumeStep(env, region, VolumePass(env, region, p, volumes[..i]), volumes[i])
  {
    assert volumes[..i + 1][..i] == volumes[..i];
  }

  lemma ExpirePassSnoc(env: Env, provider: Provider, region: string, p: Progress, listing: seq<(nat, Snapshot)>, i: nat)
    requires ValidDate(env.today) && ListingFits(listing, |p.snaps|, env.tagKey) && i < |listing|
    ensures ExpirePass(env, provider, region, p, listing[..i + 1])
         == SnapshotStep(env, provider, region, ExpirePass(env, provider, region, p, listing[..i]), listing[i])
  {
    assert listing[..i + 1][..i] == listing[..i];
  }

  lemma RunRegionsSnoc(env: Env, provider: Provider, p: Progress, regions: seq<string>, i: nat)
    requires ValidDate(env.today) && i < |regions|
    ensures RunRegions(env, provider, p, regions[..i + 1]) == RegionPass(env, provider, RunRegions(env, provider, p, regions[..i]), regions[i])
  {
    assert regions[..i + 1][..i] == regions[..i];
  }

  /** The step of a volume that is due, spelled out. */
  lemma VolumeStepTake(env: Env, region: string, p: Progress, v: Volume, description: string, tags: map<string, string>, name: string)
    requires ValidDate(env.today) && env.tagKey in v.tags && p.abort.None?
    requires VolumePlan(env, v, p.instanceName) == Take(description, tags, name)
    ensures description in RegionDescriptions(p.snaps, region) ==> VolumeStep(env, region, p, v) == p.(instanceName := Some(name))
    ensures description !in RegionDescriptions(p.snaps, region) ==>
              VolumeStep(env, region, p, v) == Progress(AddSnapshot(p.snaps, region, description, tags), Some(name), None)
  {
  }

  /** The steps of a volume that takes nothing: the run ends, or nothing changes. */
  lemma VolumeStepEnds(env: Env, region: string, p: Progress, v: Volume)
    requires ValidDate(env.today) && env.tagKey in v.tags && p.abort.None?
    ensures VolumePlan(env, v, p.instanceName) == Overflow ==> VolumeStep(env, region, p, v) == p.(abort := Some(DateOverflow))
    ensures VolumePlan(env, v, p.instanceName) == Ignore ==> VolumeStep(env, region, p, v) == p
    ensures VolumePlan(env, v, p.instanceName) == Untagged ==> VolumeStep(env, region, p, v) == p.(abort := Some(UntaggedInstance))
    ensures VolumePlan(env, v, p.instanceName) == Unnamed ==> VolumeStep(env, region, p, v) == p.(abort := Some(NoInstanceName))
  {
  }

  /** The three shapes of a volume's step: ended, unchanged store, or one snapshot added. */
  lemma VolumeStepCases(env: Env, region: string, p: Progress, v: Volume)
    requires ValidDate(env.today) && env.tagKey in v.tags
    ensures var r := VolumeStep(env, region, p, v);
            var plan := VolumePlan(env, v, p.instanceName);
            var adds := p.abort.None? && plan.Take? && plan.description !in RegionDescriptions(p.snaps, region);
            && (p.abort.Some? ==> r == p)
            && (adds ==> r == Progress(AddSnapshot(p.snaps, region, plan.description, plan.tags), Some(plan.name), None))
            && (!adds ==> r.snaps == p.snaps)
  {
  }

  // ---------------------------------------------------------------------------
  // An uncaught error ends the run: every later step leaves the progress as it is

  lemma {:induction false} VolumePassStops(env: Env, region: string, p: Progress, volumes: seq<Volume>, i: nat)
    requires ValidDate(env.today) && AllTagged(volumes, env.tagKey) && i <= |volumes|
    requires VolumePass(env, region, p, volumes[..i]).abort.Some?
    ensures VolumePass(env, region, p, volumes) == VolumePass(env, region, p, volumes[..i])
    decreases |volumes| - i
  {
    if i < |volumes| {
      VolumePassSnoc(env, region, p, volumes, i);
      VolumePassStops(env, region, p, volumes, i + 1);
    } else {
      assert volumes[..i] == volumes;
    }
  }

  lemma {:induction false} ExpirePassStops(env: Env, provider: Provider, region: string, p: Progress, listing: seq<(nat, Snapshot)>, i: nat)
    requires ValidDate(env.today) && ListingFits(listing, |p.snaps|, env.tagKey) && i <= |listing|
    requires ExpirePass(env, provider, region, p, listing[..i]).abort.Some?
    ensures ExpirePass(env, provider, region, p, listing) == ExpirePass(env, provider, region, p, listing[..i])
    decreases |listing| - i
  {
    if i < |listing| {
      ExpirePassSnoc(env, provider, region, p, listing, i);
      ExpirePassStops(env, provider, region, p, listing, i + 1);
    } else {
      assert listing[..i] == listing;
    }
  }

  lemma ExpirePassFromAborted(env: Env, provider: Provider, region: string, p: Progress, listing: seq<(nat, Snapshot)>)
    requires ValidDate(env.today) && ListingFits(listing, |p.snaps|, env.tagKey) && p.abort.Some?
    ensures ExpirePass(env, provider, region, p, listing) == p
  {
    ExpirePassStops(env, provider, region, p, listing, 0);
  }

  lemma RegionPassFromAborted(env: Env, provider: Provider, p: Progress, region: string)
    requires ValidDate(env.today) && p.abort.Some?
    ensures RegionPass(env, provider, p, region) == p
  {
    var volumes := ListVolumes(provider.volumes, region, env.tagKey);
    VolumePassStops(env, region, p, volumes, 0);
    var q := VolumePass(env, region, p, volumes);
    ExpirePassFromAborted(env, provider, region, q, ListCompleted(q.snaps, region, env.tagKey));
  }

  lemma {:induction false} RunRegionsStops(env: Env, provider: Provider, p: Progress, regions: seq<string>, i: nat)
    requires ValidDate(env.today) && i <= |regions|
    requires RunRegions(env, provider, p, regions[..i]).abort.Some?
    ensures RunRegions(env, provider, p, regions) == RunRegions(env, provider, p, regions[..i])
    decreases |regions| - i
  {
    if i < |regions| {
      RunRegionsSnoc(env, provider, p, regions, i);
      RegionPassFromAborted(env, provider, RunRegions(env, provider, p, regions[..i]), regions[i]);
      RunRegionsStops(env, provider, p, regions, i + 1);
    } else {
      assert regions[..i] == regions;
    }
  }

}
