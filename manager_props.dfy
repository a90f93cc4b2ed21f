/**
  What a run of the handler does and does not do to the snapshots of the account: the only
  changes are new pending snapshots, new tags on managed snapshots and deletions of completed
  managed ones; the creation pass is idempotent for a given day; the expiry pass deletes
  exactly the expired snapshots the service lets it delete; and copies land only in listed
  regions, tagged so that they are never copied again.
 */
module ManagerProperties {
  import opened Wrappers
  import opened PyStr
  import opened Calendar
  import opened VolumePolicy
  import opened SnapshotTag
  import opened Ec2
  import opened Manager

  // ---------------------------------------------------------------------------
  // The invariant of a run

  /**
    What may happen to one snapshot: its region, description and state stay; it can only go
    from existing to deleted, and only once completed; a snapshot without the management tag
    key is left exactly as it is, and one with it keeps it.
   */
  predicate Kept(x: Snapshot, y: Snapshot, key: string) {
    && y.region == x.region && y.description == x.description && y.completed == x.completed
    && (y.live ==> x.live)
    && (!x.completed ==> y.live == x.live)
    && (key in x.tags ==> key in y.tags)
    && (key !in x.tags ==> y == x)
  }

  /** Every earlier snapshot is kept, and every new one exists and is still pending. */
  predicate Evolves(a: seq<Snapshot>, b: seq<Snapshot>, key: string) {
    && |a| <= |b|
    && (forall i | 0 <= i < |a| :: Kept(a[i], b[i], key))
    && (forall i | |a| <= i < |b| :: b[i].live && !b[i].completed)
  }

  lemma EvolvesTrans(a: seq<Snapshot>, b: seq<Snapshot>, c: seq<Snapshot>, key: string)
    requires Evolves(a, b, key) && Evolves(b, c, key)
    ensures Evolves(a, c, key)
  {
    forall i | |a| <= i < |c|
      ensures c[i].live && !c[i].completed
    {
      if i < |b| {
        assert Kept(b[i], c[i], key);
      }
    }
  }

  /** One destination of the copy loop, from a managed source. */
  lemma CopyStepEvolves(env: Env, provider: Provider, region: string, id: nat, expiry: Date,
                        destinations: seq<string>, snaps: seq<Snapshot>, destination: string)
    requires ValidDate(expiry) && id < |snaps| && env.tagKey in snaps[id].tags
    ensures Evolves(snaps, CopyStep(env, provider, region, id, expiry, destinations, snaps, destination), env.tagKey)
  {
    if destination in env.regions && Copyable(snaps, provider, id, destination) {
      var source := snaps[id];
      var target := |snaps|;
      var s1 := AddSnapshot(snaps, destination, source.description + CopySuffix(id, region), map[]);
      var s2 := Retag(s1, target, source.tags);
      var s3 := Retag(s2, target, map[env.tagKey := TargetTag(expiry)]);
      var r := Retag(s3, id, map[env.tagKey := EncodeSnapshotTag(expiry, Remaining(destinations, env.regions))]);
      assert r[target].live && !r[target].completed;
      assert forall i | 0 <= i < |snaps| && i != id :: r[i] == snaps[i];
    }
  }

  lemma {:induction false} CopyLoopEvolves(env: Env, provider: Provider, region: string, id: nat, expiry: Date,
                                           destinations: seq<string>, snaps: seq<Snapshot>, todo: seq<string>)
    requires ValidDate(expiry) && id < |snaps| && env.tagKey in snaps[id].tags
    ensures Evolves(snaps, CopyLoop(env, provider, region, id, expiry, destinations, snaps, todo), env.tagKey)
    decreases |todo|
  {
    if todo != [] {
      var n := |todo| - 1;
      var q := CopyLoop(env, provider, region, id, expiry, destinations, snaps, todo[..n]);
      CopyLoopEvolves(env, provider, region, id, expiry, destinations, snaps, todo[..n]);
      assert Kept(snaps[id], q[id], env.tagKey);
      CopyStepEvolves(env, provider, region, id, expiry, destinations, q, todo[n]);
      EvolvesTrans(snaps, q, CopyLoop(env, provider, region, id, expiry, destinations, snaps, todo), env.tagKey);
    }
  }

  /** Deleting a completed, managed snapshot keeps the store evolving. */
  lemma DeleteEvolves(snaps: seq<Snapshot>, id: nat, key: string)
    requires id < |snaps| && snaps[id].completed && key in snaps[id].tags
    ensures Evolves(snaps, MarkDeleted(snaps, id), key)
  {
  }

  /** One listed snapshot, which is managed and completed. */
  lemma SnapshotStepEvolves(env: Env, provider: Provider, region: string, p: Progress, listed: (nat, Snapshot))
    requires ValidDate(env.today) && listed.0 < |p.snaps| && env.tagKey in listed.1.tags
    requires env.tagKey in p.snaps[listed.0].tags && p.snaps[listed.0].completed
    ensures Evolves(p.snaps, SnapshotStep(env, provider, region, p, listed).snaps, env.tagKey)
  {
    var id := listed.0;
    if p.abort.None? {
      match ReadSnapshotTagAsWritten(listed.1.tags[env.tagKey])
      case Skipped(_) =>
      case Aborted =>
      case Read(expiry, destinations) =>
        var afterDelete := if ShouldExpire(expiry, env.today) && Deletable(p.snaps, provider, id)
                           then MarkDeleted(p.snaps, id) else p.snaps;
        if afterDelete != p.snaps {
          DeleteEvolves(p.snaps, id, env.tagKey);
        }
        assert SnapshotStep(env, provider, region, p, listed).snaps
            == ExpireAndCopy(env, provider, region, id, expiry, destinations, p.snaps)
            == CopyLoop(env, provider, region, id, expiry, destinations, afterDelete, destinations);
        CopyLoopEvolves(env, provider, region, id, expiry, destinations, afterDelete, destinations);
        EvolvesTrans(p.snaps, afterDelete, CopyLoop(env, provider, region, id, expiry, destinations, afterDelete, destinations), env.tagKey);
    }
  }

  /** Every entry of the listing is a managed, completed snapshot of the store. */
  predicate Managed(listing: seq<(nat, Snapshot)>, snaps: seq<Snapshot>, key: string) {
    forall j | 0 <= j < |listing| ::
      listing[j].0 < |snaps| && key in snaps[listing[j].0].tags && snaps[listing[j].0].completed
  }

  lemma {:induction false} ExpirePassEvolves(env: Env, provider: Provider, region: string, p: Progress, listing: seq<(nat, Snapshot)>)
    requires ValidDate(env.today) && ListingFits(listing, |p.snaps|, env.tagKey) && Managed(listing, p.snaps, env.tagKey)
    ensures Evolves(p.snaps, ExpirePass(env, provider, region, p, listing).snaps, env.tagKey)
    decreases |listing|
  {
    if listing != [] {
      var n := |listing| - 1;
      var init := listing[..n];
      assert forall j | 0 <= j < n :: init[j] == listing[j];
      var q := ExpirePass(env, provider, region, p, init);
      ExpirePassEvolves(env, provider, region, p, init);
      assert Kept(p.snaps[listing[n].0], q.snaps[listing[n].0], env.tagKey);
      SnapshotStepEvolves(env, provider, region, q, listing[n]);
      EvolvesTrans(p.snaps, q.snaps, ExpirePass(env, provider, region, p, listing).snaps, env.tagKey);
    }
  }

  lemma VolumeStepEvolves(env: Env, region: string, p: Progress, v: Volume)
    requires ValidDate(env.today) && env.tagKey in v.tags
    ensures Evolves(p.snaps, VolumeStep(env, region, p, v).snaps, env.tagKey)
  {
    VolumeStepShape(env, region, p, v);
    var r := VolumeStep(env, region, p, v);
    if r.snaps != p.snaps {
      var description, tags :| r.snaps == AddSnapshot(p.snaps, region, description, tags);
      AddEvolves(p.snaps, region, description, tags, env.tagKey);
    }
  }

  /** A volume step either leaves the store as it is or adds one snapshot at its end. */
  lemma VolumeStepShape(env: Env, region: string, p: Progress, v: Volume)
    requires ValidDate(env.today) && env.tagKey in v.tags
    ensures var r := VolumeStep(env, region, p, v);
            r.snaps == p.snaps || exists description, tags :: r.snaps == AddSnapshot(p.snaps, region, description, tags)
  {
    VolumeStepCases(env, region, p, v);
  }

  lemma AddEvolves(snaps: seq<Snapshot>, region: string, description: string, tags: map<string, string>, key: string)
    ensures Evolves(snaps, AddSnapshot(snaps, region, description, tags), key)
  {
  }

  lemma {:induction false} VolumePassEvolves(env: Env, region: string, p: Progress, volumes: seq<Volume>)
    requires ValidDate(env.today) && AllTagged(volumes, env.tagKey)
    ensures Evolves(p.snaps, VolumePass(env, region, p, volumes).snaps, env.tagKey)
    decreases |volumes|
  {
    if volumes != [] {
      var n := |volumes| - 1;
      var q := VolumePass(env, region, p, volumes[..n]);
      VolumePassEvolves(env, region, p, volumes[..n]);
      VolumeStepEvolves(env, region, q, volumes[n]);
      EvolvesTrans(p.snaps, q.snaps, VolumePass(env, region, p, volumes).snaps, env.tagKey);
    }
  }

  lemma RegionPassEvolves(env: Env, provider: Provider, p: Progress, region: string)
    requires ValidDate(env.today)
    ensures Evolves(p.snaps, RegionPass(env, provider, p, region).snaps, env.tagKey)
  {
    var volumes := ListVolumes(provider.volumes, region, env.tagKey);
    var q := VolumePass(env, region, p, volumes);
    VolumePassEvolves(env, region, p, volumes);
    var listing := ListCompleted(q.snaps, region, env.tagKey);
    assert Managed(listing, q.snaps, env.tagKey);
    ExpirePassEvolves(env, provider, region, q, listing);
    EvolvesTrans(p.snaps, q.snaps, RegionPass(env, provider, p, region).snaps, env.tagKey);
  }

  lemma {:induction false} RunRegionsEvolves(env: Env, provider: Provider, p: Progress, regions: seq<string>)
    requires ValidDate(env.today)
    ensures Evolves(p.snaps, RunRegions(env, provider, p, regions).snaps, env.tagKey)
    decreases |regions|
  {
    if regions != [] {
      var n := |regions| - 1;
      var q := RunRegions(env, provider, p, regions[..n]);
      RunRegionsEvolves(env, provider, p, regions[..n]);
      RegionPassEvolves(env, provider, q, regions[n]);
      EvolvesTrans(p.snaps, q.snaps, RunRegions(env, provider, p, regions).snaps, env.tagKey);
    }
  }

  /**
    A whole run: snapshots without the management tag key are untouched, pending snapshots are
    never deleted, nothing deleted comes back, and everything new exists and is pending.
   */
  lemma RunEvolves(env: Env, provider: Provider, snaps: seq<Snapshot>)
    requires ValidDate(env.today)
    ensures Evolves(snaps, Run(env, provider, snaps).snaps, env.tagKey)
  {
    RunRegionsEvolves(env, provider, Progress(snaps, None, None), env.regions);
  }

  /** A snapshot that does not carry the management tag key is exactly as it was after a run. */
  lemma RunLeavesUnmanaged(env: Env, provider: Provider, snaps: seq<Snapshot>, i: nat)
    requires ValidDate(env.today) && i < |snaps| && env.tagKey !in snaps[i].tags
    ensures i < |Run(env, provider, snaps).snaps| && Run(env, provider, snaps).snaps[i] == snaps[i]
  {
    RunEvolves(env, provider, snaps);
    assert Kept(snaps[i], Run(env, provider, snaps).snaps[i], env.tagKey);
  }

  // ---------------------------------------------------------------------------
  // The creation pass: descriptions as idempotency keys

  /** The creation pass only adds snapshots: the store before it is a prefix of the store after. */
  lemma {:induction false} VolumePassAppends(env: Env, region: string, p: Progress, volumes: seq<Volume>)
    requires ValidDate(env.today) && AllTagged(volumes, env.tagKey)
    ensures VolumePass(env, region, p, volumes).snaps[..|p.snaps|] == p.snaps
    decreases |volumes|
  {
    if volumes != [] {
      var n := |volumes| - 1;
      var q := VolumePass(env, region, p, volumes[..n]);
      VolumePassAppends(env, region, p, volumes[..n]);
      VolumeStepShape(env, region, q, volumes[n]);
      var r := VolumePass(env, region, p, volumes);
      assert r.snaps[..|q.snaps|] == q.snaps;
      assert r.snaps[..|p.snaps|] == r.snaps[..|q.snaps|][..|p.snaps|];
    }
  }

  /** Adding snapshots at the end loses no description of the region. */
  lemma RegionDescriptionsGrow(a: seq<Snapshot>, b: seq<Snapshot>, region: string)
    requires |a| <= |b| && b[..|a|] == a
    ensures RegionDescriptions(a, region) <= RegionDescriptions(b, region)
  {
    forall d | d in RegionDescriptions(a, region)
      ensures d in RegionDescriptions(b, region)
    {
      var i :| 0 <= i < |a| && a[i].live && a[i].region == region && a[i].description == d;
      assert b[i] == a[i];
    }
  }

  /** No two existing snapshots of the region share a description. */
  predicate UniqueDescriptions(snaps: seq<Snapshot>, region: string) {
    forall i, j | 0 <= i < j < |snaps| && snaps[i].live && snaps[j].live && snaps[i].region == region && snaps[j].region == region ::
      snaps[i].description != snaps[j].description
  }

  lemma AddKeepsUnique(snaps: seq<Snapshot>, region: string, description: string, tags: map<string, string>)
    requires UniqueDescriptions(snaps, region) && description !in RegionDescriptions(snaps, region)
    ensures UniqueDescriptions(AddSnapshot(snaps, region, description, tags), region)
  {
    var r := AddSnapshot(snaps, region, description, tags);
    forall i | 0 <= i < |snaps| && snaps[i].live && snaps[i].region == region
      ensures snaps[i].description != description
    {
      assert snaps[i].description in RegionDescriptions(snaps, region);
    }
    assert forall i | 0 <= i < |snaps| :: r[i] == snaps[i];
  }

  lemma VolumeStepKeepsUnique(env: Env, region: string, p: Progress, v: Volume)
    requires ValidDate(env.today) && env.tagKey in v.tags && UniqueDescriptions(p.snaps, region)
    ensures UniqueDescriptions(VolumeStep(env, region, p, v).snaps, region)
  {
    VolumeStepCases(env, region, p, v);
    var plan := VolumePlan(env, v, p.instanceName);
    if p.abort.None? && plan.Take? && plan.description !in RegionDescriptions(p.snaps, region) {
      AddKeepsUnique(p.snaps, region, plan.description, plan.tags);
    }
  }

  /** Dedup: a creation pass never gives the region two existing snapshots with one description. */
  lemma {:induction false} VolumePassKeepsUnique(env: Env, region: string, p: Progress, volumes: seq<Volume>)
    requires ValidDate(env.today) && AllTagged(volumes, env.tagKey) && UniqueDescriptions(p.snaps, region)
    ensures UniqueDescriptions(VolumePass(env, region, p, volumes).snaps, region)
    decreases |volumes|
  {
    if volumes != [] {
      var n := |volumes| - 1;
      VolumePassKeepsUnique(env, region, p, volumes[..n]);
      VolumeStepKeepsUnique(env, region, VolumePass(env, region, p, volumes[..n]), volumes[n]);
    }
  }

  /** Every volume is unattached or attached to an instance with a Name tag. */
  predicate NameFree(volumes: seq<Volume>) {
    forall j | 0 <= j < |volumes| ::
      volumes[j].attachment.None? || "Name" in volumes[j].attachment.value.instanceTags
  }

  /** Such a volume's plan does not depend on the name carried over from earlier volumes. */
  lemma PlanIgnoresName(env: Env, v: Volume, current: Option<string>)
    requires ValidDate(env.today) && env.tagKey in v.tags
    requires v.attachment.None? || "Name" in v.attachment.value.instanceTags
    ensures VolumePlan(env, v, current) == VolumePlan(env, v, None)
  {
    assert InstanceName(v.attachment, current) == InstanceName(v.attachment, None);
  }

  /** `[f(x) for x in xs]`, built one element at a time from the front. */
  function MapSeq<A, B>(f: A --> B, xs: seq<A>): (ys: seq<B>)
    requires forall j | 0 <= j < |xs| :: f.requires(xs[j])
    ensures |ys| == |xs|
    decreases |xs|
  {
    if xs == [] then []
    else
      var n := |xs| - 1;
      assert forall j | 0 <= j < n :: xs[..n][j] == xs[j];
      MapSeq(f, xs[..n]) + [f(xs[n])]
  }

  lemma {:induction false} MapSeqAt<A, B>(f: A --> B, xs: seq<A>, j: nat)
    requires forall k | 0 <= k < |xs| :: f.requires(xs[k])
    requires j < |xs|
    ensures MapSeq(f, xs)[j] == f(xs[j])
    decreases |xs|
  {
    var n := |xs| - 1;
    if j < n {
      var init := xs[..n];
      assert init[j] == xs[j];
      assert forall k | 0 <= k < n :: init[k] == xs[k];
      MapSeqAt(f, init, j);
    }
  }

  /** The plan of a volume with no name carried over. */
  function DuePlan(env: Env): Volume --> Plan
    requires ValidDate(env.today)
  {
    (v: Volume) requires env.tagKey in v.tags => VolumePlan(env, v, None)
  }

  /** Each volume's plan with no name carried over, in order. */
  function DuePlans(env: Env, volumes: seq<Volume>): (plans: seq<Plan>)
    requires ValidDate(env.today) && AllTagged(volumes, env.tagKey)
    ensures |plans| == |volumes|
  {
    MapSeq(DuePlan(env), volumes)
  }

  /** The plans of all volumes are those of all but the last, then the last one's. */
  lemma DuePlansSnoc(env: Env, volumes: seq<Volume>)
    requires ValidDate(env.today) && AllTagged(volumes, env.tagKey) && volumes != []
    ensures var n := |volumes| - 1;
            DuePlans(env, volumes) == DuePlans(env, volumes[..n]) + [VolumePlan(env, volumes[n], None)]
  {
    var n := |volumes| - 1;
    assert forall k | 0 <= k < n :: volumes[..n][k] == volumes[k];
  }

  lemma DuePlansAt(env: Env, volumes: seq<Volume>, j: nat)
    requires ValidDate(env.today) && AllTagged(volumes, env.tagKey) && j < |volumes|
    ensures DuePlans(env, volumes)[j] == VolumePlan(env, volumes[j], None)
  {
    MapSeqAt(DuePlan(env), volumes, j);
  }

  /** No plan ends the run: the expiry date fits, the instance's tags can be read and a name is at hand. */
  predicate Runnable(plans: seq<Plan>) {
    forall j | 0 <= j < |plans| :: plans[j] != Overflow && plans[j] != Untagged && plans[j] != Unnamed
  }

  /** The descriptions of the plans that take a snapshot. */
  function PlanDescriptions(plans: seq<Plan>): set<string>
    decreases |plans|
  {
    if plans == [] then {}
    else
      var n := |plans| - 1;
      PlanDescriptions(plans[..n]) + (if plans[n].Take? then {plans[n].description} else {})
  }

  lemma PlanDescriptionsSnoc(plans: seq<Plan>, plan: Plan)
    ensures PlanDescriptions(plans + [plan]) == PlanDescriptions(plans) + (if plan.Take? then {plan.description} else {})
  {
    assert (plans + [plan])[..|plans|] == plans;
  }

  lemma {:induction false} PlanDescribed(plans: seq<Plan>, j: nat)
    requires j < |plans| && plans[j].Take?
    ensures plans[j].description in PlanDescriptions(plans)
    decreases |plans|
  {
    var n := |plans| - 1;
    if j < n {
      var init := plans[..n];
      assert init[j] == plans[j];
      PlanDescribed(init, j);
    }
  }

  /** Every plan is runnable and the description of every taking one is among `present`. */
  predicate PlansCovered(plans: seq<Plan>, present: set<string>) {
    Runnable(plans) && PlanDescriptions(plans) <= present
  }

  lemma PlansCoveredSnoc(plans: seq<Plan>, plan: Plan, present: set<string>)
    ensures PlansCovered(plans + [plan], present)
        <==> PlansCovered(plans, present) && plan != Overflow && plan != Untagged && plan != Unnamed
             && (plan.Take? ==> plan.description in present)
  {
    PlanDescriptionsSnoc(plans, plan);
    assert (plans + [plan])[|plans|] == plan;
    assert forall j | 0 <= j < |plans| :: (plans + [plan])[j] == plans[j];
  }

  /** Every volume is runnable and the description of every due one is among the region's. */
  predicate Covered(env: Env, region: string, snaps: seq<Snapshot>, volumes: seq<Volume>)
    requires ValidDate(env.today) && AllTagged(volumes, env.tagKey)
  {
    PlansCovered(DuePlans(env, volumes), RegionDescriptions(snaps, region))
  }

  /** The covered volumes less the last one, and the last one's plan. */
  lemma CoveredSnoc(env: Env, region: string, snaps: seq<Snapshot>, volumes: seq<Volume>)
    requires ValidDate(env.today) && AllTagged(volumes, env.tagKey) && volumes != []
    ensures var n := |volumes| - 1;
            var plan := VolumePlan(env, volumes[n], None);
            (Covered(env, region, snaps, volumes)
             <==> Covered(env, region, snaps, volumes[..n]) && plan != Overflow && plan != Untagged && plan != Unnamed
                  && (plan.Take? ==> plan.description in RegionDescriptions(snaps, region)))
  {
    var n := |volumes| - 1;
    DuePlansSnoc(env, volumes);
    PlansCoveredSnoc(DuePlans(env, volumes[..n]), VolumePlan(env, volumes[n], None), RegionDescriptions(snaps, region));
  }

  lemma AddHasDescription(snaps: seq<Snapshot>, region: string, description: string, tags: map<string, string>)
    ensures description in RegionDescriptions(AddSnapshot(snaps, region, description, tags), region)
    ensures RegionDescriptions(snaps, region) <= RegionDescriptions(AddSnapshot(snaps, region, description, tags), region)
  {
    var r := AddSnapshot(snaps, region, description, tags);
    assert r[|snaps|].description == description;
    RegionDescriptionsGrow(snaps, r, region);
  }

  /** One step that does not end the run leaves the volume's due description present. */
  lemma VolumeStepCovers(env: Env, region: string, q: Progress, v: Volume)
    requires ValidDate(env.today) && env.tagKey in v.tags
    requires v.attachment.None? || "Name" in v.attachment.value.instanceTags
    requires VolumeStep(env, region, q, v).abort.None?
    ensures q.abort.None?
    ensures RegionDescriptions(q.snaps, region) <= RegionDescriptions(VolumeStep(env, region, q, v).snaps, region)
    ensures var plan := VolumePlan(env, v, None);
            plan != Overflow && plan != Untagged && plan != Unnamed
            && (plan.Take? ==> plan.description in RegionDescriptions(VolumeStep(env, region, q, v).snaps, region))
  {
    VolumeStepCases(env, region, q, v);
    PlanIgnoresName(env, v, q.instanceName);
    var plan := VolumePlan(env, v, None);
    if plan.Take? && plan.description !in RegionDescriptions(q.snaps, region) {
      AddHasDescription(q.snaps, region, plan.description, plan.tags);
    }
  }

  lemma CoveredGrowAll(env: Env, region: string, a: seq<Snapshot>, b: seq<Snapshot>, volumes: seq<Volume>)
    requires ValidDate(env.today) && AllTagged(volumes, env.tagKey)
    requires Covered(env, region, a, volumes) && RegionDescriptions(a, region) <= RegionDescriptions(b, region)
    ensures Covered(env, region, b, volumes)
  {
  }

  lemma {:induction false} VolumePassCovers(env: Env, region: string, p: Progress, volumes: seq<Volume>)
    requires ValidDate(env.today) && AllTagged(volumes, env.tagKey) && NameFree(volumes)
    requires VolumePass(env, region, p, volumes).abort.None?
    ensures p.abort.None?
    ensures Covered(env, region, VolumePass(env, region, p, volumes).snaps, volumes)
    decreases |volumes|
  {
    if volumes != [] {
      var n := |volumes| - 1;
      var init := volumes[..n];
      assert forall j | 0 <= j < n :: init[j] == volumes[j];
      var q := VolumePass(env, region, p, init);
      var r := VolumePass(env, region, p, volumes);
      VolumeStepCovers(env, region, q, volumes[n]);
      VolumePassCovers(env, region, p, init);
      CoveredGrowAll(env, region, q.snaps, r.snaps, init);
      CoveredSnoc(env, region, r.snaps, volumes);
    }
  }

  /**
    Coverage: after a creation pass that did not end early, the description of every volume
    that is due is among the region's snapshots, whether taken now or found already there.
   */
  lemma VolumePassTakesDue(env: Env, region: string, p: Progress, volumes: seq<Volume>, j: nat)
    requires ValidDate(env.today) && AllTagged(volumes, env.tagKey) && NameFree(volumes) && j < |volumes|
    requires VolumePass(env, region, p, volumes).abort.None?
    requires VolumePlan(env, volumes[j], None).Take?
    ensures VolumePlan(env, volumes[j], None).description in RegionDescriptions(VolumePass(env, region, p, volumes).snaps, region)
  {
    VolumePassCovers(env, region, p, volumes);
    DuePlansAt(env, volumes, j);
    PlanDescribed(DuePlans(env, volumes), j);
  }

  /** A creation pass over volumes whose due descriptions are all present changes no snapshot. */
  lemma {:induction false} VolumePassNoOp(env: Env, region: string, p: Progress, volumes: seq<Volume>)
    requires ValidDate(env.today) && AllTagged(volumes, env.tagKey) && NameFree(volumes)
    requires p.abort.None? && Covered(env, region, p.snaps, volumes)
    ensures VolumePass(env, region, p, volumes).snaps == p.snaps
    ensures VolumePass(env, region, p, volumes).abort.None?
    decreases |volumes|
  {
    if volumes != [] {
      var n := |volumes| - 1;
      var init := volumes[..n];
      assert forall j | 0 <= j < n :: init[j] == volumes[j];
      var q := VolumePass(env, region, p, init);
      CoveredSnoc(env, region, p.snaps, volumes);
      VolumePassNoOp(env, region, p, init);
      PlanIgnoresName(env, volumes[n], q.instanceName);
      VolumeStepCases(env, region, q, volumes[n]);
    }
  }

  /**
    Replaying a creation pass that did not end early, from the same carried-over name, on a
    store that holds every description the pass left: nothing is taken, and the name ends as
    it did in the pass.
   */
  lemma {:induction false} VolumePassReplay(env: Env, region: string, p: Progress, volumes: seq<Volume>, store: seq<Snapshot>)
    requires ValidDate(env.today) && AllTagged(volumes, env.tagKey)
    requires VolumePass(env, region, p, volumes).abort.None?
    requires RegionDescriptions(VolumePass(env, region, p, volumes).snaps, region) <= RegionDescriptions(store, region)
    ensures VolumePass(env, region, Progress(store, p.instanceName, None), volumes)
         == Progress(store, VolumePass(env, region, p, volumes).instanceName, None)
    decreases |volumes|
  {
    if volumes != [] {
      var n := |volumes| - 1;
      var init := volumes[..n];
      assert forall j | 0 <= j < n :: init[j] == volumes[j];
      var a := VolumePass(env, region, p, init);
      VolumeStepLeaves(env, region, a, volumes[n]);
      VolumePassReplay(env, region, p, init, store);
      VolumeStepReplayed(env, region, a, Progress(store, a.instanceName, None), volumes[n]);
    }
  }

  /**
    A step that does not end the run loses no description, and leaves the description of a
    volume it takes among the region's.
   */
  lemma VolumeStepLeaves(env: Env, region: string, a: Progress, v: Volume)
    requires ValidDate(env.today) && env.tagKey in v.tags
    requires VolumeStep(env, region, a, v).abort.None?
    ensures var r := VolumeStep(env, region, a, v);
            var plan := VolumePlan(env, v, a.instanceName);
            && a.abort.None? && (plan.Ignore? || plan.Take?)
            && RegionDescriptions(a.snaps, region) <= RegionDescriptions(r.snaps, region)
            && (plan.Take? ==> plan.description in RegionDescriptions(r.snaps, region))
  {
    var plan := VolumePlan(env, v, a.instanceName);
    VolumeStepCases(env, region, a, v);
    if plan.Take? && plan.description !in RegionDescriptions(a.snaps, region) {
      AddHasDescription(a.snaps, region, plan.description, plan.tags);
    }
  }

  /**
    The same volume replayed with the same name on a store that already holds what its step
    left: nothing is taken, and the name moves as it did.
   */
  lemma VolumeStepReplayed(env: Env, region: string, a: Progress, b: Progress, v: Volume)
    requires ValidDate(env.today) && env.tagKey in v.tags
    requires a.abort.None? && b.abort.None? && b.instanceName == a.instanceName
    requires var plan := VolumePlan(env, v, a.instanceName);
             (plan.Ignore? || plan.Take?)
             && (plan.Take? ==> plan.description in RegionDescriptions(b.snaps, region))
    ensures VolumeStep(env, region, b, v) == b.(instanceName := VolumeStep(env, region, a, v).instanceName)
  {
    var plan := VolumePlan(env, v, a.instanceName);
    VolumeStepCases(env, region, a, v);
    VolumeStepCases(env, region, b, v);
  }

  /**
    Idempotence: running the creation pass again from the same carried-over name, with the
    same inputs (the same day and timestamp), after one that did not end early, takes no new
    snapshot and ends in the same state.
   */
  lemma VolumePassIdempotent(env: Env, region: string, p: Progress, volumes: seq<Volume>)
    requires ValidDate(env.today) && AllTagged(volumes, env.tagKey)
    requires VolumePass(env, region, p, volumes).abort.None?
    ensures var r := VolumePass(env, region, p, volumes);
            VolumePass(env, region, Progress(r.snaps, p.instanceName, None), volumes) == r
  {
    VolumePassReplay(env, region, p, volumes, VolumePass(env, region, p, volumes).snaps);
  }

  // ---------------------------------------------------------------------------
  // The copy loop

  /**
    One destination: a destination of the region list that the service copies to gets a new
    pending snapshot there, described after the source and tagged with the source's tags and
    then `expiry;None`, and the source is retagged with the destinations outside the region
    list; any other destination, a deleted source or a refused copy changes nothing.
   */
  lemma CopyStepOutcome(env: Env, provider: Provider, region: string, id: nat, expiry: Date,
                        destinations: seq<string>, snaps: seq<Snapshot>, destination: string)
    requires ValidDate(expiry) && id < |snaps|
    ensures var r := CopyStep(env, provider, region, id, expiry, destinations, snaps, destination);
            && (!(destination in env.regions && Copyable(snaps, provider, id, destination)) ==> r == snaps)
            && (destination in env.regions && Copyable(snaps, provider, id, destination) ==>
                  && |r| == |snaps| + 1
                  && r[|snaps|] == Snapshot(destination, snaps[id].description + CopySuffix(id, region),
                                            snaps[id].tags[env.tagKey := TargetTag(expiry)], false, true)
                  && r[id] == snaps[id].(tags := snaps[id].tags[env.tagKey := EncodeSnapshotTag(expiry, Remaining(destinations, env.regions))])
                  && (forall i | 0 <= i < |snaps| && i != id :: r[i] == snaps[i]))
  {
    if destination in env.regions && Copyable(snaps, provider, id, destination) {
      var source := snaps[id];
      var target := |snaps|;
      var s1 := AddSnapshot(snaps, destination, source.description + CopySuffix(id, region), map[]);
      var s2 := Retag(s1, target, source.tags);
      var s3 := Retag(s2, target, map[env.tagKey := TargetTag(expiry)]);
      MergeOne(source.tags, env.tagKey, TargetTag(expiry));
      MergeOne(source.tags, env.tagKey, EncodeSnapshotTag(expiry, Remaining(destinations, env.regions)));
      assert s3[target].tags == source.tags[env.tagKey := TargetTag(expiry)];
    }
  }

  /** Read back, both new tags state the same expiry; the copy's names only `none`. */
  lemma CopiedTagsRead(expiry: Date, destinations: seq<string>, regions: seq<string>)
    requires ValidDate(expiry)
    requires forall i | 0 <= i < |destinations| :: CleanName(destinations[i])
    ensures ReadSnapshotTag(TargetTag(expiry)) == Read(expiry, ["none"])
    ensures var left := Remaining(destinations, regions);
            ReadSnapshotTag(EncodeSnapshotTag(expiry, left)) == Read(expiry, if left == [] then [""] else left)
  {
    ReadTargetTag(expiry);
    ReadSourceRetag(expiry, destinations, regions);
  }

  /** The copy loop changes no other snapshot of the store, and deletes nothing. */
  lemma {:induction false} CopyLoopOthers(env: Env, provider: Provider, region: string, id: nat, expiry: Date,
                                          destinations: seq<string>, snaps: seq<Snapshot>, todo: seq<string>)
    requires ValidDate(expiry) && id < |snaps|
    ensures var r := CopyLoop(env, provider, region, id, expiry, destinations, snaps, todo);
            && (forall i | 0 <= i < |snaps| && i != id :: r[i] == snaps[i])
            && r[id].live == snaps[id].live
    decreases |todo|
  {
    if todo != [] {
      var n := |todo| - 1;
      var q := CopyLoop(env, provider, region, id, expiry, destinations, snaps, todo[..n]);
      CopyLoopOthers(env, provider, region, id, expiry, destinations, snaps, todo[..n]);
      CopyStepOutcome(env, provider, region, id, expiry, destinations, q, todo[n]);
    }
  }

  /** A copy made by the loop over `todo`: in a listed region it names, pending, tagged `expiry;None`. */
  predicate CopiedInto(env: Env, expiry: Date, todo: seq<string>, s: Snapshot)
    requires ValidDate(expiry)
  {
    && s.region in env.regions && s.region in todo
    && s.live && !s.completed
    && env.tagKey in s.tags && s.tags[env.tagKey] == TargetTag(expiry)
  }

  /**
    Every snapshot the copy loop adds is in a region of the list that the tag names, pending,
    and tagged `expiry;None` under the management key.
   */
  lemma {:induction false} CopyLoopTargets(env: Env, provider: Provider, region: string, id: nat, expiry: Date,
                                           destinations: seq<string>, snaps: seq<Snapshot>, todo: seq<string>)
    requires ValidDate(expiry) && id < |snaps|
    ensures forall i | |snaps| <= i < |CopyLoop(env, provider, region, id, expiry, destinations, snaps, todo)| ::
              CopiedInto(env, expiry, todo, CopyLoop(env, provider, region, id, expiry, destinations, snaps, todo)[i])
    decreases |todo|
  {
    if todo != [] {
      var n := |todo| - 1;
      var q := CopyLoop(env, provider, region, id, expiry, destinations, snaps, todo[..n]);
      CopyLoopTargets(env, provider, region, id, expiry, destinations, snaps, todo[..n]);
      CopyStepOutcome(env, provider, region, id, expiry, destinations, q, todo[n]);
      var r := CopyLoop(env, provider, region, id, expiry, destinations, snaps, todo);
      forall i | |snaps| <= i < |r|
        ensures CopiedInto(env, expiry, todo, r[i])
      {
        if i < |q| {
          assert CopiedInto(env, expiry, todo[..n], q[i]);
          assert r[i] == q[i];
          var k :| 0 <= k < n && todo[..n][k] == q[i].region;
          assert todo[k] == q[i].region;
        } else {
          assert r[i].region == todo[n];
        }
      }
    }
  }

  /**
    Copies are never copied again: a snapshot whose tag is a copy's, `expiry;None`, has no
    destination in a region list without the name `none`, so its copy loop adds nothing.
   */
  lemma CopyIsNotCopied(env: Env, provider: Provider, region: string, p: Progress, listed: (nat, Snapshot), expiry: Date)
    requires ValidDate(env.today) && ValidDate(expiry) && listed.0 < |p.snaps| && env.tagKey in listed.1.tags
    requires listed.1.tags[env.tagKey] == TargetTag(expiry) && "none" !in env.regions
    ensures |SnapshotStep(env, provider, region, p, listed).snaps| == |p.snaps|
  {
    ReadTargetTag(expiry);
    WrittenTagAsWritten(expiry, ["None"]);
    if p.abort.None? {
      var afterDelete := if ShouldExpire(expiry, env.today) && Deletable(p.snaps, provider, listed.0)
                         then MarkDeleted(p.snaps, listed.0) else p.snaps;
      var none := ["none"];
      assert none[..0] == [];
      CopyStepOutcome(env, provider, region, listed.0, expiry, none, afterDelete, "none");
    }
  }

  // ---------------------------------------------------------------------------
  // The expiry pass

  /**
    One listed snapshot, against the corrected reading of its tag: an empty tag ends the run,
    and so does a date that does not parse; any other skipped tag changes nothing; the
    snapshot is deleted exactly when its tag reads as expired and the service accepts the
    deletion; no other snapshot of the store changes.
   */
  lemma SnapshotStepOutcome(env: Env, provider: Provider, region: string, p: Progress, listed: (nat, Snapshot))
    requires ValidDate(env.today) && listed.0 < |p.snaps| && env.tagKey in listed.1.tags && p.abort.None?
    ensures var r := SnapshotStep(env, provider, region, p, listed);
            var value := listed.1.tags[env.tagKey];
            var t := ReadSnapshotTag(value);
            && (value == "" ==> r == p.(abort := Some(EmptyTagValue)))
            && (value != "" && t.Aborted? ==> r == p.(abort := Some(BadExpiryDate)))
            && (value != "" && t.Skipped? ==> r == p)
            && (t.Read? ==> r.abort.None?)
            && r.instanceName == p.instanceName
            && (forall i | 0 <= i < |p.snaps| && i != listed.0 :: r.snaps[i] == p.snaps[i])
            && (r.snaps[listed.0].live <==>
                  p.snaps[listed.0].live && !(t.Read? && ShouldExpire(t.expiry, env.today) && listed.0 !in provider.deleteFails))
  {
    var value := listed.1.tags[env.tagKey];
    if value == "" {
      EmptySnapshotTag();
    } else {
      var t := ReadSnapshotTag(value);
      assert ReadSnapshotTagAsWritten(value) == t;
      if t.Read? {
        SnapshotStepRead(env, provider, region, p, listed, t.expiry, t.destinations);
      }
    }
  }

  /** A tag that reads as a date: the expiry rule and the copy loop, and nothing else changes. */
  lemma SnapshotStepRead(env: Env, provider: Provider, region: string, p: Progress, listed: (nat, Snapshot),
                         expiry: Date, destinations: seq<string>)
    requires ValidDate(env.today) && listed.0 < |p.snaps| && env.tagKey in listed.1.tags && p.abort.None?
    requires ReadSnapshotTagAsWritten(listed.1.tags[env.tagKey]) == Read(expiry, destinations)
    ensures var r := SnapshotStep(env, provider, region, p, listed);
            && r.abort.None? && r.instanceName == p.instanceName
            && (forall i | 0 <= i < |p.snaps| && i != listed.0 :: r.snaps[i] == p.snaps[i])
            && (r.snaps[listed.0].live <==>
                  p.snaps[listed.0].live && !(ShouldExpire(expiry, env.today) && listed.0 !in provider.deleteFails))
  {
    ExpireAndCopyOutcome(env, provider, region, listed.0, expiry, destinations, p.snaps);
  }

  lemma ExpireAndCopyOutcome(env: Env, provider: Provider, region: string, id: nat, expiry: Date,
                             destinations: seq<string>, snaps: seq<Snapshot>)
    requires ValidDate(env.today) && ValidDate(expiry) && id < |snaps|
    ensures var r := ExpireAndCopy(env, provider, region, id, expiry, destinations, snaps);
            && (forall i | 0 <= i < |snaps| && i != id :: r[i] == snaps[i])
            && (r[id].live <==> snaps[id].live && !(ShouldExpire(expiry, env.today) && id !in provider.deleteFails))
  {
    var deletes := ShouldExpire(expiry, env.today) && Deletable(snaps, provider, id);
    var afterDelete := if deletes then MarkDeleted(snaps, id) else snaps;
    CopyLoopOthers(env, provider, region, id, expiry, destinations, afterDelete, destinations);
  }

  /** The parts of the outcome the pass-level proofs use, each on its own. */
  lemma SnapshotStepOthers(env: Env, provider: Provider, region: string, p: Progress, listed: (nat, Snapshot), i: nat)
    requires ValidDate(env.today) && listed.0 < |p.snaps| && env.tagKey in listed.1.tags
    requires i < |p.snaps| && i != listed.0
    ensures SnapshotStep(env, provider, region, p, listed).snaps[i] == p.snaps[i]
  {
    if p.abort.None? {
      SnapshotStepOutcome(env, provider, region, p, listed);
    }
  }

  lemma SnapshotStepDeletes(env: Env, provider: Provider, region: string, p: Progress, listed: (nat, Snapshot))
    requires ValidDate(env.today) && listed.0 < |p.snaps| && env.tagKey in listed.1.tags && p.abort.None?
    requires p.snaps[listed.0].live && ReadsExpired(env, listed) && listed.0 !in provider.deleteFails
    ensures !SnapshotStep(env, provider, region, p, listed).snaps[listed.0].live
  {
    SnapshotStepOutcome(env, provider, region, p, listed);
  }

  /** A snapshot the listing does not name leaves the expiry pass exactly as it entered it. */
  lemma {:induction false} ExpirePassKeepsUnlisted(env: Env, provider: Provider, region: string, p: Progress,
                                                   listing: seq<(nat, Snapshot)>, i: nat)
    requires ValidDate(env.today) && ListingFits(listing, |p.snaps|, env.tagKey) && i < |p.snaps|
    requires forall j | 0 <= j < |listing| :: listing[j].0 != i
    ensures ExpirePass(env, provider, region, p, listing).snaps[i] == p.snaps[i]
    decreases |listing|
  {
    if listing != [] {
      var n := |listing| - 1;
      var init := listing[..n];
      assert forall j | 0 <= j < n :: init[j] == listing[j];
      var q := ExpirePass(env, provider, region, p, init);
      ExpirePassKeepsUnlisted(env, provider, region, p, init, i);
      if q.abort.None? {
        SnapshotStepOutcome(env, provider, region, q, listing[n]);
      }
    }
  }

  /** The tag of a listed entry reads as an expiry date on or before today. */
  predicate ReadsExpired(env: Env, listed: (nat, Snapshot))
    requires ValidDate(env.today) && env.tagKey in listed.1.tags
  {
    var t := ReadSnapshotTag(listed.1.tags[env.tagKey]);
    t.Read? && ShouldExpire(t.expiry, env.today)
  }

  /** The expiry pass deletes a snapshot only when the listing names it with an expired tag. */
  lemma {:induction false} ExpirePassDeletesOnlyExpired(env: Env, provider: Provider, region: string, p: Progress,
                                                        listing: seq<(nat, Snapshot)>, i: nat)
    requires ValidDate(env.today) && ListingFits(listing, |p.snaps|, env.tagKey) && i < |p.snaps|
    requires p.snaps[i].live && !ExpirePass(env, provider, region, p, listing).snaps[i].live
    ensures exists j | 0 <= j < |listing| :: listing[j].0 == i && ReadsExpired(env, listing[j])
    decreases |listing|
  {
    var n := |listing| - 1;
    var init := listing[..n];
    assert forall j | 0 <= j < n :: init[j] == listing[j];
    var q := ExpirePass(env, provider, region, p, init);
    if !q.snaps[i].live {
      ExpirePassDeletesOnlyExpired(env, provider, region, p, init, i);
      var j :| 0 <= j < |init| && init[j].0 == i && ReadsExpired(env, init[j]);
      assert listing[j] == init[j];
    } else {
      SnapshotStepOutcome(env, provider, region, q, listing[n]);
      assert listing[n].0 == i && ReadsExpired(env, listing[n]);
    }
  }

  /** The pass did not end early before its last entry. */
  lemma ExpirePassInitRuns(env: Env, provider: Provider, region: string, p: Progress, listing: seq<(nat, Snapshot)>)
    requires ValidDate(env.today) && ListingFits(listing, |p.snaps|, env.tagKey) && listing != []
    requires ExpirePass(env, provider, region, p, listing).abort.None?
    ensures ExpirePass(env, provider, region, p, listing[..|listing| - 1]).abort.None?
  {
  }

  /** The last entry of the listing, named nowhere before, is deleted when expired. */
  lemma ExpirePassDeletesLast(env: Env, provider: Provider, region: string, p: Progress, listing: seq<(nat, Snapshot)>)
    requires ValidDate(env.today) && ListingFits(listing, |p.snaps|, env.tagKey) && listing != []
    requires forall k | 0 <= k < |listing| && k != |listing| - 1 :: listing[k].0 != listing[|listing| - 1].0
    requires ExpirePass(env, provider, region, p, listing).abort.None?
    requires var last := listing[|listing| - 1];
             p.snaps[last.0].live && ReadsExpired(env, last) && last.0 !in provider.deleteFails
    ensures !ExpirePass(env, provider, region, p, listing).snaps[listing[|listing| - 1].0].live
  {
    var n := |listing| - 1;
    var init := listing[..n];
    assert forall k | 0 <= k < |init| :: init[k] == listing[k];
    ExpirePassInitRuns(env, provider, region, p, listing);
    ExpirePassKeepsUnlisted(env, provider, region, p, init, listing[n].0);
    SnapshotStepDeletes(env, provider, region, ExpirePass(env, provider, region, p, init), listing[n]);
  }

  /** A snapshot deleted before the last entry, which names another one, stays deleted. */
  lemma ExpirePassKeepsDeleted(env: Env, provider: Provider, region: string, p: Progress, listing: seq<(nat, Snapshot)>, i: nat)
    requires ValidDate(env.today) && ListingFits(listing, |p.snaps|, env.tagKey) && listing != []
    requires i < |p.snaps| && i != listing[|listing| - 1].0
    requires !ExpirePass(env, provider, region, p, listing[..|listing| - 1]).snaps[i].live
    ensures !ExpirePass(env, provider, region, p, listing).snaps[i].live
  {
    var n := |listing| - 1;
    var q := ExpirePass(env, provider, region, p, listing[..n]);
    SnapshotStepOthers(env, provider, region, q, listing[n], i);
  }

  /**
    Conversely, after an expiry pass that did not end early, every existing snapshot the
    listing names once with an expired tag is deleted, unless the service refuses.
   */
  lemma {:induction false} ExpirePassDeletesExpired(env: Env, provider: Provider, region: string, p: Progress,
                                                    listing: seq<(nat, Snapshot)>, j: nat)
    requires ValidDate(env.today) && ListingFits(listing, |p.snaps|, env.tagKey) && j < |listing|
    requires forall k | 0 <= k < |listing| && k != j :: listing[k].0 != listing[j].0
    requires ExpirePass(env, provider, region, p, listing).abort.None?
    requires p.snaps[listing[j].0].live && ReadsExpired(env, listing[j]) && listing[j].0 !in provider.deleteFails
    ensures !ExpirePass(env, provider, region, p, listing).snaps[listing[j].0].live
    decreases |listing|
  {
    var n := |listing| - 1;
    if j < n {
      ExpirePassInitRuns(env, provider, region, p, listing);
      var init := listing[..n];
      assert forall k | 0 <= k < n :: init[k] == listing[k];
      ExpirePassDeletesExpired(env, provider, region, p, init, j);
      ExpirePassKeepsDeleted(env, provider, region, p, listing, listing[j].0);
    } else {
      ExpirePassDeletesLast(env, provider, region, p, listing);
    }
  }
}
