# EBS auto-snapshot manager, modelled in Dafny

The program is a scheduled function that looks after EBS snapshots in a list of regions
(`ebs-auto-snapshot-manager.py`). For each region it runs two passes, in order:

1. A creation pass. It lists the volumes that carry the management tag and reads each volume's
   policy from that tag (`enable=yes;type=weekly;when=mon;retention=3;copyto=us-west-2`).
   It snapshots every enabled volume that is due today, unless a snapshot with the same
   description already exists.
2. An expiry-and-copy pass. It lists the completed snapshots that carry the management tag and
   reads each one's tag (`YYYY-MM-DD;dest1,dest2`). It deletes the snapshot once its expiry
   date has come, and copies it to every destination that is in the region list. After a
   successful copy the copy is tagged `date;None` and the source is retagged with the
   destinations that are not regions of the list.

The model has the following modules:

- `PyStr`: the Python string operations the program relies on (`strip`, `lower`, `split`,
  `join`, `isdigit`, `int`, slicing).
- `Calendar`: Python's `datetime.date`. This covers the proleptic Gregorian calendar,
  `toordinal`, adding days (including the OverflowError past year 9999), weekday names,
  `str(date)` and `strptime(.., '%Y-%m-%d')`.
- `VolumePolicy`: the volume tag decoder, the fields derived from it, the weekly and monthly
  skip rule, and the description that serves as the deduplication key.
- `SnapshotTag`: the snapshot tag encoder and reader, the expiry rule, and the destinations
  left after a copy.
- `Regions`: parsing the region override.
- `Ec2`: the service as a `Cloud` class that holds a `seq<Snapshot>` store. It has methods for
  the calls the program makes. Failures of delete and copy are given as data (`Provider`).
- `Manager`: the two passes, a region and a whole invocation, specified as folds over the
  listings. It also models the uncaught errors that end an invocation (`Abort`).
- `ManagerProperties`: what a run does and does not do to the snapshots of the account.
- `Handler`: the handler as the program runs it, as methods with loops over a `Cloud`. Each
  method is proved to end in the state that the matching `Manager` function describes.
- `Scenarios`: concrete days, tags and policies worked through the rules.

Today's date, the timestamp text of an `always` description, the region list, the default
retention and the tag key are parameters (`Manager.Env`). A snapshot's identifier is its
position in the store.

The model follows the code in these details:

- An uncaught exception ends the whole invocation, including the remaining regions. The model
  has five of them (`Manager.Abort`):
  - the expiry date overflows at line 123;
  - an attached instance has no tags at all, so `instance.tags` is `None` and the loop at
    line 158 raises;
  - `instance_name` is read before it was ever set at lines 166-171;
  - `strptime` rejects a tagged date at line 225;
  - a snapshot's management tag is empty, which is not skipped (see "Findings"), so line 225
    or 226 raises.

  The code has no handler around any of them. A refusal by the service outside the delete and
  copy handlers also ends the invocation; the model leaves those out (see "Left out").
- `instance_name` is a local variable of the handler that is never reset. An attached instance
  without a `Name` tag therefore reuses the name of an earlier volume, possibly one from an
  earlier region (`Manager.InstanceName`).
- An unset or unknown `type` is never skipped.
- A missing `copyto` is written as `date;`, not `date;None`.
- A failed copy rewrites no tag.
- A new snapshot is still pending during the run, so the expiry pass does not list it.

## Model

| member | source | states |
|---|---|---|
| PyStr.Split | ebs-auto-snapshot-manager.py:105 | `str.split(sep)`: at least one piece, no piece holds the separator, and joining the pieces gives back the text |
| PyStr.SplitOfJoin | ebs-auto-snapshot-manager.py:105 | splitting a joined list of separator-free pieces gives the pieces back |
| PyStr.SplitWithoutSeparator | ebs-auto-snapshot-manager.py:216 | a text without the separator splits into itself alone; `''` splits into `['']` |
| PyStr.SplitWithSeparator | ebs-auto-snapshot-manager.py:216 | a text with the separator splits into at least two pieces |
| PyStr.StripOfLower | ebs-auto-snapshot-manager.py:226 | `lower().strip()` and `strip().lower()` agree |
| PyStr.NormalizeIsNormal | ebs-auto-snapshot-manager.py:104 | `strip().lower()` gives text that both leave unchanged, so normalising twice changes nothing |
| PyStr.NormalFixed | ebs-auto-snapshot-manager.py:104 | text that is already stripped and lower-case is its own normalisation |
| PyStr.NormalizeKeepsAbsent | ebs-auto-snapshot-manager.py:104 | a character absent from the text, other than a lower-case letter, is absent after normalising |
| PyStr.SplitKeepsAbsent | ebs-auto-snapshot-manager.py:105 | the pieces of a split hold no character that is absent from the text |
| PyStr.NatText | ebs-auto-snapshot-manager.py:251 | `str(n)` of a natural number is a digit string whose `int` is `n` |
| PyStr.DecimalValueOfPad | ebs-auto-snapshot-manager.py:123 | `int` of a zero-padded decimal is the number, when it fits the width |
| Calendar.ToOrdinal | ebs-auto-snapshot-manager.py:123 | the day number of a representable date lies between 1 and that of 9999-12-31 |
| Calendar.FromOrdinal | ebs-auto-snapshot-manager.py:123 | every day number in range names a valid date with exactly that day number |
| Calendar.AddDays | ebs-auto-snapshot-manager.py:123 | `date + timedelta(days=n)` exists exactly when the day number stays in range, and then has day number advanced by `n`; otherwise OverflowError |
| Calendar.FromToOrdinal | ebs-auto-snapshot-manager.py:123 | `fromordinal(d.toordinal()) == d` |
| Calendar.AddDaysZero | ebs-auto-snapshot-manager.py:123 | adding no days gives the same date |
| Calendar.AddDaysTwice | ebs-auto-snapshot-manager.py:123 | adding `a` days and then `b` days is adding `a + b` days, overflow included |
| Calendar.AddDaysOrder | ebs-auto-snapshot-manager.py:123 | dates reached from one date compare as the numbers of days added |
| Calendar.OrdinalOrder | ebs-auto-snapshot-manager.py:228 | comparing dates is comparing day numbers, and equal day numbers mean equal dates |
| Calendar.Weekday | ebs-auto-snapshot-manager.py:78 | `weekday()` lies in 0..6 |
| Calendar.WeekdayAbbrev | ebs-auto-snapshot-manager.py:78 | `strftime('%a').lower()` is one of the seven English abbreviations |
| Calendar.WeekdayAfter | ebs-auto-snapshot-manager.py:78 | the weekday advances by one per day added, modulo seven |
| Calendar.WeekdayPeriodic | ebs-auto-snapshot-manager.py:78 | a week later the abbreviation is the same |
| Calendar.FormatIso | ebs-auto-snapshot-manager.py:123 | `str(date)` is ten characters with dashes at 4 and 7, and holds no `;` or `,` |
| Calendar.ParseIso | ebs-auto-snapshot-manager.py:225 | `strptime(.., '%Y-%m-%d')` yields only valid dates |
| Calendar.ParseFormatIso | ebs-auto-snapshot-manager.py:225 | `strptime(str(d), '%Y-%m-%d').date() == d` for every representable date |
| Calendar.FormatIsoInjective | ebs-auto-snapshot-manager.py:131 | distinct dates have distinct ISO texts |
| VolumePolicy.DecodeVolumeTag | ebs-auto-snapshot-manager.py:103-107 | the tag is a parse error, keeping the raw value, exactly when some `;`-separated option does not split on `=` into two parts; otherwise it is the dictionary of the normalised pairs |
| VolumePolicy.PairsMapLastWins | ebs-auto-snapshot-manager.py:104-105 | the dictionary holds exactly the keys some pair names, each with the value of its last pair |
| VolumePolicy.EmptyTagUnparsable | ebs-auto-snapshot-manager.py:103-107 | an empty tag value is a parse error |
| VolumePolicy.UnparsableDisables | ebs-auto-snapshot-manager.py:107 | a tag with a malformed option enables nothing |
| VolumePolicy.DecodedValuesPlain | ebs-auto-snapshot-manager.py:104-105 | no decoded value holds a `;` |
| VolumePolicy.DecodedCopyToPlain | ebs-auto-snapshot-manager.py:122 | the `copyto` destinations of a decoded tag hold neither `,` nor `;` |
| VolumePolicy.OptionOfPair | ebs-auto-snapshot-manager.py:105 | a `k=v` option of plain key and value splits into two parts and normalises back to `k` and `v` |
| VolumePolicy.DecodeEncodeVolumeTag | ebs-auto-snapshot-manager.py:104-105 | round trip: `k1=v1;...;kn=vn` of plain keys and values decodes to the dictionary of those pairs, later keys winning |
| VolumePolicy.PolicyFields | ebs-auto-snapshot-manager.py:109-122 | `enable` and `copytags` hold iff `true` or `yes`; `type` is kept iff one of the four schedules; `retention` is the number iff all digits, else the default; `when` and `copyto` are the comma lists of the raw text; a parse error enables nothing |
| VolumePolicy.MonthDayOf | ebs-auto-snapshot-manager.py:141-142 | a `when` item names a day of the month only in 1..31 |
| VolumePolicy.AbsentWhenNamesNoDay | ebs-auto-snapshot-manager.py:121 | an absent `when` is the single empty item, which names no weekday |
| VolumePolicy.OnlyWeeklyAndMonthlySkip | ebs-auto-snapshot-manager.py:133-144 | `always`, `daily` and an unset or unknown type are never skipped |
| VolumePolicy.WeeklyWithoutDaysAlwaysSkipped | ebs-auto-snapshot-manager.py:135-136 | a weekly volume whose `when` names no weekday, as with `when` absent, is skipped every day |
| VolumePolicy.WeeklyRepeats | ebs-auto-snapshot-manager.py:135-136 | the weekly decision repeats every seven days |
| VolumePolicy.PresentMembers | ebs-auto-snapshot-manager.py:141-142 | a value is kept by the filter exactly when some item yields it |
| VolumePolicy.MonthDaysMembers | ebs-auto-snapshot-manager.py:141-142 | the monthly day list holds exactly the days some `when` item names |
| VolumePolicy.MonthlySkipRule | ebs-auto-snapshot-manager.py:140-142 | a monthly volume is skipped exactly when no all-digit `when` item equals today's day of the month |
| VolumePolicy.MonthlyByDayOfMonth | ebs-auto-snapshot-manager.py:140-142 | the monthly decision depends only on the day of the month |
| VolumePolicy.LabelIgnoresTimestamp | ebs-auto-snapshot-manager.py:128-131 | outside `always` the description's label is today's ISO date, whatever the timestamp |
| VolumePolicy.DescriptionDeterminesLabel | ebs-auto-snapshot-manager.py:166-171 | two descriptions of one volume, instance and device are equal only when their labels are |
| VolumePolicy.DifferentDaysDifferentDescriptions | ebs-auto-snapshot-manager.py:166-177 | outside `always`, one volume's snapshots of two different days have different descriptions, so at most one is taken per day |
| SnapshotTag.CleanDestinations | ebs-auto-snapshot-manager.py:226 | every destination read is stripped and lower-case, and gains no `,` or `;` |
| SnapshotTag.ReadSnapshotTag | ebs-auto-snapshot-manager.py:211-226 | a value that does not split on `;` into two parts is skipped; a first part `strptime` rejects ends the run; otherwise the parsed date and at least one clean destination |
| SnapshotTag.ReadSnapshotTagAsWritten | ebs-auto-snapshot-manager.py:212-219 | the reading as written agrees with the corrected one except on the empty value, which it does not skip |
| SnapshotTag.EmptySnapshotTag | ebs-auto-snapshot-manager.py:212-226 | the empty tag is skipped by the corrected reading and ends the run as written |
| SnapshotTag.WrittenTagAsWritten | ebs-auto-snapshot-manager.py:182-226 | every tag the handler writes is non-empty, so the reading as written and the corrected one agree on it |
| SnapshotTag.SplitTag | ebs-auto-snapshot-manager.py:216 | `date;text` splits back into the date and the text when the text has no `;` |
| SnapshotTag.ReadEncodedTag | ebs-auto-snapshot-manager.py:182 | round trip: a tag written with `,`- and `;`-free destinations reads back as its date and those destinations normalised; no destinations read back as `['']` |
| SnapshotTag.CleanDestinationsFixed | ebs-auto-snapshot-manager.py:226 | destinations that are already clean read back unchanged |
| SnapshotTag.ReadCleanTag | ebs-auto-snapshot-manager.py:182-184 | clean destinations read back exactly |
| SnapshotTag.ReadTargetTag | ebs-auto-snapshot-manager.py:265-266 | a copy's tag `date;None` reads back as the date and the single destination `none` |
| SnapshotTag.RemainingMembers | ebs-auto-snapshot-manager.py:261 | the destinations left are exactly those not in the region list |
| SnapshotTag.RemainingClean | ebs-auto-snapshot-manager.py:261 | the destinations left are clean when the read ones are |
| SnapshotTag.ReadSourceRetag | ebs-auto-snapshot-manager.py:262-263 | the source's new tag reads back as the date and the destinations left |
| SnapshotTag.NoCopyTwice | ebs-auto-snapshot-manager.py:261-263 | read back, the retagged source names no region of the list again, except the empty name when nothing was left and the list holds `''` |
| SnapshotTag.ShouldExpireByOrdinal | ebs-auto-snapshot-manager.py:228 | a snapshot is expired exactly when its expiry's day number is at most today's |
| SnapshotTag.RetentionWindow | ebs-auto-snapshot-manager.py:228 | a snapshot taken with `days` of retention is expired exactly when at least `days` days have passed |
| Regions.ParseRegionList | ebs-auto-snapshot-manager.py:64 | the override yields one stripped, lower-case, comma-free name per comma-separated item |
| Regions.RegionList | ebs-auto-snapshot-manager.py:63-66 | with the override set, one clean region name per comma-separated item of it; without it, exactly the regions the service reports |
| Regions.OverrideRegions | ebs-auto-snapshot-manager.py:63-64 | an override written as clean names joined by commas gives exactly those regions |
| Regions.ParseJoinedRegions | ebs-auto-snapshot-manager.py:64 | round trip: clean region names joined with commas parse back to themselves |
| Regions.ParseRegionListIdempotent | ebs-auto-snapshot-manager.py:64 | writing the parsed list out and parsing it again changes nothing |
| Regions.EmptyItemGivesEmptyName | ebs-auto-snapshot-manager.py:64 | an empty item, such as a trailing comma, yields the empty region name |
| Ec2.AddSnapshot | ebs-auto-snapshot-manager.py:177 | a new snapshot is appended: existing, pending, with the given region, description and tags |
| Ec2.Retag | ebs-auto-snapshot-manager.py:180 | `create_tags` merges the tags into one snapshot's, later keys replacing, and changes no other |
| Ec2.MarkDeleted | ebs-auto-snapshot-manager.py:230 | `delete` ends the existence of one snapshot and changes no other |
| Ec2.ListVolumes | ebs-auto-snapshot-manager.py:93-99 | every volume listed is in the region, tagged, and available or in use |
| Ec2.ListVolumesComplete | ebs-auto-snapshot-manager.py:93-99 | a volume is listed exactly when it passes the filters |
| Ec2.ListCompleted | ebs-auto-snapshot-manager.py:206-210 | every listed snapshot exists, is completed, tagged and in the region, in store order, with its current record |
| Ec2.ListCompletedComplete | ebs-auto-snapshot-manager.py:206-210 | every snapshot that passes the filters is listed |
| Ec2.RetagAdded | ebs-auto-snapshot-manager.py:177-184 | tagging the snapshot just created is creating it with the merged tags |
| Ec2.Cloud.DescribeVolumes | ebs-auto-snapshot-manager.py:93-99 | returns the filtered volume listing |
| Ec2.Cloud.DescriptionTaken | ebs-auto-snapshot-manager.py:173-176 | true exactly when an existing snapshot of the region has the description |
| Ec2.Cloud.DescribeCompleted | ebs-auto-snapshot-manager.py:206-210 | returns the filtered snapshot listing |
| Ec2.Cloud.Load | ebs-auto-snapshot-manager.py:248-250 | the current record of an existing snapshot, nothing for a deleted one |
| Ec2.Cloud.CreateSnapshot | ebs-auto-snapshot-manager.py:177 | appends an untagged pending snapshot and returns its identifier |
| Ec2.Cloud.CreateTags | ebs-auto-snapshot-manager.py:180 | the store becomes its retagging |
| Ec2.Cloud.Delete | ebs-auto-snapshot-manager.py:230 | succeeds exactly when the snapshot exists and the service accepts, and then marks it deleted; otherwise nothing changes |
| Ec2.Cloud.Copy | ebs-auto-snapshot-manager.py:254-258 | succeeds exactly when the source exists and the service accepts, and then appends a pending untagged snapshot in the destination; otherwise nothing changes |
| Manager.VolumeStepCases | ebs-auto-snapshot-manager.py:100-193 | after the run has ended a volume changes nothing; a due volume whose description is absent adds exactly one snapshot with its tags; every other volume leaves the store as it was |
| Manager.VolumeStepTake | ebs-auto-snapshot-manager.py:173-184 | a due volume adds its snapshot exactly when no existing snapshot of the region has its description, and updates the instance name either way |
| Manager.VolumeStepEnds | ebs-auto-snapshot-manager.py:123-171 | an overflowing expiry, an attached instance without any tags and an unset instance name each end the run with their own error; a disabled or skipped volume changes nothing |
| Manager.VolumePassSnoc | ebs-auto-snapshot-manager.py:100 | the creation pass over one more volume is one more step |
| Manager.ExpirePassSnoc | ebs-auto-snapshot-manager.py:211 | the expiry pass over one more snapshot is one more step |
| Manager.RunRegionsSnoc | ebs-auto-snapshot-manager.py:81 | the run over one more region is one more region pass |
| Manager.VolumePassStops | ebs-auto-snapshot-manager.py:100-201 | once an uncaught error has happened the remaining volumes change nothing |
| Manager.ExpirePassStops | ebs-auto-snapshot-manager.py:211-291 | once the run has ended the remaining snapshots change nothing |
| Manager.ExpirePassFromAborted | ebs-auto-snapshot-manager.py:211-291 | an expiry pass after an uncaught error changes nothing |
| Manager.RegionPassFromAborted | ebs-auto-snapshot-manager.py:81-293 | a region after an uncaught error changes nothing |
| Manager.RunRegionsStops | ebs-auto-snapshot-manager.py:81-293 | once the run has ended the remaining regions change nothing |
| ManagerProperties.EvolvesTrans | ebs-auto-snapshot-manager.py:81-293 | the run invariant composes across steps |
| ManagerProperties.AddEvolves | ebs-auto-snapshot-manager.py:177 | adding a snapshot keeps the run invariant |
| ManagerProperties.DeleteEvolves | ebs-auto-snapshot-manager.py:230 | deleting a completed managed snapshot keeps the run invariant |
| ManagerProperties.CopyStepEvolves | ebs-auto-snapshot-manager.py:245-270 | one destination of the copy loop keeps the run invariant |
| ManagerProperties.CopyLoopEvolves | ebs-auto-snapshot-manager.py:245-291 | the copy loop keeps the run invariant |
| ManagerProperties.SnapshotStepEvolves | ebs-auto-snapshot-manager.py:211-291 | one listed snapshot keeps the run invariant |
| ManagerProperties.ExpirePassEvolves | ebs-auto-snapshot-manager.py:206-291 | the expiry pass keeps the run invariant |
| ManagerProperties.VolumeStepShape | ebs-auto-snapshot-manager.py:176-177 | a volume either leaves the store as it is or appends one snapshot |
| ManagerProperties.VolumeStepEvolves | ebs-auto-snapshot-manager.py:100-193 | one volume keeps the run invariant |
| ManagerProperties.VolumePassEvolves | ebs-auto-snapshot-manager.py:93-201 | the creation pass keeps the run invariant |
| ManagerProperties.RegionPassEvolves | ebs-auto-snapshot-manager.py:81-293 | a region keeps the run invariant |
| ManagerProperties.RunRegionsEvolves | ebs-auto-snapshot-manager.py:81-293 | any prefix of the region list keeps the run invariant |
| ManagerProperties.RunEvolves | ebs-auto-snapshot-manager.py:69-293 | a whole run only adds existing pending snapshots, retags managed ones and deletes completed managed ones; region, description and state never change and nothing deleted comes back |
| ManagerProperties.RunLeavesUnmanaged | ebs-auto-snapshot-manager.py:206-210 | a snapshot without the management tag key is exactly as it was after a run |
| ManagerProperties.VolumePassAppends | ebs-auto-snapshot-manager.py:100-193 | the store before the creation pass is a prefix of the store after it |
| ManagerProperties.RegionDescriptionsGrow | ebs-auto-snapshot-manager.py:173-176 | appending snapshots loses no description of the region |
| ManagerProperties.AddHasDescription | ebs-auto-snapshot-manager.py:173-177 | after a snapshot is created its description is present and none is lost |
| ManagerProperties.AddKeepsUnique | ebs-auto-snapshot-manager.py:173-177 | creating a snapshot with an absent description keeps the region's descriptions distinct |
| ManagerProperties.VolumeStepKeepsUnique | ebs-auto-snapshot-manager.py:173-177 | one volume keeps the region's descriptions distinct |
| ManagerProperties.VolumePassKeepsUnique | ebs-auto-snapshot-manager.py:100-193 | a creation pass never gives the region two existing snapshots with one description |
| ManagerProperties.PlanIgnoresName | ebs-auto-snapshot-manager.py:154-164 | an unattached volume, or one whose instance has a Name tag, does not depend on the name carried over |
| ManagerProperties.VolumeStepCovers | ebs-auto-snapshot-manager.py:166-193 | for a volume that is unattached or whose instance has a Name tag: a step that does not end the run loses no description and leaves that volume's due description present |
| ManagerProperties.VolumePassCovers | ebs-auto-snapshot-manager.py:100-193 | when every volume is unattached or its instance has a Name tag: after a creation pass that did not end early, every volume is runnable and every due description is present |
| ManagerProperties.VolumePassTakesDue | ebs-auto-snapshot-manager.py:166-193 | when every volume is unattached or its instance has a Name tag: after a creation pass that did not end early, every due volume's description is among the region's snapshots |
| ManagerProperties.VolumePassNoOp | ebs-auto-snapshot-manager.py:173-193 | when every volume is unattached or its instance has a Name tag: a creation pass over volumes whose due descriptions are all present changes nothing and does not end the run |
| ManagerProperties.VolumeStepLeaves | ebs-auto-snapshot-manager.py:100-193 | a volume step that does not end the run started from a run still going, ignored or took the volume, lost no description and leaves a taken volume's description present |
| ManagerProperties.VolumeStepReplayed | ebs-auto-snapshot-manager.py:166-193 | from any store already holding the description a step took, with the same instance name, the step changes only the instance name, and to the same value |
| ManagerProperties.VolumePassReplay | ebs-auto-snapshot-manager.py:100-193 | a creation pass that did not end early, run again from any store holding all the descriptions it left and from the same starting name, changes no snapshot, does not end the run and ends with the same name |
| ManagerProperties.VolumePassIdempotent | ebs-auto-snapshot-manager.py:100-193 | running the creation pass again on its own result, from the same starting name, gives exactly the same result: no new snapshot, no error, the same name |
| ManagerProperties.CopyStepOutcome | ebs-auto-snapshot-manager.py:245-270 | a listed destination the service copies to gets a new pending snapshot with the derived description, the source's tags and then `date;None`, and the source is retagged with the destinations left; anything else changes nothing |
| ManagerProperties.CopiedTagsRead | ebs-auto-snapshot-manager.py:262-269 | read back, both new tags state the same expiry; the copy's names only `none` |
| ManagerProperties.CopyLoopOthers | ebs-auto-snapshot-manager.py:245-291 | the copy loop changes no other existing snapshot and deletes nothing |
| ManagerProperties.CopyLoopTargets | ebs-auto-snapshot-manager.py:245-269 | every snapshot the copy loop adds is in a listed region the tag names, pending, and tagged `date;None` |
| ManagerProperties.CopyIsNotCopied | ebs-auto-snapshot-manager.py:245-266 | a copy's snapshot is never copied again when no region is named `none` |
| ManagerProperties.SnapshotStepOutcome | ebs-auto-snapshot-manager.py:211-243 | an empty tag value ends the run; a non-empty value that does not split into two parts changes nothing; a first part `strptime` rejects ends the run; a readable tag never ends it; the snapshot is deleted exactly when its tag reads as expired and the service accepts; no other snapshot and not the instance name changes |
| ManagerProperties.SnapshotStepRead | ebs-auto-snapshot-manager.py:225-291 | a tag that reads as a date and destinations never ends the run; the snapshot is deleted exactly when that date has come and the service accepts; no other snapshot changes |
| ManagerProperties.ExpireAndCopyOutcome | ebs-auto-snapshot-manager.py:228-291 | the delete followed by the copy loop changes no other existing snapshot and deletes this one exactly when it is expired and the service accepts |
| ManagerProperties.SnapshotStepOthers | ebs-auto-snapshot-manager.py:211-291 | one listed snapshot changes no other existing snapshot |
| ManagerProperties.SnapshotStepDeletes | ebs-auto-snapshot-manager.py:228-230 | an existing snapshot whose tag reads as expired is deleted unless the service refuses |
| ManagerProperties.ExpirePassKeepsUnlisted | ebs-auto-snapshot-manager.py:206-211 | a snapshot the listing does not name leaves the expiry pass as it entered it |
| ManagerProperties.ExpirePassDeletesOnlyExpired | ebs-auto-snapshot-manager.py:228-230 | the expiry pass deletes a snapshot only when the listing names it with an expired tag |
| ManagerProperties.ExpirePassInitRuns | ebs-auto-snapshot-manager.py:211-226 | a pass that did not end early did not end before its last entry |
| ManagerProperties.ExpirePassDeletesLast | ebs-auto-snapshot-manager.py:228-230 | the last listed snapshot, named nowhere before, is deleted when its tag reads as expired |
| ManagerProperties.ExpirePassKeepsDeleted | ebs-auto-snapshot-manager.py:228-230 | a snapshot deleted before the last listed entry, which names another snapshot, stays deleted |
| ManagerProperties.ExpirePassDeletesExpired | ebs-auto-snapshot-manager.py:211-239 | after a pass that did not end early, so with no empty or undated tag on the way, every existing snapshot listed once with an expired tag is deleted unless the service refuses |
| Handler.SnapshotVolume | ebs-auto-snapshot-manager.py:100-201 | one listed volume leaves the store, the instance name and the error as one creation step gives, those of an instance without tags and of an unset name included |
| Handler.CreateTagged | ebs-auto-snapshot-manager.py:177-184 | creating, copying the volume's tags when asked and adding the management tag gives one new snapshot with exactly the derived tags |
| Handler.CreateSnapshots | ebs-auto-snapshot-manager.py:93-201 | the creation loop ends in the state of the creation pass over the volume listing |
| Handler.CopyToDestinations | ebs-auto-snapshot-manager.py:245-291 | the destination loop ends in the state of the copy loop |
| Handler.ManageSnapshot | ebs-auto-snapshot-manager.py:211-291 | one listed snapshot, its tag read as the code reads it, leaves the store and the error as one expiry step gives, the end of the run on an empty tag included |
| Handler.ExpireSnapshots | ebs-auto-snapshot-manager.py:206-291 | the expiry loop over the listing taken at its start ends in the state of the expiry pass, which reads every tag as the code does |
| Handler.ManageRegion | ebs-auto-snapshot-manager.py:87-293 | a region ends in the state of the region pass, with every uncaught error of either pass |
| Handler.HandleInvocation | ebs-auto-snapshot-manager.py:63-293 | over the region list the override or the service gives, the handler ends in the state of the whole run, and reports the error that ended it |
| Scenarios.NewYear2024IsMonday | ebs-auto-snapshot-manager.py:78 | 2024-01-01 gives the abbreviation `mon` |
| Scenarios.WeeklyMonWedFri | ebs-auto-snapshot-manager.py:135-136 | `when=Mon,Wed,Fri` weekly: taken on Wednesday 2024-01-03, skipped on Tuesday 2024-01-02 |
| Scenarios.MonthlyFirstAndFifteenth | ebs-auto-snapshot-manager.py:140-142 | `when=1,15` monthly: taken on the 15th, skipped on the 14th |
| Scenarios.ExpiryBoundary | ebs-auto-snapshot-manager.py:228 | expiring today deletes; expiring tomorrow keeps |
| Scenarios.FormatNewYear2024 | ebs-auto-snapshot-manager.py:123 | `str(date(2024, 1, 1)) == '2024-01-01'` |
| Scenarios.ExpiredCopyTag | ebs-auto-snapshot-manager.py:266 | the copy tag `2024-01-01;None` reads as that date and `none`, expired on 2024-01-02 |
| Scenarios.DecodeWeeklyTag | ebs-auto-snapshot-manager.py:103-105 | the tag text `enable=yes;type=weekly;when=mon;retention=3;copyto=us-west-2` decodes to its five options |
| Scenarios.WeeklyOptionsPolicy | ebs-auto-snapshot-manager.py:109-122 | those five options give an enabled weekly policy on Mondays, without `copytags`, three days of retention and the one destination `us-west-2` |
| Scenarios.WeeklyPolicy | ebs-auto-snapshot-manager.py:103-122 | the tag text gives that policy |
| Scenarios.MondaysOnNewYear | ebs-auto-snapshot-manager.py:133-150 | that policy is not skipped on 2024-01-01 |
| Scenarios.ThreeDaysAfterNewYear | ebs-auto-snapshot-manager.py:123 | 2024-01-01 plus three days is 2024-01-04 |
| Scenarios.ReadWeeklyTag | ebs-auto-snapshot-manager.py:182 | `2024-01-04;us-west-2` reads back as that date and that destination |
| Scenarios.ExpiresOnFourth | ebs-auto-snapshot-manager.py:228 | a snapshot expiring on 2024-01-04 is kept on the 3rd and deleted on the 4th |
| Scenarios.FourthTagText | ebs-auto-snapshot-manager.py:182 | a snapshot expiring on 2024-01-04 and bound for `us-west-2` is tagged `2024-01-04;us-west-2` |
| Scenarios.UnattachedTake | ebs-auto-snapshot-manager.py:123-171 | an enabled, unskipped, unattached volume whose expiry fits is taken with the instance id, name and device `-` and the derived tags |
| Scenarios.FirstTake | ebs-auto-snapshot-manager.py:173-184 | with nothing in the store, a volume planned for a snapshot gets exactly that one pending snapshot |
| Scenarios.WeeklyVolumeOnNewYear | ebs-auto-snapshot-manager.py:100-226 | an unattached volume tagged with that text, in a run on Monday 2024-01-01 with nothing in the store, gets exactly one snapshot, described with the date and tagged `2024-01-04;us-west-2`, which reads back as that date and that destination |

## Left out

- The provider calls are modelled as the `Cloud` class. The service's own decisions are not
  modelled: which deletes and copies fail is data (`Provider.deleteFails`, `Provider.copyFails`).
  The `ResourceLimitExceeded` branch and the other copy errors both just skip that destination.
  They differ only in the log message.
- Logging, the request id, and `uuid` are not modelled. They have no effect on the snapshots.
- The clock is left out. Today's date and the `always` timestamp text are parameters. That text
  is built with `%M` (minutes) where a month is evidently meant, so it is an opaque string
  (`VolumePolicy.DescriptionLabel`).
- Reading the environment is left out. The tag key, the default retention and the region
  override are parameters. `Regions.RegionList` takes the regions the service reports as given.
  The `int(...)` of `default_retention_days`, which can raise when the module loads, is not
  modelled.
- The locale is left out. `%a` is taken in English, which is what both `en_US.utf8` and the
  fallback C locale give.
- PyStr.Lower, PyStr.IsDigits: only ASCII letters have a case and only ASCII digits are digits.
  Python's `lower()` and `isdigit()` also act on other Unicode letters and digits.
- Snapshot identifiers are positions in the store, not AWS's `snap-…` text. Only the copy's
  description shows one, as `Ec2.SnapshotIdText`.
- Ec2.ListVolumes, Ec2.ListCompleted: the listings come in store order and in one page. The
  service promises no order and pages long results.
- Ec2.Cloud.DescriptionTaken: the description filter is an exact match. The service also reads
  `*` and `?` in the filter value as wildcards. Snapshots of other accounts that the service may
  list are not modelled either.
- The service changes nothing on its own during a run. A pending snapshot stays pending, so
  the expiry pass of the same invocation never lists it.
- A non-`ClientError` exception in the delete and copy handlers is left out. Reading
  `e.response` on it would itself raise.
- Concurrent or overlapping invocations are not modelled. The program visits regions strictly
  one after another.
- No report of successes, skips and errors is modelled. The code only logs them.
- Ec2.Cloud.CreateSnapshot, Ec2.Cloud.CreateTags: these and the region's two describe calls
  (lines 93, 173, 177, 180, 183 and 206) always succeed in the model. In the code a refusal by
  the service there is uncaught and ends the invocation.
- ManagerProperties.CopyIsNotCopied: the three tag writes after a copy (lines 268-270) succeed or
  fail as one, like the copy itself. In the code a refusal of the second or third leaves a copy
  without its `date;None` tag or a source that is not retagged, and the property rests on that
  atomicity.

## Findings

| source | as written | input that shows it | evidently intended | confidence | as-written member | corrected member |
|---|---|---|---|---|---|---|
| ebs-auto-snapshot-manager.py:212-226 | `parser_error` is set to the tag value that does not split and is then used as a condition, so an empty value is not skipped; `expire_date` and `destination_copy` are then unbound or left over from the creation pass (a text and a list) or an earlier snapshot (a date and a list), and line 225 or 226 raises, ending the whole invocation | a completed snapshot whose management tag value is `""` | every value that does not split on `;` into exactly two parts, the empty one included, is logged and skipped | not executed | SnapshotTag.ReadSnapshotTagAsWritten (with SnapshotTag.EmptySnapshotTag) | SnapshotTag.ReadSnapshotTag |

The run follows the code: `Manager.SnapshotStep` reads every tag with
`SnapshotTag.ReadSnapshotTagAsWritten` and ends with `EmptyTagValue` on the empty one.
`SnapshotTag.WrittenTagAsWritten` shows that the two readings agree on every tag the handler
itself writes, so only a tag set by hand to `""` reaches the difference.
