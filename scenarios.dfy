/**
  Concrete runs of the decision rules: a weekly and a monthly selection on particular days,
  the inclusive expiry boundary, a copy's tag read back on the day after its expiry, and one
  volume's tag followed through the policy it gives to the one snapshot the handler takes of it.
 */
module Scenarios {
  import opened Wrappers
  import opened PyStr
  import opened Calendar
  import opened VolumePolicy
  import opened SnapshotTag
  import opened Ec2
  import Manager

  /** 2024-01-01 was a Monday. */
  lemma NewYear2024IsMonday()
    ensures ValidDate(Date(2024, 1, 1)) && WeekdayAbbrev(Date(2024, 1, 1)) == "mon"
  {
    assert ToOrdinal(Date(2024, 1, 1)) == 738886;
  }

  lemma Weekdays2024()
    ensures WeekdayAbbrev(Date(2024, 1, 2)) == "tue" && WeekdayAbbrev(Date(2024, 1, 3)) == "wed"
  {
    assert ToOrdinal(Date(2024, 1, 2)) == 738887;
    assert ToOrdinal(Date(2024, 1, 3)) == 738888;
  }

  lemma LowerWord(w: string)
    requires |w| == 3 && 'a' <= w[1] <= 'z' && 'a' <= w[2] <= 'z'
    ensures Lower(w) == [LowerChar(w[0]), w[1], w[2]]
  {
    var l := Lower(w);
    assert l[1] == w[1] && l[2] == w[2];
  }

  lemma StripWord(w: string)
    requires |w| >= 1 && !IsSpace(w[0]) && !IsSpace(w[|w| - 1])
    ensures Strip(w) == w
  {
    StripNoop(w);
  }

  /** A capitalised three-letter word is stripped of nothing and lower-cased. */
  lemma CapitalisedToken(w: string)
    requires |w| == 3 && 'A' <= w[0] <= 'Z' && 'a' <= w[1] <= 'z' && 'a' <= w[2] <= 'z'
    ensures Take(Normalize(w), 3) == [LowerChar(w[0]), w[1], w[2]]
  {
    StripWord(w);
    LowerWord(w);
  }

  lemma MonWedFriTokens()
    ensures WeekdayTokens(["Mon", "Wed", "Fri"]) == ["mon", "wed", "fri"]
  {
    CapitalisedToken("Mon");
    CapitalisedToken("Wed");
    CapitalisedToken("Fri");
  }

  /** `when=Mon,Wed,Fri` on a weekly volume: taken on a Wednesday, skipped on a Tuesday. */
  lemma WeeklyMonWedFri()
    ensures var p := Policy(true, false, Weekly, 7, ["Mon", "Wed", "Fri"], [""]);
            !IsSkipped(p, Date(2024, 1, 3)) && IsSkipped(p, Date(2024, 1, 2))
  {
    Weekdays2024();
    MonWedFriTokens();
  }

  lemma DayItem(w: string, n: int)
    requires 1 <= |w| <= 2 && IsDigit(w[0]) && IsDigit(w[|w| - 1]) && IsDigits(w) && DecimalValue(w) == n && 1 <= n <= 31
    ensures MonthDayOf(w) == Some(n)
  {
    StripWord(w);
  }

  lemma MonthDaysOfTwo(a: string, b: string)
    ensures MonthDays([a, b]) == Present([MonthDayOf(a), MonthDayOf(b)])
  {
    var when := [a, b];
    assert seq(|when|, i requires 0 <= i < |when| => MonthDayOf(when[i])) == [MonthDayOf(a), MonthDayOf(b)];
  }

  lemma PresentOfTwo(a: int, b: int)
    ensures Present([Some(a), Some(b)]) == [a, b]
  {
    var xs := [Some(a), Some(b)];
    assert [Some(a)][..0] == [];
    assert Present([Some(a)]) == [a];
    assert xs[..1] == [Some(a)];
  }

  /** The digit items `1` and `15` name the 1st and the 15th. */
  lemma FirstAndFifteenthDays()
    ensures MonthDays(["1", "15"]) == [1, 15]
  {
    DayItem("1", 1);
    DayItem("15", 15);
    MonthDaysOfTwo("1", "15");
    PresentOfTwo(1, 15);
  }

  /** `when=1,15` on a monthly volume: taken on the 15th, skipped on the 14th. */
  lemma MonthlyFirstAndFifteenth()
    ensures var p := Policy(true, false, Monthly, 7, ["1", "15"], [""]);
            !IsSkipped(p, Date(2024, 3, 15)) && IsSkipped(p, Date(2024, 3, 14))
  {
    FirstAndFifteenthDays();
  }

  /** The expiry boundary is inclusive: expiring today deletes, expiring tomorrow keeps. */
  lemma ExpiryBoundary(today: Date)
    requires ValidDate(today)
    ensures ShouldExpire(today, today)
    ensures AddDays(today, 1).Some? ==> !ShouldExpire(AddDays(today, 1).value, today)
  {
    ShouldExpireByOrdinal(today, today);
    if AddDays(today, 1).Some? {
      ShouldExpireByOrdinal(AddDays(today, 1).value, today);
    }
  }

  /** `str(date(2024, 1, 1))`. */
  lemma FormatNewYear2024()
    ensures FormatIso(Date(2024, 1, 1)) == "2024-01-01"
  {
    assert PadDecimal(2024, 4) == "2024";
    assert PadDecimal(1, 2) == "01";
  }

  /**
    A copy's tag `2024-01-01;None` read on 2024-01-02: expired, and its only destination is
    `none`, which names no region.
   */
  lemma ExpiredCopyTag()
    ensures ReadSnapshotTag("2024-01-01;None") == Read(Date(2024, 1, 1), ["none"])
    ensures ShouldExpire(Date(2024, 1, 1), Date(2024, 1, 2))
  {
    FormatNewYear2024();
    assert TargetTag(Date(2024, 1, 1)) == "2024-01-01;None";
    ReadTargetTag(Date(2024, 1, 1));
  }

  /** Text of lower-case letters, digits and dashes is already normal. */
  lemma PlainWord(w: string)
    requires PlainChars(w)
    ensures IsNormal(w) && PlainText(w) && CleanName(w)
  {
    assert !IsSpace(w[0]) && !IsSpace(w[|w| - 1]);
    StripNoop(w);
    assert forall i | 0 <= i < |w| :: LowerChar(w[i]) == w[i];
    assert Lower(w) == w;
    assert ',' !in w && ';' !in w && '=' !in w;
  }

  /** The options of the weekly example, as written in the volume's tag. */
  const WeeklyOptionTexts: seq<string> := ["enable=yes", "type=weekly", "when=mon", "retention=3", "copyto=us-west-2"]

  /** The volume tag of the weekly example: `enable=yes;type=weekly;when=mon;retention=3;copyto=us-west-2`. */
  const WeeklyTag := Join(WeeklyOptionTexts, ';')

  /** Its options as key and value pairs, in order. */
  const WeeklyPairs: seq<(string, string)> :=
    [("enable", "yes"), ("type", "weekly"), ("when", "mon"), ("retention", "3"), ("copyto", "us-west-2")]

  /** The dictionary those options make. */
  const WeeklyOptions: map<string, string> :=
    map["enable" := "yes", "type" := "weekly", "when" := "mon", "retention" := "3", "copyto" := "us-west-2"]

  /** The pairs written out, one `key=value` text each, are the tag's options. */
  lemma WeeklyTagText()
    ensures EncodeVolumeTag(WeeklyPairs) == WeeklyTag
  {
    var options := seq(|WeeklyPairs|, i requires 0 <= i < |WeeklyPairs| => OptionText(WeeklyPairs[i]));
    assert options[0] == "enable=yes" && options[1] == "type=weekly" && options[2] == "when=mon";
    assert options[3] == "retention=3" && options[4] == "copyto=us-west-2";
    assert options == WeeklyOptionTexts;
  }

  lemma WeeklyPairsMap()
    ensures PairsMap(WeeklyPairs) == WeeklyOptions
  {
    var ps := WeeklyPairs;
    assert PairsMap(ps[..1]) == map["enable" := "yes"] by {
      assert ps[..1][..0] == [];
    }
    assert PairsMap(ps[..2]) == map["enable" := "yes", "type" := "weekly"] by {
      assert ps[..2][..1] == ps[..1];
    }
    assert PairsMap(ps[..3]) == map["enable" := "yes", "type" := "weekly", "when" := "mon"] by {
      assert ps[..3][..2] == ps[..2];
    }
    assert PairsMap(ps[..4]) == map["enable" := "yes", "type" := "weekly", "when" := "mon", "retention" := "3"] by {
      assert ps[..4][..3] == ps[..3];
    }
    assert ps[..|ps| - 1] == ps[..4];
  }

  /** A word of lower-case letters, digits and dashes. */
  predicate PlainChars(w: string) {
    |w| >= 1 && forall i | 0 <= i < |w| :: 'a' <= w[i] <= 'z' || '0' <= w[i] <= '9' || w[i] == '-'
  }

  /** Pairs of such words are keys and values that round-trip. */
  lemma PlainPairs(pairs: seq<(string, string)>)
    requires forall j | 0 <= j < |pairs| :: PlainChars(pairs[j].0) && PlainChars(pairs[j].1)
    ensures forall j | 0 <= j < |pairs| :: PlainText(pairs[j].0) && PlainText(pairs[j].1)
  {
    forall j | 0 <= j < |pairs|
      ensures PlainText(pairs[j].0)
    {
      PlainWord(pairs[j].0);
    }
    forall j | 0 <= j < |pairs|
      ensures PlainText(pairs[j].1)
    {
      PlainWord(pairs[j].1);
    }
  }

  /** The weekly tag decodes to its five options. */
  lemma DecodeWeeklyTag()
    ensures DecodeVolumeTag(WeeklyTag) == Parsed(WeeklyOptions)
  {
    PlainPairs(WeeklyPairs);
    WeeklyTagText();
    DecodeEncodeVolumeTag(WeeklyPairs);
    WeeklyPairsMap();
  }

  /** Enabled, no `copytags`, weekly on Mondays, kept three days, copied to `us-west-2`. */
  const MondayPolicy := Policy(true, false, Weekly, 3, ["mon"], ["us-west-2"])

  /** The policy of those options. */
  lemma WeeklyOptionsPolicy()
    ensures DerivePolicy(Parsed(WeeklyOptions), DefaultRetentionDays) == MondayPolicy
  {
    SplitWithoutSeparator("mon", ',');
    SplitWithoutSeparator("us-west-2", ',');
    assert DecimalValue("3") == 3 by {
      assert "3"[..0] == "";
    }
  }

  /** The policy of the weekly tag. */
  lemma WeeklyPolicy()
    ensures DerivePolicy(DecodeVolumeTag(WeeklyTag), DefaultRetentionDays) == MondayPolicy
  {
    DecodeWeeklyTag();
    WeeklyOptionsPolicy();
  }

  /** A lower-case three-letter word is its own token. */
  lemma LowerToken(w: string)
    requires |w| == 3 && 'a' <= w[0] <= 'z' && 'a' <= w[1] <= 'z' && 'a' <= w[2] <= 'z'
    ensures WeekdayTokens([w]) == [w]
  {
    StripWord(w);
    LowerWord(w);
    assert [LowerChar(w[0]), w[1], w[2]] == w;
  }

  lemma MondaysOnNewYear()
    ensures !IsSkipped(MondayPolicy, Date(2024, 1, 1))
  {
    NewYear2024IsMonday();
    LowerToken("mon");
  }

  lemma ThreeDaysAfterNewYear()
    ensures AddDays(Date(2024, 1, 1), 3) == Some(Date(2024, 1, 4))
  {
    var later := Date(2024, 1, 4);
    assert ToOrdinal(later) == 738889;
    assert ToOrdinal(Date(2024, 1, 1)) == 738886;
    OrdinalOrder(AddDays(Date(2024, 1, 1), 3).value, later);
  }

  lemma ReadWeeklyTag()
    ensures ReadSnapshotTag(EncodeSnapshotTag(Date(2024, 1, 4), ["us-west-2"])) == Read(Date(2024, 1, 4), ["us-west-2"])
  {
    PlainWord("us-west-2");
    ReadCleanTag(Date(2024, 1, 4), ["us-west-2"]);
  }

  lemma ExpiresOnFourth()
    ensures !ShouldExpire(Date(2024, 1, 4), Date(2024, 1, 3)) && ShouldExpire(Date(2024, 1, 4), Date(2024, 1, 4))
  {
    var later := Date(2024, 1, 4);
    assert ToOrdinal(later) == 738889;
    assert ToOrdinal(Date(2024, 1, 3)) == 738888;
    ShouldExpireByOrdinal(later, Date(2024, 1, 3));
    ShouldExpireByOrdinal(later, later);
  }

  /** `str(date(2024, 1, 4))`. */
  lemma FormatFourth2024()
    ensures FormatIso(Date(2024, 1, 4)) == "2024-01-04"
  {
    assert PadDecimal(2024, 4) == "2024";
    assert PadDecimal(4, 2) == "04";
  }

  /** The tag a snapshot expiring on 2024-01-04 and bound for `us-west-2` is written with. */
  lemma FourthTagText()
    ensures EncodeSnapshotTag(Date(2024, 1, 4), ["us-west-2"]) == "2024-01-04" + ";" + "us-west-2"
  {
    var d := "us-west-2";
    assert Join([d], ',') == d;
    FormatFourth2024();
  }

  /** The handler's default tag key. */
  const SchedulerKey := "scheduler:ebs-auto-snapshot-creation"

  /** An unattached volume in `us-east-1` carrying the weekly tag. */
  const WeeklyVolume := Volume("vol-1", "us-east-1", "available", map[SchedulerKey := WeeklyTag], None)

  /** A run on Monday 2024-01-01 over `us-east-1` and `us-west-2`; `%M` puts the minute in the timestamp. */
  const NewYearEnv := Manager.Env(Date(2024, 1, 1), "2024-00-01_08-00-00", ["us-east-1", "us-west-2"], DefaultRetentionDays, SchedulerKey)

  /** An enabled, unskipped, unattached volume is taken under the name `-`. */
  lemma UnattachedTake(env: Manager.Env, v: Volume, p: Policy, expiry: Date)
    requires ValidDate(env.today) && env.tagKey in v.tags && v.attachment.None?
    requires DerivePolicy(DecodeVolumeTag(v.tags[env.tagKey]), env.defaultRetention) == p
    requires p.enabled && !IsSkipped(p, env.today) && AddDays(env.today, p.retentionDays) == Some(expiry)
    ensures Manager.VolumePlan(env, v, None)
         == Manager.Take(Description(v.id, "-", "-", "-", DescriptionLabel(p, env.today, env.timestamp)),
                         Manager.NewSnapshotTags(env, v, p, expiry), "-")
  {
  }

  /** With nothing in the store, a volume planned for a snapshot gets exactly that one snapshot. */
  lemma FirstTake(env: Manager.Env, region: string, v: Volume, description: string, tags: map<string, string>, name: string)
    requires ValidDate(env.today) && env.tagKey in v.tags
    requires Manager.VolumePlan(env, v, None) == Manager.Take(description, tags, name)
    ensures Manager.VolumeStep(env, region, Manager.Progress([], None, None), v)
         == Manager.Progress([Snapshot(region, description, tags, false, true)], Some(name), None)
  {
    assert RegionDescriptions([], region) == {};
    assert AddSnapshot([], region, description, tags) == [Snapshot(region, description, tags, false, true)];
  }

  lemma WeeklyVolumePolicy()
    ensures DerivePolicy(DecodeVolumeTag(WeeklyVolume.tags[NewYearEnv.tagKey]), NewYearEnv.defaultRetention) == MondayPolicy
  {
    WeeklyPolicy();
  }

  /** The description of a weekly snapshot taken on 2024-01-01 ends with the date. */
  lemma NewYearLabel()
    ensures DescriptionLabel(MondayPolicy, NewYearEnv.today, NewYearEnv.timestamp) == "2024-01-01"
  {
    FormatNewYear2024();
  }

  /** The snapshot gets only the management tag, since `copytags` is not set. */
  lemma NewYearTags()
    ensures Manager.NewSnapshotTags(NewYearEnv, WeeklyVolume, MondayPolicy, Date(2024, 1, 4))
         == map[SchedulerKey := "2024-01-04" + ";" + "us-west-2"]
  {
    FourthTagText();
  }

  /**
    That volume on Monday 2024-01-01, with nothing in the store: exactly one snapshot is taken,
    tagged `2024-01-04;us-west-2`, and the tag reads back as that date with the one destination.
   */
  lemma WeeklyVolumeOnNewYear()
    ensures Manager.VolumeStep(NewYearEnv, "us-east-1", Manager.Progress([], None, None), WeeklyVolume)
         == Manager.Progress([Snapshot("us-east-1", Description("vol-1", "-", "-", "-", "2024-01-01"),
                                       map[SchedulerKey := "2024-01-04" + ";" + "us-west-2"], false, true)],
                             Some("-"), None)
    ensures ReadSnapshotTag("2024-01-04" + ";" + "us-west-2") == Read(Date(2024, 1, 4), ["us-west-2"])
  {
    WeeklyVolumePolicy();
    MondaysOnNewYear();
    ThreeDaysAfterNewYear();
    UnattachedTake(NewYearEnv, WeeklyVolume, MondayPolicy, Date(2024, 1, 4));
    NewYearLabel();
    NewYearTags();
    FirstTake(NewYearEnv, "us-east-1", WeeklyVolume, Description("vol-1", "-", "-", "-", "2024-01-01"),
              map[SchedulerKey := "2024-01-04" + ";" + "us-west-2"], "-");
    FourthTagText();
    ReadWeeklyTag();
  }
}
