/**
  The policy a volume's management tag configures: decoding `key=value;key=value`,
  the fields derived from it, the weekly/monthly skip rule, the snapshot description
  that serves as the idempotency key, and the decision to create.
 */
module VolumePolicy {
  import opened Wrappers
  import opened PyStr
  import opened Calendar

  /** One volume's tag value decoded: its options, or the raw value when it did not parse. */
  datatype Config = Parsed(entries: map<string, string>) | Unparsable(raw: string)

  /** An option splits on `=` into exactly a key and a value. */
  predicate WellFormedOption(option: string) {
    |Split(option, '=')| == 2
  }

  predicate AllWellFormed(options: seq<string>) {
    forall i | 0 <= i < |options| :: WellFormedOption(options[i])
  }

  function OptionKey(option: string): string
    requires WellFormedOption(option)
  {
    Normalize(Split(option, '=')[0])
  }

  function OptionValue(option: string): string
    requires WellFormedOption(option)
  {
    Normalize(Split(option, '=')[1])
  }

  /** The (key, value) pairs of the options, in order. */
  function OptionPairs(options: seq<string>): (pairs: seq<(string, string)>)
    requires AllWellFormed(options)
    ensures |pairs| == |options|
  {
    seq(|options|, i requires 0 <= i < |options| => (OptionKey(options[i]), OptionValue(options[i])))
  }

  /** The dictionary a list of pairs makes, a later key replacing an earlier one. */
  function PairsMap(pairs: seq<(string, string)>): map<string, string> {
    if pairs == [] then map[]
    else PairsMap(pairs[..|pairs| - 1])[pairs[|pairs| - 1].0 := pairs[|pairs| - 1].1]
  }

  /**
    Decoding the volume's tag value: split on `;`, each option on `=` into exactly two parts,
    keys and values stripped and lower-cased, a later key replacing an earlier one; any other
    option shape makes the whole value a parse error.
   */
  function DecodeVolumeTag(value: string): (c: Config)
    ensures c.Unparsable? <==> !AllWellFormed(Split(value, ';'))
    ensures c.Unparsable? ==> c.raw == value
    ensures c.Parsed? ==> c.entries == PairsMap(OptionPairs(Split(value, ';')))
  {
    var options := Split(value, ';');
    if AllWellFormed(options) then Parsed(PairsMap(OptionPairs(options))) else Unparsable(value)
  }

  /** `config.get(key)` where it is a string: absent keys and a parse error give None. */
  function Get(c: Config, key: string): Option<string> {
    if c.Parsed? && key in c.entries then Some(c.entries[key]) else None
  }

  /** `config.get(key, '')`. */
  function GetText(c: Config, key: string): string {
    if c.Parsed? && key in c.entries then c.entries[key] else ""
  }

  datatype Schedule = Always | Daily | Weekly | Monthly | Unset

  /** The fields the handler derives from a decoded tag. */
  datatype Policy = Policy(
    enabled: bool,
    copyTags: bool,
    schedule: Schedule,
    retentionDays: int,
    when: seq<string>,
    copyTo: seq<string>)

  /** The default retention when the environment does not override it. */
  const DefaultRetentionDays: int := 7

  /** `value in ('true', 'yes')`. */
  predicate IsYes(v: Option<string>) {
    v == Some("true") || v == Some("yes")
  }

  function ScheduleOf(v: Option<string>): Schedule {
    if v == Some("always") then Always
    else if v == Some("daily") then Daily
    else if v == Some("weekly") then Weekly
    else if v == Some("monthly") then Monthly
    else Unset
  }

  function ScheduleName(s: Schedule): string
    requires s != Unset
  {
    match s
    case Always => "always"
    case Daily => "daily"
    case Weekly => "weekly"
    case Monthly => "monthly"
  }

  /**
    The derived fields: `enable` and `copytags` hold only for `true` or `yes`, `type` is kept
    only when it names one of the four schedules, `retention` is taken only when it is all
    digits (otherwise the default), and `when` and `copyto` are comma lists (`['']` when absent).
    A tag that did not parse enables nothing.
   */
  function DerivePolicy(c: Config, defaultRetention: int): Policy {
    var retention := GetText(c, "retention");
    Policy(
      enabled := IsYes(Get(c, "enable")),
      copyTags := IsYes(Get(c, "copytags")),
      schedule := ScheduleOf(Get(c, "type")),
      retentionDays := if IsDigits(retention) then DecimalValue(retention) else defaultRetention,
      when := Split(GetText(c, "when"), ','),
      copyTo := Split(GetText(c, "copyto"), ','))
  }

  /** The fields the handler derives, each stated against the decoded options. */
  lemma PolicyFields(c: Config, defaultRetention: int)
    ensures var p := DerivePolicy(c, defaultRetention);
      && (p.enabled <==> (Get(c, "enable") == Some("true") || Get(c, "enable") == Some("yes")))
      && (p.copyTags <==> (Get(c, "copytags") == Some("true") || Get(c, "copytags") == Some("yes")))
      && (p.schedule != Unset <==> Get(c, "type") in {Some("always"), Some("daily"), Some("weekly"), Some("monthly")})
      && (p.schedule != Unset ==> Get(c, "type") == Some(ScheduleName(p.schedule)))
      && (IsDigits(GetText(c, "retention")) ==> p.retentionDays == DecimalValue(GetText(c, "retention")))
      && (!IsDigits(GetText(c, "retention")) ==> p.retentionDays == defaultRetention)
      && Join(p.when, ',') == GetText(c, "when") && Join(p.copyTo, ',') == GetText(c, "copyto")
      && (c.Unparsable? ==> !p.enabled && !p.copyTags && p.schedule == Unset && p.retentionDays == defaultRetention)
  {
  }

  // ---------------------------------------------------------------------------
  // Skip rule

  /** `[when.strip().lower()[:3] for when in when_to_run]`. */
  function WeekdayTokens(when: seq<string>): (r: seq<string>)
    ensures |r| == |when|
  {
    seq(|when|, i requires 0 <= i < |when| => Take(Normalize(when[i]), 3))
  }

  /** The day of the month a `when` item names for the monthly rule: an all-digit item from 1 to 31. */
  function MonthDayOf(w: string): (d: Option<int>)
    ensures d.Some? ==> 1 <= d.value <= 31
  {
    var t := Strip(w);
    if IsDigits(t) && 1 <= DecimalValue(t) <= 31 then Some(DecimalValue(t)) else None
  }

  /** The values of the `Some` entries, in order. */
  function Present(xs: seq<Option<int>>): seq<int> {
    if xs == [] then []
    else Present(xs[..|xs| - 1]) + (if xs[|xs| - 1].Some? then [xs[|xs| - 1].value] else [])
  }

  /** `[int(d) for d in when_to_run if d.strip().isdigit() and int(d) in range(1, 32)]`. */
  function MonthDays(when: seq<string>): seq<int> {
    Present(seq(|when|, i requires 0 <= i < |when| => MonthDayOf(when[i])))
  }

  /** An enabled volume is skipped on `today` when its weekly or monthly selection leaves today out. */
  predicate IsSkipped(p: Policy, today: Date)
    requires ValidDate(today)
  {
    || (p.schedule == Weekly && WeekdayAbbrev(today) !in WeekdayTokens(p.when))
    || (p.schedule == Monthly && today.day !in MonthDays(p.when))
  }

  // ---------------------------------------------------------------------------
  // Description and creation decision

  /** The date-precision or, for `always`, timestamp-precision part of the description. */
  function DescriptionLabel(p: Policy, today: Date, timestamp: string): string
    requires ValidDate(today)
  {
    if p.schedule == Always then timestamp else FormatIso(today)
  }

  /** `'Snapshot of [{}] attached to [{}] [{}] as [{}] on [{}]'.format(...)`. */
  function Description(volumeId: string, instanceId: string, instanceName: string, device: string, stamp: string): string {
    "Snapshot of [" + volumeId + "] attached to [" + instanceId + "] [" + instanceName + "] as ["
      + device + "] on [" + stamp + "]"
  }

  // ---------------------------------------------------------------------------
  // A reference encoder for the volume tag, to state the decoder's round trip

  function OptionText(pair: (string, string)): string {
    pair.0 + "=" + pair.1
  }

  function EncodeVolumeTag(pairs: seq<(string, string)>): string {
    Join(seq(|pairs|, i requires 0 <= i < |pairs| => OptionText(pairs[i])), ';')
  }

  /** A key or value that round-trips: already stripped and lower-case, with no `;` or `=`. */
  predicate PlainText(s: string) {
    IsNormal(s) && ';' !in s && '=' !in s
  }

  // ---------------------------------------------------------------------------
  // Properties of the decoder

  /** An empty tag value is a parse error: it splits into one option with no `=`. */
  lemma EmptyTagUnparsable()
    ensures DecodeVolumeTag("") == Unparsable("")
  {
    assert Split("", ';') == [""];
    assert Split("", '=') == [""];
    assert !WellFormedOption(Split("", ';')[0]);
  }

  /** A tag that does not decode enables nothing, so no snapshot is taken for it. */
  lemma UnparsableDisables(value: string, defaultRetention: int)
    requires exists i | 0 <= i < |Split(value, ';')| :: !WellFormedOption(Split(value, ';')[i])
    ensures !DerivePolicy(DecodeVolumeTag(value), defaultRetention).enabled
  {
  }

  /**
    The dictionary holds every key that some pair names, and each key's value is the one
    its last pair gives.
   */
  lemma {:induction false} PairsMapLastWins(pairs: seq<(string, string)>, k: string)
    ensures k in PairsMap(pairs) <==> exists i | 0 <= i < |pairs| :: pairs[i].0 == k
    ensures forall i | 0 <= i < |pairs| && pairs[i].0 == k ::
              (forall j | i < j < |pairs| :: pairs[j].0 != k) ==> PairsMap(pairs)[k] == pairs[i].1
    decreases |pairs|
  {
    if pairs != [] {
      var n := |pairs| - 1;
      var init := pairs[..n];
      PairsMapLastWins(init, k);
      assert forall i | 0 <= i < n :: init[i] == pairs[i];
    }
  }

  lemma {:induction false} PairsMapKeepsAbsent(pairs: seq<(string, string)>, c: char)
    requires forall i | 0 <= i < |pairs| :: c !in pairs[i].1
    ensures forall k | k in PairsMap(pairs) :: c !in PairsMap(pairs)[k]
    decreases |pairs|
  {
    if pairs != [] {
      var init := pairs[..|pairs| - 1];
      assert forall i | 0 <= i < |init| :: init[i] == pairs[i];
      PairsMapKeepsAbsent(init, c);
    }
  }

  /** No decoded value holds a `;`: every value comes from one `;`-separated option. */
  lemma DecodedValuesPlain(value: string, k: string)
    ensures ';' !in GetText(DecodeVolumeTag(value), k)
  {
    var options := Split(value, ';');
    if AllWellFormed(options) {
      var pairs := OptionPairs(options);
      forall i | 0 <= i < |pairs|
        ensures ';' !in pairs[i].1
      {
        SplitKeepsAbsent(options[i], '=', ';');
        NormalizeKeepsAbsent(Split(options[i], '=')[1], ';');
      }
      PairsMapKeepsAbsent(pairs, ';');
    }
  }

  /** The `copyto` destinations of a decoded tag hold neither `,` nor `;`. */
  lemma DecodedCopyToPlain(value: string, defaultRetention: int)
    ensures var p := DerivePolicy(DecodeVolumeTag(value), defaultRetention);
            forall i | 0 <= i < |p.copyTo| :: ',' !in p.copyTo[i] && ';' !in p.copyTo[i]
  {
    var text := GetText(DecodeVolumeTag(value), "copyto");
    DecodedValuesPlain(value, "copyto");
    SplitKeepsAbsent(text, ',', ';');
  }

  lemma SplitOption(k: string, v: string)
    requires '=' !in k && '=' !in v
    ensures Split(OptionText((k, v)), '=') == [k, v]
  {
    var parts := [k, v];
    assert parts[1..] == [v];
    assert OptionText((k, v)) == Join(parts, '=');
    SplitOfJoin(parts, '=');
  }

  lemma OptionOfPair(k: string, v: string)
    requires PlainText(k) && PlainText(v)
    ensures ';' !in OptionText((k, v))
    ensures WellFormedOption(OptionText((k, v)))
    ensures OptionKey(OptionText((k, v))) == k && OptionValue(OptionText((k, v))) == v
  {
    SplitOption(k, v);
    NormalFixed(k);
    NormalFixed(v);
  }

  /**
    Round trip: a tag written as `k1=v1;...;kn=vn` from plain keys and values decodes to the
    dictionary of those pairs, later keys winning.
   */
  lemma DecodeEncodeVolumeTag(pairs: seq<(string, string)>)
    requires |pairs| >= 1
    requires forall i | 0 <= i < |pairs| :: PlainText(pairs[i].0) && PlainText(pairs[i].1)
    ensures DecodeVolumeTag(EncodeVolumeTag(pairs)) == Parsed(PairsMap(pairs))
  {
    var options := seq(|pairs|, i requires 0 <= i < |pairs| => OptionText(pairs[i]));
    forall i | 0 <= i < |pairs|
      ensures ';' !in options[i] && WellFormedOption(options[i])
      ensures OptionKey(options[i]) == pairs[i].0 && OptionValue(options[i]) == pairs[i].1
    {
      OptionOfPair(pairs[i].0, pairs[i].1);
    }
    SplitOfJoin(options, ';');
    assert OptionPairs(options) == pairs;
  }

  // ---------------------------------------------------------------------------
  // Properties of the skip rule

  /** `always`, `daily` and an unset or unknown type are never skipped. */
  lemma OnlyWeeklyAndMonthlySkip(p: Policy, today: Date)
    requires ValidDate(today) && p.schedule != Weekly && p.schedule != Monthly
    ensures !IsSkipped(p, today)
  {
  }

  /** A weekly volume whose `when` names no weekday, as with `when` absent, is skipped every day. */
  lemma WeeklyWithoutDaysAlwaysSkipped(p: Policy, today: Date)
    requires ValidDate(today) && p.schedule == Weekly
    requires forall i | 0 <= i < |p.when| :: Take(Normalize(p.when[i]), 3) !in WeekdayNames
    ensures IsSkipped(p, today)
  {
  }

  /** An absent `when` is the single empty item. */
  lemma AbsentWhenNamesNoDay(c: Config, defaultRetention: int)
    requires GetText(c, "when") == ""
    ensures DerivePolicy(c, defaultRetention).when == [""]
    ensures Take(Normalize(""), 3) !in WeekdayNames
  {
    SplitWithoutSeparator("", ',');
  }

  /** The weekly rule repeats every seven days. */
  lemma WeeklyRepeats(p: Policy, today: Date)
    requires ValidDate(today) && p.schedule == Weekly && AddDays(today, 7).Some?
    ensures IsSkipped(p, today) == IsSkipped(p, AddDays(today, 7).value)
  {
    WeekdayPeriodic(today);
  }

  lemma {:induction false} PresentMembers(xs: seq<Option<int>>, x: int)
    ensures x in Present(xs) <==> exists i | 0 <= i < |xs| :: xs[i] == Some(x)
    decreases |xs|
  {
    if xs != [] {
      var n := |xs| - 1;
      var init := xs[..n];
      PresentMembers(init, x);
      assert forall i | 0 <= i < n :: init[i] == xs[i];
    }
  }

  /** Which items count as days of the month: all-digit items, read as numbers, from 1 to 31. */
  lemma MonthDaysMembers(when: seq<string>, day: int)
    ensures day in MonthDays(when) <==> exists i | 0 <= i < |when| :: MonthDayOf(when[i]) == Some(day)
  {
    var xs := seq(|when|, i requires 0 <= i < |when| => MonthDayOf(when[i]));
    PresentMembers(xs, day);
    assert forall i | 0 <= i < |when| :: xs[i] == MonthDayOf(when[i]);
  }

  /** A monthly volume is skipped exactly when no all-digit `when` item equals today's day of the month. */
  lemma MonthlySkipRule(p: Policy, today: Date)
    requires ValidDate(today) && p.schedule == Monthly
    ensures IsSkipped(p, today) <==> !exists i | 0 <= i < |p.when| :: IsDigits(Strip(p.when[i])) && DecimalValue(Strip(p.when[i])) == today.day
  {
    MonthDaysMembers(p.when, today.day);
  }

  /** The monthly rule depends only on the day of the month. */
  lemma MonthlyByDayOfMonth(p: Policy, a: Date, b: Date)
    requires ValidDate(a) && ValidDate(b) && p.schedule == Monthly && a.day == b.day
    ensures IsSkipped(p, a) == IsSkipped(p, b)
  {
  }

  // ---------------------------------------------------------------------------
  // Properties of the description

  /** Outside `always`, the description does not depend on the time of the run, only on the date. */
  lemma LabelIgnoresTimestamp(p: Policy, today: Date, t1: string, t2: string)
    requires ValidDate(today) && p.schedule != Always
    ensures DescriptionLabel(p, today, t1) == DescriptionLabel(p, today, t2) == FormatIso(today)
  {
  }

  /** The label is the description's last bracketed field, so two labels give two descriptions. */
  lemma DescriptionDeterminesLabel(volumeId: string, instanceId: string, instanceName: string, device: string, l1: string, l2: string)
    requires Description(volumeId, instanceId, instanceName, device, l1) == Description(volumeId, instanceId, instanceName, device, l2)
    ensures l1 == l2
  {
    var prefix := "Snapshot of [" + volumeId + "] attached to [" + instanceId + "] [" + instanceName + "] as [" + device + "] on [";
    var d1 := Description(volumeId, instanceId, instanceName, device, l1);
    var d2 := Description(volumeId, instanceId, instanceName, device, l2);
    assert d1 == prefix + l1 + "]";
    assert d2 == prefix + l2 + "]";
    assert l1 == d1[|prefix|..|d1| - 1];
    assert l2 == d2[|prefix|..|d2| - 1];
  }

  /** Outside `always`, snapshots of one volume taken on different days have different descriptions. */
  lemma DifferentDaysDifferentDescriptions(p: Policy, a: Date, b: Date, ta: string, tb: string,
                                           volumeId: string, instanceId: string, instanceName: string, device: string)
    requires ValidDate(a) && ValidDate(b) && a != b && p.schedule != Always
    ensures Description(volumeId, instanceId, instanceName, device, DescriptionLabel(p, a, ta))
         != Description(volumeId, instanceId, instanceName, device, DescriptionLabel(p, b, tb))
  {
    if Description(volumeId, instanceId, instanceName, device, DescriptionLabel(p, a, ta))
       == Description(volumeId, instanceId, instanceName, device, DescriptionLabel(p, b, tb)) {
      DescriptionDeterminesLabel(volumeId, instanceId, instanceName, device, DescriptionLabel(p, a, ta), DescriptionLabel(p, b, tb));
      FormatIsoInjective(a, b);
    }
  }
}
