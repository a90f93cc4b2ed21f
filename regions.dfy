/**
  The regions the handler visits: the comma-separated override from the environment,
  stripped and lower-cased, or else every region the provider reports.
 */
module Regions {
  import opened Wrappers
  import opened PyStr

  /** A region name as the override yields it: stripped, lower-case and without a comma. */
  predicate RegionName(s: string) {
    IsNormal(s) && ',' !in s
  }

  /** `[region.strip().lower() for region in custom_aws_regions.split(',')]`. */
  function ParseRegionList(text: string): (regions: seq<string>)
    ensures |regions| == |Split(text, ',')| >= 1
    ensures forall i | 0 <= i < |regions| :: RegionName(regions[i])
  {
    var items := Split(text, ',');
    var regions := seq(|items|, i requires 0 <= i < |items| => Normalize(items[i]));
    assert forall i | 0 <= i < |regions| :: RegionName(regions[i]) by {
      forall i | 0 <= i < |regions|
        ensures RegionName(regions[i])
      {
        NormalizeIsNormal(items[i]);
        NormalizeKeepsAbsent(items[i], ',');
      }
    }
    regions
  }

  /**
    The regions a run visits: with an override, one clean name per comma-separated item of it,
    whatever the service reports; without, the service's region names as reported.
   */
  function RegionList(custom: Option<string>, discovered: seq<string>): (regions: seq<string>)
    ensures custom.Some? ==> |regions| == |Split(custom.value, ',')| >= 1
    ensures custom.Some? ==> forall i | 0 <= i < |regions| :: RegionName(regions[i])
    ensures custom.None? ==> regions == discovered
  {
    if custom.Some? then ParseRegionList(custom.value) else discovered
  }

  // ---------------------------------------------------------------------------
  // Properties

  /** Round trip: a list of clean region names written with commas parses back to itself. */
  lemma ParseJoinedRegions(regions: seq<string>)
    requires |regions| >= 1
    requires forall i | 0 <= i < |regions| :: RegionName(regions[i])
    ensures ParseRegionList(Join(regions, ',')) == regions
  {
    SplitOfJoin(regions, ',');
    forall i | 0 <= i < |regions|
      ensures ParseRegionList(Join(regions, ','))[i] == regions[i]
    {
      NormalFixed(regions[i]);
    }
  }

  /**
    An override that writes out a list of clean names with commas makes the run visit exactly
    those regions, in that order, whatever the service reports.
   */
  lemma OverrideRegions(names: seq<string>, discovered: seq<string>)
    requires |names| >= 1
    requires forall i | 0 <= i < |names| :: RegionName(names[i])
    ensures RegionList(Some(Join(names, ',')), discovered) == names
  {
    ParseJoinedRegions(names);
  }

  /** Writing the parsed list back out and parsing it again changes nothing. */
  lemma ParseRegionListIdempotent(text: string)
    ensures ParseRegionList(Join(ParseRegionList(text), ',')) == ParseRegionList(text)
  {
    ParseJoinedRegions(ParseRegionList(text));
  }

  /** An override with an empty item, such as a trailing comma, yields the empty region name. */
  lemma EmptyItemGivesEmptyName(text: string)
    requires exists i | 0 <= i < |Split(text, ',')| :: Strip(Split(text, ',')[i]) == ""
    ensures "" in ParseRegionList(text)
  {
    var items := Split(text, ',');
    var i :| 0 <= i < |items| && Strip(items[i]) == "";
    assert Lower("") == "";
    assert ParseRegionList(text)[i] == Normalize(items[i]);
  }
}
