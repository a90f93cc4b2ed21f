/**
  The management tag a snapshot carries, `YYYY-MM-DD;dest1,dest2,...`: how the handler writes
  it when it creates or copies a snapshot, how the expiry pass reads it back, the expiry
  rule, and which destinations the copy loop acts on.
 */
module SnapshotTag {
  import opened Wrappers
  import opened PyStr
  import opened Calendar

  /** `str(expire_date) + ';' + ','.join(destinations)`. */
  function EncodeSnapshotTag(expiry: Date, destinations: seq<string>): string
    requires ValidDate(expiry)
  {
    FormatIso(expiry) + ";" + Join(destinations, ',')
  }

  /** The tag a copy receives, `str(expire_date) + ';None'`: the literal destination `None`. */
  function TargetTag(expiry: Date): string
    requires ValidDate(expiry)
  {
    EncodeSnapshotTag(expiry, ["None"])
  }

  /**
    What the expiry pass makes of a tag value: skipped with a warning (it does not split into
    exactly two parts), an uncaught `strptime` error that ends the run (the first part is not a
    date), or the expiry date with the lower-cased, stripped destinations.
   */
  datatype Reading =
    | Skipped(raw: string)
    | Aborted
    | Read(expiry: Date, destinations: seq<string>)

  /** A destination as the reader leaves it: stripped, lower-case, without `,` or `;`. */
  predicate CleanName(s: string) {
    IsNormal(s) && ',' !in s && ';' !in s
  }

  /** `[dest.lower().strip() for dest in destinations]`. */
  function CleanDestinations(items: seq<string>): (r: seq<string>)
    ensures |r| == |items|
    ensures forall i | 0 <= i < |r| :: IsNormal(r[i])
    ensures forall i | 0 <= i < |r| :: ',' !in items[i] ==> ',' !in r[i]
    ensures forall i | 0 <= i < |r| :: ';' !in items[i] ==> ';' !in r[i]
  {
    var r := seq(|items|, i requires 0 <= i < |items| => Strip(Lower(items[i])));
    assert forall i | 0 <= i < |r| :: IsNormal(r[i]) && (',' !in items[i] ==> ',' !in r[i]) && (';' !in items[i] ==> ';' !in r[i]) by {
      forall i | 0 <= i < |r|
        ensures IsNormal(r[i]) && (',' !in items[i] ==> ',' !in r[i]) && (';' !in items[i] ==> ';' !in r[i])
      {
        StripOfLower(items[i]);
        NormalizeIsNormal(items[i]);
        if ',' !in items[i] {
          NormalizeKeepsAbsent(items[i], ',');
        }
        if ';' !in items[i] {
          NormalizeKeepsAbsent(items[i], ';');
        }
      }
    }
    r
  }

  /**
    The corrected reading: a value that does not split on `;` into exactly two parts is skipped,
    whatever it is (the empty value included).
   */
  function ReadSnapshotTag(value: string): (r: Reading)
    ensures r.Skipped? <==> |Split(value, ';')| != 2
    ensures r.Skipped? ==> r.raw == value
    ensures r.Aborted? <==> |Split(value, ';')| == 2 && ParseIso(Split(value, ';')[0]).None?
    ensures r.Read? ==> ParseIso(Split(value, ';')[0]) == Some(r.expiry) && ValidDate(r.expiry)
    ensures r.Read? ==> |r.destinations| >= 1
    ensures r.Read? ==> forall i | 0 <= i < |r.destinations| ::
                          CleanName(r.destinations[i])
  {
    var parts := Split(value, ';');
    if |parts| != 2 then Skipped(value)
    else
      match ParseIso(parts[0])
      case None => Aborted
      case Some(expiry) =>
        SplitKeepsAbsent(parts[1], ',', ';');
        Read(expiry, CleanDestinations(Split(parts[1], ',')))
  }

  /**
    The reading as the source performs it: `parser_error` holds the failing value and is used
    as a condition, so an empty value is not skipped and the stale `expire_date` and
    `destination_copy` left by earlier iterations make the next two lines raise.
   */
  function ReadSnapshotTagAsWritten(value: string): (r: Reading)
    ensures value != "" ==> r == ReadSnapshotTag(value)
    ensures value == "" ==> r.Aborted?
  {
    var parts := Split(value, ';');
    if |parts| != 2 then (if value != "" then Skipped(value) else Aborted)
    else
      match ParseIso(parts[0])
      case None => Aborted
      case Some(expiry) => Read(expiry, CleanDestinations(Split(parts[1], ',')))
  }

  /** `expire_date <= today_date`. */
  predicate ShouldExpire(expiry: Date, today: Date) {
    DateLe(expiry, today)
  }

  /** `[dest for dest in destinations if dest not in aws_regions]`. */
  function Remaining(destinations: seq<string>, regions: seq<string>): (r: seq<string>)
    ensures |r| <= |destinations|
  {
    if destinations == [] then []
    else
      var last := destinations[|destinations| - 1];
      Remaining(destinations[..|destinations| - 1], regions) + (if last in regions then [] else [last])
  }

  // ---------------------------------------------------------------------------
  // Properties

  /** Splitting `date;text` on `;` gives the two parts back when the text has no `;`. */
  lemma SplitTag(expiry: Date, text: string)
    requires ValidDate(expiry) && ';' !in text
    ensures Split(FormatIso(expiry) + ";" + text, ';') == [FormatIso(expiry), text]
  {
    var parts := [FormatIso(expiry), text];
    assert parts[1..] == [text];
    assert FormatIso(expiry) + ";" + text == Join(parts, ';');
    SplitOfJoin(parts, ';');
  }

  /**
    Round trip: a tag written with destinations free of `,` and `;` reads back as its expiry
    and the destinations stripped and lower-cased; no destinations read back as the single
    empty one.
   */
  lemma ReadEncodedTag(expiry: Date, destinations: seq<string>)
    requires ValidDate(expiry)
    requires forall i | 0 <= i < |destinations| :: ',' !in destinations[i] && ';' !in destinations[i]
    ensures ReadSnapshotTag(EncodeSnapshotTag(expiry, destinations))
         == Read(expiry, CleanDestinations(if destinations == [] then [""] else destinations))
  {
    var text := Join(destinations, ',');
    JoinKeepsAbsent(destinations, ',', ';');
    SplitTag(expiry, text);
    ParseFormatIso(expiry);
    if destinations == [] {
      SplitWithoutSeparator("", ',');
    } else {
      SplitOfJoin(destinations, ',');
    }
  }

  /**
    Every tag the handler writes holds a `;`, so it is not empty and the reading as written
    agrees with the corrected one on it.
   */
  lemma WrittenTagAsWritten(expiry: Date, destinations: seq<string>)
    requires ValidDate(expiry)
    ensures EncodeSnapshotTag(expiry, destinations) != ""
    ensures ReadSnapshotTagAsWritten(EncodeSnapshotTag(expiry, destinations)) == ReadSnapshotTag(EncodeSnapshotTag(expiry, destinations))
  {
    assert EncodeSnapshotTag(expiry, destinations)[|FormatIso(expiry)|] == ';';
  }

  /** Destinations that are already clean read back exactly. */
  lemma CleanDestinationsFixed(items: seq<string>)
    requires forall i | 0 <= i < |items| :: IsNormal(items[i])
    ensures CleanDestinations(items) == items
  {
    forall i | 0 <= i < |items|
      ensures CleanDestinations(items)[i] == items[i]
    {
      NormalFixed(items[i]);
    }
  }

  lemma CleanNone()
    ensures CleanDestinations(["None"]) == ["none"]
  {
    var lowered := Lower("None");
    assert lowered[0] == 'n' && lowered[1] == 'o' && lowered[2] == 'n' && lowered[3] == 'e';
    assert lowered == "none";
    StripNoop("none");
    var clean := CleanDestinations(["None"]);
    assert clean[0] == Strip(lowered);
  }

  /** A copy's tag reads back as the expiry and the single destination `none`. */
  lemma ReadTargetTag(expiry: Date)
    requires ValidDate(expiry)
    ensures ReadSnapshotTag(TargetTag(expiry)) == Read(expiry, ["none"])
  {
    var none := ["None"];
    assert forall i | 0 <= i < |none| :: ',' !in none[i] && ';' !in none[i] by {
      assert none[0] == "None";
    }
    CleanNone();
    ReadEncodedTag(expiry, none);
  }

  /** Clean destinations read back exactly; none reads back as the single empty one. */
  lemma ReadCleanTag(expiry: Date, items: seq<string>)
    requires ValidDate(expiry)
    requires forall i | 0 <= i < |items| :: CleanName(items[i])
    ensures ReadSnapshotTag(EncodeSnapshotTag(expiry, items)) == Read(expiry, if items == [] then [""] else items)
  {
    var kept := if items == [] then [""] else items;
    assert forall i | 0 <= i < |kept| :: IsNormal(kept[i]) by {
      StripNoop("");
    }
    ReadEncodedTag(expiry, items);
    CleanDestinationsFixed(kept);
  }

  /** What is left is exactly the destinations that are not regions of the list. */
  lemma {:induction false} RemainingMembers(destinations: seq<string>, regions: seq<string>, x: string)
    ensures x in Remaining(destinations, regions) <==> x in destinations && x !in regions
    decreases |destinations|
  {
    if destinations != [] {
      var n := |destinations| - 1;
      var init := destinations[..n];
      RemainingMembers(init, regions, x);
      assert destinations == init + [destinations[n]];
    }
  }

  lemma {:induction false} RemainingClean(destinations: seq<string>, regions: seq<string>)
    requires forall i | 0 <= i < |destinations| :: CleanName(destinations[i])
    ensures forall i | 0 <= i < |Remaining(destinations, regions)| :: CleanName(Remaining(destinations, regions)[i])
    decreases |destinations|
  {
    if destinations != [] {
      var init := destinations[..|destinations| - 1];
      assert forall i | 0 <= i < |init| :: init[i] == destinations[i];
      RemainingClean(init, regions);
    }
  }

  /** After a successful copy the source is retagged with the destinations outside the region list. */
  lemma ReadSourceRetag(expiry: Date, destinations: seq<string>, regions: seq<string>)
    requires ValidDate(expiry)
    requires forall i | 0 <= i < |destinations| :: CleanName(destinations[i])
    ensures var left := Remaining(destinations, regions);
            ReadSnapshotTag(EncodeSnapshotTag(expiry, left)) == Read(expiry, if left == [] then [""] else left)
  {
    RemainingClean(destinations, regions);
    ReadCleanTag(expiry, Remaining(destinations, regions));
  }

  /**
    Read back, the retagged source names no region of the list again, except the empty name
    when nothing remained and the list holds an empty region name.
   */
  lemma NoCopyTwice(expiry: Date, destinations: seq<string>, regions: seq<string>)
    requires ValidDate(expiry)
    requires forall i | 0 <= i < |destinations| ::
               CleanName(destinations[i])
    ensures var left := Remaining(destinations, regions);
            var r := ReadSnapshotTag(EncodeSnapshotTag(expiry, left));
            r.Read? && forall d | d in r.destinations :: d in regions ==> left == [] && d == ""
  {
    var left := Remaining(destinations, regions);
    var kept := if left == [] then [""] else left;
    ReadSourceRetag(expiry, destinations, regions);
    assert ReadSnapshotTag(EncodeSnapshotTag(expiry, left)).destinations == kept;
    forall d | d in kept && d in regions
      ensures left == [] && d == ""
    {
      RemainingMembers(destinations, regions, d);
    }
  }

  /** The corrected reading and the one as written differ only on the empty value. */
  lemma EmptySnapshotTag()
    ensures ReadSnapshotTag("") == Skipped("")
    ensures ReadSnapshotTagAsWritten("") == Aborted
  {
    SplitWithoutSeparator("", ';');
  }

  /** The expiry rule in terms of day numbers: expired from the expiry day on. */
  lemma ShouldExpireByOrdinal(expiry: Date, today: Date)
    requires ValidDate(expiry) && ValidDate(today)
    ensures ShouldExpire(expiry, today) <==> ToOrdinal(expiry) <= ToOrdinal(today)
  {
    OrdinalOrder(expiry, today);
  }

  /**
    A snapshot taken on `created` with `days` of retention is expired on `today` exactly when
    at least `days` days have passed.
   */
  lemma RetentionWindow(created: Date, days: int, today: Date)
    requires ValidDate(created) && ValidDate(today) && AddDays(created, days).Some?
    ensures ShouldExpire(AddDays(created, days).value, today) <==> ToOrdinal(today) - ToOrdinal(created) >= days
  {
    ShouldExpireByOrdinal(AddDays(created, days).value, today);
  }
}
