/** The static catalog of supported time zones and the nominal-offset lookup.
    Offsets are nominal: a zone has one offset whatever the date, so there is
    no daylight-saving resolution anywhere in the model. */
module TimezoneRegistry {

  /** One catalog entry: the zone identifier and its nominal offset from UTC,
      stored as whole minutes (the catalog's hour value times 60). */
  datatype TimezoneInfo = TimezoneInfo(value: string, offsetMinutes: int)

  /** The catalog, in the order the code lists it. */
  const CommonTimezones: seq<TimezoneInfo> := [
    TimezoneInfo("Asia/Shanghai", 480),
    TimezoneInfo("America/New_York", -300),
    TimezoneInfo("America/Los_Angeles", -480),
    TimezoneInfo("Europe/Rome", 60),
    TimezoneInfo("Europe/London", 0),
    TimezoneInfo("Europe/Paris", 60),
    TimezoneInfo("Asia/Tokyo", 540),
    TimezoneInfo("Asia/Seoul", 540),
    TimezoneInfo("Asia/Singapore", 480),
    TimezoneInfo("Australia/Sydney", 600),
    TimezoneInfo("Asia/Dubai", 240),
    TimezoneInfo("Asia/Kolkata", 330),
    TimezoneInfo("Europe/Berlin", 60),
    TimezoneInfo("America/Chicago", -360),
    TimezoneInfo("America/Denver", -420),
    TimezoneInfo("Pacific/Honolulu", -600),
    TimezoneInfo("UTC", 0)
  ]

  /** The identifiers a catalog names. */
  function Ids(catalog: seq<TimezoneInfo>): set<string> {
    set i | 0 <= i < |catalog| :: catalog[i].value
  }

  /** No identifier appears twice in the catalog. */
  predicate DistinctIds(catalog: seq<TimezoneInfo>) {
    forall i, j :: 0 <= i < j < |catalog| ==> catalog[i].value != catalog[j].value
  }

  /** `find` over the catalog followed by the fallback: the offset of the
      first entry whose identifier is `zone`, and 0 (UTC) when there is none. */
  function OffsetIn(catalog: seq<TimezoneInfo>, zone: string): int {
    if |catalog| == 0 then 0
    else if catalog[0].value == zone then catalog[0].offsetMinutes
    else OffsetIn(catalog[1..], zone)
  }

  /** The offset lookup the rest of the system uses, over the built-in catalog. */
  function TimezoneOffset(zone: string): (r: int)
    ensures -600 <= r <= 600
    ensures r % 30 == 0
  {
    CommonOffsetsBounded();
    OffsetBounded(CommonTimezones, zone);
    OffsetIn(CommonTimezones, zone)
  }

  /** The lookup is a `find`: an unnamed identifier gets 0, and a named one
      gets the offset of the first entry that names it. */
  lemma {:induction false} OffsetIsFirstMatch(catalog: seq<TimezoneInfo>, zone: string)
    ensures zone !in Ids(catalog) ==> OffsetIn(catalog, zone) == 0
    ensures zone in Ids(catalog) ==>
      exists i :: (0 <= i < |catalog| && catalog[i].value == zone &&
                   OffsetIn(catalog, zone) == catalog[i].offsetMinutes &&
                   forall j :: 0 <= j < i ==> catalog[j].value != zone)
  {
    if |catalog| > 0 {
      var rest := catalog[1..];
      OffsetIsFirstMatch(rest, zone);
      assert Ids(catalog) == {catalog[0].value} + Ids(rest) by {
        forall z | z in Ids(catalog) ensures z in {catalog[0].value} + Ids(rest) {
          var i :| 0 <= i < |catalog| && catalog[i].value == z;
          if i > 0 { assert rest[i - 1].value == z; }
        }
        forall z | z in Ids(rest) ensures z in Ids(catalog) {
          var i :| 0 <= i < |rest| && rest[i].value == z;
          assert catalog[i + 1].value == z;
        }
      }
      if catalog[0].value != zone && zone in Ids(rest) {
        var i :| 0 <= i < |rest| && rest[i].value == zone &&
          OffsetIn(rest, zone) == rest[i].offsetMinutes &&
          forall j :: 0 <= j < i ==> rest[j].value != zone;
        assert catalog[i + 1] == rest[i];
        forall j | 0 <= j < i + 1 ensures catalog[j].value != zone {
          if j > 0 { assert catalog[j] == rest[j - 1]; }
        }
      }
    }
  }

  /** A catalog of bounded offsets yields a bounded offset. */
  lemma {:induction false} OffsetBounded(catalog: seq<TimezoneInfo>, zone: string)
    requires OffsetsBounded(catalog)
    ensures -600 <= OffsetIn(catalog, zone) <= 600 && OffsetIn(catalog, zone) % 30 == 0
  {
    if |catalog| > 0 && catalog[0].value != zone {
      assert OffsetsBounded(catalog[1..]) by {
        forall i | 0 <= i < |catalog| - 1 ensures -600 <= catalog[1..][i].offsetMinutes <= 600 && catalog[1..][i].offsetMinutes % 30 == 0 {
          assert catalog[1..][i] == catalog[i + 1];
        }
      }
      OffsetBounded(catalog[1..], zone);
    }
  }

  /** Every nominal offset is a whole number of half hours within ten hours of UTC. */
  predicate OffsetsBounded(catalog: seq<TimezoneInfo>) {
    forall i :: 0 <= i < |catalog| ==>
      -600 <= catalog[i].offsetMinutes <= 600 && catalog[i].offsetMinutes % 30 == 0
  }

  lemma CommonOffsetsBounded()
    ensures OffsetsBounded(CommonTimezones)
  {
    forall i | 0 <= i < |CommonTimezones|
      ensures -600 <= CommonTimezones[i].offsetMinutes <= 600 && CommonTimezones[i].offsetMinutes % 30 == 0
    {
      EntryBounded(i);
    }
  }

  lemma EntryBounded(i: nat)
    requires i < |CommonTimezones|
    ensures -600 <= CommonTimezones[i].offsetMinutes <= 600 && CommonTimezones[i].offsetMinutes % 30 == 0
  {
  }

  lemma CommonTimezonesDistinct()
    ensures DistinctIds(CommonTimezones)
  {
    forall i | 0 <= i < |CommonTimezones|
      ensures forall j :: i < j < |CommonTimezones| ==> CommonTimezones[i].value != CommonTimezones[j].value
    {
      EntryDistinct(i);
    }
  }

  /** The identifier of entry `i` appears at no later position. */
  lemma EntryDistinct(i: nat)
    requires i < |CommonTimezones|
    ensures forall j :: i < j < |CommonTimezones| ==> CommonTimezones[i].value != CommonTimezones[j].value
  {
  }

  /** An entry that no earlier entry shadows gives the lookup its offset. */
  lemma {:induction false} FirstOccurrence(catalog: seq<TimezoneInfo>, i: nat)
    requires i < |catalog|
    requires forall j :: 0 <= j < i ==> catalog[j].value != catalog[i].value
    ensures OffsetIn(catalog, catalog[i].value) == catalog[i].offsetMinutes
  {
    if i > 0 {
      assert catalog[1..][i - 1] == catalog[i];
      FirstOccurrence(catalog[1..], i - 1);
    }
  }

  /** An identifier that no entry names gets 0. */
  lemma {:induction false} NotFound(catalog: seq<TimezoneInfo>, zone: string)
    requires forall i :: 0 <= i < |catalog| ==> catalog[i].value != zone
    ensures OffsetIn(catalog, zone) == 0
  {
    if |catalog| > 0 {
      assert forall i :: 0 <= i < |catalog| - 1 ==> catalog[1..][i] == catalog[i + 1];
      NotFound(catalog[1..], zone);
    }
  }

  /** With distinct identifiers, the lookup returns exactly the offset of the
      entry that names the zone. */
  lemma OffsetOfEntry(catalog: seq<TimezoneInfo>, i: nat)
    requires DistinctIds(catalog)
    requires i < |catalog|
    ensures OffsetIn(catalog, catalog[i].value) == catalog[i].offsetMinutes
  {
    FirstOccurrence(catalog, i);
  }

  /** Every catalog zone gets its own nominal offset, and every other
      identifier gets 0. */
  lemma CatalogOffsets(zone: string)
    ensures forall i :: 0 <= i < |CommonTimezones| ==> TimezoneOffset(CommonTimezones[i].value) == CommonTimezones[i].offsetMinutes
    ensures zone !in Ids(CommonTimezones) ==> TimezoneOffset(zone) == 0
  {
    CommonTimezonesDistinct();
    OffsetIsFirstMatch(CommonTimezones, zone);
    forall i | 0 <= i < |CommonTimezones|
      ensures TimezoneOffset(CommonTimezones[i].value) == CommonTimezones[i].offsetMinutes
    {
      OffsetOfEntry(CommonTimezones, i);
    }
  }

  /** Sample lookups: the offsets of three catalog zones. */
  lemma SampleOffsets()
    ensures TimezoneOffset("Asia/Shanghai") == 480
    ensures TimezoneOffset("Asia/Kolkata") == 330
    ensures TimezoneOffset("America/New_York") == -300
  {
    FirstOccurrence(CommonTimezones, 0);
    FirstOccurrence(CommonTimezones, 1);
    assert TimezoneOffset("Asia/Kolkata") == 330 by {
      KolkataUnshadowed();
      FirstOccurrence(CommonTimezones, 11);
    }
  }

  lemma KolkataUnshadowed()
    ensures forall j :: 0 <= j < 11 ==> CommonTimezones[j].value != CommonTimezones[11].value
  {
  }

  /** An identifier the catalog does not name falls back to UTC. */
  lemma UnknownZoneOffset()
    ensures TimezoneOffset("GMT+8") == 0
  {
    assert forall i :: 0 <= i < |CommonTimezones| ==> |CommonTimezones[i].value| != 5;
    NotFound(CommonTimezones, "GMT+8");
  }
}
