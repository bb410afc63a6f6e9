/** scrapers/fgs_scraper.py: per season, the number of two- and three-point
    field goals attempted, from the rows of a ShotChartDetail response; and the
    loop over the seasons 2008-09 to 2024-25 that collects one entry per season. */
module AttemptScraper {
  import opened Wrappers
  import opened Seqs
  import opened Strings
  import opened ShotChart

  /** One entry of `field_goal_attempts`:
      {'season', '2pts_attempted', '3pts_attempted'}. */
  datatype Attempts = Attempts(season: string, twoPtsAttempted: nat, threePtsAttempted: nat)

  const StartYear: nat := 2008
  const EndYear: nat := 2024

  /** How often t occurs in s. */
  function Occurrences(s: seq<string>, t: string): nat
  {
    if s == [] then 0 else (if s[0] == t then 1 else 0) + Occurrences(s[1..], t)
  }

  /** `Series.get(key, default)`. */
  function Get(m: map<string, nat>, key: string, default: nat): nat
  {
    if key in m then m[key] else default
  }

  /** `groupby('SHOT_TYPE').size()`: one entry per distinct value, holding how
      many rows have it; values that do not occur have no entry. */
  function GroupSizes(types: seq<string>): (m: map<string, nat>)
    ensures forall t :: t in m <==> t in types
    ensures forall t :: t in m ==> m[t] == Occurrences(types, t)
  {
    if types == [] then map[]
    else
      var rest := GroupSizes(types[1..]);
      OccurrencesAbsent(types[1..], types[0]);
      rest[types[0] := Get(rest, types[0], 0) + 1]
  }

  /** A missing key reads as the default: a type that no row has is counted 0. */
  lemma GetGroupSize(types: seq<string>, t: string)
    ensures Get(GroupSizes(types), t, 0) == Occurrences(types, t)
  {
    OccurrencesAbsent(types, t);
  }

  lemma {:induction false} OccurrencesAbsent(s: seq<string>, t: string)
    ensures t !in s ==> Occurrences(s, t) == 0
  {
    if s != [] {
      OccurrencesAbsent(s[1..], t);
    }
  }

  /** The raw type of this row names a three-pointer. */
  predicate IsThreeRaw(row: RawShot)
  {
    Contains(row.shotType, "3PT")
  }

  /** The SHOT_TYPE column after `apply(lambda x: '3PT' if '3PT' in x else '2PT')`. */
  function ClassifiedTypes(rows: seq<RawShot>): seq<string>
  {
    Map(rows, (r: RawShot) => ClassifyShotType(r.shotType))
  }

  /** After classification, "3PT" occurs once per row whose raw type contains
      "3PT" and "2PT" once per every other row. */
  lemma {:induction false} ClassifiedCounts(rows: seq<RawShot>)
    ensures Occurrences(ClassifiedTypes(rows), "3PT") == |Filter(rows, IsThreeRaw)|
    ensures Occurrences(ClassifiedTypes(rows), "2PT") + |Filter(rows, IsThreeRaw)| == |rows|
  {
    if rows != [] {
      ClassifiedCounts(rows[1..]);
      assert ClassifiedTypes(rows)[1..] == ClassifiedTypes(rows[1..]);
      assert ClassifiedTypes(rows)[0] == ClassifyShotType(rows[0].shotType);
      ContainsIff(rows[0].shotType, "3PT");
    }
  }

  /** `fetch_attempted_data(season)`, given what the API call produced: `None`
      when it raised, the rows of the response otherwise. */
  function FetchAttemptedData(season: string, response: Option<seq<RawShot>>): (r: Attempts)
    ensures r.season == season
    ensures response.None? ==> r.twoPtsAttempted == 0 && r.threePtsAttempted == 0
    ensures response.Some? ==> r.threePtsAttempted == |Filter(response.value, IsThreeRaw)|
    ensures response.Some? ==> r.twoPtsAttempted + r.threePtsAttempted == |response.value|
  {
    match response
    case None => Attempts(season, 0, 0)
    case Some(rows) =>
      var attempts := GroupSizes(ClassifiedTypes(rows));
      GetGroupSize(ClassifiedTypes(rows), "2PT");
      GetGroupSize(ClassifiedTypes(rows), "3PT");
      ClassifiedCounts(rows);
      Attempts(season, Get(attempts, "2PT", 0), Get(attempts, "3PT", 0))
  }

  /** A season with no three-point rows gets 0 three-point attempts rather
      than failing on the missing group, and likewise for two-pointers. */
  lemma AbsentTypeCountsZero(season: string, rows: seq<RawShot>)
    ensures (forall i :: 0 <= i < |rows| ==> !IsThreeRaw(rows[i])) ==>
              FetchAttemptedData(season, Some(rows)).threePtsAttempted == 0
    ensures (forall i :: 0 <= i < |rows| ==> IsThreeRaw(rows[i])) ==>
              FetchAttemptedData(season, Some(rows)).twoPtsAttempted == 0
  {
    FilterFull(rows, IsThreeRaw);
  }

  /** The entry the loop appends for `year`. */
  function EntryFor(fetch: nat -> Option<seq<RawShot>>, year: nat): Attempts
  {
    FetchAttemptedData(SeasonLabel(year), fetch(year))
  }

  /** The top-level loop: for each year from 2008 to 2024, build the season
      label, fetch that season, and append its entry. The API is `fetch`:
      fetch(year) is its answer to the request for season SeasonLabel(year),
      None when the request raised. */
  method CollectAttempts(fetch: nat -> Option<seq<RawShot>>) returns (fieldGoalAttempts: seq<Attempts>)
    ensures |fieldGoalAttempts| == EndYear - StartYear + 1
    ensures forall i :: 0 <= i < |fieldGoalAttempts| ==>
              fieldGoalAttempts[i] == EntryFor(fetch, StartYear + i)
    ensures forall i, j :: 0 <= i < j < |fieldGoalAttempts| ==>
              LexLess(fieldGoalAttempts[i].season, fieldGoalAttempts[j].season)
  {
    fieldGoalAttempts := [];
    for year := 2008 to EndYear + 1
      invariant |fieldGoalAttempts| == year - StartYear
      invariant forall i :: 0 <= i < |fieldGoalAttempts| ==>
                  fieldGoalAttempts[i] == EntryFor(fetch, StartYear + i)
    {
      var season := SeasonLabel(year);
      var seasonData := FetchAttemptedData(season, fetch(year));
      fieldGoalAttempts := fieldGoalAttempts + [seasonData];
    }
    EntriesInYearOrder(fieldGoalAttempts);
  }

  /** Entries labelled with consecutive years from 2008 are in chronological
      order of their seasons. */
  lemma EntriesInYearOrder(entries: seq<Attempts>)
    requires |entries| <= 10000 - StartYear
    requires forall i :: 0 <= i < |entries| ==> entries[i].season == SeasonLabel(StartYear + i)
    ensures forall i, j :: 0 <= i < j < |entries| ==> LexLess(entries[i].season, entries[j].season)
  {
    var labels := seq(|entries|, i requires 0 <= i < |entries| => entries[i].season);
    assert forall i :: 0 <= i < |entries| ==> labels[i] == entries[i].season;
    SeasonsInYearOrder(StartYear, labels);
  }
}
