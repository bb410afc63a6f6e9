/** scrapers/fetch_shot_with_quater.py: per season, the made shots of a
    ShotChartDetail response with their type reduced to 2PT/3PT, tagged with the
    season and cut down to seven columns; the loop over the seasons 2008-09 to
    2023-24 that keeps the seasons whose fetch succeeded; and the final
    concatenation into one table. */
module ShotScraper {
  import opened Wrappers
  import opened Seqs
  import opened Strings
  import opened ShotChart

  /** One row of `all_made_shots_with_quater.csv`: the columns
      LOC_X, LOC_Y, SHOT_TYPE, GAME_ID, GAME_DATE, PERIOD, SEASON. */
  datatype ShotRecord = ShotRecord(
    locX: int,
    locY: int,
    shotType: string,
    gameId: string,
    gameDate: string,
    period: int,
    season: string)

  const StartYear: nat := 2008
  const EndYear: nat := 2023

  /** `SHOT_MADE_FLAG == 1`. */
  predicate IsMade(row: RawShot)
  {
    row.shotMadeFlag == 1
  }

  /** A made shot after `SHOT_TYPE` is classified, `SEASON` is set and the seven
      columns are selected. */
  function Project(row: RawShot, season: string): ShotRecord
  {
    ShotRecord(row.locX, row.locY, ClassifyShotType(row.shotType), row.gameId, row.gameDate, row.period, season)
  }

  /** `fetch_shot_data(season)`, given what the API call produced: `None` when
      it raised (and then the function returns None), the rows of the response
      otherwise. */
  function FetchShotData(season: string, response: Option<seq<RawShot>>): (r: Option<seq<ShotRecord>>)
    ensures r.Some? <==> response.Some?
    ensures r.Some? ==> |r.value| == |Filter(response.value, IsMade)| <= |response.value|
  {
    match response
    case None => None
    case Some(rows) => Some(Map(Filter(rows, IsMade), (row: RawShot) => Project(row, season)))
  }

  /** Record i is the i-th made shot of the response, its seven columns copied,
      its type classified and its season set. */
  lemma FetchShotDataFields(season: string, rows: seq<RawShot>)
    ensures forall i :: 0 <= i < |FetchShotData(season, Some(rows)).value| ==>
              var row := Filter(rows, IsMade)[i];
              var o := FetchShotData(season, Some(rows)).value[i];
              && o.season == season
              && o.shotType == ClassifyShotType(row.shotType)
              && o.locX == row.locX && o.locY == row.locY
              && o.gameId == row.gameId && o.gameDate == row.gameDate
              && o.period == row.period
  {
  }

  /** Only made shots come out, each one classified as 2PT or 3PT and tagged with
      the requested season. */
  lemma FetchShotDataRecords(season: string, rows: seq<RawShot>)
    ensures forall o :: o in FetchShotData(season, Some(rows)).value ==>
              o.season == season && (o.shotType == "2PT" || o.shotType == "3PT")
    ensures forall i :: 0 <= i < |rows| && !IsMade(rows[i]) ==>
              |FetchShotData(season, Some(rows[..i] + rows[i + 1..])).value| == |FetchShotData(season, Some(rows)).value|
  {
    FetchShotDataFields(season, rows);
    forall i | 0 <= i < |rows| && !IsMade(rows[i])
      ensures |FetchShotData(season, Some(rows[..i] + rows[i + 1..])).value| == |FetchShotData(season, Some(rows)).value|
    {
      assert rows == rows[..i] + ([rows[i]] + rows[i + 1..]);
      FilterConcat(rows[..i], [rows[i]] + rows[i + 1..], IsMade);
      FilterConcat([rows[i]], rows[i + 1..], IsMade);
      FilterConcat(rows[..i], rows[i + 1..], IsMade);
    }
  }

  /** The input order is kept: the records of a response made of two parts are
      those of the first part followed by those of the second. */
  lemma FetchShotDataKeepsOrder(season: string, a: seq<RawShot>, b: seq<RawShot>)
    ensures FetchShotData(season, Some(a + b)).value
         == FetchShotData(season, Some(a)).value + FetchShotData(season, Some(b)).value
  {
    FilterConcat(a, b, IsMade);
  }

  /** The years from 2008 up to hi-1 whose fetch succeeded, in ascending order. */
  function SuccessfulYears(fetch: nat -> Option<seq<RawShot>>, hi: nat): (ys: seq<nat>)
    ensures forall i, j :: 0 <= i < j < |ys| ==> ys[i] < ys[j]
    ensures forall k :: 0 <= k < |ys| ==> StartYear <= ys[k] < hi && fetch(ys[k]).Some?
    ensures forall y :: StartYear <= y < hi && fetch(y).Some? ==> y in ys
    decreases hi
  {
    if hi <= StartYear then []
    else
      var earlier := SuccessfulYears(fetch, hi - 1);
      var ok := fetch(hi - 1).Some?;
      var ys := earlier + (if ok then [hi - 1] else []);
      ys
  }

  /** The frame `fetch_shot_data` returns for a year whose fetch succeeded
      (empty for a failed year, which contributes no frame). */
  function FrameFor(fetch: nat -> Option<seq<RawShot>>, year: nat): seq<ShotRecord>
  {
    match fetch(year)
    case None => []
    case Some(rows) => FetchShotData(SeasonLabel(year), Some(rows)).value
  }

  /** The top-level loop: for each year from 2008 to 2023, fetch the season and
      append its frame to `all_data` unless the fetch returned None. The API is
      `fetch`: fetch(year) is its answer to the request for season
      SeasonLabel(year), None when the request raised. */
  method CollectShotData(fetch: nat -> Option<seq<RawShot>>) returns (allData: seq<seq<ShotRecord>>)
    ensures |allData| == |SuccessfulYears(fetch, EndYear + 1)|
    ensures forall i :: 0 <= i < |allData| ==>
              allData[i] == FrameFor(fetch, SuccessfulYears(fetch, EndYear + 1)[i])
  {
    allData := [];
    ghost var years: seq<nat> := [];
    for year := 2008 to EndYear + 1
      invariant years == SuccessfulYears(fetch, year)
      invariant allData == Map(years, (y: nat) => FrameFor(fetch, y))
    {
      var season := SeasonLabel(year);
      var seasonData := FetchShotData(season, fetch(year));
      if seasonData.Some? {
        allData := allData + [seasonData.value];
        years := years + [year];
      }
    }
  }

  /** `pd.concat(all_data, ignore_index=True)`; with no frame at all pandas
      raises ("No objects to concatenate") and nothing is saved. */
  function CombineSeasons(allData: seq<seq<ShotRecord>>): (r: Option<seq<ShotRecord>>)
    ensures r.None? <==> allData == []
    ensures r.Some? ==> |r.value| == SumLengths(allData)
  {
    if allData == [] then None else Some(Concat(allData))
  }

  /** A row of the concatenation comes from one of the frames. */
  lemma {:induction false} ConcatMember(xs: seq<seq<ShotRecord>>, x: ShotRecord)
    requires x in Concat(xs)
    ensures exists i :: 0 <= i < |xs| && x in xs[i]
  {
    if x !in xs[0] {
      ConcatMember(xs[1..], x);
      var i :| 0 <= i < |xs[1..]| && x in xs[1..][i];
      assert x in xs[i + 1];
    }
  }

  /** Every row of the combined table is a 2PT or 3PT shot labelled with one of
      the seasons whose fetch succeeded. */
  lemma CombinedRecords(fetch: nat -> Option<seq<RawShot>>, allData: seq<seq<ShotRecord>>)
    requires |allData| == |SuccessfulYears(fetch, EndYear + 1)|
    requires forall i :: 0 <= i < |allData| ==> allData[i] == FrameFor(fetch, SuccessfulYears(fetch, EndYear + 1)[i])
    requires allData != []
    ensures forall o :: o in CombineSeasons(allData).value ==>
              (o.shotType == "2PT" || o.shotType == "3PT") &&
              exists y :: y in SuccessfulYears(fetch, EndYear + 1) && o.season == SeasonLabel(y)
  {
    var ys := SuccessfulYears(fetch, EndYear + 1);
    forall o | o in CombineSeasons(allData).value
      ensures (o.shotType == "2PT" || o.shotType == "3PT") && exists y :: y in ys && o.season == SeasonLabel(y)
    {
      ConcatMember(allData, o);
      var i :| 0 <= i < |allData| && o in allData[i];
      FetchShotDataRecords(SeasonLabel(ys[i]), fetch(ys[i]).value);
      assert ys[i] in ys;
    }
  }
}
