/** scrapers/fetch_game_scores.py: per season, the mean over games of the
    points both teams scored, from the rows of a LeagueGameFinder response (one
    row per team and game); and the loop over the seasons 2008-09 to 2023-24
    that collects one entry per season. */
module GameScores {
  import opened Wrappers
  import opened Strings
  import opened ShotChart

  /** One row of the first frame of a LeagueGameFinder response, restricted
      to the columns the scraper reads: one team's points in one game. */
  datatype GameRow = GameRow(gameId: string, pts: int)

  /** A row after `TOTAL_POINTS` has been added to it. */
  datatype TotaledRow = TotaledRow(gameId: string, pts: int, totalPoints: int)

  /** The `average_points` column: the mean, pandas' NaN for the mean of no
      rows, or None when the request raised. */
  datatype Average = Mean(value: real) | NotANumber | Missing

  /** One entry of `average_points_per_season`. */
  datatype SeasonAverage = SeasonAverage(season: string, averagePoints: Average)

  const StartYear: nat := 2008
  const EndYear: nat := 2023

  /** The sum of `PTS` over all rows. */
  function SumPts(rows: seq<GameRow>): int
  {
    if rows == [] then 0 else rows[0].pts + SumPts(rows[1..])
  }

  /** The sum of `PTS` over the rows of game `id`. */
  function GameTotal(rows: seq<GameRow>, id: string): int
  {
    if rows == [] then 0 else (if rows[0].gameId == id then rows[0].pts else 0) + GameTotal(rows[1..], id)
  }

  /** The distinct `GAME_ID`s of a response. */
  function GameIds(rows: seq<GameRow>): set<string>
  {
    set i | 0 <= i < |rows| :: rows[i].gameId
  }

  /** The distinct `GAME_ID`s of a frame with totals. */
  function IdSet(s: seq<TotaledRow>): set<string>
  {
    set i | 0 <= i < |s| :: s[i].gameId
  }

  /** `games.groupby('GAME_ID')['PTS'].transform('sum')` stored as
      `TOTAL_POINTS`: every row keeps its columns and gets the points of all
      rows of its game. */
  function WithTotals(rows: seq<GameRow>): (r: seq<TotaledRow>)
    ensures |r| == |rows|
    ensures forall i :: 0 <= i < |rows| ==>
              r[i].gameId == rows[i].gameId && r[i].pts == rows[i].pts &&
              r[i].totalPoints == GameTotal(rows, rows[i].gameId)
  {
    seq(|rows|, i requires 0 <= i < |rows| => TotaledRow(rows[i].gameId, rows[i].pts, GameTotal(rows, rows[i].gameId)))
  }

  /** Index i holds the first row of its game. */
  predicate FirstOccurrence(s: seq<TotaledRow>, i: int)
  {
    0 <= i < |s| && forall j :: 0 <= j < i ==> s[j].gameId != s[i].gameId
  }

  /** No two rows share a `GAME_ID`. */
  predicate DistinctIds(s: seq<TotaledRow>)
  {
    forall i, j :: 0 <= i < j < |s| ==> s[i].gameId != s[j].gameId
  }

  /** `drop_duplicates(subset=['GAME_ID'])` with pandas' default `keep='first'`:
      a row stays when no earlier row has its `GAME_ID`. */
  function DropDuplicates(s: seq<TotaledRow>): seq<TotaledRow>
  {
    if s == [] then []
    else
      var init := s[..|s| - 1];
      var last := s[|s| - 1];
      DropDuplicates(init) + (if last.gameId in IdSet(init) then [] else [last])
  }

  /** A frame's ids are those of its rows but the last, plus the last one's. */
  lemma IdSetSnoc(s: seq<TotaledRow>)
    requires s != []
    ensures IdSet(s) == IdSet(s[..|s| - 1]) + {s[|s| - 1].gameId}
  {
    assert forall i :: 0 <= i < |s| - 1 ==> s[..|s| - 1][i] == s[i];
  }

  /** Deduplication loses no game. */
  lemma {:induction false} DropDuplicatesIds(s: seq<TotaledRow>)
    ensures IdSet(DropDuplicates(s)) == IdSet(s)
  {
    if s != [] {
      var init := s[..|s| - 1];
      DropDuplicatesIds(init);
      IdSetSnoc(s);
      var r := DropDuplicates(s);
      if s[|s| - 1].gameId in IdSet(init) {
        assert r == DropDuplicates(init);
      } else {
        assert r == DropDuplicates(init) + [s[|s| - 1]];
        IdSetSnoc(r);
        assert r[..|r| - 1] == DropDuplicates(init);
      }
    }
  }

  /** After deduplication no two rows share a `GAME_ID`. */
  lemma {:induction false} DropDuplicatesDistinct(s: seq<TotaledRow>)
    ensures DistinctIds(DropDuplicates(s))
  {
    if s != [] {
      var init := s[..|s| - 1];
      DropDuplicatesDistinct(init);
      DropDuplicatesIds(init);
      var kept := DropDuplicates(init);
      if s[|s| - 1].gameId in IdSet(init) {
        assert DropDuplicates(s) == kept;
      } else {
        var r := kept + [s[|s| - 1]];
        assert DropDuplicates(s) == r;
        forall i, j | 0 <= i < j < |r|
          ensures r[i].gameId != r[j].gameId
        {
          if j == |kept| {
            assert r[i] == kept[i];
            assert kept[i].gameId in IdSet(kept);
          }
        }
      }
    }
  }

  /** Row x is the first row of its game in s. */
  ghost predicate IsFirstRow(s: seq<TotaledRow>, x: TotaledRow)
  {
    exists i :: FirstOccurrence(s, i) && x == s[i]
  }

  /** Every row kept is the first row of its game ... */
  lemma {:induction false} DropDuplicatesFirsts(s: seq<TotaledRow>)
    ensures forall k :: 0 <= k < |DropDuplicates(s)| ==> IsFirstRow(s, DropDuplicates(s)[k])
  {
    if s == [] {
      assert DropDuplicates(s) == [];
    } else {
      var init := s[..|s| - 1];
      DropDuplicatesFirsts(init);
      var kept := DropDuplicates(init);
      var r := DropDuplicates(s);
      assert r == kept + (if s[|s| - 1].gameId in IdSet(init) then [] else [s[|s| - 1]]);
      forall k | 0 <= k < |r|
        ensures IsFirstRow(s, r[k])
      {
        if k < |kept| {
          assert IsFirstRow(init, kept[k]);
          var i :| FirstOccurrence(init, i) && kept[k] == init[i];
          assert r[k] == kept[k] && init[i] == s[i];
          assert FirstOccurrence(s, i);
          assert FirstOccurrence(s, i) && r[k] == s[i];
        } else {
          var n := |s| - 1;
          assert r[k] == s[n] && s[n].gameId !in IdSet(init);
          forall j | 0 <= j < n ensures s[j].gameId != s[n].gameId {
            assert init[j] == s[j];
          }
          assert FirstOccurrence(s, n) && r[k] == s[n];
        }
      }
    }
  }

  /** ... and the first row of every game is kept. */
  lemma {:induction false} DropDuplicatesKeepsFirsts(s: seq<TotaledRow>)
    ensures forall i :: FirstOccurrence(s, i) ==> s[i] in DropDuplicates(s)
  {
    if s != [] {
      var init := s[..|s| - 1];
      DropDuplicatesKeepsFirsts(init);
      var r := DropDuplicates(s);
      forall i | FirstOccurrence(s, i)
        ensures s[i] in r
      {
        if i < |init| {
          assert FirstOccurrence(init, i);
          assert init[i] == s[i];
        } else {
          assert s[i].gameId !in IdSet(init) by {
            forall j | 0 <= j < |init| ensures init[j].gameId != s[i].gameId {
              assert init[j] == s[j];
            }
          }
        }
      }
    }
  }

  /** `games['TOTAL_POINTS'].mean()`: NaN when there is no row. */
  function MeanTotals(s: seq<TotaledRow>): Average
  {
    if s == [] then NotANumber else Mean(SumTotals(s) as real / |s| as real)
  }

  /** The sum of `TOTAL_POINTS` over a frame. */
  function SumTotals(s: seq<TotaledRow>): int
  {
    if s == [] then 0 else s[0].totalPoints + SumTotals(s[1..])
  }

  /** `fetch_total_points_by_season(season)`, given what the API call produced:
      `None` when it raised, the rows of the response otherwise. The mean of
      the per-game totals over the distinct games is the sum of all teams'
      points divided by the number of distinct games. */
  function FetchTotalPointsBySeason(season: string, response: Option<seq<GameRow>>): (r: SeasonAverage)
    ensures r.season == season
    ensures response.None? <==> r.averagePoints.Missing?
    ensures response == Some([]) <==> r.averagePoints.NotANumber?
    ensures response.Some? && response.value != [] ==>
              |GameIds(response.value)| > 0 &&
              r.averagePoints == Mean(SumPts(response.value) as real / |GameIds(response.value)| as real)
  {
    match response
    case None => SeasonAverage(season, Missing)
    case Some(rows) =>
      var games := DropDuplicates(WithTotals(rows));
      DedupedMean(rows);
      assert rows != [] ==> rows[0].gameId in GameIds(rows);
      SeasonAverage(season, MeanTotals(games))
  }

  /** After deduplication there is one row per game, and their totals add up
      to the points of every row of the response. */
  lemma DedupedMean(rows: seq<GameRow>)
    ensures |DropDuplicates(WithTotals(rows))| == |GameIds(rows)|
    ensures SumTotals(DropDuplicates(WithTotals(rows))) == SumPts(rows)
  {
    var t := WithTotals(rows);
    var games := DropDuplicates(t);
    assert IdSet(t) == GameIds(rows) by {
      forall id | id in GameIds(rows) ensures id in IdSet(t) {
        var i :| 0 <= i < |rows| && rows[i].gameId == id;
        assert t[i].gameId == id;
      }
    }
    DropDuplicatesIds(t);
    DropDuplicatesDistinct(t);
    DropDuplicatesFirsts(t);
    DistinctCard(games);
    forall k | 0 <= k < |games|
      ensures games[k].totalPoints == GameTotal(rows, games[k].gameId)
    {
      assert IsFirstRow(t, games[k]);
      var i :| FirstOccurrence(t, i) && games[k] == t[i];
    }
    var ids := seq(|games|, k requires 0 <= k < |games| => games[k].gameId);
    SumTotalsAsSumOver(rows, games, ids);
    forall i | 0 <= i < |rows| ensures rows[i].gameId in ids {
      assert t[i].gameId in IdSet(games);
      var k :| 0 <= k < |games| && games[k].gameId == rows[i].gameId;
      assert ids[k] == rows[i].gameId;
    }
    SumOverAll(rows, ids);
  }

  /** A frame with distinct `GAME_ID`s has as many rows as distinct ids. */
  lemma {:induction false} DistinctCard(s: seq<TotaledRow>)
    requires DistinctIds(s)
    ensures |IdSet(s)| == |s|
  {
    if s != [] {
      var init := s[..|s| - 1];
      DistinctCard(init);
      assert IdSet(s) == IdSet(init) + {s[|s| - 1].gameId} by {
        assert forall i :: 0 <= i < |init| ==> init[i] == s[i];
      }
      assert s[|s| - 1].gameId !in IdSet(init);
    }
  }

  /** The sum of the per-game totals of the games listed in `ids`. */
  function SumOver(rows: seq<GameRow>, ids: seq<string>): int
  {
    if ids == [] then 0 else GameTotal(rows, ids[0]) + SumOver(rows, ids[1..])
  }

  /** The points of one row, counted once for every entry of `ids` naming its game. */
  function Hits(row: GameRow, ids: seq<string>): int
  {
    if ids == [] then 0 else (if ids[0] == row.gameId then row.pts else 0) + Hits(row, ids[1..])
  }

  lemma {:induction false} SumTotalsAsSumOver(rows: seq<GameRow>, games: seq<TotaledRow>, ids: seq<string>)
    requires |ids| == |games|
    requires forall k :: 0 <= k < |games| ==> ids[k] == games[k].gameId
    requires forall k :: 0 <= k < |games| ==> games[k].totalPoints == GameTotal(rows, games[k].gameId)
    ensures SumTotals(games) == SumOver(rows, ids)
  {
    if games != [] {
      SumTotalsAsSumOver(rows, games[1..], ids[1..]);
    }
  }

  lemma {:induction false} SumOverCons(row: GameRow, rest: seq<GameRow>, ids: seq<string>)
    ensures SumOver([row] + rest, ids) == Hits(row, ids) + SumOver(rest, ids)
  {
    assert ([row] + rest)[1..] == rest;
    if ids != [] {
      SumOverCons(row, rest, ids[1..]);
    }
  }

  lemma {:induction false} HitsOnce(row: GameRow, ids: seq<string>)
    requires forall i, j :: 0 <= i < j < |ids| ==> ids[i] != ids[j]
    ensures row.gameId in ids ==> Hits(row, ids) == row.pts
    ensures row.gameId !in ids ==> Hits(row, ids) == 0
  {
    if ids != [] {
      HitsOnce(row, ids[1..]);
      if ids[0] == row.gameId {
        assert row.gameId !in ids[1..];
      }
    }
  }

  /** Summing the per-game totals over a list that names every game once adds
      up every row's points exactly once. */
  lemma {:induction false} SumOverAll(rows: seq<GameRow>, ids: seq<string>)
    requires forall i, j :: 0 <= i < j < |ids| ==> ids[i] != ids[j]
    requires forall i :: 0 <= i < |rows| ==> rows[i].gameId in ids
    ensures SumOver(rows, ids) == SumPts(rows)
  {
    if rows == [] {
      SumOverEmpty(ids);
    } else {
      assert rows == [rows[0]] + rows[1..];
      SumOverCons(rows[0], rows[1..], ids);
      HitsOnce(rows[0], ids);
      SumOverAll(rows[1..], ids);
    }
  }

  lemma {:induction false} SumOverEmpty(ids: seq<string>)
    ensures SumOver([], ids) == 0
  {
    if ids != [] {
      SumOverEmpty(ids[1..]);
    }
  }

  /** Rows of the same game carry the same total. */
  lemma SameGameSameTotal(rows: seq<GameRow>)
    ensures forall i, j :: 0 <= i < |rows| && 0 <= j < |rows| && rows[i].gameId == rows[j].gameId ==>
              WithTotals(rows)[i].totalPoints == WithTotals(rows)[j].totalPoints
  {
  }

  /** The entry the loop appends for `year`. */
  function EntryFor(fetch: nat -> Option<seq<GameRow>>, year: nat): SeasonAverage
  {
    FetchTotalPointsBySeason(SeasonLabel(year), fetch(year))
  }

  /** The top-level loop: for each year from 2008 to 2023, build the season
      label, fetch that season, and append its entry. The API is `fetch`:
      fetch(year) is its answer to the request for season SeasonLabel(year),
      None when the request raised. */
  method CollectAverages(fetch: nat -> Option<seq<GameRow>>) returns (averagePointsPerSeason: seq<SeasonAverage>)
    ensures |averagePointsPerSeason| == EndYear - StartYear + 1
    ensures forall i :: 0 <= i < |averagePointsPerSeason| ==>
              averagePointsPerSeason[i] == EntryFor(fetch, StartYear + i)
    ensures forall i, j :: 0 <= i < j < |averagePointsPerSeason| ==>
              LexLess(averagePointsPerSeason[i].season, averagePointsPerSeason[j].season)
  {
    averagePointsPerSeason := [];
    for year := 2008 to EndYear + 1
      invariant |averagePointsPerSeason| == year - StartYear
      invariant forall i :: 0 <= i < |averagePointsPerSeason| ==>
                  averagePointsPerSeason[i] == EntryFor(fetch, StartYear + i)
    {
      var season := SeasonLabel(year);
      var seasonData := FetchTotalPointsBySeason(season, fetch(year));
      averagePointsPerSeason := averagePointsPerSeason + [seasonData];
    }
    EntriesInYearOrder(fetch, averagePointsPerSeason);
  }

  /** Entries labelled with consecutive years from 2008 are in chronological
      order of their seasons. */
  lemma EntriesInYearOrder(fetch: nat -> Option<seq<GameRow>>, entries: seq<SeasonAverage>)
    requires |entries| <= 10000 - StartYear
    requires forall i :: 0 <= i < |entries| ==> entries[i] == EntryFor(fetch, StartYear + i)
    ensures forall i, j :: 0 <= i < j < |entries| ==> LexLess(entries[i].season, entries[j].season)
  {
    var labels := seq(|entries|, i requires 0 <= i < |entries| => entries[i].season);
    assert forall i :: 0 <= i < |entries| ==> labels[i] == entries[i].season;
    SeasonsInYearOrder(StartYear, labels);
  }
}
