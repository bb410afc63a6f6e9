# NBA shooting-trends dashboard: a verified model

This project models the data pipeline behind an NBA dashboard: three scrapers that turn
ShotChartDetail and LeagueGameFinder responses into per-season tables, and the interactive
shot chart that reads them. The shot chart shows, for each season, a sample of its made shots
(2PT and 3PT scatters), a title, and red rectangles over the five busiest cells of a 16 x 16
grid. The busiest cells are counted only over shots outside the layup zone. A slider selects
the season, and a Play/Stop button animates the slider across all seasons.

Modules, following the program's files:

- `Wrappers`: `Option`.
- `Seqs`: the pandas idioms the code uses, as sequence operations:
  - boolean-mask selection (`Filter`);
  - `apply` (`Map`);
  - `pd.concat` (`Concat`);
  - `sum` (`Sum`).
- `Strings`: `str(n)` for non-negative integers, Python's substring test `pat in s`, and
  Python's string order `<`, which pandas uses to sort group keys.
- `ShotChart`: what the scrapers share:
  - the raw ShotChartDetail row;
  - the season label `f"{year}-{str(year + 1)[-2:]}"`;
  - the `'3PT' if '3PT' in x else '2PT'` classification.
- `AttemptScraper` (`scrapers/fgs_scraper.py`): counts 2PT and 3PT attempts per season, with
  the `{season, 0, 0}` fallback. Its loop covers 2008-09 to 2024-25.
- `ShotScraper` (`scrapers/fetch_shot_with_quater.py`):
  - keeps the made shots, reclassified, tagged with the season and cut to seven columns;
  - its loop skips failed seasons;
  - model of the final concatenation.
- `GameScores` (`scrapers/fetch_game_scores.py`):
  - sums `PTS` per `GAME_ID`;
  - keeps the first row of each game;
  - takes the mean;
  - returns `None` on failure;
  - loops over the seasons in order.
- `Court` (`dashboard.py`): the rescale of API coordinates to feet and the strict
  outside-the-layup-circle test.
- `HotZones` (`dashboard.py`):
  - numpy's `histogram2d` bins over strictly increasing edges;
  - the flattened 256-cell grid;
  - the top-5 cells of `argsort(...)[-5:]`;
  - `unravel_index`;
  - the rectangle of a cell.
- `Dashboard` (`dashboard.py`): the per-season heatmap loop, and the class `DashboardState`.
  - The class holds the module-level state: the slider value, the two scatters, the title,
    `hot_zone_patches`, `playing` and the button label.
  - Methods `UpdateHotZones`, `Update`, `SetVal` and `TogglePlay` change that state as the
    callbacks do.

Coordinates and averages are exact `real`s. Counts are `nat`. Points are `int`.

Calls into other systems become inputs:
- An API call is a function `fetch` from the season's first year to `Option<rows>`. `None`
  stands for the exception path.
- A Stop click that `plt.pause` handles is an oracle `stopClick(k)`. It says whether a click
  arrives during the pause after the slider reached index `k`.

## Edge cases of the code, as modelled

- `toggle_play` (dashboard.py:182-192) never clears `playing` after a complete sweep:
  - the button keeps reading 'Stop' when the animation ends;
  - the next click only switches it back to 'Play'.
  The model follows the code. `TogglePlay` proves that `playing` stays set exactly when no Stop
  click arrives during the sweep.
- `update_hot_zones` on a season with no heatmap first clears the patches, then fails on the
  lookup `hot_zone_data[season]` (dashboard.py:130-135). Inside a slider callback matplotlib
  reports the exception and goes on, so `UpdateHotZones` returns `found == false` and leaves
  an empty patch list. The startup call `update(0)` (dashboard.py:309) is a direct call, so
  there the `KeyError` ends the script before `plt.show()`. The constructor therefore
  requires the first season to have a shot outside the layup zone.
- An empty LeagueGameFinder frame gives the mean of nothing, which is NaN, not `None`
  (fetch_game_scores.py:30). The model keeps the two apart:
  - `NotANumber` for the empty frame;
  - `Missing` for the exception path.
- The code always highlights five cells (dashboard.py:137), even when fewer than five cells
  of the season's heatmap hold a shot. The model does the same: `TopIndices` then also picks
  empty cells, and guarantees only that no unpicked cell has a higher count.
- `pd.concat` of an empty list raises (fetch_shot_with_quater.py:64). `CombineSeasons` returns
  `None` when no season was fetched.

## Model

| member | source | states |
|---|---|---|
| Seqs.Filter | scrapers/fetch_shot_with_quater.py:32 | a mask selection is no longer than its input |
| Seqs.FilterMembers | scrapers/fetch_shot_with_quater.py:32 | the selection holds exactly the input's elements that satisfy the mask |
| Seqs.FilterConcat | scrapers/fetch_shot_with_quater.py:32 | selection keeps input order: selecting from a + b is the selection from a followed by that from b |
| Seqs.FilterFull | scrapers/fgs_scraper.py:34-36 | nothing is dropped iff every element satisfies the mask |
| Seqs.FilterSplit | dashboard.py:165-166 | two complementary masks split a frame: their sizes add up to its length |
| Seqs.Map | scrapers/fgs_scraper.py:31 | `apply` keeps the length and maps element i to f of element i |
| Seqs.Concat | scrapers/fetch_shot_with_quater.py:64 | the concatenation's length is the sum of the frames' lengths |
| Seqs.ConcatAppend | scrapers/fetch_shot_with_quater.py:64 | concatenating one more frame appends its rows after all earlier rows |
| Seqs.SumIncrement | dashboard.py:118 | adding 1 to one cell of a grid raises its total by 1 |
| Seqs.SumZeros | dashboard.py:118 | an all-zero grid has total 0 |
| Seqs.Range | dashboard.py:188 | `range(lo, hi)` has hi - lo elements, the i-th being lo + i |
| Strings.DigitChar | scrapers/fgs_scraper.py:58 | a digit prints as a character '0'..'9' |
| Strings.NatToString | scrapers/fgs_scraper.py:58 | `str(n)` is a non-empty string of decimal digits |
| Strings.NatToStringSingle | scrapers/fgs_scraper.py:58 | `str(n)` has one character iff n < 10 |
| Strings.NatToStringFourDigits | scrapers/fgs_scraper.py:58 | years 1000-9999 print with four characters |
| Strings.LexLessIrreflexive | dashboard.py:59 | string `<` is irreflexive |
| Strings.LexLessAsymmetric | dashboard.py:59 | string `<` is asymmetric |
| Strings.LexLessExtend | dashboard.py:59 | equal-length strings compare the same after anything is appended to each |
| Strings.LexLessLast | dashboard.py:59 | strings that differ only in their last character compare by that character |
| Strings.NatToStringOrder | dashboard.py:59 | for numbers with equally many digits, `str(n) < str(m)` as strings whenever n < m |
| Strings.ContainsIff | scrapers/fgs_scraper.py:31 | the scan `pat in s` is true iff pat occurs in s at some index |
| Strings.ContainsSpliced | dashboard.py:167 | a string contains every string spliced into it |
| ShotChart.LastTwo | scrapers/fgs_scraper.py:58 | `s[-2:]` is a suffix of s with two characters, or all of s when s is shorter |
| ShotChart.LastTwoDigitsOfString | scrapers/fgs_scraper.py:58 | the last two digits computed from n are exactly `str(n)[-2:]` |
| ShotChart.NatToStringLast | scrapers/fgs_scraper.py:58 | the last character of `str(n)` is the digit n % 10 |
| ShotChart.SeasonLabelFormat | scrapers/fgs_scraper.py:58 | the label is `str(year) + "-" + str(year + 1)[-2:]` |
| ShotChart.SeasonLabelExamples | scrapers/fgs_scraper.py:58 | 2008 gives "2008-09", 2009 gives "2009-10" and 2023 gives "2023-24" |
| ShotChart.SeasonLabelShape | scrapers/fgs_scraper.py:58 | a four-digit year's label has 7 characters: the year, '-', then the last two digits of the next year |
| ShotChart.SeasonLabelOrder | scrapers/fgs_scraper.py:57-58 | labels of earlier four-digit years are smaller as strings |
| ShotChart.SeasonsInYearOrder | scrapers/fgs_scraper.py:57-60 | labels of consecutive years are pairwise in string order |
| ShotChart.SeasonLabelInjective | scrapers/fgs_scraper.py:58 | two four-digit years have the same label iff they are equal |
| ShotChart.ClassifyShotType | scrapers/fgs_scraper.py:31 | the result is "3PT" or "2PT", and it is "3PT" iff "3PT" occurs in the raw type |
| ShotChart.ClassifyApiTypes | scrapers/fgs_scraper.py:31 | the API's "3PT Field Goal" and "2PT Field Goal" classify as 3PT and 2PT |
| AttemptScraper.GroupSizes | scrapers/fgs_scraper.py:34 | `groupby().size()` has a key for exactly the types that occur, holding each type's number of occurrences |
| AttemptScraper.GetGroupSize | scrapers/fgs_scraper.py:35-36 | `attempts.get(t, 0)` is the number of rows of type t, so an absent type gives 0 |
| AttemptScraper.OccurrencesAbsent | scrapers/fgs_scraper.py:35-36 | a type that does not occur has 0 occurrences |
| AttemptScraper.ClassifiedCounts | scrapers/fgs_scraper.py:31-36 | after classification, 3PT counts the rows whose raw type contains "3PT", and 2PT counts all other rows |
| AttemptScraper.FetchAttemptedData | scrapers/fgs_scraper.py:18-50 | season kept; on failure 0 and 0; otherwise 3PT attempts = rows containing "3PT", and 2PT + 3PT = the number of rows |
| AttemptScraper.AbsentTypeCountsZero | scrapers/fgs_scraper.py:35-36 | a season without three-point rows has 0 three-point attempts; likewise for two-point rows |
| AttemptScraper.CollectAttempts | scrapers/fgs_scraper.py:53-60 | 17 entries; entry i is the fetch result for year 2008 + i under its label; seasons in string (hence year) order |
| AttemptScraper.EntriesInYearOrder | scrapers/fgs_scraper.py:57-60 | entries labelled by consecutive years from 2008 have their seasons in string order |
| ShotScraper.FetchShotData | scrapers/fetch_shot_with_quater.py:19-47 | `None` iff the request failed; otherwise one record per made shot, never more than the input rows |
| ShotScraper.FetchShotDataFields | scrapers/fetch_shot_with_quater.py:32-41 | record i is the i-th made shot: its six columns copied, its type classified, its season the requested one |
| ShotScraper.FetchShotDataRecords | scrapers/fetch_shot_with_quater.py:32-38 | every record is 2PT or 3PT and tagged with the season; removing a missed shot from the input leaves the number of records unchanged |
| ShotScraper.FetchShotDataKeepsOrder | scrapers/fetch_shot_with_quater.py:32 | input order is kept: the records of a + b are those of a followed by those of b |
| ShotScraper.SuccessfulYears | scrapers/fetch_shot_with_quater.py:54-58 | ascending years from 2008 whose fetch succeeded, each such year included |
| ShotScraper.CollectShotData | scrapers/fetch_shot_with_quater.py:50-58 | `all_data` holds one frame per successful year, in year order, each that year's `fetch_shot_data` result |
| ShotScraper.CombineSeasons | scrapers/fetch_shot_with_quater.py:64 | `None` iff there is no frame; otherwise its length is the sum of the frames' lengths |
| ShotScraper.ConcatMember | scrapers/fetch_shot_with_quater.py:64 | every row of the concatenation comes from one of the frames |
| ShotScraper.CombinedRecords | scrapers/fetch_shot_with_quater.py:54-64 | every combined row is 2PT or 3PT and labelled with a season whose fetch succeeded |
| GameScores.WithTotals | scrapers/fetch_game_scores.py:24 | every row's TOTAL_POINTS is the sum of PTS over all rows with its GAME_ID, the rows otherwise unchanged |
| GameScores.SameGameSameTotal | scrapers/fetch_game_scores.py:24 | rows of the same game get the same TOTAL_POINTS |
| GameScores.DropDuplicatesIds | scrapers/fetch_game_scores.py:27 | dedup keeps the set of GAME_IDs |
| GameScores.DropDuplicatesDistinct | scrapers/fetch_game_scores.py:27 | after dedup no two rows share a GAME_ID |
| GameScores.DropDuplicatesFirsts | scrapers/fetch_game_scores.py:27 | every kept row is the first occurrence of its GAME_ID |
| GameScores.DropDuplicatesKeepsFirsts | scrapers/fetch_game_scores.py:27 | every first occurrence is kept |
| GameScores.DistinctCard | scrapers/fetch_game_scores.py:27 | rows with distinct ids are as many as their ids |
| GameScores.DedupedMean | scrapers/fetch_game_scores.py:24-30 | after dedup there is one row per game, and the rows' totals add up to the sum of all PTS |
| GameScores.SumTotalsAsSumOver | scrapers/fetch_game_scores.py:24-30 | when each kept row carries its game's total, the sum of their TOTAL_POINTS is the sum of the per-game totals over their ids |
| GameScores.SumOverCons | scrapers/fetch_game_scores.py:24-30 | the per-game totals over a list of ids split into the first row's share and the rest's |
| GameScores.HitsOnce | scrapers/fetch_game_scores.py:24-30 | with distinct game ids, a row is counted once if its game is listed and not at all otherwise |
| GameScores.SumOverAll | scrapers/fetch_game_scores.py:24-30 | when every row's game is listed exactly once, the sum is the sum of all PTS |
| GameScores.SumOverEmpty | scrapers/fetch_game_scores.py:24-30 | with no rows every game's total is 0, so their sum is 0 |
| GameScores.FetchTotalPointsBySeason | scrapers/fetch_game_scores.py:18-35 | season kept; `Missing` iff the request failed; NaN iff the frame is empty; otherwise the mean is the sum of PTS divided by the number of distinct games |
| GameScores.CollectAverages | scrapers/fetch_game_scores.py:38-45 | 16 entries; entry i is the average for year 2008 + i under its label; seasons in string (hence year) order |
| GameScores.EntriesInYearOrder | scrapers/fetch_game_scores.py:42-45 | the loop's entries have their seasons in string order |
| Court.RescaleRoundTrip | dashboard.py:55-56 | the rescales are invertible: API coordinates are recovered from the plotted ones and back |
| Court.RescaleMonotone | dashboard.py:55-56 | both rescales are strictly increasing, in both directions |
| Court.RescaleOrigin | dashboard.py:55-56 | LOC_X = 0 plots on the centre line x = 0, and LOC_Y = 0 two feet up |
| Court.OnDrawnCourt | dashboard.py:49-56 | a shot plots within the drawn -25..25 by 0..47 feet iff -250 <= LOC_X <= 250 and -17 <= LOC_Y <= 404 |
| Court.LayupBoundary | dashboard.py:99-105 | the comparison is strict: points exactly 5 feet from (0, 5.25), like (0, 10.25), are not outside |
| Court.LayupMirror | dashboard.py:103-105 | the zone is symmetric about the centre line |
| Court.LayupFar | dashboard.py:103-105 | more than 5 feet from the rim along either axis is outside |
| Court.LayupNear | dashboard.py:103-105 | the box -3 <= x <= 3, 1.25 <= y <= 9.25 around the rim lies inside the zone |
| Court.LayupRadial | dashboard.py:103-105 | moving an outside point away from the rim along its ray keeps it outside |
| Court.LayupOfApiShots | dashboard.py:105-107 | API shots at (0, 0) and (0, 60) are layups; the corner three at (220, 0) is not |
| HotZones.Locate | dashboard.py:118 | the bin scan finds a bin holding the value |
| HotZones.BinIndex | dashboard.py:118 | a value gets a bin iff it lies within the edges, and that bin holds it |
| HotZones.BinUnique | dashboard.py:118 | with strictly increasing edges a value lies in at most one bin |
| HotZones.BinIndexExact | dashboard.py:118 | the bin found is k iff bin k holds the value |
| HotZones.CellOf | dashboard.py:118 | a point gets a cell iff it lies in the grid; the cell is row-major (x bin * 16 + y bin), and both bins hold the point |
| HotZones.Histogram2d | dashboard.py:118 | 256 cells whose total is the number of points within the grid |
| HotZones.HistogramCell | dashboard.py:118 | each cell counts exactly the points that fall in it |
| HotZones.HistogramTotal | dashboard.py:116-119 | the total is at most the number of points, with equality iff every point lies within the edges |
| HotZones.Pigeonhole | dashboard.py:137 | fewer than n excluded indices leave some index below n free |
| HotZones.RemoveAll | dashboard.py:137 | removing x keeps exactly the other elements |
| HotZones.BestFrom | dashboard.py:137 | the scan finds a free index with a maximal count, or none when none is free |
| HotZones.MaxOutside | dashboard.py:137 | a free cell whose count is at least that of every other free cell |
| HotZones.Picks | dashboard.py:137 | k distinct cells in descending order of count, each at least every unpicked cell |
| HotZones.TopIndices | dashboard.py:136-137 | 5 distinct cells of the 256, in non-decreasing order of count, each at least every unselected cell |
| HotZones.ReversedPicks | dashboard.py:137 | reversing the descending picks gives the ascending tail of an argsort |
| HotZones.Unravel | dashboard.py:138 | a flat index unravels to (f / 16, f % 16), which recombines to f |
| HotZones.UnravelRavel | dashboard.py:138 | unravelling i * 16 + j gives back (i, j) |
| HotZones.CellRect | dashboard.py:140-150 | the rectangle from x_edges[i], x_edges[i+1], y_edges[j], y_edges[j+1] has positive width and height and covers every point of its cell |
| HotZones.CellRectInjective | dashboard.py:140-150 | different cells give different rectangles |
| HotZones.ZoneRects | dashboard.py:140-157 | five rectangles |
| HotZones.ZoneRectsHottest | dashboard.py:136-157 | the five rectangles are distinct, and no cell left out holds more points than any highlighted one |
| Dashboard.SeasonHistogramTotal | dashboard.py:107-119 | a season's heatmap is built from rows of that season outside the layup zone only; its total is at most their number, and equal to it when all lie within the edges |
| Dashboard.ComputeHotZoneData | dashboard.py:116-119 | `hot_zone_data` has a key for exactly the seasons with an outside-layup shot, holding that season's histogram |
| Dashboard.ScatterPartition | dashboard.py:165-166 | each scatter shows exactly the sampled shots of its type; when every shot is 2PT or 3PT, the two together show all of them |
| Dashboard.SampleScatter | dashboard.py:59-166 | a scatter drawn from a sample of one season's rows shows only shots of that season and of the scatter's type |
| Dashboard.TitleNamesSeason | dashboard.py:167 | the title contains the season, and different seasons get different titles |
| Dashboard.StepsFrom | dashboard.py:188-192 | from index k the loop takes at least one and at most n - k more steps |
| Dashboard.StepsFromSpec | dashboard.py:188-192 | the loop goes on while no Stop click arrives, stops right after the first click, and completes the sweep iff there is no click before the last index |
| Dashboard.StepsExact | dashboard.py:188-192 | a walk with no click before its last step, ending at a click or at the last index, has exactly that many steps |
| Dashboard.YearsChronological | dashboard.py:59 | sorting four-digit season labels as strings puts them in the order of their first years |
| Dashboard.DashboardState.constructor | dashboard.py:54-119 | for a first season with a shot outside the layup zone (otherwise the `update(0)` of line 309 raises): the state keeps the plotted rows, samples, sorted years and edges, holds a heatmap for exactly the seasons with an outside shot, and after `update(0)` shows the first season with its five hot zones, not playing, the button reading 'Play' |
| Dashboard.DashboardState.ScattersOfShownSeason | dashboard.py:59-166 | every point of the scatters shown for `years[i]` is a shot of that season, of the scatter's type |
| Dashboard.DashboardState.UpdateHotZones | dashboard.py:124-158 | found iff the season has a heatmap; the patches are exactly that season's five rectangles, or none; nothing of the old list survives |
| Dashboard.DashboardState.Update | dashboard.py:161-168 | shows `years[slider]`: both scatters, the title and the patches; fails iff that season has no heatmap |
| Dashboard.DashboardState.SetVal | dashboard.py:171 | setting the slider to i shows season i |
| Dashboard.DashboardState.TogglePlay | dashboard.py:182-192 | flip `playing` and relabel. Stopping changes nothing else. Starting visits 0, 1, ..., in order, up to the first Stop click, then shows the last index visited; `playing` stays set iff no click came |
| Dashboard.DashboardState.Play | dashboard.py:187-192 | the loop visits 0..Steps-1 in order, ends showing the last one, and leaves `playing` set iff no click came |
| Dashboard.DashboardState.Pause | dashboard.py:192 | a Stop click handled during the pause clears `playing` and relabels the button 'Play' |

## Left out

- Rendering is not modelled:
  - matplotlib drawing of the court, scatters, patches, legends and titles;
  - the pie chart and the two line charts;
  - `fig.canvas.draw_idle`, `patch.remove` and `plt.show`.
  The state they display (offsets, title text, patch rectangles, button label) is modelled.
- Network and file I/O are inputs:
  - `nba_api` requests, `pd.read_csv` and `to_csv` are not modelled;
  - a response is an input sequence of rows, and an exception is `None`;
  - `fetch` takes a season's first year, and its answer is the one for the label of that year.
- `print` and `time.sleep` have no effect on the data and are left out.
- Concurrency is not modelled. `plt.pause` can run `toggle_play` again for a Stop click; this
  is the oracle `stopClick(k)`, consulted after the slider reaches index k.
- Float behaviour is left out. IEEE rounding of the rescale, and numpy's handling of values
  that round onto an edge, are not modelled: coordinates are exact reals and bins follow
  numpy's documented rule. A bin is half-open, the last bin is closed, and values outside the
  edges are dropped.
- `pd.cut`'s edge construction (dashboard.py:112-113) is not modelled. The edges are any 17
  strictly increasing reals on each axis.
- `df.sample(frac=0.1, random_state=42)` (dashboard.py:59) depends on the random generator.
  Each season's sample is any sequence of that season's rows.
- The `years` order is taken from pandas. `years` are the group keys of `groupby('SEASON')`,
  which pandas sorts strictly as strings. `YearsChronological` proves this is chronological.
- The seasons that have an outside shot are taken from pandas. The groups of the heatmap loop
  are given as exactly those seasons.
- The tie order of `np.argsort`'s unstable sort is not modelled. `TopIndices` promises only
  distinctness, dominance and ascending counts. Among equal counts it fixes one choice.
- `round().astype(int)` of the averages (dashboard.py:66) only feeds the line chart and is not
  modelled.
- GameScores.FetchTotalPointsBySeason: `PTS` are unbounded integers and the mean is an exact
  real, so pandas' int64 and float64 arithmetic is not modelled.
