/** dashboard.py, the interactive part: the shots of the combined table with
    their plotted coordinates, the per-season histograms of the shots outside
    the layup zone (`hot_zone_data`), and the state the slider and the Play
    button drive: the selected season, the two scatters, the title, the
    hot-zone patches and the `playing` flag. */
module Dashboard {
  import opened Seqs
  import opened Strings
  import opened ShotScraper
  import opened Court
  import opened HotZones

  /** A row of `shot_data` once `PLOT_X` and `PLOT_Y` have been added. */
  datatype PlottedShot = PlottedShot(record: ShotRecord, plotX: real, plotY: real)

  /** The two rescale columns of one row. */
  function Plot(r: ShotRecord): PlottedShot
  {
    PlottedShot(r, PlotX(r.locX), PlotY(r.locY))
  }

  /** `shot_data` after lines 55-56: every row with its plotted coordinates. */
  function PlotShots(rows: seq<ShotRecord>): seq<PlottedShot>
  {
    Map(rows, Plot)
  }

  function Position(s: PlottedShot): Point
  {
    Point(s.plotX, s.plotY)
  }

  /** The `OUTSIDE_LAYUP_ZONE` column. */
  predicate IsOutside(s: PlottedShot)
  {
    IsOutsideLayupZone(s.plotX, s.plotY)
  }

  /** The distinct `SEASON` values of a frame. */
  function SeasonsOf(shots: seq<PlottedShot>): set<string>
  {
    set i | 0 <= i < |shots| :: shots[i].record.season
  }

  /** `shot_data[shot_data['OUTSIDE_LAYUP_ZONE']]`. */
  function OutsideShots(shots: seq<PlottedShot>): seq<PlottedShot>
  {
    Filter(shots, IsOutside)
  }

  /** The rows of one season. */
  function OfSeason(shots: seq<PlottedShot>, season: string): seq<PlottedShot>
  {
    Filter(shots, (s: PlottedShot) => s.record.season == season)
  }

  /** The plotted positions of a season's shots outside the layup zone. */
  function SeasonPoints(shots: seq<PlottedShot>, season: string): seq<Point>
  {
    Map(OfSeason(OutsideShots(shots), season), Position)
  }

  /** The heatmap `np.histogram2d` computes for one season. */
  function SeasonHistogram(shots: seq<PlottedShot>, season: string, xEdges: seq<real>, yEdges: seq<real>): seq<nat>
    requires ValidGrid(xEdges, yEdges)
  {
    Histogram2d(SeasonPoints(shots, season), xEdges, yEdges)
  }

  /** A season's heatmap counts none of the season's layups: its total is at
      most the number of the season's shots outside the layup zone, and equal
      to it when all of them lie within the edges. */
  lemma SeasonHistogramTotal(shots: seq<PlottedShot>, season: string, xEdges: seq<real>, yEdges: seq<real>)
    requires ValidGrid(xEdges, yEdges)
    ensures Sum(SeasonHistogram(shots, season, xEdges, yEdges)) <= |OfSeason(OutsideShots(shots), season)|
    ensures (forall i :: 0 <= i < |OfSeason(OutsideShots(shots), season)| ==>
               InGrid(Position(OfSeason(OutsideShots(shots), season)[i]), xEdges, yEdges)) ==>
            Sum(SeasonHistogram(shots, season, xEdges, yEdges)) == |OfSeason(OutsideShots(shots), season)|
    ensures forall i :: 0 <= i < |OfSeason(OutsideShots(shots), season)| ==>
              OfSeason(OutsideShots(shots), season)[i].record.season == season &&
              IsOutside(OfSeason(OutsideShots(shots), season)[i])
  {
    var df := OfSeason(OutsideShots(shots), season);
    var pts := SeasonPoints(shots, season);
    HistogramTotal(pts, xEdges, yEdges);
    FilterMembers(shots, IsOutside);
    FilterMembers(OutsideShots(shots), (s: PlottedShot) => s.record.season == season);
    forall i | 0 <= i < |df|
      ensures IsOutside(df[i]) && df[i].record.season == season
    {
      assert df[i] in df;
    }
  }

  /** The loop of lines 116-119: one heatmap per group of
      `shot_data[OUTSIDE_LAYUP_ZONE].groupby('SEASON')`. `groups` are the
      group keys pandas produces, the seasons that have an outside shot. A
      season without any shot outside the layup zone gets no entry. */
  method ComputeHotZoneData(shots: seq<PlottedShot>, groups: seq<string>, xEdges: seq<real>, yEdges: seq<real>)
    returns (hotZoneData: map<string, seq<nat>>)
    requires ValidGrid(xEdges, yEdges)
    requires forall season :: season in groups <==> season in SeasonsOf(OutsideShots(shots))
    ensures hotZoneData.Keys == SeasonsOf(OutsideShots(shots))
    ensures forall season :: season in hotZoneData ==>
              hotZoneData[season] == SeasonHistogram(shots, season, xEdges, yEdges)
  {
    hotZoneData := map[];
    for k := 0 to |groups|
      invariant hotZoneData.Keys == set i | 0 <= i < k :: groups[i]
      invariant forall season :: season in hotZoneData ==>
                  hotZoneData[season] == SeasonHistogram(shots, season, xEdges, yEdges)
    {
      var season := groups[k];
      var heatmap := Histogram2d(SeasonPoints(shots, season), xEdges, yEdges);
      hotZoneData := hotZoneData[season := heatmap];
    }
    assert forall season :: season in groups ==> season in hotZoneData by {
      forall season | season in groups ensures season in hotZoneData {
        var i :| 0 <= i < |groups| && groups[i] == season;
      }
    }
  }

  /** The rows of a frame with the given `SHOT_TYPE`, as points
      (`current_data[current_data['SHOT_TYPE'] == t][['PLOT_X', 'PLOT_Y']]`). */
  function Offsets(sample: seq<PlottedShot>, shotType: string): seq<Point>
  {
    Map(Filter(sample, (s: PlottedShot) => s.record.shotType == shotType), Position)
  }

  /** The 2PT scatter shows exactly the sample's 2PT shots and the 3PT scatter
      exactly its 3PT shots; when every row is one of the two, the scatters
      together show every sampled shot. */
  lemma ScatterPartition(sample: seq<PlottedShot>, t: string)
    ensures forall i :: 0 <= i < |sample| && sample[i].record.shotType == t ==>
              Position(sample[i]) in Offsets(sample, t)
    ensures forall k :: 0 <= k < |Offsets(sample, t)| ==>
              exists i :: 0 <= i < |sample| && sample[i].record.shotType == t && Offsets(sample, t)[k] == Position(sample[i])
    ensures (forall i :: 0 <= i < |sample| ==>
               sample[i].record.shotType == "2PT" || sample[i].record.shotType == "3PT") ==>
            |Offsets(sample, "2PT")| + |Offsets(sample, "3PT")| == |sample|
  {
    var f := Filter(sample, (s: PlottedShot) => s.record.shotType == t);
    FilterMembers(sample, (s: PlottedShot) => s.record.shotType == t);
    forall i | 0 <= i < |sample| && sample[i].record.shotType == t
      ensures Position(sample[i]) in Offsets(sample, t)
    {
      assert sample[i] in sample;
      assert sample[i] in f;
      var k :| 0 <= k < |f| && f[k] == sample[i];
      assert Offsets(sample, t)[k] == Position(sample[i]);
    }
    forall k | 0 <= k < |Offsets(sample, t)|
      ensures exists i :: 0 <= i < |sample| && sample[i].record.shotType == t && Offsets(sample, t)[k] == Position(sample[i])
    {
      assert f[k] in sample;
      var i :| 0 <= i < |sample| && sample[i] == f[k];
    }
    if forall i :: 0 <= i < |sample| ==> sample[i].record.shotType == "2PT" || sample[i].record.shotType == "3PT" {
      FilterSplit(sample, (s: PlottedShot) => s.record.shotType == "2PT", (s: PlottedShot) => s.record.shotType == "3PT");
    }
  }

  /** A scatter drawn from a sample of one season's rows shows only shots of
      that season and of the scatter's type. */
  lemma SampleScatter(sample: seq<PlottedShot>, rows: seq<PlottedShot>, season: string, t: string)
    requires forall j :: 0 <= j < |sample| ==> sample[j] in rows && sample[j].record.season == season
    ensures forall p :: p in Offsets(sample, t) ==>
              exists r :: r in rows && r.record.season == season && r.record.shotType == t && p == Position(r)
  {
    ScatterPartition(sample, t);
    forall p | p in Offsets(sample, t)
      ensures exists r :: r in rows && r.record.season == season && r.record.shotType == t && p == Position(r)
    {
      var k :| 0 <= k < |Offsets(sample, t)| && Offsets(sample, t)[k] == p;
      var j :| 0 <= j < |sample| && sample[j].record.shotType == t && Offsets(sample, t)[k] == Position(sample[j]);
      assert sample[j] in rows && sample[j].record.season == season;
    }
  }

  const TitlePrefix: string := "NBA Shooting Trends: 2 PTS vs 3 PTS ("

  /** The chart title for a season. */
  function TitleFor(year: string): string
  {
    TitlePrefix + year + ")"
  }

  /** The title names its season, and different seasons get different titles. */
  lemma TitleNamesSeason(a: string, b: string)
    ensures Contains(TitleFor(a), a)
    ensures TitleFor(a) == TitleFor(b) <==> a == b
  {
    ContainsSpliced(TitlePrefix, a, ")");
    if TitleFor(a) == TitleFor(b) {
      assert |a| == |b|;
      assert a == TitleFor(a)[|TitlePrefix|..|TitlePrefix| + |a|];
      assert b == TitleFor(b)[|TitlePrefix|..|TitlePrefix| + |b|];
    }
  }

  /** The button's label: 'Stop' while playing, 'Play' otherwise. */
  function LabelFor(playing: bool): string
  {
    if playing then "Stop" else "Play"
  }

  /** The slider index the play loop reaches: it sets the slider to 0, 1, ...,
      and a Stop click during the pause after index k ends it there. */
  function StepsFrom(stopClick: nat -> bool, k: nat, n: nat): (r: nat)
    ensures k < n ==> k < r <= n
    decreases n - k
  {
    if k >= n then n else if stopClick(k) then k + 1 else StepsFrom(stopClick, k + 1, n)
  }

  /** The number of slider steps the play loop takes over n seasons. */
  function Steps(stopClick: nat -> bool, n: nat): nat
  {
    StepsFrom(stopClick, 0, n)
  }

  /** The loop takes at least one step, walks on while no Stop click arrives,
      stops right after the first click, and completes the sweep otherwise. */
  lemma {:induction false} StepsFromSpec(stopClick: nat -> bool, k: nat, n: nat)
    requires k < n
    ensures forall j :: k <= j < StepsFrom(stopClick, k, n) - 1 ==> !stopClick(j)
    ensures StepsFrom(stopClick, k, n) < n ==> stopClick(StepsFrom(stopClick, k, n) - 1)
    ensures StepsFrom(stopClick, k, n) == n <==> (forall j :: k <= j < n - 1 ==> !stopClick(j))
    decreases n - k
  {
    if !stopClick(k) && k + 1 < n {
      StepsFromSpec(stopClick, k + 1, n);
    }
  }

  /** A walk that passed m indices without a click before the last one, and
      ended at a click or at the end, took Steps many. */
  lemma {:induction false} StepsExact(stopClick: nat -> bool, n: nat, m: nat)
    requires 1 <= m <= n
    requires forall k :: 0 <= k < m - 1 ==> !stopClick(k)
    requires m == n || stopClick(m - 1)
    ensures Steps(stopClick, n) == m
  {
    var k := m - 1;
    while k > 0
      invariant 0 <= k <= m - 1
      invariant StepsFrom(stopClick, k, n) == m
    {
      k := k - 1;
    }
  }

  /** `years` are the keys of `shot_data_dict`, which pandas' groupby sorts as
      strings; for four-digit season labels that is the order of the seasons'
      first years. */
  lemma YearsChronological(years: seq<string>, firstYears: seq<nat>)
    requires |firstYears| == |years|
    requires forall i :: 0 <= i < |years| ==> 1000 <= firstYears[i] <= 9999 && years[i] == ShotChart.SeasonLabel(firstYears[i])
    requires forall i, j :: 0 <= i < j < |years| ==> LexLess(years[i], years[j])
    ensures forall i, j :: 0 <= i < j < |years| ==> firstYears[i] < firstYears[j]
  {
    forall i, j | 0 <= i < j < |years|
      ensures firstYears[i] < firstYears[j]
    {
      if firstYears[j] < firstYears[i] {
        ShotChart.SeasonLabelOrder(firstYears[j], firstYears[i]);
        LexLessAsymmetric(years[i], years[j]);
      } else if firstYears[j] == firstYears[i] {
        LexLessIrreflexive(years[i]);
      }
    }
  }

  /** The module-level state of dashboard.py once the data is loaded. */
  class DashboardState {
    const shotData: seq<PlottedShot>
    const shotDataDict: map<string, seq<PlottedShot>>
    const years: seq<string>
    const xEdges: seq<real>
    const yEdges: seq<real>
    const hotZoneData: map<string, seq<nat>>

    var hotZonePatches: seq<Rect>
    var sliderVal: nat
    var scatter2pt: seq<Point>
    var scatter3pt: seq<Point>
    var title: string
    var playing: bool
    var buttonLabel: string

    /** What holds of the loaded data: the grid, a sample for every season
        drawn from that season's rows, and a heatmap for exactly the seasons
        with a shot outside the layup zone. */
    ghost predicate DataValid()
    {
      && ValidGrid(xEdges, yEdges)
      && |years| > 0
      && (forall i :: 0 <= i < |years| ==> years[i] in shotDataDict)
      && (forall season, i :: season in shotDataDict && 0 <= i < |shotDataDict[season]| ==>
            shotDataDict[season][i] in shotData && shotDataDict[season][i].record.season == season)
      && hotZoneData.Keys == SeasonsOf(OutsideShots(shotData))
      && (forall season :: season in hotZoneData ==>
            hotZoneData[season] == SeasonHistogram(shotData, season, xEdges, yEdges))
    }

    ghost predicate Valid()
      reads this`sliderVal, this`playing, this`buttonLabel
    {
      DataValid() && sliderVal < |years| && buttonLabel == LabelFor(playing)
    }

    /** The patches `update_hot_zones(season)` leaves behind: the five hot
        zones of a season that has a heatmap, none otherwise (the lookup
        raises after the old patches were cleared). */
    ghost function PatchesFor(season: string): seq<Rect>
      requires DataValid()
    {
      if season in hotZoneData then ZoneRects(hotZoneData[season], xEdges, yEdges) else []
    }

    /** The chart shows season `years[i]`: slider, scatters, title and patches. */
    ghost predicate Shows(i: nat)
      reads this`sliderVal, this`scatter2pt, this`scatter3pt, this`title, this`hotZonePatches
      requires DataValid()
    {
      && i < |years|
      && sliderVal == i
      && scatter2pt == Offsets(shotDataDict[years[i]], "2PT")
      && scatter3pt == Offsets(shotDataDict[years[i]], "3PT")
      && title == TitleFor(years[i])
      && hotZonePatches == PatchesFor(years[i])
    }

    /** Every point of the scatters shown for season `years[i]` is a shot of
        that season with the scatter's type. */
    lemma ScattersOfShownSeason(i: nat)
      requires Valid() && Shows(i)
      ensures forall p :: p in scatter2pt ==>
                exists r :: r in shotData && r.record.season == years[i] && r.record.shotType == "2PT" && p == Position(r)
      ensures forall p :: p in scatter3pt ==>
                exists r :: r in shotData && r.record.season == years[i] && r.record.shotType == "3PT" && p == Position(r)
    {
      SampleScatter(shotDataDict[years[i]], shotData, years[i], "2PT");
      SampleScatter(shotDataDict[years[i]], shotData, years[i], "3PT");
    }

    /** Loading the data and the final `update(0)`: `years` are the sorted
        seasons, each sample a subset of its season's rows, and the chart
        shows the first season with the button reading 'Play'. That direct
        call is not a widget callback, so a first season without a heatmap
        would end the script with the lookup's KeyError: the first season
        must have a shot outside the layup zone. */
    constructor (rows: seq<ShotRecord>, samples: map<string, seq<PlottedShot>>, years: seq<string>,
                 groups: seq<string>, xEdges: seq<real>, yEdges: seq<real>)
      requires ValidGrid(xEdges, yEdges)
      requires |years| > 0 && years[0] in SeasonsOf(OutsideShots(PlotShots(rows)))
      requires forall i, j :: 0 <= i < j < |years| ==> LexLess(years[i], years[j])
      requires forall season :: season in years <==> season in SeasonsOf(PlotShots(rows))
      requires forall season :: season in samples <==> season in years
      requires forall season, i :: season in samples && 0 <= i < |samples[season]| ==>
                 samples[season][i] in PlotShots(rows) && samples[season][i].record.season == season
      requires forall season :: season in groups <==> season in SeasonsOf(OutsideShots(PlotShots(rows)))
      ensures Valid()
      ensures shotData == PlotShots(rows) && shotDataDict == samples && this.years == years
      ensures this.xEdges == xEdges && this.yEdges == yEdges
      ensures !playing && Shows(0)
      ensures years[0] in hotZoneData && |hotZonePatches| == TopCount
    {
      var plotted := PlotShots(rows);
      var heatmaps := ComputeHotZoneData(plotted, groups, xEdges, yEdges);
      shotData := plotted;
      shotDataDict := samples;
      this.years := years;
      this.xEdges := xEdges;
      this.yEdges := yEdges;
      hotZoneData := heatmaps;
      hotZonePatches := [];
      sliderVal := 0;
      scatter2pt := [];
      scatter3pt := [];
      title := "";
      playing := false;
      buttonLabel := "Play";
      new;
      var _ := Update();
    }

    /** `update_hot_zones(season)`: remove every old patch, then add the
        rectangles of the season's five busiest cells. `found` is false when
        the season has no heatmap and the lookup raises. Nothing of the old
        list survives, so a second call with the same season leaves the same
        list. */
    method UpdateHotZones(season: string) returns (found: bool)
      requires Valid()
      modifies this`hotZonePatches
      ensures Valid()
      ensures found <==> season in hotZoneData
      ensures hotZonePatches == PatchesFor(season)
    {
      hotZonePatches := [];
      if season !in hotZoneData {
        return false;
      }
      var heatmap := hotZoneData[season];
      var topIndices := TopIndices(heatmap);
      for k := 0 to TopCount
        invariant |hotZonePatches| == k
        invariant forall j :: 0 <= j < k ==> hotZonePatches[j] == CellRect(xEdges, yEdges, topIndices[j])
      {
        var rect := CellRect(xEdges, yEdges, topIndices[k]);
        hotZonePatches := hotZonePatches + [rect];
      }
      assert hotZonePatches == ZoneRects(heatmap, xEdges, yEdges);
      return true;
    }

    /** `update(val)`: show the season the slider selects. `ok` is false when
        `update_hot_zones` raises. */
    method Update() returns (ok: bool)
      requires Valid()
      modifies this`scatter2pt, this`scatter3pt, this`title, this`hotZonePatches
      ensures Valid()
      ensures Shows(sliderVal)
      ensures ok <==> years[sliderVal] in hotZoneData
    {
      var year := years[sliderVal];
      var currentData := shotDataDict[year];
      scatter2pt := Offsets(currentData, "2PT");
      scatter3pt := Offsets(currentData, "3PT");
      title := TitleFor(year);
      ok := UpdateHotZones(year);
    }

    /** `slider.set_val(i)`, which runs the `update` callback. */
    method SetVal(i: nat)
      requires Valid()
      requires i < |years|
      modifies this`sliderVal, this`scatter2pt, this`scatter3pt, this`title, this`hotZonePatches
      ensures Valid()
      ensures Shows(i)
    {
      sliderVal := i;
      var _ := Update();
    }

    /** `toggle_play(event)`. `stopClick(k)` says whether a Stop click is handled
        during the pause after the slider reached index k. `visited` lists the
        slider indices set, in order. */
    method TogglePlay(stopClick: nat -> bool) returns (visited: seq<nat>)
      requires Valid()
      modifies this`playing, this`buttonLabel, this`sliderVal, this`scatter2pt, this`scatter3pt,
               this`title, this`hotZonePatches
      ensures Valid()
      ensures buttonLabel == (if playing then "Stop" else "Play")
      ensures old(playing) ==> (!playing && visited == [] &&
                sliderVal == old(sliderVal) && scatter2pt == old(scatter2pt) && scatter3pt == old(scatter3pt) &&
                title == old(title) && hotZonePatches == old(hotZonePatches))
      ensures !old(playing) ==> visited == Range(0, Steps(stopClick, |years|))
      ensures !old(playing) ==> (playing <==> forall k :: 0 <= k < |years| ==> !stopClick(k))
      ensures !old(playing) ==> Shows(Steps(stopClick, |years|) - 1)
    {
      playing := !playing;
      buttonLabel := LabelFor(playing);
      visited := [];
      if playing {
        visited := Play(stopClick);
      }
    }

    /** The animation loop of `toggle_play`: for each index in turn, stop if
        `playing` was cleared, else set the slider there and pause. */
    method Play(stopClick: nat -> bool) returns (visited: seq<nat>)
      requires Valid() && playing
      modifies this`playing, this`buttonLabel, this`sliderVal, this`scatter2pt, this`scatter3pt,
               this`title, this`hotZonePatches
      ensures Valid()
      ensures visited == Range(0, Steps(stopClick, |years|))
      ensures playing <==> forall k :: 0 <= k < |years| ==> !stopClick(k)
      ensures Shows(Steps(stopClick, |years|) - 1)
    {
      visited := [];
      for yearIndex := 0 to |years|
        invariant Valid()
        invariant visited == Range(0, yearIndex)
        invariant playing ==> forall k :: 0 <= k < yearIndex ==> !stopClick(k)
        invariant !playing ==> (yearIndex >= 1 && stopClick(yearIndex - 1) &&
                                forall k :: 0 <= k < yearIndex - 1 ==> !stopClick(k))
        invariant yearIndex >= 1 ==> Shows(yearIndex - 1)
      {
        if !playing {
          break;
        }
        SetVal(yearIndex);
        visited := visited + [yearIndex];
        Pause(stopClick(yearIndex));
      }
      StepsExact(stopClick, |years|, |visited|);
    }

    /** `plt.pause(0.5)` while playing: the event loop runs, and a Stop click
        in that time runs `toggle_play` again, which clears `playing` and
        relabels the button 'Play'. */
    method Pause(clicked: bool)
      requires Valid() && playing
      modifies this`playing, this`buttonLabel
      ensures Valid()
      ensures playing == !clicked
    {
      if clicked {
        playing := false;
        buttonLabel := LabelFor(playing);
      }
    }
  }
}
