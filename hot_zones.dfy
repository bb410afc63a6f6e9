/** dashboard.py, hot zones: the 16 by 16 histogram of a season's shots over
    shared grid edges (`np.histogram2d`), the five busiest cells of the
    flattened histogram (`np.argsort(...)[-5:]` and `np.unravel_index`), and
    the rectangle each of those cells covers on the court. */
module HotZones {
  import opened Wrappers
  import opened Seqs

  /** A plotted shot, in feet. */
  datatype Point = Point(x: real, y: real)

  /** A matplotlib `Rectangle((x, y), width, height)`: lower-left corner and size. */
  datatype Rect = Rect(x: real, y: real, width: real, height: real)

  const NumBinsX: nat := 16
  const NumBinsY: nat := 16
  const NumCells: nat := 256
  const TopCount: nat := 5

  predicate StrictlyIncreasing(e: seq<real>)
  {
    forall i, j :: 0 <= i < j < |e| ==> e[i] < e[j]
  }

  /** Edges for 16 bins along each axis, as `pd.cut(..., bins=16, retbins=True)`
      returns them: 17 strictly increasing values. */
  predicate ValidGrid(xEdges: seq<real>, yEdges: seq<real>)
  {
    |xEdges| == NumBinsX + 1 && |yEdges| == NumBinsY + 1 &&
    StrictlyIncreasing(xEdges) && StrictlyIncreasing(yEdges)
  }

  /** numpy's bins: bin k holds edges[k] <= v < edges[k+1], except that the
      last bin also holds its right edge. */
  predicate InBin(edges: seq<real>, k: int, v: real)
  {
    0 <= k < |edges| - 1 && edges[k] <= v &&
    (v < edges[k + 1] || (k == |edges| - 2 && v == edges[k + 1]))
  }

  /** The bin of v, searching upwards from bin k. */
  function Locate(edges: seq<real>, v: real, k: nat): (r: nat)
    requires |edges| >= 2 && k < |edges| - 1
    requires edges[k] <= v <= edges[|edges| - 1]
    requires StrictlyIncreasing(edges)
    ensures k <= r && InBin(edges, r, v)
    decreases |edges| - k
  {
    if k == |edges| - 2 || v < edges[k + 1] then k else Locate(edges, v, k + 1)
  }

  /** The bin a value falls in, or None when it lies outside the edges (numpy
      then does not count it). */
  function BinIndex(edges: seq<real>, v: real): (r: Option<nat>)
    requires |edges| >= 2 && StrictlyIncreasing(edges)
    ensures r.Some? <==> edges[0] <= v <= edges[|edges| - 1]
    ensures r.Some? ==> InBin(edges, r.value, v)
  {
    if v < edges[0] || v > edges[|edges| - 1] then None else Some(Locate(edges, v, 0))
  }

  /** The bins do not overlap: a value lies in at most one of them. */
  lemma BinUnique(edges: seq<real>, v: real, k1: int, k2: int)
    requires StrictlyIncreasing(edges)
    requires InBin(edges, k1, v) && InBin(edges, k2, v)
    ensures k1 == k2
  {
  }

  /** So `BinIndex` finds exactly the bin a value lies in. */
  lemma BinIndexExact(edges: seq<real>, v: real, k: int)
    requires |edges| >= 2 && StrictlyIncreasing(edges)
    ensures BinIndex(edges, v) == Some(k) <==> InBin(edges, k, v)
  {
    if InBin(edges, k, v) {
      assert edges[0] <= edges[k] && edges[k + 1] <= edges[|edges| - 1];
      BinUnique(edges, v, k, BinIndex(edges, v).value);
    }
  }

  /** The shot lies within the range of both axes' edges. */
  predicate InGrid(p: Point, xEdges: seq<real>, yEdges: seq<real>)
    requires ValidGrid(xEdges, yEdges)
  {
    xEdges[0] <= p.x <= xEdges[NumBinsX] && yEdges[0] <= p.y <= yEdges[NumBinsY]
  }

  /** The flat index, row-major over the (16, 16) histogram (`flatten()`), of
      the cell holding p; None for a shot outside the grid. */
  function CellOf(p: Point, xEdges: seq<real>, yEdges: seq<real>): (r: Option<nat>)
    requires ValidGrid(xEdges, yEdges)
    ensures r.Some? <==> InGrid(p, xEdges, yEdges)
    ensures r.Some? ==> (r.value < NumCells &&
              InBin(xEdges, r.value / NumBinsY, p.x) && InBin(yEdges, r.value % NumBinsY, p.y))
  {
    match (BinIndex(xEdges, p.x), BinIndex(yEdges, p.y))
    case (Some(i), Some(j)) => Some(i * NumBinsY + j)
    case _ => None
  }

  /** How many shots lie within the grid. */
  function CountInGrid(pts: seq<Point>, xEdges: seq<real>, yEdges: seq<real>): nat
    requires ValidGrid(xEdges, yEdges)
  {
    if pts == [] then 0
    else (if InGrid(pts[0], xEdges, yEdges) then 1 else 0) + CountInGrid(pts[1..], xEdges, yEdges)
  }

  /** How many shots lie in cell c. */
  function CountInCell(pts: seq<Point>, xEdges: seq<real>, yEdges: seq<real>, c: nat): nat
    requires ValidGrid(xEdges, yEdges)
  {
    if pts == [] then 0
    else (if CellOf(pts[0], xEdges, yEdges) == Some(c) then 1 else 0) + CountInCell(pts[1..], xEdges, yEdges, c)
  }

  /** `np.histogram2d(xs, ys, bins=[x_edges, y_edges])`, flattened: every shot in
      the grid adds one to its cell; the counts add up to the number of shots
      in the grid. */
  function Histogram2d(pts: seq<Point>, xEdges: seq<real>, yEdges: seq<real>): (g: seq<nat>)
    requires ValidGrid(xEdges, yEdges)
    ensures |g| == NumCells
    ensures Sum(g) == CountInGrid(pts, xEdges, yEdges)
  {
    if pts == [] then
      SumZeros(NumCells);
      seq(NumCells, _ => 0)
    else
      var rest := Histogram2d(pts[1..], xEdges, yEdges);
      match CellOf(pts[0], xEdges, yEdges)
      case None => rest
      case Some(c) =>
        SumIncrement(rest, c);
        rest[c := rest[c] + 1]
  }

  /** Each cell of the histogram holds the number of shots in that cell. */
  lemma {:induction false} HistogramCell(pts: seq<Point>, xEdges: seq<real>, yEdges: seq<real>, c: nat)
    requires ValidGrid(xEdges, yEdges)
    requires c < NumCells
    ensures Histogram2d(pts, xEdges, yEdges)[c] == CountInCell(pts, xEdges, yEdges, c)
  {
    if pts != [] {
      HistogramCell(pts[1..], xEdges, yEdges, c);
    }
  }

  /** The histogram counts at most every shot, and exactly every shot when all
      of them lie within the edges. */
  lemma {:induction false} HistogramTotal(pts: seq<Point>, xEdges: seq<real>, yEdges: seq<real>)
    requires ValidGrid(xEdges, yEdges)
    ensures Sum(Histogram2d(pts, xEdges, yEdges)) <= |pts|
    ensures Sum(Histogram2d(pts, xEdges, yEdges)) == |pts| <==>
              forall i :: 0 <= i < |pts| ==> InGrid(pts[i], xEdges, yEdges)
  {
    if pts != [] {
      HistogramTotal(pts[1..], xEdges, yEdges);
      assert forall i :: 1 <= i < |pts| ==> pts[i] == pts[1..][i - 1];
    }
  }

  /** Some index below n is missing from a list shorter than n. */
  lemma {:induction false} Pigeonhole(ex: seq<nat>, n: nat)
    requires |ex| < n
    ensures exists m :: 0 <= m < n && m !in ex
    decreases n
  {
    if n - 1 in ex {
      var rest := RemoveAll(ex, n - 1);
      Pigeonhole(rest, n - 1);
      var m :| 0 <= m < n - 1 && m !in rest;
      assert m !in ex;
    } else {
      assert 0 <= n - 1 < n;
    }
  }

  /** The list without any occurrence of x. */
  function RemoveAll(s: seq<nat>, x: nat): (r: seq<nat>)
    ensures x in s ==> |r| < |s|
    ensures |r| <= |s|
    ensures forall y :: y in r <==> y in s && y != x
  {
    if s == [] then [] else (if s[0] == x then [] else [s[0]]) + RemoveAll(s[1..], x)
  }

  /** The index of a largest count at or after i among the indices not in ex. */
  function BestFrom(g: seq<nat>, ex: seq<nat>, i: nat): (r: Option<nat>)
    requires i <= |g|
    ensures r.Some? ==> (i <= r.value < |g| && r.value !in ex &&
              forall m :: i <= m < |g| && m !in ex ==> g[m] <= g[r.value])
    ensures r.None? ==> forall m :: i <= m < |g| ==> m in ex
    decreases |g| - i
  {
    if i == |g| then None
    else
      var rest := BestFrom(g, ex, i + 1);
      if i in ex then rest
      else if rest.None? || g[rest.value] <= g[i] then Some(i)
      else rest
  }

  /** An index of a largest count among those not yet chosen. */
  function MaxOutside(g: seq<nat>, ex: seq<nat>): (m: nat)
    requires |ex| < |g|
    ensures m < |g| && m !in ex
    ensures forall j :: 0 <= j < |g| && j !in ex ==> g[j] <= g[m]
  {
    Pigeonhole(ex, |g|);
    var r := BestFrom(g, ex, 0);
    assert r.Some?;
    r.value
  }

  /** k distinct indices with the largest counts, largest first: each one beats
      every index not chosen. */
  function Picks(g: seq<nat>, k: nat): (p: seq<nat>)
    requires k <= |g|
    ensures |p| == k
    ensures forall a :: 0 <= a < k ==> p[a] < |g|
    ensures forall a, b :: 0 <= a < b < k ==> p[a] != p[b]
    ensures forall a, j :: 0 <= a < k && 0 <= j < |g| && j !in p ==> g[j] <= g[p[a]]
    ensures forall a, b :: 0 <= a < b < k ==> g[p[b]] <= g[p[a]]
  {
    if k == 0 then []
    else
      var prev := Picks(g, k - 1);
      var m := MaxOutside(g, prev);
      prev + [m]
  }

  /** `np.argsort(flat_heatmap)[-5:]`: the five indices of the largest counts,
      in ascending order of count. Every chosen cell's count is at least every
      other cell's; which of several equal counts are chosen is left open, as
      in numpy's unstable sort. */
  function TopIndices(g: seq<nat>): (top: seq<nat>)
    requires |g| == NumCells
    ensures |top| == TopCount
    ensures forall a :: 0 <= a < TopCount ==> top[a] < NumCells
    ensures forall a, b :: 0 <= a < b < TopCount ==> top[a] != top[b]
    ensures forall a, j :: 0 <= a < TopCount && 0 <= j < NumCells && j !in top ==> g[j] <= g[top[a]]
    ensures forall a, b :: 0 <= a < b < TopCount ==> g[top[a]] <= g[top[b]]
  {
    var p := Picks(g, TopCount);
    var top := seq(TopCount, a requires 0 <= a < TopCount => p[TopCount - 1 - a]);
    ReversedPicks(g, p, top);
    top
  }

  /** Read backwards, the picks are the same indices in ascending order of count. */
  lemma ReversedPicks(g: seq<nat>, p: seq<nat>, top: seq<nat>)
    requires |g| == NumCells && p == Picks(g, TopCount)
    requires |top| == TopCount
    requires forall a :: 0 <= a < TopCount ==> top[a] == p[TopCount - 1 - a]
    ensures forall a :: 0 <= a < TopCount ==> top[a] < NumCells
    ensures forall a, b :: 0 <= a < b < TopCount ==> top[a] != top[b]
    ensures forall a, j :: 0 <= a < TopCount && 0 <= j < NumCells && j !in top ==> g[j] <= g[top[a]]
    ensures forall a, b :: 0 <= a < b < TopCount ==> g[top[a]] <= g[top[b]]
  {
    forall j | j in p ensures j in top {
      var b :| 0 <= b < TopCount && p[b] == j;
      assert top[TopCount - 1 - b] == j;
    }
    forall a, b | 0 <= a < b < TopCount
      ensures top[a] != top[b] && g[top[a]] <= g[top[b]]
    {
      assert top[a] == p[TopCount - 1 - a] && top[b] == p[TopCount - 1 - b];
    }
    forall a, j | 0 <= a < TopCount && 0 <= j < NumCells && j !in top
      ensures g[j] <= g[top[a]]
    {
      assert j !in p;
      assert top[a] == p[TopCount - 1 - a];
    }
  }

  /** `np.unravel_index(f, (16, 16))`: the row (x bin) and column (y bin). */
  function Unravel(f: nat): (ij: (nat, nat))
    requires f < NumCells
    ensures ij.0 < NumBinsX && ij.1 < NumBinsY
    ensures ij.0 * NumBinsY + ij.1 == f
  {
    (f / NumBinsY, f % NumBinsY)
  }

  /** Unravelling undoes flattening, the other way round too. */
  lemma UnravelRavel(i: nat, j: nat)
    requires i < NumBinsX && j < NumBinsY
    ensures i * NumBinsY + j < NumCells
    ensures Unravel(i * NumBinsY + j) == (i, j)
  {
  }

  /** The rectangle `[x_edges[i], x_edges[i+1]] x [y_edges[j], y_edges[j+1]]` of
      cell f: positive width and height, and it covers every shot counted in
      that cell. */
  function CellRect(xEdges: seq<real>, yEdges: seq<real>, f: nat): (r: Rect)
    requires ValidGrid(xEdges, yEdges)
    requires f < NumCells
    ensures r.width > 0.0 && r.height > 0.0
    ensures forall p :: CellOf(p, xEdges, yEdges) == Some(f) ==>
              r.x <= p.x <= r.x + r.width && r.y <= p.y <= r.y + r.height
  {
    var (i, j) := Unravel(f);
    Rect(xEdges[i], yEdges[j], xEdges[i + 1] - xEdges[i], yEdges[j + 1] - yEdges[j])
  }

  /** Distinct cells have distinct rectangles. */
  lemma CellRectInjective(xEdges: seq<real>, yEdges: seq<real>, f1: nat, f2: nat)
    requires ValidGrid(xEdges, yEdges)
    requires f1 < NumCells && f2 < NumCells
    ensures CellRect(xEdges, yEdges, f1) == CellRect(xEdges, yEdges, f2) <==> f1 == f2
  {
    var (i1, j1) := Unravel(f1);
    var (i2, j2) := Unravel(f2);
    if f1 != f2 {
      if i1 != i2 {
        assert xEdges[i1] != xEdges[i2];
      } else {
        assert yEdges[j1] != yEdges[j2];
      }
    }
  }

  /** The hot-zone rectangles of a histogram: those of its five busiest cells,
      in the order they are drawn. */
  function ZoneRects(g: seq<nat>, xEdges: seq<real>, yEdges: seq<real>): (rs: seq<Rect>)
    requires ValidGrid(xEdges, yEdges)
    requires |g| == NumCells
    ensures |rs| == TopCount
  {
    var top := TopIndices(g);
    seq(TopCount, k requires 0 <= k < TopCount => CellRect(xEdges, yEdges, top[k]))
  }

  /** The five hot zones are five different rectangles, and no shot-counting
      cell left out is busier than any of them. */
  lemma ZoneRectsHottest(pts: seq<Point>, xEdges: seq<real>, yEdges: seq<real>)
    requires ValidGrid(xEdges, yEdges)
    ensures forall a, b :: 0 <= a < b < TopCount ==>
              ZoneRects(Histogram2d(pts, xEdges, yEdges), xEdges, yEdges)[a] !=
              ZoneRects(Histogram2d(pts, xEdges, yEdges), xEdges, yEdges)[b]
    ensures forall a, c ::
              (0 <= a < TopCount && 0 <= c < NumCells &&
               CellRect(xEdges, yEdges, c) !in ZoneRects(Histogram2d(pts, xEdges, yEdges), xEdges, yEdges)) ==>
              CountInCell(pts, xEdges, yEdges, c) <=
              CountInCell(pts, xEdges, yEdges, TopIndices(Histogram2d(pts, xEdges, yEdges))[a])
  {
    var g := Histogram2d(pts, xEdges, yEdges);
    var top := TopIndices(g);
    var rs := ZoneRects(g, xEdges, yEdges);
    forall a, b | 0 <= a < b < TopCount
      ensures rs[a] != rs[b]
    {
      CellRectInjective(xEdges, yEdges, top[a], top[b]);
    }
    assert forall b :: 0 <= b < TopCount ==> rs[b] == CellRect(xEdges, yEdges, top[b]);
    forall a, c | 0 <= a < TopCount && 0 <= c < NumCells && CellRect(xEdges, yEdges, c) !in rs
      ensures CountInCell(pts, xEdges, yEdges, c) <= CountInCell(pts, xEdges, yEdges, top[a])
    {
      assert c !in top;
      HistogramCell(pts, xEdges, yEdges, c);
      HistogramCell(pts, xEdges, yEdges, top[a]);
    }
  }
}
