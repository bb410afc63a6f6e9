/** dashboard.py, court geometry: the linear rescale of the API's shot
    coordinates to feet on the drawn half court, and the layup zone, a circle
    of radius 5 feet around the rim at (0, 5.25). Coordinates are exact reals. */
module Court {

  /** `LOC_X / 250 * 25`: the court's half width of 250 API units becomes 25 feet. */
  function PlotX(locX: int): real
  {
    locX as real / 250.0 * 25.0
  }

  /** `(LOC_Y / 422 * 47) + 2`: 422 API units become 47 feet, shifted up 2 feet. */
  function PlotY(locY: int): real
  {
    locY as real / 422.0 * 47.0 + 2.0
  }

  /** The inverse of the x rescale. */
  function LocXOf(plotX: real): real
  {
    (plotX / 25.0) * 250.0
  }

  /** The inverse of the y rescale. */
  function LocYOf(plotY: real): real
  {
    (plotY - 2.0) / 47.0 * 422.0
  }

  /** The rescale loses nothing: the API coordinate is recovered from the
      plotted one, and every plotted value comes from its inverse. */
  lemma RescaleRoundTrip(locX: int, locY: int, px: real, py: real)
    ensures LocXOf(PlotX(locX)) == locX as real
    ensures LocYOf(PlotY(locY)) == locY as real
    ensures LocXOf(px) / 250.0 * 25.0 == px
    ensures LocYOf(py) / 422.0 * 47.0 + 2.0 == py
  {
  }

  /** Both rescales are strictly increasing, so they keep the order of shots
      along each axis in both directions. */
  lemma RescaleMonotone(a: int, b: int)
    ensures a < b <==> PlotX(a) < PlotX(b)
    ensures a < b <==> PlotY(a) < PlotY(b)
  {
  }

  /** `LOC_X = 0` lands on the centre line x = 0, and `LOC_Y = 0` two feet
      above the baseline. */
  lemma RescaleOrigin()
    ensures PlotX(0) == 0.0
    ensures PlotY(0) == 2.0
  {
  }

  /** Which API coordinates land on the drawn court, whose limits are -25..25
      by 0..47 feet. */
  lemma OnDrawnCourt(locX: int, locY: int)
    ensures -25.0 <= PlotX(locX) <= 25.0 <==> -250 <= locX <= 250
    ensures 0.0 <= PlotY(locY) <= 47.0 <==> -17 <= locY <= 404
  {
    if locY < -17 {
      assert locY as real <= -18.0;
    }
    if locY > 404 {
      assert locY as real >= 405.0;
    }
  }

  const LayupRadius: real := 5.0
  const LayupCenterX: real := 0.0
  const LayupCenterY: real := 5.25

  /** `is_outside_layup_zone(x, y)`: the squared distance from the rim exceeds
      the squared radius; the comparison is strict. */
  predicate IsOutsideLayupZone(x: real, y: real)
  {
    (x - LayupCenterX) * (x - LayupCenterX) + (y - LayupCenterY) * (y - LayupCenterY) > LayupRadius * LayupRadius
  }

  /** The circle itself belongs to the layup zone: a point exactly 5 feet from
      the rim is not outside, a point just beyond is. */
  lemma LayupBoundary()
    ensures !IsOutsideLayupZone(0.0, 10.25)
    ensures !IsOutsideLayupZone(5.0, 5.25)
    ensures !IsOutsideLayupZone(3.0, 9.25)
    ensures IsOutsideLayupZone(0.0, 10.2501)
    ensures !IsOutsideLayupZone(LayupCenterX, LayupCenterY)
    ensures IsOutsideLayupZone(10.0, 20.0)
  {
  }

  /** The zone is symmetric about the centre line. */
  lemma LayupMirror(x: real, y: real)
    ensures IsOutsideLayupZone(x, y) <==> IsOutsideLayupZone(-x, y)
  {
  }

  /** More than 5 feet from the rim along either axis is outside. */
  lemma LayupFar(x: real, y: real)
    requires x > 5.0 || x < -5.0 || y > 10.25 || y < 0.25
    ensures IsOutsideLayupZone(x, y)
  {
    var dx, dy := x - LayupCenterX, y - LayupCenterY;
    SquareNonNegative(dx);
    SquareNonNegative(dy);
    if x > 5.0 || x < -5.0 {
      SquareAbove(dx, 5.0);
    } else {
      SquareAbove(dy, 5.0);
    }
  }

  /** Beyond c on either side of 0, the square exceeds c squared. */
  lemma SquareAbove(r: real, c: real)
    requires c >= 0.0 && (r > c || r < -c)
    ensures r * r > c * c
  {
    var a := if r > c then r else -r;
    assert a > c;
    assert r * r == a * a;
    var e := a - c;
    assert a * a == c * c + 2.0 * c * e + e * e;
    assert e * e > 0.0;
    assert c * e >= 0.0;
  }

  /** Within 3 feet across and 4 feet up or down of the rim (a 3-4-5 triangle at the corner)
      no shot is outside. */
  lemma LayupNear(x: real, y: real)
    requires -3.0 <= x <= 3.0 && 1.25 <= y <= 9.25
    ensures !IsOutsideLayupZone(x, y)
  {
    var dx, dy := x - LayupCenterX, y - LayupCenterY;
    assert dx * dx <= 9.0 by {
      if dx >= 0.0 { assert dx * dx <= 3.0 * dx; } else { assert dx * dx <= -3.0 * dx; }
    }
    assert dy * dy <= 16.0 by {
      if dy >= 0.0 { assert dy * dy <= 4.0 * dy; } else { assert dy * dy <= -4.0 * dy; }
    }
  }

  lemma SquareNonNegative(r: real)
    ensures r * r >= 0.0
  {
    if r < 0.0 {
      assert r * r == (-r) * (-r);
    }
  }

  /** Moving a shot away from the rim along the same ray keeps it outside. */
  lemma LayupRadial(x: real, y: real, t: real)
    requires t >= 1.0
    requires IsOutsideLayupZone(x, y)
    ensures IsOutsideLayupZone(LayupCenterX + t * (x - LayupCenterX), LayupCenterY + t * (y - LayupCenterY))
  {
    var d := (x - LayupCenterX) * (x - LayupCenterX) + (y - LayupCenterY) * (y - LayupCenterY);
    var x2, y2 := LayupCenterX + t * (x - LayupCenterX), LayupCenterY + t * (y - LayupCenterY);
    assert (x2 - LayupCenterX) * (x2 - LayupCenterX) + (y2 - LayupCenterY) * (y2 - LayupCenterY) == t * t * d;
    assert t * t >= 1.0 by {
      assert t * t >= t * 1.0;
    }
    assert t * t * d >= d by {
      assert (t * t - 1.0) * d >= 0.0;
    }
  }

  /** A shot at the rim's API position (0, 0) plots at (0, 2), inside the zone;
      one at (0, 60) plots about 6.7 feet up, still inside; one from the
      corner three, (220, 0), is outside. */
  lemma LayupOfApiShots()
    ensures !IsOutsideLayupZone(PlotX(0), PlotY(0))
    ensures !IsOutsideLayupZone(PlotX(0), PlotY(60))
    ensures IsOutsideLayupZone(PlotX(220), PlotY(0))
  {
  }
}
