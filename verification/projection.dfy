/**
 * `gpsToMeters`: the local planar projection of the land-area calculator.
 * Each point becomes its offset from the FIRST point, in metres, using
 * metres-per-degree factors evaluated at the average latitude.  The factors
 * are cosine series in the source; here they are parameters, functions of
 * the average latitude.
 */
module Projection {
  import opened GpsParse
  import opened Shoelace

  /** `coords.reduce((sum, c) => sum + c.lat, 0)`, summed left to right. */
  function SumLat(coords: seq<GeoCoord>): real {
    if |coords| == 0 then 0.0 else SumLat(coords[..|coords| - 1]) + coords[|coords| - 1].lat
  }

  function AvgLat(coords: seq<GeoCoord>): real
    requires |coords| > 0
  {
    SumLat(coords) / |coords| as real
  }

  /**
   * The projection.  `latFactor` and `lngFactor` give the metres per degree
   * of latitude and of longitude at a latitude.
   */
  function GpsToMeters(coords: seq<GeoCoord>, latFactor: real -> real, lngFactor: real -> real)
    : (r: seq<Point>)
    ensures |r| == |coords|
    ensures |coords| > 0 ==> r[0] == Point(0.0, 0.0)
    ensures |coords| > 0 ==> forall i, j :: 0 <= i < |r| && 0 <= j < |r| ==>
      r[i].x - r[j].x == (coords[i].lng - coords[j].lng) * lngFactor(AvgLat(coords)) &&
      r[i].y - r[j].y == (coords[i].lat - coords[j].lat) * latFactor(AvgLat(coords))
  {
    if |coords| == 0 then []
    else
      var avg := AvgLat(coords);
      var mLat, mLng := latFactor(avg), lngFactor(avg);
      var origin := coords[0];
      seq(|coords|, i requires 0 <= i < |coords| =>
        Point((coords[i].lng - origin.lng) * mLng, (coords[i].lat - origin.lat) * mLat))
  }

  /** The points in degrees, longitude along x and latitude along y. */
  function Degrees(coords: seq<GeoCoord>): (r: seq<Point>)
    ensures |r| == |coords|
    ensures forall i :: 0 <= i < |coords| ==> r[i] == Point(coords[i].lng, coords[i].lat)
  {
    seq(|coords|, i requires 0 <= i < |coords| => Point(coords[i].lng, coords[i].lat))
  }

  /** The projection is the degree polygon moved to the first point and scaled per axis. */
  lemma ProjectionIsAffine(coords: seq<GeoCoord>, latFactor: real -> real, lngFactor: real -> real)
    requires |coords| > 0
    ensures GpsToMeters(coords, latFactor, lngFactor) ==
      Scale(Shift(Degrees(coords), coords[0].lng, coords[0].lat),
            lngFactor(AvgLat(coords)), latFactor(AvgLat(coords)))
  {
    var r := GpsToMeters(coords, latFactor, lngFactor);
    var mLat, mLng := latFactor(AvgLat(coords)), lngFactor(AvgLat(coords));
    var shifted := Shift(Degrees(coords), coords[0].lng, coords[0].lat);
    var image := Scale(shifted, mLng, mLat);
    forall i | 0 <= i < |coords| ensures r[i] == image[i] {
      assert shifted[i] == Point(coords[i].lng - coords[0].lng, coords[i].lat - coords[0].lat);
      assert image[i] == Point(mLng * shifted[i].x, mLat * shifted[i].y);
    }
  }

  /**
   * The projected area is the area of the polygon in square degrees times
   * the product of the two factors, whichever point comes first.
   */
  lemma ProjectedArea(coords: seq<GeoCoord>, latFactor: real -> real, lngFactor: real -> real)
    requires |coords| > 0
    ensures Area(GpsToMeters(coords, latFactor, lngFactor)) ==
            Abs(lngFactor(AvgLat(coords)) * latFactor(AvgLat(coords))) * Area(Degrees(coords))
  {
    ProjectionIsAffine(coords, latFactor, lngFactor);
    AreaAffine(Degrees(coords), coords[0].lng, coords[0].lat,
               lngFactor(AvgLat(coords)), latFactor(AvgLat(coords)));
  }

  /** Only the empty list projects to the empty list; one point gives the origin alone. */
  lemma ProjectionEmptyOnlyForEmpty(coords: seq<GeoCoord>, latFactor: real -> real, lngFactor: real -> real)
    ensures GpsToMeters(coords, latFactor, lngFactor) == [] <==> coords == []
    ensures |coords| == 1 ==> GpsToMeters(coords, latFactor, lngFactor) == [Point(0.0, 0.0)]
  {
  }
}
