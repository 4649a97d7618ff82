/** The tiler's `Sector`: an immutable latitude/longitude box in degrees,
    over real numbers. */
module Sectors {
  datatype Sector = Sector(minLatitude: real, minLongitude: real, maxLatitude: real, maxLongitude: real)

  /** `FULL_SPHERE`. */
  const FullSphere := Sector(-90.0, -180.0, 90.0, 180.0)

  function DeltaLatitude(s: Sector): (d: real)
    ensures s.minLatitude + d == s.maxLatitude
    ensures d >= 0.0 <==> s.minLatitude <= s.maxLatitude
  {
    s.maxLatitude - s.minLatitude
  }

  function DeltaLongitude(s: Sector): (d: real)
    ensures s.minLongitude + d == s.maxLongitude
    ensures d >= 0.0 <==> s.minLongitude <= s.maxLongitude
  {
    s.maxLongitude - s.minLongitude
  }

  /** The midpoint: as far from the maximum as from the minimum. */
  function CenterLatitude(s: Sector): (c: real)
    ensures c - s.minLatitude == s.maxLatitude - c
  {
    0.5 * (s.maxLatitude + s.minLatitude)
  }

  function CenterLongitude(s: Sector): (c: real)
    ensures c - s.minLongitude == s.maxLongitude - c
  {
    0.5 * (s.maxLongitude + s.minLongitude)
  }

  /** `containsPoint`: the closed box test on both axes. */
  predicate ContainsPoint(s: Sector, latitude: real, longitude: real) {
    s.minLatitude <= latitude <= s.maxLatitude && s.minLongitude <= longitude <= s.maxLongitude
  }

  /** A point is inside exactly when its offsets from the minimum corner lie
      within the deltas. */
  lemma ContainsMeansWithinDeltas(s: Sector, latitude: real, longitude: real)
    ensures ContainsPoint(s, latitude, longitude) <==>
      && 0.0 <= latitude - s.minLatitude <= DeltaLatitude(s)
      && 0.0 <= longitude - s.minLongitude <= DeltaLongitude(s)
  {
  }

  /** A well-ordered sector contains its centre and its four corners, and a
      sector that contains any point is well ordered. */
  lemma CentreAndCornersContained(s: Sector)
    requires s.minLatitude <= s.maxLatitude && s.minLongitude <= s.maxLongitude
    ensures ContainsPoint(s, CenterLatitude(s), CenterLongitude(s))
    ensures ContainsPoint(s, s.minLatitude, s.minLongitude) && ContainsPoint(s, s.minLatitude, s.maxLongitude)
    ensures ContainsPoint(s, s.maxLatitude, s.minLongitude) && ContainsPoint(s, s.maxLatitude, s.maxLongitude)
  {
  }

  lemma ContainingImpliesOrdered(s: Sector, latitude: real, longitude: real)
    requires ContainsPoint(s, latitude, longitude)
    ensures DeltaLatitude(s) >= 0.0 && DeltaLongitude(s) >= 0.0
  {
  }

  /** The full sphere contains exactly the points with latitude in [-90, 90] and
      longitude in [-180, 180], and is centred on (0, 0). */
  lemma FullSphereContainsEveryCoordinate(latitude: real, longitude: real)
    ensures ContainsPoint(FullSphere, latitude, longitude) <==> -90.0 <= latitude <= 90.0 && -180.0 <= longitude <= 180.0
    ensures CenterLatitude(FullSphere) == 0.0 && CenterLongitude(FullSphere) == 0.0
    ensures DeltaLatitude(FullSphere) == 180.0 && DeltaLongitude(FullSphere) == 360.0
  {
  }
}
