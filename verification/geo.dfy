/** The proximity test between a user and a store. The great-circle
    distance itself (haversine over floating point) is not part of this
    model: every caller passes the distance function in, and the only fact
    assumed of it anywhere is `dist(p, p) == 0`, where a lemma says so. */
module Geo {
  import opened Basics
  import opened Models

  datatype Coord = Coord(latitude: real, longitude: real)

  /** Distance in kilometres between two points. */
  type DistanceFn = (Coord, Coord) -> real

  /** The radius used by the dispatcher and by a reservation claim. */
  const DefaultMaxDistanceKm: real := 2.0

  /** A position is known only when both of its coordinates are. */
  function Position(latitude: Option<real>, longitude: Option<real>): (p: Option<Coord>)
    ensures p.Some? <==> latitude.Some? && longitude.Some?
    ensures p.Some? ==> p.value == Coord(latitude.value, longitude.value)
  {
    if latitude.Some? && longitude.Some? then Some(Coord(latitude.value, longitude.value)) else None
  }

  /** True when both parties have full coordinates and their distance is at
      most `maxDistanceKm` (inclusive); false when any coordinate is missing. */
  function IsUserNearStore(u: User, s: Store, maxDistanceKm: real, dist: DistanceFn): (near: bool)
    ensures near <==>
      var up := Position(u.latitude, u.longitude);
      var sp := Position(s.latitude, s.longitude);
      up.Some? && sp.Some? && dist(up.value, sp.value) <= maxDistanceKm
  {
    if u.latitude.None? || u.longitude.None? || s.latitude.None? || s.longitude.None? then false
    else
      var distance := dist(Coord(u.latitude.value, u.longitude.value),
                           Coord(s.latitude.value, s.longitude.value));
      distance <= maxDistanceKm
  }

  /** A missing coordinate on either side rules proximity out, whatever the
      radius and the distance function. */
  lemma MissingCoordinateIsFar(u: User, s: Store, maxDistanceKm: real, dist: DistanceFn)
    requires u.latitude.None? || u.longitude.None? || s.latitude.None? || s.longitude.None?
    ensures !IsUserNearStore(u, s, maxDistanceKm, dist)
  {
  }

  /** A user standing exactly at the store is near it for any non-negative
      radius, given only that a point is at distance zero from itself. */
  lemma SameSpotIsNear(u: User, s: Store, maxDistanceKm: real, dist: DistanceFn)
    requires u.latitude.Some? && u.longitude.Some?
    requires s.latitude == u.latitude && s.longitude == u.longitude
    requires dist(Coord(u.latitude.value, u.longitude.value),
                  Coord(u.latitude.value, u.longitude.value)) == 0.0
    requires maxDistanceKm >= 0.0
    ensures IsUserNearStore(u, s, maxDistanceKm, dist)
  {
  }

  /** Widening the radius never turns a near user into a far one. */
  lemma NearIsMonotoneInRadius(u: User, s: Store, r1: real, r2: real, dist: DistanceFn)
    requires r1 <= r2
    requires IsUserNearStore(u, s, r1, dist)
    ensures IsUserNearStore(u, s, r2, dist)
  {
  }
}
