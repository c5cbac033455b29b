/** First-match geofence selection, shared by the backend
    (`get_place_from_location`) and the log page (`findMatchingPlace`).
    The great-circle distance is a haversine computation in floating point
    in both tiers; here it is an arbitrary function supplied by the caller,
    and only the selection rule over it is modelled. */
module Geofence {
  import opened Wrappers

  /** Distance in metres between (lat1, lon1) and (lat2, lon2). */
  type Distance = (real, real, real, real) -> real

  /** A row of the `places` table. `id` is the name for places added
      through the API. */
  datatype Place = Place(id: string, name: string, lat: real, lon: real, radius: real, kind: string)

  /** The point lies inside the place's geofence; the boundary counts as
      inside. */
  predicate Within(dist: Distance, lat: real, lon: real, p: Place) {
    dist(lat, lon, p.lat, p.lon) <= p.radius
  }

  /** `i` is the index of the first place, in list order, whose geofence
      holds the point. */
  ghost predicate IsFirstMatch(dist: Distance, lat: real, lon: real, places: seq<Place>, i: nat) {
    && i < |places|
    && Within(dist, lat, lon, places[i])
    && forall j :: 0 <= j < i ==> !Within(dist, lat, lon, places[j])
  }

  /** The walk over the place list that both tiers perform: the index of
      the first place whose geofence holds the point, or None. */
  function FirstMatch(dist: Distance, lat: real, lon: real, places: seq<Place>): (r: Option<nat>)
    ensures r.Some? ==> IsFirstMatch(dist, lat, lon, places, r.value)
    ensures r.None? ==> forall j :: 0 <= j < |places| ==> !Within(dist, lat, lon, places[j])
  {
    if |places| == 0 then None
    else if Within(dist, lat, lon, places[0]) then Some(0)
    else
      match FirstMatch(dist, lat, lon, places[1..])
      case None => None
      case Some(i) => Some(i + 1)
  }

  /** The first match is unique, so the walk finds exactly the index that
      IsFirstMatch describes and no other. */
  lemma FirstMatchExactly(dist: Distance, lat: real, lon: real, places: seq<Place>, i: nat)
    ensures FirstMatch(dist, lat, lon, places) == Some(i) <==> IsFirstMatch(dist, lat, lon, places, i)
  {
  }

  /** When geofences overlap, the one listed earlier wins, whatever the
      radii are. */
  lemma EarlierOverlapWins(dist: Distance, lat: real, lon: real, places: seq<Place>, i: nat, j: nat)
    requires i < j < |places|
    requires Within(dist, lat, lon, places[i]) && Within(dist, lat, lon, places[j])
    ensures FirstMatch(dist, lat, lon, places).Some?
    ensures FirstMatch(dist, lat, lon, places).value <= i
  {
  }

  /** A point at exactly the radius from the first place's centre selects
      that place. */
  lemma BoundaryIsInside(dist: Distance, lat: real, lon: real, places: seq<Place>)
    requires |places| > 0
    requires dist(lat, lon, places[0].lat, places[0].lon) == places[0].radius
    ensures FirstMatch(dist, lat, lon, places) == Some(0)
  {
  }

  /** Splitting the list: the first match of `ps + qs` is the first match
      of `ps` if there is one, otherwise the first match of `qs` shifted
      past `ps`. */
  lemma {:induction false} FirstMatchAppend(dist: Distance, lat: real, lon: real, ps: seq<Place>, qs: seq<Place>)
    ensures FirstMatch(dist, lat, lon, ps + qs) ==
      match FirstMatch(dist, lat, lon, ps)
      case Some(i) => Some(i)
      case None =>
        match FirstMatch(dist, lat, lon, qs)
        case Some(k) => Some(|ps| + k)
        case None => None
  {
    if |ps| == 0 {
      assert ps + qs == qs;
    } else {
      assert (ps + qs)[0] == ps[0];
      assert (ps + qs)[1..] == ps[1..] + qs;
      FirstMatchAppend(dist, lat, lon, ps[1..], qs);
    }
  }
}
