/** The part of a Leaflet map that the map handler relies on. */
module Leaflet {
  import opened Cytoscape

  datatype LatLng = LatLng(lat: int, lng: int)

  /** A map camera, reduced to its two conversions: `latLngToContainerPoint`
      and `containerPointToLatLng`. */
  datatype MapView = MapView(project: LatLng -> Point, unproject: Point -> LatLng)

  function Min(a: int, b: int): int { if a <= b then a else b }
  function Max(a: int, b: int): int { if a <= b then b else a }

  /** `L.LatLngBounds`: empty (not valid) until a first point extends it. */
  datatype LatLngBounds = NoBounds | Bounds(south: int, west: int, north: int, east: int) {

    predicate IsValid() { Bounds? }

    predicate Contains(p: LatLng) {
      Bounds? && south <= p.lat <= north && west <= p.lng <= east
    }

    function Extend(p: LatLng): LatLngBounds {
      match this
      case NoBounds => Bounds(p.lat, p.lng, p.lat, p.lng)
      case Bounds(s, w, n, e) => Bounds(Min(s, p.lat), Min(w, p.lng), Max(n, p.lat), Max(e, p.lng))
    }
  }
}
