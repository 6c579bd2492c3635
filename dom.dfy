/** The slice of a DOM mouse or wheel event that the map handler inspects. */
module Dom {

  datatype EventKind = MouseDown | MouseMove | Wheel

  /** Where an event was targeted, relative to the map overlay element
      (the `mapContainer` the handler inserts into the graph container). */
  datatype EventTarget = MapContainer | InsideMapContainer | OutsideMapContainer

  datatype MouseEvent = MouseEvent(
    kind: EventKind,
    buttons: int,
    shiftKey: bool,
    metaKey: bool,
    ctrlKey: bool,
    altKey: bool,
    target: EventTarget)
}
