/** The computations both map-handler variants share: option validation, node
    coordinate lookup, the position maps built from a node collection, the
    bounds reduction behind `fit`, and the input-forwarding gates. */
module MapHandlerLogic {
  import opened Wrappers
  import opened Cytoscape
  import opened Leaflet
  import opened Dom
  import opened Utils

  /** What a JavaScript option property holds, as far as validation can tell. */
  datatype ValueKind = Undefined | FalsyValue | TruthyValue | FunctionValue

  predicate Truthy(kind: ValueKind) { kind == TruthyValue || kind == FunctionValue }

  /** `getPosition` followed by `L.latLng`: `None` when the getter returns a falsy
      value or the conversion throws. */
  type Getter = (Id, NodeData) -> Option<LatLng>

  /** `MapHandlerOptions`. `getPosition` is the getter that is called when
      `getPositionKind` is `FunctionValue`; `setPosition` is a callback whose calls
      the handler records. */
  datatype Options = Options(
    getPositionKind: ValueKind,
    getPosition: Getter,
    setPositionKind: ValueKind,
    animate: bool)

  datatype ConfigError = GetPositionNotFunction | SetPositionNotFunction

  /** The listeners a handler may hold: three on the graph container, four on the
      graph core (`data` only in the typed variant) and `move` on the map. */
  datatype Listener =
    | ContainerMouseDown | ContainerMouseMove | ContainerWheel
    | GraphAdd | GraphResize | GraphDragFree | GraphData
    | MapMove

  /** The constructor's checks: `getPosition` must be a function; `setPosition`
      may be missing or falsy, but a truthy value must be a function. */
  function Validate(options: Options): (result: Outcome<ConfigError>)
    ensures options.getPositionKind != FunctionValue ==> result == Fail(GetPositionNotFunction)
    ensures options.getPositionKind == FunctionValue ==>
              (result == Fail(SetPositionNotFunction) <==> options.setPositionKind == TruthyValue)
    ensures result == Pass <==>
              options.getPositionKind == FunctionValue && options.setPositionKind != TruthyValue
  {
    if options.getPositionKind != FunctionValue then Fail(GetPositionNotFunction)
    else if Truthy(options.setPositionKind) && options.setPositionKind != FunctionValue then Fail(SetPositionNotFunction)
    else Pass
  }

  /** What resolving a node reads: the options (for `getPosition`), the map (for
      its projection) and the nodes' data. */
  datatype Resolver = Resolver(options: Option<Options>, view: Option<MapView>, data: map<Id, NodeData>) {

    /** `getNodeLngLat`: nothing once the options are gone or `getPosition` is not
        a function, otherwise what the getter resolves for the node's data. */
    function LngLat(id: Id): (lngLat: Option<LatLng>)
      ensures lngLat.Some? ==> options.Some? && options.value.getPositionKind == FunctionValue && id in data
      ensures options.Some? && options.value.getPositionKind == FunctionValue && id in data ==>
                lngLat == options.value.getPosition(id, data[id])
    {
      if options.None? || options.value.getPositionKind != FunctionValue || id !in data then None
      else options.value.getPosition(id, data[id])
    }

    /** `getGeographicPosition`: the node's coordinate projected by the current map. */
    function Position(id: Id): (position: Option<Point>)
      ensures position.Some? <==> LngLat(id).Some? && view.Some?
      ensures position.Some? ==> position.value == view.value.project(LngLat(id).value)
    {
      match LngLat(id)
      case None => None
      case Some(lngLat) => if view.None? then None else Some(view.value.project(lngLat))
    }
  }

  /** The `positions` map: the nodes of `ids` that resolve, at their projection. */
  function TargetPositions(ids: seq<Id>, geo: Resolver): PositionMap
  {
    map id | id in ids && geo.Position(id).Some? :: geo.Position(id).value
  }

  /** A copy of the current positions of the nodes of `ids`
      (`originalPositions`, `currentPositions`). */
  function Snapshot(ids: seq<Id>, pos: PositionMap): PositionMap
    requires forall id | id in ids :: id in pos
  {
    map id | id in ids :: pos[id]
  }

  /** `nodesWithoutPosition`: the nodes of `ids` missing from `positions`. */
  function WithoutPosition(ids: seq<Id>, positions: PositionMap): set<Id>
  {
    set id | id in ids && id !in positions
  }

  /** `getNodeLngLatBounds`: the reduction that extends an empty box by each
      resolvable node's coordinate. It is valid exactly when some node resolves,
      and it holds every coordinate that was resolved. */
  function NodeLngLatBounds(ids: seq<Id>, geo: Resolver): (bounds: LatLngBounds)
    ensures bounds.IsValid() <==> exists i | 0 <= i < |ids| :: geo.LngLat(ids[i]).Some?
    ensures forall i | 0 <= i < |ids| && geo.LngLat(ids[i]).Some? :: bounds.Contains(geo.LngLat(ids[i]).value)
    decreases |ids|
  {
    if ids == [] then NoBounds
    else
      var bounds := NodeLngLatBounds(ids[..|ids| - 1], geo);
      match geo.LngLat(ids[|ids| - 1])
      case None => bounds
      case Some(p) => bounds.Extend(p)
  }

  /** The box `fit` moves to is the tightest one: each of its four sides is the
      coordinate of some node that resolved. */
  lemma {:induction false} NodeLngLatBoundsTight(ids: seq<Id>, geo: Resolver)
    requires NodeLngLatBounds(ids, geo).IsValid()
    ensures var b := NodeLngLatBounds(ids, geo);
      && (exists i | 0 <= i < |ids| && geo.LngLat(ids[i]).Some? :: geo.LngLat(ids[i]).value.lat == b.south)
      && (exists i | 0 <= i < |ids| && geo.LngLat(ids[i]).Some? :: geo.LngLat(ids[i]).value.lng == b.west)
      && (exists i | 0 <= i < |ids| && geo.LngLat(ids[i]).Some? :: geo.LngLat(ids[i]).value.lat == b.north)
      && (exists i | 0 <= i < |ids| && geo.LngLat(ids[i]).Some? :: geo.LngLat(ids[i]).value.lng == b.east)
    decreases |ids|
  {
    var init := ids[..|ids| - 1];
    var last := |ids| - 1;
    var b := NodeLngLatBounds(ids, geo);
    var b0 := NodeLngLatBounds(init, geo);
    if geo.LngLat(ids[last]).None? {
      assert b == b0;
      NodeLngLatBoundsTight(init, geo);
      forall i | 0 <= i < |init| ensures ids[i] == init[i] { }
    } else if b0.NoBounds? {
      var p := geo.LngLat(ids[last]).value;
      assert b == Bounds(p.lat, p.lng, p.lat, p.lng);
    } else {
      NodeLngLatBoundsTight(init, geo);
      forall i | 0 <= i < |init| ensures ids[i] == init[i] { }
    }
  }

  /** The gate of the mouse-down and mouse-move handlers: only the primary button,
      no multi-select modifier, and the renderer has not taken the pointer. */
  predicate PointerGate(event: MouseEvent, hoverDown: bool)
  {
    event.buttons == 1 && !IsMultSelKeyDown(event) && !hoverDown
  }

  /** The gate of `dispatchMapEvent`: the target is the overlay or inside it. */
  predicate TargetsOverlay(target: EventTarget)
  {
    target == MapContainer || target == InsideMapContainer
  }

  /** The gate admits neither a second button, nor a held multi-select key, nor a
      pointer the renderer holds; alt is ignored. */
  lemma PointerGateExcludes(event: MouseEvent, hoverDown: bool)
    ensures PointerGate(event, hoverDown) ==> event.buttons == 1 && !hoverDown
    ensures event.shiftKey || event.metaKey || event.ctrlKey ==> !PointerGate(event, hoverDown)
    ensures PointerGate(event, hoverDown) == PointerGate(event.(altKey := !event.altKey), hoverDown)
  {
    MultSelIgnoresAlt(event);
  }

  /** A node of `ids` sits, after a preset run over the target map, at its projection
      when it resolves; every other node keeps its position. */
  lemma PresetTargetAt(pos: PositionMap, ids: seq<Id>, geo: Resolver, id: Id)
    requires id in pos
    ensures Preset(pos, TargetPositions(ids, geo))[id]
         == if id in ids && geo.Position(id).Some? then geo.Position(id).value else pos[id]
  {
  }

  /** The nodes hidden by a run over `ids` are exactly the nodes of `ids` that do
      not resolve to a position. */
  lemma HiddenIffUnresolved(ids: seq<Id>, geo: Resolver, id: Id)
    ensures id in WithoutPosition(ids, TargetPositions(ids, geo)) <==> id in ids && geo.Position(id).None?
  {
  }

  /** Applying only the diff against the nodes' current positions moves every node
      exactly where applying the whole target map would. */
  lemma AppliedDiffIsTarget(pos: PositionMap, ids: seq<Id>, target: PositionMap)
    requires forall id | id in ids :: id in pos
    requires forall id | id in target :: id in ids
    ensures target.Keys <= Snapshot(ids, pos).Keys
    ensures Preset(pos, GetUpdatedPositions(Snapshot(ids, pos), target)) == Preset(pos, target)
  {
  }

  /** A second update against the same target, right after the first, has nothing to move. */
  lemma SecondUpdateIsEmpty(pos: PositionMap, ids: seq<Id>, target: PositionMap)
    requires forall id | id in ids :: id in pos
    requires forall id | id in target :: id in ids
    ensures GetUpdatedPositions(Snapshot(ids, Preset(pos, target)), target) == map[]
  {
  }

  /** Presetting the snapshot of every node undoes any change of positions that
      kept the set of nodes. */
  lemma SnapshotRestores(before: PositionMap, after: PositionMap, ids: seq<Id>)
    requires forall id :: id in ids <==> id in before
    requires after.Keys == before.Keys
    ensures Preset(after, Snapshot(ids, before)) == before
  {
  }

  /** Without options nothing resolves, so every node of `ids` lacks a position. */
  lemma NothingResolvesWithoutOptions(ids: seq<Id>, view: Option<MapView>, data: map<Id, NodeData>)
    ensures TargetPositions(ids, Resolver(None, view, data)) == map[]
    ensures WithoutPosition(ids, TargetPositions(ids, Resolver(None, view, data))) == set id | id in ids
  {
  }
}
