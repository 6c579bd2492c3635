/** src/map-handler.js: the handler the published bundle is built from. It updates
    positions synchronously and, once destroyed, throws on every public call. */
module MapHandlerJs {
  import opened Wrappers
  import opened Cytoscape
  import opened Leaflet
  import opened Dom
  import opened Utils
  import opened MapHandlerLogic

  /** The listeners this variant registers. */
  const Registered: set<Listener> :=
    {ContainerMouseDown, ContainerMouseMove, ContainerWheel, GraphAdd, GraphResize, GraphDragFree, MapMove}

  class MapHandler {
    /** The graph handed to the constructor; `cy` refers to it until `destroy`. */
    const graph: Graph
    var cy: Graph?
    var options: Option<Options>
    var leafletMap: Option<MapView>
    var hasMapContainer: bool

    /** `originalAutoungrabify`, `originalUserZoomingEnabled`,
        `originalUserPanningEnabled`, `originalZoom` and `originalPan`, which the
        constructor sets together and `destroy` clears together. */
    var original: Option<Settings>
    var originalPositions: Option<PositionMap>

    var panning: bool
    var listeners: set<Listener>
    /** Once-only `mouseup` listeners on the document that have not run yet. */
    var pendingMouseUps: nat
    /** Events dispatched onto the map's container, in order. */
    var mapEvents: seq<MouseEvent>
    /** Calls of the `setPosition` callback, in order. */
    var writeBacks: seq<(Id, LatLng)>

    predicate Live()
      reads this
    {
      cy != null
    }

    /** How nodes resolve now: through these options, this map and the graph's data. */
    function Geo(): Resolver
      reads this, graph
    {
      Resolver(options, leafletMap, graph.data)
    }

    ghost predicate Attached()
      reads this, graph
    {
      graph.Valid() && (cy == null || cy == graph)
    }

    ghost predicate Valid()
      reads this, graph
    {
      && Attached()
      && (cy != null ==>
            && options.Some? && Validate(options.value).Pass?
            && leafletMap.Some? && hasMapContainer
            && original.Some?)
      && (cy == null ==>
            && options.None? && leafletMap.None? && !hasMapContainer
            && original.None? && originalPositions.None?
            && listeners == {})
      && listeners <= Registered
      && (forall i | 0 <= i < |mapEvents| :: !TargetsOverlay(mapEvents[i].target))
    }

    /** Construction with options that pass `Validate` (see `NewMapHandler` for the
        failing case): capture the flags and the viewport, lock zooming and panning,
        fit the map, reset the viewport and enable geographic positions. */
    constructor (cy: Graph, options: Options, initial: MapView, fitBounds: LatLngBounds -> MapView)
      requires cy.Valid()
      requires Validate(options).Pass?
      modifies cy`userZoomingEnabled, cy`userPanningEnabled, cy`zoom, cy`pan, cy`pos, cy`hidden
      ensures Valid() && Live() && graph == cy && this.options == Some(options)
      ensures listeners == Registered && hasMapContainer
      ensures !panning && pendingMouseUps == 0 && mapEvents == [] && writeBacks == []
      ensures original == Some(old(cy.CurrentSettings()))
      ensures !cy.userZoomingEnabled && !cy.userPanningEnabled && cy.autoungrabify == old(cy.autoungrabify)
      ensures cy.zoom == 1.0 && cy.pan == Point(0, 0)
      ensures var bounds := NodeLngLatBounds(cy.nodes, Resolver(Some(options), Some(initial), cy.data));
        leafletMap == Some(if bounds.IsValid() then fitBounds(bounds) else initial)
      ensures originalPositions == Some(Snapshot(cy.nodes, old(cy.pos)))
      ensures cy.pos == Preset(old(cy.pos), TargetPositions(cy.nodes, Geo()))
      ensures cy.hidden == old(cy.hidden) + WithoutPosition(cy.nodes, TargetPositions(cy.nodes, Geo()))
    {
      this.graph := cy;
      this.cy := cy;
      this.options := Some(options);
      // The viewport is read before `fit`, which moves only the map.
      original := Some(cy.CurrentSettings());
      originalPositions := None;
      listeners := Registered - {MapMove};
      hasMapContainer := true;
      leafletMap := Some(initial);
      panning := false;
      pendingMouseUps := 0;
      mapEvents := [];
      writeBacks := [];
      new;
      Attach(fitBounds);
    }

    /** The constructor's steps once the options are checked and the flags and the
        viewport captured: lock zooming and panning, fit the map to the nodes,
        listen to the map, reset the viewport and enable geographic positions. */
    method Attach(fitBounds: LatLngBounds -> MapView)
      requires Valid() && Live()
      modifies this`leafletMap, this`listeners, this`originalPositions,
               graph`userZoomingEnabled, graph`userPanningEnabled, graph`zoom, graph`pan, graph`pos, graph`hidden
      ensures Valid()
      ensures listeners == old(listeners) + {MapMove}
      ensures !graph.userZoomingEnabled && !graph.userPanningEnabled
      ensures graph.zoom == 1.0 && graph.pan == Point(0, 0)
      ensures var bounds := NodeLngLatBounds(graph.nodes, old(Geo()));
        leafletMap == (if bounds.IsValid() then Some(fitBounds(bounds)) else old(leafletMap))
      ensures originalPositions == Some(Snapshot(graph.nodes, old(graph.pos)))
      ensures graph.pos == Preset(old(graph.pos), TargetPositions(graph.nodes, Geo()))
      ensures graph.hidden == old(graph.hidden) + WithoutPosition(graph.nodes, TargetPositions(graph.nodes, Geo()))
    {
      LockAndFit(fitBounds);
      // `cy.viewport` directly, or `cy.animate` ending in the same viewport.
      graph.zoom := 1.0;
      graph.pan := Point(0, 0);
      var _ := EnableGeographicPositions();
    }

    /** Turn off user zooming and panning, fit the map to the nodes and listen to
        the map's `move`. */
    method LockAndFit(fitBounds: LatLngBounds -> MapView)
      requires Valid() && Live()
      modifies this`leafletMap, this`listeners, graph`userZoomingEnabled, graph`userPanningEnabled
      ensures Valid()
      ensures listeners == old(listeners) + {MapMove}
      ensures !graph.userZoomingEnabled && !graph.userPanningEnabled
      ensures var bounds := NodeLngLatBounds(graph.nodes, old(Geo()));
        leafletMap == (if bounds.IsValid() then Some(fitBounds(bounds)) else old(leafletMap))
    {
      graph.userZoomingEnabled := false;
      graph.userPanningEnabled := false;
      var _ := Fit(None, fitBounds);
      listeners := listeners + {MapMove};
    }

    /** `destroy`: remove the listeners, restore the three flags and the viewport,
        dispose of the map, restore the original positions and drop every reference.
        On an already destroyed handler the first line throws. */
    method Destroy() returns (threw: bool)
      requires Valid()
      modifies this`cy, this`options, this`listeners, this`original, this`leafletMap, this`hasMapContainer,
               this`originalPositions, graph`autoungrabify, graph`userZoomingEnabled, graph`userPanningEnabled,
               graph`zoom, graph`pan, graph`pos, graph`hidden
      ensures Valid() && !Live()
      ensures threw <==> old(cy) == null
      ensures threw ==> unchanged(this) && unchanged(graph)
      ensures !threw ==>
        && graph.CurrentSettings() == old(original).value
        && graph.pos == (if old(originalPositions).Some? then Preset(old(graph.pos), old(originalPositions).value) else old(graph.pos))
        && graph.hidden == {}
      ensures !threw ==>
        && options.None? && leafletMap.None? && !hasMapContainer && listeners == {}
        && original.None? && originalPositions.None?
    {
      if cy == null {
        return true;
      }
      threw := false;
      Detach();
      var _ := DisableGeographicPositions();
      cy := null;
      options := None;
    }

    /** The steps of `destroy` before positions are restored: remove every listener,
        put back the three flags, remove the map and its container, and put back the
        viewport. */
    method Detach()
      requires Valid() && Live()
      modifies this`listeners, this`original, this`leafletMap, this`hasMapContainer,
               graph`autoungrabify, graph`userZoomingEnabled, graph`userPanningEnabled, graph`zoom, graph`pan
      ensures Attached()
      ensures graph.CurrentSettings() == old(original).value
      ensures listeners == {} && original.None? && leafletMap.None? && !hasMapContainer
    {
      listeners := listeners - {ContainerMouseDown, ContainerMouseMove, ContainerWheel, GraphAdd, GraphResize, GraphDragFree};

      var saved := original.value;
      graph.autoungrabify := saved.autoungrabify;
      graph.userZoomingEnabled := saved.userZoomingEnabled;
      graph.userPanningEnabled := saved.userPanningEnabled;

      listeners := listeners - {MapMove};
      leafletMap := None;
      hasMapContainer := false;

      // `cy.viewport` directly, or `cy.animate` ending in the same viewport.
      graph.zoom := saved.zoom;
      graph.pan := saved.pan;
      original := None;
    }

    /** `fit(nodes, options)`: move the map to the bounds of the nodes that resolve,
        and do nothing when none does. After `destroy` it throws, except for an
        explicitly empty collection, whose bounds are simply invalid. */
    method Fit(nodes: Option<seq<Id>>, fitBounds: LatLngBounds -> MapView) returns (threw: bool)
      requires Valid()
      modifies this`leafletMap
      ensures Valid()
      ensures threw <==> !Live() && (nodes.None? || nodes.value != [])
      ensures var bounds := NodeLngLatBounds(nodes.GetOr(graph.nodes), old(Geo()));
        leafletMap == (if Live() && bounds.IsValid() then Some(fitBounds(bounds)) else old(leafletMap))
    {
      if cy == null {
        return nodes.None? || nodes.value != [];
      }
      threw := false;
      var bounds := NodeLngLatBounds(nodes.GetOr(graph.nodes), Geo());
      if bounds.IsValid() {
        leafletMap := Some(fitBounds(bounds));
      }
    }

    /** `enableGeographicPositions`: snapshot every node's position, hide the nodes
        that do not resolve, and move every node that does to its projection. */
    method EnableGeographicPositions() returns (threw: bool)
      requires Valid()
      modifies this`originalPositions, graph`pos, graph`hidden
      ensures Valid()
      ensures threw <==> !Live()
      ensures threw ==> originalPositions == old(originalPositions) && graph.pos == old(graph.pos) && graph.hidden == old(graph.hidden)
      ensures !threw ==>
        && originalPositions == Some(Snapshot(graph.nodes, old(graph.pos)))
        && graph.pos == Preset(old(graph.pos), TargetPositions(graph.nodes, Geo()))
        && graph.hidden == old(graph.hidden) + WithoutPosition(graph.nodes, TargetPositions(graph.nodes, Geo()))
    {
      if cy == null {
        return true;
      }
      threw := false;
      var nodes := graph.nodes;
      originalPositions := Some(Snapshot(nodes, graph.pos));
      var positions := TargetPositions(nodes, Geo());
      graph.hidden := graph.hidden + WithoutPosition(nodes, positions);
      graph.pos := Preset(graph.pos, positions);
    }

    /** `updateGeographicPositions(nodes)`, all nodes by default: hide the nodes of
        the collection that do not resolve and move only those whose projection
        differs from where they are. Nodes outside the collection do not move, and
        the hidden marker is never removed here. */
    method UpdateGeographicPositions(nodes: Option<seq<Id>>) returns (threw: bool)
      requires Valid()
      requires nodes.Some? ==> forall id | id in nodes.value :: id in graph.pos
      modifies graph`pos, graph`hidden
      ensures Valid()
      ensures threw <==> !Live()
      ensures threw ==> graph.pos == old(graph.pos) && graph.hidden == old(graph.hidden)
      ensures !threw ==>
        var ids := nodes.GetOr(graph.nodes);
        && graph.pos == Preset(old(graph.pos), TargetPositions(ids, Geo()))
        && graph.hidden == old(graph.hidden) + WithoutPosition(ids, TargetPositions(ids, Geo()))
      ensures old(graph.hidden) <= graph.hidden
    {
      if cy == null {
        return true;
      }
      threw := false;
      var ids := nodes.GetOr(graph.nodes);
      var positions := TargetPositions(ids, Geo());
      var currentPositions := Snapshot(ids, graph.pos);
      AppliedDiffIsTarget(graph.pos, ids, positions);
      var updatedPositions := GetUpdatedPositions(currentPositions, positions);
      graph.hidden := graph.hidden + WithoutPosition(ids, positions);
      graph.pos := Preset(graph.pos, updatedPositions);
    }

    /** `disableGeographicPositions`: put every node recorded in `originalPositions`
        back, show every hidden node, and forget the snapshot. */
    method DisableGeographicPositions() returns (threw: bool)
      requires Attached()
      modifies this`originalPositions, graph`pos, graph`hidden
      ensures Attached()
      ensures old(Valid()) ==> Valid()
      ensures threw <==> cy == null
      ensures threw ==> originalPositions == old(originalPositions) && graph.pos == old(graph.pos) && graph.hidden == old(graph.hidden)
      ensures !threw ==>
        && graph.pos == (if old(originalPositions).Some? then Preset(old(graph.pos), old(originalPositions).value) else old(graph.pos))
        && graph.hidden == {}
        && originalPositions.None?
    {
      if cy == null {
        return true;
      }
      threw := false;
      var nodes := graph.nodes;
      if originalPositions.Some? {
        graph.pos := Preset(graph.pos, originalPositions.value);
      }
      // The layout's `stop` callback: show the nodes that carry the hidden class.
      graph.hidden := graph.hidden - set id | id in nodes;
      originalPositions := None;
    }

    /** `onGraphContainerMouseDown`: a primary-button press that is not a selection
        gesture starts a map pan: it marks the renderer as dragging, forwards the
        event and arms a once-only `mouseup` listener. */
    method OnGraphContainerMouseDown(event: MouseEvent)
      requires Valid() && Live()
      modifies graph`dragging, this`mapEvents, this`pendingMouseUps
      ensures Valid()
      ensures graph.dragging == (old(graph.dragging) || PointerGate(event, graph.hoverDown))
      ensures mapEvents == old(mapEvents) + (if PointerGate(event, graph.hoverDown) && !TargetsOverlay(event.target) then [event] else [])
      ensures pendingMouseUps == old(pendingMouseUps) + (if PointerGate(event, graph.hoverDown) then 1 else 0)
    {
      if PointerGate(event, graph.hoverDown) {
        graph.dragging := true;
        DispatchMapEvent(event);
        pendingMouseUps := pendingMouseUps + 1;
      }
    }

    /** `onGraphContainerMouseMove`: under the same gate, the move pans the map. */
    method OnGraphContainerMouseMove(event: MouseEvent)
      requires Valid() && Live()
      modifies this`panning, this`mapEvents
      ensures Valid()
      ensures panning == (old(panning) || PointerGate(event, graph.hoverDown))
      ensures mapEvents == old(mapEvents) + (if PointerGate(event, graph.hoverDown) && !TargetsOverlay(event.target) then [event] else [])
    {
      if PointerGate(event, graph.hoverDown) {
        panning := true;
        DispatchMapEvent(event);
      }
    }

    /** `onGraphContainerWheel`: every wheel event goes to the map. */
    method OnGraphContainerWheel(event: MouseEvent)
      requires Valid() && Live()
      modifies this`mapEvents
      ensures Valid()
      ensures mapEvents == old(mapEvents) + (if !TargetsOverlay(event.target) then [event] else [])
    {
      DispatchMapEvent(event);
    }

    /** The document's `mouseup`: every armed once-only listener runs. The first one
        that finds a pan in progress ends it and marks the renderer as dragged so
        Cytoscape does not read the release as a click; the rest find `panning`
        false. After `destroy` that listener throws reaching the renderer. */
    method OnDocumentMouseUp() returns (threw: bool)
      requires Valid()
      modifies this`panning, this`pendingMouseUps, graph`dragged
      ensures Valid()
      ensures pendingMouseUps == 0
      ensures panning == (old(panning) && old(pendingMouseUps) == 0)
      ensures graph.dragged == (old(graph.dragged) || (old(pendingMouseUps) > 0 && old(panning) && Live()))
      ensures threw <==> old(pendingMouseUps) > 0 && old(panning) && !Live()
    {
      threw := false;
      if pendingMouseUps > 0 && panning {
        panning := false;
        if cy != null {
          graph.dragged := true;
        } else {
          threw := true;
        }
      }
      pendingMouseUps := 0;
    }

    /** `onMapMove`: Leaflet has moved its camera to `moved`; re-project all nodes. */
    method OnMapMove(moved: MapView)
      requires Valid() && Live()
      modifies this`leafletMap, graph`pos, graph`hidden
      ensures Valid()
      ensures leafletMap == Some(moved)
      ensures graph.pos == Preset(old(graph.pos), TargetPositions(graph.nodes, Geo()))
      ensures graph.hidden == old(graph.hidden) + WithoutPosition(graph.nodes, TargetPositions(graph.nodes, Geo()))
    {
      leafletMap := Some(moved);
      var _ := UpdateGeographicPositions(None);
    }

    /** `onGraphAdd`: an added node's position joins the snapshot, then only that
        node is updated. Edges are ignored. With no snapshot (after a public
        `disableGeographicPositions`) the assignment throws. */
    method OnGraphAdd(target: Element) returns (threw: bool)
      requires Valid() && Live()
      requires target.NodeElement? ==> target.id in graph.pos
      modifies this`originalPositions, graph`pos, graph`hidden
      ensures Valid()
      ensures threw <==> target.NodeElement? && old(originalPositions).None?
      ensures target.EdgeElement? || threw ==>
        originalPositions == old(originalPositions) && graph.pos == old(graph.pos) && graph.hidden == old(graph.hidden)
      ensures target.NodeElement? && !threw ==>
        && originalPositions == Some(old(originalPositions).value[target.id := old(graph.pos)[target.id]])
        && graph.pos == Preset(old(graph.pos), TargetPositions([target.id], Geo()))
        && graph.hidden == old(graph.hidden) + WithoutPosition([target.id], TargetPositions([target.id], Geo()))
    {
      threw := false;
      if target.EdgeElement? {
        return;
      }
      if originalPositions.None? {
        return true;
      }
      originalPositions := Some(originalPositions.value[target.id := graph.pos[target.id]]);
      var _ := UpdateGeographicPositions(Some([target.id]));
    }

    /** `onGraphDragFree`: with a `setPosition` callback, report the released node's
        coordinate under the map's inverse projection; then update only that node. */
    method OnGraphDragFree(id: Id)
      requires Valid() && Live()
      requires id in graph.pos
      modifies this`writeBacks, graph`pos, graph`hidden
      ensures Valid()
      ensures writeBacks == old(writeBacks) +
        (if Truthy(options.value.setPositionKind) then [(id, leafletMap.value.unproject(old(graph.pos)[id]))] else [])
      ensures graph.pos == Preset(old(graph.pos), TargetPositions([id], Geo()))
      ensures graph.hidden == old(graph.hidden) + WithoutPosition([id], TargetPositions([id], Geo()))
    {
      if Truthy(options.value.setPositionKind) {
        var lngLat := leafletMap.value.unproject(graph.pos[id]);
        writeBacks := writeBacks + [(id, lngLat)];
      }
      var _ := UpdateGeographicPositions(Some([id]));
    }

    /** `dispatchMapEvent`: re-dispatch onto the map's container, unless the event
        was aimed at the overlay, which the map has already received. */
    method DispatchMapEvent(event: MouseEvent)
      requires Valid() && Live()
      modifies this`mapEvents
      ensures Valid()
      ensures mapEvents == old(mapEvents) + (if !TargetsOverlay(event.target) then [event] else [])
    {
      if TargetsOverlay(event.target) {
        return;
      }
      mapEvents := mapEvents + [event];
    }
  }

  /** `new MapHandler(cy, mapOptions, options)`: throws on invalid options before
      touching the graph; otherwise the handler is live over `cy`. */
  method NewMapHandler(cy: Graph, options: Options, initial: MapView, fitBounds: LatLngBounds -> MapView)
    returns (result: Result<MapHandler, ConfigError>)
    requires cy.Valid()
    modifies cy
    ensures Validate(options).Fail? ==> result == Failure(Validate(options).error) && unchanged(cy)
    ensures Validate(options).Pass? ==>
      && result.Success? && fresh(result.value)
      && result.value.Valid() && result.value.Live() && result.value.graph == cy
      && result.value.original == Some(old(cy.CurrentSettings()))
      && result.value.originalPositions == Some(Snapshot(old(cy.nodes), old(cy.pos)))
  {
    var check := Validate(options);
    if check.Fail? {
      return Failure(check.error);
    }
    var handler := new MapHandler(cy, options, initial, fitBounds);
    return Success(handler);
  }

  /** Constructing a handler and destroying it hands the graph back as it was:
      the three flags, the viewport and every node position; only the hidden class
      is gone from every node. */
  method DestroyRestoresGraph(cy: Graph, options: Options, initial: MapView, fitBounds: LatLngBounds -> MapView)
    requires cy.Valid()
    requires Validate(options).Pass?
    modifies cy
    ensures cy.autoungrabify == old(cy.autoungrabify)
    ensures cy.userZoomingEnabled == old(cy.userZoomingEnabled)
    ensures cy.userPanningEnabled == old(cy.userPanningEnabled)
    ensures cy.zoom == old(cy.zoom) && cy.pan == old(cy.pan)
    ensures cy.pos == old(cy.pos) && cy.hidden == {}
  {
    var handler := new MapHandler(cy, options, initial, fitBounds);
    ghost var before := old(cy.pos);
    ghost var moved := cy.pos;
    var _ := handler.Destroy();
    SnapshotRestores(before, moved, cy.nodes);
  }
}
