/** src/mapHandler.ts: the typed handler. Every reference it drops on `destroy`
    is read through optional chaining, so nothing throws after `destroy`; it also
    listens to `data` changes, prevents the wheel's default action, and defers
    every position update to an animation frame. */
module MapHandlerTs {
  import opened Wrappers
  import opened Cytoscape
  import opened Leaflet
  import opened Dom
  import opened Utils
  import opened MapHandlerLogic

  /** The listeners this variant registers. */
  const Registered: set<Listener> :=
    {ContainerMouseDown, ContainerMouseMove, ContainerWheel, GraphAdd, GraphResize, GraphDragFree, GraphData, MapMove}

  class MapHandler {
    /** The graph handed to the constructor; `cy` refers to it until `destroy`. */
    const graph: Graph
    var cy: Graph?
    var options: Option<Options>
    var leafletMap: Option<MapView>
    var hasMapContainer: bool

    /** `originalAutoungrabify`, `originalUserZoomingEnabled`,
        `originalUserPanningEnabled`, `originalZoom` and `originalPan`, which the
        constructor sets together and `destroy` clears together. */
    var original: Option<Settings>
    var originalPositions: Option<PositionMap>

    var panning: bool
    var listeners: set<Listener>
    /** Once-only `mouseup` listeners on the document that have not run yet. */
    var pendingMouseUps: nat
    /** Events dispatched onto the map's container, in order. */
    var mapEvents: seq<MouseEvent>
    /** Calls of the `setPosition` callback, in order. */
    var writeBacks: seq<(Id, LatLng)>
    /** The node collections of the requested animation frames that have not run
        yet, oldest first. The browser runs them in request order; none is ever
        cancelled. */
    var pendingFrames: seq<seq<Id>>

    predicate Live()
      reads this
    {
      cy != null
    }

    /** How nodes resolve now: through these options, this map and the graph's data. */
    function Geo(): Resolver
      reads this, graph
    {
      Resolver(options, leafletMap, graph.data)
    }

    ghost predicate Attached()
      reads this, graph
    {
      graph.Valid() && (cy == null || cy == graph)
    }

    ghost predicate Valid()
      reads this, graph
    {
      && Attached()
      && (cy != null ==>
            && options.Some? && Validate(options.value).Pass?
            && leafletMap.Some? && hasMapContainer && original.Some?)
      && (cy == null ==>
            && options.None? && leafletMap.None? && !hasMapContainer
            && original.None? && originalPositions.None? && listeners == {})
      && listeners <= Registered
      && (forall i | 0 <= i < |mapEvents| :: !TargetsOverlay(mapEvents[i].target))
      && (forall i, id | 0 <= i < |pendingFrames| && id in pendingFrames[i] :: id in graph.pos)
    }

    /** Construction with options that pass `Validate` (see `NewMapHandler` for the
        failing case): capture the flags and the viewport, lock zooming and panning,
        fit the map, reset the viewport and enable geographic positions. */
    constructor (cy: Graph, options: Options, initial: MapView, fitBounds: LatLngBounds -> MapView)
      requires cy.Valid()
      requires Validate(options).Pass?
      modifies cy`userZoomingEnabled, cy`userPanningEnabled, cy`zoom, cy`pan, cy`pos, cy`hidden
      ensures Valid() && Live() && graph == cy && this.options == Some(options)
      ensures listeners == Registered && hasMapContainer
      ensures !panning && pendingMouseUps == 0 && mapEvents == [] && writeBacks == [] && pendingFrames == []
      ensures original == Some(old(cy.CurrentSettings()))
      ensures !cy.userZoomingEnabled && !cy.userPanningEnabled && cy.autoungrabify == old(cy.autoungrabify)
      ensures cy.zoom == 1.0 && cy.pan == Point(0, 0)
      ensures var bounds := NodeLngLatBounds(cy.nodes, Resolver(Some(options), Some(initial), cy.data));
        leafletMap == Some(if bounds.IsValid() then fitBounds(bounds) else initial)
      ensures originalPositions == Some(Snapshot(cy.nodes, old(cy.pos)))
      ensures cy.pos == Preset(old(cy.pos), TargetPositions(cy.nodes, Geo()))
      ensures cy.hidden == old(cy.hidden) + WithoutPosition(cy.nodes, TargetPositions(cy.nodes, Geo()))
    {
      this.graph := cy;
      this.cy := cy;
      this.options := Some(options);
      // The viewport is read before `fit`, which moves only the map.
      original := Some(cy.CurrentSettings());
      originalPositions := None;
      listeners := Registered - {MapMove};
      hasMapContainer := true;
      leafletMap := Some(initial);
      panning := false;
      pendingMouseUps := 0;
      mapEvents := [];
      writeBacks := [];
      pendingFrames := [];
      new;
      Attach(fitBounds);
    }

    /** The constructor's steps once the options are checked and the flags and the
        viewport captured: lock zooming and panning, fit the map to the nodes,
        listen to the map, reset the viewport and enable geographic positions. */
    method Attach(fitBounds: LatLngBounds -> MapView)
      requires Valid() && Live()
      modifies this`leafletMap, this`listeners, this`originalPositions,
               graph`userZoomingEnabled, graph`userPanningEnabled, graph`zoom, graph`pan, graph`pos, graph`hidden
      ensures Valid()
      ensures listeners == old(listeners) + {MapMove}
      ensures !graph.userZoomingEnabled && !graph.userPanningEnabled
      ensures graph.zoom == 1.0 && graph.pan == Point(0, 0)
      ensures var bounds := NodeLngLatBounds(graph.nodes, old(Geo()));
        leafletMap == (if bounds.IsValid() then Some(fitBounds(bounds)) else old(leafletMap))
      ensures originalPositions == Some(Snapshot(graph.nodes, old(graph.pos)))
      ensures graph.pos == Preset(old(graph.pos), TargetPositions(graph.nodes, Geo()))
      ensures graph.hidden == old(graph.hidden) + WithoutPosition(graph.nodes, TargetPositions(graph.nodes, Geo()))
    {
      LockAndFit(fitBounds);
      // `cy.viewport` directly, or `cy.animate` ending in the same viewport.
      graph.zoom := 1.0;
      graph.pan := Point(0, 0);
      EnableGeographicPositions();
    }

    /** Turn off user zooming and panning, fit the map to the nodes and listen to
        the map's `move`. */
    method LockAndFit(fitBounds: LatLngBounds -> MapView)
      requires Valid() && Live()
      modifies this`leafletMap, this`listeners, graph`userZoomingEnabled, graph`userPanningEnabled
      ensures Valid()
      ensures listeners == old(listeners) + {MapMove}
      ensures !graph.userZoomingEnabled && !graph.userPanningEnabled
      ensures var bounds := NodeLngLatBounds(graph.nodes, old(Geo()));
        leafletMap == (if bounds.IsValid() then Some(fitBounds(bounds)) else old(leafletMap))
    {
      graph.userZoomingEnabled := false;
      graph.userPanningEnabled := false;
      Fit(None, fitBounds);
      listeners := listeners + {MapMove};
    }

    /** `destroy`: remove the listeners, restore the three flags and the viewport,
        dispose of the map, restore the original positions and drop every reference.
        On a handler already destroyed it changes nothing: every step is guarded by
        the reference it needs. */
    method Destroy()
      requires Valid()
      modifies this`cy, this`options, this`listeners, this`original, this`leafletMap, this`hasMapContainer,
               this`originalPositions, graph`autoungrabify, graph`userZoomingEnabled, graph`userPanningEnabled,
               graph`zoom, graph`pan, graph`pos, graph`hidden
      ensures Valid() && !Live()
      ensures !old(Live()) ==> unchanged(this) && unchanged(graph)
      ensures old(Live()) ==>
        && graph.CurrentSettings() == old(original).value
        && graph.pos == (if old(originalPositions).Some? then Preset(old(graph.pos), old(originalPositions).value) else old(graph.pos))
        && graph.hidden == {}
      ensures options.None? && leafletMap.None? && !hasMapContainer && listeners == {}
      ensures original.None? && originalPositions.None?
    {
      if cy == null {
        // Every step finds `cy`, `map`, `mapContainer` and `options` undefined.
        return;
      }
      Detach();
      DisableGeographicPositions();
      cy := null;
      options := None;
    }

    /** `destroy` as it evidently should be: the same steps, followed by
        `cancelAnimationFrame` for every requested frame that has not run, so that
        no update reaches the graph once it has been handed back. */
    method DestroyCancellingFrames()
      requires Valid()
      modifies this`cy, this`options, this`listeners, this`original, this`leafletMap, this`hasMapContainer,
               this`originalPositions, this`pendingFrames, graph`autoungrabify, graph`userZoomingEnabled,
               graph`userPanningEnabled, graph`zoom, graph`pan, graph`pos, graph`hidden
      ensures Valid() && !Live() && pendingFrames == []
      ensures old(Live()) ==>
        && graph.CurrentSettings() == old(original).value
        && graph.pos == (if old(originalPositions).Some? then Preset(old(graph.pos), old(originalPositions).value) else old(graph.pos))
        && graph.hidden == {}
      ensures !old(Live()) ==> graph.CurrentSettings() == old(graph.CurrentSettings()) && graph.pos == old(graph.pos) && graph.hidden == old(graph.hidden)
    {
      Destroy();
      pendingFrames := [];
    }

    /** The steps of `destroy` before positions are restored: remove every listener,
        put back the three flags, remove the map and its container, and put back the
        viewport. */
    method Detach()
      requires Valid() && Live()
      modifies this`listeners, this`original, this`leafletMap, this`hasMapContainer,
               graph`autoungrabify, graph`userZoomingEnabled, graph`userPanningEnabled, graph`zoom, graph`pan
      ensures Attached()
      ensures graph.CurrentSettings() == old(original).value
      ensures listeners == {} && original.None? && leafletMap.None? && !hasMapContainer
    {
      listeners := listeners - {ContainerMouseDown, ContainerMouseMove, ContainerWheel, GraphAdd, GraphResize, GraphDragFree, GraphData};

      var saved := original.value;
      graph.autoungrabify := saved.autoungrabify;
      graph.userZoomingEnabled := saved.userZoomingEnabled;
      graph.userPanningEnabled := saved.userPanningEnabled;

      listeners := listeners - {MapMove};
      leafletMap := None;
      hasMapContainer := false;

      // `cy.viewport` directly, or `cy.animate` ending in the same viewport.
      graph.zoom := saved.zoom;
      graph.pan := saved.pan;
      original := None;
    }

    /** `fit(nodes, options)`: move the map to the bounds of the nodes that resolve,
        all nodes by default, and do nothing when none does. After `destroy` the
        default collection is empty and nothing resolves, so it does nothing. */
    method Fit(nodes: Option<seq<Id>>, fitBounds: LatLngBounds -> MapView)
      requires Valid()
      modifies this`leafletMap
      ensures Valid()
      ensures var bounds := NodeLngLatBounds(nodes.GetOr(if Live() then graph.nodes else []), old(Geo()));
        leafletMap == (if old(leafletMap).Some? && bounds.IsValid() then Some(fitBounds(bounds)) else old(leafletMap))
      ensures !Live() ==> leafletMap == old(leafletMap)
    {
      var ids := nodes.GetOr(if cy != null then graph.nodes else []);
      var bounds := NodeLngLatBounds(ids, Geo());
      if !bounds.IsValid() {
        return;
      }
      if leafletMap.Some? {
        leafletMap := Some(fitBounds(bounds));
      }
    }

    /** `enableGeographicPositions`, which only the constructor calls: snapshot every
        node's position, hide the nodes that do not resolve, and move every node that
        does to its projection. */
    method EnableGeographicPositions()
      requires Valid() && Live()
      modifies this`originalPositions, graph`pos, graph`hidden
      ensures Valid()
      ensures originalPositions == Some(Snapshot(graph.nodes, old(graph.pos)))
      ensures graph.pos == Preset(old(graph.pos), TargetPositions(graph.nodes, Geo()))
      ensures graph.hidden == old(graph.hidden) + WithoutPosition(graph.nodes, TargetPositions(graph.nodes, Geo()))
    {
      var nodes := graph.nodes;
      originalPositions := Some(Snapshot(nodes, graph.pos));
      var positions := TargetPositions(nodes, Geo());
      graph.hidden := graph.hidden + WithoutPosition(nodes, positions);
      graph.pos := Preset(graph.pos, positions);
    }

    /** `updateGeographicPositions(nodes)`, all nodes by default: request an
        animation frame that updates that collection. Nothing moves yet. */
    method UpdateGeographicPositions(nodes: Option<seq<Id>>)
      requires Valid()
      requires nodes.Some? ==> forall id | id in nodes.value :: id in graph.pos
      modifies this`pendingFrames
      ensures Valid()
      ensures pendingFrames == old(pendingFrames) + [nodes.GetOr(if Live() then graph.nodes else [])]
    {
      var ids := nodes.GetOr(if cy != null then graph.nodes else []);
      pendingFrames := pendingFrames + [ids];
    }

    /** The browser runs the oldest requested frame, which calls `updatePositions`
        over its collection. */
    method RunAnimationFrame()
      requires Valid()
      requires pendingFrames != []
      modifies this`pendingFrames, graph`pos, graph`hidden
      ensures Valid()
      ensures pendingFrames == old(pendingFrames)[1..]
      ensures var ids := old(pendingFrames)[0];
        && graph.pos == (if Live() then Preset(old(graph.pos), TargetPositions(ids, Geo())) else old(graph.pos))
        && graph.hidden == old(graph.hidden) + WithoutPosition(ids, TargetPositions(ids, Geo()))
    {
      var ids := pendingFrames[0];
      pendingFrames := pendingFrames[1..];
      UpdatePositions(ids);
    }

    /** `updatePositions(nodes)`, resolved with the options, map and data of the
        moment the frame runs: hide the nodes that do not resolve and move only
        those whose projection differs from where they are. Once the handler is
        destroyed nothing resolves and the layout is skipped, so every node of the
        collection is hidden and none moves. */
    method UpdatePositions(ids: seq<Id>)
      requires Valid()
      requires forall id | id in ids :: id in graph.pos
      modifies graph`pos, graph`hidden
      ensures Valid()
      ensures graph.pos == (if Live() then Preset(old(graph.pos), TargetPositions(ids, Geo())) else old(graph.pos))
      ensures graph.hidden == old(graph.hidden) + WithoutPosition(ids, TargetPositions(ids, Geo()))
      ensures !Live() ==> graph.hidden == old(graph.hidden) + set id | id in ids
    {
      var positions := TargetPositions(ids, Geo());
      var currentPositions := Snapshot(ids, graph.pos);
      AppliedDiffIsTarget(graph.pos, ids, positions);
      var updatedPositions := GetUpdatedPositions(currentPositions, positions);
      graph.hidden := graph.hidden + WithoutPosition(ids, positions);
      if cy != null {
        graph.pos := Preset(graph.pos, updatedPositions);
      } else {
        NothingResolvesWithoutOptions(ids, leafletMap, graph.data);
      }
    }

    /** `disableGeographicPositions`, which only `destroy` calls: put every node
        recorded in `originalPositions` back, show every hidden node, and forget the
        snapshot. */
    method DisableGeographicPositions()
      requires Attached() && Live()
      modifies this`originalPositions, graph`pos, graph`hidden
      ensures Attached()
      ensures graph.pos == (if old(originalPositions).Some? then Preset(old(graph.pos), old(originalPositions).value) else old(graph.pos))
      ensures graph.hidden == {}
      ensures originalPositions.None?
    {
      var nodes := graph.nodes;
      if originalPositions.Some? {
        graph.pos := Preset(graph.pos, originalPositions.value);
      }
      // The layout's `stop` callback: show the nodes that carry the hidden class.
      graph.hidden := graph.hidden - set id | id in nodes;
      originalPositions := None;
    }

    /** `onGraphContainerMouseDown`: a primary-button press that is not a selection
        gesture starts a map pan: it marks the renderer as dragging, forwards the
        event and arms a once-only `mouseup` listener. */
    method OnGraphContainerMouseDown(event: MouseEvent)
      requires Valid() && Live()
      modifies graph`dragging, this`mapEvents, this`pendingMouseUps
      ensures Valid()
      ensures graph.dragging == (old(graph.dragging) || PointerGate(event, graph.hoverDown))
      ensures mapEvents == old(mapEvents) + (if PointerGate(event, graph.hoverDown) && !TargetsOverlay(event.target) then [event] else [])
      ensures pendingMouseUps == old(pendingMouseUps) + (if PointerGate(event, graph.hoverDown) then 1 else 0)
    {
      if PointerGate(event, graph.hoverDown) {
        graph.dragging := true;
        DispatchMapEvent(event);
        pendingMouseUps := pendingMouseUps + 1;
      }
    }

    /** `onGraphContainerMouseMove`: under the same gate, the move pans the map. */
    method OnGraphContainerMouseMove(event: MouseEvent)
      requires Valid() && Live()
      modifies this`panning, this`mapEvents
      ensures Valid()
      ensures panning == (old(panning) || PointerGate(event, graph.hoverDown))
      ensures mapEvents == old(mapEvents) + (if PointerGate(event, graph.hoverDown) && !TargetsOverlay(event.target) then [event] else [])
    {
      if PointerGate(event, graph.hoverDown) {
        panning := true;
        DispatchMapEvent(event);
      }
    }

    /** `onGraphContainerWheel`: the page does not scroll, and the event goes to the map. */
    method OnGraphContainerWheel(event: MouseEvent) returns (defaultPrevented: bool)
      requires Valid() && Live()
      modifies this`mapEvents
      ensures Valid()
      ensures defaultPrevented
      ensures mapEvents == old(mapEvents) + (if !TargetsOverlay(event.target) then [event] else [])
    {
      defaultPrevented := true;
      DispatchMapEvent(event);
    }

    /** The document's `mouseup`: every armed once-only listener runs. The first one
        that finds a pan in progress ends it and, while the handler holds the graph,
        marks the renderer as dragged so Cytoscape does not read the release as a
        click; the rest find `panning` false. */
    method OnDocumentMouseUp()
      requires Valid()
      modifies this`panning, this`pendingMouseUps, graph`dragged
      ensures Valid()
      ensures pendingMouseUps == 0
      ensures panning == (old(panning) && old(pendingMouseUps) == 0)
      ensures graph.dragged == (old(graph.dragged) || (old(pendingMouseUps) > 0 && old(panning) && Live()))
    {
      if pendingMouseUps > 0 && panning {
        panning := false;
        if cy != null {
          graph.dragged := true;
        }
      }
      pendingMouseUps := 0;
    }

    /** `onMapMove`: Leaflet has moved its camera to `moved`; request an update of
        all nodes. */
    method OnMapMove(moved: MapView)
      requires Valid() && Live()
      modifies this`leafletMap, this`pendingFrames
      ensures Valid()
      ensures leafletMap == Some(moved)
      ensures pendingFrames == old(pendingFrames) + [graph.nodes]
    {
      leafletMap := Some(moved);
      UpdateGeographicPositions(None);
    }

    /** `onDataChange`: the data of some element changed; request an update of all
        nodes, which reads the data when its frame runs. */
    method OnDataChange()
      requires Valid() && Live()
      modifies this`pendingFrames
      ensures Valid()
      ensures pendingFrames == old(pendingFrames) + [graph.nodes]
    {
      UpdateGeographicPositions(None);
    }

    /** `onGraphAdd`: an added node's position joins the snapshot, which is created
        when there is none, then an update of only that node is requested. Edges
        are ignored. */
    method OnGraphAdd(target: Element)
      requires Valid() && Live()
      requires target.NodeElement? ==> target.id in graph.pos
      modifies this`originalPositions, this`pendingFrames
      ensures Valid()
      ensures target.EdgeElement? ==> originalPositions == old(originalPositions) && pendingFrames == old(pendingFrames)
      ensures target.NodeElement? ==>
        && originalPositions == Some(old(originalPositions).GetOr(map[])[target.id := graph.pos[target.id]])
        && pendingFrames == old(pendingFrames) + [[target.id]]
    {
      if target.EdgeElement? {
        return;
      }
      var recorded := originalPositions.GetOr(map[]);
      originalPositions := Some(recorded[target.id := graph.pos[target.id]]);
      UpdateGeographicPositions(Some([target.id]));
    }

    /** `onGraphDragFree`: with a `setPosition` callback and a map, report the
        released node's coordinate under the map's inverse projection; then request
        an update of only that node. */
    method OnGraphDragFree(id: Id)
      requires Valid() && Live()
      requires id in graph.pos
      modifies this`writeBacks, this`pendingFrames
      ensures Valid()
      ensures writeBacks == old(writeBacks) +
        (if Truthy(options.value.setPositionKind) then [(id, leafletMap.value.unproject(graph.pos[id]))] else [])
      ensures pendingFrames == old(pendingFrames) + [[id]]
    {
      if options.Some? && Truthy(options.value.setPositionKind) {
        if leafletMap.Some? {
          var lngLat := leafletMap.value.unproject(graph.pos[id]);
          writeBacks := writeBacks + [(id, lngLat)];
        }
      }
      UpdateGeographicPositions(Some([id]));
    }

    /** `dispatchMapEvent`: re-dispatch onto the map's container, unless the event
        was aimed at the overlay, which the map has already received. */
    method DispatchMapEvent(event: MouseEvent)
      requires Valid()
      modifies this`mapEvents
      ensures Valid()
      ensures mapEvents == old(mapEvents) + (if !TargetsOverlay(event.target) && Live() then [event] else [])
    {
      if TargetsOverlay(event.target) {
        return;
      }
      if leafletMap.Some? {
        mapEvents := mapEvents + [event];
      }
    }
  }

  /** `new MapHandler(cy, mapOptions, options)`: throws on invalid options before
      touching the graph; otherwise the handler is live over `cy`. */
  method NewMapHandler(cy: Graph, options: Options, initial: MapView, fitBounds: LatLngBounds -> MapView)
    returns (result: Result<MapHandler, ConfigError>)
    requires cy.Valid()
    modifies cy
    ensures Validate(options).Fail? ==> result == Failure(Validate(options).error) && unchanged(cy)
    ensures Validate(options).Pass? ==>
      && result.Success? && fresh(result.value)
      && result.value.Valid() && result.value.Live() && result.value.graph == cy
      && result.value.original == Some(old(cy.CurrentSettings()))
      && result.value.originalPositions == Some(Snapshot(old(cy.nodes), old(cy.pos)))
  {
    var check := Validate(options);
    if check.Fail? {
      return Failure(check.error);
    }
    var handler := new MapHandler(cy, options, initial, fitBounds);
    return Success(handler);
  }

  /** Constructing a handler and destroying it before any frame runs hands the graph
      back as it was: the three flags, the viewport and every node position; only
      the hidden class is gone from every node. A second `destroy` changes nothing. */
  method DestroyRestoresGraph(cy: Graph, options: Options, initial: MapView, fitBounds: LatLngBounds -> MapView)
    requires cy.Valid()
    requires Validate(options).Pass?
    modifies cy
    ensures cy.autoungrabify == old(cy.autoungrabify)
    ensures cy.userZoomingEnabled == old(cy.userZoomingEnabled)
    ensures cy.userPanningEnabled == old(cy.userPanningEnabled)
    ensures cy.zoom == old(cy.zoom) && cy.pan == old(cy.pan)
    ensures cy.pos == old(cy.pos) && cy.hidden == {}
  {
    var handler := new MapHandler(cy, options, initial, fitBounds);
    ghost var before := old(cy.pos);
    ghost var moved := cy.pos;
    handler.Destroy();
    SnapshotRestores(before, moved, cy.nodes);
    handler.Destroy();
  }

  /** The frame an update requested before `destroy` still runs after it: with the
      options gone nothing resolves, so every node the restored graph showed is
      hidden again. */
  method LateFrameRehides(handler: MapHandler)
    requires handler.Valid() && handler.Live() && handler.pendingFrames == [] && handler.graph.nodes != []
    modifies handler, handler.graph
    ensures handler.graph.hidden == handler.graph.NodeIds() && handler.graph.hidden != {}
  {
    handler.OnDataChange();
    handler.Destroy();
    NothingResolvesWithoutOptions(handler.graph.nodes, handler.leafletMap, handler.graph.data);
    handler.RunAnimationFrame();
    assert handler.graph.nodes[0] in handler.graph.hidden;
  }

  /** With the frames cancelled by `destroy`, the same session leaves nothing
      pending, and the graph stays as `destroy` handed it back: every flag, the
      viewport and every position as before construction, with nothing hidden. */
  method CancelledFrameKeepsRestore(cy: Graph, options: Options, initial: MapView, fitBounds: LatLngBounds -> MapView)
    returns (handler: MapHandler)
    requires cy.Valid()
    requires Validate(options).Pass?
    modifies cy
    ensures handler.graph == cy && handler.Valid() && handler.pendingFrames == []
    ensures cy.CurrentSettings() == old(cy.CurrentSettings())
    ensures cy.pos == old(cy.pos) && cy.hidden == {}
  {
    handler := new MapHandler(cy, options, initial, fitBounds);
    ghost var before := old(cy.pos);
    ghost var moved := cy.pos;
    handler.OnDataChange();
    handler.DestroyCancellingFrames();
    SnapshotRestores(before, moved, cy.nodes);
  }
}
