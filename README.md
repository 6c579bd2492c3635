# cytoscape-leaflet map handler, modelled in Dafny

The map handler ties a Cytoscape graph to a Leaflet map. When it is built, it
does the following:

- checks its options;
- captures the graph's three interaction flags (`autoungrabify`,
  `userZoomingEnabled`, `userPanningEnabled`) and its viewport (zoom and pan);
- locks user zooming and panning;
- fits the map to the nodes' coordinates;
- resets the viewport to zoom 1 and pan (0, 0);
- enables geographic positions. Every node's position is snapshotted. A node
  whose coordinate resolves moves to that coordinate's projection on the map.
  A node whose coordinate does not resolve gets the hidden class.

From then on it forwards pointer input to the map, re-projects nodes when the
map moves, and reports dragged nodes back through `setPosition`. `destroy`
undoes all of it.

The model has these modules:

- `Utils` (`utils.dfy`): the helpers of `src/utils.ts`. These are the
  multi-select key test, exact position equality and the position diff
  `getUpdatedPositions`.
- `Cytoscape` (`cytoscape.dfy`): the part of a graph core the handler uses. It
  is a `Graph` class whose fields the handler updates in place: nodes, positions,
  data, the hidden class, the three flags, the viewport and the renderer's hover
  data. It also holds `Preset`, the effect of a `preset` layout run.
- `Leaflet` (`leaflet.dfy`): coordinates, a map camera reduced to its two
  conversions, and `LatLngBounds`.
- `MapHandlerLogic` (`map_handler_logic.dfy`): the computations both variants
  share. These are option validation, node coordinate resolution (`Resolver`),
  the target, snapshot and hidden sets of a node collection, the bounds
  reduction behind `fit`, and the input gates.
- `MapHandlerJs` (`map_handler_js.dfy`): the class of `src/map-handler.js`,
  which the published bundle is built from. It updates positions synchronously.
  Once destroyed, every public call that reaches a dropped reference throws.
  The model returns `threw` and leaves the state unchanged in that case.
- `MapHandlerTs` (`map_handler_ts.dfy`): the class of `src/mapHandler.ts`. It
  guards every step with optional chaining, listens to `data`, prevents the
  wheel's default action, and defers every update to an animation frame. The
  pending frames are a queue; `RunAnimationFrame` runs the oldest one.
- `Wrappers` (`wrappers.dfy`) and `Dom` (`dom.dfy`): `Option`, `Result` and
  `Outcome`, and the fields of a mouse event the handlers read.

Event handlers require a live handler (`Live()`): the host only calls the
listeners the handler has registered, and `destroy` removes every one it
registered with `on`. The once-only document `mouseup` listeners armed by a
pointer gesture are the exception: `destroy` does not remove them, so
`OnDocumentMouseUp` requires only `Valid()` and also runs after `destroy`.
Listener registration is the `listeners` set. Re-dispatched events are the
`mapEvents` sequence. Calls of `setPosition` are the `writeBacks` sequence.

Three behaviours of the code are easy to miss:

- The typed variant's deferred updates are never cancelled. Every request
  runs, in request order (a FIFO queue), not only the most recent one.
- An update only ever adds the hidden class; it never removes it. A node that
  was hidden and later resolves moves to its projection but stays hidden until
  `destroy` (see `UpdateGeographicPositions` and `UpdatePositions`).
- A frame of the typed variant that runs after `destroy` resolves nothing. It
  therefore hides every node of its collection again, and moves none
  (`MapHandlerTs.MapHandler.UpdatePositions`; see "Findings").

## Model

| member | source | states |
|---|---|---|
| Utils.MultSelIgnoresAlt | src/utils.ts:6-8 | flipping alt never changes the multi-select test; alt held alone never counts |
| Utils.ArePositionsEqualIsExact | src/utils.ts:15-20 | position equality is exact equality of both coordinates, with no tolerance |
| Utils.GetUpdatedPositions | src/utils.ts:22-32 | the result's keys are target keys with the target's points; a target key is in the result iff its point differs from the current one; every target key must be current |
| Utils.OverlayUpdatedIsOverlayAll | src/utils.ts:22-32 | overlaying the diff onto the current map gives the same map as overlaying the whole target |
| Utils.UpdatedPositionsIdempotent | src/utils.ts:27-30 | after the diff is applied, diffing again against the same target gives the empty map |
| Utils.NoUpdateIffAgree | src/utils.ts:27-30 | the diff is empty iff every target entry agrees with the current one |
| Cytoscape.Preset | src/map-handler.js:226-232 | a preset layout run keeps the node set: moved nodes are the keys of the given map, the others keep their positions |
| MapHandlerLogic.Validate | src/map-handler.js:68-73 | a non-function `getPosition` fails; otherwise a truthy non-function `setPosition` fails; it passes iff `getPosition` is a function and `setPosition` is absent, falsy or a function |
| MapHandlerLogic.Resolver.LngLat | src/map-handler.js:408-422 | a node resolves only when `getPosition` is a function and the node has data, and then it resolves to what the getter returns |
| MapHandlerLogic.Resolver.Position | src/map-handler.js:446-454 | a node has a screen position iff its coordinate resolves and there is a map, and the position is the map's projection of that coordinate |
| MapHandlerLogic.NodeLngLatBounds | src/map-handler.js:429-439 | the bounds are valid iff some node of the collection resolves, and they contain every resolved coordinate |
| MapHandlerLogic.NodeLngLatBoundsTight | src/map-handler.js:429-439 | each side of valid bounds is the coordinate of some resolved node |
| MapHandlerLogic.PointerGateExcludes | src/map-handler.js:297-333 | the pointer gate needs the primary button alone and no renderer grab, excludes shift, meta and ctrl, and ignores alt |
| MapHandlerLogic.HiddenIffUnresolved | src/map-handler.js:213-223 | a run over a collection hides exactly the nodes of the collection that do not resolve |
| MapHandlerLogic.PresetTargetAt | src/map-handler.js:213-232 | after a preset run over a collection's targets, a resolving node of the collection sits at its projection and every other node keeps its position |
| MapHandlerLogic.AppliedDiffIsTarget | src/mapHandler.ts:286-309 | applying only the changed positions moves every node exactly where applying all targets would |
| MapHandlerLogic.SecondUpdateIsEmpty | src/map-handler.js:249-257 | right after an update, a second update against the same targets has nothing to move |
| MapHandlerLogic.SnapshotRestores | src/map-handler.js:273-291 | presetting the snapshot of every node undoes any change of positions that kept the node set |
| MapHandlerLogic.NothingResolvesWithoutOptions | src/mapHandler.ts:488-494 | without options no node resolves, so every node of a collection counts as without position |
| MapHandlerJs.MapHandler.constructor | src/map-handler.js:63-132 | captures the three flags and the viewport, locks zooming and panning, leaves `autoungrabify`, registers every listener, fits the map, resets the viewport to 1 and (0, 0), snapshots every position and places or hides every node |
| MapHandlerJs.MapHandler.Attach | src/map-handler.js:79-131 | the constructor's steps after capture: flags locked, map fitted, `move` listened to, unit viewport, geographic positions enabled |
| MapHandlerJs.MapHandler.LockAndFit | src/map-handler.js:79-103 | zooming and panning off, the map moved to the nodes' bounds only when they are valid, `move` listened to |
| MapHandlerJs.MapHandler.Destroy | src/map-handler.js:134-188 | on a live handler: flags and viewport restored to the captured values, positions restored from the snapshot, nothing hidden, every listener and reference dropped; on a destroyed one it throws and changes nothing |
| MapHandlerJs.MapHandler.Detach | src/map-handler.js:134-180 | listeners removed, flags and viewport put back exactly, map and container gone, captured values cleared |
| MapHandlerJs.MapHandler.Fit | src/map-handler.js:194-201 | the map moves iff some node of the collection resolves, and then to the view that fits the collection's bounds; after `destroy` it throws unless the collection is explicitly empty |
| MapHandlerJs.MapHandler.EnableGeographicPositions | src/map-handler.js:206-233 | the snapshot maps every node to its prior position; resolving nodes move to their projection; the others are hidden and keep their position |
| MapHandlerJs.MapHandler.UpdateGeographicPositions | src/map-handler.js:239-268 | only nodes of the collection move, each resolving one to its projection; the unresolved ones of the collection are added to the hidden set, which never shrinks |
| MapHandlerJs.MapHandler.DisableGeographicPositions | src/map-handler.js:273-291 | every node recorded in the snapshot returns to its recorded position, the hidden set is emptied and the snapshot dropped |
| MapHandlerJs.MapHandler.OnGraphContainerMouseDown | src/map-handler.js:297-317 | under the pointer gate: the renderer is marked dragging, the event is forwarded unless aimed at the overlay, and one `mouseup` listener is armed; otherwise nothing changes |
| MapHandlerJs.MapHandler.OnGraphContainerMouseMove | src/map-handler.js:323-333 | under the pointer gate: `panning` is set and the event forwarded unless aimed at the overlay |
| MapHandlerJs.MapHandler.OnGraphContainerWheel | src/map-handler.js:339-341 | every wheel event is forwarded unless aimed at the overlay |
| MapHandlerJs.MapHandler.OnDocumentMouseUp | src/map-handler.js:306-315 | an armed `mouseup` clears `panning` and sets `dragged` only when a pan was in progress; after `destroy` that step throws |
| MapHandlerJs.MapHandler.OnMapMove | src/map-handler.js:346-348 | the map's new camera re-projects every node |
| MapHandlerJs.MapHandler.OnGraphAdd | src/map-handler.js:354-365 | edges are ignored; an added node's position joins the snapshot and only that node is updated; without a snapshot it throws |
| MapHandlerJs.MapHandler.OnGraphDragFree | src/map-handler.js:378-388 | `setPosition` receives the node's unprojected position only when configured; then only that node is updated |
| MapHandlerJs.MapHandler.DispatchMapEvent | src/map-handler.js:394-401 | an event aimed at the overlay or inside it is never forwarded; any other is forwarded once |
| MapHandlerJs.NewMapHandler | src/map-handler.js:63-75 | invalid options fail with the matching error and leave the graph untouched; valid ones give a live handler holding the captured values |
| MapHandlerJs.DestroyRestoresGraph | src/map-handler.js:63-188 | constructing then destroying gives back the graph's flags, viewport and every position, with nothing hidden |
| MapHandlerTs.MapHandler.constructor | src/mapHandler.ts:44-129 | as the JS constructor, and the `data` listener is registered too |
| MapHandlerTs.MapHandler.Attach | src/mapHandler.ts:68-128 | the constructor's steps after capture, as in the JS variant |
| MapHandlerTs.MapHandler.LockAndFit | src/mapHandler.ts:68-102 | zooming and panning off, the map fitted only when the bounds are valid, `move` listened to |
| MapHandlerTs.MapHandler.Destroy | src/mapHandler.ts:131-207 | on a live handler it restores flags, viewport and positions and clears the hidden set; on a destroyed handler it changes nothing at all, so a second `destroy` is harmless; either way it ends with every reference and captured value dropped |
| MapHandlerTs.MapHandler.Detach | src/mapHandler.ts:131-200 | every listener including `data` removed, flags and viewport put back exactly, map and container gone |
| MapHandlerTs.MapHandler.Fit | src/mapHandler.ts:213-224 | the map moves iff some node resolves and there is a map, and then to the view that fits the nodes' bounds; after `destroy` it does nothing |
| MapHandlerTs.MapHandler.EnableGeographicPositions | src/mapHandler.ts:229-264 | snapshot of every prior position; resolving nodes placed at their projection; the others hidden in place |
| MapHandlerTs.MapHandler.UpdateGeographicPositions | src/mapHandler.ts:270-317 | the collection, all nodes by default, is appended to the queue of pending frames; nothing moves yet |
| MapHandlerTs.MapHandler.RunAnimationFrame | src/mapHandler.ts:312-316 | the oldest pending frame, and only it, leaves the queue and updates its collection |
| MapHandlerTs.MapHandler.UpdatePositions | src/mapHandler.ts:273-310 | resolved at run time: only the collection's nodes move, each resolving one to its projection, while live; unresolved ones are hidden; after `destroy` every node of the collection is hidden and none moves |
| MapHandlerTs.MapHandler.DisableGeographicPositions | src/mapHandler.ts:322-346 | every node in the snapshot goes back to its recorded position, nothing stays hidden, the snapshot is dropped |
| MapHandlerTs.MapHandler.OnGraphContainerMouseDown | src/mapHandler.ts:352-379 | under the pointer gate: the renderer is marked dragging, the event forwarded unless aimed at the overlay, one `mouseup` listener armed |
| MapHandlerTs.MapHandler.OnGraphContainerMouseMove | src/mapHandler.ts:385-397 | under the pointer gate: `panning` set and the event forwarded unless aimed at the overlay |
| MapHandlerTs.MapHandler.OnGraphContainerWheel | src/mapHandler.ts:403-406 | the default action is always prevented, and the event forwarded unless aimed at the overlay |
| MapHandlerTs.MapHandler.OnDocumentMouseUp | src/mapHandler.ts:364-377 | an armed `mouseup` clears `panning` only when a pan was in progress, and sets `dragged` only while the handler holds the graph; it never throws |
| MapHandlerTs.MapHandler.OnMapMove | src/mapHandler.ts:411-413 | the map's new camera is kept and an update of every node is queued |
| MapHandlerTs.MapHandler.OnDataChange | src/mapHandler.ts:418-420 | a data change queues an update of every node |
| MapHandlerTs.MapHandler.OnGraphAdd | src/mapHandler.ts:426-438 | edges are ignored; the snapshot is created when missing, receives the added node's position, and an update of only that node is queued |
| MapHandlerTs.MapHandler.OnGraphDragFree | src/mapHandler.ts:451-463 | `setPosition` receives the unprojected position only when configured; an update of only that node is queued |
| MapHandlerTs.MapHandler.DispatchMapEvent | src/mapHandler.ts:469-481 | an event aimed at the overlay or inside it is never forwarded; any other is forwarded while there is a map |
| MapHandlerTs.NewMapHandler | src/mapHandler.ts:44-61 | invalid options fail with the matching error and leave the graph untouched; valid ones give a live handler holding the captured values |
| MapHandlerTs.DestroyRestoresGraph | src/mapHandler.ts:44-207 | constructing then destroying before any frame runs gives back flags, viewport and every position with nothing hidden, and a second `destroy` keeps it so |
| MapHandlerTs.LateFrameRehides | src/mapHandler.ts:131-207 | a data change on a live handler, then `destroy`, then the frame the change requested: every node of the graph ends hidden |
| MapHandlerTs.MapHandler.DestroyCancellingFrames | src/mapHandler.ts:131-207 | `destroy` followed by cancelling every pending frame: the same restored graph as `destroy`, with no frame left to run |
| MapHandlerTs.CancelledFrameKeepsRestore | src/mapHandler.ts:44-207 | construct, data change, corrected `destroy`: flags, viewport and positions are as before construction, nothing is hidden and no frame is pending |

## Left out

- Leaflet itself is not part of this model. That covers the map, its projection
  (`latLngToContainerPoint`, `containerPointToLatLng`, floating point in the
  original), `fitBounds` padding and camera, `invalidateSize`, and the
  validation inside `L.latLng`. Projection and inverse projection are
  uninterpreted functions of a `MapView`. `fitBounds` is a function from
  bounds to the view that fits them, given as a parameter. The getter returns an already converted
  coordinate, or nothing when the value is falsy or the conversion throws.
- Coordinates and screen points are integers. The original's floating-point
  values, `NaN` and rounding are not modelled.
- DOM work is not modelled: creating and styling the overlay `div`, inserting
  it, cloning events, and adding or removing listeners. Listeners are a set of
  names. The overlay's existence is `hasMapContainer`. Forwarded events are
  appended to `mapEvents`.
- `onGraphResize` (`invalidateSize`) is only listed as a registered listener,
  because all it does is inside Leaflet.
- Animation is not modelled: `cy.animate`, animated layouts, durations and
  easing. Each animated path is modelled by the state it ends in, which is the
  same as the non-animated one. The layout's `stop` callback runs at once.
- Frame timing is not modelled. `requestAnimationFrame` is a queue the
  environment drains with `RunAnimationFrame`. `requestAnimationId` is not kept,
  because nothing reads it.
- `memoize-one` is not modelled: the diff is the plain function.
- Node removal and other graph changes made by third parties are not modelled,
  because no handler operation makes them. `Graph.Valid` is assumed between
  calls. Pending frames name nodes that still exist.
- `setPosition`'s own effect on node data is not modelled. The model only
  records the calls.
- Registration glue (`src/index.ts`, `src/index.js`), type declarations and the
  build configuration are not modelled.
- MapHandlerTs.MapHandler.Detach: the fallbacks to zoom 5 and pan (0, 0) when
  the captured viewport is undefined are not modelled. Whenever `cy` is set,
  the captured values are set too, so those fallbacks cannot be reached.
- In `src/map-handler.js`, `destroy` and the constructor set the viewport with
  the positional `cy.viewport(zoom, pan)`. The model gives it the effect of the
  object form in `src/mapHandler.ts`: the zoom and pan are set to those values.
- `fitBounds` fires the map's `move` event. Once the constructor has
  registered the `move` listener (src/map-handler.js:106,
  src/mapHandler.ts:102), a public `fit` therefore also runs `onMapMove`: the
  plain variant re-projects every node, the typed one requests a frame. `Fit`
  changes only the map; the host calls `OnMapMove` with the fitted view as a
  separate step.
- Node ids are compared as keys of a map. In the original, the position table
  is a plain object, so `positions[id]` of an id that names an
  `Object.prototype` member (`constructor`, `toString`, `valueOf`, ...) is
  truthy even when the node's coordinate does not resolve: such a node is not
  hidden, and the preset layout reads the inherited member as its position.
  The model assumes no node id names an `Object.prototype` member.

## Findings

| source | as written | input that shows it | evidently intended | confidence | as-written member | corrected member |
|---|---|---|---|---|---|---|
| src/mapHandler.ts:131-207 | `destroy` never cancels the animation frame requested at src/mapHandler.ts:312-316, so a frame pending at `destroy` runs afterwards with the options gone and hides its nodes again | a graph with one node; a `data` event, then `destroy`, then the browser runs the requested frame: the node that `destroy` showed is hidden again | `destroy` cancels every pending frame, and the graph stays as `destroy` restored it | medium, not executed | MapHandlerTs.LateFrameRehides | MapHandlerTs.MapHandler.DestroyCancellingFrames, MapHandlerTs.CancelledFrameKeepsRestore |
