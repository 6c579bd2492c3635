/** The part of a Cytoscape core that the map handler reads and writes. */
module Cytoscape {

  type Id = string

  /** A rendered node position (`cytoscape.Position`). */
  datatype Point = Point(x: int, y: int)

  /** `cytoscape.NodePositionMap`: node id to position. */
  type PositionMap = map<Id, Point>

  /** The fields of a node's `data()`, which a position getter may read. */
  type NodeData = map<string, string>

  /** The target of an `add` event. */
  datatype Element = NodeElement(id: Id) | EdgeElement(id: Id)

  /** The node positions after a `preset` layout run over `positions`: a node whose
      id is a key moves to that point, every other node keeps its position. */
  function Preset(pos: PositionMap, positions: PositionMap): (moved: PositionMap)
    ensures moved.Keys == pos.Keys
  {
    map id | id in pos :: if id in positions then positions[id] else pos[id]
  }

  /** The three interaction flags and the viewport: what a map handler captures on
      construction and puts back on `destroy`. */
  datatype Settings = Settings(
    autoungrabify: bool,
    userZoomingEnabled: bool,
    userPanningEnabled: bool,
    zoom: real,
    pan: Point)

  /** A graph core: its nodes and their state, the interaction flags, the viewport
      and the renderer's hover data. */
  class Graph {
    var nodes: seq<Id>
    var pos: PositionMap
    var data: map<Id, NodeData>
    /** Nodes carrying the handler's hidden class (and `display: none`). */
    var hidden: set<Id>
    var autoungrabify: bool
    var userZoomingEnabled: bool
    var userPanningEnabled: bool
    var zoom: real
    var pan: Point
    /** `renderer().hoverData.down`, `.dragging` and `.dragged`. */
    var hoverDown: bool
    var dragging: bool
    var dragged: bool

    function CurrentSettings(): Settings
      reads this
    {
      Settings(autoungrabify, userZoomingEnabled, userPanningEnabled, zoom, pan)
    }

    /** The ids of the graph's nodes. */
    function NodeIds(): set<Id>
      reads this
    {
      set id | id in nodes
    }

    /** Every node has a position and data, and only nodes are hidden. */
    ghost predicate Valid()
      reads this
    {
      && pos.Keys == NodeIds()
      && data.Keys == pos.Keys
      && hidden <= pos.Keys
    }
  }
}
