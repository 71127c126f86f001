/** The React Flow node and edge records the graph builders emit, without labels and styles. */
module GraphTypes {
  import opened Wrappers
  import opened TreeLayout

  /** A graph node: id, `data.nodeType`, `data.subType` where the builder sets one, and position. */
  datatype GraphNode = GraphNode(id: string, nodeType: string, subType: Option<string>, position: Pos)

  datatype GraphEdge = GraphEdge(id: string, source: string, target: string, animated: bool)

  /** An edge's id is its source id, a dash, and its target id. */
  function EdgeId(source: string, target: string): string {
    source + "-" + target
  }

  function Edge(source: string, target: string, animated: bool): (e: GraphEdge)
    ensures e.source == source && e.target == target && e.id == EdgeId(source, target)
  {
    GraphEdge(EdgeId(source, target), source, target, animated)
  }

  /** The position recorded for `id`, or `fallback` when there is none. */
  function PositionOr(positions: Positions, id: string, fallback: Pos): Pos {
    if id in positions then positions[id] else fallback
  }
}
