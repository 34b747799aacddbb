/**
 The records of the diagram: sites, vertices, edges and a diagram made of a
 site list and an edge list. Object identity and the four cyclic neighbour
 links of an edge are not represented (they only serve the bisector chain).
 */
module Dcel {
  import opened Geometry

  /** An input site; `isLeft` marks, during a merge, the sub-diagram it came from. */
  datatype Site = Site(pos: Point, isLeft: bool)

  /** A diagram vertex; an infinite one is only a far placeholder of a ray's end. */
  datatype Vertex = Vertex(pos: Point, isInfinite: bool)

  /** A bisector piece between two sites, from `start` to `end`. */
  datatype Edge = Edge(leftSite: Site, rightSite: Site, start: Vertex, end: Vertex)

  datatype Diagram = Diagram(sites: seq<Site>, edges: seq<Edge>)

  /** The coordinates of a list of sites, in order. */
  function Positions(sites: seq<Site>): seq<Point>
  {
    seq(|sites|, i requires 0 <= i < |sites| => sites[i].pos)
  }
}
