/**
 The canonical form `Voronoi.save` writes: sites ordered by `cmp1` (x, then y,
 both ascending), each edge written with its `cmp1`-smaller endpoint first, and
 edges ordered by `cmp2` (first endpoint's x, its y, then the second
 endpoint's y). The text itself is not produced; the lines are records.
 */
module Save {
  import opened Geometry
  import opened Dcel
  import Sorting

  /** `cmp1`: the difference in x, or in y when the x coordinates agree. */
  function Cmp1(p1: Point, p2: Point): real
  {
    var a := p1.x - p2.x;
    if a != 0.0 then a else p1.y - p2.y
  }

  /** Lexicographic order on (x, y). */
  predicate LexLess(a: Point, b: Point)
  {
    a.x < b.x || (a.x == b.x && a.y < b.y)
  }

  /** The sign of `cmp1` is the lexicographic comparison, and it is antisymmetric. */
  lemma Cmp1IsLexicographic(a: Point, b: Point)
    ensures Cmp1(a, b) < 0.0 <==> LexLess(a, b)
    ensures Cmp1(a, b) == 0.0 <==> a == b
    ensures Cmp1(a, b) == -Cmp1(b, a)
  {
  }

  /** An edge as written: two endpoints, in order. */
  datatype Segment = Segment(first: Point, second: Point)

  function EdgeSegment(e: Edge): Segment
  {
    Segment(e.start.pos, e.end.pos)
  }

  /** Swaps the endpoints when the second is `cmp1`-smaller than the first. */
  function Canonical(s: Segment): (c: Segment)
    ensures Cmp1(c.first, c.second) <= 0.0
    ensures multiset{c.first, c.second} == multiset{s.first, s.second}
  {
    if Cmp1(s.second, s.first) < 0.0 then Segment(s.second, s.first) else s
  }

  /** Canonicalising twice changes nothing, and the canonical form forgets the direction. */
  lemma CanonicalIsIdempotent(s: Segment)
    ensures Canonical(Canonical(s)) == Canonical(s)
    ensures Canonical(Segment(s.second, s.first)) == Canonical(s)
  {
    Cmp1IsLexicographic(s.first, s.second);
  }

  /** The comparison of two canonical segments: first x, first y, second y. */
  function SegmentCmp(a: Segment, b: Segment): real
  {
    var d := a.first.x - b.first.x;
    if d != 0.0 then d
    else
      var d' := a.first.y - b.first.y;
      if d' != 0.0 then d' else a.second.y - b.second.y
  }

  /** `cmp2`: `SegmentCmp` of the canonical forms of two edges. */
  function Cmp2(e1: Edge, e2: Edge): real
  {
    SegmentCmp(Canonical(EdgeSegment(e1)), Canonical(EdgeSegment(e2)))
  }

  /** `SegmentCmp` orders segments lexicographically by the key (first.x, first.y, second.y). */
  lemma SegmentCmpIsLexicographic(a: Segment, b: Segment)
    ensures SegmentCmp(a, b) <= 0.0 <==>
      a.first.x < b.first.x
      || (a.first.x == b.first.x && a.first.y < b.first.y)
      || (a.first.x == b.first.x && a.first.y == b.first.y && a.second.y <= b.second.y)
    ensures SegmentCmp(a, b) == -SegmentCmp(b, a)
  {
  }

  /**
   `cmp2` compares the edges' canonical forms lexicographically, is
   antisymmetric, and does not depend on the direction an edge is stored in.
   */
  lemma Cmp2IsLexicographic(e1: Edge, e2: Edge)
    ensures var a, b := Canonical(EdgeSegment(e1)), Canonical(EdgeSegment(e2));
      Cmp2(e1, e2) <= 0.0 <==>
        a.first.x < b.first.x
        || (a.first.x == b.first.x && a.first.y < b.first.y)
        || (a.first.x == b.first.x && a.first.y == b.first.y && a.second.y <= b.second.y)
    ensures Cmp2(e1, e2) == -Cmp2(e2, e1)
    ensures Cmp2(e1.(start := e1.end, end := e1.start), e2) == Cmp2(e1, e2)
  {
    SegmentCmpIsLexicographic(Canonical(EdgeSegment(e1)), Canonical(EdgeSegment(e2)));
    CanonicalIsIdempotent(EdgeSegment(e1));
  }

  /** Site `a` may precede site `b` in the written order. */
  predicate SiteNotAfter(a: Site, b: Site)
  {
    Cmp1(a.pos, b.pos) <= 0.0
  }

  /** Edge `a` may precede edge `b` in the written order. */
  predicate EdgeNotAfter(a: Edge, b: Edge)
  {
    Cmp2(a, b) <= 0.0
  }

  lemma SiteNotAfterIsTotalPreorder()
    ensures Sorting.Total(SiteNotAfter) && Sorting.Transitive(SiteNotAfter)
  {
    forall a, b
      ensures SiteNotAfter(a, b) || SiteNotAfter(b, a)
    {
      Cmp1IsLexicographic(a.pos, b.pos);
    }
    forall a, b, c | SiteNotAfter(a, b) && SiteNotAfter(b, c)
      ensures SiteNotAfter(a, c)
    {
      Cmp1IsLexicographic(a.pos, b.pos);
      Cmp1IsLexicographic(b.pos, c.pos);
      Cmp1IsLexicographic(a.pos, c.pos);
    }
  }

  lemma EdgeNotAfterIsTotalPreorder()
    ensures Sorting.Total(EdgeNotAfter) && Sorting.Transitive(EdgeNotAfter)
  {
    forall a, b
      ensures EdgeNotAfter(a, b) || EdgeNotAfter(b, a)
    {
      SegmentCmpIsLexicographic(Canonical(EdgeSegment(a)), Canonical(EdgeSegment(b)));
    }
    forall a, b, c | EdgeNotAfter(a, b) && EdgeNotAfter(b, c)
      ensures EdgeNotAfter(a, c)
    {
      var sa, sb, sc := Canonical(EdgeSegment(a)), Canonical(EdgeSegment(b)), Canonical(EdgeSegment(c));
      SegmentCmpIsLexicographic(sa, sb);
      SegmentCmpIsLexicographic(sb, sc);
      SegmentCmpIsLexicographic(sa, sc);
    }
  }

  /** A written line: `P x y` or `E x1 y1 x2 y2`. */
  datatype Line = SiteLine(p: Point) | EdgeLine(seg: Segment)

  /** `l` is an edge line holding `e`'s endpoints, the `cmp1`-smaller first. */
  predicate WrittenAs(e: Edge, l: Line)
  {
    && l.EdgeLine?
    && Cmp1(l.seg.first, l.seg.second) <= 0.0
    && multiset{l.seg.first, l.seg.second} == multiset{e.start.pos, e.end.pos}
  }

  /** Two edge lines in written order by (first x, first y, second y). */
  predicate LineNotAfter(a: Line, b: Line)
  {
    a.EdgeLine? && b.EdgeLine? && SegmentCmp(a.seg, b.seg) <= 0.0
  }

  /**
   What `save` leaves behind: the diagram's site and edge lists, which it
   sorts in place, and the lines it writes from them.
   */
  datatype Saved = Saved(sites: seq<Site>, edges: seq<Edge>, lines: seq<Line>)

  /**
   Sites come out in `cmp1` order and edges in `cmp2` order, each a permutation
   of the diagram's list, and the lines are written from the sorted lists.
   */
  function Save(d: Diagram): (out: Saved)
    ensures |out.sites| == |d.sites| && |out.edges| == |d.edges|
    ensures multiset(out.sites) == multiset(d.sites)
    ensures Sorting.SortedBy(out.sites, SiteNotAfter)
    ensures multiset(out.edges) == multiset(d.edges)
    ensures Sorting.SortedBy(out.edges, EdgeNotAfter)
    ensures out.lines == WriteLines(out.sites, out.edges)
  {
    SiteNotAfterIsTotalPreorder();
    EdgeNotAfterIsTotalPreorder();
    var sites := Sorting.SortBy(d.sites, SiteNotAfter);
    var edges := Sorting.SortBy(d.edges, EdgeNotAfter);
    Saved(sites, edges, WriteLines(sites, edges))
  }

  /**
   The lines written for a site list and a `cmp2`-sorted edge list: one line per
   site, then one per edge; every edge line is the canonical form of its edge
   (smaller endpoint first, same endpoints), and the edge lines are in
   (first x, first y, second y) order.
   */
  function WriteLines(sites: seq<Site>, edges: seq<Edge>): (lines: seq<Line>)
    requires Sorting.SortedBy(edges, EdgeNotAfter)
    ensures |lines| == |sites| + |edges|
    ensures forall k :: 0 <= k < |sites| ==> lines[k] == SiteLine(sites[k].pos)
    ensures forall k :: |sites| <= k < |lines| ==> WrittenAs(edges[k - |sites|], lines[k])
    ensures forall i, j :: |sites| <= i < j < |lines| ==> LineNotAfter(lines[i], lines[j])
  {
    var siteLines := seq(|sites|, k requires 0 <= k < |sites| => SiteLine(sites[k].pos));
    var edgeLines := EdgeLines(edges);
    var lines := siteLines + edgeLines;
    assert forall k :: |sites| <= k < |lines| ==> lines[k] == edgeLines[k - |sites|];
    lines
  }

  /** One `E` line per edge of a `cmp2`-sorted list. */
  function EdgeLines(edges: seq<Edge>): (lines: seq<Line>)
    requires Sorting.SortedBy(edges, EdgeNotAfter)
    ensures |lines| == |edges|
    ensures forall k :: 0 <= k < |edges| ==> WrittenAs(edges[k], lines[k])
    ensures forall i, j :: 0 <= i < j < |edges| ==> LineNotAfter(lines[i], lines[j])
  {
    seq(|edges|, k requires 0 <= k < |edges| => EdgeLine(Canonical(EdgeSegment(edges[k]))))
  }
}
