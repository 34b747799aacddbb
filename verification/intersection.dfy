/**
 `Voronoi.Edge.intersection`: where two edges, taken as parametric segments
 start + t·(end − start), cross. The parameter window [0, 1] is widened by
 `PRECISION` on each side and opened completely on a side whose endpoint is
 infinite (the edge is a ray in that direction).
 */
module Intersection {
  import opened Geometry
  import opened Dcel

  /**
   The `Intersection` record: the crossing point, both direction vectors, their
   cross product and the parameters along the first (`t`) and second (`u`) edge.
   `isLeft` is the side flag of the second edge's left site.
   */
  datatype Hit = Hit(at: Point, r: Point, s: Point, rs: real, t: real, u: real, isLeft: bool)

  /** The three outcomes: the same line (the source returns the edge itself), none, or a crossing. */
  datatype Crossing = Collinear | Miss | Meets(hit: Hit)

  function Direction(e: Edge): Point
  {
    Sub(e.end.pos, e.start.pos)
  }

  /** A parameter outside the widened window on a side where the edge is finite. */
  predicate OutOfRange(e: Edge, t: real)
  {
    (t < -PRECISION && !e.start.isInfinite) || (t > 1.0 + PRECISION && !e.end.isInfinite)
  }

  /** The nested `checkU`: the verdict on the second edge's parameter. */
  function CheckU(e: Edge, u: real, hit: Hit): (c: Crossing)
    ensures c == Miss <==> OutOfRange(e, u)
    ensures c != Miss ==> c == Meets(hit)
  {
    if u < 0.0 - PRECISION then
      if e.start.isInfinite then Meets(hit) else Miss
    else if u <= 1.0 + PRECISION then
      Meets(hit)
    else if e.end.isInfinite then
      Meets(hit)
    else
      Miss
  }

  /**
   Parallel edges give `Collinear` when on one line and `Miss` otherwise.
   Otherwise the crossing is reported exactly when neither parameter lies
   outside its edge's window, with t = ((q − p)×s)/(r×s) and
   u = ((q − p)×r)/(r×s).
   */
  function Intersect(self: Edge, e: Edge): (c: Crossing)
    ensures var r, s := Direction(self), Direction(e);
            var pq := Sub(e.start.pos, self.start.pos);
            var rs := Cross(r, s);
            && (rs == 0.0 ==> (c == Collinear <==> Cross(pq, s) == 0.0) && !c.Meets?)
            && (rs != 0.0 ==>
                  && !c.Collinear?
                  && (c.Meets? <==> !OutOfRange(self, Cross(pq, s) / rs) && !OutOfRange(e, Cross(pq, r) / rs))
                  && (c.Meets? ==> c.hit == Hit(c.hit.at, r, s, rs, Cross(pq, s) / rs, Cross(pq, r) / rs, e.leftSite.isLeft)))
  {
    var p := self.start.pos;
    var q := e.start.pos;
    var r := Sub(self.end.pos, self.start.pos);
    var s := Sub(e.end.pos, e.start.pos);
    var pq := Sub(q, p);
    var pqs := Cross(pq, s);
    var rs := Cross(r, s);
    if rs == 0.0 then
      if pqs == 0.0 then Collinear else Miss
    else
      var t := pqs / rs;
      var u := Cross(pq, r) / rs;
      var at := Add(p, Scale(t, r));
      var hit := Hit(at, r, s, rs, t, u, e.leftSite.isLeft);
      if t < 0.0 - PRECISION then
        if self.start.isInfinite then CheckU(e, u, hit) else Miss
      else if t <= 1.0 + PRECISION then
        CheckU(e, u, hit)
      else if self.end.isInfinite then
        CheckU(e, u, hit)
      else
        Miss
  }

  /**
   The reported point lies on both supporting lines: it is p + t·r, computed
   from the first edge, and equally q + u·s on the second edge.
   */
  lemma HitLiesOnBothEdges(self: Edge, e: Edge)
    requires Intersect(self, e).Meets?
    ensures var h := Intersect(self, e).hit;
            && h.at == Add(self.start.pos, Scale(h.t, h.r))
            && h.at == Add(e.start.pos, Scale(h.u, h.s))
  {
    var h := Intersect(self, e).hit;
    var pq := Sub(e.start.pos, self.start.pos);
    SolvesBothLines(pq, h.r, h.s);
  }

  /** Cramer's rule for t·r − u·s = pq, the step behind `HitLiesOnBothEdges`. */
  lemma SolvesBothLines(pq: Point, r: Point, s: Point)
    requires Cross(r, s) != 0.0
    ensures var t, u := Cross(pq, s) / Cross(r, s), Cross(pq, r) / Cross(r, s);
            t * r.x - u * s.x == pq.x && t * r.y - u * s.y == pq.y
  {
    var rs := Cross(r, s);
    var A, B := Cross(pq, s), Cross(pq, r);
    var t, u := A / rs, B / rs;
    assert t * rs == A && u * rs == B;
    assert A * r.x - B * s.x == rs * pq.x by {
      assert A * r.x - B * s.x == (pq.x * s.y - pq.y * s.x) * r.x - (pq.x * r.y - pq.y * r.x) * s.x;
      assert (pq.x * s.y - pq.y * s.x) * r.x - (pq.x * r.y - pq.y * r.x) * s.x == pq.x * (r.x * s.y - r.y * s.x);
    }
    assert A * r.y - B * s.y == rs * pq.y by {
      assert A * r.y - B * s.y == (pq.x * s.y - pq.y * s.x) * r.y - (pq.x * r.y - pq.y * r.x) * s.y;
      assert (pq.x * s.y - pq.y * s.x) * r.y - (pq.x * r.y - pq.y * r.x) * s.y == pq.y * (r.x * s.y - r.y * s.x);
    }
    assert (t * r.x - u * s.x) * rs == A * r.x - B * s.x;
    assert (t * r.y - u * s.y) * rs == A * r.y - B * s.y;
  }

  /** `b` is `a` with possibly more endpoints marked infinite, and otherwise the same. */
  predicate MoreInfinite(a: Edge, b: Edge)
  {
    && b.leftSite == a.leftSite && b.rightSite == a.rightSite
    && b.start.pos == a.start.pos && b.end.pos == a.end.pos
    && (a.start.isInfinite ==> b.start.isInfinite)
    && (a.end.isInfinite ==> b.end.isInfinite)
  }

  /** Marking endpoints infinite never turns a reported crossing into a miss, nor changes it. */
  lemma InfiniteEndpointsOnlyWiden(self: Edge, e: Edge, self': Edge, e': Edge)
    requires MoreInfinite(self, self') && MoreInfinite(e, e')
    requires Intersect(self, e).Meets?
    ensures Intersect(self', e') == Intersect(self, e)
  {
  }

  /** With all four endpoints finite the window is exactly [−PRECISION, 1 + PRECISION] for both parameters. */
  lemma FiniteEdgesWindow(self: Edge, e: Edge)
    requires !self.start.isInfinite && !self.end.isInfinite
    requires !e.start.isInfinite && !e.end.isInfinite
    requires Cross(Direction(self), Direction(e)) != 0.0
    ensures Intersect(self, e).Meets? <==>
              var pq := Sub(e.start.pos, self.start.pos);
              var rs := Cross(Direction(self), Direction(e));
              && -PRECISION <= Cross(pq, Direction(e)) / rs <= 1.0 + PRECISION
              && -PRECISION <= Cross(pq, Direction(self)) / rs <= 1.0 + PRECISION
  {
  }

  /**
   Testing the edges the other way round finds the same crossing: the two
   parameters trade places and the point is the same.
   */
  lemma IntersectionIsSymmetric(self: Edge, e: Edge)
    ensures Intersect(self, e).Meets? <==> Intersect(e, self).Meets?
    ensures Intersect(self, e).Meets? ==>
              var h, h' := Intersect(self, e).hit, Intersect(e, self).hit;
              h'.at == h.at && h'.t == h.u && h'.u == h.t
  {
    var r, s := Direction(self), Direction(e);
    var pq, qp := Sub(e.start.pos, self.start.pos), Sub(self.start.pos, e.start.pos);
    var rs := Cross(r, s);
    assert Cross(s, r) == -rs;
    if rs != 0.0 {
      assert Cross(qp, r) == -Cross(pq, r);
      assert Cross(qp, s) == -Cross(pq, s);
      assert Cross(qp, r) / Cross(s, r) == Cross(pq, r) / rs;
      assert Cross(qp, s) / Cross(s, r) == Cross(pq, s) / rs;
      if Intersect(self, e).Meets? {
        HitLiesOnBothEdges(self, e);
      }
    }
  }
}
