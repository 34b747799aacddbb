/**
 Orientation around a pivot: the facts about `ccw` that make the Graham scan
 correct. Every point is compared with the pivot `o` the angular sort is
 taken around. The identities are exact over the reals; the degenerate cases
 are the points that share a ray from the pivot.
 */
module Orientation {
  import opened Geometry

  /**
   The order the angular sort around `o` produces: `b` lies counter-clockwise
   of `a`, or on the same ray from `o` and strictly further out.
   */
  predicate Precedes(o: Point, a: Point, b: Point)
  {
    Ccw(o, a, b) > 0.0 || (Ccw(o, a, b) == 0.0 && Dot(Sub(a, o), Sub(b, a)) > 0.0)
  }

  /** `a` is the pivot itself, or lies on the ray from `o` through `b`, strictly nearer. */
  predicate OnRayBefore(o: Point, a: Point, b: Point)
  {
    a == o || (Ccw(o, a, b) == 0.0 && Dot(Sub(a, o), Sub(b, a)) > 0.0)
  }

  /** Two lines through a common point: the cross products of a third vector with them are related. */
  lemma CrossExchange(v1: Point, v2: Point, w: Point, u: Point)
    ensures Cross(v1, v2) * Cross(w, u) == Cross(w, v2) * Cross(v1, u) + Cross(v1, w) * Cross(v2, u)
  {
  }

  /** A vector parallel to `a` is a multiple of it: `a·a` times `b` is `a·b` times `a`. */
  lemma ParallelScaling(a: Point, b: Point, c: Point)
    requires Cross(a, b) == 0.0
    ensures Dot(a, a) * Cross(b, c) == Dot(a, b) * Cross(a, c)
  {
    assert Dot(a, a) * Cross(b, c) - Dot(a, b) * Cross(a, c) == -Cross(a, b) * Dot(a, c);
  }

  /** Two quantities that positive factors make equal have the same sign. */
  lemma SameSign(k: real, m: real, x: real, y: real)
    requires k > 0.0 && m > 0.0 && k * x == m * y
    ensures x >= 0.0 <==> y >= 0.0
    ensures x <= 0.0 <==> y <= 0.0
  {
    if x < 0.0 {
      assert k * x < 0.0;
    }
    if x > 0.0 {
      assert k * x > 0.0;
    }
    if y < 0.0 {
      assert m * y < 0.0;
    }
    if y > 0.0 {
      assert m * y > 0.0;
    }
  }

  /** `k·y = p1·q1 + p2·q2` with `k` positive and the rest non-negative makes `y` non-negative. */
  lemma NonnegativeQuotient(k: real, y: real, p1: real, q1: real, p2: real, q2: real)
    requires k > 0.0 && p1 >= 0.0 && q1 >= 0.0 && p2 >= 0.0 && q2 >= 0.0
    requires k * y == p1 * q1 + p2 * q2
    ensures y >= 0.0
  {
    assert p1 * q1 >= 0.0 && p2 * q2 >= 0.0;
  }

  lemma DotSelfNonnegative(v: Point)
    ensures Dot(v, v) >= 0.0
  {
  }

  /**
   For `b` further out than `a` along the direction of `a` (the vectors taken
   from the pivot), both vectors are non-zero and point the same way.
   */
  lemma RayLengths(a: Point, b: Point)
    requires Dot(a, Sub(b, a)) > 0.0
    ensures Dot(a, b) > 0.0 && Dot(b, b) > 0.0
  {
    DotSelfNonnegative(a);
    DotSelfNonnegative(Sub(b, a));
    assert Dot(a, b) == Dot(a, a) + Dot(a, Sub(b, a));
    assert Dot(b, b) == Dot(Sub(b, a), Sub(b, a)) + 2.0 * Dot(a, Sub(b, a)) + Dot(a, a);
  }

  /**
   Seen from a point `p` nearer on the ray through `q`, any `c` is on the same
   side of the line towards `q` as seen from the pivot.
   */
  lemma RaySign(o: Point, p: Point, q: Point, c: Point)
    requires OnRayBefore(o, p, q)
    ensures Ccw(p, q, c) >= 0.0 <==> Ccw(o, q, c) >= 0.0
    ensures Ccw(p, q, c) <= 0.0 <==> Ccw(o, q, c) <= 0.0
  {
    if p != o {
      var P, Q, C := Sub(p, o), Sub(q, o), Sub(c, o);
      assert Cross(P, Q) == 0.0;
      assert Ccw(p, q, c) == Cross(Q, C) - Cross(P, C);
      assert Ccw(o, q, c) == Cross(Q, C);
      ParallelScaling(P, Q, C);
      assert Sub(q, p) == Sub(Q, P);
      RayLengths(P, Q);
      assert Dot(P, Q) * Ccw(p, q, c) == Dot(P, Sub(Q, P)) * Ccw(o, q, c);
      SameSign(Dot(P, Q), Dot(P, Sub(Q, P)), Ccw(p, q, c), Ccw(o, q, c));
    }
  }

  /** Two points on one ray from the pivot see every point on the same side. */
  lemma SameRaySign(o: Point, v: Point, w: Point, x: Point)
    requires Ccw(o, v, w) == 0.0 && Dot(Sub(v, o), Sub(w, v)) > 0.0
    ensures Ccw(o, v, x) >= 0.0 <==> Ccw(o, w, x) >= 0.0
    ensures Ccw(o, v, x) <= 0.0 <==> Ccw(o, w, x) <= 0.0
  {
    var V, W, X := Sub(v, o), Sub(w, o), Sub(x, o);
    assert Sub(w, v) == Sub(W, V);
    RayLengths(V, W);
    assert Cross(W, V) == 0.0;
    ParallelScaling(W, V, X);
    SameSign(Dot(W, W), Dot(W, V), Ccw(o, v, x), Ccw(o, w, x));
  }

  /** Two points on the line through the pivot and a third point are collinear with the pivot. */
  lemma CollinearThroughPivot(o: Point, p: Point, q: Point, r: Point)
    requires Ccw(o, p, r) == 0.0 && Ccw(o, q, r) == 0.0
    requires Dot(Sub(r, o), Sub(r, o)) > 0.0
    ensures Ccw(o, p, q) == 0.0
  {
    var P, Q, R := Sub(p, o), Sub(q, o), Sub(r, o);
    assert Cross(R, P) == 0.0 && Cross(R, Q) == 0.0;
    ParallelScaling(R, P, Q);
    SameSign(Dot(R, R), 1.0, Cross(P, Q), 0.0);
  }

  /** The turn identities of the scan: each is `CrossExchange` taken around one vertex. */
  lemma PushIdentity(a: Point, b: Point, c: Point, o: Point, x: Point)
    ensures Ccw(a, b, o) * Ccw(b, c, x) == Ccw(o, b, c) * Ccw(a, b, x) + Ccw(a, b, c) * Ccw(o, x, b)
  {
    CrossExchange(Sub(b, a), Sub(o, b), Sub(c, b), Sub(x, b));
  }

  lemma PopIdentity(o: Point, a: Point, b: Point, c: Point, x: Point)
    ensures Ccw(o, a, b) * Ccw(a, c, x) == Ccw(a, b, x) * Ccw(o, a, c) + Ccw(o, a, x) * Ccw(a, c, b)
  {
    CrossExchange(Sub(b, a), Sub(o, a), Sub(c, a), Sub(x, a));
  }

  lemma StepIdentity(o: Point, p: Point, q: Point, r: Point, c: Point)
    ensures Ccw(q, r, o) * Ccw(p, q, c) == Ccw(o, q, c) * Ccw(p, q, r) + Ccw(q, r, c) * Ccw(o, p, q)
  {
    CrossExchange(Sub(r, q), Sub(o, q), Sub(c, q), Sub(p, q));
  }

  /** A point the sort puts no later than `w` is not left of o→w. */
  lemma NotPastRay(o: Point, x: Point, w: Point)
    requires x == o || x == w || Precedes(o, x, w)
    ensures Ccw(o, w, x) <= 0.0
  {
    CcwSymmetries(o, x, w);
  }

  /** The degenerate push: `a` is the pivot or lies on the ray through `b`, nearer. */
  lemma PushAlongRay(o: Point, a: Point, b: Point, c: Point, x: Point)
    requires OnRayBefore(o, a, b)
    requires x == o || x == b || Precedes(o, x, b)
    requires Precedes(o, b, c)
    requires Ccw(a, b, x) >= 0.0
    ensures Ccw(b, c, x) >= 0.0
  {
    RaySign(o, a, b, x);
    if x == o {
      CcwSymmetries(o, b, c);
    } else if x != b {
      NotPastRay(o, x, b);
      CcwSymmetries(o, x, b);
      assert OnRayBefore(o, x, b);
      RaySign(o, x, b, c);
      CcwSymmetries(x, b, c);
    }
  }

  /**
   Pushing `c` on top of the edge a→b: a point the sort puts no later than `b`
   that lies left of a→b lies left of the new edge b→c too.
   */
  lemma PushKeepsEarlier(o: Point, a: Point, b: Point, c: Point, x: Point)
    requires a == o || Precedes(o, a, b)
    requires x == o || x == b || Precedes(o, x, b)
    requires Precedes(o, b, c)
    requires Ccw(a, b, o) >= 0.0 && Ccw(a, b, x) >= 0.0 && Ccw(a, b, c) >= 0.0
    ensures Ccw(b, c, x) >= 0.0
  {
    if Ccw(a, b, o) > 0.0 {
      NotPastRay(o, x, b);
      PushIdentity(a, b, c, o, x);
      NonnegativeQuotient(Ccw(a, b, o), Ccw(b, c, x), Ccw(o, b, c), Ccw(a, b, x), Ccw(a, b, c), Ccw(o, x, b));
    } else {
      CcwSymmetries(o, a, b);
      PushAlongRay(o, a, b, c, x);
    }
  }

  /**
   Popping `b` because a→b→c turns right: a point between `a` and `b` in the
   sort that lies left of a→b lies left of a→c.
   */
  lemma PopKeepsBetween(o: Point, a: Point, b: Point, c: Point, x: Point)
    requires a == o || Precedes(o, a, b)
    requires Precedes(o, b, c)
    requires Ccw(o, a, c) >= 0.0 && Ccw(o, a, x) >= 0.0
    requires Ccw(a, b, c) < 0.0 && Ccw(a, b, x) >= 0.0
    ensures Ccw(a, c, x) >= 0.0
  {
    if OnRayBefore(o, a, b) {
      RaySign(o, a, b, c);
    }
    PopIdentity(o, a, b, c, x);
    NonnegativeQuotient(Ccw(o, a, b), Ccw(a, c, x), Ccw(a, b, x), Ccw(o, a, c), Ccw(o, a, x), Ccw(a, c, b));
  }

  /** Popping `b`: a point left of both a→b and b→c lies strictly left of a→c. */
  lemma PopKeepsBeyond(a: Point, b: Point, c: Point, x: Point)
    requires Ccw(a, b, c) < 0.0 && Ccw(a, b, x) >= 0.0 && Ccw(b, c, x) >= 0.0
    ensures Ccw(a, c, x) > 0.0
  {
    assert Ccw(a, c, x) == Ccw(a, b, x) + Ccw(b, c, x) - Ccw(a, b, c);
  }

  /**
   The degenerate step: `q` lies on the ray through `r`, nearer. A left turn at
   `q` then puts `p` on that ray too, so `p` sees `c` as the pivot does.
   */
  lemma StepDownAlongRay(o: Point, p: Point, q: Point, r: Point, c: Point)
    requires Precedes(o, p, q) && Precedes(o, p, r)
    requires OnRayBefore(o, q, r) && q != o
    requires Precedes(o, q, c)
    requires Ccw(p, q, r) >= 0.0
    ensures Ccw(p, q, c) >= 0.0
  {
    RaySign(o, q, r, p);
    CcwSymmetries(p, q, r);
    CcwSymmetries(o, p, r);
    assert Ccw(o, p, r) == 0.0;
    assert Sub(r, q) == Sub(Sub(r, o), Sub(q, o));
    RayLengths(Sub(q, o), Sub(r, o));
    CollinearThroughPivot(o, p, q, r);
    assert OnRayBefore(o, p, q);
    RaySign(o, p, q, c);
  }

  /**
   One step down a left-turning chain p→q→r: a point after `q` in the sort
   that lies left of q→r lies left of p→q.
   */
  lemma StepDown(o: Point, p: Point, q: Point, r: Point, c: Point)
    requires p == o || (Precedes(o, p, q) && Precedes(o, p, r))
    requires Precedes(o, q, r) && Precedes(o, q, c)
    requires Ccw(p, q, r) >= 0.0 && Ccw(q, r, o) >= 0.0 && Ccw(q, r, c) >= 0.0
    ensures Ccw(p, q, c) >= 0.0
  {
    if Ccw(q, r, o) > 0.0 {
      StepIdentity(o, p, q, r, c);
      assert p == o ==> Ccw(o, p, q) == 0.0;
      NonnegativeQuotient(Ccw(q, r, o), Ccw(p, q, c), Ccw(o, q, c), Ccw(p, q, r), Ccw(q, r, c), Ccw(o, p, q));
    } else if p != o {
      CcwSymmetries(o, q, r);
      StepDownAlongRay(o, p, q, r, c);
    }
  }

  /** The last site lies strictly away from the pivot once a site lies on its ray, nearer. */
  lemma FarEndApart(o: Point, u: Point, w: Point)
    requires Precedes(o, u, w) && Ccw(o, u, w) == 0.0
    ensures Dot(Sub(w, o), Sub(w, o)) > 0.0
  {
    assert Sub(w, u) == Sub(Sub(w, o), Sub(u, o));
    RayLengths(Sub(u, o), Sub(w, o));
  }

  /** Seen from a point nearer on the ray through `v`, a point right of o→v is left of v→u. */
  lemma BackwardsOnRay(o: Point, u: Point, v: Point, x: Point)
    requires OnRayBefore(o, u, v) && Ccw(o, v, x) <= 0.0
    ensures Ccw(v, u, x) >= 0.0
  {
    RaySign(o, u, v, x);
  }

  /**
   The closing run: `u` and `v` lie on the ray from the pivot through the last
   site `w`, `u` nearer. Every site the sort puts no later than `w` lies left of
   the edge v→u that walks back towards the pivot.
   */
  lemma TailTurn(o: Point, u: Point, v: Point, w: Point, x: Point)
    requires Precedes(o, u, v) && Precedes(o, u, w)
    requires v == w || Precedes(o, v, w)
    requires x == o || x == w || Precedes(o, x, w)
    requires Ccw(o, u, w) == 0.0 && Ccw(o, v, w) == 0.0
    ensures Ccw(v, u, x) >= 0.0
  {
    FarEndApart(o, u, w);
    CollinearThroughPivot(o, u, v, w);
    NotPastRay(o, x, w);
    if v != w {
      SameRaySign(o, v, w, x);
    }
    BackwardsOnRay(o, u, v, x);
  }
}
