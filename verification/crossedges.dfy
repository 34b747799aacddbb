/**
 `getCrossEdges`: a cyclic walk over the merged hull that looks for adjacent
 sites coming from different sub-diagrams. The last such pair found is the
 upper tangent ("top") and the one found before it the lower one ("bottom").
 */
module CrossEdges {
  import opened Options
  import opened Dcel

  /** A candidate tangent, the site of the left sub-diagram first. */
  datatype CrossEdge = CrossEdge(left: Site, right: Site)

  /** Two sites of different sub-diagrams, ordered left site first. */
  function Oriented(a: Site, b: Site): (e: CrossEdge)
    requires a.isLeft != b.isLeft
    ensures e.left.isLeft && !e.right.isLeft
    ensures {e.left, e.right} == {a, b}
  {
    if a.isLeft then CrossEdge(a, b) else CrossEdge(b, a)
  }

  /** The transitions among the pairs (pts[i], pts[i+1]) for i < k, in scan order. */
  function PathTransitions(pts: seq<Site>, k: nat): seq<CrossEdge>
    requires k < |pts|
  {
    if k == 0 then []
    else
      PathTransitions(pts, k - 1)
      + (if pts[k - 1].isLeft != pts[k].isLeft then [Oriented(pts[k - 1], pts[k])] else [])
  }

  /** All transitions of the cyclic walk; the wrap pair (pts[0], pts[last]) comes last. */
  function Transitions(pts: seq<Site>): seq<CrossEdge>
    requires |pts| > 0
  {
    var last := |pts| - 1;
    PathTransitions(pts, last)
    + (if pts[0].isLeft != pts[last].isLeft then [Oriented(pts[0], pts[last])] else [])
  }

  function LastOf(s: seq<CrossEdge>): Option<CrossEdge>
  {
    if |s| == 0 then None else Some(s[|s| - 1])
  }

  function SecondLastOf(s: seq<CrossEdge>): Option<CrossEdge>
  {
    if |s| < 2 then None else Some(s[|s| - 2])
  }

  /**
   The scan; each differing pair (the nested `checkCrossEdge`) makes the old top
   the bottom and itself the top. Top and bottom are the last and the second-to-last transition of
   the cyclic walk; every returned pair has its left-side site first and joins
   two cyclically adjacent hull sites.
   */
  method GetCrossEdges(points: seq<Site>) returns (top: Option<CrossEdge>, bottom: Option<CrossEdge>)
    requires |points| > 0
    ensures top == LastOf(Transitions(points))
    ensures bottom == SecondLastOf(Transitions(points))
  {
    top, bottom := None, None;
    var last := |points| - 1;
    var i := 0;
    while i < last
      invariant 0 <= i <= last
      invariant top == LastOf(PathTransitions(points, i))
      invariant bottom == SecondLastOf(PathTransitions(points, i))
    {
      if points[i].isLeft != points[i + 1].isLeft {
        bottom := top;
        top := Some(Oriented(points[i], points[i + 1]));
      }
      i := i + 1;
    }
    if points[0].isLeft != points[last].isLeft {
      bottom := top;
      top := Some(Oriented(points[0], points[last]));
    }
  }

  /** Every transition has its left site first and joins two cyclically adjacent sites. */
  lemma {:induction false} TransitionsAreCrossings(pts: seq<Site>, k: nat)
    requires k < |pts|
    ensures forall e :: e in PathTransitions(pts, k) ==> e.left.isLeft && !e.right.isLeft
    ensures forall e :: e in PathTransitions(pts, k) ==>
      exists j :: 0 <= j < k && {e.left, e.right} == {pts[j], pts[j + 1]}
  {
    if k > 0 {
      TransitionsAreCrossings(pts, k - 1);
    }
  }

  /**
   Along a path the parity of the number of transitions tells whether its two
   ends lie on different sides; there is no transition exactly when every
   site is on the side of the first.
   */
  lemma {:induction false} PathTransitionsParity(pts: seq<Site>, k: nat)
    requires k < |pts|
    ensures |PathTransitions(pts, k)| % 2 == (if pts[0].isLeft != pts[k].isLeft then 1 else 0)
    ensures |PathTransitions(pts, k)| == 0 <==> forall j :: 0 <= j <= k ==> pts[j].isLeft == pts[0].isLeft
  {
    if k > 0 {
      PathTransitionsParity(pts, k - 1);
    }
  }

  /**
   A cyclic walk changes side an even number of times. Hence a top tangent
   never comes without a bottom one, and there is none exactly when all hull
   sites come from one sub-diagram.
   */
  lemma CyclicTransitionsAreEven(pts: seq<Site>)
    requires |pts| > 0
    ensures |Transitions(pts)| % 2 == 0
    ensures LastOf(Transitions(pts)).Some? ==> SecondLastOf(Transitions(pts)).Some?
    ensures LastOf(Transitions(pts)).None? <==> forall j :: 0 <= j < |pts| ==> pts[j].isLeft == pts[0].isLeft
  {
    PathTransitionsParity(pts, |pts| - 1);
  }

  /** The pairs `GetCrossEdges` returns have the left-side site first and are adjacent on the hull. */
  lemma CrossEdgesAreOriented(pts: seq<Site>)
    requires |pts| > 0
    ensures forall e :: e in Transitions(pts) ==> e.left.isLeft && !e.right.isLeft
    ensures forall e :: e in Transitions(pts) ==>
      {e.left, e.right} == {pts[0], pts[|pts| - 1]}
      || exists j :: 0 <= j < |pts| - 1 && {e.left, e.right} == {pts[j], pts[j + 1]}
  {
    TransitionsAreCrossings(pts, |pts| - 1);
  }
}
