# Voronoi diagram by divide and conquer: the exact combinatorial core

This project models, in Dafny, the exact-arithmetic geometry of `voronoi.py`.
These are the steps that prepare and finish each divide-and-conquer merge of
two Voronoi sub-diagrams:

- **Geometry**: the point type with exact `real` coordinates, the cross product,
  the orientation test `ccw`, the site order `Point.__lt__` (x ascending, then
  y descending), `lessThan_yFirst` and the tolerance `PRECISION = 1e-7`.
  Python's exact `__eq__` on points is Dafny's datatype equality.
- **Normalize**: `WorkerThread.voronoi`. It sorts the sites by `__lt__`, then
  removes duplicates with an in-place compaction. An empty input does nothing.
- **Hull**: `leftTop`, which picks the merge pivot. `GrahamScan`, taken after
  its angular sort: it repeats the collinear tail, then runs the stack scan,
  which keeps left turns and collinear sites.
- **Orientation**: the angular order around the pivot and the facts about
  `ccw` that make the stack scan correct. They cover the push and pop steps,
  and sites that share a ray from the pivot.
- **CrossEdges**: `getCrossEdges`. It walks the merged hull cyclically and
  looks for adjacent sites that come from different sub-diagrams.
- **Intersection**: `Voronoi.Edge.intersection`. It finds where two segments
  or rays cross, with a tolerance window on the parameters. The window opens
  completely on a side where the endpoint is infinite.
- **Prune**: the boundary pruning after the bisector chain is built. The
  `isOfHP` walk over the half-plane chain ("HP") decides which vertices lie on
  the wrong side. Two order-preserving compactions then drop the edges of the
  left and right sub-diagrams that have such a vertex. The merged edge list is
  the left survivors, then the chain, then the right survivors.
- **Save**: the canonical order of `Voronoi.save`. Sites are sorted by `cmp1`.
  Each edge is written with its `cmp1`-smaller endpoint first. Edges are sorted
  by `cmp2`. The output is records, not text.
- **Sorting**: a stable insertion sort by a total preorder. It stands for
  Python's `list.sort` in all three places the program sorts.

Every coordinate is a Dafny `real`, so all arithmetic is exact. The program
reads integer sites, so every orientation test on sites is decided exactly.

The source keeps the Graham-scan stack in the list prefix `ccwP[:resultCount]`.
It writes only below the read position `i`. So `Hull.Scan` keeps the stack as a
separate sequence and reads the unread suffix from the extended list. The two
are the same computation.

With exactly one side change on the merged hull, `getCrossEdges` would set
`crossEdgeTop` and leave `crossEdgeBottom` at `None` (voronoi.py:857-869). The
model keeps that behaviour, and `CrossEdges.CyclicTransitionsAreEven` proves
that the case cannot occur: a cyclic walk changes sides an even number of
times, so whenever a top tangent exists, a bottom one exists too. Lines 871-872
of the source are a no-op and are not modelled.

## Model

| member | source | states |
|---|---|---|
| Geometry.Add | voronoi.py:51-52 | `Point.__add__`: the coordinate-wise sum. `Geometry.PointArithmeticLaws` states its laws. |
| Geometry.Sub | voronoi.py:60-61 | `Point.__sub__`: the coordinate-wise difference. `Geometry.PointArithmeticLaws` shows it undoes `Add`. |
| Geometry.Scale | voronoi.py:66-74 | The scalar branch of `Point.__mul__` and `__rmul__`: `Scale(k, a)` is `Point(a.x*k, a.y*k)`. It gives `p + t*r` in `Intersection.Intersect`. |
| Geometry.PointArithmeticLaws | voronoi.py:51-74 | Subtraction undoes addition, addition commutes, scaling by 1 changes nothing, and scaling distributes over addition. |
| Geometry.Cross | voronoi.py:66-69 | `Point.__mul__` with a point operand: the cross product a.x·b.y − a.y·b.x. Its laws are stated by `Geometry.CrossLaws`. |
| Geometry.CrossLaws | voronoi.py:66-69 | The cross product is antisymmetric, zero for a point with itself, additive and homogeneous in its first argument. |
| Geometry.Ccw | voronoi.py:801-813 | `ccw(A, B, C)` with three points: (B−A)×(C−A). Its symmetries are stated by `Geometry.CcwSymmetries`. |
| Geometry.Less | voronoi.py:45-46 | `Point.__lt__`: x ascending, then y descending. `Geometry.LessIsStrictTotalOrder` shows it is a strict total order. |
| Geometry.LessYFirst | voronoi.py:48-49 | `Point.lessThan_yFirst`: y ascending, then x ascending. `Geometry.LessYFirstIsStrictTotalOrder` shows it is a strict total order. |
| Geometry.LessIsStrictTotalOrder | voronoi.py:42-46 | `__lt__` is irreflexive, asymmetric and transitive. Any two points are equal under `__eq__` or ordered one way. |
| Geometry.LessYFirstIsStrictTotalOrder | voronoi.py:48-49 | `lessThan_yFirst` is a strict total order too. |
| Geometry.CcwSymmetries | voronoi.py:801-813 | `ccw` changes sign when two of its points swap and is unchanged by a cyclic rotation. A repeated point makes it zero. |
| Sorting.SortBy | voronoi.py:999 | Sorting by a total preorder gives a list in that order with the same elements (a permutation). |
| Normalize.Normalize | voronoi.py:991-1006 | An empty input gives no result. Otherwise the result is strictly increasing under `__lt__`, so no point repeats. It holds exactly the input's points. |
| Normalize.Compact | voronoi.py:1001-1006 | The in-place compaction of a sorted, non-empty list keeps the first point. Its result is strictly increasing and holds exactly the list's points. |
| Normalize.StrictlyIncreasingIsUnique | voronoi.py:997-1006 | Two strictly increasing lists with the same points are equal. So the normalised sites depend only on the set of input sites: duplicates and input order do not matter. |
| Hull.LeftTop | voronoi.py:877-889 | It returns a site of the list. Every site has a larger x, or the same x and a y no greater. It is the first site with that position. |
| Hull.LeftTopOfSortedIsFirst | voronoi.py:1034-1042 | On a left site list that is sorted without repeats, the site `leftTop` returns is the head of the list. |
| Hull.RepeatCollinearTail | voronoi.py:822-829 | The list is kept as is. It is followed by P[n-2], P[n-3], … for exactly the longest run of sites collinear with the first and last site. The run stops at the first non-collinear site or at P[1]. |
| Hull.Scan | voronoi.py:832-846 | The stack never drops below two sites, and the loop terminates. The hull starts with the first two inputs and turns left or goes straight at every site. It is a subsequence of the input. Every sorted site lies left of, or on, every hull edge. The first ray's sites stay at the front, and the repeated closing run sits whole at the end. |
| Hull.ScanStep | voronoi.py:836-844 | One pass of the loop either pushes the next site, when it makes no right turn with the top two, or pops the top. The scan's invariant holds again afterwards: left turns, subsequence, every site read so far inside the chain, and the sites still pending on the left of the segment to the next site. |
| Hull.GrahamScan | voronoi.py:816-846 | The hull of the angularly sorted sites has between 2 and 2n-2 entries. It starts with P[0] and P[1], turns left or goes straight at every site, and holds only input sites. It is a subsequence of the sorted sites followed by the closing run `RepeatCollinearTail` appends, so it lists them in counter-clockwise order. Every input site lies left of, or on, every hull edge: the hull encloses the input. Collinear sites are kept in both directions at the pivot: the sites on the first ray at the front, going out, and the closing run at the end, coming back. |
| CrossEdges.Oriented | voronoi.py:857-864 | A differing pair is recorded with the left-side site first. It holds the same two sites. |
| CrossEdges.GetCrossEdges | voronoi.py:849-874 | Top is the last side change of the cyclic walk. The wrap pair (points[0], points[last]) is checked last. Bottom is the side change found just before top. Either is `None` when there are too few. |
| CrossEdges.CyclicTransitionsAreEven | voronoi.py:866-869 | A cyclic walk changes sides an even number of times. So a top tangent never comes without a bottom one. There is none exactly when all hull sites come from one sub-diagram. |
| CrossEdges.PathTransitionsParity | voronoi.py:866-868 | Along the path points[0..k], the number of side changes is odd exactly when the two ends are on different sides. There are none exactly when all of these sites share a side. |
| CrossEdges.CrossEdgesAreOriented | voronoi.py:857-869 | Every recorded pair has its left-side site first and right-side site second. It joins two cyclically adjacent hull sites. |
| Intersection.CheckU | voronoi.py:191-200 | It rejects exactly when u is below -PRECISION with a finite start, or above 1+PRECISION with a finite end. Otherwise it returns the crossing. |
| Intersection.Intersect | voronoi.py:151-209 | Parallel edges give the collinear sentinel when (q-p)×s = 0, and no crossing otherwise. Non-parallel edges cross exactly when neither t nor u falls outside its edge's window. The record carries r, s, r×s, t = ((q-p)×s)/(r×s) and u = ((q-p)×r)/(r×s). |
| Intersection.HitLiesOnBothEdges | voronoi.py:174-179 | The reported point is p + t·r and also q + u·s, so it lies on both edges' lines. |
| Intersection.SolvesBothLines | voronoi.py:175-177 | The t and u formulas solve t·r − u·s = q − p whenever r×s ≠ 0. |
| Intersection.InfiniteEndpointsOnlyWiden | voronoi.py:191-209 | Marking more endpoints infinite never turns a reported crossing into a miss, and never changes it. |
| Intersection.FiniteEdgesWindow | voronoi.py:191-209 | With four finite endpoints, a crossing is reported exactly when both t and u lie in [-PRECISION, 1+PRECISION]. |
| Intersection.IntersectionIsSymmetric | voronoi.py:161-179 | Swapping the two edges reports a crossing exactly when the original order does. The point is the same, and t and u trade places. |
| Prune.IsOfHP | voronoi.py:1265-1284 | The `isOfHP` walk over the chain pieces, one piece per step. `Prune.IsOfHPIsFirstDecidingPiece` characterises its answer without recursion. |
| Prune.IsOfHPIsFirstDecidingPiece | voronoi.py:1265-1284 | A vertex is of the chain exactly when some piece spans its height with the vertex on the tested side beyond PRECISION, and neither that piece nor any earlier one ends below the vertex. |
| Prune.KeptIsTheSurvivors | voronoi.py:1287-1310 | The kept edges are exactly the input edges whose two endpoints are both not of the chain. |
| Prune.KeptIsSubMultiset | voronoi.py:1287-1310 | Pruning never adds or duplicates an edge. |
| Prune.KeptAllIffNoneDropped | voronoi.py:1285-1313 | The kept list is the whole list exactly when every edge survives. |
| Prune.PruneEdges | voronoi.py:1285-1310 | The in-place loop leaves the survivors in their original order. `deletedEdge` is set exactly when some edge has an endpoint of the chain. |
| Prune.FinishMerge | voronoi.py:1259-1318 | The merged diagram keeps the site list. Its edges are the left survivors (tested with `isLeft` false), then the chain, then the right survivors (tested with `isLeft` true). This holds whether or not an edge was dropped. |
| Save.Cmp1 | voronoi.py:270-274 | `cmp1`: the difference in x, or in y when the x coordinates agree. `Save.Cmp1IsLexicographic` gives the order its sign means. |
| Save.Cmp1IsLexicographic | voronoi.py:270-274 | `cmp1` is negative exactly when the first point is lexicographically smaller in (x, y). It is zero exactly for equal points, and it is antisymmetric. |
| Save.Canonical | voronoi.py:280-283 | A canonical segment has its `cmp1`-smaller endpoint first. It has the same two endpoints. |
| Save.CanonicalIsIdempotent | voronoi.py:296-299 | Canonicalising twice changes nothing. Both directions of a segment have the same canonical form. |
| Save.SegmentCmp | voronoi.py:284-290 | The comparison `cmp2` makes once both edges are canonical: the difference of the first endpoints' x, else of their y, else of the second endpoints' y. `Save.SegmentCmpIsLexicographic` gives the order its sign means. |
| Save.SegmentCmpIsLexicographic | voronoi.py:284-290 | The `cmp2` comparison of canonical segments is the lexicographic order on (first x, first y, second y). It is antisymmetric. |
| Save.Cmp2 | voronoi.py:277-290 | `cmp2`: both edges are put in canonical form, then compared by first x, first y, second y. `Save.Cmp2IsLexicographic` gives the order its sign means. |
| Save.Cmp2IsLexicographic | voronoi.py:277-290 | `cmp2` is at most zero exactly when the canonical forms are ordered lexicographically by (first x, first y, second y). It is antisymmetric. Reversing an edge's stored direction does not change it. |
| Save.Save | voronoi.py:268-291 | The sites come out in `cmp1` order and the edges in `cmp2` order. Each list is a permutation of the diagram's own. The lines are written from the sorted lists. |
| Save.WriteLines | voronoi.py:293-300 | There is one site line per site, in order, then one edge line per edge. Each edge line has its edge's endpoints, smaller first. The edge lines are in (first x, first y, second y) order. |

## Left out

- The angular sort `sortCcw` (voronoi.py:770-798) is not modelled. It is a numpy `float32` sort. Its output is the input of `Hull.GrahamScan`, and its order is the precondition `AngularlySorted`. In exact arithmetic its key (straight down from the pivot first, then by slope, then by x) orders distinct sites by `Orientation.Precedes`: counter-clockwise around the pivot, nearer first on a shared ray. Rounding to `float32` can break that order, and the model does not cover it.
- Hull.GrahamScan: keeping collinear sites "in both direction" (voronoi.py:818) is proved only at the pivot: on the first ray and on the closing run. Sites in the middle of other hull edges are pushed too, since the turn test accepts `ccw == 0`. Their survival is not stated; only that every site lies left of, or on, each hull edge.
- Hull.Scan: the same holds for the scan itself. Its contract states that the first ray's sites and the closing run survive, not the collinear sites in the middle of other hull edges.
- Hull.GrahamScan: requires at least two sites. With one site the source would return a one-element list through Python's slice semantics. Its only caller passes the union of two non-empty halves.
- Hull.LeftTop: requires a non-empty list. The source would raise `IndexError` on an empty one, and its only caller passes a non-empty half.
- CrossEdges.GetCrossEdges: requires a non-empty hull, for the same reason.
- Sorting.SortBy: states that the result is sorted and a permutation of the input. It does not state that Python's sort is stable. Stability changes nothing for sites, whose order is total. For edges it only decides the order of edges that `cmp2` ranks equal.
- The bisector-chain builder (voronoi.py:1061-1257) is not modelled. It uses `sqrt` and `ceil` scaling and extends endpoints with `floor`/`ceil`. It mutates shared vertex objects in place. It leaves its loop silently when no intersection is found. `Point.norm`, `__truediv__`, `__iadd__`, `__imul__` and `Polygon.edges` serve only this builder. The chain `HP` is therefore an input of `Prune.FinishMerge`.
- The recursive driver `_voronoi` (voronoi.py:1017-1045) is not modelled. It splits the sites, recurses, sets the `isLeft` flags and calls the steps above, and it needs the chain builder. Sites carry their `isLeft` flag as a field instead.
- The DCEL neighbour links (`cwPredecessor`, …), the `edge` back-references of sites and vertices, the `intersected` flag and object identity are not modelled. Only the chain builder uses them.
- Python floating point is not modelled: coordinates are exact reals. Near-parallel edges that float rounding might report as parallel are parallel here only when exactly so.
- The PyQt user interface, the stepping with mutexes and wait conditions, and the signal emissions are not modelled (voronoi.py:303-748, 350-387, 892-906). They are presentation and concurrency, not part of the computation.
- File reading in `WorkerThread.run` (voronoi.py:908-989) is I/O and is not modelled. In `save`, the file handling and the float-to-text formatting are I/O too. `Save.Save` returns the sorted lists and line records instead.
- The two-argument form `ccw(A, B)` returns `A*B`, which is `Geometry.Cross`.
- The check `P is None` in `WorkerThread.voronoi` has no counterpart, since a Dafny sequence is never `None`. The side effects on the caller's list are not modelled: `Normalize.Normalize` returns its result. In the source the list is sorted in place, and the compaction (voronoi.py:1001-1006) then writes the deduplicated prefix into it before `P = P[:countNoDuplicate]` rebinds only the local name. The caller's list keeps a stale tail: [A, A, B] is left as [A, B, B].
- The debug prints, the shadowed first `Voronoi` class (voronoi.py:85-96) and commented-out code are not modelled.
