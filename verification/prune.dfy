/**
 Boundary pruning after a merge: the edges of each sub-diagram with an
 endpoint on the far side of the new half-plane chain ("HP") are dropped, and
 the merged diagram's edges are the survivors of the left diagram, the chain,
 and the survivors of the right diagram.
 */
module Prune {
  import opened Geometry
  import opened Dcel

  /** The vertex lies above the finite end of this chain piece: the walk gives up. */
  predicate AboveEnd(hp: Edge, v: Vertex)
  {
    v.pos.y > hp.end.pos.y + PRECISION && !hp.end.isInfinite
  }

  /** The vertex is level with or above the piece's start, or the piece starts at infinity. */
  predicate Spans(hp: Edge, v: Vertex)
  {
    v.pos.y >= hp.start.pos.y || hp.start.isInfinite
  }

  /** The vertex lies beyond the tolerance on the tested side of the piece's line. */
  predicate WrongSide(hp: Edge, v: Vertex, isLeft: bool)
  {
    var turn := Ccw(hp.start.pos, hp.end.pos, v.pos);
    (isLeft && turn > PRECISION) || (!isLeft && turn < -PRECISION)
  }

  /** The nested `isOfHP`: walk the chain in order until a piece decides. */
  function IsOfHP(v: Vertex, isLeft: bool, HP: seq<Edge>): bool
  {
    if |HP| == 0 then false
    else if AboveEnd(HP[0], v) then false
    else if Spans(HP[0], v) && WrongSide(HP[0], v, isLeft) then true
    else IsOfHP(v, isLeft, HP[1..])
  }

  /**
   A vertex is of the chain exactly when some piece spans it with the vertex on
   the tested side, and neither that piece nor any earlier one ends below it.
   */
  lemma {:induction false} IsOfHPIsFirstDecidingPiece(v: Vertex, isLeft: bool, HP: seq<Edge>)
    ensures IsOfHP(v, isLeft, HP) <==>
      exists k :: 0 <= k < |HP| && Spans(HP[k], v) && WrongSide(HP[k], v, isLeft)
                  && forall j :: 0 <= j <= k ==> !AboveEnd(HP[j], v)
    decreases |HP|
  {
    if |HP| > 0 {
      IsOfHPIsFirstDecidingPiece(v, isLeft, HP[1..]);
      if IsOfHP(v, isLeft, HP) && !(Spans(HP[0], v) && WrongSide(HP[0], v, isLeft)) {
        var k :| 0 <= k < |HP| - 1 && Spans(HP[1..][k], v) && WrongSide(HP[1..][k], v, isLeft)
                 && forall j :: 0 <= j <= k ==> !AboveEnd(HP[1..][j], v);
        assert forall j :: 0 <= j <= k + 1 ==> !AboveEnd(HP[j], v) by {
          forall j | 0 <= j <= k + 1
            ensures !AboveEnd(HP[j], v)
          {
            if j > 0 {
              assert HP[j] == HP[1..][j - 1];
            }
          }
        }
      }
      if !IsOfHP(v, isLeft, HP) {
        forall k | 0 <= k < |HP| && Spans(HP[k], v) && WrongSide(HP[k], v, isLeft)
          ensures exists j :: 0 <= j <= k && AboveEnd(HP[j], v)
        {
          if !AboveEnd(HP[0], v) {
            assert k > 0 && HP[k] == HP[1..][k - 1];
            var j :| 0 <= j <= k - 1 && AboveEnd(HP[1..][j], v);
            assert AboveEnd(HP[j + 1], v);
          }
        }
      }
    }
  }

  /** An edge survives when neither endpoint is of the chain. */
  predicate Keeps(e: Edge, HP: seq<Edge>, isLeft: bool)
  {
    !IsOfHP(e.start, isLeft, HP) && !IsOfHP(e.end, isLeft, HP)
  }

  /** The surviving edges, in their original order. */
  function Kept(edges: seq<Edge>, HP: seq<Edge>, isLeft: bool): seq<Edge>
    decreases |edges|
  {
    if |edges| == 0 then []
    else
      var e := edges[|edges| - 1];
      Kept(edges[..|edges| - 1], HP, isLeft) + (if Keeps(e, HP, isLeft) then [e] else [])
  }

  /** The survivors are exactly the input edges that keep both endpoints. */
  lemma {:induction false} KeptIsTheSurvivors(edges: seq<Edge>, HP: seq<Edge>, isLeft: bool)
    ensures forall e :: e in Kept(edges, HP, isLeft) <==> e in edges && Keeps(e, HP, isLeft)
    decreases |edges|
  {
    if |edges| > 0 {
      var init, last := edges[..|edges| - 1], edges[|edges| - 1];
      KeptIsTheSurvivors(init, HP, isLeft);
      assert edges == init + [last];
    }
  }

  /** No edge is duplicated by the pruning: the survivors form a sub-multiset of the input. */
  lemma {:induction false} KeptIsSubMultiset(edges: seq<Edge>, HP: seq<Edge>, isLeft: bool)
    ensures multiset(Kept(edges, HP, isLeft)) <= multiset(edges)
    decreases |edges|
  {
    if |edges| > 0 {
      var init, last := edges[..|edges| - 1], edges[|edges| - 1];
      KeptIsSubMultiset(init, HP, isLeft);
      assert edges == init + [last];
    }
  }

  /** Nothing is dropped exactly when every edge survives. */
  lemma {:induction false} KeptAllIffNoneDropped(edges: seq<Edge>, HP: seq<Edge>, isLeft: bool)
    ensures Kept(edges, HP, isLeft) == edges <==> forall e :: e in edges ==> Keeps(e, HP, isLeft)
    decreases |edges|
  {
    KeptIsTheSurvivors(edges, HP, isLeft);
    if |edges| > 0 && forall e :: e in edges ==> Keeps(e, HP, isLeft) {
      var init, last := edges[..|edges| - 1], edges[|edges| - 1];
      assert edges == init + [last];
      assert forall e :: e in init ==> e in edges;
      KeptAllIffNoneDropped(init, HP, isLeft);
      assert Keeps(last, HP, isLeft);
    }
  }

  /**
   One of the two compaction loops over a sub-diagram's edge list: survivors
   are moved down in place to the front, the list is cut after them, and
   `deleted` records whether any edge was dropped.
   */
  method PruneEdges(edges: seq<Edge>, HP: seq<Edge>, isLeft: bool) returns (kept: seq<Edge>, deleted: bool)
    ensures kept == Kept(edges, HP, isLeft)
    ensures deleted <==> exists e :: e in edges && !Keeps(e, HP, isLeft)
  {
    var a := edges;
    var count := 0;
    var i := 0;
    deleted := false;
    while i < |a|
      invariant |a| == |edges|
      invariant 0 <= count <= i <= |edges|
      invariant forall k :: i <= k < |edges| ==> a[k] == edges[k]
      invariant a[..count] == Kept(edges[..i], HP, isLeft)
      invariant deleted <==> exists j :: 0 <= j < i && !Keeps(edges[j], HP, isLeft)
    {
      var e := a[i];
      assert edges[..i + 1][..i] == edges[..i];
      if IsOfHP(e.start, isLeft, HP) {
        deleted := true;
      } else if IsOfHP(e.end, isLeft, HP) {
        deleted := true;
      } else {
        ghost var before := a[..count];
        a := a[count := e];
        assert a[..count + 1] == before + [e];
        count := count + 1;
      }
      i := i + 1;
    }
    assert edges[..i] == edges;
    kept := a[..count];
  }

  /**
   The end of a merge: the diagram over all sites whose edges are the left
   survivors, the chain, then the right survivors. Left edges are tested with
   `isLeft` false, right ones with `isLeft` true. When nothing was dropped the
   diagram built before pruning is returned, which has the same edges.
   */
  method FinishMerge(sites: seq<Site>, left: seq<Edge>, HP: seq<Edge>, right: seq<Edge>) returns (v: Diagram)
    ensures v.sites == sites
    ensures v.edges == Kept(left, HP, false) + HP + Kept(right, HP, true)
    ensures forall e :: e in v.edges[..|Kept(left, HP, false)|] ==> e in left && Keeps(e, HP, false)
  {
    v := Diagram(sites, left + HP + right);
    var keptL, deletedL := PruneEdges(left, HP, false);
    var keptR, deletedR := PruneEdges(right, HP, true);
    KeptIsTheSurvivors(left, HP, false);
    KeptAllIffNoneDropped(left, HP, false);
    KeptAllIffNoneDropped(right, HP, true);
    if deletedL || deletedR {
      v := Diagram(sites, keptL + HP + keptR);
    }
    assert v.edges[..|keptL|] == keptL;
  }
}
