/**
 The convex hull of the union of two sub-diagrams' sites: the pivot
 (`leftTop`) and the Graham-scan variant that keeps collinear boundary sites.
 The angular sort around the pivot is not modelled; its output is the input
 of `GrahamScan`, with the property the scan relies on as a precondition.
 */
module Hull {
  import opened Geometry
  import opened Dcel
  import opened Orientation
  import Normalize

  /**
   `leftTop`: the leftmost site, the topmost among the leftmost. It is the first
   site whose position is minimal under `Point.__lt__`, since a later site
   replaces the current one only when strictly better.
   */
  method LeftTop(points: seq<Site>) returns (l: Site)
    requires |points| > 0
    ensures l in points
    ensures forall p :: p in points ==> l.pos.x < p.pos.x || (l.pos.x == p.pos.x && l.pos.y >= p.pos.y)
    ensures exists k :: 0 <= k < |points| && points[k] == l && forall j :: 0 <= j < k ==> Less(l.pos, points[j].pos)
  {
    l := points[0];
    ghost var k := 0;
    var i := 1;
    while i < |points|
      invariant 1 <= i <= |points|
      invariant 0 <= k < i && points[k] == l
      invariant forall j :: 0 <= j < i ==> l.pos.x < points[j].pos.x || (l.pos.x == points[j].pos.x && l.pos.y >= points[j].pos.y)
      invariant forall j :: 0 <= j < k ==> Less(l.pos, points[j].pos)
    {
      var p := points[i];
      if p.pos.x < l.pos.x {
        l, k := p, i;
      } else if p.pos.x == l.pos.x {
        if p.pos.y > l.pos.y {
          l, k := p, i;
        }
      }
      i := i + 1;
    }
  }

  /**
   The driver passes `leftTop` the site list of the left sub-diagram, which is
   sorted by `Point.__lt__` without repeats; there the site `LeftTop` is
   characterised by is the first one.
   */
  lemma LeftTopOfSortedIsFirst(points: seq<Site>, l: Site)
    requires Normalize.StrictlyIncreasing(Positions(points))
    requires l in points
    requires forall p :: p in points ==> l.pos.x < p.pos.x || (l.pos.x == p.pos.x && l.pos.y >= p.pos.y)
    ensures l == points[0]
  {
    var k :| 0 <= k < |points| && points[k] == l;
    assert Positions(points)[0] == points[0].pos && Positions(points)[k] == l.pos;
    assert points[0] in points;
  }

  /** The chain `h` turns left, or goes straight, at its site `k`. */
  predicate TurnsLeftAt(h: seq<Site>, k: int)
  {
    2 <= k < |h| && Ccw(h[k - 2].pos, h[k - 1].pos, h[k].pos) >= 0.0
  }

  /** Every three consecutive sites make a left turn or are collinear. */
  predicate LeftTurnChain(h: seq<Site>)
  {
    forall k :: 2 <= k < |h| ==> TurnsLeftAt(h, k)
  }

  /** `p` lies left of, or on, the edge from `h[k]` to `h[k+1]`. */
  predicate LeftOfEdge(h: seq<Site>, k: int, p: Point)
  {
    0 <= k < |h| - 1 && Ccw(h[k].pos, h[k + 1].pos, p) >= 0.0
  }

  /** Each of the first `m` sites of `E` lies left of, or on, every edge of the chain `h`. */
  predicate Encloses(h: seq<Site>, E: seq<Site>, m: nat)
  {
    m <= |E| && forall j, k :: 0 <= j < m && 0 <= k < |h| - 1 ==> LeftOfEdge(h, k, E[j].pos)
  }

  /**
   The order the angular sort around the pivot `E[0]` gives the first `n`
   sites: each of `E[1..n)` follows every earlier one in `Orientation.Precedes`,
   counter-clockwise, nearer first on a shared ray.
   */
  predicate SortedUpTo(E: seq<Site>, n: nat)
  {
    n <= |E| && forall i, j :: 1 <= i < j < n ==> Precedes(E[0].pos, E[i].pos, E[j].pos)
  }

  /** What `sortCcw` returns for at least two distinct sites, with the pivot first. */
  predicate AngularlySorted(P: seq<Site>)
  {
    |P| >= 2 && SortedUpTo(P, |P|)
  }

  /** `E[k]`, past the sorted sites `E[..n]`, repeats `E[2n-2-k]`, which lies on the ray from `E[0]` through `E[n-1]`. */
  predicate RepeatsOnClosingRay(E: seq<Site>, n: nat, k: int)
  {
    0 <= 2 * n - 2 - k && n <= k < |E| && E[k] == E[2 * n - 2 - k] && Ccw(E[0].pos, E[k].pos, E[n - 1].pos) == 0.0
  }

  /** `E` is `E[..n]` followed by the run `RepeatCollinearTail` appends. */
  predicate CollinearTail(E: seq<Site>, n: nat)
  {
    && 2 <= n <= |E| <= 2 * n - 2
    && forall k :: n <= k < |E| ==> RepeatsOnClosingRay(E, n, k)
  }

  /** `P[j]` lies on the line through `P[0]` and the last site. */
  predicate OnClosingLine(P: seq<Site>, j: int)
  {
    0 <= j < |P| && Ccw(P[0].pos, P[j].pos, P[|P| - 1].pos) == 0.0
  }

  /**
   The last `t + 1` sites of `P` lie on the ray from `P[0]` through the last
   site, and no longer run of them does (the run never takes in `P[0]`).
   */
  predicate ClosingRun(P: seq<Site>, t: nat)
  {
    && |P| >= 2 && t <= |P| - 2
    && (forall j :: |P| - 1 - t <= j < |P| - 1 ==> OnClosingLine(P, j))
    && (t < |P| - 2 ==> !OnClosingLine(P, |P| - 2 - t))
  }

  /** `h` ends with the closing run of `P`, `t + 1` sites long, in the order it walks back towards `P[0]`. */
  predicate EndsWithClosingRun(h: seq<Site>, P: seq<Site>, t: nat)
  {
    && ClosingRun(P, t) && t < |h|
    && forall j :: |P| - 1 - t <= j < |P| ==> h[|h| + |P| - 2 - t - j] == P[j]
  }

  /** `E[t+1]` lies on the line through `E[0]` and `E[t]`. */
  predicate StaysOnRay(E: seq<Site>, t: int)
  {
    0 <= t < |E| - 1 && Ccw(E[0].pos, E[t].pos, E[t + 1].pos) == 0.0
  }

  /** The first `k` sites of `E` lie on one ray from `E[0]`: consecutive ones are collinear with it. */
  predicate FirstRun(E: seq<Site>, k: nat)
  {
    k <= |E| && forall t :: 1 <= t && t + 1 < k ==> StaysOnRay(E, t)
  }

  /**
   Appends, in the order P[n-2], P[n-3], ..., P[1], the longest run of sites
   collinear with the first and the last site, so that the scan keeps them on
   the way back to the pivot.
   */
  method RepeatCollinearTail(P: seq<Site>) returns (E: seq<Site>)
    requires |P| >= 2
    ensures |P| <= |E| <= 2 * |P| - 2
    ensures E[..|P|] == P
    ensures forall k :: |P| <= k < |E| ==> E[k] == P[2 * |P| - 2 - k]
    ensures forall k :: |P| <= k < |E| ==> Ccw(P[0].pos, E[k].pos, P[|P| - 1].pos) == 0.0
    ensures |E| < 2 * |P| - 2 ==> Ccw(P[0].pos, P[2 * |P| - 2 - |E|].pos, P[|P| - 1].pos) != 0.0
  {
    var a := P[0];
    var c := P[|P| - 1];
    E := P;
    var i := |P| - 2;
    while i > 0
      invariant 0 <= i <= |P| - 2
      invariant |E| == 2 * |P| - 2 - i
      invariant E[..|P|] == P
      invariant forall k :: |P| <= k < |E| ==> E[k] == P[2 * |P| - 2 - k]
      invariant forall k :: |P| <= k < |E| ==> Ccw(a.pos, E[k].pos, c.pos) == 0.0
    {
      assert E[i] == P[i];
      if Ccw(a.pos, E[i].pos, c.pos) != 0.0 {
        break;
      }
      E := E + [E[i]];
      i := i - 1;
    }
  }

  /**
   `E` is `P` followed by the closing run `RepeatCollinearTail` appends: the
   sites collinear with the first and last site, walked back from `P[n-2]`, and
   no more of them than that.
   */
  ghost predicate ClosingExtension(P: seq<Site>, E: seq<Site>)
  {
    && |P| >= 2 && |P| <= |E| && E[..|P|] == P && CollinearTail(E, |P|)
    && (|E| < 2 * |P| - 2 ==> !OnClosingLine(P, 2 * |P| - 2 - |E|))
  }

  /** `h` lists sites of `E` in the order `E` holds them, taking each position of `E` at most once. */
  ghost predicate SubsequenceOf(h: seq<Site>, E: seq<Site>)
  {
    exists picks: seq<nat> :: PickedFrom(h, picks, E, |E|)
  }

  /** `picks` are increasing indices below `bound` at which `E` holds the sites of `stack`. */
  predicate PickedFrom(stack: seq<Site>, picks: seq<nat>, E: seq<Site>, bound: nat)
  {
    && |picks| == |stack|
    && (forall k :: 0 <= k < |stack| ==> picks[k] < bound <= |E| && stack[k] == E[picks[k]])
    && (forall k, m :: 0 <= k < m < |picks| ==> picks[k] < picks[m])
  }

  lemma PickedAfterPush(stack: seq<Site>, picks: seq<nat>, E: seq<Site>, i: nat)
    requires PickedFrom(stack, picks, E, i) && i < |E|
    ensures PickedFrom(stack + [E[i]], picks + [i], E, i + 1)
  {
    var s', p' := stack + [E[i]], picks + [i];
    assert forall k :: 0 <= k < |stack| ==> s'[k] == stack[k] && p'[k] == picks[k];
  }

  lemma PickedAfterPop(stack: seq<Site>, picks: seq<nat>, E: seq<Site>, i: nat)
    requires PickedFrom(stack, picks, E, i) && |stack| > 0
    ensures PickedFrom(stack[..|stack| - 1], picks[..|picks| - 1], E, i)
  {
    var s', p' := stack[..|stack| - 1], picks[..|picks| - 1];
    assert forall k :: 0 <= k < |s'| ==> s'[k] == stack[k] && p'[k] == picks[k];
  }

  lemma ChainAfterPush(stack: seq<Site>, c: Site)
    requires LeftTurnChain(stack) && |stack| >= 2
    requires LeftOfEdge(stack, |stack| - 2, c.pos)
    ensures LeftTurnChain(stack + [c])
  {
    var s' := stack + [c];
    forall k | 2 <= k < |s'|
      ensures TurnsLeftAt(s', k)
    {
      if k < |stack| {
        assert TurnsLeftAt(stack, k);
      }
    }
  }

  lemma ChainAfterPop(stack: seq<Site>)
    requires LeftTurnChain(stack) && |stack| > 0
    ensures LeftTurnChain(stack[..|stack| - 1])
  {
    var s' := stack[..|stack| - 1];
    forall k | 2 <= k < |s'|
      ensures TurnsLeftAt(s', k)
    {
      assert TurnsLeftAt(stack, k);
    }
  }

  /** `E[j]` comes no later than the stack top in `E`, or lies left of, or on, the segment from the top to `E[i]`. */
  predicate PendingAt(s: seq<Site>, picks: seq<nat>, E: seq<Site>, i: nat, j: int)
  {
    && 0 <= j < |E| && i < |E| && 0 < |s| == |picks|
    && (j <= picks[|picks| - 1] || Ccw(s[|s| - 1].pos, E[i].pos, E[j].pos) >= 0.0)
  }

  /** Every site read so far, `E[..i)`, is pending for the next site `E[i]`. */
  predicate Pending(s: seq<Site>, picks: seq<nat>, E: seq<Site>, i: nat)
  {
    && i < |E| && 0 < |s| == |picks|
    && forall j :: 0 <= j < i ==> PendingAt(s, picks, E, i, j)
  }

  /** `E[t]`, read before `E[i]`, sits as far below the top of `s` as it sits below `E[i]`. */
  predicate KeptAt(s: seq<Site>, E: seq<Site>, i: nat, t: int)
  {
    0 <= |s| - i + t < |s| && 0 <= t < |E| && s[|s| - i + t] == E[t]
  }

  /** The stack ends with `E[n-1..i)`: the last sorted site and the part of the closing run read so far. */
  predicate ClosingKept(s: seq<Site>, E: seq<Site>, n: nat, i: nat)
  {
    && 1 <= n <= i <= |E| && |s| >= i - n + 2
    && forall t :: n - 1 <= t < i ==> KeptAt(s, E, i, t)
  }

  /** Every run of sites on the first ray from the pivot that has been read is still at the front of the stack. */
  predicate FirstRunKept(s: seq<Site>, E: seq<Site>, n: nat, i: nat)
  {
    forall k: nat :: k <= n && k <= i && FirstRun(E, k) ==> k <= |s| && s[..k] == E[..k]
  }

  /** The loop invariant of `Scan` once `E[..i)` has been read. */
  predicate ScanState(E: seq<Site>, n: nat, i: nat, s: seq<Site>, picks: seq<nat>)
  {
    && SortedUpTo(E, n) && CollinearTail(E, n)
    && 2 <= |s| <= i <= |E|
    && s[0] == E[0] && s[1] == E[1]
    && LeftTurnChain(s)
    && PickedFrom(s, picks, E, i) && picks[0] == 0
    && Encloses(s, E, if i < n then i else n)
    && (i < n ==> Pending(s, picks, E, i))
    && (i >= n ==> ClosingKept(s, E, n, i))
    && FirstRunKept(s, E, n, i)
  }

  lemma EnclosesAfterPop(s: seq<Site>, E: seq<Site>, m: nat)
    requires Encloses(s, E, m) && |s| > 0
    ensures Encloses(s[..|s| - 1], E, m)
  {
    var s' := s[..|s| - 1];
    forall j, k | 0 <= j < m && 0 <= k < |s'| - 1
      ensures LeftOfEdge(s', k, E[j].pos)
    {
      assert LeftOfEdge(s, k, E[j].pos);
    }
  }

  lemma EnclosesAfterPush(s: seq<Site>, c: Site, E: seq<Site>, m: nat)
    requires Encloses(s, E, m) && |s| > 0
    requires forall j :: 0 <= j < m ==> LeftOfEdge(s + [c], |s| - 1, E[j].pos)
    ensures Encloses(s + [c], E, m)
  {
    var s' := s + [c];
    forall j, k | 0 <= j < m && 0 <= k < |s'| - 1
      ensures LeftOfEdge(s', k, E[j].pos)
    {
      if k + 1 < |s| {
        assert LeftOfEdge(s, k, E[j].pos);
      }
    }
  }

  lemma EnclosesNext(s: seq<Site>, E: seq<Site>, i: nat)
    requires Encloses(s, E, i) && i < |E|
    requires forall k :: 0 <= k < |s| - 1 ==> LeftOfEdge(s, k, E[i].pos)
    ensures Encloses(s, E, i + 1)
  {
  }

  /**
   Before a push: the next site `E[i]`, which lies left of the top edge, lies
   left of every edge of the stack. The stack turns left throughout, keeps the
   pivot on its left and holds sites in sorted order, so the fact walks down
   the stack one edge at a time (`Orientation.StepDown`).
   */
  lemma ChainSeesNext(s: seq<Site>, picks: seq<nat>, E: seq<Site>, n: nat, i: nat)
    requires SortedUpTo(E, n) && i < n
    requires |s| >= 2 && PickedFrom(s, picks, E, i) && picks[0] == 0
    requires LeftTurnChain(s)
    requires forall k :: 0 <= k < |s| - 1 ==> LeftOfEdge(s, k, E[0].pos)
    requires LeftOfEdge(s, |s| - 2, E[i].pos)
    ensures forall k :: 0 <= k < |s| - 1 ==> LeftOfEdge(s, k, E[i].pos)
  {
    var o, c := E[0].pos, E[i].pos;
    var m := |s| - 2;
    while m > 0
      invariant 0 <= m <= |s| - 2
      invariant forall k :: m <= k < |s| - 1 ==> LeftOfEdge(s, k, c)
    {
      var p, q, r := s[m - 1].pos, s[m].pos, s[m + 1].pos;
      assert 1 <= picks[m] < picks[m + 1] < i;
      assert Precedes(o, E[picks[m]].pos, E[picks[m + 1]].pos);
      assert Precedes(o, E[picks[m]].pos, E[i].pos);
      if picks[m - 1] > 0 {
        assert Precedes(o, E[picks[m - 1]].pos, E[picks[m]].pos);
        assert Precedes(o, E[picks[m - 1]].pos, E[picks[m + 1]].pos);
      }
      assert TurnsLeftAt(s, m + 1) && LeftOfEdge(s, m, o) && LeftOfEdge(s, m, c);
      StepDown(o, p, q, r, c);
      m := m - 1;
    }
  }

  /**
   On the closing run there is nothing to pop: the next site is a copy of a
   sorted site, which already lies left of the top edge.
   */
  lemma ClosingTurn(s: seq<Site>, E: seq<Site>, n: nat, i: nat)
    requires CollinearTail(E, n) && n <= i < |E| && |s| >= 2
    requires Encloses(s, E, n)
    ensures LeftOfEdge(s, |s| - 2, E[i].pos)
  {
    assert RepeatsOnClosingRay(E, n, i);
    assert LeftOfEdge(s, |s| - 2, E[2 * n - 2 - i].pos);
  }

  /**
   While the stack is exactly the first sites of the first ray from the pivot,
   there is nothing to pop either: the next site lies on or beyond that ray.
   */
  lemma FirstRunTurn(s: seq<Site>, E: seq<Site>, n: nat, i: nat)
    requires SortedUpTo(E, n) && 2 <= |s| <= i < n
    requires FirstRun(E, |s|) && s == E[..|s|]
    ensures LeftOfEdge(s, |s| - 2, E[i].pos)
  {
    var o, k := E[0].pos, |s|;
    assert Precedes(o, E[k - 1].pos, E[i].pos);
    if k - 2 > 0 {
      assert Precedes(o, E[k - 2].pos, E[k - 1].pos);
      assert StaysOnRay(E, k - 2);
    }
    assert OnRayBefore(o, E[k - 2].pos, E[k - 1].pos);
    RaySign(o, E[k - 2].pos, E[k - 1].pos, E[i].pos);
  }

  /** A push inside the sorted part: every site read so far, and the new one, lies left of the new top edge. */
  lemma PushInsideSorted(s: seq<Site>, picks: seq<nat>, E: seq<Site>, n: nat, i: nat)
    requires SortedUpTo(E, n) && 2 <= |s| <= i < n
    requires PickedFrom(s, picks, E, i) && picks[0] == 0
    requires Encloses(s, E, i) && Pending(s, picks, E, i)
    requires LeftOfEdge(s, |s| - 2, E[i].pos)
    ensures forall j :: 0 <= j < i + 1 ==> LeftOfEdge(s + [E[i]], |s| - 1, E[j].pos)
  {
    var o, c := E[0].pos, E[i].pos;
    var a, b, pa, pb := s[|s| - 2].pos, s[|s| - 1].pos, picks[|picks| - 2], picks[|picks| - 1];
    assert 1 <= pb < i && Precedes(o, b, c);
    assert a == o || Precedes(o, a, b) by {
      if pa > 0 {
        assert Precedes(o, E[pa].pos, E[pb].pos);
      }
    }
    assert LeftOfEdge(s, |s| - 2, o);
    forall j | 0 <= j < i + 1
      ensures LeftOfEdge(s + [E[i]], |s| - 1, E[j].pos)
    {
      if j == i {
        CcwSymmetries(b, c, c);
      } else {
        assert PendingAt(s, picks, E, i, j);
        if j <= pb {
          if 0 < j < pb {
            assert Precedes(o, E[j].pos, E[pb].pos);
          }
          assert LeftOfEdge(s, |s| - 2, E[j].pos);
          PushKeepsEarlier(o, a, b, c, E[j].pos);
        }
      }
    }
  }

  /** A push on the closing run: the edge back towards the pivot keeps every sorted site on its left. */
  lemma PushOnClosingRun(s: seq<Site>, E: seq<Site>, n: nat, i: nat)
    requires SortedUpTo(E, n) && CollinearTail(E, n) && n <= i < |E|
    requires |s| >= 2 && s[|s| - 1] == E[i - 1]
    ensures forall j :: 0 <= j < n ==> LeftOfEdge(s + [E[i]], |s| - 1, E[j].pos)
  {
    var o, m := E[0].pos, 2 * n - 2 - i;
    var u, v, w := E[m].pos, E[m + 1].pos, E[n - 1].pos;
    assert RepeatsOnClosingRay(E, n, i);
    assert E[i] == E[m] && 1 <= m < n - 1;
    if i - 1 >= n {
      assert RepeatsOnClosingRay(E, n, i - 1);
    }
    assert s[|s| - 1] == E[m + 1];
    assert Precedes(o, u, v) && Precedes(o, u, w);
    assert v == w || (Precedes(o, v, w) && Ccw(o, v, w) == 0.0);
    if v == w {
      CcwSymmetries(o, w, w);
    }
    forall j | 0 <= j < n
      ensures LeftOfEdge(s + [E[i]], |s| - 1, E[j].pos)
    {
      if 0 < j < n - 1 {
        assert Precedes(o, E[j].pos, w);
      }
      TailTurn(o, u, v, w, E[j].pos);
    }
  }

  /**
   A pop inside the sorted part. The first two sites are never popped, and
   every site read so far still lies left of the segment from the new top to
   the next site, unless it comes no later than the new top.
   */
  lemma PopInsideSorted(s: seq<Site>, picks: seq<nat>, E: seq<Site>, n: nat, i: nat)
    requires SortedUpTo(E, n) && 2 <= |s| <= i < n
    requires PickedFrom(s, picks, E, i) && picks[0] == 0
    requires Encloses(s, E, i) && Pending(s, picks, E, i)
    requires !LeftOfEdge(s, |s| - 2, E[i].pos)
    ensures |s| > 2
    ensures Pending(s[..|s| - 1], picks[..|picks| - 1], E, i)
  {
    var o, c := E[0].pos, E[i].pos;
    var a, b, pa, pb := s[|s| - 2].pos, s[|s| - 1].pos, picks[|picks| - 2], picks[|picks| - 1];
    assert 1 <= pb < i && Precedes(o, b, c);
    assert pa > 0;
    assert Precedes(o, E[pa].pos, E[pb].pos) && Precedes(o, E[pa].pos, c);
    var s', picks' := s[..|s| - 1], picks[..|picks| - 1];
    forall j | 0 <= j < i
      ensures PendingAt(s', picks', E, i, j)
    {
      if pa < j {
        assert Precedes(o, E[pa].pos, E[j].pos);
        assert LeftOfEdge(s, |s| - 2, E[j].pos);
        assert PendingAt(s, picks, E, i, j);
        if j <= pb {
          PopKeepsBetween(o, a, b, c, E[j].pos);
        } else {
          PopKeepsBeyond(a, b, c, E[j].pos);
        }
      }
    }
  }

  lemma ScanStart(E: seq<Site>, n: nat)
    requires SortedUpTo(E, n) && CollinearTail(E, n)
    ensures ScanState(E, n, 2, E[..2], [0, 1])
  {
    var s := E[..2];
    CcwSymmetries(E[0].pos, E[1].pos, E[1].pos);
    CcwSymmetries(E[0].pos, E[0].pos, E[1].pos);
    assert LeftOfEdge(s, 0, E[0].pos) && LeftOfEdge(s, 0, E[1].pos);
    assert Encloses(s, E, 2);
  }

  /** After a push the first-ray runs read so far are still at the front of the stack. */
  lemma FirstRunKeptAfterPush(s: seq<Site>, E: seq<Site>, n: nat, i: nat)
    requires FirstRunKept(s, E, n, i) && |s| <= i < |E|
    ensures FirstRunKept(s + [E[i]], E, n, i + 1)
  {
    var s' := s + [E[i]];
    forall k: nat | k <= n && k <= i + 1 && FirstRun(E, k)
      ensures k <= |s'| && s'[..k] == E[..k]
    {
      if k == i + 1 {
        assert FirstRun(E, i);
        assert s == E[..i];
        assert s' == E[..i + 1];
      } else {
        assert s'[..k] == s[..k];
      }
    }
  }

  /** A pop never reaches into a first-ray run: that run turns no corner. */
  lemma FirstRunKeptAfterPop(s: seq<Site>, E: seq<Site>, n: nat, i: nat)
    requires FirstRunKept(s, E, n, i) && SortedUpTo(E, n) && 2 <= |s| <= i < n
    requires !LeftOfEdge(s, |s| - 2, E[i].pos)
    ensures FirstRunKept(s[..|s| - 1], E, n, i)
  {
    var s' := s[..|s| - 1];
    forall k: nat | k <= n && k <= i && FirstRun(E, k)
      ensures k <= |s'| && s'[..k] == E[..k]
    {
      if k == |s| {
        FirstRunTurn(s, E, n, i);
      }
      assert s'[..k] == s[..k];
    }
  }

  /** After a push the stack still ends with the part of the closing run read so far. */
  lemma ClosingKeptAfterPush(s: seq<Site>, E: seq<Site>, n: nat, i: nat)
    requires 2 <= |s| <= i < |E| && 1 <= n <= i + 1
    requires n <= i ==> ClosingKept(s, E, n, i)
    ensures ClosingKept(s + [E[i]], E, n, i + 1)
  {
    var s', i' := s + [E[i]], i + 1;
    forall t | n - 1 <= t < i'
      ensures KeptAt(s', E, i', t)
    {
      if t < i {
        assert KeptAt(s, E, i, t);
      }
    }
  }

  /** A push inside the sorted part keeps the invariant. */
  lemma ScanPushSorted(E: seq<Site>, n: nat, i: nat, s: seq<Site>, picks: seq<nat>)
    requires ScanState(E, n, i, s, picks) && i < n
    requires LeftOfEdge(s, |s| - 2, E[i].pos)
    ensures Encloses(s + [E[i]], E, i + 1)
    ensures i + 1 < n ==> Pending(s + [E[i]], picks + [i], E, i + 1)
  {
    var s', picks', i' := s + [E[i]], picks + [i], i + 1;
    ChainSeesNext(s, picks, E, n, i);
    EnclosesNext(s, E, i);
    PushInsideSorted(s, picks, E, n, i);
    EnclosesAfterPush(s, E[i], E, i + 1);
    if i' < n {
      forall j | 0 <= j < i'
        ensures PendingAt(s', picks', E, i', j)
      {
      }
    }
  }

  /** A push on the closing run keeps the invariant. */
  lemma ScanPushClosing(E: seq<Site>, n: nat, i: nat, s: seq<Site>, picks: seq<nat>)
    requires ScanState(E, n, i, s, picks) && n <= i < |E|
    ensures Encloses(s + [E[i]], E, n)
  {
    assert s[|s| - 1] == E[i - 1] by {
      assert KeptAt(s, E, i, i - 1);
    }
    PushOnClosingRun(s, E, n, i);
    EnclosesAfterPush(s, E[i], E, n);
  }

  lemma ScanPush(E: seq<Site>, n: nat, i: nat, s: seq<Site>, picks: seq<nat>)
    requires ScanState(E, n, i, s, picks) && i < |E|
    requires LeftOfEdge(s, |s| - 2, E[i].pos)
    ensures ScanState(E, n, i + 1, s + [E[i]], picks + [i])
  {
    var s' := s + [E[i]];
    ChainAfterPush(s, E[i]);
    PickedAfterPush(s, picks, E, i);
    if i < n {
      ScanPushSorted(E, n, i, s, picks);
    } else {
      ScanPushClosing(E, n, i, s, picks);
    }
    if n <= i + 1 {
      ClosingKeptAfterPush(s, E, n, i);
    }
    FirstRunKeptAfterPush(s, E, n, i);
    assert s'[0] == s[0] && s'[1] == s[1];
  }

  lemma ScanPop(E: seq<Site>, n: nat, i: nat, s: seq<Site>, picks: seq<nat>)
    requires ScanState(E, n, i, s, picks) && i < |E|
    requires !LeftOfEdge(s, |s| - 2, E[i].pos)
    ensures |s| > 2 && ScanState(E, n, i, s[..|s| - 1], picks[..|picks| - 1])
  {
    if i >= n {
      ClosingTurn(s, E, n, i);
    }
    var s' := s[..|s| - 1];
    PopInsideSorted(s, picks, E, n, i);
    ChainAfterPop(s);
    PickedAfterPop(s, picks, E, i);
    EnclosesAfterPop(s, E, i);
    FirstRunKeptAfterPop(s, E, n, i);
    assert s'[0] == s[0] && s'[1] == s[1];
  }

  /**
   One step of the scan: push the next site `E[i]` when it makes no right turn
   with the top two sites of the stack, otherwise pop the top.
   */
  method ScanStep(E: seq<Site>, n: nat, i: nat, stack: seq<Site>, ghost picks: seq<nat>)
    returns (i': nat, stack': seq<Site>, ghost picks': seq<nat>)
    requires ScanState(E, n, i, stack, picks) && i < |E|
    ensures ScanState(E, n, i', stack', picks')
    ensures 2 * (|E| - i') + |stack'| < 2 * (|E| - i) + |stack|
    ensures i' == i + 1 <==> Ccw(stack[|stack| - 2].pos, stack[|stack| - 1].pos, E[i].pos) >= 0.0
    ensures i' == i + 1 ==> stack' == stack + [E[i]]
    ensures i' != i + 1 ==> i' == i && stack' == stack[..|stack| - 1]
  {
    var c := E[i];
    var turn := Ccw(stack[|stack| - 2].pos, stack[|stack| - 1].pos, c.pos);
    if turn >= 0.0 {
      ScanPush(E, n, i, stack, picks);
      i', stack', picks' := i + 1, stack + [c], picks + [i];
    } else {
      ScanPop(E, n, i, stack, picks);
      i', stack', picks' := i, stack[..|stack| - 1], picks[..|picks| - 1];
    }
  }

  /** Once every site is read, the invariant gives what `Scan` promises. */
  lemma ScanEnd(E: seq<Site>, n: nat, s: seq<Site>, picks: seq<nat>)
    requires ScanState(E, n, |E|, s, picks)
    ensures 2 <= |s| <= |E| && s[0] == E[0] && s[1] == E[1]
    ensures LeftTurnChain(s) && PickedFrom(s, picks, E, |E|)
    ensures Encloses(s, E, n) && ClosingKept(s, E, n, |E|) && FirstRunKept(s, E, n, |E|)
  {
  }

  /**
   The stack scan over the extended list `E`: the sorted sites `E[..n]`, then
   the repeated closing run. The source keeps the stack in the prefix
   `ccwP[:resultCount]` of the list itself and only writes below the read
   position `i`, so the stack is modelled as its own sequence and the unread
   suffix as `E[i..]`. A site is pushed when it makes no right turn with the
   top two, otherwise the top is popped. `picks` gives, for each hull site, its
   index in `E`: the hull is a subsequence of `E`.

   The result is the convex hull of the sorted sites: each of them lies left of,
   or on, every hull edge. The sites of the first ray from the pivot are kept
   at the front and the closing run is kept, whole, at the end.
   */
  method Scan(E: seq<Site>, n: nat) returns (hull: seq<Site>, ghost picks: seq<nat>)
    requires SortedUpTo(E, n) && CollinearTail(E, n)
    ensures 2 <= |hull| <= |E|
    ensures hull[0] == E[0] && hull[1] == E[1]
    ensures LeftTurnChain(hull)
    ensures PickedFrom(hull, picks, E, |E|)
    ensures Encloses(hull, E, n)
    ensures ClosingKept(hull, E, n, |E|)
    ensures FirstRunKept(hull, E, n, |E|)
  {
    var stack := E[..2];
    var i := 2;
    picks := [0, 1];
    ScanStart(E, n);
    while i < |E|
      invariant ScanState(E, n, i, stack, picks)
      decreases 2 * (|E| - i) + |stack|
    {
      i, stack, picks := ScanStep(E, n, i, stack, picks);
    }
    ScanEnd(E, n, stack, picks);
    hull := stack;
  }

  /**
   `GrahamScan` after the angular sort: the closing run is repeated, then the
   stack scan runs. The hull starts at the pivot, turns left (or goes straight)
   at every site, holds input sites only, and every input site lies left of,
   or on, each of its edges. Collinear sites are kept in both directions: the
   sites on the first ray from the pivot at the front, going out, and the
   closing run at the end, coming back. The hull is a subsequence of the
   sorted sites followed by their closing run.
   */
  method GrahamScan(P: seq<Site>) returns (hull: seq<Site>)
    requires AngularlySorted(P)
    ensures 2 <= |hull| <= 2 * |P| - 2
    ensures hull[0] == P[0] && hull[1] == P[1]
    ensures LeftTurnChain(hull)
    ensures forall s :: s in hull ==> s in P
    ensures Encloses(hull, P, |P|)
    ensures forall k: nat :: FirstRun(P, k) ==> k <= |hull| && hull[..k] == P[..k]
    ensures exists t: nat :: EndsWithClosingRun(hull, P, t)
    ensures exists E: seq<Site> :: ClosingExtension(P, E) && SubsequenceOf(hull, E)
  {
    var E := RepeatCollinearTail(P);
    var n := |P|;
    ExtendedList(P, E);
    ghost var picks;
    hull, picks := Scan(E, n);
    HullFromInputs(P, E, hull, picks);
    HullEnclosesInputs(P, E, hull);
    FirstRunOfInputs(P, E, hull);
    ClosingRunKept(P, E, hull);
    assert ClosingExtension(P, E);
    assert SubsequenceOf(hull, E);
  }

  /** What `RepeatCollinearTail` returns is the input of `Scan`. */
  lemma ExtendedList(P: seq<Site>, E: seq<Site>)
    requires AngularlySorted(P) && |P| <= |E| <= 2 * |P| - 2 && E[..|P|] == P
    requires forall k :: |P| <= k < |E| ==> E[k] == P[2 * |P| - 2 - k]
    requires forall k :: |P| <= k < |E| ==> Ccw(P[0].pos, E[k].pos, P[|P| - 1].pos) == 0.0
    ensures SortedUpTo(E, |P|) && CollinearTail(E, |P|)
  {
    var n := |P|;
    assert forall k :: 0 <= k < n ==> E[k] == P[k];
    forall k | n <= k < |E|
      ensures RepeatsOnClosingRay(E, n, k)
    {
      assert E[2 * n - 2 - k] == P[2 * n - 2 - k];
    }
  }

  lemma FirstRunOfInputs(P: seq<Site>, E: seq<Site>, hull: seq<Site>)
    requires |P| <= |E| && E[..|P|] == P && FirstRunKept(hull, E, |P|, |E|)
    ensures forall k: nat :: FirstRun(P, k) ==> k <= |hull| && hull[..k] == P[..k]
  {
    forall k: nat | FirstRun(P, k)
      ensures k <= |hull| && hull[..k] == P[..k]
    {
      forall t | 1 <= t && t + 1 < k
        ensures StaysOnRay(E, t)
      {
        assert StaysOnRay(P, t);
        assert E[0] == P[0] && E[t] == P[t] && E[t + 1] == P[t + 1];
      }
      assert E[..k] == P[..k];
    }
  }

  lemma HullEnclosesInputs(P: seq<Site>, E: seq<Site>, hull: seq<Site>)
    requires |P| <= |E| && E[..|P|] == P && Encloses(hull, E, |P|)
    ensures Encloses(hull, P, |P|)
  {
    forall j, k | 0 <= j < |P| && 0 <= k < |hull| - 1
      ensures LeftOfEdge(hull, k, P[j].pos)
    {
      assert E[j] == P[j];
      assert LeftOfEdge(hull, k, E[j].pos);
    }
  }

  lemma HullFromInputs(P: seq<Site>, E: seq<Site>, hull: seq<Site>, picks: seq<nat>)
    requires |P| >= 2 && |P| <= |E| && E[..|P|] == P && CollinearTail(E, |P|)
    requires PickedFrom(hull, picks, E, |E|)
    ensures forall s :: s in hull ==> s in P
  {
    var n := |P|;
    forall s | s in hull
      ensures s in P
    {
      var k :| 0 <= k < |hull| && hull[k] == s;
      var e := picks[k];
      if e >= n {
        assert RepeatsOnClosingRay(E, n, e);
        e := 2 * n - 2 - e;
      }
      assert s == E[e] && E[e] == P[e];
    }
  }

  lemma ClosingRunKept(P: seq<Site>, E: seq<Site>, hull: seq<Site>)
    requires |P| >= 2 && |P| <= |E| <= 2 * |P| - 2 && E[..|P|] == P
    requires forall k :: |P| <= k < |E| ==> E[k] == P[2 * |P| - 2 - k]
    requires forall k :: |P| <= k < |E| ==> Ccw(P[0].pos, E[k].pos, P[|P| - 1].pos) == 0.0
    requires |E| < 2 * |P| - 2 ==> Ccw(P[0].pos, P[2 * |P| - 2 - |E|].pos, P[|P| - 1].pos) != 0.0
    requires ClosingKept(hull, E, |P|, |E|)
    ensures exists t: nat :: EndsWithClosingRun(hull, P, t)
  {
    var n, t := |P|, |E| - |P|;
    forall j | n - 1 - t <= j < n - 1
      ensures OnClosingLine(P, j)
    {
      assert E[2 * n - 2 - j] == P[j];
    }
    assert ClosingRun(P, t);
    forall j | n - 1 - t <= j < n
      ensures hull[|hull| + n - 2 - t - j] == P[j]
    {
      var e := 2 * n - 2 - j;
      if j == n - 1 {
        e := n - 1;
      }
      assert KeptAt(hull, E, |E|, e);
      assert E[e] == P[j];
    }
    assert EndsWithClosingRun(hull, P, t);
  }
}
