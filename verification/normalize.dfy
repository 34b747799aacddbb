/**
 Input normalisation before the divide-and-conquer construction: the site list
 is sorted by `Point.__lt__` and equal sites are dropped by an in-place
 compaction (`WorkerThread.voronoi`).
 */
module Normalize {
  import opened Options
  import opened Geometry
  import Sorting

  /** `a` may precede `b` in a list sorted by `Point.__lt__`. */
  predicate NotAfter(a: Point, b: Point)
  {
    !Less(b, a)
  }

  lemma NotAfterIsTotalPreorder()
    ensures Sorting.Total(NotAfter)
    ensures Sorting.Transitive(NotAfter)
  {
    forall a, b, c | NotAfter(a, b) && NotAfter(b, c)
      ensures NotAfter(a, c)
    {
      LessIsStrictTotalOrder(a, b, c);
    }
  }

  /** Every point is `Less` than every later point; in particular no point repeats. */
  predicate StrictlyIncreasing(s: seq<Point>)
  {
    forall i, j :: 0 <= i < j < |s| ==> Less(s[i], s[j])
  }

  /** Sort then compact. No sites: nothing is computed. */
  method Normalize(P: seq<Point>) returns (r: Option<seq<Point>>)
    ensures r.None? <==> |P| == 0
    ensures r.Some? ==> StrictlyIncreasing(r.value)
    ensures r.Some? ==> forall q :: q in r.value <==> q in P
  {
    if |P| == 0 {
      return None;
    }
    NotAfterIsTotalPreorder();
    var s := Sorting.SortBy(P, NotAfter);
    forall q
      ensures q in s <==> q in P
    {
      assert q in s <==> q in multiset(s);
      assert q in P <==> q in multiset(P);
    }
    var c := Compact(s);
    r := Some(c);
  }

  /**
   The in-place compaction of a sorted, non-empty list: an entry is kept when it
   differs from the last kept one. The result keeps exactly the points of `s`,
   each once, in increasing order.
   */
  method Compact(s: seq<Point>) returns (r: seq<Point>)
    requires |s| > 0
    requires Sorting.SortedBy(s, NotAfter)
    ensures StrictlyIncreasing(r)
    ensures forall q :: q in r <==> q in s
    ensures 0 < |r| <= |s| && r[0] == s[0]
  {
    var p := s;
    var count := 1;
    var i := 1;
    while i < |p|
      invariant |p| == |s|
      invariant 1 <= count <= i <= |s|
      invariant p[i..] == s[i..]
      invariant p[0] == s[0]
      invariant p[count - 1] == s[i - 1]
      invariant StrictlyIncreasing(p[..count])
      invariant forall q :: q in p[..count] <==> q in s[..i]
    {
      assert p[i] == s[i];
      if p[i] != p[count - 1] {
        assert Less(p[count - 1], p[i]) by {
          assert NotAfter(s[i - 1], s[i]);
          LessIsStrictTotalOrder(s[i - 1], s[i], s[i]);
        }
        forall k | 0 <= k < count
          ensures Less(p[k], p[i])
        {
          LessIsStrictTotalOrder(p[k], p[count - 1], p[i]);
        }
        ghost var kept := p[..count];
        p := p[count := p[i]];
        assert p[..count + 1] == kept + [s[i]];
        count := count + 1;
      } else {
        assert s[i] in p[..count];
      }
      assert s[..i + 1] == s[..i] + [s[i]];
      i := i + 1;
    }
    assert s[..i] == s;
    r := p[..count];
  }

  /**
   A strictly increasing list is determined by its set of points. With
   `Normalize`'s contract this makes the normalised list a function of the set
   of input sites alone: repeating a site or permuting the input changes nothing.
   */
  lemma {:induction false} StrictlyIncreasingIsUnique(a: seq<Point>, b: seq<Point>)
    requires StrictlyIncreasing(a) && StrictlyIncreasing(b)
    requires forall q :: q in a <==> q in b
    ensures a == b
    decreases |a|
  {
    assert |a| > 0 ==> a[0] in a;
    assert |b| > 0 ==> b[0] in b;
    if |a| == 0 || |b| == 0 {
      return;
    }
    if a[0] != b[0] {
      assert b[0] in a;
      var k :| 0 <= k < |a| && a[k] == b[0];
      assert a[0] in b;
      var m :| 0 <= m < |b| && b[m] == a[0];
      LessIsStrictTotalOrder(a[0], b[0], a[0]);
      assert false;
    }
    forall q
      ensures q in a[1..] <==> q in b[1..]
    {
      if q in a[1..] {
        var k :| 1 <= k < |a| && a[k] == q;
        LessIsStrictTotalOrder(a[0], q, q);
        assert q in b;
      }
      if q in b[1..] {
        var k :| 1 <= k < |b| && b[k] == q;
        LessIsStrictTotalOrder(b[0], q, q);
        assert q in a;
      }
    }
    StrictlyIncreasingIsUnique(a[1..], b[1..]);
    assert a == [a[0]] + a[1..] && b == [b[0]] + b[1..];
  }
}
