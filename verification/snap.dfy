/**
 * Nearest-slide selection used when a carousel scroll settles and when a drag
 * ends (script.js, lines 242-244 and 276-278). The carousel builds one
 * candidate per slide holding its index and its distance to the current
 * scroll position, sorts the candidates by distance with the host's sort
 * (stable since ECMAScript 2019) and takes the index of the first one.
 *
 * Slide centre positions are abstract integers: the pixel layout that
 * produces them is not modelled.
 */
module Snap {

  /** One entry of the list built per slide: its index and its distance to the scroll position. */
  datatype Candidate = Candidate(i: nat, dist: nat)

  function Abs(x: int): nat
  {
    if x < 0 then -x else x
  }

  /** Distance between the scroll position and the centre of slide `i` (lines 242, 276). */
  function Distance(centers: seq<int>, scrollLeft: int, i: nat): nat
    requires i < |centers|
  {
    Abs(scrollLeft - centers[i])
  }

  /** One candidate per slide, in slide order, with its distance (lines 242, 276). */
  function Candidates(centers: seq<int>, scrollLeft: int): (cs: seq<Candidate>)
    ensures |cs| == |centers|
    ensures forall k :: 0 <= k < |cs| ==> cs[k].i == k && cs[k].dist == Distance(centers, scrollLeft, k)
  {
    seq(|centers|, k requires 0 <= k < |centers| => Candidate(k, Distance(centers, scrollLeft, k)))
  }

  /** `a` sorts strictly before `b` by distance, ties broken by the lower slide index. */
  predicate Before(a: Candidate, b: Candidate)
  {
    a.dist < b.dist || (a.dist == b.dist && a.i < b.i)
  }

  /** Every candidate sorts strictly before every later one. */
  predicate LexSorted(cs: seq<Candidate>)
  {
    forall j, k :: 0 <= j < k < |cs| ==> Before(cs[j], cs[k])
  }

  /** Indices strictly increase along the sequence, as they do in the list the carousel builds. */
  predicate IndexOrdered(cs: seq<Candidate>)
  {
    forall j, k :: 0 <= j < k < |cs| ==> cs[j].i < cs[k].i
  }

  /** Inserts `c` in front of the first element that is not closer than it (so ahead of equal distances). */
  function Insert(c: Candidate, ys: seq<Candidate>): (r: seq<Candidate>)
    ensures multiset(r) == multiset(ys) + multiset{c}
    ensures |r| == |ys| + 1
  {
    if |ys| == 0 || c.dist <= ys[0].dist then [c] + ys
    else
      assert ys == [ys[0]] + ys[1..];
      [ys[0]] + Insert(c, ys[1..])
  }

  /** The sort by ascending distance (lines 243, 277), as a stable insertion sort. */
  function SortByDist(cs: seq<Candidate>): (r: seq<Candidate>)
    ensures multiset(r) == multiset(cs)
    ensures |r| == |cs|
  {
    if |cs| == 0 then []
    else
      assert cs == [cs[0]] + cs[1..];
      Insert(cs[0], SortByDist(cs[1..]))
  }

  /** `k` is the slide closest to `scrollLeft`, and no lower slide is as close. */
  predicate IsFirstNearest(centers: seq<int>, scrollLeft: int, k: int)
  {
    && 0 <= k < |centers|
    && (forall j :: 0 <= j < |centers| ==> Distance(centers, scrollLeft, k) <= Distance(centers, scrollLeft, j))
    && (forall j :: 0 <= j < k ==> Distance(centers, scrollLeft, k) < Distance(centers, scrollLeft, j))
  }

  /** The index of the first candidate after the sort (lines 244, 278): the slide the carousel snaps to. */
  function SnapIndex(centers: seq<int>, scrollLeft: int): (k: nat)
    requires |centers| >= 1
    ensures IsFirstNearest(centers, scrollLeft, k)
  {
    var cs := Candidates(centers, scrollLeft);
    SortedCandidatesHeadIsFirstNearest(centers, scrollLeft);
    SortByDist(cs)[0].i
  }

  lemma {:induction false} InsertKeepsLexSorted(c: Candidate, ys: seq<Candidate>)
    requires LexSorted(ys)
    requires forall y :: y in ys ==> c.i < y.i
    ensures LexSorted(Insert(c, ys))
    decreases |ys|
  {
    if |ys| == 0 || c.dist <= ys[0].dist {
      var r := [c] + ys;
      forall j, k | 0 <= j < k < |r| ensures Before(r[j], r[k]) {
        if j == 0 {
          assert r[k] == ys[k - 1] && r[k] in ys;
          if k - 1 > 0 {
            assert Before(ys[0], ys[k - 1]);
          }
        } else {
          assert r[j] == ys[j - 1] && r[k] == ys[k - 1];
        }
      }
    } else {
      var tail := Insert(c, ys[1..]);
      assert LexSorted(ys[1..]) by {
        forall j, k | 0 <= j < k < |ys[1..]| ensures Before(ys[1..][j], ys[1..][k]) {
          assert ys[1..][j] == ys[j + 1] && ys[1..][k] == ys[k + 1];
        }
      }
      forall y | y in ys[1..] ensures c.i < y.i {
        assert y in ys;
      }
      InsertKeepsLexSorted(c, ys[1..]);
      var r := [ys[0]] + tail;
      forall j, k | 0 <= j < k < |r| ensures Before(r[j], r[k]) {
        if j == 0 {
          var x := r[k];
          assert x == tail[k - 1];
          assert x in multiset(tail);
          assert x in multiset(ys[1..]) || x == c;
          if x != c {
            assert x in ys[1..];
            var m :| 0 <= m < |ys[1..]| && ys[1..][m] == x;
            assert x == ys[m + 1];
            assert Before(ys[0], ys[m + 1]);
          }
        } else {
          assert r[j] == tail[j - 1] && r[k] == tail[k - 1];
        }
      }
    }
  }

  lemma {:induction false} SortByDistLexSorted(cs: seq<Candidate>)
    requires IndexOrdered(cs)
    ensures LexSorted(SortByDist(cs))
    decreases |cs|
  {
    if |cs| > 0 {
      var rest := cs[1..];
      assert IndexOrdered(rest) by {
        forall j, k | 0 <= j < k < |rest| ensures rest[j].i < rest[k].i {
          assert rest[j] == cs[j + 1] && rest[k] == cs[k + 1];
        }
      }
      SortByDistLexSorted(rest);
      var sorted := SortByDist(rest);
      forall y | y in sorted ensures cs[0].i < y.i {
        assert y in multiset(sorted);
        assert y in multiset(rest);
        assert y in rest;
        var m :| 0 <= m < |rest| && rest[m] == y;
        assert y == cs[m + 1];
      }
      InsertKeepsLexSorted(cs[0], sorted);
    }
  }

  /**
   * The head of the sorted candidate list is the first nearest slide: the
   * stable sort sends ties to the lowest index.
   */
  lemma SortedCandidatesHeadIsFirstNearest(centers: seq<int>, scrollLeft: int)
    requires |centers| >= 1
    ensures var r := SortByDist(Candidates(centers, scrollLeft));
            |r| == |centers| && IsFirstNearest(centers, scrollLeft, r[0].i)
  {
    var cs := Candidates(centers, scrollLeft);
    SortByDistLexSorted(cs);
    var r := SortByDist(cs);
    assert r[0] in multiset(cs);
    assert r[0] in cs;
    var h :| 0 <= h < |cs| && cs[h] == r[0];
    forall j | 0 <= j < |centers|
      ensures Distance(centers, scrollLeft, h) <= Distance(centers, scrollLeft, j)
      ensures j < h ==> Distance(centers, scrollLeft, h) < Distance(centers, scrollLeft, j)
    {
      if j != h {
        assert cs[j] in multiset(r);
        assert cs[j] in r;
        var m :| 0 <= m < |r| && r[m] == cs[j];
        assert m != 0;
        assert Before(r[0], r[m]);
      }
    }
  }

  /** There is only one first nearest slide, so the snap target is fully determined. */
  lemma FirstNearestUnique(centers: seq<int>, scrollLeft: int, a: int, b: int)
    requires IsFirstNearest(centers, scrollLeft, a)
    requires IsFirstNearest(centers, scrollLeft, b)
    ensures a == b
  {
    assert Distance(centers, scrollLeft, a) == Distance(centers, scrollLeft, b);
  }

  /** Centre positions strictly increase with the slide index. */
  predicate StrictlyIncreasing(centers: seq<int>)
  {
    forall j, k :: 0 <= j < k < |centers| ==> centers[j] < centers[k]
  }

  /** When the track rests exactly on slide `k`'s centre and centres are distinct, the snap keeps `k`. */
  lemma SnapAtCentre(centers: seq<int>, k: nat)
    requires k < |centers|
    requires StrictlyIncreasing(centers)
    ensures SnapIndex(centers, centers[k]) == k
  {
    assert Distance(centers, centers[k], k) == 0;
  }
}
