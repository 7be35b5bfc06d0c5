/**
 * The 2-D line layout of a glider: nodes (lower attachment points on the
 * pilot side, upper attachment points on the ribs, free batch points in
 * between) joined by line records, and the depth-first walk that turns
 * every line so that its lower point faces a lower attachment point.
 *
 * None of the node classes defines equality, so two node references are
 * equal only when they are the same object. A `Node` value carries a `ref`
 * tag standing for that object; two values are equal exactly when they are
 * the same object. The same holds for `Line2D`.
 */
module LineNetwork {
  import opened Wrappers

  /** What kind of node an object is, with the data it stores. */
  datatype NodeKind =
    | LowerAttachment(pos: seq<real>, pos3D: seq<real>)
    | UpperAttachment(ribNo: int, position: real, force: real)
    | BatchPoint(pos2D: seq<real>)

  datatype Node = Node(ref: nat, kind: NodeKind)

  /** A line record: two endpoint references, an optional target length
      and the flag the sorting walk sets. */
  datatype Line2D = Line2D(
    ref: nat,
    upperPoint: Node,
    lowerPoint: Node,
    targetLength: Option<real>,
    isSorted: bool)

  predicate Touches(l: Line2D, n: Node) {
    l.upperPoint == n || l.lowerPoint == n
  }

  /** b is the same line object as a, possibly turned round or marked. */
  predicate SameLine(a: Line2D, b: Line2D) {
    a.ref == b.ref && a.targetLength == b.targetLength &&
    ((a.upperPoint == b.upperPoint && a.lowerPoint == b.lowerPoint) ||
     (a.upperPoint == b.lowerPoint && a.lowerPoint == b.upperPoint))
  }

  /** No line object is listed twice. */
  predicate DistinctRefs(ls: seq<Line2D>) {
    forall i, j :: 0 <= i < j < |ls| ==> ls[i].ref != ls[j].ref
  }

  /** The number of lines not yet marked sorted. */
  function Unsorted(ls: seq<Line2D>): nat {
    if ls == [] then 0 else (if ls[0].isSorted then 0 else 1) + Unsorted(ls[1..])
  }

  /** Marking one unsorted line lowers the count by exactly one. */
  lemma {:induction false} UnsortedMark(ls: seq<Line2D>, i: nat, l: Line2D)
    requires i < |ls| && !ls[i].isSorted && l.isSorted
    ensures Unsorted(ls[i := l]) == Unsorted(ls) - 1
  {
    if i > 0 {
      UnsortedMark(ls[1..], i - 1, l);
      assert ls[i := l][1..] == ls[1..][i - 1 := l];
    }
  }

  /** The swap followed by the mark: a line touching n is turned so that
      its lower point is n, and marked sorted. */
  function Orient(l: Line2D, n: Node): (r: Line2D)
    requires Touches(l, n)
    ensures r.lowerPoint == n && r.isSorted && SameLine(r, l)
  {
    var turned := if l.upperPoint == n
      then l.(upperPoint := l.lowerPoint, lowerPoint := l.upperPoint)
      else l;
    turned.(isSorted := true)
  }

  /**
   * The lines after the walk from node n has looked at lines i, i+1, ...
   * (the walk over the whole list is SortFrom(ls, n, 0)). Each unsorted
   * line touching n is oriented and marked, and the walk first descends
   * from that line's upper point over the whole list before going on.
   */
  function SortFrom(ls: seq<Line2D>, n: Node, i: nat): (r: seq<Line2D>)
    requires i <= |ls|
    ensures |r| == |ls|
    ensures forall k :: 0 <= k < |ls| ==> SameLine(r[k], ls[k])
    ensures forall k :: 0 <= k < |ls| && ls[k].isSorted ==> r[k] == ls[k]
    ensures forall k :: 0 <= k < |ls| && !r[k].isSorted ==> r[k] == ls[k]
    ensures Unsorted(r) <= Unsorted(ls)
    decreases Unsorted(ls), |ls| - i
  {
    if i == |ls| then ls
    else if !ls[i].isSorted && Touches(ls[i], n) then
      var fixed := ls[i := Orient(ls[i], n)];
      UnsortedMark(ls, i, fixed[i]);
      var deeper := SortFrom(fixed, fixed[i].upperPoint, 0);
      SortFrom(deeper, n, i + 1)
    else
      SortFrom(ls, n, i + 1)
  }

  /** Line k was unsorted before and is sorted after. */
  predicate NewlySorted(before: seq<Line2D>, after: seq<Line2D>, k: int) {
    0 <= k < |before| && k < |after| && !before[k].isSorted && after[k].isSorted
  }

  /**
   * The walk is closed: every line at or after i touching n ends sorted,
   * and every line touching the upper point of a line the walk sorted ends
   * sorted too (so the walk reaches all lines reachable through unsorted
   * lines).
   */
  lemma {:induction false} SortFromCloses(ls: seq<Line2D>, n: Node, i: nat)
    requires i <= |ls|
    ensures forall k :: i <= k < |ls| && Touches(ls[k], n) ==> SortFrom(ls, n, i)[k].isSorted
    ensures forall j, k ::
      (NewlySorted(ls, SortFrom(ls, n, i), j) && 0 <= k < |ls| &&
       Touches(ls[k], SortFrom(ls, n, i)[j].upperPoint)) ==> SortFrom(ls, n, i)[k].isSorted
    decreases Unsorted(ls), |ls| - i
  {
    var r := SortFrom(ls, n, i);
    if i == |ls| {
    } else if !ls[i].isSorted && Touches(ls[i], n) {
      var fixed := ls[i := Orient(ls[i], n)];
      UnsortedMark(ls, i, fixed[i]);
      var up := fixed[i].upperPoint;
      var deeper := SortFrom(fixed, up, 0);
      assert r == SortFrom(deeper, n, i + 1);
      SortFromCloses(fixed, up, 0);
      SortFromCloses(deeper, n, i + 1);
      forall j, k | NewlySorted(ls, r, j) && 0 <= k < |ls| && Touches(ls[k], r[j].upperPoint)
        ensures r[k].isSorted
      {
        if k != i {
          assert Touches(fixed[k], r[j].upperPoint);
          if j == i {
            assert r[j] == fixed[i];
          } else if deeper[j].isSorted {
            assert NewlySorted(fixed, deeper, j) && r[j] == deeper[j];
          } else {
            assert NewlySorted(deeper, r, j);
            assert Touches(deeper[k], r[j].upperPoint);
          }
        }
      }
      forall k | i <= k < |ls| && Touches(ls[k], n)
        ensures r[k].isSorted
      {
        if k != i {
          assert Touches(deeper[k], n);
        }
      }
    } else {
      SortFromCloses(ls, n, i + 1);
    }
  }

  /**
   * The walk orients the lines it sorts as a forest hanging from n: every
   * line it sorted has n as its lower point, or its lower point is the
   * upper point of another line it sorted.
   */
  lemma {:induction false} SortFromOrients(ls: seq<Line2D>, n: Node, i: nat)
    requires i <= |ls|
    ensures forall k :: NewlySorted(ls, SortFrom(ls, n, i), k) ==>
      SortFrom(ls, n, i)[k].lowerPoint == n ||
      exists j :: NewlySorted(ls, SortFrom(ls, n, i), j) && j != k &&
        SortFrom(ls, n, i)[j].upperPoint == SortFrom(ls, n, i)[k].lowerPoint
    decreases Unsorted(ls), |ls| - i
  {
    var r := SortFrom(ls, n, i);
    if i == |ls| {
    } else if !ls[i].isSorted && Touches(ls[i], n) {
      var fixed := ls[i := Orient(ls[i], n)];
      UnsortedMark(ls, i, fixed[i]);
      var up := fixed[i].upperPoint;
      var deeper := SortFrom(fixed, up, 0);
      assert r == SortFrom(deeper, n, i + 1);
      SortFromOrients(fixed, up, 0);
      SortFromOrients(deeper, n, i + 1);
      forall k | NewlySorted(ls, r, k)
        ensures r[k].lowerPoint == n ||
          exists j :: NewlySorted(ls, r, j) && j != k && r[j].upperPoint == r[k].lowerPoint
      {
        if k == i {
          assert r[k] == fixed[i];
        } else if deeper[k].isSorted {
          assert NewlySorted(fixed, deeper, k) && r[k] == deeper[k];
          if deeper[k].lowerPoint == up {
            assert NewlySorted(ls, r, i) && r[i] == fixed[i];
          } else {
            var j :| NewlySorted(fixed, deeper, j) && j != k &&
              deeper[j].upperPoint == deeper[k].lowerPoint;
            assert r[j] == deeper[j];
            assert NewlySorted(ls, r, j);
          }
        } else {
          assert NewlySorted(deeper, r, k);
          if r[k].lowerPoint != n {
            var j :| NewlySorted(deeper, r, j) && j != k && r[j].upperPoint == r[k].lowerPoint;
            assert NewlySorted(ls, r, j);
          }
        }
      }
    } else {
      SortFromOrients(ls, n, i + 1);
    }
  }
}
