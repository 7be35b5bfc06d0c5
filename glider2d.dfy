/**
 * The parametric 2-D glider: its outline curves are given by control
 * points, the cell distribution says where along the half span the ribs
 * sit, and the arc says how the ribs are bent round. The model covers the
 * list and arithmetic parts: rescaling the span, the cell-distribution
 * control points, the schedule of sample parameters, one arc angle per arc
 * point, inserting the middle rib, one cell per pair of neighbouring ribs,
 * and the mirroring of a half outline.
 */
module Gliders {
  import opened Wrappers
  import opened LineNetwork
  import opened LineSets

  datatype Point2 = Point2(x: real, y: real)

  function Minus(a: Point2, b: Point2): Point2 { Point2(a.x - b.x, a.y - b.y) }
  function Plus(a: Point2, b: Point2): Point2 { Point2(a.x + b.x, a.y + b.y) }

  /** The point mirrored at the glider's middle plane x = 0. */
  function Flip(p: Point2): Point2 { Point2(-p.x, p.y) }

  datatype GliderError =
    | IndexOutOfRange           // IndexError on an empty or too short list
    | ZeroDivision              // ZeroDivisionError
    | NegativeSampleCount(num: int)  // ValueError from linspace
    | Lineset(cause: LineSetError)

  // ---------------------------------------------------------------------
  // Rescaling the span

  /**
   * The control points stretched along x so that the last one sits at
   * x = span: every x is multiplied by the same factor, every y is kept.
   * An empty list has no last point; a last point at x = 0 cannot be
   * stretched.
   */
  function Rescale(ps: seq<Point2>, span: real): (r: Result<seq<Point2>, GliderError>)
    ensures r.Ok? <==> ps != [] && ps[|ps| - 1].x != 0.0
    ensures ps == [] ==> r == Err(IndexOutOfRange)
    ensures ps != [] && ps[|ps| - 1].x == 0.0 ==> r == Err(ZeroDivision)
    ensures r.Ok? ==> |r.value| == |ps| && r.value[|ps| - 1].x == span
    ensures r.Ok? ==> forall k :: 0 <= k < |ps| ==> r.value[k].y == ps[k].y
    ensures r.Ok? ==> forall j, k :: 0 <= j < |ps| && 0 <= k < |ps| ==>
      r.value[j].x * ps[k].x == r.value[k].x * ps[j].x
  {
    if ps == [] then Err(IndexOutOfRange)
    else if ps[|ps| - 1].x == 0.0 then Err(ZeroDivision)
    else
      var factor := span / ps[|ps| - 1].x;
      var r := seq(|ps|, k requires 0 <= k < |ps| => Point2(ps[k].x * factor, ps[k].y));
      assert r[|ps| - 1].x == span by {
        DivideThenMultiply(span, ps[|ps| - 1].x);
      }
      assert forall j, k :: 0 <= j < |ps| && 0 <= k < |ps| ==> r[j].x * ps[k].x == r[k].x * ps[j].x by {
        forall j, k | 0 <= j < |ps| && 0 <= k < |ps|
          ensures r[j].x * ps[k].x == r[k].x * ps[j].x
        {
          SameFactor(ps[j].x, ps[k].x, factor);
        }
      }
      Ok(r)
  }

  lemma DivideThenMultiply(s: real, d: real)
    requires d != 0.0
    ensures d * (s / d) == s
  {
  }

  lemma SameFactor(a: real, b: real, f: real)
    ensures (a * f) * b == (b * f) * a
  {
  }

  /**
   * Rescaling what was rescaled to a non-zero span to the same span
   * changes nothing; after rescaling to span 0 the last point sits at
   * x = 0, so any further rescaling fails.
   */
  lemma RescaleAgain(ps: seq<Point2>, span: real, other: real)
    requires Rescale(ps, span).Ok?
    ensures span != 0.0 ==> Rescale(Rescale(ps, span).value, span) == Rescale(ps, span)
    ensures span == 0.0 ==> Rescale(Rescale(ps, span).value, other) == Err(ZeroDivision)
  {
    var q := Rescale(ps, span).value;
    if span != 0.0 {
      var q2 := Rescale(q, span).value;
      assert span / q[|q| - 1].x == 1.0;
      assert forall k :: 0 <= k < |q| ==> q2[k] == q[k];
      assert q2 == q;
    }
  }

  /** The control points of the four curves the span rescaling touches. */
  datatype SpanCurves = SpanCurves(back: seq<Point2>, front: seq<Point2>, cellDist: seq<Point2>, aoa: seq<Point2>)

  datatype CurveName = BackCurve | FrontCurve | CellDistCurve | AoaCurve

  function Get(c: SpanCurves, n: CurveName): seq<Point2> {
    match n
    case BackCurve => c.back
    case FrontCurve => c.front
    case CellDistCurve => c.cellDist
    case AoaCurve => c.aoa
  }

  function Put(c: SpanCurves, n: CurveName, ps: seq<Point2>): SpanCurves {
    match n
    case BackCurve => c.(back := ps)
    case FrontCurve => c.(front := ps)
    case CellDistCurve => c.(cellDist := ps)
    case AoaCurve => c.(aoa := ps)
  }

  /** The order in which the span rescaling visits the curves. */
  function SpanOrder(): seq<CurveName> {
    [BackCurve, FrontCurve, CellDistCurve, AoaCurve]
  }

  /**
   * Rescaling the named curves in order, stopping at the first that fails;
   * curves rescaled before the failure stay rescaled.
   */
  function RescaleEach(c: SpanCurves, names: seq<CurveName>, span: real): (Option<GliderError>, SpanCurves)
    decreases |names|
  {
    if names == [] then (None, c)
    else
      var before := RescaleEach(c, names[..|names| - 1], span);
      if before.0.Some? then before
      else
        var n := names[|names| - 1];
        match Rescale(Get(before.1, n), span)
        case Err(e) => (Some(e), before.1)
        case Ok(ps) => (None, Put(before.1, n, ps))
  }

  /** Once a prefix of the names fails, the rest are not looked at. */
  lemma {:induction false} RescaleEachStops(c: SpanCurves, names: seq<CurveName>, span: real, j: nat)
    requires j <= |names| && RescaleEach(c, names[..j], span).0.Some?
    ensures RescaleEach(c, names, span) == RescaleEach(c, names[..j], span)
    decreases |names| - j
  {
    if j < |names| {
      assert names[..j + 1][..j] == names[..j];
      assert RescaleEach(c, names[..j + 1], span) == RescaleEach(c, names[..j], span);
      RescaleEachStops(c, names, span, j + 1);
    } else {
      assert names[..j] == names;
    }
  }

  /**
   * When rescaling distinct curves succeeds, each named curve is its own
   * rescaling and every other curve is unchanged.
   */
  lemma {:induction false} RescaleEachSpec(c: SpanCurves, names: seq<CurveName>, span: real)
    requires forall i, j :: 0 <= i < j < |names| ==> names[i] != names[j]
    requires RescaleEach(c, names, span).0.None?
    ensures forall n :: n in names ==>
      Rescale(Get(c, n), span).Ok? && Get(RescaleEach(c, names, span).1, n) == Rescale(Get(c, n), span).value
    ensures forall n :: n !in names ==> Get(RescaleEach(c, names, span).1, n) == Get(c, n)
    decreases |names|
  {
    if names != [] {
      var init := names[..|names| - 1];
      var last := names[|names| - 1];
      var before := RescaleEach(c, init, span);
      assert before.0.None?;
      RescaleEachSpec(c, init, span);
      assert last !in init;
      var ps := Rescale(Get(before.1, last), span).value;
      assert RescaleEach(c, names, span).1 == Put(before.1, last, ps);
      forall n | n in names
        ensures Rescale(Get(c, n), span).Ok? && Get(RescaleEach(c, names, span).1, n) == Rescale(Get(c, n), span).value
      {
        GetPut(before.1, last, ps, n);
        if n != last {
          assert n in init;
        }
      }
      forall n | n !in names ensures Get(RescaleEach(c, names, span).1, n) == Get(c, n) {
        GetPut(before.1, last, ps, n);
      }
    }
  }

  lemma GetPut(c: SpanCurves, m: CurveName, ps: seq<Point2>, n: CurveName)
    ensures Get(Put(c, m, ps), n) == if n == m then ps else Get(c, n)
  {
  }

  /**
   * A successful span rescaling puts the last control point of all four
   * curves at x = span and keeps their sizes and y values.
   */
  lemma SetSpanPutsTipsAtSpan(c: SpanCurves, span: real)
    requires RescaleEach(c, SpanOrder(), span).0.None?
    ensures TipsAtSpan(c, RescaleEach(c, SpanOrder(), span).1, span)
  {
    var names := SpanOrder();
    assert forall i, j :: 0 <= i < j < |names| ==> names[i] != names[j];
    assert BackCurve in names && FrontCurve in names && CellDistCurve in names && AoaCurve in names;
    AllTipsAtSpan(c, names, span);
  }

  /** qs is ps with the last x moved to the span: same size, same y values,
      last control point at x = span. */
  predicate TipAtSpan(ps: seq<Point2>, qs: seq<Point2>, span: real) {
    |qs| == |ps| && qs != [] && qs[|qs| - 1].x == span &&
    forall k :: 0 <= k < |ps| ==> qs[k].y == ps[k].y
  }

  /** All four curves of d are those of c with their tips moved to the span. */
  predicate TipsAtSpan(c: SpanCurves, d: SpanCurves, span: real) {
    TipAtSpan(c.back, d.back, span) && TipAtSpan(c.front, d.front, span) &&
    TipAtSpan(c.cellDist, d.cellDist, span) && TipAtSpan(c.aoa, d.aoa, span)
  }

  /** Rescaling distinct curves, among them all four, puts all four tips at the span. */
  lemma AllTipsAtSpan(c: SpanCurves, names: seq<CurveName>, span: real)
    requires forall i, j :: 0 <= i < j < |names| ==> names[i] != names[j]
    requires RescaleEach(c, names, span).0.None?
    requires BackCurve in names && FrontCurve in names && CellDistCurve in names && AoaCurve in names
    ensures TipsAtSpan(c, RescaleEach(c, names, span).1, span)
  {
    NamedCurveRescaled(c, names, span, BackCurve);
    NamedCurveRescaled(c, names, span, FrontCurve);
    NamedCurveRescaled(c, names, span, CellDistCurve);
    NamedCurveRescaled(c, names, span, AoaCurve);
  }

  /** One curve of a successful rescaling of distinct curves ends at the span
      and keeps its size and y values. */
  lemma NamedCurveRescaled(c: SpanCurves, names: seq<CurveName>, span: real, n: CurveName)
    requires forall i, j :: 0 <= i < j < |names| ==> names[i] != names[j]
    requires RescaleEach(c, names, span).0.None? && n in names
    ensures TipAtSpan(Get(c, n), Get(RescaleEach(c, names, span).1, n), span)
  {
    RescaleEachSpec(c, names, span);
  }

  // ---------------------------------------------------------------------
  // The cell-distribution control points

  /** Python's `ps[1:-1]`: everything but the first and the last point. */
  function Inner(ps: seq<Point2>): (r: seq<Point2>)
    ensures |ps| >= 2 ==> |r| == |ps| - 2
    ensures |ps| < 2 ==> r == []
  {
    if |ps| < 2 then [] else ps[1..|ps| - 1]
  }

  /** The points framed by (0, 0) in front and (tipX, 1) behind. */
  function WithEnds(arr: seq<Point2>, tipX: real): (r: seq<Point2>)
    ensures |r| == |arr| + 2 && r[0] == Point2(0.0, 0.0) && r[|r| - 1] == Point2(tipX, 1.0)
  {
    [Point2(0.0, 0.0)] + arr + [Point2(tipX, 1.0)]
  }

  /**
   * Setting the inner control points and reading them back gives what was
   * set; and a list framed by (0, 0) and (tipX, 1) is rebuilt exactly from
   * its inner points.
   */
  lemma InnerWithEnds(arr: seq<Point2>, tipX: real, ps: seq<Point2>)
    ensures Inner(WithEnds(arr, tipX)) == arr
    ensures |ps| >= 2 && ps[0] == Point2(0.0, 0.0) && ps[|ps| - 1] == Point2(tipX, 1.0) ==>
      WithEnds(Inner(ps), tipX) == ps
  {
    if |ps| >= 2 && ps[0] == Point2(0.0, 0.0) && ps[|ps| - 1] == Point2(tipX, 1.0) {
      assert ps == [ps[0]] + ps[1..|ps| - 1] + [ps[|ps| - 1]];
    }
  }

  // ---------------------------------------------------------------------
  // The schedule of cell-distribution samples

  /**
   * numpy's linspace: num evenly spaced values from start to stop, both
   * included when num >= 2; a negative count is a ValueError.
   */
  function Linspace(start: real, stop: real, num: int): (r: Result<seq<real>, GliderError>)
    ensures r.Ok? <==> num >= 0
    ensures r.Err? ==> r.error == NegativeSampleCount(num)
    ensures r.Ok? ==> |r.value| == num
    ensures num == 1 ==> r.value == [start]
    ensures num >= 2 ==> forall k :: 0 <= k < num ==>
      r.value[k] == start + (k as real) * ((stop - start) / ((num - 1) as real))
  {
    if num < 0 then Err(NegativeSampleCount(num))
    else if num == 0 then Ok([])
    else if num == 1 then Ok([start])
    else
      var step := (stop - start) / ((num - 1) as real);
      Ok(seq(num, k requires 0 <= k < num => start + (k as real) * step))
  }

  /**
   * A linspace of num >= 2 values starts at start, ends at stop, has
   * equal gaps (stop - start) / (num - 1), and rises strictly when
   * start < stop.
   */
  lemma LinspaceSpec(start: real, stop: real, num: int)
    requires num >= 2
    ensures var r := Linspace(start, stop, num).value;
      |r| == num && r[0] == start && r[num - 1] == stop &&
      (forall k :: 0 <= k < num - 1 ==> r[k + 1] - r[k] == (stop - start) / ((num - 1) as real)) &&
      (start < stop ==> forall j, k :: 0 <= j < k < num ==> r[j] < r[k])
  {
    var r := Linspace(start, stop, num).value;
    var step := (stop - start) / ((num - 1) as real);
    DivideThenMultiply(stop - start, (num - 1) as real);
    forall k | 0 <= k < num - 1 ensures r[k + 1] - r[k] == step {
      NextMultiple(k as real, step);
    }
    if start < stop {
      PositiveQuotient(stop - start, (num - 1) as real);
      RisingFromGaps(r);
    }
  }

  lemma NextMultiple(a: real, s: real)
    ensures (a + 1.0) * s == a * s + s
  {
  }

  lemma PositiveQuotient(a: real, b: real)
    requires a > 0.0 && b > 0.0
    ensures a / b > 0.0
  {
  }

  /** A sequence whose every gap is positive rises strictly. */
  lemma RisingFromGaps(r: seq<real>)
    requires forall k :: 0 <= k < |r| - 1 ==> r[k + 1] - r[k] > 0.0
    ensures forall j, k :: 0 <= j < k < |r| ==> r[j] < r[k]
  {
    forall j, k | 0 <= j < k < |r| ensures r[j] < r[k] {
      var i := j + 1;
      while i < k
        invariant j < i <= k && r[j] < r[i]
      {
        i := i + 1;
      }
    }
  }

  /**
   * The rib parameters along the half span for cellNum cells:
   * cellNum / 2 + 1 values (floor division) from (cellNum mod 2) / cellNum
   * to 1. No cells is a division by zero.
   */
  function CellDistSchedule(cellNum: int): (r: Result<seq<real>, GliderError>)
    ensures cellNum == 0 ==> r == Err(ZeroDivision)
  {
    if cellNum == 0 then Err(ZeroDivision)
    else Linspace((cellNum % 2) as real / cellNum as real, 1.0, cellNum / 2 + 1)
  }

  /**
   * For a positive cell count the schedule has cellNum / 2 + 1 rising
   * values ending at 1; it starts at 0 for an even count (a rib in the
   * middle) and at 1 / cellNum for an odd one (a cell in the middle).
   */
  lemma CellDistScheduleSpec(cellNum: int)
    requires cellNum >= 1
    ensures CellDistSchedule(cellNum).Ok?
    ensures var r := CellDistSchedule(cellNum).value;
      |r| == cellNum / 2 + 1 && r[|r| - 1] == 1.0 &&
      (cellNum % 2 == 0 ==> r[0] == 0.0) &&
      (cellNum % 2 == 1 ==> r[0] == 1.0 / cellNum as real) &&
      forall j, k :: 0 <= j < k < |r| ==> r[j] < r[k]
  {
    var start := (cellNum % 2) as real / cellNum as real;
    if cellNum == 1 {
      assert start == 1.0;
    } else {
      assert start < 1.0 by {
        assert (cellNum % 2) as real < cellNum as real;
      }
      LinspaceSpec(start, 1.0, cellNum / 2 + 1);
    }
  }

  /** The span: twice the x of the last sampled cell-distribution point. */
  function Span(interpolation: seq<Point2>): (r: Result<real, GliderError>)
    ensures r.Ok? <==> interpolation != []
  {
    if interpolation == [] then Err(IndexOutOfRange)
    else Ok(interpolation[|interpolation| - 1].x * 2.0)
  }

  // ---------------------------------------------------------------------
  // Mirroring a half outline

  /**
   * The whole outline from a half outline that starts in the middle: the
   * points after the first, mirrored and in reverse order, then the half
   * outline itself, from its second point when the glider has a cell in
   * the middle.
   */
  function MirrorX(p: seq<Point2>, hasCenterCell: bool): (r: seq<Point2>)
  {
    if p == [] then [] else Mirrored(p[1..]) + p[(if hasCenterCell then 1 else 0)..]
  }

  /** The points mirrored at x = 0, in reverse order. */
  function Mirrored(q: seq<Point2>): (m: seq<Point2>)
    ensures |m| == |q| && forall k :: 0 <= k < |q| ==> m[k] == Flip(q[|q| - 1 - k])
  {
    seq(|q|, k requires 0 <= k < |q| => Flip(q[|q| - 1 - k]))
  }

  /**
   * The mirrored outline is symmetric about x = 0 and ends with the half
   * outline: with a middle cell every point has its mirror image at the
   * opposite position; without, the same holds except for the first point
   * of the half outline, which sits in the middle.
   */
  lemma MirrorXSymmetric(p: seq<Point2>, hasCenterCell: bool)
    requires p != []
    ensures var r := MirrorX(p, hasCenterCell);
      var h := if hasCenterCell then 1 else 0;
      |r| == 2 * |p| - 1 - h &&
      r[|p| - 1..] == p[h..] &&
      (hasCenterCell ==> forall k :: 0 <= k < |r| ==> r[k] == Flip(r[|r| - 1 - k])) &&
      (!hasCenterCell ==> (r[|p| - 1] == p[0] &&
        forall k :: 0 <= k < |r| && k != |p| - 1 ==> r[k] == Flip(r[|r| - 1 - k])))
  {
    MirrorXLength(p, hasCenterCell);
    if hasCenterCell {
      MirrorXPairs(p, true);
    } else {
      var r := MirrorX(p, false);
      assert r[|p| - 1] == r[|p| - 1..][0];
      MirrorXPairs(p, false);
    }
  }

  /** Every position of the mirrored outline, except the middle one when
      there is no centre cell, holds the mirror image of the opposite one. */
  lemma MirrorXPairs(p: seq<Point2>, hasCenterCell: bool)
    requires p != []
    ensures var r := MirrorX(p, hasCenterCell);
      forall k :: 0 <= k < |r| && (hasCenterCell || k != |p| - 1) ==> r[k] == Flip(r[|r| - 1 - k])
  {
    var h := if hasCenterCell then 1 else 0;
    var r := Mirrored(p[1..]) + p[h..];
    assert MirrorX(p, hasCenterCell) == r;
    forall k | 0 <= k < |r| && (hasCenterCell || k != |p| - 1) ensures r[k] == Flip(r[|r| - 1 - k]) {
      MirrorXPair(p, hasCenterCell, k);
    }
  }

  lemma MirrorXPair(p: seq<Point2>, hasCenterCell: bool, k: int)
    requires p != [] && 0 <= k < 2 * |p| - 1 - (if hasCenterCell then 1 else 0)
    requires hasCenterCell || k != |p| - 1
    ensures var r := Mirrored(p[1..]) + p[(if hasCenterCell then 1 else 0)..];
      |r| == 2 * |p| - 1 - (if hasCenterCell then 1 else 0) && r[k] == Flip(r[|r| - 1 - k])
  {
    var h := if hasCenterCell then 1 else 0;
    var m := Mirrored(p[1..]);
    var t := p[h..];
    var r := m + t;
    var o := |r| - 1 - k;
    if k < |m| {
      assert r[k] == Flip(p[|p| - 1 - k]);
      assert r[o] == t[o - |m|];
    } else {
      assert r[k] == t[k - |m|];
      assert r[o] == Flip(p[|p| - 1 - o]);
    }
  }

  lemma MirrorXLength(p: seq<Point2>, hasCenterCell: bool)
    requires p != []
    ensures var r := MirrorX(p, hasCenterCell);
      var h := if hasCenterCell then 1 else 0;
      |r| == 2 * |p| - 1 - h && r[|p| - 1..] == p[h..]
  {
    var h := if hasCenterCell then 1 else 0;
    var m := Mirrored(p[1..]);
    assert MirrorX(p, hasCenterCell) == m + p[h..];
  }

  /**
   * The span is the distance between the two tips of the mirrored
   * outline of the sampled points.
   */
  lemma SpanIsMirroredExtent(ps: seq<Point2>, hasCenterCell: bool)
    requires |ps| >= 2
    ensures var r := MirrorX(ps, hasCenterCell);
      Span(ps) == Ok(r[|r| - 1].x - r[0].x)
  {
    var r := MirrorX(ps, hasCenterCell);
    var h := if hasCenterCell then 1 else 0;
    MirrorXLength(ps, hasCenterCell);
    assert r == Mirrored(ps[1..]) + ps[h..];
    MirrorXPair(ps, hasCenterCell, 0);
    assert r[|r| - 1] == r[|ps| - 1..][|ps| - 1 - h] == ps[|ps| - 1];
  }

  // ---------------------------------------------------------------------
  // Arc angles

  /** The arc points, with the mirror of the first in front when it is off the middle. */
  function ExtendArc(arc: seq<Point2>): (c: seq<Point2>)
    requires arc != []
    ensures arc[0].x == 0.0 ==> c == arc
    ensures arc[0].x != 0.0 ==> c == [Flip(arc[0])] + arc
  {
    if arc[0].x == 0.0 then arc else [Flip(arc[0])] + arc
  }

  /** The direction at segment i: the unit vector of segment i plus that of segment i + 1, if any. */
  function Direction(c: seq<Point2>, i: nat, normalize: Point2 -> Point2): Point2
    requires i + 1 < |c|
  {
    var d := normalize(Minus(c[i + 1], c[i]));
    if i + 2 < |c| then Plus(d, normalize(Minus(c[i + 2], c[i + 1]))) else d
  }

  /** The angle of a direction, measured downwards. */
  function Angle(d: Point2, atan2: (real, real) -> real): real {
    atan2(-d.y, d.x)
  }

  /** The arc angles: 0 for a first point in the middle, then one per segment of the extended arc. */
  function ArcAngles(arc: seq<Point2>, normalize: Point2 -> Point2, atan2: (real, real) -> real)
    : Result<seq<real>, GliderError>
  {
    if arc == [] then Err(IndexOutOfRange)
    else
      var c := ExtendArc(arc);
      Ok((if arc[0].x == 0.0 then [0.0] else []) +
        seq(|c| - 1, i requires 0 <= i < |c| - 1 => Angle(Direction(c, i, normalize), atan2)))
  }

  /**
   * One angle per arc point, computed in a loop: 0 for a first point in
   * the middle, then the angle of every segment direction of the (possibly
   * extended) arc. An empty arc has no first point.
   */
  method GetArcAngles(arc: seq<Point2>, normalize: Point2 -> Point2, atan2: (real, real) -> real)
    returns (r: Result<seq<real>, GliderError>)
    ensures r == ArcAngles(arc, normalize, atan2)
    ensures r.Err? <==> arc == []
    ensures r.Ok? ==> |r.value| == |arc|
    ensures r.Ok? && arc[0].x == 0.0 ==> r.value[0] == 0.0
    ensures r.Ok? ==>
      var c := ExtendArc(arc);
      var offset := if arc[0].x == 0.0 then 1 else 0;
      forall i :: 0 <= i < |c| - 1 ==> r.value[offset + i] == Angle(Direction(c, i, normalize), atan2)
  {
    if arc == [] {
      return Err(IndexOutOfRange);
    }
    var c := arc;
    var angles: seq<real> := [];
    if c[0].x == 0.0 {
      angles := angles + [0.0];
    } else {
      c := [Flip(c[0])] + c;
    }
    var offset := |angles|;
    var i := 0;
    while i < |c| - 1
      invariant 0 <= i <= |c| - 1
      invariant |angles| == offset + i
      invariant offset == 1 ==> angles[0] == 0.0
      invariant forall j :: 0 <= j < i ==> angles[offset + j] == Angle(Direction(c, j, normalize), atan2)
    {
      var d := normalize(Minus(c[i + 1], c[i]));
      if i + 2 < |c| {
        d := Plus(d, normalize(Minus(c[i + 2], c[i + 1])));
      }
      angles := angles + [atan2(-d.y, d.x)];
      i := i + 1;
    }
    assert c == ExtendArc(arc);
    assert angles == ArcAngles(arc, normalize, atan2).value;
    return Ok(angles);
  }

  // ---------------------------------------------------------------------
  // Ribs and cells of the 3-D glider

  /** A profile: the airfoil's coordinate list. */
  type Profile = seq<Point2>

  /** What the model keeps of a rib: its airfoil, position along the span, arc position and arc angle. */
  datatype RibFrame = RibFrame(profile: Profile, x: real, arcPos: Point2, arcAngle: real)

  /** A cell between two neighbouring ribs; its one panel carries the cell's number. */
  datatype Cell = Cell(left: RibFrame, right: RibFrame, panelNo: nat)

  datatype RibLists = RibLists(xs: seq<real>, arcPos: seq<Point2>, angles: seq<real>)

  /**
   * When the first rib is off the middle, a mirror rib is put in front:
   * its x, arc position and arc angle are those of the first rib mirrored.
   */
  function InsertMidrib(l: RibLists): (r: Result<RibLists, GliderError>)
  {
    if l.xs == [] then Err(IndexOutOfRange)
    else if l.xs[0] == 0.0 then Ok(l)
    else if l.arcPos == [] || l.angles == [] then Err(IndexOutOfRange)
    else Ok(RibLists([-l.xs[0]] + l.xs, [Flip(l.arcPos[0])] + l.arcPos, [-l.angles[0]] + l.angles))
  }

  /**
   * The three lists grow together, by one exactly when the first rib is
   * off the middle, and keep their old contents at the back; the new first
   * rib mirrors the old one.
   */
  lemma MidribKeepsListsAligned(l: RibLists)
    requires InsertMidrib(l).Ok?
    ensures var r := InsertMidrib(l).value;
      var grown := if l.xs[0] == 0.0 then 0 else 1;
      |r.xs| == |l.xs| + grown && |r.arcPos| == |l.arcPos| + grown && |r.angles| == |l.angles| + grown &&
      r.xs[grown..] == l.xs && r.arcPos[grown..] == l.arcPos && r.angles[grown..] == l.angles &&
      (grown == 1 ==> r.xs[0] == -r.xs[1] && r.arcPos[0] == Flip(r.arcPos[1]) && r.angles[0] == -r.angles[1])
  {
  }

  /** The rib frames for the given lists, one per x; short lists are an IndexError. */
  function RibFrames(profile: Profile, l: RibLists): (r: Result<seq<RibFrame>, GliderError>)
    ensures r.Ok? <==> |l.arcPos| >= |l.xs| && |l.angles| >= |l.xs|
    ensures r.Ok? ==> |r.value| == |l.xs| && forall k :: 0 <= k < |l.xs| ==>
      r.value[k] == RibFrame(profile, l.xs[k], l.arcPos[k], l.angles[k])
  {
    if |l.arcPos| < |l.xs| || |l.angles| < |l.xs| then Err(IndexOutOfRange)
    else Ok(seq(|l.xs|, k requires 0 <= k < |l.xs| => RibFrame(profile, l.xs[k], l.arcPos[k], l.angles[k])))
  }

  /** One cell per pair of neighbouring ribs, numbered by the left rib. */
  function CellsOf(ribs: seq<RibFrame>): (cells: seq<Cell>)
    ensures |ribs| >= 1 ==> |cells| == |ribs| - 1
    ensures |ribs| == 0 ==> cells == []
    ensures forall k :: 0 <= k < |cells| ==> cells[k].left == ribs[k] && cells[k].right == ribs[k + 1]
    ensures forall k :: 0 <= k < |cells| ==> cells[k].panelNo == k
    ensures forall k :: 0 <= k < |cells| - 1 ==> cells[k].right == cells[k + 1].left
  {
    if |ribs| <= 1 then []
    else seq(|ribs| - 1, k requires 0 <= k < |ribs| - 1 => Cell(ribs[k], ribs[k + 1], k))
  }

  /**
   * For a positive cell count whose schedule starts off the middle exactly
   * for an odd count, the half glider gets one rib per scheduled value plus
   * the middle rib for an odd count, hence (cellNum + 1) / 2 cells: the
   * half of the cells that lie on one side, with the middle cell counted.
   */
  lemma HalfGliderCellCount(cellNum: int, profile: Profile, l: RibLists)
    requires cellNum >= 1 && |l.xs| == cellNum / 2 + 1
    requires |l.arcPos| == |l.xs| && |l.angles| == |l.xs|
    requires l.xs[0] == 0.0 <==> cellNum % 2 == 0
    ensures InsertMidrib(l).Ok? && RibFrames(profile, InsertMidrib(l).value).Ok?
    ensures |CellsOf(RibFrames(profile, InsertMidrib(l).value).value)| == (cellNum + 1) / 2
  {
    MidribKeepsListsAligned(l);
  }

  /** The x of the interpolated point at each parameter. */
  function Positions(ts: seq<real>, interpolate: real -> Point2): (xs: seq<real>)
    ensures |xs| == |ts| && forall k :: 0 <= k < |ts| ==> xs[k] == interpolate(ts[k]).x
  {
    seq(|ts|, k requires 0 <= k < |ts| => interpolate(ts[k]).x)
  }

  /** The stretched angle-of-attack control points and the ribs, or why building them failed. */
  datatype HalfBuild = HalfBuild(aoa: seq<Point2>, ribs: Result<seq<RibFrame>, GliderError>)

  /**
   * The ribs of the half glider, in the order the steps can fail: the
   * first profile, the schedule, the arc angles, the last rib position,
   * the stretching of the angle-of-attack curve, the middle rib, the rib
   * lists' lengths.
   */
  function HalfGlider(profiles: seq<Profile>, cellNum: int, interpolate: real -> Point2,
                      arcPos: seq<Point2>, angleArc: seq<Point2>, aoa: seq<Point2>,
                      normalize: Point2 -> Point2, atan2: (real, real) -> real): (b: HalfBuild)
    ensures b.ribs.Ok? ==>
      profiles != [] && CellDistSchedule(cellNum).Ok? && CellDistSchedule(cellNum).value != [] &&
      ArcAngles(angleArc, normalize, atan2).Ok?
  {
    if profiles == [] then HalfBuild(aoa, Err(IndexOutOfRange))
    else match CellDistSchedule(cellNum)
      case Err(e) => HalfBuild(aoa, Err(e))
      case Ok(ts) =>
        var xs := Positions(ts, interpolate);
        match ArcAngles(angleArc, normalize, atan2)
        case Err(e) => HalfBuild(aoa, Err(e))
        case Ok(angles) =>
          if xs == [] then HalfBuild(aoa, Err(IndexOutOfRange))
          else match Rescale(aoa, xs[|xs| - 1])
            case Err(e) => HalfBuild(aoa, Err(e))
            case Ok(stretched) =>
              match InsertMidrib(RibLists(xs, arcPos, angles))
              case Err(e) => HalfBuild(stretched, Err(e))
              case Ok(l) => HalfBuild(stretched, RibFrames(profiles[0], l))
  }

  /**
   * A half glider that was built has one rib per scheduled position, plus
   * the mirrored middle rib when the first position is off the middle;
   * every rib carries the first profile; the outermost rib sits where the
   * angle-of-attack curve now ends; and the first rib is in the middle or
   * mirrors the second.
   */
  lemma HalfGliderSpec(profiles: seq<Profile>, cellNum: int, interpolate: real -> Point2,
                       arcPos: seq<Point2>, angleArc: seq<Point2>, aoa: seq<Point2>,
                       normalize: Point2 -> Point2, atan2: (real, real) -> real)
    requires HalfGlider(profiles, cellNum, interpolate, arcPos, angleArc, aoa, normalize, atan2).ribs.Ok?
    ensures var b := HalfGlider(profiles, cellNum, interpolate, arcPos, angleArc, aoa, normalize, atan2);
      var ribs := b.ribs.value;
      var ts := CellDistSchedule(cellNum).value;
      profiles != [] && ts != [] && |angleArc| >= 1 &&
      (|ribs| == |ts| || |ribs| == |ts| + 1) &&
      (|ribs| == |ts| + 1 <==> interpolate(ts[0]).x != 0.0) &&
      (forall k :: 0 <= k < |ribs| ==> ribs[k].profile == profiles[0]) &&
      (forall k :: 0 <= k < |ts| ==> ribs[|ribs| - |ts| + k].x == interpolate(ts[k]).x) &&
      |b.aoa| == |aoa| && ribs[|ribs| - 1].x == b.aoa[|b.aoa| - 1].x &&
      (ribs[0].x == 0.0 || (ribs[0].x == -ribs[1].x && ribs[0].arcPos == Flip(ribs[1].arcPos) &&
        ribs[0].arcAngle == -ribs[1].arcAngle))
  {
    var b := HalfGlider(profiles, cellNum, interpolate, arcPos, angleArc, aoa, normalize, atan2);
    var ts := CellDistSchedule(cellNum).value;
    var xs := Positions(ts, interpolate);
    var angles := ArcAngles(angleArc, normalize, atan2).value;
    var stretched := Rescale(aoa, xs[|xs| - 1]).value;
    var l := InsertMidrib(RibLists(xs, arcPos, angles)).value;
    assert b == HalfBuild(stretched, RibFrames(profiles[0], l));
    MidribRibs(profiles[0], RibLists(xs, arcPos, angles));
  }

  /** The ribs built from rib lists after the middle rib was inserted: one
      per x plus the mirrored middle rib when the first x is off the middle. */
  lemma MidribRibs(profile: Profile, l: RibLists)
    requires InsertMidrib(l).Ok? && RibFrames(profile, InsertMidrib(l).value).Ok?
    ensures var ribs := RibFrames(profile, InsertMidrib(l).value).value;
      l.xs != [] &&
      (|ribs| == |l.xs| || |ribs| == |l.xs| + 1) &&
      (|ribs| == |l.xs| + 1 <==> l.xs[0] != 0.0) &&
      (forall k :: 0 <= k < |ribs| ==> ribs[k].profile == profile) &&
      (forall k :: 0 <= k < |l.xs| ==> ribs[|ribs| - |l.xs| + k].x == l.xs[k]) &&
      (ribs[0].x == 0.0 || (ribs[0].x == -ribs[1].x && ribs[0].arcPos == Flip(ribs[1].arcPos) &&
        ribs[0].arcAngle == -ribs[1].arcAngle))
  {
    MidribKeepsListsAligned(l);
    var r := InsertMidrib(l).value;
    var ribs := RibFrames(profile, r).value;
    var grown := if l.xs[0] == 0.0 then 0 else 1;
    forall k | 0 <= k < |l.xs|
      ensures ribs[|ribs| - |l.xs| + k].x == l.xs[k]
    {
      assert r.xs[grown..][k] == r.xs[grown + k];
    }
  }

  /** What the model keeps of a 3-D glider. */
  datatype Glider3D = Glider3D(ribs: seq<RibFrame>, cells: seq<Cell>, lines: seq<Line3D>)

  class Glider2D {
    var front: seq<Point2>
    var back: seq<Point2>
    var cellDist: seq<Point2>
    var aoa: seq<Point2>
    var cellNum: int
    var profiles: seq<Profile>
    var lineset: LineSet2D

    constructor (front: seq<Point2>, back: seq<Point2>, cellDist: seq<Point2>, aoa: seq<Point2>,
                 cellNum: int, profiles: seq<Profile>, lineset: LineSet2D)
      ensures this.front == front && this.back == back && this.cellDist == cellDist && this.aoa == aoa
      ensures this.cellNum == cellNum && this.profiles == profiles && this.lineset == lineset
    {
      this.front := front;
      this.back := back;
      this.cellDist := cellDist;
      this.aoa := aoa;
      this.cellNum := cellNum;
      this.profiles := profiles;
      this.lineset := lineset;
    }

    /**
     * Rescale back, front, cell distribution and angle of attack so that
     * each ends at x = span, one after the other in a loop; a failure
     * leaves the curves handled before it rescaled.
     */
    method SetSpan(span: real) returns (err: Option<GliderError>)
      modifies this
      ensures (err, Curves()) == RescaleEach(old(Curves()), SpanOrder(), span)
      ensures cellNum == old(cellNum) && profiles == old(profiles) && lineset == old(lineset)
    {
      var names := SpanOrder();
      var i := 0;
      while i < |names|
        invariant 0 <= i <= |names|
        invariant (None, Curves()) == RescaleEach(old(Curves()), names[..i], span)
        invariant cellNum == old(cellNum) && profiles == old(profiles) && lineset == old(lineset)
        decreases |names| - i
      {
        var n := names[i];
        assert names[..i + 1][..i] == names[..i];
        var r := Rescale(Get(Curves(), n), span);
        if r.Err? {
          RescaleEachStops(old(Curves()), names, span, i + 1);
          return Some(r.error);
        }
        match n {
          case BackCurve => back := r.value;
          case FrontCurve => front := r.value;
          case CellDistCurve => cellDist := r.value;
          case AoaCurve => aoa := r.value;
        }
        i := i + 1;
      }
      assert names[..i] == names;
      return None;
    }

    /** The four curves the span rescaling touches. */
    function Curves(): SpanCurves
      reads this
    {
      SpanCurves(back, front, cellDist, aoa)
    }

    /** The cell-distribution control points without the two fixed ends. */
    function CellDistControlpoints(): seq<Point2>
      reads this
    {
      Inner(cellDist)
    }

    /**
     * Set the inner cell-distribution control points: framed by (0, 0) and
     * (x of the front's last control point, 1). Reading them back gives arr.
     */
    method SetCellDistControlpoints(arr: seq<Point2>) returns (err: Option<GliderError>)
      modifies this
      ensures err.Some? <==> old(front) == []
      ensures err.Some? ==> err.value == IndexOutOfRange && cellDist == old(cellDist)
      ensures err.None? ==> front != [] && cellDist == WithEnds(arr, front[|front| - 1].x) && CellDistControlpoints() == arr
      ensures front == old(front) && back == old(back) && aoa == old(aoa)
      ensures cellNum == old(cellNum) && profiles == old(profiles) && lineset == old(lineset)
    {
      if front == [] {
        return Some(IndexOutOfRange);
      }
      cellDist := WithEnds(arr, front[|front| - 1].x);
      InnerWithEnds(arr, front[|front| - 1].x, cellDist);
      return None;
    }

    /** The rib frames, one per x, in a loop that appends. */
    static method BuildRibs(profile: Profile, l: RibLists) returns (r: Result<seq<RibFrame>, GliderError>)
      ensures r == RibFrames(profile, l)
    {
      var ribs: seq<RibFrame> := [];
      var k := 0;
      while k < |l.xs|
        invariant 0 <= k <= |l.xs|
        invariant k <= |l.arcPos| && k <= |l.angles|
        invariant |ribs| == k
        invariant forall j :: 0 <= j < k ==> ribs[j] == RibFrame(profile, l.xs[j], l.arcPos[j], l.angles[j])
      {
        if k >= |l.arcPos| || k >= |l.angles| {
          return Err(IndexOutOfRange);
        }
        ribs := ribs + [RibFrame(profile, l.xs[k], l.arcPos[k], l.angles[k])];
        k := k + 1;
      }
      assert ribs == RibFrames(profile, l).value;
      return Ok(ribs);
    }

    /** One cell per pair of neighbouring ribs, in a loop that appends. */
    static method BuildCells(ribs: seq<RibFrame>) returns (cells: seq<Cell>)
      ensures cells == CellsOf(ribs)
    {
      cells := [];
      if |ribs| == 0 {
        return;
      }
      var k := 0;
      while k < |ribs| - 1
        invariant 0 <= k <= |ribs| - 1
        invariant |cells| == k
        invariant forall j :: 0 <= j < k ==> cells[j] == Cell(ribs[j], ribs[j + 1], j)
      {
        cells := cells + [Cell(ribs[k], ribs[k + 1], k)];
        k := k + 1;
      }
    }

    /**
     * Building the 3-D glider: the cell-distribution curve is sampled at
     * the schedule's parameters through interpolate for the rib positions,
     * the arc angles come from angleArc, the angle-of-attack curve is
     * stretched to end at the last rib position, the middle rib is
     * inserted if needed, one rib per position and one cell per rib pair
     * are built, and the line set is converted for that many ribs. A
     * failure after the stretching leaves the angle-of-attack curve
     * stretched.
     */
    method GetGlider3D(interpolate: real -> Point2, arcPos: seq<Point2>, angleArc: seq<Point2>,
                       normalize: Point2 -> Point2, atan2: (real, real) -> real)
      returns (r: Result<Glider3D, GliderError>)
      modifies this, lineset
      ensures lineset == old(lineset) && front == old(front) && back == old(back) && cellDist == old(cellDist)
      ensures cellNum == old(cellNum) && profiles == old(profiles)
      ensures var b := HalfGlider(profiles, cellNum, interpolate, arcPos, angleArc, old(aoa), normalize, atan2);
        aoa == b.aoa &&
        (b.ribs.Err? ==> (r == Err(b.ribs.error) &&
          lineset.lines == old(lineset.lines) && lineset.nodes == old(lineset.nodes) && lineset.known == old(lineset.known))) &&
        (b.ribs.Ok? ==>
          var c := Convert(old(lineset.lines), old(lineset.nodes), old(lineset.known), |b.ribs.value|);
          lineset.lines == c.lines && lineset.nodes == c.nodes && lineset.known == c.known &&
          r == (if c.result.Ok? then Ok(Glider3D(b.ribs.value, CellsOf(b.ribs.value), c.result.value))
                else Err(Lineset(c.result.error))))
    {
      if profiles == [] {
        return Err(IndexOutOfRange);
      }
      var airfoil := profiles[0];
      var schedule := CellDistSchedule(cellNum);
      if schedule.Err? {
        return Err(schedule.error);
      }
      var ts := schedule.value;
      var xValues := Positions(ts, interpolate);
      var angles := GetArcAngles(angleArc, normalize, atan2);
      if angles.Err? {
        return Err(angles.error);
      }
      if xValues == [] {
        return Err(IndexOutOfRange);
      }
      var stretched := Rescale(aoa, xValues[|xValues| - 1]);
      if stretched.Err? {
        return Err(stretched.error);
      }
      aoa := stretched.value;
      var lists := InsertMidrib(RibLists(xValues, arcPos, angles.value));
      if lists.Err? {
        return Err(lists.error);
      }
      var ribs := BuildRibs(airfoil, lists.value);
      if ribs.Err? {
        return Err(ribs.error);
      }
      var cells := BuildCells(ribs.value);
      var lines := lineset.ReturnLineset(|ribs.value|);
      if lines.Err? {
        return Err(Lineset(lines.error));
      }
      return Ok(Glider3D(ribs.value, cells, lines.value));
    }
  }
}
