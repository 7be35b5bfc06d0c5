/**
 * The 2-D line set object: its line list and node list, changed in place
 * by the sorting walk and the pruning, and the 3-D node each 2-D node was
 * last resolved to (kept on the node object, so it survives from one
 * conversion to the next). Converting the set orients the lines, prunes
 * them, resolves every listed node and emits one 3-D line per 2-D line,
 * numbered by its position.
 */
module LineSets {
  import opened Wrappers
  import opened Sequences
  import opened LineNetwork
  import opened LinePruning

  /** What a 3-D node is: fixed at a point, attached to a rib, or free. */
  datatype Node3DKind =
    | Fixed(position: seq<real>)
    | Attached(rib: nat, chordPosition: real, force: seq<real>)
    | Free

  /** A 3-D node, made from the 2-D node whose identity is `origin`. */
  datatype Node3D = Node3D(origin: nat, kind: Node3DKind)

  /** A line of the 3-D line set. */
  datatype Line3D = Line3D(number: nat, lowerNode: Node3D, upperNode: Node3D, targetLength: Option<real>)

  datatype LineSetError =
    | Pruning(cause: PruneError)   // ValueError from list.remove while pruning
    | RibIndex(ribNo: int)         // IndexError from the glider's rib list
    | Unresolved(node: Node)       // AttributeError: the node was never resolved

  /**
   * The 3-D node for a 2-D node on a glider with ribCount ribs. An upper
   * attachment indexes the rib list Python's way; its chord position is
   * given in percent and its force acts along z.
   */
  function GetNode(n: Node, ribCount: nat): (r: Result<Node3D, LineSetError>)
    ensures r.Ok? ==> r.value.origin == n.ref
    ensures r.Err? <==> n.kind.UpperAttachment? && !(-(ribCount as int) <= n.kind.ribNo < ribCount)
    ensures r.Ok? && n.kind.UpperAttachment? ==>
      r.value.kind.Attached? && r.value.kind.rib < ribCount &&
      r.value.kind.rib % ribCount == n.kind.ribNo % ribCount &&
      r.value.kind.chordPosition == n.kind.position / 100.0
    ensures r.Ok? && n.kind.LowerAttachment? ==> r.value.kind == Fixed(n.kind.pos3D)
    ensures r.Ok? && n.kind.BatchPoint? ==> r.value.kind == Free
  {
    match n.kind
    case LowerAttachment(_, pos3D) => Ok(Node3D(n.ref, Fixed(pos3D)))
    case UpperAttachment(ribNo, position, force) =>
      if 0 <= ribNo < ribCount then
        Ok(Node3D(n.ref, Attached(ribNo, position / 100.0, [0.0, 0.0, force])))
      else if -(ribCount as int) <= ribNo < 0 then
        Ok(Node3D(n.ref, Attached(ribCount + ribNo, position / 100.0, [0.0, 0.0, force])))
      else Err(RibIndex(ribNo))
    case BatchPoint(_) => Ok(Node3D(n.ref, Free))
  }

  /** The lower attachment points among the nodes, in list order. */
  function LowerAttachments(nodes: seq<Node>): (r: seq<Node>)
    ensures forall n :: n in r <==> n in nodes && n.kind.LowerAttachment?
  {
    Filter(nodes, (n: Node) => n.kind.LowerAttachment?)
  }

  /**
   * The lines after walking from each root in turn. Lines sorted before
   * are left exactly as they were, so a second conversion does not turn
   * them again.
   */
  function SortAll(ls: seq<Line2D>, roots: seq<Node>): (r: seq<Line2D>)
    ensures |r| == |ls|
    ensures forall k :: 0 <= k < |ls| ==> SameLine(r[k], ls[k])
    ensures forall k :: 0 <= k < |ls| && ls[k].isSorted ==> r[k] == ls[k]
    decreases |roots|
  {
    if roots == [] then ls
    else SortFrom(SortAll(ls, roots[..|roots| - 1]), roots[|roots| - 1], 0)
  }

  /** Every line touching any root ends sorted. */
  lemma {:induction false} SortAllMarksRootLines(ls: seq<Line2D>, roots: seq<Node>)
    ensures forall k, n :: 0 <= k < |ls| && n in roots && Touches(ls[k], n) ==> SortAll(ls, roots)[k].isSorted
    decreases |roots|
  {
    if roots != [] {
      var init := roots[..|roots| - 1];
      var last := roots[|roots| - 1];
      var prev := SortAll(ls, init);
      SortAllMarksRootLines(ls, init);
      SortFromCloses(prev, last, 0);
      forall k, n | 0 <= k < |ls| && n in roots && Touches(ls[k], n)
        ensures SortAll(ls, roots)[k].isSorted
      {
        if n == last {
          assert Touches(prev[k], n);
        } else {
          assert n in init;
        }
      }
    }
  }

  /** The 3-D nodes known after resolving nodes one by one, and the first error. */
  datatype Resolution = Resolution(known: map<Node, Node3D>, error: Option<LineSetError>)

  /** Resolving each node in list order, on top of what was known before. */
  function ResolveAll(known: map<Node, Node3D>, nodes: seq<Node>, ribCount: nat): (r: Resolution)
    decreases |nodes|
  {
    if nodes == [] then Resolution(known, None)
    else
      var prev := ResolveAll(known, nodes[..|nodes| - 1], ribCount);
      if prev.error.Some? then prev
      else
        var last := nodes[|nodes| - 1];
        match GetNode(last, ribCount)
        case Err(e) => Resolution(prev.known, Some(e))
        case Ok(v) => Resolution(prev.known[last := v], None)
  }

  /** Once resolving has failed on a prefix, it fails there on the whole. */
  lemma {:induction false} ResolveAllStops(known: map<Node, Node3D>, nodes: seq<Node>, ribCount: nat, j: nat)
    requires j <= |nodes| && ResolveAll(known, nodes[..j], ribCount).error.Some?
    ensures ResolveAll(known, nodes, ribCount) == ResolveAll(known, nodes[..j], ribCount)
    decreases |nodes| - j
  {
    if j < |nodes| {
      assert nodes[..|nodes| - 1][..j] == nodes[..j];
      ResolveAllStops(known, nodes[..|nodes| - 1], ribCount, j);
    } else {
      assert nodes[..j] == nodes;
    }
  }

  /**
   * Resolving succeeds exactly when every node resolves; then each listed
   * node maps to its own 3-D node, and every other entry is what was known.
   */
  lemma {:induction false} ResolveAllSpec(known: map<Node, Node3D>, nodes: seq<Node>, ribCount: nat)
    ensures ResolveAll(known, nodes, ribCount).error.None? <==>
      forall k :: 0 <= k < |nodes| ==> GetNode(nodes[k], ribCount).Ok?
    ensures ResolveAll(known, nodes, ribCount).error.None? ==>
      forall n :: n in ResolveAll(known, nodes, ribCount).known <==> n in known || n in nodes
    ensures ResolveAll(known, nodes, ribCount).error.None? ==>
      forall n :: n in nodes ==> (n in ResolveAll(known, nodes, ribCount).known &&
        ResolveAll(known, nodes, ribCount).known[n] == GetNode(n, ribCount).value)
    ensures ResolveAll(known, nodes, ribCount).error.None? ==>
      forall n :: n in known && n !in nodes ==> (n in ResolveAll(known, nodes, ribCount).known &&
        ResolveAll(known, nodes, ribCount).known[n] == known[n])
    decreases |nodes|
  {
    if nodes != [] {
      var init := nodes[..|nodes| - 1];
      var last := nodes[|nodes| - 1];
      ResolveAllSpec(known, init, ribCount);
      assert nodes == init + [last];
      assert forall n :: n in nodes <==> n in init || n == last;
      assert forall k :: 0 <= k < |init| ==> init[k] == nodes[k];
      var prev := ResolveAll(known, init, ribCount);
      if prev.error.None? && GetNode(last, ribCount).Ok? {
        var m := prev.known[last := GetNode(last, ribCount).value];
        assert ResolveAll(known, nodes, ribCount).known == m;
        forall n | n in nodes
          ensures n in m && m[n] == GetNode(n, ribCount).value
        {
          if n != last {
            assert n in init;
          }
        }
      }
    }
  }

  /**
   * The 3-D lines, numbered by position, stopping at the first line with
   * an endpoint that has no 3-D node (its lower point is looked up first).
   */
  function Emit(ls: seq<Line2D>, known: map<Node, Node3D>): Result<seq<Line3D>, LineSetError>
    decreases |ls|
  {
    if ls == [] then Ok([])
    else
      var prev :- Emit(ls[..|ls| - 1], known);
      var l := ls[|ls| - 1];
      if l.lowerPoint !in known then Err(Unresolved(l.lowerPoint))
      else if l.upperPoint !in known then Err(Unresolved(l.upperPoint))
      else Ok(prev + [Line3D(|ls| - 1, known[l.lowerPoint], known[l.upperPoint], l.targetLength)])
  }

  /** Once emitting has failed on a prefix, it fails there on the whole. */
  lemma {:induction false} EmitStops(ls: seq<Line2D>, known: map<Node, Node3D>, j: nat)
    requires j <= |ls| && Emit(ls[..j], known).Err?
    ensures Emit(ls, known) == Emit(ls[..j], known)
    decreases |ls| - j
  {
    if j < |ls| {
      assert ls[..|ls| - 1][..j] == ls[..j];
      EmitStops(ls[..|ls| - 1], known, j);
    } else {
      assert ls[..j] == ls;
    }
  }

  /**
   * Emitting succeeds exactly when every endpoint has a 3-D node; then
   * line k of the result is numbered k and joins the 3-D nodes of line
   * k's endpoints. Otherwise the node reported is an unresolved endpoint
   * of some line.
   */
  lemma {:induction false} EmitSpec(ls: seq<Line2D>, known: map<Node, Node3D>)
    ensures Emit(ls, known).Ok? <==>
      forall k :: 0 <= k < |ls| ==> ls[k].lowerPoint in known && ls[k].upperPoint in known
    ensures Emit(ls, known).Ok? ==>
      |Emit(ls, known).value| == |ls| &&
      forall k :: 0 <= k < |ls| ==>
        Emit(ls, known).value[k] == Line3D(k, known[ls[k].lowerPoint], known[ls[k].upperPoint], ls[k].targetLength)
    ensures Emit(ls, known).Err? ==>
      Emit(ls, known).error.Unresolved? && Emit(ls, known).error.node !in known &&
      exists k :: 0 <= k < |ls| && Touches(ls[k], Emit(ls, known).error.node)
    decreases |ls|
  {
    if ls != [] {
      var init := ls[..|ls| - 1];
      EmitSpec(init, known);
      assert forall k :: 0 <= k < |init| ==> init[k] == ls[k];
      if Emit(init, known).Err? {
        var k :| 0 <= k < |init| && Touches(init[k], Emit(ls, known).error.node);
        assert Touches(ls[k], Emit(ls, known).error.node);
      } else if Emit(ls, known).Err? {
        assert Touches(ls[|ls| - 1], Emit(ls, known).error.node);
      }
    }
  }

  /** One step of the marking pass over ls[i..]. */
  lemma MarkStep(ls: seq<Line2D>, i: nat, ribCount: nat, nodes: seq<Node>)
    requires i < |ls|
    ensures IsStale(ls[i], ribCount) ==>
      StaleLines(ls[i..], ribCount) == [ls[i]] + StaleLines(ls[i + 1..], ribCount) &&
      RemoveEach(nodes, Uppers(StaleLines(ls[i..], ribCount))) ==
        match RemoveFirst(nodes, ls[i].upperPoint)
        case None => Removal(nodes, Some(ls[i].upperPoint))
        case Some(rest) => RemoveEach(rest, Uppers(StaleLines(ls[i + 1..], ribCount)))
    ensures !IsStale(ls[i], ribCount) ==>
      StaleLines(ls[i..], ribCount) == StaleLines(ls[i + 1..], ribCount)
  {
    assert ls[i..][1..] == ls[i + 1..];
    if IsStale(ls[i], ribCount) {
      var xs := Uppers(StaleLines(ls[i..], ribCount));
      assert xs[0] == ls[i].upperPoint;
      assert xs[1..] == Uppers(StaleLines(ls[i + 1..], ribCount));
    }
  }

  /** The line set's state after a conversion, and what the conversion returned. */
  datatype Converted = Converted(
    lines: seq<Line2D>,
    nodes: seq<Node>,
    known: map<Node, Node3D>,
    result: Result<seq<Line3D>, LineSetError>)

  /** Converting the line set: sort from every lower attachment, prune, resolve, emit. */
  function Convert(lines: seq<Line2D>, nodes: seq<Node>, known: map<Node, Node3D>, ribCount: nat): Converted {
    var sorted := SortAll(lines, LowerAttachments(nodes));
    var pruned := Prune(sorted, nodes, ribCount);
    if pruned.error.Some? then
      Converted(pruned.lines, pruned.nodes, known, Err(Pruning(pruned.error.value)))
    else
      var res := ResolveAll(known, pruned.nodes, ribCount);
      if res.error.Some? then Converted(pruned.lines, pruned.nodes, res.known, Err(res.error.value))
      else Converted(pruned.lines, pruned.nodes, res.known, Emit(pruned.lines, res.known))
  }

  /**
   * A successful conversion emits one line per remaining 2-D line,
   * numbered by position; two emitted lines share a 3-D endpoint only when
   * their 2-D endpoints are the same object or are nodes that were
   * resolved before. On a first conversion every endpoint of a remaining
   * line must still be a listed node.
   */
  lemma ConvertEmitsEveryLine(lines: seq<Line2D>, nodes: seq<Node>, known: map<Node, Node3D>, ribCount: nat)
    requires Convert(lines, nodes, known, ribCount).result.Ok?
    ensures var c := Convert(lines, nodes, known, ribCount);
      |c.result.value| == |c.lines| &&
      forall k :: 0 <= k < |c.lines| ==>
        c.lines[k].lowerPoint in c.known && c.lines[k].upperPoint in c.known &&
        c.result.value[k].number == k &&
        c.result.value[k].lowerNode == c.known[c.lines[k].lowerPoint] &&
        c.result.value[k].upperNode == c.known[c.lines[k].upperPoint] &&
        c.result.value[k].targetLength == c.lines[k].targetLength
    ensures var c := Convert(lines, nodes, known, ribCount);
      known == map[] ==> forall k :: 0 <= k < |c.lines| ==> EndsListedIn(c.lines[k], c.nodes)
  {
    var c := Convert(lines, nodes, known, ribCount);
    var sorted := SortAll(lines, LowerAttachments(nodes));
    var pruned := Prune(sorted, nodes, ribCount);
    var res := ResolveAll(known, pruned.nodes, ribCount);
    assert pruned.error.None? && res.error.None?;
    assert c == Converted(pruned.lines, pruned.nodes, res.known, Emit(pruned.lines, res.known));
    ResolveAllSpec(known, pruned.nodes, ribCount);
    EmitSpec(pruned.lines, res.known);
    if known == map[] {
      forall k | 0 <= k < |c.lines| ensures EndsListedIn(c.lines[k], c.nodes) {
        assert c.lines[k].lowerPoint in res.known && c.lines[k].upperPoint in res.known;
      }
    }
  }

  predicate EndsListedIn(l: Line2D, nodes: seq<Node>) {
    l.lowerPoint in nodes && l.upperPoint in nodes
  }

  class LineSet2D {
    var lines: seq<Line2D>
    var nodes: seq<Node>
    /** The 3-D node each 2-D node was last resolved to. */
    var known: map<Node, Node3D>

    constructor (lineList: seq<Line2D>, nodeList: seq<Node>)
      ensures lines == lineList && nodes == nodeList && known == map[]
    {
      lines := lineList;
      nodes := nodeList;
      known := map[];
    }

    /**
     * The recursive walk from lowerAtt: each unsorted line touching it is
     * turned to face it, marked, and walked on from its upper point.
     */
    method SortLines(lowerAtt: Node)
      modifies this
      ensures lines == SortFrom(old(lines), lowerAtt, 0)
      ensures nodes == old(nodes) && known == old(known)
      decreases Unsorted(lines)
    {
      var i := 0;
      while i < |lines|
        invariant 0 <= i <= |lines|
        invariant SortFrom(lines, lowerAtt, i) == SortFrom(old(lines), lowerAtt, 0)
        invariant Unsorted(lines) <= Unsorted(old(lines))
        invariant nodes == old(nodes) && known == old(known)
      {
        var line := lines[i];
        if !line.isSorted {
          ghost var before := lines;
          if lowerAtt == line.upperPoint {
            line := line.(lowerPoint := line.upperPoint, upperPoint := line.lowerPoint);
            lines := lines[i := line];
          }
          if lowerAtt == line.lowerPoint {
            line := line.(isSorted := true);
            lines := lines[i := line];
            assert lines == before[i := Orient(before[i], lowerAtt)];
            UnsortedMark(before, i, line);
            SortLines(line.upperPoint);
          } else {
            assert lines == before;
          }
        }
        i := i + 1;
      }
    }

    /**
     * The marking pass: collects the stale lines in list order and removes
     * the upper node of each from the node list as it goes.
     */
    method MarkStale(ribCount: nat) returns (temp: seq<Line2D>, err: Option<PruneError>)
      modifies this
      ensures lines == old(lines) && known == old(known)
      ensures temp == StaleLines(lines, ribCount)
      ensures var marked := RemoveEach(old(nodes), Uppers(StaleLines(lines, ribCount)));
        nodes == marked.rest &&
        (err.None? <==> marked.missing.None?) &&
        (err.Some? ==> err.value == NodeNotFound(marked.missing.value))
    {
      temp := [];
      var i := 0;
      while i < |lines|
        invariant 0 <= i <= |lines|
        invariant lines == old(lines) && known == old(known)
        invariant temp + StaleLines(lines[i..], ribCount) == StaleLines(lines, ribCount)
        invariant RemoveEach(nodes, Uppers(StaleLines(lines[i..], ribCount))) ==
          RemoveEach(old(nodes), Uppers(StaleLines(lines, ribCount)))
      {
        var line := lines[i];
        MarkStep(lines, i, ribCount, nodes);
        if line.upperPoint.kind.UpperAttachment? && line.upperPoint.kind.ribNo >= ribCount {
          assert temp + [line] + StaleLines(lines[i + 1..], ribCount) ==
            temp + ([line] + StaleLines(lines[i + 1..], ribCount));
          temp := temp + [line];
          var removed := RemoveFirst(nodes, line.upperPoint);
          if removed.None? {
            return StaleLines(lines, ribCount), Some(NodeNotFound(line.upperPoint));
          }
          nodes := removed.value;
        }
        i := i + 1;
      }
      assert lines[|lines|..] == [];
      err := None;
    }

    /**
     * The draining pass, first in first out: the head line is deleted with
     * its lower node when no other line shares that lower point, and the
     * lines hanging from the node are queued; otherwise it is dropped from
     * the queue.
     */
    method DrainMarked(marked: seq<Line2D>) returns (err: Option<PruneError>)
      modifies this
      ensures Outcome(lines, nodes, err) == Drain(old(lines), old(nodes), marked)
      ensures known == old(known)
    {
      var queue := marked;
      while queue != []
        invariant known == old(known)
        invariant Drain(lines, nodes, queue) == Drain(old(lines), old(nodes), marked)
        decreases |lines|, |queue|
      {
        var line := queue[0];
        if SharesLowerPoint(lines, line) {
          queue := queue[1..];
        } else {
          var hanging := HangingFrom(lines, line);
          var nodesLeft := RemoveFirst(nodes, line.lowerPoint);
          if nodesLeft.None? {
            return Some(NodeNotFound(line.lowerPoint));
          }
          nodes := nodesLeft.value;
          var linesLeft := RemoveFirst(lines, line);
          if linesLeft.None? {
            return Some(LineNotFound(line));
          }
          lines := linesLeft.value;
          queue := queue[1..] + hanging;
        }
      }
      return None;
    }

    /**
     * Pruning in place: mark the stale lines and remove their upper nodes,
     * then drain the marked lines. Returns the error raised, if any; the
     * lists are then as they were at the raise.
     */
    method DeleteNotConnected(ribCount: nat) returns (err: Option<PruneError>)
      modifies this
      ensures Outcome(lines, nodes, err) == Prune(old(lines), old(nodes), ribCount)
      ensures known == old(known)
    {
      var temp;
      temp, err := MarkStale(ribCount);
      if err.Some? {
        return;
      }
      err := DrainMarked(temp);
    }

    /** The 3-D lines, numbered by position, as Emit describes them. */
    method EmitLines() returns (r: Result<seq<Line3D>, LineSetError>)
      ensures r == Emit(lines, known)
    {
      var out: seq<Line3D> := [];
      var i := 0;
      while i < |lines|
        invariant 0 <= i <= |lines|
        invariant Emit(lines[..i], known) == Ok(out)
      {
        var line := lines[i];
        assert lines[..i + 1][..i] == lines[..i];
        assert lines[..i + 1][i] == line;
        if line.lowerPoint !in known {
          EmitStops(lines, known, i + 1);
          return Err(Unresolved(line.lowerPoint));
        }
        if line.upperPoint !in known {
          EmitStops(lines, known, i + 1);
          return Err(Unresolved(line.upperPoint));
        }
        out := out + [Line3D(i, known[line.lowerPoint], known[line.upperPoint], line.targetLength)];
        i := i + 1;
      }
      assert lines[..i] == lines;
      return Ok(out);
    }

    /** The walk from every lower attachment point, in node-list order. */
    method SortFromLowest()
      modifies this
      ensures lines == SortAll(old(lines), LowerAttachments(nodes))
      ensures nodes == old(nodes) && known == old(known)
    {
      var lowest := LowerAttachments(nodes);
      var k := 0;
      while k < |lowest|
        invariant 0 <= k <= |lowest|
        invariant lines == SortAll(old(lines), lowest[..k])
        invariant nodes == old(nodes) && known == old(known)
      {
        SortLines(lowest[k]);
        assert lowest[..k + 1][..k] == lowest[..k];
        k := k + 1;
      }
      assert lowest[..k] == lowest;
    }

    /**
     * Resolving every listed node to its 3-D node, in list order, stopping
     * at the first that cannot be resolved.
     */
    method ResolveNodes(ribCount: nat) returns (err: Option<LineSetError>)
      modifies this
      ensures Resolution(known, err) == ResolveAll(old(known), nodes, ribCount)
      ensures lines == old(lines) && nodes == old(nodes)
    {
      var k := 0;
      while k < |nodes|
        invariant 0 <= k <= |nodes|
        invariant lines == old(lines) && nodes == old(nodes)
        invariant ResolveAll(old(known), nodes[..k], ribCount) == Resolution(known, None)
      {
        assert nodes[..k + 1][..k] == nodes[..k];
        assert nodes[..k + 1][k] == nodes[k];
        var node3D := GetNode(nodes[k], ribCount);
        if node3D.Err? {
          ResolveAllStops(old(known), nodes, ribCount, k + 1);
          return Some(node3D.error);
        }
        known := known[nodes[k] := node3D.value];
        k := k + 1;
      }
      assert nodes[..k] == nodes;
      return None;
    }

    /**
     * Converting the line set for a glider with ribCount ribs: sort from
     * every lower attachment point, prune, resolve every listed node, and
     * emit the lines.
     */
    method ReturnLineset(ribCount: nat) returns (r: Result<seq<Line3D>, LineSetError>)
      modifies this
      ensures Converted(lines, nodes, known, r) == Convert(old(lines), old(nodes), old(known), ribCount)
    {
      SortFromLowest();
      var pruneError := DeleteNotConnected(ribCount);
      if pruneError.Some? {
        return Err(Pruning(pruneError.value));
      }
      var resolveError := ResolveNodes(ribCount);
      if resolveError.Some? {
        return Err(resolveError.value);
      }
      r := EmitLines();
    }
  }
}
