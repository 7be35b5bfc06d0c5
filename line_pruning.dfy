/**
 * Pruning the line layout of lines that hang from ribs the glider does not
 * have. First every line whose upper point is an upper attachment with a
 * rib number not below the rib count is marked, and its upper node leaves
 * the node list. Then the marked lines are drained as a first-in first-out
 * queue: a line that no other line joins at its lower point is deleted with
 * its lower node, and the lines hanging from that node are queued next; a
 * line that shares its lower point with another line is only unmarked.
 */
module LinePruning {
  import opened Wrappers
  import opened Sequences
  import opened LineNetwork

  /** `list.remove` raised ValueError: the node or the line was not listed. */
  datatype PruneError = NodeNotFound(node: Node) | LineNotFound(line: Line2D)

  /** The lines, the nodes and how pruning ended. On an error the lists are
      those at the moment of the raise. */
  datatype Outcome = Outcome(lines: seq<Line2D>, nodes: seq<Node>, error: Option<PruneError>)

  /** Every element is listed at most once. */
  ghost predicate Simple<T(!new)>(s: seq<T>) {
    forall x :: multiset(s)[x] <= 1
  }

  /** Distinct line objects are distinct records. */
  lemma {:induction false} DistinctRefsSimple(ls: seq<Line2D>)
    requires DistinctRefs(ls)
    ensures Simple(ls)
  {
    if ls != [] {
      DistinctRefsSimple(ls[1..]);
      assert ls == [ls[0]] + ls[1..];
      forall x ensures multiset(ls)[x] <= 1 {
        if x == ls[0] {
          assert forall k :: 0 <= k < |ls[1..]| ==> ls[1..][k] != x by {
            forall k | 0 <= k < |ls[1..]| ensures ls[1..][k] != x {
              assert ls[1..][k].ref == ls[k + 1].ref != ls[0].ref;
            }
          }
          assert x !in ls[1..];
        }
      }
    }
  }

  /** The line hangs from an upper attachment on a rib that does not exist. */
  predicate IsStale(l: Line2D, ribCount: nat) {
    l.upperPoint.kind.UpperAttachment? && l.upperPoint.kind.ribNo >= ribCount
  }

  /** The lines the first pass marks, in list order. */
  function StaleLines(ls: seq<Line2D>, ribCount: nat): seq<Line2D>
  {
    if ls == [] then []
    else if IsStale(ls[0], ribCount) then [ls[0]] + StaleLines(ls[1..], ribCount)
    else StaleLines(ls[1..], ribCount)
  }

  /** The marked lines are exactly the stale lines, in list order. */
  lemma {:induction false} StaleLinesSpec(ls: seq<Line2D>, ribCount: nat)
    ensures forall l :: l in StaleLines(ls, ribCount) <==> l in ls && IsStale(l, ribCount)
    ensures IsSubseq(StaleLines(ls, ribCount), ls)
  {
    if ls != [] {
      StaleLinesSpec(ls[1..], ribCount);
      assert ls == [ls[0]] + ls[1..];
    }
  }

  /** The upper point of each line, in order. */
  function Uppers(ls: seq<Line2D>): (r: seq<Node>)
    ensures |r| == |ls| && forall k :: 0 <= k < |ls| ==> r[k] == ls[k].upperPoint
  {
    if ls == [] then [] else [ls[0].upperPoint] + Uppers(ls[1..])
  }

  /** What is left after removing xs one by one, and the first x found missing. */
  datatype Removal = Removal(rest: seq<Node>, missing: Option<Node>)

  /** `nodes.remove(x)` for each x of xs in turn, stopping at the first x not present. */
  function RemoveEach(nodes: seq<Node>, xs: seq<Node>): Removal
    decreases |xs|
  {
    if xs == [] then Removal(nodes, None)
    else
      match RemoveFirst(nodes, xs[0])
      case None => Removal(nodes, Some(xs[0]))
      case Some(rest) => RemoveEach(rest, xs[1..])
  }

  /**
   * All removals succeed exactly when xs fits into nodes counting
   * repetitions, and then exactly those elements are gone; the order of
   * what is left is kept either way.
   */
  lemma {:induction false} RemoveEachSpec(nodes: seq<Node>, xs: seq<Node>)
    ensures RemoveEach(nodes, xs).missing.None? <==> multiset(xs) <= multiset(nodes)
    ensures RemoveEach(nodes, xs).missing.None? ==>
      multiset(RemoveEach(nodes, xs).rest) == multiset(nodes) - multiset(xs)
    ensures IsSubseq(RemoveEach(nodes, xs).rest, nodes)
    ensures RemoveEach(nodes, xs).missing.Some? ==> RemoveEach(nodes, xs).missing.value in xs
    decreases |xs|
  {
    SubseqOfSelf(nodes);
    if xs != [] {
      var x := xs[0];
      assert multiset(xs) == multiset(xs[1..]) + multiset{x} by { assert xs == [x] + xs[1..]; }
      if x in nodes {
        var rest := RemoveFirst(nodes, x).value;
        RemoveEachSpec(rest, xs[1..]);
        SubseqTransitive(RemoveEach(rest, xs[1..]).rest, rest, nodes);
        TakeOneMore(multiset(xs[1..]), multiset(nodes), x);
      } else {
        assert multiset(xs)[x] > multiset(nodes)[x];
      }
    }
  }

  /** Taking x out of b first and then a is taking a plus x out of b. */
  lemma TakeOneMore<T>(a: multiset<T>, b: multiset<T>, x: T)
    requires x in b
    ensures a <= b - multiset{x} <==> a + multiset{x} <= b
    ensures (b - multiset{x}) - a == b - (a + multiset{x})
  {
    if a + multiset{x} <= b {
      forall y ensures a[y] <= (b - multiset{x})[y] {
        assert (a + multiset{x})[y] <= b[y];
      }
    }
  }

  /** Another line of ls joins l at its lower point. */
  predicate SharesLowerPoint(ls: seq<Line2D>, l: Line2D) {
    exists j :: 0 <= j < |ls| && ls[j].lowerPoint == l.lowerPoint && ls[j] != l
  }

  /** The lines of ls, other than l, whose upper point is l's lower point. */
  function HangingFrom(ls: seq<Line2D>, l: Line2D): (r: seq<Line2D>)
    ensures forall j :: j in r <==> j in ls && j.upperPoint == l.lowerPoint && j != l
  {
    Filter(ls, (j: Line2D) => j.upperPoint == l.lowerPoint && j != l)
  }

  /**
   * Draining the queue of marked lines, first in first out. The head line
   * is deleted together with its lower node when no other line shares
   * that lower point, and the lines hanging from the node join the back of
   * the queue; otherwise it is only dropped from the queue.
   */
  function Drain(lines: seq<Line2D>, nodes: seq<Node>, queue: seq<Line2D>): (o: Outcome)
    ensures |o.lines| <= |lines|
    decreases |lines|, |queue|
  {
    if queue == [] then Outcome(lines, nodes, None)
    else
      var h := queue[0];
      if SharesLowerPoint(lines, h) then Drain(lines, nodes, queue[1..])
      else
        match RemoveFirst(nodes, h.lowerPoint)
        case None => Outcome(lines, nodes, Some(NodeNotFound(h.lowerPoint)))
        case Some(nodes') =>
          match RemoveFirst(lines, h)
          case None => Outcome(lines, nodes', Some(LineNotFound(h)))
          case Some(lines') => Drain(lines', nodes', queue[1..] + HangingFrom(lines, h))
  }

  /** Subsequences keep no more copies of anything than the whole. */
  lemma {:induction false} SubseqMultiset<T>(a: seq<T>, b: seq<T>)
    requires IsSubseq(a, b)
    ensures multiset(a) <= multiset(b)
    decreases |b|
  {
    if a != [] && b != [] {
      assert b == [b[0]] + b[1..];
      if a[0] == b[0] && IsSubseq(a[1..], b[1..]) {
        SubseqMultiset(a[1..], b[1..]);
        assert a == [a[0]] + a[1..];
      } else {
        SubseqMultiset(a, b[1..]);
      }
    }
  }

  /** Draining only deletes: both lists keep the order of what remains. */
  lemma {:induction false} DrainOnlyRemoves(lines: seq<Line2D>, nodes: seq<Node>, queue: seq<Line2D>)
    ensures IsSubseq(Drain(lines, nodes, queue).lines, lines)
    ensures IsSubseq(Drain(lines, nodes, queue).nodes, nodes)
    decreases |lines|, |queue|
  {
    SubseqOfSelf(lines);
    SubseqOfSelf(nodes);
    if queue != [] {
      var h := queue[0];
      var o := Drain(lines, nodes, queue);
      if SharesLowerPoint(lines, h) {
        DrainOnlyRemoves(lines, nodes, queue[1..]);
      } else if h.lowerPoint in nodes && h in lines {
        var nodes' := RemoveFirst(nodes, h.lowerPoint).value;
        var lines' := RemoveFirst(lines, h).value;
        var queue' := queue[1..] + HangingFrom(lines, h);
        assert o == Drain(lines', nodes', queue');
        DrainOnlyRemoves(lines', nodes', queue');
        SubseqTransitive(o.lines, lines', lines);
        SubseqTransitive(o.nodes, nodes', nodes);
      }
    }
  }

  /**
   * A deleted line was deleted only when no other line joined it at its
   * lower point, so no surviving line hangs from the lower point of a line
   * that was deleted.
   */
  lemma {:induction false} DrainDeletesOnlyUnshared(lines: seq<Line2D>, nodes: seq<Node>, queue: seq<Line2D>)
    ensures forall l, s ::
      (l in lines && l !in Drain(lines, nodes, queue).lines &&
       s in Drain(lines, nodes, queue).lines && s != l) ==> s.lowerPoint != l.lowerPoint
    decreases |lines|, |queue|
  {
    var o := Drain(lines, nodes, queue);
    if queue != [] {
      var h := queue[0];
      if SharesLowerPoint(lines, h) {
        DrainDeletesOnlyUnshared(lines, nodes, queue[1..]);
      } else if h.lowerPoint in nodes && h in lines {
        var nodes' := RemoveFirst(nodes, h.lowerPoint).value;
        var lines' := RemoveFirst(lines, h).value;
        var queue' := queue[1..] + HangingFrom(lines, h);
        assert o == Drain(lines', nodes', queue');
        DrainDeletesOnlyUnshared(lines', nodes', queue');
        DrainOnlyRemoves(lines', nodes', queue');
        SubseqMembers(o.lines, lines');
        SubseqMembers(lines', lines);
        forall l, s | l in lines && l !in o.lines && s in o.lines && s != l
          ensures s.lowerPoint != l.lowerPoint
        {
          if l !in lines' {
            assert multiset(lines')[l] == multiset(lines)[l] - multiset{h}[l];
            assert l == h;
            var j :| 0 <= j < |lines| && lines[j] == s;
          }
        }
      }
    }
  }

  /**
   * A queued line survives a complete drain only when some other line of
   * the layout joined it at its lower point.
   */
  lemma {:induction false} DrainQueuedSurvivor(lines: seq<Line2D>, nodes: seq<Node>, queue: seq<Line2D>, l: Line2D)
    requires Simple(lines)
    requires l in queue && l in Drain(lines, nodes, queue).lines
    requires Drain(lines, nodes, queue).error.None?
    ensures exists s :: s in lines && s != l && s.lowerPoint == l.lowerPoint
    decreases |lines|, |queue|
  {
    var o := Drain(lines, nodes, queue);
    var h := queue[0];
    if SharesLowerPoint(lines, h) {
      if h == l {
        var j :| 0 <= j < |lines| && lines[j].lowerPoint == h.lowerPoint && lines[j] != h;
        assert lines[j] in lines;
      } else {
        assert l in queue[1..];
        DrainQueuedSurvivor(lines, nodes, queue[1..], l);
      }
    } else {
      var nodes' := RemoveFirst(nodes, h.lowerPoint).value;
      var lines' := RemoveFirst(lines, h).value;
      var queue' := queue[1..] + HangingFrom(lines, h);
      assert o == Drain(lines', nodes', queue');
      DrainOnlyRemoves(lines', nodes', queue');
      SubseqMembers(o.lines, lines');
      assert Simple(lines') by {
        forall x ensures multiset(lines')[x] <= 1 {
          assert multiset(lines')[x] <= multiset(lines)[x];
        }
      }
      if h != l {
        assert l in queue';
        DrainQueuedSurvivor(lines', nodes', queue', l);
        SubseqMembers(lines', lines);
      }
    }
  }

  /**
   * Every line the drain deleted was queued at the start, or hangs from a
   * node the drain removed: deletion only follows the cascade.
   */
  lemma {:induction false} DrainFollowsCascade(lines: seq<Line2D>, nodes: seq<Node>, queue: seq<Line2D>)
    ensures forall l :: l in lines && l !in Drain(lines, nodes, queue).lines ==>
      l in queue || l.upperPoint in multiset(nodes) - multiset(Drain(lines, nodes, queue).nodes)
    decreases |lines|, |queue|
  {
    var o := Drain(lines, nodes, queue);
    if queue != [] {
      var h := queue[0];
      if SharesLowerPoint(lines, h) {
        DrainFollowsCascade(lines, nodes, queue[1..]);
        assert forall l :: l in queue[1..] ==> l in queue;
      } else if h.lowerPoint in nodes && h in lines {
        var nodes' := RemoveFirst(nodes, h.lowerPoint).value;
        var lines' := RemoveFirst(lines, h).value;
        var queue' := queue[1..] + HangingFrom(lines, h);
        assert o == Drain(lines', nodes', queue');
        DrainFollowsCascade(lines', nodes', queue');
        DrainOnlyRemoves(lines', nodes', queue');
        SubseqMultiset(o.nodes, nodes');
        CascadeStep(lines, lines', nodes, nodes', o.lines, o.nodes, queue);
      }
    }
  }

  /** One deletion step of the cascade, with the rest of the drain given by
      the lines and nodes ol and on it leaves. */
  lemma CascadeStep(lines: seq<Line2D>, lines': seq<Line2D>, nodes: seq<Node>, nodes': seq<Node>,
                    ol: seq<Line2D>, on: seq<Node>, queue: seq<Line2D>)
    requires queue != [] && queue[0].lowerPoint in nodes && queue[0] in lines
    requires multiset(lines') == multiset(lines) - multiset{queue[0]}
    requires multiset(nodes') == multiset(nodes) - multiset{queue[0].lowerPoint}
    requires multiset(on) <= multiset(nodes')
    requires forall l :: l in lines' && l !in ol ==>
      l in queue[1..] + HangingFrom(lines, queue[0]) || l.upperPoint in multiset(nodes') - multiset(on)
    ensures forall l :: l in lines && l !in ol ==> l in queue || l.upperPoint in multiset(nodes) - multiset(on)
  {
    var h := queue[0];
    forall l | l in lines && l !in ol
      ensures l in queue || l.upperPoint in multiset(nodes) - multiset(on)
    {
      if l != h && l !in queue {
        assert multiset(lines')[l] == multiset(lines)[l];
        assert l !in queue[1..];
        if l in queue[1..] + HangingFrom(lines, h) {
          assert l in HangingFrom(lines, h);
        }
        CountAfterRemoval(multiset(nodes), multiset(nodes'), multiset(on), h.lowerPoint, l.upperPoint);
      }
    }
  }

  /** Counting step of the cascade: b is a with one x taken out and c fits
      in b, so anything b has more of than c, and x itself, a has more of than c. */
  lemma CountAfterRemoval<T>(a: multiset<T>, b: multiset<T>, c: multiset<T>, x: T, u: T)
    requires x in a && b == a - multiset{x} && c <= b
    requires u == x || u in b - c
    ensures u in a - c
  {
    assert a[x] == b[x] + 1;
  }

  /**
   * On a complete drain, every node removed was the lower point of a line
   * that was deleted.
   */
  lemma {:induction false} DrainRemovesLowerPoints(lines: seq<Line2D>, nodes: seq<Node>, queue: seq<Line2D>)
    requires Simple(lines)
    requires Drain(lines, nodes, queue).error.None?
    ensures forall x :: x in multiset(nodes) - multiset(Drain(lines, nodes, queue).nodes) ==>
      exists l :: l in lines && l !in Drain(lines, nodes, queue).lines && l.lowerPoint == x
    decreases |lines|, |queue|
  {
    var o := Drain(lines, nodes, queue);
    if queue != [] {
      var h := queue[0];
      if SharesLowerPoint(lines, h) {
        DrainRemovesLowerPoints(lines, nodes, queue[1..]);
      } else {
        var nodes' := RemoveFirst(nodes, h.lowerPoint).value;
        var lines' := RemoveFirst(lines, h).value;
        var queue' := queue[1..] + HangingFrom(lines, h);
        assert o == Drain(lines', nodes', queue');
        assert Simple(lines') by {
          forall x ensures multiset(lines')[x] <= 1 {
            assert multiset(lines')[x] <= multiset(lines)[x];
          }
        }
        DrainRemovesLowerPoints(lines', nodes', queue');
        DrainOnlyRemoves(lines', nodes', queue');
        SubseqMembers(o.lines, lines');
        forall x | x in multiset(nodes) - multiset(o.nodes)
          ensures exists l :: l in lines && l !in o.lines && l.lowerPoint == x
        {
          if x in multiset(nodes') - multiset(o.nodes) {
            var l :| l in lines' && l !in o.lines && l.lowerPoint == x;
            SubseqMembers(lines', lines);
          } else {
            assert x == h.lowerPoint;
            assert multiset(lines')[h] == multiset(lines)[h] - 1 == 0;
            assert h !in o.lines;
          }
        }
      }
    }
  }

  /**
   * On a complete drain, every deleted line took its lower node with it:
   * that node is listed fewer times after the drain than before.
   */
  lemma {:induction false} DrainDeletesLowerNode(lines: seq<Line2D>, nodes: seq<Node>, queue: seq<Line2D>)
    requires Drain(lines, nodes, queue).error.None?
    ensures forall l :: l in lines && l !in Drain(lines, nodes, queue).lines ==>
      l.lowerPoint in multiset(nodes) - multiset(Drain(lines, nodes, queue).nodes)
    decreases |lines|, |queue|
  {
    var o := Drain(lines, nodes, queue);
    if queue != [] {
      var h := queue[0];
      if SharesLowerPoint(lines, h) {
        DrainDeletesLowerNode(lines, nodes, queue[1..]);
      } else {
        var nodes' := RemoveFirst(nodes, h.lowerPoint).value;
        var lines' := RemoveFirst(lines, h).value;
        var queue' := queue[1..] + HangingFrom(lines, h);
        assert o == Drain(lines', nodes', queue');
        DrainDeletesLowerNode(lines', nodes', queue');
        DrainOnlyRemoves(lines', nodes', queue');
        SubseqMultiset(o.nodes, nodes');
        forall l | l in lines && l !in o.lines
          ensures l.lowerPoint in multiset(nodes) - multiset(o.nodes)
        {
          if l != h {
            assert multiset(lines')[l] == multiset(lines)[l];
          }
          CountAfterRemoval(multiset(nodes), multiset(nodes'), multiset(o.nodes), h.lowerPoint, l.lowerPoint);
        }
      }
    }
  }

  /**
   * The cascade is followed: on a complete drain, a surviving line that was
   * queued at the start, or that hangs from a node the drain removed, was
   * examined and kept only because another line shares its lower point.
   */
  lemma {:induction false} DrainExaminesCascade(lines: seq<Line2D>, nodes: seq<Node>, queue: seq<Line2D>)
    requires Simple(lines)
    requires Drain(lines, nodes, queue).error.None?
    ensures forall l ::
      (l in Drain(lines, nodes, queue).lines &&
       (l in queue || l.upperPoint in multiset(nodes) - multiset(Drain(lines, nodes, queue).nodes))) ==>
      exists s :: s in lines && s != l && s.lowerPoint == l.lowerPoint
    decreases |lines|, |queue|
  {
    var o := Drain(lines, nodes, queue);
    if queue != [] {
      var h := queue[0];
      if SharesLowerPoint(lines, h) {
        DrainExaminesCascade(lines, nodes, queue[1..]);
        forall l | l in o.lines && (l in queue || l.upperPoint in multiset(nodes) - multiset(o.nodes))
          ensures exists s :: s in lines && s != l && s.lowerPoint == l.lowerPoint
        {
          if l == h {
            var j :| 0 <= j < |lines| && lines[j].lowerPoint == h.lowerPoint && lines[j] != h;
            assert lines[j] in lines;
          } else if l in queue {
            assert l in queue[1..];
          }
        }
      } else {
        var nodes' := RemoveFirst(nodes, h.lowerPoint).value;
        var lines' := RemoveFirst(lines, h).value;
        var queue' := queue[1..] + HangingFrom(lines, h);
        assert o == Drain(lines', nodes', queue');
        assert Simple(lines') by {
          forall x ensures multiset(lines')[x] <= 1 {
            assert multiset(lines')[x] <= multiset(lines)[x];
          }
        }
        DrainExaminesCascade(lines', nodes', queue');
        DrainOnlyRemoves(lines', nodes', queue');
        SubseqMembers(o.lines, lines');
        SubseqMembers(lines', lines);
        ExamineStep(lines, lines', nodes, nodes', o.lines, o.nodes, queue);
      }
    }
  }

  /** One deletion step of the drain, for DrainExaminesCascade: the rest of
      the drain, from lines' and nodes', leaves ol and on. */
  lemma ExamineStep(lines: seq<Line2D>, lines': seq<Line2D>, nodes: seq<Node>, nodes': seq<Node>,
                    ol: seq<Line2D>, on: seq<Node>, queue: seq<Line2D>)
    requires queue != [] && queue[0] in lines && Simple(lines)
    requires multiset(lines') == multiset(lines) - multiset{queue[0]}
    requires multiset(nodes') == multiset(nodes) - multiset{queue[0].lowerPoint}
    requires forall x :: x in ol ==> x in lines'
    requires forall x :: x in lines' ==> x in lines
    requires forall l ::
      (l in ol && (l in queue[1..] + HangingFrom(lines, queue[0]) || l.upperPoint in multiset(nodes') - multiset(on))) ==>
      exists s :: s in lines' && s != l && s.lowerPoint == l.lowerPoint
    ensures forall l ::
      (l in ol && (l in queue || l.upperPoint in multiset(nodes) - multiset(on))) ==>
      exists s :: s in lines && s != l && s.lowerPoint == l.lowerPoint
  {
    var h := queue[0];
    var queue' := queue[1..] + HangingFrom(lines, h);
    forall l | l in ol && (l in queue || l.upperPoint in multiset(nodes) - multiset(on))
      ensures exists s :: s in lines && s != l && s.lowerPoint == l.lowerPoint
    {
      assert l in lines';
      assert multiset(lines')[h] == multiset(lines)[h] - 1 == 0;
      assert l != h;
      if l in queue {
        assert l in queue[1..];
        assert l in queue';
      } else if l.upperPoint !in multiset(nodes') - multiset(on) {
        assert l.upperPoint == h.lowerPoint;
        assert l in HangingFrom(lines, h);
        assert l in queue';
      }
      var s :| s in lines' && s != l && s.lowerPoint == l.lowerPoint;
      assert s in lines;
    }
  }

  /**
   * The whole of the pruning: mark the stale lines and remove their upper
   * nodes in list order, then drain the marked lines.
   */
  function Prune(lines: seq<Line2D>, nodes: seq<Node>, ribCount: nat): (o: Outcome)
  {
    var stale := StaleLines(lines, ribCount);
    var marked := RemoveEach(nodes, Uppers(stale));
    if marked.missing.Some? then Outcome(lines, marked.rest, Some(NodeNotFound(marked.missing.value)))
    else Drain(lines, marked.rest, stale)
  }

  /**
   * Pruning succeeds past the marking exactly when every stale line's
   * upper node is listed (counting repetitions); the nodes left are then
   * a subsequence of the nodes with all those upper nodes gone, and the
   * lines left are a subsequence of the lines.
   */
  lemma PruneRemovesStaleUppers(lines: seq<Line2D>, nodes: seq<Node>, ribCount: nat)
    ensures var o := Prune(lines, nodes, ribCount);
      (o.error.Some? && o.error.value.NodeNotFound? && o.error.value.node in Uppers(StaleLines(lines, ribCount)))
      || (multiset(Uppers(StaleLines(lines, ribCount))) <= multiset(nodes) &&
          multiset(o.nodes) <= multiset(nodes) - multiset(Uppers(StaleLines(lines, ribCount))))
    ensures IsSubseq(Prune(lines, nodes, ribCount).lines, lines)
    ensures IsSubseq(Prune(lines, nodes, ribCount).nodes, nodes)
  {
    var stale := StaleLines(lines, ribCount);
    var marked := RemoveEach(nodes, Uppers(stale));
    RemoveEachSpec(nodes, Uppers(stale));
    SubseqOfSelf(lines);
    if marked.missing.None? {
      DrainOnlyRemoves(lines, marked.rest, stale);
      SubseqMultiset(Prune(lines, nodes, ribCount).nodes, marked.rest);
      SubseqTransitive(Prune(lines, nodes, ribCount).nodes, marked.rest, nodes);
    }
  }

  /**
   * A marked line that still shares its lower point with a surviving line
   * stays in the line list, although its upper node has left the node list.
   */
  lemma PruneKeepsSharedMarkedLine(lines: seq<Line2D>, nodes: seq<Node>, ribCount: nat, l: Line2D, s: Line2D)
    requires Prune(lines, nodes, ribCount).error.None?
    requires l in lines && IsStale(l, ribCount)
    requires s in Prune(lines, nodes, ribCount).lines && s != l && s.lowerPoint == l.lowerPoint
    ensures l in Prune(lines, nodes, ribCount).lines
    ensures multiset(Prune(lines, nodes, ribCount).nodes)[l.upperPoint] < multiset(nodes)[l.upperPoint]
  {
    var stale := StaleLines(lines, ribCount);
    var marked := RemoveEach(nodes, Uppers(stale));
    DrainDeletesOnlyUnshared(lines, marked.rest, stale);
    PruneRemovesStaleUppers(lines, nodes, ribCount);
    StaleLinesSpec(lines, ribCount);
    var k :| 0 <= k < |stale| && stale[k] == l;
    assert Uppers(stale)[k] == l.upperPoint;
  }

  /**
   * Every marked line is examined: after a complete pruning, a marked line
   * is still listed only when some other line joined it at its lower point.
   */
  lemma PruneExaminesEveryMarkedLine(lines: seq<Line2D>, nodes: seq<Node>, ribCount: nat, l: Line2D)
    requires DistinctRefs(lines)
    requires Prune(lines, nodes, ribCount).error.None?
    requires l in lines && IsStale(l, ribCount) && l in Prune(lines, nodes, ribCount).lines
    ensures exists s :: s in lines && s != l && s.lowerPoint == l.lowerPoint
  {
    DistinctRefsSimple(lines);
    var stale := StaleLines(lines, ribCount);
    var marked := RemoveEach(nodes, Uppers(stale));
    StaleLinesSpec(lines, ribCount);
    DrainQueuedSurvivor(lines, marked.rest, stale, l);
  }

  /**
   * The cascade is followed from every marked line: after a complete
   * pruning, a line that is still listed although it was marked, or
   * although its upper node was removed, has another line sharing its
   * lower point.
   */
  lemma PruneExaminesCascade(lines: seq<Line2D>, nodes: seq<Node>, ribCount: nat, l: Line2D)
    requires DistinctRefs(lines)
    requires Prune(lines, nodes, ribCount).error.None?
    requires l in lines && l in Prune(lines, nodes, ribCount).lines
    requires IsStale(l, ribCount) || l.upperPoint in multiset(nodes) - multiset(Prune(lines, nodes, ribCount).nodes)
    ensures exists s :: s in lines && s != l && s.lowerPoint == l.lowerPoint
  {
    DistinctRefsSimple(lines);
    var stale := StaleLines(lines, ribCount);
    var marked := RemoveEach(nodes, Uppers(stale));
    assert marked.missing.None?;
    var o := Drain(lines, marked.rest, stale);
    assert Prune(lines, nodes, ribCount) == o;
    DrainExaminesCascade(lines, marked.rest, stale);
    if IsStale(l, ribCount) {
      StaleLinesSpec(lines, ribCount);
      assert l in stale;
    } else {
      UnmarkedUpperKept(lines, nodes, ribCount, l.upperPoint);
      assert l.upperPoint in multiset(marked.rest) - multiset(o.nodes);
    }
  }

  /** The marking removes no node that is not a stale upper attachment. */
  lemma UnmarkedUpperKept(lines: seq<Line2D>, nodes: seq<Node>, ribCount: nat, u: Node)
    requires RemoveEach(nodes, Uppers(StaleLines(lines, ribCount))).missing.None?
    requires !(u.kind.UpperAttachment? && u.kind.ribNo >= ribCount)
    ensures multiset(RemoveEach(nodes, Uppers(StaleLines(lines, ribCount))).rest)[u] == multiset(nodes)[u]
  {
    var stale := StaleLines(lines, ribCount);
    StaleLinesSpec(lines, ribCount);
    RemoveEachSpec(nodes, Uppers(stale));
    assert u !in Uppers(stale) by {
      forall k | 0 <= k < |stale| ensures Uppers(stale)[k] != u {
        assert stale[k] in stale;
      }
    }
  }

  /**
   * After a complete pruning, every line that was deleted took its lower
   * node out of the node list.
   */
  lemma PruneDeletesLowerNode(lines: seq<Line2D>, nodes: seq<Node>, ribCount: nat, l: Line2D)
    requires Prune(lines, nodes, ribCount).error.None?
    requires l in lines && l !in Prune(lines, nodes, ribCount).lines
    ensures multiset(Prune(lines, nodes, ribCount).nodes)[l.lowerPoint] < multiset(nodes)[l.lowerPoint]
  {
    var stale := StaleLines(lines, ribCount);
    var marked := RemoveEach(nodes, Uppers(stale));
    RemoveEachSpec(nodes, Uppers(stale));
    DrainDeletesLowerNode(lines, marked.rest, stale);
    SubseqMultiset(marked.rest, nodes);
  }

  /**
   * The entries of the first-round list that the loop visits as written:
   * it removes each visited entry from the very list it iterates over, so
   * the iteration steps over every second entry.
   */
  function FirstRoundVisits(temp: seq<Line2D>): (r: seq<Line2D>)
    ensures |r| == (|temp| + 1) / 2
    ensures forall k :: 0 <= k < |r| ==> r[k] == temp[2 * k]
    decreases |temp|
  {
    if |temp| <= 1 then temp else [temp[0]] + FirstRoundVisits(temp[2..])
  }

  /**
   * Draining the marked lines as written: the first round drains only the
   * entries it visits, and the entries it steps over are lost when the list
   * is replaced by the newly marked lines. Later rounds are drained as a
   * queue.
   */
  function DrainAsWritten(lines: seq<Line2D>, nodes: seq<Node>, marked: seq<Line2D>): (o: Outcome)
    ensures IsSubseq(o.lines, lines)
  {
    DrainOnlyRemoves(lines, nodes, FirstRoundVisits(marked));
    Drain(lines, nodes, FirstRoundVisits(marked))
  }

  // Two lines from ribs 5 and 6 of a five-rib glider, each down to its own
  // lower attachment point.
  function FarLower1(): Node { Node(0, LowerAttachment([], [])) }
  function FarLower2(): Node { Node(1, LowerAttachment([], [])) }
  function Rib5(): Node { Node(2, UpperAttachment(5, 50.0, 1.0)) }
  function Rib6(): Node { Node(3, UpperAttachment(6, 50.0, 1.0)) }
  function FarLine1(): Line2D { Line2D(0, Rib5(), FarLower1(), None, true) }
  function FarLine2(): Line2D { Line2D(1, Rib6(), FarLower2(), None, true) }

  /** `[a].remove(a)` leaves `[]`. */
  lemma RemoveOnly<T>(a: T)
    ensures RemoveFirst([a], a) == Some([])
  {
    assert IndexOf([a], a) == Some(0);
    assert [a][..0] + [a][1..] == [];
  }

  /** `[a, b].remove(a)` leaves `[b]`. */
  lemma RemoveHead<T>(a: T, b: T)
    ensures RemoveFirst([a, b], a) == Some([b])
  {
    assert IndexOf([a, b], a) == Some(0);
    assert [a, b][..0] + [a, b][1..] == [b];
  }

  /** A lone marked line is deleted together with its lower node. */
  lemma DrainLoneLine(l: Line2D)
    ensures Drain([l], [l.lowerPoint], [l]) == Outcome([], [], None)
  {
    assert !SharesLowerPoint([l], l);
    RemoveOnly(l.lowerPoint);
    RemoveOnly(l);
    NothingHangsFromLone(l);
    DrainDeletes([l], [l.lowerPoint], [l], [], []);
    assert [l][1..] + [] == [];
    DrainEmpty([], []);
  }

  lemma NothingHangsFromLone(l: Line2D)
    ensures HangingFrom([l], l) == []
  {
    var h := HangingFrom([l], l);
    assert forall x :: x !in h;
    assert multiset(h) == multiset{};
    assert |h| == |multiset(h)|;
  }

  /** Two lines down to two different lower nodes, neither hanging from the
      other's lower node: draining the first deletes it with its lower node. */
  lemma DrainFirstOfTwo(l1: Line2D, l2: Line2D, rest: seq<Line2D>)
    requires l1 != l2 && l1.lowerPoint != l2.lowerPoint && l2.upperPoint != l1.lowerPoint
    ensures Drain([l1, l2], [l1.lowerPoint, l2.lowerPoint], [l1] + rest) ==
      Drain([l2], [l2.lowerPoint], rest)
  {
    var lines, nodes, queue := [l1, l2], [l1.lowerPoint, l2.lowerPoint], [l1] + rest;
    FirstOfTwoUnshared(l1, l2);
    RemoveHead(l1.lowerPoint, l2.lowerPoint);
    RemoveHead(l1, l2);
    NothingHangsFromFirst(l1, l2);
    assert queue[1..] + [] == rest;
    DrainDeletes(lines, nodes, queue, [l2], [l2.lowerPoint]);
  }

  lemma FirstOfTwoUnshared(l1: Line2D, l2: Line2D)
    requires l1.lowerPoint != l2.lowerPoint
    ensures !SharesLowerPoint([l1, l2], l1)
  {
    forall j | 0 <= j < 2 ensures !([l1, l2][j].lowerPoint == l1.lowerPoint && [l1, l2][j] != l1) {
      if j == 1 { assert [l1, l2][j] == l2; }
    }
  }

  lemma NothingHangsFromFirst(l1: Line2D, l2: Line2D)
    requires l2.upperPoint != l1.lowerPoint
    ensures HangingFrom([l1, l2], l1) == []
  {
    var h := HangingFrom([l1, l2], l1);
    assert forall x :: x !in h;
    assert multiset(h) == multiset{};
    assert |h| == |multiset(h)|;
  }

  /** One deleting step of the drain, for lines and nodes given as values. */
  lemma DrainDeletes(lines: seq<Line2D>, nodes: seq<Node>, queue: seq<Line2D>, lines': seq<Line2D>, nodes': seq<Node>)
    requires queue != [] && !SharesLowerPoint(lines, queue[0])
    requires RemoveFirst(nodes, queue[0].lowerPoint) == Some(nodes')
    requires RemoveFirst(lines, queue[0]) == Some(lines')
    ensures Drain(lines, nodes, queue) == Drain(lines', nodes', queue[1..] + HangingFrom(lines, queue[0]))
  {
  }

  /** Draining an empty queue changes nothing. */
  lemma DrainEmpty(lines: seq<Line2D>, nodes: seq<Node>)
    ensures Drain(lines, nodes, []) == Outcome(lines, nodes, None)
  {
  }

  /**
   * Two marked lines down to two different lower nodes, neither hanging from
   * the other's lower node: the drain as written visits only the first and
   * keeps the second, while the queue deletes both.
   */
  lemma TwoUnsharedMarkedLines(l1: Line2D, l2: Line2D)
    requires l1 != l2 && l1.lowerPoint != l2.lowerPoint
    requires l2.upperPoint != l1.lowerPoint
    ensures DrainAsWritten([l1, l2], [l1.lowerPoint, l2.lowerPoint], [l1, l2])
      == Outcome([l2], [l2.lowerPoint], None)
    ensures Drain([l1, l2], [l1.lowerPoint, l2.lowerPoint], [l1, l2]) == Outcome([], [], None)
  {
    assert [l1, l2][2..] == [];
    assert FirstRoundVisits([l1, l2]) == [l1];
    assert [l1] + [] == [l1];
    DrainFirstOfTwo(l1, l2, []);
    DrainEmpty([l2], [l2.lowerPoint]);
    assert [l1] + [l2] == [l1, l2];
    DrainFirstOfTwo(l1, l2, [l2]);
    DrainLoneLine(l2);
  }

  /**
   * With both far lines marked, the drain as written keeps the second one
   * although no other line joins it at its lower point, against what
   * DrainQueuedSurvivor proves of the queue; the queue deletes both.
   */
  lemma AsWrittenSkipsSecondMarkedLine()
    ensures DrainAsWritten([FarLine1(), FarLine2()], [FarLower1(), FarLower2()], [FarLine1(), FarLine2()])
      == Outcome([FarLine2()], [FarLower2()], None)
    ensures !SharesLowerPoint([FarLine1(), FarLine2()], FarLine2())
    ensures Drain([FarLine1(), FarLine2()], [FarLower1(), FarLower2()], [FarLine1(), FarLine2()])
      == Outcome([], [], None)
  {
    FarLine2Unshared();
    TwoUnsharedMarkedLines(FarLine1(), FarLine2());
  }

  lemma FarLine2Unshared()
    ensures !SharesLowerPoint([FarLine1(), FarLine2()], FarLine2())
  {
    forall j | 0 <= j < 2
      ensures !([FarLine1(), FarLine2()][j].lowerPoint == FarLine2().lowerPoint && [FarLine1(), FarLine2()][j] != FarLine2())
    {
      if j == 0 { assert FarLower1() != FarLower2(); }
    }
  }

  // Lines from ribs 0 and 5 of a one-rib glider meeting at one lower
  // attachment point.
  function Junction(): Node { Node(0, LowerAttachment([], [])) }
  function Rib0(): Node { Node(1, UpperAttachment(0, 50.0, 1.0)) }
  function RibFive(): Node { Node(2, UpperAttachment(5, 50.0, 1.0)) }
  function KeptLine(): Line2D { Line2D(0, Rib0(), Junction(), None, true) }
  function MarkedLine(): Line2D { Line2D(1, RibFive(), Junction(), None, true) }

  lemma MarkRibFive()
    ensures StaleLines([KeptLine(), MarkedLine()], 1) == [MarkedLine()]
    ensures RemoveEach([Junction(), Rib0(), RibFive()], [RibFive()]) == Removal([Junction(), Rib0()], None)
  {
    assert [KeptLine(), MarkedLine()][1..] == [MarkedLine()];
    assert [MarkedLine()][1..] == [];
    assert [RibFive()][1..] == [];
    var ns := [Junction(), Rib0(), RibFive()];
    assert Rib0() != RibFive() && Junction() != RibFive();
    assert ns[1..] == [Rib0(), RibFive()] && ns[1..][1..] == [RibFive()];
    assert IndexOf(ns, RibFive()) == Some(2);
    assert ns[..2] + ns[3..] == [Junction(), Rib0()];
    assert RemoveFirst(ns, RibFive()) == Some([Junction(), Rib0()]);
  }

  /**
   * The rib-5 node leaves the node list, but its line stays, because the
   * line from rib 0 shares its lower point.
   */
  lemma SharedJunctionKeepsMarkedLine()
    ensures Prune([KeptLine(), MarkedLine()], [Junction(), Rib0(), RibFive()], 1)
      == Outcome([KeptLine(), MarkedLine()], [Junction(), Rib0()], None)
  {
    MarkRibFive();
    assert [KeptLine(), MarkedLine()][0].lowerPoint == MarkedLine().lowerPoint;
    assert SharesLowerPoint([KeptLine(), MarkedLine()], MarkedLine());
    assert Uppers([MarkedLine()]) == [RibFive()];
    assert [MarkedLine()][1..] == [];
  }
}
