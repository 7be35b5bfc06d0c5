/**
 * Saving and loading a 2-D line layout: on the way out each line is copied
 * and its two endpoint references are replaced by their positions in the
 * node list; on the way in every endpoint given as a position is looked up
 * in the node list again (Python indexing, so negative positions count from
 * the end), and an endpoint given as a node is kept.
 */
module LineJson {
  import opened Wrappers
  import opened Sequences
  import opened LineNetwork

  /** An endpoint as stored: a position in the node list, or the node itself. */
  datatype Endpoint = Index(i: int) | Direct(node: Node)

  /** A line as stored. */
  datatype LineRecord = LineRecord(
    ref: nat,
    upperPoint: Endpoint,
    lowerPoint: Endpoint,
    targetLength: Option<real>,
    isSorted: bool)

  /** `nodes.index` raised ValueError, or `nodes[i]` raised IndexError. */
  datatype JsonError = NotListed(node: Node) | BadIndex(i: int)

  /** The position of n in nodes, as `nodes.index(n)` finds it. */
  function EndpointIndex(nodes: seq<Node>, n: Node): (r: Result<Endpoint, JsonError>)
    ensures r.Ok? <==> n in nodes
    ensures r.Ok? ==> r.value.Index? && 0 <= r.value.i < |nodes| && nodes[r.value.i] == n
    ensures r.Ok? ==> forall j :: 0 <= j < r.value.i ==> nodes[j] != n
    ensures r.Err? ==> r.error == NotListed(n)
  {
    match IndexOf(nodes, n)
    case None => Err(NotListed(n))
    case Some(i) => Ok(Index(i))
  }

  /** `nodes[i]` with Python's reading of negative i. */
  function PyIndex(nodes: seq<Node>, i: int): (r: Result<Node, JsonError>)
    ensures r.Ok? <==> -|nodes| <= i < |nodes|
    ensures r.Ok? && i >= 0 ==> r.value == nodes[i]
    ensures r.Ok? && i < 0 ==> r.value == nodes[|nodes| + i]
    ensures r.Err? ==> r.error == BadIndex(i)
  {
    if 0 <= i < |nodes| then Ok(nodes[i])
    else if -|nodes| <= i < 0 then Ok(nodes[|nodes| + i])
    else Err(BadIndex(i))
  }

  /** Both endpoints of l are listed nodes. */
  predicate EndsListed(l: Line2D, nodes: seq<Node>) {
    l.upperPoint in nodes && l.lowerPoint in nodes
  }

  /** The copy of one line with its endpoints replaced by positions, upper first. */
  function LineToJson(l: Line2D, nodes: seq<Node>): Result<LineRecord, JsonError> {
    var up :- EndpointIndex(nodes, l.upperPoint);
    var low :- EndpointIndex(nodes, l.lowerPoint);
    Ok(LineRecord(l.ref, up, low, l.targetLength, l.isSorted))
  }

  /** The stored form of the lines; the lines themselves are values and so stay as they were. */
  function ToJson(lines: seq<Line2D>, nodes: seq<Node>): Result<seq<LineRecord>, JsonError> {
    if lines == [] then Ok([])
    else
      var first :- LineToJson(lines[0], nodes);
      var rest :- ToJson(lines[1..], nodes);
      Ok([first] + rest)
  }

  function EndpointFromJson(e: Endpoint, nodes: seq<Node>): Result<Node, JsonError> {
    match e
    case Index(i) => PyIndex(nodes, i)
    case Direct(n) => Ok(n)
  }

  function LineFromJson(r: LineRecord, nodes: seq<Node>): Result<Line2D, JsonError> {
    var up :- EndpointFromJson(r.upperPoint, nodes);
    var low :- EndpointFromJson(r.lowerPoint, nodes);
    Ok(Line2D(r.ref, up, low, r.targetLength, r.isSorted))
  }

  /** The lines rebuilt from their stored form. */
  function FromJson(records: seq<LineRecord>, nodes: seq<Node>): Result<seq<Line2D>, JsonError> {
    if records == [] then Ok([])
    else
      var first :- LineFromJson(records[0], nodes);
      var rest :- FromJson(records[1..], nodes);
      Ok([first] + rest)
  }

  /**
   * Saving succeeds exactly when every endpoint is a listed node; then
   * there is one record per line, in order, keeping the line's identity,
   * target length and flag, with each endpoint replaced by a position
   * holding that very node.
   */
  lemma {:induction false} ToJsonShape(lines: seq<Line2D>, nodes: seq<Node>)
    ensures ToJson(lines, nodes).Ok? <==> forall k :: 0 <= k < |lines| ==> EndsListed(lines[k], nodes)
    ensures ToJson(lines, nodes).Ok? ==>
      var rs := ToJson(lines, nodes).value;
      |rs| == |lines| &&
      forall k :: 0 <= k < |lines| ==>
        rs[k].ref == lines[k].ref && rs[k].targetLength == lines[k].targetLength &&
        rs[k].isSorted == lines[k].isSorted &&
        rs[k].upperPoint.Index? && 0 <= rs[k].upperPoint.i < |nodes| &&
        nodes[rs[k].upperPoint.i] == lines[k].upperPoint &&
        rs[k].lowerPoint.Index? && 0 <= rs[k].lowerPoint.i < |nodes| &&
        nodes[rs[k].lowerPoint.i] == lines[k].lowerPoint
  {
    if lines != [] {
      ToJsonShape(lines[1..], nodes);
      assert forall k :: 1 <= k < |lines| ==> lines[k] == lines[1..][k - 1];
      if ToJson(lines, nodes).Ok? {
        var rs := ToJson(lines, nodes).value;
        assert rs[1..] == ToJson(lines[1..], nodes).value;
      }
    }
  }

  /** Loading what was saved against the same nodes gives back the lines. */
  lemma {:induction false} JsonRoundTrip(lines: seq<Line2D>, nodes: seq<Node>)
    requires ToJson(lines, nodes).Ok?
    ensures FromJson(ToJson(lines, nodes).value, nodes) == Ok(lines)
  {
    if lines != [] {
      JsonRoundTrip(lines[1..], nodes);
      var rs := ToJson(lines, nodes).value;
      assert rs[0] == LineToJson(lines[0], nodes).value;
      assert rs[1..] == ToJson(lines[1..], nodes).value;
      assert lines == [lines[0]] + lines[1..];
    }
  }

  /**
   * Loading succeeds exactly when every position is within Python's range
   * for the node list; each line keeps its identity, target length and
   * flag, and its endpoints are the nodes looked up.
   */
  lemma {:induction false} FromJsonShape(records: seq<LineRecord>, nodes: seq<Node>)
    ensures FromJson(records, nodes).Ok? <==> forall k :: 0 <= k < |records| ==>
      EndpointFromJson(records[k].upperPoint, nodes).Ok? &&
      EndpointFromJson(records[k].lowerPoint, nodes).Ok?
    ensures FromJson(records, nodes).Ok? ==>
      var ls := FromJson(records, nodes).value;
      |ls| == |records| &&
      forall k :: 0 <= k < |records| ==>
        ls[k].ref == records[k].ref && ls[k].targetLength == records[k].targetLength &&
        ls[k].isSorted == records[k].isSorted &&
        ls[k].upperPoint == EndpointFromJson(records[k].upperPoint, nodes).value &&
        ls[k].lowerPoint == EndpointFromJson(records[k].lowerPoint, nodes).value
  {
    if records != [] {
      FromJsonShape(records[1..], nodes);
      assert forall k :: 1 <= k < |records| ==> records[k] == records[1..][k - 1];
      if FromJson(records, nodes).Ok? {
        var ls := FromJson(records, nodes).value;
        assert ls[1..] == FromJson(records[1..], nodes).value;
      }
    }
  }
}
