# OpenGlider parametric glider core, modelled in Dafny

This project models three parts of OpenGlider and proves properties of the model.

- **The line-network resolver** (`LineSet2D` in `openglider/glider/glider_2d.py`). A paraglider's line plan is a list of nodes and a list of lines. A node is a lower attachment point, an upper attachment point on a rib, or a batch point (a junction). Each line has an upper and a lower endpoint, an optional target length and an `is_sorted` flag. Converting the plan to 3-D happens in four steps:
  1. Every line is turned so that its lower end faces a lower attachment point. This is a recursive depth-first walk from each lower attachment.
  2. Lines hanging from ribs the glider no longer has are pruned, and the pruning cascades downward.
  3. Every node is resolved to a 3-D node.
  4. One 3-D line is emitted per remaining line, numbered by its position.

  The line set can also be saved with endpoint references replaced by node indices, and loaded back.
- **The list and arithmetic parts of `Glider2D`** (the same file):
  - rescaling the four outline curves to a span;
  - the cell-distribution control points and the sample schedule of the cell distribution;
  - the span;
  - one arc angle per arc point;
  - the middle rib, which is inserted when the first rib is off the middle;
  - one rib per station and one cell per pair of neighbouring ribs;
  - mirroring a half outline into a whole one.
- **The 4x4 homogeneous transformations** (`openglider/vector/transformation.py`). They use the row-vector convention.

Files:
- `wrappers.dfy`: `Option` and `Result`.
- `sequences.dfy`: Python's `list.remove` and `list.index` on sequences, plus subsequences.
- `line_network.dfy`: nodes, 2-D lines and the sorting walk.
- `line_pruning.dfy`: `delete_not_connected`.
- `line_json.dfy`: the saved form of the line set.
- `lineset2d.dfy`: node resolution, line emission and the `LineSet2D` class.
- `glider2d.dfy`: the `Glider2D` pieces.
- `transformation.dfy`: the transforms.

Object identity is modelled by value. Nodes and lines are datatypes that carry a `ref` tag. No node class defines `__eq__`, so Python's `==` is object identity, and two model values are equal exactly when they stand for the same object. The line list, the node list and the node-to-3-D-node associations are fields of the `LineSet2D` class, and its methods update them in place. `Glider2D` is also a class: its curves are sequences of control points that its methods reassign.

Points of the code's behaviour that the model keeps as written:
- **`is_sorted` is never reset.** A new `Line2D` starts with `is_sorted` false (glider_2d.py:440). `sort_lines` sets it (411), and nothing clears it afterwards. A line sorted in an earlier conversion is therefore skipped by every later walk and keeps its orientation (`LineNetwork.SortFrom`).
- **A marked line with a shared lower node stays.** `delete_not_connected` removes the upper node of every line hanging from a missing rib (421). It deletes the line itself only when no other line shares its lower node (425-428). Otherwise the line stays in `self.lines` with its upper node gone (`SharedJunctionKeepsMarkedLine`).
- **Errors are raised.** `return_lineset` catches nothing. A missing node in `nodes.remove` raises ValueError, and a rib number past the rib list raises IndexError. A line whose endpoint was pruned from the node list has no `temp_node` on a first conversion, so reading it raises AttributeError. The model returns these errors, together with the state reached when the error is raised.
- **Composition order.** `a.dot(b)` multiplies `a.mat` by `b.mat` (transformation.py:21-22). Points are row vectors, so the product applies `a` first and `b` second (`DotAppliesFirstThenSecond`).
- **`Line2D` field names.** `Line2D` names its fields `lower_node`/`upper_node`, but every consumer reads `lower_point`/`upper_point`. The model has one pair of fields.

## Model

| member | source | states |
|---|---|---|
| LineNetwork.Orient | openglider/glider/glider_2d.py:408-411 | a line touching the walk's node is turned so that its lower end is that node and marked sorted; it keeps its identity, its target length and its two endpoints |
| LineNetwork.SortFrom | openglider/glider/glider_2d.py:402-412 | the walk keeps every line's identity and endpoints (possibly swapped), leaves every line that was already sorted exactly as it was (endpoints, order and flag), and never raises the number of unsorted lines; it terminates because each recursive call follows one more line becoming sorted |
| LineNetwork.SortFromCloses | openglider/glider/glider_2d.py:406-412 | after the walk from n, every line at or after the loop position touching n is sorted, and every line touching the upper point of a line the walk sorted is sorted too |
| LineNetwork.SortFromOrients | openglider/glider/glider_2d.py:406-412 | every line the walk sorted has n as its lower point or hangs from another line the walk sorted, whose upper point is its lower point |
| LineSets.LineSet2D.SortLines | openglider/glider/glider_2d.py:402-412 | the in-place recursive walk over the line list leaves exactly the lines of the walk's specification; nodes and resolved nodes are unchanged |
| LineSets.LowerAttachments | openglider/glider/glider_2d.py:383 | the roots are exactly the listed lower attachment points |
| LineSets.SortAll | openglider/glider/glider_2d.py:386-387 | sorting from every root keeps the number of lines, each line's identity and endpoints, and every line already sorted |
| LineSets.SortAllMarksRootLines | openglider/glider/glider_2d.py:386-387 | after sorting from all roots, every line touching a root is sorted |
| LineSets.LineSet2D.SortFromLowest | openglider/glider/glider_2d.py:383-387 | the loop over the lower attachments leaves the lines sorted from every root in list order |
| LinePruning.StaleLinesSpec | openglider/glider/glider_2d.py:417-420 | `StaleLines`: the marked lines are exactly the lines whose upper point is an upper attachment with rib number at least the rib count, in list order |
| LinePruning.RemoveEachSpec | openglider/glider/glider_2d.py:421 | `RemoveEach`: removing the marked lines' upper nodes one by one succeeds exactly when they are all present with multiplicity; the result is the node multiset minus those nodes and a subsequence of the nodes; a failure names a node that was to be removed |
| LineSets.LineSet2D.MarkStale | openglider/glider/glider_2d.py:415-421 | the marking loop returns the marked lines and removes their upper nodes from the node list, stopping at a missing node with the ValueError |
| LinePruning.Drain | openglider/glider/glider_2d.py:423-432 | the work-queue drain never adds lines; its behaviour is stated by the lemmas that follow |
| LinePruning.HangingFrom | openglider/glider/glider_2d.py:426 | the lines queued next are exactly the other lines whose upper point is the deleted line's lower point |
| LinePruning.DrainOnlyRemoves | openglider/glider/glider_2d.py:423-432 | draining the queue only deletes: the lines and nodes left are subsequences of those before, in the original order |
| LinePruning.DrainDeletesOnlyUnshared | openglider/glider/glider_2d.py:425-429 | a line is deleted only when no other remaining line shares its lower point |
| LinePruning.DrainQueuedSurvivor | openglider/glider/glider_2d.py:423-432 | a queued line that survives a successful drain has another line sharing its lower point |
| LinePruning.DrainFollowsCascade | openglider/glider/glider_2d.py:423-432 | every deleted line was queued at the start or hangs from a node the drain removed |
| LinePruning.DrainRemovesLowerPoints | openglider/glider/glider_2d.py:427-429 | every node a successful drain removes is the lower point of a deleted line |
| LineSets.LineSet2D.DrainMarked | openglider/glider/glider_2d.py:423-432 | the while loop over the work queue leaves the lines, nodes and error of the queue specification, each deletion removing the lower node, then the line, then queueing the lines hanging from it |
| LinePruning.PruneRemovesStaleUppers | openglider/glider/glider_2d.py:414-432 | `Prune`: pruning either fails on a missing upper node of a marked line, or removes every marked line's upper node; lines and nodes left are subsequences of those before |
| LinePruning.PruneKeepsSharedMarkedLine | openglider/glider/glider_2d.py:414-432 | a marked line whose lower point another surviving line shares stays in the line list, although its upper node was removed |
| LinePruning.PruneExaminesEveryMarkedLine | openglider/glider/glider_2d.py:423-432 | with the work queue, every marked line that survives has another line sharing its lower point |
| LinePruning.DrainDeletesLowerNode | openglider/glider/glider_2d.py:427-428 | every line a successful drain deletes takes one copy of its lower node out of the node list with it |
| LinePruning.DrainExaminesCascade | openglider/glider/glider_2d.py:423-432 | with the work queue, every surviving line that was queued, or whose upper node the drain removed, has another line sharing its lower point |
| LinePruning.PruneExaminesCascade | openglider/glider/glider_2d.py:414-432 | with the work queue, every surviving line that was marked, or whose upper node the pruning removed, has another line sharing its lower point: the cascade reaches every line hanging from a deleted node |
| LinePruning.PruneDeletesLowerNode | openglider/glider/glider_2d.py:414-432 | every line the pruning deletes leaves its lower node with one copy fewer in the node list |
| LinePruning.SharedJunctionKeepsMarkedLine | openglider/glider/glider_2d.py:414-432 | two lines from ribs 0 and 5 meeting at one lower node on a one-rib glider: only the rib-5 node goes, and both lines stay |
| LineSets.LineSet2D.DeleteNotConnected | openglider/glider/glider_2d.py:414-432 | marking then draining leaves the lines, nodes and error of the pruning specification |
| LinePruning.FirstRoundVisits | openglider/glider/glider_2d.py:424-431 | iterating over a list while removing each visited entry from it visits exactly the entries at even positions |
| LinePruning.DrainAsWritten | openglider/glider/glider_2d.py:423-432 | the drain as written, whose first round visits only the entries at even positions, leaves a subsequence of the lines |
| LinePruning.TwoUnsharedMarkedLines | openglider/glider/glider_2d.py:423-432 | for any two marked lines with different lower points, neither hanging from the other's lower point, the drain as written keeps the second line and its lower node, while the work queue deletes both |
| LinePruning.AsWrittenSkipsSecondMarkedLine | openglider/glider/glider_2d.py:423-432 | as written, the second of two marked lines with unshared lower points survives with its lower node, where the work queue deletes both |
| LineSets.GetNode | openglider/glider/glider_2d.py:331-335 | an upper attachment resolves to an attachment on rib `rib_no` (Python indexing, IndexError outside the rib list) at position/100; a lower attachment (302-303) to a fixed node at its 3-D position; a batch point (349-350) to a free node |
| LineSets.ResolveAllSpec | openglider/glider/glider_2d.py:389-390 | `ResolveAll`: resolving succeeds exactly when every node resolves; then every listed node maps to its 3-D node and earlier associations of other nodes are kept |
| LineSets.LineSet2D.ResolveNodes | openglider/glider/glider_2d.py:389-390 | the loop stores each node's 3-D node, stopping at the first IndexError |
| LineSets.EmitSpec | openglider/glider/glider_2d.py:392-398 | `Emit`: emitting succeeds exactly when both endpoints of every line have a 3-D node; then line k becomes 3-D line number k between those nodes with the same target length; a failure names an endpoint of some line that has none |
| LineSets.LineSet2D.EmitLines | openglider/glider/glider_2d.py:392-398 | the loop appends the 3-D lines of the emission specification |
| LineSets.ConvertEmitsEveryLine | openglider/glider/glider_2d.py:380-400 | `Convert`: a successful conversion emits one numbered line per remaining line between its endpoints' 3-D nodes; on a first conversion every endpoint of a remaining line is still a listed node |
| LineSets.LineSet2D.ReturnLineset | openglider/glider/glider_2d.py:380-400 | sorting, pruning, resolving and emitting in place give the lines, nodes, 3-D nodes and result of the conversion specification |
| LineSets.LineSet2D.constructor | openglider/glider/glider_2d.py:354-356 | the line set holds the given lines and nodes and no resolved nodes |
| Sequences.RemoveFirst | openglider/glider/glider_2d.py:428-429 | `list.remove` succeeds exactly when the element is present; it removes the first occurrence (the position `list.index` finds), so the result is one element shorter, the multiset loses exactly one copy of the element, and the rest keep their order |
| Sequences.IndexOf | openglider/glider/glider_2d.py:363-364 | `list.index` finds the first position holding the element, or fails when it is absent |
| LineJson.EndpointIndex | openglider/glider/glider_2d.py:363-364 | an endpoint is saved as the first position holding that very node (no earlier position holds it), and saving fails for a node not listed |
| LineJson.PyIndex | openglider/glider/glider_2d.py:375-377 | a saved position is looked up with Python's reading of negative positions, and a position outside the list is an IndexError |
| LineJson.ToJsonShape | openglider/glider/glider_2d.py:358-367 | `ToJson`: saving succeeds exactly when every endpoint is listed; one record per line keeps its identity, target length and flag, with each endpoint replaced by its position |
| LineJson.FromJsonShape | openglider/glider/glider_2d.py:369-378 | `FromJson`: loading succeeds exactly when every position is in range; each line keeps its identity, target length and flag, with the nodes looked up as endpoints |
| LineJson.JsonRoundTrip | openglider/glider/glider_2d.py:358-378 | loading what was saved against the same nodes gives back the same lines |
| Gliders.Rescale | openglider/glider/glider_2d.py:133-135 | rescaling keeps the number of points and every y, puts the last x at the span and keeps every ratio between x values; an empty list is an IndexError and a last x of 0 a ZeroDivisionError |
| Gliders.RescaleAgain | openglider/glider/glider_2d.py:128-135 | rescaling again to the same non-zero span changes nothing; after rescaling to span 0 any further rescaling is a ZeroDivisionError |
| Gliders.RescaleEachSpec | openglider/glider/glider_2d.py:132-135 | `RescaleEach`: when the loop over distinct curves succeeds, each named curve is its own rescaling and the others are unchanged |
| Gliders.SetSpanPutsTipsAtSpan | openglider/glider/glider_2d.py:128-135 | after a successful `set_span` the back, front, cell-distribution and angle-of-attack curves all end at x = span, with their sizes and y values unchanged |
| Gliders.Glider2D.SetSpan | openglider/glider/glider_2d.py:128-135 | the loop rescales back, front, cell distribution and angle of attack in this order; a failure keeps the curves rescaled before it |
| Gliders.Inner | openglider/glider/glider_2d.py:137-139 | the getter drops the first and last control point, and is empty for fewer than two |
| Gliders.WithEnds | openglider/glider/glider_2d.py:141-143 | the setter frames the points by (0, 0) and (x of the front's last control point, 1) |
| Gliders.InnerWithEnds | openglider/glider/glider_2d.py:137-143 | setting the inner control points and reading them back gives what was set, and a list framed by those two ends is rebuilt from its inner points |
| Gliders.Glider2D.SetCellDistControlpoints | openglider/glider/glider_2d.py:141-143 | the setter stores the framed list, after which the getter returns exactly the points set; an empty front curve is an IndexError |
| Gliders.Linspace | openglider/glider/glider_2d.py:152 | numpy's `linspace` gives num values, a single value num = 1 being start, and rejects a negative count |
| Gliders.LinspaceSpec | openglider/glider/glider_2d.py:152 | a linspace of at least two values starts at start, ends at stop, has equal gaps and rises strictly when start < stop |
| Gliders.CellDistSchedule | openglider/glider/glider_2d.py:150-152 | no cells is a ZeroDivisionError |
| Gliders.CellDistScheduleSpec | openglider/glider/glider_2d.py:150-152 | for a positive cell count the schedule has cell_num // 2 + 1 strictly rising values ending at 1, starting at 0 for an even count and at 1/cell_num for an odd one |
| Gliders.Span | openglider/glider/glider_2d.py:166-168 | the span exists exactly when the cell distribution has samples |
| Gliders.SpanIsMirroredExtent | openglider/glider/glider_2d.py:166-168 | the span is the distance between the two tips of the mirrored outline |
| Gliders.MirrorXSymmetric | openglider/glider/glider_2d.py:180-182 | `MirrorX`: the mirrored outline has 2n - 1 points, or 2n - 2 with a centre cell, ends with the half outline, and is symmetric about x = 0 (apart from the first point of the half outline, which sits in the middle when there is no centre cell) |
| Gliders.ExtendArc | openglider/glider/glider_2d.py:84-89 | an arc starting off the middle gets its first point's mirror image in front |
| Gliders.GetArcAngles | openglider/glider/glider_2d.py:79-100 | one angle per arc point; 0 first for an arc starting in the middle; every other angle is atan2 of the summed unit directions of the neighbouring segments; an empty arc is an IndexError |
| Gliders.MidribKeepsListsAligned | openglider/glider/glider_2d.py:243-247 | `InsertMidrib`: the x, arc-position and arc-angle lists grow together, by one exactly when the first x is off the middle, keep their old contents behind, and the new first rib mirrors the old one |
| Gliders.RibFrames | openglider/glider/glider_2d.py:249-260 | one rib per station with that station's x, arc position and arc angle, all with the first profile; a short arc list is an IndexError |
| Gliders.Glider2D.BuildRibs | openglider/glider/glider_2d.py:249-260 | the appending loop builds the ribs of the rib specification |
| Gliders.CellsOf | openglider/glider/glider_2d.py:262-265 | one cell per pair of neighbouring ribs, in order; cell k has panel number k and ribs k and k + 1, so that neighbouring cells share a rib |
| Gliders.Glider2D.BuildCells | openglider/glider/glider_2d.py:262-265 | the appending loop builds the cells of the cell specification |
| Gliders.HalfGliderCellCount | openglider/glider/glider_2d.py:243-265 | with the schedule's station count, and the first station in the middle exactly for an even count, the half glider has (cell_num + 1) / 2 cells |
| Gliders.HalfGlider | openglider/glider/glider_2d.py:228-260 | ribs are built only when there are profiles, the cell-distribution schedule has stations and the arc angles can be computed; otherwise the IndexError or ZeroDivisionError is returned |
| Gliders.HalfGliderSpec | openglider/glider/glider_2d.py:228-260 | a built half glider has one rib per scheduled station, plus the mirrored middle rib when the first station is off the middle; all ribs carry the first profile, and the outermost rib sits where the stretched angle-of-attack curve ends |
| Gliders.Glider2D.GetGlider3D | openglider/glider/glider_2d.py:220-273 | the angle-of-attack curve is stretched even when a later step fails; on success the glider's ribs, its cells (neighbouring rib pairs) and the line set's conversion for that many ribs are returned |
| Gliders.Glider2D.constructor | openglider/glider/glider_2d.py:25-37 | the glider holds the given curves, cell count, profiles and line set |
| Transforms.New | openglider/vector/transformation.py:8-11 | a transformation is built exactly from a 4x4 matrix |
| Transforms.ApplyPoint | openglider/vector/transformation.py:13-19 | 2-D and 3-D points get the upper-left block and the translation row; 4-D points are multiplied by the whole matrix; other sizes are refused |
| Transforms.Call | openglider/vector/transformation.py:13-19 | a batch is transformed point by point at the dimension of its first point, and an empty batch has no first point |
| Transforms.Apply3IsHomogeneous | openglider/vector/transformation.py:13-19 | for an affine matrix, the 3-D call is the homogeneous row (p, 1) times the matrix |
| Transforms.Dot | openglider/vector/transformation.py:21-22 | entry (i, j) of `a.dot(b)` is row i of `a` times column j of `b` |
| Transforms.DotAppliesFirstThenSecond | openglider/vector/transformation.py:13-22 | for an affine first factor, `a.dot(b)` applied to a 3-D point is `b` applied to `a` applied to it |
| Transforms.DotAppliesFirstThenSecond4 | openglider/vector/transformation.py:21-22 | on 4-D points `a.dot(b)` is `a` then `b`, for any matrices |
| Transforms.DotKeepsAffine | openglider/vector/transformation.py:21-22 | composing affine transformations gives an affine one |
| Transforms.Translate | openglider/vector/transformation.py:70-77 | no vector gives the identity; a vector must have three coordinates; the result is affine |
| Transforms.TranslateMovesBy | openglider/vector/transformation.py:70-77 | translating by v carries p to p + v |
| Transforms.Scale | openglider/vector/transformation.py:58-67 | no values give the identity, a number scales all axes alike, three values scale per axis; the matrix is linear and symmetric |
| Transforms.ScaleScalesEachAxis | openglider/vector/transformation.py:58-67 | scaling multiplies each coordinate by its factor |
| Transforms.Reflection | openglider/vector/transformation.py:42-55 | the reflection matrix is symmetric with last row and column (0, 0, 0, 1); an axis must have three coordinates |
| Transforms.ReflectionFlipsAxis | openglider/vector/transformation.py:42-55 | a unit axis is carried to its negative |
| Transforms.ReflectionFixesPlane | openglider/vector/transformation.py:42-55 | points perpendicular to the axis stay where they are |
| Transforms.ReflectionIsInvolution | openglider/vector/transformation.py:42-55 | reflecting twice gives every point back |
| Transforms.ReflectionDotItselfFixesPoints | openglider/vector/transformation.py:13-55 | `r.dot(r)` leaves every point where it is |
| Transforms.Rotation | openglider/vector/transformation.py:25-39 | the rotation matrix has last row and column (0, 0, 0, 1); an axis must have three coordinates |
| Transforms.RotationFixesAxis | openglider/vector/transformation.py:25-39 | with cos^2 + sin^2 = 1 for the half angle, a unit axis is carried to itself |

## Left out

- Bezier evaluation, `interpolate_3d` and the curve fitters belong to other modules, which are not part of this model. Where a structural property needs them, they are function parameters: `GetGlider3D` takes the cell-distribution interpolation as a parameter.
- `normalize` and `numpy.arctan2` in `get_arc_angles` are function parameters, so only the list structure of the angles is modelled. This is why `GetArcAngles` is a module-level method, outside the `Glider2D` class, that takes the arc as a parameter.
- The `arc_curve or self.get_arc_positions()` default is left to the caller: `GetArcAngles` receives the arc that was chosen.
- `get_arc_positions` (arc-length resampling and rescaling) is left out: `GetGlider3D` receives its two results as parameters, one for the rib positions and one for the angles.
- The 3-D geometry of a rib is left out (its start point, chord, glide, and the angle-of-attack values from the interpolated curves). A rib is kept as its profile, x, arc position and arc angle.
- Foreign classes are left out: `Rib`, `Cell`, `Panel`, `Node`, `Line`, `LineSet`, `AttachmentPoint` (including `get_position`), `Glider.close_rib`, `calc_geo` and `calc_sag`.
- The rib count passed to the line conversion is the number of ribs built. The `Glider` class is not part of this model.
- `v_inf` (trigonometry) is left out, and so are `shape`, `ribs`, `shape_point`, `depth_integrated`, `attachment_points`, `up_att_point.get_2d`, `create_default`, the per-class `__json__` of nodes and of `Glider2D`, and the node `nr` fields.
- `fit_glider_3d` is modelled only for its `mirror_x` helper. The least-squares fitting and scipy interpolation are numerical library calls.
- Numbers are exact reals, so floating-point rounding is not modelled, including numpy's exact placement of the last `linspace` value.
- `print` calls are left out.
- Integers are unbounded, as in Python. For the divisor 2 used by the schedule, Dafny's `/` and `%` agree with Python's floor division and modulo.
- `LinePruning.Drain`: draining is a first-in first-out queue. In the code's second and later rounds, `temp` and `temp_new` are one list that is appended to and removed from while it is being iterated. The exact order in which cascaded lines are examined there is not modelled.
- A line object listed twice in `self.lines` is not modelled. The lemmas that need it require distinct lines (`DistinctRefs`).
- The 3-D node stored on each node object (`temp_node`) is a map from node to 3-D node, kept in the `LineSet2D` object across conversions.
- `Glider2D`'s four curves are separate sequences of control points. Two attributes holding the same curve object, which the code would rescale twice, is not modelled.
- The `profiles or []` and `lineset or LineSet2D([], [])` defaults in `Glider2D.__init__` are left to the caller.
- `Transforms.Reflection`: the axis is taken as already of unit length, because `normalize` needs a square root. The reflection lemmas require a unit axis.
- `Transforms.Rotation`: the cosine and sine of the half angle are parameters, so the trigonometry is not modelled. The axis is used as given, without normalizing it. The code multiplies by `-normalize(axis)` (transformation.py:32), so for an axis that is not of unit length the two matrices differ. `RotationFixesAxis` therefore requires a unit axis. The contract states only the shape of the matrix, and a separate lemma shows that the axis is fixed. That a rotation by the opposite angle undoes it is not stated.
- `Transforms.Call`: numpy broadcasting over arrays of other shapes is modelled only as a refusal.

## Findings

| source | as written | input that shows it | evidently intended | confidence | as-written member | corrected member |
|---|---|---|---|---|---|---|
| openglider/glider/glider_2d.py:423-432 | `for line in temp` removes each visited line from `temp` itself (431), so the first round visits only the marked lines at even positions; `temp = temp_new` (432) then drops the others | two marked lines, hanging from ribs 5 and 6 of a glider with fewer ribs, whose lower points are two different lower attachments that no other line uses: the first line and its lower node are deleted, but the second line and its lower node stay | every marked line is examined once (a work queue), so both lines and both lower nodes are deleted | not executed | LinePruning.AsWrittenSkipsSecondMarkedLine | LinePruning.PruneExaminesEveryMarkedLine |
