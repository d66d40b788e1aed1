# Folding regions from a parse tree

This project models `AbstractFoldingComputer` of the Aptana editor framework,
the base class that computes the code-folding regions of an editor document by
walking the document's parse tree (AST).

`emitFoldingRegions` needs a document of at least two lines and a parse result.
It walks the tree depth-first and in pre-order with `getPositions`. For each
node it checks the monitor's cancel flag, then asks the language binding's
hooks:

- `isFoldable`: is this node a candidate at all?
- `isCollapsed`: does its fold start collapsed? This is asked only on the
  initial reconcile.
- `traverseInto`: should the walk descend into the node?

A foldable node gets a region from its starting offset to the end of the line
that holds its ending offset, line delimiter included, clamped to the document
length. The node gets no region when it starts and ends on the same line, or
when an earlier region already claimed its start line. The list `fLines` holds
the claimed start lines. A line lookup that throws `BadLocationException` does
not drop the node: it keeps the region with the unsnapped end
`getEndingOffset() + 1`, clamped, and claims no line
(`AbstractFoldingComputer.java:134-135`, `:165-174`: `add` stays true).

`getChildren` appends a `ParseRootNode`'s comment nodes after its ordinary
children, at any depth.

The model has five modules:

- `Wrappers`: `Option`, standing for a null reference or a failed lookup.
- `JavaInt`: Java's 32-bit `int`, with the wrap-around of `x + 1`.
- `LineTable`: the document as a table of line lengths, each including its
  delimiter. Provides `getNumberOfLines`, `getLength`, `getLineOfOffset` (with
  its bad-location case), `getLineOffset` and `getLineLength`. It also proves
  that the line spans partition the document.
- `ParseTree`: the parse node, the root's comment nodes and `getChildren`.
- `Folding`:
  - the hooks as a `Policy` of three functions, with the default `isCollapsed`
    and `traverseInto`;
  - the functional specification of the walk: `NodeRegion` (the region check
    of one node), `Positions` (the loop of `getPositions`), `Visit` (one turn
    of the loop and the recursion under it) and `FoldingRegions`;
  - the independent reference definition: a pre-order list of the tree
    (`PreOrder`, `Subtree`) scanned node by node (`Scan`);
  - the imperative code: `ProgressMonitor` and `FoldingComputer`, whose
    `fLines` field is appended to in place across the recursion.
- `FoldingProperties`: the lemmas.
  - The walk is a scan of the pre-order, cut at the first cancelled check.
  - Cancellation only truncates the result.
  - No two regions start on the same line.
  - Regions of in-bounds nodes are snapped to line ends and lie within the
    document.
  - Collapsing follows `initialReconcile` and `isCollapsed`.

The result map of the source (`ProjectionAnnotation` to `Position`) is modelled
as a sequence of `Region(start, end, collapsed)` in the order the entries are
put. Every key is a fresh annotation object, so `put` and `putAll` never
overwrite an entry.

## Model

| member | source | states |
|---|---|---|
| JavaInt.Increment | plugins/com.aptana.editor.common/src/com/aptana/editor/common/text/AbstractFoldingComputer.java:135 | `getEndingOffset() + 1` is the true successor reduced modulo 2^32 into the int range: it is `x + 1`, except that Integer.MAX_VALUE wraps to Integer.MIN_VALUE |
| JavaInt.Min | plugins/com.aptana.editor.common/src/com/aptana/editor/common/text/AbstractFoldingComputer.java:171 | `Math.min` gives one of its arguments, and it is no larger than either |
| LineTable.NumberOfLines | plugins/com.aptana.editor.common/src/com/aptana/editor/common/text/AbstractFoldingComputer.java:66 | `getNumberOfLines` is at least one: even an empty document has a line |
| LineTable.Length | plugins/com.aptana.editor.common/src/com/aptana/editor/common/text/AbstractFoldingComputer.java:171 | `getLength` is where the last line ends, its delimiter included |
| LineTable.LineOffset | plugins/com.aptana.editor.common/src/com/aptana/editor/common/text/AbstractFoldingComputer.java:157 | `getLineOffset` of the first line is 0 |
| LineTable.LineLength | plugins/com.aptana.editor.common/src/com/aptana/editor/common/text/AbstractFoldingComputer.java:157 | lines are contiguous: `getLineOffset(line) + getLineLength(line)` is the offset of the next line |
| LineTable.LineOfOffset | plugins/com.aptana.editor.common/src/com/aptana/editor/common/text/AbstractFoldingComputer.java:138 | a line lookup fails (BadLocationException) exactly for an offset below 0 or above the document length; otherwise it gives an existing line |
| LineTable.LineOfOffsetHolds | plugins/com.aptana.editor.common/src/com/aptana/editor/common/text/AbstractFoldingComputer.java:138 | the line found for an in-document offset starts at or before it and ends, delimiter included, at or after it (strictly after unless it is the last line) |
| LineTable.LineOfOffsetUnique | plugins/com.aptana.editor.common/src/com/aptana/editor/common/text/AbstractFoldingComputer.java:147 | conversely, the line whose span holds an offset is the line found for it: line spans partition the document |
| LineTable.LineOfOffsetMonotone | plugins/com.aptana.editor.common/src/com/aptana/editor/common/text/AbstractFoldingComputer.java:138-148 | a node's start line is never after its end line |
| LineTable.LineEndBefore | plugins/com.aptana.editor.common/src/com/aptana/editor/common/text/AbstractFoldingComputer.java:157 | the end of a line (offset plus length, delimiter included) is no later than the start of any later line, and no later than the document's end |
| LineTable.LineEndWithinDocument | plugins/com.aptana.editor.common/src/com/aptana/editor/common/text/AbstractFoldingComputer.java:157 | `getLineOffset(endLine) + getLineLength(endLine)` never exceeds the document length |
| ParseTree.GetChildren | plugins/com.aptana.editor.common/src/com/aptana/editor/common/text/AbstractFoldingComputer.java:102-118 | the ordinary children come first, unchanged and in order; for a ParseRootNode its comment nodes follow them; nothing else is added |
| ParseTree.GetChildrenBelow | plugins/com.aptana.editor.common/src/com/aptana/editor/common/text/AbstractFoldingComputer.java:102-118 | every node getChildren gives is a proper part of the node, so the recursion of getPositions ends |
| Folding.DefaultPolicy | plugins/com.aptana.editor.common/src/com/aptana/editor/common/text/AbstractFoldingComputer.java:193-221 | with the default hooks, nothing starts collapsed, and the walk enters a node exactly when it has children |
| Folding.ProgressMonitor.IsCanceled | plugins/com.aptana.editor.common/src/com/aptana/editor/common/text/AbstractFoldingComputer.java:127 | each check is counted, and it reports cancelled exactly when the sticky cancel oracle is set for that check number |
| Folding.FoldingComputer.constructor | plugins/com.aptana.editor.common/src/com/aptana/editor/common/text/AbstractFoldingComputer.java:34-39 | a new computer holds the document and the language binding's hooks; fLines is null and initialReconcile false until emitFoldingRegions sets them |
| Folding.FoldingComputer.AddRegion | plugins/com.aptana.editor.common/src/com/aptana/editor/common/text/AbstractFoldingComputer.java:131-175 | the in-place region check (locals `add` and `end`, `fLines.add`) adds the regions and claims the lines of the functional per-node check NodeRegion |
| Folding.FoldingComputer.VisitChild | plugins/com.aptana.editor.common/src/com/aptana/editor/common/text/AbstractFoldingComputer.java:131-180 | a child's own region comes first, then, only when traverseInto holds, the regions under it, threading fLines and the check count |
| Folding.FoldingComputer.GetPositions | plugins/com.aptana.editor.common/src/com/aptana/editor/common/text/AbstractFoldingComputer.java:120-185 | the loop over getChildren, with its early return on cancel, collects the regions, claimed lines and check count of the specification Positions, starting from the claimed lines and count it finds |
| Folding.FoldingComputer.EmitFoldingRegions | plugins/com.aptana.editor.common/src/com/aptana/editor/common/text/AbstractFoldingComputer.java:61-100 | the result is FoldingRegions of the inputs alone, because fLines starts empty on every call; fLines is null afterwards, except after the early return for a one-line document; no check is made when nothing is walked |
| Folding.FoldingRegions | plugins/com.aptana.editor.common/src/com/aptana/editor/common/text/AbstractFoldingComputer.java:66-78 | a document of at most one line, or a missing parse result, yields no region for any tree |
| Folding.NodeRegion | plugins/com.aptana.editor.common/src/com/aptana/editor/common/text/AbstractFoldingComputer.java:131-175 | one node's region check adds at most one region; it claims a line only together with that region, and the line is the region's start line and was not claimed before, so the first claim of a line wins. RegionCheck gives the exact conditions |
| Folding.Positions | plugins/com.aptana.editor.common/src/com/aptana/editor/common/text/AbstractFoldingComputer.java:120-185 | the loop of getPositions makes at most one cancel check per node under the children it walks; WalkIsScanOfPreOrder gives its result |
| Folding.Visit | plugins/com.aptana.editor.common/src/com/aptana/editor/common/text/AbstractFoldingComputer.java:131-180 | one turn of the loop, the child's region check and then the recursion under it when traverseInto holds, makes fewer checks than the child's subtree has nodes; VisitIsScan gives its result |
| Folding.PositionsStep | plugins/com.aptana.editor.common/src/com/aptana/editor/common/text/AbstractFoldingComputer.java:125-181 | after a passing check at index i, the regions the loop has collected, then those of the visit of child i, then the walk over the later siblings, make up the whole walk |
| Folding.PositionsCancelled | plugins/com.aptana.editor.common/src/com/aptana/editor/common/text/AbstractFoldingComputer.java:127-130 | a cancelled check abandons the remaining siblings: nothing more is collected and no line is claimed |
| Folding.PositionsDone | plugins/com.aptana.editor.common/src/com/aptana/editor/common/text/AbstractFoldingComputer.java:125-184 | once every child has been visited nothing is left to walk, and the claimed lines and check count stay as they are |
| Folding.BelowSmaller | plugins/com.aptana.editor.common/src/com/aptana/editor/common/text/AbstractFoldingComputer.java:176-180 | the nodes the walk descends into form a smaller tree than the node itself |
| FoldingProperties.RegionCheck | plugins/com.aptana.editor.common/src/com/aptana/editor/common/text/AbstractFoldingComputer.java:131-175 | per node, at most one region. When both lookups succeed, there is a region exactly when the node is foldable, its start line is unclaimed and its end line differs; only then is the start line claimed. When the start lookup fails, a foldable node still gets a region with the unsnapped end and claims nothing. When only the end lookup fails, the same holds if the start line is unclaimed. A single-line node never blocks a later one |
| FoldingProperties.Visited | plugins/com.aptana.editor.common/src/com/aptana/editor/common/text/AbstractFoldingComputer.java:125-130 | the number of nodes reached is the number of consecutive checks that pass; the check after them is cancelled unless every node is reached |
| FoldingProperties.StartLines | plugins/com.aptana.editor.common/src/com/aptana/editor/common/text/AbstractFoldingComputer.java:138 | one start line per region, in order |
| FoldingProperties.ScanAppend | plugins/com.aptana.editor.common/src/com/aptana/editor/common/text/AbstractFoldingComputer.java:125-181 | checking two node lists one after the other, threading the claimed lines, is checking their concatenation |
| FoldingProperties.ScanPrefix | plugins/com.aptana.editor.common/src/com/aptana/editor/common/text/AbstractFoldingComputer.java:125-130 | checking a prefix of the nodes yields a prefix of the regions |
| FoldingProperties.PreOrderAppend | plugins/com.aptana.editor.common/src/com/aptana/editor/common/text/AbstractFoldingComputer.java:125-181 | the pre-order of two sibling lists is the pre-order of the first followed by that of the second |
| FoldingProperties.CommentsAfterChildren | plugins/com.aptana.editor.common/src/com/aptana/editor/common/text/AbstractFoldingComputer.java:102-118 | under a ParseRootNode, every node below its ordinary children is visited before any of its comment nodes, which keep their order |
| FoldingProperties.VisitedSplit | plugins/com.aptana.editor.common/src/com/aptana/editor/common/text/AbstractFoldingComputer.java:127-130 | the checks passed for a node, for the nodes under it and for its later siblings add up, and the walk stops at the first cancelled one |
| FoldingProperties.WalkWhenCancelled | plugins/com.aptana.editor.common/src/com/aptana/editor/common/text/AbstractFoldingComputer.java:127-130 | a walk entered after the monitor is cancelled collects nothing, claims nothing, and leaves the monitor cancelled |
| FoldingProperties.VisitIsScan | plugins/com.aptana.editor.common/src/com/aptana/editor/common/text/AbstractFoldingComputer.java:131-180 | visiting a node after its check passed scans the node and then the nodes under it that get a passing check; it either makes one check per node under it or ends with the monitor cancelled |
| FoldingProperties.WalkIsScanOfPreOrder | plugins/com.aptana.editor.common/src/com/aptana/editor/common/text/AbstractFoldingComputer.java:120-185 | the recursive walk, whose cancelled inner levels return their partial result to a parent that then stops at its next check, collects the regions and claims the lines of a flat scan over the first m nodes of the pre-order, m being the number of checks that pass |
| FoldingProperties.FoldingRegionsAreScan | plugins/com.aptana.editor.common/src/com/aptana/editor/common/text/AbstractFoldingComputer.java:61-100 | the regions of a call are those of a scan, starting with no claimed line, over the visited prefix of the pre-order under the root; with NodeRegion, a start line belongs to the first node in pre-order that claims it |
| FoldingProperties.UncancelledIsFullScan | plugins/com.aptana.editor.common/src/com/aptana/editor/common/text/AbstractFoldingComputer.java:125-181 | without cancellation every node of the pre-order is checked |
| FoldingProperties.CancelledIsPrefix | plugins/com.aptana.editor.common/src/com/aptana/editor/common/text/AbstractFoldingComputer.java:125-130 | a cancelled call returns a prefix, in the order entries are put, of the uncancelled result |
| FoldingProperties.CancelledAtOnceIsEmpty | plugins/com.aptana.editor.common/src/com/aptana/editor/common/text/AbstractFoldingComputer.java:127-130 | a monitor cancelled before the first check yields no region |
| FoldingProperties.ScanOrigin | plugins/com.aptana.editor.common/src/com/aptana/editor/common/text/AbstractFoldingComputer.java:131-175 | every region of a scan is the region (RegionOf) of one of the scanned nodes |
| FoldingProperties.RegionsFromVisitedNodes | plugins/com.aptana.editor.common/src/com/aptana/editor/common/text/AbstractFoldingComputer.java:125-179 | every region of a call is the region of a node in the pre-order of the tree |
| FoldingProperties.SnappedRegion | plugins/com.aptana.editor.common/src/com/aptana/editor/common/text/AbstractFoldingComputer.java:133-171 | for an in-bounds node, the region starts at the node's start and ends at the end of its end line, which comes after its start line; the region is non-empty and within the document, so the clamp leaves the end as it is |
| FoldingProperties.RegionsWithinDocument | plugins/com.aptana.editor.common/src/com/aptana/editor/common/text/AbstractFoldingComputer.java:133-173 | when every node lies in the document, every region of a call satisfies 0 <= start < end <= length, and ends at the end of a line after its start line |
| FoldingProperties.NotInitialNeverCollapsed | plugins/com.aptana.editor.common/src/com/aptana/editor/common/text/AbstractFoldingComputer.java:172-173 | outside the initial reconcile no region starts collapsed |
| FoldingProperties.DefaultNeverCollapsed | plugins/com.aptana.editor.common/src/com/aptana/editor/common/text/AbstractFoldingComputer.java:172-196 | with the default isCollapsed no region starts collapsed, even on the initial reconcile |
| FoldingProperties.NodeClaims | plugins/com.aptana.editor.common/src/com/aptana/editor/common/text/AbstractFoldingComputer.java:138-161 | for an in-bounds node, the claimed lines grow by exactly the start line of the region added, and stay free of repeats |
| FoldingProperties.ScanClaims | plugins/com.aptana.editor.common/src/com/aptana/editor/common/text/AbstractFoldingComputer.java:138-161 | over in-bounds nodes, fLines ends as its initial contents followed by the start lines of the regions added, with no repeats |
| FoldingProperties.ScanStartsInDocument | plugins/com.aptana.editor.common/src/com/aptana/editor/common/text/AbstractFoldingComputer.java:133 | over in-bounds nodes, every region starts inside the document |
| FoldingProperties.ScanDistinctStarts | plugins/com.aptana.editor.common/src/com/aptana/editor/common/text/AbstractFoldingComputer.java:138-161 | over in-bounds nodes, no two regions of a scan from an empty fLines start on the same line |
| FoldingProperties.DistinctStartLines | plugins/com.aptana.editor.common/src/com/aptana/editor/common/text/AbstractFoldingComputer.java:138-143 | regions inside the document whose start lines have no repeats start on pairwise different lines |
| FoldingProperties.NoSharedStartLine | plugins/com.aptana.editor.common/src/com/aptana/editor/common/text/AbstractFoldingComputer.java:138-161 | when every node lies in the document, no two regions of a call, cancelled or not, start on the same line |

## Left out

- Progress accounting of IProgressMonitor and SubMonitor (`convert`, `newChild`, `worked`, `done`, and the work sizes at lines 79-89 and 124): it affects only the progress display. The monitor is reduced to its cancel flag.
- Cancellation timing: the flag is an oracle over the successive checks of a call, and stays set once set. Another thread setting it at an arbitrary moment is not modelled.
- `ProjectionAnnotation` and `Position` objects and the `HashMap`: the result is a sequence of (start, end, collapsed) triples in the order they are put. A HashMap has no iteration order, so only the set of entries of the source corresponds; "prefix" refers to the order of insertion.
- The assertions in Eclipse's `Position` constructor (non-negative offset and length): that class is not part of this model, and the model records the raw start and end. In Eclipse, a node that starts outside `[0, getLength()]`, or whose unsnapped end falls below its start, makes `new Position(start, end - start)` throw an unchecked exception that aborts the whole `emitFoldingRegions` call. The model instead emits that region and goes on (the start-lookup-fails clause of RegionCheck), so for such trees it describes a result the source never returns.
- `getAST`, `getEditor`, `getFileService` and `Messages`: the parse result is an input (`None` for null).
- The concrete IDocument implementation: it is replaced by a table of line lengths. `getLineOffset` and `getLineLength` are only called with a line returned by `getLineOfOffset`, so their bad-location case cannot arise and is not modelled.
- Null nodes inside a children or comments array, and a null children array: the tree datatype has none, so the `child == null` branch of `traverseInto` does not arise.
- `hasChildren`: ParseNode is not part of this model. It is taken to count the ordinary children only, not a root's comment nodes.
- The `fLines != null` guards at lines 140 and 158: `fLines` is allocated for the whole of a call, so `GetPositions` requires it and the guards always pass.
- NoSharedStartLine: stated only for trees in which every node of the pre-order, visited or not, lies in the document with start <= end. A node outside the document gets a region without claiming a line, so its region may share a start line with another.
- RegionsWithinDocument: stated under the same in-bounds hypothesis. A node outside the document gets the unsnapped end, which may lie before its start.
