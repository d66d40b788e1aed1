/** AbstractFoldingComputer: the folding regions of a document, found by walking
    its parse tree depth-first and pre-order and asking three per-node hooks. */
module Folding {

  import opened Wrappers
  import opened JavaInt
  import opened LineTable
  import opened ParseTree

  /** One entry of the result map: the Position's offset and end offset, and
      whether the ProjectionAnnotation starts collapsed. The annotation itself is
      a fresh object per entry, so entries are never merged and the map is kept
      here as a sequence in insertion order. */
  datatype Region = Region(start: int, end: int, collapsed: bool)

  /** The hooks a language binding supplies: isFoldable (abstract in the source),
      isCollapsed and traverseInto (both with defaults). */
  datatype Policy = Policy(
    isFoldable: Node -> bool,
    isCollapsed: Node -> bool,
    traverseInto: Node -> bool)

  /** The default isCollapsed: nothing starts collapsed. */
  function DefaultIsCollapsed(n: Node): bool
  {
    false
  }

  /** The default traverseInto: a node is entered when it has ordinary children
      (hasChildren does not count a root's comment nodes). */
  function DefaultTraverseInto(n: Node): bool
  {
    |n.children| > 0
  }

  /** The hooks of a binding that overrides only isFoldable. */
  function DefaultPolicy(isFoldable: Node -> bool): (p: Policy)
    ensures p.isFoldable == isFoldable
    ensures forall n :: !p.isCollapsed(n)
    ensures forall n :: p.traverseInto(n) <==> |n.children| > 0
  {
    Policy(isFoldable, DefaultIsCollapsed, DefaultTraverseInto)
  }

  /** The nodes the walk goes on to after `n`'s own region check: the nodes
      getChildren gives for it when traverseInto holds, and none otherwise. */
  function Below(p: Policy, n: Node): seq<Node>
  {
    if p.traverseInto(n) then GetChildren(n) else []
  }

  lemma BelowSmaller(p: Policy, n: Node)
    ensures ListSize(Below(p, n)) < Size(n)
  {
    ChildrenSmaller(n);
  }

  /** The progress monitor's cancel flag, as an oracle over the successive
      isCanceled() checks of one call: once set it stays set. */
  datatype Cancel = NeverCancelled | CancelledFrom(first: nat)

  predicate Cancelled(cancel: Cancel, check: nat)
  {
    cancel.CancelledFrom? && check >= cancel.first
  }

  /** What the traversal carries from node to node: the claimed start lines
      (fLines) and the number of cancel checks made so far. */
  datatype Progress = Progress(claimed: seq<nat>, checks: nat)

  /** The region of `n` as the code builds it, once the node has been found
      foldable: when both line lookups succeed the lines differ and the end is
      snapped to the end of the end line; when one of them fails the end is the
      node's ending offset plus one. Both are clamped to the document length. */
  ghost predicate RegionOf(d: Document, p: Policy, initial: bool, n: Node, r: Region)
  {
    p.isFoldable(n) && r.start == n.start && r.collapsed == (initial && p.isCollapsed(n)) &&
    match (LineOfOffset(d, n.start), LineOfOffset(d, n.end))
    case (Some(line), Some(endLine)) =>
      line != endLine && r.end == Min(Length(d), LineEnd(d, endLine))
    case _ =>
      r.end == Min(Length(d), Increment(n.end))
  }

  /** The region check for one child (the body of the loop before the recursion):
      the regions it adds, none or one, and the claimed lines afterwards. A line
      is claimed only together with a region, and it is that region's start line,
      which no earlier region had claimed. */
  function NodeRegion(d: Document, p: Policy, initial: bool, child: Node, claimed: seq<nat>)
    : (r: (seq<Region>, seq<nat>))
    ensures |r.0| <= 1
    ensures r.1 == claimed ||
      (|r.0| == 1 && |r.1| == |claimed| + 1 && r.1[..|claimed|] == claimed &&
       r.1[|claimed|] !in claimed && LineOfOffset(d, r.0[0].start) == Some(r.1[|claimed|]))
  {
    if !p.isFoldable(child) then ([], claimed)
    else
      var collapsed := initial && p.isCollapsed(child);
      var unsnapped := [Region(child.start, Min(Length(d), Increment(child.end)), collapsed)];
      match LineOfOffset(d, child.start)
      case None => (unsnapped, claimed)
      case Some(line) =>
        if line in claimed then ([], claimed)
        else
          match LineOfOffset(d, child.end)
          case None => (unsnapped, claimed)
          case Some(endLine) =>
            if endLine == line then ([], claimed)
            else ([Region(child.start, Min(Length(d), LineEnd(d, endLine)), collapsed)], claimed + [line])
  }

  /** getPositions over the nodes `kids`: before each node one cancel check, and
      on a cancelled check the rest of `kids` is abandoned; otherwise the node is
      visited and the walk goes on with its later siblings. The walk makes at most
      one check per node under `kids`. */
  function Positions(d: Document, p: Policy, initial: bool, kids: seq<Node>, st: Progress, cancel: Cancel)
    : (r: (seq<Region>, Progress))
    decreases ListSize(kids), 1
    ensures st.checks <= r.1.checks <= st.checks + ListSize(kids)
  {
    if kids == [] then ([], st)
    else if Cancelled(cancel, st.checks) then ([], Progress(st.claimed, st.checks + 1))
    else
      var (here, st1) := Visit(d, p, initial, kids[0], Progress(st.claimed, st.checks + 1), cancel);
      var (rest, st2) := Positions(d, p, initial, kids[1..], st1, cancel);
      (here + rest, st2)
  }

  /** One node of the walk, after its check has passed: the node's own region
      check, then getPositions over the nodes under it when traverseInto allows,
      with at most one check per node below `child`. */
  function Visit(d: Document, p: Policy, initial: bool, child: Node, st: Progress, cancel: Cancel)
    : (r: (seq<Region>, Progress))
    decreases Size(child), 0
    ensures st.checks <= r.1.checks < st.checks + Size(child)
  {
    var (own, claimed) := NodeRegion(d, p, initial, child, st.claimed);
    BelowSmaller(p, child);
    var (inner, st1) := Positions(d, p, initial, Below(p, child), Progress(claimed, st.checks), cancel);
    (own + inner, st1)
  }

  /** One turn of the loop of getPositions over `kids`, at index `i`, when the
      check before it is not cancelled: what the loop has collected (`done`)
      followed by the rest of the walk is still the whole walk (`total`) once the
      child is visited. */
  lemma PositionsStep(d: Document, p: Policy, initial: bool, kids: seq<Node>, i: nat, st: Progress, cancel: Cancel,
                      done: seq<Region>, total: (seq<Region>, Progress), here: (seq<Region>, Progress))
    requires i < |kids| && !Cancelled(cancel, st.checks)
    requires done + Positions(d, p, initial, kids[i..], st, cancel).0 == total.0
    requires Positions(d, p, initial, kids[i..], st, cancel).1 == total.1
    requires here == Visit(d, p, initial, kids[i], Progress(st.claimed, st.checks + 1), cancel)
    ensures done + here.0 + Positions(d, p, initial, kids[i + 1..], here.1, cancel).0 == total.0
    ensures Positions(d, p, initial, kids[i + 1..], here.1, cancel).1 == total.1
  {
    assert kids[i..][0] == kids[i] && kids[i..][1..] == kids[i + 1..];
    var rest := Positions(d, p, initial, kids[i + 1..], here.1, cancel);
    assert Positions(d, p, initial, kids[i..], st, cancel) == (here.0 + rest.0, rest.1);
    AppendAssoc(done, here.0, rest.0);
  }

  /** The turn of the loop of getPositions whose check is cancelled ends the walk. */
  lemma PositionsCancelled(d: Document, p: Policy, initial: bool, kids: seq<Node>, i: nat, st: Progress, cancel: Cancel)
    requires i < |kids| && Cancelled(cancel, st.checks)
    ensures Positions(d, p, initial, kids[i..], st, cancel) == ([], Progress(st.claimed, st.checks + 1))
  {
  }

  /** The loop of getPositions ends with nothing left to walk. */
  lemma PositionsDone(d: Document, p: Policy, initial: bool, kids: seq<Node>, st: Progress, cancel: Cancel)
    ensures Positions(d, p, initial, kids[|kids|..], st, cancel) == ([], st)
  {
    assert kids[|kids|..] == [];
  }

  lemma AppendAssoc<T>(a: seq<T>, b: seq<T>, c: seq<T>)
    ensures a + b + c == a + (b + c)
  {
  }

  /** emitFoldingRegions: nothing for a document of at most one line or when there
      is no parse result; otherwise the regions under the root, found with an
      empty claimed-line list. `checks` is the monitor's count of checks made
      before the call. */
  function FoldingRegions(d: Document, p: Policy, initial: bool, ast: Option<Node>, cancel: Cancel, checks: nat)
    : (r: seq<Region>)
    ensures NumberOfLines(d) <= 1 || ast.None? ==> r == []
  {
    if NumberOfLines(d) <= 1 then []
    else
      match ast
      case None => []
      case Some(root) => Positions(d, p, initial, GetChildren(root), Progress([], checks), cancel).0
  }

  /** The order in which the traversal meets the nodes under `kids` when it is
      not cancelled: each node's subtree, then its later siblings. */
  function PreOrder(p: Policy, kids: seq<Node>): seq<Node>
    decreases ListSize(kids), 1
  {
    if kids == [] then [] else Subtree(p, kids[0]) + PreOrder(p, kids[1..])
  }

  /** A node followed, when traverseInto allows, by the pre-order of the nodes under it. */
  function Subtree(p: Policy, n: Node): seq<Node>
    decreases Size(n), 0
  {
    BelowSmaller(p, n);
    [n] + PreOrder(p, Below(p, n))
  }

  /** The region checks run over a flat list of nodes, one after the other,
      threading the claimed lines. */
  function Scan(d: Document, p: Policy, initial: bool, nodes: seq<Node>, claimed: seq<nat>)
    : (seq<Region>, seq<nat>)
  {
    if nodes == [] then ([], claimed)
    else
      var (own, claimed1) := NodeRegion(d, p, initial, nodes[0], claimed);
      var (rest, claimed2) := Scan(d, p, initial, nodes[1..], claimed1);
      (own + rest, claimed2)
  }

  /** The IProgressMonitor handed to emitFoldingRegions, reduced to its cancel
      flag; every sub-monitor shares it. */
  class ProgressMonitor {
    const cancel: Cancel
    var checks: nat

    constructor (cancel: Cancel)
      ensures this.cancel == cancel && checks == 0
    {
      this.cancel := cancel;
      checks := 0;
    }

    /** isCanceled() */
    method IsCanceled() returns (canceled: bool)
      modifies this
      ensures checks == old(checks) + 1
      ensures canceled == Cancelled(cancel, old(checks))
    {
      canceled := Cancelled(cancel, checks);
      checks := checks + 1;
    }
  }

  /** AbstractFoldingComputer over one document, with a binding's hooks. */
  class FoldingComputer {
    const document: Document
    const policy: Policy
    /** fLines: the start lines already claimed in the current call; null between calls. */
    var fLines: Option<seq<nat>>
    var initialReconcile: bool

    constructor (document: Document, policy: Policy)
      ensures this.document == document && this.policy == policy
      ensures fLines == None && !initialReconcile
    {
      this.document := document;
      this.policy := policy;
      fLines := None;
      initialReconcile := false;
    }

    /** emitFoldingRegions, with the parse result passed in. The claimed-line list
        starts empty on every call, so the result depends on the inputs alone.
        The early return for a document of at most one line happens before the
        try block, so only then is fLines left allocated afterwards. */
    method EmitFoldingRegions(initial: bool, ast: Option<Node>, monitor: ProgressMonitor)
      returns (regions: seq<Region>)
      modifies this, monitor
      ensures regions == FoldingRegions(document, policy, initial, ast, monitor.cancel, old(monitor.checks))
      ensures initialReconcile == initial
      ensures fLines == if NumberOfLines(document) <= 1 then Some([]) else None
      ensures NumberOfLines(document) <= 1 || ast.None? ==> monitor.checks == old(monitor.checks)
      ensures NumberOfLines(document) > 1 && ast.Some? ==>
        monitor.checks == Positions(document, policy, initial, GetChildren(ast.value),
                                    Progress([], old(monitor.checks)), monitor.cancel).1.checks
    {
      initialReconcile := initial;
      fLines := Some([]);
      var lineCount := NumberOfLines(document);
      if lineCount <= 1 {
        return [];
      }
      match ast {
        case None =>
          regions := [];
        case Some(parseNode) =>
          regions := GetPositions(monitor, parseNode);
      }
      fLines := None;
    }

    /** The region check of getPositions for one child: whether it is foldable,
        whether its start line is free, whether it spans more than one line, and
        where its region ends. A BadLocationException from a line lookup leaves
        `add` true and `end` at the node's ending offset plus one. */
    method AddRegion(child: Node) returns (added: seq<Region>)
      requires fLines.Some?
      modifies this`fLines
      ensures fLines.Some?
      ensures (added, fLines.value) == NodeRegion(document, policy, initialReconcile, child, old(fLines.value))
    {
      added := [];
      if policy.isFoldable(child) {
        var start := child.start;
        var add := true;
        var end := Increment(child.end);
        var line := LineOfOffset(document, start);
        if line.Some? {
          // a second fold starting on an already claimed line is not added
          if line.value in fLines.value {
            add := false;
          } else {
            var endLine := LineOfOffset(document, child.end);
            if endLine.Some? {
              if endLine.value == line.value {
                // nothing is folded that starts and ends on the same line
                add := false;
              } else {
                end := LineOffset(document, endLine.value) + LineLength(document, endLine.value);
                fLines := Some(fLines.value + [line.value]);
              }
            }
          }
        }
        if add {
          end := Min(Length(document), end);
          added := [Region(start, end, if initialReconcile then policy.isCollapsed(child) else false)];
        }
      }
    }

    /** getPositions: the for loop over getChildren(parseNode), appending to fLines
        in place and collecting the regions of each child and of the nodes under it. */
    method GetPositions(monitor: ProgressMonitor, parseNode: Node) returns (newPositions: seq<Region>)
      requires fLines.Some?
      modifies this`fLines, monitor
      decreases parseNode, 0
      ensures fLines.Some?
      ensures (newPositions, Progress(fLines.value, monitor.checks)) ==
        Positions(document, policy, initialReconcile, GetChildren(parseNode),
                  Progress(old(fLines.value), old(monitor.checks)), monitor.cancel)
    {
      newPositions := [];
      var children := GetChildren(parseNode);
      ghost var st := Progress(fLines.value, monitor.checks);
      ghost var total := Positions(document, policy, initialReconcile, children, st, monitor.cancel);
      var i := 0;
      while i < |children|
        invariant 0 <= i <= |children|
        invariant fLines.Some? && st == Progress(fLines.value, monitor.checks)
        invariant newPositions + Positions(document, policy, initialReconcile, children[i..], st, monitor.cancel).0 == total.0
        invariant Positions(document, policy, initialReconcile, children[i..], st, monitor.cancel).1 == total.1
      {
        var child := children[i];
        var canceled := monitor.IsCanceled();
        if canceled {
          PositionsCancelled(document, policy, initialReconcile, children, i, st, monitor.cancel);
          assert newPositions + [] == newPositions;
          return;
        }
        ghost var here := Visit(document, policy, initialReconcile, child, Progress(st.claimed, st.checks + 1), monitor.cancel);
        PositionsStep(document, policy, initialReconcile, children, i, st, monitor.cancel, newPositions, total, here);
        GetChildrenBelow(parseNode, i);
        var added := VisitChild(monitor, child);
        newPositions := newPositions + added;
        st := here.1;
        i := i + 1;
      }
      PositionsDone(document, policy, initialReconcile, children, st, monitor.cancel);
      assert newPositions + [] == newPositions;
    }

    /** The body of the loop of getPositions after a passing cancel check: the
        region check of `child`, then, when traverseInto allows, the walk under it. */
    method VisitChild(monitor: ProgressMonitor, child: Node) returns (added: seq<Region>)
      requires fLines.Some?
      modifies this`fLines, monitor
      decreases child, 1
      ensures fLines.Some?
      ensures (added, Progress(fLines.value, monitor.checks)) ==
        Visit(document, policy, initialReconcile, child, Progress(old(fLines.value), old(monitor.checks)), monitor.cancel)
    {
      added := AddRegion(child);
      if policy.traverseInto(child) {
        var inner := GetPositions(monitor, child);
        added := added + inner;
      } else {
        assert added + [] == added;
      }
    }
  }

}
