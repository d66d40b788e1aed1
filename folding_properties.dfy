/** What emitFoldingRegions promises about its result: the walk is a pre-order
    scan of the tree, a cancelled walk yields a prefix of the full result, no two
    regions start on the same line, and every region of an in-bounds node spans
    from the node's start to the end of the line holding its ending offset. */
module FoldingProperties {

  import opened Wrappers
  import opened JavaInt
  import opened LineTable
  import opened ParseTree
  import opened Folding

  /** How many nodes of a pre-order list of `n` nodes get a passing cancel check,
      when the first of those checks is number `checks`. */
  function Visited(cancel: Cancel, checks: nat, n: nat): (m: nat)
    ensures m <= n
    ensures forall j :: checks <= j < checks + m ==> !Cancelled(cancel, j)
    ensures m < n ==> Cancelled(cancel, checks + m)
  {
    match cancel
    case NeverCancelled => n
    case CancelledFrom(first) =>
      if first <= checks then 0 else if first - checks < n then first - checks else n
  }

  /** A node whose offsets lie in the document, start before end. */
  predicate InBounds(d: Document, n: Node)
  {
    0 <= n.start <= n.end <= Length(d)
  }

  predicate AllInBounds(d: Document, nodes: seq<Node>)
  {
    forall i :: 0 <= i < |nodes| ==> InBounds(d, nodes[i])
  }

  predicate Distinct(s: seq<nat>)
  {
    forall i, j :: 0 <= i < j < |s| ==> s[i] != s[j]
  }

  /** The line a region starts on (0 for an offset outside the document). */
  function StartLine(d: Document, r: Region): nat
  {
    match LineOfOffset(d, r.start)
    case Some(line) => line
    case None => 0
  }

  function StartLines(d: Document, regions: seq<Region>): (lines: seq<nat>)
    ensures |lines| == |regions|
    ensures forall i :: 0 <= i < |regions| ==> lines[i] == StartLine(d, regions[i])
  {
    seq(|regions|, i requires 0 <= i < |regions| => StartLine(d, regions[i]))
  }

  /** The region check of one node: at most one region, built as RegionOf says.
      When both line lookups succeed, there is a region exactly when the node is
      foldable, its start line is not yet claimed and its end lies on another
      line, and then the start line is claimed. When a lookup fails, a foldable
      node still gets a region (provided its start line, if found, is free) and
      no line is claimed. */
  lemma RegionCheck(d: Document, p: Policy, initial: bool, child: Node, claimed: seq<nat>)
    ensures var r := NodeRegion(d, p, initial, child, claimed);
      |r.0| <= 1 &&
      (r.0 != [] ==> RegionOf(d, p, initial, child, r.0[0])) &&
      (LineOfOffset(d, child.start).Some? && LineOfOffset(d, child.end).Some? ==>
        var line, endLine := LineOfOffset(d, child.start).value, LineOfOffset(d, child.end).value;
        (r.0 != [] <==> p.isFoldable(child) && line !in claimed && line != endLine) &&
        r.1 == if r.0 != [] then claimed + [line] else claimed) &&
      (LineOfOffset(d, child.start).None? ==>
        (r.0 != [] <==> p.isFoldable(child)) && r.1 == claimed) &&
      (LineOfOffset(d, child.start).Some? && LineOfOffset(d, child.end).None? ==>
        (r.0 != [] <==> p.isFoldable(child) && LineOfOffset(d, child.start).value !in claimed) &&
        r.1 == claimed)
  {
  }

  // ---------------------------------------------------------------------------
  // Scan and PreOrder over concatenations

  lemma ScanCons(d: Document, p: Policy, initial: bool, x: Node, rest: seq<Node>, claimed: seq<nat>)
    ensures
      var own := NodeRegion(d, p, initial, x, claimed);
      var tail := Scan(d, p, initial, rest, own.1);
      Scan(d, p, initial, [x] + rest, claimed) == (own.0 + tail.0, tail.1)
  {
    assert ([x] + rest)[0] == x && ([x] + rest)[1..] == rest;
  }

  /** Scanning two lists one after the other is scanning their concatenation. */
  lemma {:induction false} ScanAppend(d: Document, p: Policy, initial: bool, a: seq<Node>, b: seq<Node>, claimed: seq<nat>)
    ensures
      var first := Scan(d, p, initial, a, claimed);
      var second := Scan(d, p, initial, b, first.1);
      Scan(d, p, initial, a + b, claimed) == (first.0 + second.0, second.1)
  {
    if a == [] {
      assert a + b == b;
      assert [] + Scan(d, p, initial, b, claimed).0 == Scan(d, p, initial, b, claimed).0;
    } else {
      var own := NodeRegion(d, p, initial, a[0], claimed);
      assert a + b == [a[0]] + (a[1..] + b);
      ScanCons(d, p, initial, a[0], a[1..] + b, claimed);
      ScanAppend(d, p, initial, a[1..], b, own.1);
      ScanCons(d, p, initial, a[0], a[1..], claimed);
      assert [a[0]] + a[1..] == a;
      var first := Scan(d, p, initial, a[1..], own.1);
      var second := Scan(d, p, initial, b, first.1);
      assert Scan(d, p, initial, a, claimed) == (own.0 + first.0, first.1);
      assert Scan(d, p, initial, a + b, claimed) == (own.0 + (first.0 + second.0), second.1);
      assert own.0 + (first.0 + second.0) == (own.0 + first.0) + second.0;
    }
  }

  /** Scanning a prefix of a node list yields a prefix of the regions. */
  lemma ScanPrefix(d: Document, p: Policy, initial: bool, nodes: seq<Node>, m: nat, claimed: seq<nat>)
    requires m <= |nodes|
    ensures Scan(d, p, initial, nodes[..m], claimed).0 <= Scan(d, p, initial, nodes, claimed).0
  {
    assert nodes == nodes[..m] + nodes[m..];
    ScanAppend(d, p, initial, nodes[..m], nodes[m..], claimed);
  }

  /** The pre-order of two sibling lists, one after the other. */
  lemma {:induction false} PreOrderAppend(p: Policy, a: seq<Node>, b: seq<Node>)
    ensures PreOrder(p, a + b) == PreOrder(p, a) + PreOrder(p, b)
    decreases ListSize(a)
  {
    if a == [] {
      assert a + b == b;
    } else {
      assert (a + b)[0] == a[0] && (a + b)[1..] == a[1..] + b;
      assert ListSize(a) == Size(a[0]) + ListSize(a[1..]);
      PreOrderAppend(p, a[1..], b);
      AppendAssoc(Subtree(p, a[0]), PreOrder(p, a[1..]), PreOrder(p, b));
    }
  }

  /** A ParseRootNode's comment nodes are visited after everything under its
      ordinary children, in their own order. */
  lemma CommentsAfterChildren(p: Policy, root: Node)
    requires root.isRoot
    ensures PreOrder(p, GetChildren(root)) == PreOrder(p, root.children) + PreOrder(p, root.comments)
  {
    assert GetChildren(root) == root.children + root.comments;
    PreOrderAppend(p, root.children, root.comments);
  }

  // ---------------------------------------------------------------------------
  // The walk is a scan of the pre-order, cut where the monitor is cancelled

  /** How the visited counts of a node, the `n2` nodes under it and the `n3`
      nodes of its later siblings add up, when the check before the node passes. */
  lemma VisitedSplit(cancel: Cancel, c: nat, n2: nat, n3: nat)
    requires !Cancelled(cancel, c)
    ensures Visited(cancel, c + 1, n2) < n2 ==>
      Visited(cancel, c, 1 + n2 + n3) == 1 + Visited(cancel, c + 1, n2)
    ensures Visited(cancel, c + 1, n2) == n2 ==>
      Visited(cancel, c, 1 + n2 + n3) == 1 + n2 + Visited(cancel, c + 1 + n2, n3)
  {
  }

  /** What VisitIsScan states about the visit of `x`, whose own check has
      passed: it scans `x` and the nodes under it that get a passing check. */
  ghost predicate VisitMatchesScan(d: Document, p: Policy, initial: bool, x: Node, st: Progress, cancel: Cancel)
  {
    var sub := Subtree(p, x);
    var n := |sub| - 1;
    var m := Visited(cancel, st.checks, n);
    var scan := Scan(d, p, initial, sub[..1 + m], st.claimed);
    var v := Visit(d, p, initial, x, st, cancel);
    v.0 == scan.0 && v.1.claimed == scan.1 &&
    (m == n ==> v.1.checks == st.checks + n) &&
    (m < n ==> Cancelled(cancel, v.1.checks))
  }

  /** What WalkIsScanOfPreOrder states about the walk over `kids`. */
  ghost predicate WalkMatchesScan(d: Document, p: Policy, initial: bool, kids: seq<Node>, st: Progress, cancel: Cancel)
  {
    var pre := PreOrder(p, kids);
    var m := Visited(cancel, st.checks, |pre|);
    var scan := Scan(d, p, initial, pre[..m], st.claimed);
    var walk := Positions(d, p, initial, kids, st, cancel);
    walk.0 == scan.0 && walk.1.claimed == scan.1 &&
    (m == |pre| ==> walk.1.checks == st.checks + |pre|) &&
    (m < |pre| ==> Cancelled(cancel, walk.1.checks))
  }

  /** A walk whose first check is cancelled, or which is cancelled on entry,
      collects nothing more and leaves the monitor cancelled. */
  lemma WalkWhenCancelled(d: Document, p: Policy, initial: bool, kids: seq<Node>, st: Progress, cancel: Cancel)
    requires Cancelled(cancel, st.checks)
    ensures Positions(d, p, initial, kids, st, cancel).0 == []
    ensures Positions(d, p, initial, kids, st, cancel).1.claimed == st.claimed
    ensures Cancelled(cancel, Positions(d, p, initial, kids, st, cancel).1.checks)
  {
  }

  lemma PrefixOfAppend<T>(a: seq<T>, b: seq<T>, k: nat)
    ensures k <= |a| ==> (a + b)[..k] == a[..k]
    ensures |a| <= k <= |a| + |b| ==> (a + b)[..k] == a + b[..k - |a|]
  {
    if |a| <= k <= |a| + |b| {
      assert (a + b)[..k] == a + b[..k - |a|];
    }
  }

  /** The visit of a node is a scan of the node and of the nodes under it that
      the walk reaches. */
  lemma {:induction false} VisitIsScan(d: Document, p: Policy, initial: bool, x: Node, st: Progress, cancel: Cancel)
    ensures VisitMatchesScan(d, p, initial, x, st, cancel)
    decreases Size(x), 0
  {
    var own := NodeRegion(d, p, initial, x, st.claimed);
    var below := Below(p, x);
    BelowSmaller(p, x);
    var st1 := Progress(own.1, st.checks);
    WalkIsScanOfPreOrder(d, p, initial, below, st1, cancel);
    var pre2 := PreOrder(p, below);
    var m := Visited(cancel, st.checks, |pre2|);
    var sub := Subtree(p, x);
    assert sub == [x] + pre2;
    assert sub[..1 + m] == [x] + pre2[..m];
    ScanCons(d, p, initial, x, pre2[..m], st.claimed);
  }

  /** The inductive step when the walk is cancelled inside the first node's subtree. */
  lemma StepCancelledBelow(d: Document, p: Policy, initial: bool, kids: seq<Node>, st: Progress, cancel: Cancel)
    requires kids != [] && !Cancelled(cancel, st.checks)
    requires VisitMatchesScan(d, p, initial, kids[0], Progress(st.claimed, st.checks + 1), cancel)
    requires var n := |Subtree(p, kids[0])| - 1;
             Visited(cancel, st.checks + 1, n) < n
    ensures WalkMatchesScan(d, p, initial, kids, st, cancel)
  {
    var x := kids[0];
    var st1 := Progress(st.claimed, st.checks + 1);
    var v := Visit(d, p, initial, x, st1, cancel);
    var sub, pre3 := Subtree(p, x), PreOrder(p, kids[1..]);
    var n := |sub| - 1;
    var mv := Visited(cancel, st1.checks, n);
    assert PreOrder(p, kids) == sub + pre3;
    VisitedSplit(cancel, st.checks, n, |pre3|);
    PrefixOfAppend(sub, pre3, 1 + mv);
    WalkWhenCancelled(d, p, initial, kids[1..], v.1, cancel);
    assert Positions(d, p, initial, kids, st, cancel) == (v.0 + [], Positions(d, p, initial, kids[1..], v.1, cancel).1);
    assert v.0 + [] == v.0;
  }

  /** The inductive step when every node under the first one gets a passing check. */
  lemma StepCompletesBelow(d: Document, p: Policy, initial: bool, kids: seq<Node>, st: Progress, cancel: Cancel)
    requires kids != [] && !Cancelled(cancel, st.checks)
    requires VisitMatchesScan(d, p, initial, kids[0], Progress(st.claimed, st.checks + 1), cancel)
    requires var n := |Subtree(p, kids[0])| - 1;
             Visited(cancel, st.checks + 1, n) == n
    requires WalkMatchesScan(d, p, initial, kids[1..],
                             Visit(d, p, initial, kids[0], Progress(st.claimed, st.checks + 1), cancel).1, cancel)
    ensures WalkMatchesScan(d, p, initial, kids, st, cancel)
  {
    var x := kids[0];
    var st1 := Progress(st.claimed, st.checks + 1);
    var v := Visit(d, p, initial, x, st1, cancel);
    var sub, pre3 := Subtree(p, x), PreOrder(p, kids[1..]);
    var n := |sub| - 1;
    var m3 := Visited(cancel, v.1.checks, |pre3|);
    var pre := PreOrder(p, kids);
    var m := Visited(cancel, st.checks, |pre|);
    var walk, rest := Positions(d, p, initial, kids, st, cancel), Positions(d, p, initial, kids[1..], v.1, cancel);
    var scanV, scan3 := Scan(d, p, initial, sub, st.claimed), Scan(d, p, initial, pre3[..m3], v.1.claimed);
    assert walk == (v.0 + rest.0, rest.1);
    assert pre == sub + pre3;
    assert m == |sub| + m3 by {
      VisitedSplit(cancel, st.checks, n, |pre3|);
    }
    assert pre[..m] == sub + pre3[..m3] by {
      PrefixOfAppend(sub, pre3, |sub| + m3);
    }
    assert v.0 == scanV.0 && v.1.claimed == scanV.1 && v.1.checks == st.checks + 1 + n by {
      assert sub[..1 + n] == sub;
    }
    assert rest.0 == scan3.0 && rest.1.claimed == scan3.1 &&
           (m3 == |pre3| ==> rest.1.checks == v.1.checks + |pre3|) &&
           (m3 < |pre3| ==> Cancelled(cancel, rest.1.checks));
    assert Scan(d, p, initial, pre[..m], st.claimed) == (scanV.0 + scan3.0, scan3.1) by {
      ScanAppend(d, p, initial, sub, pre3[..m3], st.claimed);
    }
  }

  /** The walk of getPositions over `kids` collects exactly the regions of a scan
      over the first `m` nodes of their pre-order, `m` being the number of checks
      that pass; it claims the lines that scan claims; and it either makes one
      check per node or ends with the monitor cancelled. */
  lemma {:induction false} WalkIsScanOfPreOrder(d: Document, p: Policy, initial: bool, kids: seq<Node>,
                                                st: Progress, cancel: Cancel)
    ensures WalkMatchesScan(d, p, initial, kids, st, cancel)
    decreases ListSize(kids), 1
  {
    var pre := PreOrder(p, kids);
    if kids == [] {
      assert pre[..0] == [];
    } else if Cancelled(cancel, st.checks) {
      assert pre[..Visited(cancel, st.checks, |pre|)] == [];
    } else {
      var x := kids[0];
      var st1 := Progress(st.claimed, st.checks + 1);
      assert ListSize(kids) == Size(x) + ListSize(kids[1..]);
      VisitIsScan(d, p, initial, x, st1, cancel);
      var n := |Subtree(p, x)| - 1;
      if Visited(cancel, st1.checks, n) < n {
        StepCancelledBelow(d, p, initial, kids, st, cancel);
      } else {
        WalkIsScanOfPreOrder(d, p, initial, kids[1..], Visit(d, p, initial, x, st1, cancel).1, cancel);
        StepCompletesBelow(d, p, initial, kids, st, cancel);
      }
    }
  }

  /** The regions of a call are those of a scan, with an empty claimed-line list,
      over the first `m` nodes of the pre-order under the root, where `m` is the
      number of cancel checks that pass. */
  lemma FoldingRegionsAreScan(d: Document, p: Policy, initial: bool, root: Node, cancel: Cancel, checks: nat)
    requires NumberOfLines(d) > 1
    ensures
      var pre := PreOrder(p, GetChildren(root));
      FoldingRegions(d, p, initial, Some(root), cancel, checks) ==
        Scan(d, p, initial, pre[..Visited(cancel, checks, |pre|)], []).0
  {
    WalkIsScanOfPreOrder(d, p, initial, GetChildren(root), Progress([], checks), cancel);
    assert WalkMatchesScan(d, p, initial, GetChildren(root), Progress([], checks), cancel);
  }

  /** Without cancellation every node of the pre-order is scanned. */
  lemma UncancelledIsFullScan(d: Document, p: Policy, initial: bool, root: Node, checks: nat)
    requires NumberOfLines(d) > 1
    ensures FoldingRegions(d, p, initial, Some(root), NeverCancelled, checks) ==
            Scan(d, p, initial, PreOrder(p, GetChildren(root)), []).0
  {
    var pre := PreOrder(p, GetChildren(root));
    FoldingRegionsAreScan(d, p, initial, root, NeverCancelled, checks);
    assert pre[..|pre|] == pre;
  }

  /** Cancellation only truncates: a cancelled call returns a prefix, in
      insertion order, of the regions of an uncancelled one. */
  lemma CancelledIsPrefix(d: Document, p: Policy, initial: bool, ast: Option<Node>, cancel: Cancel, checks: nat)
    ensures FoldingRegions(d, p, initial, ast, cancel, checks) <=
            FoldingRegions(d, p, initial, ast, NeverCancelled, checks)
  {
    if NumberOfLines(d) > 1 && ast.Some? {
      var pre := PreOrder(p, GetChildren(ast.value));
      FoldingRegionsAreScan(d, p, initial, ast.value, cancel, checks);
      UncancelledIsFullScan(d, p, initial, ast.value, checks);
      ScanPrefix(d, p, initial, pre, Visited(cancel, checks, |pre|), []);
    }
  }

  /** A monitor already cancelled at the first check yields no region at all. */
  lemma CancelledAtOnceIsEmpty(d: Document, p: Policy, initial: bool, ast: Option<Node>, first: nat, checks: nat)
    requires first <= checks
    ensures FoldingRegions(d, p, initial, ast, CancelledFrom(first), checks) == []
  {
    if NumberOfLines(d) > 1 && ast.Some? {
      var pre := PreOrder(p, GetChildren(ast.value));
      FoldingRegionsAreScan(d, p, initial, ast.value, CancelledFrom(first), checks);
      assert pre[..0] == [];
    }
  }

  // ---------------------------------------------------------------------------
  // Where regions come from and what they look like

  /** Every region of a scan is the region of one of the scanned nodes. */
  lemma {:induction false} ScanOrigin(d: Document, p: Policy, initial: bool, nodes: seq<Node>, claimed: seq<nat>)
    ensures forall r :: r in Scan(d, p, initial, nodes, claimed).0 ==>
      exists n :: n in nodes && RegionOf(d, p, initial, n, r)
  {
    if nodes != [] {
      var own := NodeRegion(d, p, initial, nodes[0], claimed);
      var rest := Scan(d, p, initial, nodes[1..], own.1).0;
      RegionCheck(d, p, initial, nodes[0], claimed);
      ScanOrigin(d, p, initial, nodes[1..], own.1);
      assert Scan(d, p, initial, nodes, claimed).0 == own.0 + rest;
      forall r | r in own.0 + rest
        ensures exists n :: n in nodes && RegionOf(d, p, initial, n, r)
      {
        if r in own.0 {
          assert nodes[0] in nodes && RegionOf(d, p, initial, nodes[0], r);
        } else {
          var n :| n in nodes[1..] && RegionOf(d, p, initial, n, r);
          assert n in nodes;
        }
      }
    }
  }

  /** Every region of a call is the region of a node the walk visits. */
  lemma RegionsFromVisitedNodes(d: Document, p: Policy, initial: bool, root: Node, cancel: Cancel, checks: nat)
    ensures forall r :: r in FoldingRegions(d, p, initial, Some(root), cancel, checks) ==>
      exists n :: n in PreOrder(p, GetChildren(root)) && RegionOf(d, p, initial, n, r)
  {
    if NumberOfLines(d) > 1 {
      var pre := PreOrder(p, GetChildren(root));
      var m := Visited(cancel, checks, |pre|);
      FoldingRegionsAreScan(d, p, initial, root, cancel, checks);
      ScanOrigin(d, p, initial, pre[..m], []);
      forall r | r in FoldingRegions(d, p, initial, Some(root), cancel, checks)
        ensures exists n :: n in pre && RegionOf(d, p, initial, n, r)
      {
        var n :| n in pre[..m] && RegionOf(d, p, initial, n, r);
        assert n in pre;
      }
    }
  }

  /** The region of a node that lies in the document starts at the node's start
      and ends at the end of the line holding the node's ending offset, delimiter
      included; that line comes after the start line, so the region is not empty,
      and the clamp to the document length leaves the end as it is. */
  lemma SnappedRegion(d: Document, p: Policy, initial: bool, n: Node, r: Region)
    requires InBounds(d, n) && RegionOf(d, p, initial, n, r)
    ensures LineOfOffset(d, n.start).Some? && LineOfOffset(d, n.end).Some?
    ensures LineOfOffset(d, n.start).value < LineOfOffset(d, n.end).value
    ensures r.start == n.start && r.end == LineEnd(d, LineOfOffset(d, n.end).value)
    ensures 0 <= r.start < r.end <= Length(d)
  {
    var line, endLine := LineOfOffset(d, n.start).value, LineOfOffset(d, n.end).value;
    LineOfOffsetMonotone(d, n.start, n.end);
    LineOfOffsetHolds(d, n.start);
    LineEndBefore(d, line, endLine);
    LineEndWithinDocument(d, endLine);
  }

  /** When every node the walk visits lies in the document, every region lies in
      it, is not empty, and ends at the end of a line after the one it starts on. */
  lemma RegionsWithinDocument(d: Document, p: Policy, initial: bool, root: Node, cancel: Cancel, checks: nat)
    requires AllInBounds(d, PreOrder(p, GetChildren(root)))
    ensures forall r :: r in FoldingRegions(d, p, initial, Some(root), cancel, checks) ==>
      0 <= r.start < r.end <= Length(d) &&
      exists line: nat :: line < NumberOfLines(d) && r.end == LineEnd(d, line) &&
                          LineOfOffset(d, r.start).value < line
  {
    var pre := PreOrder(p, GetChildren(root));
    RegionsFromVisitedNodes(d, p, initial, root, cancel, checks);
    forall r | r in FoldingRegions(d, p, initial, Some(root), cancel, checks)
      ensures 0 <= r.start < r.end <= Length(d) &&
        exists line: nat :: line < NumberOfLines(d) && r.end == LineEnd(d, line) &&
                            LineOfOffset(d, r.start).value < line
    {
      var n :| n in pre && RegionOf(d, p, initial, n, r);
      SnappedRegion(d, p, initial, n, r);
    }
  }

  /** On a reconcile that is not the initial one, nothing starts collapsed. */
  lemma NotInitialNeverCollapsed(d: Document, p: Policy, root: Node, cancel: Cancel, checks: nat)
    ensures forall r :: r in FoldingRegions(d, p, false, Some(root), cancel, checks) ==> !r.collapsed
  {
    RegionsFromVisitedNodes(d, p, false, root, cancel, checks);
  }

  /** On the initial reconcile a region starts collapsed exactly when isCollapsed
      holds for its node; with the default hooks none does. */
  lemma DefaultNeverCollapsed(d: Document, isFoldable: Node -> bool, initial: bool, root: Node, cancel: Cancel, checks: nat)
    ensures forall r :: r in FoldingRegions(d, DefaultPolicy(isFoldable), initial, Some(root), cancel, checks) ==>
      !r.collapsed
  {
    RegionsFromVisitedNodes(d, DefaultPolicy(isFoldable), initial, root, cancel, checks);
  }

  // ---------------------------------------------------------------------------
  // One fold per start line

  /** The region check of one in-bounds node claims the start line of the
      region it adds, and only a line not yet claimed. */
  lemma NodeClaims(d: Document, p: Policy, initial: bool, x: Node, claimed: seq<nat>)
    requires InBounds(d, x) && Distinct(claimed)
    ensures var own := NodeRegion(d, p, initial, x, claimed);
      own.1 == claimed + StartLines(d, own.0) && Distinct(own.1)
  {
    var own := NodeRegion(d, p, initial, x, claimed);
    RegionCheck(d, p, initial, x, claimed);
    if own.0 != [] {
      assert StartLines(d, own.0) == [StartLine(d, own.0[0])];
    } else {
      assert StartLines(d, own.0) == [];
    }
  }

  lemma StartLinesAppend(d: Document, a: seq<Region>, b: seq<Region>)
    ensures StartLines(d, a + b) == StartLines(d, a) + StartLines(d, b)
  {
  }

  lemma AllInBoundsTail(d: Document, nodes: seq<Node>)
    requires nodes != [] && AllInBounds(d, nodes)
    ensures InBounds(d, nodes[0]) && AllInBounds(d, nodes[1..])
  {
    forall i | 0 <= i < |nodes[1..]| ensures InBounds(d, nodes[1..][i]) {
      assert nodes[1..][i] == nodes[i + 1];
    }
  }

  /** Over in-bounds nodes, the claimed lines after a scan are the claimed lines
      before it followed by the start lines of the regions it adds, and they stay
      free of repeats. */
  lemma {:induction false} ScanClaims(d: Document, p: Policy, initial: bool, nodes: seq<Node>, claimed: seq<nat>)
    requires AllInBounds(d, nodes) && Distinct(claimed)
    ensures var scan := Scan(d, p, initial, nodes, claimed);
      scan.1 == claimed + StartLines(d, scan.0) && Distinct(scan.1)
  {
    if nodes != [] {
      var own := NodeRegion(d, p, initial, nodes[0], claimed);
      AllInBoundsTail(d, nodes);
      NodeClaims(d, p, initial, nodes[0], claimed);
      ScanClaims(d, p, initial, nodes[1..], own.1);
      var tail := Scan(d, p, initial, nodes[1..], own.1);
      assert Scan(d, p, initial, nodes, claimed) == (own.0 + tail.0, tail.1);
      StartLinesAppend(d, own.0, tail.0);
      AppendAssoc(claimed, StartLines(d, own.0), StartLines(d, tail.0));
    } else {
      assert StartLines(d, []) == [];
    }
  }

  /** Over in-bounds nodes, every region of a scan starts inside the document. */
  lemma ScanStartsInDocument(d: Document, p: Policy, initial: bool, nodes: seq<Node>, claimed: seq<nat>)
    requires AllInBounds(d, nodes)
    ensures forall r :: r in Scan(d, p, initial, nodes, claimed).0 ==> 0 <= r.start <= Length(d)
  {
    ScanOrigin(d, p, initial, nodes, claimed);
    forall r | r in Scan(d, p, initial, nodes, claimed).0
      ensures 0 <= r.start <= Length(d)
    {
      var n :| n in nodes && RegionOf(d, p, initial, n, r);
      var i :| 0 <= i < |nodes| && nodes[i] == n;
      assert InBounds(d, nodes[i]);
    }
  }

  /** Over in-bounds nodes, no two regions of a scan that starts with no claimed
      line start on the same line. */
  lemma ScanDistinctStarts(d: Document, p: Policy, initial: bool, nodes: seq<Node>)
    requires AllInBounds(d, nodes)
    ensures var regions := Scan(d, p, initial, nodes, []).0;
      forall i, j :: 0 <= i < j < |regions| ==>
        LineOfOffset(d, regions[i].start) != LineOfOffset(d, regions[j].start)
  {
    var scan := Scan(d, p, initial, nodes, []);
    ScanClaims(d, p, initial, nodes, []);
    ScanStartsInDocument(d, p, initial, nodes, []);
    assert scan.1 == StartLines(d, scan.0);
    DistinctStartLines(d, scan.0);
  }

  /** Regions that start inside the document and whose start lines have no
      repeats start on pairwise different lines. */
  lemma DistinctStartLines(d: Document, regions: seq<Region>)
    requires forall r :: r in regions ==> 0 <= r.start <= Length(d)
    requires Distinct(StartLines(d, regions))
    ensures forall i, j :: 0 <= i < j < |regions| ==>
      LineOfOffset(d, regions[i].start) != LineOfOffset(d, regions[j].start)
  {
    var lines := StartLines(d, regions);
    forall i, j | 0 <= i < j < |regions|
      ensures LineOfOffset(d, regions[i].start) != LineOfOffset(d, regions[j].start)
    {
      assert regions[i] in regions && regions[j] in regions;
      assert lines[i] != lines[j];
    }
  }

  lemma AllInBoundsPrefix(d: Document, nodes: seq<Node>, m: nat)
    requires m <= |nodes| && AllInBounds(d, nodes)
    ensures AllInBounds(d, nodes[..m])
  {
    forall i | 0 <= i < m ensures InBounds(d, nodes[..m][i]) {
      assert nodes[..m][i] == nodes[i];
    }
  }

  /** When every node the walk visits lies in the document, no two regions of a
      call, cancelled or not, start on the same line: the first node in pre-order
      to claim a line keeps it. */
  lemma NoSharedStartLine(d: Document, p: Policy, initial: bool, root: Node, cancel: Cancel, checks: nat)
    requires AllInBounds(d, PreOrder(p, GetChildren(root)))
    ensures var regions := FoldingRegions(d, p, initial, Some(root), cancel, checks);
      forall i, j :: 0 <= i < j < |regions| ==>
        LineOfOffset(d, regions[i].start) != LineOfOffset(d, regions[j].start)
  {
    if NumberOfLines(d) > 1 {
      var pre := PreOrder(p, GetChildren(root));
      var m := Visited(cancel, checks, |pre|);
      FoldingRegionsAreScan(d, p, initial, root, cancel, checks);
      AllInBoundsPrefix(d, pre, m);
      ScanDistinctStarts(d, p, initial, pre[..m]);
    }
  }

}
