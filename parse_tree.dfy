/** The parse tree the folding code walks: IParseNode, with ParseRootNode's
    comment nodes. A node's offsets are Java ints; its ending offset is inclusive. */
module ParseTree {

  import opened JavaInt

  /** `isRoot` marks a ParseRootNode; only such a node contributes `comments`
      (getCommentNodes, where null and an empty array are the same). */
  datatype Node = Node(
    kind: string,
    start: Int32,
    end: Int32,
    children: seq<Node>,
    comments: seq<Node>,
    isRoot: bool)

  /** The nodes the folding code iterates over for `n`: its ordinary children in
      order, followed, for a ParseRootNode at any depth, by its comment nodes. */
  function GetChildren(n: Node): (r: seq<Node>)
    ensures |r| == |n.children| + (if n.isRoot then |n.comments| else 0)
    ensures r[..|n.children|] == n.children
    ensures n.isRoot ==> r[|n.children|..] == n.comments
  {
    if n.isRoot && |n.comments| > 0 then n.children + n.comments else n.children
  }

  /** The number of nodes in the tree under `n`, comments included; it measures
      the recursion of the traversal. */
  function Size(n: Node): nat
    decreases n, 1
  {
    1 + ListSize(n.children) + ListSize(n.comments)
  }

  function ListSize(s: seq<Node>): nat
    decreases s, 0
  {
    if s == [] then 0 else Size(s[0]) + ListSize(s[1..])
  }

  lemma {:induction false} ListSizeAppend(a: seq<Node>, b: seq<Node>)
    ensures ListSize(a + b) == ListSize(a) + ListSize(b)
  {
    if a == [] {
      assert a + b == b;
    } else {
      assert (a + b)[1..] == a[1..] + b;
      ListSizeAppend(a[1..], b);
    }
  }

  /** Each node getChildren gives for `n` is a part of `n`. */
  lemma GetChildrenBelow(n: Node, i: nat)
    requires i < |GetChildren(n)|
    ensures GetChildren(n)[i] < n
  {
    if i < |n.children| {
      assert GetChildren(n)[i] == n.children[i];
    } else {
      assert GetChildren(n)[i] == n.comments[i - |n.children|];
    }
  }

  /** The nodes visited under `n` form a smaller tree than `n` itself. */
  lemma ChildrenSmaller(n: Node)
    ensures ListSize(GetChildren(n)) < Size(n)
  {
    ListSizeAppend(n.children, n.comments);
  }

}
