/** A snapshot of an accessibility node tree (`AccessibilityNodeInfo`), as the
    lock-screen, keyguard and scrolling helpers read it.  `getChild(i)` may
    answer null, so each child slot is optional. */
module Nodes {
  import opened Wrappers

  /** `collectionInfo`: the row and column counts a list or grid reports. */
  datatype Collection = Collection(rows: int, columns: int)

  datatype Node = Node(
    className: Option<string>,
    viewId: Option<string>,
    text: Option<string>,
    description: Option<string>,
    collection: Option<Collection>,
    scrollable: bool,
    /** `getBoundsInScreen(rect).bottom`. */
    bottom: int,
    children: seq<Option<Node>>)

  /** Every node reachable through non-null children, in depth-first
      pre-order: the node itself, then each child's subtree in child order. */
  function Preorder(n: Node): (r: seq<Node>)
    ensures |r| >= 1 && r[0] == n
    decreases n, 1
  {
    [n] + Forest(n, 0)
  }

  /** The pre-order of the subtrees of children `i`, `i + 1`, ... of `n`. */
  function Forest(n: Node, i: nat): seq<Node>
    requires i <= |n.children|
    decreases n, 0, |n.children| - i
  {
    if i == |n.children| then []
    else (if n.children[i].Some? then Preorder(n.children[i].value) else []) + Forest(n, i + 1)
  }
}
