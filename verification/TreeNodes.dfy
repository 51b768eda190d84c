/** The nodes of a tree bin and the red-black trees they form (src/chashmap/node.rs).

    `TreeNode` is the source's node: a hash, a key and a value, the links of a red-black tree
    and the links of a list.  `Tree` is the shape that the tree links of some nodes have, and
    `Path` is what surrounds one subtree of it, innermost node first, so that an algorithm that
    walks up or down and relinks nodes near one place can say what it holds. */
module TreeNodes {
  import opened Values

  class TreeNode {
    const hash: nat
    const key: int
    var value: Value
    var next: TreeNode?
    var prev: TreeNode?
    var parent: TreeNode?
    var left: TreeNode?
    var right: TreeNode?
    var red: bool

    constructor (hash: nat, key: int, value: Value, next: TreeNode?, parent: TreeNode?)
      ensures this.hash == hash && this.key == key && this.value == value
      ensures this.next == next && this.parent == parent
      ensures left == null && right == null && prev == null && !red
    {
      this.hash, this.key, this.value, this.next, this.parent := hash, key, value, next, parent;
      left, right, prev, red := null, null, null, false;
    }
  }

  datatype Tree =
    | Leaf
    | Node(left: Tree, node: TreeNode, red: bool, right: Tree)

  datatype Path =
    | Top
    | LeftOf(up: Path, node: TreeNode, red: bool, right: Tree)
    | RightOf(up: Path, left: Tree, node: TreeNode, red: bool)

  // ---- order ----

  /** Nodes are ordered by hash, then by key. */
  ghost predicate Before(m: TreeNode, n: TreeNode) {
    m.hash < n.hash || (m.hash == n.hash && m.key < n.key)
  }

  ghost predicate Sorted(s: seq<TreeNode>) {
    forall i, j :: 0 <= i < j < |s| ==> Before(s[i], s[j])
  }

  ghost function Inorder(t: Tree): seq<TreeNode> {
    match t
    case Leaf => []
    case Node(l, n, _, r) => Inorder(l) + [n] + Inorder(r)
  }

  ghost function Plug(p: Path, t: Tree): Tree {
    match p
    case Top => t
    case LeftOf(up, n, red, r) => Plug(up, Node(t, n, red, r))
    case RightOf(up, l, n, red) => Plug(up, Node(l, n, red, t))
  }

  ghost function InorderBefore(p: Path): seq<TreeNode> {
    match p
    case Top => []
    case LeftOf(up, _, _, _) => InorderBefore(up)
    case RightOf(up, l, n, _) => InorderBefore(up) + (Inorder(l) + [n])
  }

  ghost function InorderAfter(p: Path): seq<TreeNode> {
    match p
    case Top => []
    case LeftOf(up, n, _, r) => [n] + Inorder(r) + InorderAfter(up)
    case RightOf(up, _, _, _) => InorderAfter(up)
  }

  lemma Regroup(a: seq<TreeNode>, b: seq<TreeNode>, n: TreeNode, c: seq<TreeNode>, d: seq<TreeNode>)
    ensures a + (b + [n] + c) + d == a + b + ([n] + c + d)
    ensures a + (b + [n] + c) + d == a + (b + [n]) + c + d
  {
  }

  lemma {:induction false} InorderOfPlug(p: Path, t: Tree)
    ensures Inorder(Plug(p, t)) == InorderBefore(p) + Inorder(t) + InorderAfter(p)
  {
    match p
    case Top =>
      assert InorderBefore(p) + Inorder(t) + InorderAfter(p) == Inorder(t);
    case LeftOf(up, n, red, r) =>
      InorderOfPlug(up, Node(t, n, red, r));
      Regroup(InorderBefore(up), Inorder(t), n, Inorder(r), InorderAfter(up));
    case RightOf(up, l, n, red) =>
      InorderOfPlug(up, Node(l, n, red, t));
      Regroup(InorderBefore(up), Inorder(l), n, Inorder(t), InorderAfter(up));
  }

  // ---- red-black balance ----

  ghost predicate IsRed(t: Tree) {
    t.Node? && t.red
  }

  /** No red node has a red child and every path down to a leaf passes `h` black nodes. */
  ghost predicate RedBlack(t: Tree, h: nat) {
    match t
    case Leaf => h == 0
    case Node(l, _, red, r) =>
      if red then RedBlack(l, h) && RedBlack(r, h) && !IsRed(l) && !IsRed(r)
      else h > 0 && RedBlack(l, h - 1) && RedBlack(r, h - 1)
  }

  ghost predicate HeadRed(p: Path) {
    !p.Top? && p.red
  }

  /** A subtree of black height `h` is wanted here: with one, whose root is black or hangs from a
      black node, the whole is a red-black tree with a black root. */
  ghost predicate Wants(p: Path, h: nat) {
    match p
    case Top => true
    case LeftOf(up, _, red, r) =>
      RedBlack(r, h) && (red ==> !IsRed(r) && !HeadRed(up) && !up.Top?) && Wants(up, if red then h else h + 1)
    case RightOf(up, l, _, red) =>
      RedBlack(l, h) && (red ==> !IsRed(l) && !HeadRed(up) && !up.Top?) && Wants(up, if red then h else h + 1)
  }

  ghost predicate Balanced(t: Tree) {
    !IsRed(t) && exists h: nat :: RedBlack(t, h)
  }

  lemma {:induction false} PlugBalanced(p: Path, t: Tree, h: nat)
    requires Wants(p, h) && RedBlack(t, h)
    requires IsRed(t) ==> !HeadRed(p) && !p.Top?
    ensures Balanced(Plug(p, t))
  {
    match p
    case Top =>
    case LeftOf(up, n, red, r) =>
      PlugBalanced(up, Node(t, n, red, r), if red then h else h + 1);
    case RightOf(up, l, n, red) =>
      PlugBalanced(up, Node(l, n, red, t), if red then h else h + 1);
  }

  // ---- the links in the heap ----

  ghost function Nodes(t: Tree): set<TreeNode> {
    match t
    case Leaf => {}
    case Node(l, n, _, r) => Nodes(l) + {n} + Nodes(r)
  }

  ghost function PathNodes(p: Path): set<TreeNode> {
    match p
    case Top => {}
    case LeftOf(up, n, _, r) => PathNodes(up) + {n} + Nodes(r)
    case RightOf(up, l, n, _) => PathNodes(up) + {n} + Nodes(l)
  }

  ghost function Root(t: Tree): TreeNode? {
    if t.Leaf? then null else t.node
  }

  ghost function Head(p: Path): TreeNode? {
    if p.Top? then null else p.node
  }

  ghost function Just(n: TreeNode?): set<TreeNode> {
    if n == null then {} else {n}
  }

  /** The nodes under the root of `t`. */
  ghost function Below(t: Tree): set<TreeNode> {
    if t.Leaf? then {} else Nodes(t.left) + Nodes(t.right)
  }

  /** Changing the parent of the root of `t` leaves what `Linked(t)` reads alone. */
  ghost predicate RootIsFree(t: Tree) {
    Below(t) <= Nodes(t) && (t.Node? ==> t.node in Nodes(t) && t.node !in Below(t))
  }

  /** No node occurs twice. */
  ghost predicate Distinct(t: Tree) {
    match t
    case Leaf => true
    case Node(l, n, _, r) =>
      n !in Nodes(l) && n !in Nodes(r) && Nodes(l) !! Nodes(r) && Distinct(l) && Distinct(r)
  }

  ghost predicate DistinctPath(p: Path) {
    match p
    case Top => true
    case LeftOf(up, n, _, r) =>
      n !in PathNodes(up) && n !in Nodes(r) && PathNodes(up) !! Nodes(r) && Distinct(r) && DistinctPath(up)
    case RightOf(up, l, n, _) =>
      n !in PathNodes(up) && n !in Nodes(l) && PathNodes(up) !! Nodes(l) && Distinct(l) && DistinctPath(up)
  }

  ghost predicate Apart(p: Path, t: Tree) {
    Distinct(t) && DistinctPath(p) && PathNodes(p) !! Nodes(t)
  }

  /** `t` hangs from `parent` as far as its root says. */
  ghost predicate HangsFrom(t: Tree, parent: TreeNode?)
    reads Just(Root(t))`parent
  {
    t.Node? ==> t.node.parent == parent
  }

  /** The nodes of `t` are linked and coloured as `t` says; the parent of its root is left open. */
  ghost predicate Linked(t: Tree)
    reads Nodes(t)`left, Nodes(t)`right, Nodes(t)`red
    reads Below(t)`parent
  {
    match t
    case Leaf => true
    case Node(l, n, red, r) =>
      n.red == red && n.left == Root(l) && n.right == Root(r) && HangsFrom(l, n) && HangsFrom(r, n) && Linked(l) &&
        Linked(r)
  }

  /** The hole of `p` holds `child`. */
  ghost predicate HoleHolds(p: Path, child: TreeNode?)
    reads Just(Head(p))`left, Just(Head(p))`right
  {
    match p
    case Top => true
    case LeftOf(_, n, _, _) => n.left == child
    case RightOf(_, _, n, _) => n.right == child
  }

  /** The nodes of `p` whose left pointer is not its hole. */
  ghost function LeftFixed(p: Path): set<TreeNode> {
    match p
    case Top => {}
    case LeftOf(up, _, _, r) => PathNodes(up) + Nodes(r)
    case RightOf(up, l, n, _) => PathNodes(up) + {n} + Nodes(l)
  }

  /** The nodes of `p` whose right pointer is not its hole. */
  ghost function RightFixed(p: Path): set<TreeNode> {
    match p
    case Top => {}
    case LeftOf(up, n, _, r) => PathNodes(up) + {n} + Nodes(r)
    case RightOf(up, l, _, _) => PathNodes(up) + Nodes(l)
  }

  /** Writing the hole of `p`, or nodes outside `p`, leaves what `LinkedPath(p)` reads alone. */
  ghost predicate HoleIsFree(p: Path) {
    LeftFixed(p) <= PathNodes(p) && RightFixed(p) <= PathNodes(p) && (!p.Top? ==> p.node in PathNodes(p)) &&
    (p.LeftOf? ==> p.node !in LeftFixed(p)) && (p.RightOf? ==> p.node !in RightFixed(p))
  }

  /** The nodes around the hole of `p` are linked and coloured as `p` says; the pointer that is
      the hole is left open. */
  ghost predicate LinkedPath(p: Path)
    reads PathNodes(p)`parent, PathNodes(p)`red
    reads LeftFixed(p)`left, RightFixed(p)`right
  {
    match p
    case Top => true
    case LeftOf(up, n, red, r) =>
      n.red == red && n.parent == Head(up) && n.right == Root(r) && HangsFrom(r, n) && Linked(r) &&
      HoleHolds(up, n) && LinkedPath(up)
    case RightOf(up, l, n, red) =>
      n.red == red && n.parent == Head(up) && n.left == Root(l) && HangsFrom(l, n) && Linked(l) &&
      HoleHolds(up, n) && LinkedPath(up)
  }

  /** The heap holds the tree `Plug(p, t)`, rooted at `root`. */
  ghost predicate Holds(p: Path, t: Tree, root: TreeNode?)
    reads Nodes(t)`parent, Nodes(t)`left, Nodes(t)`right, Nodes(t)`red
    reads PathNodes(p)`parent, PathNodes(p)`left, PathNodes(p)`right, PathNodes(p)`red
  {
    Apart(p, t) && Linked(t) && LinkedPath(p) && HangsFrom(t, Head(p)) && HoleHolds(p, Root(t)) &&
    root == Root(Plug(p, t))
  }
}
