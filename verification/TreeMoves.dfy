/** Looking at one tree of a tree bin from different places of it. */
module TreeMoves {
  import opened TreeNodes

  ghost function Child(t: Tree, left: bool): Tree
    requires t.Node?
  {
    if left then t.left else t.right
  }

  ghost function WithChild(t: Tree, left: bool, c: Tree): Tree
    requires t.Node?
  {
    if left then t.(left := c) else t.(right := c)
  }

  /** The path into one child of `t`. */
  ghost function Into(p: Path, t: Tree, left: bool): Path
    requires t.Node?
  {
    if left then LeftOf(p, t.node, t.red, t.right) else RightOf(p, t.left, t.node, t.red)
  }

  /** The root of the whole does not depend on the subtree in a hole below it. */
  lemma {:induction false} RootOfPlug(p: Path, t: Tree, t': Tree)
    ensures Root(Plug(p, t')) == if p.Top? then Root(t') else Root(Plug(p, t))
  {
    match p
    case Top =>
    case LeftOf(up, n, red, r) => RootOfPlug(up, Node(t, n, red, r), Node(t', n, red, r));
    case RightOf(up, l, n, red) => RootOfPlug(up, Node(l, n, red, t), Node(l, n, red, t'));
  }

  // ---- moving between a tree and its parts ----

  lemma MoveLeft(p: Path, l: Tree, n: TreeNode, red: bool, r: Tree, root: TreeNode?)
    ensures Holds(LeftOf(p, n, red, r), l, root) <==> Holds(p, Node(l, n, red, r), root)
  {
  }

  lemma MoveRight(p: Path, l: Tree, n: TreeNode, red: bool, r: Tree, root: TreeNode?)
    ensures Holds(RightOf(p, l, n, red), r, root) <==> Holds(p, Node(l, n, red, r), root)
  {
  }

  lemma MoveInto(p: Path, t: Tree, left: bool, c: Tree, root: TreeNode?)
    requires t.Node?
    ensures Holds(Into(p, t, left), c, root) <==> Holds(p, WithChild(t, left, c), root)
    ensures Nodes(c) + PathNodes(Into(p, t, left)) == Nodes(WithChild(t, left, c)) + PathNodes(p)
    ensures Plug(Into(p, t, left), c) == Plug(p, WithChild(t, left, c))
  {
    if left {
      MoveLeft(p, c, t.node, t.red, t.right, root);
    } else {
      MoveRight(p, t.left, t.node, t.red, c, root);
    }
    hide Holds;
  }

  ghost function Depth(p: Path): nat {
    if p.Top? then 0 else 1 + Depth(p.up)
  }

  /** The other child of the innermost node of `p`. */
  ghost function Sibling(p: Path): Tree
    requires !p.Top?
  {
    if p.LeftOf? then p.right else p.left
  }

  /** The tree at the innermost node of `p`, with `t` in the hole. */
  ghost function Around(p: Path, t: Tree): Tree
    requires !p.Top?
  {
    if p.LeftOf? then Node(t, p.node, p.red, p.right) else Node(p.left, p.node, p.red, t)
  }

  lemma MoveUp(p: Path, t: Tree, root: TreeNode?)
    requires !p.Top?
    ensures Holds(p, t, root) <==> Holds(p.up, Around(p, t), root)
    ensures Nodes(t) + PathNodes(p) == Nodes(Around(p, t)) + PathNodes(p.up)
    ensures Plug(p, t) == Plug(p.up, Around(p, t))
  {
    MoveInto(p.up, Around(p, t), p.LeftOf?, t, root);
    hide Holds;
  }

  lemma {:induction false} Whole(p: Path, t: Tree, root: TreeNode?)
    requires Holds(p, t, root)
    ensures Holds(Top, Plug(p, t), root)
    ensures Nodes(Plug(p, t)) == Nodes(t) + PathNodes(p)
  {
    hide Holds, Nodes;
    if !p.Top? {
      MoveUp(p, t, root);
      Whole(p.up, Around(p, t), root);
    } else {
      assert PathNodes(p) == {};
    }
  }

  lemma SameOrder(p: Path, t: Tree, t': Tree)
    requires Inorder(t') == Inorder(t)
    ensures Inorder(Plug(p, t')) == Inorder(Plug(p, t))
  {
    InorderOfPlug(p, t);
    InorderOfPlug(p, t');
  }

  // ---- reading ----

  /** What the fields say around the root of `t`. */
  lemma Surroundings(p: Path, t: Tree, root: TreeNode?)
    requires Holds(p, t, root)
    ensures HangsFrom(t, Head(p)) && HoleHolds(p, Root(t))
    ensures t.Node? ==>
            t.node.red == t.red && t.node.left == Root(t.left) && t.node.right == Root(t.right) && t.node in Nodes(t)
    ensures !p.Top? ==>
            p.node.red == p.red && p.node.parent == Head(p.up) && HoleHolds(p.up, p.node) && p.node in PathNodes(p)
    ensures p.LeftOf? ==> p.node.right == Root(p.right)
    ensures p.RightOf? ==> p.node.left == Root(p.left)
    ensures p.RightOf? && t.Node? ==> p.node.left != t.node
    ensures p.LeftOf? && t.Node? ==> p.node.right != t.node
  {
    hide Plug, RedBlack, Wants, DistinctPath, Distinct, LeftFixed, RightFixed, Below;
  }

  // ---- listing ----

  lemma {:induction false} NodesAreListed(t: Tree, n: TreeNode)
    ensures n in Nodes(t) <==> n in Inorder(t)
  {
    if t.Node? {
      NodesAreListed(t.left, n);
      NodesAreListed(t.right, n);
    }
  }

  lemma SameNodes(t: Tree, t': Tree)
    requires Inorder(t') == Inorder(t)
    ensures Nodes(t') == Nodes(t)
  {
    forall n | n in Nodes(t) + Nodes(t')
      ensures n in Nodes(t') && n in Nodes(t)
    {
      NodesAreListed(t, n);
      NodesAreListed(t', n);
    }
  }

  // ---- finding a node ----

  /** Where `n` is in `t`: the path to it and the subtree at it. */
  ghost function Locate(t: Tree, n: TreeNode, p: Path): (r: (Path, Tree))
    requires n in Nodes(t)
    ensures r.1.Node? && r.1.node == n && Plug(r.0, r.1) == Plug(p, t)
  {
    if n == t.node then (p, t) else
    if n in Nodes(t.left) then Locate(t.left, n, Into(p, t, true)) else Locate(t.right, n, Into(p, t, false))
  }

  lemma {:induction false} Enter(p: Path, t: Tree, root: TreeNode?)
    requires Holds(Top, Plug(p, t), root)
    ensures Holds(p, t, root) && Nodes(Plug(p, t)) == Nodes(t) + PathNodes(p)
  {
    hide Holds, Nodes;
    if !p.Top? {
      MoveUp(p, t, root);
      Enter(p.up, Around(p, t), root);
    } else {
      assert PathNodes(p) == {};
    }
  }

  // ---- the balance of the parts ----

  ghost function BlackHeight(t: Tree): nat {
    if t.Leaf? then 0 else BlackHeight(t.left) + if t.red then 0 else 1
  }

  lemma {:induction false} BlackHeightIs(t: Tree, h: nat)
    requires RedBlack(t, h)
    ensures h == BlackHeight(t)
  {
    if t.Node? {
      BlackHeightIs(t.left, if t.red then h else h - 1);
    }
  }

  /** In a red-black tree every place wants what hangs there. */
  lemma {:induction false} Unplug(p: Path, t: Tree)
    requires Balanced(Plug(p, t))
    ensures RedBlack(t, BlackHeight(t)) && Wants(p, BlackHeight(t)) && (IsRed(t) ==> !HeadRed(p) && !p.Top?)
  {
    if p.Top? {
      var h: nat :| RedBlack(t, h);
      BlackHeightIs(t, h);
    } else {
      var u := Around(p, t);
      Unplug(p.up, u);
      BlackHeightIs(t, if p.red then BlackHeight(u) else BlackHeight(u) - 1);
    }
  }
}
