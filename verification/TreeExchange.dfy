/** Exchanging a node of a tree bin with its successor, so that it has at most one child
    (src/chashmap/node.rs). */
module TreeExchange {
  import opened TreeMoves
  import opened TreeNodes

  // ---- the way down to the successor ----

  /** Only left turns. */
  ghost predicate Spine(d: Path) {
    d.Top? || (d.LeftOf? && Spine(d.up))
  }

  /** The outermost node of `d`. */
  ghost function Apex(d: Path): TreeNode? {
    if d.Top? then null else if d.up.Top? then d.node else Apex(d.up)
  }

  /** The nodes of `d` whose parent is in `d`. */
  ghost function ParentFixed(d: Path): set<TreeNode> {
    match d
    case Top => {}
    case LeftOf(up, n, _, r) => ParentFixed(up) + Nodes(r) + if up.Top? then {} else {n}
    case RightOf(up, l, n, _) => ParentFixed(up) + Nodes(l) + if up.Top? then {} else {n}
  }

  /** Like `LinkedPath`, with the parent of the outermost node left open too. */
  ghost predicate Dangling(d: Path)
    reads ParentFixed(d)`parent, PathNodes(d)`red
    reads LeftFixed(d)`left, RightFixed(d)`right
  {
    match d
    case Top => true
    case LeftOf(up, n, red, r) =>
      n.red == red && (up.Top? || n.parent == Head(up)) && n.right == Root(r) && HangsFrom(r, n) && Linked(r) &&
      HoleHolds(up, n) && Dangling(up)
    case RightOf(up, l, n, red) =>
      n.red == red && (up.Top? || n.parent == Head(up)) && n.left == Root(l) && HangsFrom(l, n) && Linked(l) &&
      HoleHolds(up, n) && Dangling(up)
  }

  lemma {:induction false} LinkedWhole(d: Path, v: Tree)
    ensures Linked(Plug(d, v)) <==>
            Dangling(d) && Linked(v) && (d.Top? || (HangsFrom(v, Head(d)) && HoleHolds(d, Root(v))))
  {
    if !d.Top? {
      LinkedWhole(d.up, Around(d, v));
    }
  }

  lemma {:induction false} RootOfSpine(d: Path, v: Tree)
    ensures Root(Plug(d, v)) == if d.Top? then Root(v) else Apex(d)
    ensures !d.Top? ==> Apex(d) != null
  {
    if !d.Top? {
      RootOfSpine(d.up, Around(d, v));
    }
  }

  lemma {:induction false} NodesOfPlug(d: Path, v: Tree)
    ensures Nodes(Plug(d, v)) == PathNodes(d) + Nodes(v)
  {
    if !d.Top? {
      NodesOfPlug(d.up, Around(d, v));
    }
  }

  lemma {:induction false} DistinctWhole(d: Path, v: Tree)
    ensures Distinct(Plug(d, v)) <==> Apart(d, v)
  {
    if !d.Top? {
      DistinctWhole(d.up, Around(d, v));
    }
  }

  /** Changing the parent of the outermost node leaves what `Dangling(d)` reads alone. */
  ghost predicate ApexIsFree(d: Path) {
    ParentFixed(d) <= PathNodes(d) && (!d.Top? ==>
      Apex(d) != null && Apex(d) in PathNodes(d) && Apex(d) !in ParentFixed(d))
  }

  lemma {:induction false} ApexOfDistinct(d: Path)
    requires DistinctPath(d)
    ensures ApexIsFree(d)
  {
    if !d.Top? {
      ApexOfDistinct(d.up);
    }
  }

  // ---- the exchange ----

  /** `p` has two children; its successor `s` is the leftmost node of the right one, under `d`. */
  datatype Exchange = Exchange(path: Path, l: Tree, p: TreeNode, red: bool, d: Path, s: TreeNode, red': bool, r: Tree) {
    ghost function Before(): Tree { Node(l, p, red, Plug(d, Node(Leaf, s, red', r))) }

    ghost function After(): Tree { Node(l, s, red, Plug(d, Node(Leaf, p, red', r))) }

    /** The nodes and subtrees do not meet. */
    ghost predicate Pieces() {
      HoleIsFree(path) && HoleIsFree(d) && ApexIsFree(d) && RootIsFree(l) && RootIsFree(r) && p != s &&
      p !in Nodes(l) && p !in Nodes(r) && p !in PathNodes(path) && p !in PathNodes(d) &&
      s !in Nodes(l) && s !in Nodes(r) && s !in PathNodes(path) && s !in PathNodes(d) &&
      Nodes(l) !! Nodes(r) && PathNodes(path) !! Nodes(l) && PathNodes(path) !! Nodes(r) &&
      PathNodes(d) !! Nodes(l) && PathNodes(d) !! Nodes(r) && PathNodes(d) !! PathNodes(path)
    }

    ghost predicate Intact()
      reads Nodes(l), Nodes(r), PathNodes(path), PathNodes(d), ParentFixed(d)
    {
      Linked(l) && Linked(r) && LinkedPath(path) && Dangling(d)
    }

    ghost predicate PathIsClear()
      reads Just(Head(path))`left, Just(Head(path))`right
    {
      (path.RightOf? ==> path.node.left != p) && (path.LeftOf? ==> path.node.right != p)
    }

    /** `n` is where `p` was before. */
    ghost predicate OnTop(n: TreeNode)
      reads n, Just(Root(l))`parent
    {
      n.red == red && n.parent == Head(path) && n.left == Root(l) && HangsFrom(l, n)
    }

    /** `n` is where `s` was before. */
    ghost predicate AtBottom(n: TreeNode)
      reads n, Just(Root(r))`parent
    {
      n.red == red' && n.left == null && n.right == Root(r) && HangsFrom(r, n)
    }

    /** `m` is on top of the way down, and `n` at the end of it. */
    ghost predicate Joined(m: TreeNode, n: TreeNode)
      reads m, n, Just(Apex(d))`parent, Just(Head(d))`left, Just(Head(d))`right
    {
      if d.Top? then m.right == n && n.parent == m
      else m.right == Apex(d) && Apex(d) != null && Apex(d).parent == m && n.parent == Head(d) && HoleHolds(d, n)
    }
  }

  lemma ExchangePieces(e: Exchange)
    requires Apart(e.path, e.Before())
    ensures e.Pieces() && Distinct(e.l) && Distinct(e.r) && DistinctPath(e.d)
    ensures Nodes(e.Before()) == Nodes(e.l) + {e.p} + (PathNodes(e.d) + (Nodes(e.r) + {e.s}))
  {
    var low := Node(Leaf, e.s, e.red', e.r);
    DistinctWhole(e.d, low);
    NodesOfPlug(e.d, low);
    ApexOfDistinct(e.d);
    assert Nodes(low) == Nodes(e.r) + {e.s};
    assert Distinct(low);
    hide Plug;
    assert HoleIsFree(e.path);
    assert HoleIsFree(e.d);
    RootOfDistinct(e.l);
    RootOfDistinct(e.r);
  }

  lemma RootOfDistinct(t: Tree)
    requires Distinct(t)
    ensures RootIsFree(t)
  {
  }

  lemma ExchangeApart(e: Exchange)
    requires Apart(e.path, e.Before())
    ensures Apart(e.path, e.After()) && Nodes(e.After()) == Nodes(e.Before())
  {
    ExchangePieces(e);
    var low := Node(Leaf, e.p, e.red', e.r);
    DistinctWhole(e.d, low);
    NodesOfPlug(e.d, low);
    assert Nodes(low) == Nodes(e.r) + {e.p};
    assert Distinct(low);
    hide Plug, DistinctPath, HoleIsFree, ApexIsFree, RootIsFree;
  }

  lemma ExchangeBegins(root: TreeNode?, e: Exchange)
    requires Holds(e.path, e.Before(), root)
    ensures e.Intact() && e.OnTop(e.p) && e.AtBottom(e.s) && e.Joined(e.p, e.s) && e.PathIsClear()
    ensures HoleHolds(e.path, e.p) && root == Root(Plug(e.path, e.Before()))
  {
    var low := Node(Leaf, e.s, e.red', e.r);
    LinkedWhole(e.d, low);
    RootOfSpine(e.d, low);
    assert e.d.Top? ==> Plug(e.d, low) == low;
    hide Plug, DistinctPath;
  }

  lemma ExchangeEnds(root: TreeNode?, e: Exchange, root': TreeNode?)
    requires Apart(e.path, e.After()) && e.Intact() && e.OnTop(e.s) && e.AtBottom(e.p) && e.Joined(e.s, e.p)
    requires HoleHolds(e.path, e.s)
    requires root == Root(Plug(e.path, e.Before())) && root' == if e.path.Top? then e.s else root
    ensures Holds(e.path, e.After(), root')
  {
    var low := Node(Leaf, e.p, e.red', e.r);
    LinkedWhole(e.d, low);
    RootOfSpine(e.d, low);
    RootOfPlug(e.path, e.Before(), e.After());
    assert e.d.Top? ==> Plug(e.d, low) == low;
    assert Linked(low);
    hide Plug, DistinctPath, Distinct;
  }

  method SwapColours(p: TreeNode, s: TreeNode, ghost e: Exchange)
    requires p == e.p && s == e.s && e.Pieces() && e.Intact() && e.OnTop(p) && e.AtBottom(s) && e.Joined(p, s)
    modifies p`red, s`red
    ensures e.Intact() && p.red == e.red' && s.red == e.red
    ensures e.Joined(p, s)
  {
    hide Nodes, PathNodes, Below, LeftFixed, RightFixed, LinkedPath, Linked, Dangling, ParentFixed;
    var red := s.red;
    s.red := p.red;
    p.red := red;
  }

  /** `p` goes to the end of the way down, `s` to the top of it. */
  method SwapEnds(p: TreeNode, s: TreeNode, right: TreeNode?, ghost e: Exchange)
    requires p == e.p && s == e.s && e.Pieces() && !e.d.RightOf? && e.Intact() && e.Joined(p, s) && right == p.right
    modifies p`parent, s`right, Just(Head(e.d))`left, Just(Head(e.d))`right, Just(Apex(e.d))`parent
    ensures e.Intact() && e.Joined(s, p)
  {
    hide Nodes, PathNodes, Below, LeftFixed, RightFixed, LinkedPath, Linked, Dangling, ParentFixed, Apex;
    if s == right {
      p.parent := s;
      s.right := p;
    } else {
      var sParent := s.parent;
      p.parent := sParent;
      if sParent != null {
        if s == sParent.left {
          sParent.left := p;
        } else {
          // a successor that is not the right child of its node is a left child
          assert false;
        }
      }
      s.right := right;
      if right != null {
        right.parent := s;
      }
    }
  }

  /** `p` takes over the child of `s`. */
  method TakeChild(p: TreeNode, s: TreeNode, sRight: TreeNode?, ghost e: Exchange)
    requires p == e.p && s == e.s && e.Pieces() && e.Intact() && e.Joined(s, p) && sRight == Root(e.r)
    requires p.red == e.red' && s.red == e.red
    modifies p`left, p`right, Just(Root(e.r))`parent
    ensures e.Intact() && e.AtBottom(p) && s.red == e.red && e.Joined(s, p)
  {
    hide Nodes, PathNodes, Below, LeftFixed, RightFixed, LinkedPath, Linked, Dangling, ParentFixed, Apex;
    p.left := null;
    p.right := sRight;
    if sRight != null {
      sRight.parent := p;
    }
  }

  /** `s` takes over the left child of `p`, and its place. */
  method TakePlace(root: TreeNode?, p: TreeNode, s: TreeNode, left: TreeNode?, pParent: TreeNode?, ghost e: Exchange)
    returns (root': TreeNode?)
    requires p == e.p && s == e.s && e.Pieces() && e.Intact() && e.Joined(s, p) && e.AtBottom(p) && s.red == e.red
    requires left == Root(e.l) && pParent == Head(e.path) && HoleHolds(e.path, p) && e.PathIsClear()
    modifies s`left, s`parent, Just(Root(e.l))`parent, Just(pParent)`left, Just(pParent)`right
    ensures e.Intact() && e.Joined(s, p) && e.AtBottom(p) && e.OnTop(s) && HoleHolds(e.path, s)
    ensures root' == if e.path.Top? then s else root
  {
    hide Nodes, PathNodes, Below, LeftFixed, RightFixed, LinkedPath, Linked, Dangling, ParentFixed, Apex;
    root' := root;
    s.left := left;
    if left != null {
      left.parent := s;
    }
    s.parent := pParent;
    if pParent == null {
      root' := s;
    } else if p == pParent.left {
      pParent.left := s;
    } else {
      pParent.right := s;
    }
  }

  /** Exchanges `p` with its successor `s`, places and colours. */
  method ExchangeNodes(root: TreeNode?, p: TreeNode, s: TreeNode, left: TreeNode?, right: TreeNode?, ghost e: Exchange,
                       ghost all: set<TreeNode>)
    returns (root': TreeNode?)
    requires p == e.p && s == e.s && !e.d.RightOf? && Holds(e.path, e.Before(), root)
    requires left == p.left && right == p.right && Nodes(e.Before()) + PathNodes(e.path) <= all
    modifies all`parent, all`left, all`right, all`red
    ensures Holds(e.path, e.After(), root') && p.left == null && p.right == old(s.right) && p.parent != null
  {
    ExchangePieces(e);
    ExchangeApart(e);
    ExchangeBegins(root, e);
    assert Just(Head(e.path)) + Just(Root(e.l)) + Just(Root(e.r)) + Just(Head(e.d)) + Just(Apex(e.d)) <= all;
    hide Holds, Nodes, PathNodes, Below, LeftFixed, RightFixed, LinkedPath, Linked, Dangling, ParentFixed, Apex,
      Distinct, DistinctPath, Plug;
    SwapColours(p, s, e);
    var sRight, pParent := s.right, p.parent;
    SwapEnds(p, s, right, e);
    TakeChild(p, s, sRight, e);
    root' := TakePlace(root, p, s, left, pParent, e);
    ExchangeEnds(root, e, root');
  }

  // ---- what the exchange keeps ----

  ghost predicate SameColours(t: Tree, t': Tree) {
    if t.Leaf? || t'.Leaf? then t == t'
    else t.red == t'.red && SameColours(t.left, t'.left) && SameColours(t.right, t'.right)
  }

  lemma {:induction false} SameColoursItself(t: Tree)
    ensures SameColours(t, t)
  {
    if t.Node? {
      SameColoursItself(t.left);
      SameColoursItself(t.right);
    }
  }

  lemma {:induction false} SameColoursPlug(c: Path, t: Tree, t': Tree)
    requires SameColours(t, t')
    ensures SameColours(Plug(c, t), Plug(c, t'))
  {
    if !c.Top? {
      SameColoursItself(Sibling(c));
      SameColoursPlug(c.up, Around(c, t), Around(c, t'));
    }
  }

  lemma {:induction false} SameColoursBalance(t: Tree, t': Tree, h: nat)
    requires SameColours(t, t') && RedBlack(t, h)
    ensures RedBlack(t', h)
  {
    if t.Node? {
      SameColoursBalance(t.left, t'.left, if t.red then h else h - 1);
      SameColoursBalance(t.right, t'.right, if t.red then h else h - 1);
    }
  }

  lemma ExchangeBalanced(e: Exchange)
    requires Balanced(Plug(e.path, e.Before()))
    ensures Balanced(Plug(e.path, e.After()))
  {
    var low, low' := Node(Leaf, e.s, e.red', e.r), Node(Leaf, e.p, e.red', e.r);
    SameColoursItself(e.l);
    SameColoursItself(e.r);
    SameColoursPlug(e.d, low, low');
    SameColoursPlug(e.path, e.Before(), e.After());
    var t, t' := Plug(e.path, e.Before()), Plug(e.path, e.After());
    var h: nat :| RedBlack(t, h);
    SameColoursBalance(t, t', h);
  }

  lemma {:induction false} SpineIsFirst(d: Path)
    requires Spine(d)
    ensures InorderBefore(d) == []
  {
    if !d.Top? {
      SpineIsFirst(d.up);
    }
  }

  /** The exchange swaps two nodes that are next to each other. */
  lemma ExchangeInorder(e: Exchange)
    requires Spine(e.d)
    ensures Inorder(e.Before()) == Inorder(e.l) + [e.p, e.s] + (Inorder(e.r) + InorderAfter(e.d))
    ensures Inorder(e.After()) == Inorder(e.l) + [e.s, e.p] + (Inorder(e.r) + InorderAfter(e.d))
  {
    var low, low' := Node(Leaf, e.s, e.red', e.r), Node(Leaf, e.p, e.red', e.r);
    SpineIsFirst(e.d);
    InorderOfPlug(e.d, low);
    InorderOfPlug(e.d, low');
    assert Inorder(low) == [e.s] + Inorder(e.r) && Inorder(low') == [e.p] + Inorder(e.r);
    hide Plug, InorderAfter, InorderBefore;
  }
}
