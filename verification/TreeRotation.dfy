/** The rotations of the red-black trees of a tree bin (src/chashmap/node.rs).

    Each rotation is the source's statements in order, in three steps, with what the heap holds
    after each. */
module TreeRotation {
  import opened TreeMoves
  import opened TreeNodes

  /** What a rotation rearranges: `p` moves under its child `q`, and the subtree `b` between them
      changes sides.  `a` is the subtree on the far side of `p`, `c` the one on that of `q`. */
  datatype Turn = Turn(path: Path, a: Tree, p: TreeNode, red: bool, b: Tree, q: TreeNode, red': bool, c: Tree) {
    ghost function LeftBefore(): Tree { Node(a, p, red, Node(b, q, red', c)) }

    ghost function LeftAfter(): Tree { Node(Node(a, p, red, b), q, !path.Top? && red', c) }

    ghost function RightBefore(): Tree { Node(Node(c, q, red', b), p, red, a) }

    ghost function RightAfter(): Tree { Node(c, q, !path.Top? && red', Node(b, p, red, a)) }

    /** The nodes and subtrees do not meet. */
    ghost predicate Pieces() {
      HoleIsFree(path) && RootIsFree(a) && RootIsFree(b) && RootIsFree(c) && p != q &&
      p !in Nodes(a) && p !in Nodes(b) && p !in Nodes(c) && p !in PathNodes(path) &&
      q !in Nodes(a) && q !in Nodes(b) && q !in Nodes(c) && q !in PathNodes(path) &&
      Nodes(a) !! Nodes(b) && Nodes(b) !! Nodes(c) &&
      PathNodes(path) !! Nodes(a) && PathNodes(path) !! Nodes(b) && PathNodes(path) !! Nodes(c)
    }

    ghost predicate Intact()
      reads Nodes(a), Nodes(b), Nodes(c), PathNodes(path)
    {
      Linked(a) && Linked(b) && Linked(c) && LinkedPath(path)
    }

    /** The links of `p` and `q` during a left rotation. */
    ghost predicate TurningLeft(at: Progress)
      reads p, q
      reads Just(Root(a))`parent, Just(Root(b))`parent, Just(Root(c))`parent, Just(Head(path))`left,
        Just(Head(path))`right
    {
      p.left == Root(a) && HangsFrom(a, p) && q.right == Root(c) && HangsFrom(c, q) &&
      (if at.Begun? then p.right == q && q.left == Root(b) && HangsFrom(b, q)
        else p.right == Root(b) && HangsFrom(b, p)) &&
      (at.Turned? ==> q.left == p) && Placed(at)
    }

    ghost predicate TurningRight(at: Progress)
      reads p, q
      reads Just(Root(a))`parent, Just(Root(b))`parent, Just(Root(c))`parent, Just(Head(path))`left,
        Just(Head(path))`right
    {
      p.right == Root(a) && HangsFrom(a, p) && q.left == Root(c) && HangsFrom(c, q) &&
      (if at.Begun? then p.left == q && q.right == Root(b) && HangsFrom(b, q)
        else p.left == Root(b) && HangsFrom(b, p)) &&
      (at.Turned? ==> q.right == p) && Placed(at)
    }

    /** Which of `p` and `q` hangs in the path, and the colours. */
    ghost predicate Placed(at: Progress)
      reads p, q, Just(Head(path))`left, Just(Head(path))`right
    {
      p.red == red && p.parent == (if at.Turned? then q else Head(path)) &&
      (if at.Begun? || at.Moved? then
         q.red == red' && HoleHolds(path, p) &&
         (path.RightOf? ==> path.node.left != p) && (path.LeftOf? ==> path.node.right != p)
       else
         q.red == (!path.Top? && red') && HoleHolds(path, q) && q.parent == Head(path))
    }
  }

  /** Nothing done; `b` moved from `q` to `p`; `q` hung in the place of `p`; `p` hung under `q`. */
  datatype Progress = Begun | Moved | Raised | Turned

  // ---- facts about trees, not about the heap ----

  lemma LeftTurnInorder(r: Turn)
    ensures Inorder(r.LeftAfter()) == Inorder(r.LeftBefore())
  {
    var a, b, c := Inorder(r.a), Inorder(r.b), Inorder(r.c);
    assert Inorder(Node(r.a, r.p, r.red, r.b)) == a + [r.p] + b;
    assert a + [r.p] + (b + [r.q] + c) == (a + [r.p] + b) + [r.q] + c;
  }

  lemma RightTurnInorder(r: Turn)
    ensures Inorder(r.RightAfter()) == Inorder(r.RightBefore())
  {
    var a, b, c := Inorder(r.a), Inorder(r.b), Inorder(r.c);
    assert Inorder(Node(r.b, r.p, r.red, r.a)) == b + [r.p] + a;
    assert (c + [r.q] + b) + [r.p] + a == c + [r.q] + (b + [r.p] + a);
  }

  lemma LeftTurnApart(r: Turn)
    requires Apart(r.path, r.LeftBefore())
    ensures Apart(r.path, r.LeftAfter()) && Nodes(r.LeftAfter()) == Nodes(r.LeftBefore())
    ensures r.Pieces()
    ensures Nodes(r.LeftBefore()) == Nodes(r.a) + {r.p} + Nodes(r.b) + {r.q} + Nodes(r.c)
  {
    assert Distinct(Node(r.b, r.q, r.red', r.c));
    assert Distinct(r.a) && Distinct(r.b) && Distinct(r.c);
  }

  lemma RightTurnApart(r: Turn)
    requires Apart(r.path, r.RightBefore())
    ensures Apart(r.path, r.RightAfter()) && Nodes(r.RightAfter()) == Nodes(r.RightBefore())
    ensures r.Pieces()
    ensures Nodes(r.RightBefore()) == Nodes(r.a) + {r.p} + Nodes(r.b) + {r.q} + Nodes(r.c)
  {
    assert Distinct(Node(r.c, r.q, r.red', r.b));
    assert Distinct(r.a) && Distinct(r.b) && Distinct(r.c);
  }

  // ---- colours ----

  method Paint(n: TreeNode, red: bool, ghost p: Path, ghost t: Tree, ghost root: TreeNode?)
    requires t.Node? && n == t.node && Holds(p, t, root)
    modifies n`red
    ensures Holds(p, t.(red := red), root)
  {
    RootOfPlug(p, t, t.(red := red));
    n.red := red;
  }

  method PaintChild(n: TreeNode, red: bool, ghost left: bool, ghost p: Path, ghost t: Tree, ghost root: TreeNode?)
    requires t.Node? && Child(t, left).Node? && n == Child(t, left).node && Holds(p, t, root)
    modifies n`red
    ensures Holds(p, WithChild(t, left, Child(t, left).(red := red)), root)
  {
    hide Holds;
    ghost var c := Child(t, left);
    MoveInto(p, t, left, c, root);
    Paint(n, red, Into(p, t, left), c, root);
    MoveInto(p, t, left, c.(red := red), root);
  }

  // ---- rotating left ----

  lemma LeftTurnBegins(root: TreeNode?, r: Turn)
    requires Holds(r.path, r.LeftBefore(), root)
    ensures r.Intact() && r.TurningLeft(Begun) && root == Root(Plug(r.path, r.LeftBefore()))
  {
    assert Linked(Node(r.b, r.q, r.red', r.c));
    hide Plug, DistinctPath;
  }

  lemma LeftTurnEnds(root: TreeNode?, r: Turn, root': TreeNode?)
    requires Apart(r.path, r.LeftAfter()) && r.Intact() && r.TurningLeft(Turned)
    requires root == Root(Plug(r.path, r.LeftBefore())) && root' == if r.path.Top? then r.q else root
    ensures Holds(r.path, r.LeftAfter(), root')
  {
    RootOfPlug(r.path, r.LeftBefore(), r.LeftAfter());
    assert Linked(Node(r.a, r.p, r.red, r.b));
    hide Plug, DistinctPath, Distinct;
  }

  method MoveInnerLeft(p: TreeNode, right: TreeNode, ghost r: Turn)
    requires p == r.p && right == r.q && r.Pieces() && r.Intact() && r.TurningLeft(Begun)
    modifies p`right, Just(Root(r.b))`parent
    ensures r.Intact() && r.TurningLeft(Moved)
  {
    hide Nodes, PathNodes, Below, LeftFixed, RightFixed, LinkedPath, Linked;
    var rightLeft := right.left;
    p.right := rightLeft;
    if rightLeft != null {
      rightLeft.parent := p;
    }
  }

  method RaiseRight(root: TreeNode?, p: TreeNode, right: TreeNode, ghost r: Turn) returns (root': TreeNode?)
    requires p == r.p && right == r.q && r.Pieces() && r.Intact() && r.TurningLeft(Moved)
    modifies right`parent, right`red, Just(Head(r.path))`left, Just(Head(r.path))`right
    ensures r.Intact() && r.TurningLeft(Raised)
    ensures root' == if r.path.Top? then right else root
  {
    hide Nodes, PathNodes, Below, LeftFixed, RightFixed, LinkedPath, Linked;
    root' := root;
    var pParent := p.parent;
    right.parent := pParent;
    if pParent == null {
      root' := right;
      right.red := false;
    } else if pParent.left == p {
      pParent.left := right;
    } else {
      pParent.right := right;
    }
  }

  method LowerLeft(p: TreeNode, right: TreeNode, ghost r: Turn)
    requires p == r.p && right == r.q && r.Pieces() && r.Intact() && r.TurningLeft(Raised)
    modifies right`left, p`parent
    ensures r.Intact() && r.TurningLeft(Turned)
  {
    hide Nodes, PathNodes, Below, LeftFixed, RightFixed, LinkedPath, Linked;
    right.left := p;
    p.parent := right;
  }

  method RotateLeft(root: TreeNode?, p: TreeNode?, ghost r: Turn, ghost all: set<TreeNode>) returns (root': TreeNode?)
    requires p != null && p.right != null ==> p == r.p && Holds(r.path, r.LeftBefore(), root)
    requires p != null && p.right != null ==> Nodes(r.LeftBefore()) + PathNodes(r.path) <= all
    modifies all`parent, all`left, all`right, all`red
    ensures old(p != null && p.right != null) ==> Holds(r.path, r.LeftAfter(), root')
    ensures p == null || old(p.right) == null ==> root' == root && unchanged(all)
  {
    root' := root;
    if p == null {
      return;
    }
    var right := p.right;
    if right == null {
      return;
    }
    LeftTurnApart(r);
    LeftTurnBegins(root, r);
    hide *;
    MoveInnerLeft(p, right, r);
    root' := RaiseRight(root, p, right, r);
    LowerLeft(p, right, r);
    LeftTurnEnds(root, r, root');
  }

  // ---- rotating right ----

  lemma RightTurnBegins(root: TreeNode?, r: Turn)
    requires Holds(r.path, r.RightBefore(), root)
    ensures r.Intact() && r.TurningRight(Begun) && root == Root(Plug(r.path, r.RightBefore()))
  {
    assert Linked(Node(r.c, r.q, r.red', r.b));
    hide Plug, DistinctPath;
  }

  lemma RightTurnEnds(root: TreeNode?, r: Turn, root': TreeNode?)
    requires Apart(r.path, r.RightAfter()) && r.Intact() && r.TurningRight(Turned)
    requires root == Root(Plug(r.path, r.RightBefore())) && root' == if r.path.Top? then r.q else root
    ensures Holds(r.path, r.RightAfter(), root')
  {
    RootOfPlug(r.path, r.RightBefore(), r.RightAfter());
    assert Linked(Node(r.b, r.p, r.red, r.a));
    hide Plug, DistinctPath, Distinct;
  }

  method MoveInnerRight(p: TreeNode, left: TreeNode, ghost r: Turn)
    requires p == r.p && left == r.q && r.Pieces() && r.Intact() && r.TurningRight(Begun)
    modifies p`left, Just(Root(r.b))`parent
    ensures r.Intact() && r.TurningRight(Moved)
  {
    hide Nodes, PathNodes, Below, LeftFixed, RightFixed, LinkedPath, Linked;
    var leftRight := left.right;
    p.left := leftRight;
    if leftRight != null {
      leftRight.parent := p;
    }
  }

  method RaiseLeft(root: TreeNode?, p: TreeNode, left: TreeNode, ghost r: Turn) returns (root': TreeNode?)
    requires p == r.p && left == r.q && r.Pieces() && r.Intact() && r.TurningRight(Moved)
    modifies left`parent, left`red, Just(Head(r.path))`left, Just(Head(r.path))`right
    ensures r.Intact() && r.TurningRight(Raised)
    ensures root' == if r.path.Top? then left else root
  {
    hide Nodes, PathNodes, Below, LeftFixed, RightFixed, LinkedPath, Linked;
    root' := root;
    var pParent := p.parent;
    left.parent := pParent;
    if pParent == null {
      root' := left;
      left.red := false;
    } else if pParent.right == p {
      pParent.right := left;
    } else {
      pParent.left := left;
    }
  }

  method LowerRight(p: TreeNode, left: TreeNode, ghost r: Turn)
    requires p == r.p && left == r.q && r.Pieces() && r.Intact() && r.TurningRight(Raised)
    modifies left`right, p`parent
    ensures r.Intact() && r.TurningRight(Turned)
  {
    hide Nodes, PathNodes, Below, LeftFixed, RightFixed, LinkedPath, Linked;
    left.right := p;
    p.parent := left;
  }

  method RotateRight(root: TreeNode?, p: TreeNode?, ghost r: Turn, ghost all: set<TreeNode>) returns (root': TreeNode?)
    requires p != null && p.left != null ==> p == r.p && Holds(r.path, r.RightBefore(), root)
    requires p != null && p.left != null ==> Nodes(r.RightBefore()) + PathNodes(r.path) <= all
    modifies all`parent, all`left, all`right, all`red
    ensures old(p != null && p.left != null) ==> Holds(r.path, r.RightAfter(), root')
    ensures p == null || old(p.left) == null ==> root' == root && unchanged(all)
  {
    root' := root;
    if p == null {
      return;
    }
    var left := p.left;
    if left == null {
      return;
    }
    RightTurnApart(r);
    RightTurnBegins(root, r);
    hide *;
    MoveInnerRight(p, left, r);
    root' := RaiseLeft(root, p, left, r);
    LowerRight(p, left, r);
    RightTurnEnds(root, r, root');
  }
}
