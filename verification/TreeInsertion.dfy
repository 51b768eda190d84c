/** Restoring the balance of a tree bin after an insertion (src/chashmap/node.rs). */
module TreeInsertion {
  import opened TreeMoves
  import opened TreeNodes
  import opened TreeRotation

  // ---- where the loop stands ----

  /** The whole would be a red-black tree if the red root of `t` might hang where it does. */
  ghost predicate TooRed(p: Path, t: Tree, h: nat) {
    IsRed(t) && RedBlack(t, h) && Wants(p, h)
  }

  /** The heap holds a tree that lists `s` and is balanced but for the red node `x`. */
  ghost predicate Inserting(p: Path, t: Tree, h: nat, root: TreeNode?, x: TreeNode?, s: seq<TreeNode>,
                            all: set<TreeNode>)
    reads all
  {
    Nodes(t) + PathNodes(p) <= all && Holds(p, t, root) && x == Root(t) && TooRed(p, t, h) && Inorder(Plug(p, t)) == s
  }

  ghost function Measure(p: Path): nat {
    if HeadRed(p) then 1 + Depth(p) else 0
  }

  lemma RedParent(p: Path, t: Tree, h: nat)
    requires TooRed(p, t, h) && HeadRed(p)
    ensures !p.up.Top? && !p.up.red && Wants(p.up.up, h + 1)
    ensures RedBlack(Sibling(p), h) && !IsRed(Sibling(p)) && RedBlack(Sibling(p.up), h)
  {
    assert Wants(p.up, h);
  }

  // ---- a red uncle ----

  ghost function Recoloured(f: Tree): Tree
    requires f.Node? && f.left.Node? && f.right.Node?
  {
    Node(f.left.(red := false), f.node, true, f.right.(red := false))
  }

  method Recolour(g: TreeNode, parent: TreeNode, uncle: TreeNode, ghost p: Path, ghost f: Tree, ghost root: TreeNode?)
    requires Holds(p, f, root) && f.Node? && f.left.Node? && f.right.Node? && g == f.node
    requires (parent == f.left.node && uncle == f.right.node) || (parent == f.right.node && uncle == f.left.node)
    modifies uncle`red, parent`red, g`red
    ensures Holds(p, Recoloured(f), root)
  {
    hide Holds;
    ghost var onLeft := parent == f.left.node;
    PaintChild(uncle, false, !onLeft, p, f, root);
    PaintChild(parent, false, onLeft, p, WithChild(f, !onLeft, Child(f, !onLeft).(red := false)), root);
    Paint(g, true, p, f.(left := f.left.(red := false), right := f.right.(red := false)), root);
  }

  lemma RecolouringKeeps(p: Path, t: Tree, h: nat)
    requires TooRed(p, t, h) && HeadRed(p) && !p.up.Top? && IsRed(Sibling(p.up))
    ensures var f := Around(p.up, Around(p, t));
            TooRed(p.up.up, Recoloured(f), h + 1) && Inorder(Plug(p.up.up, Recoloured(f))) == Inorder(Plug(p, t)) &&
            Nodes(Recoloured(f)) == Nodes(f)
  {
    RedParent(p, t, h);
    var f := Around(p.up, Around(p, t));
    assert Inorder(Recoloured(f)) == Inorder(f);
    SameOrder(p.up.up, f, Recoloured(f));
  }

  // ---- a black uncle on the right ----

  /** The red node under the left child of `f` has been brought to the left of it. */
  ghost function StraightLeft(f: Tree, x: TreeNode): Tree
    requires f.Node? && f.left.Node?
  {
    var l := f.left;
    if l.right.Node? && l.right.node == x then
      f.(left := Node(Node(l.left, l.node, l.red, l.right.left), x, l.right.red, l.right.right))
    else
      f
  }

  ghost function LiftedLeft(f: Tree): Tree
    requires f.Node? && f.left.Node?
  {
    Node(f.left.left, f.left.node, false, Node(f.left.right, f.node, true, f.right))
  }

  method StraightenLeft(root: TreeNode?, x: TreeNode, parent: TreeNode, g: TreeNode,
                        ghost p: Path, ghost f: Tree, ghost all: set<TreeNode>)
    returns (root': TreeNode?, x': TreeNode, parent': TreeNode?, g': TreeNode?)
    requires Holds(p, f, root) && Nodes(f) + PathNodes(p) <= all
    requires f.Node? && f.left.Node? && g == f.node && parent == f.left.node
    requires x == Root(f.left.left) || x == Root(f.left.right)
    modifies all`parent, all`left, all`right, all`red
    ensures Holds(p, StraightLeft(f, x), root') && StraightLeft(f, x).left.Node? && g' == g
    ensures parent' == StraightLeft(f, x).left.node && x' == Root(StraightLeft(f, x).left.left)
  {
    hide Holds, Nodes, PathNodes, Plug;
    root', x', parent', g' := root, x, parent, g;
    ghost var l := f.left;
    MoveInto(p, f, true, l, root);
    Surroundings(Into(p, f, true), l, root);
    if x == parent.right {
      x' := parent;
      ghost var turn := Turn(Into(p, f, true), l.left, l.node, l.red, l.right.left, x, l.right.red, l.right.right);
      root' := RotateLeft(root, x', turn, all);
      MoveInto(p, f, true, turn.LeftAfter(), root');
      Surroundings(Into(p, f, true), turn.LeftAfter(), root');
      MoveInto(Into(p, f, true), turn.LeftAfter(), true, turn.LeftAfter().left, root');
      Surroundings(Into(Into(p, f, true), turn.LeftAfter(), true), turn.LeftAfter().left, root');
      parent' := x'.parent;
      g' := if parent' == null then null else parent'.parent;
    }
  }

  method LiftLeft(root: TreeNode?, parent: TreeNode?, g: TreeNode?, ghost p: Path, ghost f: Tree,
                  ghost all: set<TreeNode>)
    returns (root': TreeNode?)
    requires Holds(p, f, root) && Nodes(f) + PathNodes(p) <= all
    requires f.Node? && f.left.Node? && g == f.node && parent == f.left.node
    modifies all`parent, all`left, all`right, all`red
    ensures Holds(p, LiftedLeft(f), root')
  {
    hide Holds, PathNodes, Plug;
    root' := root;
    if parent != null {
      PaintChild(parent, false, true, p, f, root);
      if g != null {
        ghost var f' := f.(left := f.left.(red := false));
        SameNodes(f, f'.(red := true));
        Paint(g, true, p, f', root);
        Surroundings(p, f'.(red := true), root);
        root' := RotateRight(root, g, Turn(p, f.right, f.node, true, f.left.right, f.left.node, false, f.left.left),
          all);
      }
    }
  }

  lemma StraightLeftInorder(f: Tree, x: TreeNode)
    requires f.Node? && f.left.Node?
    ensures Inorder(StraightLeft(f, x)) == Inorder(f)
  {
    var l := f.left;
    if l.right.Node? && l.right.node == x {
      var turn := Turn(LeftOf(Top, f.node, f.red, f.right), l.left, l.node, l.red, l.right.left, x, l.right.red,
        l.right.right);
      LeftTurnInorder(turn);
      assert f == Node(turn.LeftBefore(), f.node, f.red, f.right);
      assert StraightLeft(f, x) == Node(turn.LeftAfter(), f.node, f.red, f.right);
    }
  }

  lemma LiftedLeftInorder(f: Tree)
    requires f.Node? && f.left.Node?
    ensures Inorder(LiftedLeft(f)) == Inorder(f)
  {
    var turn := Turn(Top, f.right, f.node, true, f.left.right, f.left.node, false, f.left.left);
    RightTurnInorder(turn);
    assert Inorder(f) == Inorder(turn.RightBefore());
  }

  // ---- a black uncle on the left ----

  /** The red node under the right child of `f` has been brought to the right of it. */
  ghost function StraightRight(f: Tree, x: TreeNode): Tree
    requires f.Node? && f.right.Node?
  {
    var r := f.right;
    if r.left.Node? && r.left.node == x then
      f.(right := Node(r.left.left, x, r.left.red, Node(r.left.right, r.node, r.red, r.right)))
    else
      f
  }

  ghost function LiftedRight(f: Tree): Tree
    requires f.Node? && f.right.Node?
  {
    Node(Node(f.left, f.node, true, f.right.left), f.right.node, false, f.right.right)
  }

  method StraightenRight(root: TreeNode?, x: TreeNode, parent: TreeNode, g: TreeNode,
                        ghost p: Path, ghost f: Tree, ghost all: set<TreeNode>)
    returns (root': TreeNode?, x': TreeNode, parent': TreeNode?, g': TreeNode?)
    requires Holds(p, f, root) && Nodes(f) + PathNodes(p) <= all
    requires f.Node? && f.right.Node? && g == f.node && parent == f.right.node
    requires x == Root(f.right.right) || x == Root(f.right.left)
    modifies all`parent, all`right, all`left, all`red
    ensures Holds(p, StraightRight(f, x), root') && StraightRight(f, x).right.Node? && g' == g
    ensures parent' == StraightRight(f, x).right.node && x' == Root(StraightRight(f, x).right.right)
  {
    hide Holds, Nodes, PathNodes, Plug;
    root', x', parent', g' := root, x, parent, g;
    ghost var r := f.right;
    MoveInto(p, f, false, r, root);
    Surroundings(Into(p, f, false), r, root);
    if x == parent.left {
      x' := parent;
      ghost var turn := Turn(Into(p, f, false), r.right, r.node, r.red, r.left.right, x, r.left.red, r.left.left);
      root' := RotateRight(root, x', turn, all);
      MoveInto(p, f, false, turn.RightAfter(), root');
      Surroundings(Into(p, f, false), turn.RightAfter(), root');
      MoveInto(Into(p, f, false), turn.RightAfter(), false, turn.RightAfter().right, root');
      Surroundings(Into(Into(p, f, false), turn.RightAfter(), false), turn.RightAfter().right, root');
      parent' := x'.parent;
      g' := if parent' == null then null else parent'.parent;
    }
  }

  method LiftRight(root: TreeNode?, parent: TreeNode?, g: TreeNode?, ghost p: Path, ghost f: Tree,
                   ghost all: set<TreeNode>)
    returns (root': TreeNode?)
    requires Holds(p, f, root) && Nodes(f) + PathNodes(p) <= all
    requires f.Node? && f.right.Node? && g == f.node && parent == f.right.node
    modifies all`parent, all`right, all`left, all`red
    ensures Holds(p, LiftedRight(f), root')
  {
    hide Holds, PathNodes, Plug;
    root' := root;
    if parent != null {
      PaintChild(parent, false, false, p, f, root);
      if g != null {
        ghost var f' := f.(right := f.right.(red := false));
        SameNodes(f, f'.(red := true));
        Paint(g, true, p, f', root);
        Surroundings(p, f'.(red := true), root);
        root' := RotateLeft(root, g, Turn(p, f.left, f.node, true, f.right.left, f.right.node, false, f.right.right),
          all);
      }
    }
  }

  lemma StraightRightInorder(f: Tree, x: TreeNode)
    requires f.Node? && f.right.Node?
    ensures Inorder(StraightRight(f, x)) == Inorder(f)
  {
    var r := f.right;
    if r.left.Node? && r.left.node == x {
      var turn := Turn(RightOf(Top, f.left, f.node, f.red), r.right, r.node, r.red, r.left.right, x, r.left.red,
        r.left.left);
      RightTurnInorder(turn);
      assert f == Node(f.left, f.node, f.red, turn.RightBefore());
      assert StraightRight(f, x) == Node(f.left, f.node, f.red, turn.RightAfter());
    }
  }

  lemma LiftedRightInorder(f: Tree)
    requires f.Node? && f.right.Node?
    ensures Inorder(LiftedRight(f)) == Inorder(f)
  {
    var turn := Turn(Top, f.left, f.node, true, f.right.left, f.right.node, false, f.right.right);
    LeftTurnInorder(turn);
    assert Inorder(f) == Inorder(turn.LeftBefore());
  }

  // ---- what a step keeps ----

  ghost function Grandparent(p: Path, t: Tree): Tree
    requires !p.Top? && !p.up.Top?
  {
    Around(p.up, Around(p, t))
  }

  lemma LiftingLeftKeeps(p: Path, t: Tree, h: nat, x: TreeNode)
    requires TooRed(p, t, h) && HeadRed(p) && p.up.LeftOf? && !IsRed(Sibling(p.up))
    requires x == t.node && (p.LeftOf? ==> Root(p.right) != x)
    ensures var f := LiftedLeft(StraightLeft(Grandparent(p, t), x));
            TooRed(Into(p.up.up, f, true), f.left, h) && !HeadRed(Into(p.up.up, f, true)) &&
            Inorder(f) == Inorder(Grandparent(p, t))
  {
    RedParent(p, t, h);
    StraightLeftInorder(Grandparent(p, t), x);
    LiftedLeftInorder(StraightLeft(Grandparent(p, t), x));
    hide Inorder;
  }

  lemma LiftingRightKeeps(p: Path, t: Tree, h: nat, x: TreeNode)
    requires TooRed(p, t, h) && HeadRed(p) && p.up.RightOf? && !IsRed(Sibling(p.up))
    requires x == t.node && (p.RightOf? ==> Root(p.left) != x)
    ensures var f := LiftedRight(StraightRight(Grandparent(p, t), x));
            TooRed(Into(p.up.up, f, false), f.right, h) && !HeadRed(Into(p.up.up, f, false)) &&
            Inorder(f) == Inorder(Grandparent(p, t))
  {
    RedParent(p, t, h);
    StraightRightInorder(Grandparent(p, t), x);
    LiftedRightInorder(StraightRight(Grandparent(p, t), x));
    hide Inorder;
  }

  /** The grandparent as a place to work at. */
  lemma AtGrandparent(p: Path, t: Tree, h: nat, root: TreeNode?, x: TreeNode?, s: seq<TreeNode>, all: set<TreeNode>)
    requires Inserting(p, t, h, root, x, s, all) && HeadRed(p)
    ensures !p.up.Top?
    ensures var f := Grandparent(p, t);
            Holds(p.up.up, f, root) && Nodes(f) + PathNodes(p.up.up) <= all && Inorder(Plug(p.up.up, f)) == s
  {
    hide Holds, Inorder, RedBlack;
    RedParent(p, t, h);
    MoveUp(p, t, root);
    MoveUp(p.up, Around(p, t), root);
  }

  /** What the loop finds when it follows the pointers from `x`. */
  lemma Family(p: Path, t: Tree, h: nat, root: TreeNode?, x: TreeNode?, s: seq<TreeNode>, all: set<TreeNode>)
    requires Inserting(p, t, h, root, x, s, all)
    ensures x != null && x == Root(t) && x.parent == Head(p) && x in all
    ensures !p.Top? ==> p.node.red == p.red && p.node.parent == Head(p.up) && p.node in all && HoleHolds(p, x)
    ensures p.LeftOf? ==> Root(p.right) != x
    ensures p.RightOf? ==> Root(p.left) != x
    ensures HeadRed(p) ==>
      !p.up.Top? && p.up.node in all && (p.up.LeftOf? <==> p.up.node.left == p.node) &&
      Root(Sibling(p.up)) == (if p.up.LeftOf? then p.up.node.right else p.up.node.left) &&
      (Root(Sibling(p.up)) != null ==> Root(Sibling(p.up)).red == IsRed(Sibling(p.up)) && Root(Sibling(p.up)) in all)
  {
    hide Holds, Inorder, RedBlack;
    Surroundings(p, t, root);
    if HeadRed(p) {
      RedParent(p, t, h);
      MoveUp(p, t, root);
      Surroundings(p.up, Around(p, t), root);
      AtGrandparent(p, t, h, root, x, s, all);
      var g, left := Grandparent(p, t), p.up.RightOf?;
      MoveInto(p.up.up, g, left, Child(g, left), root);
      Surroundings(Into(p.up.up, g, left), Child(g, left), root);
    }
  }

  lemma Resume(p: Path, f: Tree, f': Tree, left: bool, h: nat, root: TreeNode?, s: seq<TreeNode>, all: set<TreeNode>)
    requires f'.Node? && Holds(p, f', root) && TooRed(Into(p, f', left), Child(f', left), h)
    requires Nodes(f) + PathNodes(p) <= all && Inorder(Plug(p, f)) == s && Inorder(f') == Inorder(f)
    ensures Inserting(Into(p, f', left), Child(f', left), h, root, Root(Child(f', left)), s, all)
  {
    hide Holds, RedBlack, Wants, Inorder, Nodes, PathNodes;
    SameNodes(f, f');
    SameOrder(p, f, f');
    MoveInto(p, f', left, Child(f', left), root);
  }

  // ---- one turn of the loop ----

  method RecolourStep(g: TreeNode, parent: TreeNode, uncle: TreeNode, ghost root: TreeNode?,
                      ghost p: Path, ghost t: Tree, ghost h: nat, ghost s: seq<TreeNode>, ghost all: set<TreeNode>)
    returns (ghost p': Path, ghost t': Tree)
    requires Inserting(p, t, h, root, Root(t), s, all) && HeadRed(p) && !p.up.Top? && IsRed(Sibling(p.up))
    requires g == p.up.node && parent == p.node && uncle == Root(Sibling(p.up))
    modifies all`red
    ensures Inserting(p', t', h + 1, root, g, s, all) && Measure(p') < Measure(p)
  {
    p', t' := p.up.up, Recoloured(Grandparent(p, t));
    assert Depth(p) == 1 + Depth(p.up);
    AtGrandparent(p, t, h, root, Root(t), s, all);
    RecolouringKeeps(p, t, h);
    MoveUp(p, t, root);
    MoveUp(p.up, Around(p, t), root);
    hide Holds, RedBlack, Wants, Inorder, RootIsFree;
    Recolour(g, parent, uncle, p.up.up, Grandparent(p, t), root);
  }

  method LiftLeftStep(root: TreeNode?, x: TreeNode, parent: TreeNode, g: TreeNode,
                      ghost p: Path, ghost t: Tree, ghost h: nat, ghost s: seq<TreeNode>, ghost all: set<TreeNode>)
    returns (root': TreeNode?, x': TreeNode, ghost p': Path, ghost t': Tree)
    requires Inserting(p, t, h, root, x, s, all) && HeadRed(p) && p.up.LeftOf? && !IsRed(Sibling(p.up))
    requires g == p.up.node && parent == p.node
    modifies all`parent, all`left, all`right, all`red
    ensures Inserting(p', t', h, root', x', s, all) && Measure(p') < Measure(p)
  {
    ghost var f := Grandparent(p, t);
    ghost var b := StraightLeft(f, x);
    Family(p, t, h, root, x, s, all);
    AtGrandparent(p, t, h, root, x, s, all);
    LiftingLeftKeeps(p, t, h, x);
    StraightLeftInorder(f, x);
    SameNodes(f, b);
    hide Holds, RedBlack, Wants, TooRed, Inorder, Nodes, PathNodes, Plug, StraightLeft;
    var parent', g';
    root', x', parent', g' := StraightenLeft(root, x, parent, g, p.up.up, f, all);
    root' := LiftLeft(root', parent', g', p.up.up, b, all);
    Resume(p.up.up, f, LiftedLeft(b), true, h, root', s, all);
    p', t' := Into(p.up.up, LiftedLeft(b), true), LiftedLeft(b).left;
  }

  method LiftRightStep(root: TreeNode?, x: TreeNode, parent: TreeNode, g: TreeNode,
                       ghost p: Path, ghost t: Tree, ghost h: nat, ghost s: seq<TreeNode>, ghost all: set<TreeNode>)
    returns (root': TreeNode?, x': TreeNode, ghost p': Path, ghost t': Tree)
    requires Inserting(p, t, h, root, x, s, all) && HeadRed(p) && p.up.RightOf? && !IsRed(Sibling(p.up))
    requires g == p.up.node && parent == p.node
    modifies all`parent, all`left, all`right, all`red
    ensures Inserting(p', t', h, root', x', s, all) && Measure(p') < Measure(p)
  {
    ghost var f := Grandparent(p, t);
    ghost var b := StraightRight(f, x);
    Family(p, t, h, root, x, s, all);
    AtGrandparent(p, t, h, root, x, s, all);
    LiftingRightKeeps(p, t, h, x);
    StraightRightInorder(f, x);
    SameNodes(f, b);
    hide Holds, RedBlack, Wants, TooRed, Inorder, Nodes, PathNodes, Plug, StraightRight;
    var parent', g';
    root', x', parent', g' := StraightenRight(root, x, parent, g, p.up.up, f, all);
    root' := LiftRight(root', parent', g', p.up.up, b, all);
    Resume(p.up.up, f, LiftedRight(b), false, h, root', s, all);
    p', t' := Into(p.up.up, LiftedRight(b), false), LiftedRight(b).right;
  }

  method UnderLeftParent(root: TreeNode?, x: TreeNode, parent: TreeNode, g: TreeNode,
                         ghost p: Path, ghost t: Tree, ghost h: nat, ghost s: seq<TreeNode>, ghost all: set<TreeNode>)
    returns (root': TreeNode?, x': TreeNode, ghost p': Path, ghost t': Tree, ghost h': nat)
    requires Inserting(p, t, h, root, x, s, all) && HeadRed(p) && p.up.LeftOf?
    requires g == p.up.node && parent == p.node
    modifies all`parent, all`left, all`right, all`red
    ensures Inserting(p', t', h', root', x', s, all) && Measure(p') < Measure(p)
  {
    Family(p, t, h, root, x, s, all);
    hide Inserting, Measure, Wants, RedBlack;
    var uncle := g.right;
    if uncle != null && uncle.red {
      p', t' := RecolourStep(g, parent, uncle, root, p, t, h, s, all);
      root', x', h' := root, g, h + 1;
    } else {
      root', x', p', t' := LiftLeftStep(root, x, parent, g, p, t, h, s, all);
      h' := h;
    }
  }

  method UnderRightParent(root: TreeNode?, x: TreeNode, parent: TreeNode, g: TreeNode,
                         ghost p: Path, ghost t: Tree, ghost h: nat, ghost s: seq<TreeNode>, ghost all: set<TreeNode>)
    returns (root': TreeNode?, x': TreeNode, ghost p': Path, ghost t': Tree, ghost h': nat)
    requires Inserting(p, t, h, root, x, s, all) && HeadRed(p) && p.up.RightOf?
    requires g == p.up.node && parent == p.node
    modifies all`parent, all`left, all`right, all`red
    ensures Inserting(p', t', h', root', x', s, all) && Measure(p') < Measure(p)
  {
    Family(p, t, h, root, x, s, all);
    hide Inserting, Measure, Wants, RedBlack;
    var uncle := g.left;
    if uncle != null && uncle.red {
      p', t' := RecolourStep(g, parent, uncle, root, p, t, h, s, all);
      root', x', h' := root, g, h + 1;
    } else {
      root', x', p', t' := LiftRightStep(root, x, parent, g, p, t, h, s, all);
      h' := h;
    }
  }

  // ---- the whole loop ----

  /** The heap holds a red-black tree that lists `s`. */
  ghost predicate Restored(t: Tree, root: TreeNode?, s: seq<TreeNode>)
    reads Nodes(t)
  {
    Holds(Top, t, root) && Balanced(t) && Inorder(t) == s
  }

  method Blacken(x: TreeNode, ghost root: TreeNode?, ghost p: Path, ghost t: Tree, ghost h: nat, ghost s: seq<TreeNode>,
                 ghost all: set<TreeNode>)
    requires Inserting(p, t, h, root, x, s, all) && p.Top?
    modifies x`red
    ensures Restored(t.(red := false), x, s)
  {
    assert RedBlack(t.(red := false), h + 1);
    SameOrder(p, t, t.(red := false));
    assert root == x;
    hide Holds, RedBlack, Wants, Inorder;
    Paint(x, false, p, t, root);
  }

  lemma BlackParent(p: Path, t: Tree, h: nat, root: TreeNode?, x: TreeNode?, s: seq<TreeNode>, all: set<TreeNode>)
    requires Inserting(p, t, h, root, x, s, all) && !HeadRed(p) && !p.Top?
    ensures Restored(Plug(p, t), root, s)
  {
    PlugBalanced(p, t, h);
    Whole(p, t, root);
    hide Holds, Inorder, RedBlack, Wants;
  }

  method PaintRed(x: TreeNode, root: TreeNode?, ghost p: Path, ghost t: Tree, ghost h: nat, ghost s: seq<TreeNode>,
                  ghost all: set<TreeNode>)
    requires Nodes(t) + PathNodes(p) <= all && t.Node? && x == t.node && Holds(p, t, root)
    requires TooRed(p, t.(red := true), h) && s == Inorder(Plug(p, t))
    modifies all`parent, all`left, all`right, all`red
    ensures Inserting(p, t.(red := true), h, root, x, s, all)
  {
    SameOrder(p, t, t.(red := true));
    SameNodes(t, t.(red := true));
    hide Holds, RedBlack, Wants, TooRed, Inorder, Nodes, PathNodes, Plug;
    Paint(x, true, p, t, root);
  }

  /** Paints the new node `x` red and makes a red-black tree of the whole again. */
  method BalanceInsertion(root: TreeNode?, x: TreeNode, ghost p: Path, ghost t: Tree, ghost h: nat,
                          ghost all: set<TreeNode>)
    returns (root': TreeNode?, ghost t': Tree)
    requires Nodes(t) + PathNodes(p) <= all && t.Node? && x == t.node && Holds(p, t, root)
    requires TooRed(p, t.(red := true), h)
    modifies all`parent, all`left, all`right, all`red
    ensures Restored(t', root', Inorder(Plug(p, t)))
  {
    hide Holds, RedBlack, Wants, TooRed, Inorder, Nodes, PathNodes, Plug, Inserting, Restored, Grandparent, Recoloured,
         Measure;
    ghost var s := Inorder(Plug(p, t));
    PaintRed(x, root, p, t, h, s, all);
    root' := root;
    var x' := x;
    ghost var p', tx, h' := p, t.(red := true), h;
    while true
      invariant Inserting(p', tx, h', root', x', s, all)
      decreases Measure(p')
    {
      Family(p', tx, h', root', x', s, all);
      var parent := x'.parent;
      if parent == null {
        Blacken(x', root', p', tx, h', s, all);
        return x', tx.(red := false);
      }
      var g := parent.parent;
      if !parent.red || g == null {
        BlackParent(p', tx, h', root', x', s, all);
        return root', Plug(p', tx);
      }
      if parent == g.left {
        root', x', p', tx, h' := UnderLeftParent(root', x', parent, g, p', tx, h', s, all);
      } else {
        root', x', p', tx, h' := UnderRightParent(root', x', parent, g, p', tx, h', s, all);
      }
    }
  }
}
