/** Restoring the balance of a tree bin after a removal (src/chashmap/node.rs).

    A removed node that has no child stays in the tree while the balance is restored, and counts
    for nothing there. */
module TreeDeletion {
  import opened TreeMoves
  import opened TreeNodes
  import opened TreeRotation

  /** `t` with the nodes of `gone`, and all under them, cut off. */
  ghost function Erase(t: Tree, gone: set<TreeNode>): Tree {
    match t
    case Leaf => Leaf
    case Node(l, n, red, r) => if n in gone then Leaf else Node(Erase(l, gone), n, red, Erase(r, gone))
  }

  /** The nodes of `gone` have no children. */
  ghost predicate Ends(t: Tree, gone: set<TreeNode>) {
    match t
    case Leaf => true
    case Node(l, n, _, r) => if n in gone then l.Leaf? && r.Leaf? else Ends(l, gone) && Ends(r, gone)
  }

  lemma {:induction false} EraseAbsent(t: Tree, gone: set<TreeNode>)
    requires gone !! Nodes(t)
    ensures Erase(t, gone) == t && Ends(t, gone)
  {
    if t.Node? {
      EraseAbsent(t.left, gone);
      EraseAbsent(t.right, gone);
    }
  }

  lemma {:induction false} ErasePlug(p: Path, t: Tree, gone: set<TreeNode>)
    requires gone !! PathNodes(p)
    ensures Erase(Plug(p, t), gone) == Plug(p, Erase(t, gone))
    ensures Ends(t, gone) ==> Ends(Plug(p, t), gone)
  {
    if !p.Top? {
      ErasePlug(p.up, Around(p, t), gone);
      EraseAbsent(Sibling(p), gone);
    }
  }

  // ---- where the loop stands ----

  /** `t` has one black node less on every path than is wanted where it hangs, but for a red root. */
  ghost predicate Lacking(p: Path, t: Tree, h: nat, gone: set<TreeNode>) {
    t.Node? && gone !! PathNodes(p) && (t.node in gone ==> !t.red) && (p.Top? ==> !t.red) && Wants(p, h + 1) &&
      Ends(t, gone) &&
    RedBlack(Erase(t.(red := false), gone), if t.red then h + 1 else h)
  }

  /** The heap holds a tree that lists `s` and lacks one black node at `x`. */
  ghost predicate Deleting(p: Path, t: Tree, h: nat, gone: set<TreeNode>, root: TreeNode?, x: TreeNode?,
                           s: seq<TreeNode>, all: set<TreeNode>)
    reads all
  {
    Nodes(t) + PathNodes(p) <= all && Holds(p, t, root) && x == Root(t) && Lacking(p, t, h, gone) &&
      Inorder(Plug(p, t)) == s
  }

  ghost function Measure(p: Path, t: Tree): nat {
    if p.Top? || IsRed(t) then 0 else 1 + Depth(p)
  }

  /** The heap holds a tree that lists `s`, and is a red-black tree without the nodes of `gone`. */
  ghost predicate Restored(t: Tree, gone: set<TreeNode>, root: TreeNode?, s: seq<TreeNode>)
    reads Nodes(t)
  {
    Holds(Top, t, root) && Balanced(Erase(t, gone)) && Ends(t, gone) && Inorder(t) == s
  }

  // ---- the ways out ----

  lemma {:induction false} RootOfWhole(p: Path, t: Tree)
    requires !p.Top?
    ensures Root(Plug(p, t)) != null && Root(Plug(p, t)) in PathNodes(p)
  {
    if !p.up.Top? {
      RootOfWhole(p.up, Around(p, t));
    }
  }

  lemma AtRoot(p: Path, t: Tree, h: nat, gone: set<TreeNode>, root: TreeNode?, x: TreeNode?, s: seq<TreeNode>,
               all: set<TreeNode>)
    requires Deleting(p, t, h, gone, root, x, s, all)
    ensures x == root <==> p.Top?
    ensures x == root ==> Restored(t, gone, root, s)
  {
    if !p.Top? {
      RootOfWhole(p, t);
    }
    hide Plug, Wants, Linked, LinkedPath;
  }

  lemma FilledIsBalanced(p: Path, t: Tree, h: nat, gone: set<TreeNode>)
    requires t.Node? && gone !! PathNodes(p) && Wants(p, h) && Ends(t, gone) && RedBlack(Erase(t, gone), h)
    requires IsRed(Erase(t, gone)) ==> !HeadRed(p) && !p.Top?
    ensures Balanced(Erase(Plug(p, t), gone)) && Ends(Plug(p, t), gone)
  {
    PlugBalanced(p, Erase(t, gone), h);
    ErasePlug(p, t, gone);
  }

  method BlackenRed(x: TreeNode, ghost p: Path, ghost t: Tree, ghost h: nat, ghost gone: set<TreeNode>,
                    ghost root: TreeNode?, ghost s: seq<TreeNode>, ghost all: set<TreeNode>)
    returns (ghost t': Tree)
    requires Deleting(p, t, h, gone, root, x, s, all) && t.red
    modifies x`red
    ensures Restored(t', gone, root, s)
  {
    t' := Plug(p, t.(red := false));
    FilledIsBalanced(p, t.(red := false), h + 1, gone);
    SameOrder(p, t, t.(red := false));
    hide Holds, Erase, RedBlack, Wants, Inorder, Plug;
    Paint(x, false, p, t, root);
    Whole(p, t.(red := false), root);
  }

  // ---- reading around the node that lacks ----

  /** What the loop finds next to a black `x` that is not the root. */
  lemma Neighbours(p: Path, t: Tree, h: nat, gone: set<TreeNode>, root: TreeNode?, x: TreeNode?, s: seq<TreeNode>,
                   all: set<TreeNode>)
    requires Deleting(p, t, h, gone, root, x, s, all)
    ensures x != null && x == t.node && x.red == t.red && x in all && x.parent == Head(p)
    ensures !p.Top? ==>
      p.node in all && p.node.red == p.red && (p.LeftOf? <==> p.node.left == x) &&
      Root(Sibling(p)) == (if p.LeftOf? then p.node.right else p.node.left) &&
      Holds(p.up, Around(p, t), root) && Nodes(Around(p, t)) + PathNodes(p.up) <= all &&
        Inorder(Plug(p.up, Around(p, t))) == s
  {
    hide Inorder, RedBlack, Wants;
    hide Holds;
    Surroundings(p, t, root);
    if !p.Top? {
      MoveUp(p, t, root);
    }
  }

  /** The sibling of a black node that lacks is there, and has two children if it is red. */
  lemma SiblingIsThere(p: Path, t: Tree, h: nat, gone: set<TreeNode>)
    requires Lacking(p, t, h, gone) && !p.Top? && !t.red
    ensures var b := Sibling(p);
            b.Node? && RedBlack(b, h + 1) && gone !! Nodes(b) &&
              (b.red ==> !p.red && b.left.Node? && b.right.Node? && !IsRed(b.left) && !IsRed(b.right))
  {
    var b := Sibling(p);
    assert RedBlack(b, h + 1);
    if b.red {
      assert RedBlack(b.left, h + 1) && RedBlack(b.right, h + 1);
    }
  }

  /** The colours the loop reads below the sibling. */
  lemma Nephews(p: Path, t: Tree, h: nat, gone: set<TreeNode>, root: TreeNode?, x: TreeNode?, s: seq<TreeNode>,
                all: set<TreeNode>)
    requires Deleting(p, t, h, gone, root, x, s, all) && !p.Top? && !t.red
    ensures var b := Sibling(p);
            b.Node? && b.node in all && b.node.red == b.red && b.node.left == Root(b.left) &&
              b.node.right == Root(b.right) &&
            (b.left.Node? ==> b.left.node in all && b.left.node.red == b.left.red) &&
            (b.right.Node? ==> b.right.node in all && b.right.node.red == b.right.red)
  {
    hide Inorder, RedBlack;
    SiblingIsThere(p, t, h, gone);
    Neighbours(p, t, h, gone, root, x, s, all);
    var f, left, b := Around(p, t), p.RightOf?, Sibling(p);
    MoveInto(p.up, f, left, b, root);
    hide Holds;
    Surroundings(Into(p.up, f, left), b, root);
    MoveInto(Into(p.up, f, left), b, true, b.left, root);
    Surroundings(Into(Into(p.up, f, left), b, true), b.left, root);
    MoveInto(Into(p.up, f, left), b, false, b.right, root);
    Surroundings(Into(Into(p.up, f, left), b, false), b.right, root);
  }

  // ---- a black sibling without red children ----

  ghost function Paler(p: Path, t: Tree): Tree
    requires !p.Top? && Sibling(p).Node?
  {
    WithChild(Around(p, t), p.RightOf?, Sibling(p).(red := true))
  }

  lemma ClimbingLacks(p: Path, t: Tree, h: nat, gone: set<TreeNode>)
    requires Lacking(p, t, h, gone) && !p.Top? && !t.red
    requires var b := Sibling(p); b.Node? && !b.red && !IsRed(b.left) && !IsRed(b.right)
    ensures Lacking(p.up, Paler(p, t), if p.red then h else h + 1, gone)
    ensures Inorder(Paler(p, t)) == Inorder(Around(p, t))
  {
    SiblingIsThere(p, t, h, gone);
    EraseAbsent(Sibling(p).(red := true), gone);
  }

  method Climb(parent: TreeNode, sibling: TreeNode, ghost p: Path, ghost t: Tree, ghost h: nat,
               ghost gone: set<TreeNode>,
               ghost root: TreeNode?, ghost x: TreeNode?, ghost s: seq<TreeNode>, ghost all: set<TreeNode>)
    returns (ghost p': Path, ghost t': Tree, ghost h': nat)
    requires Deleting(p, t, h, gone, root, x, s, all) && !p.Top? && !t.red
    requires var b := Sibling(p); b.Node? && !b.red && !IsRed(b.left) && !IsRed(b.right)
    requires parent == p.node && sibling == Sibling(p).node
    modifies all`red
    ensures Deleting(p', t', h', gone, root, parent, s, all) && Measure(p', t') <= if p.red then 0 else Depth(p)
  {
    p', t', h' := p.up, Paler(p, t), if p.red then h else h + 1;
    Nephews(p, t, h, gone, root, x, s, all);
    Neighbours(p, t, h, gone, root, x, s, all);
    ClimbingLacks(p, t, h, gone);
    SameNodes(Around(p, t), t');
    SameOrder(p.up, Around(p, t), t');
    hide Holds, Lacking, RedBlack, Wants, Inorder, Nodes, PathNodes, Plug;
    PaintChild(sibling, true, p.RightOf?, p.up, Around(p, t), root);
  }

  // ---- on the left of a red sibling ----

  ghost function TurnedLeft(p: Path): Path
    requires p.LeftOf? && p.right.Node?
  {
    LeftOf(LeftOf(p.up, p.right.node, false, p.right.right), p.node, true, p.right.left)
  }

  lemma TurnedLeftLacks(p: Path, t: Tree, h: nat, gone: set<TreeNode>)
    requires Lacking(p, t, h, gone) && p.LeftOf? && !t.red && IsRed(p.right)
    ensures Lacking(TurnedLeft(p), t, h, gone) && !p.red && !IsRed(p.right.left)
    ensures Inorder(Around(TurnedLeft(p).up, Around(TurnedLeft(p), t))) == Inorder(Around(p, t))
  {
    SiblingIsThere(p, t, h, gone);
    var turn := Turn(Top, t, p.node, true, p.right.left, p.right.node, false, p.right.right);
    LeftTurnInorder(turn);
    assert Inorder(turn.LeftBefore()) == Inorder(Around(p, t));
    assert gone !! Nodes(p.right) && gone !! PathNodes(TurnedLeft(p).up);
    assert Wants(TurnedLeft(p).up, h + 1);
    hide Inorder;
  }

  method TurnSiblingLeft(root: TreeNode?, x: TreeNode, parent: TreeNode, sibling: TreeNode,
                         ghost p: Path, ghost t: Tree, ghost h: nat, ghost gone: set<TreeNode>, ghost s: seq<TreeNode>,
                           ghost all: set<TreeNode>)
    returns (root': TreeNode?)
    requires Deleting(p, t, h, gone, root, x, s, all) && p.LeftOf? && !t.red && IsRed(p.right)
    requires parent == p.node && sibling == p.right.node
    modifies all`parent, all`left, all`right, all`red
    ensures Deleting(TurnedLeft(p), t, h, gone, root', x, s, all)
  {
    Nephews(p, t, h, gone, root, x, s, all);
    Neighbours(p, t, h, gone, root, x, s, all);
    TurnedLeftLacks(p, t, h, gone);
    ghost var f, b := Around(p, t), p.right.(red := false);
    ghost var turn := Turn(p.up, t, p.node, true, b.left, b.node, false, b.right);
    LeftTurnInorder(turn);
    SameNodes(f, turn.LeftBefore());
    SameNodes(f, turn.LeftAfter());
    SameOrder(p.up, f, turn.LeftAfter());
    hide Holds, Lacking, RedBlack, Wants, Inorder, Nodes, PathNodes, Plug;
    PaintChild(sibling, false, false, p.up, f, root);
    Paint(parent, true, p.up, f.(right := b), root);
    Surroundings(p.up, turn.LeftBefore(), root);
    root' := RotateLeft(root, parent, turn, all);
    MoveUp(TurnedLeft(p), t, root');
    MoveUp(TurnedLeft(p).up, Around(TurnedLeft(p), t), root');
  }

  /** The red child of a black sibling has been brought to its far side. */
  ghost function StraightLeft(b: Tree): Tree
    requires b.Node? && b.left.Node?
  {
    Node(b.left.left, b.left.node, false, Node(b.left.right, b.node, true, b.right))
  }

  lemma StraightLeftLacks(p: Path, t: Tree, h: nat, gone: set<TreeNode>)
    requires Lacking(p, t, h, gone) && p.LeftOf? && !t.red && p.right.Node? && !p.right.red
    requires IsRed(p.right.left) && !IsRed(p.right.right)
    ensures Lacking(p.(right := StraightLeft(p.right)), t, h, gone)
    ensures Inorder(StraightLeft(p.right)) == Inorder(p.right)
  {
    SiblingIsThere(p, t, h, gone);
    var b := p.right;
    var turn := Turn(Top, b.right, b.node, true, b.left.right, b.left.node, false, b.left.left);
    RightTurnInorder(turn);
    assert Inorder(turn.RightBefore()) == Inorder(b);
    SameNodes(b, StraightLeft(b));
    assert RedBlack(b.left, h) && RedBlack(b.right, h);
    assert RedBlack(StraightLeft(b), h + 1);
    hide Inorder;
  }

  method StraightenLeft(root: TreeNode?, x: TreeNode, sibling: TreeNode, near: TreeNode?,
                        ghost p: Path, ghost t: Tree, ghost h: nat, ghost gone: set<TreeNode>, ghost s: seq<TreeNode>,
                          ghost all: set<TreeNode>)
    returns (root': TreeNode?)
    requires Deleting(p, t, h, gone, root, x, s, all) && p.LeftOf? && !t.red && p.right.Node? && !p.right.red
    requires IsRed(p.right.left) && !IsRed(p.right.right)
    requires sibling == p.right.node && near == Root(p.right.left)
    modifies all`parent, all`left, all`right, all`red
    ensures Deleting(p.(right := StraightLeft(p.right)), t, h, gone, root', x, s, all)
  {
    Nephews(p, t, h, gone, root, x, s, all);
    Neighbours(p, t, h, gone, root, x, s, all);
    StraightLeftLacks(p, t, h, gone);
    ghost var f, b := Around(p, t), p.right;
    ghost var q, b' := Into(p.up, f, false), b.(left := b.left.(red := false));
    ghost var turn := Turn(q, b.right, b.node, true, b.left.right, b.left.node, false, b.left.left);
    SameNodes(b, turn.RightBefore());
    assert Inorder(f.(right := StraightLeft(b))) == Inorder(f);
    SameNodes(f, f.(right := StraightLeft(b)));
    SameOrder(p.up, f, f.(right := StraightLeft(b)));
    MoveInto(p.up, f, false, b, root);
    hide Holds, Lacking, RedBlack, Wants, Inorder, Nodes, PathNodes, Plug;
    root' := root;
    if near != null {
      PaintChild(near, false, true, q, b, root);
    }
    Paint(sibling, true, q, b', root);
    Surroundings(q, turn.RightBefore(), root);
    root' := RotateRight(root, sibling, turn, all);
    MoveInto(p.up, f, false, StraightLeft(b), root');
    MoveUp(p.(right := StraightLeft(b)), t, root');
  }

  // ---- filling the gap ----

  ghost function FilledLeft(p: Path, t: Tree): Tree
    requires p.LeftOf? && p.right.Node? && p.right.right.Node?
  {
    Node(Node(t, p.node, false, p.right.left), p.right.node, p.red, p.right.right.(red := false))
  }

  lemma FilledLeftIsBalanced(p: Path, t: Tree, h: nat, gone: set<TreeNode>)
    requires Lacking(p, t, h, gone) && p.LeftOf? && !t.red && p.right.Node? && !p.right.red && IsRed(p.right.right)
    ensures Balanced(Erase(Plug(p.up, FilledLeft(p, t)), gone)) && Ends(Plug(p.up, FilledLeft(p, t)), gone)
    ensures Inorder(FilledLeft(p, t)) == Inorder(Around(p, t))
  {
    SiblingIsThere(p, t, h, gone);
    var b := p.right;
    EraseAbsent(b.left, gone);
    EraseAbsent(b.right.(red := false), gone);
    FilledIsBalanced(p.up, FilledLeft(p, t), if p.red then h + 1 else h + 2, gone);
    var turn := Turn(LeftOf(Top, p.node, false, Leaf), t, p.node, false, b.left, b.node, p.red, b.right.(red := false));
    LeftTurnInorder(turn);
    assert Inorder(turn.c) == Inorder(b.right);
    assert Inorder(turn.LeftBefore()) == Inorder(Around(p, t));
    hide Inorder;
  }

  /** The whole lacks nothing any more. */
  lemma WholeAgain(p: Path, f: Tree, gone: set<TreeNode>, root: TreeNode?, s: seq<TreeNode>, all: set<TreeNode>)
    requires Holds(p, f, root) && Nodes(f) + PathNodes(p) <= all && Inorder(Plug(p, f)) == s
    requires f.Node? && f.node !in gone && gone !! PathNodes(p) && Balanced(Erase(Plug(p, f), gone)) &&
             Ends(Plug(p, f), gone)
    ensures exists h: nat :: Deleting(Top, Plug(p, f), h, gone, root, root, s, all)
  {
    Whole(p, f, root);
    var t := Plug(p, f);
    assert root == Root(t);
    if !p.Top? {
      RootOfWhole(p, f);
    }
    assert t.Node? && t.node !in gone;
    hide Holds, Inorder, Wants;
    var h: nat :| RedBlack(Erase(t, gone), h);
    assert t.(red := false) == t;
    assert Lacking(Top, t, h, gone);
    assert Deleting(Top, t, h, gone, root, root, s, all);
  }

  method FillLeft(root: TreeNode?, parent: TreeNode, sibling: TreeNode, ghost x: TreeNode,
                  ghost p: Path, ghost t: Tree, ghost h: nat, ghost gone: set<TreeNode>, ghost s: seq<TreeNode>,
                    ghost all: set<TreeNode>)
    returns (root': TreeNode?)
    requires Deleting(p, t, h, gone, root, x, s, all) && p.LeftOf? && !t.red && p.right.Node? && !p.right.red &&
             IsRed(p.right.right)
    requires parent == p.node && sibling == p.right.node
    modifies all`parent, all`left, all`right, all`red
    ensures exists h': nat :: Deleting(Top, Plug(p.up, FilledLeft(p, t)), h', gone, root', root', s, all)
  {
    Nephews(p, t, h, gone, root, x, s, all);
    Neighbours(p, t, h, gone, root, x, s, all);
    FilledLeftIsBalanced(p, t, h, gone);
    ghost var f, b := Around(p, t), p.right.(red := p.red);
    ghost var q, b' := Into(p.up, f, false), b.(right := b.right.(red := false));
    ghost var turn := Turn(p.up, t, p.node, false, b'.left, b'.node, p.red, b'.right);
    SameNodes(f, turn.LeftBefore());
    SameNodes(f, FilledLeft(p, t));
    SameOrder(p.up, f, FilledLeft(p, t));
    assert FilledLeft(p, t) == turn.LeftAfter();
    assert p.right.node !in gone && gone !! PathNodes(p.up);
    hide Holds, Lacking, RedBlack, Wants, Inorder, Nodes, PathNodes, Plug, FilledLeft;
    PaintChild(sibling, parent.red, false, p.up, f, root);
    MoveInto(p.up, f, false, b, root);
    Surroundings(q, b, root);
    var far := sibling.right;
    if far != null {
      PaintChild(far, false, false, q, b, root);
    }
    MoveInto(p.up, f, false, b', root);
    Paint(parent, false, p.up, f.(right := b'), root);
    Surroundings(p.up, turn.LeftBefore(), root);
    root' := RotateLeft(root, parent, turn, all);
    WholeAgain(p.up, FilledLeft(p, t), gone, root', s, all);
  }

  // ---- one turn of the loop ----

  method BesideBlackLeft(root: TreeNode?, x: TreeNode, parent: TreeNode?, sibling: TreeNode?,
                         ghost p: Path, ghost t: Tree, ghost h: nat, ghost gone: set<TreeNode>, ghost s: seq<TreeNode>,
                           ghost all: set<TreeNode>)
    returns (root': TreeNode?, x': TreeNode?, ghost p': Path, ghost t': Tree, ghost h': nat)
    requires Deleting(p, t, h, gone, root, x, s, all) && p.LeftOf? && !t.red && !IsRed(p.right)
    requires parent == p.node && sibling == Root(p.right)
    modifies all`parent, all`left, all`right, all`red
    ensures Deleting(p', t', h', gone, root', x', s, all) && Measure(p', t') <= if p.red then 0 else Depth(p)
  {
    Nephews(p, t, h, gone, root, x, s, all);
    hide Deleting, Depth, StraightLeft, Plug, FilledLeft;
    if sibling == null {
      assert false;
    }
    var near, far := sibling.left, sibling.right;
    if (far == null || !far.red) && (near == null || !near.red) {
      p', t', h' := Climb(parent, sibling, p, t, h, gone, root, x, s, all);
      return root, parent, p', t', h';
    }
    root' := root;
    var parent', sibling' := parent, sibling;
    ghost var q := p;
    if far == null || !far.red {
      root' := StraightenLeft(root, x, sibling, near, p, t, h, gone, s, all);
      q := p.(right := StraightLeft(p.right));
      Neighbours(q, t, h, gone, root', x, s, all);
      parent' := x.parent;
      sibling' := if parent' == null then null else parent'.right;
      assert IsRed(q.right.right) && !q.right.red by { StraightLeftIsRed(p.right); }
    }
    if parent' == null || sibling' == null {
      assert false;
    }
    root' := FillLeft(root', parent', sibling', x, q, t, h, gone, s, all);
    p', t' := Top, Plug(q.up, FilledLeft(q, t));
    h' :| Deleting(Top, t', h', gone, root', root', s, all);
    x' := root';
  }

  lemma StraightLeftIsRed(b: Tree)
    requires b.Node? && b.left.Node?
    ensures var b' := StraightLeft(b); b'.Node? && !b'.red && IsRed(b'.right)
  {
  }

  method UnderLeft(root: TreeNode?, x: TreeNode, parent: TreeNode,
                   ghost p: Path, ghost t: Tree, ghost h: nat, ghost gone: set<TreeNode>, ghost s: seq<TreeNode>,
                     ghost all: set<TreeNode>)
    returns (root': TreeNode?, x': TreeNode?, ghost p': Path, ghost t': Tree, ghost h': nat)
    requires Deleting(p, t, h, gone, root, x, s, all) && p.LeftOf? && !t.red && parent == p.node
    modifies all`parent, all`left, all`right, all`red
    ensures Deleting(p', t', h', gone, root', x', s, all) && Measure(p', t') < Measure(p, t)
  {
    Nephews(p, t, h, gone, root, x, s, all);
    Neighbours(p, t, h, gone, root, x, s, all);
    root' := root;
    var parent', sibling := parent, parent.right;
    ghost var q := p;
    if sibling != null && sibling.red {
      TurnedLeftLacks(p, t, h, gone);
      root' := TurnSiblingLeft(root, x, parent, sibling, p, t, h, gone, s, all);
      q := TurnedLeft(p);
      Neighbours(q, t, h, gone, root', x, s, all);
      parent' := x.parent;
      sibling := if parent' == null then null else parent'.right;
    }
    root', x', p', t', h' := BesideBlackLeft(root', x, parent', sibling, q, t, h, gone, s, all);
  }

  // ---- on the right of a red sibling ----

  ghost function TurnedRight(p: Path): Path
    requires p.RightOf? && p.left.Node?
  {
    RightOf(RightOf(p.up, p.left.left, p.left.node, false), p.left.right, p.node, true)
  }

  lemma TurnedRightLacks(p: Path, t: Tree, h: nat, gone: set<TreeNode>)
    requires Lacking(p, t, h, gone) && p.RightOf? && !t.red && IsRed(p.left)
    ensures Lacking(TurnedRight(p), t, h, gone) && !p.red && !IsRed(p.left.right)
    ensures Inorder(Around(TurnedRight(p).up, Around(TurnedRight(p), t))) == Inorder(Around(p, t))
  {
    SiblingIsThere(p, t, h, gone);
    var turn := Turn(Top, t, p.node, true, p.left.right, p.left.node, false, p.left.left);
    RightTurnInorder(turn);
    assert Inorder(turn.RightBefore()) == Inorder(Around(p, t));
    assert gone !! Nodes(p.left) && gone !! PathNodes(TurnedRight(p).up);
    assert Wants(TurnedRight(p).up, h + 1);
    hide Inorder;
  }

  method TurnSiblingRight(root: TreeNode?, x: TreeNode, parent: TreeNode, sibling: TreeNode,
                         ghost p: Path, ghost t: Tree, ghost h: nat, ghost gone: set<TreeNode>, ghost s: seq<TreeNode>,
                           ghost all: set<TreeNode>)
    returns (root': TreeNode?)
    requires Deleting(p, t, h, gone, root, x, s, all) && p.RightOf? && !t.red && IsRed(p.left)
    requires parent == p.node && sibling == p.left.node
    modifies all`parent, all`right, all`left, all`red
    ensures Deleting(TurnedRight(p), t, h, gone, root', x, s, all)
  {
    Nephews(p, t, h, gone, root, x, s, all);
    Neighbours(p, t, h, gone, root, x, s, all);
    TurnedRightLacks(p, t, h, gone);
    ghost var f, b := Around(p, t), p.left.(red := false);
    ghost var turn := Turn(p.up, t, p.node, true, b.right, b.node, false, b.left);
    RightTurnInorder(turn);
    SameNodes(f, turn.RightBefore());
    SameNodes(f, turn.RightAfter());
    SameOrder(p.up, f, turn.RightAfter());
    hide Holds, Lacking, RedBlack, Wants, Inorder, Nodes, PathNodes, Plug;
    PaintChild(sibling, false, true, p.up, f, root);
    Paint(parent, true, p.up, f.(left := b), root);
    Surroundings(p.up, turn.RightBefore(), root);
    root' := RotateRight(root, parent, turn, all);
    MoveUp(TurnedRight(p), t, root');
    MoveUp(TurnedRight(p).up, Around(TurnedRight(p), t), root');
  }

  ghost function StraightRight(b: Tree): Tree
    requires b.Node? && b.right.Node?
  {
    Node(Node(b.left, b.node, true, b.right.left), b.right.node, false, b.right.right)
  }

  lemma StraightRightLacks(p: Path, t: Tree, h: nat, gone: set<TreeNode>)
    requires Lacking(p, t, h, gone) && p.RightOf? && !t.red && p.left.Node? && !p.left.red
    requires IsRed(p.left.right) && !IsRed(p.left.left)
    ensures Lacking(p.(left := StraightRight(p.left)), t, h, gone)
    ensures Inorder(StraightRight(p.left)) == Inorder(p.left)
  {
    SiblingIsThere(p, t, h, gone);
    var b := p.left;
    var turn := Turn(Top, b.left, b.node, true, b.right.left, b.right.node, false, b.right.right);
    LeftTurnInorder(turn);
    assert Inorder(turn.LeftBefore()) == Inorder(b);
    SameNodes(b, StraightRight(b));
    assert RedBlack(b.right, h) && RedBlack(b.left, h);
    assert RedBlack(StraightRight(b), h + 1);
    hide Inorder;
  }

  method StraightenRight(root: TreeNode?, x: TreeNode, sibling: TreeNode, near: TreeNode?,
                        ghost p: Path, ghost t: Tree, ghost h: nat, ghost gone: set<TreeNode>, ghost s: seq<TreeNode>,
                          ghost all: set<TreeNode>)
    returns (root': TreeNode?)
    requires Deleting(p, t, h, gone, root, x, s, all) && p.RightOf? && !t.red && p.left.Node? && !p.left.red
    requires IsRed(p.left.right) && !IsRed(p.left.left)
    requires sibling == p.left.node && near == Root(p.left.right)
    modifies all`parent, all`right, all`left, all`red
    ensures Deleting(p.(left := StraightRight(p.left)), t, h, gone, root', x, s, all)
  {
    Nephews(p, t, h, gone, root, x, s, all);
    Neighbours(p, t, h, gone, root, x, s, all);
    StraightRightLacks(p, t, h, gone);
    ghost var f, b := Around(p, t), p.left;
    ghost var q, b' := Into(p.up, f, true), b.(right := b.right.(red := false));
    ghost var turn := Turn(q, b.left, b.node, true, b.right.left, b.right.node, false, b.right.right);
    SameNodes(b, turn.LeftBefore());
    assert Inorder(f.(left := StraightRight(b))) == Inorder(f);
    SameNodes(f, f.(left := StraightRight(b)));
    SameOrder(p.up, f, f.(left := StraightRight(b)));
    MoveInto(p.up, f, true, b, root);
    hide Holds, Lacking, RedBlack, Wants, Inorder, Nodes, PathNodes, Plug;
    root' := root;
    if near != null {
      PaintChild(near, false, false, q, b, root);
    }
    Paint(sibling, true, q, b', root);
    Surroundings(q, turn.LeftBefore(), root);
    root' := RotateLeft(root, sibling, turn, all);
    MoveInto(p.up, f, true, StraightRight(b), root');
    MoveUp(p.(left := StraightRight(b)), t, root');
  }

  ghost function FilledRight(p: Path, t: Tree): Tree
    requires p.RightOf? && p.left.Node? && p.left.left.Node?
  {
    Node(p.left.left.(red := false), p.left.node, p.red, Node(p.left.right, p.node, false, t))
  }

  lemma FilledRightIsBalanced(p: Path, t: Tree, h: nat, gone: set<TreeNode>)
    requires Lacking(p, t, h, gone) && p.RightOf? && !t.red && p.left.Node? && !p.left.red && IsRed(p.left.left)
    ensures Balanced(Erase(Plug(p.up, FilledRight(p, t)), gone)) && Ends(Plug(p.up, FilledRight(p, t)), gone)
    ensures Inorder(FilledRight(p, t)) == Inorder(Around(p, t))
  {
    SiblingIsThere(p, t, h, gone);
    var b := p.left;
    EraseAbsent(b.right, gone);
    EraseAbsent(b.left.(red := false), gone);
    FilledIsBalanced(p.up, FilledRight(p, t), if p.red then h + 1 else h + 2, gone);
    var turn := Turn(RightOf(Top, Leaf, p.node, false), t, p.node, false, b.right, b.node, p.red,
      b.left.(red := false));
    RightTurnInorder(turn);
    assert Inorder(turn.c) == Inorder(b.left);
    assert Inorder(turn.RightBefore()) == Inorder(Around(p, t));
    hide Inorder;
  }

  method FillRight(root: TreeNode?, parent: TreeNode, sibling: TreeNode, ghost x: TreeNode,
                  ghost p: Path, ghost t: Tree, ghost h: nat, ghost gone: set<TreeNode>, ghost s: seq<TreeNode>,
                    ghost all: set<TreeNode>)
    returns (root': TreeNode?)
    requires Deleting(p, t, h, gone, root, x, s, all) && p.RightOf? && !t.red && p.left.Node? && !p.left.red &&
             IsRed(p.left.left)
    requires parent == p.node && sibling == p.left.node
    modifies all`parent, all`right, all`left, all`red
    ensures exists h': nat :: Deleting(Top, Plug(p.up, FilledRight(p, t)), h', gone, root', root', s, all)
  {
    Nephews(p, t, h, gone, root, x, s, all);
    Neighbours(p, t, h, gone, root, x, s, all);
    FilledRightIsBalanced(p, t, h, gone);
    ghost var f, b := Around(p, t), p.left.(red := p.red);
    ghost var q, b' := Into(p.up, f, true), b.(left := b.left.(red := false));
    ghost var turn := Turn(p.up, t, p.node, false, b'.right, b'.node, p.red, b'.left);
    SameNodes(f, turn.RightBefore());
    SameNodes(f, FilledRight(p, t));
    SameOrder(p.up, f, FilledRight(p, t));
    assert FilledRight(p, t) == turn.RightAfter();
    assert p.left.node !in gone && gone !! PathNodes(p.up);
    hide Holds, Lacking, RedBlack, Wants, Inorder, Nodes, PathNodes, Plug, FilledRight;
    PaintChild(sibling, parent.red, true, p.up, f, root);
    MoveInto(p.up, f, true, b, root);
    Surroundings(q, b, root);
    var far := sibling.left;
    if far != null {
      PaintChild(far, false, true, q, b, root);
    }
    MoveInto(p.up, f, true, b', root);
    Paint(parent, false, p.up, f.(left := b'), root);
    Surroundings(p.up, turn.RightBefore(), root);
    root' := RotateRight(root, parent, turn, all);
    WholeAgain(p.up, FilledRight(p, t), gone, root', s, all);
  }

  method BesideBlackRight(root: TreeNode?, x: TreeNode, parent: TreeNode?, sibling: TreeNode?,
                         ghost p: Path, ghost t: Tree, ghost h: nat, ghost gone: set<TreeNode>, ghost s: seq<TreeNode>,
                           ghost all: set<TreeNode>)
    returns (root': TreeNode?, x': TreeNode?, ghost p': Path, ghost t': Tree, ghost h': nat)
    requires Deleting(p, t, h, gone, root, x, s, all) && p.RightOf? && !t.red && !IsRed(p.left)
    requires parent == p.node && sibling == Root(p.left)
    modifies all`parent, all`right, all`left, all`red
    ensures Deleting(p', t', h', gone, root', x', s, all) && Measure(p', t') <= if p.red then 0 else Depth(p)
  {
    Nephews(p, t, h, gone, root, x, s, all);
    hide Deleting, Depth, StraightRight, Plug, FilledRight;
    if sibling == null {
      assert false;
    }
    var near, far := sibling.right, sibling.left;
    if (far == null || !far.red) && (near == null || !near.red) {
      p', t', h' := Climb(parent, sibling, p, t, h, gone, root, x, s, all);
      return root, parent, p', t', h';
    }
    root' := root;
    var parent', sibling' := parent, sibling;
    ghost var q := p;
    if far == null || !far.red {
      root' := StraightenRight(root, x, sibling, near, p, t, h, gone, s, all);
      q := p.(left := StraightRight(p.left));
      Neighbours(q, t, h, gone, root', x, s, all);
      parent' := x.parent;
      sibling' := if parent' == null then null else parent'.left;
      assert IsRed(q.left.left) && !q.left.red by { StraightRightIsRed(p.left); }
    }
    if parent' == null || sibling' == null {
      assert false;
    }
    root' := FillRight(root', parent', sibling', x, q, t, h, gone, s, all);
    p', t' := Top, Plug(q.up, FilledRight(q, t));
    h' :| Deleting(Top, t', h', gone, root', root', s, all);
    x' := root';
  }

  lemma StraightRightIsRed(b: Tree)
    requires b.Node? && b.right.Node?
    ensures var b' := StraightRight(b); b'.Node? && !b'.red && IsRed(b'.left)
  {
  }

  method UnderRight(root: TreeNode?, x: TreeNode, parent: TreeNode,
                   ghost p: Path, ghost t: Tree, ghost h: nat, ghost gone: set<TreeNode>, ghost s: seq<TreeNode>,
                     ghost all: set<TreeNode>)
    returns (root': TreeNode?, x': TreeNode?, ghost p': Path, ghost t': Tree, ghost h': nat)
    requires Deleting(p, t, h, gone, root, x, s, all) && p.RightOf? && !t.red && parent == p.node
    modifies all`parent, all`right, all`left, all`red
    ensures Deleting(p', t', h', gone, root', x', s, all) && Measure(p', t') < Measure(p, t)
  {
    Nephews(p, t, h, gone, root, x, s, all);
    Neighbours(p, t, h, gone, root, x, s, all);
    root' := root;
    var parent', sibling := parent, parent.left;
    ghost var q := p;
    if sibling != null && sibling.red {
      TurnedRightLacks(p, t, h, gone);
      root' := TurnSiblingRight(root, x, parent, sibling, p, t, h, gone, s, all);
      q := TurnedRight(p);
      Neighbours(q, t, h, gone, root', x, s, all);
      parent' := x.parent;
      sibling := if parent' == null then null else parent'.left;
    }
    root', x', p', t', h' := BesideBlackRight(root', x, parent', sibling, q, t, h, gone, s, all);
  }

  // ---- the whole loop ----

  /** Makes a red-black tree, without the nodes of `gone`, of a tree that lacks a black node at `x`. */
  method BalanceDeletion(root: TreeNode?, x: TreeNode?, ghost p: Path, ghost t: Tree, ghost h: nat,
                         ghost gone: set<TreeNode>,
                         ghost all: set<TreeNode>)
    returns (root': TreeNode?, ghost t': Tree)
    requires Nodes(t) + PathNodes(p) <= all && Holds(p, t, root) && x == Root(t) && Lacking(p, t, h, gone)
    modifies all`parent, all`left, all`right, all`red
    ensures Restored(t', gone, root', Inorder(Plug(p, t)))
  {
    ghost var s := Inorder(Plug(p, t));
    root' := root;
    var x' := x;
    ghost var p', tx, h' := p, t, h;
    assert Deleting(p', tx, h', gone, root', x', s, all);
    hide Deleting, Measure, Restored, Holds, Around, Plug, Inorder;
    while true
      invariant Deleting(p', tx, h', gone, root', x', s, all)
      decreases Measure(p', tx)
    {
      AtRoot(p', tx, h', gone, root', x', s, all);
      if x' == null || x' == root' {
        return root', tx;
      }
      Neighbours(p', tx, h', gone, root', x', s, all);
      var parent := x'.parent;
      if parent == null {
        assert false;
      } else if x'.red {
        t' := BlackenRed(x', p', tx, h', gone, root', s, all);
        return root', t';
      }
      if parent.left == x' {
        root', x', p', tx, h' := UnderLeft(root', x', parent, p', tx, h', gone, s, all);
      } else {
        root', x', p', tx, h' := UnderRight(root', x', parent, p', tx, h', gone, s, all);
      }
    }
  }
}
