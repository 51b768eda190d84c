/** Taking a node out of the tree of a tree bin (src/chashmap/node.rs). */
module TreeRemoval {
  import opened TreeDeletion
  import opened TreeExchange
  import opened TreeMoves
  import opened TreeNodes

  // ---- lists without a node ----

  ghost function Without(s: seq<TreeNode>, x: TreeNode): (r: seq<TreeNode>)
    ensures x !in r
    ensures x !in s ==> r == s
  {
    if s == [] then [] else
    var r := Without(s[1..], x);
    if s[0] == x then r else [s[0]] + r
  }

  lemma {:induction false} WithoutConcat(a: seq<TreeNode>, b: seq<TreeNode>, x: TreeNode)
    ensures Without(a + b, x) == Without(a, x) + Without(b, x)
  {
    if a == [] {
      assert a + b == b;
    } else {
      assert (a + b)[1..] == a[1..] + b;
      WithoutConcat(a[1..], b, x);
    }
  }

  lemma WithoutMiddle(a: seq<TreeNode>, x: TreeNode, b: seq<TreeNode>)
    ensures Without(a + [x] + b, x) == Without(a, x) + Without(b, x)
  {
    assert Without([x], x) == [];
    hide Without;
    WithoutConcat(a + [x], b, x);
    WithoutConcat(a, [x], x);
  }

  lemma {:induction false} WithoutKeeps(s: seq<TreeNode>, x: TreeNode, n: TreeNode)
    ensures n in Without(s, x) <==> n in s && n != x
  {
    if s != [] {
      WithoutKeeps(s[1..], x, n);
      assert s == [s[0]] + s[1..];
    }
  }

  lemma {:induction false} SortedWithout(s: seq<TreeNode>, x: TreeNode)
    requires Sorted(s)
    ensures Sorted(Without(s, x))
  {
    if s != [] {
      var r := Without(s[1..], x);
      assert forall i, j :: 0 <= i < j < |s[1..]| ==> Before(s[1..][i], s[1..][j]);
      SortedWithout(s[1..], x);
      forall n <- r
        ensures Before(s[0], n)
      {
        WithoutKeeps(s[1..], x, n);
        var i :| 0 <= i < |s[1..]| && s[1..][i] == n;
        assert s[i + 1] == n;
      }
    }
  }

  // ---- the tree without a node ----

  /** The heap holds a red-black tree that lists `s`. */
  ghost predicate HoldsTree(t: Tree, root: TreeNode?, s: seq<TreeNode>)
    reads Nodes(t)
  {
    Holds(Top, t, root) && Balanced(t) && Inorder(t) == s
  }

  /** The tree that is left when a node with at most one child gives it its place. */
  ghost function OnlyChild(u: Tree): Tree
    requires u.Node?
  {
    if u.left.Node? then u.left else u.right
  }

  lemma WithoutNode(c: Path, u: Tree)
    requires u.Node? && (u.left.Leaf? || u.right.Leaf?) && Apart(c, u)
    ensures Inorder(Plug(c, OnlyChild(u))) == Without(Inorder(Plug(c, u)), u.node)
  {
    hide Plug, InorderBefore, InorderAfter, Without, PathNodes, HoleIsFree;
    InorderOfPlug(c, OnlyChild(u));
    InorderOfPlug(c, u);
    var p, l, r, q := InorderBefore(c), Inorder(u.left), Inorder(u.right), InorderAfter(c);
    var a, b := p + l, r + q;
    assert Inorder(Plug(c, u)) == a + [u.node] + b by { RegroupAround(p, l, u.node, r, q); }
    assert Inorder(Plug(c, OnlyChild(u))) == a + b by { RegroupAround(p, l, u.node, r, q); }
    WithoutMiddle(a, u.node, b);
    NotListed(c, u);
  }

  lemma RegroupAround(p: seq<TreeNode>, l: seq<TreeNode>, n: TreeNode, r: seq<TreeNode>, q: seq<TreeNode>)
    ensures p + (l + [n] + r) + q == (p + l) + [n] + (r + q)
    ensures l == [] || r == [] ==> p + (if l == [] then r else l) + q == (p + l) + (r + q)
  {
  }

  lemma NotListed(c: Path, u: Tree)
    requires u.Node? && Apart(c, u)
    ensures u.node !in InorderBefore(c) + Inorder(u.left) && u.node !in Inorder(u.right) + InorderAfter(c)
  {
    hide InorderBefore, InorderAfter, Inorder;
    NodesAreListed(u.left, u.node);
    NodesAreListed(u.right, u.node);
    ListedIsInPath(c, u.node);
  }

  lemma {:induction false} ListedIsInPath(c: Path, n: TreeNode)
    ensures n in InorderBefore(c) || n in InorderAfter(c) ==> n in PathNodes(c)
  {
    if !c.Top? {
      ListedIsInPath(c.up, n);
      NodesAreListed(Sibling(c), n);
    }
  }

  /** A black node with one child lacks a black node when it is gone; a red one has no children. */
  lemma ChildLacks(c: Path, u: Tree)
    requires Balanced(Plug(c, u)) && u.Node? && (u.left.Leaf? || u.right.Leaf?) && OnlyChild(u).Node? && !c.Top?
    ensures u.red ==> Balanced(Plug(c, OnlyChild(u)))
    ensures !u.red ==> Lacking(c, OnlyChild(u), 0, {})
  {
    Unplug(c, u);
    var v, h := OnlyChild(u), BlackHeight(u);
    EraseAbsent(v.(red := false), {});
    EraseAbsent(v, {});
    if u.red {
      PlugBalanced(c, v, h);
    } else {
      assert RedBlack(v, 0) && Wants(c, 1);
    }
  }

  lemma LeafLacks(c: Path, u: Tree)
    requires Balanced(Plug(c, u)) && u.Node? && u.left.Leaf? && u.right.Leaf? && u.node !in PathNodes(c)
    requires u.red || !c.Top?
    ensures u.red ==> Balanced(Erase(Plug(c, u), {u.node})) && Ends(Plug(c, u), {u.node})
    ensures !u.red ==> Lacking(c, u, 0, {u.node})
  {
    Unplug(c, u);
    ErasePlug(c, u, {u.node});
    if u.red {
      PlugBalanced(c, Leaf, 0);
    }
  }

  // ---- the links ----

  /** What a node with at most one child is cut out of. */
  ghost predicate CutOut(c: Path, v: Tree, p: TreeNode)
    reads PathNodes(c), Nodes(v)
  {
    Apart(c, v) && HoleIsFree(c) && RootIsFree(v) && Linked(v) && LinkedPath(c) && HoleHolds(c, p) &&
    (v.Node? ==> v.node !in PathNodes(c)) && (!c.Top? ==> c.node !in Nodes(v)) &&
    (c.RightOf? ==> c.node.left != p) && p !in PathNodes(c) && p !in Nodes(v)
  }

  lemma CutsOut(c: Path, u: Tree, root: TreeNode?)
    requires Holds(c, u, root) && u.Node? && (u.left.Leaf? || u.right.Leaf?)
    ensures CutOut(c, OnlyChild(u), u.node) && u.node.parent == Head(c)
    ensures root == Root(Plug(c, u))
  {
    var v := OnlyChild(u);
    assert Distinct(v) && Linked(v) && HoleIsFree(c) && RootIsFree(v);
    hide Plug;
  }

  method HangInstead(root: TreeNode?, p: TreeNode, replacement: TreeNode, ghost c: Path, ghost v: Tree)
                     returns (root': TreeNode?)
    requires CutOut(c, v, p) && p.parent == Head(c) && replacement == Root(v)
    modifies replacement`parent, Just(Head(c))`left, Just(Head(c))`right
    ensures Apart(c, v) && Linked(v) && LinkedPath(c) && HangsFrom(v, Head(c)) && HoleHolds(c, replacement)
    ensures root' == if c.Top? then replacement else root
  {
    hide Nodes, PathNodes, Below, LeftFixed, RightFixed, LinkedPath, Linked, Plug, Apart;
    root' := root;
    var pParent := p.parent;
    replacement.parent := pParent;
    if pParent == null {
      root' := replacement;
    } else if p == pParent.left {
      pParent.left := replacement;
    } else {
      pParent.right := replacement;
    }
  }

  /** `replacement` hangs where `p` hung, and `p` hangs nowhere. */
  method Splice(root: TreeNode?, p: TreeNode, replacement: TreeNode, ghost c: Path, ghost u: Tree)
                returns (root': TreeNode?)
    requires Holds(c, u, root) && u.Node? && p == u.node && (u.left.Leaf? || u.right.Leaf?) &&
             replacement == Root(OnlyChild(u))
    modifies replacement`parent, Just(Head(c))`left, Just(Head(c))`right, p`parent, p`left, p`right
    ensures Holds(c, OnlyChild(u), root')
  {
    CutsOut(c, u, root);
    RootOfPlug(c, u, OnlyChild(u));
    hide Linked, LinkedPath, Plug, OnlyChild, Nodes, PathNodes, Apart;
    root' := HangInstead(root, p, replacement, c, OnlyChild(u));
    p.parent := null;
    p.right := null;
    p.left := null;
  }

  method CutLeaf(p: TreeNode, pParent: TreeNode, ghost root: TreeNode?, ghost c: Path, ghost u: Tree)
    requires Holds(c, u, root) && u.Node? && p == u.node && u.left.Leaf? && u.right.Leaf? && pParent == Head(c)
    modifies pParent`left, pParent`right
    ensures Holds(c, Leaf, root)
  {
    CutsOut(c, u, root);
    RootOfPlug(c, u, Leaf);
    hide Nodes, PathNodes, Below, LeftFixed, RightFixed, LinkedPath, Linked, Plug, Apart;
    if p == pParent.left {
      pParent.left := null;
    } else if p == pParent.right {
      pParent.right := null;
    }
  }

  lemma LeafAt(t: Tree, p: TreeNode, root: TreeNode?, c: Path, u: Tree)
    requires Holds(Top, t, root) && Ends(t, {p}) && Balanced(Erase(t, {p})) && p in Nodes(t) && |Inorder(t)| > 1
    requires (c, u) == Locate(t, p, Top)
    ensures Holds(c, u, root) && u.Node? && u.node == p && u.left.Leaf? && u.right.Leaf? && !c.Top?
    ensures Plug(c, u) == t && Balanced(Plug(c, Leaf)) && Inorder(Plug(c, Leaf)) == Without(Inorder(t), p)
    ensures PathNodes(c) + {p} == Nodes(t)
  {
    Enter(c, u, root);
    hide Linked, LinkedPath;
    EndsAt(c, u, {p});
    ErasePlug(c, u, {p});
    WithoutNode(c, u);
    assert Inorder(Node(Leaf, p, u.red, Leaf)) == [p];
    hide Inorder;
  }

  lemma {:induction false} EndsAt(c: Path, u: Tree, gone: set<TreeNode>)
    requires Ends(Plug(c, u), gone) && u.Node? && gone !! PathNodes(c)
    ensures Ends(u, gone)
  {
    if !c.Top? {
      EndsAt(c.up, Around(c, u), gone);
    }
  }

  /** A removed node without children leaves the tree after the balance is restored. */
  method UnlinkLeaf(p: TreeNode, ghost t: Tree, ghost root: TreeNode?, ghost s: seq<TreeNode>, ghost all: set<TreeNode>)
                    returns (ghost t': Tree)
    requires Restored(t, {p}, root, s) && p in Nodes(t) && |s| > 1 && Nodes(t) <= all
    modifies all`left, all`right, p`parent
    ensures HoldsTree(t', root, Without(s, p))
  {
    ghost var (c, u) := Locate(t, p, Top);
    LeafAt(t, p, root, c, u);
    Surroundings(c, u, root);
    t' := Plug(c, Leaf);
    assert p !in PathNodes(c) && Head(c) in PathNodes(c);
    hide Holds, Inorder, Balanced, Nodes, PathNodes, Restored, Plug;
    var pParent := p.parent;
    if pParent != null {
      CutLeaf(p, pParent, root, c, u);
      p.parent := null;
      Whole(c, Leaf, root);
    }
  }

  // ---- taking a node out ----

  /** `p`, which has at most one child, at its place. */
  lemma NodeAt(t: Tree, p: TreeNode, root: TreeNode?, c: Path, u: Tree)
    requires Holds(Top, t, root) && p in Nodes(t) && p != root && (p.left == null || p.right == null)
    requires (c, u) == Locate(t, p, Top)
    ensures Holds(c, u, root) && u.Node? && u.node == p && Plug(c, u) == t && !c.Top? && (u.left.Leaf? || u.right.Leaf?)
    ensures p.left == Root(u.left) != p && p.right == Root(u.right) != p && p.red == u.red
    ensures Nodes(u) + PathNodes(c) == Nodes(t) && p !in PathNodes(c)
    ensures Inorder(Plug(c, OnlyChild(u))) == Without(Inorder(t), p)
  {
    Enter(c, u, root);
    hide Linked, LinkedPath;
    Surroundings(c, u, root);
    WithoutNode(c, u);
    hide Inorder;
  }

  lemma TwoNodes(t: Tree, p: TreeNode, root: TreeNode?)
    requires Holds(Top, t, root) && p in Nodes(t) && p != root
    ensures |Inorder(t)| > 1
  {
    NodesAreListed(t, p);
    NodesAreListed(t, t.node);
  }

  /** Takes out a node with one child. */
  method TakeOutInner(root: TreeNode?, p: TreeNode, replacement: TreeNode, ghost c: Path, ghost u: Tree,
                      ghost all: set<TreeNode>)
    returns (root': TreeNode?, ghost t': Tree)
    requires Holds(c, u, root) && u.Node? && p == u.node && p.red == u.red && Balanced(Plug(c, u)) && !c.Top?
    requires (u.left.Leaf? || u.right.Leaf?) && replacement == Root(OnlyChild(u)) && Nodes(u) + PathNodes(c) <= all
    modifies all`parent, all`left, all`right, all`red
    ensures HoldsTree(t', root', Inorder(Plug(c, OnlyChild(u))))
  {
    ghost var v := OnlyChild(u);
    ChildLacks(c, u);
    assert Nodes(v) <= Nodes(u) && p in all && Head(c) in all && replacement in all;
    hide Holds, Balanced, Nodes, PathNodes, Inorder, OnlyChild, Plug, Lacking;
    root' := Splice(root, p, replacement, c, u);
    if p.red {
      Whole(c, v, root');
      t' := Plug(c, v);
    } else {
      root', t' := BalanceDeletion(root', replacement, c, v, 0, {}, all);
      EraseAbsent(t', {});
    }
  }

  /** Takes out a node without children. */
  method TakeOutLeaf(root: TreeNode?, p: TreeNode, ghost c: Path, ghost u: Tree, ghost all: set<TreeNode>)
    returns (root': TreeNode?, ghost t': Tree)
    requires Holds(c, u, root) && u.Node? && p == u.node && p.red == u.red && Balanced(Plug(c, u)) && !c.Top?
    requires u.left.Leaf? && u.right.Leaf? && Nodes(u) + PathNodes(c) <= all && |Inorder(Plug(c, u))| > 1
    modifies all`parent, all`left, all`right, all`red
    ensures HoldsTree(t', root', Without(Inorder(Plug(c, u)), p))
  {
    ghost var s := Inorder(Plug(c, u));
    LeafLacks(c, u);
    root', t' := root, Plug(c, u);
    Whole(c, u, root);
    hide Holds, Balanced, PathNodes, Inorder, Plug, Lacking;
    if !p.red {
      root', t' := BalanceDeletion(root, p, c, u, 0, {p}, all);
    }
    SameNodes(t', Plug(c, u));
    t' := UnlinkLeaf(p, t', root', s, all);
  }

  // ---- the successor ----

  lemma SwappedDrops(a: seq<TreeNode>, l: seq<TreeNode>, x: TreeNode, y: TreeNode, r: seq<TreeNode>, b: seq<TreeNode>)
    ensures Without(a + (l + [x, y] + r) + b, x) == Without(a + (l + [y, x] + r) + b, x)
  {
    assert Without([x, y], x) == Without([y, x], x) by {
      assert [x, y][1..] == [y] && [y, x][1..] == [x];
    }
    forall m <- {[x, y], [y, x]}
      ensures Without(a + (l + m + r) + b, x) == Without(a, x) + (Without(l, x) + Without(m, x) + Without(r, x)) +
              Without(b, x)
    {
      WithoutConcat(a + (l + m + r), b, x);
      WithoutConcat(a, l + m + r, x);
      WithoutConcat(l + m, r, x);
      WithoutConcat(l, m, x);
      hide Without;
    }
    hide Without;
  }

  lemma ExchangeDrops(e: Exchange)
    requires Spine(e.d)
    ensures Without(Inorder(Plug(e.path, e.After())), e.p) == Without(Inorder(Plug(e.path, e.Before())), e.p)
  {
    ExchangeInorder(e);
    InorderOfPlug(e.path, e.Before());
    InorderOfPlug(e.path, e.After());
    hide Plug, Inorder, Without, InorderBefore, InorderAfter;
    SwappedDrops(InorderBefore(e.path), Inorder(e.l), e.p, e.s, Inorder(e.r) + InorderAfter(e.d), InorderAfter(e.path));
  }

  /** The leftmost node under `from`. */
  method Successor(from: TreeNode, ghost t: Tree) returns (s: TreeNode, ghost d: Path, ghost v: Tree)
    requires t.Node? && from == t.node && Linked(t)
    ensures Plug(d, v) == t && Spine(d) && v.Node? && v.node == s && v.left.Leaf?
  {
    s, d, v := from, Top, t;
    var left := s.left;
    while left != null
      invariant Plug(d, v) == t && Spine(d) && v.Node? && v.node == s && Linked(v) && left == Root(v.left)
      decreases v
    {
      d, v := LeftOf(d, v.node, v.red, v.right), v.left;
      s := left;
      left := s.left;
    }
  }

  /** Moves `p`, which has two children, to the place of its successor. */
  method ExchangeWithSuccessor(root: TreeNode?, p: TreeNode, left: TreeNode, right: TreeNode, ghost t: Tree,
                               ghost all: set<TreeNode>)
    returns (root': TreeNode?, replacement: TreeNode, ghost t': Tree)
    requires Holds(Top, t, root) && Balanced(t) && p in Nodes(t) && Nodes(t) <= all && left == p.left &&
             right == p.right
    modifies all`parent, all`left, all`right, all`red
    ensures Holds(Top, t', root') && Balanced(t') && Nodes(t') == Nodes(t) && p != root'
    ensures Without(Inorder(t'), p) == Without(Inorder(t), p)
    ensures p.left == null && replacement == if p.right != null then p.right else p
  {
    ghost var (c, u) := Locate(t, p, Top);
    Enter(c, u, root);
    Surroundings(c, u, root);
    ghost var d, v;
    var s;
    s, d, v := Successor(right, u.right);
    var sRight := s.right;
    ghost var e := Exchange(c, u.left, p, u.red, d, s, v.red, v.right);
    ExchangeApart(e);
    ExchangeBalanced(e);
    ExchangeDrops(e);
    hide Holds, Balanced, Inorder, Plug, Nodes, PathNodes, Without, Spine;
    root' := ExchangeNodes(root, p, s, left, right, e, all);
    t' := Plug(c, e.After());
    Whole(c, e.After(), root');
    Surroundings(Top, t', root');
    replacement := if sRight != null then sRight else p;
  }

  // ---- the whole removal ----

  /** Takes `p` out of a tree whose root has two children. */
  method RemoveFromTree(root: TreeNode, p: TreeNode, ghost t: Tree, ghost all: set<TreeNode>)
                        returns (root': TreeNode?, ghost t': Tree)
    requires Holds(Top, t, root) && Balanced(t) && p in Nodes(t) && Nodes(t) <= all && root.left != null &&
             root.right != null
    modifies all`parent, all`left, all`right, all`red
    ensures HoldsTree(t', root', Without(Inorder(t), p))
  {
    hide Holds, Balanced, Inorder, Plug, Nodes, PathNodes, Without;
    root', t' := root, t;
    var replacement;
    var left, right := p.left, p.right;
    if left != null && right != null {
      root', replacement, t' := ExchangeWithSuccessor(root, p, left, right, t, all);
    } else if left != null {
      replacement := left;
    } else if right != null {
      replacement := right;
    } else {
      replacement := p;
    }
    ghost var (c, u) := Locate(t', p, Top);
    NodeAt(t', p, root', c, u);
    TwoNodes(t', p, root');
    if replacement != p {
      root', t' := TakeOutInner(root', p, replacement, c, u, all);
    } else {
      root', t' := TakeOutLeaf(root', p, c, u, all);
    }
  }

  // ---- trees that are too small ----

  /** The check, made before a removal, that a tree is worth keeping. */
  predicate TooSmall(root: TreeNode?)
    reads Just(root)`left, Just(root)`right, Just(if root == null then null else root.left)`left
  {
    root == null || root.right == null || root.left == null || root.left.left == null
  }

  lemma {:induction false} AtMost(t: Tree, h: nat)
    requires RedBlack(t, h) && h <= 1
    ensures |Inorder(t)| <= if h == 0 then (if IsRed(t) then 1 else 0) else if IsRed(t) then 7 else 3
  {
    if t.Node? {
      var h' := if t.red then h else h - 1;
      AtMost(t.left, h');
      AtMost(t.right, h');
    }
  }

  /** A tree bin is given up as too small with ten nodes at the most. */
  lemma TooSmallIsSmall(t: Tree, root: TreeNode?)
    requires Holds(Top, t, root) && Balanced(t) && TooSmall(root)
    ensures |Inorder(t)| <= 10
  {
    if t.Node? {
      var h: nat :| RedBlack(t, h);
      var l, r := t.left, t.right;
      assert RedBlack(l, h - 1) && RedBlack(r, h - 1);
      if l.Node? && r.Node? {
        assert Linked(l) && l.left.Leaf?;
        var h' := if l.red then h - 1 else h - 2;
        assert RedBlack(l.left, h') && RedBlack(l.right, h');
        AtMost(r, h - 1);
        AtMost(l.right, h');
        assert |Inorder(l)| == 1 + |Inorder(l.right)|;
      } else {
        AtMost(l, h - 1);
        AtMost(r, h - 1);
      }
    }
  }
}
