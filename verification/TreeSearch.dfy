/** Looking a key up in the tree of a tree bin, and finding the place for a new one
    (src/chashmap/node.rs). */
module TreeSearch {
  import opened TreeMoves
  import opened TreeNodes

  /** `n` is before a node with this hash and key. */
  ghost predicate Precedes(n: TreeNode, hash: nat, key: int) {
    n.hash < hash || (n.hash == hash && n.key < key)
  }

  ghost predicate Follows(n: TreeNode, hash: nat, key: int) {
    hash < n.hash || (n.hash == hash && key < n.key)
  }

  ghost predicate Matches(n: TreeNode, hash: nat, key: int) {
    n.hash == hash && n.key == key
  }

  /** The order of the nodes says on which side of the root to look. */
  lemma SortedParts(t: Tree)
    requires t.Node? && Sorted(Inorder(t))
    ensures Sorted(Inorder(t.left)) && Sorted(Inorder(t.right))
    ensures forall n :: n in Nodes(t.left) ==> Before(n, t.node)
    ensures forall n :: n in Nodes(t.right) ==> Before(t.node, n)
  {
    var l, r, s := Inorder(t.left), Inorder(t.right), Inorder(t);
    assert forall i :: 0 <= i < |l| ==> s[i] == l[i];
    assert s[|l|] == t.node;
    assert forall i :: 0 <= i < |r| ==> s[|l| + 1 + i] == r[i];
    forall n | n in Nodes(t.left)
      ensures Before(n, t.node)
    {
      NodesAreListed(t.left, n);
    }
    forall n | n in Nodes(t.right)
      ensures Before(t.node, n)
    {
      NodesAreListed(t.right, n);
    }
  }

  /** A lookup from the root of `t`.  A node with one child sends it there without comparing keys. */
  method FindTreeNode(from: TreeNode?, hash: nat, key: int, ghost t: Tree) returns (r: TreeNode?)
    requires from == Root(t) && Linked(t) && Sorted(Inorder(t))
    ensures r != null ==> r in Nodes(t) && Matches(r, hash, key)
    ensures r == null ==> forall n :: n in Nodes(t) ==> !Matches(n, hash, key)
  {
    var p := from;
    ghost var u := t;
    while p != null
      invariant p == Root(u) && Linked(u) && Sorted(Inorder(u)) && Nodes(u) <= Nodes(t)
      invariant forall n :: n in Nodes(t) && Matches(n, hash, key) ==> n in Nodes(u)
      decreases u
    {
      SortedParts(u);
      hide Inorder;
      if p.hash > hash {
        p, u := p.left, u.left;
        continue;
      } else if p.hash < hash {
        p, u := p.right, u.right;
        continue;
      }
      if p.key == key {
        return p;
      }
      var left, right := p.left, p.right;
      if left == null {
        p, u := right, u.right;
        continue;
      } else if right == null {
        p, u := left, u.left;
        continue;
      }
      if p.key > key {
        p, u := left, u.left;
      } else {
        p, u := right, u.right;
      }
    }
    return null;
  }

  // ---- the place for a new node ----

  /** A node with this hash and key belongs in the hole of `p`. */
  ghost predicate Fits(p: Path, hash: nat, key: int) {
    (forall n <- InorderBefore(p) :: Precedes(n, hash, key)) && (forall n <- InorderAfter(p) :: Follows(n, hash, key))
  }

  lemma FitsLeft(p: Path, t: Tree, hash: nat, key: int)
    requires t.Node? && Fits(p, hash, key) && Follows(t.node, hash, key) && Sorted(Inorder(t))
    ensures Fits(Into(p, t, true), hash, key)
  {
    forall n <- Inorder(t.right)
      ensures Follows(n, hash, key)
    {
      SortedParts(t);
      NodesAreListed(t.right, n);
    }
    hide Inorder;
  }

  lemma FitsRight(p: Path, t: Tree, hash: nat, key: int)
    requires t.Node? && Fits(p, hash, key) && Precedes(t.node, hash, key) && Sorted(Inorder(t))
    ensures Fits(Into(p, t, false), hash, key)
  {
    forall n <- Inorder(t.left)
      ensures Precedes(n, hash, key)
    {
      SortedParts(t);
      NodesAreListed(t.left, n);
    }
    hide Inorder;
  }

  lemma SortedInsert(a: seq<TreeNode>, x: TreeNode, b: seq<TreeNode>)
    requires Sorted(a + b) && (forall n <- a :: Before(n, x)) && (forall n <- b :: Before(x, n))
    ensures Sorted(a + [x] + b)
  {
    var s, s' := a + b, a + [x] + b;
    forall i, j | 0 <= i < j < |s'|
      ensures Before(s'[i], s'[j])
    {
      var i', j' := if i < |a| then i else i - 1, if j < |a| then j else j - 1;
      assert i != |a| ==> s'[i] == s[i'];
      assert j != |a| ==> s'[j] == s[j'];
      assert i < |a| ==> s'[i] in a;
      assert j > |a| ==> s'[j] in b;
    }
  }

  lemma SortedWith(p: Path, x: TreeNode, red: bool)
    requires Sorted(Inorder(Plug(p, Leaf))) && Fits(p, x.hash, x.key)
    ensures Sorted(Inorder(Plug(p, Node(Leaf, x, red, Leaf))))
  {
    InorderOfPlug(p, Leaf);
    InorderOfPlug(p, Node(Leaf, x, red, Leaf));
    assert Inorder(Plug(p, Leaf)) == InorderBefore(p) + InorderAfter(p);
    assert Inorder(Node(Leaf, x, red, Leaf)) == [x];
    SortedInsert(InorderBefore(p), x, InorderAfter(p));
  }

  lemma FitsAlone(p: Path, hash: nat, key: int)
    requires Fits(p, hash, key)
    ensures forall n <- Nodes(Plug(p, Leaf)) :: !Matches(n, hash, key)
  {
    InorderOfPlug(p, Leaf);
    forall n <- Nodes(Plug(p, Leaf))
      ensures !Matches(n, hash, key)
    {
      NodesAreListed(Plug(p, Leaf), n);
      assert n in InorderBefore(p) + InorderAfter(p);
    }
  }

  /** Goes down from the root: the node with this key, or the node `under` which, to the `left` or
      not, a new node belongs. */
  method FindPlace(root: TreeNode, hash: nat, key: int, ghost t: Tree)
    returns (found: TreeNode?, under: TreeNode?, left: bool, ghost p: Path)
    requires Holds(Top, t, root) && Sorted(Inorder(t))
    ensures found != null ==> found in Nodes(t) && Matches(found, hash, key)
    ensures found == null ==> under != null && !p.Top? && under == p.node && left == p.LeftOf? &&
                              Plug(p, Leaf) == t && Holds(p, Leaf, root) && Fits(p, hash, key)
  {
    var n: TreeNode? := root;
    ghost var u := t;
    p := Top;
    while true
      invariant n != null && n == Root(u) && Holds(p, u, root) && Plug(p, u) == t && Sorted(Inorder(u)) &&
                Fits(p, hash, key)
      invariant Nodes(u) <= Nodes(t)
      decreases u
    {
      Surroundings(p, u, root);
      SortedParts(u);
      hide Inorder, Holds;
      under := n;
      if n.hash > hash {
        left := true;
      } else if n.hash < hash {
        left := false;
      } else {
        if n.key == key {
          return n, under, true, p;
        }
        left := n.key > key;
      }
      if left {
        FitsLeft(p, u, hash, key);
      } else {
        FitsRight(p, u, hash, key);
      }
      n := if left then n.left else n.right;
      MoveInto(p, u, left, Child(u, left), root);
      p, u := Into(p, u, left), Child(u, left);
      if n == null {
        return null, under, left, p;
      }
    }
  }
}
