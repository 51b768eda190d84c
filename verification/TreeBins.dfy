/** Tree bins: the red-black tree and the list through the same nodes (src/chashmap/node.rs). */
module TreeBins {
  import opened TreeInsertion
  import opened TreeMoves
  import opened TreeNodes
  import opened TreeRemoval
  import opened TreeRotation
  import opened TreeSearch
  import opened Values

  ghost function Elements(s: seq<TreeNode>): set<TreeNode> {
    set n | n in s
  }

  ghost function At(s: seq<TreeNode>, i: int): TreeNode? {
    if 0 <= i < |s| then s[i] else null
  }

  ghost predicate NoneTwice(s: seq<TreeNode>) {
    forall i, j :: 0 <= i < j < |s| ==> s[i] != s[j]
  }

  /** The list from `first` visits the nodes of `s` in order, each once, and can be walked back. */
  ghost predicate Threaded(s: seq<TreeNode>, first: TreeNode?)
    reads Elements(s)`next, Elements(s)`prev
  {
    first == At(s, 0) && NoneTwice(s) && forall i :: 0 <= i < |s| ==>
      s[i].next == At(s, i + 1) && s[i].prev == At(s, i - 1)
  }

  // ---- hanging a new node ----

  method Hang(x: TreeNode, under: TreeNode, left: bool, ghost p: Path, ghost root: TreeNode?)
    requires Holds(p, Leaf, root) && !p.Top? && under == p.node && left == p.LeftOf?
    requires x !in PathNodes(p) && x.left == null && x.right == null && x.parent == under
    modifies under`left, under`right
    ensures Holds(p, Node(Leaf, x, x.red, Leaf), root)
  {
    RootOfPlug(p, Leaf, Node(Leaf, x, x.red, Leaf));
    assert Apart(p, Node(Leaf, x, x.red, Leaf)) && HoleIsFree(p);
    hide Plug, DistinctPath, Nodes, PathNodes, LeftFixed, RightFixed;
    if left {
      under.left := x;
    } else {
      under.right := x;
    }
  }

  /** A red leaf fits where a leaf was. */
  lemma NewLeaf(p: Path, x: TreeNode, red: bool)
    requires Balanced(Plug(p, Leaf)) && !p.Top?
    ensures TooRed(p, Node(Leaf, x, true, Leaf), 0)
    ensures !p.red ==> Balanced(Plug(p, Node(Leaf, x, true, Leaf)))
  {
    Unplug(p, Leaf);
    if !p.red {
      PlugBalanced(p, Node(Leaf, x, true, Leaf), 0);
    }
  }

  /** The heap holds the red-black search tree `t`. */
  ghost predicate IsTree(t: Tree, root: TreeNode?)
    reads Nodes(t)`parent, Nodes(t)`left, Nodes(t)`right, Nodes(t)`red
  {
    Holds(Top, t, root) && Balanced(t) && Sorted(Inorder(t))
  }

  lemma WithLeaf(p: Path, x: TreeNode, red: bool, t: Tree)
    requires Inorder(t) == Inorder(Plug(p, Node(Leaf, x, red, Leaf)))
    requires Fits(p, x.hash, x.key) && Sorted(Inorder(Plug(p, Leaf)))
    ensures Sorted(Inorder(t)) && Nodes(t) == Nodes(Plug(p, Leaf)) + {x}
  {
    SortedWith(p, x, red);
    InorderOfPlug(p, Leaf);
    InorderOfPlug(p, Node(Leaf, x, red, Leaf));
    assert Inorder(Node(Leaf, x, red, Leaf)) == [x];
    assert Inorder(t) == InorderBefore(p) + [x] + InorderAfter(p);
    assert Inorder(Plug(p, Leaf)) == InorderBefore(p) + InorderAfter(p);
    forall n | n in Nodes(t) + Nodes(Plug(p, Leaf)) + {x}
      ensures n in Nodes(t) <==> n in Nodes(Plug(p, Leaf)) + {x}
    {
      NodesAreListed(t, n);
      NodesAreListed(Plug(p, Leaf), n);
    }
  }

  lemma OneNode(x: TreeNode)
    requires x.left == null && x.right == null && x.parent == null && !x.red
    ensures IsTree(Node(Leaf, x, false, Leaf), x) && Nodes(Node(Leaf, x, false, Leaf)) == {x}
  {
    var t := Node(Leaf, x, false, Leaf);
    assert Distinct(t) && Linked(t);
    assert Plug(Top, t) == t;
    assert RedBlack(t, 1);
    assert Inorder(t) == [x];
  }

  /** Adds one node of the list to the tree that is being built. */
  method AddNode(root: TreeNode?, x: TreeNode, ghost t: Tree, ghost all: set<TreeNode>)
                 returns (root': TreeNode?, ghost t': Tree)
    requires IsTree(t, root) && Nodes(t) + {x} <= all && x !in Nodes(t)
    requires forall n <- Nodes(t) :: !Matches(n, x.hash, x.key)
    modifies all`parent, all`left, all`right, all`red
    ensures IsTree(t', root') && Nodes(t') == Nodes(t) + {x}
  {
    assert root == Root(t);
    hide Inorder, Plug, Balanced, Sorted;
    x.left, x.right := null, null;
    if root == null {
      x.parent := null;
      x.red := false;
      OneNode(x);
      return x, Node(Leaf, x, false, Leaf);
    }
    var found, under, left;
    ghost var p;
    found, under, left, p := FindPlace(root, x.hash, x.key, t);
    if found != null {
      assert false;
    }
    Whole(p, Leaf, root);
    hide Holds;
    x.parent := under;
    Hang(x, under, left, p, root);
    ghost var red := x.red;
    NewLeaf(p, x, red);
    root', t' := BalanceInsertion(root, x, p, Node(Leaf, x, red, Leaf), 0, all);
    WithLeaf(p, x, red, t');
  }

  /** Hangs a new black node `x` under `under`, and rebalances if both would be red. */
  method PutNode(root: TreeNode?, x: TreeNode, under: TreeNode, left: bool, ghost p: Path, ghost all: set<TreeNode>)
    returns (root': TreeNode?, ghost t': Tree)
    requires Holds(p, Leaf, root) && Balanced(Plug(p, Leaf)) && Sorted(Inorder(Plug(p, Leaf))) && Fits(p, x.hash, x.key)
    requires !p.Top? && under == p.node && left == p.LeftOf? && PathNodes(p) + {x} <= all && x !in PathNodes(p)
    requires x.left == null && x.right == null && x.parent == under && !x.red
    modifies all`parent, all`left, all`right, all`red
    ensures IsTree(t', root') && Nodes(t') == Nodes(Plug(p, Leaf)) + {x}
  {
    assert under in PathNodes(p);
    hide Inorder, Plug, Balanced, Sorted, PathNodes, Fits;
    Hang(x, under, left, p, root);
    NewLeaf(p, x, false);
    ghost var leaf := Node(Leaf, x, false, Leaf);
    Surroundings(p, leaf, root);
    assert Nodes(leaf) == {x};
    if !under.red {
      Paint(x, true, p, leaf, root);
      root', t' := root, Plug(p, Node(Leaf, x, true, Leaf));
      Whole(p, Node(Leaf, x, true, Leaf), root);
      WithLeaf(p, x, true, t');
    } else {
      root', t' := BalanceInsertion(root, x, p, leaf, 0, all);
      WithLeaf(p, x, false, t');
    }
  }

  // ---- the list ----

  lemma NoElements(s: seq<TreeNode>)
    ensures Elements(s) == {} <==> s == []
  {
    if s != [] {
      assert s[0] in Elements(s);
    }
  }

  lemma OneElement(x: TreeNode)
    requires x.next == null && x.prev == null
    ensures Threaded([x], x) && Elements([x]) == {x}
  {
  }

  /** A new node at the front of the list. */
  method PushFront(hash: nat, key: int, value: Value, first: TreeNode?, under: TreeNode, ghost s: seq<TreeNode>)
    returns (x: TreeNode)
    requires Threaded(s, first)
    modifies Elements(s)`prev
    ensures fresh(x) && x.hash == hash && x.key == key && x.value == value
    ensures x.left == null && x.right == null && x.parent == under && !x.red
    ensures Threaded([x] + s, x) && Elements([x] + s) == Elements(s) + {x} && x !in Elements(s)
  {
    x := new TreeNode(hash, key, value, first, under);
    assert x !in s;
    if first != null {
      first.prev := x;
    }
  }

  lemma WithoutAt(s: seq<TreeNode>, k: nat)
    requires k < |s| && NoneTwice(s)
    ensures Without(s, s[k]) == s[..k] + s[k + 1..]
  {
    assert s == s[..k] + [s[k]] + s[k + 1..];
    WithoutMiddle(s[..k], s[k], s[k + 1..]);
    assert s[k] !in s[..k] && s[k] !in s[k + 1..];
  }

  /** The links around index `k` pass over it. */
  ghost predicate Bypassed(s: seq<TreeNode>, k: int)
    reads Elements(s)`next, Elements(s)`prev
  {
    forall j :: 0 <= j < |s| && j != k ==>
      s[j].next == (if j + 1 == k then At(s, k + 1) else At(s, j + 1)) &&
      s[j].prev == (if j - 1 == k then At(s, k - 1) else At(s, j - 1))
  }

  /** The index in `s` of what is at `i` when index `k` is left out. */
  ghost function Skip(k: nat, i: int): int {
    if i < k then i else i + 1
  }

  lemma BypassedLink(s: seq<TreeNode>, k: nat, i: nat)
    requires k < |s| && Bypassed(s, k) && i < |s| - 1
    ensures var s' := s[..k] + s[k + 1..];
            s'[i] == s[Skip(k, i)] && s'[i].next == At(s', i + 1) && s'[i].prev == At(s', i - 1)
  {
    var s' := s[..k] + s[k + 1..];
    assert At(s', i + 1) == At(s, Skip(k, i + 1));
    assert i > 0 ==> At(s', i - 1) == At(s, Skip(k, i - 1));
  }

  lemma BypassedIsThreaded(s: seq<TreeNode>, k: nat, first: TreeNode?)
    requires k < |s| && NoneTwice(s) && Bypassed(s, k) && first == if k == 0 then At(s, 1) else s[0]
    ensures Threaded(s[..k] + s[k + 1..], first)
  {
    var s' := s[..k] + s[k + 1..];
    forall i | 0 <= i < |s'|
      ensures s'[i] == s[Skip(k, i)] && s'[i].next == At(s', i + 1) && s'[i].prev == At(s', i - 1)
    {
      BypassedLink(s, k, i);
    }
    hide Bypassed, Elements;
    assert NoneTwice(s');
    assert first == At(s', 0);
  }

  method Bypass(first: TreeNode?, p: TreeNode, ghost s: seq<TreeNode>, ghost k: nat) returns (first': TreeNode?)
    requires Threaded(s, first) && k < |s| && s[k] == p
    modifies Elements(s)`next, Elements(s)`prev
    ensures Bypassed(s, k) && first' == if k == 0 then At(s, 1) else s[0]
  {
    first' := first;
    var next, prev := p.next, p.prev;
    if prev == null {
      first' := next;
    } else {
      prev.next := next;
    }
    if next != null {
      next.prev := prev;
    }
  }

  /** Takes `p` out of the list. */
  method Unlink(first: TreeNode?, p: TreeNode, ghost s: seq<TreeNode>) returns (first': TreeNode?)
    requires Threaded(s, first) && p in Elements(s)
    modifies Elements(s)`next, Elements(s)`prev
    ensures Threaded(Without(s, p), first')
  {
    ghost var k :| 0 <= k < |s| && s[k] == p;
    WithoutAt(s, k);
    assert NoneTwice(s);
    hide Threaded, Bypassed, Without, NoneTwice;
    first' := Bypass(first, p, s, k);
    BypassedIsThreaded(s, k, first');
  }

  /** The list does not meet the tree in any link. */
  method UnlinkBeside(first: TreeNode?, p: TreeNode, ghost s: seq<TreeNode>, ghost t: Tree, ghost root: TreeNode?,
                      ghost all: set<TreeNode>)
    returns (first': TreeNode?)
    requires Threaded(s, first) && p in Elements(s) && IsTree(t, root) && Nodes(t) == all
    modifies Elements(s)`next, Elements(s)`prev
    ensures Threaded(Without(s, p), first') && IsTree(t, root) && TooSmall(root) == old(TooSmall(root))
  {
    hide Threaded, Elements, Without, Nodes, IsTree;
    first' := Unlink(first, p, s);
  }

  /** The tree holds the first `k` nodes of the list, and `x` is the next one. */
  ghost predicate BuiltUpTo(s: seq<TreeNode>, first: TreeNode?, k: nat, t: Tree, root: TreeNode?, x: TreeNode?)
    reads Elements(s), Nodes(t)
  {
    Threaded(s, first) && DistinctKeys(s) && k <= |s| && x == At(s, k) && IsTree(t, root) &&
      Nodes(t) == Elements(s[..k])
  }

  lemma StartOfBuild(s: seq<TreeNode>, first: TreeNode?)
    requires Threaded(s, first) && DistinctKeys(s)
    ensures BuiltUpTo(s, first, 0, Leaf, null, first)
  {
    EmptyTree();
    assert s[..0] == [];
  }

  method BuildStep(root: TreeNode?, x: TreeNode, ghost s: seq<TreeNode>, ghost first: TreeNode?, ghost k: nat,
                   ghost t: Tree, ghost all: set<TreeNode>)
    returns (root': TreeNode?, next: TreeNode?, ghost t': Tree)
    requires BuiltUpTo(s, first, k, t, root, x) && all == Elements(s)
    modifies all`parent, all`left, all`right, all`red
    ensures k < |s| && BuiltUpTo(s, first, k + 1, t', root', next)
  {
    NextOf(s, first, k);
    ElementsOfNext(s, k);
    hide IsTree, Threaded, Elements, DistinctKeys, Nodes;
    next := x.next;
    root', t' := AddNode(root, x, t, all);
  }

  /** Builds the tree over a list, one node after the other. */
  method BuildTree(bin: TreeNode?, ghost s: seq<TreeNode>) returns (root: TreeNode?, ghost t: Tree)
    requires Threaded(s, bin) && DistinctKeys(s)
    modifies Elements(s)`parent, Elements(s)`left, Elements(s)`right, Elements(s)`red
    ensures Threaded(s, bin) && IsTree(t, root) && Nodes(t) == Elements(s)
  {
    var x := bin;
    ghost var k := 0;
    root, t := null, Leaf;
    StartOfBuild(s, bin);
    hide BuiltUpTo, Elements;
    while x != null
      invariant BuiltUpTo(s, bin, k, t, root, x)
      decreases |s| - k
    {
      root, x, t := BuildStep(root, x, s, bin, k, t, Elements(s));
      k := k + 1;
    }
    EndOfBuild(s, bin, k, t, root);
  }

  lemma EndOfBuild(s: seq<TreeNode>, first: TreeNode?, k: nat, t: Tree, root: TreeNode?)
    requires BuiltUpTo(s, first, k, t, root, null)
    ensures Threaded(s, first) && IsTree(t, root) && Nodes(t) == Elements(s)
  {
    assert s[..|s|] == s;
  }

  // ---- the bin ----

  ghost predicate DistinctKeys(s: seq<TreeNode>) {
    forall i, j :: 0 <= i < j < |s| ==> !Matches(s[i], s[j].hash, s[j].key)
  }

  lemma EmptyTree()
    ensures IsTree(Leaf, null) && Nodes(Leaf) == {} == Elements([])
  {
    assert RedBlack(Leaf, 0);
  }

  lemma ElementsOfNext(s: seq<TreeNode>, k: nat)
    requires k < |s|
    ensures Elements(s[..k + 1]) == Elements(s[..k]) + {s[k]} <= Elements(s)
  {
    var a := s[..k];
    assert s[..k + 1] == a + [s[k]];
    assert forall n <- a :: n in s;
  }

  lemma NextOf(s: seq<TreeNode>, first: TreeNode?, k: nat)
    requires Threaded(s, first) && DistinctKeys(s) && k < |s|
    ensures s[k].next == At(s, k + 1) && s[k] in Elements(s) && s[k] !in Elements(s[..k])
    ensures forall n <- Elements(s[..k]) :: !Matches(n, s[k].hash, s[k].key)
  {
    forall n <- Elements(s[..k])
      ensures n != s[k] && !Matches(n, s[k].hash, s[k].key)
    {
      var i :| 0 <= i < k && s[i] == n;
    }
    hide Elements, Threaded;
  }

  lemma {:induction false} CountElements(s: seq<TreeNode>)
    requires NoneTwice(s)
    ensures |Elements(s)| == |s|
  {
    if s != [] {
      var n := |s| - 1;
      CountElements(s[..n]);
      ElementsOfNext(s, n);
      assert s[..n + 1] == s;
      assert s[n] !in s[..n];
    }
  }

  lemma NodesOfInorder(t: Tree)
    ensures Nodes(t) == Elements(Inorder(t))
  {
    forall n | n in Nodes(t) + Elements(Inorder(t))
      ensures n in Nodes(t) && n in Elements(Inorder(t))
    {
      NodesAreListed(t, n);
    }
  }

  lemma SameLength(s: seq<TreeNode>, t: Tree)
    requires NoneTwice(s) && Sorted(Inorder(t)) && Elements(s) == Nodes(t)
    ensures |s| == |Inorder(t)|
  {
    assert NoneTwice(Inorder(t));
    hide Sorted, NoneTwice, Inorder, Elements;
    NodesOfInorder(t);
    CountElements(s);
    CountElements(Inorder(t));
  }

  lemma ElementsWithout(s: seq<TreeNode>, x: TreeNode)
    ensures Elements(Without(s, x)) == Elements(s) - {x}
  {
    forall n | n in Elements(Without(s, x)) + Elements(s)
      ensures n in Elements(Without(s, x)) <==> n in Elements(s) - {x}
    {
      WithoutKeeps(s, x, n);
    }
  }

  lemma ShorterWithout(s: seq<TreeNode>, x: TreeNode)
    requires NoneTwice(s) && x in s
    ensures |Without(s, x)| == |s| - 1
  {
    var k :| 0 <= k < |s| && s[k] == x;
    WithoutAt(s, k);
  }

  lemma WithoutInTree(t: Tree, t': Tree, x: TreeNode)
    requires Inorder(t') == Without(Inorder(t), x) && Sorted(Inorder(t))
    ensures Nodes(t') == Nodes(t) - {x} && Sorted(Inorder(t'))
  {
    SortedWithout(Inorder(t), x);
    forall n | n in Nodes(t') + Nodes(t)
      ensures n in Nodes(t') <==> n in Nodes(t) - {x}
    {
      NodesAreListed(t, n);
      NodesAreListed(t', n);
      WithoutKeeps(Inorder(t), x, n);
    }
  }

  lemma NotAlone(t: Tree, root: TreeNode?)
    requires Holds(Top, t, root) && !TooSmall(root)
    ensures |Inorder(t)| > 1
  {
  }

  /** What is left when `p` goes. */
  lemma Remainder(s: seq<TreeNode>, first: TreeNode?, t: Tree, root: TreeNode?, p: TreeNode)
    requires IsTree(t, root) && Threaded(s, first) && Elements(s) == Nodes(t) && p in Elements(s)
    ensures Elements(Without(s, p)) == Elements(s) - {p}
    ensures if TooSmall(root) then |Without(s, p)| < 10 else |Without(s, p)| > 0
  {
    SameLength(s, t);
    ShorterWithout(s, p);
    ElementsWithout(s, p);
    if TooSmall(root) {
      TooSmallIsSmall(t, root);
    } else {
      NotAlone(t, root);
    }
  }

  lemma EndOfList(s: seq<TreeNode>, first: TreeNode?)
    requires Threaded(s, first)
    ensures first == At(s, 0) && (first == null <==> |s| == 0)
  {
  }

  class TreeBin {
    var root: TreeNode?
    var first: TreeNode?
    ghost var tree: Tree
    ghost var list: seq<TreeNode>

    /** A red-black search tree and a list of the same nodes. */
    ghost predicate Valid()
      reads `root, `first, `tree, `list, Nodes(tree), Elements(list)
    {
      IsTree(tree, root) && Threaded(list, first) && Elements(list) == Nodes(tree)
    }

    /** Builds the tree over the nodes of a list with distinct keys. */
    constructor (bin: TreeNode?, ghost s: seq<TreeNode>)
      requires Threaded(s, bin) && DistinctKeys(s)
      modifies Elements(s)`parent, Elements(s)`left, Elements(s)`right, Elements(s)`red
      ensures Valid() && list == s && first == bin
    {
      var r: TreeNode?;
      ghost var t;
      r, t := BuildTree(bin, s);
      root, first, tree, list := r, bin, t, s;
    }

    /** A lookup.  While a writer works on the tree or waits for it, it goes along the list; it
        may find the tree free at any step, and search that. */
    method Find(hash: nat, key: int) returns (r: TreeNode?)
      requires Valid()
      ensures r != null ==> r in Elements(list) && Matches(r, hash, key)
      ensures r == null ==> forall n <- Elements(list) :: !Matches(n, hash, key)
    {
      var element := first;
      ghost var k := 0;
      assert root == Root(tree) && Linked(tree);
      hide Holds, Inorder, Sorted, Balanced, Linked, Nodes;
      while element != null
        invariant 0 <= k <= |list| && element == At(list, k)
        invariant forall i :: 0 <= i < k ==> !Matches(list[i], hash, key)
        decreases |list| - k
      {
        if * {
          if element.hash == hash && element.key == key {
            return element;
          }
          element := element.next;
          k := k + 1;
        } else {
          r := FindTreeNode(root, hash, key, tree);
          return;
        }
      }
      return null;
    }

    method PutRoot(hash: nat, key: int, value: Value)
      requires Valid() && root == null
      modifies this
      ensures Valid() && |list| > 0 && list[1..] == old(list) == [] && fresh(list[0])
      ensures Matches(list[0], hash, key) && list[0].value == value
    {
      assert root == Root(tree) && list == [] by { NoElements(list); }
      hide *;
      hide Matches;
      var x := new TreeNode(hash, key, value, null, null);
      root := x;
      first := x;
      tree, list := Node(Leaf, x, false, Leaf), [x];
      OneNode(x);
      OneElement(x);
    }

    method PutUnder(hash: nat, key: int, value: Value, under: TreeNode, left: bool, ghost p: Path,
                    ghost all: set<TreeNode>)
      requires Valid() && all == Nodes(tree) && Plug(p, Leaf) == tree && Holds(p, Leaf, root) && Fits(p, hash, key)
      requires !p.Top? && under == p.node && left == p.LeftOf?
      modifies this
      modifies Nodes(tree)`parent, Nodes(tree)`left, Nodes(tree)`right, Nodes(tree)`red, Nodes(tree)`prev
      ensures Valid() && |list| > 0 && list[1..] == old(list) && fresh(list[0])
      ensures Matches(list[0], hash, key) && list[0].value == value
    {
      hide Holds, Balanced, Sorted, Inorder, Plug, Threaded, Nodes, Elements;
      Whole(p, Leaf, root);
      var x := PushFront(hash, key, value, first, under, list);
      first, list := x, [x] + list;
      root, tree := PutNode(root, x, under, left, p, all + {x});
    }

    /** Gives the node with this key, or adds one at the front of the list. */
    method FindOrPutTreeVal(hash: nat, key: int, value: Value) returns (found: TreeNode?)
      requires Valid()
      modifies this
      modifies Nodes(tree)`parent, Nodes(tree)`left, Nodes(tree)`right, Nodes(tree)`red, Nodes(tree)`prev
      ensures Valid()
      ensures found != null ==>
              found in Elements(list) && Matches(found, hash, key) && unchanged(this) && unchanged(Nodes(tree))
      ensures found == null ==> (forall n <- old(Elements(list)) :: !Matches(n, hash, key)) &&
                                |list| > 0 && list[1..] == old(list) && fresh(list[0]) &&
                                Matches(list[0], hash, key) && list[0].value == value
    {
      assert root == Root(tree);
      hide Holds, Balanced, Sorted, Inorder, Plug, Threaded, Fits, Elements, Matches;
      if root == null {
        PutRoot(hash, key, value);
        return null;
      }
      var under, left;
      ghost var p;
      found, under, left, p := FindPlace(root, hash, key, tree);
      if found != null {
        return;
      }
      FitsAlone(p, hash, key);
      hide Nodes;
      PutUnder(hash, key, value, under, left, p, Nodes(tree));
    }

    lemma RemainderOf(p: TreeNode)
      requires Valid() && p in Elements(list)
      ensures Elements(Without(list, p)) == Nodes(tree) - {p} && p in Nodes(tree)
      ensures if TooSmall(root) then |Without(list, p)| < 10 else |Without(list, p)| > 0
    {
      Remainder(list, first, tree, root, p);
    }

    method UnlinkNode(p: TreeNode, ghost all: set<TreeNode>)
      requires Valid() && p in Elements(list) && all == Nodes(tree)
      modifies `first, `list, Nodes(tree)`next, Nodes(tree)`prev
      ensures IsTree(tree, root) && Threaded(list, first) && p in Nodes(tree) && Elements(list) == Nodes(tree) - {p}
      ensures list == Without(old(list), p)
      ensures TooSmall(root) == old(TooSmall(root)) && if TooSmall(root) then |list| < 10 else |list| > 0
    {
      hide Holds, Balanced, Sorted, Inorder, Nodes, Threaded, Without, Elements, TooSmall, IsTree;
      RemainderOf(p);
      first := UnlinkBeside(first, p, list, tree, root, all);
      list := Without(list, p);
    }

    method TakeFromTree(p: TreeNode, ghost all: set<TreeNode>)
      requires IsTree(tree, root) && Threaded(list, first) && p in Nodes(tree) && Elements(list) == Nodes(tree) - {p}
      requires !TooSmall(root) && all == Nodes(tree)
      modifies `root, `tree, Nodes(tree)`parent, Nodes(tree)`left, Nodes(tree)`right, Nodes(tree)`red
      ensures Valid()
    {
      ghost var t := tree;
      hide Holds, Balanced, Sorted, Inorder, Nodes, Threaded, Without, Elements;
      root, tree := RemoveFromTree(root, p, t, all);
      WithoutInTree(t, tree, p);
    }

    /** Takes `p` out of the list, and out of the tree unless that is too small to be worth keeping. */
    method RemoveTreeNode(p: TreeNode) returns (tooSmall: bool)
      requires Valid() && p in Elements(list)
      modifies this
      modifies Nodes(tree)`parent, Nodes(tree)`left, Nodes(tree)`right, Nodes(tree)`red, Nodes(tree)`next,
        Nodes(tree)`prev
      ensures list == Without(old(list), p) && Threaded(list, first)
      ensures tooSmall == old(TooSmall(root))
      ensures tooSmall ==> |list| < 10
      ensures !tooSmall ==> Valid()
    {
      UnlinkNode(p, Nodes(tree));
      EndOfList(list, first);
      hide IsTree, Nodes, Threaded, Without, Elements;
      if first == null {
        root := null;
        return true;
      }
      if TooSmall(root) {
        return true;
      }
      hide *;
      TakeFromTree(p, Nodes(tree));
      return false;
    }
  }
}
