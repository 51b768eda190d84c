/** Splitting a tree bin of a table into two bins of a table of twice the size, and changing a tree
    into a list (src/chashmap/map.rs). */
module TreeSplit {
  import opened Bits
  import opened BinSplit
  import opened TreeBins
  import opened TreeNodes
  import opened TreeSearch

  const UNTREEIFY_THRESHOLD := 6

  // ---- entries ----

  ghost function EntryIn(n: TreeNode): Entry
    reads n`value
  {
    Entry(n.hash, n.key, n.value)
  }

  ghost function EntriesIn(s: seq<TreeNode>): (r: seq<Entry>)
    reads s`value
    ensures |r| == |s| && forall i :: 0 <= i < |s| ==> r[i] == EntryIn(s[i])
  {
    if s == [] then [] else EntriesIn(s[..|s| - 1]) + [EntryIn(s[|s| - 1])]
  }

  lemma EntriesInAppended(s: seq<TreeNode>, n: TreeNode)
    ensures EntriesIn(s + [n]) == EntriesIn(s) + [EntryIn(n)]
  {
    assert (s + [n])[..|s|] == s;
  }

  lemma HalfAppended(es: seq<Entry>, i: nat, k: nat, up: bool)
    requires i < |es|
    ensures Half(es[..i + 1], k, up) == if GoesUp(es[i].hash, k) == up then Half(es[..i], k, up) + [es[i]]
            else Half(es[..i], k, up)
  {
    assert es[..i + 1][..i] == es[..i];
  }

  // ---- building a list of tree nodes ----

  /** A list being built, by its first and last node. */
  ghost predicate Growing(s: seq<TreeNode>, head: TreeNode?, tail: TreeNode?)
    reads Elements(s)`next, Elements(s)`prev
  {
    Threaded(s, head) && tail == At(s, |s| - 1)
  }

  lemma ElementsAppended(s: seq<TreeNode>, x: TreeNode)
    ensures Elements(s + [x]) == Elements(s) + {x}
  {
  }

  /** Links `x` to the end of a list. */
  method LinkLast(x: TreeNode, head: TreeNode?, tail: TreeNode?, ghost s: seq<TreeNode>) returns (head': TreeNode?)
    requires Growing(s, head, tail) && x !in s && x.next == null && x.prev == tail
    modifies Just(tail)`next
    ensures Growing(s + [x], head', x)
  {
    head' := head;
    if tail == null {
      head' := x;
    } else {
      tail.next := x;
    }
  }

  /** A list being built that has these entries so far. */
  ghost predicate Lists(s: seq<TreeNode>, head: TreeNode?, tail: TreeNode?, es: seq<Entry>)
    reads Elements(s)
  {
    Growing(s, head, tail) && EntriesIn(s) == es && (tail != null ==> tail in Elements(s))
  }

  /** A new node with this entry at the end of a list. */
  method CopyToEnd(entry: Entry, head: TreeNode?, tail: TreeNode?, ghost s: seq<TreeNode>, ghost es: seq<Entry>)
    returns (head': TreeNode?, x: TreeNode)
    requires Lists(s, head, tail, es)
    modifies Just(tail)`next
    ensures fresh(x) && Lists(s + [x], head', x, es + [entry]) && Elements(s + [x]) == Elements(s) + {x}
  {
    hide EntriesIn;
    x := new TreeNode(entry.hash, entry.key, entry.value, null, null);
    assert x !in s;
    x.prev := tail;
    head' := LinkLast(x, head, tail, s);
    hide Elements, Growing;
    EntriesInAppended(s, x);
    ElementsAppended(s, x);
  }

  // ---- the two lists ----

  /** Copies the nodes of a tree's list into a list for each half, in the same order, and counts them. */
  method SplitNodes(first: TreeNode?, k: nat, ghost s: seq<TreeNode>, ghost old': set<TreeNode>)
    returns (low: TreeNode?, high: TreeNode?, lowCount: nat, highCount: nat, ghost lo: seq<TreeNode>,
      ghost hi: seq<TreeNode>)
    requires Threaded(s, first) && old' == Elements(s)
    ensures Threaded(lo, low) && Threaded(hi, high) && fresh(Elements(lo) + Elements(hi)) &&
            Elements(lo) !! Elements(hi)
    ensures EntriesIn(lo) == Half(EntriesIn(s), k, false) && EntriesIn(hi) == Half(EntriesIn(s), k, true)
    ensures lowCount == |lo| && highCount == |hi|
  {
    hide Lists, Half, GoesUp, EntriesIn, At, Elements, Threaded;
    ghost var es, l: set<TreeNode>, h: set<TreeNode> := EntriesIn(s), {}, {};
    var lowTail: TreeNode?, highTail: TreeNode? := null, null;
    low, high, lowCount, highCount, lo, hi := null, null, 0, 0, [], [];
    var e := first;
    ghost var i := 0;
    StartOfSplit(es, k);
    EndOfList(s, first);
    while e != null
      invariant 0 <= i <= |s| && e == At(s, i) && Threaded(s, first) && EntriesIn(s) == es
      invariant Lists(lo, low, lowTail, Half(es[..i], k, false)) && Elements(lo) == l && fresh(l)
      invariant Lists(hi, high, highTail, Half(es[..i], k, true)) && Elements(hi) == h && fresh(h) && l !! h
      invariant lowCount == |lo| && highCount == |hi|
      decreases |s| - i
    {
      NodeOfList(s, first, i);
      HalfAppended(es, i, k, false);
      HalfAppended(es, i, k, true);
      TailIsListed(lo, low, lowTail, Half(es[..i], k, false));
      TailIsListed(hi, high, highTail, Half(es[..i], k, true));
      var x;
      var entry := Entry(e.hash, e.key, e.value);
      if !GoesUp(e.hash, k) {
        low, x := CopyToEnd(entry, low, lowTail, lo, Half(es[..i], k, false));
        lowTail, lo, l, lowCount := x, lo + [x], l + {x}, lowCount + 1;
      } else {
        high, x := CopyToEnd(entry, high, highTail, hi, Half(es[..i], k, true));
        highTail, hi, h, highCount := x, hi + [x], h + {x}, highCount + 1;
      }
      e := e.next;
      i := i + 1;
    }
    EndOfSplit(lo, low, lowTail, es, i, k, false, s);
    EndOfSplit(hi, high, highTail, es, i, k, true, s);
  }

  lemma StartOfSplit(es: seq<Entry>, k: nat)
    ensures Lists([], null, null, Half(es[..0], k, false)) && Lists([], null, null, Half(es[..0], k, true)) &&
            Elements([]) == {}
  {
  }

  lemma NodeOfList(s: seq<TreeNode>, first: TreeNode?, i: nat)
    requires Threaded(s, first) && At(s, i) != null
    ensures i < |s| && At(s, i) == s[i] && s[i].next == At(s, i + 1) && EntriesIn(s)[i] == EntryIn(s[i]) &&
            s[i] in Elements(s)
  {
  }

  lemma TailIsListed(s: seq<TreeNode>, head: TreeNode?, tail: TreeNode?, es: seq<Entry>)
    requires Lists(s, head, tail, es)
    ensures tail != null ==> tail in Elements(s)
  {
  }

  lemma EndOfSplit(l: seq<TreeNode>, head: TreeNode?, tail: TreeNode?, es: seq<Entry>, i: nat, k: nat, up: bool,
                   s: seq<TreeNode>)
    requires i <= |es| == |s| && At(s, i) == null && Lists(l, head, tail, Half(es[..i], k, up))
    ensures Threaded(l, head) && EntriesIn(l) == Half(es, k, up)
  {
    assert es[..i] == es;
  }

  // ---- from a tree to a list, and back ----

  ghost function JustOne(n: BinNode?): set<BinNode> {
    if n == null then {} else {n}
  }

  /** A plain list being built, by its first and last node. */
  ghost predicate GrowingList(s: seq<BinNode>, head: BinNode?, tail: BinNode?)
    reads s`next
  {
    IsList(s, head) && tail == NodeAt(s, |s| - 1) && forall i, j :: 0 <= i < j < |s| ==> s[i] != s[j]
  }

  ghost predicate PlainLists(s: seq<BinNode>, head: BinNode?, tail: BinNode?, es: seq<Entry>)
    reads s
  {
    GrowingList(s, head, tail) && EntriesOf(s) == es
  }

  lemma EntriesOfAppended(s: seq<BinNode>, n: BinNode)
    ensures EntriesOf(s + [n]) == EntriesOf(s) + [EntryOf(n)]
  {
  }

  method LinkListLast(n: BinNode, head: BinNode?, tail: BinNode?, ghost s: seq<BinNode>) returns (head': BinNode?)
    requires GrowingList(s, head, tail) && n !in s && n.next == null
    modifies JustOne(tail)`next
    ensures GrowingList(s + [n], head', n)
  {
    head' := head;
    if tail == null {
      head' := n;
    } else {
      tail.next := n;
    }
  }

  method CopyToListEnd(entry: Entry, head: BinNode?, tail: BinNode?, ghost s: seq<BinNode>, ghost es: seq<Entry>)
    returns (head': BinNode?, n: BinNode)
    requires PlainLists(s, head, tail, es)
    modifies JustOne(tail)`next
    ensures fresh(n) && PlainLists(s + [n], head', n, es + [entry])
  {
    hide EntriesOf;
    n := new BinNode(entry.hash, entry.key, entry.value, null);
    assert n !in s;
    head' := LinkListLast(n, head, tail, s);
    EntriesOfAppended(s, n);
  }

  /** The nodes of a tree as a plain list, in the same order. */
  method Untreeify(first: TreeNode?, ghost s: seq<TreeNode>, ghost old': set<TreeNode>)
                   returns (head: BinNode?, ghost l: seq<BinNode>)
    requires Threaded(s, first) && old' == Elements(s)
    ensures IsList(l, head) && EntriesOf(l) == EntriesIn(s) && forall n <- l :: fresh(n)
  {
    hide PlainLists, EntriesIn, At, Elements, Threaded, EntriesOf, IsList;
    ghost var es := EntriesIn(s);
    var tail: BinNode? := null;
    head, l := null, [];
    var q := first;
    ghost var i := 0;
    StartOfPlain();
    EndOfList(s, first);
    while q != null
      invariant 0 <= i <= |s| && q == At(s, i) && Threaded(s, first) && EntriesIn(s) == es
      invariant PlainLists(l, head, tail, es[..i]) && (tail != null ==> tail in l) && forall n <- l :: fresh(n)
      decreases |s| - i
    {
      NodeOfList(s, first, i);
      assert es[..i + 1] == es[..i] + [es[i]];
      head, tail := CopyToListEnd(Entry(q.hash, q.key, q.value), head, tail, l, es[..i]);
      l := l + [tail];
      q := q.next;
      i := i + 1;
    }
    EndOfPlain(l, head, tail, es, i, s);
  }

  lemma StartOfPlain()
    ensures PlainLists([], null, null, [])
  {
  }

  lemma EndOfPlain(l: seq<BinNode>, head: BinNode?, tail: BinNode?, es: seq<Entry>, i: nat, s: seq<TreeNode>)
    requires i <= |es| == |s| && At(s, i) == null && PlainLists(l, head, tail, es[..i])
    ensures IsList(l, head) && EntriesOf(l) == es
  {
    assert es[..i] == es;
  }

  // ---- distinct keys ----

  ghost predicate DistinctEntries(es: seq<Entry>) {
    forall i, j :: 0 <= i < j < |es| ==> !(es[i].hash == es[j].hash && es[i].key == es[j].key)
  }

  lemma {:induction false} HalfIsDistinct(es: seq<Entry>, k: nat, up: bool)
    requires DistinctEntries(es)
    ensures DistinctEntries(Half(es, k, up))
  {
    if es != [] {
      var n := |es| - 1;
      HalfIsDistinct(es[..n], k, up);
      forall e <- Half(es[..n], k, up)
        ensures !(e.hash == es[n].hash && e.key == es[n].key)
      {
        var i :| 0 <= i < n && es[..n][i] == e;
        assert es[i] == e;
      }
    }
    hide GoesUp;
  }

  lemma DistinctNodes(s: seq<TreeNode>)
    ensures DistinctKeys(s) <==> DistinctEntries(EntriesIn(s))
  {
    var es := EntriesIn(s);
    assert forall i :: 0 <= i < |s| ==> es[i] == EntryIn(s[i]);
    hide EntriesIn;
  }

  lemma InSorted(t: Tree, m: TreeNode, n: TreeNode)
    requires Sorted(Inorder(t)) && m in Nodes(t) && n in Nodes(t) && m != n
    ensures !Matches(m, n.hash, n.key)
  {
    NodesOfInorder(t);
    var i :| 0 <= i < |Inorder(t)| && Inorder(t)[i] == m;
    var j :| 0 <= j < |Inorder(t)| && Inorder(t)[j] == n;
    hide Inorder;
  }

  lemma ListOfBinIsDistinct(bin: TreeBin)
    requires bin.Valid()
    ensures DistinctKeys(bin.list)
  {
    forall i, j | 0 <= i < j < |bin.list|
      ensures !Matches(bin.list[i], bin.list[j].hash, bin.list[j].key)
    {
      assert bin.list[i] in Elements(bin.list) && bin.list[j] in Elements(bin.list);
      InSorted(bin.tree, bin.list[i], bin.list[j]);
    }
  }

  // ---- the new bins ----

  datatype NewBin = Linear(first: BinNode?) | InTree(bin: TreeBin)

  ghost predicate ListHas(first: BinNode?, l: seq<BinNode>, es: seq<Entry>)
    reads l`next, l`value
  {
    IsList(l, first) && EntriesOf(l) == es
  }

  ghost predicate TreeHas(bin: TreeBin, ns: set<TreeNode>, es: seq<Entry>)
    reads bin`root, bin`first, bin`tree, bin`list, ns
  {
    Nodes(bin.tree) == ns && Elements(bin.list) == ns && bin.Valid() && EntriesIn(bin.list) == es
  }

  /** The bin is a list with these entries, its nodes those of `l`, or a valid tree with them, its
      nodes those of `ns`. */
  ghost predicate HasEntries(b: NewBin, l: seq<BinNode>, ns: set<TreeNode>, es: seq<Entry>)
    reads l`next, l`value, if b.InTree? then {b.bin} else {}, ns
  {
    if b.Linear? then ListHas(b.first, l, es) else TreeHas(b.bin, ns, es)
  }

  /** A half, as a list of nodes of its own, in a table that is not the old bin's. */
  ghost predicate OwnHalf(half: TreeNode?, count: nat, s: seq<TreeNode>, mine: set<TreeNode>, es: seq<Entry>)
    reads mine, Elements(s)
  {
    mine == Elements(s) && Threaded(s, half) && DistinctKeys(s) && count == |s| && EntriesIn(s) == es
  }

  /** The bin for one half: a list if it is short, the old tree if the other half is empty, and a
      new tree if not. */
  method HalfBin(half: TreeNode?, count: nat, other: nat, bin: TreeBin, ghost s: seq<TreeNode>,
                 ghost mine: set<TreeNode>, ghost es: seq<Entry>,
                 ghost old': seq<Entry>, ghost all: set<TreeNode>)
    returns (b: NewBin, ghost l: seq<BinNode>, ghost ns: set<TreeNode>)
    requires OwnHalf(half, count, s, mine, es) && TreeHas(bin, all, old') && mine !! all
    requires count > UNTREEIFY_THRESHOLD && other == 0 ==> old' == es
    modifies mine`parent, mine`left, mine`right, mine`red
    ensures HasEntries(b, l, ns, es) && TreeHas(bin, all, old')
    ensures b.InTree? <==> count > UNTREEIFY_THRESHOLD
    ensures (b.InTree? ==> b.bin == bin || fresh(b.bin)) && forall n <- l :: fresh(n)
    ensures ns == if count <= UNTREEIFY_THRESHOLD then {} else if other != 0 then mine else all
  {
    hide Threaded, DistinctKeys, EntriesIn, IsList, EntriesOf, Nodes, Elements, IsTree;
    l, ns := [], {};
    if count <= UNTREEIFY_THRESHOLD {
      var first;
      first, l := Untreeify(half, s, mine);
      b := Linear(first);
    } else if other != 0 {
      var new' := new TreeBin(half, s);
      b, ns := InTree(new'), mine;
    } else {
      b, ns := InTree(bin), all;
    }
  }

  /** When nothing goes the other way, a half is all there is. */
  lemma {:induction false} HalfIsAll(es: seq<Entry>, k: nat, up: bool)
    requires Half(es, k, !up) == []
    ensures Half(es, k, up) == es
  {
    if es != [] {
      var n := |es| - 1;
      assert Half(es[..n], k, !up) == [];
      HalfIsAll(es[..n], k, up);
      assert es == es[..n] + [es[n]];
    }
  }

  /** The bin for the second half, beside the first. */
  method OtherHalfBin(half: TreeNode?, count: nat, other: nat, bin: TreeBin, ghost s: seq<TreeNode>,
                      ghost mine: set<TreeNode>, ghost es: seq<Entry>,
                      ghost old': seq<Entry>, ghost all: set<TreeNode>,
                      ghost b0: NewBin, ghost l0: seq<BinNode>, ghost ns0: set<TreeNode>, ghost es0: seq<Entry>)
    returns (b: NewBin, ghost l: seq<BinNode>, ghost ns: set<TreeNode>)
    requires OwnHalf(half, count, s, mine, es) && TreeHas(bin, all, old') && mine !! all
    requires count > UNTREEIFY_THRESHOLD && other == 0 ==> old' == es
    requires HasEntries(b0, l0, ns0, es0) && ns0 !! mine
    modifies mine`parent, mine`left, mine`right, mine`red
    ensures HasEntries(b, l, ns, es) && TreeHas(bin, all, old') && HasEntries(b0, l0, ns0, es0)
    ensures (b.InTree? <==> count > UNTREEIFY_THRESHOLD) && forall n <- l :: fresh(n)
    ensures ns == if count <= UNTREEIFY_THRESHOLD then {} else if other != 0 then mine else all
  {
    hide OwnHalf, TreeHas, ListHas;
    b, l, ns := HalfBin(half, count, other, bin, s, mine, es, old', all);
  }

  /** Both bins, one after the other. */
  method HalfBins(low: TreeNode?, high: TreeNode?, lowCount: nat, highCount: nat, bin: TreeBin, ghost k: nat,
                  ghost es: seq<Entry>,
                  ghost lo: seq<TreeNode>, ghost hi: seq<TreeNode>, ghost l: set<TreeNode>, ghost h: set<TreeNode>,
                    ghost all: set<TreeNode>)
    returns (lowBin: NewBin, highBin: NewBin, ghost ll: seq<BinNode>, ghost hh: seq<BinNode>, ghost ln: set<TreeNode>,
      ghost hn: set<TreeNode>)
    requires OwnHalf(low, lowCount, lo, l, Half(es, k, false)) && OwnHalf(high, highCount, hi, h, Half(es, k, true))
    requires TreeHas(bin, all, es) && l !! h && l !! all && h !! all
    modifies l`parent, l`left, l`right, l`red, h`parent, h`left, h`right, h`red
    ensures HasEntries(lowBin, ll, ln, Half(es, k, false)) && HasEntries(highBin, hh, hn, Half(es, k, true)) &&
            TreeHas(bin, all, es)
    ensures lowBin.InTree? <==> lowCount > UNTREEIFY_THRESHOLD
    ensures highBin.InTree? <==> highCount > UNTREEIFY_THRESHOLD
    ensures Unshared(ll, hh) && ln !! hn
  {
    hide OwnHalf, TreeHas, ListHas, HasEntries, Half, Elements, Threaded, DistinctKeys, EntriesIn, Nodes;
    HalfCounts(low, lowCount, lo, l, Half(es, k, false));
    HalfCounts(high, highCount, hi, h, Half(es, k, true));
    if highCount == 0 {
      HalfIsAll(es, k, false);
    }
    if lowCount == 0 {
      HalfIsAll(es, k, true);
    }
    lowBin, ll, ln := HalfBin(low, lowCount, highCount, bin, lo, l, Half(es, k, false), es, all);
    highBin, hh, hn := OtherHalfBin(high, highCount, lowCount, bin, hi, h, Half(es, k, true), es, all, lowBin, ll, ln,
      Half(es, k, false));
  }

  lemma HalfCounts(half: TreeNode?, count: nat, s: seq<TreeNode>, mine: set<TreeNode>, es: seq<Entry>)
    requires OwnHalf(half, count, s, mine, es)
    ensures Elements(s) == mine && (count == 0 <==> es == [])
  {
  }

  lemma OwnHalves(low: TreeNode?, high: TreeNode?, lo: seq<TreeNode>, hi: seq<TreeNode>, es: seq<Entry>, k: nat)
    requires Threaded(lo, low) && Threaded(hi, high) && DistinctEntries(es)
    requires EntriesIn(lo) == Half(es, k, false) && EntriesIn(hi) == Half(es, k, true)
    ensures OwnHalf(low, |lo|, lo, Elements(lo), Half(es, k, false)) &&
            OwnHalf(high, |hi|, hi, Elements(hi), Half(es, k, true))
    ensures |lo| == |Half(es, k, false)| && |hi| == |Half(es, k, true)|
  {
    hide Threaded, EntriesIn, Half, Elements, DistinctKeys, DistinctEntries;
    HalfIsDistinct(es, k, false);
    HalfIsDistinct(es, k, true);
    DistinctNodes(lo);
    DistinctNodes(hi);
  }

  lemma BinIsDistinct(bin: TreeBin)
    requires bin.Valid()
    ensures DistinctEntries(EntriesIn(bin.list)) && Threaded(bin.list, bin.first)
    ensures TreeHas(bin, Nodes(bin.tree), EntriesIn(bin.list))
  {
    hide IsTree, Threaded, Elements, Nodes;
    ListOfBinIsDistinct(bin);
    DistinctNodes(bin.list);
  }

  /** Splits a tree bin in two bins.  Neither half loses, gains or reorders an entry, a half is a
      tree if it has more than six, and the old bin is left as it was. */
  method SplitTree(bin: TreeBin, k: nat, ghost all: set<TreeNode>)
    returns (low: NewBin, high: NewBin, ghost ll: seq<BinNode>, ghost hh: seq<BinNode>, ghost ln: set<TreeNode>,
      ghost hn: set<TreeNode>)
    requires bin.Valid() && all == Nodes(bin.tree)
    ensures HasEntries(low, ll, ln, Half(old(EntriesIn(bin.list)), k, false))
    ensures HasEntries(high, hh, hn, Half(old(EntriesIn(bin.list)), k, true))
    ensures low.InTree? <==> |Half(old(EntriesIn(bin.list)), k, false)| > UNTREEIFY_THRESHOLD
    ensures high.InTree? <==> |Half(old(EntriesIn(bin.list)), k, true)| > UNTREEIFY_THRESHOLD
    ensures TreeHas(bin, all, old(EntriesIn(bin.list)))
    ensures Unshared(ll, hh) && ln !! hn
    ensures var es := old(EntriesIn(bin.list)); forall i | AllIn(es, k, i) ::
            IsSplit(es, Half(es, k, false), Half(es, k, true), k, i)
  {
    hide IsSplit, AllIn, TreeHas, ListHas, OwnHalf, Half, Elements, Threaded, DistinctEntries, EntriesIn, Nodes;
    BinIsDistinct(bin);
    ghost var es := EntriesIn(bin.list);
    ElementsOfBin(bin, all);
    var lowNodes, highNodes, lowCount, highCount;
    ghost var lo, hi;
    lowNodes, highNodes, lowCount, highCount, lo, hi := SplitNodes(bin.first, k, bin.list, all);
    OwnHalves(lowNodes, highNodes, lo, hi, es, k);
    low, high, ll, hh, ln, hn := HalfBins(lowNodes, highNodes, lowCount, highCount, bin, k, es, lo, hi, Elements(lo),
      Elements(hi), all);
    forall i | AllIn(es, k, i)
      ensures IsSplit(es, Half(es, k, false), Half(es, k, true), k, i)
    {
      HalvesAreSplit(es, k, i);
    }
  }

  lemma ElementsOfBin(bin: TreeBin, all: set<TreeNode>)
    requires bin.Valid() && all == Nodes(bin.tree)
    ensures Elements(bin.list) == all
  {
  }

  // ---- from a list to a tree ----

  lemma NodeOfPlain(s: seq<BinNode>, first: BinNode?, i: nat)
    requires IsList(s, first) && NodeAt(s, i) != null
    ensures i < |s| && NodeAt(s, i) == s[i] && s[i].next == NodeAt(s, i + 1) && EntriesOf(s)[i] == EntryOf(s[i]) &&
            s[i] in s
  {
  }

  lemma EndOfTreeify(l: seq<TreeNode>, head: TreeNode?, tail: TreeNode?, es: seq<Entry>, i: nat, s: seq<BinNode>)
    requires i <= |es| == |s| && NodeAt(s, i) == null && Lists(l, head, tail, es[..i])
    ensures Threaded(l, head) && EntriesIn(l) == es
  {
    assert es[..i] == es;
  }

  lemma StartOfTreeify()
    ensures Lists([], null, null, []) && Elements([]) == {}
  {
  }

  /** A list with distinct keys as a tree bin, its list in the same order. */
  method Treeify(first: BinNode?, ghost s: seq<BinNode>) returns (bin: TreeBin)
    requires IsList(s, first) && DistinctEntries(EntriesOf(s))
    ensures bin.Valid() && fresh(bin) && EntriesIn(bin.list) == EntriesOf(s)
  {
    hide Lists, EntriesIn, NodeAt, Elements, Threaded, EntriesOf, DistinctEntries, DistinctKeys;
    ghost var es, mine: set<TreeNode>, l: seq<TreeNode> := EntriesOf(s), {}, [];
    var head: TreeNode?, tail: TreeNode? := null, null;
    var e := first;
    ghost var i := 0;
    StartOfTreeify();
    StartOfPlainList(s, first);
    while e != null
      invariant 0 <= i <= |s| && e == NodeAt(s, i) && IsList(s, first) && EntriesOf(s) == es
      invariant Lists(l, head, tail, es[..i]) && Elements(l) == mine && fresh(mine)
      decreases |s| - i
    {
      NodeOfPlain(s, first, i);
      TailIsListed(l, head, tail, es[..i]);
      assert es[..i + 1] == es[..i] + [es[i]];
      head, tail := CopyToEnd(Entry(e.hash, e.key, e.value), head, tail, l, es[..i]);
      l, mine := l + [tail], mine + {tail};
      e := e.next;
      i := i + 1;
    }
    EndOfTreeify(l, head, tail, es, i, s);
    DistinctNodes(l);
    bin := new TreeBin(head, l);
  }

  lemma StartOfPlainList(s: seq<BinNode>, first: BinNode?)
    requires IsList(s, first)
    ensures first == NodeAt(s, 0)
  {
  }
}
