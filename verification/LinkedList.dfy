/** The doubly linked list (src/svalue/linked_list.rs). */
module LinkedLists {
  import opened Options

  class Node<T> {
    var next: Node?<T>
    var prev: Node?<T>
    var element: T

    constructor (element: T)
      ensures this.element == element && next == null && prev == null
    {
      this.element, next, prev := element, null, null;
    }
  }

  // ---- chains ----

  ghost function First<T>(s: seq<Node<T>>, other: Node?<T>): Node?<T> {
    if s == [] then other else s[0]
  }

  ghost function Last<T>(s: seq<Node<T>>, other: Node?<T>): Node?<T> {
    if s == [] then other else s[|s| - 1]
  }

  /** What is behind number `i`, and in front of it. */
  ghost function Behind<T>(s: seq<Node<T>>, i: nat, next: Node?<T>): Node?<T> {
    if i + 1 < |s| then s[i + 1] else next
  }

  ghost function InFront<T>(s: seq<Node<T>>, i: nat, prev: Node?<T>): Node?<T> {
    if 0 < i <= |s| then s[i - 1] else prev
  }

  ghost predicate Distinct<T>(s: seq<Node<T>>) {
    forall i, j | 0 <= i < j < |s| :: s[i] != s[j]
  }

  /** Each node leads to the one behind it, and back to the one in front of it; the first one back to
      `prev` and the last one to `next`. */
  ghost predicate Segment<T>(s: seq<Node<T>>, prev: Node?<T>, next: Node?<T>)
    reads s`next, s`prev
  {
    Distinct(s) && forall i | 0 <= i < |s| :: s[i].next == Behind(s, i, next) && s[i].prev == InFront(s, i, prev)
  }

  ghost predicate Apart<T>(a: seq<Node<T>>, b: seq<Node<T>>) {
    forall i, j | 0 <= i < |a| && 0 <= j < |b| :: a[i] != b[j]
  }

  lemma BothDistinct<T>(a: seq<Node<T>>, b: seq<Node<T>>)
    ensures Distinct(a + b) <==> Distinct(a) && Distinct(b) && Apart(a, b)
  {
    var s := a + b;
    if Distinct(s) {
      forall i, j | 0 <= i < j < |a|
        ensures a[i] != a[j]
      {
        assert s[i] != s[j];
      }
      forall i, j | 0 <= i < j < |b|
        ensures b[i] != b[j]
      {
        assert s[|a| + i] != s[|a| + j];
      }
      forall i, j | 0 <= i < |a| && 0 <= j < |b|
        ensures a[i] != b[j]
      {
        assert s[i] != s[|a| + j];
      }
    }
    if Distinct(a) && Distinct(b) && Apart(a, b) {
      forall i, j | 0 <= i < j < |s|
        ensures s[i] != s[j]
      {
        if j < |a| {
          assert a[i] != a[j];
        } else if i < |a| {
          assert a[i] != b[j - |a|];
        } else {
          assert b[i - |a|] != b[j - |a|];
        }
      }
    }
  }

  lemma Around<T>(a: seq<Node<T>>, b: seq<Node<T>>, prev: Node?<T>, next: Node?<T>)
    ensures forall i | 0 <= i < |a| ::
      Behind(a + b, i, next) == Behind(a, i, First(b, next)) && InFront(a + b, i, prev) == InFront(a, i, prev)
    ensures forall i | 0 <= i < |b| ::
      Behind(a + b, |a| + i, next) == Behind(b, i, next) &&
        InFront(a + b, |a| + i, prev) == InFront(b, i, Last(a, prev))
  {
  }

  /** Two chains that lead to each other are one. */
  lemma Join<T>(a: seq<Node<T>>, b: seq<Node<T>>, prev: Node?<T>, next: Node?<T>)
    requires Segment(a, prev, First(b, next)) && Segment(b, Last(a, prev), next) && Apart(a, b)
    ensures Segment(a + b, prev, next)
  {
    BothDistinct(a, b);
    Around(a, b, prev, next);
    hide Distinct, Apart, Behind, InFront, First, Last;
    var s := a + b;
    forall i | 0 <= i < |s|
      ensures s[i].next == Behind(s, i, next) && s[i].prev == InFront(s, i, prev)
    {
      if i >= |a| {
        var j := i - |a|;
        assert s[i] == b[j] && i == |a| + j;
      }
    }
  }

  /** A chain may be cut anywhere. */
  lemma Cut<T>(a: seq<Node<T>>, b: seq<Node<T>>, prev: Node?<T>, next: Node?<T>)
    requires Segment(a + b, prev, next)
    ensures Segment(a, prev, First(b, next)) && Segment(b, Last(a, prev), next) && Apart(a, b)
  {
    BothDistinct(a, b);
    Around(a, b, prev, next);
    hide Distinct, Apart, Behind, InFront, First, Last;
    var s := a + b;
    forall i | 0 <= i < |a|
      ensures a[i].next == Behind(a, i, First(b, next)) && a[i].prev == InFront(a, i, prev)
    {
      assert s[i] == a[i];
    }
    forall i | 0 <= i < |b|
      ensures b[i].next == Behind(b, i, next) && b[i].prev == InFront(b, i, Last(a, prev))
    {
      var j := |a| + i;
      assert s[j] == b[i];
    }
  }

  /** Gives the last node of a chain another one to lead to. */
  method SetNext<T>(n: Node<T>, next: Node?<T>, ghost s: seq<Node<T>>, ghost prev: Node?<T>, ghost old': Node?<T>)
    requires Segment(s, prev, old') && s != [] && n == s[|s| - 1]
    modifies n`next
    ensures Segment(s, prev, next)
  {
    n.next := next;
  }

  /** Gives the first node of a chain another one to lead back to. */
  method SetPrev<T>(n: Node<T>, prev: Node?<T>, ghost s: seq<Node<T>>, ghost next: Node?<T>, ghost old': Node?<T>)
    requires Segment(s, old', next) && s != [] && n == s[0]
    modifies n`prev
    ensures Segment(s, prev, next)
  {
    n.prev := prev;
  }

  ghost function ElementsOf<T>(s: seq<Node<T>>): (r: seq<T>)
    reads s`element
    ensures |r| == |s| && forall i | 0 <= i < |s| :: r[i] == s[i].element
  {
    if s == [] then [] else ElementsOf(s[..|s| - 1]) + [s[|s| - 1].element]
  }

  lemma ElementsOfBoth<T>(a: seq<Node<T>>, b: seq<Node<T>>)
    ensures ElementsOf(a + b) == ElementsOf(a) + ElementsOf(b)
  {
    hide ElementsOf;
  }

  lemma AloneIs<T>(n: Node<T>)
    ensures Segment([n], n.prev, n.next) && ElementsOf([n]) == [n.element]
  {
  }

  lemma NewIsApart<T>(s: seq<Node<T>>, n: Node<T>)
    requires n !in s
    ensures Apart(s, [n]) && Apart([n], s)
  {
  }

  /** How setting an element ends: done, refused by an assertion, or without a node to set. */
  datatype Setting = Done | Refused | Failed

  class LinkedList<T> {
    var head: Node?<T>
    var tail: Node?<T>
    var len: nat
    ghost var nodes: seq<Node<T>>

    ghost predicate Valid()
      reads this, nodes`next, nodes`prev
    {
      Segment(nodes, null, null) && head == First(nodes, null) && tail == Last(nodes, null) && len == |nodes|
    }

    ghost function Elements(): seq<T>
      reads this, nodes`element
    {
      ElementsOf(nodes)
    }

    constructor ()
      ensures Valid() && nodes == []
    {
      head, tail, len, nodes := null, null, 0, [];
    }

    // ---- the ends ----

    method PushFront(elt: T)
      requires Valid()
      modifies this, nodes`prev
      ensures Valid() && |nodes| > 0 && fresh(nodes[0]) && nodes == [nodes[0]] + old(nodes)
      ensures Elements() == [elt] + old(Elements())
    {
      hide Segment, ElementsOf, First, Last;
      var node := new Node(elt);
      node.next := head;
      node.prev := null;
      LinkFirst(node);
    }

    /** Links a node in front, once it leads to the head. */
    method LinkFirst(node: Node<T>)
      requires Valid() && node !in nodes && node.next == head && node.prev == null
      modifies this, nodes`prev
      ensures Valid() && nodes == [node] + old(nodes) && Elements() == [node.element] + old(Elements())
    {
      hide Segment, ElementsOf, Distinct, Behind, InFront, Apart;
      AloneIs(node);
      NewIsApart(nodes, node);
      if head == null {
        NoNodes(nodes, node, null);
        tail := node;
      } else {
        SetPrev(head, node, nodes, null, null);
      }
      Join([node], nodes, null, null);
      ElementsOfBoth([node], nodes);
      head, len, nodes := node, len + 1, [node] + nodes;
    }

    method PushBack(elt: T)
      requires Valid()
      modifies this, nodes`next
      ensures Valid() && |nodes| > 0 && fresh(nodes[|nodes| - 1]) && nodes == old(nodes) + [nodes[|nodes| - 1]]
      ensures Elements() == old(Elements()) + [elt]
    {
      hide Segment, ElementsOf, First, Last;
      var node := new Node(elt);
      node.next := null;
      node.prev := tail;
      LinkLast(node);
    }

    /** Links a node behind, once it leads back to the tail. */
    method LinkLast(node: Node<T>)
      requires Valid() && node !in nodes && node.next == null && node.prev == tail
      modifies this, nodes`next
      ensures Valid() && nodes == old(nodes) + [node] && Elements() == old(Elements()) + [node.element]
    {
      hide Segment, ElementsOf, Distinct, Behind, InFront, Apart;
      AloneIs(node);
      NewIsApart(nodes, node);
      if tail == null {
        NoNodes(nodes, null, node);
        head := node;
      } else {
        SetNext(tail, node, nodes, null, null);
      }
      Join(nodes, [node], null, null);
      ElementsOfBoth(nodes, [node]);
      tail, len, nodes := node, len + 1, nodes + [node];
    }

    method PopFront() returns (r: Option<T>)
      requires Valid()
      modifies this, nodes`prev
      ensures Valid() && if old(nodes) == [] then r == None && nodes == []
              else nodes == old(nodes)[1..] && r == Some(old(nodes)[0].element)
    {
      hide Segment, ElementsOf, Distinct, Behind, InFront;
      if head == null {
        return None;
      }
      var node := head;
      assert nodes == [nodes[0]] + nodes[1..];
      Cut([nodes[0]], nodes[1..], null, null);
      Alone(node, null, First(nodes[1..], null));
      head := node.next;
      if head == null {
        NoNodes(nodes[1..], null, null);
        tail := null;
      } else {
        SetPrev(head, null, nodes[1..], null, node);
      }
      len, nodes := len - 1, nodes[1..];
      return Some(node.element);
    }

    method PopBack() returns (r: Option<T>)
      requires Valid()
      modifies this, nodes`next
      ensures Valid()
      ensures var n := |old(nodes)| - 1;
              if old(nodes) == [] then r == None && nodes == []
                else nodes == old(nodes)[..n] && r == Some(old(nodes)[n].element)
    {
      hide Segment, ElementsOf, Distinct, Behind, InFront;
      if tail == null {
        return None;
      }
      var node := tail;
      ghost var n := |nodes| - 1;
      assert nodes == nodes[..n] + [nodes[n]];
      Cut(nodes[..n], [nodes[n]], null, null);
      Alone(node, Last(nodes[..n], null), null);
      tail := node.prev;
      if tail == null {
        NoNodes(nodes[..n], null, null);
        head := null;
      } else {
        SetNext(tail, null, nodes[..n], null, node);
      }
      len, nodes := len - 1, nodes[..n];
      return Some(node.element);
    }

    // ---- in the middle ----

    /** Takes a node out of the list; its own links stay. */
    method UnlinkNode(node: Node<T>, ghost k: nat) returns (next: Node?<T>)
      requires Valid() && k < |nodes| && node == nodes[k]
      modifies this, nodes`next, nodes`prev
      ensures Valid() && nodes == old(nodes)[..k] + old(nodes)[k + 1..]
      ensures next == First(old(nodes)[k + 1..], null) && node.prev == Last(old(nodes)[..k], null)
    {
      hide Segment, ElementsOf, Distinct, Behind, InFront;
      ghost var a, b := nodes[..k], nodes[k + 1..];
      InThree(nodes, k);
      Cut(a, [node] + b, null, null);
      Cut([node], b, Last(a, null), null);
      Alone(node, Last(a, null), First(b, null));
      OuterApart(a, node, b);
      next := Bypass(node, a, b);
      Join(a, b, null, null);
      len, nodes := len - 1, a + b;
    }

    /** What is in front of a node and what is behind it come to lead to each other. */
    method Bypass(node: Node<T>, ghost a: seq<Node<T>>, ghost b: seq<Node<T>>) returns (next: Node?<T>)
      requires Segment(a, null, node) && Segment(b, node, null) && Apart(a, b) && node !in a && node !in b
      requires node.prev == Last(a, null) && node.next == First(b, null) && head == First(a, node) &&
               tail == Last(b, node)
      modifies `head, `tail, a`next, b`prev
      ensures Segment(a, null, First(b, null)) && Segment(b, Last(a, null), null) && next == First(b, null) &&
              node.prev == Last(a, null)
      ensures head == First(a, First(b, null)) && tail == Last(b, Last(a, null))
    {
      hide Segment, ElementsOf, Distinct, Behind, InFront;
      if node.prev != null {
        SetNext(node.prev, node.next, a, null, node);
      } else {
        NoNodes(a, null, node.next);
        head := node.next;
      }
      next := node.next;
      if node.next != null {
        SetPrev(next, node.prev, b, null, node);
      } else {
        NoNodes(b, node.prev, null);
        tail := node.prev;
      }
    }

    /** The node at an index, from the nearer end.  At the length itself there is none: the list has no
        tail, or the walk back from it counts below zero, where a build that checks arithmetic stops; in
        one that wraps, it goes on until it runs off the front. */
    method IndexOff(idx: nat) returns (node: Node?<T>)
      requires Valid() && idx <= len
      ensures if idx < len then node == nodes[idx] else node == null
    {
      if idx < len - idx {
        node := head;
        for i := 0 to idx
          invariant node == nodes[i]
        {
          node := node.next;
        }
      } else {
        node := tail;
        var left: int := len - 1 - idx;
        ghost var k := len;
        while node != null && left != 0
          invariant 0 <= k <= len && (node == if k > 0 then nodes[k - 1] else null)
          invariant left == k - 1 - idx && (idx < len ==> left >= 0)
          decreases k
        {
          node := node.prev;
          left, k := left - 1, k - 1;
        }
      }
    }

    /** Sets the element at an index.  The source refuses an index past the length; the length itself
        passes, and the walk for its node fails. */
    method SetOff(at: nat, elt: T) returns (r: Setting)
      requires Valid()
      modifies nodes`element
      ensures Valid() && (r.Refused? <==> at > len) && (r.Failed? <==> at == len)
      ensures Elements() == if r.Done? then old(Elements())[at := elt] else old(Elements())
    {
      if at > len {
        return Refused;
      }
      var node := IndexOff(at);
      if node == null {
        return Failed;
      }
      node.element := elt;
      hide ElementsOf;
      return Done;
    }

    // ---- filters ----

    lemma Ends()
      requires Valid()
      ensures head == At(nodes, 0) && tail == At(nodes, |nodes| - 1) && len == |nodes|
    {
    }

    /** Takes a node out. */
    method TakeOut(node: Node<T>, ghost k: nat, ghost all: set<Node<T>>)
      returns (prev: Node?<T>, next: Node?<T>)
      requires Valid() && k < |nodes| && node == nodes[k] && forall n <- nodes :: n in all
      modifies this, all`next, all`prev
      ensures Valid() && (forall n <- nodes :: n in all) && |nodes| == |old(nodes)| - 1
      ensures Elements() == old(Elements())[..k] + old(Elements())[k + 1..]
      ensures next == At(nodes, k) && prev == At(nodes, k - 1)
    {
      hide Segment, Distinct, ElementsOf;
      ElementsWithout(nodes, k);
      ghost var s := nodes;
      next := UnlinkNode(node, k);
      prev := node.prev;
      AtCut(s, k);
    }

    /** Takes out the first `n` elements that `f` wants.  With none to take out, the source still looks
        at the first element, and counts below zero if `f` wants it; that is where this stops. */
    method DeleteFirstNFilter(n: nat, f: T -> bool) returns (ok: bool)
      requires Valid()
      modifies this, nodes`next, nodes`prev
      ensures Valid() && Elements() == WithoutFirst(old(Elements()), n, f)
      ensures ok <==> n > 0 || old(nodes) == [] || !f(old(nodes)[0].element)
    {
      hide Segment, ElementsOf, Distinct, WithoutFirst, FirstDone, LinkedList.Valid;
      Ends();
      ghost var es, k, all := Elements(), 0, set m | m in nodes;
      if len == 0 {
        NothingLeft(es, n, f);
        return true;
      }
      var node, left := head, n;
      ghost var first, was := head, head.element;
      FirstBegins(es, n, f);
      while node != null
        invariant Valid() && 0 <= k <= |nodes| && node == At(nodes, k) && forall m <- nodes :: m in all
        invariant 0 < left <= n || (left == n == 0 && node == first && first.element == was)
        invariant FirstDone(es, n, Elements(), k, left, f)
        decreases |nodes| - k
      {
        if left == 0 && f(node.element) {
          FirstEnds(es, n, Elements(), k, left, f);
          return false;
        }
        FirstStep(es, n, Elements(), k, left, f);
        if f(node.element) {
          left := left - 1;
          var prev, next := TakeOut(node, k, all);
          node := next;
        } else {
          node := NextAt(node, k);
          k := k + 1;
        }
        if left == 0 {
          FirstEnds(es, n, Elements(), k, left, f);
          return true;
        }
      }
      FirstEnds(es, n, Elements(), k, left, f);
      return true;
    }

    method NextAt(node: Node<T>, ghost k: nat) returns (next: Node?<T>)
      requires Valid() && k < |nodes| && node == nodes[k]
      ensures next == At(nodes, k + 1)
    {
      next := node.next;
    }

    method PrevAt(node: Node<T>, ghost k: nat) returns (prev: Node?<T>)
      requires Valid() && k < |nodes| && node == nodes[k]
      ensures prev == At(nodes, k - 1)
    {
      prev := node.prev;
    }

    /** Takes out the last `n` elements that `f` wants, from the tail on; with none to take out, stops
        if `f` wants the last one. */
    method DeleteLastNFilter(n: nat, f: T -> bool) returns (ok: bool)
      requires Valid()
      modifies this, nodes`next, nodes`prev
      ensures Valid() && Elements() == WithoutLast(old(Elements()), n, f)
      ensures ok <==> n > 0 || old(nodes) == [] || !f(old(nodes)[|old(nodes)| - 1].element)
    {
      hide Segment, ElementsOf, Distinct, WithoutLast, LastDone, LinkedList.Valid;
      Ends();
      ghost var es, k, all := Elements(), |nodes|, set m | m in nodes;
      if len == 0 {
        NothingLeftLast(es, n, f);
        return true;
      }
      var node, left := tail, n;
      ghost var last, was := tail, tail.element;
      LastBegins(es, n, f);
      while node != null
        invariant Valid() && 0 <= k <= |nodes| && node == At(nodes, k - 1) && forall m <- nodes :: m in all
        invariant 0 < left <= n || (left == n == 0 && node == last && last.element == was)
        invariant LastDone(es, n, Elements(), k, left, f)
        decreases k
      {
        if left == 0 && f(node.element) {
          LastEnds(es, n, Elements(), k, left, f);
          return false;
        }
        LastStep(es, n, Elements(), k, left, f);
        if f(node.element) {
          left := left - 1;
          var prev, next := TakeOut(node, k - 1, all);
          node := prev;
        } else {
          node := PrevAt(node, k - 1);
        }
        k := k - 1;
        if left == 0 {
          LastEnds(es, n, Elements(), k, left, f);
          return true;
        }
      }
      LastEnds(es, n, Elements(), k, left, f);
      return true;
    }

    // ---- splitting and joining ----

    /** Moves all nodes of another list behind those of this one. */
    method Append(other: LinkedList<T>)
      requires Valid() && other.Valid() && other != this && Apart(nodes, other.nodes)
      modifies this, other, nodes`next, other.nodes`prev
      ensures Valid() && other.Valid() && nodes == old(nodes) + old(other.nodes) && other.nodes == []
    {
      hide Segment, ElementsOf, Distinct, Behind, InFront;
      NoNodes<T>([], null, null);
      if tail == null {
        head, other.head := other.head, head;
        tail, other.tail := other.tail, tail;
        len, other.len := other.len, len;
        nodes, other.nodes := other.nodes, nodes;
      } else {
        var otherHead := other.head;
        other.head := null;
        if otherHead != null {
          SetNext(tail, otherHead, nodes, null, null);
          SetPrev(otherHead, tail, other.nodes, null, null);
          Join(nodes, other.nodes, null, null);
          tail, other.tail := other.tail, null;
          len, other.len := len + other.len, 0;
          nodes, other.nodes := nodes + other.nodes, [];
        }
      }
    }

    /** Leaves the first `at` nodes, and gives the others to a new list. */
    method SplitOff(at: nat) returns (second: LinkedList<T>)
      requires Valid() && at <= len
      modifies this, nodes`next, nodes`prev
      ensures Valid() && second.Valid() && fresh(second) && nodes == old(nodes)[..at] &&
              second.nodes == old(nodes)[at..]
      ensures Apart(nodes, second.nodes)
    {
      hide Segment, ElementsOf, Distinct, Behind, InFront;
      NoNodes<T>([], null, null);
      second := new LinkedList();
      if at == 0 {
        second.head, second.tail, second.len, second.nodes := head, tail, len, nodes;
        head, tail, len, nodes := null, null, 0, [];
        return;
      } else if at == len {
        return;
      }
      var splitNode := IndexOffOf(at - 1);
      CutBehind(splitNode, at, second);
    }

    method CutBehind(splitNode: Node<T>, at: nat, second: LinkedList<T>)
      requires Valid() && 0 < at < len && splitNode == nodes[at - 1] && second != this
      modifies this, second, nodes`next, nodes`prev
      ensures Valid() && second.Valid() && nodes == old(nodes)[..at] && second.nodes == old(nodes)[at..] &&
              Apart(nodes, second.nodes)
    {
      hide Segment, ElementsOf, Distinct, Behind, InFront;
      ghost var a, b := nodes[..at], nodes[at..];
      assert nodes == a + b;
      Cut(a, b, null, null);
      NextOfLast(a, null, First(b, null));
      var secondHead := splitNode.next;
      CutLinks(splitNode, secondHead, a, b);
      second.head, second.tail, second.len, second.nodes := secondHead, tail, len - at, b;
      tail, len, nodes := splitNode, at, a;
    }

    /** Two chains that lead to each other come to be apart. */
    method CutLinks(last: Node<T>, first: Node?<T>, ghost a: seq<Node<T>>, ghost b: seq<Node<T>>)
      requires Segment(a, null, First(b, null)) && Segment(b, Last(a, null), null) && Apart(a, b)
      requires a != [] && last == a[|a| - 1] && first == First(b, null)
      modifies a`next, b`prev
      ensures Segment(a, null, null) && Segment(b, null, null)
    {
      hide Segment, ElementsOf, Distinct, Behind, InFront;
      SetNext(last, null, a, null, First(b, null));
      if first != null {
        SetPrev(first, null, b, null, Last(a, null));
      } else {
        NoNodes(b, null, null);
      }
    }

    /** The node at an index, from the nearer end, as the splitting finds it. */
    method IndexOffOf(idx: nat) returns (node: Node<T>)
      requires Valid() && idx < len
      ensures node == nodes[idx]
    {
      if idx < len - 1 - idx {
        node := head;
        for i := 0 to idx
          invariant node == nodes[i]
        {
          node := node.next;
        }
      } else {
        node := tail;
        for i := 0 to len - 1 - idx
          invariant node == nodes[len - 1 - i]
        {
          node := node.prev;
        }
      }
    }
  }

  /** `es` without the first `n` elements that `f` wants. */
  function WithoutFirst<T>(es: seq<T>, n: nat, f: T -> bool): seq<T> {
    if es == [] || n == 0 then es
    else if f(es[0]) then WithoutFirst(es[1..], n - 1, f)
    else [es[0]] + WithoutFirst(es[1..], n, f)
  }

  /** `es` without the last `n` elements that `f` wants. */
  function WithoutLast<T>(es: seq<T>, n: nat, f: T -> bool): seq<T> {
    var k := |es| - 1;
    if es == [] || n == 0 then es
    else if f(es[k]) then WithoutLast(es[..k], n - 1, f)
    else WithoutLast(es[..k], n, f) + [es[k]]
  }

  lemma ElementsWithout<T>(s: seq<Node<T>>, k: nat)
    requires k < |s|
    ensures ElementsOf(s[..k] + s[k + 1..]) == ElementsOf(s)[..k] + ElementsOf(s)[k + 1..]
  {
    hide ElementsOf;
  }

  lemma AtCut<T>(s: seq<Node<T>>, k: nat)
    requires k < |s|
    ensures var r := s[..k] + s[k + 1..];
            First(s[k + 1..], null) == At(r, k) && Last(s[..k], null) == At(r, k - 1) && |r| == |s| - 1 &&
              forall n <- r :: n in s
  {
  }

  /** While the first elements are being taken out of `es`: what is left of it, `now`, is done up to
      number `k`, with `left` to take out. */
  ghost predicate FirstDone<T>(es: seq<T>, n: nat, now: seq<T>, k: nat, left: nat, f: T -> bool) {
    k <= |now| && WithoutFirst(es, n, f) == now[..k] + WithoutFirst(now[k..], left, f)
  }

  lemma FirstBegins<T>(es: seq<T>, n: nat, f: T -> bool)
    ensures FirstDone(es, n, es, 0, n, f)
  {
    assert es[..0] == [] && es[0..] == es;
  }

  lemma FirstStep<T>(es: seq<T>, n: nat, now: seq<T>, k: nat, left: nat, f: T -> bool)
    requires FirstDone(es, n, now, k, left, f) && k < |now| && (left > 0 || !f(now[k]))
    ensures if f(now[k]) then FirstDone(es, n, now[..k] + now[k + 1..], k, left - 1, f)
            else FirstDone(es, n, now, k + 1, left, f)
  {
    assert now[k..][1..] == now[k + 1..] && now[k..][0] == now[k];
    if f(now[k]) {
      var r := now[..k] + now[k + 1..];
      assert r[..k] == now[..k] && r[k..] == now[k + 1..];
    } else {
      assert now[..k + 1] == now[..k] + [now[k]];
      if left == 0 {
        assert WithoutFirst(now[k + 1..], left, f) == now[k + 1..];
      }
    }
  }

  lemma FirstEnds<T>(es: seq<T>, n: nat, now: seq<T>, k: nat, left: nat, f: T -> bool)
    requires FirstDone(es, n, now, k, left, f) && (left == 0 || k == |now|)
    ensures now == WithoutFirst(es, n, f)
  {
    assert now == now[..k] + now[k..];
  }

  lemma NothingLeft<T>(es: seq<T>, n: nat, f: T -> bool)
    requires es == []
    ensures WithoutFirst(es, n, f) == []
  {
  }

  /** The same, from the end on. */
  ghost predicate LastDone<T>(es: seq<T>, n: nat, now: seq<T>, k: nat, left: nat, f: T -> bool) {
    k <= |now| && WithoutLast(es, n, f) == WithoutLast(now[..k], left, f) + now[k..]
  }

  lemma LastBegins<T>(es: seq<T>, n: nat, f: T -> bool)
    ensures LastDone(es, n, es, |es|, n, f)
  {
    assert es[..|es|] == es && es[|es|..] == [];
    assert WithoutLast(es, n, f) + [] == WithoutLast(es, n, f);
  }

  lemma LastStep<T>(es: seq<T>, n: nat, now: seq<T>, k: nat, left: nat, f: T -> bool)
    requires LastDone(es, n, now, k, left, f) && k > 0 && (left > 0 || !f(now[k - 1]))
    ensures if f(now[k - 1]) then LastDone(es, n, now[..k - 1] + now[k..], k - 1, left - 1, f)
            else LastDone(es, n, now, k - 1, left, f)
  {
    var j := k - 1;
    assert now[..k][..j] == now[..j] && now[..k][j] == now[j];
    if f(now[j]) {
      var r := now[..j] + now[k..];
      assert r[..j] == now[..j] && r[j..] == now[k..];
    } else {
      assert now[j..] == [now[j]] + now[k..];
      if left == 0 {
        assert WithoutLast(now[..j], left, f) == now[..j];
      }
    }
  }

  lemma LastEnds<T>(es: seq<T>, n: nat, now: seq<T>, k: nat, left: nat, f: T -> bool)
    requires LastDone(es, n, now, k, left, f) && (left == 0 || k == 0)
    ensures now == WithoutLast(es, n, f)
  {
    assert now == now[..k] + now[k..];
  }

  lemma NothingLeftLast<T>(es: seq<T>, n: nat, f: T -> bool)
    requires es == []
    ensures WithoutLast(es, n, f) == []
  {
  }

  // ---- what the filters leave ----

  /** The elements that `f` wants, and those that it does not. */
  function Chosen<T>(es: seq<T>, f: T -> bool): seq<T> {
    if es == [] then [] else (if f(es[0]) then [es[0]] else []) + Chosen(es[1..], f)
  }

  function Unwanted<T>(es: seq<T>, f: T -> bool): seq<T> {
    if es == [] then [] else (if f(es[0]) then [] else [es[0]]) + Unwanted(es[1..], f)
  }

  lemma {:induction false} ChosenOfBoth<T>(a: seq<T>, b: seq<T>, f: T -> bool)
    ensures Chosen(a + b, f) == Chosen(a, f) + Chosen(b, f)
  {
    if a == [] {
      assert a + b == b;
    } else {
      ChosenOfBoth(a[1..], b, f);
      assert (a + b)[0] == a[0] && (a + b)[1..] == a[1..] + b;
      var x := if f(a[0]) then [a[0]] else [];
      Regroup(x, Chosen(a[1..], f), Chosen(b, f));
    }
  }

  lemma {:induction false} UnwantedOfBoth<T>(a: seq<T>, b: seq<T>, f: T -> bool)
    ensures Unwanted(a + b, f) == Unwanted(a, f) + Unwanted(b, f)
  {
    if a == [] {
      assert a + b == b;
    } else {
      UnwantedOfBoth(a[1..], b, f);
      assert (a + b)[0] == a[0] && (a + b)[1..] == a[1..] + b;
      var x := if f(a[0]) then [] else [a[0]];
      Regroup(x, Unwanted(a[1..], f), Unwanted(b, f));
    }
  }

  lemma Regroup<T>(a: seq<T>, b: seq<T>, c: seq<T>)
    ensures (a + b) + c == a + (b + c)
  {
  }

  lemma {:induction false} ChosenOfUnwanted<T>(es: seq<T>, f: T -> bool)
    ensures Chosen(Unwanted(es, f), f) == [] && Unwanted(Unwanted(es, f), f) == Unwanted(es, f)
  {
    if es != [] {
      ChosenOfUnwanted(es[1..], f);
      var u := Unwanted(es[1..], f);
      if f(es[0]) {
        assert Unwanted(es, f) == u;
      } else {
        assert ([es[0]] + u)[1..] == u;
      }
    }
  }

  /** Where a list is cut: in front of `k` stand `m` elements that `f` wants, or behind it. */
  ghost predicate CutsFirst<T>(es: seq<T>, m: nat, k: nat, f: T -> bool) {
    k <= |es| && |Chosen(es[..k], f)| == m
  }

  ghost predicate CutsLast<T>(es: seq<T>, m: nat, k: nat, f: T -> bool) {
    k <= |es| && |Chosen(es[k..], f)| == m
  }

  function Less(n: nat, m: nat): nat {
    if n <= m then n else m
  }

  /** The place that leaves `r` of `es`: in front of it, `m` wanted elements are taken out. */
  ghost predicate FirstCut<T>(es: seq<T>, m: nat, k: nat, f: T -> bool, r: seq<T>) {
    CutsFirst(es, m, k, f) && r == Unwanted(es[..k], f) + es[k..]
  }

  ghost predicate LastCut<T>(es: seq<T>, m: nat, k: nat, f: T -> bool, r: seq<T>) {
    CutsLast(es, m, k, f) && r == es[..k] + Unwanted(es[k..], f)
  }

  lemma FirstCutNone<T>(es: seq<T>, f: T -> bool)
    ensures FirstCut(es, 0, 0, f, es)
  {
    assert es[..0] == [] && es[0..] == es;
  }

  lemma LastCutNone<T>(es: seq<T>, f: T -> bool)
    ensures LastCut(es, 0, |es|, f, es)
  {
    assert es[..|es|] == es && es[|es|..] == [];
  }

  lemma FirstCutGrows<T>(x: T, rest: seq<T>, m: nat, k: nat, f: T -> bool, r: seq<T>)
    requires FirstCut(rest, m, k, f, r)
    ensures FirstCut([x] + rest, if f(x) then m + 1 else m, k + 1, f, if f(x) then r else [x] + r)
  {
    var es := [x] + rest;
    assert es[..k + 1] == [x] + rest[..k] && es[..k + 1][1..] == rest[..k] && es[k + 1..] == rest[k..];
  }

  lemma LastCutGrows<T>(x: T, rest: seq<T>, m: nat, k: nat, f: T -> bool, r: seq<T>)
    requires LastCut(rest, m, k, f, r)
    ensures LastCut(rest + [x], if f(x) then m + 1 else m, k, f, if f(x) then r else r + [x])
  {
    hide Chosen, Unwanted;
    var es := rest + [x];
    assert es[k..] == rest[k..] + [x] && es[..k] == rest[..k];
    ChosenOfBoth(rest[k..], [x], f);
    UnwantedOfBoth(rest[k..], [x], f);
    OneElement(x, f);
  }

  lemma OneElement<T>(x: T, f: T -> bool)
    ensures Chosen([x], f) == (if f(x) then [x] else []) && Unwanted([x], f) == if f(x) then [] else [x]
  {
    assert [x][1..] == [];
  }

  /** Taking out the first elements takes all wanted ones in front of some place, and nothing behind it:
      as many as there are, but no more than `n`. */
  lemma {:induction false} FirstIsCut<T>(es: seq<T>, n: nat, f: T -> bool)
    ensures exists k: nat :: FirstCut(es, Less(n, |Chosen(es, f)|), k, f, WithoutFirst(es, n, f))
  {
    hide FirstCut;
    if es == [] || n == 0 {
      FirstCutNone(es, f);
      NoneChosen(es, n, f);
      assert FirstCut(es, Less(n, |Chosen(es, f)|), 0, f, WithoutFirst(es, n, f));
    } else {
      var rest, n' := es[1..], if f(es[0]) then n - 1 else n;
      FirstIsCut(rest, n', f);
      var m := Less(n', |Chosen(rest, f)|);
      var k: nat :| FirstCut(rest, m, k, f, WithoutFirst(rest, n', f));
      FirstCutGrows(es[0], rest, m, k, f, WithoutFirst(rest, n', f));
      assert es == [es[0]] + rest;
      assert FirstCut(es, Less(n, |Chosen(es, f)|), k + 1, f, WithoutFirst(es, n, f));
    }
  }

  /** Taking out the last elements takes all wanted ones behind some place, and nothing in front of it. */
  lemma {:induction false} LastIsCut<T>(es: seq<T>, n: nat, f: T -> bool)
    ensures exists k: nat :: LastCut(es, Less(n, |Chosen(es, f)|), k, f, WithoutLast(es, n, f))
  {
    hide LastCut, Chosen;
    if es == [] || n == 0 {
      LastCutNone(es, f);
      NoneChosen(es, n, f);
      assert LastCut(es, Less(n, |Chosen(es, f)|), |es|, f, WithoutLast(es, n, f));
    } else {
      var j := |es| - 1;
      var rest, n' := es[..j], if f(es[j]) then n - 1 else n;
      LastIsCut(rest, n', f);
      var m := Less(n', |Chosen(rest, f)|);
      var k: nat :| LastCut(rest, m, k, f, WithoutLast(rest, n', f));
      LastCutGrows(es[j], rest, m, k, f, WithoutLast(rest, n', f));
      assert es == rest + [es[j]];
      ChosenOfBoth(rest, [es[j]], f);
      OneElement(es[j], f);
      assert LastCut(es, Less(n, |Chosen(es, f)|), k, f, WithoutLast(es, n, f));
    }
  }

  lemma NoneChosen<T>(es: seq<T>, n: nat, f: T -> bool)
    requires es == [] || n == 0
    ensures Less(n, |Chosen(es, f)|) == 0
  {
  }

  /** Of the wanted elements the first go, and the others stay in order; so do all unwanted ones. */
  lemma FirstOnesGo<T>(es: seq<T>, n: nat, f: T -> bool)
    ensures var r := WithoutFirst(es, n, f);
            Chosen(r, f) == Chosen(es, f)[Less(n, |Chosen(es, f)|)..] && Unwanted(r, f) == Unwanted(es, f)
  {
    hide Chosen, Unwanted, WithoutFirst;
    FirstIsCut(es, n, f);
    var m := Less(n, |Chosen(es, f)|);
    var k: nat :| FirstCut(es, m, k, f, WithoutFirst(es, n, f));
    assert es == es[..k] + es[k..];
    ChosenOfBoth(es[..k], es[k..], f);
    UnwantedOfBoth(es[..k], es[k..], f);
    ChosenOfBoth(Unwanted(es[..k], f), es[k..], f);
    UnwantedOfBoth(Unwanted(es[..k], f), es[k..], f);
    ChosenOfUnwanted(es[..k], f);
  }

  /** Of the wanted elements the last go, and the others stay in order; so do all unwanted ones. */
  lemma LastOnesGo<T>(es: seq<T>, n: nat, f: T -> bool)
    ensures var r, m := WithoutLast(es, n, f), |Chosen(es, f)| - Less(n, |Chosen(es, f)|);
            Chosen(r, f) == Chosen(es, f)[..m] && Unwanted(r, f) == Unwanted(es, f)
  {
    hide Chosen, Unwanted, WithoutLast;
    LastIsCut(es, n, f);
    var m := Less(n, |Chosen(es, f)|);
    var k: nat :| LastCut(es, m, k, f, WithoutLast(es, n, f));
    assert es == es[..k] + es[k..];
    ChosenOfBoth(es[..k], es[k..], f);
    UnwantedOfBoth(es[..k], es[k..], f);
    ChosenOfBoth(es[..k], Unwanted(es[k..], f), f);
    UnwantedOfBoth(es[..k], Unwanted(es[k..], f), f);
    ChosenOfUnwanted(es[k..], f);
  }

  ghost function At<T>(s: seq<Node<T>>, i: int): Node?<T> {
    if 0 <= i < |s| then s[i] else null
  }

  lemma NoNodes<T>(s: seq<Node<T>>, prev: Node?<T>, next: Node?<T>)
    requires s == []
    ensures Segment(s, prev, next)
  {
  }

  lemma Alone<T>(n: Node<T>, prev: Node?<T>, next: Node?<T>)
    requires Segment([n], prev, next)
    ensures n.prev == prev && n.next == next
  {
    assert [n][0] == n;
  }

  lemma NextOfLast<T>(s: seq<Node<T>>, prev: Node?<T>, next: Node?<T>)
    requires Segment(s, prev, next) && s != []
    ensures s[|s| - 1].next == next
  {
  }

  lemma InThree<T>(s: seq<Node<T>>, k: nat)
    requires k < |s|
    ensures s == s[..k] + ([s[k]] + s[k + 1..])
  {
  }

  lemma OuterApart<T>(a: seq<Node<T>>, n: Node<T>, b: seq<Node<T>>)
    requires Apart(a, [n] + b) && Apart([n], b)
    ensures Apart(a, b) && n !in a && n !in b
  {
    assert ([n] + b)[0] == n && [n][0] == n;
    forall i, j | 0 <= i < |a| && 0 <= j < |b|
      ensures a[i] != b[j]
    {
      assert ([n] + b)[j + 1] == b[j];
    }
  }
}
