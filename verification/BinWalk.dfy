/** A lookup walks the nodes of a bin while others change it (src/chashmap/raw/mod.rs,
    src/chashmap/map.rs, src/chashmap/node.rs).

    The walk takes no lock.  Writers come one at a time, under the lock of the bin: they append a node,
    put one in front (as tree bins do), swap a value, unlink a node, or leave the nodes as they are and
    build the bin anew from some of them and from new ones (as the splitting of a bin does, and its
    change to a tree and back).  A node that is unlinked or left behind keeps its own link.  One step is
    one access that others see. */
module BinWalk {
  import opened Options
  import opened ResizeModel
  import opened Values

  datatype Node = Node(key: Key, value: Value, next: Option<nat>)

  /** All nodes there have been, by number, and those of the bin, in the order of their links. */
  datatype Nodes = Nodes(all: map<nat, Node>, live: seq<nat>)

  function Number(s: seq<nat>, i: nat): Option<nat> {
    if i < |s| then Some(s[i]) else None
  }

  /** Each node of the bin leads to the next one. */
  ghost predicate LinksOk(b: Nodes) {
    forall i | 0 <= i < |b.live| :: b.live[i] in b.all && b.all[b.live[i]].next == Number(b.live, i + 1)
  }

  ghost predicate KeysDiffer(b: Nodes) {
    forall i, j | 0 <= i < |b.live| && 0 <= j < |b.live| && i != j ::
      b.live[i] in b.all && b.live[j] in b.all && b.all[b.live[i]].key != b.all[b.live[j]].key
  }

  ghost predicate ListOk(b: Nodes) {
    LinksOk(b) && KeysDiffer(b)
  }

  ghost predicate IsAt(b: Nodes, i: nat, key: Key) {
    i < |b.live| && b.live[i] in b.all && b.all[b.live[i]].key == key
  }

  /** What the bin holds for a key. */
  ghost function Lookup(b: Nodes, key: Key): Option<Value> {
    if exists i: nat :: IsAt(b, i, key) then
      var i: nat :| IsAt(b, i, key);
      Some(b.all[b.live[i]].value)
    else None
  }

  lemma LookupIs(b: Nodes, i: nat, key: Key)
    requires ListOk(b) && IsAt(b, i, key)
    ensures Lookup(b, key) == Some(b.all[b.live[i]].value)
  {
    forall j: nat | IsAt(b, j, key)
      ensures j == i
    {
      OneIndex(b, i, j);
    }
    hide ListOk;
  }

  lemma OneIndex(b: Nodes, i: nat, j: nat)
    requires ListOk(b) && i < |b.live| && j < |b.live| && b.all[b.live[i]].key == b.all[b.live[j]].key
    ensures i == j
  {
  }

  // ---- what writers do ----

  function Relinked(all: map<nat, Node>, n: nat, next: Option<nat>): map<nat, Node>
    requires n in all
  {
    all[n := all[n].(next := next)]
  }

  ghost predicate Appends(b: Nodes, b': Nodes, n: nat, key: Key, value: Value) {
    n !in b.all && Lookup(b, key) == None && (forall i | 0 <= i < |b.live| :: b.live[i] in b.all) &&
    var all := if b.live == [] then b.all else Relinked(b.all, b.live[|b.live| - 1], Some(n));
    b' == Nodes(all[n := Node(key, value, None)], b.live + [n])
  }

  ghost predicate Prepends(b: Nodes, b': Nodes, n: nat, key: Key, value: Value) {
    n !in b.all && Lookup(b, key) == None &&
    b' == Nodes(b.all[n := Node(key, value, Number(b.live, 0))], [n] + b.live)
  }

  ghost predicate Sets(b: Nodes, b': Nodes, i: nat, value: Value) {
    i < |b.live| && b.live[i] in b.all && b' == b.(all := b.all[b.live[i] := b.all[b.live[i]].(value := value)])
  }

  ghost predicate Unlinks(b: Nodes, b': Nodes, i: nat) {
    i < |b.live| && (forall j | 0 <= j < |b.live| :: b.live[j] in b.all) &&
    b' == Nodes(if i == 0 then b.all else Relinked(b.all, b.live[i - 1], b.all[b.live[i]].next),
                b.live[..i] + b.live[i + 1..])
  }

  /** The nodes there are stay as they are; the bin that `key` belongs to has others, or some of them,
      and holds for `key` what it held. */
  ghost predicate Rebuilds(b: Nodes, b': Nodes, key: Key) {
    ListOk(b') && Lookup(b', key) == Lookup(b, key) && forall n <- b.all :: n in b'.all && b'.all[n] == b.all[n]
  }

  /** What a writer may do, to a bin where a lookup is after `key`. */
  ghost predicate Changes(b: Nodes, b': Nodes, key: Key) {
    (exists n: nat, k: Key, v: Value :: Appends(b, b', n, k, v)) ||
    (exists n: nat, k: Key, v: Value :: Prepends(b, b', n, k, v)) ||
    (exists i: nat, v: Value :: Sets(b, b', i, v)) ||
    (exists i: nat :: Unlinks(b, b', i)) || Rebuilds(b, b', key)
  }

  // ---- each change keeps the list ----

  lemma NotThere(b: Nodes, key: Key)
    requires ListOk(b) && Lookup(b, key) == None
    ensures forall i: nat | i < |b.live| :: b.all[b.live[i]].key != key
  {
    forall i: nat | i < |b.live|
      ensures b.all[b.live[i]].key != key
    {
      if b.all[b.live[i]].key == key {
        LookupIs(b, i, key);
      }
    }
  }

  lemma NodesDiffer(b: Nodes)
    requires ListOk(b)
    ensures forall i, j | 0 <= i < |b.live| && 0 <= j < |b.live| && i != j :: b.live[i] != b.live[j]
  {
  }

  lemma AppendOk(b: Nodes, b': Nodes, n: nat, key: Key, value: Value)
    requires ListOk(b) && Appends(b, b', n, key, value)
    ensures ListOk(b')
  {
    hide Lookup, LinksOk, KeysDiffer;
    NotThere(b, key);
    NodesDiffer(b);
    AppendLinks(b, b', n, key, value);
    AppendKeys(b, b', n, key, value);
  }

  lemma AppendLinks(b: Nodes, b': Nodes, n: nat, key: Key, value: Value)
    requires LinksOk(b) && Appends(b, b', n, key, value)
    requires forall i, j | 0 <= i < |b.live| && 0 <= j < |b.live| && i != j :: b.live[i] != b.live[j]
    ensures LinksOk(b')
  {
    hide Lookup;
    forall i: nat | i < |b'.live|
      ensures b'.live[i] in b'.all && b'.all[b'.live[i]].next == Number(b'.live, i + 1)
    {
      if i < |b.live| {
        assert b'.live[i] == b.live[i] && b.live[i] in b.all;
      }
    }
  }

  lemma AppendKeys(b: Nodes, b': Nodes, n: nat, key: Key, value: Value)
    requires KeysDiffer(b) && Appends(b, b', n, key, value)
    requires forall i: nat | i < |b.live| :: b.all[b.live[i]].key != key
    ensures KeysDiffer(b')
  {
    hide Lookup;
    forall i: nat | i < |b'.live|
      ensures b'.live[i] in b'.all && b'.all[b'.live[i]].key == if i < |b.live| then b.all[b.live[i]].key else key
    {
      if i < |b.live| {
        assert b'.live[i] == b.live[i] && b.live[i] in b.all;
      }
    }
  }

  lemma PrependOk(b: Nodes, b': Nodes, n: nat, key: Key, value: Value)
    requires ListOk(b) && Prepends(b, b', n, key, value)
    ensures ListOk(b')
  {
    hide Lookup;
    NotThere(b, key);
    forall i: nat | i < |b'.live|
      ensures b'.live[i] in b'.all && b'.all[b'.live[i]].next == Number(b'.live, i + 1)
    {
      if i > 0 {
        assert b'.live[i] == b.live[i - 1] && Number(b'.live, i + 1) == Number(b.live, i);
      }
    }
  }

  lemma SetOk(b: Nodes, b': Nodes, i: nat, v: Value)
    requires ListOk(b) && Sets(b, b', i, v)
    ensures ListOk(b')
  {
  }

  lemma UnlinkOk(b: Nodes, b': Nodes, i: nat)
    requires ListOk(b) && Unlinks(b, b', i)
    ensures ListOk(b')
  {
    hide LinksOk, KeysDiffer;
    NodesDiffer(b);
    UnlinkLinks(b, b', i);
    UnlinkKeys(b, b', i);
  }

  function Skip(i: nat, j: nat): nat {
    if j < i then j else j + 1
  }

  lemma UnlinkLinks(b: Nodes, b': Nodes, i: nat)
    requires LinksOk(b) && Unlinks(b, b', i)
    requires forall i, j | 0 <= i < |b.live| && 0 <= j < |b.live| && i != j :: b.live[i] != b.live[j]
    ensures LinksOk(b')
  {
    forall j: nat | j < |b'.live|
      ensures b'.live[j] in b'.all && b'.all[b'.live[j]].next == Number(b'.live, j + 1)
    {
      assert b'.live[j] == b.live[Skip(i, j)] && b.live[Skip(i, j)] in b.all;
      assert j + 1 < |b'.live| ==> b'.live[j + 1] == b.live[Skip(i, j + 1)];
      if j + 1 == i {
        assert b.all[b.live[i]].next == Number(b.live, i + 1);
      } else {
        assert i > 0 ==> b.live[Skip(i, j)] != b.live[i - 1];
      }
    }
  }

  lemma UnlinkKeys(b: Nodes, b': Nodes, i: nat)
    requires KeysDiffer(b) && Unlinks(b, b', i)
    ensures KeysDiffer(b')
  {
    forall j: nat | j < |b'.live|
      ensures b'.live[j] in b'.all && b'.all[b'.live[j]].key == b.all[b.live[Skip(i, j)]].key
    {
      assert b'.live[j] == b.live[Skip(i, j)] && b.live[Skip(i, j)] in b.all;
    }
  }

  lemma ChangeOk(b: Nodes, b': Nodes, key: Key)
    requires ListOk(b) && Changes(b, b', key)
    ensures ListOk(b')
  {
    hide ListOk, Lookup, Appends, Prepends, Sets, Unlinks;
    if n: nat, k: Key, v: Value :| Appends(b, b', n, k, v) {
      AppendOk(b, b', n, k, v);
    } else if n: nat, k: Key, v: Value :| Prepends(b, b', n, k, v) {
      PrependOk(b, b', n, k, v);
    } else if i: nat, v: Value :| Sets(b, b', i, v) {
      SetOk(b, b', i, v);
    } else if i: nat :| Unlinks(b, b', i) {
      UnlinkOk(b, b', i);
    }
  }

  // ---- what a change does to the map ----

  /** The bin holds the map `m`. */
  ghost predicate Shows(b: Nodes, m: map<Key, Value>) {
    forall key :: Lookup(b, key) == At(m, key)
  }

  /** One bin holds for a key what the other holds, node by node. */
  ghost predicate SameAt(b: Nodes, b': Nodes, key: Key, i: nat, j: nat) {
    (IsAt(b, i, key) <==> IsAt(b', j, key)) && (IsAt(b, i, key) ==> b.all[b.live[i]].value == b'.all[b'.live[j]].value)
  }

  lemma SameLookup(b: Nodes, b': Nodes, key: Key)
    requires ListOk(b) && ListOk(b')
    requires forall i: nat | IsAt(b, i, key) :: exists j: nat :: IsAt(b', j, key) && SameAt(b, b', key, i, j)
    requires forall j: nat | IsAt(b', j, key) :: exists i: nat :: IsAt(b, i, key) && SameAt(b, b', key, i, j)
    ensures Lookup(b, key) == Lookup(b', key)
  {
    hide ListOk;
    if i: nat :| IsAt(b, i, key) {
      var j: nat :| IsAt(b', j, key) && SameAt(b, b', key, i, j);
      LookupIs(b, i, key);
      LookupIs(b', j, key);
    }
  }

  lemma AppendIsPut(b: Nodes, b': Nodes, n: nat, key: Key, value: Value, keep: bool, m: map<Key, Value>)
    requires ListOk(b) && Appends(b, b', n, key, value) && Shows(b, m)
    ensures Shows(b', Effect(Put(key, value, keep), m))
  {
    hide Lookup, ListOk;
    AppendOk(b, b', n, key, value);
    assert IsAt(b', |b.live|, key);
    LookupIs(b', |b.live|, key);
    assert At(m, key) == None;
    forall k | k != key
      ensures Lookup(b', k) == Lookup(b, k)
    {
      forall i: nat | IsAt(b, i, k)
        ensures IsAt(b', i, k) && SameAt(b, b', k, i, i)
      {
      }
      forall j: nat | IsAt(b', j, k)
        ensures IsAt(b, j, k) && SameAt(b, b', k, j, j)
      {
        assert j < |b.live|;
      }
      SameLookup(b, b', k);
    }
  }

  lemma PrependIsPut(b: Nodes, b': Nodes, n: nat, key: Key, value: Value, keep: bool, m: map<Key, Value>)
    requires ListOk(b) && Prepends(b, b', n, key, value) && Shows(b, m)
    ensures Shows(b', Effect(Put(key, value, keep), m))
  {
    PrependOk(b, b', n, key, value);
    AllThere(b);
    hide Lookup, ListOk;
    assert IsAt(b', 0, key);
    LookupIs(b', 0, key);
    assert At(m, key) == None;
    forall k | k != key
      ensures Lookup(b', k) == Lookup(b, k)
    {
      forall i: nat | IsAt(b, i, k)
        ensures IsAt(b', i + 1, k) && SameAt(b, b', k, i, i + 1)
      {
      }
      forall j: nat | IsAt(b', j, k)
        ensures j > 0 && IsAt(b, j - 1, k) && SameAt(b, b', k, j - 1, j)
      {
      }
      SameLookup(b, b', k);
    }
  }

  lemma AllThere(b: Nodes)
    requires ListOk(b)
    ensures forall i | 0 <= i < |b.live| :: b.live[i] in b.all
  {
  }

  lemma SetIsPut(b: Nodes, b': Nodes, i: nat, value: Value, m: map<Key, Value>)
    requires ListOk(b) && Sets(b, b', i, value) && Shows(b, m)
    ensures var key := b.all[b.live[i]].key; key in m && Shows(b', Effect(Put(key, value, false), m))
  {
    var key := b.all[b.live[i]].key;
    SetOk(b, b', i, value);
    NodesDiffer(b);
    hide ListOk;
    LookupIs(b, i, key);
    LookupIs(b', i, key);
    hide Lookup;
    assert At(m, key) != None;
    forall k | k != key
      ensures Lookup(b', k) == Lookup(b, k)
    {
      forall j: nat | IsAt(b, j, k) || IsAt(b', j, k)
        ensures IsAt(b, j, k) && IsAt(b', j, k) && SameAt(b, b', k, j, j)
      {
      }
      SameLookup(b, b', k);
    }
  }

  /** With its node gone, a key is not in the bin. */
  lemma UnlinkForgets(b: Nodes, b': Nodes, i: nat)
    requires ListOk(b) && Unlinks(b, b', i)
    ensures Lookup(b', b.all[b.live[i]].key) == None
  {
    hide LinksOk;
    forall j: nat
      ensures !IsAt(b', j, b.all[b.live[i]].key)
    {
      if j < |b'.live| {
        assert b'.live[j] == b.live[Skip(i, j)];
      }
    }
  }

  lemma UnlinkLeavesOthers(b: Nodes, b': Nodes, i: nat, k: Key)
    requires ListOk(b) && ListOk(b') && Unlinks(b, b', i) && b.all[b.live[i]].key != k
    ensures Lookup(b', k) == Lookup(b, k)
  {
    hide Lookup, ListOk, Relinked;
    forall x | x in b.all
      ensures x in b'.all && b'.all[x].key == b.all[x].key && b'.all[x].value == b.all[x].value
    {
      UnlinkKeepsData(b, b', i, x);
    }
    forall j: nat | IsAt(b, j, k)
      ensures j != i && IsAt(b', if j < i then j else j - 1, k) && SameAt(b, b', k, j, if j < i then j else j - 1)
    {
      assert b'.live[if j < i then j else j - 1] == b.live[j];
    }
    forall j: nat | IsAt(b', j, k)
      ensures IsAt(b, Skip(i, j), k) && SameAt(b, b', k, Skip(i, j), j)
    {
      assert b'.live[j] == b.live[Skip(i, j)];
    }
    hide IsAt, SameAt, Unlinks;
    SameLookup(b, b', k);
  }

  lemma UnlinkKeepsData(b: Nodes, b': Nodes, i: nat, x: nat)
    requires Unlinks(b, b', i) && x in b.all
    ensures x in b'.all && b'.all[x].key == b.all[x].key && b'.all[x].value == b.all[x].value
  {
  }

  lemma UnlinkIsRemoval(b: Nodes, b': Nodes, i: nat, m: map<Key, Value>)
    requires ListOk(b) && Unlinks(b, b', i) && Shows(b, m)
    ensures Shows(b', Effect(Replace(b.all[b.live[i]].key, None, None), m))
  {
    hide Lookup, ListOk;
    var key := b.all[b.live[i]].key;
    UnlinkOk(b, b', i);
    UnlinkForgets(b, b', i);
    LookupIs(b, i, key);
    assert At(m, key) != None;
    forall k | k != key
      ensures Lookup(b', k) == Lookup(b, k)
    {
      UnlinkLeavesOthers(b, b', i, k);
    }
  }

  // ---- what a change does to one node ----

  /** A node keeps its key; its link changes only to a node of the bin, or to none, and its value only
      while it is in the bin. */
  ghost predicate NodeKept(b: Nodes, b': Nodes, x: nat) {
    x in b.all && x in b'.all && b'.all[x].key == b.all[x].key &&
    (b'.all[x].next == b.all[x].next || b'.all[x].next.None? || b'.all[x].next.value in b'.live) &&
    (b'.all[x].value == b.all[x].value || x in b'.live)
  }

  lemma ChangeKeepsNode(b: Nodes, b': Nodes, key: Key, x: nat)
    requires ListOk(b) && Changes(b, b', key) && x in b.all
    ensures NodeKept(b, b', x)
  {
    hide Lookup, ListOk, Unlinks, NodeKept;
    if i: nat :| Unlinks(b, b', i) {
      UnlinkKeepsNode(b, b', i, x);
    } else {
      OthersKeepNode(b, b', key, x);
    }
  }

  lemma OthersKeepNode(b: Nodes, b': Nodes, key: Key, x: nat)
    requires Changes(b, b', key) && !(exists i: nat :: Unlinks(b, b', i)) && x in b.all
    ensures NodeKept(b, b', x)
  {
    hide Lookup, ListOk, Unlinks;
  }

  lemma UnlinkKeepsNode(b: Nodes, b': Nodes, i: nat, x: nat)
    requires ListOk(b) && Unlinks(b, b', i) && x in b.all
    ensures NodeKept(b, b', x)
  {
    hide KeysDiffer;
    if i + 1 < |b.live| {
      assert b'.live[i] == b.live[i + 1];
    }
  }

  lemma LiveNode(b: Nodes, x: nat)
    requires ListOk(b) && x in b.live
    ensures x in b.all && Lookup(b, b.all[x].key) == Some(b.all[x].value)
    ensures b.all[x].next.Some? ==> b.all[x].next.value in b.live
  {
    hide KeysDiffer;
    var i: nat :| i < |b.live| && b.live[i] == x;
    LookupIs(b, i, b.all[x].key);
    hide Lookup;
  }

  // ---- what a change does to a path ----

  /** The links lead along `p` to a node with the key. */
  ghost predicate IsPath(b: Nodes, p: seq<nat>, key: Key) {
    p != [] && p[0] in b.all &&
    if |p| == 1 then b.all[p[0]].key == key else b.all[p[0]].next == Some(p[1]) && IsPath(b, p[1..], key)
  }

  ghost predicate Leads(b: Nodes, n: nat, key: Key) {
    exists p :: IsPath(b, p, key) && p[0] == n
  }

  lemma LeadsOn(b: Nodes, n: nat, key: Key)
    requires Leads(b, n, key)
    ensures n in b.all
    ensures b.all[n].key != key ==> b.all[n].next.Some? && Leads(b, b.all[n].next.value, key)
  {
    var p :| IsPath(b, p, key) && p[0] == n;
    if |p| > 1 {
      assert IsPath(b, p[1..], key) && p[1..][0] == p[1];
    }
  }

  lemma LinkInFront(b: Nodes, x: nat, key: Key)
    requires x in b.all && b.all[x].next.Some? && Leads(b, b.all[x].next.value, key)
    ensures Leads(b, x, key)
  {
    var q :| IsPath(b, q, key) && q[0] == b.all[x].next.value;
    var p := [x] + q;
    assert p[1..] == q && p[0] == x;
    assert IsPath(b, p, key);
  }

  lemma LeadsAtOnce(b: Nodes, x: nat, key: Key)
    requires x in b.all && b.all[x].key == key
    ensures Leads(b, x, key)
  {
    assert IsPath(b, [x], key) && [x][0] == x;
  }

  /** A node that is in the bin can be walked to from its front. */
  lemma {:induction false} FrontLeads(b: Nodes, i: nat, j: nat)
    requires ListOk(b) && i <= j < |b.live|
    ensures Leads(b, b.live[i], b.all[b.live[j]].key)
    decreases j - i
  {
    hide KeysDiffer, Leads;
    if i == j {
      LeadsAtOnce(b, b.live[i], b.all[b.live[j]].key);
    } else {
      FrontLeads(b, i + 1, j);
      LinkInFront(b, b.live[i], b.all[b.live[j]].key);
    }
  }

  lemma ChangeLeads(b: Nodes, b': Nodes, key: Key, x: nat)
    requires ListOk(b) && Changes(b, b', key) && Leads(b, x, key)
    ensures Lookup(b', key) == None || Leads(b', x, key)
  {
    hide Lookup, ListOk, Changes;
    var p :| IsPath(b, p, key) && p[0] == x;
    if i: nat :| Unlinks(b, b', i) {
      if b.all[b.live[i]].key == key {
        UnlinkForgets(b, b', i);
      } else {
        UnlinkLeads(b, b', i, p, key);
      }
    } else {
      PathStays(b, b', key, p);
    }
  }

  lemma {:induction false} PathStays(b: Nodes, b': Nodes, key: Key, p: seq<nat>)
    requires ListOk(b) && Changes(b, b', key) && !(exists i: nat :: Unlinks(b, b', i)) && IsPath(b, p, key)
    ensures Leads(b', p[0], key)
    decreases |p|
  {
    hide ListOk, Changes, Leads, Unlinks;
    LinkStays(b, b', key, p[0]);
    if |p| == 1 {
      LeadsAtOnce(b', p[0], key);
    } else {
      PathStays(b, b', key, p[1..]);
      LinkInFront(b', p[0], key);
    }
  }

  /** But for unlinking, only the end of the list gets another link. */
  lemma LinkStays(b: Nodes, b': Nodes, key: Key, x: nat)
    requires ListOk(b) && Changes(b, b', key) && !(exists i: nat :: Unlinks(b, b', i)) && x in b.all
    ensures x in b'.all && b'.all[x].key == b.all[x].key && (b.all[x].next.Some? ==> b'.all[x].next == b.all[x].next)
  {
    hide Lookup, KeysDiffer, Unlinks;
    assert b.live != [] ==> b.all[b.live[|b.live| - 1]].next == None;
  }

  /** A path through a node that is unlinked goes around it. */
  lemma {:induction false} UnlinkLeads(b: Nodes, b': Nodes, i: nat, p: seq<nat>, key: Key)
    requires ListOk(b) && Unlinks(b, b', i) && b.all[b.live[i]].key != key && IsPath(b, p, key)
    ensures Leads(b', p[0], key)
    decreases |p|
  {
    hide ListOk, Leads, Unlinks;
    UnlinkLink(b, b', i, p[0]);
    if |p| == 1 {
      LeadsAtOnce(b', p[0], key);
    } else {
      UnlinkLeads(b, b', i, p[1..], key);
      if b'.all[p[0]].next != b.all[p[0]].next {
        UnlinkLink(b, b', i, p[1]);
        LeadsOn(b', p[1], key);
      }
      LinkInFront(b', p[0], key);
    }
  }

  /** Only the node in front of the one that is unlinked gets another link: what that one keeps. */
  lemma UnlinkLink(b: Nodes, b': Nodes, i: nat, x: nat)
    requires ListOk(b) && Unlinks(b, b', i) && x in b.all
    ensures b.live[i] in b.all && b.live[i] in b'.all && x in b'.all && b'.all[x].key == b.all[x].key
    ensures b'.all[x].next != b.all[x].next ==>
      b.all[x].next == Some(b.live[i]) && b'.all[x].next == b'.all[b.live[i]].next
  {
    NodesDiffer(b);
    hide KeysDiffer;
    assert i > 0 ==> b.all[b.live[i - 1]].next == Number(b.live, i);
  }

  // ---- the walk ----

  datatype Walk = Looks(node: nat) | Found(node: nat) | Done(result: Option<Value>)

  ghost predicate WalksOn(b: Nodes, key: Key, w: Walk, w': Walk) {
    match w
    case Looks(n) =>
      n in b.all &&
      w' == if b.all[n].key == key then Found(n) else if b.all[n].next.None? then Done(None)
            else Looks(b.all[n].next.value)
    case Found(n) => n in b.all && w' == Done(Some(b.all[n].value))
    case Done(_) => false
  }

  datatype State = State(bin: Nodes, walk: Walk)

  ghost predicate Follows(s: State, s': State, key: Key) {
    (s'.walk == s.walk && Changes(s.bin, s'.bin, key)) || (s'.bin == s.bin && WalksOn(s.bin, key, s.walk, s'.walk))
  }

  /** A walk from its first access to the bin, with the steps of writers in between. */
  ghost predicate IsRun(run: seq<State>, key: Key) {
    |run| > 0 && ListOk(run[0].bin) &&
    run[0].walk == (if run[0].bin.live == [] then Done(None) else Looks(run[0].bin.live[0])) &&
    forall i | 0 <= i < |run| - 1 :: Follows(run[i], run[i + 1], key)
  }

  /** The bin held `v` for the key at some moment of the walk. */
  ghost predicate Held(run: seq<State>, n: nat, key: Key, v: Option<Value>) {
    exists i: nat :: i <= n && i < |run| && Lookup(run[i].bin, key) == v
  }

  /** The node was in the bin at some moment of the walk. */
  ghost predicate Seen(run: seq<State>, n: nat, x: nat) {
    exists i: nat :: i <= n && i < |run| && x in run[i].bin.live
  }

  /** A node that was in the bin leads to such nodes, and holds what the bin held. */
  ghost predicate NodeOk(run: seq<State>, n: nat, key: Key, x: nat)
    requires n < |run|
  {
    var all := run[n].bin.all;
    x in all && (all[x].next.Some? ==> Seen(run, n, all[x].next.value)) &&
    (all[x].key == key ==> Held(run, n, key, Some(all[x].value)))
  }

  ghost predicate NodesOk(run: seq<State>, n: nat, key: Key)
    requires n < |run|
  {
    ListOk(run[n].bin) && forall x: nat | Seen(run, n, x) :: NodeOk(run, n, key, x)
  }

  /** The walk is at a node that was in the bin; and unless the key was once missing, a node with it
      is ahead. */
  ghost predicate WalkOk(run: seq<State>, n: nat, key: Key)
    requires n < |run|
  {
    var b := run[n].bin;
    match run[n].walk
    case Looks(x) => Seen(run, n, x) && (Held(run, n, key, None) || Leads(b, x, key))
    case Found(x) => Seen(run, n, x) && x in b.all && b.all[x].key == key
    case Done(r) => Held(run, n, key, r)
  }

  // ---- every step keeps it ----

  lemma Stays(run: seq<State>, n: nat, key: Key)
    ensures forall v :: Held(run, n, key, v) ==> Held(run, n + 1, key, v)
    ensures forall x :: Seen(run, n, x) ==> Seen(run, n + 1, x)
  {
    hide Lookup;
  }

  lemma HeldNow(run: seq<State>, n: nat, key: Key)
    requires n < |run|
    ensures Held(run, n, key, Lookup(run[n].bin, key))
  {
    hide Lookup;
  }

  lemma SeenNow(run: seq<State>, n: nat, x: nat)
    requires n < |run| && x in run[n].bin.live
    ensures Seen(run, n, x)
  {
  }

  lemma SeenBefore(run: seq<State>, n: nat, x: nat)
    requires n + 1 < |run| && Seen(run, n + 1, x)
    ensures Seen(run, n, x) || x in run[n + 1].bin.live
  {
  }

  lemma NodeStaysOk(run: seq<State>, n: nat, key: Key, x: nat)
    requires n + 1 < |run| && NodesOk(run, n, key) && ListOk(run[n + 1].bin) && Seen(run, n + 1, x)
    requires run[n + 1].bin == run[n].bin || Changes(run[n].bin, run[n + 1].bin, key)
    ensures NodeOk(run, n + 1, key, x)
  {
    hide ListOk, Changes, Lookup, Held, Seen;
    var b, b' := run[n].bin, run[n + 1].bin;
    SeenBefore(run, n, x);
    Stays(run, n, key);
    HeldNow(run, n + 1, key);
    if x in b'.live {
      LiveNode(b', x);
    } else {
      assert NodeOk(run, n, key, x);
      if b' != b {
        ChangeKeepsNode(b, b', key, x);
      }
    }
    forall y | y in b'.live
      ensures Seen(run, n + 1, y)
    {
      SeenNow(run, n + 1, y);
    }
  }

  lemma NodesStayOk(run: seq<State>, n: nat, key: Key)
    requires n + 1 < |run| && NodesOk(run, n, key) && Follows(run[n], run[n + 1], key)
    ensures NodesOk(run, n + 1, key)
  {
    hide ListOk, Changes, Seen, WalksOn, NodeOk;
    if run[n + 1].bin != run[n].bin {
      ChangeOk(run[n].bin, run[n + 1].bin, key);
    }
    var m := n + 1;
    forall x: nat | Seen(run, m, x)
      ensures NodeOk(run, m, key, x)
    {
      NodeStaysOk(run, n, key, x);
    }
  }

  lemma WalkStaysOk(run: seq<State>, n: nat, key: Key)
    requires n + 1 < |run| && NodesOk(run, n, key) && WalkOk(run, n, key) && Follows(run[n], run[n + 1], key)
    ensures WalkOk(run, n + 1, key)
  {
    hide ListOk, Changes, Lookup, Held, Seen, Leads;
    Stays(run, n, key);
    HeldNow(run, n + 1, key);
    var b, b', w := run[n].bin, run[n + 1].bin, run[n].walk;
    assert !w.Done? ==> NodeOk(run, n, key, w.node);
    if b' != b && !w.Done? {
      ChangeKeepsNode(b, b', key, w.node);
      if w.Looks? && Leads(b, w.node, key) {
        ChangeLeads(b, b', key, w.node);
      }
    } else if w.Looks? && Leads(b, w.node, key) {
      LeadsOn(b, w.node, key);
    }
  }

  lemma BeginsOk(run: seq<State>, key: Key)
    requires IsRun(run, key)
    ensures NodesOk(run, 0, key) && WalkOk(run, 0, key)
  {
    hide Follows, ListOk;
    var b := run[0].bin;
    forall x: nat | Seen(run, 0, x)
      ensures NodeOk(run, 0, key, x)
    {
      LiveNode(b, x);
      HeldNow(run, 0, key);
      hide Lookup;
    }
    FirstOk(run, key);
    hide Lookup, NodeOk;
  }

  lemma FirstOk(run: seq<State>, key: Key)
    requires IsRun(run, key)
    ensures WalkOk(run, 0, key)
  {
    hide Follows, Leads;
    var b := run[0].bin;
    HeldNow(run, 0, key);
    if i: nat :| IsAt(b, i, key) {
      FrontLeads(b, 0, i);
      hide ListOk, Held;
    } else {
      hide ListOk, Held;
    }
  }

  lemma {:induction false} RunsAreOk(run: seq<State>, n: nat, key: Key)
    requires IsRun(run, key) && n < |run|
    ensures NodesOk(run, n, key) && WalkOk(run, n, key)
  {
    hide NodesOk, WalkOk, Follows;
    if n == 0 {
      BeginsOk(run, key);
    } else {
      RunsAreOk(run, n - 1, key);
      NodesStayOk(run, n - 1, key);
      WalkStaysOk(run, n - 1, key);
    }
  }

  /** What a lookup gives, the bin held for the key at some moment between its first access to the bin
      and its last. */
  lemma WalkIsAtomic(run: seq<State>, n: nat, key: Key)
    requires IsRun(run, key) && n < |run| && run[n].walk.Done?
    ensures exists i: nat :: i <= n && Lookup(run[i].bin, key) == run[n].walk.result
  {
    RunsAreOk(run, n, key);
    hide Lookup, IsRun, NodesOk;
  }

  /** A lookup can always go on to its end: no link leads nowhere. */
  lemma WalkGoesOn(run: seq<State>, n: nat, key: Key)
    requires IsRun(run, key) && n < |run| && !run[n].walk.Done?
    ensures exists w :: WalksOn(run[n].bin, key, run[n].walk, w)
  {
    RunsAreOk(run, n, key);
    hide Lookup, IsRun;
    var b, x := run[n].bin, run[n].walk.node;
    assert NodeOk(run, n, key, x);
    var w := if run[n].walk.Found? then Done(Some(b.all[x].value)) else if b.all[x].key == key then Found(x)
      else if b.all[x].next.None? then Done(None) else Looks(b.all[x].next.value);
    assert WalksOn(b, key, run[n].walk, w);
  }
}
