/** The iterator over a table that is being resized, and the tables its bins have been moved to
    (src/chashmap/iter/traverser.rs).

    The tables are as some instant of a resize, or of several, has left them; an iterator that runs
    beside writers sees each bin as it is when it gets there. */
module Traverser {
  import opened Options
  import Bits

  type Node(==)

  /** A bin, with the nodes of its list or tree in the order of their links. */
  datatype Bin = Null | Moved | Full(nodes: seq<Node>)

  /** Each table has twice the bins of the one before, and moved bins have a table to lead to. */
  ghost predicate IsChain(ts: seq<seq<Bin>>) {
    (forall j :: 0 <= j < |ts| - 1 ==> |ts[j + 1]| == 2 * |ts[j]|) &&
    (forall j, i :: 0 <= j < |ts| && 0 <= i < |ts[j]| ==>
      (ts[j][i].Moved? ==> j + 1 < |ts|) && (ts[j][i].Full? ==> ts[j][i].nodes != []))
  }

  ghost predicate InChain(ts: seq<seq<Bin>>, j: int, i: int) {
    IsChain(ts) && 0 <= j < |ts| && 0 <= i < |ts[j]|
  }

  // ---- what there is to visit ----

  /** The bins that bin `i` of table `j` leads to, in the order of a visit. */
  ghost function Leaves(ts: seq<seq<Bin>>, j: nat, i: nat): seq<(nat, nat)>
    requires InChain(ts, j, i)
    decreases |ts| - j
  {
    if ts[j][i].Moved? then Leaves(ts, j + 1, i) + Leaves(ts, j + 1, i + |ts[j]|) else [(j, i)]
  }

  /** The bins that the bins of the first table from `i` on lead to. */
  ghost function LeavesFrom(ts: seq<seq<Bin>>, i: nat): seq<(nat, nat)>
    requires IsChain(ts) && |ts| > 0 && i <= |ts[0]|
    decreases |ts[0]| - i
  {
    if i == |ts[0]| then [] else Leaves(ts, 0, i) + LeavesFrom(ts, i + 1)
  }

  ghost function NodesOf(ts: seq<seq<Bin>>, bin: (nat, nat)): seq<Node> {
    if bin.0 < |ts| && bin.1 < |ts[bin.0]| && ts[bin.0][bin.1].Full? then ts[bin.0][bin.1].nodes else []
  }

  /** The nodes of some bins, bin after bin. */
  ghost function AllNodes(ts: seq<seq<Bin>>, bins: seq<(nat, nat)>): seq<Node> {
    if bins == [] then [] else NodesOf(ts, bins[0]) + AllNodes(ts, bins[1..])
  }

  /** A search from the first table comes to bin `i` of table `j`, and stops there. */
  ghost predicate Reached(ts: seq<seq<Bin>>, j: nat, i: nat)
    requires IsChain(ts)
  {
    InChain(ts, j, i) && Passed(ts, j, i) && !ts[j][i].Moved?
  }

  ghost predicate Passed(ts: seq<seq<Bin>>, j: nat, i: nat)
    requires InChain(ts, j, i)
  {
    j > 0 ==> var parent := Fold(i, |ts[j - 1]|); ts[j - 1][parent].Moved? && Passed(ts, j - 1, parent)
  }

  /** The index in a table of `n` bins that goes with index `i` of a larger one. */
  ghost function Fold(i: nat, n: nat): (r: nat)
    requires n > 0
    ensures r < n
  {
    i % n
  }

  // ---- a visit comes to each reached bin once ----

  ghost predicate NoneTwice(s: seq<(nat, nat)>) {
    forall a, b :: 0 <= a < b < |s| ==> s[a] != s[b]
  }

  lemma Join(s: seq<(nat, nat)>, t: seq<(nat, nat)>)
    requires NoneTwice(s) && NoneTwice(t) && forall x :: x in s ==> x !in t
    ensures NoneTwice(s + t)
  {
    forall a, b | 0 <= a < b < |s + t|
      ensures (s + t)[a] != (s + t)[b]
    {
      if a < |s| <= b {
        assert (s + t)[a] in s && (s + t)[b] in t;
      }
    }
  }

  lemma FoldTwice(x: nat, n: nat)
    requires n > 0
    ensures Fold(x, 2 * n) == Fold(x, n) || Fold(x, 2 * n) == Fold(x, n) + n
  {
    Bits.SplitRemainder(x, n);
    assert x / n % 2 == 0 || x / n % 2 == 1;
    assert n * 0 == 0 && n * 1 == n;
  }

  lemma FoldSmall(i: nat, n: nat)
    requires i < n
    ensures Fold(i, n) == i && Fold(i + n, n) == i && Fold(i + n, 2 * n) == i + n && Fold(i, 2 * n) == i
  {
    Bits.RemainderIs(i, n, 0, i);
    Bits.RemainderIs(i + n, n, 1, i);
    Bits.RemainderIs(i + n, 2 * n, 0, i + n);
    Bits.RemainderIs(i, 2 * n, 0, i);
  }

  lemma Residue(x: nat, n: nat, i: nat)
    requires i < n && (Fold(x, 2 * n) == i || Fold(x, 2 * n) == i + n)
    ensures Fold(x, n) == i
  {
    hide Fold;
    FoldTwice(x, n);
  }

  /** The bins under bin `i` of table `j` are in that table or later ones, and under no other bin. */
  lemma {:induction false} LeavesAreBelow(ts: seq<seq<Bin>>, j: nat, i: nat, bin: (nat, nat))
    requires InChain(ts, j, i) && bin in Leaves(ts, j, i)
    ensures j <= bin.0 && InChain(ts, bin.0, bin.1) && !ts[bin.0][bin.1].Moved? && Fold(bin.1, |ts[j]|) == i
    decreases |ts| - j
  {
    hide Fold;
    if ts[j][i].Moved? {
      var n := |ts[j]|;
      if bin in Leaves(ts, j + 1, i) {
        LeavesAreBelow(ts, j + 1, i, bin);
      } else {
        LeavesAreBelow(ts, j + 1, i + n, bin);
      }
      Residue(bin.1, n, i);
    } else {
      FoldSmall(i, |ts[j]|);
    }
  }

  lemma {:induction false} LeavesDiffer(ts: seq<seq<Bin>>, j: nat, i: nat)
    requires InChain(ts, j, i)
    ensures NoneTwice(Leaves(ts, j, i))
    decreases |ts| - j
  {
    if ts[j][i].Moved? {
      var n := |ts[j]|;
      LeavesDiffer(ts, j + 1, i);
      LeavesDiffer(ts, j + 1, i + n);
      var low, high := Leaves(ts, j + 1, i), Leaves(ts, j + 1, i + n);
      forall bin | bin in low
        ensures bin !in high
      {
        LeavesAreBelow(ts, j + 1, i, bin);
        if bin in high {
          LeavesAreBelow(ts, j + 1, i + n, bin);
        }
      }
      Join(low, high);
    }
  }

  lemma {:induction false} LeavesAreReached(ts: seq<seq<Bin>>, j: nat, i: nat, bin: (nat, nat))
    requires InChain(ts, j, i) && Passed(ts, j, i) && bin in Leaves(ts, j, i)
    ensures Reached(ts, bin.0, bin.1)
    decreases |ts| - j
  {
    hide Fold;
    if ts[j][i].Moved? {
      var n := |ts[j]|;
      FoldSmall(i, n);
      if bin in Leaves(ts, j + 1, i) {
        LeavesAreReached(ts, j + 1, i, bin);
      } else {
        LeavesAreReached(ts, j + 1, i + n, bin);
      }
    }
  }

  /** The bin of the first table that a bin is under. */
  lemma {:induction false} InLeavesFrom(ts: seq<seq<Bin>>, from: nat, bin: (nat, nat)) returns (i: nat)
    requires IsChain(ts) && |ts| > 0 && from <= |ts[0]| && bin in LeavesFrom(ts, from)
    ensures from <= i < |ts[0]| && bin in Leaves(ts, 0, i)
    decreases |ts[0]| - from
  {
    hide Leaves;
    if bin in Leaves(ts, 0, from) {
      i := from;
    } else {
      i := InLeavesFrom(ts, from + 1, bin);
    }
  }

  lemma {:induction false} OfLeavesFrom(ts: seq<seq<Bin>>, from: nat, bin: (nat, nat), i: nat)
    requires IsChain(ts) && |ts| > 0 && from <= i < |ts[0]| && bin in Leaves(ts, 0, i)
    ensures bin in LeavesFrom(ts, from)
    decreases i - from
  {
    hide Leaves;
    if from < i {
      OfLeavesFrom(ts, from + 1, bin, i);
    }
  }

  /** Whatever is under a bin that a search passes is under some bin of the first table. */
  lemma {:induction false} ReachedIsLeaf(ts: seq<seq<Bin>>, j: nat, i: nat, bin: (nat, nat))
    requires InChain(ts, j, i) && Passed(ts, j, i) && bin in Leaves(ts, j, i)
    ensures bin in LeavesFrom(ts, 0)
    decreases j
  {
    hide Fold;
    if j == 0 {
      OfLeavesFrom(ts, 0, bin, i);
    } else {
      var n := |ts[j - 1]|;
      var parent := Fold(i, n);
      FoldTwice(i, n);
      IsFolded(i, 2 * n);
      assert bin in Leaves(ts, j - 1, parent);
      ReachedIsLeaf(ts, j - 1, parent, bin);
    }
  }

  lemma IsFolded(i: nat, n: nat)
    requires i < n
    ensures Fold(i, n) == i
  {
    Bits.RemainderIs(i, n, 0, i);
  }

  lemma {:induction false} LeavesFromDiffer(ts: seq<seq<Bin>>, from: nat)
    requires IsChain(ts) && |ts| > 0 && from <= |ts[0]|
    ensures NoneTwice(LeavesFrom(ts, from))
    decreases |ts[0]| - from
  {
    if from < |ts[0]| {
      LeavesDiffer(ts, 0, from);
      LeavesFromDiffer(ts, from + 1);
      forall bin | bin in Leaves(ts, 0, from)
        ensures bin !in LeavesFrom(ts, from + 1)
      {
        LeavesAreBelow(ts, 0, from, bin);
        if bin in LeavesFrom(ts, from + 1) {
          var i := InLeavesFrom(ts, from + 1, bin);
          LeavesAreBelow(ts, 0, i, bin);
        }
      }
      Join(Leaves(ts, 0, from), LeavesFrom(ts, from + 1));
    }
  }

  /** A visit of all bins of the first table comes to every reached bin, once, and to no other. */
  lemma VisitIsExact(ts: seq<seq<Bin>>)
    requires IsChain(ts) && |ts| > 0
    ensures NoneTwice(LeavesFrom(ts, 0))
    ensures forall bin: (nat, nat) :: bin in LeavesFrom(ts, 0) <==> Reached(ts, bin.0, bin.1)
  {
    LeavesFromDiffer(ts, 0);
    forall bin: (nat, nat)
      ensures bin in LeavesFrom(ts, 0) <==> Reached(ts, bin.0, bin.1)
    {
      if bin in LeavesFrom(ts, 0) {
        var i := InLeavesFrom(ts, 0, bin);
        LeavesAreReached(ts, 0, i, bin);
      }
      if Reached(ts, bin.0, bin.1) {
        ReachedIsLeaf(ts, bin.0, bin.1, bin);
      }
    }
  }

  // ---- the iterator ----

  /** A table to come back to: where it was left, and its length. */
  datatype Frame = Frame(table: nat, length: nat, index: nat)

  /** The node that was given last: one of the nodes of a bin. */
  datatype Cursor = Cursor(nodes: seq<Node>, at: nat)

  /** The frames lead from the first table to table `|stack|`, to bin `index` of it. */
  ghost predicate StackOk(ts: seq<seq<Bin>>, stack: seq<Frame>, index: nat) {
    IsChain(ts) && |stack| < |ts| && index < |ts[|stack|]| &&
    if stack == [] then true
    else
      var j, f := |stack| - 1, stack[|stack| - 1];
      f.table == j && f.length == |ts[j]| && f.index < f.length && (index == f.index || index == f.index + f.length) &&
      ts[j][f.index].Moved? && StackOk(ts, stack[..j], f.index)
  }

  /** The index in the first table. */
  ghost function Bottom(stack: seq<Frame>, index: nat): nat {
    if stack == [] then index else stack[0].index
  }

  /** The bins left to visit after bin `index` of table `|stack|`. */
  ghost function After(ts: seq<seq<Bin>>, stack: seq<Frame>, index: nat): seq<(nat, nat)>
    requires StackOk(ts, stack, index)
  {
    if stack == [] then LeavesFrom(ts, index + 1)
    else
      var j, f := |stack| - 1, stack[|stack| - 1];
      var rest := After(ts, stack[..j], f.index);
      if index == f.index then Leaves(ts, j + 1, index + f.length) + rest else rest
  }

  lemma LeavesFromStart(ts: seq<seq<Bin>>)
    requires IsChain(ts) && |ts| > 0 && |ts[0]| > 0
    ensures StackOk(ts, [], 0) && LeavesFrom(ts, 0) == Leaves(ts, 0, 0) + After(ts, [], 0)
  {
  }

  lemma NextTable(ts: seq<seq<Bin>>, j: nat, i: nat)
    requires InChain(ts, j, i) && ts[j][i].Moved?
    ensures j + 1 < |ts| && |ts[j + 1]| == 2 * |ts[j]|
    ensures Leaves(ts, j, i) == Leaves(ts, j + 1, i) + Leaves(ts, j + 1, i + |ts[j]|)
  {
  }

  lemma DownStack(ts: seq<seq<Bin>>, stack: seq<Frame>, index: nat)
    requires StackOk(ts, stack, index) && ts[|stack|][index].Moved?
    ensures StackOk(ts, stack + [Frame(|stack|, |ts[|stack|]|, index)], index)
    ensures Bottom(stack + [Frame(|stack|, |ts[|stack|]|, index)], index) == Bottom(stack, index)
  {
    hide IsChain;
    NextTable(ts, |stack|, index);
    assert (stack + [Frame(|stack|, |ts[|stack|]|, index)])[..|stack|] == stack;
  }

  /** Going down into a later table leaves what is to be visited. */
  lemma Descends(ts: seq<seq<Bin>>, stack: seq<Frame>, index: nat)
    requires StackOk(ts, stack, index) && ts[|stack|][index].Moved?
    ensures |stack| + 1 < |ts|
    ensures var stack' := stack + [Frame(|stack|, |ts[|stack|]|, index)];
            StackOk(ts, stack', index) && Bottom(stack', index) == Bottom(stack, index) &&
            Leaves(ts, |stack|, index) + After(ts, stack, index) == Leaves(ts, |stack| + 1, index) +
              After(ts, stack', index)
  {
    hide IsChain, Leaves, LeavesFrom;
    var j, n := |stack|, |ts[|stack|]|;
    DownStack(ts, stack, index);
    NextTable(ts, j, index);
    assert (stack + [Frame(j, n, index)])[..j] == stack;
    Regroup(Leaves(ts, j + 1, index), Leaves(ts, j + 1, index + n), After(ts, stack, index));
  }

  lemma Regroup(a: seq<(nat, nat)>, b: seq<(nat, nat)>, c: seq<(nat, nat)>)
    ensures (a + b) + c == a + (b + c)
  {
  }

  class NodeIter {
    const tables: seq<seq<Bin>>
    const baseSize: nat
    const baseLimit: nat
    var table: Option<nat>
    var stack: seq<Frame>
    var prev: Option<Cursor>
    var index: nat
    var baseIndex: nat

    ghost predicate Valid()
      reads this
    {
      PlaceOk() && (prev.Some? ==> prev.value.at < |prev.value.nodes|)
    }

    ghost predicate PlaceOk()
      reads `table, `stack, `index, `baseIndex
    {
      IsChain(tables) && baseLimit == baseSize && (table.None? ==> baseSize == 0 && stack == []) &&
      (table.Some? ==>
        |tables| > 0 && baseSize == |tables[0]| && table == Some(|stack|) &&
        ((stack == [] && index == baseIndex == |tables[0]|) ||
         (StackOk(tables, stack, index) && Bottom(stack, index) == baseIndex < |tables[0]|)))
    }

    /** The bins that are left to visit. */
    ghost function Pending(): seq<(nat, nat)>
      reads `table, `stack, `index, `baseIndex
      requires PlaceOk()
    {
      if table.None? || (stack == [] && index == |tables[0]|) then []
      else Leaves(tables, |stack|, index) + After(tables, stack, index)
    }

    /** The nodes that are left to give. */
    ghost function Remaining(): seq<Node>
      reads this
      requires Valid()
    {
      (if prev.None? then [] else prev.value.nodes[prev.value.at + 1..]) + AllNodes(tables, Pending())
    }

    constructor (tables: seq<seq<Bin>>, none: bool)
      requires IsChain(tables) && (!none ==> |tables| > 0)
      ensures Valid()
      ensures Remaining() == if none then [] else AllNodes(tables, LeavesFrom(tables, 0))
    {
      this.tables := tables;
      var length := if none then 0 else |tables[0]|;
      this.table := if none then None else Some(0);
      stack, prev := [], None;
      if !none && |tables[0]| > 0 {
        LeavesFromStart(tables);
      }
      baseSize, baseLimit, baseIndex, index := length, length, 0, 0;
    }

    method PushState(t: nat, i: nat, n: nat)
      modifies `stack
      ensures stack == old(stack) + [Frame(t, n, i)]
    {
      stack := stack + [Frame(t, n, i)];
    }

    /** Goes on after a bin of a later table: to its other half, or back to where that table was entered. */
    method RecoverState(n: nat)
      requires PlaceOk() && table.Some? && stack != [] && n == |tables[|stack|]| && !tables[|stack|][index].Moved?
      modifies `table, `stack, `index, `baseIndex
      ensures PlaceOk() && Pending() == old(After(tables, stack, index))
    {
      var n' := n;
      ghost var rest := After(tables, stack, index);
      while stack != []
        invariant PlaceOk() && table.Some? && StackOk(tables, stack, index) && n' == |tables[|stack|]|
        invariant After(tables, stack, index) == rest
        decreases |stack|
      {
        var j, s := |stack| - 1, stack[|stack| - 1];
        if index + s.length < n' {
          index := index + s.length;
          break;
        }
        n' := s.length;
        index := s.index;
        table := Some(s.table);
        stack := stack[..j];
      }
      if stack == [] {
        index := index + baseSize;
        if index >= n' {
          baseIndex := baseIndex + 1;
          index := baseIndex;
        }
      }
    }

    /** The next node of the bin of `prev`. */
    method NextInBin() returns (e: Option<Cursor>)
      requires Valid()
      ensures e.Some? ==> e.value.at < |e.value.nodes|
      ensures Remaining() == From(e) + AllNodes(tables, Pending())
    {
      hide PlaceOk, Pending, AllNodes;
      e := None;
      if prev.Some? {
        var p := prev.value;
        if p.at + 1 < |p.nodes| {
          e := Some(Cursor(p.nodes, p.at + 1));
        }
      }
    }

    /** Goes on after the bin at hand, which is not moved. */
    method StepOn(i: nat, n: nat)
      requires AtBin() && i == index && n == |tables[|stack|]| && !tables[|stack|][i].Moved?
      modifies `table, `stack, `index, `baseIndex
      ensures PlaceOk() && Pending() == old(Pending())[1..] && old(Pending()) == [(old(|stack|), i)] + Pending()
    {
      if stack != [] {
        RecoverState(n);
      } else {
        index := i + baseSize;
        if index >= n {
          baseIndex := baseIndex + 1;
          index := baseIndex;
        }
      }
    }

    /** Goes into the table that a moved bin leads to. */
    method Descend(t: nat, i: nat, n: nat)
      requires AtBin() && t == |stack| && i == index && n == |tables[t]| && tables[t][i].Moved?
      modifies `table, `stack
      ensures PlaceOk() && Pending() == old(Pending()) && |stack| == t + 1
    {
      hide StackOk, After, Leaves, IsChain;
      InsideTables();
      Descends(tables, stack, index);
      table := Some(t + 1);
      PushState(t, i, n);
    }

    /** The iterator is at a bin. */
    ghost predicate AtBin()
      reads `table, `stack, `index, `baseIndex
    {
      PlaceOk() && table.Some? && StackOk(tables, stack, index)
    }

    lemma InsideTables()
      requires AtBin()
      ensures Bottom(stack, index) == baseIndex < |tables[0]|
    {
    }

    /** Past the checks there is a bin to look at, and without them nothing is left. */
    lemma Checked()
      requires PlaceOk()
      ensures baseIndex >= baseLimit || table.None? ==> Pending() == []
      ensures baseIndex < baseLimit && table.Some? ==>
              AtBin() && table.value == |stack| < |tables| && index < |tables[|stack|]|
      ensures baseIndex < baseLimit && table.Some? ==> var b := tables[|stack|][index]; b.Full? ==> b.nodes != []
    {
    }

    /** Gives the next node, until there is none. */
    method Next() returns (r: Option<Node>)
      requires Valid()
      modifies `table, `stack, `prev, `index, `baseIndex
      ensures Valid()
      ensures r == if old(Remaining()) == [] then None else Some(old(Remaining())[0])
      ensures Remaining() == if old(Remaining()) == [] then [] else old(Remaining())[1..]
    {
      hide PlaceOk, Pending, Leaves, After, StackOk, AllNodes, AtBin, IsChain, From;
      NoneLeft();
      ghost var all := Remaining();
      var e := NextInBin();
      while true
        invariant PlaceOk() && (e.Some? ==> e.value.at < |e.value.nodes|)
        invariant all == From(e) + AllNodes(tables, Pending())
        decreases |Pending()|, |tables| - |stack|
      {
        if e.Some? {
          TakeOne(e.value, AllNodes(tables, Pending()));
          prev := e;
          return Some(e.value.nodes[e.value.at]);
        }
        Checked();
        if baseIndex >= baseLimit || table.None? || |tables[table.value]| <= index {
          prev := None;
          NoBins(tables);
          return None;
        }
        var t, i := table.value, index;
        var n := |tables[t]|;
        if tables[t][i].Moved? {
          prev := None;
          Descend(t, i, n);
          continue;
        }
        if tables[t][i].Full? {
          e := Some(Cursor(tables[t][i].nodes, 0));
        }
        FromBin(tables, (t, i), e);
        StepOn(i, n);
        FirstBin(tables, (t, i), Pending());
      }
    }
  }

  lemma TakeOne(c: Cursor, rest: seq<Node>)
    requires c.at < |c.nodes|
    ensures var all := From(Some(c)) + rest;
            |all| > 0 && all[0] == c.nodes[c.at] && all[1..] == c.nodes[c.at + 1..] + rest
  {
  }

  /** The nodes of a bin that has just been looked at. */
  lemma FromBin(ts: seq<seq<Bin>>, bin: (nat, nat), e: Option<Cursor>)
    requires bin.0 < |ts| && bin.1 < |ts[bin.0]|
    requires var b := ts[bin.0][bin.1]; !b.Moved? && e == (if b.Full? then Some(Cursor(b.nodes, 0)) else None)
    ensures From(e) == NodesOf(ts, bin) && From(None) == []
  {
  }

  lemma NoneLeft()
    ensures From(None) == []
  {
  }

  lemma NoBins(ts: seq<seq<Bin>>)
    ensures AllNodes(ts, []) == []
  {
  }

  lemma FirstBin(ts: seq<seq<Bin>>, bin: (nat, nat), rest: seq<(nat, nat)>)
    ensures AllNodes(ts, [bin] + rest) == NodesOf(ts, bin) + AllNodes(ts, rest)
  {
    assert ([bin] + rest)[1..] == rest;
  }

  /** The nodes from a cursor on. */
  ghost function From(e: Option<Cursor>): seq<Node> {
    if e.None? || e.value.at >= |e.value.nodes| then [] else e.value.nodes[e.value.at..]
  }
}
