/** The nodes of a skip list: their order, their links, and what linking and unlinking one node does to
    a level (src/svalue/skip_list.rs).

    A score is a real number and an object stands for its string by a number, in the same order. */
module SkipNodes {
  import opened SkipLevels

  const MAX_LEVEL := 32

  class Node {
    const score: real
    const obj: int
    var backward: Node?
    var level: seq<Link<Node?>>

    constructor (height: nat, score: real, obj: int)
      ensures this.score == score && this.obj == obj && backward == null && |level| == height
      ensures forall i | 0 <= i < height :: level[i] == Link(null, 0)
    {
      this.score, this.obj, backward := score, obj, null;
      level := seq(height, i => Link(null, 0));
    }
  }

  /** The order of a node and a key: by score, then by object. */
  predicate Before(n: Node, score: real, obj: int) {
    n.score < score || (n.score == score && n.obj < obj)
  }

  /** Which scores are wanted; the ends belong to them or not. */
  datatype RangeSpec = RangeSpec(min: real, max: real, minex: bool, maxex: bool) {
    predicate GteMin(value: real) {
      if minex then value > min else value >= min
    }

    predicate LteMax(value: real) {
      if maxex then value < max else value <= max
    }

    predicate Has(value: real) {
      GteMin(value) && LteMax(value)
    }
  }

  /** A place in the order of the nodes: in front of a key, of a range, or behind a range. */
  datatype Cut = Key(score: real, obj: int) | Below(range: RangeSpec) | Through(range: RangeSpec)

  predicate Passes(n: Node, c: Cut) {
    match c
    case Key(score, obj) => Before(n, score, obj)
    case Below(range) => !range.GteMin(n.score)
    case Through(range) => range.LteMax(n.score)
  }

  ghost predicate Distinct(at: seq<Node>) {
    forall r, q | 0 <= r < q < |at| :: at[r] != at[q]
  }

  /** Behind the header, no node is before the one in front of it. */
  ghost predicate Ordered(at: seq<Node>) {
    forall r, q | 1 <= r < q < |at| :: !Before(at[q], at[r].score, at[r].obj)
  }

  ghost function Heights(at: seq<Node>): (h: seq<nat>)
    reads at`level
    ensures |h| == |at| && forall r | 0 <= r < |at| :: h[r] == |at[r].level|
  {
    if at == [] then [] else Heights(at[..|at| - 1]) + [|at[|at| - 1].level|]
  }

  /** The links of a level; none for a node that is not in it. */
  ghost function Links(at: seq<Node>, i: nat): (ls: seq<Link<Node?>>)
    reads at`level
    ensures |ls| == |at| && forall r | 0 <= r < |at| :: ls[r] == if i < |at[r].level| then at[r].level[i]
            else Link(null, 0)
  {
    if at == [] then [] else
    var n := at[|at| - 1];
    Links(at[..|at| - 1], i) + [if i < |n.level| then n.level[i] else Link(null, 0)]
  }

  ghost predicate LevelIsRight(at: seq<Node>, i: nat)
    reads at`level
  {
    Linked(at, null, Heights(at), i, Links(at, i))
  }

  /** The node behind which a node stands; none for the first one and the header. */
  ghost function Back(at: seq<Node>, r: nat): Node?
    requires r < |at|
  {
    if r <= 1 then null else at[r - 1]
  }

  ghost predicate BackwardIsRight(at: seq<Node>)
    reads at`backward
  {
    forall r | 0 <= r < |at| :: at[r].backward == Back(at, r)
  }

  /** `pos` nodes are before the cut. */
  ghost predicate Splits(at: seq<Node>, c: Cut, pos: nat) {
    pos < |at| && forall r | 1 <= r < |at| :: Passes(at[r], c) <==> r <= pos
  }

  ghost function Values(at: seq<Node>): seq<(real, int)>
    requires |at| > 0
  {
    seq(|at| - 1, k requires 0 <= k < |at| - 1 => (at[k + 1].score, at[k + 1].obj))
  }

  /** The number of nodes before a cut. */
  ghost function Position(at: seq<Node>, c: Cut): (pos: nat)
    requires |at| > 0
    ensures pos < |at|
  {
    if |at| == 1 then 0 else if Passes(at[|at| - 1], c) then |at| - 1 else Position(at[..|at| - 1], c)
  }

  lemma {:induction false} PositionSplits(at: seq<Node>, c: Cut)
    requires |at| > 0 && Ordered(at)
    ensures Splits(at, c, Position(at, c))
    decreases |at|
  {
    if |at| > 1 {
      var n := at[|at| - 1];
      if !Passes(n, c) {
        PositionSplits(at[..|at| - 1], c);
      }
    }
  }

  /** The levels of a list, which the heights of its nodes fit. */
  ghost predicate Shaped(at: seq<Node>, level: nat)
    requires |at| > 0
    reads at`level
  {
    && Distinct(at) && 1 <= level <= MAX_LEVEL == |at[0].level|
    && (forall r | 1 <= r < |at| :: 1 <= |at[r].level| <= level)
    && (forall i | 0 <= i < level :: LevelIsRight(at, i))
    && (forall i | level <= i < MAX_LEVEL :: at[0].level[i].forward == null)
  }

  /** A range that ends in front of the lowest score, or begins behind the highest, has no node. */
  lemma NoneBeyond(at: seq<Node>, range: RangeSpec)
    requires |at| > 0 && Ordered(at)
    ensures |at| == 1 || !range.GteMin(at[|at| - 1].score) || !range.LteMax(at[1].score) ==> forall k | 1 <= k < |at| ::
            !range.Has(at[k].score)
  {
    forall k | 1 <= k < |at|
      ensures at[1].score <= at[k].score <= at[|at| - 1].score
    {
      assert k > 1 ==> !Before(at[k], at[1].score, at[1].obj);
      assert k < |at| - 1 ==> !Before(at[|at| - 1], at[k].score, at[k].obj);
    }
  }

  lemma NoneAbove(at: seq<Node>, range: RangeSpec, k: nat)
    requires Ordered(at) && 1 <= k < |at| && !range.LteMax(at[k].score) && forall j | 1 <= j < k ::
             !range.Has(at[j].score)
    ensures forall j | 1 <= j < |at| :: !range.Has(at[j].score)
  {
    forall j | k < j < |at|
      ensures !range.Has(at[j].score)
    {
      assert !Before(at[j], at[k].score, at[k].obj);
    }
  }

  lemma NoneUnder(at: seq<Node>, range: RangeSpec, k: nat)
    requires Ordered(at) && 1 <= k < |at| && !range.GteMin(at[k].score) && forall j | k < j < |at| ::
             !range.Has(at[j].score)
    ensures forall j | 1 <= j < |at| :: !range.Has(at[j].score)
  {
    forall j | 1 <= j < k
      ensures !range.Has(at[j].score)
    {
      assert !Before(at[k], at[j].score, at[j].obj);
    }
  }

  lemma HeaderIsTall(at: seq<Node>, level: nat)
    requires |at| > 0 && Shaped(at, level)
    ensures |at[0].level| == MAX_LEVEL
  {
  }

  /** A level into which the header does not lead is used by no node. */
  lemma OneLevelLess(at: seq<Node>, level: nat)
    requires |at| > 0 && level > 1 && Shaped(at, level) && |at[0].level| == MAX_LEVEL && level <= MAX_LEVEL
    requires at[0].level[level - 1].forward == null
    ensures Shaped(at, level - 1)
  {
    hide LevelIsRight, Heights;
    Next(at, level - 1, 0);
    forall r | 1 <= r < |at|
      ensures |at[r].level| <= level - 1
    {
      assert Heights(at)[r] == |at[r].level|;
    }
  }

  /** Takes the node behind `pos` out of a level, or out of its count; says whether one is taken from
      a count of none on the way. */
  method UnlinkLevel(node: Node, up: Node, i: nat, ghost at: seq<Node>, ghost at': seq<Node>, ghost h: seq<nat>,
                     ghost pos: nat, ghost u: nat)
                     returns (belowZero: bool)
    requires u <= pos && pos + 1 < |at| == |h| && at' == Drop<Node>(at, pos + 1) && Distinct(at) && up == at[u] &&
             node == at[pos + 1]
    requires Heights(at) == h && IsLast(h, i, pos, u) && Linked(at, null, h, i, Links(at, i))
    modifies up`level
    ensures Heights(at) == h && node.level == old(node.level)
    ensures belowZero <==> |node.level| > i && node.level[i].span == 0
    ensures Linked(at', null, Drop<nat>(h, pos + 1), i, Drop(Links(at, i), pos + 1))
    ensures forall j: nat | j != i :: Links(at, j) == old(Links(at, j))
  {
    hide Linked, Heights, Links, Drop, IsLast;
    ghost var o := Links(at, i);
    LevelsAt(h, i, pos, u, at);
    UnlinkCase(at, h, i, o, pos, u);
    belowZero := up.level[i].forward == node && node.level[i].span == 0;
    if up.level[i].forward == node {
      SetLink(up, i, Link(node.level[i].forward, up.level[i].span + (node.level[i].span - 1)), at, u);
    } else {
      SetLink(up, i, up.level[i].(span := up.level[i].span - 1), at, u);
    }
    SameDropped(at, pos + 1);
  }

  /** Both ways to take a node out of a level make its links those of the nodes that are left. */
  lemma UnlinkCase(at: seq<Node>, h: seq<nat>, i: nat, o: seq<Link<Node?>>, pos: nat, u: nat)
    requires Distinct(at) && pos + 1 < |at| && Linked<Node?>(at, null, h, i, o) && IsLast(h, i, pos, u)
    ensures o[u].forward == at[pos + 1] <==> h[pos + 1] > i
    ensures h[pos + 1] > i ==>
      Linked<Node?>(Drop<Node?>(at, pos + 1), null, Drop<nat>(h, pos + 1), i,
             Drop(o[u := Link(o[pos + 1].forward, o[u].span + (o[pos + 1].span - 1))], pos + 1))
    ensures h[pos + 1] <= i ==>
      Linked<Node?>(Drop<Node?>(at, pos + 1), null, Drop<nat>(h, pos + 1), i,
        Drop(o[u := o[u].(span := o[u].span - 1)], pos + 1))
  {
    hide Linked, Drop, IsLast;
    LastIsBefore(h, i, pos, u);
    LinkedSizes(at, h, i, o);
    if h[pos + 1] > i {
      LinkOut<Node?>(at, null, h, i, o, pos, u);
      assert o[u].span + (o[pos + 1].span - 1) == o[u].span + o[pos + 1].span - 1;
    } else {
      PassedOver<Node?>(at, null, h, i, o, pos, u);
      assert o[u].(span := o[u].span - 1) == Link(o[u].forward, o[u].span - 1);
    }
  }

  lemma LastIsBefore(h: seq<nat>, i: nat, pos: nat, u: nat)
    requires IsLast(h, i, pos, u)
    ensures u <= pos < |h|
  {
  }

  lemma LinkedSizes(at: seq<Node>, h: seq<nat>, i: nat, o: seq<Link<Node?>>)
    requires Linked<Node?>(at, null, h, i, o)
    ensures |at| == |h| == |o|
  {
  }

  lemma LevelsAt(h: seq<nat>, i: nat, pos: nat, u: nat, at: seq<Node>)
    requires IsLast(h, i, pos, u) && Heights(at) == h && pos + 1 < |at|
    ensures |at[u].level| > i && Links(at, i)[u] == at[u].level[i]
    ensures h[pos + 1] > i <==> |at[pos + 1].level| > i
    ensures |at[pos + 1].level| > i ==> Links(at, i)[pos + 1] == at[pos + 1].level[i]
  {
    hide Heights, Links;
    assert Heights(at)[u] == h[u];
  }

  lemma SameDropped(s: seq<Node>, k: nat)
    requires k < |s|
    ensures Drop<Node>(s, k) == Drop<Node?>(s, k)
  {
  }

  /** The nodes that are left have the shape of a list. */
  lemma UnlinkedIsShaped(at: seq<Node>, at': seq<Node>, h: seq<nat>, pos: nat, level: nat)
    requires pos + 1 < |at| && at' == Drop<Node>(at, pos + 1) && Distinct(at) && h == Heights(at) && h[0] == MAX_LEVEL
    requires 1 <= level <= MAX_LEVEL && forall r | 1 <= r < |at| :: 1 <= h[r] <= level
    requires forall j: nat | j < level :: Linked(at', null, Drop<nat>(h, pos + 1), j, Drop(Links(at, j), pos + 1))
    requires forall i: nat | level <= i < MAX_LEVEL :: Links(at, i)[0].forward == null
    ensures |at'| > 0 && at'[0] == at[0] && Shaped(at', level)
  {
    hide Linked, Heights, Links;
    var h' := Drop<nat>(h, pos + 1);
    assert Heights(at') == h';
    forall j: nat
      ensures Links(at', j) == Drop(Links(at, j), pos + 1)
    {
    }
    IsShaped(at', level, h', MAX_LEVEL);
  }

  lemma BackwardDrop(at: seq<Node>, at': seq<Node>, pos: nat)
    requires pos + 1 < |at| && at' == Drop<Node>(at, pos + 1)
    requires forall r | 0 <= r < |at| && r != pos + 2 :: at[r].backward == Back(at, r)
    requires pos + 2 < |at| ==> at[pos + 2].backward == Back(at, pos + 1)
    ensures BackwardIsRight(at')
  {
    forall r | 0 <= r < |at'|
      ensures at'[r].backward == Back(at', r)
    {
      if r > pos {
        assert at'[r] == at[r + 1];
      } else {
        assert at'[r] == at[r] && at[r].backward == Back(at, r);
      }
    }
  }

  /** A key is in an ordered list just when it is that of the node behind those before it. */
  lemma FoundMember(at: seq<Node>, score: real, obj: int, pos: nat)
    requires |at| > 0 && Ordered(at) && Splits(at, Key(score, obj), pos)
    ensures (score, obj) in Values(at) <==> pos + 1 < |at| && at[pos + 1].score == score && at[pos + 1].obj == obj
    ensures pos + 1 < |at| ==> pos < |Values(at)| && Values(at)[pos] == (at[pos + 1].score, at[pos + 1].obj)
  {
    if (score, obj) in Values(at) {
      var k :| 0 <= k < |Values(at)| && Values(at)[k] == (score, obj);
      assert at[k + 1].score == score && at[k + 1].obj == obj;
      assert !Before(at[k + 1], score, obj);
      assert !(k + 1 <= pos);
      var p := at[pos + 1];
      assert !Before(p, score, obj);
      if k > pos {
        assert !Before(at[k + 1], p.score, p.obj);
        assert p.score == score && p.obj == obj;
      }
    }
    if pos + 1 < |at| {
      assert Values(at)[pos] == (at[pos + 1].score, at[pos + 1].obj);
    }
  }

  lemma OrderedDrop(at: seq<Node>, pos: nat)
    requires Ordered(at) && pos + 1 < |at|
    ensures Ordered(Drop<Node>(at, pos + 1)) && Values(Drop<Node>(at, pos + 1)) == Drop(Values(at), pos)
  {
  }

  lemma DropEnds(at: seq<Node>, pos: nat)
    requires pos + 1 < |at|
    ensures var at' := Drop<Node>(at, pos + 1);
            |at'| == |at| - 1 && at'[0] == at[0] && (pos + 2 < |at| ==> at'[|at| - 2] == at[|at| - 1]) &&
              (pos + 2 == |at| ==> at'[|at| - 2] == at[pos])
  {
  }

  lemma BackwardPut(at: seq<Node>, at': seq<Node>, pos: nat, x: Node)
    requires pos < |at| && at' == Put<Node>(at, pos + 1, x)
    requires forall r | 0 <= r < |at| && r != pos + 1 :: at[r].backward == Back(at, r)
    requires x.backward == (if pos == 0 then null else at[pos]) && (pos + 1 < |at| ==> at[pos + 1].backward == x)
    ensures BackwardIsRight(at')
  {
    forall r | 0 <= r < |at'|
      ensures at'[r].backward == Back(at', r)
    {
      if r > pos + 2 {
        assert at[r - 1].backward == Back(at, r - 1);
      } else if r <= pos {
        assert at[r].backward == Back(at, r);
      }
    }
  }

  /** In the lowest level each node leads to the one behind it. */
  lemma NextInRow(at: seq<Node>, level: nat, r: nat)
    requires |at| > 0 && Shaped(at, level) && r < |at|
    ensures |at[r].level| > 0 && at[r].level[0].forward == if r + 1 < |at| then at[r + 1] else null
  {
    hide LevelIsRight, Heights;
    assert LevelIsRight(at, 0);
    Next(at, 0, r);
    if r + 1 < |at| {
      assert Heights(at)[r + 1] > 0;
    }
  }

  lemma ShapedFacts(at: seq<Node>, level: nat)
    requires |at| > 0 && Shaped(at, level)
    ensures Distinct(at) && 1 <= level <= MAX_LEVEL
  {
  }

  lemma FoundFirst(at: seq<Node>, level: nat, pos: nat, update: seq<Node?>, rank: seq<nat>)
    requires Found(at, level, pos, update, rank) && level > 0
    ensures |update| > 0 && pos < |at| && update[0] == at[pos]
  {
    hide Heights;
  }

  lemma OrderedPut(at: seq<Node>, x: Node, score: real, obj: int, pos: nat)
    requires Ordered(at) && Splits(at, Key(score, obj), pos) && x.score == score && x.obj == obj
    ensures Ordered(Put<Node>(at, pos + 1, x)) && Values(Put<Node>(at, pos + 1, x)) ==
            Put(Values(at), pos, (score, obj))
  {
  }

  lemma NewHeight(at: seq<Node>, h: seq<nat>, pos: nat, newLevel: nat)
    requires pos < |h| && Heights(at) == Put<nat>(h, pos + 1, newLevel)
    ensures pos + 1 < |at| && |at[pos + 1].level| == newLevel
  {
    hide Heights;
    assert Heights(at)[pos + 1] == newLevel;
  }

  lemma PutEnds(at: seq<Node>, pos: nat, x: Node)
    requires pos < |at|
    ensures var at' := Put<Node>(at, pos + 1, x);
            |at'| == |at| + 1 && at'[0] == at[0] && at'[pos + 1] == x &&
              (pos + 1 < |at| ==> at'[pos + 2] == at[pos + 1] && at'[|at|] == at[|at| - 1])
  {
  }

  /** Some node behind the header has all levels of the list. */
  ghost predicate Tops(h: seq<nat>, level: nat) {
    exists r :: 1 <= r < |h| && h[r] == level
  }

  lemma TopIsUsed(at: seq<Node>, level: nat)
    requires |at| > 0 && Shaped(at, level)
    ensures level > 1 && at[0].level[level - 1].forward != null ==> Tops(Heights(at), level)
  {
    hide LevelIsRight, Heights, Linked;
    if level > 1 && at[0].level[level - 1].forward != null {
      assert LevelIsRight(at, level - 1);
      Next(at, level - 1, 0);
      assert Heights(at)[at[0].level[level - 1].span] == level;
    }
  }

  lemma TopIsLinked(at: seq<Node>, level: nat)
    requires |at| > 0 && Shaped(at, level) && level > 1 && Tops(Heights(at), level)
    ensures at[0].level[level - 1].forward != null
  {
    hide LevelIsRight, Heights, Linked;
    assert LevelIsRight(at, level - 1);
    Next(at, level - 1, 0);
  }

  lemma TopStays(at: seq<Node>, h: seq<nat>, low: nat, level: nat, pos: nat, newLevel: nat)
    requires |at| > 0 && Shaped(at, level) && pos < |h| && Heights(at) == Put<nat>(h, pos + 1, newLevel)
    requires level == (if newLevel > low then newLevel else low) && (low > 1 ==> Tops(h, low))
    ensures level > 1 ==> at[0].level[level - 1].forward != null
  {
    hide Shaped, Heights;
    if level > 1 {
      var h' := Heights(at);
      if newLevel >= low {
        assert h'[pos + 1] == level;
      } else {
        var r :| 1 <= r < |h| && h[r] == level;
        assert h'[if r <= pos then r else r + 1] == level;
      }
      TopIsLinked(at, level);
    }
  }

  lemma PutHeight(at: seq<Node>, x: Node, pos: nat, r: nat)
    requires pos < |at| && r <= |at|
    ensures |Put<Node>(at, pos + 1, x)[r].level| == if r == pos + 1 then |x.level| else if r <= pos then |at[r].level|
            else |at[r - 1].level|
  {
  }

  /** The shape of a list, from its heights and links. */
  lemma IsShaped(at: seq<Node>, level: nat, h: seq<nat>, top: nat)
    requires |at| > 0 && Distinct(at) && 1 <= level <= MAX_LEVEL == top && h == Heights(at) && h[0] == top
    requires forall r | 1 <= r < |at| :: 1 <= h[r] <= level
    requires forall j: nat | j < level :: Linked(at, null, h, j, Links(at, j))
    requires forall i: nat | level <= i < MAX_LEVEL :: Links(at, i)[0].forward == null
    ensures Shaped(at, level)
  {
    hide Linked, Heights, Links;
    assert forall i: nat | i < top :: Links(at, i)[0] == at[0].level[i];
  }

  lemma LevelsAreLinked(at: seq<Node>, level: nat)
    requires |at| > 0 && Shaped(at, level)
    ensures forall j: nat | j < level :: Linked(at, null, Heights(at), j, Links(at, j))
    ensures forall r | 1 <= r < |at| :: Heights(at)[r] <= level
  {
    hide Linked, Heights, Links;
    forall j: nat | j < level
      ensures Linked(at, null, Heights(at), j, Links(at, j))
    {
      assert LevelIsRight(at, j);
    }
  }

  lemma LinkedAreLevels(at: seq<Node>, level: nat)
    requires forall j: nat | j < level :: Linked(at, null, Heights(at), j, Links(at, j))
    ensures forall j | 0 <= j < level :: LevelIsRight(at, j)
  {
    hide Linked, Heights, Links;
  }

  /** The link of the header in a level above all nodes. */
  lemma HighLevel(at: seq<Node>, low: nat, i: nat)
    requires |at| > 0 && low <= i < |at[0].level| && at[0].level[i] == Link(null, |at| - 1)
    requires forall r | 1 <= r < |at| :: |at[r].level| <= low
    ensures LevelIsRight(at, i)
  {
    hide Heights, Links;
  }

  lemma HeaderIsLast(h: seq<nat>, low: nat, i: nat, pos: nat)
    requires low <= i && pos < |h| && h[0] > i && forall r | 1 <= r < |h| :: h[r] <= low
    ensures IsLast(h, i, pos, 0)
  {
  }

  /** The nodes and their levels with one node more. */
  lemma PutNodes(at: seq<Node>, x: Node, pos: nat)
    requires pos < |at| && Distinct(at) && x !in at
    ensures var at' := Put<Node>(at, pos + 1, x);
            Distinct(at') && at'[0] == at[0] && at'[pos + 1] == x && (forall u | 0 <= u <= pos :: at'[u] == at[u]) &&
            Heights(at') == Put<nat>(Heights(at), pos + 1, |x.level|) &&
            forall j: nat :: Drop(Links(at', j), pos + 1) == Links(at, j)
  {
    hide Heights, Links;
    var at' := Put<Node>(at, pos + 1, x);
    forall j: nat
      ensures Drop(Links(at', j), pos + 1) == Links(at, j)
    {
    }
  }

  /** Links a node into a level. */
  method LinkLevel(x: Node, prev: Node, i: nat, diff: nat, ghost at: seq<Node>, ghost at': seq<Node>, ghost h: seq<nat>,
                   ghost pos: nat, ghost u: nat)
    requires u <= pos < |at| == |h| && at' == Put<Node>(at, pos + 1, x) && Distinct(at') && prev == at'[u] &&
             x == at'[pos + 1] && diff == pos - u
    requires i < |x.level| && Heights(at') == Put<nat>(h, pos + 1, |x.level|) && IsLast(h, i, pos, u)
    requires Linked(at, null, h, i, Drop(Links(at', i), pos + 1))
    modifies x`level, prev`level
    ensures Heights(at') == old(Heights(at')) && |x.level| == old(|x.level|) &&
            Linked(at', null, Heights(at'), i, Links(at', i))
    ensures forall j: nat | j != i :: Links(at', j) == old(Links(at', j))
  {
    hide Linked, Heights, Links, Put, Drop, Distinct;
    LastIsIn(h, i, pos, u, at', x);
    ghost var o := Links(at', i);
    SetLink(x, i, Link(prev.level[i].forward, prev.level[i].span - diff), at', pos + 1);
    SetLink(prev, i, Link(x, diff + 1), at', u);
    PutLinks(o, pos, u, x);
    LinkIn(at, null, h, i, Drop(o, pos + 1), pos, u, x, |x.level|);
    SameNodes(at, pos + 1, x);
  }

  /** Counts a new node in a level that it is not in. */
  method PassLevel(x: Node, prev: Node, i: nat, ghost at: seq<Node>, ghost at': seq<Node>, ghost h: seq<nat>,
                   ghost pos: nat, ghost u: nat)
    requires u <= pos < |at| == |h| && at' == Put<Node>(at, pos + 1, x) && Distinct(at') && prev == at'[u] &&
             x == at'[pos + 1]
    requires i >= |x.level| && Heights(at') == Put<nat>(h, pos + 1, |x.level|) && IsLast(h, i, pos, u)
    requires Linked(at, null, h, i, Drop(Links(at', i), pos + 1))
    modifies prev`level
    ensures Heights(at') == old(Heights(at')) && |x.level| == old(|x.level|) &&
            Linked(at', null, Heights(at'), i, Links(at', i))
    ensures forall j: nat | j != i :: Links(at', j) == old(Links(at', j))
  {
    hide Linked, Heights, Links, Put, Drop, Distinct;
    LastIsIn(h, i, pos, u, at', x);
    ghost var o := Links(at', i);
    SetLink(prev, i, prev.level[i].(span := prev.level[i].span + 1), at', u);
    PutOther(o, pos, u);
    PassOver(at, null, h, i, Drop(o, pos + 1), pos, u, x, |x.level|, o[pos + 1]);
    SameNodes(at, pos + 1, x);
  }

  lemma SameNodes(s: seq<Node>, k: nat, x: Node)
    requires k <= |s|
    ensures Put<Node>(s, k, x) == Put<Node?>(s, k, x)
  {
  }

  lemma LastIsIn(h: seq<nat>, i: nat, pos: nat, u: nat, at': seq<Node>, x: Node)
    requires IsLast(h, i, pos, u) && Heights(at') == Put<nat>(h, pos + 1, |x.level|) && |at'| == |h| + 1
    ensures |at'[u].level| > i && Links(at', i)[u] == at'[u].level[i]
  {
    hide Heights, Links;
    assert Heights(at')[u] == h[u];
  }

  lemma PutLinks(o: seq<Link<Node?>>, pos: nat, u: nat, x: Node)
    requires u <= pos && pos + 1 < |o|
    ensures o[pos + 1 := Link(o[u].forward, o[u].span - (pos - u))][u := Link(x, pos - u + 1)] ==
            WithNode(Drop(o, pos + 1), pos, u, x)
  {
  }

  lemma PutOther(o: seq<Link<Node?>>, pos: nat, u: nat)
    requires u <= pos && pos + 1 < |o|
    ensures o[u := o[u].(span := o[u].span + 1)] == WithOther(Drop(o, pos + 1), pos, u, o[pos + 1])
  {
  }

  /** Changes one link of a node. */
  method SetLink(n: Node, i: nat, l: Link<Node?>, ghost s: seq<Node>, ghost r: nat)
    requires Distinct(s) && r < |s| && s[r] == n && i < |n.level|
    modifies n`level
    ensures n.level == old(n.level)[i := l] && Heights(s) == old(Heights(s)) && Links(s, i) == old(Links(s, i))[r := l]
    ensures forall j: nat | j != i :: Links(s, j) == old(Links(s, j))
  {
    n.level := n.level[i := l];
    hide Heights, Links;
    assert Heights(s) == old(Heights(s));
    forall j: nat | j != i
      ensures Links(s, j) == old(Links(s, j))
    {
    }
  }

  lemma LastFacts(at: seq<Node>, i: nat, pos: nat, r: nat)
    requires IsLast(Heights(at), i, pos, r)
    ensures r <= pos && r < |at| && |at[r].level| > i
  {
    hide Heights;
  }

  lemma HeaderAlone(h: Node)
    requires |h.level| == MAX_LEVEL && forall i | 0 <= i < MAX_LEVEL :: h.level[i] == Link(null, 0)
    ensures Shaped([h], 1)
  {
    hide Heights, Links;
    assert LinkIsRight([h], null, Heights([h]), 0, 0, h.level[0]);
    assert LevelIsRight([h], 0);
  }

  /** What a search finds: in each level the last node up to a position, which is that of the lowest
      level. */
  ghost predicate Found(at: seq<Node>, level: nat, pos: nat, update: seq<Node?>, rank: seq<nat>)
    reads at`level
  {
    && level <= MAX_LEVEL == |update| == |rank| && pos < |at| && rank[0] == pos
    && forall j | 0 <= j < level :: rank[j] < |at| && update[j] == at[rank[j]] && IsLast(Heights(at), j, pos, rank[j])
  }

  /** Where a link leads to. */
  lemma Next(at: seq<Node>, i: nat, r: nat)
    requires LevelIsRight(at, i) && r < |at| && i < |at[r].level|
    ensures var l := at[r].level[i];
            LinkIsRight(at, null, Heights(at), i, r, l) && l.span >= 0 && r + l.span < |at| &&
            (l.forward != null ==> l.span > 0 && at[r + l.span] == l.forward && |l.forward.level| > i)
  {
    hide Heights, Links, Clear;
    assert LinkIsRight(at, null, Heights(at), i, r, Links(at, i)[r]);
  }

  /** A link counts no node ahead just when its node is the last one.  When that node is taken out, the
      source takes one from this count before it adds the sum to another: in a build that checks
      unsigned arithmetic it stops there. */
  lemma LastCountsNone(at: seq<Node>, level: nat, i: nat, r: nat)
    requires |at| > 0 && Shaped(at, level) && i < level && r < |at| && i < |at[r].level|
    ensures at[r].level[i].span == 0 <==> r == |at| - 1
  {
    hide LevelIsRight, Heights;
    assert LevelIsRight(at, i);
    Next(at, i, r);
  }

  lemma LastBefore(at: seq<Node>, i: nat, r: nat, c: Cut, pos: nat)
    requires LevelIsRight(at, i) && r < |at| && i < |at[r].level| && Splits(at, c, pos) && r <= pos
    requires at[r].level[i].forward != null ==> !Passes(at[r].level[i].forward, c)
    ensures IsLast(Heights(at), i, pos, r)
  {
    hide LevelIsRight, Heights;
    Next(at, i, r);
  }
}
