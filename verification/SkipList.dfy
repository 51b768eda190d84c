/** The skip list (src/svalue/skip_list.rs).

    The number of levels of a new node is drawn at random; here it is a parameter. */
module SkipLists {
  import opened Options
  import opened SkipLevels
  import opened SkipNodes

  class SkipList {
    const header: Node
    var tail: Node?
    var length: nat
    var level: nat
    ghost var at: seq<Node>

    ghost predicate Shape()
      reads this, at`level
    {
      |at| > 0 && at[0] == header && Shaped(at, level)
    }

    ghost predicate Valid()
      reads this, at`level, at`backward
    {
      && Shape() && |at| == length + 1 && Ordered(at) && BackwardIsRight(at)
      && (level > 1 ==> header.level[level - 1].forward != null)
      && tail == if length == 0 then null else at[length]
    }

    /** The objects with their scores, in order. */
    ghost function Contents(): seq<(real, int)>
      requires |at| > 0
      reads this
    {
      Values(at)
    }

    constructor ()
      ensures Valid() && Contents() == [] && fresh(at)
    {
      var h := new Node(MAX_LEVEL, 0.0, 0);
      header, tail, length, level, at := h, null, 0, 1, [h];
      new;
      HeaderAlone(h);
      hide Shaped;
    }

    lemma LevelHolds(i: nat)
      requires Shape() && i < level
      ensures |at| > 0 && at[0] == header && LevelIsRight(at, i) && i < |header.level|
    {
      hide LevelIsRight;
    }

    // ---- searching ----

    /** Walks along a level while the next node is before the cut, counting the nodes passed. */
    method Walk(i: nat, c: Cut, from: Node, start: nat, ghost pos: nat) returns (x: Node, rank: nat)
      requires Shape() && i < level && Splits(at, c, pos) && start <= pos && from == at[start] && |from.level| > i
      ensures IsLast(Heights(at), i, pos, rank) && x == at[rank]
    {
      hide Shape, LevelIsRight, Heights, LinkIsRight, IsLast;
      LevelHolds(i);
      x, rank := from, start;
      Next(at, i, rank);
      while x.level[i].forward != null && Passes(x.level[i].forward, c)
        invariant rank <= pos && x == at[rank] && |x.level| > i
        decreases pos - rank
      {
        Next(at, i, rank);
        rank, x := rank + x.level[i].span, x.level[i].forward;
      }
      LastBefore(at, i, rank, c, pos);
    }

    /** The last node in front of a key, in each level, and its rank. */
    method Search(score: real, obj: int) returns (update: seq<Node?>, rank: seq<nat>)
      requires Shape() && Ordered(at)
      ensures Found(at, level, Position(at, Key(score, obj)), update, rank)
    {
      hide Shape, LevelIsRight, Heights, IsLast, Ordered, LinkIsRight;
      LevelsFit();
      LevelHolds(0);
      ghost var pos := Position(at, Key(score, obj));
      PositionSplits(at, Key(score, obj));
      update := seq(MAX_LEVEL, i => null);
      rank := seq(MAX_LEVEL, i => 0);
      var x := header;
      var i := level;
      while i > 0
        invariant 0 <= i <= level <= MAX_LEVEL && |update| == MAX_LEVEL && |rank| == MAX_LEVEL
        invariant if i == level then x == header else rank[i] <= pos && x == at[rank[i]] && |x.level| > i
        invariant forall j | i <= j < level ::
                  rank[j] < |at| && update[j] == at[rank[j]] && IsLast(Heights(at), j, pos, rank[j])
      {
        i := i - 1;
        rank := rank[i := if i == level - 1 then 0 else rank[i + 1]];
        var r;
        x, r := Walk(i, Key(score, obj), x, rank[i], pos);
        LastFacts(at, i, pos, r);
        rank, update := rank[i := r], update[i := x];
      }
      AllInLevel(pos, rank[0]);
    }

    lemma LevelsFit()
      requires Shape()
      ensures 1 <= level <= MAX_LEVEL == |header.level|
    {
      hide LevelIsRight;
    }

    lemma AllInLevel(pos: nat, r: nat)
      requires Shape() && IsLast(Heights(at), 0, pos, r)
      ensures r == pos
    {
      hide LevelIsRight, Heights;
      var h := Heights(at)[pos];
      assert h > 0 || pos == 0;
    }

    // ---- insertion ----

    /** Brings the header into use in higher levels. */
    method Raise(newLevel: nat, update: seq<Node?>, rank: seq<nat>, ghost pos: nat)
                 returns (update': seq<Node?>, rank': seq<nat>)
      requires Shape() && |at| == length + 1 && level <= newLevel <= MAX_LEVEL && Found(at, level, pos, update, rank)
      modifies `level, header`level
      ensures Shape() && level == newLevel && Found(at, level, pos, update', rank') && Heights(at) == old(Heights(at))
    {
      hide Linked, Heights, Links, IsLast, LevelIsRight;
      update', rank' := update, rank;
      ghost var low, h := level, Heights(at);
      LevelsAreLinked(at, low);
      for i := level to newLevel
        invariant level == low <= i && Heights(at) == h && Found(at, i, pos, update', rank')
        invariant forall j: nat | j < i :: Linked(at, null, h, j, Links(at, j))
        invariant |header.level| == MAX_LEVEL && forall j | low <= j < MAX_LEVEL :: header.level[j].forward == null
      {
        rank', update' := rank'[i := 0], update'[i := header];
        RaiseLevel(i, low, h);
        HeaderIsLast(h, low, i, pos);
      }
      LinkedAreLevels(at, newLevel);
      level := newLevel;
    }

    /** Brings the header into use in one level. */
    method RaiseLevel(i: nat, ghost low: nat, ghost h: seq<nat>)
      requires |at| == length + 1 && at[0] == header && Distinct(at) && low <= i < |header.level| && Heights(at) == h
      requires header.level[i].forward == null && forall r | 1 <= r < |at| :: h[r] <= low
      modifies header`level
      ensures Heights(at) == h && Linked(at, null, h, i, Links(at, i)) && |header.level| == |old(header.level)|
      ensures header.level[i].forward == null && forall j | 0 <= j < |header.level| && j != i ::
              header.level[j] == old(header.level)[j]
      ensures forall j: nat | j != i :: Links(at, j) == old(Links(at, j))
    {
      hide Linked, Heights, Links;
      SetLink(header, i, header.level[i].(span := length), at, 0);
      HighLevel(at, low, i);
    }

    /** Links a node in, level by level; in the levels above it, it is passed over. */
    method LinkNode(x: Node, newLevel: nat, update: seq<Node?>, rank: seq<nat>, ghost at': seq<Node>, ghost pos: nat)
      requires Shape() && Found(at, level, pos, update, rank) && x !in at && |x.level| == newLevel &&
               1 <= newLevel <= level
      requires at' == Put<Node>(at, pos + 1, x)
      modifies at`level, x`level
      ensures Shaped(at', level) && Heights(at') == old(Put<nat>(Heights(at), pos + 1, newLevel))
    {
      hide Linked, Heights, Links, IsLast, Put, Drop, LevelIsRight, Found, Shaped, Shape;
      ghost var h, h' := Heights(at), Heights(at');
      LinkReady(x, update, rank, at', pos);
      for i := 0 to newLevel
        invariant Heights(at') == h' && |x.level| == newLevel
        invariant forall j: nat | j < i :: Linked(at', null, h', j, Links(at', j))
        invariant forall j: nat | j >= i :: Links(at', j) == old(Links(at', j))
      {
        LinkLevel(x, update[i], i, rank[0] - rank[i], at, at', h, pos, rank[i]);
      }
      for i := newLevel to level
        invariant Heights(at') == h' && |x.level| == newLevel
        invariant forall j: nat | j < i :: Linked(at', null, h', j, Links(at', j))
        invariant forall j: nat | j >= i :: Links(at', j) == old(Links(at', j))
      {
        PassLevel(x, update[i], i, at, at', h, pos, rank[i]);
      }
      IsShaped(at', level, h', MAX_LEVEL);
    }

    /** What the linking of a node starts from. */
    lemma LinkReady(x: Node, update: seq<Node?>, rank: seq<nat>, at': seq<Node>, pos: nat)
      requires Shape() && Found(at, level, pos, update, rank) && x !in at && 1 <= |x.level| <= level &&
               at' == Put<Node>(at, pos + 1, x)
      ensures |at| > 0 && Distinct(at) && Distinct(at') && |update| == |rank| == MAX_LEVEL && pos < |at| &&
              at'[pos + 1] == x && rank[0] == pos && 1 <= level <= MAX_LEVEL
      ensures forall j | 0 <= j < level ::
              rank[j] <= pos && update[j] == at'[rank[j]] && update[j] in at && IsLast(Heights(at), j, pos, rank[j])
      ensures forall j: nat | j < level :: Linked(at, null, Heights(at), j, Drop(Links(at', j), pos + 1))
      ensures at'[0] == at[0] && Heights(at') == Put<nat>(Heights(at), pos + 1, |x.level|) &&
              Heights(at')[0] == MAX_LEVEL && forall r | 1 <= r < |at'| :: 1 <= Heights(at')[r] <= level
      ensures forall i: nat | level <= i < MAX_LEVEL :: Links(at', i)[0].forward == null
    {
      hide Linked, Heights, Links, Drop, Put;
      PutNodes(at, x, pos);
      forall j | 0 <= j < level
        ensures Linked(at, null, Heights(at), j, Drop(Links(at', j), pos + 1)) && rank[j] <= pos
      {
        assert LevelIsRight(at, j);
      }
      forall r | 1 <= r < |at'|
        ensures 1 <= Heights(at')[r] <= level
      {
        PutHeight(at, x, pos, r);
      }
    }

    /** Adds an object behind all that are before it. */
    method Insert(score: real, obj: int, newLevel: nat) returns (ghost pos: nat)
      requires Valid() && 1 <= newLevel <= MAX_LEVEL
      modifies this, at
      ensures Valid() && length == old(length) + 1 && pos == Position(old(at), Key(score, obj))
      ensures Contents() == Put(old(Contents()), pos, (score, obj))
      ensures at == Put<Node>(old(at), pos + 1, at[pos + 1]) && fresh(at[pos + 1]) && |at[pos + 1].level| == newLevel
    {
      hide Heights, LevelIsRight, Found, Put, Ordered, Shaped, Distinct, BackwardIsRight, Tops, Values, Splits,
        Position;
      pos := Position(at, Key(score, obj));
      ghost var h, low := Heights(at), level;
      ShapedFacts(at, level);
      TopIsUsed(at, level);
      PositionSplits(at, Key(score, obj));
      var update, rank := Search(score, obj);
      if newLevel > level {
        update, rank := Raise(newLevel, update, rank, pos);
      }
      ghost var x := InsertNode(score, obj, newLevel, update, rank, pos);
      OrderedPut(old(at), x, score, obj, pos);
      TopStays(at, h, low, level, pos, newLevel);
      PutEnds(old(at), pos, x);
    }

    /** Makes a node and links it in where a search has found its place. */
    method InsertNode(score: real, obj: int, newLevel: nat, update: seq<Node?>, rank: seq<nat>, ghost pos: nat)
                      returns (ghost x: Node)
      requires Shape() && |at| == length + 1 && BackwardIsRight(at) && Found(at, level, pos, update, rank) &&
               1 <= newLevel <= level
      modifies this, at
      ensures at == Put<Node>(old(at), pos + 1, x) && fresh(x) && x.score == score && x.obj == obj &&
              |x.level| == newLevel
      ensures Shape() && |at| == length + 1 && BackwardIsRight(at) && level == old(level)
      ensures Heights(at) == Put<nat>(old(Heights(at)), pos + 1, newLevel)
      ensures tail == if pos == old(length) then x else old(tail)
    {
      var curr := new Node(newLevel, score, obj);
      x := curr;
      PutEnds(at, pos, curr);
      LinkUp(curr, newLevel, update, rank, Put<Node>(at, pos + 1, curr), pos);
    }

    /** Links a node in, forward and backward, and counts it. */
    method LinkUp(curr: Node, newLevel: nat, update: seq<Node?>, rank: seq<nat>, ghost at': seq<Node>, ghost pos: nat)
      requires Shape() && |at| == length + 1 && BackwardIsRight(at) && Found(at, level, pos, update, rank) &&
               1 <= newLevel <= level
      requires curr !in at && |curr.level| == newLevel && at' == Put<Node>(at, pos + 1, curr)
      modifies this, at, curr
      ensures at == at' && Shape() && |at| == length + 1 && BackwardIsRight(at) && level == old(level)
      ensures Heights(at) == Put<nat>(old(Heights(at)), pos + 1, newLevel) && |curr.level| == newLevel
      ensures tail == if pos == old(length) then curr else old(tail)
    {
      hide Heights, LevelIsRight, Found, Put, Shaped, Distinct, BackwardIsRight;
      FoundFirst(at, level, pos, update, rank);
      ShapedFacts(at, level);
      LinkForward(curr, newLevel, update, rank, at', pos);
      LinkBackward(curr, update[0], at', pos);
      length, at := length + 1, at';
    }

    method LinkForward(curr: Node, newLevel: nat, update: seq<Node?>, rank: seq<nat>, ghost at': seq<Node>,
                       ghost pos: nat)
      requires Shape() && Found(at, level, pos, update, rank) && 1 <= newLevel <= level
      requires curr !in at && |curr.level| == newLevel && at' == Put<Node>(at, pos + 1, curr)
      modifies at`level, curr`level
      ensures |at'| == |at| + 1 && at'[0] == header && Shaped(at', level)
      ensures Heights(at') == Put<nat>(old(Heights(at)), pos + 1, newLevel) && |curr.level| == newLevel
      ensures curr.level[0].forward == (if pos + 1 < |at| then at[pos + 1] else null)
    {
      hide Heights, LevelIsRight, Found, Put, Shaped, Distinct;
      FoundFirst(at, level, pos, update, rank);
      PutEnds(at, pos, curr);
      LinkNode(curr, newLevel, update, rank, at', pos);
      NextInRow(at', level, pos + 1);
      NewHeight(at', old(Heights(at)), pos, newLevel);
    }

    /** Links a node, and the one behind it, backward. */
    method LinkBackward(curr: Node, prev: Node, ghost at': seq<Node>, ghost pos: nat)
      requires pos < |at| && at[0] == header && prev == at[pos] && curr !in at && at' == Put<Node>(at, pos + 1, curr) &&
               Distinct(at)
      requires BackwardIsRight(at) && |curr.level| > 0 && curr.level[0].forward == if pos + 1 < |at| then at[pos + 1]
               else null
      modifies curr`backward, at`backward, `tail
      ensures BackwardIsRight(at') && tail == if pos + 1 == |at| then curr else old(tail)
    {
      assert prev == header <==> pos == 0;
      curr.backward := if prev == header then null else prev;
      var next := curr.level[0].forward;
      if next != null {
        next.backward := curr;
      } else {
        tail := curr;
      }
      forall r | 0 <= r < |at| && r != pos + 1
        ensures at[r].backward == Back(at, r)
      {
        assert at[r] in at && old(at[r].backward) == Back(at, r);
      }
      assert pos + 1 < |at| ==> at[pos + 1] in at;
      hide Put, Distinct;
      BackwardPut(at, at', pos, curr);
    }

    // ---- deletion ----

    /** Takes out the first node with this score and object, if there is one.  The source counts below
        zero on the way just when that node is the last one: a build that checks unsigned arithmetic
        stops there, and the others come out right. */
    method Delete(score: real, obj: int) returns (deleted: bool, belowZero: bool)
      requires Valid()
      modifies this, at
      ensures Valid() && (deleted <==> (score, obj) in old(Contents()))
      ensures var pos := Position(old(at), Key(score, obj));
              if deleted then pos < |old(Contents())| && old(Contents())[pos] == (score, obj) &&
                Contents() == Drop(old(Contents()), pos) &&
                              at == Drop<Node>(old(at), pos + 1) && length == old(length) - 1
              else at == old(at) && length == old(length)
      ensures belowZero <==> deleted && Position(old(at), Key(score, obj)) + 1 == old(length)
    {
      hide Heights, LevelIsRight, Found, Put, Drop, Shaped, Distinct, BackwardIsRight, Ordered, Values;
      ghost var pos := Position(at, Key(score, obj));
      PositionSplits(at, Key(score, obj));
      var update, rank := Search(score, obj);
      ShapedFacts(at, level);
      FoundFirst(at, level, pos, update, rank);
      NextInRow(at, level, pos);
      FoundMember(at, score, obj, pos);
      var x := update[0].level[0].forward;
      if x != null && x.score == score && x.obj == obj {
        OrderedDrop(at, pos);
        belowZero := DeleteNode(x, update, rank, Drop<Node>(at, pos + 1), pos);
        return true, belowZero;
      }
      return false, false;
    }

    /** Takes a node out of all levels. */
    method DeleteNode(node: Node, update: seq<Node?>, ghost rank: seq<nat>, ghost at': seq<Node>, ghost pos: nat)
      returns (belowZero: bool)
      requires Valid() && Found(at, level, pos, update, rank) && pos + 1 < |at| && node == at[pos + 1]
      requires at' == Drop<Node>(at, pos + 1) && Ordered(at')
      modifies this, at
      ensures Valid() && at == at' && length == old(length) - 1
      ensures belowZero <==> pos + 2 == |old(at)|
    {
      hide Heights, LevelIsRight, Found, Drop, Shaped, Distinct, BackwardIsRight, Ordered;
      DropEnds(at, pos);
      ShapedFacts(at, level);
      NextInRow(at, level, pos + 1);
      belowZero := UnlinkNode(node, update, rank, at', pos);
      UnlinkBackward(node, at', pos);
      LowerLevel(at');
      length, at := length - 1, at';
    }

    /** Links the level of each found node past the one taken out, and counts one node less. */
    method UnlinkNode(node: Node, update: seq<Node?>, ghost rank: seq<nat>, ghost at': seq<Node>, ghost pos: nat)
      returns (belowZero: bool)
      requires Shape() && Found(at, level, pos, update, rank) && pos + 1 < |at| && node == at[pos + 1]
      requires at' == Drop<Node>(at, pos + 1)
      modifies at`level
      ensures |at'| > 0 && at'[0] == header && Shaped(at', level)
      ensures node.level == old(node.level) && (belowZero <==> pos + 2 == |at|)
    {
      hide Linked, Heights, Links, IsLast, Drop, LevelIsRight, Found, Shaped, Shape;
      ghost var h := Heights(at);
      UnlinkReady(update, rank, pos);
      CountsOf(pos + 1);
      belowZero := false;
      for i := 0 to level
        invariant Heights(at) == h && node.level == old(node.level) && (belowZero <==> i > 0 && pos + 2 == |at|)
        invariant forall j: nat | j < i :: Linked(at', null, Drop<nat>(h, pos + 1), j, Drop(Links(at, j), pos + 1))
        invariant forall j: nat | j >= i :: Links(at, j) == old(Links(at, j))
      {
        var below := UnlinkLevel(node, update[i], i, at, at', h, pos, rank[i]);
        belowZero := belowZero || below;
      }
      UnlinkedIsShaped(at, at', h, pos, level);
    }

    /** The last node has no node ahead of it in any level, the others have some in all of theirs. */
    lemma CountsOf(r: nat)
      requires Shape() && 1 <= r < |at|
      ensures 1 <= |at[r].level| <= level
      ensures forall i | 0 <= i < |at[r].level| :: at[r].level[i].span == 0 <==> r == |at| - 1
    {
      ShapedFacts(at, level);
      assert 1 <= Heights(at)[r] <= level;
      hide Linked, Links, LevelIsRight, Shaped, Heights;
      forall i | 0 <= i < |at[r].level|
        ensures at[r].level[i].span == 0 <==> r == |at| - 1
      {
        LastCountsNone(at, level, i, r);
      }
    }

    /** What the unlinking of a node starts from. */
    lemma UnlinkReady(update: seq<Node?>, rank: seq<nat>, pos: nat)
      requires Shape() && Found(at, level, pos, update, rank)
      ensures |at| > 0 && at[0] == header && Distinct(at) && |update| == |rank| == MAX_LEVEL && 1 <= level <= MAX_LEVEL
      ensures forall j | 0 <= j < level ::
        rank[j] <= pos < |at| && update[j] == at[rank[j]] && update[j] in at && IsLast(Heights(at), j, pos, rank[j])
      ensures forall j: nat | j < level :: Linked(at, null, Heights(at), j, Links(at, j))
      ensures Heights(at)[0] == MAX_LEVEL && forall r | 1 <= r < |at| :: 1 <= Heights(at)[r] <= level
      ensures forall i: nat | level <= i < MAX_LEVEL :: Links(at, i)[0].forward == null
    {
      hide Linked, Heights, Links;
      forall j: nat | j < level
        ensures Linked(at, null, Heights(at), j, Links(at, j)) && rank[j] <= pos
      {
        assert LevelIsRight(at, j);
      }
    }

    /** The node behind the one taken out, or the tail, comes to be behind the one in front of it. */
    method UnlinkBackward(node: Node, ghost at': seq<Node>, ghost pos: nat)
      requires |at| == length + 1 && BackwardIsRight(at) && Distinct(at) && pos + 1 < |at| && node == at[pos + 1]
      requires at' == Drop<Node>(at, pos + 1) && |node.level| > 0
      requires node.level[0].forward == if pos + 2 < |at| then at[pos + 2] else null
      modifies at`backward, `tail
      ensures BackwardIsRight(at')
      ensures tail == if pos + 2 < |at| then old(tail) else if pos == 0 then null else at[pos]
    {
      assert node.backward == Back(at, pos + 1);
      var next := node.level[0].forward;
      if next != null {
        next.backward := node.backward;
      } else {
        tail := node.backward;
      }
      forall r | 0 <= r < |at| && r != pos + 2
        ensures at[r].backward == Back(at, r)
      {
        assert at[r] in at && old(at[r].backward) == Back(at, r);
      }
      assert pos + 2 < |at| ==> at[pos + 2] in at;
      hide Drop, Distinct;
      BackwardDrop(at, at', pos);
    }

    /** Gives up the levels that no node has any more. */
    method LowerLevel(ghost at': seq<Node>)
      requires |at'| > 0 && at'[0] == header && Shaped(at', level)
      modifies `level
      ensures Shaped(at', level) && (level > 1 ==> header.level[level - 1].forward != null)
    {
      hide Shaped;
      ShapedFacts(at', level);
      HeaderIsTall(at', level);
      while level > 1 && header.level[level - 1].forward == null
        invariant 1 <= level <= MAX_LEVEL == |header.level| && Shaped(at', level)
        decreases level
      {
        OneLevelLess(at', level);
        level := level - 1;
      }
    }

    // ---- ranges ----

    /** The last node in front of a cut, from the highest level down. */
    method Descend(c: Cut) returns (x: Node)
      requires Valid()
      ensures Position(at, c) < |at| && x == at[Position(at, c)]
    {
      hide LevelIsRight, Heights, IsLast, Ordered, Shaped;
      LevelsFit();
      LevelHolds(0);
      ghost var pos := Position(at, c);
      var rank: nat := 0;
      PositionSplits(at, c);
      x := header;
      var i := level;
      while i > 0
        invariant 0 <= i <= level && rank <= pos && x == at[rank] && |x.level| >= i
        invariant i < level ==> IsLast(Heights(at), i, pos, rank)
      {
        i := i - 1;
        x, rank := Walk(i, c, x, rank, pos);
        LastFacts(at, i, pos, rank);
      }
      AllInLevel(pos, rank);
    }

    method HighestScore() returns (r: Option<real>)
      requires Valid()
      ensures r == if length == 0 then None else Some(at[length].score)
    {
      hide LevelIsRight, Ordered, BackwardIsRight, Shaped;
      r := if tail == null then None else Some(tail.score);
    }

    method LowestScore() returns (r: Option<real>)
      requires Valid()
      ensures r == if length == 0 then None else Some(at[1].score)
    {
      hide LevelIsRight, Ordered, BackwardIsRight, Shaped;
      NextInRow(at, level, 0);
      var first := header.level[0].forward;
      r := if first == null then None else Some(first.score);
    }

    /** Whether the range and the scores from the lowest to the highest can meet. */
    method IsInRange(range: RangeSpec) returns (meets: bool)
      requires Valid()
      ensures meets ==> length > 0 && range.GteMin(at[length].score) && range.LteMax(at[1].score)
      ensures !meets ==> forall k | 1 <= k < |at| :: !range.Has(at[k].score)
    {
      if range.min > range.max || (range.min == range.max && (range.minex || range.maxex)) {
        return false;
      }
      NoneBeyond(at, range);
      hide Ordered, BackwardIsRight, Shaped, RangeSpec.GteMin, RangeSpec.LteMax;
      var highest := HighestScore();
      if highest == None || !range.GteMin(highest.value) {
        return false;
      }
      var lowest := LowestScore();
      if lowest == None || !range.LteMax(lowest.value) {
        return false;
      }
      return true;
    }

    /** The first node whose score is in a range. */
    method FirstInRange(range: RangeSpec) returns (r: Node?, ghost k: nat)
      requires Valid()
      ensures r == null <==> forall j | 1 <= j < |at| :: !range.Has(at[j].score)
      ensures r != null ==> 1 <= k < |at| && r == at[k] && range.Has(r.score) && forall j | 1 <= j < k ::
              !range.Has(at[j].score)
    {
      hide BackwardIsRight, Shaped, RangeSpec.GteMin, RangeSpec.LteMax;
      k := 0;
      var meets := IsInRange(range);
      if !meets {
        return null, k;
      }
      var x := Descend(Below(range));
      k := Position(at, Below(range));
      PositionSplits(at, Below(range));
      assert !Passes(at[length], Below(range));
      NextInRow(at, level, k);
      x, k := x.level[0].forward, k + 1;
      if !range.LteMax(x.score) {
        NoneAbove(at, range, k);
        return null, k;
      }
      return x, k;
    }

    /** The last node whose score is in a range. */
    method LastInRange(range: RangeSpec) returns (r: Node?, ghost k: nat)
      requires Valid()
      ensures r == null <==> forall j | 1 <= j < |at| :: !range.Has(at[j].score)
      ensures r != null ==> 1 <= k < |at| && r == at[k] && range.Has(r.score) && forall j | k < j < |at| ::
              !range.Has(at[j].score)
    {
      hide BackwardIsRight, Shaped, RangeSpec.GteMin, RangeSpec.LteMax;
      k := 0;
      var meets := IsInRange(range);
      if !meets {
        return null, k;
      }
      var x := Descend(Through(range));
      k := Position(at, Through(range));
      PositionSplits(at, Through(range));
      assert Passes(at[1], Through(range));
      if !range.GteMin(x.score) {
        NoneUnder(at, range, k);
        return null, k;
      }
      return x, k;
    }
  }
}
