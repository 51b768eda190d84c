/** The links of one level of a skip list, as values (src/svalue/skip_list.rs).

    Position 0 is the header; a node's position is its rank.  `heights` gives the number of levels
    of the node at each position. */
module SkipLevels {

  /** One level of a node: the next node of that level, and how far ahead it is; without one, how far
      ahead the last node is. */
  datatype Link<T> = Link(forward: T, span: int)

  /** No node of this level stands between two positions. */
  ghost predicate Clear(heights: seq<nat>, i: nat, from: int, to: int) {
    forall q | from < q < to && 0 <= q < |heights| :: heights[q] <= i
  }

  /** The link of the node at `r`, in level `i`, leads to the next node of the level, `none` standing
      for its absence. */
  ghost predicate LinkIsRight<T>(at: seq<T>, none: T, heights: seq<nat>, i: nat, r: nat, l: Link<T>)
    requires |at| == |heights| && r < |at|
  {
    && 0 <= l.span && r + l.span < |at|
    && if l.forward == none then r + l.span == |at| - 1 && Clear(heights, i, r, |at|)
       else l.span > 0 && at[r + l.span] == l.forward && heights[r + l.span] > i && Clear(heights, i, r, r + l.span)
  }

  ghost predicate Linked<T>(at: seq<T>, none: T, heights: seq<nat>, i: nat, ls: seq<Link<T>>) {
    |at| == |heights| == |ls| && none !in at && forall r | 0 <= r < |at| && heights[r] > i ::
      LinkIsRight(at, none, heights, i, r, ls[r])
  }

  /** `s` with `x` put in as number `k`. */
  function Put<T>(s: seq<T>, k: nat, x: T): (r: seq<T>)
    requires k <= |s|
    ensures |r| == |s| + 1
  {
    seq(|s| + 1, j requires 0 <= j <= |s| => if j < k then s[j] else if j == k then x else s[j - 1])
  }

  /** `s` without number `k`. */
  function Drop<T>(s: seq<T>, k: nat): (r: seq<T>)
    requires k < |s|
    ensures |r| == |s| - 1
  {
    seq(|s| - 1, j requires 0 <= j < |s| - 1 => if j < k then s[j] else s[j + 1])
  }

  // ---- links that stay ----

  /** Where a position comes to be when a node is put in behind `pos`. */
  function Up(pos: nat, q: nat): nat {
    if q <= pos then q else q + 1
  }

  /** Where a position comes to be when the node behind `pos` is taken out. */
  function Down(pos: nat, q: nat): nat {
    if q <= pos || q == 0 then q else q - 1
  }

  /** A link that does not lead over the new node, or leads over one that is not in its level. */
  lemma StaysUp<T>(at: seq<T>, none: T, heights: seq<nat>, i: nat, r: nat, l: Link<T>, pos: nat, x: T, height: nat)
    requires |at| == |heights| && pos < |at| && r < |at| && LinkIsRight(at, none, heights, i, r, l)
    requires height <= i || r > pos || (l.forward != none && r + l.span <= pos)
    ensures LinkIsRight(Put(at, pos + 1, x), none, Put(heights, pos + 1, height), i, Up(pos, r),
                        Link(l.forward, (if l.forward == none then |at| else Up(pos, r + l.span)) - Up(pos, r)))
  {
    var to, h' := if l.forward == none then |at| else r + l.span, Put(heights, pos + 1, height);
    forall q | Up(pos, r) < q < Up(pos, to) && 0 <= q < |h'|
      ensures h'[q] <= i
    {
      if q <= pos {
        assert heights[q] <= i;
      } else if q > pos + 1 {
        assert heights[q - 1] <= i;
      }
    }
  }

  /** A link that does not lead to the node taken out. */
  lemma StaysDown<T>(at: seq<T>, none: T, heights: seq<nat>, i: nat, r: nat, l: Link<T>, pos: nat)
    requires |at| == |heights| && pos + 1 < |at| && r < |at| && LinkIsRight(at, none, heights, i, r, l)
    requires r != pos + 1 && (l.forward != none ==> r + l.span != pos + 1)
    ensures LinkIsRight(Drop(at, pos + 1), none, Drop(heights, pos + 1), i, Down(pos, r),
                        Link(l.forward, (if l.forward == none then |at| - 2 else Down(pos, r + l.span)) - Down(pos, r)))
  {
    var to, h' := if l.forward == none then |at| else r + l.span, Drop(heights, pos + 1);
    forall q | Down(pos, r) < q < Down(pos, to) && 0 <= q < |h'|
      ensures h'[q] <= i
    {
      if q <= pos {
        assert heights[q] <= i;
      } else {
        assert heights[q + 1] <= i;
      }
    }
  }

  // ---- one node more or less ----

  /** The last node of level `i` up to position `pos`. */
  ghost predicate IsLast(heights: seq<nat>, i: nat, pos: nat, u: nat) {
    u <= pos < |heights| && heights[u] > i && Clear(heights, i, u, pos + 1)
  }

  /** Links around the last node of a level up to a position: its own leads beyond the position, and
      those in front of it do not. */
  lemma AroundLast<T>(at: seq<T>, none: T, heights: seq<nat>, i: nat, ls: seq<Link<T>>, pos: nat, u: nat, r: nat)
    requires Linked(at, none, heights, i, ls) && IsLast(heights, i, pos, u) && r < |at| && heights[r] > i
    ensures LinkIsRight(at, none, heights, i, r, ls[r])
    ensures r < u ==> ls[r].forward != none && r + ls[r].span <= u
    ensures r == u ==> r + ls[r].span >= pos && (ls[r].forward != none ==> r + ls[r].span > pos)
    ensures r > u ==> r > pos
  {
  }

  /** The links of a level when a node of it is linked in: `u` is the last one in front of it. */
  function WithNode<T>(ls: seq<Link<T>>, pos: nat, u: nat, x: T): seq<Link<T>>
    requires u <= pos < |ls|
  {
    Put(ls[u := Link(x, pos - u + 1)], pos + 1, Link(ls[u].forward, ls[u].span - (pos - u)))
  }

  lemma LinkIn<T>(at: seq<T>, none: T, heights: seq<nat>, i: nat, ls: seq<Link<T>>, pos: nat, u: nat, x: T, height: nat)
    requires Linked(at, none, heights, i, ls) && IsLast(heights, i, pos, u) && height > i && x != none
    ensures Linked(Put(at, pos + 1, x), none, Put(heights, pos + 1, height), i, WithNode(ls, pos, u, x))
  {
    hide LinkIsRight, Clear;
    forall r | 0 <= r < |at| + 1 && Put(heights, pos + 1, height)[r] > i
      ensures LinkIsRight(Put(at, pos + 1, x), none, Put(heights, pos + 1, height), i, r, WithNode(ls, pos, u, x)[r])
    {
      if r == u {
        LinkedAround(at, none, heights, i, ls, pos, u, x, height);
      } else if r == pos + 1 {
        LinkedBehind(at, none, heights, i, ls, pos, u, x, height);
      } else {
        var o := if r <= pos then r else r - 1;
        AroundLast(at, none, heights, i, ls, pos, u, o);
        StaysUp(at, none, heights, i, o, ls[o], pos, x, height);
        LinkSpan(at, none, heights, i, o, ls[o]);
      }
    }
  }

  lemma LinkSpan<T>(at: seq<T>, none: T, heights: seq<nat>, i: nat, r: nat, l: Link<T>)
    requires |at| == |heights| && r < |at| && LinkIsRight(at, none, heights, i, r, l)
    ensures 0 <= l.span && r + l.span < |at| && (l.forward == none ==> r + l.span == |at| - 1) &&
            (l.forward != none ==> l.span > 0)
  {
  }

  lemma LinkedAround<T>(at: seq<T>, none: T, heights: seq<nat>, i: nat, ls: seq<Link<T>>, pos: nat, u: nat, x: T,
                        height: nat)
    requires Linked(at, none, heights, i, ls) && IsLast(heights, i, pos, u) && height > i && x != none
    ensures LinkIsRight(Put(at, pos + 1, x), none, Put(heights, pos + 1, height), i, u, Link(x, pos - u + 1))
  {
    hide LinkIsRight;
    var at', h', l := Put(at, pos + 1, x), Put(heights, pos + 1, height), Link(x, pos - u + 1);
    assert Clear(h', i, u, pos + 1);
    assert at'[pos + 1] == x && h'[pos + 1] == height;
    LinkIs(at', none, h', i, u, l);
  }

  lemma LinkIs<T>(at: seq<T>, none: T, heights: seq<nat>, i: nat, r: nat, l: Link<T>)
    requires |at| == |heights| && l.forward != none && l.span > 0 && r + l.span < |at| && at[r + l.span] == l.forward
    requires heights[r + l.span] > i && Clear(heights, i, r, r + l.span)
    ensures LinkIsRight(at, none, heights, i, r, l)
  {
  }

  lemma EndIs<T>(at: seq<T>, none: T, heights: seq<nat>, i: nat, r: nat, l: Link<T>)
    requires |at| == |heights| && l.forward == none && 0 <= l.span && r + l.span == |at| - 1
    requires Clear(heights, i, r, |at|)
    ensures LinkIsRight(at, none, heights, i, r, l)
  {
  }

  lemma LinkFacts<T>(at: seq<T>, none: T, heights: seq<nat>, i: nat, r: nat, l: Link<T>)
    requires |at| == |heights| && r < |at| && LinkIsRight(at, none, heights, i, r, l)
    ensures 0 <= l.span && r + l.span < |at|
    ensures l.forward == none ==> r + l.span == |at| - 1 && Clear(heights, i, r, |at|)
    ensures l.forward != none ==>
      l.span > 0 && at[r + l.span] == l.forward && heights[r + l.span] > i && Clear(heights, i, r, r + l.span)
  {
  }

  lemma LinkedBehind<T>(at: seq<T>, none: T, heights: seq<nat>, i: nat, ls: seq<Link<T>>, pos: nat, u: nat, x: T,
                        height: nat)
    requires Linked(at, none, heights, i, ls) && IsLast(heights, i, pos, u) && height > i && x != none
    ensures LinkIsRight(Put(at, pos + 1, x), none, Put(heights, pos + 1, height), i, pos + 1,
            Link(ls[u].forward, ls[u].span - (pos - u)))
  {
    hide LinkIsRight, Clear, Put;
    AroundLast(at, none, heights, i, ls, pos, u, u);
    BehindIsRight(at, none, heights, i, pos, u, ls[u], x, height);
  }

  lemma BehindIsRight<T>(at: seq<T>, none: T, heights: seq<nat>, i: nat, pos: nat, u: nat, l: Link<T>, x: T,
                         height: nat)
    requires |at| == |heights| && u <= pos < |at| && LinkIsRight(at, none, heights, i, u, l)
    requires u + l.span >= pos && (l.forward != none ==> u + l.span > pos)
    ensures LinkIsRight(Put(at, pos + 1, x), none, Put(heights, pos + 1, height), i, pos + 1,
            Link(l.forward, l.span - (pos - u)))
  {
    hide LinkIsRight, Clear;
    LinkFacts(at, none, heights, i, u, l);
    var at', h', l' := Put(at, pos + 1, x), Put(heights, pos + 1, height), Link(l.forward, l.span - (pos - u));
    ClearBehind(heights, i, pos, u, height, if l.forward == none then |at| else u + l.span);
    if l.forward == none {
      EndIs(at', none, h', i, pos + 1, l');
    } else {
      assert at'[u + l.span + 1] == at[u + l.span] && h'[u + l.span + 1] == heights[u + l.span];
      LinkIs(at', none, h', i, pos + 1, l');
    }
  }

  lemma ClearBehind(heights: seq<nat>, i: nat, pos: nat, u: nat, height: nat, to: nat)
    requires u <= pos < |heights| && Clear(heights, i, u, to)
    ensures Clear(Put(heights, pos + 1, height), i, pos + 1, to + 1)
  {
    var h' := Put(heights, pos + 1, height);
    forall q | pos + 1 < q < to + 1 && 0 <= q < |h'|
      ensures h'[q] <= i
    {
      assert heights[q - 1] <= i;
    }
  }

  /** The links of a level when a node is put in that is not in it. */
  function WithOther<T>(ls: seq<Link<T>>, pos: nat, u: nat, any: Link<T>): seq<Link<T>>
    requires u <= pos < |ls|
  {
    Put(ls[u := Link(ls[u].forward, ls[u].span + 1)], pos + 1, any)
  }

  lemma PassOver<T>(at: seq<T>, none: T, heights: seq<nat>, i: nat, ls: seq<Link<T>>, pos: nat, u: nat, x: T,
                    height: nat, any: Link<T>)
    requires Linked(at, none, heights, i, ls) && IsLast(heights, i, pos, u) && height <= i && x != none
    ensures Linked(Put(at, pos + 1, x), none, Put(heights, pos + 1, height), i, WithOther(ls, pos, u, any))
  {
    hide LinkIsRight, Clear;
    forall r | 0 <= r < |at| + 1 && Put(heights, pos + 1, height)[r] > i
      ensures LinkIsRight(Put(at, pos + 1, x), none, Put(heights, pos + 1, height), i, r, WithOther(ls, pos, u, any)[r])
    {
      var o := if r <= pos then r else r - 1;
      AroundLast(at, none, heights, i, ls, pos, u, o);
      StaysUp(at, none, heights, i, o, ls[o], pos, x, height);
      LinkSpan(at, none, heights, i, o, ls[o]);
    }
  }

  /** The links of a level when the node behind `pos` is taken out of it. */
  function WithoutNode<T>(ls: seq<Link<T>>, pos: nat, u: nat): seq<Link<T>>
    requires u <= pos && pos + 1 < |ls|
  {
    Drop(ls[u := Link(ls[pos + 1].forward, ls[u].span + ls[pos + 1].span - 1)], pos + 1)
  }

  lemma LinkOut<T>(at: seq<T>, none: T, heights: seq<nat>, i: nat, ls: seq<Link<T>>, pos: nat, u: nat)
    requires Linked(at, none, heights, i, ls) && IsLast(heights, i, pos, u) && pos + 1 < |at| && heights[pos + 1] > i
    ensures ls[u].forward == at[pos + 1]
    ensures Linked(Drop(at, pos + 1), none, Drop(heights, pos + 1), i, WithoutNode(ls, pos, u))
  {
    LeadsBehind(at, none, heights, i, ls, pos, u);
    DropLacks(at, pos + 1, none);
    var at', h', ls' := Drop(at, pos + 1), Drop(heights, pos + 1), WithoutNode(ls, pos, u);
    hide LinkIsRight, Clear, WithoutNode, Drop;
    forall r | 0 <= r < |at'| && h'[r] > i
      ensures LinkIsRight(at', none, h', i, r, ls'[r])
    {
      LinkOutAt(at, none, heights, i, ls, pos, u, r);
    }
  }

  lemma DropLacks<T>(s: seq<T>, k: nat, x: T)
    requires k < |s| && x !in s
    ensures x !in Drop(s, k)
  {
  }

  lemma LinkOutAt<T>(at: seq<T>, none: T, heights: seq<nat>, i: nat, ls: seq<Link<T>>, pos: nat, u: nat, r: nat)
    requires Linked(at, none, heights, i, ls) && IsLast(heights, i, pos, u) && pos + 1 < |at| && heights[pos + 1] > i
    requires r < |at| - 1 && Drop(heights, pos + 1)[r] > i
    ensures LinkIsRight(Drop(at, pos + 1), none, Drop(heights, pos + 1), i, r, WithoutNode(ls, pos, u)[r])
  {
    hide LinkIsRight, Clear;
    var o := if r <= pos then r else r + 1;
    LeadsBehind(at, none, heights, i, ls, pos, u);
    AroundLast(at, none, heights, i, ls, pos, u, o);
    LinkSpan(at, none, heights, i, o, ls[o]);
    if r == u {
      LinkedOver(at, none, heights, i, ls, pos, u);
    } else {
      StaysDown(at, none, heights, i, o, ls[o], pos);
      var l := ls[o];
      assert WithoutNode(ls, pos, u)[r] == l && Down(pos, o) == r;
      assert l == Link(l.forward, (if l.forward == none then |at| - 2 else Down(pos, o + l.span)) - r);
    }
  }

  lemma LeadsBehind<T>(at: seq<T>, none: T, heights: seq<nat>, i: nat, ls: seq<Link<T>>, pos: nat, u: nat)
    requires Linked(at, none, heights, i, ls) && IsLast(heights, i, pos, u) && pos + 1 < |at| && heights[pos + 1] > i
    ensures ls[u].forward == at[pos + 1] && u + ls[u].span == pos + 1
  {
    AroundLast(at, none, heights, i, ls, pos, u, u);
  }

  lemma LinkedOver<T>(at: seq<T>, none: T, heights: seq<nat>, i: nat, ls: seq<Link<T>>, pos: nat, u: nat)
    requires Linked(at, none, heights, i, ls) && IsLast(heights, i, pos, u) && pos + 1 < |at| && heights[pos + 1] > i
    ensures LinkIsRight(Drop(at, pos + 1), none, Drop(heights, pos + 1), i, u,
            Link(ls[pos + 1].forward, ls[u].span + ls[pos + 1].span - 1))
  {
    hide LinkIsRight, Clear;
    LeadsBehind(at, none, heights, i, ls, pos, u);
    var l := ls[pos + 1];
    LinkFacts(at, none, heights, i, pos + 1, l);
    var at', h', l' := Drop(at, pos + 1), Drop(heights, pos + 1), Link(l.forward, ls[u].span + l.span - 1);
    ClearOver(heights, i, pos, u, if l.forward == none then |at| else pos + 1 + l.span);
    if l.forward == none {
      EndIs(at', none, h', i, u, l');
    } else {
      assert at'[pos + l.span] == at[pos + 1 + l.span] && h'[pos + l.span] == heights[pos + 1 + l.span];
      LinkIs(at', none, h', i, u, l');
    }
  }

  lemma ClearOver(heights: seq<nat>, i: nat, pos: nat, u: nat, to: nat)
    requires pos + 1 < |heights| && to > pos + 1 && IsLast(heights, i, pos, u) && Clear(heights, i, pos + 1, to)
    ensures Clear(Drop(heights, pos + 1), i, u, to - 1)
  {
    var h' := Drop(heights, pos + 1);
    forall q | u < q < to - 1 && 0 <= q < |h'|
      ensures h'[q] <= i
    {
      if q <= pos {
        assert heights[q] <= i;
      } else {
        assert heights[q + 1] <= i;
      }
    }
  }

  /** The links of a level when the node behind `pos`, which is not in it, is taken out. */
  function WithoutOther<T>(ls: seq<Link<T>>, pos: nat, u: nat): seq<Link<T>>
    requires u <= pos && pos + 1 < |ls|
  {
    Drop(ls[u := Link(ls[u].forward, ls[u].span - 1)], pos + 1)
  }

  lemma PassedOver<T>(at: seq<T>, none: T, heights: seq<nat>, i: nat, ls: seq<Link<T>>, pos: nat, u: nat)
    requires Linked(at, none, heights, i, ls) && IsLast(heights, i, pos, u) && pos + 1 < |at| && heights[pos + 1] <= i
    requires forall j, k | 0 <= j < k < |at| :: at[j] != at[k]
    ensures ls[u].forward != at[pos + 1]
    ensures Linked(Drop(at, pos + 1), none, Drop(heights, pos + 1), i, WithoutOther(ls, pos, u))
  {
    LeadsOver(at, none, heights, i, ls, pos, u);
    DropLacks(at, pos + 1, none);
    var at', h', ls' := Drop(at, pos + 1), Drop(heights, pos + 1), WithoutOther(ls, pos, u);
    hide LinkIsRight, Clear, WithoutOther, Drop;
    forall r | 0 <= r < |at'| && h'[r] > i
      ensures LinkIsRight(at', none, h', i, r, ls'[r])
    {
      PassedOverAt(at, none, heights, i, ls, pos, u, r);
    }
  }

  lemma PassedOverAt<T>(at: seq<T>, none: T, heights: seq<nat>, i: nat, ls: seq<Link<T>>, pos: nat, u: nat, r: nat)
    requires Linked(at, none, heights, i, ls) && IsLast(heights, i, pos, u) && pos + 1 < |at| && heights[pos + 1] <= i
    requires u + ls[u].span > pos && (ls[u].forward != none ==> u + ls[u].span > pos + 1)
    requires r < |at| - 1 && Drop(heights, pos + 1)[r] > i
    ensures LinkIsRight(Drop(at, pos + 1), none, Drop(heights, pos + 1), i, r, WithoutOther(ls, pos, u)[r])
  {
    hide LinkIsRight, Clear;
    var o := if r <= pos then r else r + 1;
    AroundLast(at, none, heights, i, ls, pos, u, o);
    LinkSpan(at, none, heights, i, o, ls[o]);
    StaysDown(at, none, heights, i, o, ls[o], pos);
    var l := ls[o];
    assert Down(pos, o) == r;
    assert WithoutOther(ls, pos, u)[r] == Link(l.forward,
      (if l.forward == none then |at| - 2 else Down(pos, o + l.span)) - r);
  }

  lemma LeadsOver<T>(at: seq<T>, none: T, heights: seq<nat>, i: nat, ls: seq<Link<T>>, pos: nat, u: nat)
    requires Linked(at, none, heights, i, ls) && IsLast(heights, i, pos, u) && pos + 1 < |at| && heights[pos + 1] <= i
    requires forall j, k | 0 <= j < k < |at| :: at[j] != at[k]
    ensures u + ls[u].span > pos && (ls[u].forward != none ==> u + ls[u].span > pos + 1) && ls[u].forward != at[pos + 1]
  {
    AroundLast(at, none, heights, i, ls, pos, u, u);
    assert at[pos + 1] in at;
  }
}
