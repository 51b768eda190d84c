/** Vector clocks (src/crdts/vclock.rs).

    A clock is the map from actors to counters that the source keeps in `dots`.  The source
    stores clocks by value (in maps, and as the keys of a hash map), so they are values here;
    the operations that change one in a loop are methods on a local copy, each proved against
    a function on clocks.  An absent actor counts as 0; a clock is `Proper` when it stores no
    explicit 0, which every operation of the source preserves. */
module VClock {

  type Actor(==, !new)

  type Clock = map<Actor, nat>

  datatype Ordering = Less | Equal | Greater | Incomparable

  function Get(c: Clock, a: Actor): nat {
    if a in c then c[a] else 0
  }

  ghost predicate Proper(c: Clock) {
    forall a :: a in c ==> c[a] > 0
  }

  /** Every dot of `c` is covered by `d`. */
  predicate Leq(c: Clock, d: Clock) {
    forall a :: a in c ==> c[a] <= Get(d, a)
  }

  function PartialCmp(c: Clock, d: Clock): (r: Ordering)
    ensures r == Equal || r == Greater <==> Leq(d, c)
    ensures Proper(c) && Proper(d) ==> (r == Equal || r == Less <==> Leq(c, d))
    ensures r == Equal <==> c == d
  {
    LeqIsAntisymmetric(c, d);
    if c == d then Equal
    else if Leq(d, c) then Greater
    else if Leq(c, d) then Less
    else Incomparable
  }

  lemma LeqIsAntisymmetric(c: Clock, d: Clock)
    ensures Proper(c) && Proper(d) && Leq(c, d) && Leq(d, c) ==> c == d
  {
    if Proper(c) && Proper(d) && Leq(c, d) && Leq(d, c) {
      Extensional(c, d);
    }
  }

  /** Proper clocks that answer `Get` alike are the same clock. */
  lemma Extensional(c: Clock, d: Clock)
    requires Proper(c) && Proper(d)
    requires forall a :: Get(c, a) == Get(d, a)
    ensures c == d
  {
    forall a ensures a in c <==> a in d {
      assert Get(c, a) == Get(d, a);
    }
    forall a | a in c ensures c[a] == d[a] {
      assert Get(c, a) == Get(d, a);
    }
    assert c.Keys == d.Keys;
  }

  /** The clock with one dot applied: its counter is raised, never lowered. */
  function Applied(c: Clock, actor: Actor, counter: nat): Clock {
    if Get(c, actor) < counter then c[actor := counter] else c
  }

  /** Least upper bound. */
  function Joined(c: Clock, d: Clock): Clock {
    map a | a in c.Keys + d.Keys && (a in c || d[a] > 0) ::
      if Get(c, a) >= Get(d, a) then Get(c, a) else Get(d, a)
  }

  /** The dots of `c` that `d` does not cover. */
  function Without(c: Clock, d: Clock): Clock {
    map a | a in c && (a in d ==> c[a] > d[a]) :: c[a]
  }

  /** The dots of `c` that `d` holds with the same counter. */
  function Common(c: Clock, d: Clock): Clock {
    map a | a in c && c[a] == Get(d, a) :: c[a]
  }

  /** Greatest lower bound. */
  function Meet(c: Clock, d: Clock): Clock {
    map a | a in c && c[a] > 0 && Get(d, a) > 0 :: if c[a] <= Get(d, a) then c[a] else Get(d, a)
  }

  /** What the operations do to proper clocks, dot by dot. */
  lemma OperationsByDot(c: Clock, d: Clock)
    requires Proper(c) && Proper(d)
    ensures Proper(Joined(c, d)) && Proper(Without(c, d)) && Proper(Common(c, d)) && Proper(Meet(c, d))
    ensures forall a :: Get(Joined(c, d), a) == if Get(c, a) >= Get(d, a) then Get(c, a) else Get(d, a)
    ensures forall a :: Get(Without(c, d), a) == if Get(c, a) > Get(d, a) then Get(c, a) else 0
    ensures forall a :: Get(Common(c, d), a) == if Get(c, a) == Get(d, a) then Get(c, a) else 0
    ensures forall a :: Get(Meet(c, d), a) == if Get(c, a) <= Get(d, a) then Get(c, a) else Get(d, a)
  {
  }

  /** `Joined` and `Meet` are the lattice operations of the order that `PartialCmp` decides. */
  lemma JoinedIsLeastUpperBound(c: Clock, d: Clock, u: Clock)
    requires Proper(c) && Proper(d)
    ensures Leq(Joined(c, d), u) <==> Leq(c, u) && Leq(d, u)
  {
    var j := Joined(c, d);
    if Leq(j, u) {
      forall a | a in c ensures c[a] <= Get(u, a) { assert a in j; }
      forall a | a in d ensures d[a] <= Get(u, a) { assert a in j; }
    }
  }

  lemma MeetIsGreatestLowerBound(c: Clock, d: Clock, l: Clock)
    requires Proper(c) && Proper(d) && Proper(l)
    ensures Leq(l, Meet(c, d)) <==> Leq(l, c) && Leq(l, d)
  {
    var m := Meet(c, d);
    if Leq(l, m) {
      forall a | a in l ensures l[a] <= Get(c, a) && l[a] <= Get(d, a) { assert l[a] <= Get(m, a); }
    }
  }

  lemma JoinedIs(c: Clock, d: Clock, r: Clock)
    requires forall a :: a in r <==> a in c || (a in d && d[a] > 0)
    requires forall a :: a in r ==> r[a] == if Get(c, a) >= Get(d, a) then Get(c, a) else Get(d, a)
    ensures r == Joined(c, d)
  {
  }

  /** The least clock that covers a clock and a dot: no other counter changes. */
  method Apply(c: Clock, actor: Actor, counter: nat) returns (r: Clock)
    ensures forall a :: Get(r, a) == if a == actor && Get(c, a) < counter then counter else Get(c, a)
    ensures forall u :: Leq(r, u) <==> Leq(c, u) && counter <= Get(u, actor)
    ensures forall a :: a in r <==> a in c || (a == actor && counter > 0)
    ensures Proper(c) ==> Proper(r)
  {
    r := c;
    if Get(r, actor) < counter {
      r := r[actor := counter];
    }
    forall u
      ensures Leq(r, u) <==> Leq(c, u) && counter <= Get(u, actor)
    {
      CoversBoth(c, actor, counter, r, u);
    }
  }

  /** No other clock answers alike with the same actors. */
  lemma AppliedIs(c: Clock, actor: Actor, counter: nat, r: Clock)
    requires forall a :: Get(r, a) == if a == actor && Get(c, a) < counter then counter else Get(c, a)
    requires forall a :: a in r <==> a in c || (a == actor && counter > 0)
    ensures r == Applied(c, actor, counter)
  {
    var d := Applied(c, actor, counter);
    forall a | a in r
      ensures r[a] == d[a]
    {
      assert Get(r, a) == Get(d, a);
    }
  }

  lemma CoversBoth(c: Clock, actor: Actor, counter: nat, r: Clock, u: Clock)
    requires r == Applied(c, actor, counter)
    ensures Leq(r, u) <==> Leq(c, u) && counter <= Get(u, actor)
  {
    if Leq(r, u) {
      forall a | a in c
        ensures c[a] <= Get(u, a)
      {
        assert a in r;
      }
      if counter > 0 {
        assert actor in r;
      }
    }
  }

  method Merge(c: Clock, other: Clock) returns (r: Clock)
    ensures r == Joined(c, other)
  {
    hide Joined;
    r := c;
    var todo := other.Keys;
    while todo != {}
      invariant todo <= other.Keys
      invariant forall a :: a in r <==> a in c || (a in other && a !in todo && other[a] > 0)
      invariant forall a :: a in r ==>
                            r[a] == if a in todo || Get(c, a) >= Get(other, a) then Get(c, a) else Get(other, a)
      decreases |todo|
    {
      var a :| a in todo;
      ghost var before := r;
      r := Apply(r, a, other[a]);
      AppliedIs(before, a, other[a], r);
      todo := todo - {a};
    }
    JoinedIs(c, other, r);
  }

  method ResetRemove(c: Clock, other: Clock) returns (r: Clock)
    ensures r == Without(c, other)
  {
    r := c;
    var todo := other.Keys;
    while todo != {}
      invariant todo <= other.Keys
      invariant forall a :: a in r <==> a in c && (a in other && a !in todo ==> c[a] > other[a])
      invariant forall a :: a in r ==> r[a] == c[a]
      decreases |todo|
    {
      var a :| a in todo;
      if other[a] >= Get(r, a) {
        r := r - {a};
      }
      todo := todo - {a};
    }
  }

  method Intersection(left: Clock, right: Clock) returns (r: Clock)
    ensures r == Common(left, right)
  {
    r := map[];
    var todo := left.Keys;
    while todo != {}
      invariant todo <= left.Keys
      invariant forall a :: a in r <==> a in left && a !in todo && left[a] == Get(right, a)
      invariant forall a :: a in r ==> r[a] == left[a]
      decreases |todo|
    {
      var a :| a in todo;
      if Get(right, a) == left[a] {
        r := r[a := left[a]];
      }
      todo := todo - {a};
    }
  }

  method Glb(c: Clock, other: Clock) returns (r: Clock)
    ensures r == Meet(c, other)
  {
    r := map[];
    var todo := c.Keys;
    while todo != {}
      invariant todo <= c.Keys
      invariant forall a :: a in r <==> a in Meet(c, other) && a !in todo
      invariant forall a :: a in r ==> r[a] == Meet(c, other)[a]
      decreases |todo|
    {
      var a :| a in todo;
      var minCount := if c[a] <= Get(other, a) then c[a] else Get(other, a);
      if minCount != 0 {
        r := r[a := minCount];
      }
      todo := todo - {a};
    }
  }
}
