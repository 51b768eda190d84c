/** The observed-remove set without tombstones (src/crdts/orswot.rs).

    `State` is a replica's value: what `clock`, `entries` and `deferred` hold.  The functions on
    it say what each operation of the source computes; the class `Orswot` performs the
    operations on its fields, in loops that visit hash maps in any order, and is proved against
    them.  What the operations are for is proved in OrswotMerge and OrswotDelivery. */
module Orswot {
  import opened VClock
  import opened MultiMaps

  type Member(==, !new)

  type Entries = map<Member, Clock>
  type Removals = map<Clock, set<Member>>

  datatype State = State(clock: Clock, entries: Entries, deferred: Removals)

  datatype Op =
    | Add(actor: Actor, counter: nat, added: seq<Member>)
    | Rm(seen: Clock, removed: seq<Member>)

  const INITIAL := State(map[], map[], map[])

  /** The dot of `actor` that witnesses `member`, 0 if there is none. */
  function Witness(entries: Entries, member: Member, actor: Actor): nat {
    if member in entries then Get(entries[member], actor) else 0
  }

  /** Some removal in `rms` names `member`. */
  predicate Touched(rms: Removals, member: Member) {
    exists d :: d in rms && member in rms[d]
  }

  /** Some removal in `rms` of `member` has seen the dot (actor, counter). */
  predicate Covered(rms: Removals, member: Member, actor: Actor, counter: nat) {
    exists d :: d in rms && member in rms[d] && actor in d && d[actor] >= counter
  }

  /** The clock that is left of `member`'s when every removal in `rms` has been applied. */
  function Residue(clock: Clock, rms: Removals, member: Member): Clock
  {
    map a | a in clock && !Covered(rms, member, a, clock[a]) :: clock[a]
  }

  /** Apply every removal in `rms`; members left without a dot go. */
  function Scrubbed(entries: Entries, rms: Removals): Entries {
    map m | m in entries && (Touched(rms, m) ==> Residue(entries[m], rms, m) != map[]) ::
      Residue(entries[m], rms, m)
  }

  /** The removals that cannot be forgotten yet: `clock` has not seen all they have seen. */
  function Pending(rms: Removals, clock: Clock): Removals {
    Only(rms, NotSeenBy(clock))
  }

  function NotSeenBy(clock: Clock): Clock -> bool {
    (d: Clock) => PartialCmp(d, clock) in {Incomparable, Greater}
  }

  /** Several removals applied, in any order. */
  function AllRmApplied(s: State, rms: Removals): State {
    s.(entries := Scrubbed(s.entries, rms), deferred := Both(s.deferred, Pending(rms, s.clock)))
  }

  function RmApplied(s: State, members: set<Member>, seen: Clock): State {
    AllRmApplied(s, map[seen := members])
  }

  function DeferredApplied(s: State): State {
    AllRmApplied(s.(deferred := map[]), s.deferred)
  }

  function Marked(entries: Entries, members: set<Member>, actor: Actor, counter: nat): Entries {
    map m | m in entries.Keys + members ::
      var dots: Clock := if m in entries then entries[m] else map[];
      if m in members then Applied(dots, actor, counter) else dots
  }

  function AddApplied(s: State, actor: Actor, counter: nat, members: set<Member>): State {
    if Get(s.clock, actor) >= counter then s
    else DeferredApplied(s.(clock := Applied(s.clock, actor, counter),
                            entries := Marked(s.entries, members, actor, counter)))
  }

  function ToSet(members: seq<Member>): set<Member> {
    set m | m in members
  }

  function OpApplied(s: State, op: Op): State {
    match op
    case Add(actor, counter, members) => AddApplied(s, actor, counter, ToSet(members))
    case Rm(seen, members) => RmApplied(s, ToSet(members), seen)
  }

  /** The dots kept for a member that both replicas hold. */
  function CommonDots(ours: Clock, theirs: Clock, ourClock: Clock, theirClock: Clock): Clock {
    Joined(Joined(Common(theirs, ours), Without(theirs, ourClock)), Without(ours, theirClock))
  }

  /** The dots kept for a member that only one replica holds. */
  function Unseen(dots: Clock, otherClock: Clock): (r: Clock)
    ensures r == map[] <==> Leq(dots, otherClock)
  {
    if Leq(dots, otherClock) then map[]
    else
      var a :| a in dots && dots[a] > Get(otherClock, a);
      assert a in Without(dots, otherClock);
      Without(dots, otherClock)
  }

  /** The dots kept for `member` before deferred removals are looked at. */
  function KeptDots(s: State, other: State, member: Member): Clock {
    if member in s.entries && member in other.entries then
      CommonDots(s.entries[member], other.entries[member], s.clock, other.clock)
    else if member in s.entries then Unseen(s.entries[member], other.clock)
    else if member in other.entries then Unseen(other.entries[member], s.clock)
    else map[]
  }

  function MergedEntries(s: State, other: State): Entries {
    map m | m in s.entries.Keys + other.entries.Keys && KeptDots(s, other, m) != map[] ::
      KeptDots(s, other, m)
  }

  function Merged(s: State, other: State): State {
    DeferredApplied(State(
      Joined(s.clock, other.clock),
      Scrubbed(MergedEntries(s, other), other.deferred),
      Both(s.deferred, Pending(other.deferred, s.clock))))
  }

  lemma ResidueUntouched(c: Clock, rms: Removals, m: Member)
    requires !Touched(rms, m)
    ensures Residue(c, rms, m) == c
  {
  }

  lemma ResidueOfOne(c: Clock, seen: Clock, members: set<Member>, m: Member)
    ensures Touched(map[seen := members], m) <==> m in members
    ensures Residue(c, map[seen := members], m) == if m in members then Without(c, seen) else c
  {
    var rms: Removals := map[seen := members];
    assert seen in rms;
    assert forall a, n :: Covered(rms, m, a, n) <==> m in members && a in seen && seen[a] >= n;
  }

  lemma ResidueTwice(c: Clock, rms: Removals, rms': Removals, m: Member)
    ensures Residue(Residue(c, rms, m), rms', m) == Residue(c, Both(rms, rms'), m)
  {
    CoveredByEither(rms, rms', m);
  }

  /** Applying removals in two batches is applying them together. */
  lemma ScrubTwice(entries: Entries, rms: Removals, rms': Removals)
    ensures Scrubbed(Scrubbed(entries, rms), rms') == Scrubbed(entries, Both(rms, rms'))
  {
    var once := Scrubbed(entries, rms);
    var twice := Scrubbed(once, rms');
    var all := Scrubbed(entries, Both(rms, rms'));
    forall m
      ensures m in twice <==> m in all
      ensures m in all ==> twice[m] == all[m]
    {
      if m in entries {
        CoveredByEither(rms, rms', m);
        ResidueTwice(entries[m], rms, rms', m);
        if !Touched(rms, m) { ResidueUntouched(entries[m], rms, m); }
        if !Touched(rms', m) { ResidueUntouched(Residue(entries[m], rms, m), rms', m); }
      }
    }
    SameEntries(twice, all);
  }

  lemma ScrubByOne(entries: Entries, seen: Clock, members: set<Member>, r: Entries)
    requires forall m :: m in r <==> m in entries && (m in members ==> Without(entries[m], seen) != map[])
    requires forall m :: m in r ==> r[m] == if m in members then Without(entries[m], seen) else entries[m]
    ensures r == Scrubbed(entries, map[seen := members])
  {
    var s := Scrubbed(entries, map[seen := members]);
    forall m
      ensures m in r <==> m in s
      ensures m in s ==> r[m] == s[m]
    {
      if m in entries { ResidueOfOne(entries[m], seen, members, m); }
    }
    SameEntries(r, s);
  }

  lemma ScrubByNone(entries: Entries)
    ensures Scrubbed(entries, map[]) == entries
  {
    var s := Scrubbed(entries, map[]);
    forall m
      ensures m in entries <==> m in s
      ensures m in s ==> entries[m] == s[m]
    {
      if m in entries { ResidueUntouched(entries[m], map[], m); }
    }
    SameEntries(s, entries);
  }

  /** The two maps say the same of `m`. */
  ghost predicate AgreeAt(e: Entries, e': Entries, m: Member) {
    (m in e <==> m in e') && (m in e ==> e[m] == e'[m])
  }

  function Put(e: Entries, m: Member, e': Entries): Entries {
    if m in e' then e[m := e'[m]] else e - {m}
  }

  lemma PutOne(e: Entries, before: Entries, after: Entries, todo: set<Member>, m: Member)
    requires m in todo
    requires forall x :: x in todo ==> AgreeAt(e, before, x)
    requires forall x :: x !in todo ==> AgreeAt(e, after, x)
    ensures forall x :: x in todo - {m} ==> AgreeAt(Put(e, m, after), before, x)
    ensures forall x :: x !in todo - {m} ==> AgreeAt(Put(e, m, after), after, x)
  {
    var r := Put(e, m, after);
    forall x | x in todo - {m} ensures AgreeAt(r, before, x) {
      assert AgreeAt(e, before, x);
    }
    forall x | x !in todo - {m} ensures AgreeAt(r, after, x) {
      assert x != m ==> AgreeAt(e, after, x);
    }
  }

  lemma SameEntries(e: Entries, e': Entries)
    requires forall m :: AgreeAt(e, e', m)
    ensures e == e'
  {
    forall m ensures m in e <==> m in e' { assert AgreeAt(e, e', m); }
    assert e.Keys == e'.Keys;
    forall m | m in e ensures e[m] == e'[m] { assert AgreeAt(e, e', m); }
  }

  lemma CoveredByEither(rms: Removals, rms': Removals, m: Member)
    ensures Touched(Both(rms, rms'), m) <==> Touched(rms, m) || Touched(rms', m)
    ensures forall a, n :: Covered(Both(rms, rms'), m, a, n) <==> Covered(rms, m, a, n) || Covered(rms', m, a, n)
  {
    var all := Both(rms, rms');
    if d :| d in rms && m in rms[d] { assert d in all && m in all[d]; }
    if d :| d in rms' && m in rms'[d] { assert d in all && m in all[d]; }
    forall a, n
      ensures Covered(all, m, a, n) <==> Covered(rms, m, a, n) || Covered(rms', m, a, n)
    {
      if d :| d in rms && m in rms[d] && a in d && d[a] >= n { assert d in all && m in all[d]; }
      if d :| d in rms' && m in rms'[d] && a in d && d[a] >= n { assert d in all && m in all[d]; }
    }
  }

  lemma BothWithOne(rms: Removals, seen: Clock, members: set<Member>, clock: Clock)
    ensures Both(rms, Pending(map[seen := members], clock)) ==
            if !NotSeenBy(clock)(seen) then rms else rms[seen := At(rms, seen) + members]
  {
    hide NotSeenBy, Both, Only, At;
    var one: Removals := map[seen := members];
    var r := if !NotSeenBy(clock)(seen) then rms else rms[seen := At(rms, seen) + members];
    forall d
      ensures (d in Both(rms, Pending(one, clock)) <==> d in r) && At(Both(rms, Pending(one, clock)), d) == At(r, d)
    {
      BothWithOneAt(rms, seen, members, clock, d);
    }
    Same(Both(rms, Pending(one, clock)), r);
  }

  lemma BothWithOneAt(rms: Removals, seen: Clock, members: set<Member>, clock: Clock, d: Clock)
    ensures var b, r := Both(rms, Pending(map[seen := members], clock)),
              if !NotSeenBy(clock)(seen) then rms else rms[seen := At(rms, seen) + members];
            (d in b <==> d in r) && At(b, d) == At(r, d)
  {
    hide NotSeenBy, Both, Only;
  }

  lemma BothWithNone(rms: Removals, clock: Clock)
    ensures Both(rms, Pending(map[], clock)) == rms == Both(map[], rms)
  {
    Same(Both(rms, Pending(map[], clock)), rms);
    Same(Both(map[], rms), rms);
  }

  lemma AllRmNone(s: State)
    ensures AllRmApplied(s, map[]) == s
  {
    ScrubByNone(s.entries);
    BothWithNone(s.deferred, s.clock);
  }

  lemma AllRmTwice(s: State, rms: Removals, rms': Removals)
    ensures AllRmApplied(AllRmApplied(s, rms), rms') == AllRmApplied(s, Both(rms, rms'))
  {
    ScrubTwice(s.entries, rms, rms');
    BothOnly(s.deferred, rms, rms', NotSeenBy(s.clock));
  }

  lemma AllRmAndOne(s: State, rms: Removals, members: set<Member>, seen: Clock)
    ensures RmApplied(AllRmApplied(s, rms), members, seen) == AllRmApplied(s, Both(rms, map[seen := members]))
  {
    hide AllRmApplied, Both;
    AllRmTwice(s, rms, map[seen := members]);
  }

  lemma DoneWithOne(rms: Removals, done: Removals, todo: set<Clock>, d: Clock)
    requires todo <= rms.Keys && d in todo && done == rms - todo
    ensures Both(done, map[d := rms[d]]) == rms - (todo - {d})
  {
    Same(Both(done, map[d := rms[d]]), rms - (todo - {d}));
  }

  lemma AllOrNone(rms: Removals)
    ensures rms - rms.Keys == map[] && rms - {} == rms
  {
  }

  lemma MarkNone(entries: Entries, actor: Actor, counter: nat)
    ensures Marked(entries, ToSet([]), actor, counter) == entries
  {
    SameEntries(Marked(entries, {}, actor, counter), entries);
  }

  lemma ApplyTwice(c: Clock, actor: Actor, counter: nat)
    ensures Applied(Applied(c, actor, counter), actor, counter) == Applied(c, actor, counter)
  {
  }

  lemma MarkOne(entries: Entries, members: seq<Member>, i: nat, actor: Actor, counter: nat)
    requires i < |members|
    ensures var before := Marked(entries, ToSet(members[..i]), actor, counter);
            var dots: Clock := if members[i] in before then before[members[i]] else map[];
            Marked(entries, ToSet(members[..i + 1]), actor, counter) ==
            before[members[i] := Applied(dots, actor, counter)]
  {
    var before := Marked(entries, ToSet(members[..i]), actor, counter);
    var after := Marked(entries, ToSet(members[..i + 1]), actor, counter);
    var m := members[i];
    assert members[..i + 1] == members[..i] + [m];
    assert ToSet(members[..i + 1]) == ToSet(members[..i]) + {m};
    var old' : Clock := if m in entries then entries[m] else map[];
    ApplyTwice(old', actor, counter);
    hide Applied;
    var dots: Clock := if m in before then before[m] else map[];
    var r: Entries := before[m := Applied(dots, actor, counter)];
    assert r.Keys == after.Keys;
    forall x | x in after ensures after[x] == r[x] {
      if x != m { assert before[x] == after[x]; }
    }
    SameEntries(after, r);
  }

  class Orswot {
    var clock: Clock
    var entries: Entries
    var deferred: Removals

    function Value(): State
      reads this
    {
      State(clock, entries, deferred)
    }

    constructor ()
      ensures Value() == INITIAL
    {
      clock, entries, deferred := map[], map[], map[];
    }

    method Apply(op: Op)
      modifies this
      ensures Value() == OpApplied(old(Value()), op)
    {
      match op {
        case Add(actor, counter, members) =>
          ApplyAdd(actor, counter, members);
        case Rm(seen, members) =>
          ApplyRm(ToSet(members), seen);
      }
    }

    method ApplyAdd(actor: Actor, counter: nat, members: seq<Member>)
      modifies this
      ensures Value() == AddApplied(old(Value()), actor, counter, ToSet(members))
    {
      if Get(clock, actor) >= counter {
        return;
      }
      MarkNone(entries, actor, counter);
      for i := 0 to |members|
        invariant clock == old(clock) && deferred == old(deferred)
        invariant entries == Marked(old(entries), ToSet(members[..i]), actor, counter)
      {
        hide *;
        MarkOne(old(entries), members, i, actor, counter);
        var memberClock: Clock := if members[i] in entries then entries[members[i]] else map[];
        ghost var before := memberClock;
        memberClock := VClock.Apply(memberClock, actor, counter);
        AppliedIs(before, actor, counter, memberClock);
        entries := entries[members[i] := memberClock];
      }
      assert members[..|members|] == members;
      clock := VClock.Apply(clock, actor, counter);
      AppliedIs(old(clock), actor, counter, clock);
      ApplyDeferred();
    }

    method ApplyRm(members: set<Member>, seen: Clock)
      modifies this
      ensures Value() == RmApplied(old(Value()), members, seen)
    {
      hide Without, Scrubbed, Both, Only;
      ScrubMembers(members, seen);
      BothWithOne(deferred, seen, members, clock);
      var order := PartialCmp(seen, clock);
      if order == Incomparable || order == Greater {
        if seen in deferred {
          deferred := deferred[seen := deferred[seen] + members];
        } else {
          assert At(deferred, seen) + members == members;
          deferred := deferred[seen := members];
        }
      }
    }

    method ScrubMembers(members: set<Member>, seen: Clock)
      modifies this`entries
      ensures entries == Scrubbed(old(entries), map[seen := members])
    {
      hide Without, Scrubbed;
      var todo := members;
      while todo != {}
        invariant todo <= members
        invariant forall m :: m in entries <==>
                              m in old(entries) && (m in members - todo ==> Without(old(entries)[m], seen) != map[])
        invariant forall m :: m in entries ==>
                              entries[m] == if m in members - todo then Without(old(entries)[m], seen)
                                else old(entries)[m]
        decreases |todo|
      {
        var m :| m in todo;
        if m in entries {
          var memberClock := VClock.ResetRemove(entries[m], seen);
          if memberClock == map[] {
            entries := entries - {m};
          } else {
            entries := entries[m := memberClock];
          }
        }
        todo := todo - {m};
      }
      ScrubByOne(old(entries), seen, members, entries);
    }

    /** The loop that merge runs over the other replica's removals and apply_deferred over its own. */
    method ApplyAllRm(rms: Removals)
      modifies this
      ensures Value() == AllRmApplied(old(Value()), rms)
    {
      hide *;
      var todo := rms.Keys;
      ghost var done: Removals := map[];
      AllOrNone(rms);
      AllRmNone(Value());
      while todo != {}
        invariant todo <= rms.Keys && done == rms - todo
        invariant Value() == AllRmApplied(old(Value()), done)
        decreases |todo|
      {
        var d :| d in todo;
        ApplyRm(rms[d], d);
        AllRmAndOne(old(Value()), done, rms[d], d);
        DoneWithOne(rms, done, todo, d);
        todo := todo - {d};
        done := Both(done, map[d := rms[d]]);
      }
    }

    method ApplyDeferred()
      modifies this
      ensures Value() == DeferredApplied(old(Value()))
    {
      var taken := deferred;
      deferred := map[];
      ApplyAllRm(taken);
    }

    method Merge(other: State)
      modifies this
      ensures Value() == Merged(old(Value()), other)
    {
      hide Scrubbed, Both, Pending, MergedEntries, Joined;
      DropSeen(other);
      TakeTheirs(old(entries), other);
      ApplyAllRm(other.deferred);
      clock := VClock.Merge(clock, other.clock);
      ApplyDeferred();
    }

    /** Of our own entries, keep what the other replica holds too or has not seen. */
    method DropSeen(other: State)
      modifies this`entries
      ensures forall m :: m in entries <==>
                          m in old(entries) && (m in other.entries || Unseen(old(entries)[m], other.clock) != map[])
      ensures forall m :: m in entries ==>
                          entries[m] == if m in other.entries then old(entries)[m]
                            else Unseen(old(entries)[m], other.clock)
    {
      var kept: Entries := map[];
      var todo := entries.Keys;
      while todo != {}
        invariant todo <= entries.Keys && entries == old(entries)
        invariant forall m :: m in kept <==>
                              m in entries && m !in todo && (m in other.entries ||
                                Unseen(entries[m], other.clock) != map[])
        invariant forall m :: m in kept ==>
                              kept[m] == if m in other.entries then entries[m] else Unseen(entries[m], other.clock)
        decreases |todo|
      {
        var m :| m in todo;
        if m !in other.entries {
          var order := PartialCmp(other.clock, entries[m]);
          if order != Greater && order != Equal {
            var c := VClock.ResetRemove(entries[m], other.clock);
            kept := kept[m := c];
          }
        } else {
          kept := kept[m := entries[m]];
        }
        todo := todo - {m};
      }
      entries := kept;
    }

    /** Combine the entries that DropSeen has left of `ours` with the other replica's. */
    method TakeTheirs(ghost ours: Entries, other: State)
      requires forall m :: m in entries <==>
                           m in ours && (m in other.entries || Unseen(ours[m], other.clock) != map[])
      requires forall m :: m in entries ==>
                           entries[m] == if m in other.entries then ours[m] else Unseen(ours[m], other.clock)
      modifies this`entries
      ensures entries == MergedEntries(State(clock, ours, deferred), other)
    {
      hide Unseen;
      ghost var result := MergedEntries(State(clock, ours, deferred), other);
      ghost var kept := entries;
      forall m | m in other.entries ensures AgreeAt(entries, ours, m) {
      }
      forall m | m !in other.entries ensures AgreeAt(entries, result, m) {
      }
      CombineAll(ours, result, other);
      SameEntries(entries, result);
    }

    method CombineAll(ghost ours: Entries, ghost result: Entries, other: State)
      requires result == MergedEntries(State(clock, ours, deferred), other)
      requires forall m :: m in other.entries ==> AgreeAt(entries, ours, m)
      requires forall m :: m !in other.entries ==> AgreeAt(entries, result, m)
      modifies this`entries
      ensures forall m :: AgreeAt(entries, result, m)
    {
      var todo := other.entries.Keys;
      while todo != {}
        invariant todo <= other.entries.Keys
        invariant clock == old(clock) && deferred == old(deferred)
        invariant forall m :: m in todo ==> AgreeAt(entries, ours, m)
        invariant forall m :: m !in todo ==> AgreeAt(entries, result, m)
        decreases |todo|
      {
        hide MergedEntries, AgreeAt, Put;
        var m :| m in todo;
        PutOne(entries, ours, result, todo, m);
        CombineEntry(m, ours, other);
        todo := todo - {m};
      }
    }

    method CombineEntry(member: Member, ghost ours: Entries, other: State)
      requires member in other.entries && AgreeAt(entries, ours, member)
      modifies this`entries
      ensures entries == Put(old(entries), member, MergedEntries(State(clock, ours, deferred), other))
    {
      hide Joined, Common, Without;
      var theirs := other.entries[member];
      if member in entries {
        var common := VClock.Intersection(theirs, entries[member]);
        var unseen := VClock.ResetRemove(theirs, clock);
        common := VClock.Merge(common, unseen);
        unseen := VClock.ResetRemove(entries[member], other.clock);
        common := VClock.Merge(common, unseen);
        if common == map[] {
          entries := entries - {member};
        } else {
          entries := entries[member := common];
        }
      } else {
        var order := PartialCmp(clock, theirs);
        if order != Greater && order != Equal {
          var c := VClock.ResetRemove(theirs, clock);
          entries := entries[member := c];
        }
      }
    }
  }
}
