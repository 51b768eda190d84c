/** What merging replicas of the set computes, whatever the order (src/crdts/orswot.rs, merge).

    `IsMergeOf(s, ss)` says, dot by dot and without any order of merging, what the replicas `ss`
    hold together.  Every tree of merges over well-formed replicas computes it, so the result
    depends only on the set of replicas merged: merge is commutative, associative and
    idempotent. */
module OrswotMerge {
  import opened VClock
  import opened MultiMaps
  import opened Orswot

  function Dot(s: State, m: Member, a: Actor): nat {
    Witness(s.entries, m, a)
  }

  ghost predicate ProperEntries(e: Entries) {
    forall m :: m in e ==> e[m] != map[] && Proper(e[m])
  }

  ghost predicate DotsSeen(s: State) {
    forall m, a :: Dot(s, m, a) <= Get(s.clock, a)
  }

  ghost predicate DeferredProper(s: State) {
    forall d :: d in s.deferred ==> Proper(d) && !Leq(d, s.clock)
  }

  ghost predicate DeferredDone(s: State) {
    forall m, a :: Dot(s, m, a) > 0 ==> !Covered(s.deferred, m, a, Dot(s, m, a))
  }

  /** Entries have dots, the clock has seen them, and the removals still deferred are ahead of
      the clock and already carried out on the entries. */
  ghost predicate WellFormed(s: State) {
    Proper(s.clock) && ProperEntries(s.entries) && DotsSeen(s) && DeferredProper(s) && DeferredDone(s)
  }

  /** The dot (a, v) of `m` survives: someone holds it, everyone else has not seen it yet, and no
      deferred removal covers it. */
  ghost predicate Survives(ss: set<State>, m: Member, a: Actor, v: nat) {
    Held(ss, m, a, v) && NotDropped(ss, m, a, v) && !Removed(ss, m, a, v)
  }

  ghost predicate Held(ss: set<State>, m: Member, a: Actor, v: nat) {
    exists t :: t in ss && Dot(t, m, a) == v
  }

  ghost predicate NotDropped(ss: set<State>, m: Member, a: Actor, v: nat) {
    forall t :: t in ss ==> Dot(t, m, a) == v || Get(t.clock, a) < v
  }

  ghost predicate Removed(ss: set<State>, m: Member, a: Actor, v: nat) {
    exists t :: t in ss && Covered(t.deferred, m, a, v)
  }

  ghost predicate ClockOf(c: Clock, ss: set<State>) {
    forall a :: (forall t :: t in ss ==> Get(t.clock, a) <= Get(c, a)) &&
                (Get(c, a) > 0 ==> exists t :: t in ss && Get(t.clock, a) == Get(c, a))
  }

  ghost predicate DotsOf(s: State, ss: set<State>) {
    forall m, a, v :: v > 0 ==> (Dot(s, m, a) == v <==> Survives(ss, m, a, v))
  }

  ghost predicate SomeoneDefers(ss: set<State>, d: Clock) {
    exists t :: t in ss && d in t.deferred
  }

  ghost predicate SomeoneRemoves(ss: set<State>, d: Clock, m: Member) {
    exists t :: t in ss && m in At(t.deferred, d)
  }

  ghost predicate DeferredOf(s: State, ss: set<State>) {
    forall d :: (d in s.deferred <==> SomeoneDefers(ss, d) && !Leq(d, s.clock)) &&
                (d in s.deferred ==> forall m :: m in s.deferred[d] <==> SomeoneRemoves(ss, d, m))
  }

  ghost predicate IsMergeOf(s: State, ss: set<State>) {
    WellFormed(s) && ClockOf(s.clock, ss) && DotsOf(s, ss) && DeferredOf(s, ss)
  }

  // ---- the operations of the source, dot by dot ----

  lemma KeptByDot(x: State, y: State, m: Member, a: Actor)
    requires WellFormed(x) && WellFormed(y)
    ensures Proper(KeptDots(x, y, m))
    ensures Get(KeptDots(x, y, m), a) ==
            if Dot(x, m, a) == Dot(y, m, a) then Dot(x, m, a)
            else if Dot(y, m, a) > Get(x.clock, a) then Dot(y, m, a)
            else if Dot(x, m, a) > Get(y.clock, a) then Dot(x, m, a)
            else 0
  {
    assert Dot(x, m, a) <= Get(x.clock, a) && Dot(y, m, a) <= Get(y.clock, a);
    if m in x.entries && m in y.entries {
      var ours, theirs := x.entries[m], y.entries[m];
      OperationsByDot(theirs, ours);
      OperationsByDot(theirs, x.clock);
      OperationsByDot(ours, y.clock);
      OperationsByDot(Common(theirs, ours), Without(theirs, x.clock));
      OperationsByDot(Joined(Common(theirs, ours), Without(theirs, x.clock)), Without(ours, y.clock));
    } else if m in x.entries {
      OperationsByDot(x.entries[m], y.clock);
    } else if m in y.entries {
      OperationsByDot(y.entries[m], x.clock);
    }
  }

  lemma MergedEntriesByDot(x: State, y: State)
    requires WellFormed(x) && WellFormed(y)
    ensures ProperEntries(MergedEntries(x, y))
    ensures forall m, a :: Witness(MergedEntries(x, y), m, a) == Get(KeptDots(x, y, m), a)
  {
    var e := MergedEntries(x, y);
    forall m, a ensures Witness(e, m, a) == Get(KeptDots(x, y, m), a) {
      KeptByDot(x, y, m, a);
      hide KeptDots;
      if m !in e {
        assert m !in x.entries.Keys + y.entries.Keys ==> Dot(x, m, a) == 0 && Dot(y, m, a) == 0;
      }
    }
    forall m | m in e ensures Proper(e[m]) {
      var a :| a in e[m];
      KeptByDot(x, y, m, a);
    }
  }

  lemma ScrubbedDot(e: Entries, rms: Removals, m: Member, a: Actor)
    requires ProperEntries(e)
    ensures Witness(Scrubbed(e, rms), m, a) == if Covered(rms, m, a, Witness(e, m, a)) then 0 else Witness(e, m, a)
  {
    if m in e {
      if Touched(rms, m) {
        var r := Residue(e[m], rms, m);
        assert Get(r, a) == if Covered(rms, m, a, Get(e[m], a)) then 0 else Get(e[m], a);
      } else {
        ResidueUntouched(e[m], rms, m);
      }
    }
  }

  lemma ScrubbedProper(e: Entries, rms: Removals)
    requires ProperEntries(e)
    ensures ProperEntries(Scrubbed(e, rms))
  {
    forall m | m in e && !Touched(rms, m) ensures Residue(e[m], rms, m) == e[m] {
      ResidueUntouched(e[m], rms, m);
    }
  }

  lemma ScrubbedByDot(e: Entries, rms: Removals)
    requires ProperEntries(e)
    ensures ProperEntries(Scrubbed(e, rms))
    ensures forall m, a :: Witness(Scrubbed(e, rms), m, a) ==
                           if Covered(rms, m, a, Witness(e, m, a)) then 0 else Witness(e, m, a)
  {
    ScrubbedProper(e, rms);
    hide Scrubbed, Covered, Witness;
    forall m, a ensures Witness(Scrubbed(e, rms), m, a) ==
                        if Covered(rms, m, a, Witness(e, m, a)) then 0 else Witness(e, m, a) {
      ScrubbedDot(e, rms, m, a);
    }
  }

  lemma DeferredAppliedByDot(s: State)
    requires ProperEntries(s.entries)
    ensures DeferredApplied(s).clock == s.clock && ProperEntries(DeferredApplied(s).entries)
    ensures forall m, a :: Dot(DeferredApplied(s), m, a) ==
                           if Covered(s.deferred, m, a, Dot(s, m, a)) then 0 else Dot(s, m, a)
  {
    hide Scrubbed, Both, Only;
    ScrubbedByDot(s.entries, s.deferred);
  }

  lemma DeferredAppliedKeeps(s: State, d: Clock)
    requires Proper(s.clock) && (d in s.deferred ==> Proper(d))
    ensures d in DeferredApplied(s).deferred <==> d in s.deferred && !Leq(d, s.clock)
    ensures d in DeferredApplied(s).deferred ==> DeferredApplied(s).deferred[d] == s.deferred[d]
  {
    hide Scrubbed, Both, Only;
    BothWithNone(Pending(s.deferred, s.clock), s.clock);
    assert DeferredApplied(s).deferred == Only(s.deferred, NotSeenBy(s.clock));
  }

  lemma DeferredAppliedWellFormed(s: State)
    requires ProperEntries(s.entries) && Proper(s.clock) && DotsSeen(s)
    requires forall d :: d in s.deferred ==> Proper(d)
    ensures WellFormed(DeferredApplied(s))
  {
    DeferredAppliedByDot(s);
    var r := DeferredApplied(s);
    forall d ensures d in r.deferred <==> d in s.deferred && !Leq(d, s.clock)
             ensures d in r.deferred ==> r.deferred[d] == s.deferred[d] {
      DeferredAppliedKeeps(s, d);
    }
    hide DeferredApplied, Dot;
    forall m, a ensures Dot(r, m, a) <= Get(r.clock, a) {
      assert Dot(s, m, a) <= Get(s.clock, a);
    }
    forall m, a | Dot(r, m, a) > 0 ensures !Covered(r.deferred, m, a, Dot(r, m, a)) {
      assert !Covered(s.deferred, m, a, Dot(s, m, a));
    }
  }

  // ---- two replicas ----

  /** The state that merge builds just before it applies the deferred removals. */
  function Premerged(x: State, y: State): State {
    State(Joined(x.clock, y.clock),
          Scrubbed(MergedEntries(x, y), y.deferred),
          Both(x.deferred, Pending(y.deferred, x.clock)))
  }

  lemma PremergedByDot(x: State, y: State, m: Member, a: Actor)
    requires WellFormed(x) && WellFormed(y)
    ensures ProperEntries(Premerged(x, y).entries)
    ensures var k := Get(KeptDots(x, y, m), a);
            Dot(Premerged(x, y), m, a) == if Covered(y.deferred, m, a, k) then 0 else k
    ensures Dot(Premerged(x, y), m, a) <= Get(Joined(x.clock, y.clock), a)
  {
    MergedEntriesByDot(x, y);
    KeptByDot(x, y, m, a);
    OperationsByDot(x.clock, y.clock);
    hide MergedEntries, KeptDots, Scrubbed;
    ScrubbedByDot(MergedEntries(x, y), y.deferred);
    assert Dot(x, m, a) <= Get(x.clock, a) && Dot(y, m, a) <= Get(y.clock, a);
  }

  lemma MergedWellFormed(x: State, y: State)
    requires WellFormed(x) && WellFormed(y)
    ensures WellFormed(Merged(x, y))
  {
    hide MergedEntries, KeptDots, Scrubbed;
    var p := Premerged(x, y);
    OperationsByDot(x.clock, y.clock);
    MergedEntriesByDot(x, y);
    ScrubbedByDot(MergedEntries(x, y), y.deferred);
    forall m, a ensures Dot(p, m, a) <= Get(p.clock, a) {
      PremergedByDot(x, y, m, a);
    }
    DeferredAppliedWellFormed(p);
  }

  lemma MergedDotValue(x: State, y: State, m: Member, a: Actor)
    requires WellFormed(x) && WellFormed(y)
    ensures var k := Get(KeptDots(x, y, m), a);
            Dot(Merged(x, y), m, a) ==
            if Covered(x.deferred, m, a, k) || Covered(y.deferred, m, a, k) then 0 else k
  {
    hide KeptDots, Scrubbed, DeferredApplied, Only, Both;
    var p := Premerged(x, y);
    MergedDeferredProper(x, y);
    DeferredAppliedByDot(p);
    PremergedByDot(x, y, m, a);
    CoveredByEither(x.deferred, Pending(y.deferred, x.clock), m);
    assert Merged(x, y) == DeferredApplied(p);
  }

  lemma MergedDeferredProper(x: State, y: State)
    requires WellFormed(x) && WellFormed(y)
    ensures var p := Premerged(x, y);
            Proper(p.clock) && ProperEntries(p.entries) && forall d :: d in p.deferred ==> Proper(d)
  {
    hide KeptDots, Scrubbed;
    OperationsByDot(x.clock, y.clock);
    MergedEntriesByDot(x, y);
    ScrubbedByDot(MergedEntries(x, y), y.deferred);
  }

  /** `Survives` for two replicas, written out. */
  ghost predicate SurvivesBoth(x: State, y: State, m: Member, a: Actor, v: nat) {
    (Dot(x, m, a) == v || Dot(y, m, a) == v) &&
    (Dot(x, m, a) == v || Get(x.clock, a) < v) &&
    (Dot(y, m, a) == v || Get(y.clock, a) < v) &&
    !Covered(x.deferred, m, a, v) && !Covered(y.deferred, m, a, v)
  }

  lemma MergedDot(x: State, y: State, m: Member, a: Actor, v: nat)
    requires WellFormed(x) && WellFormed(y) && v > 0
    ensures Dot(Merged(x, y), m, a) == v <==> SurvivesBoth(x, y, m, a, v)
  {
    hide Merged, KeptDots, Covered, Dot;
    MergedDotValue(x, y, m, a);
    KeptByDot(x, y, m, a);
    assert Dot(x, m, a) <= Get(x.clock, a) && Dot(y, m, a) <= Get(y.clock, a);
  }

  lemma MergedDeferred(x: State, y: State, d: Clock)
    requires WellFormed(x) && WellFormed(y)
    ensures Merged(x, y).clock == Joined(x.clock, y.clock)
    ensures var r := Merged(x, y);
            (d in r.deferred <==> (d in x.deferred || d in y.deferred) && !Leq(d, r.clock)) &&
            (d in r.deferred ==> r.deferred[d] == At(x.deferred, d) + At(y.deferred, d))
  {
    hide KeptDots, Scrubbed, DeferredApplied, Both, Only, MergedEntries, Joined, NotSeenBy;
    var p := Premerged(x, y);
    MergedDeferredProper(x, y);
    DeferredAppliedByDot(p);
    DeferredAppliedKeeps(p, d);
    assert Merged(x, y) == DeferredApplied(p);
    if d in y.deferred {
      AheadOfMerge(x, y, d);
    }
  }

  lemma AheadOfMerge(x: State, y: State, d: Clock)
    requires WellFormed(x) && WellFormed(y) && d in y.deferred
    ensures !Leq(d, Joined(x.clock, y.clock)) ==> NotSeenBy(x.clock)(d)
  {
    if Leq(d, x.clock) {
      var j := Joined(x.clock, y.clock);
      JoinedIsLeastUpperBound(x.clock, y.clock, j);
      LeqTransitive(d, x.clock, j);
    }
  }

  lemma LeqTransitive(c: Clock, d: Clock, e: Clock)
    requires Leq(c, d) && Leq(d, e)
    ensures Leq(c, e)
  {
    forall a | a in c ensures c[a] <= Get(e, a) {
      assert a in d ==> d[a] <= Get(e, a);
    }
  }

  // ---- composing merges ----

  lemma MergeOfOne(s: State)
    requires WellFormed(s)
    ensures IsMergeOf(s, {s})
  {
    assert s in {s};
    forall d ensures d in s.deferred <==> SomeoneDefers({s}, d) && !Leq(d, s.clock) {
    }
  }

  /** A merge of two merges is a merge of everything that went into either. */
  lemma MergeOfMerges(x: State, xs: set<State>, y: State, ys: set<State>)
    requires IsMergeOf(x, xs) && IsMergeOf(y, ys)
    ensures IsMergeOf(Merged(x, y), xs + ys)
  {
    hide Merged, WellFormed, Survives, SomeoneDefers, SomeoneRemoves, Dot, Get, Leq;
    var r := Merged(x, y);
    MergedWellFormed(x, y);
    forall d ensures d in r.deferred <==> SomeoneDefers(xs + ys, d) && !Leq(d, r.clock)
             ensures d in r.deferred ==> forall m :: m in r.deferred[d] <==> SomeoneRemoves(xs + ys, d, m) {
      ComposeDeferred(x, xs, y, ys, d);
    }
    forall m, a, v | v > 0 ensures Dot(r, m, a) == v <==> Survives(xs + ys, m, a, v) {
      ComposeDots(x, xs, y, ys, m, a, v);
    }
    forall a ensures (forall t :: t in xs + ys ==> Get(t.clock, a) <= Get(r.clock, a)) &&
                     (Get(r.clock, a) > 0 ==> exists t :: t in xs + ys && Get(t.clock, a) == Get(r.clock, a)) {
      ComposeClocks(x, xs, y, ys, a);
    }
  }

  lemma ComposeClocks(x: State, xs: set<State>, y: State, ys: set<State>, a: Actor)
    requires IsMergeOf(x, xs) && IsMergeOf(y, ys)
    ensures var c := Merged(x, y).clock;
            (forall t :: t in xs + ys ==> Get(t.clock, a) <= Get(c, a)) &&
            (Get(c, a) > 0 ==> exists t :: t in xs + ys && Get(t.clock, a) == Get(c, a))
  {
    MergedDeferred(x, y, map[]);
    OperationsByDot(x.clock, y.clock);
    hide *;
    JoinClocksOf(x.clock, xs, y.clock, ys, Merged(x, y).clock, a);
  }

  lemma JoinClocksOf(c: Clock, xs: set<State>, d: Clock, ys: set<State>, j: Clock, a: Actor)
    requires forall t :: t in xs ==> Get(t.clock, a) <= Get(c, a)
    requires forall t :: t in ys ==> Get(t.clock, a) <= Get(d, a)
    requires Get(c, a) > 0 ==> exists t :: t in xs && Get(t.clock, a) == Get(c, a)
    requires Get(d, a) > 0 ==> exists t :: t in ys && Get(t.clock, a) == Get(d, a)
    requires Get(j, a) == if Get(c, a) >= Get(d, a) then Get(c, a) else Get(d, a)
    ensures forall t :: t in xs + ys ==> Get(t.clock, a) <= Get(j, a)
    ensures Get(j, a) > 0 ==> exists t :: t in xs + ys && Get(t.clock, a) == Get(j, a)
  {
    hide Get;
  }

  lemma ComposeDots(x: State, xs: set<State>, y: State, ys: set<State>, m: Member, a: Actor, v: nat)
    requires IsMergeOf(x, xs) && IsMergeOf(y, ys) && v > 0
    ensures Dot(Merged(x, y), m, a) == v <==> Survives(xs + ys, m, a, v)
  {
    MergedDot(x, y, m, a, v);
    CoverOfMerge(x, xs, m, a, v);
    CoverOfMerge(y, ys, m, a, v);
    NotHeldMeansBehind(x, xs, m, a, v);
    NotHeldMeansBehind(y, ys, m, a, v);
    SurvivesUnion(xs, ys, m, a, v);
    assert Dot(x, m, a) == v <==> Survives(xs, m, a, v);
    assert Dot(y, m, a) == v <==> Survives(ys, m, a, v);
    hide *;
    DotsCompose(x, xs, y, ys, m, a, v);
  }

  lemma DotsCompose(x: State, xs: set<State>, y: State, ys: set<State>, m: Member, a: Actor, v: nat)
    requires Dot(x, m, a) == v <==> Survives(xs, m, a, v)
    requires Dot(y, m, a) == v <==> Survives(ys, m, a, v)
    requires !Held(xs, m, a, v) ==> (NotDropped(xs, m, a, v) <==> Get(x.clock, a) < v)
    requires !Held(ys, m, a, v) ==> (NotDropped(ys, m, a, v) <==> Get(y.clock, a) < v)
    requires Get(x.clock, a) < v ==> NotDropped(xs, m, a, v)
    requires Get(y.clock, a) < v ==> NotDropped(ys, m, a, v)
    requires Covered(x.deferred, m, a, v) ==> Removed(xs, m, a, v)
    requires Covered(y.deferred, m, a, v) ==> Removed(ys, m, a, v)
    requires Removed(xs, m, a, v) ==> Covered(x.deferred, m, a, v) || Get(x.clock, a) >= v
    requires Removed(ys, m, a, v) ==> Covered(y.deferred, m, a, v) || Get(y.clock, a) >= v
    requires Survives(xs + ys, m, a, v) <==>
               (Held(xs, m, a, v) || Held(ys, m, a, v)) && NotDropped(xs, m, a, v) && NotDropped(ys, m, a, v) &&
               !Removed(xs, m, a, v) && !Removed(ys, m, a, v)
    ensures SurvivesBoth(x, y, m, a, v) <==> Survives(xs + ys, m, a, v)
  {
    hide Held, NotDropped, Removed, Covered, Dot, Get;
  }

  lemma SurvivesUnion(xs: set<State>, ys: set<State>, m: Member, a: Actor, v: nat)
    ensures Survives(xs + ys, m, a, v) <==>
              (Held(xs, m, a, v) || Held(ys, m, a, v)) && NotDropped(xs, m, a, v) && NotDropped(ys, m, a, v) &&
              !Removed(xs, m, a, v) && !Removed(ys, m, a, v)
  {
    hide Covered, Dot, Get;
  }

  lemma NotHeldMeansBehind(x: State, xs: set<State>, m: Member, a: Actor, v: nat)
    requires IsMergeOf(x, xs) && v > 0
    ensures !Held(xs, m, a, v) ==> (NotDropped(xs, m, a, v) <==> Get(x.clock, a) < v)
    ensures Get(x.clock, a) < v ==> NotDropped(xs, m, a, v)
  {
    hide WellFormed, DotsOf, DeferredOf, Dot, Get;
  }

  /** A deferred removal that a merge has forgotten covers only dots the merge has seen. */
  lemma CoverOfMerge(x: State, xs: set<State>, m: Member, a: Actor, v: nat)
    requires IsMergeOf(x, xs) && v > 0
    ensures Covered(x.deferred, m, a, v) ==> Removed(xs, m, a, v)
    ensures Removed(xs, m, a, v) ==> Covered(x.deferred, m, a, v) || Get(x.clock, a) >= v
  {
    if Removed(xs, m, a, v) {
      var t :| t in xs && Covered(t.deferred, m, a, v);
      ForgottenIsSeen(x, xs, t, m, a, v);
    }
    if Covered(x.deferred, m, a, v) {
      KeptIsSomeones(x, xs, m, a, v);
    }
  }

  lemma ForgottenIsSeen(x: State, xs: set<State>, t: State, m: Member, a: Actor, v: nat)
    requires DeferredOf(x, xs) && t in xs && Covered(t.deferred, m, a, v)
    ensures Covered(x.deferred, m, a, v) || Get(x.clock, a) >= v
  {
    var d :| d in t.deferred && m in t.deferred[d] && a in d && d[a] >= v;
    assert SomeoneDefers(xs, d) && SomeoneRemoves(xs, d, m);
  }

  lemma KeptIsSomeones(x: State, xs: set<State>, m: Member, a: Actor, v: nat)
    requires DeferredOf(x, xs) && Covered(x.deferred, m, a, v)
    ensures Removed(xs, m, a, v)
  {
    var d :| d in x.deferred && m in x.deferred[d] && a in d && d[a] >= v;
    assert SomeoneRemoves(xs, d, m);
    var t :| t in xs && m in At(t.deferred, d);
    assert Covered(t.deferred, m, a, v);
  }

  lemma ComposeDeferred(x: State, xs: set<State>, y: State, ys: set<State>, d: Clock)
    requires IsMergeOf(x, xs) && IsMergeOf(y, ys)
    ensures var r := Merged(x, y);
            (d in r.deferred <==> SomeoneDefers(xs + ys, d) && !Leq(d, r.clock)) &&
            (d in r.deferred ==> forall m :: m in r.deferred[d] <==> SomeoneRemoves(xs + ys, d, m))
  {
    MergedDeferred(x, y, d);
    SomeoneOfUnion(xs, ys, d);
    var r := Merged(x, y);
    JoinedIsLeastUpperBound(x.clock, y.clock, r.clock);
    if Leq(d, x.clock) { LeqTransitive(d, x.clock, r.clock); }
    if Leq(d, y.clock) { LeqTransitive(d, y.clock, r.clock); }
    hide Merged, WellFormed, ClockOf, DotsOf, SomeoneDefers, SomeoneRemoves, Leq;
  }

  lemma SomeoneOfUnion(xs: set<State>, ys: set<State>, d: Clock)
    ensures SomeoneDefers(xs + ys, d) <==> SomeoneDefers(xs, d) || SomeoneDefers(ys, d)
    ensures forall m :: SomeoneRemoves(xs + ys, d, m) <==> SomeoneRemoves(xs, d, m) || SomeoneRemoves(ys, d, m)
    ensures !SomeoneDefers(xs, d) ==> forall m :: !SomeoneRemoves(xs, d, m)
    ensures !SomeoneDefers(ys, d) ==> forall m :: !SomeoneRemoves(ys, d, m)
  {
  }

  // ---- equal by dots means equal ----

  lemma SameDots(s: State, t: State)
    requires WellFormed(s) && WellFormed(t)
    requires forall m, a :: Dot(s, m, a) == Dot(t, m, a)
    ensures s.entries == t.entries
  {
    forall m ensures AgreeAt(s.entries, t.entries, m) {
      SameDotsAt(s, t, m);
    }
    SameEntries(s.entries, t.entries);
  }

  lemma SameDotsAt(s: State, t: State, m: Member)
    requires WellFormed(s) && WellFormed(t)
    requires forall m, a :: Dot(s, m, a) == Dot(t, m, a)
    ensures AgreeAt(s.entries, t.entries, m)
  {
    if m in s.entries {
      var a :| a in s.entries[m];
      assert Dot(s, m, a) > 0;
    }
    if m in t.entries {
      var a :| a in t.entries[m];
      assert Dot(t, m, a) > 0;
    }
    if m in s.entries {
      forall a ensures Get(s.entries[m], a) == Get(t.entries[m], a) {
        assert Dot(s, m, a) == Dot(t, m, a);
      }
      Extensional(s.entries[m], t.entries[m]);
    }
  }

  lemma SameClock(c: Clock, d: Clock, ss: set<State>)
    requires Proper(c) && Proper(d) && ClockOf(c, ss) && ClockOf(d, ss)
    ensures c == d
  {
    forall a ensures Get(c, a) == Get(d, a) {
      assert Get(c, a) > 0 ==> exists t :: t in ss && Get(t.clock, a) == Get(c, a);
      assert Get(d, a) > 0 ==> exists t :: t in ss && Get(t.clock, a) == Get(d, a);
    }
    Extensional(c, d);
  }

  lemma SameDeferred(s: State, t: State, ss: set<State>)
    requires s.clock == t.clock && DeferredOf(s, ss) && DeferredOf(t, ss)
    ensures s.deferred == t.deferred
  {
    forall d ensures d in s.deferred <==> d in t.deferred
             ensures At(s.deferred, d) == At(t.deferred, d) {
      if d in s.deferred {
        forall m ensures m in s.deferred[d] <==> m in t.deferred[d] {
          assert m in s.deferred[d] <==> SomeoneRemoves(ss, d, m);
        }
      }
    }
    Same(s.deferred, t.deferred);
  }

  /** `IsMergeOf` leaves no freedom. */
  lemma MergeIsUnique(s: State, t: State, ss: set<State>)
    requires IsMergeOf(s, ss) && IsMergeOf(t, ss)
    ensures s == t
  {
    SameClock(s.clock, t.clock, ss);
    SameDeferred(s, t, ss);
    forall m, a ensures Dot(s, m, a) == Dot(t, m, a) {
      assert Dot(s, m, a) > 0 ==> Survives(ss, m, a, Dot(s, m, a));
      assert Dot(t, m, a) > 0 ==> Survives(ss, m, a, Dot(t, m, a));
    }
    SameDots(s, t);
  }

  // ---- any number of replicas, merged in any order and grouping ----

  datatype Merges = Replica(state: State) | MergeInto(left: Merges, right: Merges)

  function Result(t: Merges): State {
    match t
    case Replica(s) => s
    case MergeInto(l, r) => Merged(Result(l), Result(r))
  }

  function Replicas(t: Merges): set<State> {
    match t
    case Replica(s) => {s}
    case MergeInto(l, r) => Replicas(l) + Replicas(r)
  }

  lemma {:induction false} AnyMergeIsTheMerge(t: Merges)
    requires forall s :: s in Replicas(t) ==> WellFormed(s)
    ensures IsMergeOf(Result(t), Replicas(t))
  {
    match t
    case Replica(s) =>
      MergeOfOne(s);
    case MergeInto(l, r) =>
      AnyMergeIsTheMerge(l);
      AnyMergeIsTheMerge(r);
      MergeOfMerges(Result(l), Replicas(l), Result(r), Replicas(r));
  }

  /** Only the set of replicas merged matters: not the order, the grouping, or repetition. */
  lemma MergeOrderDoesNotMatter(t: Merges, t': Merges)
    requires Replicas(t) == Replicas(t')
    requires forall s :: s in Replicas(t) ==> WellFormed(s)
    ensures Result(t) == Result(t')
  {
    AnyMergeIsTheMerge(t);
    AnyMergeIsTheMerge(t');
    MergeIsUnique(Result(t), Result(t'), Replicas(t));
  }

  lemma MergeLaws(x: State, y: State, z: State)
    requires WellFormed(x) && WellFormed(y) && WellFormed(z)
    ensures Merged(x, y) == Merged(y, x)
    ensures Merged(Merged(x, y), z) == Merged(x, Merged(y, z))
    ensures Merged(x, x) == x
    ensures Merged(Merged(x, y), y) == Merged(x, y)
  {
    hide Merged;
    var rx, ry, rz := Replica(x), Replica(y), Replica(z);
    MergeOrderDoesNotMatter(MergeInto(rx, ry), MergeInto(ry, rx));
    MergeOrderDoesNotMatter(MergeInto(MergeInto(rx, ry), rz), MergeInto(rx, MergeInto(ry, rz)));
    MergeOrderDoesNotMatter(MergeInto(rx, rx), rx);
    MergeOrderDoesNotMatter(MergeInto(MergeInto(rx, ry), ry), MergeInto(rx, ry));
  }

  // ---- operations ----

  lemma AddKeepsWellFormed(s: State, actor: Actor, counter: nat, members: set<Member>)
    requires WellFormed(s)
    ensures WellFormed(AddApplied(s, actor, counter, members))
  {
    if Get(s.clock, actor) < counter {
      var t := s.(clock := Applied(s.clock, actor, counter), entries := Marked(s.entries, members, actor, counter));
      MarkedByDot(s, actor, counter, members);
      forall m, a ensures Dot(t, m, a) <= Get(t.clock, a) {
        assert Dot(s, m, a) <= Get(s.clock, a);
      }
      DeferredAppliedWellFormed(t);
    }
  }

  lemma MarkedByDot(s: State, actor: Actor, counter: nat, members: set<Member>)
    requires WellFormed(s) && Get(s.clock, actor) < counter
    ensures ProperEntries(Marked(s.entries, members, actor, counter))
    ensures forall m, a :: Witness(Marked(s.entries, members, actor, counter), m, a) ==
                           if m in members && a == actor then counter else Dot(s, m, a)
  {
    forall m, a ensures Witness(Marked(s.entries, members, actor, counter), m, a) ==
                        if m in members && a == actor then counter else Dot(s, m, a) {
      assert Dot(s, m, a) <= Get(s.clock, a);
    }
  }

  lemma RmByDot(s: State, members: set<Member>, seen: Clock)
    requires WellFormed(s)
    ensures ProperEntries(RmApplied(s, members, seen).entries)
    ensures forall m, a :: Dot(RmApplied(s, members, seen), m, a) ==
                           if m in members && a in seen && seen[a] >= Dot(s, m, a) then 0 else Dot(s, m, a)
  {
    var rms: Removals := map[seen := members];
    ScrubbedByDot(s.entries, rms);
    hide Scrubbed, Both, Only;
    forall m, a, n ensures Covered(rms, m, a, n) <==> m in members && a in seen && seen[a] >= n {
      assert seen in rms;
    }
  }

  lemma RmDefers(s: State, members: set<Member>, seen: Clock, d: Clock)
    requires Proper(s.clock) && Proper(seen)
    ensures var r := RmApplied(s, members, seen).deferred;
            (d in r <==> d in s.deferred || (d == seen && !Leq(seen, s.clock))) &&
            (d in r ==> r[d] == if d == seen && !Leq(seen, s.clock) then At(s.deferred, d) + members else s.deferred[d])
  {
    hide Scrubbed, Both, Only;
    BothWithOne(s.deferred, seen, members, s.clock);
  }

  lemma RmCovers(s: State, members: set<Member>, seen: Clock, m: Member, a: Actor, n: nat)
    requires Proper(s.clock) && Proper(seen)
    requires Covered(RmApplied(s, members, seen).deferred, m, a, n)
    ensures Covered(s.deferred, m, a, n) || (m in members && a in seen && seen[a] >= n)
  {
    hide RmApplied;
    var r := RmApplied(s, members, seen).deferred;
    var d :| d in r && m in r[d] && a in d && d[a] >= n;
    RmDefers(s, members, seen, d);
  }

  lemma RmKeepsWellFormed(s: State, members: set<Member>, seen: Clock)
    requires WellFormed(s) && Proper(seen)
    ensures WellFormed(RmApplied(s, members, seen))
  {
    var r := RmApplied(s, members, seen);
    assert r.clock == s.clock;
    RmByDot(s, members, seen);
    hide RmApplied, Dot;
    forall m, a ensures Dot(r, m, a) <= Get(r.clock, a) {
      assert Dot(s, m, a) <= Get(s.clock, a);
    }
    forall d | d in r.deferred ensures Proper(d) && !Leq(d, r.clock) {
      RmDefers(s, members, seen, d);
    }
    RmKeepsDone(s, members, seen);
    hide Leq, Covered;
  }

  lemma RmKeepsDone(s: State, members: set<Member>, seen: Clock)
    requires WellFormed(s) && Proper(seen)
    ensures DeferredDone(RmApplied(s, members, seen))
  {
    var r := RmApplied(s, members, seen);
    RmByDot(s, members, seen);
    hide RmApplied, Dot, Covered, DotsSeen, DeferredProper, ProperEntries;
    forall m, a | Dot(r, m, a) > 0 ensures !Covered(r.deferred, m, a, Dot(r, m, a)) {
      assert !Covered(s.deferred, m, a, Dot(s, m, a));
      if Covered(r.deferred, m, a, Dot(r, m, a)) {
        RmCovers(s, members, seen, m, a, Dot(r, m, a));
      }
    }
  }
}
