/** What a replica of the set knows after a history of deliveries and merges
    (src/crdts/orswot.rs, apply and merge; the contract of src/crdts/traits.rs).

    `Knows(s, ops)` describes the state in terms of the set of operations alone: no order, no
    repetition, no record of how they arrived.  Delivering operations in each actor's order and
    merging replicas both lead to it. */
module OrswotDelivery {
  import opened VClock
  import opened MultiMaps
  import opened Orswot
  import opened OrswotMerge

  ghost predicate Adds(ops: set<Op>, m: Member, a: Actor, v: nat) {
    exists op :: op in ops && op.Add? && op.actor == a && op.counter == v && m in op.added
  }

  ghost predicate LastAdd(ops: set<Op>, m: Member, a: Actor, v: nat) {
    Adds(ops, m, a, v) && forall u: nat :: Adds(ops, m, a, u) ==> u <= v
  }

  /** A removal among `ops` has seen the dot (a, v) and names `m`. */
  ghost predicate Removes(ops: set<Op>, m: Member, a: Actor, v: nat) {
    exists op :: op in ops && op.Rm? && m in op.removed && a in op.seen && op.seen[a] >= v
  }

  ghost predicate Witnessed(ops: set<Op>, a: Actor, v: nat) {
    exists op :: op in ops && op.Add? && op.actor == a && op.counter == v
  }

  ghost predicate RemovedWith(ops: set<Op>, d: Clock) {
    exists op :: op in ops && op.Rm? && op.seen == d
  }

  ghost predicate RemovesWith(ops: set<Op>, d: Clock, m: Member) {
    exists op :: op in ops && op.Rm? && op.seen == d && m in op.removed
  }

  ghost predicate KnowsClock(s: State, ops: set<Op>) {
    forall a :: (Get(s.clock, a) > 0 ==> Witnessed(ops, a, Get(s.clock, a))) &&
                (forall v: nat :: Witnessed(ops, a, v) ==> v <= Get(s.clock, a))
  }

  /** A member is held by the last dot an actor added it with, unless a removal has seen it. */
  ghost predicate KnowsDots(s: State, ops: set<Op>) {
    forall m, a, v :: v > 0 ==> (Dot(s, m, a) == v <==> LastAdd(ops, m, a, v) && !Removes(ops, m, a, v))
  }

  /** Exactly the removals that have seen something the replica has not are deferred. */
  ghost predicate KnowsDeferred(s: State, ops: set<Op>) {
    forall d :: (d in s.deferred <==> RemovedWith(ops, d) && !Leq(d, s.clock)) &&
                (d in s.deferred ==> forall m :: m in s.deferred[d] <==> RemovesWith(ops, d, m))
  }

  ghost predicate Knows(s: State, ops: set<Op>) {
    WellFormed(s) && KnowsClock(s, ops) && KnowsDots(s, ops) && KnowsDeferred(s, ops)
  }

  ghost predicate ProperOp(op: Op) {
    op.Rm? ==> Proper(op.seen)
  }

  /** `op` is a repetition, a removal, or an addition later than the actor's additions in `ops`. */
  ghost predicate InActorOrder(ops: set<Op>, op: Op) {
    op in ops || (op.Add? ==> forall v: nat :: Witnessed(ops, op.actor, v) ==> v < op.counter)
  }

  lemma KnowsNothing()
    ensures Knows(INITIAL, {})
  {
  }

  // ---- what one more operation adds to the facts about `ops` ----

  lemma OneMoreDot(ops: set<Op>, op: Op, a: Actor, v: nat)
    ensures Witnessed(ops + {op}, a, v) <==> Witnessed(ops, a, v) || (op.Add? && a == op.actor && v == op.counter)
  {
    assert op in ops + {op};
  }

  lemma OneMoreMember(ops: set<Op>, op: Op, m: Member, a: Actor, v: nat)
    ensures Adds(ops + {op}, m, a, v) <==>
            Adds(ops, m, a, v) || (op.Add? && a == op.actor && v == op.counter && m in op.added)
    ensures Removes(ops + {op}, m, a, v) <==>
            Removes(ops, m, a, v) || (op.Rm? && m in op.removed && a in op.seen && op.seen[a] >= v)
  {
    assert op in ops + {op};
  }

  lemma OneMoreDeferred(ops: set<Op>, op: Op, d: Clock)
    ensures RemovedWith(ops + {op}, d) <==> RemovedWith(ops, d) || (op.Rm? && op.seen == d)
    ensures forall m :: RemovesWith(ops + {op}, d, m) <==>
                        RemovesWith(ops, d, m) || (op.Rm? && op.seen == d && m in op.removed)
  {
    assert op in ops + {op};
  }

  // ---- delivering a removal ----

  lemma RmStep(s: State, ops: set<Op>, op: Op)
    requires Knows(s, ops) && op.Rm? && ProperOp(op)
    ensures Knows(OpApplied(s, op), ops + {op})
  {
    var r, ops' := OpApplied(s, op), ops + {op};
    RmKeepsWellFormed(s, ToSet(op.removed), op.seen);
    forall a ensures (Get(r.clock, a) > 0 ==> Witnessed(ops', a, Get(r.clock, a))) &&
                     (forall v: nat :: Witnessed(ops', a, v) ==> v <= Get(r.clock, a)) {
      forall v: nat { OneMoreDot(ops, op, a, v); }
    }
    forall m, a, v: nat | v > 0
      ensures Dot(r, m, a) == v <==> LastAdd(ops', m, a, v) && !Removes(ops', m, a, v)
    {
      RmStepDots(s, ops, op, m, a, v);
    }
    forall d ensures d in r.deferred <==> RemovedWith(ops', d) && !Leq(d, r.clock)
             ensures d in r.deferred ==> forall m :: m in r.deferred[d] <==> RemovesWith(ops', d, m) {
      RmStepDeferred(s, ops, op, d);
    }
  }

  lemma RmStepDots(s: State, ops: set<Op>, op: Op, m: Member, a: Actor, v: nat)
    requires Knows(s, ops) && op.Rm? && ProperOp(op) && v > 0
    ensures Dot(OpApplied(s, op), m, a) == v <==> LastAdd(ops + {op}, m, a, v) && !Removes(ops + {op}, m, a, v)
  {
    RmByDot(s, ToSet(op.removed), op.seen);
    hide RmApplied, WellFormed, KnowsDeferred, KnowsClock, Dot, Adds, Removes;
    OneMoreMember(ops, op, m, a, v);
    forall u: nat { OneMoreMember(ops, op, m, a, u); }
    assert Dot(s, m, a) == v <==> LastAdd(ops, m, a, v) && !Removes(ops, m, a, v);
  }

  lemma RmStepDeferred(s: State, ops: set<Op>, op: Op, d: Clock)
    requires Knows(s, ops) && op.Rm? && ProperOp(op)
    ensures var r := OpApplied(s, op);
            (d in r.deferred <==> RemovedWith(ops + {op}, d) && !Leq(d, r.clock)) &&
            (d in r.deferred ==> forall m :: m in r.deferred[d] <==> RemovesWith(ops + {op}, d, m))
  {
    var r := OpApplied(s, op);
    assert r.clock == s.clock;
    RmDefers(s, ToSet(op.removed), op.seen, d);
    OneMoreDeferred(ops, op, d);
    hide RmApplied, KnowsDots, KnowsClock, RemovedWith;
    if d in r.deferred && d !in s.deferred {
      assert !RemovedWith(ops, d);
      NothingRemovedWith(ops, d);
    }
  }

  lemma NothingRemovedWith(ops: set<Op>, d: Clock)
    requires !RemovedWith(ops, d)
    ensures forall m :: !RemovesWith(ops, d, m)
  {
  }

  // ---- delivering an addition ----

  lemma AddStep(s: State, ops: set<Op>, op: Op)
    requires Knows(s, ops) && op.Add? && InActorOrder(ops, op)
    ensures Knows(OpApplied(s, op), ops + {op})
  {
    if op in ops {
      AddAgain(s, ops, op);
    } else {
      AddKeepsWellFormed(s, op.actor, op.counter, ToSet(op.added));
      AddStepClock(s, ops, op);
      AddStepKnowsDots(s, ops, op);
      AddStepKnowsDeferred(s, ops, op);
      hide KnowsClock, WellFormed, KnowsDots, KnowsDeferred;
    }
  }

  lemma AddStepKnowsDots(s: State, ops: set<Op>, op: Op)
    requires Knows(s, ops) && op.Add? && InActorOrder(ops, op) && op !in ops
    ensures KnowsDots(OpApplied(s, op), ops + {op})
  {
    hide OpApplied, LastAdd, Removes, Dot, Knows;
    forall m, a, v: nat | v > 0
      ensures Dot(OpApplied(s, op), m, a) == v <==> LastAdd(ops + {op}, m, a, v) && !Removes(ops + {op}, m, a, v)
    {
      AddStepDots(s, ops, op, m, a, v);
    }
  }

  lemma AddStepKnowsDeferred(s: State, ops: set<Op>, op: Op)
    requires Knows(s, ops) && op.Add? && InActorOrder(ops, op) && op !in ops
    ensures KnowsDeferred(OpApplied(s, op), ops + {op})
  {
    hide OpApplied, RemovedWith, RemovesWith, Leq, Knows;
    var r, ops' := OpApplied(s, op), ops + {op};
    forall d ensures d in r.deferred <==> RemovedWith(ops', d) && !Leq(d, r.clock)
             ensures d in r.deferred ==> forall m :: m in r.deferred[d] <==> RemovesWith(ops', d, m) {
      AddStepDeferred(s, ops, op, d);
    }
  }

  lemma AddAgain(s: State, ops: set<Op>, op: Op)
    requires Knows(s, ops) && op.Add? && op in ops
    ensures OpApplied(s, op) == s && ops + {op} == ops
  {
    assert Witnessed(ops, op.actor, op.counter);
  }

  /** A new addition is ahead of the clock, unless it carries the counter 0 and is ignored. */
  lemma NewAddIsAhead(s: State, ops: set<Op>, op: Op)
    requires Knows(s, ops) && op.Add? && InActorOrder(ops, op) && op !in ops && op.counter > 0
    ensures Get(s.clock, op.actor) < op.counter
  {
    assert Get(s.clock, op.actor) > 0 ==> Witnessed(ops, op.actor, Get(s.clock, op.actor));
  }

  lemma AddStepClock(s: State, ops: set<Op>, op: Op)
    requires Knows(s, ops) && op.Add? && InActorOrder(ops, op) && op !in ops
    ensures KnowsClock(OpApplied(s, op), ops + {op})
    ensures OpApplied(s, op).clock == Applied(s.clock, op.actor, op.counter)
  {
    if op.counter > 0 {
      NewAddIsAhead(s, ops, op);
    }
    var r := OpApplied(s, op);
    assert r.clock == Applied(s.clock, op.actor, op.counter);
    hide OpApplied, KnowsDots, KnowsDeferred, WellFormed, Witnessed;
    forall a ensures (Get(r.clock, a) > 0 ==> Witnessed(ops + {op}, a, Get(r.clock, a))) &&
                     (forall v: nat :: Witnessed(ops + {op}, a, v) ==> v <= Get(r.clock, a)) {
      var before := Get(s.clock, a);
      assert Get(r.clock, a) == if a == op.actor && op.counter > before then op.counter else before;
      OneMoreDot(ops, op, a, Get(r.clock, a));
      forall v: nat { OneMoreDot(ops, op, a, v); }
    }
  }

  lemma AddByDot(s: State, op: Op, m: Member, a: Actor)
    requires WellFormed(s) && op.Add? && Get(s.clock, op.actor) < op.counter
    ensures Dot(OpApplied(s, op), m, a) ==
            if m in op.added && a == op.actor then
              if Covered(s.deferred, m, a, op.counter) then 0 else op.counter
            else Dot(s, m, a)
  {
    var members := ToSet(op.added);
    var t := s.(clock := Applied(s.clock, op.actor, op.counter),
                entries := Marked(s.entries, members, op.actor, op.counter));
    MarkedByDot(s, op.actor, op.counter, members);
    DeferredAppliedByDot(t);
    hide Marked, DeferredApplied;
    if Dot(s, m, a) == 0 {
      assert Dot(t, m, a) == 0 || (m in op.added && a == op.actor);
    }
  }

  lemma AddStepDots(s: State, ops: set<Op>, op: Op, m: Member, a: Actor, v: nat)
    requires Knows(s, ops) && op.Add? && InActorOrder(ops, op) && op !in ops && v > 0
    ensures Dot(OpApplied(s, op), m, a) == v <==> LastAdd(ops + {op}, m, a, v) && !Removes(ops + {op}, m, a, v)
  {
    if op.counter > 0 {
      NewAddIsAhead(s, ops, op);
      AddByDot(s, op, m, a);
      FutureRemovals(s, ops, m, a, op.counter);
    } else {
      assert OpApplied(s, op) == s;
    }
    hide OpApplied, WellFormed, KnowsDeferred, KnowsClock, Dot, Adds, Removes, Covered;
    OneMoreMember(ops, op, m, a, v);
    forall u: nat { OneMoreMember(ops, op, m, a, u); }
    forall u: nat | Adds(ops, m, op.actor, u) ensures u < op.counter {
      AddsIsWitnessed(ops, m, op.actor, u);
    }
    assert Dot(s, m, a) == v <==> LastAdd(ops, m, a, v) && !Removes(ops, m, a, v);
  }

  lemma AddsIsWitnessed(ops: set<Op>, m: Member, a: Actor, v: nat)
    requires Adds(ops, m, a, v)
    ensures Witnessed(ops, a, v)
  {
  }

  /** The removals that cover a dot the replica has not seen are exactly its deferred ones. */
  lemma FutureRemovals(s: State, ops: set<Op>, m: Member, a: Actor, v: nat)
    requires Knows(s, ops)
    ensures Covered(s.deferred, m, a, v) ==> Removes(ops, m, a, v)
    ensures Removes(ops, m, a, v) && Get(s.clock, a) < v ==> Covered(s.deferred, m, a, v)
  {
    if Covered(s.deferred, m, a, v) {
      var d :| d in s.deferred && m in s.deferred[d] && a in d && d[a] >= v;
      assert RemovesWith(ops, d, m);
    }
    if Removes(ops, m, a, v) && Get(s.clock, a) < v {
      var op :| op in ops && op.Rm? && m in op.removed && a in op.seen && op.seen[a] >= v;
      assert RemovedWith(ops, op.seen) && RemovesWith(ops, op.seen, m);
    }
  }

  lemma AddStepDeferred(s: State, ops: set<Op>, op: Op, d: Clock)
    requires Knows(s, ops) && op.Add? && InActorOrder(ops, op) && op !in ops
    ensures var r := OpApplied(s, op);
            (d in r.deferred <==> RemovedWith(ops + {op}, d) && !Leq(d, r.clock)) &&
            (d in r.deferred ==> forall m :: m in r.deferred[d] <==> RemovesWith(ops + {op}, d, m))
  {
    OneMoreDeferred(ops, op, d);
    if op.counter > 0 {
      NewAddIsAhead(s, ops, op);
      AddDefers(s, op, d);
      if Leq(d, s.clock) {
        LeqTransitive(d, s.clock, Applied(s.clock, op.actor, op.counter));
      }
    }
    hide KnowsDots, KnowsClock, RemovedWith, RemovesWith, AddApplied, Applied;
  }

  lemma AddDefers(s: State, op: Op, d: Clock)
    requires WellFormed(s) && op.Add? && Get(s.clock, op.actor) < op.counter
    ensures var r := OpApplied(s, op);
            r.clock == Applied(s.clock, op.actor, op.counter) &&
            (d in r.deferred <==> d in s.deferred && !Leq(d, r.clock)) &&
            (d in r.deferred ==> r.deferred[d] == s.deferred[d])
  {
    var t := s.(clock := Applied(s.clock, op.actor, op.counter),
                entries := Marked(s.entries, ToSet(op.added), op.actor, op.counter));
    DeferredAppliedKeeps(t, d);
  }

  lemma Step(s: State, ops: set<Op>, op: Op)
    requires Knows(s, ops) && ProperOp(op) && InActorOrder(ops, op)
    ensures Knows(OpApplied(s, op), ops + {op})
  {
    if op.Add? {
      AddStep(s, ops, op);
    } else {
      RmStep(s, ops, op);
    }
  }

  /** `Knows` leaves no freedom. */
  lemma KnowledgeIsUnique(s: State, t: State, ops: set<Op>)
    requires Knows(s, ops) && Knows(t, ops)
    ensures s == t
  {
    forall a ensures Get(s.clock, a) == Get(t.clock, a) {
    }
    Extensional(s.clock, t.clock);
    forall m, a ensures Dot(s, m, a) == Dot(t, m, a) {
      var v, u := Dot(s, m, a), Dot(t, m, a);
      assert v > 0 ==> LastAdd(ops, m, a, v) && !Removes(ops, m, a, v);
      assert u > 0 ==> LastAdd(ops, m, a, u) && !Removes(ops, m, a, u);
    }
    SameDots(s, t);
    forall d ensures d in s.deferred <==> d in t.deferred
             ensures At(s.deferred, d) == At(t.deferred, d) {
      if d in s.deferred {
        forall m ensures m in s.deferred[d] <==> m in t.deferred[d] {
          assert m in s.deferred[d] <==> RemovesWith(ops, d, m);
        }
      }
    }
    Same(s.deferred, t.deferred);
  }

  // ---- deliveries only ----

  function Delivered(run: seq<Op>): State {
    if run == [] then INITIAL
    else OpApplied(Delivered(run[..|run| - 1]), run[|run| - 1])
  }

  function OpsOf(run: seq<Op>): set<Op> {
    set op | op in run
  }

  ghost predicate DeliverableRun(run: seq<Op>) {
    forall i :: 0 <= i < |run| ==> ProperOp(run[i]) && InActorOrder(OpsOf(run[..i]), run[i])
  }

  lemma LastDelivery(run: seq<Op>)
    requires DeliverableRun(run) && run != []
    ensures var before := run[..|run| - 1];
            DeliverableRun(before) && OpsOf(run) == OpsOf(before) + {run[|run| - 1]} &&
            ProperOp(run[|run| - 1]) && InActorOrder(OpsOf(before), run[|run| - 1])
  {
    hide ProperOp, InActorOrder;
    var before := run[..|run| - 1];
    assert run == before + [run[|run| - 1]];
    forall i | 0 <= i < |before| ensures ProperOp(before[i]) && InActorOrder(OpsOf(before[..i]), before[i]) {
      assert before[..i] == run[..i];
      assert ProperOp(run[i]) && InActorOrder(OpsOf(run[..i]), run[i]);
    }
  }

  lemma {:induction false} RunKnowsItsOps(run: seq<Op>)
    requires DeliverableRun(run)
    ensures Knows(Delivered(run), OpsOf(run))
  {
    if run == [] {
      KnowsNothing();
    } else {
      hide Knows, ProperOp, InActorOrder, OpApplied, DeliverableRun, OpsOf;
      var before := run[..|run| - 1];
      LastDelivery(run);
      RunKnowsItsOps(before);
      Step(Delivered(before), OpsOf(before), run[|run| - 1]);
    }
  }

  /** Two deliveries of the same operations that keep each actor's additions in order, whatever
      they repeat and however they interleave removals, end in the same state. */
  lemma DeliveriesConverge(run: seq<Op>, run': seq<Op>)
    requires DeliverableRun(run) && DeliverableRun(run')
    requires OpsOf(run) == OpsOf(run')
    ensures Delivered(run) == Delivered(run')
  {
    RunKnowsItsOps(run);
    RunKnowsItsOps(run');
    KnowledgeIsUnique(Delivered(run), Delivered(run'), OpsOf(run));
  }

  // ---- merging what two replicas know ----

  /** Of the additions of an actor that either set has, each set has those up to some counter. */
  ghost predicate SharedHistory(ops: set<Op>, ops': set<Op>) {
    forall op, op' :: op in ops && op' in ops' && op.Add? && op'.Add? && op.actor == op'.actor ==>
      (op'.counter <= op.counter ==> op' in ops) && (op.counter <= op'.counter ==> op in ops')
  }

  lemma Union(ops: set<Op>, ops': set<Op>, m: Member, a: Actor, v: nat)
    ensures Adds(ops + ops', m, a, v) <==> Adds(ops, m, a, v) || Adds(ops', m, a, v)
    ensures Removes(ops + ops', m, a, v) <==> Removes(ops, m, a, v) || Removes(ops', m, a, v)
  {
    assert forall op :: op in ops || op in ops' ==> op in ops + ops';
  }

  /** An addition that one side knows and the other has caught up with is known to both. */
  lemma CaughtUp(s: State, ops: set<Op>, ops': set<Op>, m: Member, a: Actor, v: nat)
    requires Knows(s, ops) && SharedHistory(ops, ops') && v > 0
    requires Adds(ops', m, a, v) && v <= Get(s.clock, a)
    ensures Adds(ops, m, a, v)
  {
    var op' :| op' in ops' && op'.Add? && op'.actor == a && op'.counter == v && m in op'.added;
    assert Witnessed(ops, a, Get(s.clock, a));
    var op :| op in ops && op.Add? && op.actor == a && op.counter == Get(s.clock, a);
  }

  lemma SharedHistorySymmetric(ops: set<Op>, ops': set<Op>)
    requires SharedHistory(ops, ops')
    ensures SharedHistory(ops', ops)
  {
  }

  /** What a replica holds of (m, a) when someone else's addition (a, v) may be the last one. */
  lemma LastAddOfUnion(s: State, ops: set<Op>, ops': set<Op>, m: Member, a: Actor, v: nat)
    requires Knows(s, ops) && SharedHistory(ops, ops') && v > 0
    requires LastAdd(ops + ops', m, a, v) && !Removes(ops + ops', m, a, v)
    ensures Dot(s, m, a) == v || Get(s.clock, a) < v
    ensures Adds(ops, m, a, v) ==> Dot(s, m, a) == v
  {
    hide Adds, Removes, Dot, WellFormed, KnowsDeferred, SharedHistory;
    Union(ops, ops', m, a, v);
    forall u: nat { Union(ops, ops', m, a, u); }
    if Get(s.clock, a) >= v && !Adds(ops, m, a, v) {
      CaughtUp(s, ops, ops', m, a, v);
    }
    if Adds(ops, m, a, v) {
      assert LastAdd(ops, m, a, v);
    }
  }

  lemma MergeKnowsDots(x: State, ops: set<Op>, y: State, ops': set<Op>, m: Member, a: Actor, v: nat)
    requires Knows(x, ops) && Knows(y, ops') && SharedHistory(ops, ops') && v > 0
    ensures Dot(Merged(x, y), m, a) == v <==> LastAdd(ops + ops', m, a, v) && !Removes(ops + ops', m, a, v)
  {
    SharedHistorySymmetric(ops, ops');
    MergedDot(x, y, m, a, v);
    Union(ops, ops', m, a, v);
    FutureRemovals(x, ops, m, a, v);
    FutureRemovals(y, ops', m, a, v);
    assert ops + ops' == ops' + ops;
    if LastAdd(ops + ops', m, a, v) && !Removes(ops + ops', m, a, v) {
      LastAddOfUnion(x, ops, ops', m, a, v);
      LastAddOfUnion(y, ops', ops, m, a, v);
    }
    if SurvivesBoth(x, y, m, a, v) {
      SurvivorIsLast(x, ops, y, ops', m, a, v);
    }
  }

  lemma SurvivorIsLast(x: State, ops: set<Op>, y: State, ops': set<Op>, m: Member, a: Actor, v: nat)
    requires Knows(x, ops) && Knows(y, ops') && SharedHistory(ops, ops') && v > 0
    requires SurvivesBoth(x, y, m, a, v)
    ensures LastAdd(ops + ops', m, a, v) && !Removes(ops + ops', m, a, v)
  {
    NotRemoved(x, ops, m, a, v);
    NotRemoved(y, ops', m, a, v);
    hide Adds, Removes, Dot, WellFormed, KnowsDeferred, Covered, SharedHistory;
    Union(ops, ops', m, a, v);
    forall u: nat | Adds(ops + ops', m, a, u) ensures u <= v {
      Union(ops, ops', m, a, u);
      if Adds(ops, m, a, u) { AddsUpTo(x, ops, m, a, u, v); }
      if Adds(ops', m, a, u) { AddsUpTo(y, ops', m, a, u, v); }
    }
    assert Dot(x, m, a) == v ==> LastAdd(ops, m, a, v);
    assert Dot(y, m, a) == v ==> LastAdd(ops', m, a, v);
  }

  lemma NotRemoved(s: State, ops: set<Op>, m: Member, a: Actor, v: nat)
    requires Knows(s, ops) && v > 0
    requires Dot(s, m, a) == v || Get(s.clock, a) < v
    requires !Covered(s.deferred, m, a, v)
    ensures !Removes(ops, m, a, v)
  {
    FutureRemovals(s, ops, m, a, v);
    assert Dot(s, m, a) == v ==> !Removes(ops, m, a, v);
  }

  lemma AddsUpTo(s: State, ops: set<Op>, m: Member, a: Actor, u: nat, v: nat)
    requires Knows(s, ops) && v > 0 && Adds(ops, m, a, u)
    requires Dot(s, m, a) == v || Get(s.clock, a) < v
    ensures u <= v
  {
    AddsIsWitnessed(ops, m, a, u);
    assert u <= Get(s.clock, a);
    assert Dot(s, m, a) == v ==> LastAdd(ops, m, a, v);
  }

  lemma UnionWitnessed(ops: set<Op>, ops': set<Op>, a: Actor, v: nat)
    ensures Witnessed(ops + ops', a, v) <==> Witnessed(ops, a, v) || Witnessed(ops', a, v)
  {
    assert forall op :: op in ops || op in ops' ==> op in ops + ops';
  }

  lemma MergeKnowsClock(x: State, ops: set<Op>, y: State, ops': set<Op>)
    requires Knows(x, ops) && Knows(y, ops')
    ensures KnowsClock(Merged(x, y), ops + ops')
  {
    MergedDeferred(x, y, map[]);
    OperationsByDot(x.clock, y.clock);
    hide *;
    JoinKnowsClock(x, ops, y, ops', Merged(x, y));
  }

  lemma JoinKnowsClock(x: State, ops: set<Op>, y: State, ops': set<Op>, r: State)
    requires KnowsClock(x, ops) && KnowsClock(y, ops')
    requires forall a :: Get(r.clock, a) ==
                         if Get(x.clock, a) >= Get(y.clock, a) then Get(x.clock, a) else Get(y.clock, a)
    ensures KnowsClock(r, ops + ops')
  {
    hide Get, Witnessed;
    forall a ensures (Get(r.clock, a) > 0 ==> Witnessed(ops + ops', a, Get(r.clock, a))) &&
                     (forall v: nat :: Witnessed(ops + ops', a, v) ==> v <= Get(r.clock, a)) {
      UnionWitnessed(ops, ops', a, Get(r.clock, a));
      forall v: nat { UnionWitnessed(ops, ops', a, v); }
    }
  }

  lemma UnionDeferred(ops: set<Op>, ops': set<Op>, d: Clock)
    ensures RemovedWith(ops + ops', d) <==> RemovedWith(ops, d) || RemovedWith(ops', d)
    ensures forall m :: RemovesWith(ops + ops', d, m) <==> RemovesWith(ops, d, m) || RemovesWith(ops', d, m)
    ensures !RemovedWith(ops, d) ==> forall m :: !RemovesWith(ops, d, m)
    ensures !RemovedWith(ops', d) ==> forall m :: !RemovesWith(ops', d, m)
  {
    assert forall op :: op in ops || op in ops' ==> op in ops + ops';
  }

  lemma MergeKnowsDeferred(x: State, ops: set<Op>, y: State, ops': set<Op>, d: Clock)
    requires Knows(x, ops) && Knows(y, ops')
    ensures var r := Merged(x, y);
            (d in r.deferred <==> RemovedWith(ops + ops', d) && !Leq(d, r.clock)) &&
            (d in r.deferred ==> forall m :: m in r.deferred[d] <==> RemovesWith(ops + ops', d, m))
  {
    MergedDeferred(x, y, d);
    UnionDeferred(ops, ops', d);
    var r := Merged(x, y);
    JoinedIsLeastUpperBound(x.clock, y.clock, r.clock);
    if Leq(d, x.clock) { LeqTransitive(d, x.clock, r.clock); }
    if Leq(d, y.clock) { LeqTransitive(d, y.clock, r.clock); }
    hide Merged, KnowsDots, KnowsClock, RemovedWith, RemovesWith, Leq, WellFormed;
  }

  /** Merging replicas is delivering the union of what they were delivered. */
  lemma MergeKnowsUnion(x: State, ops: set<Op>, y: State, ops': set<Op>)
    requires Knows(x, ops) && Knows(y, ops') && SharedHistory(ops, ops')
    ensures Knows(Merged(x, y), ops + ops')
  {
    MergedWellFormed(x, y);
    MergeKnowsClock(x, ops, y, ops');
    MergeKnowsAllDots(x, ops, y, ops');
    MergeKnowsAllDeferred(x, ops, y, ops');
    hide Merged, WellFormed, KnowsDots, KnowsDeferred, KnowsClock;
  }

  lemma MergeKnowsAllDots(x: State, ops: set<Op>, y: State, ops': set<Op>)
    requires Knows(x, ops) && Knows(y, ops') && SharedHistory(ops, ops')
    ensures KnowsDots(Merged(x, y), ops + ops')
  {
    hide Merged, LastAdd, Removes, Dot, Knows;
    forall m, a, v: nat | v > 0
      ensures Dot(Merged(x, y), m, a) == v <==> LastAdd(ops + ops', m, a, v) && !Removes(ops + ops', m, a, v)
    {
      MergeKnowsDots(x, ops, y, ops', m, a, v);
    }
  }

  lemma MergeKnowsAllDeferred(x: State, ops: set<Op>, y: State, ops': set<Op>)
    requires Knows(x, ops) && Knows(y, ops')
    ensures KnowsDeferred(Merged(x, y), ops + ops')
  {
    hide Merged, RemovedWith, RemovesWith, Leq, Knows;
    var r := Merged(x, y);
    forall d ensures d in r.deferred <==> RemovedWith(ops + ops', d) && !Leq(d, r.clock)
             ensures d in r.deferred ==> forall m :: m in r.deferred[d] <==> RemovesWith(ops + ops', d, m) {
      MergeKnowsDeferred(x, ops, y, ops', d);
    }
  }

  /** Merging is delivering: the merge of what two runs reach is what any run over all their
      operations reaches. */
  lemma MergeIsDelivery(run: seq<Op>, run': seq<Op>, all: seq<Op>)
    requires DeliverableRun(run) && DeliverableRun(run') && DeliverableRun(all)
    requires SharedHistory(OpsOf(run), OpsOf(run'))
    requires OpsOf(all) == OpsOf(run) + OpsOf(run')
    ensures Merged(Delivered(run), Delivered(run')) == Delivered(all)
  {
    RunKnowsItsOps(run);
    RunKnowsItsOps(run');
    RunKnowsItsOps(all);
    MergeKnowsUnion(Delivered(run), OpsOf(run), Delivered(run'), OpsOf(run'));
    KnowledgeIsUnique(Merged(Delivered(run), Delivered(run')), Delivered(all), OpsOf(all));
  }

  // ---- deliveries and merges in any mixture ----

  datatype History = Start | Deliver(past: History, op: Op) | Absorb(past: History, other: History)

  function Replay(h: History): State {
    match h
    case Start => INITIAL
    case Deliver(past, op) => OpApplied(Replay(past), op)
    case Absorb(past, other) => Merged(Replay(past), Replay(other))
  }

  function Known(h: History): set<Op> {
    match h
    case Start => {}
    case Deliver(past, op) => Known(past) + {op}
    case Absorb(past, other) => Known(past) + Known(other)
  }

  /** The operations ever issued: an actor spends each of its counters, from 1 on, once. */
  ghost predicate ValidLog(log: set<Op>) {
    (forall op :: op in log ==> ProperOp(op)) &&
    (forall op, op' ::
       op in log && op' in log && op.Add? && op'.Add? && op.actor == op'.actor && op.counter == op'.counter ==>
         op == op')
  }

  /** Everything the actor of `op` added earlier is in `ops`. */
  ghost predicate HasEarlier(ops: set<Op>, op: Op, log: set<Op>) {
    op.Add? ==> forall op' :: op' in log && op'.Add? && op'.actor == op.actor && op'.counter < op.counter ==> op' in ops
  }

  ghost predicate ValidHistory(h: History, log: set<Op>) {
    match h
    case Start => true
    case Deliver(past, op) => ValidHistory(past, log) && op in log && HasEarlier(Known(past), op, log)
    case Absorb(past, other) => ValidHistory(past, log) && ValidHistory(other, log)
  }

  lemma {:induction false} HistoryHasEarlier(h: History, log: set<Op>)
    requires ValidHistory(h, log)
    ensures Known(h) <= log
    ensures forall op :: op in Known(h) ==> HasEarlier(Known(h), op, log)
  {
    match h
    case Start =>
    case Deliver(past, op) =>
      HistoryHasEarlier(past, log);
    case Absorb(past, other) =>
      HistoryHasEarlier(past, log);
      HistoryHasEarlier(other, log);
  }

  lemma {:induction false} HistoryKnows(h: History, log: set<Op>)
    requires ValidLog(log) && ValidHistory(h, log)
    ensures Knows(Replay(h), Known(h))
  {
    match h
    case Start =>
      KnowsNothing();
    case Deliver(past, op) =>
      HistoryHasEarlier(past, log);
      HistoryKnows(past, log);
      DeliverableToPast(past, op, log);
      Step(Replay(past), Known(past), op);
    case Absorb(past, other) =>
      HistoryHasEarlier(past, log);
      HistoryHasEarlier(other, log);
      HistoryKnows(past, log);
      HistoryKnows(other, log);
      HistoriesShare(Known(past), Known(other), log);
      MergeKnowsUnion(Replay(past), Known(past), Replay(other), Known(other));
  }

  lemma HistoriesShare(ops: set<Op>, ops': set<Op>, log: set<Op>)
    requires ValidLog(log) && ops <= log && ops' <= log
    requires forall op :: op in ops ==> HasEarlier(ops, op, log)
    requires forall op :: op in ops' ==> HasEarlier(ops', op, log)
    ensures SharedHistory(ops, ops')
  {
  }

  lemma DeliverableToPast(past: History, op: Op, log: set<Op>)
    requires ValidLog(log) && ValidHistory(past, log) && op in log
    requires Known(past) <= log && forall op' :: op' in Known(past) ==> HasEarlier(Known(past), op', log)
    ensures InActorOrder(Known(past), op)
  {
    var ops := Known(past);
    if op !in ops && op.Add? {
      forall v: nat | Witnessed(ops, op.actor, v) ensures v < op.counter {
        var op' :| op' in ops && op'.Add? && op'.actor == op.actor && op'.counter == v;
        assert HasEarlier(ops, op', log);
      }
    }
  }

  /** Strong eventual consistency: replicas that know the same operations are equal, however
      deliveries, repetitions and merges brought them there. */
  lemma ReplicasConverge(h: History, h': History, log: set<Op>)
    requires ValidLog(log) && ValidHistory(h, log) && ValidHistory(h', log)
    requires Known(h) == Known(h')
    ensures Replay(h) == Replay(h')
  {
    HistoryKnows(h, log);
    HistoryKnows(h', log);
    KnowledgeIsUnique(Replay(h), Replay(h'), Known(h));
  }
}
