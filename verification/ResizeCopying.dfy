/** Each step of the copying loop keeps the invariant (src/chashmap/map.rs). */
module ResizeCopying {
  import opened Options
  import opened Bits
  import opened ResizeModel
  import opened ResizeInvariant
  import opened ResizeSteps

  // ---- what a copier does ----

  /** The thread is in the copying loop, and its step leaves the control word and the tables. */
  ghost predicate Copies(m: Memory, th: Thread, c: Choice) {
    th.pc.Copy? && Step(m, th, c).Next? && !SweptOut(m, th.pc) && !(th.pc.at.Leave? && m.ctl == th.pc.at.ctl)
  }

  /** The thread goes to another point of the loop and changes nothing but the shared index. */
  ghost predicate Wanders(m: Memory, th: Thread, c: Choice) {
    var o := Step(m, th, c);
    Copies(m, th, c) && Alike(m, o.mem) && !Holding(o.thread.pc)
  }

  /** A thread that wanders goes on to a place in the loop that is right for it. */
  ghost predicate WandersOn(m: Memory, th: Thread, c: Choice) {
    var o := Step(m, th, c);
    o.Next? && o.thread.job == th.job && o.thread.pc.Copy? && SameDuty(th.pc, o.thread.pc) &&
      (CopyOk(m, o.thread.pc) || StrayOk(m, o.thread.pc))
  }

  lemma WanderLoop(m: Memory, th: Thread, c: Choice)
    requires Wanders(m, th, c) && CopyOk(m, th.pc) && TablesOk(m) &&
             (th.pc.at.Advance? || th.pc.at.Claim? || th.pc.at.Leave?)
    ensures WandersOn(m, th, c)
  {
    hide ExponentOf, Helpers, Placed, Untouched, LockOk, Part, ToBin, Effect, StepJob, StepIdle, StepBegin, NoneMoved,
      StrayOk;
    SizeOfTop(m);
  }

  lemma WanderDecide(m: Memory, th: Thread, c: Choice)
    requires Wanders(m, th, c) && CopyOk(m, th.pc) && TablesOk(m) && th.pc.at.Decide?
    ensures WandersOn(m, th, c)
  {
    hide ExponentOf, Helpers, Placed, Untouched, LockOk, Part, ToBin, Effect, StepJob, StepIdle, StepBegin, NoneMoved,
      StrayOk;
    SizeOfTop(m);
  }

  lemma WanderBin(m: Memory, th: Thread, c: Choice)
    requires Wanders(m, th, c) && CopyOk(m, th.pc) && TablesOk(m)
    requires !(th.pc.at.Advance? || th.pc.at.Claim? || th.pc.at.Leave? || th.pc.at.Decide?)
    ensures WandersOn(m, th, c)
  {
    hide ExponentOf, Helpers, Placed, Untouched, LockOk, Part, ToBin, Effect, StepJob, StepIdle, StepBegin, NoneMoved,
      StrayOk;
    SizeOfTop(m);
  }

  /** A stray finds every bin moved, and wanders through its table. */
  lemma StrayWanders(m: Memory, th: Thread, c: Choice)
    requires Wanders(m, th, c) && th.pc.Copy? && StrayOk(m, th.pc) && TablesOk(m)
    ensures WandersOn(m, th, c)
  {
    hide ExponentOf, Helpers, Placed, UntouchedOk, LocksOk, Part, ToBin, Effect, StepJob, StepIdle, StepBegin, StepMove,
      NoneMoved, CopyOk;
    assert MovedFrom(m, th.pc.tab, 0);
    var tab, i := th.pc.tab, th.pc.i;
    assert 0 <= i < Size(m, tab) ==> BinAt(m, tab, i).Moved?;
    PlacedSize(m, tab);
  }

  lemma WanderStep(s: State, t: nat, c: Choice)
    requires Inv(s) && t in s.threads && Wanders(s.mem, s.threads[t], c)
    ensures var o := Step(s.mem, s.threads[t], c); Inv(After(s, t, o.mem, o.thread))
  {
    hide Step, ExponentOf, Helpers, TablesOk, CopyOk, StrayOk, ControlOk, Alike, Preserves, HeldKept, HoldersDiffer,
      OneStarter;
    var m, th, o := s.mem, s.threads[t], Step(s.mem, s.threads[t], c);
    assert ThreadOk(m, th);
    if !CopyOk(m, th.pc) {
      StrayWanders(m, th, c);
    } else if th.pc.at.Advance? || th.pc.at.Claim? || th.pc.at.Leave? {
      WanderLoop(m, th, c);
    } else if th.pc.at.Decide? {
      WanderDecide(m, th, c);
    } else {
      WanderBin(m, th, c);
    }
    AlikeKeeps(m, o.mem);
    AlikeThread(m, o.mem, o.thread);
    AlikePreserves(m, o.mem);
    StillDiffer(s, t, o.mem, o.thread);
    PreservedStep(s, t, o.mem, o.thread);
  }

  // ---- the table's own pointer to the next ----

  ghost predicate Forwards(m: Memory, th: Thread, c: Choice) {
    Copies(m, th, c) && (th.pc.at.SawNull? || th.pc.at.HighStored?)
  }

  lemma ForwardOutcome(m: Memory, th: Thread, c: Choice)
    requires Forwards(m, th, c)
    ensures Step(m, th, c) == Quiet(m.(forward := m.forward[th.pc.tab := th.pc.next]), th,
                                    th.pc.(at := if th.pc.at.SawNull? then NullForwarded else Forwarded))
  {
  }

  lemma ForwardTables(m: Memory, tab: int)
    requires TablesOk(m) && 0 <= tab == m.top && tab in m.bins && tab + 1 in m.bins
    ensures var m' := m.(forward := m.forward[tab := tab + 1]); TablesOk(m') && Preserves(m, m')
  {
    var m' := m.(forward := m.forward[tab := tab + 1]);
    assert forall k, i :: BinAt(m', k, i) == BinAt(m, k, i);
    assert forall k :: Size(m', k) == Size(m, k);
    assert forall k :: Placed(m, k) ==> Placed(m', k);
    hide Placed, BinAt, Size;
  }

  lemma ForwardStep(s: State, t: nat, c: Choice)
    requires Inv(s) && t in s.threads && Forwards(s.mem, s.threads[t], c)
    ensures var o := Step(s.mem, s.threads[t], c); Inv(After(s, t, o.mem, o.thread))
  {
    hide Step, ExponentOf, Helpers, ControlOk, Preserves, HoldersDiffer, OneStarter, CrewOk, HeldKept, StrayOk, Part,
      ToBin, TablesOk;
    var m, th, o := s.mem, s.threads[t], Step(s.mem, s.threads[t], c);
    assert ThreadOk(m, th);
    NotAstray(m, th.pc);
    ForwardOutcome(m, th, c);
    SizeOfTop(m);
    ForwardTables(m, th.pc.tab);
    assert forall k, i :: BinAt(o.mem, k, i) == BinAt(m, k, i);
    assert forall k :: Size(o.mem, k) == Size(m, k);
    hide BinAt, Size;
    forall u | u in s.threads
      ensures HeldKept(m, o.mem, s.threads[u].pc)
    {
      assert ThreadOk(m, s.threads[u]);
      HeldSame(m, o.mem, s.threads[u].pc);
    }
    SameHold(s, t, o.mem, o.thread);
    PreservedThread(m, o.mem, th);
    ForwardedCopier(o.mem, th.pc);
    PreservedStep(s, t, o.mem, o.thread);
  }

  /** A thread that works on a bin is not astray. */
  lemma NotAstray(m: Memory, pc: Pc)
    requires PcOk(m, pc) && pc.Copy? && !(pc.at.Advance? || pc.at.Claim? || pc.at.Decide? || pc.at.Leave?)
    ensures CopyOk(m, pc)
  {
    hide CopyOk, ExponentOf;
  }

  lemma HeldSame(m: Memory, m': Memory, pc: Pc)
    requires PcOk(m, pc) && m'.locks == m.locks && forall k, i :: BinAt(m', k, i) == BinAt(m, k, i)
    ensures HeldKept(m, m', pc)
  {
    hide ExponentOf, Helpers, BinAt, MovedFrom, Part, ToBin;
  }

  lemma ForwardedCopier(m: Memory, pc: Pc)
    requires pc.Copy? && (CopyOk(m, pc) || StrayOk(m, pc)) && (pc.at.SawNull? || pc.at.HighStored?) &&
             pc.tab in m.forward
    ensures CopyOk(m, pc.(at := if pc.at.SawNull? then NullForwarded else Forwarded))
  {
    hide ExponentOf, Helpers, BinAt, MovedFrom, Part, ToBin;
  }

  /** A thread that goes on holding its bin, or holds none. */
  lemma SameHold(s: State, t: nat, m': Memory, th: Thread)
    requires HoldersDiffer(s) && t in s.threads
    requires Holding(th.pc) ==> Holding(s.threads[t].pc) && th.pc.i == s.threads[t].pc.i
    ensures HoldersDiffer(After(s, t, m', th))
  {
  }

  // ---- marking an empty bin ----

  ghost predicate Marks(m: Memory, th: Thread, c: Choice) {
    Copies(m, th, c) && th.pc.at.NullForwarded? && BinAt(m, th.pc.tab, th.pc.i).Null?
  }

  lemma MarkOutcome(m: Memory, th: Thread, c: Choice)
    requires Marks(m, th, c)
    ensures th.pc.tab in m.bins && 0 <= th.pc.i < |m.bins[th.pc.tab]|
    ensures Step(m, th, c) == Quiet(WithBin(m, th.pc.tab, th.pc.i, Moved), th, th.pc.(at := Advance))
  {
  }

  /** A bin of the current table is marked as moved. */
  lemma MarkTables(m: Memory, i: int)
    requires TablesOk(m) && m.top >= 0 && m.top in m.forward && 0 <= i < Size(m, m.top) && (m.top, i) !in m.locks
    ensures var m' := WithBin(m, m.top, i, Moved);
            TablesOk(m') && Preserves(m, m')
  {
    hide Placed, WithBin, BinAt;
    StillPlaced(m, m.top, i, Moved);
    BinChanges(m, m.top, i, Moved);
    BinKeys(m, m.top, i, Moved);
  }

  /** The sweep goes on below a bin that is marked. */
  lemma MarkedCopier(m: Memory, m': Memory, pc: Pc)
    requires pc.Copy? && CopyOk(m, pc) && Preserves(m, m') && BinAt(m', pc.tab, pc.i).Moved? &&
             0 <= pc.i < Size(m, pc.tab)
    requires !pc.at.Advance? && TablesOk(m)
    ensures CopyOk(m', pc.(at := Advance))
  {
    hide ExponentOf, Helpers, Part, ToBin, BinAt, Placed, MovesOk, UntouchedOk, LocksOk;
    SizeOfTop(m);
  }

  lemma OtherHeld(s: State, t: nat, u: nat, m': Memory)
    requires Inv(s) && t in s.threads && u in s.threads && t != u && s.threads[t].pc.Copy?
    requires var m, pc := s.mem, s.threads[t].pc;
             (forall k, j :: BinAt(m', k, j) == BinAt(m, k, j) || (k == pc.tab && j == pc.i)) &&
             (forall l :: l in m.locks && l != (pc.tab, pc.i) ==> l in m'.locks) &&
             (Holding(pc) || (pc.tab, pc.i) !in m.locks)
    ensures HeldKept(s.mem, m', s.threads[u].pc)
  {
    hide ExponentOf, Helpers, TablesOk, Part, ToBin, BinAt, MovedFrom;
    assert ThreadOk(s.mem, s.threads[t]) && ThreadOk(s.mem, s.threads[u]);
  }

  lemma MarkStep(s: State, t: nat, c: Choice)
    requires Inv(s) && t in s.threads && Marks(s.mem, s.threads[t], c)
    ensures var o := Step(s.mem, s.threads[t], c); Inv(After(s, t, o.mem, o.thread))
  {
    hide Step, ExponentOf, Helpers, ControlOk, Preserves, HoldersDiffer, CrewOk, MovesOk, UntouchedOk, WithBin,
      HeldKept;
    var m, th, o := s.mem, s.threads[t], Step(s.mem, s.threads[t], c);
    assert ThreadOk(m, th);
    MarkOutcome(m, th, c);
    var tab, i := th.pc.tab, th.pc.i;
    assert (tab, i) in m.locks ==> LockOk(m, (tab, i));
    SizeOfTop(m);
    MarkTables(m, i);
    BinChanges(m, tab, i, Moved);
    BinKeys(m, tab, i, Moved);
    forall u | u in s.threads && u != t
      ensures HeldKept(m, o.mem, s.threads[u].pc)
    {
      OtherHeld(s, t, u, o.mem);
    }
    MarkedCopier(m, o.mem, th.pc);
    SameHold(s, t, o.mem, o.thread);
    JobPreserved(m, o.mem, th.job);
    PreservedStep(s, t, o.mem, o.thread);
  }

  lemma JobPreserved(m: Memory, m': Memory, job: Option<Job>)
    requires Preserves(m, m') && JobOk(m, job)
    ensures JobOk(m', job)
  {
  }

  // ---- locking a full bin ----

  ghost predicate Locks(m: Memory, th: Thread, c: Choice) {
    Copies(m, th, c) && th.pc.at.SawFull? && !c.Stop?
  }

  lemma LockOutcome(m: Memory, th: Thread, c: Choice)
    requires Locks(m, th, c)
    ensures var l := (th.pc.tab, th.pc.i);
            l !in m.locks && BinAt(m, l.0, l.1).Full? && Step(m, th, c) ==
              Quiet(m.(locks := m.locks + {l}), th, th.pc.(at := Locked))
  {
  }

  lemma LockTables(m: Memory, l: (int, int))
    requires TablesOk(m) && l.0 == m.top && BinAt(m, m.top, l.1).Full?
    ensures var m' := m.(locks := m.locks + {l}); TablesOk(m') && Preserves(m, m')
  {
    var m' := m.(locks := m.locks + {l});
    assert forall k, i :: BinAt(m', k, i) == BinAt(m, k, i);
    assert forall k :: Size(m', k) == Size(m, k);
    assert forall k :: Placed(m, k) ==> Placed(m', k);
    hide Placed, BinAt, Size;
  }

  /** Two threads that hold the same bin would both have its lock. */
  lemma FreshHold(s: State, t: nat, m': Memory, th: Thread)
    requires Inv(s) && t in s.threads && th.pc.Copy? && (s.mem.top, th.pc.i) !in s.mem.locks
    ensures HoldersDiffer(After(s, t, m', th))
  {
    hide ExponentOf, Helpers, TablesOk, ControlOk, Part, ToBin, MovedFrom;
    forall u | u in s.threads && u != t && Holding(s.threads[u].pc)
      ensures s.threads[u].pc.i != th.pc.i
    {
      assert ThreadOk(s.mem, s.threads[u]);
    }
  }

  lemma LockStep(s: State, t: nat, c: Choice)
    requires Inv(s) && t in s.threads && Locks(s.mem, s.threads[t], c)
    ensures var o := Step(s.mem, s.threads[t], c); Inv(After(s, t, o.mem, o.thread))
  {
    hide Step, ExponentOf, Helpers, ControlOk, Preserves, HoldersDiffer, CrewOk, TablesOk, HeldKept, Part, ToBin;
    var m, th, o := s.mem, s.threads[t], Step(s.mem, s.threads[t], c);
    assert ThreadOk(m, th);
    LockOutcome(m, th, c);
    LockTables(m, (th.pc.tab, th.pc.i));
    assert forall k, i :: BinAt(o.mem, k, i) == BinAt(m, k, i);
    assert forall k :: Size(o.mem, k) == Size(m, k);
    hide BinAt, Size;
    forall u | u in s.threads && u != t
      ensures HeldKept(m, o.mem, s.threads[u].pc)
    {
      OtherHeld(s, t, u, o.mem);
    }
    FreshHold(s, t, o.mem, o.thread);
    JobPreserved(m, o.mem, th.job);
    PreservedStep(s, t, o.mem, o.thread);
  }

  // ---- storing the halves of a bin ----

  ghost predicate Stores(m: Memory, th: Thread, c: Choice) {
    Copies(m, th, c) && (th.pc.at.Locked? || th.pc.at.LowStored?)
  }

  /** Where the half that is stored now goes. */
  function HalfIndex(pc: Pc): int
    requires pc.Copy? && pc.tab >= 0
  {
    if pc.at.Locked? then pc.i else pc.i + Pow2(pc.tab)
  }

  lemma StoreOutcome(m: Memory, th: Thread, c: Choice)
    requires Stores(m, th, c)
    ensures var pc, high := th.pc, th.pc.at.LowStored?;
            pc.tab >= 0 && pc.next in m.bins && 0 <= HalfIndex(pc) < |m.bins[pc.next]| && 0 <= pc.i < Pow2(pc.tab) &&
            Step(m, th, c) == Quiet(WithBin(m, pc.next, HalfIndex(pc), Share(m, pc.tab, pc.i, high)), th,
                                    pc.(at := if high then HighStored else LowStored))
  {
    hide Part, ToBin;
  }

  /** A half of a bin belongs where it is stored. */
  lemma ShareIsPlaced(m: Memory, tab: nat, i: nat, high: bool)
    requires Placed(m, tab) && i < Pow2(tab)
    ensures forall key <- Entries(Share(m, tab, i, high)) :: BinIndex(key.hash, tab + 1) == i + if high then Pow2(tab)
            else 0
  {
    forall key <- Entries(Share(m, tab, i, high))
      ensures BinIndex(key.hash, tab + 1) == i + if high then Pow2(tab) else 0
    {
      SplitIndex(key.hash, tab);
    }
    hide And, BinIndex;
  }

  lemma StoreTables(m: Memory, i: nat, high: bool)
    requires TablesOk(m) && m.top >= 0 && m.top + 1 in m.bins && (m.top, i) in m.locks && i < Pow2(m.top)
    ensures var j := i + if high then Pow2(m.top) else 0;
            j < Size(m, m.top + 1) &&
            var m' := WithBin(m, m.top + 1, j, Share(m, m.top, i, high)); TablesOk(m') && Preserves(m, m')
  {
    hide Placed, WithBin, BinAt, Part, UntouchedOk, MovesOk, LocksOk, Preserves, Share;
    var j, b := i + if high then Pow2(m.top) else 0, Share(m, m.top, i, high);
    PlacedSize(m, m.top);
    PlacedSize(m, m.top + 1);
    assert Pow2(m.top + 1) == 2 * Pow2(m.top);
    ShareIsPlaced(m, m.top, i, high);
    StillPlaced(m, m.top + 1, j, b);
    BinChanges(m, m.top + 1, j, b);
    BinKeys(m, m.top + 1, j, b);
    ShareIsNotMoved(m, m.top, i, high);
    hide ShapeOk;
    NextBinTables(m, WithBin(m, m.top + 1, j, b), i, j, b);
  }

  lemma ShareIsNotMoved(m: Memory, tab: nat, i: int, high: bool)
    ensures !Share(m, tab, i, high).Moved?
  {
    hide Part;
  }

  /** A bin of the next table may change while the bin that its entries come from is held. */
  lemma NextBinTables(m: Memory, m': Memory, i: nat, j: int, b: Bin)
    requires TablesOk(m) && (m.top, i) in m.locks && !b.Moved? && m' == m.(bins := m'.bins) &&
             m'.bins.Keys == m.bins.Keys
    requires i < Size(m, m.top) && (j == i || j == i + Size(m, m.top)) && j < Size(m, m.top + 1)
    requires forall k, q :: BinAt(m', k, q) == if k == m.top + 1 && q == j then b else BinAt(m, k, q)
    requires forall k :: Size(m', k) == Size(m, k)
    requires forall k :: Placed(m, k) ==> Placed(m', k)
    ensures TablesOk(m') && Preserves(m, m')
  {
    hide Placed, BinAt, Size;
  }

  lemma OtherHalves(s: State, t: nat, u: nat, m': Memory, j: int)
    requires Inv(s) && t in s.threads && u in s.threads && t != u && Holding(s.threads[t].pc)
    requires var m, pc := s.mem, s.threads[t].pc;
             pc.tab >= 0 && (j == pc.i || j == pc.i + Pow2(pc.tab)) && m'.locks == m.locks &&
             (forall k, i :: BinAt(m', k, i) == BinAt(m, k, i) || (k == pc.tab + 1 && i == j))
    ensures HeldKept(s.mem, m', s.threads[u].pc)
  {
    hide ExponentOf, Helpers, TablesOk, Part, ToBin, BinAt, MovedFrom;
    assert ThreadOk(s.mem, s.threads[t]) && ThreadOk(s.mem, s.threads[u]);
  }

  /** The thread has stored one more half. */
  lemma StoredCopier(m: Memory, m': Memory, pc: Pc)
    requires pc.Copy? && CopyOk(m, pc) && (pc.at.Locked? || pc.at.LowStored?) && Preserves(m, m') && m'.locks == m.locks
    requires forall k, i ::
             BinAt(m', k, i) == if k == pc.tab + 1 && i == HalfIndex(pc) then Share(m, pc.tab, pc.i, pc.at.LowStored?)
                                              else BinAt(m, k, i)
    ensures CopyOk(m', pc.(at := if pc.at.LowStored? then HighStored else LowStored))
  {
    hide ExponentOf, Helpers, Part, ToBin, BinAt;
  }

  lemma StoreStep(s: State, t: nat, c: Choice)
    requires Inv(s) && t in s.threads && Stores(s.mem, s.threads[t], c)
    ensures var o := Step(s.mem, s.threads[t], c); Inv(After(s, t, o.mem, o.thread))
  {
    hide Step, ExponentOf, Helpers, ControlOk, Preserves, HoldersDiffer, CrewOk, MovesOk, UntouchedOk, LocksOk, ShapeOk,
      WithBin, HeldKept, Share;
    var m, th, o := s.mem, s.threads[t], Step(s.mem, s.threads[t], c);
    assert ThreadOk(m, th);
    StoreOutcome(m, th, c);
    var tab, j, b := th.pc.tab, HalfIndex(th.pc), Share(m, th.pc.tab, th.pc.i, th.pc.at.LowStored?);
    StoreTables(m, th.pc.i, th.pc.at.LowStored?);
    BinChanges(m, tab + 1, j, b);
    BinKeys(m, tab + 1, j, b);
    StoredCopier(m, o.mem, th.pc);
    hide CopyOk;
    forall u | u in s.threads && u != t
      ensures HeldKept(m, o.mem, s.threads[u].pc)
    {
      OtherHalves(s, t, u, o.mem, j);
    }
    SameHold(s, t, o.mem, o.thread);
    JobPreserved(m, o.mem, th.job);
    PreservedStep(s, t, o.mem, o.thread);
  }

  // ---- sealing a bin ----

  ghost predicate Seals(m: Memory, th: Thread, c: Choice) {
    Copies(m, th, c) && th.pc.at.Forwarded?
  }

  lemma SealOutcome(m: Memory, th: Thread, c: Choice)
    requires Seals(m, th, c)
    ensures th.pc.tab in m.bins && 0 <= th.pc.i < |m.bins[th.pc.tab]|
    ensures Step(m, th, c) == Quiet(WithBin(m.(locks := m.locks - {(th.pc.tab, th.pc.i)}), th.pc.tab, th.pc.i, Moved),
            th, th.pc.(at := Advance))
  {
  }

  lemma SealTables(m: Memory, i: int)
    requires TablesOk(m) && m.top >= 0 && m.top in m.forward && 0 <= i < Size(m, m.top)
    ensures var m' := WithBin(m.(locks := m.locks - {(m.top, i)}), m.top, i, Moved); TablesOk(m') && Preserves(m, m')
  {
    hide Placed, BinAt;
    StillPlaced(m, m.top, i, Moved);
    BinChanges(m, m.top, i, Moved);
    BinKeys(m, m.top, i, Moved);
    var m1, m' := WithBin(m, m.top, i, Moved), WithBin(m.(locks := m.locks - {(m.top, i)}), m.top, i, Moved);
    assert m' == m1.(locks := m.locks - {(m.top, i)});
    hide WithBin;
    SameBins(m1, m');
  }

  lemma SameBins(m: Memory, m': Memory)
    requires m'.bins == m.bins
    ensures forall k, i :: BinAt(m', k, i) == BinAt(m, k, i)
    ensures forall k :: Size(m', k) == Size(m, k)
    ensures forall k :: Placed(m', k) == Placed(m, k)
  {
  }

  lemma SealStep(s: State, t: nat, c: Choice)
    requires Inv(s) && t in s.threads && Seals(s.mem, s.threads[t], c)
    ensures var o := Step(s.mem, s.threads[t], c); Inv(After(s, t, o.mem, o.thread))
  {
    hide Step, ExponentOf, Helpers, ControlOk, Preserves, HoldersDiffer, CrewOk, MovesOk, UntouchedOk, LocksOk,
      HeldKept, Placed;
    var m, th, o := s.mem, s.threads[t], Step(s.mem, s.threads[t], c);
    assert ThreadOk(m, th);
    SealOutcome(m, th, c);
    var tab, i := th.pc.tab, th.pc.i;
    SealTables(m, i);
    BinChanges(m.(locks := m.locks - {(tab, i)}), tab, i, Moved);
    BinKeys(m.(locks := m.locks - {(tab, i)}), tab, i, Moved);
    SameBins(m, m.(locks := m.locks - {(tab, i)}));
    hide WithBin, BinAt, Size;
    forall u | u in s.threads && u != t
      ensures HeldKept(m, o.mem, s.threads[u].pc)
    {
      OtherHeld(s, t, u, o.mem);
    }
    MarkedCopier(m, o.mem, th.pc);
    SameHold(s, t, o.mem, o.thread);
    JobPreserved(m, o.mem, th.job);
    PreservedStep(s, t, o.mem, o.thread);
  }
}
