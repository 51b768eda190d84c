/** Whole runs of the concurrent hash map (src/chashmap/map.rs). */
module ResizeProtocol {
  import opened Options
  import opened Bits
  import opened ResizeModel
  import opened ResizeInvariant
  import opened ResizeSteps
  import opened ResizeCopying

  lemma CopyStep(s: State, t: nat, c: Choice)
    requires Inv(s) && t in s.threads && s.threads[t].pc.Copy? && Step(s.mem, s.threads[t], c).Next?
    ensures var o := Step(s.mem, s.threads[t], c); Inv(After(s, t, o.mem, o.thread))
  {
    var m, th := s.mem, s.threads[t];
    var at := th.pc.at;
    hide Step, Inv;
    if at.Leave? && m.ctl == at.ctl {
      LeaveStep(s, t, c);
    } else if SweptOut(m, th.pc) {
      ClearStep(s, t, c);
    } else if at.SawNull? || at.HighStored? {
      ForwardStep(s, t, c);
    } else if at.NullForwarded? && BinAt(m, th.pc.tab, th.pc.i).Null? {
      MarkStep(s, t, c);
    } else if at.SawFull? && !c.Stop? {
      LockStep(s, t, c);
    } else if at.Locked? || at.LowStored? {
      StoreStep(s, t, c);
    } else if at.Forwarded? {
      SealStep(s, t, c);
    } else {
      OthersWander(s, t, c);
      WanderStep(s, t, c);
    }
  }

  lemma OthersWander(s: State, t: nat, c: Choice)
    requires Inv(s) && t in s.threads && Copies(s.mem, s.threads[t], c)
    requires var at := s.threads[t].pc.at;
             at.Advance? || at.Claim? || at.Decide? || at.Leave? || (at.SawFull? && c.Stop?) ||
             (at.NullForwarded? && !BinAt(s.mem, s.threads[t].pc.tab, s.threads[t].pc.i).Null?)
    ensures Wanders(s.mem, s.threads[t], c)
  {
    hide Step, TablesOk, ControlOk, CrewOk, HoldersDiffer, OneStarter, CopyOk, StrayOk;
    assert ThreadOk(s.mem, s.threads[t]);
    CopierHasTable(s.mem, s.threads[t].pc);
    LoopIsQuiet(s.mem, s.threads[t], c);
  }

  lemma CopierHasTable(m: Memory, pc: Pc)
    requires TablesOk(m) && pc.Copy? && (CopyOk(m, pc) || StrayOk(m, pc))
    ensures pc.tab >= 0 && pc.tab in m.bins && pc.next in m.bins && |m.bins[pc.tab]| == Pow2(pc.tab)
    ensures CopyOk(m, pc) ==> |m.bins[pc.next]| == 2 * Pow2(pc.tab)
    ensures pc.finishing && pc.at.Decide? ==> CopyOk(m, pc) && pc.i < Pow2(pc.tab)
  {
    hide ExponentOf, Helpers, MovesOk, UntouchedOk, LocksOk, Part, ToBin, MovedFrom;
    if CopyOk(m, pc) {
      PlacedSize(m, pc.next);
    }
    PlacedSize(m, pc.tab);
  }

  lemma LoopIsQuiet(m: Memory, th: Thread, c: Choice)
    requires Copies(m, th, c) && th.pc.tab >= 0 && th.pc.next in m.bins
    requires th.pc.finishing && th.pc.at.Decide? ==>
             th.pc.i < Pow2(th.pc.tab) && |m.bins[th.pc.next]| == 2 * Pow2(th.pc.tab)
    requires var at := th.pc.at;
             at.Advance? || at.Claim? || at.Decide? || at.Leave? || (at.SawFull? && c.Stop?) ||
               (at.NullForwarded? && !BinAt(m, th.pc.tab, th.pc.i).Null?)
    ensures Wanders(m, th, c)
  {
    hide StepJob, StepIdle, StepBegin, Part, ToBin, Stamp;
  }

  lemma SizeOfNext(s: State, tab: int)
    requires Inv(s) && Resizing(s.mem, tab)
    ensures Size(s.mem, tab) == Pow2(tab) && Size(s.mem, tab + 1) == 2 * Pow2(tab)
  {
    PlacedSize(s.mem, tab);
    PlacedSize(s.mem, tab + 1);
  }

  lemma QuietStep(s: State, t: nat, c: Choice)
    requires Inv(s) && t in s.threads && Reads(s.mem, s.threads[t], c) && !s.threads[t].pc.InitStores?
    ensures var o := Step(s.mem, s.threads[t], c); Inv(After(s, t, o.mem, o.thread))
  {
    hide Step, TablesOk, ControlOk, CrewOk, HoldersDiffer, PcOk, JobOk;
    var m, th, o := s.mem, s.threads[t], Step(s.mem, s.threads[t], c);
    assert ThreadOk(m, th);
    if th.pc.Ready? {
      if th.job.None? {
        IdleReads(m, th, c);
      } else {
        JobReads(m, th, c);
      }
    } else {
      PcReads(m, th, c);
      PcKeepsJob(m, th, c);
    }
    AlikeThread(m, o.mem, o.thread);
    QuietKeeps(s, t, o.mem, o.thread);
  }

  lemma PcKeepsJob(m: Memory, th: Thread, c: Choice)
    requires Reads(m, th, c) && !th.pc.Ready?
    ensures Step(m, th, c).thread.job == th.job
  {
  }

  predicate Starts(m: Memory, pc: Pc) {
    pc.StartCas? && m.ctl == pc.ctl
  }

  lemma ReadsOtherwise(m: Memory, th: Thread, c: Choice)
    requires Bystander(th.pc) && Step(m, th, c).Next? && !TakesWord(m, th.pc) && !Writes(m, th, c) && !Joins(m, th.pc)
    requires !Starts(m, th.pc)
    ensures Reads(m, th, c)
  {
    hide StepCopy, Effect, BinIndex;
  }

  lemma MakerStep(s: State, t: nat, c: Choice)
    requires Inv(s) && t in s.threads && IsMaker(s.threads[t].pc) && Step(s.mem, s.threads[t], c).Next?
    ensures var o := Step(s.mem, s.threads[t], c); Inv(After(s, t, o.mem, o.thread))
  {
    hide Step, Inv;
    if s.threads[t].pc.InitStores? {
      StoreWordStep(s, t, c);
    } else {
      MakeStep(s, t, c);
    }
  }

  lemma CrewStep(s: State, t: nat, c: Choice)
    requires Inv(s) && t in s.threads && Step(s.mem, s.threads[t], c).Next?
    requires IsActive(s.threads[t].pc) || IsFinisher(s.threads[t].pc)
    ensures var o := Step(s.mem, s.threads[t], c); Inv(After(s, t, o.mem, o.thread))
  {
    hide Step, Inv;
    var pc := s.threads[t].pc;
    if pc.Begin? {
      BeginStep(s, t, c);
    } else if pc.SetIndex? {
      SetIndexStep(s, t, c);
    } else if pc.Copy? {
      CopyStep(s, t, c);
    } else if pc.Install? {
      InstallStep(s, t, c);
    } else {
      ReleaseStep(s, t, c);
    }
  }

  /** Every step keeps the invariant, but for a join that harms. */
  lemma StepKeepsInvariant(s: State, t: nat, c: Choice, e: Event, s': State)
    requires Inv(s) && Takes(s, t, c, e, s') && !Harms(s.mem, s.threads[t].pc)
    ensures Inv(s')
  {
    hide Step, Inv;
    var m, th := s.mem, s.threads[t];
    if IsMaker(th.pc) {
      MakerStep(s, t, c);
    } else if !Bystander(th.pc) {
      CrewStep(s, t, c);
    } else if TakesWord(m, th.pc) {
      TakeWordStep(s, t, c);
    } else if Writes(m, th, c) {
      WriteStep(s, t, c);
    } else if Joins(m, th.pc) {
      JoinStep(s, t, c);
    } else if Starts(m, th.pc) {
      StartStep(s, t, c);
    } else {
      ReadsOtherwise(m, th, c);
      QuietStep(s, t, c);
    }
  }

  // ---- what the protocol promises ----

  /** The table that a thread of the crew copies. */
  function CrewTable(pc: Pc): int
    requires IsActive(pc) || IsFinisher(pc)
  {
    pc.tab
  }

  /** While the control word is that of a resize it is the stamp of one table, plus one, plus the
      number of threads that copy that table; when there are none, one thread is left to finish; no
      other thread copies. */
  ghost predicate WordCounts(s: State) {
    var ctl, active, finishers := s.mem.ctl, Active(s.threads), Finishers(s.threads);
    if ctl >= -1 then active == {} && finishers == {}
    else
      var k := ExponentOf(ctl);
      ctl == Stamp(k) + 1 + |active| && |finishers| == One(active == {}) &&
      forall t :: t in active + finishers ==> CrewTable(s.threads[t].pc) == k
  }

  /** No next table is left over where a resize begins; and where a new table is put in place, every
      bin of the old one has been moved. */
  ghost predicate EndsMeet(s: State) {
    forall t :: t in s.threads ==>
      (s.threads[t].pc.Begin? ==> s.mem.next == -1) &&
      (s.threads[t].pc.Install? ==> s.mem.top == s.threads[t].pc.tab && MovedFrom(s.mem, s.mem.top, 0))
  }

  ghost predicate ProtocolHolds(s: State) {
    WordCounts(s) && EndsMeet(s)
  }

  /** No thread is astray, and a resize that counts no helper has one left to finish it. */
  ghost predicate Orderly(s: State) {
    (forall t :: t in s.threads && s.threads[t].pc.Copy? ==> s.threads[t].pc.tab == s.mem.top) &&
    (s.mem.ctl < -1 && Helpers(s.mem.ctl) == 0 ==> Finishers(s.threads) != {})
  }

  lemma CopiesFrom(m: Memory, th: Thread, c: Choice)
    requires Step(m, th, c).Next?
    ensures var o := Step(m, th, c);
            o.thread.pc.Copy? ==>
              o.mem.top == m.top && (th.pc.Copy? || th.pc.SetIndex? || Joins(m, th.pc)) && o.thread.pc.tab == th.pc.tab
    ensures Step(m, th, c).mem.top != m.top ==> th.pc.Install? || IsMaker(th.pc)
  {
    hide StepJob, StepIdle, StepCopy, BinIndex, Stamp, LoadFactor, Empty, Closed;
    if th.pc.Ready? {
      ReadyKeepsWord(m, th, c);
    } else if th.pc.Copy? {
      CopyOutcome(m, th, c);
    }
  }

  /** A thread that finishes a resize goes on to do so until it gives the word back. */
  lemma FinisherStays(m: Memory, th: Thread, c: Choice)
    requires Step(m, th, c).Next? && IsFinisher(th.pc) && PcOk(m, th.pc) && !th.pc.Release?
    ensures IsFinisher(Step(m, th, c).thread.pc)
  {
    if th.pc.Copy? {
      CopyOutcome(m, th, c);
      hide Step, MovedFrom, ExponentOf, Helpers;
    } else {
      CommitOutcome(m, th, c);
      hide Step;
    }
  }

  lemma ReadyKeepsWord(m: Memory, th: Thread, c: Choice)
    requires th.pc.Ready? && Step(m, th, c).Next?
    ensures var o := Step(m, th, c); !o.thread.pc.Copy? && o.mem.top == m.top && o.mem.ctl == m.ctl
  {
    hide BinIndex, Effect, Result;
  }

  lemma WordChanges(m: Memory, th: Thread, c: Choice)
    requires Step(m, th, c).Next? && Step(m, th, c).mem.ctl < -1 && Step(m, th, c).mem.ctl != m.ctl &&
             !th.pc.InitStores?
    ensures Starts(m, th.pc) || Joins(m, th.pc) || Leaves(m, th, c) || th.pc.Release?
  {
    hide StepJob, StepIdle, StepCopy, BinIndex, Stamp, LoadFactor, Empty, Closed;
    if th.pc.Ready? {
      ReadyKeepsWord(m, th, c);
    } else if th.pc.Copy? && !Leaves(m, th, c) {
      CopyOutcome(m, th, c);
    }
  }

  /** All copy the current table as long as nobody joins astray. */
  lemma StaysTogether(s: State, t: nat, c: Choice, e: Event, s': State)
    requires Inv(s) && Inv(s') && Orderly(s) && Takes(s, t, c, e, s') && !Stray(s.mem, s.threads[t].pc)
    ensures forall u :: u in s'.threads && s'.threads[u].pc.Copy? ==> s'.threads[u].pc.tab == s'.mem.top
  {
    hide Step, TablesOk, ControlOk, CrewOk, HoldersDiffer, OneStarter, ExponentOf, Helpers, MovedFrom, Part, ToBin;
    CopiesFrom(s.mem, s.threads[t], c);
    assert ThreadOk(s.mem, s.threads[t]) && ThreadOk(s'.mem, s'.threads[t]);
    forall u | u in s'.threads && s'.threads[u].pc.Copy?
      ensures s'.threads[u].pc.tab == s'.mem.top
    {
      if u != t && (s.threads[t].pc.Install? || IsMaker(s.threads[t].pc)) {
        OthersStandBy(s, t, u);
      } else if u == t && Joins(s.mem, s.threads[t].pc) {
        MatchedCopies(s, t, c);
      }
    }
  }

  lemma MatchedCopies(s: State, t: nat, c: Choice)
    requires Inv(s) && t in s.threads && Joins(s.mem, s.threads[t].pc) && Matched(s.threads[t].pc)
    ensures s.mem.top == s.threads[t].pc.tab
  {
    assert ThreadOk(s.mem, s.threads[t]);
    WordArithmetic(s.mem.ctl, s.threads[t].pc.tab);
    hide TablesOk, CrewOk, HoldersDiffer, OneStarter, ExponentOf, Helpers;
  }

  /** When the word comes to count no helper, the last one stays to finish. */
  lemma FinisherIsLeft(s: State, t: nat, c: Choice, e: Event, s': State)
    requires Inv(s) && Inv(s') && Orderly(s) && Takes(s, t, c, e, s') && !Stray(s.mem, s.threads[t].pc)
    requires s'.mem.ctl < -1 && Helpers(s'.mem.ctl) == 0
    ensures Finishers(s'.threads) != {}
  {
    hide Step, TablesOk, HoldersDiffer, OneStarter, ExponentOf, Helpers, MovedFrom, Share, BinAt, NotAfter, Pair,
      LoadOf,
      Closed, Reaches, Stamp;
    var m, th, o := s.mem, s.threads[t], Step(s.mem, s.threads[t], c);
    assert ThreadOk(m, th);
    if s'.mem.ctl == m.ctl {
      if th.pc.Release? {
        ReleaseChanges(s, t, c);
      } else if IsFinisher(th.pc) {
        FinisherStays(m, th, c);
      }
      var f :| f in Finishers(s.threads);
      assert f in Finishers(s'.threads);
    } else {
      if th.pc.InitStores? {
        StoresWord(m, th, c);
      }
      WordChanges(m, th, c);
      WordArithmetic(m.ctl, ExponentOf(m.ctl));
      if Leaves(m, th, c) {
        LeaveOutcome(m, th, c);
        NotFinishing(m, th.pc);
        WhoStays(m, th.pc);
        assert t in Finishers(s'.threads);
      } else {
        NewWord(s, t, c);
      }
    }
  }

  lemma StoresWord(m: Memory, th: Thread, c: Choice)
    requires th.pc.InitStores? && PcOk(m, th.pc) && Step(m, th, c).Next?
    ensures Step(m, th, c).mem.ctl >= 0
  {
  }

  lemma ReleaseChanges(s: State, t: nat, c: Choice)
    requires Inv(s) && t in s.threads && Step(s.mem, s.threads[t], c).Next? && s.threads[t].pc.Release?
    ensures Step(s.mem, s.threads[t], c).mem.ctl >= 0
  {
    CommitOutcome(s.mem, s.threads[t], c);
    hide Step;
  }

  /** A resize that starts or is joined counts a helper. */
  lemma NewWord(s: State, t: nat, c: Choice)
    requires Inv(s) && t in s.threads && Step(s.mem, s.threads[t], c).Next?
    requires var th := s.threads[t];
             Starts(s.mem, th.pc) || (Joins(s.mem, th.pc) && !Stray(s.mem, th.pc)) || th.pc.Release?
    ensures var ctl := Step(s.mem, s.threads[t], c).mem.ctl; ctl < -1 ==> Helpers(ctl) > 0
  {
    hide Step, TablesOk, HoldersDiffer, OneStarter, CrewOk;
    var m, th := s.mem, s.threads[t];
    assert ThreadOk(m, th);
    if th.pc.Release? {
      ReleaseChanges(s, t, c);
    } else if Starts(m, th.pc) {
      StartOutcome(m, th, c);
      WordOfResize(th.pc.tab, 1);
    } else {
      JoinOutcome(m, th, c);
      WordArithmetic(m.ctl, th.pc.tab);
    }
  }

  lemma OrderlyStep(s: State, t: nat, c: Choice, e: Event, s': State)
    requires Inv(s) && Orderly(s) && Takes(s, t, c, e, s') && !Stray(s.mem, s.threads[t].pc)
    ensures Inv(s') && Orderly(s')
  {
    hide Inv, Step, Helpers;
    StepKeepsInvariant(s, t, c, e, s');
    StaysTogether(s, t, c, e, s');
    if s'.mem.ctl < -1 && Helpers(s'.mem.ctl) == 0 {
      FinisherIsLeft(s, t, c, e, s');
    }
  }

  lemma OrderlyHolds(s: State)
    requires Inv(s) && Orderly(s)
    ensures ProtocolHolds(s)
  {
    BeginningAndEnd(s);
    OrderlyCounts(s);
    hide Inv, Orderly, WordCounts, EndsMeet;
  }

  lemma OrderlyCounts(s: State)
    requires Inv(s) && Orderly(s)
    ensures WordCounts(s)
  {
    hide TablesOk, HoldersDiffer, OneStarter, ExponentOf, Helpers, MovedFrom, Part, ToBin;
    WordIs(s.mem.ctl);
    if s.mem.ctl < -1 {
      forall t | t in Active(s.threads) + Finishers(s.threads)
        ensures CrewTable(s.threads[t].pc) == ExponentOf(s.mem.ctl)
      {
        CrewCopies(s, t);
      }
    }
  }

  lemma CrewCopies(s: State, t: nat)
    requires Inv(s) && Orderly(s) && t in s.threads && (IsActive(s.threads[t].pc) || IsFinisher(s.threads[t].pc))
    ensures CrewTable(s.threads[t].pc) == ExponentOf(s.mem.ctl)
  {
    hide TablesOk, HoldersDiffer, OneStarter, ExponentOf, Helpers, MovedFrom, CrewOk;
    assert ThreadOk(s.mem, s.threads[t]);
    WordOfResize(s.threads[t].pc.tab, 0);
  }

  lemma BeginningAndEnd(s: State)
    requires Inv(s)
    ensures EndsMeet(s)
  {
    hide TablesOk, ControlOk, HoldersDiffer, OneStarter, CrewOk, ExponentOf, Helpers, MovedFrom, CopyOk, StrayOk;
    forall t | t in s.threads
      ensures ThreadOk(s.mem, s.threads[t])
    {
    }
  }

  /** A stray join breaks the protocol at once: the word counts a thread that copies another table. */
  lemma StrayJoinBreaksProtocol(s: State, t: nat, c: Choice, e: Event, s': State)
    requires Inv(s) && Takes(s, t, c, e, s') && Stray(s.mem, s.threads[t].pc)
    ensures !ProtocolHolds(s')
  {
    hide TablesOk, ControlOk, CrewOk, HoldersDiffer, OneStarter, Step, EndsMeet;
    var m, th := s.mem, s.threads[t];
    assert ThreadOk(m, th);
    JoinOutcome(m, th, c);
    assert t in Active(s'.threads) && CrewTable(s'.threads[t].pc) == th.pc.tab;
    WordArithmetic(m.ctl, ExponentOf(m.ctl));
    WordIs(m.ctl + 1);
    NotNegative(Active(s'.threads), t);
    hide ThreadOk;
    if m.ctl < -1 {
      assert Helpers(m.ctl) + 1 < MAX_RESIZERS || Helpers(m.ctl + 1) == -1;
    }
  }

  lemma NotNegative(a: set<nat>, t: nat)
    requires t in a
    ensures |a| > 0
  {
  }

  // ---- runs ----

  datatype Move = Move(thread: nat, choice: Choice, event: Event)

  datatype Run = Run(states: seq<State>, moves: seq<Move>)

  /** A map without a table, or one made with room from the start, and threads that have not begun. */
  ghost predicate Initial(s: State) {
    var m := s.mem;
    m.next == -1 && m.index == 0 && m.count == 0 && m.forward == map[] && m.locks == {} &&
      -1 <= m.top <= MAX_EXPONENT &&
    (if m.top == -1 then m.bins == map[] && m.ctl == 0
      else m.bins == map[m.top := Empty(m.top)] && m.ctl == LoadFactor(m.top)) &&
    forall t :: t in s.threads ==> s.threads[t] == Thread(Ready, None)
  }

  ghost predicate IsRun(r: Run) {
    |r.states| == |r.moves| + 1 && Initial(r.states[0]) &&
    forall i :: 0 <= i < |r.moves| ==>
      Takes(r.states[i], r.moves[i].thread, r.moves[i].choice, r.moves[i].event, r.states[i + 1])
  }

  /** The move at `i` is a stray join. */
  ghost predicate StraysAt(r: Run, i: nat)
    requires IsRun(r) && i < |r.moves|
  {
    var t := r.moves[i].thread;
    t in r.states[i].threads && Stray(r.states[i].mem, r.states[i].threads[t].pc)
  }

  /** The move at `i` is a stray join while the word counts no helper, or as many as it can. */
  ghost predicate HarmsAt(r: Run, i: nat)
    requires IsRun(r) && i < |r.moves|
  {
    var t := r.moves[i].thread;
    t in r.states[i].threads && Harms(r.states[i].mem, r.states[i].threads[t].pc)
  }

  lemma InitialInvariant(s: State)
    requires Initial(s)
    ensures Inv(s) && Orderly(s)
  {
    assert Active(s.threads) == {} && Finishers(s.threads) == {} && Makers(s.threads) == {};
    hide ExponentOf, Helpers, LoadFactor;
    var m := s.mem;
    assert forall k, i :: BinAt(m, k, i).Null?;
    if m.top >= 0 {
      assert Placed(m, m.top);
    }
  }

  lemma {:induction false} InvariantUpTo(r: Run, n: nat)
    requires IsRun(r) && n <= |r.moves| && forall i :: 0 <= i < n ==> !HarmsAt(r, i)
    ensures Inv(r.states[n])
  {
    hide Inv, Step, Harms;
    if n == 0 {
      InitialInvariant(r.states[0]);
    } else {
      InvariantUpTo(r, n - 1);
      var move := r.moves[n - 1];
      assert !HarmsAt(r, n - 1);
      StepKeepsInvariant(r.states[n - 1], move.thread, move.choice, move.event, r.states[n]);
    }
  }

  lemma {:induction false} OrderlyUpTo(r: Run, n: nat)
    requires IsRun(r) && n <= |r.moves| && forall i :: 0 <= i < n ==> !StraysAt(r, i)
    ensures Inv(r.states[n]) && Orderly(r.states[n])
  {
    hide Inv, Step, Stray, Orderly;
    if n == 0 {
      InitialInvariant(r.states[0]);
    } else {
      OrderlyUpTo(r, n - 1);
      var move := r.moves[n - 1];
      assert !StraysAt(r, n - 1);
      OrderlyStep(r.states[n - 1], move.thread, move.choice, move.event, r.states[n]);
    }
  }

  /** As long as the protocol holds, nobody has joined astray. */
  lemma {:induction false} NoStraySoFar(r: Run, n: nat)
    requires IsRun(r) && n <= |r.moves| && forall i :: 0 <= i <= n ==> ProtocolHolds(r.states[i])
    ensures forall i :: 0 <= i < n ==> !StraysAt(r, i)
  {
    hide Inv, Step, Stray, Orderly, ProtocolHolds;
    if n > 0 {
      NoStraySoFar(r, n - 1);
      OrderlyUpTo(r, n - 1);
      if StraysAt(r, n - 1) {
        var move := r.moves[n - 1];
        StrayJoinBreaksProtocol(r.states[n - 1], move.thread, move.choice, move.event, r.states[n]);
      }
    }
  }

  /** The protocol of the resize holds throughout a run exactly when no thread in it joins a resize
      of another table than the one it means. */
  lemma ProtocolIffNoStray(r: Run)
    requires IsRun(r)
    ensures (forall i :: 0 <= i <= |r.moves| ==> ProtocolHolds(r.states[i])) <==>
            (forall i :: 0 <= i < |r.moves| ==> !StraysAt(r, i))
  {
    hide Inv, Step, Stray, Orderly, ProtocolHolds;
    if forall i :: 0 <= i < |r.moves| ==> !StraysAt(r, i) {
      forall i | 0 <= i <= |r.moves|
        ensures ProtocolHolds(r.states[i])
      {
        OrderlyUpTo(r, i);
        OrderlyHolds(r.states[i]);
      }
    }
    if forall i :: 0 <= i <= |r.moves| ==> ProtocolHolds(r.states[i]) {
      NoStraySoFar(r, |r.moves|);
    }
  }

  // ---- with strays that do no harm ----

  lemma CrewTableIs(m: Memory, pc: Pc)
    requires PcOk(m, pc) && (IsActive(pc) || IsFinisher(pc))
    ensures CrewTable(pc) <= ExponentOf(m.ctl)
  {
    WordOfResize(pc.tab, 0);
    hide ExponentOf, MovedFrom, Share, BinAt, NotAfter, Pair, LoadOf, Closed;
  }

  /** While the control word is that of a resize it is the stamp of one table, plus one, plus the
      number of threads in the copying loop, strays included; when it counts none, at most one
      thread is left to finish. */
  lemma WordCountsResizers(s: State)
    requires Inv(s) && s.mem.ctl < -1
    ensures var k := ExponentOf(s.mem.ctl);
            s.mem.ctl == Stamp(k) + 1 + |Active(s.threads)| && |Finishers(s.threads)| <= One(Active(s.threads) == {}) &&
            forall t :: t in Active(s.threads) + Finishers(s.threads) ==> CrewTable(s.threads[t].pc) <= k
  {
    hide TablesOk, ControlOk, HoldersDiffer, OneStarter, ExponentOf, Helpers, PcOk, JobOk, CrewTable, Stamp;
    WordIs(s.mem.ctl);
    forall t | t in Active(s.threads) + Finishers(s.threads)
      ensures CrewTable(s.threads[t].pc) <= ExponentOf(s.mem.ctl)
    {
      assert ThreadOk(s.mem, s.threads[t]);
      CrewTableIs(s.mem, s.threads[t].pc);
    }
  }

  /** Where the new table is put in place, no thread copies any more, and one thread does it. */
  lemma OneInstalls(s: State, t: nat)
    requires Inv(s) && t in s.threads && s.threads[t].pc.Install?
    ensures Active(s.threads) == {} && Finishers(s.threads) == {t}
  {
    assert ThreadOk(s.mem, s.threads[t]);
    WordOfResize(s.threads[t].pc.tab, 0);
    assert t in Finishers(s.threads);
    hide TablesOk, ControlOk, HoldersDiffer, OneStarter, ExponentOf, Helpers, MovedFrom;
    forall u | u in Finishers(s.threads)
      ensures u == t
    {
      OnlyOne(Finishers(s.threads), t, u);
    }
  }

  // ---- no panics ----

  /** A choice that lets a thread go on where it may. */
  function SomeChoice(pc: Pc): Choice {
    if pc.Copy? && pc.at.Claim? then Stride(MIN_STRIDE)
    else if pc.Copy? && pc.at.SawFull? then Stop
    else Go
  }

  /** The thread waits for the lock of its bin. */
  ghost predicate WaitsForLock(m: Memory, th: Thread) {
    th.pc.Ready? && th.job.Some? && th.job.value.tab >= 0 &&
      (th.job.value.tab, Index(th.job.value.op, th.job.value.tab)) in m.locks
  }

  /** A thread is stopped by nothing but the lock of a bin: no assertion fails, and no table or bin
      that it goes to is missing. */
  lemma NoPanic(s: State, t: nat)
    requires Inv(s) && t in s.threads && !WaitsForLock(s.mem, s.threads[t])
    ensures Step(s.mem, s.threads[t], SomeChoice(s.threads[t].pc)).Next?
  {
    var m, th := s.mem, s.threads[t];
    assert ThreadOk(m, th);
    if th.pc.Copy? {
      CopyGoesOn(s, t);
    } else if th.pc.Ready? {
      ReadyGoesOn(m, th);
    } else {
      PcGoesOn(m, th);
    }
  }

  lemma PcGoesOn(m: Memory, th: Thread)
    requires ThreadOk(m, th) && !th.pc.Copy? && !th.pc.Ready?
    ensures Step(m, th, SomeChoice(th.pc)).Next?
  {
    hide ExponentOf, Helpers, MovedFrom;
  }

  lemma ReadyGoesOn(m: Memory, th: Thread)
    requires TablesOk(m) && ThreadOk(m, th) && th.pc.Ready? && !WaitsForLock(m, th)
    ensures Step(m, th, Go).Next?
  {
    hide MovesOk, UntouchedOk, LocksOk, Effect, BinIndex, Result, Placed;
    if th.job.Some? && th.job.value.tab >= 0 {
      var job := th.job.value;
      PlacedSize(m, job.tab);
      SplitIndex(job.op.key.hash, job.tab);
      if BinAt(m, job.tab, Index(job.op, job.tab)).Moved? {
        MovedLeadsOn(m, job.op.key.hash, job.tab);
      }
    }
  }

  lemma CopyGoesOn(s: State, t: nat)
    requires Inv(s) && t in s.threads && s.threads[t].pc.Copy?
    ensures Step(s.mem, s.threads[t], SomeChoice(s.threads[t].pc)).Next?
  {
    hide ExponentOf, Helpers, ControlOk, CrewOk, HoldersDiffer, MovedFrom, Part, ToBin, MovesOk, UntouchedOk, LocksOk,
      Placed;
    assert ThreadOk(s.mem, s.threads[t]);
    if StrayOk(s.mem, s.threads[t].pc) {
      StrayGoesOn(s.mem, s.threads[t]);
      return;
    }
    SizeOfNext(s, s.threads[t].pc.tab);
    assert s.threads[t].pc.tab in s.mem.forward ==> s.mem.forward[s.threads[t].pc.tab] == s.threads[t].pc.tab + 1;
  }

  lemma StrayGoesOn(m: Memory, th: Thread)
    requires TablesOk(m) && th.pc.Copy? && StrayOk(m, th.pc)
    ensures Step(m, th, SomeChoice(th.pc)).Next?
  {
    hide ExponentOf, Helpers, Part, ToBin, MovesOk, UntouchedOk, LocksOk, Placed, StepMove;
    assert Placed(m, th.pc.tab);
    PlacedSize(m, th.pc.tab);
  }
}
