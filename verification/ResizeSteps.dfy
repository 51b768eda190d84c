/** Each step of the concurrent hash map keeps the invariant (src/chashmap/map.rs). */
module ResizeSteps {
  import opened Bits
  import opened Options
  import opened ResizeInvariant
  import opened ResizeModel
  import opened Values

  /** Thread `t` takes a step. */
  ghost predicate Takes(s: State, t: nat, c: Choice, e: Event, s': State) {
    t in s.threads &&
    var o := Step(s.mem, s.threads[t], c);
    o.Next? && o.event == e && s' == After(s, t, o.mem, o.thread)
  }

  /** A thread joins a resize: it counts itself in. */
  predicate Joins(m: Memory, pc: Pc) {
    pc.JoinCas? && m.ctl == pc.ctl
  }

  /** The resize that a thread joins is the one of the table it means. */
  predicate Matched(pc: Pc)
    requires pc.JoinCas?
  {
    pc.ctl < -1 && ExponentOf(pc.ctl) == pc.tab
  }

  // ---- steps that change nothing that the invariant speaks of ----

  predicate Alike(m: Memory, m': Memory) {
    m' == m.(index := m'.index, count := m'.count)
  }

  lemma AlikeKeeps(m: Memory, m': Memory)
    requires Alike(m, m') && TablesOk(m) && ControlOk(m)
    ensures TablesOk(m') && ControlOk(m')
  {
    assert forall k, i :: BinAt(m', k, i) == BinAt(m, k, i);
    assert forall k :: Size(m', k) == Size(m, k);
    assert forall k :: Placed(m, k) ==> Placed(m', k);
    hide ExponentOf, Helpers;
  }

  lemma AlikeBins(m: Memory, m': Memory)
    requires Alike(m, m')
    ensures forall k, i :: MovedFrom(m, k, i) ==> MovedFrom(m', k, i)
    ensures Grows(m, m')
    ensures forall pc: Pc :: pc.Copy? && CopyOk(m, pc) ==> CopyOk(m', pc)
    ensures forall pc: Pc :: pc.Copy? && StrayOk(m, pc) ==> StrayOk(m', pc)
  {
    assert forall k, i :: BinAt(m', k, i) == BinAt(m, k, i);
    assert forall k :: Size(m', k) == Size(m, k);
    hide ExponentOf, Helpers;
    forall pc: Pc | pc.Copy? && CopyOk(m, pc)
      ensures CopyOk(m', pc)
    {
      CopierKeeps(m, m', pc);
    }
  }

  lemma AlikeThread(m: Memory, m': Memory, th: Thread)
    requires Alike(m, m') && ThreadOk(m, th)
    ensures ThreadOk(m', th)
  {
    AlikeBins(m, m');
    hide ExponentOf, Helpers, MovedFrom, CopyOk, StrayOk;
  }

  lemma AlikeControl(m: Memory, m': Memory)
    requires Alike(m, m')
    ensures m'.ctl == m.ctl
  {
  }

  /** A thread that does not begin a resize does not matter for who does. */
  lemma StarterStays(s: State, t: nat, m': Memory, th: Thread)
    requires OneStarter(s) && !th.pc.Begin?
    ensures OneStarter(After(s, t, m', th))
  {
  }

  lemma QuietKeeps(s: State, t: nat, m': Memory, th: Thread)
    requires Inv(s) && t in s.threads && Alike(s.mem, m') && ThreadOk(m', th)
    requires Bystander(s.threads[t].pc) && Bystander(th.pc)
    ensures Inv(After(s, t, m', th))
  {
    hide TablesOk, ControlOk, ThreadOk, Alike, OneStarter;
    StarterStays(s, t, m', th);
    AlikeKeeps(s.mem, m');
    CrewAfter(s.threads, t, th);
    forall u | u in s.threads
      ensures ThreadOk(m', s.threads[u])
    {
      AlikeThread(s.mem, m', s.threads[u]);
    }
    assert s.mem.ctl == m'.ctl by { AlikeControl(s.mem, m'); }
  }

  // ---- reading ----

  /** The thread reads, and nothing that others see changes but the counters. */
  ghost predicate Reads(m: Memory, th: Thread, c: Choice) {
    var o := Step(m, th, c);
    o.Next? && Alike(m, o.mem) && Bystander(th.pc) && Bystander(o.thread.pc)
  }

  lemma PcReads(m: Memory, th: Thread, c: Choice)
    requires TablesOk(m) && ControlOk(m) && ThreadOk(m, th) && Reads(m, th, c)
    requires !th.pc.Ready?
    ensures PcOk(m, Step(m, th, c).thread.pc)
  {
    ControlSeen(m);
    hide ExponentOf, Helpers, StepCopy, StepBegin, StepJob, StepIdle, LoadFactor, Stamp, Placed, MovedFrom, NoneMoved,
      Untouched, LockOk, Empty;
  }

  /** The control word that is read belongs to no table after the current one. */
  lemma ControlSeen(m: Memory)
    requires TablesOk(m) && ControlOk(m)
    ensures NotAfter(m.ctl, m.top)
  {
    if m.ctl > 0 {
      assert m.top >= 0 && LoadFactor(m.top) == m.ctl;
    }
    hide Placed, MovedFrom, NoneMoved, Untouched, LockOk;
  }

  lemma IdleReads(m: Memory, th: Thread, c: Choice)
    requires TablesOk(m) && ControlOk(m) && ThreadOk(m, th) && th.pc.Ready? && th.job.None? && Step(m, th, c).Next?
    ensures var o := Step(m, th, c); o.mem == m && Bystander(o.thread.pc) && ThreadOk(m, o.thread)
  {
    ControlSeen(m);
    hide TablesOk, ControlOk;
  }

  /** A moved bin sends an operation on to the next table. */
  lemma MovedLeadsOn(m: Memory, hash: nat, tab: int)
    requires TablesOk(m) && Reaches(m, hash, tab) && BinAt(m, tab, BinIndex(hash, tab)).Moved?
    ensures tab in m.forward && m.forward[tab] == tab + 1 && tab <= m.top && Reaches(m, hash, tab + 1)
  {
    assert BinIndex(hash, tab) < Size(m, tab);
    hide Placed, Untouched, LockOk, Entries, BinIndex;
  }

  lemma JobReads(m: Memory, th: Thread, c: Choice)
    requires TablesOk(m) && ThreadOk(m, th) && th.pc.Ready? && th.job.Some? && Reads(m, th, c)
    ensures ThreadOk(m, Step(m, th, c).thread)
  {
    var job := th.job.value;
    if job.tab in m.bins && Index(job.op, job.tab) < |m.bins[job.tab]| &&
      m.bins[job.tab][Index(job.op, job.tab)].Moved? {
      MovedLeadsOn(m, job.op.key.hash, job.tab);
    }
    hide Placed, MovedFrom, NoneMoved, Untouched, LockOk, BinIndex, Effect, Result;
  }

  // ---- steps that change bins ----

  /** The tables stay where they are, and moved bins stay moved. */
  ghost predicate Preserves(m: Memory, m': Memory) {
    m'.top == m.top && m'.next == m.next && m'.ctl == m.ctl && m'.bins.Keys == m.bins.Keys &&
    (forall k :: Size(m', k) == Size(m, k)) &&
    (forall k, j :: BinAt(m, k, j).Moved? ==> BinAt(m', k, j).Moved?) &&
    (forall k :: k in m.forward ==> k in m'.forward)
  }

  /** The bin that a thread holds, and those it fills, are left alone. */
  ghost predicate HeldKept(m: Memory, m': Memory, pc: Pc) {
    Holding(pc) && pc.tab >= 0 ==>
      (pc.tab, pc.i) in m'.locks && BinAt(m', pc.tab, pc.i) == BinAt(m, pc.tab, pc.i) &&
      BinAt(m', pc.tab + 1, pc.i) == BinAt(m, pc.tab + 1, pc.i) &&
      BinAt(m', pc.tab + 1, pc.i + Pow2(pc.tab)) == BinAt(m, pc.tab + 1, pc.i + Pow2(pc.tab))
  }

  lemma PreservedThread(m: Memory, m': Memory, th: Thread)
    requires Preserves(m, m') && ThreadOk(m, th) && HeldKept(m, m', th.pc)
    ensures ThreadOk(m', th)
  {
    hide ExponentOf, Helpers, Part, ToBin, Entries, CopyOk, BinAt, Closed;
    if th.pc.Copy? {
      if CopyOk(m, th.pc) {
        PreservedCopier(m, m', th.pc);
      } else {
        StrayKeeps(m, m', th.pc);
      }
    }
  }

  lemma PreservedCopier(m: Memory, m': Memory, pc: Pc)
    requires Preserves(m, m') && pc.Copy? && CopyOk(m, pc) && HeldKept(m, m', pc)
    ensures CopyOk(m', pc)
  {
    hide ExponentOf, Helpers, Part, ToBin, Entries, BinAt;
    CopierKeeps(m, m', pc);
  }

  lemma PreservedControl(m: Memory, m': Memory)
    requires Preserves(m, m') && ControlOk(m)
    ensures ControlOk(m')
  {
    hide ExponentOf, Helpers;
  }

  predicate SameDuty(pc: Pc, pc': Pc) {
    IsActive(pc) == IsActive(pc') && IsFinisher(pc) == IsFinisher(pc') && IsMaker(pc) == IsMaker(pc')
  }

  lemma PreservedStep(s: State, t: nat, m': Memory, th: Thread)
    requires Inv(s) && t in s.threads && Preserves(s.mem, m') && TablesOk(m') && ThreadOk(m', th)
    requires SameDuty(s.threads[t].pc, th.pc) && HoldersDiffer(After(s, t, m', th)) && !th.pc.Begin?
    requires forall u :: u in s.threads && u != t ==> HeldKept(s.mem, m', s.threads[u].pc)
    ensures Inv(After(s, t, m', th))
  {
    hide TablesOk, ControlOk, ThreadOk, HeldKept, HoldersDiffer, OneStarter;
    StarterStays(s, t, m', th);
    PreservedControl(s.mem, m');
    forall u | u in s.threads && u != t
      ensures ThreadOk(m', s.threads[u])
    {
      PreservedThread(s.mem, m', s.threads[u]);
    }
    SameCrew(s.threads, t, th);
  }

  lemma SameCrew(ths: map<nat, Thread>, t: nat, th: Thread)
    requires t in ths && SameDuty(ths[t].pc, th.pc)
    ensures Active(ths[t := th]) == Active(ths) && Finishers(ths[t := th]) == Finishers(ths) &&
            Makers(ths[t := th]) == Makers(ths)
  {
  }

  // ---- writing ----

  lemma BinChanges(m: Memory, tab: int, i: int, b: Bin)
    requires tab in m.bins && 0 <= i < |m.bins[tab]|
    ensures var m' := WithBin(m, tab, i, b);
            (forall k, j :: BinAt(m', k, j) == if k == tab && j == i then b else BinAt(m, k, j)) &&
            (forall k :: Size(m', k) == Size(m, k))
  {
  }

  /** New entries of one bin that belong there leave all keys where they belong. */
  lemma StillPlaced(m: Memory, tab: int, i: int, b: Bin)
    requires tab in m.bins && 0 <= i < |m.bins[tab]| && tab >= 0 && forall key <- Entries(b) ::
             BinIndex(key.hash, tab) == i
    ensures forall k :: Placed(m, k) ==> Placed(WithBin(m, tab, i, b), k)
  {
    BinChanges(m, tab, i, b);
    hide BinIndex, WithBin, BinAt, Size;
  }

  lemma EffectIsLocal(op: Op, m: map<Key, Value>, key: Key)
    ensures key in Effect(op, m) ==> key in m || key == op.key
  {
  }

  lemma EffectIsPlaced(m: Memory, op: Op, tab: nat)
    requires Placed(m, tab) && Index(op, tab) < Size(m, tab)
    ensures forall key <- Effect(op, Entries(BinAt(m, tab, Index(op, tab)))) ::
            BinIndex(key.hash, tab) == Index(op, tab)
  {
    var e := Entries(BinAt(m, tab, Index(op, tab)));
    forall key <- Effect(op, e)
      ensures BinIndex(key.hash, tab) == Index(op, tab)
    {
      EffectIsLocal(op, e, key);
    }
    hide Effect;
  }

  lemma BinKeys(m: Memory, tab: int, i: int, b: Bin)
    requires tab in m.bins && 0 <= i < |m.bins[tab]|
    ensures WithBin(m, tab, i, b) == m.(bins := WithBin(m, tab, i, b).bins) &&
            WithBin(m, tab, i, b).bins.Keys == m.bins.Keys
  {
  }

  /** A change of one bin that was not moved, to one that is not. */
  lemma BinShape(m: Memory, tab: int, i: int, b: Bin)
    requires ShapeOk(m) && MovesOk(m) && LocksOk(m) && tab in m.bins && 0 <= i < |m.bins[tab]|
    requires !BinAt(m, tab, i).Moved? && !b.Moved? && (tab, i) !in m.locks
    requires forall key <- Entries(b) :: BinIndex(key.hash, tab) == i
    ensures var m' := WithBin(m, tab, i, b); ShapeOk(m') && MovesOk(m') && LocksOk(m') && Preserves(m, m')
  {
    hide Placed, WithBin, BinAt;
    PlacedSize(m, tab);
    StillPlaced(m, tab, i, b);
    BinChanges(m, tab, i, b);
    BinKeys(m, tab, i, b);
  }

  lemma WriteUntouched(m: Memory, hash: nat, tab: int, b: Bin)
    requires ShapeOk(m) && MovesOk(m) && UntouchedOk(m) && Reaches(m, hash, tab)
    requires var i := BinIndex(hash, tab);
             i < Size(m, tab) && !BinAt(m, tab, i).Moved? && !b.Moved? && (tab, i) !in m.locks
    ensures UntouchedOk(WithBin(m, tab, BinIndex(hash, tab), b))
  {
    hide WithBin, BinAt, Placed;
    var i := BinIndex(hash, tab);
    BinChanges(m, tab, i, b);
    BinKeys(m, tab, i, b);
    if tab == m.top + 1 {
      SplitIndex(hash, m.top);
      assert Placed(m, m.top) ==> Size(m, m.top) == Pow2(m.top) by { PlacedSize(m, m.top); }
    }
  }

  lemma PlacedSize(m: Memory, k: int)
    requires Placed(m, k)
    ensures k >= 0 && Size(m, k) == Pow2(k)
  {
  }

  /** An operation works on a bin where its key belongs. */
  lemma WriteTables(m: Memory, op: Op, tab: int, b: Bin)
    requires TablesOk(m) && Reaches(m, op.key.hash, tab)
    requires var i := Index(op, tab);
             i < Size(m, tab) && !BinAt(m, tab, i).Moved? && (tab, i) !in m.locks &&
             b == ToBin(Effect(op, Entries(BinAt(m, tab, i))))
    ensures TablesOk(WithBin(m, tab, Index(op, tab), b)) && Preserves(m, WithBin(m, tab, Index(op, tab), b))
  {
    hide MovesOk, UntouchedOk, LocksOk, Effect, Placed, WithBin, Preserves;
    EffectIsPlaced(m, op, tab);
    BinShape(m, tab, Index(op, tab), b);
    WriteUntouched(m, op.key.hash, tab, b);
  }

  lemma BinOfSize(m: Memory, tab: int, i: int)
    requires 0 <= i < Size(m, tab)
    ensures tab in m.bins && i < |m.bins[tab]|
  {
  }

  lemma WriteKeepsHeld(m: Memory, hash: nat, tab: int, b: Bin, pc: Pc)
    requires TablesOk(m) && Reaches(m, hash, tab) && PcOk(m, pc)
    requires var i := BinIndex(hash, tab); i < Size(m, tab) && (tab, i) !in m.locks
    ensures HeldKept(m, WithBin(m, tab, BinIndex(hash, tab), b), pc)
  {
    hide WithBin, Placed, UntouchedOk, MovesOk, ExponentOf, Helpers, Part, BinAt, Size, BinIndex, Closed, LoadOf;
    BinOfSize(m, tab, BinIndex(hash, tab));
    BinChanges(m, tab, BinIndex(hash, tab), b);
    BinKeys(m, tab, BinIndex(hash, tab), b);
    if Holding(pc) && tab == m.top + 1 {
      SplitIndex(hash, m.top);
      assert LockOk(m, (pc.tab, pc.i));
    }
  }

  /** The bin that an operation has got to. */
  function Target(m: Memory, job: Job): Bin
    requires job.tab >= 0
  {
    BinAt(m, job.tab, Index(job.op, job.tab))
  }

  /** The thread works on its bin, and changes it. */
  ghost predicate Writes(m: Memory, th: Thread, c: Choice) {
    th.pc.Ready? && th.job.Some? && Step(m, th, c).Next? && Step(m, th, c).mem != m
  }

  /** A writer goes on to count an entry more or less. */
  function WriterDone(e: map<Key, Value>, op: Op): Pc {
    var delta := |Effect(op, e)| - |e|;
    if delta != 0 then Counting(delta) else Ready
  }

  lemma WriteOutcome(m: Memory, th: Thread, c: Choice)
    requires Writes(m, th, c)
    ensures var job, o := th.job.value, Step(m, th, c);
            job.tab >= 0 && Index(job.op, job.tab) < Size(m, job.tab) && !Target(m, job).Moved? &&
            (job.tab, Index(job.op, job.tab)) !in m.locks &&
            o.mem == WithBin(m, job.tab, Index(job.op, job.tab), ToBin(Effect(job.op, Entries(Target(m, job))))) &&
            o.thread == Thread(WriterDone(Entries(Target(m, job)), job.op), None) &&
              o.event == Did(job.op, Result(job.op, Entries(Target(m, job))))
  {
    hide Effect, BinIndex;
  }

  lemma WriteStep(s: State, t: nat, c: Choice)
    requires Inv(s) && t in s.threads && Writes(s.mem, s.threads[t], c)
    ensures var o := Step(s.mem, s.threads[t], c); Inv(After(s, t, o.mem, o.thread))
  {
    hide Step, TablesOk, ControlOk, CrewOk, HoldersDiffer, Preserves, HeldKept, BinIndex, Effect, WithBin;
    var m, o, job := s.mem, Step(s.mem, s.threads[t], c), s.threads[t].job.value;
    WriteOutcome(m, s.threads[t], c);
    assert ThreadOk(m, s.threads[t]);
    var b := ToBin(Effect(job.op, Entries(Target(m, job))));
    WriteTables(m, job.op, job.tab, b);
    forall u | u in s.threads && u != t
      ensures HeldKept(m, o.mem, s.threads[u].pc)
    {
      WriteKeepsHeld(m, job.op.key.hash, job.tab, b, s.threads[u].pc);
    }
    StillDiffer(s, t, o.mem, o.thread);
    PreservedStep(s, t, o.mem, o.thread);
  }

  /** A thread that holds no bin does not matter for who holds what. */
  lemma StillDiffer(s: State, t: nat, m': Memory, th: Thread)
    requires HoldersDiffer(s) && !Holding(th.pc)
    ensures HoldersDiffer(After(s, t, m', th))
  {
  }

  /** What moving one bin leaves as it is. */
  predicate MovesOn(m: Memory, th: Thread, o: Outcome)
    requires th.pc.Copy?
  {
    o.Next? ==>
      o.mem.top == m.top && o.mem.ctl == m.ctl && o.mem.count == m.count && o.event.Silent? && o.thread.pc.Copy? &&
      o.thread.pc == th.pc.(at := o.thread.pc.at)
  }

  lemma MoveOutcome(m: Memory, th: Thread, c: Choice, tab: nat, next: int, i: int, at: Point)
    requires th.pc.Copy? && th.pc.i == i && tab in m.bins && next in m.bins && |m.bins[tab]| == Pow2(tab)
    requires 0 <= i < Pow2(tab) <= i + Pow2(tab) < |m.bins[next]|
    ensures MovesOn(m, th, StepMove(m, th, c, tab, next, i, at))
  {
    hide Part, ToBin;
  }

  /** What one turn of the copying loop leaves as it is, unless the thread leaves it. */
  lemma CopyOutcome(m: Memory, th: Thread, c: Choice)
    requires th.pc.Copy? && Step(m, th, c).Next?
    ensures var o := Step(m, th, c);
            o.mem.top == m.top && o.mem.count == m.count && o.event.Silent? &&
            (o.thread.pc.Copy? || o.thread.pc.Install? || o.thread.pc.Ready?) &&
            (o.thread.pc.Copy? ==> o.thread.pc.tab == th.pc.tab) &&
            (th.pc.finishing && !th.pc.at.Leave? ==> IsFinisher(o.thread.pc)) &&
            (!(th.pc.at.Leave? && m.ctl == th.pc.at.ctl) ==> o.mem.ctl == m.ctl)
  {
    hide StepMove, Stamp, BinIndex;
    var Copy(tab, next, i, bound, finishing, at) := th.pc;
    if 0 <= i < Pow2(tab) <= i + Pow2(tab) < |m.bins[next]| {
      MoveOutcome(m, th, c, tab, next, i, at);
    }
  }

  // ---- steps that change who may resize ----

  lemma WordTables(m: Memory, ctl: int, next: int)
    requires TablesOk(m)
    ensures TablesOk(m.(ctl := ctl, next := next))
  {
    var m' := m.(ctl := ctl, next := next);
    assert forall k, i :: BinAt(m', k, i) == BinAt(m, k, i);
    assert forall k :: Size(m', k) == Size(m, k);
    assert forall k :: Placed(m, k) ==> Placed(m', k);
  }

  /** A step of a thread that is alone. */
  lemma AloneStep(s: State, t: nat, m': Memory, th: Thread)
    requires Inv(s) && t in s.threads && Alone(s.mem, s.threads[t].pc) && Grows(s.mem, m')
    requires TablesOk(m') && ControlOk(m') && ThreadOk(m', th) && CrewOk(After(s, t, m', th)) && !Holding(th.pc)
    ensures Inv(After(s, t, m', th))
  {
    hide TablesOk, ControlOk, ThreadOk, Grows, Alone, CrewOk, HoldersDiffer;
    forall u | u in s.threads && u != t
      ensures ThreadOk(m', s.threads[u]) && Bystander(s.threads[u].pc)
    {
      OthersStandBy(s, t, u);
      BystanderKeeps(s.mem, m', s.threads[u]);
    }
    StillDiffer(s, t, m', th);
  }

  lemma WordGrows(m: Memory, m': Memory)
    requires m'.top == m.top && m'.bins == m.bins
    ensures Grows(m, m')
  {
    assert forall k, i :: BinAt(m', k, i) == BinAt(m, k, i);
  }

  // ---- the first table ----

  /** The thread takes the control word to make the first table. */
  predicate TakesWord(m: Memory, pc: Pc) {
    (pc.InitSawCtl? || pc.PresizeSawNone?) && m.ctl == pc.ctl
  }

  lemma TakeWordStep(s: State, t: nat, c: Choice)
    requires Inv(s) && t in s.threads && TakesWord(s.mem, s.threads[t].pc)
    ensures var o := Step(s.mem, s.threads[t], c); o.Next? && Inv(After(s, t, o.mem, o.thread))
  {
    var m, o := s.mem, Step(s.mem, s.threads[t], c);
    assert ThreadOk(m, s.threads[t]);
    hide Step, TablesOk, Grows, LoadFactor, ExponentOf;
    assert o == Quiet(m.(ctl := -1), s.threads[t], o.thread.pc) by { TakeWordOutcome(m, s.threads[t], c); }
    WordTables(m, -1, m.next);
    WordGrows(m, o.mem);
    CrewAfter(s.threads, t, o.thread);
    JobInSameTables(m, o.mem, o.thread);
    AloneStep(s, t, o.mem, o.thread);
  }

  lemma TakeWordOutcome(m: Memory, th: Thread, c: Choice)
    requires TakesWord(m, th.pc)
    ensures var o := Step(m, th, c);
            o == Quiet(m.(ctl := -1), th, if th.pc.InitSawCtl? then InitOwns(th.pc.ctl)
              else PresizeOwns(th.pc.want, th.pc.ctl))
  {
  }

  lemma JobInSameTables(m: Memory, m': Memory, th: Thread)
    requires Grows(m, m') && JobOk(m, th.job)
    ensures JobOk(m', th.job)
  {
  }

  lemma FirstTable(m: Memory, k: nat)
    requires TablesOk(m) && ControlOk(m) && m.ctl == -1 && m.top == -1 && k <= MAX_EXPONENT
    ensures var m' := WithTable(m, k); TablesOk(m') && ControlOk(m') && Grows(m, m') && LoadOf(m') == LoadFactor(k)
  {
    var m' := WithTable(m, k);
    assert forall j :: j !in m.bins;
    assert Size(m', k) == Pow2(k) && forall i :: BinAt(m', k, i).Null?;
    hide LoadFactor;
  }

  lemma MakeOutcome(m: Memory, th: Thread, c: Choice)
    requires (th.pc.InitOwns? || th.pc.PresizeOwns?) && Step(m, th, c).Next?
    ensures var o := Step(m, th, c); o.event == Silent && o.thread.job == th.job && o.thread.pc.InitStores?
    ensures var o := Step(m, th, c); m.top != -1 ==> o.mem == m && o.thread.pc.ctl == th.pc.ctl
    ensures var o, k := Step(m, th, c), if th.pc.InitOwns? then DEFAULT_EXPONENT else th.pc.want;
            m.top == -1 ==> o.mem == WithTable(m, k) && o.thread.pc.ctl == LoadFactor(k)
  {
  }

  lemma MakeStep(s: State, t: nat, c: Choice)
    requires Inv(s) && t in s.threads && Step(s.mem, s.threads[t], c).Next?
    requires s.threads[t].pc.InitOwns? || s.threads[t].pc.PresizeOwns?
    ensures var o := Step(s.mem, s.threads[t], c); Inv(After(s, t, o.mem, o.thread))
  {
    var m, th, o := s.mem, s.threads[t], Step(s.mem, s.threads[t], c);
    assert ThreadOk(m, th);
    MakeOutcome(m, th, c);
    hide Step, TablesOk, Grows, LoadFactor, ExponentOf, WithTable;
    if m.top == -1 {
      FirstTable(m, if th.pc.InitOwns? then DEFAULT_EXPONENT else th.pc.want);
    } else {
      WordGrows(m, m);
    }
    assert o.mem.ctl == -1 by { WithTableWord(m); }
    CrewAfter(s.threads, t, o.thread);
    JobInSameTables(m, o.mem, o.thread);
    AloneStep(s, t, o.mem, o.thread);
  }

  lemma WithTableWord(m: Memory)
    ensures forall k: nat :: WithTable(m, k).ctl == m.ctl && WithTable(m, k).top == k
  {
  }

  lemma StoreWordStep(s: State, t: nat, c: Choice)
    requires Inv(s) && t in s.threads && s.threads[t].pc.InitStores?
    ensures var o := Step(s.mem, s.threads[t], c); o.Next? && Inv(After(s, t, o.mem, o.thread))
  {
    var m, th, o := s.mem, s.threads[t], Step(s.mem, s.threads[t], c);
    assert ThreadOk(m, th);
    assert o.mem == m.(ctl := th.pc.ctl) && o.thread.pc == Ready && o.thread.job == if th.job.None? then None
      else Some(th.job.value.(tab := m.top));
    hide Step, Grows, ExponentOf, MovesOk, UntouchedOk, LocksOk;
    WordTables(m, th.pc.ctl, m.next);
    WordGrows(m, o.mem);
    CrewAfter(s.threads, t, o.thread);
    AloneStep(s, t, o.mem, o.thread);
  }

  // ---- a resize begins ----

  lemma {:induction false} LoadFactorGrows(a: nat, b: nat)
    requires a < b
    ensures 0 < LoadFactor(a) < LoadFactor(b)
  {
    if a + 1 < b {
      LoadFactorGrows(a, b - 1);
    }
    assert LoadFactor(b - 1) < LoadFactor(b) by {
      assert Pow2(b) == 2 * Pow2(b - 1);
    }
  }

  lemma LoadFactorIsPositive(a: nat)
    ensures LoadFactor(a) > 0
  {
  }

  /** A non-negative word that is still there belongs to the table that was read after it. */
  lemma SameTable(m: Memory, ctl: int, tab: int)
    requires ControlOk(m) && ctl >= 0 && m.ctl == ctl && 0 <= tab <= m.top && NotAfter(ctl, tab)
    ensures tab == m.top
  {
    LoadFactorIsPositive(m.top);
    var k: nat :| k <= tab && LoadFactor(k) == ctl;
    if k < m.top {
      LoadFactorGrows(k, m.top);
    }
    hide LoadFactor;
  }

  lemma StartOutcome(m: Memory, th: Thread, c: Choice)
    ensures th.pc.StartCas? && m.ctl == th.pc.ctl ==>
            Step(m, th, c) == Quiet(m.(ctl := Stamp(th.pc.tab) + 2), th, Begin(th.pc.tab))
    ensures th.pc.Begin? && th.pc.tab >= 0 && m.next == -1 ==>
            var new' := th.pc.tab + 1;
            Step(m, th, c) == Quiet(m.(next := new', bins := m.bins[new' := Empty(new')]), th, SetIndex(th.pc.tab))
    ensures th.pc.SetIndex? && th.pc.tab >= 0 ==>
            Step(m, th, c) == Quiet(m.(index := Pow2(th.pc.tab)), th, Copy(th.pc.tab, m.next, 0, 0, false, Advance))
  {
  }

  lemma StartStep(s: State, t: nat, c: Choice)
    requires Inv(s) && t in s.threads && s.threads[t].pc.StartCas? && s.mem.ctl == s.threads[t].pc.ctl
    ensures var o := Step(s.mem, s.threads[t], c); o.Next? && Inv(After(s, t, o.mem, o.thread))
  {
    hide Step, Grows, LoadFactor, TablesOk;
    var m, th, o := s.mem, s.threads[t], Step(s.mem, s.threads[t], c);
    assert ThreadOk(m, th);
    var tab := th.pc.tab;
    StartOutcome(m, th, c);
    SameTable(m, th.pc.ctl, tab);
    WordOfResize(tab, 1);
    hide ExponentOf, Helpers;
    WordTables(m, Stamp(tab) + 2, m.next);
    WordGrows(m, o.mem);
    CrewAfter(s.threads, t, o.thread);
    JobInSameTables(m, o.mem, o.thread);
    AloneStep(s, t, o.mem, o.thread);
  }

  lemma NextTable(m: Memory, tab: nat)
    requires TablesOk(m) && ControlOk(m) && Starting(m, tab) && Helpers(m.ctl) > 0
    ensures var m' := m.(next := tab + 1, bins := m.bins[tab + 1 := Empty(tab + 1)]);
            TablesOk(m') && ControlOk(m') && Grows(m, m') && Resizing(m', tab)
  {
    var new' := tab + 1;
    var m' := m.(next := new', bins := m.bins[new' := Empty(new')]);
    WordOfResize(tab, 1);
    hide ExponentOf, Helpers, LoadFactor, Pow2;
    assert Size(m', new') == Pow2(new') && forall i :: BinAt(m', new', i).Null?;
    assert forall k, i :: k != new' ==> BinAt(m', k, i) == BinAt(m, k, i);
    assert forall k :: k != new' ==> Size(m', k) == Size(m, k);
    hide BinAt, Size;
    assert forall k :: Placed(m, k) && k != new' ==> Placed(m', k);
    assert Placed(m', new');
  }

  /** Nobody but strays takes part in a resize before it has a next table. */
  lemma OthersBeforeBegin(s: State, t: nat, u: nat)
    requires Inv(s) && t in s.threads && u in s.threads && t != u && s.threads[t].pc.Begin?
    ensures var pc := s.threads[u].pc; Bystander(pc) || (pc.Copy? && StrayOk(s.mem, pc))
  {
    hide ExponentOf, TablesOk, MovedFrom, Part, ToBin;
    assert ThreadOk(s.mem, s.threads[t]) && ThreadOk(s.mem, s.threads[u]);
    assert t in Active(s.threads);
    NoFinisher(s, u);
  }

  lemma BeginStep(s: State, t: nat, c: Choice)
    requires Inv(s) && t in s.threads && s.threads[t].pc.Begin?
    ensures var o := Step(s.mem, s.threads[t], c); o.Next? && Inv(After(s, t, o.mem, o.thread))
  {
    hide Step, Grows, TablesOk, ControlOk, ExponentOf, Helpers, StrayOk, Resizing, HoldersDiffer, OneStarter, CopyOk,
      MovedFrom, Empty, Pair, NotAfter, LoadOf;
    var m, th, o := s.mem, s.threads[t], Step(s.mem, s.threads[t], c);
    assert ThreadOk(m, th) && t in Active(s.threads);
    var tab := th.pc.tab;
    StartOutcome(m, th, c);
    NextTable(m, tab);
    CrewAfter(s.threads, t, o.thread);
    JobInSameTables(m, o.mem, o.thread);
    StillDiffer(s, t, o.mem, o.thread);
    StarterStays(s, t, o.mem, o.thread);
    forall u | u in s.threads && u != t
      ensures ThreadOk(o.mem, s.threads[u])
    {
      OthersBeforeBegin(s, t, u);
      NewTableKeeps(m, tab, s.threads[u]);
    }
  }

  lemma NewTableKeeps(m: Memory, tab: nat, th: Thread)
    requires ThreadOk(m, th) && (Bystander(th.pc) || (th.pc.Copy? && StrayOk(m, th.pc)))
    requires Grows(m, m.(next := tab + 1, bins := m.bins[tab + 1 := Empty(tab + 1)]))
    ensures ThreadOk(m.(next := tab + 1, bins := m.bins[tab + 1 := Empty(tab + 1)]), th)
  {
    hide ExponentOf, Helpers, Empty;
    var m' := m.(next := tab + 1, bins := m.bins[tab + 1 := Empty(tab + 1)]);
    if Bystander(th.pc) {
      BystanderKeeps(m, m', th);
    } else {
      StrayKeeps(m, m', th.pc);
    }
  }

  lemma SetIndexStep(s: State, t: nat, c: Choice)
    requires Inv(s) && t in s.threads && s.threads[t].pc.SetIndex?
    ensures var o := Step(s.mem, s.threads[t], c); o.Next? && Inv(After(s, t, o.mem, o.thread))
  {
    hide Step, TablesOk, ControlOk, ExponentOf, Helpers, CrewOk, HoldersDiffer, Preserves, HeldKept, MovedFrom;
    var m, th, o := s.mem, s.threads[t], Step(s.mem, s.threads[t], c);
    assert ThreadOk(m, th);
    StartOutcome(m, th, c);
    AlikeKeeps(m, o.mem);
    AlikeThread(m, o.mem, th);
    AlikePreserves(m, o.mem);
    StillDiffer(s, t, o.mem, o.thread);
    PreservedStep(s, t, o.mem, o.thread);
  }

  lemma AlikePreserves(m: Memory, m': Memory)
    requires Alike(m, m') && TablesOk(m)
    ensures Preserves(m, m')
    ensures forall pc: Pc :: PcOk(m, pc) ==> HeldKept(m, m', pc)
  {
    assert forall k, i :: BinAt(m', k, i) == BinAt(m, k, i);
    assert forall k :: Size(m', k) == Size(m, k);
    hide ExponentOf, Helpers, Part, TablesOk;
  }

  // ---- joining and leaving ----

  /** A change of the number of helpers that leaves at least one. */
  lemma WordStep(s: State, t: nat, m': Memory, th: Thread)
    requires Inv(s) && t in s.threads && m' == s.mem.(ctl := m'.ctl)
    requires s.mem.ctl < -1 && Helpers(s.mem.ctl) > 0
    requires m'.ctl < -1 && ExponentOf(m'.ctl) == ExponentOf(s.mem.ctl) && Helpers(m'.ctl) > 0
    requires ThreadOk(m', th) && !Holding(th.pc) && !th.pc.Begin? && CrewOk(After(s, t, m', th))
    ensures Inv(After(s, t, m', th))
  {
    hide ExponentOf, Helpers, TablesOk, HoldersDiffer, CrewOk, OneStarter;
    StarterStays(s, t, m', th);
    WordTables(s.mem, m'.ctl, s.mem.next);
    WordGrows(s.mem, m');
    forall u | u in s.threads && u != t
      ensures ThreadOk(m', s.threads[u])
    {
      WordKeeps(s, u, m');
    }
    StillDiffer(s, t, m', th);
  }

  lemma WordKeeps(s: State, u: nat, m': Memory)
    requires Inv(s) && u in s.threads && m' == s.mem.(ctl := m'.ctl)
    requires s.mem.ctl < -1 && Helpers(s.mem.ctl) > 0
    requires m'.ctl < -1 && ExponentOf(m'.ctl) == ExponentOf(s.mem.ctl)
    ensures ThreadOk(m', s.threads[u])
  {
    var m, th := s.mem, s.threads[u];
    assert ThreadOk(m, th);
    NoFinisher(s, u);
    WordGrows(m, m');
    assert forall k, i :: BinAt(m', k, i) == BinAt(m, k, i);
    hide ExponentOf, Helpers, TablesOk, Part;
    if Bystander(th.pc) {
      BystanderKeeps(m, m', th);
    } else if th.pc.Copy? {
      if CopyOk(m, th.pc) {
        CopierKeeps(m, m', th.pc);
      } else {
        StrayKeeps(m, m', th.pc);
      }
    }
  }

  lemma NoFinisher(s: State, u: nat)
    requires CrewOk(s) && u in s.threads && s.mem.ctl < -1 && Helpers(s.mem.ctl) > 0
    ensures !IsFinisher(s.threads[u].pc) && !IsMaker(s.threads[u].pc)
  {
    assert u !in Finishers(s.threads) && u !in Makers(s.threads);
  }

  lemma WordArithmetic(ctl: int, k: int)
    ensures ExponentOf(ctl) == k && Helpers(ctl) + 1 < MAX_RESIZERS ==>
            ExponentOf(ctl + 1) == k && Helpers(ctl + 1) == Helpers(ctl) + 1
    ensures ExponentOf(ctl) == k && Helpers(ctl) >= 0 ==>
            ExponentOf(ctl - 1) == k && Helpers(ctl - 1) == Helpers(ctl) - 1
    ensures ExponentOf(ctl) == k ==>
            (Helpers(ctl) == 0 <==> ctl == Stamp(k) + 1) && (Helpers(ctl) == 1 <==> ctl == Stamp(k) + 2)
    ensures ExponentOf(ctl) == k ==>
            Helpers(ctl) < MAX_RESIZERS && (Helpers(ctl) == MAX_RESIZERS - 1 <==> ctl == Stamp(k) + MAX_RESIZERS)
    ensures ctl < -1 && 0 <= k < MAX_EXPONENT && ExponentOf(ctl) == k ==> ctl + 1 < -1
  {
  }

  lemma JoinOutcome(m: Memory, th: Thread, c: Choice)
    requires Joins(m, th.pc)
    ensures Step(m, th, c) == Quiet(m.(ctl := m.ctl + 1), th, Copy(th.pc.tab, th.pc.next, 0, 0, false, Advance))
  {
  }

  /** A thread joins a resize that is not the one of the table it means. */
  predicate Stray(m: Memory, pc: Pc) {
    Joins(m, pc) && !Matched(pc)
  }

  /** A stray joins while the word counts no helper, or as many as it can. */
  predicate Harms(m: Memory, pc: Pc) {
    Stray(m, pc) && !(m.ctl < -1 && 0 < Helpers(m.ctl) < MAX_RESIZERS - 1)
  }

  /** A table that has a next one is not after the table of the word. */
  lemma WordIsLater(m: Memory, tab: int, next: int)
    requires TablesOk(m) && ControlOk(m) && Pair(m, tab, next) && m.ctl < -1
    ensures tab < next <= ExponentOf(m.ctl) + 1
  {
    hide ExponentOf, Helpers, Placed, MovesOk, UntouchedOk, LocksOk;
  }

  /** Whoever joins the resize of its own table finds the next table there; whoever joins a later one
      means a table that has been replaced. */
  lemma JoinedAt(m: Memory, th: Thread)
    requires TablesOk(m) && ControlOk(m) && ThreadOk(m, th) && Joins(m, th.pc) && !Harms(m, th.pc)
    ensures m.ctl + 1 < -1 && 0 < Helpers(m.ctl) < MAX_RESIZERS - 1
    ensures var pc, m' := Copy(th.pc.tab, th.pc.next, 0, 0, false, Advance), m.(ctl := m.ctl + 1);
            CopyOk(m', pc) || StrayOk(m', pc)
  {
    WordIsLater(m, th.pc.tab, th.pc.next);
    WordArithmetic(m.ctl, ExponentOf(m.ctl));
    hide ExponentOf, Helpers, TablesOk, MovedFrom;
  }

  lemma JoinStep(s: State, t: nat, c: Choice)
    requires Inv(s) && t in s.threads && Joins(s.mem, s.threads[t].pc) && !Harms(s.mem, s.threads[t].pc)
    ensures var o := Step(s.mem, s.threads[t], c); o.Next? && Inv(After(s, t, o.mem, o.thread))
  {
    hide Step, ExponentOf, Helpers, TablesOk, ControlOk, CopyOk, StrayOk, Harms, HoldersDiffer, OneStarter, Grows;
    var m, th, o := s.mem, s.threads[t], Step(s.mem, s.threads[t], c);
    assert ThreadOk(m, th);
    JoinOutcome(m, th, c);
    JoinedAt(m, th);
    WordArithmetic(m.ctl, ExponentOf(m.ctl));
    CrewAfter(s.threads, t, o.thread);
    WordGrows(m, o.mem);
    JobInSameTables(m, o.mem, o.thread);
    WordStep(s, t, o.mem, o.thread);
  }

  lemma LeaveOutcome(m: Memory, th: Thread, c: Choice)
    requires th.pc.Copy? && th.pc.at.Leave? && m.ctl == th.pc.at.ctl && Step(m, th, c).Next?
    ensures var tab := th.pc.tab;
            tab >= 0 &&
            Step(m, th, c) == Quiet(m.(ctl := m.ctl - 1), th,
              if m.ctl == Stamp(tab) + 2 then th.pc.(finishing := true, i := Pow2(tab), at := Advance) else Ready)
  {
  }

  /** The thread leaves the copying loop, or stays to finish. */
  ghost predicate Leaves(m: Memory, th: Thread, c: Choice) {
    th.pc.Copy? && th.pc.at.Leave? && m.ctl == th.pc.at.ctl && Step(m, th, c).Next?
  }

  /** A thread stays to finish just when it is the last one, and not a stray. */
  lemma WhoStays(m: Memory, pc: Pc)
    requires pc.Copy? && ControlOk(m) && (CopyOk(m, pc) || StrayOk(m, pc)) && !pc.finishing
    ensures m.ctl == Stamp(pc.tab) + 2 <==> CopyOk(m, pc) && Helpers(m.ctl) == 1
    ensures CopyOk(m, pc) ==> !StrayOk(m, pc)
  {
    hide MovedFrom, Part, ToBin;
    WordIs(m.ctl);
  }

  lemma LastLeaves(s: State, t: nat, c: Choice)
    requires Inv(s) && t in s.threads && Leaves(s.mem, s.threads[t], c) && Helpers(s.mem.ctl) == 1
    ensures var o := Step(s.mem, s.threads[t], c); Inv(After(s, t, o.mem, o.thread))
  {
    hide Step, Stamp, ExponentOf, Helpers, TablesOk, ControlOk, Grows, StrayOk, CopyOk, HoldersDiffer, OneStarter;
    var m, th, o := s.mem, s.threads[t], Step(s.mem, s.threads[t], c);
    assert ThreadOk(m, th);
    NotFinishing(m, th.pc);
    assert t in Active(s.threads);
    LeaveOutcome(m, th, c);
    WhoStays(m, th.pc);
    LastIsReady(m, th.pc);
    WordArithmetic(m.ctl, ExponentOf(m.ctl));
    CrewAfter(s.threads, t, o.thread);
    WordGrows(m, o.mem);
    JobInSameTables(m, o.mem, o.thread);
    WordTables(m, o.mem.ctl, m.next);
    AloneStep(s, t, o.mem, o.thread);
  }

  /** The word comes to count no helper, and the thread that stays begins its sweep. */
  lemma LastIsReady(m: Memory, pc: Pc)
    requires TablesOk(m) && ControlOk(m) && pc.Copy? && (CopyOk(m, pc) || StrayOk(m, pc)) && !pc.finishing
    requires m.ctl < -1 && Helpers(m.ctl) == 1
    ensures ControlOk(m.(ctl := m.ctl - 1))
    ensures m.ctl == Stamp(pc.tab) + 2 ==>
      CopyOk(m.(ctl := m.ctl - 1), pc.(finishing := true, i := Pow2(pc.tab), at := Advance))
  {
    hide TablesOk, Stamp, ExponentOf, Helpers, Part, ToBin;
    WhoStays(m, pc);
    WordArithmetic(m.ctl, ExponentOf(m.ctl));
    SizeOfTop(m);
  }

  lemma NotFinishing(m: Memory, pc: Pc)
    requires PcOk(m, pc) && pc.Copy? && pc.at.Leave?
    ensures !pc.finishing && m.ctl < -1 && m.top >= 0
  {
    hide MovedFrom, ExponentOf, Helpers;
  }

  lemma OneLeaves(s: State, t: nat, c: Choice)
    requires Inv(s) && t in s.threads && Leaves(s.mem, s.threads[t], c) && Helpers(s.mem.ctl) > 1
    ensures var o := Step(s.mem, s.threads[t], c); Inv(After(s, t, o.mem, o.thread))
  {
    hide Step, Stamp, ExponentOf, Helpers, TablesOk, Grows, StrayOk, CopyOk, HoldersDiffer, OneStarter;
    var m, th, o := s.mem, s.threads[t], Step(s.mem, s.threads[t], c);
    assert ThreadOk(m, th);
    NotFinishing(m, th.pc);
    LeaveOutcome(m, th, c);
    WhoStays(m, th.pc);
    WordArithmetic(m.ctl, ExponentOf(m.ctl));
    CrewAfter(s.threads, t, o.thread);
    WordGrows(m, o.mem);
    JobInSameTables(m, o.mem, o.thread);
    WordStep(s, t, o.mem, o.thread);
  }

  /** Every thread but the last leaves; the last one stays to finish, if it is not a stray. */
  lemma LeaveStep(s: State, t: nat, c: Choice)
    requires Inv(s) && t in s.threads && Leaves(s.mem, s.threads[t], c)
    ensures var o := Step(s.mem, s.threads[t], c); Inv(After(s, t, o.mem, o.thread))
  {
    hide Step, ExponentOf, Helpers, TablesOk, ControlOk, HoldersDiffer, OneStarter, CopyOk, StrayOk;
    assert ThreadOk(s.mem, s.threads[t]);
    NotFinishing(s.mem, s.threads[t].pc);
    assert t in Active(s.threads);
    if Helpers(s.mem.ctl) == 1 {
      LastLeaves(s, t, c);
    } else {
      OneLeaves(s, t, c);
    }
  }

  lemma SizeOfTop(m: Memory)
    requires TablesOk(m) && m.top >= 0
    ensures m.top in m.bins && Size(m, m.top) == Pow2(m.top)
  {
  }

  // ---- the last thread commits ----

  /** The sweep of the last thread is over. */
  predicate SweptOut(m: Memory, pc: Pc) {
    pc.Copy? && pc.at.Decide? && pc.finishing && pc.i < 0
  }

  lemma CommitOutcome(m: Memory, th: Thread, c: Choice)
    requires Step(m, th, c).Next?
    ensures SweptOut(m, th.pc) ==> Step(m, th, c) == Quiet(m.(next := -1), th, Install(th.pc.tab, th.pc.next))
    ensures th.pc.Install? ==> Step(m, th, c) == Quiet(m.(top := th.pc.next), th, Release(th.pc.tab))
    ensures th.pc.Release? ==>
            th.pc.tab >= 0 && Step(m, th, c) == Quiet(m.(ctl := LoadFactor(th.pc.tab + 1)), th, Ready)
  {
    if th.pc.Release? && th.pc.tab >= 0 {
      assert Pow2(th.pc.tab + 1) == 2 * Pow2(th.pc.tab);
    }
  }

  lemma ClearStep(s: State, t: nat, c: Choice)
    requires Inv(s) && t in s.threads && Step(s.mem, s.threads[t], c).Next? && SweptOut(s.mem, s.threads[t].pc)
    ensures var o := Step(s.mem, s.threads[t], c); Inv(After(s, t, o.mem, o.thread))
  {
    hide Step, ExponentOf, Helpers, TablesOk;
    var m, th, o := s.mem, s.threads[t], Step(s.mem, s.threads[t], c);
    assert ThreadOk(m, th);
    CommitOutcome(m, th, c);
    WordArithmetic(m.ctl, th.pc.tab);
    CrewAfter(s.threads, t, o.thread);
    WordGrows(m, o.mem);
    WordTables(m, m.ctl, -1);
    JobInSameTables(m, o.mem, o.thread);
    assert forall j :: BinAt(o.mem, th.pc.tab, j) == BinAt(m, th.pc.tab, j);
    AloneStep(s, t, o.mem, o.thread);
  }

  /** The next table becomes the current one when all bins have been moved to it. */
  lemma InstallTables(m: Memory, tab: nat)
    requires TablesOk(m) && m.top == tab < MAX_EXPONENT && tab + 1 in m.bins && MovedFrom(m, tab, 0)
    ensures var m' := m.(top := tab + 1); TablesOk(m') && Grows(m, m') && tab + 2 !in m'.bins
  {
    var m', next := m.(top := tab + 1), tab + 1;
    assert forall k, i :: BinAt(m', k, i) == BinAt(m, k, i);
    assert forall k :: Size(m', k) == Size(m, k);
    assert forall k :: Placed(m, k) ==> Placed(m', k);
    SizeOfTop(m);
    assert BinAt(m, tab, 0).Moved?;
    assert tab in m.forward;
    hide Placed, BinAt, Size;
    assert MovedFrom(m', tab, 0) && NoneMoved(m', next);
    forall l | l in m.locks
      ensures false
    {
      assert LockOk(m, l);
      LockInRange(m, l);
    }
  }

  lemma LockInRange(m: Memory, l: (int, int))
    requires LockOk(m, l)
    ensures 0 <= l.1 < Size(m, m.top)
  {
  }

  lemma InstallStep(s: State, t: nat, c: Choice)
    requires Inv(s) && t in s.threads && Step(s.mem, s.threads[t], c).Next? && s.threads[t].pc.Install?
    ensures var o := Step(s.mem, s.threads[t], c); Inv(After(s, t, o.mem, o.thread))
  {
    hide Step, ExponentOf, Helpers, TablesOk;
    var m, th, o := s.mem, s.threads[t], Step(s.mem, s.threads[t], c);
    assert ThreadOk(m, th);
    CommitOutcome(m, th, c);
    WordArithmetic(m.ctl, th.pc.tab);
    CrewAfter(s.threads, t, o.thread);
    InstallTables(m, th.pc.tab);
    JobInSameTables(m, o.mem, o.thread);
    WordOfResize(th.pc.tab, 0);
    AloneStep(s, t, o.mem, o.thread);
  }

  lemma ReleaseStep(s: State, t: nat, c: Choice)
    requires Inv(s) && t in s.threads && Step(s.mem, s.threads[t], c).Next? && s.threads[t].pc.Release?
    ensures var o := Step(s.mem, s.threads[t], c); Inv(After(s, t, o.mem, o.thread))
  {
    hide Step, ExponentOf, Helpers, TablesOk, LoadFactor;
    var m, th, o := s.mem, s.threads[t], Step(s.mem, s.threads[t], c);
    assert ThreadOk(m, th);
    CommitOutcome(m, th, c);
    WordOfResize(th.pc.tab, 0);
    CrewAfter(s.threads, t, o.thread);
    WordGrows(m, o.mem);
    WordTables(m, o.mem.ctl, m.next);
    JobInSameTables(m, o.mem, o.thread);
    assert t in Finishers(s.threads);
    AloneStep(s, t, o.mem, o.thread);
  }
}
