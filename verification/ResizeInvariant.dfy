/** What every step of the concurrent hash map keeps (src/chashmap/map.rs). */
module ResizeInvariant {
  import opened Options
  import opened Bits
  import opened ResizeModel

  datatype State = State(mem: Memory, threads: map<nat, Thread>)

  // ---- the control word ----

  lemma WordOfResize(k: int, helpers: int)
    requires 0 <= helpers < MAX_RESIZERS
    ensures ExponentOf(Stamp(k) + 1 + helpers) == k && Helpers(Stamp(k) + 1 + helpers) == helpers
  {
  }

  lemma WordIs(ctl: int)
    ensures ctl == Stamp(ExponentOf(ctl)) + 1 + Helpers(ctl)
    ensures -1 <= Helpers(ctl) < MAX_RESIZERS
  {
  }

  /** The word `ctl` was not written by a resize of a table after `tab`, nor after its end. */
  ghost predicate NotAfter(ctl: int, tab: int) {
    (ctl < -1 ==> ExponentOf(ctl) <= tab) && (ctl > 0 ==> exists k: nat :: k <= tab && LoadFactor(k) == ctl)
  }

  // ---- tables ----

  function Size(m: Memory, k: int): nat {
    if k in m.bins then |m.bins[k]| else 0
  }

  function BinAt(m: Memory, k: int, i: int): Bin {
    if k in m.bins && 0 <= i < |m.bins[k]| then m.bins[k][i] else Null
  }

  /** All bins of table `k` from `i` on have been moved. */
  ghost predicate MovedFrom(m: Memory, k: int, i: int) {
    forall j :: 0 <= j < Size(m, k) && i <= j ==> BinAt(m, k, j).Moved?
  }

  ghost predicate NoneMoved(m: Memory, k: int) {
    forall j :: 0 <= j < Size(m, k) ==> !BinAt(m, k, j).Moved?
  }

  /** Table `k` has its size, and its keys are in their bins. */
  ghost predicate Placed(m: Memory, k: int) {
    k >= 0 && Size(m, k) == Pow2(k) &&
    forall i, key :: 0 <= i < Size(m, k) && key in Entries(BinAt(m, k, i)) ==> BinIndex(key.hash, k) == i
  }

  /** The bins of the next table that bin `i` goes to are empty. */
  ghost predicate Untouched(m: Memory, i: int) {
    BinAt(m, m.top + 1, i).Null? && BinAt(m, m.top + 1, i + Size(m, m.top)).Null?
  }

  /** A bin whose lock is held between steps. */
  ghost predicate LockOk(m: Memory, l: (int, int)) {
    l.0 == m.top && BinAt(m, m.top, l.1).Full?
  }

  ghost predicate ShapeOk(m: Memory) {
    -1 <= m.top <= MAX_EXPONENT && (m.top >= 0 ==> m.top in m.bins) &&
    (m.top + 1 in m.bins ==> 0 <= m.top < MAX_EXPONENT) &&
    (forall k :: k in m.bins ==> k <= m.top + 1 && Placed(m, k)) &&
    (forall k :: k in m.forward ==> m.forward[k] == k + 1 && k in m.bins && k + 1 in m.bins)
  }

  /** Tables before the current one have been moved, those after it not. */
  ghost predicate MovesOk(m: Memory) {
    (forall k :: k in m.bins && k < m.top ==> MovedFrom(m, k, 0) && k in m.forward) &&
    (m.top !in m.forward ==> NoneMoved(m, m.top)) && NoneMoved(m, m.top + 1)
  }

  ghost predicate UntouchedOk(m: Memory) {
    forall i :: 0 <= i < Size(m, m.top) && !BinAt(m, m.top, i).Moved? && (m.top, i) !in m.locks ==> Untouched(m, i)
  }

  ghost predicate LocksOk(m: Memory) {
    forall l :: l in m.locks ==> LockOk(m, l)
  }

  ghost predicate TablesOk(m: Memory) {
    ShapeOk(m) && MovesOk(m) && UntouchedOk(m) && LocksOk(m)
  }

  /** The number of entries that the current table is resized at; no table counts as 0. */
  function LoadOf(m: Memory): int {
    if m.top < 0 then 0 else LoadFactor(m.top)
  }

  ghost predicate ControlOk(m: Memory) {
    (m.next == -1 || (m.next == m.top + 1 && m.next in m.bins)) &&
    (if m.ctl >= -1 then
       m.next == -1 && m.top + 1 !in m.bins && (m.ctl >= 0 ==> m.ctl == LoadOf(m))
     else
       var k, helpers := ExponentOf(m.ctl), Helpers(m.ctl);
       0 <= k < MAX_EXPONENT && 0 <= helpers && (m.top == k || (m.top == k + 1 && helpers == 0 && k + 2 !in m.bins)) &&
       (helpers > 0 && k + 1 in m.bins ==> m.next == k + 1))
  }

  // ---- threads ----

  /** A resize of `tab` is filling its next table. */
  ghost predicate Resizing(m: Memory, tab: int) {
    0 <= tab < MAX_EXPONENT && m.ctl < -1 && ExponentOf(m.ctl) == tab && m.top == tab && m.next == tab + 1 &&
      tab + 1 in m.bins
  }

  /** A resize of `tab` has been announced, and has no next table yet. */
  ghost predicate Starting(m: Memory, tab: int) {
    0 <= tab < MAX_EXPONENT && m.ctl < -1 && ExponentOf(m.ctl) == tab && m.top == tab && m.next == -1 &&
      tab + 1 !in m.bins
  }

  predicate Holding(pc: Pc) {
    pc.Copy? && (pc.at.Locked? || pc.at.LowStored? || pc.at.HighStored? || pc.at.Forwarded?)
  }

  /** Half of what bin `i` of `tab` holds, as it is stored in the next table. */
  function Share(m: Memory, tab: nat, i: int, high: bool): Bin {
    ToBin(Part(Entries(BinAt(m, tab, i)), tab, high))
  }

  /** What a thread in the copying loop has done so far. */
  ghost predicate CopyOk(m: Memory, pc: Pc)
    requires pc.Copy?
  {
    var Copy(tab, next, i, bound, finishing, at) := pc;
    Resizing(m, tab) && next == tab + 1 &&
    (finishing ==>
      m.ctl == Stamp(tab) + 1 && !at.Claim? && !at.Leave? && i < (if at.Advance? then Pow2(tab) + 1 else Pow2(tab)) &&
      MovedFrom(m, tab, if at.Advance? then i else i + 1)) &&
    (!(at.Advance? || at.Claim? || at.Decide? || at.Leave?) ==> 0 <= i < Pow2(tab)) &&
    (at.NullForwarded? || at.Forwarded? ==> tab in m.forward) &&
    (Holding(pc) ==> (tab, i) in m.locks) &&
    (at.LowStored? || at.HighStored? || at.Forwarded? ==> BinAt(m, tab + 1, i) == Share(m, tab, i, false)) &&
    (at.HighStored? || at.Forwarded? ==> BinAt(m, tab + 1, i + Pow2(tab)) == Share(m, tab, i, true))
  }

  /** A thread in the copying loop of a table that has been replaced: it finds nothing there to do,
      and the word that counts it is that of a later resize. */
  ghost predicate StrayOk(m: Memory, pc: Pc)
    requires pc.Copy?
  {
    0 <= pc.tab < m.top && pc.tab in m.bins && pc.next in m.bins && m.ctl < -1 && pc.tab < ExponentOf(m.ctl) &&
    !pc.finishing && (pc.at.Advance? || pc.at.Claim? || pc.at.Decide? || pc.at.Leave?)
  }

  /** A table that was current, and the one after it. */
  ghost predicate Pair(m: Memory, tab: int, next: int) {
    0 <= tab <= m.top && tab in m.bins && tab < next <= m.top + 1 && next in m.bins
  }

  ghost predicate PcOk(m: Memory, pc: Pc) {
    match pc
    case Ready => true
    case InitSawNone => true
    case InitSawCtl(ctl) => ctl >= 0
    case InitOwns(ctl) => m.ctl == -1 && ctl == LoadOf(m)
    case InitStores(ctl) => m.ctl == -1 && m.top >= 0 && ctl == LoadOf(m)
    case PresizeSawCtl(want, ctl) => want <= MAX_EXPONENT && ctl >= 0 && NotAfter(ctl, m.top)
    case PresizeSawNone(want, ctl) => want <= MAX_EXPONENT && ctl >= 0
    case PresizeOwns(want, ctl) => want <= MAX_EXPONENT && m.ctl == -1 && ctl == LoadOf(m)
    case PresizeSawTable(want, ctl, tab) => ctl >= 0 && 0 <= tab <= m.top && tab < MAX_EXPONENT && NotAfter(ctl, tab)
    case StartCas(ctl, tab) => ctl >= 0 && 0 <= tab <= m.top && tab < MAX_EXPONENT && NotAfter(ctl, tab)
    case Counting(_) => true
    case CountReady => true
    case CountSawCtl(ctl) => NotAfter(ctl, m.top)
    case CountSawTable(ctl, tab) => 0 <= tab <= m.top && tab < MAX_EXPONENT && tab in m.bins && NotAfter(ctl, tab)
    case CountSawNext(ctl, tab, next) => ctl < 0 && !Closed(ctl, tab) && Pair(m, tab, next)
    case JoinCas(ctl, tab, next) => ctl < 0 && !Closed(ctl, tab) && Pair(m, tab, next)
    case HelpNext(tab, next) => Pair(m, tab, next)
    case HelpTable(tab, next) => Pair(m, tab, next)
    case HelpCtl(tab, next) => Pair(m, tab, next)
    case HelpIndex(ctl, tab, next) => ctl < 0 && !Closed(ctl, tab) && Pair(m, tab, next)
    case Begin(tab) => Starting(m, tab)
    case SetIndex(tab) => Resizing(m, tab)
    case Copy(_, _, _, _, _, _) => CopyOk(m, pc) || StrayOk(m, pc)
    case Install(tab, next) =>
      0 <= tab < MAX_EXPONENT && m.ctl == Stamp(tab) + 1 && m.top == tab && next == tab + 1 && next in m.bins &&
        m.next == -1 &&
      MovedFrom(m, tab, 0)
    case Release(tab) =>
      0 <= tab < MAX_EXPONENT && m.ctl == Stamp(tab) + 1 && m.top == tab + 1 && tab + 2 !in m.bins && m.next == -1
  }

  /** An operation has got to a table where its key may be: if the table is not current yet, the
      bin of the key in the current one has been moved. */
  ghost predicate JobOk(m: Memory, job: Option<Job>) {
    job.Some? && job.value.tab != -1 ==> Reaches(m, job.value.op.key.hash, job.value.tab)
  }

  ghost predicate Reaches(m: Memory, hash: nat, tab: int) {
    0 <= tab && tab in m.bins && (tab <= m.top || (tab == m.top + 1 && m.top >= 0 &&
      BinAt(m, m.top, BinIndex(hash, m.top)).Moved?))
  }

  ghost predicate ThreadOk(m: Memory, th: Thread) {
    PcOk(m, th.pc) && JobOk(m, th.job)
  }

  // ---- the crew of a resize ----

  predicate IsActive(pc: Pc) {
    pc.Begin? || pc.SetIndex? || (pc.Copy? && !pc.finishing)
  }

  predicate IsFinisher(pc: Pc) {
    (pc.Copy? && pc.finishing) || pc.Install? || pc.Release?
  }

  predicate IsMaker(pc: Pc) {
    pc.InitOwns? || pc.InitStores? || pc.PresizeOwns?
  }

  function Active(ths: map<nat, Thread>): set<nat> {
    set t | t in ths && IsActive(ths[t].pc)
  }

  function Finishers(ths: map<nat, Thread>): set<nat> {
    set t | t in ths && IsFinisher(ths[t].pc)
  }

  function Makers(ths: map<nat, Thread>): set<nat> {
    set t | t in ths && IsMaker(ths[t].pc)
  }

  /** The control word counts the threads in a resize, and when it counts none, one may be left over
      to finish it. */
  ghost predicate CrewOk(s: State) {
    var ctl := s.mem.ctl;
    |Active(s.threads)| == (if ctl < -1 then Helpers(ctl) else 0) &&
    |Finishers(s.threads)| <= (if ctl < -1 && Helpers(ctl) == 0 then 1 else 0) &&
    |Makers(s.threads)| == (if ctl == -1 then 1 else 0)
  }

  /** No two threads hold the same bin. */
  ghost predicate HoldersDiffer(s: State) {
    forall t, u ::
      t in s.threads && u in s.threads && t != u && Holding(s.threads[t].pc) && Holding(s.threads[u].pc) ==>
      s.threads[t].pc.i != s.threads[u].pc.i
  }

  /** No two threads begin a resize. */
  ghost predicate OneStarter(s: State) {
    forall t, u :: t in s.threads && u in s.threads && s.threads[t].pc.Begin? && s.threads[u].pc.Begin? ==> t == u
  }

  ghost predicate Inv(s: State) {
    TablesOk(s.mem) && ControlOk(s.mem) && CrewOk(s) && HoldersDiffer(s) && OneStarter(s) &&
    forall t :: t in s.threads ==> ThreadOk(s.mem, s.threads[t])
  }

  // ---- the parts of a step ----

  /** A thread outside the crew of a resize. */
  predicate Bystander(pc: Pc) {
    !IsActive(pc) && !IsFinisher(pc) && !IsMaker(pc)
  }

  function After(s: State, t: nat, m: Memory, th: Thread): State {
    State(m, s.threads[t := th])
  }

  function One(b: bool): int {
    if b then 1 else 0
  }

  lemma CountAfter(a: set<nat>, a': set<nat>, t: nat, now: bool)
    requires a' == if now then a + {t} else a - {t}
    ensures |a'| == |a| + One(now) - One(t in a)
  {
  }

  lemma ActiveAfter(ths: map<nat, Thread>, t: nat, th: Thread)
    requires t in ths
    ensures |Active(ths[t := th])| == |Active(ths)| + One(IsActive(th.pc)) - One(IsActive(ths[t].pc))
  {
    hide IsActive;
    assert Active(ths[t := th]) == if IsActive(th.pc) then Active(ths) + {t} else Active(ths) - {t};
    CountAfter(Active(ths), Active(ths[t := th]), t, IsActive(th.pc));
  }

  lemma FinishersAfter(ths: map<nat, Thread>, t: nat, th: Thread)
    requires t in ths
    ensures |Finishers(ths[t := th])| == |Finishers(ths)| + One(IsFinisher(th.pc)) - One(IsFinisher(ths[t].pc))
  {
    hide IsFinisher;
    assert Finishers(ths[t := th]) == if IsFinisher(th.pc) then Finishers(ths) + {t} else Finishers(ths) - {t};
    CountAfter(Finishers(ths), Finishers(ths[t := th]), t, IsFinisher(th.pc));
  }

  lemma MakersAfter(ths: map<nat, Thread>, t: nat, th: Thread)
    requires t in ths
    ensures |Makers(ths[t := th])| == |Makers(ths)| + One(IsMaker(th.pc)) - One(IsMaker(ths[t].pc))
  {
    hide IsMaker;
    assert Makers(ths[t := th]) == if IsMaker(th.pc) then Makers(ths) + {t} else Makers(ths) - {t};
    CountAfter(Makers(ths), Makers(ths[t := th]), t, IsMaker(th.pc));
  }

  lemma CrewAfter(ths: map<nat, Thread>, t: nat, th: Thread)
    requires t in ths
    ensures var ths', pc, pc' := ths[t := th], ths[t].pc, th.pc;
            |Active(ths')| == |Active(ths)| + One(IsActive(pc')) - One(IsActive(pc)) &&
            |Finishers(ths')| == |Finishers(ths)| + One(IsFinisher(pc')) - One(IsFinisher(pc)) &&
            |Makers(ths')| == |Makers(ths)| + One(IsMaker(pc')) - One(IsMaker(pc))
  {
    hide IsActive, IsFinisher, IsMaker, Active, Finishers, Makers, One;
    ActiveAfter(ths, t, th);
    FinishersAfter(ths, t, th);
    MakersAfter(ths, t, th);
  }

  lemma OnlyOne(a: set<nat>, t: nat, u: nat)
    requires |a| <= 1 && t in a && u in a
    ensures t == u
  {
    if t != u {
      assert |a - {t}| >= |{u}| by { assert {u} <= a - {t}; Contained({u}, a - {t}); }
    }
  }

  lemma {:induction false} Contained(a: set<nat>, b: set<nat>)
    requires a <= b
    ensures |a| <= |b|
  {
    if a != {} {
      var x :| x in a;
      Contained(a - {x}, b - {x});
    }
  }

  /** Where one thread has the resize, or the first table, to itself. */
  predicate Alone(m: Memory, pc: Pc) {
    m.ctl >= 0 || IsFinisher(pc) || IsMaker(pc) || (IsActive(pc) && Helpers(m.ctl) == 1)
  }

  /** What the word says where a thread is alone. */
  lemma AloneWord(m: Memory, pc: Pc)
    requires PcOk(m, pc) && Alone(m, pc)
    ensures IsFinisher(pc) ==> m.ctl < -1 && Helpers(m.ctl) == 0
    ensures IsActive(pc) ==> m.ctl < -1
    ensures IsMaker(pc) ==> m.ctl == -1
  {
    hide MovedFrom, Share, BinAt, NotAfter, Pair, LoadOf, Closed;
  }

  /** When a thread is alone, the others are bystanders. */
  lemma OthersStandBy(s: State, t: nat, u: nat)
    requires Inv(s) && t in s.threads && u in s.threads && t != u && Alone(s.mem, s.threads[t].pc)
    ensures Bystander(s.threads[u].pc)
  {
    hide TablesOk, ControlOk, HoldersDiffer, OneStarter, PcOk, JobOk, Helpers, IsActive, IsFinisher, IsMaker;
    var pc, pc' := s.threads[t].pc, s.threads[u].pc;
    assert ThreadOk(s.mem, s.threads[t]);
    AloneWord(s.mem, pc);
    if IsActive(pc') {
      assert u in Active(s.threads);
      if IsActive(pc) {
        OnlyOne(Active(s.threads), t, u);
      }
    }
    if IsFinisher(pc') {
      assert u in Finishers(s.threads);
      if IsFinisher(pc) {
        OnlyOne(Finishers(s.threads), t, u);
      }
    }
    if IsMaker(pc') {
      assert u in Makers(s.threads);
      if IsMaker(pc) {
        OnlyOne(Makers(s.threads), t, u);
      }
    }
  }

  // ---- what others keep ----

  /** Tables only get more, and moved bins stay moved. */
  ghost predicate Grows(m: Memory, m': Memory) {
    m.top <= m'.top && m.bins.Keys <= m'.bins.Keys &&
    (forall hash, tab: int :: Reaches(m, hash, tab) ==> Reaches(m', hash, tab))
  }

  lemma BystanderKeeps(m: Memory, m': Memory, th: Thread)
    requires ThreadOk(m, th) && Bystander(th.pc) && Grows(m, m')
    ensures ThreadOk(m', th)
  {
    match th.pc
    case PresizeSawCtl(_, ctl) => LaterIsAfter(ctl, m.top, m'.top);
    case CountSawCtl(ctl) => LaterIsAfter(ctl, m.top, m'.top);
    case _ =>
  }

  lemma LaterIsAfter(ctl: int, tab: int, tab': int)
    requires NotAfter(ctl, tab) && tab <= tab'
    ensures NotAfter(ctl, tab')
  {
    if ctl > 0 {
      var k: nat :| k <= tab && LoadFactor(k) == ctl;
      assert k <= tab' && LoadFactor(k) == ctl;
    }
  }

  /** The bins that a copier works on, and the word of its resize, are left alone. */
  ghost predicate LeavesCopier(m: Memory, m': Memory, pc: Pc)
    requires pc.Copy?
  {
    Resizing(m', pc.tab) && (pc.finishing ==> m'.ctl == m.ctl) && Size(m', pc.tab) == Size(m, pc.tab) &&
    (forall j :: BinAt(m, pc.tab, j).Moved? ==> BinAt(m', pc.tab, j).Moved?) &&
    (pc.tab in m.forward ==> pc.tab in m'.forward) &&
    (Holding(pc) ==>
      (pc.tab, pc.i) in m'.locks && BinAt(m', pc.tab, pc.i) == BinAt(m, pc.tab, pc.i) &&
      BinAt(m', pc.tab + 1, pc.i) == BinAt(m, pc.tab + 1, pc.i) &&
      (pc.tab >= 0 ==> BinAt(m', pc.tab + 1, pc.i + Pow2(pc.tab)) == BinAt(m, pc.tab + 1, pc.i + Pow2(pc.tab))))
  }

  lemma CopierKeeps(m: Memory, m': Memory, pc: Pc)
    requires pc.Copy? && CopyOk(m, pc) && LeavesCopier(m, m', pc)
    ensures CopyOk(m', pc)
  {
  }

  lemma StrayKeeps(m: Memory, m': Memory, pc: Pc)
    requires pc.Copy? && StrayOk(m, pc) && m.top <= m'.top && m.bins.Keys <= m'.bins.Keys
    requires m'.ctl < -1 && ExponentOf(m'.ctl) == ExponentOf(m.ctl)
    ensures StrayOk(m', pc)
  {
    hide ExponentOf;
  }
}
