/** The concurrent hash map is a map: what its operations do, in any interleaving with each other
    and with a resize, is what they do one after the other to one map
    (src/chashmap/map.rs, src/chashmap/raw/mod.rs). */
module ResizeMap {
  import opened Bits
  import opened Options
  import opened ResizeCopying
  import opened ResizeInvariant
  import opened ResizeModel
  import opened ResizeProtocol
  import opened ResizeSteps
  import opened Values

  // ---- looking a key up ----

  /** What a search for `key` that starts at table `tab`, and follows moved bins, finds. */
  ghost function Find(m: Memory, tab: int, key: Key): Option<Value>
    decreases MAX_EXPONENT + 1 - tab
  {
    if tab < 0 then None
    else
      var b := BinAt(m, tab, BinIndex(key.hash, tab));
      if b.Moved? then if tab > MAX_EXPONENT then None else Find(m, tab + 1, key)
      else At(Entries(b), key)
  }

  /** The memory holds the map `view`. */
  ghost predicate Abstracts(m: Memory, view: map<Key, Value>) {
    forall key :: Find(m, m.top, key) == At(view, key)
  }

  /** What the current table and the next one say of `key`. */
  ghost function Seen(m: Memory, key: Key): Option<Value> {
    if m.top < 0 then None
    else
      var b := BinAt(m, m.top, BinIndex(key.hash, m.top));
      At(Entries(if b.Moved? then BinAt(m, m.top + 1, BinIndex(key.hash, m.top + 1)) else b), key)
  }

  lemma FindIsSeen(m: Memory, key: Key)
    requires TablesOk(m)
    ensures Find(m, m.top, key) == Seen(m, key)
  {
    if m.top >= 0 {
      SizeOfTop(m);
      SplitIndex(key.hash, m.top);
      NextNotMoved(m, BinIndex(key.hash, m.top + 1));
    }
    hide BinIndex, TablesOk, BinAt;
  }

  lemma NextNotMoved(m: Memory, i: int)
    requires TablesOk(m)
    ensures !BinAt(m, m.top + 1, i).Moved?
  {
    hide Placed, UntouchedOk, LocksOk;
    if m.top + 1 in m.bins && 0 <= i < Size(m, m.top + 1) {
      assert NoneMoved(m, m.top + 1);
    }
  }

  /** A search may start at any table that an operation may have got to. */
  lemma {:induction false} FindFromAnywhere(m: Memory, tab: int, key: Key)
    requires TablesOk(m) && Reaches(m, key.hash, tab)
    ensures Find(m, tab, key) == Find(m, m.top, key)
    decreases m.top - tab
  {
    hide UntouchedOk, LocksOk, BinIndex, Placed;
    if tab < m.top {
      PlacedSize(m, tab);
      SplitIndex(key.hash, tab);
      assert MovedFrom(m, tab, 0);
      FindFromAnywhere(m, tab + 1, key);
    }
  }

  // ---- operations ----

  lemma EffectAt(op: Op, a: map<Key, Value>, b: map<Key, Value>)
    requires At(a, op.key) == At(b, op.key)
    ensures Result(op, a) == Result(op, b) && At(Effect(op, a), op.key) == At(Effect(op, b), op.key)
    ensures forall key :: key != op.key ==> At(Effect(op, a), key) == At(a, key)
  {
  }

  lemma UpdateSize(m: map<Key, Value>, key: Key, value: Value)
    ensures |m[key := value]| == |m| + One(key !in m) && |m - {key}| == |m| - One(key in m)
  {
    assert m[key := value].Keys == m.Keys + {key} && (m - {key}).Keys == m.Keys - {key};
  }

  lemma EffectSize(op: Op, m: map<Key, Value>)
    ensures |Effect(op, m)| - |m| == One(At(Effect(op, m), op.key).Some?) - One(At(m, op.key).Some?)
  {
    match op
    case Get(_) =>
    case Put(key, value, _) => UpdateSize(m, key, value);
    case Replace(key, new', _) =>
      if key in m {
        UpdateSize(m, key, if new'.Some? then new'.value else m[key]);
      }
  }

  /** The map after an event. */
  function Later(e: Event, view: map<Key, Value>): map<Key, Value> {
    if e.Silent? then view else Effect(e.op, view)
  }

  /** The event returns what it would return from `view`. */
  predicate Right(e: Event, view: map<Key, Value>) {
    e.Did? ==> e.result == Result(e.op, view)
  }

  lemma SeenIsView(m: Memory, view: map<Key, Value>)
    requires TablesOk(m)
    ensures Abstracts(m, view) <==> forall key :: Seen(m, key) == At(view, key)
  {
    forall key
      ensures Find(m, m.top, key) == Seen(m, key)
    {
      FindIsSeen(m, key);
    }
    hide TablesOk, Find, Seen;
  }

  // ---- what each step does to the map ----

  /** The step leaves what is seen of every key. */
  ghost predicate LooksSame(m: Memory, m': Memory) {
    forall key :: Seen(m', key) == Seen(m, key)
  }

  /** A step that changes no bin. */
  lemma SameBinsLookSame(m: Memory, m': Memory)
    requires m'.bins == m.bins && m'.top == m.top
    ensures LooksSame(m, m')
  {
    SameBins(m, m');
  }

  lemma FirstTableLooksSame(m: Memory, k: nat)
    requires m.top == -1 && TablesOk(m) && m.top + 1 !in m.bins
    ensures LooksSame(m, WithTable(m, k))
  {
    assert forall i :: BinAt(WithTable(m, k), k, i).Null?;
    hide BinIndex;
  }

  lemma NextTableLooksSame(m: Memory)
    requires TablesOk(m) && m.top >= 0 && m.top + 1 !in m.bins
    ensures LooksSame(m, m.(next := m.top + 1, bins := m.bins[m.top + 1 := Empty(m.top + 1)]))
  {
    var m' := m.(next := m.top + 1, bins := m.bins[m.top + 1 := Empty(m.top + 1)]);
    forall key
      ensures Seen(m', key) == Seen(m, key)
    {
      var i := BinIndex(key.hash, m.top);
      SizeOfTop(m);
      SplitIndex(key.hash, m.top);
      assert !BinAt(m, m.top, i).Moved? && BinAt(m', m.top, i) == BinAt(m, m.top, i);
    }
  }

  lemma InstallLooksSame(m: Memory)
    requires TablesOk(m) && m.top >= 0 && MovedFrom(m, m.top, 0) && m.top + 2 !in m.bins
    ensures LooksSame(m, m.(top := m.top + 1))
  {
    var m' := m.(top := m.top + 1);
    SameBins(m, m');
    forall key
      ensures Seen(m', key) == Seen(m, key)
    {
      SizeOfTop(m);
      SplitIndex(key.hash, m.top);
      NextNotMoved(m, BinIndex(key.hash, m.top + 1));
      hide BinIndex, TablesOk;
    }
  }

  /** Nobody looks at the bins of the next table that an unmoved bin goes to. */
  lemma StoreLooksSame(m: Memory, i: nat, j: int, b: Bin)
    requires TablesOk(m) && m.top >= 0 && !BinAt(m, m.top, i).Moved? && (j == i || j == i + Pow2(m.top))
    requires m.top + 1 in m.bins && 0 <= j < |m.bins[m.top + 1]| && i < Pow2(m.top)
    ensures LooksSame(m, WithBin(m, m.top + 1, j, b))
  {
    BinChanges(m, m.top + 1, j, b);
    BinKeys(m, m.top + 1, j, b);
    hide WithBin, BinAt, TablesOk, BinIndex;
    forall key
      ensures Seen(WithBin(m, m.top + 1, j, b), key) == Seen(m, key)
    {
      SplitIndex(key.hash, m.top);
    }
  }

  lemma MarkLooksSame(m: Memory, i: int)
    requires TablesOk(m) && m.top >= 0 && m.top in m.bins && 0 <= i < |m.bins[m.top]| && BinAt(m, m.top, i).Null? &&
             (m.top, i) !in m.locks
    ensures LooksSame(m, WithBin(m, m.top, i, Moved))
  {
    BinChanges(m, m.top, i, Moved);
    BinKeys(m, m.top, i, Moved);
    SizeOfTop(m);
    assert Untouched(m, i);
    hide WithBin, BinAt, TablesOk, BinIndex;
    forall key
      ensures Seen(WithBin(m, m.top, i, Moved), key) == Seen(m, key)
    {
      SplitIndex(key.hash, m.top);
    }
  }

  lemma SharesAreTheWhole(e: map<Key, Value>, k: nat, key: Key)
    ensures At(Entries(ToBin(Part(e, k, And(key.hash, Pow2(k)) != 0))), key) == At(e, key)
  {
  }

  lemma SealLooksSame(m: Memory, m': Memory, i: int)
    requires TablesOk(m) && m.top >= 0 && m.top in m.bins && 0 <= i < |m.bins[m.top]| && BinAt(m, m.top, i).Full?
    requires BinAt(m, m.top + 1, i) == Share(m, m.top, i, false) &&
             BinAt(m, m.top + 1, i + Pow2(m.top)) == Share(m, m.top, i, true)
    requires m'.top == m.top && forall k, j :: BinAt(m', k, j) == if k == m.top && j == i then Moved else BinAt(m, k, j)
    ensures LooksSame(m, m')
  {
    hide BinAt, TablesOk, BinIndex, Part, ToBin;
    forall key
      ensures Seen(m', key) == Seen(m, key)
    {
      SplitIndex(key.hash, m.top);
      SharesAreTheWhole(Entries(BinAt(m, m.top, i)), m.top, key);
    }
  }

  // ---- what an operation does to the map ----

  /** An operation that has got to a bin that is not moved sees its key there. */
  lemma TargetIsSeen(m: Memory, key: Key, tab: int)
    requires TablesOk(m) && Reaches(m, key.hash, tab) && !BinAt(m, tab, BinIndex(key.hash, tab)).Moved?
    ensures Seen(m, key) == At(Entries(BinAt(m, tab, BinIndex(key.hash, tab))), key)
  {
    hide UntouchedOk, LocksOk, BinIndex, Placed;
    PlacedSize(m, tab);
    SplitIndex(key.hash, tab);
    assert tab < m.top ==> MovedFrom(m, tab, 0);
  }

  /** Changing what a bin that is not moved says of one key changes what is seen of that key only. */
  lemma WriteSeen(m: Memory, key: Key, tab: int, b: Bin)
    requires TablesOk(m) && Reaches(m, key.hash, tab)
    requires var i := BinIndex(key.hash, tab);
             tab in m.bins && i < |m.bins[tab]| && !BinAt(m, tab, i).Moved? && !b.Moved? && (tab, i) !in m.locks &&
             (forall other :: other != key ==> At(Entries(b), other) == At(Entries(BinAt(m, tab, i)), other))
    ensures var m' := WithBin(m, tab, BinIndex(key.hash, tab), b);
            Seen(m', key) == At(Entries(b), key) && forall other :: other != key ==> Seen(m', other) == Seen(m, other)
  {
    var i := BinIndex(key.hash, tab);
    var m' := WithBin(m, tab, i, b);
    BinChanges(m, tab, i, b);
    BinKeys(m, tab, i, b);
    SplitIndex(key.hash, m.top);
    hide WithBin, BinAt, BinIndex, UntouchedOk, LocksOk, Placed;
    PlacedSize(m, tab);
    assert tab < m.top ==> MovedFrom(m, tab, 0);
  }

  /** One operation, done on one bin. */
  lemma WriteIsEffect(m: Memory, view: map<Key, Value>, op: Op, tab: int)
    requires TablesOk(m) && Reaches(m, op.key.hash, tab) && (forall key :: Seen(m, key) == At(view, key))
    requires var i := Index(op, tab);
             tab in m.bins && i < |m.bins[tab]| && !BinAt(m, tab, i).Moved? && (tab, i) !in m.locks
    ensures var i := Index(op, tab);
            var e := Entries(BinAt(m, tab, i));
            Result(op, e) == Result(op, view) && |Effect(op, e)| - |e| == |Effect(op, view)| - |view| &&
            forall key :: Seen(WithBin(m, tab, i, ToBin(Effect(op, e))), key) == At(Effect(op, view), key)
  {
    hide TablesOk, WithBin, BinAt, BinIndex, Effect, Result;
    var e := Entries(BinAt(m, tab, Index(op, tab)));
    TargetIsSeen(m, op.key, tab);
    EffectAt(op, e, view);
    EffectSize(op, e);
    EffectSize(op, view);
    WriteSeen(m, op.key, tab, ToBin(Effect(op, e)));
    EffectAt(op, view, view);
  }

  /** An operation that leaves its bin as it was leaves the map. */
  lemma ReadIsEffect(m: Memory, view: map<Key, Value>, op: Op, tab: int)
    requires TablesOk(m) && Reaches(m, op.key.hash, tab) && (forall key :: Seen(m, key) == At(view, key))
    requires var b := BinAt(m, tab, Index(op, tab)); !b.Moved? && Effect(op, Entries(b)) == Entries(b)
    ensures Result(op, Entries(BinAt(m, tab, Index(op, tab)))) == Result(op, view) && Effect(op, view) == view
  {
    hide TablesOk, BinAt, BinIndex, Result;
    var e := Entries(BinAt(m, tab, Index(op, tab)));
    TargetIsSeen(m, op.key, tab);
    EffectAt(op, e, view);
  }

  // ---- every step ----

  /** The step may change what the bins hold, or which table is current, or end an operation. */
  predicate Touches(pc: Pc) {
    pc.Ready? || pc.InitOwns? || pc.PresizeOwns? || pc.Begin? || pc.Install? ||
    (pc.Copy? && (pc.at.NullForwarded? || pc.at.Locked? || pc.at.LowStored? || pc.at.Forwarded?))
  }

  lemma UntouchedOutcome(m: Memory, th: Thread, c: Choice)
    requires Step(m, th, c).Next? && !Touches(th.pc)
    ensures var o := Step(m, th, c); o.event == Silent && o.mem.bins == m.bins && o.mem.top == m.top
  {
    hide StepCopy, StepJob, StepIdle, Stamp, LoadFactor, Closed, Pow2;
    if th.pc.Copy? {
      UntouchedCopy(m, th, c);
    }
  }

  lemma UntouchedCopy(m: Memory, th: Thread, c: Choice)
    requires Step(m, th, c).Next? && th.pc.Copy? && !Touches(th.pc)
    ensures var o := Step(m, th, c); o.event == Silent && o.mem.bins == m.bins && o.mem.top == m.top
  {
    hide Part, ToBin, Stamp, LoadFactor;
  }

  lemma CopierLooksSame(s: State, t: nat, c: Choice)
    requires Inv(s) && t in s.threads && Step(s.mem, s.threads[t], c).Next? && s.threads[t].pc.Copy? &&
             Touches(s.threads[t].pc)
    ensures var o := Step(s.mem, s.threads[t], c); o.event == Silent && LooksSame(s.mem, o.mem)
  {
    hide Step, TablesOk, LooksSame, ExponentOf, Helpers, WithBin, StrayOk, ControlOk, CrewOk, HoldersDiffer, OneStarter,
      MovedFrom, Stamp;
    var m, th, o := s.mem, s.threads[t], Step(s.mem, s.threads[t], c);
    assert ThreadOk(m, th);
    NotAstray(m, th.pc);
    SizeOfTop(m);
    var tab, i := th.pc.tab, th.pc.i;
    if th.pc.at.NullForwarded? {
      if BinAt(m, tab, i).Null? {
        MarkOutcome(m, th, c);
        NullIsFree(m, i);
        MarkLooksSame(m, i);
      } else {
        OthersWander(s, t, c);
        WanderEvent(m, th, c);
        SameBinsLookSame(m, o.mem);
      }
    } else if th.pc.at.Forwarded? {
      SealOutcome(m, th, c);
      HeldIsFull(m, i);
      var m1 := m.(locks := m.locks - {(tab, i)});
      BinChanges(m1, tab, i, Moved);
      BinKeys(m1, tab, i, Moved);
      SameBins(m, m1);
      SealLooksSame(m, o.mem, i);
    } else {
      StoreOutcome(m, th, c);
      HeldIsFull(m, i);
      StoreLooksSame(m, i, HalfIndex(th.pc), Share(m, tab, i, th.pc.at.LowStored?));
    }
  }

  lemma NullIsFree(m: Memory, i: int)
    requires TablesOk(m) && BinAt(m, m.top, i).Null?
    ensures (m.top, i) !in m.locks
  {
    assert (m.top, i) in m.locks ==> LockOk(m, (m.top, i));
  }

  lemma HeldIsFull(m: Memory, i: int)
    requires TablesOk(m) && (m.top, i) in m.locks
    ensures BinAt(m, m.top, i).Full?
  {
    assert LockOk(m, (m.top, i));
  }

  lemma WanderEvent(m: Memory, th: Thread, c: Choice)
    requires Wanders(m, th, c)
    ensures Step(m, th, c).event == Silent
  {
  }

  /** What a thread does that works on an operation without changing a bin. */
  lemma JobOutcome(m: Memory, th: Thread, c: Choice)
    requires th.pc.Ready? && Step(m, th, c).Next? && !Writes(m, th, c)
    ensures var o := Step(m, th, c);
            o.mem == m &&
            (o.event.Did? ==>
              th.job.Some? && o.event.op == th.job.value.op &&
              var job := th.job.value;
              if job.tab == -1 then m.top == -1 && !job.op.Put? && o.event.result == None
              else job.tab >= 0 && !Target(m, job).Moved? &&
                   o.event.result == Result(job.op, Entries(Target(m, job))) &&
                   Effect(job.op, Entries(Target(m, job))) == Entries(Target(m, job)))
  {
    hide BinIndex, Effect, Result;
    if th.job.Some? && th.job.value.tab >= 0 {
      SameMemorySameEntries(m, th.job.value);
    }
  }

  lemma SameMemorySameEntries(m: Memory, job: Job)
    requires job.tab >= 0
    ensures var i, e := Index(job.op, job.tab), Entries(Target(m, job));
            job.tab in m.bins && i < |m.bins[job.tab]| && Effect(job.op, e) != e && !Target(m, job).Moved? ==>
              WithBin(m, job.tab, i, ToBin(Effect(job.op, e))) != m
  {
    hide BinIndex, Effect;
    var i, e := Index(job.op, job.tab), Entries(Target(m, job));
    if job.tab in m.bins && i < |m.bins[job.tab]| && Effect(job.op, e) != e && !Target(m, job).Moved? {
      BinChanges(m, job.tab, i, ToBin(Effect(job.op, e)));
      assert BinAt(WithBin(m, job.tab, i, ToBin(Effect(job.op, e))), job.tab, i) != BinAt(m, job.tab, i);
    }
  }

  /** The view agrees with all that is seen. */
  ghost predicate Agrees(m: Memory, view: map<Key, Value>) {
    forall key :: Seen(m, key) == At(view, key)
  }

  lemma ReadyStep(s: State, t: nat, c: Choice, view: map<Key, Value>)
    requires Inv(s) && t in s.threads && s.threads[t].pc.Ready? && Step(s.mem, s.threads[t], c).Next? &&
             Agrees(s.mem, view)
    ensures var o := Step(s.mem, s.threads[t], c); Right(o.event, view) && Agrees(o.mem, Later(o.event, view))
    ensures var o := Step(s.mem, s.threads[t], c);
            if o.event.Did? then o.thread.pc == (if |Later(o.event, view)| == |view| then Ready
              else Counting(|Later(o.event, view)| - |view|))
            else !o.thread.pc.Counting?
  {
    hide Step, TablesOk, BinIndex, Effect, Result, WithBin, Seen;
    var m, th, o := s.mem, s.threads[t], Step(s.mem, s.threads[t], c);
    assert ThreadOk(m, th);
    if Writes(m, th, c) {
      var job := th.job.value;
      WriteOutcome(m, th, c);
      WriteIsEffect(m, view, job.op, job.tab);
    } else {
      JobOutcome(m, th, c);
      ReadyPc(m, th, c);
      if o.event.Did? && th.job.value.tab == -1 {
        NoTableNoKey(m, view, th.job.value.op);
      } else if o.event.Did? {
        ReadIsEffect(m, view, th.job.value.op, th.job.value.tab);
      }
    }
  }

  lemma ReadyPc(m: Memory, th: Thread, c: Choice)
    requires th.pc.Ready? && Step(m, th, c).Next? && !Writes(m, th, c)
    ensures var o := Step(m, th, c); !o.thread.pc.Counting? && (o.event.Did? ==> o.thread.pc.Ready?)
  {
    hide BinIndex, Effect, Result;
    if th.job.Some? && th.job.value.tab >= 0 {
      SameMemorySameEntries(m, th.job.value);
    }
  }

  lemma NoTableNoKey(m: Memory, view: map<Key, Value>, op: Op)
    requires m.top == -1 && Agrees(m, view) && !op.Put?
    ensures Result(op, view) == None && Effect(op, view) == view
  {
    assert Seen(m, op.key) == At(view, op.key);
  }

  lemma TableStep(s: State, t: nat, c: Choice)
    requires Inv(s) && t in s.threads && Step(s.mem, s.threads[t], c).Next?
    requires var pc := s.threads[t].pc; pc.InitOwns? || pc.PresizeOwns? || pc.Begin? || pc.Install?
    ensures var o := Step(s.mem, s.threads[t], c); o.event == Silent && LooksSame(s.mem, o.mem)
  {
    hide Step, TablesOk, LooksSame, ExponentOf, Helpers, WithTable;
    var m, th, o := s.mem, s.threads[t], Step(s.mem, s.threads[t], c);
    assert ThreadOk(m, th);
    if th.pc.InitOwns? || th.pc.PresizeOwns? {
      MakeOutcome(m, th, c);
      if m.top == -1 {
        FirstTableLooksSame(m, if th.pc.InitOwns? then DEFAULT_EXPONENT else th.pc.want);
      } else {
        SameBinsLookSame(m, m);
      }
    } else if th.pc.Begin? {
      StartOutcome(m, th, c);
      NextTableLooksSame(m);
    } else {
      CommitOutcome(m, th, c);
      InstallTables(m, th.pc.tab);
      InstallLooksSame(m);
    }
  }

  /** Every step that is not the one where an operation takes effect leaves the map, and that step
      does to the map what the operation does, and returns what the map says. */
  lemma StepRefinesMap(s: State, t: nat, c: Choice, e: Event, s': State, view: map<Key, Value>)
    requires Inv(s) && Takes(s, t, c, e, s') && !Harms(s.mem, s.threads[t].pc) && Abstracts(s.mem, view)
    ensures Right(e, view) && Abstracts(s'.mem, Later(e, view))
  {
    hide Step, TablesOk, Abstracts, Seen;
    var m, th := s.mem, s.threads[t];
    StepKeepsInvariant(s, t, c, e, s');
    SeenIsView(m, view);
    SeenIsView(s'.mem, Later(e, view));
    if th.pc.Ready? {
      ReadyStep(s, t, c, view);
    } else if !Touches(th.pc) {
      UntouchedOutcome(m, th, c);
      SameBinsLookSame(m, s'.mem);
    } else if th.pc.Copy? {
      CopierLooksSame(s, t, c);
    } else {
      TableStep(s, t, c);
    }
  }

  // ---- counting ----

  predicate IsPlus(pc: Pc) {
    pc.Counting? && pc.delta == 1
  }

  predicate IsMinus(pc: Pc) {
    pc.Counting? && pc.delta == -1
  }

  function Plus(ths: map<nat, Thread>): set<nat> {
    set t | t in ths && IsPlus(ths[t].pc)
  }

  function Minus(ths: map<nat, Thread>): set<nat> {
    set t | t in ths && IsMinus(ths[t].pc)
  }

  /** The counter is the size of the map, up to the threads that are about to count. */
  ghost predicate Counted(s: State, view: map<Key, Value>) {
    s.mem.count + |Plus(s.threads)| - |Minus(s.threads)| == |view| &&
    forall t :: t in s.threads && s.threads[t].pc.Counting? ==> IsPlus(s.threads[t].pc) || IsMinus(s.threads[t].pc)
  }

  lemma PlusAfter(ths: map<nat, Thread>, t: nat, th: Thread)
    requires t in ths
    ensures |Plus(ths[t := th])| == |Plus(ths)| + One(IsPlus(th.pc)) - One(IsPlus(ths[t].pc))
  {
    hide IsPlus;
    assert Plus(ths[t := th]) == if IsPlus(th.pc) then Plus(ths) + {t} else Plus(ths) - {t};
    CountAfter(Plus(ths), Plus(ths[t := th]), t, IsPlus(th.pc));
  }

  lemma MinusAfter(ths: map<nat, Thread>, t: nat, th: Thread)
    requires t in ths
    ensures |Minus(ths[t := th])| == |Minus(ths)| + One(IsMinus(th.pc)) - One(IsMinus(ths[t].pc))
  {
    hide IsMinus;
    assert Minus(ths[t := th]) == if IsMinus(th.pc) then Minus(ths) + {t} else Minus(ths) - {t};
    CountAfter(Minus(ths), Minus(ths[t := th]), t, IsMinus(th.pc));
  }

  /** Between an operation and its counting, and at the counting, the sum stays right. */
  lemma CountOutcome(m: Memory, th: Thread, c: Choice)
    requires Step(m, th, c).Next? && !th.pc.Ready?
    ensures var o := Step(m, th, c); !o.thread.pc.Counting? && o.event == Silent
    ensures Step(m, th, c).mem.count == if th.pc.Counting? then m.count + th.pc.delta else m.count
  {
    hide StepCopy, StepJob, StepIdle, Closed, LoadFactor, Stamp;
    if th.pc.Copy? {
      CopyOutcome(m, th, c);
    }
  }

  lemma ReadyCount(m: Memory, th: Thread, c: Choice)
    requires Step(m, th, c).Next? && th.pc.Ready?
    ensures Step(m, th, c).mem.count == m.count
  {
    hide BinIndex, Effect, Result;
  }

  lemma StepCounts(s: State, t: nat, c: Choice, e: Event, s': State, view: map<Key, Value>)
    requires Inv(s) && Takes(s, t, c, e, s') && !Harms(s.mem, s.threads[t].pc) && Abstracts(s.mem, view) &&
             Counted(s, view)
    ensures Counted(s', Later(e, view))
  {
    hide Step, TablesOk, Abstracts, Seen, Plus, Minus, Inv, Effect;
    var m, th, th' := s.mem, s.threads[t], s'.threads[t];
    PlusAfter(s.threads, t, th');
    MinusAfter(s.threads, t, th');
    if th.pc.Ready? {
      assert TablesOk(m) by { InvTables(s); }
      SeenIsView(m, view);
      ReadyStep(s, t, c, view);
      ReadyCount(m, th, c);
      if e.Did? {
        EffectSize(e.op, view);
      }
    } else {
      CountOutcome(m, th, c);
    }
  }

  lemma InvTables(s: State)
    requires Inv(s)
    ensures TablesOk(s.mem)
  {
  }

  // ---- whole runs ----

  /** The map that the operations of the first `n` moves make, one after the other. */
  ghost function ViewAt(r: Run, n: nat): map<Key, Value>
    requires n <= |r.moves|
  {
    if n == 0 then map[] else Later(r.moves[n - 1].event, ViewAt(r, n - 1))
  }

  lemma InitialView(s: State)
    requires Initial(s)
    ensures Abstracts(s.mem, map[]) && Counted(s, map[])
  {
    var m := s.mem;
    assert forall k, i :: BinAt(m, k, i).Null?;
    assert Plus(s.threads) == {} && Minus(s.threads) == {};
  }

  /** In every run in which no thread joins another resize than the one it means while the control
      word counts no helper, or as many as it can, the memory holds, after each move, the map that the
      operations so far make one after the other; each operation returned what that map said; and
      the counter is its size, up to the threads about to count. */
  lemma {:induction false} RunsAreMaps(r: Run, n: nat)
    requires IsRun(r) && n <= |r.moves| && forall i :: 0 <= i < |r.moves| ==> !HarmsAt(r, i)
    ensures Abstracts(r.states[n].mem, ViewAt(r, n)) && Counted(r.states[n], ViewAt(r, n))
    ensures n < |r.moves| ==> Right(r.moves[n].event, ViewAt(r, n))
  {
    hide Inv, Step, Harms, Abstracts, Counted;
    if n == 0 {
      InitialView(r.states[0]);
    } else {
      RunsAreMaps(r, n - 1);
      InvariantUpTo(r, n - 1);
      var move := r.moves[n - 1];
      assert !HarmsAt(r, n - 1);
      StepRefinesMap(r.states[n - 1], move.thread, move.choice, move.event, r.states[n], ViewAt(r, n - 1));
      StepCounts(r.states[n - 1], move.thread, move.choice, move.event, r.states[n], ViewAt(r, n - 1));
    }
    if n < |r.moves| {
      InvariantUpTo(r, n);
      var move := r.moves[n];
      assert !HarmsAt(r, n);
      StepRefinesMap(r.states[n], move.thread, move.choice, move.event, r.states[n + 1], ViewAt(r, n));
    }
  }
}
