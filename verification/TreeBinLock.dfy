/** The lock on the root of a tree bin (src/chashmap/node.rs).

    Any number of readers search the tree while no writer is there or waits; writers come one at a
    time, through the lock of the bin.  A step of a thread is one access to the lock word, to the
    waiter slot, to the bin's lock or to a parking token. */
module TreeBinLock {
  import opened Options

  const WRITER := 1
  const WAITER := 2
  const READER := 4

  /** `state & WRITER`, `state & WAITER` and the number of readers in the lock word. */
  function WriterBit(state: nat): nat { state % 2 }

  function WaiterBit(state: nat): nat { state / 2 % 2 }

  function ReadersIn(state: nat): nat { state / READER }

  datatype Pc =
    | Out
    // a writer
    | Enters
    | Loops(waiting: bool)
    | Saw(waiting: bool, state: nat)
    | Registers
    | Parks
    | Clears
    | Holds
    // a reader
    | Looks
    | SawFree(state: nat)
    | Reads
    | Wakes
    | Unparks(writer: nat)

  /** The lock word, the waiter slot, the writer that has the lock of the bin, the parking tokens. */
  datatype Lock = Lock(state: nat, waiter: Option<nat>, mutex: Option<nat>, tokens: set<nat>)

  datatype State = State(lock: Lock, threads: map<nat, Pc>)

  /** What a thread may choose: to read or to write, and whether to give up, or to wake for nothing. */
  datatype Choice = Read | Write | Stop

  datatype Outcome = Blocked | Next(lock: Lock, pc: Pc)

  function Step(l: Lock, t: nat, pc: Pc, c: Choice): Outcome {
    match pc
    case Out =>
      if c.Read? then Next(l, Looks)
      else if c.Write? && l.mutex.None? then Next(l.(mutex := Some(t)), Enters)
      else Blocked
    case Enters => if l.state == 0 then Next(l.(state := WRITER), Holds) else Next(l, Loops(false))
    case Loops(waiting) => Next(l, Saw(waiting, l.state))
    case Saw(waiting, state) =>
      if WriterBit(state) == 0 && ReadersIn(state) == 0 then
        if l.state == state then Next(l.(state := WRITER), if waiting then Clears else Holds)
          else Next(l, Loops(waiting))
      else if WaiterBit(state) == 0 then
        if l.state == state then Next(l.(state := state + WAITER), Registers) else Next(l, Loops(waiting))
      else Next(l, if waiting then Parks else Loops(waiting))
    case Registers => if l.waiter.None? then Next(l.(waiter := Some(t)), Loops(true)) else Blocked
    case Parks =>
      if t in l.tokens then Next(l.(tokens := l.tokens - {t}), Loops(true))
      else if c.Stop? then Next(l, Loops(true))
      else Blocked
    case Clears => Next(l.(waiter := None), Holds)
    case Holds => Next(l.(state := 0, mutex := None), Out)
    case Looks => if c.Stop? then Next(l, Out) else if l.state % 4 != 0 then Next(l, Looks)
      else Next(l, SawFree(l.state))
    case SawFree(state) => if l.state == state then Next(l.(state := state + READER), Reads) else Next(l, Looks)
    case Reads => if l.state < READER then Blocked
      else Next(l.(state := l.state - READER), if l.state == READER + WAITER then Wakes else Out)
    case Wakes => Next(l, if l.waiter.None? then Out else Unparks(l.waiter.value))
    case Unparks(writer) => Next(l.(tokens := l.tokens + {writer}), Out)
  }

  ghost predicate Takes(s: State, t: nat, c: Choice, s': State) {
    t in s.threads &&
    var o := Step(s.lock, t, s.threads[t], c);
    o.Next? && s' == State(o.lock, s.threads[t := o.pc])
  }

  // ---- the invariant ----

  /** The writer inside the lock of the bin. */
  predicate Writes(pc: Pc) {
    pc.Enters? || pc.Loops? || pc.Saw? || pc.Registers? || pc.Parks? || pc.Clears? || pc.Holds?
  }

  /** The writer has set the waiter bit and not yet got the lock. */
  predicate Waits(pc: Pc) {
    pc.Registers? || pc.Parks? || ((pc.Loops? || pc.Saw?) && pc.waiting)
  }

  predicate Owns(pc: Pc) {
    pc.Clears? || pc.Holds?
  }

  function Readers(ths: map<nat, Pc>): set<nat> {
    set t | t in ths && ths[t].Reads?
  }

  /** Where the writer is, or out. */
  function WriterAt(s: State): Pc {
    if s.lock.mutex.Some? && s.lock.mutex.value in s.threads then s.threads[s.lock.mutex.value] else Out
  }

  /** The lock word, by what the writer does and the number of readers. */
  function Word(w: Pc, readers: nat): nat {
    if Owns(w) then WRITER else READER * readers + if Waits(w) then WAITER else 0
  }

  /** The lock word says what the threads do. */
  ghost predicate WordOk(s: State) {
    s.lock.state == Word(WriterAt(s), |Readers(s.threads)|) && (Owns(WriterAt(s)) ==> Readers(s.threads) == {})
  }

  /** The slot holds the writer from its registration until it has the lock. */
  ghost predicate SlotOk(s: State) {
    var w := WriterAt(s);
    s.lock.waiter == if (Waits(w) && !w.Registers?) || w.Clears? then s.lock.mutex else None
  }

  ghost predicate MutexOk(s: State) {
    (s.lock.mutex.Some? ==> s.lock.mutex.value in s.threads) &&
    forall t :: t in s.threads ==> (Writes(s.threads[t]) <==> s.lock.mutex == Some(t))
  }

  /** Somebody is on the way to wake writer `t`. */
  ghost predicate WakeIsDue(s: State, t: nat) {
    t in s.lock.tokens || Readers(s.threads) != {} ||
    exists u :: u in s.threads && (s.threads[u] == Wakes || s.threads[u] == Unparks(t))
  }

  /** A writer that parks, or is about to, has seen a reader, and will be woken. */
  ghost predicate NoneForgotten(s: State) {
    var w := WriterAt(s);
    (w.Parks? ==> WakeIsDue(s, s.lock.mutex.value)) &&
    (w.Saw? && w.waiting && ReadersIn(w.state) > 0 ==> WakeIsDue(s, s.lock.mutex.value)) &&
    (w.Saw? && w.waiting ==> WaiterBit(w.state) == 1 && WriterBit(w.state) == 0)
  }

  ghost predicate Inv(s: State) {
    MutexOk(s) && WordOk(s) && SlotOk(s) && NoneForgotten(s) &&
    forall t :: t in s.threads && s.threads[t].SawFree? ==> s.threads[t].state % 4 == 0
  }

  // ---- every step keeps it ----

  lemma ReadersAfter(ths: map<nat, Pc>, t: nat, pc: Pc)
    requires t in ths
    ensures Readers(ths[t := pc]) == if pc.Reads? then Readers(ths) + {t} else Readers(ths) - {t}
    ensures |Readers(ths[t := pc])| == |Readers(ths)| + (if pc.Reads? then 1 else 0) - if ths[t].Reads? then 1 else 0
  {
    var a := Readers(ths);
    assert Readers(ths[t := pc]) == if pc.Reads? then a + {t} else a - {t};
    assert t in a <==> ths[t].Reads?;
  }

  lemma WordBits(readers: nat, waits: bool)
    ensures var state := READER * readers + if waits then WAITER else 0;
            ReadersIn(state) == readers && WriterBit(state) == 0 && WaiterBit(state) == if waits then 1 else 0
  {
  }

  lemma MutexKeeps(s: State, t: nat, c: Choice, s': State)
    requires Inv(s) && Takes(s, t, c, s')
    ensures MutexOk(s')
    ensures Writes(s.threads[t]) || Writes(s'.threads[t]) ==>
            WriterAt(s') == if Writes(s'.threads[t]) then s'.threads[t] else Out
    ensures Writes(s.threads[t]) ==> WriterAt(s) == s.threads[t] && s.lock.mutex == Some(t)
    ensures Writes(s'.threads[t]) && !Writes(s.threads[t]) ==> s.lock.mutex == None && WriterAt(s) == Out
    ensures !Writes(s.threads[t]) && !Writes(s'.threads[t]) ==>
            WriterAt(s') == WriterAt(s) && s'.lock.mutex == s.lock.mutex
  {
  }

  /** The word after a step of the writer. */
  lemma WriterWord(l: Lock, t: nat, pc: Pc, c: Choice, readers: nat)
    requires Step(l, t, pc, c).Next? && (Writes(pc) || Writes(Step(l, t, pc, c).pc))
    requires l.state == Word(pc, readers) && (Owns(pc) ==> readers == 0)
    requires pc.Saw? && pc.waiting ==> WaiterBit(pc.state) == 1 && WriterBit(pc.state) == 0
    ensures var o := Step(l, t, pc, c); o.lock.state == Word(o.pc, readers) && (Owns(o.pc) ==> readers == 0)
  {
    WordBits(readers, Waits(pc));
  }

  /** The word after a step of another thread, with the writer at `w`. */
  lemma ReaderWord(l: Lock, t: nat, pc: Pc, c: Choice, w: Pc, readers: nat)
    requires Step(l, t, pc, c).Next? && !Writes(pc) && !Writes(Step(l, t, pc, c).pc)
    requires l.state == Word(w, readers) && (Owns(w) ==> readers == 0) && (pc.Reads? ==> readers > 0)
    requires pc.SawFree? ==> pc.state % 4 == 0
    ensures var o := Step(l, t, pc, c);
            var after := readers + (if o.pc.Reads? then 1 else 0) - if pc.Reads? then 1 else 0;
            o.lock.state == Word(w, after) && (Owns(w) ==> after == 0)
  {
    hide ReadersIn, WriterBit, WaiterBit;
  }

  lemma WordKeptByWriter(s: State, t: nat, c: Choice, s': State)
    requires Inv(s) && Takes(s, t, c, s') && (Writes(s.threads[t]) || Writes(s'.threads[t]))
    ensures WordOk(s')
  {
    hide Step, Word, Readers, WriterAt, ReadersIn, WriterBit, WaiterBit, MutexOk, SlotOk, WakeIsDue;
    MutexKeeps(s, t, c, s');
    ReadersAfter(s.threads, t, s'.threads[t]);
    WriterIsNoReader(s.lock, t, s.threads[t], c);
    WriterWord(s.lock, t, s.threads[t], c, |Readers(s.threads)|);
  }

  lemma WriterIsNoReader(l: Lock, t: nat, pc: Pc, c: Choice)
    requires Step(l, t, pc, c).Next? && (Writes(pc) || Writes(Step(l, t, pc, c).pc))
    ensures !pc.Reads? && !Step(l, t, pc, c).pc.Reads? && (Writes(pc) || pc == Out)
    ensures !Writes(Step(l, t, pc, c).pc) ==> Step(l, t, pc, c).pc == Out
  {
    hide ReadersIn, WriterBit, WaiterBit;
  }

  lemma WordKeptByReader(s: State, t: nat, c: Choice, s': State)
    requires Inv(s) && Takes(s, t, c, s') && !Writes(s.threads[t]) && !Writes(s'.threads[t])
    ensures WordOk(s')
  {
    hide Step, Word, WriterAt, ReadersIn, WriterBit, WaiterBit, MutexOk, SlotOk, WakeIsDue, NoneForgotten;
    MutexKeeps(s, t, c, s');
    ReadersAfter(s.threads, t, s'.threads[t]);
    assert s.threads[t].Reads? ==> t in Readers(s.threads);
    hide Readers;
    ReaderWord(s.lock, t, s.threads[t], c, WriterAt(s), |Readers(s.threads)|);
  }

  lemma SlotKeeps(s: State, t: nat, c: Choice, s': State)
    requires Inv(s) && Takes(s, t, c, s')
    ensures SlotOk(s')
  {
    hide Readers, WriterAt, ReadersIn, WriterBit, WaiterBit, WordOk, WakeIsDue;
    MutexKeeps(s, t, c, s');
  }

  /** While a writer waits, its waiter bit is in the lock word. */
  lemma WaitingWord(s: State)
    requires Inv(s) && Waits(WriterAt(s))
    ensures WaiterBit(s.lock.state) == 1 && WriterBit(s.lock.state) == 0 &&
            ReadersIn(s.lock.state) == |Readers(s.threads)|
  {
    WordBits(|Readers(s.threads)|, true);
  }

  /** What the writer does between looking at the word and parking. */
  lemma WriterSees(l: Lock, t: nat, pc: Pc, c: Choice)
    requires Step(l, t, pc, c).Next?
    ensures var o := Step(l, t, pc, c);
            (o.pc.Parks? ==> pc.Saw? && pc.waiting && (WriterBit(pc.state) != 0 || ReadersIn(pc.state) > 0)) &&
            (o.pc.Saw? ==> pc.Loops? && o.pc == Saw(pc.waiting, l.state)) &&
            (o.pc.Parks? || o.pc.Saw? ==> o.lock == l)
  {
    hide ReadersIn, WriterBit, WaiterBit;
  }

  lemma NoneForgottenByWriter(s: State, t: nat, c: Choice, s': State)
    requires Inv(s) && Takes(s, t, c, s') && (Writes(s.threads[t]) || Writes(s'.threads[t]))
    ensures NoneForgotten(s')
  {
    hide Step, Readers, ReadersIn, WriterBit, WaiterBit, WordOk, SlotOk, WakeIsDue, WriterAt;
    MutexKeeps(s, t, c, s');
    WriterSees(s.lock, t, s.threads[t], c);
    var pc, pc' := s.threads[t], s'.threads[t];
    if pc'.Parks? {
      WakeStays(s, t, s', t);
    } else if pc'.Saw? && pc'.waiting {
      WaitingWord(s);
      if ReadersIn(pc'.state) > 0 {
        ReadersMeanDue(s, t, s');
      }
    }
  }

  /** A reader that is seen will wake the writer. */
  lemma ReadersMeanDue(s: State, t: nat, s': State)
    requires t in s.threads && t in s'.threads && s'.threads == s.threads[t := s'.threads[t]]
    requires !s.threads[t].Reads? && |Readers(s.threads)| > 0
    ensures WakeIsDue(s', t)
  {
    ReadersAfter(s.threads, t, s'.threads[t]);
    hide Readers;
    assert |Readers(s'.threads)| > 0;
  }

  /** A wake-up that is due stays due when the writer itself moves on without its token. */
  lemma WakeStays(s: State, t: nat, s': State, w: nat)
    requires WakeIsDue(s, w) && t in s.threads && t in s'.threads && s'.threads == s.threads[t := s'.threads[t]]
    requires s.lock.tokens <= s'.lock.tokens && !s.threads[t].Reads? && s.threads[t] != Wakes &&
             s.threads[t] != Unparks(w)
    ensures WakeIsDue(s', w)
  {
    ReadersAfter(s.threads, t, s'.threads[t]);
    hide Readers;
    if exists u :: u in s.threads && (s.threads[u] == Wakes || s.threads[u] == Unparks(w)) {
      var u :| u in s.threads && (s.threads[u] == Wakes || s.threads[u] == Unparks(w));
      assert u in s'.threads && s'.threads[u] == s.threads[u];
    }
  }

  lemma NoneForgottenByReader(s: State, t: nat, c: Choice, s': State)
    requires Inv(s) && Takes(s, t, c, s') && !Writes(s.threads[t]) && !Writes(s'.threads[t])
    ensures NoneForgotten(s')
  {
    hide Readers, ReadersIn, WriterBit, WaiterBit, WakeIsDue;
    MutexKeeps(s, t, c, s');
    ReadersAfter(s.threads, t, s'.threads[t]);
    if Waits(WriterAt(s)) && !WriterAt(s).Registers? && WakeIsDue(s, s.lock.mutex.value) {
      StillDue(s, t, c, s', s.lock.mutex.value);
    }
  }

  /** A reader that goes away leaves the wake-up to another, or is on its way to wake the writer. */
  lemma StillDue(s: State, t: nat, c: Choice, s': State, w: nat)
    requires Inv(s) && Takes(s, t, c, s') && !Writes(s.threads[t]) && !Writes(s'.threads[t])
    requires s.lock.mutex == Some(w) && Waits(WriterAt(s)) && !WriterAt(s).Registers? && WakeIsDue(s, w)
    ensures WakeIsDue(s', w)
  {
    ReadersAfter(s.threads, t, s'.threads[t]);
    hide Readers;
    if s.threads[t].Reads? {
      assert s.lock.state == READER + WAITER ==> s'.threads[t] == Wakes;
    } else if s.threads[t] == Wakes {
      assert s'.threads[t] == Unparks(w);
    } else if s.threads[t] == Unparks(w) {
      assert w in s'.lock.tokens;
    } else {
      WakeStays(s, t, s', w);
    }
  }

  lemma StepKeepsInvariant(s: State, t: nat, c: Choice, s': State)
    requires Inv(s) && Takes(s, t, c, s')
    ensures Inv(s')
  {
    hide WordOk, SlotOk, NoneForgotten, WriterAt, Readers;
    MutexKeeps(s, t, c, s');
    SlotKeeps(s, t, c, s');
    if Writes(s.threads[t]) || Writes(s'.threads[t]) {
      WordKeptByWriter(s, t, c, s');
      NoneForgottenByWriter(s, t, c, s');
    } else {
      WordKeptByReader(s, t, c, s');
      NoneForgottenByReader(s, t, c, s');
    }
  }

  // ---- runs ----

  ghost predicate Initial(s: State) {
    s.lock == Lock(0, None, None, {}) && forall t :: t in s.threads ==> s.threads[t] == Out
  }

  ghost predicate Follows(s: State, s': State) {
    exists t, c :: Takes(s, t, c, s')
  }

  ghost predicate IsRun(run: seq<State>) {
    |run| > 0 && Initial(run[0]) && forall i :: 0 <= i < |run| - 1 ==> Follows(run[i], run[i + 1])
  }

  lemma {:induction false} RunsKeepInvariant(run: seq<State>, n: nat)
    requires IsRun(run) && n < |run|
    ensures Inv(run[n])
  {
    hide Inv, Takes;
    if n == 0 {
      InitialInvariant(run[0]);
    } else {
      RunsKeepInvariant(run, n - 1);
      assert Follows(run[n - 1], run[n]);
      var t, c :| Takes(run[n - 1], t, c, run[n]);
      StepKeepsInvariant(run[n - 1], t, c, run[n]);
    }
  }

  lemma InitialInvariant(s: State)
    requires Initial(s)
    ensures Inv(s)
  {
    assert Readers(s.threads) == {};
  }

  // ---- what it means ----

  /** In every run: no reader is in the tree while a writer has it, two writers never have it, the
      slot is empty where a writer registers, and a parked writer is about to be woken. */
  lemma LockIsSafe(run: seq<State>, n: nat, t: nat, u: nat)
    requires IsRun(run) && n < |run| && t in run[n].threads && u in run[n].threads
    ensures var s := run[n];
            (Owns(s.threads[t]) ==> !s.threads[u].Reads? && (Owns(s.threads[u]) ==> t == u)) &&
            (s.threads[t].Registers? ==> s.lock.waiter == None) &&
            (s.threads[t].Parks? ==> WakeIsDue(s, t)) &&
            (s.threads[t].Reads? ==> s.lock.state >= READER)
  {
    RunsKeepInvariant(run, n);
    var s := run[n];
    hide Initial, Follows, IsRun;
    assert s.threads[u].Reads? ==> u in Readers(s.threads);
    assert s.threads[t].Reads? ==> t in Readers(s.threads);
  }
}
