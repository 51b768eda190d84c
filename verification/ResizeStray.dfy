/** A run of the concurrent hash map in which a thread joins the resize of another table than the
    one it means (src/chashmap/map.rs).

    A helper checks the tables before it reads the control word, and the word's stamp not at all.
    When one resize ends and the next begins in between, it counts itself into the next one but
    leaves it with the stamp of the one before.  If it is the last to leave, nobody finishes. */
module ResizeStray {
  import opened Bits
  import opened Options
  import opened ResizeInvariant
  import opened ResizeMap
  import opened ResizeModel
  import opened ResizeProtocol
  import opened ResizeSteps
  import opened Values

  /** Some run leads to the state; a calm one without a join that harms. */
  ghost predicate Reachable(s: State, calm: bool) {
    exists r :: IsRun(r) && r.states[|r.moves|] == s && (calm ==> forall i :: 0 <= i < |r.moves| ==> !HarmsAt(r, i))
  }

  /** Some run leads to the state, and its operations, one after the other, make the map `view`. */
  ghost predicate Reached(s: State, view: map<Key, Value>, calm: bool) {
    exists r :: IsRun(r) && r.states[|r.moves|] == s && ViewAt(r, |r.moves|) == view &&
                (calm ==> forall i :: 0 <= i < |r.moves| ==> !HarmsAt(r, i))
  }

  lemma {:induction false} ViewOfPart(r: Run, r': Run, n: nat)
    requires n <= |r.moves| <= |r'.moves| && forall i | 0 <= i < n :: r.moves[i] == r'.moves[i]
    ensures ViewAt(r, n) == ViewAt(r', n)
  {
    if n > 0 {
      ViewOfPart(r, r', n - 1);
    }
  }

  lemma OneMore(s: State, t: nat, c: Choice, view: map<Key, Value>, calm: bool)
    requires Reached(s, view, calm) && t in s.threads && Step(s.mem, s.threads[t], c).Next?
    requires calm ==> !Harms(s.mem, s.threads[t].pc)
    ensures var o := Step(s.mem, s.threads[t], c); Reached(After(s, t, o.mem, o.thread), Later(o.event, view), calm)
  {
    hide Step, Initial, Harms, Later;
    var o := Step(s.mem, s.threads[t], c);
    var s' := After(s, t, o.mem, o.thread);
    var r :| IsRun(r) && r.states[|r.moves|] == s && ViewAt(r, |r.moves|) == view &&
             (calm ==> forall i :: 0 <= i < |r.moves| ==> !HarmsAt(r, i));
    var r' := Run(r.states + [s'], r.moves + [Move(t, c, o.event)]);
    forall i | 0 <= i < |r'.moves|
      ensures Takes(r'.states[i], r'.moves[i].thread, r'.moves[i].choice, r'.moves[i].event, r'.states[i + 1])
    {
      if i < |r.moves| {
        assert Takes(r.states[i], r.moves[i].thread, r.moves[i].choice, r.moves[i].event, r.states[i + 1]);
      }
    }
    assert IsRun(r') && r'.states[|r'.moves|] == s';
    ViewOfPart(r, r', |r.moves|);
    if calm {
      forall i | 0 <= i < |r'.moves|
        ensures !HarmsAt(r', i)
      {
        if i < |r.moves| {
          assert !HarmsAt(r, i);
        }
      }
    }
  }

  // ---- three threads ----

  /** What stays as it is while two threads move: the third one, what the operations have made, and
      whether no join has harmed. */
  datatype Setting = Setting(third: Thread, view: map<Key, Value>, calm: bool)

  const CALM := Setting(Idle(Ready), map[], true)
  const ROUGH := Setting(Idle(Ready), map[], false)

  function Threads(a: Thread, w: Thread, third: Thread): map<nat, Thread> {
    map[0 := a, 1 := w, 2 := third]
  }

  /** Memory and three threads, as a run may leave them. */
  ghost predicate Live(m: Memory, a: Thread, w: Thread, g: Setting) {
    Reached(State(m, Threads(a, w, g.third)), g.view, g.calm)
  }

  lemma FirstMoves(m: Memory, a: Thread, w: Thread, c: Choice, g: Setting)
    requires Live(m, a, w, g) && (g.calm ==> !Harms(m, a.pc))
    requires Step(m, a, c).Next? && Step(m, a, c).event.Silent?
    ensures Live(Step(m, a, c).mem, Step(m, a, c).thread, w, g)
  {
    hide Step, Reached, Harms;
    var s, o := State(m, Threads(a, w, g.third)), Step(m, a, c);
    OneMore(s, 0, c, g.view, g.calm);
    assert After(s, 0, o.mem, o.thread) == State(o.mem, Threads(o.thread, w, g.third));
  }

  lemma SecondMoves(m: Memory, a: Thread, w: Thread, c: Choice, g: Setting)
    requires Live(m, a, w, g) && (g.calm ==> !Harms(m, w.pc))
    requires Step(m, w, c).Next? && Step(m, w, c).event.Silent?
    ensures Live(Step(m, w, c).mem, a, Step(m, w, c).thread, g)
  {
    hide Step, Reached, Harms;
    var s, o := State(m, Threads(a, w, g.third)), Step(m, w, c);
    OneMore(s, 1, c, g.view, g.calm);
    assert After(s, 1, o.mem, o.thread) == State(o.mem, Threads(a, o.thread, g.third));
  }

  // ---- the run ----

  const KEY := Key(0, 0)

  function Idle(pc: Pc): Thread {
    Thread(pc, None)
  }

  /** One thread begins to swap a table for one of twice the size. */
  lemma GrowerStarts(m: Memory, w: Thread, k: nat, want: nat, g: Setting)
    requires Live(m, Idle(Ready), w, g) && m.top == k && m.ctl == LoadFactor(k) && m.next == -1 && k < MAX_EXPONENT
    requires want <= MAX_EXPONENT && Pow2(want) > LoadFactor(k)
    ensures Live(m.(ctl := Stamp(k) + 2, next := k + 1, index := Pow2(k), bins := m.bins[k + 1 := Empty(k + 1)]),
                 Idle(Copy(k, k + 1, 0, 0, false, Advance)), w, g)
  {
    hide Live, Stamp, Empty, StepCopy, StepJob;
    FirstMoves(m, Idle(Ready), w, Grow(want), g);
    FirstMoves(m, Idle(PresizeSawCtl(want, m.ctl)), w, Go, g);
    FirstMoves(m, Idle(PresizeSawTable(want, m.ctl, k)), w, Go, g);
    FirstMoves(m, Idle(StartCas(m.ctl, k)), w, Go, g);
    GrowerBegins(m.(ctl := Stamp(k) + 2), w, k, g);
  }

  lemma GrowerBegins(m: Memory, w: Thread, k: nat, g: Setting)
    requires Live(m, Idle(Begin(k)), w, g) && m.next == -1
    ensures Live(m.(next := k + 1, index := Pow2(k), bins := m.bins[k + 1 := Empty(k + 1)]),
                 Idle(Copy(k, k + 1, 0, 0, false, Advance)), w, g)
  {
    hide Live, Stamp, Empty, StepCopy, StepJob;
    FirstMoves(m, Idle(Begin(k)), w, Go, g);
    FirstMoves(m.(next := k + 1, bins := m.bins[k + 1 := Empty(k + 1)]), Idle(SetIndex(k)), w, Go, g);
  }

  /** The thread that claims the top of a small table leaves at once. */
  lemma GrowerClaims(m: Memory, w: Thread, k: nat, g: Setting)
    requires Live(m, Idle(Copy(k, k + 1, 0, 0, false, Advance)), w, g) && m.index == Pow2(k) <= MIN_STRIDE
    requires k in m.bins && |m.bins[k]| == Pow2(k) && k + 1 in m.bins
    ensures Live(m.(index := 0), Idle(Copy(k, k + 1, Pow2(k), 0, false, Leave(m.ctl))), w, g)
  {
    hide Live;
    FirstMoves(m, Idle(Copy(k, k + 1, 0, 0, false, Advance)), w, Go, g);
    FirstMoves(m, Idle(Copy(k, k + 1, -1, 0, false, Claim(m.index))), w, Stride(MIN_STRIDE), g);
    FirstMoves(m.(index := 0), Idle(Copy(k, k + 1, Pow2(k), 0, false, Decide)), w, Go, g);
  }

  /** The last thread marks an empty bin. */
  lemma SweeperMarks(m: Memory, w: Thread, k: nat, i: nat, b: int, g: Setting)
    requires Live(m, Idle(Copy(k, k + 1, i + 1, b, true, Advance)), w, g) && i < Pow2(k)
    requires k in m.bins && |m.bins[k]| == Pow2(k) && k + 1 in m.bins && |m.bins[k + 1]| == 2 * Pow2(k) &&
             m.bins[k][i] == Null
    requires k in m.forward ==> m.forward[k] == k + 1
    ensures Live(WithBin(m.(forward := m.forward[k := k + 1]), k, i, Moved), Idle(Copy(k, k + 1, i, b, true, Advance)),
            w, g)
  {
    hide Live, Stamp, StepJob, StepIdle;
    FirstMoves(m, Idle(Copy(k, k + 1, i + 1, b, true, Advance)), w, Go, g);
    FirstMoves(m, Idle(Copy(k, k + 1, i, b, true, Decide)), w, Go, g);
    FirstMoves(m, Idle(Copy(k, k + 1, i, b, true, SawNull)), w, Go, g);
    FirstMoves(m.(forward := m.forward[k := k + 1]), Idle(Copy(k, k + 1, i, b, true, NullForwarded)), w, Go, g);
  }

  /** The last thread commits. */
  lemma SweeperCommits(m: Memory, w: Thread, k: nat, b: int, g: Setting)
    requires Live(m, Idle(Copy(k, k + 1, 0, b, true, Advance)), w, g) && k in m.bins && |m.bins[k]| == Pow2(k) &&
             k + 1 in m.bins
    ensures Live(m.(next := -1, top := k + 1, ctl := 2 * Pow2(k) - Pow2(k) / 2), Idle(Ready), w, g)
  {
    hide Live, Stamp, StepJob, StepIdle, StepMove;
    FirstMoves(m, Idle(Copy(k, k + 1, 0, b, true, Advance)), w, Go, g);
    FirstMoves(m, Idle(Copy(k, k + 1, -1, b, true, Decide)), w, Go, g);
    FirstMoves(m.(next := -1), Idle(Install(k, k + 1)), w, Go, g);
    FirstMoves(m.(next := -1, top := k + 1), Idle(Release(k)), w, Go, g);
  }

  function Start(): Memory {
    Memory(1, -1, 0, 2, 0, map[1 := Empty(1)], map[], {})
  }

  lemma Sizes()
    ensures Pow2(0) == 1 && Pow2(1) == 2 && Pow2(2) == 4 && Pow2(3) == 8 && Pow2(4) == 16
    ensures LoadFactor(1) == 2 && LoadFactor(2) == 3
  {
    assert Pow2(3) == 8;
  }

  lemma StartIsLive()
    ensures Live(Start(), Idle(Ready), Idle(Ready), CALM)
  {
    Sizes();
    var s := State(Start(), Threads(Idle(Ready), Idle(Ready), Idle(Ready)));
    var r := Run([s], []);
    assert Initial(s);
    assert IsRun(r) && r.states[|r.moves|] == s;
  }

  /** After the sweep of the first resize, both bins of the old table marked. */
  function Swept(): Memory {
    Memory(1, 2, 0, Stamp(1) + 1, 0, map[1 := [Moved, Moved], 2 := Empty(2)], map[1 := 2], {})
  }

  lemma FirstResizeIsSwept()
    ensures Live(Swept(), Idle(Copy(1, 2, 0, 0, true, Advance)), Idle(Ready), CALM)
  {
    hide Live, Empty;
    Sizes();
    StartIsLive();
    GrowerStarts(Start(), Idle(Ready), 1, 3, CALM);
    EmptySize(1);
    EmptySize(2);
    var m1 := Start().(ctl := Stamp(1) + 2, next := 2, index := 2, bins := map[1 := Empty(1), 2 := Empty(2)]);
    assert m1 == Start().(ctl := Stamp(1) + 2, next := 2, index := 2, bins := Start().bins[2 := Empty(2)]);
    GrowerClaims(m1, Idle(Ready), 1, CALM);
    var m2 := m1.(index := 0);
    FirstMoves(m2, Idle(Copy(1, 2, 2, 0, false, Leave(m1.ctl))), Idle(Ready), Go, CALM);
    var m3 := m2.(ctl := Stamp(1) + 1);
    SweeperMarks(m3, Idle(Ready), 1, 1, 0, CALM);
    var m4 := WithBin(m3.(forward := m3.forward[1 := 2]), 1, 1, Moved);
    SweeperMarks(m4, Idle(Ready), 1, 0, 0, CALM);
    var m5 := WithBin(m4.(forward := m4.forward[1 := 2]), 1, 0, Moved);
    assert m5.bins[1] == [Moved, Moved];
    assert m5 == Swept();
  }

  lemma EmptySize(k: nat)
    ensures |Empty(k)| == Pow2(k) && forall i :: 0 <= i < |Empty(k)| ==> Empty(k)[i] == Null
  {
  }

  /** The writer has found its bin moved, and the tables as they should be to help. */
  function Helper(v: Value, pc: Pc): Thread {
    Thread(pc, Some(Job(Put(KEY, v, false), 2)))
  }

  lemma WriterComesToHelp(v: Value)
    ensures Live(Swept(), Idle(Copy(1, 2, 0, 0, true, Advance)), Helper(v, HelpCtl(1, 2)), CALM)
  {
    hide Live;
    FirstResizeIsSwept();
    var a, op := Idle(Copy(1, 2, 0, 0, true, Advance)), Put(KEY, v, false);
    SecondMoves(Swept(), a, Idle(Ready), Call(op), CALM);
    SecondMoves(Swept(), a, Thread(Ready, Some(Job(op, -1))), Go, CALM);
    assert Index(op, 1) == 0;
    SecondMoves(Swept(), a, Thread(Ready, Some(Job(op, 1))), Go, CALM);
    SecondMoves(Swept(), a, Helper(v, HelpNext(1, 2)), Go, CALM);
    SecondMoves(Swept(), a, Helper(v, HelpTable(1, 2)), Go, CALM);
  }

  /** The second resize has begun. */
  function Second(): Memory {
    Memory(2, 3, 4, Stamp(2) + 2, 0, map[1 := [Moved, Moved], 2 := Empty(2), 3 := Empty(3)], map[1 := 2], {})
  }

  /** A stray join is possible: the writer is about to count itself into a resize of the table of
      four bins, for which it would copy the table of two. */
  lemma StrayJoinIsReachable(v: Value)
    ensures Live(Second(), Idle(Copy(2, 3, 0, 0, false, Advance)), Helper(v, JoinCas(Stamp(2) + 2, 1, 2)), CALM)
    ensures Stray(Second(), JoinCas(Stamp(2) + 2, 1, 2))
  {
    hide Live, Empty;
    Sizes();
    WriterComesToHelp(v);
    SweeperCommits(Swept(), Helper(v, HelpCtl(1, 2)), 1, 0, CALM);
    var m := Swept().(next := -1, top := 2, ctl := 3);
    GrowerStarts(m, Helper(v, HelpCtl(1, 2)), 2, 4, CALM);
    assert m.(ctl := Stamp(2) + 2, next := 3, index := 4, bins := m.bins[3 := Empty(3)]) == Second();
    var a := Idle(Copy(2, 3, 0, 0, false, Advance));
    SecondMoves(Second(), a, Helper(v, HelpCtl(1, 2)), Go, CALM);
    SecondMoves(Second(), a, Helper(v, HelpIndex(Stamp(2) + 2, 1, 2)), Go, CALM);
  }

  // ---- where it ends ----

  /** The thread takes no part in a resize, and will not by itself: what it saw of the control word
      is not what is there. */
  predicate Harmless(pc: Pc, ctl: int) {
    Bystander(pc) &&
    (pc.InitSawCtl? || pc.PresizeSawCtl? || pc.PresizeSawNone? || pc.PresizeSawTable? || pc.StartCas? ==>
      pc.ctl >= 0) &&
    (pc.JoinCas? ==> pc.ctl != ctl)
  }

  /** A resize that counts no helper, and nobody to finish it. */
  ghost predicate Abandoned(s: State) {
    s.mem.ctl < -1 && Helpers(s.mem.ctl) == 0 && s.mem.index <= 0 &&
    forall t :: t in s.threads ==> Harmless(s.threads[t].pc, s.mem.ctl)
  }

  lemma IdlerIsHarmless(m: Memory, th: Thread, c: Choice)
    requires th.pc.Ready? && Step(m, th, c).Next? && m.ctl < -1
    ensures var o := Step(m, th, c);
            Harmless(o.thread.pc, m.ctl) && o.mem.ctl == m.ctl && o.mem.top == m.top && o.mem.index == m.index
  {
    hide BinIndex, Effect, Result, Stamp, LoadFactor;
  }

  lemma OthersAreHarmless(m: Memory, th: Thread, c: Choice)
    requires !th.pc.Ready? && Harmless(th.pc, m.ctl) && Step(m, th, c).Next? && m.ctl < -1 && m.index <= 0
    ensures var o := Step(m, th, c);
            Harmless(o.thread.pc, m.ctl) && o.mem.ctl == m.ctl && o.mem.top == m.top && o.mem.index == m.index
  {
    hide StepCopy, StepBegin, StepJob, StepIdle, Stamp, LoadFactor;
  }

  /** Nothing changes that any more: the table is never replaced again. */
  lemma AbandonedForever(s: State, t: nat, c: Choice, e: Event, s': State)
    requires Abandoned(s) && Takes(s, t, c, e, s')
    ensures Abandoned(s') && s'.mem.top == s.mem.top && s'.mem.ctl == s.mem.ctl
  {
    hide Helpers, Step, Harmless;
    var m, th := s.mem, s.threads[t];
    assert Harmless(th.pc, m.ctl);
    if th.pc.Ready? {
      IdlerIsHarmless(m, th, c);
    } else {
      OthersAreHarmless(m, th, c);
    }
  }

  /** The run goes on: the writer counts itself into the second resize, the other thread leaves it,
      and the writer leaves it last, and does not see that it is the last. */
  lemma AbandonedIsReachable(v: Value) returns (s: State)
    ensures Reachable(s, true) && Abandoned(s)
  {
    hide Live, Empty, Reachable;
    Sizes();
    EmptySize(2);
    EmptySize(3);
    StrayJoinIsReachable(v);
    var ctl := Stamp(2) + 2;
    var a, w := Idle(Copy(2, 3, 0, 0, false, Advance)), Helper(v, Copy(1, 2, 0, 0, false, Advance));
    SecondMoves(Second(), a, Helper(v, JoinCas(ctl, 1, 2)), Go, CALM);
    var m1 := Second().(ctl := ctl + 1);
    GrowerClaims(m1, w, 2, CALM);
    var m2 := m1.(index := 0);
    FirstMoves(m2, Idle(Copy(2, 3, 4, 0, false, Leave(ctl + 1))), w, Go, CALM);
    var m3 := m2.(ctl := ctl);
    SecondMoves(m3, Idle(Ready), w, Go, CALM);
    SecondMoves(m3, Idle(Ready), Helper(v, Copy(1, 2, -1, 0, false, Decide)), Go, CALM);
    SecondMoves(m3, Idle(Ready), Helper(v, Copy(1, 2, -1, 0, false, Leave(ctl))), Go, CALM);
    var m4 := m3.(ctl := ctl - 1);
    s := State(m4, Threads(Idle(Ready), Helper(v, Ready), Idle(Ready)));
    LiveIsReachable(m4, Idle(Ready), Helper(v, Ready), CALM);
    WordOfResize(2, 0);
  }

  lemma LiveIsReachable(m: Memory, a: Thread, w: Thread, g: Setting)
    requires Live(m, a, w, g)
    ensures Reachable(State(m, Threads(a, w, g.third)), g.calm)
  {
  }
}
