/** A run of the concurrent hash map in which an entry is lost (src/chashmap/map.rs).

    A stray has joined the resize of a table after its last thread began to sweep it, so the word no
    longer closes that resize to helpers of the table.  One of them joins; the stray leaves; and the
    helper leaves last, as the word has it, and becomes a second thread that finishes the resize.  When
    it does, long after the first one, it puts a table back in place that has been replaced since.  All
    bins of that table have been moved, so the next resize copies none of them to the table it makes.

    A table is named by its size here, so that second table of 128 bins takes the place of the first one
    when it is made, where in the source it does so when it is put in place.  No operation looks at
    either in between. */
module ResizeLoss {
  import opened Bits
  import opened Options
  import opened ResizeClosing
  import opened ResizeInvariant
  import opened ResizeMap
  import opened ResizeModel
  import opened ResizeProtocol
  import opened ResizeSteps
  import opened ResizeStray
  import opened Values

  // ---- moves ----

  lemma ThirdMoves(m: Memory, a: Thread, w: Thread, c: Choice, g: Setting)
    requires Live(m, a, w, g) && !g.calm
    requires Step(m, g.third, c).Next? && Step(m, g.third, c).event.Silent?
    ensures Live(Step(m, g.third, c).mem, a, w, g.(third := Step(m, g.third, c).thread))
  {
    hide Step, Reached, Harms;
    var s, o := State(m, Threads(a, w, g.third)), Step(m, g.third, c);
    OneMore(s, 2, c, g.view, g.calm);
    assert After(s, 2, o.mem, o.thread) == State(o.mem, Threads(a, w, o.thread));
  }

  /** The second thread does something. */
  lemma SecondDoes(m: Memory, a: Thread, w: Thread, c: Choice, g: Setting)
    requires Live(m, a, w, g) && !g.calm && Step(m, w, c).Next?
    ensures var o := Step(m, w, c); Live(o.mem, a, o.thread, g.(view := Later(o.event, g.view)))
  {
    hide Step, Reached, Harms, Later;
    var s, o := State(m, Threads(a, w, g.third)), Step(m, w, c);
    OneMore(s, 1, c, g.view, g.calm);
    assert After(s, 1, o.mem, o.thread) == State(o.mem, Threads(a, o.thread, g.third));
  }

  // ---- a sweep over bins that have been moved ----

  ghost predicate Gone(m: Memory, k: nat) {
    k in m.bins && k + 1 in m.bins && |m.bins[k]| == Pow2(k) && |m.bins[k + 1]| == 2 * Pow2(k) &&
    forall j | 0 <= j < Pow2(k) :: m.bins[k][j] == Moved
  }

  function Sweeper(k: nat, i: nat, b: int): Thread {
    Idle(Copy(k, k + 1, i, b, true, Advance))
  }

  lemma PassesOne(m: Memory, ts: map<nat, Thread>, t: nat, view: map<Key, Value>, k: nat, i: nat, b: int)
    requires Reached(State(m, ts[t := Sweeper(k, i + 1, b)]), view, false) && Gone(m, k) && i < Pow2(k)
    ensures Reached(State(m, ts[t := Sweeper(k, i, b)]), view, false)
  {
    hide Reached, Harms, Stamp, StepJob, StepIdle, StepMove;
    var s := State(m, ts[t := Sweeper(k, i + 1, b)]);
    OneMore(s, t, Go, view, false);
    var s' := State(m, ts[t := Idle(Copy(k, k + 1, i, b, true, Decide))]);
    assert After(s, t, m, s'.threads[t]) == s';
    OneMore(s', t, Go, view, false);
    assert After(s', t, m, Sweeper(k, i, b)) == State(m, ts[t := Sweeper(k, i, b)]);
  }

  lemma {:induction false} PassesAll(m: Memory, ts: map<nat, Thread>, t: nat, view: map<Key, Value>, k: nat, i: nat,
                                     b: int)
    requires Reached(State(m, ts[t := Sweeper(k, i, b)]), view, false) && Gone(m, k) && i <= Pow2(k)
    ensures Reached(State(m, ts[t := Sweeper(k, 0, b)]), view, false)
    decreases i
  {
    hide Reached, Gone;
    if i > 0 {
      PassesOne(m, ts, t, view, k, i - 1, b);
      PassesAll(m, ts, t, view, k, i - 1, b);
    }
  }

  lemma FirstPasses(m: Memory, w: Thread, k: nat, b: int, g: Setting)
    requires Live(m, Sweeper(k, Pow2(k), b), w, g) && Gone(m, k) && !g.calm
    ensures Live(m, Sweeper(k, 0, b), w, g)
  {
    hide Reached, Gone;
    var ts := Threads(Idle(Ready), w, g.third);
    assert forall a :: ts[0 := a] == Threads(a, w, g.third);
    PassesAll(m, ts, 0, g.view, k, Pow2(k), b);
  }

  lemma ThirdPasses(m: Memory, a: Thread, w: Thread, k: nat, b: int, g: Setting)
    requires Live(m, a, w, g) && g.third == Sweeper(k, Pow2(k), b) && Gone(m, k) && !g.calm
    ensures Live(m, a, w, g.(third := Sweeper(k, 0, b)))
  {
    hide Reached, Gone;
    var ts := Threads(a, w, Idle(Ready));
    assert forall x :: ts[2 := x] == Threads(a, w, x);
    PassesAll(m, ts, 2, g.view, k, Pow2(k), b);
  }

  lemma ThirdCommits(m: Memory, a: Thread, w: Thread, k: nat, b: int, g: Setting)
    requires Live(m, a, w, g) && g.third == Sweeper(k, 0, b) && !g.calm && k in m.bins && |m.bins[k]| == Pow2(k) &&
             k + 1 in m.bins
    ensures Live(m.(next := -1, top := k + 1, ctl := 2 * Pow2(k) - Pow2(k) / 2), a, w, g.(third := Idle(Ready)))
  {
    hide Live, Stamp, StepJob, StepIdle, StepMove;
    ThirdMoves(m, a, w, Go, g);
    ThirdMoves(m, a, w, Go, g.(third := Idle(Copy(k, k + 1, -1, b, true, Decide))));
    ThirdMoves(m.(next := -1), a, w, Go, g.(third := Idle(Install(k, k + 1))));
    ThirdMoves(m.(next := -1, top := k + 1), a, w, Go, g.(third := Idle(Release(k))));
  }

  // ---- a second thread comes to finish ----

  const MOVING := Copy(5, 6, 0, 0, false, Advance)

  function With(pc: Pc): Setting {
    ROUGH.(third := Idle(pc))
  }

  /** A helper joins the resize that is being finished. */
  lemma HelperJoins(m: Memory, v: Value)
    requires Live(Closed5(m), Sweeper(5, 32, 16), Writer(v, JoinCas(Stamp(5) + 1, 4, 5)), CALM) && Old(m)
    ensures Live(Joined(m).(ctl := Stamp(5) + 3), Sweeper(5, 32, 16), Writer(v, Copy(4, 5, 0, 0, false, Advance)),
                 With(MOVING))
  {
    hide Live, Empty, Old;
    var a, j, ctl := Sweeper(5, 32, 16), Joined(m), Stamp(5) + 2;
    Unsettled(Closed5(m), a, Writer(v, JoinCas(Stamp(5) + 1, 4, 5)));
    SecondMoves(Closed5(m), a, Writer(v, JoinCas(Stamp(5) + 1, 4, 5)), Go, ROUGH);
    var w := Writer(v, Copy(4, 5, 0, 0, false, Advance));
    ThirdMoves(j, a, w, Go, With(Ready));
    ThirdMoves(j, a, w, Go, With(CountReady));
    ThirdMoves(j, a, w, Go, With(CountSawCtl(ctl)));
    ThirdMoves(j, a, w, Go, With(CountSawTable(ctl, 5)));
    ThirdMoves(j, a, w, Go, With(CountSawNext(ctl, 5, 6)));
    ThirdMoves(j, a, w, Go, With(JoinCas(ctl, 5, 6)));
  }

  /** The stray takes what is left of the index, and leaves. */
  lemma StrayLeaves(m: Memory, a: Thread, v: Value)
    requires Live(Joined(m).(ctl := Stamp(5) + 3), a, Writer(v, Copy(4, 5, 0, 0, false, Advance)), With(MOVING))
    requires Old(m)
    ensures Live(Joined(m).(index := 0), a, Writer(v, Ready), With(MOVING))
  {
    hide Live, Empty;
    MoreSizes();
    var ctl, g := Stamp(5) + 3, With(MOVING);
    var j := Joined(m).(ctl := ctl);
    SecondMoves(j, a, Writer(v, Copy(4, 5, 0, 0, false, Advance)), Go, g);
    SecondMoves(j, a, Writer(v, Copy(4, 5, -1, 0, false, Claim(16))), Stride(MIN_STRIDE), g);
    SecondMoves(j.(index := 0), a, Writer(v, Copy(4, 5, 16, 0, false, Decide)), Go, g);
    SecondMoves(j.(index := 0), a, Writer(v, Copy(4, 5, 16, 0, false, Leave(ctl))), Go, g);
  }

  /** The helper leaves, and by the word it is the last one. */
  lemma HelperStays(m: Memory, a: Thread, v: Value)
    requires Live(Joined(m).(index := 0), a, Writer(v, Ready), With(MOVING)) && Old(m)
    ensures Live(Closed5(m).(index := 0), a, Writer(v, Ready), ROUGH.(third := Sweeper(5, 32, 0)))
  {
    hide Live, Empty;
    MoreSizes();
    var j, w, ctl := Joined(m).(index := 0), Writer(v, Ready), Stamp(5) + 2;
    ThirdMoves(j, a, w, Go, With(MOVING));
    ThirdMoves(j, a, w, Go, With(Copy(5, 6, -1, 0, false, Decide)));
    ThirdMoves(j, a, w, Go, With(Copy(5, 6, -1, 0, false, Leave(ctl))));
  }

  /** Two threads are finishing one resize. */
  lemma TwoFinish(m: Memory, v: Value)
    requires Live(Closed5(m), Sweeper(5, 32, 16), Writer(v, JoinCas(Stamp(5) + 1, 4, 5)), CALM) && Old(m)
    ensures Live(Closed5(m).(index := 0), Sweeper(5, 32, 16), Writer(v, Ready), ROUGH.(third := Sweeper(5, 32, 0)))
  {
    hide Live, Closed5, Old;
    HelperJoins(m, v);
    StrayLeaves(m, Sweeper(5, 32, 16), v);
    HelperStays(m, Sweeper(5, 32, 16), v);
  }

  lemma TwoFinishersAreReachable(v: Value)
    ensures exists s :: Reachable(s, false) && |Finishers(s.threads)| == 2
  {
    hide Live, Empty, Grown, Closed5, Old, Reachable;
    FirstResizeSweeps();
    var m := Grown();
    WriterComes(m, v);
    SecondResizeCloses(m, v);
    ClosingJoinIsReachable(m, v);
    TwoFinish(m, v);
    var a, x := Sweeper(5, 32, 16), Sweeper(5, 32, 0);
    LiveIsReachable(Closed5(m).(index := 0), a, Writer(v, Ready), ROUGH.(third := x));
    assert Finishers(Threads(a, Writer(v, Ready), x)) == {0, 2};
  }

  // ---- the first one finishes, and the table is replaced once more ----

  lemma LargerSizes()
    ensures Pow2(4) == 16 && Pow2(5) == 32 && Pow2(6) == 64 && Pow2(7) == 128 && LoadFactor(6) == 48
  {
    MoreSizes();
    assert Pow2(7) == 2 * Pow2(6);
  }

  ghost predicate Grown6(m: Memory) {
    Gone(m, 5) && m.bins[6] == Empty(6) && m.forward == map[4 := 5, 5 := 6] && m.locks == {} && m.top == 6 &&
      m.next == -1 && m.ctl == 48
  }

  /** `m'` is what the first of the two makes of the table. */
  ghost predicate FirstIsDone(m': Memory, v: Value) {
    Live(m', Idle(Ready), Writer(v, Ready), ROUGH.(third := Sweeper(5, 32, 0)))
  }

  lemma FirstFinishes(m: Memory, v: Value)
    requires Old(m) && m.bins[5] == Empty(5)
    requires Live(Closed5(m).(index := 0), Sweeper(5, 32, 16), Writer(v, Ready), ROUGH.(third := Sweeper(5, 32, 0)))
    ensures exists m' :: Grown6(m') && FirstIsDone(m', v)
  {
    hide Live, Empty, Stamp;
    LargerSizes();
    EmptySize(5);
    EmptySize(6);
    var j, w, g := Closed5(m).(index := 0), Writer(v, Ready), ROUGH.(third := Sweeper(5, 32, 0));
    SweepsAll(j, w, 5, 32, 16, g);
    MarkedIs(j, 5, 32);
    hide Marked;
    SweeperCommits(Marked(j, 5, 32), w, 5, 16, g);
    var m' := Marked(j, 5, 32).(next := -1, top := 6, ctl := 48);
    assert Grown6(m') && FirstIsDone(m', v);
  }

  ghost predicate Grown7(m: Memory) {
    Gone(m, 5) && Gone(m, 6) && m.bins[7] == Empty(7) && m.forward == map[4 := 5, 5 := 6, 6 := 7] && m.locks == {} &&
      m.top == 7 && m.next == -1
  }

  lemma GrowsAgain(m: Memory, v: Value)
    requires Grown6(m) && FirstIsDone(m, v)
    ensures exists m' :: Grown7(m') && FirstIsDone(m', v)
  {
    hide Live, Empty, Stamp;
    LargerSizes();
    EmptySize(6);
    EmptySize(7);
    var w, g := Writer(v, Ready), ROUGH.(third := Sweeper(5, 32, 0));
    GrowerStarts(m, w, 6, 7, g);
    var m1 := m.(ctl := Stamp(6) + 2, next := 7, index := 64, bins := m.bins[7 := Empty(7)]);
    GrowerClaimsTop(m1, w, 6, g);
    var m2 := m1.(index := 48, ctl := Stamp(6) + 1);
    SweepsAll(m2, w, 6, 64, 48, g);
    MarkedIs(m2, 6, 64);
    hide Marked;
    SweeperCommits(Marked(m2, 6, 64), w, 6, 48, g);
    var m' := Marked(m2, 6, 64).(next := -1, top := 7, ctl := 2 * Pow2(6) - Pow2(6) / 2);
    assert Grown7(m') && FirstIsDone(m', v);
  }

  // ---- the entry ----

  function Holding(m: Memory, v: Value): Memory
    requires 7 in m.bins && |m.bins[7]| == 128
  {
    WithBin(m, 7, 0, Full(map[KEY := v]))
  }

  function Done(v: Value): Setting {
    Setting(Sweeper(5, 32, 0), map[KEY := v], false)
  }

  function Seeker(v: Value, tab: int, pc: Pc): Thread {
    Thread(pc, Some(Job(Put(KEY, v, false), tab)))
  }

  /** The thread that strayed goes on to the current table, and puts its entry there. */
  lemma EntryIsPut(m: Memory, v: Value)
    requires Grown7(m) && FirstIsDone(m, v) && |m.bins[7]| == 128
    ensures Live(Holding(m, v), Idle(Ready), Thread(Counting(1), None), Done(v))
  {
    hide Live, Stamp, StepCopy, StepBegin, StepIdle, BinIndex;
    LargerSizes();
    EmptySize(7);
    KeyIsFirst();
    hide Empty;
    var a, g := Idle(Ready), ROUGH.(third := Sweeper(5, 32, 0));
    SecondMoves(m, a, Seeker(v, 5, Ready), Go, g);
    SecondMoves(m, a, Seeker(v, 6, HelpNext(5, 6)), Go, g);
    SecondMoves(m, a, Seeker(v, 6, Ready), Go, g);
    SecondMoves(m, a, Seeker(v, 7, HelpNext(6, 7)), Go, g);
    PutIsDone(m, v);
    SecondDoes(m, a, Seeker(v, 7, Ready), Go, g);
  }

  lemma PutIsDone(m: Memory, v: Value)
    requires Grown7(m) && |m.bins[7]| == 128
    ensures var op := Put(KEY, v, false);
            Step(m, Seeker(v, 7, Ready), Go) == Next(Holding(m, v), Thread(Counting(1), None), Did(op, None)) &&
            Effect(op, map[]) == map[KEY := v]
  {
    KeyIsFirst();
    EmptySize(7);
    hide BinIndex, Empty;
    assert Index(Put(KEY, v, false), 7) == 0;
    assert |map[KEY := v]| == 1;
  }

  // ---- the second one finishes, and the entry is lost ----

  ghost predicate Lost(m: Memory) {
    m.top == 7 && 7 in m.bins && m.bins[7] == Empty(7)
  }

  /** The table before the current one comes back. */
  lemma SecondFinishes(m: Memory, v: Value)
    requires Gone(m, 5) && Live(m, Idle(Ready), Thread(Counting(1), None), Done(v))
    ensures Live(m.(next := -1, top := 6, ctl := 48), Idle(Ready), Thread(Counting(1), None),
                 Done(v).(third := Idle(Ready)))
  {
    hide Live;
    LargerSizes();
    var a, w := Idle(Ready), Thread(Counting(1), None);
    ThirdPasses(m, a, w, 5, 0, Done(v));
    ThirdCommits(m, a, w, 5, 0, Done(v).(third := Sweeper(5, 0, 0)));
  }

  /** It is replaced again, by a table to which nothing is copied. */
  lemma EntryIsLost(m: Memory, v: Value)
    requires Gone(m, 6) && m.top == 6 && m.next == -1 && m.ctl == 48
    requires Live(m, Idle(Ready), Thread(Counting(1), None), Done(v).(third := Idle(Ready)))
    ensures exists m' :: Lost(m') &&
                         Live(m', Idle(Ready), Thread(Counting(1), None), Done(v).(third := Idle(Ready)))
  {
    hide Live, Empty, Stamp;
    LargerSizes();
    EmptySize(7);
    var w, g := Thread(Counting(1), None), Done(v).(third := Idle(Ready));
    GrowerStarts(m, w, 6, 7, g);
    var m1 := m.(ctl := Stamp(6) + 2, next := 7, index := 64, bins := m.bins[7 := Empty(7)]);
    GrowerClaimsTop(m1, w, 6, g);
    var m2 := m1.(index := 48, ctl := Stamp(6) + 1);
    FirstPasses(m2, w, 6, 48, g);
    SweeperCommits(m2, w, 6, 48, g);
  }

  lemma KeyIsNotFound(m: Memory, v: Value)
    requires Lost(m)
    ensures Find(m, m.top, KEY) == None && !Abstracts(m, map[KEY := v])
  {
    KeyIsFirst();
    EmptySize(7);
    hide BinIndex, Empty;
    assert BinAt(m, 7, 0) == Null;
    assert At(map[KEY := v], KEY) == Some(v);
  }

  /** Some run, in which one thread puts an entry and no other calls an operation, ends with that entry
      gone. */
  lemma EntriesCanBeLost(v: Value)
    ensures exists r :: IsRun(r) && ViewAt(r, |r.moves|) == map[KEY := v] &&
                        Find(r.states[|r.moves|].mem, r.states[|r.moves|].mem.top, KEY) == None &&
                        !Abstracts(r.states[|r.moves|].mem, ViewAt(r, |r.moves|))
  {
    hide Live, Empty, Grown, Closed5, Old, Grown6, Grown7, FirstIsDone, Lost, Abstracts, Find, Marked;
    FirstResizeSweeps();
    var m := Grown();
    WriterComes(m, v);
    SecondResizeCloses(m, v);
    ClosingJoinIsReachable(m, v);
    TwoFinish(m, v);
    FirstFinishes(m, v);
    var m6 :| Grown6(m6) && FirstIsDone(m6, v);
    GrowsAgain(m6, v);
    var m7 :| Grown7(m7) && FirstIsDone(m7, v);
    LastPart(m7, v);
  }

  lemma LastPart(m: Memory, v: Value)
    requires Grown7(m) && FirstIsDone(m, v)
    ensures exists r :: IsRun(r) && ViewAt(r, |r.moves|) == map[KEY := v] &&
                        Find(r.states[|r.moves|].mem, r.states[|r.moves|].mem.top, KEY) == None &&
                        !Abstracts(r.states[|r.moves|].mem, ViewAt(r, |r.moves|))
  {
    hide Live, Empty, FirstIsDone, Lost, Abstracts, Find;
    LargerSizes();
    EmptySize(7);
    EntryIsPut(m, v);
    SecondFinishes(Holding(m, v), v);
    EntryIsLost(Holding(m, v).(next := -1, top := 6, ctl := 48), v);
    var m' :| Lost(m') && Live(m', Idle(Ready), Thread(Counting(1), None), Done(v).(third := Idle(Ready)));
    KeyIsNotFound(m', v);
    RunOf(m', v);
  }

  lemma RunOf(m: Memory, v: Value)
    requires Live(m, Idle(Ready), Thread(Counting(1), None), Done(v).(third := Idle(Ready)))
    ensures exists r :: IsRun(r) && ViewAt(r, |r.moves|) == map[KEY := v] && r.states[|r.moves|].mem == m
  {
    hide IsRun, ViewAt;
  }
}
