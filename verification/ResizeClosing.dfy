/** A run of the concurrent hash map in which a thread counts itself into a resize that counts no
    helper any more (src/chashmap/map.rs).

    The last thread of a resize is copying what is left when a helper of an earlier resize comes by.
    The word is the stamp of the table plus one, which closes a resize to helpers of that table; the
    helper means another one, and joins.  The last thread gives the word back without looking, and
    the helper, when it leaves, takes one from what is now the load factor of the new table. */
module ResizeClosing {
  import opened Bits
  import opened Options
  import opened ResizeInvariant
  import opened ResizeModel
  import opened ResizeProtocol
  import opened ResizeSteps
  import opened ResizeStray
  import opened Values

  // ---- sweeping a table of any size ----

  /** The first `i` bins of table `k` come to be marked as moved. */
  function Marked(m: Memory, k: nat, i: nat): Memory
    requires k in m.bins && i <= |m.bins[k]|
    decreases i
  {
    if i == 0 then m
    else Marked(WithBin(m.(forward := m.forward[k := k + 1]), k, i - 1, Moved), k, i - 1)
  }

  ghost predicate Unmoved(m: Memory, k: nat, i: nat) {
    k in m.bins && k + 1 in m.bins && |m.bins[k]| == Pow2(k) && |m.bins[k + 1]| == 2 * Pow2(k) && i <= Pow2(k) &&
    (k in m.forward ==> m.forward[k] == k + 1) && forall j | 0 <= j < i :: m.bins[k][j] == Null
  }

  lemma {:induction false} SweepsAll(m: Memory, w: Thread, k: nat, i: nat, b: int, g: Setting)
    requires Live(m, Idle(Copy(k, k + 1, i, b, true, Advance)), w, g) && Unmoved(m, k, i)
    ensures Live(Marked(m, k, i), Idle(Copy(k, k + 1, 0, b, true, Advance)), w, g)
    decreases i
  {
    hide Live;
    if i > 0 {
      SweeperMarks(m, w, k, i - 1, b, g);
      var m' := WithBin(m.(forward := m.forward[k := k + 1]), k, i - 1, Moved);
      assert Unmoved(m', k, i - 1);
      SweepsAll(m', w, k, i - 1, b, g);
    }
  }

  /** What the sweep leaves as it was, and what it changes. */
  lemma {:induction false} MarkedIs(m: Memory, k: nat, i: nat)
    requires Unmoved(m, k, i)
    ensures var m' := Marked(m, k, i);
            m' == m.(forward := m'.forward, bins := m'.bins) && m'.bins.Keys == m.bins.Keys &&
            m'.forward == (if i > 0 then m.forward[k := k + 1] else m.forward) &&
            (forall j | j in m.bins && j != k :: m'.bins[j] == m.bins[j]) && |m'.bins[k]| == Pow2(k) &&
            (forall j | 0 <= j < Pow2(k) :: m'.bins[k][j] == if j < i then Moved else m.bins[k][j])
    decreases i
  {
    if i > 0 {
      var m' := WithBin(m.(forward := m.forward[k := k + 1]), k, i - 1, Moved);
      assert Unmoved(m', k, i - 1);
      MarkedIs(m', k, i - 1);
    }
  }

  // ---- the run ----

  function Small(): Memory {
    Memory(4, -1, 0, 12, 0, map[4 := Empty(4)], map[], {})
  }

  lemma MoreSizes()
    ensures Pow2(4) == 16 && Pow2(5) == 32 && Pow2(6) == 64 && LoadFactor(4) == 12 && LoadFactor(5) == 24 &&
            LoadFactor(6) == 48
  {
    Sizes();
    assert Pow2(6) == 2 * Pow2(5);
  }

  lemma SmallIsLive()
    ensures Live(Small(), Idle(Ready), Idle(Ready), CALM)
  {
    MoreSizes();
    var s := State(Small(), Threads(Idle(Ready), Idle(Ready), Idle(Ready)));
    var r := Run([s], []);
    assert Initial(s);
    assert IsRun(r) && r.states[|r.moves|] == s;
  }

  /** The first resize, of 16 bins, before its last thread sweeps. */
  function Growing(): Memory {
    Memory(4, 5, 0, Stamp(4) + 1, 0, map[4 := Empty(4), 5 := Empty(5)], map[], {})
  }

  lemma FirstResizeGrows()
    ensures Live(Growing(), Idle(Copy(4, 5, 16, 0, true, Advance)), Idle(Ready), CALM)
  {
    hide Live, Empty, Stamp;
    MoreSizes();
    SmallIsLive();
    EmptySize(4);
    EmptySize(5);
    GrowerStarts(Small(), Idle(Ready), 4, 5, CALM);
    var m1 := Small().(ctl := Stamp(4) + 2, next := 5, index := 16, bins := map[4 := Empty(4), 5 := Empty(5)]);
    assert m1 == Small().(ctl := Stamp(4) + 2, next := 5, index := 16, bins := Small().bins[5 := Empty(5)]);
    GrowerClaims(m1, Idle(Ready), 4, CALM);
    FirstMoves(m1.(index := 0), Idle(Copy(4, 5, 16, 0, false, Leave(m1.ctl))), Idle(Ready), Go, CALM);
  }

  /** After the sweep; the old table is that of the first resize. */
  ghost predicate Old(m: Memory) {
    4 in m.bins && |m.bins[4]| == 16 && m.bins[4][0] == Moved && 5 in m.bins && |m.bins[5]| == 32 &&
      m.forward == map[4 := 5] && m.locks == {}
  }

  function Writer(v: Value, pc: Pc): Thread {
    Thread(pc, Some(Job(Put(KEY, v, false), 5)))
  }

  function Grown(): Memory
    requires |Growing().bins[4]| == 16
  {
    Marked(Growing(), 4, 16)
  }

  lemma FirstResizeSweeps()
    ensures |Growing().bins[4]| == 16
    ensures var m := Grown();
            Live(m, Idle(Copy(4, 5, 0, 0, true, Advance)), Idle(Ready), CALM) && Old(m) && m.bins[5] == Empty(5) &&
              m.bins.Keys == {4, 5} &&
            m.top == 4 && m.next == 5 && m.ctl == Stamp(4) + 1 && m.index == 0
  {
    hide Live, Stamp;
    MoreSizes();
    EmptySize(4);
    EmptySize(5);
    FirstResizeGrows();
    SweepsAll(Growing(), Idle(Ready), 4, 16, 0, CALM);
    MarkedIs(Growing(), 4, 16);
    hide Marked, Empty;
  }

  lemma WriterComes(m: Memory, v: Value)
    requires Live(m, Idle(Copy(4, 5, 0, 0, true, Advance)), Idle(Ready), CALM) && Old(m) && m.top == 4 && m.next == 5
    ensures Live(m, Idle(Copy(4, 5, 0, 0, true, Advance)), Writer(v, HelpCtl(4, 5)), CALM)
  {
    hide Live;
    MoreSizes();
    var a, op := Idle(Copy(4, 5, 0, 0, true, Advance)), Put(KEY, v, false);
    SecondMoves(m, a, Idle(Ready), Call(op), CALM);
    SecondMoves(m, a, Thread(Ready, Some(Job(op, -1))), Go, CALM);
    KeyIsFirst();
    SecondMoves(m, a, Thread(Ready, Some(Job(op, 4))), Go, CALM);
    SecondMoves(m, a, Writer(v, HelpNext(4, 5)), Go, CALM);
    SecondMoves(m, a, Writer(v, HelpTable(4, 5)), Go, CALM);
  }

  lemma KeyIsFirst()
    ensures forall k: nat :: BinIndex(KEY.hash, k) == 0
  {
    forall k: nat
      ensures BinIndex(KEY.hash, k) == 0
    {
      SplitIndex(KEY.hash, k);
    }
  }

  /** The last thread of a resize of more bins than one claim takes. */
  lemma GrowerClaimsTop(m: Memory, w: Thread, k: nat, g: Setting)
    requires Live(m, Idle(Copy(k, k + 1, 0, 0, false, Advance)), w, g) && m.index == Pow2(k) > MIN_STRIDE &&
             m.ctl == Stamp(k) + 2
    requires k in m.bins && |m.bins[k]| == Pow2(k) && k + 1 in m.bins
    ensures Live(m.(index := Pow2(k) - MIN_STRIDE, ctl := Stamp(k) + 1),
            Idle(Copy(k, k + 1, Pow2(k), Pow2(k) - MIN_STRIDE, true, Advance)), w, g)
  {
    hide Live;
    FirstMoves(m, Idle(Copy(k, k + 1, 0, 0, false, Advance)), w, Go, g);
    FirstMoves(m, Idle(Copy(k, k + 1, -1, 0, false, Claim(m.index))), w, Stride(MIN_STRIDE), g);
    var m1, b := m.(index := Pow2(k) - MIN_STRIDE), Pow2(k) - MIN_STRIDE;
    FirstMoves(m1, Idle(Copy(k, k + 1, Pow2(k), b, false, Decide)), w, Go, g);
    FirstMoves(m1, Idle(Copy(k, k + 1, Pow2(k), b, false, Leave(m.ctl))), w, Go, g);
  }

  // ---- the join ----

  /** The second resize, of 32 bins, while its last thread sweeps. */
  function Closed5(m: Memory): Memory {
    m.(next := 6, top := 5, ctl := Stamp(5) + 1, index := 16, bins := m.bins[6 := Empty(6)])
  }

  lemma SecondResizeCloses(m: Memory, v: Value)
    requires Live(m, Idle(Copy(4, 5, 0, 0, true, Advance)), Writer(v, HelpCtl(4, 5)), CALM)
    requires Old(m) && m.top == 4 && m.next == 5
    ensures Live(Closed5(m), Idle(Copy(5, 6, 32, 16, true, Advance)), Writer(v, HelpCtl(4, 5)), CALM)
  {
    hide Live, Empty;
    MoreSizes();
    EmptySize(6);
    var w := Writer(v, HelpCtl(4, 5));
    SweeperCommits(m, w, 4, 0, CALM);
    var m1 := m.(next := -1, top := 5, ctl := 24);
    GrowerStarts(m1, w, 5, 6, CALM);
    var m2 := m1.(ctl := Stamp(5) + 2, next := 6, index := 32, bins := m1.bins[6 := Empty(6)]);
    GrowerClaimsTop(m2, w, 5, CALM);
    assert m2.(index := 16, ctl := Stamp(5) + 1) == Closed5(m);
  }

  /** A stray join is possible while the word counts no helper, and the index has something left. */
  lemma ClosingJoinIsReachable(m: Memory, v: Value)
    requires Live(Closed5(m), Idle(Copy(5, 6, 32, 16, true, Advance)), Writer(v, HelpCtl(4, 5)), CALM)
    ensures Live(Closed5(m), Idle(Copy(5, 6, 32, 16, true, Advance)), Writer(v, JoinCas(Stamp(5) + 1, 4, 5)), CALM)
    ensures Harms(Closed5(m), JoinCas(Stamp(5) + 1, 4, 5))
  {
    hide Live;
    var a := Idle(Copy(5, 6, 32, 16, true, Advance));
    SecondMoves(Closed5(m), a, Writer(v, HelpCtl(4, 5)), Go, CALM);
    SecondMoves(Closed5(m), a, Writer(v, HelpIndex(Stamp(5) + 1, 4, 5)), Go, CALM);
    WordOfResize(5, 0);
  }

  /** After the commit of the second resize, with the helper still in its loop. */
  ghost predicate Committed(m: Memory) {
    4 in m.bins && |m.bins[4]| == 16 && 5 in m.bins && m.top == 6 && m.ctl == 48 && m.index == 16
  }

  function Joined(m: Memory): Memory {
    Closed5(m).(ctl := Stamp(5) + 2)
  }

  lemma LastThreadCommits(m: Memory, v: Value)
    requires Live(Closed5(m), Idle(Copy(5, 6, 32, 16, true, Advance)), Writer(v, JoinCas(Stamp(5) + 1, 4, 5)), CALM)
    requires Old(m) && m.bins[5] == Empty(5)
    ensures Unmoved(Joined(m), 5, 32)
    ensures var m' := Marked(Joined(m), 5, 32).(next := -1, top := 6, ctl := 48);
            Live(m', Idle(Ready), Writer(v, Copy(4, 5, 0, 0, false, Advance)), ROUGH) && Committed(m')
  {
    hide Live, Empty, Stamp;
    MoreSizes();
    EmptySize(5);
    EmptySize(6);
    Unsettled(Closed5(m), Idle(Copy(5, 6, 32, 16, true, Advance)), Writer(v, JoinCas(Stamp(5) + 1, 4, 5)));
    SecondMoves(Closed5(m), Idle(Copy(5, 6, 32, 16, true, Advance)), Writer(v, JoinCas(Stamp(5) + 1, 4, 5)), Go, ROUGH);
    var w, j := Writer(v, Copy(4, 5, 0, 0, false, Advance)), Joined(m);
    SweepsAll(j, w, 5, 32, 16, ROUGH);
    MarkedIs(j, 5, 32);
    hide Marked;
    SweeperCommits(Marked(j, 5, 32), w, 5, 16, ROUGH);
  }

  lemma Unsettled(m: Memory, a: Thread, w: Thread)
    requires Live(m, a, w, CALM)
    ensures Live(m, a, w, ROUGH)
  {
  }

  /** The helper leaves, and takes one from the load factor. */
  lemma HelperLeaves(m: Memory, w: Value)
    requires Live(m, Idle(Ready), Writer(w, Copy(4, 5, 0, 0, false, Advance)), ROUGH) && Committed(m)
    ensures Live(m.(index := 0, ctl := 47), Idle(Ready), Writer(w, Ready), ROUGH)
  {
    hide Live;
    MoreSizes();
    var a := Idle(Ready);
    SecondMoves(m, a, Writer(w, Copy(4, 5, 0, 0, false, Advance)), Go, ROUGH);
    SecondMoves(m, a, Writer(w, Copy(4, 5, -1, 0, false, Claim(16))), Stride(MIN_STRIDE), ROUGH);
    var m1 := m.(index := 0);
    SecondMoves(m1, a, Writer(w, Copy(4, 5, 16, 0, false, Decide)), Go, ROUGH);
    SecondMoves(m1, a, Writer(w, Copy(4, 5, 16, 0, false, Leave(48))), Go, ROUGH);
  }

  /** The word of a table whose resize is over, and which nobody resizes, is not its load factor. */
  ghost predicate WordIsWrong(s: State) {
    s.mem.ctl >= 0 && s.mem.top >= 0 && s.mem.ctl == LoadFactor(s.mem.top) - 1 && Active(s.threads) == {} &&
      Finishers(s.threads) == {}
  }

  lemma WrongEnd(m: Memory, v: Value)
    requires Live(m.(index := 0, ctl := 47), Idle(Ready), Writer(v, Ready), ROUGH) && Committed(m)
    ensures exists s :: Reachable(s, false) && WordIsWrong(s) && !ControlOk(s.mem)
  {
    hide Live, Reachable;
    MoreSizes();
    var s := State(m.(index := 0, ctl := 47), Threads(Idle(Ready), Writer(v, Ready), Idle(Ready)));
    LiveIsReachable(s.mem, Idle(Ready), Writer(v, Ready), ROUGH);
    assert Active(s.threads) == {} && Finishers(s.threads) == {};
    assert WordIsWrong(s) && !ControlOk(s.mem);
  }

  /** A join that harms leaves the control word wrong. */
  lemma WrongWordIsReachable(v: Value)
    ensures exists s :: Reachable(s, false) && WordIsWrong(s) && !ControlOk(s.mem)
  {
    hide Live, Empty, Reachable, Marked, Grown, Joined, Closed5, Old, Committed;
    FirstResizeSweeps();
    var m := Grown();
    WriterComes(m, v);
    SecondResizeCloses(m, v);
    ClosingJoinIsReachable(m, v);
    LastThreadCommits(m, v);
    var m' := Marked(Joined(m), 5, 32).(next := -1, top := 6, ctl := 48);
    HelperLeaves(m', v);
    WrongEnd(m', v);
  }
}
