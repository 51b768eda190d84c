/** The concurrent hash map as a state machine: any number of threads read, write and resize it
    together (src/chashmap/map.rs, src/chashmap/raw/mod.rs).

    A table of 2^k bins is named by `k`.  One step of a thread is one access to memory that other
    threads see, with the computation up to the next one; work done under the lock of a bin is one
    step for each bin that it stores.  A thread that holds no lock and is at the head of its loop
    is `Ready`.

    A bin is a map here, and an operation reads it in one step.  The source walks the nodes of a bin,
    a lookup without its lock: BinWalk shows that it gives what the bin held at one moment of the walk,
    also when the bin is split meanwhile.  What is done to those nodes is the subject of BinSplit,
    TreeSplit and TreeBins; BinMaps shows that it is what is done here to maps. */
module ResizeModel {
  import opened Bits
  import opened Options
  import opened Values

  /** A key, with its hash. */
  datatype Key = Key(hash: nat, id: int)

  // ---- the control word ----

  const MAX_EXPONENT: nat := 30
  const DEFAULT_EXPONENT: nat := 4
  const MIN_STRIDE := 16
  const MAX_RESIZERS := 0xFFFF_FFFF
  const STAMP_UNIT := 0x1_0000_0000
  const LOWEST := -0x8000_0000_0000_0000

  /** The stamp of a table of 2^k bins: a high bit that makes it negative, and the leading zeros
      of the size, in the upper half of a 64-bit word. */
  function Stamp(k: int): int {
    LOWEST + (63 - k) * STAMP_UNIT
  }

  /** The table that the control word of a resize belongs to. */
  function ExponentOf(ctl: int): int {
    63 - (ctl - LOWEST) / STAMP_UNIT
  }

  /** The number of resizers that the control word of a resize counts. */
  function Helpers(ctl: int): int {
    (ctl - LOWEST) % STAMP_UNIT - 1
  }

  /** The number of entries at which a table of 2^k bins is resized. */
  function LoadFactor(k: nat): nat {
    Pow2(k) - Pow2(k) / 4
  }

  // ---- what an operation does ----

  datatype Op =
    | Get(key: Key)
    | Put(key: Key, value: Value, keep: bool)
    | Replace(key: Key, new': Option<Value>, observed: Option<Value>)

  function At(m: map<Key, Value>, key: Key): Option<Value> {
    if key in m then Some(m[key]) else None
  }

  predicate Replaces(op: Op, m: map<Key, Value>)
    requires op.Replace?
  {
    op.key in m && (op.observed.None? || op.observed.value == m[op.key])
  }

  /** The map after `op`. */
  function Effect(op: Op, m: map<Key, Value>): map<Key, Value> {
    match op
    case Get(_) => m
    case Put(key, value, keep) => if key in m && keep then m else m[key := value]
    case Replace(key, new', _) =>
      if !Replaces(op, m) then m else if new'.None? then m - {key} else m[key := new'.value]
  }

  /** What `op` returns: the value that was there, or that it replaced. */
  function Result(op: Op, m: map<Key, Value>): Option<Value> {
    if op.Replace? && !Replaces(op, m) then None else At(m, op.key)
  }

  // ---- memory ----

  datatype Bin = Null | Moved | Full(entries: map<Key, Value>)

  function Entries(b: Bin): map<Key, Value> {
    if b.Full? then b.entries else map[]
  }

  function ToBin(entries: map<Key, Value>): Bin {
    if entries == map[] then Null else Full(entries)
  }

  /** What all threads see.  `top` is the current table and `next` the one that a resize fills, or
      -1; `forward` gives each table's own pointer to the next one; `locks` holds the bins whose
      lock is held between two steps. */
  datatype Memory = Memory(
    top: int, next: int, index: int, ctl: int, count: int,
    bins: map<int, seq<Bin>>, forward: map<int, int>, locks: set<(int, int)>
  )

  function Index(op: Op, k: nat): nat {
    BinIndex(op.key.hash, k)
  }

  function Empty(k: nat): seq<Bin> {
    seq(Pow2(k), i => Null)
  }

  function WithBin(m: Memory, k: int, i: int, b: Bin): Memory
    requires k in m.bins && 0 <= i < |m.bins[k]|
  {
    m.(bins := m.bins[k := m.bins[k][i := b]])
  }

  /** The entries of a bin that go to the upper half of the next table, or those that do not. */
  function Part(entries: map<Key, Value>, k: nat, high: bool): map<Key, Value> {
    map key | key in entries && (And(key.hash, Pow2(k)) != 0) == high :: entries[key]
  }

  // ---- threads ----

  /** Where a thread is inside the copying loop of a transfer. */
  datatype Point =
    | Advance
    | Claim(index: int)
    | Decide
    | Leave(ctl: int)
    | SawNull
    | NullForwarded
    | SawFull
    | Locked
    | LowStored
    | HighStored
    | Forwarded

  datatype Pc =
    | Ready
    // making the first table
    | InitSawNone
    | InitSawCtl(ctl: int)
    | InitOwns(ctl: int)
    | InitStores(ctl: int)
    // growing to a wanted size
    | PresizeSawCtl(want: nat, ctl: int)
    | PresizeSawNone(want: nat, ctl: int)
    | PresizeOwns(want: nat, ctl: int)
    | PresizeSawTable(want: nat, ctl: int, tab: int)
    | StartCas(ctl: int, tab: int)
    // counting
    | Counting(delta: int)
    | CountReady
    | CountSawCtl(ctl: int)
    | CountSawTable(ctl: int, tab: int)
    | CountSawNext(ctl: int, tab: int, next: int)
    | JoinCas(ctl: int, tab: int, next: int)
    // helping
    | HelpNext(tab: int, next: int)
    | HelpTable(tab: int, next: int)
    | HelpCtl(tab: int, next: int)
    | HelpIndex(ctl: int, tab: int, next: int)
    // the transfer
    | Begin(tab: int)
    | SetIndex(tab: int)
    | Copy(tab: int, next: int, i: int, bound: int, finishing: bool, at: Point)
    | Install(tab: int, next: int)
    | Release(tab: int)

  /** An operation under way, and the table it has got to, or -1. */
  datatype Job = Job(op: Op, tab: int)

  datatype Thread = Thread(pc: Pc, job: Option<Job>)

  /** What a thread may choose: what to call, its stride, and whether to go on at a point where the
      model leaves that open. */
  datatype Choice = Go | Stop | Call(op: Op) | Grow(want: nat) | Stride(stride: int)

  datatype Event = Silent | Did(op: Op, result: Option<Value>)

  datatype Outcome = Blocked | Next(mem: Memory, thread: Thread, event: Event)

  // ---- the steps ----

  function Quiet(m: Memory, th: Thread, pc: Pc): Outcome {
    Next(m, th.(pc := pc), Silent)
  }

  /** One step of a thread at `th.pc`. */
  function Step(m: Memory, th: Thread, c: Choice): Outcome {
    match th.pc
    case Ready => if th.job.None? then StepIdle(m, th, c) else StepJob(m, th, th.job.value)
    case InitSawNone => Quiet(m, th, if m.ctl < 0 then Ready else InitSawCtl(m.ctl))
    case InitSawCtl(ctl) =>
      if m.ctl == ctl then Quiet(m.(ctl := -1), th, InitOwns(ctl)) else Quiet(m, th, Ready)
    case InitOwns(ctl) =>
      if m.top != -1 then Quiet(m, th, InitStores(ctl))
      else if ctl != 0 then Blocked
      else Quiet(WithTable(m, DEFAULT_EXPONENT), th, InitStores(LoadFactor(DEFAULT_EXPONENT)))
    case InitStores(ctl) =>
      Next(m.(ctl := ctl), Thread(Ready, if th.job.None? then None else Some(th.job.value.(tab := m.top))), Silent)
    case PresizeSawCtl(want, ctl) =>
      Quiet(m, th, if m.top == -1 then PresizeSawNone(want, ctl)
                   else if Pow2(want) <= ctl || m.top >= MAX_EXPONENT then Ready
                   else PresizeSawTable(want, ctl, m.top))
    case PresizeSawNone(want, ctl) =>
      if m.ctl == ctl then Quiet(m.(ctl := -1), th, PresizeOwns(want, ctl)) else Quiet(m, th, Ready)
    case PresizeOwns(want, ctl) =>
      if m.top != -1 then Quiet(m, th, InitStores(ctl))
      else if ctl != 0 then Blocked
      else Quiet(WithTable(m, want), th, InitStores(LoadFactor(want)))
    case PresizeSawTable(want, ctl, tab) => Quiet(m, th, if m.top == tab then StartCas(ctl, tab) else Ready)
    case StartCas(ctl, tab) =>
      if m.ctl == ctl then Quiet(m.(ctl := Stamp(tab) + 2), th, Begin(tab)) else Quiet(m, th, Ready)
    case Counting(delta) => Quiet(m.(count := m.count + delta), th, if delta > 0 then CountReady else Ready)
    case CountReady => Quiet(m, th, if c.Stop? then Ready else CountSawCtl(m.ctl))
    case CountSawCtl(ctl) =>
      Quiet(m, th, if m.top == -1 || m.top >= MAX_EXPONENT then Ready else CountSawTable(ctl, m.top))
    case CountSawTable(ctl, tab) =>
      Quiet(m, th, if ctl >= 0 then StartCas(ctl, tab)
                   else if Closed(ctl, tab) || m.next == -1 then Ready
                   else CountSawNext(ctl, tab, m.next))
    case CountSawNext(ctl, tab, next) => Quiet(m, th, if m.index <= 0 then Ready else JoinCas(ctl, tab, next))
    case JoinCas(ctl, tab, next) =>
      if m.ctl == ctl then Quiet(m.(ctl := ctl + 1), th, Copy(tab, next, 0, 0, false, Advance))
      else Quiet(m, th, if th.job.None? then CountReady else HelpNext(tab, next))
    case HelpNext(tab, next) => Quiet(m, th, if m.next == next then HelpTable(tab, next) else Ready)
    case HelpTable(tab, next) => Quiet(m, th, if m.top == tab then HelpCtl(tab, next) else Ready)
    case HelpCtl(tab, next) =>
      Quiet(m, th, if m.ctl >= 0 || Closed(m.ctl, tab) then Ready else HelpIndex(m.ctl, tab, next))
    case HelpIndex(ctl, tab, next) => Quiet(m, th, if m.index <= 0 then Ready else JoinCas(ctl, tab, next))
    case Begin(tab) => StepBegin(m, th, tab)
    case SetIndex(tab) =>
      if tab < 0 then Blocked else Quiet(m.(index := Pow2(tab)), th, Copy(tab, m.next, 0, 0, false, Advance))
    case Copy(_, _, _, _, _, _) => StepCopy(m, th, c)
    case Install(tab, next) => Quiet(m.(top := next), th, Release(tab))
    case Release(tab) =>
      if tab < 0 then Blocked else Quiet(m.(ctl := 2 * Pow2(tab) - Pow2(tab) / 2), th, Ready)
  }

  /** Nobody may join a resize of `tab` any more, as far as the word says. */
  predicate Closed(ctl: int, tab: int) {
    ctl == Stamp(tab) + MAX_RESIZERS || ctl == Stamp(tab) + 1
  }

  /** The first table is in place. */
  function WithTable(m: Memory, k: nat): Memory {
    m.(top := k, bins := m.bins[k := Empty(k)])
  }

  /** A thread with nothing to do calls an operation, asks for more room, or looks at the size. */
  function StepIdle(m: Memory, th: Thread, c: Choice): Outcome {
    match c
    case Call(op) => Next(m, th.(job := Some(Job(op, -1))), Silent)
    case Grow(want) => if want > MAX_EXPONENT || m.ctl < 0 then Blocked else Quiet(m, th, PresizeSawCtl(want, m.ctl))
    case Go => Quiet(m, th, CountReady)
    case _ => Blocked
  }

  /** An operation finds its table, or works on its bin, or follows the bin to the next table. */
  function StepJob(m: Memory, th: Thread, job: Job): Outcome {
    if job.tab == -1 then
      if m.top != -1 then Next(m, th.(job := Some(job.(tab := m.top))), Silent)
      else if job.op.Put? then Quiet(m, th, InitSawNone)
      else Next(m, Thread(Ready, None), Did(job.op, None))
    else if job.tab < 0 || job.tab !in m.bins || Index(job.op, job.tab) >= |m.bins[job.tab]| then Blocked
    else StepBin(m, th, job, Index(job.op, job.tab))
  }

  function StepBin(m: Memory, th: Thread, job: Job, i: nat): Outcome
    requires job.tab in m.bins && i < |m.bins[job.tab]|
  {
    var tab, b := job.tab, m.bins[job.tab][i];
    if b.Moved? then
      if tab !in m.forward then Blocked
      else Next(m, Thread(if job.op.Get? then Ready
        else HelpNext(tab, m.forward[tab]), Some(job.(tab := m.forward[tab]))), Silent)
    else
      var before := Entries(b);
      var after := Effect(job.op, before);
      if after != before && (tab, i) in m.locks then Blocked
      else
        Next(if after == before then m else WithBin(m, tab, i, ToBin(after)),
             Thread(if |after| != |before| then Counting(|after| - |before|) else Ready, None),
             Did(job.op, Result(job.op, before)))
  }

  /** The thread that starts a resize makes the next table; one left from before would be a panic. */
  function StepBegin(m: Memory, th: Thread, tab: int): Outcome {
    if tab < 0 || m.next != -1 then Blocked
    else Quiet(m.(next := tab + 1, bins := m.bins[tab + 1 := Empty(tab + 1)]), th, SetIndex(tab))
  }

  // ---- one turn of the copying loop ----

  function StepCopy(m: Memory, th: Thread, c: Choice): Outcome
    requires th.pc.Copy?
  {
    var Copy(tab, next, i, bound, finishing, at) := th.pc;
    if tab < 0 || tab !in m.bins || next !in m.bins || |m.bins[tab]| != Pow2(tab) then Blocked
    else
      match at
      case Advance =>
        if i - 1 >= bound || finishing then To(m, th, i - 1, Decide)
        else if m.index <= 0 then To(m, th, -1, Decide)
        else To(m, th, i - 1, Claim(m.index))
      case Claim(seen) =>
        if !c.Stride? || c.stride < MIN_STRIDE then Blocked
        else if m.index != seen then To(m, th, i, Advance)
        else
          var bound' := if seen > c.stride then seen - c.stride else 0;
          Quiet(m.(index := bound'), th, th.pc.(i := seen, bound := bound', at := Decide))
      case Decide => StepDecide(m, th, tab, next, i, finishing)
      case Leave(seen) =>
        if m.ctl != seen then To(m, th, i, Decide)
        else if seen - 2 != Stamp(tab) then Quiet(m.(ctl := seen - 1), th, Ready)
        else Quiet(m.(ctl := seen - 1), th, th.pc.(finishing := true, i := Pow2(tab), at := Advance))
      case _ => if 0 <= i < Pow2(tab) <= i + Pow2(tab) < |m.bins[next]| then StepMove(m, th, c, tab, next, i, at)
        else Blocked
  }

  function To(m: Memory, th: Thread, i: int, at: Point): Outcome
    requires th.pc.Copy?
  {
    Quiet(m, th, th.pc.(i := i, at := at))
  }

  /** Past the ends there is nothing to copy: the last thread commits, the others leave. */
  function StepDecide(m: Memory, th: Thread, tab: int, next: int, i: int, finishing: bool): Outcome
    requires th.pc.Copy? && tab >= 0 && tab in m.bins && next in m.bins && |m.bins[tab]| == Pow2(tab)
  {
    if i < 0 || i >= Pow2(tab) || i + Pow2(tab) >= |m.bins[next]| then
      if finishing then Quiet(m.(next := -1), th, Install(tab, next))
      else To(m, th, i, Leave(m.ctl))
    else
      match m.bins[tab][i]
      case Null => To(m, th, i, SawNull)
      case Moved => To(m, th, i, Advance)
      case Full(_) => To(m, th, i, SawFull)
  }

  /** Moving one bin: an empty one by swapping the mark in, a full one under its lock. */
  function StepMove(m: Memory, th: Thread, c: Choice, tab: nat, next: int, i: int, at: Point): Outcome
    requires th.pc.Copy? && tab in m.bins && next in m.bins && |m.bins[tab]| == Pow2(tab)
    requires 0 <= i < Pow2(tab) <= i + Pow2(tab) < |m.bins[next]|
  {
    var b := m.bins[tab][i];
    match at
    case SawNull => StepForward(m, th, tab, next, NullForwarded)
    case NullForwarded =>
      if b.Null? then Quiet(WithBin(m, tab, i, Moved), th, th.pc.(at := Advance)) else To(m, th, i, Decide)
    case SawFull =>
      if c.Stop? then To(m, th, i, Decide)
      else if !b.Full? || (tab, i) in m.locks then Blocked
      else Quiet(m.(locks := m.locks + {(tab, i)}), th, th.pc.(at := Locked))
    case Locked => Quiet(WithBin(m, next, i, ToBin(Part(Entries(b), tab, false))), th, th.pc.(at := LowStored))
    case LowStored => Quiet(WithBin(m, next, i + Pow2(tab), ToBin(Part(Entries(b), tab, true))), th,
      th.pc.(at := HighStored))
    case HighStored => StepForward(m, th, tab, next, Forwarded)
    case Forwarded => Quiet(WithBin(m.(locks := m.locks - {(tab, i)}), tab, i, Moved), th, th.pc.(at := Advance))
    case _ => Blocked
  }

  /** The table gets its own pointer to the next one; another pointer there would be a panic. */
  function StepForward(m: Memory, th: Thread, tab: int, next: int, at: Point): Outcome
    requires th.pc.Copy?
  {
    if tab in m.forward && m.forward[tab] != next then Blocked
    else Quiet(m.(forward := m.forward[tab := next]), th, th.pc.(at := at))
  }
}
