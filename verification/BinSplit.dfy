/** Splitting one bin of a table into two bins of a table of twice the size
    (src/chashmap/map.rs). */
module BinSplit {
  import opened Bits
  import opened TreeNodes
  import opened Values

  /** A node of a bin that is a list. */
  class BinNode {
    const hash: nat
    const key: int
    var value: Value
    var next: BinNode?

    constructor (hash: nat, key: int, value: Value, next: BinNode?)
      ensures this.hash == hash && this.key == key && this.value == value && this.next == next
    {
      this.hash, this.key, this.value, this.next := hash, key, value, next;
    }
  }

  datatype Entry = Entry(hash: nat, key: int, value: Value)

  // ---- entries ----

  /** The entry goes to the upper half of the next table. */
  predicate GoesUp(hash: nat, k: nat) {
    And(hash, Pow2(k)) != 0
  }

  /** The entries that go to the upper half of a table of 2^(k+1) bins, or those that do not. */
  ghost function Half(es: seq<Entry>, k: nat, up: bool): (r: seq<Entry>)
    ensures forall e <- r :: e in es && GoesUp(e.hash, k) == up
  {
    if es == [] then []
    else
      var r := Half(es[..|es| - 1], k, up);
      if GoesUp(es[|es| - 1].hash, k) == up then r + [es[|es| - 1]] else r
  }

  lemma {:induction false} HalvesAreAll(es: seq<Entry>, k: nat)
    ensures multiset(Half(es, k, false)) + multiset(Half(es, k, true)) == multiset(es)
  {
    if es != [] {
      HalvesAreAll(es[..|es| - 1], k);
      assert es == es[..|es| - 1] + [es[|es| - 1]];
    }
  }

  /** An entry of bin `i` goes to bin `i` of the next table, or to bin `i` plus the old size. */
  lemma HalfIsPlaced(e: Entry, k: nat, i: nat)
    requires BinIndex(e.hash, k) == i
    ensures BinIndex(e.hash, k + 1) == if GoesUp(e.hash, k) then i + Pow2(k) else i
  {
    SplitIndex(e.hash, k);
  }

  /** All entries belong in bin `i` of a table of 2^k bins. */
  ghost predicate AllIn(es: seq<Entry>, k: nat, i: nat) {
    forall e <- es :: BinIndex(e.hash, k) == i
  }

  /** `low` and `high` have the entries of bin `i` between them, each once, and each entry is where
      it belongs in a table of twice the size. */
  ghost predicate IsSplit(es: seq<Entry>, low: seq<Entry>, high: seq<Entry>, k: nat, i: nat) {
    multiset(low) + multiset(high) == multiset(es) && AllIn(low, k + 1, i) && AllIn(high, k + 1, i + Pow2(k))
  }

  lemma HalvesAreSplit(es: seq<Entry>, k: nat, i: nat)
    requires AllIn(es, k, i)
    ensures IsSplit(es, Half(es, k, false), Half(es, k, true), k, i)
  {
    HalvesAreAll(es, k);
    forall e, up | e in Half(es, k, up)
      ensures BinIndex(e.hash, k + 1) == if up then i + Pow2(k) else i
    {
      assert e in es && GoesUp(e.hash, k) == up;
      HalfIsPlaced(e, k, i);
    }
    hide Half, GoesUp, BinIndex;
  }

  // ---- lists ----

  ghost function NodeAt(s: seq<BinNode>, i: int): BinNode? {
    if 0 <= i < |s| then s[i] else null
  }

  /** The list from `first` has the nodes of `s`. */
  ghost predicate IsList(s: seq<BinNode>, first: BinNode?)
    reads s`next
  {
    first == NodeAt(s, 0) && forall i :: 0 <= i < |s| ==> s[i].next == NodeAt(s, i + 1)
  }

  /** A list does not come back to a node. */
  lemma {:induction false} NodesDiffer(s: seq<BinNode>, first: BinNode?, i: nat, j: nat)
    requires IsList(s, first) && i < j < |s|
    ensures s[i] != s[j]
    decreases |s| - j
  {
    if j + 1 < |s| {
      NodesDiffer(s, first, i + 1, j + 1);
    }
    assert s[j].next == NodeAt(s, j + 1) && s[i].next == NodeAt(s, i + 1);
  }

  ghost function EntryOf(n: BinNode): Entry
    reads n`value
  {
    Entry(n.hash, n.key, n.value)
  }

  ghost function EntriesOf(s: seq<BinNode>): (r: seq<Entry>)
    reads s`value
    ensures |r| == |s| && forall i :: 0 <= i < |s| ==> r[i] == EntryOf(s[i])
  {
    if s == [] then [] else EntriesOf(s[..|s| - 1]) + [EntryOf(s[|s| - 1])]
  }

  /** All nodes of `s` from `from` on go the same way. */
  ghost predicate OneWay(s: seq<BinNode>, from: nat, k: nat, up: bool) {
    forall i :: from <= i < |s| ==> GoesUp(s[i].hash, k) == up
  }

  /** Where the last run of nodes that go the same way begins. */
  method FindLastRun(bin: BinNode, k: nat, ghost s: seq<BinNode>) returns (lastRun: BinNode, runUp: bool, ghost at: nat)
    requires IsList(s, bin) && |s| > 0
    ensures at < |s| && lastRun == s[at] && OneWay(s, at, k, runUp)
    ensures at > 0 ==> GoesUp(s[at - 1].hash, k) != runUp
  {
    runUp := GoesUp(bin.hash, k);
    lastRun, at := bin, 0;
    var p := bin;
    ghost var i := 0;
    while true
      invariant 0 <= at <= i < |s| && p == s[i] && lastRun == s[at] && (i > 0 ==> at < i)
      invariant i > 0 ==> forall j :: at <= j < i ==> GoesUp(s[j].hash, k) == runUp
      invariant i == 0 ==> runUp == GoesUp(bin.hash, k)
      invariant at > 0 ==> GoesUp(s[at - 1].hash, k) != runUp
      decreases |s| - i
    {
      var next := p.next;
      var b := GoesUp(p.hash, k);
      assert i > 0 ==> GoesUp(s[i - 1].hash, k) == runUp;
      if b != runUp {
        runUp := b;
        lastRun, at := p, i;
      }
      if next == null {
        break;
      }
      p := next;
      i := i + 1;
    }
  }

  // ---- splitting a list ----

  /** The entries of a half of the prefix, last first. */
  ghost function Reversed(es: seq<Entry>): seq<Entry> {
    if es == [] then [] else [es[|es| - 1]] + Reversed(es[..|es| - 1])
  }

  lemma {:induction false} ReversedIsPermutation(es: seq<Entry>)
    ensures multiset(Reversed(es)) == multiset(es)
  {
    if es != [] {
      ReversedIsPermutation(es[..|es| - 1]);
      assert es == es[..|es| - 1] + [es[|es| - 1]];
    }
  }

  /** What a half of the list becomes: the nodes before the last run in front, last first, and
      behind them the last run itself, if it goes that way. */
  ghost function SplitHalf(es: seq<Entry>, at: nat, k: nat, up: bool): seq<Entry>
    requires at <= |es|
  {
    Reversed(Half(es[..at], k, up)) + Half(es[at..], k, up)
  }

  lemma {:induction false} HalfOfBoth(a: seq<Entry>, b: seq<Entry>, k: nat, up: bool)
    ensures Half(a + b, k, up) == Half(a, k, up) + Half(b, k, up)
  {
    if b == [] {
      assert a + b == a;
    } else {
      assert (a + b)[..|a + b| - 1] == a + b[..|b| - 1];
      HalfOfBoth(a, b[..|b| - 1], k, up);
    }
  }

  /** A half of the list has the entries that go that way, each once. */
  lemma SplitHalfIsHalf(es: seq<Entry>, at: nat, k: nat, up: bool)
    requires at <= |es|
    ensures multiset(SplitHalf(es, at, k, up)) == multiset(Half(es, k, up))
  {
    assert es == es[..at] + es[at..];
    HalfOfBoth(es[..at], es[at..], k, up);
    ReversedIsPermutation(Half(es[..at], k, up));
  }

  /** The halves of a split list are a split of its entries. */
  lemma ListIsSplit(es: seq<Entry>, at: nat, k: nat, i: nat)
    requires at <= |es| && AllIn(es, k, i)
    ensures IsSplit(es, SplitHalf(es, at, k, false), SplitHalf(es, at, k, true), k, i)
  {
    hide SplitHalf, Half, BinIndex;
    HalvesAreSplit(es, k, i);
    SplitHalfIsHalf(es, at, k, false);
    SplitHalfIsHalf(es, at, k, true);
    forall e, up | e in SplitHalf(es, at, k, up)
      ensures e in Half(es, k, up)
    {
      SplitHalfIsHalf(es, at, k, up);
      assert e in multiset(SplitHalf(es, at, k, up));
    }
  }

  lemma {:induction false} HalfOfRun(es: seq<Entry>, k: nat, up: bool, runUp: bool)
    requires forall e <- es :: GoesUp(e.hash, k) == runUp
    ensures Half(es, k, up) == if up == runUp then es else []
  {
    if es != [] {
      HalfOfRun(es[..|es| - 1], k, up, runUp);
      assert es == es[..|es| - 1] + [es[|es| - 1]];
    }
  }

  lemma Prepend(n: BinNode, s: seq<BinNode>)
    ensures EntriesOf([n] + s) == [EntryOf(n)] + EntriesOf(s)
  {
  }

  lemma HalfOfNext(es: seq<Entry>, i: nat, k: nat, up: bool)
    requires i < |es|
    ensures Reversed(Half(es[..i + 1], k, up)) ==
            if GoesUp(es[i].hash, k) == up then [es[i]] + Reversed(Half(es[..i], k, up))
              else Reversed(Half(es[..i], k, up))
  {
    assert es[..i + 1][..i] == es[..i];
    var r := Half(es[..i], k, up);
    assert (r + [es[i]])[..|r|] == r;
  }

  lemma EntriesFrom(s: seq<BinNode>, at: nat)
    requires at <= |s|
    ensures EntriesOf(s[at..]) == EntriesOf(s)[at..]
  {
  }

  /** One node more in front of a list. */
  method PutInFront(p: BinNode, link: BinNode?, ghost l: seq<BinNode>) returns (n: BinNode)
    requires IsList(l, link)
    ensures fresh(n) && IsList([n] + l, n) && EntriesOf([n] + l) == [EntryOf(p)] + EntriesOf(l)
  {
    n := new BinNode(p.hash, p.key, p.value, link);
    Prepend(n, l);
  }

  /** The halves of a list while its nodes before the last run are being copied. */
  ghost predicate Halves(lo: seq<BinNode>, hi: seq<BinNode>, low: BinNode?, high: BinNode?, es: seq<Entry>, at: nat,
                         i: nat, k: nat)
    reads lo, hi
    requires i <= at <= |es|
  {
    IsList(lo, low) && IsList(hi, high) &&
    EntriesOf(lo) == Reversed(Half(es[..i], k, false)) + Half(es[at..], k, false) &&
    EntriesOf(hi) == Reversed(Half(es[..i], k, true)) + Half(es[at..], k, true)
  }

  lemma ListFrom(s: seq<BinNode>, bin: BinNode, at: nat)
    requires IsList(s, bin) && at < |s|
    ensures IsList(s[at..], s[at]) && IsList([], null) && EntriesOf([]) == []
  {
  }

  lemma RunEntries(s: seq<BinNode>, at: nat, k: nat, runUp: bool)
    requires at <= |s| && OneWay(s, at, k, runUp)
    ensures forall e <- EntriesOf(s)[at..] :: GoesUp(e.hash, k) == runUp
  {
    hide GoesUp;
    var es := EntriesOf(s);
    forall e <- es[at..]
      ensures GoesUp(e.hash, k) == runUp
    {
      var j :| 0 <= j < |es[at..]| && es[at..][j] == e;
      assert es[at + j] == EntryOf(s[at + j]);
    }
  }

  lemma Halfway(s: seq<BinNode>, bin: BinNode, at: nat, k: nat, runUp: bool)
    requires IsList(s, bin) && at < |s| && OneWay(s, at, k, runUp)
    ensures var es := EntriesOf(s);
            if runUp then Halves([], s[at..], null, s[at], es, at, 0, k)
              else Halves(s[at..], [], s[at], null, es, at, 0, k)
  {
    hide GoesUp, IsList, EntriesOf, OneWay, Half;
    var es := EntriesOf(s);
    RunEntries(s, at, k, runUp);
    ListFrom(s, bin, at);
    EntriesFrom(s, at);
    HalfOfRun(es[at..], k, false, runUp);
    HalfOfRun(es[at..], k, true, runUp);
    EmptyHalf(es, k);
  }

  lemma EmptyHalf(es: seq<Entry>, k: nat)
    ensures Reversed(Half(es[..0], k, false)) == [] && Reversed(Half(es[..0], k, true)) == []
  {
  }

  /** A half after one more node. */
  lemma HalfAdvances(es: seq<Entry>, at: nat, i: nat, k: nat, up: bool)
    requires i < at <= |es|
    ensures var part := Reversed(Half(es[..i], k, up)) + Half(es[at..], k, up);
            Reversed(Half(es[..i + 1], k, up)) + Half(es[at..], k, up) == if GoesUp(es[i].hash, k) == up then [es[i]] +
              part else part
  {
    hide Half, Reversed, GoesUp;
    HalfOfNext(es, i, k, up);
    var r, end := Reversed(Half(es[..i], k, up)), Half(es[at..], k, up);
    assert [es[i]] + (r + end) == ([es[i]] + r) + end;
  }

  /** The lists share no node. */
  ghost predicate Unshared(lo: seq<BinNode>, hi: seq<BinNode>) {
    forall n <- lo :: n !in hi
  }

  method CopyNode(p: BinNode, k: nat, low: BinNode?, high: BinNode?,
                  ghost lo: seq<BinNode>, ghost hi: seq<BinNode>, ghost es: seq<Entry>, ghost at: nat, ghost i: nat)
    returns (low': BinNode?, high': BinNode?, ghost lo': seq<BinNode>, ghost hi': seq<BinNode>, ghost n: BinNode)
    requires i < at <= |es| && Halves(lo, hi, low, high, es, at, i, k) && es[i] == EntryOf(p)
    ensures Halves(lo', hi', low', high', es, at, i + 1, k) && fresh(n)
    ensures forall m <- lo' + hi' :: m == n || m in lo + hi
    ensures Unshared(lo, hi) ==> Unshared(lo', hi')
  {
    hide GoesUp, Half, Reversed, IsList, EntriesOf;
    HalfAdvances(es, at, i, k, false);
    HalfAdvances(es, at, i, k, true);
    low', high', lo', hi' := low, high, lo, hi;
    if !GoesUp(p.hash, k) {
      low' := PutInFront(p, low, lo);
      lo', n := [low'] + lo, low';
    } else {
      high' := PutInFront(p, high, hi);
      hi', n := [high'] + hi, high';
    }
  }

  /** Splits a list in two, with new nodes up to the last run, and the nodes of the last run as
      they are. */
  method SplitList(bin: BinNode, k: nat, ghost s: seq<BinNode>)
    returns (low: BinNode?, high: BinNode?, ghost lo: seq<BinNode>, ghost hi: seq<BinNode>, ghost at: nat)
    requires IsList(s, bin) && |s| > 0
    ensures IsList(lo, low) && IsList(hi, high) && at < |s|
    ensures EntriesOf(lo) == SplitHalf(EntriesOf(s), at, k, false) &&
            EntriesOf(hi) == SplitHalf(EntriesOf(s), at, k, true)
    ensures Unshared(lo, hi) && forall n <- lo + hi :: fresh(n) || n in s[at..]
    ensures forall i | AllIn(EntriesOf(s), k, i) :: IsSplit(EntriesOf(s), EntriesOf(lo), EntriesOf(hi), k, i)
  {
    hide Halves, IsSplit, AllIn, SplitHalf, OneWay, EntriesOf, GoesUp, Half, Reversed;
    var lastRun, runUp;
    lastRun, runUp, at := FindLastRun(bin, k, s);
    ghost var es := EntriesOf(s);
    Halfway(s, bin, at, k, runUp);
    low, high := if runUp then null else lastRun, if runUp then lastRun else null;
    lo, hi := if runUp then [] else s[at..], if runUp then s[at..] else [];
    var p := bin;
    ghost var i, n := 0, bin;
    while p != lastRun
      invariant 0 <= i <= at && p == s[i]
      invariant Halves(lo, hi, low, high, es, at, i, k)
      invariant Unshared(lo, hi) && forall n <- lo + hi :: fresh(n) || n in s[at..]
      decreases at - i
    {
      low, high, lo, hi, n := CopyNode(p, k, low, high, lo, hi, es, at, i);
      p := p.next;
      i := i + 1;
    }
    if i < at {
      NodesDiffer(s, bin, i, at);
    }
    HalvesDone(lo, hi, low, high, es, at, i, k);
    forall i | AllIn(es, k, i)
      ensures IsSplit(es, EntriesOf(lo), EntriesOf(hi), k, i)
    {
      ListIsSplit(es, at, k, i);
    }
  }

  lemma HalvesDone(lo: seq<BinNode>, hi: seq<BinNode>, low: BinNode?, high: BinNode?, es: seq<Entry>, at: nat, i: nat,
                   k: nat)
    requires i == at <= |es| && Halves(lo, hi, low, high, es, at, i, k)
    ensures IsList(lo, low) && IsList(hi, high)
    ensures EntriesOf(lo) == SplitHalf(es, at, k, false) && EntriesOf(hi) == SplitHalf(es, at, k, true)
  {
  }
}
