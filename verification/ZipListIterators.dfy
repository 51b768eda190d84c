/** Walks along a packed list from either end (src/svalue/zip_list.rs). */
module ZipListIterators {
  import opened Bytes
  import opened Options
  import opened ZipListCodec
  import opened ZipListLayout
  import opened ZipListBlock
  import opened ZipListEdits
  import opened ZipLists

  /** Reads the entry at a place, and how long it is. */
  method ReadEntry(list: ZipList, off: nat, ghost es: seq<Entry>, ghost i: nat) returns (v: Entry, size: nat, prev: nat)
    requires Holdable(es) && i < |es| && AllEncodable(es[..i]) && list.bytes == Rep(es) && off == Offset(es, i)
    ensures v == es[i] && prev == PrevSize(es, i) && off < |list.bytes|
    ensures AllEncodable(es[..i + 1]) && off + size == Offset(es, i + 1) && PrevSize(es, i + 1) == size
  {
    assert Fit(0, es);
    hide Layout, Header, At, EntrySize, EntryBytes, PrevSize, Rep, Tail, Offset, Fit, Holdable;
    EntryAt(es, i);
    ghost var a, p, rest := Header(Tail(es), |es|) + Layout(0, es[..i]), PrevSize(es, i),
      Layout(EntrySize(PrevSize(es, i), es[i]), es[i + 1..]);
    prev := list.PrevLengthAt(off, a, p, es[i], rest);
    v := list.ValueAt(off, a, p, es[i], rest);
    size := list.BlobLenAt(off, a, p, es[i], rest);
  }

  class Iter {
    const list: ZipList
    var off: nat
    ghost const es: seq<Entry>
    ghost var at: nat

    /** The entries before `at` have been passed. */
    ghost predicate Valid()
      reads this, list
    {
      Holdable(es) && list.bytes == Rep(es) && at <= |es| && AllEncodable(es[..at]) && off == Offset(es, at)
    }

    constructor (list: ZipList, ghost es: seq<Entry>)
      requires Holdable(es) && list.bytes == Rep(es)
      ensures Valid() && at == 0 && this.list == list && this.es == es
    {
      this.list, this.es := list, es;
      off, at := HEADER_SIZE, 0;
      assert Layout(0, es[..0]) == [];
    }

    method Next() returns (r: Option<Entry>)
      requires Valid()
      modifies this`off, this`at
      ensures Valid() && if old(at) < |es| then r == Some(es[old(at)]) && at == old(at) + 1
              else r == None && at == old(at)
    {
      hide Layout, Header, Rep, Tail;
      AtEnd(es, at);
      if off == |list.bytes| {
        return None;
      }
      var v, size, _ := ReadEntry(list, off, es, at);
      off, at := off + size, at + 1;
      return Some(v);
    }
  }

  class IterRev {
    const list: ZipList
    var off: nat
    ghost const es: seq<Entry>
    ghost var left: nat

    /** The first `left` entries have not been passed. */
    ghost predicate Valid()
      reads this, list
    {
      && Holdable(es) && list.bytes == Rep(es) && left <= |es|
      && if left > 0 then AllEncodable(es[..left - 1]) && off == Offset(es, left - 1)
        else off == if es == [] then |list.bytes| else 0
    }

    constructor (list: ZipList, ghost es: seq<Entry>)
      requires Holdable(es) && list.bytes == Rep(es)
      ensures Valid() && left == |es| && this.list == list && this.es == es
    {
      var tail := list.GetTailOffset(Tail(es), |es|, Layout(0, es)) by {
        TailFits(es);
      }
      this.list, this.es := list, es;
      off, left := tail, |es|;
      TailAt(es);
    }

    method Next() returns (r: Option<Entry>)
      requires Valid()
      modifies this`off, this`left
      ensures Valid() && if old(left) > 0 then r == Some(es[old(left) - 1]) && left == old(left) - 1
              else r == None && left == 0
    {
      if left > 0 {
        AtEnd(es, left - 1);
        IsBehindHeader(es, left - 1);
      }
      hide Layout, Header, Rep, Tail, Offset, Fit;
      if off == |list.bytes| || off == 0 {
        return None;
      }
      var v, _, prev := ReadEntry(list, off, es, left - 1);
      StepBack(es, left - 1);
      off := if prev == 0 then 0 else off - prev;
      left := left - 1;
      return Some(v);
    }
  }

  lemma TailFits(es: seq<Entry>)
    requires Holdable(es)
    ensures AllEncodable(es) && Tail(es) < WORD_LIMIT
  {
    TailAt(es);
    HeaderSize(Tail(es), |es|);
  }

  lemma IsBehindHeader(es: seq<Entry>, i: nat)
    requires i <= |es| && AllEncodable(es) && AllEncodable(es[..i])
    ensures Offset(es, i) >= HEADER_SIZE
  {
  }

  /** The recorded length leads to the entry in front, and is 0 at the first one only. */
  lemma StepBack(es: seq<Entry>, i: nat)
    requires Holdable(es) && i < |es|
    ensures i == 0 <==> PrevSize(es, i) == 0
    ensures i > 0 ==>
            AllEncodable(es[..i]) && AllEncodable(es[..i - 1]) && Offset(es, i) - PrevSize(es, i) == Offset(es, i - 1)
  {
    if i > 0 {
      PartTo(es, i - 1);
    }
  }

  // ---- searches ----

  /** The last entry that is like `v`, if there is one. */
  method Find(list: ZipList, like: Entry -> bool, ghost es: seq<Entry>) returns (r: Option<Entry>, ghost k: nat)
    requires Holdable(es) && list.bytes == Rep(es)
    ensures r.Some? ==> k < |es| && r.value == es[k] && like(es[k]) && forall i | k < i < |es| :: !like(es[i])
    ensures r.None? ==> forall e <- es :: !like(e)
  {
    hide Holdable, Rep;
    var iter := new IterRev(list, es);
    k := 0;
    r := iter.Next();
    while r.Some?
      invariant iter.Valid() && fresh(iter) && iter.es == es && iter.list == list
      invariant iter.left <= |es|
      invariant if r.Some? then iter.left < |es| && r.value == es[iter.left] else iter.left == 0
      invariant forall i | (if r.Some? then iter.left < i else 0 <= i) && i < |es| :: !like(es[i])
      decreases iter.left, r.Some?
    {
      k := iter.left;
      if like(r.value) {
        return;
      }
      r := iter.Next();
    }
  }

  /** The first entry that is like `v`, and its place. */
  method FindMut(list: ZipList, like: Entry -> bool, ghost es: seq<Entry>) returns (r: Option<nat>, ghost k: nat)
    requires Holdable(es) && list.bytes == Rep(es)
    ensures r.Some? ==>
            k < |es| && AllEncodable(es[..k]) && r.value == Offset(es, k) && like(es[k]) && forall i | 0 <= i < k ::
            !like(es[i])
    ensures r.None? ==> forall e <- es :: !like(e)
  {
    var off := HEADER_SIZE;
    k := 0;
    assert Layout(0, es[..0]) == [];
    hide Rep, Holdable, Offset, Layout;
    AtEnd(es, 0);
    while off != |list.bytes|
      invariant k <= |es| && AllEncodable(es[..k]) && off == Offset(es, k)
      invariant off == |list.bytes| <==> k == |es|
      invariant forall i | 0 <= i < k :: !like(es[i])
      decreases |es| - k
    {
      var v, size, _ := ReadEntry(list, off, es, k);
      if like(v) {
        return Some(off), k;
      }
      off, k := off + size, k + 1;
      AtEnd(es, k);
    }
    r := None;
  }
}
